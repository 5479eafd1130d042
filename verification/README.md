# Failover, verified in Dafny

A Dafny 4.11 model of the VRRP implementation *failover* and proofs of what it guarantees.
`dafny verify dfyconfig.toml` checks the whole project.

The model follows the code, from bytes to whole networks:

- **Wire, InternetChecksum, Packet, Codec, CodecProofs** - advertisements of VRRPv2 and VRRPv3 over
  IPv4 and IPv6. `Codec` runs as the program does (a growing buffer whose checksum octets are
  overwritten at the end, a read cursor, a checksum object fed in chunks) and is proved equal to the
  functions of `Packet`; `CodecProofs` proves round trips, corruption and re-encoding about those.
- **WireFormat** - the messages octet by octet and the checksum totals in numbers.
- **Timers** - durations in 1/256 s and deadlines in nanoseconds (1/256 s is 3 906 250 ns), with the
  proof that the single-precision arithmetic of the program is exact.
- **Machine, VirtualRouter** - one router. `Machine` has each locked section of the program as a step
  on a value; the classes of `VirtualRouter.dfy` carry the steps out in place and are proved to do
  exactly that, and to keep state and timer coherent.
- **RouterProofs** - properties of one router over every run. **Transitions** - every transition in the
  protocol's own numbers. **Reception** - which datagrams count.
- **Lists, AddressCheck** - what the receiver's address check lets through.
- **Network** - any number of routers. Everything ever sent may be delivered to anyone at any time,
  any number of times, or never, or with an octet damaged.
- **Election** - convergence in rounds. **SplitBrain** - two Masters that never yield.
  **Heartbeat** - a Master and a Backup in real time.
- **Config, Naming** - validation, the settings of a router, and mac-vlan names.

## Where the code and the protocol's documents part

The model keeps the code. These are the places where a property one would expect does not hold, with
the condition under which it does:

- A Master that hears its own non-zero priority always steps down, where section 6.4.3 of RFC 3768
  breaks the tie by address. Mastership is therefore uninterrupted exactly when no two routers share
  a non-zero priority (`Network.NoGapExactly`).
- A packet-driven transition moves the addresses of the packet's family only. Addresses follow
  mastership exactly for v2 routers, routers with no addresses at all, and routers of IPv4
  addresses with an interval above 40 s, which validation refuses for v3
  (`RouterProofs.AddressesFollowMastershipExactly`).
- A Backup that hears a lower priority and may preempt becomes Master at once, where section 6.4.2 of
  RFC 3768 discards the advertisement, and without the advertisement and announcements a takeover by
  timer makes (`RouterProofs.OnlyTimerTakeoverAnnounces`).
- A shutdown advertises the router's own priority, where section 6.4.3 of RFC 3768 asks for 0; the
  peers' wait is shortened exactly when the configured priority is 0
  (`RouterProofs.ShutdownHastensOnlyPriorityZero`).
- The own-source filter looks at every interface, mac-vlans included. A Master gives way over IPv4
  to a sender that outranks it exactly when the sender's address is on none of its interfaces
  (`SplitBrain.YieldsOverIpv4Exactly`), so one that holds the virtual address an owner sends from
  never hears that owner over IPv4. A v3 router may still hear it over IPv6. Two routers can stay
  Master both for good exactly when the lower one, its virtual addresses up, hears the higher one
  over neither family (`SplitBrain.SplitBrainExactly`).
- A v3 interval survives the 12-bit field exactly up to 40 s, the cap of the validation
  (`RouterProofs.IntervalSurvives`). An interval of 0 is not refused; the takeover bound of
  `Heartbeat.NoSpuriousTakeoverExactly` covers it like any other.
- The address check compares counts and looks each address up. For a received list without
  repetitions that is set equality with addresses configured once each; every list that passes
  consists of the configured addresses exactly when no two of these differ
  (`AddressCheck.AcceptedListExactly`, `AddressCheck.ListCheckIsSetEqualityExactly`).

## Model

| member | source | states |
|---|---|---|
| InternetChecksum.FoldAdd | src/packet.rs:105-107 | the running sum with end-around carry computes the one's complement sum of section 2 of RFC 1071 |
| InternetChecksum.WordSumConcat | src/packet.rs:281-288 | sums of parts add when the first has even length |
| InternetChecksum.PatchVerifies | src/packet.rs:105-107 | writing the checksum over a zeroed field makes the whole message verify |
| InternetChecksum.ByteChangeCaught | src/packet.rs:275-279 | any change of one octet of a verifying message is detected |
| InternetChecksum.WordChangeEscapesExactly | src/packet.rs:275-279 | a change of one aligned word is undetected exactly when it swaps 0x0000 and 0xFFFF |
| InternetChecksum.Checksum.AddBytes | src/packet.rs:281-288 | chunks of any length, odd ones included, stand for their concatenation |
| InternetChecksum.Checksum.Value | src/packet.rs:105-107 | the two octets are the checksum of everything added |
| Codec.EncodeV4 | src/packet.rs:72-109 | the buffer built octet by octet and patched is the IPv4 wire form |
| Codec.EncodeV6 | src/packet.rs:111-135 | the same for IPv6, with the pseudo-header |
| Codec.ChecksumV6 | src/packet.rs:281-288 | five chunks give the checksum of pseudo-header and message joined |
| Codec.EncodePacket | src/packet.rs:59-70 | dispatch by family; an IPv4 source for IPv6 addresses becomes unspecified |
| Codec.DecodeV4 | src/packet.rs:154-219 | total, never reads past the end, an accepted message is consumed to its end |
| Codec.DecodeV6 | src/packet.rs:221-273 | the same for IPv6; v2 is refused |
| Codec.VerifyChecksumV4 | src/packet.rs:275-279 | asked only about data of even length, it tells whether the sum of RFC 1071 is all ones |
| Codec.VerifyChecksumV6 | src/packet.rs:281-289 | the same, with the pseudo-header |
| Codec.DecodePacket | src/packet.rs:140-152 | dispatch by source and destination family |
| CodecProofs.EncodedV4Verifies | src/packet.rs:105-108 | every encoded IPv4 message passes the receiver's checksum |
| CodecProofs.EncodedV6Verifies | src/packet.rs:127-134 | every encoded IPv6 message with its pseudo-header does |
| CodecProofs.V4RoundTrip | src/packet.rs:72-109 | decoding an encoded packet gives it back with the interval as the wire holds it, exactly up to 16 addresses; longer lists are malformed |
| CodecProofs.V6RoundTrip | src/packet.rs:111-135 | the same for IPv6, and UnsupportedVersion for every v2 packet |
| CodecProofs.CorruptionCaughtV4 | src/packet.rs:196-198 | no message with a good checksum decodes after one octet changed |
| CodecProofs.CorruptionCaughtV6 | src/packet.rs:255-257 | the same for IPv6 |
| CodecProofs.SourceCorruptionCaught | src/packet.rs:255-257 | one changed octet of the source address gives exactly BadChecksum |
| CodecProofs.FieldDetermined | src/packet.rs:275-279 | the checksum field of a verifying message is determined but for the two forms of zero |
| CodecProofs.ReencodeV4Exactly | src/packet.rs:154-219 | re-encoding an accepted message reproduces it exactly when it is canonical and its checksum is not 0xFFFF, which comes back as 0x0000 |
| CodecProofs.ReencodeV6Exactly | src/packet.rs:221-273 | the same for IPv6 |
| WireFormat.EncodedV4Octets | src/packet.rs:72-109 | every octet of an encoded IPv4 message in numbers, and the checksum as the one that makes the words sum to all ones |
| WireFormat.EncodedV6Octets | src/packet.rs:111-135 | the same for IPv6, the total over both addresses, length, protocol number and message written out |
| WireFormat.DecodedV4Octets | src/packet.rs:154-219 | exactly which octets the IPv4 decoder accepts, what it reads from them, and which error it gives for the others; authentication data are not looked at |
| WireFormat.DecodedV6Octets | src/packet.rs:221-273 | the same for IPv6, with the checksum total in numbers |
| WireFormat.Ipv6ChecksumCovers | src/packet.rs:281-289 | the five chunks verify exactly when both addresses, the length, 112 and the message sum to all ones |
| WireFormat.DestinationCorruptionCaught | src/packet.rs:255-257 | one changed octet of the destination gives exactly BadChecksum |
| WireFormat.FamiliesDoNotMix | src/packet.rs:145-151 | an IPv6 source with an IPv4 destination is malformed; the addresses choose the form that is encoded |
| Timers.SinglePrecisionIsExact | src/router.rs:62-75 | under any rounding that keeps representable values, skew time and master-down interval are exact multiples of 1/256 s |
| Timers.DurationIsExact | src/state_machine.rs:11-29 | a duration becomes a whole number of nanoseconds |
| Timers.MasterDownBounds | src/router.rs:62-75 | the master-down interval lies above three intervals and at most four (v3) or three and a second (v2) |
| Timers.MasterDownDecreases | src/router.rs:62-75 | skew time and master-down interval strictly decrease in priority |
| RouterProofs.AdvertFiresExactly | src/state_machine.rs:11-19 | a Master whose timer is set advertises at the polls more than the interval later, and at no other does anything change |
| RouterProofs.MasterDownFiresExactly | src/state_machine.rs:21-29 | a Backup whose timer is set becomes Master at the polls more than the duration later, and at no other does anything change |
| VirtualRouters.VirtualRouter.constructor | src/router.rs:49-103 | a new router is in Init, waits for nothing, and has the derived times of its settings |
| VirtualRouters.VirtualRouter.SendAdvertisement | src/router.rs:109-137 | one IPv4 advertisement, and one over IPv6 from a v3 router with an IPv6 source, encoded |
| VirtualRouters.VirtualRouter.SendGratuitousArps | src/router.rs:141-162 | one announcement for each IPv4 address, in order |
| VirtualRouters.VirtualRouter.SendNeighborAdvertisements | src/router.rs:167-179 | one for each IPv6 address of a v3 router |
| VirtualRouters.VirtualRouter.ApplyV4 | src/general.rs:159-198 | adding or deleting address by address adds or deletes the whole list |
| VirtualRouters.VirtualRouter.NotifyMut | src/observer.rs:74-149 | each event carries out its transition and keeps state and timer coherent |
| VirtualRouters.VirtualRouter.PollTimer | src/core_tasks.rs:177-229 | one poll carries out the tick; the branches without a deadline are unreachable |
| VirtualRouters.VirtualRouter.HandleIncomingV4 | src/pkt/handlers.rs:192-213 | own sources are filtered, everything else is processed |
| VirtualRouters.VirtualRouter.HandleIncomingV6 | src/pkt/handlers.rs:218-237 | the same, with the group address and hop limit 255 assumed |
| VirtualRouters.VirtualRouter.ProcessVrrpPacket | src/pkt/handlers.rs:239-426 | the checks in their order with what is logged, also about an owner's packet that is let through, then the state machine, and no change when a check fails |
| VirtualRouters.VirtualRouter.CheckAddresses | src/pkt/handlers.rs:304-324 | the count and list checks of the packet's family |
| VirtualRouters.VirtualRouter.ReactTo | src/pkt/handlers.rs:355-425 | the packet-driven transitions |
| RouterProofs.AlwaysCoherent | src/core_tasks.rs:186-229 | over every run Init has no timer, Backup waits for master-down, Master for its advertisement, each with a deadline |
| RouterProofs.ShutdownIsFinal | src/observer.rs:107-133 | after a shutdown no packet, tick or further shutdown changes anything |
| RouterProofs.StartsAsMasterExactly | src/observer.rs:81-106 | a router starts as Master, advertising, exactly with priority 255; any other starts as a silent Backup |
| RouterProofs.OnlyTimerTakeoverAnnounces | src/observer.rs:134-145 | a takeover by timer advertises and, in the frames it adds, announces every address; a takeover by preemption sends nothing |
| RouterProofs.ResignationAnswered | src/pkt/handlers.rs:385-392 | a Master answers a priority-0 advertisement, and a Backup that hears the answer waits its full time again |
| Reception.AcceptedExactly | src/pkt/handlers.rs:263-342 | a datagram reaches the state machine exactly when its source is on no interface, its message decodes, and TTL, VRID, interval, list and version are right |
| Reception.RoutedIsIgnored | src/pkt/handlers.rs:264-268 | an IPv4 datagram with a TTL other than 255 changes nothing |
| Reception.UnreadableIsIgnored | src/pkt/handlers.rs:255-261 | nor does one that does not decode, or from an own address |
| Reception.HeaderFieldsIgnored | src/pkt/handlers.rs:218-237 | over IPv6 neither hop limit nor destination of the datagram matter |
| Reception.LoggedExactly | src/pkt/handlers.rs:255-342 | which error is logged, with its values, for every datagram |
| RouterProofs.AdvertV4Accepted | src/pkt/handlers.rs:263-342 | an encoded IPv4 advertisement reaches the peer's state machine under exactly these conditions, with the sender's priority |
| RouterProofs.AdvertV6Accepted | src/pkt/handlers.rs:263-353 | the same for IPv6 |
| RouterProofs.IntervalSurvives | src/config.rs:237-245 | an interval survives the wire in v2 always, in v3 exactly up to 40 s |
| RouterProofs.SelfCompatible | src/router.rs:109-123 | peers configured alike accept each other's IPv4 advertisements exactly for those intervals |
| RouterProofs.SelfCompatibleV6 | src/router.rs:125-136 | the same for IPv6 |
| AddressCheck.AcceptedListExactly | src/pkt/handlers.rs:306-342 | an owner's list is not checked; another's is accepted exactly by count and look-up, which without repetitions is set equality with addresses configured once each |
| AddressCheck.ListCheckIsSetEqualityExactly | src/pkt/handlers.rs:306-342 | all accepted lists of non-owners are the configured addresses exactly when no family that is heard has two different ones |
| Lists.CheckIsSetEqualityExactly | src/pkt/handlers.rs:306-324 | the same of the two lists alone |
| Lists.ChecksWithoutRepetition | src/pkt/handlers.rs:306-324 | for a received list without repetitions the check is set equality, in any order, with a local list without repetitions |
| AddressCheck.RepeatedAddressSlipsThrough | src/pkt/handlers.rs:306-342 | an encoded advertisement that repeats one configured address and misses another is accepted |
| RouterProofs.PacketMovesItsFamily | src/pkt/handlers.rs:344-419 | an advertisement keeps its own family's addresses in line with the state and touches no other |
| RouterProofs.RunKeepsAddresses | src/observer.rs:81-145 | over every run of a router that has one family to move, the addresses are up exactly when it is Master |
| RouterProofs.V3LeavesAddressesBehind | src/pkt/handlers.rs:344-401 | for every v3 router with an IPv6 address, or with an IPv4 address and an interval of at most 40 s, a run that leaves an address up on a Backup |
| RouterProofs.AddressesFollowMastershipExactly | src/pkt/handlers.rs:344-419 | addresses follow mastership in all runs exactly for v2 routers, empty lists, and IPv4 lists with an interval above 40 s, when nothing is heard over IPv6 |
| RouterProofs.NothingBeforeDeadline | src/core_tasks.rs:189-202 | no tick up to the deadline moves a Backup or a Master that accepts nothing |
| RouterProofs.BoundedFailover | src/core_tasks.rs:188-209 | the first tick strictly after the deadline, at most a second late, makes it Master with its advertisement sent |
| RouterProofs.ResetBounds | src/pkt/handlers.rs:356-419 | how far away an advertisement puts the deadline of a router it leaves Backup, from Master as well, by version and for priority 0 |
| RouterProofs.FailoverAfterAdvert | src/pkt/handlers.rs:356-419 | such a router is Master within 4a+1 s (v3), 3a+2 s (v2) of the advertisement and not within 3a s, or within skew time and 1 s after priority 0 |
| Transitions.StateAfterAdvert | src/pkt/handlers.rs:355-425 | exactly which advertisements change the state of a Backup, of a Master, and of neither |
| Transitions.DeadlineAfterAdvert | src/pkt/handlers.rs:355-425 | the new deadline in nanoseconds after every advertisement; a Master that hears a lower priority is unchanged |
| Transitions.SentAfterAdvert | src/pkt/handlers.rs:385-392 | a Master answers priority 0, and nothing else is answered |
| Transitions.StartupExactly | src/observer.rs:81-106 | state, log and deadline in nanoseconds after a startup; a running router ignores it |
| Transitions.ShutdownExactly | src/observer.rs:107-122 | a Backup stops in silence, a Master advertises once and takes exactly its own addresses down |
| Transitions.OtherAddressesUntouched | src/general.rs:159-198 | no step adds or removes an address that is not configured |
| Transitions.TakeoverFrames | src/observer.rs:134-145 | a takeover by timer or startup logs its advertisements, then one announcement for each configured address in order, and nothing else |
| Transitions.AdvertOnIpv4 | src/router.rs:109-123 | one advertisement to 224.0.0.18 with TTL 255, the settings and addresses octet by octet |
| Transitions.AdvertOnIpv6 | src/router.rs:125-136 | a second one to ff02::12 from a v3 router with an IPv6 source, and from no other |
| Transitions.StartedBackupTakesOver | src/observer.rs:97-104 | over any quiet run a started non-owner stays Backup up to 3a s plus skew time and is Master at the first tick after it, within 4a+1 s (v3) or 3a+2 s (v2) |
| Transitions.StartupStartsInterval | src/observer.rs:84-92 | an owner that starts waits an interval for its next advertisement |
| Transitions.TickStartsInterval | src/core_tasks.rs:188-219 | so does a router after a takeover by timer, and a Master after each advertisement |
| Transitions.ReceiptStartsInterval | src/pkt/handlers.rs:365-392 | so does a router after a preemption, and a Master that answered priority 0 |
| Transitions.NextAdvert | src/core_tasks.rs:211-219 | over any quiet run a Master sends nothing until the interval has passed and advertises at the first tick after it, at most a second late |
| RouterProofs.ShutdownHastensOnlyPriorityZero | src/observer.rs:113-118 | the final advertisement carries the own priority, so peers wait only the skew time exactly when that is 0 |
| RouterProofs.HigherPriorityFiresFirst | src/router.rs:62-75 | of two Backups reset together, over any common ticks, the higher priority has become Master whenever the lower one has |
| Network.StepSpeaksAsMaster | src/router.rs:109-137 | a step sends only the router's own advertisements and only if it ends as Master |
| Network.AcceptedPriority | src/pkt/handlers.rs:255-342 | an accepted advertisement carries its sender's priority |
| Network.NeverHearsItself | src/pkt/handlers.rs:196-204 | the own-source filter drops every advertisement of the router itself |
| Network.DamagedIsDropped | src/pkt/handlers.rs:255-261 | an advertisement with one octet changed is accepted by no one |
| Network.MasterYieldsOnly | src/pkt/handlers.rs:379-423 | a Master leaves its state only for an accepted non-zero priority at least its own |
| Network.RunKeepsInv | src/pkt/handlers.rs:355-425 | over every run the highest router that has ever been Master is Master, and only such routers have advertised |
| Network.NoMastershipGap | src/pkt/handlers.rs:379-422 | without shared non-zero priorities, once a router is Master there is always a Master of at least its priority |
| Network.SharedPriorityGap | src/pkt/handlers.rs:406-420 | any two routers that share a non-zero priority and hear each other have a run, in time order, in which mastership is lost |
| Network.NoGapExactly | src/pkt/handlers.rs:355-425 | mastership is uninterrupted in all runs in time order exactly when no two routers share a non-zero priority |
| Election.RoundRaisesTop | src/pkt/handlers.rs:365-375 | the top router stays Master, and as preempting Backup becomes Master in a round with any Master |
| Election.RoundLowers | src/pkt/handlers.rs:393-405 | a router whose inferiors are all Backup is Backup after a round |
| Election.AfterKRounds | src/pkt/handlers.rs:355-425 | after k rounds the k lowest routers are Backup |
| Election.ElectionConverges | src/pkt/handlers.rs:355-425 | from n - 1 rounds on the top router is the only Master, for ever |
| Election.PreemptiveElectionConverges | src/pkt/handlers.rs:365-375 | from n rounds on if the top router starts as preempting Backup |
| SplitBrain.YieldsExactlyToTheHeard | src/pkt/handlers.rs:379-422 | whatever the order and number of deliveries, a Master gives way to a sender that outranks it exactly when it hears one of its advertisements |
| SplitBrain.YieldsOverIpv4Exactly | src/pkt/handlers.rs:196-204 | over IPv4, exactly when the sender's address is on none of the Master's interfaces |
| SplitBrain.YieldsOverIpv6Exactly | src/pkt/handlers.rs:223-228 | over IPv6, exactly when moreover it is a v3 router |
| SplitBrain.SplitBrainExactly | src/pkt/handlers.rs:196-204 | two routers of different priority can, from their start, come to stay Master both for good exactly when the lower one, its addresses up, hears the higher over neither family |
| SplitBrain.OwnerIsNeverHeard | src/pkt/handlers.rs:196-204 | a run into such a state when the higher router sends, over IPv4 alone, from a virtual address of the lower one |
| SplitBrain.HearingEndsStandoff | src/pkt/handlers.rs:393-405 | from any point of any run, a heard higher router can end the state by its next advertisement |
| Heartbeat.AdvertGap | src/core_tasks.rs:211-219 | a live Master's advertisements are at most an interval and a second apart |
| Heartbeat.NoSpuriousTakeoverExactly | src/core_tasks.rs:188-224 | no Backup takes over from a live Master in any timely run exactly when interval, poll period and delay fit in the master-down interval |
| Heartbeat.TwoIntervalsLessASecondIsSafe | src/core_tasks.rs:188-224 | for intervals of at least 1 s a delay up to 2a - 1 s is safe for every version and priority |
| Heartbeat.SpuriousTakeover | src/core_tasks.rs:188-224 | beyond the bound, a timely run in which the Backup takes over |
| Config.ValidateConfigs | src/config.rs:233-296 | accepts exactly the acceptable lists, and reports of the first faulty instance the interval, else the first bad address, else the first later instance with its name or VRID |
| Config.OrderDoesNotMatter | src/config.rs:277-293 | acceptance does not depend on the order of the list |
| Config.ConfigToVr | src/general.rs:59-103 | the configured name, VRID, version, priority, interval and preempt mode, and exactly the addresses among the first 16 texts, by family and in order |
| Config.ListsPartition | src/general.rs:75-88 | every parsed address lands in the list of its family and none elsewhere |
| Config.AcceptedSettings | src/general.rs:59-103 | an accepted configuration loses none of its first 16 addresses and gives a v2 router no IPv6 |
| Config.AcceptedConfigsInteroperate | src/config.rs:233-296 | end to end, the advertisements of an accepted configuration reach the state machine of a peer with the same VRID, interval and addresses |
| Config.ConfiguredPriorityDecides | src/pkt/handlers.rs:355-425 | from configurations to states: what the configured priorities and preempt mode make of a Backup or Master that hears its peer |
| Config.ConfiguredPreemption | src/pkt/handlers.rs:365-375 | a started Backup that hears a lower non-zero configured priority becomes Master exactly when it is configured to preempt |
| Naming.Fnv1aHash | src/general.rs:201-211 | the loop computes the 32-bit FNV-1a fold |
| Naming.HashOfOneMore | src/general.rs:206-209 | the hash takes one octet after the other, from the first to the last |
| Naming.NameDetermines | src/general.rs:242-249 | a mac-vlan name determines family and VRID, whatever the parents and hash collisions |
| Naming.NameReads | src/general.rs:242-249 | the name in full: the family's prefix, the VRID in decimal without leading zeros, and the low 16 bits of the hash in lower-case hexadecimal |
| Naming.NameFits | src/general.rs:237-249 | a name has at most 15 characters |
| Naming.InterfacesNotShared | src/general.rs:242-249 | in an accepted list no two instances of one version get one name |
| Naming.AtMostTwoShare | src/general.rs:242-249 | no three instances of an accepted list share a name |

## Left out

- Sockets, raw frames, listeners and receive loops: operating-system input and output; sending appends to a log.
- Netlink and `/proc`: address operations are taken to succeed, and mac-vlan creation and deletion is not part of this model.
- Interface lookups that fail, a missing MAC address, a poisoned lock: the error returns of `notify_mut` and the end of the polling task they cause.
- Changes of the host's other interfaces during a run: their addresses are fixed in `hostAddrs`, and a sibling instance's mac-vlan is not updated here.
- The clock within one locked section: a section reads one instant, where the program may read the clock twice.
- The `internet_checksum` crate is not part of this model; `InternetChecksum.Checksum` is the running sum of RFC 1071 it stands for.
- Parsing of address texts: a function from text to IPv4 network, IPv6 network or failure; the text of log lines and errors.
- Command line, JSON, logging and file handling: plumbing.
- ARP and NDP frame layouts and replies: fixed-size copies; announcements appear in the log by address only.
- Tokio tasks and signals: runs are arbitrary interleavings of startup, packets, ticks and shutdown.
- Network.NoMastershipGap: runs without shutdowns, since a Master that shuts down leaves a gap by design.
- Election.ElectionConverges: rounds in which no master-down deadline passes; the real-time side is in `Heartbeat`.
- Heartbeat.NoSpuriousTakeoverExactly: one Master and one Backup, over IPv4. A third router is not in this model; its priority-0 advertisement would cut the Backup's wait to the skew time, and one of lower priority would make a preempting Backup Master.
- SplitBrain.SplitBrainExactly: two routers alone on the link, in runs without shutdowns.
