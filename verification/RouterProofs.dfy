/** What holds of one router over every run: coherent timers, addresses that follow
    mastership, bounded failover, and which advertisements reach the state machine. */
module RouterProofs {
  import opened Wire
  import opened Packet
  import opened CodecProofs
  import opened Timers
  import opened Machine

  // ----- State and timer -----

  /** Init waits for nothing, Backup for the master-down timer, Master for the advertisement
      timer, each with a deadline. */
  predicate Coherent(r: Router) {
    var t := r.fsm.timer;
    match r.fsm.state
    case Init => t == IDLE
    case Backup => t.tType.MasterDownTimer? && t.waitingFor.Some?
                   && (t.remaining == MasterDownInterval(r.cfg) || t.remaining == Skew(r.cfg))
    case Master => t.tType.AdverTimer? && t.waitingFor.Some? && t.remaining == AdvertUnits(r.cfg.advertInterval)
  }

  predicate Fresh(r: Router) {
    r.fsm == Fsm(IDLE, Init, Startup)
  }

  lemma {:induction false} NotifyKeepsCoherent(r: Router, event: Event, now: Instant)
    requires Coherent(r)
    ensures Coherent(Notify(r, event, now)) && Notify(r, event, now).cfg == r.cfg
  {
  }

  lemma {:induction false} ReactKeepsCoherent(r: Router, p: VrrpPacket, now: Instant)
    requires Coherent(r)
    ensures Coherent(React(r, p, now)) && React(r, p, now).cfg == r.cfg
  {
  }

  lemma {:induction false} StepKeepsCoherent(r: Router, input: Input)
    requires Coherent(r)
    ensures Coherent(Step(r, input)) && Step(r, input).cfg == r.cfg
  {
    match input
    case StartupAt(now) => NotifyKeepsCoherent(r, Startup, now);
    case ShutdownNow => NotifyKeepsCoherent(r, Shutdown, 0);
    case TickAt(now) => NotifyKeepsCoherent(r, MasterDown, now);
    case Packet(d, now) =>
      if Accepted(r, d).Some? {
        ReactKeepsCoherent(r, Accepted(r, d).value, now);
      }
  }

  /** Over every interleaving of packets, ticks, startups and shutdowns the state and the timer
      agree, so a running timer always has a deadline. */
  lemma {:induction false} AlwaysCoherent(r: Router, inputs: seq<Input>)
    requires Coherent(r)
    ensures var e := Exec(r, inputs);
            && Coherent(e) && e.cfg == r.cfg
            && (e.fsm.timer.tType.NullTimer? <==> e.fsm.state.Init?)
            && (e.fsm.timer.tType.MasterDownTimer? <==> e.fsm.state.Backup?)
            && (!e.fsm.timer.tType.NullTimer? ==> e.fsm.timer.waitingFor.Some?)
    decreases |inputs|
  {
    if inputs == [] {
    } else {
      StepKeepsCoherent(r, inputs[0]);
      AlwaysCoherent(Step(r, inputs[0]), inputs[1..]);
    }
  }

  /** After a shutdown nothing but a new startup wakes the router: it keeps its state, its
      addresses and its silence. */
  lemma {:induction false} ShutdownIsFinal(r: Router, inputs: seq<Input>)
    requires Coherent(r)
    requires forall i :: 0 <= i < |inputs| ==> !inputs[i].StartupAt?
    ensures var down := Step(r, ShutdownNow);
            down.fsm.state == Init && Exec(down, inputs) == down
    decreases |inputs|
  {
    var down := Step(r, ShutdownNow);
    if inputs == [] {
    } else {
      assert Step(down, inputs[0]) == down;
      assert Step(down, ShutdownNow) == down;
      ShutdownIsFinal(down, inputs[1..]);
    }
  }

  // ----- Becoming Master -----

  /** A router starts as Master exactly when it owns the addresses, advertising at once; any
      other starts silently and waits. */
  lemma {:induction false} StartsAsMasterExactly(r: Router, now: Instant)
    requires Fresh(r)
    ensures var s := Step(r, StartupAt(now));
            && (s.fsm.state == Master <==> r.cfg.priority == 255)
            && (s.fsm.state == Master ==> r.sent + Adverts(r) <= s.sent)
            && (s.fsm.state != Master ==> s.fsm.state == Backup && s.sent == r.sent)
  {
  }

  lemma {:induction false} EveryArp(addrs: seq<Ipv4Addr>)
    ensures forall a :: a in addrs ==> GratuitousArp(a) in GratuitousArps(addrs)
  {
    if addrs == [] {
    } else {
      EveryArp(addrs[1..]);
      assert forall a :: a in addrs ==> a == addrs[0] || a in addrs[1..];
    }
  }

  lemma {:induction false} EveryNeighborAdvert(addrs: seq<Ipv6Addr>)
    ensures forall a :: a in addrs ==> NeighborAdvert(a) in NeighborAdverts(addrs)
  {
    if addrs == [] {
    } else {
      EveryNeighborAdvert(addrs[1..]);
      assert forall a :: a in addrs ==> a == addrs[0] || a in addrs[1..];
    }
  }

  /** The frames announce every address the router takes over. */
  predicate AnnouncesAll(cfg: Settings, frames: seq<Frame>) {
    && (forall n :: n in cfg.ipv4 ==> GratuitousArp(n.addr) in frames)
    && (cfg.version.V3? ==> forall n :: n in cfg.ipv6 ==> NeighborAdvert(n.addr) in frames)
  }

  lemma {:induction false} AnnouncementCoversAll(cfg: Settings)
    ensures AnnouncesAll(cfg, GratuitousArps(Addrs4(cfg.ipv4)) + NeighborAdverts(Addrs6(cfg.ipv6)))
    ensures cfg.version.V2? ==> AnnouncesAll(cfg, GratuitousArps(Addrs4(cfg.ipv4)) + [])
  {
    EveryArp(Addrs4(cfg.ipv4));
    EveryNeighborAdvert(Addrs6(cfg.ipv6));
    forall n | n in cfg.ipv4
      ensures n.addr in Addrs4(cfg.ipv4)
    {
      var i :| 0 <= i < |cfg.ipv4| && cfg.ipv4[i] == n;
      assert Addrs4(cfg.ipv4)[i] == n.addr;
    }
    forall n | n in cfg.ipv6
      ensures n.addr in Addrs6(cfg.ipv6)
    {
      var i :| 0 <= i < |cfg.ipv6| && cfg.ipv6[i] == n;
      assert Addrs6(cfg.ipv6)[i] == n.addr;
    }
  }

  lemma {:induction false} NewFrames(a: seq<Frame>, b: seq<Frame>, c: seq<Frame>, d: seq<Frame>)
    ensures (a + b + c + d)[|a|..] == b + (c + d)
  {
  }

  lemma {:induction false} TakeoverLog(r: Router, input: Input)
    requires Coherent(r) && r.fsm.state != Master && Step(r, input).fsm.state == Master && !input.Packet?
    ensures Step(r, input).sent == r.sent + Adverts(r) + GratuitousArps(Addrs4(r.cfg.ipv4))
                                   + if r.cfg.version.V3? then NeighborAdverts(Addrs6(r.cfg.ipv6)) else []
  {
  }

  /** A Backup that takes over by its timer advertises and announces every address; one that
      takes over by preemption, on hearing a lower priority, sends nothing at all. */
  lemma {:induction false} OnlyTimerTakeoverAnnounces(r: Router, input: Input)
    requires Coherent(r) && r.fsm.state == Backup && Step(r, input).fsm.state == Master
    ensures input.TickAt? || input.Packet?
    ensures input.TickAt? ==> r.sent + Adverts(r) <= Step(r, input).sent
                              && AnnouncesAll(r.cfg, Step(r, input).sent[|r.sent|..])
    ensures input.Packet? ==> Step(r, input).sent == r.sent && r.cfg.preempt
  {
    if input.TickAt? {
      var arps := GratuitousArps(Addrs4(r.cfg.ipv4));
      var neighbors := if r.cfg.version.V3? then NeighborAdverts(Addrs6(r.cfg.ipv6)) else [];
      AnnouncementCoversAll(r.cfg);
      TakeoverLog(r, input);
      NewFrames(r.sent, Adverts(r), arps, neighbors);
    }
  }

  /** A Master answers a resignation at once, and a Backup that keeps to it waits its full
      time again, not the skew time the resignation had left it. */
  lemma {:induction false} ResignationAnswered(m: Router, b: Router, p: VrrpPacket, now: Instant, later: Instant)
    requires m.fsm.state == Master && b.fsm.state == Backup && p.priority == 0 && m.cfg.priority != 0
    requires !b.cfg.preempt || m.cfg.priority >= b.cfg.priority
    requires Accepted(b, AdvertV4(m)).Some?
    ensures var m' := React(m, p, now);
            m'.fsm.state == Master && m'.sent == m.sent + Adverts(m) && Advert(AdvertV4(m)) in m'.sent
    ensures var b' := Receive(React(b, p, now), AdvertV4(m), later);
            b'.fsm.state == Backup && b'.fsm.timer.waitingFor == Some(After(later, MasterDownInterval(b.cfg)))
  {
    AdvertV4Accepted(b, m);
    AdvertV4Accepted(React(b, p, now), m);
  }

  // ----- Which advertisements are accepted -----

  /** Peers agree on what the receiver checks, and the interval survives the wire. */
  predicate Agrees(r: Settings, s: Settings) {
    r.vrid == s.vrid && WireInterval(s.version, s.advertInterval * 100) == r.advertInterval * 100
  }

  predicate ListFits(r: Settings, s: Settings, addresses: VrrpAddresses) {
    s.priority == 255 || (addresses.Len() == LocalCount(r, addresses) && AllConfigured(r, addresses))
  }

  /** The IPv4 advertisement of s, encoded, sent and decoded, reaches the state machine of r
      under exactly these conditions, and with the sender's own priority. */
  lemma {:induction false} AdvertV4Accepted(r: Router, s: Router)
    ensures Accepted(r, AdvertV4(s))
         == if !IsLocal(r, IpV4(s.primaryV4)) && |s.cfg.ipv4| <= MAX_IP_COUNT && Agrees(r.cfg, s.cfg)
               && ListFits(r.cfg, s.cfg, V4Addresses(Addrs4(s.cfg.ipv4)))
            then Some(AsReceived(AdvertPacket(s.cfg, V4Addresses(Addrs4(s.cfg.ipv4)))))
            else None
  {
    V4RoundTrip(AdvertPacket(s.cfg, V4Addresses(Addrs4(s.cfg.ipv4))));
  }

  lemma {:induction false} AdvertV6Accepted(r: Router, s: Router)
    requires SendsV6(s)
    ensures Accepted(r, AdvertV6(s))
         == if !IsLocal(r, IpV6(s.primaryV6.value)) && |s.cfg.ipv6| <= MAX_IP_COUNT && Agrees(r.cfg, s.cfg)
               && ListFits(r.cfg, s.cfg, V6Addresses(Addrs6(s.cfg.ipv6))) && r.cfg.version.V3?
            then Some(AsReceived(AdvertPacket(s.cfg, V6Addresses(Addrs6(s.cfg.ipv6)))))
            else None
  {
    V6RoundTrip(AdvertPacket(s.cfg, V6Addresses(Addrs6(s.cfg.ipv6))), s.primaryV6.value);
  }

  /** An interval of whole seconds survives the wire in v2 always, in v3 exactly up to 40 s. */
  lemma {:induction false} IntervalSurvives(version: VrrpVersion, interval: byte)
    ensures WireInterval(version, interval * 100) == interval * 100
       <==> version.V2? || interval <= 40
  {
  }

  /** A router's advertisement satisfies every check of a peer configured alike, unless the
      source is local to that peer, for every interval and only the intervals that
      configuration validation lets through. */
  lemma {:induction false} SelfCompatible(r: Router, s: Router)
    requires r.cfg.vrid == s.cfg.vrid && r.cfg.advertInterval == s.cfg.advertInterval
    requires r.cfg.ipv4 == s.cfg.ipv4 && |s.cfg.ipv4| <= MAX_IP_COUNT
    requires !IsLocal(r, IpV4(s.primaryV4))
    ensures Accepted(r, AdvertV4(s)).Some? <==> s.cfg.version.V2? || s.cfg.advertInterval <= 40
    ensures Accepted(r, AdvertV4(s)).Some? ==> Accepted(r, AdvertV4(s)).value.priority == s.cfg.priority
  {
    AdvertV4Accepted(r, s);
    IntervalSurvives(s.cfg.version, s.cfg.advertInterval);
  }

  lemma {:induction false} SelfCompatibleV6(r: Router, s: Router)
    requires r.cfg.vrid == s.cfg.vrid && r.cfg.advertInterval == s.cfg.advertInterval
    requires r.cfg.ipv6 == s.cfg.ipv6 && |s.cfg.ipv6| <= MAX_IP_COUNT && r.cfg.version.V3?
    requires SendsV6(s) && !IsLocal(r, IpV6(s.primaryV6.value))
    ensures Accepted(r, AdvertV6(s)).Some? <==> s.cfg.advertInterval <= 40
    ensures Accepted(r, AdvertV6(s)).Some? ==> Accepted(r, AdvertV6(s)).value.priority == s.cfg.priority
  {
    AdvertV6Accepted(r, s);
    IntervalSurvives(V3, s.cfg.advertInterval);
  }

  // ----- Virtual addresses -----

  /** The configured addresses of the router's families are up when it is Master, and none of
      them is otherwise. */
  predicate UpExactlyWhenMaster(r: Router) {
    && (r.fsm.state.Master? ==> Nets4(r.cfg) <= r.linkV4 && (r.cfg.version.V3? ==> Nets6(r.cfg) <= r.linkV6))
    && (!r.fsm.state.Master? ==> Nets4(r.cfg) !! r.linkV4 && (r.cfg.version.V3? ==> Nets6(r.cfg) !! r.linkV6))
  }

  /** Every packet that can be accepted moves every address: there is only IPv4 to move, and
      no IPv6 packet to hear. */
  predicate OneFamily(cfg: Settings) {
    cfg.version.V2? || (cfg.ipv6 == [] && (cfg.ipv4 == [] || cfg.advertInterval > 40))
  }

  lemma {:induction false} NotifyKeepsAddresses(r: Router, event: Event, now: Instant)
    requires UpExactlyWhenMaster(r)
    ensures UpExactlyWhenMaster(Notify(r, event, now))
  {
  }

  lemma {:induction false} ReactKeepsAddresses(r: Router, p: VrrpPacket, now: Instant)
    requires OneFamily(r.cfg) && UpExactlyWhenMaster(r)
    requires r.cfg.version.V2? || r.cfg.ipv4 != [] ==> FamilyOf(p).FamilyV4?
    ensures UpExactlyWhenMaster(React(r, p, now))
  {
  }

  lemma {:induction false} StepKeepsAddresses(r: Router, input: Input)
    requires OneFamily(r.cfg) && Coherent(r) && UpExactlyWhenMaster(r)
    ensures UpExactlyWhenMaster(Step(r, input))
  {
    match input
    case StartupAt(now) => NotifyKeepsAddresses(r, Startup, now);
    case ShutdownNow => NotifyKeepsAddresses(r, Shutdown, 0);
    case TickAt(now) => NotifyKeepsAddresses(r, MasterDown, now);
    case Packet(d, now) =>
      if Accepted(r, d).Some? {
        if r.cfg.advertInterval > 40 {
          LongIntervalsHearNoV6(r, d);
        }
        ReactKeepsAddresses(r, Accepted(r, d).value, now);
      }
  }

  lemma {:induction false} RunKeepsAddresses(r: Router, inputs: seq<Input>)
    requires OneFamily(r.cfg) && Coherent(r) && UpExactlyWhenMaster(r)
    ensures UpExactlyWhenMaster(Exec(r, inputs))
    decreases |inputs|
  {
    if inputs == [] {
    } else {
      StepKeepsCoherent(r, inputs[0]);
      StepKeepsAddresses(r, inputs[0]);
      RunKeepsAddresses(Step(r, inputs[0]), inputs[1..]);
    }
  }

  predicate FamilyInLine(r: Router, f: Family) {
    match f
    case FamilyV4 => if r.fsm.state.Master? then Nets4(r.cfg) <= r.linkV4 else Nets4(r.cfg) !! r.linkV4
    case FamilyV6 => if r.fsm.state.Master? then Nets6(r.cfg) <= r.linkV6 else Nets6(r.cfg) !! r.linkV6
  }

  /** An advertisement keeps the addresses of its own family in line with the state, and does
      not touch the other family's. */
  lemma {:induction false} PacketMovesItsFamily(r: Router, p: VrrpPacket, now: Instant)
    requires FamilyInLine(r, FamilyOf(p))
    ensures FamilyInLine(React(r, p, now), FamilyOf(p))
    ensures FamilyOf(p).FamilyV4? ==> React(r, p, now).linkV6 == r.linkV6
    ensures FamilyOf(p).FamilyV6? ==> React(r, p, now).linkV4 == r.linkV4
    ensures React(r, p, now).fsm.state == r.fsm.state
        ==> React(r, p, now).linkV4 == r.linkV4 && React(r, p, now).linkV6 == r.linkV6
  {
  }

  /** A source address found on none of the router's interfaces, now or as Master. */
  predicate Foreign(r: Router, ip: IpAddr) {
    && ip !in r.hostAddrs
    && (ip.IpV4? ==> forall n :: n in r.linkV4 + Nets4(r.cfg) ==> n.addr != ip.v4)
    && (ip.IpV6? ==> forall n :: n in r.linkV6 + Nets6(r.cfg) ==> n.addr != ip.v6)
  }

  /** An owner's advertisement with an empty list, over either family. */
  function OwnerPacket(cfg: Settings, family: Family): VrrpPacket {
    match family
    case FamilyV4 => VrrpPacket(V2, cfg.vrid, 255, cfg.advertInterval * 100, V4Addresses([]))
    case FamilyV6 => VrrpPacket(V3, cfg.vrid, 255, cfg.advertInterval * 100, V6Addresses([]))
  }

  function OwnerAdvert(cfg: Settings, src: IpAddr): Datagram {
    match src
    case IpV4(_) => Datagram(src, IpV4(VRRP_MCAST_ADDR), 255, Encode(OwnerPacket(cfg, FamilyV4), src))
    case IpV6(_) => Datagram(src, IpV6(VRRP_V6_MCAST_ADDR), 255, Encode(OwnerPacket(cfg, FamilyV6), src))
  }

  lemma {:induction false} OwnerAdvertAccepted(r: Router, src: IpAddr)
    requires !IsLocal(r, src)
    requires src.IpV6? ==> r.cfg.version.V3? && r.cfg.advertInterval <= 40
    ensures Accepted(r, OwnerAdvert(r.cfg, src))
         == Some(OwnerPacket(r.cfg, if src.IpV4? then FamilyV4 else FamilyV6))
  {
    match src
    case IpV4(_) =>
      IntervalSurvives(V2, r.cfg.advertInterval);
      V4RoundTrip(OwnerPacket(r.cfg, FamilyV4));
    case IpV6(a) =>
      IntervalSurvives(V3, r.cfg.advertInterval);
      V6RoundTrip(OwnerPacket(r.cfg, FamilyV6), a);
  }

  /** No IPv6 message holds an interval above 40 s. */
  lemma {:induction false} LongIntervalsHearNoV6(r: Router, d: Datagram)
    requires r.cfg.advertInterval > 40 && Accepted(r, d).Some?
    ensures FamilyOf(Accepted(r, d).value).FamilyV4?
  {
  }

  /** m holds all its configured addresses beside whatever r, before it started, had there. */
  predicate HasTakenUp(r: Router, m: Router) {
    && m.linkV4 == r.linkV4 + Nets4(r.cfg)
    && m.linkV6 == if r.cfg.version.V3? then r.linkV6 + Nets6(r.cfg) else r.linkV6
  }

  /** Started and left alone past its first deadline, a router is Master. */
  lemma {:induction false} AloneBecomesMaster(r: Router, now: Instant) returns (late: Instant)
    requires Fresh(r)
    ensures late >= now
    ensures var m := Exec(r, [StartupAt(now), TickAt(late)]);
            && m.fsm.state == Master && m.cfg == r.cfg && m.hostAddrs == r.hostAddrs && Coherent(m)
            && m.primaryV4 == r.primaryV4 && m.primaryV6 == r.primaryV6
            && HasTakenUp(r, m)
            && (r.sent == [] ==> m.sent != [] && m.sent[0] == Advert(AdvertV4(r)))
  {
    late := After(now, MasterDownInterval(r.cfg) + AdvertUnits(r.cfg.advertInterval)) + 1;
    var started := Step(r, StartupAt(now));
    assert [StartupAt(now), TickAt(late)] == [StartupAt(now)] + [TickAt(late)];
    ExecCons(r, StartupAt(now), [TickAt(late)]);
    ExecOne(started, TickAt(late));
    NotifyKeepsCoherent(r, Startup, now);
    StartupSettlesAddresses(r, now);
    StartedBecomesMaster(started, late);
  }

  lemma {:induction false} StartedBecomesMaster(r: Router, late: Instant)
    requires Coherent(r) && UpExactlyWhenMaster(r) && r.fsm.state != Init
    requires late > r.fsm.timer.waitingFor.value
    ensures var m := Tick(r, late);
            && m.fsm.state == Master && m.cfg == r.cfg && m.hostAddrs == r.hostAddrs && Coherent(m)
            && m.primaryV4 == r.primaryV4 && m.primaryV6 == r.primaryV6
            && HasTakenUp(r, m)
            && (if r.sent == [] then m.sent != [] && m.sent[0] == Advert(AdvertV4(r))
                else m.sent != [] && m.sent[0] == r.sent[0])
  {
  }

  lemma {:induction false} StartupSettlesAddresses(r: Router, now: Instant)
    requires Fresh(r)
    ensures UpExactlyWhenMaster(Notify(r, Startup, now))
  {
  }

  /** The failing run of a v3 router: Master, then an owner's advertisement over the family
      that leaves a configured address of the other one behind on a Backup. */
  lemma {:induction false} V3LeavesAddressesBehind(r: Router, now: Instant, src4: IpAddr, src6: IpAddr)
    returns (inputs: seq<Input>)
    requires Fresh(r) && !OneFamily(r.cfg)
    requires src4.IpV4? && src6.IpV6? && Foreign(r, src4) && Foreign(r, src6)
    ensures !UpExactlyWhenMaster(Exec(r, [StartupAt(now)] + inputs))
  {
    var late := AloneBecomesMaster(r, now);
    var prefix := [StartupAt(now), TickAt(late)];
    var m := Exec(r, prefix);
    var src := if r.cfg.ipv6 != [] then src4 else src6;
    var d := OwnerAdvert(r.cfg, src);
    inputs := [TickAt(late), Packet(d, late)];
    assert [StartupAt(now)] + inputs == prefix + [Packet(d, late)];
    ExecConcat(r, prefix, [Packet(d, late)]);
    ExecOne(m, Packet(d, late));
    OwnerAdvertAccepted(m, src);
    OwnerSplitsFamilies(m, Accepted(m, d).value, late);
  }

  /** Hearing an owner, a Master gives up only the addresses of the packet's family. */
  lemma {:induction false} OwnerSplitsFamilies(m: Router, p: VrrpPacket, now: Instant)
    requires m.fsm.state == Master && m.cfg.version.V3? && UpExactlyWhenMaster(m) && p.priority == 255
    requires if p.addresses.V6Addresses? then m.cfg.ipv4 != [] else m.cfg.ipv6 != []
    ensures !UpExactlyWhenMaster(React(m, p, now))
  {
    if p.addresses.V6Addresses? {
      assert m.cfg.ipv4[0] in Nets4(m.cfg);
    } else {
      assert m.cfg.ipv6[0] in Nets6(m.cfg);
    }
  }

  /** Addresses follow mastership in every state reached after startup exactly for v2 routers,
      routers with nothing configured, and routers of IPv4 addresses whose interval no IPv6
      message can hold: a packet-driven transition moves the addresses of the packet's family
      only. */
  lemma {:induction false} AddressesFollowMastershipExactly(r: Router, now: Instant, src4: IpAddr, src6: IpAddr)
    requires Fresh(r)
    requires src4.IpV4? && src6.IpV6? && Foreign(r, src4) && Foreign(r, src6)
    ensures (forall inputs: seq<Input> :: UpExactlyWhenMaster(Exec(r, [StartupAt(now)] + inputs)))
       <==> OneFamily(r.cfg)
  {
    if OneFamily(r.cfg) {
      forall inputs: seq<Input>
        ensures UpExactlyWhenMaster(Exec(r, [StartupAt(now)] + inputs))
      {
        var all := [StartupAt(now)] + inputs;
        assert all[1..] == inputs;
        NotifyKeepsCoherent(r, Startup, now);
        StartupSettlesAddresses(r, now);
        RunKeepsAddresses(Notify(r, Startup, now), inputs);
      }
    } else {
      var inputs := V3LeavesAddressesBehind(r, now, src4, src6);
    }
  }

  // ----- Timers -----

  /** A timer set for a number of 256ths of a second fires at the polls more than that many
      256ths later, and at no other. */
  lemma {:induction false} MasterDownFiresExactly(r: Router, units: nat, now: Instant, poll: Instant)
    requires r.fsm.state == Backup
    ensures var waiting := SetMasterDownTimer(r, units, now);
            if 256 * (poll - now) > units * SECOND
            then Tick(waiting, poll).fsm.state == Master
            else Tick(waiting, poll) == waiting
  {
    assert units * SECOND == 256 * (units * UNIT_NS);
  }

  lemma {:induction false} AdvertFiresExactly(r: Router, seconds: byte, now: Instant, poll: Instant)
    requires r.fsm.state == Master
    ensures var waiting := Machine.SetTimer(r, AdverTimer, AdvertUnits(seconds), now);
            if poll - now > seconds * SECOND
            then Tick(waiting, poll).fsm.state == Master && Tick(waiting, poll).sent == r.sent + Adverts(r)
            else Tick(waiting, poll) == waiting
  {
    assert AdvertUnits(seconds) * UNIT_NS == seconds * SECOND;
  }

  // ----- Failover -----

  /** Only ticks and packets that leave the router r as it is. */
  predicate Quiet(r: Router, inputs: seq<Input>) {
    forall i :: 0 <= i < |inputs| ==>
      match inputs[i]
      case TickAt(_) => true
      case Packet(d, now) => Receive(r, d, now) == r
      case _ => false
  }

  /** Ticks never go back and follow each other within a second, starting from prev. */
  predicate TicksWithinSecond(prev: Instant, inputs: seq<Input>)
    decreases |inputs|
  {
    inputs == [] ||
    match inputs[0]
    case TickAt(now) => prev <= now <= prev + SECOND && TicksWithinSecond(now, inputs[1..])
    case _ => TicksWithinSecond(prev, inputs[1..])
  }

  predicate HasTickAfter(deadline: Instant, inputs: seq<Input>) {
    exists i :: 0 <= i < |inputs| && LateTick(deadline, inputs[i])
  }

  lemma {:induction false} LateTickFires(r: Router, now: Instant)
    requires Coherent(r) && r.fsm.state == Backup && now > r.fsm.timer.waitingFor.value
    ensures var m := Tick(r, now);
            && m.fsm.state == Master
            && r.sent + Adverts(r) <= m.sent
            && m.fsm.timer.waitingFor == Some(After(now, AdvertUnits(r.cfg.advertInterval)))
  {
  }

  predicate LateTick(deadline: Instant, input: Input) {
    input.TickAt? && input.now > deadline
  }

  /** The first late tick comes within a second of the deadline. */
  lemma {:induction false} FirstLateTick(deadline: Instant, inputs: seq<Input>, prev: Instant) returns (k: nat)
    requires prev <= deadline && TicksWithinSecond(prev, inputs) && HasTickAfter(deadline, inputs)
    ensures k < |inputs| && LateTick(deadline, inputs[k]) && inputs[k].now <= deadline + SECOND
    ensures !HasTickAfter(deadline, inputs[..k])
    decreases |inputs|
  {
    var head, rest := inputs[0], inputs[1..];
    if LateTick(deadline, head) {
      k := 0;
    } else {
      var i :| 0 <= i < |inputs| && LateTick(deadline, inputs[i]);
      assert rest[i - 1] == inputs[i];
      var j := FirstLateTick(deadline, rest, if head.TickAt? then head.now else prev);
      k := j + 1;
      assert forall m :: 0 <= m < j ==> inputs[..k][m + 1] == rest[..j][m];
      forall m | 0 <= m < k
        ensures !LateTick(deadline, inputs[..k][m])
      {
        assert m > 0 ==> rest[..j][m - 1] == inputs[..k][m];
      }
    }
  }

  /** Before the deadline of a Backup or a Master nothing happens, whatever number of ticks. */
  lemma {:induction false} NothingBeforeDeadline(r: Router, inputs: seq<Input>)
    requires Coherent(r) && r.fsm.state != Init && Quiet(r, inputs)
    requires !HasTickAfter(r.fsm.timer.waitingFor.value, inputs)
    ensures Exec(r, inputs) == r
    decreases |inputs|
  {
    if inputs == [] {
    } else {
      var rest := inputs[1..];
      assert !LateTick(r.fsm.timer.waitingFor.value, inputs[0]);
      assert forall i :: 0 <= i < |rest| ==> rest[i] == inputs[i + 1];
      NothingBeforeDeadline(r, rest);
    }
  }

  /** Until a tick strictly after its deadline a Backup that accepts nothing does not move;
      that tick makes it Master with its advertisement sent, within a second of the deadline. */
  lemma {:induction false} BoundedFailover(r: Router, inputs: seq<Input>, prev: Instant) returns (k: nat)
    requires Coherent(r) && r.fsm.state == Backup && prev <= r.fsm.timer.waitingFor.value
    requires Quiet(r, inputs) && TicksWithinSecond(prev, inputs)
    requires HasTickAfter(r.fsm.timer.waitingFor.value, inputs)
    ensures k < |inputs| && inputs[k].TickAt?
    ensures r.fsm.timer.waitingFor.value < inputs[k].now <= r.fsm.timer.waitingFor.value + SECOND
    ensures !HasTickAfter(r.fsm.timer.waitingFor.value, inputs[..k]) && Exec(r, inputs[..k]) == r
    ensures var m := Exec(r, inputs[..k + 1]);
            && m.fsm.state == Master
            && r.sent + Adverts(r) <= m.sent
            && m.fsm.timer.waitingFor == Some(After(inputs[k].now, AdvertUnits(r.cfg.advertInterval)))
  {
    k := FirstLateTick(r.fsm.timer.waitingFor.value, inputs, prev);
    NothingBeforeDeadline(r, inputs[..k]);
    assert inputs[..k + 1] == inputs[..k] + [inputs[k]];
    ExecConcat(r, inputs[..k], [inputs[k]]);
    ExecOne(r, inputs[k]);
    LateTickFires(r, inputs[k].now);
  }

  /** The deadline of a router left Backup by an advertisement, be it a Backup that heard it or
      a Master that gave way: above three intervals away and at most four in v3, three and a
      second in v2. Only a priority-0 advertisement leaves a Backup the skew time. */
  lemma {:induction false} ResetBounds(r: Router, p: VrrpPacket, now: Instant)
    requires Coherent(r) && React(r, p, now).fsm.state == Backup
    ensures var w, a: nat := React(r, p, now).fsm.timer.waitingFor, r.cfg.advertInterval;
            && w.Some?
            && (p.priority == 0 ==> r.fsm.state == Backup && w.value == After(now, Skew(r.cfg)))
            && (r.cfg.version.V3? ==> w.value <= now + 4 * a * SECOND)
            && (r.cfg.version.V2? ==> w.value <= now + (3 * a + 1) * SECOND)
            && (p.priority != 0 && a >= 1 ==> w.value > now + 3 * a * SECOND)
  {
    MasterDownBounds(r.cfg.version, r.cfg.priority, r.cfg.advertInterval);
  }

  /** A router left Backup by an advertisement that then hears nothing more is Master within four
      intervals and a second (v3), three intervals and two seconds (v2), and not within three
      intervals; or, when a Master resigned with priority 0, within the skew time and a second. */
  lemma {:induction false} FailoverAfterAdvert(r: Router, p: VrrpPacket, now: Instant, inputs: seq<Input>)
    returns (k: nat)
    requires Coherent(r) && React(r, p, now).fsm.state == Backup
    requires var b := React(r, p, now);
             Quiet(b, inputs) && TicksWithinSecond(now, inputs)
             && HasTickAfter(b.fsm.timer.waitingFor.value, inputs)
    ensures k < |inputs| && inputs[k].TickAt?
    ensures Exec(React(r, p, now), inputs[..k]) == React(r, p, now)
    ensures Exec(React(r, p, now), inputs[..k + 1]).fsm.state == Master
    ensures var a: nat := r.cfg.advertInterval;
            && (r.cfg.version.V3? ==> inputs[k].now <= now + (4 * a + 1) * SECOND)
            && (r.cfg.version.V2? ==> inputs[k].now <= now + (3 * a + 2) * SECOND)
            && (p.priority != 0 && a >= 1 ==> inputs[k].now > now + 3 * a * SECOND)
            && (p.priority == 0 ==> inputs[k].now <= After(now, Skew(r.cfg)) + SECOND)
  {
    ReactKeepsCoherent(r, p, now);
    ResetBounds(r, p, now);
    k := BoundedFailover(React(r, p, now), inputs, now);
  }

  /** A shutdown advertises the router's own priority where RFC 3768 asks for 0, so a Backup
      that hears it waits only the skew time exactly when the configured priority is 0. */
  lemma {:induction false} ShutdownHastensOnlyPriorityZero(s: Router, r: Router, now: Instant)
    requires s.fsm.state == Master && r.fsm.state == Backup && r.cfg.advertInterval >= 1
    requires Accepted(r, AdvertV4(s)).Some?
    ensures Step(s, ShutdownNow).sent == s.sent + Adverts(s)
    ensures var b := Receive(r, AdvertV4(s), now);
            b.fsm.state == Backup ==>
              (b.fsm.timer.waitingFor == Some(After(now, Skew(r.cfg))) <==> s.cfg.priority == 0)
  {
    AdvertV4Accepted(r, s);
  }

  predicate OnlyTicks(inputs: seq<Input>) {
    forall i :: 0 <= i < |inputs| ==> inputs[i].TickAt?
  }

  /** high is Master, or both wait and its deadline is no later. */
  predicate Ahead(high: Router, low: Router) {
    && Coherent(high) && Coherent(low)
    && (high.fsm.state == Master
        || (high.fsm.state == Backup && low.fsm.state == Backup
            && high.fsm.timer.waitingFor.value <= low.fsm.timer.waitingFor.value))
  }

  lemma {:induction false} StaysAhead(high: Router, low: Router, ticks: seq<Input>)
    requires Ahead(high, low) && OnlyTicks(ticks)
    ensures Ahead(Exec(high, ticks), Exec(low, ticks))
    decreases |ticks|
  {
    if ticks == [] {
    } else {
      assert ticks[0].TickAt?;
      StepKeepsCoherent(high, ticks[0]);
      StepKeepsCoherent(low, ticks[0]);
      StaysAhead(Step(high, ticks[0]), Step(low, ticks[0]), ticks[1..]);
    }
  }

  /** Of two Backups of one version and interval reset together, the one of higher priority
      takes over no later: after any common ticks at which the lower one has become Master,
      the higher one has too, so its first firing tick comes no later in the sequence. */
  lemma {:induction false} HigherPriorityFiresFirst(
    high: Router, low: Router, p: VrrpPacket, reset: Instant, ticks: seq<Input>)
    requires Coherent(high) && high.fsm.state == Backup && Coherent(low) && low.fsm.state == Backup
    requires high.cfg.version == low.cfg.version && high.cfg.advertInterval == low.cfg.advertInterval >= 1
    requires high.cfg.priority > low.cfg.priority
    requires React(high, p, reset).fsm.state == Backup && React(low, p, reset).fsm.state == Backup
    requires OnlyTicks(ticks)
    ensures React(high, p, reset).fsm.timer.waitingFor.value < React(low, p, reset).fsm.timer.waitingFor.value
    ensures forall k :: 0 <= k <= |ticks| && Exec(React(low, p, reset), ticks[..k]).fsm.state == Master
              ==> Exec(React(high, p, reset), ticks[..k]).fsm.state == Master
  {
    MasterDownDecreases(high.cfg.version, high.cfg.priority, low.cfg.priority, high.cfg.advertInterval);
    ReactKeepsCoherent(high, p, reset);
    ReactKeepsCoherent(low, p, reset);
    forall k | 0 <= k <= |ticks|
      ensures Ahead(Exec(React(high, p, reset), ticks[..k]), Exec(React(low, p, reset), ticks[..k]))
    {
      StaysAhead(React(high, p, reset), React(low, p, reset), ticks[..k]);
    }
  }
}
