/** What every transition does, in the protocol's own numbers: states, deadlines in nanoseconds,
    frames one by one, and addresses. */
module Transitions {
  import opened Wire
  import opened Packet
  import opened Timers
  import opened Machine
  import opened RouterProofs
  import opened WireFormat

  /** The skew time: 256ths of a second in v2, of the interval in v3, below 256 by the priority. */
  function SkewNs(cfg: Settings): nat {
    var gap: nat := 256 - cfg.priority;
    match cfg.version
    case V2 => gap * 3_906_250
    case V3 => gap * cfg.advertInterval * 3_906_250
  }

  /** Three intervals and the skew time. */
  function FullWaitNs(cfg: Settings): nat {
    3_000_000_000 * cfg.advertInterval + SkewNs(cfg)
  }

  function IntervalNs(cfg: Settings): nat {
    1_000_000_000 * cfg.advertInterval
  }

  lemma {:induction false} WaitsInNumbers(cfg: Settings)
    ensures 256 * SkewNs(cfg) == (256 - cfg.priority) * (if cfg.version.V2? then SECOND else IntervalNs(cfg))
    ensures Skew(cfg) * UNIT_NS == SkewNs(cfg)
    ensures MasterDownInterval(cfg) * UNIT_NS == FullWaitNs(cfg)
    ensures AdvertUnits(cfg.advertInterval) * UNIT_NS == IntervalNs(cfg)
  {
  }

  lemma {:induction false} FullWaitBounds(cfg: Settings)
    ensures cfg.advertInterval >= 1 ==> FullWaitNs(cfg) > 3 * IntervalNs(cfg)
    ensures FullWaitNs(cfg) <= if cfg.version.V3? then 4 * IntervalNs(cfg) else 3 * IntervalNs(cfg) + SECOND
  {
    WaitsInNumbers(cfg);
    MasterDownBounds(cfg.version, cfg.priority, cfg.advertInterval);
  }

  // ----- Hearing an advertisement -----

  /** A Backup becomes Master exactly on a lower non-zero priority it may preempt, a Master
      Backup exactly on a non-zero priority of at least its own, and nothing wakes Init. */
  lemma {:induction false} StateAfterAdvert(r: Router, p: VrrpPacket, now: Instant)
    ensures var r' := React(r, p, now);
            match r.fsm.state
            case Init => r' == r
            case Backup => r'.fsm.state == if r.cfg.preempt && 0 < p.priority < r.cfg.priority then Master else Backup
            case Master => r'.fsm.state == if p.priority != 0 && p.priority >= r.cfg.priority then Backup else Master
  {
  }

  /** The new deadline: the skew time for a Backup after priority 0, the full wait for every
      other router left Backup, an interval for one that becomes Master or answers priority 0.
      A Master that hears a lower priority stays exactly as it is. */
  lemma {:induction false} DeadlineAfterAdvert(r: Router, p: VrrpPacket, now: Instant)
    requires r.fsm.state != Init
    ensures var r' := React(r, p, now);
            if r'.fsm.state == Backup then
              r'.fsm.timer.tType == MasterDownTimer
              && r'.fsm.timer.waitingFor == Some(now + if p.priority == 0 then SkewNs(r.cfg) else FullWaitNs(r.cfg))
            else if r.fsm.state == Backup || p.priority == 0 then
              r'.fsm.timer.tType == AdverTimer && r'.fsm.timer.waitingFor == Some(now + IntervalNs(r.cfg))
            else r' == r
  {
    WaitsInNumbers(r.cfg);
  }

  /** An advertisement is answered by sending only when a Master hears priority 0. */
  lemma {:induction false} SentAfterAdvert(r: Router, p: VrrpPacket, now: Instant)
    ensures React(r, p, now).sent == r.sent + if r.fsm.state == Master && p.priority == 0 then Adverts(r) else []
  {
  }

  // ----- Starting, stopping and taking over -----

  /** An owner starts as Master, any other router as Backup with its addresses down and the full
      wait before it; a running router does not start again. */
  lemma {:induction false} StartupExactly(r: Router, now: Instant)
    ensures var r' := Step(r, StartupAt(now));
            if r.fsm.state != Init then r' == r
            else if r.cfg.priority == 255 then
              r'.fsm.state == Master && r'.fsm.timer.tType == AdverTimer
              && r'.fsm.timer.waitingFor == Some(now + IntervalNs(r.cfg))
            else
              r'.fsm.state == Backup && r'.sent == r.sent && r'.fsm.timer.tType == MasterDownTimer
              && r'.fsm.timer.waitingFor == Some(now + FullWaitNs(r.cfg))
  {
    WaitsInNumbers(r.cfg);
  }

  /** A Backup stops in silence, its addresses as they are; a Master advertises once more and
      takes its own addresses down. */
  lemma {:induction false} ShutdownExactly(r: Router)
    ensures var r' := Step(r, ShutdownNow);
            match r.fsm.state
            case Init => r' == r
            case Backup => r' == r.(fsm := r'.fsm) && r'.fsm.state == Init && r'.fsm.timer.waitingFor == None
            case Master =>
              && r'.fsm.state == Init && r'.fsm.timer.waitingFor == None && r'.sent == r.sent + Adverts(r)
              && (forall n :: n in r'.linkV4 <==> n in r.linkV4 && n !in r.cfg.ipv4)
              && (forall n :: n in r'.linkV6 <==> n in r.linkV6 && !(r.cfg.version.V3? && n in r.cfg.ipv6))
  {
  }

  /** An address that is not configured stays on or off the router's links, whatever happens. */
  lemma {:induction false} OtherAddressesUntouched(r: Router, input: Input)
    ensures var r' := Step(r, input);
            && (forall n :: n !in r.cfg.ipv4 ==> (n in r'.linkV4 <==> n in r.linkV4))
            && (forall n :: n !in r.cfg.ipv6 ==> (n in r'.linkV6 <==> n in r.linkV6))
  {
    match input
    case StartupAt(now) => NotifyTouchesOwn(r, Startup, now);
    case ShutdownNow => NotifyTouchesOwn(r, Shutdown, 0);
    case TickAt(now) => NotifyTouchesOwn(r, MasterDown, now);
    case Packet(d, now) =>
      if Accepted(r, d).Some? {
        ReactTouchesOwn(r, Accepted(r, d).value, now);
      }
  }

  ghost predicate TouchesOwn(r: Router, r': Router) {
    && (forall n :: n !in r.cfg.ipv4 ==> (n in r'.linkV4 <==> n in r.linkV4))
    && (forall n :: n !in r.cfg.ipv6 ==> (n in r'.linkV6 <==> n in r.linkV6))
  }

  lemma {:induction false} NotifyTouchesOwn(r: Router, event: Event, now: Instant)
    ensures TouchesOwn(r, Notify(r, event, now))
  {
  }

  lemma {:induction false} ReactTouchesOwn(r: Router, p: VrrpPacket, now: Instant)
    ensures TouchesOwn(r, React(r, p, now))
  {
  }

  // ----- What goes out -----

  lemma {:induction false} ArpAt(addrs: seq<Ipv4Addr>)
    ensures |GratuitousArps(addrs)| == |addrs|
    ensures forall i :: 0 <= i < |addrs| ==> GratuitousArps(addrs)[i] == GratuitousArp(addrs[i])
  {
    if addrs == [] {
    } else {
      ArpAt(addrs[1..]);
    }
  }

  lemma {:induction false} NeighborAdvertAt(addrs: seq<Ipv6Addr>)
    ensures |NeighborAdverts(addrs)| == |addrs|
    ensures forall i :: 0 <= i < |addrs| ==> NeighborAdverts(addrs)[i] == NeighborAdvert(addrs[i])
  {
    if addrs == [] {
    } else {
      NeighborAdvertAt(addrs[1..]);
    }
  }

  /** One announcement for each configured address, in their order, and nothing else. */
  predicate AnnouncesEachOnce(cfg: Settings, frames: seq<Frame>) {
    var n4, n6 := |cfg.ipv4|, if cfg.version.V3? then |cfg.ipv6| else 0;
    && |frames| == n4 + n6
    && (forall i :: 0 <= i < n4 ==> frames[i] == GratuitousArp(cfg.ipv4[i].addr))
    && (forall i :: 0 <= i < n6 ==> frames[n4..][i] == NeighborAdvert(cfg.ipv6[i].addr))
  }

  /** A router that becomes Master by its timer or as an owner at startup adds to its log its
      advertisements, then the announcements. */
  lemma {:induction false} TakeoverFrames(r: Router, input: Input)
    requires Coherent(r) && r.fsm.state != Master && Step(r, input).fsm.state == Master && !input.Packet?
    ensures var frames, ads := Step(r, input).sent, Adverts(r);
            && r.sent + ads <= frames
            && AnnouncesEachOnce(r.cfg, frames[|r.sent| + |ads|..])
  {
    TakeoverLog(r, input);
    AnnouncementsFollow(r.cfg, r.sent + Adverts(r), Step(r, input).sent);
  }

  lemma {:induction false} AnnouncementsFollow(cfg: Settings, log: seq<Frame>, frames: seq<Frame>)
    requires frames == log + GratuitousArps(Addrs4(cfg.ipv4))
                           + if cfg.version.V3? then NeighborAdverts(Addrs6(cfg.ipv6)) else []
    ensures log <= frames && AnnouncesEachOnce(cfg, frames[|log|..])
  {
    AnnouncementFrames(cfg);
    LastTwo(log, GratuitousArps(Addrs4(cfg.ipv4)),
            if cfg.version.V3? then NeighborAdverts(Addrs6(cfg.ipv6)) else []);
  }

  lemma {:induction false} AnnouncementFrames(cfg: Settings)
    ensures AnnouncesEachOnce(cfg, GratuitousArps(Addrs4(cfg.ipv4))
                                   + if cfg.version.V3? then NeighborAdverts(Addrs6(cfg.ipv6)) else [])
  {
    ArpAt(Addrs4(cfg.ipv4));
    NeighborAdvertAt(Addrs6(cfg.ipv6));
  }

  lemma {:induction false} LastTwo(a: seq<Frame>, b: seq<Frame>, c: seq<Frame>)
    ensures a <= a + b + c && (a + b + c)[|a|..] == b + c
  {
  }

  /** The settings as the wire has them. */
  predicate Advertises(cfg: Settings, data: seq<byte>, count: nat, centiseconds: bool) {
    && |data| >= 8
    && data[0] == (if cfg.version.V2? then 0x21 else 0x31)
    && data[1] == cfg.vrid && data[2] == cfg.priority && data[3] == count % 256
    && (if centiseconds then 256 * data[4] as nat + data[5] as nat == 100 * cfg.advertInterval % 4096
        else data[4] == 0 && data[5] == cfg.advertInterval)
  }

  lemma {:induction false} HeaderAdvertises(cfg: Settings, addresses: VrrpAddresses, data: seq<byte>, cs: bool)
    requires IsHeader(data, AdvertPacket(cfg, addresses), cs)
    ensures Advertises(cfg, data, addresses.Len(), cs)
  {
    assert cfg.advertInterval * 100 / 100 == cfg.advertInterval;
  }

  /** The IPv4 advertisement on the wire: to 224.0.0.18 with TTL 255, the router's own settings
      and addresses octet by octet. */
  lemma {:induction false} AdvertOnIpv4(r: Router)
    ensures var d := AdvertV4(r);
            && Adverts(r)[0] == Advert(d)
            && d.src == IpV4(r.primaryV4) && d.dst == IpV4(0xE000_0012) && d.ttl == 255
            && Advertises(r.cfg, d.payload, |r.cfg.ipv4|, r.cfg.version.V3?)
            && forall i :: 0 <= i < |r.cfg.ipv4| ==> IsIpv4At(d.payload, 8 + 4 * i, r.cfg.ipv4[i].addr)
  {
    Ipv4Group();
    PayloadV4(r.cfg, AdvertV4(r).payload, r.primaryV4);
  }

  lemma {:induction false} PayloadV4(cfg: Settings, payload: seq<byte>, src: Ipv4Addr)
    requires payload == Encode(AdvertPacket(cfg, V4Addresses(Addrs4(cfg.ipv4))), IpV4(src))
    ensures Advertises(cfg, payload, |cfg.ipv4|, cfg.version.V3?)
    ensures forall i :: 0 <= i < |cfg.ipv4| ==> IsIpv4At(payload, 8 + 4 * i, cfg.ipv4[i].addr)
  {
    var addresses := V4Addresses(Addrs4(cfg.ipv4));
    EncodedV4Octets(AdvertPacket(cfg, addresses));
    HeaderAdvertises(cfg, addresses, payload, cfg.version.V3?);
    forall i | 0 <= i < |cfg.ipv4|
      ensures IsIpv4At(payload, 8 + 4 * i, cfg.ipv4[i].addr)
    {
      assert IsIpv4At(payload, 8 + 4 * i, Addrs4(cfg.ipv4)[i]);
    }
  }

  lemma {:induction false} Ipv4Group()
    ensures VRRP_MCAST_ADDR == 0xE000_0012
  {
    FourOctets(0xE000_0012);
    BigEndianRoundTrip(0xE000_0012, 4);
  }

  /** A v3 router with an IPv6 source sends the IPv6 form too, to ff02::12; no other router does. */
  lemma {:induction false} AdvertOnIpv6(r: Router)
    requires |r.cfg.ipv6| <= MAX_IP_COUNT
    ensures |Adverts(r)| == if r.cfg.version.V3? && r.primaryV6.Some? then 2 else 1
    ensures r.cfg.version.V3? && r.primaryV6.Some? ==>
              var d := AdvertV6(r);
              && Adverts(r)[1] == Advert(d)
              && d.src == IpV6(r.primaryV6.value) && d.dst.IpV6? && d.ttl == 255
              && BigEndian(d.dst.v6, 16) == [0xff, 2, 0, 0, 0, 0, 0, 0, 0, 0, 0, 0, 0, 0, 0, 0x12]
              && Advertises(r.cfg, d.payload, |r.cfg.ipv6|, true)
              && forall i :: 0 <= i < |r.cfg.ipv6| ==> IsIpv6At(d.payload, 8 + 16 * i, r.cfg.ipv6[i].addr)
  {
    if SendsV6(r) {
      PayloadV6(r.cfg, AdvertV6(r).payload, r.primaryV6.value);
      FromBigEndianRoundTrip(VRRP_V6_MCAST_OCTETS);
    }
  }

  lemma {:induction false} PayloadV6(cfg: Settings, payload: seq<byte>, src: Ipv6Addr)
    requires |cfg.ipv6| <= MAX_IP_COUNT
    requires payload == Encode(AdvertPacket(cfg, V6Addresses(Addrs6(cfg.ipv6))), IpV6(src))
    ensures Advertises(cfg, payload, |cfg.ipv6|, true)
    ensures forall i :: 0 <= i < |cfg.ipv6| ==> IsIpv6At(payload, 8 + 16 * i, cfg.ipv6[i].addr)
  {
    var addresses := V6Addresses(Addrs6(cfg.ipv6));
    EncodedV6Octets(AdvertPacket(cfg, addresses), src);
    HeaderAdvertises(cfg, addresses, payload, true);
    forall i | 0 <= i < |cfg.ipv6|
      ensures IsIpv6At(payload, 8 + 16 * i, cfg.ipv6[i].addr)
    {
      assert IsIpv6At(payload, 8 + 16 * i, Addrs6(cfg.ipv6)[i]);
    }
  }

  // ----- Waiting, over whole runs -----

  /** A started non-owner that accepts nothing is no Master at any tick up to three intervals
      and its skew time after the start, and is Master at the first tick after that, at most
      four intervals and a second (v3), three intervals and two seconds (v2) after the start. */
  lemma {:induction false} StartedBackupTakesOver(r: Router, now: Instant, inputs: seq<Input>) returns (k: nat)
    requires Fresh(r) && r.cfg.priority != 255
    requires var s := Step(r, StartupAt(now)); Quiet(s, inputs) && TicksWithinSecond(now, inputs)
    ensures k <= |inputs| && !HasTickAfter(now + FullWaitNs(r.cfg), inputs[..k])
    ensures forall j :: 0 <= j <= k ==> Exec(Step(r, StartupAt(now)), inputs[..j]).fsm.state == Backup
    ensures HasTickAfter(now + FullWaitNs(r.cfg), inputs) ==>
              && k < |inputs| && LateTick(now + FullWaitNs(r.cfg), inputs[k])
              && inputs[k].now <= now + FullWaitNs(r.cfg) + SECOND
              && inputs[k].now <= now + (if r.cfg.version.V3? then 4 * IntervalNs(r.cfg) + SECOND
                                         else 3 * IntervalNs(r.cfg) + 2 * SECOND)
              && Exec(Step(r, StartupAt(now)), inputs[..k + 1]).fsm.state == Master
    ensures !HasTickAfter(now + FullWaitNs(r.cfg), inputs) ==> k == |inputs|
  {
    var s := Step(r, StartupAt(now));
    StartupExactly(r, now);
    StepKeepsCoherent(r, StartupAt(now));
    FullWaitBounds(r.cfg);
    if HasTickAfter(now + FullWaitNs(r.cfg), inputs) {
      k := BoundedFailover(s, inputs, now);
    } else {
      k := |inputs|;
      assert inputs[..k] == inputs;
    }
    QuietPrefixes(s, inputs, k);
  }

  /** Up to the first late tick a router that accepts nothing stays exactly as it is. */
  lemma {:induction false} QuietPrefixes(r: Router, inputs: seq<Input>, k: nat)
    requires Coherent(r) && r.fsm.state != Init && Quiet(r, inputs) && k <= |inputs|
    requires !HasTickAfter(r.fsm.timer.waitingFor.value, inputs[..k])
    ensures forall j :: 0 <= j <= k ==> Exec(r, inputs[..j]) == r
  {
    forall j | 0 <= j <= k
      ensures Exec(r, inputs[..j]) == r
    {
      assert forall i :: 0 <= i < j ==> inputs[..j][i] == inputs[..k][i] == inputs[i];
      NothingBeforeDeadline(r, inputs[..j]);
    }
  }

  predicate BecomesOrAdvertises(r: Router, m: Router) {
    m.fsm.state == Master && (r.fsm.state != Master || |m.sent| > |r.sent|)
  }

  /** However a router becomes Master, and whenever a Master advertises, an interval starts: at
      the startup of an owner, at a tick, on an advertisement. */
  lemma {:induction false} StartupStartsInterval(r: Router, now: Instant)
    requires BecomesOrAdvertises(r, Step(r, StartupAt(now)))
    ensures Step(r, StartupAt(now)).fsm.timer.waitingFor == Some(now + IntervalNs(r.cfg))
  {
    StartupExactly(r, now);
  }

  lemma {:induction false} TickStartsInterval(r: Router, now: Instant)
    requires Coherent(r) && BecomesOrAdvertises(r, Step(r, TickAt(now)))
    ensures Step(r, TickAt(now)).fsm.timer.waitingFor == Some(now + IntervalNs(r.cfg))
  {
    IntervalInNumbers(r.cfg.advertInterval);
    assert Step(r, TickAt(now)) == Tick(r, now);
    if r.fsm.state == Backup {
      assert Tick(r, now) == Notify(r, MasterDown, now);
    }
  }

  lemma {:induction false} IntervalInNumbers(interval: byte)
    ensures AdvertUnits(interval) * UNIT_NS == 1_000_000_000 * interval
  {
  }

  lemma {:induction false} AdvertStartsInterval(r: Router, p: VrrpPacket, now: Instant)
    requires BecomesOrAdvertises(r, React(r, p, now))
    ensures React(r, p, now).fsm.timer.waitingFor == Some(now + IntervalNs(r.cfg))
  {
    StateAfterAdvert(r, p, now);
    DeadlineAfterAdvert(r, p, now);
  }

  lemma {:induction false} ReceiptStartsInterval(r: Router, d: Datagram, now: Instant)
    requires BecomesOrAdvertises(r, Step(r, Packet(d, now)))
    ensures Step(r, Packet(d, now)).fsm.timer.waitingFor == Some(now + IntervalNs(r.cfg))
  {
    AdvertStartsInterval(r, Accepted(r, d).value, now);
  }

  /** A Master left alone since its interval started sends nothing at any tick up to the end of
      the interval, and its advertisements at the first tick after that, at most a second late. */
  lemma {:induction false} NextAdvert(m: Router, start: Instant, inputs: seq<Input>) returns (k: nat)
    requires Coherent(m) && m.fsm.state == Master
    requires m.fsm.timer.waitingFor == Some(start + IntervalNs(m.cfg))
    requires Quiet(m, inputs) && TicksWithinSecond(start, inputs)
    ensures k <= |inputs| && !HasTickAfter(start + IntervalNs(m.cfg), inputs[..k])
    ensures forall j :: 0 <= j <= k ==> Exec(m, inputs[..j]) == m
    ensures if HasTickAfter(start + IntervalNs(m.cfg), inputs) then
              && k < |inputs| && LateTick(start + IntervalNs(m.cfg), inputs[k])
              && inputs[k].now <= start + IntervalNs(m.cfg) + SECOND
              && Exec(m, inputs[..k + 1]).sent == m.sent + Adverts(m)
            else k == |inputs|
  {
    if HasTickAfter(start + IntervalNs(m.cfg), inputs) {
      k := FirstLateTick(start + IntervalNs(m.cfg), inputs, start);
      QuietPrefixes(m, inputs, k);
      assert inputs[..k + 1] == inputs[..k] + [inputs[k]];
      ExecConcat(m, inputs[..k], [inputs[k]]);
      ExecOne(m, inputs[k]);
      LateTickAdvertises(m, inputs[k].now);
    } else {
      k := |inputs|;
      assert inputs[..k] == inputs;
      QuietPrefixes(m, inputs, k);
    }
  }

  lemma {:induction false} LateTickAdvertises(m: Router, now: Instant)
    requires Coherent(m) && m.fsm.state == Master && now > m.fsm.timer.waitingFor.value
    ensures Tick(m, now).sent == m.sent + Adverts(m)
  {
  }
}
