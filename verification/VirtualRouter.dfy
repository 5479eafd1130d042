/** The router as the program keeps it: objects updated in place, each method one locked
    section, proved to carry out the step of module Machine and to keep state and timer
    coherent. */
module VirtualRouters {
  import opened Wire
  import opened Packet
  import opened Timers
  import opened Machine
  import opened RouterProofs
  import Codec

  class VirtualRouterMachine {
    var timer: Timer
    var state: State
    var event: Event

    function Value(): Fsm
      reads this
    {
      Fsm(timer, state, event)
    }

    constructor ()
      ensures Value() == Fsm(IDLE, Init, Startup)
    {
      timer, state, event := IDLE, Init, Startup;
    }

    method SetAdvertTimer(duration: nat, now: Instant)
      modifies this`timer
      ensures timer == Timer(AdverTimer, duration, Some(After(now, duration)))
    {
      timer := Timer(AdverTimer, duration, Some(After(now, duration)));
    }

    method SetMasterDownTimer(duration: nat, now: Instant)
      modifies this`timer
      ensures timer == Timer(MasterDownTimer, duration, Some(After(now, duration)))
    {
      timer := Timer(MasterDownTimer, duration, Some(After(now, duration)));
    }

    method DisableTimer()
      modifies this`timer
      ensures timer == IDLE
    {
      timer := Timer(NullTimer, 0, None);
    }
  }

  class VirtualRouter {
    const cfg: Settings
    const skewTime: nat
    const masterDownInterval: nat
    const primaryV4: Ipv4Addr
    const primaryV6: Option<Ipv6Addr>
    const hostAddrs: set<IpAddr>
    const fsm: VirtualRouterMachine
    var linkV4: set<Ipv4Net>
    var linkV6: set<Ipv6Net>
    var sent: seq<Frame>

    function Value(): Router
      reads this, fsm
    {
      Router(cfg, primaryV4, primaryV6, hostAddrs, fsm.Value(), linkV4, linkV6, sent)
    }

    /** The derived times are those of the settings, and the timer fits the state. */
    ghost predicate Valid()
      reads this, fsm
    {
      Configured() && Coherent(Value())
    }

    predicate Configured() {
      skewTime == Skew(cfg) && masterDownInterval == MasterDownInterval(cfg)
    }

    constructor (cfg: Settings, primaryV4: Ipv4Addr, primaryV6: Option<Ipv6Addr>,
                 hostAddrs: set<IpAddr>, linkV4: set<Ipv4Net>, linkV6: set<Ipv6Net>)
      ensures Valid() && fresh(fsm)
      ensures Value() == Router(cfg, primaryV4, primaryV6, hostAddrs, Fsm(IDLE, Init, Startup), linkV4, linkV6, [])
    {
      this.cfg, this.primaryV4, this.primaryV6, this.hostAddrs := cfg, primaryV4, primaryV6, hostAddrs;
      this.linkV4, this.linkV6, this.sent := linkV4, linkV6, [];
      var skew := SkewUnits(cfg.version, cfg.priority, cfg.advertInterval);
      skewTime := skew;
      masterDownInterval := 3 * AdvertUnits(cfg.advertInterval) + skew;
      fsm := new VirtualRouterMachine();
    }

    // ----- Addresses: one netlink request an address -----

    method ApplyV4(add: bool)
      modifies this`linkV4
      ensures Value() == old(if add then AddAddresses(Value(), FamilyV4) else DeleteAddresses(Value(), FamilyV4))
    {
      var i := 0;
      while i < |cfg.ipv4|
        invariant 0 <= i <= |cfg.ipv4|
        invariant linkV4 == if add then old(linkV4) + (set n | n in cfg.ipv4[..i])
                            else old(linkV4) - (set n | n in cfg.ipv4[..i])
      {
        assert cfg.ipv4[..i + 1] == cfg.ipv4[..i] + [cfg.ipv4[i]];
        linkV4 := if add then linkV4 + {cfg.ipv4[i]} else linkV4 - {cfg.ipv4[i]};
        i := i + 1;
      }
      assert cfg.ipv4[..i] == cfg.ipv4;
    }

    method ApplyV6(add: bool)
      modifies this`linkV6
      ensures Value() == old(if add then AddAddresses(Value(), FamilyV6) else DeleteAddresses(Value(), FamilyV6))
    {
      var i := 0;
      while i < |cfg.ipv6|
        invariant 0 <= i <= |cfg.ipv6|
        invariant linkV6 == if add then old(linkV6) + (set n | n in cfg.ipv6[..i])
                            else old(linkV6) - (set n | n in cfg.ipv6[..i])
      {
        assert cfg.ipv6[..i + 1] == cfg.ipv6[..i] + [cfg.ipv6[i]];
        linkV6 := if add then linkV6 + {cfg.ipv6[i]} else linkV6 - {cfg.ipv6[i]};
        i := i + 1;
      }
      assert cfg.ipv6[..i] == cfg.ipv6;
    }

    method ApplyFamily(add: bool, family: Family)
      modifies this`linkV4, this`linkV6
      ensures Value() == old(if add then AddAddresses(Value(), family) else DeleteAddresses(Value(), family))
    {
      if family == FamilyV4 {
        ApplyV4(add);
      } else {
        ApplyV6(add);
      }
    }

    method AddVirtualAddresses()
      modifies this`linkV4, this`linkV6
      ensures Value() == Machine.AddVirtualAddresses(old(Value()))
    {
      ApplyV4(true);
      if cfg.version == V3 {
        ApplyV6(true);
      }
    }

    method DeleteVirtualAddresses()
      modifies this`linkV4, this`linkV6
      ensures Value() == Machine.DeleteVirtualAddresses(old(Value()))
    {
      ApplyV4(false);
      if cfg.version == V3 {
        ApplyV6(false);
      }
    }

    // ----- Sending -----

    method SendAdvertisement()
      modifies this`sent
      ensures Value() == Machine.SendAdvertisement(old(Value()))
    {
      var adverIntCs: u16 := cfg.advertInterval * 100;
      var p4 := VrrpPacket(cfg.version, cfg.vrid, cfg.priority, adverIntCs, V4Addresses(Addrs4(cfg.ipv4)));
      var buf := Codec.EncodePacket(p4, IpV4(primaryV4));
      sent := sent + [Advert(Datagram(IpV4(primaryV4), IpV4(VRRP_MCAST_ADDR), 255, buf))];
      if cfg.version == V3 && primaryV6.Some? {
        var src := IpV6(primaryV6.value);
        var p6 := VrrpPacket(cfg.version, cfg.vrid, cfg.priority, adverIntCs, V6Addresses(Addrs6(cfg.ipv6)));
        buf := Codec.EncodePacket(p6, src);
        sent := sent + [Advert(Datagram(src, IpV6(VRRP_V6_MCAST_ADDR), 255, buf))];
      }
    }

    method SendGratuitousArps()
      modifies this`sent
      ensures sent == old(sent) + GratuitousArps(Addrs4(cfg.ipv4))
    {
      var addrs := Addrs4(cfg.ipv4);
      var i := 0;
      while i < |addrs|
        invariant 0 <= i <= |addrs|
        invariant sent + GratuitousArps(addrs[i..]) == old(sent) + GratuitousArps(addrs)
      {
        assert addrs[i..][1..] == addrs[i + 1..];
        sent := sent + [GratuitousArp(addrs[i])];
        i := i + 1;
      }
    }

    method SendNeighborAdvertisements()
      modifies this`sent
      ensures sent == old(sent) + if cfg.version == V3 then NeighborAdverts(Addrs6(cfg.ipv6)) else []
    {
      if cfg.version != V3 {
        return;
      }
      var addrs := Addrs6(cfg.ipv6);
      var i := 0;
      while i < |addrs|
        invariant 0 <= i <= |addrs|
        invariant sent + NeighborAdverts(addrs[i..]) == old(sent) + NeighborAdverts(addrs)
      {
        assert addrs[i..][1..] == addrs[i + 1..];
        sent := sent + [NeighborAdvert(addrs[i])];
        i := i + 1;
      }
    }

    method AnnounceOwnership()
      modifies this`sent
      ensures Value() == Machine.AnnounceOwnership(old(Value()))
    {
      SendGratuitousArps();
      SendNeighborAdvertisements();
    }

    // ----- Events -----

    method NotifyStartup(now: Instant)
      requires Configured()
      modifies this, fsm
      ensures Value() == Notify(old(Value()), Startup, now)
    {
      if fsm.state == Init {
        if cfg.priority == 255 {
          SendAdvertisement();
          AnnounceOwnership();
          AddVirtualAddresses();
          fsm.SetAdvertTimer(AdvertUnits(cfg.advertInterval), now);
          fsm.state := Master;
        } else {
          DeleteVirtualAddresses();
          fsm.SetMasterDownTimer(masterDownInterval, now);
          fsm.state := Backup;
        }
      }
    }

    method NotifyShutdown(now: Instant)
      modifies this, fsm
      ensures Value() == Notify(old(Value()), Shutdown, now)
    {
      match fsm.state {
        case Backup =>
          fsm.DisableTimer();
          fsm.state := Init;
        case Master =>
          fsm.DisableTimer();
          SendAdvertisement();
          DeleteVirtualAddresses();
          fsm.state := Init;
        case Init =>
      }
    }

    method NotifyMasterDown(now: Instant)
      modifies this, fsm
      ensures Value() == Notify(old(Value()), MasterDown, now)
    {
      if fsm.state == Backup {
        SendAdvertisement();
        AnnounceOwnership();
        AddVirtualAddresses();
        fsm.SetAdvertTimer(AdvertUnits(cfg.advertInterval), now);
        fsm.state := Master;
      }
    }

    method NotifyMut(event: Event, now: Instant)
      requires Valid()
      modifies this, fsm
      ensures Valid() && Value() == Notify(old(Value()), event, now)
    {
      NotifyKeepsCoherent(Value(), event, now);
      match event {
        case Startup => NotifyStartup(now);
        case Shutdown => NotifyShutdown(now);
        case MasterDown => NotifyMasterDown(now);
        case NullEvent =>
      }
    }

    /** One pass of the polling loop; neither timer is ever without a deadline. */
    method PollTimer(now: Instant)
      requires Valid()
      modifies this, fsm
      ensures Valid() && Value() == Tick(old(Value()), now)
    {
      StepKeepsCoherent(Value(), TickAt(now));
      var timer := fsm.timer;
      match timer.tType {
        case MasterDownTimer =>
          match fsm.timer.waitingFor {
            case Some(waiting) =>
              if now > waiting {
                NotifyMut(MasterDown, now);
              }
            case None =>
              assert false;
          }
        case AdverTimer =>
          match fsm.timer.waitingFor {
            case Some(waiting) =>
              if now > waiting {
                SendAdvertisement();
                fsm.SetAdvertTimer(AdvertUnits(cfg.advertInterval), now);
              }
            case None =>
              assert false;
          }
        case NullTimer =>
      }
    }

    // ----- Receiving -----

    method HandleIncomingV4(d: Datagram, now: Instant)
      requires Valid() && d.src.IpV4?
      modifies this, fsm
      ensures Valid() && Value() == Receive(old(Value()), d, now)
    {
      if d.src in hostAddrs || exists n :: n in linkV4 && n.addr == d.src.v4 {
        return;
      }
      var logged := ProcessVrrpPacket(d.payload, d.src, d.dst, d.ttl, now);
    }

    method HandleIncomingV6(d: Datagram, now: Instant)
      requires Valid() && d.src.IpV6?
      modifies this, fsm
      ensures Valid() && Value() == Receive(old(Value()), d, now)
    {
      if d.src in hostAddrs || exists n :: n in linkV6 && n.addr == d.src.v6 {
        return;
      }
      var logged := ProcessVrrpPacket(d.payload, d.src, IpV6(VRRP_V6_MCAST_ADDR), 255, now);
    }

    /** The receiver's checks in the order they are made, with the error that is logged, then
        the state machine. */
    method ProcessVrrpPacket(payload: seq<byte>, src: IpAddr, dst: IpAddr, ttl: byte, now: Instant)
      returns (logged: Option<PacketError>)
      requires Valid()
      modifies this, fsm
      ensures Valid() && logged == Logged(cfg, payload, src, dst, ttl)
      ensures Value() == match Checked(cfg, payload, src, dst, ttl)
                         case None => old(Value())
                         case Some(p) => React(old(Value()), p, now)
    {
      var decoded := Codec.DecodePacket(payload, src, dst);
      if decoded.Err? {
        return Some(decoded.error);
      }
      var p := decoded.value;
      if ttl != 255 {
        return Some(BadTtl(ttl));
      }
      if p.vrid != cfg.vrid {
        return Some(VridMismatch(cfg.vrid, p.vrid));
      }
      var expectedAdverIntCs: nat := cfg.advertInterval * 100;
      if p.adverIntCs != expectedAdverIntCs {
        return Some(AdvertIntervalMismatch(cfg.advertInterval, p.adverIntCs / 100 % 256));
      }
      var countCheck, addrCheck, expectedCount := CheckAddresses(p.addresses);
      logged := None;
      if !countCheck {
        logged := Some(IpCountMismatch(expectedCount, p.addresses.Len() % 256));
        if p.priority != 255 {
          return;
        }
      }
      if !addrCheck && p.priority != 255 {
        return Some(IpListMismatch);
      }
      if p.addresses.V6Addresses? && cfg.version == V2 {
        return;
      }
      assert Checked(cfg, payload, src, dst, ttl) == Some(p);
      ReactTo(p, now);
    }

    method CheckAddresses(addresses: VrrpAddresses) returns (countCheck: bool, addrCheck: bool, expectedCount: byte)
      ensures countCheck <==> addresses.Len() == LocalCount(cfg, addresses)
      ensures addrCheck <==> AllConfigured(cfg, addresses)
      ensures expectedCount == LocalCount(cfg, addresses) % 256
    {
      match addresses {
        case V4Addresses(addrs) =>
          var local := Addrs4(cfg.ipv4);
          countCheck, addrCheck := |addrs| == |cfg.ipv4|, forall a :: a in addrs ==> a in local;
          expectedCount := |cfg.ipv4| % 256;
        case V6Addresses(addrs) =>
          var local := Addrs6(cfg.ipv6);
          countCheck, addrCheck := |addrs| == |cfg.ipv6|, forall a :: a in addrs ==> a in local;
          expectedCount := |cfg.ipv6| % 256;
      }
    }

    method ReactTo(p: VrrpPacket, now: Instant)
      requires Valid()
      modifies this, fsm
      ensures Valid() && Value() == React(old(Value()), p, now)
    {
      ReactKeepsCoherent(Value(), p, now);
      var family := FamilyOf(p);
      match fsm.state {
        case Backup =>
          if p.priority == 0 {
            fsm.SetMasterDownTimer(skewTime, now);
          } else if !cfg.preempt || p.priority >= cfg.priority {
            fsm.SetMasterDownTimer(masterDownInterval, now);
          } else if cfg.priority > p.priority {
            ApplyFamily(true, family);
            fsm.state := Master;
            fsm.SetAdvertTimer(AdvertUnits(cfg.advertInterval), now);
          }
        case Master =>
          if p.priority == 0 {
            SendAdvertisement();
            fsm.SetAdvertTimer(AdvertUnits(cfg.advertInterval), now);
          } else if p.priority > cfg.priority {
            StepDown(family, now);
            NotifyMut(NullEvent, now);
          } else if p.priority == cfg.priority {
            StepDown(family, now);
            fsm.event := NullEvent;
            NotifyMut(NullEvent, now);
          }
        case Init =>
      }
    }

    method StepDown(family: Family, now: Instant)
      requires Valid()
      modifies this, fsm
      ensures Valid()
      ensures var down := DeleteAddresses(old(Value()), family);
              Value() == SetState(Machine.SetMasterDownTimer(down, masterDownInterval, now), Backup)
    {
      ApplyFamily(false, family);
      fsm.SetMasterDownTimer(masterDownInterval, now);
      fsm.state := Backup;
    }
  }
}
