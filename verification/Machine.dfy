/** One virtual router as a value, and each locked section of the program as a step on it.
    Class VirtualRouter in module VirtualRouters carries the steps out in place. */
module Machine {
  import opened Wire
  import opened Packet
  import opened Timers

  datatype State = Init | Backup | Master

  datatype TimerType = NullTimer | MasterDownTimer | AdverTimer

  /** A duration in 256ths of a second and the deadline it was turned into. */
  datatype Timer = Timer(tType: TimerType, remaining: nat, waitingFor: Option<Instant>)

  datatype Event = Startup | NullEvent | Shutdown | MasterDown

  datatype Fsm = Fsm(timer: Timer, state: State, event: Event)

  const IDLE: Timer := Timer(NullTimer, 0, None)

  datatype Ipv4Net = Ipv4Net(addr: Ipv4Addr, prefixLen: byte)
  datatype Ipv6Net = Ipv6Net(addr: Ipv6Addr, prefixLen: byte)

  datatype Settings = Settings(
    name: string,
    vrid: byte,
    version: VrrpVersion,
    ipv4: seq<Ipv4Net>,
    ipv6: seq<Ipv6Net>,
    priority: byte,
    advertInterval: byte,
    preempt: bool)

  /** An IP packet carrying a VRRP message. */
  datatype Datagram = Datagram(src: IpAddr, dst: IpAddr, ttl: byte, payload: seq<byte>)

  datatype Frame =
    | Advert(datagram: Datagram)
    | GratuitousArp(target4: Ipv4Addr)
    | NeighborAdvert(target6: Ipv6Addr)

  /** A router: its settings, the addresses of its host's other interfaces, its state machine,
      the addresses on its two mac-vlans, and the log of everything it has sent. */
  datatype Router = Router(
    cfg: Settings,
    primaryV4: Ipv4Addr,
    primaryV6: Option<Ipv6Addr>,
    hostAddrs: set<IpAddr>,
    fsm: Fsm,
    linkV4: set<Ipv4Net>,
    linkV6: set<Ipv6Net>,
    sent: seq<Frame>)

  function Addrs4(nets: seq<Ipv4Net>): (r: seq<Ipv4Addr>)
    ensures |r| == |nets|
    ensures forall i :: 0 <= i < |nets| ==> r[i] == nets[i].addr
  {
    if nets == [] then [] else [nets[0].addr] + Addrs4(nets[1..])
  }

  function Addrs6(nets: seq<Ipv6Net>): (r: seq<Ipv6Addr>)
    ensures |r| == |nets|
    ensures forall i :: 0 <= i < |nets| ==> r[i] == nets[i].addr
  {
    if nets == [] then [] else [nets[0].addr] + Addrs6(nets[1..])
  }

  function Nets4(cfg: Settings): set<Ipv4Net> {
    set n | n in cfg.ipv4
  }

  function Nets6(cfg: Settings): set<Ipv6Net> {
    set n | n in cfg.ipv6
  }

  // ----- Timers -----

  function Skew(cfg: Settings): nat {
    SkewUnits(cfg.version, cfg.priority, cfg.advertInterval)
  }

  function MasterDownInterval(cfg: Settings): nat {
    MasterDownUnits(cfg.version, cfg.priority, cfg.advertInterval)
  }

  function SetTimer(r: Router, tType: TimerType, units: nat, now: Instant): Router {
    r.(fsm := r.fsm.(timer := Timer(tType, units, Some(After(now, units)))))
  }

  function SetAdvertTimer(r: Router, now: Instant): Router {
    SetTimer(r, AdverTimer, AdvertUnits(r.cfg.advertInterval), now)
  }

  function SetMasterDownTimer(r: Router, units: nat, now: Instant): Router {
    SetTimer(r, MasterDownTimer, units, now)
  }

  function SetState(r: Router, s: State): Router {
    r.(fsm := r.fsm.(state := s))
  }

  // ----- Addresses on the mac-vlans -----

  datatype Family = FamilyV4 | FamilyV6

  function AddAddresses(r: Router, family: Family): Router {
    match family
    case FamilyV4 => r.(linkV4 := r.linkV4 + Nets4(r.cfg))
    case FamilyV6 => r.(linkV6 := r.linkV6 + Nets6(r.cfg))
  }

  function DeleteAddresses(r: Router, family: Family): Router {
    match family
    case FamilyV4 => r.(linkV4 := r.linkV4 - Nets4(r.cfg))
    case FamilyV6 => r.(linkV6 := r.linkV6 - Nets6(r.cfg))
  }

  function AddVirtualAddresses(r: Router): Router {
    var r4 := AddAddresses(r, FamilyV4);
    if r.cfg.version.V3? then AddAddresses(r4, FamilyV6) else r4
  }

  function DeleteVirtualAddresses(r: Router): Router {
    var r4 := DeleteAddresses(r, FamilyV4);
    if r.cfg.version.V3? then DeleteAddresses(r4, FamilyV6) else r4
  }

  // ----- Sending -----

  function AdvertPacket(cfg: Settings, addresses: VrrpAddresses): VrrpPacket {
    VrrpPacket(cfg.version, cfg.vrid, cfg.priority, cfg.advertInterval * 100, addresses)
  }

  function AdvertV4(r: Router): Datagram {
    Datagram(IpV4(r.primaryV4), IpV4(VRRP_MCAST_ADDR), 255,
             Encode(AdvertPacket(r.cfg, V4Addresses(Addrs4(r.cfg.ipv4))), IpV4(r.primaryV4)))
  }

  predicate SendsV6(r: Router) {
    r.cfg.version.V3? && r.primaryV6.Some?
  }

  function AdvertV6(r: Router): Datagram
    requires SendsV6(r)
  {
    var src := IpV6(r.primaryV6.value);
    Datagram(src, IpV6(VRRP_V6_MCAST_ADDR), 255,
             Encode(AdvertPacket(r.cfg, V6Addresses(Addrs6(r.cfg.ipv6))), src))
  }

  /** What one call of send_advertisement puts on the wire: an IPv4 advertisement, and an
      IPv6 one from a v3 router that has an IPv6 source. */
  function Adverts(r: Router): seq<Frame> {
    [Advert(AdvertV4(r))] + if SendsV6(r) then [Advert(AdvertV6(r))] else []
  }

  function SendAdvertisement(r: Router): Router {
    r.(sent := r.sent + Adverts(r))
  }

  function GratuitousArps(addrs: seq<Ipv4Addr>): seq<Frame> {
    if addrs == [] then [] else [GratuitousArp(addrs[0])] + GratuitousArps(addrs[1..])
  }

  function NeighborAdverts(addrs: seq<Ipv6Addr>): seq<Frame> {
    if addrs == [] then [] else [NeighborAdvert(addrs[0])] + NeighborAdverts(addrs[1..])
  }

  function AnnounceOwnership(r: Router): Router {
    r.(sent := r.sent + GratuitousArps(Addrs4(r.cfg.ipv4))
               + if r.cfg.version.V3? then NeighborAdverts(Addrs6(r.cfg.ipv6)) else [])
  }

  // ----- Events -----

  function Notify(r: Router, event: Event, now: Instant): Router {
    match event
    case Startup =>
      if r.fsm.state != Init then r
      else if r.cfg.priority == 255 then
        SetState(SetAdvertTimer(AddVirtualAddresses(AnnounceOwnership(SendAdvertisement(r))), now), Master)
      else
        SetState(SetMasterDownTimer(DeleteVirtualAddresses(r), MasterDownInterval(r.cfg), now), Backup)
    case Shutdown =>
      (match r.fsm.state
       case Init => r
       case Backup => r.(fsm := r.fsm.(timer := IDLE, state := Init))
       case Master =>
         SetState(DeleteVirtualAddresses(SendAdvertisement(r.(fsm := r.fsm.(timer := IDLE)))), Init))
    case MasterDown =>
      if r.fsm.state != Backup then r
      else SetState(SetAdvertTimer(AddVirtualAddresses(AnnounceOwnership(SendAdvertisement(r))), now), Master)
    case NullEvent => r
  }

  /** One pass of the one-second polling loop. */
  function Tick(r: Router, now: Instant): Router {
    match r.fsm.timer.tType
    case NullTimer => r
    case MasterDownTimer =>
      (match r.fsm.timer.waitingFor
       case Some(waiting) => if now > waiting then Notify(r, MasterDown, now) else r
       case None => r)
    case AdverTimer =>
      (match r.fsm.timer.waitingFor
       case Some(waiting) => if now > waiting then SetAdvertTimer(SendAdvertisement(r), now) else r
       case None => r)
  }

  // ----- Receiving -----

  /** The own-source filter: does any interface of the host, mac-vlans included, hold ip? */
  predicate IsLocal(r: Router, ip: IpAddr) {
    || ip in r.hostAddrs
    || (ip.IpV4? && exists n :: n in r.linkV4 && n.addr == ip.v4)
    || (ip.IpV6? && exists n :: n in r.linkV6 && n.addr == ip.v6)
  }

  function LocalCount(cfg: Settings, addresses: VrrpAddresses): nat {
    if addresses.V4Addresses? then |cfg.ipv4| else |cfg.ipv6|
  }

  predicate AllConfigured(cfg: Settings, addresses: VrrpAddresses) {
    match addresses
    case V4Addresses(addrs) => forall a :: a in addrs ==> a in Addrs4(cfg.ipv4)
    case V6Addresses(addrs) => forall a :: a in addrs ==> a in Addrs6(cfg.ipv6)
  }

  /** Why a decoded advertisement is dropped, if it is. An owner's advertisement is let
      through whatever its address list. */
  function DropReason(cfg: Settings, p: VrrpPacket, ttl: byte): Option<PacketError> {
    if ttl != 255 then Some(BadTtl(ttl))
    else if p.vrid != cfg.vrid then Some(VridMismatch(cfg.vrid, p.vrid))
    else if p.adverIntCs != cfg.advertInterval * 100 then
      Some(AdvertIntervalMismatch(cfg.advertInterval, p.adverIntCs / 100 % 256))
    else if p.addresses.Len() != LocalCount(cfg, p.addresses) && p.priority != 255 then
      Some(IpCountMismatch(LocalCount(cfg, p.addresses) % 256, p.addresses.Len() % 256))
    else if !AllConfigured(cfg, p.addresses) && p.priority != 255 then Some(IpListMismatch)
    else None
  }

  /** What the family's socket hands on: an IPv6 packet comes without its header, so its
      destination and hop limit are taken to be right. */
  function Delivered(d: Datagram): Datagram {
    if d.src.IpV6? then d.(dst := IpV6(VRRP_V6_MCAST_ADDR), ttl := 255) else d
  }

  /** What is logged about a payload: why it is dropped, or that an owner's list, which is let
      through, has another length than the configured one. */
  function Logged(cfg: Settings, payload: seq<byte>, src: IpAddr, dst: IpAddr, ttl: byte): Option<PacketError> {
    match Decode(payload, src, dst)
    case Err(e) => Some(e)
    case Ok(p) =>
      if DropReason(cfg, p, ttl).None? && p.addresses.Len() != LocalCount(cfg, p.addresses) then
        Some(IpCountMismatch(LocalCount(cfg, p.addresses) % 256, p.addresses.Len() % 256))
      else DropReason(cfg, p, ttl)
  }

  /** The advertisement in a payload if it decodes and passes every check of the receiver. */
  function Checked(cfg: Settings, payload: seq<byte>, src: IpAddr, dst: IpAddr, ttl: byte): Option<VrrpPacket> {
    match Decode(payload, src, dst)
    case Err(_) => None
    case Ok(p) =>
      if DropReason(cfg, p, ttl).Some? then None
      else if p.addresses.V6Addresses? && cfg.version.V2? then None
      else Some(p)
  }

  /** The advertisement in a datagram if it gets as far as the state machine. */
  function Accepted(r: Router, datagram: Datagram): Option<VrrpPacket> {
    var d := Delivered(datagram);
    if IsLocal(r, d.src) then None else Checked(r.cfg, d.payload, d.src, d.dst, d.ttl)
  }

  function FamilyOf(p: VrrpPacket): Family {
    if p.addresses.V4Addresses? then FamilyV4 else FamilyV6
  }

  /** The state machine's answer to an accepted advertisement. */
  function React(r: Router, p: VrrpPacket, now: Instant): Router {
    match r.fsm.state
    case Init => r
    case Backup =>
      if p.priority == 0 then SetMasterDownTimer(r, Skew(r.cfg), now)
      else if !r.cfg.preempt || p.priority >= r.cfg.priority then
        SetMasterDownTimer(r, MasterDownInterval(r.cfg), now)
      else SetAdvertTimer(SetState(AddAddresses(r, FamilyOf(p)), Master), now)
    case Master =>
      if p.priority == 0 then SetAdvertTimer(SendAdvertisement(r), now)
      else if p.priority > r.cfg.priority then
        SetState(SetMasterDownTimer(DeleteAddresses(r, FamilyOf(p)), MasterDownInterval(r.cfg), now), Backup)
      else if p.priority == r.cfg.priority then
        var r' := SetState(SetMasterDownTimer(DeleteAddresses(r, FamilyOf(p)), MasterDownInterval(r.cfg), now), Backup);
        r'.(fsm := r'.fsm.(event := NullEvent))
      else r
  }

  function Receive(r: Router, d: Datagram, now: Instant): Router {
    match Accepted(r, d)
    case None => r
    case Some(p) => React(r, p, now)
  }

  // ----- Runs of one router -----

  datatype Input =
    | StartupAt(now: Instant)
    | ShutdownNow
    | TickAt(now: Instant)
    | Packet(datagram: Datagram, now: Instant)

  function Step(r: Router, input: Input): Router {
    match input
    case StartupAt(now) => Notify(r, Startup, now)
    case ShutdownNow => Notify(r, Shutdown, 0)
    case TickAt(now) => Tick(r, now)
    case Packet(d, now) => Receive(r, d, now)
  }

  function Exec(r: Router, inputs: seq<Input>): Router
    decreases |inputs|
  {
    if inputs == [] then r else Exec(Step(r, inputs[0]), inputs[1..])
  }

  lemma {:induction false} ExecOne(r: Router, input: Input)
    ensures Exec(r, [input]) == Step(r, input)
  {
  }

  lemma {:induction false} ExecCons(r: Router, head: Input, rest: seq<Input>)
    ensures Exec(r, [head] + rest) == Exec(Step(r, head), rest)
  {
  }

  lemma {:induction false} ExecConcat(r: Router, a: seq<Input>, b: seq<Input>)
    ensures Exec(r, a + b) == Exec(Exec(r, a), b)
    decreases |a|
  {
    if a == [] {
      assert a + b == b;
    } else {
      assert (a + b)[1..] == a[1..] + b && (a + b)[0] == a[0];
      ExecConcat(Step(r, a[0]), a[1..], b);
    }
  }
}
