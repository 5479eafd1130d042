/** Which datagrams reach the state machine, condition by condition, and what is logged. */
module Reception {
  import opened Wire
  import opened Packet
  import opened Lists
  import opened Timers
  import opened Machine
  import opened AddressCheck

  /** No interface of the host, mac-vlans included, has the address. */
  predicate OnNoInterface(r: Router, ip: IpAddr) {
    && ip !in r.hostAddrs
    && (forall n :: n in r.linkV4 ==> ip != IpV4(n.addr))
    && (forall n :: n in r.linkV6 ==> ip != IpV6(n.addr))
  }

  /** The message in a datagram as its family's decoder reads it; over IPv6 the destination is
      the group's, whatever the datagram says. */
  function Message(d: Datagram): Result<VrrpPacket, PacketError> {
    match d.src
    case IpV4(_) => DecodeV4(d.payload)
    case IpV6(src) => DecodeV6(d.payload, src, VRRP_V6_MCAST_ADDR)
  }

  /** Everything the receiver asks of a decoded advertisement. */
  predicate Admissible(cfg: Settings, d: Datagram, p: VrrpPacket) {
    && (d.src.IpV4? ==> d.ttl == 255)
    && p.vrid == cfg.vrid
    && p.adverIntCs == 100 * cfg.advertInterval
    && (p.priority == 255 || ListChecks(ListOf(p.addresses), LocalList(cfg, p.addresses)))
    && (d.src.IpV6? ==> cfg.version.V3?)
  }

  /** A datagram reaches the state machine exactly when its source is on no interface and it
      holds an admissible message, and it is that message that does. */
  lemma {:induction false} AcceptedExactly(r: Router, d: Datagram)
    ensures Accepted(r, d).Some?
       <==> OnNoInterface(r, d.src) && Message(d).Ok? && Admissible(r.cfg, d, Message(d).value)
    ensures Accepted(r, d).Some? ==> Message(d) == Ok(Accepted(r, d).value)
  {
    if Message(d).Ok? {
      var p := Message(d).value;
      FamilyOfMessage(d);
      LocalExactly(r, d.src);
      ListCheckSplit(r.cfg, p.addresses);
    }
  }

  lemma {:induction false} FamilyOfMessage(d: Datagram)
    requires Message(d).Ok?
    ensures Message(d).value.addresses.V4Addresses? <==> d.src.IpV4?
  {
  }

  lemma {:induction false} LocalExactly(r: Router, ip: IpAddr)
    ensures IsLocal(r, ip) <==> !OnNoInterface(r, ip)
  {
  }

  lemma {:induction false} ListCheckSplit(cfg: Settings, addresses: VrrpAddresses)
    ensures ListChecks(ListOf(addresses), LocalList(cfg, addresses))
       <==> addresses.Len() == LocalCount(cfg, addresses) && AllConfigured(cfg, addresses)
  {
  }

  /** An IPv4 datagram that passed a router on its way changes nothing. */
  lemma {:induction false} RoutedIsIgnored(r: Router, d: Datagram, now: Instant)
    requires d.src.IpV4? && d.ttl != 255
    ensures Receive(r, d, now) == r
  {
    AcceptedExactly(r, d);
  }

  /** Nor does one whose message is damaged, or that the router sent itself. */
  lemma {:induction false} UnreadableIsIgnored(r: Router, d: Datagram, now: Instant)
    requires Message(d).Err? || !OnNoInterface(r, d.src)
    ensures Receive(r, d, now) == r
  {
    AcceptedExactly(r, d);
  }

  /** Over IPv6 the hop limit and the destination are not looked at, over IPv4 the destination. */
  lemma {:induction false} HeaderFieldsIgnored(r: Router, d: Datagram, dst: IpAddr, ttl: byte, now: Instant)
    ensures Receive(r, d.(dst := dst), now) == Receive(r, d, now)
    ensures d.src.IpV6? ==> Receive(r, d.(ttl := ttl), now) == Receive(r, d, now)
  {
    SameMessageAccepted(r, d, d.(dst := dst));
    if d.src.IpV6? {
      SameMessageAccepted(r, d, d.(ttl := ttl));
    }
  }

  lemma {:induction false} SameMessageAccepted(r: Router, d: Datagram, e: Datagram)
    requires d.src == e.src && d.payload == e.payload && (d.src.IpV4? ==> d.ttl == e.ttl)
    ensures Accepted(r, d) == Accepted(r, e)
  {
    AcceptedExactly(r, d);
    AcceptedExactly(r, e);
  }

  /** The log names the first condition that fails, with what was expected and what came. An
      owner's list of another length is logged and let through; a v2 router ignores IPv6
      messages without a word. */
  lemma {:induction false} LoggedExactly(cfg: Settings, d: Datagram)
    ensures var logged := Logged(cfg, d.payload, d.src, Delivered(d).dst, Delivered(d).ttl);
            match Message(d)
            case Err(e) => logged == Some(e)
            case Ok(p) =>
              var received, local := ListOf(p.addresses), LocalList(cfg, p.addresses);
              logged ==
                if d.src.IpV4? && d.ttl != 255 then Some(BadTtl(d.ttl))
                else if p.vrid != cfg.vrid then Some(VridMismatch(cfg.vrid, p.vrid))
                else if p.adverIntCs != 100 * cfg.advertInterval then
                  Some(AdvertIntervalMismatch(cfg.advertInterval, p.adverIntCs / 100 % 256))
                else if |received| != |local| then Some(IpCountMismatch(|local| % 256, |received| % 256))
                else if p.priority == 255 || ListChecks(received, local) then None
                else Some(IpListMismatch)
  {
    if Message(d).Ok? {
      ListCheckSplit(cfg, Message(d).value.addresses);
    }
  }
}
