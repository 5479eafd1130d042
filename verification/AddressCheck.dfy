/** What the receiver's address check lets through: counts are compared and each received
    address is looked up, which is not set equality once an address may be repeated. */
module AddressCheck {
  import opened Wire
  import opened Packet
  import opened CodecProofs
  import opened Lists
  import opened Machine
  import opened RouterProofs

  function ListOf(addresses: VrrpAddresses): seq<nat> {
    match addresses
    case V4Addresses(addrs) => addrs
    case V6Addresses(addrs) => addrs
  }

  /** The configured addresses of the packet's family. */
  function LocalList(cfg: Settings, addresses: VrrpAddresses): seq<nat> {
    match addresses
    case V4Addresses(_) => Addrs4(cfg.ipv4)
    case V6Addresses(_) => Addrs6(cfg.ipv6)
  }

  /** The datagram decodes to p and meets every condition but the one on its address list. */
  predicate ReachesListCheck(r: Router, datagram: Datagram, p: VrrpPacket) {
    var d := Delivered(datagram);
    && !IsLocal(r, d.src) && Decode(d.payload, d.src, d.dst) == Ok(p)
    && d.ttl == 255 && p.vrid == r.cfg.vrid && p.adverIntCs == r.cfg.advertInterval * 100
    && (p.addresses.V6Addresses? ==> r.cfg.version.V3?)
  }

  /** An owner's list is not checked; any other list is compared by count and look-up, which for
      a list without repetitions means the configured addresses, none of them configured twice. */
  lemma {:induction false} AcceptedListExactly(r: Router, d: Datagram, p: VrrpPacket)
    requires ReachesListCheck(r, d, p)
    ensures p.priority == 255 ==> Accepted(r, d) == Some(p)
    ensures var received, local := ListOf(p.addresses), LocalList(r.cfg, p.addresses);
            p.priority != 255 ==>
              && (Accepted(r, d).Some? <==> ListChecks(received, local))
              && (NoDuplicates(received) ==>
                    (Accepted(r, d).Some? <==> SameElements(received, local) && NoDuplicates(local)))
  {
    var received, local := ListOf(p.addresses), LocalList(r.cfg, p.addresses);
    assert AllConfigured(r.cfg, p.addresses) <==> forall a :: a in received ==> a in local;
    if NoDuplicates(received) {
      ChecksWithoutRepetition(received, local);
    }
  }

  /** If the datagram is accepted, from any router but an owner, it lists the configured addresses. */
  ghost predicate ListsConfigured(r: Router, d: Datagram) {
    Accepted(r, d).Some? && Accepted(r, d).value.priority != 255 ==>
      var addresses := Accepted(r, d).value.addresses;
      SameElements(ListOf(addresses), LocalList(r.cfg, addresses))
  }

  /** One address of the source's family as often as the receiver has addresses of it. */
  function RepeatedPacket(cfg: Settings, family: Family, x: nat): VrrpPacket
    requires x < match family case FamilyV4 => Pow256(4) case FamilyV6 => Pow256(16)
  {
    match family
    case FamilyV4 => VrrpPacket(V2, cfg.vrid, 100, cfg.advertInterval * 100, V4Addresses(Repeat(x, |cfg.ipv4|)))
    case FamilyV6 => VrrpPacket(V3, cfg.vrid, 100, cfg.advertInterval * 100, V6Addresses(Repeat(x, |cfg.ipv6|)))
  }

  function RepeatedAdvert(cfg: Settings, src: IpAddr, x: nat): Datagram
    requires x < match src case IpV4(_) => Pow256(4) case IpV6(_) => Pow256(16)
  {
    match src
    case IpV4(_) => Datagram(src, IpV4(VRRP_MCAST_ADDR), 255, Encode(RepeatedPacket(cfg, FamilyV4, x), src))
    case IpV6(_) => Datagram(src, IpV6(VRRP_V6_MCAST_ADDR), 255, Encode(RepeatedPacket(cfg, FamilyV6, x), src))
  }

  /** An encoded advertisement that repeats one configured address and omits another is accepted. */
  lemma {:induction false} RepeatedAddressSlipsThrough(r: Router, src: IpAddr, x: nat, y: nat)
    requires !IsLocal(r, src) && |r.cfg.ipv4| <= MAX_IP_COUNT && |r.cfg.ipv6| <= MAX_IP_COUNT && x != y
    requires src.IpV4? ==> x in Addrs4(r.cfg.ipv4) && y in Addrs4(r.cfg.ipv4)
    requires src.IpV6? ==> x in Addrs6(r.cfg.ipv6) && y in Addrs6(r.cfg.ipv6)
    requires src.IpV6? ==> r.cfg.version.V3? && r.cfg.advertInterval <= 40
    ensures var d := RepeatedAdvert(r.cfg, src, x);
            && Accepted(r, d).Some? && y !in ListOf(Accepted(r, d).value.addresses)
            && !ListsConfigured(r, d)
  {
    var p := RepeatedPacket(r.cfg, if src.IpV4? then FamilyV4 else FamilyV6, x);
    match src {
      case IpV4(_) =>
        IntervalSurvives(V2, r.cfg.advertInterval);
        V4RoundTrip(p);
      case IpV6(a) =>
        IntervalSurvives(V3, r.cfg.advertInterval);
        V6RoundTrip(p, a);
    }
    AcceptedListExactly(r, RepeatedAdvert(r.cfg, src, x), p);
    RepetitionPasses(x, y, LocalList(r.cfg, p.addresses));
  }

  /** What a router hears over IPv6, whatever the configured list. */
  predicate HearsIpv6(cfg: Settings) {
    cfg.version.V3? && cfg.advertInterval <= 40
  }

  /** Every accepted advertisement of another than an owner lists exactly the configured
      addresses if and only if no family the router hears has two different ones. */
  lemma {:induction false} ListCheckIsSetEqualityExactly(r: Router, src4: IpAddr, src6: IpAddr)
    requires src4.IpV4? && src6.IpV6? && !IsLocal(r, src4) && !IsLocal(r, src6)
    requires |r.cfg.ipv4| <= MAX_IP_COUNT && |r.cfg.ipv6| <= MAX_IP_COUNT
    ensures (forall d: Datagram :: ListsConfigured(r, d))
       <==> AllAlike(Addrs4(r.cfg.ipv4)) && (HearsIpv6(r.cfg) ==> AllAlike(Addrs6(r.cfg.ipv6)))
  {
    if !AllAlike(Addrs4(r.cfg.ipv4)) {
      var x, y :| x in Addrs4(r.cfg.ipv4) && y in Addrs4(r.cfg.ipv4) && x != y;
      RepeatedAddressSlipsThrough(r, src4, x, y);
    } else if HearsIpv6(r.cfg) && !AllAlike(Addrs6(r.cfg.ipv6)) {
      var x, y :| x in Addrs6(r.cfg.ipv6) && y in Addrs6(r.cfg.ipv6) && x != y;
      RepeatedAddressSlipsThrough(r, src6, x, y);
    } else {
      forall d: Datagram | Accepted(r, d).Some? && Accepted(r, d).value.priority != 255
        ensures ListsConfigured(r, d)
      {
        AlikeRouterAcceptsConfigured(r, d);
      }
    }
  }

  lemma {:induction false} AlikeRouterAcceptsConfigured(r: Router, d: Datagram)
    requires AllAlike(Addrs4(r.cfg.ipv4)) && (HearsIpv6(r.cfg) ==> AllAlike(Addrs6(r.cfg.ipv6)))
    requires Accepted(r, d).Some? && Accepted(r, d).value.priority != 255
    ensures ListsConfigured(r, d)
  {
    var p := Accepted(r, d).value;
    assert ReachesListCheck(r, d, p);
    AcceptedListExactly(r, d, p);
    if r.cfg.advertInterval > 40 {
      LongIntervalsHearNoV6(r, d);
    }
    AlikeListsAgree(ListOf(p.addresses), LocalList(r.cfg, p.addresses));
  }
}
