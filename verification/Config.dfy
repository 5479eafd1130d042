/** Configuration: validation of a list of instances, and the settings of a router. */
module Config {
  import opened Wire
  import opened Packet
  import opened Timers
  import opened Machine
  import opened RouterProofs

  datatype Config = Config(
    name: string,
    vrid: byte,
    ipAddresses: seq<string>,
    interfaceName: string,
    priority: byte,
    advertInterval: byte,
    preempt: bool,
    version: VrrpVersion)

  /** What parsing an address text gives. */
  datatype IpNet = NetV4(v4: Ipv4Net) | NetV6(v6: Ipv6Net) | Unparsable

  type Parser = string -> IpNet

  datatype ConfigError =
    | AdvertIntervalTooLarge(name: string, interval: byte)
    | Ipv6NotSupportedInV2(owner: string, address: string)
    | IPFormatting(text: string)
    | DuplicateName(twice: string, nameVersion: byte)
    | DuplicateVrid(vrid: byte, vridVersion: byte)

  const MAX_V3_INTERVAL: byte := 40

  // ----- What an acceptable list is -----

  predicate IntervalFits(c: Config) {
    c.version.V3? ==> c.advertInterval <= MAX_V3_INTERVAL
  }

  predicate AddressesFit(c: Config, parse: Parser) {
    forall a :: a in c.ipAddresses ==> parse(a).NetV4? || (parse(a).NetV6? && c.version.V3?)
  }

  predicate Conflict(c: Config, d: Config) {
    c.version == d.version && (c.name == d.name || c.vrid == d.vrid)
  }

  /** Every v3 interval is at most 40 s, every address fits its version, and no two instances
      of one version share a name or a VRID. */
  predicate Acceptable(configs: seq<Config>, parse: Parser) {
    && (forall i :: 0 <= i < |configs| ==> IntervalFits(configs[i]) && AddressesFit(configs[i], parse))
    && (forall i, j :: 0 <= i < j < |configs| ==> !Conflict(configs[i], configs[j]))
  }

  // ----- The first fault in the order of the checks -----

  function IntervalFault(c: Config): Option<ConfigError> {
    if c.version.V3? && c.advertInterval > MAX_V3_INTERVAL
    then Some(AdvertIntervalTooLarge(c.name, c.advertInterval)) else None
  }

  function AddressFault(c: Config, a: string, parse: Parser): Option<ConfigError> {
    match parse(a)
    case NetV4(_) => None
    case NetV6(_) => if c.version.V2? then Some(Ipv6NotSupportedInV2(c.name, a)) else None
    case Unparsable => Some(IPFormatting(a))
  }

  function PairFault(c: Config, d: Config): Option<ConfigError> {
    if c.version != d.version then None
    else if d.name == c.name then Some(DuplicateName(c.name, c.version.AsU8()))
    else if d.vrid == c.vrid then Some(DuplicateVrid(c.vrid, c.version.AsU8()))
    else None
  }

  function FirstAddressFault(c: Config, k: nat, parse: Parser): Option<ConfigError>
    requires k <= |c.ipAddresses|
    decreases |c.ipAddresses| - k
  {
    if k == |c.ipAddresses| then None
    else if AddressFault(c, c.ipAddresses[k], parse).Some? then AddressFault(c, c.ipAddresses[k], parse)
    else FirstAddressFault(c, k + 1, parse)
  }

  function FirstPairFault(configs: seq<Config>, i: nat, j: nat): Option<ConfigError>
    requires i < j <= |configs|
    decreases |configs| - j
  {
    if j == |configs| then None
    else if PairFault(configs[i], configs[j]).Some? then PairFault(configs[i], configs[j])
    else FirstPairFault(configs, i, j + 1)
  }

  function FaultAt(configs: seq<Config>, i: nat, parse: Parser): Option<ConfigError>
    requires i < |configs|
  {
    if IntervalFault(configs[i]).Some? then IntervalFault(configs[i])
    else if FirstAddressFault(configs[i], 0, parse).Some? then FirstAddressFault(configs[i], 0, parse)
    else FirstPairFault(configs, i, i + 1)
  }

  function FirstFault(configs: seq<Config>, i: nat, parse: Parser): Option<ConfigError>
    requires i <= |configs|
    decreases |configs| - i
  {
    if i == |configs| then None
    else if FaultAt(configs, i, parse).Some? then FaultAt(configs, i, parse)
    else FirstFault(configs, i + 1, parse)
  }

  function Verdict(fault: Option<ConfigError>): Result<(), ConfigError> {
    match fault
    case None => Ok(())
    case Some(e) => Err(e)
  }

  method ValidateConfigs(configs: seq<Config>, parse: Parser) returns (r: Result<(), ConfigError>)
    ensures r == Verdict(FirstFault(configs, 0, parse))
    ensures r.Ok? <==> Acceptable(configs, parse)
    ensures r.Err? ==> exists k :: 0 <= k < |configs| && FaultlessBefore(configs, k, parse)
                                   && Reports(configs, k, parse, r.error)
  {
    NoFaultExactly(configs, parse);
    if FirstFault(configs, 0, parse).Some? {
      ghost var k := FirstFaultReported(configs, 0, parse);
    }
    var i := 0;
    while i < |configs|
      invariant 0 <= i <= |configs|
      invariant FirstFault(configs, 0, parse) == FirstFault(configs, i, parse)
    {
      var cfg := configs[i];
      if cfg.version == V3 && cfg.advertInterval > 40 {
        return Err(AdvertIntervalTooLarge(cfg.name, cfg.advertInterval));
      }
      var k := 0;
      while k < |cfg.ipAddresses|
        invariant 0 <= k <= |cfg.ipAddresses|
        invariant FirstAddressFault(cfg, 0, parse) == FirstAddressFault(cfg, k, parse)
      {
        var addr := cfg.ipAddresses[k];
        match cfg.version {
          case V2 =>
            if parse(addr).NetV6? {
              return Err(Ipv6NotSupportedInV2(cfg.name, addr));
            }
            if !parse(addr).NetV4? {
              return Err(IPFormatting(addr));
            }
          case V3 =>
            if !parse(addr).NetV4? && !parse(addr).NetV6? {
              return Err(IPFormatting(addr));
            }
        }
        k := k + 1;
      }
      var j := i + 1;
      while j < |configs|
        invariant i < j <= |configs|
        invariant FirstPairFault(configs, i, i + 1) == FirstPairFault(configs, i, j)
      {
        var other := configs[j];
        if other.version == cfg.version {
          if other.name == cfg.name {
            return Err(DuplicateName(cfg.name, cfg.version.AsU8()));
          }
          if other.vrid == cfg.vrid {
            return Err(DuplicateVrid(cfg.vrid, cfg.version.AsU8()));
          }
        }
        j := j + 1;
      }
      i := i + 1;
    }
    r := Ok(());
  }

  lemma {:induction false} NoAddressFault(c: Config, k: nat, parse: Parser)
    requires k <= |c.ipAddresses|
    ensures FirstAddressFault(c, k, parse).None?
       <==> forall m :: k <= m < |c.ipAddresses| ==> AddressFault(c, c.ipAddresses[m], parse).None?
    decreases |c.ipAddresses| - k
  {
    if k < |c.ipAddresses| {
      NoAddressFault(c, k + 1, parse);
    }
  }

  lemma {:induction false} NoPairFault(configs: seq<Config>, i: nat, j: nat)
    requires i < j <= |configs|
    ensures FirstPairFault(configs, i, j).None?
       <==> forall m :: j <= m < |configs| ==> !Conflict(configs[i], configs[m])
    decreases |configs| - j
  {
    if j < |configs| {
      NoPairFault(configs, i, j + 1);
    }
  }

  predicate CleanFrom(configs: seq<Config>, i: nat, parse: Parser) {
    && (forall m :: i <= m < |configs| ==> IntervalFits(configs[m]) && AddressesFit(configs[m], parse))
    && (forall m, n :: i <= m < n < |configs| ==> !Conflict(configs[m], configs[n]))
  }

  lemma {:induction false} NoFaultFrom(configs: seq<Config>, i: nat, parse: Parser)
    requires i <= |configs|
    ensures FirstFault(configs, i, parse).None? <==> CleanFrom(configs, i, parse)
    decreases |configs| - i
  {
    if i < |configs| {
      NoFaultFrom(configs, i + 1, parse);
      NoAddressFault(configs[i], 0, parse);
      NoPairFault(configs, i, i + 1);
      AddressFaultExactly(configs[i], parse);
    }
  }

  lemma {:induction false} AddressFaultExactly(c: Config, parse: Parser)
    ensures (forall m :: 0 <= m < |c.ipAddresses| ==> AddressFault(c, c.ipAddresses[m], parse).None?)
       <==> AddressesFit(c, parse)
  {
  }

  lemma {:induction false} NoFaultExactly(configs: seq<Config>, parse: Parser)
    ensures FirstFault(configs, 0, parse).None? <==> Acceptable(configs, parse)
  {
    NoFaultFrom(configs, 0, parse);
  }

  // ----- Which error is reported -----

  /** Instance i is the first with a fault, and e is the first of its faults: the interval, then
      the addresses in their order, then the later instances in theirs, names before VRIDs. */
  ghost predicate Reports(configs: seq<Config>, i: nat, parse: Parser, e: ConfigError)
    requires i < |configs|
  {
    var c := configs[i];
    if !IntervalFits(c) then e == AdvertIntervalTooLarge(c.name, c.advertInterval)
    else if !AddressesFit(c, parse) then
      exists k :: 0 <= k < |c.ipAddresses| && FirstBadAddress(c, k, parse)
                  && e == if parse(c.ipAddresses[k]).Unparsable? then IPFormatting(c.ipAddresses[k])
                          else Ipv6NotSupportedInV2(c.name, c.ipAddresses[k])
    else
      exists j :: i < j < |configs| && FirstConflict(configs, i, j)
                  && e == if configs[j].name == c.name then DuplicateName(c.name, c.version.AsU8())
                          else DuplicateVrid(c.vrid, c.version.AsU8())
  }

  predicate AddressFits(c: Config, a: string, parse: Parser) {
    parse(a).NetV4? || (parse(a).NetV6? && c.version.V3?)
  }

  ghost predicate FirstBadAddress(c: Config, k: nat, parse: Parser)
    requires k < |c.ipAddresses|
  {
    && !AddressFits(c, c.ipAddresses[k], parse)
    && forall m :: 0 <= m < k ==> AddressFits(c, c.ipAddresses[m], parse)
  }

  ghost predicate FirstConflict(configs: seq<Config>, i: nat, j: nat)
    requires i < j < |configs|
  {
    Conflict(configs[i], configs[j]) && forall m :: i < m < j ==> !Conflict(configs[i], configs[m])
  }

  /** No instance before i has a fault of its own or shares with a later one. */
  predicate FaultlessBefore(configs: seq<Config>, i: nat, parse: Parser)
    requires i <= |configs|
  {
    && (forall m :: 0 <= m < i ==> IntervalFits(configs[m]) && AddressesFit(configs[m], parse))
    && (forall m, n :: 0 <= m < i && m < n < |configs| ==> !Conflict(configs[m], configs[n]))
  }

  lemma {:induction false} AddressFaultReported(c: Config, k: nat, parse: Parser)
    requires k <= |c.ipAddresses| && FirstAddressFault(c, k, parse).Some?
    requires forall m :: 0 <= m < k ==> AddressFits(c, c.ipAddresses[m], parse)
    ensures exists m :: 0 <= m < |c.ipAddresses| && FirstBadAddress(c, m, parse)
              && FirstAddressFault(c, k, parse).value
                 == if parse(c.ipAddresses[m]).Unparsable? then IPFormatting(c.ipAddresses[m])
                    else Ipv6NotSupportedInV2(c.name, c.ipAddresses[m])
    decreases |c.ipAddresses| - k
  {
    if AddressFault(c, c.ipAddresses[k], parse).Some? {
      assert FirstBadAddress(c, k, parse);
    } else {
      AddressFaultReported(c, k + 1, parse);
    }
  }

  lemma {:induction false} PairFaultReported(configs: seq<Config>, i: nat, j: nat)
    requires i < j <= |configs| && FirstPairFault(configs, i, j).Some?
    requires forall m :: i < m < j ==> !Conflict(configs[i], configs[m])
    ensures exists m :: i < m < |configs| && FirstConflict(configs, i, m)
              && FirstPairFault(configs, i, j).value
                 == if configs[m].name == configs[i].name then DuplicateName(configs[i].name, configs[i].version.AsU8())
                    else DuplicateVrid(configs[i].vrid, configs[i].version.AsU8())
    decreases |configs| - j
  {
    if PairFault(configs[i], configs[j]).Some? {
      assert FirstConflict(configs, i, j);
    } else {
      PairFaultReported(configs, i, j + 1);
    }
  }

  lemma {:induction false} FaultAtReported(configs: seq<Config>, i: nat, parse: Parser)
    requires i < |configs| && FaultAt(configs, i, parse).Some?
    ensures Reports(configs, i, parse, FaultAt(configs, i, parse).value)
  {
    NoAddressFault(configs[i], 0, parse);
    AddressFaultExactly(configs[i], parse);
    if IntervalFits(configs[i]) {
      if !AddressesFit(configs[i], parse) {
        AddressFaultReported(configs[i], 0, parse);
      } else {
        PairFaultReported(configs, i, i + 1);
      }
    }
  }

  /** The error of a refused list is the first one: of the first instance with a fault. */
  lemma {:induction false} FirstFaultReported(configs: seq<Config>, i: nat, parse: Parser) returns (k: nat)
    requires i <= |configs| && FirstFault(configs, i, parse).Some? && FaultlessBefore(configs, i, parse)
    ensures i <= k < |configs| && FaultlessBefore(configs, k, parse)
    ensures Reports(configs, k, parse, FirstFault(configs, i, parse).value)
    decreases |configs| - i
  {
    if FaultAt(configs, i, parse).Some? {
      k := i;
      FaultAtReported(configs, i, parse);
    } else {
      NoAddressFault(configs[i], 0, parse);
      AddressFaultExactly(configs[i], parse);
      NoPairFault(configs, i, i + 1);
      k := FirstFaultReported(configs, i + 1, parse);
    }
  }

  // ----- Order does not matter -----

  lemma {:induction false} TwicePositions(s: seq<Config>, c: Config) returns (i: nat, j: nat)
    requires multiset(s)[c] >= 2
    ensures i < j < |s| && s[i] == c && s[j] == c
  {
    var front := s[..|s| - 1];
    assert s == front + [s[|s| - 1]];
    if s[|s| - 1] == c {
      assert c in multiset(front);
      i :| 0 <= i < |front| && front[i] == c;
      j := |s| - 1;
    } else {
      i, j := TwicePositions(front, c);
    }
  }

  lemma {:induction false} PositionsTwice(s: seq<Config>, i: nat, j: nat)
    requires i < j < |s| && s[i] == s[j]
    ensures multiset(s)[s[i]] >= 2
  {
    var a, b := s[..j], s[j..];
    assert s == a + b;
    assert a[i] in multiset(a) && b[0] in multiset(b);
  }

  lemma {:induction false} AcceptableReordered(configs: seq<Config>, others: seq<Config>, parse: Parser)
    requires multiset(configs) == multiset(others) && Acceptable(configs, parse)
    ensures Acceptable(others, parse)
  {
    forall i | 0 <= i < |others|
      ensures others[i] in configs
    {
      assert others[i] in multiset(others);
    }
    forall i, j | 0 <= i < j < |others|
      ensures !Conflict(others[i], others[j])
    {
      if others[i] == others[j] {
        PositionsTwice(others, i, j);
        var k, m := TwicePositions(configs, others[i]);
      } else {
        assert others[i] in configs && others[j] in configs;
      }
    }
  }

  /** Acceptance does not depend on the order of the list. */
  lemma {:induction false} OrderDoesNotMatter(configs: seq<Config>, others: seq<Config>, parse: Parser)
    requires multiset(configs) == multiset(others)
    ensures Acceptable(configs, parse) <==> Acceptable(others, parse)
  {
    if Acceptable(configs, parse) {
      AcceptableReordered(configs, others, parse);
    }
    if Acceptable(others, parse) {
      AcceptableReordered(others, configs, parse);
    }
  }

  // ----- From a configuration to a router's settings -----

  function FirstSixteen(addresses: seq<string>): seq<string> {
    if |addresses| <= MAX_IP_COUNT then addresses else addresses[..MAX_IP_COUNT]
  }

  function OnlyV4(addresses: seq<string>, parse: Parser): (r: seq<Ipv4Net>) {
    if addresses == [] then []
    else
      var rest := OnlyV4(addresses[..|addresses| - 1], parse);
      var net := parse(addresses[|addresses| - 1]);
      if net.NetV4? then rest + [net.v4] else rest
  }

  function OnlyV6(addresses: seq<string>, parse: Parser): (r: seq<Ipv6Net>) {
    if addresses == [] then []
    else
      var rest := OnlyV6(addresses[..|addresses| - 1], parse);
      var net := parse(addresses[|addresses| - 1]);
      if net.NetV6? then rest + [net.v6] else rest
  }

  function SettingsOf(c: Config, parse: Parser): Settings {
    var used := FirstSixteen(c.ipAddresses);
    Settings(c.name, c.vrid, c.version, OnlyV4(used, parse), OnlyV6(used, parse),
             c.priority, c.advertInterval, c.preempt)
  }

  /** nets are what the texts at the positions give, in order, and no other text gives IPv4. */
  ghost predicate PicksV4(texts: seq<string>, parse: Parser, positions: seq<nat>, nets: seq<Ipv4Net>) {
    && |positions| == |nets|
    && (forall k :: 0 <= k < |nets| ==> positions[k] < |texts| && parse(texts[positions[k]]) == NetV4(nets[k]))
    && (forall j, k :: 0 <= j < k < |nets| ==> positions[j] < positions[k])
    && (forall i :: 0 <= i < |texts| && parse(texts[i]).NetV4? ==> i in positions)
  }

  ghost predicate PicksV6(texts: seq<string>, parse: Parser, positions: seq<nat>, nets: seq<Ipv6Net>) {
    && |positions| == |nets|
    && (forall k :: 0 <= k < |nets| ==> positions[k] < |texts| && parse(texts[positions[k]]) == NetV6(nets[k]))
    && (forall j, k :: 0 <= j < k < |nets| ==> positions[j] < positions[k])
    && (forall i :: 0 <= i < |texts| && parse(texts[i]).NetV6? ==> i in positions)
  }

  lemma {:induction false} OnlyV4Picks(texts: seq<string>, parse: Parser) returns (positions: seq<nat>)
    ensures PicksV4(texts, parse, positions, OnlyV4(texts, parse))
  {
    if texts == [] {
      positions := [];
    } else {
      var last := |texts| - 1;
      positions := OnlyV4Picks(texts[..last], parse);
      if parse(texts[last]).NetV4? {
        positions := positions + [last];
      }
      forall i | 0 <= i < |texts| && parse(texts[i]).NetV4?
        ensures i in positions
      {
        assert i < last ==> texts[..last][i] == texts[i];
      }
    }
  }

  lemma {:induction false} OnlyV6Picks(texts: seq<string>, parse: Parser) returns (positions: seq<nat>)
    ensures PicksV6(texts, parse, positions, OnlyV6(texts, parse))
  {
    if texts == [] {
      positions := [];
    } else {
      var last := |texts| - 1;
      positions := OnlyV6Picks(texts[..last], parse);
      if parse(texts[last]).NetV6? {
        positions := positions + [last];
      }
      forall i | 0 <= i < |texts| && parse(texts[i]).NetV6?
        ensures i in positions
      {
        assert i < last ==> texts[..last][i] == texts[i];
      }
    }
  }

  /** The scalar settings are the configured ones. */
  predicate KeepsSettings(c: Config, s: Settings) {
    && s.name == c.name && s.vrid == c.vrid && s.version == c.version
    && s.priority == c.priority && s.advertInterval == c.advertInterval && s.preempt == c.preempt
  }

  /** Exactly the addresses among the first 16 texts, family by family, in their order. */
  ghost predicate KeepsAddresses(c: Config, parse: Parser, s: Settings) {
    var texts := if |c.ipAddresses| <= 16 then c.ipAddresses else c.ipAddresses[..16];
    && (exists positions :: PicksV4(texts, parse, positions, s.ipv4))
    && (exists positions :: PicksV6(texts, parse, positions, s.ipv6))
    && (forall n :: n in s.ipv4 <==> exists a :: a in texts && parse(a) == NetV4(n))
    && (forall n :: n in s.ipv6 <==> exists a :: a in texts && parse(a) == NetV6(n))
  }

  lemma {:induction false} SettingsAreConfigured(c: Config, parse: Parser)
    ensures KeepsSettings(c, SettingsOf(c, parse)) && KeepsAddresses(c, parse, SettingsOf(c, parse))
  {
    var texts := FirstSixteen(c.ipAddresses);
    var p4 := OnlyV4Picks(texts, parse);
    var p6 := OnlyV6Picks(texts, parse);
    ListsPartition(texts, parse);
  }

  method ConfigToVr(c: Config, parse: Parser) returns (s: Settings)
    ensures s == SettingsOf(c, parse)
    ensures s.name == c.name && s.vrid == c.vrid && s.version == c.version
    ensures s.priority == c.priority && s.advertInterval == c.advertInterval && s.preempt == c.preempt
    ensures KeepsAddresses(c, parse, s)
  {
    var addresses := if |c.ipAddresses| <= MAX_IP_COUNT then c.ipAddresses else c.ipAddresses[0..MAX_IP_COUNT];
    var ipv4: seq<Ipv4Net>, ipv6: seq<Ipv6Net> := [], [];
    var i := 0;
    while i < |addresses|
      invariant 0 <= i <= |addresses|
      invariant ipv4 == OnlyV4(addresses[..i], parse) && ipv6 == OnlyV6(addresses[..i], parse)
    {
      var upTo := addresses[..i + 1];
      assert upTo[..i] == addresses[..i] && upTo[i] == addresses[i];
      match parse(addresses[i]) {
        case NetV4(net) => ipv4 := ipv4 + [net];
        case NetV6(net) => ipv6 := ipv6 + [net];
        case Unparsable =>
      }
      i := i + 1;
    }
    assert addresses[..i] == addresses;
    s := Settings(c.name, c.vrid, c.version, ipv4, ipv6, c.priority, c.advertInterval, c.preempt);
    SettingsAreConfigured(c, parse);
  }

  /** Every address lands in the list of its family, and none elsewhere. */
  lemma {:induction false} ListsPartition(addresses: seq<string>, parse: Parser)
    ensures |OnlyV4(addresses, parse)| + |OnlyV6(addresses, parse)| <= |addresses|
    ensures (forall a :: a in addresses ==> !parse(a).Unparsable?)
        ==> |OnlyV4(addresses, parse)| + |OnlyV6(addresses, parse)| == |addresses|
    ensures forall n :: n in OnlyV4(addresses, parse) <==> exists a :: a in addresses && parse(a) == NetV4(n)
    ensures forall n :: n in OnlyV6(addresses, parse) <==> exists a :: a in addresses && parse(a) == NetV6(n)
  {
    if addresses == [] {
    } else {
      var front, last := addresses[..|addresses| - 1], addresses[|addresses| - 1];
      assert addresses == front + [last];
      ListsPartition(front, parse);
      assert forall a :: a in addresses <==> a in front || a == last;
    }
  }

  /** An accepted configuration gives at most 16 addresses, loses none of the first 16, and a
      v2 instance has none of IPv6. */
  lemma {:induction false} AcceptedSettings(configs: seq<Config>, i: nat, parse: Parser)
    requires i < |configs| && Acceptable(configs, parse)
    ensures var s := SettingsOf(configs[i], parse);
            && |s.ipv4| + |s.ipv6| == |FirstSixteen(configs[i].ipAddresses)| <= MAX_IP_COUNT
            && (s.version.V2? ==> s.ipv6 == [])
  {
    var c := configs[i];
    var used := FirstSixteen(c.ipAddresses);
    assert IntervalFits(c) && AddressesFit(c, parse);
    assert forall a :: a in used ==> a in c.ipAddresses;
    ListsPartition(used, parse);
    var six := OnlyV6(used, parse);
    assert six == [] || six[0] in six;
  }

  /** End to end: the advertisement of any router of an accepted configuration, encoded, sent
      and decoded, reaches the state machine of a peer with the same VRID, interval and
      address list, whatever the priorities, with the sender's priority. */
  lemma {:induction false} AcceptedConfigsInteroperate(
    configs: seq<Config>, i: nat, peer: Config, parse: Parser, r: Router, s: Router)
    requires i < |configs| && Acceptable(configs, parse)
    requires s.cfg == SettingsOf(configs[i], parse) && r.cfg == SettingsOf(peer, parse)
    requires peer.vrid == configs[i].vrid && peer.advertInterval == configs[i].advertInterval
    requires peer.ipAddresses == configs[i].ipAddresses
    requires !IsLocal(r, IpV4(s.primaryV4))
    requires SendsV6(s) ==> !IsLocal(r, IpV6(s.primaryV6.value)) && r.cfg.version.V3?
    ensures Accepted(r, AdvertV4(s)).Some?
    ensures Accepted(r, AdvertV4(s)).value.priority == s.cfg.priority
    ensures SendsV6(s) ==> Accepted(r, AdvertV6(s)).Some? && Accepted(r, AdvertV6(s)).value.priority == s.cfg.priority
  {
    assert IntervalFits(configs[i]);
    AcceptedSettings(configs, i, parse);
    SelfCompatible(r, s);
    if SendsV6(s) {
      SelfCompatibleV6(r, s);
    }
  }

  /** The same configured addresses, VRID and interval, the latter one that validation lets
      through, and no interface of r with the source of s. */
  predicate OnOneLink(c: Config, d: Config, parse: Parser, r: Router, s: Router) {
    && IntervalFits(d) && c.vrid == d.vrid && c.advertInterval == d.advertInterval
    && c.ipAddresses == d.ipAddresses
    && r.cfg == SettingsOf(c, parse) && s.cfg == SettingsOf(d, parse)
    && !IsLocal(r, IpV4(s.primaryV4))
  }

  /** From configurations to mastership: a started Backup of configuration c that hears an
      advertisement of configuration d becomes Master exactly when c preempts and d has a lower,
      non-zero priority; a Master of c gives way exactly to a non-zero priority of at least its own. */
  lemma {:induction false} ConfiguredPriorityDecides(
    c: Config, d: Config, parse: Parser, r: Router, s: Router, now: Instant)
    requires OnOneLink(c, d, parse, r, s) && r.fsm.state != Init
    ensures Step(r, Packet(AdvertV4(s), now)).fsm.state
         == if r.fsm.state == Backup then if c.preempt && 0 < d.priority < c.priority then Master else Backup
            else if d.priority != 0 && d.priority >= c.priority then Backup
            else Master
  {
    ListsPartition(FirstSixteen(c.ipAddresses), parse);
    SelfCompatible(r, s);
  }

  /** In particular from the start: the configured preempt mode decides. */
  lemma {:induction false} ConfiguredPreemption(
    c: Config, d: Config, parse: Parser, r: Router, s: Router, start: Instant, now: Instant)
    requires Fresh(r) && c.priority != 255 && 0 < d.priority < c.priority
    requires OnOneLink(c, d, parse, Step(r, StartupAt(start)), s)
    ensures Exec(r, [StartupAt(start), Packet(AdvertV4(s), now)]).fsm.state == Master <==> c.preempt
  {
    var started := Step(r, StartupAt(start));
    var heard := Packet(AdvertV4(s), now);
    StartsAsMasterExactly(r, start);
    ConfiguredPriorityDecides(c, d, parse, started, s, now);
    assert [StartupAt(start), heard] == [StartupAt(start)] + [heard];
    ExecCons(r, StartupAt(start), [heard]);
    ExecOne(started, heard);
  }
}
