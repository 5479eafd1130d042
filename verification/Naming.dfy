/** Names of the mac-vlan interfaces: family, VRID and a hash of the parent's name. */
module Naming {
  import opened Wire
  import opened Machine
  import opened Config

  const FNV_OFFSET_BASIS: bv32 := 0x811c_9dc5
  const FNV_PRIME: bv32 := 0x0100_0193

  /** One step of the 32-bit hash: exclusive or with the octet, then a wrapping product. */
  function HashByte(hash: bv32, b: bv8): bv32 {
    (hash ^ b as bv32) * FNV_PRIME
  }

  function HashFrom(hash: bv32, s: seq<bv8>): bv32
    decreases |s|
  {
    if s == [] then hash else HashFrom(HashByte(hash, s[0]), s[1..])
  }

  method Fnv1aHash(input: seq<bv8>) returns (hash: bv32)
    ensures hash == HashFrom(FNV_OFFSET_BASIS, input)
  {
    hash := FNV_OFFSET_BASIS;
    var i := 0;
    while i < |input|
      invariant 0 <= i <= |input|
      invariant HashFrom(hash, input[i..]) == HashFrom(FNV_OFFSET_BASIS, input)
    {
      assert input[i..][1..] == input[i + 1..];
      hash := HashByte(hash, input[i]);
      i := i + 1;
    }
  }

  function Digit(d: nat): char
    requires d < 16
  {
    "0123456789abcdef"[d]
  }

  function Decimal(n: nat): (s: string)
    ensures s != []
  {
    if n < 10 then [Digit(n)] else Decimal(n / 10) + [Digit(n % 10)]
  }

  function Nibble(n: bv32, shift: bv5): char {
    Digit(((n >> shift) & 0xF) as bv4 as nat)
  }

  /** Four hexadecimal digits of the low half of a hash. */
  function Hex4(n: bv32): (s: string)
    ensures |s| == 4
  {
    [Nibble(n, 12), Nibble(n, 8), Nibble(n, 4), Nibble(n, 0)]
  }

  function Prefix(family: Family): (s: string)
    ensures |s| == 6
  {
    match family
    case FamilyV4 => "fover4"
    case FamilyV6 => "fover6"
  }

  function MacVlanName(parent: seq<bv8>, vrid: byte, family: Family): string {
    Prefix(family) + "-" + Decimal(vrid) + "-" + Hex4(HashFrom(FNV_OFFSET_BASIS, parent) & 0xFFFF)
  }

  lemma {:induction false} DigitsDiffer(a: nat, b: nat)
    requires a < 16 && b < 16 && Digit(a) == Digit(b)
    ensures a == b
  {
  }

  lemma {:induction false} DecimalInjective(a: nat, b: nat)
    requires Decimal(a) == Decimal(b)
    ensures a == b
  {
    var s, t := Decimal(a), Decimal(b);
    assert s[|s| - 1] == Digit(a % 10) && t[|t| - 1] == Digit(b % 10);
    DigitsDiffer(a % 10, b % 10);
    assert |s| == 1 <==> a < 10;
    assert |t| == 1 <==> b < 10;
    if a >= 10 {
      assert Decimal(a / 10) == s[..|s| - 1] && Decimal(b / 10) == t[..|t| - 1];
      DecimalInjective(a / 10, b / 10);
    }
  }

  /** The name determines family and VRID, whatever the parents and however their hashes
      collide. */
  lemma {:induction false} NameDetermines(
    p: seq<bv8>, q: seq<bv8>, v: byte, w: byte, f: Family, g: Family)
    requires MacVlanName(p, v, f) == MacVlanName(q, w, g)
    ensures f == g && v == w
  {
    var x, y := Decimal(v), Decimal(w);
    var h, k := Hex4(HashFrom(FNV_OFFSET_BASIS, p) & 0xFFFF), Hex4(HashFrom(FNV_OFFSET_BASIS, q) & 0xFFFF);
    NamePieces(Prefix(f), x, h);
    NamePieces(Prefix(g), y, k);
    assert x == y;
    DecimalInjective(v, w);
    assert Prefix(f)[5] == Prefix(g)[5];
  }

  lemma {:induction false} NamePieces(prefix: string, middle: string, hash: string)
    requires |prefix| == 6 && |hash| == 4
    ensures var name := prefix + "-" + middle + "-" + hash;
            name[..6] == prefix && |name| == |middle| + 12 && name[7..|name| - 5] == middle
  {
  }

  /** Linux allows 15 characters. */
  lemma {:induction false} NameFits(parent: seq<bv8>, vrid: byte, family: Family)
    ensures |MacVlanName(parent, vrid, family)| <= 15
  {
    assert vrid >= 10 ==> Decimal(vrid) == Decimal(vrid / 10) + [Digit(vrid % 10)];
    assert vrid >= 100 ==> Decimal(vrid / 10) == Decimal(vrid / 10 / 10) + [Digit(vrid / 10 % 10)];
  }

  /** In an accepted list two instances of one version never get one interface name, so an
      interface is shared by at most one v2 and one v3 instance. */
  lemma {:induction false} InterfacesNotShared(
    configs: seq<Config>, parse: Parser, i: nat, j: nat, p: seq<bv8>, q: seq<bv8>, f: Family, g: Family)
    requires Acceptable(configs, parse) && i < |configs| && j < |configs| && i != j
    requires MacVlanName(p, configs[i].vrid, f) == MacVlanName(q, configs[j].vrid, g)
    ensures configs[i].version != configs[j].version && f == g
  {
    NameDetermines(p, q, configs[i].vrid, configs[j].vrid, f, g);
    assert Conflict(configs[i], configs[j]) <==> Conflict(configs[j], configs[i]);
  }

  /** Three instances cannot all share one interface name. */
  lemma {:induction false} AtMostTwoShare(
    configs: seq<Config>, parse: Parser, i: nat, j: nat, k: nat, p: seq<bv8>, q: seq<bv8>, t: seq<bv8>,
    f: Family, g: Family, h: Family)
    requires Acceptable(configs, parse) && i < |configs| && j < |configs| && k < |configs|
    requires i != j && j != k && i != k
    ensures !(MacVlanName(p, configs[i].vrid, f) == MacVlanName(q, configs[j].vrid, g)
              == MacVlanName(t, configs[k].vrid, h))
  {
    if MacVlanName(p, configs[i].vrid, f) == MacVlanName(q, configs[j].vrid, g)
       == MacVlanName(t, configs[k].vrid, h) {
      InterfacesNotShared(configs, parse, i, j, p, q, f, g);
      InterfacesNotShared(configs, parse, j, k, q, t, g, h);
      InterfacesNotShared(configs, parse, i, k, p, t, f, h);
    }
  }

  // ----- The hash and the name as others read them -----

  /** The hash takes one octet after the other, from the first to the last. */
  lemma {:induction false} HashOfOneMore(hash: bv32, s: seq<bv8>, b: bv8)
    ensures HashFrom(hash, s + [b]) == HashByte(HashFrom(hash, s), b)
  {
    HashConcat(hash, s, [b]);
    var h := HashFrom(hash, s);
    assert [b][1..] == [] && [b][0] == b;
    assert HashFrom(h, [b]) == HashFrom(HashByte(h, b), []);
  }

  lemma {:induction false} HashConcat(hash: bv32, s: seq<bv8>, t: seq<bv8>)
    ensures HashFrom(hash, s + t) == HashFrom(HashFrom(hash, s), t)
    decreases |s|
  {
    if s == [] {
      assert s + t == t;
    } else {
      assert (s + t)[0] == s[0] && (s + t)[1..] == s[1..] + t;
      HashConcat(HashByte(hash, s[0]), s[1..], t);
    }
  }

  predicate IsDecimalDigit(c: char) {
    '0' <= c <= '9'
  }

  function ReadDecimal(s: string): int {
    if s == [] then 0 else 10 * ReadDecimal(s[..|s| - 1]) + (s[|s| - 1] as int - '0' as int)
  }

  /** Decimal digits that read back as the number, without leading zeros. */
  lemma {:induction false} DecimalReads(n: nat)
    ensures ReadDecimal(Decimal(n)) == n && (n > 0 ==> Decimal(n)[0] != '0')
    ensures forall k :: 0 <= k < |Decimal(n)| ==> IsDecimalDigit(Decimal(n)[k])
  {
    DigitIsDecimal(n % 10);
    if n < 10 {
      assert Decimal(n)[..0] == [];
    } else {
      DecimalReads(n / 10);
      assert Decimal(n)[..|Decimal(n)| - 1] == Decimal(n / 10);
    }
  }

  lemma {:induction false} DigitIsDecimal(d: nat)
    requires d < 10
    ensures Digit(d) as int == '0' as int + d
  {
  }

  /** What a lower-case hexadecimal digit stands for. */
  function HexValue(c: char): int {
    if '0' <= c <= '9' then c as int - '0' as int
    else if 'a' <= c <= 'f' then 10 + (c as int - 'a' as int)
    else -1
  }

  lemma {:induction false} DigitReads(d: nat)
    requires d < 16
    ensures HexValue(Digit(d)) == d
  {
  }

  /** The name in full: the family's prefix, the VRID in decimal, and the hash's low 16 bits
      as four lower-case hexadecimal digits, most significant first. */
  lemma {:induction false} NameReads(parent: seq<bv8>, vrid: byte, family: Family)
    returns (decimal: string, hex: string)
    ensures MacVlanName(parent, vrid, family)
         == (if family.FamilyV4? then "fover4-" else "fover6-") + decimal + "-" + hex
    ensures ReadDecimal(decimal) == vrid && decimal != [] && (vrid > 0 ==> decimal[0] != '0')
    ensures forall k :: 0 <= k < |decimal| ==> IsDecimalDigit(decimal[k])
    ensures ReadsAsHex(hex, HashFrom(FNV_OFFSET_BASIS, parent))
  {
    var hash := HashFrom(FNV_OFFSET_BASIS, parent);
    decimal, hex := Decimal(vrid), Hex4(hash & 0xFFFF);
    DecimalReads(vrid);
    HexReads(hash);
    var prefix := if family.FamilyV4? then "fover4-" else "fover6-";
    assert Prefix(family) + "-" == prefix;
    assert MacVlanName(parent, vrid, family) == prefix + decimal + "-" + hex;
  }

  /** Four lower-case hexadecimal digits of the low 16 bits, most significant first. */
  predicate ReadsAsHex(hex: string, hash: bv32) {
    && |hex| == 4
    && HexValue(hex[0]) == ((hash >> 12) & 0xF) as bv4 as nat
    && HexValue(hex[1]) == ((hash >> 8) & 0xF) as bv4 as nat
    && HexValue(hex[2]) == ((hash >> 4) & 0xF) as bv4 as nat
    && HexValue(hex[3]) == (hash & 0xF) as bv4 as nat
  }

  lemma {:induction false} HexReads(hash: bv32)
    ensures ReadsAsHex(Hex4(hash & 0xFFFF), hash)
  {
    LowBits(hash);
    NibbleReads(hash & 0xFFFF, 12);
    NibbleReads(hash & 0xFFFF, 8);
    NibbleReads(hash & 0xFFFF, 4);
    NibbleReads(hash & 0xFFFF, 0);
  }

  lemma {:induction false} NibbleReads(n: bv32, shift: bv5)
    ensures HexValue(Nibble(n, shift)) == ((n >> shift) & 0xF) as bv4 as nat
  {
    DigitReads(((n >> shift) & 0xF) as bv4 as nat);
  }

  lemma {:induction false} LowBits(n: bv32)
    ensures ((n & 0xFFFF) >> 12) & 0xF == (n >> 12) & 0xF
    ensures ((n & 0xFFFF) >> 8) & 0xF == (n >> 8) & 0xF
    ensures ((n & 0xFFFF) >> 4) & 0xF == (n >> 4) & 0xF
    ensures ((n & 0xFFFF) >> 0) & 0xF == n & 0xF
  {
  }

  /** The recorded values of the hash and of a name, which interfaces of earlier runs bear. */
  lemma {:induction false} GoldenValues()
    ensures HashFrom(FNV_OFFSET_BASIS, []) == 0x811c_9dc5
    ensures HashFrom(FNV_OFFSET_BASIS, [0x65, 0x74, 0x68, 0x30]) == 0x67b1_9724
    ensures MacVlanName([0x65, 0x74, 0x68, 0x30], 51, FamilyV4) == "fover4-51-9724"
  {
  }
}
