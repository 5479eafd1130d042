/** The wire format octet by octet, and the checksum's total in numbers: what any other
    implementation of the protocol has to agree with. */
module WireFormat {
  import opened Wire
  import opened InternetChecksum
  import opened Packet
  import opened CodecProofs

  // ----- Big-endian octets -----

  lemma {:induction false} DivideTwice(v: nat, p: nat)
    requires p > 0
    ensures v / 256 / p == v / (256 * p)
  {
    var q, r := v / 256, v % 256;
    var a, b := q / p, q % p;
    assert q == p * a + b;
    assert v == 256 * (p * a + b) + r;
    assert v == (256 * p) * a + (256 * b + r);
    assert 256 * b + r < 256 * p;
    Quotient(v, 256 * p, a, 256 * b + r);
  }

  lemma {:induction false} Quotient(v: nat, d: nat, q: nat, r: nat)
    requires v == d * q + r && r < d
    ensures v / d == q
  {
    var x := v / d;
    assert d * x <= v < d * x + d;
    ProductsOrdered(d, x, q);
    ProductsOrdered(d, q, x);
  }

  lemma {:induction false} ProductsOrdered(d: nat, a: nat, b: nat)
    ensures a < b ==> d * a + d <= d * b
  {
    if a < b {
      assert d * (a + 1) <= d * b;
    }
  }

  /** Octet k of n counts 256 to the power n - 1 - k. */
  lemma {:induction false} BigEndianOctet(v: nat, n: nat, k: nat)
    requires k < n
    ensures BigEndian(v, n)[k] == v / Pow256(n - 1 - k) % 256
  {
    if k == n - 1 {
      assert Pow256(0) == 1;
    } else {
      BigEndianOctet(v / 256, n - 1, k);
      DivideTwice(v, Pow256(n - 2 - k));
    }
  }

  lemma {:induction false} FourOctets(v: nat)
    requires v < 0x1_0000_0000
    ensures BigEndian(v, 4) == [v / 0x100_0000, v / 0x1_0000 % 256, v / 0x100 % 256, v % 256]
  {
    assert BigEndian(v, 4) == BigEndian(v / 256, 3) + [v % 256];
    assert BigEndian(v / 256, 3) == BigEndian(v / 256 / 256, 2) + [v / 256 % 256];
    assert BigEndian(v / 256 / 256, 2) == [v / 256 / 256 / 256 % 256, v / 256 / 256 % 256];
  }

  /** The sixteen octets of an IPv6 address, most significant first. */
  predicate AreOctetsOf(s: seq<byte>, a: nat) {
    |s| == 16 && forall k :: 0 <= k < 16 ==> s[k] == a / Pow256(15 - k) % 256
  }

  lemma {:induction false} SixteenOctets(a: nat)
    ensures AreOctetsOf(BigEndian(a, 16), a)
  {
    forall k | 0 <= k < 16
      ensures BigEndian(a, 16)[k] == a / Pow256(15 - k) % 256
    {
      BigEndianOctet(a, 16, k);
    }
  }

  /** The w octets of address i start at offset w * i. */
  lemma {:induction false} AddressAt(addrs: seq<nat>, w: nat, i: nat)
    requires i < |addrs|
    ensures w * i + w <= w * |addrs|
    ensures AddressBytes(addrs, w)[w * i..w * i + w] == BigEndian(addrs[i], w)
  {
    assert w * |addrs| == w + w * (|addrs| - 1);
    if i == 0 {
    } else {
      var rest := AddressBytes(addrs[1..], w);
      AddressAt(addrs[1..], w, i - 1);
      assert w * i == w + w * (i - 1);
      SliceAfter(BigEndian(addrs[0], w), rest, w * (i - 1), w);
    }
  }

  lemma {:induction false} SliceAfter(head: seq<byte>, tail: seq<byte>, i: nat, w: nat)
    requires i + w <= |tail|
    ensures (head + tail)[|head| + i..|head| + i + w] == tail[i..i + w]
  {
  }

  lemma {:induction false} SliceWithin(s: seq<byte>, head: nat, i: nat, w: nat)
    requires head + i + w <= |s|
    ensures s[head..][i..i + w] == s[head + i..head + i + w]
  {
  }

  // ----- What the encoder writes -----

  predicate IsIpv4At(data: seq<byte>, i: nat, a: nat) {
    i + 4 <= |data| && data[i..i + 4] == [a / 0x100_0000, a / 0x1_0000 % 256, a / 0x100 % 256, a % 256]
  }

  predicate IsIpv6At(data: seq<byte>, i: nat, a: nat) {
    i + 16 <= |data| && AreOctetsOf(data[i..i + 16], a)
  }

  /** Version and type, VRID, priority and count, then the interval as the version has it:
      whole seconds after an empty authentication type, or 12 bits of centiseconds. */
  predicate IsHeader(data: seq<byte>, p: VrrpPacket, centiseconds: bool) {
    && |data| >= 8
    && data[0] == (if p.version.V2? then 0x21 else 0x31)
    && data[1] == p.vrid && data[2] == p.priority && data[3] == p.addresses.Len() % 256
    && (if centiseconds then 256 * data[4] as nat + data[5] as nat == p.adverIntCs % 4096
        else data[4] == 0 && data[5] == p.adverIntCs / 100 % 256)
  }

  /** An IPv4 message, octet by octet. The checksum is the one that makes the words of the
      whole message sum to all ones; of its two forms of zero it is 0x0000. */
  lemma {:induction false} EncodedV4Octets(p: VrrpPacket)
    requires p.addresses.V4Addresses?
    ensures var data, n := EncodeV4(p), |p.addresses.v4|;
            && |data| == 8 + 4 * n + (if p.version.V2? then 8 else 0)
            && IsHeader(data, p, p.version.V3?)
            && (forall i :: 0 <= i < n ==> IsIpv4At(data, 8 + 4 * i, p.addresses.v4[i]))
            && (forall k :: 8 + 4 * n <= k < |data| ==> data[k] == 0)
            && Fold(WordSum(data)) == 65535 && !(data[6] == 255 && data[7] == 255)
  {
    var addrs, f := p.addresses.v4, IntervalField(p.version, p.adverIntCs);
    var data, u := EncodeV4(p), UnsummedV4(p);
    var body := AddressBytes(addrs, 4) + Trailer(p.version);
    HeaderSurvives(p, f, body, ChecksumOf(u));
    EncodedV4Verifies(p);
    IntervalOctets(p.adverIntCs);
    ChecksumNotAllOnes(u, 0);
    forall i | 0 <= i < |addrs|
      ensures IsIpv4At(data, 8 + 4 * i, addrs[i])
    {
      Ipv4InBody(data, addrs, Trailer(p.version), i);
    }
    TrailerIsZero(data, addrs, p.version);
  }

  lemma {:induction false} TrailerIsZero(data: seq<byte>, addrs: seq<Ipv4Addr>, version: VrrpVersion)
    requires |data| >= 8 && data[8..] == AddressBytes(addrs, 4) + Trailer(version)
    ensures forall k :: 8 + 4 * |addrs| <= k < |data| ==> data[k] == 0
  {
    forall k | 8 + 4 * |addrs| <= k < |data|
      ensures data[k] == 0
    {
      assert data[k] == data[8..][k - 8] == Trailer(version)[k - 8 - 4 * |addrs|];
    }
  }

  lemma {:induction false} Ipv4InBody(data: seq<byte>, addrs: seq<Ipv4Addr>, tail: seq<byte>, i: nat)
    requires |data| >= 8 && data[8..] == AddressBytes(addrs, 4) + tail && i < |addrs|
    ensures IsIpv4At(data, 8 + 4 * i, addrs[i])
  {
    AddressAt(addrs, 4, i);
    FourOctets(addrs[i]);
    SliceWithin(data, 8, 4 * i, 4);
    assert (AddressBytes(addrs, 4) + tail)[4 * i..4 * i + 4] == AddressBytes(addrs, 4)[4 * i..4 * i + 4];
  }

  lemma {:induction false} Ipv6InBody(data: seq<byte>, addrs: seq<Ipv6Addr>, i: nat)
    requires |data| >= 8 && data[8..] == AddressBytes(addrs, 16) && i < |addrs|
    ensures IsIpv6At(data, 8 + 16 * i, addrs[i])
  {
    AddressAt(addrs, 16, i);
    SixteenOctets(addrs[i]);
    SliceWithin(data, 8, 16 * i, 16);
  }

  lemma {:induction false} IntervalOctets(cs: u16)
    ensures 256 * (cs % 4096 / 256) + cs % 256 == cs % 4096
  {
  }

  lemma {:induction false} ZeroWords(n: nat)
    ensures WordSum(seq(n, _ => 0)) == 0
  {
    if n == 0 {
    } else {
      assert seq(n, _ => 0)[..n - 1] == seq(n - 1, _ => 0);
      ZeroWords(n - 1);
    }
  }

  /** ff02::12 adds the words 0xFF02 and 0x0012. */
  lemma {:induction false} GroupWords()
    ensures WordSum(BigEndian(VRRP_V6_MCAST_ADDR, 16)) == 0xFF02 + 0x0012
  {
    var s := VRRP_V6_MCAST_OCTETS;
    FromBigEndianRoundTrip(s);
    var zeros: seq<byte> := seq(12, _ => 0);
    assert s == [0xff, 0x02] + (zeros + [0, 0x12]);
    WordSumConcat([0xff, 0x02], zeros + [0, 0x12]);
    WordSumConcat(zeros, [0, 0x12]);
    ZeroWords(12);
    assert WordSum([0xff, 0x02]) == 0xFF02 && WordSum([0, 0x12]) == 0x12 by {
      TwoOctetSum(0xff, 0x02);
      TwoOctetSum(0, 0x12);
    }
  }

  lemma {:induction false} TwoOctetSum(hi: byte, lo: byte)
    ensures WordSum([hi, lo]) == 256 * hi + lo
  {
    WordSumPair([], hi, lo);
    assert [] + [hi] + [lo] == [hi, lo];
  }

  lemma {:induction false} FoldSameRemainder(rest: nat, a: nat, b: nat)
    requires rest > 0 && a % 65535 == b % 65535
    ensures Fold(rest + a) == Fold(rest + b)
  {
    var r := a % 65535;
    assert rest + a - 1 == 65535 * (a / 65535) + (rest + r - 1);
    assert rest + b - 1 == 65535 * (b / 65535) + (rest + r - 1);
  }

  lemma {:induction false} HalvesOfOctets(n: nat)
    ensures 256 * (n / 0x100_0000) + n / 0x1_0000 % 256 == n / 0x1_0000
    ensures 256 * (n / 0x100 % 256) + n % 256 == n % 0x1_0000
  {
  }

  lemma {:induction false} TwoWords(a: byte, b: byte, c: byte, d: byte)
    ensures WordSum([a, b, c, d]) == (256 * a as nat + b as nat) + (256 * c as nat + d as nat)
  {
    assert [a, b, c, d] == [a, b] + [c, d];
    WordSumConcat([a, b], [c, d]);
    TwoOctetSum(a, b);
    TwoOctetSum(c, d);
  }

  /** The four octets of a number add up to it, but for multiples of 65535. */
  lemma {:induction false} LengthWords(n: nat)
    requires n < 0x1_0000_0000
    ensures WordSum(BigEndian(n, 4)) % 65535 == n % 65535
  {
    FourOctets(n);
    TwoWords(n / 0x100_0000, n / 0x1_0000 % 256, n / 0x100 % 256, n % 256);
    HalvesOfOctets(n);
    HalvesSum(n);
  }

  lemma {:induction false} HalvesSum(n: nat)
    ensures (n / 0x1_0000 + n % 0x1_0000) % 65535 == n % 65535
  {
    assert n == 65535 * (n / 0x1_0000) + (n / 0x1_0000 + n % 0x1_0000);
  }

  lemma {:induction false} PseudoHeaderWords(src: Ipv6Addr, dst: Ipv6Addr, length: nat, data: seq<byte>)
    ensures WordSum(PseudoHeader(src, dst, length) + data)
         == WordSum(BigEndian(src, 16)) + WordSum(BigEndian(dst, 16))
          + WordSum(BigEndian(length % 0x1_0000_0000, 4)) + 112 + WordSum(data)
  {
    var a, b, c := BigEndian(src, 16), BigEndian(dst, 16), BigEndian(length % 0x1_0000_0000, 4);
    var d: seq<byte> := [0, 0, 0, 112];
    assert PseudoHeader(src, dst, length) == a + b + c + d;
    WordSumConcat(a + b + c + d, data);
    WordSumConcat(a + b + c, d);
    WordSumConcat(a + b, c);
    WordSumConcat(a, b);
    assert d == [0, 0] + [0, 112];
    WordSumConcat([0, 0], [0, 112]);
    TwoOctetSum(0, 0);
    TwoOctetSum(0, 112);
  }

  /** What section 5.2.8 of RFC 5798 has the IPv6 checksum cover: both addresses, the length,
      the protocol number 112 and the message. */
  function Ipv6Total(src: Ipv6Addr, dst: Ipv6Addr, data: seq<byte>): nat {
    WordSum(BigEndian(src, 16)) + WordSum(BigEndian(dst, 16)) + |data| + 112 + WordSum(data)
  }

  lemma {:induction false} Ipv6ChecksumCovers(src: Ipv6Addr, dst: Ipv6Addr, data: seq<byte>)
    requires |data| < 0x1_0000_0000
    ensures Verifies(PseudoHeader(src, dst, |data|) + data) <==> Fold(Ipv6Total(src, dst, data)) == 65535
  {
    var length := WordSum(BigEndian(|data|, 4));
    var rest := WordSum(BigEndian(src, 16)) + WordSum(BigEndian(dst, 16)) + 112 + WordSum(data);
    assert WordSum(PseudoHeader(src, dst, |data|) + data) == rest + length by {
      PseudoHeaderWords(src, dst, |data|, data);
    }
    assert Fold(rest + length) == Fold(rest + |data|) by {
      LengthWords(|data|);
      FoldSameRemainder(rest, length, |data|);
    }
  }

  /** An IPv6 message, octet by octet, with the total of its checksum in numbers. */
  lemma {:induction false} EncodedV6Octets(p: VrrpPacket, src: Ipv6Addr)
    requires p.addresses.V6Addresses? && 8 + 16 * |p.addresses.v6| < 0x1_0000_0000
    ensures var data, n := EncodeV6(p, src), |p.addresses.v6|;
            && |data| == 8 + 16 * n
            && IsHeader(data, p, true)
            && (forall i :: 0 <= i < n ==> IsIpv6At(data, 8 + 16 * i, p.addresses.v6[i]))
            && Fold(WordSum(BigEndian(src, 16)) + 0xFF02 + 0x0012 + |data| + 112 + WordSum(data)) == 65535
            && !(data[6] == 255 && data[7] == 255)
  {
    var addrs := p.addresses.v6;
    var data, u := EncodeV6(p, src), UnsummedV6(p);
    var ph := PseudoHeader(src, VRRP_V6_MCAST_ADDR, |u|);
    var body := AddressBytes(addrs, 16);
    HeaderSurvives(p, IntervalField(V3, p.adverIntCs), body, ChecksumOf(ph + u));
    EncodedV6Verifies(p, src);
    Ipv6ChecksumCovers(src, VRRP_V6_MCAST_ADDR, data);
    GroupWords();
    IntervalOctets(p.adverIntCs);
    ChecksumNotAllOnes(ph + u, 40);
    forall i | 0 <= i < |addrs|
      ensures IsIpv6At(data, 8 + 16 * i, addrs[i])
    {
      Ipv6InBody(data, addrs, i);
    }
  }

  // ----- What the decoder accepts -----

  /** The header, the addresses and the trailer, and nothing more. */
  predicate IsSized(data: seq<byte>, addressLen: nat, trailer: nat) {
    |data| >= 8 && data[3] <= 16 && |data| == 8 + addressLen * data[3] + trailer
  }

  predicate SizedV4(data: seq<byte>) {
    data != [] && (data[0] / 16 == 2 || data[0] / 16 == 3) && IsSized(data, 4, if data[0] / 16 == 2 then 8 else 0)
  }

  /** Every verdict of the IPv4 decoder. Nothing is asked of the type nibble, the authentication
      type, the reserved bits or the authentication data. */
  lemma {:induction false} DecodedV4Octets(data: seq<byte>)
    ensures DecodeV4(data).Ok? <==> SizedV4(data) && Fold(WordSum(data)) == 65535
    ensures DecodeV4(data) == Err(BadChecksum) <==> SizedV4(data) && Fold(WordSum(data)) != 65535
    ensures forall v: byte :: DecodeV4(data) == Err(UnsupportedVersion(v))
                       <==> data != [] && v == data[0] / 16 && v != 2 && v != 3
    ensures DecodeV4(data).Ok? ==>
              var p := DecodeV4(data).value;
              && (p.version.V2? <==> data[0] / 16 == 2) && p.vrid == data[1] && p.priority == data[2]
              && p.adverIntCs == (if data[0] / 16 == 2 then 100 * data[5]
                                  else (256 * data[4] as nat + data[5] as nat) % 4096)
              && p.addresses.V4Addresses? && |p.addresses.v4| == data[3]
              && forall i :: 0 <= i < data[3] ==> IsIpv4At(data, 8 + 4 * i, p.addresses.v4[i])
    ensures DecodeV4(data).Err? ==> DecodeV4(data).error in {Malformed, BadChecksum}
                                    || DecodeV4(data).error.UnsupportedVersion?
  {
    if DecodeV4(data).Ok? {
      var n: nat := data[3];
      var addrs := DecodeV4(data).value.addresses.v4;
      ReadAddressesRoundTrip(data[8..], 4, n);
      forall i | 0 <= i < n
        ensures IsIpv4At(data, 8 + 4 * i, addrs[i])
      {
        Ipv4InBody(data, addrs, data[8..][4 * n..], i);
      }
    }
  }

  predicate SizedV6(data: seq<byte>) {
    data != [] && data[0] / 16 == 3 && IsSized(data, 16, 0)
  }

  lemma {:induction false} DecodedV6Octets(data: seq<byte>, src: Ipv6Addr, dst: Ipv6Addr)
    ensures DecodeV6(data, src, dst).Ok? <==> SizedV6(data) && Fold(Ipv6Total(src, dst, data)) == 65535
    ensures DecodeV6(data, src, dst) == Err(BadChecksum)
       <==> SizedV6(data) && Fold(Ipv6Total(src, dst, data)) != 65535
    ensures forall v: byte :: DecodeV6(data, src, dst) == Err(UnsupportedVersion(v))
                       <==> data != [] && v == data[0] / 16 && v != 3
    ensures DecodeV6(data, src, dst).Ok? ==>
              var p := DecodeV6(data, src, dst).value;
              && p.version.V3? && p.vrid == data[1] && p.priority == data[2]
              && p.adverIntCs == (256 * data[4] as nat + data[5] as nat) % 4096
              && p.addresses.V6Addresses? && |p.addresses.v6| == data[3]
              && forall i :: 0 <= i < data[3] ==> IsIpv6At(data, 8 + 16 * i, p.addresses.v6[i])
    ensures DecodeV6(data, src, dst).Err? ==> DecodeV6(data, src, dst).error in {Malformed, BadChecksum}
                                              || DecodeV6(data, src, dst).error.UnsupportedVersion?
  {
    if SizedV6(data) {
      Ipv6ChecksumCovers(src, dst, data);
    }
    if DecodeV6(data, src, dst).Ok? {
      var addrs := DecodeV6(data, src, dst).value.addresses.v6;
      BodyReproducesV6(data, src, dst, DecodeV6(data, src, dst).value);
      forall i | 0 <= i < |addrs|
        ensures IsIpv6At(data, 8 + 16 * i, addrs[i])
      {
        Ipv6InBody(data, addrs, i);
      }
    }
  }

  /** A source of one family never meets a destination of the other, and the sender's family
      chooses the form. */
  lemma {:induction false} FamiliesDoNotMix(p: VrrpPacket, data: seq<byte>, v4: Ipv4Addr, v6: Ipv6Addr)
    ensures Decode(data, IpV6(v6), IpV4(v4)) == Err(Malformed)
    ensures Decode(data, IpV4(v4), IpV6(v6)) == DecodeV4(data)
    ensures p.addresses.V6Addresses? ==> Encode(p, IpV4(v4)) == EncodeV6(p, 0)
    ensures p.addresses.V4Addresses? ==> Encode(p, IpV6(v6)) == Encode(p, IpV4(v4))
  {
  }

  /** The IPv6 checksum covers the destination: one changed octet of it gives exactly BadChecksum. */
  lemma {:induction false} DestinationCorruptionCaught(
    data: seq<byte>, src: Ipv6Addr, dst: Ipv6Addr, other: Ipv6Addr, i: nat, b: byte)
    requires DecodeV6(data, src, dst).Ok?
    requires i < 16 && b != BigEndian(dst, 16)[i] && BigEndian(other, 16) == BigEndian(dst, 16)[i := b]
    ensures DecodeV6(data, src, other) == Err(BadChecksum)
  {
    DecodedV6Octets(data, src, dst);
    DecodedV6Octets(data, src, other);
    WordSumUpdate(BigEndian(dst, 16), i, b);
    OctetChangeShows(Ipv6Total(src, dst, data), Ipv6Total(src, other, data),
                     Weighted(i, b) - Weighted(i, BigEndian(dst, 16)[i]));
  }

  lemma {:induction false} OctetChangeShows(n: nat, m: nat, change: int)
    requires m == n + change && change != 0 && -65535 < change < 65535 && Fold(n) == 65535
    ensures Fold(m) != 65535
  {
  }
}
