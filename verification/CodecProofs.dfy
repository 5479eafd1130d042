/** What the wire format guarantees: decoding undoes encoding, corruption is caught, and
    accepted bytes are reproduced. */
module CodecProofs {
  import opened Wire
  import opened InternetChecksum
  import opened Packet

  /** The interval a receiver reads back: whole seconds modulo 256 in v2, 12 bits otherwise. */
  function WireInterval(version: VrrpVersion, cs: u16): u16 {
    match version
    case V2 => (cs / 100) % 256 * 100
    case V3 => cs % 4096
  }

  function AsReceived(p: VrrpPacket): VrrpPacket {
    p.(adverIntCs := WireInterval(p.version, p.adverIntCs))
  }

  lemma {:induction false} AddressesRoundTrip(addrs: seq<nat>, w: nat, tail: seq<byte>)
    requires forall i :: 0 <= i < |addrs| ==> addrs[i] < Pow256(w)
    ensures ReadAddresses(AddressBytes(addrs, w) + tail, w, |addrs|) == addrs
  {
    if addrs == [] {
    } else {
      var s := AddressBytes(addrs, w) + tail;
      var first, rest := BigEndian(addrs[0], w), AddressBytes(addrs[1..], w) + tail;
      BigEndianRoundTrip(addrs[0], w);
      assert s == first + rest;
      assert s[..w] == first && s[w..] == rest;
      AddressesRoundTrip(addrs[1..], w, tail);
    }
  }

  lemma {:induction false} ReadAddressesRoundTrip(s: seq<byte>, w: nat, count: nat)
    requires w * count <= |s|
    ensures AddressBytes(ReadAddresses(s, w, count), w) == s[..w * count]
  {
    if count == 0 {
    } else {
      var k := w * (count - 1);
      assert w * count == w + k;
      FromBigEndianRoundTrip(s[..w]);
      ReadAddressesRoundTrip(s[w..], w, count - 1);
      var addrs := ReadAddresses(s, w, count);
      assert addrs[1..] == ReadAddresses(s[w..], w, count - 1);
      assert s[..w + k] == s[..w] + s[w..][..k];
    }
  }

  /** What the encoder emits always passes the receiver's checksum. */
  lemma {:induction false} EncodedV4Verifies(p: VrrpPacket)
    requires p.addresses.V4Addresses?
    ensures Verifies(EncodeV4(p))
  {
    PatchVerifies(UnsummedV4(p), 6);
  }

  lemma {:induction false} PatchedV6Verifies(s: seq<byte>, src: Ipv6Addr, dst: Ipv6Addr)
    requires |s| >= FIXED_HEADER_LEN && s[6] == 0 && s[7] == 0
    ensures var ph := PseudoHeader(src, dst, |s|);
            Verifies(ph + Patch(s, ChecksumOf(ph + s)))
  {
    var ph := PseudoHeader(src, dst, |s|);
    PatchVerifies(ph + s, 46);
    assert ph + Patch(s, ChecksumOf(ph + s)) == SetWord(ph + s, 46, ChecksumOf(ph + s));
  }

  lemma {:induction false} EncodedV6Verifies(p: VrrpPacket, src: Ipv6Addr)
    requires p.addresses.V6Addresses?
    ensures var data := EncodeV6(p, src);
            Verifies(PseudoHeader(src, VRRP_V6_MCAST_ADDR, |data|) + data)
  {
    PatchedV6Verifies(UnsummedV6(p), src, VRRP_V6_MCAST_ADDR);
  }

  lemma {:induction false} IntervalRoundTrip(version: VrrpVersion, cs: u16)
    ensures var f := IntervalField(version, cs);
            ReadInterval(version, f[0], f[1]) == WireInterval(version, cs)
  {
  }

  /** Patching the checksum leaves the rest of the header and the body alone. */
  lemma {:induction false} HeaderSurvives(p: VrrpPacket, f: seq<byte>, body: seq<byte>, c: u16)
    requires |f| == 2
    ensures var d := Patch(Header(p, f) + body, c);
            && |d| == 8 + |body| && d[0] == 16 * p.version.AsU8() + 1 && d[0] / 16 == p.version.AsU8()
            && d[1] == p.vrid && d[2] == p.priority && d[3] == p.addresses.Len() % 256
            && d[4] == f[0] && d[5] == f[1] && d[8..] == body
  {
  }

  lemma {:induction false} DecodesV4(data: seq<byte>, p: VrrpPacket)
    requires |data| >= FIXED_HEADER_LEN && p.addresses.V4Addresses? && Verifies(data)
    requires data[0] / 16 == p.version.AsU8() && data[1] == p.vrid && data[2] == p.priority
    requires data[3] == |p.addresses.v4| % 256
    requires |data| == FIXED_HEADER_LEN + TrailerLen(p.version) + 4 * |p.addresses.v4|
    requires ReadInterval(p.version, data[4], data[5]) == p.adverIntCs
    requires ReadAddresses(data[8..], 4, |p.addresses.v4|) == p.addresses.v4
    ensures DecodeV4(data) == if |p.addresses.v4| <= MAX_IP_COUNT then Ok(p) else Err(Malformed)
  {
    assert WellSized(data, 4, TrailerLen(p.version)) <==> |p.addresses.v4| <= MAX_IP_COUNT;
  }

  /** Decoding undoes encoding exactly up to 16 addresses; every longer list is refused. */
  lemma {:induction false} V4RoundTrip(p: VrrpPacket)
    requires p.addresses.V4Addresses?
    ensures DecodeV4(EncodeV4(p))
         == if |p.addresses.v4| <= MAX_IP_COUNT then Ok(AsReceived(p)) else Err(Malformed)
  {
    var addrs, f := p.addresses.v4, IntervalField(p.version, p.adverIntCs);
    HeaderSurvives(p, f, AddressBytes(addrs, 4) + Trailer(p.version), ChecksumOf(UnsummedV4(p)));
    EncodedV4Verifies(p);
    IntervalRoundTrip(p.version, p.adverIntCs);
    AddressesRoundTrip(addrs, 4, Trailer(p.version));
    DecodesV4(EncodeV4(p), AsReceived(p));
  }

  lemma {:induction false} DecodesV6(data: seq<byte>, src: Ipv6Addr, dst: Ipv6Addr, p: VrrpPacket)
    requires |data| >= FIXED_HEADER_LEN && p.addresses.V6Addresses?
    requires Verifies(PseudoHeader(src, dst, |data|) + data)
    requires data[0] / 16 == p.version.AsU8() && data[1] == p.vrid && data[2] == p.priority
    requires data[3] == |p.addresses.v6| % 256 && |data| == FIXED_HEADER_LEN + 16 * |p.addresses.v6|
    requires p.version.V3? ==> ReadInterval(V3, data[4], data[5]) == p.adverIntCs
    requires ReadAddresses(data[8..], 16, |p.addresses.v6|) == p.addresses.v6
    ensures DecodeV6(data, src, dst)
         == if p.version.V2? then Err(UnsupportedVersion(2))
            else if |p.addresses.v6| <= MAX_IP_COUNT then Ok(p)
            else Err(Malformed)
  {
    assert WellSized(data, 16, 0) <==> |p.addresses.v6| <= MAX_IP_COUNT;
  }

  lemma {:induction false} PatchedV6Decodes(p: VrrpPacket, src: Ipv6Addr, dst: Ipv6Addr, c: u16)
    requires p.addresses.V6Addresses?
    requires Verifies(PseudoHeader(src, dst, |UnsummedV6(p)|) + Patch(UnsummedV6(p), c))
    ensures DecodeV6(Patch(UnsummedV6(p), c), src, dst)
         == if p.version.V2? then Err(UnsupportedVersion(2))
            else if |p.addresses.v6| <= MAX_IP_COUNT then Ok(AsReceived(p))
            else Err(Malformed)
  {
    var addrs := p.addresses.v6;
    var body := AddressBytes(addrs, 16);
    HeaderSurvives(p, IntervalField(V3, p.adverIntCs), body, c);
    IntervalRoundTrip(V3, p.adverIntCs);
    AddressesRoundTrip(addrs, 16, []);
    assert body + [] == body;
    DecodesV6(Patch(UnsummedV6(p), c), src, dst, AsReceived(p));
  }

  lemma {:induction false} V6RoundTrip(p: VrrpPacket, src: Ipv6Addr)
    requires p.addresses.V6Addresses?
    ensures DecodeV6(EncodeV6(p, src), src, VRRP_V6_MCAST_ADDR)
         == if p.version.V2? then Err(UnsupportedVersion(2))
            else if |p.addresses.v6| <= MAX_IP_COUNT then Ok(AsReceived(p))
            else Err(Malformed)
  {
    var u := UnsummedV6(p);
    EncodedV6Verifies(p, src);
    PatchedV6Decodes(p, src, VRRP_V6_MCAST_ADDR,
                     ChecksumOf(PseudoHeader(src, VRRP_V6_MCAST_ADDR, |u|) + u));
  }

  /** No message with a good checksum, hence none that decodes and none the encoder wrote,
      decodes after one octet of it was changed. */
  lemma {:induction false} CorruptionCaughtV4(data: seq<byte>, i: nat, b: byte)
    requires Verifies(data) && i < |data| && b != data[i]
    ensures DecodeV4(data[i := b]).Err?
  {
    ByteChangeCaught(data, i, b);
  }

  lemma {:induction false} CorruptionCaughtV6(data: seq<byte>, src: Ipv6Addr, dst: Ipv6Addr, i: nat, b: byte)
    requires Verifies(PseudoHeader(src, dst, |data|) + data) && i < |data| && b != data[i]
    ensures DecodeV6(data[i := b], src, dst).Err?
  {
    var ph := PseudoHeader(src, dst, |data|);
    ByteChangeCaught(ph + data, 40 + i, b);
    assert ph + data[i := b] == (ph + data)[40 + i := b];
  }

  lemma {:induction false} PseudoHeaderSource(
    src: Ipv6Addr, other: Ipv6Addr, dst: Ipv6Addr, length: nat, data: seq<byte>, i: nat, b: byte)
    requires i < 16 && BigEndian(other, 16) == BigEndian(src, 16)[i := b]
    ensures PseudoHeader(src, dst, length)[i] == BigEndian(src, 16)[i]
    ensures PseudoHeader(other, dst, length) + data
         == (PseudoHeader(src, dst, length) + data)[i := b]
  {
  }

  /** The v6 checksum covers the source: one changed octet of it gives exactly BadChecksum. */
  lemma {:induction false} SourceCorruptionCaught(
    data: seq<byte>, src: Ipv6Addr, dst: Ipv6Addr, other: Ipv6Addr, i: nat, b: byte)
    requires DecodeV6(data, src, dst).Ok?
    requires i < 16 && b != BigEndian(src, 16)[i] && BigEndian(other, 16) == BigEndian(src, 16)[i := b]
    ensures DecodeV6(data, other, dst) == Err(BadChecksum)
  {
    var all := PseudoHeader(src, dst, |data|) + data;
    PseudoHeaderSource(src, other, dst, |data|, data, i, b);
    ByteChangeCaught(all, i, b);
  }

  /** Type nibble 1, auth or reserved bits zero, and a zero trailer: what the encoder writes. */
  predicate CanonicalV4(data: seq<byte>)
    requires |data| >= FIXED_HEADER_LEN
  {
    && data[0] % 16 == HDWR_TYPE
    && (data[0] / 16 == 2 ==>
          && data[4] == 0
          && forall i :: 8 + 4 * data[3] <= i < |data| ==> data[i] == 0)
    && (data[0] / 16 == 3 ==> data[4] < 16)
  }

  /** The checksum field of a verifying message is determined, but for the two zeros. */
  lemma {:induction false} FieldDetermined(s: seq<byte>, i: nat)
    requires i % 2 == 0 && i + 1 < |s| && Verifies(s)
    requires WordSum(s) > Word(s[i], s[i + 1])
    ensures var c := ChecksumOf(SetWord(s, i, 0));
            Word(s[i], s[i + 1]) == c || (Word(s[i], s[i + 1]) == 65535 && c == 0)
  {
    var z := SetWord(s, i, 0);
    WordSumSetWord(s, i, 0);
    PatchVerifies(z, i);
    assert SetWord(z, i, ChecksumOf(z)) == SetWord(s, i, ChecksumOf(z));
    WordChangeEscapesExactly(s, i, ChecksumOf(z));
  }

  lemma {:induction false} HeadWordPositive(s: seq<byte>, i: nat, k: nat)
    requires k % 2 == 0 && k + 1 < |s| && i < |s| && i != k && i != k + 1 && s[i] > 0
    ensures WordSum(s) > Word(s[k], s[k + 1])
  {
    WordSumSetWord(s, k, 0);
    WordSumUpdate(SetWord(s, k, 0), i, 0);
  }

  lemma {:induction false} FieldReproduces(b4: byte, b5: byte)
    ensures IntervalField(V3, ReadInterval(V3, b4, b5)) == [b4 % 16, b5]
  {
    var n: nat := 256 * b4 + b5;
    assert n % 4096 == 256 * (b4 % 16) + b5;
  }

  /** The header written back is the header read but for the checksum, exactly when its
      type nibble and reserved bits are what the encoder writes. */
  lemma {:induction false} HeaderReproduces(data: seq<byte>, p: VrrpPacket, form: VrrpVersion)
    requires |data| >= FIXED_HEADER_LEN
    requires p.version.AsU8() == data[0] / 16 && p.vrid == data[1] && p.priority == data[2]
    requires p.addresses.Len() == data[3] && p.adverIntCs == ReadInterval(form, data[4], data[5])
    ensures Header(p, IntervalField(form, p.adverIntCs)) == Patch(data, 0)[..8]
       <==> && data[0] % 16 == HDWR_TYPE
            && (form.V2? ==> data[4] == 0)
            && (form.V3? ==> data[4] < 16)
  {
    var f := IntervalField(form, p.adverIntCs);
    var h, z := Header(p, f), Patch(data, 0)[..8];
    if form.V3? {
      FieldReproduces(data[4], data[5]);
    }
    assert h[0] == 16 * (data[0] / 16) + 1 && z[0] == data[0];
    assert h[4] == f[0] && z[4] == data[4];
    assert h[5] == z[5];
    if h[0] == z[0] && h[4] == z[4] {
      assert forall k :: 0 <= k < 8 ==> h[k] == z[k];
    }
  }

  lemma {:induction false} SamePieces(a: seq<byte>, b: seq<byte>, c: seq<byte>, d: seq<byte>)
    requires |a| == |c|
    ensures a + b == c + d <==> a == c && b == d
  {
    if a + b == c + d {
      assert a == (a + b)[..|a|] && c == (c + d)[..|a|];
      assert b == (a + b)[|a|..] && d == (c + d)[|a|..];
    }
  }

  lemma {:induction false} BodyReproduces(data: seq<byte>, p: VrrpPacket)
    requires DecodeV4(data) == Ok(p)
    ensures AddressBytes(p.addresses.v4, 4) + Trailer(p.version) == data[8..]
       <==> (p.version.V2? ==> forall i :: 8 + 4 * data[3] <= i < |data| ==> data[i] == 0)
  {
    var count: nat := data[3];
    ReadAddressesRoundTrip(data[8..], 4, count);
    var head, tail := data[8..][..4 * count], data[8..][4 * count..];
    assert data[8..] == head + tail;
    assert |tail| == |Trailer(p.version)|;
    assert forall k :: 0 <= k < |tail| ==> tail[k] == data[8 + 4 * count + k];
    if p.version.V2? && head + Trailer(p.version) == data[8..] {
      assert (head + Trailer(p.version))[4 * count..] == Trailer(p.version);
      forall i | 8 + 4 * count <= i < |data|
        ensures data[i] == 0
      {
        assert tail[i - 8 - 4 * count] == data[i];
      }
    }
  }

  lemma {:induction false} UnsummedReproduces(data: seq<byte>, p: VrrpPacket)
    requires DecodeV4(data) == Ok(p)
    ensures CanonicalV4(data) <==> UnsummedV4(p) == Patch(data, 0)
  {
    HeaderReproduces(data, p, p.version);
    BodyReproduces(data, p);
    var z := Patch(data, 0);
    assert z == z[..8] + data[8..];
    SamePieces(Header(p, IntervalField(p.version, p.adverIntCs)),
               AddressBytes(p.addresses.v4, 4) + Trailer(p.version), z[..8], data[8..]);
  }

  lemma {:induction false} PatchTwice(s: seq<byte>, c: u16, d: u16)
    requires |s| >= FIXED_HEADER_LEN
    ensures Patch(Patch(s, c), d) == Patch(s, d)
    ensures Patch(s, Word(s[6], s[7])) == s
  {
  }

  /** Re-encoding an accepted message reproduces it exactly when it is canonical and its
      checksum is not the all-ones form of zero, which comes back as 0x0000. */
  lemma {:induction false} ReencodeV4Exactly(data: seq<byte>)
    requires DecodeV4(data).Ok?
    ensures EncodeV4(DecodeV4(data).value) == data
       <==> CanonicalV4(data) && !(data[6] == 255 && data[7] == 255)
    ensures CanonicalV4(data) && data[6] == 255 && data[7] == 255
        ==> EncodeV4(DecodeV4(data).value) == Patch(data, 0)
  {
    var p := DecodeV4(data).value;
    var u, z := UnsummedV4(p), Patch(data, 0);
    UnsummedReproduces(data, p);
    PatchTwice(u, ChecksumOf(u), 0);
    PatchTwice(data, 0, Word(data[6], data[7]));
    assert Patch(u, 0) == u;
    if u == z {
      HeadWordPositive(data, 0, 6);
      FieldDetermined(data, 6);
      ChecksumNotAllOnes(u, 0);
    }
  }

  lemma {:induction false} ChecksumNotAllOnes(s: seq<byte>, i: nat)
    requires i < |s| && s[i] > 0
    ensures ChecksumOf(s) < 65535
  {
    WordSumUpdate(s, i, 0);
  }

  predicate CanonicalV6(data: seq<byte>)
    requires |data| >= FIXED_HEADER_LEN
  {
    data[0] % 16 == HDWR_TYPE && data[4] < 16
  }

  lemma {:induction false} BodyReproducesV6(data: seq<byte>, src: Ipv6Addr, dst: Ipv6Addr, p: VrrpPacket)
    requires DecodeV6(data, src, dst) == Ok(p)
    ensures AddressBytes(p.addresses.v6, 16) == data[8..]
  {
    ReadAddressesRoundTrip(data[8..], 16, data[3]);
    assert data[8..][..16 * data[3] as nat] == data[8..];
  }

  lemma {:induction false} UnsummedV6Reproduces(
    data: seq<byte>, src: Ipv6Addr, dst: Ipv6Addr, p: VrrpPacket)
    requires DecodeV6(data, src, dst) == Ok(p)
    ensures CanonicalV6(data) <==> UnsummedV6(p) == Patch(data, 0)
  {
    HeaderReproduces(data, p, V3);
    BodyReproducesV6(data, src, dst, p);
    var z := Patch(data, 0);
    assert z == z[..8] + data[8..];
    SamePieces(Header(p, IntervalField(V3, p.adverIntCs)), AddressBytes(p.addresses.v6, 16),
               z[..8], data[8..]);
  }

  lemma {:induction false} PseudoHeaderPatch(ph: seq<byte>, s: seq<byte>, c: u16)
    requires |ph| == 40 && |s| >= FIXED_HEADER_LEN
    ensures ph + Patch(s, c) == SetWord(ph + s, 46, c)
  {
  }

  lemma {:induction false} ReencodeV6Exactly(data: seq<byte>, src: Ipv6Addr)
    requires DecodeV6(data, src, VRRP_V6_MCAST_ADDR).Ok?
    ensures EncodeV6(DecodeV6(data, src, VRRP_V6_MCAST_ADDR).value, src) == data
       <==> CanonicalV6(data) && !(data[6] == 255 && data[7] == 255)
    ensures CanonicalV6(data) && data[6] == 255 && data[7] == 255
        ==> EncodeV6(DecodeV6(data, src, VRRP_V6_MCAST_ADDR).value, src) == Patch(data, 0)
  {
    var p := DecodeV6(data, src, VRRP_V6_MCAST_ADDR).value;
    var u, z := UnsummedV6(p), Patch(data, 0);
    var ph := PseudoHeader(src, VRRP_V6_MCAST_ADDR, |u|);
    UnsummedV6Reproduces(data, src, VRRP_V6_MCAST_ADDR, p);
    PatchTwice(u, ChecksumOf(ph + u), 0);
    PatchTwice(data, 0, Word(data[6], data[7]));
    assert Patch(u, 0) == u;
    if u == z {
      PseudoHeaderPatch(ph, data, 0);
      HeadWordPositive(ph + data, 40, 46);
      FieldDetermined(ph + data, 46);
      ChecksumNotAllOnes(ph + u, 40);
    }
  }
}
