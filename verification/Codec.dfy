/** The encoder and decoder as they run: a growing buffer patched at the end, and a cursor
    that must never read past the end of the message. */
module Codec {
  import opened Wire
  import opened InternetChecksum
  import opened Packet

  /** A read cursor. Reading more than remains would panic, hence the preconditions. */
  class Bytes {
    const data: seq<byte>
    var pos: nat

    ghost predicate Valid()
      reads this
    {
      pos <= |data|
    }

    constructor (data: seq<byte>)
      ensures Valid() && this.data == data && pos == 0
    {
      this.data := data;
      pos := 0;
    }

    method GetU8() returns (b: byte)
      requires Valid() && pos + 1 <= |data|
      modifies this
      ensures Valid() && b == data[old(pos)] && pos == old(pos) + 1
    {
      b := data[pos];
      pos := pos + 1;
    }

    /** Reads an n-octet big-endian integer: get_u16, get_u32 and get_u128. */
    method GetUint(n: nat) returns (v: nat)
      requires Valid() && pos + n <= |data|
      modifies this
      ensures Valid() && v == FromBigEndian(data[old(pos)..old(pos) + n]) && pos == old(pos) + n
    {
      v := FromBigEndian(data[pos..pos + n]);
      pos := pos + n;
    }
  }

  method PutAddresses(buf: seq<byte>, addrs: seq<nat>, w: nat) returns (r: seq<byte>)
    ensures r == buf + AddressBytes(addrs, w)
  {
    r := buf;
    var i := 0;
    while i < |addrs|
      invariant 0 <= i <= |addrs|
      invariant r + AddressBytes(addrs[i..], w) == buf + AddressBytes(addrs, w)
    {
      ghost var tail := AddressBytes(addrs[i + 1..], w);
      assert addrs[i..][1..] == addrs[i + 1..];
      assert (r + BigEndian(addrs[i], w)) + tail == r + (BigEndian(addrs[i], w) + tail);
      r := r + BigEndian(addrs[i], w);
      i := i + 1;
    }
  }

  method PutHeader(p: VrrpPacket, field: seq<byte>) returns (buf: seq<byte>)
    requires |field| == 2
    ensures buf == Header(p, field)
  {
    buf := [];
    buf := buf + [p.version.AsU8() * 16 + HDWR_TYPE];
    buf := buf + [p.vrid];
    buf := buf + [p.priority];
    buf := buf + [p.addresses.Len() % 256];
    assert buf == Header(p, field)[..4];
    buf := buf + field;
    buf := buf + [0, 0];
  }

  /** Overwrites the checksum placeholder in place. */
  method PutChecksum(buf: seq<byte>, sum: seq<byte>, ghost checksum: u16) returns (r: seq<byte>)
    requires |buf| >= FIXED_HEADER_LEN && sum == [checksum / 256, checksum % 256]
    ensures r == Patch(buf, checksum)
  {
    r := buf[..6] + sum + buf[8..];
  }

  method EncodeV4(p: VrrpPacket) returns (buf: seq<byte>)
    requires p.addresses.V4Addresses?
    ensures buf == Packet.EncodeV4(p)
  {
    var field: seq<byte>;
    match p.version {
      case V2 =>
        field := [0, p.adverIntCs / 100 % 256];
      case V3 =>
        field := BigEndian(p.adverIntCs % 4096, 2);
        TwoOctets(p.adverIntCs % 4096);
    }
    buf := PutHeader(p, field);
    buf := PutAddresses(buf, p.addresses.v4, 4);
    if p.version == V2 {
      buf := buf + (BigEndian(0, 4) + BigEndian(0, 4));
      ZeroOctets(4);
    }
    assert buf == UnsummedV4(p);
    var check := new Checksum();
    check.AddBytes(buf);
    assert check.added == buf;
    var sum := check.Value();
    buf := PutChecksum(buf, sum, ChecksumOf(buf));
  }

  method EncodeV6(p: VrrpPacket, src: Ipv6Addr) returns (buf: seq<byte>)
    requires p.addresses.V6Addresses?
    ensures buf == Packet.EncodeV6(p, src)
  {
    TwoOctets(p.adverIntCs % 4096);
    buf := PutHeader(p, BigEndian(p.adverIntCs % 4096, 2));
    buf := PutAddresses(buf, p.addresses.v6, 16);
    assert buf == UnsummedV6(p);
    var sum := ChecksumV6(buf, src, VRRP_V6_MCAST_ADDR);
    buf := PutChecksum(buf, sum, ChecksumOf(PseudoHeader(src, VRRP_V6_MCAST_ADDR, |buf|) + buf));
  }

  /** The five-chunk checksum over pseudo-header and message equals the checksum of their
      concatenation. */
  method ChecksumV6(data: seq<byte>, src: Ipv6Addr, dst: Ipv6Addr) returns (sum: seq<byte>)
    ensures var all := PseudoHeader(src, dst, |data|) + data;
            sum == [ChecksumOf(all) / 256, ChecksumOf(all) % 256]
  {
    var check := new Checksum();
    check.AddBytes(BigEndian(src, 16));
    check.AddBytes(BigEndian(dst, 16));
    check.AddBytes(BigEndian(|data| % 0x1_0000_0000, 4));
    check.AddBytes([0, 0, 0, VRRP_PROTO_NUM]);
    check.AddBytes(data);
    assert check.added == PseudoHeader(src, dst, |data|) + data by {
      assert check.added[..40] == PseudoHeader(src, dst, |data|);
    }
    sum := check.Value();
  }

  method EncodePacket(p: VrrpPacket, src: IpAddr) returns (buf: seq<byte>)
    ensures buf == Encode(p, src)
  {
    match p.addresses {
      case V4Addresses(_) =>
        buf := EncodeV4(p);
      case V6Addresses(_) =>
        buf := EncodeV6(p, if src.IpV6? then src.v6 else 0);
    }
  }

  method TryVersion(raw: byte) returns (r: Result<VrrpVersion, PacketError>)
    ensures r == match raw case 2 => Ok(V2) case 3 => Ok(V3) case _ => Err(UnsupportedVersion(raw))
  {
    match raw {
      case 2 => r := Ok(V2);
      case 3 => r := Ok(V3);
      case _ => r := Err(UnsupportedVersion(raw));
    }
  }

  method VerifyChecksumV4(data: seq<byte>) returns (ok: bool)
    requires |data| % 2 == 0
    ensures ok == Verifies(data)
  {
    var check := new Checksum();
    check.AddBytes(data);
    var sum := check.Value();
    assert check.added == data;
    ok := sum == [0, 0];
  }

  method VerifyChecksumV6(data: seq<byte>, src: Ipv6Addr, dst: Ipv6Addr) returns (ok: bool)
    requires |data| % 2 == 0
    ensures ok == Verifies(PseudoHeader(src, dst, |data|) + data)
  {
    var sum := ChecksumV6(data, src, dst);
    ok := sum == [0, 0];
  }

  lemma {:induction false} ReadAddressesStep(data: seq<byte>, pos: nat, w: nat, count: nat)
    requires count > 0 && pos + w * count <= |data|
    ensures w * count == w + w * (count - 1)
    ensures ReadAddresses(data[pos..], w, count)
         == [FromBigEndian(data[pos..pos + w])] + ReadAddresses(data[pos + w..], w, count - 1)
  {
    assert w * count == w + w * (count - 1);
    assert data[pos..][..w] == data[pos..pos + w];
    assert data[pos..][w..] == data[pos + w..];
  }

  /** Reads one of the addresses that are left. */
  method GetAddress(buf: Bytes, w: nat, ghost left: nat) returns (a: nat)
    requires buf.Valid() && left > 0 && buf.pos + w * left <= |buf.data|
    modifies buf
    ensures buf.Valid() && buf.pos + w * (left - 1) == old(buf.pos) + w * left
    ensures ReadAddresses(buf.data[old(buf.pos)..], w, left)
         == [a] + ReadAddresses(buf.data[buf.pos..], w, left - 1)
  {
    ReadAddressesStep(buf.data, buf.pos, w, left);
    a := buf.GetUint(w);
  }

  method GetAddresses(buf: Bytes, count: nat, w: nat) returns (addrs: seq<nat>)
    requires buf.Valid() && buf.pos + w * count <= |buf.data|
    modifies buf
    ensures buf.Valid() && buf.pos == old(buf.pos) + w * count
    ensures addrs == ReadAddresses(buf.data[old(buf.pos)..], w, count)
  {
    addrs := [];
    var i := 0;
    ghost var all := ReadAddresses(buf.data[buf.pos..], w, count);
    ghost var left := count;
    while i < count
      invariant 0 <= i <= count && buf.Valid() && left == count - i
      invariant buf.pos + w * left == old(buf.pos) + w * count
      invariant addrs + ReadAddresses(buf.data[buf.pos..], w, left) == all
    {
      var a := GetAddress(buf, w, left);
      left := left - 1;
      addrs := addrs + [a];
      i := i + 1;
    }
  }

  method GetInterval(buf: Bytes, version: VrrpVersion) returns (adverIntCs: u16)
    requires buf.Valid() && buf.pos + 2 <= |buf.data|
    modifies buf
    ensures buf.Valid() && buf.pos == old(buf.pos) + 2
    ensures adverIntCs == ReadInterval(version, buf.data[old(buf.pos)], buf.data[old(buf.pos) + 1])
  {
    match version {
      case V2 =>
        var authType := buf.GetU8();
        var seconds: nat := buf.GetU8();
        adverIntCs := seconds * 100;
      case V3 =>
        ReadTwoOctets(buf.data, buf.pos);
        var field := buf.GetUint(2);
        adverIntCs := field % 4096;
    }
  }

  /** Decoding never reads past the end, and an accepted message is consumed to its end. */
  method DecodeV4(data: seq<byte>) returns (r: Result<VrrpPacket, PacketError>, ghost consumed: nat)
    ensures r == Packet.DecodeV4(data)
    ensures r.Ok? ==> consumed == |data|
  {
    consumed := 0;
    if data == [] {
      return Err(Malformed), 0;
    }
    var buf := new Bytes(data);
    var verType := buf.GetU8();
    var v := TryVersion(verType / 16);
    if v.Err? {
      return Err(v.error), 1;
    }
    var version := v.value;
    if |data| < FIXED_HEADER_LEN {
      return Err(Malformed), 1;
    }
    var vrid := buf.GetU8();
    var priority := buf.GetU8();
    var countIp := buf.GetU8();
    var adverIntCs := GetInterval(buf, version);
    var trailing := if version == V2 then V2_AUTH_TRAILER_LEN else 0;
    var expectedLen := FIXED_HEADER_LEN + trailing + countIp * 4;
    if countIp > MAX_IP_COUNT || expectedLen != |data| {
      return Err(Malformed), buf.pos;
    }
    assert |data| % 2 == 0;
    var ok := VerifyChecksumV4(data);
    if !ok {
      return Err(BadChecksum), buf.pos;
    }
    var checksum := buf.GetUint(2);
    var addrs := GetAddresses(buf, countIp, 4);
    if version == V2 {
      var authData1 := buf.GetUint(4);
      var authData2 := buf.GetUint(4);
    }
    r, consumed := Ok(VrrpPacket(version, vrid, priority, adverIntCs, V4Addresses(addrs))), buf.pos;
  }

  method DecodeV6(data: seq<byte>, src: Ipv6Addr, dst: Ipv6Addr)
    returns (r: Result<VrrpPacket, PacketError>, ghost consumed: nat)
    ensures r == Packet.DecodeV6(data, src, dst)
    ensures r.Ok? ==> consumed == |data|
  {
    consumed := 0;
    if data == [] {
      return Err(Malformed), 0;
    }
    var buf := new Bytes(data);
    var verType := buf.GetU8();
    var v := TryVersion(verType / 16);
    if v.Err? {
      return Err(v.error), 1;
    }
    if v.value != V3 {
      return Err(UnsupportedVersion(verType / 16)), 1;
    }
    if |data| < FIXED_HEADER_LEN {
      return Err(Malformed), 1;
    }
    var vrid := buf.GetU8();
    var priority := buf.GetU8();
    var countIp := buf.GetU8();
    var adverIntCs := GetInterval(buf, V3);
    var expectedLen := FIXED_HEADER_LEN + countIp * 16;
    if countIp > MAX_IP_COUNT || expectedLen != |data| {
      return Err(Malformed), buf.pos;
    }
    var ok := VerifyChecksumV6(data, src, dst);
    if !ok {
      return Err(BadChecksum), buf.pos;
    }
    var checksum := buf.GetUint(2);
    var addrs := GetAddresses(buf, countIp, 16);
    r, consumed := Ok(VrrpPacket(V3, vrid, priority, adverIntCs, V6Addresses(addrs))), buf.pos;
  }

  method DecodePacket(data: seq<byte>, src: IpAddr, dst: IpAddr)
    returns (r: Result<VrrpPacket, PacketError>)
    ensures r == Decode(data, src, dst)
  {
    match (src, dst) {
      case (IpV4(_), _) =>
        ghost var consumed: nat;
        r, consumed := DecodeV4(data);
      case (IpV6(s), IpV6(d)) =>
        ghost var consumed: nat;
        r, consumed := DecodeV6(data, s, d);
      case (IpV6(_), IpV4(_)) =>
        r := Err(Malformed);
    }
  }

  lemma {:induction false} TwoOctets(v: u16)
    ensures BigEndian(v, 2) == [v / 256, v % 256]
  {
  }

  lemma {:induction false} ReadTwoOctets(data: seq<byte>, i: nat)
    requires i + 2 <= |data|
    ensures FromBigEndian(data[i..i + 2]) == 256 * data[i] as nat + data[i + 1] as nat
  {
  }

  lemma {:induction false} ZeroOctets(n: nat)
    ensures BigEndian(0, n) == seq(n, _ => 0)
  {
    if n == 0 {
    } else {
      ZeroOctets(n - 1);
    }
  }
}
