/** VRRP advertisements and their wire format: what the encoder writes and the decoder
    accepts, as functions on values. Module Codec computes them octet by octet. */
module Packet {
  import opened Wire
  import opened InternetChecksum

  datatype VrrpVersion = V2 | V3 {
    function AsU8(): byte {
      if V2? then 2 else 3
    }
  }

  datatype VrrpAddresses = V4Addresses(v4: seq<Ipv4Addr>) | V6Addresses(v6: seq<Ipv6Addr>) {
    function Len(): nat {
      if V4Addresses? then |v4| else |v6|
    }
  }

  datatype VrrpPacket = VrrpPacket(
    version: VrrpVersion,
    vrid: byte,
    priority: byte,
    adverIntCs: u16,
    addresses: VrrpAddresses)

  datatype PacketError =
    | UnsupportedVersion(raw: byte)
    | Malformed
    | BadTtl(ttl: byte)
    | BadChecksum
    | VridMismatch(expectedVrid: byte, receivedVrid: byte)
    | AdvertIntervalMismatch(expectedInterval: byte, receivedInterval: byte)
    | IpCountMismatch(expectedCount: byte, receivedCount: byte)
    | IpListMismatch

  const MAX_IP_COUNT: nat := 16
  const FIXED_HEADER_LEN: nat := 8
  const V2_AUTH_TRAILER_LEN: nat := 8
  const HDWR_TYPE: byte := 1
  const VRRP_PROTO_NUM: byte := 112

  /** ff02::12 and 224.0.0.18, the groups advertisements are sent to. */
  const VRRP_V6_MCAST_OCTETS: seq<byte> := [0xff, 0x02, 0, 0, 0, 0, 0, 0, 0, 0, 0, 0, 0, 0, 0, 0x12]
  const VRRP_V6_MCAST_ADDR: Ipv6Addr := FromBigEndian(VRRP_V6_MCAST_OCTETS)
  const VRRP_MCAST_ADDR: Ipv4Addr := FromBigEndian([224, 0, 0, 18])

  /** Address lists on the wire, w octets an address. */
  function AddressBytes(addrs: seq<nat>, w: nat): (s: seq<byte>)
    ensures |s| == w * |addrs|
  {
    if addrs == [] then [] else BigEndian(addrs[0], w) + AddressBytes(addrs[1..], w)
  }

  function ReadAddresses(s: seq<byte>, w: nat, count: nat): (addrs: seq<nat>)
    requires w * count <= |s|
    ensures |addrs| == count && forall i :: 0 <= i < count ==> addrs[i] < Pow256(w)
  {
    if count == 0 then []
    else
      assert w * count == w + w * (count - 1);
      [FromBigEndian(s[..w])] + ReadAddresses(s[w..], w, count - 1)
  }

  /** The two octets after the count: auth type and seconds in v2, a 12-bit centisecond
      field in v3 (and always in v3 form over IPv6). */
  function IntervalField(version: VrrpVersion, cs: u16): (s: seq<byte>)
    ensures |s| == 2
  {
    match version
    case V2 => [0, (cs / 100) % 256]
    case V3 => [cs % 4096 / 256, cs % 256]
  }

  function Trailer(version: VrrpVersion): seq<byte> {
    if version.V2? then [0, 0, 0, 0, 0, 0, 0, 0] else []
  }

  function Header(p: VrrpPacket, field: seq<byte>): (s: seq<byte>)
    requires |field| == 2
    ensures |s| == FIXED_HEADER_LEN
  {
    [16 * p.version.AsU8() + HDWR_TYPE, p.vrid, p.priority, p.addresses.Len() % 256,
     field[0], field[1], 0, 0]
  }

  /** Writes a checksum over the placeholder at octets 6 and 7. */
  function Patch(s: seq<byte>, checksum: u16): seq<byte>
    requires |s| >= FIXED_HEADER_LEN
  {
    SetWord(s, 6, checksum)
  }

  function UnsummedV4(p: VrrpPacket): (s: seq<byte>)
    requires p.addresses.V4Addresses?
    ensures |s| >= FIXED_HEADER_LEN
  {
    Header(p, IntervalField(p.version, p.adverIntCs))
    + (AddressBytes(p.addresses.v4, 4) + Trailer(p.version))
  }

  function UnsummedV6(p: VrrpPacket): (s: seq<byte>)
    requires p.addresses.V6Addresses?
    ensures |s| >= FIXED_HEADER_LEN
  {
    Header(p, IntervalField(V3, p.adverIntCs)) + AddressBytes(p.addresses.v6, 16)
  }

  /** The IPv6 pseudo-header the checksum covers; the length is cast to 32 bits. */
  function PseudoHeader(src: Ipv6Addr, dst: Ipv6Addr, length: nat): (s: seq<byte>)
    ensures |s| == 40
  {
    BigEndian(src, 16) + BigEndian(dst, 16) + BigEndian(length % 0x1_0000_0000, 4)
    + [0, 0, 0, VRRP_PROTO_NUM]
  }

  function EncodeV4(p: VrrpPacket): seq<byte>
    requires p.addresses.V4Addresses?
  {
    Patch(UnsummedV4(p), ChecksumOf(UnsummedV4(p)))
  }

  function EncodeV6(p: VrrpPacket, src: Ipv6Addr): seq<byte>
    requires p.addresses.V6Addresses?
  {
    var s := UnsummedV6(p);
    Patch(s, ChecksumOf(PseudoHeader(src, VRRP_V6_MCAST_ADDR, |s|) + s))
  }

  /** An IPv4 source with IPv6 addresses is replaced by the unspecified address. */
  function Encode(p: VrrpPacket, src: IpAddr): seq<byte> {
    match p.addresses
    case V4Addresses(_) => EncodeV4(p)
    case V6Addresses(_) => EncodeV6(p, if src.IpV6? then src.v6 else 0)
  }

  function VersionOf(data: seq<byte>): Result<VrrpVersion, PacketError>
    requires data != []
  {
    match data[0] / 16
    case 2 => Ok(V2)
    case 3 => Ok(V3)
    case other => Err(UnsupportedVersion(other))
  }

  function TrailerLen(version: VrrpVersion): nat {
    if version.V2? then V2_AUTH_TRAILER_LEN else 0
  }

  /** Exactly the header, count addresses of w octets and the version's trailer. */
  predicate WellSized(data: seq<byte>, w: nat, trailer: nat)
    requires |data| >= FIXED_HEADER_LEN
  {
    data[3] <= MAX_IP_COUNT && |data| == FIXED_HEADER_LEN + trailer + w * data[3]
  }

  function ReadInterval(version: VrrpVersion, b4: byte, b5: byte): u16 {
    match version
    case V2 => b5 * 100
    case V3 => (256 * b4 + b5) % 4096
  }

  function DecodeV4(data: seq<byte>): Result<VrrpPacket, PacketError> {
    if data == [] then Err(Malformed)
    else
      match VersionOf(data)
      case Err(e) => Err(e)
      case Ok(version) =>
        if |data| < FIXED_HEADER_LEN || !WellSized(data, 4, TrailerLen(version)) then Err(Malformed)
        else if !Verifies(data) then Err(BadChecksum)
        else Ok(VrrpPacket(version, data[1], data[2], ReadInterval(version, data[4], data[5]),
                           V4Addresses(ReadAddresses(data[8..], 4, data[3]))))
  }

  function DecodeV6(data: seq<byte>, src: Ipv6Addr, dst: Ipv6Addr): Result<VrrpPacket, PacketError> {
    if data == [] then Err(Malformed)
    else
      match VersionOf(data)
      case Err(e) => Err(e)
      case Ok(V2) => Err(UnsupportedVersion(2))
      case Ok(V3) =>
        if |data| < FIXED_HEADER_LEN || !WellSized(data, 16, 0) then Err(Malformed)
        else if !Verifies(PseudoHeader(src, dst, |data|) + data) then Err(BadChecksum)
        else Ok(VrrpPacket(V3, data[1], data[2], ReadInterval(V3, data[4], data[5]),
                           V6Addresses(ReadAddresses(data[8..], 16, data[3]))))
  }

  function Decode(data: seq<byte>, src: IpAddr, dst: IpAddr): Result<VrrpPacket, PacketError> {
    match src
    case IpV4(_) => DecodeV4(data)
    case IpV6(s) =>
      match dst
      case IpV6(d) => DecodeV6(data, s, d)
      case IpV4(_) => Err(Malformed)
  }
}
