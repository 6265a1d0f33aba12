/** Transport addresses: stuncore/socketaddress.cpp and the address parser of stuncore/stunutils.cpp. */
module SocketAddresses {
  import opened Options
  import opened StunTypes
  import opened DataStreams

  /** The value of a CSocketAddress: `port` and `ip` are the bytes of the sockaddr, in network order. */
  datatype RawAddress = RawAddress(v4: bool, port: seq<byte>, ip: seq<byte>)

  predicate WellSized(a: RawAddress) {
    |a.port| == 2 && |a.ip| == if a.v4 then STUN_IPV4_LENGTH else STUN_IPV6_LENGTH
  }

  type Address = a: RawAddress | WellSized(a) witness RawAddress(true, [0, 0], [0, 0, 0, 0])

  /** CSocketAddress(): the zero address. */
  const ZERO_ADDRESS: Address := RawAddress(true, [0, 0], [0, 0, 0, 0])

  function GetPort(a: Address): u16 {
    Read16(a.port, 0)
  }

  function WithPort(a: Address, port: u16): (r: Address)
    ensures r.v4 == a.v4 && r.ip == a.ip && GetPort(r) == port
  {
    a.(port := BE16(port))
  }

  predicate IsSameIP(a: Address, b: Address) {
    a.v4 == b.v4 && a.ip == b.ip
  }

  predicate IsSameIPAndPort(a: Address, b: Address) {
    IsSameIP(a, b) && GetPort(a) == GetPort(b)
  }

  lemma SamePortBytes(a: Address, b: Address)
    ensures IsSameIPAndPort(a, b) <==> a == b
  {
    if GetPort(a) == GetPort(b) {
      assert a.port == [a.port[0], a.port[1]] && b.port == [b.port[0], b.port[1]];
    }
  }

  predicate IsIPAddressZero(a: Address) {
    a.ip == Zeros(|a.ip|)
  }

  function XorBytes(s: seq<byte>, mask: seq<byte>): (r: seq<byte>)
    requires |s| <= |mask|
    ensures |r| == |s|
  {
    seq(|s|, i requires 0 <= i < |s| => XorByte(s[i], mask[i]))
  }

  /** ApplyStunXorMap: port and address masked with the transaction id, cookie included. */
  function XorMapped(a: Address, transid: TransactionId): Address {
    a.(port := XorBytes(a.port, transid), ip := XorBytes(a.ip, transid))
  }

  lemma XorBytesTwice(s: seq<byte>, mask: seq<byte>)
    requires |s| <= |mask|
    ensures XorBytes(XorBytes(s, mask), mask) == s
  {
    forall i | 0 <= i < |s| ensures XorBytes(XorBytes(s, mask), mask)[i] == s[i] {
      XorTwice(s[i], mask[i]);
    }
  }

  /** Mapping twice with one transaction id gives the address back. */
  lemma XorMappedTwice(a: Address, transid: TransactionId)
    ensures XorMapped(XorMapped(a, transid), transid) == a
  {
    XorBytesTwice(a.port, transid);
    XorBytesTwice(a.ip, transid);
  }

  /** The object whose bytes ApplyStunXorMap and SetPort change in place. */
  class CSocketAddress {
    var v4: bool
    const port: array<byte>
    const ip: array<byte>

    ghost predicate Valid()
      reads this, port, ip
    {
      port != ip && port.Length == 2 && ip.Length == 16
    }

    ghost function Value(): Address
      requires Valid()
      reads this, port, ip
    {
      RawAddress(v4, port[..], if v4 then ip[..4] else ip[..])
    }

    constructor (a: Address)
      ensures Valid() && Value() == a && fresh(port) && fresh(ip)
    {
      v4 := a.v4;
      port := new byte[2];
      ip := new byte[16];
      new;
      DataStream.Copy(port, 0, a.port);
      DataStream.Copy(ip, 0, a.ip);
      assert port[..] == port[0..0 + |a.port|];
      assert ip[..|a.ip|] == ip[0..0 + |a.ip|];
      assert ip[..] == ip[..16];
    }

    method SetPort(p: u16)
      requires Valid()
      modifies port
      ensures Valid() && Value() == WithPort(old(Value()), p)
    {
      port[0] := p / 256;
      port[1] := p % 256;
    }

    method ApplyStunXorMap(transid: TransactionId)
      requires Valid()
      modifies port, ip
      ensures Valid() && Value() == XorMapped(old(Value()), transid)
    {
      var iplen := if v4 then STUN_IPV4_LENGTH else STUN_IPV6_LENGTH;
      port[0] := XorByte(port[0], transid[0]);
      port[1] := XorByte(port[1], transid[1]);
      for i := 0 to iplen
        invariant port[..] == XorBytes(old(port[..]), transid)
        invariant forall j | 0 <= j < i :: ip[j] == XorByte(old(ip[j]), transid[j])
        invariant forall j | i <= j < 16 :: ip[j] == old(ip[j])
      {
        ip[i] := XorByte(ip[i], transid[i]);
      }
    }
  }

  // ---- the value of an address attribute ----

  function FamilyByte(a: Address): byte {
    if a.v4 then STUN_ATTRIBUTE_FIELD_IPV4 else STUN_ATTRIBUTE_FIELD_IPV6
  }

  function AddressBytes(a: Address): (s: seq<byte>)
    ensures |s| == if a.v4 then 8 else 20
  {
    [0, FamilyByte(a)] + a.port + a.ip
  }

  /** What GetMappedAddress makes of an attribute value: family 1 is IPv4 and every other family is read as IPv6,
      trailing bytes are ignored and short values refused. */
  function ParseAddress(data: seq<byte>): Option<Address> {
    if |data| < 4 then None
    else if data[1] == STUN_ATTRIBUTE_FIELD_IPV4 then
      if |data| < 8 then None else Some(RawAddress(true, data[2..4], data[4..8]))
    else
      if |data| < 20 then None else Some(RawAddress(false, data[2..4], data[4..20]))
  }

  /** Writing an address and reading it back. */
  lemma AddressRoundTrip(a: Address)
    ensures ParseAddress(AddressBytes(a)) == Some(a)
  {
    var s := AddressBytes(a);
    assert s[2..4] == a.port;
    assert s[4..4 + |a.ip|] == a.ip;
  }

  method GetMappedAddress(data: seq<byte>) returns (r: Option<Address>)
    ensures r == ParseAddress(data)
  {
    var buffer := new Buffer(|data|);
    DataStream.Copy(buffer.data, 0, data);
    assert buffer.data[..buffer.size] == data by {
      assert buffer.data[..buffer.size] == buffer.data[0..0 + |data|];
    }
    var stream := new DataStream();
    stream.Attach(buffer, false);
    var ok := stream.SeekDirect(1);
    if !ok {
      return None;
    }
    var family, port, ip;
    ok, family := stream.Read(1);
    if !ok {
      return None;
    }
    ok, port := stream.Read(2);
    if !ok {
      return None;
    }
    ok, ip := stream.Read(if family[0] == STUN_ATTRIBUTE_FIELD_IPV4 then STUN_IPV4_LENGTH else STUN_IPV6_LENGTH);
    if !ok {
      return None;
    }
    r := Some(RawAddress(family[0] == STUN_ATTRIBUTE_FIELD_IPV4, port, ip));
  }
}
