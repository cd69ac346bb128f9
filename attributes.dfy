/** STUN attributes (section 14 of RFC 8489) as pkg/stun/attributes.go handles
    them: the type/length/value record, first-match lookup, and the decoders of
    MAPPED-ADDRESS (section 14.1) and XOR-MAPPED-ADDRESS (section 14.2). */
module StunAttributes {
  import opened Binary
  import opened StunErrors

  const AttrReserved: u16 := 0x0000
  const AttrMappedAddress: u16 := 0x0001
  const AttrXorMappedAddress: u16 := 0x0020

  /** The fixed magic cookie; it is also the XOR key of the address attributes. */
  const MagicCookie: u32 := 0x2112A442

  const Ipv4Family: byte := 0x01
  const Ipv6Family: byte := 0x02

  /** Go's `[12]byte`. */
  type TransactionId = s: seq<byte> | |s| == 12 witness [0, 0, 0, 0, 0, 0, 0, 0, 0, 0, 0, 0]

  /** `Length` counts the value bytes without the padding that follows them on the wire. */
  datatype Attribute = Attribute(typ: u16, length: u16, value: seq<byte>)

  /** The zero value `Attribute{}`. */
  const ZeroAttribute := Attribute(0, 0, [])

  // ---------------------------------------------------------------- lookup

  datatype Lookup = Lookup(attr: Attribute, exist: bool)

  /** `i` is the position of the first attribute of type `t`. */
  ghost predicate FirstOfType(atts: seq<Attribute>, t: u16, i: int) {
    0 <= i < |atts| && atts[i].typ == t && forall j :: 0 <= j < i ==> atts[j].typ != t
  }

  /** Attributes.Extract: the first attribute of type `t`, or the zero value and false. */
  function Extract(atts: seq<Attribute>, t: u16): (r: Lookup)
    ensures r.exist <==> exists i :: 0 <= i < |atts| && atts[i].typ == t
    ensures r.exist ==> exists i :: FirstOfType(atts, t, i) && atts[i] == r.attr
    ensures !r.exist ==> r.attr == ZeroAttribute
  {
    if atts == [] then Lookup(ZeroAttribute, false)
    else if atts[0].typ == t then
      assert FirstOfType(atts, t, 0);
      Lookup(atts[0], true)
    else
      var r := Extract(atts[1..], t);
      assert forall i :: 1 <= i < |atts| ==> atts[i] == atts[1..][i - 1];
      assert r.exist ==> exists i :: FirstOfType(atts, t, i) && atts[i] == r.attr by {
        if r.exist {
          var i :| FirstOfType(atts[1..], t, i) && atts[1..][i] == r.attr;
          assert FirstOfType(atts, t, i + 1);
        }
      }
      r
  }

  /** Extract depends only on the first attribute of each type: putting a list
      in front that holds no attribute of type `t` changes nothing. */
  lemma {:induction false} ExtractSkipsOtherTypes(pre: seq<Attribute>, atts: seq<Attribute>, t: u16)
    requires forall i :: 0 <= i < |pre| ==> pre[i].typ != t
    ensures Extract(pre + atts, t) == Extract(atts, t)
  {
    if pre == [] {
      assert pre + atts == atts;
    } else {
      assert (pre + atts)[0] == pre[0];
      assert (pre + atts)[1..] == pre[1..] + atts;
      ExtractSkipsOtherTypes(pre[1..], atts, t);
    }
  }

  /** Attributes.Add has a value receiver: the attribute is appended to the
      method's own copy of the slice header and is lost on return, so the
      caller's list is what it was.  The appended list is not modelled: no
      caller can observe it. */
  function Add(atts: seq<Attribute>, t: u16, v: seq<byte>): (visible: seq<Attribute>)
    ensures visible == atts
    ensures Extract(visible, t) == Extract(atts, t)
  {
    atts
  }

  // ---------------------------------------------------------------- XOR

  /** Byte-wise exclusive or of two equally long byte strings. */
  function XorBytes(a: seq<byte>, b: seq<byte>): (r: seq<byte>)
    requires |a| == |b|
    ensures |r| == |a|
  {
    seq(|a|, i requires 0 <= i < |a| => XorByte(a[i], b[i]))
  }

  lemma XorBytesSelfInverse(a: seq<byte>, b: seq<byte>)
    requires |a| == |b|
    ensures XorBytes(XorBytes(a, b), b) == a
  {
    var r := XorBytes(XorBytes(a, b), b);
    forall i | 0 <= i < |a| ensures r[i] == a[i] {
      XorByteInvolution(a[i], b[i]);
    }
  }

  lemma XorBytesCommutes(a: seq<byte>, b: seq<byte>)
    requires |a| == |b|
    ensures XorBytes(a, b) == XorBytes(b, a)
  {
    forall i | 0 <= i < |a| ensures XorBytes(a, b)[i] == XorBytes(b, a)[i] {
      XorCommutes(a[i], b[i], 8);
    }
  }

  /** xor128: fills the 16-byte result one position at a time. */
  method Xor128(a: seq<byte>, b: seq<byte>) returns (result: seq<byte>)
    requires |a| == 16 && |b| == 16
    ensures result == XorBytes(a, b)
  {
    result := Zeros(16);
    var i := 0;
    while i < 16
      invariant 0 <= i <= 16 && |result| == 16
      invariant forall k :: 0 <= k < i ==> result[k] == XorByte(a[k], b[k])
    {
      result := result[i := XorByte(a[i], b[i])];
      i := i + 1;
    }
  }

  /** Port recovery: X-Port XOR the most significant 16 bits of the cookie. */
  function UnxorPort(xport: u16): (port: u16)
  {
    XorUint16(xport, MagicCookie / 0x1_0000)
  }

  /** XOR-ing the recovered port again gives the X-Port back. */
  lemma UnxorPortInvolution(x: u16)
    ensures UnxorPort(UnxorPort(x)) == x
  {
    var c := MagicCookie / 0x1_0000;
    XorUint16Involution(x, c);
  }

  /** IPv4 recovery as the source does it: the X-Address read as a big-endian
      32-bit value, XOR-ed with the cookie and written back as four bytes. */
  function UnxorIpv4(xaddr: seq<byte>): (addr: seq<byte>)
    requires |xaddr| == 4
    ensures |addr| == 4
  {
    PutUint32(XorUint32(Uint32(xaddr), MagicCookie))
  }

  /** Applying the IPv4 recovery twice gives the X-Address back. */
  lemma UnxorIpv4Involution(x: seq<byte>)
    requires |x| == 4
    ensures UnxorIpv4(UnxorIpv4(x)) == x
  {
    var y := XorUint32(Uint32(x), MagicCookie);
    Uint32OfPut(y);
    XorUint32Involution(Uint32(x), MagicCookie);
    PutOfUint32(x);
  }

  /** The 16-byte key of an IPv6 X-Address: the cookie, then the transaction id. */
  function Ipv6Key(tid: TransactionId): (key: seq<byte>)
    ensures |key| == 16 && key[..4] == [0x21, 0x12, 0xA4, 0x42] && key[4..] == tid
  {
    PutUint32(MagicCookie) + tid
  }

  /** Bytes of value Parse needs for a family: 1 reserved, 1 family, 2 port,
      then 4 address bytes for family 0x01 and 16 for any other family. */
  function AddressEnd(family: byte): (n: nat)
    ensures n == 8 || n == 20
  {
    if family == Ipv4Family then 8 else 20
  }

  // ---------------------------------------------------------------- XOR-MAPPED-ADDRESS

  datatype AddressValue = AddressValue(family: byte, port: u16, address: seq<byte>)

  /** What XORMappedAddress.Parse computes from a long enough value: family
      from byte 1, port from bytes 2-3, address from bytes 4-7 (IPv4) or 4-19
      (any other family). */
  function XorDecode(value: seq<byte>, tid: TransactionId): (d: AddressValue)
    requires |value| >= 2 && |value| >= AddressEnd(value[1])
    ensures d.family == value[1] && UnxorPort(d.port) == Uint16(value[2..4])
    ensures d.family == Ipv4Family ==> d.address == UnxorIpv4(value[4..8])
    ensures d.family != Ipv4Family ==> d.address == XorBytes(value[4..20], Ipv6Key(tid))
  {
    var family := value[1];
    var port := UnxorPort(Uint16(value[2..4]));
    UnxorPortInvolution(Uint16(value[2..4]));
    if family == Ipv4Family then AddressValue(family, port, UnxorIpv4(value[4..8]))
    else AddressValue(family, port, XorBytes(value[4..20], Ipv6Key(tid)))
  }

  /** The X-Port a server sends: the port XOR 0x2112, the most significant
      16 bits of the cookie. */
  function XorPort(port: u16): (xport: u16) {
    XorUint16(port, 0x2112)
  }

  /** The X-Address a server sends for an address of a family: an IPv4 address
      XOR the cookie, an IPv6 address XOR the cookie followed by the
      transaction id. */
  function XorAddress(d: AddressValue, tid: TransactionId): (x: seq<byte>)
    requires |d.address| == AddressEnd(d.family) - 4
    ensures |x| == |d.address|
  {
    if d.family == Ipv4Family then PutUint32(XorUint32(Uint32(d.address), MagicCookie))
    else XorBytes(d.address, PutUint32(MagicCookie) + tid)
  }

  /** The encoder of section 14.2 of RFC 8489 that a server runs: the partner
      of XorDecode. */
  function XorEncode(d: AddressValue, tid: TransactionId): (attr: Attribute)
    requires |d.address| == AddressEnd(d.family) - 4
    ensures attr.typ == AttrXorMappedAddress && |attr.value| == AddressEnd(d.family)
    ensures attr.length == |attr.value|
  {
    var value := [0, d.family] + PutUint16(XorPort(d.port)) + XorAddress(d, tid);
    Attribute(AttrXorMappedAddress, |value|, value)
  }

  /** Where XorEncode puts family, X-Port and X-Address. */
  lemma XorEncodeLayout(d: AddressValue, tid: TransactionId)
    requires |d.address| == AddressEnd(d.family) - 4
    ensures var v := XorEncode(d, tid).value;
      v[1] == d.family && v[2..4] == PutUint16(XorPort(d.port)) &&
      v[4..AddressEnd(d.family)] == XorAddress(d, tid)
  {
    var v := XorEncode(d, tid).value;
    assert v == [0, d.family] + PutUint16(XorPort(d.port)) + XorAddress(d, tid);
  }

  /** Decoding what a server encoded gives back family, port and address. */
  lemma XorDecodeEncode(d: AddressValue, tid: TransactionId)
    requires |d.address| == AddressEnd(d.family) - 4
    ensures XorDecode(XorEncode(d, tid).value, tid) == d
  {
    var v := XorEncode(d, tid).value;
    XorEncodeLayout(d, tid);
    var r := XorDecode(v, tid);
    assert r.port == d.port by {
      var key: u16 := 0x2112;
      assert MagicCookie / 0x1_0000 == key;
      Uint16OfPut(XorPort(d.port));
      XorUint16Involution(d.port, key);
    }
    assert r.address == d.address by {
      if d.family == Ipv4Family {
        assert v[4..8] == UnxorIpv4(d.address);
        UnxorIpv4Involution(d.address);
      } else {
        assert v[4..20] == XorBytes(d.address, Ipv6Key(tid));
        XorBytesSelfInverse(d.address, Ipv6Key(tid));
      }
    }
  }

  /** How a call of XORMappedAddress.Parse ends. */
  function XorParseStatus(attr: Attribute): (s: Status)
    ensures s == Err(NotXorMappedAddress) <==> attr.typ != AttrXorMappedAddress
    ensures s == Ok <==>
      attr.typ == AttrXorMappedAddress && |attr.value| >= 2 && |attr.value| >= AddressEnd(attr.value[1])
  {
    if attr.typ != AttrXorMappedAddress then Err(NotXorMappedAddress)
    else if |attr.value| < 2 || |attr.value| < AddressEnd(attr.value[1]) then Panic
    else Ok
  }

  /** XORMappedAddress: Parse has a pointer receiver and assigns Family, Port
      and Address in that order, so a panic part-way leaves the fields written
      so far. */
  class XorMappedAddress {
    var family: byte
    var address: seq<byte>
    var port: u16

    /** The zero value `XORMappedAddress{}`. */
    constructor ()
      ensures family == 0 && address == [] && port == 0
    {
      family, address, port := 0, [], 0;
    }

    method Parse(attr: Attribute, tid: TransactionId) returns (s: Status)
      modifies this
      ensures s == XorParseStatus(attr)
      ensures s == Ok ==> AddressValue(family, port, address) == XorDecode(attr.value, tid)
      ensures s.Err? ==> unchanged(this)
      ensures s == Panic ==> address == old(address)
      ensures s == Panic && |attr.value| >= 2 ==> family == attr.value[1]
      ensures s == Panic && |attr.value| >= 4 ==> port == UnxorPort(Uint16(attr.value[2..4]))
      ensures s == Panic && |attr.value| < 4 ==> port == old(port)
      ensures s == Panic && |attr.value| < 2 ==> family == old(family)
    {
      if attr.typ != AttrXorMappedAddress {
        return Err(NotXorMappedAddress);
      }
      var index := 1;  // skip the reserved byte
      if |attr.value| < index + 1 {
        return Panic;
      }
      family := attr.value[index];
      index := index + 1;

      if |attr.value| < index + 2 {
        return Panic;
      }
      var xport := Uint16(attr.value[index..index + 2]);
      port := UnxorPort(xport);
      index := index + 2;

      if family == Ipv4Family {
        if |attr.value| < index + 4 {
          return Panic;
        }
        address := UnxorIpv4(attr.value[index..index + 4]);
      } else {
        if |attr.value| < index + 16 {
          return Panic;
        }
        var comparison := Ipv6Key(tid);
        var addr := Xor128(attr.value[index..index + 16], comparison);
        address := addr;
      }
      return Ok;
    }
  }

  // ---------------------------------------------------------------- MAPPED-ADDRESS

  /** MappedAddress.Parse has a value receiver: it decodes into its own copy,
      so the caller learns only whether it failed.  It fails exactly on a type
      other than MAPPED-ADDRESS and panics on a value too short for its family. */
  function MappedAddressParse(attr: Attribute): (s: Status)
    ensures s == Err(NotMappedAddress) <==> attr.typ != AttrMappedAddress
    ensures s == Ok <==>
      attr.typ == AttrMappedAddress && |attr.value| >= 2 && |attr.value| >= AddressEnd(attr.value[1])
  {
    if attr.typ != AttrMappedAddress then Err(NotMappedAddress)
    else if |attr.value| < 2 then Panic
    else
      var family := attr.value[1];
      if |attr.value| < 4 then Panic
      else if family == Ipv4Family && |attr.value| < 8 then Panic
      else if family != Ipv4Family && |attr.value| < 20 then Panic
      else Ok
  }
}
