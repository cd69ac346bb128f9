/** The prototype codec of cmd/myroute/main.go, an earlier form of the
    package codec: Encode writes every attribute's value with no padding, and
    Decode keeps every attribute it meets, duplicates included.  Decode also
    slices two bytes after the type and two after the length for debug dumps,
    and those slices need bytes to exist. */
module MyRoute {
  import opened StunErrors
  import opened Binary
  import opened StunAttributes
  import SM = StunMessage

  const HeaderByte: nat := 20
  const TransactionIdByte: nat := 12
  const AttrBoundaryByte: nat := 4

  // ================================================================ encoding

  /** One attribute as the prototype writes it: type, Length, value. */
  function AttrWire(a: Attribute): (w: seq<byte>)
    ensures |w| == 4 + |a.value|
  {
    PutUint16(a.typ) + PutUint16(a.length) + a.value
  }

  function AttrsWire(atts: seq<Attribute>): seq<byte> {
    if atts == [] then [] else AttrWire(atts[0]) + AttrsWire(atts[1..])
  }

  function Wire(m: SM.MessageValue): seq<byte> {
    SM.HeaderWire(m.typ, m.length, m.cookie, m.tid) + AttrsWire(m.attributes)
  }

  /** Bytes the attributes take without padding: 4 + the value's size each. */
  function Size(atts: seq<Attribute>): nat {
    if atts == [] then 0 else 4 + |atts[0].value| + Size(atts[1..])
  }

  lemma {:induction false} AttrsWireSize(atts: seq<Attribute>)
    ensures |AttrsWire(atts)| == Size(atts)
  {
    if atts != [] {
      AttrsWireSize(atts[1..]);
    }
  }

  /** The encoded message is the header plus 4 + |value| bytes per attribute. */
  lemma EncodedSize(m: SM.MessageValue)
    ensures |Wire(m)| == HeaderByte + Size(m.attributes)
  {
    AttrsWireSize(m.attributes);
  }

  lemma {:induction false} AttrsWireAppend(atts: seq<Attribute>, a: Attribute)
    ensures AttrsWire(atts + [a]) == AttrsWire(atts) + AttrWire(a)
  {
    if atts == [] {
      assert atts + [a] == [a];
    } else {
      assert (atts + [a])[1..] == atts[1..] + [a];
      AttrsWireAppend(atts[1..], a);
    }
  }

  // ================================================================ decoding, as functions

  /** The attribute at `index` can be read: its type, its length, the two
      bytes the debug dump slices after the length, and its value all lie
      inside `sec`. */
  predicate AttrFits(sec: seq<byte>, index: nat) {
    index + 6 <= |sec| && index + 4 + SM.AttrLen(sec, index) <= |sec|
  }

  /** Every attribute the cursor meets, in order: the same walk as the
      package codec's, with the debug slice's extra bound. */
  function Scan(sec: seq<byte>, index: nat, limit: nat): SM.Walk
    decreases limit - index
  {
    if index >= limit then SM.Walked([])
    else if !AttrFits(sec, index) then SM.OutOfRange
    else
      var len := SM.AttrLen(sec, index);
      SM.Prepend([SM.AttrAt(sec, index)], Scan(sec, index + 4 + len + Pad(len), limit))
  }

  /** What the prototype Decode does with a buffer, given the attribute list
      the receiver held before: Length zero leaves that list in place. */
  function DecodeSpec(data: seq<byte>, prior: seq<Attribute>): SM.Decoding {
    if |data| < HeaderByte then SM.TooShort
    else
      var limit := Uint16(data[2..4]);
      var header := SM.MessageValue(Uint16(data[0..2]), limit, Uint32(data[4..8]), data[8..20], prior);
      if limit == 0 then SM.Decoded(header)
      else
        match Scan(data[HeaderByte..], 0, limit)
        case OutOfRange => SM.Panicked
        case Walked(xs) => SM.Decoded(header.(attributes := [ZeroAttribute] + xs))
  }

  // ================================================================ the Message struct

  class Message {
    var typ: u16
    var length: u16
    var cookie: u32
    var tid: TransactionId
    var attributes: seq<Attribute>

    function Value(): SM.MessageValue
      reads this
    {
      SM.MessageValue(typ, length, cookie, tid, attributes)
    }

    /** The zero value `Message{}`. */
    constructor Zero()
      ensures Value() == SM.MessageValue(0, 0, 0, [0, 0, 0, 0, 0, 0, 0, 0, 0, 0, 0, 0], [])
    {
      typ, length, cookie := 0, 0, 0;
      tid := [0, 0, 0, 0, 0, 0, 0, 0, 0, 0, 0, 0];
      attributes := [];
    }

    /** Message.Encode: the header big-endian, then type, Length and value of
        every attribute; nothing is padded. */
    method Encode() returns (out: seq<byte>)
      ensures out == Wire(Value())
      ensures |out| == HeaderByte + Size(attributes)
    {
      out := PutUint16(typ);
      out := out + PutUint16(length);
      out := out + PutUint32(cookie);
      out := out + tid;
      ghost var header := out;
      var atts := attributes;
      for i := 0 to |atts|
        invariant out == header + AttrsWire(atts[..i])
      {
        var a := atts[i];
        var bytes := PutUint16(a.typ) + PutUint16(a.length) + a.value;
        assert AttrsWire(atts[..i + 1]) == AttrsWire(atts[..i]) + bytes by {
          AttrsWireAppend(atts[..i], a);
          assert atts[..i + 1] == atts[..i] + [a];
        }
        out := out + bytes;
      }
      assert atts[..|atts|] == atts;
      EncodedSize(Value());
    }

    /** Message.Decode: the header fields without any check, then, only when
        Length is not zero, every attribute from byte 20 while the cursor is
        below Length, after one zero-valued attribute. */
    method Decode(data: seq<byte>) returns (s: Status)
      modifies this
      ensures s == Err(HeaderTooShort) <==> |data| < HeaderByte
      ensures s == Err(HeaderTooShort) ==> unchanged(this)
      ensures s == Ok <==> DecodeSpec(data, old(attributes)).Decoded?
      ensures s == Ok ==> Value() == DecodeSpec(data, old(attributes)).m
      ensures DecodeSpec(data, old(attributes)) == SM.Panicked <==> s == Panic
      ensures s == Panic ==> attributes == old(attributes)
      ensures s == Panic ==>
        typ == Uint16(data[0..2]) && length == Uint16(data[2..4]) && cookie == Uint32(data[4..8]) && tid == data[8..20]
    {
      if |data| < HeaderByte {
        return Err(HeaderTooShort);
      }
      typ := Uint16(data[..2]);
      length := Uint16(data[2..4]);
      cookie := Uint32(data[4..8]);
      var id: seq<byte> := [];
      for i := 0 to TransactionIdByte
        invariant id == data[8..8 + i]
      {
        id := id + [data[i + 8]];
      }
      tid := id;
      assert data[..2] == data[0..2];

      if length > 0 {
        var walked := DecodeAttributeSection(data[HeaderByte..], length);
        if walked.OutOfRange? {
          return Panic;
        }
        attributes := walked.attrs;
      }
      return Ok;
    }
  }

  /** The attribute loop of the prototype Decode on the bytes after the
      header, `limit` being Length: each turn reads type and length, slices the
      two debug-dump ranges and the value, moves past value and padding, and
      appends the attribute.  A slice past the end is a runtime panic. */
  method DecodeAttributeSection(sec: seq<byte>, limit: nat) returns (w: SM.Walk)
    requires limit > 0
    ensures w == SM.Prepend([ZeroAttribute], Scan(sec, 0, limit))
  {
    var attrs := [ZeroAttribute];
    var index := 0;
    ghost var scanned: seq<Attribute> := [];
    SM.PrependNothing(Scan(sec, 0, limit));
    while index < limit
      invariant Scan(sec, 0, limit) == SM.Prepend(scanned, Scan(sec, index, limit))
      invariant attrs == [ZeroAttribute] + scanned
      decreases limit - index
    {
      ghost var start := index;
      var attr := ZeroAttribute;
      if |sec| < index + 2 {
        ScanOutOfRange(sec, start, limit, scanned);
        return SM.OutOfRange;
      }
      var aType := Uint16(sec[index..index + 2]);
      index := index + 2;
      attr := attr.(typ := aType);
      if |sec| < index + 2 {  // the debug dump of the two bytes after the type
        ScanOutOfRange(sec, start, limit, scanned);
        return SM.OutOfRange;
      }

      var aLen := Uint16(sec[index..index + 2]);
      index := index + 2;
      attr := attr.(length := aLen);
      if |sec| < index + 2 {  // the debug dump of the two bytes after the length
        ScanOutOfRange(sec, start, limit, scanned);
        return SM.OutOfRange;
      }
      var len: nat := aLen;
      var pad := 0;
      if len % AttrBoundaryByte != 0 {
        pad := AttrBoundaryByte - len % AttrBoundaryByte;
      }
      assert pad == Pad(len);

      if |sec| < index + len {
        ScanOutOfRange(sec, start, limit, scanned);
        return SM.OutOfRange;
      }
      var val := sec[index..index + len];
      index := index + (len + pad);
      attr := attr.(value := val);

      assert AttrFits(sec, start) && attr == SM.AttrAt(sec, start) && len == SM.AttrLen(sec, start);
      ScanStep(sec, start, limit, scanned, attr, index);
      scanned := scanned + [attr];
      attrs := attrs + [attr];
    }
    ScanDone(sec, index, limit, scanned);
    return SM.Walked(attrs);
  }

  lemma ScanOutOfRange(sec: seq<byte>, index: nat, limit: nat, scanned: seq<Attribute>)
    requires index < limit && !AttrFits(sec, index)
    ensures SM.Prepend(scanned, Scan(sec, index, limit)) == SM.OutOfRange
  {
  }

  lemma ScanDone(sec: seq<byte>, index: nat, limit: nat, scanned: seq<Attribute>)
    requires index >= limit
    ensures SM.Prepend(scanned, Scan(sec, index, limit)) == SM.Walked(scanned)
  {
    assert scanned + [] == scanned;
  }

  lemma ScanStep(sec: seq<byte>, start: nat, limit: nat, scanned: seq<Attribute>, a: Attribute, next: nat)
    requires start < limit && AttrFits(sec, start) && a == SM.AttrAt(sec, start)
    requires next == start + 4 + SM.AttrLen(sec, start) + Pad(SM.AttrLen(sec, start))
    ensures SM.Prepend(scanned, Scan(sec, start, limit)) == SM.Prepend(scanned + [a], Scan(sec, next, limit))
  {
    match Scan(sec, next, limit) {
      case Walked(xs) => assert scanned + ([a] + xs) == (scanned + [a]) + xs;
      case OutOfRange =>
    }
  }

  // ================================================================ properties

  /** Every value's size is its Length, and every value but the last has a
      size that is a multiple of four: the attributes the prototype can encode
      and read back.  The walk skips padding the encoder never wrote, so an
      odd-sized value is harmless only where nothing follows it. */
  ghost predicate Aligned(atts: seq<Attribute>) {
    forall i :: 0 <= i < |atts| ==>
      |atts[i].value| == atts[i].length && (i + 1 < |atts| ==> atts[i].length % 4 == 0)
  }

  lemma AlignedTail(atts: seq<Attribute>)
    requires atts != [] && Aligned(atts)
    ensures |atts[0].value| == atts[0].length && Aligned(atts[1..])
    ensures |atts| > 1 ==> atts[0].length % 4 == 0
  {
    forall i | 0 <= i < |atts[1..]|
      ensures |atts[1..][i].value| == atts[1..][i].length &&
        (i + 1 < |atts[1..]| ==> atts[1..][i].length % 4 == 0)
    {
      assert atts[1..][i] == atts[i + 1];
    }
  }

  /** At an attribute written in full with two more bytes after its type and
      length, the walk reads it and moves past it and the padding it expects. */
  lemma ScanFirst(sec: seq<byte>, start: nat, limit: nat, a: Attribute, next: nat)
    requires |a.value| == a.length && SM.BytesAt(sec, start, AttrWire(a))
    requires start + 6 <= |sec| && start < limit
    requires next == start + |AttrWire(a)| + Pad(a.length)
    ensures Scan(sec, start, limit) == SM.Prepend([a], Scan(sec, next, limit))
  {
    var t, l := PutUint16(a.typ), PutUint16(a.length);
    assert AttrWire(a) == t + (l + a.value);
    SM.BytesAtSplit(sec, start, t, l + a.value);
    SM.BytesAtSplit(sec, start + 2, l, a.value);
    SM.BytesAtSlice(sec, start, t);
    SM.BytesAtSlice(sec, start + 2, l);
    SM.BytesAtSlice(sec, start + 4, a.value);
    Uint16OfPut(a.typ);
    Uint16OfPut(a.length);
  }

  /** The first attribute of an encoded list and the list after it, each in
      place. */
  lemma WireHead(sec: seq<byte>, start: nat, atts: seq<Attribute>, limit: nat)
    requires atts != [] && Aligned(atts) && SM.BytesAt(sec, start, AttrsWire(atts))
    requires limit == start + Size(atts)
    ensures var next, tail := start + |AttrWire(atts[0])|, atts[1..];
      |atts[0].value| == atts[0].length && (tail != [] ==> atts[0].length % 4 == 0) && Aligned(tail) &&
      SM.BytesAt(sec, start, AttrWire(atts[0])) && SM.BytesAt(sec, next, AttrsWire(tail)) &&
      start < limit && limit == next + Size(tail)
  {
    AlignedTail(atts);
    assert AttrsWire(atts) == AttrWire(atts[0]) + AttrsWire(atts[1..]);
    SM.BytesAtSplit(sec, start, AttrWire(atts[0]), AttrsWire(atts[1..]));
  }

  /** The walk over an aligned encoded list, followed by at least two more
      bytes, finds exactly its attributes, duplicates included, when the limit
      is where the list ends: the padding skipped after the last value lands
      at or past the limit. */
  lemma {:induction false} ScanWire(sec: seq<byte>, start: nat, atts: seq<Attribute>, limit: nat)
    requires Aligned(atts) && SM.BytesAt(sec, start, AttrsWire(atts))
    requires limit == start + Size(atts) && limit + 2 <= |sec|
    ensures Scan(sec, start, limit) == SM.Walked(atts)
    decreases |atts|
  {
    if atts != [] {
      var a, tail := atts[0], atts[1..];
      var next := start + |AttrWire(a)|;
      var after := next + Pad(a.length);
      WireHead(sec, start, atts, limit);
      assert Scan(sec, after, limit) == SM.Walked(tail) by {
        if tail != [] {
          assert Pad(a.length) == 0;
          ScanWire(sec, next, tail, limit);
        }
      }
      assert start + 6 <= |sec| by {
        AttrsWireSize(tail);
      }
      ScanFirst(sec, start, limit, a, after);
      assert [a] + tail == atts;
    }
  }

  /** Round trip for aligned attributes: when Length is the size of the
      attribute section and at least two bytes follow the message (the
      response buffer is 1500 bytes long), decoding gives back the header and
      the zero placeholder followed by every attribute in order, duplicates
      included; a message with no attributes leaves the prior list. */
  lemma DecodeEncode(m: SM.MessageValue, prior: seq<Attribute>, rest: seq<byte>)
    requires Aligned(m.attributes) && m.length == Size(m.attributes) && |rest| >= 2
    ensures DecodeSpec(Wire(m) + rest, prior) ==
      SM.Decoded(m.(attributes := if m.attributes == [] then prior else [ZeroAttribute] + m.attributes))
  {
    var data := Wire(m) + rest;
    var h := SM.HeaderWire(m.typ, m.length, m.cookie, m.tid);
    var aw := AttrsWire(m.attributes);
    assert data == h + aw + rest;
    AttrsWireSize(m.attributes);
    assert data[0..2] == PutUint16(m.typ);
    assert data[2..4] == PutUint16(m.length);
    assert data[4..8] == PutUint32(m.cookie);
    assert data[8..20] == m.tid;
    Uint16OfPut(m.typ);
    Uint16OfPut(m.length);
    Uint32OfPut(m.cookie);
    var sec := data[HeaderByte..];
    assert SM.BytesAt(sec, 0, aw + rest) by {
      assert sec == aw + rest;
    }
    SM.BytesAtSplit(sec, 0, aw, rest);
    if m.attributes != [] {
      ScanWire(sec, 0, m.attributes, Size(m.attributes));
    }
  }

  /** Length zero: Decode keeps whatever attributes the receiver held. */
  lemma LengthZeroKeepsAttributes(data: seq<byte>, prior: seq<Attribute>)
    requires |data| >= HeaderByte && Uint16(data[2..4]) == 0
    ensures DecodeSpec(data, prior).Decoded? && DecodeSpec(data, prior).m.attributes == prior
  {
  }

  /** The header fields are read big-endian and not checked: any type and
      cookie are accepted. */
  lemma HeaderNotValidated(data: seq<byte>, prior: seq<Attribute>)
    requires DecodeSpec(data, prior).Decoded?
    ensures var m := DecodeSpec(data, prior).m;
      |data| >= HeaderByte && m.typ == Uint16(data[0..2]) && m.length == Uint16(data[2..4]) &&
      m.cookie == Uint32(data[4..8]) && m.tid == data[8..20]
  {
  }

  /** The prototype's walk over the package codec's padded encoding, followed
      by at least two more bytes, finds exactly its attributes: the padding
      the package encoder writes is the padding this walk skips. */
  lemma {:induction false} PaddedScanWire(sec: seq<byte>, start: nat, atts: seq<Attribute>, limit: nat)
    requires SM.LengthsMatch(atts) && SM.BytesAt(sec, start, SM.AttrsWire(atts))
    requires limit == start + SM.AttrsSize(atts) && limit + 2 <= |sec|
    ensures Scan(sec, start, limit) == SM.Walked(atts)
    decreases |atts|
  {
    if atts != [] {
      var a, tail := atts[0], atts[1..];
      var next := start + |SM.AttrWire(a)|;
      SM.WireHead(sec, start, atts, limit);
      assert Scan(sec, next, limit) == SM.Walked(tail) by {
        PaddedScanWire(sec, next, tail, limit);
      }
      SM.AttrWireRead(sec, start, a);
      assert [a] + tail == atts;
    }
  }

  /** Decoding what the package Encode writes: for a well-formed message, with
      at least two bytes after it, the prototype gives back the header and the
      zero placeholder followed by every attribute in order, duplicates
      included; a message with no attributes leaves the prior list.  This is
      the round trip the prototype codec misses for odd-sized values. */
  lemma DecodePadded(m: SM.MessageValue, prior: seq<Attribute>, rest: seq<byte>)
    requires SM.WellFormed(m) && |rest| >= 2
    ensures DecodeSpec(SM.Wire(m) + rest, prior) ==
      SM.Decoded(m.(attributes := if m.attributes == [] then prior else [ZeroAttribute] + m.attributes))
  {
    var data := SM.Wire(m) + rest;
    var h := SM.HeaderWire(m.typ, m.length, m.cookie, m.tid);
    var aw := SM.AttrsWire(m.attributes);
    assert data == h + aw + rest;
    SM.AttrsWireSize(m.attributes);
    assert data[0..2] == PutUint16(m.typ);
    assert data[2..4] == PutUint16(m.length);
    assert data[4..8] == PutUint32(m.cookie);
    assert data[8..20] == m.tid;
    Uint16OfPut(m.typ);
    Uint16OfPut(m.length);
    Uint32OfPut(m.cookie);
    var sec := data[HeaderByte..];
    assert SM.BytesAt(sec, 0, aw + rest) by {
      assert sec == aw + rest;
    }
    SM.BytesAtSplit(sec, 0, aw, rest);
    PaddedScanWire(sec, 0, m.attributes, SM.AttrsSize(m.attributes));
    if m.attributes != [] {
      assert SM.AttrsSize(m.attributes) > 0;
    }
  }

  // ================================================================ the padding mismatch

  /** A message whose first value is one byte long, then an XOR-MAPPED-ADDRESS
      with a four-byte value. */
  const Unaligned: SM.MessageValue := SM.MessageValue(
    0x0101, 13, MagicCookie, [1, 2, 3, 4, 5, 6, 7, 8, 9, 10, 11, 12],
    [Attribute(AttrMappedAddress, 1, [0xAB]), Attribute(AttrXorMappedAddress, 4, [0, 0, 0, 0])])

  /** The bytes of the attribute section the prototype writes for it, with
      eight zero bytes after it, that the walk below reads: 0001 0001 AB, then
      0020 0004 00000000, then zeros. */
  lemma UnalignedSection()
    ensures var w := AttrsWire(Unaligned.attributes) + Zeros(8);
      |w| == 21 && w[0] == 0 && w[1] == 1 && w[2] == 0 && w[3] == 1 && w[4] == 0xAB &&
      w[8] == 4 && w[9] == 0 && w[10] == 0 && w[11] == 0 &&
      w[12] == 0 && w[13] == 0 && w[14] == 0 && w[15] == 0
  {
    var atts := Unaligned.attributes;
    assert AttrsWire(atts[1..][1..]) == [];
    assert AttrsWire(atts) == AttrWire(atts[0]) + AttrWire(atts[1]);
    AttrWireBytes(atts[0]);
    AttrWireBytes(atts[1]);
  }

  /** The bytes of one attribute as the prototype writes it. */
  lemma AttrWireBytes(a: Attribute)
    ensures var w := AttrWire(a);
      w[0] == a.typ / 0x100 && w[1] == a.typ % 0x100 &&
      w[2] == a.length / 0x100 && w[3] == a.length % 0x100 &&
      forall i :: 0 <= i < |a.value| ==> w[4 + i] == a.value[i]
  {
  }

  /** Decoding any buffer that starts with a header: the header fields come
      back as written, and the attributes are the walk from byte 20 to Length
      (or the prior list when Length is zero). */
  lemma DecodeHeader(typ: u16, length: u16, cookie: u32, tid: TransactionId, sec: seq<byte>, prior: seq<Attribute>)
    ensures var header := SM.MessageValue(typ, length, cookie, tid, prior);
      DecodeSpec(SM.HeaderWire(typ, length, cookie, tid) + sec, prior) ==
        if length == 0 then SM.Decoded(header)
        else match Scan(sec, 0, length)
          case OutOfRange => SM.Panicked
          case Walked(xs) => SM.Decoded(header.(attributes := [ZeroAttribute] + xs))
  {
    var data := SM.HeaderWire(typ, length, cookie, tid) + sec;
    assert data[0..2] == PutUint16(typ) && data[2..4] == PutUint16(length);
    assert data[4..8] == PutUint32(cookie) && data[8..20] == tid && data[HeaderByte..] == sec;
    Uint16OfPut(typ);
    Uint16OfPut(length);
    Uint32OfPut(cookie);
  }

  /** One step of the walk, stated on the bytes at the cursor. */
  lemma ScanAt(sec: seq<byte>, index: nat, limit: nat, typ: u16, len: u16, value: seq<byte>, next: nat)
    requires index < limit && index + 6 <= |sec| && index + 4 + len <= |sec|
    requires sec[index] == typ / 0x100 && sec[index + 1] == typ % 0x100
    requires sec[index + 2] == len / 0x100 && sec[index + 3] == len % 0x100
    requires |value| == len && forall i :: 0 <= i < len ==> sec[index + 4 + i] == value[i]
    requires next == index + 4 + len + Pad(len)
    ensures Scan(sec, index, limit) == SM.Prepend([Attribute(typ, len, value)], Scan(sec, next, limit))
  {
    assert sec[index + 4..index + 4 + len] == value;
    assert sec[index..index + 2] == PutUint16(typ) && sec[index + 2..index + 4] == PutUint16(len);
    Uint16OfPut(typ);
    Uint16OfPut(len);
  }

  /** What the prototype Decode reads from a section that starts with those
      thirteen bytes, followed by at least five more, zero where it looks. */
  lemma MisreadSection(sec: seq<byte>)
    requires |sec| >= 18
    requires sec[0] == 0 && sec[1] == 1 && sec[2] == 0 && sec[3] == 1 && sec[4] == 0xAB
    requires sec[8] == 4 && sec[9] == 0 && sec[10] == 0 && sec[11] == 0
    requires sec[12] == 0 && sec[13] == 0 && sec[14] == 0 && sec[15] == 0
    ensures Scan(sec, 0, 13) ==
      SM.Walked([Attribute(AttrMappedAddress, 1, [0xAB]), Attribute(0x0400, 0, []), Attribute(0, 0, [])])
  {
    var a := Attribute(AttrMappedAddress, 1, [0xAB]);
    var v: seq<byte> := [0xAB];
    assert sec[4] == v[0];
    MisreadTail(sec);
    ScanAt(sec, 0, 13, 1, 1, v, 8);
    assert [a] + [Attribute(0x0400, 0, []), Attribute(0, 0, [])] ==
      [a, Attribute(0x0400, 0, []), Attribute(0, 0, [])];
  }

  /** The walk from byte 8 of that section: the XOR-MAPPED-ADDRESS header
      read three bytes late, then the zero bytes after it. */
  lemma MisreadTail(sec: seq<byte>)
    requires |sec| >= 18
    requires sec[8] == 4 && sec[9] == 0 && sec[10] == 0 && sec[11] == 0
    requires sec[12] == 0 && sec[13] == 0 && sec[14] == 0 && sec[15] == 0
    ensures Scan(sec, 8, 13) == SM.Walked([Attribute(0x0400, 0, []), Attribute(0, 0, [])])
  {
    var b, c := Attribute(0x0400, 0, []), Attribute(0, 0, []);
    assert Scan(sec, 16, 13) == SM.Walked([]);
    ScanAt(sec, 12, 13, 0, 0, [], 16);
    ScanAt(sec, 8, 13, 0x0400, 0, [], 12);
    assert [b] + [c] == [b, c];
  }

  /** Encode writes no padding but Decode skips it: after a one-byte value
      Decode starts the next attribute three bytes late, so the
      XOR-MAPPED-ADDRESS comes back as type 0x0400 with an empty value,
      followed by a type-0 attribute read from the zero bytes after the
      message. */
  lemma EncodeDecodeDisagree()
    ensures DecodeSpec(Wire(Unaligned) + Zeros(8), []) == SM.Decoded(Unaligned.(attributes := [
      ZeroAttribute, Attribute(AttrMappedAddress, 1, [0xAB]), Attribute(0x0400, 0, []), Attribute(0, 0, [])]))
  {
    var m := Unaligned;
    var sec := AttrsWire(m.attributes) + Zeros(8);
    assert Wire(m) + Zeros(8) == SM.HeaderWire(m.typ, m.length, m.cookie, m.tid) + sec;
    DecodeHeader(m.typ, m.length, m.cookie, m.tid, sec, []);
    UnalignedWalk();
  }

  /** The walk over the bytes Encode writes for that message, up to its
      Length 13, with eight zero bytes after them. */
  lemma UnalignedWalk()
    ensures Scan(AttrsWire(Unaligned.attributes) + Zeros(8), 0, 13) ==
      SM.Walked([Attribute(AttrMappedAddress, 1, [0xAB]), Attribute(0x0400, 0, []), Attribute(0, 0, [])])
  {
    UnalignedSection();
    MisreadSection(AttrsWire(Unaligned.attributes) + Zeros(8));
  }
}
