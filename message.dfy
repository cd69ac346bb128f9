/** The STUN message codec of pkg/stun/stun.go: a 20-byte header (section 5 of
    RFC 8489) followed by type/length/value attributes padded to a 4-byte
    boundary (section 14).  `Message` is the Go struct; Encode reads it and
    Decode overwrites its fields in place. */
module StunMessage {
  import opened Binary
  import opened StunErrors
  import opened StunAttributes

  const HeaderByte: nat := 20
  const TransactionIdByte: nat := 12
  const AttrBoundaryByte: nat := 4

  const BindingReq: u16 := 0x0001
  const BindingRes: u16 := 0x0101

  /** The five fields of a Message, as one value. */
  datatype MessageValue = MessageValue(
    typ: u16, length: u16, cookie: u32, tid: TransactionId, attributes: seq<Attribute>)

  /** NewMessage, with the transaction id that crypto/rand would draw passed in. */
  function NewMessage(req: u16, tid: TransactionId): (m: MessageValue)
    ensures m.typ == req && m.length == 0 && m.cookie == MagicCookie && m.tid == tid && m.attributes == []
    ensures WellFormed(m)
  {
    MessageValue(req, 0, MagicCookie, tid, [])
  }

  // ================================================================ wire format

  function HeaderWire(typ: u16, length: u16, cookie: u32, tid: TransactionId): (w: seq<byte>)
    ensures |w| == HeaderByte
  {
    PutUint16(typ) + PutUint16(length) + PutUint32(cookie) + tid
  }

  /** One attribute on the wire: type, Length, the value bytes as stored, then
      the padding that Length (not the value's real size) calls for. */
  function AttrWire(a: Attribute): (w: seq<byte>)
    ensures |w| == 4 + |a.value| + Pad(a.length)
  {
    PutUint16(a.typ) + PutUint16(a.length) + a.value + Zeros(Pad(a.length))
  }

  function AttrsWire(atts: seq<Attribute>): seq<byte> {
    if atts == [] then [] else AttrWire(atts[0]) + AttrsWire(atts[1..])
  }

  /** The bytes Encode produces for a message. */
  function Wire(m: MessageValue): (w: seq<byte>)
    ensures |w| >= HeaderByte && w[..HeaderByte] == HeaderWire(m.typ, m.length, m.cookie, m.tid)
  {
    HeaderWire(m.typ, m.length, m.cookie, m.tid) + AttrsWire(m.attributes)
  }

  /** Space an attribute takes in the attribute section: 4 bytes of type and
      length, then the value rounded up to a multiple of 4. */
  function AttrsSize(atts: seq<Attribute>): (n: nat)
    ensures n % 4 == 0
  {
    if atts == [] then 0
    else
      var head := RoundUp4(atts[0].length);
      var tail := AttrsSize(atts[1..]);
      AlignedSum(head, tail);
      4 + head + tail
  }

  lemma AlignedSum(a: nat, b: nat)
    requires a % 4 == 0 && b % 4 == 0
    ensures (4 + a + b) % 4 == 0
  {
  }

  /** Every attribute's Length is the size of its value. */
  ghost predicate LengthsMatch(atts: seq<Attribute>) {
    forall i :: 0 <= i < |atts| ==> |atts[i].value| == atts[i].length
  }

  /** The message Length is the size of the attribute section.  Encode copies
      Length and never computes it, so this is what a caller must arrange. */
  ghost predicate WellFormed(m: MessageValue) {
    LengthsMatch(m.attributes) && m.length == AttrsSize(m.attributes)
  }

  lemma {:induction false} AttrsWireAppend(atts: seq<Attribute>, a: Attribute)
    ensures AttrsWire(atts + [a]) == AttrsWire(atts) + AttrWire(a)
  {
    if atts == [] {
      assert atts + [a] == [a];
    } else {
      assert (atts + [a])[1..] == atts[1..] + [a];
      AttrsWireAppend(atts[1..], a);
    }
  }

  /** Padding: when every Length is its value's size, the attribute section is
      exactly AttrsSize bytes long, a multiple of four. */
  lemma {:induction false} AttrsWireSize(atts: seq<Attribute>)
    requires LengthsMatch(atts)
    ensures |AttrsWire(atts)| == AttrsSize(atts) && |AttrsWire(atts)| % 4 == 0
  {
    if atts != [] {
      AttrsWireSize(atts[1..]);
    }
  }

  // ================================================================ decoding, as functions

  /** Outcome of walking the attribute section: the attributes, or a slice
      out of range (a Go runtime panic). */
  datatype Walk = Walked(attrs: seq<Attribute>) | OutOfRange

  function Prepend(prefix: seq<Attribute>, w: Walk): Walk {
    match w
    case Walked(xs) => Walked(prefix + xs)
    case OutOfRange => OutOfRange
  }

  /** Value length field of the attribute that starts at `index`. */
  function AttrLen(sec: seq<byte>, index: nat): nat
    requires index + 4 <= |sec|
  {
    Uint16(sec[index + 2..index + 4])
  }

  /** The attribute that starts at `index` has its type, length and value inside `sec`. */
  predicate AttrFits(sec: seq<byte>, index: nat) {
    index + 4 <= |sec| && index + 4 + AttrLen(sec, index) <= |sec|
  }

  function AttrAt(sec: seq<byte>, index: nat): (a: Attribute)
    requires AttrFits(sec, index)
    ensures |a.value| == a.length
  {
    var len := AttrLen(sec, index);
    Attribute(Uint16(sec[index..index + 2]), Uint16(sec[index + 2..index + 4]), sec[index + 4..index + 4 + len])
  }

  /** Every attribute of the section, duplicates included, as the cursor meets
      them: each step moves from `index` past type, length, value and padding;
      the walk stops at the first cursor position not below `limit`. */
  function Scan(sec: seq<byte>, index: nat, limit: nat): Walk
    decreases limit - index
  {
    if index >= limit then Walked([])
    else if !AttrFits(sec, index) then OutOfRange
    else
      var len := AttrLen(sec, index);
      Prepend([AttrAt(sec, index)], Scan(sec, index + 4 + len + Pad(len), limit))
  }

  /** The set of attribute types in a list. */
  function Types(atts: seq<Attribute>): set<u16> {
    set i | 0 <= i < |atts| :: atts[i].typ
  }

  /** The first attribute of each type, in order: what survives the `dup` map. */
  function FirstOccurrences(atts: seq<Attribute>): seq<Attribute> {
    if atts == [] then []
    else
      var init := atts[..|atts| - 1];
      var last := atts[|atts| - 1];
      FirstOccurrences(init) + (if last.typ in Types(init) then [] else [last])
  }

  /** The attribute list Decode builds from a header and the bytes after it. */
  function DecodeAttributes(data: seq<byte>): Walk
    requires |data| >= HeaderByte
  {
    var limit := Uint16(data[2..4]);
    if limit > 0 then Prepend([ZeroAttribute], KeepFirst(Scan(data[HeaderByte..], 0, limit)))
    else Walked([])
  }

  function KeepFirst(w: Walk): Walk {
    match w
    case Walked(xs) => Walked(FirstOccurrences(xs))
    case OutOfRange => OutOfRange
  }

  datatype Decoding = TooShort | Panicked | Decoded(m: MessageValue)

  /** What Decode does with a buffer, as a function. */
  function DecodeSpec(data: seq<byte>): Decoding {
    if |data| < HeaderByte then TooShort
    else
      match DecodeAttributes(data)
      case OutOfRange => Panicked
      case Walked(atts) =>
        Decoded(MessageValue(Uint16(data[0..2]), Uint16(data[2..4]), Uint32(data[4..8]), data[8..20], atts))
  }

  // ================================================================ the Message struct

  class Message {
    var typ: u16
    var length: u16
    var cookie: u32
    var tid: TransactionId
    var attributes: seq<Attribute>

    function Value(): MessageValue
      reads this
    {
      MessageValue(typ, length, cookie, tid, attributes)
    }

    /** The zero value `Message{}`. */
    constructor Zero()
      ensures Value() == MessageValue(0, 0, 0, [0, 0, 0, 0, 0, 0, 0, 0, 0, 0, 0, 0], [])
    {
      typ, length, cookie := 0, 0, 0;
      tid := [0, 0, 0, 0, 0, 0, 0, 0, 0, 0, 0, 0];
      attributes := [];
    }

    constructor New(req: u16, id: TransactionId)
      ensures Value() == NewMessage(req, id)
    {
      typ, length, cookie, tid, attributes := req, 0, MagicCookie, id, [];
    }

    /** Message.Encode: header fields big-endian, then every attribute with its
        padding.  Writes to a bytes.Buffer never fail, so no error is returned. */
    method Encode() returns (out: seq<byte>)
      ensures out == Wire(Value())
    {
      out := PutUint16(typ);
      out := out + PutUint16(length);
      out := out + PutUint32(cookie);
      out := out + tid;
      ghost var header := out;
      assert header == HeaderWire(typ, length, cookie, tid);
      var atts := attributes;
      for i := 0 to |atts|
        invariant out == header + AttrsWire(atts[..i])
      {
        var bytes := EncodeAttribute(atts[i]);
        assert AttrsWire(atts[..i + 1]) == AttrsWire(atts[..i]) + bytes by {
          AttrsWireAppend(atts[..i], atts[i]);
          assert atts[..i + 1] == atts[..i] + [atts[i]];
        }
        out := out + bytes;
      }
      assert atts[..|atts|] == atts;
    }

    /** Message.Decode: the header fields are assigned without any check, then
        the attribute section is walked from byte 20 while the cursor is below
        Length, keeping the first attribute of each type. */
    method Decode(data: seq<byte>) returns (s: Status)
      modifies this
      ensures DecodeSpec(data) == TooShort <==> s == Err(HeaderTooShort)
      ensures s == Err(HeaderTooShort) ==> unchanged(this)
      ensures DecodeSpec(data).Decoded? <==> s == Ok
      ensures s == Ok ==> Value() == DecodeSpec(data).m
      ensures DecodeSpec(data) == Panicked <==> s == Panic
      ensures s == Panic ==> attributes == old(attributes)
      ensures s == Panic ==>
        typ == Uint16(data[0..2]) && length == Uint16(data[2..4]) && cookie == Uint32(data[4..8]) && tid == data[8..20]
    {
      if |data| < HeaderByte {
        return Err(HeaderTooShort);
      }
      typ := Uint16(data[..2]);
      length := Uint16(data[2..4]);
      cookie := Uint32(data[4..8]);
      var id: seq<byte> := [];
      for i := 0 to TransactionIdByte
        invariant id == data[8..8 + i]
      {
        id := id + [data[i + 8]];
      }
      tid := id;
      assert data[..2] == data[0..2];

      if length > 0 {
        var walked := DecodeAttributeSection(data[HeaderByte..], length);
        if walked.OutOfRange? {
          return Panic;
        }
        attributes := walked.attrs;
      } else {
        attributes := [];
      }
      return Ok;
    }
  }

  /** One turn of Encode's attribute loop: type, Length, the value, and then
      zero bytes up to the next boundary after Length bytes. */
  method EncodeAttribute(attr: Attribute) returns (out: seq<byte>)
    ensures out == AttrWire(attr)
  {
    out := PutUint16(attr.typ);
    out := out + PutUint16(attr.length);
    var value := attr.value;
    var len: nat := attr.length;
    if len % AttrBoundaryByte != 0 {
      var padBytes := AttrBoundaryByte - len % AttrBoundaryByte;
      assert padBytes == Pad(len);
      value := value + Zeros(padBytes);
    } else {
      assert value == attr.value + Zeros(Pad(len));
    }
    out := out + value;
  }

  /** The attribute loop of Message.Decode, on the bytes after the header: the
      cursor starts at 0 and the loop runs while it is below Length (`limit`).
      Each turn reads type and length, slices the value, moves past value and
      padding, and appends the attribute unless its type is already in `dup`.
      The list starts with one zero-valued attribute (`make(Attributes, 1)`).
      A slice past the end of the bytes is a runtime panic: OutOfRange. */
  method DecodeAttributeSection(sec: seq<byte>, limit: nat) returns (w: Walk)
    requires limit > 0
    ensures w == Prepend([ZeroAttribute], KeepFirst(Scan(sec, 0, limit)))
  {
    var attrs := [ZeroAttribute];
    var index := 0;
    var dup: map<u16, bool> := map[];
    ghost var scanned: seq<Attribute> := [];
    PrependNothing(Scan(sec, 0, limit));
    while index < limit
      invariant index % AttrBoundaryByte == 0
      invariant Scan(sec, 0, limit) == Prepend(scanned, Scan(sec, index, limit))
      invariant attrs == [ZeroAttribute] + FirstOccurrences(scanned)
      invariant dup.Keys == Types(scanned)
      decreases limit - index
    {
      ghost var start := index;
      var attr := ZeroAttribute;
      if |sec| < index + 2 {
        ScanOutOfRange(sec, start, limit, scanned);
        return OutOfRange;
      }
      var aType := Uint16(sec[index..index + 2]);
      attr := attr.(typ := aType);
      index := index + 2;

      if |sec| < index + 2 {
        ScanOutOfRange(sec, start, limit, scanned);
        return OutOfRange;
      }
      var aLen := Uint16(sec[index..index + 2]);
      attr := attr.(length := aLen);
      var len: nat := aLen;
      var pad := 0;
      if len % AttrBoundaryByte != 0 {
        pad := AttrBoundaryByte - len % AttrBoundaryByte;
      }
      assert pad == Pad(len);
      index := index + 2;

      if |sec| < index + len {
        ScanOutOfRange(sec, start, limit, scanned);
        return OutOfRange;
      }
      var val := sec[index..index + len];
      attr := attr.(value := val);
      index := index + (len + pad);

      assert AttrFits(sec, start) && attr == AttrAt(sec, start) && len == AttrLen(sec, start);
      ScanStep(sec, start, limit, scanned, attr, index);
      KeepStep(attrs, scanned, attr);
      DupStep(dup, scanned, attr);
      scanned := scanned + [attr];
      if aType in dup {
        continue;
      }
      dup := dup[aType := true];
      attrs := attrs + [attr];
    }
    ScanDone(sec, index, limit, scanned);
    return Walked(attrs);
  }

  /** The list the loop keeps follows FirstOccurrences one attribute at a time. */
  lemma KeepStep(attrs: seq<Attribute>, scanned: seq<Attribute>, a: Attribute)
    requires attrs == [ZeroAttribute] + FirstOccurrences(scanned)
    ensures a.typ in Types(scanned) ==> attrs == [ZeroAttribute] + FirstOccurrences(scanned + [a])
    ensures a.typ !in Types(scanned) ==> attrs + [a] == [ZeroAttribute] + FirstOccurrences(scanned + [a])
  {
    FirstOccurrencesAppend(scanned, a);
    if a.typ in Types(scanned) {
      assert FirstOccurrences(scanned) + [] == FirstOccurrences(scanned);
    }
  }

  /** The `dup` map holds exactly the types seen so far. */
  lemma DupStep(dup: map<u16, bool>, scanned: seq<Attribute>, a: Attribute)
    requires dup.Keys == Types(scanned)
    ensures a.typ in dup <==> a.typ in Types(scanned)
    ensures a.typ in dup ==> dup.Keys == Types(scanned + [a])
    ensures a.typ !in dup ==> dup[a.typ := true].Keys == Types(scanned + [a])
  {
    TypesAppend(scanned, a);
  }

  lemma PrependNothing(w: Walk)
    ensures Prepend([], w) == w
  {
    match w {
      case Walked(xs) => assert [] + xs == xs;
      case OutOfRange =>
    }
  }

  /** A cursor below the limit at which no attribute fits ends the walk in a panic. */
  lemma ScanOutOfRange(sec: seq<byte>, index: nat, limit: nat, scanned: seq<Attribute>)
    requires index < limit && !AttrFits(sec, index)
    ensures Prepend(scanned, Scan(sec, index, limit)) == OutOfRange
  {
  }

  /** A cursor at or past the limit ends the walk with what was scanned. */
  lemma ScanDone(sec: seq<byte>, index: nat, limit: nat, scanned: seq<Attribute>)
    requires index >= limit
    ensures Prepend(scanned, Scan(sec, index, limit)) == Walked(scanned)
  {
    assert scanned + [] == scanned;
  }

  /** One turn of the attribute loop is one step of Scan. */
  lemma ScanStep(sec: seq<byte>, start: nat, limit: nat, scanned: seq<Attribute>, a: Attribute, next: nat)
    requires start < limit && AttrFits(sec, start) && a == AttrAt(sec, start)
    requires next == start + 4 + AttrLen(sec, start) + Pad(AttrLen(sec, start))
    ensures Prepend(scanned, Scan(sec, start, limit)) == Prepend(scanned + [a], Scan(sec, next, limit))
    ensures start % 4 == 0 ==> next % 4 == 0
  {
    match Scan(sec, next, limit) {
      case Walked(xs) => assert scanned + ([a] + xs) == (scanned + [a]) + xs;
      case OutOfRange =>
    }
    AlignedStep(start, AttrLen(sec, start));
  }

  /** The cursor moves by a multiple of four, so it stays aligned. */
  lemma AlignedStep(start: nat, len: nat)
    ensures start % 4 == 0 ==> (start + 4 + len + Pad(len)) % 4 == 0
  {
  }

  lemma TypesAppend(atts: seq<Attribute>, a: Attribute)
    ensures Types(atts + [a]) == Types(atts) + {a.typ}
  {
    var xs := atts + [a];
    assert xs[|atts|] == a;
    forall t | t in Types(atts) ensures t in Types(xs) {
      var i :| 0 <= i < |atts| && atts[i].typ == t;
      assert xs[i] == atts[i];
    }
  }

  lemma FirstOccurrencesAppend(atts: seq<Attribute>, a: Attribute)
    ensures FirstOccurrences(atts + [a]) ==
      FirstOccurrences(atts) + (if a.typ in Types(atts) then [] else [a])
  {
    var xs := atts + [a];
    assert xs[..|xs| - 1] == atts;
  }

  // ================================================================ properties

  /** `w` sits in `sec` from position `start` on. */
  ghost predicate BytesAt(sec: seq<byte>, start: nat, w: seq<byte>) {
    start + |w| <= |sec| && forall i {:trigger w[i]} :: 0 <= i < |w| ==> sec[start + i] == w[i]
  }

  /** Bytes placed one after the other sit one after the other. */
  lemma BytesAtSplit(sec: seq<byte>, start: nat, x: seq<byte>, y: seq<byte>)
    requires BytesAt(sec, start, x + y)
    ensures BytesAt(sec, start, x) && BytesAt(sec, start + |x|, y)
  {
    forall i | 0 <= i < |x| ensures sec[start + i] == x[i] {
      assert (x + y)[i] == x[i];
    }
    forall i | 0 <= i < |y| ensures sec[start + |x| + i] == y[i] {
      assert (x + y)[|x| + i] == y[i];
    }
  }

  lemma BytesAtSlice(sec: seq<byte>, start: nat, w: seq<byte>)
    requires BytesAt(sec, start, w)
    ensures sec[start..start + |w|] == w
  {
  }

  /** The walk over an encoded attribute list, wherever it sits in the buffer,
      finds exactly those attributes when every Length is its value's size and
      the limit is where the list ends. */
  lemma {:induction false} ScanWire(sec: seq<byte>, start: nat, atts: seq<Attribute>, limit: nat)
    requires LengthsMatch(atts) && BytesAt(sec, start, AttrsWire(atts))
    requires limit == start + AttrsSize(atts)
    ensures Scan(sec, start, limit) == Walked(atts)
    decreases |atts|
  {
    if atts != [] {
      var a, tail := atts[0], atts[1..];
      var next := start + |AttrWire(a)|;
      WireHead(sec, start, atts, limit);
      assert Scan(sec, next, limit) == Walked(tail) by {
        ScanWire(sec, next, tail, limit);
      }
      ScanFirst(sec, start, limit, a, next);
      assert [a] + tail == atts;
    }
  }

  /** The first attribute of an encoded list and the list after it, each in
      place, with the limit still where the list ends. */
  lemma WireHead(sec: seq<byte>, start: nat, atts: seq<Attribute>, limit: nat)
    requires atts != [] && LengthsMatch(atts) && BytesAt(sec, start, AttrsWire(atts))
    requires limit == start + AttrsSize(atts)
    ensures var next, tail := start + |AttrWire(atts[0])|, atts[1..];
      |atts[0].value| == atts[0].length && LengthsMatch(tail) &&
      BytesAt(sec, start, AttrWire(atts[0])) && BytesAt(sec, next, AttrsWire(tail)) &&
      start < limit && limit == next + AttrsSize(tail)
  {
    LengthsMatchTail(atts);
    assert AttrsWire(atts) == AttrWire(atts[0]) + AttrsWire(atts[1..]);
    BytesAtSplit(sec, start, AttrWire(atts[0]), AttrsWire(atts[1..]));
    assert AttrsSize(atts) == 4 + RoundUp4(atts[0].length) + AttrsSize(atts[1..]);
  }

  lemma LengthsMatchTail(atts: seq<Attribute>)
    requires atts != [] && LengthsMatch(atts)
    ensures |atts[0].value| == atts[0].length && LengthsMatch(atts[1..])
  {
    forall i | 0 <= i < |atts[1..]| ensures |atts[1..][i].value| == atts[1..][i].length {
      assert atts[1..][i] == atts[i + 1];
    }
  }

  /** At an attribute written in full, the walk reads it and moves past it. */
  lemma ScanFirst(sec: seq<byte>, start: nat, limit: nat, a: Attribute, next: nat)
    requires |a.value| == a.length && BytesAt(sec, start, AttrWire(a)) && start < limit
    requires next == start + |AttrWire(a)|
    ensures Scan(sec, start, limit) == Prepend([a], Scan(sec, next, limit))
  {
    AttrWireRead(sec, start, a);
  }

  /** An attribute written at `start` is read back there, and the cursor then
      moves past it. */
  lemma AttrWireRead(sec: seq<byte>, start: nat, a: Attribute)
    requires |a.value| == a.length && BytesAt(sec, start, AttrWire(a))
    ensures AttrFits(sec, start) && AttrAt(sec, start) == a
    ensures start + 4 + AttrLen(sec, start) + Pad(AttrLen(sec, start)) == start + |AttrWire(a)|
  {
    var t, l := PutUint16(a.typ), PutUint16(a.length);
    assert AttrWire(a) == t + (l + (a.value + Zeros(Pad(a.length))));
    BytesAtSplit(sec, start, t, l + (a.value + Zeros(Pad(a.length))));
    BytesAtSplit(sec, start + 2, l, a.value + Zeros(Pad(a.length)));
    BytesAtSplit(sec, start + 4, a.value, Zeros(Pad(a.length)));
    BytesAtSlice(sec, start, t);
    BytesAtSlice(sec, start + 2, l);
    BytesAtSlice(sec, start + 4, a.value);
    Uint16OfPut(a.typ);
    Uint16OfPut(a.length);
  }

  /** The attribute list Decode keeps for a message whose attributes were `atts`. */
  function Kept(atts: seq<Attribute>): seq<Attribute> {
    if atts == [] then [] else [ZeroAttribute] + FirstOccurrences(atts)
  }

  /** Round trip: when every Length is its value's size and the message Length
      is the size of the attribute section, decoding the encoded message, with
      anything after it in the buffer, restores type, Length, cookie and
      transaction id, and gives the zero placeholder followed by the first
      attribute of each type, in order. */
  lemma DecodeEncode(m: MessageValue, rest: seq<byte>)
    requires WellFormed(m)
    ensures DecodeSpec(Wire(m) + rest) == Decoded(m.(attributes := Kept(m.attributes)))
  {
    var data := Wire(m) + rest;
    var h := HeaderWire(m.typ, m.length, m.cookie, m.tid);
    var aw := AttrsWire(m.attributes);
    assert data == h + aw + rest;
    AttrsWireSize(m.attributes);
    assert data[0..2] == PutUint16(m.typ);
    assert data[2..4] == PutUint16(m.length);
    assert data[4..8] == PutUint32(m.cookie);
    assert data[8..20] == m.tid;
    Uint16OfPut(m.typ);
    Uint16OfPut(m.length);
    Uint32OfPut(m.cookie);
    var sec := data[HeaderByte..];
    assert BytesAt(sec, 0, aw + rest) by {
      assert sec == aw + rest;
    }
    BytesAtSplit(sec, 0, aw, rest);
    ScanWire(sec, 0, m.attributes, AttrsSize(m.attributes));
    if m.attributes == [] {
      assert m.length == 0;
    } else {
      assert AttrsSize(m.attributes) > 0;
    }
  }

  /** Length zero decodes to an empty list; any other Length that decodes puts
      the zero placeholder first. */
  lemma DecodedPlaceholder(data: seq<byte>)
    requires DecodeSpec(data).Decoded?
    ensures var m := DecodeSpec(data).m;
      (m.length == 0 <==> m.attributes == []) &&
      (m.length != 0 ==> m.attributes[0] == ZeroAttribute)
  {
  }

  /** Lookup in a list with one attribute appended: the appended one is found
      only when no earlier attribute has the type. */
  lemma {:induction false} ExtractAppend(xs: seq<Attribute>, a: Attribute, t: u16)
    ensures Extract(xs + [a], t) ==
      if t in Types(xs) then Extract(xs, t)
      else if a.typ == t then Lookup(a, true)
      else Lookup(ZeroAttribute, false)
  {
    if xs == [] {
      assert xs + [a] == [a];
    } else {
      assert (xs + [a])[0] == xs[0];
      assert (xs + [a])[1..] == xs[1..] + [a];
      assert t in Types(xs) <==> xs[0].typ == t || t in Types(xs[1..]) by {
        if t in Types(xs) && xs[0].typ != t {
          var i :| 0 <= i < |xs| && xs[i].typ == t;
          assert xs[1..][i - 1].typ == t;
        }
        if t in Types(xs[1..]) {
          var i :| 0 <= i < |xs[1..]| && xs[1..][i].typ == t;
          assert xs[i + 1].typ == t;
        }
      }
      ExtractAppend(xs[1..], a, t);
    }
  }

  /** De-duplication keeps every type that occurs. */
  lemma {:induction false} TypesFirstOccurrences(xs: seq<Attribute>)
    ensures Types(FirstOccurrences(xs)) == Types(xs)
  {
    if xs != [] {
      var init, last := xs[..|xs| - 1], xs[|xs| - 1];
      assert xs == init + [last];
      TypesFirstOccurrences(init);
      TypesAppend(init, last);
      if last.typ !in Types(init) {
        TypesAppend(FirstOccurrences(init), last);
      } else {
        assert FirstOccurrences(init) + [] == FirstOccurrences(init);
      }
    }
  }

  /** No two attributes of a list have the same type. */
  ghost predicate DistinctTypes(xs: seq<Attribute>) {
    forall i, j :: 0 <= i < j < |xs| ==> xs[i].typ != xs[j].typ
  }

  /** The `dup` map leaves at most one attribute of each type. */
  lemma {:induction false} FirstOccurrencesDistinct(xs: seq<Attribute>)
    ensures DistinctTypes(FirstOccurrences(xs))
  {
    if xs != [] {
      var init, last := xs[..|xs| - 1], xs[|xs| - 1];
      FirstOccurrencesDistinct(init);
      if last.typ !in Types(init) {
        var f := FirstOccurrences(init);
        TypesFirstOccurrences(init);
        forall i | 0 <= i < |f| ensures f[i].typ != last.typ {
          assert f[i].typ in Types(f);
        }
        var g := f + [last];
        forall i, j | 0 <= i < j < |g| ensures g[i].typ != g[j].typ {
          if j < |f| {
            assert g[i] == f[i] && g[j] == f[j];
          } else {
            assert g[i] == f[i] && g[j] == last;
          }
        }
      } else {
        assert FirstOccurrences(init) + [] == FirstOccurrences(init);
      }
    }
  }

  /** Dropping later duplicates changes no lookup: Extract sees only the first
      attribute of each type. */
  lemma {:induction false} ExtractFirstOccurrences(xs: seq<Attribute>, t: u16)
    ensures Extract(FirstOccurrences(xs), t) == Extract(xs, t)
  {
    if xs != [] {
      var init, last := xs[..|xs| - 1], xs[|xs| - 1];
      var f := FirstOccurrences(init);
      assert xs == init + [last];
      ExtractFirstOccurrences(init, t);
      TypesFirstOccurrences(init);
      ExtractAppend(init, last, t);
      if last.typ in Types(init) {
        assert FirstOccurrences(xs) == f + [];
        assert f + [] == f;
        if t !in Types(init) {
          assert Extract(f, t) == Lookup(ZeroAttribute, false);
        }
      } else {
        ExtractAppend(f, last, t);
        if t !in Types(init) {
          assert t !in Types(f);
          assert Extract(f, t) == Lookup(ZeroAttribute, false);
        }
      }
    }
  }

  /** After a round trip every lookup of a type other than the reserved 0x0000
      finds what it found in the message that was encoded. */
  lemma DecodeEncodeLookup(m: MessageValue, rest: seq<byte>, t: u16)
    requires WellFormed(m) && t != AttrReserved
    ensures DecodeSpec(Wire(m) + rest).Decoded? &&
      Extract(DecodeSpec(Wire(m) + rest).m.attributes, t) == Extract(m.attributes, t)
  {
    DecodeEncode(m, rest);
    ExtractFirstOccurrences(m.attributes, t);
    if m.attributes != [] {
      ExtractSkipsOtherTypes([ZeroAttribute], FirstOccurrences(m.attributes), t);
    }
  }

  /** The placeholder answers a lookup of the reserved type 0x0000 with a zero
      attribute, in any decoded message whose Length is not zero. */
  lemma PlaceholderFound(data: seq<byte>)
    requires DecodeSpec(data).Decoded? && DecodeSpec(data).m.length != 0
    ensures Extract(DecodeSpec(data).m.attributes, AttrReserved) == Lookup(ZeroAttribute, true)
  {
    DecodedPlaceholder(data);
  }

  /** Decode validates neither the message type nor the magic cookie: putting
      other bytes there changes only those two fields of the outcome. */
  lemma HeaderNotValidated(data: seq<byte>, typ: u16, cookie: u32)
    requires |data| >= HeaderByte
    ensures var other := PutUint16(typ) + data[2..4] + PutUint32(cookie) + data[8..];
      DecodeSpec(other) ==
        match DecodeSpec(data)
        case Decoded(m) => Decoded(m.(typ := typ, cookie := cookie))
        case d => d
  {
    var other := PutUint16(typ) + data[2..4] + PutUint32(cookie) + data[8..];
    assert other[0..2] == PutUint16(typ) && other[2..4] == data[2..4];
    assert other[4..8] == PutUint32(cookie) && other[8..20] == data[8..20];
    assert other[HeaderByte..] == data[HeaderByte..];
    Uint16OfPut(typ);
    Uint32OfPut(cookie);
  }

  /** The cursor is compared with Length only at the top of the loop, so an
      attribute that starts inside Length is read in full whenever the buffer
      holds it, even when its value runs past Length. */
  lemma AttributeMayPassLength(data: seq<byte>)
    requires |data| >= HeaderByte
    requires var sec, limit := data[HeaderByte..], Uint16(data[2..4]);
      0 < limit && AttrFits(sec, 0) && limit <= 4 + AttrLen(sec, 0) + Pad(AttrLen(sec, 0))
    ensures DecodeSpec(data).Decoded?
    ensures DecodeSpec(data).m.attributes == [ZeroAttribute, AttrAt(data[HeaderByte..], 0)]
  {
    var sec, limit := data[HeaderByte..], Uint16(data[2..4]);
    var a := AttrAt(sec, 0);
    assert Scan(sec, 0, limit) == Walked([a]);
    assert FirstOccurrences([a]) == [a];
  }
}
