/** The wire format byte by byte, in plain numbers: what each field of a written tag or frame is, and
    what data of any type and length is decoded to. */
module WireFormat {
  import opened Outcomes
  import opened Bytes
  import opened Tags
  import opened Codec
  import opened RoundTrip
  import opened Framing

  function N16(a: int, b: int): int {
    0x100 * a + b
  }

  function N32(a: int, b: int, c: int, d: int): int {
    0x100_0000 * a + 0x1_0000 * b + 0x100 * c + d
  }

  /** Two and four bytes are numbers with the most significant byte first. */
  lemma BigEndian(a: byte, b: byte, c: byte, d: byte)
    ensures FromBE([a]) == a
    ensures FromBE([a, b]) == N16(a, b)
    ensures FromBE([a, b, c, d]) == N32(a, b, c, d)
  {
    assert [a, b, c, d][..3] == [a, b, c] && [a, b, c][..2] == [a, b] && [a, b][..1] == [a] && [a][..0] == [];
  }

  /** The width in bytes of an integer type, 0 for other types. */
  function IntegerWidth(typ: byte): nat {
    if typ == 2 then 1 else if typ == 3 then 2 else if typ == 4 then 4 else if typ == 5 then 8 else 0
  }

  /** `text` is what comes before the first NUL of `data`, if there is one. */
  ghost predicate CutAtNul(text: seq<byte>, data: seq<byte>) {
    text <= data && 0 !in text && (|text| < |data| ==> data[|text|] == 0)
  }

  /** What data of any length decodes to, type by type: integers take the first bytes and are filled up
      with zeros on the right, as are hashes and addresses; text and doubles end before the first NUL;
      a port needs six bytes; opaque data without bytes is Empty, and unknown types are opaque. */
  lemma {:induction false} DecodedMeaning(typ: byte, data: seq<byte>)
    ensures
      var v, w := DecodeValue(typ, data), IntegerWidth(typ);
      if w > 0 then
        v.Int? && v.v == (if |data| <= w then FromBE(data) * Pow256(w - |data|) else FromBE(data[..w]))
      else if typ == 6 then v.Str? && CutAtNul(v.text, data)
      else if typ == 7 then v.Double? && CutAtNul(v.digits, data)
      else if typ == 8 then
        && v.Ipv4?
        && (forall i :: 0 <= i < 4 ==> v.ip[i] == if i < |data| then data[i] else 0)
        && v.port == if |data| >= 6 then N16(data[4], data[5]) else 0
      else if typ == 9 then v.Hash? && forall i :: 0 <= i < 16 ==> v.hash[i] == if i < |data| then data[i] else 0
      else if typ == 1 && data == [] then v == Empty
      else v == Opaque(data)
  {
    hide FromBE, Pow256;
    if IntegerWidth(typ) > 0 {
      IntegersAreLeftJustified(data, IntegerWidth(typ));
    } else if typ == 8 && |data| >= 6 {
      assert data[4..6] == [data[4], data[5]];
      BigEndian(data[4], data[5], 0, 0);
    }
  }

  /** Text before a NUL, or without one, decodes to itself, whatever follows the NUL. */
  lemma {:induction false} DecodedText(text: seq<byte>, rest: seq<byte>)
    requires 0 !in text
    ensures DecodeValue(6, text) == DecodeValue(6, text + [0] + rest) == Str(text)
    ensures DecodeValue(7, text) == DecodeValue(7, text + [0] + rest) == Double(text)
  {
    CutIsUnique(text, text + [0] + rest, UpToNul(text + [0] + rest));
    CutIsUnique(text, text, UpToNul(text));
  }

  lemma CutIsUnique(a: seq<byte>, data: seq<byte>, b: seq<byte>)
    requires CutAtNul(a, data) && CutAtNul(b, data)
    ensures a == b
  {
    assert a == data[..|a|] && b == data[..|b|];
    assert forall i :: 0 <= i < |a| ==> data[i] == a[i];
    assert forall i :: 0 <= i < |b| ==> data[i] == b[i];
  }

  /** The type byte of a value. */
  function WireType(v: TagValue): byte {
    match v
    case Empty => 1
    case Opaque(_) => 1
    case Int(n) => if n < 0x100 then 2 else if n < 0x1_0000 then 3 else if n < 0x1_0000_0000 then 4 else 5
    case Str(_) => 6
    case Double(_) => 7
    case Ipv4(_, _) => 8
    case Hash(_) => 9
  }

  lemma TypeBytes(v: TagValue)
    ensures EncodeValue(v).0 == WireType(v)
  {
    hide ToBE;
  }

  /** The fields of a written tag, by position: twice the name plus the children bit in 16 bits, the
      type, the length in 32 bits, the child count in 16 bits if there are children. */
  lemma {:induction false} TagBytes(t: Tag)
    ensures
      var w, has := TagWire(t), t.children != [];
      && |w| >= 7
      && N16(w[0], w[1]) == (2 * t.name + if has then 1 else 0) % 0x1_0000
      && w[2] == WireType(t.value)
      && N32(w[3], w[4], w[5], w[6]) == (|w| - if has then 9 else 7) % 0x1_0000_0000
      && (has ==> |w| >= 9 && N16(w[7], w[8]) == |t.children| % 0x1_0000)
  {
    hide ToBE, FromBE, Pow256, N16, N32, DataOf, TagsWire;
    TypeBytes(t.value);
    var w := TagWire(t);
    assert At(w, 0, w);
    HeaderReadsBack(w, 0, t);
    WireLength(t);
    BigEndian(w[0], w[1], 0, 0);
    assert w[0..2] == [w[0], w[1]];
    BigEndian(w[3], w[4], w[5], w[6]);
    assert w[3..7] == [w[3], w[4], w[5], w[6]];
    if t.children != [] {
      BigEndian(w[7], w[8], 0, 0);
      assert w[7..9] == [w[7], w[8]];
    }
  }

  /** The header of a frame: the base flag 0x20 alone, and the number of payload bytes in 32 bits; then
      the opcode and the number of tags in 16 bits. */
  lemma {:induction false} FrameBytes(p: Packet)
    ensures
      var f := Frame(p);
      && |f| >= 11
      && f[..4] == [0, 0, 0, 0x20]
      && N32(f[4], f[5], f[6], f[7]) == (|f| - 8) % 0x1_0000_0000
      && f[8] == p.opcode
      && N16(f[9], f[10]) == |p.tags| % 0x1_0000
  {
    hide FromBE, Pow256, TagsWire, ToBE;
    var f := Frame(p);
    RawHeader(FLAG_BASE, PayloadWire(p), []);
    assert f + [] == f;
    PayloadHeader(p, []);
    assert PayloadWire(p) + [] == PayloadWire(p);
    assert f[..4] == [f[0], f[1], f[2], f[3]] && f[4..8] == [f[4], f[5], f[6], f[7]];
    BigEndian(f[0], f[1], f[2], f[3]);
    BigEndian(f[4], f[5], f[6], f[7]);
    assert PayloadWire(p)[1..3] == [f[9], f[10]];
    BigEndian(f[9], f[10], 0, 0);
  }

  // ---------------------------------------------------------------- Reading what nobody wrote

  /** The seven bytes in front of a tag, with any type and any length in them. */
  function HeaderBytes(name: u16, has: bool, typ: byte, len: u32): (s: seq<byte>)
    requires name < 0x8000
    ensures |s| == 7
  {
    ToBE(2 * name + if has then 1 else 0, 2) + [typ] + ToBE(len, 4)
  }

  lemma HeaderFields(buf: seq<byte>, name: u16, has: bool, typ: byte, len: u32)
    requires name < 0x8000 && HeaderBytes(name, has, typ, len) <= buf
    ensures FromBE(buf[0..2]) == 2 * name + (if has then 1 else 0) && buf[2] == typ && FromBE(buf[3..7]) == len
  {
    hide ToBE, FromBE, Pow256;
    Widths();
    FromToBE(2 * name + if has then 1 else 0, 2);
    FromToBE(len, 4);
    var h := HeaderBytes(name, has, typ, len);
    assert buf[..7] == h;
    assert buf[0..2] == h[..2] == ToBE(2 * name + if has then 1 else 0, 2);
    assert buf[2] == h[2];
    assert buf[3..7] == h[3..] == ToBE(len, 4);
  }

  /** A header that lies about type or length, in front of well-formed children: a length that does not
      even cover the children is an underflow, one that goes beyond the buffer a truncation, and with
      any other the bytes behind the children, as many as the length leaves, are decoded by the type. */
  lemma {:induction false} AnyHeader(name: u16, typ: byte, len: u32, children: seq<Tag>, tail: seq<byte>)
    requires name < 0x8000 && 0 < |children| < 0x1_0000 && AllSendable(children)
    ensures
      var kids := TagsWire(children);
      var r := ParseTag(HeaderBytes(name, true, typ, len) + ToBE(|children|, 2) + kids + tail, 0);
      if len < |kids| then r == Bad(Underflow)
      else if |tail| < len - |kids| then r == Bad(Truncated)
      else r == Ok(Tag(name, DecodeValue(typ, tail[..len - |kids|]), CanonTags(children)), 9 + len)
  {
    hide HeaderBytes, ToBE, FromBE, Pow256, TagsWire, ParseTags, DecodeValue, CanonTags;
    var kids := TagsWire(children);
    var front := HeaderBytes(name, true, typ, len) + ToBE(|children|, 2);
    var buf := front + kids + tail;
    HeaderFields(buf, name, true, typ, len);
    Widths();
    FromToBE(|children|, 2);
    assert buf[7..9] == ToBE(|children|, 2);
    assert buf[9..9 + |kids|] == kids;
    TagsReadBack(buf, 9, children);
    assert buf[9 + |kids|..] == tail;
    if |kids| <= len && len - |kids| <= |tail| {
      assert buf[9 + |kids|..9 + len] == tail[..len - |kids|];
    }
  }

  /** Likewise without children: all bytes that the length announces are data. */
  lemma {:induction false} AnyLeaf(name: u16, typ: byte, len: u32, tail: seq<byte>)
    requires name < 0x8000
    ensures
      var r := ParseTag(HeaderBytes(name, false, typ, len) + tail, 0);
      if |tail| < len then r == Bad(Truncated) else r == Ok(Tag(name, DecodeValue(typ, tail[..len]), []), 7 + len)
  {
    hide HeaderBytes, FromBE, DecodeValue;
    var buf := HeaderBytes(name, false, typ, len) + tail;
    HeaderFields(buf, name, false, typ, len);
    if len <= |tail| {
      assert buf[7..7 + len] == tail[..len];
    }
  }

  /** The first tag of a list that cannot be read decides the error of the list. */
  lemma {:induction false} FirstBadDecides(buf: seq<byte>, pos: nat, good: seq<Tag>, count: nat)
    requires At(buf, pos, TagsWire(good)) && AllSendable(good) && |good| < count
    requires ParseTag(buf, pos + |TagsWire(good)|).Bad?
    ensures ParseTags(buf, pos, count) == Bad(ParseTag(buf, pos + |TagsWire(good)|).error)
    decreases good
  {
    hide TagWire, ParseTag, CanonTag;
    if good != [] {
      AtAppend(buf, pos, TagWire(good[0]), TagsWire(good[1..]));
      TagReadsBack(buf, pos, good[0]);
      FirstBadDecides(buf, pos + |TagWire(good[0])|, good[1..], count - 1);
    }
  }

  /** So it does for the tag whose child it is, and for the payload it is in. */
  lemma {:induction false} BadTagSpoils(name: u16, typ: byte, len: u32, count: u16, good: seq<Tag>, tail: seq<byte>, opcode: byte)
    requires name < 0x8000 && |good| < count && AllSendable(good)
    ensures
      var start := HeaderBytes(name, true, typ, len) + ToBE(count, 2) + TagsWire(good);
      var bad := ParseTag(start + tail, |start|);
      bad.Bad? ==> ParseTag(start + tail, 0) == Bad(bad.error)
    ensures
      var start := [opcode] + ToBE(count, 2) + TagsWire(good);
      var bad := ParseTag(start + tail, |start|);
      bad.Bad? ==> ParsePayload(start + tail) == Bad(bad.error)
  {
    hide HeaderBytes, ToBE, FromBE, Pow256, TagsWire, ParseTags, ParseData;
    Widths();
    FromToBE(count, 2);
    var kids := TagsWire(good);
    var buf := HeaderBytes(name, true, typ, len) + ToBE(count, 2) + kids + tail;
    HeaderFields(buf, name, true, typ, len);
    assert buf[7..9] == ToBE(count, 2) && buf[9..9 + |kids|] == kids;
    if ParseTag(buf, 9 + |kids|).Bad? {
      FirstBadDecides(buf, 9, good, count);
    }
    var payload := [opcode] + ToBE(count, 2) + kids + tail;
    assert payload[1..3] == ToBE(count, 2) && payload[3..3 + |kids|] == kids;
    if ParseTag(payload, 3 + |kids|).Bad? {
      FirstBadDecides(payload, 3, good, count);
    }
  }

  // ---------------------------------------------------------------- What a frame means

  /** A complete frame whose lowest flag is set is refused as a remote error, well-formed or not; any
      other gives the packet its payload decodes to, or a remote error when it does not decode. */
  lemma {:induction false} FrameMeaning(flags: u32, payload: seq<byte>, tail: seq<byte>)
    requires |payload| < 0x1_0000_0000
    ensures
      var reply, r := ReadFrame(RawFrame(flags, payload) + tail).0, ParsePayload(payload);
      && (flags % 2 == 1 ==> reply == Failure(Remote))
      && (flags % 2 == 0 && r.Bad? ==> reply == Failure(Remote))
      && (flags % 2 == 0 && r.Ok? ==> reply == Success(r.value))
  {
    hide ParsePayload, ReadFrame, RawFrame;
    FrameBoundary(flags, payload, tail);
  }

  /** A stream that ends inside a frame is a transport error. */
  lemma {:induction false} CutFrameIsIo(flags: u32, payload: seq<byte>, k: nat)
    requires |payload| < 0x1_0000_0000 && k < |RawFrame(flags, payload)|
    ensures ReadFrame(RawFrame(flags, payload)[..k]).0 == Failure(Io)
  {
    hide ToBE, FromBE, Interpret;
    var f := RawFrame(flags, payload);
    RawHeader(flags, payload, []);
    assert f + [] == f;
    if k >= 8 {
      assert f[..k][4..8] == f[4..8];
    }
  }
}
