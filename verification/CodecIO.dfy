/** The imperative codec of `core/ec/codec.cpp`: a growing byte buffer, a cursor that moves over
    a received payload, and the recursive writer and reader, each proved against `Codec`. */
module CodecIO {
  import opened Outcomes
  import opened Bytes
  import opened Tags
  import opened Codec

  /** A `QByteArray` that is appended to. */
  class ByteBuffer {
    var bytes: seq<byte>

    constructor ()
      ensures bytes == []
    {
      bytes := [];
    }

    method Append(data: seq<byte>)
      modifies this
      ensures bytes == old(bytes) + data
    {
      bytes := bytes + data;
    }

    method AppendBE(v: nat, n: nat)
      modifies this
      ensures bytes == old(bytes) + ToBE(v, n)
    {
      Append(ToBE(v, n));
    }
  }

  lemma {:induction false} LensAppend(ts: seq<Tag>, t: Tag)
    ensures ExactLens(ts + [t]) == ExactLens(ts) + 7 + CountField(t.children) + ExactLen(t)
  {
    if ts == [] {
      assert ts + [t] == [t];
    } else {
      assert (ts + [t])[1..] == ts[1..] + [t];
      LensAppend(ts[1..], t);
    }
  }

  lemma {:induction false} WiresAppend(ts: seq<Tag>, t: Tag)
    ensures TagsWire(ts + [t]) == TagsWire(ts) + TagWire(t)
  {
    hide TagWire;
    if ts == [] {
      assert ts + [t] == [t];
    } else {
      assert (ts + [t])[1..] == ts[1..] + [t];
      WiresAppend(ts[1..], t);
    }
  }

  lemma WrapAdd(x: nat, y: nat)
    ensures (x % TWO32 + y) % TWO32 == (x + y) % TWO32
    ensures (x % TWO32 + y % TWO32) % TWO32 == (x + y) % TWO32
  {
  }

  /** The length field, summed in wrapping 32-bit arithmetic. */
  method TagLen(tag: Tag) returns (n: u32)
    ensures n == ExactLen(tag) % TWO32
    decreases tag
  {
    ghost var exact := |DataOf(tag.value)|;
    n := |DataOf(tag.value)| % TWO32;
    for i := 0 to |tag.children|
      invariant exact == |DataOf(tag.value)| + ExactLens(tag.children[..i])
      invariant n == exact % TWO32
    {
      hide ExactLens, ExactLen, DataOf;
      var c := tag.children[i];
      LensAppend(tag.children[..i], c);
      assert tag.children[..i + 1] == tag.children[..i] + [c];
      n := (n + 7) % TWO32;
      WrapAdd(exact, 7);
      exact := exact + 7;
      if c.children != [] {
        n := (n + 2) % TWO32;
        WrapAdd(exact, 2);
        exact := exact + 2;
      }
      var len := TagLen(c);
      n := (n + len) % TWO32;
      WrapAdd(exact, ExactLen(c));
      exact := exact + ExactLen(c);
    }
    assert tag.children[..|tag.children|] == tag.children;
  }

  method WriteTag(out: ByteBuffer, tag: Tag)
    modifies out
    ensures out.bytes == old(out.bytes) + TagWire(tag)
    decreases tag
  {
    hide ToBE, EncodeValue, ExactLen;
    var hasChildren := tag.children != [];
    var nameWire := (tag.name * 2 + if hasChildren then 1 else 0) % TWO16;
    var (typeByte, data) := EncodeValue(tag.value);
    var len := TagLen(tag);
    out.AppendBE(nameWire, 2);
    out.Append([typeByte]);
    out.AppendBE(len, 4);
    assert out.bytes == old(out.bytes) + TagHeader(tag);
    if hasChildren {
      out.AppendBE(|tag.children| % TWO16, 2);
      ghost var base := out.bytes;
      for i := 0 to |tag.children|
        invariant out.bytes == base + TagsWire(tag.children[..i])
      {
        WiresAppend(tag.children[..i], tag.children[i]);
        assert tag.children[..i + 1] == tag.children[..i] + [tag.children[i]];
        WriteTag(out, tag.children[i]);
      }
      assert tag.children[..|tag.children|] == tag.children;
    }
    assert out.bytes == old(out.bytes) + TagHeader(tag) + ChildrenWire(tag);
    out.Append(data);
  }

  method Encode(p: Packet) returns (frame: seq<byte>)
    ensures frame == Frame(p)
  {
    hide ToBE, TagWire;
    var payload := new ByteBuffer();
    payload.Append([p.opcode]);
    payload.AppendBE(|p.tags| % TWO16, 2);
    ghost var base := payload.bytes;
    for i := 0 to |p.tags|
      invariant payload.bytes == base + TagsWire(p.tags[..i])
    {
      WiresAppend(p.tags[..i], p.tags[i]);
      assert p.tags[..i + 1] == p.tags[..i] + [p.tags[i]];
      WriteTag(payload, p.tags[i]);
    }
    assert p.tags[..|p.tags|] == p.tags;
    var out := new ByteBuffer();
    out.AppendBE(FLAG_BASE, 4);
    out.AppendBE(|payload.bytes| % TWO32, 4);
    out.Append(payload.bytes);
    frame := out.bytes;
  }

  /** A read position in a received payload. */
  class Cursor {
    const buf: seq<byte>
    var pos: nat

    ghost predicate Valid()
      reads this
    {
      pos <= |buf|
    }

    constructor (b: seq<byte>)
      ensures Valid() && buf == b && pos == 0
    {
      buf, pos := b, 0;
    }

    /** The next `n` bytes, or truncation when fewer remain. */
    method Take(n: nat) returns (r: Result<seq<byte>, DecodeError>)
      requires Valid()
      modifies this
      ensures Valid()
      ensures r == if old(pos) + n <= |buf| then Success(buf[old(pos)..old(pos) + n]) else Failure(Truncated)
      ensures pos == if r.Success? then old(pos) + n else old(pos)
    {
      if |buf| - pos < n {
        return Failure(Truncated);
      }
      r := Success(buf[pos..pos + n]);
      pos := pos + n;
    }

    /** The next `n` bytes as a big-endian number. */
    method TakeBE(n: nat) returns (r: Result<nat, DecodeError>)
      requires Valid()
      modifies this
      ensures Valid()
      ensures r == if old(pos) + n <= |buf| then Success(FromBE(buf[old(pos)..old(pos) + n])) else Failure(Truncated)
      ensures pos == if r.Success? then old(pos) + n else old(pos)
    {
      var bytes :- Take(n);
      r := Success(FromBE(bytes));
    }
  }

  /** What reading returned and where it left the cursor, as `Parsed` says it. */
  ghost predicate Agrees<T>(r: Result<T, DecodeError>, pos: nat, spec: Parsed<T>) {
    match spec
    case Ok(v, p) => r == Success(v) && pos == p
    case Bad(e) => r == Failure(e)
  }

  /** `front` followed by what `rest` parsed. */
  ghost function Prepend(front: seq<Tag>, rest: Parsed<seq<Tag>>): Parsed<seq<Tag>> {
    if rest.Ok? then Ok(front + rest.value, rest.pos) else rest
  }

  method ReadTag(cur: Cursor) returns (r: Result<Tag, DecodeError>)
    requires cur.Valid()
    modifies cur
    ensures cur.Valid()
    ensures Agrees(r, cur.pos, ParseTag(cur.buf, old(cur.pos)))
    decreases |cur.buf| - cur.pos, 0
  {
    hide DecodeValue, FromBE;
    Widths();
    ghost var start := cur.pos;
    var nameWire :- cur.TakeBE(2);
    var typ :- cur.Take(1);
    var len :- cur.TakeBE(4);

    var children: seq<Tag> := [];
    var bodyStart := cur.pos;
    if nameWire % 2 == 1 {
      var count :- cur.TakeBE(2);
      bodyStart := cur.pos;
      children :- ReadTags(cur, count);
    }

    var childrenBytes := cur.pos - bodyStart;
    if len < childrenBytes {
      return Failure(Underflow);
    }
    var data :- cur.Take(len - childrenBytes);
    r := Success(Tag(nameWire / 2, DecodeValue(typ[0], data), children));
  }

  /** The loop that both `readTag` and `decodePayload` contain. */
  method ReadTags(cur: Cursor, count: nat) returns (r: Result<seq<Tag>, DecodeError>)
    requires cur.Valid()
    modifies cur
    ensures cur.Valid()
    ensures Agrees(r, cur.pos, ParseTags(cur.buf, old(cur.pos), count))
    decreases |cur.buf| - cur.pos, 1
  {
    hide ParseTag;
    var tags: seq<Tag> := [];
    ghost var start := cur.pos;
    ghost var whole := ParseTags(cur.buf, start, count);
    assert whole.Ok? ==> [] + whole.value == whole.value;
    for i := 0 to count
      invariant cur.Valid() && start <= cur.pos
      invariant ParseTags(cur.buf, start, count) == Prepend(tags, ParseTags(cur.buf, cur.pos, count - i))
    {
      ghost var here := cur.pos;
      var t :- ReadTag(cur);
      ghost var rest := ParseTags(cur.buf, cur.pos, count - i - 1);
      assert rest.Ok? ==> tags + ([t] + rest.value) == tags + [t] + rest.value;
      tags := tags + [t];
    }
    assert tags + [] == tags;
    r := Success(tags);
  }

  method DecodePayload(payload: seq<byte>) returns (r: Result<Packet, DecodeError>)
    ensures
      match ParsePayload(payload)
      case Ok(p, _) => r == Success(p)
      case Bad(e) => r == Failure(e)
  {
    hide ParseTags, FromBE;
    var cur := new Cursor(payload);
    var opcode :- cur.Take(1);
    var count :- cur.TakeBE(2);
    var tags :- ReadTags(cur, count);
    r := Success(Packet(opcode[0], tags));
  }
}
