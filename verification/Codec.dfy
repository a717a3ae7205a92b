/** What `core/ec/codec.cpp` writes and accepts, as functions on byte sequences.

    payload: opcode, u16 tag count, tags
    tag:     u16 (name << 1 | has children), u8 type, u32 length,
             [u16 child count, children,] data
    where `length` counts the data and the serialized children, but a tag's own child count
    is charged to its parent. */
module Codec {
  import opened Bytes
  import opened Tags

  // Wire types of core/ec/codes.h
  const CUSTOM: byte := 1
  const UINT8: byte := 2
  const UINT16: byte := 3
  const UINT32: byte := 4
  const UINT64: byte := 5
  const STRING: byte := 6
  const DOUBLE: byte := 7
  const IPV4: byte := 8
  const HASH16: byte := 9

  const HEADER_SIZE := 8
  const FLAG_ZLIB := 0x01
  const FLAG_BASE := 0x20

  // ---------------------------------------------------------------- Values

  function IntWidth(v: u64): (n: nat)
    ensures v < Pow256(n) && n <= 8
  {
    Widths();
    if v <= 0xFF then 1 else if v <= 0xFFFF then 2 else if v <= 0xFFFF_FFFF then 4 else 8
  }

  /** The type byte and the data bytes of a value. */
  function EncodeValue(value: TagValue): (byte, seq<byte>) {
    match value
    case Empty => (CUSTOM, [])
    case Opaque(data) => (CUSTOM, data)
    case Int(v) =>
      var n := IntWidth(v);
      ((if n == 1 then UINT8 else if n == 2 then UINT16 else if n == 4 then UINT32 else UINT64), ToBE(v, n))
    case Str(text) => (STRING, text + [0])
    case Hash(hash) => (HASH16, hash)
    case Ipv4(ip, port) => (IPV4, ip + ToBE(port, 2))
    case Double(digits) => (DOUBLE, digits + [0])
  }

  function DataOf(value: TagValue): seq<byte> {
    EncodeValue(value).1
  }

  /** The first `n` bytes, zero-filled on the right when there are fewer. */
  function Fixed(data: seq<byte>, n: nat): (s: seq<byte>)
    ensures |s| == n
  {
    if n <= |data| then data[..n] else data + seq(n - |data|, _ => 0)
  }

  /** The bytes before the first NUL, all of them when there is none. */
  function UpToNul(data: seq<byte>): (s: seq<byte>)
    ensures |s| <= |data| && s == data[..|s|]
    ensures 0 !in s
    ensures |s| < |data| ==> data[|s|] == 0
  {
    if data == [] || data[0] == 0 then []
    else [data[0]] + UpToNul(data[1..])
  }

  function DecodeInt(data: seq<byte>, n: nat): (v: u64)
    requires n <= 8
  {
    var v := FromBE(Fixed(data, n));
    assert v < 0x1_0000_0000_0000_0000 by { PowMonotone(n, 8); Widths(); }
    v
  }

  lemma {:induction false} PowMonotone(m: nat, n: nat)
    requires m <= n
    ensures Pow256(m) <= Pow256(n)
    decreases n - m
  {
    if m < n { PowMonotone(m + 1, n); }
  }

  function DecodeValue(typ: byte, data: seq<byte>): TagValue {
    if typ == CUSTOM then if data == [] then Empty else Opaque(data)
    else if typ == UINT8 then Int(DecodeInt(data, 1))
    else if typ == UINT16 then Int(DecodeInt(data, 2))
    else if typ == UINT32 then Int(DecodeInt(data, 4))
    else if typ == UINT64 then Int(DecodeInt(data, 8))
    else if typ == STRING then Str(UpToNul(data))
    else if typ == HASH16 then Hash(Fixed(data, 16))
    else if typ == IPV4 then Ipv4(Fixed(data, 4), DecodePort(data))
    else if typ == DOUBLE then Double(UpToNul(data))
    else Opaque(data)
  }

  function DecodePort(data: seq<byte>): u16 {
    Widths();
    if 6 <= |data| then FromBE(data[4..6]) else 0
  }

  // ---------------------------------------------------------------- Writing

  function CountField(children: seq<Tag>): nat {
    if children == [] then 0 else 2
  }

  /** Data plus serialized children of a tag, as an unbounded number. */
  function ExactLen(t: Tag): nat
    decreases t, 1
  {
    |DataOf(t.value)| + ExactLens(t.children)
  }

  function ExactLens(ts: seq<Tag>): nat
    decreases ts, 0
  {
    if ts == [] then 0
    else 7 + CountField(ts[0].children) + ExactLen(ts[0]) + ExactLens(ts[1..])
  }

  function NameWire(t: Tag): u16 {
    (t.name * 2 + if t.children == [] then 0 else 1) % TWO16
  }

  /** Name, type and length fields, with the truncating casts of the code. */
  function TagHeader(t: Tag): (s: seq<byte>)
    ensures |s| == 7
  {
    ToBE(NameWire(t), 2) + [EncodeValue(t.value).0] + ToBE(ExactLen(t) % TWO32, 4)
  }

  function ChildrenWire(t: Tag): seq<byte>
    decreases t, 1
  {
    if t.children == [] then [] else ToBE(|t.children| % TWO16, 2) + TagsWire(t.children)
  }

  function TagWire(t: Tag): seq<byte>
    decreases t, 2
  {
    TagHeader(t) + ChildrenWire(t) + DataOf(t.value)
  }

  function TagsWire(ts: seq<Tag>): seq<byte>
    decreases ts, 0
  {
    if ts == [] then [] else TagWire(ts[0]) + TagsWire(ts[1..])
  }

  function PayloadWire(p: Packet): seq<byte> {
    [p.opcode] + ToBE(|p.tags| % TWO16, 2) + TagsWire(p.tags)
  }

  /** The 8-byte header and the payload. */
  function Frame(p: Packet): seq<byte> {
    RawFrame(FLAG_BASE, PayloadWire(p))
  }

  function RawFrame(flags: u32, payload: seq<byte>): seq<byte> {
    ToBE(flags, 4) + ToBE(|payload| % TWO32, 4) + payload
  }

  // ---------------------------------------------------------------- Reading

  datatype DecodeError = Truncated | Underflow

  /** A parsed value and the position just after it. */
  datatype Parsed<+T> = Ok(value: T, pos: nat) | Bad(error: DecodeError)

  function ParseTag(buf: seq<byte>, pos: nat): (r: Parsed<Tag>)
    requires pos <= |buf|
    ensures r.Ok? ==> pos + 7 <= r.pos <= |buf|
    decreases |buf| - pos, 0, 0
  {
    if |buf| < pos + 7 then Bad(Truncated)
    else
      var nameWire := FromBE(buf[pos..pos + 2]);
      if nameWire % 2 == 0 then ParseData(buf, pos, pos + 7, [], pos + 7)
      else if |buf| < pos + 9 then Bad(Truncated)
      else
        var children := ParseTags(buf, pos + 9, FromBE(buf[pos + 7..pos + 9]));
        if children.Bad? then Bad(children.error)
        else ParseData(buf, pos, pos + 9, children.value, children.pos)
  }

  /** The end of a tag whose header is at `pos` and whose children lie in `start..end`. */
  function ParseData(buf: seq<byte>, pos: nat, start: nat, children: seq<Tag>, end: nat): (r: Parsed<Tag>)
    requires pos + 7 <= start <= end <= |buf|
    ensures r.Ok? ==> start <= end <= r.pos <= |buf| && r.value.children == children
  {
    Widths();
    var len := FromBE(buf[pos + 3..pos + 7]);
    if len < end - start then Bad(Underflow)
    else if |buf| < start + len then Bad(Truncated)
    else
      Ok(Tag(FromBE(buf[pos..pos + 2]) / 2, DecodeValue(buf[pos + 2], buf[end..start + len]), children), start + len)
  }

  function ParseTags(buf: seq<byte>, pos: nat, count: nat): (r: Parsed<seq<Tag>>)
    requires pos <= |buf|
    ensures r.Ok? ==> |r.value| == count && pos + 7 * count <= r.pos <= |buf|
    decreases |buf| - pos, 1, count
  {
    if count == 0 then Ok([], pos)
    else
      var first := ParseTag(buf, pos);
      if first.Bad? then Bad(first.error)
      else
        var rest := ParseTags(buf, first.pos, count - 1);
        if rest.Bad? then Bad(rest.error) else Ok([first.value] + rest.value, rest.pos)
  }

  function ParsePayload(buf: seq<byte>): (r: Parsed<Packet>)
    ensures r.Ok? ==> 3 <= r.pos <= |buf|
  {
    if |buf| < 3 then Bad(Truncated)
    else
      var tags := ParseTags(buf, 3, FromBE(buf[1..3]));
      if tags.Bad? then Bad(tags.error) else Ok(Packet(buf[0], tags.value), tags.pos)
  }
}
