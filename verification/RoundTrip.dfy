/** Writing and reading back: lengths, the round trip at any depth, and the exact condition
    under which a packet survives it. */
module RoundTrip {
  import opened Bytes
  import opened Tags
  import opened Codec

  // ---------------------------------------------------------------- Lengths

  /** A tag takes 7 bytes, 2 for a child count if it has children, and its `ExactLen`. */
  lemma {:induction false} WireLength(t: Tag)
    ensures |TagWire(t)| == 7 + CountField(t.children) + ExactLen(t)
    decreases t, 1
  {
    WireLengths(t.children);
  }

  lemma {:induction false} WireLengths(ts: seq<Tag>)
    ensures |TagsWire(ts)| == ExactLens(ts)
    decreases ts, 0
  {
    if ts != [] {
      WireLength(ts[0]);
      WireLengths(ts[1..]);
    }
  }

  // ---------------------------------------------------------------- Integers

  /** An integer with fewer data bytes than its type is read as its high bytes, one with more as
      its first bytes. */
  lemma {:induction false} IntegersAreLeftJustified(data: seq<byte>, n: nat)
    ensures |data| <= n ==> FromBE(Fixed(data, n)) == FromBE(data) * Pow256(n - |data|)
    ensures |data| > n ==> FromBE(Fixed(data, n)) == FromBE(data[..n])
  {
    hide FromBE;
    if |data| < n {
      IntegersAreLeftJustified(data, n - 1);
      ZeroAppended(Fixed(data, n), Fixed(data, n - 1));
      MoveFactor(FromBE(data), Pow256(n - 1 - |data|));
    } else if |data| == n {
      assert data[..n] == data;
    }
  }

  lemma ZeroAppended(s: seq<byte>, t: seq<byte>)
    requires s == t + [0]
    ensures FromBE(s) == 0x100 * FromBE(t)
  {
    assert s[..|s| - 1] == t;
  }

  lemma MoveFactor(v: nat, p: nat)
    ensures 0x100 * (v * p) == v * (0x100 * p)
  {
  }

  /** An integer takes the narrowest of the four wire types that holds it. */
  lemma IntegersAreSmallest(n: u64)
    ensures
      var (typ, data) := EncodeValue(Int(n));
      && (typ == UINT8 <==> n < Pow256(1)) && (typ == UINT8 || typ == UINT16 <==> n < Pow256(2))
      && (typ == UINT64 <==> Pow256(4) <= n) && typ in {UINT8, UINT16, UINT32, UINT64}
      && |data| == (if typ == UINT8 then 1 else if typ == UINT16 then 2 else if typ == UINT32 then 4 else 8)
      && FromBE(data) == n
  {
    Widths();
    FromToBE(n, IntWidth(n));
  }

  // ---------------------------------------------------------------- What can be sent

  predicate ValueSendable(v: TagValue) {
    (v.Str? ==> 0 !in v.text) && (v.Double? ==> 0 !in v.digits)
  }

  /** 15-bit names, at most 65535 children and less than 2^32 bytes in every node. */
  ghost predicate Sendable(t: Tag) {
    && t.name < 0x8000
    && ValueSendable(t.value)
    && |t.children| < TWO16
    && ExactLen(t) < TWO32
    && forall i :: 0 <= i < |t.children| ==> Sendable(t.children[i])
  }

  ghost predicate AllSendable(ts: seq<Tag>) {
    forall i :: 0 <= i < |ts| ==> Sendable(ts[i])
  }

  /** An empty byte array has no wire form of its own: it reads back as `Empty`. */
  function CanonValue(v: TagValue): TagValue {
    if v == Opaque([]) then Empty else v
  }

  function CanonTag(t: Tag): Tag
    decreases t, 1
  {
    Tag(t.name, CanonValue(t.value), CanonTags(t.children))
  }

  function CanonTags(ts: seq<Tag>): (r: seq<Tag>)
    ensures |r| == |ts|
    decreases ts, 0
  {
    if ts == [] then [] else [CanonTag(ts[0])] + CanonTags(ts[1..])
  }

  // ---------------------------------------------------------------- The round trip

  lemma {:induction false} UpToNulIgnoresTheEnd(s: seq<byte>)
    ensures UpToNul(s + [0]) == UpToNul(s)
    ensures UpToNul(s) == s <==> 0 !in s
  {
    if s != [] {
      UpToNulIgnoresTheEnd(s[1..]);
      assert s[0] != 0 ==> (s + [0])[1..] == s[1..] + [0];
    }
  }

  lemma IntReadsBack(n: u64)
    ensures DecodeValue(EncodeValue(Int(n)).0, DataOf(Int(n))) == Int(n)
  {
    var w := IntWidth(n);
    FromToBE(n, w);
    assert Fixed(ToBE(n, w), w) == ToBE(n, w);
    assert DecodeInt(ToBE(n, w), w) == n;
  }

  /** A value decodes from its own type and data, in canonical form, exactly if it is not text, or the
      text of a double, with a NUL inside; such text is cut there. */
  lemma ValueReadsBack(v: TagValue)
    ensures DecodeValue(EncodeValue(v).0, DataOf(v)) == CanonValue(v) <==> ValueSendable(v)
    ensures v.Str? ==> DecodeValue(EncodeValue(v).0, DataOf(v)) == Str(UpToNul(v.text))
    ensures v.Double? ==> DecodeValue(EncodeValue(v).0, DataOf(v)) == Double(UpToNul(v.digits))
  {
    match v
    case Int(n) => IntReadsBack(n);
    case Str(text) => UpToNulIgnoresTheEnd(text);
    case Double(digits) => UpToNulIgnoresTheEnd(digits);
    case Ipv4(ip, port) =>
      Widths();
      FromToBE(port, 2);
      assert DataOf(v)[4..6] == ToBE(port, 2);
      assert Fixed(DataOf(v), 4) == ip;
    case _ =>
  }

  /** Where the parts of a written tag lie, and what its header reads as. */
  lemma HeaderReadsBack(buf: seq<byte>, pos: nat, t: Tag)
    requires At(buf, pos, TagWire(t))
    ensures pos + 7 + CountField(t.children) <= |buf|
    ensures FromBE(buf[pos..pos + 2]) == NameWire(t)
    ensures buf[pos + 2] == EncodeValue(t.value).0
    ensures FromBE(buf[pos + 3..pos + 7]) == ExactLen(t) % TWO32
    ensures t.children != [] ==>
              && FromBE(buf[pos + 7..pos + 9]) == |t.children| % TWO16
              && At(buf, pos + 9, TagsWire(t.children))
    ensures At(buf, pos + 7 + |ChildrenWire(t)|, DataOf(t.value))
  {
    hide ToBE, FromBE, Pow256, EncodeValue, DataOf;
    var h := TagHeader(t);
    AtAppend(buf, pos, h + ChildrenWire(t), DataOf(t.value));
    AtAppend(buf, pos, h, ChildrenWire(t));
    assert buf[pos..pos + 7] == h;
    Widths();
    FromToBE(NameWire(t), 2);
    FromToBE(ExactLen(t) % TWO32, 4);
    assert buf[pos..pos + 2] == h[..2] == ToBE(NameWire(t), 2);
    assert buf[pos + 2] == h[2];
    assert buf[pos + 3..pos + 7] == h[3..] == ToBE(ExactLen(t) % TWO32, 4);
    if t.children != [] {
      var n := |t.children| % TWO16;
      AtAppend(buf, pos + 7, ToBE(n, 2), TagsWire(t.children));
      FromToBE(n, 2);
      assert buf[pos + 7..pos + 9] == ToBE(n, 2);
    }
  }

  /** The name and data of a written tag read back, whatever its children were read as. */
  lemma DataReadsBack(buf: seq<byte>, pos: nat, t: Tag, children: seq<Tag>)
    requires At(buf, pos, TagWire(t))
    requires t.name < 0x8000 && ValueSendable(t.value) && ExactLen(t) < TWO32
    ensures pos + 7 + |ChildrenWire(t)| <= |buf|
    ensures ParseData(buf, pos, pos + 7 + CountField(t.children), children, pos + 7 + |ChildrenWire(t)|)
            == Ok(Tag(t.name, CanonValue(t.value), children), pos + |TagWire(t)|)
  {
    hide TagHeader, ToBE, FromBE, Pow256, EncodeValue, DecodeValue, DataOf, TagsWire, ExactLens;
    HeaderReadsBack(buf, pos, t);
    WireLength(t);
    WireLengths(t.children);
    ValueReadsBack(t.value);
    var end := pos + 7 + |ChildrenWire(t)|;
    assert buf[end..end + |DataOf(t.value)|] == DataOf(t.value);
  }

  /** Wherever a sendable tag's bytes stand, reading there gives the tag, in canonical form, and
      stops right behind them. */
  lemma {:induction false} TagReadsBack(buf: seq<byte>, pos: nat, t: Tag)
    requires At(buf, pos, TagWire(t)) && Sendable(t)
    ensures ParseTag(buf, pos) == Ok(CanonTag(t), pos + |TagWire(t)|)
    decreases t, 1
  {
    hide TagWire, ToBE, FromBE, DataOf, ParseData, ExactLen, ValueSendable, CanonValue;
    HeaderReadsBack(buf, pos, t);
    DataReadsBack(buf, pos, t, CanonTags(t.children));
    if t.children != [] {
      TagsReadBack(buf, pos + 9, t.children);
    }
  }

  lemma {:induction false} TagsReadBack(buf: seq<byte>, pos: nat, ts: seq<Tag>)
    requires At(buf, pos, TagsWire(ts)) && AllSendable(ts)
    ensures ParseTags(buf, pos, |ts|) == Ok(CanonTags(ts), pos + |TagsWire(ts)|)
    decreases ts, 0
  {
    hide TagWire, ParseTag, CanonTag;
    if ts != [] {
      AtAppend(buf, pos, TagWire(ts[0]), TagsWire(ts[1..]));
      TagReadsBack(buf, pos, ts[0]);
      TagsReadBack(buf, pos + |TagWire(ts[0])|, ts[1..]);
    }
  }

  // ---------------------------------------------------------------- The exact condition

  /** A value read from its own type and fewer data bytes than it wrote, or with a NUL inside,
      is a different value; the number missing is a multiple of 2^32. */
  lemma ValueNeedsAllItsData(v: TagValue, k: nat)
    requires k <= |DataOf(v)| && (k < |DataOf(v)| ==> k + TWO32 <= |DataOf(v)|)
    requires CanonValue(DecodeValue(EncodeValue(v).0, DataOf(v)[..k])) == CanonValue(v)
    ensures ValueSendable(v) && k == |DataOf(v)|
  {
    var d := DataOf(v);
    assert d[..|d|] == d;
    match v
    case Opaque(data) =>
    case Str(text) =>
      var u := UpToNul(d[..k]);
      assert |u| <= k && u == text;
    case Double(digits) =>
      var u := UpToNul(d[..k]);
      assert |u| <= k && u == digits;
    case _ =>
  }

  lemma SliceOfSlice(s: seq<byte>, lo: nat, hi: nat, k: nat)
    requires lo <= hi <= |s| && k <= hi - lo
    ensures s[lo..hi][..k] == s[lo..lo + k]
  {
  }

  lemma OnlySendableDataReadsBack(buf: seq<byte>, pos: nat, t: Tag, children: seq<Tag>)
    requires At(buf, pos, TagWire(t))
    requires pos + 7 + |ChildrenWire(t)| <= |buf|
    requires
      var r := ParseData(buf, pos, pos + 7 + CountField(t.children), children, pos + 7 + |ChildrenWire(t)|);
      r.Ok? && r.value.name == t.name && CanonValue(r.value.value) == CanonValue(t.value)
    ensures t.name < 0x8000 && ValueSendable(t.value) && ExactLen(t) < TWO32
  {
    hide TagHeader, ToBE, FromBE, Pow256, EncodeValue, DecodeValue, UpToNul;
    HeaderReadsBack(buf, pos, t);
    WireLength(t);
    WireLengths(t.children);
    var start, end := pos + 7 + CountField(t.children), pos + 7 + |ChildrenWire(t)|;
    var len, d := ExactLen(t) % TWO32, DataOf(t.value);
    var k := start + len - end;
    assert k <= |d|;
    SliceOfSlice(buf, end, end + |d|, k);
    assert end + k == start + len;
    ValueNeedsAllItsData(t.value, k);
  }

  /** If reading a written tag gives that tag again, up to empty byte arrays, it was sendable. */
  lemma {:induction false} OnlySendableReadsBack(buf: seq<byte>, pos: nat, t: Tag)
    requires At(buf, pos, TagWire(t))
    requires ParseTag(buf, pos).Ok? && CanonTag(ParseTag(buf, pos).value) == CanonTag(t)
    ensures Sendable(t)
    decreases t, 1
  {
    hide TagWire, FromBE, DataOf, ParseData, ToBE, ParseTags, TagsWire;
    HeaderReadsBack(buf, pos, t);
    var u := ParseTag(buf, pos).value;
    assert |u.children| == |CanonTags(u.children)| == |t.children|;
    if t.children != [] {
      OnlySendablesReadBack(buf, pos + 9, t.children);
      TagsReadBack(buf, pos + 9, t.children);
    }
    OnlySendableDataReadsBack(buf, pos, t, u.children);
  }

  lemma {:induction false} OnlySendablesReadBack(buf: seq<byte>, pos: nat, ts: seq<Tag>)
    requires At(buf, pos, TagsWire(ts))
    requires ParseTags(buf, pos, |ts|).Ok? && CanonTags(ParseTags(buf, pos, |ts|).value) == CanonTags(ts)
    ensures AllSendable(ts)
    decreases ts, 0
  {
    hide TagWire, ParseTag, CanonTag;
    if ts != [] {
      AtAppend(buf, pos, TagWire(ts[0]), TagsWire(ts[1..]));
      var us := ParseTags(buf, pos, |ts|).value;
      var first := ParseTag(buf, pos);
      var rest := ParseTags(buf, first.pos, |ts| - 1);
      assert us[0] == first.value && us[1..] == rest.value;
      assert CanonTags(us)[0] == CanonTag(us[0]) && CanonTags(us)[1..] == CanonTags(us[1..]);
      assert CanonTags(ts)[0] == CanonTag(ts[0]) && CanonTags(ts)[1..] == CanonTags(ts[1..]);
      OnlySendableReadsBack(buf, pos, ts[0]);
      TagReadsBack(buf, pos, ts[0]);
      OnlySendablesReadBack(buf, first.pos, ts[1..]);
      assert forall i :: 0 < i < |ts| ==> ts[i] == ts[1..][i - 1];
    }
  }

  // ---------------------------------------------------------------- Packets

  ghost predicate PacketSendable(p: Packet) {
    |p.tags| < TWO16 && AllSendable(p.tags)
  }

  function CanonPacket(p: Packet): Packet {
    Packet(p.opcode, CanonTags(p.tags))
  }

  ghost predicate NoEmptyBytes(t: Tag) {
    t.value != Opaque([]) && forall i :: 0 <= i < |t.children| ==> NoEmptyBytes(t.children[i])
  }

  ghost predicate NoEmptyBytesIn(ts: seq<Tag>) {
    forall i :: 0 <= i < |ts| ==> NoEmptyBytes(ts[i])
  }

  lemma {:induction false} CanonIsIdentity(t: Tag)
    ensures CanonTag(t) == t <==> NoEmptyBytes(t)
    decreases t, 1
  {
    CanonsAreIdentity(t.children);
  }

  lemma {:induction false} CanonsAreIdentity(ts: seq<Tag>)
    ensures CanonTags(ts) == ts <==> NoEmptyBytesIn(ts)
    decreases ts, 0
  {
    hide CanonTag, NoEmptyBytes;
    if ts != [] {
      CanonIsIdentity(ts[0]);
      CanonsAreIdentity(ts[1..]);
      SameByHeadAndTail(CanonTags(ts), ts);
      assert CanonTags(ts)[0] == CanonTag(ts[0]) && CanonTags(ts)[1..] == CanonTags(ts[1..]);
      assert forall i :: 0 < i < |ts| ==> ts[i] == ts[1..][i - 1];
    }
  }

  lemma SameByHeadAndTail(a: seq<Tag>, b: seq<Tag>)
    requires |a| == |b| > 0
    ensures a == b <==> a[0] == b[0] && a[1..] == b[1..]
  {
    assert a == [a[0]] + a[1..] && b == [b[0]] + b[1..];
  }

  /** Bytes behind the payload are not looked at. */
  lemma PacketReadsBack(p: Packet, rest: seq<byte>)
    requires PacketSendable(p)
    ensures ParsePayload(PayloadWire(p) + rest) == Ok(CanonPacket(p), |PayloadWire(p)|)
  {
    hide TagsWire, ToBE, FromBE, Pow256, ParseTags;
    var buf := PayloadWire(p) + rest;
    PayloadHeader(p, rest);
    TagsReadBack(buf, 3, p.tags);
  }

  lemma PayloadHeader(p: Packet, rest: seq<byte>)
    ensures
      var buf := PayloadWire(p) + rest;
      && buf[0] == p.opcode
      && FromBE(buf[1..3]) == |p.tags| % TWO16
      && At(buf, 3, TagsWire(p.tags))
  {
    hide TagsWire, ToBE, FromBE, Pow256;
    var buf, n := PayloadWire(p) + rest, |p.tags| % TWO16;
    Widths();
    FromToBE(n, 2);
    assert buf[1..3] == ToBE(n, 2);
    assert buf[3..3 + |TagsWire(p.tags)|] == TagsWire(p.tags);
  }

  /** The exact condition of the round trip, at any nesting depth: a packet comes back
      from its own payload if and only if names have 15 bits, no node has more than 65535 tags,
      text has no NUL, no byte array is empty and every tag is shorter than 2^32. */
  lemma SurvivesExactly(p: Packet)
    ensures
      var r := ParsePayload(PayloadWire(p));
      && (r.Ok? && r.value == p <==> PacketSendable(p) && NoEmptyBytesIn(p.tags))
      && (r.Ok? && r.value == CanonPacket(p) <==> PacketSendable(p))
  {
    hide TagsWire, ToBE, FromBE, Pow256, ParseTags, CanonTags;
    var w := PayloadWire(p);
    assert w + [] == w;
    PayloadHeader(p, []);
    CanonsAreIdentity(p.tags);
    CanonTwice(p.tags);
    var r := ParsePayload(w);
    if PacketSendable(p) {
      PacketReadsBack(p, []);
    } else if r.Ok? && (r.value == p || r.value == CanonPacket(p)) {
      assert |r.value.tags| == |p.tags|;
      OnlySendablesReadBack(w, 3, p.tags);
    }
  }

  lemma {:induction false} CanonTwice(ts: seq<Tag>)
    ensures CanonTags(CanonTags(ts)) == CanonTags(ts)
    decreases ts
  {
    if ts != [] {
      CanonTwice(ts[0].children);
      CanonTwice(ts[1..]);
      assert CanonTags(ts)[1..] == CanonTags(ts[1..]);
    }
  }

  /** No sendable packet's payload is the beginning of another's, so payloads can be told apart
      without looking at what follows them. */
  lemma EncodingIsPrefixFree(p: Packet, q: Packet, x: seq<byte>, y: seq<byte>)
    requires PacketSendable(p) && PacketSendable(q)
    requires PayloadWire(p) + x == PayloadWire(q) + y
    ensures CanonPacket(p) == CanonPacket(q) && PayloadWire(p) == PayloadWire(q) && x == y
  {
    hide *;
    PacketReadsBack(p, x);
    PacketReadsBack(q, y);
    var buf := PayloadWire(p) + x;
    assert PayloadWire(p) == buf[..|PayloadWire(p)|] && x == buf[|PayloadWire(p)|..];
    assert PayloadWire(q) == buf[..|PayloadWire(q)|] && y == buf[|PayloadWire(q)|..];
  }
}
