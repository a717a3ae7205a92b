/** What is known of any bytes the decoder accepts: nothing depends on bytes it did not consume,
    every truncation is reported, the number of tags is bounded by the bytes, and writing the
    result again is a normal form. */
module Acceptance {
  import opened Bytes
  import opened Tags
  import opened Codec
  import opened RoundTrip

  // ---------------------------------------------------------------- Truncation

  /** Reading on a prefix: what succeeds there succeeds with more bytes, and what needs bytes
      behind the cut reports truncation, never an underflow or a shorter value. */
  lemma {:induction false} TagOnPrefix(cut: seq<byte>, buf: seq<byte>, pos: nat)
    requires cut <= buf && pos <= |cut|
    ensures
      var r, s := ParseTag(buf, pos), ParseTag(cut, pos);
      && (r.Ok? ==> s == if r.pos <= |cut| then r else Bad(Truncated))
      && (s.Ok? ==> r == s)
    decreases |buf| - pos, 0, 0
  {
    hide DecodeValue, FromBE, ParseTags;
    if pos + 7 <= |cut| {
      assert cut[pos..pos + 2] == buf[pos..pos + 2];
      if FromBE(buf[pos..pos + 2]) % 2 == 0 {
        DataOnPrefix(cut, buf, pos, pos + 7, [], pos + 7);
      } else if pos + 9 <= |cut| {
        assert cut[pos + 7..pos + 9] == buf[pos + 7..pos + 9];
        var count := FromBE(buf[pos + 7..pos + 9]);
        TagsOnPrefix(cut, buf, pos + 9, count);
        var children := ParseTags(buf, pos + 9, count);
        if children.Ok? && children.pos <= |cut| {
          DataOnPrefix(cut, buf, pos, pos + 9, children.value, children.pos);
        }
      }
    }
  }

  lemma DataOnPrefix(cut: seq<byte>, buf: seq<byte>, pos: nat, start: nat, children: seq<Tag>, end: nat)
    requires cut <= buf && pos + 7 <= start <= end <= |cut|
    ensures
      var r, s := ParseData(buf, pos, start, children, end), ParseData(cut, pos, start, children, end);
      && (r.Ok? ==> s == if r.pos <= |cut| then r else Bad(Truncated))
      && (s.Ok? ==> r == s)
  {
    hide DecodeValue, FromBE;
    assert cut[pos + 3..pos + 7] == buf[pos + 3..pos + 7];
    assert cut[pos..pos + 2] == buf[pos..pos + 2];
    var len := FromBE(buf[pos + 3..pos + 7]);
    if end <= start + len <= |cut| {
      assert cut[end..start + len] == buf[end..start + len];
    }
  }

  lemma {:induction false} TagsOnPrefix(cut: seq<byte>, buf: seq<byte>, pos: nat, count: nat)
    requires cut <= buf && pos <= |cut|
    ensures
      var r, s := ParseTags(buf, pos, count), ParseTags(cut, pos, count);
      && (r.Ok? ==> s == if r.pos <= |cut| then r else Bad(Truncated))
      && (s.Ok? ==> r == s)
    decreases |buf| - pos, 1, count
  {
    hide ParseTag;
    if count != 0 {
      TagOnPrefix(cut, buf, pos);
      var first := ParseTag(buf, pos);
      if first.Ok? && first.pos <= |cut| {
        TagsOnPrefix(cut, buf, first.pos, count - 1);
      }
    }
  }

  /** An accepted payload means the same on every buffer that starts with the bytes consumed, and
      each of its strict prefixes is reported as truncated. */
  lemma AcceptedPrefixDecides(buf: seq<byte>, other: seq<byte>, k: nat)
    requires ParsePayload(buf).Ok?
    requires k < ParsePayload(buf).pos
    requires buf[..ParsePayload(buf).pos] <= other
    ensures ParsePayload(other) == ParsePayload(buf)
    ensures ParsePayload(buf[..k]) == Bad(Truncated)
  {
    hide ParseTags, FromBE;
    var n := ParsePayload(buf).pos;
    PayloadOnPrefix(buf[..n], buf);
    PayloadOnPrefix(buf[..n], other);
    PayloadOnPrefix(buf[..k], buf);
  }

  lemma PayloadOnPrefix(cut: seq<byte>, buf: seq<byte>)
    requires cut <= buf
    ensures
      var r, s := ParsePayload(buf), ParsePayload(cut);
      && (r.Ok? ==> s == if r.pos <= |cut| then r else Bad(Truncated))
      && (s.Ok? ==> r == s)
  {
    hide ParseTags, FromBE;
    if 3 <= |cut| {
      assert cut[1..3] == buf[1..3];
      TagsOnPrefix(cut, buf, 3, FromBE(buf[1..3]));
    }
  }

  // ---------------------------------------------------------------- Size and shape

  /** Number of tags at all depths. */
  function Count(ts: seq<Tag>): nat {
    if ts == [] then 0 else 1 + Count(ts[0].children) + Count(ts[1..])
  }

  /** Everything `Sendable` asks except the size limit. */
  ghost predicate WellShaped(t: Tag) {
    && t.name < 0x8000
    && ValueSendable(t.value)
    && |t.children| < TWO16
    && forall i :: 0 <= i < |t.children| ==> WellShaped(t.children[i])
  }

  ghost predicate AllWellShaped(ts: seq<Tag>) {
    forall i :: 0 <= i < |ts| ==> WellShaped(ts[i])
  }

  lemma {:induction false} SmallShapedIsSendable(t: Tag)
    requires WellShaped(t) && ExactLen(t) < TWO32
    ensures Sendable(t)
    decreases t, 1
  {
    SmallShapedAreSendable(t.children);
  }

  lemma {:induction false} SmallShapedAreSendable(ts: seq<Tag>)
    requires AllWellShaped(ts) && ExactLens(ts) < TWO32
    ensures AllSendable(ts)
    decreases ts, 0
  {
    if ts != [] {
      SmallShapedIsSendable(ts[0]);
      SmallShapedAreSendable(ts[1..]);
      assert forall i :: 0 < i < |ts| ==> ts[i] == ts[1..][i - 1];
    }
  }

  /** A decoded value can be written again, with at most 16 bytes more than it was read from. */
  lemma DecodedValue(typ: byte, data: seq<byte>)
    ensures
      var v := DecodeValue(typ, data);
      ValueSendable(v) && |DataOf(v)| <= |data| + 16
  {
    hide FromBE, ToBE;
  }

  /** An accepted tag used at least 7 bytes for each tag in it. It is well-shaped, and takes at most 16
      bytes more for each tag in it than it was read from. */
  lemma {:induction false} TagAccepted(buf: seq<byte>, pos: nat)
    requires pos <= |buf| && ParseTag(buf, pos).Ok?
    ensures
      var r := ParseTag(buf, pos);
      var n := 1 + Count(r.value.children);
      && 7 * n <= r.pos - pos
      && WellShaped(r.value)
      && 7 + CountField(r.value.children) + ExactLen(r.value) <= r.pos - pos + 16 * n
    decreases |buf| - pos, 0, 0
  {
    hide FromBE, DecodeValue, DataOf, ParseTags;
    Widths();
    var nameWire := FromBE(buf[pos..pos + 2]);
    var children, start, end := [], pos + 7, pos + 7;
    if nameWire % 2 == 1 {
      var count := FromBE(buf[pos + 7..pos + 9]);
      var r := ParseTags(buf, pos + 9, count);
      TagsAccepted(buf, pos + 9, count);
      children, start, end := r.value, pos + 9, r.pos;
    }
    var len := FromBE(buf[pos + 3..pos + 7]);
    DecodedValue(buf[pos + 2], buf[end..start + len]);
  }

  lemma {:induction false} TagsAccepted(buf: seq<byte>, pos: nat, count: nat)
    requires pos <= |buf| && ParseTags(buf, pos, count).Ok?
    ensures
      var r := ParseTags(buf, pos, count);
      && 7 * Count(r.value) <= r.pos - pos
      && AllWellShaped(r.value)
      && ExactLens(r.value) <= r.pos - pos + 16 * Count(r.value)
    decreases |buf| - pos, 1, count
  {
    hide ParseTag, ExactLen;
    if count != 0 {
      var first := ParseTag(buf, pos);
      var rest := ParseTags(buf, first.pos, count - 1);
      var all := ParseTags(buf, pos, count).value;
      assert all[0] == first.value && all[1..] == rest.value;
      assert forall i :: 0 <= i < |rest.value| ==> rest.value[i] == all[i + 1];
      TagAccepted(buf, pos);
      TagsAccepted(buf, first.pos, count - 1);
    }
  }

  /** An accepted payload with N tags used up at least 3 + 7N bytes. Writing what was read takes at most
      16 bytes more per tag, and reading that gives the canonical form exactly when every tag fits its
      32-bit length field, which it does for any payload up to 1.3 GB. The canonical form has the same
      bytes, so one rewrite reaches a fixed point. */
  lemma {:induction false} ReencodingNormalizes(buf: seq<byte>)
    requires ParsePayload(buf).Ok?
    ensures
      var p, n := ParsePayload(buf).value, ParsePayload(buf).pos;
      var w := PayloadWire(p);
      && 3 + 7 * Count(p.tags) <= n
      && PayloadWire(CanonPacket(p)) == w
      && |w| <= n + 16 * Count(p.tags)
      && (ParsePayload(w) == Ok(CanonPacket(p), |w|) <==> AllFit(p.tags))
      && (n <= 1_300_000_000 ==> AllFit(p.tags))
  {
    hide TagsWire, ToBE, FromBE, ParseTags, AllFit, CanonTags;
    Widths();
    var p := ParsePayload(buf).value;
    TagsAccepted(buf, 3, FromBE(buf[1..3]));
    WireLengths(p.tags);
    CanonSameWires(p.tags);
    SurvivesExactly(p);
    FittingAreSendable(p.tags);
    if PacketSendable(p) {
      assert PayloadWire(p) + [] == PayloadWire(p);
      PacketReadsBack(p, []);
    }
    if ExactLens(p.tags) < TWO32 {
      SmallShapedAreSendable(p.tags);
    }
  }

  /** Every tag fits its 32-bit length field. */
  ghost predicate AllFit(ts: seq<Tag>) {
    forall i :: 0 <= i < |ts| ==> ExactLen(ts[i]) < TWO32
  }

  lemma FittingAreSendable(ts: seq<Tag>)
    requires AllWellShaped(ts)
    ensures AllSendable(ts) <==> AllFit(ts)
  {
    if AllFit(ts) {
      forall i | 0 <= i < |ts| ensures Sendable(ts[i]) {
        SmallShapedIsSendable(ts[i]);
      }
    }
  }

  lemma {:induction false} CanonSameWire(t: Tag)
    ensures TagWire(CanonTag(t)) == TagWire(t) && ExactLen(CanonTag(t)) == ExactLen(t)
    decreases t, 1
  {
    hide ToBE;
    CanonSameWires(t.children);
  }

  lemma {:induction false} CanonSameWires(ts: seq<Tag>)
    ensures TagsWire(CanonTags(ts)) == TagsWire(ts) && ExactLens(CanonTags(ts)) == ExactLens(ts)
    decreases ts, 0
  {
    hide TagWire, ExactLen;
    if ts != [] {
      CanonSameWire(ts[0]);
      CanonSameWires(ts[1..]);
      assert CanonTags(ts)[0] == CanonTag(ts[0]) && CanonTags(ts)[1..] == CanonTags(ts[1..]);
      assert CanonTag(ts[0]).children == CanonTags(ts[0].children);
    }
  }
}
