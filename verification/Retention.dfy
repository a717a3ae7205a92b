/** Completed downloads kept on screen (app/mainwindow.cpp): successive queue snapshots from the
    daemon are merged with the finished rows retained so far. */
module Retention {
  import opened Bytes
  import opened Tags

  const COMPLETING: byte := 8
  const COMPLETE: byte := 9

  const NO_HASH: Hash16 := [0, 0, 0, 0, 0, 0, 0, 0, 0, 0, 0, 0, 0, 0, 0, 0]

  datatype Download = Download(
    ecid: u32, partMetId: u32, hash: Hash16, name: string, sizeFull: u64, sizeDone: u64, speed: u64,
    status: byte, priority: u64, sourceCount: u64, sourceCountXfer: u64, ed2kLink: string,
    sourceNames: seq<(string, u64)>)

  /** Same hash or, failing that, same EC id; neither transitive nor reflexive. */
  predicate Same(a: Download, b: Download) {
    (a.hash != NO_HASH && a.hash == b.hash) || (a.ecid != 0 && a.ecid == b.ecid)
  }

  predicate InList(list: seq<Download>, d: Download) {
    exists i :: 0 <= i < |list| && Same(list[i], d)
  }

  predicate Finished(d: Download) {
    d.status == COMPLETE || d.status == COMPLETING || (d.sizeFull > 0 && d.sizeDone >= d.sizeFull)
  }

  function AsCompleted(d: Download): Download {
    d.(status := COMPLETE, speed := 0, sizeDone := if d.sizeFull > 0 then d.sizeFull else d.sizeDone)
  }

  predicate Identified(d: Download) {
    d.hash != NO_HASH || d.ecid != 0
  }

  // ---------------------------------------------------------------- The steps as functions

  function RetainOne(retained: seq<Download>, d: Download): seq<Download> {
    if Finished(d) && !InList(retained, d) then retained + [AsCompleted(d)] else retained
  }

  function Retain(retained: seq<Download>, ds: seq<Download>): seq<Download> {
    if ds == [] then retained else RetainOne(Retain(retained, ds[..|ds| - 1]), ds[|ds| - 1])
  }

  /** The rows of `list` that `other` has no match for, in order. */
  function Unmatched(list: seq<Download>, other: seq<Download>): seq<Download> {
    if list == [] then []
    else
      var last := list[|list| - 1];
      Unmatched(list[..|list| - 1], other) + if InList(other, last) then [] else [last]
  }

  function Without(list: seq<Download>, hashes: seq<Hash16>): seq<Download> {
    if list == [] then []
    else
      var last := list[|list| - 1];
      Without(list[..|list| - 1], hashes) + if last.hash in hashes then [] else [last]
  }

  datatype View = View(lastQueue: seq<Download>, retained: seq<Download>, shown: seq<Download>) {
    function Refreshed(): View {
      this.(shown := lastQueue + Unmatched(retained, lastQueue))
    }
  }

  datatype Event = Snapshot(queue: seq<Download>) | Clear | Delete(hashes: seq<Hash16>) | Disconnect

  function Stepped(v: View, ev: Event): View {
    match ev
    case Snapshot(queue) =>
      View(queue, Retain(Retain(v.retained, Unmatched(v.lastQueue, queue)), queue), v.shown).Refreshed()
    case Clear => v.(retained := []).Refreshed()
    case Delete(hashes) => v.(retained := Without(v.retained, hashes)).Refreshed()
    case Disconnect => v.(retained := [], lastQueue := [])  // the table is not redrawn here
  }

  function Run(evs: seq<Event>): View {
    if evs == [] then View([], [], []) else Stepped(Run(evs[..|evs| - 1]), evs[|evs| - 1])
  }

  // ---------------------------------------------------------------- The window

  class MainWindow {
    var lastQueue: seq<Download>
    var retained: seq<Download>
    var shown: seq<Download>

    constructor ()
      ensures Now() == View([], [], [])
    {
      lastQueue, retained, shown := [], [], [];
    }

    ghost function Now(): View
      reads this
    {
      View(lastQueue, retained, shown)
    }

    method OnDownloadsUpdated(queue: seq<Download>)
      modifies this
      ensures Now() == Stepped(old(Now()), Snapshot(queue))
    {
      hide InList, Finished, AsCompleted, Retain, Unmatched;
      RetainNothing(retained);
      for i := 0 to |lastQueue|
        invariant lastQueue == old(lastQueue) && shown == old(shown)
        invariant retained == Retain(old(retained), Unmatched(lastQueue[..i], queue))
      {
        var prev := lastQueue[i];
        UnmatchedAppend(lastQueue, i, queue);
        RetainAppend(old(retained), Unmatched(lastQueue[..i], queue), prev);
        if !InList(queue, prev) && Finished(prev) && !InList(retained, prev) {
          retained := retained + [AsCompleted(prev)];
        }
      }
      assert lastQueue[..|lastQueue|] == lastQueue;
      ghost var base := retained;
      RetainNothing(base);
      for i := 0 to |queue|
        invariant lastQueue == old(lastQueue) && shown == old(shown)
        invariant retained == Retain(base, queue[..i])
      {
        var d := queue[i];
        RetainAppend(base, queue[..i], d);
        assert queue[..i + 1] == queue[..i] + [d];
        if Finished(d) && !InList(retained, d) {
          retained := retained + [AsCompleted(d)];
        }
      }
      assert queue[..|queue|] == queue;
      lastQueue := queue;
      RefreshDownloadView();
    }

    method RefreshDownloadView()
      modifies this`shown
      ensures Now() == old(Now()).Refreshed()
    {
      var display := lastQueue;
      for i := 0 to |retained|
        invariant display == lastQueue + Unmatched(retained[..i], lastQueue)
      {
        assert retained[..i + 1][..i] == retained[..i];
        if !InList(lastQueue, retained[i]) {
          display := display + [retained[i]];
        }
      }
      assert retained[..|retained|] == retained;
      shown := display;
    }

    method ClearCompleted()
      modifies this
      ensures Now() == Stepped(old(Now()), Clear)
    {
      retained := [];
      RefreshDownloadView();
    }

    method DeleteRows(hashes: seq<Hash16>)
      modifies this
      ensures Now() == Stepped(old(Now()), Delete(hashes))
    {
      WithoutNone(retained);
      for i := 0 to |hashes|
        invariant lastQueue == old(lastQueue) && shown == old(shown)
        invariant retained == Without(old(retained), hashes[..i])
      {
        WithoutOneMore(old(retained), hashes[..i], hashes[i]);
        assert hashes[..i + 1] == hashes[..i] + [hashes[i]];
        retained := Without(retained, [hashes[i]]);
      }
      assert hashes[..|hashes|] == hashes;
      RefreshDownloadView();
    }

    method OnDisconnected()
      modifies this
      ensures Now() == Stepped(old(Now()), Disconnect)
    {
      retained := [];
      lastQueue := [];
    }
  }

  lemma RetainNothing(retained: seq<Download>)
    ensures Retain(retained, Unmatched([], [])) == Retain(retained, []) == retained
    ensures forall other :: Unmatched([], other) == []
  {
  }

  lemma RetainAppend(retained: seq<Download>, ds: seq<Download>, d: Download)
    ensures Retain(retained, ds + [d]) == RetainOne(Retain(retained, ds), d)
  {
    assert (ds + [d])[..|ds|] == ds;
  }

  lemma UnmatchedAppend(list: seq<Download>, i: nat, other: seq<Download>)
    requires i < |list|
    ensures Unmatched(list[..i + 1], other)
            == if InList(other, list[i]) then Unmatched(list[..i], other) else Unmatched(list[..i], other) + [list[i]]
  {
    hide InList;
    assert list[..i + 1][..i] == list[..i];
    assert Unmatched(list[..i], other) + [] == Unmatched(list[..i], other);
  }

  lemma {:induction false} WithoutNone(list: seq<Download>)
    ensures Without(list, []) == list
  {
    if list != [] {
      WithoutNone(list[..|list| - 1]);
    }
  }

  lemma {:induction false} WithoutOneMore(list: seq<Download>, hashes: seq<Hash16>, h: Hash16)
    ensures Without(Without(list, hashes), [h]) == Without(list, hashes + [h])
  {
    hide Without;
    if list == [] {
      WithoutOfNothing();
    } else {
      var front, last := list[..|list| - 1], list[|list| - 1];
      WithoutOneMore(front, hashes, h);
      WithoutAppend(Without(front, hashes), last, [h]);
      WithoutAppend(front, last, hashes + [h]);
      WithoutAppend(front, last, hashes);
      assert front + [last] == list;
    }
  }

  lemma WithoutOfNothing()
    ensures forall hashes :: Without([], hashes) == []
  {
  }

  lemma WithoutAppend(list: seq<Download>, d: Download, hashes: seq<Hash16>)
    ensures Without(list + [d], hashes) == if d.hash in hashes then Without(list, hashes) else Without(list, hashes) + [d]
  {
    assert (list + [d])[..|list|] == list;
    assert Without(list, hashes) + [] == Without(list, hashes);
  }

  // ---------------------------------------------------------------- The retained list

  predicate CompletedForm(r: Download) {
    r.status == COMPLETE && r.speed == 0 && (r.sizeFull > 0 ==> r.sizeDone == r.sizeFull)
  }

  /** `r` is `d` but for status, speed and the bytes done. */
  predicate SameFile(r: Download, d: Download) {
    r == d.(status := r.status, speed := r.speed, sizeDone := r.sizeDone)
  }

  /** No two rows are the same download, and every row is in completed form. */
  ghost predicate Clean(retained: seq<Download>) {
    && (forall i, j :: 0 <= i < j < |retained| ==> !Same(retained[i], retained[j]))
    && (forall i :: 0 <= i < |retained| ==> CompletedForm(retained[i]))
  }

  lemma RetainOneIsClean(retained: seq<Download>, d: Download)
    requires Clean(retained)
    ensures Clean(RetainOne(retained, d))
  {
  }

  lemma {:induction false} RetainIsClean(retained: seq<Download>, ds: seq<Download>)
    requires Clean(retained)
    ensures Clean(Retain(retained, ds))
  {
    hide Clean, RetainOne;
    if ds != [] {
      RetainIsClean(retained, ds[..|ds| - 1]);
      RetainOneIsClean(Retain(retained, ds[..|ds| - 1]), ds[|ds| - 1]);
    }
  }

  lemma {:induction false} WithoutIsClean(list: seq<Download>, hashes: seq<Hash16>)
    requires Clean(list)
    ensures Clean(Without(list, hashes))
  {
    hide Same, CompletedForm;
    if list != [] {
      var front, last := list[..|list| - 1], list[|list| - 1];
      WithoutIsClean(front, hashes);
      WithoutRows(front, hashes);
      var kept := Without(front, hashes);
      assert kept + [] == kept;
      forall i | 0 <= i < |kept| ensures !Same(kept[i], last) {
        assert kept[i] in front;
      }
    }
  }

  /** Nothing is forgotten while rows are retained, and what is finished gets a match, exactly if
      it can be identified. */
  lemma {:induction false} RetainKeeps(retained: seq<Download>, ds: seq<Download>)
    ensures retained <= Retain(retained, ds)
    ensures forall d :: d in ds && Finished(d) ==> (InList(Retain(retained, ds), d) <==> Identified(d))
  {
    if ds != [] {
      var front, last := ds[..|ds| - 1], ds[|ds| - 1];
      RetainKeeps(retained, front);
      var before, after := Retain(retained, front), Retain(retained, ds);
      assert ds == front + [last];
      forall d | d in ds && Finished(d) ensures InList(after, d) <==> Identified(d) {
        if d in front && InList(before, d) {
          InLonger(before, after, d);
        }
        if d == last && !InList(before, d) {
          assert after[|before|] == AsCompleted(d);
        }
      }
    }
  }

  lemma InLonger(short: seq<Download>, long: seq<Download>, d: Download)
    requires short <= long && InList(short, d)
    ensures InList(long, d)
  {
    var i :| 0 <= i < |short| && Same(short[i], d);
    assert long[i] == short[i];
  }

  /** The retained list does not change exactly when everything finished has a match in it. */
  lemma {:induction false} RetainUnchanged(retained: seq<Download>, ds: seq<Download>)
    ensures Retain(retained, ds) == retained <==> forall d :: d in ds && Finished(d) ==> InList(retained, d)
  {
    hide Same, InList, Finished;
    if ds != [] {
      var front, last := ds[..|ds| - 1], ds[|ds| - 1];
      RetainUnchanged(retained, front);
      RetainKeeps(retained, front);
      assert ds == front + [last];
    }
  }

  lemma {:induction false} RetainTogether(retained: seq<Download>, a: seq<Download>, b: seq<Download>)
    ensures Retain(retained, a + b) == Retain(Retain(retained, a), b)
  {
    hide RetainOne;
    if b == [] {
      assert a + b == a;
    } else {
      assert (a + b)[..|a + b| - 1] == a + b[..|b| - 1];
      RetainTogether(retained, a, b[..|b| - 1]);
    }
  }

  lemma {:induction false} UnmatchedRows(list: seq<Download>, other: seq<Download>)
    ensures forall d :: d in Unmatched(list, other) <==> d in list && !InList(other, d)
  {
    hide InList;
    if list != [] {
      UnmatchedRows(list[..|list| - 1], other);
      assert list == list[..|list| - 1] + [list[|list| - 1]];
    }
  }

  lemma {:induction false} RetainedFrom(retained: seq<Download>, ds: seq<Download>, r: Download)
    requires r in Retain(retained, ds) && r !in retained
    ensures exists d :: d in ds && Finished(d) && SameFile(r, d)
  {
    hide InList, Finished;
    if ds != [] {
      var front, last := ds[..|ds| - 1], ds[|ds| - 1];
      assert ds == front + [last];
      if r in Retain(retained, front) {
        RetainedFrom(retained, front, r);
      }
    }
  }

  // ---------------------------------------------------------------- Runs

  /** Seen finished in a snapshot since the last clear, delete or disconnect. */
  ghost predicate SeenFinished(evs: seq<Event>, d: Download) {
    evs != [] &&
    match evs[|evs| - 1]
    case Snapshot(queue) => (d in queue && Finished(d)) || SeenFinished(evs[..|evs| - 1], d)
    case _ => false
  }

  /** Seen finished in a snapshot since the last Disconnected status. A connection that is lost with an
      Error status clears nothing, so this may reach back over several connections. */
  ghost predicate SeenSinceDisconnect(evs: seq<Event>, d: Download) {
    evs != [] &&
    match evs[|evs| - 1]
    case Snapshot(queue) => (d in queue && Finished(d)) || SeenSinceDisconnect(evs[..|evs| - 1], d)
    case Disconnect => false
    case _ => SeenSinceDisconnect(evs[..|evs| - 1], d)
  }

  /** In every run: retained rows are pairwise different and in completed form, and what was seen
      finished since the last clear, delete or disconnect has a match among them, exactly if it
      has a hash or an EC id. */
  lemma {:induction false} FinishedIsRetained(evs: seq<Event>)
    ensures Clean(Run(evs).retained)
    ensures forall d :: SeenFinished(evs, d) ==> (InList(Run(evs).retained, d) <==> Identified(d))
  {
    hide Clean, InList, Identified, Retain, Unmatched, Without, Finished;
    if evs == [] {
      NothingIsClean();
    } else {
      var before := Run(evs[..|evs| - 1]);
      FinishedIsRetained(evs[..|evs| - 1]);
      NothingIsClean();
      match evs[|evs| - 1]
      case Snapshot(queue) =>
        var drops := Unmatched(before.lastQueue, queue);
        var kept := Retain(before.retained, drops);
        RetainIsClean(before.retained, drops);
        RetainIsClean(kept, queue);
        RetainKeeps(before.retained, drops);
        RetainKeeps(kept, queue);
        assert before.retained <= kept <= Retain(kept, queue);
        forall d | SeenFinished(evs, d) ensures InList(Retain(kept, queue), d) <==> Identified(d) {
          if !(d in queue && Finished(d)) {
            MatchesStay(before.retained, Retain(kept, queue), d);
          }
        }
      case Delete(hashes) => WithoutIsClean(before.retained, hashes);
      case _ =>
    }
  }

  lemma NothingIsClean()
    ensures Clean([])
  {
  }

  lemma MatchesStay(short: seq<Download>, long: seq<Download>, d: Download)
    requires short <= long && (InList(short, d) <==> Identified(d))
    ensures InList(long, d) <==> Identified(d)
  {
    if InList(short, d) {
      InLonger(short, long, d);
    }
  }

  /** In every run, a retained row is the completed form of a download seen finished since the last
      disconnect, and it is on screen itself or through a row of the queue that matches it. */
  lemma {:induction false} RetainedIsReal(evs: seq<Event>)
    ensures
      var v := Run(evs);
      && (forall d :: d in v.lastQueue && Finished(d) ==> SeenSinceDisconnect(evs, d))
      && (forall r :: r in v.retained ==> exists d :: SeenSinceDisconnect(evs, d) && SameFile(r, d))
      && v.lastQueue <= v.shown
      && (forall r :: r in v.retained && !InList(v.lastQueue, r) ==> r in v.shown)
  {
    hide InList, Finished, SameFile, Retain, Unmatched, Without;
    if evs != [] {
      var front := evs[..|evs| - 1];
      var before, v := Run(front), Run(evs);
      RetainedIsReal(front);
      UnmatchedRows(v.retained, v.lastQueue);
      match evs[|evs| - 1]
      case Snapshot(queue) =>
        var drops := Unmatched(before.lastQueue, queue);
        UnmatchedRows(before.lastQueue, queue);
        forall r | r in v.retained ensures exists d :: SeenSinceDisconnect(evs, d) && SameFile(r, d) {
          if r !in Retain(before.retained, drops) {
            RetainedFrom(Retain(before.retained, drops), queue, r);
          } else if r !in before.retained {
            RetainedFrom(before.retained, drops, r);
          }
        }
      case Delete(hashes) =>
        WithoutRows(before.retained, hashes);
        forall r | r in v.retained ensures exists d :: SeenSinceDisconnect(evs, d) && SameFile(r, d) {
          assert r in before.retained;
        }
      case _ =>
    }
  }

  lemma {:induction false} WithoutRows(list: seq<Download>, hashes: seq<Hash16>)
    ensures forall d :: d in Without(list, hashes) <==> d in list && d.hash !in hashes
  {
    if list != [] {
      WithoutRows(list[..|list| - 1], hashes);
      assert list == list[..|list| - 1] + [list[|list| - 1]];
    }
  }

  // ---------------------------------------------------------------- The two loops

  /** All rows of the queues since the last disconnect, in order. */
  function Queues(evs: seq<Event>): seq<Download> {
    if evs == [] then []
    else
      match evs[|evs| - 1]
      case Snapshot(queue) => Queues(evs[..|evs| - 1]) + queue
      case Disconnect => []
      case _ => Queues(evs[..|evs| - 1])
  }

  ghost predicate Uncleared(evs: seq<Event>) {
    forall i :: 0 <= i < |evs| ==>
      match evs[i]
      case Snapshot(queue) => forall d :: d in queue ==> Identified(d)
      case Disconnect => true
      case _ => false
  }

  /** The loop over the previous queue appends nothing exactly when every finished row the daemon
      dropped is retained already. */
  lemma FirstLoopIdle(v: View, queue: seq<Download>)
    ensures Retain(v.retained, Unmatched(v.lastQueue, queue)) == v.retained <==>
              forall d :: d in v.lastQueue && Finished(d) && !InList(queue, d) ==> InList(v.retained, d)
  {
    hide InList, Finished;
    UnmatchedRows(v.lastQueue, queue);
    RetainUnchanged(v.retained, Unmatched(v.lastQueue, queue));
  }

  /** Without clear or delete and with identified downloads that is always so: one loop over each
      new queue is enough, and the retained list depends only on the rows seen since the last
      disconnect, one after the other, not on how snapshots divide them. */
  lemma {:induction false} OneLoopIsEnough(evs: seq<Event>)
    requires Uncleared(evs)
    ensures forall d :: d in Run(evs).lastQueue && Finished(d) ==> InList(Run(evs).retained, d)
    ensures Run(evs).retained == Retain([], Queues(evs))
  {
    hide InList, Finished, Identified, Retain, Unmatched;
    if evs == [] {
      RetainNothing([]);
    } else {
      var front := evs[..|evs| - 1];
      OneLoopIsEnough(front);
      RetainNothing([]);
      match evs[|evs| - 1]
      case Snapshot(queue) =>
        assert forall d :: d in queue ==> Identified(d);
        FirstLoopIdle(Run(front), queue);
        RetainKeeps(Run(front).retained, queue);
        RetainTogether([], Queues(front), queue);
      case _ =>
    }
  }

  /** The rows a snapshot finds finished: those the daemon dropped from the last queue, and its own. */
  ghost predicate NewlyFinished(v: View, queue: seq<Download>, d: Download) {
    Finished(d) && (d in queue || (d in v.lastQueue && !InList(queue, d)))
  }

  /** A snapshot leaves the retained rows as they are exactly when each row it finds finished has a
      match among them, and it gives a match to each one that can be identified. */
  lemma SnapshotRetains(v: View, queue: seq<Download>)
    ensures Stepped(v, Snapshot(queue)).retained == v.retained <==>
              forall d :: NewlyFinished(v, queue, d) ==> InList(v.retained, d)
    ensures forall d :: NewlyFinished(v, queue, d) && Identified(d) ==> InList(Stepped(v, Snapshot(queue)).retained, d)
  {
    hide Finished, Retain, Unmatched, Same, InList, Identified;
    var drops := Unmatched(v.lastQueue, queue);
    var kept := Retain(v.retained, drops);
    UnmatchedRows(v.lastQueue, queue);
    RetainUnchanged(v.retained, drops);
    RetainUnchanged(kept, queue);
    RetainUnchanged(v.retained, queue);
    RetainKeeps(v.retained, drops);
    RetainKeeps(kept, queue);
    forall d | NewlyFinished(v, queue, d) && Identified(d) ensures InList(Retain(kept, queue), d) {
      if d !in queue {
        InLonger(kept, Retain(kept, queue), d);
      }
    }
  }

  /** A cleared list stays empty over the next snapshot exactly when that snapshot has no finished
      row and drops none of the last queue; a finished row that is dropped comes back. */
  lemma ClearedRowsComeBack(v: View, queue: seq<Download>)
    ensures
      var after := Stepped(Stepped(v, Clear), Snapshot(queue)).retained;
      after == [] <==>
        && (forall d :: d in queue ==> !Finished(d))
        && (forall d :: d in v.lastQueue && Finished(d) ==> InList(queue, d))
  {
    hide Finished, Retain, Unmatched, Stepped;
    var left := Stepped(v, Clear);
    ClearKeepsQueue(v);
    SnapshotRetains(left, queue);
    assert forall d :: d in queue && Finished(d) ==> NewlyFinished(left, queue, d);
    assert forall d :: d in v.lastQueue && Finished(d) && !InList(queue, d) ==> NewlyFinished(left, queue, d);
  }

  lemma ClearKeepsQueue(v: View)
    ensures Stepped(v, Clear).lastQueue == v.lastQueue && Stepped(v, Clear).retained == []
  {
  }

  /** Deleting leaves the last queue alone too. What it left stays over the next snapshot exactly when
      each row found finished has a match among the rows left, and a deleted download that the daemon
      drops while finished comes back. */
  lemma DeletedRowsComeBack(v: View, hashes: seq<Hash16>, queue: seq<Download>)
    ensures
      var left := Stepped(v, Delete(hashes));
      var after := Stepped(left, Snapshot(queue)).retained;
      && (forall r :: r in left.retained ==> r.hash !in hashes)
      && (after == left.retained <==> forall d :: NewlyFinished(v, queue, d) ==> InList(left.retained, d))
      && (forall d :: d in v.lastQueue && Finished(d) && d.hash in hashes && !InList(queue, d) && Identified(d) ==> InList(after, d))
  {
    hide Finished, Retain, Unmatched, InList, Identified;
    var left := Stepped(v, Delete(hashes));
    WithoutRows(v.retained, hashes);
    SnapshotRetains(left, queue);
    assert forall d :: NewlyFinished(left, queue, d) == NewlyFinished(v, queue, d);
  }

  /** A finished row with neither hash nor EC id is retained once more by every snapshot. */
  lemma UnidentifiedRowsPileUp(v: View, queue: seq<Download>, d: Download)
    requires d in queue && Finished(d) && !Identified(d)
    ensures |Stepped(v, Snapshot(queue)).retained| > |v.retained|
  {
    hide Finished, Retain, Unmatched;
    var kept := Retain(v.retained, Unmatched(v.lastQueue, queue));
    RetainKeeps(v.retained, Unmatched(v.lastQueue, queue));
    RetainKeeps(kept, queue);
    RetainUnchanged(kept, queue);
  }
}
