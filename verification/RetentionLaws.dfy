/** The download table by positions and plain numbers: which rows it shows in every run, which rows a
    deletion keeps, what counts as finished and what as the same download. */
module RetentionLaws {
  import opened Bytes
  import opened Tags
  import opened Retention

  // ---------------------------------------------------------------- Rows picked out of a list

  /** `out` is the rows of `list` at the increasing positions `picked`. */
  ghost predicate Picks(out: seq<Download>, list: seq<Download>, picked: seq<nat>) {
    && |picked| == |out|
    && (forall k :: 0 <= k < |picked| ==> picked[k] < |list| && out[k] == list[picked[k]])
    && (forall k, l :: 0 <= k < l < |picked| ==> picked[k] < picked[l])
  }

  /** One row more: it is picked or it is not. */
  lemma PickOneMore(out: seq<Download>, list: seq<Download>, picked: seq<nat>, d: Download)
    requires Picks(out, list, picked)
    ensures Picks(out, list + [d], picked)
    ensures Picks(out + [d], list + [d], picked + [|list|])
  {
  }

  /** No row of the list is the same download as `d`. */
  ghost predicate NoMatch(list: seq<Download>, d: Download) {
    forall j :: 0 <= j < |list| ==> !Same(list[j], d)
  }

  lemma {:induction false} UnmatchedPicks(list: seq<Download>, queue: seq<Download>) returns (picked: seq<nat>)
    ensures Picks(Unmatched(list, queue), list, picked)
    ensures forall i: nat :: i < |list| ==> (i in picked <==> NoMatch(queue, list[i]))
  {
    hide Same;
    picked := [];
    if list != [] {
      var n := |list| - 1;
      var front, last := list[..n], list[n];
      picked := UnmatchedPicks(front, queue);
      var out := Unmatched(front, queue);
      PickOneMore(out, front, picked, last);
      assert front + [last] == list && out + [] == out;
      NewPosition(picked, n, front, queue);
      assert InList(queue, last) <==> !NoMatch(queue, last);
      if NoMatch(queue, last) {
        picked := picked + [n];
      }
    }
  }

  lemma NewPosition(picked: seq<nat>, n: nat, front: seq<Download>, queue: seq<Download>)
    requires |front| == n && exists out :: Picks(out, front, picked)
    ensures n !in picked
    ensures forall i :: i in picked + [n] <==> i in picked || i == n
  {
  }

  lemma {:induction false} WithoutPicks(list: seq<Download>, hashes: seq<Hash16>) returns (picked: seq<nat>)
    ensures Picks(Without(list, hashes), list, picked)
    ensures forall i: nat :: i < |list| ==> (i in picked <==> list[i].hash !in hashes)
  {
    picked := [];
    if list != [] {
      var n := |list| - 1;
      var front, last := list[..n], list[n];
      picked := WithoutPicks(front, hashes);
      var out := Without(front, hashes);
      PickOneMore(out, front, picked, last);
      assert front + [last] == list && out + [] == out;
      NewPosition(picked, n, front, []);
      if last.hash !in hashes {
        picked := picked + [n];
      }
    }
  }

  // ---------------------------------------------------------------- The table in every run

  /** The queue of the last snapshot since the last disconnect. */
  function CurrentQueue(evs: seq<Event>): seq<Download> {
    if evs == [] then []
    else
      match evs[|evs| - 1]
      case Snapshot(queue) => queue
      case Disconnect => []
      case _ => CurrentQueue(evs[..|evs| - 1])
  }

  /** `extra` is the retained rows, in order and each once, that no queue row matches. */
  ghost predicate Leftover(extra: seq<Download>, retained: seq<Download>, queue: seq<Download>) {
    exists picked: seq<nat> ::
      Picks(extra, retained, picked) && forall i: nat :: i < |retained| ==> (i in picked <==> NoMatch(queue, retained[i]))
  }

  /** In every run the window holds the queue of the last snapshot since the last disconnect. The table
      shows that queue and behind it exactly the retained rows that it does not match, in order and
      each once; only a disconnect leaves the table as it was. */
  lemma {:induction false} TableOfRun(evs: seq<Event>)
    ensures Run(evs).lastQueue == CurrentQueue(evs)
    ensures
      var v, n := Run(evs), |CurrentQueue(evs)|;
      if evs != [] && evs[|evs| - 1].Disconnect? then v.shown == Run(evs[..|evs| - 1]).shown && v.retained == []
      else |v.shown| >= n && v.shown[..n] == CurrentQueue(evs) && Leftover(v.shown[n..], v.retained, CurrentQueue(evs))
  {
    hide Retain, Unmatched, Without, NoMatch;
    var v, n := Run(evs), |CurrentQueue(evs)|;
    if evs != [] {
      TableOfRun(evs[..|evs| - 1]);
    }
    if evs == [] || !evs[|evs| - 1].Disconnect? {
      var picked := UnmatchedPicks(v.retained, v.lastQueue);
      NothingUnmatched();
      assert v.shown == v.lastQueue + Unmatched(v.retained, v.lastQueue);
      assert v.shown[n..] == Unmatched(v.retained, v.lastQueue);
    }
  }

  lemma NothingUnmatched()
    ensures Unmatched([], []) == []
  {
  }

  /** A deletion keeps exactly the retained rows whose hash is not deleted, in order and each once. */
  lemma {:induction false} DeletionKeeps(evs: seq<Event>, hashes: seq<Hash16>)
    ensures exists picked: seq<nat> ::
      && Picks(Run(evs + [Delete(hashes)]).retained, Run(evs).retained, picked)
      && forall i: nat :: i < |Run(evs).retained| ==> (i in picked <==> Run(evs).retained[i].hash !in hashes)
  {
    hide Without;
    assert (evs + [Delete(hashes)])[..|evs|] == evs;
    var picked := WithoutPicks(Run(evs).retained, hashes);
    assert Run(evs + [Delete(hashes)]).retained == Without(Run(evs).retained, hashes);
    assert Picks(Run(evs + [Delete(hashes)]).retained, Run(evs).retained, picked);
  }

  // ---------------------------------------------------------------- What a snapshot appends

  /** `out` is `base` and behind it, in completed form, the candidates at the increasing positions
      `picked`: the finished ones without a match in `base` or among the candidates picked before. */
  ghost predicate Appended(out: seq<Download>, base: seq<Download>, candidates: seq<Download>, picked: seq<nat>) {
    && RowsAppended(out, base, candidates, picked)
    && forall i: nat :: i < |candidates| ==> (i in picked <==> Picked(base, candidates, picked, i))
  }

  ghost predicate RowsAppended(out: seq<Download>, base: seq<Download>, candidates: seq<Download>, picked: seq<nat>) {
    && base <= out && |out| == |base| + |picked|
    && (forall k, l :: 0 <= k < l < |picked| ==> picked[k] < picked[l])
    && (forall k :: 0 <= k < |picked| ==> picked[k] < |candidates| && out[|base| + k] == AsCompleted(candidates[picked[k]]))
  }

  ghost predicate Picked(base: seq<Download>, candidates: seq<Download>, picked: seq<nat>, i: nat)
    requires i < |candidates|
  {
    && Finished(candidates[i]) && NoMatch(base, candidates[i])
    && forall j: nat :: j < i && j in picked ==> !Same(candidates[j], candidates[i])
  }

  lemma {:induction false} RetainAppends(base: seq<Download>, candidates: seq<Download>) returns (picked: seq<nat>)
    ensures Appended(Retain(base, candidates), base, candidates, picked)
  {
    hide Finished, AsCompleted, InList, Appended, NoMatch, Same;
    picked := [];
    NothingAppended(base);
    if candidates != [] {
      var n := |candidates| - 1;
      var front, last := candidates[..n], candidates[n];
      picked := RetainAppends(base, front);
      OneMoreCandidate(Retain(base, front), base, front, picked, last);
      assert front + [last] == candidates;
      if Finished(last) && !InList(Retain(base, front), last) {
        picked := picked + [n];
      }
    }
  }

  lemma NothingAppended(base: seq<Download>)
    ensures Appended(base, base, [], [])
  {
  }

  lemma OneMoreCandidate(out: seq<Download>, base: seq<Download>, front: seq<Download>, picked: seq<nat>, last: Download)
    requires Appended(out, base, front, picked)
    ensures
      var taken := Finished(last) && !InList(out, last);
      Appended(RetainOne(out, last), base, front + [last], if taken then picked + [|front|] else picked)
  {
    hide Finished, Same, AsCompleted, InList, RowsAppended, NoMatch, Picked;
    var taken, n, all := Finished(last) && !InList(out, last), |front|, front + [last];
    var now := if taken then picked + [n] else picked;
    RowsStay(out, base, front, picked, last, n);
    CompletedIsSame(out, base, front, picked, last);
    SameSoFar(base, front, picked, last, now);
    forall i: nat | i < |all| ensures i in now <==> Picked(base, all, now, i) {
      if i < n {
        assert i in picked <==> Picked(base, front, picked, i);
      } else {
        assert i == n;
      }
    }
  }

  lemma RowsStay(out: seq<Download>, base: seq<Download>, front: seq<Download>, picked: seq<nat>, last: Download, n: nat)
    requires RowsAppended(out, base, front, picked) && n == |front|
    ensures RowsAppended(out, base, front + [last], picked)
    ensures RowsAppended(out + [AsCompleted(last)], base, front + [last], picked + [n])
    ensures n !in picked
  {
    hide AsCompleted;
  }

  /** A candidate behind the others does not change which of them are picked, and is itself picked if it
      is finished and none of the base or of those picked matches it. */
  lemma SameSoFar(base: seq<Download>, front: seq<Download>, picked: seq<nat>, last: Download, now: seq<nat>)
    requires now == picked || now == picked + [|front|]
    ensures forall i: nat :: i < |front| ==> (i in now <==> i in picked)
    ensures forall i: nat :: i < |front| ==> (Picked(base, front + [last], now, i) <==> Picked(base, front, picked, i))
    ensures Picked(base, front + [last], now, |front|) <==>
              Finished(last) && NoMatch(base, last) && forall j: nat :: j < |front| && j in picked ==> !Same(front[j], last)
  {
    hide Finished, Same, NoMatch;
    var all := front + [last];
    assert forall j: nat :: j < |front| ==> all[j] == front[j] && (j in now <==> j in picked);
  }

  /** What matches the rows so far matches the base or a candidate picked. */
  lemma CompletedIsSame(out: seq<Download>, base: seq<Download>, front: seq<Download>, picked: seq<nat>, last: Download)
    requires Appended(out, base, front, picked)
    ensures InList(out, last) <==> !NoMatch(base, last) || exists j: nat :: j < |front| && j in picked && Same(front[j], last)
  {
    hide Finished, Same, AsCompleted, Picked;
    forall d, e ensures Same(AsCompleted(d), e) <==> Same(d, e) { CompletedMatches(d, e); }
    if i :| 0 <= i < |out| && Same(out[i], last) {
      if i < |base| {
        assert base[i] == out[i];
      } else {
        assert out[|base| + (i - |base|)] == AsCompleted(front[picked[i - |base|]]);
      }
    }
    if i :| 0 <= i < |base| && Same(base[i], last) {
      assert out[i] == base[i];
    }
    if j: nat :| j < |front| && j in picked && Same(front[j], last) {
      var k :| 0 <= k < |picked| && picked[k] == j;
      assert Same(out[|base| + k], last);
    }
  }

  lemma CompletedMatches(d: Download, e: Download)
    ensures Same(AsCompleted(d), e) <==> Same(d, e)
  {
  }

  /** What each snapshot does to the retained rows, in order: behind the rows retained so far it puts,
      first of the rows that the daemon dropped and then of its own, each finished one that has no match
      yet. */
  lemma {:induction false} SnapshotAppends(evs: seq<Event>, queue: seq<Download>)
    ensures exists dropped, picked ::
      && Leftover(dropped, Run(evs).lastQueue, queue)
      && Appended(Run(evs + [Snapshot(queue)]).retained, Run(evs).retained, dropped + queue, picked)
  {
    hide Retain, Unmatched, Appended, NoMatch;
    var v, dropped := Run(evs), Unmatched(Run(evs).lastQueue, queue);
    assert (evs + [Snapshot(queue)])[..|evs|] == evs;
    var rows := UnmatchedPicks(v.lastQueue, queue);
    assert Leftover(dropped, v.lastQueue, queue);
    RetainTogether(v.retained, dropped, queue);
    var picked := RetainAppends(v.retained, dropped + queue);
    assert Run(evs + [Snapshot(queue)]).retained == Retain(v.retained, dropped + queue);
  }

  // ---------------------------------------------------------------- Finished, and the same

  /** What counts as finished, and the row kept of it: the first snapshot retains a download exactly if
      the daemon says completing (8) or complete (9), or all bytes of a non-empty file are done. */
  lemma {:induction false} FinishedMeans(d: Download)
    ensures
      var done := d.status == 8 || d.status == 9 || 0 < d.sizeFull <= d.sizeDone;
      Run([Snapshot([d])]).retained ==
        if done then [d.(status := 9, speed := 0, sizeDone := if d.sizeFull > 0 then d.sizeFull else d.sizeDone)] else []
  {
    hide Same;
    var evs := [Snapshot([d])];
    assert evs[..0] == [] && [d][..0] == [];
    assert Unmatched([], [d]) == [];
    assert Retain([], [d]) == RetainOne([], d);
    assert Run(evs).retained == Retain(Retain([], []), [d]);
  }

  /** What counts as the same download: of two finished rows in one snapshot the second is retained as
      well exactly if they share neither a hash, other than sixteen zeros, nor an EC id other than 0. */
  lemma {:induction false} SameMeans(a: Download, b: Download)
    requires Finished(a) && Finished(b)
    ensures
      var same := (a.hash == b.hash && exists i :: 0 <= i < 16 && a.hash[i] != 0) || (a.ecid == b.ecid && a.ecid != 0);
      |Run([Snapshot([a, b])]).retained| == if same then 1 else 2
  {
    hide Finished, Same, InList, AsCompleted, Run;
    TwoRows(a, b);
    InSingle(AsCompleted(a), b);
    CompletedMatches(a, b);
    SameByNumbers(a, b);
  }

  lemma TwoRows(a: Download, b: Download)
    requires Finished(a)
    ensures Run([Snapshot([a, b])]).retained == RetainOne([AsCompleted(a)], b)
  {
    hide Finished, Same, AsCompleted, RetainOne;
    var evs, rows := [Snapshot([a, b])], [a, b];
    assert evs[..0] == [] && rows[..1] == [a] && [a][..0] == [];
    assert Unmatched([], rows) == [];
    assert Retain([], [a]) == RetainOne([], a);
    FirstRow(a);
    assert Retain([], rows) == RetainOne([AsCompleted(a)], b);
    assert Run(evs).retained == Retain(Retain([], []), rows);
  }

  lemma FirstRow(a: Download)
    requires Finished(a)
    ensures RetainOne([], a) == [AsCompleted(a)]
  {
    hide Finished, Same, AsCompleted;
  }

  lemma SameByNumbers(a: Download, b: Download)
    ensures Same(a, b) <==>
              (a.hash == b.hash && exists i :: 0 <= i < 16 && a.hash[i] != 0) || (a.ecid == b.ecid && a.ecid != 0)
  {
    assert a.hash != NO_HASH <==> exists i :: 0 <= i < 16 && a.hash[i] != 0;
  }

  lemma InSingle(a: Download, b: Download)
    ensures InList([a], b) <==> Same(a, b)
  {
    hide Same;
    assert Same(a, b) ==> Same([a][0], b);
  }
}
