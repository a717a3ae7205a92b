/** What the worker's snapshots and searches come from: the refreshes of a run. */
module WorkerSnapshots {
  import opened Outcomes
  import opened Bytes
  import opened Tags
  import opened Framing
  import opened Sources
  import opened Worker
  import opened WorkerRuns

  /** The refresh a slot invocation reaches, with the state it starts in. */
  function RefreshOf(s: State, ev: Event): Option<(State, Fetches)> {
    match ev
    case Connect(login, _, f) =>
      if login.Success? then Some((s.(client := true, sources := map[], timer := true), f)) else None
    case Command(done, f) => if s.client && done.Success? then Some((s, f)) else None
    case StartSearch(done, f) =>
      if s.client && done.Success? then Some((s.(searching := true, at100 := false), f)) else None
    case StopSearch(done, f) => if s.client && done.Success? then Some((s.(searching := false), f)) else None
    case Tick(f) => if s.client then Some((s, f)) else None
    case _ => None
  }

  predicate IsSnapshot(s: Signal) {
    s.StatsUpdated? || s.DownloadsUpdated? || s.ConnStateUpdated? || s.ServersUpdated? || s.SharedFilesUpdated? || s.SourcesUpdated?
  }

  ghost predicate Loose(sigs: seq<Signal>) {
    forall i :: 0 <= i < |sigs| ==> !IsSnapshot(sigs[i])
  }

  /** A slot is its refresh, if it reaches one, behind signals that are no snapshots. */
  lemma SplitAtRefresh(s: State, ev: Event) returns (lead: seq<Signal>)
    ensures Loose(lead)
    ensures
      match RefreshOf(s, ev)
      case Some(r) => Stepped(s, ev) == Refreshed(r.0, r.1).After(lead)
      case None => Stepped(s, ev).signals == lead
  {
    hide Refreshed, Updated, Failed, TornDown;
    if RefreshOf(s, ev).None? {
      lead := Stepped(s, ev).signals;
      NoRefreshIsLoose(s, ev);
    } else {
      lead := [];
      match ev
      case Connect(_, prefs, _) =>
        lead := [StatusChanged(Connecting), LogMessage] + [LogMessage, StatusChanged(Connected)] + Prefs(prefs);
      case StartSearch(_, _) =>
        lead := [SearchingChanged(true), SearchResultsUpdated(None), SearchProgressChanged(0), LogMessage];
      case StopSearch(_, f) =>
        lead := if s.searching then [SearchingChanged(false)] else [];
      case Command(_, f) => Bare(Refreshed(s, f));
      case Tick(f) => Bare(Refreshed(s, f));
    }
  }

  lemma NoRefreshIsLoose(s: State, ev: Event)
    requires RefreshOf(s, ev).None?
    ensures Loose(Stepped(s, ev).signals)
  {
    hide Updated, Refreshed, Failed, TornDown, Loose, IsSnapshot;
    var log, off := [LogMessage], [SearchingChanged(false)];
    FixedSignalsAreLoose(if s.searching then off else []);
    match ev
    case Connect(_, _, _) =>
    case Disconnect =>
      TornDownIsLoose(s, Disconnected);
      LooseAppend(TornDown(s, Disconnected).signals, log);
    case Shutdown =>
    case Tick(f) => NoRefreshWithoutClient(s, f);
    case FetchPrefs(prefs) =>
      PrefsAreLoose(prefs);
      if prefs.Failure? { FailedIsLoose(s, prefs.error); }
    case ApplyPrefs(done, prefs) =>
      PrefsAreLoose(prefs);
      LooseAppend(log, Prefs(prefs));
      if done.Failure? { FailedIsLoose(s, done.error); }
    case Command(done, _) =>
      if done.Failure? { FailedIsLoose(s, done.error); }
    case StopSearch(done, f) =>
      var t := s.(searching := false);
      if done.Failure? { FailedIsLoose(t, done.error); }
      LooseAppend(if s.searching then off else [], Commanded(t, done, f).signals);
    case StartSearch(done, _) =>
      if s.client && done.Failure? {
        var t := s.(searching := false, at100 := false);
        FailedIsLoose(t, done.error);
        LooseAppend([SearchingChanged(true), SearchResultsUpdated(None), SearchProgressChanged(0), LogMessage] + off,
                    Failed(t, done.error).signals);
      }
  }

  lemma FixedSignalsAreLoose(off: seq<Signal>)
    requires off == [] || off == [SearchingChanged(false)]
    ensures Loose([]) && Loose([LogMessage]) && Loose(off)
    ensures Loose([StatusChanged(Connecting), LogMessage] + [LogMessage, StatusChanged(Error)])
    ensures Loose([SearchingChanged(true), SearchResultsUpdated(None), SearchProgressChanged(0), LogMessage]
                  + [SearchingChanged(false)])
  {
  }

  lemma LooseAppend(a: seq<Signal>, b: seq<Signal>)
    requires Loose(a) && Loose(b)
    ensures Loose(a + b)
  {
    hide IsSnapshot;
  }

  lemma PrefsAreLoose(prefs: Fetched<nat>)
    ensures Loose(Prefs(prefs))
  {
  }

  lemma TornDownIsLoose(s: State, status: ConnStatus)
    ensures Loose(TornDown(s, status).signals)
  {
  }

  lemma FailedIsLoose(s: State, e: ErrorKind)
    ensures Loose(Failed(s, e).signals)
  {
    hide TornDown;
    TornDownIsLoose(s, Error);
  }

  lemma Bare(st: Step)
    ensures st.After([]) == st
  {
    assert [] + st.signals == st.signals;
  }

  lemma NoRefreshWithoutClient(s: State, f: Fetches)
    ensures !s.client ==> Refreshed(s, f) == Step(s, [])
  {
    hide Updated;
  }

  // ---------------------------------------------------------------- What loses the connection

  predicate RefreshLoses(s: State, f: Fetches) {
    !SixFetched(f) || (s.searching && !SearchFetched(f))
  }

  /** The error of the slot's own command, as opposed to that of a login or a refresh. */
  function CommandError(ev: Event): Option<ErrorKind> {
    match ev
    case Command(Failure(e), _) => Some(e)
    case StartSearch(Failure(e), _) => Some(e)
    case StopSearch(Failure(e), _) => Some(e)
    case ApplyPrefs(Failure(e), _) => Some(e)
    case FetchPrefs(Failure(e)) => Some(e)
    case _ => None
  }

  /** A held client is lost by a disconnect or shutdown, by a transport error of the slot's own
      command, or by any error of the refresh the slot reaches, and by nothing else. Another error
      of the command leaves the connection, the timer and the sources as they were; only the search
      that the slot starts or stops is off. */
  lemma {:induction false} WhatLosesTheClient(s: State, ev: Event)
    requires s.client
    ensures !Stepped(s, ev).state.client <==>
              || ev.Disconnect? || ev.Shutdown? || CommandError(ev) == Some(Io)
              || (RefreshOf(s, ev).Some? && RefreshLoses(RefreshOf(s, ev).value.0, RefreshOf(s, ev).value.1))
    ensures CommandError(ev).Some? && CommandError(ev) != Some(Io) ==>
              Stepped(s, ev).state == s.(searching := s.searching && !ev.StartSearch? && !ev.StopSearch?,
                                         at100 := s.at100 && !ev.StartSearch?)
    ensures CommandError(ev).Some? && CommandError(ev) != Some(Io) ==>
              forall x :: x in Stepped(s, ev).signals ==> !x.StatusChanged? && !IsSnapshot(x)
  {
    hide Updated, Refreshed;
    if RefreshOf(s, ev).Some? {
      RefreshLosesTheClient(RefreshOf(s, ev).value.0, RefreshOf(s, ev).value.1);
    }
  }

  lemma RefreshLosesTheClient(s: State, f: Fetches)
    requires s.client
    ensures !Refreshed(s, f).state.client <==> RefreshLoses(s, f)
  {
    hide Updated;
  }

  // ---------------------------------------------------------------- Snapshots come in groups

  predicate InOrder(g: seq<Signal>) {
    |g| == 6 && g[0].StatsUpdated? && g[1].DownloadsUpdated? && g[2].ConnStateUpdated? && g[3].ServersUpdated?
    && g[4].SharedFilesUpdated? && g[5].SourcesUpdated?
  }

  /** What the interface shows after one refresh. */
  datatype Snapshot = Snapshot(stats: nat, downloads: nat, conn: nat, servers: nat, sharedFiles: nat, sources: SourceTable)

  function SnapshotIn(g: seq<Signal>): Snapshot
    requires InOrder(g)
  {
    Snapshot(g[0].v, g[1].v, g[2].v, g[3].v, g[4].v, g[5].table)
  }

  /** The snapshots in a trace; none if a snapshot signal stands outside a complete group of six in
      the fixed order, with nothing in between. */
  function Groups(trace: seq<Signal>): Option<seq<Snapshot>> {
    if trace == [] then Some([])
    else if !IsSnapshot(trace[0]) then Groups(trace[1..])
    else if |trace| < 6 || !InOrder(trace[..6]) || Groups(trace[6..]).None? then None
    else Some([SnapshotIn(trace[..6])] + Groups(trace[6..]).value)
  }

  lemma {:induction false} GroupsAppend(a: seq<Signal>, b: seq<Signal>)
    requires Groups(a).Some? && Groups(b).Some?
    ensures Groups(a + b) == Some(Groups(a).value + Groups(b).value)
  {
    hide InOrder, IsSnapshot, SnapshotIn;
    if a == [] {
      assert a + b == b && [] + Groups(b).value == Groups(b).value;
    } else if !IsSnapshot(a[0]) {
      assert (a + b)[1..] == a[1..] + b;
      GroupsAppend(a[1..], b);
    } else {
      assert (a + b)[6..] == a[6..] + b && (a + b)[..6] == a[..6];
      GroupsAppend(a[6..], b);
      var first := [SnapshotIn(a[..6])];
      assert first + Groups(a[6..]).value + Groups(b).value == first + (Groups(a[6..]).value + Groups(b).value);
    }
  }

  lemma {:induction false} LooseHasNoGroups(sigs: seq<Signal>)
    requires Loose(sigs)
    ensures Groups(sigs) == Some([])
  {
    if sigs != [] {
      LooseHasNoGroups(sigs[1..]);
    }
  }

  /** What one slot is to publish: the values one refresh fetched, if it fetched all six. */
  function Published(s: State, ev: Event): seq<Snapshot> {
    match RefreshOf(s, ev)
    case Some(r) => if SixFetched(r.1) then [Fetched6(r.0, r.1)] else []
    case None => []
  }

  function Fetched6(s: State, f: Fetches): Snapshot
    requires SixFetched(f)
  {
    Snapshot(f.stats.value, f.downloads.value, f.conn.value, f.servers.value, f.sharedFiles.value,
             Updated(s.sources, f.update.value))
  }

  function AllPublished(evs: seq<Event>): seq<Snapshot> {
    if evs == [] then []
    else
      var front := evs[..|evs| - 1];
      AllPublished(front) + Published(Run(front).state, evs[|evs| - 1])
  }

  lemma RefreshGroups(s: State, f: Fetches)
    requires s.client
    ensures Groups(Refreshed(s, f).signals) == Some(if SixFetched(f) then [Fetched6(s, f)] else [])
  {
    hide Updated, Groups;
    if SixFetched(f) {
      var all := Refreshed(s, f).signals;
      var group := Group(f, Updated(s.sources, f.update.value));
      assert all[..6] == group && Loose(all[6..]);
      LooseHasNoGroups(all[6..]);
      OneGroup(group);
      GroupsAppend(group, all[6..]);
      assert all == group + all[6..] && [Fetched6(s, f)] + [] == [Fetched6(s, f)];
    } else {
      LooseHasNoGroups(Refreshed(s, f).signals);
    }
  }

  lemma OneGroup(g: seq<Signal>)
    requires InOrder(g)
    ensures Groups(g) == Some([SnapshotIn(g)])
  {
    assert g[..6] == g && g[6..] == [] && Groups([]) == Some([]) && [SnapshotIn(g)] + [] == [SnapshotIn(g)];
  }

  /** In every run, snapshots reach the interface only as complete groups in the fixed order, one
      for every refresh that fetched all six answers, in the order of the refreshes and carrying
      exactly their values; no other refresh publishes anything of its own. */
  lemma {:induction false} SnapshotsAreRefreshes(evs: seq<Event>)
    ensures Groups(Run(evs).signals) == Some(AllPublished(evs))
  {
    hide Refreshed, Stepped, Groups, Updated;
    if evs == [] {
      LooseHasNoGroups([]);
    } else {
      var front, ev := evs[..|evs| - 1], evs[|evs| - 1];
      SnapshotsAreRefreshes(front);
      var s := Run(front).state;
      var lead := SplitAtRefresh(s, ev);
      LooseHasNoGroups(lead);
      var refresh := RefreshOf(s, ev);
      if refresh.Some? {
        RefreshGroups(refresh.value.0, refresh.value.1);
        GroupsAppend(lead, Refreshed(refresh.value.0, refresh.value.1).signals);
      }
      assert [] + Published(s, ev) == Published(s, ev);
      GroupsAppend(Run(front).signals, Stepped(s, ev).signals);
    }
  }

  // ---------------------------------------------------------------- The sources of a session

  /** The update replies merged since the last connect attempt or loss of the client. */
  function SessionUpdates(evs: seq<Event>): seq<Packet> {
    if evs == [] || !Run(evs).state.client then []
    else
      var front, ev := evs[..|evs| - 1], evs[|evs| - 1];
      var refresh := RefreshOf(Run(front).state, ev);
      (if ev.Connect? then [] else SessionUpdates(front))
      + if refresh.Some? && SixFetched(refresh.value.1) then [refresh.value.1.update.value] else []
  }

  lemma RefreshSources(s: State, f: Fetches)
    requires s.client && Refreshed(s, f).state.client
    ensures SixFetched(f) && Refreshed(s, f).state.sources == Updated(s.sources, f.update.value)
  {
    hide Updated;
  }

  lemma SlotSources(s: State, ev: Event)
    requires Between(s) && Stepped(s, ev).state.client
    ensures
      var refresh := RefreshOf(s, ev);
      var before := if ev.Connect? then map[] else s.sources;
      Stepped(s, ev).state.sources
      == if refresh.Some? && SixFetched(refresh.value.1) then Updated(before, refresh.value.1.update.value) else before
    ensures !ev.Connect? ==> s.client
  {
    hide Updated, Refreshed;
    var lead := SplitAtRefresh(s, ev);
    var refresh := RefreshOf(s, ev);
    if refresh.Some? {
      RefreshSources(refresh.value.0, refresh.value.1);
    }
    if ev.Tick? {
      NoRefreshWithoutClient(s, ev.f);
    }
  }

  /** The source table of the worker is always the table of its session's update replies; what
      that says of each source is `Sources.TableIsHistory`. */
  lemma {:induction false} SourcesOfSession(evs: seq<Event>)
    requires BeforeShutdown(evs)
    ensures Run(evs).state.sources == TableAfter(SessionUpdates(evs))
  {
    hide Stepped, Updated, RefreshOf, TableAfter, Between;
    BetweenSlots(evs);
    NoUpdatesYet();
    if !Run(evs).state.client {
      NoSourcesWhenIdle(Run(evs).state);
    } else if evs != [] {
      var front, ev := evs[..|evs| - 1], evs[|evs| - 1];
      BetweenSlots(front);
      SlotSources(Run(front).state, ev);
      if !ev.Connect? {
        SourcesOfSession(front);
      }
      var base := if ev.Connect? then [] else SessionUpdates(front);
      var refresh := RefreshOf(Run(front).state, ev);
      if refresh.Some? && SixFetched(refresh.value.1) {
        OneMoreUpdate(base, refresh.value.1.update.value);
      } else {
        assert base + [] == base;
      }
    }
  }

  lemma NoSourcesWhenIdle(s: State)
    requires Between(s) && !s.client
    ensures s.sources == map[]
  {
  }

  lemma NoUpdatesYet()
    ensures TableAfter([]) == map[]
  {
  }

  lemma OneMoreUpdate(replies: seq<Packet>, reply: Packet)
    ensures TableAfter(replies + [reply]) == Updated(TableAfter(replies), reply)
  {
    hide Updated;
    assert (replies + [reply])[..|replies|] == replies;
  }

  // ---------------------------------------------------------------- The end of a search

  /** A search progress read by a refresh: the clock and the value. */
  datatype Read = Read(now: nat, progress: u32)

  /** The read of a slot whose refresh gets as far as judging the progress. */
  function ReadOf(s: State, ev: Event): Option<Read> {
    match RefreshOf(s, ev)
    case Some(r) =>
      if r.0.searching && SixFetched(r.1) && SearchFetched(r.1) then Some(Read(r.1.now, r.1.progress.value)) else None
    case None => None
  }

  /** The readings since a search was last started. */
  function SearchReads(evs: seq<Event>): seq<Read> {
    if evs == [] then []
    else
      var s, ev := Run(evs[..|evs| - 1]).state, evs[|evs| - 1];
      (if ev.StartSearch? && s.client then [] else SearchReads(evs[..|evs| - 1]))
      + if ReadOf(s, ev).Some? then [ReadOf(s, ev).value] else []
  }

  predicate Complete(r: Read) {
    r.progress >= 100
  }

  /** The readings from `i` to `j` are all complete and span the grace period. */
  ghost predicate Window(readings: seq<Read>, i: nat, j: nat)
    requires i <= j < |readings|
  {
    readings[j].now - readings[i].now >= 12_000 && forall k :: i <= k <= j ==> Complete(readings[k])
  }

  /** Somewhere in the readings, progress stayed complete for the grace period. */
  ghost predicate GracePassed(readings: seq<Read>) {
    exists i, j :: 0 <= i <= j < |readings| && Window(readings, i, j)
  }

  ghost predicate ClockAdvances(readings: seq<Read>) {
    forall i, j :: 0 <= i < j < |readings| ==> readings[i].now <= readings[j].now
  }

  /** How far the worker's grace bookkeeping is after the readings of a running search. */
  datatype Grace = Below | Since(now: nat) | Over

  function GraceAfter(readings: seq<Read>): Grace {
    if readings == [] then Below
    else
      var g, last := GraceAfter(readings[..|readings| - 1]), readings[|readings| - 1];
      match g
      case Over => Over
      case Below => if Complete(last) then Since(last.now) else Below
      case Since(t) => if !Complete(last) then Below else if last.now - t >= SEARCH_GRACE_MS then Over else g
  }

  /** `readings[i..]` is the current stretch of complete readings. */
  ghost predicate CompleteSince(readings: seq<Read>, i: nat) {
    && i <= |readings|
    && (forall k :: i <= k < |readings| ==> Complete(readings[k]))
    && (i > 0 ==> !Complete(readings[i - 1]))
  }

  /** The bookkeeping is exact: it is over if and only if progress stayed complete for 12 s. */
  lemma {:induction false} GraceIsExact(readings: seq<Read>) returns (i: nat)
    requires ClockAdvances(readings)
    ensures GraceAfter(readings).Over? <==> GracePassed(readings)
    ensures !GraceAfter(readings).Over? ==>
              && CompleteSince(readings, i)
              && GraceAfter(readings) == if i == |readings| then Below else Since(readings[i].now)
  {
    i := 0;
    if readings != [] {
      var front, n := readings[..|readings| - 1], |readings| - 1;
      assert ClockAdvances(front);
      i := GraceIsExact(front);
      if GraceAfter(front).Over? {
        StillPassed(front, readings);
      } else if !Complete(readings[n]) {
        i := |readings|;
        NotYetPassed(readings);
      } else if GraceAfter(readings).Over? {
        assert Window(readings, i, n);
      } else {
        NotPassedWithin(readings, i);
      }
    }
  }

  lemma WindowOnPrefix(front: seq<Read>, readings: seq<Read>, i: nat, j: nat)
    requires front <= readings && i <= j < |front|
    ensures Window(front, i, j) <==> Window(readings, i, j)
  {
    assert forall k :: i <= k <= j ==> front[k] == readings[k];
  }

  lemma StillPassed(front: seq<Read>, readings: seq<Read>)
    requires GracePassed(front) && front <= readings
    ensures GracePassed(readings)
  {
    var i, j :| 0 <= i <= j < |front| && Window(front, i, j);
    WindowOnPrefix(front, readings, i, j);
  }

  lemma NotYetPassed(readings: seq<Read>)
    requires readings != [] && !Complete(readings[|readings| - 1]) && !GracePassed(readings[..|readings| - 1])
    ensures !GracePassed(readings)
  {
    forall i, j | 0 <= i <= j < |readings| ensures !Window(readings, i, j) {
      if j < |readings| - 1 {
        WindowOnPrefix(readings[..|readings| - 1], readings, i, j);
      }
    }
  }

  lemma NotPassedWithin(readings: seq<Read>, first: nat)
    requires readings != [] && !GracePassed(readings[..|readings| - 1]) && ClockAdvances(readings)
    requires first < |readings| && CompleteSince(readings, first)
    requires readings[|readings| - 1].now - readings[first].now < SEARCH_GRACE_MS
    ensures !GracePassed(readings)
  {
    forall i, j | 0 <= i <= j < |readings| ensures !Window(readings, i, j) {
      if j < |readings| - 1 {
        WindowOnPrefix(readings[..|readings| - 1], readings, i, j);
      } else if i < first {
        assert !Complete(readings[first - 1]);
      } else {
        assert readings[first].now <= readings[i].now;
      }
    }
  }

  function FieldsOf(s: State): Grace {
    if s.at100 then Since(s.at100Since) else Below
  }

  lemma RefreshFields(s: State, f: Fetches, readings: seq<Read>)
    requires s.client && s.searching && GraceAfter(readings) == FieldsOf(s)
    ensures
      var t := Refreshed(s, f).state;
      if SixFetched(f) && SearchFetched(f) then
        var g := GraceAfter(readings + [Read(f.now, f.progress.value)]);
        t.client && (t.searching <==> !g.Over?) && (t.searching ==> g == FieldsOf(t))
      else !t.client && !t.searching
  {
    hide Updated, GraceAfter;
    if f.progress.Success? {
      OneMoreRead(readings, Read(f.now, f.progress.value));
    }
  }

  /** One slot: its read, if any, moves the bookkeeping as it moves the worker's fields. */
  lemma SlotFields(s: State, ev: Event, base: seq<Read>)
    requires Between(s) && !ev.Shutdown?
    requires if ev.StartSearch? && s.client then base == [] else s.searching ==> GraceAfter(base) == FieldsOf(s)
    ensures
      var t := Stepped(s, ev).state;
      match ReadOf(s, ev)
      case Some(r) => t.client && (t.searching <==> !GraceAfter(base + [r]).Over?)
                      && (t.searching ==> GraceAfter(base + [r]) == FieldsOf(t))
      case None => (t.searching ==> GraceAfter(base) == FieldsOf(t)) && !EndsBySelf(s, ev)
  {
    hide Updated, GraceAfter, Refreshed;
    NoReadsYet();
    var lead := SplitAtRefresh(s, ev);
    var refresh := RefreshOf(s, ev);
    if ev.Tick? {
      NoRefreshWithoutClient(s, ev.f);
    }
    if refresh.Some? {
      var r, f := refresh.value.0, refresh.value.1;
      if r.searching {
        RefreshFields(r, f, base);
      } else {
        NotSearching(r, f);
      }
    }
  }

  lemma NotSearching(s: State, f: Fetches)
    requires !s.searching
    ensures !Refreshed(s, f).state.searching
  {
    hide Updated;
  }

  /** While a search runs, the worker's fields are the bookkeeping of its readings. */
  lemma {:induction false} FieldsAreGrace(evs: seq<Event>)
    requires BeforeShutdown(evs)
    ensures Run(evs).state.searching ==> GraceAfter(SearchReads(evs)) == FieldsOf(Run(evs).state)
  {
    hide Stepped, GraceAfter, ReadOf, FieldsOf, Between;
    if evs != [] {
      var front, ev := evs[..|evs| - 1], evs[|evs| - 1];
      FieldsAreGrace(front);
      BetweenSlots(front);
      var base := if ev.StartSearch? && Run(front).state.client then [] else SearchReads(front);
      SlotFields(Run(front).state, ev, base);
      assert base + [] == base;
    }
  }

  lemma NoReadsYet()
    ensures GraceAfter([]) == Below
  {
  }

  lemma OneMoreRead(readings: seq<Read>, last: Read)
    ensures
      GraceAfter(readings + [last]) ==
        match GraceAfter(readings)
        case Over => Over
        case Below => if Complete(last) then Since(last.now) else Below
        case Since(t) => if !Complete(last) then Below else if last.now - t >= SEARCH_GRACE_MS then Over else Since(t)
  {
    assert (readings + [last])[..|readings|] == readings;
  }

  /** The refresh of this slot found a search on, and ended it while keeping the connection. */
  ghost predicate EndsBySelf(s: State, ev: Event) {
    RefreshOf(s, ev).Some? && RefreshOf(s, ev).value.0.searching
    && Stepped(s, ev).state.client && !Stepped(s, ev).state.searching
  }

  /** A search ends by itself in a slot exactly when the slot reads its progress and completes a
      stretch of at least 12 s, inside this search, in which every reading was 100 or more. */
  lemma {:induction false} SearchEndsExactly(evs: seq<Event>, ev: Event)
    requires BeforeShutdown(evs + [ev]) && ClockAdvances(SearchReads(evs + [ev]))
    ensures EndsBySelf(Run(evs).state, ev) <==>
              ReadOf(Run(evs).state, ev).Some? && GracePassed(SearchReads(evs + [ev]))
  {
    hide Stepped, GraceAfter, ReadOf, FieldsOf, Between;
    var all := evs + [ev];
    assert all[..|evs|] == evs && all[|evs|] == ev;
    assert forall i :: 0 <= i < |evs| ==> evs[i] == all[i];
    FieldsAreGrace(evs);
    BetweenSlots(evs);
    var s := Run(evs).state;
    SlotFields(s, ev, if ev.StartSearch? && s.client then [] else SearchReads(evs));
    if ReadOf(s, ev).Some? {
      ReadMeansSearching(s, ev);
      var _ := GraceIsExact(SearchReads(all));
    }
  }

  lemma ReadMeansSearching(s: State, ev: Event)
    requires ReadOf(s, ev).Some?
    ensures RefreshOf(s, ev).Some? && RefreshOf(s, ev).value.0.searching
  {
  }

  /** With readings at least a second apart, a search that still runs has had at most 12 readings of
      which all are 100 or more: the 13th ends it. */
  lemma {:induction false} ThirteenthReadEnds(evs: seq<Event>)
    requires BeforeShutdown(evs) && Run(evs).state.searching
    requires
      var readings := SearchReads(evs);
      && (forall i :: 0 <= i < |readings| ==> Complete(readings[i]))
      && (forall i {:trigger readings[i]} :: 0 < i < |readings| ==> readings[i].now >= readings[i - 1].now + 1000)
    ensures |SearchReads(evs)| <= 12
  {
    hide Run, SearchReads, GraceAfter, Complete;
    FieldsAreGrace(evs);
    AtMostTwelve(SearchReads(evs));
  }

  lemma AtMostTwelve(readings: seq<Read>)
    requires !GraceAfter(readings).Over?
    requires forall i :: 0 <= i < |readings| ==> Complete(readings[i])
    requires forall i {:trigger readings[i]} :: 0 < i < |readings| ==> readings[i].now >= readings[i - 1].now + 1000
    ensures |readings| <= 12
  {
    hide GraceAfter, GracePassed, Complete;
    forall i, j | 0 <= i < j < |readings| ensures readings[i].now <= readings[j].now {
      Spaced(readings, i, j);
    }
    if |readings| >= 13 {
      ThirteenReads(readings);
    }
    var _ := GraceIsExact(readings);
  }

  lemma ThirteenReads(readings: seq<Read>)
    requires |readings| >= 13
    requires forall i :: 0 <= i < |readings| ==> Complete(readings[i])
    requires forall i {:trigger readings[i]} :: 0 < i < |readings| ==> readings[i].now >= readings[i - 1].now + 1000
    ensures GracePassed(readings)
  {
    Spaced(readings, 0, 12);
    assert Window(readings, 0, 12);
  }

  lemma {:induction false} Spaced(readings: seq<Read>, i: nat, j: nat)
    requires i <= j < |readings|
    requires forall i {:trigger readings[i]} :: 0 < i < |readings| ==> readings[i].now >= readings[i - 1].now + 1000
    ensures readings[i].now + 1000 * (j - i) <= readings[j].now
    decreases j
  {
    if i < j {
      Spaced(readings, i, j - 1);
    }
  }
}
