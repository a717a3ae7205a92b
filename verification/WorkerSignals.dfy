/** The signals of the worker, kind by kind: every status, search flag, progress, result list,
    preference set and log line that a slot sends, and nothing else. */
module WorkerSignals {
  import opened Outcomes
  import opened Bytes
  import opened Framing
  import Sources
  import opened Worker
  import opened WorkerRuns
  import opened WorkerSnapshots

  // ---------------------------------------------------------------- Sorting a trace by kind

  /** The values of each kind of signal in a trace, in order, and the number of log lines. */
  datatype Tally = Tally(
    statuses: seq<ConnStatus>, flags: seq<bool>, progress: seq<u32>, results: seq<Option<nat>>, prefs: seq<nat>, logs: nat)
  {
    function Plus(later: Tally): Tally {
      Tally(statuses + later.statuses, flags + later.flags, progress + later.progress, results + later.results,
            prefs + later.prefs, logs + later.logs)
    }
  }

  const NOTHING := Tally([], [], [], [], [], 0)

  function TallyOne(x: Signal): Tally {
    match x
    case StatusChanged(status) => NOTHING.(statuses := [status])
    case SearchingChanged(on) => NOTHING.(flags := [on])
    case SearchProgressChanged(progress) => NOTHING.(progress := [progress])
    case SearchResultsUpdated(results) => NOTHING.(results := [results])
    case PrefsUpdated(v) => NOTHING.(prefs := [v])
    case LogMessage => NOTHING.(logs := 1)
    case _ => NOTHING
  }

  function TallyOf(trace: seq<Signal>): Tally {
    if trace == [] then NOTHING else TallyOf(trace[..|trace| - 1]).Plus(TallyOne(trace[|trace| - 1]))
  }

  lemma PlusLaws(a: Tally, b: Tally, c: Tally)
    ensures NOTHING.Plus(a) == a && a.Plus(NOTHING) == a
    ensures a.Plus(b).Plus(c) == a.Plus(b.Plus(c))
  {
    assert a.Plus(b).Plus(c).statuses == a.Plus(b.Plus(c)).statuses;
    assert a.Plus(b).Plus(c).flags == a.Plus(b.Plus(c)).flags;
    assert a.Plus(b).Plus(c).progress == a.Plus(b.Plus(c)).progress;
    assert a.Plus(b).Plus(c).results == a.Plus(b.Plus(c)).results;
    assert a.Plus(b).Plus(c).prefs == a.Plus(b.Plus(c)).prefs;
  }

  lemma {:induction false} TallyAppend(a: seq<Signal>, b: seq<Signal>)
    ensures TallyOf(a + b) == TallyOf(a).Plus(TallyOf(b))
  {
    hide TallyOne, Tally.Plus;
    if b == [] {
      assert a + b == a;
      PlusLaws(TallyOf(a), NOTHING, NOTHING);
    } else {
      assert (a + b)[..|a + b| - 1] == a + b[..|b| - 1];
      TallyAppend(a, b[..|b| - 1]);
      PlusLaws(TallyOf(a), TallyOf(b[..|b| - 1]), TallyOne(b[|b| - 1]));
    }
  }

  lemma TallySingle(x: Signal)
    ensures TallyOf([x]) == TallyOne(x) && TallyOf([]) == NOTHING
  {
    hide TallyOne, Tally.Plus;
    var one := [x];
    assert one[..|one| - 1] == [];
    PlusLaws(TallyOne(x), NOTHING, NOTHING);
  }

  lemma TallyPair(x: Signal, y: Signal)
    ensures TallyOf([x, y]) == TallyOne(x).Plus(TallyOne(y))
  {
    hide TallyOf, TallyOne, Tally.Plus;
    TallySingle(x);
    TallySingle(y);
    TallyAppend([x], [y]);
    assert [x] + [y] == [x, y];
  }

  // ---------------------------------------------------------------- The parts of a slot

  function OffIf(on: bool): seq<bool> {
    if on then [false] else []
  }

  lemma TornDownTally(s: State, status: ConnStatus)
    ensures TallyOf(TornDown(s, status).signals) == NOTHING.(statuses := [status], flags := OffIf(s.searching))
  {
    hide TallyOf;
    TallyPair(SearchingChanged(false), StatusChanged(status));
    TallySingle(StatusChanged(status));
    assert [SearchingChanged(false)] + [StatusChanged(status)] == [SearchingChanged(false), StatusChanged(status)];
    assert [] + [StatusChanged(status)] == [StatusChanged(status)];
  }

  function LostTally(searching: bool): Tally {
    NOTHING.(statuses := [Error], flags := OffIf(searching), logs := 1)
  }

  lemma LostIsTallied(s: State)
    ensures TallyOf(Lost(s).signals) == LostTally(s.searching)
  {
    hide TornDown, TallyOf;
    TornDownTally(s, Error);
    TallySingle(LogMessage);
    TallyAppend([LogMessage], TornDown(s, Error).signals);
  }

  lemma GroupTally(f: Fetches, table: Sources.SourceTable)
    requires SixFetched(f)
    ensures TallyOf(Group(f, table)) == NOTHING
  {
    var g := Group(f, table);
    assert forall i :: 0 <= i < 6 ==> TallyOne(g[i]) == NOTHING;
    SilentTally(g);
  }

  lemma {:induction false} SilentTally(sigs: seq<Signal>)
    requires forall i :: 0 <= i < |sigs| ==> TallyOne(sigs[i]) == NOTHING
    ensures TallyOf(sigs) == NOTHING
  {
    hide TallyOne, Tally.Plus;
    if sigs != [] {
      SilentTally(sigs[..|sigs| - 1]);
      PlusLaws(NOTHING, NOTHING, NOTHING);
    }
  }

  /** What a refresh that starts in `s` sends besides snapshots, given the state it ends in. */
  function RefreshTally(s: State, f: Fetches, after: State): Tally {
    if !s.client then NOTHING
    else if !after.client then LostTally(s.searching)
    else if !s.searching then NOTHING
    else if f.progress.Failure? || f.results.Failure? then NOTHING
    else NOTHING.(flags := OffIf(!after.searching), progress := [f.progress.value], results := [Some(f.results.value)])
  }

  lemma RefreshIsTallied(s: State, f: Fetches)
    ensures TallyOf(Refreshed(s, f).signals) == RefreshTally(s, f, Refreshed(s, f).state)
  {
    hide TallyOf, TornDown, Sources.Updated, TallyOne, Group, Tally.Plus;
    TallySingle(LogMessage);
    if s.client {
      RefreshOutcome(s, f);
    }
    if s.client && !SixFetched(f) {
      LostIsTallied(s);
    } else if s.client {
      var t := s.(sources := Sources.Updated(s.sources, f.update.value));
      var group := Group(f, t.sources);
      GroupTally(f, t.sources);
      if s.searching && !SearchFetched(f) {
        LostIsTallied(t);
        TallyAppend(group, Lost(t).signals);
        PlusLaws(LostTally(true), NOTHING, NOTHING);
      } else if s.searching {
        SearchIsTallied(t, f, group);
      }
    }
  }

  lemma SearchIsTallied(t: State, f: Fetches, group: seq<Signal>)
    requires SearchFetched(f) && t.searching && TallyOf(group) == NOTHING
    ensures
      var judged := Judged(t, f.progress.value, f.now);
      var pair := [SearchProgressChanged(f.progress.value), SearchResultsUpdated(Some(f.results.value))];
      TallyOf(group + pair + judged.signals)
      == NOTHING.(flags := OffIf(!judged.state.searching), progress := [f.progress.value], results := [Some(f.results.value)])
  {
    hide TallyOf;
    var judged := Judged(t, f.progress.value, f.now);
    var pair := [SearchProgressChanged(f.progress.value), SearchResultsUpdated(Some(f.results.value))];
    TallyPair(pair[0], pair[1]);
    TallySingle(SearchingChanged(false));
    TallyAppend(group, pair);
    TallyAppend(group + pair, judged.signals);
  }

  // ---------------------------------------------------------------- A slot

  function Held(s: State, ev: Event): bool {
    s.client || (ev.Connect? && ev.login.Success?)
  }

  function Begins(s: State, ev: Event): bool {
    ev.StartSearch? && s.client
  }

  /** Everything a slot sends besides snapshots, given the state it starts in and the one it ends in. */
  function Expected(s: State, ev: Event, after: State): Tally {
    var lost := Held(s, ev) && !after.client;
    Tally(
      match ev {
        case Connect(login, _, _) => [Connecting] + (if login.Success? then [Connected] else [Error]) + if login.Success? && lost then [Error] else []
        case Disconnect => [Disconnected]
        case Shutdown => []
        case _ => if lost then [Error] else []
      },
      (if Begins(s, ev) then [true] else []) + OffIf((s.searching || Begins(s, ev)) && !after.searching),
      (if Begins(s, ev) then [0] else []) + if ReadOf(s, ev).Some? then [ReadOf(s, ev).value.progress] else [],
      (if Begins(s, ev) then [None] else []) + if ReadOf(s, ev).Some? then [Some(RefreshOf(s, ev).value.1.results.value)] else [],
      match ev {
        case Connect(Success(_), Success(v), _) => [v]
        case FetchPrefs(Success(v)) => if s.client then [v] else []
        case ApplyPrefs(Success(_), Success(v)) => if s.client then [v] else []
        case _ => []
      },
      match ev {
        case Connect(_, _, _) => if ev.login.Success? && lost then 3 else 2
        case Disconnect => 1
        case Shutdown => 0
        case Tick(_) => if lost then 1 else 0
        case _ =>
          if !s.client then 1
          else (if ev.StartSearch? then 1 else 0) + if CommandError(ev).Some? || lost || ev.ApplyPrefs? then 1 else 0
      })
  }

  lemma PrefsTally(prefs: Fetched<nat>)
    ensures TallyOf(Prefs(prefs)) == NOTHING.(prefs := if prefs.Success? then [prefs.value] else [])
  {
    hide TallyOf;
    TallySingle(PrefsUpdated(if prefs.Success? then prefs.value else 0));
  }

  lemma FailedTally(s: State, e: ErrorKind)
    ensures TallyOf(Failed(s, e).signals) == if e == Io then LostTally(s.searching) else NOTHING.(logs := 1)
  {
    hide TornDown, TallyOf;
    LostIsTallied(s);
    TallySingle(LogMessage);
  }

  lemma LoginTally()
    ensures TallyOf([StatusChanged(Connecting), LogMessage]) == NOTHING.(statuses := [Connecting], logs := 1)
    ensures TallyOf([LogMessage, StatusChanged(Connected)]) == NOTHING.(statuses := [Connected], logs := 1)
    ensures TallyOf([LogMessage, StatusChanged(Error)]) == NOTHING.(statuses := [Error], logs := 1)
  {
    hide TallyOf;
    TallyPair(StatusChanged(Connecting), LogMessage);
    TallyPair(LogMessage, StatusChanged(Connected));
    TallyPair(LogMessage, StatusChanged(Error));
  }

  lemma ConnectTally(s: State, ev: Event)
    requires Between(s) && ev.Connect?
    ensures TallyOf(Stepped(s, ev).signals) == Expected(s, ev, Stepped(s, ev).state)
  {
    hide TallyOf, Refreshed, Prefs, Sources.Updated, RefreshLoses;
    var start, up := [StatusChanged(Connecting), LogMessage], [LogMessage, StatusChanged(Connected)];
    LoginTally();
    if ev.login.Failure? {
      TallyAppend(start, [LogMessage, StatusChanged(Error)]);
    } else {
      var t := s.(client := true, sources := map[], timer := true);
      TallyAppend(start, up);
      var soFar := TallyOf(start + up);
      assert soFar == NOTHING.(statuses := [Connecting, Connected], logs := 2);
      PrefsTally(ev.prefs);
      TallyAppend(start + up, Prefs(ev.prefs));
      assert TallyOf(start + up + Prefs(ev.prefs)) == soFar.(prefs := if ev.prefs.Success? then [ev.prefs.value] else []);
      RefreshIsTallied(t, ev.f);
      RefreshReads(t, ev.f);
      TallyAppend(start + up + Prefs(ev.prefs), Refreshed(t, ev.f).signals);
    }
  }

  /** A refresh that keeps its client got all its answers. */
  lemma RefreshReads(s: State, f: Fetches)
    requires s.client
    ensures
      var t := Refreshed(s, f).state;
      && (t.client ==> SixFetched(f) && (s.searching ==> SearchFetched(f)))
      && (!t.client ==> !SixFetched(f) || (s.searching && !SearchFetched(f)))
      && (t.searching ==> s.searching && t.client)
  {
    RefreshOutcome(s, f);
  }

  /** What is left of client and search after a refresh. */
  lemma RefreshOutcome(s: State, f: Fetches)
    requires s.client
    ensures
      var t := Refreshed(s, f).state;
      && (t.client <==> !RefreshLoses(s, f))
      && (t.searching ==> s.searching && t.client)
  {
    hide Sources.Updated;
  }

  /** The signals that begin a search, for any values they may carry. */
  lemma OpeningTally(on: bool, results: Option<nat>, progress: u32)
    ensures
      TallyOf([SearchingChanged(on), SearchResultsUpdated(results), SearchProgressChanged(progress), LogMessage])
      == Tally([], [on], [progress], [results], [], 1)
  {
    hide TallyOf, Tally.Plus;
    var a, b := [SearchingChanged(on), SearchResultsUpdated(results)], [SearchProgressChanged(progress), LogMessage];
    TallyPair(a[0], a[1]);
    SumOf(TallyOne(a[0]), TallyOne(a[1]), Tally([], [on], [], [results], [], 0));
    TallyPair(b[0], b[1]);
    SumOf(TallyOne(b[0]), TallyOne(b[1]), Tally([], [], [progress], [], [], 1));
    TallyAppend(a, b);
    SumOf(TallyOf(a), TallyOf(b), Tally([], [on], [progress], [results], [], 1));
    assert a + b == [SearchingChanged(on), SearchResultsUpdated(results), SearchProgressChanged(progress), LogMessage];
  }

  lemma SumOf(a: Tally, b: Tally, sum: Tally)
    requires sum.statuses == a.statuses + b.statuses && sum.flags == a.flags + b.flags
    requires sum.progress == a.progress + b.progress && sum.results == a.results + b.results
    requires sum.prefs == a.prefs + b.prefs && sum.logs == a.logs + b.logs
    ensures a.Plus(b) == sum
  {
  }

  lemma StartTally(s: State, ev: Event)
    requires Between(s) && ev.StartSearch? && s.client
    ensures TallyOf(Stepped(s, ev).signals) == Expected(s, ev, Stepped(s, ev).state)
  {
    hide TallyOf, Refreshed, Failed, Sources.Updated, TallyOne;
    var opening := [SearchingChanged(true), SearchResultsUpdated(None), SearchProgressChanged(0), LogMessage];
    OpeningTally(true, None, 0);
    var t := s.(searching := true, at100 := false);
    if ev.done.Success? {
      RefreshIsTallied(t, ev.f);
      RefreshOutcome(t, ev.f);
      TallyAppend(opening, Refreshed(t, ev.f).signals);
    } else {
      FailedStartTally(s, ev, opening);
    }
  }

  lemma FailedStartTally(s: State, ev: Event, opening: seq<Signal>)
    requires ev.StartSearch? && s.client && ev.done.Failure?
    requires opening == [SearchingChanged(true), SearchResultsUpdated(None), SearchProgressChanged(0), LogMessage]
    requires TallyOf(opening) == Tally([], [true], [0], [None], [], 1)
    ensures TallyOf(Stepped(s, ev).signals) == Expected(s, ev, Stepped(s, ev).state)
  {
    hide TallyOf, Failed;
    var off := s.(searching := false, at100 := false);
    TallySingle(SearchingChanged(false));
    TallyAppend(opening, [SearchingChanged(false)]);
    FailedTally(off, ev.done.error);
    FailedOutcome(off, ev.done.error);
    TallyAppend(opening + [SearchingChanged(false)], Failed(off, ev.done.error).signals);
  }

  lemma FailedOutcome(s: State, e: ErrorKind)
    ensures
      var t := Failed(s, e).state;
      (t.client <==> s.client && e != Io) && (t.searching <==> s.searching && e != Io)
  {
  }

  lemma CommandedTally(s: State, done: Fetched<()>, f: Fetches)
    requires s.searching ==> s.client
    ensures
      var st := Commanded(s, done, f);
      TallyOf(st.signals) ==
        if !s.client then NOTHING.(logs := 1)
        else if done.Success? then RefreshTally(s, f, st.state)
        else if done.error == Io then LostTally(s.searching)
        else NOTHING.(logs := 1)
    ensures
      var t := Commanded(s, done, f).state;
      && (t.client <==> s.client && done != Failure(Io) && (done.Success? ==> !RefreshLoses(s, f)))
      && (t.searching ==> s.searching && t.client)
      && (done.Failure? && done.error != Io ==> t == s)
  {
    hide TallyOf, Refreshed, Sources.Updated, TornDown;
    TallySingle(LogMessage);
    if s.client && done.Success? {
      RefreshIsTallied(s, f);
      RefreshOutcome(s, f);
    } else if s.client {
      FailedTally(s, done.error);
      FailedOutcome(s, done.error);
    }
  }

  /** Each slot sends exactly what is expected of it: statuses, search flags, progress, results,
      preferences and log lines, each in order and with the values fetched. */
  lemma {:induction false} SlotSends(s: State, ev: Event)
    requires Between(s)
    ensures TallyOf(Stepped(s, ev).signals) == Expected(s, ev, Stepped(s, ev).state)
  {
    hide TallyOf, Refreshed, Failed, Commanded, TornDown, Prefs, Sources.Updated;
    TallySingle(LogMessage);
    match ev
    case Connect(_, _, _) =>
      ConnectTally(s, ev);
    case Disconnect =>
      TornDownTally(s, Disconnected);
      TornDownOutcome(s, Disconnected);
      TallyAppend(TornDown(s, Disconnected).signals, [LogMessage]);
    case Shutdown =>
    case Command(done, f) =>
      CommandedTally(s, done, f);
    case StartSearch(_, _) =>
      if s.client { StartTally(s, ev); }
    case StopSearch(done, f) =>
      StopTally(s, ev);
    case FetchPrefs(prefs) =>
      PrefsTally(prefs);
      if prefs.Failure? {
        FailedTally(s, prefs.error);
        FailedOutcome(s, prefs.error);
      }
    case ApplyPrefs(done, prefs) =>
      PrefsTally(prefs);
      TallyAppend([LogMessage], Prefs(prefs));
      if done.Failure? {
        FailedTally(s, done.error);
        FailedOutcome(s, done.error);
      }
    case Tick(f) =>
      RefreshIsTallied(s, f);
      if s.client {
        RefreshOutcome(s, f);
      } else {
        NoRefreshWithoutClient(s, f);
      }
  }

  lemma TornDownOutcome(s: State, status: ConnStatus)
    ensures !TornDown(s, status).state.client && !TornDown(s, status).state.searching
  {
  }

  lemma StopTally(s: State, ev: Event)
    requires Between(s) && ev.StopSearch?
    ensures TallyOf(Stepped(s, ev).signals) == Expected(s, ev, Stepped(s, ev).state)
  {
    hide TallyOf, Commanded, Sources.Updated, TallyOne, RefreshLoses, Refreshed, ReadOf, RefreshOf, Tally.Plus;
    var t := s.(searching := false);
    var off := if s.searching then [SearchingChanged(false)] else [];
    CommandedTally(t, ev.done, ev.f);
    OffTally(s.searching);
    TallyAppend(off, Commanded(t, ev.done, ev.f).signals);
    var after := Commanded(t, ev.done, ev.f).state;
    StopReads(s, ev);
    SumOf(TallyOf(off), TallyOf(Commanded(t, ev.done, ev.f).signals), Expected(s, ev, after));
  }

  lemma StopReads(s: State, ev: Event)
    requires ev.StopSearch?
    ensures ReadOf(s, ev).None?
  {
  }

  lemma OffTally(on: bool)
    ensures TallyOf(if on then [SearchingChanged(false)] else []) == NOTHING.(flags := OffIf(on))
  {
    hide TallyOf;
    TallySingle(SearchingChanged(false));
  }

  // ---------------------------------------------------------------- The state a slot leaves

  /** A client is held after a slot exactly if one was held or the login worked, nothing closed it, the
      slot's command had no transport error, and the refresh it reached, if any, got every answer. */
  lemma {:induction false} ClientAfter(s: State, ev: Event)
    ensures Stepped(s, ev).state.client <==>
              && Held(s, ev) && !ev.Disconnect? && !ev.Shutdown? && CommandError(ev) != Some(Io)
              && (RefreshOf(s, ev).Some? ==> !RefreshLoses(RefreshOf(s, ev).value.0, RefreshOf(s, ev).value.1))
  {
    hide Sources.Updated;
    if s.client {
      WhatLosesTheClient(s, ev);
    } else if ev.Connect? && ev.login.Success? {
      RefreshLosesTheClient(RefreshOf(s, ev).value.0, ev.f);
    }
  }

  /** A search is on after a slot exactly if it was on, or the slot began it and its command worked,
      the slot does not stop it, the client is still held, and the search did not end by itself;
      shutdown leaves it as it was. */
  lemma {:induction false} SearchAfter(s: State, ev: Event)
    requires Between(s)
    ensures Stepped(s, ev).state.searching <==>
              if ev.Shutdown? then s.searching
              else
                && (if ev.StartSearch? then s.client && ev.done.Success? else s.searching && !ev.StopSearch?)
                && Stepped(s, ev).state.client && !EndsBySelf(s, ev)
  {
    hide Sources.Updated, Refreshed;
    var lead := SplitAtRefresh(s, ev);
    if RefreshOf(s, ev).Some? {
      RefreshOutcome(RefreshOf(s, ev).value.0, RefreshOf(s, ev).value.1);
    } else if ev.Tick? {
      NoRefreshWithoutClient(s, ev.f);
    }
  }

  // ---------------------------------------------------------------- Statuses

  lemma {:induction false} StatusIsTallied(trace: seq<Signal>, status: ConnStatus)
    ensures StatusChanged(status) in trace <==> status in TallyOf(trace).statuses
  {
    if trace != [] {
      var front := trace[..|trace| - 1];
      StatusIsTallied(front, status);
      assert trace == front + [trace[|trace| - 1]];
    }
  }

  /** A held client was lost by something else than being closed. */
  predicate LosesClient(s: State, ev: Event) {
    Held(s, ev) && !Stepped(s, ev).state.client && !ev.Disconnect? && !ev.Shutdown?
  }

  /** Which status a slot reports: Connecting exactly for a connect, Connected exactly for one whose
      login worked, Disconnected exactly for a disconnect, and Error exactly when a login failed or a
      held client was lost otherwise. */
  lemma {:induction false} StatusesOfSlot(s: State, ev: Event)
    requires Between(s)
    ensures
      var sigs := Stepped(s, ev).signals;
      && (StatusChanged(Connecting) in sigs <==> ev.Connect?)
      && (StatusChanged(Connected) in sigs <==> ev.Connect? && ev.login.Success?)
      && (StatusChanged(Disconnected) in sigs <==> ev.Disconnect?)
      && (StatusChanged(Error) in sigs <==> (ev.Connect? && ev.login.Failure?) || LosesClient(s, ev))
  {
    hide Stepped, TallyOf, ReadOf, RefreshOf;
    var sigs := Stepped(s, ev).signals;
    SlotSends(s, ev);
    ClientAfter(s, ev);
    StatusIsTallied(sigs, Connecting);
    StatusIsTallied(sigs, Connected);
    StatusIsTallied(sigs, Disconnected);
    StatusIsTallied(sigs, Error);
  }

  /** The last status of a trace. */
  function LastStatus(trace: seq<Signal>): Option<ConnStatus> {
    if trace == [] then None
    else if trace[|trace| - 1].StatusChanged? then Some(trace[|trace| - 1].status)
    else LastStatus(trace[..|trace| - 1])
  }

  lemma {:induction false} LastIsTallied(trace: seq<Signal>)
    ensures
      var all := TallyOf(trace).statuses;
      LastStatus(trace) == if all == [] then None else Some(all[|all| - 1])
  {
    if trace != [] {
      LastIsTallied(trace[..|trace| - 1]);
    }
  }

  /** What a run sends: for each slot what is expected of it, and nothing else. */
  function ExpectedOfRun(evs: seq<Event>): Tally {
    if evs == [] then NOTHING
    else
      var front := evs[..|evs| - 1];
      ExpectedOfRun(front).Plus(Expected(Run(front).state, evs[|evs| - 1], Run(evs).state))
  }

  lemma {:induction false} RunSends(evs: seq<Event>)
    requires BeforeShutdown(evs)
    ensures TallyOf(Run(evs).signals) == ExpectedOfRun(evs)
  {
    hide Stepped, Expected, Tally.Plus, Between;
    TallySingle(LogMessage);
    if evs != [] {
      var front, ev := evs[..|evs| - 1], evs[|evs| - 1];
      RunSends(front);
      BetweenSlots(front);
      SlotSends(Run(front).state, ev);
      TallyAppend(Run(front).signals, Stepped(Run(front).state, ev).signals);
    }
  }

  /** The last status of a run: Disconnected after a disconnect, Error after a failed connect or any
      other loss of the client, Connected after a connect that kept its client, and otherwise what it
      was before the slot. */
  lemma {:induction false} LastStatusOfRun(evs: seq<Event>, ev: Event)
    requires BeforeShutdown(evs)
    ensures LastStatus(Run(evs + [ev]).signals) ==
              if ev.Disconnect? then Some(Disconnected)
              else if (ev.Connect? && ev.login.Failure?) || LosesClient(Run(evs).state, ev) then Some(Error)
              else if ev.Connect? then Some(Connected)
              else LastStatus(Run(evs).signals)
  {
    hide Stepped, TallyOf, ReadOf, RefreshOf, Between, LastStatus;
    var s, all := Run(evs).state, evs + [ev];
    assert all[..|evs|] == evs;
    BetweenSlots(evs);
    SlotSends(s, ev);
    ClientAfter(s, ev);
    TallyAppend(Run(evs).signals, Stepped(s, ev).signals);
    LastIsTallied(Run(evs).signals);
    LastIsTallied(Run(all).signals);
  }

  // ---------------------------------------------------------------- Order between the kinds

  function OffSignal(on: bool): seq<Signal> {
    if on then [SearchingChanged(false)] else []
  }

  /** A slot that reads its search ends with the six snapshots, the progress, the results and, if the
      search ended by itself, the flag, in this order. */
  lemma {:induction false} ReadingEndsSlot(s: State, ev: Event)
    requires ReadOf(s, ev).Some?
    ensures
      var sigs, f := Stepped(s, ev).signals, RefreshOf(s, ev).value.1;
      exists lead, group :: InOrder(group) &&
        sigs == lead + group + [SearchProgressChanged(f.progress.value), SearchResultsUpdated(Some(f.results.value))]
                + OffSignal(EndsBySelf(s, ev))
  {
    hide Stepped, Refreshed, Sources.Updated, Judged, SixFetched, SearchFetched, InOrder;
    var lead := SplitAtRefresh(s, ev);
    var (t, f) := RefreshOf(s, ev).value;
    ReadMeansClient(s, ev);
    var u := t.(sources := Sources.Updated(t.sources, f.update.value));
    RefreshWithReading(t, f, u);
    JudgedTail(u, f.progress.value, f.now);
    var group := Group(f, u.sources);
    GroupInOrder(f, u.sources);
    var pair := [SearchProgressChanged(f.progress.value), SearchResultsUpdated(Some(f.results.value))];
    assert lead + (group + pair + OffSignal(EndsBySelf(s, ev))) == lead + group + pair + OffSignal(EndsBySelf(s, ev));
  }

  lemma GroupInOrder(f: Fetches, table: Sources.SourceTable)
    requires SixFetched(f)
    ensures InOrder(Group(f, table))
  {
  }

  lemma ReadMeansClient(s: State, ev: Event)
    requires ReadOf(s, ev).Some?
    ensures
      var (t, f) := RefreshOf(s, ev).value;
      t.client && t.searching && SixFetched(f) && SearchFetched(f)
  {
  }

  lemma RefreshWithReading(t: State, f: Fetches, u: State)
    requires t.client && t.searching && SixFetched(f) && SearchFetched(f)
    requires u == t.(sources := Sources.Updated(t.sources, f.update.value))
    ensures Refreshed(t, f) ==
              Judged(u, f.progress.value, f.now)
                .After(Group(f, u.sources) + [SearchProgressChanged(f.progress.value), SearchResultsUpdated(Some(f.results.value))])
  {
    hide Sources.Updated, Judged;
  }

  lemma JudgedTail(u: State, progress: u32, now: nat)
    requires u.client && u.searching
    ensures
      var judged := Judged(u, progress, now);
      judged.state.client && judged.signals == OffSignal(!judged.state.searching)
  {
  }

  /** A slot that loses its client ends with a log line, the end of the search if one was on, and the
      Error status, in this order. */
  lemma {:induction false} LossEndsSlot(s: State, ev: Event)
    requires Between(s) && LosesClient(s, ev)
    ensures
      var on := if ev.StartSearch? then ev.done.Success? else s.searching && !ev.StopSearch?;
      exists lead :: Stepped(s, ev).signals == lead + [LogMessage] + OffSignal(on) + [StatusChanged(Error)]
  {
    hide Sources.Updated, Refreshed, SixFetched, SearchFetched;
    if RefreshOf(s, ev).Some? {
      var lead := SplitAtRefresh(s, ev);
      var (t, f) := RefreshOf(s, ev).value;
      var front := LostRefreshEnds(t, f);
      assert Stepped(s, ev).signals == (lead + front) + [LogMessage] + OffSignal(t.searching) + [StatusChanged(Error)];
    } else {
      FailedSlotEnds(s, ev);
    }
  }

  lemma LostRefreshEnds(t: State, f: Fetches) returns (front: seq<Signal>)
    requires t.client && !Refreshed(t, f).state.client
    ensures Refreshed(t, f).signals == front + [LogMessage] + OffSignal(t.searching) + [StatusChanged(Error)]
  {
    hide Sources.Updated;
    front := if SixFetched(f) then Group(f, Sources.Updated(t.sources, f.update.value)) else [];
  }

  lemma FailedSlotEnds(s: State, ev: Event)
    requires Between(s) && LosesClient(s, ev) && RefreshOf(s, ev).None?
    ensures
      var lead := if ev.StopSearch? then OffSignal(s.searching)
                  else if ev.StartSearch? then
                    [SearchingChanged(true), SearchResultsUpdated(None), SearchProgressChanged(0), LogMessage, SearchingChanged(false)]
                  else [];
      Stepped(s, ev).signals ==
        lead + [LogMessage] + OffSignal(s.searching && !ev.StopSearch? && !ev.StartSearch?) + [StatusChanged(Error)]
  {
    hide Sources.Updated, Refreshed;
  }
}
