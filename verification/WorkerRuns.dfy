/** Every run of the worker: what holds between slots and what reaches the user interface. A run
    is any sequence of slot invocations with any replies. */
module WorkerRuns {
  import opened Outcomes
  import opened Bytes
  import opened Tags
  import opened Framing
  import opened Sources
  import opened Worker

  function Run(evs: seq<Event>): Step {
    if evs == [] then Step(IDLE, [])
    else
      var before := Run(evs[..|evs| - 1]);
      Stepped(before.state, evs[|evs| - 1]).After(before.signals)
  }

  ghost predicate BeforeShutdown(evs: seq<Event>) {
    forall i :: 0 <= i < |evs| ==> !evs[i].Shutdown?
  }

  // ---------------------------------------------------------------- What a trace tells

  /** Whether the last status other than Connecting is Connected, `live` standing for the past. */
  function Live(live: bool, trace: seq<Signal>): bool {
    if trace == [] then live
    else
      var last := trace[|trace| - 1];
      if last.StatusChanged? && !last.status.Connecting? then last.status.Connected? else Live(live, trace[..|trace| - 1])
  }

  predicate Plain(s: Signal) {
    s.StatusChanged? || s.LogMessage?
  }

  /** Only status and log signals while the trace says that there is no connection. */
  ghost predicate Quiet(live: bool, trace: seq<Signal>) {
    forall i :: 0 <= i < |trace| ==> Plain(trace[i]) || Live(live, trace[..i])
  }

  /** The last `searchingChanged` value, `on` standing for the past. */
  function Searching(on: bool, trace: seq<Signal>): bool {
    if trace == [] then on
    else
      var last := trace[|trace| - 1];
      if last.SearchingChanged? then last.on else Searching(on, trace[..|trace| - 1])
  }

  lemma {:induction false} LiveAppend(live: bool, a: seq<Signal>, b: seq<Signal>)
    ensures Live(live, a + b) == Live(Live(live, a), b)
  {
    if b == [] {
      assert a + b == a;
    } else {
      assert (a + b)[..|a + b| - 1] == a + b[..|b| - 1];
      LiveAppend(live, a, b[..|b| - 1]);
    }
  }

  lemma {:induction false} SearchingAppend(on: bool, a: seq<Signal>, b: seq<Signal>)
    ensures Searching(on, a + b) == Searching(Searching(on, a), b)
  {
    if b == [] {
      assert a + b == a;
    } else {
      assert (a + b)[..|a + b| - 1] == a + b[..|b| - 1];
      SearchingAppend(on, a, b[..|b| - 1]);
    }
  }

  lemma QuietAppend(live: bool, a: seq<Signal>, b: seq<Signal>)
    requires Quiet(live, a) && Quiet(Live(live, a), b)
    ensures Quiet(live, a + b)
  {
    hide Live, Plain;
    forall i | 0 <= i < |a + b| ensures Plain((a + b)[i]) || Live(live, (a + b)[..i]) {
      if i < |a| {
        assert (a + b)[..i] == a[..i];
      } else {
        assert (a + b)[..i] == a + b[..i - |a|];
        LiveAppend(live, a, b[..i - |a|]);
      }
    }
  }

  // ---------------------------------------------------------------- One step

  ghost predicate Between(s: State) {
    && s.timer == s.client
    && (s.searching ==> s.client)
    && (!s.client ==> s.sources == map[])
  }

  /** The signals from `s` to the state of `st` tell what changed: `live` is what the earlier trace
      said of the connection. */
  ghost predicate Tells(s: State, live: bool, st: Step) {
    && Live(live, st.signals) == (live && st.state.client)
    && Searching(s.searching, st.signals) == st.state.searching
    && (live == s.client ==> Quiet(live, st.signals))
    && (Between(s) ==> Between(st.state))
  }

  lemma TellsAppend(s: State, live: bool, a: Step, b: Step)
    requires Tells(s, live, a) && Tells(a.state, live && a.state.client, b)
    requires live == s.client ==> (live && a.state.client) == a.state.client
    requires b.state.client ==> a.state.client
    ensures Tells(s, live, b.After(a.signals))
  {
    hide Live, Searching, Quiet, Between;
    LiveAppend(live, a.signals, b.signals);
    SearchingAppend(s.searching, a.signals, b.signals);
    if live == s.client {
      QuietAppend(live, a.signals, b.signals);
    }
  }

  /** Signals other than status and searching change nothing, and need a connection. */
  lemma {:induction false} Inert(live: bool, on: bool, sigs: seq<Signal>)
    requires forall i :: 0 <= i < |sigs| ==> !sigs[i].StatusChanged? && !sigs[i].SearchingChanged?
    ensures Live(live, sigs) == live && Searching(on, sigs) == on
    ensures live || (forall i :: 0 <= i < |sigs| ==> Plain(sigs[i])) ==> Quiet(live, sigs)
  {
    forall i | 0 <= i <= |sigs| ensures Live(live, sigs[..i]) == live && Searching(on, sigs[..i]) == on {
      InertPrefix(live, on, sigs, i);
    }
    assert sigs[..|sigs|] == sigs;
  }

  lemma {:induction false} InertPrefix(live: bool, on: bool, sigs: seq<Signal>, i: nat)
    requires i <= |sigs|
    requires forall i :: 0 <= i < |sigs| ==> !sigs[i].StatusChanged? && !sigs[i].SearchingChanged?
    ensures Live(live, sigs[..i]) == live && Searching(on, sigs[..i]) == on
  {
    if i != 0 {
      assert sigs[..i][..i - 1] == sigs[..i - 1];
      InertPrefix(live, on, sigs, i - 1);
    }
  }

  lemma One(live: bool, on: bool, x: Signal)
    ensures Live(live, [x]) == if x.StatusChanged? && !x.status.Connecting? then x.status.Connected? else live
    ensures Searching(on, [x]) == if x.SearchingChanged? then x.on else on
    ensures Quiet(live, [x]) <==> Plain(x) || live
  {
    assert [x][..0] == [];
  }

  lemma TornDownTells(s: State, live: bool, status: ConnStatus)
    requires status.Error? || status.Disconnected?
    requires s.searching ==> s.client
    ensures Tells(s, live, TornDown(s, status))
  {
    hide Live, Searching, Quiet;
    var off, down := SearchingChanged(false), StatusChanged(status);
    One(live, s.searching, off);
    One(live, s.searching, down);
    One(live, false, down);
    if s.searching {
      Joined(live, true, [off], [down]);
    } else {
      assert [] + [down] == [down];
    }
  }

  /** Inert signals in front change nothing, if they need no connection or there is one. */
  lemma PrefixTells(s: State, live: bool, sigs: seq<Signal>, st: Step)
    requires Tells(s, live, st) && (st.state.client ==> s.client)
    requires forall i :: 0 <= i < |sigs| ==> !sigs[i].StatusChanged? && !sigs[i].SearchingChanged?
    requires s.client || forall i :: 0 <= i < |sigs| ==> Plain(sigs[i])
    ensures Tells(s, live, st.After(sigs))
  {
    hide Live, Searching, Quiet, Plain;
    Inert(live, s.searching, sigs);
    LiveAppend(live, sigs, st.signals);
    SearchingAppend(s.searching, sigs, st.signals);
    if live == s.client {
      QuietAppend(live, sigs, st.signals);
    }
  }

  lemma SilentTells(s: State, live: bool, t: State)
    requires t.client == s.client && t.searching == s.searching && (Between(s) ==> Between(t))
    requires live ==> s.client
    ensures Tells(s, live, Step(t, []))
  {
  }

  /** `searching_` set together with its signal. */
  lemma SearchFlagTells(s: State, live: bool, t: State)
    requires t.client == s.client && (Between(s) ==> Between(t)) && s.client && t.searching != s.searching
    ensures Tells(s, live, Step(t, [SearchingChanged(t.searching)]))
  {
    hide Live, Searching, Quiet;
    One(live, s.searching, SearchingChanged(t.searching));
  }

  lemma LostTells(s: State, live: bool)
    requires s.searching ==> s.client
    ensures Tells(s, live, Lost(s))
  {
    hide Tells, TornDown;
    TornDownTells(s, live, Error);
    assert !TornDown(s, Error).state.client by { TornDownClient(s, Error); }
    PrefixTells(s, live, [LogMessage], TornDown(s, Error));
  }

  lemma TornDownClient(s: State, status: ConnStatus)
    ensures !TornDown(s, status).state.client
  {
  }

  lemma JudgedTells(s: State, live: bool, progress: u32, now: nat)
    requires s.client && s.searching
    ensures Tells(s, live, Judged(s, progress, now)) && Judged(s, progress, now).state.client
  {
    hide Tells;
    var t := Judged(s, progress, now).state;
    if t.searching {
      SilentTells(s, live, t);
    } else {
      SearchFlagTells(s, live, t);
    }
  }

  lemma RefreshedTells(s: State, live: bool, f: Fetches)
    requires (s.searching ==> s.client) && (live ==> s.client)
    ensures Tells(s, live, Refreshed(s, f)) && (Refreshed(s, f).state.client ==> s.client)
  {
    hide Tells, TornDown, Judged, Updated;
    if !s.client {
      SilentTells(s, live, s);
    } else if !SixFetched(f) {
      LostTells(s, live);
    } else {
      var t := s.(sources := Updated(s.sources, f.update.value));
      var group := Group(f, t.sources);
      if !t.searching {
        SilentTells(s, live, t);
        PrefixTells(s, live, group, Step(t, []));
        assert group + [] == group;
      } else if !SearchFetched(f) {
        LostTells(t, live);
        SameTells(s, t, live, Lost(t));
        PrefixTells(s, live, group, Lost(t));
      } else {
        JudgedTells(t, live, f.progress.value, f.now);
        SameTells(s, t, live, Judged(t, f.progress.value, f.now));
        PrefixTells(s, live, group + [SearchProgressChanged(f.progress.value), SearchResultsUpdated(Some(f.results.value))],
                    Judged(t, f.progress.value, f.now));
      }
    }
  }

  lemma SameTells(s: State, t: State, live: bool, st: Step)
    requires Tells(t, live, st) && t == s.(sources := t.sources) && s.client
    ensures Tells(s, live, st)
  {
  }

  lemma FailedTells(s: State, live: bool, e: ErrorKind)
    requires s.client && (live ==> s.client)
    ensures Tells(s, live, Failed(s, e)) && (Failed(s, e).state.client ==> s.client)
  {
    hide Tells, TornDown;
    if e == Io {
      LostTells(s, live);
    } else {
      SilentTells(s, live, s);
      PrefixTells(s, live, [LogMessage], Step(s, []));
      assert [LogMessage] + [] == [LogMessage];
    }
  }

  lemma LogTells(s: State, live: bool)
    requires live ==> s.client
    ensures Tells(s, live, Step(s, [LogMessage]))
  {
    hide Tells;
    SilentTells(s, live, s);
    PrefixTells(s, live, [LogMessage], Step(s, []));
    assert [LogMessage] + [] == [LogMessage];
  }

  lemma CommandedTells(s: State, live: bool, done: Fetched<()>, f: Fetches)
    requires (s.searching ==> s.client) && (live ==> s.client)
    ensures Tells(s, live, Commanded(s, done, f)) && (Commanded(s, done, f).state.client ==> s.client)
  {
    hide Tells, Refreshed, Failed;
    if !s.client {
      LogTells(s, live);
    } else if done.Failure? {
      FailedTells(s, live, done.error);
    } else {
      RefreshedTells(s, live, f);
    }
  }

  lemma StartSearchTells(s: State, live: bool, done: Fetched<()>, f: Fetches)
    requires s.client
    ensures
      var st := Stepped(s, StartSearch(done, f));
      Tells(s, live, st) && (st.state.client ==> s.client)
  {
    hide Tells, Refreshed, Failed;
    var rest := [SearchResultsUpdated(None), SearchProgressChanged(0), LogMessage];
    var t := s.(searching := true, at100 := false);
    var off := t.(searching := false);
    var after := if done.Success? then Refreshed(t, f) else Failed(off, done.error).After([SearchingChanged(false)]);
    if done.Success? {
      RefreshedTells(t, live, f);
    } else {
      SearchFlagTells(t, live, off);
      FailedTells(off, live, done.error);
      TellsWhileHeld(t, live, Step(off, [SearchingChanged(false)]), Failed(off, done.error));
    }
    PrefixTells(t, live, rest, after);
    if s.searching {
      OnAgain(s, t, live, after.After(rest));
    } else {
      SearchFlagTells(s, live, t);
      TellsWhileHeld(s, live, Step(t, [SearchingChanged(true)]), after.After(rest));
    }
    var start := [SearchingChanged(true)] + rest;
    assert start == [SearchingChanged(true), SearchResultsUpdated(None), SearchProgressChanged(0), LogMessage];
    assert [SearchingChanged(true)] + (rest + after.signals) == start + after.signals;
    if done.Failure? {
      assert start + ([SearchingChanged(false)] + Failed(off, done.error).signals)
          == start + [SearchingChanged(false)] + Failed(off, done.error).signals;
    }
  }

  /** A search started over an earlier one announces itself again. */
  lemma OnAgain(s: State, t: State, live: bool, st: Step)
    requires s.client && s.searching && t == s.(at100 := t.at100) && Tells(t, live, st) && (st.state.client ==> t.client)
    ensures Tells(s, live, st.After([SearchingChanged(true)]))
  {
    hide Live, Searching, Quiet;
    One(live, true, SearchingChanged(true));
    LiveAppend(live, [SearchingChanged(true)], st.signals);
    SearchingAppend(true, [SearchingChanged(true)], st.signals);
    if live {
      QuietAppend(live, [SearchingChanged(true)], st.signals);
    }
  }

  lemma TellsWhileHeld(s: State, live: bool, a: Step, b: Step)
    requires s.client && a.state.client
    requires Tells(s, live, a) && Tells(a.state, live, b)
    ensures Tells(s, live, b.After(a.signals))
  {
    TellsAppend(s, live, a, b);
  }

  /** Every slot but connect and shutdown. */
  lemma SlotTells(s: State, live: bool, ev: Event)
    requires Between(s) && (live ==> s.client) && !ev.Connect? && !ev.Shutdown?
    ensures Tells(s, live, Stepped(s, ev)) && (Stepped(s, ev).state.client ==> s.client)
  {
    hide Tells, Refreshed, Failed, Commanded, TornDown, Prefs;
    match ev
    case Disconnect =>
      DisconnectTells(s, live);
    case Command(done, f) =>
      CommandedTells(s, live, done, f);
    case StartSearch(done, f) =>
      if s.client { StartSearchTells(s, live, done, f); } else { LogTells(s, live); }
    case StopSearch(done, f) =>
      var t := s.(searching := false);
      CommandedTells(t, live, done, f);
      if s.searching {
        SearchFlagTells(s, live, t);
        TellsWhileHeld(s, live, Step(t, [SearchingChanged(false)]), Commanded(t, done, f));
      } else {
        assert [] + Commanded(t, done, f).signals == Commanded(t, done, f).signals;
      }
    case FetchPrefs(prefs) =>
      if !s.client { LogTells(s, live); }
      else if prefs.Failure? { FailedTells(s, live, prefs.error); }
      else { PrefsTell(s, live, [], prefs); assert [] + Prefs(prefs) == Prefs(prefs); }
    case ApplyPrefs(done, prefs) =>
      if !s.client { LogTells(s, live); }
      else if done.Failure? { FailedTells(s, live, done.error); }
      else { PrefsTell(s, live, [LogMessage], prefs); }
    case Tick(f) =>
      RefreshedTells(s, live, f);
  }

  lemma PrefsTell(s: State, live: bool, log: seq<Signal>, prefs: Fetched<nat>)
    requires s.client && (log == [] || log == [LogMessage])
    ensures Tells(s, live, Step(s, log + Prefs(prefs)))
  {
    hide Tells;
    SilentTells(s, live, s);
    var sigs := log + Prefs(prefs);
    PrefixTells(s, live, sigs, Step(s, []));
    assert sigs + [] == sigs;
  }

  lemma DisconnectTells(s: State, live: bool)
    requires Between(s)
    ensures Tells(s, live, Stepped(s, Disconnect))
    ensures !Stepped(s, Disconnect).state.client
  {
    hide Live, Searching, Quiet;
    var down := TornDown(s, Disconnected);
    TornDownTells(s, live, Disconnected);
    LogTells(down.state, false);
    LiveAppend(live, down.signals, [LogMessage]);
    SearchingAppend(s.searching, down.signals, [LogMessage]);
    One(false, false, LogMessage);
    if live == s.client {
      QuietAppend(live, down.signals, [LogMessage]);
    }
  }

  /** A connect: the trace says afterwards that there is a connection exactly when the login
      succeeded and the first refresh did not lose it again. */
  lemma ConnectTells(s: State, live: bool, ev: Event)
    requires Between(s) && ev.Connect?
    ensures
      var st := Stepped(s, ev);
      && Live(live, st.signals) == (ev.login.Success? && st.state.client)
      && Searching(s.searching, st.signals) == st.state.searching
      && (live == s.client ==> Quiet(live, st.signals))
      && Between(st.state)
      && (ev.login.Failure? ==> st.state.client == s.client)
  {
    hide Live, Searching, Quiet, Refreshed, Prefs;
    var start := [StatusChanged(Connecting), LogMessage, LogMessage];
    Opening(live, s.searching);
    if ev.login.Failure? {
      var error := StatusChanged(Error);
      One(live, s.searching, error);
      Joined(live, s.searching, start, [error]);
      assert start + [error] == Stepped(s, ev).signals;
    } else {
      var up, prefs := [StatusChanged(Connected)], Prefs(ev.prefs);
      var t := s.(client := true, sources := map[], timer := true);
      RefreshedTells(t, true, ev.f);
      One(live, s.searching, StatusChanged(Connected));
      Joined(live, s.searching, start, up);
      PrefsTell(t, true, [], ev.prefs);
      assert [] + prefs == prefs;
      Joined(live, s.searching, start + up, prefs);
      Joined(live, s.searching, start + up + prefs, Refreshed(t, ev.f).signals);
      assert start + up == [StatusChanged(Connecting), LogMessage] + [LogMessage, StatusChanged(Connected)];
    }
  }

  lemma Opening(live: bool, on: bool)
    ensures
      var start := [StatusChanged(Connecting), LogMessage, LogMessage];
      Live(live, start) == live && Searching(on, start) == on && Quiet(live, start)
  {
    hide Live, Searching, Quiet;
    var connecting, logs := StatusChanged(Connecting), [LogMessage, LogMessage];
    One(live, on, connecting);
    Inert(live, on, logs);
    Joined(live, on, [connecting], logs);
    assert [connecting] + logs == [connecting, LogMessage, LogMessage];
  }

  lemma Joined(live: bool, on: bool, a: seq<Signal>, b: seq<Signal>)
    ensures Live(live, a + b) == Live(Live(live, a), b)
    ensures Searching(on, a + b) == Searching(Searching(on, a), b)
    ensures Quiet(live, a) && Quiet(Live(live, a), b) ==> Quiet(live, a + b)
  {
    LiveAppend(live, a, b);
    SearchingAppend(on, a, b);
    if Quiet(live, a) && Quiet(Live(live, a), b) {
      QuietAppend(live, a, b);
    }
  }

  // ---------------------------------------------------------------- Runs

  function LastLoginSucceeded(evs: seq<Event>): bool {
    if evs == [] then false
    else
      var last := evs[|evs| - 1];
      if last.Connect? then last.login.Success? else LastLoginSucceeded(evs[..|evs| - 1])
  }

  /** In every state between slots, before shutdown: the timer runs exactly while a client is held,
      only a held client can be searching or know sources, the last `searchingChanged` is
      `searching_`, and the last status (Connecting aside) is Connected exactly when a client is
      held and the last connect attempt did not fail. */
  lemma {:induction false} BetweenSlots(evs: seq<Event>)
    requires BeforeShutdown(evs)
    ensures
      var run := Run(evs);
      && Between(run.state)
      && Searching(false, run.signals) == run.state.searching
      && Live(false, run.signals) == (run.state.client && LastLoginSucceeded(evs))
  {
    hide Stepped, Quiet;
    if evs != [] {
      var front, ev := evs[..|evs| - 1], evs[|evs| - 1];
      BetweenSlots(front);
      var before := Run(front);
      var live := Live(false, before.signals);
      if ev.Connect? {
        ConnectTells(before.state, live, ev);
      } else {
        SlotTells(before.state, live, ev);
      }
      var st := Stepped(before.state, ev);
      LiveAppend(false, before.signals, st.signals);
      SearchingAppend(false, before.signals, st.signals);
    }
  }

  /** A connect failed while a client was held: the status says Error, the client is kept. */
  ghost predicate Stale(evs: seq<Event>) {
    Run(evs).state.client && !LastLoginSucceeded(evs)
  }

  /** One more slot after a quiet run that is not stale. */
  lemma QuietStep(evs: seq<Event>, ev: Event)
    requires BeforeShutdown(evs) && !ev.Shutdown? && !Stale(evs) && Quiet(false, Run(evs).signals)
    ensures Quiet(false, Run(evs + [ev]).signals)
  {
    hide Stepped, Between, Stale, Quiet;
    assert (evs + [ev])[..|evs|] == evs;
    StaleMeans(evs);
    BetweenSlots(evs);
    var before := Run(evs);
    var live := Live(false, before.signals);
    if ev.Connect? {
      ConnectTells(before.state, live, ev);
    } else {
      SlotTells(before.state, live, ev);
    }
    QuietAppend(false, before.signals, Stepped(before.state, ev).signals);
  }

  /** As long as no slot starts in a stale state, nothing but status and log signals follows a
      status other than Connected, until the next Connected. */
  lemma {:induction false} TraceIsQuiet(evs: seq<Event>)
    requires BeforeShutdown(evs)
    requires forall i :: 0 <= i < |evs| ==> !Stale(evs[..i])
    ensures Quiet(false, Run(evs).signals)
  {
    hide Stepped, Stale;
    if evs != [] {
      var front, ev := evs[..|evs| - 1], evs[|evs| - 1];
      forall i | 0 <= i < |front| ensures !Stale(front[..i]) {
        assert front[..i] == evs[..i];
      }
      TraceIsQuiet(front);
      QuietStep(front, ev);
      assert front + [ev] == evs;
    }
  }

  lemma StaleMeans(evs: seq<Event>)
    ensures Stale(evs) <==> Run(evs).state.client && !LastLoginSucceeded(evs)
  {
  }

  /** Connecting only while no client is held is enough for that, and the status then says
      Connected exactly while a client is held. */
  lemma {:induction false} IdleConnectsAreNeverStale(evs: seq<Event>)
    requires BeforeShutdown(evs)
    requires forall i :: 0 <= i < |evs| && evs[i].Connect? ==> !Run(evs[..i]).state.client
    ensures !Stale(evs)
    ensures Live(false, Run(evs).signals) == Run(evs).state.client
    ensures Quiet(false, Run(evs).signals)
  {
    hide Stepped, Between, Stale, Quiet;
    BetweenSlots(evs);
    StaleMeans(evs);
    forall i | 0 <= i <= |evs| ensures !Stale(evs[..i]) {
      NeverStaleUpTo(evs, i);
    }
    assert evs[..|evs|] == evs;
    TraceIsQuiet(evs);
  }

  lemma {:induction false} NeverStaleUpTo(evs: seq<Event>, i: nat)
    requires BeforeShutdown(evs) && i <= |evs|
    requires forall i :: 0 <= i < |evs| && evs[i].Connect? ==> !Run(evs[..i]).state.client
    ensures !Stale(evs[..i])
  {
    hide Stepped, Between, Live, Searching, Quiet;
    if i != 0 {
      NeverStaleUpTo(evs, i - 1);
      assert evs[..i][..i - 1] == evs[..i - 1];
      var front, ev := evs[..i - 1], evs[i - 1];
      BetweenSlots(front);
      var live := Live(false, Run(front).signals);
      if ev.Connect? {
        ConnectTells(Run(front).state, live, ev);
      } else {
        SlotTells(Run(front).state, live, ev);
      }
    }
  }

  /** Without that it fails, always: whatever led to a stale state, the next refresh that fetches
      its six answers sends a snapshot although the last status is not Connected. */
  lemma {:induction false} StaleBreaksQuiet(evs: seq<Event>, f: Fetches)
    requires BeforeShutdown(evs) && Stale(evs) && SixFetched(f)
    ensures !Quiet(false, Run(evs + [Tick(f)]).signals)
  {
    hide Live, Updated, TornDown, Judged;
    BetweenSlots(evs);
    var before, after := Run(evs), evs + [Tick(f)];
    assert after[..|after| - 1] == evs;
    var n := |before.signals|;
    var st := Stepped(before.state, Tick(f));
    assert st.signals[0] == StatsUpdated(f.stats.value);
    assert Run(after).signals[n] == st.signals[0];
    assert Run(after).signals[..n] == before.signals;
  }

  /** A run that was quiet so far stays quiet whatever the next slot is, if and only if it is not
      stale. */
  lemma {:induction false} QuietUnlessStale(evs: seq<Event>)
    requires BeforeShutdown(evs) && Quiet(false, Run(evs).signals)
    ensures !Stale(evs) <==> forall ev: Event :: !ev.Shutdown? ==> Quiet(false, Run(evs + [ev]).signals)
  {
    hide Stale, Quiet, Run;
    if Stale(evs) {
      var f := Fetches(Success(0), Success(0), Success(0), Success(0), Success(0), Success(Packet(1, [])), Success(0), Success(0), 0);
      StaleBreaksQuiet(evs, f);
    } else {
      forall ev: Event | !ev.Shutdown? ensures Quiet(false, Run(evs + [ev]).signals) {
        QuietStep(evs, ev);
      }
    }
  }

  /** Stale runs exist: a successful connect whose refresh works, then a connect that is refused. */
  lemma {:induction false} RefusedReconnectIsStale(prefs: Fetched<nat>, f: Fetches)
    requires SixFetched(f)
    ensures Stale([Connect(Success(()), prefs, f), Connect(Failure(AuthFailed), prefs, f)])
  {
    hide Updated;
    var first, second := Connect(Success(()), prefs, f), Connect(Failure(AuthFailed), prefs, f);
    assert [first, second][..1] == [first] && [first][..0] == [];
    assert Run([first]).state.client;
  }

  /** After a client is lost, in any run, stale or not, nothing but status and log signals is sent and
      no client is held until a connect succeeds. */
  lemma {:induction false} DownIsSilent(evs: seq<Event>, more: seq<Event>)
    requires BeforeShutdown(evs + more) && !Run(evs).state.client
    requires forall i :: 0 <= i < |more| && more[i].Connect? ==> more[i].login.Failure?
    ensures !Run(evs + more).state.client
    ensures
      var earlier, now := Run(evs).signals, Run(evs + more).signals;
      earlier <= now && forall i :: |earlier| <= i < |now| ==> Plain(now[i])
    decreases |more|
  {
    hide Stepped, Plain;
    if more == [] {
      assert evs + more == evs;
    } else {
      var front, ev := more[..|more| - 1], more[|more| - 1];
      var all := evs + more;
      assert all[..|all| - 1] == evs + front && all[|all| - 1] == ev;
      assert forall i :: 0 <= i < |evs + front| ==> (evs + front)[i] == all[i];
      DownIsSilent(evs, front);
      BetweenSlots(evs + front);
      DownStep(Run(evs + front).state, ev);
    }
  }

  lemma DownStep(s: State, ev: Event)
    requires Between(s) && !s.client && !ev.Shutdown? && (ev.Connect? ==> ev.login.Failure?)
    ensures
      var st := Stepped(s, ev);
      !st.state.client && forall i :: 0 <= i < |st.signals| ==> Plain(st.signals[i])
  {
    hide Updated;
  }

  /** Shutdown alone may leave a search on without a client: exactly when one was on. */
  lemma {:induction false} ShutdownKeepsSearching(evs: seq<Event>)
    requires BeforeShutdown(evs)
    ensures
      var s := Run(evs + [Shutdown]).state;
      !s.client && !s.timer && (Between(s) <==> !Run(evs).state.searching)
  {
    BetweenSlots(evs);
    assert (evs + [Shutdown])[..|evs|] == evs;
  }
}
