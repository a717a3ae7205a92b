/** The worker of `core/ec/worker.cpp` as a state machine: its slots, the replies each slot gets
    from the daemon, the state between slots and the signals emitted. Slots may run in any order,
    and every exchange may succeed or fail in any way. */
module Worker {
  import opened Outcomes
  import opened Bytes
  import opened Framing
  import opened Sources

  const SEARCH_GRACE_MS := 12_000

  datatype ConnStatus = Disconnected | Connecting | Connected | Error

  /** The signals of `EcWorker`. Snapshots other than the source table stand for the value that
      was fetched, as an opaque number. */
  datatype Signal =
    | StatusChanged(status: ConnStatus)
    | LogMessage
    | StatsUpdated(v: nat)
    | DownloadsUpdated(v: nat)
    | ConnStateUpdated(v: nat)
    | ServersUpdated(v: nat)
    | SharedFilesUpdated(v: nat)
    | SourcesUpdated(table: SourceTable)
    | SearchProgressChanged(progress: u32)
    | SearchResultsUpdated(results: Option<nat>)  // None clears the list
    | SearchingChanged(on: bool)
    | PrefsUpdated(v: nat)

  type Fetched<T> = Result<T, ErrorKind>

  /** What the exchanges of one refresh return, and the clock when search progress is judged. */
  datatype Fetches = Fetches(
    stats: Fetched<nat>, downloads: Fetched<nat>, conn: Fetched<nat>, servers: Fetched<nat>,
    sharedFiles: Fetched<nat>, update: Reply, progress: Fetched<u32>, results: Fetched<nat>, now: nat)

  /** One slot invocation with its replies. `Command` is any slot that only runs a command. */
  datatype Event =
    | Connect(login: Fetched<()>, prefs: Fetched<nat>, f: Fetches)
    | Disconnect
    | Shutdown
    | Command(done: Fetched<()>, f: Fetches)
    | StartSearch(done: Fetched<()>, f: Fetches)
    | StopSearch(done: Fetched<()>, f: Fetches)
    | FetchPrefs(prefs: Fetched<nat>)
    | ApplyPrefs(done: Fetched<()>, prefs: Fetched<nat>)
    | Tick(f: Fetches)

  datatype State = State(client: bool, sources: SourceTable, timer: bool, searching: bool, at100: bool, at100Since: nat)

  const IDLE := State(false, map[], false, false, false, 0)

  /** A state and the signals emitted on the way to it. */
  datatype Step = Step(state: State, signals: seq<Signal>) {
    function After(earlier: seq<Signal>): Step {
      Step(state, earlier + signals)
    }
  }

  // ---------------------------------------------------------------- The slots as functions

  function TornDown(s: State, status: ConnStatus): Step {
    Step(s.(client := false, sources := map[], timer := false, searching := false),
         (if s.searching then [SearchingChanged(false)] else []) + [StatusChanged(status)])
  }

  function Lost(s: State): Step {
    TornDown(s, Error).After([LogMessage])
  }

  predicate SixFetched(f: Fetches) {
    f.stats.Success? && f.downloads.Success? && f.conn.Success? && f.servers.Success? && f.sharedFiles.Success? && f.update.Success?
  }

  predicate SearchFetched(f: Fetches) {
    f.progress.Success? && f.results.Success?
  }

  function Group(f: Fetches, table: SourceTable): seq<Signal>
    requires SixFetched(f)
  {
    [StatsUpdated(f.stats.value), DownloadsUpdated(f.downloads.value), ConnStateUpdated(f.conn.value),
     ServersUpdated(f.servers.value), SharedFilesUpdated(f.sharedFiles.value), SourcesUpdated(table)]
  }

  /** Progress of 100 or more starts the grace period, and ends the search when the grace period
      has passed; less than 100 cancels it. */
  function Judged(s: State, progress: u32, now: nat): Step {
    if progress < 100 then Step(s.(at100 := false), [])
    else if !s.at100 then Step(s.(at100 := true, at100Since := now), [])
    else if now - s.at100Since >= SEARCH_GRACE_MS then Step(s.(searching := false, at100 := false), [SearchingChanged(false)])
    else Step(s, [])
  }

  function Refreshed(s: State, f: Fetches): Step {
    if !s.client then Step(s, [])
    else if !SixFetched(f) then Lost(s)
    else
      var t := s.(sources := Updated(s.sources, f.update.value));
      var group := Group(f, t.sources);
      if !t.searching then Step(t, group)
      else if !SearchFetched(f) then Lost(t).After(group)
      else
        Judged(t, f.progress.value, f.now)
          .After(group + [SearchProgressChanged(f.progress.value), SearchResultsUpdated(Some(f.results.value))])
  }

  function Failed(s: State, e: ErrorKind): Step {
    if e == Io then TornDown(s, Error).After([LogMessage]) else Step(s, [LogMessage])
  }

  function Commanded(s: State, done: Fetched<()>, f: Fetches): Step {
    if !s.client then Step(s, [LogMessage])
    else if done.Failure? then Failed(s, done.error)
    else Refreshed(s, f)
  }

  function Prefs(prefs: Fetched<nat>): seq<Signal> {
    if prefs.Success? then [PrefsUpdated(prefs.value)] else []
  }

  function Stepped(s: State, ev: Event): Step {
    match ev
    case Connect(login, prefs, f) =>
      var start := [StatusChanged(Connecting), LogMessage];
      if login.Failure? then Step(s.(sources := map[]), start + [LogMessage, StatusChanged(Error)])
      else
        Refreshed(s.(client := true, sources := map[], timer := true), f)
          .After(start + [LogMessage, StatusChanged(Connected)] + Prefs(prefs))
    case Disconnect =>
      var down := TornDown(s, Disconnected);
      Step(down.state, down.signals + [LogMessage])
    case Shutdown => Step(s.(client := false, sources := map[], timer := false), [])
    case Command(done, f) => Commanded(s, done, f)
    case StartSearch(done, f) =>
      if !s.client then Step(s, [LogMessage])
      else
        var start := [SearchingChanged(true), SearchResultsUpdated(None), SearchProgressChanged(0), LogMessage];
        var t := s.(searching := true, at100 := false);
        if done.Success? then Refreshed(t, f).After(start)
        else Failed(t.(searching := false), done.error).After(start + [SearchingChanged(false)])
    case StopSearch(done, f) =>
      Commanded(s.(searching := false), done, f).After(if s.searching then [SearchingChanged(false)] else [])
    case FetchPrefs(prefs) =>
      if !s.client then Step(s, [LogMessage])
      else if prefs.Failure? then Failed(s, prefs.error)
      else Step(s, Prefs(prefs))
    case ApplyPrefs(done, prefs) =>
      if !s.client then Step(s, [LogMessage])
      else if done.Failure? then Failed(s, done.error)
      else Step(s, [LogMessage] + Prefs(prefs))
    case Tick(f) => Refreshed(s, f)
  }

  // ---------------------------------------------------------------- The worker object

  class EcWorker {
    var client: bool  // a client is held; the exchanges' replies are the slots' arguments
    var sources: SourceMap
    var timer: bool
    var searching: bool
    var at100: bool
    var at100Since: nat
    var emitted: seq<Signal>

    constructor ()
      ensures Now() == Step(IDLE, []) && fresh(sources)
    {
      client, timer, searching, at100, at100Since, emitted := false, false, false, false, 0, [];
      sources := new SourceMap();
    }

    ghost function Now(): Step
      reads this, sources
    {
      Step(State(client, sources.clients, timer, searching, at100, at100Since), emitted)
    }

    method Emit(signal: Signal)
      modifies this`emitted
      ensures emitted == old(emitted) + [signal]
    {
      emitted := emitted + [signal];
    }

    method Teardown(status: ConnStatus)
      modifies this, sources
      ensures sources == old(sources)
      ensures Now() == TornDown(old(Now().state), status).After(old(emitted))
    {
      timer := false;
      client := false;
      sources.clients := map[];
      if searching {
        searching := false;
        Emit(SearchingChanged(false));
      }
      Emit(StatusChanged(status));
    }

    method Fail()
      modifies this, sources
      ensures sources == old(sources)
      ensures Now() == Lost(old(Now().state)).After(old(emitted))
    {
      Emit(LogMessage);
      Teardown(Error);
    }

    method OnRefresh(f: Fetches)
      modifies this, sources
      ensures sources == old(sources)
      ensures Now() == Refreshed(old(Now().state), f).After(old(emitted))
    {
      hide Updated, Lost, Judged;
      if !client {
        return;
      }
      if f.stats.Failure? || f.downloads.Failure? || f.conn.Failure? || f.servers.Failure? || f.sharedFiles.Failure? {
        Fail();
        return;
      }
      var upd := sources.FetchClientUpdate(f.update);
      if upd.Failure? {
        Fail();
        return;
      }
      Emit(StatsUpdated(f.stats.value));
      Emit(DownloadsUpdated(f.downloads.value));
      Emit(ConnStateUpdated(f.conn.value));
      Emit(ServersUpdated(f.servers.value));
      Emit(SharedFilesUpdated(f.sharedFiles.value));
      Emit(SourcesUpdated(sources.clients));
      assert emitted == old(emitted) + Group(f, sources.clients);
      if searching {
        Search(f);
      }
    }

    /** The part of `onRefresh` that runs while a search is on. */
    method Search(f: Fetches)
      requires searching
      modifies this, sources
      ensures sources == old(sources)
      ensures
        var s := old(Now().state);
        Now() == if !SearchFetched(f) then Lost(s).After(old(emitted))
                 else Judged(s, f.progress.value, f.now)
                        .After(old(emitted) + [SearchProgressChanged(f.progress.value), SearchResultsUpdated(Some(f.results.value))])
    {
      if f.progress.Failure? || f.results.Failure? {
        Fail();
        return;
      }
      Emit(SearchProgressChanged(f.progress.value));
      Emit(SearchResultsUpdated(Some(f.results.value)));
      if f.progress.value >= 100 {
        if !at100 {
          at100 := true;
          at100Since := f.now;
        } else if f.now - at100Since >= SEARCH_GRACE_MS {
          searching := false;
          at100 := false;
          Emit(SearchingChanged(false));
        }
      } else {
        at100 := false;
      }
    }

    method RunConnected(done: Fetched<()>, f: Fetches)
      modifies this, sources
      ensures sources == old(sources)
      ensures Now() == Commanded(old(Now().state), done, f).After(old(emitted))
    {
      hide Refreshed;
      if !client {
        Emit(LogMessage);
        return;
      }
      if done.Failure? {
        CommandFailed(done.error);
        return;
      }
      OnRefresh(f);
    }

    /** Only a transport error invalidates the connection. */
    method CommandFailed(e: ErrorKind)
      modifies this, sources
      ensures sources == old(sources)
      ensures Now() == Failed(old(Now().state), e).After(old(emitted))
    {
      Emit(LogMessage);
      if e == Io {
        Teardown(Error);
      }
    }

    method ConnectToDaemon(login: Fetched<()>, prefs: Fetched<nat>, f: Fetches)
      modifies this, sources
      ensures sources == old(sources)
      ensures Now() == Stepped(old(Now().state), Connect(login, prefs, f)).After(old(emitted))
    {
      hide Refreshed;
      sources.clients := map[];
      Emit(StatusChanged(Connecting));
      Emit(LogMessage);
      if login.Failure? {
        Emit(LogMessage);
        Emit(StatusChanged(Error));
        return;
      }
      client := true;
      Emit(LogMessage);
      Emit(StatusChanged(Connected));
      if prefs.Success? {
        Emit(PrefsUpdated(prefs.value));
      }
      timer := true;
      OnRefresh(f);
    }

    method DisconnectFromDaemon()
      modifies this, sources
      ensures sources == old(sources)
      ensures Now() == Stepped(old(Now().state), Disconnect).After(old(emitted))
    {
      Teardown(Disconnected);
      Emit(LogMessage);
    }

    method ShutDown()
      modifies this, sources
      ensures sources == old(sources)
      ensures Now() == Stepped(old(Now().state), Shutdown).After(old(emitted))
    {
      timer := false;
      client := false;
      sources.clients := map[];
    }

    method BeginSearch(done: Fetched<()>, f: Fetches)
      modifies this, sources
      ensures sources == old(sources)
      ensures Now() == Stepped(old(Now().state), StartSearch(done, f)).After(old(emitted))
    {
      hide Refreshed, Failed;
      if !client {
        Emit(LogMessage);
        return;
      }
      searching := true;
      at100 := false;
      Emit(SearchingChanged(true));
      Emit(SearchResultsUpdated(None));
      Emit(SearchProgressChanged(0));
      Emit(LogMessage);
      if done.Failure? {
        searching := false;
        Emit(SearchingChanged(false));
        CommandFailed(done.error);
        return;
      }
      OnRefresh(f);
    }

    method EndSearch(done: Fetched<()>, f: Fetches)
      modifies this, sources
      ensures sources == old(sources)
      ensures Now() == Stepped(old(Now().state), StopSearch(done, f)).After(old(emitted))
    {
      hide Commanded;
      if searching {
        searching := false;
        Emit(SearchingChanged(false));
      }
      RunConnected(done, f);
    }

    method ReadPrefs(prefs: Fetched<nat>)
      modifies this, sources
      ensures sources == old(sources)
      ensures Now() == Stepped(old(Now().state), FetchPrefs(prefs)).After(old(emitted))
    {
      if !client {
        Emit(LogMessage);
        return;
      }
      if prefs.Failure? {
        CommandFailed(prefs.error);
        return;
      }
      Emit(PrefsUpdated(prefs.value));
    }

    method WritePrefs(done: Fetched<()>, prefs: Fetched<nat>)
      modifies this, sources
      ensures sources == old(sources)
      ensures Now() == Stepped(old(Now().state), ApplyPrefs(done, prefs)).After(old(emitted))
    {
      if !client {
        Emit(LogMessage);
        return;
      }
      if done.Failure? {
        CommandFailed(done.error);
        return;
      }
      Emit(LogMessage);
      if prefs.Success? {
        Emit(PrefsUpdated(prefs.value));
      }
    }
  }
}
