/** What every run of the serve loop keeps, over any interleaving of ticks and tool calls. */
module ServeRuns {
  import opened Basics
  import opened Model
  import opened Watch
  import opened Sessions
  import opened Serve

  datatype Config = Config(token: bool, noWatch: bool, interval: nat)

  datatype Event =
    | Tick(meta: MetaAnswers, pull: PullResult, now: nat)
    | Call(call: ToolCall, disk: Disk, pulls: Pulls, now: nat)

  /** The loop's state with a log of the pulls attempted since startup. */
  datatype World = World(w: ServeState, log: seq<Attempt>)

  function PullsMade(c: Config, x: World, e: Event): seq<Attempt> {
    match e
    case Tick(meta, pull, now) => AfterTick(x.w, c.token, meta, pull, c.interval, now).1.pulls
    case Call(call, disk, pulls, now) => AfterToolCall(x.w, call, disk, pulls, c.noWatch, c.interval, now).1.pulls
  }

  function Next(c: Config, x: World, e: Event): World {
    World(
      match e
      case Tick(meta, pull, now) => AfterTick(x.w, c.token, meta, pull, c.interval, now).0
      case Call(call, disk, pulls, now) => AfterToolCall(x.w, call, disk, pulls, c.noWatch, c.interval, now).0,
      x.log + PullsMade(c, x, e))
  }

  function Run(c: Config, x: World, events: seq<Event>): World {
    if events == [] then x else Next(c, Run(c, x, events[..|events| - 1]), events[|events| - 1])
  }

  // ---- backoff, counted from the log ----

  /** Pull failures since the last success, rate limits not counted. */
  function Failures(log: seq<Attempt>, key: string): nat {
    if log == [] then 0
    else
      var last, rest := log[|log| - 1], Failures(log[..|log| - 1], key);
      if last.key != key then rest
      else
        match last.pull
        case Ok(_) => 0
        case Err(Api(RateLimited(_))) => rest
        case Err(_) => rest + 1
  }

  /** All pulls attempted of one session. */
  function Attempts(log: seq<Attempt>, key: string): nat {
    if log == [] then 0 else Attempts(log[..|log| - 1], key) + if log[|log| - 1].key == key then 1 else 0
  }

  function Pow2(k: nat): nat {
    if k == 0 then 1 else 2 * Pow2(k - 1)
  }

  /** Five seconds doubled for every failure already counted, at most three hundred. */
  function Backoff(k: nat): nat {
    Min(BACKOFF_START * Pow2(k), BACKOFF_CAP)
  }

  lemma BackoffDoubles(k: nat)
    ensures Min(Backoff(k) * 2, BACKOFF_CAP) == Backoff(k + 1) && Backoff(0) == BACKOFF_START
  {
    assert Pow2(k + 1) == 2 * Pow2(k);
  }

  // ---- the invariant ----

  /** The watcher's watermark is the stored one; a session is mirrored exactly when something is stored, and
      then goes by the stored name; the backoff is the one its failures call for; and the log has every pull the session counted. */
  ghost predicate SessionOk(s: SessionState, log: seq<Attempt>) {
    && s.watcher.lastSeen == Watermark(s.meta)
    && (s.mirrored <==> s.meta.Some?)
    && s.name == (if s.meta.Some? then s.meta.value.name else s.key)
    && s.backoff == Backoff(Failures(log, s.key))
    && s.pulls == Attempts(log, s.key)
  }

  ghost predicate DistinctKeys(m: ManagerState) {
    forall i, j :: 0 <= i < j < |m.sessions| ==> m.sessions[i].key != m.sessions[j].key
  }

  /** A set default is the first session's key, so it names a live session. */
  ghost predicate DefaultLives(m: ManagerState) {
    m.defaultKey.Some? ==> m.sessions != [] && m.sessions[0].key == m.defaultKey.value
  }

  ghost predicate ManagerOk(m: ManagerState, log: seq<Attempt>) {
    && DistinctKeys(m) && DefaultLives(m)
    && (forall s <- m.sessions :: SessionOk(s, log))
    && (forall a <- log :: Sessions.Find(m.sessions, a.key) < |m.sessions|)
  }

  lemma PullKeepsSession(s: SessionState, log: seq<Attempt>, pull: PullResult, interval: nat)
    requires SessionOk(s, log)
    ensures SessionOk(AfterPull(s, pull, interval).0, log + [Attempt(s.key, pull)])
  {
    var more := log + [Attempt(s.key, pull)];
    assert more[..|log|] == log;
    BackoffDoubles(Failures(log, s.key));
  }

  lemma OtherPullKeepsSession(s: SessionState, log: seq<Attempt>, a: Attempt)
    requires a.key != s.key
    ensures SessionOk(s, log + [a]) <==> SessionOk(s, log)
  {
    assert (log + [a])[..|log|] == log;
  }

  lemma {:induction false} NeverPulled(log: seq<Attempt>, key: string)
    requires forall a <- log :: a.key != key
    ensures Failures(log, key) == 0 && Attempts(log, key) == 0
  {
    if log != [] {
      NeverPulled(log[..|log| - 1], key);
    }
  }

  lemma {:induction false} FindIs(sessions: seq<SessionState>, key: string, k: nat)
    requires k < |sessions| && sessions[k].key == key
    ensures Sessions.Find(sessions, key) < |sessions|
  {
    if sessions[0].key != key {
      FindIs(sessions[1..], key, k - 1);
    }
  }

  /** Pulling one session keeps the invariant. */
  lemma PullKeeps(m: ManagerState, log: seq<Attempt>, pos: nat, s: SessionState, pull: PullResult, interval: nat)
    requires ManagerOk(m, log) && pos < |m.sessions|
    requires s == m.sessions[pos].(watcher := s.watcher)
    ensures ManagerOk(WithSession(m, pos, AfterPull(s, pull, interval).0), log + [Attempt(s.key, pull)])
  {
    hide SessionOk;
    var more, after := log + [Attempt(s.key, pull)], WithSession(m, pos, AfterPull(s, pull, interval).0);
    assert AfterPull(s, pull, interval) == AfterPull(m.sessions[pos], pull, interval);
    PullKeepsSession(m.sessions[pos], log, pull, interval);
    forall i | 0 <= i < |after.sessions|
      ensures SessionOk(after.sessions[i], more) && after.sessions[i].key == m.sessions[i].key
    {
      if i != pos {
        assert m.sessions[i] in m.sessions && m.sessions[i].key != s.key;
        OtherPullKeepsSession(m.sessions[i], log, Attempt(s.key, pull));
      }
    }
    forall a | a in more ensures Sessions.Find(after.sessions, a.key) < |after.sessions| {
      var k := if a in log then Sessions.Find(m.sessions, a.key) else pos;
      FindIs(after.sessions, a.key, k);
    }
  }

  /** Replacing a session by one that only forgot failed polls keeps it too. */
  lemma WatchKeeps(m: ManagerState, log: seq<Attempt>, pos: nat, s: SessionState)
    requires ManagerOk(m, log) && pos < |m.sessions|
    requires s == m.sessions[pos].(watcher := s.watcher) && s.watcher.lastSeen == m.sessions[pos].watcher.lastSeen
    ensures ManagerOk(WithSession(m, pos, s), log)
  {
    var after := WithSession(m, pos, s);
    assert SessionOk(m.sessions[pos], log);
    forall a | a in log ensures Sessions.Find(after.sessions, a.key) < |after.sessions| {
      FindIs(after.sessions, a.key, Sessions.Find(m.sessions, a.key));
    }
  }

  lemma OpenKeeps(m: ManagerState, log: seq<Attempt>, key: Option<string>, disk: Disk)
    requires ManagerOk(m, log)
    ensures var (after, r) := AfterOpen(m, key, disk);
      && ManagerOk(after, log)
      && (r.Ok? ==> r.value < |after.sessions| && key.Some? && after.sessions[r.value].key == key.value)
  {
    var (after, r) := AfterOpen(m, key, disk);
    if after != m {
      forall a | a in log ensures a.key != key.value && Sessions.Find(after.sessions, a.key) < |after.sessions| {
        FindIs(after.sessions, a.key, Sessions.Find(m.sessions, a.key));
      }
      NeverPulled(log, key.value);
      BackoffDoubles(0);
    }
  }

  lemma PullAtKeeps(w: ServeState, m: ManagerState, log: seq<Attempt>, pos: nat, pull: PullResult, interval: nat,
        now: nat)
    requires ManagerOk(m, log) && pos < |m.sessions|
    ensures var (after, report) := AfterPullAt(w, m, pos, pull, interval, now);
      ManagerOk(after.manager, log + report.pulls)
  {
    hide ManagerOk, AfterPull;
    PullKeeps(m, log, pos, m.sessions[pos], pull, interval);
  }

  lemma TickKeeps(c: Config, x: World, e: Event)
    requires ManagerOk(x.w.manager, x.log) && e.Tick?
    ensures ManagerOk(Next(c, x, e).w.manager, Next(c, x, e).log)
  {
    hide ManagerOk, AfterPull;
    var n := |x.w.manager.sessions|;
    assert x.log + [] == x.log;
    if n > 0 && c.token {
      var idx := x.w.nextIdx % n;
      var s := x.w.manager.sessions[idx];
      var (watcher, tick) := Ticked(s.watcher, e.meta(s.key));
      var seen := s.(watcher := watcher);
      if tick == Changed {
        PullKeeps(x.w.manager, x.log, idx, seen, e.pull, c.interval);
      } else {
        WatchKeeps(x.w.manager, x.log, idx, seen);
      }
    }
  }

  lemma ResolveKeeps(m: ManagerState, log: seq<Attempt>, file: Option<Option<string>>, disk: Disk, pull: PullResult,
        interval: nat)
    requires ManagerOk(m, log)
    ensures var (after, r) := AfterResolve(m, file, disk, pull, interval);
      if SaysPulled(r) then
        && file.Some? && file.value.Some? && ManagerOk(after, log + [Attempt(file.value.value, pull)])
        && (r.Ok? ==> r.value.pos < |after.sessions| && after.sessions[r.value.pos].key == file.value.value)
      else ManagerOk(after, log)
  {
    hide ManagerOk;
    RoutingFits(m, file, disk, pull, interval);
    if file.Some? {
      OpenKeeps(m, log, file.value, disk);
      var (m1, r) := AfterOpen(m, file.value, disk);
      if r.Ok? {
        PullKeeps(m1, log, r.value, m1.sessions[r.value], pull, interval);
      }
    }
  }

  lemma CallKeeps(c: Config, x: World, e: Event)
    requires ManagerOk(x.w.manager, x.log) && e.Call?
    ensures ManagerOk(Next(c, x, e).w.manager, Next(c, x, e).log)
  {
    hide ManagerOk, AfterResolve, AfterPullAt, AfterOpen;
    var m, call := x.w.manager, e.call;
    assert x.log + [] == x.log;
    if call.tool == OpenTool {
      if call.file.Some? {
        OpenKeeps(m, x.log, call.file.value, e.disk);
        var (m1, r) := AfterOpen(m, call.file.value, e.disk);
        if r.Ok? {
          PullAtKeeps(x.w, m1, x.log, r.value, e.pulls(0), c.interval, e.now);
        }
      }
    } else if call.tool != FilesTool && call.tool != ProxiedTool {
      RoutingFits(m, call.file, e.disk, e.pulls(0), c.interval);
      ResolveKeeps(m, x.log, call.file, e.disk, e.pulls(0), c.interval);
      var (m1, r) := AfterResolve(m, call.file, e.disk, e.pulls(0), c.interval);
      if r.Ok? && call.tool == SyncTool && !r.value.pulled {
        PullAtKeeps(x.w, m1, x.log, r.value.pos, e.pulls(0), c.interval, e.now);
      }
    }
  }

  lemma {:induction false} RunKeeps(c: Config, x: World, events: seq<Event>)
    requires ManagerOk(x.w.manager, x.log)
    ensures ManagerOk(Run(c, x, events).w.manager, Run(c, x, events).log)
  {
    hide ManagerOk, Next;
    if events != [] {
      var front, last := events[..|events| - 1], events[|events| - 1];
      RunKeeps(c, x, front);
      match last {
        case Tick(_, _, _) => TickKeeps(c, Run(c, x, front), last);
        case Call(_, _, _, _) => CallKeeps(c, Run(c, x, front), last);
      }
    }
  }

  // ---- startup ----

  lemma StartedOneKeeps(m: ManagerState, log: seq<Attempt>, file: Option<string>, first: bool, noWatch: bool,
        disk: Disk, pull: PullResult, interval: nat)
    requires ManagerOk(m, log) && (first ==> m == ManagerState([], None))
    requires StartedOne(m, file, first, noWatch, disk, pull, interval).Ok?
    ensures ManagerOk(StartedOne(m, file, first, noWatch, disk, pull, interval).value,
                      log + StartAttempts(m, file, noWatch, disk, pull))
  {
    assert log + [] == log;
    OpenKeeps(m, log, file, disk);
    var (m1, r) := AfterOpen(m, file, disk);
    PullKeeps(m1, log, r.value, m1.sessions[r.value], pull, interval);
    hide SessionOk, AfterPull;
  }

  lemma {:induction false} StartedKeeps(m: ManagerState, log: seq<Attempt>, files: seq<Option<string>>, i: nat,
        noWatch: bool, disk: Disk, pulls: Pulls, interval: nat)
    requires ManagerOk(m, log) && (i == 0 ==> m == ManagerState([], None))
    requires Started(m, files, i, noWatch, disk, pulls, interval).Ok?
    ensures ManagerOk(Started(m, files, i, noWatch, disk, pulls, interval).value,
                      log + StartedLog(m, files, i, noWatch, disk, pulls, interval))
    decreases |files| - i
  {
    hide ManagerOk, StartedOne, StartAttempts;
    if i < |files| {
      StartedOneKeeps(m, log, files[i], i == 0, noWatch, disk, pulls(i), interval);
      var m1, more := StartedOne(m, files[i], i == 0, noWatch, disk, pulls(i), interval).value,
        StartAttempts(m, files[i], noWatch, disk, pulls(i));
      StartedKeeps(m1, log + more, files, i + 1, noWatch, disk, pulls, interval);
      var rest := StartedLog(m1, files, i + 1, noWatch, disk, pulls, interval);
      assert log + (more + rest) == log + more + rest;
    } else {
      assert log + [] == log;
    }
  }

  /** The pulls of the single-store startup. */
  function StartedDbLog(key: string, stored: Option<FileMeta>, noWatch: bool, pull: PullResult): seq<Attempt> {
    if noWatch || stored.Some? then [] else [Attempt(key, pull)]
  }

  lemma StartedDbKeeps(key: string, stored: Option<FileMeta>, noWatch: bool, pull: PullResult, interval: nat)
    requires StartedDb(key, stored, noWatch, pull, interval).Ok?
    ensures ManagerOk(StartedDb(key, stored, noWatch, pull, interval).value, StartedDbLog(key, stored, noWatch, pull))
  {
    var m := ManagerState([Opened(key, stored)], Some(key));
    BackoffDoubles(0);
    assert ManagerOk(m, []);
    PullKeeps(m, [], 0, m.sessions[0], pull, interval);
    assert [] + [Attempt(key, pull)] == [Attempt(key, pull)];
    assert m.sessions[0 := AfterPull(m.sessions[0], pull, interval).0] == [AfterPull(m.sessions[0], pull, interval).0];
  }

  /** Some startup that leads to these sessions, with the pulls it made. */
  ghost predicate Launched(m: ManagerState, log: seq<Attempt>) {
    || (exists files, noWatch, disk, pulls, interval ::
          && Started(ManagerState([], None), files, 0, noWatch, disk, pulls, interval) == Ok(m)
          && StartedLog(ManagerState([], None), files, 0, noWatch, disk, pulls, interval) == log)
    || (exists key, stored, noWatch, pull, interval ::
          StartedDb(key, stored, noWatch, pull, interval) == Ok(m) && StartedDbLog(key, stored, noWatch, pull) == log)
  }

  /** A world the loop can be in: some startup, then any run. */
  ghost predicate Loops(c: Config, m: ManagerState, log: seq<Attempt>, deadline: nat, events: seq<Event>, x: World) {
    Launched(m, log) && x == Run(c, World(ServeState(m, 0, deadline), log), events)
  }

  /** From startup on, over any ticks and tool calls: session keys stay distinct, a set default names a
      live session, every watermark is the stored one, every backoff counts that session's failures
      since its last success, and the log has exactly the pulls each session counted. */
  lemma LoopKeeps(c: Config, m: ManagerState, log: seq<Attempt>, deadline: nat, events: seq<Event>, x: World)
    requires Loops(c, m, log, deadline, events, x)
    ensures ManagerOk(x.w.manager, x.log)
  {
    hide ManagerOk;
    if files, noWatch, disk, pulls, interval :|
      && Started(ManagerState([], None), files, 0, noWatch, disk, pulls, interval) == Ok(m)
      && StartedLog(ManagerState([], None), files, 0, noWatch, disk, pulls, interval) == log {
      EmptyOk();
      StartedKeeps(ManagerState([], None), [], files, 0, noWatch, disk, pulls, interval);
      assert [] + log == log;
    } else {
      var key, stored, noWatch, pull, interval :|
        StartedDb(key, stored, noWatch, pull, interval) == Ok(m) && StartedDbLog(key, stored, noWatch, pull) == log;
      StartedDbKeeps(key, stored, noWatch, pull, interval);
    }
    RunKeeps(c, World(ServeState(m, 0, deadline), log), events);
  }

  lemma EmptyOk()
    ensures ManagerOk(ManagerState([], None), [])
  {
  }

  // ---- pull budget ----

  /** By the sessions' own counts, a tool call attempts at most one pull, and a `figmog_sync` or a
      `figmog_open` that reaches a session exactly one, of that session. */
  lemma OnePullPerCall(w: ServeState, call: ToolCall, disk: Disk, pulls: Pulls, noWatch: bool, interval: nat, now: nat)
    ensures var (after, report) := AfterToolCall(w, call, disk, pulls, noWatch, interval, now);
      var made := PullsOf(after.manager.sessions) - PullsOf(w.manager.sessions);
      && 0 <= made <= 1
      && ((call.tool == SyncTool || call.tool == OpenTool) && report.reached.Some? ==> made == 1)
      && (call.tool != SyncTool && call.file.None? ==> made == 0)
      && (call.tool == FilesTool || call.tool == ProxiedTool ==> made == 0)
  {
    ReportedArePulled(w, call, disk, pulls, noWatch, interval, now);
    hide PullsOf;
    ReportedOnce(w, call, disk, pulls, noWatch, interval, now);
  }

  lemma ReportedOnce(w: ServeState, call: ToolCall, disk: Disk, pulls: Pulls, noWatch: bool, interval: nat, now: nat)
    ensures var report := AfterToolCall(w, call, disk, pulls, noWatch, interval, now).1;
      && |report.pulls| <= 1
      && ((call.tool == SyncTool || call.tool == OpenTool) && report.reached.Some? ==> |report.pulls| == 1)
      && (call.tool != SyncTool && call.file.None? ==> report.pulls == [])
      && (call.tool == FilesTool || call.tool == ProxiedTool ==> report.pulls == [])
  {
    hide AfterResolve;
    RoutingFits(w.manager, call.file, disk, pulls(0), interval);
  }

  // ---- detection ----

  /** A poll reports no change exactly when the endpoint names the very modification time that is
      stored; so nothing is ever reported unchanged against data not in the store. */
  lemma UnchangedMeansStored(c: Config, x: World, meta: MetaAnswers, pull: PullResult, now: nat)
    requires ManagerOk(x.w.manager, x.log)
    ensures var report := AfterTick(x.w, c.token, meta, pull, c.interval, now).1;
      report.polled.Some? ==>
        var s := x.w.manager.sessions[report.polled.value];
        (report.tick == Unchanged <==> s.meta.Some? && meta(s.key) == Ok(s.meta.value.lastModified))
  {
    if x.w.manager.sessions != [] {
      var s := x.w.manager.sessions[x.w.nextIdx % |x.w.manager.sessions|];
      assert SessionOk(s, x.log);
    }
  }

  /** A change whose pull failed is reported as a change again by the next poll of that session. */
  lemma FailedPullIsDetectedAgain(c: Config, x: World, meta: MetaAnswers, pull: PullResult, now: nat)
    requires ManagerOk(x.w.manager, x.log) && pull.Err?
    ensures var (w, report) := AfterTick(x.w, c.token, meta, pull, c.interval, now);
      report.tick == Changed ==>
        report.polled.Some? && var s := w.manager.sessions[report.polled.value];
        s.meta == x.w.manager.sessions[report.polled.value].meta && Ticked(s.watcher, meta(s.key)).1 == Changed
  {
    if x.w.manager.sessions != [] {
      var s := x.w.manager.sessions[x.w.nextIdx % |x.w.manager.sessions|];
      assert SessionOk(s, x.log);
    }
  }

  /** After a successful pull the next poll is quiet exactly when the meta endpoint agrees with the file
      endpoint on the modification time. */
  lemma QuietAfterPull(s: SessionState, stored: FileMeta, interval: nat, touched: string)
    ensures Ticked(AfterPull(s, Ok(stored), interval).0.watcher, Ok(touched)).1 == Unchanged <==> touched == stored.lastModified
  {
  }

  /** The call asks for a pull of the session of `key` although it is mirrored: it opens or syncs that file,
      by name or, a sync, as the default one. */
  predicate AsksFor(m: ManagerState, call: ToolCall, key: string) {
    || ((call.tool == OpenTool || call.tool == SyncTool) && call.file == Some(Some(key)))
    || (call.tool == SyncTool && call.file.None? && EffectiveDefaultKey(m) == Some(key))
  }

  /** One file is quiet: its meta endpoint, when it answers, names the stored modification time, and no
      call asks for its pull. The other files may do what they like. */
  ghost predicate QuietFor(m: ManagerState, e: Event, key: string, stored: string) {
    match e
    case Tick(meta, _, _) => meta(key).Err? || meta(key) == Ok(stored)
    case Call(call, _, _, _) => !AsksFor(m, call, key)
  }

  /** It is quiet at every event of a run. */
  ghost predicate QuietThrough(c: Config, x: World, events: seq<Event>, key: string, stored: string) {
    events == [] ||
      var front, last := events[..|events| - 1], events[|events| - 1];
      QuietThrough(c, x, front, key, stored) && QuietFor(Run(c, x, front).w.manager, last, key, stored)
  }

  /** Session `i` is in `m` with the key, the stored row and the count of pulls it has in `s`. */
  ghost predicate Stands(m: ManagerState, i: nat, s: SessionState) {
    i < |m.sessions| && m.sessions[i].key == s.key && m.sessions[i].meta == s.meta && m.sessions[i].pulls == s.pulls
  }

  lemma QuietTick(c: Config, x: World, e: Event, i: nat)
    requires ManagerOk(x.w.manager, x.log) && e.Tick? && i < |x.w.manager.sessions|
    requires var s := x.w.manager.sessions[i]; s.meta.Some? && QuietFor(x.w.manager, e, s.key, s.meta.value.lastModified)
    ensures var s := x.w.manager.sessions[i];
      && Stands(Next(c, x, e).w.manager, i, s)
      && forall a <- PullsMade(c, x, e) :: a.key != s.key
  {
    hide AfterPull, SessionOk;
    UnchangedMeansStored(c, x, e.meta, e.pull, e.now);
    var n := |x.w.manager.sessions|;
    var idx := x.w.nextIdx % n;
    if idx != i {
      PulledKeepsKey(x.w.manager.sessions[idx], e.meta, e.pull, c.interval);
    }
  }

  lemma PulledKeepsKey(s: SessionState, meta: MetaAnswers, pull: PullResult, interval: nat)
    ensures AfterPull(s.(watcher := Ticked(s.watcher, meta(s.key)).0), pull, interval).0.key == s.key
  {
  }

  lemma OpenStands(m: ManagerState, log: seq<Attempt>, key: Option<string>, disk: Disk, i: nat)
    requires ManagerOk(m, log) && i < |m.sessions|
    ensures var (after, r) := AfterOpen(m, key, disk);
      && Stands(after, i, m.sessions[i]) && after.sessions[i] == m.sessions[i]
      && (r.Ok? && key != Some(m.sessions[i].key) ==> r.value != i)
      && (key == Some(m.sessions[i].key) ==> r == Ok(i))
  {
    if key == Some(m.sessions[i].key) {
      FindIs(m.sessions, m.sessions[i].key, i);
    }
  }

  lemma QuietResolve(m: ManagerState, log: seq<Attempt>, file: Option<Option<string>>, disk: Disk, pull: PullResult,
        interval: nat, i: nat)
    requires ManagerOk(m, log) && i < |m.sessions| && m.sessions[i].meta.Some?
    ensures var (after, r) := AfterResolve(m, file, disk, pull, interval);
      && Stands(after, i, m.sessions[i])
      && (SaysPulled(r) ==> file != Some(Some(m.sessions[i].key)))
      && (r.Ok? && r.value.pos == i ==>
            file == Some(Some(m.sessions[i].key)) || (file.None? && EffectiveDefaultKey(m) == Some(m.sessions[i].key)))
  {
    hide AfterPull, ManagerOk;
    MirroredIf(m, log, i);
    if file.Some? {
      OpenStands(m, log, file.value, disk, i);
    }
  }

  lemma MirroredIf(m: ManagerState, log: seq<Attempt>, i: nat)
    requires ManagerOk(m, log) && i < |m.sessions|
    ensures m.sessions[i].mirrored <==> m.sessions[i].meta.Some?
  {
    assert SessionOk(m.sessions[i], log);
  }

  lemma QuietCall(c: Config, x: World, e: Event, i: nat)
    requires ManagerOk(x.w.manager, x.log) && e.Call? && i < |x.w.manager.sessions|
    requires x.w.manager.sessions[i].meta.Some? && !AsksFor(x.w.manager, e.call, x.w.manager.sessions[i].key)
    ensures var s := x.w.manager.sessions[i];
      && Stands(Next(c, x, e).w.manager, i, s)
      && forall a <- PullsMade(c, x, e) :: a.key != s.key
  {
    hide AfterPull, ManagerOk, AfterResolve, AfterOpen;
    var m, call, s := x.w.manager, e.call, x.w.manager.sessions[i];
    if call.tool == OpenTool {
      if call.file.Some? {
        OpenStands(m, x.log, call.file.value, e.disk, i);
        OpenKeeps(m, x.log, call.file.value, e.disk);
      }
    } else if call.tool != FilesTool && call.tool != ProxiedTool {
      RoutingFits(m, call.file, e.disk, e.pulls(0), c.interval);
      ResolveKeeps(m, x.log, call.file, e.disk, e.pulls(0), c.interval);
      QuietResolve(m, x.log, call.file, e.disk, e.pulls(0), c.interval, i);
      var (after, r) := AfterResolve(m, call.file, e.disk, e.pulls(0), c.interval);
      if call.tool == SyncTool && r.Ok? && !r.value.pulled {
        OtherKey(after, x.log, r.value.pos, i);
      }
    }
  }

  lemma OtherKey(m: ManagerState, log: seq<Attempt>, pos: nat, i: nat)
    requires ManagerOk(m, log) && pos < |m.sessions| && i < |m.sessions| && pos != i
    ensures m.sessions[pos].key != m.sessions[i].key
  {
  }

  /** While one file is quiet, whatever the other files and their polls do, and even if its own polls
      fail, no run of ticks and calls pulls it or changes what is stored of it. */
  lemma {:induction false} QuietFileIsLeftAlone(c: Config, x: World, events: seq<Event>, i: nat)
    requires ManagerOk(x.w.manager, x.log) && i < |x.w.manager.sessions|
    requires var s := x.w.manager.sessions[i];
      s.meta.Some? && QuietThrough(c, x, events, s.key, s.meta.value.lastModified)
    ensures var s, y := x.w.manager.sessions[i], Run(c, x, events);
      && Stands(y.w.manager, i, s)
      && x.log <= y.log && forall a <- y.log[|x.log|..] :: a.key != s.key
  {
    hide ManagerOk, Next, PullsMade, QuietFor;
    if events != [] {
      var front, e, s := events[..|events| - 1], events[|events| - 1], x.w.manager.sessions[i];
      QuietFileIsLeftAlone(c, x, front, i);
      RunKeeps(c, x, front);
      var y := Run(c, x, front);
      QuietStep(c, y, e, i, s.key, s.meta.value.lastModified);
      LogGrows(c, y, e);
      assert (y.log + PullsMade(c, y, e))[|x.log|..] == y.log[|x.log|..] + PullsMade(c, y, e);
    }
  }

  lemma QuietStep(c: Config, x: World, e: Event, i: nat, key: string, stored: string)
    requires ManagerOk(x.w.manager, x.log) && i < |x.w.manager.sessions| && QuietFor(x.w.manager, e, key, stored)
    requires var s := x.w.manager.sessions[i]; s.key == key && s.meta.Some? && s.meta.value.lastModified == stored
    ensures Stands(Next(c, x, e).w.manager, i, x.w.manager.sessions[i])
    ensures forall a <- PullsMade(c, x, e) :: a.key != key
  {
    hide ManagerOk, Next, PullsMade;
    match e {
      case Tick(_, _, _) => QuietTick(c, x, e, i);
      case Call(_, _, _, _) => QuietCall(c, x, e, i);
    }
  }

  lemma LogGrows(c: Config, x: World, e: Event)
    ensures Next(c, x, e).log == x.log + PullsMade(c, x, e)
  {
  }

  // ---- waits ----

  /** How many failures in a row, this one included, a failed pull of the session makes. */
  function FailureNumber(log: seq<Attempt>, key: string): nat {
    Failures(log, key) + 1
  }

  /** The k-th failure since the last success waits 5 * 2^(k-1) seconds, at most 300; a rate limit waits
      the longer of the interval and what the server asks, and spends no backoff. */
  lemma FailureWaits(m: ManagerState, log: seq<Attempt>, pos: nat, e: PullError, interval: nat)
    requires ManagerOk(m, log) && pos < |m.sessions|
    ensures var s := m.sessions[pos];
      var (after, r) := AfterPull(s, Err(e), interval);
      match e
      case Api(RateLimited(retryAfter)) => r == Err(Max(interval, retryAfter)) && after.backoff == s.backoff
      case _ =>
        && r == Err(Min(5_000_000_000 * Pow2(FailureNumber(log, s.key) - 1), 300_000_000_000))
        && Failures(log + [Attempt(s.key, Err(e))], s.key) == FailureNumber(log, s.key)
  {
    var s := m.sessions[pos];
    assert SessionOk(s, log);
    assert (log + [Attempt(s.key, Err(e))])[..|log|] == log;
  }

  /** The wait that a failed pull of a session calls for, by the pulls logged so far. */
  function WaitAfter(log: seq<Attempt>, key: string, e: PullError, interval: nat): nat {
    match e
    case Api(RateLimited(retryAfter)) => Max(interval, retryAfter)
    case _ => Min(5_000_000_000 * Pow2(FailureNumber(log, key) - 1), 300_000_000_000)
  }

  lemma PullWaits(m: ManagerState, log: seq<Attempt>, pos: nat, s: SessionState, e: PullError, interval: nat)
    requires ManagerOk(m, log) && pos < |m.sessions| && s == m.sessions[pos].(watcher := s.watcher)
    ensures AfterPull(s, Err(e), interval).1 == Err(WaitAfter(log, s.key, e, interval))
  {
    FailureWaits(m, log, pos, e, interval);
  }

  /** Whichever step of the loop a pull fails in, the next poll waits that long from then. */
  lemma FailureMovesDeadline(c: Config, x: World, e: Event)
    requires ManagerOk(x.w.manager, x.log) && PullsMade(c, x, e) != []
    ensures |PullsMade(c, x, e)| == 1
    ensures var a := PullsMade(c, x, e)[0];
      a.pull.Err? ==> Next(c, x, e).w.deadline == e.now + WaitAfter(x.log, a.key, a.pull.error, c.interval)
  {
    match e {
      case Tick(_, _, _) => TickFailureWaits(c, x, e);
      case Call(_, _, _, _) =>
        ReportedOnce(x.w, e.call, e.disk, e.pulls, c.noWatch, c.interval, e.now);
        CallFailureWaits(c, x, e);
    }
  }

  lemma TickFailureWaits(c: Config, x: World, e: Event)
    requires ManagerOk(x.w.manager, x.log) && e.Tick? && PullsMade(c, x, e) != []
    ensures |PullsMade(c, x, e)| == 1
    ensures var a := PullsMade(c, x, e)[0];
      a.pull.Err? ==> Next(c, x, e).w.deadline == e.now + WaitAfter(x.log, a.key, a.pull.error, c.interval)
  {
    hide ManagerOk, AfterPull, WaitAfter;
    var idx := x.w.nextIdx % |x.w.manager.sessions|;
    var s := x.w.manager.sessions[idx];
    var seen := s.(watcher := Ticked(s.watcher, e.meta(s.key)).0);
    if e.pull.Err? {
      PullWaits(x.w.manager, x.log, idx, seen, e.pull.error, c.interval);
    }
  }

  lemma CallFailureWaits(c: Config, x: World, e: Event)
    requires ManagerOk(x.w.manager, x.log) && e.Call? && |PullsMade(c, x, e)| == 1
    ensures var a := PullsMade(c, x, e)[0];
      a.pull.Err? ==> Next(c, x, e).w.deadline == e.now + WaitAfter(x.log, a.key, a.pull.error, c.interval)
  {
    hide ManagerOk, AfterPull, WaitAfter, AfterOpen, AfterResolve;
    var m, call := x.w.manager, e.call;
    if call.tool == OpenTool {
      OpenKeeps(m, x.log, call.file.value, e.disk);
      var (m1, r) := AfterOpen(m, call.file.value, e.disk);
      if e.pulls(0).Err? {
        PullWaits(m1, x.log, r.value, m1.sessions[r.value], e.pulls(0).error, c.interval);
      }
    } else {
      RoutingFits(m, call.file, e.disk, e.pulls(0), c.interval);
      ResolveKeeps(m, x.log, call.file, e.disk, e.pulls(0), c.interval);
      ResolveWaits(m, x.log, call.file, e.disk, e.pulls(0), c.interval);
      var (m1, r) := AfterResolve(m, call.file, e.disk, e.pulls(0), c.interval);
      if r.Ok? && call.tool == SyncTool && !r.value.pulled && e.pulls(0).Err? {
        PullWaits(m1, x.log, r.value.pos, m1.sessions[r.value.pos], e.pulls(0).error, c.interval);
      }
    }
  }

  lemma ResolveWaits(m: ManagerState, log: seq<Attempt>, file: Option<Option<string>>, disk: Disk, pull: PullResult,
        interval: nat)
    requires ManagerOk(m, log)
    ensures var r := AfterResolve(m, file, disk, pull, interval).1;
      SaysPulled(r) ==>
        && file.Some? && file.value.Some? && (r.Ok? <==> pull.Ok?)
        && (r.Err? ==> r.error.retryAfter == Some(WaitAfter(log, file.value.value, pull.error, interval)))
  {
    hide ManagerOk, WaitAfter, AfterOpen;
    if file.Some? {
      OpenKeeps(m, log, file.value, disk);
      var (m1, r) := AfterOpen(m, file.value, disk);
      if r.Ok? && pull.Err? {
        PullWaits(m1, log, r.value, m1.sessions[r.value], pull.error, interval);
      }
    }
  }

  // ---- round robin ----

  /** `x % n` stepped by one, and by less than `n`, without multiplication. */
  lemma ModSteps(x: nat, n: nat, j: nat)
    requires n > 0 && j < n
    ensures (x + j) % n == if x % n + j < n then x % n + j else x % n + j - n
  {
    var q, r := x / n, x % n;
    assert x == q * n + r;
    if r + j < n {
      ModIs(x + j, n, q, r + j);
    } else {
      assert x + j == (q + 1) * n + (r + j - n);
      ModIs(x + j, n, q + 1, r + j - n);
    }
  }

  lemma ModIs(x: nat, n: nat, q: nat, r: nat)
    requires r < n && x == q * n + r
    ensures x % n == r
  {
    var d := x / n - q;
    assert x == (x / n) * n + x % n;
    assert d * n == r - x % n;
    Multiple(d, n);
  }

  lemma Multiple(d: int, n: nat)
    ensures d > 0 ==> d * n >= n
    ensures d < 0 ==> d * n + n <= 0
  {
  }

  function TickCount(events: seq<Event>): nat {
    if events == [] then 0 else TickCount(events[..|events| - 1]) + if events[|events| - 1].Tick? then 1 else 0
  }

  lemma TickMovesOn(c: Config, x: World, e: Event)
    requires c.token && x.w.manager.sessions != [] && e.Tick?
    ensures var n, y := |x.w.manager.sessions|, Next(c, x, e).w;
      |y.manager.sessions| == n && y.nextIdx == (x.w.nextIdx + 1) % n
  {
    hide AfterPull, Ticked;
  }

  /** A call leaves the turn alone and closes no session. */
  lemma CallKeepsTurn(c: Config, x: World, e: Event)
    requires e.Call?
    ensures Next(c, x, e).w.nextIdx == x.w.nextIdx
    ensures |Next(c, x, e).w.manager.sessions| >= |x.w.manager.sessions|
  {
    hide AfterPull;
    if e.call.tool != FilesTool && e.call.tool != ProxiedTool && e.call.tool != OpenTool {
      ResolveGrows(x.w.manager, e.call.file, e.disk, e.pulls(0), c.interval);
      hide AfterResolve;
      RoutingFits(x.w.manager, e.call.file, e.disk, e.pulls(0), c.interval);
    }
  }

  lemma ResolveGrows(m: ManagerState, file: Option<Option<string>>, disk: Disk, pull: PullResult, interval: nat)
    ensures |AfterResolve(m, file, disk, pull, interval).0.sessions| >= |m.sessions|
  {
    hide AfterPull;
  }

  /** Over any run of ticks and calls that opens no new session, the turn moves on by the ticks. */
  lemma {:induction false} TicksInTurn(c: Config, x: World, events: seq<Event>)
    requires c.token && x.w.manager.sessions != []
    ensures |Run(c, x, events).w.manager.sessions| >= |x.w.manager.sessions|
    ensures var n := |x.w.manager.sessions|;
      var y := Run(c, x, events).w;
      |y.manager.sessions| == n ==> y.nextIdx % n == (x.w.nextIdx + TickCount(events)) % n
  {
    hide Next;
    if events != [] {
      var n, front, e := |x.w.manager.sessions|, events[..|events| - 1], events[|events| - 1];
      TicksInTurn(c, x, front);
      var before := Run(c, x, front);
      if e.Tick? {
        TickMovesOn(c, before, e);
        if |before.w.manager.sessions| == n {
          SameStep(before.w.nextIdx, x.w.nextIdx + TickCount(front), n);
        }
      } else {
        CallKeepsTurn(c, before, e);
      }
    }
  }

  lemma SameStep(a: nat, b: nat, n: nat)
    requires n > 0 && a % n == b % n
    ensures (a + 1) % n % n == (b + 1) % n
  {
    if n > 1 {
      ModSteps(a, n, 1);
      ModSteps(b, n, 1);
    } else {
      ModIs(a + 1, 1, a + 1, 0);
      ModIs(b + 1, 1, b + 1, 0);
    }
    ModIs((a + 1) % n, n, 0, (a + 1) % n);
  }

  /** The session polled by the j-th event of a run, a tick. */
  function PolledAt(c: Config, x: World, events: seq<Event>, j: nat): Option<nat>
    requires j < |events| && events[j].Tick?
  {
    AfterTick(Run(c, x, events[..j]).w, c.token, events[j].meta, events[j].pull, c.interval, events[j].now).1.polled
  }

  lemma {:induction false} NthTick(events: seq<Event>, m: nat) returns (j: nat)
    requires m < TickCount(events)
    ensures j < |events| && events[j].Tick? && TickCount(events[..j]) == m
  {
    var front := events[..|events| - 1];
    if m < TickCount(front) {
      j := NthTick(front, m);
      assert front[..j] == events[..j];
    } else {
      j := |events| - 1;
    }
  }

  lemma {:induction false} TicksBefore(events: seq<Event>, j: nat)
    requires j < |events|
    ensures TickCount(events[..j]) + (if events[j].Tick? then 1 else 0) <= TickCount(events)
  {
    var front := events[..|events| - 1];
    if j < |front| {
      TicksBefore(front, j);
      assert front[..j] == events[..j];
    }
  }

  lemma {:induction false} SessionsSteady(c: Config, x: World, events: seq<Event>, j: nat)
    requires c.token && x.w.manager.sessions != [] && j <= |events|
    requires |Run(c, x, events).w.manager.sessions| == |x.w.manager.sessions|
    ensures |Run(c, x, events[..j]).w.manager.sessions| == |x.w.manager.sessions|
    decreases |events|
  {
    hide Next;
    if j == |events| {
      assert events[..j] == events;
    } else {
      var front, e := events[..|events| - 1], events[|events| - 1];
      var before := Run(c, x, front);
      TicksInTurn(c, x, front);
      if e.Tick? {
        TickMovesOn(c, before, e);
      } else {
        CallKeepsTurn(c, before, e);
      }
      SessionsSteady(c, x, front, j);
      assert front[..j] == events[..j];
    }
  }

  /** The m-th tick of a run that opens no session polls the session m places on. */
  lemma PolledInTurn(c: Config, x: World, events: seq<Event>, j: nat)
    requires c.token && x.w.manager.sessions != [] && j < |events| && events[j].Tick?
    requires |Run(c, x, events).w.manager.sessions| == |x.w.manager.sessions|
    requires TickCount(events[..j]) < |x.w.manager.sessions|
    ensures var n, m := |x.w.manager.sessions|, TickCount(events[..j]);
      var a := x.w.nextIdx % n;
      PolledAt(c, x, events, j) == Some(if a + m < n then a + m else a + m - n)
  {
    hide Run, AfterPull, Ticked, TickCount;
    SessionsSteady(c, x, events, j);
    TicksInTurn(c, x, events[..j]);
    ModSteps(x.w.nextIdx, |x.w.manager.sessions|, TickCount(events[..j]));
  }

  /** With `n` sessions, any `n` consecutive ticks poll each session exactly once, whatever calls that open
      no new session come in between. */
  lemma EveryoneOnce(c: Config, x: World, events: seq<Event>, i: nat)
    requires c.token && TickCount(events) == |x.w.manager.sessions| && i < |x.w.manager.sessions|
    requires |Run(c, x, events).w.manager.sessions| == |x.w.manager.sessions|
    ensures exists j :: 0 <= j < |events| && events[j].Tick? && PolledAt(c, x, events, j) == Some(i)
    ensures forall j, k :: 0 <= j < k < |events| && events[j].Tick? && events[k].Tick? ==>
      PolledAt(c, x, events, j) != PolledAt(c, x, events, k)
  {
    hide Run, PolledAt, TickCount;
    var n, a := |x.w.manager.sessions|, x.w.nextIdx % |x.w.manager.sessions|;
    var j := NthTick(events, if i >= a then i - a else i - a + n);
    PolledInTurn(c, x, events, j);
    forall j, k | 0 <= j < k < |events| && events[j].Tick? && events[k].Tick?
      ensures PolledAt(c, x, events, j) != PolledAt(c, x, events, k)
    {
      TicksBefore(events, k);
      TicksBefore(events[..k], j);
      assert events[..k][..j] == events[..j];
      PolledInTurn(c, x, events, j);
      PolledInTurn(c, x, events, k);
    }
  }

  // ---- the session proxied calls go through ----

  /** Proxied calls are cached in the first session. That is the effective default session exactly when
      a default was set at startup or there is only one; with several files opened on demand and no
      startup file there is no default, and the first one's cache is used all the same. */
  lemma FirstIsDefault(m: ManagerState, log: seq<Attempt>)
    requires ManagerOk(m, log) && m.sessions != []
    ensures EffectiveDefaultKey(m) == Some(m.sessions[0].key) <==> m.defaultKey.Some? || |m.sessions| == 1
    ensures EffectiveDefaultKey(m) == None <==> m.defaultKey.None? && |m.sessions| > 1
  {
  }

  /** That happens: from a startup without files, opening two files leaves the first session in use for
      proxied calls and no default at all, whatever the two pulls come to. */
  lemma FirstWithoutDefault(c: Config, deadline: nat, pulls: Pulls, now: nat) returns (events: seq<Event>, x: World)
    ensures Loops(c, ManagerState([], None), [], deadline, events, x)
    ensures |x.w.manager.sessions| == 2 && x.w.manager.sessions[0].key == "a"
    ensures EffectiveDefaultKey(x.w.manager) == None
  {
    var disk: Disk := (key: string) => Ok(None);
    var start := World(ServeState(ManagerState([], None), 0, deadline), []);
    assert Started(ManagerState([], None), [], 0, true, disk, pulls, 0) == Ok(ManagerState([], None));
    assert StartedLog(ManagerState([], None), [], 0, true, disk, pulls, 0) == [];
    var first, second := Call(ToolCall(OpenTool, Some(Some("a")), false), disk, pulls, now),
      Call(ToolCall(OpenTool, Some(Some("b")), false), disk, pulls, now);
    events := [first, second];
    x := Run(c, start, events);
    TwoSteps(c, start, first, second);
    OpensOne(c, start, first, "a");
    OpensOne(c, Next(c, start, first), second, "b");
  }

  lemma TwoSteps(c: Config, x: World, a: Event, b: Event)
    ensures Run(c, x, [a, b]) == Next(c, Next(c, x, a), b)
  {
    hide Next;
    var events := [a, b];
    assert events[..1] == [a] && [a][..0] == [];
    assert Run(c, x, []) == x;
    assert Run(c, x, [a]) == Next(c, Run(c, x, [a][..0]), a);
  }

  lemma PulledKey(s: SessionState, pull: PullResult, interval: nat)
    ensures AfterPull(s, pull, interval).0.key == s.key
  {
  }

  lemma {:induction false} NotFound(sessions: seq<SessionState>, key: string)
    requires forall s <- sessions :: s.key != key
    ensures Sessions.Find(sessions, key) == |sessions|
  {
    if sessions != [] {
      NotFound(sessions[1..], key);
    }
  }

  lemma OpensOne(c: Config, x: World, e: Event, key: string)
    requires e.Call? && e.call.tool == OpenTool && e.call.file == Some(Some(key)) && e.disk(key).Ok?
    requires forall s <- x.w.manager.sessions :: s.key != key
    ensures var m, after := x.w.manager, Next(c, x, e).w.manager;
      && |after.sessions| == |m.sessions| + 1 && after.defaultKey == m.defaultKey
      && after.sessions[..|m.sessions|] == m.sessions && after.sessions[|m.sessions|].key == key
  {
    hide AfterPull;
    NotFound(x.w.manager.sessions, key);
    PulledKey(Opened(key, e.disk(key).value), e.pulls(0), c.interval);
  }
}
