/** The serve loop: round-robin watch ticks and tool calls over the session manager. */
module Serve {
  import opened Basics
  import opened Model
  import opened Watch
  import opened Sessions

  const MIN_TICK_DEADLINE: nat := 2 * SECOND

  /** The full interval split evenly across the sessions, but never under the floor. */
  function TickDeadline(interval: nat, count: nat): nat {
    if count == 0 then interval else Max(interval / count, MIN_TICK_DEADLINE)
  }

  datatype ServeState = ServeState(manager: ManagerState, nextIdx: nat, deadline: nat)

  /** A pull that was attempted: whose, and what it came to. */
  datatype Attempt = Attempt(key: string, pull: PullResult)

  // ---- watch ticks ----

  /** What a tick polled and saw, and the pull it made of it, if any. */
  datatype TickReport = TickReport(polled: Option<nat>, tick: Tick, pulls: seq<Attempt>)

  /** The meta endpoint's answer for each file. */
  type MetaAnswers = string -> Result<string, ApiError>

  function AfterTick(w: ServeState, token: bool, meta: MetaAnswers, pull: PullResult, interval: nat, now: nat)
    : (ServeState, TickReport)
  {
    var n := |w.manager.sessions|;
    if n == 0 || !token then (w.(deadline := now + interval), TickReport(None, Unchanged, []))
    else
      var idx := w.nextIdx % n;
      var s := w.manager.sessions[idx];
      var (watcher, tick) := Ticked(s.watcher, meta(s.key));
      var seen := s.(watcher := watcher);
      match tick
      case Unchanged =>
        (ServeState(WithSession(w.manager, idx, seen), (w.nextIdx + 1) % n, now + TickDeadline(interval, n)),
         TickReport(Some(idx), tick, []))
      case Wait(after) =>
        (ServeState(WithSession(w.manager, idx, seen), (w.nextIdx + 1) % n, now + after),
         TickReport(Some(idx), tick, []))
      case Changed =>
        var (s', r) := AfterPull(seen, pull, interval);
        (ServeState(WithSession(w.manager, idx, s'), (w.nextIdx + 1) % n,
                    now + if r.Ok? then TickDeadline(interval, n) else r.error),
         TickReport(Some(idx), tick, [Attempt(s.key, pull)]))
  }

  method WatchTick(manager: SessionManager, nextIdx: nat, token: bool, meta: MetaAnswers, pull: PullResult,
        interval: nat, now: nat)
    returns (next: nat, deadline: nat, ghost report: TickReport)
    requires manager.Valid()
    modifies manager.sessions, manager.Watchers()
    ensures manager.Valid()
    ensures forall d :: AfterTick(ServeState(old(manager.View()), nextIdx, d), token, meta, pull, interval, now)
                        == (ServeState(manager.View(), next, deadline), report)
  {
    var n := |manager.sessions|;
    if n == 0 || !token {
      return nextIdx, now + interval, TickReport(None, Unchanged, []);
    }
    var idx := nextIdx % n;
    next := (nextIdx + 1) % n;
    var s := manager.sessions[idx];
    ghost var before := manager.View();
    assert before.sessions[idx] == s.State();
    var tick := s.watcher.Poll(meta(s.key));
    ghost var seen := before.sessions[idx].(watcher := s.watcher.State());
    assert manager.View().sessions == WithSession(before, idx, seen).sessions;
    match tick
    case Unchanged =>
      return next, now + TickDeadline(interval, n), TickReport(Some(idx), tick, []);
    case Wait(after) =>
      return next, now + after, TickReport(Some(idx), tick, []);
    case Changed =>
      var r := manager.PullAt(idx, pull, interval);
      report := TickReport(Some(idx), tick, [Attempt(s.key, pull)]);
      assert WithSession(WithSession(before, idx, seen), idx, AfterPull(seen, pull, interval).0)
          == WithSession(before, idx, AfterPull(seen, pull, interval).0);
      match r {
        case Ok(_) => deadline := now + TickDeadline(interval, n);
        case Err(wait) => deadline := now + wait;
      }
  }

  // ---- tool calls ----

  datatype Tool = FilesTool | OpenTool | SyncTool | ImagesTool | ReadTool | ProxiedTool

  /** A tool call with its file argument, explicit or read off a URL, as parsed; `poll` says whether a
      proxied call asks for an immediate poll. */
  datatype ToolCall = ToolCall(tool: Tool, file: Option<Option<string>>, poll: bool)

  /** Whether the call succeeded as far as sessions go, the session it reached, and its pulls. */
  datatype ToolReport = ToolReport(ok: bool, reached: Option<nat>, pulls: seq<Attempt>)

  /** What the k-th pull of the call would come to. */
  type Pulls = nat -> PullResult

  function AfterToolCall(w: ServeState, call: ToolCall, disk: Disk, pulls: Pulls, noWatch: bool, interval: nat,
        now: nat)
    : (ServeState, ToolReport)
  {
    if call.tool == FilesTool then (w, ToolReport(true, None, []))
    else if call.tool == OpenTool then AfterOpenCall(w, call, disk, pulls, interval, now)
    else if call.tool == ProxiedTool then
      (if call.poll && !noWatch then w.(deadline := now) else w, ToolReport(true, None, []))
    else AfterLocalCall(w, call, disk, pulls, interval, now)
  }

  /** `figmog_open` always pulls the session it names. */
  function AfterOpenCall(w: ServeState, call: ToolCall, disk: Disk, pulls: Pulls, interval: nat, now: nat)
    : (ServeState, ToolReport)
  {
    match call.file
    case None => (w, ToolReport(false, None, []))
    case Some(key) =>
      match AfterOpen(w.manager, key, disk)
      case (m, Err(_)) => (w.(manager := m), ToolReport(false, None, []))
      case (m, Ok(pos)) => AfterPullAt(w, m, pos, pulls(0), interval, now)
  }

  /** A tool answered from one session, which routing finds, opens or pulls; `figmog_sync` then pulls it
      unless routing just did. */
  function AfterLocalCall(w: ServeState, call: ToolCall, disk: Disk, pulls: Pulls, interval: nat, now: nat)
    : (ServeState, ToolReport)
  {
    match AfterResolve(w.manager, call.file, disk, pulls(0), interval)
    case (m, Err(e)) =>
      if e.retryAfter.None? then (w.(manager := m), ToolReport(false, None, []))
      else
        var key := call.file.value.value;
        (ServeState(m, w.nextIdx, now + e.retryAfter.value),
         ToolReport(false, Some(Sessions.Find(m.sessions, key)), [Attempt(key, pulls(0))]))
    case (m, Ok(r)) =>
      if call.tool == SyncTool && !r.pulled then AfterPullAt(w, m, r.pos, pulls(0), interval, now)
      else
        (w.(manager := m),
         ToolReport(true, Some(r.pos), if r.pulled then [Attempt(m.sessions[r.pos].key, pulls(0))] else []))
  }

  function AfterPullAt(w: ServeState, m: ManagerState, pos: nat, pull: PullResult, interval: nat, now: nat)
    : (ServeState, ToolReport)
    requires pos < |m.sessions|
  {
    var (s, r) := AfterPull(m.sessions[pos], pull, interval);
    (ServeState(WithSession(m, pos, s), w.nextIdx, if r.Ok? then w.deadline else now + r.error),
     ToolReport(r.Ok?, Some(pos), [Attempt(m.sessions[pos].key, pull)]))
  }

  /** Pull one session now; a failure pushes the deadline out by its wait. */
  method PullNow(manager: SessionManager, ghost nextIdx: nat, deadline: nat, pos: nat, pull: PullResult,
        interval: nat, now: nat)
    returns (ok: bool, next: nat)
    requires manager.Valid() && pos < |manager.sessions|
    modifies manager.sessions[pos]
    ensures manager.Valid()
    ensures forall w: ServeState :: w.nextIdx == nextIdx && w.deadline == deadline ==>
      var (after, report) := AfterPullAt(w, old(manager.View()), pos, pull, interval, now);
      after == ServeState(manager.View(), nextIdx, next) && report.ok == ok
  {
    hide AfterPull;
    next := deadline;
    var r := manager.PullAt(pos, pull, interval);
    if r.Err? {
      next := now + r.error;
    }
    ok := r.Ok?;
  }

  method OpenCall(manager: SessionManager, ghost nextIdx: nat, deadline: nat, call: ToolCall, disk: Disk, pulls: Pulls,
                  interval: nat, now: nat) returns (ok: bool, next: nat)
    requires manager.Valid()
    modifies manager, manager.sessions
    ensures manager.Valid()
    ensures var (after, report) :=
        AfterOpenCall(ServeState(old(manager.View()), nextIdx, deadline), call, disk, pulls, interval, now);
      after == ServeState(manager.View(), nextIdx, next) && report.ok == ok
  {
    hide AfterPullAt, AfterOpen;
    if call.file.None? {
      return false, deadline;
    }
    var found := manager.Open(call.file.value, disk);
    if found.Err? {
      return false, deadline;
    }
    ok, next := PullNow(manager, nextIdx, deadline, found.value, pulls(0), interval, now);
  }

  method LocalCall(manager: SessionManager, ghost nextIdx: nat, deadline: nat, call: ToolCall, disk: Disk, pulls: Pulls,
                   interval: nat, now: nat) returns (ok: bool, next: nat)
    requires manager.Valid()
    modifies manager, manager.sessions
    ensures manager.Valid()
    ensures var (after, report) :=
        AfterLocalCall(ServeState(old(manager.View()), nextIdx, deadline), call, disk, pulls, interval, now);
      after == ServeState(manager.View(), nextIdx, next) && report.ok == ok
  {
    hide AfterPullAt;
    RoutingFits(manager.View(), call.file, disk, pulls(0), interval);
    hide AfterResolve;
    var found := manager.Resolve(call.file, disk, pulls(0), interval);
    if found.Err? {
      next := if found.error.retryAfter.Some? then now + found.error.retryAfter.value else deadline;
      return false, next;
    }
    if call.tool == SyncTool && !found.value.pulled {
      ok, next := PullNow(manager, nextIdx, deadline, found.value.pos, pulls(0), interval, now);
      return;
    }
    return true, deadline;
  }

  /** Routing reaches a session of the manager, and only a named file is pulled by it. */
  lemma RoutingFits(m: ManagerState, file: Option<Option<string>>, disk: Disk, pull: PullResult, interval: nat)
    ensures var (after, r) := AfterResolve(m, file, disk, pull, interval);
      && (r.Ok? ==> r.value.pos < |after.sessions|)
      && (SaysPulled(r) ==> file.Some? && file.value.Some?)
  {
  }

  /** Route one tool call; the k-th pull it attempts comes to `pulls(k)`. The sessions' own counts of
      pulls grow by as many as are reported. */
  method HandleToolCall(manager: SessionManager, ghost nextIdx: nat, deadline: nat, call: ToolCall, disk: Disk,
        pulls: Pulls,
                        noWatch: bool, interval: nat, now: nat) returns (ok: bool, next: nat)
    requires manager.Valid()
    modifies manager, manager.sessions
    ensures manager.Valid()
    ensures var (after, report) :=
        AfterToolCall(ServeState(old(manager.View()), nextIdx, deadline), call, disk, pulls, noWatch, interval, now);
      && after == ServeState(manager.View(), nextIdx, next) && report.ok == ok
      && PullsOf(manager.View().sessions) == PullsOf(old(manager.View()).sessions) + |report.pulls|
  {
    ReportedArePulled(ServeState(manager.View(), nextIdx, deadline), call, disk, pulls, noWatch, interval, now);
    hide AfterOpenCall, AfterLocalCall, PullsOf;
    if call.tool == FilesTool {
      return true, deadline;
    }
    if call.tool == OpenTool {
      ok, next := OpenCall(manager, nextIdx, deadline, call, disk, pulls, interval, now);
      return;
    }
    if call.tool == ProxiedTool {
      return true, if call.poll && !noWatch then now else deadline;
    }
    ok, next := LocalCall(manager, nextIdx, deadline, call, disk, pulls, interval, now);
  }

  // ---- the pulls of a call ----

  lemma OpenPullsNothing(m: ManagerState, key: Option<string>, disk: Disk)
    ensures PullsOf(AfterOpen(m, key, disk).0.sessions) == PullsOf(m.sessions)
  {
    hide PullsOf;
    var (after, r) := AfterOpen(m, key, disk);
    if after != m {
      PullsAdded(m.sessions, Opened(key.value, disk(key.value).value));
    }
  }

  lemma ResolvePulls(m: ManagerState, file: Option<Option<string>>, disk: Disk, pull: PullResult, interval: nat)
    ensures var (after, r) := AfterResolve(m, file, disk, pull, interval);
      PullsOf(after.sessions) == PullsOf(m.sessions) + if SaysPulled(r) then 1 else 0
  {
    hide PullsOf, AfterOpen, Find;
    if file.Some? {
      OpenPullsNothing(m, file.value, disk);
      var (m1, r) := AfterOpen(m, file.value, disk);
      if r.Ok? {
        OpenFits(m, file.value, disk);
        PullsReplaced(m1.sessions, r.value, AfterPull(m1.sessions[r.value], pull, interval).0);
      }
    }
  }

  lemma OpenFits(m: ManagerState, key: Option<string>, disk: Disk)
    ensures var (after, r) := AfterOpen(m, key, disk); r.Ok? ==> r.value < |after.sessions|
  {
  }

  lemma PullAtPulls(w: ServeState, m: ManagerState, pos: nat, pull: PullResult, interval: nat, now: nat)
    requires pos < |m.sessions|
    ensures var (after, report) := AfterPullAt(w, m, pos, pull, interval, now);
      PullsOf(after.manager.sessions) == PullsOf(m.sessions) + 1 && |report.pulls| == 1
  {
    hide PullsOf;
    PullsReplaced(m.sessions, pos, AfterPull(m.sessions[pos], pull, interval).0);
  }

  /** The pulls a call reports are the pulls the sessions counted. */
  lemma ReportedArePulled(w: ServeState, call: ToolCall, disk: Disk, pulls: Pulls, noWatch: bool, interval: nat,
        now: nat)
    ensures var (after, report) := AfterToolCall(w, call, disk, pulls, noWatch, interval, now);
      PullsOf(after.manager.sessions) == PullsOf(w.manager.sessions) + |report.pulls|
  {
    hide PullsOf, AfterOpen, AfterPullAt, AfterResolve;
    if call.tool == OpenTool {
      if call.file.Some? {
        OpenPullsNothing(w.manager, call.file.value, disk);
        OpenFits(w.manager, call.file.value, disk);
        var (m, r) := AfterOpen(w.manager, call.file.value, disk);
        if r.Ok? {
          PullAtPulls(w, m, r.value, pulls(0), interval, now);
        }
      }
    } else if call.tool != FilesTool && call.tool != ProxiedTool {
      RoutingFits(w.manager, call.file, disk, pulls(0), interval);
      ResolvePulls(w.manager, call.file, disk, pulls(0), interval);
      var (m, r) := AfterResolve(w.manager, call.file, disk, pulls(0), interval);
      if r.Ok? && call.tool == SyncTool && !r.value.pulled {
        PullAtPulls(w, m, r.value.pos, pulls(0), interval, now);
      }
    }
  }

  // ---- startup ----

  /** Open one startup file and pull it if it was never mirrored; the first becomes the default. */
  function StartedOne(m: ManagerState, file: Option<string>, first: bool, noWatch: bool, disk: Disk,
        pull: PullResult, interval: nat)
    : Result<ManagerState, string>
  {
    match AfterOpen(m, file, disk)
    case (_, Err(e)) => Err(e)
    case (m1, Ok(pos)) =>
      var s := m1.sessions[pos];
      var m2 := if noWatch || s.mirrored then m1 else WithSession(m1, pos, AfterPull(s, pull, interval).0);
      if !noWatch && !s.mirrored && pull.Err? then Err("pull failed")
      else Ok(if first then m2.(defaultKey := Some(s.key)) else m2)
  }

  /** The pulls attempted in opening one startup file. */
  function StartAttempts(m: ManagerState, file: Option<string>, noWatch: bool, disk: Disk,
        pull: PullResult): seq<Attempt> {
    match AfterOpen(m, file, disk)
    case (_, Err(_)) => []
    case (m1, Ok(pos)) =>
      if noWatch || m1.sessions[pos].mirrored then [] else [Attempt(m1.sessions[pos].key, pull)]
  }

  /** All startup files in order; a failure is an error. */
  function Started(m: ManagerState, files: seq<Option<string>>, i: nat, noWatch: bool, disk: Disk, pulls: Pulls,
        interval: nat)
    : Result<ManagerState, string>
    decreases |files| - i
  {
    if i >= |files| then Ok(m)
    else
      match StartedOne(m, files[i], i == 0, noWatch, disk, pulls(i), interval)
      case Err(e) => Err(e)
      case Ok(m1) => Started(m1, files, i + 1, noWatch, disk, pulls, interval)
  }

  /** The pulls attempted at startup, in order. */
  function StartedLog(m: ManagerState, files: seq<Option<string>>, i: nat, noWatch: bool, disk: Disk, pulls: Pulls,
        interval: nat): seq<Attempt>
    decreases |files| - i
  {
    if i >= |files| then []
    else
      match StartedOne(m, files[i], i == 0, noWatch, disk, pulls(i), interval)
      case Err(_) => []
      case Ok(m1) =>
        StartAttempts(m, files[i], noWatch, disk, pulls(i)) + StartedLog(m1, files, i + 1, noWatch, disk, pulls, interval)
  }

  method StartOne(manager: SessionManager, file: Option<string>, first: bool, noWatch: bool, disk: Disk,
        pull: PullResult, interval: nat)
    returns (r: Result<(), string>)
    requires manager.Valid()
    modifies manager, manager.sessions
    ensures manager.Valid()
    ensures old(manager.sessions) <= manager.sessions
    ensures fresh(Elements(manager.sessions) - Elements(old(manager.sessions)))
    ensures var m := StartedOne(old(manager.View()), file, first, noWatch, disk, pull, interval);
      if r.Ok? then m == Ok(manager.View()) else m == Err(r.error)
  {
    hide AfterOpen, Opened, Watermark, PullFailureWait;
    var found := manager.Open(file, disk);
    if found.Err? {
      return Err(found.error);
    }
    var s := manager.sessions[found.value];
    ghost var m1 := manager.View();
    assert m1.sessions[found.value] == s.State();
    if !noWatch && !s.mirrored {
      var pulled := manager.PullAt(found.value, pull, interval);
      if pulled.Err? {
        return Err("pull failed");
      }
    }
    ghost var m2 := manager.View();
    if first {
      manager.defaultKey := Some(s.key);
      assert manager.View().sessions == m2.sessions;
    }
    return Ok(());
  }

  method BuildSessions(files: seq<Option<string>>, noWatch: bool, token: bool, disk: Disk, pulls: Pulls, interval: nat)
    returns (r: Result<SessionManager, string>)
    ensures r.Ok? ==> fresh(r.value) && r.value.Valid()
    ensures !noWatch && files != [] && !token ==> r.Err?
    ensures noWatch || files == [] || token ==>
      var m := Started(ManagerState([], None), files, 0, noWatch, disk, pulls, interval);
      if r.Ok? then m == Ok(r.value.View()) else m == Err(r.error)
  {
    hide StartedOne;
    if !noWatch && files != [] && !token {
      return Err("FIGMA_TOKEN not set - required for watch");
    }
    var manager := new SessionManager();
    ghost var all := Started(ManagerState([], None), files, 0, noWatch, disk, pulls, interval);
    for i := 0 to |files|
      invariant fresh(manager) && manager.Valid()
      invariant forall k :: 0 <= k < |manager.sessions| ==> fresh(manager.sessions[k])
      invariant Started(manager.View(), files, i, noWatch, disk, pulls, interval) == all
    {
      ghost var before := manager.sessions;
      var one := StartOne(manager, files[i], i == 0, noWatch, disk, pulls(i), interval);
      if one.Err? {
        return Err(one.error);
      }
      forall k | 0 <= k < |manager.sessions| ensures fresh(manager.sessions[k]) {
        assert manager.sessions[k] in Elements(manager.sessions);
      }
    }
    return Ok(manager);
  }

  /** The legacy single-store startup: one session under the given key, which is the default. */
  function StartedDb(key: string, stored: Option<FileMeta>, noWatch: bool, pull: PullResult, interval: nat)
    : Result<ManagerState, string>
  {
    var s := Opened(key, stored);
    if noWatch || s.mirrored then Ok(ManagerState([s], Some(key)))
    else if pull.Err? then Err("pull failed")
    else Ok(ManagerState([AfterPull(s, pull, interval).0], Some(key)))
  }
}
