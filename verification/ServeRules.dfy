/** When the serve loop next polls, which session a call is answered from, and what a startup leaves. */
module ServeRules {
  import opened Basics
  import opened Watch
  import opened Sessions
  import opened Serve
  import opened ServeRuns

  // ---- the deadline ----

  /** The longest wait that `n` polls in a row fit into one interval with, or two seconds if that is less. */
  ghost predicate Share(wait: nat, interval: nat, n: nat) {
    if n * 2_000_000_000 > interval then wait == 2_000_000_000
    else n * wait <= interval < n * (wait + 1)
  }

  lemma ShareIs(interval: nat, n: nat)
    requires n > 0
    ensures Share(TickDeadline(interval, n), interval, n)
  {
    var q := interval / n;
    assert n * q <= interval < n * (q + 1);
    if n * 2_000_000_000 > interval && q >= 2_000_000_000 {
      Times(n, 2_000_000_000, q);
      assert false;
    }
    if n * 2_000_000_000 <= interval && q < 2_000_000_000 {
      Times(n, q + 1, 2_000_000_000);
      assert false;
    }
  }

  lemma Times(n: nat, a: nat, b: nat)
    requires a <= b
    ensures n * a <= n * b
  {
  }

  /** While no pull fails, a tick sets the deadline a full interval off when there is nobody to poll, its share
      of the interval off after a quiet poll or a pull, and as far off as the endpoint asks after a poll that
      failed; a call leaves it alone, but for a proxied one that asks for a poll while watching, which is due now. */
  lemma DeadlineMoves(c: Config, x: World, e: Event)
    requires forall a <- PullsMade(c, x, e) :: a.pull.Ok?
    ensures var n, after := |x.w.manager.sessions|, Next(c, x, e).w;
      match e
      case Tick(meta, pull, now) =>
        if n == 0 || !c.token then after == x.w.(deadline := now + c.interval)
        else
          var s := x.w.manager.sessions[x.w.nextIdx % n];
          (match meta(s.key)
           case Err(RateLimited(wait)) => after.deadline == now + wait
           case Err(_) => after.deadline == now + s.watcher.backoff
           case Ok(_) => after.deadline >= now && Share(after.deadline - now, c.interval, n))
      case Call(call, _, _, now) =>
        after.deadline == if call.tool == ProxiedTool && call.poll && !c.noWatch then now else x.w.deadline
  {
    hide AfterOpen, AfterResolve, AfterPull, Share, TickDeadline;
    match e {
      case Tick(meta, pull, now) =>
        var n := |x.w.manager.sessions|;
        if n > 0 {
          ShareIs(c.interval, n);
          var s := x.w.manager.sessions[x.w.nextIdx % n];
          PulledOutcome(s.(watcher := Ticked(s.watcher, meta(s.key)).0), pull, c.interval);
        }
      case Call(call, disk, pulls, now) =>
        ReportedArePulled(x.w, call, disk, pulls, c.noWatch, c.interval, now);
        CallDeadline(c, x, e);
    }
  }

  lemma PulledOutcome(s: SessionState, pull: PullResult, interval: nat)
    ensures AfterPull(s, pull, interval).1.Ok? <==> pull.Ok?
    ensures AfterPull(s, pull, interval).0.key == s.key
    ensures AfterPull(s, pull, interval).0.mirrored == (s.mirrored || pull.Ok?)
  {
  }

  lemma CallDeadline(c: Config, x: World, e: Event)
    requires e.Call? && forall a <- PullsMade(c, x, e) :: a.pull.Ok?
    ensures Next(c, x, e).w.deadline ==
      if e.call.tool == ProxiedTool && e.call.poll && !c.noWatch then e.now else x.w.deadline
  {
    hide AfterOpen, AfterPull, AfterResolve;
    var m, call := x.w.manager, e.call;
    if call.tool == OpenTool && call.file.Some? {
      var (m1, r) := AfterOpen(m, call.file.value, e.disk);
      if r.Ok? {
        OpenFits(m, call.file.value, e.disk);
        AttemptOk(c, x, e);
        PulledOutcome(m1.sessions[r.value], e.pulls(0), c.interval);
      }
    } else if call.tool != FilesTool && call.tool != ProxiedTool && call.tool != OpenTool {
      RoutingFits(m, call.file, e.disk, e.pulls(0), c.interval);
      ResolvedWhen(m, call.file, e.disk, e.pulls(0), c.interval);
      var (m1, r) := AfterResolve(m, call.file, e.disk, e.pulls(0), c.interval);
      if r.Ok? && call.tool == SyncTool && !r.value.pulled {
        AttemptOk(c, x, e);
        PulledOutcome(m1.sessions[r.value.pos], e.pulls(0), c.interval);
      } else if r.Err? && r.error.retryAfter.Some? {
        AttemptOk(c, x, e);
      }
    }
  }

  lemma AttemptOk(c: Config, x: World, e: Event)
    requires e.Call? && (forall a <- PullsMade(c, x, e) :: a.pull.Ok?) && PullsMade(c, x, e) != []
    ensures PullsMade(c, x, e)[0].pull.Ok?
  {
    assert PullsMade(c, x, e)[0] in PullsMade(c, x, e);
  }

  /** Routing waits only after a pull that failed. */
  lemma ResolvedWhen(m: ManagerState, file: Option<Option<string>>, disk: Disk, pull: PullResult, interval: nat)
    ensures var (after, r) := AfterResolve(m, file, disk, pull, interval);
      r.Err? && r.error.retryAfter.Some? ==> pull.Err?
  {
    hide AfterOpen;
    if file.Some? {
      OpenFits(m, file.value, disk);
      var (m1, r) := AfterOpen(m, file.value, disk);
      if r.Ok? {
        PulledOutcome(m1.sessions[r.value], pull, interval);
      }
    }
  }

  // ---- routing ----

  /** A tool that is answered from a session is answered from that of the file it names, which is mirrored by
      then, or else from that of the default file: the one set or, if none is, the only one there is. */
  lemma RoutedToFile(m: ManagerState, file: Option<Option<string>>, disk: Disk, pull: PullResult, interval: nat)
    ensures var (after, r) := AfterResolve(m, file, disk, pull, interval);
      && (r.Ok? ==> r.value.pos < |after.sessions|)
      && (r.Ok? && file.Some? ==>
            file.value == Some(after.sessions[r.value.pos].key) && after.sessions[r.value.pos].mirrored)
      && (r.Ok? && file.None? ==>
            && after == m
            && (m.defaultKey == Some(m.sessions[r.value.pos].key) || (m.defaultKey == None && |m.sessions| == 1)))
      && (file == Some(None) || (file == None && m.defaultKey == None && |m.sessions| != 1) ==> r.Err? && after == m)
  {
    if file.Some? {
      OpenedIs(m, file.value, disk);
      hide AfterOpen;
      var (m1, r) := AfterOpen(m, file.value, disk);
      if r.Ok? {
        PulledOutcome(m1.sessions[r.value], pull, interval);
      }
    }
  }

  lemma OpenedIs(m: ManagerState, key: Option<string>, disk: Disk)
    ensures var (after, r) := AfterOpen(m, key, disk);
      && (r.Ok? ==> r.value < |after.sessions| && key == Some(after.sessions[r.value].key))
      && m.sessions <= after.sessions && after.defaultKey == m.defaultKey
      && (forall i :: |m.sessions| <= i < |after.sessions| ==> key == Some(after.sessions[i].key))
      && (key.None? ==> r.Err? && after == m)
  {
  }

  /** A call that succeeds with a session reaches that of the file it names, or else of the default; and an
      open or a sync has pulled just that session, once. */
  lemma CallReaches(w: ServeState, call: ToolCall, disk: Disk, pulls: Pulls, noWatch: bool, interval: nat, now: nat)
    ensures var (after, report) := AfterToolCall(w, call, disk, pulls, noWatch, interval, now);
      var m := w.manager;
      report.ok && call.tool != FilesTool && call.tool != ProxiedTool ==>
        && report.reached.Some? && report.reached.value < |after.manager.sessions|
        && (var s := after.manager.sessions[report.reached.value];
            && (call.file.Some? ==> call.file.value == Some(s.key) && s.mirrored)
            && (call.file.None? ==>
                  call.tool != OpenTool && (m.defaultKey == Some(s.key) || (m.defaultKey == None && |m.sessions| == 1)))
            && (call.tool == OpenTool || call.tool == SyncTool ==> report.pulls == [Attempt(s.key, pulls(0))]))
  {
    hide AfterOpen, AfterPull, AfterResolve;
    var m := w.manager;
    if call.tool == OpenTool {
      if call.file.Some? {
        OpenedIs(m, call.file.value, disk);
        var (m1, r) := AfterOpen(m, call.file.value, disk);
        if r.Ok? {
          PulledOutcome(m1.sessions[r.value], pulls(0), interval);
        }
      }
    } else if call.tool != FilesTool && call.tool != ProxiedTool {
      RoutedToFile(m, call.file, disk, pulls(0), interval);
      var (m1, r) := AfterResolve(m, call.file, disk, pulls(0), interval);
      if r.Ok? {
        PulledOutcome(m1.sessions[r.value.pos], pulls(0), interval);
      }
    }
  }

  // ---- startup ----

  /** The session of this key is among them and, if `pulled`, mirrored. */
  ghost predicate Has(m: ManagerState, key: string, pulled: bool) {
    exists s <- m.sessions :: s.key == key && (pulled ==> s.mirrored)
  }

  /** What opening more startup files adds to the sessions there are: the files named, each mirrored if watching. */
  ghost predicate Grown(before: ManagerState, after: ManagerState, files: seq<Option<string>>, noWatch: bool) {
    && (forall key, pulled :: Has(before, key, pulled) ==> Has(after, key, pulled))
    && (forall f <- files :: f.Some? && Has(after, f.value, !noWatch))
    && (forall s <- after.sessions :: Has(before, s.key, false) || Some(s.key) in files)
  }

  lemma StartedOneGrows(m: ManagerState, file: Option<string>, first: bool, noWatch: bool, disk: Disk,
        pull: PullResult, interval: nat)
    requires StartedOne(m, file, first, noWatch, disk, pull, interval).Ok?
    ensures var after := StartedOne(m, file, first, noWatch, disk, pull, interval).value;
      Grown(m, after, [file], noWatch) && after.defaultKey == if first then file else m.defaultKey
  {
    hide AfterOpen, AfterPull;
    OpenedIs(m, file, disk);
    var (m1, r) := AfterOpen(m, file, disk);
    var after := StartedOne(m, file, first, noWatch, disk, pull, interval).value;
    var pos := r.value;
    PulledOutcome(m1.sessions[pos], pull, interval);
    forall i | 0 <= i < |m1.sessions|
      ensures after.sessions[i].key == m1.sessions[i].key && (m1.sessions[i].mirrored ==> after.sessions[i].mirrored)
    {
    }
    assert |after.sessions| == |m1.sessions| && after.sessions[pos] in after.sessions;
    assert !noWatch ==> after.sessions[pos].mirrored;
    forall key, pulled | Has(m, key, pulled) ensures Has(after, key, pulled) {
      var s :| s in m.sessions && s.key == key && (pulled ==> s.mirrored);
      var i :| 0 <= i < |m.sessions| && m.sessions[i] == s;
      assert m1.sessions[i] == s && after.sessions[i] in after.sessions;
    }
    forall s | s in after.sessions ensures Has(m, s.key, false) || Some(s.key) == file {
      var i :| 0 <= i < |after.sessions| && after.sessions[i] == s;
      if i < |m.sessions| {
        assert m1.sessions[i] == m.sessions[i] && m.sessions[i] in m.sessions;
      }
    }
  }

  lemma GrownTwice(a: ManagerState, b: ManagerState, c: ManagerState, one: seq<Option<string>>, more: seq<Option<string>>,
                   noWatch: bool)
    requires Grown(a, b, one, noWatch) && Grown(b, c, more, noWatch)
    ensures Grown(a, c, one + more, noWatch)
  {
    forall s | s in c.sessions ensures Has(a, s.key, false) || Some(s.key) in one + more {
      if Some(s.key) !in more {
        var x :| x in b.sessions && x.key == s.key;
        assert Has(a, x.key, false) || Some(x.key) in one;
      }
    }
  }

  lemma {:induction false} StartedGrows(m: ManagerState, files: seq<Option<string>>, i: nat, noWatch: bool, disk: Disk,
        pulls: Pulls, interval: nat)
    requires i <= |files| && Started(m, files, i, noWatch, disk, pulls, interval).Ok?
    ensures var after := Started(m, files, i, noWatch, disk, pulls, interval).value;
      && Grown(m, after, files[i..], noWatch)
      && after.defaultKey == if i == 0 && files != [] then files[0] else m.defaultKey
    decreases |files| - i
  {
    hide StartedOne, Grown;
    if i < |files| {
      StartedOneGrows(m, files[i], i == 0, noWatch, disk, pulls(i), interval);
      var m1 := StartedOne(m, files[i], i == 0, noWatch, disk, pulls(i), interval).value;
      StartedGrows(m1, files, i + 1, noWatch, disk, pulls, interval);
      GrownTwice(m, m1, Started(m, files, i, noWatch, disk, pulls, interval).value, [files[i]], files[i + 1..], noWatch);
      assert [files[i]] + files[i + 1..] == files[i..];
    } else {
      GrownNot(m, noWatch);
      assert files[i..] == [];
    }
  }

  lemma GrownNot(m: ManagerState, noWatch: bool)
    ensures Grown(m, m, [], noWatch)
  {
  }

  /** A startup that succeeds has sessions for exactly the files named, each mirrored unless nothing is to be
      watched, and goes by the first of them by default. */
  lemma StartupSessions(files: seq<Option<string>>, noWatch: bool, disk: Disk, pulls: Pulls, interval: nat)
    requires Started(ManagerState([], None), files, 0, noWatch, disk, pulls, interval).Ok?
    ensures var m := Started(ManagerState([], None), files, 0, noWatch, disk, pulls, interval).value;
      && (forall f <- files :: f.Some? && exists s <- m.sessions :: Some(s.key) == f && (noWatch || s.mirrored))
      && (forall s <- m.sessions :: Some(s.key) in files)
      && m.defaultKey == if files == [] then None else files[0]
  {
    hide Started;
    StartedGrows(ManagerState([], None), files, 0, noWatch, disk, pulls, interval);
    var m := Started(ManagerState([], None), files, 0, noWatch, disk, pulls, interval).value;
    assert files[0..] == files;
    forall f | f in files ensures f.Some? && exists s <- m.sessions :: Some(s.key) == f && (noWatch || s.mirrored) {
      assert Has(m, f.value, !noWatch);
    }
    assert forall key :: !Has(ManagerState([], None), key, false);
  }
}
