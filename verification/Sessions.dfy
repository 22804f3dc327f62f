/** The mirrored files of one serve process: pulling with backoff, opening on demand and routing to the
    default file. */
module Sessions {
  import opened Basics
  import opened Model
  import opened Watch

  datatype PullError = Api(error: ApiError) | Other(msg: string)

  /** What one pull comes to: the meta row it leaves stored, or a failure that leaves the store alone. */
  type PullResult = Result<FileMeta, PullError>

  /** How long to wait after a failed pull, and the backoff for the next one: a rate limit is waited
      out without spending backoff. */
  function PullFailureWait(err: PullError, backoff: nat, interval: nat): (nat, nat) {
    match err
    case Api(RateLimited(retryAfter)) => (Max(interval, retryAfter), backoff)
    case _ => (backoff, Min(backoff * 2, BACKOFF_CAP))
  }

  // ---- one session, as a value ----

  /** `pulls` counts the pulls of this session ever attempted, of either outcome. */
  datatype SessionState = SessionState(
    key: string, name: string, meta: Option<FileMeta>, watcher: WatcherState, backoff: nat, mirrored: bool, pulls: nat)

  /** The stored `last_modified`, read back from the store. */
  function Watermark(meta: Option<FileMeta>): Option<string> {
    if meta.Some? then Some(meta.value.lastModified) else None
  }

  /** A session as opened on what its store holds on disk. */
  function Opened(key: string, disk: Option<FileMeta>): SessionState {
    SessionState(key, if disk.Some? then disk.value.name else key, disk, Watching(Watermark(disk)), BACKOFF_START,
                 disk.Some?, 0)
  }

  /** A session after a successful pull is noted. */
  function Noted(s: SessionState, meta: FileMeta): SessionState {
    s.(name := meta.name, meta := Some(meta), watcher := Watching(Some(meta.lastModified)), backoff := BACKOFF_START,
       mirrored := true)
  }

  /** A session after a pull, and the wait if it failed. */
  function AfterPull(s: SessionState, pull: PullResult, interval: nat): (SessionState, Result<(), nat>) {
    var tried := s.(pulls := s.pulls + 1);
    match pull
    case Ok(meta) => (Noted(tried, meta), Ok(()))
    case Err(e) =>
      var (wait, backoff) := PullFailureWait(e, s.backoff, interval);
      (tried.(watcher := Watching(Watermark(s.meta)), backoff := backoff), Err(wait))
  }

  // ---- one session, as the program holds it ----

  class FileSession {
    const key: string
    var name: string
    var meta: Option<FileMeta>  // the meta row of the session's own store
    var watcher: Watcher
    var backoff: nat
    var mirrored: bool
    var pulls: nat

    ghost function State(): SessionState
      reads this, watcher
    {
      SessionState(key, name, meta, watcher.State(), backoff, mirrored, pulls)
    }

    constructor (key: string, disk: Option<FileMeta>)
      ensures State() == Opened(key, disk) && fresh(watcher)
    {
      this.key := key;
      name := if disk.Some? then disk.value.name else key;
      meta := disk;
      watcher := new Watcher(Watermark(disk));
      backoff := BACKOFF_START;
      mirrored := disk.Some?;
      pulls := 0;
    }

    /** Run the session's pull; its network side is what `pull` came to. */
    method Pull(pull: PullResult) returns (r: PullResult)
      modifies this`pulls
      ensures r == pull && pulls == old(pulls) + 1
    {
      pulls := pulls + 1;
      r := pull;
    }

    method NotePullSuccess(stored: FileMeta)
      modifies this
      ensures fresh(watcher) && State() == Noted(old(State()), stored)
    {
      meta := Some(stored);
      name := stored.name;
      watcher := new Watcher(Watermark(meta));
      backoff := BACKOFF_START;
      mirrored := true;
    }

    method DoPull(pull: PullResult, interval: nat) returns (r: Result<(), nat>)
      modifies this
      ensures fresh(watcher) && (State(), r) == AfterPull(old(State()), pull, interval)
    {
      var outcome := Pull(pull);
      match outcome
      case Ok(stored) =>
        NotePullSuccess(stored);
        return Ok(());
      case Err(e) =>
        watcher := new Watcher(Watermark(meta));
        var (wait, next) := PullFailureWait(e, backoff, interval);
        backoff := next;
        return Err(wait);
    }
  }

  // ---- all sessions, as a value ----

  datatype ManagerState = ManagerState(sessions: seq<SessionState>, defaultKey: Option<string>)

  /** The position of the session with this key, or the number of sessions. */
  function Find(sessions: seq<SessionState>, key: string): (k: nat)
    ensures k <= |sessions|
    ensures k < |sessions| ==> sessions[k].key == key
    ensures forall i :: 0 <= i < k ==> sessions[i].key != key
  {
    if sessions == [] || sessions[0].key == key then 0 else Find(sessions[1..], key) + 1
  }

  /** What the disk holds for a key: a store that opens, with or without a meta row, or one that does not. */
  type Disk = string -> Result<Option<FileMeta>, string>

  /** Get or create the session of a file; never pulls. */
  function AfterOpen(m: ManagerState, key: Option<string>, disk: Disk): (ManagerState, Result<nat, string>) {
    if key.None? then (m, Err("not a Figma file key or URL"))
    else if Find(m.sessions, key.value) < |m.sessions| then (m, Ok(Find(m.sessions, key.value)))
    else
      match disk(key.value)
      case Err(e) => (m, Err(e))
      case Ok(stored) => (m.(sessions := m.sessions + [Opened(key.value, stored)]), Ok(|m.sessions|))
  }

  function EffectiveDefaultKey(m: ManagerState): Option<string> {
    if m.defaultKey.Some? then m.defaultKey
    else if |m.sessions| == 1 then Some(m.sessions[0].key)
    else None
  }

  datatype Resolved = Resolved(pos: nat, pulled: bool)

  datatype ResolveError = ResolveError(message: string, retryAfter: Option<nat>)

  const NO_DEFAULT_FILE_MSG := "no file specified and no default mirrored file"

  function WithSession(m: ManagerState, pos: nat, s: SessionState): ManagerState
    requires pos < |m.sessions|
  {
    m.(sessions := m.sessions[pos := s])
  }

  /** Route a `file` argument; `Some(key)` is the argument as parsed. */
  function AfterResolve(m: ManagerState, file: Option<Option<string>>, disk: Disk, pull: PullResult, interval: nat)
    : (ManagerState, Result<Resolved, ResolveError>)
  {
    match file
    case Some(key) =>
      (match AfterOpen(m, key, disk)
       case (m1, Err(e)) => (m1, Err(ResolveError(e, None)))
       case (m1, Ok(pos)) =>
         if m1.sessions[pos].mirrored then (m1, Ok(Resolved(pos, false)))
         else
           match AfterPull(m1.sessions[pos], pull, interval)
           case (s, Ok(_)) => (WithSession(m1, pos, s), Ok(Resolved(pos, true)))
           case (s, Err(wait)) => (WithSession(m1, pos, s), Err(ResolveError("pull failed", Some(wait)))))
    case None =>
      match EffectiveDefaultKey(m)
      case None => (m, Err(ResolveError(NO_DEFAULT_FILE_MSG, None)))
      case Some(key) =>
        if Find(m.sessions, key) < |m.sessions| then (m, Ok(Resolved(Find(m.sessions, key), false)))
        else (m, Err(ResolveError(NO_DEFAULT_FILE_MSG, None)))
  }

  /** Whether routing says it pulled. */
  predicate SaysPulled(r: Result<Resolved, ResolveError>) {
    if r.Ok? then r.value.pulled else r.error.retryAfter.Some?
  }

  // ---- pulls counted ----

  /** All pulls ever attempted of any session. */
  function PullsOf(sessions: seq<SessionState>): nat {
    if sessions == [] then 0 else PullsOf(sessions[..|sessions| - 1]) + sessions[|sessions| - 1].pulls
  }

  lemma {:induction false} PullsReplaced(sessions: seq<SessionState>, pos: nat, s: SessionState)
    requires pos < |sessions|
    ensures PullsOf(sessions[pos := s]) + sessions[pos].pulls == PullsOf(sessions) + s.pulls
  {
    var front, changed := sessions[..|sessions| - 1], sessions[pos := s];
    if pos < |front| {
      PullsReplaced(front, pos, s);
      assert changed[..|front|] == front[pos := s];
    } else {
      assert changed[..|front|] == front;
    }
  }

  lemma PullsAdded(sessions: seq<SessionState>, s: SessionState)
    ensures PullsOf(sessions + [s]) == PullsOf(sessions) + s.pulls
  {
    assert (sessions + [s])[..|sessions|] == sessions;
  }

  // ---- all sessions, as the program holds them ----

  class SessionManager {
    var sessions: seq<FileSession>
    var defaultKey: Option<string>

    ghost function Watchers(): set<object>
      reads this, sessions
    {
      set s | s in sessions :: s.watcher
    }

    /** Sessions and their watchers are objects of their own. */
    ghost predicate Valid()
      reads this, sessions
    {
      && (forall i, j :: 0 <= i < j < |sessions| ==> sessions[i] != sessions[j])
      && (forall i, j :: 0 <= i < j < |sessions| ==> sessions[i].watcher != sessions[j].watcher)
    }

    ghost function View(): ManagerState
      reads this, sessions, Watchers()
    {
      var states := seq(|sessions|, i requires 0 <= i < |sessions| reads this, sessions, Watchers() => sessions[i].State());
      ManagerState(states, defaultKey)
    }

    constructor ()
      ensures Valid() && View() == ManagerState([], None)
    {
      sessions, defaultKey := [], None;
    }

    method Position(key: string) returns (k: nat)
      requires Valid()
      ensures k == Find(View().sessions, key) && k <= |sessions| == |View().sessions|
      ensures View() == old(View())
    {
      k := 0;
      while k < |sessions| && sessions[k].key != key
        invariant k <= |sessions| && forall i :: 0 <= i < k ==> sessions[i].key != key
      {
        k := k + 1;
      }
      assert View().sessions == old(View().sessions);
      assert |View().sessions| == |sessions| && forall i :: 0 <= i < |sessions| ==> View().sessions[i].key == sessions[i].key;
    }

    method Open(key: Option<string>, disk: Disk) returns (r: Result<nat, string>)
      requires Valid()
      modifies this
      ensures Valid() && (View(), r) == AfterOpen(old(View()), key, disk)
      ensures r.Ok? ==> r.value < |sessions|
      ensures old(sessions) <= sessions && fresh(Elements(sessions) - Elements(old(sessions)))
      ensures fresh(Watchers() - old(Watchers()))
    {
      hide Opened, Watermark, Find;
      if key.None? {
        return Err("not a Figma file key or URL");
      }
      var pos := Position(key.value);
      if pos < |sessions| {
        return Ok(pos);
      }
      var stored := disk(key.value);
      match stored
      case Err(e) =>
        return Err(e);
      case Ok(d) =>
        var s := new FileSession(key.value, d);
        sessions := sessions + [s];
        assert View().sessions == old(View()).sessions + [Opened(key.value, d)];
        return Ok(|sessions| - 1);
    }

    /** Pull the session at `pos`. */
    method PullAt(pos: nat, pull: PullResult, interval: nat) returns (r: Result<(), nat>)
      requires Valid() && pos < |sessions|
      modifies sessions[pos]
      ensures Valid() && sessions == old(sessions) && fresh(sessions[pos].watcher)
      ensures r == AfterPull(old(View()).sessions[pos], pull, interval).1
      ensures View() == WithSession(old(View()), pos, AfterPull(old(View()).sessions[pos], pull, interval).0)
    {
      r := sessions[pos].DoPull(pull, interval);
    }

    method Resolve(file: Option<Option<string>>, disk: Disk, pull: PullResult, interval: nat)
      returns (r: Result<Resolved, ResolveError>)
      requires Valid()
      modifies this, sessions
      ensures Valid() && (View(), r) == AfterResolve(old(View()), file, disk, pull, interval)
      ensures r.Ok? ==> r.value.pos < |sessions|
      ensures old(sessions) <= sessions && fresh(Elements(sessions) - Elements(old(sessions)))
      ensures fresh(Watchers() - old(Watchers()))
    {
      match file
      case Some(key) =>
        var found := Open(key, disk);
        if found.Err? {
          return Err(ResolveError(found.error, None));
        }
        var pos := found.value;
        if sessions[pos].mirrored {
          return Ok(Resolved(pos, false));
        }
        var pulled := PullAt(pos, pull, interval);
        match pulled {
          case Ok(_) => return Ok(Resolved(pos, true));
          case Err(wait) => return Err(ResolveError("pull failed", Some(wait)));
        }
      case None =>
        var key := if defaultKey.Some? then defaultKey else if |sessions| == 1 then Some(sessions[0].key) else None;
        if key.None? {
          return Err(ResolveError(NO_DEFAULT_FILE_MSG, None));
        }
        var pos := Position(key.value);
        if pos < |sessions| {
          return Ok(Resolved(pos, false));
        }
        return Err(ResolveError(NO_DEFAULT_FILE_MSG, None));
    }
  }
}
