/** Proxied upstream calls and their version-keyed cache, over an arbitrary key hash. */
module Cache {
  import opened Basics
  import opened Json
  import opened Model
  import opened Store
  import opened Pulls

  /** The key hash of a tool and its canonical arguments. Nothing is assumed of it. */
  type Hash = (string, Value) -> string

  predicate StartsWith(s: string, prefix: string) {
    |prefix| <= |s| && s[..|prefix|] == prefix
  }

  predicate NameCacheCapable(name: string) {
    StartsWith(name, "get_") || StartsWith(name, "list_")
  }

  predicate HasExplicitNodeId(args: Value) {
    StrField(args, "nodeId").Some? || StrField(args, "node_id").Some? || StrField(args, "id").Some?
  }

  predicate IsCacheable(name: string, args: Value) {
    NameCacheCapable(name) && HasExplicitNodeId(args)
  }

  predicate IsError(result: Value) {
    result.Get("isError") == Some(Bool(true))
  }

  /** A hit needs the stored row's tool, arguments and version to be the requested ones. */
  function CacheLookup(rows: Rows, hash: Hash, tool: string, args: Value, version: string): Option<Value> {
    match Lookup(rows, ProxyCacheId(hash(tool, args)))
    case Some(ProxyCache(rec)) =>
      if rec.tool == tool && rec.args == args && rec.fileVersion == version then Some(rec.content) else None
    case _ => None
  }

  method CacheStore(st: KeyedStream, hash: Hash, tool: string, args: Value, version: string, content: Value)
    requires st.Valid()
    modifies st
    ensures st.Valid() && st.rows == Cached(old(st.rows), hash, tool, args, version, content)
  {
    var key := hash(tool, args);
    var _ := st.Upsert(ProxyCacheId(key), ProxyCache(ProxyCacheRec(key, tool, args, version, content)));
  }

  function Cached(rows: Rows, hash: Hash, tool: string, args: Value, version: string, content: Value): Rows {
    var key := hash(tool, args);
    rows[ProxyCacheId(key) := ProxyCache(ProxyCacheRec(key, tool, args, version, content))]
  }

  // ---- one call ----

  /** What a call did: whether upstream was contacted, what the client gets, and whether a poll of the
      file should follow at once. */
  datatype Outcome = Outcome(contacted: bool, result: Result<Value, string>, poll: bool)

  /** The hit a call is served from, if any. */
  function Hit(rows: Rows, hash: Hash, name: string, args: Value): Option<Value> {
    if IsCacheable(name, args) && Version(rows).Some? then CacheLookup(rows, hash, name, args, Version(rows).value)
    else None
  }

  function CallOutcome(rows: Rows, hash: Hash, name: string, args: Value, answer: Result<Value, string>): Outcome {
    match Hit(rows, hash, name, args)
    case Some(content) => Outcome(false, Ok(content), false)
    case None => Outcome(true, answer, answer.Ok? && !NameCacheCapable(name))
  }

  function AfterCall(rows: Rows, hash: Hash, name: string, args: Value, answer: Result<Value, string>): Rows {
    if Hit(rows, hash, name, args).None? && answer.Ok? && IsCacheable(name, args)
       && !IsError(answer.value) && Version(rows).Some?
    then Cached(rows, hash, name, args, Version(rows).value, answer.value)
    else rows
  }

  /** Execute one proxied call; `answer` is what upstream would say if contacted. */
  method ProxyCall(st: KeyedStream, hash: Hash, name: string, args: Value, answer: Result<Value, string>)
    returns (out: Outcome)
    requires st.Valid()
    modifies st
    ensures st.Valid() && st.rows == AfterCall(old(st.rows), hash, name, args, answer)
    ensures out == CallOutcome(old(st.rows), hash, name, args, answer)
  {
    hide Rebuilt;
    var version, hit := None, None;
    if IsCacheable(name, args) {
      version := Version(st.rows);
      if version.Some? {
        hit := CacheLookup(st.rows, hash, name, args, version.value);
      }
    }
    if hit.Some? {
      return Outcome(false, Ok(hit.value), false);
    }
    if answer.Err? {
      return Outcome(true, answer, false);
    }
    if IsCacheable(name, args) {
      if !IsError(answer.value) && version.Some? {
        CacheStore(st, hash, name, args, version.value, answer.value);
      }
      return Outcome(true, answer, false);
    }
    return Outcome(true, answer, !NameCacheCapable(name));
  }

  // ---- runs ----

  /** One answer upstream gave, with the file version the store held at the time. */
  datatype LogEntry = LogEntry(tool: string, args: Value, version: Option<string>, content: Value)

  datatype World = World(rows: Rows, log: seq<LogEntry>)

  /** What can happen to a mirror's store: a proxied call; a pull of either kind; a pull cut off after
      its sync, or after its eviction; the wipe that begins a fresh pull; any other write, which touches
      neither the cached responses nor the meta row. */
  datatype Event =
    | Call(name: string, args: Value, answer: Result<Value, string>)
    | SessionPull(d: Fetched, geometry: bool, now: nat)
    | CliPull(d: Fetched, geometry: bool, now: nat)
    | CutAfterSync(d: Fetched, now: nat)
    | CutAfterEvict(d: Fetched, now: nat)
    | Wipe
    | Write(op: Op)

  ghost predicate Possible(e: Event) {
    match e
    case Call(_, _, _) => true
    case Wipe => true
    case Write(op) => !op.id.ProxyCacheId? && op.id != MetaId
    case _ => Storable(e.d)
  }

  function Step(w: World, hash: Hash, e: Event): World {
    match e
    case Call(name, args, answer) =>
      var log :=
        if CallOutcome(w.rows, hash, name, args, answer).contacted && answer.Ok?
        then w.log + [LogEntry(name, args, Version(w.rows), answer.value)] else w.log;
      World(AfterCall(w.rows, hash, name, args, answer), log)
    case SessionPull(d, geometry, now) => w.(rows := SessionPulled(w.rows, d, geometry, now))
    case CliPull(d, geometry, now) => w.(rows := CliPulled(w.rows, d, geometry, now))
    case CutAfterSync(d, now) => w.(rows := AfterSync(w.rows, d, now))
    case CutAfterEvict(d, now) => w.(rows := AfterEvict(AfterSync(w.rows, d, now), d.f.file.version))
    case Wipe => w.(rows := map[])
    case Write(op) => w.(rows := AfterOp(w.rows, op))
  }

  function Run(w: World, hash: Hash, events: seq<Event>): World {
    if events == [] then w else Step(Run(w, hash, events[..|events| - 1]), hash, events[|events| - 1])
  }

  /** The row is an answer upstream gave to the row's own tool and arguments at the row's version. */
  ghost predicate Given(log: seq<LogEntry>, rec: ProxyCacheRec) {
    !IsError(rec.content) && LogEntry(rec.tool, rec.args, Some(rec.fileVersion), rec.content) in log
  }

  ghost predicate Honest(w: World) {
    forall id <- w.rows :: id.ProxyCacheId? && w.rows[id].ProxyCache? ==> Given(w.log, w.rows[id].proxy)
  }

  /** Cached responses are only ever dropped by what is not a call. */
  lemma OthersKeepResponses(w: World, hash: Hash, e: Event, id: Id)
    requires Possible(e) && !e.Call? && id.ProxyCacheId?
    ensures var after := Lookup(Step(w, hash, e).rows, id); after.None? || after == Lookup(w.rows, id)
  {
    hide AfterSync, Storable;
    if !e.Write? && !e.Wipe? {
      SyncKeepsCaches(w.rows, e.d, e.now, id);
    }
  }

  lemma StepHonest(w: World, hash: Hash, e: Event)
    requires Honest(w) && Possible(e)
    ensures Honest(Step(w, hash, e))
  {
    hide AfterSync, IsCacheable, IsError, SessionPulled, CliPulled, AfterEvict;
    var after := Step(w, hash, e);
    forall id | id in after.rows && id.ProxyCacheId? && after.rows[id].ProxyCache?
      ensures Given(after.log, after.rows[id].proxy)
    {
      if !e.Call? {
        OthersKeepResponses(w, hash, e, id);
        assert Lookup(after.rows, id) == Lookup(w.rows, id);
      }
    }
  }

  lemma {:induction false} RunHonest(hash: Hash, events: seq<Event>)
    requires forall e <- events :: Possible(e)
    ensures Honest(Run(World(map[], []), hash, events))
  {
    if events != [] {
      RunHonest(hash, events[..|events| - 1]);
      StepHonest(Run(World(map[], []), hash, events[..|events| - 1]), hash, events[|events| - 1]);
    }
  }

  /** Whatever the hash and whatever happened before, a response served without contacting upstream is
      one upstream gave, not an error, to that same tool and those arguments, while the store held the
      file version it holds now. */
  lemma ServedAnswersAreUpstreams(hash: Hash, events: seq<Event>, name: string, args: Value, answer: Result<Value,
        string>)
    requires forall e <- events :: Possible(e)
    ensures var w := Run(World(map[], []), hash, events);
      var out := CallOutcome(w.rows, hash, name, args, answer);
      !out.contacted ==>
        && out.result.Ok? && !IsError(out.result.value) && Version(w.rows).Some?
        && LogEntry(name, args, Version(w.rows), out.result.value) in w.log
  {
    hide IsCacheable, IsError;
    RunHonest(hash, events);
  }

  /** The event cannot drop a response to this call stored at version `version`: it is the same call, or one
      under another key; a pull of that version, whole or cut off; or a write of another row. */
  ghost predicate Spares(e: Event, hash: Hash, name: string, args: Value, version: string) {
    match e
    case Call(n, a, _) => (n == name && a == args) || hash(n, a) != hash(name, args)
    case Wipe => false
    case Write(_) => Possible(e)
    case _ => Possible(e) && e.d.f.file.version == version
  }

  /** The row a served call is served from. */
  ghost predicate Holding(rows: Rows, hash: Hash, name: string, args: Value, version: string, content: Value) {
    && Version(rows) == Some(version)
    && Hit(rows, hash, name, args) == Some(content)
  }

  lemma PullSpares(rows: Rows, hash: Hash, name: string, args: Value, version: string, content: Value, d: Fetched,
        geometry: bool, now: nat)
    requires Holding(rows, hash, name, args, version, content) && Storable(d) && d.f.file.version == version
    ensures Holding(AfterSync(rows, d, now), hash, name, args, version, content)
    ensures Holding(AfterEvict(AfterSync(rows, d, now), version), hash, name, args, version, content)
    ensures Holding(SessionPulled(rows, d, geometry, now), hash, name, args, version, content)
    ensures Holding(CliPulled(rows, d, geometry, now), hash, name, args, version, content)
  {
    hide AfterSync, Storable, IsCacheable;
    SyncKeepsCaches(rows, d, now, ProxyCacheId(hash(name, args)));
    SameRow(rows, AfterSync(rows, d, now), hash, name, args, version, content);
    EvictSpares(AfterSync(rows, d, now), hash, name, args, version, content);
    ConfigSpares(AfterSync(rows, d, now), hash, name, args, version, content);
    ConfigSpares(AfterEvict(AfterSync(rows, d, now), version), hash, name, args, version, content);
  }

  lemma SameRow(rows: Rows, after: Rows, hash: Hash, name: string, args: Value, version: string, content: Value)
    requires Holding(rows, hash, name, args, version, content) && Version(after) == Some(version)
    requires Lookup(after, ProxyCacheId(hash(name, args))) == Lookup(rows, ProxyCacheId(hash(name, args)))
    ensures Holding(after, hash, name, args, version, content)
  {
    hide IsCacheable;
  }

  lemma EvictSpares(rows: Rows, hash: Hash, name: string, args: Value, version: string, content: Value)
    requires Holding(rows, hash, name, args, version, content)
    ensures Holding(AfterEvict(rows, version), hash, name, args, version, content)
  {
    hide IsCacheable;
    assert StoredMeta(AfterEvict(rows, version)) == StoredMeta(rows);
  }

  lemma ConfigSpares(rows: Rows, hash: Hash, name: string, args: Value, version: string, content: Value)
    requires Holding(rows, hash, name, args, version, content)
    ensures forall geometry :: Holding(AfterConfig(rows, geometry), hash, name, args, version, content)
  {
    hide IsCacheable;
    forall geometry ensures Holding(AfterConfig(rows, geometry), hash, name, args, version, content) {
      assert StoredMeta(AfterConfig(rows, geometry)) == StoredMeta(rows);
    }
  }

  lemma StepSpares(w: World, hash: Hash, e: Event, name: string, args: Value, version: string, content: Value)
    requires Holding(w.rows, hash, name, args, version, content) && Spares(e, hash, name, args, version)
    ensures Holding(Step(w, hash, e).rows, hash, name, args, version, content)
  {
    if e.Call? {
      CallSpares(w.rows, hash, e, name, args, version, content);
    } else if e.Write? {
      assert StoredMeta(Step(w, hash, e).rows) == StoredMeta(w.rows);
    } else {
      hide Holding, AfterSync, SessionPulled, CliPulled, AfterEvict, Storable;
      var geometry := if e.SessionPull? || e.CliPull? then e.geometry else false;
      PullSpares(w.rows, hash, name, args, version, content, e.d, geometry, e.now);
    }
  }

  lemma CallSpares(rows: Rows, hash: Hash, e: Event, name: string, args: Value, version: string, content: Value)
    requires Holding(rows, hash, name, args, version, content) && e.Call? && Spares(e, hash, name, args, version)
    ensures Holding(AfterCall(rows, hash, e.name, e.args, e.answer), hash, name, args, version, content)
  {
    hide IsCacheable, IsError;
    assert StoredMeta(AfterCall(rows, hash, e.name, e.args, e.answer)) == StoredMeta(rows);
  }

  /** The cache does serve: a cacheable answer stored at the current version answers the same call
      without contacting upstream, whatever comes in between that cannot drop it: the call again, calls
      under other keys, pulls of the same version, and writes of other rows. */
  lemma RepeatIsServed(w: World, hash: Hash, name: string, args: Value, answer: Result<Value, string>,
                       between: seq<Event>, again: Result<Value, string>)
    requires IsCacheable(name, args) && Version(w.rows).Some?
    requires Hit(w.rows, hash, name, args).None? && answer.Ok? && !IsError(answer.value)
    requires forall e <- between :: Spares(e, hash, name, args, Version(w.rows).value)
    ensures var v := Run(Step(w, hash, Call(name, args, answer)), hash, between);
      CallOutcome(v.rows, hash, name, args, again) == Outcome(false, Ok(answer.value), false)
  {
    hide IsError, IsCacheable, Spares;
    var first := Step(w, hash, Call(name, args, answer));
    assert StoredMeta(first.rows) == StoredMeta(w.rows);
    BetweenSpares(first, hash, between, name, args, Version(w.rows).value, answer.value);
  }

  lemma {:induction false} BetweenSpares(w: World, hash: Hash, between: seq<Event>, name: string, args: Value,
        version: string, content: Value)
    requires Holding(w.rows, hash, name, args, version, content)
    requires forall e <- between :: Spares(e, hash, name, args, version)
    ensures Holding(Run(w, hash, between).rows, hash, name, args, version, content)
  {
    hide Holding, Spares, Step;
    if between != [] {
      BetweenSpares(w, hash, between[..|between| - 1], name, args, version, content);
      StepSpares(Run(w, hash, between[..|between| - 1]), hash, between[|between| - 1], name, args, version, content);
    }
  }

  // ---- which calls are cached ----

  predicate TextAt(args: Value, k: string) {
    args.Get(k).Some? && args.Get(k).value.Str?
  }

  predicate Begins(name: string, with: string) {
    |with| <= |name| && forall i :: 0 <= i < |with| ==> name[i] == with[i]
  }

  /** A call may be cached exactly when it is named like a reader and names a node. Any other call contacts
      upstream whatever is stored, and stores nothing; when it succeeds, the file is polled at once exactly
      when the call is not named like a reader. */
  lemma UncachedCalls(rows: Rows, hash: Hash, name: string, args: Value, answer: Result<Value, string>)
    ensures var reader := Begins(name, "get_") || Begins(name, "list_");
      var named := TextAt(args, "nodeId") || TextAt(args, "node_id") || TextAt(args, "id");
      && (IsCacheable(name, args) <==> reader && named)
      && (!(reader && named) ==>
            && CallOutcome(rows, hash, name, args, answer) == Outcome(true, answer, answer.Ok? && !reader)
            && AfterCall(rows, hash, name, args, answer) == rows)
  {
    PrefixIs(name, "get_");
    PrefixIs(name, "list_");
    hide StartsWith, Begins;
  }

  lemma PrefixIs(name: string, prefix: string)
    ensures StartsWith(name, prefix) <==> Begins(name, prefix)
  {
    if Begins(name, prefix) {
      assert name[..|prefix|] == prefix;
    }
    if StartsWith(name, prefix) {
      assert forall i :: 0 <= i < |prefix| ==> name[..|prefix|][i] == name[i];
    }
  }

  /** An error from upstream, or a failure to reach it, is passed on and never stored. */
  lemma ErrorsAreNotStored(rows: Rows, hash: Hash, name: string, args: Value, answer: Result<Value, string>)
    requires answer.Err? || answer.value.Get("isError") == Some(Bool(true))
    ensures AfterCall(rows, hash, name, args, answer) == rows
    ensures CallOutcome(rows, hash, name, args, answer).contacted ==>
      CallOutcome(rows, hash, name, args, answer).result == answer
  {
    hide IsCacheable;
  }
}
