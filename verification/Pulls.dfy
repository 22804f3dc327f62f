/** A pull, as the command line and a serve session run it: flatten the fetched response, sync it, drop
    the cached rows of other file versions, and remember the geometry setting. Each of the three is a
    transaction of its own. */
module Pulls {
  import opened Basics
  import opened Json
  import opened Model
  import opened Store
  import opened Flatten
  import opened Sync

  function StoredMeta(rows: Rows): Option<FileMeta> {
    if MetaId in rows && rows[MetaId].Meta? then Some(rows[MetaId].meta) else None
  }

  function Version(rows: Rows): Option<string> {
    if StoredMeta(rows).Some? then Some(StoredMeta(rows).value.version) else None
  }

  /** The stored geometry flag; false when no row was ever written. */
  function ReadGeometry(rows: Rows): bool {
    MirrorConfigId in rows && rows[MirrorConfigId].MirrorConfig? && rows[MirrorConfigId].geometry
  }

  function EffectiveGeometry(flag: bool, stored: bool): bool {
    flag || stored
  }

  /** The file version a cached row is tagged with. */
  function TaggedVersion(rec: Rec): Option<string> {
    match rec
    case ProxyCache(p) => Some(p.fileVersion)
    case ImageBlob(b) => Some(b.fileVersion)
    case _ => None
  }

  function StaleCacheIds(rows: Rows, version: string): set<Id> {
    set id | id in rows && id.ProxyCacheId? && TaggedVersion(rows[id]) != Some(version)
  }

  function StaleImageIds(rows: Rows, version: string): set<Id> {
    set id | id in rows && id.ImageBlobId? && TaggedVersion(rows[id]) != Some(version)
  }

  function Stale(rows: Rows, version: string): set<Id> {
    StaleCacheIds(rows, version) + StaleImageIds(rows, version)
  }

  // ---- the transactions ----

  /** What a pull fetched: the flattened file and, on plans that offer one, the variables export. */
  datatype Fetched = Fetched(f: Flattened, vars: Option<seq<Entry>>)

  function Combined(d: Fetched): Flattened {
    d.f.(recs := d.f.recs + if d.vars.Some? then d.vars.value else [])
  }

  /** The kinds of rows this pull sweeps: variables and collections only when it fetched them. */
  function SweptKinds(d: Fetched): Id -> bool {
    id => Sweepable(id) || (d.vars.Some? && VariableKind(id))
  }

  function Prior(rows: Rows, d: Fetched): set<Id> {
    set id | id in rows && SweptKinds(d)(id)
  }

  function AfterSync(rows: Rows, d: Fetched, now: nat): Rows {
    Synced(rows, Prior(rows, d), Combined(d), now)
  }

  function AfterEvict(rows: Rows, version: string): Rows {
    rows - Stale(rows, version)
  }

  function AfterConfig(rows: Rows, geometry: bool): Rows {
    rows[MirrorConfigId := MirrorConfig(geometry)]
  }

  /** A session always evicts. */
  function SessionPulled(rows: Rows, d: Fetched, geometry: bool, now: nat): Rows {
    AfterConfig(AfterEvict(AfterSync(rows, d, now), d.f.file.version),
                EffectiveGeometry(geometry, ReadGeometry(rows)))
  }

  /** The command line evicts only if the stored version moved. */
  function CliPulled(rows: Rows, d: Fetched, geometry: bool, now: nat): Rows {
    var synced := AfterSync(rows, d, now);
    var evicted := if Version(rows) != Some(d.f.file.version) then AfterEvict(synced, d.f.file.version) else synced;
    AfterConfig(evicted, EffectiveGeometry(geometry, ReadGeometry(evicted)))
  }

  // ---- the programs ----

  datatype PullOutcome = PullOutcome(churn: Churn, name: string, version: string)

  /** The network's reply: a failure, or the file response with, where the plan offers one, the
      variables export as parsed (or not parsed). */
  type Reply = Result<(Value, Option<Result<seq<Entry>, string>>), string>

  /** What fetching, flattening and parsing came to, before the store is written. */
  function Prepared(reply: Reply): Result<Fetched, string> {
    match reply
    case Err(e) => Err(e)
    case Ok((resp, vars)) =>
      match FlattenedFile(resp)
      case Err(e) => Err(e)
      case Ok(f) =>
        match vars
        case None => Ok(Fetched(f, None))
        case Some(Err(e)) => Err(e)
        case Some(Ok(recs)) => Ok(Fetched(f, Some(recs)))
  }

  /** Every record the pull will store is keyed by its own kind. */
  ghost predicate Storable(d: Fetched) {
    && (forall e <- d.f.recs :: Matches(e.id, e.rec) && Sweepable(e.id))
    && (d.vars.Some? ==> forall e <- d.vars.value :: Matches(e.id, e.rec) && VariableKind(e.id))
  }

  method CollectPrior(st: KeyedStream, d: Fetched) returns (prior: set<Id>)
    requires st.Valid()
    ensures prior == Prior(st.rows, d)
    ensures forall id :: id in prior <==>
      && id in st.rows
      && (id.NodeId? || id.ComponentId? || id.ComponentSetId? || id.StyleId?
          || (d.vars.Some? && (id.VariableId? || id.CollectionId?)))
  {
    SweepableIds(st.View(), st.rows);
    prior := CollectSweepable(st.nodes, st.rows);
    if d.vars.Some? {
      prior := prior + CollectVariableIds(st.rows);
    }
  }

  method EvictStaleCache(st: KeyedStream, version: string)
    requires st.Valid()
    modifies st
    ensures st.Valid() && st.rows == AfterEvict(old(st.rows), version)
  {
    var stale := Stale(st.rows, version);
    if stale != {} {
      var _ := RemoveAll(st, stale);
    }
  }

  method UpsertMirrorConfig(st: KeyedStream, geometry: bool)
    requires st.Valid()
    modifies st
    ensures st.Valid() && st.rows == AfterConfig(old(st.rows), geometry)
  {
    var _ := st.Upsert(MirrorConfigId, MirrorConfig(geometry));
  }

  /** One session pull. A failure of any kind happens before the first transaction. */
  method SessionPull(st: KeyedStream, reply: Reply, geometry: bool, now: nat)
    returns (r: Result<PullOutcome, string>)
    requires st.Valid() && (Prepared(reply).Ok? ==> Storable(Prepared(reply).value))
    modifies st
    ensures st.Valid() && (r.Ok? <==> Prepared(reply).Ok?)
    ensures r.Err? ==> st.rows == old(st.rows)
    ensures r.Ok? ==> st.rows == SessionPulled(old(st.rows), Prepared(reply).value, geometry, now)
  {
    hide Rebuilt, Synced, TablesAfterOp, FlattenedFile, Stale, Prior;
    var requestGeometry := EffectiveGeometry(geometry, ReadGeometry(st.rows));
    match Prepared(reply)
    case Err(e) =>
      return Err(e);
    case Ok(d) =>
      var f, version := Combined(d), d.f.file.version;
      var prior := CollectPrior(st, d);
      var churn := SyncFile(st, prior, f, now);
      EvictStaleCache(st, version);
      UpsertMirrorConfig(st, requestGeometry);
      return Ok(PullOutcome(churn, f.file.name, version));
  }

  /** One command-line pull; `startOver` (`--fresh`) starts over on an empty store, before flattening can fail. */
  method CliPull(st: KeyedStream, reply: Reply, startOver: bool, geometry: bool, now: nat)
    returns (target: KeyedStream, r: Result<PullOutcome, string>)
    requires st.Valid() && (Prepared(reply).Ok? ==> Storable(Prepared(reply).value))
    modifies st
    ensures target.Valid() && (r.Ok? <==> Prepared(reply).Ok?)
    ensures r.Err? ==> target.rows == if startOver && reply.Ok? then map[] else old(st.rows)
    ensures r.Ok? ==>
      target.rows == CliPulled(if startOver then map[] else old(st.rows), Prepared(reply).value, geometry, now)
  {
    hide Rebuilt, Synced, TablesAfterOp, FlattenedFile, Stale, Prior;
    target := st;
    if startOver && reply.Ok? {
      target := new KeyedStream();
    }
    match Prepared(reply)
    case Err(e) =>
      return target, Err(e);
    case Ok(d) =>
      var f, version := Combined(d), d.f.file.version;
      var prior := CollectPrior(target, d);
      var priorVersion := Version(target.rows);
      var churn := SyncFile(target, prior, f, now);
      if priorVersion != Some(version) {
        EvictStaleCache(target, version);
      }
      UpsertMirrorConfig(target, EffectiveGeometry(geometry, ReadGeometry(target.rows)));
      return target, Ok(PullOutcome(churn, f.file.name, version));
  }

  // ---- cached rows and versions ----

  /** Every cached row carries the stored version; with no meta row there are no cached responses and
      every image carries the empty version. */
  ghost predicate CachesCurrent(rows: Rows) {
    forall id <- rows ::
      && (id.ProxyCacheId? ==> TaggedVersion(rows[id]) == Version(rows) && Version(rows).Some?)
      && (id.ImageBlobId? ==> TaggedVersion(rows[id]) == Some(GetOr(Version(rows), "")))
  }

  /** What a sync leaves alone: the caches and the config; and what it sets. */
  lemma SyncKeepsCaches(rows: Rows, d: Fetched, now: nat, id: Id)
    requires Storable(d)
    ensures id.ProxyCacheId? || id.ImageBlobId? || id.MirrorConfigId? ==>
      Lookup(AfterSync(rows, d, now), id) == Lookup(rows, id)
    ensures StoredMeta(AfterSync(rows, d, now)) == Some(MetaOf(d.f.file, now).meta)
    ensures Version(AfterSync(rows, d, now)) == Some(d.f.file.version)
  {
    hide Upserted;
    if id.ProxyCacheId? || id.ImageBlobId? || id.MirrorConfigId? {
      UpsertedElsewhere(rows, Combined(d).recs, id);
    }
  }

  /** A session's pull makes every cached row current, whatever the store held. */
  lemma SessionPullCurrent(rows: Rows, d: Fetched, geometry: bool, now: nat)
    requires Storable(d)
    ensures CachesCurrent(SessionPulled(rows, d, geometry, now))
    ensures Version(SessionPulled(rows, d, geometry, now)) == Some(d.f.file.version)
  {
    hide AfterSync, Storable;
    SyncKeepsCaches(rows, d, now, MetaId);
    var synced := AfterSync(rows, d, now);
    var after := SessionPulled(rows, d, geometry, now);
    assert StoredMeta(after) == StoredMeta(synced);
  }

  /** What is stored of the file afterwards is the file pulled. */
  lemma SessionPullStores(rows: Rows, d: Fetched, geometry: bool, now: nat)
    requires Storable(d)
    ensures StoredMeta(SessionPulled(rows, d, geometry, now)) == Some(MetaOf(d.f.file, now).meta)
  {
    hide AfterSync, Storable;
    SyncKeepsCaches(rows, d, now, MetaId);
    assert StoredMeta(SessionPulled(rows, d, geometry, now)) == StoredMeta(AfterSync(rows, d, now));
  }

  /** The two kinds of pull leave the same store exactly when the version moved or nothing cached is
      of another version than the one pulled. */
  lemma PullsAgree(rows: Rows, d: Fetched, geometry: bool, now: nat)
    requires Storable(d)
    ensures CliPulled(rows, d, geometry, now) == SessionPulled(rows, d, geometry, now) <==>
      Version(rows) != Some(d.f.file.version) || Stale(rows, d.f.file.version) == {}
  {
    hide AfterSync, Storable;
    var version, synced := d.f.file.version, AfterSync(rows, d, now);
    SyncKeepsCaches(rows, d, now, MirrorConfigId);
    forall id ensures id in Stale(synced, version) <==> id in Stale(rows, version) {
      SyncKeepsCaches(rows, d, now, id);
    }
    var evicted := AfterEvict(synced, version);
    assert MirrorConfigId !in Stale(synced, version);
    assert ReadGeometry(evicted) == ReadGeometry(synced) == ReadGeometry(rows);
    if Stale(rows, version) == {} {
      assert evicted == synced;
    } else {
      var id :| id in Stale(rows, version);
      assert id in CliPulled(rows, d, geometry, now) || Version(rows) != Some(version);
      assert id !in SessionPulled(rows, d, geometry, now);
    }
  }

  /** After completed steps the two therefore agree. */
  lemma CurrentPullsAgree(rows: Rows, d: Fetched, geometry: bool, now: nat)
    requires Storable(d) && CachesCurrent(rows)
    ensures CliPulled(rows, d, geometry, now) == SessionPulled(rows, d, geometry, now)
    ensures CachesCurrent(CliPulled(rows, d, geometry, now))
  {
    PullsAgree(rows, d, geometry, now);
    SessionPullCurrent(rows, d, geometry, now);
  }

  /** After an interruption between the sync and the eviction they do not: every row cached before is
      stale, the command line's next pull of the same version keeps it, a session's drops it. */
  lemma InterruptedPullsDiffer(rows: Rows, id: Id, d: Fetched, geometry: bool, now: nat, later: nat)
    requires Storable(d) && CachesCurrent(rows) && id in rows && id.ProxyCacheId?
    requires Version(rows) != Some(d.f.file.version)
    ensures var cut := AfterSync(rows, d, now);
      && !CachesCurrent(cut)
      && id in CliPulled(cut, d, geometry, later)
      && id !in SessionPulled(cut, d, geometry, later)
  {
    hide AfterSync, Storable;
    var cut := AfterSync(rows, d, now);
    SyncKeepsCaches(rows, d, now, id);
    SyncKeepsCaches(cut, d, later, id);
  }

  /** Once on, the geometry setting stays on under every pull of either kind. */
  lemma GeometrySticks(rows: Rows, d: Fetched, geometry: bool, now: nat)
    requires Storable(d)
    ensures ReadGeometry(SessionPulled(rows, d, geometry, now)) == (geometry || ReadGeometry(rows))
    ensures ReadGeometry(CliPulled(rows, d, geometry, now)) == (geometry || ReadGeometry(rows))
  {
    hide AfterSync, Storable;
    SyncKeepsCaches(rows, d, now, MirrorConfigId);
    var synced := AfterSync(rows, d, now);
    assert Lookup(AfterEvict(synced, d.f.file.version), MirrorConfigId) == Lookup(synced, MirrorConfigId);
  }
}
