/** The sync transaction: upsert every flattened record and the meta row, then remove the previously
    stored ids that vanished; and the count of what it did. */
module Sync {
  import opened Basics
  import opened Model
  import opened Store
  import opened Flatten

  datatype Churn = Churn(added: nat, changed: nat, removed: nat, same: nat)

  function MetaOf(file: FileInfo, now: nat): Rec {
    Meta(FileMeta(file.name, file.version, file.lastModified, now))
  }

  function Live(recs: seq<Entry>): set<Id> {
    set e | e in recs :: e.id
  }

  function Upserted(rows: Rows, recs: seq<Entry>): Rows {
    if recs == [] then rows
    else Upserted(rows, recs[..|recs| - 1])[recs[|recs| - 1].id := recs[|recs| - 1].rec]
  }

  /** The store after a sync. */
  function Synced(rows: Rows, prior: set<Id>, f: Flattened, now: nat): Rows {
    Upserted(rows, f.recs)[MetaId := MetaOf(f.file, now)] - (prior - Live(f.recs))
  }

  function Tally(rows: Rows, recs: seq<Entry>): Churn {
    if recs == [] then Churn(0, 0, 0, 0)
    else
      var c := Tally(rows, recs[..|recs| - 1]);
      var last := recs[|recs| - 1];
      match Lookup(Upserted(rows, recs[..|recs| - 1]), last.id)
      case None => c.(added := c.added + 1)
      case Some(old') => if old' == last.rec then c.(same := c.same + 1) else c.(changed := c.changed + 1)
  }

  /** The rows the sweep finds to remove. */
  function Swept(rows: Rows, prior: set<Id>, f: Flattened): set<Id> {
    (prior - Live(f.recs)) * (Upserted(rows, f.recs).Keys + {MetaId})
  }

  function ChurnOf(rows: Rows, prior: set<Id>, f: Flattened): Churn {
    Tally(rows, f.recs).(removed := |Swept(rows, prior, f)|)
  }

  function MetaPushes(rows: Rows, f: Flattened, now: nat): nat {
    Pushes(Upserted(rows, f.recs), Op.Upsert(MetaId, MetaOf(f.file, now)))
  }

  method UpsertAll(st: KeyedStream, recs: seq<Entry>) returns (churn: Churn)
    requires st.Valid() && forall e <- recs :: Matches(e.id, e.rec)
    modifies st
    ensures st.Valid() && st.rows == Upserted(old(st.rows), recs)
    ensures churn == Tally(old(st.rows), recs)
    ensures st.pushed == old(st.pushed) + churn.added + 2 * churn.changed
  {
    hide Rebuilt, TablesAfterOp, Matches;
    churn := Churn(0, 0, 0, 0);
    for i := 0 to |recs|
      invariant st.Valid() && st.rows == Upserted(old(st.rows), recs[..i])
      invariant churn == Tally(old(st.rows), recs[..i])
      invariant st.pushed == old(st.pushed) + churn.added + 2 * churn.changed
    {
      assert recs[..i + 1][..i] == recs[..i];
      var prior := st.Upsert(recs[i].id, recs[i].rec);
      match prior {
        case None => churn := churn.(added := churn.added + 1);
        case Some(rec) =>
          if rec == recs[i].rec {
            churn := churn.(same := churn.same + 1);
          } else {
            churn := churn.(changed := churn.changed + 1);
          }
      }
    }
    assert recs[..|recs|] == recs;
  }

  lemma OneMore(done: set<Id>, id: Id, keys: set<Id>)
    requires id !in done
    ensures |(done + {id}) * keys| == |done * keys| + if id in keys then 1 else 0
  {
    assert (done + {id}) * keys == if id in keys then done * keys + {id} else done * keys;
  }

  method RemoveAll(st: KeyedStream, ids: set<Id>) returns (removed: nat)
    requires st.Valid()
    modifies st
    ensures st.Valid() && st.rows == old(st.rows) - ids
    ensures removed == |ids * old(st.rows).Keys|
    ensures st.pushed == old(st.pushed) + removed
  {
    hide Rebuilt, TablesAfterOp;
    removed := 0;
    var todo := ids;
    ghost var done: set<Id> := {};
    while todo != {}
      invariant st.Valid() && done + todo == ids && done !! todo
      invariant st.rows == old(st.rows) - done
      invariant removed == |done * old(st.rows).Keys| && st.pushed == old(st.pushed) + removed
      decreases todo
    {
      var id :| id in todo;
      todo := todo - {id};
      var gone := st.Remove(id);
      OneMore(done, id, old(st.rows).Keys);
      if gone.Some? {
        removed := removed + 1;
      }
      done := done + {id};
    }
  }

  method SyncFile(st: KeyedStream, prior: set<Id>, f: Flattened, now: nat) returns (churn: Churn)
    requires st.Valid() && forall e <- f.recs :: Matches(e.id, e.rec)
    modifies st
    ensures st.Valid() && st.rows == Synced(old(st.rows), prior, f, now)
    ensures churn == ChurnOf(old(st.rows), prior, f)
    ensures st.pushed == old(st.pushed) + churn.added + 2 * churn.changed + churn.removed
                         + MetaPushes(old(st.rows), f, now)
  {
    hide Rebuilt, TablesAfterOp, Upserted, Tally;
    var live := Live(f.recs);
    churn := UpsertAll(st, f.recs);
    ghost var up := st.rows;
    var _ := st.Upsert(MetaId, MetaOf(f.file, now));
    assert st.rows.Keys == up.Keys + {MetaId};
    var removed := RemoveAll(st, prior - live);
    churn := churn.(removed := removed);
  }

  // ---- conservation ----

  lemma LiveOfLast(recs: seq<Entry>)
    requires recs != []
    ensures Live(recs) == Live(recs[..|recs| - 1]) + {recs[|recs| - 1].id}
  {
    assert recs == recs[..|recs| - 1] + [recs[|recs| - 1]];
  }

  lemma {:induction false} UpsertedKeys(rows: Rows, recs: seq<Entry>)
    ensures Upserted(rows, recs).Keys == rows.Keys + Live(recs)
  {
    if recs != [] {
      UpsertedKeys(rows, recs[..|recs| - 1]);
      LiveOfLast(recs);
    }
  }

  lemma {:induction false} TallyCounts(rows: Rows, recs: seq<Entry>)
    ensures var c := Tally(rows, recs); c.added + c.changed + c.same == |recs|
    ensures |Upserted(rows, recs).Keys| == |rows.Keys| + Tally(rows, recs).added
  {
    if recs != [] {
      var front, last := recs[..|recs| - 1], recs[|recs| - 1];
      TallyCounts(rows, front);
      var before := Upserted(rows, front);
      assert Upserted(rows, recs).Keys == before.Keys + {last.id};
    }
  }

  /** Every record is counted once, and the stored rows grow by what was added less what was removed,
      and by the meta row when a first sync adds it uncounted. */
  lemma ChurnConserved(rows: Rows, prior: set<Id>, f: Flattened, now: nat)
    ensures var c := ChurnOf(rows, prior, f); c.added + c.changed + c.same == |f.recs|
    ensures |Synced(rows, prior, f, now)| + ChurnOf(rows, prior, f).removed ==
      |rows| + ChurnOf(rows, prior, f).added + if MetaId in rows || MetaId in Live(f.recs) then 0 else 1
  {
    hide Upserted, Tally;
    TallyCounts(rows, f.recs);
    UpsertedKeys(rows, f.recs);
    var up := Upserted(rows, f.recs);
    var full := up[MetaId := MetaOf(f.file, now)];
    assert full.Keys == up.Keys + {MetaId};
    var swept := Swept(rows, prior, f);
    assert Synced(rows, prior, f, now).Keys == full.Keys - swept;
    assert |Synced(rows, prior, f, now).Keys| == |full.Keys| - |swept|;
  }

  // ---- exactness ----

  /** The ids the four swept tables hold: the node table's, and the rows of the other three. */
  function CollectSweepable(nodes: Nodes, rows: Rows): set<Id> {
    (set k | k in nodes :: NodeId(k)) + (set id | id in rows && Sweepable(id) && !id.NodeId?)
  }

  function CollectVariableIds(rows: Rows): set<Id> {
    set id | id in rows && VariableKind(id)
  }

  lemma SweepableIds(t: Tables, rows: Rows)
    requires Rebuilt(t, rows)
    ensures CollectSweepable(t.nodes, rows) == set id | id in rows && Sweepable(id)
  {
    forall id ensures id in CollectSweepable(t.nodes, rows) <==> id in rows && Sweepable(id) {
      if id.NodeId? {
        assert id in rows <==> id.id in NodeTable(rows);
      }
    }
  }

  lemma {:induction false} UpsertedLookup(rows: Rows, recs: seq<Entry>, k: nat)
    requires DistinctEntries(recs) && k < |recs|
    ensures Lookup(Upserted(rows, recs), recs[k].id) == Some(recs[k].rec)
  {
    if k < |recs| - 1 {
      UpsertedLookup(rows, recs[..|recs| - 1], k);
    }
  }

  lemma {:induction false} UpsertedElsewhere(rows: Rows, recs: seq<Entry>, id: Id)
    requires id !in Live(recs)
    ensures Lookup(Upserted(rows, recs), id) == Lookup(rows, id)
  {
    if recs != [] {
      LiveOfLast(recs);
      UpsertedElsewhere(rows, recs[..|recs| - 1], id);
    }
  }

  /** Whatever was stored, an upserted id reads back as the records alone have it: the last one wins. */
  lemma {:induction false} UpsertedOver(rows: Rows, recs: seq<Entry>, id: Id)
    requires id in Live(recs)
    ensures Lookup(Upserted(rows, recs), id) == Lookup(AsRows(recs), id)
  {
    var front, last := recs[..|recs| - 1], recs[|recs| - 1];
    LiveOfLast(recs);
    if id != last.id {
      UpsertedOver(rows, front, id);
    }
  }

  /** What is stored under `id` after a sync. */
  lemma SyncedLookup(rows: Rows, prior: set<Id>, f: Flattened, now: nat, id: Id)
    requires MetaId !in Live(f.recs)
    ensures id in Live(f.recs) ==> Lookup(Synced(rows, prior, f, now), id) == Lookup(AsRows(f.recs), id)
    ensures id !in Live(f.recs) && id != MetaId ==>
      Lookup(Synced(rows, prior, f, now), id) == (if id in prior then None else Lookup(rows, id))
    ensures id in AsRows(f.recs) <==> id in Live(f.recs)
  {
    hide Upserted;
    UpsertedKeys(map[], f.recs);
    if id in Live(f.recs) {
      UpsertedOver(rows, f.recs, id);
    } else {
      UpsertedElsewhere(rows, f.recs, id);
    }
  }

  /** The rows of the kinds a sweep covers. */
  ghost function Part(rows: Rows, kinds: Id -> bool): Rows {
    map id | id in rows && kinds(id) :: rows[id]
  }

  /** The records as rows. */
  ghost function AsRows(recs: seq<Entry>): Rows {
    Upserted(map[], recs)
  }

  /** After a sync that sweeps every stored id of the swept kinds, the rows of those kinds are exactly
      the flattened records of those kinds, whatever was stored before. Rows of every other kind,
      the meta row apart, are those stored before with the flattened ones on top. */
  lemma SyncExact(rows: Rows, prior: set<Id>, f: Flattened, now: nat, kinds: Id -> bool)
    requires !kinds(MetaId) && MetaId !in Live(f.recs)
    requires prior == set id | id in rows && kinds(id)
    ensures Part(Synced(rows, prior, f, now), kinds) == Part(AsRows(f.recs), kinds)
    ensures forall id :: !kinds(id) && id != MetaId && id !in Live(f.recs) ==>
      Lookup(Synced(rows, prior, f, now), id) == Lookup(rows, id)
    ensures Lookup(Synced(rows, prior, f, now), MetaId) == Some(MetaOf(f.file, now))
  {
    hide Synced, AsRows, Live;
    var after := Synced(rows, prior, f, now);
    forall id { SyncedLookup(rows, prior, f, now, id); }
    MetaStays(rows, prior, f, now, kinds);
    var a, b := Part(after, kinds), Part(AsRows(f.recs), kinds);
    forall id ensures id in a <==> id in b
              ensures id in a ==> a[id] == b[id]
    {
      SyncedLookup(rows, prior, f, now, id);
    }
    assert a == b;
  }

  lemma MetaStays(rows: Rows, prior: set<Id>, f: Flattened, now: nat, kinds: Id -> bool)
    requires !kinds(MetaId) && prior == set id | id in rows && kinds(id)
    ensures Lookup(Synced(rows, prior, f, now), MetaId) == Some(MetaOf(f.file, now))
  {
  }

  // ---- idempotence ----

  /** Syncing the same records again adds, changes and removes nothing, and pushes at most the meta
      row: nothing at all when the clock reads the same. */
  lemma ResyncIsNoop(rows: Rows, prior: set<Id>, f: Flattened, now: nat, later: nat, kinds: Id -> bool)
    requires DistinctEntries(f.recs) && !kinds(MetaId) && MetaId !in Live(f.recs)
    requires forall e <- f.recs :: kinds(e.id)
    requires prior == set id | id in rows && kinds(id)
    ensures var first := Synced(rows, prior, f, now);
      var again := set id | id in first && kinds(id);
      && ChurnOf(first, again, f) == Churn(0, 0, 0, |f.recs|)
      && Synced(first, again, f, later) == first[MetaId := MetaOf(f.file, later)]
      && MetaPushes(first, f, later) == (if later == now then 0 else 2)
  {
    hide *;
    var first := Synced(rows, prior, f, now);
    var again := set id | id in first && kinds(id);
    MetaStays(rows, prior, f, now, kinds);
    StoredAlready(rows, prior, f, now);
    NothingElse(rows, prior, f, now, kinds);
    NothingToDo(first, again, f, now, later);
  }

  lemma StoredAlready(rows: Rows, prior: set<Id>, f: Flattened, now: nat)
    requires DistinctEntries(f.recs) && MetaId !in Live(f.recs)
    ensures forall e <- f.recs :: Lookup(Synced(rows, prior, f, now), e.id) == Some(e.rec)
  {
    hide Upserted, DistinctEntries, Synced;
    forall e | e in f.recs ensures Lookup(Synced(rows, prior, f, now), e.id) == Some(e.rec) {
      var k :| 0 <= k < |f.recs| && f.recs[k] == e;
      SyncedLookup(rows, prior, f, now, e.id);
      UpsertedLookup(map[], f.recs, k);
    }
  }

  lemma NothingElse(rows: Rows, prior: set<Id>, f: Flattened, now: nat, kinds: Id -> bool)
    requires !kinds(MetaId) && MetaId !in Live(f.recs)
    requires prior == set id | id in rows && kinds(id)
    ensures (set id | id in Synced(rows, prior, f, now) && kinds(id)) - Live(f.recs) == {}
  {
    hide Upserted, Synced;
    forall id | id in Synced(rows, prior, f, now) && kinds(id) ensures id in Live(f.recs) {
      SyncedLookup(rows, prior, f, now, id);
    }
  }

  /** Records stored already, and nothing to sweep. */
  lemma NothingToDo(rows: Rows, prior: set<Id>, f: Flattened, now: nat, later: nat)
    requires forall e <- f.recs :: Lookup(rows, e.id) == Some(e.rec)
    requires prior - Live(f.recs) == {} && Lookup(rows, MetaId) == Some(MetaOf(f.file, now))
    ensures ChurnOf(rows, prior, f) == Churn(0, 0, 0, |f.recs|)
    ensures Synced(rows, prior, f, later) == rows[MetaId := MetaOf(f.file, later)]
    ensures MetaPushes(rows, f, later) == if later == now then 0 else 2
  {
    hide Upserted, Tally;
    UpsertPresent(rows, f.recs);
  }

  lemma {:induction false} UpsertPresent(rows: Rows, recs: seq<Entry>)
    requires forall e <- recs :: Lookup(rows, e.id) == Some(e.rec)
    ensures Upserted(rows, recs) == rows && Tally(rows, recs) == Churn(0, 0, 0, |recs|)
  {
    if recs != [] {
      UpsertPresent(rows, recs[..|recs| - 1]);
    }
  }
}
