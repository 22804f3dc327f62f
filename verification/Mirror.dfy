/** The mirror end to end: over any run of pulls, interruptions and writes of other rows, the store
    answers as the document last pulled would. */
module Mirror {
  import opened Basics
  import opened Json
  import opened Model
  import opened Store
  import opened Flatten
  import opened WalkShape
  import opened Sync
  import opened Pulls
  import opened Subtree
  import opened Restore
  import opened Answers
  import opened Scopes

  // ---- runs ----

  /** What can happen to the store of a mirror. A pull may be cut short after its sync transaction;
      everything else writes a row no sweep covers. */
  datatype Event =
    | ByCli(reply: Reply, startOver: bool, geometry: bool, now: nat)
    | BySession(reply: Reply, geometry: bool, now: nat)
    | CutShort(reply: Reply, startOver: bool, now: nat)
    | Written(op: Op)

  function After(rows: Rows, e: Event): Rows {
    match e
    case ByCli(reply, startOver, geometry, now) =>
      var start := Started(rows, reply, startOver);
      if Prepared(reply).Ok? then CliPulled(start, Prepared(reply).value, geometry, now) else start
    case BySession(reply, geometry, now) =>
      if Prepared(reply).Ok? then SessionPulled(rows, Prepared(reply).value, geometry, now) else rows
    case CutShort(reply, startOver, now) =>
      var start := Started(rows, reply, startOver);
      if Prepared(reply).Ok? then AfterSync(start, Prepared(reply).value, now) else start
    case Written(op) => AfterOp(rows, op)
  }

  /** A fresh pull starts on an empty store once it has a reply. */
  function Started(rows: Rows, reply: Reply, startOver: bool): Rows {
    if startOver && reply.Ok? then map[] else rows
  }

  function Run(rows: Rows, events: seq<Event>): Rows {
    if events == [] then rows else After(Run(rows, events[..|events| - 1]), events[|events| - 1])
  }

  /** The response the store mirrors: that of the last pull that got as far as its sync, unless a
      fresh start wiped it since. */
  function Current(events: seq<Event>): Option<Value> {
    if events == [] then None
    else CurrentAfter(Current(events[..|events| - 1]), events[|events| - 1])
  }

  function CurrentAfter(before: Option<Value>, e: Event): Option<Value> {
    if e.Written? then before
    else if Prepared(e.reply).Ok? then Some(e.reply.value.0)
    else if !e.BySession? && e.startOver && e.reply.Ok? then None
    else before
  }

  /** Responses are JSON documents; a variables export holds variables and collections; and what else
      is written is neither swept nor the meta row. */
  ghost predicate Sound(e: Event) {
    match e
    case Written(op) => OpMatches(op) && !Sweepable(op.id) && op.id != MetaId
    case _ => e.reply.Ok? ==>
      && e.reply.value.0.WellFormed()
      && (e.reply.value.1.Some? && e.reply.value.1.value.Ok? ==>
            forall v <- e.reply.value.1.value.value :: Matches(v.id, v.rec) && VariableKind(v.id))
  }

  function DocumentOf(resp: Value): Value {
    GetOr(resp.Get("document"), Null)
  }

  function WalkOf(resp: Value): seq<NodeRec> {
    WalkNode(DocumentOf(resp), None, 0, None)
  }

  /** The swept rows are exactly the response's records, and the meta row describes it. */
  ghost predicate Mirrors(rows: Rows, resp: Value) {
    && FlattenedFile(resp).Ok?
    && (forall id :: Sweepable(id) ==> Lookup(rows, id) == Lookup(AsRows(FlattenedFile(resp).value.recs), id))
    && StoredMeta(rows).Some?
    && var (file, meta) := (FlattenedFile(resp).value.file, StoredMeta(rows).value);
      meta.name == file.name && meta.version == file.version && meta.lastModified == file.lastModified
  }

  // ---- one pull ----

  lemma {:induction false} UpsertedAppend(rows: Rows, a: seq<Entry>, b: seq<Entry>)
    ensures Upserted(rows, a + b) == Upserted(Upserted(rows, a), b)
  {
    if b == [] {
      assert a + b == a;
    } else {
      UpsertedAppend(rows, a, b[..|b| - 1]);
      assert (a + b)[..|a + b| - 1] == a + b[..|b| - 1];
    }
  }

  lemma FlattenedRecords(resp: Value)
    requires FlattenedFile(resp).Ok?
    ensures FlattenedFile(resp).value.recs == Records(resp, DocumentOf(resp))
  {
    hide Records, StrField;
  }

  lemma PreparedParts(reply: Reply)
    requires Prepared(reply).Ok?
    ensures reply.Ok? && FlattenedFile(reply.value.0).Ok?
    ensures Prepared(reply).value.f == FlattenedFile(reply.value.0).value
    ensures Prepared(reply).value.vars.Some? ==>
      reply.value.1.Some? && reply.value.1.value == Ok(Prepared(reply).value.vars.value)
  {
    hide FlattenedFile;
  }

  lemma PreparedStorable(reply: Reply)
    requires Prepared(reply).Ok? && Sound(BySession(reply, false, 0))
    ensures Storable(Prepared(reply).value)
  {
    hide Records, WalkNode, DistinctNodes, DistinctEntries, Matches, Sweepable, FlattenedFile, Prepared;
    PreparedParts(reply);
    FlattenedRecords(reply.value.0);
    RecordsKeyed(reply.value.0, DocumentOf(reply.value.0));
  }

  /** A sync stores exactly the flattened records, whatever was stored under swept ids before. */
  lemma PulledLookup(rows: Rows, d: Fetched, now: nat, id: Id)
    requires Storable(d) && Sweepable(id)
    ensures Lookup(AfterSync(rows, d, now), id) == Lookup(AsRows(d.f.recs), id)
  {
    var vars := if d.vars.Some? then d.vars.value else [];
    assert Combined(d).recs == d.f.recs + vars;
    hide Upserted, AsRows;
    LiveOfAppend(d.f.recs, vars, id);
    UpsertedAppend(rows, d.f.recs, vars);
    UpsertedElsewhere(Upserted(rows, d.f.recs), vars, id);
    if id in Live(d.f.recs) {
      UpsertedOver(rows, d.f.recs, id);
    } else {
      UpsertedElsewhere(rows, d.f.recs, id);
      NotRecorded(d.f.recs, id);
    }
  }

  lemma NotRecorded(recs: seq<Entry>, id: Id)
    ensures id in AsRows(recs) <==> id in Live(recs)
  {
    UpsertedKeys(map[], recs);
  }

  lemma LiveOfAppend(a: seq<Entry>, b: seq<Entry>, id: Id)
    requires forall e <- b :: e.id != id
    ensures id !in Live(b) && (id in Live(a + b) <==> id in Live(a))
  {
    forall e ensures e in a + b <==> e in a || e in b { }
  }

  /** What follows the sync leaves the swept rows and the meta row alone. */
  lemma PullTail(rows: Rows, d: Fetched, geometry: bool, now: nat, id: Id)
    requires Sweepable(id) || id == MetaId
    ensures Lookup(SessionPulled(rows, d, geometry, now), id) == Lookup(AfterSync(rows, d, now), id)
    ensures Lookup(CliPulled(rows, d, geometry, now), id) == Lookup(AfterSync(rows, d, now), id)
  {
    hide AfterSync;
  }

  lemma PulledMeta(rows: Rows, d: Fetched, now: nat)
    requires Storable(d)
    ensures Lookup(AfterSync(rows, d, now), MetaId) == Some(MetaOf(d.f.file, now))
  {
    hide Upserted;
    assert MetaId !in Prior(rows, d);
  }

  /** The store a pull's sync starts on. */
  function StartOf(rows: Rows, e: Event): Rows
    requires !e.Written?
  {
    if e.BySession? then rows else Started(rows, e.reply, e.startOver)
  }

  lemma AfterPull(rows: Rows, e: Event, id: Id)
    requires !e.Written? && Prepared(e.reply).Ok? && (Sweepable(id) || id == MetaId)
    ensures Lookup(After(rows, e), id) == Lookup(AfterSync(StartOf(rows, e), Prepared(e.reply).value, e.now), id)
  {
    hide AfterSync, SessionPulled, CliPulled, Prepared;
    if !e.CutShort? {
      PullTail(StartOf(rows, e), Prepared(e.reply).value, e.geometry, e.now, id);
    }
  }

  lemma SoundReply(e: Event)
    requires Sound(e) && !e.Written?
    ensures Sound(BySession(e.reply, false, 0))
  {
  }

  lemma PullMirrors(rows: Rows, e: Event)
    requires Sound(e) && !e.Written? && Prepared(e.reply).Ok? && e.reply.Ok?
    ensures Mirrors(After(rows, e), e.reply.value.0)
  {
    hide *;
    SoundReply(e);
    PreparedParts(e.reply);
    PreparedStorable(e.reply);
    var d, start := Prepared(e.reply).value, StartOf(rows, e);
    forall id | Sweepable(id) ensures Lookup(After(rows, e), id) == Lookup(AsRows(d.f.recs), id) {
      PulledLookup(start, d, e.now, id);
      AfterPull(rows, e, id);
    }
    PulledMeta(start, d, e.now);
    AfterPull(rows, e, MetaId);
    MirrorsIf(After(rows, e), e.reply.value.0, e.now);
  }

  lemma MirrorsIf(rows: Rows, resp: Value, now: nat)
    requires FlattenedFile(resp).Ok?
    requires forall id :: Sweepable(id) ==> Lookup(rows, id) == Lookup(AsRows(FlattenedFile(resp).value.recs), id)
    requires Lookup(rows, MetaId) == Some(MetaOf(FlattenedFile(resp).value.file, now))
    ensures Mirrors(rows, resp)
  {
    hide FlattenedFile, AsRows, Sweepable;
  }

  // ---- any run ----

  /** After any run whatever, from any store whatever, the store mirrors the last pulled document. */
  lemma {:induction false} RunMirrors(rows: Rows, events: seq<Event>)
    requires forall e <- events :: Sound(e)
    requires Current(events).Some?
    ensures Current(events).value.WellFormed()
    ensures Mirrors(Run(rows, events), Current(events).value)
  {
    hide Mirrors, Prepared, AfterSync;
    var front, e := events[..|events| - 1], events[|events| - 1];
    if !e.Written? && Prepared(e.reply).Ok? {
      PreparedParts(e.reply);
      PullMirrors(Run(rows, front), e);
    } else {
      RunMirrors(rows, front);
      Untouched(Run(rows, front), e, Current(events).value);
    }
  }

  lemma Untouched(rows: Rows, e: Event, resp: Value)
    requires Sound(e) && Mirrors(rows, resp)
    requires e.Written? || (Prepared(e.reply).Err? && (e.BySession? || !e.startOver || e.reply.Err?))
    ensures Mirrors(After(rows, e), resp)
  {
    hide Prepared, FlattenedFile, AsRows;
  }

  // ---- the tables of a mirroring store ----

  lemma NodeRecords(resp: Value, document: Value, e: Entry)
    requires e.id.NodeId?
    ensures e in Records(resp, document) <==> exists r <- WalkNode(document, None, 0, None) :: e == NodeEntry(r)
  {
    hide WalkNode, Records, NodeEntry;
    OnlyNodes(resp, document, e);
    var walk := WalkNode(document, None, 0, None);
    if e in Records(resp, document) {
      var k :| 0 <= k < |walk| && Entries(walk)[k] == e;
      assert walk[k] in walk;
    }
    if r :| r in walk && e == NodeEntry(r) {
      var k :| 0 <= k < |walk| && walk[k] == r;
      assert Entries(walk)[k] == e;
    }
  }

  lemma OnlyNodes(resp: Value, document: Value, e: Entry)
    requires e.id.NodeId?
    ensures e in Records(resp, document) <==> e in Entries(WalkNode(document, None, 0, None))
  {
    hide WalkNode, FieldsOf, Entries;
  }

  lemma MirroredLookup(rows: Rows, resp: Value, id: Id)
    requires Mirrors(rows, resp) && Sweepable(id)
    ensures Lookup(rows, id) == Lookup(AsRows(Records(resp, DocumentOf(resp))), id)
  {
    hide Records, AsRows, FlattenedFile;
    FlattenedRecords(resp);
  }

  lemma MirroredNode(rows: Rows, resp: Value, id: string)
    requires resp.WellFormed() && Mirrors(rows, resp) && DistinctNodes(WalkOf(resp))
    ensures NodeId(id) in rows <==> id in Ids(WalkOf(resp))
    ensures forall r <- WalkOf(resp) :: r.id == id ==> NodeId(id) in rows && rows[NodeId(id)] == Node(r)
  {
    hide Records, WalkNode, DistinctNodes, DistinctEntries, Mirrors, FlattenedFile, AsRows, DocumentOf;
    var recs := Records(resp, DocumentOf(resp));
    RecordsKeyed(resp, DocumentOf(resp));
    MirroredLookup(rows, resp, NodeId(id));
    NotRecorded(recs, NodeId(id));
    if NodeId(id) in rows {
      var e :| e in recs && e.id == NodeId(id);
      NodeRecords(resp, DocumentOf(resp), e);
    }
    forall r | r in WalkOf(resp) && r.id == id ensures NodeId(id) in rows && rows[NodeId(id)] == Node(r) {
      NodeRecords(resp, DocumentOf(resp), NodeEntry(r));
      RecordStored(recs, NodeEntry(r));
    }
  }

  lemma RecordStored(recs: seq<Entry>, e: Entry)
    requires DistinctEntries(recs) && e in recs
    ensures Lookup(AsRows(recs), e.id) == Some(e.rec)
  {
    var k :| 0 <= k < |recs| && recs[k] == e;
    UpsertedLookup(map[], recs, k);
  }

  /** A valid store that mirrors a response holds the walk of its document. */
  lemma MirrorHolds(t: Tables, rows: Rows, resp: Value)
    requires resp.WellFormed() && Mirrors(rows, resp) && DistinctNodes(WalkOf(resp)) && Rebuilt(t, rows)
    ensures Holds(t, WalkOf(resp)) && Ranked(t, RankBy(WalkOf(resp)))
  {
    hide Mirrors, DistinctNodes, WalkOf, Indexed;
    var walk := WalkOf(resp);
    forall id ensures id in t.nodes <==> id in Ids(walk) {
      MirroredNode(rows, resp, id);
      assert id in t.nodes <==> NodeId(id) in rows;
    }
    forall r | r in walk ensures r.id in t.nodes && t.nodes[r.id] == r {
      MirroredNode(rows, resp, r.id);
    }
    assert t.nodes.Keys == Ids(walk);
    WalkTop(resp);
    WalkRanked(t, walk);
  }

  lemma WalkTop(resp: Value)
    ensures ParentsFirst(WalkOf(resp), None) && WalkOf(resp) == Top(DocumentOf(resp)).Segment()
  {
    WalkParentsFirst(DocumentOf(resp), None, 0, None);
  }

  // ---- the answers ----

  /** After any run, the full dump of the root is the last pulled document, with the children arrays it
      lacked put in empty and its nodes without ids dropped: the very document when it lacked none. */
  lemma DumpIsLastDocument(rows: Rows, events: seq<Event>, t: Tables, root: string)
    requires (forall e <- events :: Sound(e)) && Current(events).Some?
    requires var document := DocumentOf(Current(events).value);
      DistinctNodes(WalkOf(Current(events).value)) && Countable(document) && IdOf(document) == Some(root)
    requires Rebuilt(t, Run(rows, events))
    ensures var document := DocumentOf(Current(events).value);
      && Ends(t, root, None, RankBy(WalkOf(Current(events).value)))
      && DumpOf(t, root, None, PLAIN, RankBy(WalkOf(Current(events).value))) == Ok(Restored(document))
      && (Restored(document) == document <==> Complete(document))
  {
    var resp := Current(events).value;
    var document := DocumentOf(resp);
    hide *;
    RunMirrors(rows, events);
    MirrorHolds(t, Run(rows, events), resp);
    RootLocated(document, root);
    AnswersAt(t, resp, [], root, None, PLAIN);
    FullDump(document);
    DocumentWellFormed(resp);
    RestoredIsDocument(document);
  }

  lemma RootLocated(document: Value, root: string)
    requires IdOf(document) == Some(root)
    ensures Locate(Top(document), []) == Some(Top(document))
    ensures Top(document).HasId() && Top(document).Id() == root && Top(document).node == document
  {
  }

  lemma FullDump(node: Value)
    ensures Restored(node) == Shown(node, None, ShowWith(PLAIN))
  {
  }

  lemma DocumentWellFormed(resp: Value)
    requires resp.WellFormed()
    ensures DocumentOf(resp).WellFormed()
  {
  }

  /** So is the dump of any node of that document, to any depth and under any projection. */
  lemma AnswersAt(t: Tables, resp: Value, steps: seq<nat>, id: string, depth: Option<nat>, shape: Shape)
    requires Holds(t, WalkOf(resp)) && Ranked(t, RankBy(WalkOf(resp))) && Countable(DocumentOf(resp))
    requires Locate(Top(DocumentOf(resp)), steps).Some? && Locate(Top(DocumentOf(resp)), steps).value.Id() == id
    ensures id in t.nodes && t.nodes[id].id == id && Ends(t, id, depth, RankBy(WalkOf(resp)))
    ensures DumpOf(t, id, depth, shape, RankBy(WalkOf(resp))) ==
      Ok(Shown(Locate(Top(DocumentOf(resp)), steps).value.node, depth, ShowWith(shape)))
  {
    hide *;
    var top := Top(DocumentOf(resp));
    LocatedTop(DocumentOf(resp), steps);
    WalkTop(resp);
    TopSettled(t, DocumentOf(resp));
    LocatedSettled(t, top, steps);
    LocatedCountable(top, steps);
    LocatedRanked(t, resp, steps);
    DumpShows(t, Locate(top, steps).value, depth, shape, RankBy(WalkOf(resp)));
  }

  lemma LocatedRanked(t: Tables, resp: Value, steps: seq<nat>)
    requires Holds(t, WalkOf(resp)) && Ranked(t, RankBy(WalkOf(resp)))
    requires Locate(Top(DocumentOf(resp)), steps).Some? && Settled(t, Locate(Top(DocumentOf(resp)), steps).value)
    ensures var id := Locate(Top(DocumentOf(resp)), steps).value.Id();
      id in t.nodes && t.nodes[id].id == id && forall depth :: Ends(t, id, depth, RankBy(WalkOf(resp)))
  {
    var at := Locate(Top(DocumentOf(resp)), steps).value;
    InSegment(t, at, at.Id());
    RecordId(at);
    hide Ranked, NodeRecord, Settled, WalkOf;
    assert t.nodes.Keys == Ids(WalkOf(resp));
  }

  lemma {:induction false} LocatedCountable(at: Place, steps: seq<nat>)
    requires Countable(at.node) && Locate(at, steps).Some?
    ensures Countable(Locate(at, steps).value.node)
    decreases |steps|
  {
    if steps != [] {
      LocatedCountable(at.Child(steps[0]), steps[1..]);
    }
  }
}
