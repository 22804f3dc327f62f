/** Exactly when a mirror gives its document back: the full dump of the root ends and is the document if and
    only if the node ids are distinct and no children array is missing. */
module Exact {
  import opened Basics
  import opened Json
  import opened Model
  import opened Store
  import opened Flatten
  import opened WalkShape
  import opened Sync
  import opened Query
  import opened Subtree
  import opened Restore
  import opened Answers
  import opened Scopes
  import opened Cycles
  import opened Mirror

  // ---- the ids of a tree ----

  /** The ids of a nested value, in the order of a walk. */
  function TreeIds(v: Value): seq<string>
    decreases v, |KidsOf(v)| + 1
  {
    if IdOf(v).None? then [] else [IdOf(v).value] + KidIds(v, 0)
  }

  function KidIds(v: Value, i: nat): seq<string>
    decreases v, |KidsOf(v)| - i
  {
    if i >= |KidsOf(v)| then [] else TreeIds(KidsOf(v)[i]) + KidIds(v, i + 1)
  }

  function ListIds(vs: seq<Value>): seq<string> {
    if vs == [] then [] else TreeIds(vs[0]) + ListIds(vs[1..])
  }

  lemma {:induction false} KidIdsAre(v: Value, i: nat)
    requires i <= |KidsOf(v)|
    ensures KidIds(v, i) == ListIds(KidsOf(v)[i..])
    decreases |KidsOf(v)| - i
  {
    hide TreeIds, KidsOf;
    if i < |KidsOf(v)| {
      KidIdsAre(v, i + 1);
      assert KidsOf(v)[i..][0] == KidsOf(v)[i] && KidsOf(v)[i..][1..] == KidsOf(v)[i + 1..];
    }
  }

  /** The two lists name the same ids in the same order. */
  ghost predicate Names(recs: seq<NodeRec>, ids: seq<string>) {
    |recs| == |ids| && forall k :: 0 <= k < |ids| ==> recs[k].id == ids[k]
  }

  lemma NamesAppend(a: seq<NodeRec>, x: seq<string>, b: seq<NodeRec>, y: seq<string>)
    requires Names(a, x) && Names(b, y)
    ensures Names(a + b, x + y)
  {
  }

  lemma {:induction false} WalkNames(node: Value, parent: Option<string>, index: nat, page: Option<string>)
    ensures Names(WalkNode(node, parent, index, page), TreeIds(node))
    decreases node, |KidsOf(node)| + 1
  {
    hide NodeRecord, PageOf;
    if IdOf(node).Some? {
      var id := IdOf(node).value;
      var own := PageOf(node, id, page);
      RecordFields(node, id, parent, index, own);
      KidsName(node, 0, id, own);
      NamesAppend([NodeRecord(node, id, parent, index, own)], [id], WalkKids(node, 0, id, own), KidIds(node, 0));
    }
  }

  lemma {:induction false} KidsName(node: Value, i: nat, id: string, page: string)
    ensures Names(WalkKids(node, i, id, page), KidIds(node, i))
    decreases node, |KidsOf(node)| - i
  {
    hide Names;
    if i < |KidsOf(node)| {
      var kid := KidsOf(node)[i];
      WalkNames(kid, Some(id), i % U32, Some(page));
      KidsName(node, i + 1, id, page);
      NamesAppend(WalkNode(kid, Some(id), i % U32, Some(page)), TreeIds(kid),
                  WalkKids(node, i + 1, id, page), KidIds(node, i + 1));
    } else {
      NoNames();
    }
  }

  lemma NoNames()
    ensures Names([], [])
  {
  }

  /** A walk's records have distinct ids exactly when the tree's ids are distinct. */
  lemma WalkDistinct(document: Value)
    ensures DistinctNodes(WalkNode(document, None, 0, None)) <==> Distinct(TreeIds(document))
  {
    WalkNames(document, None, 0, None);
    hide WalkNode, TreeIds;
    var recs, ids := WalkNode(document, None, 0, None), TreeIds(document);
    if DistinctNodes(recs) {
      forall i, j | 0 <= i < j < |ids| ensures ids[i] != ids[j] {
        assert recs[i].id == ids[i] && recs[j].id == ids[j];
      }
    }
    if Distinct(ids) {
      forall i, j | 0 <= i < j < |recs| ensures recs[i].id != recs[j].id {
        assert recs[i].id == ids[i] && recs[j].id == ids[j];
      }
    }
  }

  lemma DistinctConcat(a: seq<string>, b: seq<string>)
    requires Distinct(a) && Distinct(b) && forall x <- a :: x !in b
    ensures Distinct(a + b)
  {
    var c := a + b;
    forall i, j | 0 <= i < j < |c| ensures c[i] != c[j] {
      if i < |a| <= j {
        assert a[i] in a && c[j] in b;
      }
    }
  }

  // ---- one parent each ----

  lemma TrailParent(t: Tables, xs: seq<string>)
    requires Indexed(t) && Trail(t.children, xs) && |xs| > 1
    ensures var y := xs[|xs| - 1];
      y in t.nodes && t.nodes[y].parentId == Some(xs[|xs| - 2]) && Trail(t.children, xs[..|xs| - 1])
  {
    hide Indexed;
    var n := |xs|;
    assert Edge(t.children, xs[n - 2], xs[n - 1]);
    EdgeIsParent(t, xs[n - 2], xs[n - 1]);
    TrailFront(t.children, xs, n - 1);
  }

  /** Of two ids above a third, one is above the other. */
  lemma {:induction false} OneAboveOther(t: Tables, xs: seq<string>, ys: seq<string>)
    requires Indexed(t) && Trail(t.children, xs) && Trail(t.children, ys) && xs[|xs| - 1] == ys[|ys| - 1]
    ensures Reachable(t.children, xs[0], ys[0]) || Reachable(t.children, ys[0], xs[0])
    decreases |xs|
  {
    hide Indexed;
    if |xs| == 1 {
      assert TrailTo(t.children, ys[0], xs[0], ys);
    } else if |ys| == 1 {
      assert TrailTo(t.children, xs[0], ys[0], xs);
    } else {
      TrailParent(t, xs);
      TrailParent(t, ys);
      OneAboveOther(t, xs[..|xs| - 1], ys[..|ys| - 1]);
    }
  }

  /** What reaches a child of `p` from elsewhere reaches `p`. */
  lemma ThroughParent(t: Tables, a: string, p: string, b: string)
    requires Indexed(t) && Reachable(t.children, a, b) && a != b && Edge(t.children, p, b)
    ensures Reachable(t.children, a, p)
  {
    hide Indexed;
    var xs :| TrailTo(t.children, a, b, xs);
    TrailParent(t, xs);
    EdgeIsParent(t, p, b);
    assert TrailTo(t.children, a, p, xs[..|xs| - 1]);
  }

  /** Below a ranked node the subtrees of two children have nothing in common. */
  lemma SiblingsApart(t: Tables, rank: map<string, nat>, p: string, a: string, b: string, y: string)
    requires Indexed(t) && Ranked(t, rank) && p in rank && Edge(t.children, p, a) && Edge(t.children, p, b) && a != b
    requires Reachable(t.children, a, y)
    ensures !Reachable(t.children, b, y)
  {
    if Reachable(t.children, b, y) {
      var xs :| TrailTo(t.children, a, y, xs);
      var ys :| TrailTo(t.children, b, y, ys);
      OneAboveOther(t, xs, ys);
      hide *;
      ReachableSelf(t.children, p);
      RankedHasNoCycle(t, rank, p, p);
      if Reachable(t.children, a, b) {
        ThroughParent(t, a, p, b);
        OnwardBy(t.children, p, a);
      } else {
        ThroughParent(t, b, p, a);
        OnwardBy(t.children, p, b);
      }
    }
  }

  lemma OnwardBy(children: set<ChildPosting>, p: string, c: string)
    requires Edge(children, p, c) && Reachable(children, c, p)
    ensures Onward(children, p, p)
  {
  }

  // ---- a dump that ends names every id once ----

  /** What a record's JSON says of it. */
  ghost predicate Readable(n: NodeRec) {
    n.raw.Object? && KeySorted(n.raw.fields) && IdOf(n.raw) == Some(n.id)
  }

  lemma DumpedParts(n: NodeRec, kids: seq<Value>)
    requires Readable(n)
    ensures var v := DumpWith(PLAIN)(n, kids); IdOf(v) == Some(n.id) && KidsOf(v) == kids
  {
    hide SetMember, Json.Find;
    FindSet(n.raw.fields, "children", Array(kids), "id");
    FindSet(n.raw.fields, "children", Array(kids), "children");
    assert "id" != "children";
  }

  /** The store's tables are indexed and every record is readable. */
  ghost predicate Sane(t: Tables) {
    Indexed(t) && forall id <- t.nodes :: Readable(t.nodes[id])
  }

  lemma EdgeOf(t: Tables, p: string, e: (nat, string))
    requires Indexed(t) && e in Under(t.children, p)
    ensures Edge(t.children, p, e.1) && e.1 in t.nodes && t.nodes[e.1].id == e.1 && e.0 == t.nodes[e.1].childIndex
  {
    assert (p, (e.0, e.1)) in t.children;
    EdgeIsParent(t, p, e.1);
    var x :| x in t.nodes && (p, e) in ChildSet(t.nodes[x]);
  }

  /** The edges lead to different children of `p`. */
  ghost predicate Fan(t: Tables, p: string, edges: seq<(nat, string)>) {
    && (forall e <- edges :: e in Under(t.children, p))
    && (forall i, j :: 0 <= i < j < |edges| ==> edges[i].1 != edges[j].1)
  }

  lemma SortedFan(t: Tables, p: string)
    requires Indexed(t)
    ensures Fan(t, p, SortedEdges(Under(t.children, p)))
  {
    hide StringLess, Under, Indexed;
    EdgeOrder();
    var edges := SortedEdges(Under(t.children, p));
    forall e | e in edges ensures e in Under(t.children, p) {
      assert e in Elements(edges);
    }
    forall i, j | 0 <= i < j < |edges| ensures edges[i].1 != edges[j].1 {
      assert EdgeLess(edges[i], edges[j]) && edges[i] in edges && edges[j] in edges;
      EdgeOf(t, p, edges[i]);
      EdgeOf(t, p, edges[j]);
    }
  }

  /** The dump of a stored record. */
  function DumpOfNode(t: Tables, id: string, ghost rank: map<string, nat>): Value
    requires id in t.nodes && Ends(t, t.nodes[id].id, None, rank)
  {
    Build(t, t.nodes[id], None, DumpWith(PLAIN), rank)
  }

  lemma {:induction false} DumpNamesOnce(t: Tables, id: string, rank: map<string, nat>)
    requires Sane(t) && id in t.nodes && t.nodes[id].id == id && Ends(t, id, None, rank)
    ensures Distinct(TreeIds(DumpOfNode(t, id, rank)))
    ensures forall y <- TreeIds(DumpOfNode(t, id, rank)) :: Reachable(t.children, id, y)
    decreases rank[id], 1, 0
  {
    var n, edges := t.nodes[id], SortedEdges(Under(t.children, id));
    SortedFan(t, id);
    BuildOpens(t, id, rank);
    var kids := BuildKids(t, n, edges, None, DumpWith(PLAIN), rank);
    DumpedParts(n, kids);
    KidsNameOnce(t, id, edges, rank);
    KidIdsAre(DumpOfNode(t, id, rank), 0);
    TreeOpens(DumpOfNode(t, id, rank));
    ReachableSelf(t.children, id);
    hide *;
    assert kids[0..] == kids;
    if id in ListIds(kids) {
      var e :| e in edges && Reachable(t.children, e.1, id);
      NotBelowItself(t, rank, id, edges, e);
    }
    DistinctConcat([id], ListIds(kids));
    forall y | y in ListIds(kids) ensures Reachable(t.children, id, y) {
      var e :| e in edges && Reachable(t.children, e.1, y);
      BelowEdge(t, id, edges, e, y);
    }
  }

  lemma BuildOpens(t: Tables, id: string, rank: map<string, nat>)
    requires id in t.nodes && t.nodes[id].id == id && Ends(t, id, None, rank)
    requires forall e <- SortedEdges(Under(t.children, id)) :: e in Under(t.children, id)
    ensures DumpOfNode(t, id, rank) ==
      DumpWith(PLAIN)(t.nodes[id], BuildKids(t, t.nodes[id], SortedEdges(Under(t.children, id)), None, DumpWith(PLAIN), rank))
  {
    hide SortedEdges, Dumped;
  }

  lemma TreeOpens(v: Value)
    requires IdOf(v).Some?
    ensures TreeIds(v) == [IdOf(v).value] + KidIds(v, 0)
  {
  }

  lemma NotBelowItself(t: Tables, rank: map<string, nat>, id: string, edges: seq<(nat, string)>, e: (nat, string))
    requires Indexed(t) && Fan(t, id, edges) && e in edges && Ranked(t, rank) && id in rank
    ensures !Reachable(t.children, e.1, id)
  {
    hide Indexed, Ranked, Reachable;
    EdgeOf(t, id, e);
    ReachableSelf(t.children, id);
    RankedHasNoCycle(t, rank, id, id);
    if Reachable(t.children, e.1, id) {
      OnwardBy(t.children, id, e.1);
    }
  }

  lemma BelowEdge(t: Tables, id: string, edges: seq<(nat, string)>, e: (nat, string), y: string)
    requires Indexed(t) && Fan(t, id, edges) && e in edges && Reachable(t.children, e.1, y)
    ensures Reachable(t.children, id, y)
  {
    hide Indexed, Reachable;
    EdgeOf(t, id, e);
    ReachableSelf(t.children, id);
    ReachableStep(t.children, id, id, e.1);
    ReachableTransitive(t.children, id, e.1, y);
  }

  lemma {:induction false} KidsNameOnce(t: Tables, id: string, edges: seq<(nat, string)>, rank: map<string, nat>)
    requires Sane(t) && id in t.nodes && t.nodes[id].id == id && Ends(t, id, None, rank) && Fan(t, id, edges)
    ensures var kids := BuildKids(t, t.nodes[id], edges, None, DumpWith(PLAIN), rank);
      && Distinct(ListIds(kids))
      && forall y <- ListIds(kids) :: exists e <- edges :: Reachable(t.children, e.1, y)
    decreases rank[id], 0, |edges|
  {
    if edges != [] {
      var e, rest := edges[0], edges[1..];
      var n := t.nodes[id];
      assert edges == [e] + rest && Fan(t, id, rest) && e in edges;
      EdgeOf(t, id, e);
      KidsOpen(t, id, edges, rank);
      assert (id, (e.0, e.1)) in t.children;
      assert e.1 in rank && rank[e.1] < rank[id];
      hide Sane, Reachable, Indexed, Build, DumpWith, TreeIds, Ranked;
      DumpNamesOnce(t, e.1, rank);
      KidsNameOnce(t, id, rest, rank);
      var here, later := TreeIds(DumpOfNode(t, e.1, rank)), ListIds(BuildKids(t, n, rest, None, DumpWith(PLAIN), rank));
      hide *;
      forall y | y in here ensures y !in later {
        if y in later {
          var d :| d in rest && Reachable(t.children, d.1, y);
          FanApart(t, rank, id, edges, d, y);
        }
      }
      DistinctConcat(here, later);
      forall y | y in here + later ensures exists d <- edges :: Reachable(t.children, d.1, y) {
        if y in here {
          assert e in edges && Reachable(t.children, e.1, y);
        } else {
          var d :| d in rest && Reachable(t.children, d.1, y);
          assert d in edges;
        }
      }
    }
  }

  lemma KidsOpen(t: Tables, id: string, edges: seq<(nat, string)>, rank: map<string, nat>)
    requires id in t.nodes && t.nodes[id].id == id && Ends(t, id, None, rank) && edges != []
    requires (forall e <- edges :: e in Under(t.children, id)) && edges[0].1 in t.nodes
    requires Ends(t, t.nodes[edges[0].1].id, None, rank)
    ensures var kids := BuildKids(t, t.nodes[id], edges, None, DumpWith(PLAIN), rank);
      && ListIds(kids) == TreeIds(DumpOfNode(t, edges[0].1, rank)) +
           ListIds(BuildKids(t, t.nodes[id], edges[1..], None, DumpWith(PLAIN), rank))
  {
    hide Build, TreeIds, Dumped;
    var kids := BuildKids(t, t.nodes[id], edges, None, DumpWith(PLAIN), rank);
    var rest := BuildKids(t, t.nodes[id], edges[1..], None, DumpWith(PLAIN), rank);
    assert kids == [DumpOfNode(t, edges[0].1, rank)] + rest;
    assert kids[1..] == rest;
  }

  /** What lies below the first child lies below no other. */
  lemma FanApart(t: Tables, rank: map<string, nat>, p: string, edges: seq<(nat, string)>, d: (nat, string), y: string)
    requires Indexed(t) && Ranked(t, rank) && p in rank && Fan(t, p, edges) && edges != [] && d in edges[1..]
    requires Reachable(t.children, edges[0].1, y)
    ensures !Reachable(t.children, d.1, y)
  {
    hide Indexed, Ranked, Reachable;
    var j :| 0 <= j < |edges| - 1 && edges[1..][j] == d;
    assert edges[j + 1] == d && edges[0] in edges && d in edges;
    EdgeOf(t, p, edges[0]);
    EdgeOf(t, p, d);
    SiblingsApart(t, rank, p, edges[0].1, d.1, y);
  }

  // ---- what a mirroring store holds, ids repeated or not ----

  lemma {:induction false} FromRecords(recs: seq<Entry>, id: Id) returns (e: Entry)
    requires id in AsRows(recs)
    ensures e in recs && e.id == id && e.rec == AsRows(recs)[id]
  {
    var front, last := recs[..|recs| - 1], recs[|recs| - 1];
    if last.id == id {
      e := last;
    } else {
      e := FromRecords(front, id);
    }
  }

  lemma {:induction false} LocatedWellFormed(at: Place, steps: seq<nat>)
    requires at.node.WellFormed() && Locate(at, steps).Some?
    ensures Locate(at, steps).value.node.WellFormed()
    decreases |steps|
  {
    if steps != [] {
      KidWellFormed(at.node, steps[0]);
      LocatedWellFormed(at.Child(steps[0]), steps[1..]);
    }
  }

  lemma RawReadable(node: Value)
    requires node.WellFormed() && IdOf(node).Some?
    ensures RawOf(node).Object? && KeySorted(RawOf(node).fields) && IdOf(RawOf(node)) == IdOf(node)
  {
    hide DropMember, Json.Find;
    DropKeeps(node.fields, "children");
    FindDropped(node.fields, "children", "id");
    assert "id" != "children";
  }

  lemma PlaceReadable(at: Place)
    requires at.HasId() && at.node.WellFormed()
    ensures Readable(at.Record())
  {
    hide NodeRecord, RawOf, IdOf;
    RecordFields(at.node, at.Id(), at.parent, at.index, at.Own());
    RawReadable(at.node);
  }

  lemma WalkReadable(document: Value, r: NodeRec)
    requires document.WellFormed() && r in Top(document).Segment()
    ensures Readable(r)
  {
    var steps := RecordLocated(Top(document), r);
    LocatedWellFormed(Top(document), steps);
    hide Readable, NodeRecord;
    PlaceReadable(Locate(Top(document), steps).value);
  }

  lemma StoredInWalk(rows: Rows, resp: Value, id: string)
    requires Mirrors(rows, resp) && NodeId(id) in rows
    ensures exists r <- WalkOf(resp) :: rows[NodeId(id)] == Node(r)
  {
    assert Sweepable(NodeId(id));
    MirroredLookup(rows, resp, NodeId(id));
    hide Mirrors, Records, WalkNode, AsRows, DocumentOf;
    var recs := Records(resp, DocumentOf(resp));
    var e := FromRecords(recs, NodeId(id));
    NodeRecords(resp, DocumentOf(resp), e);
  }

  /** Whatever ids the document repeats, every record of a valid mirroring store is readable. */
  lemma MirrorSane(t: Tables, rows: Rows, resp: Value)
    requires resp.WellFormed() && Mirrors(rows, resp) && Rebuilt(t, rows)
    ensures Sane(t)
  {
    DocumentWellFormed(resp);
    WalkTop(resp);
    hide Mirrors, Readable, WalkOf, DocumentOf, Indexed, Top;
    forall id | id in t.nodes ensures Readable(t.nodes[id]) {
      assert NodeId(id) in rows && rows[NodeId(id)] == Node(t.nodes[id]);
      StoredInWalk(rows, resp, id);
      WalkReadable(DocumentOf(resp), t.nodes[id]);
    }
  }

  // ---- exactly when ----

  /** The full dump of `root` ends, and gives `v`. */
  ghost predicate Gives(t: Tables, root: string, rank: map<string, nat>, v: Value) {
    && root in t.nodes && t.nodes[root].id == root && Ends(t, root, None, rank)
    && DumpOf(t, root, None, PLAIN, rank) == Ok(v)
  }

  lemma GivesNamesOnce(t: Tables, root: string, rank: map<string, nat>, v: Value)
    requires Sane(t) && Gives(t, root, rank, v)
    ensures Distinct(TreeIds(v))
  {
    hide Sane, Build, TreeIds, Ends;
    DumpNamesOnce(t, root, rank);
  }

  /** After any run, the full dump of the root ends and is the last pulled document if and only if that
      document's node ids are distinct and none of its nodes lacks an id or a children array. */
  lemma ExactlyWhen(rows: Rows, events: seq<Event>, t: Tables, root: string)
    requires (forall e <- events :: Sound(e)) && Current(events).Some? && Rebuilt(t, Run(rows, events))
    requires var document := DocumentOf(Current(events).value); Countable(document) && IdOf(document) == Some(root)
    ensures var resp := Current(events).value;
      (exists rank :: Gives(t, root, rank, DocumentOf(resp))) <==>
        DistinctNodes(WalkOf(resp)) && Complete(DocumentOf(resp))
  {
    var resp := Current(events).value;
    var document := DocumentOf(resp);
    WalkDistinct(document);
    WalkIs(resp);
    hide *;
    RunMirrors(rows, events);
    MirrorSane(t, Run(rows, events), resp);
    DocumentWellFormed(resp);
    if rank :| Gives(t, root, rank, document) {
      GivesNamesOnce(t, root, rank, document);
      GivesRestored(t, Run(rows, events), resp, root, rank);
      RestoredIsDocument(document);
    }
    if DistinctNodes(WalkOf(resp)) && Complete(document) {
      DumpIsLastDocument(rows, events, t, root);
      MirrorHolds(t, Run(rows, events), resp);
      RootLocated(document, root);
      AnswersAt(t, resp, [], root, None, PLAIN);
      GivesBy(t, root, RankBy(WalkOf(resp)), document);
    }
  }

  lemma WalkIs(resp: Value)
    ensures WalkOf(resp) == WalkNode(DocumentOf(resp), None, 0, None)
  {
  }

  lemma GivesBy(t: Tables, root: string, rank: map<string, nat>, v: Value)
    requires root in t.nodes && t.nodes[root].id == root && Ends(t, root, None, rank)
    requires DumpOf(t, root, None, PLAIN, rank) == Ok(v)
    ensures Gives(t, root, rank, v)
  {
  }

  /** With distinct ids, whatever rank shows that the dump ends, it gives the restored document. */
  lemma GivesRestored(t: Tables, rows: Rows, resp: Value, root: string, rank: map<string, nat>)
    requires resp.WellFormed() && Mirrors(rows, resp) && Rebuilt(t, rows) && DistinctNodes(WalkOf(resp))
    requires Countable(DocumentOf(resp)) && IdOf(DocumentOf(resp)) == Some(root) && Gives(t, root, rank, DocumentOf(resp))
    ensures DocumentOf(resp) == Restored(DocumentOf(resp))
  {
    GivesOpens(t, root, rank, DocumentOf(resp));
    hide *;
    MirrorHolds(t, rows, resp);
    WalkTop(resp);
    RootLocated(DocumentOf(resp), root);
    TopSettled(t, DocumentOf(resp));
    DumpShows(t, Top(DocumentOf(resp)), None, PLAIN, rank);
    FullDump(DocumentOf(resp));
  }

  lemma GivesOpens(t: Tables, root: string, rank: map<string, nat>, v: Value)
    requires Gives(t, root, rank, v)
    ensures root in t.nodes && t.nodes[root].id == root && Ends(t, root, None, rank)
    ensures DumpOf(t, root, None, PLAIN, rank) == Ok(v)
  {
  }
}
