/** Scopes, ancestor chains and pages of a synced store, in terms of the document. */
module Scopes {
  import opened Basics
  import opened Json
  import opened Model
  import opened Store
  import opened Flatten
  import opened WalkShape
  import opened Query
  import opened Subtree
  import opened Restore
  import opened Answers

  // ---- every node has a root path, and child edges go down ----

  /** Where in the walk a node's record stands. */
  function Position(walk: seq<NodeRec>, id: string): (k: nat)
    ensures k <= |walk|
    ensures k < |walk| ==> walk[k].id == id
    ensures forall j :: 0 <= j < k ==> walk[j].id != id
  {
    if walk == [] || walk[0].id == id then 0 else
      var k := Position(walk[1..], id);
      assert forall j :: 0 < j < k + 1 ==> walk[j] == walk[1..][j - 1];
      k + 1
  }

  ghost function RankBy(walk: seq<NodeRec>): map<string, nat> {
    map id | id in Ids(walk) :: |walk| - Position(walk, id)
  }

  lemma EarlierPosition(walk: seq<NodeRec>, k: nat, id: string)
    requires k <= |walk| && id in Ids(walk[..k])
    ensures Position(walk, id) < k
  {
    var r :| r in walk[..k] && r.id == id;
    var j :| 0 <= j < k && walk[..k][j] == r;
    assert walk[j].id == id;
  }

  lemma ParentEarlier(walk: seq<NodeRec>, k: nat)
    requires ParentsFirst(walk, None) && k < |walk| && walk[k].parentId.Some?
    ensures Position(walk, walk[k].parentId.value) < k
  {
    EarlierPosition(walk, k, walk[k].parentId.value);
  }

  /** A store synced from a document with distinct ids has no cycle of child edges. */
  lemma WalkRanked(t: Tables, walk: seq<NodeRec>)
    requires Holds(t, walk) && ParentsFirst(walk, None)
    ensures Ranked(t, RankBy(walk))
  {
    forall e | e in t.children && e.1.1 in t.nodes
      ensures t.nodes[e.1.1].id in Ids(walk) && Position(walk, t.nodes[e.1.1].id) > Position(walk, e.0)
    {
      var c := e.1.1;
      assert Edge(t.children, e.0, c) by { assert (e.0, (e.1.0, c)) in t.children; }
      EdgeIsParent(t, e.0, c);
      InWalk(t, walk, c);
      var k :| 0 <= k < |walk| && walk[k] == t.nodes[c];
      SamePosition(t, walk, k);
      ParentEarlier(walk, k);
    }
  }

  lemma SamePosition(t: Tables, walk: seq<NodeRec>, k: nat)
    requires Holds(t, walk) && k < |walk|
    ensures Position(walk, walk[k].id) == k
  {
    var j := Position(walk, walk[k].id);
    assert j <= k && walk[j].id == walk[k].id;
  }

  // ---- scopes are segments ----

  lemma ReachableTransitive(children: set<ChildPosting>, a: string, b: string, c: string)
    requires Reachable(children, a, b) && Reachable(children, b, c)
    ensures Reachable(children, a, c)
  {
    var xs :| TrailTo(children, a, b, xs);
    var ys :| TrailTo(children, b, c, ys);
    var zs := xs + ys[1..];
    forall i | 0 <= i < |zs| - 1 ensures Edge(children, zs[i], zs[i + 1]) {
      if i >= |xs| - 1 {
        assert zs[i] == ys[i - |xs| + 1];
        assert Edge(children, ys[i - |xs| + 1], ys[i - |xs| + 2]);
      } else {
        assert Edge(children, xs[i], xs[i + 1]);
      }
    }
    assert TrailTo(children, a, c, zs);
  }

  lemma {:induction false} ReachesSegment(t: Tables, at: Place, x: string)
    requires Settled(t, at) && x in Ids(at.Segment())
    ensures Reachable(t.children, at.Id(), x)
    decreases at.node, |KidsOf(at.node)| + 1
  {
    hide *;
    HasIdOf(t, at);
    SettledDown(t, at);
    ReachableSelf(t.children, at.Id());
    if x != at.Id() {
      EdgesUnder(t, at);
      ReachesBelow(t, at, 0, x);
    }
  }

  lemma EdgesUnder(t: Tables, at: Place)
    requires at.HasId() && Under(t.children, at.Id()) == Elements(KidEdges(at.node, 0))
    ensures forall e <- KidEdges(at.node, 0) :: (at.Id(), e) in t.children
  {
    hide KidEdges;
    forall e | e in KidEdges(at.node, 0) ensures (at.Id(), e) in t.children {
      assert e in Elements(KidEdges(at.node, 0));
    }
  }

  lemma KidEdge(at: Place, i: nat)
    requires at.HasId() && i < |KidsOf(at.node)|
    ensures at.Child(i).HasId() ==> (i % U32, at.Child(i).Id()) in KidEdges(at.node, i)
    ensures forall e <- KidEdges(at.node, i + 1) :: e in KidEdges(at.node, i)
    ensures at.Child(i).node < at.node
  {
  }

  lemma {:induction false} ReachesBelow(t: Tables, at: Place, i: nat, x: string)
    requires at.HasId() && SettledBelow(t, at, i) && x in Ids(at.Below(i))
    requires forall e <- KidEdges(at.node, i) :: (at.Id(), e) in t.children
    ensures Reachable(t.children, at.Id(), x)
    decreases at.node, |KidsOf(at.node)| - i
  {
    hide *;
    if i >= |KidsOf(at.node)| {
      NothingBelow(at, i);
      NoIds();
    } else {
      SettledSplit(t, at, i);
      KidEdge(at, i);
      if x in Ids(at.Child(i).Segment()) {
        NoIds();
        var kid := at.Child(i);
        ReachesSegment(t, kid, x);
        EdgeToKid(t, at, i);
        ReachableTransitive(t.children, at.Id(), kid.Id(), x);
      } else {
        ReachesBelow(t, at, i + 1, x);
      }
    }
  }

  lemma NoIds()
    ensures Ids([]) == {}
  {
  }

  lemma EdgeToKid(t: Tables, at: Place, i: nat)
    requires at.HasId() && i < |KidsOf(at.node)| && at.Child(i).HasId()
    requires forall e <- KidEdges(at.node, i) :: (at.Id(), e) in t.children
    ensures Reachable(t.children, at.Id(), at.Child(i).Id())
  {
    hide Reachable;
    KidEdge(at, i);
    assert Edge(t.children, at.Id(), at.Child(i).Id());
    ReachableSelf(t.children, at.Id());
    ReachableStep(t.children, at.Id(), at.Id(), at.Child(i).Id());
  }

  /** The scope of any node of the document is exactly the ids of its own segment of the walk. */
  lemma ScopeIsSegment(t: Tables, at: Place, x: string)
    requires Settled(t, at)
    ensures Reachable(t.children, at.Id(), x) <==> x in Ids(at.Segment())
  {
    if x in Ids(at.Segment()) {
      ReachesSegment(t, at, x);
    }
    if Reachable(t.children, at.Id(), x) {
      var xs :| TrailTo(t.children, at.Id(), x, xs);
      var ids := Ids(at.Segment());
      RecordFields(at.node, at.Id(), at.parent, at.index, at.Own());
      assert at.Record() in at.Segment();
      forall p, c | p in ids && Edge(t.children, p, c) ensures c in ids {
        var k: nat :| (p, (k, c)) in t.children;
        assert (k, c) in Under(t.children, p);
        assert (k, c) in ChildrenIn(at.Segment(), p);
      }
      ClosedTrail(t.children, ids, xs);
    }
  }

  // ---- root paths are addresses ----

  /** The records met on the way from `at` down `steps`, both ends included. */
  function Chain(at: Place, steps: seq<nat>): (c: seq<NodeRec>)
    requires Locate(at, steps).Some?
    ensures |c| == |steps| + 1
    decreases |steps|
  {
    [at.Record()] + if steps == [] then [] else Chain(at.Child(steps[0]), steps[1..])
  }

  /** The chain from a place: it starts with the place's own record, every record is stored, and each
      is the child of the one before it, at the step's index. */
  ghost predicate Linked(t: Tables, at: Place, steps: seq<nat>, c: seq<NodeRec>) {
    && |c| == |steps| + 1 && c[0].parentId == at.parent && c[0].childIndex == at.index
    && (forall i :: 0 <= i < |c| ==> c[i].id in t.nodes && t.nodes[c[i].id] == c[i])
    && (forall i :: 0 < i < |c| ==> c[i].parentId == Some(c[i - 1].id) && c[i].childIndex == steps[i - 1] % U32)
  }

  lemma LinkedCons(t: Tables, at: Place, steps: seq<nat>, rest: seq<NodeRec>)
    requires at.HasId() && steps != [] && steps[0] < |KidsOf(at.node)|
    requires at.Id() in t.nodes && t.nodes[at.Id()] == at.Record()
    requires Linked(t, at.Child(steps[0]), steps[1..], rest)
    ensures Linked(t, at, steps, [at.Record()] + rest)
  {
    hide NodeRecord, IdOf, KidsOf, PageOf;
    RecordFields(at.node, at.Id(), at.parent, at.index, at.Own());
    var c := [at.Record()] + rest;
    forall i | 0 < i < |c| ensures c[i].parentId == Some(c[i - 1].id) && c[i].childIndex == steps[i - 1] % U32 {
      assert c[i] == rest[i - 1];
      if i > 1 {
        assert rest[i - 1].childIndex == steps[1..][i - 2] % U32;
      }
    }
  }

  lemma LinkedHere(t: Tables, at: Place)
    requires at.HasId() && at.Id() in t.nodes && t.nodes[at.Id()] == at.Record()
    ensures Linked(t, at, [], [at.Record()])
  {
    RecordFields(at.node, at.Id(), at.parent, at.index, at.Own());
  }

  lemma ChainUnfold(at: Place, steps: seq<nat>)
    requires Locate(at, steps).Some?
    ensures at.HasId()
    ensures steps == [] ==> Locate(at, steps) == Some(at) && Chain(at, steps) == [at.Record()]
    ensures steps != [] ==> steps[0] < |KidsOf(at.node)| && Locate(at, steps) == Locate(at.Child(steps[0]), steps[1..])
    ensures steps != [] ==> Locate(at.Child(steps[0]), steps[1..]).Some?
    ensures steps != [] ==> Chain(at, steps) == [at.Record()] + Chain(at.Child(steps[0]), steps[1..])
  {
    hide NodeRecord, IdOf, KidsOf;
  }

  lemma {:induction false} ChainLinks(t: Tables, at: Place, steps: seq<nat>)
    requires Settled(t, at) && Locate(at, steps).Some?
    ensures Linked(t, at, steps, Chain(at, steps))
    ensures Chain(at, steps)[|steps|].id == Locate(at, steps).value.Id()
    decreases |steps|
  {
    hide *;
    ChainUnfold(at, steps);
    InSegment(t, at, at.Id());
    if steps == [] {
      LinkedHere(t, at);
      RecordId(at);
    } else {
      ChildSettled(t, at, steps[0]);
      ChainUnfold(at.Child(steps[0]), steps[1..]);
      ChainLinks(t, at.Child(steps[0]), steps[1..]);
      LinkedCons(t, at, steps, Chain(at.Child(steps[0]), steps[1..]));
    }
  }

  lemma LocatedTop(document: Value, steps: seq<nat>)
    requires Locate(Top(document), steps).Some?
    ensures IdOf(document).Some? && Top(document).node == document
  {
  }

  /** The root path of a node of the document is the chain of records along its steps, so its depth
      is their number. */
  lemma ChainIsRootPath(t: Tables, document: Value, steps: seq<nat>)
    requires Holds(t, Top(document).Segment()) && Locate(Top(document), steps).Some?
    ensures RootPath(t.nodes, Locate(Top(document), steps).value.Id(), Chain(Top(document), steps))
  {
    LocatedTop(document, steps);
    hide Settled, NodeRecord, Locate, Chain, Holds;
    TopSettled(t, document);
    ChainLinks(t, Top(document), steps);
  }

  /** No node has more children than a 32-bit index can tell apart, so no step wraps. */
  lemma {:induction false} StepsFit(at: Place, steps: seq<nat>)
    requires Countable(at.node) && Locate(at, steps).Some?
    ensures forall s <- steps :: s % U32 == s
    decreases |steps|
  {
    hide IdOf, KidsOf, PageOf;
    if steps != [] {
      StepsFit(at.Child(steps[0]), steps[1..]);
      assert steps == [steps[0]] + steps[1..];
    }
  }

  lemma {:induction false} ChainPrefix(at: Place, steps: seq<nat>, i: nat)
    requires Locate(at, steps).Some? && i <= |steps|
    ensures Locate(at, steps[..i]).Some? && Chain(at, steps)[i] == Locate(at, steps[..i]).value.Record()
    decreases |steps|
  {
    hide NodeRecord, IdOf, KidsOf;
    if i == 0 {
      assert steps[..i] == [];
    } else {
      assert steps[..i][0] == steps[0];
      ChainPrefix(at.Child(steps[0]), steps[1..], i - 1);
      assert steps[..i][1..] == steps[1..][..i - 1];
    }
  }

  lemma LinkedIndexes(t: Tables, at: Place, steps: seq<nat>, c: seq<NodeRec>)
    requires Linked(t, at, steps, c) && forall s <- steps :: s % U32 == s
    ensures |c| == |steps| + 1 && forall i :: 0 <= i < |steps| ==> c[i + 1].childIndex == steps[i]
  {
    forall i | 0 <= i < |steps| ensures c[i + 1].childIndex == steps[i] {
      assert steps[i] in steps;
    }
  }

  lemma ChainIndexes(t: Tables, document: Value, steps: seq<nat>)
    requires Holds(t, Top(document).Segment()) && Countable(document) && Locate(Top(document), steps).Some?
    ensures forall i :: 0 <= i < |steps| ==> Chain(Top(document), steps)[i + 1].childIndex == steps[i]
  {
    hide *;
    LocatedTop(document, steps);
    TopSettled(t, document);
    ChainLinks(t, Top(document), steps);
    StepsFit(Top(document), steps);
    LinkedIndexes(t, Top(document), steps, Chain(Top(document), steps));
  }

  /** One id, one place. */
  lemma PlaceUnique(t: Tables, document: Value, a: seq<nat>, b: seq<nat>)
    requires Holds(t, Top(document).Segment()) && Countable(document)
    requires Locate(Top(document), a).Some? && Locate(Top(document), b).Some?
    requires Locate(Top(document), a).value.Id() == Locate(Top(document), b).value.Id()
    ensures a == b
  {
    hide *;
    var id, c, d := Locate(Top(document), a).value.Id(), Chain(Top(document), a), Chain(Top(document), b);
    ChainIsRootPath(t, document, a);
    ChainIsRootPath(t, document, b);
    RootPathUnique(t.nodes, id, c, d);
    ChainIndexes(t, document, a);
    ChainIndexes(t, document, b);
    assert |c| == |a| + 1 && |d| == |b| + 1;
    forall i | 0 <= i < |a| ensures a[i] == b[i] {
      assert c[i + 1].childIndex == a[i] && d[i + 1].childIndex == b[i];
    }
  }

  /** A node lies on the root path of another exactly when its steps begin the other's. */
  lemma OnPathIsPrefix(t: Tables, document: Value, a: seq<nat>, b: seq<nat>)
    requires Holds(t, Top(document).Segment()) && Countable(document)
    requires Locate(Top(document), a).Some? && Locate(Top(document), b).Some?
    ensures (exists n :: n in Chain(Top(document), b) && n.id == Locate(Top(document), a).value.Id()) <==> a <= b
  {
    hide *;
    var id, c := Locate(Top(document), a).value.Id(), Chain(Top(document), b);
    if n :| n in c && n.id == id {
      var i :| 0 <= i < |c| && c[i] == n;
      ChainPrefix(Top(document), b, i);
      RecordId(Locate(Top(document), b[..i]).value);
      PlaceUnique(t, document, a, b[..i]);
    }
    if a <= b {
      ChainPrefix(Top(document), b, |a|);
      RecordId(Locate(Top(document), a).value);
      assert b[..|a|] == a && c[|a|] in c;
    }
  }

  lemma RecordId(at: Place)
    requires at.HasId()
    ensures at.Record().id == at.Id()
  {
    RecordFields(at.node, at.Id(), at.parent, at.index, at.Own());
  }

  /** One node of the document is in the scope of another exactly when the steps to it begin with the
      steps to the other. */
  lemma ScopeIsPrefix(t: Tables, document: Value, a: seq<nat>, b: seq<nat>)
    requires Holds(t, Top(document).Segment()) && Countable(document)
    requires Locate(Top(document), a).Some? && Locate(Top(document), b).Some?
    ensures Reachable(t.children, Locate(Top(document), a).value.Id(), Locate(Top(document), b).value.Id()) <==> a <= b
  {
    assert Indexed(t);
    hide *;
    var from, to := Locate(Top(document), a).value.Id(), Locate(Top(document), b).value.Id();
    ChainIsRootPath(t, document, b);
    ScopeIsAncestry(t, from, to, Chain(Top(document), b));
    OnPathIsPrefix(t, document, a, b);
  }

  // ---- pages ----

  /** A record's page is the page handed down, or an ancestor of the record (or itself). */
  lemma {:induction false} PageAbove(t: Tables, at: Place, r: NodeRec)
    requires Settled(t, at) && r in at.Segment()
    ensures Some(r.pageId) == at.page || Reachable(t.children, r.pageId, r.id)
    decreases at.node, |KidsOf(at.node)| + 1
  {
    hide *;
    HasIdOf(t, at);
    SettledDown(t, at);
    OwnOrInherited(at);
    ReachableSelf(t.children, at.Id());
    if r != at.Record() {
      PageAboveBelow(t, at, 0, r);
      InIds(at.Segment(), r);
      ReachesSegment(t, at, r.id);
    }
  }

  lemma OwnOrInherited(at: Place)
    requires at.HasId()
    ensures at.Own() == at.Id() || Some(at.Own()) == at.page
  {
  }

  lemma InIds(recs: seq<NodeRec>, r: NodeRec)
    requires r in recs
    ensures r.id in Ids(recs)
  {
  }

  lemma {:induction false} PageAboveBelow(t: Tables, at: Place, i: nat, r: NodeRec)
    requires at.HasId() && SettledBelow(t, at, i) && r in at.Below(i)
    ensures r.pageId == at.Own() || Reachable(t.children, r.pageId, r.id)
    decreases at.node, |KidsOf(at.node)| - i
  {
    hide *;
    if i >= |KidsOf(at.node)| {
      NothingBelow(at, i);
    } else {
      SettledSplit(t, at, i);
      KidEdge(at, i);
      if r in at.Child(i).Segment() {
        PageAbove(t, at.Child(i), r);
        assert at.Child(i).page == Some(at.Own()) by { ChildPage(at, i); }
      } else {
        PageAboveBelow(t, at, i + 1, r);
      }
    }
  }

  lemma ChildPage(at: Place, i: nat)
    requires at.HasId() && i < |KidsOf(at.node)|
    ensures at.Child(i).page == Some(at.Own())
  {
  }

  /** For a document or canvas node, filtering by its page and scoping to it select the same nodes
      exactly when no other page lies below it. */
  lemma PageIsScope(t: Tables, document: Value, steps: seq<nat>)
    requires Holds(t, Top(document).Segment()) && Locate(Top(document), steps).Some?
    requires OwnPage(TypeOf(Locate(Top(document), steps).value.node))
    ensures var at := Locate(Top(document), steps).value;
      (forall x <- t.nodes :: t.nodes[x].pageId == at.Id() <==> Reachable(t.children, at.Id(), x))
      <==> (forall r <- at.Below(0) :: !OwnPage(r.nodeType))
  {
    hide NodeRecord, Reachable;
    var top, at := Top(document), Locate(Top(document), steps).value;
    TopSettled(t, document);
    LocatedSettled(t, top, steps);
    RecordFields(at.node, at.Id(), at.parent, at.index, at.Own());
    Append([at.Record()], at.Below(0));
    forall x | x in t.nodes
      ensures t.nodes[x].pageId == at.Id() ==> Reachable(t.children, at.Id(), x)
      ensures Reachable(t.children, at.Id(), x) <==> x == at.Id() || t.nodes[x] in at.Below(0)
    {
      InWalk(t, top.Segment(), x);
      PageAbove(t, top, t.nodes[x]);
      ScopeIsSegment(t, at, x);
      InSegment(t, at, x);
    }
    if forall r <- at.Below(0) :: !OwnPage(r.nodeType) {
      OnePageKids(at.node, 0, at.Id(), at.Id());
      InSegment(t, at, at.Id());
    }
    if r :| r in at.Below(0) && OwnPage(r.nodeType) {
      OwnPageIsOwnKids(at.node, 0, at.Id(), at.Own());
      InSegment(t, at, r.id);
      assert r in at.Segment() && r.id != at.Id() && t.nodes[r.id] == r;
    }
  }

  lemma InSegment(t: Tables, at: Place, x: string)
    requires Settled(t, at)
    ensures x in Ids(at.Segment()) ==> x in t.nodes && t.nodes[x] in at.Segment()
    ensures at.Id() in t.nodes && t.nodes[at.Id()] == at.Record()
    ensures x in Ids(at.Segment()) <==> x == at.Id() || (x in t.nodes && t.nodes[x] in at.Below(0) && t.nodes[x].id == x)
    ensures forall r <- at.Below(0) :: r.id != at.Id()
  {
    hide NodeRecord;
    RecordFields(at.node, at.Id(), at.parent, at.index, at.Own());
    AgreesBelow(t, at.node, at.parent, at.index, at.page);
    Append([at.Record()], at.Below(0));
    if x in Ids(at.Segment()) {
      var r :| r in at.Segment() && r.id == x;
    }
  }
}
