/** The tables of a synced store give the walked document back: nested answers rebuilt from them equal
    those read off the document itself. */
module Restore {
  import opened Basics
  import opened Json
  import opened Model
  import opened Store
  import opened Flatten
  import opened WalkShape
  import opened Query
  import opened Subtree

  /** The tables hold exactly the records of a walk with distinct ids. */
  ghost predicate Holds(t: Tables, walk: seq<NodeRec>) {
    && Indexed(t) && DistinctNodes(walk)
    && t.nodes.Keys == Ids(walk)
    && forall r <- walk :: t.nodes[r.id] == r
  }

  lemma InWalk(t: Tables, walk: seq<NodeRec>, id: string)
    requires Holds(t, walk) && id in t.nodes
    ensures t.nodes[id] in walk && t.nodes[id].id == id
  {
    var r :| r in walk && r.id == id;
  }

  // ---- segments agree with the tables ----

  /** The segment's records are stored, and the stored children of its nodes are all in it. */
  ghost predicate Agrees(t: Tables, seg: seq<NodeRec>) {
    && (forall r <- seg :: r.id in t.nodes && t.nodes[r.id] == r)
    && (forall p <- Ids(seg) :: Under(t.children, p) == ChildrenIn(seg, p))
  }

  lemma WalkAgrees(t: Tables, walk: seq<NodeRec>)
    requires Holds(t, walk)
    ensures Agrees(t, walk)
    ensures forall p :: Under(t.children, p) == ChildrenIn(walk, p)
  {
    forall p ensures Under(t.children, p) == ChildrenIn(walk, p) {
      forall e | e in Under(t.children, p) ensures e in ChildrenIn(walk, p) {
        var x :| x in t.nodes && (p, e) in ChildSet(t.nodes[x]);
        InWalk(t, walk, x);
      }
      forall e | e in ChildrenIn(walk, p) ensures e in Under(t.children, p) {
        var r :| r in walk && r.parentId == Some(p) && e == (r.childIndex, r.id);
        assert r.id in t.nodes && (p, e) in ChildSet(t.nodes[r.id]);
      }
    }
  }

  /** Splitting the children's segment into the first child's and the others'. */
  lemma AgreesSplit(t: Tables, node: Value, i: nat, id: string, page: string)
    requires i < |KidsOf(node)|
    requires var rest := WalkKids(node, i, id, page);
      DistinctNodes(rest) && id !in Ids(rest) && Agrees(t, rest)
    ensures var here := WalkNode(KidsOf(node)[i], Some(id), i % U32, Some(page));
      DistinctNodes(here) && id !in Ids(here) && Agrees(t, here)
    ensures var more := WalkKids(node, i + 1, id, page);
      DistinctNodes(more) && id !in Ids(more) && Agrees(t, more)
  {
    var kid := KidsOf(node)[i];
    var here, more := WalkNode(kid, Some(id), i % U32, Some(page)), WalkKids(node, i + 1, id, page);
    Append(here, more);
    forall p | p in Ids(here) ensures Under(t.children, p) == ChildrenIn(here, p) {
      OutsideKids(node, i + 1, id, page, p);
    }
    forall p | p in Ids(more) ensures Under(t.children, p) == ChildrenIn(more, p) {
      OutsideParent(kid, Some(id), i % U32, Some(page), p);
    }
    forall r | r in here ensures r.id in t.nodes && t.nodes[r.id] == r {
      assert r in here + more;
    }
    forall r | r in more ensures r.id in t.nodes && t.nodes[r.id] == r {
      assert r in here + more;
    }
  }

  /** Stepping from a node's segment to its children's. */
  lemma AgreesBelow(t: Tables, node: Value, parent: Option<string>, index: nat, page: Option<string>)
    requires IdOf(node).Some?
    requires var seg := WalkNode(node, parent, index, page);
      DistinctNodes(seg) && Agrees(t, seg) && (parent.Some? ==> parent.value !in Ids(seg))
    ensures var id := IdOf(node).value;
      var own := PageOf(node, id, page);
      var rest := WalkKids(node, 0, id, own);
      && DistinctNodes(rest) && id !in Ids(rest) && Agrees(t, rest)
      && Under(t.children, id) == Elements(KidEdges(node, 0))
      && id in t.nodes && t.nodes[id] == NodeRecord(node, id, parent, index, own)
  {
    hide NodeRecord, PageOf;
    var id := IdOf(node).value;
    var own := PageOf(node, id, page);
    var rec, rest := NodeRecord(node, id, parent, index, own), WalkKids(node, 0, id, own);
    RecordFields(node, id, parent, index, own);
    Append([rec], rest);
    assert rec in [rec];
    assert id in Ids([rec]);
    OutsideKids(node, 0, id, own, id);
    forall p | p in Ids([rec] + rest) ensures ChildrenIn([rec], p) == {} {
    }
    assert forall r <- [rec] + rest :: r.id in t.nodes && t.nodes[r.id] == r;
    assert rec in [rec] + rest;
  }

  // ---- what a nested answer should be, read off the document ----

  function Shown<T>(node: Value, depth: Option<nat>, show: (Value, seq<T>) -> T): T
    decreases node, |KidsOf(node)| + 1
  {
    show(node, if depth == Some(0) then [] else ShownKids(node, 0, depth, show))
  }

  function ShownKids<T>(node: Value, i: nat, depth: Option<nat>, show: (Value, seq<T>) -> T): seq<T>
    requires depth != Some(0)
    decreases node, |KidsOf(node)| - i
  {
    if i >= |KidsOf(node)| then []
    else
      (if IdOf(KidsOf(node)[i]).Some? then [Shown(KidsOf(node)[i], Deeper(depth), show)] else [])
      + ShownKids(node, i + 1, depth, show)
  }

  /** No node has more children than a 32-bit index can tell apart. */
  ghost predicate Countable(node: Value) {
    |KidsOf(node)| <= U32 && forall k <- KidsOf(node) :: Countable(k)
  }

  /** What `make` builds from a node's record is what `show` reads off the node. */
  ghost predicate Corresponds<T(!new)>(make: (NodeRec, seq<T>) -> T, show: (Value, seq<T>) -> T) {
    forall node, id, parent, index, page, kids :: IdOf(node) == Some(id) ==>
      make(NodeRecord(node, id, parent, index, page), kids) == show(node, kids)
  }

  lemma {:induction false} BuildShows<T(!new)>(t: Tables, node: Value, parent: Option<string>, index: nat,
        page: Option<string>,
      depth: Option<nat>, make: (NodeRec, seq<T>) -> T, show: (Value, seq<T>) -> T, rank: map<string, nat>)
    requires IdOf(node).Some? && Countable(node) && Corresponds(make, show)
    requires Ends(t, IdOf(node).value, depth, rank)
    requires var seg := WalkNode(node, parent, index, page);
      DistinctNodes(seg) && Agrees(t, seg) && (parent.Some? ==> parent.value !in Ids(seg))
    ensures IdOf(node).value in t.nodes
    ensures Build(t, t.nodes[IdOf(node).value], depth, make, rank) == Shown(node, depth, show)
    decreases node, |KidsOf(node)| + 1
  {
    hide NodeRecord, StringLess, SortedEdges, DistinctNodes, Agrees, Ends;
    var id := IdOf(node).value;
    var own := PageOf(node, id, page);
    AgreesBelow(t, node, parent, index, page);
    var rec := t.nodes[id];
    RecordFields(node, id, parent, index, own);
    if depth != Some(0) {
      EdgeOrder();
      KidEdgesIncreasing(node, 0);
      IncreasingUnique(EdgeLess, SortedEdges(Under(t.children, id)), KidEdges(node, 0));
      assert forall e <- KidEdges(node, 0) :: e in Elements(KidEdges(node, 0));
      KidsShow(t, node, 0, id, own, rec, depth, make, show, rank);
    }
  }

  lemma KidStored(t: Tables, kid: Value, id: string, index: nat, page: string)
    requires IdOf(kid).Some? && Agrees(t, WalkNode(kid, Some(id), index, Some(page)))
    ensures IdOf(kid).value in t.nodes && t.nodes[IdOf(kid).value].id == IdOf(kid).value
  {
    hide NodeRecord;
    var here := NodeRecord(kid, IdOf(kid).value, Some(id), index, PageOf(kid, IdOf(kid).value, Some(page)));
    RecordFields(kid, IdOf(kid).value, Some(id), index, PageOf(kid, IdOf(kid).value, Some(page)));
    assert here in WalkNode(kid, Some(id), index, Some(page));
  }

  lemma EndsBelow(t: Tables, p: string, k: nat, c: string, depth: Option<nat>, rank: map<string, nat>)
    requires Ends(t, p, depth, rank) && depth != Some(0) && (k, c) in Under(t.children, p)
    requires c in t.nodes && t.nodes[c].id == c
    ensures Ends(t, c, Deeper(depth), rank)
  {
    assert (p, (k, c)) in t.children;
  }

  lemma {:induction false} KidsShow<T(!new)>(t: Tables, node: Value, i: nat, id: string, page: string, n: NodeRec,
      depth: Option<nat>, make: (NodeRec, seq<T>) -> T, show: (Value, seq<T>) -> T, rank: map<string, nat>)
    requires depth != Some(0) && Countable(node) && Corresponds(make, show)
    requires Ends(t, n.id, depth, rank)
    requires var rest := WalkKids(node, i, id, page);
      DistinctNodes(rest) && id !in Ids(rest) && Agrees(t, rest)
    requires forall e <- KidEdges(node, i) :: e in Under(t.children, n.id)
    ensures BuildKids(t, n, KidEdges(node, i), depth, make, rank) == ShownKids(node, i, depth, show)
    decreases node, |KidsOf(node)| - i
  {
    if i < |KidsOf(node)| {
      var kid, index := KidsOf(node)[i], i % U32;
      assert kid < node && Countable(kid);
      hide *;
      AgreesSplit(t, node, i, id, page);
      ShownStep(node, i, depth, show);
      NextEdge(node, i);
      if IdOf(kid).Some? {
        KidStored(t, kid, id, index, page);
        EndsBelow(t, n.id, index, IdOf(kid).value, depth, rank);
        NextBuilt(t, n, (index, IdOf(kid).value), KidEdges(node, i + 1), depth, make, rank);
        BuildShows(t, kid, Some(id), index, Some(page), Deeper(depth), make, show, rank);
      }
      KidsShow(t, node, i + 1, id, page, n, depth, make, show, rank);
    }
  }

  lemma ShownStep<T>(node: Value, i: nat, depth: Option<nat>, show: (Value, seq<T>) -> T)
    requires i < |KidsOf(node)| && depth != Some(0)
    ensures var kid := KidsOf(node)[i];
      ShownKids(node, i, depth, show) ==
        (if IdOf(kid).Some? then [Shown(kid, Deeper(depth), show)] else []) + ShownKids(node, i + 1, depth, show)
    ensures IdOf(KidsOf(node)[i]).None? ==> ShownKids(node, i, depth, show) == ShownKids(node, i + 1, depth, show)
  {
    hide Shown, IdOf, KidsOf;
  }

  lemma NextEdge(node: Value, i: nat)
    requires i < |KidsOf(node)|
    ensures var kid := KidsOf(node)[i];
      KidEdges(node, i) ==
        if IdOf(kid).Some? then [(i % U32, IdOf(kid).value)] + KidEdges(node, i + 1) else KidEdges(node, i + 1)
    ensures forall e <- KidEdges(node, i + 1) :: e in KidEdges(node, i)
    ensures IdOf(KidsOf(node)[i]).Some? ==> (i % U32, IdOf(KidsOf(node)[i]).value) in KidEdges(node, i)
  {
    hide IdOf, KidsOf;
  }

  lemma NextBuilt<T>(t: Tables, n: NodeRec, e: (nat, string), later: seq<(nat, string)>, depth: Option<nat>,
      make: (NodeRec, seq<T>) -> T, rank: map<string, nat>)
    requires depth != Some(0) && Ends(t, n.id, depth, rank)
    requires forall d <- [e] + later :: d in Under(t.children, n.id)
    requires e.1 in t.nodes && Ends(t, t.nodes[e.1].id, Deeper(depth), rank)
    ensures BuildKids(t, n, [e] + later, depth, make, rank) ==
      [Build(t, t.nodes[e.1], Deeper(depth), make, rank)] + BuildKids(t, n, later, depth, make, rank)
  {
    hide Build, Under;
    assert ([e] + later)[1..] == later;
  }
}
