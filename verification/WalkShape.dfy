/** The shape of a walk's output: each subtree is one contiguous segment of records, and the records
    naming a node as their parent are exactly its children, in the same segment. */
module WalkShape {
  import opened Basics
  import opened Json
  import opened Model
  import opened Flatten

  ghost function Ids(recs: seq<NodeRec>): set<string> {
    set r | r in recs :: r.id
  }

  /** The (child index, id) pairs of the records that name `p` as their parent. */
  ghost function ChildrenIn(recs: seq<NodeRec>, p: string): set<(nat, string)> {
    set r | r in recs && r.parentId == Some(p) :: (r.childIndex, r.id)
  }

  lemma Append(a: seq<NodeRec>, b: seq<NodeRec>)
    ensures Ids(a + b) == Ids(a) + Ids(b)
    ensures forall p :: ChildrenIn(a + b, p) == ChildrenIn(a, p) + ChildrenIn(b, p)
    ensures DistinctNodes(a + b) ==> DistinctNodes(a) && DistinctNodes(b) && Ids(a) !! Ids(b)
  {
    forall r ensures r in a + b <==> r in a || r in b { }
    if DistinctNodes(a + b) {
      forall i, j | 0 <= i < j < |a| ensures a[i].id != a[j].id {
        assert (a + b)[i] == a[i] && (a + b)[j] == a[j];
      }
      forall i, j | 0 <= i < j < |b| ensures b[i].id != b[j].id {
        assert (a + b)[|a| + i] == b[i] && (a + b)[|a| + j] == b[j];
      }
      forall x, y | x in a && y in b ensures x.id != y.id {
        var i :| 0 <= i < |a| && a[i] == x;
        var j :| 0 <= j < |b| && b[j] == y;
        assert (a + b)[i] == x && (a + b)[|a| + j] == y;
      }
    }
  }

  // ---- children ----

  /** The edges a node's children contribute, from the i-th on: those with an id, in order. */
  function KidEdges(node: Value, i: nat): seq<(nat, string)>
    decreases |KidsOf(node)| - i
  {
    if i >= |KidsOf(node)| then []
    else
      (match IdOf(KidsOf(node)[i])
       case Some(id) => [(i % U32, id)]
       case None => [])
      + KidEdges(node, i + 1)
  }

  /** A record outside the subtree's own ids is the parent of nothing in it but the subtree's root. */
  lemma {:induction false} OutsideParent(node: Value, parent: Option<string>, index: nat, page: Option<string>,
        p: string)
    requires p !in Ids(WalkNode(node, parent, index, page))
    ensures ChildrenIn(WalkNode(node, parent, index, page), p) ==
      if IdOf(node).Some? && parent == Some(p) then {(index, IdOf(node).value)} else {}
    decreases node, |KidsOf(node)| + 1
  {
    hide NodeRecord;
    if IdOf(node).Some? {
      var id := IdOf(node).value;
      var own := PageOf(node, id, page);
      var rec, rest := NodeRecord(node, id, parent, index, own), WalkKids(node, 0, id, own);
      RecordFields(node, id, parent, index, own);
      Append([rec], rest);
      assert rec in [rec];
      OutsideKids(node, 0, id, own, p);
    }
  }

  lemma RecordFields(node: Value, id: string, parent: Option<string>, index: nat, page: string)
    ensures var r := NodeRecord(node, id, parent, index, page);
      r.id == id && r.parentId == parent && r.childIndex == index && r.pageId == page && r.nodeType == TypeOf(node)
      && r.raw == RawOf(node) && r.boundVariables == Aliases.BoundVariables(RawOf(node))
  {
  }

  lemma {:induction false} OutsideKids(node: Value, i: nat, id: string, page: string, p: string)
    requires p !in Ids(WalkKids(node, i, id, page))
    ensures ChildrenIn(WalkKids(node, i, id, page), p) == if p == id then Elements(KidEdges(node, i)) else {}
    decreases node, |KidsOf(node)| - i
  {
    hide NodeRecord, Elements, ChildrenIn, Ids, PageOf;
    KidEdgesStep(node, i);
    if i < |KidsOf(node)| {
      var kid := KidsOf(node)[i];
      var here, rest := WalkNode(kid, Some(id), i % U32, Some(page)), WalkKids(node, i + 1, id, page);
      Append(here, rest);
      OutsideParent(kid, Some(id), i % U32, Some(page), p);
      OutsideKids(node, i + 1, id, page, p);
    } else {
      NoChildren(p);
    }
  }

  lemma NoChildren(p: string)
    ensures ChildrenIn([], p) == {}
  {
  }

  lemma KidEdgesStep(node: Value, i: nat)
    ensures Elements(KidEdges(node, i)) ==
      if i >= |KidsOf(node)| then {}
      else (if IdOf(KidsOf(node)[i]).Some? then {(i % U32, IdOf(KidsOf(node)[i]).value)} else {})
           + Elements(KidEdges(node, i + 1))
  {
    if i < |KidsOf(node)| {
      var rest := KidEdges(node, i + 1);
      var head := if IdOf(KidsOf(node)[i]).Some? then [(i % U32, IdOf(KidsOf(node)[i]).value)] else [];
      assert forall e :: e in head + rest <==> e in head || e in rest;
    }
  }

  lemma SmallIndex(i: nat)
    requires i < U32
    ensures i % U32 == i
  {
  }

  lemma EdgeFirst(e: (nat, string), rest: seq<(nat, string)>)
    requires Increasing(EdgeLess, rest) && forall x <- rest :: e.0 < x.0
    ensures Increasing(EdgeLess, [e] + rest)
  {
  }

  /** With at most 2^32 children the edges are already in the order they are sorted into. */
  lemma {:induction false} KidEdgesIncreasing(node: Value, i: nat)
    requires |KidsOf(node)| <= U32
    ensures Increasing(EdgeLess, KidEdges(node, i))
    ensures forall e <- KidEdges(node, i) :: i <= e.0
    decreases |KidsOf(node)| - i
  {
    hide StringLess, IdOf, KidsOf, U32;
    if i < |KidsOf(node)| {
      KidEdgesIncreasing(node, i + 1);
      SmallIndex(i);
      if IdOf(KidsOf(node)[i]).Some? {
        EdgeFirst((i, IdOf(KidsOf(node)[i]).value), KidEdges(node, i + 1));
      }
    }
  }

  // ---- pages ----

  /** If nothing below the inherited page is itself a page, every record is on the inherited page. */
  lemma {:induction false} OnePage(node: Value, parent: Option<string>, index: nat, page: string)
    requires forall r <- WalkNode(node, parent, index, Some(page)) :: !OwnPage(r.nodeType)
    ensures forall r <- WalkNode(node, parent, index, Some(page)) :: r.pageId == page
    decreases node, |KidsOf(node)| + 1
  {
    hide NodeRecord;
    if IdOf(node).Some? {
      var id := IdOf(node).value;
      var own := PageOf(node, id, Some(page));
      var rec, rest := NodeRecord(node, id, parent, index, own), WalkKids(node, 0, id, own);
      RecordFields(node, id, parent, index, own);
      assert rec in [rec] + rest;
      OnePageKids(node, 0, id, page);
    }
  }

  lemma {:induction false} OnePageKids(node: Value, i: nat, id: string, page: string)
    requires forall r <- WalkKids(node, i, id, page) :: !OwnPage(r.nodeType)
    ensures forall r <- WalkKids(node, i, id, page) :: r.pageId == page
    decreases node, |KidsOf(node)| - i
  {
    if i < |KidsOf(node)| {
      var here, rest := WalkNode(KidsOf(node)[i], Some(id), i % U32, Some(page)), WalkKids(node, i + 1, id, page);
      OnePage(KidsOf(node)[i], Some(id), i % U32, page);
      OnePageKids(node, i + 1, id, page);
    }
  }

  /** A record that is its own page is on no other. */
  lemma {:induction false} OwnPageIsOwn(node: Value, parent: Option<string>, index: nat, page: Option<string>)
    ensures forall r <- WalkNode(node, parent, index, page) :: OwnPage(r.nodeType) ==> r.pageId == r.id
    decreases node, |KidsOf(node)| + 1
  {
    hide NodeRecord;
    if IdOf(node).Some? {
      var id := IdOf(node).value;
      var own := PageOf(node, id, page);
      RecordFields(node, id, parent, index, own);
      OwnPageIsOwnKids(node, 0, id, own);
    }
  }

  lemma {:induction false} OwnPageIsOwnKids(node: Value, i: nat, id: string, page: string)
    ensures forall r <- WalkKids(node, i, id, page) :: OwnPage(r.nodeType) ==> r.pageId == r.id
    decreases node, |KidsOf(node)| - i
  {
    if i < |KidsOf(node)| {
      OwnPageIsOwn(KidsOf(node)[i], Some(id), i % U32, Some(page));
      OwnPageIsOwnKids(node, i + 1, id, page);
    }
  }

  // ---- parents come first ----

  /** Every record's parent is the inherited one or a record before it. */
  ghost predicate ParentsFirst(recs: seq<NodeRec>, parent: Option<string>) {
    forall k :: 0 <= k < |recs| && recs[k].parentId != parent ==>
      recs[k].parentId.Some? && recs[k].parentId.value in Ids(recs[..k])
  }

  lemma ParentsFirstAppend(a: seq<NodeRec>, b: seq<NodeRec>, parent: Option<string>)
    requires ParentsFirst(a, parent) && ParentsFirst(b, parent)
    ensures ParentsFirst(a + b, parent)
  {
    forall k | 0 <= k < |a + b| && (a + b)[k].parentId != parent
      ensures (a + b)[k].parentId.Some? && (a + b)[k].parentId.value in Ids((a + b)[..k])
    {
      if k < |a| {
        assert (a + b)[..k] == a[..k];
      } else {
        assert (a + b)[..k] == a + b[..k - |a|];
        Append(a, b[..k - |a|]);
      }
    }
  }

  lemma {:induction false} WalkParentsFirst(node: Value, parent: Option<string>, index: nat, page: Option<string>)
    ensures ParentsFirst(WalkNode(node, parent, index, page), parent)
    decreases node, |KidsOf(node)| + 1
  {
    hide NodeRecord;
    if IdOf(node).Some? {
      var id := IdOf(node).value;
      var own := PageOf(node, id, page);
      var rec, rest := NodeRecord(node, id, parent, index, own), WalkKids(node, 0, id, own);
      var recs := [rec] + rest;
      RecordFields(node, id, parent, index, own);
      KidsParentsFirst(node, 0, id, own);
      forall k | 0 <= k < |recs| && recs[k].parentId != parent
        ensures recs[k].parentId.Some? && recs[k].parentId.value in Ids(recs[..k])
      {
        assert recs[..k] == [rec] + rest[..k - 1];
        Append([rec], rest[..k - 1]);
        assert rec in [rec];
      }
    }
  }

  lemma {:induction false} KidsParentsFirst(node: Value, i: nat, id: string, page: string)
    ensures ParentsFirst(WalkKids(node, i, id, page), Some(id))
    decreases node, |KidsOf(node)| - i
  {
    if i < |KidsOf(node)| {
      WalkParentsFirst(KidsOf(node)[i], Some(id), i % U32, Some(page));
      KidsParentsFirst(node, i + 1, id, page);
      ParentsFirstAppend(
        WalkNode(KidsOf(node)[i], Some(id), i % U32, Some(page)), WalkKids(node, i + 1, id, page), Some(id));
    }
  }
}
