/** What the read answers of a synced store say about the document it was synced from, for every node
    of the document. */
module Answers {
  import opened Basics
  import opened Json
  import opened Model
  import opened Store
  import opened Flatten
  import opened WalkShape
  import opened Query
  import opened Subtree
  import opened Restore

  // ---- places in a document ----

  /** One visit of the walk: the node and what it was handed. */
  datatype Place = Place(node: Value, parent: Option<string>, index: nat, page: Option<string>) {
    function Segment(): seq<NodeRec> {
      WalkNode(node, parent, index, page)
    }

    predicate HasId() {
      IdOf(node).Some?
    }

    function Id(): string
      requires HasId()
    {
      IdOf(node).value
    }

    function Own(): string
      requires HasId()
    {
      PageOf(node, Id(), page)
    }

    function Record(): NodeRec
      requires HasId()
    {
      NodeRecord(node, Id(), parent, index, Own())
    }

    function Below(i: nat): seq<NodeRec>
      requires HasId()
    {
      WalkKids(node, i, Id(), Own())
    }

    /** The visit of the i-th child. */
    function Child(i: nat): Place
      requires HasId() && i < |KidsOf(node)|
    {
      Place(KidsOf(node)[i], Some(Id()), i % U32, Some(Own()))
    }
  }

  function Top(document: Value): Place {
    Place(document, None, 0, None)
  }

  /** The place reached from `at` through the children numbered `steps`. */
  function Locate(at: Place, steps: seq<nat>): (r: Option<Place>)
    ensures r.Some? ==> r.value.HasId()
    decreases |steps|
  {
    if !at.HasId() then None
    else if steps == [] then Some(at)
    else if steps[0] < |KidsOf(at.node)| then Locate(at.Child(steps[0]), steps[1..])
    else None
  }

  /** The tables hold the segment of this place as a subtree of their own. */
  ghost predicate Settled(t: Tables, at: Place) {
    && at.HasId()
    && DistinctNodes(at.Segment()) && Agrees(t, at.Segment())
    && (at.parent.Some? ==> at.parent.value !in Ids(at.Segment()))
  }

  lemma TopSettled(t: Tables, document: Value)
    requires IdOf(document).Some? && Holds(t, Top(document).Segment())
    ensures Settled(t, Top(document))
  {
    WalkAgrees(t, Top(document).Segment());
  }

  ghost predicate StretchAt(part: seq<NodeRec>, whole: seq<NodeRec>, i: nat) {
    i + |part| <= |whole| && whole[i..i + |part|] == part
  }

  /** `part` is a contiguous stretch of `whole`. */
  ghost predicate Stretch(part: seq<NodeRec>, whole: seq<NodeRec>) {
    exists i: nat :: StretchAt(part, whole, i)
  }

  lemma StretchOfAppend(part: seq<NodeRec>, a: seq<NodeRec>, b: seq<NodeRec>)
    requires Stretch(part, a) || Stretch(part, b)
    ensures Stretch(part, a + b)
  {
    if i: nat :| StretchAt(part, a, i) {
      assert StretchAt(part, a + b, i);
    } else {
      var i: nat :| StretchAt(part, b, i);
      assert StretchAt(part, a + b, |a| + i);
    }
  }

  lemma StretchSelf(whole: seq<NodeRec>)
    ensures Stretch(whole, whole)
  {
    assert StretchAt(whole, whole, 0);
  }

  lemma StretchTransitive(a: seq<NodeRec>, b: seq<NodeRec>, c: seq<NodeRec>)
    requires Stretch(a, b) && Stretch(b, c)
    ensures Stretch(a, c)
  {
    var i: nat :| StretchAt(a, b, i);
    var j: nat :| StretchAt(b, c, j);
    forall k | 0 <= k < |a| ensures c[j + i..j + i + |a|][k] == a[k] {
      assert a[k] == b[i..i + |a|][k] == b[i + k];
      assert b[i + k] == c[j..j + |b|][i + k];
    }
    assert StretchAt(a, c, j + i);
  }

  /** The records below a node from its i-th child on, as the tables hold them. */
  ghost predicate SettledBelow(t: Tables, at: Place, i: nat) {
    at.HasId() && DistinctNodes(at.Below(i)) && at.Id() !in Ids(at.Below(i)) && Agrees(t, at.Below(i))
  }

  /** Splitting off the i-th child's segment. */
  lemma SettledSplit(t: Tables, at: Place, i: nat)
    requires SettledBelow(t, at, i) && i < |KidsOf(at.node)|
    ensures at.Below(i) == at.Child(i).Segment() + at.Below(i + 1)
    ensures if at.Child(i).HasId() then Settled(t, at.Child(i)) else at.Child(i).Segment() == []
    ensures SettledBelow(t, at, i + 1)
    ensures Ids(at.Below(i)) == Ids(at.Child(i).Segment()) + Ids(at.Below(i + 1))
  {
    hide NodeRecord, DistinctNodes, Agrees;
    AgreesSplit(t, at.node, i, at.Id(), at.Own());
    Append(at.Child(i).Segment(), at.Below(i + 1));
  }

  lemma NothingBelow(at: Place, i: nat)
    requires at.HasId() && i >= |KidsOf(at.node)|
    ensures at.Below(i) == []
  {
  }

  lemma HasIdOf(t: Tables, at: Place)
    requires Settled(t, at)
    ensures at.HasId()
  {
  }

  lemma SettledDown(t: Tables, at: Place)
    requires Settled(t, at)
    ensures SettledBelow(t, at, 0) && at.Segment() == [at.Record()] + at.Below(0)
    ensures Ids(at.Segment()) == {at.Id()} + Ids(at.Below(0))
    ensures Under(t.children, at.Id()) == Elements(KidEdges(at.node, 0))
    ensures at.Record().id == at.Id() && at.Record().pageId == at.Own()
  {
    hide NodeRecord, DistinctNodes, Agrees;
    AgreesBelow(t, at.node, at.parent, at.index, at.page);
    RecordFields(at.node, at.Id(), at.parent, at.index, at.Own());
    Append([at.Record()], at.Below(0));
    assert Ids([at.Record()]) == {at.Id()} by { assert at.Record() in [at.Record()]; }
  }

  lemma {:induction false} KidsSettled(t: Tables, at: Place, i: nat, k: nat)
    requires at.HasId() && SettledBelow(t, at, i) && i <= k < |KidsOf(at.node)|
    ensures at.Child(k).HasId() ==> Settled(t, at.Child(k))
    ensures Stretch(at.Child(k).Segment(), at.Below(i))
    decreases k - i
  {
    hide *;
    SettledSplit(t, at, i);
    if i == k {
      StretchSelf(at.Child(k).Segment());
    } else {
      KidsSettled(t, at, i + 1, k);
    }
    StretchOfAppend(at.Child(k).Segment(), at.Child(i).Segment(), at.Below(i + 1));
  }

  lemma ChildSettled(t: Tables, at: Place, k: nat)
    requires Settled(t, at) && k < |KidsOf(at.node)|
    ensures at.Child(k).HasId() ==> Settled(t, at.Child(k))
    ensures Stretch(at.Child(k).Segment(), at.Segment())
  {
    hide *;
    HasIdOf(t, at);
    SettledDown(t, at);
    KidsSettled(t, at, 0, k);
    StretchOfAppend(at.Child(k).Segment(), [at.Record()], at.Below(0));
  }

  /** Every node of the document is settled, and its segment is contiguous in the whole walk. */
  lemma {:induction false} LocatedSettled(t: Tables, at: Place, steps: seq<nat>)
    requires Settled(t, at) && Locate(at, steps).Some?
    ensures Settled(t, Locate(at, steps).value)
    ensures Stretch(Locate(at, steps).value.Segment(), at.Segment())
    decreases |steps|
  {
    hide Settled, Stretch;
    if steps == [] {
      StretchSelf(at.Segment());
    } else {
      var child := at.Child(steps[0]);
      ChildSettled(t, at, steps[0]);
      LocatedSettled(t, child, steps[1..]);
      StretchTransitive(Locate(at, steps).value.Segment(), child.Segment(), at.Segment());
    }
  }

  /** Every record of a walk heads the segment of some place. */
  lemma {:induction false} RecordLocated(at: Place, r: NodeRec) returns (steps: seq<nat>)
    requires r in at.Segment()
    ensures Locate(at, steps).Some? && Locate(at, steps).value.Record() == r
    decreases at.node, |KidsOf(at.node)| + 1
  {
    hide NodeRecord;
    if r == at.Record() {
      steps := [];
    } else {
      var i, rest := KidLocated(at, 0, r);
      steps := [i] + rest;
      assert steps[1..] == rest;
    }
  }

  lemma {:induction false} KidLocated(at: Place, i: nat, r: NodeRec) returns (k: nat, steps: seq<nat>)
    requires at.HasId() && r in at.Below(i)
    ensures k < |KidsOf(at.node)|
    ensures Locate(at.Child(k), steps).Some? && Locate(at.Child(k), steps).value.Record() == r
    decreases at.node, |KidsOf(at.node)| - i
  {
    hide NodeRecord;
    if r in at.Child(i).Segment() {
      k := i;
      steps := RecordLocated(at.Child(i), r);
    } else {
      k, steps := KidLocated(at, i + 1, r);
    }
  }

  // ---- nested answers ----

  /** What the dump shows of a node: its members, projected, with the shown children in place and its
      bindings resolved. */
  function ShowWith(shape: Shape): (Value, seq<Value>) -> Value {
    (node: Value, kids: seq<Value>) => Dumped(RawOf(node), Aliases.BoundVariables(RawOf(node)), shape, kids)
  }

  function ShowOutline(node: Value, kids: seq<TreeNode>): TreeNode {
    TreeNode(GetOr(IdOf(node), ""), GetOr(StrField(node, "name"), ""), TypeOf(node), kids)
  }

  /** The dump of any node of the synced document, to any depth and under any projection, is what the
      document shows there. */
  lemma DumpShows(t: Tables, at: Place, depth: Option<nat>, shape: Shape, rank: map<string, nat>)
    requires Settled(t, at) && Countable(at.node) && Ends(t, at.Id(), depth, rank)
    ensures DumpOf(t, at.Id(), depth, shape, rank) == Ok(Shown(at.node, depth, ShowWith(shape)))
  {
    DumpCorresponds(shape);
    BuildShows(t, at.node, at.parent, at.index, at.page, depth, DumpWith(shape), ShowWith(shape), rank);
  }

  lemma DumpCorresponds(shape: Shape)
    ensures Corresponds(DumpWith(shape), ShowWith(shape))
  {
    forall node, id, parent, index, page, kids | IdOf(node) == Some(id)
      ensures DumpWith(shape)(NodeRecord(node, id, parent, index, page), kids) == ShowWith(shape)(node, kids)
    {
      hide NodeRecord, Dumped;
      RecordFields(node, id, parent, index, page);
    }
  }

  lemma OutlineShows(t: Tables, at: Place, depth: Option<nat>, rank: map<string, nat>)
    requires Settled(t, at) && Countable(at.node) && Ends(t, at.Id(), depth, rank)
    ensures at.Id() in t.nodes
    ensures Build(t, t.nodes[at.Id()], depth, OutlineOf, rank) == Shown(at.node, depth, ShowOutline)
  {
    assert Corresponds(OutlineOf, ShowOutline);
    BuildShows(t, at.node, at.parent, at.index, at.page, depth, OutlineOf, ShowOutline, rank);
  }

  // ---- the unlimited, unprojected dump ----

  /** Every node below (and including) this one has an id and a `children` array. */
  ghost predicate Complete(node: Value) {
    && IdOf(node).Some?
    && node.Get("children").Some? && node.Get("children").value.Array?
    && forall k <- KidsOf(node) :: Complete(k)
  }

  /** No projection and no annotation. */
  const PLAIN := Shape(None, None)

  /** The full dump of a document, read off the document. */
  function Restored(node: Value): Value {
    Shown(node, None, ShowWith(PLAIN))
  }

  lemma RestoredUnfold(node: Value)
    requires node.Object? && KeySorted(node.fields)
    ensures Restored(node) == Object(SetMember(node.fields, "children", Array(ShownKids(node, 0, None, ShowWith(PLAIN)))))
  {
    SetDropped(node.fields, "children", Array(ShownKids(node, 0, None, ShowWith(PLAIN))));
  }

  lemma {:induction false} RestoredKids(node: Value, i: nat)
    requires node.WellFormed() && i <= |KidsOf(node)|
    ensures |ShownKids(node, i, None, ShowWith(PLAIN))| <= |KidsOf(node)| - i
    ensures ShownKids(node, i, None, ShowWith(PLAIN)) == KidsOf(node)[i..] <==>
      forall k :: i <= k < |KidsOf(node)| ==> Complete(KidsOf(node)[k])
    decreases node, |KidsOf(node)| - i
  {
    hide *;
    NextShown(node, i);
    if i < |KidsOf(node)| {
      var kid := KidsOf(node)[i];
      KidWellFormed(node, i);
      RestoredKids(node, i + 1);
      RestoredIsDocument(kid);
      CompleteHasId(kid);
      var rest, later := ShownKids(node, i + 1, None, ShowWith(PLAIN)), KidsOf(node)[i + 1..];
      assert KidsOf(node)[i..] == [kid] + later;
      if IdOf(kid).Some? {
        SameHead(Restored(kid), rest, kid, later);
      }
    }
  }

  lemma CompleteHasId(node: Value)
    ensures Complete(node) ==> IdOf(node).Some?
  {
  }

  lemma NextShown(node: Value, i: nat)
    ensures i >= |KidsOf(node)| ==> ShownKids(node, i, None, ShowWith(PLAIN)) == []
    ensures i < |KidsOf(node)| ==>
      var head := if IdOf(KidsOf(node)[i]).Some? then [Restored(KidsOf(node)[i])] else [];
      ShownKids(node, i, None, ShowWith(PLAIN)) == head + ShownKids(node, i + 1, None, ShowWith(PLAIN))
  {
    hide ShowWith, IdOf, KidsOf;
  }

  lemma SameHead(x: Value, xs: seq<Value>, y: Value, ys: seq<Value>)
    ensures [x] + xs == [y] + ys <==> x == y && xs == ys
  {
    if [x] + xs == [y] + ys {
      assert ([x] + xs)[0] == x && ([y] + ys)[0] == y;
      assert ([x] + xs)[1..] == xs && ([y] + ys)[1..] == ys;
    }
  }

  lemma KidWellFormed(node: Value, i: nat)
    requires node.WellFormed() && i < |KidsOf(node)|
    ensures KidsOf(node)[i].WellFormed() && KidsOf(node)[i] < node
  {
  }

  /** The full dump of a node equals the node exactly when every node in it has an id and a children
      array; otherwise it differs by the missing arrays, put in empty, and the nodes without ids. */
  lemma {:induction false} RestoredIsDocument(node: Value)
    requires node.WellFormed()
    ensures IdOf(node).Some? ==> (Restored(node) == node <==> Complete(node))
    decreases node, |KidsOf(node)| + 1
  {
    if IdOf(node).Some? {
      RestoredUnfold(node);
      RestoredKids(node, 0);
      var kids := ShownKids(node, 0, None, ShowWith(PLAIN));
      SetSame(node.fields, "children", Array(kids));
      assert KidsOf(node)[0..] == KidsOf(node);
    }
  }
}
