/** Which member of a document node each part of its stored row is, and where the node stands: said with the
    members' own names. */
module Fields {
  import opened Basics
  import opened Json
  import opened Model
  import opened Store
  import opened Flatten
  import opened WalkShape
  import opened Pulls
  import opened Answers
  import opened Mirror
  import opened Aliases
  import opened AliasSites
  import Exact
  import Inferred

  // ---- single members ----

  /** The text under `k`, if there is one. */
  predicate TextAt(v: Value, k: string, o: Option<string>) {
    match v.Get(k)
    case Some(Str(s)) => o == Some(s)
    case _ => o == None
  }

  predicate TextOr(v: Value, k: string, s: string, default: string) {
    match v.Get(k)
    case Some(Str(x)) => s == x
    case _ => s == default
  }

  predicate FlagOr(v: Value, k: string, b: bool, default: bool) {
    match v.Get(k)
    case Some(Bool(x)) => b == x
    case _ => b == default
  }

  predicate Measures(v: Value, k: string, x: real) {
    match v.Get(k)
    case Some(Number(Whole(i))) => x == i as real
    case Some(Number(Fraction(r))) => x == r
    case _ => false
  }

  /** The member `k` of the member `outer`. */
  function Inner(v: Value, outer: string, k: string): Option<Value> {
    match v.Get(outer)
    case Some(o) => o.Get(k)
    case None => None
  }

  ghost predicate InOrder<T>(pairs: seq<(string, T)>) {
    forall i, j :: 0 <= i < j < |pairs| ==> StringLess(pairs[i].0, pairs[j].0)
  }

  /** The box is there exactly when all four measures are. */
  ghost predicate BoxReads(node: Value, o: Option<Bounds>) {
    forall b: Bounds :: o == Some(b) <==>
      match node.Get("absoluteBoundingBox")
      case Some(box) => Measures(box, "x", b.x) && Measures(box, "y", b.y)
        && Measures(box, "width", b.width) && Measures(box, "height", b.height)
      case None => false
  }

  // ---- one node ----

  /** `r` reads `node`: each field under its own name. */
  ghost predicate Reads(node: Value, r: NodeRec) {
    ReadsScalars(node, r) && ReadsPairs(node, r) && ReadsRaw(node, r)
  }

  ghost predicate ReadsScalars(node: Value, r: NodeRec) {
    && node.Get("id") == Some(Str(r.id))
    && TextOr(node, "type", r.nodeType, "UNKNOWN") && TextOr(node, "name", r.name, "")
    && FlagOr(node, "visible", r.visible, true)
    && TextAt(node, "characters", r.text) && TextAt(node, "componentId", r.componentId)
    && r.propertyDefinitions == node.Get("componentPropertyDefinitions")
    && BoxReads(node, r.absBounds)
  }

  ghost predicate ReadsPairs(node: Value, r: NodeRec) {
    && InOrder(r.componentProperties) && InOrder(r.styleRefs)
    && (forall k, x :: (k, x) in r.componentProperties <==>
          && Inner(node, "componentProperties", k).Some?
          && Inner(node, "componentProperties", k).value.Get("value") == Some(x))
    && (forall k, s :: (k, s) in r.styleRefs <==> Inner(node, "styles", k) == Some(Str(s)))
  }

  ghost predicate ReadsRaw(node: Value, r: NodeRec) {
    && r.raw.Object? && KeySorted(r.raw.fields)
    && (forall k :: r.raw.Get(k) == if k == "children" then None else node.Get(k))
    && Increasing(PairLess, r.boundVariables)
    && (forall b :: b in r.boundVariables <==> exists p, q :: OwnSite(node, p, q, b.1) && b.0 == PointerText(p + q))
  }

  /** An alias site of the node's own, not of one below its `children`. */
  ghost predicate OwnSite(node: Value, p: seq<string>, q: seq<string>, id: string) {
    Site(node, p, q, id) && (p == [] || p[0] != "children")
  }

  lemma {:induction false} SortedMapIs<T>(fields: seq<Field>, f: Value -> Option<T>)
    requires KeySorted(fields)
    ensures InOrder(SortedMap(fields, f))
    ensures forall p <- SortedMap(fields, f) :: exists x <- fields :: x.key == p.0 && f(x.value) == Some(p.1)
    ensures forall x <- fields :: f(x.value).Some? ==> (x.key, f(x.value).value) in SortedMap(fields, f)
  {
    hide StringLess;
    if fields != [] {
      SortedMapIs(fields[1..], f);
      assert fields == [fields[0]] + fields[1..];
      var rest := SortedMap(fields[1..], f);
      forall p | p in rest ensures StringLess(fields[0].key, p.0) {
        var x :| x in fields[1..] && x.key == p.0 && f(x.value) == Some(p.1);
      }
    }
  }

  lemma PairsFound<T(!new)>(v: Value, outer: string, f: Value -> Option<T>, k: string, x: T)
    requires v.WellFormed()
    ensures InOrder(SortedMap(FieldsOf(v.Get(outer)), f))
    ensures (k, x) in SortedMap(FieldsOf(v.Get(outer)), f) <==>
      Inner(v, outer, k).Some? && f(Inner(v, outer, k).value) == Some(x)
  {
    hide SortedMap, InOrder, StringLess;
    var fields := FieldsOf(v.Get(outer));
    if v.Get(outer).Some? {
      assert v.Get(outer).value.WellFormed();
    }
    SortedMapIs(fields, f);
    assert Inner(v, outer, k) == Find(fields, k);
    if (k, x) in SortedMap(fields, f) {
      var y :| y in fields && y.key == k && f(y.value) == Some(x);
      var i :| 0 <= i < |fields| && fields[i] == y;
      FindUnique(fields, i);
    }
    if Inner(v, outer, k).Some? && f(Inner(v, outer, k).value) == Some(x) {
      var i :| 0 <= i < |fields| && fields[i] == Field(k, Inner(v, outer, k).value);
      assert fields[i] in fields;
    }
  }

  lemma RecordReadsPairs(node: Value, id: string, parent: Option<string>, index: nat, page: string)
    requires node.WellFormed()
    ensures ReadsPairs(node, NodeRecord(node, id, parent, index, page))
  {
    hide SortedMap, FieldsOf, InOrder, Inner, Aliases.BoundVariables, RawOf, BoundsOf;
    forall k, x { PairsFound(node, "componentProperties", (v: Value) => v.Get("value"), k, x); }
    PairsFound(node, "componentProperties", (v: Value) => v.Get("value"), "", Null);
    forall k, s { PairsFound(node, "styles", (v: Value) => v.AsStr(), k, s); }
    PairsFound(node, "styles", (v: Value) => v.AsStr(), "", "");
  }

  lemma RawReads(node: Value)
    requires node.WellFormed() && IdOf(node).Some?
    ensures RawOf(node).Object? && KeySorted(RawOf(node).fields) && RawOf(node).WellFormed()
    ensures forall k :: RawOf(node).Get(k) == if k == "children" then None else node.Get(k)
  {
    Inferred.RawWellFormed(node);
    hide DropMember, Find, KeySorted;
    DropKeeps(node.fields, "children");
    forall k { FindDropped(node.fields, "children", k); }
  }

  lemma RawSite(node: Value, p: seq<string>, q: seq<string>, id: string)
    requires node.WellFormed() && IdOf(node).Some?
    ensures Site(RawOf(node), p, q, id) <==> OwnSite(node, p, q, id)
  {
    hide Site, Find, AliasAt, DropMember, KeySorted, At;
    if p == [] {
      SiteHere(RawOf(node), q, id);
      SiteHere(node, q, id);
      FindDropped(node.fields, "children", "boundVariables");
      assert "boundVariables" != "children";
    } else {
      SiteUnfold(RawOf(node), p, q, id);
      SiteUnfold(node, p, q, id);
      FindDropped(node.fields, "children", p[0]);
    }
  }

  lemma BindingRead(node: Value, b: Binding)
    requires node.WellFormed() && IdOf(node).Some?
    ensures b in BoundVariables(RawOf(node)) <==> exists p, q :: OwnSite(node, p, q, b.1) && b.0 == PointerText(p + q)
  {
    RawReads(node);
    hide *;
    ScanIsSites(RawOf(node), b.0, b.1);
    if p, q :| Site(RawOf(node), p, q, b.1) && b.0 == PointerText(p + q) {
      RawSite(node, p, q, b.1);
      assert OwnSite(node, p, q, b.1);
    }
    if p, q :| OwnSite(node, p, q, b.1) && b.0 == PointerText(p + q) {
      RawSite(node, p, q, b.1);
      assert Site(RawOf(node), p, q, b.1);
    }
  }

  lemma BindingsSorted(node: Value)
    requires node.WellFormed() && IdOf(node).Some?
    ensures Increasing(PairLess, BoundVariables(RawOf(node)))
  {
    RawReads(node);
    hide *;
    ScanIsSites(RawOf(node), "", "");
  }

  lemma RawRead(node: Value, r: NodeRec)
    requires node.WellFormed() && IdOf(node).Some?
    requires r.raw == RawOf(node) && r.boundVariables == BoundVariables(RawOf(node))
    ensures ReadsRaw(node, r)
  {
    RawReads(node);
    hide RawOf, KeySorted, OwnSite, BoundVariables, PointerText, Increasing, Value.Get, Value.WellFormed;
    BindingsSorted(node);
    forall b: Binding { BindingRead(node, b); }
  }

  lemma RecordReadsRaw(node: Value, id: string, parent: Option<string>, index: nat, page: string)
    requires node.WellFormed() && IdOf(node) == Some(id)
    ensures ReadsRaw(node, NodeRecord(node, id, parent, index, page))
  {
    RecordFields(node, id, parent, index, page);
    hide *;
    RawRead(node, NodeRecord(node, id, parent, index, page));
  }

  lemma BoundsRead(node: Value)
    ensures BoxReads(node, BoundsOf(node))
  {
  }

  lemma RecordScalars(node: Value, id: string, parent: Option<string>, index: nat, page: string)
    requires IdOf(node) == Some(id)
    ensures ReadsScalars(node, NodeRecord(node, id, parent, index, page))
  {
    hide SortedMap, Aliases.BoundVariables, RawOf, BoundsOf, BoxReads, Find;
    BoundsRead(node);
  }

  lemma RecordReads(node: Value, id: string, parent: Option<string>, index: nat, page: string)
    requires node.WellFormed() && IdOf(node) == Some(id)
    ensures Reads(node, NodeRecord(node, id, parent, index, page))
  {
    RecordScalars(node, id, parent, index, page);
    RecordReadsPairs(node, id, parent, index, page);
    RecordReadsRaw(node, id, parent, index, page);
    hide NodeRecord, ReadsScalars, ReadsPairs, ReadsRaw;
  }

  // ---- where a node stands ----

  /** The node reached from `node` through the children numbered `steps`; a node without an id hides
      everything below it. */
  function NodeAt(node: Value, steps: seq<nat>): Option<Value>
    decreases |steps|
  {
    match node.Get("id")
    case Some(Str(_)) =>
      if steps == [] then Some(node) else
        (match node.Get("children")
         case Some(Array(items)) => if steps[0] < |items| then NodeAt(items[steps[0]], steps[1..]) else None
         case _ => None)
    case _ => None
  }

  lemma {:induction false} LocateIsNodeAt(at: Place, steps: seq<nat>)
    ensures Locate(at, steps).Some? <==> NodeAt(at.node, steps).Some?
    ensures Locate(at, steps).Some? ==> Locate(at, steps).value.node == NodeAt(at.node, steps).value
    decreases |steps|
  {
    if at.HasId() && steps != [] && steps[0] < |KidsOf(at.node)| {
      LocateIsNodeAt(at.Child(steps[0]), steps[1..]);
    }
  }

  predicate IsPage(node: Value) {
    node.Get("type") == Some(Str("DOCUMENT")) || node.Get("type") == Some(Str("CANVAS"))
  }

  /** The nearest page on the way to `steps`, the node itself included, is `j` steps down. */
  ghost predicate NearestPage(document: Value, steps: seq<nat>, j: nat) {
    && j <= |steps| && NodeAt(document, steps[..j]).Some?
    && (j > 0 ==> IsPage(NodeAt(document, steps[..j]).value))
    && forall i :: j < i <= |steps| && NodeAt(document, steps[..i]).Some? ==> !IsPage(NodeAt(document, steps[..i]).value)
  }

  /** `page` is the id of the nearest page, or of the root where none is nearer. */
  ghost predicate OnPage(document: Value, steps: seq<nat>, page: string) {
    exists j: nat :: NearestPage(document, steps, j) && NodeAt(document, steps[..j]).value.Get("id") == Some(Str(page))
  }

  /** `r` is the record of the node at `steps`: its fields, its parent, its place among the children, and
      the page it is on. */
  ghost predicate StandsAt(document: Value, steps: seq<nat>, r: NodeRec) {
    && NodeAt(document, steps).Some? && Reads(NodeAt(document, steps).value, r)
    && (steps == [] ==> r.parentId == None && r.childIndex == 0)
    && (steps != [] ==>
          && r.childIndex == steps[|steps| - 1] % 0x1_0000_0000 && r.parentId.Some?
          && NodeAt(document, steps[..|steps| - 1]).Some?
          && NodeAt(document, steps[..|steps| - 1]).value.Get("id") == Some(Str(r.parentId.value)))
    && OnPage(document, steps, r.pageId)
  }

  lemma LocateStep(at: Place, steps: seq<nat>)
    requires steps != []
    ensures Locate(at, steps).Some? <==>
      at.HasId() && steps[0] < |KidsOf(at.node)| && Locate(at.Child(steps[0]), steps[1..]).Some?
    ensures Locate(at, steps).Some? ==> Locate(at, steps) == Locate(at.Child(steps[0]), steps[1..])
    ensures Locate(at, []) == if at.HasId() then Some(at) else None
  {
  }

  lemma FrontOfRest(steps: seq<nat>)
    requires |steps| > 1
    ensures steps[..|steps| - 1] != [] && steps[..|steps| - 1][0] == steps[0]
    ensures steps[..|steps| - 1][1..] == steps[1..][..|steps[1..]| - 1]
  {
  }

  /** A place is its parent's child. */
  lemma {:induction false} LocateLast(at: Place, steps: seq<nat>)
    requires Locate(at, steps).Some? && steps != []
    ensures var front, k := steps[..|steps| - 1], steps[|steps| - 1];
      && Locate(at, front).Some? && k < |KidsOf(Locate(at, front).value.node)|
      && Locate(at, steps).value == Locate(at, front).value.Child(k)
    decreases |steps|
  {
    hide *;
    LocateStep(at, steps);
    var child := at.Child(steps[0]);
    if |steps| > 1 {
      FrontOfRest(steps);
      LocateLast(child, steps[1..]);
      LocateStep(at, steps[..|steps| - 1]);
    } else {
      assert steps[1..] == [] && steps[..0] == [];
      LocateStep(child, [0]);
    }
  }

  lemma PlaceId(at: Place)
    requires at.HasId()
    ensures at.node.Get("id") == Some(Str(at.Id()))
    ensures at.Own() == if IsPage(at.node) then at.Id() else GetOr(at.page, at.Id())
  {
  }

  /** The nearest page one step further down. */
  lemma NearestBelow(document: Value, steps: seq<nat>, up: nat)
    requires steps != [] && NodeAt(document, steps).Some? && NearestPage(document, steps[..|steps| - 1], up)
    ensures var j := if IsPage(NodeAt(document, steps).value) then |steps| else up;
      && NearestPage(document, steps, j)
      && (j == up ==> steps[..|steps| - 1][..up] == steps[..up])
  {
    hide IsPage, NodeAt;
    var front := steps[..|steps| - 1];
    assert steps[..|steps|] == steps && front[..up] == steps[..up];
    forall i | up < i <= |steps| && NodeAt(document, steps[..i]).Some? && !IsPage(NodeAt(document, steps).value)
      ensures !IsPage(NodeAt(document, steps[..i]).value)
    {
      if i < |steps| {
        assert steps[..i] == front[..i];
      }
    }
  }

  lemma {:induction false} OnNearest(document: Value, steps: seq<nat>) returns (j: nat)
    requires Locate(Top(document), steps).Some?
    ensures NearestPage(document, steps, j)
    ensures NodeAt(document, steps[..j]).value.Get("id") == Some(Str(Locate(Top(document), steps).value.Own()))
    decreases |steps|
  {
    var at := Locate(Top(document), steps).value;
    hide IsPage, NodeAt, Locate, NearestPage;
    LocateTop(document, steps);
    PlaceId(at);
    assert steps[..|steps|] == steps;
    if steps == [] {
      j := 0;
      TopPlace(document);
      NearestTop(document);
    } else {
      LocateLast(Top(document), steps);
      var up := OnNearest(document, steps[..|steps| - 1]);
      NearestBelow(document, steps, up);
      j := if IsPage(at.node) then |steps| else up;
    }
  }

  lemma NearestTop(document: Value)
    ensures NodeAt(document, []).Some? ==> NearestPage(document, [], 0)
  {
    hide NodeAt, IsPage;
    var none: seq<nat> := [];
    assert none[..0] == none;
  }

  lemma TopPlace(document: Value)
    ensures Locate(Top(document), []).Some? ==> Locate(Top(document), []).value == Top(document)
    ensures Top(document).page == None && Top(document).parent == None && Top(document).index == 0
  {
  }

  lemma PlaceStands(document: Value, steps: seq<nat>)
    requires document.WellFormed() && Locate(Top(document), steps).Some?
    ensures StandsAt(document, steps, Locate(Top(document), steps).value.Record())
  {
    var at := Locate(Top(document), steps).value;
    hide Reads, NodeRecord, Locate, NodeAt, NearestPage;
    Exact.LocatedWellFormed(Top(document), steps);
    RecordReads(at.node, at.Id(), at.parent, at.index, at.Own());
    RecordFields(at.node, at.Id(), at.parent, at.index, at.Own());
    LocateIsNodeAt(Top(document), steps);
    TopPlace(document);
    var j := OnNearest(document, steps);
    if steps != [] {
      LocateLast(Top(document), steps);
      LocateIsNodeAt(Top(document), steps[..|steps| - 1]);
      PlaceId(Locate(Top(document), steps[..|steps| - 1]).value);
    }
  }

  // ---- what a mirror stores ----

  /** After any run that leaves a document with distinct ids, each node of it is stored as it stands
      there, and no other node is stored. */
  lemma RunNodes(rows: Rows, events: seq<Event>, id: string)
    requires (forall e <- events :: Sound(e)) && Current(events).Some? && DistinctNodes(WalkOf(Current(events).value))
    ensures var document := DocumentOf(Current(events).value);
      var row := Lookup(Run(rows, events), NodeId(id));
      && (row.Some? ==> row.value.Node? && exists steps :: StandsAt(document, steps, row.value.node))
      && (row.Some? <==> exists steps ::
            NodeAt(document, steps).Some? && NodeAt(document, steps).value.Get("id") == Some(Str(id)))
      && forall steps :: NodeAt(document, steps).Some? && NodeAt(document, steps).value.Get("id") == Some(Str(id)) ==>
           StandsAt(document, steps, row.value.node)
  {
    var resp := Current(events).value;
    var document, after := DocumentOf(resp), Run(rows, events);
    hide *;
    RunMirrors(rows, events);
    DocumentWellFormed(resp);
    WalkTop(resp);
    MirroredNode(after, resp, id);
    InIdsOf(WalkOf(resp), id);
    LookupIs(after, NodeId(id));
    if NodeId(id) in after {
      var r :| r in WalkOf(resp) && r.id == id;
      var steps := RecordLocated(Top(document), r);
      PlaceStands(document, steps);
      LocateIsNodeAt(Top(document), steps);
      LocatedIds(document, steps);
      assert StandsAt(document, steps, r);
      IsNode(r);
    }
    forall steps | NodeAt(document, steps).Some? && NodeAt(document, steps).value.Get("id") == Some(Str(id))
      ensures NodeId(id) in after && after[NodeId(id)].Node? && StandsAt(document, steps, after[NodeId(id)].node)
    {
      LocateTop(document, steps);
      LocatedIds(document, steps);
      Inferred.LocatedRecord(Top(document), steps);
      PlaceStands(document, steps);
      IsNode(Locate(Top(document), steps).value.Record());
    }
  }

  lemma LocateTop(document: Value, steps: seq<nat>)
    ensures Locate(Top(document), steps).Some? <==> NodeAt(document, steps).Some?
    ensures Locate(Top(document), steps).Some? ==> Locate(Top(document), steps).value.node == NodeAt(document, steps).value
  {
    LocateIsNodeAt(Top(document), steps);
  }

  lemma InIdsOf(walk: seq<NodeRec>, id: string)
    ensures id in Ids(walk) <==> exists r <- walk :: r.id == id
  {
  }

  lemma LookupIs(rows: Rows, id: Id)
    ensures Lookup(rows, id) == if id in rows then Some(rows[id]) else None
  {
  }

  lemma IsNode(r: NodeRec)
    ensures Node(r).Node? && Node(r).node == r
  {
  }

  lemma LocatedIds(document: Value, steps: seq<nat>)
    requires Locate(Top(document), steps).Some?
    ensures var at := Locate(Top(document), steps).value;
      at.node.Get("id") == Some(Str(at.Record().id))
  {
    var at := Locate(Top(document), steps).value;
    PlaceId(at);
    RecordFields(at.node, at.Id(), at.parent, at.index, at.Own());
  }
}
