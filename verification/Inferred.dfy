/** Variable inference over a mirrored document: what is reported of a variable, in terms of the document. */
module Inferred {
  import opened Basics
  import opened Json
  import opened Model
  import opened Store
  import opened Flatten
  import opened WalkShape
  import opened Aliases
  import opened AliasSites
  import opened Pointers
  import opened Vars
  import opened Restore
  import opened Answers
  import opened Mirror
  import Exact

  /** Some node of the document holds `x` where one of its alias sites for `v` is. */
  ghost predicate HeldAt(document: Value, v: string, steps: seq<nat>, p: seq<string>, q: seq<string>, x: Value) {
    && Locate(Top(document), steps).Some?
    && Site(RawOf(Locate(Top(document), steps).value.node), p, q, v)
    && At(RawOf(Locate(Top(document), steps).value.node), p + q) == Some(x)
  }

  /** No node of the document has a separator or an escape in a key on the way to an alias of `v`. */
  ghost predicate PlainFor(document: Value, v: string) {
    forall steps :: Locate(Top(document), steps).Some? ==>
      PlainSites(RawOf(Locate(Top(document), steps).value.node), v)
  }

  /** The nodes of a table that holds a walk are the walk's records. */
  lemma TableIsWalk(t: Tables, walk: seq<NodeRec>, nodes: seq<NodeRec>, n: NodeRec)
    requires Holds(t, walk) && Elements(nodes) == t.nodes.Values
    ensures n in nodes <==> n in walk
  {
    assert n in nodes <==> n in Elements(nodes);
    if n in t.nodes.Values {
      var id :| id in t.nodes && t.nodes[id] == n;
      InWalk(t, walk, id);
    }
    if n in walk {
      assert n.id in Ids(walk) && t.nodes[n.id] == n;
      assert n.id in t.nodes;
    }
  }

  lemma LocatedRecord(at: Place, steps: seq<nat>)
    requires Locate(at, steps).Some?
    ensures Locate(at, steps).value.Record() in at.Segment()
    decreases |steps|
  {
    hide NodeRecord;
    if steps != [] {
      LocatedRecord(at.Child(steps[0]), steps[1..]);
      InKids(at, 0, steps[0], Locate(at, steps).value.Record());
    }
  }

  lemma {:induction false} InKids(at: Place, i: nat, k: nat, r: NodeRec)
    requires at.HasId() && i <= k < |KidsOf(at.node)| && r in at.Child(k).Segment()
    ensures r in at.Below(i)
    decreases k - i
  {
    hide NodeRecord;
    if i < k {
      InKids(at, i + 1, k, r);
    }
  }

  lemma RecordReads(at: Place)
    requires at.HasId()
    ensures at.Record().raw == RawOf(at.node) && at.Record().boundVariables == BoundVariables(RawOf(at.node))
  {
    RecordFields(at.node, at.Id(), at.parent, at.index, at.Own());
  }

  lemma RawWellFormed(node: Value)
    requires node.WellFormed() && IdOf(node).Some?
    ensures RawOf(node).WellFormed()
  {
    hide DropMember;
    DropKeeps(node.fields, "children");
  }

  /** One node's part in what is observed. */
  lemma NodeObserves(document: Value, steps: seq<nat>, v: string, x: Value)
    requires document.WellFormed() && PlainFor(document, v) && Locate(Top(document), steps).Some?
    ensures var r := Locate(Top(document), steps).value.Record();
      (exists b <- r.boundVariables :: b.1 == v && Pointer(r.raw, b.0) == Some(x)) <==>
        (exists p, q :: HeldAt(document, v, steps, p, q, x))
  {
    var at := Locate(Top(document), steps).value;
    Exact.LocatedWellFormed(Top(document), steps);
    hide PlainSites, Site, At, Pointer, BoundVariables, RawOf, NodeRecord;
    RawWellFormed(at.node);
    RecordReads(at);
    ObservedAtSites(RawOf(at.node), v, x);
    if p, q :| Site(RawOf(at.node), p, q, v) && At(RawOf(at.node), p + q) == Some(x) {
      assert HeldAt(document, v, steps, p, q, x);
    }
    if p, q :| HeldAt(document, v, steps, p, q, x) {
      assert Site(RawOf(at.node), p, q, v) && At(RawOf(at.node), p + q) == Some(x);
    }
  }

  /** What inference on a mirrored document observes of a variable are exactly the printed values that its
      nodes hold where their alias sites for it are. */
  lemma InferredFromDocument(t: Tables, resp: Value, nodes: seq<NodeRec>, v: string, print_: Printer, text: string)
    requires resp.WellFormed() && Holds(t, WalkOf(resp)) && Elements(nodes) == t.nodes.Values
    requires PlainFor(DocumentOf(resp), v)
    ensures text in Observed(nodes, v, print_) <==>
      exists steps, p, q, x :: HeldAt(DocumentOf(resp), v, steps, p, q, x) && text == print_(x)
  {
    hide *;
    var document := DocumentOf(resp);
    DocumentWellFormed(resp);
    WalkTop(resp);
    ValueIsPointedAt(nodes, v, print_, text);
    if n, b :| n in nodes && b in n.boundVariables && b.1 == v && Pointer(n.raw, b.0).Some?
               && text == print_(Pointer(n.raw, b.0).value) {
      TableIsWalk(t, WalkOf(resp), nodes, n);
      var steps := RecordLocated(Top(document), n);
      NodeObserves(document, steps, v, Pointer(n.raw, b.0).value);
      var p, q :| HeldAt(document, v, steps, p, q, Pointer(n.raw, b.0).value);
    }
    if steps, p, q, x :| HeldAt(document, v, steps, p, q, x) && text == print_(x) {
      HeldIsLocated(document, v, steps, p, q, x);
      LocatedRecord(Top(document), steps);
      var n := Locate(Top(document), steps).value.Record();
      TableIsWalk(t, WalkOf(resp), nodes, n);
      NodeObserves(document, steps, v, x);
      var b :| b in n.boundVariables && b.1 == v && Pointer(n.raw, b.0) == Some(x);
    }
  }

  lemma HeldIsLocated(document: Value, v: string, steps: seq<nat>, p: seq<string>, q: seq<string>, x: Value)
    requires HeldAt(document, v, steps, p, q, x)
    ensures Locate(Top(document), steps).Some?
  {
  }
}
