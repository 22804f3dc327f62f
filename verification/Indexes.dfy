/** What each index of a store is keyed by, on any store and on one synced from a document. */
module Indexes {
  import opened Basics
  import opened Json
  import opened Model
  import opened Store
  import opened WalkShape
  import opened Restore
  import opened Answers
  import opened Mirror
  import opened Aliases
  import Inferred
  import Vars
  import opened Fields

  /** A node consumes a style exactly when some slot of its style references holds the style's id. */
  lemma StyledByIs(t: Tables, s: string, id: string)
    requires Indexed(t)
    ensures (s, id) in t.styledBy <==> id in t.nodes && exists r <- t.nodes[id].styleRefs :: r.1 == s
  {
    if (s, id) in t.styledBy {
      var x :| x in t.nodes && (s, id) in StyleSet(t.nodes[x]);
      var n := t.nodes[x];
      var k :| 0 <= k < |StyleEdges(n)| && StyleEdges(n)[k] == (s, id);
      assert n.styleRefs[k] in n.styleRefs;
    }
    if id in t.nodes {
      var n := t.nodes[id];
      if r :| r in n.styleRefs && r.1 == s {
        var k :| 0 <= k < |n.styleRefs| && n.styleRefs[k] == r;
        assert StyleEdges(n)[k] == (s, id);
        assert (s, id) in StyleSet(t.nodes[id]);
      }
    }
  }

  lemma InstancesOfIs(t: Tables, c: string, id: string)
    requires Indexed(t)
    ensures (c, id) in t.instancesOf <==> id in t.nodes && t.nodes[id].componentId == Some(c)
  {
    if (c, id) in t.instancesOf {
      var x :| x in t.nodes && (c, id) in InstanceSet(t.nodes[x]);
    }
    if id in t.nodes && t.nodes[id].componentId == Some(c) {
      assert (c, id) in InstanceSet(t.nodes[id]);
    }
  }

  lemma ByTypeIs(t: Tables, nodeType: string, id: string)
    requires Indexed(t)
    ensures (nodeType, id) in t.byType <==> id in t.nodes && t.nodes[id].nodeType == nodeType
  {
    if (nodeType, id) in t.byType {
      var x :| x in t.nodes && (nodeType, id) in TypeSet(t.nodes[x]);
    }
    if id in t.nodes && t.nodes[id].nodeType == nodeType {
      assert (nodeType, id) in TypeSet(t.nodes[id]);
    }
  }

  lemma ChildrenAre(t: Tables, p: string, i: nat, id: string)
    requires Indexed(t)
    ensures (p, (i, id)) in t.children <==>
      id in t.nodes && t.nodes[id].parentId == Some(p) && t.nodes[id].childIndex == i
  {
    if (p, (i, id)) in t.children {
      var x :| x in t.nodes && (p, (i, id)) in ChildSet(t.nodes[x]);
    }
    if id in t.nodes && t.nodes[id].parentId == Some(p) && t.nodes[id].childIndex == i {
      assert (p, (i, id)) in ChildSet(t.nodes[id]);
    }
  }

  /** The node with this id stands at `steps`. */
  ghost predicate NodeWithId(document: Value, steps: seq<nat>, id: string) {
    NodeAt(document, steps).Some? && NodeAt(document, steps).value.Get("id") == Some(Str(id))
  }

  /** In a store that holds the document, every stored node stands in it and every node in it is stored. */
  lemma HeldStands(t: Tables, resp: Value, id: string)
    requires resp.WellFormed() && Holds(t, WalkOf(resp))
    ensures forall steps :: NodeWithId(DocumentOf(resp), steps, id) ==>
      id in t.nodes && t.nodes[id].id == id && StandsAt(DocumentOf(resp), steps, t.nodes[id])
    ensures id in t.nodes ==> exists steps :: NodeWithId(DocumentOf(resp), steps, id)
  {
    hide *;
    var document := DocumentOf(resp);
    DocumentWellFormed(resp);
    WalkTop(resp);
    forall steps | NodeWithId(document, steps, id)
      ensures id in t.nodes && t.nodes[id].id == id && StandsAt(document, steps, t.nodes[id])
    {
      WithId(document, steps, id);
      LocateTop(document, steps);
      LocatedIds(document, steps);
      Inferred.LocatedRecord(Top(document), steps);
      PlaceStands(document, steps);
      HeldRecord(t, WalkOf(resp), Locate(Top(document), steps).value.Record());
    }
    if id in t.nodes {
      InWalk(t, WalkOf(resp), id);
      var steps := RecordLocated(Top(document), t.nodes[id]);
      LocatedIds(document, steps);
      LocateTop(document, steps);
      WithId(document, steps, id);
    }
  }

  lemma WithId(document: Value, steps: seq<nat>, id: string)
    ensures NodeWithId(document, steps, id) <==>
      NodeAt(document, steps).Some? && NodeAt(document, steps).value.Get("id") == Some(Str(id))
  {
  }

  lemma HeldRecord(t: Tables, walk: seq<NodeRec>, r: NodeRec)
    requires Holds(t, walk) && r in walk
    ensures r.id in t.nodes && t.nodes[r.id] == r
  {
    assert r.id in Ids(walk);
  }

  /** Some slot of the node's `styles` holds `s`. */
  ghost predicate HasStyle(node: Value, s: string) {
    exists k :: Inner(node, "styles", k) == Some(Str(s))
  }

  ghost predicate HasAlias(node: Value, v: string) {
    exists p, q :: OwnSite(node, p, q, v)
  }

  lemma StyleRefs(node: Value, r: NodeRec, s: string)
    requires ReadsPairs(node, r)
    ensures (exists p <- r.styleRefs :: p.1 == s) <==> HasStyle(node, s)
  {
    hide InOrder, Inner;
    if k :| Inner(node, "styles", k) == Some(Str(s)) {
      assert (k, s) in r.styleRefs;
    }
    if p :| p in r.styleRefs && p.1 == s {
      assert (p.0, s) in r.styleRefs;
    }
  }

  lemma BoundRefs(node: Value, r: NodeRec, v: string)
    requires ReadsRaw(node, r)
    ensures (exists b <- r.boundVariables :: b.1 == v) <==> HasAlias(node, v)
  {
    hide OwnSite, PointerText, KeySorted;
    if p, q :| OwnSite(node, p, q, v) {
      var b := (PointerText(p + q), v);
      assert b in r.boundVariables;
    }
    if b :| b in r.boundVariables && b.1 == v {
      var p, q :| OwnSite(node, p, q, b.1) && b.0 == PointerText(p + q);
    }
  }

  lemma StandingReads(document: Value, steps: seq<nat>, r: NodeRec, term: string)
    requires StandsAt(document, steps, r)
    ensures NodeAt(document, steps).Some?
    ensures var node := NodeAt(document, steps).value;
      && (r.componentId == Some(term) <==> node.Get("componentId") == Some(Str(term)))
      && ((exists p <- r.styleRefs :: p.1 == term) <==> HasStyle(node, term))
      && (r.nodeType == term <==> TextOr(node, "type", term, "UNKNOWN"))
      && ((exists b <- r.boundVariables :: b.1 == term) <==> HasAlias(node, term))
  {
    var node := NodeAt(document, steps).value;
    hide NodeAt, ReadsPairs, ReadsRaw, BoxReads, HasStyle, HasAlias;
    StyleRefs(node, r, term);
    BoundRefs(node, r, term);
  }

  /** In a synced store a style's consumers are exactly the document nodes with that id in one of their own
      `styles` slots, a component's instances those naming it in their own `componentId`, and a variable's
      consumers those with an alias of it below a `boundVariables` object of their own. */
  lemma ConsumersInDocument(t: Tables, resp: Value, term: string, id: string)
    requires resp.WellFormed() && Holds(t, WalkOf(resp))
    ensures (term, id) in t.styledBy <==>
      exists steps :: NodeWithId(DocumentOf(resp), steps, id) && HasStyle(NodeAt(DocumentOf(resp), steps).value, term)
    ensures (term, id) in t.instancesOf <==>
      exists steps :: NodeWithId(DocumentOf(resp), steps, id)
                      && NodeAt(DocumentOf(resp), steps).value.Get("componentId") == Some(Str(term))
    ensures (term, id) in t.boundTo <==>
      exists steps :: NodeWithId(DocumentOf(resp), steps, id) && HasAlias(NodeAt(DocumentOf(resp), steps).value, term)
    ensures (term, id) in t.byType <==>
      exists steps :: NodeWithId(DocumentOf(resp), steps, id)
                      && TextOr(NodeAt(DocumentOf(resp), steps).value, "type", term, "UNKNOWN")
  {
    var document := DocumentOf(resp);
    HoldsIndexed(t, resp);
    hide *;
    StyledByIs(t, term, id);
    InstancesOfIs(t, term, id);
    ByTypeIs(t, term, id);
    Vars.PostingIsBinding(t, term, id);
    HeldStands(t, resp, id);
    forall steps | NodeWithId(document, steps, id) {
      StandingReads(document, steps, t.nodes[id], term);
    }
  }

  lemma HoldsIndexed(t: Tables, resp: Value)
    requires Holds(t, WalkOf(resp))
    ensures Indexed(t)
  {
  }
}
