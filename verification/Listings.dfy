/** The rows of the node and text listings of a synced store, read off the document. */
module Listings {
  import opened Basics
  import opened Json
  import opened Model
  import opened Store
  import opened Flatten
  import opened Query
  import opened Restore
  import opened Answers
  import opened Scopes
  import opened Mirror
  import opened Fields
  import opened Indexes

  /** The node at `steps` is of the type, on the page asked for, and at or below the node asked for. */
  ghost predicate Listed(document: Value, steps: seq<nat>, nodeType: string, page: Option<string>,
                         under: Option<string>, id: string, onPage: string) {
    && NodeWithId(document, steps, id)
    && TextOr(NodeAt(document, steps).value, "type", nodeType, "UNKNOWN")
    && OnPage(document, steps, onPage) && (page.Some? ==> onPage == page.value)
    && (under.Some? ==> exists a :: NodeWithId(document, a, under.value) && a <= steps)
  }

  lemma NearestUnique(document: Value, steps: seq<nat>, i: nat, j: nat)
    requires NearestPage(document, steps, i) && NearestPage(document, steps, j)
    ensures i == j
  {
    hide NodeAt, IsPage;
  }

  lemma OnePageEach(document: Value, steps: seq<nat>, p: string, q: string)
    requires OnPage(document, steps, p) && OnPage(document, steps, q)
    ensures p == q
  {
    hide NodeAt, IsPage;
    var i: nat :| NearestPage(document, steps, i) && NodeAt(document, steps[..i]).value.Get("id") == Some(Str(p));
    var j: nat :| NearestPage(document, steps, j) && NodeAt(document, steps[..j]).value.Get("id") == Some(Str(q));
    NearestUnique(document, steps, i, j);
  }

  lemma PlaceWithId(document: Value, steps: seq<nat>, id: string)
    requires NodeWithId(document, steps, id)
    ensures Locate(Top(document), steps).Some? && Locate(Top(document), steps).value.Id() == id
  {
    hide NodeAt, Locate;
    LocateTop(document, steps);
    PlaceId(Locate(Top(document), steps).value);
  }

  /** Scope, said of the document: some place of the root is on the way. */
  lemma UnderIsPrefix(t: Tables, resp: Value, root: string, steps: seq<nat>, id: string)
    requires resp.WellFormed() && Holds(t, WalkOf(resp)) && Countable(DocumentOf(resp))
    requires root in t.nodes && NodeWithId(DocumentOf(resp), steps, id)
    ensures Reachable(t.children, root, id) <==> exists a :: NodeWithId(DocumentOf(resp), a, root) && a <= steps
  {
    hide *;
    var document := DocumentOf(resp);
    WalkTop(resp);
    HeldStands(t, resp, root);
    PlaceWithId(document, steps, id);
    var b :| NodeWithId(document, b, root);
    PlaceWithId(document, b, root);
    ScopeIsPrefix(t, document, b, steps);
    forall a | NodeWithId(document, a, root) ensures a == b {
      PlaceWithId(document, a, root);
      PlaceUnique(t, document, a, b);
    }
  }

  /** A stored node is selected exactly when its place in the document is listed. */
  lemma SelectedIsListed(t: Tables, resp: Value, steps: seq<nat>, id: string, nodeType: string, page: Option<string>,
                         under: Option<string>)
    requires resp.WellFormed() && Holds(t, WalkOf(resp)) && Countable(DocumentOf(resp))
    requires (under.Some? ==> under.value in t.nodes) && NodeWithId(DocumentOf(resp), steps, id)
    ensures id in t.nodes && t.nodes[id].id == id && StandsAt(DocumentOf(resp), steps, t.nodes[id])
    ensures Selected(t, t.nodes[id], nodeType, page, under) <==>
      Listed(DocumentOf(resp), steps, nodeType, page, under, id, t.nodes[id].pageId)
  {
    var document := DocumentOf(resp);
    hide NodeAt, StandsAt, NodeWithId, Reachable, WalkOf, DocumentOf, OnPage, Holds, Countable, Value.WellFormed;
    HeldStands(t, resp, id);
    StandingReads(document, steps, t.nodes[id], nodeType);
    StandsOnPage(document, steps, t.nodes[id]);
    if under.Some? {
      UnderIsPrefix(t, resp, under.value, steps, id);
    }
  }

  lemma StandsOnPage(document: Value, steps: seq<nat>, r: NodeRec)
    requires StandsAt(document, steps, r)
    ensures NodeAt(document, steps).Some? && OnPage(document, steps, r.pageId)
    ensures TextOr(NodeAt(document, steps).value, "name", r.name, "")
    ensures TextAt(NodeAt(document, steps).value, "characters", r.text)
  {
    hide NodeAt, OnPage;
  }

  /** The row lists the node at `steps`: its id, the text it has under `k`, and its page. */
  ghost predicate RowAt(document: Value, steps: seq<nat>, nodeType: string, page: Option<string>, under: Option<string>,
                        k: string, row: (string, string, string)) {
    && Listed(document, steps, nodeType, page, under, row.0, row.2)
    && TextOr(NodeAt(document, steps).value, k, row.1, "")
  }

  /** Both listings: the rows of the selected nodes are exactly the rows of the listed places. */
  lemma RowsAreListed(t: Tables, resp: Value, nodeType: string, page: Option<string>, under: Option<string>,
                      row: (string, string, string))
    requires resp.WellFormed() && Holds(t, WalkOf(resp)) && Countable(DocumentOf(resp))
    requires under.Some? ==> under.value in t.nodes
    ensures (exists n :: Selected(t, n, nodeType, page, under) && row == (n.id, n.name, n.pageId)) <==>
      exists steps :: RowAt(DocumentOf(resp), steps, nodeType, page, under, "name", row)
    ensures (exists n :: Selected(t, n, nodeType, page, under) && row == (n.id, GetOr(n.text, ""), n.pageId)) <==>
      exists steps :: RowAt(DocumentOf(resp), steps, nodeType, page, under, "characters", row)
  {
    var document, id := DocumentOf(resp), row.0;
    hide Selected, Listed, StandsAt, NodeAt, NodeWithId, Holds, Countable, Value.WellFormed, WalkOf, DocumentOf;
    SelectedId(t, nodeType, page, under);
    HeldStands(t, resp, id);
    forall steps | NodeWithId(document, steps, id)
      ensures id in t.nodes && t.nodes[id].id == id
      ensures Selected(t, t.nodes[id], nodeType, page, under) && row == (id, t.nodes[id].name, t.nodes[id].pageId) <==>
        RowAt(document, steps, nodeType, page, under, "name", row)
      ensures Selected(t, t.nodes[id], nodeType, page, under) && row == (id, GetOr(t.nodes[id].text, ""), t.nodes[id].pageId)
        <==> RowAt(document, steps, nodeType, page, under, "characters", row)
    {
      SelectedIsListed(t, resp, steps, id, nodeType, page, under);
      StandsOnPage(document, steps, t.nodes[id]);
      ListedOn(document, steps, nodeType, page, under, id, row.2, t.nodes[id].pageId);
    }
    ListedHasId(document, nodeType, page, under, id, row.2);
  }

  lemma SelectedId(t: Tables, nodeType: string, page: Option<string>, under: Option<string>)
    ensures forall n :: Selected(t, n, nodeType, page, under) ==> n.id in t.nodes && t.nodes[n.id] == n
  {
  }

  lemma ListedHasId(document: Value, nodeType: string, page: Option<string>, under: Option<string>, id: string,
                    onPage: string)
    ensures forall steps :: Listed(document, steps, nodeType, page, under, id, onPage) ==> NodeWithId(document, steps, id)
  {
  }

  lemma ListedOn(document: Value, steps: seq<nat>, nodeType: string, page: Option<string>, under: Option<string>,
                 id: string, p: string, q: string)
    requires OnPage(document, steps, q)
    ensures Listed(document, steps, nodeType, page, under, id, p) ==> p == q
  {
    hide OnPage, NodeAt, NodeWithId;
    if Listed(document, steps, nodeType, page, under, id, p) {
      OnePageEach(document, steps, p, q);
    }
  }
}
