/** The keyed store and the tables derived from it. `KeyedStream` keeps, next to the rows, one node
    table and five indexes, and moves them only by deltas: a changed row first retracts the edges of
    its old record and then inserts those of the new one. The other tables are one-to-one filters
    of the rows and are read off them. */
module Store {
  import opened Basics
  import opened Model

  // ---- branch functions ----

  type ChildPosting = (string, (nat, string))  // parent, (child index, child)
  type Posting = (string, string)              // indexed term, node

  function ChildEdge(n: NodeRec): Option<ChildPosting> {
    match n.parentId
    case Some(parent) => Some((parent, (n.childIndex, n.id)))
    case None => None
  }

  function InstanceEdge(n: NodeRec): Option<Posting> {
    match n.componentId
    case Some(c) => Some((c, n.id))
    case None => None
  }

  function StyleEdges(n: NodeRec): seq<Posting> {
    Map((r: (string, string)) => (r.1, n.id), n.styleRefs)
  }

  /** One edge per binding site, so a variable bound at two sites yields the same edge twice. */
  function VariableEdges(n: NodeRec): seq<Posting> {
    Map((b: (string, string)) => (b.1, n.id), n.boundVariables)
  }

  function TypeEdge(n: NodeRec): Posting {
    (n.nodeType, n.id)
  }

  function ChildSet(n: NodeRec): set<ChildPosting> {
    if ChildEdge(n).Some? then {ChildEdge(n).value} else {}
  }

  function InstanceSet(n: NodeRec): set<Posting> {
    if InstanceEdge(n).Some? then {InstanceEdge(n).value} else {}
  }

  function StyleSet(n: NodeRec): set<Posting> {
    Elements(StyleEdges(n))
  }

  function VariableSet(n: NodeRec): set<Posting> {
    Elements(VariableEdges(n))
  }

  function TypeSet(n: NodeRec): set<Posting> {
    {TypeEdge(n)}
  }

  // ---- what the tables should hold, rebuilt from scratch ----

  type Nodes = map<string, NodeRec>

  ghost predicate KeyedById(nodes: Nodes) {
    forall k <- nodes :: nodes[k].id == k
  }

  ghost function NodeTable(rows: Rows): Nodes
    requires WellKeyed(rows)
  {
    map id | id in rows && id.NodeId? :: id.id := rows[id].node
  }

  ghost function Postings<E>(nodes: Nodes, edges: NodeRec -> set<E>): set<E> {
    set k, e | k in nodes && e in edges(nodes[k]) :: e
  }

  datatype Tables = Tables(
    nodes: Nodes,
    children: set<ChildPosting>,
    instancesOf: set<Posting>,
    styledBy: set<Posting>,
    boundTo: set<Posting>,
    byType: set<Posting>)

  ghost predicate Indexed(t: Tables) {
    && KeyedById(t.nodes)
    && t.children == Postings(t.nodes, ChildSet)
    && t.instancesOf == Postings(t.nodes, InstanceSet)
    && t.styledBy == Postings(t.nodes, StyleSet)
    && t.boundTo == Postings(t.nodes, VariableSet)
    && t.byType == Postings(t.nodes, TypeSet)
  }

  ghost predicate Rebuilt(t: Tables, rows: Rows) {
    WellKeyed(rows) && t.nodes == NodeTable(rows) && Indexed(t)
  }

  // ---- deltas ----

  function Retracted(t: Tables, n: NodeRec): Tables {
    Tables(t.nodes - {n.id}, t.children - ChildSet(n), t.instancesOf - InstanceSet(n),
           t.styledBy - StyleSet(n), t.boundTo - VariableSet(n), t.byType - TypeSet(n))
  }

  function Inserted(t: Tables, n: NodeRec): Tables {
    Tables(t.nodes[n.id := n], t.children + ChildSet(n), t.instancesOf + InstanceSet(n),
           t.styledBy + StyleSet(n), t.boundTo + VariableSet(n), t.byType + TypeSet(n))
  }

  function RetractedRec(t: Tables, rec: Rec): Tables {
    if rec.Node? then Retracted(t, rec.node) else t
  }

  function InsertedRec(t: Tables, rec: Rec): Tables {
    if rec.Node? then Inserted(t, rec.node) else t
  }

  datatype Op = Upsert(id: Id, rec: Rec) | Remove(id: Id)

  function Lookup(rows: Rows, id: Id): Option<Rec> {
    if id in rows then Some(rows[id]) else None
  }

  function AfterOp(rows: Rows, op: Op): Rows {
    match op
    case Upsert(id, rec) => rows[id := rec]
    case Remove(id) => rows - {id}
  }

  function TablesAfterOp(t: Tables, rows: Rows, op: Op): Tables {
    match op
    case Upsert(id, rec) =>
      if Lookup(rows, id) == Some(rec) then t
      else InsertedRec(if id in rows then RetractedRec(t, rows[id]) else t, rec)
    case Remove(id) => if id in rows then RetractedRec(t, rows[id]) else t
  }

  /** How many deltas the operation pushes into the tables. */
  function Pushes(rows: Rows, op: Op): nat {
    match op
    case Upsert(id, rec) => if Lookup(rows, id) == Some(rec) then 0 else if id in rows then 2 else 1
    case Remove(id) => if id in rows then 1 else 0
  }

  ghost predicate OpMatches(op: Op) {
    op.Upsert? ==> Matches(op.id, op.rec)
  }

  // ---- deltas keep the tables equal to the rebuilt ones ----

  /** Two nodes never share an edge: every edge names the node it belongs to. */
  ghost predicate Owned<E>(edges: NodeRec -> set<E>, owner: E -> string) {
    forall n, e :: e in edges(n) ==> owner(e) == n.id
  }

  lemma PostingsRetract<E>(nodes: Nodes, n: NodeRec, edges: NodeRec -> set<E>, owner: E -> string)
    requires KeyedById(nodes) && n.id in nodes && nodes[n.id] == n
    requires Owned(edges, owner)
    ensures Postings(nodes - {n.id}, edges) == Postings(nodes, edges) - edges(n)
  {
    var rest := nodes - {n.id};
    var before, after := Postings(nodes, edges), Postings(rest, edges);
    forall e | e in before && e !in edges(n) ensures e in after {
      var k :| k in nodes && e in edges(nodes[k]);
      assert k in rest && rest[k] == nodes[k];
    }
    forall e | e in after ensures e in before && e !in edges(n) {
      var k :| k in rest && e in edges(rest[k]);
      assert k in nodes && owner(e) == k;
      assert e in edges(n) ==> owner(e) == n.id;
    }
    assert after == before - edges(n);
  }

  lemma PostingsInsert<E>(nodes: Nodes, n: NodeRec, edges: NodeRec -> set<E>)
    requires n.id !in nodes
    ensures Postings(nodes[n.id := n], edges) == Postings(nodes, edges) + edges(n)
  {
    var more := nodes[n.id := n];
    var before, after := Postings(nodes, edges), Postings(more, edges);
    forall e | e in before ensures e in after {
      var k :| k in nodes && e in edges(nodes[k]);
      assert k in more && e in edges(more[k]);
    }
    forall e | e in edges(n) ensures e in after {
      assert n.id in more && e in edges(more[n.id]);
    }
    forall e | e in after ensures e in before || e in edges(n) {
      var k :| k in more && e in edges(more[k]);
    }
    assert after == before + edges(n);
  }

  lemma RetractIndexed(t: Tables, n: NodeRec)
    requires Indexed(t) && n.id in t.nodes && t.nodes[n.id] == n
    ensures Indexed(Retracted(t, n))
  {
    var childOwner := (e: ChildPosting) => e.1.1;
    var owner := (e: Posting) => e.1;
    assert Owned(ChildSet, childOwner);
    PostingsRetract(t.nodes, n, ChildSet, childOwner);
    PostingsRetract(t.nodes, n, InstanceSet, owner);
    PostingsRetract(t.nodes, n, StyleSet, owner);
    PostingsRetract(t.nodes, n, VariableSet, owner);
    PostingsRetract(t.nodes, n, TypeSet, owner);
  }

  lemma InsertIndexed(t: Tables, n: NodeRec)
    requires Indexed(t) && n.id !in t.nodes
    ensures Indexed(Inserted(t, n))
  {
    PostingsInsert(t.nodes, n, ChildSet);
    PostingsInsert(t.nodes, n, InstanceSet);
    PostingsInsert(t.nodes, n, StyleSet);
    PostingsInsert(t.nodes, n, VariableSet);
    PostingsInsert(t.nodes, n, TypeSet);
  }

  lemma NodeTableAfterRemove(rows: Rows, id: Id)
    requires WellKeyed(rows) && id in rows
    ensures WellKeyed(rows - {id})
    ensures NodeTable(rows - {id}) == if id.NodeId? then NodeTable(rows) - {id.id} else NodeTable(rows)
  {
  }

  lemma NodeTableAfterInsert(rows: Rows, id: Id, rec: Rec)
    requires WellKeyed(rows) && Matches(id, rec)
    ensures WellKeyed(rows[id := rec])
    ensures NodeTable(rows[id := rec]) == if id.NodeId? then NodeTable(rows)[id.id := rec.node] else NodeTable(rows)
  {
  }

  lemma RetractRebuilt(t: Tables, rows: Rows, id: Id)
    requires Rebuilt(t, rows) && id in rows
    ensures Rebuilt(RetractedRec(t, rows[id]), rows - {id})
  {
    NodeTableAfterRemove(rows, id);
    assert Matches(id, rows[id]);
    if id.NodeId? {
      assert NodeTable(rows)[id.id] == rows[id].node;
      RetractIndexed(t, rows[id].node);
    }
  }

  lemma InsertRebuilt(t: Tables, rows: Rows, id: Id, rec: Rec)
    requires Rebuilt(t, rows) && id !in rows && Matches(id, rec)
    ensures Rebuilt(InsertedRec(t, rec), rows[id := rec])
  {
    NodeTableAfterInsert(rows, id, rec);
    if id.NodeId? {
      InsertIndexed(t, rec.node);
    }
  }

  lemma OpRebuilt(t: Tables, rows: Rows, op: Op)
    requires Rebuilt(t, rows) && OpMatches(op)
    ensures Rebuilt(TablesAfterOp(t, rows, op), AfterOp(rows, op))
  {
    match op
    case Upsert(id, rec) =>
      if Lookup(rows, id) == Some(rec) {
        assert rows[id := rec] == rows;
      } else if id in rows {
        RetractRebuilt(t, rows, id);
        InsertRebuilt(RetractedRec(t, rows[id]), rows - {id}, id, rec);
        assert (rows - {id})[id := rec] == rows[id := rec];
      } else {
        InsertRebuilt(t, rows, id, rec);
      }
    case Remove(id) =>
      if id in rows {
        RetractRebuilt(t, rows, id);
      } else {
        assert rows - {id} == rows;
      }
  }

  // ---- runs ----

  function AfterOps(rows: Rows, ops: seq<Op>): Rows
    decreases |ops|
  {
    if ops == [] then rows else AfterOps(AfterOp(rows, ops[0]), ops[1..])
  }

  function TablesAfterOps(t: Tables, rows: Rows, ops: seq<Op>): Tables
    decreases |ops|
  {
    if ops == [] then t
    else TablesAfterOps(TablesAfterOp(t, rows, ops[0]), AfterOp(rows, ops[0]), ops[1..])
  }

  /** After any run of upserts and removes, the node table and all five indexes are what one would
      build from the rows from scratch. */
  lemma {:induction false} RunRebuilt(t: Tables, rows: Rows, ops: seq<Op>)
    requires Rebuilt(t, rows) && forall op <- ops :: OpMatches(op)
    ensures Rebuilt(TablesAfterOps(t, rows, ops), AfterOps(rows, ops))
    decreases |ops|
  {
    if ops != [] {
      OpRebuilt(t, rows, ops[0]);
      RunRebuilt(TablesAfterOp(t, rows, ops[0]), AfterOp(rows, ops[0]), ops[1..]);
    }
  }

  // ---- the stream ----

  /** Insert edges one at a time into a set-semantic index. */
  method Post(index: set<Posting>, edges: seq<Posting>) returns (r: set<Posting>)
    ensures r == index + Elements(edges)
  {
    r := index;
    for i := 0 to |edges|
      invariant r == index + Elements(edges[..i])
    {
      r := r + {edges[i]};
      assert edges[..i + 1] == edges[..i] + [edges[i]];
    }
    assert edges[..|edges|] == edges;
  }

  /** Retract edges one at a time; an edge listed twice is simply gone after the first time. */
  method Unpost(index: set<Posting>, edges: seq<Posting>) returns (r: set<Posting>)
    ensures r == index - Elements(edges)
  {
    r := index;
    for i := 0 to |edges|
      invariant r == index - Elements(edges[..i])
    {
      r := r - {edges[i]};
      assert edges[..i + 1] == edges[..i] + [edges[i]];
    }
    assert edges[..|edges|] == edges;
  }

  class KeyedStream {
    var rows: Rows
    var nodes: Nodes
    var children: set<ChildPosting>
    var instancesOf: set<Posting>
    var styledBy: set<Posting>
    var boundTo: set<Posting>
    var byType: set<Posting>
    var pushed: nat  // deltas that have entered the tables

    ghost function View(): Tables
      reads this
    {
      Tables(nodes, children, instancesOf, styledBy, boundTo, byType)
    }

    ghost predicate Valid()
      reads this
    {
      Rebuilt(View(), rows)
    }

    constructor ()
      ensures Valid() && rows == map[] && pushed == 0
    {
      rows, nodes, pushed := map[], map[], 0;
      children, instancesOf, styledBy, boundTo, byType := {}, {}, {}, {}, {};
    }

    method Retract(rec: Rec)
      modifies this
      ensures rows == old(rows) && pushed == old(pushed) + 1
      ensures View() == RetractedRec(old(View()), rec)
    {
      pushed := pushed + 1;
      if rec.Node? {
        var n := rec.node;
        nodes := nodes - {n.id};
        if ChildEdge(n).Some? { children := children - {ChildEdge(n).value}; }
        if InstanceEdge(n).Some? { instancesOf := instancesOf - {InstanceEdge(n).value}; }
        styledBy := Unpost(styledBy, StyleEdges(n));
        boundTo := Unpost(boundTo, VariableEdges(n));
        byType := byType - {TypeEdge(n)};
      }
    }

    method Insert(rec: Rec)
      modifies this
      ensures rows == old(rows) && pushed == old(pushed) + 1
      ensures View() == InsertedRec(old(View()), rec)
    {
      pushed := pushed + 1;
      if rec.Node? {
        var n := rec.node;
        nodes := nodes[n.id := n];
        if ChildEdge(n).Some? { children := children + {ChildEdge(n).value}; }
        if InstanceEdge(n).Some? { instancesOf := instancesOf + {InstanceEdge(n).value}; }
        styledBy := Post(styledBy, StyleEdges(n));
        boundTo := Post(boundTo, VariableEdges(n));
        byType := byType + {TypeEdge(n)};
      }
    }

    /** Store a record, returning the one it replaces; an equal record pushes nothing. */
    method Upsert(id: Id, rec: Rec) returns (prior: Option<Rec>)
      requires Valid() && Matches(id, rec)
      modifies this
      ensures Valid() && rows == AfterOp(old(rows), Op.Upsert(id, rec))
      ensures prior == Lookup(old(rows), id)
      ensures View() == TablesAfterOp(old(View()), old(rows), Op.Upsert(id, rec))
      ensures pushed == old(pushed) + Pushes(old(rows), Op.Upsert(id, rec))
    {
      OpRebuilt(View(), rows, Op.Upsert(id, rec));
      prior := Lookup(rows, id);
      if prior != Some(rec) {
        if prior.Some? {
          Retract(prior.value);
        }
        Insert(rec);
      }
      rows := rows[id := rec];
    }

    method Remove(id: Id) returns (prior: Option<Rec>)
      requires Valid()
      modifies this
      ensures Valid() && rows == AfterOp(old(rows), Op.Remove(id))
      ensures prior == Lookup(old(rows), id)
      ensures View() == TablesAfterOp(old(View()), old(rows), Op.Remove(id))
      ensures pushed == old(pushed) + Pushes(old(rows), Op.Remove(id))
    {
      OpRebuilt(View(), rows, Op.Remove(id));
      prior := Lookup(rows, id);
      if prior.Some? {
        Retract(prior.value);
      }
      rows := rows - {id};
    }
  }
}
