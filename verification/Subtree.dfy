/** Nested answers rebuilt from the flat tables: the outline of a tree and the full JSON dump. Both
    visit a node's children in child-index order, skip a child without a record, and stop at the
    requested depth; they differ only in what they make of a node and its rebuilt children. */
module Subtree {
  import opened Basics
  import opened Json
  import opened Model
  import opened Store
  import opened Query

  /** The ranked ids are closed under child edges, and every such edge goes down in rank. Without a
      depth limit the program's recursion ends only below an id that can be ranked. */
  ghost predicate Ranked(t: Tables, rank: map<string, nat>) {
    forall e <- t.children :: e.0 in rank && e.1.1 in t.nodes ==>
      t.nodes[e.1.1].id in rank && rank[t.nodes[e.1.1].id] < rank[e.0]
  }

  /** Recursion from this record ends: the depth is limited or the record is ranked. */
  ghost predicate Ends(t: Tables, id: string, depth: Option<nat>, rank: map<string, nat>) {
    depth.None? ==> Ranked(t, rank) && id in rank
  }

  function Deeper(depth: Option<nat>): (r: Option<nat>)
    requires depth != Some(0)
    ensures if depth.Some? then r.Some? && r.value + 1 == depth.value else r.None?
  {
    if depth.Some? then Some(depth.value - 1) else None
  }

  ghost function Budget(n: NodeRec, depth: Option<nat>, rank: map<string, nat>): nat {
    if depth.Some? then depth.value else if n.id in rank then rank[n.id] else 0
  }

  function Build<T>(t: Tables, n: NodeRec, depth: Option<nat>, make: (NodeRec, seq<T>) -> T,
        ghost rank: map<string, nat>): T
    requires Ends(t, n.id, depth, rank)
    decreases Budget(n, depth, rank), 1, 0
  {
    if depth == Some(0) then make(n, []) else
      var edges := SortedEdges(Under(t.children, n.id));
      assert forall e <- edges :: e in Elements(edges);
      make(n, BuildKids(t, n, edges, depth, make, rank))
  }

  function BuildKids<T>(t: Tables, n: NodeRec, edges: seq<(nat, string)>, depth: Option<nat>,
                        make: (NodeRec, seq<T>) -> T, ghost rank: map<string, nat>): seq<T>
    requires depth != Some(0) && Ends(t, n.id, depth, rank)
    requires forall e <- edges :: e in Under(t.children, n.id)
    decreases Budget(n, depth, rank), 0, |edges|
  {
    if edges == [] then [] else
      assert edges[0] in Under(t.children, n.id);
      (if edges[0].1 in t.nodes then [Build(t, t.nodes[edges[0].1], Deeper(depth), make, rank)] else [])
      + BuildKids(t, n, edges[1..], depth, make, rank)
  }

  // ---- outlines ----

  datatype TreeNode = TreeNode(id: string, name: string, nodeType: string, children: seq<TreeNode>)

  function OutlineOf(n: NodeRec, kids: seq<TreeNode>): TreeNode {
    TreeNode(n.id, n.name, n.nodeType, kids)
  }

  // ---- dumps ----

  function Kept(fields: seq<Field>, names: Option<seq<string>>): seq<Field> {
    if names.None? || fields == [] then fields
    else
      (if fields[0].key in ["id", "name", "type"] || fields[0].key in names.value then [fields[0]] else [])
      + Kept(fields[1..], names)
  }

  /** The tables that variable bindings are resolved against. */
  datatype VarTables = VarTables(variables: map<string, VariableRec>, collections: map<string, CollectionRec>)

  function ModeIn(modes: seq<(string, string)>, mode: string): Option<string> {
    if modes == [] then None
    else if modes[0].0 == mode then Some(modes[0].1)
    else ModeIn(modes[1..], mode)
  }

  /** A mode's name in its collection, or its id if either is unknown. */
  function ModeName(vars: VarTables, collection: string, mode: string): string {
    if collection in vars.collections then GetOr(ModeIn(vars.collections[collection].modes, mode), mode) else mode
  }

  function ResolvedBinding(vars: VarTables, b: (string, string)): Value {
    if b.1 in vars.variables then
      var v := vars.variables[b.1];
      var named := Map((m: (string, Value)) => (ModeName(vars, v.collectionId, m.0), m.1), v.valuesByMode);
      Object(Members([("pointer", Str(b.0)), ("variable_id", Str(b.1)), ("variable_name", Str(v.name)),
                      ("values_by_mode", Object(Members(named)))]))
    else
      Object(Members([("pointer", Str(b.0)), ("variable_id", Str(b.1)), ("source", Str("unresolved"))]))
  }

  /** The annotation with a node's bindings resolved, when it is asked for. */
  function Annotated(fields: seq<Field>, bound: seq<(string, string)>, vars: Option<VarTables>): seq<Field> {
    match vars
    case None => fields
    case Some(tables) =>
      SetMember(fields, "resolved_variables", Array(Map((b: (string, string)) => ResolvedBinding(tables, b), bound)))
  }

  /** What a dump is asked for: the fields to keep, and the variables to resolve against. */
  datatype Shape = Shape(names: Option<seq<string>>, vars: Option<VarTables>)

  /** A node's stored JSON, projected to the named fields, with its children put back and its bindings
      resolved. */
  function Dumped(raw: Value, bound: seq<(string, string)>, shape: Shape, kids: seq<Value>): Value {
    if raw.Object?
    then Object(Annotated(SetMember(Kept(raw.fields, shape.names), "children", Array(kids)), bound, shape.vars))
    else raw
  }

  function DumpWith(shape: Shape): (NodeRec, seq<Value>) -> Value {
    (m: NodeRec, kids: seq<Value>) => Dumped(m.raw, m.boundVariables, shape, kids)
  }

  method BuildSubtree(t: Tables, n: NodeRec, depth: Option<nat>, shape: Shape, ghost rank: map<string, nat>)
    returns (r: Value)
    requires Ends(t, n.id, depth, rank)
    ensures r == Build(t, n, depth, DumpWith(shape), rank)
    decreases Budget(n, depth, rank), 1, 0
  {
    hide StringLess, SortedEdges, Dumped;
    var kids: seq<Value> := [];
    if depth != Some(0) {
      var edges := SortedEdges(Under(t.children, n.id));
      assert forall e :: e in edges ==> e in Elements(edges);
      kids := DumpKids(t, n, edges, depth, shape, rank);
    }
    r := Dumped(n.raw, n.boundVariables, shape, kids);
  }

  method DumpKids(t: Tables, n: NodeRec, edges: seq<(nat, string)>, depth: Option<nat>,
                  shape: Shape, ghost rank: map<string, nat>) returns (kids: seq<Value>)
    requires depth != Some(0) && Ends(t, n.id, depth, rank)
    requires forall e <- edges :: e in Under(t.children, n.id)
    ensures kids == BuildKids(t, n, edges, depth, DumpWith(shape), rank)
    decreases Budget(n, depth, rank), 0, |edges|
  {
    hide Dumped;
    kids := [];
    ghost var all := BuildKids(t, n, edges, depth, DumpWith(shape), rank);
    var rest := edges;
    while rest != []
      invariant |rest| <= |edges| && forall e <- rest :: e in Under(t.children, n.id)
      invariant kids + BuildKids(t, n, rest, depth, DumpWith(shape), rank) == all
    {
      var edge := rest[0];
      assert edge in Under(t.children, n.id);
      rest := rest[1..];
      ghost var later := BuildKids(t, n, rest, depth, DumpWith(shape), rank);
      if edge.1 in t.nodes {
        var kid := BuildSubtree(t, t.nodes[edge.1], Deeper(depth), shape, rank);
        assert (kids + [kid]) + later == kids + ([kid] + later);
        kids := kids + [kid];
      } else {
        assert [] + later == later;
      }
    }
  }

  /** The dump rooted at `id`; unknown ids are an error. */
  method Dump(t: Tables, id: string, depth: Option<nat>, shape: Shape, ghost rank: map<string, nat>)
    returns (r: Result<Value, string>)
    requires id in t.nodes ==> Ends(t, t.nodes[id].id, depth, rank)
    ensures r == DumpOf(t, id, depth, shape, rank)
  {
    if id !in t.nodes {
      return Err(id);
    }
    var v := BuildSubtree(t, t.nodes[id], depth, shape, rank);
    return Ok(v);
  }

  function DumpOf(t: Tables, id: string, depth: Option<nat>, shape: Shape, ghost rank: map<string, nat>)
    : Result<Value, string>
    requires id in t.nodes ==> Ends(t, t.nodes[id].id, depth, rank)
  {
    if id !in t.nodes then Err(id)
    else Ok(Build(t, t.nodes[id], depth, DumpWith(shape), rank))
  }
}
