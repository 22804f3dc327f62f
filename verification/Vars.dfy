/** Inferring variables from their usage: every node's bindings are folded into per-variable sites and
    the values found where the bindings point. */
module Vars {
  import opened Basics
  import opened Json
  import opened Model
  import opened Store
  import opened Aliases
  import opened AliasSites
  import opened Pointers

  /** `observed` holds the printed values, sorted and without repeats. */
  datatype VarUsage = VarUsage(variable: string, sites: seq<(string, string)>, observed: seq<string>)

  /** The sites and printed values collected for each variable, in the order they came. */
  type Usages = map<string, (seq<(string, string)>, seq<string>)>

  type Printer = Value -> string

  /** What is known of one variable so far. */
  function Known(found: Usages, v: string): (seq<(string, string)>, seq<string>) {
    if v in found then found[v] else ([], [])
  }

  /** The sites of a variable on one node, from its first bindings. */
  function SitesOn(node: NodeRec, bindings: seq<(string, string)>, v: string): seq<(string, string)> {
    if bindings == [] then []
    else
      var front, last := SitesOn(node, bindings[..|bindings| - 1], v), bindings[|bindings| - 1];
      if last.1 == v then front + [(node.id, last.0)] else front
  }

  /** The values those bindings point at, printed. */
  function ValuesOn(node: NodeRec, bindings: seq<(string, string)>, v: string, print_: Printer): seq<string> {
    if bindings == [] then []
    else
      var front, last := ValuesOn(node, bindings[..|bindings| - 1], v, print_), bindings[|bindings| - 1];
      if last.1 == v && Pointer(node.raw, last.0).Some? then front + [print_(Pointer(node.raw, last.0).value)] else front
  }

  /** All sites of a variable, node by node. */
  function Sites(nodes: seq<NodeRec>, v: string): seq<(string, string)> {
    if nodes == [] then []
    else
      var last := nodes[|nodes| - 1];
      Sites(nodes[..|nodes| - 1], v) + SitesOn(last, last.boundVariables, v)
  }

  function Observed(nodes: seq<NodeRec>, v: string, print_: Printer): seq<string> {
    if nodes == [] then []
    else
      var last := nodes[|nodes| - 1];
      Observed(nodes[..|nodes| - 1], v, print_) + ValuesOn(last, last.boundVariables, v, print_)
  }

  /** `r` knows what `found` does and, after it, what these bindings of `node` add. */
  ghost predicate Gains(found: Usages, r: Usages, node: NodeRec, bindings: seq<(string, string)>, print_: Printer) {
    forall v ::
      && Known(r, v) == (Known(found, v).0 + SitesOn(node, bindings, v), Known(found, v).1 + ValuesOn(node, bindings, v, print_))
      && (v in r <==> v in found || SitesOn(node, bindings, v) != [])
  }

  function AddBinding(found: Usages, node: NodeRec, b: (string, string), print_: Printer): Usages {
    var (sites, values) := Known(found, b.1);
    var value := Pointer(node.raw, b.0);
    found[b.1 := (sites + [(node.id, b.0)], if value.Some? then values + [print_(value.value)] else values)]
  }

  /** Fold the bindings of one node in. */
  method FoldNode(found: Usages, node: NodeRec, print_: Printer) returns (r: Usages)
    ensures Gains(found, r, node, node.boundVariables, print_)
  {
    hide Gains, AddBinding;
    r := found;
    NoBindings(found, node, print_);
    assert node.boundVariables[..0] == [];
    for i := 0 to |node.boundVariables|
      invariant Gains(found, r, node, node.boundVariables[..i], print_)
    {
      OneMoreBinding(found, r, node, i, print_);
      r := AddBinding(r, node, node.boundVariables[i], print_);
    }
    assert node.boundVariables[..|node.boundVariables|] == node.boundVariables;
  }

  lemma NoBindings(found: Usages, node: NodeRec, print_: Printer)
    ensures Gains(found, found, node, [], print_)
  {
    forall v ensures Known(found, v) == (Known(found, v).0 + [], Known(found, v).1 + []) {
      assert Known(found, v).0 + [] == Known(found, v).0 && Known(found, v).1 + [] == Known(found, v).1;
    }
  }

  lemma OneMoreBinding(found: Usages, r: Usages, node: NodeRec, i: nat, print_: Printer)
    requires i < |node.boundVariables| && Gains(found, r, node, node.boundVariables[..i], print_)
    ensures Gains(found, AddBinding(r, node, node.boundVariables[i], print_), node, node.boundVariables[..i + 1], print_)
  {
    hide Pointer;
    var next := AddBinding(r, node, node.boundVariables[i], print_);
    forall v
      ensures Known(next, v) == (Known(found, v).0 + SitesOn(node, node.boundVariables[..i + 1], v),
                                 Known(found, v).1 + ValuesOn(node, node.boundVariables[..i + 1], v, print_))
      ensures v in next <==> v in found || SitesOn(node, node.boundVariables[..i + 1], v) != []
    {
      BindingAdds(found, r, node, i, v, print_);
    }
  }

  lemma BindingAdds(found: Usages, r: Usages, node: NodeRec, i: nat, v: string, print_: Printer)
    requires i < |node.boundVariables|
    requires Known(r, v) == (Known(found, v).0 + SitesOn(node, node.boundVariables[..i], v),
                             Known(found, v).1 + ValuesOn(node, node.boundVariables[..i], v, print_))
    requires v in r <==> v in found || SitesOn(node, node.boundVariables[..i], v) != []
    ensures var next, bindings := AddBinding(r, node, node.boundVariables[i], print_), node.boundVariables[..i + 1];
      && Known(next, v).0 == Known(found, v).0 + SitesOn(node, bindings, v)
      && Known(next, v).1 == Known(found, v).1 + ValuesOn(node, bindings, v, print_)
      && (v in next <==> v in found || SitesOn(node, bindings, v) != [])
  {
    hide Pointer;
    assert node.boundVariables[..i + 1][..i] == node.boundVariables[..i];
  }

  /** All the nodes so far are folded in. */
  ghost predicate Folded(found: Usages, nodes: seq<NodeRec>, print_: Printer) {
    forall v :: Known(found, v) == (Sites(nodes, v), Observed(nodes, v, print_)) && (v in found <==> Sites(nodes, v) != [])
  }

  lemma NothingFolded(print_: Printer)
    ensures Folded(map[], [], print_)
  {
  }

  lemma OneMoreNode(found: Usages, r: Usages, nodes: seq<NodeRec>, i: nat, print_: Printer)
    requires i < |nodes| && Folded(found, nodes[..i], print_)
    requires Gains(found, r, nodes[i], nodes[i].boundVariables, print_)
    ensures Folded(r, nodes[..i + 1], print_)
  {
    hide SitesOn, ValuesOn;
    assert nodes[..i + 1][..i] == nodes[..i];
  }

  /** One usage per variable bound anywhere, in variable order: all its sites, sorted, and the distinct
      values found at them, sorted. */
  method InferFromNodes(nodes: seq<NodeRec>, print_: Printer) returns (r: seq<VarUsage>)
    ensures forall i, j :: 0 <= i < j < |r| ==> StringLess(r[i].variable, r[j].variable)
    ensures forall u <- r :: u == UsageOf(nodes, u.variable, print_)
    ensures forall v :: (exists u <- r :: u.variable == v) <==> Sites(nodes, v) != []
  {
    hide StringLess, SortedStrings, PairSort, Sites, Observed, Gains;
    var found: Usages := map[];
    NothingFolded(print_);
    assert nodes[..0] == [];
    for i := 0 to |nodes|
      invariant Folded(found, nodes[..i], print_)
    {
      var next := FoldNode(found, nodes[i], print_);
      OneMoreNode(found, next, nodes, i, print_);
      found := next;
    }
    assert nodes[..|nodes|] == nodes;
    var order := SortedStrings(found.Keys);
    r := [];
    for i := 0 to |order|
      invariant |r| == i && forall k :: 0 <= k < i ==> r[k].variable == order[k]
      invariant forall u <- r :: u == UsageOf(nodes, u.variable, print_)
    {
      var v := order[i];
      assert v in Elements(order);
      assert Known(found, v) == (Sites(nodes, v), Observed(nodes, v, print_));
      r := r + [VarUsage(v, PairSort(found[v].0), SortedStrings(Elements(found[v].1)))];
    }
    Covered(r, order);
    assert forall v :: v in found <==> v in Elements(order);
  }

  /** What is reported of a variable. */
  function UsageOf(nodes: seq<NodeRec>, v: string, print_: Printer): VarUsage {
    VarUsage(v, PairSort(Sites(nodes, v)), SortedStrings(Elements(Observed(nodes, v, print_))))
  }

  lemma Covered(r: seq<VarUsage>, order: seq<string>)
    requires |r| == |order| && forall k :: 0 <= k < |r| ==> r[k].variable == order[k]
    ensures forall v :: (exists u <- r :: u.variable == v) <==> v in Elements(order)
  {
    forall v ensures (exists u <- r :: u.variable == v) <==> v in Elements(order) {
      if v in Elements(order) {
        var k :| 0 <= k < |order| && order[k] == v;
        assert r[k] in r && r[k].variable == v;
      }
      if u :| u in r && u.variable == v {
        var k :| 0 <= k < |r| && r[k] == u;
        assert order[k] in Elements(order);
      }
    }
  }

  lemma {:induction false} SiteOnNode(node: NodeRec, bindings: seq<(string, string)>, v: string, s: (string, string))
    ensures s in SitesOn(node, bindings, v) <==> exists b <- bindings :: b.1 == v && s == (node.id, b.0)
  {
    if bindings != [] {
      var front, last := bindings[..|bindings| - 1], bindings[|bindings| - 1];
      SiteOnNode(node, front, v, s);
      assert last in bindings && bindings == front + [last];
      assert forall b :: b in bindings <==> b in front || b == last;
    }
  }

  /** The sites of a variable are exactly the bindings of it on the nodes. */
  lemma {:induction false} SiteIsBinding(nodes: seq<NodeRec>, v: string, s: (string, string))
    ensures s in Sites(nodes, v) <==> exists n, b :: n in nodes && b in n.boundVariables && b.1 == v && s == (n.id, b.0)
  {
    hide SitesOn;
    if nodes != [] {
      var front, last := nodes[..|nodes| - 1], nodes[|nodes| - 1];
      SiteIsBinding(front, v, s);
      SiteOnNode(last, last.boundVariables, v, s);
      assert last in nodes && nodes == front + [last];
      assert forall n :: n in nodes <==> n in front || n == last;
      if b :| b in last.boundVariables && b.1 == v && s == (last.id, b.0) {
        assert last in nodes && b in last.boundVariables;
      }
    }
  }

  lemma {:induction false} ValueOnNode(node: NodeRec, bindings: seq<(string, string)>, v: string, print_: Printer,
        x: string)
    ensures x in ValuesOn(node, bindings, v, print_) <==>
      exists b <- bindings :: b.1 == v && Pointer(node.raw, b.0).Some? && x == print_(Pointer(node.raw, b.0).value)
  {
    hide Pointer;
    if bindings != [] {
      var front, last := bindings[..|bindings| - 1], bindings[|bindings| - 1];
      ValueOnNode(node, front, v, print_, x);
      assert last in bindings && bindings == front + [last];
      assert forall b :: b in bindings <==> b in front || b == last;
    }
  }

  /** The observed texts are exactly the printed values that the variable's bindings point at. */
  lemma {:induction false} ValueIsPointedAt(nodes: seq<NodeRec>, v: string, print_: Printer, x: string)
    ensures x in Observed(nodes, v, print_) <==> exists n, b ::
      n in nodes && b in n.boundVariables && b.1 == v && Pointer(n.raw, b.0).Some? && x == print_(Pointer(n.raw, b.0).value)
  {
    hide ValuesOn, Pointer;
    if nodes != [] {
      var front, last := nodes[..|nodes| - 1], nodes[|nodes| - 1];
      ValueIsPointedAt(front, v, print_, x);
      ValueOnNode(last, last.boundVariables, v, print_, x);
      assert last in nodes && nodes == front + [last];
      assert forall n :: n in nodes <==> n in front || n == last;
    }
  }

  // ---- sites and the index ----

  lemma PostingIsBinding(t: Tables, v: string, id: string)
    requires Indexed(t)
    ensures (v, id) in t.boundTo <==>
      id in t.nodes && t.nodes[id].id == id && exists b <- t.nodes[id].boundVariables :: b.1 == v
  {
    if (v, id) in t.boundTo {
      var x :| x in t.nodes && (v, id) in VariableSet(t.nodes[x]);
      var n := t.nodes[x];
      var k :| 0 <= k < |VariableEdges(n)| && VariableEdges(n)[k] == (v, id);
      assert n.boundVariables[k] in n.boundVariables;
    }
    if id in t.nodes {
      var n := t.nodes[id];
      if b :| b in n.boundVariables && b.1 == v {
        var k :| 0 <= k < |n.boundVariables| && n.boundVariables[k] == b;
        assert VariableEdges(n)[k] == (v, id);
        assert (v, id) in VariableSet(n);
      }
    }
  }

  /** The nodes among a variable's sites are exactly its postings in the `bound_to` index. */
  lemma SitesArePostings(t: Tables, nodes: seq<NodeRec>, v: string, id: string)
    requires Indexed(t) && Elements(nodes) == t.nodes.Values
    ensures (exists s <- Sites(nodes, v) :: s.0 == id) <==> (v, id) in t.boundTo
  {
    PostingIsBinding(t, v, id);
    forall n | n in nodes ensures n.id in t.nodes && t.nodes[n.id] == n {
      assert n in Elements(nodes) && n in t.nodes.Values;
    }
    assert id in t.nodes ==> t.nodes[id] in t.nodes.Values && t.nodes[id] in Elements(nodes);
    hide *;
    if s :| s in Sites(nodes, v) && s.0 == id {
      SiteIsBinding(nodes, v, s);
      var n, b :| n in nodes && b in n.boundVariables && b.1 == v && s == (n.id, b.0);
      assert t.nodes[id] == n;
    }
    if (v, id) in t.boundTo {
      var n := t.nodes[id];
      assert n in nodes by { InElements(nodes, n); }
      var b :| b in n.boundVariables && b.1 == v;
      SiteIsBinding(nodes, v, (n.id, b.0));
      assert (n.id, b.0) in Sites(nodes, v);
    }
  }

  lemma InElements(nodes: seq<NodeRec>, n: NodeRec)
    ensures n in Elements(nodes) <==> n in nodes
  {
  }

  // ---- what is observed ----

  /** No key reads as a separator or an escape inside a pointer. */
  ghost predicate PlainKeys(v: Value) {
    match v
    case Array(items) => forall x <- items :: PlainKeys(x)
    case Object(fields) => forall f <- fields :: Plain(f.key) && PlainKeys(f.value)
    case _ => true
  }

  lemma {:induction false} DecimalPlain(n: nat)
    ensures Plain(Decimal(n)) && forall c <- Decimal(n) :: c != '/' && c != '~'
  {
    if n >= 10 {
      DecimalPlain(n / 10);
    }
    assert forall c <- Decimal(n) :: c != '/' && c != '~';
    assert forall i :: 0 <= i < |Decimal(n)| ==> Decimal(n)[i] in Decimal(n);
  }

  lemma {:induction false} StepsPlain(v: Value, ts: seq<string>)
    requires v.WellFormed() && PlainKeys(v) && At(v, ts).Some?
    ensures forall t <- ts :: Plain(t)
    ensures At(v, ts).value.WellFormed() && PlainKeys(At(v, ts).value)
    decreases |ts|
  {
    if ts != [] {
      var x := Step(v, ts[0]).value;
      StepMember(v, ts[0], x);
      var i: nat :| i < Arity(v) && Member(v, i) == Field(ts[0], x);
      DecimalPlain(i);
      MemberSteps(v, i);
      StepsPlain(x, ts[1..]);
      assert ts == [ts[0]] + ts[1..];
    }
  }

  /** Whatever the keys, what a flattened node is observed to hold is what the pointers built for its alias
      sites evaluate to. */
  lemma ObservedAtPointers(raw: Value, id: string, x: Value)
    requires raw.WellFormed()
    ensures (exists b <- BoundVariables(raw) :: b.1 == id && Pointer(raw, b.0) == Some(x)) <==>
      (exists p, q :: Site(raw, p, q, id) && Pointer(raw, PointerText(p + q)) == Some(x))
  {
    hide *;
    if b :| b in BoundVariables(raw) && b.1 == id && Pointer(raw, b.0) == Some(x) {
      ScanIsSites(raw, b.0, id);
      var p, q :| Site(raw, p, q, id) && b.0 == PointerText(p + q);
    }
    if p, q :| Site(raw, p, q, id) && Pointer(raw, PointerText(p + q)) == Some(x) {
      ScanIsSites(raw, PointerText(p + q), id);
      assert (PointerText(p + q), id) in BoundVariables(raw);
    }
  }

  /** No token on the way to an alias of `id` reads as a separator or an escape. */
  ghost predicate PlainSites(raw: Value, id: string) {
    forall p, q :: Site(raw, p, q, id) ==> forall t <- p + q :: Plain(t)
  }

  /** Whatever a flattened node is observed to hold for a variable stands at one of its alias sites'
      token paths, and every value standing there is observed. */
  lemma ObservedAtSites(raw: Value, id: string, x: Value)
    requires raw.WellFormed() && PlainSites(raw, id)
    ensures (exists b <- BoundVariables(raw) :: b.1 == id && Pointer(raw, b.0) == Some(x)) <==>
      (exists p, q :: Site(raw, p, q, id) && At(raw, p + q) == Some(x))
  {
    hide *;
    ObservedAtPointers(raw, id, x);
    if p, q :| Site(raw, p, q, id) && Pointer(raw, PointerText(p + q)) == Some(x) {
      SiteRead(raw, p, q, id);
    }
    if p, q :| Site(raw, p, q, id) && At(raw, p + q) == Some(x) {
      SiteRead(raw, p, q, id);
    }
  }

  lemma SiteRead(raw: Value, p: seq<string>, q: seq<string>, id: string)
    requires PlainSites(raw, id) && Site(raw, p, q, id)
    ensures Pointer(raw, PointerText(p + q)) == At(raw, p + q)
  {
    assert forall t <- p + q :: Plain(t);
    hide Pointer, Site, PlainSites, PointerText, At;
    PointerLands(p + q);
  }

  /** Documents with plain keys only are such. */
  lemma PlainKeysSites(raw: Value, id: string)
    requires raw.WellFormed() && PlainKeys(raw)
    ensures PlainSites(raw, id)
  {
    hide Plain, Site, PlainKeys;
    forall p, q | Site(raw, p, q, id) ensures forall t <- p + q :: Plain(t) {
      SitePlain(raw, p, q, id);
    }
  }

  lemma SitePlain(raw: Value, p: seq<string>, q: seq<string>, id: string)
    requires raw.WellFormed() && PlainKeys(raw) && Site(raw, p, q, id)
    ensures forall t <- p + q :: Plain(t)
  {
    StepsPlain(raw, p);
    var o := At(raw, p).value;
    var bv := Json.Find(o.fields, BOUND).value;
    var i :| 0 <= i < |o.fields| && o.fields[i] == Field(BOUND, bv);
    assert o.fields[i] in o.fields;
    StepsPlain(bv, q);
  }
}
