/** What a dump shows of a document node, said member by member: which members are kept, what stands
    under `children`, and what the annotation says of each binding. */
module Projection {
  import opened Basics
  import opened Json
  import opened Model
  import opened Store
  import opened Flatten
  import opened WalkShape
  import opened Subtree
  import opened Restore
  import opened Answers
  import opened Scopes
  import opened Mirror
  import Aliases
  import Exact

  // ---- one resolved binding ----

  /** The first entry of the collection's modes under this mode id. */
  ghost predicate FirstAt(modes: seq<(string, string)>, mode: string, j: nat) {
    j < |modes| && modes[j].0 == mode && forall i :: 0 <= i < j ==> modes[i].0 != mode
  }

  /** `name` is what this collection calls the mode, or the mode's id if it does not know it. */
  ghost predicate Called(tables: VarTables, collection: string, mode: string, name: string) {
    if collection in tables.collections && exists p <- tables.collections[collection].modes :: p.0 == mode
    then exists j: nat :: FirstAt(tables.collections[collection].modes, mode, j)
                     && tables.collections[collection].modes[j].1 == name
    else name == mode
  }

  /** The last of the variable's values whose mode is called `name` is the i-th. */
  ghost predicate LastCalled(tables: VarTables, v: VariableRec, name: string, i: nat) {
    && i < |v.valuesByMode| && Called(tables, v.collectionId, v.valuesByMode[i].0, name)
    && forall j :: i < j < |v.valuesByMode| ==> !Called(tables, v.collectionId, v.valuesByMode[j].0, name)
  }

  /** An object giving each mode name the last of the variable's values under it. */
  ghost predicate ByMode(tables: VarTables, v: VariableRec, x: Value) {
    && x.Object? && KeySorted(x.fields)
    && forall name, w :: x.Get(name) == Some(w) <==>
         exists i: nat :: LastCalled(tables, v, name, i) && v.valuesByMode[i].1 == w
  }

  /** The annotation of one binding: its pointer and variable id, with the stored name and values if the
      variable is stored and `unresolved` otherwise; and no other member. */
  ghost predicate Resolves(tables: VarTables, b: (string, string), x: Value) {
    && x.Object? && KeySorted(x.fields)
    && x.Get("pointer") == Some(Str(b.0)) && x.Get("variable_id") == Some(Str(b.1))
    && (if b.1 in tables.variables then
          && x.Get("variable_name") == Some(Str(tables.variables[b.1].name))
          && x.Get("values_by_mode").Some? && ByMode(tables, tables.variables[b.1], x.Get("values_by_mode").value)
          && forall k :: k !in ["pointer", "variable_id", "variable_name", "values_by_mode"] ==> x.Get(k) == None
        else
          && x.Get("source") == Some(Str("unresolved"))
          && forall k :: k !in ["pointer", "variable_id", "source"] ==> x.Get(k) == None)
  }

  // ---- a whole dump ----

  predicate Identified(node: Value) {
    node.Get("id").Some? && node.Get("id").value.Str?
  }

  /** Those of the nodes that have an id, in order. */
  function WithIds(nodes: seq<Value>): (r: seq<Value>)
    ensures forall i :: 0 <= i < |r| ==> r[i] in nodes
  {
    if nodes == [] then [] else (if Identified(nodes[0]) then [nodes[0]] else []) + WithIds(nodes[1..])
  }

  function ListedKids(node: Value): (r: seq<Value>)
    ensures forall i :: 0 <= i < |r| ==> r[i] < node
  {
    match node.Get("children")
    case Some(Array(items)) => WithIds(items)
    case _ => []
  }

  /** A member a projection keeps. */
  predicate Asked(names: Option<seq<string>>, k: string) {
    names.None? || k == "id" || k == "name" || k == "type" || k in names.value
  }

  /** `v` shows `node`: its kept members as they stand; under `children` its children that have an id, in
      order, each shown in turn, or none at depth zero; under `resolved_variables`, if asked for, one
      entry per binding; and nothing else. */
  ghost predicate Projects(node: Value, depth: Option<nat>, shape: Shape, v: Value)
    decreases node
  {
    && v.Object? && KeySorted(v.fields)
    && (match v.Get("children")
        case Some(Array(kids)) =>
          if depth == Some(0) then kids == []
          else
            && |kids| == |ListedKids(node)|
            && forall i :: 0 <= i < |kids| ==> Projects(ListedKids(node)[i], Deeper(depth), shape, kids[i])
        case _ => false)
    && (shape.vars.Some? ==>
          match v.Get("resolved_variables")
          case Some(Array(entries)) =>
            var bindings := Aliases.BoundVariables(RawOf(node));
            && |entries| == |bindings|
            && forall i :: 0 <= i < |entries| ==> Resolves(shape.vars.value, bindings[i], entries[i])
          case _ => false)
    && forall k :: k != "children" && !(k == "resolved_variables" && shape.vars.Some?) ==>
         v.Get(k) == if Asked(shape.names, k) then node.Get(k) else None
  }

  // ---- the annotation ----

  lemma {:induction false} ModeInFirst(modes: seq<(string, string)>, mode: string)
    ensures ModeIn(modes, mode).None? ==> forall p <- modes :: p.0 != mode
    ensures ModeIn(modes, mode).Some? ==>
      exists j: nat :: FirstAt(modes, mode, j) && modes[j].1 == ModeIn(modes, mode).value
  {
    if modes != [] {
      ModeInFirst(modes[1..], mode);
      if modes[0].0 == mode {
        assert FirstAt(modes, mode, 0);
      } else if ModeIn(modes, mode).Some? {
        var j: nat :| FirstAt(modes[1..], mode, j) && modes[1..][j].1 == ModeIn(modes, mode).value;
        forall i | 0 <= i < j + 1 ensures modes[i].0 != mode {
          assert i > 0 ==> modes[i] == modes[1..][i - 1];
        }
        assert FirstAt(modes, mode, j + 1);
      }
    }
  }

  lemma NameIsCalled(tables: VarTables, collection: string, mode: string, name: string)
    ensures Called(tables, collection, mode, name) <==> ModeName(tables, collection, mode) == name
  {
    if collection in tables.collections {
      ModeInFirst(tables.collections[collection].modes, mode);
    }
  }

  /** The member set last under a key. */
  lemma {:induction false} LastSetAt(members: seq<(string, Value)>, k: string)
    ensures LastSet(members, k).None? ==> forall i :: 0 <= i < |members| ==> members[i].0 != k
    ensures LastSet(members, k).Some? ==> exists i: nat :: LastAt(members, k, i) && members[i].1 == LastSet(members, k).value
  {
    if members != [] {
      var n := |members| - 1;
      if members[n].0 == k {
        assert LastAt(members, k, n);
      } else {
        LastSetAt(members[..n], k);
        if LastSet(members, k).Some? {
          var i: nat :| LastAt(members[..n], k, i) && members[..n][i].1 == LastSet(members, k).value;
          assert LastAt(members, k, i);
        }
      }
    }
  }

  ghost predicate LastAt(members: seq<(string, Value)>, k: string, i: nat) {
    i < |members| && members[i].0 == k && forall j :: i < j < |members| ==> members[j].0 != k
  }

  function ModeValues(tables: VarTables, v: VariableRec): Value {
    Object(Members(Map((m: (string, Value)) => (ModeName(tables, v.collectionId, m.0), m.1), v.valuesByMode)))
  }

  lemma NamedByMode(tables: VarTables, v: VariableRec)
    ensures ByMode(tables, v, ModeValues(tables, v))
  {
    var named := Map((m: (string, Value)) => (ModeName(tables, v.collectionId, m.0), m.1), v.valuesByMode);
    var x := Object(Members(named));
    hide ModeName, Called, Members, LastSet, KeySorted;
    MembersFind(named, "");
    forall name, w
      ensures x.Get(name) == Some(w) <==> exists i: nat :: LastCalled(tables, v, name, i) && v.valuesByMode[i].1 == w
    {
      MembersFind(named, name);
      LastSetAt(named, name);
      forall i: nat | i < |named| ensures Called(tables, v.collectionId, v.valuesByMode[i].0, name) <==> named[i].0 == name {
        NameIsCalled(tables, v.collectionId, v.valuesByMode[i].0, name);
      }
      assert forall i: nat :: LastAt(named, name, i) <==> LastCalled(tables, v, name, i);
    }
  }

  lemma LastSetLast(front: seq<(string, Value)>, m: (string, Value), k: string)
    ensures LastSet(front + [m], k) == if m.0 == k then Some(m.1) else LastSet(front, k)
  {
    assert (front + [m])[..|front|] == front;
  }

  lemma ThreeMembers(a: (string, Value), b: (string, Value), c: (string, Value), k: string)
    ensures var x := Object(Members([a, b, c]));
      && KeySorted(x.fields)
      && x.Get(k) == if c.0 == k then Some(c.1) else if b.0 == k then Some(b.1) else if a.0 == k then Some(a.1) else None
  {
    hide LastSet, Members, KeySorted;
    MembersFind([a, b, c], k);
    LastSetLast([a, b], c, k);
    LastSetLast([a], b, k);
    LastSetLast([], a, k);
    NothingSet(k);
    assert [] + [a] == [a] && [a] + [b] == [a, b] && [a, b] + [c] == [a, b, c];
  }

  lemma FourMembers(a: (string, Value), b: (string, Value), c: (string, Value), d: (string, Value), k: string)
    ensures var x := Object(Members([a, b, c, d]));
      && KeySorted(x.fields)
      && x.Get(k) == if d.0 == k then Some(d.1) else if c.0 == k then Some(c.1)
                     else if b.0 == k then Some(b.1) else if a.0 == k then Some(a.1) else None
  {
    hide LastSet, Members, KeySorted;
    MembersFind([a, b, c, d], k);
    LastSetLast([a, b, c], d, k);
    LastSetLast([a, b], c, k);
    LastSetLast([a], b, k);
    LastSetLast([], a, k);
    NothingSet(k);
    assert [] + [a] == [a] && [a] + [b] == [a, b] && [a, b] + [c] == [a, b, c] && [a, b, c] + [d] == [a, b, c, d];
  }

  lemma NothingSet(k: string)
    ensures LastSet([], k) == None
  {
  }

  lemma BindingResolves(tables: VarTables, b: (string, string))
    ensures Resolves(tables, b, ResolvedBinding(tables, b))
  {
    var x := ResolvedBinding(tables, b);
    hide ByMode, KeySorted, ResolvedBinding, ModeValues, Value.Get;
    BindingMember(tables, b, "pointer");
    BindingMember(tables, b, "variable_id");
    BindingMember(tables, b, "variable_name");
    BindingMember(tables, b, "values_by_mode");
    BindingMember(tables, b, "source");
    if b.1 in tables.variables {
      NamedByMode(tables, tables.variables[b.1]);
    }
    forall k | k !in ["pointer", "variable_id", "variable_name", "values_by_mode", "source"] ensures x.Get(k) == None {
      BindingMember(tables, b, k);
    }
  }

  lemma BindingMember(tables: VarTables, b: (string, string), k: string)
    ensures var x := ResolvedBinding(tables, b);
      && x.Object? && KeySorted(x.fields)
      && x.Get(k) ==
           if k == "pointer" then Some(Str(b.0)) else if k == "variable_id" then Some(Str(b.1))
           else if b.1 !in tables.variables then (if k == "source" then Some(Str("unresolved")) else None)
           else if k == "variable_name" then Some(Str(tables.variables[b.1].name))
           else if k == "values_by_mode" then Some(ModeValues(tables, tables.variables[b.1])) else None
  {
    hide KeySorted, Members, ModeName;
    if b.1 in tables.variables {
      var v := tables.variables[b.1];
      FourMembers(("pointer", Str(b.0)), ("variable_id", Str(b.1)), ("variable_name", Str(v.name)),
                  ("values_by_mode", ModeValues(tables, v)), k);
    } else {
      ThreeMembers(("pointer", Str(b.0)), ("variable_id", Str(b.1)), ("source", Str("unresolved")), k);
    }
  }

  // ---- the projection ----

  lemma FieldBefore(f: Field, rest: seq<Field>)
    requires KeySorted(rest) && forall x <- rest :: StringLess(f.key, x.key)
    ensures KeySorted([f] + rest)
    ensures forall k :: Find([f] + rest, k) == if f.key == k then Some(f.value) else Find(rest, k)
  {
    hide StringLess;
    assert ([f] + rest)[1..] == rest;
    forall j | 0 <= j < |rest| ensures StringLess(f.key, rest[j].key) {
      assert rest[j] in rest;
    }
  }

  lemma KeptStep(fields: seq<Field>, names: Option<seq<string>>)
    ensures names.None? || fields == [] ==> Kept(fields, names) == fields
    ensures names.Some? && fields != [] ==>
      Kept(fields, names) == (if Asked(names, fields[0].key) then [fields[0]] else []) + Kept(fields[1..], names)
  {
    hide KeySorted;
  }

  lemma {:induction false} KeptFinds(fields: seq<Field>, names: Option<seq<string>>, k: string)
    requires KeySorted(fields)
    ensures KeySorted(Kept(fields, names)) && forall f <- Kept(fields, names) :: f in fields
    ensures Find(Kept(fields, names), k) == if Asked(names, k) then Find(fields, k) else None
  {
    KeptStep(fields, names);
    if names.Some? && fields != [] {
      hide *;
      HeadIsLeast(fields);
      KeptFinds(fields[1..], names, k);
      var rest := Kept(fields[1..], names);
      FieldBefore(fields[0], rest);
      FieldBefore(fields[0], fields[1..]);
      assert fields == [fields[0]] + fields[1..];
      if !Asked(names, fields[0].key) {
        assert Kept(fields, names) == rest;
        assert fields[0].key == k ==> Find(rest, k) == None;
      }
    } else {
      AllAsked(names, k);
    }
  }

  lemma AllAsked(names: Option<seq<string>>, k: string)
    ensures names.None? ==> Asked(names, k)
    ensures Find([], k) == None
  {
  }

  lemma HeadIsLeast(fields: seq<Field>)
    requires fields != [] && KeySorted(fields)
    ensures KeySorted(fields[1..]) && forall x <- fields[1..] :: StringLess(fields[0].key, x.key)
  {
    hide StringLess;
  }

  /** The members of one dumped node. */
  lemma DumpedFinds(node: Value, shape: Shape, kids: seq<Value>, k: string)
    requires node.Object? && KeySorted(node.fields)
    ensures var v := Dumped(RawOf(node), Aliases.BoundVariables(RawOf(node)), shape, kids);
      var entries := Map((b: (string, string)) => if shape.vars.Some? then ResolvedBinding(shape.vars.value, b) else Null,
                         Aliases.BoundVariables(RawOf(node)));
      && v.Object? && KeySorted(v.fields)
      && v.Get(k) == if k == "resolved_variables" && shape.vars.Some? then Some(Array(entries))
                     else if k == "children" then Some(Array(kids))
                     else if Asked(shape.names, k) then node.Get(k) else None
  {
    hide KeySorted, SetMember, DropMember, Kept, ResolvedBinding, Find, Aliases.BoundVariables;
    var raw, bound := RawOf(node), Aliases.BoundVariables(RawOf(node));
    DropKeeps(node.fields, "children");
    FindDropped(node.fields, "children", k);
    KeptFinds(raw.fields, shape.names, k);
    var kept := Kept(raw.fields, shape.names);
    SetKeeps(kept, "children", Array(kids));
    FindSet(kept, "children", Array(kids), k);
    if shape.vars.Some? {
      var all := SetMember(kept, "children", Array(kids));
      var entries := Map((b: (string, string)) => ResolvedBinding(shape.vars.value, b), bound);
      assert entries == Map((b: (string, string)) =>
        if shape.vars.Some? then ResolvedBinding(shape.vars.value, b) else Null, bound);
      SetKeeps(all, "resolved_variables", Array(entries));
      FindSet(all, "resolved_variables", Array(entries), k);
    }
  }

  lemma ShownNode(node: Value, depth: Option<nat>, shape: Shape)
    ensures Shown(node, depth, ShowWith(shape)) == Dumped(RawOf(node), Aliases.BoundVariables(RawOf(node)), shape,
      if depth == Some(0) then [] else ShownKids(node, 0, depth, ShowWith(shape)))
  {
    hide Dumped, ShownKids;
  }

  lemma ListedAre(node: Value)
    ensures ListedKids(node) == WithIds(KidsOf(node)[0..])
  {
    assert KidsOf(node)[0..] == KidsOf(node);
    hide WithIds;
    assert [] == WithIds([]) by { NoneListed(); }
  }

  lemma NoneListed()
    ensures WithIds([]) == []
  {
  }

  lemma ListedStep(node: Value, i: nat)
    ensures i >= |KidsOf(node)| ==> i == |KidsOf(node)| ==> WithIds(KidsOf(node)[i..]) == []
    ensures i < |KidsOf(node)| ==>
      WithIds(KidsOf(node)[i..]) ==
        (if IdOf(KidsOf(node)[i]).Some? then [KidsOf(node)[i]] else []) + WithIds(KidsOf(node)[i + 1..])
  {
    hide KidsOf;
    if i < |KidsOf(node)| {
      var kids := KidsOf(node)[i..];
      assert kids[0] == KidsOf(node)[i] && kids[1..] == KidsOf(node)[i + 1..];
    }
  }

  /** Each of the values shows the node in its place. */
  ghost predicate AllProject(nodes: seq<Value>, depth: Option<nat>, shape: Shape, shown: seq<Value>) {
    |shown| == |nodes| && forall i :: 0 <= i < |shown| ==> Projects(nodes[i], depth, shape, shown[i])
  }

  lemma AllProjectStep(node: Value, nodes: seq<Value>, depth: Option<nat>, shape: Shape, v: Value, shown: seq<Value>)
    requires Projects(node, depth, shape, v) && AllProject(nodes, depth, shape, shown)
    ensures AllProject([node] + nodes, depth, shape, [v] + shown)
  {
    hide Projects;
  }

  lemma NoneProject(depth: Option<nat>, shape: Shape)
    ensures AllProject([], depth, shape, [])
  {
  }

  lemma {:induction false} ShownProjects(node: Value, depth: Option<nat>, shape: Shape)
    requires node.WellFormed() && IdOf(node).Some?
    ensures Projects(node, depth, shape, Shown(node, depth, ShowWith(shape)))
    decreases node, |KidsOf(node)| + 1
  {
    hide Shown, Projects, AllProject;
    var kids: seq<Value> := [];
    if depth != Some(0) {
      kids := ShownKids(node, 0, depth, ShowWith(shape));
      KidsProject(node, 0, depth, shape);
      ListedAre(node);
    }
    hide ShownKids, KidsOf;
    ShownNode(node, depth, shape);
    DumpedProjects(node, depth, shape, kids);
  }

  lemma DumpedProjects(node: Value, depth: Option<nat>, shape: Shape, kids: seq<Value>)
    requires node.Object? && KeySorted(node.fields)
    requires if depth == Some(0) then kids == [] else AllProject(ListedKids(node), Deeper(depth), shape, kids)
    ensures Projects(node, depth, shape, Dumped(RawOf(node), Aliases.BoundVariables(RawOf(node)), shape, kids))
  {
    hide KeySorted, Dumped, ListedKids, Resolves, Aliases.BoundVariables, RawOf, ResolvedBinding, Asked;
    DumpedFinds(node, shape, kids, "children");
    forall k { DumpedFinds(node, shape, kids, k); }
    var v := Dumped(RawOf(node), Aliases.BoundVariables(RawOf(node)), shape, kids);
    assert v.Get("children") == Some(Array(kids));
    if shape.vars.Some? {
      assert v.Get("resolved_variables").Some?;
      forall b { BindingResolves(shape.vars.value, b); }
    }
  }

  lemma {:induction false} KidsProject(node: Value, i: nat, depth: Option<nat>, shape: Shape)
    requires node.WellFormed() && depth != Some(0) && i <= |KidsOf(node)|
    ensures AllProject(WithIds(KidsOf(node)[i..]), Deeper(depth), shape, ShownKids(node, i, depth, ShowWith(shape)))
    decreases node, |KidsOf(node)| - i
  {
    ListedStep(node, i);
    if i < |KidsOf(node)| {
      var kid := KidsOf(node)[i];
      KidWellFormed(node, i);
      KidsProject(node, i + 1, depth, shape);
      hide *;
      ShownStep(node, i, depth, ShowWith(shape));
      if IdOf(kid).Some? {
        ShownProjects(kid, Deeper(depth), shape);
        AllProjectStep(kid, WithIds(KidsOf(node)[i + 1..]), Deeper(depth), shape,
                       Shown(kid, Deeper(depth), ShowWith(shape)), ShownKids(node, i + 1, depth, ShowWith(shape)));
      }
    } else {
      NoneProject(Deeper(depth), shape);
    }
  }

  // ---- a dump is determined by what it shows ----

  lemma {:induction false} SameMembers(a: seq<Field>, b: seq<Field>)
    requires KeySorted(a) && KeySorted(b) && forall k :: Find(a, k) == Find(b, k)
    ensures a == b
  {
    HeadFound(a);
    HeadFound(b);
    if a != [] && b != [] {
      SameHeads(a, b);
      HeadIsLeast(a);
      HeadIsLeast(b);
      assert a == [a[0]] + a[1..] && b == [b[0]] + b[1..];
      forall k ensures Find(a[1..], k) == Find(b[1..], k) {
        if k == a[0].key {
          NotLater(a);
          NotLater(b);
        } else {
          assert Find(a, k) == Find(b, k);
        }
      }
      SameMembers(a[1..], b[1..]);
    }
  }

  lemma HeadFound(a: seq<Field>)
    ensures a != [] ==> Find(a, a[0].key).Some?
    ensures forall k :: Find([], k) == None
  {
  }

  lemma NotLater(a: seq<Field>)
    requires a != [] && KeySorted(a)
    ensures Find(a[1..], a[0].key) == None
  {
    hide StringLess;
    StringOrder();
    HeadIsLeast(a);
  }

  lemma SameHeads(a: seq<Field>, b: seq<Field>)
    requires a != [] && b != [] && KeySorted(a) && KeySorted(b) && forall k :: Find(a, k) == Find(b, k)
    ensures a[0] == b[0]
  {
    hide StringLess;
    StringOrder();
    assert Find(a, a[0].key) == Find(b, a[0].key) && Find(b, b[0].key) == Find(a, b[0].key);
    var i :| 0 <= i < |b| && b[i] == a[0];
    var j :| 0 <= j < |a| && a[j] == b[0];
  }

  lemma SameObjects(x: Value, y: Value)
    requires x.Object? && y.Object? && KeySorted(x.fields) && KeySorted(y.fields)
    requires forall k :: x.Get(k) == y.Get(k)
    ensures x == y
  {
    forall k ensures Find(x.fields, k) == Find(y.fields, k) {
      assert x.Get(k) == y.Get(k);
    }
    SameMembers(x.fields, y.fields);
  }

  lemma ByModeUnique(tables: VarTables, v: VariableRec, x: Value, y: Value)
    requires ByMode(tables, v, x) && ByMode(tables, v, y)
    ensures x == y
  {
    hide LastCalled, KeySorted;
    forall k ensures x.Get(k) == y.Get(k) {
      if x.Get(k).Some? {
        assert x.Get(k) == Some(x.Get(k).value);
        assert y.Get(k) == Some(x.Get(k).value);
      } else if y.Get(k).Some? {
        assert y.Get(k) == Some(y.Get(k).value);
        assert x.Get(k) == Some(y.Get(k).value);
      }
    }
    SameObjects(x, y);
  }

  lemma ResolvesUnique(tables: VarTables, b: (string, string), x: Value, y: Value)
    requires Resolves(tables, b, x) && Resolves(tables, b, y)
    ensures x == y
  {
    hide ByMode, KeySorted;
    if b.1 in tables.variables {
      ByModeUnique(tables, tables.variables[b.1], x.Get("values_by_mode").value, y.Get("values_by_mode").value);
    }
    SameObjects(x, y);
  }

  lemma {:induction false} ProjectsUnique(node: Value, depth: Option<nat>, shape: Shape, v: Value, w: Value)
    requires Projects(node, depth, shape, v) && Projects(node, depth, shape, w)
    ensures v == w
    decreases node
  {
    hide KeySorted, Resolves, Aliases.BoundVariables, Find;
    var kids, kids' := v.Get("children").value.items, w.Get("children").value.items;
    if depth != Some(0) {
      forall i | 0 <= i < |kids| ensures kids[i] == kids'[i] {
        ProjectsUnique(ListedKids(node)[i], Deeper(depth), shape, kids[i], kids'[i]);
      }
    }
    assert kids == kids';
    if shape.vars.Some? {
      EntriesUnique(node, shape, v.Get("resolved_variables").value.items, w.Get("resolved_variables").value.items);
    }
    SameObjects(v, w);
  }

  lemma EntriesUnique(node: Value, shape: Shape, xs: seq<Value>, ys: seq<Value>)
    requires shape.vars.Some?
    requires var bindings := Aliases.BoundVariables(RawOf(node));
      && |xs| == |bindings| == |ys|
      && forall i :: 0 <= i < |xs| ==>
           Resolves(shape.vars.value, bindings[i], xs[i]) && Resolves(shape.vars.value, bindings[i], ys[i])
    ensures xs == ys
  {
    hide Resolves, Aliases.BoundVariables, RawOf;
    var bindings := Aliases.BoundVariables(RawOf(node));
    forall i | 0 <= i < |xs| ensures xs[i] == ys[i] {
      ResolvesUnique(shape.vars.value, bindings[i], xs[i], ys[i]);
    }
  }

  // ---- the dumps of a mirror ----

  /** A dump of any node of the synced document is exactly the value that shows the node, to the depth,
      under the projection and with the annotation asked for. */
  lemma DumpProjects(t: Tables, at: Place, depth: Option<nat>, shape: Shape, rank: map<string, nat>, v: Value)
    requires Settled(t, at) && Countable(at.node) && Ends(t, at.Id(), depth, rank) && at.node.WellFormed()
    ensures at.Id() in t.nodes && t.nodes[at.Id()].id == at.Id()
    ensures DumpOf(t, at.Id(), depth, shape, rank) == Ok(v) <==> Projects(at.node, depth, shape, v)
  {
    hide *;
    SettledStored(t, at);
    DumpShows(t, at, depth, shape, rank);
    ShownProjects(at.node, depth, shape);
    if Projects(at.node, depth, shape, v) {
      ProjectsUnique(at.node, depth, shape, v, Shown(at.node, depth, ShowWith(shape)));
    }
  }

  lemma SettledStored(t: Tables, at: Place)
    requires Settled(t, at)
    ensures at.Id() in t.nodes && t.nodes[at.Id()].id == at.Id() && IdOf(at.node).Some?
  {
    hide NodeRecord, Agrees, DistinctNodes;
    AgreesBelow(t, at.node, at.parent, at.index, at.page);
    RecordFields(at.node, at.Id(), at.parent, at.index, at.Own());
  }

  /** So it is after any run, for every node of the document last pulled. */
  lemma RunDump(rows: Rows, events: seq<Event>, t: Tables, steps: seq<nat>, depth: Option<nat>, shape: Shape, v: Value)
    requires (forall e <- events :: Sound(e)) && Current(events).Some? && Rebuilt(t, Run(rows, events))
    requires var resp := Current(events).value; DistinctNodes(WalkOf(resp)) && Countable(DocumentOf(resp))
    requires Locate(Top(DocumentOf(Current(events).value)), steps).Some?
    ensures var resp := Current(events).value;
      var at := Locate(Top(DocumentOf(resp)), steps).value;
      && at.Id() in t.nodes && t.nodes[at.Id()].id == at.Id() && Ends(t, at.Id(), depth, RankBy(WalkOf(resp)))
      && (DumpOf(t, at.Id(), depth, shape, RankBy(WalkOf(resp))) == Ok(v) <==> Projects(at.node, depth, shape, v))
  {
    var resp := Current(events).value;
    var document := DocumentOf(resp);
    hide *;
    RunMirrors(rows, events);
    MirrorHolds(t, Run(rows, events), resp);
    WalkTop(resp);
    DocumentWellFormed(resp);
    LocatedTop(document, steps);
    TopSettled(t, document);
    LocatedSettled(t, Top(document), steps);
    LocatedCountable(Top(document), steps);
    LocatedRanked(t, resp, steps);
    Exact.LocatedWellFormed(Top(document), steps);
    DumpProjects(t, Locate(Top(document), steps).value, depth, shape, RankBy(WalkOf(resp)), v);
  }
}
