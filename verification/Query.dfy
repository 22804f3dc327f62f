/** Read answers over the node table and its indexes: scopes, ancestor chains, depths, filtered
    listings and nested dumps. */
module Query {
  import opened Basics
  import opened Json
  import opened Model
  import opened Store

  /** The values stored under one key of the children multimap. */
  function Under(children: set<ChildPosting>, p: string): set<(nat, string)> {
    set e | e in children && e.0 == p :: e.1
  }

  ghost predicate Edge(children: set<ChildPosting>, p: string, c: string) {
    exists k: nat :: (p, (k, c)) in children
  }

  // ---- scopes ----

  ghost predicate Trail(children: set<ChildPosting>, xs: seq<string>) {
    xs != [] && forall i :: 0 <= i < |xs| - 1 ==> Edge(children, xs[i], xs[i + 1])
  }

  ghost predicate TrailTo(children: set<ChildPosting>, from: string, to: string, xs: seq<string>) {
    Trail(children, xs) && xs[0] == from && xs[|xs| - 1] == to
  }

  /** `to` is `from` itself or below it, along any number of child edges. */
  ghost predicate Reachable(children: set<ChildPosting>, from: string, to: string) {
    exists xs :: TrailTo(children, from, to, xs)
  }

  lemma ReachableSelf(children: set<ChildPosting>, x: string)
    ensures Reachable(children, x, x)
  {
    assert TrailTo(children, x, x, [x]);
  }

  lemma ReachableStep(children: set<ChildPosting>, from: string, x: string, c: string)
    requires Reachable(children, from, x) && Edge(children, x, c)
    ensures Reachable(children, from, c)
  {
    var xs :| TrailTo(children, from, x, xs);
    assert TrailTo(children, from, c, xs + [c]);
  }

  lemma {:induction false} ClosedTrail(children: set<ChildPosting>, s: set<string>, xs: seq<string>)
    requires Trail(children, xs) && xs[0] in s
    requires forall x, c :: x in s && Edge(children, x, c) ==> c in s
    ensures xs[|xs| - 1] in s
  {
    if |xs| > 1 {
      assert Edge(children, xs[0], xs[1]);
      forall i | 0 <= i < |xs[1..]| - 1 ensures Edge(children, xs[1..][i], xs[1..][i + 1]) {
        assert Edge(children, xs[i + 1], xs[i + 2]);
      }
      ClosedTrail(children, s, xs[1..]);
    }
  }

  /** Breadth-first search of the children index; it ends on every store, cyclic ones included. */
  method ScopeIds(children: set<ChildPosting>, root: string) returns (visited: set<string>)
    ensures forall x :: x in visited <==> Reachable(children, root, x)
  {
    ghost var all := {root} + set e | e in children :: e.1.1;
    visited := {root};
    var queue := [root];
    ReachableSelf(children, root);
    while queue != []
      invariant root in visited && visited <= all && Elements(queue) <= visited
      invariant forall x <- visited :: Reachable(children, root, x)
      invariant forall x, c :: x in visited && x !in queue && Edge(children, x, c) ==> c in visited
      decreases all - visited, |queue|
    {
      var current := queue[0];
      ghost var before, queued := visited, queue;
      queue := queue[1..];
      assert queued == [current] + queue;
      var edges := Under(children, current);
      while edges != {}
        invariant edges <= Under(children, current)
        invariant before <= visited <= all && Elements(queue) <= visited
        invariant forall x <- visited :: Reachable(children, root, x)
        invariant forall x <- before :: x == current || x in queue || x !in queued
        invariant forall x <- visited - before :: x in queue
        invariant forall e <- Under(children, current) - edges :: e.1 in visited
        invariant visited == before ==> queue == queued[1..]
        decreases edges
      {
        var e :| e in edges;
        edges := edges - {e};
        if e.1 !in visited {
          assert (current, e) in children;
          ReachableStep(children, root, current, e.1);
          visited := visited + {e.1};
          queue := queue + [e.1];
        }
      }
      forall x, c | x in visited && x !in queue && Edge(children, x, c) ensures c in visited {
        if x == current {
          var k: nat :| (x, (k, c)) in children;
          assert (k, c) in Under(children, current);
        }
      }
    }
    forall x | Reachable(children, root, x) ensures x in visited {
      var xs :| TrailTo(children, root, x, xs);
      ClosedTrail(children, visited, xs);
    }
  }

  method ResolveUnder(nodes: Nodes, children: set<ChildPosting>, under: Option<string>)
    returns (r: Result<Option<set<string>>, string>)
    ensures r.Err? <==> under.Some? && under.value !in nodes
    ensures r.Ok? ==> (r.value.None? <==> under.None?)
    ensures r.Ok? && under.Some? ==> forall x :: x in r.value.value <==> Reachable(children, under.value, x)
  {
    match under
    case None =>
      return Ok(None);
    case Some(id) =>
      if id !in nodes {
        return Err(id);
      }
      var scope := ScopeIds(children, id);
      return Ok(Some(scope));
  }

  // ---- ancestor chains ----

  /** `c` is the chain of records from a parentless root down to `id`. */
  ghost predicate RootPath(nodes: Nodes, id: string, c: seq<NodeRec>) {
    && c != [] && c[0].parentId == None && c[|c| - 1].id == id
    && (forall i :: 0 <= i < |c| ==> c[i].id in nodes && nodes[c[i].id] == c[i])
    && (forall i :: 0 < i < |c| ==> c[i].parentId == Some(c[i - 1].id))
  }

  /** `up` climbs from `id`, each record the parent of the one before it. */
  ghost predicate Climb(nodes: Nodes, id: string, up: seq<NodeRec>) {
    && (up != [] ==> up[0].id == id)
    && (forall i :: 0 <= i < |up| ==> up[i].id in nodes && nodes[up[i].id] == up[i])
    && (forall i :: 0 < i < |up| ==> up[i - 1].parentId == Some(up[i].id))
  }

  /** The id a climb arrives at next, if any. */
  function NextUp(id: string, up: seq<NodeRec>): Option<string> {
    if up == [] then Some(id) else up[|up| - 1].parentId
  }

  lemma {:induction false} ClimbFollows(nodes: Nodes, id: string, up: seq<NodeRec>, c: seq<NodeRec>)
    requires Climb(nodes, id, up) && RootPath(nodes, id, c)
    ensures |up| <= |c| && forall i :: 0 <= i < |up| ==> up[i] == c[|c| - 1 - i]
    ensures NextUp(id, up) == if |up| == |c| then None else Some(c[|c| - 1 - |up|].id)
  {
    if up != [] {
      var m := |up| - 1;
      var lower := up[..m];
      ClimbFollows(nodes, id, lower, c);
      assert NextUp(id, lower) == Some(up[m].id);
      assert up[m] == nodes[up[m].id] == c[|c| - 1 - m];
    }
  }

  lemma {:induction false} RootPathDistinct(nodes: Nodes, id: string, c: seq<NodeRec>, i: nat, j: nat)
    requires RootPath(nodes, id, c) && i < j < |c|
    ensures c[i].id != c[j].id
  {
    if c[i].id == c[j].id {
      assert c[i] == nodes[c[i].id] == c[j];
      assert c[j].parentId == Some(c[j - 1].id);
      RootPathDistinct(nodes, id, c, i - 1, j - 1);
    }
  }

  /** A climb that leaves the table or comes back to itself shows there is no root path. */
  lemma NoRootPath(nodes: Nodes, id: string, up: seq<NodeRec>, next: string)
    requires Climb(nodes, id, up) && NextUp(id, up) == Some(next)
    requires next !in nodes || exists n: NodeRec :: n in up && n.id == next
    ensures forall c :: !RootPath(nodes, id, c)
  {
    forall c: seq<NodeRec> ensures !RootPath(nodes, id, c) {
      if RootPath(nodes, id, c) {
        ClimbFollows(nodes, id, up, c);
        assert c[|c| - 1 - |up|].id == next;
        var n: NodeRec :| n in up && n.id == next;
        var k :| 0 <= k < |up| && up[k] == n;
        RootPathDistinct(nodes, id, c, |c| - 1 - |up|, |c| - 1 - k);
      }
    }
  }

  lemma RootPathUnique(nodes: Nodes, id: string, c: seq<NodeRec>, d: seq<NodeRec>)
    requires RootPath(nodes, id, c) && RootPath(nodes, id, d)
    ensures c == d
  {
    var up := Reverse(c);
    assert Climb(nodes, id, up) && NextUp(id, up) == None;
    ClimbFollows(nodes, id, up, d);
    forall i | 0 <= i < |c| ensures c[i] == d[i] {
      assert up[|c| - 1 - i] == c[i];
    }
  }

  function Reverse(s: seq<NodeRec>): (r: seq<NodeRec>)
    ensures |r| == |s| && forall i :: 0 <= i < |s| ==> r[i] == s[|s| - 1 - i]
  {
    seq(|s|, i requires 0 <= i < |s| => s[|s| - 1 - i])
  }

  ghost function IdsOf(recs: seq<NodeRec>): set<string> {
    set n | n in recs :: n.id
  }

  lemma ClimbOn(nodes: Nodes, id: string, up: seq<NodeRec>, current: string)
    requires KeyedById(nodes) && Climb(nodes, id, up) && NextUp(id, up) == Some(current) && current in nodes
    ensures Climb(nodes, id, up + [nodes[current]]) && NextUp(id, up + [nodes[current]]) == nodes[current].parentId
    ensures IdsOf(up + [nodes[current]]) == IdsOf(up) + {current}
  {
    var more := up + [nodes[current]];
    forall n ensures n in more <==> n in up || n == nodes[current] { }
  }

  lemma ClimbEnds(nodes: Nodes, id: string, up: seq<NodeRec>)
    requires Climb(nodes, id, up) && NextUp(id, up) == None
    ensures RootPath(nodes, id, Reverse(up))
  {
  }

  lemma ClimbStuck(nodes: Nodes, id: string, up: seq<NodeRec>, next: string)
    requires Climb(nodes, id, up) && NextUp(id, up) == Some(next) && (next !in nodes || next in IdsOf(up))
    ensures forall c :: !RootPath(nodes, id, c)
  {
    hide RootPath, Climb;
    NoRootPath(nodes, id, up, next);
  }

  lemma NothingClimbed(nodes: Nodes, id: string)
    ensures Climb(nodes, id, []) && NextUp(id, []) == Some(id) && IdsOf([]) == {}
  {
  }

  /** Root-to-node chain; an error exactly when there is none, because an ancestor is missing or the
      parents form a cycle. */
  method Path(nodes: Nodes, id: string) returns (r: Result<seq<NodeRec>, string>)
    requires KeyedById(nodes)
    ensures r.Ok? ==> RootPath(nodes, id, r.value)
    ensures r.Err? ==> forall c :: !RootPath(nodes, id, c)
  {
    hide Climb, RootPath, NextUp, KeyedById, IdsOf;
    var chain: seq<NodeRec> := [];
    var visited: set<string> := {};
    var current := id;
    NothingClimbed(nodes, id);
    while true
      invariant Climb(nodes, id, chain) && NextUp(id, chain) == Some(current)
      invariant visited == IdsOf(chain) && visited <= nodes.Keys
      decreases nodes.Keys - visited
    {
      if current in visited {
        ClimbStuck(nodes, id, chain, current);
        return Err(current);
      }
      if current !in nodes {
        ClimbStuck(nodes, id, chain, current);
        return Err(current);
      }
      visited := visited + {current};
      var n := nodes[current];
      ClimbOn(nodes, id, chain, current);
      chain := chain + [n];
      match n.parentId
      case Some(p) => current := p;
      case None =>
        ClimbEnds(nodes, id, chain);
        return Ok(Reverse(chain));
    }
  }

  /** The climb from `id` goes no further: it is at a root, at an id without a record, or back at an id
      it has been at. */
  ghost predicate Furthest(nodes: Nodes, id: string, up: seq<NodeRec>) {
    && Climb(nodes, id, up)
    && (forall i, j :: 0 <= i < j < |up| ==> up[i].id != up[j].id)
    && (NextUp(id, up).Some? ==> NextUp(id, up).value !in nodes || NextUp(id, up).value in IdsOf(up))
  }

  /** Depth by walking parents up: the parent links followed in all, which is the depth counted so far
      when the climb ends at a missing ancestor or on a cycle. */
  method DepthOf(nodes: Nodes, id: string) returns (depth: nat, ghost up: seq<NodeRec>)
    requires KeyedById(nodes)
    ensures Furthest(nodes, id, up) && depth == if NextUp(id, up).Some? then |up| else |up| - 1
    ensures forall c :: RootPath(nodes, id, c) ==> depth == |c| - 1
  {
    hide Climb, RootPath, NextUp, KeyedById;
    depth := 0;
    var current := id;
    var visited: set<string> := {};
    up := [];
    NothingClimbed(nodes, id);
    while current in nodes
      invariant Climb(nodes, id, up) && NextUp(id, up) == Some(current) && depth == |up|
      invariant forall i, j :: 0 <= i < j < |up| ==> up[i].id != up[j].id
      invariant visited == IdsOf(up) && visited <= nodes.Keys
      decreases nodes.Keys - visited
    {
      if current in visited {
        ClimbStuck(nodes, id, up, current);
        return;
      }
      visited := visited + {current};
      var n := nodes[current];
      KeyedId(nodes, current);
      ClimbOn(nodes, id, up, current);
      assert forall m <- up :: m.id in IdsOf(up);
      up := up + [n];
      match n.parentId
      case Some(p) =>
        depth := depth + 1;
        current := p;
      case None =>
        forall c | RootPath(nodes, id, c) ensures depth == |c| - 1 {
          ClimbFollows(nodes, id, up, c);
        }
        return;
    }
    ClimbStuck(nodes, id, up, current);
  }

  lemma KeyedId(nodes: Nodes, k: string)
    requires KeyedById(nodes) && k in nodes
    ensures nodes[k].id == k
  {
  }

  // ---- scopes and ancestors agree ----

  lemma EdgeIsParent(t: Tables, p: string, c: string)
    requires Indexed(t)
    ensures Edge(t.children, p, c) <==> c in t.nodes && t.nodes[c].parentId == Some(p)
  {
    if Edge(t.children, p, c) {
      var k: nat :| (p, (k, c)) in t.children;
      var x :| x in t.nodes && (p, (k, c)) in ChildSet(t.nodes[x]);
      assert t.nodes[x].id == x == c;
    }
    if c in t.nodes && t.nodes[c].parentId == Some(p) {
      assert (p, (t.nodes[c].childIndex, c)) in ChildSet(t.nodes[c]);
    }
  }

  /** On any store whatever, a node with a root path is in the scope of `root` exactly when that
      path passes through `root`. */
  lemma ScopeIsAncestry(t: Tables, root: string, id: string, c: seq<NodeRec>)
    requires Indexed(t) && RootPath(t.nodes, id, c)
    ensures Reachable(t.children, root, id) <==> exists n :: n in c && n.id == root
  {
    if Reachable(t.children, root, id) {
      var xs :| TrailTo(t.children, root, id, xs);
      TrailFollows(t, id, c, xs, |xs|);
      assert c[|c| - |xs|] in c;
    }
    if n :| n in c && n.id == root {
      var i :| 0 <= i < |c| && c[i] == n;
      var xs := seq(|c| - i, k requires 0 <= k < |c| - i => c[i + k].id);
      forall k | 0 <= k < |xs| - 1 ensures Edge(t.children, xs[k], xs[k + 1]) {
        EdgeIsParent(t, xs[k], xs[k + 1]);
      }
      assert TrailTo(t.children, root, id, xs);
    }
  }

  lemma {:induction false} TrailFollows(t: Tables, id: string, c: seq<NodeRec>, xs: seq<string>, m: nat)
    requires Indexed(t) && RootPath(t.nodes, id, c) && Trail(t.children, xs) && xs[|xs| - 1] == id
    requires 0 < m <= |xs|
    ensures m <= |c| && xs[|xs| - m] == c[|c| - m].id
  {
    if m > 1 {
      TrailFollows(t, id, c, xs, m - 1);
      assert Edge(t.children, xs[|xs| - m], xs[|xs| - m + 1]);
      EdgeIsParent(t, xs[|xs| - m], xs[|xs| - m + 1]);
    }
  }

  // ---- filtered listings ----

  /** What a plain scan of every node selects: by type, page and position in the tree. */
  ghost predicate Selected(t: Tables, n: NodeRec, nodeType: string, page: Option<string>, under: Option<string>) {
    && n.id in t.nodes && t.nodes[n.id] == n
    && n.nodeType == nodeType
    && (page.Some? ==> n.pageId == page.value)
    && (under.Some? ==> Reachable(t.children, under.value, n.id))
  }

  /** The nodes of one type through the type index, then the page filter and the scope. The type is
      the caller's argument in upper case. */
  method Matching(t: Tables, nodeType: string, page: Option<string>, under: Option<string>)
    returns (r: Result<set<NodeRec>, string>)
    requires Indexed(t)
    ensures r.Err? <==> under.Some? && under.value !in t.nodes
    ensures r.Ok? ==> forall n :: n in r.value <==> Selected(t, n, nodeType, page, under)
  {
    var ids := set e | e in t.byType && e.0 == nodeType :: e.1;
    var scope := ResolveUnder(t.nodes, t.children, under);
    match scope
    case Err(id) =>
      return Err(id);
    case Ok(s) =>
      var found := set id | id in ids && id in t.nodes
        && (page.None? || t.nodes[id].pageId == page.value)
        && (s.None? || id in s.value) :: t.nodes[id];
      forall n ensures n in found <==> Selected(t, n, nodeType, page, under) {
        if n.id in t.nodes && t.nodes[n.id] == n {
          InTypeIndex(t, n.id, nodeType);
          assert n.id in ids <==> (nodeType, n.id) in t.byType;
        }
      }
      return Ok(found);
  }

  lemma InTypeIndex(t: Tables, id: string, nodeType: string)
    requires Indexed(t) && id in t.nodes
    ensures (nodeType, id) in t.byType <==> t.nodes[id].nodeType == nodeType
  {
    if (nodeType, id) in t.byType {
      var x :| x in t.nodes && (nodeType, id) in TypeSet(t.nodes[x]);
      assert t.nodes[x].id == x;
    }
    if t.nodes[id].nodeType == nodeType {
      assert (nodeType, id) in TypeSet(t.nodes[id]);
    }
  }

  method Find(t: Tables, nodeType: string, page: Option<string>, under: Option<string>)
    returns (r: Result<seq<(string, string, string)>, string>)
    requires Indexed(t)
    ensures r.Err? <==> under.Some? && under.value !in t.nodes
    ensures r.Ok? ==> Increasing(TripleLess, r.value)
    ensures r.Ok? ==> forall row :: row in r.value <==>
      exists n :: Selected(t, n, nodeType, page, under) && row == (n.id, n.name, n.pageId)
  {
    var found := Matching(t, nodeType, page, under);
    match found
    case Err(id) =>
      return Err(id);
    case Ok(ns) =>
      var rows := set n | n in ns :: (n.id, n.name, n.pageId);
      var sorted := SortedTriples(rows);
      assert forall row :: row in sorted <==> row in Elements(sorted);
      return Ok(sorted);
  }

  method Text(t: Tables, page: Option<string>, under: Option<string>)
    returns (r: Result<seq<(string, string, string)>, string>)
    requires Indexed(t)
    ensures r.Err? <==> under.Some? && under.value !in t.nodes
    ensures r.Ok? ==> Increasing(TripleLess, r.value)
    ensures r.Ok? ==> forall row :: row in r.value <==>
      exists n :: Selected(t, n, "TEXT", page, under) && row == (n.id, GetOr(n.text, ""), n.pageId)
  {
    var found := Matching(t, "TEXT", page, under);
    match found
    case Err(id) =>
      return Err(id);
    case Ok(ns) =>
      var rows := set n | n in ns :: (n.id, GetOr(n.text, ""), n.pageId);
      var sorted := SortedTriples(rows);
      assert forall row :: row in sorted <==> row in Elements(sorted);
      return Ok(sorted);
  }
}
