/** Below which nodes the unlimited recursion of a nested answer ends: exactly those that reach no cycle of
    child edges; and a document that puts one into the store by repeating an id. */
module Cycles {
  import opened Basics
  import opened Json
  import opened Model
  import opened Store
  import opened Flatten
  import opened WalkShape
  import opened Sync
  import opened Query
  import opened Subtree
  import opened Scopes

  /** A nonempty trail leads from `x` to `y`. */
  ghost predicate Onward(children: set<ChildPosting>, x: string, y: string) {
    exists c :: Edge(children, x, c) && Reachable(children, c, y)
  }

  lemma {:induction false} RankFalls(t: Tables, rank: map<string, nat>, xs: seq<string>)
    requires Indexed(t) && Ranked(t, rank) && Trail(t.children, xs) && xs[0] in rank
    ensures xs[|xs| - 1] in rank && rank[xs[|xs| - 1]] <= rank[xs[0]]
  {
    if |xs| > 1 {
      assert Edge(t.children, xs[0], xs[1]);
      EdgeFalls(t, rank, xs[0], xs[1]);
      forall i | 0 <= i < |xs[1..]| - 1 ensures Edge(t.children, xs[1..][i], xs[1..][i + 1]) {
        assert Edge(t.children, xs[i + 1], xs[i + 2]);
      }
      RankFalls(t, rank, xs[1..]);
    }
  }

  lemma EdgeFalls(t: Tables, rank: map<string, nat>, x: string, c: string)
    requires Indexed(t) && Ranked(t, rank) && x in rank && Edge(t.children, x, c)
    ensures c in rank && rank[c] < rank[x]
  {
    EdgeIsParent(t, x, c);
    var k: nat :| (x, (k, c)) in t.children;
  }

  lemma RankedHasNoCycle(t: Tables, rank: map<string, nat>, id: string, x: string)
    requires Indexed(t) && Ranked(t, rank) && id in rank && Reachable(t.children, id, x)
    ensures !Onward(t.children, x, x)
  {
    var xs :| TrailTo(t.children, id, x, xs);
    RankFalls(t, rank, xs);
    if Onward(t.children, x, x) {
      var c :| Edge(t.children, x, c) && Reachable(t.children, c, x);
      EdgeFalls(t, rank, x, c);
      var ys :| TrailTo(t.children, c, x, ys);
      RankFalls(t, rank, ys);
    }
  }

  /** Every id an edge leads to, and `id`. */
  function Targets(children: set<ChildPosting>, id: string): set<string> {
    {id} + set e | e in children :: e.1.1
  }

  ghost function Ahead(children: set<ChildPosting>, id: string, x: string): set<string> {
    set y | y in Targets(children, id) && Onward(children, x, y)
  }

  /** How many ids lie ahead of each id reached. */
  ghost function RankOf(children: set<ChildPosting>, id: string): map<string, nat> {
    map x | x in Targets(children, id) && Reachable(children, id, x) :: |Ahead(children, id, x)|
  }

  lemma AheadShrinks(children: set<ChildPosting>, id: string, x: string, c: string)
    requires Edge(children, x, c) && !Onward(children, c, c)
    ensures |Ahead(children, id, c)| < |Ahead(children, id, x)|
  {
    var near, far := Ahead(children, id, c), Ahead(children, id, x);
    var k: nat :| (x, (k, c)) in children;
    ReachableSelf(children, c);
    forall y | y in near ensures y in far {
      var d :| Edge(children, c, d) && Reachable(children, d, y);
      ReachableStep(children, c, c, d);
      ReachableTransitive(children, c, d, y);
    }
    assert c in far && c !in near;
    assert near <= far - {c};
    Fewer(near, far - {c});
  }

  lemma Fewer(a: set<string>, b: set<string>)
    requires a <= b
    ensures |a| <= |b|
  {
    assert b == a + (b - a);
  }

  lemma AcyclicIsRanked(t: Tables, id: string)
    requires Indexed(t)
    requires forall x :: Reachable(t.children, id, x) ==> !Onward(t.children, x, x)
    ensures Ranked(t, RankOf(t.children, id)) && id in RankOf(t.children, id)
  {
    var rank := RankOf(t.children, id);
    ReachableSelf(t.children, id);
    forall e | e in t.children && e.0 in rank && e.1.1 in t.nodes
      ensures t.nodes[e.1.1].id in rank && rank[t.nodes[e.1.1].id] < rank[e.0]
    {
      var c := e.1.1;
      assert (e.0, (e.1.0, c)) in t.children;
      assert Edge(t.children, e.0, c);
      ReachableStep(t.children, id, e.0, c);
      AheadShrinks(t.children, id, e.0, c);
      assert t.nodes[c].id == c;
    }
  }

  /** On any store whatever, the unlimited recursion from a node can be ranked if and only if nothing
      reached from it lies on a nonempty trail to itself. */
  lemma RankedIffAcyclic(t: Tables, id: string)
    requires Indexed(t)
    ensures (exists rank :: Ranked(t, rank) && id in rank) <==>
      (forall x :: Reachable(t.children, id, x) ==> !Onward(t.children, x, x))
  {
    hide Ranked, Onward, Indexed, RankOf;
    if rank :| Ranked(t, rank) && id in rank {
      forall x | Reachable(t.children, id, x) ensures !Onward(t.children, x, x) {
        RankedHasNoCycle(t, rank, id, x);
      }
    }
    if forall x :: Reachable(t.children, id, x) ==> !Onward(t.children, x, x) {
      AcyclicIsRanked(t, id);
    }
  }

  // ---- call chains ----

  /** A chain of calls of the unlimited recursion: from a node to a child, again and again. */
  ghost predicate CallChain(t: Tables, id: string, xs: seq<string>) {
    Trail(t.children, xs) && xs[0] == id
  }

  lemma {:induction false} RankBounds(t: Tables, rank: map<string, nat>, xs: seq<string>)
    requires Indexed(t) && Ranked(t, rank) && Trail(t.children, xs) && xs[0] in rank
    ensures |xs| <= rank[xs[0]] + 1
  {
    if |xs| > 1 {
      assert Edge(t.children, xs[0], xs[1]);
      EdgeFalls(t, rank, xs[0], xs[1]);
      forall i | 0 <= i < |xs[1..]| - 1 ensures Edge(t.children, xs[1..][i], xs[1..][i + 1]) {
        assert Edge(t.children, xs[i + 1], xs[i + 2]);
      }
      RankBounds(t, rank, xs[1..]);
    }
  }

  lemma TrailsJoin(children: set<ChildPosting>, xs: seq<string>, ys: seq<string>)
    requires Trail(children, xs) && Trail(children, ys) && Edge(children, xs[|xs| - 1], ys[0])
    ensures Trail(children, xs + ys)
  {
    var zs := xs + ys;
    forall i | 0 <= i < |zs| - 1 ensures Edge(children, zs[i], zs[i + 1]) {
      if i >= |xs| {
        assert Edge(children, ys[i - |xs|], ys[i - |xs| + 1]);
      } else if i < |xs| - 1 {
        assert Edge(children, xs[i], xs[i + 1]);
      }
    }
  }

  /** Once on a cycle, a chain can go on for as long as one likes. */
  lemma {:induction false} GoesRound(children: set<ChildPosting>, id: string, x: string,
        n: nat) returns (xs: seq<string>)
    requires Reachable(children, id, x) && Onward(children, x, x)
    ensures TrailTo(children, id, x, xs) && |xs| > n
  {
    if n == 0 {
      xs :| TrailTo(children, id, x, xs);
    } else {
      var front := GoesRound(children, id, x, n - 1);
      var c :| Edge(children, x, c) && Reachable(children, c, x);
      var ys :| TrailTo(children, c, x, ys);
      TrailsJoin(children, front, ys);
      xs := front + ys;
    }
  }

  ghost predicate Bounded(t: Tables, id: string, bound: nat) {
    forall xs :: CallChain(t, id, xs) ==> |xs| <= bound
  }

  /** Some chain has this many calls below the first. */
  ghost predicate Deep(t: Tables, id: string, n: nat) {
    exists xs :: CallChain(t, id, xs) && |xs| == n + 1
  }

  lemma DeepOnCycle(t: Tables, id: string, x: string, n: nat)
    requires Reachable(t.children, id, x) && Onward(t.children, x, x)
    ensures Deep(t, id, n)
  {
    var xs := GoesRound(t.children, id, x, n);
    TrailFront(t.children, xs, n + 1);
    assert CallChain(t, id, xs[..n + 1]);
  }

  lemma DeepIsUnbounded(t: Tables, id: string, bound: nat)
    requires Deep(t, id, bound)
    ensures !Bounded(t, id, bound)
  {
  }

  lemma AcyclicIsBounded(t: Tables, id: string) returns (bound: nat)
    requires Indexed(t)
    requires forall x :: Reachable(t.children, id, x) ==> !Onward(t.children, x, x)
    ensures Bounded(t, id, bound)
  {
    AcyclicIsRanked(t, id);
    var rank := RankOf(t.children, id);
    hide Ranked, RankOf, Trail, Onward, Indexed;
    bound := rank[id] + 1;
    forall xs | CallChain(t, id, xs) ensures |xs| <= bound {
      RankBounds(t, rank, xs);
    }
  }

  /** On any valid store, the chains of calls below a node are bounded if and only if nothing reached from
      it lies on a trail back to itself; otherwise there are chains of every length. */
  lemma BoundedIffAcyclic(t: Tables, id: string)
    requires Indexed(t)
    ensures (exists bound :: Bounded(t, id, bound)) <==>
      (forall x :: Reachable(t.children, id, x) ==> !Onward(t.children, x, x))
    ensures (exists x :: Reachable(t.children, id, x) && Onward(t.children, x, x)) ==> forall n :: Deep(t, id, n)
  {
    hide *;
    if forall x :: Reachable(t.children, id, x) ==> !Onward(t.children, x, x) {
      var bound := AcyclicIsBounded(t, id);
    } else {
      var x :| Reachable(t.children, id, x) && Onward(t.children, x, x);
      forall n ensures Deep(t, id, n) && !Bounded(t, id, n) {
        DeepOnCycle(t, id, x, n);
        DeepIsUnbounded(t, id, n);
      }
    }
  }

  lemma TrailFront(children: set<ChildPosting>, xs: seq<string>, n: nat)
    requires Trail(children, xs) && 0 < n <= |xs|
    ensures Trail(children, xs[..n]) && xs[..n][0] == xs[0]
  {
    forall i | 0 <= i < n - 1 ensures Edge(children, xs[..n][i], xs[..n][i + 1]) {
      assert Edge(children, xs[i], xs[i + 1]);
    }
  }

  // ---- a cycle from a document ----

  /** A response whose document `A` has a child `B` with a child that is called `A` again. */
  function Repeating(): Value {
    Object([Field("document", Outer()), Field("lastModified", Str("")), Field("name", Str("")), Field("version", Str(""))])
  }

  function Outer(): Value {
    Object([Field("children", Array([Middle()])), Field("id", Str("A"))])
  }

  function Middle(): Value {
    Object([Field("children", Array([Inner()])), Field("id", Str("B"))])
  }

  function Inner(): Value {
    Object([Field("id", Str("A"))])
  }

  lemma LessByHead(a: string, b: string)
    requires a != [] && b != [] && a[0] < b[0]
    ensures StringLess(a, b)
  {
  }

  lemma OuterWellFormed()
    ensures Outer().WellFormed()
  {
    hide StringLess;
    LessByHead("children", "id");
    assert Inner().WellFormed();
    assert Middle().WellFormed();
  }

  lemma RepeatingWellFormed()
    ensures Repeating().WellFormed()
  {
    hide StringLess, Outer;
    LessByHead("document", "lastModified");
    LessByHead("document", "name");
    LessByHead("document", "version");
    LessByHead("lastModified", "name");
    LessByHead("lastModified", "version");
    LessByHead("name", "version");
    OuterWellFormed();
    var fields := Repeating().fields;
    assert KeySorted(fields);
  }

  lemma RepeatingShape()
    ensures IdOf(Outer()) == Some("A") && KidsOf(Outer()) == [Middle()]
    ensures IdOf(Middle()) == Some("B") && KidsOf(Middle()) == [Inner()]
    ensures IdOf(Inner()) == Some("A") && KidsOf(Inner()) == []
  {
    assert "children" != "id";
  }

  lemma OneKidWalk(node: Value, kids: seq<Value>, parent: Option<string>, page: Option<string>)
    requires IdOf(node).Some? && KidsOf(node) == kids && |kids| <= 1
    ensures var id := IdOf(node).value;
      var own := PageOf(node, id, page);
      WalkNode(node, parent, 0, page) ==
        [NodeRecord(node, id, parent, 0, own)] + if kids == [] then [] else WalkNode(kids[0], Some(id), 0, Some(own))
  {
    hide NodeRecord, IdOf, KidsOf, PageOf;
    var id := IdOf(node).value;
    var own := PageOf(node, id, page);
    if kids != [] {
      assert WalkKids(node, 1, id, own) == [];
      assert WalkKids(node, 0, id, own) == WalkNode(kids[0], Some(id), 0, Some(own)) + [];
    }
  }

  /** Its walk: the second record of `A` has `B` for its parent. */
  lemma RepeatingWalk() returns (first: NodeRec, second: NodeRec, third: NodeRec)
    ensures WalkNode(Outer(), None, 0, None) == [first, second, third]
    ensures first.id == "A" && second.id == "B" && third.id == "A"
    ensures second.parentId == Some("A") && third.parentId == Some("B")
  {
    hide *;
    RepeatingShape();
    var a := PageOf(Outer(), "A", None);
    var b := PageOf(Middle(), "B", Some(a));
    var c := PageOf(Inner(), "A", Some(b));
    first, second, third := NodeRecord(Outer(), "A", None, 0, a), NodeRecord(Middle(), "B", Some("A"), 0, b),
      NodeRecord(Inner(), "A", Some("B"), 0, c);
    RecordFields(Outer(), "A", None, 0, a);
    RecordFields(Middle(), "B", Some("A"), 0, b);
    RecordFields(Inner(), "A", Some("B"), 0, c);
    OneKidWalk(Inner(), [], Some("B"), Some(b));
    OneKidWalk(Middle(), [Inner()], Some("A"), Some(a));
    OneKidWalk(Outer(), [Middle()], None, None);
    assert [first] + ([second] + [third]) == [first, second, third];
  }

  lemma RepeatingRecords() returns (f: Flattened, second: NodeRec, third: NodeRec)
    ensures FlattenedFile(Repeating()) == Ok(f) && |f.recs| == 3
    ensures f.recs[0].id == NodeId("A") && f.recs[1] == NodeEntry(second) && f.recs[2] == NodeEntry(third)
    ensures second.id == "B" && third.id == "A" && second.parentId == Some("A") && third.parentId == Some("B")
  {
    var first;
    first, second, third := RepeatingWalk();
    RepeatingFields();
    hide *;
    f := FileOfNodes(Repeating(), Outer());
    EntriesAppend([first, second], [third]);
    EntriesAppend([first], [second]);
    EntriesAppend([second], []);
    EntriesAppend([third], []);
    assert [first, second] == [first] + [second] && [first, second, third] == [first, second] + [third];
    EntryOf(first);
  }

  lemma EntryOf(n: NodeRec)
    ensures NodeEntry(n).id == NodeId(n.id)
  {
  }

  /** A response with nothing but a document flattens to its walk. */
  lemma FileOfNodes(resp: Value, document: Value) returns (f: Flattened)
    requires StrField(resp, "name").Some? && StrField(resp, "version").Some?
    requires StrField(resp, "lastModified").Some? && resp.Get("document") == Some(document)
    requires resp.Get("components") == None && resp.Get("componentSets") == None && resp.Get("styles") == None
    ensures FlattenedFile(resp) == Ok(f) && f.recs == Entries(WalkNode(document, None, 0, None))
  {
    hide WalkNode, Entries, StrField;
    f := FlattenedFile(resp).value;
    assert FieldsOf(None) == [];
  }

  lemma RepeatingFields()
    ensures StrField(Repeating(), "name").Some? && StrField(Repeating(), "version").Some?
    ensures StrField(Repeating(), "lastModified").Some? && Repeating().Get("document") == Some(Outer())
    ensures Repeating().Get("components") == None && Repeating().Get("componentSets") == None
    ensures Repeating().Get("styles") == None
  {
    hide Outer, Json.Find;
    var fields := Repeating().fields;
    assert fields[0].key == "document" && fields[1].key == "lastModified";
    assert fields[2].key == "name" && fields[3].key == "version";
    KeyFirst("document", "lastModified");
    KeyFirst("document", "name");
    KeyFirst("document", "version");
    KeyFirst("lastModified", "name");
    KeyFirst("lastModified", "version");
    KeyFirst("name", "version");
    KeyAbsent(fields, "components");
    KeyAbsent(fields, "componentSets");
    KeyAbsent(fields, "styles");
    FindIn(fields, 0);
    FindIn(fields, 1);
    FindIn(fields, 2);
    FindIn(fields, 3);
  }

  lemma KeyFirst(a: string, b: string)
    requires a != [] && b != [] && a[0] != b[0]
    ensures a != b
  {
  }

  lemma KeyAbsent(fields: seq<Field>, k: string)
    requires k != [] && forall f <- fields :: f.key != [] && f.key[0] != k[0]
    ensures Json.Find(fields, k) == None
  {
    assert forall i :: 0 <= i < |fields| ==> fields[i] in fields && fields[i].key != k;
  }

  lemma FindIn(fields: seq<Field>, i: nat)
    requires i < |fields| && forall j :: 0 <= j < |fields| && j != i ==> fields[j].key != fields[i].key
    ensures Json.Find(fields, fields[i].key) == Some(fields[i].value)
  {
    var found := Json.Find(fields, fields[i].key);
    if found.Some? {
      var j :| 0 <= j < |fields| && fields[j] == Field(fields[i].key, found.value);
    }
  }

  lemma ThreeUpserted(recs: seq<Entry>)
    requires |recs| == 3 && recs[0].id == recs[2].id != recs[1].id
    ensures Lookup(Upserted(map[], recs), recs[2].id) == Some(recs[2].rec)
    ensures Lookup(Upserted(map[], recs), recs[1].id) == Some(recs[1].rec)
  {
    var two := recs[..2];
    assert two[..1] == recs[..1] && two[1] == recs[1];
    assert Upserted(map[], two) == Upserted(map[], two[..1])[recs[1].id := recs[1].rec];
    assert Upserted(map[], recs) == Upserted(map[], two)[recs[2].id := recs[2].rec];
  }

  /** Syncing that response into an empty store leaves `A` and `B` each the child of the other, so `A`
      cannot be ranked, and its unlimited dump does not end. */
  lemma RepeatedIdCycles(now: nat)
    ensures Repeating().WellFormed() && FlattenedFile(Repeating()).Ok?
    ensures forall t :: Rebuilt(t, Synced(map[], {}, FlattenedFile(Repeating()).value, now)) ==>
      "A" in t.nodes && Onward(t.children, "A", "A") && forall rank :: Ranked(t, rank) ==> "A" !in rank
  {
    hide *;
    RepeatingWellFormed();
    var f, _, _ := RepeatingRecords();
    var second, third := RepeatingStored(now);
    forall t | Rebuilt(t, Synced(map[], {}, f, now))
      ensures "A" in t.nodes && Onward(t.children, "A", "A") && forall rank :: Ranked(t, rank) ==> "A" !in rank
    {
      TwoNodes(t, Synced(map[], {}, f, now), second, third);
      ReachableSelf(t.children, "A");
      RepeatingOnward(t);
      forall rank | Ranked(t, rank) ensures "A" !in rank {
        if "A" in rank {
          RankedHasNoCycle(t, rank, "A", "A");
        }
      }
    }
  }

  lemma RepeatingStored(now: nat) returns (second: NodeRec, third: NodeRec)
    requires FlattenedFile(Repeating()).Ok?
    ensures second.parentId == Some("A") && third.parentId == Some("B")
    ensures var rows := Synced(map[], {}, FlattenedFile(Repeating()).value, now);
      Lookup(rows, NodeId("A")) == Some(Node(third)) && Lookup(rows, NodeId("B")) == Some(Node(second))
  {
    hide Upserted, FlattenedFile, Repeating;
    var f;
    f, second, third := RepeatingRecords();
    ThreeUpserted(f.recs);
    assert {} - Live(f.recs) == {};
  }

  lemma TwoNodes(t: Tables, rows: Rows, second: NodeRec, third: NodeRec)
    requires Rebuilt(t, rows) && second.parentId == Some("A") && third.parentId == Some("B")
    requires Lookup(rows, NodeId("A")) == Some(Node(third)) && Lookup(rows, NodeId("B")) == Some(Node(second))
    ensures Indexed(t) && "A" in t.nodes && Edge(t.children, "A", "B") && Edge(t.children, "B", "A")
  {
    assert NodeTable(rows)["A"] == third && NodeTable(rows)["B"] == second;
    EdgeIsParent(t, "A", "B");
    EdgeIsParent(t, "B", "A");
  }

  lemma RepeatingOnward(t: Tables)
    requires Edge(t.children, "A", "B") && Edge(t.children, "B", "A")
    ensures Onward(t.children, "A", "A")
  {
    ReachableSelf(t.children, "B");
    ReachableStep(t.children, "B", "B", "A");
  }
}
