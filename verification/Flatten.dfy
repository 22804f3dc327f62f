/** Flattening a file response into keyed records: a depth-first walk over the document, then one
    record per entry of the response's components, component sets and styles. */
module Flatten {
  import opened Basics
  import opened Json
  import opened Model
  import Aliases

  const U32 := 0x1_0000_0000

  // ---- reading one node ----

  function IdOf(node: Value): Option<string> {
    StrField(node, "id")
  }

  function KidsOf(node: Value): (r: seq<Value>)
    ensures forall k <- r :: k < node
  {
    match node.Get("children")
    case Some(Array(items)) => items
    case _ => []
  }

  function TypeOf(node: Value): string {
    GetOr(StrField(node, "type"), "UNKNOWN")
  }

  predicate OwnPage(nodeType: string) {
    nodeType == "DOCUMENT" || nodeType == "CANVAS"
  }

  /** A document or canvas is its own page; any other node is on the inherited one, if any. */
  function PageOf(node: Value, id: string, page: Option<string>): string {
    if OwnPage(TypeOf(node)) then id else GetOr(page, id)
  }

  function RawOf(node: Value): Value {
    if node.Object? then Object(DropMember(node.fields, "children")) else node
  }

  function FieldsOf(o: Option<Value>): seq<Field> {
    match o
    case Some(Object(fields)) => fields
    case _ => []
  }

  /** The (key, value) pairs of an object whose values `f` accepts. Objects list their keys in
      order, so the program's sort of the result moves nothing. */
  function SortedMap<T>(fields: seq<Field>, f: Value -> Option<T>): seq<(string, T)> {
    if fields == [] then []
    else
      (match f(fields[0].value)
       case Some(x) => [(fields[0].key, x)]
       case None => [])
      + SortedMap(fields[1..], f)
  }

  function BoundsOf(node: Value): Option<Bounds> {
    match node.Get("absoluteBoundingBox")
    case None => None
    case Some(b) =>
      var (x, y, w, h) :=
        (NumberField(b, "x"), NumberField(b, "y"), NumberField(b, "width"), NumberField(b, "height"));
      if x.Some? && y.Some? && w.Some? && h.Some? then Some(Bounds(x.value, y.value, w.value, h.value)) else None
  }

  function NodeRecord(node: Value, id: string, parent: Option<string>, index: nat, page: string): NodeRec {
    NodeRec(
      id, parent, index, page, TypeOf(node),
      GetOr(StrField(node, "name"), ""),
      GetOr(BoolField(node, "visible"), true),
      StrField(node, "characters"),
      StrField(node, "componentId"),
      SortedMap(FieldsOf(node.Get("componentProperties")), (v: Value) => v.Get("value")),
      node.Get("componentPropertyDefinitions"),
      SortedMap(FieldsOf(node.Get("styles")), (v: Value) => v.AsStr()),
      Aliases.BoundVariables(RawOf(node)),
      BoundsOf(node),
      RawOf(node))
  }

  // ---- the walk ----

  /** The records of a subtree: the node, then its children's subtrees in order. A node without a
      string id is skipped with everything below it. The child index wraps at 32 bits. */
  function WalkNode(node: Value, parent: Option<string>, index: nat, page: Option<string>): seq<NodeRec>
    decreases node, |KidsOf(node)| + 1
  {
    match IdOf(node)
    case None => []
    case Some(id) =>
      var own := PageOf(node, id, page);
      [NodeRecord(node, id, parent, index, own)] + WalkKids(node, 0, id, own)
  }

  function WalkKids(node: Value, i: nat, id: string, page: string): seq<NodeRec>
    decreases node, |KidsOf(node)| - i
  {
    if i >= |KidsOf(node)| then []
    else WalkNode(KidsOf(node)[i], Some(id), i % U32, Some(page)) + WalkKids(node, i + 1, id, page)
  }

  function NodeEntry(r: NodeRec): Entry {
    Entry(NodeId(r.id), Node(r))
  }

  function Entries(recs: seq<NodeRec>): seq<Entry> {
    Map(NodeEntry, recs)
  }

  lemma EntriesAppend(a: seq<NodeRec>, b: seq<NodeRec>)
    ensures Entries(a + b) == Entries(a) + Entries(b)
    ensures |a| == 1 ==> Entries(a) == [NodeEntry(a[0])]
    ensures a == [] ==> Entries(a) == []
  {
  }

  method Walk(node: Value, parent: Option<string>, index: nat, page: Option<string>, out: seq<Entry>)
    returns (r: seq<Entry>)
    ensures r == out + Entries(WalkNode(node, parent, index, page))
    decreases node
  {
    hide NodeRecord, Entries, NodeEntry, PageOf;
    match IdOf(node)
    case None =>
      EntriesAppend([], []);
      return out;
    case Some(id) =>
      var own := PageOf(node, id, page);
      var rec := NodeRecord(node, id, parent, index, own);
      var kids := KidsOf(node);
      ghost var all := out + Entries(WalkNode(node, parent, index, page));
      EntriesAppend([rec], WalkKids(node, 0, id, own));
      r := out + [NodeEntry(rec)];
      for i := 0 to |kids|
        invariant r + Entries(WalkKids(node, i, id, own)) == all
      {
        ghost var before, rest := r, Entries(WalkKids(node, i + 1, id, own));
        ghost var here := WalkNode(kids[i], Some(id), i % U32, Some(own));
        r := Walk(kids[i], Some(id), i % U32, Some(own), r);
        EntriesAppend(here, WalkKids(node, i + 1, id, own));
        assert r + rest == before + (Entries(here) + rest);
      }
      EntriesAppend([], []);
      assert WalkKids(node, |kids|, id, own) == [];
  }

  // ---- the whole response ----

  datatype FileInfo = FileInfo(name: string, version: string, lastModified: string)

  datatype Flattened = Flattened(recs: seq<Entry>, file: FileInfo)

  function ComponentEntry(f: Field): Entry {
    Entry(ComponentId(f.key), Component(ComponentRec(
      f.key, GetOr(StrField(f.value, "key"), ""), GetOr(StrField(f.value, "name"), ""),
      GetOr(StrField(f.value, "description"), ""), StrField(f.value, "componentSetId"),
      GetOr(BoolField(f.value, "remote"), false))))
  }

  function ComponentSetEntry(f: Field): Entry {
    Entry(ComponentSetId(f.key), ComponentSet(ComponentSetRec(
      f.key, GetOr(StrField(f.value, "key"), ""), GetOr(StrField(f.value, "name"), ""),
      GetOr(StrField(f.value, "description"), ""), GetOr(BoolField(f.value, "remote"), false))))
  }

  function StyleEntry(f: Field): Entry {
    Entry(StyleId(f.key), Style(StyleRec(
      f.key, GetOr(StrField(f.value, "key"), ""), GetOr(StrField(f.value, "name"), ""),
      GetOr(StrField(f.value, "styleType"), ""), GetOr(StrField(f.value, "description"), ""),
      GetOr(BoolField(f.value, "remote"), false))))
  }

  function Records(resp: Value, document: Value): seq<Entry> {
    Entries(WalkNode(document, None, 0, None))
    + Map(ComponentEntry, FieldsOf(resp.Get("components")))
    + Map(ComponentSetEntry, FieldsOf(resp.Get("componentSets")))
    + Map(StyleEntry, FieldsOf(resp.Get("styles")))
  }

  /** Flattening as a function; the error names the first missing field. */
  function FlattenedFile(resp: Value): Result<Flattened, string> {
    if StrField(resp, "name").None? then Err("name")
    else if StrField(resp, "version").None? then Err("version")
    else if StrField(resp, "lastModified").None? then Err("lastModified")
    else if resp.Get("document").None? then Err("document")
    else
      var file := FileInfo(
        StrField(resp, "name").value, StrField(resp, "version").value, StrField(resp, "lastModified").value);
      Ok(Flattened(Records(resp, resp.Get("document").value), file))
  }

  method PushEntries(out: seq<Entry>, fields: seq<Field>, entry: Field -> Entry) returns (r: seq<Entry>)
    ensures r == out + Map(entry, fields)
  {
    r := out;
    for i := 0 to |fields|
      invariant r == out + Map(entry, fields[..i])
    {
      r := r + [entry(fields[i])];
      assert Map(entry, fields[..i + 1]) == Map(entry, fields[..i]) + [entry(fields[i])];
    }
    assert fields[..|fields|] == fields;
  }

  method FlattenFile(resp: Value) returns (r: Result<Flattened, string>)
    ensures r == FlattenedFile(resp)
  {
    hide NodeRecord, ComponentEntry, ComponentSetEntry, StyleEntry, Entries, Map, WalkNode, FieldsOf, StrField;
    var name, version, lastModified :=
      StrField(resp, "name"), StrField(resp, "version"), StrField(resp, "lastModified");
    if name.None? { return Err("name"); }
    if version.None? { return Err("version"); }
    if lastModified.None? { return Err("lastModified"); }
    var document := resp.Get("document");
    if document.None? { return Err("document"); }

    var recs := Walk(document.value, None, 0, None, []);
    assert recs == Entries(WalkNode(document.value, None, 0, None));
    recs := PushEntries(recs, FieldsOf(resp.Get("components")), ComponentEntry);
    recs := PushEntries(recs, FieldsOf(resp.Get("componentSets")), ComponentSetEntry);
    recs := PushEntries(recs, FieldsOf(resp.Get("styles")), StyleEntry);
    return Ok(Flattened(recs, FileInfo(name.value, version.value, lastModified.value)));
  }

  // ---- keys of the records ----

  ghost predicate DistinctNodes(recs: seq<NodeRec>) {
    forall i, j :: 0 <= i < j < |recs| ==> recs[i].id != recs[j].id
  }

  ghost predicate DistinctEntries(recs: seq<Entry>) {
    forall i, j :: 0 <= i < j < |recs| ==> recs[i].id != recs[j].id
  }

  lemma DistinctAppend(a: seq<Entry>, b: seq<Entry>)
    requires DistinctEntries(b) && forall x <- a, y <- b :: x.id != y.id
    ensures DistinctEntries(a + b) <==> DistinctEntries(a)
  {
    if DistinctEntries(a + b) {
      forall i, j | 0 <= i < j < |a| ensures a[i].id != a[j].id {
        assert (a + b)[i] == a[i] && (a + b)[j] == a[j];
      }
    }
  }

  /** The entries `a` are well keyed, by keys of one kind. */
  ghost predicate OneKind(a: seq<Entry>, kind: Id -> bool) {
    forall e <- a :: kind(e.id) && Matches(e.id, e.rec) && Sweepable(e.id)
  }

  /** An object's entries carry distinct keys of one kind. */
  lemma MemberEntries(resp: Value, k: string, entry: Field -> Entry, key: Id -> string, kind: Id -> bool)
    requires resp.WellFormed()
    requires forall f :: key(entry(f).id) == f.key && kind(entry(f).id)
    requires forall f :: Matches(entry(f).id, entry(f).rec) && Sweepable(entry(f).id)
    ensures DistinctEntries(Map(entry, FieldsOf(resp.Get(k)))) && OneKind(Map(entry, FieldsOf(resp.Get(k))), kind)
  {
    hide StringLess;
    StringOrder();
    var fs := FieldsOf(resp.Get(k));
    if resp.Get(k).Some? {
      assert resp.Get(k).value.WellFormed();
    }
    forall i, j | 0 <= i < j < |fs| ensures entry(fs[i]).id != entry(fs[j]).id {
      assert StringLess(fs[i].key, fs[j].key);
    }
  }

  lemma NodeEntriesKeyed(nodes: seq<NodeRec>)
    ensures OneKind(Entries(nodes), (id: Id) => id.NodeId?)
    ensures DistinctEntries(Entries(nodes)) <==> DistinctNodes(nodes)
  {
    var a := Entries(nodes);
    forall i, j | 0 <= i < j < |nodes| && DistinctEntries(a) ensures nodes[i].id != nodes[j].id {
      assert a[i].id == NodeId(nodes[i].id) && a[j].id == NodeId(nodes[j].id);
    }
  }

  lemma MemberEntriesKeyed(resp: Value)
    requires resp.WellFormed()
    ensures var a := Map(ComponentEntry, FieldsOf(resp.Get("components")));
      OneKind(a, (id: Id) => id.ComponentId?) && DistinctEntries(a)
    ensures var a := Map(ComponentSetEntry, FieldsOf(resp.Get("componentSets")));
      OneKind(a, (id: Id) => id.ComponentSetId?) && DistinctEntries(a)
    ensures var a := Map(StyleEntry, FieldsOf(resp.Get("styles")));
      OneKind(a, (id: Id) => id.StyleId?) && DistinctEntries(a)
  {
    hide FieldsOf, StrField, BoolField, Map, DistinctEntries, OneKind;
    MemberEntries(resp, "components", ComponentEntry,
      (id: Id) => if id.ComponentId? then id.id else "", (id: Id) => id.ComponentId?);
    MemberEntries(resp, "componentSets", ComponentSetEntry,
      (id: Id) => if id.ComponentSetId? then id.id else "", (id: Id) => id.ComponentSetId?);
    MemberEntries(resp, "styles", StyleEntry,
      (id: Id) => if id.StyleId? then id.id else "", (id: Id) => id.StyleId?);
  }

  /** Every record is keyed by its own kind and is one a sweep may remove; keys are distinct exactly
      when the document's node ids are. */
  lemma RecordsKeyed(resp: Value, document: Value)
    requires resp.WellFormed()
    ensures forall e <- Records(resp, document) :: Matches(e.id, e.rec) && Sweepable(e.id)
    ensures DistinctEntries(Records(resp, document)) <==> DistinctNodes(WalkNode(document, None, 0, None))
  {
    hide WalkNode, FieldsOf, Entries, Map, ComponentEntry, ComponentSetEntry, StyleEntry, Matches, Sweepable;
    hide DistinctEntries, DistinctNodes;
    var nodes := WalkNode(document, None, 0, None);
    var a, b, c, d := Entries(nodes), Map(ComponentEntry, FieldsOf(resp.Get("components"))),
      Map(ComponentSetEntry, FieldsOf(resp.Get("componentSets"))), Map(StyleEntry, FieldsOf(resp.Get("styles")));
    NodeEntriesKeyed(nodes);
    MemberEntriesKeyed(resp);
    DistinctAppend(a, b);
    DistinctAppend(a + b, c);
    DistinctAppend(a + b + c, d);
  }
}
