/** Which member of the response each part of the meta row and of the component, component-set and style rows
    is, and which responses flatten at all. */
module FileRows {
  import opened Basics
  import opened Json
  import opened Model
  import opened Store
  import opened Flatten
  import opened Sync
  import opened Pulls
  import opened Answers
  import opened Mirror
  import opened AliasSites
  import Exact
  import opened Fields

  // ---- the file and its components, component sets and styles ----

  ghost predicate ComponentReads(k: string, v: Value, c: ComponentRec) {
    && c.nodeId == k && TextOr(v, "key", c.key, "") && TextOr(v, "name", c.name, "")
    && TextOr(v, "description", c.description, "") && TextAt(v, "componentSetId", c.componentSetId)
    && FlagOr(v, "remote", c.remote, false)
  }

  ghost predicate ComponentSetReads(k: string, v: Value, c: ComponentSetRec) {
    && c.nodeId == k && TextOr(v, "key", c.key, "") && TextOr(v, "name", c.name, "")
    && TextOr(v, "description", c.description, "") && FlagOr(v, "remote", c.remote, false)
  }

  ghost predicate StyleReads(k: string, v: Value, c: StyleRec) {
    && c.styleId == k && TextOr(v, "key", c.key, "") && TextOr(v, "name", c.name, "")
    && TextOr(v, "styleType", c.styleType, "") && TextOr(v, "description", c.description, "")
    && FlagOr(v, "remote", c.remote, false)
  }

  /** The row under `id` reads the response's member for it; there is none without one. */
  ghost predicate RowReads(resp: Value, id: Id, row: Option<Rec>) {
    match id
    case ComponentId(k) =>
      if Inner(resp, "components", k).None? then row == None
      else row.Some? && row.value.Component? && ComponentReads(k, Inner(resp, "components", k).value, row.value.component)
    case ComponentSetId(k) =>
      if Inner(resp, "componentSets", k).None? then row == None
      else row.Some? && row.value.ComponentSet?
           && ComponentSetReads(k, Inner(resp, "componentSets", k).value, row.value.componentSet)
    case StyleId(k) =>
      if Inner(resp, "styles", k).None? then row == None
      else row.Some? && row.value.Style? && StyleReads(k, Inner(resp, "styles", k).value, row.value.style)
    case _ => true
  }

  lemma ComponentRead(f: Field)
    ensures ComponentEntry(f).id == ComponentId(f.key) && ComponentEntry(f).rec.Component?
    ensures ComponentReads(f.key, f.value, ComponentEntry(f).rec.component)
  {
    hide Find;
  }

  lemma ComponentSetRead(f: Field)
    ensures ComponentSetEntry(f).id == ComponentSetId(f.key) && ComponentSetEntry(f).rec.ComponentSet?
    ensures ComponentSetReads(f.key, f.value, ComponentSetEntry(f).rec.componentSet)
  {
    hide Find;
  }

  lemma StyleRead(f: Field)
    ensures StyleEntry(f).id == StyleId(f.key) && StyleEntry(f).rec.Style?
    ensures StyleReads(f.key, f.value, StyleEntry(f).rec.style)
  {
    hide Find;
  }

  lemma EntryReads(resp: Value, f: Field)
    ensures Inner(resp, "components", f.key) == Some(f.value) ==>
      RowReads(resp, ComponentId(f.key), Some(ComponentEntry(f).rec))
    ensures Inner(resp, "componentSets", f.key) == Some(f.value) ==>
      RowReads(resp, ComponentSetId(f.key), Some(ComponentSetEntry(f).rec))
    ensures Inner(resp, "styles", f.key) == Some(f.value) ==> RowReads(resp, StyleId(f.key), Some(StyleEntry(f).rec))
    ensures ComponentEntry(f).id == ComponentId(f.key) && ComponentSetEntry(f).id == ComponentSetId(f.key)
    ensures StyleEntry(f).id == StyleId(f.key)
  {
    hide Inner, ComponentReads, ComponentSetReads, StyleReads, ComponentEntry, ComponentSetEntry, StyleEntry;
    ComponentRead(f);
    ComponentSetRead(f);
    StyleRead(f);
  }

  /** The entries under the three kinds of key. */
  lemma KindEntries(resp: Value, document: Value, e: Entry)
    ensures e.id.ComponentId? ==>
      (e in Records(resp, document) <==> e in Map(ComponentEntry, FieldsOf(resp.Get("components"))))
    ensures e.id.ComponentSetId? ==>
      (e in Records(resp, document) <==> e in Map(ComponentSetEntry, FieldsOf(resp.Get("componentSets"))))
    ensures e.id.StyleId? ==>
      (e in Records(resp, document) <==> e in Map(StyleEntry, FieldsOf(resp.Get("styles"))))
  {
    hide WalkNode, FieldsOf, Entries;
    NodeEntriesKeyed(WalkNode(document, None, 0, None));
  }

  /** An object's members, found by key. */
  lemma MemberOf(resp: Value, outer: string, f: Field)
    requires resp.WellFormed()
    ensures f in FieldsOf(resp.Get(outer)) <==> Inner(resp, outer, f.key) == Some(f.value)
  {
    hide StringLess;
    var fields := FieldsOf(resp.Get(outer));
    if resp.Get(outer).Some? {
      assert resp.Get(outer).value.WellFormed();
    }
    assert Inner(resp, outer, f.key) == Find(fields, f.key);
    hide Find, Inner;
    if f in fields {
      var i :| 0 <= i < |fields| && fields[i] == f;
      FindUnique(fields, i);
    }
    if Find(fields, f.key) == Some(f.value) {
      var i :| 0 <= i < |fields| && fields[i] == Field(f.key, f.value);
      assert fields[i] in fields;
    }
  }

  lemma InMap(fields: seq<Field>, entry: Field -> Entry, e: Entry)
    ensures e in Map(entry, fields) <==> exists f <- fields :: e == entry(f)
  {
    if e in Map(entry, fields) {
      var i :| 0 <= i < |fields| && Map(entry, fields)[i] == e;
      assert fields[i] in fields;
    }
    if f :| f in fields && e == entry(f) {
      var i :| 0 <= i < |fields| && fields[i] == f;
      assert Map(entry, fields)[i] == e;
    }
  }

  /** An object's entries are those of its members. */
  lemma MemberEntry(resp: Value, outer: string, k: string, entry: Field -> Entry, e: Entry)
    requires resp.WellFormed() && forall f :: e == entry(f) ==> f.key == k
    ensures e in Map(entry, FieldsOf(resp.Get(outer))) <==>
      Inner(resp, outer, k).Some? && e == entry(Field(k, Inner(resp, outer, k).value))
  {
    hide FieldsOf, Inner, Value.Get, Value.WellFormed, Map;
    var fields := FieldsOf(resp.Get(outer));
    InMap(fields, entry, e);
    forall f { MemberOf(resp, outer, f); }
    if f :| f in fields && e == entry(f) {
      assert f.key == k && f == Field(k, f.value);
    }
    if Inner(resp, outer, k).Some? && e == entry(Field(k, Inner(resp, outer, k).value)) {
      assert Field(k, Inner(resp, outer, k).value) in fields;
    }
  }

  /** The object of the response whose members these rows are. */
  function OuterOf(id: Id): string {
    if id.ComponentId? then "components" else if id.ComponentSetId? then "componentSets" else "styles"
  }

  lemma KindMember(resp: Value, document: Value, e: Entry)
    requires resp.WellFormed() && (e.id.ComponentId? || e.id.ComponentSetId? || e.id.StyleId?)
    ensures var held := Inner(resp, OuterOf(e.id), e.id.id);
      && (e in Records(resp, document) ==> held.Some? && RowReads(resp, e.id, Some(e.rec)))
      && (held.Some? ==> exists x <- Records(resp, document) :: x.id == e.id)
  {
    hide Records, Map, FieldsOf, Inner, RowReads, ComponentEntry, ComponentSetEntry, StyleEntry;
    var outer := OuterOf(e.id);
    var entry :=
      if e.id.ComponentId? then ComponentEntry else if e.id.ComponentSetId? then ComponentSetEntry else StyleEntry;
    KindEntries(resp, document, e);
    forall f { EntryReads(resp, f); }
    forall f ensures entry(f).id.id == f.key { EntryReads(resp, f); }
    MemberEntry(resp, outer, e.id.id, entry, e);
    var held := Inner(resp, outer, e.id.id);
    if e in Records(resp, document) {
      EntryReads(resp, Field(e.id.id, held.value));
    }
    if held.Some? {
      var x := entry(Field(e.id.id, held.value));
      EntryReads(resp, Field(e.id.id, held.value));
      MemberEntry(resp, outer, e.id.id, entry, x);
      KindEntries(resp, document, x);
    }
  }

  /** After any run whatever, the rows of components, component sets and styles are the members of the
      response last pulled, field by field. */
  lemma RunRows(rows: Rows, events: seq<Event>, id: Id)
    requires (forall e <- events :: Sound(e)) && Current(events).Some?
    ensures RowReads(Current(events).value, id, Lookup(Run(rows, events), id))
  {
    if id.ComponentId? || id.ComponentSetId? || id.StyleId? {
      var resp := Current(events).value;
      var recs := Records(resp, DocumentOf(resp));
      assert Sweepable(id);
      hide *;
      RunMirrors(rows, events);
      MirroredLookup(Run(rows, events), resp, id);
      NotRecorded(recs, id);
      LookupIs(AsRows(recs), id);
      InLive(recs, id);
      if id in AsRows(recs) {
        var e := Exact.FromRecords(recs, id);
        KindMember(resp, DocumentOf(resp), e);
        assert e == Entry(id, e.rec);
      } else {
        KindMember(resp, DocumentOf(resp), Entry(id, MirrorConfig(false)));
        NoRow(resp, id);
      }
    }
  }

  lemma InLive(recs: seq<Entry>, id: Id)
    ensures id in Live(recs) <==> exists e <- recs :: e.id == id
  {
  }

  lemma NoRow(resp: Value, id: Id)
    requires id.ComponentId? ==> Inner(resp, "components", id.id) == None
    requires id.ComponentSetId? ==> Inner(resp, "componentSets", id.id) == None
    requires id.StyleId? ==> Inner(resp, "styles", id.id) == None
    ensures RowReads(resp, id, None)
  {
  }

  /** After any run whatever, the meta row is what the response last pulled says of itself. */
  lemma RunMeta(rows: Rows, events: seq<Event>)
    requires (forall e <- events :: Sound(e)) && Current(events).Some?
    ensures StoredMeta(Run(rows, events)).Some?
    ensures var (resp, meta) := (Current(events).value, StoredMeta(Run(rows, events)).value);
      && resp.Get("name") == Some(Str(meta.name)) && resp.Get("version") == Some(Str(meta.version))
      && resp.Get("lastModified") == Some(Str(meta.lastModified))
  {
    hide *;
    RunMirrors(rows, events);
    MetaReads(Run(rows, events), Current(events).value);
  }

  lemma MetaReads(rows: Rows, resp: Value)
    requires Mirrors(rows, resp)
    ensures StoredMeta(rows).Some?
    ensures var meta := StoredMeta(rows).value;
      && resp.Get("name") == Some(Str(meta.name)) && resp.Get("version") == Some(Str(meta.version))
      && resp.Get("lastModified") == Some(Str(meta.lastModified))
  {
    hide Records, AsRows, Sweepable, StoredMeta;
  }

  // ---- responses that do not flatten ----

  predicate HasText(resp: Value, k: string) {
    resp.Get(k).Some? && resp.Get(k).value.Str?
  }

  /** A response flattens exactly when it has its three texts and a document; otherwise the error names
      the first it lacks. */
  lemma FlattenWhen(resp: Value)
    ensures FlattenedFile(resp).Ok? <==>
      HasText(resp, "name") && HasText(resp, "version") && HasText(resp, "lastModified") && resp.Get("document").Some?
    ensures FlattenedFile(resp) == Err("name") <==> !HasText(resp, "name")
    ensures FlattenedFile(resp) == Err("version") <==> HasText(resp, "name") && !HasText(resp, "version")
    ensures FlattenedFile(resp) == Err("lastModified") <==>
      HasText(resp, "name") && HasText(resp, "version") && !HasText(resp, "lastModified")
    ensures FlattenedFile(resp) == Err("document") <==>
      HasText(resp, "name") && HasText(resp, "version") && HasText(resp, "lastModified") && resp.Get("document").None?
  {
    hide Records;
  }
}
