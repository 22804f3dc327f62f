/** The image cache: requested ids, the read-only scan for cache hits and fill references, and the rows
    that freshly downloaded items leave, over an arbitrary key hash. */
module Images {
  import opened Basics
  import opened Json
  import opened Model
  import opened Store
  import opened Pulls

  /** The key hash over kind, subject, format and scale. Nothing is assumed of it. */
  type ImageHash = (Kind, string, string, nat) -> string

  datatype ImageItem = ImageItem(
    subject: string, kind: Kind, format: string, bytes: seq<Byte>, cached: bool, error: Option<string>)

  /** What a caller asks for, and the hash in use. */
  datatype Request = Request(hash: ImageHash, format: string, scale: nat) {
    /** The row key of a subject; a fill's never varies by format or scale. */
    function Key(kind: Kind, subject: string): string {
      if kind == Render then hash(Render, subject, format, scale) else hash(Fill, subject, "", 1000)
    }
  }

  // ---- requested ids ----

  /** The first occurrences, in order. */
  function Dedup(s: seq<string>): seq<string> {
    if s == [] then []
    else
      var front := Dedup(s[..|s| - 1]);
      if s[|s| - 1] in front then front else front + [s[|s| - 1]]
  }

  method NormalizeIds(ids: seq<string>, normalize: string -> string) returns (r: seq<string>)
    ensures r == Dedup(Map(normalize, ids))
  {
    r := [];
    var seen: set<string> := {};
    for i := 0 to |ids|
      invariant r == Dedup(Map(normalize, ids[..i])) && seen == Elements(r)
    {
      var id := normalize(ids[i]);
      assert Map(normalize, ids[..i + 1])[..i] == Map(normalize, ids[..i]);
      if id !in seen {
        seen := seen + {id};
        r := r + [id];
      }
    }
    assert ids[..|ids|] == ids;
  }

  lemma {:induction false} DedupIsDistinct(s: seq<string>)
    ensures Distinct(Dedup(s)) && Elements(Dedup(s)) == Elements(s)
  {
    if s != [] {
      DedupIsDistinct(s[..|s| - 1]);
      assert s == s[..|s| - 1] + [s[|s| - 1]];
      forall x ensures x in Dedup(s) <==> x in s {
        assert x in Dedup(s[..|s| - 1]) <==> x in Elements(s[..|s| - 1]);
      }
    }
  }

  // ---- scanning ----

  /** `fillRefs` is kept sorted and `version` is empty when nothing was ever synced. */
  datatype Scanned = Scanned(
    version: string, renderHits: map<string, ImageItem>, fillRefs: set<string>, fillHits: map<string, ImageItem>)

  /** Whether a row found by its hash is the row asked for: a fill's format and scale do not matter. */
  predicate MatchesIdentity(rec: ImageBlobRec, kind: Kind, subject: string, format: string, scale: nat) {
    && rec.kind == kind && rec.subject == subject
    && (kind == Fill || (rec.format == format && rec.scaleMilli == scale))
  }

  function ImageVersion(rows: Rows): string {
    GetOr(Version(rows), "")
  }

  function ImageHit(rows: Rows, req: Request, kind: Kind, subject: string): Option<ImageItem> {
    match Lookup(rows, ImageBlobId(req.Key(kind, subject)))
    case Some(ImageBlob(rec)) =>
      if rec.fileVersion == ImageVersion(rows) && MatchesIdentity(rec, kind, subject, req.format, req.scale)
      then Some(ImageItem(subject, kind, if kind == Render then req.format else rec.format, rec.bytes, true, None))
      else None
    case _ => None
  }

  /** The image references among a node's fills. */
  function ExtractImageRefs(raw: Value): set<string> {
    match raw.Get("fills")
    case Some(Array(fills)) =>
      set f | f in fills && StrField(f, "type") == Some("IMAGE") && StrField(f, "imageRef").Some?
        :: StrField(f, "imageRef").value
    case _ => {}
  }

  function FillRefs(nodes: Nodes, ids: seq<string>): set<string> {
    if ids == [] then {}
    else
      var last := ids[|ids| - 1];
      FillRefs(nodes, ids[..|ids| - 1]) + if last in nodes then ExtractImageRefs(nodes[last].raw) else {}
  }

  ghost function Hits(rows: Rows, req: Request, kind: Kind, subjects: set<string>): map<string, ImageItem> {
    map s | s in subjects && ImageHit(rows, req, kind, s).Some? :: ImageHit(rows, req, kind, s).value
  }

  ghost function ScannedOf(nodes: Nodes, rows: Rows, req: Request, ids: seq<string>): Scanned {
    var refs := FillRefs(nodes, ids);
    Scanned(ImageVersion(rows), Hits(rows, req, Render, Elements(ids)), refs, Hits(rows, req, Fill, refs))
  }

  method ScanHits(rows: Rows, req: Request, kind: Kind, subjects: seq<string>) returns (hits: map<string, ImageItem>)
    ensures hits == Hits(rows, req, kind, Elements(subjects))
  {
    hide ImageHit;
    hits := map[];
    for i := 0 to |subjects|
      invariant hits == Hits(rows, req, kind, Elements(subjects[..i]))
    {
      var hit := ImageHit(rows, req, kind, subjects[i]);
      assert subjects[..i + 1] == subjects[..i] + [subjects[i]];
      if hit.Some? {
        hits := hits[subjects[i] := hit.value];
      }
    }
    assert subjects[..|subjects|] == subjects;
  }

  method Scan(nodes: Nodes, rows: Rows, req: Request, ids: seq<string>) returns (s: Scanned)
    ensures s == ScannedOf(nodes, rows, req, ids)
  {
    var renderHits := ScanHits(rows, req, Render, ids);
    var refs: set<string> := {};
    for i := 0 to |ids|
      invariant refs == FillRefs(nodes, ids[..i])
    {
      assert ids[..i + 1][..i] == ids[..i];
      if ids[i] in nodes {
        refs := refs + ExtractImageRefs(nodes[ids[i]].raw);
      }
    }
    assert ids[..|ids|] == ids;
    var fillHits := ScanHits(rows, req, Fill, SortedStrings(refs));
    return Scanned(ImageVersion(rows), renderHits, refs, fillHits);
  }

  // ---- storing ----

  function Blob(req: Request, version: string, item: ImageItem): Rec {
    ImageBlob(ImageBlobRec(
      req.Key(item.kind, item.subject), item.kind, item.subject, item.format,
      if item.kind == Render then req.scale else 1000, version, item.bytes))
  }

  predicate Fresh(item: ImageItem) {
    item.error.None? && !item.cached
  }

  /** The store after caching one item, if it was freshly downloaded. */
  function AfterItem(rows: Rows, version: string, req: Request, item: ImageItem): Rows {
    if Fresh(item) then rows[ImageBlobId(req.Key(item.kind, item.subject)) := Blob(req, version, item)] else rows
  }

  /** The store after caching the items in order. */
  function AfterItems(rows: Rows, version: string, req: Request, items: seq<ImageItem>): Rows {
    if items == [] then rows
    else AfterItem(AfterItems(rows, version, req, items[..|items| - 1]), version, req, items[|items| - 1])
  }

  method StoreImage(st: KeyedStream, id: Id, rec: Rec)
    requires st.Valid() && id.ImageBlobId? && rec.ImageBlob?
    modifies st
    ensures st.Valid() && st.rows == old(st.rows)[id := rec] && st.nodes == old(st.nodes)
  {
    var _ := st.Upsert(id, rec);
    NodesUnmoved(old(st.rows), id, rec);
  }

  lemma NodesUnmoved(rows: Rows, id: Id, rec: Rec)
    requires WellKeyed(rows) && id.ImageBlobId? && rec.ImageBlob?
    ensures NodeTable(rows[id := rec]) == NodeTable(rows)
  {
    NodeTableAfterInsert(rows, id, rec);
  }

  lemma {:induction false} AfterItemsAppend(rows: Rows, version: string, req: Request, a: seq<ImageItem>,
        b: seq<ImageItem>)
    ensures AfterItems(rows, version, req, a + b) == AfterItems(AfterItems(rows, version, req, a), version, req, b)
  {
    if b == [] {
      assert a + b == a;
    } else {
      AfterItemsAppend(rows, version, req, a, b[..|b| - 1]);
      assert (a + b)[..|a + b| - 1] == a + b[..|b| - 1];
    }
  }

  // ---- what is stored afterwards ----

  /** No two of the requested rows share a key. */
  ghost predicate KeysApart(req: Request, items: seq<ImageItem>) {
    forall i, j :: 0 <= i < j < |items| ==>
      req.Key(items[i].kind, items[i].subject) != req.Key(items[j].kind, items[j].subject)
  }

  lemma {:induction false} StoredUnder(rows: Rows, version: string, req: Request, items: seq<ImageItem>, id: Id)
    ensures (forall k :: 0 <= k < |items| ==> id != ImageBlobId(req.Key(items[k].kind, items[k].subject))) ==>
      Lookup(AfterItems(rows, version, req, items), id) == Lookup(rows, id)
  {
    hide Blob;
    if items != [] {
      StoredUnder(rows, version, req, items[..|items| - 1], id);
    }
  }

  lemma {:induction false} StoredItem(rows: Rows, version: string, req: Request, items: seq<ImageItem>, k: nat)
    requires KeysApart(req, items) && k < |items|
    ensures var id := ImageBlobId(req.Key(items[k].kind, items[k].subject));
      Lookup(AfterItems(rows, version, req, items), id) ==
        if Fresh(items[k]) then Some(Blob(req, version, items[k])) else Lookup(rows, id)
  {
    hide Blob;
    var front := items[..|items| - 1];
    if k < |items| - 1 {
      StoredItem(rows, version, req, front, k);
    } else {
      StoredUnder(rows, version, req, front, ImageBlobId(req.Key(items[k].kind, items[k].subject)));
    }
  }

  lemma HitAfterwards(rows: Rows, req: Request, items: seq<ImageItem>, j: nat)
    requires KeysApart(req, items) && j < |items|
    requires items[j].kind == Render ==> items[j].format == req.format
    requires items[j].cached ==> ImageHit(rows, req, items[j].kind, items[j].subject) == Some(items[j])
    ensures var after := AfterItems(rows, ImageVersion(rows), req, items);
      && ImageVersion(after) == ImageVersion(rows)
      && (items[j].error.None? ==>
        ImageHit(after, req, items[j].kind, items[j].subject) == Some(items[j].(cached := true)))
  {
    hide KeysApart, AfterItems;
    StoredUnder(rows, ImageVersion(rows), req, items, MetaId);
    StoredItem(rows, ImageVersion(rows), req, items, j);
  }

  /** The references gathered are those of the image fills of the requested nodes that are stored. */
  lemma {:induction false} FillRefsAre(nodes: Nodes, ids: seq<string>, ref: string)
    ensures ref in FillRefs(nodes, ids) <==> exists id <- ids :: id in nodes && FillsWith(nodes[id].raw, ref)
  {
    if ids != [] {
      var front, last := ids[..|ids| - 1], ids[|ids| - 1];
      assert ids == front + [last];
      FillRefsAre(nodes, front, ref);
      assert last in ids;
      if last in nodes {
        ExtractedAre(nodes[last].raw, ref);
      }
      hide ExtractImageRefs, FillsWith;
      assert forall id :: id in ids <==> id in front || id == last;
    }
  }

  /** Some fill is an image with this reference. */
  ghost predicate FillsWith(raw: Value, ref: string) {
    match raw.Get("fills")
    case Some(Array(fills)) =>
      exists f <- fills :: f.Get("type") == Some(Str("IMAGE")) && f.Get("imageRef") == Some(Str(ref))
    case _ => false
  }

  lemma ExtractedAre(raw: Value, ref: string)
    ensures ref in ExtractImageRefs(raw) <==> FillsWith(raw, ref)
  {
    if raw.Get("fills").Some? && raw.Get("fills").value.Array? {
      var fills := raw.Get("fills").value.items;
      if ref in ExtractImageRefs(raw) {
        var f :| f in fills && StrField(f, "type") == Some("IMAGE") && StrField(f, "imageRef").Some?
          && ref == StrField(f, "imageRef").value;
        assert f.Get("type") == Some(Str("IMAGE")) && f.Get("imageRef") == Some(Str(ref));
      }
      if f :| f in fills && f.Get("type") == Some(Str("IMAGE")) && f.Get("imageRef") == Some(Str(ref)) {
        assert StrField(f, "type") == Some("IMAGE") && StrField(f, "imageRef") == Some(ref);
      }
    }
  }

  /** A fill is found whatever format and scale the request names: they are not part of its key. */
  lemma FillsIgnoreFormat(rows: Rows, a: Request, b: Request, subject: string)
    requires a.hash == b.hash
    ensures ImageHit(rows, a, Fill, subject) == ImageHit(rows, b, Fill, subject)
  {
  }
}
