/** The image tool's result as it crosses the control socket: a manifest block, then one block per
    successful item; and reading it back. */
module Wire {
  import opened Basics
  import opened Json
  import opened Model
  import opened Images
  import opened Base64

  const CONTENT_SIZE_CAP := 1_048_576

  /** The text conversions involved: JSON printing and parsing, and UTF-8 in both directions, where
      decoding replaces what is not valid. */
  datatype Text = Text(
    print_: Value -> string, parse: string -> Option<Value>,
    lossy: seq<Byte> -> string, utf8: string -> seq<Byte>)

  function Lower(c: char): char {
    if 'A' <= c <= 'Z' then (c as int + 32) as char else c
  }

  predicate EqIgnoreCase(a: string, b: string) {
    Map(Lower, a) == Map(Lower, b)
  }

  predicate IsSvg(item: ImageItem) {
    EqIgnoreCase(item.format, "svg")
  }

  function MimeFor(format: string): string {
    if EqIgnoreCase(format, "svg") then "image/svg+xml"
    else if EqIgnoreCase(format, "jpg") || EqIgnoreCase(format, "jpeg") then "image/jpeg"
    else if EqIgnoreCase(format, "gif") then "image/gif"
    else "image/png"
  }

  function SubjectKey(item: ImageItem): string {
    if item.kind == Render then "id" else "ref"
  }

  // ---- writing ----

  function EntryMembers(item: ImageItem): seq<(string, Value)> {
    [(SubjectKey(item), Str(item.subject)),
     ("kind", Str(if item.kind == Render then "render" else "fill")),
     ("format", Str(item.format)),
     ("bytes", Number(Whole(|item.bytes|))),
     ("cached", Bool(item.cached))]
    + if item.error.Some? then [("error", Str(item.error.value))] else []
  }

  function ManifestEntry(item: ImageItem): Value {
    Object(Members(EntryMembers(item)))
  }

  /** The payload text of an item: raw markup for SVG, base64 for everything else. */
  function Payload(x: Text, item: ImageItem): string {
    if IsSvg(item) then x.lossy(item.bytes) else Encode(item.bytes)
  }

  /** The size the cap is measured on; base64 letters are one byte each. */
  function PayloadSize(x: Text, item: ImageItem): nat {
    if IsSvg(item) then |x.utf8(Payload(x, item))| else |Payload(x, item)|
  }

  predicate Fits(x: Text, item: ImageItem) {
    PayloadSize(x, item) <= CONTENT_SIZE_CAP
  }

  function OversizedNote(item: ImageItem): string {
    SubjectKey(item) + "=" + item.subject + " is over the 1MB inline cap"
  }

  /** The manifest of the result. */
  function Manifest(items: seq<ImageItem>): Value {
    Array(Map(ManifestEntry, items))
  }

  /** The printed manifest parses back: all that is needed of the two conversions. */
  ghost predicate PrintsBack(x: Text, items: seq<ImageItem>) {
    x.parse(x.print_(Manifest(items))) == Some(Manifest(items))
  }

  /** A payload block carries a `mimeType`; the note for an oversized item does not. */
  function BlockMembers(x: Text, item: ImageItem): seq<(string, Value)> {
    (if !Fits(x, item) then [("type", Str("text")), ("text", Str(OversizedNote(item)))]
     else if IsSvg(item) then
       [("type", Str("text")), ("text", Str(Payload(x, item))), ("mimeType", Str(MimeFor(item.format)))]
     else
       [("type", Str("image")), ("data", Str(Payload(x, item))), ("mimeType", Str(MimeFor(item.format)))])
    + [(SubjectKey(item), Str(item.subject))]
  }

  function Block(x: Text, item: ImageItem): Value {
    Object(Members(BlockMembers(x, item)))
  }

  function Blocks(x: Text, items: seq<ImageItem>): seq<Value> {
    if items == [] then []
    else (if items[0].error.Some? then [] else [Block(x, items[0])]) + Blocks(x, items[1..])
  }

  function ManifestBlock(x: Text, items: seq<ImageItem>): Value {
    Object(Members([("type", Str("text")), ("text", Str(x.print_(Manifest(items))))]))
  }

  function ToMcpContent(x: Text, items: seq<ImageItem>): Value {
    Object(Members([
      ("content", Array([ManifestBlock(x, items)] + Blocks(x, items))), ("isError", Bool(false))]))
  }

  // ---- reading ----

  datatype FetchedRow = FetchedRow(entry: Value, data: Option<seq<Byte>>)

  function SubjectOf(v: Value): Option<Value> {
    if v.Get("id").Some? then v.Get("id") else v.Get("ref")
  }

  /** What one block gives for a subject. */
  function BlockData(x: Text, block: Value, subject: Value): Option<seq<Byte>> {
    if SubjectOf(block) != Some(subject) || block.Get("mimeType").None? then None
    else
      match StrField(block, "type")
      case Some(t) =>
        if t == "image" then
          (match StrField(block, "data")
           case Some(b64) => (match Decode(b64) case Ok(b) => Some(b) case Err(_) => None)
           case None => None)
        else if t == "text" then
          (match StrField(block, "text") case Some(s) => Some(x.utf8(s)) case None => None)
        else None
      case None => None
  }

  function FirstData(x: Text, blocks: seq<Value>, subject: Value): Option<seq<Byte>> {
    if blocks == [] then None
    else if BlockData(x, blocks[0], subject).Some? then BlockData(x, blocks[0], subject)
    else FirstData(x, blocks[1..], subject)
  }

  function Row(x: Text, entry: Value, blocks: seq<Value>): FetchedRow {
    FetchedRow(entry, if SubjectOf(entry).Some? then FirstData(x, blocks, SubjectOf(entry).value) else None)
  }

  function Rows(x: Text, blocks: seq<Value>, manifest: seq<Value>): seq<FetchedRow> {
    Map((e: Value) => Row(x, e, blocks), manifest)
  }

  function ArrayOf(v: Option<Value>): Option<seq<Value>> {
    if v.Some? && v.value.Array? then Some(v.value.items) else None
  }

  function FromSocketResult(x: Text, result: Value): Result<seq<FetchedRow>, string> {
    var content := GetOr(ArrayOf(result.Get("content")), []);
    var text := if content == [] then None else StrField(content[0], "text");
    if result.Get("isError") == Some(Bool(true)) then Err(GetOr(text, "unknown error from serve"))
    else if text.None? then Err("serve returned an images result with no manifest block")
    else
      match ArrayOf(x.parse(text.value))
      case None => Err("serve returned a non-JSON images manifest")
      case Some(manifest) => Ok(Rows(x, content[1..], manifest))
  }

  // ---- the round trip ----

  predicate Deliverable(x: Text, item: ImageItem) {
    item.error.None? && Fits(x, item)
  }

  /** The bytes an item's payload is read back as. */
  function Delivered(x: Text, item: ImageItem): seq<Byte> {
    if IsSvg(item) then x.utf8(x.lossy(item.bytes)) else item.bytes
  }

  /** The payload of the first deliverable item of a subject. */
  function FirstDelivered(x: Text, items: seq<ImageItem>, subject: string): Option<seq<Byte>> {
    if items == [] then None
    else if items[0].subject == subject && Deliverable(x, items[0]) then Some(Delivered(x, items[0]))
    else FirstDelivered(x, items[1..], subject)
  }

  /** What a client should hold for an item sent among `items`. */
  function ReadBack(x: Text, items: seq<ImageItem>): ImageItem -> FetchedRow {
    item => FetchedRow(ManifestEntry(item), FirstDelivered(x, items, item.subject))
  }

  lemma {:induction false} SetAt(m: seq<(string, Value)>, i: nat)
    requires i < |m| && forall j :: i < j < |m| ==> m[j].0 != m[i].0
    ensures Object(Members(m)).Get(m[i].0) == Some(m[i].1)
  {
    MembersFind(m, m[i].0);
    LastSetAt(m, i);
  }

  lemma {:induction false} LastSetAt(m: seq<(string, Value)>, i: nat)
    requires i < |m| && forall j :: i < j < |m| ==> m[j].0 != m[i].0
    ensures LastSet(m, m[i].0) == Some(m[i].1)
  {
    if i < |m| - 1 {
      LastSetAt(m[..|m| - 1], i);
    }
  }

  lemma NeverSet(m: seq<(string, Value)>, k: string)
    requires forall i :: 0 <= i < |m| ==> m[i].0 != k
    ensures Object(Members(m)).Get(k) == None
  {
    MembersFind(m, k);
    LastSetNone(m, k);
  }

  lemma {:induction false} LastSetNone(m: seq<(string, Value)>, k: string)
    requires forall i :: 0 <= i < |m| ==> m[i].0 != k
    ensures LastSet(m, k) == None
  {
    if m != [] {
      LastSetNone(m[..|m| - 1], k);
    }
  }

  lemma EntryReads(item: ImageItem)
    ensures SubjectOf(ManifestEntry(item)) == Some(Str(item.subject))
  {
    hide Members;
    var m := EntryMembers(item);
    SetAt(m, 0);
    if item.kind == Fill {
      NeverSet(m, "id");
    }
  }

  lemma BlockReads(x: Text, item: ImageItem, subject: string)
    ensures BlockData(x, Block(x, item), Str(subject)) ==
      if item.subject == subject && Fits(x, item) then Some(Delivered(x, item)) else None
  {
    hide Members, Fits, IsSvg, MimeFor, OversizedNote, Encode, Decode;
    if Fits(x, item) {
      PayloadReads(x, item, subject);
    } else {
      var m := BlockMembers(x, item);
      SubjectMember(x, item);
      NeverSet(m, "mimeType");
    }
  }

  /** A block names its item's subject under `id` or `ref`. */
  lemma SubjectMember(x: Text, item: ImageItem)
    ensures SubjectOf(Block(x, item)) == Some(Str(item.subject))
  {
    hide Members, Fits, IsSvg, MimeFor, OversizedNote, Encode;
    var m := BlockMembers(x, item);
    SetAt(m, |m| - 1);
    if item.kind == Fill {
      NeverSet(m, "id");
    }
  }

  lemma PayloadReads(x: Text, item: ImageItem, subject: string)
    requires Fits(x, item)
    ensures BlockData(x, Block(x, item), Str(subject)) ==
      if item.subject == subject then Some(Delivered(x, item)) else None
  {
    hide Members, Fits, IsSvg, MimeFor, OversizedNote, Encode, Decode;
    var m := BlockMembers(x, item);
    RoundTrip(item.bytes);
    SubjectMember(x, item);
    SetAt(m, 0);
    SetAt(m, 1);
    SetAt(m, 2);
  }

  lemma {:induction false} BlocksRead(x: Text, items: seq<ImageItem>, subject: string)
    ensures FirstData(x, Blocks(x, items), Str(subject)) == FirstDelivered(x, items, subject)
  {
    hide Block, BlockData, Fits, Delivered;
    if items != [] {
      BlocksRead(x, items[1..], subject);
      if items[0].error.None? {
        BlockReads(x, items[0], subject);
        assert Blocks(x, items)[1..] == Blocks(x, items[1..]);
      } else {
        assert Blocks(x, items) == Blocks(x, items[1..]);
      }
    }
  }

  /** Reading back what was written gives every item's manifest row, with the payload of the first
      deliverable item of its subject, whatever the items. */
  lemma SocketRoundTrip(x: Text, items: seq<ImageItem>)
    requires PrintsBack(x, items)
    ensures FromSocketResult(x, ToMcpContent(x, items)) ==
      Ok(Map(ReadBack(x, items), items))
  {
    ResultReads(x, items);
    var rows := Rows(x, Blocks(x, items), Map(ManifestEntry, items));
    forall k | 0 <= k < |items|
      ensures rows[k] == Map(ReadBack(x, items), items)[k]
    {
      hide ManifestEntry, Blocks, FirstData, FirstDelivered;
      EntryReads(items[k]);
      BlocksRead(x, items, items[k].subject);
    }
    assert rows == Map(ReadBack(x, items), items);
  }

  lemma ResultReads(x: Text, items: seq<ImageItem>)
    requires PrintsBack(x, items)
    ensures FromSocketResult(x, ToMcpContent(x, items)) == Ok(Rows(x, Blocks(x, items), Map(ManifestEntry, items)))
  {
    hide ManifestBlock, Blocks, ToMcpContent, Map, Rows;
    ContentReads(x, items);
    var content := [ManifestBlock(x, items)] + Blocks(x, items);
    assert content[1..] == Blocks(x, items);
  }

  lemma ContentReads(x: Text, items: seq<ImageItem>)
    requires PrintsBack(x, items)
    ensures var result := ToMcpContent(x, items);
      && result.Get("content") == Some(Array([ManifestBlock(x, items)] + Blocks(x, items)))
      && result.Get("isError") == Some(Bool(false))
      && StrField(ManifestBlock(x, items), "text") == Some(x.print_(Manifest(items)))
  {
    hide Members, ManifestEntry, Blocks;
    SetAt([("content", Array([ManifestBlock(x, items)] + Blocks(x, items))), ("isError", Bool(false))], 0);
    SetAt([("content", Array([ManifestBlock(x, items)] + Blocks(x, items))), ("isError", Bool(false))], 1);
    SetAt([("type", Str("text")), ("text", Str(x.print_(Manifest(items))))], 1);
  }

  /** What each item's own data should come back as: its bytes if it was sent, nothing if not. */
  function OwnData(x: Text, item: ImageItem): Option<seq<Byte>> {
    if Deliverable(x, item) then Some(item.bytes) else None
  }

  /** SVG bytes are valid UTF-8, so decoding them loses nothing. */
  ghost predicate ValidSvg(x: Text, items: seq<ImageItem>) {
    forall i <- items :: IsSvg(i) ==> x.utf8(x.lossy(i.bytes)) == i.bytes
  }

  /** Every item gets its own data back exactly when items that share a subject, should one of them be
      sent, are all sent with the same bytes: matching is by subject alone and ignores the kind. */
  lemma OwnDataBack(x: Text, items: seq<ImageItem>)
    requires ValidSvg(x, items)
    ensures (forall i <- items :: FirstDelivered(x, items, i.subject) == OwnData(x, i)) <==>
      (forall i, j :: i in items && j in items && i.subject == j.subject && Deliverable(x, j) ==>
        Deliverable(x, i) && i.bytes == j.bytes)
  {
    hide Deliverable;
    forall s { FirstIs(x, items, s); }
  }

  lemma {:induction false} FirstIs(x: Text, items: seq<ImageItem>, subject: string)
    requires ValidSvg(x, items)
    ensures FirstDelivered(x, items, subject).Some? ==>
      exists j <- items :: j.subject == subject && Deliverable(x, j) && FirstDelivered(x, items, subject) == Some(j.bytes)
    ensures FirstDelivered(x, items, subject).None? ==> forall j <- items :: !(j.subject == subject && Deliverable(x, j))
  {
    hide Deliverable;
    if items != [] {
      FirstIs(x, items[1..], subject);
    }
  }

  /** With pairwise distinct subjects every item comes back byte for byte if its encoding fits the cap,
      and with no data if it failed or did not fit. */
  lemma DistinctSubjectsComeBack(x: Text, items: seq<ImageItem>, k: nat)
    requires PrintsBack(x, items) && ValidSvg(x, items) && k < |items|
    requires forall i, j :: 0 <= i < j < |items| ==> items[i].subject != items[j].subject
    ensures var r := FromSocketResult(x, ToMcpContent(x, items));
      r.Ok? && |r.value| == |items| && r.value[k] == FetchedRow(ManifestEntry(items[k]), OwnData(x, items[k]))
  {
    hide Deliverable, ManifestEntry, FromSocketResult, ToMcpContent, FirstDelivered, OwnData;
    SocketRoundTrip(x, items);
    forall i, j | i in items && j in items && i.subject == j.subject ensures i == j {
      var a :| 0 <= a < |items| && items[a] == i;
      var b :| 0 <= b < |items| && items[b] == j;
    }
    OwnDataBack(x, items);
    assert items[k] in items;
  }

  /** A raster item fits exactly when its raw bytes number at most 786432. */
  lemma RasterFits(x: Text, item: ImageItem)
    requires !IsSvg(item)
    ensures Fits(x, item) <==> |item.bytes| <= 786_432
  {
    hide IsSvg, Encode, Decode;
    RoundTrip(item.bytes);
  }

  /** A failed render and a fill that carries the render's node id as its reference: the render is
      handed the fill's bytes. */
  lemma SharedSubjectMixesUp(x: Text, subject: string, bytes: seq<Byte>)
    requires |bytes| <= 786_432
    ensures var items := [
        ImageItem(subject, Render, "png", [], false, Some("render failed")),
        ImageItem(subject, Fill, "png", bytes, false, None)];
      FirstDelivered(x, items, subject) == Some(bytes) && OwnData(x, items[0]) == None
  {
    var render := ImageItem(subject, Render, "png", [], false, Some("render failed"));
    var fill := ImageItem(subject, Fill, "png", bytes, false, None);
    assert !IsSvg(fill) by {
      assert Map(Lower, "png")[0] != Map(Lower, "svg")[0];
    }
    hide Fits, IsSvg;
    RasterFits(x, fill);
    assert [render, fill][1..] == [fill];
  }

  // ---- what is written, member by member ----

  /** The manifest row of an item has exactly these members. */
  lemma EntryIs(item: ImageItem, k: string)
    ensures ManifestEntry(item).Get(k) ==
      if k == (if item.kind == Render then "id" else "ref") then Some(Str(item.subject))
      else if k == "kind" then Some(Str(if item.kind == Render then "render" else "fill"))
      else if k == "format" then Some(Str(item.format))
      else if k == "bytes" then Some(Number(Whole(|item.bytes|)))
      else if k == "cached" then Some(Bool(item.cached))
      else if k == "error" && item.error.Some? then Some(Str(item.error.value))
      else None
  {
    hide Members;
    var m := EntryMembers(item);
    var keys := [SubjectKey(item), "kind", "format", "bytes", "cached", "error"];
    assert forall i :: 0 <= i < |m| ==> m[i].0 == keys[i];
    if k in keys {
      var i :| 0 <= i < 6 && keys[i] == k;
      if i < |m| {
        SetAt(m, i);
      } else {
        NeverSet(m, k);
      }
    } else {
      NeverSet(m, k);
    }
  }

  /** The mime type of a format, whatever its case. */
  predicate MimeIs(format: string, mime: string) {
    var f := Map(Lower, format);
    if f == "svg" then mime == "image/svg+xml"
    else if f in ["jpg", "jpeg"] then mime == "image/jpeg"
    else if f == "gif" then mime == "image/gif"
    else mime == "image/png"
  }

  lemma MimeForIs(format: string)
    ensures MimeIs(format, MimeFor(format))
  {
    assert Map(Lower, "svg") == "svg" && Map(Lower, "jpg") == "jpg" && Map(Lower, "jpeg") == "jpeg";
    assert Map(Lower, "gif") == "gif";
  }

  /** The block of a successful item: the markup as text or the bytes in base64, with its mime type, while that
      is within the cap; else a note without one. */
  ghost predicate BlockReadsAs(x: Text, item: ImageItem, b: Value) {
    && b.Get(if item.kind == Render then "id" else "ref") == Some(Str(item.subject))
    && (if !Fits(x, item) then b.Get("type") == Some(Str("text")) && b.Get("mimeType") == None && b.Get("data") == None
        else
          && b.Get("mimeType").Some? && b.Get("mimeType").value.Str? && MimeIs(item.format, b.Get("mimeType").value.s)
          && (if Map(Lower, item.format) == "svg"
              then b.Get("type") == Some(Str("text")) && b.Get("text") == Some(Str(x.lossy(item.bytes)))
              else b.Get("type") == Some(Str("image")) && b.Get("data") == Some(Str(Encode(item.bytes)))))
  }

  lemma NoteIs(x: Text, item: ImageItem)
    requires !Fits(x, item)
    ensures BlockReadsAs(x, item, Block(x, item))
  {
    hide Members, Fits, IsSvg, MimeFor, MimeIs, OversizedNote, Encode, Lower;
    var m := BlockMembers(x, item);
    SetAt(m, |m| - 1);
    SetAt(m, 0);
    NeverSet(m, "mimeType");
    NeverSet(m, "data");
  }

  lemma SvgIs(item: ImageItem)
    ensures IsSvg(item) <==> Map(Lower, item.format) == "svg"
  {
    assert Map(Lower, "svg") == "svg";
  }

  /** The members of a payload block, read back. */
  lemma PayloadMembers(x: Text, item: ImageItem)
    requires Fits(x, item)
    ensures var b := Block(x, item);
      && b.Get(SubjectKey(item)) == Some(Str(item.subject)) && b.Get("mimeType") == Some(Str(MimeFor(item.format)))
      && b.Get("type") == Some(Str(if IsSvg(item) then "text" else "image"))
      && b.Get(if IsSvg(item) then "text" else "data") == Some(Str(Payload(x, item)))
  {
    hide Members, Fits, IsSvg, MimeFor, OversizedNote, Payload;
    var m := BlockMembers(x, item);
    SetAt(m, 3);
    SetAt(m, 0);
    SetAt(m, 1);
    SetAt(m, 2);
  }

  lemma BlockIs(x: Text, item: ImageItem)
    ensures BlockReadsAs(x, item, Block(x, item))
  {
    if !Fits(x, item) {
      NoteIs(x, item);
    } else {
      hide Block, Fits, IsSvg, MimeFor, MimeIs, Encode, Lower, Map, Value.Get;
      PayloadMembers(x, item);
      MimeForIs(item.format);
      SvgIs(item);
    }
  }

  /** The text of the first block of a result. */
  ghost predicate FirstText(result: Value, text: string) {
    match result.Get("content")
    case Some(Array(blocks)) => blocks != [] && blocks[0].Get("text") == Some(Str(text))
    case _ => false
  }

  /** A result that says it is an error gives its first text; one without a manifest block, or with one that
      is no JSON array, is refused; any other is read row by row of its manifest. */
  lemma SocketResultIs(x: Text, result: Value)
    ensures var r := FromSocketResult(x, result);
      if result.Get("isError") == Some(Bool(true)) then
        && (forall text :: FirstText(result, text) ==> r == Err(text))
        && ((forall text :: !FirstText(result, text)) ==> r == Err("unknown error from serve"))
      else
        && ((forall text :: !FirstText(result, text)) ==>
              r == Err("serve returned an images result with no manifest block"))
        && (forall text :: FirstText(result, text) ==>
              match x.parse(text)
              case Some(Array(manifest)) =>
                r.Ok? && |r.value| == |manifest| && forall i :: 0 <= i < |manifest| ==> r.value[i].entry == manifest[i]
              case _ => r == Err("serve returned a non-JSON images manifest"))
  {
    hide FirstData, Map;
    var content := GetOr(ArrayOf(result.Get("content")), []);
    var text := if content == [] then None else StrField(content[0], "text");
    assert forall t :: FirstText(result, t) <==> text == Some(t);
  }
}
