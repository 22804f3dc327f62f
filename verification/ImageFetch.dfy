/** Resolving a scan: the subjects that missed the cache are gathered, asked for in one request of each
    kind, downloaded and stored. The network is arbitrary: what it answers may depend on everything
    it was asked before. */
module ImageFetch {
  import opened Basics
  import opened Json
  import opened Model
  import opened Store
  import opened Images

  // ---- the network ----

  datatype NetCall =
    | RenderCall(ids: seq<string>, format: string, scale: nat)
    | FillsCall
    | DownloadCall(url: string)

  /** With a token or without; what is answered to the last of the calls made so far; and the format
      read off a fill's URL. */
  datatype Network = Network(
    token: bool,
    answer: seq<NetCall> -> Result<Value, string>,
    download: seq<NetCall> -> Result<seq<Byte>, string>,
    sniff: string -> string)

  /** The one request that covers all misses of a kind. */
  function CallOf(req: Request, kind: Kind, misses: seq<string>): NetCall {
    if kind == Render then RenderCall(misses, req.format, req.scale) else FillsCall
  }

  /** The network as the program meets it, with a log of every call made. */
  class Connection {
    const net: Network
    var log: seq<NetCall>

    constructor (net: Network)
      ensures this.net == net && log == []
    {
      this.net := net;
      log := [];
    }

    method Ask(call: NetCall) returns (r: Result<Value, string>)
      modifies this
      ensures log == old(log) + [call] && r == net.answer(log)
    {
      log := log + [call];
      r := net.answer(log);
    }

    method Download(url: string) returns (r: Result<seq<Byte>, string>)
      modifies this
      ensures log == old(log) + [DownloadCall(url)] && r == net.download(log)
    {
      log := log + [DownloadCall(url)];
      r := net.download(log);
    }
  }

  // ---- what becomes of the misses ----

  const NO_TOKEN_MSG := "FIGMA_TOKEN not set - required for image downloads"
  const NO_RENDER_MSG := "no render available for this node"
  const NO_FILL_MSG := "no fill image available for this imageRef"

  function AsObject(v: Option<Value>): Option<Value> {
    if v.Some? && v.value.Object? then v else None
  }

  /** The object mapping subjects to URLs; a fills response may nest it under `meta`. */
  function UrlMap(kind: Kind, resp: Value): Option<Value> {
    var nested := match resp.Get("meta") case Some(m) => AsObject(m.Get("images")) case None => None;
    if kind == Fill && nested.Some? then nested else AsObject(resp.Get("images"))
  }

  function UrlOf(kind: Kind, resp: Value, subject: string): Option<string> {
    if UrlMap(kind, resp).Some? then StrField(UrlMap(kind, resp).value, subject) else None
  }

  function Failed(req: Request, kind: Kind, subject: string, error: string): ImageItem {
    ImageItem(subject, kind, if kind == Render then req.format else "", [], false, Some(error))
  }

  function FailedAll(req: Request, kind: Kind, misses: seq<string>, error: string): seq<ImageItem> {
    Map((s: string) => Failed(req, kind, s, error), misses)
  }

  /** One miss, given the response that covers it: its item and the calls made. */
  function One(net: Network, log: seq<NetCall>, req: Request, kind: Kind, resp: Value, subject: string)
    : (ImageItem, seq<NetCall>)
  {
    match UrlOf(kind, resp, subject)
    case None => (Failed(req, kind, subject, if kind == Render then NO_RENDER_MSG else NO_FILL_MSG), log)
    case Some(url) =>
      var asked := log + [DownloadCall(url)];
      (match net.download(asked)
       case Err(e) => Failed(req, kind, subject, e)
       case Ok(bytes) =>
         ImageItem(subject, kind, if kind == Render then req.format else net.sniff(url), bytes, false, None),
       asked)
  }

  /** The misses in order, each after the one before. */
  function Loaded(net: Network, log: seq<NetCall>, req: Request, kind: Kind, resp: Value, misses: seq<string>)
    : (seq<ImageItem>, seq<NetCall>)
  {
    if misses == [] then ([], log)
    else
      var (items, before) := Loaded(net, log, req, kind, resp, misses[..|misses| - 1]);
      var (item, after) := One(net, before, req, kind, resp, misses[|misses| - 1]);
      (items + [item], after)
  }

  /** All misses of one kind: their items, in order, and the calls made by then. */
  function Fetches(net: Network, log: seq<NetCall>, req: Request, kind: Kind, misses: seq<string>)
    : (seq<ImageItem>, seq<NetCall>)
  {
    if misses == [] then ([], log)
    else if !net.token then (FailedAll(req, kind, misses, NO_TOKEN_MSG), log)
    else
      var asked := log + [CallOf(req, kind, misses)];
      match net.answer(asked)
      case Err(e) => (FailedAll(req, kind, misses, e), asked)
      case Ok(resp) => Loaded(net, asked, req, kind, resp, misses)
  }

  /** The subjects without a hit, in order. */
  function MissesOf(subjects: seq<string>, hits: map<string, ImageItem>): seq<string> {
    if subjects == [] then []
    else
      var front, last := MissesOf(subjects[..|subjects| - 1], hits), subjects[|subjects| - 1];
      if last in hits then front else front + [last]
  }

  /** The table with the items of the misses put in. */
  function WithItems(found: map<string, ImageItem>, items: seq<ImageItem>): map<string, ImageItem> {
    if items == [] then found
    else WithItems(found, items[..|items| - 1])[items[|items| - 1].subject := items[|items| - 1]]
  }

  /** The items of the subjects, in order. */
  function Taken(found: map<string, ImageItem>, subjects: seq<string>): seq<ImageItem> {
    if subjects == [] then []
    else
      var front, last := Taken(found, subjects[..|subjects| - 1]), subjects[|subjects| - 1];
      if last in found then front + [found[last]] else front
  }

  /** What resolving comes to: the items returned, those among them that were fetched, and the calls. */
  datatype Resolved = Resolved(items: seq<ImageItem>, fetched: seq<ImageItem>, log: seq<NetCall>)

  function ResolvedOf(s: Scanned, net: Network, log: seq<NetCall>, req: Request, ids: seq<string>): Resolved {
    var refs := SortedStrings(s.fillRefs);
    var (renders, log1) := Fetches(net, log, req, Render, MissesOf(ids, s.renderHits));
    var (fills, log2) := Fetches(net, log1, req, Fill, MissesOf(refs, s.fillHits));
    Resolved(Taken(WithItems(s.renderHits, renders), ids) + Taken(WithItems(s.fillHits, fills), refs),
             renders + fills, log2)
  }

  // ---- the program ----

  lemma OneShape(net: Network, log: seq<NetCall>, req: Request, kind: Kind, resp: Value, subject: string)
    ensures Shaped(req, kind, subject, One(net, log, req, kind, resp, subject).0)
  {
  }

  /** An item of a miss. */
  predicate Shaped(req: Request, kind: Kind, subject: string, item: ImageItem) {
    item.kind == kind && item.subject == subject && !item.cached && (kind == Render ==> item.format == req.format)
  }

  lemma BlobShape(req: Request, version: string, item: ImageItem)
    ensures Blob(req, version, item).ImageBlob?
  {
  }

  /** Look one miss up in the response, and download and store it if it is there. */
  method LoadOne(st: KeyedStream, conn: Connection, version: string, req: Request, kind: Kind, resp: Value, s: string)
    returns (item: ImageItem)
    requires st.Valid()
    modifies st, conn
    ensures st.Valid() && st.nodes == old(st.nodes)
    ensures (item, conn.log) == One(conn.net, old(conn.log), req, kind, resp, s)
    ensures st.rows == AfterItem(old(st.rows), version, req, item)
  {
    hide Rebuilt, Failed, UrlOf;
    OneShape(conn.net, conn.log, req, kind, resp, s);
    var url := UrlOf(kind, resp, s);
    match url {
      case None =>
        item := Failed(req, kind, s, if kind == Render then NO_RENDER_MSG else NO_FILL_MSG);
      case Some(u) =>
        var bytes := conn.Download(u);
        match bytes {
          case Err(e) => item := Failed(req, kind, s, e);
          case Ok(b) =>
            item := ImageItem(s, kind, if kind == Render then req.format else conn.net.sniff(u), b, false, None);
        }
    }
    BlobShape(req, version, item);
    if Fresh(item) {
      StoreImage(st, ImageBlobId(req.Key(kind, s)), Blob(req, version, item));
    }
  }

  lemma LoadedStep(net: Network, log: seq<NetCall>, req: Request, kind: Kind, resp: Value, misses: seq<string>, i: nat)
    requires i < |misses|
    ensures var (items, before) := Loaded(net, log, req, kind, resp, misses[..i]);
      var (item, after) := One(net, before, req, kind, resp, misses[i]);
      Loaded(net, log, req, kind, resp, misses[..i + 1]) == (items + [item], after)
  {
    hide One;
    assert misses[..i + 1][..i] == misses[..i];
  }

  lemma OneMoreItem(rows: Rows, version: string, req: Request, found: map<string, ImageItem>, items: seq<ImageItem>,
                    item: ImageItem)
    ensures AfterItems(rows, version, req, items + [item]) == AfterItem(AfterItems(rows, version, req, items), version, req, item)
    ensures WithItems(found, items + [item]) == WithItems(found, items)[item.subject := item]
  {
    hide AfterItem;
    assert (items + [item])[..|items|] == items;
  }

  /** Download and store what one response covers. */
  method LoadAll(st: KeyedStream, conn: Connection, found: map<string, ImageItem>, version: string, req: Request,
                 kind: Kind, resp: Value, misses: seq<string>)
    returns (r: map<string, ImageItem>, ghost items: seq<ImageItem>)
    requires st.Valid()
    modifies st, conn
    ensures st.Valid() && st.nodes == old(st.nodes)
    ensures (items, conn.log) == Loaded(conn.net, old(conn.log), req, kind, resp, misses)
    ensures st.rows == AfterItems(old(st.rows), version, req, items) && r == WithItems(found, items)
  {
    hide Rebuilt, AfterItem, One;
    r, items := found, [];
    for i := 0 to |misses|
      invariant st.Valid() && st.nodes == old(st.nodes)
      invariant (items, conn.log) == Loaded(conn.net, old(conn.log), req, kind, resp, misses[..i])
      invariant st.rows == AfterItems(old(st.rows), version, req, items) && r == WithItems(found, items)
    {
      LoadedStep(conn.net, old(conn.log), req, kind, resp, misses, i);
      OneShape(conn.net, conn.log, req, kind, resp, misses[i]);
      var item := LoadOne(st, conn, version, req, kind, resp, misses[i]);
      OneMoreItem(old(st.rows), version, req, found, items, item);
      r := r[misses[i] := item];
      items := items + [item];
    }
    assert misses[..|misses|] == misses;
  }

  /** Every miss fails alike; nothing is stored. */
  method FailAll(found: map<string, ImageItem>, req: Request, kind: Kind, misses: seq<string>, error: string)
    returns (r: map<string, ImageItem>)
    ensures r == WithItems(found, FailedAll(req, kind, misses, error))
  {
    hide WithItems, FailedAll, Failed;
    OneMoreFailure(found, req, kind, misses, error, 0);
    r := found;
    for i := 0 to |misses|
      invariant r == WithItems(found, FailedAll(req, kind, misses[..i], error))
    {
      var item := Failed(req, kind, misses[i], error);
      OneMoreFailure(found, req, kind, misses, error, i);
      r := r[misses[i] := item];
    }
    assert misses[..|misses|] == misses;
  }

  lemma OneMoreFailure(found: map<string, ImageItem>, req: Request, kind: Kind, misses: seq<string>, error: string,
        i: nat)
    ensures WithItems(found, FailedAll(req, kind, misses[..0], error)) == found
    ensures i < |misses| ==>
      WithItems(found, FailedAll(req, kind, misses[..i + 1], error)) ==
        WithItems(found, FailedAll(req, kind, misses[..i], error))[misses[i] := Failed(req, kind, misses[i], error)]
  {
    assert FailedAll(req, kind, misses[..0], error) == [];
    if i < |misses| {
      var items, item := FailedAll(req, kind, misses[..i], error), Failed(req, kind, misses[i], error);
      assert FailedAll(req, kind, misses[..i + 1], error) == items + [item];
      assert (items + [item])[..|items|] == items;
    }
  }

  lemma {:induction false} NoneStored(rows: Rows, version: string, req: Request, kind: Kind, misses: seq<string>,
        error: string)
    ensures AfterItems(rows, version, req, FailedAll(req, kind, misses, error)) == rows
  {
    if misses != [] {
      NoneStored(rows, version, req, kind, misses[..|misses| - 1], error);
      assert FailedAll(req, kind, misses, error)[..|misses| - 1] == FailedAll(req, kind, misses[..|misses| - 1], error);
    }
  }

  /** Gather the misses of one kind, ask once for all of them if there are any, and load them. */
  method ResolveKind(st: KeyedStream, conn: Connection, hits: map<string, ImageItem>, version: string, req: Request,
                     kind: Kind, subjects: seq<string>)
    returns (found: map<string, ImageItem>, ghost items: seq<ImageItem>)
    requires st.Valid()
    modifies st, conn
    ensures st.Valid() && st.nodes == old(st.nodes)
    ensures (items, conn.log) == Fetches(conn.net, old(conn.log), req, kind, MissesOf(subjects, hits))
    ensures st.rows == AfterItems(old(st.rows), version, req, items) && found == WithItems(hits, items)
  {
    hide Rebuilt, FailedAll, Loaded;
    var misses: seq<string> := [];
    for i := 0 to |subjects|
      invariant misses == MissesOf(subjects[..i], hits)
    {
      assert subjects[..i + 1][..i] == subjects[..i];
      if subjects[i] !in hits {
        misses := misses + [subjects[i]];
      }
    }
    assert subjects[..|subjects|] == subjects;
    found, items := hits, [];
    if misses != [] {
      if !conn.net.token {
        found := FailAll(hits, req, kind, misses, NO_TOKEN_MSG);
        items := FailedAll(req, kind, misses, NO_TOKEN_MSG);
        NoneStored(st.rows, version, req, kind, misses, NO_TOKEN_MSG);
      } else {
        var answer := conn.Ask(CallOf(req, kind, misses));
        match answer {
          case Ok(resp) =>
            found, items := LoadAll(st, conn, hits, version, req, kind, resp, misses);
          case Err(e) =>
            found := FailAll(hits, req, kind, misses, e);
            items := FailedAll(req, kind, misses, e);
            NoneStored(st.rows, version, req, kind, misses, e);
        }
      }
    }
  }

  lemma TakenOutside(found: map<string, ImageItem>, subjects: seq<string>, i: nat)
    requires i < |subjects|
    ensures Taken(found, subjects[..i + 1]) ==
      Taken(found, subjects[..i]) + if subjects[i] in found then [found[subjects[i]]] else []
  {
    assert subjects[..i + 1][..i] == subjects[..i];
  }

  /** Take the items out of the table in the order of the subjects. */
  method Assemble(found: map<string, ImageItem>, subjects: seq<string>) returns (items: seq<ImageItem>)
    requires Distinct(subjects)
    ensures items == Taken(found, subjects)
  {
    items := [];
    var left := found;
    for i := 0 to |subjects|
      invariant items == Taken(found, subjects[..i])
      invariant left == found - Elements(subjects[..i])
    {
      var s := subjects[i];
      TakenOutside(found, subjects, i);
      assert subjects[..i + 1] == subjects[..i] + [s];
      assert s in left <==> s in found;
      if s in left {
        items := items + [left[s]];
        left := left - {s};
      }
    }
    assert subjects[..|subjects|] == subjects;
  }

  lemma SortedDistinct(s: seq<string>)
    requires Increasing(StringLess, s)
    ensures Distinct(s)
  {
    hide StringLess;
    StringOrder();
  }

  /** One item per requested id, in order, then one per fill reference, sorted. */
  method Resolve(st: KeyedStream, conn: Connection, s: Scanned, req: Request, ids: seq<string>)
    returns (items: seq<ImageItem>)
    requires st.Valid() && Distinct(ids)
    modifies st, conn
    ensures st.Valid() && st.nodes == old(st.nodes)
    ensures var r := ResolvedOf(s, conn.net, old(conn.log), req, ids);
      items == r.items && conn.log == r.log && st.rows == AfterItems(old(st.rows), s.version, req, r.fetched)
  {
    hide Rebuilt, Fetches, MissesOf, WithItems, Taken;
    var refs := SortedStrings(s.fillRefs);
    SortedDistinct(refs);
    ghost var a, b;
    var renders, fills;
    renders, a := ResolveKind(st, conn, s.renderHits, s.version, req, Render, ids);
    fills, b := ResolveKind(st, conn, s.fillHits, s.version, req, Fill, refs);
    AfterItemsAppend(old(st.rows), s.version, req, a, b);
    var first := Assemble(renders, ids);
    var second := Assemble(fills, refs);
    items := first + second;
  }

  // ---- the requests made ----

  /** The calls that are not downloads. */
  function Requests(log: seq<NetCall>): seq<NetCall> {
    if log == [] then []
    else if log[|log| - 1].DownloadCall? then Requests(log[..|log| - 1])
    else Requests(log[..|log| - 1]) + [log[|log| - 1]]
  }

  lemma RequestsStep(log: seq<NetCall>, call: NetCall)
    ensures Requests(log + [call]) == Requests(log) + if call.DownloadCall? then [] else [call]
  {
    assert (log + [call])[..|log|] == log;
  }

  lemma {:induction false} LoadedRequests(net: Network, log: seq<NetCall>, req: Request, kind: Kind, resp: Value,
        misses: seq<string>)
    ensures Requests(Loaded(net, log, req, kind, resp, misses).1) == Requests(log)
    ensures log <= Loaded(net, log, req, kind, resp, misses).1
  {
    hide Requests, UrlOf, Failed;
    if misses != [] {
      LoadedRequests(net, log, req, kind, resp, misses[..|misses| - 1]);
      var before := Loaded(net, log, req, kind, resp, misses[..|misses| - 1]).1;
      var url := UrlOf(kind, resp, misses[|misses| - 1]);
      if url.Some? {
        RequestsStep(before, DownloadCall(url.value));
      }
    }
  }

  lemma FetchesRequests(net: Network, log: seq<NetCall>, req: Request, kind: Kind, misses: seq<string>)
    ensures var after := Fetches(net, log, req, kind, misses).1;
      && log <= after
      && Requests(after) == Requests(log) + if misses != [] && net.token then [CallOf(req, kind, misses)] else []
  {
    hide Requests, Loaded, FailedAll;
    if misses != [] && net.token {
      var asked := log + [CallOf(req, kind, misses)];
      RequestsStep(log, CallOf(req, kind, misses));
      if net.answer(asked).Ok? {
        LoadedRequests(net, asked, req, kind, net.answer(asked).value, misses);
      }
    }
  }

  /** Whatever the network answers, resolving makes at most one render request, for exactly the ids that
      missed, in order, and after it at most one fills request; neither without a miss or a token. */
  lemma OneRequestEach(s: Scanned, net: Network, log: seq<NetCall>, req: Request, ids: seq<string>)
    ensures var after := ResolvedOf(s, net, log, req, ids).log;
      var renderMisses, fillMisses := MissesOf(ids, s.renderHits), MissesOf(SortedStrings(s.fillRefs), s.fillHits);
      && log <= after
      && Requests(after) == Requests(log)
           + (if renderMisses != [] && net.token then [RenderCall(renderMisses, req.format, req.scale)] else [])
           + (if fillMisses != [] && net.token then [FillsCall] else [])
  {
    hide Requests, Fetches, MissesOf, Taken, WithItems, SortedStrings;
    var log1 := Fetches(net, log, req, Render, MissesOf(ids, s.renderHits)).1;
    FetchesRequests(net, log, req, Render, MissesOf(ids, s.renderHits));
    FetchesRequests(net, log1, req, Fill, MissesOf(SortedStrings(s.fillRefs), s.fillHits));
  }
}
