/** What the network makes of a miss: the request it is asked for in, its own URL in the answer and the
    download of that URL, or the step that failed. */
module ImageSources {
  import opened Basics
  import opened Json
  import opened Model
  import opened Images
  import opened ImageFetch

  /** The response gives `url` for the subject: under `images` or, for fills, under `meta.images` when that
      is an object. */
  ghost predicate UrlHeld(kind: Kind, resp: Value, subject: string, url: string) {
    if kind == Fill && Nested(resp) then resp.Get("meta").value.Get("images").value.Get(subject) == Some(Str(url))
    else resp.Get("images").Some? && resp.Get("images").value.Get(subject) == Some(Str(url))
  }

  ghost predicate Nested(resp: Value) {
    && resp.Get("meta").Some?
    && resp.Get("meta").value.Get("images").Some? && resp.Get("meta").value.Get("images").value.Object?
  }

  ghost predicate Fails(req: Request, kind: Kind, item: ImageItem, error: string) {
    item.error == Some(error) && item.bytes == [] && item.format == if kind == Render then req.format else ""
  }

  /** What the network answers to the download at `calls[i]`, and what becomes of it. */
  ghost predicate LoadedAt(net: Network, calls: seq<NetCall>, i: nat, url: string, req: Request, kind: Kind,
                          item: ImageItem) {
    && i < |calls| && calls[i] == DownloadCall(url)
    && match net.download(calls[..i + 1])
       case Err(e) => Fails(req, kind, item, e)
       case Ok(bytes) =>
         item.error == None && item.bytes == bytes && item.format == if kind == Render then req.format else net.sniff(url)
  }

  /** All calls from `from` up to `to` are downloads. */
  ghost predicate OnlyDownloads(calls: seq<NetCall>, from: nat, to: nat) {
    forall m :: from <= m < to && m < |calls| ==> calls[m].DownloadCall?
  }

  /** The subject's own URL was downloaded after `from`, with nothing but downloads between. */
  ghost predicate LoadedSince(net: Network, calls: seq<NetCall>, from: nat, url: string, req: Request, kind: Kind,
                               item: ImageItem) {
    exists i: nat :: from <= i && OnlyDownloads(calls, from, i) && LoadedAt(net, calls, i, url, req, kind, item)
  }

  /** What the network made of one miss: it fails for want of a token, of an answer to the one request for all
      misses, of a URL of its own in that answer, or of an answer to the download of that URL; and otherwise
      has the bytes so downloaded. `calls` are those made in the end, `log` those before the request. */
  ghost predicate FromNetwork(net: Network, log: seq<NetCall>, calls: seq<NetCall>, req: Request, kind: Kind,
                              misses: seq<string>, subject: string, item: ImageItem) {
    var asked := log + [if kind == Render then RenderCall(misses, req.format, req.scale) else FillsCall];
    if !net.token then Fails(req, kind, item, "FIGMA_TOKEN not set - required for image downloads")
    else
      && asked <= calls
      && match net.answer(asked)
         case Err(e) => Fails(req, kind, item, e)
         case Ok(resp) =>
           && ((forall url :: !UrlHeld(kind, resp, subject, url)) ==>
                 Fails(req, kind, item, if kind == Render then "no render available for this node"
                                        else "no fill image available for this imageRef"))
           && forall url :: UrlHeld(kind, resp, subject, url) ==> LoadedSince(net, calls, |asked|, url, req, kind, item)
  }

  lemma UrlOfHeld(kind: Kind, resp: Value, subject: string, url: string)
    ensures UrlOf(kind, resp, subject) == Some(url) <==> UrlHeld(kind, resp, subject, url)
  {
    hide Find;
  }

  lemma OneIs(net: Network, log: seq<NetCall>, req: Request, kind: Kind, resp: Value, subject: string)
    ensures var (item, after) := One(net, log, req, kind, resp, subject);
      && log <= after && OnlyDownloads(after, |log|, |after|)
      && ((forall url :: !UrlHeld(kind, resp, subject, url)) ==>
            Fails(req, kind, item, if kind == Render then "no render available for this node"
                                   else "no fill image available for this imageRef"))
      && forall url :: UrlHeld(kind, resp, subject, url) ==> LoadedAt(net, after, |log|, url, req, kind, item)
  {
    hide UrlHeld, UrlOf;
    forall url { UrlOfHeld(kind, resp, subject, url); }
    var (item, after) := One(net, log, req, kind, resp, subject);
    if UrlOf(kind, resp, subject).Some? {
      UrlOfHeld(kind, resp, subject, UrlOf(kind, resp, subject).value);
      assert after[..|log| + 1] == after;
    }
  }

  /** What was made of a download stays so as more calls follow. */
  lemma LoadedAtOn(net: Network, calls: seq<NetCall>, more: seq<NetCall>, i: nat, url: string, req: Request, kind: Kind,
        item: ImageItem)
    requires LoadedAt(net, calls, i, url, req, kind, item) && calls <= more
    ensures LoadedAt(net, more, i, url, req, kind, item)
  {
    assert more[..i + 1] == calls[..i + 1];
  }

  lemma LoadedSinceOn(net: Network, calls: seq<NetCall>, more: seq<NetCall>, from: nat, url: string, req: Request,
        kind: Kind, item: ImageItem)
    requires LoadedSince(net, calls, from, url, req, kind, item) && calls <= more
    ensures LoadedSince(net, more, from, url, req, kind, item)
  {
    var i: nat :| from <= i && OnlyDownloads(calls, from, i) && LoadedAt(net, calls, i, url, req, kind, item);
    LoadedAtOn(net, calls, more, i, url, req, kind, item);
    assert OnlyDownloads(more, from, i);
  }

  lemma FromNetworkOn(net: Network, log: seq<NetCall>, calls: seq<NetCall>, more: seq<NetCall>, req: Request, kind: Kind,
                      misses: seq<string>, subject: string, item: ImageItem)
    requires FromNetwork(net, log, calls, req, kind, misses, subject, item) && calls <= more
    ensures FromNetwork(net, log, more, req, kind, misses, subject, item)
  {
    hide UrlHeld, LoadedSince, Fails;
    var asked := log + [if kind == Render then RenderCall(misses, req.format, req.scale) else FillsCall];
    forall url | LoadedSince(net, calls, |asked|, url, req, kind, item) {
      LoadedSinceOn(net, calls, more, |asked|, url, req, kind, item);
    }
  }

  /** The k-th miss is loaded after the ones before it, and only downloads are made. */
  lemma {:induction false} LoadedLog(net: Network, log: seq<NetCall>, req: Request, kind: Kind, resp: Value,
                                     misses: seq<string>, k: nat)
    requires k <= |misses|
    ensures var before, after :=
        Loaded(net, log, req, kind, resp, misses[..k]).1, Loaded(net, log, req, kind, resp, misses).1;
      log <= before <= after && OnlyDownloads(after, |log|, |after|)
    decreases |misses|
  {
    hide One, UrlHeld, Fails, LoadedAt;
    if misses == [] {
      assert misses[..k] == misses;
    } else {
      var front := misses[..|misses| - 1];
      var before := Loaded(net, log, req, kind, resp, front).1;
      OneIs(net, before, req, kind, resp, misses[|misses| - 1]);
      LoadedLog(net, log, req, kind, resp, front, if k < |misses| then k else 0);
      if k < |misses| {
        assert front[..k] == misses[..k];
      } else {
        assert misses[..k] == misses;
      }
    }
  }

  lemma {:induction false} LoadedItems(net: Network, log: seq<NetCall>, req: Request, kind: Kind, resp: Value,
                                       misses: seq<string>, k: nat)
    requires k < |misses|
    ensures |Loaded(net, log, req, kind, resp, misses).0| == |misses|
    ensures Loaded(net, log, req, kind, resp, misses).0[k] ==
      One(net, Loaded(net, log, req, kind, resp, misses[..k]).1, req, kind, resp, misses[k]).0
  {
    hide One;
    var front := misses[..|misses| - 1];
    if k < |front| {
      LoadedItems(net, log, req, kind, resp, front, k);
      assert front[..k] == misses[..k];
    } else {
      if front != [] {
        LoadedItems(net, log, req, kind, resp, front, 0);
      }
      assert front == misses[..k];
    }
  }

  lemma LoadedFrom(net: Network, log: seq<NetCall>, req: Request, kind: Kind, resp: Value, misses: seq<string>, k: nat)
    requires k < |misses|
    ensures var (items, calls) := Loaded(net, log, req, kind, resp, misses);
      && |items| == |misses| && log <= calls
      && ((forall url :: !UrlHeld(kind, resp, misses[k], url)) ==>
            Fails(req, kind, items[k], if kind == Render then "no render available for this node"
                                       else "no fill image available for this imageRef"))
      && forall url :: UrlHeld(kind, resp, misses[k], url) ==>
           LoadedSince(net, calls, |log|, url, req, kind, items[k])
  {
    hide UrlHeld, Fails, LoadedAt, Loaded, One;
    var (items, calls) := Loaded(net, log, req, kind, resp, misses);
    LoadedItems(net, log, req, kind, resp, misses, k);
    LoadedStep(net, log, req, kind, resp, misses, k);
    LoadedLog(net, log, req, kind, resp, misses, k);
    LoadedLog(net, log, req, kind, resp, misses, k + 1);
    var before := Loaded(net, log, req, kind, resp, misses[..k]).1;
    OneIs(net, before, req, kind, resp, misses[k]);
    forall url | UrlHeld(kind, resp, misses[k], url)
      ensures LoadedSince(net, calls, |log|, url, req, kind, items[k])
    {
      LoadedAtOn(net, Loaded(net, log, req, kind, resp, misses[..k + 1]).1, calls, |before|, url, req, kind, items[k]);
      assert OnlyDownloads(calls, |log|, |before|);
    }
  }

  lemma FetchesItems(net: Network, log: seq<NetCall>, req: Request, kind: Kind, misses: seq<string>)
    ensures |Fetches(net, log, req, kind, misses).0| == |misses|
    ensures forall k :: 0 <= k < |misses| ==>
      && FromNetwork(net, log, Fetches(net, log, req, kind, misses).1, req, kind, misses, misses[k],
                     Fetches(net, log, req, kind, misses).0[k])
      && Shaped(req, kind, misses[k], Fetches(net, log, req, kind, misses).0[k])
  {
    hide Loaded;
    var (items, calls) := Fetches(net, log, req, kind, misses);
    var asked := log + [CallOf(req, kind, misses)];
    if misses != [] && net.token && net.answer(asked).Ok? {
      var resp := net.answer(asked).value;
      LoadedItems(net, asked, req, kind, resp, misses, 0);
      hide UrlHeld, LoadedSince, Fails, One;
      forall k | 0 <= k < |misses|
        ensures FromNetwork(net, log, calls, req, kind, misses, misses[k], items[k])
        ensures Shaped(req, kind, misses[k], items[k])
      {
        LoadedItems(net, asked, req, kind, resp, misses, k);
        LoadedFrom(net, asked, req, kind, resp, misses, k);
        OneShape(net, Loaded(net, asked, req, kind, resp, misses[..k]).1, req, kind, resp, misses[k]);
      }
    }
  }
}
