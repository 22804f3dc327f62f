/** What the image cache keeps over any run of image calls, pulls and interruptions. */
module ImageRuns {
  import opened Basics
  import opened Model
  import opened Store
  import opened Pulls
  import opened Images
  import opened ImageFetch
  import opened ImageSources
  import opened ImageAnswers

  /** One image that was downloaded, and the file version the store held at the time. */
  datatype Shot = Shot(kind: Kind, subject: string, format: string, scale: nat, version: string, bytes: seq<Byte>)

  /** The store, every call made to the network, and the images downloaded. */
  datatype World = World(rows: Rows, calls: seq<NetCall>, log: seq<Shot>)

  const EMPTY := World(map[], [], [])

  /** An image call over the stored nodes; a pull of either kind, whole or cut
      off; the wipe that begins a fresh pull; any other write, which touches neither the images nor the
      meta row. */
  datatype Event =
    | Asked(nodes: Nodes, req: Request, ids: seq<string>)
    | SessionPull(d: Fetched, geometry: bool, now: nat)
    | CliPull(d: Fetched, geometry: bool, now: nat)
    | CutAfterSync(d: Fetched, now: nat)
    | CutAfterEvict(d: Fetched, now: nat)
    | Wipe
    | Write(op: Op)

  ghost predicate Possible(e: Event) {
    match e
    case Asked(_, _, _) => true
    case Wipe => true
    case Write(op) => !op.id.ImageBlobId? && op.id != MetaId
    case _ => Storable(e.d)
  }

  function ShotOf(req: Request, version: string, item: ImageItem): Shot {
    Shot(item.kind, item.subject, item.format, if item.kind == Render then req.scale else 1000, version, item.bytes)
  }

  /** The downloads among the items of a call. */
  function Shots(req: Request, version: string, items: seq<ImageItem>): seq<Shot> {
    if items == [] then []
    else if Fresh(items[|items| - 1])
    then Shots(req, version, items[..|items| - 1]) + [ShotOf(req, version, items[|items| - 1])]
    else Shots(req, version, items[..|items| - 1])
  }

  /** What an image call comes to. */
  ghost function Outcome(net: Network, w: World, e: Event): Resolved
    requires e.Asked?
  {
    ResolvedOf(ScannedOf(e.nodes, w.rows, e.req, e.ids), net, w.calls, e.req, e.ids)
  }

  /** The network is one and the same throughout, and answers by all the calls made before. */
  ghost function Step(net: Network, w: World, e: Event): World {
    match e
    case Asked(_, req, _) =>
      var r := Outcome(net, w, e);
      World(AfterItems(w.rows, ImageVersion(w.rows), req, r.fetched), r.log,
            w.log + Shots(req, ImageVersion(w.rows), r.fetched))
    case SessionPull(d, geometry, now) => w.(rows := SessionPulled(w.rows, d, geometry, now))
    case CliPull(d, geometry, now) => w.(rows := CliPulled(w.rows, d, geometry, now))
    case CutAfterSync(d, now) => w.(rows := AfterSync(w.rows, d, now))
    case CutAfterEvict(d, now) => w.(rows := AfterEvict(AfterSync(w.rows, d, now), d.f.file.version))
    case Wipe => w.(rows := map[])
    case Write(op) => w.(rows := AfterOp(w.rows, op))
  }

  ghost function Run(net: Network, w: World, events: seq<Event>): World {
    if events == [] then w else Step(net, Run(net, w, events[..|events| - 1]), events[|events| - 1])
  }

  // ---- where an image came from ----

  /** `calls[i]` is the request whose answer gives the image's own URL, and `calls[j]` the download of that URL
      that its bytes were the answer to. */
  ghost predicate SourcedAt(net: Network, calls: seq<NetCall>, x: Shot, i: nat, j: nat, url: string) {
    && i < j < |calls| && OnlyDownloads(calls, i + 1, j)
    && (x.kind == Render ==>
          && calls[i].RenderCall? && x.subject in calls[i].ids && calls[i].format == x.format && calls[i].scale == x.scale)
    && (x.kind == Fill ==> calls[i] == FillsCall && x.format == net.sniff(url))
    && net.answer(calls[..i + 1]).Ok? && UrlHeld(x.kind, net.answer(calls[..i + 1]).value, x.subject, url)
    && calls[j] == DownloadCall(url) && net.download(calls[..j + 1]) == Ok(x.bytes)
  }

  ghost predicate Sourced(net: Network, calls: seq<NetCall>, x: Shot) {
    exists i: nat, j: nat, url :: SourcedAt(net, calls, x, i, j, url)
  }

  lemma SourcedOn(net: Network, calls: seq<NetCall>, more: seq<NetCall>, x: Shot)
    requires Sourced(net, calls, x) && calls <= more
    ensures Sourced(net, more, x)
  {
    var i: nat, j: nat, url :| SourcedAt(net, calls, x, i, j, url);
    assert more[..i + 1] == calls[..i + 1] && more[..j + 1] == calls[..j + 1];
    assert OnlyDownloads(more, i + 1, j);
    assert SourcedAt(net, more, x, i, j, url);
  }

  /** A miss that succeeded was sourced from the request made for the misses. */
  lemma MissSourced(net: Network, log: seq<NetCall>, calls: seq<NetCall>, req: Request, kind: Kind, misses: seq<string>,
                    item: ImageItem, version: string)
    requires FromNetwork(net, log, calls, req, kind, misses, item.subject, item) && item.subject in misses
    requires item.error.None? && item.kind == kind
    ensures Sourced(net, calls, ShotOf(req, version, item))
  {
    hide UrlHeld;
    var call := if kind == Render then RenderCall(misses, req.format, req.scale) else FillsCall;
    var asked := log + [call];
    assert calls[..|log| + 1] == asked && calls[|log|] == call;
    var resp := net.answer(asked).value;
    var url :| UrlHeld(kind, resp, item.subject, url);
    var j: nat :| |asked| <= j && OnlyDownloads(calls, |asked|, j) && LoadedAt(net, calls, j, url, req, kind, item);
    assert SourcedAt(net, calls, ShotOf(req, version, item), |log|, j, url);
  }

  ghost predicate AllSourced(net: Network, calls: seq<NetCall>, log: seq<Shot>) {
    forall x <- log :: Sourced(net, calls, x)
  }

  lemma AllSourcedAppend(net: Network, calls: seq<NetCall>, more: seq<NetCall>, a: seq<Shot>, b: seq<Shot>)
    requires AllSourced(net, calls, a) && AllSourced(net, more, b) && calls <= more
    ensures AllSourced(net, more, a + b)
  {
    hide Sourced;
    forall x | x in a + b ensures Sourced(net, more, x) {
      if x in a {
        SourcedOn(net, calls, more, x);
      }
    }
  }

  /** Items that each came from the network as one of the misses. */
  ghost predicate AllFrom(net: Network, log: seq<NetCall>, calls: seq<NetCall>, req: Request, kind: Kind,
                          misses: seq<string>, items: seq<ImageItem>) {
    forall item <- items ::
      item.kind == kind && item.subject in misses && FromNetwork(net, log, calls, req, kind, misses, item.subject, item)
  }

  lemma {:induction false} ItemsSourced(net: Network, log: seq<NetCall>, calls: seq<NetCall>, req: Request, kind: Kind,
                                        misses: seq<string>, items: seq<ImageItem>, version: string)
    requires AllFrom(net, log, calls, req, kind, misses, items)
    ensures AllSourced(net, calls, Shots(req, version, items))
  {
    hide FromNetwork, Sourced, ShotOf;
    if items != [] {
      var front, last := items[..|items| - 1], items[|items| - 1];
      assert items == front + [last];
      ItemsSourced(net, log, calls, req, kind, misses, front, version);
      if Fresh(last) {
        MissSourced(net, log, calls, req, kind, misses, last, version);
      }
    }
  }

  lemma FetchesSourced(net: Network, log: seq<NetCall>, req: Request, kind: Kind, misses: seq<string>, version: string)
    ensures var (items, calls) := Fetches(net, log, req, kind, misses);
      log <= calls && AllSourced(net, calls, Shots(req, version, items))
  {
    hide Fetches, FromNetwork, Shots, AllSourced;
    var (items, calls) := Fetches(net, log, req, kind, misses);
    FetchesRequests(net, log, req, kind, misses);
    FetchesItems(net, log, req, kind, misses);
    forall item | item in items
      ensures item.kind == kind && item.subject in misses
      ensures FromNetwork(net, log, calls, req, kind, misses, item.subject, item)
    {
      var k :| 0 <= k < |items| && items[k] == item;
      assert Shaped(req, kind, misses[k], items[k]);
    }
    ItemsSourced(net, log, calls, req, kind, misses, items, version);
  }

  lemma {:induction false} ShotsAppend(req: Request, version: string, a: seq<ImageItem>, b: seq<ImageItem>)
    ensures Shots(req, version, a + b) == Shots(req, version, a) + Shots(req, version, b)
  {
    if b == [] {
      assert a + b == a;
    } else {
      ShotsAppend(req, version, a, b[..|b| - 1]);
      assert (a + b)[..|a + b| - 1] == a + b[..|b| - 1];
    }
  }

  /** Every image fetched by a call is sourced in the calls made by then. */
  lemma OutcomeSourced(net: Network, w: World, e: Event)
    requires e.Asked?
    ensures var r := Outcome(net, w, e);
      w.calls <= r.log && AllSourced(net, r.log, Shots(e.req, ImageVersion(w.rows), r.fetched))
  {
    hide Fetches, MissesOf, Taken, WithItems, SortedStrings, Hits, FillRefs, AllSourced, Shots;
    var version, s := ImageVersion(w.rows), ScannedOf(e.nodes, w.rows, e.req, e.ids);
    var missing, refs := MissesOf(e.ids, s.renderHits), MissesOf(SortedStrings(s.fillRefs), s.fillHits);
    var (renders, log1) := Fetches(net, w.calls, e.req, Render, missing);
    var (fills, log2) := Fetches(net, log1, e.req, Fill, refs);
    FetchesSourced(net, w.calls, e.req, Render, missing, version);
    FetchesSourced(net, log1, e.req, Fill, refs, version);
    ShotsAppend(e.req, version, renders, fills);
    AllSourcedAppend(net, log1, log2, Shots(e.req, version, renders), Shots(e.req, version, fills));
  }

  // ---- what is kept ----

  /** The row is a download of what the row says it is, at the row's version. */
  ghost predicate Given(log: seq<Shot>, b: ImageBlobRec) {
    Shot(b.kind, b.subject, b.format, b.scaleMilli, b.fileVersion, b.bytes) in log
  }

  ghost predicate Honest(rows: Rows, log: seq<Shot>) {
    forall id <- rows :: id.ImageBlobId? && rows[id].ImageBlob? ==> Given(log, rows[id].blob)
  }

  /** Every image row is a logged download, and every logged download is sourced. */
  ghost predicate Kept(net: Network, w: World) {
    Honest(w.rows, w.log) && AllSourced(net, w.calls, w.log)
  }

  lemma {:induction false} ItemsHonest(rows: Rows, log: seq<Shot>, version: string, req: Request, items: seq<ImageItem>)
    requires Honest(rows, log)
    ensures Honest(AfterItems(rows, version, req, items), log + Shots(req, version, items))
  {
    if items == [] {
      assert log + [] == log;
    } else {
      var front, last := items[..|items| - 1], items[|items| - 1];
      ItemsHonest(rows, log, version, req, front);
      if Fresh(last) {
        assert log + Shots(req, version, items) == (log + Shots(req, version, front)) + [ShotOf(req, version, last)];
      }
    }
  }

  /** Images are only ever dropped by what is not an image call. */
  lemma OthersKeepImages(net: Network, w: World, e: Event, id: Id)
    requires Possible(e) && !e.Asked? && id.ImageBlobId?
    ensures var after := Lookup(Step(net, w, e).rows, id); after.None? || after == Lookup(w.rows, id)
  {
    hide AfterSync, Storable;
    if !e.Write? && !e.Wipe? {
      SyncKeepsCaches(w.rows, e.d, e.now, id);
    }
  }

  lemma StepHonest(net: Network, w: World, e: Event)
    requires Kept(net, w) && Possible(e)
    ensures Kept(net, Step(net, w, e))
  {
    hide AllSourced;
    if e.Asked? {
      hide Outcome, Honest, AfterItems, Shots;
      var version, r := ImageVersion(w.rows), Outcome(net, w, e);
      OutcomeSourced(net, w, e);
      ItemsHonest(w.rows, w.log, version, e.req, r.fetched);
      AllSourcedAppend(net, w.calls, r.log, w.log, Shots(e.req, version, r.fetched));
    } else {
      hide Possible, Given;
      var after := Step(net, w, e);
      assert after.log == w.log && after.calls == w.calls;
      hide Step;
      forall id | id in after.rows && id.ImageBlobId? && after.rows[id].ImageBlob?
        ensures Given(after.log, after.rows[id].blob)
      {
        OthersKeepImages(net, w, e, id);
        assert Lookup(after.rows, id) == Lookup(w.rows, id);
      }
    }
  }

  lemma {:induction false} RunHonest(net: Network, events: seq<Event>)
    requires forall e <- events :: Possible(e)
    ensures Kept(net, Run(net, EMPTY, events))
  {
    if events != [] {
      hide Kept, Step, Possible;
      RunHonest(net, events[..|events| - 1]);
      StepHonest(net, Run(net, EMPTY, events[..|events| - 1]), events[|events| - 1]);
    }
  }

  /** Whatever the hash, the network and what happened before, an image returned from the cache is what the
      network answered to a download of that very subject's own URL, as given by the request that asked for
      it, and if a render in that very format and scale, while the store held the file version it holds now. */
  lemma ServedImagesWereDownloaded(net: Network, events: seq<Event>, nodes: Nodes, req: Request, ids: seq<string>,
                                   kind: Kind, k: nat)
    requires (forall e <- events :: Possible(e)) && Distinct(ids) && k < |SubjectsOf(nodes, ids, kind)|
    ensures var w := Run(net, EMPTY, events);
      var r := Outcome(net, w, Asked(nodes, req, ids));
      var pos := if kind == Render then k else |ids| + k;
      pos < |r.items| &&
      (r.items[pos].cached ==> Downloaded(net, w, req, kind, SubjectsOf(nodes, ids, kind)[k], r.items[pos]))
  {
    var w := Run(net, EMPTY, events);
    ResolvedInOrder(nodes, w.rows, net, w.calls, req, ids, kind, k);
    hide Run, SubjectsOf, ResolvedOf, ScannedOf, Answered, Downloaded, Kept, ImageHit;
    RunHonest(net, events);
    var subject := SubjectsOf(nodes, ids, kind)[k];
    if ImageHit(w.rows, req, kind, subject).Some? {
      HitGiven(net, w, req, kind, subject);
    }
  }

  /** The item was downloaded as the subject, at the version held now. */
  ghost predicate Downloaded(net: Network, w: World, req: Request, kind: Kind, subject: string, item: ImageItem) {
    exists scale ::
      && LoggedAs(net, w, kind, subject, scale, item)
      && (kind == Render ==> scale == req.scale && item.format == req.format)
  }

  ghost predicate LoggedAs(net: Network, w: World, kind: Kind, subject: string, scale: nat, item: ImageItem) {
    var x := Shot(kind, subject, item.format, scale, ImageVersion(w.rows), item.bytes);
    x in w.log && Sourced(net, w.calls, x)
  }

  lemma HitGiven(net: Network, w: World, req: Request, kind: Kind, subject: string)
    requires Kept(net, w) && ImageHit(w.rows, req, kind, subject).Some?
    ensures Downloaded(net, w, req, kind, subject, ImageHit(w.rows, req, kind, subject).value)
  {
    hide Sourced;
    var blob := w.rows[ImageBlobId(req.Key(kind, subject))].blob;
    assert Given(w.log, blob);
    var item := ImageHit(w.rows, req, kind, subject).value;
    assert LoggedAs(net, w, kind, subject, blob.scaleMilli, item);
  }

  /** An image that was not in the cache and came back without an error is sourced in the calls made by then:
      its bytes answer the download of its own subject's URL, as given by the request that asked for it. */
  lemma FetchedImagesAreTheirOwn(net: Network, w: World, nodes: Nodes, req: Request, ids: seq<string>, kind: Kind, k: nat)
    requires Distinct(ids) && k < |SubjectsOf(nodes, ids, kind)|
    ensures var r := Outcome(net, w, Asked(nodes, req, ids));
      var pos := if kind == Render then k else |ids| + k;
      && pos < |r.items| && r.items[pos].subject == SubjectsOf(nodes, ids, kind)[k] && r.items[pos].kind == kind
      && w.calls <= r.log
      && (!r.items[pos].cached && r.items[pos].error.None? ==>
            Sourced(net, r.log, ShotOf(req, ImageVersion(w.rows), r.items[pos])))
  {
    var r := Outcome(net, w, Asked(nodes, req, ids));
    ResolvedInOrder(nodes, w.rows, net, w.calls, req, ids, kind, k);
    OutcomeSourced(net, w, Asked(nodes, req, ids));
    hide SubjectsOf, ResolvedOf, ScannedOf, ImageHit, MissedOf, FromNetwork, Sourced, ShotOf, LogAt, AllSourced, Shots;
    var pos := if kind == Render then k else |ids| + k;
    if !r.items[pos].cached && r.items[pos].error.None? {
      MissSourced(net, LogAt(nodes, w.rows, net, w.calls, req, ids, kind), r.log, req, kind,
                  MissedOf(w.rows, req, kind, SubjectsOf(nodes, ids, kind)), r.items[pos], ImageVersion(w.rows));
    }
  }
}
