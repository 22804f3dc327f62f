/** What resolving a request returns, in order, and that repeating it asks for nothing. */
module ImageAnswers {
  import opened Basics
  import opened Model
  import opened Store
  import opened Images
  import opened ImageFetch
  import opened ImageSources

  // ---- in order ----

  lemma {:induction false} MissesAre(subjects: seq<string>, hits: map<string, ImageItem>)
    requires Distinct(subjects)
    ensures Distinct(MissesOf(subjects, hits))
    ensures forall s :: s in MissesOf(subjects, hits) <==> s in subjects && s !in hits
  {
    if subjects != [] {
      var front, last := subjects[..|subjects| - 1], subjects[|subjects| - 1];
      assert subjects == front + [last];
      MissesAre(front, hits);
      assert forall s :: s in subjects <==> s in front || s == last;
    }
  }

  /** The items stand for distinct subjects. */
  ghost predicate For(items: seq<ImageItem>, misses: seq<string>) {
    |items| == |misses| && Distinct(misses) && forall k :: 0 <= k < |items| ==> items[k].subject == misses[k]
  }

  lemma {:induction false} WithItemsLookup(found: map<string, ImageItem>, items: seq<ImageItem>, misses: seq<string>)
    requires For(items, misses)
    ensures forall k :: 0 <= k < |misses| ==>
      misses[k] in WithItems(found, items) && WithItems(found, items)[misses[k]] == items[k]
    ensures forall s :: s !in misses ==>
      (s in WithItems(found, items) <==> s in found) && (s in found ==> WithItems(found, items)[s] == found[s])
  {
    if items != [] {
      var n := |items| - 1;
      WithItemsLookup(found, items[..n], misses[..n]);
      assert misses == misses[..n] + [misses[n]];
    }
  }

  lemma {:induction false} TakenAt(found: map<string, ImageItem>, subjects: seq<string>)
    requires forall s <- subjects :: s in found
    ensures |Taken(found, subjects)| == |subjects|
    ensures forall k :: 0 <= k < |subjects| ==> Taken(found, subjects)[k] == found[subjects[k]]
  {
    if subjects != [] {
      TakenAt(found, subjects[..|subjects| - 1]);
    }
  }

  /** What is returned for the k-th subject: its hit, byte for byte as stored, or else what the network
      made of it as one of the misses. */
  ghost predicate Answered(rows: Rows, net: Network, log: seq<NetCall>, calls: seq<NetCall>, req: Request, kind: Kind,
                           misses: seq<string>, subject: string, item: ImageItem) {
    match ImageHit(rows, req, kind, subject)
    case Some(hit) => item == hit
    case None => subject in misses && FromNetwork(net, log, calls, req, kind, misses, subject, item)
  }

  lemma AnsweredOn(rows: Rows, net: Network, log: seq<NetCall>, calls: seq<NetCall>, more: seq<NetCall>, req: Request,
                   kind: Kind, misses: seq<string>, subject: string, item: ImageItem)
    requires Answered(rows, net, log, calls, req, kind, misses, subject, item) && calls <= more
    ensures Answered(rows, net, log, more, req, kind, misses, subject, item)
  {
    hide FromNetwork;
    if ImageHit(rows, req, kind, subject).None? {
      FromNetworkOn(net, log, calls, more, req, kind, misses, subject, item);
    }
  }

  ghost function MissedOf(rows: Rows, req: Request, kind: Kind, subjects: seq<string>): seq<string> {
    MissesOf(subjects, Hits(rows, req, kind, Elements(subjects)))
  }

  lemma FetchedFor(net: Network, log: seq<NetCall>, req: Request, kind: Kind, subjects: seq<string>,
        hits: map<string, ImageItem>)
    requires Distinct(subjects)
    ensures For(Fetches(net, log, req, kind, MissesOf(subjects, hits)).0, MissesOf(subjects, hits))
  {
    hide MissesOf, Fetches, FromNetwork;
    MissesAre(subjects, hits);
    FetchesItems(net, log, req, kind, MissesOf(subjects, hits));
  }

  lemma InOrder(rows: Rows, net: Network, log: seq<NetCall>, req: Request, kind: Kind, subjects: seq<string>, k: nat)
    requires Distinct(subjects) && k < |subjects|
    ensures var misses := MissedOf(rows, req, kind, subjects);
      var found := WithItems(Hits(rows, req, kind, Elements(subjects)), Fetches(net, log, req, kind, misses).0);
      && |Taken(found, subjects)| == |subjects|
      && Answered(rows, net, log, Fetches(net, log, req, kind, misses).1, req, kind, misses, subjects[k],
                  Taken(found, subjects)[k])
      && Returned(rows, req, kind, subjects[k], Taken(found, subjects)[k])
  {
    var hits, s := Hits(rows, req, kind, Elements(subjects)), subjects[k];
    HitShape(rows, req, kind, s);
    assert s in Elements(subjects);
    assert s in hits <==> ImageHit(rows, req, kind, s).Some?;
    assert s in hits ==> hits[s] == ImageHit(rows, req, kind, s).value;
    hide MissesOf, Fetches, FromNetwork, WithItems, Taken, ImageHit, Hits, For;
    var misses := MissesOf(subjects, hits);
    var items := Fetches(net, log, req, kind, misses).0;
    MissesAre(subjects, hits);
    FetchesItems(net, log, req, kind, misses);
    FetchedFor(net, log, req, kind, subjects, hits);
    WithItemsLookup(hits, items, misses);
    TakenAt(WithItems(hits, items), subjects);
    if s !in hits {
      var j :| 0 <= j < |misses| && misses[j] == s;
      assert FromNetwork(net, log, Fetches(net, log, req, kind, misses).1, req, kind, misses, misses[j], items[j]);
    }
  }

  /** What an item returned for a subject looks like. */
  ghost predicate Returned(rows: Rows, req: Request, kind: Kind, subject: string, item: ImageItem) {
    && item.kind == kind && item.subject == subject && (kind == Render ==> item.format == req.format)
    && (item.cached <==> ImageHit(rows, req, kind, subject).Some?)
    && (item.cached ==> ImageHit(rows, req, kind, subject) == Some(item))
  }

  lemma HitShape(rows: Rows, req: Request, kind: Kind, subject: string)
    ensures ImageHit(rows, req, kind, subject).Some? ==>
      Returned(rows, req, kind, subject, ImageHit(rows, req, kind, subject).value)
  {
  }

  /** The subjects of a request of one kind, given the scanned nodes. */
  function SubjectsOf(nodes: Nodes, ids: seq<string>, kind: Kind): seq<string> {
    if kind == Render then ids else SortedStrings(FillRefs(nodes, ids))
  }

  lemma SubjectsDistinct(nodes: Nodes, ids: seq<string>, kind: Kind)
    requires Distinct(ids)
    ensures Distinct(SubjectsOf(nodes, ids, kind))
  {
    SortedDistinct(SortedStrings(FillRefs(nodes, ids)));
  }

  /** The calls made when the misses of a kind are asked for. */
  ghost function LogAt(nodes: Nodes, rows: Rows, net: Network, log: seq<NetCall>, req: Request, ids: seq<string>,
        kind: Kind)
    : seq<NetCall>
  {
    if kind == Render then log else Fetches(net, log, req, Render, MissedOf(rows, req, Render, ids)).1
  }

  /** The items of one kind, taken in the order of the subjects. */
  ghost function ItemsOf(rows: Rows, net: Network, log: seq<NetCall>, req: Request, kind: Kind, subjects: seq<string>)
    : seq<ImageItem>
  {
    Taken(WithItems(Hits(rows, req, kind, Elements(subjects)), Fetches(net, log, req, kind, MissedOf(rows, req, kind,
          subjects)).0), subjects)
  }

  lemma ResolvedParts(nodes: Nodes, rows: Rows, net: Network, log: seq<NetCall>, req: Request, ids: seq<string>)
    ensures var r := ResolvedOf(ScannedOf(nodes, rows, req, ids), net, log, req, ids);
      var refs, between := SubjectsOf(nodes, ids, Fill), LogAt(nodes, rows, net, log, req, ids, Fill);
      && r.items == ItemsOf(rows, net, log, req, Render, ids) + ItemsOf(rows, net, between, req, Fill, refs)
      && between == Fetches(net, log, req, Render, MissedOf(rows, req, Render, ids)).1
      && r.log == Fetches(net, between, req, Fill, MissedOf(rows, req, Fill, refs)).1
      && log <= between <= r.log
  {
    hide ImageHit, Fetches, FillRefs, Hits, MissesOf, WithItems, Taken;
    var refs, between := SortedStrings(FillRefs(nodes, ids)), LogAt(nodes, rows, net, log, req, ids, Fill);
    assert Elements(refs) == FillRefs(nodes, ids);
    FetchesRequests(net, log, req, Render, MissedOf(rows, req, Render, ids));
    FetchesRequests(net, between, req, Fill, MissedOf(rows, req, Fill, refs));
  }

  lemma ItemsLength(rows: Rows, net: Network, log: seq<NetCall>, req: Request, kind: Kind, subjects: seq<string>)
    requires Distinct(subjects)
    ensures |ItemsOf(rows, net, log, req, kind, subjects)| == |subjects|
  {
    hide ImageHit, Fetches, Hits, MissesOf, WithItems, Answered, Returned, MissedOf, Distinct;
    if subjects != [] {
      InOrder(rows, net, log, req, kind, subjects, 0);
    }
  }

  /** Resolving a scan yields one render per requested id in order, then one fill per reference in sorted
      order; each is the unaltered hit or what the network made of that miss. */
  lemma ResolvedInOrder(nodes: Nodes, rows: Rows, net: Network, log: seq<NetCall>, req: Request, ids: seq<string>,
        kind: Kind, k: nat)
    requires Distinct(ids) && k < |SubjectsOf(nodes, ids, kind)|
    ensures var Resolved(items, _, calls) := ResolvedOf(ScannedOf(nodes, rows, req, ids), net, log, req, ids);
      var subjects := SubjectsOf(nodes, ids, kind);
      var pos := if kind == Render then k else |ids| + k;
      && |items| == |ids| + |SubjectsOf(nodes, ids, Fill)|
      && log <= LogAt(nodes, rows, net, log, req, ids, kind)
      && Answered(rows, net, LogAt(nodes, rows, net, log, req, ids, kind), calls, req, kind,
                  MissedOf(rows, req, kind, subjects), subjects[k], items[pos])
      && Returned(rows, req, kind, subjects[k], items[pos])
  {
    hide *;
    ResolvedParts(nodes, rows, net, log, req, ids);
    SubjectsDistinct(nodes, ids, Fill);
    SubjectsAre(nodes, rows, net, log, req, ids);
    var refs, between := SubjectsOf(nodes, ids, Fill), LogAt(nodes, rows, net, log, req, ids, Fill);
    var r := ResolvedOf(ScannedOf(nodes, rows, req, ids), net, log, req, ids);
    ItemsLength(rows, net, log, req, Render, ids);
    ItemsLength(rows, net, between, req, Fill, refs);
    var at := if kind == Render then log else between;
    KindInOrder(rows, net, at, req, kind, if kind == Render then ids else refs, k, r.log);
  }

  lemma SubjectsAre(nodes: Nodes, rows: Rows, net: Network, log: seq<NetCall>, req: Request, ids: seq<string>)
    ensures SubjectsOf(nodes, ids, Render) == ids
    ensures LogAt(nodes, rows, net, log, req, ids, Render) == log
  {
  }

  lemma KindInOrder(rows: Rows, net: Network, log: seq<NetCall>, req: Request, kind: Kind, subjects: seq<string>, k: nat,
                    calls: seq<NetCall>)
    requires Distinct(subjects) && k < |subjects|
    requires Fetches(net, log, req, kind, MissedOf(rows, req, kind, subjects)).1 <= calls
    ensures |ItemsOf(rows, net, log, req, kind, subjects)| == |subjects|
    ensures var item := ItemsOf(rows, net, log, req, kind, subjects)[k];
      && Answered(rows, net, log, calls, req, kind, MissedOf(rows, req, kind, subjects), subjects[k], item)
      && Returned(rows, req, kind, subjects[k], item)
  {
    hide ImageHit, Fetches, Hits, MissesOf, WithItems, Answered, Returned, MissedOf, Distinct, Taken;
    InOrder(rows, net, log, req, kind, subjects, k);
    var misses := MissedOf(rows, req, kind, subjects);
    AnsweredOn(rows, net, log, Fetches(net, log, req, kind, misses).1, calls, req, kind, misses, subjects[k],
               ItemsOf(rows, net, log, req, kind, subjects)[k]);
  }

  lemma NothingTaken()
    ensures forall found :: Taken(found, []) == []
  {
  }

  // ---- repeating a request ----

  lemma MissesStep(subjects: seq<string>, hits: map<string, ImageItem>, i: nat)
    requires i < |subjects|
    ensures MissesOf(subjects[..i + 1], hits) ==
      MissesOf(subjects[..i], hits) + if subjects[i] in hits then [] else [subjects[i]]
  {
    assert subjects[..i + 1][..i] == subjects[..i];
  }

  lemma {:induction false} MissesPrefix(subjects: seq<string>, hits: map<string, ImageItem>, i: nat)
    requires i <= |subjects|
    ensures MissesOf(subjects[..i], hits) <= MissesOf(subjects, hits)
    decreases |subjects| - i
  {
    if i < |subjects| {
      MissesStep(subjects, hits, i);
      MissesPrefix(subjects, hits, i + 1);
    } else {
      assert subjects[..i] == subjects;
    }
  }

  /** What is found for the i-th subject: its hit, or the item of the next miss. */
  lemma FoundNext(subjects: seq<string>, hits: map<string, ImageItem>, items: seq<ImageItem>, i: nat)
    requires Distinct(subjects) && For(items, MissesOf(subjects, hits)) && i < |subjects|
    ensures var found, s, n := WithItems(hits, items), subjects[i], |MissesOf(subjects[..i], hits)|;
      && n <= |items| && s in found
      && |MissesOf(subjects[..i + 1], hits)| == (if s in hits then n else n + 1)
      && (if s in hits then found[s] == hits[s] else n < |items| && found[s] == items[n])
  {
    var s, misses := subjects[i], MissesOf(subjects, hits);
    MissesPrefix(subjects, hits, i);
    MissesPrefix(subjects, hits, i + 1);
    MissesStep(subjects, hits, i);
    WithItemsLookup(hits, items, misses);
    MissesAre(subjects, hits);
    ForLength(items, misses);
    hide MissesOf, WithItems, For, Distinct;
    var before := MissesOf(subjects[..i], hits);
    if s !in hits {
      assert (before + [s])[|before|] == s && misses[|before|] == s;
    }
  }

  /** Hits store nothing, so storing what was returned and storing what was fetched come to the same. */
  lemma {:induction false} StoresAlike(rows: Rows, version: string, req: Request, subjects: seq<string>,
                                       hits: map<string, ImageItem>, items: seq<ImageItem>, i: nat)
    requires Distinct(subjects) && For(items, MissesOf(subjects, hits)) && i <= |subjects|
    requires forall s <- hits :: hits[s].cached
    ensures |MissesOf(subjects[..i], hits)| <= |items|
    ensures AfterItems(rows, version, req, Taken(WithItems(hits, items), subjects[..i])) ==
      AfterItems(rows, version, req, items[..|MissesOf(subjects[..i], hits)|])
  {
    hide *;
    var found := WithItems(hits, items);
    if i == 0 {
      NothingYet(subjects, hits, found);
      assert items[..0] == [];
    } else {
      StoresAlike(rows, version, req, subjects, hits, items, i - 1);
      FoundNext(subjects, hits, items, i - 1);
      TakenOutside(found, subjects, i - 1);
      var s, n := subjects[i - 1], |MissesOf(subjects[..i - 1], hits)|;
      if s in hits {
        HitStoresNothing(AfterItems(rows, version, req, items[..n]), version, req, found[s]);
      } else {
        assert items[..n + 1] == items[..n] + [items[n]];
        OneMoreItem(rows, version, req, found, items[..n], items[n]);
      }
      OneMoreItem(rows, version, req, found, Taken(found, subjects[..i - 1]), found[s]);
    }
  }

  lemma NothingYet(subjects: seq<string>, hits: map<string, ImageItem>, found: map<string, ImageItem>)
    ensures MissesOf(subjects[..0], hits) == [] && Taken(found, subjects[..0]) == []
  {
  }

  lemma HitStoresNothing(rows: Rows, version: string, req: Request, hit: ImageItem)
    requires hit.cached
    ensures AfterItem(rows, version, req, hit) == rows
  {
  }

  lemma KindStores(rows0: Rows, rows: Rows, version: string, net: Network, log: seq<NetCall>, req: Request, kind: Kind,
                   subjects: seq<string>)
    requires Distinct(subjects)
    ensures var hits := Hits(rows, req, kind, Elements(subjects));
      var items := Fetches(net, log, req, kind, MissesOf(subjects, hits)).0;
      AfterItems(rows0, version, req, Taken(WithItems(hits, items), subjects)) == AfterItems(rows0, version, req, items)
  {
    var hits := Hits(rows, req, kind, Elements(subjects));
    assert forall s <- hits :: hits[s].cached;
    hide Hits, Fetches, Taken, WithItems, AfterItems, For, Distinct;
    var items := Fetches(net, log, req, kind, MissesOf(subjects, hits)).0;
    FetchedFor(net, log, req, kind, subjects, hits);
    StoresAlike(rows0, version, req, subjects, hits, items, |subjects|);
    assert subjects[..|subjects|] == subjects;
    ForLength(items, MissesOf(subjects, hits));
    assert items[..|items|] == items;
  }

  lemma ForLength(items: seq<ImageItem>, misses: seq<string>)
    requires For(items, misses)
    ensures |items| == |misses|
  {
  }

  lemma ResolvedStores(nodes: Nodes, rows: Rows, net: Network, log: seq<NetCall>, req: Request, ids: seq<string>)
    requires Distinct(ids)
    ensures var r := ResolvedOf(ScannedOf(nodes, rows, req, ids), net, log, req, ids);
      AfterItems(rows, ImageVersion(rows), req, r.items) == AfterItems(rows, ImageVersion(rows), req, r.fetched)
  {
    hide Fetches, SortedStrings, FillRefs, Hits, MissesOf, WithItems, Taken, AfterItems, ImageVersion;
    var version, refs := ImageVersion(rows), SortedStrings(FillRefs(nodes, ids));
    SubjectsDistinct(nodes, ids, Fill);
    assert Elements(refs) == FillRefs(nodes, ids);
    var hits, fillHits := Hits(rows, req, Render, Elements(ids)), Hits(rows, req, Fill, Elements(refs));
    var (a, log1) := Fetches(net, log, req, Render, MissesOf(ids, hits));
    var b := Fetches(net, log1, req, Fill, MissesOf(refs, fillHits)).0;
    var first, second := Taken(WithItems(hits, a), ids), Taken(WithItems(fillHits, b), refs);
    KindStores(rows, rows, version, net, log, req, Render, ids);
    KindStores(AfterItems(rows, version, req, a), rows, version, net, log1, req, Fill, refs);
    AfterItemsAppend(rows, version, req, a, b);
    AfterItemsAppend(rows, version, req, first, second);
  }

  /** When the requested keys do not collide, every item that succeeded is a hit, with the same bytes
      and format, if asked for again while the stored version stands. */
  lemma SucceededIsHit(nodes: Nodes, rows: Rows, net: Network, log: seq<NetCall>, req: Request, ids: seq<string>,
        kind: Kind, k: nat)
    requires Distinct(ids) && k < |SubjectsOf(nodes, ids, kind)|
    requires KeysApart(req, ResolvedOf(ScannedOf(nodes, rows, req, ids), net, log, req, ids).items)
    ensures var r := ResolvedOf(ScannedOf(nodes, rows, req, ids), net, log, req, ids);
      var after, pos := AfterItems(rows, ImageVersion(rows), req, r.fetched), if kind == Render then k else |ids| + k;
      && ImageVersion(after) == ImageVersion(rows) && pos < |r.items|
      && (r.items[pos].error.None? ==>
            ImageHit(after, req, kind, SubjectsOf(nodes, ids, kind)[k]) == Some(r.items[pos].(cached := true)))
  {
    ResolvedInOrder(nodes, rows, net, log, req, ids, kind, k);
    hide AfterItems, ResolvedOf, ScannedOf, SubjectsOf, KeysApart, ImageHit, ImageVersion, Answered;
    ResolvedStores(nodes, rows, net, log, req, ids);
    HitAfterwards(rows, req, ResolvedOf(ScannedOf(nodes, rows, req, ids), net, log, req, ids).items,
                  if kind == Render then k else |ids| + k);
  }

  /** So a repeat of a request that succeeded throughout makes no call at all. */
  lemma RepeatAsksNothing(nodes: Nodes, rows: Rows, net: Network, log: seq<NetCall>, req: Request, ids: seq<string>,
                          again: Network, later: seq<NetCall>)
    requires Distinct(ids)
    requires KeysApart(req, ResolvedOf(ScannedOf(nodes, rows, req, ids), net, log, req, ids).items)
    requires forall i <- ResolvedOf(ScannedOf(nodes, rows, req, ids), net, log, req, ids).items :: i.error.None?
    ensures var r := ResolvedOf(ScannedOf(nodes, rows, req, ids), net, log, req, ids);
      var after := AfterItems(rows, ImageVersion(rows), req, r.fetched);
      ResolvedOf(ScannedOf(nodes, after, req, ids), again, later, req, ids).log == later
  {
    var r := ResolvedOf(ScannedOf(nodes, rows, req, ids), net, log, req, ids);
    var after := AfterItems(rows, ImageVersion(rows), req, r.fetched);
    AllHit(nodes, rows, net, log, req, ids, Render);
    AllHit(nodes, rows, net, log, req, ids, Fill);
    assert Elements(SortedStrings(FillRefs(nodes, ids))) == FillRefs(nodes, ids);
    hide AfterItems, ImageHit, KeysApart, SortedStrings, FillRefs, Taken, WithItems, Loaded;
    NoMisses(after, req, Render, ids);
    NoMisses(after, req, Fill, SortedStrings(FillRefs(nodes, ids)));
  }

  lemma AllHit(nodes: Nodes, rows: Rows, net: Network, log: seq<NetCall>, req: Request, ids: seq<string>, kind: Kind)
    requires Distinct(ids)
    requires KeysApart(req, ResolvedOf(ScannedOf(nodes, rows, req, ids), net, log, req, ids).items)
    requires forall i <- ResolvedOf(ScannedOf(nodes, rows, req, ids), net, log, req, ids).items :: i.error.None?
    ensures var r := ResolvedOf(ScannedOf(nodes, rows, req, ids), net, log, req, ids);
      forall s <- SubjectsOf(nodes, ids, kind) :: ImageHit(AfterItems(rows, ImageVersion(rows), req, r.fetched), req, kind, s).Some?
  {
    hide *;
    var r := ResolvedOf(ScannedOf(nodes, rows, req, ids), net, log, req, ids);
    forall s | s in SubjectsOf(nodes, ids, kind)
      ensures ImageHit(AfterItems(rows, ImageVersion(rows), req, r.fetched), req, kind, s).Some?
    {
      var k :| 0 <= k < |SubjectsOf(nodes, ids, kind)| && SubjectsOf(nodes, ids, kind)[k] == s;
      SucceededIsHit(nodes, rows, net, log, req, ids, kind, k);
      assert r.items[if kind == Render then k else |ids| + k] in r.items;
    }
  }

  lemma {:induction false} AllHits(subjects: seq<string>, hits: map<string, ImageItem>)
    requires forall s <- subjects :: s in hits
    ensures MissesOf(subjects, hits) == []
  {
    if subjects != [] {
      AllHits(subjects[..|subjects| - 1], hits);
    }
  }

  lemma NoMisses(rows: Rows, req: Request, kind: Kind, subjects: seq<string>)
    requires forall s <- subjects :: ImageHit(rows, req, kind, s).Some?
    ensures MissedOf(rows, req, kind, subjects) == []
  {
    hide ImageHit;
    forall s | s in subjects ensures s in Hits(rows, req, kind, Elements(subjects)) {
      assert s in Elements(subjects);
    }
    AllHits(subjects, Hits(rows, req, kind, Elements(subjects)));
  }
}
