/** The version tags of cached rows over runs of completed steps: proxied calls, image calls, pulls of
    either kind, wipes and other writes. */
module Versions {
  import opened Basics
  import opened Json
  import opened Model
  import opened Store
  import opened Pulls
  import opened Cache
  import opened Images
  import opened ImageFetch

  /** A completed step; a fresh pull is a wipe and then a pull. */
  datatype Act =
    | Called(hash: Hash, name: string, args: Value, answer: Result<Value, string>)
    | Asked(nodes: Nodes, req: Request, ids: seq<string>, net: Network, calls: seq<NetCall>)
    | Pulled(way: Way, d: Fetched, geometry: bool, now: nat)
    | Wiped
    | Wrote(op: Op)

  datatype Way = Session | Cli

  /** Other writes touch neither a cached row nor the meta row. */
  ghost predicate Allowed(a: Act) {
    match a
    case Pulled(_, d, _, _) => Storable(d)
    case Wrote(op) => !op.id.ProxyCacheId? && !op.id.ImageBlobId? && op.id != MetaId
    case _ => true
  }

  ghost function After(rows: Rows, a: Act): Rows {
    match a
    case Called(hash, name, args, answer) => AfterCall(rows, hash, name, args, answer)
    case Asked(nodes, req, ids, net, calls) =>
      AfterItems(rows, ImageVersion(rows), req, ResolvedOf(ScannedOf(nodes, rows, req, ids), net, calls, req, ids).fetched)
    case Pulled(way, d, geometry, now) =>
      if way == Session then SessionPulled(rows, d, geometry, now) else CliPulled(rows, d, geometry, now)
    case Wiped => map[]
    case Wrote(op) => AfterOp(rows, op)
  }

  ghost function AfterAll(rows: Rows, acts: seq<Act>): Rows {
    if acts == [] then rows else After(AfterAll(rows, acts[..|acts| - 1]), acts[|acts| - 1])
  }

  lemma CallKeepsCurrent(rows: Rows, hash: Hash, name: string, args: Value, answer: Result<Value, string>)
    requires CachesCurrent(rows)
    ensures CachesCurrent(AfterCall(rows, hash, name, args, answer))
  {
    hide IsCacheable, IsError, CacheLookup;
    assert StoredMeta(AfterCall(rows, hash, name, args, answer)) == StoredMeta(rows);
  }

  lemma {:induction false} ItemsKeepCurrent(rows: Rows, req: Request, items: seq<ImageItem>)
    requires CachesCurrent(rows)
    ensures CachesCurrent(AfterItems(rows, ImageVersion(rows), req, items))
    ensures StoredMeta(AfterItems(rows, ImageVersion(rows), req, items)) == StoredMeta(rows)
  {
    if items != [] {
      ItemsKeepCurrent(rows, req, items[..|items| - 1]);
    }
  }

  lemma StepKeepsCurrent(rows: Rows, a: Act)
    requires Allowed(a) && CachesCurrent(rows)
    ensures CachesCurrent(After(rows, a))
  {
    hide AfterCall, AfterItems, SessionPulled, CliPulled, ResolvedOf, ScannedOf, Storable, ImageVersion;
    match a
    case Called(hash, name, args, answer) => CallKeepsCurrent(rows, hash, name, args, answer);
    case Asked(nodes, req, ids, net, calls) =>
      ItemsKeepCurrent(rows, req, ResolvedOf(ScannedOf(nodes, rows, req, ids), net, calls, req, ids).fetched);
    case Pulled(_, d, geometry, now) =>
      CurrentPullsAgree(rows, d, geometry, now);
    case Wiped =>
    case Wrote(op) =>
      assert StoredMeta(AfterOp(rows, op)) == StoredMeta(rows);
  }

  /** After any run of completed steps from an empty store, every cached row carries the stored version. */
  lemma {:induction false} RunCurrent(acts: seq<Act>)
    requires forall a <- acts :: Allowed(a)
    ensures CachesCurrent(AfterAll(map[], acts))
  {
    hide After, Allowed, CachesCurrent;
    if acts == [] {
      EmptyCurrent();
    } else {
      RunCurrent(acts[..|acts| - 1]);
      StepKeepsCurrent(AfterAll(map[], acts[..|acts| - 1]), acts[|acts| - 1]);
    }
  }

  lemma EmptyCurrent()
    ensures CachesCurrent(map[])
  {
  }

  /** The same step but for the way a pull is made. */
  ghost predicate SameButWay(a: Act, b: Act) {
    a == b || (a.Pulled? && b.Pulled? && a == b.(way := a.way))
  }

  /** Two runs of completed steps that differ only in which way each pull is made end in the same store. */
  lemma {:induction false} RunsAgree(acts: seq<Act>, others: seq<Act>)
    requires (forall a <- acts :: Allowed(a)) && |acts| == |others|
    requires forall k :: 0 <= k < |acts| ==> SameButWay(acts[k], others[k])
    ensures AfterAll(map[], acts) == AfterAll(map[], others)
  {
    hide CachesCurrent, SessionPulled, CliPulled, AfterCall, ResolvedOf, Storable;
    if acts != [] {
      var n := |acts| - 1;
      var rows, a := AfterAll(map[], acts[..n]), acts[n];
      RunsAgree(acts[..n], others[..n]);
      RunCurrent(acts[..n]);
      assert SameButWay(acts[n], others[n]);
      assert a in acts && Allowed(a);
      if a.Pulled? {
        CurrentPullsAgree(rows, a.d, a.geometry, a.now);
      }
    }
  }
}
