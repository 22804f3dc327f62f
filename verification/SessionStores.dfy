/** A session and its store: the meta row the session goes by is the one its store holds, and a session's
    pull is a pull of that store. */
module SessionStores {
  import opened Basics
  import opened Json
  import opened Model
  import opened Store
  import opened Flatten
  import opened Sync
  import opened Pulls
  import opened Cache
  import opened Images
  import opened ImageFetch
  import opened Watch
  import opened Sessions

  /** The network's answers to one pull, with the API's own errors. */
  type Fetch = Result<(Value, Option<Result<seq<Entry>, string>>), ApiError>

  function AsReply(fetch: Fetch): Reply {
    match fetch
    case Ok(answers) => Ok(answers)
    case Err(e) => Err(if e.RateLimited? then "rate limited" else e.msg)
  }

  /** What the session makes of it: the meta row to be stored, or the failure. */
  function PullOf(fetch: Fetch, now: nat): PullResult {
    match fetch
    case Err(e) => Err(Api(e))
    case Ok(_) =>
      match Prepared(AsReply(fetch))
      case Err(msg) => Err(Other(msg))
      case Ok(d) => Ok(MetaOf(d.f.file, now).meta)
  }

  /** The session goes by what its store holds. */
  ghost predicate GoesBy(s: SessionState, rows: Rows) {
    s.meta == StoredMeta(rows)
  }

  /** Opening goes by the store on disk; so does every pull after it, of either outcome. */
  lemma SessionGoesByStore(s: SessionState, rows: Rows, fetch: Fetch, geometry: bool, interval: nat, now: nat,
        key: string)
    requires GoesBy(s, rows) && (Prepared(AsReply(fetch)).Ok? ==> Storable(Prepared(AsReply(fetch)).value))
    ensures GoesBy(Opened(key, StoredMeta(rows)), rows)
    ensures GoesBy(AfterPull(s, PullOf(fetch, now), interval).0, StoreAfter(rows, fetch, geometry, now))
  {
    hide FlattenedFile, SessionPulled, Storable;
    if fetch.Ok? && Prepared(AsReply(fetch)).Ok? {
      SessionPullStores(rows, Prepared(AsReply(fetch)).value, geometry, now);
    }
  }

  function StoreAfter(rows: Rows, fetch: Fetch, geometry: bool, now: nat): Rows {
    if Prepared(AsReply(fetch)).Ok? then SessionPulled(rows, Prepared(AsReply(fetch)).value, geometry, now) else rows
  }

  /** The session's pull: its store is pulled, and the session takes note of the outcome. */
  method PullSession(s: FileSession, st: KeyedStream, fetch: Fetch, geometry: bool, interval: nat, now: nat)
    returns (r: Result<(), nat>)
    requires st.Valid() && GoesBy(s.State(), st.rows)
    requires Prepared(AsReply(fetch)).Ok? ==> Storable(Prepared(AsReply(fetch)).value)
    modifies s, st
    ensures st.Valid() && GoesBy(s.State(), st.rows) && fresh(s.watcher)
    ensures (s.State(), r) == AfterPull(old(s.State()), PullOf(fetch, now), interval)
    ensures st.rows == StoreAfter(old(st.rows), fetch, geometry, now)
  {
    hide Rebuilt, Prepared, SessionPulled, Storable, AfterPull;
    SessionGoesByStore(s.State(), st.rows, fetch, geometry, interval, now, s.key);
    var outcome := Pulls.SessionPull(st, AsReply(fetch), geometry, now);
    r := s.DoPull(PullOf(fetch, now), interval);
  }

  // ---- runs of a session on its store ----

  /** What a session does with its store: a pull, a proxied call, an image call; and a poll, which moves only
      the watcher. */
  datatype Act =
    | Pull(fetch: Fetch, geometry: bool, interval: nat, now: nat)
    | Calls(hash: Hash, name: string, args: Value, answer: Result<Value, string>)
    | Asks(req: Request, ids: seq<string>, net: Network, calls: seq<NetCall>)
    | Polls(meta: Result<string, ApiError>)

  datatype Pair = Pair(session: SessionState, rows: Rows)

  ghost predicate Possible(a: Act) {
    a.Pull? && Prepared(AsReply(a.fetch)).Ok? ==> Storable(Prepared(AsReply(a.fetch)).value)
  }

  ghost function After(p: Pair, a: Act, nodes: Nodes): Pair {
    match a
    case Pull(fetch, geometry, interval, now) =>
      Pair(AfterPull(p.session, PullOf(fetch, now), interval).0, StoreAfter(p.rows, fetch, geometry, now))
    case Calls(hash, name, args, answer) => p.(rows := AfterCall(p.rows, hash, name, args, answer))
    case Asks(req, ids, net, calls) =>
      p.(rows := AfterItems(p.rows, ImageVersion(p.rows), req,
                            ResolvedOf(ScannedOf(nodes, p.rows, req, ids), net, calls, req, ids).fetched))
    case Polls(meta) => p.(session := p.session.(watcher := Ticked(p.session.watcher, meta).0))
  }

  ghost function AfterAll(p: Pair, acts: seq<Act>, nodes: seq<Nodes>): Pair
    requires |nodes| == |acts|
  {
    if acts == [] then p
    else
      var n := |acts| - 1;
      After(AfterAll(p, acts[..n], nodes[..n]), acts[n], nodes[n])
  }

  lemma CallKeepsMeta(rows: Rows, hash: Hash, name: string, args: Value, answer: Result<Value, string>)
    ensures StoredMeta(AfterCall(rows, hash, name, args, answer)) == StoredMeta(rows)
  {
    hide IsCacheable, IsError, Hit;
  }

  lemma {:induction false} ItemsKeepMeta(rows: Rows, version: string, req: Request, items: seq<ImageItem>)
    ensures StoredMeta(AfterItems(rows, version, req, items)) == StoredMeta(rows)
  {
    hide Blob;
    if items != [] {
      ItemsKeepMeta(rows, version, req, items[..|items| - 1]);
    }
  }

  /** Opened on its store, a session goes by it after any run of pulls, proxied calls, image calls and
      polls, over whatever nodes the image calls scan. */
  lemma {:induction false} RunGoesBy(key: string, rows: Rows, acts: seq<Act>, nodes: seq<Nodes>)
    requires (forall a <- acts :: Possible(a)) && |nodes| == |acts|
    ensures var p := AfterAll(Pair(Opened(key, StoredMeta(rows)), rows), acts, nodes); GoesBy(p.session, p.rows)
  {
    hide Prepared, AfterCall, AfterItems, ResolvedOf, ScannedOf, AfterPull, StoreAfter, PullOf, StoredMeta;
    if acts != [] {
      var n := |acts| - 1;
      RunGoesBy(key, rows, acts[..n], nodes[..n]);
      var p, a := AfterAll(Pair(Opened(key, StoredMeta(rows)), rows), acts[..n], nodes[..n]), acts[n];
      assert a in acts && Possible(a);
      match a {
        case Pull(fetch, geometry, interval, now) =>
          SessionGoesByStore(p.session, p.rows, fetch, geometry, interval, now, key);
        case Calls(hash, name, args, answer) => CallKeepsMeta(p.rows, hash, name, args, answer);
        case Asks(req, ids, net, calls) =>
          ItemsKeepMeta(p.rows, ImageVersion(p.rows), req,
                        ResolvedOf(ScannedOf(nodes[n], p.rows, req, ids), net, calls, req, ids).fetched);
        case Polls(_) =>
      }
    }
  }
}
