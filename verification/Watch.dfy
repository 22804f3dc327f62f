/** Polling change detection. Durations are nanoseconds. */
module Watch {
  import opened Basics

  const SECOND: nat := 1_000_000_000
  const BACKOFF_START: nat := 5 * SECOND
  const BACKOFF_CAP: nat := 300 * SECOND

  datatype ApiError = RateLimited(retryAfter: nat) | OtherFailure(msg: string)

  /** One poll's outcome. */
  datatype Tick = Unchanged | Changed | Wait(after: nat)

  function Max(a: nat, b: nat): (m: nat)
    ensures a <= m && b <= m && (m == a || m == b)
  {
    if a < b then b else a
  }

  function Min(a: nat, b: nat): (m: nat)
    ensures m <= a && m <= b && (m == a || m == b)
  {
    if a < b then a else b
  }

  datatype WatcherState = WatcherState(lastSeen: Option<string>, backoff: nat)

  function Watching(seen: Option<string>): WatcherState {
    WatcherState(seen, BACKOFF_START)
  }

  /** The watcher after one poll of the meta endpoint, and what it reports. */
  function Ticked(w: WatcherState, meta: Result<string, ApiError>): (WatcherState, Tick) {
    match meta
    case Ok(touched) =>
      if w.lastSeen == Some(touched) then (w.(backoff := BACKOFF_START), Unchanged)
      else (WatcherState(Some(touched), BACKOFF_START), Changed)
    case Err(RateLimited(retryAfter)) => (w, Wait(retryAfter))
    case Err(OtherFailure(_)) => (w.(backoff := Min(w.backoff * 2, BACKOFF_CAP)), Wait(w.backoff))
  }

  class Watcher {
    var lastSeen: Option<string>
    var backoff: nat

    ghost function State(): WatcherState
      reads this
    {
      WatcherState(lastSeen, backoff)
    }

    constructor (seen: Option<string>)
      ensures State() == Watching(seen)
    {
      lastSeen, backoff := seen, BACKOFF_START;
    }

    method Poll(meta: Result<string, ApiError>) returns (tick: Tick)
      modifies this
      ensures (State(), tick) == Ticked(old(State()), meta)
    {
      match meta
      case Ok(touched) =>
        backoff := BACKOFF_START;
        if lastSeen == Some(touched) {
          return Unchanged;
        }
        lastSeen := Some(touched);
        return Changed;
      case Err(RateLimited(retryAfter)) =>
        return Wait(retryAfter);
      case Err(OtherFailure(_)) =>
        tick := Wait(backoff);
        backoff := Min(backoff * 2, BACKOFF_CAP);
    }
  }

  /** The watcher after `k` failed polls in a row. */
  function AfterFailures(w: WatcherState, failures: seq<string>): WatcherState {
    if failures == [] then w
    else Ticked(AfterFailures(w, failures[..|failures| - 1]), Err(OtherFailure(failures[|failures| - 1]))).0
  }

  function Doubled(k: nat): nat {
    if k == 0 then 1 else 2 * Doubled(k - 1)
  }

  /** After k failed polls in a row the next one waits 5 * 2^k seconds, at most 300, and forgets nothing it saw. */
  lemma {:induction false} PollsBackOff(seen: Option<string>, failures: seq<string>, msg: string)
    ensures AfterFailures(Watching(seen), failures).lastSeen == seen
    ensures Ticked(AfterFailures(Watching(seen), failures), Err(OtherFailure(msg))).1
            == Wait(Min(5_000_000_000 * Doubled(|failures|), 300_000_000_000))
  {
    if failures != [] {
      PollsBackOff(seen, failures[..|failures| - 1], msg);
    }
  }
}
