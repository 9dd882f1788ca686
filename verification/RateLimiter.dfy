/**
  The per-key sliding-window rate limiter (internal/apikey/apikey.go). Times are nanoseconds.
 */
module RateLimiting {

  const RATE_LIMIT: nat := 100
  const MINUTE: int := 60_000_000_000

  /** The accepted times still within the minute that ends at `now`. */
  function Recent(ts: seq<int>, now: int): seq<int> {
    if ts == [] then []
    else
      var rest := Recent(ts[..|ts| - 1], now);
      if ts[|ts| - 1] > now - MINUTE then rest + [ts[|ts| - 1]] else rest
  }

  function WindowOf(windows: map<int, seq<int>>, key: int): seq<int> {
    if key in windows then windows[key] else []
  }

  predicate Allowed(windows: map<int, seq<int>>, key: int, now: int) {
    |Recent(WindowOf(windows, key), now)| < RATE_LIMIT
  }

  function After(windows: map<int, seq<int>>, key: int, now: int): map<int, seq<int>> {
    var kept := Recent(WindowOf(windows, key), now);
    windows[key := if Allowed(windows, key, now) then kept + [now] else kept]
  }

  class RateLimiter {
    var windows: map<int, seq<int>>

    constructor ()
      ensures windows == map[]
    {
      windows := map[];
    }

    /** Compacts the key's times in place, then accepts if fewer than the limit remain. */
    method Allow(keyID: int, now: int) returns (ok: bool)
      modifies this
      ensures ok == Allowed(old(windows), keyID, now)
      ensures windows == After(old(windows), keyID, now)
    {
      var cutoff := now - MINUTE;
      var ts := if keyID in windows then windows[keyID] else [];
      ghost var was := ts;
      var j := 0;
      for i := 0 to |ts|
        invariant j <= i && |ts| == |was|
        invariant ts[..j] == Recent(was[..i], now)
        invariant ts[i..] == was[i..]
      {
        assert was[..i + 1][..i] == was[..i];
        assert ts[i] == ts[i..][0] == was[i];
        if ts[i] > cutoff {
          ghost var t := ts[i];
          ts := ts[j := ts[i]];
          assert ts[..j + 1] == ts[..j] + [t];
          j := j + 1;
        }
        assert ts[i + 1..] == was[i..][1..];
      }
      assert was[..|was|] == was;
      ts := ts[..j];
      if |ts| >= RATE_LIMIT {
        windows := windows[keyID := ts];
        return false;
      }
      windows := windows[keyID := ts + [now]];
      ok := true;
    }
  }

  // ----- runs -----

  datatype Call = Call(key: int, at: int)

  ghost predicate Monotone(calls: seq<Call>) {
    forall i, j :: 0 <= i < j < |calls| ==> calls[i].at <= calls[j].at
  }

  /** The limiter's state after the calls. */
  function StateAfter(calls: seq<Call>): map<int, seq<int>> {
    if calls == [] then map[]
    else After(StateAfter(calls[..|calls| - 1]), calls[|calls| - 1].key, calls[|calls| - 1].at)
  }

  predicate Accepted(calls: seq<Call>, n: nat)
    requires n < |calls|
  {
    Allowed(StateAfter(calls[..n]), calls[n].key, calls[n].at)
  }

  /** The times of the accepted calls of one key, in order. */
  function AcceptedTimes(calls: seq<Call>, key: int): seq<int> {
    if calls == [] then []
    else
      var n := |calls| - 1;
      var rest := AcceptedTimes(calls[..n], key);
      if calls[n].key == key && Accepted(calls, n) then rest + [calls[n].at] else rest
  }

  /** How many of the times lie in the half-open minute after `from`, in nanoseconds. */
  function CountIn(ts: seq<int>, from: int): nat {
    if ts == [] then 0
    else CountIn(ts[..|ts| - 1], from) + (if from < ts[|ts| - 1] <= from + 60_000_000_000 then 1 else 0)
  }

  lemma {:induction false} RecentOfRecent(ts: seq<int>, a: int, b: int)
    requires a <= b
    ensures Recent(Recent(ts, a), b) == Recent(ts, b)
  {
    if ts != [] {
      var n := |ts| - 1;
      RecentOfRecent(ts[..n], a, b);
      var kept := Recent(ts[..n], a);
      assert (kept + [ts[n]])[..|kept|] == kept;
    }
  }

  lemma RecentSnoc(ts: seq<int>, t: int, now: int)
    ensures Recent(ts + [t], now) == if t > now - MINUTE then Recent(ts, now) + [t] else Recent(ts, now)
  {
    assert (ts + [t])[..|ts|] == ts;
  }

  /** One call, seen from a later instant: what is kept changes only by the call's own time. */
  lemma StepRecent(w: map<int, seq<int>>, c: Call, key: int, now: int)
    requires c.at <= now
    ensures var kept := Recent(WindowOf(w, key), now);
      Recent(WindowOf(After(w, c.key, c.at), key), now)
      == if c.key == key && Allowed(w, key, c.at) && c.at > now - MINUTE then kept + [c.at] else kept
  {
    if c.key == key {
      var kept := Recent(WindowOf(w, key), c.at);
      RecentOfRecent(WindowOf(w, key), c.at, now);
      RecentSnoc(kept, c.at, now);
    }
  }

  /** What the limiter keeps for a key is, for every later instant, as good as all its accepted times. */
  lemma {:induction false} KeepsWhatMatters(calls: seq<Call>, key: int, now: int)
    requires Monotone(calls) && forall i :: 0 <= i < |calls| ==> calls[i].at <= now
    ensures Recent(WindowOf(StateAfter(calls), key), now) == Recent(AcceptedTimes(calls, key), now)
  {
    if calls != [] {
      var n := |calls| - 1;
      KeepsWhatMatters(calls[..n], key, now);
      StepRecent(StateAfter(calls[..n]), calls[n], key, now);
      RecentSnoc(AcceptedTimes(calls[..n], key), calls[n].at, now);
    }
  }

  lemma RefusedWhenFull(calls: seq<Call>, n: nat)
    requires Monotone(calls) && n < |calls|
    ensures Accepted(calls, n)
       <==> |Recent(AcceptedTimes(calls[..n], calls[n].key), calls[n].at)| < RATE_LIMIT
  {
    KeepsWhatMatters(calls[..n], calls[n].key, calls[n].at);
  }

  lemma {:induction false} RecentAreCounted(ts: seq<int>, now: int)
    requires forall i :: 0 <= i < |ts| ==> ts[i] <= now
    ensures |Recent(ts, now)| == CountIn(ts, now - 60_000_000_000)
  {
    if ts != [] {
      RecentAreCounted(ts[..|ts| - 1], now);
    }
  }

  /** A call is refused exactly when a hundred calls of its key were accepted in the minute that ends with it. */
  lemma RefusedExactlyWhenFull(calls: seq<Call>, n: nat)
    requires Monotone(calls) && n < |calls|
    ensures !Accepted(calls, n)
       <==> CountIn(AcceptedTimes(calls[..n], calls[n].key), calls[n].at - 60_000_000_000) >= 100
  {
    RefusedWhenFull(calls, n);
    AcceptedBy(calls[..n], calls[n].key, calls[n].at);
    RecentAreCounted(AcceptedTimes(calls[..n], calls[n].key), calls[n].at);
  }

  lemma {:induction false} CountIsRecent(ts: seq<int>, from: int, now: int)
    requires forall i :: 0 <= i < |ts| ==> ts[i] <= now
    requires from < now <= from + MINUTE
    ensures CountIn(ts, from) <= |Recent(ts, now)|
  {
    if ts != [] {
      CountIsRecent(ts[..|ts| - 1], from, now);
    }
  }

  lemma {:induction false} AcceptedBy(calls: seq<Call>, key: int, now: int)
    requires forall i :: 0 <= i < |calls| ==> calls[i].at <= now
    ensures forall i :: 0 <= i < |AcceptedTimes(calls, key)| ==> AcceptedTimes(calls, key)[i] <= now
  {
    if calls != [] {
      AcceptedBy(calls[..|calls| - 1], key, now);
    }
  }

  /**
    For every key, every run with a clock that does not run back, and every half-open minute, at most
    100 calls are accepted.
   */
  lemma {:induction false} AtMostLimitPerMinute(calls: seq<Call>, key: int, from: int)
    requires Monotone(calls)
    ensures CountIn(AcceptedTimes(calls, key), from) <= 100
  {
    if calls != [] {
      var n := |calls| - 1;
      var c := calls[n];
      var before := AcceptedTimes(calls[..n], key);
      AtMostLimitPerMinute(calls[..n], key, from);
      assert (before + [c.at])[..|before|] == before;
      if c.key == key && Accepted(calls, n) && from < c.at <= from + MINUTE {
        AcceptedBy(calls[..n], key, c.at);
        CountIsRecent(before, from, c.at);
        RefusedWhenFull(calls, n);
      }
    }
  }
}
