/** The in-memory sliding-window limiter (app/ai-service/services/rate_limiter.py).
    `CheckKey` is what one call does to the deque of its key; `RateLimiterService` keeps the
    deques of all keys and is proved against it. The theorems speak about the full list of
    admissions of a key, most of which the service has already forgotten. */
module RateLimiter {
  import opened Timestamps

  datatype Verdict =
    | Admitted(remaining: int, resetSeconds: int)
    | Refused(retryAfter: int)
    | IndexError

  function Ceil(x: real): int {
    -((-x).Floor)
  }

  function Max(a: int, b: int): int {
    if a < b then b else a
  }

  /** Timestamps at or before the window start are popped from the left. */
  function Prune(records: seq<real>, windowStart: real): seq<real> {
    if records == [] || records[0] > windowStart then records
    else Prune(records[1..], windowStart)
  }

  function SecondsUntilFree(earliest: real, window: int, now: real): int {
    Max(1, Ceil(earliest + window as real - now))
  }

  /** A limit of zero or less reads the first element of an empty deque. */
  function CheckKey(records: seq<real>, limit: int, window: int, now: real): (seq<real>, Verdict) {
    var live := Prune(records, now - window as real);
    if |live| >= limit then
      (live, if live == [] then IndexError else Refused(SecondsUntilFree(live[0], window, now)))
    else
      var after := live + [now];
      (after, Admitted(Max(0, limit - |live| - 1), SecondsUntilFree(after[0], window, now)))
  }

  function RecordsOf(records: map<string, seq<real>>, key: string): seq<real> {
    if key in records then records[key] else []
  }

  class RateLimiterService {
    var records: map<string, seq<real>>

    constructor ()
      ensures records == map[]
    {
      records := map[];
    }

    method Check(key: string, limit: int, window: int, now: real) returns (verdict: Verdict)
      modifies this
      ensures var (after, v) := CheckKey(RecordsOf(old(records), key), limit, window, now);
              records == old(records)[key := after] && verdict == v
    {
      var deque := RecordsOf(records, key);
      var windowStart := now - window as real;
      while deque != [] && deque[0] <= windowStart
        invariant Prune(deque, windowStart) == Prune(RecordsOf(old(records), key), windowStart)
        decreases |deque|
      {
        deque := deque[1..];
      }
      if |deque| >= limit {
        records := records[key := deque];
        if deque == [] {
          return IndexError;
        }
        return Refused(SecondsUntilFree(deque[0], window, now));
      }
      var remaining := Max(0, limit - |deque| - 1);
      deque := deque + [now];
      records := records[key := deque];
      return Admitted(remaining, SecondsUntilFree(deque[0], window, now));
    }
  }

  // ----- Runs ---------------------------------------------------------------------------

  datatype Request = Request(key: string, now: real)

  /** The deques together with every admission ever made, oldest first. */
  datatype History = History(records: map<string, seq<real>>, admitted: map<string, seq<real>>)

  function VerdictOf(h: History, limit: int, window: int, r: Request): Verdict {
    CheckKey(RecordsOf(h.records, r.key), limit, window, r.now).1
  }

  function Serve(h: History, limit: int, window: int, r: Request): History {
    var (after, verdict) := CheckKey(RecordsOf(h.records, r.key), limit, window, r.now);
    History(h.records[r.key := after],
            if verdict.Admitted? then h.admitted[r.key := RecordsOf(h.admitted, r.key) + [r.now]]
            else h.admitted)
  }

  function Run(limit: int, window: int, reqs: seq<Request>): History {
    if reqs == [] then History(map[], map[])
    else Serve(Run(limit, window, reqs[..|reqs| - 1]), limit, window, reqs[|reqs| - 1])
  }

  ghost predicate MonotoneClock(reqs: seq<Request>) {
    forall i, j :: 0 <= i < j < |reqs| ==> reqs[i].now <= reqs[j].now
  }

  lemma ClockBefore(reqs: seq<Request>, r: Request)
    requires MonotoneClock(reqs + [r])
    ensures MonotoneClock(reqs)
    ensures forall i :: 0 <= i < |reqs| ==> reqs[i].now <= r.now
  {
    var all := reqs + [r];
    assert all[|reqs|] == r;
    assert forall i :: 0 <= i < |reqs| ==> all[i] == reqs[i];
  }

  // ----- The invariant ------------------------------------------------------------------

  /** Admissions that are `limit` or more places apart are at least a whole window apart. */
  ghost predicate Spaced(s: seq<real>, limit: int, window: int) {
    forall i, j :: 0 <= i < j < |s| && j - i >= limit ==> s[i] + window as real <= s[j]
  }

  /** The deque is the tail of the admissions, and everything cut off has left the window. */
  ghost predicate Tracks(live: seq<real>, all: seq<real>, limit: int, window: int, now: real) {
    && Sorted(all)
    && Spaced(all, limit, window)
    && (forall i :: 0 <= i < |all| ==> all[i] <= now)
    && |live| <= limit
    && |live| <= |all|
    && live == all[|all| - |live|..]
    && (forall i :: 0 <= i < |all| - |live| ==> all[i] <= now - window as real)
  }

  lemma {:induction false} PruneCuts(s: seq<real>, cutoff: real)
    requires Sorted(s)
    ensures var r := Prune(s, cutoff);
            && |r| <= |s|
            && r == s[|s| - |r|..]
            && (forall i :: 0 <= i < |s| - |r| ==> s[i] <= cutoff)
            && (forall i :: |s| - |r| <= i < |s| ==> s[i] > cutoff)
  {
    if s != [] && s[0] <= cutoff {
      PruneCuts(s[1..], cutoff);
    }
  }

  lemma CheckTracks(live: seq<real>, all: seq<real>, limit: int, window: int, before: real, now: real)
    requires limit >= 1 && window >= 1 && before <= now
    requires Tracks(live, all, limit, window, before)
    ensures var (after, v) := CheckKey(live, limit, window, now);
            Tracks(after, if v.Admitted? then all + [now] else all, limit, window, now)
  {
    var kept := Prune(live, now - window as real);
    PruneCuts(live, now - window as real);
    assert kept == all[|all| - |kept|..];
    assert Tracks(kept, all, limit, window, now) by {
      forall i | 0 <= i < |all| - |kept| ensures all[i] <= now - window as real {
        if i >= |all| - |live| {
          assert all[i] == live[i - (|all| - |live|)];
        }
      }
    }
    if |kept| < limit {
      AdmitTracks(kept, all, limit, window, now);
    }
  }

  lemma AdmitTracks(kept: seq<real>, all: seq<real>, limit: int, window: int, now: real)
    requires limit >= 1 && window >= 1 && |kept| < limit
    requires Tracks(kept, all, limit, window, now)
    ensures Tracks(kept + [now], all + [now], limit, window, now)
  {
    var all' := all + [now];
    assert Spaced(all', limit, window) by {
      forall i, j | 0 <= i < j < |all'| && j - i >= limit ensures all'[i] + window as real <= all'[j] {
        if j < |all| {
          assert all'[j] == all[j];
        } else {
          assert all[i] <= now - window as real;
        }
      }
    }
    assert kept + [now] == all'[|all'| - |kept + [now]|..];
  }

  ghost predicate AllTracked(h: History, limit: int, window: int, now: real) {
    forall k :: Tracks(RecordsOf(h.records, k), RecordsOf(h.admitted, k), limit, window, now)
  }

  lemma TracksLater(live: seq<real>, all: seq<real>, limit: int, window: int, before: real, now: real)
    requires before <= now && Tracks(live, all, limit, window, before)
    ensures Tracks(live, all, limit, window, now)
  {
  }

  lemma ServeTracksKey(h: History, limit: int, window: int, before: real, r: Request, k: string)
    requires limit >= 1 && window >= 1 && before <= r.now
    requires Tracks(RecordsOf(h.records, k), RecordsOf(h.admitted, k), limit, window, before)
    ensures var h' := Serve(h, limit, window, r);
            Tracks(RecordsOf(h'.records, k), RecordsOf(h'.admitted, k), limit, window, r.now)
  {
    var live, all := RecordsOf(h.records, k), RecordsOf(h.admitted, k);
    var h' := Serve(h, limit, window, r);
    if k == r.key {
      CheckTracks(live, all, limit, window, before, r.now);
      var (after, v) := CheckKey(live, limit, window, r.now);
      assert RecordsOf(h'.records, k) == after;
      assert RecordsOf(h'.admitted, k) == if v.Admitted? then all + [r.now] else all;
    } else {
      TracksLater(live, all, limit, window, before, r.now);
      assert RecordsOf(h'.records, k) == live && RecordsOf(h'.admitted, k) == all;
    }
  }

  lemma ServeTracks(h: History, limit: int, window: int, before: real, r: Request)
    requires limit >= 1 && window >= 1 && before <= r.now
    requires AllTracked(h, limit, window, before)
    ensures AllTracked(Serve(h, limit, window, r), limit, window, r.now)
  {
    forall k {
      ServeTracksKey(h, limit, window, before, r, k);
    }
  }

  lemma {:induction false} RunTracks(limit: int, window: int, reqs: seq<Request>, now: real)
    requires limit >= 1 && window >= 1 && MonotoneClock(reqs)
    requires forall i :: 0 <= i < |reqs| ==> reqs[i].now <= now
    ensures AllTracked(Run(limit, window, reqs), limit, window, now)
  {
    if reqs == [] {
    } else {
      var prefix, r := reqs[..|reqs| - 1], reqs[|reqs| - 1];
      RunTracks(limit, window, prefix, r.now);
      ServeTracks(Run(limit, window, prefix), limit, window, r.now, r);
      var h := Run(limit, window, reqs);
      forall k ensures Tracks(RecordsOf(h.records, k), RecordsOf(h.admitted, k), limit, window, now) {
        TracksLater(RecordsOf(h.records, k), RecordsOf(h.admitted, k), limit, window, r.now, now);
      }
    }
  }

  // ----- Safety -------------------------------------------------------------------------

  /** Spaced admissions put at most `limit` into any set of instants less than a window apart. */
  lemma SpacedBound(s: seq<real>, limit: int, window: int, p: real -> bool)
    requires limit >= 1 && window >= 1 && Sorted(s) && Spaced(s, limit, window)
    requires forall x: real, y: real :: p(x) && p(y) && x <= y ==> y < x + window as real
    ensures Count(s, p) <= limit
  {
    var m := LastWithin(s, p);
    var a := if m + 1 >= limit then m + 1 - limit else 0;
    forall i | 0 <= i < a ensures !p(s[i]) {
      assert s[i] + window as real <= s[m];
    }
    CountOutside(s, p, a, m + 1);
  }

  /** At most `limit` admissions of a key fall in any half-open window, whichever end is open. */
  lemma WindowSafety(limit: int, window: int, reqs: seq<Request>, key: string, t: real)
    requires limit >= 1 && window >= 1 && MonotoneClock(reqs)
    ensures var admitted := RecordsOf(Run(limit, window, reqs).admitted, key);
            && Count(admitted, (x: real) => t < x <= t + window as real) <= limit
            && Count(admitted, (x: real) => t <= x < t + window as real) <= limit
  {
    var admitted := RecordsOf(Run(limit, window, reqs).admitted, key);
    var now := if reqs == [] then t else reqs[|reqs| - 1].now;
    RunTracks(limit, window, reqs, now);
    assert Tracks(RecordsOf(Run(limit, window, reqs).records, key), admitted, limit, window, now);
    SpacedBound(admitted, limit, window, (x: real) => t < x <= t + window as real);
    SpacedBound(admitted, limit, window, (x: real) => t <= x < t + window as real);
  }

  // ----- Exactness ----------------------------------------------------------------------

  lemma PruneCount(live: seq<real>, all: seq<real>, limit: int, window: int, now: real)
    requires Tracks(live, all, limit, window, now)
    ensures Count(all, (x: real) => now - window as real < x <= now) == |Prune(live, now - window as real)|
  {
    PruneCuts(live, now - window as real);
    var p := (x: real) => now - window as real < x <= now;
    var kept := |Prune(live, now - window as real)|;
    forall i | 0 <= i < |all| ensures p(all[i]) <==> |all| - kept <= i {
      if i >= |all| - |live| {
        assert all[i] == live[i - (|all| - |live|)];
      }
    }
    CountTail(all, p, |all| - kept);
  }

  /** Although old timestamps are discarded, a request is refused exactly when `limit` of all the
      admissions ever made lie in the window that ends now; otherwise it is admitted. */
  lemma RefusedExactly(limit: int, window: int, reqs: seq<Request>, r: Request)
    requires limit >= 1 && window >= 1 && MonotoneClock(reqs + [r])
    ensures var h := Run(limit, window, reqs);
            var inWindow := Count(RecordsOf(h.admitted, r.key), (x: real) => r.now - window as real < x <= r.now);
            && (VerdictOf(h, limit, window, r).Refused? <==> inWindow >= limit)
            && (VerdictOf(h, limit, window, r).Admitted? <==> inWindow < limit)
  {
    var h := Run(limit, window, reqs);
    ClockBefore(reqs, r);
    RunTracks(limit, window, reqs, r.now);
    assert Tracks(RecordsOf(h.records, r.key), RecordsOf(h.admitted, r.key), limit, window, r.now);
    PruneCount(RecordsOf(h.records, r.key), RecordsOf(h.admitted, r.key), limit, window, r.now);
  }

  /** The guard of the crash: with no positive limit no request of a run is ever answered. */
  lemma {:induction false} NonPositiveLimitAlwaysFails(limit: int, window: int, reqs: seq<Request>, r: Request)
    requires limit <= 0
    ensures forall k :: RecordsOf(Run(limit, window, reqs).records, k) == []
    ensures VerdictOf(Run(limit, window, reqs), limit, window, r) == IndexError
  {
    if reqs == [] {
    } else {
      var prefix, last := reqs[..|reqs| - 1], reqs[|reqs| - 1];
      NonPositiveLimitAlwaysFails(limit, window, prefix, last);
      forall k ensures RecordsOf(Run(limit, window, reqs).records, k) == [] {
        assert RecordsOf(Run(limit, window, prefix).records, k) == [];
      }
    }
  }

  // ----- What an admission is told ----------------------------------------------------------

  /** In the window that ends now: the admissions of the full list are those still in the deque. */
  lemma WindowIsDeque(live: seq<real>, all: seq<real>, limit: int, window: int, now: real, x: real)
    requires Tracks(live, all, limit, window, now)
    ensures x in all && x > now - window as real <==> x in Prune(live, now - window as real)
  {
    PruneCuts(live, now - window as real);
    var kept := Prune(live, now - window as real);
    assert kept == all[|all| - |kept|..];
    if x in all && x > now - window as real {
      var i :| 0 <= i < |all| && all[i] == x;
      assert i >= |all| - |live|;
      assert all[i] == live[i - (|all| - |live|)];
      assert x == kept[i - (|all| - |kept|)];
    }
  }

  /** Some timestamp lies after `from`, and not after `to`. */
  ghost predicate SomeWithin(s: seq<real>, from: real, to: real) {
    exists x :: x in s && from < x <= to
  }

  lemma FirstLeaves(after: seq<real>, window: int, now: real, seconds: nat)
    requires window >= 1 && after != [] && Sorted(after) && now - window as real < after[0] <= now
    ensures 1 <= SecondsUntilFree(after[0], window, now) <= window
    ensures SomeWithin(after, now - window as real, now + seconds as real - window as real) <==>
            seconds >= SecondsUntilFree(after[0], window, now)
  {
    var wait := after[0] + window as real - now;
    CeilIsLeast(wait, window);
    CeilIsLeast(wait, 0);
    CeilIsLeast(wait, seconds);
    FirstWithinIsLeast(after, now - window as real, now + seconds as real - window as real);
    assert after[0] <= now + seconds as real - window as real <==> wait <= seconds as real;
  }

  lemma FirstWithinIsLeast(s: seq<real>, from: real, to: real)
    requires s != [] && Sorted(s) && from < s[0]
    ensures SomeWithin(s, from, to) <==> s[0] <= to
  {
    assert s[0] in s;
    if x :| x in s && from < x <= to {
      var i :| 0 <= i < |s| && s[i] == x;
      assert s[0] <= s[i];
    }
  }

  lemma WindowSame(live: seq<real>, all: seq<real>, limit: int, window: int, now: real, to: real)
    requires Tracks(live, all, limit, window, now)
    ensures var from := now - window as real;
            SomeWithin(Prune(live, from) + [now], from, to) <==> SomeWithin(all + [now], from, to)
  {
    var from := now - window as real;
    if x :| x in all + [now] && from < x <= to {
      WindowIsDeque(live, all, limit, window, now, x);
      assert x in Prune(live, from) + [now];
    }
    if x :| x in Prune(live, from) + [now] && from < x <= to {
      WindowIsDeque(live, all, limit, window, now, x);
      assert x in all + [now];
    }
  }

  lemma DequeTold(live: seq<real>, all: seq<real>, limit: int, window: int, now: real, seconds: nat)
    requires limit >= 1 && window >= 1 && Tracks(live, all, limit, window, now)
    requires CheckKey(live, limit, window, now).1.Admitted?
    ensures var verdict := CheckKey(live, limit, window, now).1;
            && verdict.remaining == limit - (|Prune(live, now - window as real)| + 1)
            && 1 <= verdict.resetSeconds <= window
            && (seconds >= verdict.resetSeconds <==>
                  SomeWithin(all + [now], now - window as real, now + seconds as real - window as real))
  {
    var kept := Prune(live, now - window as real);
    PruneCuts(live, now - window as real);
    var after := kept + [now];
    assert Sorted(after) by {
      forall i, j | 0 <= i < j < |after| ensures after[i] <= after[j] {
        assert after[i] == live[|live| - |kept| + i];
        if j < |kept| {
          assert after[j] == live[|live| - |kept| + j];
        }
      }
    }
    FirstLeaves(after, window, now, seconds);
    WindowSame(live, all, limit, window, now, now + seconds as real - window as real);
  }

  /** An admission is told how many more would be admitted at once, `limit` less all admissions of the
      window that ends now, and in how many seconds the first of these leaves the window. */
  lemma AdmissionIsTold(limit: int, window: int, reqs: seq<Request>, r: Request, seconds: nat)
    requires limit >= 1 && window >= 1 && MonotoneClock(reqs + [r])
    requires VerdictOf(Run(limit, window, reqs), limit, window, r).Admitted?
    ensures var h := Run(limit, window, reqs);
            var verdict, earlier := VerdictOf(h, limit, window, r), RecordsOf(h.admitted, r.key);
            && verdict.remaining == limit - (Count(earlier, (x: real) => r.now - window as real < x <= r.now) + 1)
            && 1 <= verdict.resetSeconds <= window
            && (seconds >= verdict.resetSeconds <==>
                  SomeWithin(earlier + [r.now], r.now - window as real, r.now + seconds as real - window as real))
  {
    var h := Run(limit, window, reqs);
    ClockBefore(reqs, r);
    RunTracks(limit, window, reqs, r.now);
    var live, all := RecordsOf(h.records, r.key), RecordsOf(h.admitted, r.key);
    assert Tracks(live, all, limit, window, r.now);
    PruneCount(live, all, limit, window, r.now);
    DequeTold(live, all, limit, window, r.now, seconds);
  }

  // ----- Retry-After --------------------------------------------------------------------

  lemma CeilIsLeast(x: real, k: int)
    ensures Ceil(x) <= k <==> x <= k as real
  {
    assert (-x).Floor as real <= -x < (-x).Floor as real + 1.0;
    if x <= k as real {
      assert ((-x).Floor + 1) as real > (-k) as real;
    }
  }

  /** `retry_after` of a refusal is within [1, window] and is the least whole number of seconds
      after which the same key is admitted: sooner it is refused again, from then on it is not. */
  lemma RetryAfterIsLeast(limit: int, window: int, reqs: seq<Request>, r: Request, seconds: nat)
    requires limit >= 1 && window >= 1 && MonotoneClock(reqs + [r])
    requires VerdictOf(Run(limit, window, reqs), limit, window, r).Refused?
    ensures var h := Run(limit, window, reqs);
            var retryAfter := VerdictOf(h, limit, window, r).retryAfter;
            var again := Request(r.key, r.now + seconds as real);
            && 1 <= retryAfter <= window
            && (VerdictOf(Serve(h, limit, window, r), limit, window, again).Admitted? <==> seconds >= retryAfter)
            && (VerdictOf(Serve(h, limit, window, r), limit, window, again).Refused? <==> seconds < retryAfter)
  {
    var h := Run(limit, window, reqs);
    ClockBefore(reqs, r);
    RunTracks(limit, window, reqs, r.now);
    var records := RecordsOf(h.records, r.key);
    assert Tracks(records, RecordsOf(h.admitted, r.key), limit, window, r.now);
    var live := Prune(records, r.now - window as real);
    PruneCuts(records, r.now - window as real);
    RetryOf(live, limit, window, r.now, seconds);
    assert RecordsOf(Serve(h, limit, window, r).records, r.key) == live;
  }

  /** The same for one full deque whose elements are all inside the window. */
  lemma RetryOf(live: seq<real>, limit: int, window: int, now: real, seconds: nat)
    requires limit >= 1 && window >= 1 && |live| == limit && Sorted(live)
    requires forall i :: 0 <= i < |live| ==> now - window as real < live[i] <= now
    ensures 1 <= SecondsUntilFree(live[0], window, now) <= window
    ensures CheckKey(live, limit, window, now + seconds as real).1.Admitted? <==> seconds >= SecondsUntilFree(live[0], window, now)
    ensures !CheckKey(live, limit, window, now + seconds as real).1.IndexError?
  {
    var wait := live[0] + window as real - now;
    CeilIsLeast(wait, window);
    CeilIsLeast(wait, 0);
    CeilIsLeast(wait, seconds);
    PruneCuts(live, now + seconds as real - window as real);
  }
}
