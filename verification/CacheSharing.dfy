/** That the cache saves work: a stored result is found again, under either key, and a call whose flight
    is under way joins it (app/ai-service/services/cache.py). */
module CacheSharing {
  import opened Basics
  import opened CacheKeys
  import opened SingleFlight
  import opened SingleFlightSafety

  /** A usable entry: present, not a stored null, and the read is served. */
  predicate Hit(s: State, codec: Codec, key: string, served: bool) {
    served && key in s.store && s.store[key] != codec.nullValue
  }

  predicate HitsContent(s: State, codec: Codec, c: Call, redis: Redis) {
    c.content.Some? && Hit(s, codec, c.content.value, redis.get2)
  }

  /** An arriving call is answered exactly when one of its keys hits, the identity key first; a hit of
      the content key alone is remembered under the identity key. Nothing else moves. */
  lemma ArrivalExactly(s: State, codec: Codec, c: Call, redis: Redis)
    ensures var s' := Next(s, codec, Arrive(c, redis));
            && s'.callers[..|s.callers|] == s.callers && |s'.callers| == |s.callers| + 1
            && s'.tables == s.tables && s'.log == s.log
            && s'.callers[|s.callers|] == Caller(c,
                 if Hit(s, codec, c.primary, redis.get1) then Returned(s.store[c.primary])
                 else if HitsContent(s, codec, c, redis) then Returned(s.store[c.content.value]) else AtLock)
            && s'.store == if !Hit(s, codec, c.primary, redis.get1) && HitsContent(s, codec, c, redis) && redis.set1
                           then s.store[c.primary := codec.norm(s.store[c.content.value])] else s.store
  {
  }

  /** The call whose step produces a result that is to be stored. */
  predicate Stores(s: State, step: Step) {
    Enabled(s, step) && (step.Publish? || (step.FuncReturns? && s.callers[step.who].pc.Fallback?))
  }

  function ResultOf(s: State, step: Step): Value
    requires Stores(s, step)
  {
    if step.Publish? then s.callers[step.who].pc.result else step.result
  }

  predicate Written(c: Call, redis: Redis, k: string) {
    (redis.set1 && k == c.primary) || (redis.set2 && c.content == Some(k))
  }

  /** A result is stored under both keys of its call, as far as the writes are served, and the caller
      returns it; no other entry changes. */
  lemma ResultStored(s: State, codec: Codec, step: Step, k: string)
    requires Stores(s, step)
    ensures var s', c := Next(s, codec, step), s.callers[step.who].call;
            && s'.callers[step.who] == Caller(c, Returned(ResultOf(s, step)))
            && (k in s'.store <==> k in s.store || Written(c, step.redis, k))
            && (k in s'.store ==>
                  s'.store[k] == if Written(c, step.redis, k) then codec.norm(ResultOf(s, step)) else s.store[k])
  {
  }

  /** A caller that takes the result of another's flight, and has a content key, has it stored under
      its own identity key; otherwise nothing is stored. */
  lemma JoinedIsRemembered(s: State, codec: Codec, step: Step)
    requires Enabled(s, step) && (step.Enter? || step.Resume?)
    ensures var s', c := Next(s, codec, step), s.callers[step.who].call;
            var pc := s'.callers[step.who].pc;
            && s'.callers[step.who].call == c
            && s'.store == if pc.Returned? && c.content.Some? && step.redis.set1
                           then s.store[c.primary := codec.norm(pc.value)] else s.store
  {
  }

  /** No entry of the key is lost or deleted by some part of a run. */
  ghost predicate NotLost(steps: seq<Step>, k: string, n: nat, m: nat) {
    forall i :: n <= i < m && i < |steps| && steps[i].Lose? ==> k !in steps[i].keys
  }

  lemma StepKeepsEntry(s: State, codec: Codec, step: Step, k: string)
    requires Enabled(s, step) && k in s.store && (step.Lose? ==> k !in step.keys)
    ensures k in Next(s, codec, step).store
  {
  }

  lemma {:induction false} EntryStays(trace: seq<State>, steps: seq<Step>, codec: Codec, argsOf: string -> Args, k: string, n: nat, m: nat)
    requires IsRun(trace, steps, codec, argsOf) && n <= m < |trace| && k in trace[n].store && NotLost(steps, k, n, m)
    ensures k in trace[m].store
    decreases m
  {
    if n == m {
    } else {
      EntryStays(trace, steps, codec, argsOf, k, n, m - 1);
      StepKeepsEntry(trace[m - 1], codec, steps[m - 1], k);
    }
  }

  /** Work is shared through the content key: once a result was stored under it, every later call with
      that content key is answered at once, whatever its identity key, as long as the entry is not lost
      and is not a null; the function does not run for it. */
  lemma StoredResultIsShared(trace: seq<State>, steps: seq<Step>, codec: Codec, argsOf: string -> Args, n: nat, m: nat, k: string)
    requires IsRun(trace, steps, codec, argsOf) && n < m < |steps|
    requires Stores(trace[n], steps[n]) && steps[n].redis.set2 && trace[n].callers[steps[n].who].call.content == Some(k)
    requires steps[m].Arrive? && steps[m].call.content == Some(k) && steps[m].redis.get2
    requires NotLost(steps, k, n + 1, m) && (k in trace[m].store ==> trace[m].store[k] != codec.nullValue)
    ensures var s, s' := trace[m], trace[m + 1];
            && s'.callers[|s.callers|].pc.Returned? && s'.tables == s.tables && s'.log == s.log
            && (!Hit(s, codec, steps[m].call.primary, steps[m].redis.get1) ==>
                  k in s.store && s'.callers[|s.callers|].pc == Returned(s.store[k]))
  {
    ResultStored(trace[n], codec, steps[n], k);
    EntryStays(trace, steps, codec, argsOf, k, n + 1, m);
    ArrivalExactly(trace[m], codec, steps[m].call, steps[m].redis);
  }

  /** Two calls are of one flight if they have one content key, or have none and one identity key. */
  predicate OneFlight(c: Call, d: Call) {
    (c.content.Some? && c.content == d.content) || (c.content.None? && d.content.None? && c.primary == d.primary)
  }

  /** A call that gets the lock while another of its flight is computing or storing waits for that one,
      and begins nothing. */
  lemma SameFlightJoins(trace: seq<State>, steps: seq<Step>, codec: Codec, argsOf: string -> Args, n: nat, i: nat)
    requires IsRun(trace, steps, codec, argsOf) && n < |steps| && steps[n].Enter?
    requires i < |trace[n].callers| && trace[n].callers[i].pc.Owns()
    requires OneFlight(trace[n].callers[i].call, trace[n].callers[steps[n].who].call)
    ensures trace[n + 1].callers[steps[n].who].pc == Waiting(trace[n].callers[i].pc.ev)
    ensures trace[n + 1].log == trace[n].log && trace[n + 1].tables == trace[n].tables
  {
    RunKeeps(trace, steps, codec, argsOf, n);
    assert OwnsCurrent(trace[n].tables, trace[n].callers[i]);
  }

  /** At the endpoint: two requests with the same evidence share one verification even if they name
      other artifacts. */
  lemma SameEvidenceShares(trace: seq<State>, steps: seq<Step>, codec: Codec, digest: Digest, argsOf: string -> Args, n: nat, m: nat,
                           r: Request, q: Request)
    requires Ideal(digest) && r.contentHash != "" && q.contentHash == r.contentHash
    requires q.service == r.service && Given(q) == Given(r)
    requires IsRun(trace, steps, codec, argsOf) && n < m < |steps|
    requires Stores(trace[n], steps[n]) && steps[n].redis.set2 && trace[n].callers[steps[n].who].call == KeysOf(digest, r)
    requires steps[m].Arrive? && steps[m].call == KeysOf(digest, q) && steps[m].redis.get2
    requires var k := KeysOf(digest, r).content;
             k.Some? ==> NotLost(steps, k.value, n + 1, m) && (k.value in trace[m].store ==> trace[m].store[k.value] != codec.nullValue)
    ensures trace[m + 1].callers[|trace[m].callers|].pc.Returned? && trace[m + 1].log == trace[m].log
  {
    ContentKeysExactly(digest, r, q);
    StoredResultIsShared(trace, steps, codec, argsOf, n, m, KeysOf(digest, r).content.value);
  }
}
