/** Where a cached answer comes from. No determinism is assumed of the decorated function: every
    value a caller gets was produced by an execution of it for the same arguments. */
module CacheTransparency {
  import opened Basics
  import opened CacheKeys
  import opened SingleFlight

  predicate Ran(o: Outcome, argsOf: string -> Args, args: Args) {
    argsOf(o.call.primary) == args
  }

  /** `v` is what some execution for these arguments returned. */
  ghost predicate Computed(outcomes: set<Outcome>, argsOf: string -> Args, args: Args, v: Value) {
    exists o :: o in outcomes && o.Succeeded? && Ran(o, argsOf, args) && v == o.result
  }

  /** `v` is what some execution for these arguments returned, after a trip through JSON. */
  ghost predicate Stored(outcomes: set<Outcome>, codec: Codec, argsOf: string -> Args, args: Args, v: Value) {
    exists o :: o in outcomes && o.Succeeded? && Ran(o, argsOf, args) && v == codec.norm(o.result)
  }

  /** What a caller may get: a fresh or joined result, or a stored one that is not a stored `null`. */
  ghost predicate Served(outcomes: set<Outcome>, codec: Codec, argsOf: string -> Args, args: Args, v: Value) {
    Computed(outcomes, argsOf, args, v) || (Stored(outcomes, codec, argsOf, args, v) && v != codec.nullValue)
  }

  /** `e` is what some execution for these arguments raised. */
  ghost predicate Blamed(outcomes: set<Outcome>, argsOf: string -> Args, args: Args, e: Error) {
    exists o :: o in outcomes && o.Failed? && Ran(o, argsOf, args) && e == o.error
  }

  ghost predicate StoreSound(store: map<string, Value>, outcomes: set<Outcome>, codec: Codec, argsOf: string -> Args) {
    forall k :: k in store ==> Stored(outcomes, codec, argsOf, argsOf(k), store[k])
  }

  ghost predicate TablesSound(t: Tables, outcomes: set<Outcome>, argsOf: string -> Args) {
    && (forall k :: k in t.results ==> Computed(outcomes, argsOf, argsOf(k), t.results[k]))
    && (forall k :: k in t.errors ==> Blamed(outcomes, argsOf, argsOf(k), t.errors[k]))
  }

  ghost predicate CallerSound(c: Caller, outcomes: set<Outcome>, codec: Codec, argsOf: string -> Args) {
    && WellKeyed(c.call, argsOf)
    && match c.pc {
         case Storing(_, v) => Computed(outcomes, argsOf, argsOf(c.call.primary), v)
         case Returned(v) => Served(outcomes, codec, argsOf, argsOf(c.call.primary), v)
         case Failing(_, e) => Blamed(outcomes, argsOf, argsOf(c.call.primary), e)
         case Raised(e) => Blamed(outcomes, argsOf, argsOf(c.call.primary), e)
         case _ => true
       }
  }

  ghost predicate Sound(s: State, codec: Codec, argsOf: string -> Args) {
    && StoreSound(s.store, s.log.outcomes, codec, argsOf)
    && TablesSound(s.tables, s.log.outcomes, argsOf)
    && forall i :: 0 <= i < |s.callers| ==> CallerSound(s.callers[i], s.log.outcomes, codec, argsOf)
  }

  /** Executions are never forgotten, so what was produced stays produced. */
  lemma SoundLater(s: State, outcomes: set<Outcome>, codec: Codec, argsOf: string -> Args)
    requires Sound(s, codec, argsOf) && s.log.outcomes <= outcomes
    ensures Sound(s.(log := s.log.(outcomes := outcomes)), codec, argsOf)
  {
    var before := s.log.outcomes;
    forall args, v | Computed(before, argsOf, args, v) ensures Computed(outcomes, argsOf, args, v) {
      var o :| o in before && o.Succeeded? && Ran(o, argsOf, args) && v == o.result;
      assert o in outcomes;
    }
    forall args, v | Stored(before, codec, argsOf, args, v) ensures Stored(outcomes, codec, argsOf, args, v) {
      var o :| o in before && o.Succeeded? && Ran(o, argsOf, args) && v == codec.norm(o.result);
      assert o in outcomes;
    }
    forall args, e | Blamed(before, argsOf, args, e) ensures Blamed(outcomes, argsOf, args, e) {
      var o :| o in before && o.Failed? && Ran(o, argsOf, args) && e == o.error;
      assert o in outcomes;
    }
    forall i | 0 <= i < |s.callers| ensures CallerSound(s.callers[i], outcomes, codec, argsOf) {
      assert CallerSound(s.callers[i], s.log.outcomes, codec, argsOf);
    }
  }

  lemma SetSound(store: map<string, Value>, outcomes: set<Outcome>, codec: Codec, argsOf: string -> Args,
                 k: string, v: Value, served: bool)
    requires IdempotentCodec(codec) && StoreSound(store, outcomes, codec, argsOf)
    requires Computed(outcomes, argsOf, argsOf(k), v) || Stored(outcomes, codec, argsOf, argsOf(k), v)
    ensures StoreSound(CacheSet(store, codec, k, v, served), outcomes, codec, argsOf)
  {
    assert Stored(outcomes, codec, argsOf, argsOf(k), codec.norm(v));
  }

  lemma BothSound(store: map<string, Value>, outcomes: set<Outcome>, codec: Codec, argsOf: string -> Args,
                  c: Call, v: Value, redis: Redis)
    requires IdempotentCodec(codec) && StoreSound(store, outcomes, codec, argsOf) && WellKeyed(c, argsOf)
    requires Computed(outcomes, argsOf, argsOf(c.primary), v)
    ensures StoreSound(CacheBoth(store, codec, c, v, redis), outcomes, codec, argsOf)
    ensures StoreSound(Backfill(store, codec, c, v, redis), outcomes, codec, argsOf)
  {
    SetSound(store, outcomes, codec, argsOf, c.primary, v, redis.set1);
    if c.content.Some? {
      SetSound(CacheSet(store, codec, c.primary, v, redis.set1), outcomes, codec, argsOf, c.content.value, v, redis.set2);
    }
  }

  lemma ArriveSound(s: State, codec: Codec, argsOf: string -> Args, c: Call, redis: Redis)
    requires IdempotentCodec(codec) && Sound(s, codec, argsOf) && WellKeyed(c, argsOf)
    ensures Sound(DoArrive(s, codec, c, redis), codec, argsOf)
  {
    var s' := DoArrive(s, codec, c, redis);
    if CacheGet(s.store, codec, c.primary, redis.get1).None? && s'.callers[|s.callers|].pc.Returned? {
      SetSound(s.store, s.log.outcomes, codec, argsOf, c.primary, s.store[c.content.value], redis.set1);
    }
    assert CallerSound(s'.callers[|s.callers|], s.log.outcomes, codec, argsOf);
  }

  /** One caller moves to a sound place, nothing else but the store changes. */
  lemma MoveSound(s: State, s': State, codec: Codec, argsOf: string -> Args, i: nat, pc: Pc)
    requires Sound(s, codec, argsOf) && i < |s.callers|
    requires StoreSound(s'.store, s.log.outcomes, codec, argsOf)
    requires CallerSound(s.callers[i].(pc := pc), s.log.outcomes, codec, argsOf)
    requires s'.callers == Goto(s.callers, i, pc) && s'.log.outcomes == s.log.outcomes
    requires TablesSound(s'.tables, s.log.outcomes, argsOf)
    ensures Sound(s', codec, argsOf)
  {
  }

  lemma EnterSound(s: State, codec: Codec, argsOf: string -> Args, i: nat, redis: Redis)
    requires IdempotentCodec(codec) && Sound(s, codec, argsOf) && Enabled(s, Enter(i, redis))
    ensures Sound(DoEnter(s, codec, i, redis), codec, argsOf)
  {
    var s', c := DoEnter(s, codec, i, redis), s.callers[i].call;
    assert CallerSound(s.callers[i], s.log.outcomes, codec, argsOf);
    assert argsOf(FlightKey(c)) == argsOf(c.primary);
    if s'.callers[i].pc.Returned? {
      BothSound(s.store, s.log.outcomes, codec, argsOf, c, s'.callers[i].pc.value, redis);
    }
    MoveSound(s, s', codec, argsOf, i, s'.callers[i].pc);
  }

  lemma ResumeSound(s: State, codec: Codec, argsOf: string -> Args, i: nat, redis: Redis)
    requires IdempotentCodec(codec) && Sound(s, codec, argsOf) && Enabled(s, Resume(i, redis))
    ensures Sound(DoResume(s, codec, i, redis), codec, argsOf)
  {
    var s', c := DoResume(s, codec, i, redis), s.callers[i].call;
    assert CallerSound(s.callers[i], s.log.outcomes, codec, argsOf);
    assert argsOf(FlightKey(c)) == argsOf(c.primary);
    if s'.callers[i].pc.Returned? {
      BothSound(s.store, s.log.outcomes, codec, argsOf, c, s'.callers[i].pc.value, redis);
    }
    MoveSound(s, s', codec, argsOf, i, s'.callers[i].pc);
  }

  lemma FuncReturnsSound(s: State, codec: Codec, argsOf: string -> Args, i: nat, v: Value, redis: Redis)
    requires IdempotentCodec(codec) && Sound(s, codec, argsOf) && Enabled(s, FuncReturns(i, v, redis))
    ensures Sound(DoFuncReturns(s, codec, i, v, redis), codec, argsOf)
  {
    var c, s' := s.callers[i].call, DoFuncReturns(s, codec, i, v, redis);
    var ran := s'.log.outcomes;
    SoundLater(s, ran, codec, argsOf);
    assert CallerSound(s.callers[i], s.log.outcomes, codec, argsOf);
    assert Computed(ran, argsOf, argsOf(c.primary), v) by {
      assert Ran(Succeeded(c, v), argsOf, argsOf(c.primary)) && Succeeded(c, v) in ran;
    }
    BothSound(s.store, ran, codec, argsOf, c, v, redis);
    var later := s.(log := s.log.(outcomes := ran));
    forall j | 0 <= j < |s'.callers| ensures CallerSound(s'.callers[j], ran, codec, argsOf) {
      assert CallerSound(later.callers[j], ran, codec, argsOf);
    }
  }

  lemma FuncRaisesSound(s: State, codec: Codec, argsOf: string -> Args, i: nat, e: Error)
    requires Sound(s, codec, argsOf) && Enabled(s, FuncRaises(i, e))
    ensures Sound(DoFuncRaises(s, i, e), codec, argsOf)
  {
    var c, s' := s.callers[i].call, DoFuncRaises(s, i, e);
    var ran := s'.log.outcomes;
    SoundLater(s, ran, codec, argsOf);
    assert Ran(Failed(c, e), argsOf, argsOf(c.primary)) && Failed(c, e) in ran;
    var later := s.(log := s.log.(outcomes := ran));
    forall j | 0 <= j < |s'.callers| ensures CallerSound(s'.callers[j], ran, codec, argsOf) {
      assert CallerSound(later.callers[j], ran, codec, argsOf);
    }
  }

  lemma PublishSound(s: State, codec: Codec, argsOf: string -> Args, step: Step)
    requires IdempotentCodec(codec) && Sound(s, codec, argsOf) && Enabled(s, step) && (step.Publish? || step.PublishError?)
    ensures Sound(Next(s, codec, step), codec, argsOf)
  {
    var s', i := Next(s, codec, step), step.who;
    var Caller(c, pc) := s.callers[i];
    assert CallerSound(s.callers[i], s.log.outcomes, codec, argsOf);
    assert argsOf(FlightKey(c)) == argsOf(c.primary);
    if pc.Storing? {
      BothSound(s.store, s.log.outcomes, codec, argsOf, c, pc.result, step.redis);
    }
    MoveSound(s, s', codec, argsOf, i, s'.callers[i].pc);
  }

  lemma StepSound(s: State, codec: Codec, argsOf: string -> Args, step: Step)
    requires IdempotentCodec(codec) && Sound(s, codec, argsOf) && Enabled(s, step)
    requires step.Arrive? ==> WellKeyed(step.call, argsOf)
    ensures Sound(Next(s, codec, step), codec, argsOf)
  {
    match step
    case Arrive(c, redis) => ArriveSound(s, codec, argsOf, c, redis);
    case Enter(i, redis) => EnterSound(s, codec, argsOf, i, redis);
    case FuncReturns(i, v, redis) => FuncReturnsSound(s, codec, argsOf, i, v, redis);
    case FuncRaises(i, e) => FuncRaisesSound(s, codec, argsOf, i, e);
    case Publish(_, _) => PublishSound(s, codec, argsOf, step);
    case PublishError(_) => PublishSound(s, codec, argsOf, step);
    case Resume(i, redis) => ResumeSound(s, codec, argsOf, i, redis);
    case RunCleanup(_) =>
    case Lose(_) =>
  }

  lemma {:induction false} RunSound(trace: seq<State>, steps: seq<Step>, codec: Codec, argsOf: string -> Args, n: nat)
    requires IdempotentCodec(codec) && IsRun(trace, steps, codec, argsOf) && n < |trace|
    ensures Sound(trace[n], codec, argsOf)
  {
    if n > 0 {
      RunSound(trace, steps, codec, argsOf, n - 1);
      StepSound(trace[n - 1], codec, argsOf, steps[n - 1]);
    }
  }

  /** Provenance: whatever mix of hits, backfills, joins, fallbacks, losses and failures led there,
      an answer was produced by an execution for arguments equal to the caller's, and an exception
      was raised by one. */
  lemma AnswersComeFromSameArguments(trace: seq<State>, steps: seq<Step>, codec: Codec, argsOf: string -> Args, n: nat, i: nat)
    requires IdempotentCodec(codec) && IsRun(trace, steps, codec, argsOf) && n < |trace| && i < |trace[n].callers|
    ensures var Caller(c, pc) := trace[n].callers[i];
            && (pc.Returned? ==> Served(trace[n].log.outcomes, codec, argsOf, argsOf(c.primary), pc.value))
            && (pc.Raised? ==> Blamed(trace[n].log.outcomes, argsOf, argsOf(c.primary), pc.error))
  {
    RunSound(trace, steps, codec, argsOf, n);
    assert CallerSound(trace[n].callers[i], trace[n].log.outcomes, codec, argsOf);
  }

  // ----- Transparency -------------------------------------------------------------------

  /** Every execution in the run returned what `func` computes for its arguments. */
  ghost predicate Deterministic(trace: seq<State>, steps: seq<Step>, argsOf: string -> Args, func: Args -> Value) {
    forall m :: 0 <= m < |steps| && m < |trace| && steps[m].FuncReturns? && steps[m].who < |trace[m].callers| ==>
      steps[m].result == func(argsOf(trace[m].callers[steps[m].who].call.primary))
  }

  /** In every run of a deterministic function every call that returns gets the function's value. */
  ghost predicate AlwaysTransparent(codec: Codec, argsOf: string -> Args, func: Args -> Value) {
    forall trace: seq<State>, steps: seq<Step> ::
      IsRun(trace, steps, codec, argsOf) && Deterministic(trace, steps, argsOf, func) ==>
        AllGetOwnValue(trace, argsOf, func)
  }

  ghost predicate AllGetOwnValue(trace: seq<State>, argsOf: string -> Args, func: Args -> Value) {
    forall n, i :: 0 <= n < |trace| && 0 <= i < |trace[n].callers| ==> GetsOwnValue(trace[n].callers[i], argsOf, func)
  }

  predicate GetsOwnValue(c: Caller, argsOf: string -> Args, func: Args -> Value) {
    c.pc.Returned? ==> c.pc.value == func(argsOf(c.call.primary))
  }

  /** JSON gives the value back, or loses it entirely and the store never serves it. */
  predicate SurvivesJson(codec: Codec, v: Value) {
    codec.norm(v) == v || codec.norm(v) == codec.nullValue
  }

  /** The cache is transparent exactly when JSON does not alter the results of the function. */
  lemma TransparentExactly(codec: Codec, argsOf: string -> Args, func: Args -> Value)
    requires IdempotentCodec(codec)
    ensures AlwaysTransparent(codec, argsOf, func) <==> forall k :: SurvivesJson(codec, func(argsOf(k)))
  {
    if forall k :: SurvivesJson(codec, func(argsOf(k))) {
      forall trace: seq<State>, steps: seq<Step> | IsRun(trace, steps, codec, argsOf) && Deterministic(trace, steps, argsOf, func)
        ensures AllGetOwnValue(trace, argsOf, func)
      {
        forall n, i | 0 <= n < |trace| && 0 <= i < |trace[n].callers|
          ensures GetsOwnValue(trace[n].callers[i], argsOf, func)
        {
          GetsItsOwn(trace, steps, codec, argsOf, func, n, i);
        }
      }
    } else {
      var k :| !SurvivesJson(codec, func(argsOf(k)));
      AlteredResultIsServed(codec, argsOf, func, k);
    }
  }

  lemma GetsItsOwn(trace: seq<State>, steps: seq<Step>, codec: Codec, argsOf: string -> Args, func: Args -> Value, n: nat, i: nat)
    requires IdempotentCodec(codec) && forall k :: SurvivesJson(codec, func(argsOf(k)))
    requires IsRun(trace, steps, codec, argsOf) && Deterministic(trace, steps, argsOf, func)
    requires n < |trace| && i < |trace[n].callers|
    ensures GetsOwnValue(trace[n].callers[i], argsOf, func)
  {
    AnswersComeFromSameArguments(trace, steps, codec, argsOf, n, i);
    var Caller(c, pc) := trace[n].callers[i];
    if pc.Returned? {
      var outcomes := trace[n].log.outcomes;
      assert SurvivesJson(codec, func(argsOf(c.primary)));
      if Computed(outcomes, argsOf, argsOf(c.primary), pc.value) {
        var o :| o in outcomes && o.Succeeded? && Ran(o, argsOf, argsOf(c.primary)) && pc.value == o.result;
        OutcomesWereSteps(trace, steps, codec, argsOf, n, o);
      } else {
        var o :| o in outcomes && o.Succeeded? && Ran(o, argsOf, argsOf(c.primary)) && pc.value == codec.norm(o.result);
        OutcomesWereSteps(trace, steps, codec, argsOf, n, o);
      }
    }
  }

  /** One caller computes and publishes; the next one hits the store and gets the altered value. */
  lemma AlteredResultIsServed(codec: Codec, argsOf: string -> Args, func: Args -> Value, k: string)
    requires !SurvivesJson(codec, func(argsOf(k)))
    ensures !AlwaysTransparent(codec, argsOf, func)
  {
    var v := func(argsOf(k));
    var up, c := Redis(true, true, true, true), Keys(k, None);
    var steps := [Arrive(c, up), Enter(0, up), FuncReturns(0, v, up), Publish(0, up), Arrive(c, up)];
    var s1 := Next(INITIAL, codec, steps[0]);
    assert s1.callers == [Caller(c, AtLock)];
    var s2 := Next(s1, codec, steps[1]);
    assert s2.callers == [Caller(c, Computing(0))];
    var s3 := Next(s2, codec, steps[2]);
    assert s3.callers == [Caller(c, Storing(0, v))];
    var s4 := Next(s3, codec, steps[3]);
    assert s4.store == map[k := codec.norm(v)];
    var s5 := Next(s4, codec, steps[4]);
    assert s5.callers[1] == Caller(c, Returned(codec.norm(v)));
    var trace := [INITIAL, s1, s2, s3, s4, s5];
    assert IsRun(trace, steps, codec, argsOf);
    assert Deterministic(trace, steps, argsOf, func);
    assert !GetsOwnValue(trace[5].callers[1], argsOf, func);
    assert !AllGetOwnValue(trace, argsOf, func);
  }

  lemma {:induction false} OutcomesWereSteps(trace: seq<State>, steps: seq<Step>, codec: Codec, argsOf: string -> Args, n: nat, o: Outcome)
    requires IsRun(trace, steps, codec, argsOf) && n < |trace| && o in trace[n].log.outcomes && o.Succeeded?
    ensures exists m :: 0 <= m < n && steps[m].FuncReturns? && steps[m].result == o.result
              && o.call == trace[m].callers[steps[m].who].call
  {
    if n > 0 {
      if o in trace[n - 1].log.outcomes {
        OutcomesWereSteps(trace, steps, codec, argsOf, n - 1, o);
      } else {
        assert steps[n - 1].FuncReturns?;
      }
    }
  }

  // ----- The verification endpoint ------------------------------------------------------

  /** Every call of the run is the endpoint's, made for some request. */
  ghost predicate FromRequests(steps: seq<Step>, digest: Digest) {
    forall m :: 0 <= m < |steps| && steps[m].Arrive? ==> OfSomeRequest(steps[m].call, digest)
  }

  ghost predicate IsEndpointRun(trace: seq<State>, steps: seq<Step>, codec: Codec, digest: Digest) {
    && FromRequests(steps, digest)
    && |trace| == |steps| + 1
    && trace[0] == INITIAL
    && forall i :: 0 <= i < |steps| ==> Enabled(trace[i], steps[i]) && trace[i + 1] == Next(trace[i], codec, steps[i])
  }

  lemma EndpointRunsAreRuns(trace: seq<State>, steps: seq<Step>, codec: Codec, digest: Digest)
    requires Ideal(digest) && IsEndpointRun(trace, steps, codec, digest)
    ensures IsRun(trace, steps, codec, k => ArgsOf(digest, VERIFICATION, k))
  {
    forall i | 0 <= i < |steps| && steps[i].Arrive? ensures WellKeyed(steps[i].call, k => ArgsOf(digest, VERIFICATION, k)) {
      var r :| steps[i].call == KeysOf(digest, r);
      KeysStandForArguments(digest, VERIFICATION, CallOf(r));
    }
  }

  ghost predicate OfSomeRequest(c: Call, digest: Digest) {
    exists r :: c == KeysOf(digest, r)
  }

  /** A caller's keys never change, and a new caller has the keys it arrived with. */
  lemma CallsPersist(s: State, codec: Codec, step: Step, i: nat)
    requires Enabled(s, step) && i < |Next(s, codec, step).callers|
    ensures i < |s.callers| ==> Next(s, codec, step).callers[i].call == s.callers[i].call
    ensures i >= |s.callers| ==> step.Arrive? && Next(s, codec, step).callers[i].call == step.call
  {
  }

  lemma {:induction false} CallersCameFromRequests(trace: seq<State>, steps: seq<Step>, codec: Codec, digest: Digest, n: nat, i: nat)
    requires IsEndpointRun(trace, steps, codec, digest) && n < |trace| && i < |trace[n].callers|
    ensures OfSomeRequest(trace[n].callers[i].call, digest)
  {
    if n > 0 {
      CallsPersist(trace[n - 1], codec, steps[n - 1], i);
      if i < |trace[n - 1].callers| {
        CallersCameFromRequests(trace, steps, codec, digest, n - 1, i);
      }
    }
  }

  /** Tenant isolation end to end: a verification answer was computed for a request that differs
      from the answered one in nothing but its artifacts and their content hash, so never for
      another organisation, model version or prompt version. */
  lemma NeverAnotherTenantsAnswer(trace: seq<State>, steps: seq<Step>, codec: Codec, digest: Digest, n: nat, i: nat, r: Request)
    requires Ideal(digest) && IdempotentCodec(codec) && IsEndpointRun(trace, steps, codec, digest)
    requires n < |trace| && i < |trace[n].callers| && trace[n].callers[i].pc.Returned?
    requires trace[n].callers[i].call == KeysOf(digest, r)
    ensures exists m, q: Request :: 0 <= m < n && steps[m].FuncReturns?
              && trace[m].callers[steps[m].who].call == KeysOf(digest, q)
              && Given(q) == Given(r) && q.orgId == r.orgId && q.service == r.service
              && (trace[n].callers[i].pc.value == steps[m].result || trace[n].callers[i].pc.value == codec.norm(steps[m].result))
  {
    var argsOf := k => ArgsOf(digest, VERIFICATION, k);
    EndpointRunsAreRuns(trace, steps, codec, digest);
    AnswersComeFromSameArguments(trace, steps, codec, argsOf, n, i);
    var v, c := trace[n].callers[i].pc.value, trace[n].callers[i].call;
    var o :| o in trace[n].log.outcomes && o.Succeeded? && Ran(o, argsOf, argsOf(c.primary)) && (v == o.result || v == codec.norm(o.result));
    OutcomesWereSteps(trace, steps, codec, argsOf, n, o);
    var m :| 0 <= m < n && steps[m].FuncReturns? && steps[m].result == o.result && o.call == trace[m].callers[steps[m].who].call;
    CallersCameFromRequests(trace, steps, codec, digest, m, steps[m].who);
    var q: Request :| o.call == KeysOf(digest, q);
    SameArgumentsSameRequest(digest, q, r);
  }

  lemma SameArgumentsSameRequest(digest: Digest, q: Request, r: Request)
    requires Ideal(digest)
    requires ArgsOf(digest, VERIFICATION, KeysOf(digest, q).primary) == ArgsOf(digest, VERIFICATION, KeysOf(digest, r).primary)
    ensures Given(q) == Given(r) && q.orgId == r.orgId && q.service == r.service
  {
    KeyStandsFor(digest, q, KeysOf(digest, q).primary);
    KeyStandsFor(digest, r, KeysOf(digest, r).primary);
    assert q.service == [q.service][0] == [r.service][0];
    GivenDetermines(q, r);
  }
}
