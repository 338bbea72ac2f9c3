/** What verification does with one provider, told from its breaker, its spend, the clock and the replies
    alone, and that a whole search is a chain of such visits (app/ai-service/services/humanitarian_verification.py). */
module ProviderVisits {
  import opened Basics
  import opened CircuitBreakers
  import opened CostCeiling
  import opened Failover
  import BreakerAlerts

  // ----- A search is a chain of visits ------------------------------------------------------

  /** The first provider comes up in the world `w`, each other one in the world that verification with
      the one before it alone would leave, and so the search ends as with the last one alone. */
  ghost predicate Chained(e: Env, w: World, examined: seq<Examined>, end: World, outcome: Outcome)
    decreases |examined|
  {
    if examined == [] then end == w && outcome == Exhausted
    else
      var one := Verify(e, w, [examined[0].provider]);
      && examined[0].at == w
      && if |examined| == 1 then end == one.world && outcome == one.outcome
         else Chained(e, one.world, examined[1..], end, outcome)
  }

  lemma AloneLikeFirst(e: Env, w: World, pending: seq<string>)
    requires pending != []
    ensures var n, one := ExamineFirst(e, w, pending), Verify(e, w, [pending[0]]);
            && one.world == n.world && n.here.at == w && n.here.provider == pending[0]
            && one.examined == [n.here]
            && (n.Stop? ==> one.outcome == n.outcome)
            && (n.Go? ==> one.outcome == if n.here.how == CeilingReached then ManualReview else Exhausted)
  {
    var alone := [pending[0]];
    assert alone[1..] == [];
    var m := ExamineFirst(e, w, alone);
    if m.Go? {
      assert m.pending == [];
      assert Verify(e, m.world, []) == Search(m.world, Exhausted, []);
    }
  }

  lemma ThenChained(e: Env, w: World, here: Examined, rest: Search)
    requires here.at == w && rest.examined != []
    requires Chained(e, Verify(e, w, [here.provider]).world, rest.examined, rest.world, rest.outcome)
    ensures Chained(e, w, Then(here, rest).examined, rest.world, rest.outcome)
  {
    var all := Then(here, rest).examined;
    assert all[0] == here && all[1..] == rest.examined;
  }

  lemma {:induction false} SearchIsChain(e: Env, w: World, pending: seq<string>)
    ensures var s := Verify(e, w, pending); Chained(e, w, s.examined, s.world, s.outcome)
    decreases |pending|
  {
    if pending == [] {
    } else {
      AloneLikeFirst(e, w, pending);
      var n := ExamineFirst(e, w, pending);
      if n.Go? {
        SearchIsChain(e, n.world, n.pending);
        var rest := Verify(e, n.world, n.pending);
        if n.pending == [] {
          GoneOnIsNoCeiling(e, w, pending);
          assert Then(n.here, rest).examined == [n.here];
        } else {
          FirstExamined(e, n.world, n.pending);
          ThenChained(e, w, n.here, rest);
        }
      }
    }
  }

  lemma GoneOnIsNoCeiling(e: Env, w: World, pending: seq<string>)
    requires pending != [] && ExamineFirst(e, w, pending).Go? && ExamineFirst(e, w, pending).pending == []
    ensures ExamineFirst(e, w, pending).here.how != CeilingReached
  {
    CeilingRoutes(e, w, pending);
  }

  /** Unless a ceiling is reached, providers come up in the order of the list. */
  lemma {:induction false} InListOrder(e: Env, w: World, pending: seq<string>)
    requires forall x :: x in Verify(e, w, pending).examined ==> x.how != CeilingReached
    ensures Names(Verify(e, w, pending).examined) <= pending
    decreases |pending|
  {
    var s := Verify(e, w, pending);
    if pending == [] {
      assert Names([]) == [];
    } else {
      var n := ExamineFirst(e, w, pending);
      assert n.here in s.examined;
      if n.Go? {
        var rest := Verify(e, n.world, n.pending);
        assert s.examined == [n.here] + rest.examined;
        NotRerouted(e, w, pending);
        forall x | x in rest.examined ensures x.how != CeilingReached {
          assert x in s.examined;
        }
        InListOrder(e, n.world, n.pending);
        NamesThen(n.here, rest);
        assert pending == [pending[0]] + pending[1..];
      } else {
        assert Names([n.here]) == [pending[0]];
      }
    }
  }

  lemma NotRerouted(e: Env, w: World, pending: seq<string>)
    requires pending != []
    ensures var n := ExamineFirst(e, w, pending);
            n.Go? && n.here.how != CeilingReached ==> n.pending == pending[1..]
  {
  }

  // ----- What decides about a provider ------------------------------------------------------

  /** Its spend in the window of the moment has reached its ceiling. */
  predicate AtCeiling(e: Env, at: World, provider: string) {
    provider in e.ceilings &&
    SpendIn(at.spend, Bucket(provider, IntOf(e.clock(at.ticks)) / e.ceilings[provider].seconds)) >= e.ceilings[provider].limit
  }

  /** Its breaker is open, and not yet for the recovery timeout. */
  predicate Resting(e: Env, at: World, provider: string) {
    provider in at.breakers && at.breakers[provider].phase == BreakerAlerts.Open &&
    e.clock(at.ticks + 1) - at.breakers[provider].lastStateChange < e.breaker.recoveryTimeout
  }

  predicate Supported(provider: string) {
    provider in {"test", "openai", "groq"}
  }

  ghost predicate Judged(e: Env, x: Examined) {
    && (x.how == CeilingReached <==> AtCeiling(e, x.at, x.provider))
    && (x.how == BreakerOpen <==> !AtCeiling(e, x.at, x.provider) && Resting(e, x.at, x.provider))
    && (x.how == Unsupported <==>
          !AtCeiling(e, x.at, x.provider) && !Resting(e, x.at, x.provider) && !Supported(x.provider))
    && (x.calls > 0 <==> x.how == Tried)
  }

  lemma VisitJudged(e: Env, w: World, provider: string)
    ensures var v := Visited(e, w.(ticks := w.ticks + 1), provider);
            && v.how != CeilingReached
            && (v.how == BreakerOpen <==> Resting(e, w, provider))
            && (v.how == Unsupported <==> !Resting(e, w, provider) && !Supported(provider))
            && (v.world.calls > w.calls <==> v.how == Tried)
  {
    var w2 := Told(e, w.(ticks := w.ticks + 1), provider, AllowRequest);
    PromptCalls(e, w2, provider, Primary);
    PromptCalls(e, TryPrompt(e, w2, provider, Primary).0, provider, Secondary);
  }

  lemma FirstJudged(e: Env, w: World, pending: seq<string>)
    requires pending != []
    ensures Judged(e, ExamineFirst(e, w, pending).here)
  {
    CeilingJudged(e, w, pending);
    if !AtCeiling(e, w, pending[0]) {
      VisitJudged(e, w, pending[0]);
    }
  }

  lemma CeilingJudged(e: Env, w: World, pending: seq<string>)
    requires pending != []
    ensures var here, v := ExamineFirst(e, w, pending).here, Visited(e, w.(ticks := w.ticks + 1), pending[0]);
            && here.at == w && here.provider == pending[0]
            && (AtCeiling(e, w, pending[0]) ==> here.how == CeilingReached && here.calls == 0)
            && (!AtCeiling(e, w, pending[0]) ==> here.how == v.how && here.calls == CallsBetween(w, v.world))
  {
  }

  /** In every search each provider is judged by the world it came up in: below its ceiling it is
      skipped without a call exactly while its breaker rests, and called otherwise. */
  lemma {:induction false} JudgedExactly(e: Env, w: World, pending: seq<string>)
    ensures forall x :: x in Verify(e, w, pending).examined ==> Judged(e, x)
    decreases |pending|
  {
    if pending == [] {
    } else {
      FirstJudged(e, w, pending);
      var n := ExamineFirst(e, w, pending);
      if n.Go? {
        JudgedExactly(e, n.world, n.pending);
      }
    }
  }

  /** A skipped provider costs nothing but a reading of the clock or two, and its breaker stays. */
  lemma SkippedExactly(e: Env, w: World, provider: string)
    requires AtCeiling(e, w, provider) || Resting(e, w, provider)
    ensures var s := Verify(e, w, [provider]);
            && s.outcome == (if AtCeiling(e, w, provider) then ManualReview else Exhausted)
            && s.world == w.(ticks := s.world.ticks)
  {
    AloneLikeFirst(e, w, [provider]);
    assert w.breakers == if provider in w.breakers then w.breakers[provider := w.breakers[provider]] else w.breakers;
  }

  // ----- What a called provider does --------------------------------------------------------

  /** Where the reply stands that decides about a prompt: after one malformed reply there is a second
      attempt and no third. */
  function Deciding(e: Env, calls: nat): nat {
    if e.replies(calls) == Garbled then calls + 1 else calls
  }

  /** The breaker a provider comes to its prompts with: one that was open is half-open then. */
  function BreakerAt(e: Env, at: World, provider: string): Breaker {
    if provider !in at.breakers then Breaker(BreakerAlerts.Closed, 0, e.clock(at.ticks + 1))
    else if at.breakers[provider].phase == BreakerAlerts.Open
      then Breaker(BreakerAlerts.HalfOpen, at.breakers[provider].failureCount, e.clock(at.ticks + 1))
    else at.breakers[provider]
  }

  lemma PromptExactly(e: Env, w: World, provider: string, variant: Variant)
    ensures var (w', outcome) := TryPrompt(e, w, provider, variant);
            var k := Deciding(e, w.calls);
            && w'.calls == k + 1
            && outcome == (if e.replies(k).Answer? then Some(Verified(provider, variant, e.replies(k).payload)) else None)
  {
    if e.replies(w.calls).Garbled? {
      assert CallAndValidate(e, w.calls, 1) == CallAndValidate(e, w.calls + 1, 2);
    }
  }

  predicate Called(e: Env, w: World, provider: string) {
    !AtCeiling(e, w, provider) && !Resting(e, w, provider) && Supported(provider)
  }

  /** The world in which a called provider gets its first prompt. */
  function Admitted(e: Env, w: World, provider: string): World {
    w.(breakers := w.breakers[provider := BreakerAt(e, w, provider)], ticks := w.ticks + 2)
  }

  /** What two prompts in a row come to. */
  ghost predicate Prompted(e: Env, w: World, provider: string, s: Search) {
    var (w1, o1) := TryPrompt(e, w, provider, Primary);
    var (w2, o2) := TryPrompt(e, w1, provider, Secondary);
    if o1.Some? then s.world == w1 && s.outcome == o1.value
    else s.world == w2 && s.outcome == if o2.Some? then o2.value else Exhausted
  }

  lemma AdmittedIs(e: Env, w: World, provider: string)
    requires !Resting(e, w, provider)
    ensures Told(e, w.(ticks := w.ticks + 1), provider, AllowRequest) == Admitted(e, w, provider)
  {
  }

  lemma VisitPrompted(e: Env, w: World, provider: string)
    requires !Resting(e, w, provider) && Supported(provider)
    ensures var v := Visited(e, w.(ticks := w.ticks + 1), provider);
            Prompted(e, Admitted(e, w, provider), provider,
                     Search(v.world, if v.outcome.Some? then v.outcome.value else Exhausted, []))
  {
    AdmittedIs(e, w, provider);
  }

  lemma CalledPrompted(e: Env, w: World, provider: string)
    requires Called(e, w, provider)
    ensures Prompted(e, Admitted(e, w, provider), provider, Verify(e, w, [provider]))
  {
    VisitPrompted(e, w, provider);
    AloneLikeFirst(e, w, [provider]);
    var v := Visited(e, w.(ticks := w.ticks + 1), provider);
    var n := ExamineFirst(e, w, [provider]);
    assert n.world == v.world && (n.Stop? <==> v.outcome.Some?) && (n.Stop? ==> n.outcome == v.outcome.value);
    assert n.here.how != CeilingReached;
  }

  ghost predicate Answered(e: Env, calls: nat, provider: string, s: Search) {
    var first := Deciding(e, calls);
    var second := Deciding(e, first + 1);
    && s.outcome == (if e.replies(first).Answer? then Verified(provider, Primary, e.replies(first).payload)
                     else if e.replies(second).Answer? then Verified(provider, Secondary, e.replies(second).payload)
                     else Exhausted)
    && s.world.calls == (if e.replies(first).Answer? then first else second) + 1
  }

  lemma PromptedAnswers(e: Env, w: World, provider: string, s: Search)
    requires Prompted(e, w, provider, s)
    ensures Answered(e, w.calls, provider, s)
  {
    PromptExactly(e, w, provider, Primary);
    var (w1, o1) := TryPrompt(e, w, provider, Primary);
    PromptExactly(e, w1, provider, Secondary);
  }

  /** A called provider gets the primary prompt, and the fallback prompt if that brings no valid answer,
      each with one more attempt after malformed output; the first valid answer is the outcome. */
  lemma CalledExactly(e: Env, w: World, provider: string)
    requires Called(e, w, provider)
    ensures Answered(e, w.calls, provider, Verify(e, w, [provider]))
  {
    CalledPrompted(e, w, provider);
    PromptedAnswers(e, Admitted(e, w, provider), provider, Verify(e, w, [provider]));
  }

  // ----- What that does to its breaker and its spend ----------------------------------------

  /** A valid answer closes a breaker that is not open, and clears its count; a transport failure counts
      and opens it, if it was half-open or the count has reached the threshold; nothing else moves it. */
  ghost predicate Moved(e: Env, was: Breaker, became: Breaker, reply: Reply, now: real) {
    match reply
    case Refusal => became == was
    case Garbled => became == was
    case Answer(_, _) =>
      if was.phase == BreakerAlerts.Open then became == was
      else became == Breaker(BreakerAlerts.Closed, 0, if was.phase == BreakerAlerts.HalfOpen then now else was.lastStateChange)
    case Unreachable =>
      && became.failureCount == was.failureCount + 1
      && became.phase == (if was.phase == BreakerAlerts.Closed && became.failureCount < e.breaker.failureThreshold
                          then BreakerAlerts.Closed else BreakerAlerts.Open)
      && became.lastStateChange == if became.phase != was.phase then now else was.lastStateChange
  }

  lemma PromptMoves(e: Env, w: World, provider: string, variant: Variant)
    requires provider in w.breakers
    ensures var w' := TryPrompt(e, w, provider, variant).0;
            && w'.breakers.Keys == w.breakers.Keys && w'.breakers - {provider} == w.breakers - {provider}
            && Moved(e, w.breakers[provider], w'.breakers[provider], e.replies(Deciding(e, w.calls)), e.clock(w.ticks))
            && w'.ticks >= w.ticks
            && (!e.replies(Deciding(e, w.calls)).Answer? ==>
                  w'.ticks == w.ticks + if e.replies(Deciding(e, w.calls)).Unreachable? then 1 else 0)
  {
    if e.replies(w.calls).Garbled? {
      assert CallAndValidate(e, w.calls, 1) == CallAndValidate(e, w.calls + 1, 2);
    }
  }

  /** The breaker of a called provider moves with the deciding reply to each prompt, and no other breaker
      moves. So where the first prompt cannot be delivered and trips the breaker, a valid answer to the
      second one leaves it open. */
  lemma BreakerExactly(e: Env, w: World, provider: string)
    requires Called(e, w, provider)
    ensures var s, first := Verify(e, w, [provider]), Deciding(e, w.calls);
            && provider in s.world.breakers && s.world.breakers - {provider} == w.breakers - {provider}
            && if e.replies(first).Answer?
               then Moved(e, BreakerAt(e, w, provider), s.world.breakers[provider], e.replies(first), e.clock(w.ticks + 2))
               else MovedTwice(e, BreakerAt(e, w, provider), s.world.breakers[provider], e.replies(first),
                               e.replies(Deciding(e, first + 1)), w.ticks + 2)
  {
    CalledPrompted(e, w, provider);
    var w2 := Admitted(e, w, provider);
    var w3 := TryPrompt(e, w2, provider, Primary).0;
    PromptMoves(e, w2, provider, Primary);
    PromptExactly(e, w2, provider, Primary);
    PromptMoves(e, w3, provider, Secondary);
    assert w2.breakers - {provider} == w.breakers - {provider};
    if !e.replies(Deciding(e, w.calls)).Answer? {
      assert Moved(e, w2.breakers[provider], w3.breakers[provider], e.replies(Deciding(e, w.calls)), e.clock(w.ticks + 2));
    }
  }

  ghost predicate MovedTwice(e: Env, was: Breaker, became: Breaker, first: Reply, second: Reply, tick: nat) {
    exists mid ::
      && Moved(e, was, mid, first, e.clock(tick))
      && Moved(e, mid, became, second, e.clock(if first.Unreachable? then tick + 1 else tick))
  }

  /** The cost of an answer goes to the provider, in the window in which it is recorded; without an
      answer nothing is spent. */
  ghost predicate Spent(e: Env, was: World, reply: Reply, provider: string, became: World, b: Bucket) {
    && (reply.Answer? ==> became.ticks > 0)
    && SpendIn(became.spend, b) == SpendIn(was.spend, b) +
         if reply.Answer? && reply.cost.Some? && GoesTo(e.ceilings, provider, reply.cost.value, e.clock(became.ticks - 1), b)
         then reply.cost.value else 0.0
  }

  lemma PromptedSpends(e: Env, w: World, provider: string, s: Search, b: Bucket)
    requires Prompted(e, w, provider, s)
    ensures var first := Deciding(e, w.calls);
            Spent(e, w, e.replies(if e.replies(first).Answer? then first else Deciding(e, first + 1)), provider, s.world, b)
  {
    PromptExactly(e, w, provider, Primary);
    PromptSpends(e, w, provider, Primary, b);
    PromptSpends(e, TryPrompt(e, w, provider, Primary).0, provider, Secondary, b);
  }

  lemma SpentExactly(e: Env, w: World, provider: string, b: Bucket)
    requires Called(e, w, provider)
    ensures var first := Deciding(e, w.calls);
            Spent(e, w, e.replies(if e.replies(first).Answer? then first else Deciding(e, first + 1)), provider,
                  Verify(e, w, [provider]).world, b)
  {
    CalledPrompted(e, w, provider);
    var s, w2 := Verify(e, w, [provider]), Admitted(e, w, provider);
    PromptedSpends(e, w2, provider, s, b);
    assert w2.spend == w.spend && w2.calls == w.calls;
  }

  lemma PromptSpends(e: Env, w: World, provider: string, variant: Variant, b: Bucket)
    ensures var w' := TryPrompt(e, w, provider, variant).0;
            w'.ticks >= w.ticks && Spent(e, w, e.replies(Deciding(e, w.calls)), provider, w', b)
  {
    if e.replies(w.calls).Garbled? {
      assert CallAndValidate(e, w.calls, 1) == CallAndValidate(e, w.calls + 1, 2);
    }
  }
}
