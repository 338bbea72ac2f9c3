/** The provider work list of claim verification (app/ai-service/services/humanitarian_verification.py):
    cost ceilings with fallback promotion, circuit breakers, two prompts and their repair retries.

    What providers answer and what the clock shows are parameters: the reply to the k-th `llm_chat`
    and the k-th reading of the clock. */
module Failover {
  import opened Basics
  import opened CircuitBreakers
  import opened CostCeiling
  import BreakerAlerts

  /** A reply that could not be had, that declines, that does not parse or fits no schema, or that is
      a valid verification, with its estimated cost where that is known. */
  datatype Reply = Unreachable | Refusal | Garbled | Answer(payload: string, cost: Option<real>)

  datatype Variant = Primary | Secondary

  datatype Outcome =
    | Verified(provider: string, variant: Variant, payload: string)
    | ManualReview
    | Exhausted
    | UnsupportedProvider(name: string)
    | NoProviders

  datatype Env = Env(
    ceilings: Ceilings, fallback: map<string, string>, breaker: Settings, replies: nat -> Reply, clock: nat -> real)

  /** `calls` counts the replies used, `ticks` the readings of the clock. */
  datatype World = World(breakers: map<string, Breaker>, spend: Spend, calls: nat, ticks: nat)

  const MAX_ATTEMPTS_PER_PROMPT := 2

  const SUPPORTED_PROVIDERS := {"test", "openai", "groq"}

  // ----- One prompt -------------------------------------------------------------------------

  datatype Response = Usable(payload: string, cost: Option<real>) | Declined | Malformed | Failed

  /** `_call_and_validate` from its `attempt`-th attempt on, and the number of replies used by then. */
  function CallAndValidate(e: Env, calls: nat, attempt: nat): (Response, nat)
    requires 1 <= attempt <= MAX_ATTEMPTS_PER_PROMPT
    decreases MAX_ATTEMPTS_PER_PROMPT - attempt
  {
    match e.replies(calls)
    case Unreachable => (Failed, calls + 1)
    case Refusal => (Declined, calls + 1)
    case Answer(payload, cost) => (Usable(payload, cost), calls + 1)
    case Garbled =>
      if attempt < MAX_ATTEMPTS_PER_PROMPT then CallAndValidate(e, calls + 1, attempt + 1) else (Malformed, calls + 1)
  }

  function BreakerOf(w: World, provider: string, now: real): Breaker {
    if provider in w.breakers then w.breakers[provider] else Breaker(BreakerAlerts.Closed, 0, now)
  }

  /** The breaker of a provider, made on first use, hears of a call. */
  function Told(e: Env, w: World, provider: string, call: Call): World {
    var now := e.clock(w.ticks);
    w.(breakers := w.breakers[provider := After(e.breaker, BreakerOf(w, provider, now), call, now)],
       ticks := w.ticks + 1)
  }

  function Charged(e: Env, w: World, provider: string, cost: Option<real>): World {
    if cost.None? then w
    else w.(spend := Recorded(e.ceilings, w.spend, provider, cost.value, e.clock(w.ticks)), ticks := w.ticks + 1)
  }

  function TryPrompt(e: Env, w: World, provider: string, variant: Variant): (World, Option<Outcome>) {
    var (response, calls) := CallAndValidate(e, w.calls, 1);
    var w1 := w.(calls := calls);
    match response
    case Usable(payload, cost) =>
      (Charged(e, Told(e, w1, provider, RecordSuccess), provider, cost), Some(Verified(provider, variant, payload)))
    case Declined => (w1, None)
    case Malformed => (w1, None)
    case Failed => (Told(e, w1, provider, RecordFailure), None)
  }

  function TryProvider(e: Env, w: World, provider: string): (World, Option<Outcome>) {
    var (w1, outcome) := TryPrompt(e, w, provider, Primary);
    if outcome.Some? then (w1, outcome) else TryPrompt(e, w1, provider, Secondary)
  }

  // ----- The work list ------------------------------------------------------------------------

  function IndexOf(pending: seq<string>, name: string): (i: nat)
    ensures i <= |pending|
    ensures i < |pending| ==> pending[i] == name
    ensures i == |pending| ==> name !in pending
  {
    if pending == [] || pending[0] == name then 0 else 1 + IndexOf(pending[1..], name)
  }

  /** The provider at `i` moves to the front. */
  function Promoted(pending: seq<string>, i: nat): (r: seq<string>)
    requires i < |pending|
    ensures |r| == |pending| && r[0] == pending[i] && r[1..] == pending[..i] + pending[i + 1..]
    ensures multiset(r) == multiset(pending)
  {
    assert pending == pending[..i] + [pending[i]] + pending[i + 1..];
    [pending[i]] + (pending[..i] + pending[i + 1..])
  }

  /** Where the fallback configured for a provider stands in the list; past its end if nowhere. */
  function FallbackIn(e: Env, provider: string, pending: seq<string>): (i: nat)
    ensures i <= |pending|
    ensures i < |pending| <==> provider in e.fallback && e.fallback[provider] in pending
    ensures i < |pending| ==> pending[i] == e.fallback[provider]
  {
    if provider in e.fallback then IndexOf(pending, e.fallback[provider]) else |pending|
  }

  datatype How = CeilingReached | BreakerOpen | Unsupported | Tried

  /** What became of a provider, how many calls it cost, and the world that it came up in. */
  datatype Examined = Examined(provider: string, how: How, calls: nat, at: World)

  datatype Search = Search(world: World, outcome: Outcome, examined: seq<Examined>)

  function Then(first: Examined, rest: Search): Search {
    rest.(examined := [first] + rest.examined)
  }

  datatype Visit = Visit(world: World, outcome: Option<Outcome>, how: How)

  /** A provider below its ceiling: its breaker decides, then come the two prompts. */
  function Visited(e: Env, w: World, provider: string): Visit {
    var now := e.clock(w.ticks);
    var admitted := Admits(e.breaker, BreakerOf(w, provider, now), now);
    var w1 := Told(e, w, provider, AllowRequest);
    if !admitted then Visit(w1, None, BreakerOpen)
    else if provider !in SUPPORTED_PROVIDERS then Visit(w1, Some(UnsupportedProvider(provider)), Unsupported)
    else
      var (w2, outcome) := TryProvider(e, w1, provider);
      Visit(w2, outcome, Tried)
  }

  function CallsBetween(w: World, w': World): nat {
    if w'.calls >= w.calls then w'.calls - w.calls else 0
  }

  /** Examining the first provider of the list ends the search or leaves a list to go on with. */
  datatype Next = Stop(world: World, outcome: Outcome, here: Examined) | Go(world: World, pending: seq<string>, here: Examined)

  function ExamineFirst(e: Env, w: World, pending: seq<string>): (n: Next)
    requires pending != []
    ensures n.here.provider == pending[0]
    ensures n.Go? ==> multiset(n.pending) == multiset(pending[1..]) && |n.pending| == |pending| - 1
  {
    var provider, rest := pending[0], pending[1..];
    var w1 := w.(ticks := w.ticks + 1);
    if Exceeded(e.ceilings, w.spend, provider, e.clock(w.ticks)) then
      var i := FallbackIn(e, provider, rest);
      var here := Examined(provider, CeilingReached, 0, w);
      if i == |rest| then Stop(w1, ManualReview, here) else Go(w1, Promoted(rest, i), here)
    else VisitNext(e, w1, provider, rest, w)
  }

  function VisitNext(e: Env, w: World, provider: string, rest: seq<string>, at: World): Next {
    var v := Visited(e, w, provider);
    var here := Examined(provider, v.how, CallsBetween(w, v.world), at);
    if v.outcome.Some? then Stop(v.world, v.outcome.value, here) else Go(v.world, rest, here)
  }

  function Verify(e: Env, w: World, pending: seq<string>): Search
    decreases |pending|
  {
    if pending == [] then Search(w, Exhausted, [])
    else
      match ExamineFirst(e, w, pending)
      case Stop(w', outcome, here) => Search(w', outcome, [here])
      case Go(w', rest, here) => Then(here, Verify(e, w', rest))
  }

  class HumanitarianVerificationService {
    const env: Env
    const costCeiling: ProviderCostCeiling
    var breakers: map<string, Breaker>
    var calls: nat
    var ticks: nat

    ghost predicate Valid()
      reads this
    {
      costCeiling.ceilings == env.ceilings
    }

    ghost function View(): World
      reads this, costCeiling
    {
      World(breakers, costCeiling.localSpend, calls, ticks)
    }

    constructor (env: Env)
      ensures Valid() && View() == World(map[], map[], 0, 0) && fresh(costCeiling)
    {
      this.env := env;
      costCeiling := new ProviderCostCeiling(env.ceilings);
      breakers, calls, ticks := map[], 0, 0;
    }

    method Now() returns (now: real)
      modifies this`ticks
      ensures now == env.clock(old(ticks)) && ticks == old(ticks) + 1
    {
      now := env.clock(ticks);
      ticks := ticks + 1;
    }

    method Tell(provider: string, call: Call)
      modifies this`breakers, this`ticks
      ensures View() == Told(env, old(View()), provider, call)
    {
      var now := Now();
      var breaker := if provider in breakers then breakers[provider] else Breaker(BreakerAlerts.Closed, 0, now);
      breakers := breakers[provider := After(env.breaker, breaker, call, now)];
    }

    method CallProvider() returns (response: Response)
      modifies this`calls
      ensures (response, calls) == CallAndValidate(env, old(calls), 1)
    {
      var attempt := 1;
      while attempt <= MAX_ATTEMPTS_PER_PROMPT
        invariant 1 <= attempt <= MAX_ATTEMPTS_PER_PROMPT + 1
        invariant attempt <= MAX_ATTEMPTS_PER_PROMPT ==>
                    CallAndValidate(env, calls, attempt) == CallAndValidate(env, old(calls), 1)
        invariant attempt == MAX_ATTEMPTS_PER_PROMPT + 1 ==>
                    CallAndValidate(env, old(calls), 1) == (Malformed, calls)
      {
        var reply := env.replies(calls);
        calls := calls + 1;
        match reply {
          case Unreachable => return Failed;
          case Refusal => return Declined;
          case Answer(payload, cost) => return Usable(payload, cost);
          case Garbled => attempt := attempt + 1;
        }
      }
      return Malformed;
    }

    method AttemptPrompt(provider: string, variant: Variant) returns (outcome: Option<Outcome>)
      requires Valid()
      modifies this, costCeiling
      ensures (View(), outcome) == TryPrompt(env, old(View()), provider, variant)
    {
      var response := CallProvider();
      match response {
        case Usable(payload, cost) =>
          Tell(provider, RecordSuccess);
          if cost.Some? {
            var now := Now();
            costCeiling.RecordSpend(provider, cost.value, now);
          }
          return Some(Verified(provider, variant, payload));
        case Declined => return None;
        case Malformed => return None;
        case Failed =>
          Tell(provider, RecordFailure);
          return None;
      }
    }

    method VisitProvider(provider: string) returns (result: Option<Outcome>)
      requires Valid()
      modifies this, costCeiling
      ensures var v := Visited(env, old(View()), provider); View() == v.world && result == v.outcome
    {
      var now := env.clock(ticks);
      var breaker := if provider in breakers then breakers[provider] else Breaker(BreakerAlerts.Closed, 0, now);
      var admitted := Admits(env.breaker, breaker, now);
      Tell(provider, AllowRequest);
      if !admitted {
        return None;
      }
      if provider !in SUPPORTED_PROVIDERS {
        return Some(UnsupportedProvider(provider));
      }
      result := AttemptPrompt(provider, Primary);
      if result.None? {
        result := AttemptPrompt(provider, Secondary);
      }
    }

    /** One turn of the loop: an ending, or the list to go on with. */
    method Examine(pending: seq<string>) returns (result: Option<Outcome>, rest: seq<string>)
      requires Valid() && pending != []
      modifies this, costCeiling
      ensures var n := ExamineFirst(env, old(View()), pending);
              && View() == n.world
              && result == (if n.Stop? then Some(n.outcome) else None)
              && (n.Go? ==> rest == n.pending)
    {
      var provider := pending[0];
      rest := pending[1..];
      var now := Now();
      var exceeded := costCeiling.IsExceeded(provider, now);
      if exceeded {
        var i := FallbackIn(env, provider, rest);
        if i == |rest| {
          return Some(ManualReview), rest;
        }
        rest := Promoted(rest, i);
        return None, rest;
      }
      result := VisitProvider(provider);
    }

    method VerifyClaim(providers: seq<string>) returns (outcome: Outcome)
      requires Valid()
      modifies this, costCeiling
      ensures providers == [] ==> outcome == NoProviders && View() == old(View())
      ensures providers != [] ==>
                var s := Verify(env, old(View()), providers); View() == s.world && outcome == s.outcome
    {
      if providers == [] {
        return NoProviders;
      }
      var pending := providers;
      ghost var whole := Verify(env, View(), providers);
      while pending != []
        invariant Verify(env, View(), pending).world == whole.world
        invariant Verify(env, View(), pending).outcome == whole.outcome
        decreases |pending|
      {
        var result, rest := Examine(pending);
        if result.Some? {
          return result.value;
        }
        pending := rest;
      }
      return Exhausted;
    }
  }

  // ----- Which providers are examined -----------------------------------------------------------

  function Names(examined: seq<Examined>): (r: seq<string>)
    ensures |r| == |examined|
    ensures forall i :: 0 <= i < |r| ==> r[i] == examined[i].provider
  {
    if examined == [] then [] else [examined[0].provider] + Names(examined[1..])
  }

  ghost predicate EachOnce(pending: seq<string>, s: Search) {
    && multiset(Names(s.examined)) <= multiset(pending)
    && (s.outcome == Exhausted ==> multiset(Names(s.examined)) == multiset(pending))
  }

  lemma ThenOnce(pending: seq<string>, rest: seq<string>, here: Examined, s: Search)
    requires pending != [] && here.provider == pending[0] && multiset(rest) == multiset(pending[1..])
    requires EachOnce(rest, s)
    ensures EachOnce(pending, Then(here, s))
  {
    NamesThen(here, s);
    assert pending == [pending[0]] + pending[1..];
    assert multiset(pending) == multiset{pending[0]} + multiset(rest);
    assert multiset(Names(Then(here, s).examined)) == multiset{here.provider} + multiset(Names(s.examined));
  }

  lemma EndOnce(pending: seq<string>, here: Examined, s: Search)
    requires pending != [] && here.provider == pending[0] && s.examined == [here] && s.outcome != Exhausted
    ensures EachOnce(pending, s)
  {
    assert Names([here]) == [pending[0]];
    assert pending == [pending[0]] + pending[1..];
  }

  /** Promotion only permutes what is pending: every provider of the list is examined at most as
      often as it is listed, and if the search ends in exhaustion, exactly that often. */
  lemma {:induction false} ExaminedOnce(e: Env, w: World, pending: seq<string>)
    ensures EachOnce(pending, Verify(e, w, pending))
    decreases |pending|
  {
    if pending == [] {
      assert Names([]) == [];
    } else {
      StopOutcome(e, w, pending);
      match ExamineFirst(e, w, pending)
      case Stop(w', outcome, here) =>
        EndOnce(pending, here, Search(w', outcome, [here]));
      case Go(w', rest, here) =>
        ExaminedOnce(e, w', rest);
        ThenOnce(pending, rest, here, Verify(e, w', rest));
    }
  }

  lemma NamesThen(first: Examined, rest: Search)
    ensures Names(Then(first, rest).examined) == [first.provider] + Names(rest.examined)
  {
  }

  // ----- How many calls are made, and which reply is returned -----------------------------------

  /** None of the replies used is a verification, except the last where there is a result. */
  ghost predicate FirstAnswer(e: Env, from: nat, to: nat, payload: Option<string>) {
    && from <= to
    && (forall k :: from <= k < (if payload.Some? then to - 1 else to) ==> !e.replies(k).Answer?)
    && (payload.Some? ==> from < to && e.replies(to - 1).Answer? && e.replies(to - 1).payload == payload.value)
  }

  lemma CallTwiceAtMost(e: Env, calls: nat)
    ensures var (response, after) := CallAndValidate(e, calls, 1);
            && calls < after <= calls + MAX_ATTEMPTS_PER_PROMPT
            && FirstAnswer(e, calls, after, if response.Usable? then Some(response.payload) else None)
            && (response.Usable? ==> e.replies(after - 1) == Answer(response.payload, response.cost))
            && (response.Failed? <==> e.replies(after - 1).Unreachable?)
  {
  }

  function PayloadOf(outcome: Option<Outcome>): Option<string> {
    if outcome.Some? && outcome.value.Verified? then Some(outcome.value.payload) else None
  }

  lemma PromptCalls(e: Env, w: World, provider: string, variant: Variant)
    ensures var (w', outcome) := TryPrompt(e, w, provider, variant);
            && w.calls < w'.calls <= w.calls + MAX_ATTEMPTS_PER_PROMPT
            && FirstAnswer(e, w.calls, w'.calls, PayloadOf(outcome))
            && (outcome.Some? ==> outcome.value.Verified? && outcome.value.provider == provider)
  {
    CallTwiceAtMost(e, w.calls);
  }

  lemma VisitCalls(e: Env, w: World, provider: string)
    ensures var v := Visited(e, w, provider);
            && w.calls <= v.world.calls <= w.calls + 2 * MAX_ATTEMPTS_PER_PROMPT
            && (v.how != Tried ==> v.world.calls == w.calls)
            && FirstAnswer(e, w.calls, v.world.calls, PayloadOf(v.outcome))
            && (v.outcome.Some? && v.outcome.value.Verified? ==> v.outcome.value.provider == provider && v.how == Tried)
            && v.outcome != Some(ManualReview) && v.outcome != Some(Exhausted) && v.outcome != Some(NoProviders)
  {
    var w1 := Told(e, w, provider, AllowRequest);
    PromptCalls(e, w1, provider, Primary);
    PromptCalls(e, TryPrompt(e, w1, provider, Primary).0, provider, Secondary);
  }

  ghost predicate CallsOf(e: Env, w: World, n: Next) {
    && n.world.calls == w.calls + n.here.calls
    && n.here.calls <= 2 * MAX_ATTEMPTS_PER_PROMPT && (n.here.how != Tried ==> n.here.calls == 0)
    && FirstAnswer(e, w.calls, n.world.calls, if n.Stop? then PayloadOf(Some(n.outcome)) else None)
    && (n.Stop? && n.outcome.Verified? ==> n.outcome.provider == n.here.provider)
  }

  lemma ExamineCalls(e: Env, w: World, pending: seq<string>)
    requires pending != []
    ensures CallsOf(e, w, ExamineFirst(e, w, pending))
  {
    var n, w1 := ExamineFirst(e, w, pending), w.(ticks := w.ticks + 1);
    if Exceeded(e.ceilings, w.spend, pending[0], e.clock(w.ticks)) {
      SkipCallsOf(e, w, n);
    } else {
      var v := VisitNext(e, w1, pending[0], pending[1..], w);
      VisitCallsOf(e, w, w1, pending[0], pending[1..]);
      assert n == v;
    }
  }

  lemma SkipCallsOf(e: Env, w: World, n: Next)
    requires n.world.calls == w.calls && n.here.calls == 0 && (n.Stop? ==> n.outcome == ManualReview)
    ensures CallsOf(e, w, n)
  {
  }

  lemma VisitCallsOf(e: Env, w: World, w1: World, provider: string, rest: seq<string>)
    requires w1.calls == w.calls
    ensures CallsOf(e, w, VisitNext(e, w1, provider, rest, w))
  {
    VisitCalls(e, w1, provider);
    var v := Visited(e, w1, provider);
    assert v.outcome.Some? ==> PayloadOf(Some(v.outcome.value)) == PayloadOf(v.outcome);
  }

  lemma StopOutcome(e: Env, w: World, pending: seq<string>)
    requires pending != []
    ensures var n := ExamineFirst(e, w, pending);
            n.Stop? ==> n.outcome != Exhausted && n.outcome != NoProviders &&
                        (n.outcome == ManualReview <==> n.here.how == CeilingReached)
  {
    VisitCalls(e, w.(ticks := w.ticks + 1), pending[0]);
  }

  function TotalCalls(examined: seq<Examined>): nat {
    if examined == [] then 0 else examined[0].calls + TotalCalls(examined[1..])
  }

  ghost predicate CallsAccounted(e: Env, w: World, s: Search) {
    && s.world.calls == w.calls + TotalCalls(s.examined)
    && (forall x :: x in s.examined ==> x.calls <= 2 * MAX_ATTEMPTS_PER_PROMPT && (x.how != Tried ==> x.calls == 0))
    && FirstAnswer(e, w.calls, s.world.calls, PayloadOf(Some(s.outcome)))
    && (s.outcome.Verified? ==> s.examined != [] && s.examined[|s.examined| - 1].provider == s.outcome.provider)
  }

  lemma ThenAccounted(e: Env, w: World, w1: World, here: Examined, rest: Search)
    requires CallsAccounted(e, w1, rest) && w1.calls == w.calls + here.calls
    requires here.calls <= 2 * MAX_ATTEMPTS_PER_PROMPT && (here.how != Tried ==> here.calls == 0)
    requires FirstAnswer(e, w.calls, w1.calls, None)
    ensures CallsAccounted(e, w, Then(here, rest))
  {
    var all := [here] + rest.examined;
    assert all[1..] == rest.examined;
    if rest.outcome.Verified? {
      assert all[|all| - 1] == rest.examined[|rest.examined| - 1];
    }
  }

  /** Each provider examined costs at most four calls, and none if it was skipped. A verification is
      the first valid answer that was received, from the provider examined last; every other ending
      means that no valid answer was received at all. */
  lemma {:induction false} FirstValidAnswerWins(e: Env, w: World, pending: seq<string>)
    ensures CallsAccounted(e, w, Verify(e, w, pending))
    decreases |pending|
  {
    if pending == [] {
    } else {
      ExamineCalls(e, w, pending);
      match ExamineFirst(e, w, pending)
      case Stop(w', outcome, here) =>
        assert [here][1..] == [];
        assert TotalCalls([here]) == here.calls;
      case Go(w', rest, here) =>
        FirstValidAnswerWins(e, w', rest);
        ThenAccounted(e, w, w', here, Verify(e, w', rest));
    }
  }

  // ----- Ceilings reached -------------------------------------------------------------------------

  /** After a provider at its ceiling comes its fallback, at once, or nothing. */
  ghost predicate FallbackNext(e: Env, examined: seq<Examined>) {
    forall i :: 0 <= i < |examined| - 1 && examined[i].how == CeilingReached ==>
      examined[i].provider in e.fallback && examined[i + 1].provider == e.fallback[examined[i].provider]
  }

  /** The search ends in manual review exactly when the last provider examined was at its ceiling;
      and then its fallback was not among those left. */
  ghost predicate ReviewExactly(e: Env, pending: seq<string>, s: Search) {
    && (s.outcome == ManualReview <==> s.examined != [] && s.examined[|s.examined| - 1].how == CeilingReached)
    && (s.outcome == ManualReview ==>
          var last := s.examined[|s.examined| - 1].provider;
          last in e.fallback ==> e.fallback[last] !in multiset(pending) - multiset(Names(s.examined)))
  }

  ghost predicate Routed(e: Env, pending: seq<string>, s: Search) {
    FallbackNext(e, s.examined) && ReviewExactly(e, pending, s)
  }

  lemma ThenRouted(e: Env, pending: seq<string>, rest: seq<string>, here: Examined, s: Search)
    requires pending != [] && here.provider == pending[0] && multiset(rest) == multiset(pending[1..])
    requires Routed(e, rest, s)
    requires here.how == CeilingReached ==>
               s.examined != [] && here.provider in e.fallback && s.examined[0].provider == e.fallback[here.provider]
    ensures Routed(e, pending, Then(here, s))
  {
    var all := Then(here, s).examined;
    assert all == [here] + s.examined;
    forall i | 0 <= i < |all| - 1 && all[i].how == CeilingReached
      ensures all[i].provider in e.fallback && all[i + 1].provider == e.fallback[all[i].provider]
    {
      if i > 0 {
        assert all[i] == s.examined[i - 1] && all[i + 1] == s.examined[i];
      }
    }
    NamesThen(here, s);
    assert pending == [pending[0]] + pending[1..];
    assert multiset(pending) == multiset{pending[0]} + multiset(rest);
    assert multiset(Names(all)) == multiset{here.provider} + multiset(Names(s.examined));
    if s.examined != [] {
      assert all[|all| - 1] == s.examined[|s.examined| - 1];
    }
  }

  lemma FirstExamined(e: Env, w: World, pending: seq<string>)
    requires pending != []
    ensures Verify(e, w, pending).examined != [] && Verify(e, w, pending).examined[0].provider == pending[0]
  {
  }

  lemma CeilingRoutes(e: Env, w: World, pending: seq<string>)
    requires pending != []
    ensures var n := ExamineFirst(e, w, pending);
            && (n.Go? && n.here.how == CeilingReached ==>
                  n.pending != [] && pending[0] in e.fallback && n.pending[0] == e.fallback[pending[0]])
            && (n.Stop? && n.here.how == CeilingReached ==> pending[0] in e.fallback ==> e.fallback[pending[0]] !in pending[1..])
  {
  }

  lemma EndRouted(e: Env, pending: seq<string>, here: Examined, s: Search)
    requires pending != [] && here.provider == pending[0] && s.examined == [here]
    requires s.outcome == ManualReview <==> here.how == CeilingReached
    requires here.how == CeilingReached && pending[0] in e.fallback ==> e.fallback[pending[0]] !in pending[1..]
    ensures Routed(e, pending, s)
  {
    assert pending == [pending[0]] + pending[1..];
    assert Names([here]) == [pending[0]];
    assert multiset(pending) - multiset([pending[0]]) == multiset(pending[1..]);
  }

  /** At a ceiling the configured fallback is next if it is still pending; if not, the claim goes to
      manual review, and it goes there for no other reason. */
  lemma {:induction false} ManualReviewExactly(e: Env, w: World, pending: seq<string>)
    ensures Routed(e, pending, Verify(e, w, pending))
    decreases |pending|
  {
    if pending == [] {
    } else {
      CeilingRoutes(e, w, pending);
      StopOutcome(e, w, pending);
      match ExamineFirst(e, w, pending)
      case Stop(w', outcome, here) =>
        EndRouted(e, pending, here, Search(w', outcome, [here]));
      case Go(w', rest, here) =>
        ManualReviewExactly(e, w', rest);
        if rest != [] {
          FirstExamined(e, w', rest);
        }
        ThenRouted(e, pending, rest, here, Verify(e, w', rest));
    }
  }

  // ----- Spend ------------------------------------------------------------------------------------

  ghost predicate MonotoneClock(e: Env) {
    forall i, j :: 0 <= i <= j ==> e.clock(i) <= e.clock(j)
  }

  ghost predicate CostsAtMost(e: Env, maxCost: real) {
    forall k: nat :: e.replies(k).Answer? && e.replies(k).cost.Some? ==> e.replies(k).cost.value <= maxCost
  }

  /** The ceiling's own invariant, for one piece of work at a time. */
  ghost predicate Within(e: Env, w: World, provider: string, pending: nat, maxCost: real)
    requires provider in e.ceilings
  {
    Held(State(w.spend, pending, e.clock(w.ticks)), provider, e.ceilings[provider], 1, maxCost)
  }

  ghost predicate Capped(e: Env, provider: string, maxCost: real) {
    MonotoneClock(e) && CostsAtMost(e, maxCost) && maxCost >= 0.0 &&
    provider in e.ceilings && e.ceilings[provider].limit > 0.0
  }

  /** Reading the clock, or anything else that records no cost, keeps the invariant. */
  lemma WithinLater(e: Env, w: World, w': World, provider: string, pending: nat, maxCost: real)
    requires Capped(e, provider, maxCost) && Within(e, w, provider, pending, maxCost)
    requires w'.spend == w.spend && w.ticks <= w'.ticks
    ensures Within(e, w', provider, pending, maxCost)
  {
    HeldLater(State(w.spend, pending, e.clock(w.ticks)), provider, e.ceilings[provider], 1, maxCost, e.clock(w'.ticks));
  }

  lemma Checked(e: Env, w: World, provider: string, maxCost: real)
    requires Capped(e, provider, maxCost) && Within(e, w, provider, 0, maxCost)
    requires !Exceeded(e.ceilings, w.spend, provider, e.clock(w.ticks))
    ensures Within(e, w.(ticks := w.ticks + 1), provider, 1, maxCost)
  {
    var st := State(w.spend, 0, e.clock(w.ticks));
    StepHeld(e.ceilings, st, provider, 1, maxCost, Check(e.clock(w.ticks)));
    WithinLater(e, w, w.(ticks := w.ticks + 1), provider, 1, maxCost);
  }

  lemma Unpended(e: Env, w: World, provider: string, maxCost: real)
    requires Capped(e, provider, maxCost) && Within(e, w, provider, 1, maxCost)
    ensures Within(e, w, provider, 0, maxCost)
  {
    StepHeld(e.ceilings, State(w.spend, 1, e.clock(w.ticks)), provider, 1, maxCost, Drop(e.clock(w.ticks)));
  }

  lemma ChargedWithin(e: Env, w: World, provider: string, maxCost: real, cost: Option<real>)
    requires Capped(e, provider, maxCost) && Within(e, w, provider, 1, maxCost)
    requires cost.Some? ==> cost.value <= maxCost
    ensures Within(e, Charged(e, w, provider, cost), provider, 0, maxCost)
  {
    if cost.None? {
      Unpended(e, w, provider, maxCost);
    } else {
      var now := e.clock(w.ticks);
      var w' := Charged(e, w, provider, cost);
      StepHeld(e.ceilings, State(w.spend, 1, now), provider, 1, maxCost, Record(cost.value, now));
      HeldLater(State(w'.spend, 0, now), provider, e.ceilings[provider], 1, maxCost, e.clock(w'.ticks));
    }
  }

  lemma PromptWithin(e: Env, w: World, provider: string, variant: Variant, maxCost: real)
    requires Capped(e, provider, maxCost) && Within(e, w, provider, 1, maxCost)
    ensures var (w', outcome) := TryPrompt(e, w, provider, variant);
            Within(e, w', provider, if outcome.Some? then 0 else 1, maxCost)
  {
    CallTwiceAtMost(e, w.calls);
    var (response, calls) := CallAndValidate(e, w.calls, 1);
    var w1 := w.(calls := calls);
    match response
    case Usable(payload, cost) =>
      var told := Told(e, w1, provider, RecordSuccess);
      WithinLater(e, w, told, provider, 1, maxCost);
      ChargedWithin(e, told, provider, maxCost, cost);
    case Declined => WithinLater(e, w, w1, provider, 1, maxCost);
    case Malformed => WithinLater(e, w, w1, provider, 1, maxCost);
    case Failed => WithinLater(e, w, Told(e, w1, provider, RecordFailure), provider, 1, maxCost);
  }

  lemma VisitWithin(e: Env, w: World, provider: string, maxCost: real)
    requires Capped(e, provider, maxCost) && Within(e, w, provider, 1, maxCost)
    ensures Within(e, Visited(e, w, provider).world, provider, 0, maxCost)
  {
    var w1 := Told(e, w, provider, AllowRequest);
    WithinLater(e, w, w1, provider, 1, maxCost);
    PromptWithin(e, w1, provider, Primary, maxCost);
    var (w2, outcome) := TryPrompt(e, w1, provider, Primary);
    if outcome.None? {
      PromptWithin(e, w2, provider, Secondary, maxCost);
      if TryPrompt(e, w2, provider, Secondary).1.None? {
        Unpended(e, TryPrompt(e, w2, provider, Secondary).0, provider, maxCost);
      }
    }
    Unpended(e, w1, provider, maxCost);
  }

  /** Visiting one provider leaves the buckets of all others alone. */
  lemma OthersUncharged(e: Env, w: World, visited: string, other: string, k: int)
    requires visited != other
    ensures var w' := Visited(e, w, visited).world;
            SpendIn(w'.spend, Bucket(other, k)) == SpendIn(w.spend, Bucket(other, k)) && w.ticks <= w'.ticks
  {
    var w1 := Told(e, w, visited, AllowRequest);
    OthersUnchargedByPrompt(e, w1, visited, Primary, other, k);
    OthersUnchargedByPrompt(e, TryPrompt(e, w1, visited, Primary).0, visited, Secondary, other, k);
  }

  lemma OthersUnchargedByPrompt(e: Env, w: World, visited: string, variant: Variant, other: string, k: int)
    requires visited != other
    ensures var w' := TryPrompt(e, w, visited, variant).0;
            SpendIn(w'.spend, Bucket(other, k)) == SpendIn(w.spend, Bucket(other, k)) && w.ticks <= w'.ticks
  {
  }

  lemma OtherWithin(e: Env, w: World, visited: string, provider: string, maxCost: real)
    requires visited != provider && Capped(e, provider, maxCost) && Within(e, w, provider, 0, maxCost)
    ensures Within(e, Visited(e, w, visited).world, provider, 0, maxCost)
  {
    var w' := Visited(e, w, visited).world;
    forall k: int ensures SpendIn(w'.spend, Bucket(provider, k)) == SpendIn(w.spend, Bucket(provider, k)) {
      OthersUncharged(e, w, visited, provider, k);
    }
    OthersUncharged(e, w, visited, provider, 0);
    assert Held(State(w'.spend, 0, e.clock(w.ticks)), provider, e.ceilings[provider], 1, maxCost);
    HeldLater(State(w'.spend, 0, e.clock(w.ticks)), provider, e.ceilings[provider], 1, maxCost, e.clock(w'.ticks));
  }

  lemma ExamineWorld(e: Env, w: World, pending: seq<string>)
    requires pending != []
    ensures var w1 := w.(ticks := w.ticks + 1);
            ExamineFirst(e, w, pending).world ==
            if Exceeded(e.ceilings, w.spend, pending[0], e.clock(w.ticks)) then w1 else Visited(e, w1, pending[0]).world
  {
  }

  lemma VisitAnyWithin(e: Env, w: World, first: string, provider: string, maxCost: real)
    requires Capped(e, provider, maxCost) && Within(e, w, provider, 0, maxCost)
    requires !Exceeded(e.ceilings, w.spend, first, e.clock(w.ticks))
    ensures Within(e, Visited(e, w.(ticks := w.ticks + 1), first).world, provider, 0, maxCost)
  {
    var w1 := w.(ticks := w.ticks + 1);
    if first == provider {
      Checked(e, w, provider, maxCost);
      VisitWithin(e, w1, provider, maxCost);
    } else {
      WithinLater(e, w, w1, provider, 0, maxCost);
      OtherWithin(e, w1, first, provider, maxCost);
    }
  }

  lemma ExamineWithin(e: Env, w: World, pending: seq<string>, provider: string, maxCost: real)
    requires pending != [] && Capped(e, provider, maxCost) && Within(e, w, provider, 0, maxCost)
    ensures Within(e, ExamineFirst(e, w, pending).world, provider, 0, maxCost)
  {
    ExamineWorld(e, w, pending);
    if Exceeded(e.ceilings, w.spend, pending[0], e.clock(w.ticks)) {
      WithinLater(e, w, w.(ticks := w.ticks + 1), provider, 0, maxCost);
    } else {
      VisitAnyWithin(e, w, pending[0], provider, maxCost);
    }
  }

  lemma {:induction false} VerifyWithin(e: Env, w: World, pending: seq<string>, provider: string, maxCost: real)
    requires Capped(e, provider, maxCost) && Within(e, w, provider, 0, maxCost)
    ensures Within(e, Verify(e, w, pending).world, provider, 0, maxCost)
    decreases |pending|
  {
    if pending == [] {
    } else {
      ExamineWithin(e, w, pending, provider, maxCost);
      var n := ExamineFirst(e, w, pending);
      if n.Go? {
        VerifyWithin(e, n.world, n.pending, provider, maxCost);
      }
    }
  }

  /** Claims verified one after the other, each with its own list of providers. */
  function VerifyAll(e: Env, claims: seq<seq<string>>): World {
    if claims == [] then World(map[], map[], 0, 0)
    else Verify(e, VerifyAll(e, claims[..|claims| - 1]), claims[|claims| - 1]).world
  }

  lemma {:induction false} AllWithin(e: Env, claims: seq<seq<string>>, provider: string, maxCost: real)
    requires Capped(e, provider, maxCost)
    ensures Within(e, VerifyAll(e, claims), provider, 0, maxCost)
  {
    if claims == [] {
      TimesMonotone(0, 1, maxCost);
    } else {
      AllWithin(e, claims[..|claims| - 1], provider, maxCost);
      VerifyWithin(e, VerifyAll(e, claims[..|claims| - 1]), claims[|claims| - 1], provider, maxCost);
    }
  }

  /** Over any sequence of claims, whatever the providers answer, the spend of a provider stays in
      every window below its limit plus the largest single cost. */
  lemma SequentialSpendBounded(e: Env, claims: seq<seq<string>>, provider: string, maxCost: real, window: int)
    requires Capped(e, provider, maxCost)
    ensures SpendIn(VerifyAll(e, claims).spend, Bucket(provider, window)) < e.ceilings[provider].limit + maxCost
  {
    AllWithin(e, claims, provider, maxCost);
    assert Times(1, maxCost) == maxCost;
  }

  // ----- Breakers ---------------------------------------------------------------------------------

  predicate IsOpen(w: World, provider: string) {
    provider in w.breakers && w.breakers[provider].phase == BreakerAlerts.Open
  }

  ghost predicate NoneUnreachable(e: Env) {
    forall k: nat :: e.replies(k) != Unreachable
  }

  /** What the last reply to a prompt does. Refused and malformed output leave breakers and spend as
      they are; a transport failure counts once, for this provider only; a valid answer is returned,
      clears the count of a breaker that is not open, and is charged to this provider only. */
  lemma PromptEffects(e: Env, w: World, provider: string, variant: Variant, other: string)
    requires other != provider
    ensures var (w', outcome) := TryPrompt(e, w, provider, variant);
            var reply := e.replies(if w'.calls == 0 then 0 else w'.calls - 1);
            var was, became := BreakerOf(w, provider, e.clock(w.ticks)), BreakerOf(w', provider, e.clock(w.ticks));
            && w'.calls > w.calls
            && (reply.Refusal? || reply.Garbled? ==> outcome == None && w'.breakers == w.breakers && w'.spend == w.spend)
            && (reply.Unreachable? ==> outcome == None && became.failureCount == was.failureCount + 1 && w'.spend == w.spend)
            && (reply.Answer? ==>
                  && outcome == Some(Verified(provider, variant, reply.payload))
                  && (was.phase != BreakerAlerts.Open ==> became.phase == BreakerAlerts.Closed && became.failureCount == 0)
                  && w'.spend == (match reply.cost
                                  case None => w.spend
                                  case Some(c) => Recorded(e.ceilings, w.spend, provider, c, e.clock(w.ticks + 1))))
            && BreakerOf(w', other, 0.0) == BreakerOf(w, other, 0.0)
            && forall k: int :: SpendIn(w'.spend, Bucket(other, k)) == SpendIn(w.spend, Bucket(other, k))
  {
    CallTwiceAtMost(e, w.calls);
    LastReply(e, w.calls);
  }

  lemma LastReply(e: Env, calls: nat)
    ensures var (response, after) := CallAndValidate(e, calls, 1);
            match e.replies(if after == 0 then 0 else after - 1)
            case Unreachable => response == Failed
            case Refusal => response == Declined
            case Garbled => response == Malformed
            case Answer(payload, cost) => response == Usable(payload, cost)
  {
    if e.replies(calls).Garbled? {
      assert CallAndValidate(e, calls, 1) == CallAndValidate(e, calls + 1, 2);
    }
  }

  /** Refusals and malformed output never trip a breaker, however many: without transport failures
      no breaker opens. */
  lemma {:induction false} OnlyTransportFailuresTrip(e: Env, w: World, pending: seq<string>, provider: string)
    requires NoneUnreachable(e) && IsOpen(Verify(e, w, pending).world, provider)
    ensures IsOpen(w, provider)
    decreases |pending|
  {
    if pending == [] {
    } else {
      var n := ExamineFirst(e, w, pending);
      if n.Go? {
        OnlyTransportFailuresTrip(e, n.world, n.pending, provider);
      }
      VisitOpens(e, w.(ticks := w.ticks + 1), pending[0], provider);
    }
  }

  lemma VisitOpens(e: Env, w: World, visited: string, provider: string)
    requires NoneUnreachable(e)
    ensures IsOpen(Visited(e, w, visited).world, provider) ==> IsOpen(w, provider)
  {
    var w1 := Told(e, w, visited, AllowRequest);
    PromptOpens(e, w1, visited, Primary, provider);
    PromptOpens(e, TryPrompt(e, w1, visited, Primary).0, visited, Secondary, provider);
  }

  lemma PromptOpens(e: Env, w: World, visited: string, variant: Variant, provider: string)
    requires NoneUnreachable(e)
    ensures IsOpen(TryPrompt(e, w, visited, variant).0, provider) ==> IsOpen(w, provider)
  {
    CallTwiceAtMost(e, w.calls);
  }
}
