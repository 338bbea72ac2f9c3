/** Spend per provider and window (app/ai-service/services/provider_cost_ceiling.py), as one process
    tracks it without Redis. */
module CostCeiling {
  /** `seconds` is 3600 for an hourly and 86400 for a daily window. */
  datatype Ceiling = Ceiling(seconds: int, limit: real) {
    predicate Valid() {
      seconds == 3600 || seconds == 86400
    }
  }

  type Ceilings = c: map<string, Ceiling> | forall p :: p in c ==> c[p].Valid() witness map[]

  datatype Bucket = Bucket(provider: string, number: int)

  type Spend = map<Bucket, real>

  /** Truncation toward zero, as Python's `int` does it. */
  function IntOf(x: real): int {
    if x >= 0.0 then x.Floor else -((-x).Floor)
  }

  function BucketOf(provider: string, c: Ceiling, now: real): Bucket
    requires c.Valid()
  {
    Bucket(provider, IntOf(now) / c.seconds)
  }

  function SpendIn(spend: Spend, b: Bucket): real {
    if b in spend then spend[b] else 0.0
  }

  predicate Exceeded(cs: Ceilings, spend: Spend, provider: string, now: real) {
    provider in cs && SpendIn(spend, BucketOf(provider, cs[provider], now)) >= cs[provider].limit
  }

  function Recorded(cs: Ceilings, spend: Spend, provider: string, cost: real, now: real): Spend {
    if provider !in cs || cost <= 0.0 then spend
    else
      var b := BucketOf(provider, cs[provider], now);
      spend[b := SpendIn(spend, b) + cost]
  }

  /** The one bucket a cost is added to: that of its provider and window, if the provider has a ceiling. */
  predicate GoesTo(cs: Ceilings, provider: string, cost: real, now: real, b: Bucket) {
    && provider in cs && cost > 0.0
    && b.provider == provider && b.number == IntOf(now) / cs[provider].seconds
  }

  class ProviderCostCeiling {
    const ceilings: Ceilings
    var localSpend: Spend

    constructor (ceilings: Ceilings)
      ensures this.ceilings == ceilings && localSpend == map[]
    {
      this.ceilings := ceilings;
      localSpend := map[];
    }

    method IsExceeded(provider: string, now: real) returns (exceeded: bool)
      ensures exceeded == Exceeded(ceilings, localSpend, provider, now)
    {
      if provider !in ceilings {
        return false;
      }
      var bucket := BucketOf(provider, ceilings[provider], now);
      return SpendIn(localSpend, bucket) >= ceilings[provider].limit;
    }

    method RecordSpend(provider: string, cost: real, now: real)
      modifies this
      ensures localSpend == Recorded(ceilings, old(localSpend), provider, cost, now)
      ensures forall b :: SpendIn(localSpend, b) == SpendIn(old(localSpend), b) +
                          if GoesTo(ceilings, provider, cost, now, b) then cost else 0.0
      ensures localSpend.Keys == old(localSpend.Keys) + set b | b in localSpend && GoesTo(ceilings, provider, cost, now, b)
    {
      if provider !in ceilings || cost <= 0.0 {
        return;
      }
      var bucket := BucketOf(provider, ceilings[provider], now);
      var spend := SpendIn(localSpend, bucket) + cost;
      localSpend := localSpend[bucket := spend];
    }
  }

  // ----- Concurrent runs --------------------------------------------------------------------

  /** Work on one provider: a check that passes starts some, which ends with or without a cost. */
  datatype Op = Check(now: real) | Record(cost: real, now: real) | Drop(now: real)

  /** `pending` pieces of work have passed the check and not ended. */
  datatype State = State(spend: Spend, pending: nat, time: real)

  predicate Legal(cs: Ceilings, st: State, provider: string, n: nat, maxCost: real, op: Op) {
    && st.time <= op.now
    && (op.Check? ==> st.pending < n)
    && (op.Record? ==> st.pending > 0 && op.cost <= maxCost)
    && (op.Drop? ==> st.pending > 0)
  }

  function Step(cs: Ceilings, st: State, provider: string, op: Op): State {
    match op
    case Check(now) =>
      State(st.spend, if Exceeded(cs, st.spend, provider, now) then st.pending else st.pending + 1, now)
    case Record(cost, now) =>
      State(Recorded(cs, st.spend, provider, cost, now), if st.pending == 0 then 0 else st.pending - 1, now)
    case Drop(now) =>
      State(st.spend, if st.pending == 0 then 0 else st.pending - 1, now)
  }

  function Run(cs: Ceilings, provider: string, start: real, ops: seq<Op>): State {
    if ops == [] then State(map[], 0, start)
    else Step(cs, Run(cs, provider, start, ops[..|ops| - 1]), provider, ops[|ops| - 1])
  }

  /** At most `n` at a time, none recording more than `maxCost`, and a clock that never goes back. */
  predicate IsRun(cs: Ceilings, provider: string, start: real, n: nat, maxCost: real, ops: seq<Op>) {
    ops == [] ||
    (IsRun(cs, provider, start, n, maxCost, ops[..|ops| - 1]) &&
     Legal(cs, Run(cs, provider, start, ops[..|ops| - 1]), provider, n, maxCost, ops[|ops| - 1]))
  }

  // ----- The bound --------------------------------------------------------------------------

  lemma LaterBucket(p: string, c: Ceiling, a: real, b: real)
    requires c.Valid() && a <= b
    ensures BucketOf(p, c, a).number <= BucketOf(p, c, b).number
  {
    assert IntOf(a) <= IntOf(b);
  }

  function Times(n: nat, x: real): real {
    n as real * x
  }

  lemma TimesMore(n: nat, x: real)
    ensures Times(n + 1, x) == Times(n, x) + x
  {
  }

  lemma TimesMonotone(m: nat, n: nat, x: real)
    requires m <= n && x >= 0.0
    ensures Times(m, x) <= Times(n, x)
  {
    assert Times(n, x) - Times(m, x) == (n - m) as real * x;
  }

  /** No window exceeds the bound, none yet to come has any spend, and the one at hand leaves room
      for the work in progress. */
  ghost predicate Held(st: State, provider: string, c: Ceiling, n: nat, maxCost: real)
    requires c.Valid()
  {
    var current := BucketOf(provider, c, st.time);
    && st.pending <= n
    && (forall k: int :: SpendIn(st.spend, Bucket(provider, k)) < c.limit + Times(n, maxCost))
    && (forall k: int :: k > current.number ==> SpendIn(st.spend, Bucket(provider, k)) == 0.0)
    && SpendIn(st.spend, current) + Times(st.pending, maxCost) < c.limit + Times(n, maxCost)
  }

  lemma HeldLater(st: State, provider: string, c: Ceiling, n: nat, maxCost: real, now: real)
    requires c.Valid() && c.limit > 0.0 && maxCost >= 0.0 && st.time <= now
    requires Held(st, provider, c, n, maxCost)
    ensures Held(st.(time := now), provider, c, n, maxCost)
  {
    LaterBucket(provider, c, st.time, now);
    TimesMonotone(st.pending, n, maxCost);
  }

  lemma StepHeld(cs: Ceilings, st: State, provider: string, n: nat, maxCost: real, op: Op)
    requires provider in cs && cs[provider].limit > 0.0 && maxCost >= 0.0
    requires Held(st, provider, cs[provider], n, maxCost) && Legal(cs, st, provider, n, maxCost, op)
    ensures Held(Step(cs, st, provider, op), provider, cs[provider], n, maxCost)
  {
    var c := cs[provider];
    HeldLater(st, provider, c, n, maxCost, op.now);
    var now := st.(time := op.now);
    match op
    case Check(_) =>
      TimesMonotone(now.pending + 1, n, maxCost);
    case Record(_, _) =>
      TimesMore(now.pending - 1, maxCost);
      TimesMonotone(0, now.pending - 1, maxCost);
    case Drop(_) =>
      TimesMore(now.pending - 1, maxCost);
  }

  lemma {:induction false} RunHeld(cs: Ceilings, provider: string, start: real, n: nat, maxCost: real, ops: seq<Op>)
    requires provider in cs && cs[provider].limit > 0.0 && maxCost >= 0.0
    requires IsRun(cs, provider, start, n, maxCost, ops)
    ensures Held(Run(cs, provider, start, ops), provider, cs[provider], n, maxCost)
  {
    if ops == [] {
      TimesMonotone(0, n, maxCost);
    } else {
      RunHeld(cs, provider, start, n, maxCost, ops[..|ops| - 1]);
      StepHeld(cs, Run(cs, provider, start, ops[..|ops| - 1]), provider, n, maxCost, ops[|ops| - 1]);
    }
  }

  /** With at most `n` pieces of work at a time, the spend in any window stays below the limit plus
      `n` times the largest single cost, also when work passes the check in one window and records
      in a later one. For sequential work that is the limit plus one cost. */
  lemma SpendBounded(cs: Ceilings, provider: string, start: real, n: nat, maxCost: real, ops: seq<Op>, window: int)
    requires provider in cs && cs[provider].limit > 0.0 && maxCost >= 0.0
    requires IsRun(cs, provider, start, n, maxCost, ops)
    ensures SpendIn(Run(cs, provider, start, ops).spend, Bucket(provider, window)) < cs[provider].limit + n as real * maxCost
  {
    RunHeld(cs, provider, start, n, maxCost, ops);
  }

  /** Without a positive limit no check passes, so nothing is ever spent. */
  lemma {:induction false} NonPositiveLimitSpendsNothing(
    cs: Ceilings, provider: string, start: real, n: nat, maxCost: real, ops: seq<Op>)
    requires provider in cs && cs[provider].limit <= 0.0
    requires IsRun(cs, provider, start, n, maxCost, ops)
    ensures Run(cs, provider, start, ops).spend == map[] && Run(cs, provider, start, ops).pending == 0
  {
    if ops == [] {
    } else {
      NonPositiveLimitSpendsNothing(cs, provider, start, n, maxCost, ops[..|ops| - 1]);
    }
  }

  /** The positive costs recorded while a window lasted. */
  function CostsWithin(cs: Ceilings, provider: string, ops: seq<Op>, window: int): real
    requires provider in cs
  {
    if ops == [] then 0.0
    else
      var op := ops[|ops| - 1];
      CostsWithin(cs, provider, ops[..|ops| - 1], window) +
      (if op.Record? && op.cost > 0.0 && IntOf(op.now) / cs[provider].seconds == window then op.cost else 0.0)
  }

  /** What a bucket holds is the sum of the costs recorded in its window, each counted once. */
  lemma {:induction false} SpendIsCosts(cs: Ceilings, provider: string, start: real, ops: seq<Op>, window: int)
    requires provider in cs
    ensures SpendIn(Run(cs, provider, start, ops).spend, Bucket(provider, window)) == CostsWithin(cs, provider, ops, window)
  {
    if ops == [] {
    } else {
      SpendIsCosts(cs, provider, start, ops[..|ops| - 1], window);
    }
  }

  /** So a check fails exactly when the costs recorded in its window have reached the limit. */
  lemma ExceededExactly(cs: Ceilings, provider: string, start: real, ops: seq<Op>, now: real)
    ensures Exceeded(cs, Run(cs, provider, start, ops).spend, provider, now) <==>
            provider in cs && CostsWithin(cs, provider, ops, IntOf(now) / cs[provider].seconds) >= cs[provider].limit
  {
    if provider in cs {
      SpendIsCosts(cs, provider, start, ops, IntOf(now) / cs[provider].seconds);
    }
  }
}
