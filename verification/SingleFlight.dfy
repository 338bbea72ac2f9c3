/** The asynchronous wrapper of `cached_response` (app/ai-service/services/cache.py).

    Every caller is a program counter. Each stretch of the wrapper between two suspension points
    is one atomic step, and taking `_inflight_lock` counts as a suspension point, so the model has
    every interleaving the event loop has and more. Redis is a map whose answers may fail and
    whose entries may vanish at any time. `Next` is the protocol; the class `Worker` holds the
    module-level dictionaries and updates them in place, one method for each kind of step. */
module SingleFlight {
  import opened Basics
  import opened CacheKeys

  /** A JSON-serialisable result and an exception. */
  type Value(==, !new)
  type Error(==, !new)

  /** The arguments that the decorated function depends on. */
  type Args = Inputs

  /** `norm` is `json.loads(json.dumps(_))`; a stored `null` is indistinguishable from a miss. */
  datatype Codec = Codec(norm: Value -> Value, nullValue: Value)

  /** A call is the pair of keys `_resolve_keys` computed for it. */
  type Call = Keys

  function FlightKey(c: Call): string {
    match c.content
    case Some(k) => k
    case None => c.primary
  }

  datatype Pc =
    | AtLock
    | Computing(ev: nat)
    | Storing(ev: nat, result: Value)
    | Failing(ev: nat, error: Error)
    | Waiting(ev: nat)
    | Fallback
    | Returned(value: Value)
    | Raised(error: Error)
    | UnboundLocal
  {
    predicate Owns() {
      Computing? || Storing? || Failing?
    }
  }

  datatype Caller = Caller(call: Call, pc: Pc)

  /** A scheduled `_cleanup_inflight`. The code remembers only the key; `ev` is the generation
      that scheduled it and is never consulted. */
  datatype Cleanup = Cleanup(key: string, ev: nat)

  /** A completed execution of the decorated function. */
  datatype Outcome = Succeeded(call: Call, result: Value) | Failed(call: Call, error: Error)

  /** The module-level dictionaries, the events that were set and the pending cleanup tasks. */
  datatype Tables = Tables(
    events: map<string, nat>,
    results: map<string, Value>,
    errors: map<string, Error>,
    isSet: set<nat>,
    cleanups: set<Cleanup>,
    nextEvent: nat)

  /** Read by no step: what the function did, and which flights began and were cleaned up. */
  datatype Log = Log(outcomes: set<Outcome>, begun: multiset<string>, cleaned: multiset<string>)

  datatype State = State(store: map<string, Value>, tables: Tables, callers: seq<Caller>, log: Log)

  /** Which of the (at most two) reads and two writes of a step Redis serves. */
  datatype Redis = Redis(get1: bool, get2: bool, set1: bool, set2: bool)

  datatype Step =
    | Arrive(call: Call, redis: Redis)
    | Enter(who: nat, redis: Redis)
    | FuncReturns(who: nat, result: Value, redis: Redis)
    | FuncRaises(who: nat, error: Error)
    | Publish(who: nat, redis: Redis)
    | PublishError(who: nat)
    | Resume(who: nat, redis: Redis)
    | RunCleanup(cleanup: Cleanup)
    | Lose(keys: set<string>)

  // ----- One step -----------------------------------------------------------------------

  function CacheGet(store: map<string, Value>, codec: Codec, key: string, served: bool): Option<Value> {
    if served && key in store && store[key] != codec.nullValue then Some(store[key]) else None
  }

  function CacheSet(store: map<string, Value>, codec: Codec, key: string, v: Value, served: bool): map<string, Value> {
    if served then store[key := codec.norm(v)] else store
  }

  /** The result goes under the primary key and, when there is one, under the content key. */
  function CacheBoth(store: map<string, Value>, codec: Codec, c: Call, v: Value, redis: Redis): map<string, Value> {
    var first := CacheSet(store, codec, c.primary, v, redis.set1);
    if c.content.Some? then CacheSet(first, codec, c.content.value, v, redis.set2) else first
  }

  /** A joined caller refreshes its identity key only if it travelled under a content key. */
  function Backfill(store: map<string, Value>, codec: Codec, c: Call, v: Value, redis: Redis): map<string, Value> {
    if c.content.Some? then CacheSet(store, codec, c.primary, v, redis.set1) else store
  }

  predicate Enabled(s: State, step: Step) {
    match step
    case Arrive(_, _) => true
    case Enter(i, _) => i < |s.callers| && s.callers[i].pc.AtLock?
    case FuncReturns(i, _, _) => i < |s.callers| && (s.callers[i].pc.Computing? || s.callers[i].pc.Fallback?)
    case FuncRaises(i, _) => i < |s.callers| && (s.callers[i].pc.Computing? || s.callers[i].pc.Fallback?)
    case Publish(i, _) => i < |s.callers| && s.callers[i].pc.Storing?
    case PublishError(i) => i < |s.callers| && s.callers[i].pc.Failing?
    case Resume(i, _) => i < |s.callers| && s.callers[i].pc.Waiting? && s.callers[i].pc.ev in s.tables.isSet
    case RunCleanup(c) => c in s.tables.cleanups
    case Lose(_) => true
  }

  function Begin(t: Tables, k: string): Tables {
    t.(events := t.events[k := t.nextEvent], nextEvent := t.nextEvent + 1)
  }

  function Signal(t: Tables, k: string, ev: nat): Tables {
    t.(isSet := t.isSet + {ev}, cleanups := t.cleanups + {Cleanup(k, ev)})
  }

  function RecordResult(t: Tables, k: string, ev: nat, result: Value): Tables {
    Signal(t.(results := t.results[k := result]), k, ev)
  }

  function RecordError(t: Tables, k: string, ev: nat, error: Error): Tables {
    Signal(t.(errors := t.errors[k := error]), k, ev)
  }

  function Drop(t: Tables, task: Cleanup): Tables {
    t.(events := t.events - {task.key}, results := t.results - {task.key}, errors := t.errors - {task.key},
       cleanups := t.cleanups - {task})
  }

  function Goto(callers: seq<Caller>, i: nat, pc: Pc): seq<Caller>
    requires i < |callers|
  {
    callers[i := callers[i].(pc := pc)]
  }

  function DoArrive(s: State, codec: Codec, c: Call, redis: Redis): State {
    var hit := CacheGet(s.store, codec, c.primary, redis.get1);
    if hit.Some? then
      s.(callers := s.callers + [Caller(c, Returned(hit.value))])
    else
      var alias := if c.content.Some? then CacheGet(s.store, codec, c.content.value, redis.get2) else None;
      if alias.Some? then
        s.(store := CacheSet(s.store, codec, c.primary, alias.value, redis.set1),
           callers := s.callers + [Caller(c, Returned(alias.value))])
      else
        s.(callers := s.callers + [Caller(c, AtLock)])
  }

  function DoEnter(s: State, codec: Codec, i: nat, redis: Redis): State
    requires i < |s.callers|
  {
    var c, t := s.callers[i].call, s.tables;
    var k := FlightKey(c);
    if k !in t.events then
      s.(tables := Begin(t, k), callers := Goto(s.callers, i, Computing(t.nextEvent)),
         log := s.log.(begun := s.log.begun + multiset{k}))
    else if t.events[k] !in t.isSet then
      s.(callers := Goto(s.callers, i, Waiting(t.events[k])))
    else if k in t.results then
      s.(callers := Goto(s.callers, i, Returned(t.results[k])), store := Backfill(s.store, codec, c, t.results[k], redis))
    else if k in t.errors then
      s.(callers := Goto(s.callers, i, Raised(t.errors[k])))
    else
      s.(callers := Goto(s.callers, i, UnboundLocal))
  }

  function DoFuncReturns(s: State, codec: Codec, i: nat, v: Value, redis: Redis): State
    requires Enabled(s, FuncReturns(i, v, redis))
  {
    var Caller(c, pc) := s.callers[i];
    var log := s.log.(outcomes := s.log.outcomes + {Succeeded(c, v)});
    if pc.Computing? then
      s.(callers := Goto(s.callers, i, Storing(pc.ev, v)), log := log)
    else
      s.(callers := Goto(s.callers, i, Returned(v)), log := log, store := CacheBoth(s.store, codec, c, v, redis))
  }

  function DoFuncRaises(s: State, i: nat, e: Error): State
    requires Enabled(s, FuncRaises(i, e))
  {
    var Caller(c, pc) := s.callers[i];
    s.(callers := Goto(s.callers, i, if pc.Computing? then Failing(pc.ev, e) else Raised(e)),
       log := s.log.(outcomes := s.log.outcomes + {Failed(c, e)}))
  }

  function DoPublish(s: State, codec: Codec, i: nat, redis: Redis): State
    requires Enabled(s, Publish(i, redis))
  {
    var Caller(c, pc) := s.callers[i];
    s.(tables := RecordResult(s.tables, FlightKey(c), pc.ev, pc.result),
       store := CacheBoth(s.store, codec, c, pc.result, redis),
       callers := Goto(s.callers, i, Returned(pc.result)))
  }

  function DoPublishError(s: State, i: nat): State
    requires Enabled(s, PublishError(i))
  {
    var Caller(c, pc) := s.callers[i];
    s.(tables := RecordError(s.tables, FlightKey(c), pc.ev, pc.error),
       callers := Goto(s.callers, i, Raised(pc.error)))
  }

  function DoResume(s: State, codec: Codec, i: nat, redis: Redis): State
    requires i < |s.callers|
  {
    var c, t := s.callers[i].call, s.tables;
    var k := FlightKey(c);
    if k in t.results then
      s.(callers := Goto(s.callers, i, Returned(t.results[k])), store := Backfill(s.store, codec, c, t.results[k], redis))
    else if k in t.errors then
      s.(callers := Goto(s.callers, i, Raised(t.errors[k])))
    else
      s.(callers := Goto(s.callers, i, Fallback))
  }

  function DoCleanup(s: State, task: Cleanup): State {
    s.(tables := Drop(s.tables, task),
       log := if task.key in s.tables.events then s.log.(cleaned := s.log.cleaned + multiset{task.key}) else s.log)
  }

  function Next(s: State, codec: Codec, step: Step): State
    requires Enabled(s, step)
  {
    match step
    case Arrive(c, redis) => DoArrive(s, codec, c, redis)
    case Enter(i, redis) => DoEnter(s, codec, i, redis)
    case FuncReturns(i, v, redis) => DoFuncReturns(s, codec, i, v, redis)
    case FuncRaises(i, e) => DoFuncRaises(s, i, e)
    case Publish(i, redis) => DoPublish(s, codec, i, redis)
    case PublishError(i) => DoPublishError(s, i)
    case Resume(i, redis) => DoResume(s, codec, i, redis)
    case RunCleanup(task) => DoCleanup(s, task)
    case Lose(keys) => s.(store := s.store - keys)
  }

  const INITIAL := State(map[], Tables(map[], map[], map[], {}, {}, 0), [], Log({}, multiset{}, multiset{}))

  /** `trace` is a run from the empty worker; every call in it has keys that identify its arguments. */
  ghost predicate IsRun(trace: seq<State>, steps: seq<Step>, codec: Codec, argsOf: string -> Args) {
    && |trace| == |steps| + 1
    && trace[0] == INITIAL
    && forall i :: 0 <= i < |steps| ==>
         && Enabled(trace[i], steps[i])
         && trace[i + 1] == Next(trace[i], codec, steps[i])
         && (steps[i].Arrive? ==> WellKeyed(steps[i].call, argsOf))
  }

  /** Both keys of a call determine the same arguments of the function: what the excluded tags
      and the content hash leave out of the content key, the function must not depend on. */
  predicate WellKeyed(c: Call, argsOf: string -> Args) {
    c.content.Some? ==> argsOf(c.content.value) == argsOf(c.primary)
  }

  ghost predicate IdempotentCodec(codec: Codec) {
    forall v :: codec.norm(codec.norm(v)) == codec.norm(v)
  }

  // ----- The worker ---------------------------------------------------------------------

  class Worker {
    const codec: Codec
    var store: map<string, Value>
    var inflightComputations: map<string, nat>
    var setEvents: set<nat>
    var inflightResults: map<string, Value>
    var inflightErrors: map<string, Error>
    var cleanupTasks: set<Cleanup>
    var callers: seq<Caller>
    var nextEvent: nat
    ghost var outcomes: set<Outcome>
    ghost var begun: multiset<string>
    ghost var cleaned: multiset<string>

    ghost function Snapshot(): State
      reads this
    {
      State(store,
            Tables(inflightComputations, inflightResults, inflightErrors, setEvents, cleanupTasks, nextEvent),
            callers, Log(outcomes, begun, cleaned))
    }

    constructor (codec: Codec)
      ensures this.codec == codec && Snapshot() == INITIAL
    {
      this.codec := codec;
      store, inflightComputations, inflightResults, inflightErrors := map[], map[], map[], map[];
      setEvents, cleanupTasks, callers, nextEvent := {}, {}, [], 0;
      outcomes, begun, cleaned := {}, multiset{}, multiset{};
    }

    method MoveTo(i: nat, pc: Pc)
      requires i < |callers|
      modifies this`callers
      ensures callers == Goto(old(callers), i, pc)
    {
      callers := callers[i := callers[i].(pc := pc)];
    }

    method Get(key: string, served: bool) returns (v: Option<Value>)
      ensures v == CacheGet(store, codec, key, served)
    {
      if !served || key !in store || store[key] == codec.nullValue {
        return None;
      }
      return Some(store[key]);
    }

    method Set(key: string, v: Value, served: bool)
      modifies this`store
      ensures store == CacheSet(old(store), codec, key, v, served)
    {
      if served {
        store := store[key := codec.norm(v)];
      }
    }

    /** A value goes under the primary key and, where there is one, under the content key. */
    method SetBoth(c: Call, v: Value, redis: Redis)
      modifies this`store
      ensures store == CacheBoth(old(store), codec, c, v, redis)
    {
      Set(c.primary, v, redis.set1);
      if c.content.Some? {
        Set(c.content.value, v, redis.set2);
      }
    }

    /** A caller takes the outcome recorded for its flight, or goes elsewhere if there is none. */
    method Settle(i: nat, otherwise: Pc, redis: Redis)
      requires i < |callers|
      modifies this`callers, this`store
      ensures var c := old(callers[i].call);
              var k := FlightKey(c);
              && callers == Goto(old(callers), i,
                   if k in inflightResults then Returned(inflightResults[k])
                   else if k in inflightErrors then Raised(inflightErrors[k]) else otherwise)
              && store == (if k in inflightResults then Backfill(old(store), codec, c, inflightResults[k], redis)
                           else old(store))
    {
      var c := callers[i].call;
      var flightKey := FlightKey(c);
      if flightKey in inflightResults {
        var result := inflightResults[flightKey];
        if c.content.Some? {
          Set(c.primary, result, redis.set1);
        }
        MoveTo(i, Returned(result));
      } else if flightKey in inflightErrors {
        MoveTo(i, Raised(inflightErrors[flightKey]));
      } else {
        MoveTo(i, otherwise);
      }
    }

    method Arrive(c: Call, redis: Redis)
      modifies this
      ensures Snapshot() == Next(old(Snapshot()), codec, Step.Arrive(c, redis))
    {
      var cached := Get(c.primary, redis.get1);
      if cached.Some? {
        callers := callers + [Caller(c, Returned(cached.value))];
        return;
      }
      if c.content.Some? {
        var contentValue := Get(c.content.value, redis.get2);
        if contentValue.Some? {
          Set(c.primary, contentValue.value, redis.set1);
          callers := callers + [Caller(c, Returned(contentValue.value))];
          return;
        }
      }
      callers := callers + [Caller(c, AtLock)];
    }

    method Enter(i: nat, redis: Redis)
      requires Enabled(Snapshot(), Step.Enter(i, redis))
      modifies this
      ensures Snapshot() == Next(old(Snapshot()), codec, Step.Enter(i, redis))
    {
      var c := callers[i].call;
      var flightKey := FlightKey(c);
      if flightKey in inflightComputations {
        var ev := inflightComputations[flightKey];
        if ev in setEvents {
          Settle(i, UnboundLocal, redis);
        } else {
          MoveTo(i, Waiting(ev));
        }
      } else {
        inflightComputations := inflightComputations[flightKey := nextEvent];
        begun := begun + multiset{flightKey};
        MoveTo(i, Computing(nextEvent));
        nextEvent := nextEvent + 1;
      }
    }

    method FuncReturns(i: nat, v: Value, redis: Redis)
      requires Enabled(Snapshot(), Step.FuncReturns(i, v, redis))
      modifies this
      ensures Snapshot() == Next(old(Snapshot()), codec, Step.FuncReturns(i, v, redis))
    {
      var c := callers[i].call;
      outcomes := outcomes + {Succeeded(c, v)};
      if callers[i].pc.Computing? {
        MoveTo(i, Storing(callers[i].pc.ev, v));
      } else {
        SetBoth(c, v, redis);
        MoveTo(i, Returned(v));
      }
    }

    method FuncRaises(i: nat, e: Error)
      requires Enabled(Snapshot(), Step.FuncRaises(i, e))
      modifies this
      ensures Snapshot() == Next(old(Snapshot()), codec, Step.FuncRaises(i, e))
    {
      outcomes := outcomes + {Failed(callers[i].call, e)};
      MoveTo(i, if callers[i].pc.Computing? then Failing(callers[i].pc.ev, e) else Raised(e));
    }

    method Publish(i: nat, redis: Redis)
      requires Enabled(Snapshot(), Step.Publish(i, redis))
      modifies this
      ensures Snapshot() == Next(old(Snapshot()), codec, Step.Publish(i, redis))
    {
      var Caller(c, pc) := callers[i];
      var flightKey := FlightKey(c);
      inflightResults := inflightResults[flightKey := pc.result];
      SetBoth(c, pc.result, redis);
      setEvents := setEvents + {pc.ev};
      cleanupTasks := cleanupTasks + {Cleanup(flightKey, pc.ev)};
      MoveTo(i, Returned(pc.result));
    }

    method PublishError(i: nat)
      requires Enabled(Snapshot(), Step.PublishError(i))
      modifies this
      ensures Snapshot() == Next(old(Snapshot()), codec, Step.PublishError(i))
    {
      var Caller(c, pc) := callers[i];
      var flightKey := FlightKey(c);
      inflightErrors := inflightErrors[flightKey := pc.error];
      setEvents := setEvents + {pc.ev};
      cleanupTasks := cleanupTasks + {Cleanup(flightKey, pc.ev)};
      MoveTo(i, Raised(pc.error));
    }

    method Resume(i: nat, redis: Redis)
      requires Enabled(Snapshot(), Step.Resume(i, redis))
      modifies this
      ensures Snapshot() == Next(old(Snapshot()), codec, Step.Resume(i, redis))
    {
      Settle(i, Fallback, redis);
    }

    method RunCleanup(task: Cleanup)
      requires Enabled(Snapshot(), Step.RunCleanup(task))
      modifies this
      ensures Snapshot() == Next(old(Snapshot()), codec, Step.RunCleanup(task))
    {
      if task.key in inflightComputations {
        cleaned := cleaned + multiset{task.key};
      }
      inflightComputations := inflightComputations - {task.key};
      inflightResults := inflightResults - {task.key};
      inflightErrors := inflightErrors - {task.key};
      cleanupTasks := cleanupTasks - {task};
    }
  }
}
