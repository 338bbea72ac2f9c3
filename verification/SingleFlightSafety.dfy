/** What every interleaving of the single-flight cache keeps, and what its callers may rely on. */
module SingleFlightSafety {
  import opened SingleFlight

  // ----- The tables ---------------------------------------------------------------------

  predicate Unfinished(t: Tables, k: string) {
    k in t.events && t.events[k] !in t.isSet
  }

  predicate Finished(t: Tables, k: string) {
    k in t.events && t.events[k] in t.isSet
  }

  predicate HasOutcome(t: Tables, k: string) {
    k in t.results || k in t.errors
  }

  /** Events are distinct objects; a key has a recorded outcome exactly when its event is set, and
      then its own cleanup is pending; a pending cleanup always belongs to the current generation. */
  ghost predicate Coherent(t: Tables) {
    && (forall k :: k in t.events ==> t.events[k] < t.nextEvent)
    && (forall e :: e in t.isSet ==> e < t.nextEvent)
    && (forall k, l :: k in t.events && l in t.events && k != l ==> t.events[k] != t.events[l])
    && (forall k :: HasOutcome(t, k) <==> Finished(t, k))
    && (forall k :: Finished(t, k) ==> Cleanup(k, t.events[k]) in t.cleanups)
    && (forall c :: c in t.cleanups ==> Finished(t, c.key) && t.events[c.key] == c.ev)
  }

  lemma BeginCoherent(t: Tables, k: string)
    requires Coherent(t) && k !in t.events
    ensures Coherent(Begin(t, k))
  {
    var t' := Begin(t, k);
    forall l ensures HasOutcome(t', l) <==> Finished(t', l) {
      assert HasOutcome(t, l) <==> Finished(t, l);
    }
    forall l | Finished(t', l) ensures Cleanup(l, t'.events[l]) in t'.cleanups {
      assert Finished(t, l);
    }
    forall c | c in t'.cleanups ensures Finished(t', c.key) && t'.events[c.key] == c.ev {
      assert Finished(t, c.key);
    }
  }

  lemma SignalCoherent(t: Tables, t': Tables, k: string, ev: nat)
    requires Coherent(t) && Unfinished(t, k) && t.events[k] == ev
    requires (exists v :: t' == RecordResult(t, k, ev, v)) || (exists e :: t' == RecordError(t, k, ev, e))
    ensures Coherent(t')
  {
    forall l ensures HasOutcome(t', l) <==> Finished(t', l) {
      assert HasOutcome(t, l) <==> Finished(t, l);
    }
    forall l | Finished(t', l) ensures Cleanup(l, t'.events[l]) in t'.cleanups {
      assert l != k ==> Finished(t, l);
    }
    forall c | c in t'.cleanups ensures Finished(t', c.key) && t'.events[c.key] == c.ev {
      assert c in t.cleanups ==> Finished(t, c.key);
    }
  }

  lemma DropCoherent(t: Tables, task: Cleanup)
    requires Coherent(t) && task in t.cleanups
    ensures Coherent(Drop(t, task))
  {
    var t' := Drop(t, task);
    assert Finished(t, task.key);
    forall l ensures HasOutcome(t', l) <==> Finished(t', l) {
      assert HasOutcome(t, l) <==> Finished(t, l);
    }
    forall l | Finished(t', l) ensures Cleanup(l, t'.events[l]) in t'.cleanups {
      assert Finished(t, l);
    }
    forall c | c in t'.cleanups ensures Finished(t', c.key) && t'.events[c.key] == c.ev {
      assert Finished(t, c.key);
      assert c.key != task.key;
    }
  }

  // ----- Tables and callers -------------------------------------------------------------

  predicate Owns(callers: seq<Caller>, i: int, k: string, ev: nat) {
    0 <= i < |callers| && callers[i].pc.Owns() && FlightKey(callers[i].call) == k && callers[i].pc.ev == ev
  }

  /** An unset event has an owner; every owner owns the unset event of its key, and no other
      caller owns the same key. */
  ghost predicate Staffed(t: Tables, callers: seq<Caller>) {
    && (forall k :: Unfinished(t, k) ==> exists i :: Owns(callers, i, k, t.events[k]))
    && (forall i :: 0 <= i < |callers| && callers[i].pc.Owns() ==> OwnsCurrent(t, callers[i]))
    && (forall i, j :: 0 <= i < j < |callers| && callers[i].pc.Owns() && callers[j].pc.Owns() ==>
          FlightKey(callers[i].call) != FlightKey(callers[j].call))
  }

  predicate OwnsCurrent(t: Tables, c: Caller)
    requires c.pc.Owns()
  {
    Unfinished(t, FlightKey(c.call)) && t.events[FlightKey(c.call)] == c.pc.ev
  }

  /** A waiter's event is set or is the current event of its key; nobody met an unassigned
      `is_computing`. */
  ghost predicate Waited(t: Tables, callers: seq<Caller>) {
    forall i :: 0 <= i < |callers| ==>
      && !callers[i].pc.UnboundLocal?
      && (callers[i].pc.Waiting? ==> WaitsOn(t, FlightKey(callers[i].call), callers[i].pc.ev))
  }

  predicate WaitsOn(t: Tables, k: string, ev: nat) {
    ev in t.isSet || (k in t.events && t.events[k] == ev)
  }

  ghost predicate Flights(s: State) {
    && Coherent(s.tables)
    && Staffed(s.tables, s.callers)
    && Waited(s.tables, s.callers)
    && Counted(s.log, s.tables.events.Keys)
  }

  /** Every flight begun has been cleaned up or is in the table. */
  ghost predicate Counted(log: Log, keys: set<string>) {
    log.begun == log.cleaned + multiset(keys)
  }

  /** Moves that leave owners as they are: the rest of the invariant does not notice them. */
  lemma StaffedSame(t: Tables, callers: seq<Caller>, callers': seq<Caller>)
    requires Staffed(t, callers) && |callers| <= |callers'|
    requires forall j :: 0 <= j < |callers| ==> SameOwner(callers[j], callers'[j])
    requires forall j :: |callers| <= j < |callers'| ==> !callers'[j].pc.Owns()
    ensures Staffed(t, callers')
  {
    forall k | Unfinished(t, k) ensures exists i :: Owns(callers', i, k, t.events[k]) {
      var i :| Owns(callers, i, k, t.events[k]);
      assert SameOwner(callers[i], callers'[i]);
      assert Owns(callers', i, k, t.events[k]);
    }
    forall i | 0 <= i < |callers'| && callers'[i].pc.Owns() ensures OwnsCurrent(t, callers'[i]) {
      assert SameOwner(callers[i], callers'[i]);
    }
    forall i, j | 0 <= i < j < |callers'| && callers'[i].pc.Owns() && callers'[j].pc.Owns()
      ensures FlightKey(callers'[i].call) != FlightKey(callers'[j].call)
    {
      assert SameOwner(callers[i], callers'[i]) && SameOwner(callers[j], callers'[j]);
    }
  }

  predicate SameOwner(c: Caller, c': Caller) {
    && c.call == c'.call
    && c.pc.Owns() == c'.pc.Owns()
    && (c.pc.Owns() ==> c.pc.ev == c'.pc.ev)
  }

  lemma BeginStaffed(t: Tables, callers: seq<Caller>, i: nat)
    requires Coherent(t) && Staffed(t, callers)
    requires i < |callers| && callers[i].pc.AtLock? && FlightKey(callers[i].call) !in t.events
    ensures Staffed(Begin(t, FlightKey(callers[i].call)), Goto(callers, i, Computing(t.nextEvent)))
  {
    var key := FlightKey(callers[i].call);
    var t', callers' := Begin(t, key), Goto(callers, i, Computing(t.nextEvent));
    forall k | Unfinished(t', k) ensures exists j :: Owns(callers', j, k, t'.events[k]) {
      if k == key {
        assert Owns(callers', i, k, t'.events[k]);
      } else {
        assert Unfinished(t, k);
        var j :| Owns(callers, j, k, t.events[k]);
        assert Owns(callers', j, k, t'.events[k]);
      }
    }
    forall j | 0 <= j < |callers| && j != i && callers[j].pc.Owns()
      ensures OwnsCurrent(t', callers'[j]) && FlightKey(callers[j].call) != key
    {
      assert OwnsCurrent(t, callers[j]);
    }
  }

  /** The only owner of a key leaves when it signals. */
  lemma SignalStaffed(t: Tables, t': Tables, callers: seq<Caller>, i: nat, pc: Pc)
    requires Coherent(t) && Staffed(t, callers)
    requires i < |callers| && callers[i].pc.Owns() && !pc.Owns()
    requires t'.events == t.events && t'.isSet == t.isSet + {callers[i].pc.ev}
    ensures Staffed(t', Goto(callers, i, pc))
  {
    var callers' := Goto(callers, i, pc);
    assert OwnsCurrent(t, callers[i]);
    forall k | Unfinished(t', k) ensures exists j :: Owns(callers', j, k, t'.events[k]) {
      assert Unfinished(t, k);
      var j :| Owns(callers, j, k, t.events[k]);
      assert Owns(callers', j, k, t'.events[k]);
    }
    forall j | 0 <= j < |callers'| && callers'[j].pc.Owns() ensures OwnsCurrent(t', callers'[j]) {
      assert OwnsCurrent(t, callers[j]);
      assert FlightKey(callers[j].call) != FlightKey(callers[i].call);
    }
  }

  lemma DropStaffed(t: Tables, callers: seq<Caller>, task: Cleanup)
    requires Coherent(t) && Staffed(t, callers) && task in t.cleanups
    ensures Staffed(Drop(t, task), callers)
  {
    var t' := Drop(t, task);
    assert Finished(t, task.key);
    forall k | Unfinished(t', k) ensures exists j :: Owns(callers, j, k, t'.events[k]) {
      assert Unfinished(t, k);
    }
    forall j | 0 <= j < |callers| && callers[j].pc.Owns() ensures OwnsCurrent(t', callers[j]) {
      assert OwnsCurrent(t, callers[j]);
    }
  }

  lemma WaitedSame(t: Tables, t': Tables, callers: seq<Caller>, i: nat, pc: Pc)
    requires Waited(t, callers) && i < |callers| && !pc.UnboundLocal?
    requires forall k, ev :: WaitsOn(t, k, ev) ==> WaitsOn(t', k, ev)
    requires pc.Waiting? ==> WaitsOn(t', FlightKey(callers[i].call), pc.ev)
    ensures Waited(t', Goto(callers, i, pc))
  {
  }

  lemma DropWaited(t: Tables, callers: seq<Caller>, task: Cleanup)
    requires Waited(t, callers) && Finished(t, task.key)
    ensures Waited(Drop(t, task), callers)
  {
    var t' := Drop(t, task);
    forall i | 0 <= i < |callers| && callers[i].pc.Waiting?
      ensures WaitsOn(t', FlightKey(callers[i].call), callers[i].pc.ev)
    {
      assert WaitsOn(t, FlightKey(callers[i].call), callers[i].pc.ev);
    }
  }

  // ----- Every step keeps the invariant -------------------------------------------------

  lemma ArriveKeeps(s: State, codec: Codec, c: Call, redis: Redis)
    requires Flights(s)
    ensures Flights(DoArrive(s, codec, c, redis))
  {
    StaffedSame(s.tables, s.callers, DoArrive(s, codec, c, redis).callers);
  }

  lemma BeginCounted(log: Log, events: map<string, nat>, key: string, ev: nat)
    requires Counted(log, events.Keys) && key !in events
    ensures Counted(log.(begun := log.begun + multiset{key}), events[key := ev].Keys)
  {
    OneMore(events.Keys, key);
    assert events[key := ev].Keys == events.Keys + {key};
  }

  lemma DropCounted(log: Log, events: map<string, nat>, key: string)
    requires Counted(log, events.Keys) && key in events
    ensures Counted(log.(cleaned := log.cleaned + multiset{key}), (events - {key}).Keys)
  {
    var keys := (events - {key}).Keys;
    OneMore(keys, key);
    assert events.Keys == keys + {key};
  }

  lemma OneMore(keys: set<string>, k: string)
    requires k !in keys
    ensures multiset(keys + {k}) == multiset(keys) + multiset{k}
  {
  }

  lemma BeginKeeps(s: State, codec: Codec, i: nat, redis: Redis)
    requires Flights(s) && Enabled(s, Enter(i, redis)) && FlightKey(s.callers[i].call) !in s.tables.events
    ensures Flights(DoEnter(s, codec, i, redis))
  {
    var t, key := s.tables, FlightKey(s.callers[i].call);
    BeginCoherent(t, key);
    BeginStaffed(t, s.callers, i);
    WaitedSame(t, Begin(t, key), s.callers, i, Computing(t.nextEvent));
    BeginCounted(s.log, t.events, key, t.nextEvent);
  }

  lemma JoinKeeps(s: State, codec: Codec, i: nat, redis: Redis)
    requires Flights(s) && Enabled(s, Enter(i, redis)) && FlightKey(s.callers[i].call) in s.tables.events
    ensures Flights(DoEnter(s, codec, i, redis))
  {
    var t, callers' := s.tables, DoEnter(s, codec, i, redis).callers;
    var key := FlightKey(s.callers[i].call);
    assert HasOutcome(t, key) <==> Finished(t, key);
    assert callers' == Goto(s.callers, i, callers'[i].pc);
    WaitedSame(t, t, s.callers, i, callers'[i].pc);
    StaffedSame(t, s.callers, callers');
  }

  lemma FunctionEndsKeeps(s: State, codec: Codec, step: Step)
    requires Flights(s) && Enabled(s, step) && (step.FuncReturns? || step.FuncRaises?)
    ensures Flights(Next(s, codec, step))
  {
    var s' := Next(s, codec, step);
    WaitedSame(s.tables, s.tables, s.callers, step.who, s'.callers[step.who].pc);
    StaffedSame(s.tables, s.callers, s'.callers);
  }

  lemma PublishKeeps(s: State, codec: Codec, step: Step)
    requires Flights(s) && Enabled(s, step) && (step.Publish? || step.PublishError?)
    ensures Flights(Next(s, codec, step))
  {
    var s' := Next(s, codec, step);
    var i := step.who;
    var Caller(c, pc) := s.callers[i];
    assert OwnsCurrent(s.tables, s.callers[i]);
    assert s'.tables == if pc.Storing? then RecordResult(s.tables, FlightKey(c), pc.ev, pc.result)
                        else RecordError(s.tables, FlightKey(c), pc.ev, pc.error);
    SignalCoherent(s.tables, s'.tables, FlightKey(c), pc.ev);
    SignalStaffed(s.tables, s'.tables, s.callers, i, s'.callers[i].pc);
    WaitedSame(s.tables, s'.tables, s.callers, i, s'.callers[i].pc);
  }

  lemma ResumeKeeps(s: State, codec: Codec, i: nat, redis: Redis)
    requires Flights(s) && Enabled(s, Resume(i, redis))
    ensures Flights(DoResume(s, codec, i, redis))
  {
    var s' := DoResume(s, codec, i, redis);
    WaitedSame(s.tables, s.tables, s.callers, i, s'.callers[i].pc);
    StaffedSame(s.tables, s.callers, s'.callers);
  }

  lemma CleanupKeeps(s: State, task: Cleanup)
    requires Flights(s) && task in s.tables.cleanups
    ensures Flights(DoCleanup(s, task))
  {
    var t' := Drop(s.tables, task);
    assert Finished(s.tables, task.key);
    DropCoherent(s.tables, task);
    DropStaffed(s.tables, s.callers, task);
    DropWaited(s.tables, s.callers, task);
    DropCounted(s.log, s.tables.events, task.key);
  }

  lemma StepKeeps(s: State, codec: Codec, step: Step)
    requires Flights(s) && Enabled(s, step)
    ensures Flights(Next(s, codec, step))
  {
    match step
    case Arrive(c, redis) => ArriveKeeps(s, codec, c, redis);
    case Enter(i, redis) =>
      if FlightKey(s.callers[i].call) in s.tables.events {
        JoinKeeps(s, codec, i, redis);
      } else {
        BeginKeeps(s, codec, i, redis);
      }
    case FuncReturns(_, _, _) => FunctionEndsKeeps(s, codec, step);
    case FuncRaises(_, _) => FunctionEndsKeeps(s, codec, step);
    case Publish(_, _) => PublishKeeps(s, codec, step);
    case PublishError(_) => PublishKeeps(s, codec, step);
    case Resume(i, redis) => ResumeKeeps(s, codec, i, redis);
    case RunCleanup(task) => CleanupKeeps(s, task);
    case Lose(_) =>
  }

  lemma {:induction false} RunKeeps(trace: seq<State>, steps: seq<Step>, codec: Codec, argsOf: string -> Args, n: nat)
    requires IsRun(trace, steps, codec, argsOf) && n < |trace|
    ensures Flights(trace[n])
  {
    if n == 0 {
      assert multiset(INITIAL.tables.events.Keys) == multiset{};
    } else {
      RunKeeps(trace, steps, codec, argsOf, n - 1);
      StepKeeps(trace[n - 1], codec, steps[n - 1]);
    }
  }

  // ----- What it gives ------------------------------------------------------------------

  /** At every moment of every run an unset event has exactly one owner, so concurrent misses of
      one flight key cost one execution of the function. */
  lemma ExactlyOneOwner(trace: seq<State>, steps: seq<Step>, codec: Codec, argsOf: string -> Args, n: nat, k: string)
    requires IsRun(trace, steps, codec, argsOf) && n < |trace| && Unfinished(trace[n].tables, k)
    ensures exists i :: Owns(trace[n].callers, i, k, trace[n].tables.events[k])
    ensures forall i, j, e, f :: Owns(trace[n].callers, i, k, e) && Owns(trace[n].callers, j, k, f) ==> i == j && e == f
  {
    RunKeeps(trace, steps, codec, argsOf, n);
  }

  /** A set event that is still in the table has an outcome, so the "already completed" branch
      returns or raises; the unassigned `is_computing` is unreachable. */
  lemma CompletedFlightAnswers(trace: seq<State>, steps: seq<Step>, codec: Codec, argsOf: string -> Args, n: nat)
    requires IsRun(trace, steps, codec, argsOf) && n < |trace|
    ensures forall k :: Finished(trace[n].tables, k) <==> HasOutcome(trace[n].tables, k)
    ensures forall i :: 0 <= i < |trace[n].callers| ==> !trace[n].callers[i].pc.UnboundLocal?
    ensures n < |steps| && steps[n].Enter? && Finished(trace[n].tables, FlightKey(trace[n].callers[steps[n].who].call)) ==>
              var pc := trace[n + 1].callers[steps[n].who].pc; pc.Returned? || pc.Raised?
  {
    RunKeeps(trace, steps, codec, argsOf, n);
    if n < |steps| {
      StepKeeps(trace[n], codec, steps[n]);
    }
  }

  /** A cleanup, which remembers only its key, never removes a later flight of that key. */
  lemma CleanupRemovesOwnFlight(trace: seq<State>, steps: seq<Step>, codec: Codec, argsOf: string -> Args, n: nat)
    requires IsRun(trace, steps, codec, argsOf) && n < |steps| && steps[n].RunCleanup?
    ensures var task := steps[n].cleanup;
            && task.key in trace[n].tables.events && trace[n].tables.events[task.key] == task.ev
            && trace[n + 1].tables.events == trace[n].tables.events - {task.key}
            && !HasOutcome(trace[n + 1].tables, task.key)
  {
    RunKeeps(trace, steps, codec, argsOf, n);
    assert Finished(trace[n].tables, steps[n].cleanup.key);
  }

  /** Conservation: flights begun are flights cleaned up plus the flight now in the table. */
  lemma FlightsConserved(trace: seq<State>, steps: seq<Step>, codec: Codec, argsOf: string -> Args, n: nat, k: string)
    requires IsRun(trace, steps, codec, argsOf) && n < |trace|
    ensures var s := trace[n];
            s.log.begun[k] == s.log.cleaned[k] + if k in s.tables.events then 1 else 0
  {
    RunKeeps(trace, steps, codec, argsOf, n);
  }

  /** A woken waiter runs the function itself exactly when its key has no finished flight any more;
      in particular never before the cleanup of the flight it waited for. */
  lemma FallbackExactly(trace: seq<State>, steps: seq<Step>, codec: Codec, argsOf: string -> Args, n: nat)
    requires IsRun(trace, steps, codec, argsOf) && n < |steps| && steps[n].Resume?
    ensures var i, t := steps[n].who, trace[n].tables;
            var k, ev := FlightKey(trace[n].callers[i].call), trace[n].callers[i].pc.ev;
            && (trace[n + 1].callers[i].pc.Fallback? <==> !Finished(t, k))
            && (Cleanup(k, ev) in t.cleanups ==> !trace[n + 1].callers[i].pc.Fallback?)
  {
    RunKeeps(trace, steps, codec, argsOf, n);
    var k := FlightKey(trace[n].callers[steps[n].who].call);
    assert HasOutcome(trace[n].tables, k) <==> Finished(trace[n].tables, k);
  }

  /** Nobody waits for a signal that is not coming: an unset event that is waited on has an owner. */
  lemma WaitersHaveOwners(trace: seq<State>, steps: seq<Step>, codec: Codec, argsOf: string -> Args, n: nat, i: nat)
    requires IsRun(trace, steps, codec, argsOf) && n < |trace|
    requires i < |trace[n].callers| && trace[n].callers[i].pc.Waiting?
    ensures var k, ev := FlightKey(trace[n].callers[i].call), trace[n].callers[i].pc.ev;
            ev in trace[n].tables.isSet || exists j :: Owns(trace[n].callers, j, k, ev)
  {
    RunKeeps(trace, steps, codec, argsOf, n);
    var c := trace[n].callers[i];
    assert WaitsOn(trace[n].tables, FlightKey(c.call), c.pc.ev);
    assert c.pc.ev in trace[n].tables.isSet || Unfinished(trace[n].tables, FlightKey(c.call));
  }
}
