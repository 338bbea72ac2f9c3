/** The circuit breaker of a provider (app/ai-service/services/circuit_breaker.py). */
module CircuitBreakers {
  import opened Basics
  import opened BreakerAlerts

  datatype Settings = Settings(failureThreshold: int, recoveryTimeout: real)

  datatype Breaker = Breaker(phase: Phase, failureCount: nat, lastStateChange: real)

  datatype Call = AllowRequest | RecordSuccess | RecordFailure | Reset

  predicate Admits(s: Settings, b: Breaker, now: real) {
    b.phase == Open ==> now - b.lastStateChange >= s.recoveryTimeout
  }

  function After(s: Settings, b: Breaker, call: Call, now: real): Breaker {
    match call
    case AllowRequest =>
      if b.phase == Open && Admits(s, b, now) then Breaker(HalfOpen, b.failureCount, now) else b
    case RecordSuccess =>
      (match b.phase
       case HalfOpen => Breaker(Closed, 0, now)
       case Closed => b.(failureCount := 0)
       case Open => b)
    case RecordFailure =>
      if b.phase == HalfOpen || (b.phase == Closed && b.failureCount + 1 >= s.failureThreshold)
      then Breaker(Open, b.failureCount + 1, now)
      else b.(failureCount := b.failureCount + 1)
    case Reset => Breaker(Closed, 0, now)
  }

  function TimeUntilRetry(s: Settings, b: Breaker, now: real): real {
    if b.phase != Open then 0.0
    else
      var left := s.recoveryTimeout - (now - b.lastStateChange);
      if left < 0.0 then 0.0 else left
  }

  class CircuitBreaker {
    const name: string
    const settings: Settings
    const alerter: CircuitBreakerAlerter
    var phase: Phase
    var failureCount: nat
    var lastStateChange: real

    ghost function View(): Breaker
      reads this
    {
      Breaker(phase, failureCount, lastStateChange)
    }

    /** The alerter hears of the step from one breaker value to another. */
    ghost function Heard(was: Breaker, ledger: Ledger, became: Breaker, now: real): Ledger
      reads this
    {
      Notified(ledger, alerter.enabled, alerter.dedupWindow, name, was.phase, became.phase, now).0
    }

    constructor (name: string, settings: Settings, alerter: CircuitBreakerAlerter, now: real)
      ensures this.name == name && this.settings == settings && this.alerter == alerter
      ensures View() == Breaker(Closed, 0, now)
    {
      this.name, this.settings, this.alerter := name, settings, alerter;
      phase, failureCount, lastStateChange := Closed, 0, now;
    }

    method Transition(to: Phase, now: real)
      modifies this, alerter
      ensures View() == Breaker(to, old(failureCount), now)
      ensures alerter.View() == Heard(old(View()), old(alerter.View()), View(), now)
    {
      var previous := phase;
      phase, lastStateChange := to, now;
      var _ := alerter.NotifyTransition(name, previous, to, now);
    }

    method Allow(now: real) returns (admitted: bool)
      modifies this, alerter
      ensures admitted == Admits(settings, old(View()), now)
      ensures View() == After(settings, old(View()), AllowRequest, now)
      ensures alerter.View() == Heard(old(View()), old(alerter.View()), View(), now)
    {
      if phase == Open {
        var elapsed := now - lastStateChange;
        if elapsed >= settings.recoveryTimeout {
          Transition(HalfOpen, now);
          return true;
        }
        return false;
      }
      return true;
    }

    method Success(now: real)
      modifies this, alerter
      ensures View() == After(settings, old(View()), RecordSuccess, now)
      ensures alerter.View() == Heard(old(View()), old(alerter.View()), View(), now)
    {
      if phase == HalfOpen {
        failureCount := 0;
        Transition(Closed, now);
      } else if phase == Closed {
        failureCount := 0;
      }
    }

    method Failure(now: real)
      modifies this, alerter
      ensures View() == After(settings, old(View()), RecordFailure, now)
      ensures alerter.View() == Heard(old(View()), old(alerter.View()), View(), now)
    {
      failureCount := failureCount + 1;
      if phase == HalfOpen {
        Transition(Open, now);
      } else if phase == Closed && failureCount >= settings.failureThreshold {
        Transition(Open, now);
      }
    }

    method ResetNow(now: real)
      modifies this, alerter
      ensures View() == After(settings, old(View()), Reset, now)
      ensures alerter.View() == Heard(old(View()), old(alerter.View()), View(), now)
    {
      failureCount := 0;
      Transition(Closed, now);
    }
  }

  // ----- Runs ---------------------------------------------------------------------------

  datatype Timed = Timed(call: Call, now: real)

  function Run(s: Settings, start: real, calls: seq<Timed>): Breaker {
    if calls == [] then Breaker(Closed, 0, start)
    else
      var last := calls[|calls| - 1];
      After(s, Run(s, start, calls[..|calls| - 1]), last.call, last.now)
  }

  /** Open and half-open breakers have reached the threshold. */
  lemma {:induction false} TrippedAtThreshold(s: Settings, start: real, calls: seq<Timed>)
    ensures Run(s, start, calls).phase != Closed ==> Run(s, start, calls).failureCount >= s.failureThreshold
  {
    if calls == [] {
    } else {
      TrippedAtThreshold(s, start, calls[..|calls| - 1]);
    }
  }

  lemma {:induction false} ClosedBelowThreshold(s: Settings, start: real, calls: seq<Timed>)
    requires s.failureThreshold >= 1
    ensures Run(s, start, calls).phase == Closed ==> Run(s, start, calls).failureCount < s.failureThreshold
  {
    if calls == [] {
    } else {
      ClosedBelowThreshold(s, start, calls[..|calls| - 1]);
    }
  }

  /** A closed breaker stays below its threshold in every run exactly when that is at least one. */
  lemma ClosedBelowThresholdExactly(s: Settings, start: real)
    ensures s.failureThreshold >= 1 <==>
            forall calls :: Run(s, start, calls).phase == Closed ==> Run(s, start, calls).failureCount < s.failureThreshold
  {
    if s.failureThreshold >= 1 {
      forall calls | Run(s, start, calls).phase == Closed
        ensures Run(s, start, calls).failureCount < s.failureThreshold
      {
        ClosedBelowThreshold(s, start, calls);
      }
    } else {
      assert Run(s, start, []).phase == Closed;
    }
  }

  /** The failures since the count last went back to zero: a reset, or a success that was not
      recorded while open. */
  function FailuresInARow(s: Settings, start: real, calls: seq<Timed>): nat {
    if calls == [] then 0
    else
      var earlier, call := calls[..|calls| - 1], calls[|calls| - 1].call;
      match call
      case RecordFailure => FailuresInARow(s, start, earlier) + 1
      case Reset => 0
      case RecordSuccess => if Run(s, start, earlier).phase == Open then FailuresInARow(s, start, earlier) else 0
      case AllowRequest => FailuresInARow(s, start, earlier)
  }

  /** With a threshold of at least one, the breaker trips exactly with the failure that makes the
      threshold full: it is closed as long as there were fewer in a row, and not after. */
  lemma {:induction false} TripsExactly(s: Settings, start: real, calls: seq<Timed>)
    requires s.failureThreshold >= 1
    ensures Run(s, start, calls).failureCount == FailuresInARow(s, start, calls)
    ensures Run(s, start, calls).phase == Closed <==> FailuresInARow(s, start, calls) < s.failureThreshold
  {
    if calls == [] {
    } else {
      TripsExactly(s, start, calls[..|calls| - 1]);
    }
  }

  predicate MonotoneClock(start: real, calls: seq<Timed>) {
    calls == [] ||
    (var earlier := calls[..|calls| - 1];
     MonotoneClock(start, earlier) && (if earlier == [] then start else earlier[|earlier| - 1].now) <= calls[|calls| - 1].now)
  }

  lemma {:induction false} ClockSorted(start: real, calls: seq<Timed>, i: nat)
    requires MonotoneClock(start, calls) && i < |calls|
    ensures calls[i].now <= calls[|calls| - 1].now
  {
    if i < |calls| - 1 {
      ClockSorted(start, calls[..|calls| - 1], i);
    }
  }

  /** Once open a breaker stays so, whatever successes and failures still come in, and admits
      nothing until the timeout has passed, unless it is reset. */
  lemma {:induction false} HoldsOpen(s: Settings, start: real, calls: seq<Timed>, k: nat, now: real)
    requires k <= |calls| && MonotoneClock(start, calls)
    requires Run(s, start, calls[..k]).phase == Open
    requires forall i :: k <= i < |calls| ==> calls[i].call != Reset
    requires calls == [] || calls[|calls| - 1].now <= now
    requires now < Run(s, start, calls[..k]).lastStateChange + s.recoveryTimeout
    ensures Run(s, start, calls).phase == Open
    ensures Run(s, start, calls).lastStateChange == Run(s, start, calls[..k]).lastStateChange
    ensures !Admits(s, Run(s, start, calls), now)
  {
    if k == |calls| {
      assert calls[..k] == calls;
    } else {
      var earlier := calls[..|calls| - 1];
      assert earlier[..k] == calls[..k];
      if earlier != [] {
        ClockSorted(start, calls, |earlier| - 1);
      }
      HoldsOpen(s, start, earlier, k, calls[|calls| - 1].now);
    }
  }

  /** `time_until_retry` is the least time to wait: then the next request is admitted, and before
      it is not. */
  lemma RetryTimeIsLeast(s: Settings, b: Breaker, now: real, wait: real)
    requires wait >= 0.0
    ensures Admits(s, b, now + wait) <==> wait >= TimeUntilRetry(s, b, now)
  {
    assert now + wait - b.lastStateChange == (now - b.lastStateChange) + wait;
  }

  lemma RunSnoc(s: Settings, start: real, calls: seq<Timed>, last: Timed)
    ensures Run(s, start, calls + [last]) == After(s, Run(s, start, calls), last.call, last.now)
  {
    assert (calls + [last])[..|calls|] == calls;
  }

  /** What the probe decides: a request that an open breaker admits, its timeout being over, leaves it
      admitting; if it succeeds the breaker is closed with nothing counted, and if it fails the breaker
      admits nothing for another whole timeout. */
  lemma ProbeDecides(s: Settings, start: real, calls: seq<Timed>, probe: real, answer: real, now: real)
    requires Run(s, start, calls).phase == Open && probe - Run(s, start, calls).lastStateChange >= s.recoveryTimeout
    ensures var probed := calls + [Timed(AllowRequest, probe)];
            var success, failure := Run(s, start, probed + [Timed(RecordSuccess, answer)]), Run(s, start, probed + [Timed(RecordFailure, answer)]);
            && Admits(s, Run(s, start, probed), now)
            && success.phase == Closed && success.failureCount == 0 && Admits(s, success, now)
            && failure.failureCount == Run(s, start, calls).failureCount + 1
            && (Admits(s, failure, now) <==> now - answer >= s.recoveryTimeout)
  {
    var probed := calls + [Timed(AllowRequest, probe)];
    RunSnoc(s, start, calls, Timed(AllowRequest, probe));
    RunSnoc(s, start, probed, Timed(RecordSuccess, answer));
    RunSnoc(s, start, probed, Timed(RecordFailure, answer));
  }

  // ----- Events -------------------------------------------------------------------------

  function Events(s: Settings, start: real, calls: seq<Timed>): seq<Event> {
    if calls == [] then []
    else
      var earlier := calls[..|calls| - 1];
      Events(s, start, earlier) +
      (match EventForTransition(Run(s, start, earlier).phase, Run(s, start, calls).phase)
       case Some(e) => [e]
       case None => [])
  }

  /** An event is told exactly when the breaker opens, from whatever phase, and when it closes again. */
  lemma AnnouncedExactly(s: Settings, start: real, calls: seq<Timed>)
    requires calls != []
    ensures var earlier := calls[..|calls| - 1];
            var was, became := Run(s, start, earlier).phase, Run(s, start, calls).phase;
            Events(s, start, calls) == Events(s, start, earlier) +
              if became == was || became == HalfOpen then [] else if became == Open then [Opened] else [Recovered]
  {
  }

  ghost predicate Alternates(events: seq<Event>) {
    forall i :: 0 <= i < |events| && events[i] == Recovered ==> i > 0 && events[i - 1] == Opened
  }

  /** Every recovery directly follows an opening, so two recoveries have an opening between them;
      and the last event tells whether the breaker is closed. */
  lemma {:induction false} RecoveryFollowsOpening(s: Settings, start: real, calls: seq<Timed>)
    ensures Alternates(Events(s, start, calls))
    ensures var events := Events(s, start, calls);
            Run(s, start, calls).phase == Closed <==> events == [] || events[|events| - 1] == Recovered
  {
    if calls == [] {
    } else {
      RecoveryFollowsOpening(s, start, calls[..|calls| - 1]);
      var before, now := Events(s, start, calls[..|calls| - 1]), Events(s, start, calls);
      forall i | 0 <= i < |now| && now[i] == Recovered ensures i > 0 && now[i - 1] == Opened {
        if i < |before| {
          assert before[i] == now[i];
        }
      }
    }
  }
}
