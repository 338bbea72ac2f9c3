/** Alerts about circuit breakers (app/ai-service/services/circuit_breaker_alerts.py): which
    transitions are worth an alert, and the suppression of repeats. */
module BreakerAlerts {
  import opened Basics
  import opened Timestamps

  datatype Phase = Closed | Open | HalfOpen

  datatype Event = Opened | Recovered

  function EventForTransition(from: Phase, to: Phase): Option<Event> {
    if to == Open && from != Open then Some(Opened)
    else if to == Closed && from != Closed then Some(Recovered)
    else None
  }

  /** Alerts are told apart by provider and event. */
  type Key = (string, Event)

  datatype Ledger = Ledger(lastSent: map<Key, real>, suppressed: nat)

  predicate IsDuplicate(lastSent: map<Key, real>, key: Key, now: real, window: real) {
    key in lastSent && now - lastSent[key] < window
  }

  /** The ledger after a transition, and whether an alert was dispatched for it. */
  function Notified(l: Ledger, enabled: bool, window: real, provider: string, from: Phase, to: Phase, now: real):
    (Ledger, bool)
  {
    match EventForTransition(from, to)
    case None => (l, false)
    case Some(event) =>
      if !enabled then (l, false)
      else if IsDuplicate(l.lastSent, (provider, event), now, window) then (l.(suppressed := l.suppressed + 1), false)
      else (l.(lastSent := l.lastSent[(provider, event) := now]), true)
  }

  class CircuitBreakerAlerter {
    const enabled: bool
    const dedupWindow: real
    var lastSent: map<Key, real>
    var suppressed: nat

    ghost function View(): Ledger
      reads this
    {
      Ledger(lastSent, suppressed)
    }

    constructor (enabled: bool, dedupWindow: real)
      ensures this.enabled == enabled && this.dedupWindow == (if dedupWindow < 0.0 then 0.0 else dedupWindow)
      ensures View() == Ledger(map[], 0)
    {
      this.enabled := enabled;
      this.dedupWindow := if dedupWindow < 0.0 then 0.0 else dedupWindow;
      lastSent, suppressed := map[], 0;
    }

    method NotifyTransition(provider: string, from: Phase, to: Phase, now: real) returns (dispatched: bool)
      modifies this
      ensures (View(), dispatched) == Notified(old(View()), enabled, dedupWindow, provider, from, to, now)
    {
      if !enabled {
        return false;
      }
      var event := EventForTransition(from, to);
      if event.None? {
        return false;
      }
      var key := (provider, event.value);
      if IsDuplicate(lastSent, key, now, dedupWindow) {
        suppressed := suppressed + 1;
        return false;
      }
      lastSent := lastSent[key := now];
      return true;
    }
  }

  // ----- Runs ---------------------------------------------------------------------------

  datatype Transition = Transition(provider: string, from: Phase, to: Phase, now: real)

  /** The ledger together with every alert ever dispatched, by key, oldest first. */
  datatype History = History(ledger: Ledger, dispatched: map<Key, seq<real>>)

  function SentOf(h: History, key: Key): seq<real> {
    if key in h.dispatched then h.dispatched[key] else []
  }

  function Observe(h: History, window: real, t: Transition): History {
    var (ledger, sent) := Notified(h.ledger, true, window, t.provider, t.from, t.to, t.now);
    var event := EventForTransition(t.from, t.to);
    if sent && event.Some? then
      var key := (t.provider, event.value);
      History(ledger, h.dispatched[key := SentOf(h, key) + [t.now]])
    else History(ledger, h.dispatched)
  }

  function Run(window: real, ts: seq<Transition>): History {
    if ts == [] then History(Ledger(map[], 0), map[])
    else Observe(Run(window, ts[..|ts| - 1]), window, ts[|ts| - 1])
  }

  /** Consecutive alerts are at least a window apart, and the ledger remembers the last one. */
  ghost predicate Spaced(s: seq<real>, window: real) {
    forall i :: 0 <= i < |s| - 1 ==> s[i] + window <= s[i + 1]
  }

  ghost predicate Tracks(h: History, key: Key, window: real) {
    var sent := SentOf(h, key);
    && Spaced(sent, window)
    && (key in h.ledger.lastSent <==> sent != [])
    && (sent != [] ==> h.ledger.lastSent[key] == sent[|sent| - 1])
  }

  lemma ObserveTracks(h: History, window: real, t: Transition, key: Key)
    requires window >= 0.0 && Tracks(h, key, window)
    ensures Tracks(Observe(h, window, t), key, window)
  {
    var sent, sent' := SentOf(h, key), SentOf(Observe(h, window, t), key);
    if sent' != sent {
      assert sent' == sent + [t.now];
      forall i | 0 <= i < |sent'| - 1 ensures sent'[i] + window <= sent'[i + 1] {
        if i < |sent| - 1 {
          assert sent[i] + window <= sent[i + 1];
        }
      }
    }
  }

  /** Dispatched alerts of one provider and event are at least the window apart, whatever the clock. */
  lemma {:induction false} AlertsSpaced(window: real, ts: seq<Transition>, key: Key)
    requires window >= 0.0
    ensures Tracks(Run(window, ts), key, window)
  {
    if ts == [] {
    } else {
      AlertsSpaced(window, ts[..|ts| - 1], key);
      ObserveTracks(Run(window, ts[..|ts| - 1]), window, ts[|ts| - 1], key);
    }
  }

  lemma {:induction false} SpacedFar(s: seq<real>, window: real, i: nat, n: nat)
    requires window >= 0.0 && Spaced(s, window) && i + n < |s|
    ensures s[i] + n as real * window <= s[i + n]
    decreases n
  {
    if n > 0 {
      SpacedFar(s, window, i, n - 1);
      var last := i + n - 1;
      assert s[last] + window <= s[last + 1];
      assert n as real * window == (n - 1) as real * window + window;
    }
  }

  lemma QuotientBound(n: nat, window: real, length: real)
    requires window > 0.0 && n as real * window <= length
    ensures n <= (length / window).Floor
  {
    assert n as real == n as real * window / window <= length / window;
  }

  /** So no span of length T, wherever it starts, holds more than floor(T / W) + 1 of them. */
  lemma AlertsBounded(window: real, ts: seq<Transition>, key: Key, from: real, length: real)
    requires window > 0.0 && length >= 0.0
    ensures Count(SentOf(Run(window, ts), key), (x: real) => from <= x <= from + length) <= (length / window).Floor + 1
  {
    AlertsSpaced(window, ts, key);
    SpacedBound(SentOf(Run(window, ts), key), window, (x: real) => from <= x <= from + length, from, length);
  }

  lemma SpacedBound(s: seq<real>, window: real, p: real -> bool, from: real, length: real)
    requires window > 0.0 && length >= 0.0 && Spaced(s, window)
    requires forall x :: p(x) ==> from <= x <= from + length
    ensures Count(s, p) <= (length / window).Floor + 1
  {
    var first := FirstWithin(s, p);
    var last := LastWithin(s, p);
    if last < 0 {
      CountOutside(s, p, 0, 0);
      QuotientBound(0, window, length);
    } else {
      CountOutside(s, p, first, last + 1);
      var n: nat := last - first;
      SpacedFar(s, window, first, n);
      assert p(s[first]) && p(s[last]);
      QuotientBound(n, window, length);
    }
  }

  lemma {:induction false} SpacedSorted(s: seq<real>, window: real)
    requires window >= 0.0 && Spaced(s, window)
    ensures Sorted(s)
  {
    forall i, j | 0 <= i < j < |s| ensures s[i] <= s[j] {
      var n: nat := j - i;
      SpacedFar(s, window, i, n);
      assert n as real * window >= 0.0;
    }
  }

  /** A repeat is suppressed exactly when an alert of its kind was dispatched less than a window
      before; so the first of each kind always goes out. Where alerts are switched off nothing does,
      nor is anything remembered. */
  lemma SuppressedExactly(window: real, ts: seq<Transition>, t: Transition)
    requires window >= 0.0 && EventForTransition(t.from, t.to).Some?
    ensures var h := Run(window, ts);
            var key := (t.provider, EventForTransition(t.from, t.to).value);
            Notified(h.ledger, true, window, t.provider, t.from, t.to, t.now).1 <==>
            forall x :: x in SentOf(h, key) ==> t.now - x >= window
    ensures Notified(Run(window, ts).ledger, false, window, t.provider, t.from, t.to, t.now) == (Run(window, ts).ledger, false)
  {
    var key := (t.provider, EventForTransition(t.from, t.to).value);
    AlertsSpaced(window, ts, key);
    var sent := SentOf(Run(window, ts), key);
    SpacedSorted(sent, window);
    if sent != [] {
      var last := sent[|sent| - 1];
      assert last in sent;
      forall x | x in sent ensures x <= last {
        var i :| 0 <= i < |sent| && sent[i] == x;
        assert i < |sent| - 1 ==> sent[i] <= sent[|sent| - 1];
      }
    }
  }

  // ----- Conservation ---------------------------------------------------------------------

  function Alertable(ts: seq<Transition>): nat {
    if ts == [] then 0
    else
      var t := ts[|ts| - 1];
      Alertable(ts[..|ts| - 1]) + (if EventForTransition(t.from, t.to).Some? then 1 else 0)
  }

  function Dispatched(window: real, ts: seq<Transition>): nat {
    if ts == [] then 0
    else
      var t := ts[|ts| - 1];
      Dispatched(window, ts[..|ts| - 1]) +
      (if Notified(Run(window, ts[..|ts| - 1]).ledger, true, window, t.provider, t.from, t.to, t.now).1 then 1 else 0)
  }

  /** Every alertable transition was either dispatched or counted as suppressed. */
  lemma {:induction false} EveryEventAccountedFor(window: real, ts: seq<Transition>)
    ensures Dispatched(window, ts) + Run(window, ts).ledger.suppressed == Alertable(ts)
  {
    if ts == [] {
    } else {
      EveryEventAccountedFor(window, ts[..|ts| - 1]);
    }
  }
}
