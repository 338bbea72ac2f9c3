/** The dead-letter queue and its rate-limited, audited replays (app/ai-service/services/dead_letter.py). */
module DeadLetter {
  import opened Basics

  datatype Kind = Callback | AsyncJob

  datatype Status = Pending | Succeeded | Exhausted

  datatype ReplayError = NotFound | AlreadySucceeded | NoAttemptsLeft | RateLimited

  datatype Attempt = Attempt(attempt: nat, actor: string, succeeded: bool, timestamp: real)

  datatype Entry = Entry(
    payload: string, error: string, status: Status, attempts: nat, maxAttempts: int,
    lastAttemptAt: Option<real>, auditLog: seq<Attempt>)

  type Entries = map<string, Entry>

  function MakeId(kind: Kind, taskId: string): string {
    (if kind == Callback then "callback" else "async_job") + ":" + taskId
  }

  /** Ids stand for one kind and one task each. */
  lemma IdsDiffer(k: Kind, t: string, k': Kind, t': string)
    requires MakeId(k, t) == MakeId(k', t')
    ensures k == k' && t == t'
  {
    assert MakeId(k, t)[0] == MakeId(k', t')[0];
    var n := if k == Callback then 9 else 10;
    assert MakeId(k, t)[n..] == t && MakeId(k', t')[n..] == t';
  }

  // ----- The operations on values ---------------------------------------------------------

  /** A known item is updated in place and may be replayed again; its attempts and log stay. */
  function Added(es: Entries, maxAttempts: int, id: string, payload: string, error: string): Entries {
    es[id :=
      if id in es then es[id].(error := error, payload := payload, status := Pending)
      else Entry(payload, error, Pending, 0, maxAttempts, None, [])]
  }

  function Refusal(es: Entries, cooldown: real, id: string, now: real): Option<ReplayError> {
    if id !in es then Some(NotFound)
    else
      var e := es[id];
      if e.status == Succeeded then Some(AlreadySucceeded)
      else if e.status == Exhausted then Some(NoAttemptsLeft)
      else if e.lastAttemptAt.Some? && now - e.lastAttemptAt.value < cooldown then Some(RateLimited)
      else None
  }

  function Replayed(e: Entry, actor: string, success: bool, now: real): Entry {
    var n := e.attempts + 1;
    e.(attempts := n, lastAttemptAt := Some(now),
       auditLog := e.auditLog + [Attempt(n, actor, success, now)],
       status := if success then Succeeded else if n >= e.maxAttempts then Exhausted else Pending)
  }

  class DeadLetterEntry {
    const maxAttempts: int
    var payload: string
    var error: string
    var status: Status
    var attempts: nat
    var lastAttemptAt: Option<real>
    var auditLog: seq<Attempt>

    constructor (payload: string, error: string, maxAttempts: int)
      ensures View() == Entry(payload, error, Pending, 0, maxAttempts, None, [])
    {
      this.payload, this.error, this.maxAttempts := payload, error, maxAttempts;
      status, attempts, lastAttemptAt, auditLog := Pending, 0, None, [];
    }

    ghost function View(): Entry
      reads this
    {
      Entry(payload, error, status, attempts, maxAttempts, lastAttemptAt, auditLog)
    }
  }

  class DeadLetterQueue {
    const maxAttempts: int
    const cooldown: real
    var entries: map<string, DeadLetterEntry>

    ghost predicate Valid()
      reads this
    {
      forall a, b :: a in entries && b in entries && entries[a] == entries[b] ==> a == b
    }

    ghost function Snapshot(): Entries
      reads this, entries.Values
    {
      map id | id in entries :: entries[id].View()
    }

    /** When one entry is new or changed, so is one entry of the snapshot. */
    twostate lemma OneEntry(id: string, new e: DeadLetterEntry)
      requires entries == old(entries)[id := e]
      requires forall k :: k in old(entries) && k != id ==> entries[k].View() == old(entries[k].View())
      ensures Snapshot() == old(Snapshot())[id := e.View()]
    {
    }

    constructor (maxAttempts: int, cooldown: real)
      ensures this.maxAttempts == maxAttempts && this.cooldown == cooldown
      ensures Valid() && Snapshot() == map[]
    {
      this.maxAttempts, this.cooldown := maxAttempts, cooldown;
      entries := map[];
    }

    method Add(kind: Kind, taskId: string, payload: string, error: string)
      requires Valid()
      modifies this, entries.Values
      ensures Valid()
      ensures Snapshot() == Added(old(Snapshot()), maxAttempts, MakeId(kind, taskId), payload, error)
    {
      var id := MakeId(kind, taskId);
      if id in entries {
        var existing := entries[id];
        existing.error := error;
        existing.payload := payload;
        existing.status := Pending;
        OneEntry(id, existing);
        return;
      }
      var entry := new DeadLetterEntry(payload, error, maxAttempts);
      entries := entries[id := entry];
      OneEntry(id, entry);
    }

    method CheckReplayable(id: string, now: real) returns (refusal: Option<ReplayError>)
      requires Valid()
      ensures refusal == Refusal(Snapshot(), cooldown, id, now)
    {
      if id !in entries {
        return Some(NotFound);
      }
      var entry := entries[id];
      if entry.status == Succeeded {
        return Some(AlreadySucceeded);
      }
      if entry.status == Exhausted {
        return Some(NoAttemptsLeft);
      }
      if entry.lastAttemptAt.Some? && now - entry.lastAttemptAt.value < cooldown {
        return Some(RateLimited);
      }
      return None;
    }

    method RecordAttempt(id: string, actor: string, success: bool, now: real) returns (found: bool)
      requires Valid()
      modifies entries.Values
      ensures Valid() && found == (id in old(Snapshot()))
      ensures Snapshot() ==
              if found then old(Snapshot())[id := Replayed(old(Snapshot())[id], actor, success, now)]
              else old(Snapshot())
    {
      if id !in entries {
        return false;
      }
      var entry := entries[id];
      entry.attempts := entry.attempts + 1;
      entry.lastAttemptAt := Some(now);
      entry.auditLog := entry.auditLog + [Attempt(entry.attempts, actor, success, now)];
      if success {
        entry.status := Succeeded;
      } else if entry.attempts >= entry.maxAttempts {
        entry.status := Exhausted;
      } else {
        entry.status := Pending;
      }
      OneEntry(id, entry);
      return true;
    }
  }

  // ----- Runs ---------------------------------------------------------------------------

  /** A replay is a check and, once the delivery has been tried, a record; anything else may happen
      in between, but no second replay of the same item. A replay may also end without a record. */
  datatype Op =
    | Add(kind: Kind, taskId: string, payload: string, error: string, now: real)
    | Check(id: string, now: real)
    | Record(id: string, actor: string, success: bool, now: real)
    | Abandon(id: string, now: real)

  datatype Queue = Queue(maxAttempts: int, cooldown: real)

  /** Beside the entries: the items being replayed, and how often each was added again. */
  datatype State = State(entries: Entries, replaying: set<string>, readded: map<string, nat>, time: real)

  function Readded(st: State, id: string): nat {
    if id in st.readded then st.readded[id] else 0
  }

  predicate Legal(st: State, op: Op) {
    && st.time <= op.now
    && (op.Check? ==> op.id !in st.replaying)
    && (op.Record? ==> op.id in st.replaying)
  }

  function Step(q: Queue, st: State, op: Op): State {
    match op
    case Add(kind, taskId, payload, error, now) =>
      var id := MakeId(kind, taskId);
      st.(entries := Added(st.entries, q.maxAttempts, id, payload, error),
          readded := if id in st.entries then st.readded[id := Readded(st, id) + 1] else st.readded,
          time := now)
    case Check(id, now) =>
      st.(replaying := if Refusal(st.entries, q.cooldown, id, now).None? then st.replaying + {id} else st.replaying,
          time := now)
    case Record(id, actor, success, now) =>
      st.(entries := if id in st.entries then st.entries[id := Replayed(st.entries[id], actor, success, now)] else st.entries,
          replaying := st.replaying - {id}, time := now)
    case Abandon(id, now) =>
      st.(replaying := st.replaying - {id}, time := now)
  }

  function Run(q: Queue, start: real, ops: seq<Op>): State {
    if ops == [] then State(map[], {}, map[], start) else Step(q, Run(q, start, ops[..|ops| - 1]), ops[|ops| - 1])
  }

  predicate IsRun(q: Queue, start: real, ops: seq<Op>) {
    ops == [] ||
    (IsRun(q, start, ops[..|ops| - 1]) && Legal(Run(q, start, ops[..|ops| - 1]), ops[|ops| - 1]))
  }

  // ----- The invariant --------------------------------------------------------------------

  /** The log is numbered 1..attempts, and attempts are at least the cooldown apart. */
  ghost predicate Audited(e: Entry, cooldown: real) {
    && |e.auditLog| == e.attempts
    && (forall i :: 0 <= i < |e.auditLog| ==> e.auditLog[i].attempt == i + 1)
    && Spaced(e.auditLog, cooldown)
    && e.lastAttemptAt == (if e.auditLog == [] then None else Some(e.auditLog[|e.auditLog| - 1].timestamp))
    && (e.status == Succeeded ==> e.auditLog != [] && e.auditLog[|e.auditLog| - 1].succeeded)
    && (e.status == Exhausted ==>
          e.auditLog != [] && !e.auditLog[|e.auditLog| - 1].succeeded && e.attempts >= e.maxAttempts)
  }

  function Allowance(maxAttempts: int): nat {
    if maxAttempts < 1 then 1 else maxAttempts
  }

  ghost predicate Budgeted(e: Entry, q: Queue, replaying: bool, readded: nat, time: real) {
    && e.maxAttempts == q.maxAttempts
    && e.attempts + (if replaying || e.status == Pending then 1 else 0) <= Allowance(q.maxAttempts) + readded
    && (replaying && e.lastAttemptAt.Some? ==> e.lastAttemptAt.value + q.cooldown <= time)
  }

  ghost predicate Kept(q: Queue, st: State, id: string) {
    && (id in st.replaying ==> id in st.entries)
    && (id in st.entries ==>
          && Audited(st.entries[id], q.cooldown)
          && Budgeted(st.entries[id], q, id in st.replaying, Readded(st, id), st.time))
  }

  ghost predicate Spaced(log: seq<Attempt>, cooldown: real) {
    forall i {:trigger log[i].timestamp} :: 0 < i < |log| ==> log[i - 1].timestamp + cooldown <= log[i].timestamp
  }

  lemma SpacedSnoc(log: seq<Attempt>, a: Attempt, cooldown: real)
    requires Spaced(log, cooldown) && (log != [] ==> log[|log| - 1].timestamp + cooldown <= a.timestamp)
    ensures Spaced(log + [a], cooldown)
  {
    var log' := log + [a];
    forall i | 0 < i < |log'| ensures log'[i - 1].timestamp + cooldown <= log'[i].timestamp {
      if i < |log| {
        assert log'[i] == log[i] && log'[i - 1] == log[i - 1];
      }
    }
  }

  lemma ReplayedAudited(e: Entry, q: Queue, readded: nat, time: real, actor: string, success: bool, now: real)
    requires Audited(e, q.cooldown) && Budgeted(e, q, true, readded, time) && time <= now
    ensures Audited(Replayed(e, actor, success, now), q.cooldown)
    ensures Budgeted(Replayed(e, actor, success, now), q, false, readded, now)
  {
    SpacedSnoc(e.auditLog, Attempt(e.attempts + 1, actor, success, now), q.cooldown);
  }

  lemma AddKept(q: Queue, st: State, op: Op, id: string)
    requires op.Add? && Kept(q, st, id) && Legal(st, op)
    ensures Kept(q, Step(q, st, op), id)
  {
  }

  lemma StepKept(q: Queue, st: State, op: Op, id: string)
    requires Kept(q, st, id) && Legal(st, op)
    ensures Kept(q, Step(q, st, op), id)
  {
    match op
    case Add(_, _, _, _, _) => AddKept(q, st, op, id);
    case Check(_, _) =>
    case Record(_, actor, success, now) =>
      if op.id == id {
        ReplayedAudited(st.entries[id], q, Readded(st, id), st.time, actor, success, now);
      }
    case Abandon(_, _) =>
  }

  lemma {:induction false} RunKept(q: Queue, start: real, ops: seq<Op>, id: string)
    requires IsRun(q, start, ops)
    ensures Kept(q, Run(q, start, ops), id)
  {
    if ops == [] {
    } else {
      RunKept(q, start, ops[..|ops| - 1], id);
      StepKept(q, Run(q, start, ops[..|ops| - 1]), ops[|ops| - 1], id);
    }
  }

  /** In every run the audit log of an item is numbered from one to its attempts, and one attempt
      follows another no sooner than the cooldown. */
  lemma AuditLogNumberedAndSpaced(q: Queue, start: real, ops: seq<Op>, id: string)
    requires IsRun(q, start, ops) && id in Run(q, start, ops).entries
    ensures Audited(Run(q, start, ops).entries[id], q.cooldown)
  {
    RunKept(q, start, ops, id);
  }

  /** No item is replayed more often than allowed plus once for each time it was added again. What
      is allowed is the configured maximum, but never less than one. */
  lemma ReplaysBounded(q: Queue, start: real, ops: seq<Op>, id: string)
    requires IsRun(q, start, ops) && id in Run(q, start, ops).entries
    ensures Run(q, start, ops).entries[id].attempts <= Allowance(q.maxAttempts) + Readded(Run(q, start, ops), id)
  {
    RunKept(q, start, ops, id);
  }

  ghost predicate WithinMaximum(q: Queue, start: real, ops: seq<Op>, id: string) {
    IsRun(q, start, ops) && id in Run(q, start, ops).entries ==>
      Run(q, start, ops).entries[id].attempts <= q.maxAttempts + Readded(Run(q, start, ops), id)
  }

  /** So the configured maximum itself is kept in every run exactly when it is at least one: a queue
      configured with none still grants the first replay. */
  lemma MaximumKeptExactly(q: Queue, start: real)
    ensures q.maxAttempts >= 1 <==> forall ops, id :: WithinMaximum(q, start, ops, id)
  {
    if q.maxAttempts >= 1 {
      forall ops, id ensures WithinMaximum(q, start, ops, id) {
        if IsRun(q, start, ops) && id in Run(q, start, ops).entries {
          ReplaysBounded(q, start, ops, id);
        }
      }
    } else {
      FirstReplayGranted(q, start);
    }
  }

  lemma FirstReplayGranted(q: Queue, start: real)
    requires q.maxAttempts <= 0
    ensures exists ops, id :: !WithinMaximum(q, start, ops, id)
  {
    var id := MakeId(Callback, "t");
    var one := [Add(Callback, "t", "", "", start)];
    var two := one + [Check(id, start)];
    var three := two + [Record(id, "operator", false, start)];
    assert one[..|one| - 1] == [];
    assert two[..|two| - 1] == one;
    assert three[..|three| - 1] == two;
    assert IsRun(q, start, []);
    var st := Step(q, Run(q, start, []), one[0]);
    assert Run(q, start, one) == st && IsRun(q, start, one);
    assert Refusal(st.entries, q.cooldown, id, start).None?;
    assert Run(q, start, two) == Step(q, st, two[1]) && IsRun(q, start, two);
    assert Run(q, start, three) == Step(q, Run(q, start, two), three[2]) && IsRun(q, start, three);
    assert !WithinMaximum(q, start, three, id);
  }

  // ----- What a queue remembers, told from the calls alone -----------------------------------

  /** What was last given for an item, if it was ever added. */
  function Given(ops: seq<Op>, id: string): Option<(string, string)> {
    if ops == [] then None
    else
      var op := ops[|ops| - 1];
      if op.Add? && MakeId(op.kind, op.taskId) == id then Some((op.payload, op.error)) else Given(ops[..|ops| - 1], id)
  }

  /** The attempts recorded for an item, one after the other. */
  function Attempts(ops: seq<Op>, id: string): seq<Attempt> {
    if ops == [] then []
    else
      var earlier, op := Attempts(ops[..|ops| - 1], id), ops[|ops| - 1];
      if op.Record? && op.id == id then earlier + [Attempt(|earlier| + 1, op.actor, op.success, op.now)] else earlier
  }

  /** Was the item attempted since it was last added? */
  predicate Attempted(ops: seq<Op>, id: string) {
    if ops == [] then false
    else
      var op := ops[|ops| - 1];
      if op.Record? && op.id == id then true
      else if op.Add? && MakeId(op.kind, op.taskId) == id then false
      else Attempted(ops[..|ops| - 1], id)
  }

  ghost predicate Remembered(q: Queue, e: Entry, given: (string, string), log: seq<Attempt>, attempted: bool) {
    && e.payload == given.0 && e.error == given.1 && e.maxAttempts == q.maxAttempts
    && e.auditLog == log && e.attempts == |log|
    && e.lastAttemptAt == (if log == [] then None else Some(log[|log| - 1].timestamp))
    && (attempted ==> log != [])
    && e.status == (if !attempted then Pending
                    else if log[|log| - 1].succeeded then Succeeded
                    else if |log| >= q.maxAttempts then Exhausted else Pending)
  }

  ghost predicate Recalls(q: Queue, es: Entries, id: string, given: Option<(string, string)>, log: seq<Attempt>, attempted: bool) {
    && (id in es <==> given.Some?)
    && (id !in es ==> log == [] && !attempted)
    && (id in es ==> Remembered(q, es[id], given.value, log, attempted))
  }

  lemma StepRecalls(q: Queue, st: State, op: Op, id: string, given: Option<(string, string)>, log: seq<Attempt>, attempted: bool)
    requires Recalls(q, st.entries, id, given, log, attempted)
    requires op.Record? && op.id == id ==> id in st.entries
    ensures var added, recorded := op.Add? && MakeId(op.kind, op.taskId) == id, op.Record? && op.id == id;
            Recalls(q, Step(q, st, op).entries, id,
                    if added then Some((op.payload, op.error)) else given,
                    if recorded then log + [Attempt(|log| + 1, op.actor, op.success, op.now)] else log,
                    if recorded then true else if added then false else attempted)
  {
  }

  /** After any run the queue holds an item exactly if it was added, with what was given last and the
      whole record of its attempts; adding it again makes it pending, whatever became of it before. */
  lemma {:induction false} HistoryExactly(q: Queue, start: real, ops: seq<Op>, id: string)
    requires IsRun(q, start, ops)
    ensures Recalls(q, Run(q, start, ops).entries, id, Given(ops, id), Attempts(ops, id), Attempted(ops, id))
  {
    if ops == [] {
    } else {
      var earlier, op := ops[..|ops| - 1], ops[|ops| - 1];
      HistoryExactly(q, start, earlier, id);
      RunKept(q, start, earlier, id);
      StepRecalls(q, Run(q, start, earlier), op, id, Given(earlier, id), Attempts(earlier, id), Attempted(earlier, id));
    }
  }

  /** When a replay is refused, and that it is granted in every other case. */
  lemma RefusedExactly(q: Queue, start: real, ops: seq<Op>, id: string, now: real)
    requires IsRun(q, start, ops)
    ensures var log, attempted := Attempts(ops, id), Attempted(ops, id);
            var last := if log == [] then None else Some(log[|log| - 1]);
            Refusal(Run(q, start, ops).entries, q.cooldown, id, now) ==
            if Given(ops, id) == None then Some(NotFound)
            else if attempted && last.Some? && last.value.succeeded then Some(AlreadySucceeded)
            else if attempted && |log| >= q.maxAttempts then Some(NoAttemptsLeft)
            else if last.Some? && now < last.value.timestamp + q.cooldown then Some(RateLimited)
            else None
  {
    HistoryExactly(q, start, ops, id);
  }
}
