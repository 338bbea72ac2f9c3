/** The durable decision-audit store (app/ai-service/services/decision_audit.py): an append-only
    log file, the records and indexes a process keeps of it, pruning by age, and reload.

    An absent identifier is the empty string. An append happens entirely or not at all; a rewrite
    may fail and then leaves the file as it was. Times are seconds. */
module DecisionAudit {
  import opened Basics
  import opened Sorting

  datatype Record = Record(
    id: string, createdAt: real, decisionType: string,
    traceId: string, claimId: string, campaignRef: string, body: string)

  datatype Line = Entry(record: Record) | Blank | Malformed

  const PRUNE_EVERY := 100

  function Parsed(lines: seq<Line>): (r: seq<Record>)
    ensures |r| <= |lines|
  {
    if lines == [] then []
    else
      var last := lines[|lines| - 1];
      Parsed(lines[..|lines| - 1]) + (if last.Entry? then [last.record] else [])
  }

  function Lines(records: seq<Record>): (r: seq<Line>)
    ensures |r| == |records|
    ensures forall i :: 0 <= i < |r| ==> r[i] == Entry(records[i])
  {
    if records == [] then [] else Lines(records[..|records| - 1]) + [Entry(records[|records| - 1])]
  }

  /** A retention of zero or less keeps records for ever. */
  predicate Keeps(retention: real, now: real, r: Record) {
    retention <= 0.0 || r.createdAt >= now - retention
  }

  function Live(records: seq<Record>, retention: real, now: real): (r: seq<Record>)
    ensures |r| <= |records|
  {
    if records == [] then []
    else
      var last := records[|records| - 1];
      Live(records[..|records| - 1], retention, now) + (if Keeps(retention, now, last) then [last] else [])
  }

  // ----- Indexes ------------------------------------------------------------------------

  function TraceOf(r: Record): string { r.traceId }
  function ClaimOf(r: Record): string { r.claimId }
  function CampaignOf(r: Record): string { r.campaignRef }

  type Index = map<string, seq<string>>

  function Lookup(index: Index, value: string): seq<string> {
    if value in index then index[value] else []
  }

  function AddTo(index: Index, value: string, id: string): Index {
    if value == "" then index else index[value := Lookup(index, value) + [id]]
  }

  function IndexOf(records: seq<Record>, key: Record -> string): Index {
    if records == [] then map[]
    else
      var last := records[|records| - 1];
      AddTo(IndexOf(records[..|records| - 1], key), key(last), last.id)
  }

  function ByIdOf(records: seq<Record>): map<string, Record> {
    if records == [] then map[]
    else
      var last := records[|records| - 1];
      ByIdOf(records[..|records| - 1])[last.id := last]
  }

  // ----- Queries ------------------------------------------------------------------------

  /** An empty field does not filter. */
  datatype Filter = Filter(traceId: string, claimId: string, campaignRef: string, decisionType: string)

  predicate Passes(wanted: string, actual: string) {
    wanted == "" || actual == wanted
  }

  predicate Identified(f: Filter, r: Record) {
    Passes(f.traceId, r.traceId) && Passes(f.claimId, r.claimId) && Passes(f.campaignRef, r.campaignRef)
  }

  /** The linear scan that a query stands for. */
  function Scan(records: seq<Record>, f: Filter): seq<Record> {
    Select(records, (r: Record) => Identified(f, r) && Passes(f.decisionType, r.decisionType))
  }

  function Candidates(records: seq<Record>, f: Filter): seq<Record> {
    Select(records, (r: Record) => Identified(f, r))
  }

  function WithIds(records: seq<Record>, ids: set<string>): seq<Record> {
    Select(records, (r: Record) => r.id in ids)
  }

  function OfType(records: seq<Record>, decisionType: string): seq<Record> {
    Select(records, (r: Record) => Passes(decisionType, r.decisionType))
  }

  /** One identifier of a query intersects what the ones before it left. */
  function Narrowed(candidates: Option<set<string>>, value: string, index: Index): Option<set<string>> {
    if value == "" then candidates
    else
      var ids := set id | id in Lookup(index, value);
      Some(if candidates.None? then ids else candidates.value * ids)
  }

  predicate Newer(a: Record, b: Record) {
    a.createdAt >= b.createdAt
  }

  function Cut(records: seq<Record>, limit: int): seq<Record> {
    if 0 < limit < |records| then records[..limit] else records
  }

  /** Newest first, at most `limit` of the matching records, and none left out that is newer than
      one of them. */
  ghost predicate Answers(answer: seq<Record>, matching: seq<Record>, limit: int) {
    && SortedBy(answer, Newer)
    && |answer| == (if 0 < limit < |matching| then limit else |matching|)
    && multiset(answer) <= multiset(matching)
    && forall x, y :: x in answer && y in multiset(matching) - multiset(answer) ==> x.createdAt >= y.createdAt
  }

  ghost predicate Distinct(records: seq<Record>) {
    forall i, j :: 0 <= i < j < |records| ==> records[i].id != records[j].id
  }

  // ----- What each operation does to the file and the records -----------------------------

  datatype State = State(lines: seq<Line>, records: seq<Record>, writes: nat)

  /** Expired records leave memory; the file follows if something left and the rewrite succeeds. */
  function Pruned(s: State, retention: real, now: real, rewriteOk: bool): State {
    var keep := Live(s.records, retention, now);
    if |keep| == |s.records| then s
    else State(if rewriteOk then Lines(keep) else s.lines, keep, s.writes)
  }

  function Recorded(s: State, retention: real, r: Record, appendOk: bool, now: real, rewriteOk: bool): State {
    if !appendOk then s
    else
      var s' := State(s.lines + [Entry(r)], s.records + [r], s.writes + 1);
      if s'.writes >= PRUNE_EVERY then Pruned(s'.(writes := 0), retention, now, rewriteOk) else s'
  }

  function Loaded(lines: seq<Line>, retention: real, now: real, rewriteOk: bool): State {
    Pruned(State(lines, Parsed(lines), 0), retention, now, rewriteOk)
  }

  // ----- The store ----------------------------------------------------------------------

  class LogFile {
    var lines: seq<Line>
  }

  class DecisionAuditStore {
    const file: LogFile
    const retention: real
    var records: seq<Record>
    var byId: map<string, Record>
    var byTrace: Index
    var byClaim: Index
    var byCampaign: Index
    var writes: nat

    ghost predicate Valid()
      reads this
    {
      && byId == ByIdOf(records)
      && byTrace == IndexOf(records, TraceOf)
      && byClaim == IndexOf(records, ClaimOf)
      && byCampaign == IndexOf(records, CampaignOf)
    }

    ghost function Snapshot(): State
      reads this, file
    {
      State(file.lines, records, writes)
    }

    constructor (file: LogFile, retention: real, now: real, rewriteOk: bool)
      modifies file
      ensures this.file == file && this.retention == retention
      ensures Valid() && Snapshot() == Loaded(old(file.lines), retention, now, rewriteOk)
    {
      this.file, this.retention := file, retention;
      records, byId, byTrace, byClaim, byCampaign, writes := [], map[], map[], map[], map[], 0;
      new;
      var i := 0;
      while i < |file.lines|
        invariant 0 <= i <= |file.lines| && file.lines == old(file.lines)
        invariant Valid() && records == Parsed(file.lines[..i]) && writes == 0
      {
        assert file.lines[..i + 1][..i] == file.lines[..i];
        if file.lines[i].Entry? {
          IndexRecord(file.lines[i].record);
        }
        i := i + 1;
      }
      assert file.lines[..i] == file.lines;
      var dropped := PruneLocked(now);
      if dropped {
        RewriteLocked(rewriteOk);
      } else {
        SameLengthSameRecords(Parsed(file.lines), retention, now);
      }
    }

    method IndexRecord(r: Record)
      requires Valid()
      modifies this
      ensures Valid() && records == old(records) + [r] && writes == old(writes)
    {
      records := records + [r];
      byId := byId[r.id := r];
      byTrace := AddTo(byTrace, r.traceId, r.id);
      byClaim := AddTo(byClaim, r.claimId, r.id);
      byCampaign := AddTo(byCampaign, r.campaignRef, r.id);
      assert records[..|records| - 1] == old(records);
    }

    method Reindex()
      modifies this
      ensures Valid() && records == old(records) && writes == old(writes)
    {
      var all := records;
      records, byId, byTrace, byClaim, byCampaign := [], map[], map[], map[], map[];
      for i := 0 to |all|
        invariant Valid() && records == all[..i] && writes == old(writes)
      {
        IndexRecord(all[i]);
      }
    }

    method PruneLocked(now: real) returns (dropped: bool)
      requires Valid()
      modifies this
      ensures Valid() && writes == old(writes)
      ensures records == Live(old(records), retention, now)
      ensures dropped <==> |records| != |old(records)|
    {
      if retention <= 0.0 {
        KeepsAll(records, retention, now);
        return false;
      }
      var keep := Live(records, retention, now);
      if |keep| == |records| {
        SameLengthSameRecords(records, retention, now);
        return false;
      }
      records := keep;
      Reindex();
      return true;
    }

    /** The records are written to a temporary file, which replaces the log at the end. */
    method RewriteLocked(ok: bool)
      modifies file
      ensures file.lines == if ok then Lines(records) else old(file.lines)
    {
      var temporary: seq<Line> := [];
      for i := 0 to |records|
        invariant temporary == Lines(records[..i])
      {
        assert records[..i + 1][..i] == records[..i];
        temporary := temporary + [Entry(records[i])];
      }
      assert records[..|records|] == records;
      if ok {
        file.lines := temporary;
      }
    }

    method Prune(now: real, rewriteOk: bool) returns (dropped: nat)
      requires Valid()
      modifies this, file
      ensures Valid() && Snapshot() == Pruned(old(Snapshot()), retention, now, rewriteOk)
      ensures dropped == |old(records)| - |records|
    {
      var before := |records|;
      var any := PruneLocked(now);
      if !any {
        SameLengthSameRecords(old(records), retention, now);
        return 0;
      }
      dropped := before - |records|;
      RewriteLocked(rewriteOk);
    }

    method Append(r: Record, appendOk: bool, now: real, rewriteOk: bool) returns (stored: bool)
      requires Valid()
      modifies this, file
      ensures Valid() && Snapshot() == Recorded(old(Snapshot()), retention, r, appendOk, now, rewriteOk)
      ensures stored == appendOk
    {
      if !appendOk {
        return false;
      }
      file.lines := file.lines + [Entry(r)];
      IndexRecord(r);
      writes := writes + 1;
      if writes >= PRUNE_EVERY {
        writes := 0;
        ghost var all := records;
        var dropped := PruneLocked(now);
        if dropped {
          RewriteLocked(rewriteOk);
        } else {
          SameLengthSameRecords(all, retention, now);
        }
      }
      return true;
    }

    method Get(id: string) returns (found: Option<Record>)
      requires Valid() && Distinct(records)
      ensures found == None <==> forall r :: r in records ==> r.id != id
      ensures found.Some? ==> found.value in records && found.value.id == id
    {
      ByIdExactly(records, id);
      return if id in byId then Some(byId[id]) else None;
    }

    /** Candidates are read from a set, in whatever order it yields them. */
    method Fetch(candidates: set<string>) returns (matches: seq<Record>)
      requires Valid() && Distinct(records)
      ensures multiset(matches) == multiset(WithIds(records, candidates))
    {
      matches := [];
      NoIds(records);
      var todo := candidates;
      assert candidates - todo == {};
      while todo != {}
        invariant todo <= candidates
        invariant multiset(matches) == multiset(WithIds(records, candidates - todo))
        decreases |todo|
      {
        var id :| id in todo;
        FetchOne(records, candidates - todo, id);
        if id in byId {
          matches := matches + [byId[id]];
        }
        assert candidates - (todo - {id}) == candidates - todo + {id};
        todo := todo - {id};
      }
      assert candidates - todo == candidates;
    }

    /** `query`: identifiers narrow by intersection. */
    method Query(f: Filter, limit: int) returns (answer: seq<Record>)
      requires Valid() && Distinct(records)
      ensures Answers(answer, Scan(records, f), limit)
      ensures f.traceId == "" && f.claimId == "" && f.campaignRef == "" ==>
                answer == Cut(Sort(Scan(records, f), Newer), limit)
    {
      var candidates: Option<set<string>> := None;
      candidates := Narrowed(candidates, f.traceId, byTrace);
      candidates := Narrowed(candidates, f.claimId, byClaim);
      candidates := Narrowed(candidates, f.campaignRef, byCampaign);
      CandidatesExactly(records, f, candidates);
      ScanByType(records, f);
      var matches := records;
      if candidates.Some? {
        matches := Fetch(candidates.value);
        WithIdsAreCandidates(records, f, candidates.value);
        SelectMultiset(matches, Candidates(records, f), (r: Record) => Passes(f.decisionType, r.decisionType));
      }
      matches := OfType(matches, f.decisionType);
      CutAnswers(matches, Scan(records, f), limit);
      answer := Cut(Sort(matches, Newer), limit);
    }
  }

  // ----- The indexes agree with the records -----------------------------------------------

  /** The ids of the records with one value of a field, oldest first. */
  function IdsWith(records: seq<Record>, key: Record -> string, value: string): seq<string> {
    if records == [] then []
    else
      var last := records[|records| - 1];
      IdsWith(records[..|records| - 1], key, value) + (if key(last) == value then [last.id] else [])
  }

  /** An index holds exactly the values that occur, but the empty one, and for each its ids in order. */
  lemma {:induction false} IndexExactly(records: seq<Record>, key: Record -> string, value: string)
    ensures value in IndexOf(records, key) <==> value != "" && IdsWith(records, key, value) != []
    ensures value != "" ==> Lookup(IndexOf(records, key), value) == IdsWith(records, key, value)
  {
    if records == [] {
    } else {
      IndexExactly(records[..|records| - 1], key, value);
    }
  }

  lemma {:induction false} IdsWithExactly(records: seq<Record>, key: Record -> string, value: string, id: string)
    ensures id in IdsWith(records, key, value) <==> exists r :: r in records && r.id == id && key(r) == value
  {
    if records == [] {
    } else {
      var before, last := records[..|records| - 1], records[|records| - 1];
      IdsWithExactly(before, key, value, id);
      forall r ensures r in records <==> r in before || r == last {
        assert records == before + [last];
      }
    }
  }

  lemma SameIdSameRecord(records: seq<Record>, a: Record, b: Record)
    requires Distinct(records) && a in records && b in records && a.id == b.id
    ensures a == b
  {
  }

  lemma LookupExactly(records: seq<Record>, key: Record -> string, value: string, r: Record)
    requires Distinct(records) && r in records && value != ""
    ensures r.id in Lookup(IndexOf(records, key), value) <==> key(r) == value
  {
    IndexExactly(records, key, value);
    IdsWithExactly(records, key, value, r.id);
    forall x | x in records && x.id == r.id ensures x == r {
      SameIdSameRecord(records, x, r);
    }
  }

  lemma {:induction false} ByIdExactly(records: seq<Record>, id: string)
    requires Distinct(records)
    ensures id in ByIdOf(records) <==> exists r :: r in records && r.id == id
    ensures id in ByIdOf(records) ==> ByIdOf(records)[id] in records && ByIdOf(records)[id].id == id
  {
    if records == [] {
    } else {
      var before, last := records[..|records| - 1], records[|records| - 1];
      ByIdExactly(before, id);
      assert records == before + [last];
      assert last in records;
    }
  }

  lemma CandidatesExactly(records: seq<Record>, f: Filter, candidates: Option<set<string>>)
    requires Distinct(records)
    requires candidates ==
      Narrowed(Narrowed(Narrowed(None, f.traceId, IndexOf(records, TraceOf)),
                        f.claimId, IndexOf(records, ClaimOf)), f.campaignRef, IndexOf(records, CampaignOf))
    ensures candidates.None? <==> f.traceId == "" && f.claimId == "" && f.campaignRef == ""
    ensures candidates.Some? ==> forall r :: r in records ==> (r.id in candidates.value <==> Identified(f, r))
  {
    if candidates.Some? {
      forall r | r in records ensures r.id in candidates.value <==> Identified(f, r) {
        if f.traceId != "" { LookupExactly(records, TraceOf, f.traceId, r); }
        if f.claimId != "" { LookupExactly(records, ClaimOf, f.claimId, r); }
        if f.campaignRef != "" { LookupExactly(records, CampaignOf, f.campaignRef, r); }
      }
    }
  }

  // ----- Queries answer the scan ----------------------------------------------------------

  lemma {:induction false} DistinctCount(records: seq<Record>, x: Record)
    requires Distinct(records)
    ensures multiset(records)[x] == if x in records then 1 else 0
  {
    if records == [] {
    } else {
      var before, last := records[..|records| - 1], records[|records| - 1];
      DistinctCount(before, x);
      assert records == before + [last];
      if x in before {
        assert x != last;
      }
    }
  }

  lemma NoIds(records: seq<Record>)
    requires Distinct(records)
    ensures multiset(WithIds(records, {})) == multiset{}
  {
    forall x ensures multiset(WithIds(records, {}))[x] == 0 {
      WithIdsCount(records, {}, x);
    }
  }

  lemma WithIdsCount(records: seq<Record>, ids: set<string>, x: Record)
    requires Distinct(records)
    ensures multiset(WithIds(records, ids))[x] == if x in records && x.id in ids then 1 else 0
  {
    SelectCount(records, (r: Record) => r.id in ids, x);
    DistinctCount(records, x);
  }

  lemma FetchOne(records: seq<Record>, done: set<string>, id: string)
    requires Distinct(records) && id !in done
    ensures multiset(WithIds(records, done + {id})) ==
            multiset(WithIds(records, done)) + if id in ByIdOf(records) then multiset{ByIdOf(records)[id]} else multiset{}
  {
    ByIdExactly(records, id);
    var one := if id in ByIdOf(records) then multiset{ByIdOf(records)[id]} else multiset{};
    forall x ensures multiset(WithIds(records, done + {id}))[x] == (multiset(WithIds(records, done)) + one)[x] {
      WithIdsCount(records, done, x);
      WithIdsCount(records, done + {id}, x);
      if x in records && x.id == id {
        SameIdSameRecord(records, x, ByIdOf(records)[id]);
      }
    }
  }

  lemma WithIdsAreCandidates(records: seq<Record>, f: Filter, ids: set<string>)
    requires forall r :: r in records ==> (r.id in ids <==> Identified(f, r))
    ensures multiset(WithIds(records, ids)) == multiset(Candidates(records, f))
  {
    forall x ensures multiset(WithIds(records, ids))[x] == multiset(Candidates(records, f))[x] {
      SelectCount(records, (r: Record) => r.id in ids, x);
      SelectCount(records, (r: Record) => Identified(f, r), x);
      assert x !in records ==> multiset(records)[x] == 0;
    }
  }

  lemma {:induction false} SelectEverything(s: seq<Record>, p: Record -> bool)
    requires forall r :: p(r)
    ensures Select(s, p) == s
  {
    if s == [] {
    } else {
      SelectEverything(s[1..], p);
    }
  }

  lemma ScanByType(records: seq<Record>, f: Filter)
    ensures OfType(Candidates(records, f), f.decisionType) == Scan(records, f)
    ensures f.traceId == "" && f.claimId == "" && f.campaignRef == "" ==> Candidates(records, f) == records
  {
    SelectBoth(records, (r: Record) => Identified(f, r), (r: Record) => Passes(f.decisionType, r.decisionType),
                (r: Record) => Identified(f, r) && Passes(f.decisionType, r.decisionType));
    if f.traceId == "" && f.claimId == "" && f.campaignRef == "" {
      SelectEverything(records, (r: Record) => Identified(f, r));
    }
  }

  /** What a query matches: the records that have every identifier and the type that it names. */
  lemma ScanExactly(records: seq<Record>, f: Filter, r: Record)
    ensures multiset(Scan(records, f))[r] ==
            if (f.traceId == "" || r.traceId == f.traceId) && (f.claimId == "" || r.claimId == f.claimId) &&
               (f.campaignRef == "" || r.campaignRef == f.campaignRef) &&
               (f.decisionType == "" || r.decisionType == f.decisionType)
            then multiset(records)[r] else 0
  {
    SelectCount(records, (x: Record) => Identified(f, x) && Passes(f.decisionType, x.decisionType), r);
  }

  lemma NewerOrder()
    ensures TotalOrder(Newer)
  {
  }

  lemma CutAnswers(matches: seq<Record>, matching: seq<Record>, limit: int)
    requires multiset(matches) == multiset(matching)
    ensures Answers(Cut(Sort(matches, Newer), limit), matching, limit)
  {
    NewerOrder();
    SortSorts(matches, Newer);
    var sorted := Sort(matches, Newer);
    assert |sorted| == |multiset(sorted)| == |multiset(matching)| == |matching|;
    var n := if 0 < limit < |sorted| then limit else |sorted|;
    assert Cut(sorted, limit) == sorted[..n];
    PrefixIsNewest(sorted, n);
  }

  lemma PrefixIsNewest(sorted: seq<Record>, n: nat)
    requires SortedBy(sorted, Newer) && n <= |sorted|
    ensures multiset(sorted[..n]) <= multiset(sorted)
    ensures forall x, y :: x in sorted[..n] && y in multiset(sorted) - multiset(sorted[..n]) ==> x.createdAt >= y.createdAt
  {
    var answer, rest := sorted[..n], sorted[n..];
    assert sorted == answer + rest;
    assert multiset(sorted) - multiset(answer) == multiset(rest);
    forall x, y | x in answer && y in rest ensures x.createdAt >= y.createdAt {
      EarlierIsNewer(sorted, n, x, y);
    }
  }

  lemma EarlierIsNewer(sorted: seq<Record>, n: nat, x: Record, y: Record)
    requires SortedBy(sorted, Newer) && n <= |sorted| && x in sorted[..n] && y in sorted[n..]
    ensures x.createdAt >= y.createdAt
  {
    var i :| 0 <= i < n && sorted[i] == x;
    var j :| n <= j < |sorted| && sorted[j] == y;
    assert Newer(sorted[i], sorted[j]);
  }

  // ----- Runs ---------------------------------------------------------------------------

  datatype Op =
    | Append(r: Record, appendOk: bool, now: real, rewriteOk: bool)
    | Prune(now: real, rewriteOk: bool)
    | Restart(now: real, rewriteOk: bool)

  function Step(s: State, retention: real, op: Op): State {
    match op
    case Append(r, appendOk, now, rewriteOk) => Recorded(s, retention, r, appendOk, now, rewriteOk)
    case Prune(now, rewriteOk) => Pruned(s, retention, now, rewriteOk)
    case Restart(now, rewriteOk) => Loaded(s.lines, retention, now, rewriteOk)
  }

  /** A store opened on a file at some time, and then operated. */
  datatype Opening = Opening(lines: seq<Line>, retention: real, now: real, rewriteOk: bool)

  function Run(o: Opening, ops: seq<Op>): State {
    if ops == [] then Loaded(o.lines, o.retention, o.now, o.rewriteOk)
    else Step(Run(o, ops[..|ops| - 1]), o.retention, ops[|ops| - 1])
  }

  /** The clock of a run never goes back; `createdAt` may be anything. */
  predicate MonotoneClock(o: Opening, ops: seq<Op>) {
    ops == [] || (MonotoneClock(o, ops[..|ops| - 1]) && LastTime(o, ops[..|ops| - 1]) <= LastTime(o, ops))
  }

  function LastTime(o: Opening, ops: seq<Op>): real {
    if ops == [] then o.now else ops[|ops| - 1].now
  }

  /** All that was in the file at first and all that was accepted since, in order. */
  function Everything(o: Opening, ops: seq<Op>): seq<Record> {
    if ops == [] then Parsed(o.lines) else Everything(o, ops[..|ops| - 1]) + Accepted(ops[|ops| - 1])
  }

  function Accepted(op: Op): seq<Record> {
    if op.Append? && op.appendOk then [op.r] else []
  }

  // ----- Restart equivalence ----------------------------------------------------------------

  lemma {:induction false} ParsedLines(records: seq<Record>)
    ensures Parsed(Lines(records)) == records
  {
    if records == [] {
    } else {
      var before := records[..|records| - 1];
      ParsedLines(before);
      assert Lines(records)[..|records| - 1] == Lines(before);
    }
  }

  lemma {:induction false} KeepsAll(records: seq<Record>, retention: real, now: real)
    requires retention <= 0.0
    ensures Live(records, retention, now) == records
  {
    if records == [] {
    } else {
      KeepsAll(records[..|records| - 1], retention, now);
    }
  }

  lemma {:induction false} SameLengthSameRecords(records: seq<Record>, retention: real, now: real)
    requires |Live(records, retention, now)| == |records|
    ensures Live(records, retention, now) == records
  {
    if records == [] {
    } else {
      SameLengthSameRecords(records[..|records| - 1], retention, now);
    }
  }

  lemma {:induction false} LiveAgain(records: seq<Record>, retention: real, now: real, later: real)
    requires now <= later
    ensures Live(Live(records, retention, now), retention, later) == Live(records, retention, later)
  {
    if records == [] {
    } else {
      var before, last := records[..|records| - 1], records[|records| - 1];
      LiveAgain(before, retention, now, later);
      if Keeps(retention, now, last) {
        LiveSnoc(Live(before, retention, now), last, retention, later);
      } else {
        assert Live(records, retention, now) == Live(before, retention, now);
        assert Live(records, retention, later) == Live(before, retention, later);
      }
    }
  }

  lemma LiveSnoc(records: seq<Record>, r: Record, retention: real, now: real)
    ensures Live(records + [r], retention, now) ==
            Live(records, retention, now) + if Keeps(retention, now, r) then [r] else []
  {
    assert (records + [r])[..|records|] == records;
  }

  /** Two lists of records that no later pruning can tell apart. */
  ghost predicate Agree(xs: seq<Record>, ys: seq<Record>, retention: real, since: real) {
    forall t :: t >= since ==> Live(xs, retention, t) == Live(ys, retention, t)
  }

  lemma PrunedAgrees(xs: seq<Record>, ys: seq<Record>, retention: real, since: real, now: real)
    requires since <= now && Agree(xs, ys, retention, since)
    ensures Agree(Live(xs, retention, now), ys, retention, now)
  {
    forall t | t >= now ensures Live(Live(xs, retention, now), retention, t) == Live(ys, retention, t) {
      LiveAgain(xs, retention, now, t);
    }
  }

  lemma SnocAgrees(xs: seq<Record>, ys: seq<Record>, r: Record, retention: real, since: real)
    requires Agree(xs, ys, retention, since)
    ensures Agree(xs + [r], ys + [r], retention, since)
  {
    forall t | t >= since ensures Live(xs + [r], retention, t) == Live(ys + [r], retention, t) {
      LiveSnoc(xs, r, retention, t);
      LiveSnoc(ys, r, retention, t);
    }
  }

  /** Memory and file each agree with everything ever accepted. */
  ghost predicate Faithful(s: State, all: seq<Record>, retention: real, since: real) {
    Agree(s.records, all, retention, since) && Agree(Parsed(s.lines), all, retention, since)
  }

  lemma PrunedFaithful(s: State, all: seq<Record>, retention: real, since: real, now: real, rewriteOk: bool)
    requires since <= now && Faithful(s, all, retention, since)
    ensures Faithful(Pruned(s, retention, now, rewriteOk), all, retention, now)
  {
    PrunedAgrees(s.records, all, retention, since, now);
    ParsedLines(Live(s.records, retention, now));
  }

  lemma RecordedFaithful(s: State, all: seq<Record>, retention: real, since: real, r: Record, now: real, rewriteOk: bool)
    requires since <= now && Faithful(s, all, retention, since)
    ensures Faithful(Recorded(s, retention, r, true, now, rewriteOk), all + [r], retention, now)
  {
    SnocAgrees(s.records, all, r, retention, since);
    SnocAgrees(Parsed(s.lines), all, r, retention, since);
    var lines := s.lines + [Entry(r)];
    assert lines[..|lines| - 1] == s.lines;
    var s' := State(lines, s.records + [r], 0);
    PrunedFaithful(s', all + [r], retention, since, now, rewriteOk);
  }

  lemma StepFaithful(s: State, all: seq<Record>, retention: real, since: real, op: Op)
    requires since <= op.now && Faithful(s, all, retention, since)
    ensures Faithful(Step(s, retention, op), all + Accepted(op), retention, op.now)
  {
    assert !(op.Append? && op.appendOk) ==> all + Accepted(op) == all;
    match op
    case Append(r, appendOk, now, rewriteOk) =>
      if appendOk {
        RecordedFaithful(s, all, retention, since, r, now, rewriteOk);
      }
    case Prune(now, rewriteOk) =>
      PrunedFaithful(s, all, retention, since, now, rewriteOk);
    case Restart(now, rewriteOk) =>
      PrunedFaithful(State(s.lines, Parsed(s.lines), 0), all, retention, since, now, rewriteOk);
  }

  lemma {:induction false} RunFaithful(o: Opening, ops: seq<Op>)
    requires MonotoneClock(o, ops)
    ensures Faithful(Run(o, ops), Everything(o, ops), o.retention, LastTime(o, ops))
  {
    if ops == [] {
      PrunedFaithful(State(o.lines, Parsed(o.lines), 0), Parsed(o.lines), o.retention, o.now, o.now, o.rewriteOk);
    } else {
      var earlier, op := ops[..|ops| - 1], ops[|ops| - 1];
      RunFaithful(o, earlier);
      StepFaithful(Run(o, earlier), Everything(o, earlier), o.retention, LastTime(o, earlier), op);
    }
  }

  /** After any run of appends, prunes, failed rewrites and reloads, loading the file at any later
      time gives exactly the records in memory pruned at that time, in the same order. */
  lemma RestartEquivalence(o: Opening, ops: seq<Op>, t: real, rewriteOk: bool)
    requires MonotoneClock(o, ops) && t >= LastTime(o, ops)
    ensures Loaded(Run(o, ops).lines, o.retention, t, rewriteOk).records == Live(Run(o, ops).records, o.retention, t)
  {
    RunFaithful(o, ops);
    var records := Parsed(Run(o, ops).lines);
    if |Live(records, o.retention, t)| == |records| {
      SameLengthSameRecords(records, o.retention, t);
    }
  }

  /** And those are all the records ever accepted that have not expired: none is lost, none is made
      up, none moves. */
  lemma NothingLost(o: Opening, ops: seq<Op>, t: real)
    requires MonotoneClock(o, ops) && t >= LastTime(o, ops)
    ensures Live(Run(o, ops).records, o.retention, t) == Live(Everything(o, ops), o.retention, t)
  {
    RunFaithful(o, ops);
  }

  lemma {:induction false} LiveCount(records: seq<Record>, retention: real, now: real, r: Record)
    ensures multiset(Live(records, retention, now))[r] ==
            if retention <= 0.0 || r.createdAt >= now - retention then multiset(records)[r] else 0
  {
    if records == [] {
    } else {
      var before, last := records[..|records| - 1], records[|records| - 1];
      LiveCount(before, retention, now, r);
      assert records == before + [last];
      assert multiset(records) == multiset(before) + multiset{last};
      LiveSnoc(before, last, retention, now);
    }
  }

  /** What is held after any run: with a retention of zero or less everything ever accepted, else at
      least all that is no older than it; and never less often, or more often, than it was accepted. */
  lemma HeldExactly(o: Opening, ops: seq<Op>, r: Record)
    requires MonotoneClock(o, ops) && (o.retention <= 0.0 || r.createdAt >= LastTime(o, ops) - o.retention)
    ensures multiset(Run(o, ops).records)[r] == multiset(Everything(o, ops))[r]
    ensures multiset(Parsed(Run(o, ops).lines))[r] == multiset(Everything(o, ops))[r]
  {
    RunFaithful(o, ops);
    var now := LastTime(o, ops);
    LiveCount(Run(o, ops).records, o.retention, now, r);
    LiveCount(Parsed(Run(o, ops).lines), o.retention, now, r);
    LiveCount(Everything(o, ops), o.retention, now, r);
  }

  // ----- When expired records go ------------------------------------------------------------

  /** The appends that succeeded since the store was last opened. */
  function Writes(ops: seq<Op>): nat {
    if ops == [] then 0
    else
      var earlier, op := ops[..|ops| - 1], ops[|ops| - 1];
      match op
      case Append(_, appendOk, _, _) => Writes(earlier) + (if appendOk then 1 else 0)
      case Prune(_, _) => Writes(earlier)
      case Restart(_, _) => 0
  }

  lemma NextOfHundred(n: nat)
    ensures (n + 1) % 100 == if n % 100 + 1 >= 100 then 0 else n % 100 + 1
  {
  }

  lemma StepWrites(s: State, retention: real, op: Op)
    requires s.writes < 100
    ensures Step(s, retention, op).writes ==
            match op
            case Append(_, appendOk, _, _) => if !appendOk then s.writes else if s.writes + 1 >= 100 then 0 else s.writes + 1
            case Prune(_, _) => s.writes
            case Restart(_, _) => 0
  {
  }

  lemma {:induction false} WritesCounted(o: Opening, ops: seq<Op>)
    ensures Run(o, ops).writes == Writes(ops) % 100
  {
    if ops == [] {
    } else {
      var earlier := ops[..|ops| - 1];
      WritesCounted(o, earlier);
      StepWrites(Run(o, earlier), o.retention, ops[|ops| - 1]);
      NextOfHundred(Writes(earlier));
    }
  }

  ghost predicate NoneExpired(records: seq<Record>, retention: real, now: real) {
    forall r :: r in records ==> retention <= 0.0 || r.createdAt >= now - retention
  }

  lemma PrunedNoneExpired(s: State, retention: real, now: real, rewriteOk: bool)
    ensures NoneExpired(Pruned(s, retention, now, rewriteOk).records, retention, now)
  {
    var keep := Live(s.records, retention, now);
    forall r | r in keep ensures retention <= 0.0 || r.createdAt >= now - retention {
      LiveCount(s.records, retention, now, r);
      assert r in multiset(keep);
    }
    if |keep| == |s.records| {
      SameLengthSameRecords(s.records, retention, now);
    }
  }

  /** The file was rewritten to the records that are left, if any went and that succeeded; else it is as
      it was. */
  ghost predicate Compacted(lines: seq<Line>, records: seq<Record>, rewriteOk: bool, s': State) {
    if s'.records != records && rewriteOk then Parsed(s'.lines) == s'.records && |s'.lines| == |s'.records|
    else s'.lines == lines
  }

  lemma PrunedCompacted(s: State, retention: real, now: real, rewriteOk: bool)
    ensures Compacted(s.lines, s.records, rewriteOk, Pruned(s, retention, now, rewriteOk))
  {
    var keep := Live(s.records, retention, now);
    ParsedLines(keep);
    if |keep| == |s.records| {
      SameLengthSameRecords(s.records, retention, now);
    }
  }

  ghost predicate Swept(s: State, retention: real, op: Op, full: bool, s': State) {
    && (op.Prune? ==> Compacted(s.lines, s.records, op.rewriteOk, s'))
    && (op.Restart? ==> Compacted(s.lines, Parsed(s.lines), op.rewriteOk, s'))
    && (op.Append? && op.appendOk && full ==>
          Compacted(s.lines + [Entry(op.r)], s.records + [op.r], op.rewriteOk, s'))
    && (op.Prune? || op.Restart? || (op.Append? && op.appendOk && full) ==> NoneExpired(s'.records, retention, op.now))
    && (op.Append? && op.appendOk && !full ==>
          s'.records == s.records + [op.r] && s'.lines == s.lines + [Entry(op.r)])
    && (op.Append? && !op.appendOk ==> s' == s)
  }

  lemma StepSwept(s: State, retention: real, op: Op)
    ensures Swept(s, retention, op, s.writes + 1 >= 100, Step(s, retention, op))
  {
    match op
    case Append(r, _, now, rewriteOk) =>
      PrunedNoneExpired(State(s.lines + [Entry(r)], s.records + [r], 0), retention, now, rewriteOk);
      PrunedCompacted(State(s.lines + [Entry(r)], s.records + [r], 0), retention, now, rewriteOk);
    case Prune(now, rewriteOk) =>
      PrunedNoneExpired(s, retention, now, rewriteOk);
      PrunedCompacted(s, retention, now, rewriteOk);
    case Restart(now, rewriteOk) =>
      PrunedNoneExpired(State(s.lines, Parsed(s.lines), 0), retention, now, rewriteOk);
      PrunedCompacted(State(s.lines, Parsed(s.lines), 0), retention, now, rewriteOk);
  }

  /** Expired records leave when the store is opened, when it is pruned, and with every hundredth
      append since it was opened, and then the file is compacted; at any other append nothing leaves. */
  lemma SweptExactly(o: Opening, ops: seq<Op>)
    requires ops != []
    ensures Swept(Run(o, ops[..|ops| - 1]), o.retention, ops[|ops| - 1], Writes(ops) % 100 == 0, Run(o, ops))
  {
    var earlier := ops[..|ops| - 1];
    WritesCounted(o, earlier);
    NextOfHundred(Writes(earlier));
    StepSwept(Run(o, earlier), o.retention, ops[|ops| - 1]);
  }

  // ----- Ids stay distinct ------------------------------------------------------------------

  ghost predicate DrawnFrom(xs: seq<Record>, all: seq<Record>) {
    Distinct(xs) && forall r :: r in xs ==> r in all
  }

  lemma {:induction false} LiveDrawn(xs: seq<Record>, all: seq<Record>, retention: real, now: real)
    requires DrawnFrom(xs, all)
    ensures DrawnFrom(Live(xs, retention, now), all)
    ensures forall r :: r in Live(xs, retention, now) ==> r in xs
  {
    if xs == [] {
    } else {
      var before, last := xs[..|xs| - 1], xs[|xs| - 1];
      assert xs == before + [last];
      forall r | r in before ensures r in all && r.id != last.id {
        assert r in xs;
        var i :| 0 <= i < |before| && before[i] == r;
        assert xs[i] == r;
      }
      LiveDrawn(before, all, retention, now);
    }
  }

  lemma SnocDrawn(xs: seq<Record>, all: seq<Record>, r: Record)
    requires DrawnFrom(xs, all) && Distinct(all + [r])
    ensures DrawnFrom(xs + [r], all + [r])
  {
    forall x | x in xs ensures x.id != r.id {
      var i :| 0 <= i < |all| && all[i] == x;
      assert (all + [r])[i] == x && (all + [r])[|all|] == r;
    }
  }

  lemma PrunedDrawn(s: State, all: seq<Record>, retention: real, now: real, rewriteOk: bool)
    requires DrawnFrom(s.records, all) && DrawnFrom(Parsed(s.lines), all)
    ensures StateDrawn(Pruned(s, retention, now, rewriteOk), all)
  {
    LiveDrawn(s.records, all, retention, now);
    ParsedLines(Live(s.records, retention, now));
  }

  ghost predicate StateDrawn(s: State, all: seq<Record>) {
    DrawnFrom(s.records, all) && DrawnFrom(Parsed(s.lines), all)
  }

  lemma AppendedDrawn(s: State, all: seq<Record>, r: Record)
    requires StateDrawn(s, all) && Distinct(all + [r])
    ensures DrawnFrom(s.records + [r], all + [r]) && DrawnFrom(Parsed(s.lines + [Entry(r)]), all + [r])
  {
    SnocDrawn(s.records, all, r);
    SnocDrawn(Parsed(s.lines), all, r);
    var lines := s.lines + [Entry(r)];
    assert lines[..|lines| - 1] == s.lines;
    assert Parsed(lines) == Parsed(s.lines) + [r];
  }

  lemma StepDrawn(s: State, all: seq<Record>, retention: real, op: Op)
    requires StateDrawn(s, all) && Distinct(all + Accepted(op))
    ensures StateDrawn(Step(s, retention, op), all + Accepted(op))
  {
    assert !(op.Append? && op.appendOk) ==> all + Accepted(op) == all;
    match op
    case Append(r, appendOk, now, rewriteOk) =>
      if appendOk {
        AppendedDrawn(s, all, r);
        PrunedDrawn(State(s.lines + [Entry(r)], s.records + [r], 0), all + [r], retention, now, rewriteOk);
      }
    case Prune(now, rewriteOk) =>
      PrunedDrawn(s, all, retention, now, rewriteOk);
    case Restart(now, rewriteOk) =>
      PrunedDrawn(State(s.lines, Parsed(s.lines), 0), all, retention, now, rewriteOk);
  }

  lemma DistinctPrefix(all: seq<Record>, more: seq<Record>)
    requires Distinct(all + more)
    ensures Distinct(all)
  {
    assert forall i :: 0 <= i < |all| ==> all[i] == (all + more)[i];
  }

  lemma {:induction false} RunDrawn(o: Opening, ops: seq<Op>)
    requires Distinct(Everything(o, ops))
    ensures StateDrawn(Run(o, ops), Everything(o, ops))
  {
    if ops == [] {
      PrunedDrawn(State(o.lines, Parsed(o.lines), 0), Parsed(o.lines), o.retention, o.now, o.rewriteOk);
    } else {
      var earlier, op := ops[..|ops| - 1], ops[|ops| - 1];
      DistinctPrefix(Everything(o, earlier), Accepted(op));
      RunDrawn(o, earlier);
      StepDrawn(Run(o, earlier), Everything(o, earlier), o.retention, op);
    }
  }

  /** As long as ids are not reused, a store may be queried at any point of any run. */
  lemma RunKeepsIdsDistinct(o: Opening, ops: seq<Op>)
    requires Distinct(Everything(o, ops))
    ensures Distinct(Run(o, ops).records)
  {
    RunDrawn(o, ops);
  }
}
