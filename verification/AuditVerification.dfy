/** The verification walk over the audit log (app/backend/src/audit/audit-chain.service.ts, `verify`)
    and what it says about the log. */
module AuditVerification {
  import opened Basics
  import opened Json
  import opened JsonMeaning
  import opened JsonCanonical
  import opened JsonReader
  import opened JsonSettled
  import opened AuditChain

  /** `JSON.parse`, which fails on what is not JSON. */
  type Parse = Text -> Option<Value>

  /** What the walk checks rows with. */
  datatype Checker = Checker(seal: Seal, parse: Parse)

  /** A sealed row as `verify` reads it. A row with a deletion stamp was anonymized. */
  datatype Row = Row(entry: Entry, anonymized: bool)

  datatype Walk = Walk(expectedPrevHash: Text, headHash: Option<Text>, prevSeen: Option<int>, issues: nat)

  const MAX_ISSUES := 50

  /** The visible metadata equals what the canonical text says. */
  predicate MetadataMatches(parse: Parse, e: Entry) {
    && e.metadataCanonical.Some?
    && parse(e.metadataCanonical.value).Some?
    && DeepEqual(parse(e.metadataCanonical.value).value, if e.metadata.Some? then e.metadata.value else Null)
  }

  predicate RowFolds(c: Checker, expectedPrevHash: Text, e: Entry) {
    && e.entryHash.Some?
    && FoldChainStep(c.seal, Some(expectedPrevHash), e).Ok?
    && MetadataMatches(c.parse, e)
  }

  function WalkRow(c: Checker, w: Walk, row: Row): Walk
    requires row.entry.entryHash.Some?
  {
    if w.issues >= MAX_ISSUES then w
    else if row.entry.sequence.None? then w.(issues := w.issues + 1)
    else
      var rewound := w.prevSeen.Some? && row.entry.sequence.value <= w.prevSeen.value;
      var failed := !row.anonymized && !RowFolds(c, w.expectedPrevHash, row.entry);
      Walk(row.entry.entryHash.value, row.entry.entryHash, row.entry.sequence,
           w.issues + (if rewound then 1 else 0) + (if failed then 1 else 0))
  }

  predicate AllSealed(rows: seq<Row>) {
    forall i :: 0 <= i < |rows| ==> rows[i].entry.entryHash.Some?
  }

  function WalkRows(c: Checker, rows: seq<Row>): Walk
    requires AllSealed(rows)
  {
    if rows == [] then Walk(GENESIS, None, None, 0)
    else WalkRow(c, WalkRows(c, rows[..|rows| - 1]), rows[|rows| - 1])
  }

  /** `verifyChain().valid`. An empty log is valid before the anchor is ever looked at. */
  predicate Valid(c: Checker, rows: seq<Row>, expectedHeadHash: Option<Text>)
    requires AllSealed(rows)
  {
    if rows == [] then true
    else
      var w := WalkRows(c, rows);
      && w.issues == 0
      && (expectedHeadHash.Some? && expectedHeadHash.value != [] && w.headHash.Some? ==>
            w.headHash.value == expectedHeadHash.value)
  }

  // ----- The loop -------------------------------------------------------------------------

  /** One turn of the loop. */
  method VerifyRow(c: Checker, w: Walk, row: Row) returns (after: Walk)
    requires row.entry.entryHash.Some? && w.issues < MAX_ISSUES
    ensures after == WalkRow(c, w, row)
  {
    var issues := w.issues;
    if row.entry.sequence.None? {
      return w.(issues := issues + 1);
    }
    if w.prevSeen.Some? && row.entry.sequence.value <= w.prevSeen.value {
      issues := issues + 1;
    }
    if !row.anonymized && !RowFolds(c, w.expectedPrevHash, row.entry) {
      issues := issues + 1;
    }
    return Walk(row.entry.entryHash.value, row.entry.entryHash, row.entry.sequence, issues);
  }

  /** The walk as the service runs it, stopping at the issue limit. */
  method VerifyChain(c: Checker, rows: seq<Row>, expectedHeadHash: Option<Text>) returns (valid: bool)
    requires AllSealed(rows)
    ensures valid == Valid(c, rows, expectedHeadHash)
  {
    if rows == [] {
      return true;
    }
    var w := WalkAll(c, rows);
    WalkFromIs(c, [], rows);
    assert [] + rows == rows;
    var mismatch := expectedHeadHash.Some? && expectedHeadHash.value != [] && w.headHash.Some?
                    && w.headHash.value != expectedHeadHash.value;
    return w.issues == 0 && !mismatch;
  }

  /** The walk read from its first row on. */
  function WalkFrom(c: Checker, w: Walk, rows: seq<Row>): Walk
    requires AllSealed(rows)
    decreases |rows|
  {
    if rows == [] then w else WalkFrom(c, WalkRow(c, w, rows[0]), rows[1..])
  }

  method WalkAll(c: Checker, rows: seq<Row>) returns (w: Walk)
    requires AllSealed(rows)
    ensures w == WalkFrom(c, Walk(GENESIS, None, None, 0), rows)
  {
    w := Walk(GENESIS, None, None, 0);
    var i := 0;
    while i < |rows| && w.issues < MAX_ISSUES
      invariant 0 <= i <= |rows|
      invariant WalkFrom(c, w, rows[i..]) == WalkFrom(c, Walk(GENESIS, None, None, 0), rows)
    {
      w := VerifyRow(c, w, rows[i]);
      i := i + 1;
    }
    if i < |rows| {
      LimitStands(c, w, rows[i..]);
    }
  }

  /** Past the limit the walk does not change any more. */
  lemma {:induction false} LimitStands(c: Checker, w: Walk, rows: seq<Row>)
    requires AllSealed(rows) && w.issues >= MAX_ISSUES
    ensures WalkFrom(c, w, rows) == w
    decreases |rows|
  {
    if rows == [] {
    } else {
      LimitStands(c, w, rows[1..]);
    }
  }

  lemma {:induction false} WalkFromIs(c: Checker, done: seq<Row>, rest: seq<Row>)
    requires AllSealed(done) && AllSealed(rest) && AllSealed(done + rest)
    ensures WalkFrom(c, WalkRows(c, done), rest) == WalkRows(c, done + rest)
    decreases |rest|
  {
    if rest == [] {
      assert done + rest == done;
    } else {
      var row, more := rest[0], rest[1..];
      Regroup(done, [row], more);
      assert rest == [row] + more;
      WalkSnoc(c, done, row);
      WalkFromIs(c, done + [row], more);
    }
  }

  lemma SealedSnoc(before: seq<Row>, row: Row)
    ensures AllSealed(before + [row]) <==> AllSealed(before) && row.entry.entryHash.Some?
  {
    var all := before + [row];
    assert all[|before|] == row;
    assert forall i :: 0 <= i < |before| ==> all[i] == before[i];
  }

  lemma WalkSnoc(c: Checker, before: seq<Row>, row: Row)
    requires AllSealed(before + [row]) || (AllSealed(before) && row.entry.entryHash.Some?)
    ensures AllSealed(before) && AllSealed(before + [row]) && row.entry.entryHash.Some?
    ensures WalkRows(c, before + [row]) == WalkRow(c, WalkRows(c, before), row)
  {
    SealedSnoc(before, row);
    var all := before + [row];
    assert all[..|all| - 1] == before;
  }

  // ----- What validity means --------------------------------------------------------------

  /** The hash stored in the last of some rows, or genesis. */
  function StoredHead(rows: seq<Row>): Text {
    if rows == [] then GENESIS else OrElse(rows[|rows| - 1].entry.entryHash, GENESIS)
  }

  predicate Rising(a: Row, b: Row) {
    a.entry.sequence.Some? && b.entry.sequence.Some? && a.entry.sequence.value < b.entry.sequence.value
  }

  /** A row that follows `before`: it has a sequence number, greater than the one in front of it, and
      is anonymized or continues the chain from the hash stored in front of it. */
  predicate Follows(c: Checker, before: seq<Row>, row: Row) {
    && row.entry.sequence.Some?
    && (before != [] ==> Rising(before[|before| - 1], row))
    && (row.anonymized || RowFolds(c, StoredHead(before), row.entry))
  }

  predicate AllFollow(c: Checker, rows: seq<Row>) {
    rows == [] ||
    (AllFollow(c, rows[..|rows| - 1]) && Follows(c, rows[..|rows| - 1], rows[|rows| - 1]))
  }

  lemma AllFollowSnoc(c: Checker, before: seq<Row>, row: Row)
    ensures AllFollow(c, before + [row]) <==> AllFollow(c, before) && Follows(c, before, row)
  {
    var all := before + [row];
    assert all[..|all| - 1] == before && all[|all| - 1] == row;
  }

  ghost predicate WalkIs(c: Checker, rows: seq<Row>)
    requires AllSealed(rows)
  {
    var w := WalkRows(c, rows);
    && (w.issues == 0 <==> AllFollow(c, rows))
    && (w.issues == 0 ==>
          w == Walk(StoredHead(rows), if rows == [] then None else Some(StoredHead(rows)),
                    if rows == [] then None else rows[|rows| - 1].entry.sequence, 0))
  }

  lemma WalkIsSnoc(c: Checker, before: seq<Row>, row: Row)
    requires AllSealed(before) && row.entry.entryHash.Some? && AllSealed(before + [row]) && WalkIs(c, before)
    ensures WalkIs(c, before + [row])
  {
    WalkSnoc(c, before, row);
    AllFollowSnoc(c, before, row);
    StepIs(c, WalkRows(c, before), before, row);
    assert StoredHead(before + [row]) == row.entry.entryHash.value;
  }

  lemma StepIs(c: Checker, w: Walk, before: seq<Row>, row: Row)
    requires row.entry.entryHash.Some?
    requires w.issues == 0 ==>
               && w.expectedPrevHash == StoredHead(before)
               && w.prevSeen == (if before == [] then None else before[|before| - 1].entry.sequence)
               && (before != [] ==> w.prevSeen.Some?)
    ensures WalkRow(c, w, row).issues == 0 <==> w.issues == 0 && Follows(c, before, row)
    ensures WalkRow(c, w, row).issues == 0 ==>
              WalkRow(c, w, row) == Walk(row.entry.entryHash.value, row.entry.entryHash, row.entry.sequence, 0)
  {
  }

  lemma LastHasSequence(c: Checker, rows: seq<Row>)
    requires rows != [] && AllFollow(c, rows)
    ensures rows[|rows| - 1].entry.sequence.Some?
  {
  }

  lemma {:induction false} WalkFindsExactly(c: Checker, rows: seq<Row>)
    requires AllSealed(rows)
    ensures WalkIs(c, rows)
  {
    if rows == [] {
    } else {
      var before, row := rows[..|rows| - 1], rows[|rows| - 1];
      WalkFindsExactly(c, before);
      if before != [] && AllFollow(c, before) {
        LastHasSequence(c, before);
      }
      assert rows == before + [row];
      WalkIsSnoc(c, before, row);
    }
  }

  /** A log passes exactly when every row follows the ones before it, and then its anchor, if one is
      given, is the hash stored last. The exception is the empty log, which passes with any anchor. */
  lemma ValidExactly(c: Checker, rows: seq<Row>, anchor: Option<Text>)
    requires AllSealed(rows)
    ensures Valid(c, rows, anchor) <==>
            rows == [] ||
            (AllFollow(c, rows) && (anchor.Some? && anchor.value != [] ==> anchor.value == StoredHead(rows)))
  {
    WalkFindsExactly(c, rows);
  }

  /** In a log that passes the sequence numbers rise strictly from row to row, anonymized ones included. */
  lemma NumbersRise(c: Checker, rows: seq<Row>, anchor: Option<Text>, i: nat, j: nat)
    requires AllSealed(rows) && Valid(c, rows, anchor) && i < j < |rows|
    ensures rows[i].entry.sequence.Some? && rows[j].entry.sequence.Some?
    ensures rows[i].entry.sequence.value < rows[j].entry.sequence.value
  {
    ValidExactly(c, rows, anchor);
    FollowRises(c, rows, i, j);
  }

  lemma {:induction false} FollowRises(c: Checker, rows: seq<Row>, i: nat, j: nat)
    requires AllFollow(c, rows) && i < j < |rows|
    ensures rows[i].entry.sequence.Some? && rows[j].entry.sequence.Some?
    ensures rows[i].entry.sequence.value < rows[j].entry.sequence.value
  {
    var before := rows[..|rows| - 1];
    if j < |before| {
      FollowRises(c, before, i, j);
    } else if i < j - 1 {
      FollowRises(c, before, i, j - 1);
    }
  }

  // ----- What an anchor pins ----------------------------------------------------------------

  function Entries(rows: seq<Row>): (r: seq<Entry>)
    ensures |r| == |rows|
    ensures forall i :: 0 <= i < |rows| ==> r[i] == rows[i].entry
  {
    if rows == [] then [] else [rows[0].entry] + Entries(rows[1..])
  }

  /** The last `n` rows are not anonymized. */
  predicate KeptFrom(rows: seq<Row>, n: nat) {
    n == 0 ||
    (rows != [] && !rows[|rows| - 1].anonymized && KeptFrom(rows[..|rows| - 1], n - 1))
  }

  /** Two lists agree on their last `n` rows, field by field. */
  ghost predicate SameTail(xs: seq<Row>, ys: seq<Row>, n: nat) {
    n == 0 ||
    (&& xs != [] && ys != []
     && SameRow(xs[|xs| - 1].entry, ys[|ys| - 1].entry)
     && SameTail(xs[..|xs| - 1], ys[..|ys| - 1], n - 1))
  }

  lemma {:induction false} KeptLess(rows: seq<Row>, n: nat, m: nat)
    requires KeptFrom(rows, n) && m <= n
    ensures KeptFrom(rows, m)
  {
    if m == 0 {
    } else {
      KeptLess(rows[..|rows| - 1], n - 1, m - 1);
    }
  }

  ghost predicate Binds(c: Checker, es: set<Entry>) {
    forall e, f :: e in es && f in es && c.seal(e) == c.seal(f) ==> SameRow(e, f)
  }

  predicate AllIn(rows: seq<Row>, es: set<Entry>) {
    forall row :: row in rows ==> row.entry in es
  }

  lemma LastFolds(c: Checker, rows: seq<Row>, n: nat)
    requires AllSealed(rows) && AllFollow(c, rows) && KeptFrom(rows, n) && n > 0
    ensures rows != []
    ensures var before, e := rows[..|rows| - 1], rows[|rows| - 1].entry;
            && AllSealed(before) && AllFollow(c, before) && KeptFrom(before, n - 1)
            && StoredHead(rows) == c.seal(e) && StoredHead(before) == PrevOf(e)
  {
    var before, row := rows[..|rows| - 1], rows[|rows| - 1];
    assert rows == before + [row];
    AllFollowSnoc(c, before, row);
    SealedSnoc(before, row);
  }

  lemma AllInBefore(rows: seq<Row>, es: set<Entry>)
    requires AllIn(rows, es) && rows != []
    ensures AllIn(rows[..|rows| - 1], es) && rows[|rows| - 1].entry in es
  {
    assert rows[|rows| - 1] in rows;
  }

  /** A log that follows, with its last `n` rows kept and its entries in `es`. */
  ghost predicate Tail(c: Checker, rows: seq<Row>, n: nat, es: set<Entry>) {
    AllSealed(rows) && AllFollow(c, rows) && KeptFrom(rows, n) && AllIn(rows, es)
  }

  lemma TailStep(c: Checker, rows: seq<Row>, n: nat, es: set<Entry>)
    requires Tail(c, rows, n, es) && n > 0
    ensures rows != []
    ensures var before, e := rows[..|rows| - 1], rows[|rows| - 1].entry;
            && Tail(c, before, n - 1, es) && e in es
            && StoredHead(rows) == c.seal(e) && StoredHead(before) == PrevOf(e)
  {
    LastFolds(c, rows, n);
    AllInBefore(rows, es);
  }

  /** The last `n` entries hash alike, and what is stored in front of them is the same. */
  ghost predicate Pinned(c: Checker, xs: seq<Row>, ys: seq<Row>, n: nat) {
    if n == 0 then StoredHead(xs) == StoredHead(ys)
    else
      && xs != [] && ys != []
      && c.seal(xs[|xs| - 1].entry) == c.seal(ys[|ys| - 1].entry)
      && Pinned(c, xs[..|xs| - 1], ys[..|ys| - 1], n - 1)
  }

  /** Two such logs with one head. */
  ghost predicate OneHead(c: Checker, xs: seq<Row>, ys: seq<Row>, n: nat, es: set<Entry>) {
    Tail(c, xs, n, es) && Tail(c, ys, n, es) && StoredHead(xs) == StoredHead(ys)
  }

  lemma HeadStep(c: Checker, xs: seq<Row>, ys: seq<Row>, n: nat, es: set<Entry>) returns (x: seq<Row>, y: seq<Row>)
    requires OneHead(c, xs, ys, n, es) && ShowsLinks(c.seal, es) && n > 0
    ensures OneHead(c, x, y, n - 1, es)
    ensures Pinned(c, x, y, n - 1) ==> Pinned(c, xs, ys, n)
  {
    TailStep(c, xs, n, es);
    TailStep(c, ys, n, es);
    x, y := xs[..|xs| - 1], ys[..|ys| - 1];
  }

  lemma {:induction false} HeadPins(c: Checker, xs: seq<Row>, ys: seq<Row>, n: nat, es: set<Entry>)
    requires OneHead(c, xs, ys, n, es) && ShowsLinks(c.seal, es)
    ensures Pinned(c, xs, ys, n)
    decreases n
  {
    if n == 0 {
    } else {
      var x, y := HeadStep(c, xs, ys, n, es);
      HeadPins(c, x, y, n - 1, es);
    }
  }

  lemma {:induction false} PinnedBinds(c: Checker, xs: seq<Row>, ys: seq<Row>, n: nat, es: set<Entry>)
    requires Pinned(c, xs, ys, n) && AllIn(xs, es) && AllIn(ys, es) && Binds(c, es)
    ensures SameTail(xs, ys, n)
  {
    if n == 0 {
    } else {
      AllInBefore(xs, es);
      AllInBefore(ys, es);
      PinnedBinds(c, xs[..|xs| - 1], ys[..|ys| - 1], n - 1, es);
    }
  }

  lemma {:induction false} PinnedFront(c: Checker, xs: seq<Row>, ys: seq<Row>, n: nat)
    requires Pinned(c, xs, ys, n)
    ensures n <= |xs| && n <= |ys| && FrontsAgree(xs, ys, n)
  {
    if n == 0 {
      assert xs[..|xs|] == xs && ys[..|ys|] == ys;
    } else {
      PinnedFront(c, xs[..|xs| - 1], ys[..|ys| - 1], n - 1);
      FrontsStep(xs, ys, n);
    }
  }

  /** What is stored in front of the last `n` rows is the same. */
  predicate FrontsAgree(xs: seq<Row>, ys: seq<Row>, n: nat)
    requires n <= |xs| && n <= |ys|
  {
    StoredHead(xs[..|xs| - n]) == StoredHead(ys[..|ys| - n])
  }

  lemma FrontsStep(xs: seq<Row>, ys: seq<Row>, n: nat)
    requires 0 < n <= |xs| && n <= |ys| && FrontsAgree(xs[..|xs| - 1], ys[..|ys| - 1], n - 1)
    ensures FrontsAgree(xs, ys, n)
  {
    FrontOfInit(xs, n);
    FrontOfInit(ys, n);
  }

  lemma FrontOfInit(rows: seq<Row>, n: nat)
    requires 0 < n <= |rows|
    ensures rows[..|rows| - 1][..|rows[..|rows| - 1]| - (n - 1)] == rows[..|rows| - n]
  {
  }

  /** What an anchored check pins: two logs that pass with one anchor agree on every entry after the
      last anonymized one, counted from the end, and on the hash stored in front of these. */
  lemma AnchorPinsTail(hash: Hash, parse: Parse, xs: seq<Row>, ys: seq<Row>, n: nat, anchor: Text)
    requires AllSealed(xs) && AllSealed(ys) && xs != [] && ys != [] && anchor != []
    requires var c := Checker(Sealer(hash), parse); Valid(c, xs, Some(anchor)) && Valid(c, ys, Some(anchor))
    requires KeptFrom(xs, n) && KeptFrom(ys, n)
    requires CollisionFree(hash, HashedTexts(hash, Entries(xs) + Entries(ys)))
    ensures n <= |xs| && n <= |ys| && SameTail(xs, ys, n)
    ensures StoredHead(xs[..|xs| - n]) == StoredHead(ys[..|ys| - n])
  {
    var c, all := Checker(Sealer(hash), parse), Entries(xs) + Entries(ys);
    ValidExactly(c, xs, Some(anchor));
    ValidExactly(c, ys, Some(anchor));
    SealDetermines(hash, all);
    EntriesIn(xs, all);
    EntriesIn(ys, all);
    HeadPins(c, xs, ys, n, Members(all));
    PinnedBinds(c, xs, ys, n, Members(all));
    PinnedFront(c, xs, ys, n);
  }

  lemma EntriesIn(rows: seq<Row>, all: seq<Entry>)
    requires forall e :: e in Entries(rows) ==> e in all
    ensures AllIn(rows, Members(all))
  {
    forall row | row in rows ensures row.entry in Members(all) {
      var i :| 0 <= i < |rows| && rows[i] == row;
      assert Entries(rows)[i] == row.entry;
    }
  }

  /** Where nothing is anonymized that is the whole log: no row can be missing in front either,
      because the first one must continue from genesis. */
  lemma AnchorPinsLog(hash: Hash, parse: Parse, xs: seq<Row>, ys: seq<Row>, anchor: Text)
    requires AllSealed(xs) && AllSealed(ys) && xs != [] && ys != [] && anchor != []
    requires var c := Checker(Sealer(hash), parse); Valid(c, xs, Some(anchor)) && Valid(c, ys, Some(anchor))
    requires KeptFrom(xs, |xs|) && KeptFrom(ys, |ys|)
    requires CollisionFree(hash, HashedTexts(hash, Entries(xs) + Entries(ys)))
    ensures |xs| == |ys| && SameTail(xs, ys, |xs|)
  {
    var c, all := Checker(Sealer(hash), parse), Entries(xs) + Entries(ys);
    ValidExactly(c, xs, Some(anchor));
    ValidExactly(c, ys, Some(anchor));
    SealDetermines(hash, all);
    EntriesIn(xs, all);
    EntriesIn(ys, all);
    var n := if |xs| <= |ys| then |xs| else |ys|;
    KeptLess(xs, |xs|, n);
    KeptLess(ys, |ys|, n);
    AnchorPinsTail(hash, parse, xs, ys, n, anchor);
    OnlyEmptyHeadIsGenesis(c, xs, n, Members(all));
    OnlyEmptyHeadIsGenesis(c, ys, n, Members(all));
  }

  lemma {:induction false} TailPrefix(c: Checker, rows: seq<Row>, m: nat, es: set<Entry>)
    requires Tail(c, rows, |rows|, es) && m <= |rows|
    ensures Tail(c, rows[..m], m, es)
  {
    if m == |rows| {
      assert rows[..m] == rows;
    } else {
      TailStep(c, rows, |rows|, es);
      TailPrefix(c, rows[..|rows| - 1], m, es);
      assert rows[..|rows| - 1][..m] == rows[..m];
    }
  }

  /** In front of some rows, none anonymized, stands genesis exactly when nothing does. */
  lemma OnlyEmptyHeadIsGenesis(c: Checker, rows: seq<Row>, n: nat, es: set<Entry>)
    requires Tail(c, rows, |rows|, es) && ShowsLinks(c.seal, es) && n <= |rows|
    ensures StoredHead(rows[..|rows| - n]) == GENESIS <==> n == |rows|
  {
    if n < |rows| {
      TailPrefix(c, rows, |rows| - n, es);
      TailStep(c, rows[..|rows| - n], |rows| - n, es);
    }
  }

  // ----- Anonymized rows --------------------------------------------------------------------

  /** `now` is `was` after some rows were anonymized: such a row may have lost any of its fields but
      its sequence number and its stored hash. */
  predicate AnonymizedFrom(was: seq<Row>, now: seq<Row>) {
    && |now| == |was|
    && forall i :: 0 <= i < |now| ==>
         || now[i] == was[i]
         || (now[i].anonymized && SameMark(now[i], was[i]))
  }

  predicate SameMark(a: Row, b: Row) {
    a.entry.sequence == b.entry.sequence && a.entry.entryHash == b.entry.entryHash
  }

  /** Anonymizing any rows of a log that verifies leaves it verifying, with the same head and against
      the same anchor. */
  lemma AnonymizingKeepsValid(c: Checker, was: seq<Row>, now: seq<Row>, anchor: Option<Text>)
    requires AllSealed(was) && AnonymizedFrom(was, now) && Valid(c, was, anchor)
    ensures AllSealed(now) && Valid(c, now, anchor)
  {
    AnonymizedFollow(c, was, now);
    ValidExactly(c, was, anchor);
    ValidExactly(c, now, anchor);
  }

  lemma {:induction false} AnonymizedFollow(c: Checker, was: seq<Row>, now: seq<Row>)
    requires AllSealed(was) && AnonymizedFrom(was, now)
    ensures AllSealed(now) && StoredHead(now) == StoredHead(was)
    ensures AllFollow(c, was) ==> AllFollow(c, now)
  {
    if was == [] {
    } else {
      var last := |was| - 1;
      assert SameMark(now[last], was[last]);
      AnonymizedFollow(c, was[..last], now[..last]);
      if last > 0 {
        assert SameMark(now[last - 1], was[last - 1]);
      }
      assert now == now[..last] + [now[last]];
      SealedSnoc(now[..last], now[last]);
    }
  }

  lemma {:induction false} SuffixFollows(c: Checker, rows: seq<Row>, k: nat)
    requires AllFollow(c, rows) && k < |rows| && rows[k].anonymized
    ensures AllFollow(c, rows[k..])
    ensures StoredHead(rows[k..]) == StoredHead(rows)
  {
    var before, last := rows[..|rows| - 1], rows[|rows| - 1];
    assert rows == before + [last];
    AllFollowSnoc(c, before, last);
    if k == |rows| - 1 {
      assert rows[k..] == [] + [last];
      AllFollowSnoc(c, [], last);
    } else {
      SuffixFollows(c, before, k);
      var rest := before[k..];
      assert rows[k..] == rest + [last];
      assert rest[|rest| - 1] == before[|before| - 1];
      AllFollowSnoc(c, rest, last);
    }
  }

  /** The tail is all that is pinned: an anonymized row is not linked to what stands before it, so a
      log that passes still does, with the same anchor, when it begins at such a row. */
  lemma AnonymizedRowBegins(c: Checker, rows: seq<Row>, k: nat, anchor: Option<Text>)
    requires AllSealed(rows) && k < |rows| && rows[k].anonymized && Valid(c, rows, anchor)
    ensures AllSealed(rows[k..]) && Valid(c, rows[k..], anchor)
  {
    assert AllSealed(rows[k..]) by {
      assert forall i :: 0 <= i < |rows[k..]| ==> rows[k..][i] == rows[k + i];
    }
    ValidExactly(c, rows, anchor);
    SuffixFollows(c, rows, k);
    ValidExactly(c, rows[k..], anchor);
  }

  // ----- The log that was appended ------------------------------------------------------------

  function RowsOf(log: seq<Entry>): (r: seq<Row>)
    ensures |r| == |log|
    ensures forall i :: 0 <= i < |r| ==> r[i] == Row(log[i], false)
  {
    if log == [] then [] else RowsOf(log[..|log| - 1]) + [Row(log[|log| - 1], false)]
  }

  /** `parse` reads the canonical text of a value as what the text says. */
  ghost predicate ReadsBack(parse: Parse, v: Value) {
    var w := parse(CanonicalJson(v));
    w.Some? && WellFormed(w.value) && MeaningOf(w.value, {}) == MeaningOf(SortDeep(Settled(v)), {})
  }

  /** A string is shorter than any text that it is read from, which has quotes around it. */
  ghost predicate ReadsShorterStrings(parse: Parse) {
    forall t: Text :: parse(t).Some? && parse(t).value.Str? ==> |parse(t).value.text| < |t|
  }

  /** The cross-check of an untouched row: it succeeds exactly where canonical text loses nothing
      that a JSON column holds, and not for a string, whose canonical text is not its JSON. */
  predicate CrossChecks(v: Value) {
    !v.Str? && ProtoFree(v)
  }

  lemma MatchesExactly(parse: Parse, v: Value, e: Entry)
    requires WellFormed(v) && ReadsBack(parse, v) && ReadsShorterStrings(parse)
    requires e.metadata == Some(Settled(v)) && e.metadataCanonical == Some(CanonicalMetadata(Some(v), None))
    ensures MetadataMatches(parse, e) <==> CrossChecks(v)
  {
    if v.Str? {
      assert Settled(v) == v && e.metadataCanonical.value == v.text;
    } else {
      assert e.metadataCanonical.value == CanonicalJson(v);
      SettledTidy(v);
      SortDeepMeaning(Settled(v));
      DeepEqualIsSameMeaning(parse(CanonicalJson(v)).value, Settled(v));
      HidesNothingExactly(Settled(v));
      SettledProtoFree(v);
    }
  }

  ghost predicate Readable(parse: Parse, appends: seq<Append>) {
    ReadsShorterStrings(parse) &&
    forall a :: a in appends ==> WellFormed(MetadataOf(a.params)) && ReadsBack(parse, MetadataOf(a.params))
  }

  /** A reader of JSON text is such a `parse`, for all metadata. */
  lemma ReaderReads(appends: seq<Append>)
    requires forall a :: a in appends ==> WellFormed(MetadataOf(a.params))
    ensures Readable(Read, appends)
  {
    forall t: Text | Read(t).Some? && Read(t).value.Str? ensures |Read(t).value.text| < |t| {
      StringsAreShorter(t);
    }
    forall a | a in appends ensures ReadsBack(Read, MetadataOf(a.params)) {
      CanonicalTextRead(MetadataOf(a.params));
    }
  }

  /** The canonical text of a value is read as the value in canonical order, without `__proto__` members
      and with null for infinite numbers. */
  lemma CanonicalTextRead(v: Value)
    requires WellFormed(v)
    ensures Read(CanonicalJson(v)) == Some(SortDeep(Settled(v))) && WellFormed(SortDeep(Settled(v)))
  {
    TextKeepsExactly(v);
    SettledTidy(v);
    SortDeepTidy(Settled(v));
    PrintedTextRead(SortDeep(Settled(v)));
  }

  predicate AllCrossCheck(appends: seq<Append>) {
    forall i :: 0 <= i < |appends| ==> CrossChecks(MetadataOf(appends[i].params))
  }

  lemma AllCrossCheckSnoc(appends: seq<Append>)
    requires appends != []
    ensures AllCrossCheck(appends) <==>
            AllCrossCheck(appends[..|appends| - 1]) && CrossChecks(MetadataOf(appends[|appends| - 1].params))
  {
    var before := appends[..|appends| - 1];
    assert forall i :: 0 <= i < |before| ==> before[i] == appends[i];
  }

  lemma NextFollows(c: Checker, before: seq<Entry>, a: Append)
    requires Blind(c.seal) && AllSealed(RowsOf(before)) && NumberedFromOne(before)
    requires Readable(c.parse, [a])
    ensures var e := NextEntry(c.seal, before, a);
            && e.entryHash.Some?
            && (Follows(c, RowsOf(before), Row(e, false)) <==> CrossChecks(MetadataOf(a.params)))
  {
    var e, rows := NextEntry(c.seal, before, a), RowsOf(before);
    NextFolds(c.seal, before, a);
    assert a in [a];
    MatchesExactly(c.parse, MetadataOf(a.params), e);
    assert StoredHead(rows) == HeadOf(before);
    assert before != [] ==> Rising(rows[|rows| - 1], Row(e, false));
    assert Follows(c, rows, Row(e, false)) <==> MetadataMatches(c.parse, e);
  }

  lemma AppendStep(c: Checker, before: seq<Entry>, a: Append)
    requires Blind(c.seal) && AllSealed(RowsOf(before)) && NumberedFromOne(before)
    requires Readable(c.parse, [a])
    ensures var rows := RowsOf(before + [NextEntry(c.seal, before, a)]);
            && AllSealed(rows)
            && (AllFollow(c, rows) <==> AllFollow(c, RowsOf(before)) && CrossChecks(MetadataOf(a.params)))
  {
    var e := NextEntry(c.seal, before, a);
    NextFollows(c, before, a);
    assert RowsOf(before + [e]) == RowsOf(before) + [Row(e, false)];
    SealedSnoc(RowsOf(before), Row(e, false));
    AllFollowSnoc(c, RowsOf(before), Row(e, false));
  }

  lemma {:induction false} AppendedFollow(c: Checker, appends: seq<Append>)
    requires Blind(c.seal) && Readable(c.parse, appends)
    ensures AllSealed(RowsOf(Log(c.seal, appends)))
    ensures AllFollow(c, RowsOf(Log(c.seal, appends))) <==> AllCrossCheck(appends)
  {
    if appends == [] {
    } else {
      AppendedFollow(c, appends[..|appends| - 1]);
      AppendsVerify(c.seal, appends[..|appends| - 1]);
      AppendStep(c, Log(c.seal, appends[..|appends| - 1]), appends[|appends| - 1]);
      AllCrossCheckSnoc(appends);
    }
  }

  /** An untouched log passes, anchored at its own head, exactly when no metadata appended to it was
      a string or had an own `__proto__` member; so it is for every `parse` that reads the canonical
      texts as `JsonReader` does. */
  lemma AppendedLogVerifiesExactly(hash: Hash, parse: Parse, appends: seq<Append>)
    requires Readable(parse, appends)
    ensures var c := Checker(Sealer(hash), parse);
            var log := Log(c.seal, appends);
            AllSealed(RowsOf(log)) && (Valid(c, RowsOf(log), Some(HeadOf(log))) <==> AllCrossCheck(appends))
  {
    var c := Checker(Sealer(hash), parse);
    SealerIsBlind(hash);
    AppendedFollow(c, appends);
    AppendsVerify(c.seal, appends);
    var log := Log(c.seal, appends);
    ValidExactly(c, RowsOf(log), Some(HeadOf(log)));
    assert StoredHead(RowsOf(log)) == HeadOf(log);
  }

  lemma AppendedLogReadsExactly(hash: Hash, appends: seq<Append>)
    requires forall a :: a in appends ==> WellFormed(MetadataOf(a.params))
    ensures var c := Checker(Sealer(hash), Read);
            var log := Log(c.seal, appends);
            AllSealed(RowsOf(log)) && (Valid(c, RowsOf(log), Some(HeadOf(log))) <==> AllCrossCheck(appends))
  {
    ReaderReads(appends);
    AppendedLogVerifiesExactly(hash, Read, appends);
  }
}
