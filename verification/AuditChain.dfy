/** The tamper-evident audit log: canonical metadata, entry hashes and the chain fold of
    app/backend/src/audit/audit-chain.util.ts, and the append and the verification walk of
    audit-chain.service.ts.

    SHA-256 is a parameter. Nothing is assumed of it in general; the theorems assume that it has no
    collision, and does not yield the genesis value, on the texts that were actually hashed. */
module AuditChain {
  import opened Basics
  import opened Json
  import opened JsonText
  import opened JsonMeaning
  import opened JsonCanonical
  import opened JsonSettled
  import opened JsonReader

  type Hash = Text -> Text

  function Zeros(n: nat): Text {
    if n == 0 then [] else [48] + Zeros(n - 1)
  }

  const GENESIS: Text := Zeros(64)

  // ----- Canonical metadata -------------------------------------------------------------

  function CanonicalJson(v: Value): Text {
    Print(SortDeep(v), 0)
  }

  /** `None` is undefined. A stored canonical text wins, a string is taken as it is. */
  function CanonicalMetadata(metadata: Option<Value>, canonical: Option<Text>): Text {
    match (canonical, metadata)
    case (Some(c), _) => c
    case (None, Some(Str(t))) => t
    case (None, Some(v)) => CanonicalJson(v)
    case (None, None) => CanonicalJson(Null)
  }

  /** Equal texts come from values that mean the same once infinite numbers are null and `__proto__`
      members are gone, and the other way round. */
  lemma CanonicalJsonExactly(a: Value, b: Value)
    requires WellFormed(a) && WellFormed(b)
    ensures CanonicalJson(a) == CanonicalJson(b) <==> MeaningOf(Settled(a), {PROTO}) == MeaningOf(Settled(b), {PROTO})
  {
    var x, y := SortDeep(Settled(a)), SortDeep(Settled(b));
    SettledText(a);
    SettledText(b);
    SettledTidy(a);
    SettledTidy(b);
    SortDeepIsNormalForm(Settled(a), Settled(b));
    if CanonicalJson(a) == CanonicalJson(b) {
      assert Print(x, 0) + [] == Print(y, 0) + [];
      PrintInjective(x, y, 0, [], []);
    }
  }

  lemma SettledText(v: Value)
    requires WellFormed(v)
    ensures CanonicalJson(v) == Print(SortDeep(Settled(v)), 0)
    ensures WellFormed(SortDeep(Settled(v))) && Printable(SortDeep(Settled(v)))
  {
    SortDeepSettles(v);
    PrintSettled(SortDeep(v), 0);
    SortDeepTidy(v);
    SettledTidy(SortDeep(v));
  }

  /** On values without an own `__proto__` member and without infinite numbers the canonical texts
      agree exactly when the values are deeply equal. */
  lemma CanonicalJsonIffDeepEqual(a: Value, b: Value)
    requires WellFormed(a) && ProtoFree(a) && Finite(a)
    requires WellFormed(b) && ProtoFree(b) && Finite(b)
    ensures CanonicalJson(a) == CanonicalJson(b) <==> DeepEqual(a, b)
  {
    CanonicalJsonExactly(a, b);
    FiniteSettled(a);
    FiniteSettled(b);
    DeepEqualIsSameMeaning(a, b);
    ProtoFreeMeaning(a);
    ProtoFreeMeaning(b);
  }

  /** An infinite number, which 1e400 is read as, has the text of null but does not equal it. */
  lemma InfiniteIsLost(key: Text, negative: bool)
    requires key != PROTO
    ensures var a, b := Obj([Member(key, Infinite(negative))]), Obj([Member(key, Null)]);
            CanonicalJson(a) == CanonicalJson(b) && !DeepEqual(a, b)
  {
    var a, b := Obj([Member(key, Infinite(negative))]), Obj([Member(key, Null)]);
    assert Settled(a) == b by { assert SettledMembers(a.members) == b.members; }
    assert Settled(b) == b by { assert SettledMembers(b.members) == b.members; }
    CanonicalJsonExactly(a, b);
    DeepEqualIsSameMeaning(a, b);
    MembersAsMap(a.members, {}, key);
    MembersAsMap(b.members, {}, key);
    assert (MeaningOfMembers(a.members, {}) - {})[key] != (MeaningOfMembers(b.members, {}) - {})[key];
  }

  /** With such a member they may not: it is dropped from the text but compared by jsonDeepEqual. */
  lemma ProtoMemberIsLost(v: Value)
    ensures var a, b := Obj([Member(PROTO, v)]), Obj([]);
            CanonicalJson(a) == CanonicalJson(b) && !DeepEqual(a, b)
  {
    var ms := [Member(PROTO, v)];
    assert SortedKeys(ms) == [PROTO];
    assert Rebuild(ms, []) == [];
    assert [PROTO][..0] == [];
    assert Rebuild(ms, [PROTO]) == [];
    assert SortedKeys([]) == [];
  }

  /** And a string collides with the value it spells, because it bypasses canonicalisation. */
  lemma StringBypasses(v: Value)
    requires !v.Str?
    ensures CanonicalMetadata(Some(Str(CanonicalJson(v))), None) == CanonicalMetadata(Some(v), None)
    ensures !DeepEqual(Str(CanonicalJson(v)), v)
  {
  }

  // ----- Entry hashes -------------------------------------------------------------------

  /** The fields an entry hash binds, as the texts that are hashed. */
  datatype Bound = Bound(
    id: Text, sequence: Text, prevHash: Text, actorId: Text, entity: Text, entityId: Text,
    action: Text, timestamp: Text, metadataCanonical: Text)

  const VERSION: Text := [115, 111, 116, 101, 114, 45, 97, 117, 100, 105, 116, 45, 118, 49]

  function Fields(hash: Hash, b: Bound): seq<Text> {
    [VERSION, b.id, b.sequence, b.prevHash, b.actorId, b.entity, b.entityId, b.action, b.timestamp,
     hash(b.metadataCanonical)]
  }

  /** JSON.stringify of an array of strings, without layout. */
  function ArrayText(fields: seq<Text>): Text {
    [91] + ElementsText(fields) + [93]
  }

  function ElementsText(fields: seq<Text>): Text {
    if fields == [] then []
    else Quoted(fields[0]) + (if |fields| == 1 then [] else [COMMA] + ElementsText(fields[1..]))
  }

  function Payload(hash: Hash, b: Bound): Text {
    ArrayText(Fields(hash, b))
  }

  function EntryHash(hash: Hash, b: Bound): Text {
    hash(Payload(hash, b))
  }

  lemma {:induction false} ElementsInjective(x: seq<Text>, y: seq<Text>, s: Text, t: Text)
    requires |x| == |y| && ElementsText(x) + s == ElementsText(y) + t
    ensures x == y && s == t
  {
    if x == [] {
      assert ElementsText(x) + s == s && ElementsText(y) + t == t;
    } else {
      var rx := if |x| == 1 then [] else [COMMA] + ElementsText(x[1..]);
      var ry := if |y| == 1 then [] else [COMMA] + ElementsText(y[1..]);
      Regroup(Quoted(x[0]), rx, s);
      Regroup(Quoted(y[0]), ry, t);
      QuotedInjective(x[0], y[0], rx + s, ry + t);
      assert x == [x[0]] + x[1..] && y == [y[0]] + y[1..];
      if |x| == 1 {
        assert rx + s == s && ry + t == t;
      } else {
        NextInjective(ElementsText(x[1..]), ElementsText(y[1..]), s, t);
        ElementsInjective(x[1..], y[1..], s, t);
      }
    }
  }

  /** No separator ambiguity: payloads determine their fields one by one. */
  lemma PayloadDeterminesFields(hash: Hash, a: Bound, b: Bound)
    requires Payload(hash, a) == Payload(hash, b)
    ensures Fields(hash, a) == Fields(hash, b)
  {
    var x, y := Fields(hash, a), Fields(hash, b);
    Regroup([91], ElementsText(x), [93]);
    Regroup([91], ElementsText(y), [93]);
    SameTail([91], [91], ElementsText(x) + [93], ElementsText(y) + [93]);
    ElementsInjective(x, y, [93], [93]);
  }

  function Strings(fields: seq<Text>): (r: seq<Value>)
    ensures |r| == |fields|
    ensures forall i :: 0 <= i < |r| ==> r[i] == Str(fields[i])
  {
    if fields == [] then [] else [Str(fields[0])] + Strings(fields[1..])
  }

  lemma {:induction false} ElementsRead(fields: seq<Text>)
    requires fields != []
    ensures ReadItems(ElementsText(fields) + [93]) == Some((Strings(fields), []))
  {
    var rest := if |fields| == 1 then [] else [COMMA] + ElementsText(fields[1..]);
    var all := ElementsText(fields) + [93];
    Regroup(Quoted(fields[0]), rest, [93]);
    PrintedRead(Str(fields[0]), 0, rest + [93]);
    assert all == Print(Str(fields[0]), 0) + (rest + [93]);
    if |fields| == 1 {
      assert rest + [93] == [93] + [];
      assert Strings(fields) == [Str(fields[0])];
      LastItem(all, Str(fields[0]), rest + [93], []);
    } else {
      ElementsRead(fields[1..]);
      Regroup([COMMA], ElementsText(fields[1..]), [93]);
      NextItem(all, Str(fields[0]), rest + [93], ElementsText(fields[1..]) + [93], Strings(fields[1..]), []);
    }
  }

  lemma ArrayTextRead(fields: seq<Text>)
    requires fields != []
    ensures Read(ArrayText(fields)) == Some(Arr(Strings(fields)))
  {
    var s := ArrayText(fields);
    ElementsRead(fields);
    Regroup([91], ElementsText(fields), [93]);
    assert s[1..] == ElementsText(fields) + [93];
    assert s[1..][0] == QUOTE;
  }

  /** `s` is JSON text, and says that these strings stand in an array in this order. */
  predicate SaysStrings(s: Text, fields: seq<Text>) {
    var r := Read(s);
    && r.Some? && r.value.Arr? && |r.value.items| == |fields|
    && forall i :: 0 <= i < |fields| ==> r.value.items[i] == Str(fields[i])
  }

  lemma ArraySaysStrings(fields: seq<Text>)
    requires fields != []
    ensures SaysStrings(ArrayText(fields), fields)
  {
    ArrayTextRead(fields);
  }

  /** What is hashed is JSON text: read back, it is the array of these strings in this order. */
  lemma PayloadIsJson(hash: Hash, b: Bound)
    ensures SaysStrings(Payload(hash, b), [VERSION, b.id, b.sequence, b.prevHash, b.actorId, b.entity, b.entityId, b.action,
                                           b.timestamp, hash(b.metadataCanonical)])
  {
    ArraySaysStrings(Fields(hash, b));
  }

  // ----- The fold -----------------------------------------------------------------------

  function DecimalText(n: nat): (r: Text)
    ensures r != []
  {
    if n < 10 then [48 + n] else DecimalText(n / 10) + [48 + n % 10]
  }

  /** What String() makes of a whole number. */
  function IntText(n: int): Text {
    if n < 0 then [45] + DecimalText(-n) else DecimalText(n)
  }

  lemma {:induction false} DecimalDigits(n: nat)
    ensures forall i :: 0 <= i < |DecimalText(n)| ==> 48 <= DecimalText(n)[i] <= 57
  {
    if n < 10 {
    } else {
      DecimalDigits(n / 10);
    }
  }

  lemma OneDigit(n: nat)
    ensures |DecimalText(n)| == 1 <==> n < 10
    ensures n < 10 ==> DecimalText(n) == [48 + n]
  {
    if n >= 10 {
      assert DecimalText(n / 10) != [];
    }
  }

  lemma {:induction false} DecimalInjective(m: nat, n: nat)
    requires DecimalText(m) == DecimalText(n)
    ensures m == n
  {
    OneDigit(m);
    OneDigit(n);
    if m >= 10 && n >= 10 {
      SnocInjective(DecimalText(m / 10), 48 + m % 10, DecimalText(n / 10), 48 + n % 10);
      DecimalInjective(m / 10, n / 10);
    }
  }

  lemma SnocInjective<T>(a: seq<T>, x: T, b: seq<T>, y: T)
    requires a + [x] == b + [y]
    ensures a == b && x == y
  {
    var s := a + [x];
    assert s[|a|] == x && (b + [y])[|b|] == y;
    assert a == s[..|a|] && b == (b + [y])[..|b|];
  }

  /** Different numbers have different texts. */
  lemma IntTextInjective(m: int, n: int)
    ensures IntText(m) == IntText(n) <==> m == n
  {
    if IntText(m) == IntText(n) {
      var p: nat, q: nat := if m < 0 then -m else m, if n < 0 then -n else n;
      DecimalDigits(p);
      DecimalDigits(q);
      assert (m < 0) == (IntText(m)[0] == 45) && (n < 0) == (IntText(n)[0] == 45);
      assert DecimalText(p) == IntText(m)[if m < 0 then 1 else 0..];
      assert DecimalText(q) == IntText(n)[if n < 0 then 1 else 0..];
      DecimalInjective(p, q);
    }
  }

  /** A row of the log. Identifiers and timestamp are the texts String() makes of them. */
  datatype Entry = Entry(
    id: Text, sequence: Option<int>, prevHash: Option<Text>, entryHash: Option<Text>,
    actorId: Text, entity: Text, entityId: Text, action: Text, timestamp: Text,
    metadata: Option<Value>, metadataCanonical: Option<Text>)

  datatype ChainError = BrokenLink | InvalidEntryHash

  function OrElse(o: Option<Text>, default: Text): Text {
    match o
    case Some(t) => t
    case None => default
  }

  function BoundOf(e: Entry): Bound {
    Bound(e.id, IntText(if e.sequence.Some? then e.sequence.value else 0), OrElse(e.prevHash, GENESIS),
          e.actorId, e.entity, e.entityId, e.action, e.timestamp, CanonicalMetadata(e.metadata, e.metadataCanonical))
  }

  function PrevOf(e: Entry): Text {
    OrElse(e.prevHash, GENESIS)
  }

  /** How an entry is hashed. The fold is written for any such function; the log's own is `Sealer`. */
  type Seal = Entry -> Text

  function Sealer(hash: Hash): Seal {
    (e: Entry) => EntryHash(hash, BoundOf(e))
  }

  function FoldChainStep(seal: Seal, expectedPrevHash: Option<Text>, e: Entry): Result<Text, ChainError> {
    if expectedPrevHash.Some? && PrevOf(e) != expectedPrevHash.value then Err(BrokenLink)
    else if e.entryHash.Some? && e.entryHash.value != seal(e) then Err(InvalidEntryHash)
    else Ok(seal(e))
  }

  /** The step threaded over a list, from genesis: the head hash, or the first error. */
  function Fold(seal: Seal, entries: seq<Entry>): Result<Text, ChainError> {
    if entries == [] then Ok(GENESIS)
    else match Fold(seal, entries[..|entries| - 1])
      case Ok(prev) => FoldChainStep(seal, Some(prev), entries[|entries| - 1])
      case Err(e) => Err(e)
  }

  lemma FoldSnoc(seal: Seal, before: seq<Entry>, e: Entry, prev: Text)
    requires Fold(seal, before) == Ok(prev)
    ensures Fold(seal, before + [e]) == FoldChainStep(seal, Some(prev), e)
  {
    var all := before + [e];
    assert all[..|all| - 1] == before;
  }

  // ----- What the head hash determines ----------------------------------------------------

  /** Equal hashes show equal links, and no entry hashes to the genesis value. */
  ghost predicate ShowsLinks(seal: Seal, es: set<Entry>) {
    && (forall e, f :: e in es && f in es && seal(e) == seal(f) ==> PrevOf(e) == PrevOf(f))
    && (forall e :: e in es ==> seal(e) != GENESIS)
  }

  predicate AllIn(entries: seq<Entry>, es: set<Entry>) {
    forall e :: e in entries ==> e in es
  }

  predicate SameHashes(seal: Seal, xs: seq<Entry>, ys: seq<Entry>) {
    |xs| == |ys| && forall i :: 0 <= i < |xs| ==> seal(xs[i]) == seal(ys[i])
  }

  lemma SameHashesSnoc(seal: Seal, xs: seq<Entry>, ys: seq<Entry>, x: Entry, y: Entry)
    requires SameHashes(seal, xs, ys) && seal(x) == seal(y)
    ensures SameHashes(seal, xs + [x], ys + [y])
  {
  }

  lemma LastOfFold(seal: Seal, xs: seq<Entry>)
    requires xs != [] && Fold(seal, xs).Ok?
    ensures var before, x := xs[..|xs| - 1], xs[|xs| - 1];
            && xs == before + [x] && x in xs && (forall e :: e in before ==> e in xs)
            && Fold(seal, xs) == Ok(seal(x)) && Fold(seal, before) == Ok(PrevOf(x))
  {
  }

  /** The links fix the list from its head backwards: its length and each entry's hash. */
  lemma {:induction false} HeadFixesHashes(seal: Seal, xs: seq<Entry>, ys: seq<Entry>, es: set<Entry>)
    requires ShowsLinks(seal, es) && AllIn(xs, es) && AllIn(ys, es)
    requires Fold(seal, xs).Ok? && Fold(seal, xs) == Fold(seal, ys)
    ensures SameHashes(seal, xs, ys)
  {
    if xs == [] {
    } else {
      LastOfFold(seal, xs);
    }
    if ys == [] {
    } else {
      LastOfFold(seal, ys);
    }
    if xs != [] && ys != [] {
      var before, before' := xs[..|xs| - 1], ys[..|ys| - 1];
      HeadFixesHashes(seal, before, before', es);
      SameHashesSnoc(seal, before, before', xs[|xs| - 1], ys[|ys| - 1]);
    }
  }

  function Members(entries: seq<Entry>): set<Entry> {
    set e | e in entries
  }

  function HashedTexts(hash: Hash, entries: seq<Entry>): set<Text> {
    (set e | e in entries :: Payload(hash, BoundOf(e))) + (set e | e in entries :: BoundOf(e).metadataCanonical)
  }

  ghost predicate CollisionFree(hash: Hash, texts: set<Text>) {
    && (forall x, y :: x in texts && y in texts && hash(x) == hash(y) ==> x == y)
    && (forall x :: x in texts ==> hash(x) != GENESIS)
  }

  /** Two rows agree: an absent sequence number counts as zero, an absent link as genesis, and of the
      metadata it is the canonical text that counts. */
  predicate SameRow(a: Entry, b: Entry) {
    && a.id == b.id
    && (if a.sequence == None then 0 else a.sequence.value) == (if b.sequence == None then 0 else b.sequence.value)
    && (if a.prevHash == None then GENESIS else a.prevHash.value) == (if b.prevHash == None then GENESIS else b.prevHash.value)
    && a.actorId == b.actorId && a.entity == b.entity && a.entityId == b.entityId
    && a.action == b.action && a.timestamp == b.timestamp
    && SameMetadata(a, b)
  }

  /** The recorded canonical texts are equal; where none is recorded, a string stands for itself and
      any other value for its canonical JSON, which is `null` for an absent one. */
  predicate SameMetadata(a: Entry, b: Entry) {
    (if a.metadataCanonical.Some? then a.metadataCanonical.value
     else if a.metadata.Some? && a.metadata.value.Str? then a.metadata.value.text
     else CanonicalJson(if a.metadata.Some? then a.metadata.value else Null)) ==
    (if b.metadataCanonical.Some? then b.metadataCanonical.value
     else if b.metadata.Some? && b.metadata.value.Str? then b.metadata.value.text
     else CanonicalJson(if b.metadata.Some? then b.metadata.value else Null))
  }

  lemma BoundExactly(a: Entry, b: Entry)
    ensures BoundOf(a) == BoundOf(b) <==> SameRow(a, b)
  {
    IntTextInjective(if a.sequence == None then 0 else a.sequence.value, if b.sequence == None then 0 else b.sequence.value);
  }

  lemma EntryHashDetermines(hash: Hash, a: Bound, b: Bound, texts: set<Text>)
    requires CollisionFree(hash, texts) && EntryHash(hash, a) == EntryHash(hash, b)
    requires {Payload(hash, a), a.metadataCanonical, Payload(hash, b), b.metadataCanonical} <= texts
    ensures a == b
  {
    PayloadDeterminesFields(hash, a, b);
    var x, y := Fields(hash, a), Fields(hash, b);
    assert x[1] == y[1] && x[2] == y[2] && x[3] == y[3] && x[4] == y[4] && x[5] == y[5];
    assert x[6] == y[6] && x[7] == y[7] && x[8] == y[8] && x[9] == y[9];
  }

  /** On texts without a collision two rows hash alike exactly when they agree on every field. */
  lemma SealDetermines(hash: Hash, entries: seq<Entry>)
    requires CollisionFree(hash, HashedTexts(hash, entries))
    ensures forall e, f :: e in entries && f in entries ==> (Sealer(hash)(e) == Sealer(hash)(f) <==> SameRow(e, f))
    ensures ShowsLinks(Sealer(hash), Members(entries))
  {
    var seal, texts := Sealer(hash), HashedTexts(hash, entries);
    forall e | e in entries ensures seal(e) != GENESIS {
      assert Payload(hash, BoundOf(e)) in texts;
    }
    forall e, f | e in entries && f in entries ensures seal(e) == seal(f) <==> SameRow(e, f) {
      assert Payload(hash, BoundOf(e)) in texts && Payload(hash, BoundOf(f)) in texts;
      BoundExactly(e, f);
      if seal(e) == seal(f) {
        EntryHashDetermines(hash, BoundOf(e), BoundOf(f), texts);
      }
    }
    forall e, f | e in entries && f in entries && seal(e) == seal(f) ensures PrevOf(e) == PrevOf(f) {
      assert SameRow(e, f);
    }
  }

  ghost predicate SameContent(xs: seq<Entry>, ys: seq<Entry>) {
    |xs| == |ys| && forall i :: 0 <= i < |xs| ==> SameRow(xs[i], ys[i])
  }

  /** Uniqueness: two lists that both verify from genesis and end in the same head hash have the
      same length and agree, row by row, on every field. So no edit, insertion, deletion or reordering of
      a verified list verifies with the same head. */
  lemma HeadHashDeterminesLog(hash: Hash, xs: seq<Entry>, ys: seq<Entry>)
    requires CollisionFree(hash, HashedTexts(hash, xs + ys))
    requires Fold(Sealer(hash), xs).Ok? && Fold(Sealer(hash), xs) == Fold(Sealer(hash), ys)
    ensures SameContent(xs, ys)
  {
    SealDetermines(hash, xs + ys);
    HeadFixesHashes(Sealer(hash), xs, ys, Members(xs + ys));
    forall i | 0 <= i < |xs| ensures SameRow(xs[i], ys[i]) {
      assert xs[i] in xs + ys && ys[i] in xs + ys;
    }
  }

  /** A verified list keeps verifying when its newest entries are cut off, so truncation does not
      show by itself; but it shows in the head hash. */
  lemma TruncationShowsOnlyInHead(seal: Seal, xs: seq<Entry>, n: nat)
    requires n < |xs| && Fold(seal, xs).Ok? && ShowsLinks(seal, Members(xs))
    ensures Fold(seal, xs[..n]).Ok? && Fold(seal, xs[..n]) != Fold(seal, xs)
  {
    PrefixVerifies(seal, xs, n);
    if Fold(seal, xs[..n]) == Fold(seal, xs) {
      HeadFixesHashes(seal, xs[..n], xs, Members(xs));
    }
  }

  lemma {:induction false} PrefixVerifies(seal: Seal, xs: seq<Entry>, n: nat)
    requires n <= |xs| && Fold(seal, xs).Ok?
    ensures Fold(seal, xs[..n]).Ok?
  {
    if n < |xs| {
      var before := xs[..|xs| - 1];
      PrefixVerifies(seal, before, n);
      assert before[..n] == xs[..n];
    } else {
      assert xs[..n] == xs;
    }
  }

  // ----- Appending ----------------------------------------------------------------------

  datatype Params = Params(actorId: Text, entity: Text, entityId: Text, action: Text, metadata: Option<Value>)

  /** Metadata that is null or missing is the empty object. */
  function MetadataOf(p: Params): Value {
    if p.metadata.None? || p.metadata.value == Null then Obj([]) else p.metadata.value
  }

  /** `appendInTx`: the next sequence number and the head's hash are bound together with the row
      the database returned (its id and timestamp). The visible metadata is a JSON column, which
      holds no infinite number; the canonical text is made of the value that was given. */
  function Sealed(seal: Seal, headSequence: nat, head: Text, p: Params, id: Text, timestamp: Text): Entry {
    var metadata := MetadataOf(p);
    var row := Entry(id, Some(headSequence + 1), Some(head), None, p.actorId, p.entity, p.entityId,
                     p.action, timestamp, Some(Settled(metadata)), Some(CanonicalMetadata(Some(metadata), None)));
    row.(entryHash := Some(seal(row)))
  }

  datatype Append = Append(params: Params, id: Text, timestamp: Text)

  function HeadOf(log: seq<Entry>): Text {
    if log == [] then GENESIS else OrElse(log[|log| - 1].entryHash, GENESIS)
  }

  function NextEntry(seal: Seal, before: seq<Entry>, a: Append): Entry {
    Sealed(seal, |before|, HeadOf(before), a.params, a.id, a.timestamp)
  }

  function Log(seal: Seal, appends: seq<Append>): seq<Entry> {
    if appends == [] then []
    else
      var before := Log(seal, appends[..|appends| - 1]);
      before + [NextEntry(seal, before, appends[|appends| - 1])]
  }

  /** The row that an append stores: what was given is in it, metadata that is null or missing as the
      empty object, linked to the row before it. */
  ghost predicate StoredFrom(e: Entry, a: Append, place: nat, link: Text) {
    && e.id == a.id && e.timestamp == a.timestamp
    && e.actorId == a.params.actorId && e.entity == a.params.entity
    && e.entityId == a.params.entityId && e.action == a.params.action
    && e.sequence == Some(place + 1) && e.prevHash == Some(link)
    && (match a.params.metadata
        case None => e.metadata == Some(Obj([])) && e.metadataCanonical == Some(CanonicalJson(Obj([])))
        case Some(Null) => e.metadata == Some(Obj([])) && e.metadataCanonical == Some(CanonicalJson(Obj([])))
        case Some(Str(t)) => e.metadata == Some(Str(t)) && e.metadataCanonical == Some(t)
        case Some(v) => e.metadata == Some(Settled(v)) && e.metadataCanonical == Some(CanonicalJson(v)))
  }

  lemma NextStored(seal: Seal, before: seq<Entry>, a: Append)
    ensures StoredFrom(NextEntry(seal, before, a), a, |before|, HeadOf(before))
  {
    assert SettledMembers([]) == [];
    assert Settled(Obj([])) == Obj([]);
  }

  /** In every log each append has its row, with its own content and the hash of the row before. */
  lemma {:induction false} AppendsStored(seal: Seal, appends: seq<Append>, i: nat)
    requires i < |appends|
    ensures |Log(seal, appends)| == |appends|
    ensures var log := Log(seal, appends);
            StoredFrom(log[i], appends[i], i, if i == 0 then GENESIS else OrElse(log[i - 1].entryHash, GENESIS))
  {
    var earlier := appends[..|appends| - 1];
    LogLength(seal, earlier);
    if i < |earlier| {
      AppendsStored(seal, earlier, i);
    } else {
      NextStored(seal, Log(seal, earlier), appends[i]);
    }
  }

  lemma {:induction false} LogLength(seal: Seal, appends: seq<Append>)
    ensures |Log(seal, appends)| == |appends|
  {
    if appends == [] {
    } else {
      LogLength(seal, appends[..|appends| - 1]);
    }
  }

  /** An entry's hash does not depend on the hash stored with it. */
  ghost predicate Blind(seal: Seal) {
    forall e: Entry, h: Option<Text> :: seal(e.(entryHash := h)) == seal(e)
  }

  lemma SealerIsBlind(hash: Hash)
    ensures Blind(Sealer(hash))
  {
    forall e: Entry, h: Option<Text> ensures Sealer(hash)(e.(entryHash := h)) == Sealer(hash)(e) {
      assert BoundOf(e.(entryHash := h)) == BoundOf(e);
    }
  }

  lemma NextFolds(seal: Seal, before: seq<Entry>, a: Append)
    requires Blind(seal)
    ensures var e := NextEntry(seal, before, a);
            && e.entryHash == Some(seal(e))
            && e.sequence == Some(|before| + 1)
            && e.metadata == Some(Settled(MetadataOf(a.params)))
            && e.metadataCanonical == Some(CanonicalMetadata(Some(MetadataOf(a.params)), None))
            && FoldChainStep(seal, Some(HeadOf(before)), e) == Ok(seal(e))
  {
    var e := NextEntry(seal, before, a);
    assert e == e.(entryHash := None).(entryHash := e.entryHash);
  }

  predicate NumberedFromOne(log: seq<Entry>) {
    forall i :: 0 <= i < |log| ==> log[i].sequence == Some(i + 1)
  }

  lemma NumberedSnoc(before: seq<Entry>, e: Entry)
    requires NumberedFromOne(before) && e.sequence == Some(|before| + 1)
    ensures NumberedFromOne(before + [e])
  {
  }

  /** Whatever is appended, the log verifies, its head is the hash stored last, and its entries are
      numbered from one without a gap. */
  lemma {:induction false} AppendsVerify(seal: Seal, appends: seq<Append>)
    requires Blind(seal)
    ensures Fold(seal, Log(seal, appends)) == Ok(HeadOf(Log(seal, appends)))
    ensures |Log(seal, appends)| == |appends| && NumberedFromOne(Log(seal, appends))
  {
    if appends == [] {
    } else {
      var before, a := Log(seal, appends[..|appends| - 1]), appends[|appends| - 1];
      AppendsVerify(seal, appends[..|appends| - 1]);
      var e := NextEntry(seal, before, a);
      NextFolds(seal, before, a);
      FoldSnoc(seal, before, e, HeadOf(before));
      NumberedSnoc(before, e);
      assert HeadOf(before + [e]) == seal(e);
    }
  }
}
