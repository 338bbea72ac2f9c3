/** JSON values as JavaScript holds them, and the canonical serialisation of
    app/backend/src/audit/audit-chain.util.ts.

    Text is a sequence of UTF-16 code units. A finite number is represented by the text that
    Number.prototype.toString gives it, which tells such numbers apart exactly as === does; what is
    too large for a double, as 1e400 is, is read as an infinite number. An object is its own
    enumerable members in enumeration order. */
module Json {
  import opened Sorting

  type Unit = u: nat | u < 0x1_0000
  type Text = seq<Unit>

  datatype Member = Member(key: Text, value: Value)

  datatype Value =
    | Null
    | Bool(b: bool)
    | Num(repr: Text)
    | Infinite(negative: bool)
    | Str(text: Text)
    | Arr(items: seq<Value>)
    | Obj(members: seq<Member>)

  // ----- Code unit order ----------------------------------------------------------------

  function CodeUnit(u: Unit): int {
    u
  }

  /** The default order of Array.prototype.sort on strings. */
  predicate UnitsLe(a: Text, b: Text) {
    LexLe(CodeUnit, a, b)
  }

  lemma UnitsLeOrder()
    ensures TotalOrder(UnitsLe) && Antisymmetric(UnitsLe)
  {
    forall a, b ensures (UnitsLe(a, b) || UnitsLe(b, a)) && (UnitsLe(a, b) && UnitsLe(b, a) ==> a == b) {
      LexLeTotal(CodeUnit, a, b);
    }
    forall a, b, c | UnitsLe(a, b) && UnitsLe(b, c) ensures UnitsLe(a, c) {
      LexLeTransitive(CodeUnit, a, b, c);
    }
  }

  // ----- Objects ------------------------------------------------------------------------

  function Keys(ms: seq<Member>): (r: seq<Text>)
    ensures |r| == |ms|
    ensures forall i :: 0 <= i < |ms| ==> r[i] == ms[i].key
  {
    if ms == [] then [] else [ms[0].key] + Keys(ms[1..])
  }

  predicate HasKey(ms: seq<Member>, k: Text) {
    exists i :: 0 <= i < |ms| && ms[i].key == k
  }

  lemma HasKeyTail(ms: seq<Member>, k: Text)
    requires ms != []
    ensures HasKey(ms, k) <==> ms[0].key == k || HasKey(ms[1..], k)
  {
    if HasKey(ms[1..], k) {
      var i :| 0 <= i < |ms[1..]| && ms[1..][i].key == k;
      assert ms[i + 1].key == k;
    }
    if HasKey(ms, k) && ms[0].key != k {
      var i :| 0 <= i < |ms| && ms[i].key == k;
      assert ms[1..][i - 1].key == k;
    }
  }

  /** The position of the first member with the key. */
  function Find(ms: seq<Member>, k: Text): (i: nat)
    requires HasKey(ms, k)
    ensures i < |ms| && ms[i].key == k
  {
    if ms[0].key == k then 0 else
      assert HasKey(ms[1..], k) by { var j :| 0 <= j < |ms| && ms[j].key == k; assert ms[1..][j - 1].key == k; }
      1 + Find(ms[1..], k)
  }

  predicate DistinctKeys(ms: seq<Member>) {
    forall i, j :: 0 <= i < j < |ms| ==> ms[i].key != ms[j].key
  }

  const PROTO: Text := [95, 95, 112, 114, 111, 116, 111, 95, 95]

  predicate IsDigit(u: Unit) {
    48 <= u <= 57
  }

  function Decimal(k: Text): nat
    requires forall i :: 0 <= i < |k| ==> IsDigit(k[i])
  {
    if k == [] then 0 else
      assert IsDigit(k[|k| - 1]);
      10 * Decimal(k[..|k| - 1]) + (k[|k| - 1] - 48)
  }

  /** A canonical array index: these keys come first, in numeric order, in every enumeration. */
  predicate IsIndex(k: Text) {
    && k != []
    && (forall i :: 0 <= i < |k| ==> IsDigit(k[i]))
    && (k[0] == 48 ==> |k| == 1)
    && Decimal(k) < 0xFFFF_FFFF
  }

  function InsertMember(ms: seq<Member>, m: Member): (r: seq<Member>)
    ensures |r| == |ms| + 1
  {
    if ms == [] then [m]
    else if IsIndex(m.key) && !(IsIndex(ms[0].key) && Decimal(ms[0].key) < Decimal(m.key)) then [m] + ms
    else [ms[0]] + InsertMember(ms[1..], m)
  }

  /** `result[key] = value` on an ordinary object. Assigning to `__proto__` runs the inherited setter
      and creates no member. */
  function Put(ms: seq<Member>, k: Text, v: Value): seq<Member> {
    if k == PROTO then ms
    else if HasKey(ms, k) then ms[Find(ms, k) := Member(k, v)]
    else InsertMember(ms, Member(k, v))
  }

  // ----- sortDeep -----------------------------------------------------------------------

  function SortDeep(v: Value): Value
    decreases v, 0, 0
  {
    match v
    case Arr(items) => Arr(SortItems(items))
    case Obj(ms) => Obj(Rebuild(ms, Sort(Keys(ms), UnitsLe)))
    case _ => v
  }

  function SortItems(items: seq<Value>): (r: seq<Value>)
    ensures |r| == |items|
    decreases items, 0, 0
  {
    if items == [] then [] else [SortDeep(items[0])] + SortItems(items[1..])
  }

  /** The members after the loop has gone through `keys`. */
  function Rebuild(ms: seq<Member>, keys: seq<Text>): seq<Member>
    decreases ms, 1, |keys|
  {
    if keys == [] then []
    else
      var last := keys[|keys| - 1];
      var before := Rebuild(ms, keys[..|keys| - 1]);
      if HasKey(ms, last) then Put(before, last, SortDeep(ms[Find(ms, last)].value)) else before
  }

  method SortObject(ms: seq<Member>) returns (result: seq<Member>)
    ensures Obj(result) == SortDeep(Obj(ms))
  {
    var keys := Sort(Keys(ms), UnitsLe);
    result := [];
    for i := 0 to |keys|
      invariant result == Rebuild(ms, keys[..i])
    {
      KeysAreMembers(ms, keys[i]);
      SameMembers(keys, Keys(ms), keys[i]);
      assert keys[..i + 1][..i] == keys[..i];
      result := Put(result, keys[i], SortDeep(ms[Find(ms, keys[i])].value));
    }
    assert keys[..|keys|] == keys;
  }

  lemma KeysAreMembers(ms: seq<Member>, k: Text)
    ensures k in Keys(ms) <==> HasKey(ms, k)
  {
    if HasKey(ms, k) {
      var i :| 0 <= i < |ms| && ms[i].key == k;
      assert Keys(ms)[i] == k;
    }
  }

  // ----- jsonDeepEqual ------------------------------------------------------------------

  predicate DeepEqual(a: Value, b: Value)
    decreases a, 0, 0
  {
    match (a, b)
    case (Null, Null) => true
    case (Bool(x), Bool(y)) => x == y
    case (Num(x), Num(y)) => x == y
    case (Infinite(x), Infinite(y)) => x == y
    case (Str(x), Str(y)) => x == y
    case (Arr(x), Arr(y)) => |x| == |y| && ItemsEqual(x, y)
    case (Obj(x), Obj(y)) =>
      var ka, kb := Sort(Keys(x), UnitsLe), Sort(Keys(y), UnitsLe);
      |ka| == |kb| && MembersEqual(x, y, ka, kb)
    case _ => false
  }

  predicate ItemsEqual(x: seq<Value>, y: seq<Value>)
    requires |x| == |y|
    decreases x, 0, 0
  {
    x == [] || (DeepEqual(x[0], y[0]) && ItemsEqual(x[1..], y[1..]))
  }

  predicate MembersEqual(x: seq<Member>, y: seq<Member>, ka: seq<Text>, kb: seq<Text>)
    requires |ka| == |kb|
    decreases x, 1, |ka|
  {
    ka == []
    || (&& ka[0] == kb[0]
        && HasKey(x, ka[0]) && HasKey(y, kb[0])
        && DeepEqual(x[Find(x, ka[0])].value, y[Find(y, kb[0])].value)
        && MembersEqual(x, y, ka[1..], kb[1..]))
  }

  predicate AllKeys(ms: seq<Member>, keys: seq<Text>) {
    forall i :: 0 <= i < |keys| ==> HasKey(ms, keys[i])
  }

  method ObjectsEqual(x: seq<Member>, y: seq<Member>) returns (equal: bool)
    ensures equal == DeepEqual(Obj(x), Obj(y))
  {
    var ka, kb := Sort(Keys(x), UnitsLe), Sort(Keys(y), UnitsLe);
    if |ka| != |kb| {
      return false;
    }
    SortedKeysOccur(x);
    SortedKeysOccur(y);
    equal := EqualAlong(x, y, ka, kb);
  }

  /** The loop over both lists of keys. */
  method EqualAlong(x: seq<Member>, y: seq<Member>, ka: seq<Text>, kb: seq<Text>) returns (equal: bool)
    requires |ka| == |kb| && AllKeys(x, ka) && AllKeys(y, kb)
    ensures equal == MembersEqual(x, y, ka, kb)
  {
    for i := 0 to |ka|
      invariant MembersEqual(x, y, ka, kb) == MembersEqual(x, y, ka[i..], kb[i..])
    {
      assert HasKey(x, ka[i]) && HasKey(y, kb[i]);
      MembersEqualFrom(x, y, ka, kb, i);
      if ka[i] != kb[i] || !DeepEqual(x[Find(x, ka[i])].value, y[Find(y, kb[i])].value) {
        return false;
      }
    }
    return true;
  }

  lemma SortedKeysOccur(ms: seq<Member>)
    ensures AllKeys(ms, Sort(Keys(ms), UnitsLe))
  {
    var keys := Sort(Keys(ms), UnitsLe);
    forall i | 0 <= i < |keys| ensures HasKey(ms, keys[i]) {
      SortedKeyOccurs(ms, i);
    }
  }

  lemma SortedKeyOccurs(ms: seq<Member>, i: nat)
    requires i < |ms|
    ensures HasKey(ms, Sort(Keys(ms), UnitsLe)[i])
  {
    var keys := Sort(Keys(ms), UnitsLe);
    SameMembers(keys, Keys(ms), keys[i]);
    KeysAreMembers(ms, keys[i]);
  }

  lemma MembersEqualFrom(x: seq<Member>, y: seq<Member>, ka: seq<Text>, kb: seq<Text>, i: nat)
    requires i < |ka| == |kb| && HasKey(x, ka[i]) && HasKey(y, kb[i])
    ensures MembersEqual(x, y, ka[i..], kb[i..]) <==>
            && ka[i] == kb[i]
            && DeepEqual(x[Find(x, ka[i])].value, y[Find(y, kb[i])].value)
            && MembersEqual(x, y, ka[i + 1..], kb[i + 1..])
  {
    assert ka[i..][1..] == ka[i + 1..] && kb[i..][1..] == kb[i + 1..];
  }

  /** What JSON.parse can produce: no object repeats a key, finite numbers are numeric text. */
  predicate WellFormed(v: Value)
    decreases v, 0
  {
    match v
    case Num(repr) => IsNumeric(repr)
    case Arr(items) => forall i :: 0 <= i < |items| ==> WellFormed(items[i])
    case Obj(ms) => DistinctKeys(ms) && forall i :: 0 <= i < |ms| ==> WellFormed(ms[i].value)
    case _ => true
  }

  /** Digits, sign, point and exponent: + - . e and 0..9. */
  predicate NumericUnit(u: Unit) {
    IsDigit(u) || u in {43, 45, 46, 101}
  }

  predicate IsNumeric(t: Text) {
    t != [] && (IsDigit(t[0]) || t[0] == 45) && forall i :: 0 <= i < |t| ==> NumericUnit(t[i])
  }

  /** No number at any depth is infinite. */
  predicate Finite(v: Value)
    decreases v, 0
  {
    match v
    case Infinite(_) => false
    case Arr(items) => forall i :: 0 <= i < |items| ==> Finite(items[i])
    case Obj(ms) => forall i :: 0 <= i < |ms| ==> Finite(ms[i].value)
    case _ => true
  }

  /** No object at any depth has an own `__proto__` member. */
  predicate ProtoFree(v: Value)
    decreases v, 0
  {
    match v
    case Arr(items) => forall i :: 0 <= i < |items| ==> ProtoFree(items[i])
    case Obj(ms) => forall i :: 0 <= i < |ms| ==> ms[i].key != PROTO && ProtoFree(ms[i].value)
    case _ => true
  }
}
