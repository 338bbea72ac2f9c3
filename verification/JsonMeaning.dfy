/** What a JSON value means once the order of members is forgotten. Both `jsonDeepEqual` and
    `sortDeep` are measured against it. */
module JsonMeaning {
  import opened Sorting
  import opened Json

  datatype Meaning =
    | MNull
    | MBool(b: bool)
    | MNum(repr: Text)
    | MInfinite(negative: bool)
    | MStr(text: Text)
    | MArr(items: seq<Meaning>)
    | MObj(members: map<Text, Meaning>)

  /** The meaning when the keys in `hidden` are left out of every object. */
  function MeaningOf(v: Value, hidden: set<Text>): Meaning
    decreases v, 0
  {
    match v
    case Null => MNull
    case Bool(b) => MBool(b)
    case Num(r) => MNum(r)
    case Infinite(n) => MInfinite(n)
    case Str(t) => MStr(t)
    case Arr(items) => MArr(MeaningOfItems(items, hidden))
    case Obj(ms) => MObj(MeaningOfMembers(ms, hidden) - hidden)
  }

  function MeaningOfItems(items: seq<Value>, hidden: set<Text>): (r: seq<Meaning>)
    ensures |r| == |items|
    decreases items, 0
  {
    if items == [] then [] else [MeaningOf(items[0], hidden)] + MeaningOfItems(items[1..], hidden)
  }

  function MeaningOfMembers(ms: seq<Member>, hidden: set<Text>): map<Text, Meaning>
    decreases ms, 0
  {
    if ms == [] then map[] else MeaningOfMembers(ms[1..], hidden)[ms[0].key := MeaningOf(ms[0].value, hidden)]
  }

  lemma {:induction false} MembersAsMap(ms: seq<Member>, hidden: set<Text>, k: Text)
    ensures k in MeaningOfMembers(ms, hidden) <==> HasKey(ms, k)
    ensures HasKey(ms, k) ==> MeaningOfMembers(ms, hidden)[k] == MeaningOf(ms[Find(ms, k)].value, hidden)
  {
    if ms == [] {
    } else {
      MembersAsMap(ms[1..], hidden, k);
      if HasKey(ms, k) && ms[0].key != k {
        var i :| 0 <= i < |ms| && ms[i].key == k;
        assert ms[1..][i - 1].key == k;
      }
      if HasKey(ms[1..], k) {
        var i :| 0 <= i < |ms[1..]| && ms[1..][i].key == k;
        assert ms[i + 1].key == k;
      }
    }
  }

  lemma {:induction false} ItemsMeaningAt(items: seq<Value>, hidden: set<Text>, i: nat)
    requires i < |items|
    ensures MeaningOfItems(items, hidden)[i] == MeaningOf(items[i], hidden)
  {
    if i > 0 {
      ItemsMeaningAt(items[1..], hidden, i - 1);
    }
  }

  // ----- Sorted keys --------------------------------------------------------------------

  lemma {:induction false} DistinctOccurOnce(ms: seq<Member>, k: Text)
    requires DistinctKeys(ms)
    ensures multiset(Keys(ms))[k] == if HasKey(ms, k) then 1 else 0
  {
    if ms == [] {
      assert multiset(Keys(ms)) == multiset{};
    } else {
      assert Keys(ms) == [ms[0].key] + Keys(ms[1..]);
      assert DistinctKeys(ms[1..]) by {
        forall i, j | 0 <= i < j < |ms[1..]| ensures ms[1..][i].key != ms[1..][j].key {
          assert ms[i + 1].key != ms[j + 1].key;
        }
      }
      DistinctOccurOnce(ms[1..], k);
      HasKeyTail(ms, k);
      forall i | 0 <= i < |ms[1..]| ensures ms[1..][i].key != ms[0].key {
        assert ms[1..][i] == ms[i + 1];
      }
    }
  }

  function SortedKeys(ms: seq<Member>): seq<Text> {
    Sort(Keys(ms), UnitsLe)
  }

  lemma SortedKeysMember(ms: seq<Member>, k: Text)
    ensures k in SortedKeys(ms) <==> HasKey(ms, k)
  {
    SameMembers(SortedKeys(ms), Keys(ms), k);
    KeysAreMembers(ms, k);
  }

  /** Objects with the same keys enumerate them alike once sorted. */
  lemma SortedKeysAgree(x: seq<Member>, y: seq<Member>)
    requires DistinctKeys(x) && DistinctKeys(y)
    requires forall k :: HasKey(x, k) <==> HasKey(y, k)
    ensures SortedKeys(x) == SortedKeys(y)
  {
    forall k ensures multiset(Keys(x))[k] == multiset(Keys(y))[k] {
      DistinctOccurOnce(x, k);
      DistinctOccurOnce(y, k);
    }
    assert multiset(Keys(x)) == multiset(Keys(y));
    UnitsLeOrder();
    SortSorts(Keys(x), UnitsLe);
    SortSorts(Keys(y), UnitsLe);
    SortedUnique(SortedKeys(x), SortedKeys(y), UnitsLe);
  }

  // ----- jsonDeepEqual is equality of meanings -------------------------------------------

  lemma {:induction false} MembersEqualAt(x: seq<Member>, y: seq<Member>, ka: seq<Text>, kb: seq<Text>, i: nat)
    requires |ka| == |kb| && MembersEqual(x, y, ka, kb) && i < |ka|
    ensures ka[i] == kb[i] && HasKey(x, ka[i]) && HasKey(y, ka[i])
    ensures DeepEqual(x[Find(x, ka[i])].value, y[Find(y, ka[i])].value)
  {
    if i > 0 {
      MembersEqualAt(x, y, ka[1..], kb[1..], i - 1);
    }
  }

  /** A well-formed member's value is well-formed. */
  lemma MemberWellFormed(ms: seq<Member>, k: Text)
    requires WellFormed(Obj(ms)) && HasKey(ms, k)
    ensures WellFormed(ms[Find(ms, k)].value)
  {
  }

  lemma {:induction false} DeepEqualIsSameMeaning(a: Value, b: Value)
    requires WellFormed(a) && WellFormed(b)
    ensures DeepEqual(a, b) <==> MeaningOf(a, {}) == MeaningOf(b, {})
    decreases a, 0, 0
  {
    match (a, b)
    case (Arr(x), Arr(y)) =>
      if |x| == |y| {
        ItemsEqualIsSameMeaning(x, y);
      }
    case (Obj(x), Obj(y)) =>
      if DeepEqual(a, b) {
        EqualMembersSameMeaning(x, y);
      }
      if MeaningOf(a, {}) == MeaningOf(b, {}) {
        SameMeaningEqualMembers(x, y);
      }
    case _ =>
  }

  lemma {:induction false} ItemsEqualIsSameMeaning(x: seq<Value>, y: seq<Value>)
    requires |x| == |y| && WellFormed(Arr(x)) && WellFormed(Arr(y))
    ensures ItemsEqual(x, y) <==> MeaningOfItems(x, {}) == MeaningOfItems(y, {})
    decreases x, 0, 0
  {
    if x == [] {
    } else {
      DeepEqualIsSameMeaning(x[0], y[0]);
      ItemsEqualIsSameMeaning(x[1..], y[1..]);
      var mx, my := MeaningOfItems(x, {}), MeaningOfItems(y, {});
      assert mx[0] == MeaningOf(x[0], {}) && my[0] == MeaningOf(y[0], {});
      assert mx[1..] == MeaningOfItems(x[1..], {}) && my[1..] == MeaningOfItems(y[1..], {});
    }
  }

  lemma {:induction false} EqualMembersSameMeaning(x: seq<Member>, y: seq<Member>)
    requires WellFormed(Obj(x)) && WellFormed(Obj(y)) && DeepEqual(Obj(x), Obj(y))
    ensures MeaningOfMembers(x, {}) == MeaningOfMembers(y, {})
    decreases x, 2, 0
  {
    var ka, kb := SortedKeys(x), SortedKeys(y);
    forall k ensures k in MeaningOfMembers(x, {}) <==> k in MeaningOfMembers(y, {}) {
      MembersAsMap(x, {}, k);
      MembersAsMap(y, {}, k);
      SortedKeysMember(x, k);
      SortedKeysMember(y, k);
      if k in ka {
        var i :| 0 <= i < |ka| && ka[i] == k;
        MembersEqualAt(x, y, ka, kb, i);
      }
      if k in kb {
        var i :| 0 <= i < |kb| && kb[i] == k;
        MembersEqualAt(x, y, ka, kb, i);
      }
    }
    forall k | k in MeaningOfMembers(x, {}) ensures MeaningOfMembers(x, {})[k] == MeaningOfMembers(y, {})[k] {
      MembersAsMap(x, {}, k);
      MembersAsMap(y, {}, k);
      SortedKeysMember(x, k);
      var i :| 0 <= i < |ka| && ka[i] == k;
      MembersEqualAt(x, y, ka, kb, i);
      DeepEqualIsSameMeaning(x[Find(x, k)].value, y[Find(y, k)].value);
    }
  }

  lemma {:induction false} SameMeaningEqualMembers(x: seq<Member>, y: seq<Member>)
    requires WellFormed(Obj(x)) && WellFormed(Obj(y)) && MeaningOfMembers(x, {}) - {} == MeaningOfMembers(y, {}) - {}
    ensures DeepEqual(Obj(x), Obj(y))
    decreases x, 2, 0
  {
    assert MeaningOfMembers(x, {}) == MeaningOfMembers(x, {}) - {} && MeaningOfMembers(y, {}) == MeaningOfMembers(y, {}) - {};
    forall k ensures HasKey(x, k) <==> HasKey(y, k) {
      MembersAsMap(x, {}, k);
      MembersAsMap(y, {}, k);
    }
    SortedKeysAgree(x, y);
    EqualOnKeys(x, y, SortedKeys(x));
  }

  lemma {:induction false} EqualOnKeys(x: seq<Member>, y: seq<Member>, keys: seq<Text>)
    requires WellFormed(Obj(x)) && WellFormed(Obj(y)) && MeaningOfMembers(x, {}) == MeaningOfMembers(y, {})
    requires forall k :: HasKey(x, k) <==> HasKey(y, k)
    requires forall i :: 0 <= i < |keys| ==> HasKey(x, keys[i]) || keys[i] in SortedKeys(x)
    ensures MembersEqual(x, y, keys, keys)
    decreases x, 1, |keys|
  {
    if keys == [] {
    } else {
      var k := keys[0];
      SortedKeysMember(x, k);
      MembersAsMap(x, {}, k);
      MembersAsMap(y, {}, k);
      DeepEqualIsSameMeaning(x[Find(x, k)].value, y[Find(y, k)].value);
      EqualOnKeys(x, y, keys[1..]);
    }
  }
}
