/** `sortDeep` is a normal form: it keeps the visible meaning of a value, nothing else of it, and
    is its own fixed point. */
module JsonCanonical {
  import opened Sorting
  import opened Json
  import opened JsonMeaning

  // ----- Assignment to a member ---------------------------------------------------------

  lemma {:induction false} UpdateMeaning(ms: seq<Member>, k: Text, v: Value)
    requires HasKey(ms, k)
    ensures MeaningOfMembers(ms[Find(ms, k) := Member(k, v)], {}) == MeaningOfMembers(ms, {})[k := MeaningOf(v, {})]
  {
    if ms[0].key == k {
      assert ms[0 := Member(k, v)][1..] == ms[1..];
    } else {
      HasKeyTail(ms, k);
      UpdateMeaning(ms[1..], k, v);
      assert ms[Find(ms, k) := Member(k, v)][1..] == ms[1..][Find(ms[1..], k) := Member(k, v)];
    }
  }

  lemma {:induction false} InsertMeaning(ms: seq<Member>, m: Member)
    requires !HasKey(ms, m.key)
    ensures MeaningOfMembers(InsertMember(ms, m), {}) == MeaningOfMembers(ms, {})[m.key := MeaningOf(m.value, {})]
  {
    var r := InsertMember(ms, m);
    if r == [m] + ms {
      assert r[1..] == ms;
    } else {
      assert ms[0].key != m.key;
      HasKeyTail(ms, m.key);
      InsertMeaning(ms[1..], m);
      assert r[0] == ms[0] && r[1..] == InsertMember(ms[1..], m);
    }
  }

  lemma PutMeaning(ms: seq<Member>, k: Text, v: Value)
    ensures MeaningOfMembers(Put(ms, k, v), {}) ==
            if k == PROTO then MeaningOfMembers(ms, {}) else MeaningOfMembers(ms, {})[k := MeaningOf(v, {})]
  {
    if k != PROTO {
      if HasKey(ms, k) {
        UpdateMeaning(ms, k, v);
      } else {
        InsertMeaning(ms, Member(k, v));
      }
    }
  }

  // ----- sortDeep keeps the visible meaning ----------------------------------------------

  lemma {:induction false} SortDeepMeaning(v: Value)
    ensures MeaningOf(SortDeep(v), {}) == MeaningOf(v, {PROTO})
    decreases v, 0, 0
  {
    match v
    case Arr(items) => SortItemsMeaning(items);
    case Obj(ms) =>
      var keys := SortedKeys(ms);
      RebuildMeaning(ms, keys);
      var m := MeaningOfMembers(ms, {PROTO}) - {PROTO};
      forall k ensures k in m <==> k in keys && HasKey(ms, k) && k != PROTO {
        SortedKeysMember(ms, k);
        MembersAsMap(ms, {PROTO}, k);
      }
      forall k | k in m ensures m[k] == MeaningOf(ms[Find(ms, k)].value, {PROTO}) {
        MembersAsMap(ms, {PROTO}, k);
      }
      assert MeaningOfMembers(Rebuild(ms, keys), {}) - {} == m;
    case _ =>
  }

  lemma {:induction false} SortItemsMeaning(items: seq<Value>)
    ensures MeaningOfItems(SortItems(items), {}) == MeaningOfItems(items, {PROTO})
    decreases items, 0, 0
  {
    if items == [] {
    } else {
      SortDeepMeaning(items[0]);
      SortItemsMeaning(items[1..]);
      assert SortItems(items)[1..] == SortItems(items[1..]);
    }
  }

  lemma {:induction false} RebuildMeaning(ms: seq<Member>, keys: seq<Text>)
    ensures MeaningOfMembers(Rebuild(ms, keys), {}) ==
            map k | k in keys && HasKey(ms, k) && k != PROTO :: MeaningOf(ms[Find(ms, k)].value, {PROTO})
    decreases ms, 1, |keys|
  {
    if keys == [] {
    } else {
      var before, last := keys[..|keys| - 1], keys[|keys| - 1];
      RebuildMeaning(ms, before);
      assert keys == before + [last];
      if HasKey(ms, last) {
        SortDeepMeaning(ms[Find(ms, last)].value);
        PutMeaning(Rebuild(ms, before), last, SortDeep(ms[Find(ms, last)].value));
      }
    }
  }

  // ----- sortDeep keeps nothing else -----------------------------------------------------

  function Visible(keys: seq<Text>): seq<Text> {
    Select(keys, (k: Text) => k != PROTO)
  }

  lemma {:induction false} RebuildVisible(ms: seq<Member>, keys: seq<Text>)
    ensures Rebuild(ms, keys) == Rebuild(ms, Visible(keys))
  {
    if keys == [] {
    } else {
      var before, last := keys[..|keys| - 1], keys[|keys| - 1];
      RebuildVisible(ms, before);
      assert keys == before + [last];
      SelectConcat(before, [last], (k: Text) => k != PROTO);
      assert Visible([last]) == if last == PROTO then [] else [last];
      if last != PROTO {
        assert Visible(keys)[..|Visible(keys)| - 1] == Visible(before);
      } else {
        assert Visible(keys) == Visible(before);
      }
    }
  }

  /** Objects that differ in their `__proto__` member at most enumerate alike without it. */
  lemma VisibleKeysAgree(x: seq<Member>, y: seq<Member>)
    requires DistinctKeys(x) && DistinctKeys(y)
    requires forall k :: k != PROTO ==> (HasKey(x, k) <==> HasKey(y, k))
    ensures Visible(SortedKeys(x)) == Visible(SortedKeys(y))
  {
    var p := (k: Text) => k != PROTO;
    forall k ensures multiset(Visible(SortedKeys(x)))[k] == multiset(Visible(SortedKeys(y)))[k] {
      SelectCount(SortedKeys(x), p, k);
      SelectCount(SortedKeys(y), p, k);
      DistinctOccurOnce(x, k);
      DistinctOccurOnce(y, k);
    }
    UnitsLeOrder();
    SortSorts(Keys(x), UnitsLe);
    SortSorts(Keys(y), UnitsLe);
    SelectSorted(SortedKeys(x), UnitsLe, p);
    SelectSorted(SortedKeys(y), UnitsLe, p);
    assert multiset(Visible(SortedKeys(x))) == multiset(Visible(SortedKeys(y)));
    SortedUnique(Visible(SortedKeys(x)), Visible(SortedKeys(y)), UnitsLe);
  }

  lemma {:induction false} MeaningFixesSortDeep(a: Value, b: Value)
    requires WellFormed(a) && WellFormed(b) && MeaningOf(a, {PROTO}) == MeaningOf(b, {PROTO})
    ensures SortDeep(a) == SortDeep(b)
    decreases a, 0, 0
  {
    match (a, b)
    case (Arr(x), Arr(y)) => MeaningFixesSortItems(x, y);
    case (Obj(x), Obj(y)) =>
      var mx, my := MeaningOfMembers(x, {PROTO}), MeaningOfMembers(y, {PROTO});
      assert mx - {PROTO} == my - {PROTO};
      forall k | k != PROTO ensures HasKey(x, k) <==> HasKey(y, k) {
        MembersAsMap(x, {PROTO}, k);
        MembersAsMap(y, {PROTO}, k);
        assert k in mx - {PROTO} <==> k in my - {PROTO};
      }
      VisibleKeysAgree(x, y);
      RebuildVisible(x, SortedKeys(x));
      RebuildVisible(y, SortedKeys(y));
      forall k | k in Visible(SortedKeys(x)) ensures k != PROTO {
        SelectMember(SortedKeys(x), (k: Text) => k != PROTO, k);
      }
      MeaningFixesRebuild(x, y, Visible(SortedKeys(x)));
    case _ =>
  }

  lemma {:induction false} MeaningFixesSortItems(x: seq<Value>, y: seq<Value>)
    requires WellFormed(Arr(x)) && WellFormed(Arr(y)) && MeaningOfItems(x, {PROTO}) == MeaningOfItems(y, {PROTO})
    ensures SortItems(x) == SortItems(y)
    decreases x, 0, 0
  {
    assert |x| == |y|;
    if x == [] {
    } else {
      var mx, my := MeaningOfItems(x, {PROTO}), MeaningOfItems(y, {PROTO});
      assert mx[0] == my[0] && mx[1..] == my[1..];
      MeaningFixesSortDeep(x[0], y[0]);
      MeaningFixesSortItems(x[1..], y[1..]);
    }
  }

  lemma {:induction false} MeaningFixesRebuild(x: seq<Member>, y: seq<Member>, keys: seq<Text>)
    requires WellFormed(Obj(x)) && WellFormed(Obj(y))
    requires MeaningOfMembers(x, {PROTO}) - {PROTO} == MeaningOfMembers(y, {PROTO}) - {PROTO}
    requires forall k :: k in keys ==> k != PROTO
    ensures Rebuild(x, keys) == Rebuild(y, keys)
    decreases x, 1, |keys|
  {
    if keys == [] {
    } else {
      var before, k := keys[..|keys| - 1], keys[|keys| - 1];
      assert keys == before + [k];
      forall l | l in before ensures l != PROTO { assert l in keys; }
      MeaningFixesRebuild(x, y, before);
      var mx, my := MeaningOfMembers(x, {PROTO}), MeaningOfMembers(y, {PROTO});
      assert k in keys;
      MembersAsMap(x, {PROTO}, k);
      MembersAsMap(y, {PROTO}, k);
      assert k in mx - {PROTO} <==> k in my - {PROTO};
      if HasKey(x, k) {
        assert (mx - {PROTO})[k] == (my - {PROTO})[k];
        MeaningFixesSortDeep(x[Find(x, k)].value, y[Find(y, k)].value);
      }
    }
  }

  // ----- The result is free of __proto__ and well-formed ----------------------------------

  lemma {:induction false} SortDeepTidy(v: Value)
    requires WellFormed(v)
    ensures WellFormed(SortDeep(v)) && ProtoFree(SortDeep(v))
    decreases v, 0, 0
  {
    match v
    case Arr(items) => SortItemsTidy(items);
    case Obj(ms) => RebuildTidy(ms, SortedKeys(ms));
    case _ =>
  }

  lemma {:induction false} SortItemsTidy(items: seq<Value>)
    requires WellFormed(Arr(items))
    ensures WellFormed(Arr(SortItems(items))) && ProtoFree(Arr(SortItems(items)))
    decreases items, 0, 0
  {
    if items == [] {
    } else {
      SortDeepTidy(items[0]);
      assert WellFormed(Arr(items[1..]));
      SortItemsTidy(items[1..]);
      assert SortItems(items)[1..] == SortItems(items[1..]);
      var r := SortItems(items);
      forall i | 0 <= i < |r| ensures WellFormed(r[i]) && ProtoFree(r[i]) {
        if i > 0 { assert r[i] == SortItems(items[1..])[i - 1]; }
      }
    }
  }

  lemma {:induction false} RebuildTidy(ms: seq<Member>, keys: seq<Text>)
    requires WellFormed(Obj(ms))
    ensures WellFormed(Obj(Rebuild(ms, keys))) && ProtoFree(Obj(Rebuild(ms, keys)))
    decreases ms, 1, |keys|
  {
    if keys == [] {
    } else {
      var before, k := keys[..|keys| - 1], keys[|keys| - 1];
      RebuildTidy(ms, before);
      if HasKey(ms, k) {
        MemberWellFormed(ms, k);
        SortDeepTidy(ms[Find(ms, k)].value);
        PutTidy(Rebuild(ms, before), k, SortDeep(ms[Find(ms, k)].value));
      }
    }
  }

  lemma PutTidy(ms: seq<Member>, k: Text, v: Value)
    requires WellFormed(Obj(ms)) && ProtoFree(Obj(ms)) && WellFormed(v) && ProtoFree(v)
    ensures WellFormed(Obj(Put(ms, k, v))) && ProtoFree(Obj(Put(ms, k, v)))
  {
    if k != PROTO && !HasKey(ms, k) {
      InsertTidy(ms, Member(k, v));
    }
  }

  lemma {:induction false} InsertContents(ms: seq<Member>, m: Member, x: Member)
    ensures x in InsertMember(ms, m) <==> x == m || x in ms
  {
    if ms == [] {
    } else {
      InsertContents(ms[1..], m, x);
      assert ms == [ms[0]] + ms[1..];
    }
  }

  lemma DistinctCons(first: Member, rest: seq<Member>)
    requires DistinctKeys(rest) && forall x :: x in rest ==> x.key != first.key
    ensures DistinctKeys([first] + rest)
  {
  }

  lemma {:induction false} InsertDistinct(ms: seq<Member>, m: Member)
    requires DistinctKeys(ms) && !HasKey(ms, m.key)
    ensures DistinctKeys(InsertMember(ms, m))
  {
    if InsertMember(ms, m) == [m] + ms {
      DistinctCons(m, ms);
    } else {
      var first, tail := ms[0], ms[1..];
      HasKeyTail(ms, m.key);
      InsertDistinct(tail, m);
      forall x | x in InsertMember(tail, m) ensures x.key != first.key {
        InsertContents(tail, m, x);
        if x in tail {
          var i :| 0 <= i < |tail| && tail[i] == x;
          assert ms[i + 1] == x;
        }
      }
      DistinctCons(first, InsertMember(tail, m));
    }
  }

  lemma InsertTidy(ms: seq<Member>, m: Member)
    requires WellFormed(Obj(ms)) && ProtoFree(Obj(ms)) && !HasKey(ms, m.key)
    requires WellFormed(m.value) && ProtoFree(m.value) && m.key != PROTO
    ensures WellFormed(Obj(InsertMember(ms, m))) && ProtoFree(Obj(InsertMember(ms, m)))
  {
    var r := InsertMember(ms, m);
    InsertDistinct(ms, m);
    forall i | 0 <= i < |r| ensures WellFormed(r[i].value) && ProtoFree(r[i].value) && r[i].key != PROTO {
      InsertContents(ms, m, r[i]);
    }
  }

  lemma {:induction false} ProtoFreeMeaning(v: Value)
    requires ProtoFree(v)
    ensures MeaningOf(v, {PROTO}) == MeaningOf(v, {})
    decreases v, 0
  {
    match v
    case Arr(items) => ProtoFreeItems(items);
    case Obj(ms) =>
      ProtoFreeMembers(ms);
      MembersAsMap(ms, {}, PROTO);
      assert MeaningOfMembers(ms, {}) - {PROTO} == MeaningOfMembers(ms, {}) - {};
    case _ =>
  }

  lemma {:induction false} ProtoFreeItems(items: seq<Value>)
    requires ProtoFree(Arr(items))
    ensures MeaningOfItems(items, {PROTO}) == MeaningOfItems(items, {})
    decreases items, 0
  {
    if items == [] {
    } else {
      ProtoFreeMeaning(items[0]);
      assert ProtoFree(Arr(items[1..]));
      ProtoFreeItems(items[1..]);
    }
  }

  lemma {:induction false} ProtoFreeMembers(ms: seq<Member>)
    requires ProtoFree(Obj(ms))
    ensures MeaningOfMembers(ms, {PROTO}) == MeaningOfMembers(ms, {})
    decreases ms, 0
  {
    if ms == [] {
    } else {
      ProtoFreeMeaning(ms[0].value);
      assert ProtoFree(Obj(ms[1..]));
      ProtoFreeMembers(ms[1..]);
    }
  }

  // ----- The normal form ----------------------------------------------------------------

  /** Two values have the same normal form exactly when they mean the same without `__proto__`. */
  lemma SortDeepIsNormalForm(a: Value, b: Value)
    requires WellFormed(a) && WellFormed(b)
    ensures SortDeep(a) == SortDeep(b) <==> MeaningOf(a, {PROTO}) == MeaningOf(b, {PROTO})
  {
    SortDeepMeaning(a);
    SortDeepMeaning(b);
    if MeaningOf(a, {PROTO}) == MeaningOf(b, {PROTO}) {
      MeaningFixesSortDeep(a, b);
    }
  }

  lemma SortDeepIdempotent(v: Value)
    requires WellFormed(v)
    ensures SortDeep(SortDeep(v)) == SortDeep(v)
  {
    SortDeepTidy(v);
    SortDeepMeaning(v);
    ProtoFreeMeaning(SortDeep(v));
    MeaningFixesSortDeep(SortDeep(v), v);
  }

  /** The order in which an object lists its members, at any depth, does not show. */
  lemma MemberOrderIrrelevant(a: Value, b: Value)
    requires WellFormed(a) && WellFormed(b) && DeepEqual(a, b)
    ensures SortDeep(a) == SortDeep(b)
    decreases a, 0, 0
  {
    DeepEqualIsSameMeaning(a, b);
    SortDeepMeaning(a);
    SortDeepMeaning(b);
    SameMeaningHidesAlike(a, b);
    MeaningFixesSortDeep(a, b);
  }

  lemma {:induction false} SameMeaningHidesAlike(a: Value, b: Value)
    requires MeaningOf(a, {}) == MeaningOf(b, {})
    ensures MeaningOf(a, {PROTO}) == MeaningOf(b, {PROTO})
    decreases a, 0, 0
  {
    match (a, b)
    case (Arr(x), Arr(y)) => SameItemsHideAlike(x, y);
    case (Obj(x), Obj(y)) =>
      var mx, my := MeaningOfMembers(x, {PROTO}), MeaningOfMembers(y, {PROTO});
      assert MeaningOfMembers(x, {}) == MeaningOfMembers(x, {}) - {} == MeaningOfMembers(y, {}) - {} == MeaningOfMembers(y, {});
      forall k ensures k in mx <==> k in my {
        MembersAsMap(x, {}, k);
        MembersAsMap(y, {}, k);
        MembersAsMap(x, {PROTO}, k);
        MembersAsMap(y, {PROTO}, k);
      }
      forall k | k in mx ensures mx[k] == my[k] {
        MembersAsMap(x, {}, k);
        MembersAsMap(y, {}, k);
        MembersAsMap(x, {PROTO}, k);
        MembersAsMap(y, {PROTO}, k);
        SameMeaningHidesAlike(x[Find(x, k)].value, y[Find(y, k)].value);
      }
      assert mx == my;
    case _ =>
  }

  lemma {:induction false} SameItemsHideAlike(x: seq<Value>, y: seq<Value>)
    requires MeaningOfItems(x, {}) == MeaningOfItems(y, {})
    ensures MeaningOfItems(x, {PROTO}) == MeaningOfItems(y, {PROTO})
    decreases x, 0, 0
  {
    assert |x| == |y|;
    if x == [] {
    } else {
      var mx, my := MeaningOfItems(x, {}), MeaningOfItems(y, {});
      assert mx[0] == my[0] && mx[1..] == my[1..];
      SameMeaningHidesAlike(x[0], y[0]);
      SameItemsHideAlike(x[1..], y[1..]);
    }
  }
}
