/** What is left of a value when its infinite numbers have become null, which is how its text and a
    JSON column hold it. */
module JsonSettled {
  import opened Sorting
  import opened Json
  import opened JsonMeaning
  import opened JsonCanonical
  import opened JsonText

  function Settled(v: Value): Value
    decreases v, 0
  {
    match v
    case Infinite(_) => Null
    case Arr(items) => Arr(SettledItems(items))
    case Obj(ms) => Obj(SettledMembers(ms))
    case _ => v
  }

  function SettledItems(items: seq<Value>): (r: seq<Value>)
    ensures |r| == |items|
    ensures forall i :: 0 <= i < |r| ==> r[i] == Settled(items[i])
    decreases items, 0
  {
    if items == [] then [] else [Settled(items[0])] + SettledItems(items[1..])
  }

  function SettledMembers(ms: seq<Member>): (r: seq<Member>)
    ensures |r| == |ms|
    ensures forall i :: 0 <= i < |r| ==> r[i] == Member(ms[i].key, Settled(ms[i].value))
    decreases ms, 0
  {
    if ms == [] then [] else [Member(ms[0].key, Settled(ms[0].value))] + SettledMembers(ms[1..])
  }

  // ----- Settling commutes with sortDeep --------------------------------------------------

  lemma {:induction false} SettledKeys(ms: seq<Member>, k: Text)
    ensures Keys(SettledMembers(ms)) == Keys(ms)
    ensures HasKey(SettledMembers(ms), k) <==> HasKey(ms, k)
    ensures HasKey(ms, k) ==> Find(SettledMembers(ms), k) == Find(ms, k)
  {
    assert Keys(SettledMembers(ms)) == Keys(ms);
    KeysAreMembers(ms, k);
    KeysAreMembers(SettledMembers(ms), k);
    if ms == [] {
    } else {
      SettledKeys(ms[1..], k);
      HasKeyTail(ms, k);
      assert SettledMembers(ms)[1..] == SettledMembers(ms[1..]);
    }
  }

  lemma {:induction false} InsertSettled(ms: seq<Member>, m: Member)
    ensures InsertMember(SettledMembers(ms), Member(m.key, Settled(m.value))) == SettledMembers(InsertMember(ms, m))
  {
    if ms == [] {
    } else {
      InsertSettled(ms[1..], m);
      assert SettledMembers(ms)[1..] == SettledMembers(ms[1..]);
    }
  }

  lemma PutSettled(ms: seq<Member>, k: Text, v: Value)
    ensures Put(SettledMembers(ms), k, Settled(v)) == SettledMembers(Put(ms, k, v))
  {
    SettledKeys(ms, k);
    InsertSettled(ms, Member(k, v));
  }

  lemma {:induction false} SortDeepSettles(v: Value)
    ensures SortDeep(Settled(v)) == Settled(SortDeep(v))
    decreases v, 0, 0
  {
    match v
    case Arr(items) => SortItemsSettle(items);
    case Obj(ms) =>
      var keys := Sort(Keys(ms), UnitsLe);
      SettledKeys(ms, []);
      ObjectSorted(ms, keys);
      ObjectSorted(SettledMembers(ms), keys);
      RebuildSettles(ms, keys);
    case _ =>
  }

  lemma ObjectSorted(ms: seq<Member>, keys: seq<Text>)
    requires keys == Sort(Keys(ms), UnitsLe)
    ensures SortDeep(Obj(ms)) == Obj(Rebuild(ms, keys))
  {
  }

  lemma {:induction false} SortItemsSettle(items: seq<Value>)
    ensures SortItems(SettledItems(items)) == SettledItems(SortItems(items))
    decreases items, 0, 0
  {
    if items == [] {
    } else {
      SortDeepSettles(items[0]);
      SortItemsSettle(items[1..]);
      assert SettledItems(items)[1..] == SettledItems(items[1..]);
      assert SortItems(items)[1..] == SortItems(items[1..]);
    }
  }

  lemma {:induction false} RebuildSettles(ms: seq<Member>, keys: seq<Text>)
    ensures Rebuild(SettledMembers(ms), keys) == SettledMembers(Rebuild(ms, keys))
    decreases ms, 1, |keys|
  {
    if keys == [] {
    } else {
      var before, k := keys[..|keys| - 1], keys[|keys| - 1];
      RebuildSettles(ms, before);
      SettledKeys(ms, k);
      if HasKey(ms, k) {
        SortDeepSettles(ms[Find(ms, k)].value);
        PutSettled(Rebuild(ms, before), k, SortDeep(ms[Find(ms, k)].value));
      }
    }
  }

  // ----- The text does not tell a value from its settled form -----------------------------

  lemma {:induction false} PrintSettled(v: Value, indent: nat)
    ensures Print(Settled(v), indent) == Print(v, indent)
    decreases v, 0
  {
    match v
    case Arr(items) =>
      if items != [] {
        PrintItemsSettled(items, indent + 2);
      }
    case Obj(ms) =>
      if ms != [] {
        PrintMembersSettled(ms, indent + 2);
      }
    case _ =>
  }

  lemma {:induction false} PrintItemsSettled(items: seq<Value>, indent: nat)
    requires items != []
    ensures PrintItems(SettledItems(items), indent) == PrintItems(items, indent)
    decreases items, 0
  {
    PrintSettled(items[0], indent);
    if |items| == 1 {
    } else {
      PrintItemsSettled(items[1..], indent);
      assert SettledItems(items)[1..] == SettledItems(items[1..]);
    }
  }

  lemma {:induction false} PrintMembersSettled(ms: seq<Member>, indent: nat)
    requires ms != []
    ensures PrintMembers(SettledMembers(ms), indent) == PrintMembers(ms, indent)
    decreases ms, 0
  {
    PrintSettled(ms[0].value, indent);
    if |ms| == 1 {
    } else {
      PrintMembersSettled(ms[1..], indent);
      assert SettledMembers(ms)[1..] == SettledMembers(ms[1..]);
    }
  }

  // ----- What settling keeps --------------------------------------------------------------

  lemma {:induction false} SettledTidy(v: Value)
    requires WellFormed(v)
    ensures WellFormed(Settled(v)) && Printable(Settled(v))
    decreases v
  {
    match v
    case Arr(items) =>
      forall i | 0 <= i < |items| ensures WellFormed(Settled(items[i])) && Printable(Settled(items[i])) {
        SettledTidy(items[i]);
      }
    case Obj(ms) =>
      forall i | 0 <= i < |ms| ensures WellFormed(Settled(ms[i].value)) && Printable(Settled(ms[i].value)) {
        SettledTidy(ms[i].value);
      }
    case _ =>
  }

  lemma {:induction false} SettledProtoFree(v: Value)
    ensures ProtoFree(Settled(v)) <==> ProtoFree(v)
    decreases v
  {
    match v
    case Arr(items) =>
      forall i | 0 <= i < |items| ensures ProtoFree(Settled(items[i])) <==> ProtoFree(items[i]) {
        SettledProtoFree(items[i]);
      }
      var r := SettledItems(items);
      assert forall i :: 0 <= i < |items| ==> r[i] == Settled(items[i]);
    case Obj(ms) =>
      forall i | 0 <= i < |ms| ensures ProtoFree(Settled(ms[i].value)) <==> ProtoFree(ms[i].value) {
        SettledProtoFree(ms[i].value);
      }
      var r := SettledMembers(ms);
      assert forall i :: 0 <= i < |ms| ==> r[i] == Member(ms[i].key, Settled(ms[i].value));
    case _ =>
  }

  lemma {:induction false} FiniteSettled(v: Value)
    requires Finite(v)
    ensures Settled(v) == v
    decreases v
  {
    match v
    case Arr(items) =>
      forall i | 0 <= i < |items| ensures Settled(items[i]) == items[i] {
        FiniteSettled(items[i]);
      }
      assert SettledItems(items) == items;
    case Obj(ms) =>
      forall i | 0 <= i < |ms| ensures Settled(ms[i].value) == ms[i].value {
        FiniteSettled(ms[i].value);
      }
      assert SettledMembers(ms) == ms;
    case _ =>
  }

  // ----- Which values their text gives back -------------------------------------------------

  /** Hiding `__proto__` members hides nothing exactly when there are none. */
  lemma {:induction false} HidesNothingExactly(v: Value)
    requires WellFormed(v)
    ensures MeaningOf(v, {PROTO}) == MeaningOf(v, {}) <==> ProtoFree(v)
    decreases v
  {
    if ProtoFree(v) {
      ProtoFreeMeaning(v);
    }
    if MeaningOf(v, {PROTO}) == MeaningOf(v, {}) {
      match v
      case Arr(items) =>
        forall i | 0 <= i < |items| ensures ProtoFree(items[i]) {
          ItemsMeaningAt(items, {PROTO}, i);
          ItemsMeaningAt(items, {}, i);
          HidesNothingExactly(items[i]);
        }
      case Obj(ms) =>
        forall i | 0 <= i < |ms| ensures ms[i].key != PROTO && ProtoFree(ms[i].value) {
          MemberShown(ms, ms, i);
          HidesNothingExactly(ms[i].value);
        }
      case _ =>
    }
  }

  /** Where `xs` with hidden `__proto__` means what `ms` means, each member of `ms` has its own. */
  lemma MemberShown(ms: seq<Member>, xs: seq<Member>, i: nat)
    requires DistinctKeys(ms) && i < |ms| && |xs| == |ms| && Keys(xs) == Keys(ms)
    requires MeaningOf(Obj(xs), {PROTO}) == MeaningOf(Obj(ms), {})
    ensures ms[i].key != PROTO && MeaningOf(xs[i].value, {PROTO}) == MeaningOf(ms[i].value, {})
  {
    var k := ms[i].key;
    assert Keys(ms)[i] == k && Keys(xs)[i] == k;
    var all, shown := MeaningOfMembers(ms, {}), MeaningOfMembers(xs, {PROTO});
    MembersAsMap(ms, {}, k);
    MembersAsMap(xs, {PROTO}, k);
    FoundAt(ms, i);
    assert DistinctKeys(xs) by {
      assert forall j :: 0 <= j < |ms| ==> Keys(xs)[j] == xs[j].key && Keys(ms)[j] == ms[j].key;
    }
    FoundAt(xs, i);
    assert k in all - {};
    assert k in shown - {PROTO};
    assert (all - {})[k] == (shown - {PROTO})[k];
  }

  lemma FoundAt(ms: seq<Member>, i: nat)
    requires DistinctKeys(ms) && i < |ms|
    ensures HasKey(ms, ms[i].key) && Find(ms, ms[i].key) == i
  {
  }

  /** Settling and hiding together lose nothing exactly when there is nothing to lose. */
  lemma {:induction false} LosesNothingExactly(v: Value)
    requires WellFormed(v)
    ensures MeaningOf(Settled(v), {PROTO}) == MeaningOf(v, {}) <==> ProtoFree(v) && Finite(v)
    decreases v
  {
    if ProtoFree(v) && Finite(v) {
      FiniteSettled(v);
      ProtoFreeMeaning(v);
    }
    if MeaningOf(Settled(v), {PROTO}) == MeaningOf(v, {}) {
      match v
      case Arr(items) =>
        forall i | 0 <= i < |items| ensures ProtoFree(items[i]) && Finite(items[i]) {
          ItemsMeaningAt(SettledItems(items), {PROTO}, i);
          ItemsMeaningAt(items, {}, i);
          LosesNothingExactly(items[i]);
        }
      case Obj(ms) =>
        SettledKeys(ms, []);
        forall i | 0 <= i < |ms| ensures ms[i].key != PROTO && ProtoFree(ms[i].value) && Finite(ms[i].value) {
          MemberShown(ms, SettledMembers(ms), i);
          LosesNothingExactly(ms[i].value);
        }
      case _ =>
    }
  }

  /** What the canonical text of a value says, which is `SortDeep(Settled(v))`, is the value itself
      exactly when the value has neither a `__proto__` member nor an infinite number. */
  lemma TextKeepsExactly(v: Value)
    requires WellFormed(v)
    ensures Printable(SortDeep(Settled(v))) && Print(SortDeep(Settled(v)), 0) == Print(SortDeep(v), 0)
    ensures DeepEqual(SortDeep(Settled(v)), v) <==> ProtoFree(v) && Finite(v)
  {
    SortDeepTidy(v);
    SettledTidy(SortDeep(v));
    SortDeepSettles(v);
    PrintSettled(SortDeep(v), 0);
    SettledTidy(v);
    SortDeepTidy(Settled(v));
    SortDeepMeaning(Settled(v));
    DeepEqualIsSameMeaning(SortDeep(Settled(v)), v);
    LosesNothingExactly(v);
  }
}
