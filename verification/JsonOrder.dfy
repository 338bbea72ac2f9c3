/** The order that `sortDeep` gives to members, and how its text is laid out: what makes the canonical text
    of app/backend/src/audit/audit-chain.util.ts the one text that anybody recomputes. */
module JsonOrder {
  import opened Basics
  import opened Sorting
  import opened Json
  import opened JsonText

  /** Array indexes come first, in numeric order, whatever was assigned first; all other keys come in the
      order of their code units. */
  predicate Before(a: Text, b: Text) {
    if IsIndex(a) then IsIndex(b) ==> Decimal(a) <= Decimal(b) else !IsIndex(b) && UnitsLe(a, b)
  }

  /** The order of code units: a beginning first, else by the first unit that differs. */
  lemma UnitsLeExactly(a: Text, b: Text)
    ensures UnitsLe(a, b) <==> a <= b || exists n: nat :: n < |a| && n < |b| && a[..n] == b[..n] && a[n] < b[n]
  {
    LexLeExactly(CodeUnit, a, b);
    forall n: nat ensures SmallerAt(CodeUnit, a, b, n) <==> n < |a| && n < |b| && a[..n] == b[..n] && a[n] < b[n] {
    }
  }

  predicate KeysOrdered(ms: seq<Member>) {
    forall i, j :: 0 <= i < j < |ms| ==> Before(ms[i].key, ms[j].key)
  }

  /** At every depth members are in that order. */
  predicate InOrder(v: Value)
    decreases v, 0
  {
    match v
    case Arr(items) => forall i :: 0 <= i < |items| ==> InOrder(items[i])
    case Obj(ms) => KeysOrdered(ms) && forall i :: 0 <= i < |ms| ==> InOrder(ms[i].value)
    case _ => true
  }

  lemma OrderedCons(first: Member, rest: seq<Member>)
    requires KeysOrdered(rest) && forall x :: x in rest ==> Before(first.key, x.key)
    ensures KeysOrdered([first] + rest)
  {
    var all := [first] + rest;
    forall i, j | 0 <= i < j < |all| ensures Before(all[i].key, all[j].key) {
      assert all[j] == rest[j - 1] && rest[j - 1] in rest;
      if i > 0 {
        assert all[i] == rest[i - 1];
      }
    }
  }

  lemma OrderedTail(ms: seq<Member>)
    requires ms != [] && KeysOrdered(ms)
    ensures KeysOrdered(ms[1..]) && forall x :: x in ms[1..] ==> Before(ms[0].key, x.key)
  {
    forall i, j | 0 <= i < j < |ms[1..]| ensures Before(ms[1..][i].key, ms[1..][j].key) {
      assert Before(ms[i + 1].key, ms[j + 1].key);
    }
    forall x | x in ms[1..] ensures Before(ms[0].key, x.key) {
      var i :| 0 <= i < |ms[1..]| && ms[1..][i] == x;
      assert ms[i + 1] == x;
    }
  }

  /** A key that is textually last finds its place. */
  lemma {:induction false} InsertOrdered(ms: seq<Member>, m: Member)
    requires KeysOrdered(ms) && forall x :: x in ms ==> UnitsLe(x.key, m.key)
    ensures KeysOrdered(InsertMember(ms, m))
    ensures forall x :: x in InsertMember(ms, m) <==> x == m || x in ms
  {
    if ms == [] {
    } else {
      OrderedTail(ms);
      assert ms == [ms[0]] + ms[1..];
      assert forall x :: x in ms[1..] ==> x in ms;
      if IsIndex(m.key) && !(IsIndex(ms[0].key) && Decimal(ms[0].key) < Decimal(m.key)) {
        forall x | x in ms ensures Before(m.key, x.key) {
          assert x == ms[0] || Before(ms[0].key, x.key);
        }
        OrderedCons(m, ms);
      } else {
        InsertOrdered(ms[1..], m);
        assert ms[0] in ms && Before(ms[0].key, m.key);
        OrderedCons(ms[0], InsertMember(ms[1..], m));
      }
    }
  }

  /** Members built from the keys so far: in order, all with such keys, and with values in order. */
  ghost predicate Built(ms: seq<Member>, keys: seq<Text>) {
    KeysOrdered(ms) && forall x :: x in ms ==> x.key in keys && InOrder(x.value)
  }

  lemma PutBuilt(ms: seq<Member>, keys: seq<Text>, k: Text, v: Value)
    requires Built(ms, keys) && InOrder(v) && forall l :: l in keys ==> UnitsLe(l, k)
    ensures Built(Put(ms, k, v), keys + [k])
  {
    if k == PROTO {
    } else if HasKey(ms, k) {
      var r := Put(ms, k, v);
      forall i, j | 0 <= i < j < |r| ensures Before(r[i].key, r[j].key) {
        assert r[i].key == ms[i].key && r[j].key == ms[j].key;
      }
    } else {
      InsertOrdered(ms, Member(k, v));
    }
  }

  lemma SortedBefore(keys: seq<Text>)
    requires keys != [] && SortedBy(keys, UnitsLe)
    ensures SortedBy(keys[..|keys| - 1], UnitsLe)
    ensures var before := keys[..|keys| - 1]; forall l :: l in before ==> UnitsLe(l, keys[|keys| - 1])
  {
    var before := keys[..|keys| - 1];
    forall i, j | 0 <= i < j < |before| ensures UnitsLe(before[i], before[j]) {
      assert UnitsLe(keys[i], keys[j]);
    }
    forall l | l in before ensures UnitsLe(l, keys[|keys| - 1]) {
      var i :| 0 <= i < |before| && before[i] == l;
      assert UnitsLe(keys[i], keys[|keys| - 1]);
    }
  }

  /** `sortDeep` brings the members of every object, at every depth, into that one order. */
  lemma {:induction false} SortDeepInOrder(v: Value)
    ensures InOrder(SortDeep(v))
    decreases v, 0, 0
  {
    match v
    case Arr(items) => SortItemsInOrder(items);
    case Obj(ms) =>
      UnitsLeOrder();
      SortSorts(Keys(ms), UnitsLe);
      RebuildInOrder(ms, Sort(Keys(ms), UnitsLe));
    case _ =>
  }

  lemma {:induction false} SortItemsInOrder(items: seq<Value>)
    ensures InOrder(Arr(SortItems(items)))
    decreases items, 0, 0
  {
    if items == [] {
    } else {
      SortDeepInOrder(items[0]);
      SortItemsInOrder(items[1..]);
      var r, rest := SortItems(items), SortItems(items[1..]);
      forall i | 0 <= i < |r| ensures InOrder(r[i]) {
        if i > 0 {
          assert r[i] == rest[i - 1];
        }
      }
    }
  }

  lemma {:induction false} RebuildInOrder(ms: seq<Member>, keys: seq<Text>)
    requires SortedBy(keys, UnitsLe)
    ensures Built(Rebuild(ms, keys), keys)
    decreases ms, 1, |keys|
  {
    if keys == [] {
    } else {
      var before, k := keys[..|keys| - 1], keys[|keys| - 1];
      assert keys == before + [k];
      SortedBefore(keys);
      RebuildInOrder(ms, before);
      if HasKey(ms, k) {
        var v := ms[Find(ms, k)].value;
        SortDeepInOrder(v);
        PutBuilt(Rebuild(ms, before), before, k, SortDeep(v));
      }
    }
  }

  // ----- Layout -----------------------------------------------------------------------------

  lemma ShortBreaks()
    ensures Break(0) == [NEWLINE] && Break(2) == [NEWLINE, 32, 32]
  {
    PadGrows();
    assert Pad(0) == [] && Pad(0 + 2) == Pad(0) + [32, 32];
  }

  lemma Laid(open: Unit, pad: Text, line: Text, end: Text)
    ensures [open] + ((pad + line) + end) == ([open] + pad) + (line + end)
  {
    Regroup(pad, line, end);
    Regroup([open], pad, line + end);
  }

  lemma ElementLine(v: Value)
    ensures Print(Arr([v]), 0) == [91, NEWLINE, 32, 32] + (Print(v, 2) + [NEWLINE, 93])
  {
    var p := Print(v, 2);
    ShortBreaks();
    assert PrintItems([v], 2) == Break(2) + (p + []) && p + [] == p;
    Laid(91, Break(2), p, Break(0) + [93]);
  }

  lemma MemberLine(k: Text, v: Value)
    ensures Print(Obj([Member(k, v)]), 0) == [123, NEWLINE, 32, 32] + (Quoted(k) + ([58, 32] + (Print(v, 2) + [NEWLINE, 125])))
  {
    ShortBreaks();
    OneMember(k, v);
    MemberLaid(Quoted(k), Print(v, 2));
  }

  lemma OneMember(k: Text, v: Value)
    ensures PrintMembers([Member(k, v)], 2) == Break(2) + (Quoted(k) + ([58, 32] + Print(v, 2)))
  {
    var p := Print(v, 2);
    assert p + [] == p;
  }

  lemma MemberLaid(key: Text, p: Text)
    ensures [123] + ((Break(2) + (key + ([58, 32] + p))) + (Break(0) + [125])) ==
            [123, NEWLINE, 32, 32] + (key + ([58, 32] + (p + [NEWLINE, 125])))
  {
    ShortBreaks();
    Laid(123, Break(2), key + ([58, 32] + p), Break(0) + [125]);
    KeyLine(key, p, Break(0) + [125]);
  }

  lemma KeyLine(key: Text, p: Text, end: Text)
    ensures (key + ([58, 32] + p)) + end == key + ([58, 32] + (p + end))
  {
    Regroup(key, [58, 32] + p, end);
    Regroup([58, 32], p, end);
  }

  /** Two spaces for each level, and a space behind the colon of a key: how the only element of an array
      and the only member of an object are laid out, and how the lines of one level differ from the last. */
  lemma TwoSpaces(k: Text, v: Value)
    ensures Print(Arr([v]), 0) == [91, NEWLINE, 32, 32] + (Print(v, 2) + [NEWLINE, 93])
    ensures Print(Obj([Member(k, v)]), 0) == [123, NEWLINE, 32, 32] + (Quoted(k) + ([58, 32] + (Print(v, 2) + [NEWLINE, 125])))
    ensures forall n: nat :: Break(n + 2) == Break(n) + [32, 32]
  {
    PadGrows();
    ElementLine(v);
    MemberLine(k, v);
  }

  lemma PadGrows()
    ensures forall n: nat :: Pad(n + 2) == Pad(n) + [32, 32]
    ensures forall n: nat :: Break(n + 2) == Break(n) + [32, 32]
  {
    forall n: nat ensures Pad(n + 2) == Pad(n) + [32, 32] {
      PadAt(n);
    }
    forall n: nat ensures Break(n + 2) == Break(n) + [32, 32] {
      PadAt(n);
    }
  }

  lemma {:induction false} PadAt(n: nat)
    ensures Pad(n + 2) == Pad(n) + [32, 32]
  {
    if n == 0 {
      assert Pad(1) == [32] + Pad(0) && Pad(2) == [32] + Pad(1);
    } else {
      PadAt(n - 1);
      assert Pad(n + 2) == [32] + Pad(n + 1);
    }
  }

  // ----- What is escaped --------------------------------------------------------------------

  predicate NeedsNoEscape(u: Unit) {
    u >= 32 && u != 34 && u != 92 && !(0xD800 <= u < 0xE000)
  }

  /** Text without quotes, backslashes, control characters and surrogates is copied as it is. */
  lemma {:induction false} PlainTextIsCopied(s: Text)
    requires forall u :: u in s ==> NeedsNoEscape(u)
    ensures Escape(s) == s
  {
    if s == [] {
    } else {
      assert s[0] in s && forall u :: u in s[1..] ==> u in s;
      PlainTextIsCopied(s[1..]);
      assert s == [s[0]] + s[1..];
    }
  }

  /** Two units for what has an escape of its own, six for other control characters and halves of
      surrogate pairs, in lower-case digits, and one for everything else. */
  lemma EscapesAreShortest(u: Unit)
    ensures |EscapeUnit(u)| == if u in {8, 9, 10, 12, 13, 34, 92} then 2 else if NeedsNoEscape(u) then 1 else 6
    ensures forall c :: c in EscapeUnit(u) && c != u ==> !(65 <= c <= 90)
  {
    if EscapeUnit(u) == UnicodeEscape(u) {
      FourDigits(u);
    }
  }
}
