/** Python's and JavaScript's library sort: stable, here as insertion of each element in front of
    the first one it may precede. */
module Sorting {
  import opened Basics

  ghost predicate TotalOrder<T(!new)>(le: (T, T) -> bool) {
    && (forall x, y :: le(x, y) || le(y, x))
    && (forall x, y, z :: le(x, y) && le(y, z) ==> le(x, z))
  }

  ghost predicate Antisymmetric<T(!new)>(le: (T, T) -> bool) {
    forall x, y :: le(x, y) && le(y, x) ==> x == y
  }

  ghost predicate SortedBy<T>(s: seq<T>, le: (T, T) -> bool) {
    forall i, j :: 0 <= i < j < |s| ==> le(s[i], s[j])
  }

  function Insert<T>(x: T, s: seq<T>, le: (T, T) -> bool): (r: seq<T>)
    ensures multiset(r) == multiset(s) + multiset{x}
    ensures |r| == |s| + 1
  {
    if s == [] || le(x, s[0]) then
      assert s == [] ==> multiset(s) == multiset{};
      [x] + s
    else
      assert s == [s[0]] + s[1..];
      [s[0]] + Insert(x, s[1..], le)
  }

  function Sort<T>(s: seq<T>, le: (T, T) -> bool): (r: seq<T>)
    ensures multiset(r) == multiset(s)
    ensures |r| == |s|
  {
    if s == [] then [] else
      assert s == [s[0]] + s[1..];
      Insert(s[0], Sort(s[1..], le), le)
  }

  lemma SameMembers<T>(s: seq<T>, t: seq<T>, x: T)
    requires multiset(s) == multiset(t)
    ensures x in s <==> x in t
  {
    assert x in s <==> x in multiset(s);
    assert x in t <==> x in multiset(t);
  }

  lemma {:induction false} InsertSorted<T(!new)>(x: T, s: seq<T>, le: (T, T) -> bool)
    requires TotalOrder(le) && SortedBy(s, le)
    ensures SortedBy(Insert(x, s, le), le)
  {
    if s == [] || le(x, s[0]) {
      var r := [x] + s;
      forall i, j | 0 <= i < j < |r| ensures le(r[i], r[j]) {
        if i == 0 && j > 1 {
          assert le(s[0], s[j - 1]);
        }
      }
    } else {
      InsertSorted(x, s[1..], le);
      var rest := Insert(x, s[1..], le);
      forall y | y in rest ensures le(s[0], y) {
        assert y in multiset(rest);
        if y != x {
          assert y in s[1..];
          var j :| 0 <= j < |s[1..]| && s[1..][j] == y;
          assert s[j + 1] == y;
        }
      }
      var r := [s[0]] + rest;
      forall i, j | 0 <= i < j < |r| ensures le(r[i], r[j]) {
        if i == 0 {
          assert r[j] in rest;
        } else {
          assert r[i] == rest[i - 1] && r[j] == rest[j - 1];
        }
      }
    }
  }

  lemma {:induction false} SortSorts<T(!new)>(s: seq<T>, le: (T, T) -> bool)
    requires TotalOrder(le)
    ensures SortedBy(Sort(s, le), le)
  {
    if s == [] {
    } else {
      SortSorts(s[1..], le);
      InsertSorted(s[0], Sort(s[1..], le), le);
    }
  }

  lemma FirstIsLeast<T(!new)>(s: seq<T>, le: (T, T) -> bool, x: T)
    requires TotalOrder(le) && SortedBy(s, le) && x in s
    ensures le(s[0], x)
  {
    assert le(x, x);
  }

  lemma TailMultiset<T>(s: seq<T>)
    requires s != []
    ensures multiset(s[1..]) == multiset(s) - multiset{s[0]}
  {
    assert s == [s[0]] + s[1..];
  }

  /** Two ordered arrangements of the same elements are one. */
  lemma {:induction false} SortedUnique<T(!new)>(s: seq<T>, t: seq<T>, le: (T, T) -> bool)
    requires TotalOrder(le) && Antisymmetric(le) && SortedBy(s, le) && SortedBy(t, le)
    requires multiset(s) == multiset(t)
    ensures s == t
  {
    if s == [] {
      assert |multiset(t)| == |t| && |multiset(s)| == |s|;
    } else {
      SameMembers(s, t, s[0]);
      FirstIsLeast(t, le, s[0]);
      assert t != [];
      SameMembers(s, t, t[0]);
      FirstIsLeast(s, le, t[0]);
      TailMultiset(s);
      TailMultiset(t);
      SortedUnique(s[1..], t[1..], le);
    }
  }

  function Select<T>(s: seq<T>, p: T -> bool): (r: seq<T>)
    ensures |r| <= |s|
  {
    if s == [] then [] else (if p(s[0]) then [s[0]] else []) + Select(s[1..], p)
  }

  lemma {:induction false} SelectMember<T>(s: seq<T>, p: T -> bool, x: T)
    ensures x in Select(s, p) <==> x in s && p(x)
  {
    if s == [] {
    } else {
      SelectMember(s[1..], p, x);
      assert x in s <==> x == s[0] || x in s[1..];
    }
  }

  lemma {:induction false} SelectConcat<T>(s: seq<T>, t: seq<T>, p: T -> bool)
    ensures Select(s + t, p) == Select(s, p) + Select(t, p)
  {
    if s == [] {
      assert s + t == t;
    } else {
      var x, rest := s[0], s[1..];
      SelectConcat(rest, t, p);
      SelectFirst(x, rest + t, p);
      SelectFirst(x, rest, p);
      assert s == [x] + rest;
      Regroup([x], rest, t);
      Regroup([x], Select(rest, p), Select(t, p));
    }
  }

  lemma SelectFirst<T>(x: T, s: seq<T>, p: T -> bool)
    ensures Select([x] + s, p) == (if p(x) then [x] + Select(s, p) else Select(s, p))
  {
    assert ([x] + s)[1..] == s;
  }

  lemma {:induction false} InsertSelect<T(!new)>(x: T, s: seq<T>, le: (T, T) -> bool, p: T -> bool)
    requires TotalOrder(le)
    requires forall y, z :: p(y) && p(z) ==> le(y, z)
    ensures Select(Insert(x, s, le), p) == (if p(x) then [x] else []) + Select(s, p)
  {
    if s == [] || le(x, s[0]) {
      SelectFirst(x, s, p);
    } else {
      var first, rest := s[0], s[1..];
      assert s == [first] + rest;
      InsertSelect(x, rest, le, p);
      SelectFirst(first, Insert(x, rest, le), p);
      SelectFirst(first, rest, p);
      assert !(p(x) && p(first));
    }
  }

  /** Stability: elements of one rank keep the order they came in. */
  lemma {:induction false} SortStable<T(!new)>(s: seq<T>, le: (T, T) -> bool, p: T -> bool)
    requires TotalOrder(le)
    requires forall y, z :: p(y) && p(z) ==> le(y, z)
    ensures Select(Sort(s, le), p) == Select(s, p)
  {
    if s == [] {
    } else {
      SortStable(s[1..], le, p);
      InsertSelect(s[0], Sort(s[1..], le), le, p);
    }
  }

  /** An element that goes before all others is sorted to the front. */
  lemma {:induction false} SortLeastLast<T(!new)>(s: seq<T>, least: T, le: (T, T) -> bool)
    requires TotalOrder(le) && forall x :: x in s ==> !le(x, least)
    ensures Sort(s + [least], le) == [least] + Sort(s, le)
  {
    if s == [] {
      assert Sort([least], le) == Insert(least, [], le);
    } else {
      assert (s + [least])[1..] == s[1..] + [least];
      assert forall x :: x in s[1..] ==> x in s;
      SortLeastLast(s[1..], least, le);
      assert s[0] in s;
      assert ([least] + Sort(s[1..], le))[1..] == Sort(s[1..], le);
    }
  }

  lemma {:induction false} SelectCount<T>(s: seq<T>, p: T -> bool, x: T)
    ensures multiset(Select(s, p))[x] == if p(x) then multiset(s)[x] else 0
  {
    if s == [] {
      assert multiset(s) == multiset{};
    } else {
      SelectCount(s[1..], p, x);
      assert s == [s[0]] + s[1..];
    }
  }

  lemma SelectMultiset<T(!new)>(s: seq<T>, t: seq<T>, p: T -> bool)
    requires multiset(s) == multiset(t)
    ensures multiset(Select(s, p)) == multiset(Select(t, p))
  {
    forall x ensures multiset(Select(s, p))[x] == multiset(Select(t, p))[x] {
      SelectCount(s, p, x);
      SelectCount(t, p, x);
    }
  }

  /** Selecting twice is selecting by both conditions. */
  lemma {:induction false} SelectBoth<T(!new)>(s: seq<T>, p: T -> bool, q: T -> bool, both: T -> bool)
    requires forall x :: both(x) <==> p(x) && q(x)
    ensures Select(Select(s, p), q) == Select(s, both)
  {
    if s == [] {
    } else {
      var x, rest := s[0], s[1..];
      SelectBoth(rest, p, q, both);
      SelectFirst(x, rest, p);
      SelectFirst(x, rest, both);
      if p(x) {
        SelectFirst(x, Select(rest, p), q);
      }
      assert s == [x] + rest;
    }
  }

  lemma {:induction false} SelectSorted<T(!new)>(s: seq<T>, le: (T, T) -> bool, p: T -> bool)
    requires SortedBy(s, le)
    ensures SortedBy(Select(s, p), le)
  {
    if s == [] {
    } else {
      SelectSorted(s[1..], le, p);
      var rest, all := Select(s[1..], p), Select(s, p);
      forall y | y in rest ensures le(s[0], y) {
        SelectMember(s[1..], p, y);
        var k :| 0 <= k < |s[1..]| && s[1..][k] == y;
        assert s[k + 1] == y;
      }
      forall i, j | 0 <= i < j < |all| ensures le(all[i], all[j]) {
        if p(s[0]) {
          assert all == [s[0]] + rest;
          assert all[j] in rest;
        } else {
          assert all == rest;
        }
      }
    }
  }

  // ----- Lexicographic order --------------------------------------------------------------

  predicate LexLe<T>(rank: T -> int, a: seq<T>, b: seq<T>) {
    a == [] ||
    (b != [] && (rank(a[0]) < rank(b[0]) || (rank(a[0]) == rank(b[0]) && LexLe(rank, a[1..], b[1..]))))
  }

  lemma {:induction false} LexLeTotal<T(!new)>(rank: T -> int, a: seq<T>, b: seq<T>)
    requires forall x, y :: rank(x) == rank(y) ==> x == y
    ensures LexLe(rank, a, b) || LexLe(rank, b, a)
    ensures LexLe(rank, a, b) && LexLe(rank, b, a) ==> a == b
  {
    if a == [] || b == [] {
    } else if rank(a[0]) == rank(b[0]) {
      LexLeTotal(rank, a[1..], b[1..]);
      assert a == [a[0]] + a[1..] && b == [b[0]] + b[1..];
    }
  }

  lemma {:induction false} LexLeTransitive<T>(rank: T -> int, a: seq<T>, b: seq<T>, c: seq<T>)
    requires LexLe(rank, a, b) && LexLe(rank, b, c)
    ensures LexLe(rank, a, c)
  {
    if a == [] {
    } else if rank(a[0]) == rank(b[0]) == rank(c[0]) {
      LexLeTransitive(rank, a[1..], b[1..], c[1..]);
    }
  }

  /** `n` is the first place where the two differ, and `a` is smaller there. */
  predicate SmallerAt<T(==)>(rank: T -> int, a: seq<T>, b: seq<T>, n: nat) {
    n < |a| && n < |b| && a[..n] == b[..n] && rank(a[n]) < rank(b[n])
  }

  lemma SmallerLater<T(!new)>(rank: T -> int, a: seq<T>, b: seq<T>, n: nat)
    requires a != [] && b != [] && a[0] == b[0]
    ensures !SmallerAt(rank, a, b, 0)
    ensures SmallerAt(rank, a, b, n + 1) <==> SmallerAt(rank, a[1..], b[1..], n)
  {
    if n < |a| - 1 && n < |b| - 1 {
      assert a[..n + 1] == [a[0]] + a[1..][..n] && b[..n + 1] == [b[0]] + b[1..][..n];
      assert a[1..][..n] == a[..n + 1][1..] && b[1..][..n] == b[..n + 1][1..];
    }
  }

  lemma SmallerFirst<T(!new)>(rank: T -> int, a: seq<T>, b: seq<T>, n: nat)
    requires a != [] && b != [] && a[0] != b[0]
    ensures SmallerAt(rank, a, b, n) <==> n == 0 && rank(a[0]) < rank(b[0])
  {
    if 0 < n < |a| && n < |b| {
      assert a[..n][0] == a[0] && b[..n][0] == b[0];
    }
  }

  /** The order as it is told: a beginning goes first, else the smaller one at the first difference. */
  lemma {:induction false} LexLeExactly<T(!new)>(rank: T -> int, a: seq<T>, b: seq<T>)
    requires forall x, y :: rank(x) == rank(y) ==> x == y
    ensures LexLe(rank, a, b) <==> a <= b || exists n: nat :: SmallerAt(rank, a, b, n)
  {
    if a == [] || b == [] {
    } else if a[0] == b[0] {
      LexLeExactly(rank, a[1..], b[1..]);
      assert a <= b <==> a[1..] <= b[1..] by {
        assert a == [a[0]] + a[1..] && b == [b[0]] + b[1..];
      }
      if n: nat :| SmallerAt(rank, a[1..], b[1..], n) {
        SmallerLater(rank, a, b, n);
      }
      if n: nat :| SmallerAt(rank, a, b, n) {
        SmallerLater(rank, a, b, if n == 0 then 0 else n - 1);
      }
    } else {
      SmallerFirst(rank, a, b, 0);
      if n: nat :| SmallerAt(rank, a, b, n) {
        SmallerFirst(rank, a, b, n);
      }
    }
  }

  function CodePoint(c: char): int {
    c as int
  }

  /** Python's order of strings, by code point. */
  predicate TextLe(a: string, b: string) {
    LexLe(CodePoint, a, b)
  }

  lemma TextLeOrder()
    ensures TotalOrder(TextLe) && Antisymmetric(TextLe)
  {
    forall a, b ensures (TextLe(a, b) || TextLe(b, a)) && (TextLe(a, b) && TextLe(b, a) ==> a == b) {
      LexLeTotal(CodePoint, a, b);
    }
    forall a, b, c | TextLe(a, b) && TextLe(b, c) ensures TextLe(a, c) {
      LexLeTransitive(CodePoint, a, b, c);
    }
  }

  /** The order of texts: a beginning first, else by the first character that differs. */
  lemma TextLeExactly(a: string, b: string)
    ensures TextLe(a, b) <==> a <= b || exists n: nat :: n < |a| && n < |b| && a[..n] == b[..n] && a[n] < b[n]
  {
    LexLeExactly(CodePoint, a, b);
    forall n: nat ensures SmallerAt(CodePoint, a, b, n) <==> n < |a| && n < |b| && a[..n] == b[..n] && a[n] < b[n] {
    }
  }
}
