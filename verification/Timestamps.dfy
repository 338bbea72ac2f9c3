/** Counting the timestamps of a list that satisfy some condition. */
module Timestamps {
  ghost predicate Sorted(s: seq<real>) {
    forall i, j :: 0 <= i < j < |s| ==> s[i] <= s[j]
  }

  function Count(s: seq<real>, p: real -> bool): (n: nat)
    ensures n <= |s|
  {
    if s == [] then 0 else (if p(s[0]) then 1 else 0) + Count(s[1..], p)
  }

  lemma {:induction false} CountOutside(s: seq<real>, p: real -> bool, a: nat, b: nat)
    requires a <= b <= |s|
    requires forall i :: 0 <= i < |s| && (i < a || b <= i) ==> !p(s[i])
    ensures Count(s, p) <= b - a
  {
    if s == [] {
    } else {
      if a > 0 {
        CountOutside(s[1..], p, a - 1, b - 1);
      } else if b > 0 {
        CountOutside(s[1..], p, 0, b - 1);
      } else {
        CountOutside(s[1..], p, 0, 0);
      }
    }
  }

  lemma {:induction false} LastWithin(s: seq<real>, p: real -> bool) returns (m: int)
    ensures -1 <= m < |s|
    ensures m >= 0 ==> p(s[m])
    ensures forall i :: m < i < |s| ==> !p(s[i])
  {
    m := |s| - 1;
    while m >= 0 && !p(s[m])
      invariant -1 <= m < |s|
      invariant forall i :: m < i < |s| ==> !p(s[i])
    {
      m := m - 1;
    }
  }

  lemma {:induction false} FirstWithin(s: seq<real>, p: real -> bool) returns (m: nat)
    ensures m <= |s|
    ensures m < |s| ==> p(s[m])
    ensures forall i :: 0 <= i < m ==> !p(s[i])
  {
    m := 0;
    while m < |s| && !p(s[m])
      invariant m <= |s|
      invariant forall i :: 0 <= i < m ==> !p(s[i])
    {
      m := m + 1;
    }
  }

  lemma {:induction false} CountTail(s: seq<real>, p: real -> bool, a: nat)
    requires a <= |s|
    requires forall i :: 0 <= i < |s| ==> (p(s[i]) <==> a <= i)
    ensures Count(s, p) == |s| - a
  {
    if s == [] {
    } else {
      CountTail(s[1..], p, if a == 0 then 0 else a - 1);
    }
  }
}
