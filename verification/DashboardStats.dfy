/** The global dashboard statistics (app/backend/src/analytics/analytics.service.ts): one pass over
    the claims that fills three breakdowns, and the two-decimal rounding of what it shows. Amounts
    are exact here. */
module DashboardStats {
  import opened Basics
  import opened Sorting

  datatype Claim = Claim(amount: real, recipient: string, day: string, token: Option<string>, region: Option<string>)

  /** One label of a breakdown. A JavaScript map keeps its labels in the order of first use. */
  datatype Bucket = Bucket(group: string, amount: real, count: nat)

  type Breakdown = seq<Bucket>

  const FALLBACK_TOKEN := "UNKNOWN"
  const FALLBACK_REGION := "Unknown"

  function OrElse(o: Option<string>, fallback: string): string {
    if o.Some? then o.value else fallback
  }

  function TokenOf(c: Claim): string { OrElse(c.token, FALLBACK_TOKEN) }
  function RegionOf(c: Claim): string { OrElse(c.region, FALLBACK_REGION) }
  function DayOf(c: Claim): string { c.day }

  function AddTo(b: Breakdown, group: string, amount: real): Breakdown {
    if b == [] then [Bucket(group, amount, 1)]
    else if b[0].group == group then [Bucket(group, b[0].amount + amount, b[0].count + 1)] + b[1..]
    else [b[0]] + AddTo(b[1..], group, amount)
  }

  function GroupBy(claims: seq<Claim>, group: Claim -> string): Breakdown {
    if claims == [] then []
    else
      var last := claims[|claims| - 1];
      AddTo(GroupBy(claims[..|claims| - 1], group), group(last), last.amount)
  }

  function Total(claims: seq<Claim>): real {
    if claims == [] then 0.0 else Total(claims[..|claims| - 1]) + claims[|claims| - 1].amount
  }

  function Recipients(claims: seq<Claim>): set<string> {
    set c | c in claims :: c.recipient
  }

  /** `Math.round(x * 100) / 100`. */
  function Round2(x: real): real {
    (x * 100.0 + 0.5).Floor as real / 100.0
  }

  function Rounded(b: Breakdown): (r: Breakdown)
    ensures |r| == |b|
    ensures forall i :: 0 <= i < |r| ==> r[i] == Bucket(b[i].group, Round2(b[i].amount), b[i].count)
  {
    if b == [] then [] else [Bucket(b[0].group, Round2(b[0].amount), b[0].count)] + Rounded(b[1..])
  }

  predicate LabelLe(a: Bucket, b: Bucket) {
    TextLe(a.group, b.group)
  }

  datatype Stats = Stats(totalAidDisbursed: real, totalRecipients: nat, byToken: Breakdown, byRegion: Breakdown, timeSeries: Breakdown)

  lemma OneMore(claims: seq<Claim>, i: nat)
    requires i < |claims|
    ensures Total(claims[..i + 1]) == Total(claims[..i]) + claims[i].amount
    ensures Recipients(claims[..i + 1]) == Recipients(claims[..i]) + {claims[i].recipient}
  {
    assert claims[..i + 1][..i] == claims[..i];
    assert claims[..i + 1] == claims[..i] + [claims[i]];
  }

  lemma GroupOneMore(claims: seq<Claim>, i: nat, group: Claim -> string)
    requires i < |claims|
    ensures GroupBy(claims[..i + 1], group) == AddTo(GroupBy(claims[..i], group), group(claims[i]), claims[i].amount)
  {
    assert claims[..i + 1][..i] == claims[..i];
  }

  method ComputeGlobalStats(claims: seq<Claim>) returns (stats: Stats)
    ensures stats == Stats(
      Round2(Total(claims)), |Recipients(claims)|, Rounded(GroupBy(claims, TokenOf)), Rounded(GroupBy(claims, RegionOf)),
      Rounded(Sort(GroupBy(claims, DayOf), LabelLe)))
  {
    var totalAidDisbursed := 0.0;
    var uniqueRecipients := {};
    var tokens: Breakdown, regions: Breakdown, days: Breakdown := [], [], [];
    for i := 0 to |claims|
      invariant totalAidDisbursed == Total(claims[..i])
      invariant uniqueRecipients == Recipients(claims[..i])
      invariant tokens == GroupBy(claims[..i], TokenOf)
      invariant regions == GroupBy(claims[..i], RegionOf)
      invariant days == GroupBy(claims[..i], DayOf)
    {
      var claim := claims[i];
      OneMore(claims, i);
      GroupOneMore(claims, i, TokenOf);
      GroupOneMore(claims, i, RegionOf);
      GroupOneMore(claims, i, DayOf);
      totalAidDisbursed := totalAidDisbursed + claim.amount;
      uniqueRecipients := uniqueRecipients + {claim.recipient};
      tokens := AddTo(tokens, TokenOf(claim), claim.amount);
      regions := AddTo(regions, RegionOf(claim), claim.amount);
      days := AddTo(days, DayOf(claim), claim.amount);
    }
    assert claims[..|claims|] == claims;
    stats := Stats(Round2(totalAidDisbursed), |uniqueRecipients|, Rounded(tokens), Rounded(regions),
                   Rounded(Sort(days, LabelLe)));
  }

  // ----- What a breakdown says --------------------------------------------------------------

  function Labelled(claims: seq<Claim>, group: Claim -> string, l: string): seq<Claim> {
    if claims == [] then []
    else
      var last := claims[|claims| - 1];
      Labelled(claims[..|claims| - 1], group, l) + (if group(last) == l then [last] else [])
  }

  function LabelsOf(b: Breakdown): set<string> {
    if b == [] then {} else {b[0].group} + LabelsOf(b[1..])
  }

  predicate DistinctLabels(b: Breakdown) {
    b == [] || (b[0].group !in LabelsOf(b[1..]) && DistinctLabels(b[1..]))
  }

  /** What a breakdown shows for a label; nothing counts as no claims. */
  function Shown(b: Breakdown, l: string): (real, nat) {
    if b == [] then (0.0, 0) else if b[0].group == l then (b[0].amount, b[0].count) else Shown(b[1..], l)
  }

  lemma {:induction false} AddToLabels(b: Breakdown, group: string, amount: real)
    requires DistinctLabels(b)
    ensures DistinctLabels(AddTo(b, group, amount))
    ensures LabelsOf(AddTo(b, group, amount)) == LabelsOf(b) + {group}
  {
    var r := AddTo(b, group, amount);
    if b == [] {
      assert r[1..] == [];
    } else if b[0].group == group {
      assert r[1..] == b[1..];
    } else {
      AddToLabels(b[1..], group, amount);
      assert r[1..] == AddTo(b[1..], group, amount);
    }
  }

  lemma {:induction false} AddToShows(b: Breakdown, group: string, amount: real, l: string)
    requires DistinctLabels(b)
    ensures Shown(AddTo(b, group, amount), l) ==
            (Shown(b, l).0 + (if l == group then amount else 0.0), Shown(b, l).1 + (if l == group then 1 else 0))
  {
    var r := AddTo(b, group, amount);
    if b == [] {
      assert r[1..] == [];
    } else if b[0].group == group {
      assert r[1..] == b[1..];
    } else {
      AddToShows(b[1..], group, amount, l);
      assert r[1..] == AddTo(b[1..], group, amount);
    }
  }

  lemma {:induction false} BucketLabels(claims: seq<Claim>, group: Claim -> string, l: string)
    ensures DistinctLabels(GroupBy(claims, group))
    ensures l in LabelsOf(GroupBy(claims, group)) <==> Labelled(claims, group, l) != []
  {
    if claims == [] {
    } else {
      var before, last := claims[..|claims| - 1], claims[|claims| - 1];
      BucketLabels(before, group, l);
      AddToLabels(GroupBy(before, group), group(last), last.amount);
    }
  }

  ghost predicate HoldsClaims(shown: (real, nat), claims: seq<Claim>) {
    shown.0 == Total(claims) && shown.1 == |claims|
  }

  lemma BucketSnoc(claims: seq<Claim>, group: Claim -> string, l: string)
    requires claims != [] && DistinctLabels(GroupBy(claims[..|claims| - 1], group))
    requires HoldsClaims(Shown(GroupBy(claims[..|claims| - 1], group), l), Labelled(claims[..|claims| - 1], group, l))
    ensures HoldsClaims(Shown(GroupBy(claims, group), l), Labelled(claims, group, l))
  {
    var before, last := claims[..|claims| - 1], claims[|claims| - 1];
    AddToShows(GroupBy(before, group), group(last), last.amount, l);
    if group(last) == l {
      TotalSnoc(Labelled(before, group, l), last);
    } else {
      assert Labelled(claims, group, l) == Labelled(before, group, l);
    }
  }

  lemma {:induction false} BucketHolds(claims: seq<Claim>, group: Claim -> string, l: string)
    ensures HoldsClaims(Shown(GroupBy(claims, group), l), Labelled(claims, group, l))
  {
    if claims == [] {
    } else {
      BucketHolds(claims[..|claims| - 1], group, l);
      BucketLabels(claims[..|claims| - 1], group, l);
      BucketSnoc(claims, group, l);
    }
  }

  /** Every label that occurs has one bucket, and that holds exactly the claims of the label. */
  lemma BucketsExactly(claims: seq<Claim>, group: Claim -> string, l: string)
    ensures DistinctLabels(GroupBy(claims, group))
    ensures l in LabelsOf(GroupBy(claims, group)) <==> Labelled(claims, group, l) != []
    ensures HoldsClaims(Shown(GroupBy(claims, group), l), Labelled(claims, group, l))
  {
    BucketLabels(claims, group, l);
    BucketHolds(claims, group, l);
  }

  lemma {:induction false} LabelledIsSelected(claims: seq<Claim>, group: Claim -> string, l: string, p: Claim -> bool)
    requires forall c :: p(c) <==> group(c) == l
    ensures Labelled(claims, group, l) == Select(claims, p)
  {
    if claims == [] {
    } else {
      var before, last := claims[..|claims| - 1], claims[|claims| - 1];
      LabelledIsSelected(before, group, l, p);
      assert claims == before + [last] && [last][1..] == [];
      SelectConcat(before, [last], p);
    }
  }

  /** Recipients are counted once each. What the three breakdowns show under a label: the claims of that token, region or day; those of
      no token are shown as "UNKNOWN" and those of no region as "Unknown". */
  lemma LabelsMean(claims: seq<Claim>, l: string)
    ensures HoldsClaims(Shown(GroupBy(claims, TokenOf), l),
                        Select(claims, (c: Claim) => c.token == Some(l) || (c.token == None && l == "UNKNOWN")))
    ensures HoldsClaims(Shown(GroupBy(claims, RegionOf), l),
                        Select(claims, (c: Claim) => c.region == Some(l) || (c.region == None && l == "Unknown")))
    ensures HoldsClaims(Shown(GroupBy(claims, DayOf), l), Select(claims, (c: Claim) => c.day == l))
    ensures l in Recipients(claims) <==> exists c :: c in claims && c.recipient == l
  {
    BucketsExactly(claims, TokenOf, l);
    LabelledIsSelected(claims, TokenOf, l, (c: Claim) => c.token == Some(l) || (c.token == None && l == "UNKNOWN"));
    BucketsExactly(claims, RegionOf, l);
    LabelledIsSelected(claims, RegionOf, l, (c: Claim) => c.region == Some(l) || (c.region == None && l == "Unknown"));
    BucketsExactly(claims, DayOf, l);
    LabelledIsSelected(claims, DayOf, l, (c: Claim) => c.day == l);
  }

  lemma TotalSnoc(claims: seq<Claim>, c: Claim)
    ensures Total(claims + [c]) == Total(claims) + c.amount
  {
    assert (claims + [c])[..|claims|] == claims;
  }

  // ----- Conservation -------------------------------------------------------------------------

  function SumAmounts(b: Breakdown): real {
    if b == [] then 0.0 else b[0].amount + SumAmounts(b[1..])
  }

  function SumCounts(b: Breakdown): nat {
    if b == [] then 0 else b[0].count + SumCounts(b[1..])
  }

  lemma {:induction false} AddToSums(b: Breakdown, group: string, amount: real)
    ensures SumAmounts(AddTo(b, group, amount)) == SumAmounts(b) + amount
    ensures SumCounts(AddTo(b, group, amount)) == SumCounts(b) + 1
  {
    var r := AddTo(b, group, amount);
    if b == [] {
      assert r[1..] == [];
    } else if b[0].group == group {
      assert r[1..] == b[1..];
    } else {
      AddToSums(b[1..], group, amount);
      assert r[1..] == AddTo(b[1..], group, amount);
    }
  }

  /** Whatever claims are grouped by, each is counted once, and the amounts add up to the total. */
  lemma {:induction false} GroupingConserves(claims: seq<Claim>, group: Claim -> string)
    ensures SumCounts(GroupBy(claims, group)) == |claims|
    ensures SumAmounts(GroupBy(claims, group)) == Total(claims)
  {
    if claims == [] {
    } else {
      var before, last := claims[..|claims| - 1], claims[|claims| - 1];
      GroupingConserves(before, group);
      AddToSums(GroupBy(before, group), group(last), last.amount);
    }
  }

  lemma {:induction false} InsertSums(x: Bucket, b: Breakdown)
    ensures SumAmounts(Insert(x, b, LabelLe)) == x.amount + SumAmounts(b)
    ensures SumCounts(Insert(x, b, LabelLe)) == x.count + SumCounts(b)
  {
    var r := Insert(x, b, LabelLe);
    if b == [] || LabelLe(x, b[0]) {
      assert r[1..] == b;
    } else {
      InsertSums(x, b[1..]);
      assert r[1..] == Insert(x, b[1..], LabelLe);
    }
  }

  lemma {:induction false} SortingConserves(b: Breakdown)
    ensures SumAmounts(Sort(b, LabelLe)) == SumAmounts(b) && SumCounts(Sort(b, LabelLe)) == SumCounts(b)
  {
    if b == [] {
    } else {
      SortingConserves(b[1..]);
      InsertSums(b[0], Sort(b[1..], LabelLe));
    }
  }

  // ----- Rounding -----------------------------------------------------------------------------

  /** Rounding gives the nearest cent, and of two equally near ones the upper. */
  lemma Round2Near(x: real)
    ensures -0.005 < Round2(x) - x <= 0.005 && Round2(x) * 100.0 == (Round2(x) * 100.0).Floor as real
  {
    var y := x * 100.0 + 0.5;
    assert y - 1.0 < y.Floor as real <= y;
  }

  function Half(k: nat): real {
    0.005 * k as real
  }

  /** Rounding label by label moves the sum by half a cent per label at most, and no count. */
  lemma {:induction false} RoundedNear(b: Breakdown)
    ensures -Half(|b|) <= SumAmounts(Rounded(b)) - SumAmounts(b) <= Half(|b|)
    ensures SumCounts(Rounded(b)) == SumCounts(b)
  {
    if b == [] {
    } else {
      RoundedNear(b[1..]);
      Round2Near(b[0].amount);
      assert Rounded(b)[1..] == Rounded(b[1..]);
    }
  }

  /** A shown breakdown of k labels counts every claim once and adds up to the shown total, but for
      half a cent for each label and one for the total. */
  ghost predicate AddsUp(b: Breakdown, total: real, claims: nat) {
    && SumCounts(b) == claims
    && -(0.005 * (|b| + 1) as real) <= SumAmounts(b) - total <= 0.005 * (|b| + 1) as real
  }

  lemma RoundedAddsUp(b: Breakdown, claims: seq<Claim>)
    requires SumCounts(b) == |claims| && SumAmounts(b) == Total(claims)
    ensures AddsUp(Rounded(b), Round2(Total(claims)), |claims|)
  {
    RoundedNear(b);
    Round2Near(Total(claims));
  }

  /** All three breakdowns of the dashboard add up, and the time series is in order of days. */
  lemma BreakdownsAddUp(claims: seq<Claim>)
    ensures var total := Round2(Total(claims));
            && AddsUp(Rounded(GroupBy(claims, TokenOf)), total, |claims|)
            && AddsUp(Rounded(GroupBy(claims, RegionOf)), total, |claims|)
            && AddsUp(Rounded(Sort(GroupBy(claims, DayOf), LabelLe)), total, |claims|)
    ensures SortedBy(Rounded(Sort(GroupBy(claims, DayOf), LabelLe)), LabelLe)
  {
    GroupingConserves(claims, TokenOf);
    GroupingConserves(claims, RegionOf);
    GroupingConserves(claims, DayOf);
    SortingConserves(GroupBy(claims, DayOf));
    RoundedAddsUp(GroupBy(claims, TokenOf), claims);
    RoundedAddsUp(GroupBy(claims, RegionOf), claims);
    RoundedAddsUp(Sort(GroupBy(claims, DayOf), LabelLe), claims);
    LabelOrder();
    SortSorts(GroupBy(claims, DayOf), LabelLe);
    RoundedSorted(Sort(GroupBy(claims, DayOf), LabelLe));
  }

  lemma RoundedSorted(b: Breakdown)
    requires SortedBy(b, LabelLe)
    ensures SortedBy(Rounded(b), LabelLe)
  {
    forall i, j | 0 <= i < j < |b| ensures LabelLe(Rounded(b)[i], Rounded(b)[j]) {
      assert LabelLe(b[i], b[j]);
    }
  }

  lemma LabelOrder()
    ensures TotalOrder(LabelLe)
  {
    TextLeOrder();
    forall x: Bucket, y: Bucket ensures LabelLe(x, y) || LabelLe(y, x) {
      assert TextLe(x.group, y.group) || TextLe(y.group, x.group);
    }
    forall x: Bucket, y: Bucket, z: Bucket | LabelLe(x, y) && LabelLe(y, z) ensures LabelLe(x, z) {
      assert TextLe(x.group, y.group) && TextLe(y.group, z.group);
    }
  }
}
