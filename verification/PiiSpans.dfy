/** Selecting, masking and previewing detected spans (app/ai-service/services/pii_scrubber.py).
    Detection itself is not part of this model: spans are arbitrary ranges of the text. */
module PiiSpans {
  import opened Basics
  import opened Sorting

  datatype Label = Person | Location | Date | Email | Phone | Id

  /** The text of a span is the stretch of the input that it covers. */
  datatype Span = Span(start: nat, end: nat, kind: Label)

  predicate InText(s: Span, text: string) {
    s.start <= s.end <= |text|
  }

  ghost predicate AllInText(spans: seq<Span>, text: string) {
    forall s :: s in spans ==> InText(s, text)
  }

  // ----- Selection ------------------------------------------------------------------------

  const ALLOWLIST: set<string> :=
    {"Soter", "Pulsefy", "Stellar", "Humanitarian", "Coordinator", "Manager", "Project", "Water", "Clear",
     "Crystal", "HTTP"}

  /** What Python's `str.split` breaks at. */
  predicate IsSpace(c: char) {
    var n := c as int;
    9 <= n <= 13 || 28 <= n <= 32 || n == 0x85 || n == 0xA0 || n == 0x1680 || 0x2000 <= n <= 0x200A ||
    n == 0x2028 || n == 0x2029 || n == 0x202F || n == 0x205F || n == 0x3000
  }

  /** The words of a text; `gap` tells what separates them, and `word` is the one begun. */
  function Words(gap: char -> bool, text: string, word: string): seq<string> {
    var ended := if word == "" then [] else [word];
    if text == "" then ended
    else if gap(text[0]) then ended + Words(gap, text[1..], "")
    else Words(gap, text[1..], word + [text[0]])
  }

  predicate Allowed(text: string, s: Span)
    requires InText(s, text)
  {
    exists w :: w in Words(IsSpace, text[s.start..s.end], "") && w in ALLOWLIST
  }

  /** Candidates for masking; a span outside the text is none. */
  predicate Candidate(text: string, s: Span) {
    InText(s, text) && !Allowed(text, s)
  }

  /** Earliest first; at one start the longest first; of equal ranges an email first. */
  predicate Precedes(a: Span, b: Span) {
    a.start < b.start ||
    (a.start == b.start && (a.end > b.end || (a.end == b.end && (a.kind == Email || b.kind != Email))))
  }

  lemma PrecedesOrder()
    ensures TotalOrder(Precedes)
  {
  }

  // ----- What is allowlisted --------------------------------------------------------------

  /** A stretch of the text from `from` to `to` that has no space in it, and on each side of it a
      space or the end. */
  ghost predicate Stretch(gap: char -> bool, text: string, from: nat, to: nat, i: nat, j: nat) {
    && from <= i < j <= to <= |text|
    && (forall k :: i <= k < j ==> !gap(text[k]))
    && (i == from || gap(text[i - 1]))
    && (j == to || gap(text[j]))
  }

  /** Some word of the span is allowlisted. */
  ghost predicate Listed(text: string, s: Span) {
    exists i: nat, j: nat :: Stretch(IsSpace, text, s.start, s.end, i, j) && text[i..j] in ALLOWLIST
  }

  ghost predicate WordIn(gap: char -> bool, text: string, from: nat, to: nat, w: string) {
    exists i: nat, j: nat :: Stretch(gap, text, from, to, i, j) && text[i..j] == w
  }

  ghost predicate HasWord(gap: char -> bool, text: string, w: string) {
    WordIn(gap, text, 0, |text|, w)
  }

  ghost predicate Gapless(gap: char -> bool, word: string) {
    forall k :: 0 <= k < |word| ==> !gap(word[k])
  }

  lemma GaplessStretch(gap: char -> bool, word: string, i: nat, j: nat)
    requires Gapless(gap, word)
    ensures Stretch(gap, word, 0, |word|, i, j) <==> i == 0 && j == |word| && word != ""
  {
  }

  lemma WholeWord(gap: char -> bool, word: string, w: string)
    requires Gapless(gap, word)
    ensures HasWord(gap, word, w) <==> w == word && word != ""
  {
    assert word[0..|word|] == word;
    GaplessStretch(gap, word, 0, |word|);
    if i: nat, j: nat :| Stretch(gap, word, 0, |word|, i, j) && word[i..j] == w {
      GaplessStretch(gap, word, i, j);
    }
  }

  lemma StretchMoves(gap: char -> bool, all: string, part: string, n: nat, i: nat, j: nat)
    requires n + |part| <= |all| && part == all[n..n + |part|]
    ensures Stretch(gap, all, n, n + |part|, n + i, n + j) <==> Stretch(gap, part, 0, |part|, i, j)
    ensures i <= j <= |part| ==> all[n + i..n + j] == part[i..j]
  {
    if i < j <= |part| {
      assert forall k :: i <= k < j ==> part[k] == all[n + k];
      assert forall k :: n + i <= k < n + j ==> all[k] == part[k - n];
      assert i > 0 ==> part[i - 1] == all[n + i - 1];
      assert j < |part| ==> part[j] == all[n + j];
    }
  }

  lemma WordMoves(gap: char -> bool, all: string, part: string, n: nat, w: string)
    requires n + |part| <= |all| && part == all[n..n + |part|]
    ensures WordIn(gap, all, n, n + |part|, w) <==> HasWord(gap, part, w)
  {
    if i: nat, j: nat :| Stretch(gap, part, 0, |part|, i, j) && part[i..j] == w {
      StretchMoves(gap, all, part, n, i, j);
    }
    if i: nat, j: nat :| Stretch(gap, all, n, n + |part|, i, j) && all[i..j] == w {
      StretchMoves(gap, all, part, n, i - n, j - n);
    }
  }

  /** A space cuts the stretches of a text into those before and those behind it. */
  lemma GapCuts(gap: char -> bool, all: string, m: nat, i: nat, j: nat)
    requires m < |all| && gap(all[m])
    ensures Stretch(gap, all, 0, |all|, i, j) <==>
            Stretch(gap, all, 0, m, i, j) || Stretch(gap, all, m + 1, |all|, i, j)
  {
  }

  lemma WordCut(gap: char -> bool, all: string, m: nat, w: string)
    requires m < |all| && gap(all[m])
    ensures HasWord(gap, all, w) <==> WordIn(gap, all, 0, m, w) || WordIn(gap, all, m + 1, |all|, w)
  {
    if i: nat, j: nat :| Stretch(gap, all, 0, |all|, i, j) && all[i..j] == w {
      GapCuts(gap, all, m, i, j);
    }
    if i: nat, j: nat :| Stretch(gap, all, 0, m, i, j) && all[i..j] == w {
      GapCuts(gap, all, m, i, j);
    }
    if i: nat, j: nat :| Stretch(gap, all, m + 1, |all|, i, j) && all[i..j] == w {
      GapCuts(gap, all, m, i, j);
    }
  }

  lemma WordsAfterGap(gap: char -> bool, word: string, c: char, rest: string, w: string)
    requires Gapless(gap, word) && gap(c)
    ensures HasWord(gap, word + ([c] + rest), w) <==> (w == word && word != "") || HasWord(gap, rest, w)
  {
    var all, m := word + ([c] + rest), |word|;
    assert all[m] == c;
    WordCut(gap, all, m, w);
    WholeWord(gap, word, w);
    WordMoves(gap, all, word, 0, w);
    WordMoves(gap, all, rest, m + 1, w);
  }

  lemma {:induction false} WordsExactly(gap: char -> bool, text: string, word: string, w: string)
    requires Gapless(gap, word)
    ensures w in Words(gap, text, word) <==> HasWord(gap, word + text, w)
    decreases |text|
  {
    if text == "" {
      assert word + text == word;
      WholeWord(gap, word, w);
    } else {
      var c, rest := text[0], text[1..];
      assert text == [c] + rest;
      if gap(c) {
        WordsAfterGap(gap, word, c, rest, w);
        WordsExactly(gap, rest, "", w);
        assert "" + rest == rest;
      } else {
        WordsExactly(gap, rest, word + [c], w);
        Regroup(word, [c], rest);
      }
    }
  }

  lemma WordsOfStretch(gap: char -> bool, text: string, from: nat, to: nat, w: string)
    requires from <= to <= |text|
    ensures w in Words(gap, text[from..to], "") <==> WordIn(gap, text, from, to, w)
  {
    var own := text[from..to];
    assert "" + own == own;
    WordsExactly(gap, own, "", w);
    WordMoves(gap, text, own, from, w);
  }

  lemma AnyWordListed(gap: char -> bool, list: set<string>, text: string, from: nat, to: nat)
    requires from <= to <= |text|
    ensures (exists w :: w in Words(gap, text[from..to], "") && w in list) <==>
            (exists i: nat, j: nat :: Stretch(gap, text, from, to, i, j) && text[i..j] in list)
  {
    if w :| w in Words(gap, text[from..to], "") && w in list {
      WordsOfStretch(gap, text, from, to, w);
    }
    if i: nat, j: nat :| Stretch(gap, text, from, to, i, j) && text[i..j] in list {
      WordsOfStretch(gap, text, from, to, text[i..j]);
    }
  }

  /** A detected span that is to be masked: it lies in the text and no word of it is allowlisted. */
  ghost predicate Maskable(text: string, s: Span) {
    s.start <= s.end <= |text| && !Listed(text, s)
  }

  /** The words that are looked up are the stretches of the span without spaces, each as long as can be. */
  lemma AllowlistedExactly(text: string, s: Span)
    ensures Candidate(text, s) <==> Maskable(text, s)
  {
    if InText(s, text) {
      AnyWordListed(IsSpace, ALLOWLIST, text, s.start, s.end);
    }
  }

  function Candidates(text: string, spans: seq<Span>): seq<Span> {
    Select(spans, (s: Span) => Candidate(text, s))
  }

  function Greedy(sorted: seq<Span>, currentEnd: int): seq<Span> {
    if sorted == [] then []
    else if sorted[0].start < currentEnd then Greedy(sorted[1..], currentEnd)
    else [sorted[0]] + Greedy(sorted[1..], sorted[0].end)
  }

  function Selected(text: string, spans: seq<Span>): seq<Span> {
    Greedy(Sort(Candidates(text, spans), Precedes), -1)
  }

  method DedupeAndSort(text: string, spans: seq<Span>) returns (filtered: seq<Span>)
    requires AllInText(spans, text)
    ensures filtered == Selected(text, spans)
  {
    var sorted := Sort(Candidates(text, spans), Precedes);
    filtered := [];
    var currentEnd: int := -1;
    for i := 0 to |sorted|
      invariant filtered + Greedy(sorted[i..], currentEnd) == Greedy(sorted, -1)
    {
      assert sorted[i..][1..] == sorted[i + 1..];
      if sorted[i].start >= currentEnd {
        Regroup(filtered, [sorted[i]], Greedy(sorted[i + 1..], sorted[i].end));
        filtered := filtered + [sorted[i]];
        currentEnd := sorted[i].end;
      }
    }
  }

  /** Spans in order, none overlapping the next, between `from` and `to`. */
  predicate Placed(spans: seq<Span>, from: int, to: int) {
    if spans == [] then from <= to
    else from <= spans[0].start <= spans[0].end && Placed(spans[1..], spans[0].end, to)
  }

  lemma {:induction false} GreedyPlaced(sorted: seq<Span>, currentEnd: int, to: nat)
    requires SortedBy(sorted, Precedes) && currentEnd <= to
    requires forall s :: s in sorted ==> s.start <= s.end <= to
    ensures Placed(Greedy(sorted, currentEnd), currentEnd, to)
    ensures multiset(Greedy(sorted, currentEnd)) <= multiset(sorted)
  {
    if sorted == [] {
    } else {
      var s := sorted[0];
      assert s in sorted && forall t :: t in sorted[1..] ==> t in sorted;
      assert sorted == [s] + sorted[1..];
      var e := if s.start < currentEnd then currentEnd else s.end;
      GreedyPlaced(sorted[1..], e, to);
    }
  }

  /** A span that was not taken starts inside one that was taken, and that comes before it. */
  lemma {:induction false} GreedyMisses(sorted: seq<Span>, currentEnd: int, s: Span)
    requires SortedBy(sorted, Precedes) && s in sorted && s.start >= currentEnd
    requires s !in Greedy(sorted, currentEnd)
    ensures exists k :: k in Greedy(sorted, currentEnd) && Precedes(k, s) && k.start <= s.start < k.end
  {
    var first, taken := sorted[0], Greedy(sorted, currentEnd);
    if first.start < currentEnd {
      GreedyMisses(sorted[1..], currentEnd, s);
    } else {
      assert first in taken;
      FirstIsLeast(sorted, Precedes, s) by { PrecedesOrder(); }
      if s.start >= first.end {
        GreedyMisses(sorted[1..], first.end, s);
        var k :| k in Greedy(sorted[1..], first.end) && Precedes(k, s) && k.start <= s.start < k.end;
        assert k in taken;
      }
    }
  }

  lemma SortedCandidates(text: string, spans: seq<Span>)
    ensures var sorted := Sort(Candidates(text, spans), Precedes);
            && SortedBy(sorted, Precedes)
            && forall s :: s in sorted <==> s in spans && Candidate(text, s)
  {
    PrecedesOrder();
    SortSorts(Candidates(text, spans), Precedes);
    var sorted := Sort(Candidates(text, spans), Precedes);
    forall s ensures s in sorted <==> s in spans && Candidate(text, s) {
      SameMembers(sorted, Candidates(text, spans), s);
      SelectMember(spans, (t: Span) => Candidate(text, t), s);
    }
  }

  /** The selection is in order and disjoint, and drawn from the spans that are to be masked. */
  lemma SelectionPlaced(text: string, spans: seq<Span>)
    ensures Placed(Selected(text, spans), 0, |text|)
    ensures forall s :: s in Selected(text, spans) ==> s in spans && Maskable(text, s)
  {
    var sorted := Sort(Candidates(text, spans), Precedes);
    SortedCandidates(text, spans);
    GreedyPlaced(sorted, -1, |text|);
    forall s | s in Selected(text, spans) ensures s in spans && Maskable(text, s) {
      assert s in multiset(Selected(text, spans));
      assert s in sorted;
      AllowlistedExactly(text, s);
    }
    assert Selected(text, spans) != [] ==> Selected(text, spans)[0].start >= 0;
  }

  /** Coverage: every detected span that is to be masked is kept, or starts inside a kept one. If both
      start at one place, the kept one is at least as long, and an email if the other is one and of the
      same length. */
  lemma DiscardedStartsInsideKept(text: string, spans: seq<Span>, s: Span)
    requires s in spans && Maskable(text, s) && s !in Selected(text, spans)
    ensures exists k :: k in Selected(text, spans) && k.start <= s.start < k.end &&
              (k.start == s.start ==> s.end <= k.end && (s.end == k.end && s.kind == Email ==> k.kind == Email))
  {
    SortedCandidates(text, spans);
    AllowlistedExactly(text, s);
    GreedyMisses(Sort(Candidates(text, spans), Precedes), -1, s);
    var k :| k in Greedy(Sort(Candidates(text, spans), Precedes), -1) && Precedes(k, s) && k.start <= s.start < k.end;
    assert k in Selected(text, spans);
  }

  predicate Inside(s: Span, k: Span) {
    k.start <= s.start && s.end <= k.end
  }

  /** `b` starts properly within `a` and ends after it. */
  predicate Crosses(a: Span, b: Span) {
    a.start < b.start < a.end < b.end
  }

  lemma {:induction false} PlacedApart(spans: seq<Span>, from: int, to: int, a: Span, b: Span)
    requires Placed(spans, from, to) && a in spans && b in spans && a != b
    ensures a.end <= b.start || b.end <= a.start
  {
    PlacedAfter(spans[1..], spans[0].end, to);
    if a != spans[0] && b != spans[0] {
      PlacedApart(spans[1..], spans[0].end, to, a, b);
    }
  }

  lemma {:induction false} PlacedAfter(spans: seq<Span>, from: int, to: int)
    requires Placed(spans, from, to)
    ensures from <= to
    ensures forall s :: s in spans ==> from <= s.start <= s.end <= to
  {
    if spans == [] {
    } else {
      PlacedAfter(spans[1..], spans[0].end, to);
      assert forall s :: s in spans ==> s == spans[0] || s in spans[1..];
    }
  }

  /** A span that is to be masked lies wholly inside a kept one exactly when it crosses none. */
  lemma WhollyMaskedExactly(text: string, spans: seq<Span>, s: Span)
    requires s in spans && Maskable(text, s)
    ensures (exists k :: k in Selected(text, spans) && Inside(s, k)) <==>
            (forall k :: k in Selected(text, spans) ==> !Crosses(k, s))
  {
    var kept := Selected(text, spans);
    SelectionPlaced(text, spans);
    if k, c :| k in kept && Inside(s, k) && c in kept && Crosses(c, s) {
      PlacedAfter(kept, 0, |text|);
      PlacedApart(kept, 0, |text|, k, c);
    }
    if s in kept {
      assert Inside(s, s);
    } else {
      DiscardedStartsInsideKept(text, spans, s);
      var k :| k in kept && k.start <= s.start < k.end && (k.start == s.start ==> s.end <= k.end);
      assert Crosses(k, s) || Inside(s, k);
    }
  }

  // ----- Masking --------------------------------------------------------------------------

  function TokenBase(kind: Label): string {
    match kind
    case Person => "RECIPIENT_NAME"
    case Location => "LOCATION"
    case Date => "EVENT_DATE"
    case Email => "EMAIL_ADDRESS"
    case Phone => "PHONE_NUMBER"
    case Id => "ID_NUMBER"
  }

  function Token(base: string): string {
    "[" + base + "]"
  }

  function TokenOf(kind: Label): string {
    Token(TokenBase(kind))
  }

  lemma TokensDiffer(a: Label, b: Label)
    ensures TokenOf(a) == TokenOf(b) ==> a == b
  {
    var length := (kind: Label) =>
      match kind case Person => 16 case Location => 10 case Date => 12 case Email => 15 case Phone => 14 case Id => 11;
    assert |TokenOf(a)| == length(a) && |TokenOf(b)| == length(b);
  }

  function Masked(text: string, spans: seq<Span>, cursor: nat): string
    requires Placed(spans, cursor, |text|)
  {
    PlacedAfter(spans, cursor, |text|);
    if spans == [] then text[cursor..]
    else
      assert spans[0] in spans;
      text[cursor..spans[0].start] + (TokenOf(spans[0].kind) + Masked(text, spans[1..], spans[0].end))
  }

  function Joined(chunks: seq<string>): string {
    if chunks == [] then "" else Joined(chunks[..|chunks| - 1]) + chunks[|chunks| - 1]
  }

  lemma JoinedSnoc(chunks: seq<string>, chunk: string)
    ensures Joined(chunks + [chunk]) == Joined(chunks) + chunk
  {
    assert (chunks + [chunk])[..|chunks|] == chunks;
  }

  type Counts = map<string, nat>

  function CountOf(counts: Counts, token: string): nat {
    if token in counts then counts[token] else 0
  }

  function TokenCounts(spans: seq<Span>): Counts {
    if spans == [] then map[]
    else
      var before := TokenCounts(spans[..|spans| - 1]);
      var token := TokenOf(spans[|spans| - 1].kind);
      before[token := CountOf(before, token) + 1]
  }

  lemma MaskStep(text: string, chunks: seq<string>, rest: seq<Span>, cursor: nat)
    requires rest != [] && Placed(rest, cursor, |text|)
    ensures cursor <= rest[0].start <= |text|
    ensures Placed(rest[1..], rest[0].end, |text|)
    ensures Joined(chunks + [text[cursor..rest[0].start]] + [TokenOf(rest[0].kind)]) +
            Masked(text, rest[1..], rest[0].end) == Joined(chunks) + Masked(text, rest, cursor)
  {
    PlacedAfter(rest, cursor, |text|);
    assert rest[0] in rest;
    var plain, token, after := text[cursor..rest[0].start], TokenOf(rest[0].kind), Masked(text, rest[1..], rest[0].end);
    JoinedSnoc(chunks, plain);
    JoinedSnoc(chunks + [plain], token);
    Regroup(Joined(chunks), plain, token + after);
    Regroup(Joined(chunks) + plain, token, after);
  }

  /** The chunks up to span `i` followed by the masked rest are the masked text. */
  ghost predicate MaskedUpTo(text: string, spans: seq<Span>, i: nat, chunks: seq<string>, cursor: nat) {
    && i <= |spans| && Placed(spans[i..], cursor, |text|) && Placed(spans, 0, |text|)
    && Joined(chunks) + Masked(text, spans[i..], cursor) == Masked(text, spans, 0)
  }

  lemma NextFits(text: string, spans: seq<Span>, i: nat, chunks: seq<string>, cursor: nat)
    requires MaskedUpTo(text, spans, i, chunks, cursor) && i < |spans|
    ensures cursor <= spans[i].start <= |text|
  {
    assert spans[i..][0] == spans[i];
    PlacedAfter(spans[i..], cursor, |text|);
  }

  lemma MaskedNext(text: string, spans: seq<Span>, i: nat, chunks: seq<string>, cursor: nat, longer: seq<string>)
    requires MaskedUpTo(text, spans, i, chunks, cursor) && i < |spans| && cursor <= spans[i].start <= |text|
    requires longer == chunks + [text[cursor..spans[i].start]] + [TokenOf(spans[i].kind)]
    ensures MaskedUpTo(text, spans, i + 1, longer, spans[i].end)
  {
    assert spans[i..][0] == spans[i] && spans[i..][1..] == spans[i + 1..];
    MaskStep(text, chunks, spans[i..], cursor);
  }

  lemma MaskedDone(text: string, spans: seq<Span>, chunks: seq<string>, cursor: nat)
    requires MaskedUpTo(text, spans, |spans|, chunks, cursor)
    ensures cursor <= |text| && Joined(chunks + [text[cursor..]]) == Masked(text, spans, 0)
  {
    PlacedAfter(spans[|spans|..], cursor, |text|);
    JoinedSnoc(chunks, text[cursor..]);
  }

  lemma CountsNext(spans: seq<Span>, i: nat)
    requires i < |spans|
    ensures var before, token := TokenCounts(spans[..i]), TokenOf(spans[i].kind);
            TokenCounts(spans[..i + 1]) == before[token := CountOf(before, token) + 1]
  {
    assert spans[..i + 1][..i] == spans[..i];
  }

  /** One turn of the loop: the text up to the span, and its token, which is counted. */
  method MaskOne(text: string, spans: seq<Span>, i: nat, chunks: seq<string>, cursor: nat, counts: Counts)
    returns (longer: seq<string>, counted: Counts)
    requires i < |spans| && MaskedUpTo(text, spans, i, chunks, cursor) && counts == TokenCounts(spans[..i])
    ensures MaskedUpTo(text, spans, i + 1, longer, spans[i].end)
    ensures counted == TokenCounts(spans[..i + 1])
  {
    NextFits(text, spans, i, chunks, cursor);
    var token := TokenOf(spans[i].kind);
    longer := chunks + [text[cursor..spans[i].start]] + [token];
    counted := counts[token := CountOf(counts, token) + 1];
    MaskedNext(text, spans, i, chunks, cursor, longer);
    CountsNext(spans, i);
  }

  method MaskSpans(text: string, spans: seq<Span>) returns (masked: string, tokenCounts: Counts)
    requires Placed(spans, 0, |text|)
    ensures masked == Masked(text, spans, 0)
    ensures tokenCounts == TokenCounts(spans)
  {
    if spans == [] {
      return text, map[];
    }
    var chunks: seq<string> := [];
    var cursor: nat := 0;
    tokenCounts := map[];
    assert spans[0..] == spans;
    for i := 0 to |spans|
      invariant MaskedUpTo(text, spans, i, chunks, cursor)
      invariant tokenCounts == TokenCounts(spans[..i])
    {
      chunks, tokenCounts := MaskOne(text, spans, i, chunks, cursor, tokenCounts);
      cursor := spans[i].end;
    }
    assert spans[..|spans|] == spans;
    MaskedDone(text, spans, chunks, cursor);
    masked := Joined(chunks + [text[cursor..]]);
  }

  /** One masked span: the text around it stays, and the token in its place names its label. */
  lemma OneSpanMasked(text: string, s: Span)
    requires s.start <= s.end <= |text|
    ensures Placed([s], 0, |text|)
    ensures var base := match s.kind
              case Person => "RECIPIENT_NAME"
              case Location => "LOCATION"
              case Date => "EVENT_DATE"
              case Email => "EMAIL_ADDRESS"
              case Phone => "PHONE_NUMBER"
              case Id => "ID_NUMBER";
            Masked(text, [s], 0) == text[..s.start] + (("[" + base + "]") + text[s.end..])
  {
    OneMasked(text, s, TokenOf(s.kind));
  }

  lemma OneMasked(text: string, s: Span, token: string)
    requires s.start <= s.end <= |text| && token == TokenOf(s.kind)
    ensures Placed([s], 0, |text|)
    ensures Masked(text, [s], 0) == text[..s.start] + (token + text[s.end..])
  {
    var rest := [s][1..];
    assert rest == [] && Placed(rest, s.end, |text|) && Masked(text, rest, s.end) == text[s.end..];
    assert text[0..s.start] == text[..s.start];
  }

  function CountKind(spans: seq<Span>, kind: Label): nat {
    if spans == [] then 0
    else CountKind(spans[..|spans| - 1], kind) + (if spans[|spans| - 1].kind == kind then 1 else 0)
  }

  /** The token counts are the numbers of spans label by label, and there are no other tokens. */
  lemma {:induction false} TokenCountsExactly(spans: seq<Span>, kind: Label)
    ensures CountOf(TokenCounts(spans), TokenOf(kind)) == CountKind(spans, kind)
    ensures TokenOf(kind) in TokenCounts(spans) <==> CountKind(spans, kind) > 0
    ensures forall t :: t in TokenCounts(spans) ==> exists l :: t == TokenOf(l)
  {
    if spans == [] {
    } else {
      TokenCountsExactly(spans[..|spans| - 1], kind);
      TokensDiffer(kind, spans[|spans| - 1].kind);
    }
  }

  /** And they add up to the number of spans, as the totals of the summary do. */
  lemma {:induction false} CountsAddUp(spans: seq<Span>)
    ensures CountKind(spans, Person) + CountKind(spans, Location) + CountKind(spans, Date) +
            CountKind(spans, Email) + CountKind(spans, Phone) + CountKind(spans, Id) == |spans|
  {
    if spans == [] {
    } else {
      CountsAddUp(spans[..|spans| - 1]);
    }
  }

  // ----- Preview --------------------------------------------------------------------------

  datatype Segment =
    | Kept(start: nat, end: nat)
    | Redacted(start: nat, end: nat, category: string)

  function Segments(spans: seq<Span>, cursor: nat, length: nat): seq<Segment> {
    if spans == [] then (if cursor < length then [Kept(cursor, length)] else [])
    else
      var s := spans[0];
      (if s.start > cursor then [Kept(cursor, s.start)] else []) +
      ([Redacted(s.start, s.end, TokenBase(s.kind))] + Segments(spans[1..], s.end, length))
  }

  method BuildPreviewSegments(text: string, spans: seq<Span>) returns (segments: seq<Segment>)
    ensures segments == Segments(spans, 0, |text|)
  {
    segments := [];
    var cursor: nat := 0;
    for i := 0 to |spans|
      invariant segments + Segments(spans[i..], cursor, |text|) == Segments(spans, 0, |text|)
    {
      var s := spans[i];
      assert spans[i..][0] == s && spans[i..][1..] == spans[i + 1..];
      var redacted := [Redacted(s.start, s.end, TokenBase(s.kind))];
      var kept := if s.start > cursor then [Kept(cursor, s.start)] else [];
      ghost var rest := Segments(spans[i + 1..], s.end, |text|);
      Regroup(segments, kept, redacted + rest);
      Regroup(segments + kept, redacted, rest);
      segments := segments + kept + redacted;
      cursor := s.end;
    }
    if cursor < |text| {
      segments := segments + [Kept(cursor, |text|)];
    }
  }

  /** Each segment begins where the one before it ends, from `from` to `to`, and no kept one is empty. */
  predicate Tiles(segments: seq<Segment>, from: nat, to: nat) {
    if segments == [] then from == to
    else
      && segments[0].start == from && from <= segments[0].end
      && (segments[0].Kept? ==> from < segments[0].end)
      && Tiles(segments[1..], segments[0].end, to)
  }

  lemma {:induction false} TilesAfter(segments: seq<Segment>, from: nat, to: nat)
    requires Tiles(segments, from, to)
    ensures from <= to
    ensures segments != [] ==> segments[0].end <= to
  {
    if segments == [] {
    } else {
      TilesAfter(segments[1..], segments[0].end, to);
    }
  }

  /** The preview covers the whole text once. */
  lemma {:induction false} SegmentsTile(spans: seq<Span>, cursor: nat, length: nat)
    requires Placed(spans, cursor, length)
    ensures Tiles(Segments(spans, cursor, length), cursor, length)
  {
    if spans == [] {
    } else {
      var s, rest := spans[0], Segments(spans[1..], spans[0].end, length);
      SegmentsTile(spans[1..], s.end, length);
      var redacted := [Redacted(s.start, s.end, TokenBase(s.kind))] + rest;
      assert redacted[1..] == rest;
      assert Tiles(redacted, s.start, length);
      if s.start > cursor {
        var segments := [Kept(cursor, s.start)] + redacted;
        assert segments[1..] == redacted;
        assert Segments(spans, cursor, length) == segments;
      } else {
        assert Segments(spans, cursor, length) == redacted;
      }
    }
  }

  /** What a reader of the preview reconstructs: kept stretches as they are, tokens for the others. */
  function Rendered(text: string, segments: seq<Segment>, from: nat): string
    requires Tiles(segments, from, |text|)
  {
    TilesAfter(segments, from, |text|);
    if segments == [] then ""
    else
      (if segments[0].Kept? then text[segments[0].start..segments[0].end] else Token(segments[0].category)) +
      Rendered(text, segments[1..], segments[0].end)
  }

  /** The two renderings agree: filling in the preview's tokens gives the masked text. */
  lemma {:induction false} PreviewShowsMask(text: string, spans: seq<Span>, cursor: nat)
    requires Placed(spans, cursor, |text|)
    ensures Tiles(Segments(spans, cursor, |text|), cursor, |text|)
    ensures Rendered(text, Segments(spans, cursor, |text|), cursor) == Masked(text, spans, cursor)
  {
    SegmentsTile(spans, cursor, |text|);
    if spans == [] {
      PlacedAfter(spans, cursor, |text|);
      if cursor < |text| {
        assert Segments(spans, cursor, |text|)[1..] == [];
        assert text[cursor..|text|] == text[cursor..];
      }
    } else {
      var s, rest := spans[0], Segments(spans[1..], spans[0].end, |text|);
      PreviewShowsMask(text, spans[1..], s.end);
      var redacted := [Redacted(s.start, s.end, TokenBase(s.kind))] + rest;
      assert redacted[1..] == rest;
      assert Rendered(text, redacted, s.start) == TokenOf(s.kind) + Masked(text, spans[1..], s.end);
      if s.start > cursor {
        var segments := [Kept(cursor, s.start)] + redacted;
        assert segments[1..] == redacted;
        assert Segments(spans, cursor, |text|) == segments;
      } else {
        assert Segments(spans, cursor, |text|) == redacted;
        assert s.start == cursor && s in spans;
        PlacedAfter(spans, cursor, |text|);
        assert text[cursor..s.start] == "";
      }
    }
  }

  function RedactedOnly(segments: seq<Segment>): seq<Segment> {
    if segments == [] then []
    else (if segments[0].Redacted? then [segments[0]] else []) + RedactedOnly(segments[1..])
  }

  /** The redacted segments are the spans, one by one. */
  lemma {:induction false} RedactedAreSpans(spans: seq<Span>, cursor: nat, length: nat)
    ensures var r := RedactedOnly(Segments(spans, cursor, length));
            && |r| == |spans|
            && forall i :: 0 <= i < |r| ==> r[i] == Redacted(spans[i].start, spans[i].end, TokenBase(spans[i].kind))
  {
    if spans == [] {
    } else {
      var s, rest := spans[0], Segments(spans[1..], spans[0].end, length);
      RedactedAreSpans(spans[1..], s.end, length);
      var redacted := [Redacted(s.start, s.end, TokenBase(s.kind))] + rest;
      assert redacted[1..] == rest;
      if s.start > cursor {
        var segments := [Kept(cursor, s.start)] + redacted;
        assert segments[1..] == redacted;
        assert Segments(spans, cursor, length) == segments;
      } else {
        assert Segments(spans, cursor, length) == redacted;
      }
    }
  }

  /** From detection to both renderings, for any spans at all. */
  lemma PreviewAndMaskAgree(text: string, spans: seq<Span>)
    ensures var kept := Selected(text, spans);
            && Placed(kept, 0, |text|)
            && Tiles(Segments(kept, 0, |text|), 0, |text|)
            && Rendered(text, Segments(kept, 0, |text|), 0) == Masked(text, kept, 0)
  {
    SelectionPlaced(text, spans);
    PreviewShowsMask(text, Selected(text, spans), 0);
  }
}
