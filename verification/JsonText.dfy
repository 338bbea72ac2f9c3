/** JSON.stringify: the strings of section 7 of RFC 8259 as ECMAScript quotes them, and the
    two-space indented layout. Printing is injective, so equal texts come from equal values. */
module JsonText {
  import opened Basics
  import opened Json

  const QUOTE: Unit := 34
  const BACKSLASH: Unit := 92
  const COMMA: Unit := 44
  const NEWLINE: Unit := 10

  // ----- Strings ------------------------------------------------------------------------

  predicate IsHigh(u: Unit) { 0xD800 <= u < 0xDC00 }

  predicate IsLow(u: Unit) { 0xDC00 <= u < 0xE000 }

  function HexDigit(d: nat): Unit
    requires d < 16
  {
    if d < 10 then 48 + d else 87 + d
  }

  function UnicodeEscape(u: Unit): Text {
    [BACKSLASH, 117, HexDigit(u / 4096), HexDigit(u / 256 % 16), HexDigit(u / 16 % 16), HexDigit(u % 16)]
  }

  /** One code unit that is not half of a surrogate pair. */
  function EscapeUnit(u: Unit): (r: Text)
    ensures r != []
  {
    if u == 34 then [BACKSLASH, 34]
    else if u == 92 then [BACKSLASH, 92]
    else if u == 8 then [BACKSLASH, 98]
    else if u == 12 then [BACKSLASH, 102]
    else if u == 10 then [BACKSLASH, 110]
    else if u == 13 then [BACKSLASH, 114]
    else if u == 9 then [BACKSLASH, 116]
    else if u < 32 || IsHigh(u) || IsLow(u) then UnicodeEscape(u)
    else [u]
  }

  predicate StartsPair(s: Text) {
    |s| >= 2 && IsHigh(s[0]) && IsLow(s[1])
  }

  function Escape(s: Text): Text {
    if s == [] then []
    else if StartsPair(s) then [s[0], s[1]] + Escape(s[2..])
    else EscapeUnit(s[0]) + Escape(s[1..])
  }

  function Quoted(s: Text): Text {
    [QUOTE] + Escape(s) + [QUOTE]
  }

  lemma FourDigits(u: Unit)
    ensures u == 4096 * (u / 4096) + 256 * (u / 256 % 16) + 16 * (u / 16 % 16) + u % 16 && u / 4096 < 16
  {
  }

  lemma UnicodeEscapeInjective(u: Unit, w: Unit)
    requires UnicodeEscape(u) == UnicodeEscape(w)
    ensures u == w
  {
    FourDigits(u);
    FourDigits(w);
    var x, y := UnicodeEscape(u), UnicodeEscape(w);
    assert x[2] == y[2] && x[3] == y[3] && x[4] == y[4] && x[5] == y[5];
  }

  /** No escape sequence is the beginning of another. */
  lemma EscapeUnitPrefixFree(u: Unit, w: Unit, x: Text, y: Text)
    requires EscapeUnit(u) + x == EscapeUnit(w) + y
    ensures u == w && x == y
  {
    var a, b := EscapeUnit(u), EscapeUnit(w);
    var s := a + x;
    assert s[0] == a[0] == b[0];
    if a[0] == BACKSLASH {
      assert s[1] == a[1] == b[1];
      assert |a| == |b|;
      assert a == s[..|a|] == b;
      if a[1] == 117 {
        UnicodeEscapeInjective(u, w);
      }
    }
    assert |a| == |b|;
    assert x == s[|a|..] == (b + y)[|b|..] == y;
  }

  lemma EscapeUnitStart(u: Unit)
    ensures EscapeUnit(u)[0] != QUOTE && !IsHigh(EscapeUnit(u)[0])
  {
  }

  /** The text of a string up to its closing quote determines the string. */
  lemma {:induction false} EscapeInjective(s: Text, t: Text, x: Text, y: Text)
    requires Escape(s) + ([QUOTE] + x) == Escape(t) + ([QUOTE] + y)
    ensures s == t && x == y
    decreases |s| + |t|
  {
    var qx, qy := [QUOTE] + x, [QUOTE] + y;
    if s == [] && t == [] {
      assert Escape(s) + qx == qx && Escape(t) + qy == qy;
      assert x == qx[1..] == qy[1..] == y;
    } else if s == [] {
      assert (Escape(s) + qx)[0] == QUOTE;
      StartsOtherwise(t, qy);
    } else if t == [] {
      assert (Escape(t) + qy)[0] == QUOTE;
      StartsOtherwise(s, qx);
    } else if StartsPair(s) != StartsPair(t) {
      PairShows(s, qx);
      PairShows(t, qy);
    } else if StartsPair(s) {
      Regroup([s[0], s[1]], Escape(s[2..]), qx);
      Regroup([t[0], t[1]], Escape(t[2..]), qy);
      SameTail([s[0], s[1]], [t[0], t[1]], Escape(s[2..]) + qx, Escape(t[2..]) + qy);
      EscapeInjective(s[2..], t[2..], x, y);
      assert s == [s[0], s[1]] + s[2..] && t == [t[0], t[1]] + t[2..];
    } else {
      Regroup(EscapeUnit(s[0]), Escape(s[1..]), qx);
      Regroup(EscapeUnit(t[0]), Escape(t[1..]), qy);
      EscapeUnitPrefixFree(s[0], t[0], Escape(s[1..]) + qx, Escape(t[1..]) + qy);
      EscapeInjective(s[1..], t[1..], x, y);
      assert s == [s[0]] + s[1..] && t == [t[0]] + t[1..];
    }
  }

  lemma SameTail(a: Text, b: Text, x: Text, y: Text)
    requires |a| == |b| && a + x == b + y
    ensures a == b && x == y
  {
    var s := a + x;
    assert a == s[..|a|] == (b + y)[..|b|] == b;
    assert x == s[|a|..] == (b + y)[|b|..] == y;
  }

  lemma StartsOtherwise(s: Text, rest: Text)
    requires s != []
    ensures (Escape(s) + rest)[0] != QUOTE
  {
    EscapeUnitStart(s[0]);
    if !StartsPair(s) {
      assert (EscapeUnit(s[0]) + Escape(s[1..]))[0] == EscapeUnit(s[0])[0];
    }
  }

  /** A raw high surrogate at the start shows that a pair was copied through. */
  lemma PairShows(s: Text, rest: Text)
    requires s != []
    ensures IsHigh((Escape(s) + rest)[0]) <==> StartsPair(s)
  {
    EscapeUnitStart(s[0]);
    if !StartsPair(s) {
      assert (EscapeUnit(s[0]) + Escape(s[1..]))[0] == EscapeUnit(s[0])[0];
    }
  }

  lemma QuotedInjective(s: Text, t: Text, x: Text, y: Text)
    requires Quoted(s) + x == Quoted(t) + y
    ensures s == t && x == y
  {
    Regroup([QUOTE] + Escape(s), [QUOTE], x);
    Regroup([QUOTE], Escape(s), [QUOTE] + x);
    Regroup([QUOTE] + Escape(t), [QUOTE], y);
    Regroup([QUOTE], Escape(t), [QUOTE] + y);
    SameTail([QUOTE], [QUOTE], Escape(s) + ([QUOTE] + x), Escape(t) + ([QUOTE] + y));
    EscapeInjective(s, t, x, y);
  }

  // ----- Values -------------------------------------------------------------------------

  function Pad(n: nat): (r: Text)
    ensures |r| == n
  {
    if n == 0 then [] else [32] + Pad(n - 1)
  }

  function Break(indent: nat): Text {
    [NEWLINE] + Pad(indent)
  }

  function Print(v: Value, indent: nat): (r: Text)
    decreases v, 0, 0
  {
    match v
    case Null => [110, 117, 108, 108]
    case Bool(b) => if b then [116, 114, 117, 101] else [102, 97, 108, 115, 101]
    case Num(repr) => repr
    case Infinite(_) => [110, 117, 108, 108]
    case Str(t) => Quoted(t)
    case Arr(items) =>
      if items == [] then [91, 93]
      else [91] + (PrintItems(items, indent + 2) + (Break(indent) + [93]))
    case Obj(ms) =>
      if ms == [] then [123, 125]
      else [123] + (PrintMembers(ms, indent + 2) + (Break(indent) + [125]))
  }

  function PrintItems(items: seq<Value>, indent: nat): Text
    requires items != []
    decreases items, 0, 0
  {
    Break(indent) + (Print(items[0], indent)
      + (if |items| == 1 then [] else [COMMA] + PrintItems(items[1..], indent)))
  }

  function PrintMembers(ms: seq<Member>, indent: nat): Text
    requires ms != []
    decreases ms, 0, 0
  {
    Break(indent) + (Quoted(ms[0].key) + ([58, 32] + (Print(ms[0].value, indent)
      + (if |ms| == 1 then [] else [COMMA] + PrintMembers(ms[1..], indent)))))
  }

  /** A value that the text determines: an infinite number is printed as null. */
  predicate Printable(v: Value)
    decreases v, 0
  {
    match v
    case Num(repr) => IsNumeric(repr)
    case Infinite(_) => false
    case Arr(items) => forall i :: 0 <= i < |items| ==> Printable(items[i])
    case Obj(ms) => forall i :: 0 <= i < |ms| ==> Printable(ms[i].value)
    case _ => true
  }

  /** What may follow a value: nothing, or a unit that cannot continue a number. */
  predicate Stops(s: Text) {
    s == [] || !NumericUnit(s[0])
  }

  function Kind(v: Value): nat {
    match v
    case Null => 0
    case Bool(b) => if b then 1 else 2
    case Num(_) => 3
    case Infinite(_) => 9
    case Str(_) => 4
    case Arr(items) => if items == [] then 5 else 6
    case Obj(ms) => if ms == [] then 7 else 8
  }

  /** The first two units of a printed value tell what kind of value it is. */
  lemma KindShows(v: Value, w: Value, indent: nat, s: Text, t: Text)
    requires Printable(v) && Printable(w) && Print(v, indent) + s == Print(w, indent) + t
    ensures Kind(v) == Kind(w)
  {
    FirstUnits(v, indent, s);
    FirstUnits(w, indent, t);
  }

  lemma FirstUnits(v: Value, indent: nat, s: Text)
    requires Printable(v)
    ensures var r := Print(v, indent) + s;
            && |r| >= 1
            && (match v
                case Null => r[0] == 110
                case Bool(b) => r[0] == if b then 116 else 102
                case Num(_) => IsDigit(r[0]) || r[0] == 45
                case Infinite(_) => r[0] == 110
                case Str(_) => r[0] == 34
                case Arr(items) => r[0] == 91 && |r| >= 2 && (r[1] == if items == [] then 93 else 10)
                case Obj(ms) => r[0] == 123 && |r| >= 2 && (r[1] == if ms == [] then 125 else 10))
  {
    var r := Print(v, indent) + s;
    match v
    case Arr(items) =>
      if items != [] {
        assert PrintItems(items, indent + 2)[0] == 10;
        assert (PrintItems(items, indent + 2) + (Break(indent) + [93]))[0] == 10;
        assert r[1] == 10;
      }
    case Obj(ms) =>
      if ms != [] {
        assert PrintMembers(ms, indent + 2)[0] == 10;
        assert (PrintMembers(ms, indent + 2) + (Break(indent) + [125]))[0] == 10;
        assert r[1] == 10;
      }
    case _ =>
  }

  predicate AllNumeric(a: Text) {
    forall i :: 0 <= i < |a| ==> NumericUnit(a[i])
  }

  function NumberLength(r: Text): nat {
    if r == [] || !NumericUnit(r[0]) then 0 else 1 + NumberLength(r[1..])
  }

  lemma {:induction false} NumberLengthOf(a: Text, s: Text)
    requires AllNumeric(a) && Stops(s)
    ensures NumberLength(a + s) == |a|
  {
    if a == [] {
      assert a + s == s;
    } else {
      NumberLengthOf(a[1..], s);
      assert (a + s)[1..] == a[1..] + s;
    }
  }

  lemma NumbersEnd(a: Text, b: Text, s: Text, t: Text)
    requires AllNumeric(a) && AllNumeric(b) && Stops(s) && Stops(t) && a + s == b + t
    ensures a == b && s == t
  {
    NumberLengthOf(a, s);
    NumberLengthOf(b, t);
    SameTail(a, b, s, t);
  }

  /** Printing is injective, whatever is printed after the value. */
  lemma {:induction false} PrintInjective(v: Value, w: Value, indent: nat, s: Text, t: Text)
    requires Printable(v) && Printable(w) && Stops(s) && Stops(t)
    requires Print(v, indent) + s == Print(w, indent) + t
    ensures v == w && s == t
    decreases v, 0, 0
  {
    KindShows(v, w, indent, s, t);
    match v
    case Num(repr) => NumbersEnd(repr, w.repr, s, t);
    case Str(text) => QuotedInjective(text, w.text, s, t);
    case Arr(items) =>
      if items != [] {
        var end := Break(indent) + [93];
        Bracketed(91, PrintItems(items, indent + 2), PrintItems(w.items, indent + 2), end, s, t);
        EndStops(indent, 93, s);
        EndStops(indent, 93, t);
        ItemsInjective(items, w.items, indent + 2, end + s, end + t);
        SameTail(end, end, s, t);
      } else {
        SameTail(Print(v, indent), Print(w, indent), s, t);
      }
    case Obj(ms) =>
      if ms != [] {
        var end := Break(indent) + [125];
        Bracketed(123, PrintMembers(ms, indent + 2), PrintMembers(w.members, indent + 2), end, s, t);
        EndStops(indent, 125, s);
        EndStops(indent, 125, t);
        MembersInjective(ms, w.members, indent + 2, end + s, end + t);
        SameTail(end, end, s, t);
      } else {
        SameTail(Print(v, indent), Print(w, indent), s, t);
      }
    case _ => SameTail(Print(v, indent), Print(w, indent), s, t);
  }

  lemma Bracketed(open: Unit, a: Text, b: Text, end: Text, s: Text, t: Text)
    requires ([open] + (a + end)) + s == ([open] + (b + end)) + t
    ensures a + (end + s) == b + (end + t)
  {
    Regroup([open], a + end, s);
    Regroup(a, end, s);
    Regroup([open], b + end, t);
    Regroup(b, end, t);
    SameTail([open], [open], a + (end + s), b + (end + t));
  }

  predicate Ends(s: Text) {
    s != [] && s[0] == NEWLINE
  }

  lemma EndStops(indent: nat, close: Unit, s: Text)
    ensures Ends((Break(indent) + [close]) + s)
  {
  }

  /** What follows the first item: the end of the list, or a comma and the next one. */
  lemma RestOf(rest: Text, s: Text)
    requires Ends(s) && (rest == [] || rest[0] == COMMA)
    ensures Stops(rest + s) && ((rest + s)[0] == COMMA <==> rest != [])
  {
    if rest == [] {
      assert rest + s == s;
    }
  }

  lemma {:induction false} ItemsInjective(x: seq<Value>, y: seq<Value>, indent: nat, s: Text, t: Text)
    requires x != [] && y != [] && Printable(Arr(x)) && Printable(Arr(y)) && Ends(s) && Ends(t)
    requires PrintItems(x, indent) + s == PrintItems(y, indent) + t
    ensures x == y && s == t
    decreases x, 0, 0
  {
    var b := Break(indent);
    var px, py := Print(x[0], indent), Print(y[0], indent);
    var rx := if |x| == 1 then [] else [COMMA] + PrintItems(x[1..], indent);
    var ry := if |y| == 1 then [] else [COMMA] + PrintItems(y[1..], indent);
    Regroup(b, px + rx, s);
    Regroup(px, rx, s);
    Regroup(b, py + ry, t);
    Regroup(py, ry, t);
    SameTail(b, b, px + (rx + s), py + (ry + t));
    RestOf(rx, s);
    RestOf(ry, t);
    PrintInjective(x[0], y[0], indent, rx + s, ry + t);
    assert x == [x[0]] + x[1..] && y == [y[0]] + y[1..];
    if rx != [] {
      NextInjective(PrintItems(x[1..], indent), PrintItems(y[1..], indent), s, t);
      ItemsInjective(x[1..], y[1..], indent, s, t);
    } else {
      assert rx + s == s && ry + t == t;
    }
  }

  lemma NextInjective(a: Text, b: Text, s: Text, t: Text)
    requires ([COMMA] + a) + s == ([COMMA] + b) + t
    ensures a + s == b + t
  {
    Regroup([COMMA], a, s);
    Regroup([COMMA], b, t);
    SameTail([COMMA], [COMMA], a + s, b + t);
  }

  lemma {:induction false} MembersInjective(x: seq<Member>, y: seq<Member>, indent: nat, s: Text, t: Text)
    requires x != [] && y != [] && Printable(Obj(x)) && Printable(Obj(y)) && Ends(s) && Ends(t)
    requires PrintMembers(x, indent) + s == PrintMembers(y, indent) + t
    ensures x == y && s == t
    decreases x, 0, 0
  {
    var px, py := Print(x[0].value, indent), Print(y[0].value, indent);
    var rx := if |x| == 1 then [] else [COMMA] + PrintMembers(x[1..], indent);
    var ry := if |y| == 1 then [] else [COMMA] + PrintMembers(y[1..], indent);
    MemberShape(x[0].key, px, rx, indent, s);
    MemberShape(y[0].key, py, ry, indent, t);
    SameTail(Break(indent), Break(indent), Quoted(x[0].key) + ([58, 32] + (px + (rx + s))), Quoted(y[0].key) + ([58, 32] + (py + (ry + t))));
    QuotedInjective(x[0].key, y[0].key, [58, 32] + (px + (rx + s)), [58, 32] + (py + (ry + t)));
    SameTail([58, 32], [58, 32], px + (rx + s), py + (ry + t));
    RestOf(rx, s);
    RestOf(ry, t);
    PrintInjective(x[0].value, y[0].value, indent, rx + s, ry + t);
    assert x == [x[0]] + x[1..] && y == [y[0]] + y[1..];
    if rx != [] {
      NextInjective(PrintMembers(x[1..], indent), PrintMembers(y[1..], indent), s, t);
      MembersInjective(x[1..], y[1..], indent, s, t);
    } else {
      assert rx + s == s && ry + t == t;
    }
  }

  lemma MemberShape(key: Text, p: Text, r: Text, indent: nat, s: Text)
    ensures (Break(indent) + (Quoted(key) + ([58, 32] + (p + r)))) + s
            == Break(indent) + (Quoted(key) + ([58, 32] + (p + (r + s))))
  {
    Regroup(Break(indent), Quoted(key) + ([58, 32] + (p + r)), s);
    Regroup(Quoted(key), [58, 32] + (p + r), s);
    Regroup([58, 32], p + r, s);
    Regroup(p, r, s);
  }
}
