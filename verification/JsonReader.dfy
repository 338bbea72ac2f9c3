/** Reading JSON text (RFC 8259), and that reading undoes printing. Objects keep their members in the
    order of the text; a number keeps the text it was written as. */
module JsonReader {
  import opened Basics
  import opened Json
  import opened JsonText

  // ----- Strings ------------------------------------------------------------------------

  function HexValue(u: Unit): Option<nat> {
    if 48 <= u <= 57 then Some(u - 48)
    else if 97 <= u <= 102 then Some(u - 87)
    else if 65 <= u <= 70 then Some(u - 55)
    else None
  }

  function FourHex(s: Text): (r: Option<nat>)
    requires |s| >= 4
    ensures r.Some? ==> r.value < 0x1_0000
  {
    var a, b, c, d := HexValue(s[0]), HexValue(s[1]), HexValue(s[2]), HexValue(s[3]);
    if a.Some? && b.Some? && c.Some? && d.Some?
    then Some(4096 * a.value + 256 * b.value + 16 * c.value + d.value) else None
  }

  /** What a single character after a backslash stands for. */
  function Unescaped(u: Unit): Option<Unit> {
    if u in {34, 92, 47} then Some(u)
    else if u == 98 then Some(8)
    else if u == 102 then Some(12)
    else if u == 110 then Some(10)
    else if u == 114 then Some(13)
    else if u == 116 then Some(9)
    else None
  }

  /** The first character of the inside of a string, and how many units it takes. */
  function ReadUnit(s: Text): (r: Option<(Unit, nat)>)
    requires s != []
    ensures r.Some? ==> 1 <= r.value.1 <= |s|
  {
    if s[0] == BACKSLASH then
      if |s| >= 6 && s[1] == 117 then
        match FourHex(s[2..])
        case Some(u) => Some((u, 6))
        case None => None
      else if |s| >= 2 then
        match Unescaped(s[1])
        case Some(u) => Some((u, 2))
        case None => None
      else None
    else if s[0] < 32 then None
    else Some((s[0], 1))
  }

  /** The inside of a string up to its closing quote, and what follows that. */
  function ReadString(s: Text): (r: Option<(Text, Text)>)
    ensures r.Some? ==> |r.value.0| + |r.value.1| < |s|
    decreases |s|
  {
    if s == [] then None
    else if s[0] == QUOTE then Some(([], s[1..]))
    else
      match ReadUnit(s)
      case None => None
      case Some((u, n)) =>
        match ReadString(s[n..])
        case None => None
        case Some((t, rest)) => Some(([u] + t, rest))
  }

  // ----- Values -------------------------------------------------------------------------

  function Skip(s: Text): (r: Text)
    ensures |r| <= |s|
  {
    if s != [] && s[0] in {32, 9, 10, 13} then Skip(s[1..]) else s
  }

  function ReadLiteral(s: Text, literal: Text, v: Value): (r: Option<(Value, Text)>)
    requires literal != []
    ensures r.Some? ==> |r.value.1| < |s|
  {
    if literal <= s then Some((v, s[|literal|..])) else None
  }

  function ReadNumber(s: Text): (r: Option<(Value, Text)>)
    ensures r.Some? ==> |r.value.1| < |s|
  {
    var n := NumberLength(s);
    NumberFits(s);
    if n > 0 && IsNumeric(s[..n]) then Some((Num(s[..n]), s[n..])) else None
  }

  lemma {:induction false} NumberFits(s: Text)
    ensures NumberLength(s) <= |s|
  {
    if s == [] {
    } else {
      NumberFits(s[1..]);
    }
  }

  function ReadValue(s: Text): (r: Option<(Value, Text)>)
    ensures r.Some? ==> |r.value.1| < |s|
    decreases |s|, 0
  {
    var t := Skip(s);
    if t == [] then None
    else if t[0] == QUOTE then
      match ReadString(t[1..])
      case Some((text, rest)) => Some((Str(text), rest))
      case None => None
    else if t[0] == 91 then
      var u := Skip(t[1..]);
      if u != [] && u[0] == 93 then Some((Arr([]), u[1..]))
      else
        match ReadItems(t[1..])
        case Some((items, rest)) => Some((Arr(items), rest))
        case None => None
    else if t[0] == 123 then
      var u := Skip(t[1..]);
      if u != [] && u[0] == 125 then Some((Obj([]), u[1..]))
      else
        match ReadMembers(t[1..])
        case Some((ms, rest)) => Some((Obj(ms), rest))
        case None => None
    else if t[0] == 110 then ReadLiteral(t, [110, 117, 108, 108], Null)
    else if t[0] == 116 then ReadLiteral(t, [116, 114, 117, 101], Bool(true))
    else if t[0] == 102 then ReadLiteral(t, [102, 97, 108, 115, 101], Bool(false))
    else ReadNumber(t)
  }

  /** Values between commas, up to the closing bracket. */
  function ReadItems(s: Text): (r: Option<(seq<Value>, Text)>)
    ensures r.Some? ==> |r.value.1| < |s|
    decreases |s|, 1
  {
    match ReadValue(s)
    case None => None
    case Some((v, rest)) =>
      var u := Skip(rest);
      if u == [] then None
      else if u[0] == 93 then Some(([v], u[1..]))
      else if u[0] != COMMA then None
      else
        match ReadItems(u[1..])
        case Some((items, end)) => Some(([v] + items, end))
        case None => None
  }

  /** Quoted keys, each with a colon and a value, between commas, up to the closing brace. */
  function ReadMembers(s: Text): (r: Option<(seq<Member>, Text)>)
    ensures r.Some? ==> |r.value.1| < |s|
    decreases |s|, 1
  {
    match ReadMember(s)
    case None => None
    case Some((m, rest)) =>
      var u := Skip(rest);
      if u == [] then None
      else if u[0] == 125 then Some(([m], u[1..]))
      else if u[0] != COMMA then None
      else
        match ReadMembers(u[1..])
        case Some((ms, end)) => Some(([m] + ms, end))
        case None => None
  }

  function ReadMember(s: Text): (r: Option<(Member, Text)>)
    ensures r.Some? ==> |r.value.1| < |s|
    decreases |s|, 0
  {
    var t := Skip(s);
    if t == [] || t[0] != QUOTE then None
    else
      match ReadString(t[1..])
      case None => None
      case Some((key, rest)) =>
        var u := Skip(rest);
        if u == [] || u[0] != 58 then None
        else
          match ReadValue(u[1..])
          case Some((v, end)) => Some((Member(key, v), end))
          case None => None
  }

  /** A whole text is one value with nothing but white space around it. */
  function Read(s: Text): Option<Value> {
    match ReadValue(s)
    case Some((v, rest)) => if Skip(rest) == [] then Some(v) else None
    case None => None
  }

  // ----- Reading undoes printing ----------------------------------------------------------

  lemma UnicodeRead(u: Unit, y: Text)
    ensures ReadUnit(UnicodeEscape(u) + y) == Some((u, 6))
  {
    FourDigits(u);
    var s := UnicodeEscape(u) + y;
    var a, b, c, d := u / 4096, u / 256 % 16, u / 16 % 16, u % 16;
    assert s[2..][0] == HexDigit(a) && s[2..][1] == HexDigit(b) && s[2..][2] == HexDigit(c) && s[2..][3] == HexDigit(d);
    HexRead(a);
    HexRead(b);
    HexRead(c);
    HexRead(d);
  }

  lemma HexRead(d: nat)
    requires d < 16
    ensures HexValue(HexDigit(d)) == Some(d)
  {
  }

  lemma UnitRead(u: Unit, y: Text)
    ensures ReadUnit(EscapeUnit(u) + y) == Some((u, |EscapeUnit(u)|))
    ensures (EscapeUnit(u) + y)[0] != QUOTE
  {
    if EscapeUnit(u) == UnicodeEscape(u) {
      UnicodeRead(u, y);
    }
  }

  lemma UnitThen(s: Text, u: Unit, n: nat, t: Text, x: Text)
    requires s != [] && s[0] != QUOTE && ReadUnit(s) == Some((u, n)) && ReadString(s[n..]) == Some((t, x))
    ensures ReadString(s) == Some(([u] + t, x))
  {
  }

  /** A unit that needs no escape is read as it is. */
  lemma PlainUnit(u: Unit, y: Text)
    requires u >= 32 && u != QUOTE && u != BACKSLASH
    ensures ReadUnit([u] + y) == Some((u, 1)) && ([u] + y)[1..] == y
  {
  }

  lemma PairRead(a: Unit, b: Unit, more: Text, t: Text, x: Text)
    requires a >= 0xD800 && b >= 0xD800 && ReadString(more) == Some((t, x))
    ensures ReadString([a, b] + more) == Some(([a, b] + t, x))
  {
    assert [a, b] + more == [a] + ([b] + more);
    PlainUnit(b, more);
    UnitThen([b] + more, b, 1, t, x);
    PlainUnit(a, [b] + more);
    UnitThen([a] + ([b] + more), a, 1, [b] + t, x);
    assert [a] + ([b] + t) == [a, b] + t;
  }

  lemma EscapedRead(u: Unit, more: Text, t: Text, x: Text)
    requires ReadString(more) == Some((t, x))
    ensures ReadString(EscapeUnit(u) + more) == Some(([u] + t, x))
  {
    var first := EscapeUnit(u);
    UnitRead(u, more);
    assert (first + more)[|first|..] == more;
    UnitThen(first + more, u, |first|, t, x);
  }

  lemma {:induction false} StringRead(s: Text, x: Text)
    ensures ReadString(Escape(s) + ([QUOTE] + x)) == Some((s, x))
    decreases |s|
  {
    var end := [QUOTE] + x;
    if s == [] {
      assert Escape(s) + end == end;
    } else if StartsPair(s) {
      StringRead(s[2..], x);
      Regroup([s[0], s[1]], Escape(s[2..]), end);
      PairRead(s[0], s[1], Escape(s[2..]) + end, s[2..], x);
      assert [s[0], s[1]] + s[2..] == s;
    } else {
      StringRead(s[1..], x);
      Regroup(EscapeUnit(s[0]), Escape(s[1..]), end);
      EscapedRead(s[0], Escape(s[1..]) + end, s[1..], x);
      assert [s[0]] + s[1..] == s;
    }
  }

  lemma {:induction false} SkipPad(n: nat, s: Text)
    ensures Skip(Pad(n) + s) == Skip(s)
  {
    if n == 0 {
      assert Pad(n) + s == s;
    } else {
      SkipPad(n - 1, s);
      assert (Pad(n) + s)[1..] == Pad(n - 1) + s;
    }
  }

  lemma SkipBreak(n: nat, s: Text)
    ensures Skip(Break(n) + s) == Skip(s)
  {
    SkipPad(n, s);
    assert (Break(n) + s)[1..] == Pad(n) + s;
  }

  lemma NumberRead(repr: Text, s: Text)
    requires IsNumeric(repr) && Stops(s)
    ensures ReadNumber(repr + s) == Some((Num(repr), s))
  {
    NumberLengthOf(repr, s);
    assert (repr + s)[..|repr|] == repr && (repr + s)[|repr|..] == s;
  }

  lemma LiteralRead(literal: Text, s: Text, v: Value)
    requires literal != []
    ensures ReadLiteral(literal + s, literal, v) == Some((v, s))
  {
    assert (literal + s)[|literal|..] == s;
  }

  /** Nothing is skipped in front of a printed value. */
  lemma PrintedStarts(v: Value, indent: nat, s: Text)
    requires Printable(v)
    ensures Print(v, indent) + s != [] && Skip(Print(v, indent) + s) == Print(v, indent) + s
  {
    FirstUnits(v, indent, s);
  }

  /** Round trip: what was printed is read as it was, whatever follows it. */
  lemma {:induction false} PrintedRead(v: Value, indent: nat, s: Text)
    requires Printable(v) && Stops(s)
    ensures ReadValue(Print(v, indent) + s) == Some((v, s))
    decreases v, 0, 0
  {
    PrintedStarts(v, indent, s);
    FirstUnits(v, indent, s);
    match v
    case Num(repr) => NumberRead(repr, s);
    case Str(text) =>
      KeyRead(text, s);
    case Arr(items) => ArrayRead(items, indent, s);
    case Obj(ms) => ObjectRead(ms, indent, s);
    case _ => LiteralRead(Print(v, indent), s, v);
  }

  lemma {:induction false} ArrayRead(items: seq<Value>, indent: nat, s: Text)
    requires Printable(Arr(items))
    ensures ReadValue(Print(Arr(items), indent) + s) == Some((Arr(items), s))
    decreases items, 1, 0
  {
    var t := Print(Arr(items), indent) + s;
    if items == [] {
      assert t[1..] == [93] + s && ([93] + s)[1..] == s;
    } else {
      var end := Break(indent) + [93];
      Regroup([91], PrintItems(items, indent + 2) + end, s);
      Regroup(PrintItems(items, indent + 2), end, s);
      var inside := PrintItems(items, indent + 2) + (end + s);
      assert t[1..] == inside;
      ItemsStart(items, indent + 2, end + s);
      ItemsRead(items, indent + 2, indent, s);
    }
  }

  lemma ItemsStart(items: seq<Value>, indent: nat, s: Text)
    requires items != [] && Printable(items[0])
    ensures var u := Skip(PrintItems(items, indent) + s); u != [] && u[0] != 93
  {
    var p, r := Print(items[0], indent), if |items| == 1 then [] else [COMMA] + PrintItems(items[1..], indent);
    Regroup(Break(indent), p + r, s);
    Regroup(p, r, s);
    SkipBreak(indent, p + (r + s));
    PrintedStarts(items[0], indent, r + s);
    FirstUnits(items[0], indent, r + s);
  }

  lemma LastItem(s: Text, v: Value, rest: Text, x: Text)
    requires ReadValue(s) == Some((v, rest)) && Skip(rest) == [93] + x
    ensures ReadItems(s) == Some(([v], x))
  {
    assert ([93] + x)[1..] == x;
  }

  lemma NextItem(s: Text, v: Value, rest: Text, more: Text, items: seq<Value>, x: Text)
    requires ReadValue(s) == Some((v, rest)) && Skip(rest) == [COMMA] + more && ReadItems(more) == Some((items, x))
    ensures ReadItems(s) == Some(([v] + items, x))
  {
    assert ([COMMA] + more)[1..] == more;
  }

  lemma {:induction false} ItemsRead(items: seq<Value>, indent: nat, outer: nat, s: Text)
    requires items != [] && Printable(Arr(items))
    ensures ReadItems(PrintItems(items, indent) + ((Break(outer) + [93]) + s)) == Some((items, s))
    decreases items, 0, 0
  {
    var end := (Break(outer) + [93]) + s;
    var p, r := Print(items[0], indent), if |items| == 1 then [] else [COMMA] + PrintItems(items[1..], indent);
    Regroup(Break(indent), p + r, end);
    Regroup(p, r, end);
    SkipBreak(indent, p + (r + end));
    EndStops(outer, 93, s);
    RestOf(r, end);
    PrintedRead(items[0], indent, r + end);
    SameStart(Break(indent) + (p + (r + end)), p + (r + end));
    var all := PrintItems(items, indent) + end;
    if |items| == 1 {
      assert r + end == end && items == [items[0]];
      CloseSkips(outer, 93, s);
      LastItem(all, items[0], end, s);
    } else {
      var more := PrintItems(items[1..], indent) + end;
      Regroup([COMMA], PrintItems(items[1..], indent), end);
      ItemsRead(items[1..], indent, outer, s);
      NextItem(all, items[0], r + end, more, items[1..], s);
      assert items == [items[0]] + items[1..];
    }
  }

  /** Only what follows the white space matters. */
  lemma SameStart(a: Text, b: Text)
    requires Skip(a) == Skip(b)
    ensures ReadValue(a) == ReadValue(b) && ReadMember(a) == ReadMember(b)
  {
  }

  lemma CloseSkips(outer: nat, close: Unit, s: Text)
    requires close in {93, 125}
    ensures Skip((Break(outer) + [close]) + s) == [close] + s
  {
    Regroup(Break(outer), [close], s);
    SkipBreak(outer, [close] + s);
  }

  lemma {:induction false} ObjectRead(ms: seq<Member>, indent: nat, s: Text)
    requires Printable(Obj(ms))
    ensures ReadValue(Print(Obj(ms), indent) + s) == Some((Obj(ms), s))
    decreases ms, 2, 0
  {
    var t := Print(Obj(ms), indent) + s;
    if ms == [] {
      assert t[1..] == [125] + s && ([125] + s)[1..] == s;
    } else {
      var inside := PrintMembers(ms, indent + 2) + ((Break(indent) + [125]) + s);
      ObjectShape(ms, indent, s);
      MembersStart(ms, indent + 2, (Break(indent) + [125]) + s);
      MembersRead(ms, indent + 2, indent, s);
      BraceOpens(t, inside, ms, s);
    }
  }

  lemma ObjectShape(ms: seq<Member>, indent: nat, s: Text)
    requires ms != []
    ensures var t := Print(Obj(ms), indent) + s;
            t == [123] + (PrintMembers(ms, indent + 2) + ((Break(indent) + [125]) + s))
  {
    var end := Break(indent) + [125];
    Regroup([123], PrintMembers(ms, indent + 2) + end, s);
    Regroup(PrintMembers(ms, indent + 2), end, s);
  }

  lemma BraceOpens(t: Text, inside: Text, ms: seq<Member>, s: Text)
    requires t == [123] + inside && ReadMembers(inside) == Some((ms, s))
    requires Skip(inside) != [] && Skip(inside)[0] == QUOTE
    ensures ReadValue(t) == Some((Obj(ms), s))
  {
    assert t[1..] == inside;
  }

  lemma MembersStart(ms: seq<Member>, indent: nat, s: Text)
    requires ms != []
    ensures var u := Skip(PrintMembers(ms, indent) + s); u != [] && u[0] == QUOTE
  {
    var p, r := Print(ms[0].value, indent), if |ms| == 1 then [] else [COMMA] + PrintMembers(ms[1..], indent);
    MemberShape(ms[0].key, p, r, indent, s);
    SkipBreak(indent, Quoted(ms[0].key) + ([58, 32] + (p + (r + s))));
  }

  lemma LastMember(s: Text, m: Member, rest: Text, x: Text)
    requires ReadMember(s) == Some((m, rest)) && Skip(rest) == [125] + x
    ensures ReadMembers(s) == Some(([m], x))
  {
    assert ([125] + x)[1..] == x;
  }

  lemma NextMember(s: Text, m: Member, rest: Text, more: Text, ms: seq<Member>, x: Text)
    requires ReadMember(s) == Some((m, rest)) && Skip(rest) == [COMMA] + more && ReadMembers(more) == Some((ms, x))
    ensures ReadMembers(s) == Some(([m] + ms, x))
  {
    assert ([COMMA] + more)[1..] == more;
  }

  lemma {:induction false} MembersRead(ms: seq<Member>, indent: nat, outer: nat, s: Text)
    requires ms != [] && Printable(Obj(ms))
    ensures ReadMembers(PrintMembers(ms, indent) + ((Break(outer) + [125]) + s)) == Some((ms, s))
    decreases ms, 1, 0
  {
    var end := (Break(outer) + [125]) + s;
    var r := if |ms| == 1 then [] else [COMMA] + PrintMembers(ms[1..], indent);
    FirstMemberRead(ms, indent, outer, r, s);
    if |ms| > 1 {
      MembersRead(ms[1..], indent, outer, s);
    }
    MembersStep(ms, indent, outer, r, PrintMembers(ms, indent) + end, s);
  }

  lemma MembersStep(ms: seq<Member>, indent: nat, outer: nat, r: Text, all: Text, s: Text)
    requires ms != [] && r == (if |ms| == 1 then [] else [COMMA] + PrintMembers(ms[1..], indent))
    requires ReadMember(all) == Some((ms[0], r + ((Break(outer) + [125]) + s)))
    requires |ms| > 1 ==> ReadMembers(PrintMembers(ms[1..], indent) + ((Break(outer) + [125]) + s)) == Some((ms[1..], s))
    ensures ReadMembers(all) == Some((ms, s))
  {
    var end := (Break(outer) + [125]) + s;
    MembersFollow(ms, indent, outer, r, s);
    if |ms| == 1 {
      LastMember(all, ms[0], r + end, s);
      assert ms == [ms[0]];
    } else {
      NextMember(all, ms[0], r + end, PrintMembers(ms[1..], indent) + end, ms[1..], s);
      assert ms == [ms[0]] + ms[1..];
    }
  }

  lemma {:induction false} FirstMemberRead(ms: seq<Member>, indent: nat, outer: nat, r: Text, s: Text)
    requires ms != [] && Printable(Obj(ms))
    requires r == (if |ms| == 1 then [] else [COMMA] + PrintMembers(ms[1..], indent))
    ensures var end := (Break(outer) + [125]) + s;
            ReadMember(PrintMembers(ms, indent) + end) == Some((ms[0], r + end))
    decreases ms, 0, 0
  {
    var end := (Break(outer) + [125]) + s;
    EndStops(outer, 125, s);
    RestOf(r, end);
    PrintedRead(ms[0].value, indent, r + end);
    MemberShape(ms[0].key, Print(ms[0].value, indent), r, indent, end);
    MemberRead(ms[0], Print(ms[0].value, indent), indent, r + end);
  }

  /** Behind a member is the closing brace, or a comma and the other members. */
  lemma MembersFollow(ms: seq<Member>, indent: nat, outer: nat, r: Text, s: Text)
    requires ms != [] && r == (if |ms| == 1 then [] else [COMMA] + PrintMembers(ms[1..], indent))
    ensures var end := (Break(outer) + [125]) + s;
            Skip(r + end) == if |ms| == 1 then [125] + s else [COMMA] + (PrintMembers(ms[1..], indent) + end)
  {
    var end := (Break(outer) + [125]) + s;
    if |ms| == 1 {
      assert r + end == end;
      CloseSkips(outer, 125, s);
    } else {
      Regroup([COMMA], PrintMembers(ms[1..], indent), end);
    }
  }

  lemma KeyRead(key: Text, more: Text)
    ensures ReadString((Quoted(key) + more)[1..]) == Some((key, more))
  {
    Regroup([QUOTE] + Escape(key), [QUOTE], more);
    Regroup([QUOTE], Escape(key), [QUOTE] + more);
    assert (Quoted(key) + more)[1..] == Escape(key) + ([QUOTE] + more);
    StringRead(key, more);
  }

  lemma MemberRead(m: Member, p: Text, indent: nat, rest: Text)
    requires ReadValue(p + rest) == Some((m.value, rest))
    ensures ReadMember(Break(indent) + (Quoted(m.key) + ([58, 32] + (p + rest)))) == Some((m, rest))
  {
    var colon := [58, 32] + (p + rest);
    SkipBreak(indent, Quoted(m.key) + colon);
    SameStart(Break(indent) + (Quoted(m.key) + colon), Quoted(m.key) + colon);
    KeyRead(m.key, colon);
    assert colon[1..] == [32] + (p + rest) && ([32] + (p + rest))[1..] == p + rest;
    SameStart(colon[1..], p + rest);
  }

  /** The text of a value is read as the value. */
  lemma PrintedTextRead(v: Value)
    requires Printable(v)
    ensures Read(Print(v, 0)) == Some(v)
  {
    assert Print(v, 0) + [] == Print(v, 0);
    PrintedRead(v, 0, []);
  }

  /** A string is shorter than any text that it is read from. */
  lemma StringsAreShorter(s: Text)
    requires Read(s).Some? && Read(s).value.Str?
    ensures |Read(s).value.text| < |s|
  {
  }
}
