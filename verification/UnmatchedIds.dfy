/** Which artifact ids the invalidation pattern does not find: sanitizing takes colons and brackets out
    of the keys (app/ai-service/services/cache.py) but the pattern is made of the id as it is
    (cache_invalidation.py). */
module UnmatchedIds {
  import opened Basics
  import opened Sorting
  import opened CacheKeys
  import opened CacheInvalidation

  // ----- Counting characters --------------------------------------------------------------

  function Occurrences(s: string, c: char): nat {
    if s == [] then 0 else (if s[0] == c then 1 else 0) + Occurrences(s[1..], c)
  }

  lemma {:induction false} OccurrencesConcat(a: string, b: string, c: char)
    ensures Occurrences(a + b, c) == Occurrences(a, c) + Occurrences(b, c)
  {
    if a == [] {
      assert a + b == b;
    } else {
      OccurrencesConcat(a[1..], b, c);
      assert (a + b)[1..] == a[1..] + b;
    }
  }

  lemma {:induction false} NoOccurrences(s: string, c: char)
    ensures Occurrences(s, c) == 0 <==> c !in s
  {
    if s == [] {
    } else {
      NoOccurrences(s[1..], c);
      assert c in s <==> s[0] == c || c in s[1..];
    }
  }

  predicate Plain(p: string) {
    '[' !in p && '\\' !in p
  }

  /** Outside brackets and escapes a plain character of the pattern is consumed by an equal one. */
  lemma {:induction false} GlobConsumes(p: string, s: string, c: char)
    requires Plain(p) && Literal(c) && Glob(p, s)
    ensures Occurrences(p, c) <= Occurrences(s, c)
    decreases |p| + |s|
  {
    if p == [] {
    } else {
      assert p[0] in p;
      forall d | d in p[1..] ensures d in p {}
      if p[0] == '*' {
        if Glob(p[1..], s) {
          GlobConsumes(p[1..], s, c);
        } else {
          GlobConsumes(p, s[1..], c);
        }
      } else {
        GlobConsumes(p[1..], s[1..], c);
      }
    }
  }

  /** A plain id matches its own sanitized form exactly when sanitizing leaves no character behind
      that the pattern still insists on. */
  lemma OwnPatternExactly(id: string)
    requires Plain(id)
    ensures Glob(id, SanitizeTagValue(id)) <==> ':' !in id && ']' !in id
  {
    if ':' !in id && ']' !in id {
      IdMatchesSanitized(id, "", "");
      assert id + "" == id && SanitizeTagValue(id) + "" == SanitizeTagValue(id);
    } else {
      var c := if ':' in id then ':' else ']';
      SanitizedLacks(id, c);
      NoOccurrences(id, c);
      NoOccurrences(SanitizeTagValue(id), c);
      if Glob(id, SanitizeTagValue(id)) {
        GlobConsumes(id, SanitizeTagValue(id), c);
      }
    }
  }

  lemma {:induction false} SanitizedLacks(value: string, c: char)
    requires c in {':', ']'}
    ensures c !in SanitizeTagValue(value)
  {
    if value == [] {
    } else {
      SanitizedLacks(value[1..], c);
    }
  }

  // ----- What a pattern of plain text asks for ---------------------------------------------

  lemma {:induction false} TextSplits(text: string, p: string, s: string) returns (rest: string)
    requires AllLiteral(text) && Glob(text + p, s)
    ensures s == text + rest && Glob(p, rest)
  {
    if text == "" {
      assert text + p == p;
      rest := s;
    } else {
      assert (text + p)[1..] == text[1..] + p && text[0] in text;
      assert AllLiteral(text[1..]) by {
        assert forall c :: c in text[1..] ==> c in text;
      }
      rest := TextSplits(text[1..], p, s[1..]);
    }
  }

  lemma {:induction false} StarSplits(p: string, s: string) returns (u: string, rest: string)
    requires Glob("*" + p, s)
    ensures s == u + rest && Glob(p, rest)
  {
    assert ("*" + p)[1..] == p;
    if Glob(p, s) {
      u, rest := "", s;
    } else {
      u, rest := StarSplits(p, s[1..]);
      u := [s[0]] + u;
    }
  }

  lemma SearchSplits(text: string, p: string, s: string) returns (u: string, rest: string)
    requires AllLiteral(text) && Glob("*" + (text + p), s)
    ensures s == u + (text + rest) && Glob(p, rest)
  {
    u, rest := StarSplits(text + p, s);
    rest := TextSplits(text, p, rest);
  }

  lemma LiteralIsPlain(a: string)
    requires AllLiteral(a)
    ensures Plain(a)
  {
    assert !Literal('[') && !Literal('\\');
  }

  /** The id stands somewhere behind an `artifact_tag=` of the namespace. */
  ghost predicate AsksFor(key: string, id: string) {
    exists u: string, v: string, w: string :: key == Placed(u, v, id, w)
  }

  function Placed(u: string, v: string, id: string, w: string): string {
    NAMESPACE + (u + (("artifact_tag" + "=") + (v + (id + w))))
  }

  /** For an id without wildcards, brackets and backslashes that is exactly what its pattern matches. */
  lemma LiteralPatternExactly(id: string, key: string)
    requires AllLiteral(id)
    ensures Glob(ArtifactPattern(id), key) <==> AsksFor(key, id)
  {
    if Glob(ArtifactPattern(id), key) {
      PatternAsks(id, key);
    }
    if AsksFor(key, id) {
      var u: string, v: string, w: string :| key == Placed(u, v, id, w);
      PlacedIsMatched(id, u, v, w);
    }
  }

  lemma PatternAsks(id: string, key: string)
    requires AllLiteral(id) && Glob(ArtifactPattern(id), key)
    ensures AsksFor(key, id)
  {
    LiteralNamespace();
    LiteralTag();
    var rest := TextSplits(NAMESPACE, "*" + (("artifact_tag" + "=") + ("*" + (id + "*"))), key);
    var u, more := SearchSplits("artifact_tag" + "=", "*" + (id + "*"), rest);
    var v, w := SearchSplits(id, "*", more);
    assert key == Placed(u, v, id, w);
  }

  lemma PlacedIsMatched(id: string, u: string, v: string, w: string)
    requires AllLiteral(id)
    ensures Glob(ArtifactPattern(id), Placed(u, v, id, w))
  {
    var tag := "artifact_tag" + "=";
    LiteralNamespace();
    LiteralTag();
    StarMatchesAll(w);
    LiteralsMatch(id, "*", w);
    StarSkips(v, id + "*", id + w);
    LiteralsMatch(tag, "*" + (id + "*"), v + (id + w));
    StarSkips(u, tag + ("*" + (id + "*")), tag + (v + (id + w)));
    LiteralsMatch(NAMESPACE, "*" + (tag + ("*" + (id + "*"))), u + (tag + (v + (id + w))));
  }

  lemma LiteralsMatch(text: string, p: string, s: string)
    requires AllLiteral(text) && Glob(p, s)
    ensures Glob(text + p, text + s)
  {
    GlobLiteral(text, p, s);
  }

  lemma LiteralTag()
    ensures AllLiteral("artifact_tag" + "=")
  {
    PlainTagNames();
    assert forall c :: c in "artifact_tag" + "=" ==> c in "artifact_tag" || c in "=";
  }

  lemma LiteralNamespace()
    ensures AllLiteral(NAMESPACE)
  {
    PlainPieces();
    var head := "cache:ai:";
    assert AllLiteral(head);
    assert forall c :: c in (head + VERIFICATION.prefix) + ":" ==> c in head || c in VERIFICATION.prefix || c in ":";
  }

  ghost predicate NamesContent(key: string) {
    exists u: string, w: string :: key == NAMESPACE + (u + (("content_hash" + "=") + w))
  }

  lemma LiteralHashName()
    ensures AllLiteral("content_hash" + "=")
  {
    PlainTagNames();
    assert forall c :: c in "content_hash" + "=" ==> c in "content_hash" || c in "=";
  }

  lemma ContentPatternExactly(key: string)
    ensures Glob(CONTENT_PATTERN, key) <==> NamesContent(key)
  {
    var tag := "content_hash" + "=";
    LiteralNamespace();
    LiteralHashName();
    if Glob(CONTENT_PATTERN, key) {
      var rest := TextSplits(NAMESPACE, "*" + (tag + "*"), key);
      var u, w := SearchSplits(tag, "*", rest);
      assert key == NAMESPACE + (u + (tag + w));
    }
    if NamesContent(key) {
      var u: string, w: string :| key == NAMESPACE + (u + (tag + w));
      StarMatchesAll(w);
      LiteralsMatch(tag, "*", w);
      StarSkips(u, tag + "*", tag + w);
      LiteralsMatch(NAMESPACE, "*" + (tag + "*"), u + (tag + w));
    }
  }

  /** Nothing more is deleted than that: for an id without wildcards, brackets and backslashes exactly
      the entries survive in which it does not stand after an `artifact_tag=`, and that have no
      `content_hash=`, and they survive unchanged. */
  lemma SurvivesExactly<V>(store: map<string, V>, id: string, key: string)
    requires AllLiteral(id)
    ensures key in Invalidated(store, id) <==> key in store && !AsksFor(key, id) && !NamesContent(key)
    ensures key in Invalidated(store, id) ==> Invalidated(store, id)[key] == store[key]
  {
    LiteralPatternExactly(id, key);
    ContentPatternExactly(key);
  }

  // ----- What the keys are made of ----------------------------------------------------------

  /** A hexadecimal digest, of which the theorems below need that it has neither separators nor
      brackets. */
  ghost predicate Hexadecimal(digest: Digest) {
    forall x, c :: c in digest(x) ==> c !in {':', ']'}
  }

  predicate NamesLack(tags: seq<Tag>, c: char) {
    forall t :: t in tags ==> c !in t.name
  }

  lemma TagNamesLack(c: char)
    requires c in {':', ']'}
    ensures forall n :: n in VERIFICATION.keyTags ==> c !in n
  {
    assert forall x :: x in "model_version" ==> x != ':' && x != ']';
    assert forall x :: x in "artifact_tag" ==> x != ':' && x != ']';
    assert forall x :: x in "org_id" ==> x != ':' && x != ']';
    assert forall x :: x in "prompt_version" ==> x != ':' && x != ']';
  }

  lemma {:induction false} ResolvedNames(names: seq<string>, kwargs: map<string, Option<string>>)
    ensures |ResolveTags(names, kwargs)| <= |names|
    ensures forall t :: t in ResolveTags(names, kwargs) ==> t.name in names
  {
    if names == [] {
    } else {
      ResolvedNames(names[1..], kwargs);
    }
  }

  /** The tags of a request's identity key, in the order of the key. */
  function TagsOf(r: Request): seq<Tag> {
    Sort(ResolveTags(VERIFICATION.keyTags, CallOf(r).kwargs), TagLe)
  }

  lemma RequestTags(r: Request, c: char)
    requires c in {':', ']'}
    ensures |TagsOf(r)| <= 4 && NamesLack(TagsOf(r), c)
  {
    var tags := ResolveTags(VERIFICATION.keyTags, CallOf(r).kwargs);
    ResolvedNames(VERIFICATION.keyTags, CallOf(r).kwargs);
    TagNamesLack(c);
    forall t | t in TagsOf(r) ensures c !in t.name {
      SameMembers(TagsOf(r), tags, t);
    }
  }

  function Ending(digest: Digest, r: Request): string {
    ":" + digest(PrimaryInputs(VERIFICATION, CallOf(r)))
  }

  lemma IdentityKey(digest: Digest, r: Request)
    ensures KeysOf(digest, r).primary == ("cache:ai:" + VERIFICATION.prefix) + (Segments(TagsOf(r)) + Ending(digest, r))
  {
    Regroup("cache:ai:" + VERIFICATION.prefix, Segments(TagsOf(r)), Ending(digest, r));
  }

  lemma {:induction false} SegmentsCount(tags: seq<Tag>, c: char)
    requires c in {':', ']'} && NamesLack(tags, c)
    ensures Occurrences(Segments(tags), c) <= if c == ':' then |tags| else 0
  {
    if tags == [] {
    } else {
      var t := tags[0];
      SegmentsCount(tags[1..], c);
      assert t in tags;
      SegmentLacks(t, c);
      var first := if t.value == "" then "" else ":" + Segment(t);
      OccurrencesConcat(first, Segments(tags[1..]), c);
      OccurrencesConcat(":", Segment(t), c);
      NoOccurrences(Segment(t), c);
    }
  }

  lemma SegmentLacks(t: Tag, c: char)
    requires c in {':', ']'} && c !in t.name
    ensures c !in Segment(t)
  {
    SanitizedLacks(t.value, c);
    assert forall x :: x in Segment(t) ==> x in t.name || x == '=' || x in SanitizeTagValue(t.value);
  }

  /** Of the characters that sanitizing removes an identity key has only its own separators. */
  lemma KeyCount(digest: Digest, r: Request, c: char)
    requires c in {':', ']'} && Hexadecimal(digest)
    ensures Occurrences(KeysOf(digest, r).primary, c) <=
            Occurrences("cache:ai:" + VERIFICATION.prefix, c) + if c == ':' then 5 else 0
  {
    var head, hash := "cache:ai:" + VERIFICATION.prefix, digest(PrimaryInputs(VERIFICATION, CallOf(r)));
    IdentityKey(digest, r);
    RequestTags(r, c);
    SegmentsCount(TagsOf(r), c);
    OccurrencesConcat(head, Segments(TagsOf(r)) + Ending(digest, r), c);
    OccurrencesConcat(Segments(TagsOf(r)), Ending(digest, r), c);
    OccurrencesConcat(":", hash, c);
    NoOccurrences(hash, c);
  }

  lemma PatternCount(id: string, c: char)
    requires c in {':', ']'}
    ensures Occurrences(ArtifactPattern(id), c) ==
            Occurrences("cache:ai:" + VERIFICATION.prefix, c) + (if c == ':' then 1 else 0) + Occurrences(id, c)
  {
    PlainPieces();
    TagNamesLack(c);
    assert "artifact_tag" in VERIFICATION.keyTags;
    TagPatternCount("cache:ai:" + VERIFICATION.prefix, "artifact_tag", id, c);
  }

  lemma TagPatternCount(head: string, name: string, id: string, c: char)
    requires c in {':', ']'} && c !in name
    ensures Occurrences(TagPattern(head + ":", name, "*" + (id + "*")), c) ==
            Occurrences(head, c) + (if c == ':' then 1 else 0) + Occurrences(id, c)
  {
    var tag := name + "=";
    OccurrencesConcat(head, ":", c);
    OccurrencesConcat(id, "*", c);
    OccurrencesConcat("*", id + "*", c);
    NoOccurrences(tag, c);
    OccurrencesConcat(tag, "*" + (id + "*"), c);
    OccurrencesConcat("*", tag + ("*" + (id + "*")), c);
    OccurrencesConcat(head + ":", "*" + (tag + ("*" + (id + "*"))), c);
  }

  lemma PlainPattern(id: string)
    requires Plain(id)
    ensures Plain(ArtifactPattern(id))
  {
    var tag := "artifact_tag" + "=";
    LiteralNamespace();
    LiteralTag();
    LiteralIsPlain(NAMESPACE);
    LiteralIsPlain(tag);
    PlainConcat(id, "*");
    PlainConcat("*", id + "*");
    PlainConcat(tag, "*" + (id + "*"));
    PlainConcat("*", tag + ("*" + (id + "*")));
    PlainConcat(NAMESPACE, "*" + (tag + ("*" + (id + "*"))));
  }

  lemma PlainConcat(a: string, b: string)
    requires Plain(a) && Plain(b)
    ensures Plain(a + b)
  {
  }

  // ----- Ids that are missed ----------------------------------------------------------------

  /** An id with a closing bracket, and one with five colons or more, is found in no identity key of
      any request: sanitizing has left none of the former and too few of the latter. */
  lemma TooManyIsMissed(digest: Digest, r: Request, id: string)
    requires Hexadecimal(digest) && Plain(id)
    requires ']' in id || Occurrences(id, ':') >= 5
    ensures !Glob(ArtifactPattern(id), KeysOf(digest, r).primary)
  {
    var c := if ']' in id then ']' else ':';
    KeyCount(digest, r, c);
    PatternCount(id, c);
    NoOccurrences(id, c);
    PlainPattern(id);
    if Glob(ArtifactPattern(id), KeysOf(digest, r).primary) {
      GlobConsumes(ArtifactPattern(id), KeysOf(digest, r).primary, c);
    }
  }

  /** Between two colons there is an equals sign. */
  ghost predicate Apart(s: string) {
    forall i, j :: 0 <= i < j < |s| && s[i] == ':' && s[j] == ':' ==> '=' in s[i..j]
  }

  lemma ApartWithin(x: string, s: string, y: string)
    requires Apart(x + (s + y))
    ensures Apart(s)
  {
    var all := x + (s + y);
    forall i, j | 0 <= i < j < |s| && s[i] == ':' && s[j] == ':' ensures '=' in s[i..j] {
      assert all[|x| + i] == s[i] && all[|x| + j] == s[j];
      assert all[|x| + i..|x| + j] == s[i..j];
    }
  }

  lemma {:induction false} ApartCount(s: string)
    requires Apart(s) && '=' !in s
    ensures Occurrences(s, ':') <= 1
  {
    if s == "" {
    } else {
      ApartWithin([s[0]], s[1..], "");
      assert [s[0]] + (s[1..] + "") == s;
      if s[0] == ':' {
        forall j | 0 < j < |s| ensures s[j] != ':' {
          assert forall k :: 0 <= k < j ==> s[0..j][k] == s[k];
        }
        assert ':' !in s[1..];
        NoOccurrences(s[1..], ':');
      } else {
        ApartCount(s[1..]);
      }
    }
  }

  lemma ApartCons(segment: string, rest: string)
    requires ':' !in segment && '=' in segment && Apart(rest) && rest != "" && rest[0] == ':'
    ensures Apart(":" + (segment + rest))
  {
    var s := ":" + (segment + rest);
    var n := 1 + |segment|;
    forall i, j | 0 <= i < j < |s| && s[i] == ':' && s[j] == ':' ensures '=' in s[i..j] {
      assert j >= n by {
        assert forall k :: 1 <= k < n ==> s[k] == segment[k - 1];
      }
      if i >= n {
        assert s[i..j] == rest[i - n..j - n];
        assert rest[i - n] == s[i] && rest[j - n] == s[j];
      } else {
        assert i == 0;
        var k :| 0 <= k < |segment| && segment[k] == '=';
        assert s[0..j][k + 1] == '=';
      }
    }
  }

  lemma {:induction false} SegmentsApart(tags: seq<Tag>, hash: string)
    requires NamesLack(tags, ':') && ':' !in hash
    ensures Apart(Segments(tags) + (":" + hash)) && (Segments(tags) + (":" + hash))[0] == ':'
  {
    if tags == [] {
      assert Segments(tags) + (":" + hash) == ":" + hash;
    } else {
      var t, rest := tags[0], Segments(tags[1..]);
      SegmentsApart(tags[1..], hash);
      if t.value == "" {
        assert Segments(tags) == rest;
      } else {
        assert t in tags;
        SegmentLacks(t, ':');
        assert (t.name + "=")[|t.name|] == '=' && Segment(t)[|t.name|] == '=';
        ApartCons(Segment(t), rest + (":" + hash));
        Regroup(":" + Segment(t), rest, ":" + hash);
        Regroup(":", Segment(t), rest + (":" + hash));
      }
    }
  }

  /** An id such as "urn:artifact:7", with two colons or more but no equals sign and no wildcard, is
      found in no identity key of any request: between two separators of a key there always is the
      equals sign of a tag. */
  lemma ColonsAreMissed(digest: Digest, r: Request, id: string)
    requires Hexadecimal(digest) && AllLiteral(id) && '=' !in id && Occurrences(id, ':') >= 2
    ensures !Glob(ArtifactPattern(id), KeysOf(digest, r).primary)
  {
    LiteralPatternExactly(id, KeysOf(digest, r).primary);
    if AsksFor(KeysOf(digest, r).primary, id) {
      FoundIsApart(digest, r, id);
      ApartCount(id);
    }
  }

  lemma FoundIsApart(digest: Digest, r: Request, id: string)
    requires Hexadecimal(digest) && AsksFor(KeysOf(digest, r).primary, id)
    ensures Apart(id)
  {
    var u: string, v: string, w: string :| KeysOf(digest, r).primary == Placed(u, v, id, w);
    var head, tag := "cache:ai:" + VERIFICATION.prefix, "artifact_tag" + "=";
    var t := Segments(TagsOf(r)) + Ending(digest, r);
    IdentityKey(digest, r);
    PlainPieces();
    RequestTags(r, ':');
    SegmentsApart(TagsOf(r), digest(PrimaryInputs(VERIFICATION, CallOf(r))));
    var after := u + (tag + (v + (id + w)));
    Regroup(head, ":", after);
    SameRest(head, t, ":" + after);
    var x := ":" + (u + (tag + v));
    assert t == x + (id + w) by {
      Regroup(tag, v, id + w);
      Regroup(u, tag + v, id + w);
      Regroup(":", u + (tag + v), id + w);
    }
    ApartWithin(x, id, w);
  }

  lemma SameRest(a: string, x: string, y: string)
    requires a + x == a + y
    ensures x == y
  {
    assert x == (a + x)[|a|..] && y == (a + y)[|a|..];
  }
}
