/** Tag invalidation (app/ai-service/services/cache_invalidation.py) over the store of
    services/cache.py. Keys and patterns are strings; `Glob` is the match of Redis SCAN. */
module CacheInvalidation {
  import opened Basics
  import opened Sorting
  import opened CacheKeys

  // ----- Redis patterns -----------------------------------------------------------------

  /** The inside of a bracket: does `c` occur in it, and what follows the bracket. */
  function ClassBody(p: string, c: char): (r: (bool, string))
    ensures |r.1| <= |p|
  {
    if p == [] then (false, p)
    else if p[0] == '\\' && |p| >= 2 then
      var (found, rest) := ClassBody(p[2..], c);
      (found || p[1] == c, rest)
    else if p[0] == ']' then (false, p[1..])
    else if |p| >= 3 && p[1] == '-' then
      var (found, rest) := ClassBody(p[3..], c);
      (found || p[0] <= c <= p[2] || p[2] <= c <= p[0], rest)
    else
      var (found, rest) := ClassBody(p[1..], c);
      (found || p[0] == c, rest)
  }

  predicate Glob(p: string, s: string)
    decreases |p| + |s|
  {
    if p == [] then s == []
    else if p[0] == '*' then Glob(p[1..], s) || (s != [] && Glob(p, s[1..]))
    else if s == [] then false
    else if p[0] == '?' then Glob(p[1..], s[1..])
    else if p[0] == '[' then
      var negated := |p| >= 2 && p[1] == '^';
      var (found, rest) := ClassBody(if negated then p[2..] else p[1..], s[0]);
      found != negated && Glob(rest, s[1..])
    else if p[0] == '\\' && |p| >= 2 then p[1] == s[0] && Glob(p[2..], s[1..])
    else p[0] == s[0] && Glob(p[1..], s[1..])
  }

  predicate Literal(c: char) {
    c !in {'*', '?', '[', '\\'}
  }

  lemma {:induction false} GlobLiteral(text: string, p: string, s: string)
    requires forall i :: 0 <= i < |text| ==> Literal(text[i])
    ensures Glob(text + p, text + s) <==> Glob(p, s)
  {
    if text == [] {
      assert text + p == p && text + s == s;
    } else {
      GlobLiteral(text[1..], p, s);
      assert (text + p)[1..] == text[1..] + p && (text + s)[1..] == text[1..] + s;
    }
  }

  lemma {:induction false} StarSkips(u: string, p: string, s: string)
    requires Glob(p, s)
    ensures Glob("*" + p, u + s)
  {
    assert ("*" + p)[1..] == p;
    if u == [] {
      assert u + s == s;
    } else {
      StarSkips(u[1..], p, s);
      assert (u + s)[1..] == u[1..] + s;
    }
  }

  // ----- The patterns -------------------------------------------------------------------

  const NAMESPACE := "cache:ai:humanitarian_verification:"

  function TagPattern(namespace: string, name: string, value: string): string {
    namespace + ("*" + ((name + "=") + value))
  }

  function ArtifactPattern(id: string): string {
    TagPattern(NAMESPACE, "artifact_tag", "*" + (id + "*"))
  }

  const CONTENT_PATTERN := TagPattern(NAMESPACE, "content_hash", "*")

  // ----- The store ----------------------------------------------------------------------

  function DeleteMatching<V>(store: map<string, V>, pattern: string): map<string, V> {
    map k | k in store && !Glob(pattern, k) :: store[k]
  }

  lemma DeletedByKeys<V>(store: map<string, V>, pattern: string, keys: set<string>)
    requires keys == set k | k in store && Glob(pattern, k)
    ensures store - keys == DeleteMatching(store, pattern)
    ensures |keys| == |store| - |store - keys|
  {
    assert (store - keys).Keys == store.Keys - keys;
    assert |store.Keys| == |store.Keys - keys| + |keys|;
  }

  class CacheService<V(!new)> {
    var store: map<string, V>

    /** SCAN collects the matching keys, one DEL removes them; a Redis error removes nothing. */
    method DeletePattern(pattern: string, served: bool) returns (deleted: nat)
      modifies this
      ensures store == if served then DeleteMatching(old(store), pattern) else old(store)
      ensures deleted == |old(store)| - |store|
    {
      if !served {
        return 0;
      }
      var pending, keys := store.Keys, {};
      while pending != {}
        invariant pending <= store.Keys
        invariant keys == set k | k in store && k !in pending && Glob(pattern, k)
        decreases pending
      {
        var key :| key in pending;
        if Glob(pattern, key) {
          keys := keys + {key};
        }
        pending := pending - {key};
      }
      DeletedByKeys(store, pattern, keys);
      deleted := |keys|;
      store := store - keys;
    }

    /** Both patterns are deleted one after the other, and the counts are added. Each deletion may
        fail by itself. */
    method InvalidateVerificationByArtifact(id: string, served1: bool, served2: bool) returns (deleted: nat)
      modifies this
      ensures store == InvalidatedPartly(old(store), id, served1, served2)
      ensures deleted == |old(store)| - |store|
    {
      deleted := DeletePattern(ArtifactPattern(id), served1);
      var more := DeletePattern(CONTENT_PATTERN, served2);
      deleted := deleted + more;
    }
  }

  function InvalidatedPartly<V>(store: map<string, V>, id: string, served1: bool, served2: bool): map<string, V> {
    var first := if served1 then DeleteMatching(store, ArtifactPattern(id)) else store;
    if served2 then DeleteMatching(first, CONTENT_PATTERN) else first
  }

  /** The store once both deletions were served. */
  function Invalidated<V>(store: map<string, V>, id: string): map<string, V> {
    InvalidatedPartly(store, id, true, true)
  }

  // ----- Where a tag sits in a key ------------------------------------------------------

  predicate StartsSegment(u: string) {
    u == [] || u[0] == ':'
  }

  lemma {:induction false} SegmentSplits(tags: seq<Tag>, t: Tag) returns (u: string, v: string)
    requires t in tags && t.value != ""
    ensures Segments(tags) == u + ((":" + Segment(t)) + v) && StartsSegment(u)
  {
    if tags[0] == t {
      u, v := "", Segments(tags[1..]);
    } else {
      var first := if tags[0].value == "" then "" else ":" + Segment(tags[0]);
      u, v := SegmentSplits(tags[1..], t);
      Regroup(first, u, (":" + Segment(t)) + v);
      u := first + u;
    }
  }

  function Skipped(u: string): string {
    if u == [] then "" else u[1..] + ":"
  }

  /** The colon in front of a segment may be read as closing the namespace. */
  lemma ColonMoves(head: string, u: string, rest: string)
    requires StartsSegment(u)
    ensures head + (u + (":" + rest)) == (head + ":") + (Skipped(u) + rest)
  {
    assert u + ":" == ":" + Skipped(u);
    Regroup(u, ":", rest);
    Regroup(":", Skipped(u), rest);
    Regroup(head, ":", Skipped(u) + rest);
  }

  /** A pattern for a segment finds it behind any segments that precede it. */
  lemma SegmentIsFound(head: string, name: string, p: string, u: string, value: string, tail: string)
    requires forall i :: 0 <= i < |head| ==> Literal(head[i])
    requires forall i :: 0 <= i < |name| ==> Literal(name[i])
    requires StartsSegment(u) && Glob(p, value + tail)
    ensures Glob(TagPattern(head + ":", name, p), head + (u + (":" + ((name + "=") + (value + tail)))))
  {
    var eq := name + "=";
    GlobLiteral(eq, p, value + tail);
    StarSkips(Skipped(u), eq + p, eq + (value + tail));
    GlobLiteral(head + ":", "*" + (eq + p), Skipped(u) + (eq + (value + tail)));
    ColonMoves(head, u, eq + (value + tail));
  }

  /** A non-empty tag of a key is found by any pattern that matches its sanitized value. */
  lemma TagIsFound(digest: Digest, prefix: string, tags: seq<Tag>, inputs: Inputs, t: Tag, p: string)
    requires t in tags && t.value != ""
    requires forall i :: 0 <= i < |prefix| ==> Literal(prefix[i])
    requires forall i :: 0 <= i < |t.name| ==> Literal(t.name[i])
    requires forall rest :: Glob(p, SanitizeTagValue(t.value) + rest)
    ensures Glob(TagPattern("cache:ai:" + prefix + ":", t.name, p), GenerateKey(digest, prefix, tags, inputs))
  {
    var head, value, end := "cache:ai:" + prefix, SanitizeTagValue(t.value), ":" + digest(inputs);
    var sorted := Sort(tags, TagLe);
    SameMembers(tags, sorted, t);
    var u, v := SegmentSplits(sorted, t);
    SegmentIsFound(head, t.name, p, u, value, v + end);
    KeyShape(head, u, t.name + "=", value, v, end);
  }

  lemma KeyShape(head: string, u: string, eq: string, value: string, v: string, end: string)
    ensures (head + (u + ((":" + (eq + value)) + v))) + end == head + (u + (":" + (eq + (value + (v + end)))))
  {
    Regroup(head, u + ((":" + (eq + value)) + v), end);
    Regroup(u, (":" + (eq + value)) + v, end);
    Regroup(":" + (eq + value), v, end);
    Regroup(":", eq + value, v + end);
    Regroup(eq, value, v + end);
  }

  // ----- Artifact ids -------------------------------------------------------------------

  /** The ids whose own pattern matches their sanitized form: the empty one has no tag to match,
      a colon or bracket is replaced in the key but not in the pattern, and a backslash survives
      in the key but escapes in the pattern. `*` and `?` are harmless. */
  predicate MatchableId(id: string) {
    id != "" && forall c :: c in id ==> c !in {':', '[', ']', '\\'}
  }

  lemma CharMatchesSanitized(c: char, p: string, s: string)
    requires c !in {':', '[', ']', '\\'} && Glob(p, s)
    ensures Glob([c] + p, SanitizeTagValue([c]) + s)
  {
    var key := SanitizeTagValue([c]) + s;
    assert |SanitizeTagValue([c])| == 1;
    assert ([c] + p)[1..] == p && key[1..] == s;
    if c == '*' {
      assert Glob([c] + p, key[1..]);
    }
  }

  lemma {:induction false} IdMatchesSanitized(id: string, p: string, s: string)
    requires forall c :: c in id ==> c !in {':', '[', ']', '\\'}
    requires Glob(p, s)
    ensures Glob(id + p, SanitizeTagValue(id) + s)
  {
    if id == [] {
      assert id + p == p && SanitizeTagValue(id) + s == s;
    } else {
      var c, rest := id[0], id[1..];
      assert id == [c] + rest;
      assert forall x :: x in rest ==> x in id;
      assert c in id;
      IdMatchesSanitized(rest, p, s);
      CharMatchesSanitized(c, rest + p, SanitizeTagValue(rest) + s);
      SanitizeConcat([c], rest);
      Regroup([c], rest, p);
      Regroup(SanitizeTagValue([c]), SanitizeTagValue(rest), s);
    }
  }

  lemma {:induction false} SanitizeConcat(a: string, b: string)
    ensures SanitizeTagValue(a + b) == SanitizeTagValue(a) + SanitizeTagValue(b)
  {
    if a == [] {
      assert a + b == b;
    } else {
      SanitizeConcat(a[1..], b);
      assert (a + b)[1..] == a[1..] + b;
    }
  }

  lemma {:induction false} JoinContains(ids: seq<string>, id: string) returns (u: string, v: string)
    requires id in ids
    ensures Join(ids) == u + id + v
  {
    if ids[0] == id {
      u, v := "", if |ids| == 1 then "" else "," + Join(ids[1..]);
    } else {
      u, v := JoinContains(ids[1..], id);
      u := ids[0] + "," + u;
    }
  }

  lemma StarMatchesAll(s: string)
    ensures Glob("*", s)
  {
    StarSkips(s, "", "");
    assert "*" + "" == "*" && s + "" == s;
  }

  /** The artifact pattern of a listed, matchable id matches every value of the artifact tag. */
  lemma PatternMatchesTag(ids: seq<string>, id: string, rest: string)
    requires id in ids && MatchableId(id)
    ensures Glob("*" + (id + "*"), SanitizeTagValue(ArtifactTag(ids)) + rest)
  {
    var sorted := Sort(ids, TextLe);
    SameMembers(ids, sorted, id);
    var u, v := JoinContains(sorted, id);
    SanitizeConcat(u + id, v);
    SanitizeConcat(u, id);
    var before, own, after := SanitizeTagValue(u), SanitizeTagValue(id), SanitizeTagValue(v);
    StarMatchesAll(after + rest);
    IdMatchesSanitized(id, "*", after + rest);
    StarSkips(before, id + "*", own + (after + rest));
    Regroup(before + own, after, rest);
    Regroup(before, own, after + rest);
  }

  lemma {:induction false} TagResolved(names: seq<string>, kwargs: map<string, Option<string>>, name: string)
    requires name in names && TextArg(kwargs, name).Some?
    ensures Tag(name, kwargs[name].value) in ResolveTags(names, kwargs)
  {
    if name !in names[1..] {
      assert names[0] == name;
    } else {
      TagResolved(names[1..], kwargs, name);
    }
  }

  lemma NonEmptyTag(ids: seq<string>, id: string)
    requires id in ids && id != ""
    ensures ArtifactTag(ids) != ""
  {
    SameMembers(ids, Sort(ids, TextLe), id);
    var u, v := JoinContains(Sort(ids, TextLe), id);
  }

  predicate AllLiteral(text: string) {
    forall c :: c in text ==> Literal(c)
  }

  /** The pieces of the two patterns in front of the wildcard and of the value are plain text. */
  lemma PlainPieces()
    ensures AllLiteral("humanitarian_verification") && AllLiteral("artifact_tag") && AllLiteral("content_hash")
    ensures ("cache:ai:" + VERIFICATION.prefix) + ":" == NAMESPACE
  {
    PlainPrefix();
    PlainTagNames();
  }

  lemma PlainPrefix()
    ensures AllLiteral("humanitarian_verification")
  {
  }

  lemma PlainTagNames()
    ensures AllLiteral("artifact_tag") && AllLiteral("content_hash")
  {
  }

  lemma TagOfKeyIsFound(digest: Digest, tags: seq<Tag>, inputs: Inputs, t: Tag, p: string)
    requires t in tags && t.value != "" && AllLiteral(t.name)
    requires forall rest :: Glob(p, SanitizeTagValue(t.value) + rest)
    ensures Glob(TagPattern(NAMESPACE, t.name, p), GenerateKey(digest, VERIFICATION.prefix, tags, inputs))
  {
    PlainPieces();
    TagIsFound(digest, VERIFICATION.prefix, tags, inputs, t, p);
  }

  lemma PrimaryKeyIsMatched(digest: Digest, r: Request, id: string)
    requires id in r.artifactIds && MatchableId(id)
    ensures Glob(ArtifactPattern(id), KeysOf(digest, r).primary)
  {
    var call := CallOf(r);
    var tags := ResolveTags(VERIFICATION.keyTags, call.kwargs);
    var t := Tag("artifact_tag", ArtifactTag(r.artifactIds));
    assert call.kwargs["artifact_tag"] == Some(t.value);
    TagResolved(VERIFICATION.keyTags, call.kwargs, "artifact_tag");
    NonEmptyTag(r.artifactIds, id);
    forall rest ensures Glob("*" + (id + "*"), SanitizeTagValue(t.value) + rest) {
      PatternMatchesTag(r.artifactIds, id, rest);
    }
    PlainPieces();
    TagOfKeyIsFound(digest, tags, PrimaryInputs(VERIFICATION, call), t, "*" + (id + "*"));
  }

  lemma ContentKeyIsMatched(digest: Digest, r: Request)
    requires KeysOf(digest, r).content.Some?
    ensures Glob(CONTENT_PATTERN, KeysOf(digest, r).content.value)
  {
    var call := CallOf(r);
    var hash := ContentHash(VERIFICATION, call).value;
    var tags := ContentTags(VERIFICATION, ResolveTags(VERIFICATION.keyTags, call.kwargs), hash);
    var t := Tag("content_hash", hash);
    assert t == tags[|tags| - 1];
    forall rest ensures Glob("*", SanitizeTagValue(hash) + rest) {
      StarMatchesAll(SanitizeTagValue(hash) + rest);
    }
    PlainPieces();
    TagOfKeyIsFound(digest, tags, ContentInputs(VERIFICATION, call), t, "*");
  }

  /** Completeness: once Redis has served both deletions, neither key of any request that lists the
      artifact is left in the store. */
  lemma InvalidationComplete<V>(store: map<string, V>, digest: Digest, id: string, r: Request)
    requires MatchableId(id) && id in r.artifactIds
    ensures var keys := KeysOf(digest, r);
            && keys.primary !in Invalidated(store, id)
            && (keys.content.Some? ==> keys.content.value !in Invalidated(store, id))
  {
    PrimaryKeyIsMatched(digest, r, id);
    if KeysOf(digest, r).content.Some? {
      ContentKeyIsMatched(digest, r);
    }
  }

  /** Half an invalidation removes at least its own kind of entry. */
  lemma PartialInvalidation<V>(store: map<string, V>, digest: Digest, id: string, r: Request, served1: bool, served2: bool)
    requires MatchableId(id) && id in r.artifactIds
    ensures var keys, left := KeysOf(digest, r), InvalidatedPartly(store, id, served1, served2);
            && (served1 ==> keys.primary !in left)
            && (served2 && keys.content.Some? ==> keys.content.value !in left)
            && (forall k :: k in left ==> k in store && left[k] == store[k])
  {
    PrimaryKeyIsMatched(digest, r, id);
    if KeysOf(digest, r).content.Some? {
      ContentKeyIsMatched(digest, r);
    }
  }

  /** Confinement: what is outside the verification namespace survives with its value. */
  lemma InvalidationConfined<V>(store: map<string, V>, id: string, k: string)
    requires k in store && !(NAMESPACE <= k)
    ensures k in Invalidated(store, id) && Invalidated(store, id)[k] == store[k]
  {
    LiteralPrefix(NAMESPACE, "*" + (("artifact_tag" + "=") + ("*" + (id + "*"))), k);
    LiteralPrefix(NAMESPACE, "*" + (("content_hash" + "=") + "*"), k);
  }

  lemma {:induction false} LiteralPrefix(text: string, p: string, k: string)
    requires forall i :: 0 <= i < |text| ==> Literal(text[i])
    ensures Glob(text + p, k) ==> text <= k
  {
    if text != [] && Glob(text + p, k) {
      assert (text + p)[1..] == text[1..] + p;
      LiteralPrefix(text[1..], p, k[1..]);
      assert k == [k[0]] + k[1..];
    }
  }
}
