/** How cached_response builds its keys (app/ai-service/services/cache.py) and which inputs the
    verification endpoint gives it (app/ai-service/api/v1/humanitarian.py). */
module CacheKeys {
  import opened Basics
  import opened Sorting

  /** What is hashed into a key: positional and keyword arguments by their JSON rendering. A keyword
      argument bound to Python's None is `None`. */
  datatype Inputs = Inputs(args: seq<string>, kwargs: map<string, Option<string>>)

  /** `json.dumps` of the inputs with sorted keys, then SHA-256 in hexadecimal. */
  type Digest = Inputs -> string

  datatype Tag = Tag(name: string, value: string)

  datatype Site = Site(prefix: string, keyTags: seq<string>, contentHashArg: Option<string>, excludedTags: seq<string>)

  datatype Keys = Keys(primary: string, content: Option<string>)

  const SPECIAL := {'*', '?', '[', ']', ':'}

  function SanitizeTagValue(value: string): (r: string)
    ensures |r| == |value|
  {
    if value == [] then [] else [if value[0] in SPECIAL then '_' else value[0]] + SanitizeTagValue(value[1..])
  }

  function Segment(t: Tag): string {
    (t.name + "=") + SanitizeTagValue(t.value)
  }

  function Segments(tags: seq<Tag>): string {
    if tags == [] then ""
    else (if tags[0].value == "" then "" else ":" + Segment(tags[0])) + Segments(tags[1..])
  }

  predicate TagLe(a: Tag, b: Tag) {
    TextLe(a.name, b.name)
  }

  function GenerateKey(digest: Digest, prefix: string, tags: seq<Tag>, inputs: Inputs): string {
    ("cache:ai:" + prefix) + Segments(Sort(tags, TagLe)) + (":" + digest(inputs))
  }

  function TextArg(kwargs: map<string, Option<string>>, name: string): Option<string> {
    if name in kwargs then kwargs[name] else None
  }

  function ResolveTags(names: seq<string>, kwargs: map<string, Option<string>>): seq<Tag> {
    if names == [] then []
    else (match TextArg(kwargs, names[0])
          case Some(v) => if names[0] in names[1..] then [] else [Tag(names[0], v)]
          case None => [])
         + ResolveTags(names[1..], kwargs)
  }

  function WithoutTags(tags: seq<Tag>, excluded: seq<string>): seq<Tag> {
    Select(tags, (t: Tag) => t.name !in excluded)
  }

  function PrimaryInputs(site: Site, call: Inputs): Inputs {
    if site.contentHashArg.None? then call
    else call.(kwargs := call.kwargs - {site.contentHashArg.value})
  }

  function ContentInputs(site: Site, call: Inputs): Inputs {
    var p := PrimaryInputs(site, call);
    p.(kwargs := map k | k in p.kwargs && k !in site.excludedTags :: p.kwargs[k])
  }

  /** `content_hash` is the argument's value when it is configured, given and not empty. */
  function ContentHash(site: Site, call: Inputs): Option<string> {
    if site.contentHashArg.None? then None
    else match TextArg(call.kwargs, site.contentHashArg.value)
         case None => None
         case Some(h) => if h == "" then None else Some(h)
  }

  function ContentTags(site: Site, tags: seq<Tag>, contentHash: string): seq<Tag>
    requires site.contentHashArg.Some?
  {
    WithoutTags(tags, site.excludedTags + [site.contentHashArg.value]) + [Tag(site.contentHashArg.value, contentHash)]
  }

  function ResolveKeys(digest: Digest, site: Site, call: Inputs): Keys {
    var tags := ResolveTags(site.keyTags, call.kwargs);
    Keys(GenerateKey(digest, site.prefix, tags, PrimaryInputs(site, call)),
         match ContentHash(site, call)
         case None => None
         case Some(h) =>
           Some(GenerateKey(digest, site.prefix,
                            ContentTags(site, tags, h),
                            ContentInputs(site, call))))
  }

  // ----- The verification endpoint ------------------------------------------------------

  const VERIFICATION := Site("humanitarian_verification",
                             ["model_version", "artifact_tag", "org_id", "prompt_version"],
                             Some("content_hash"), ["artifact_tag"])

  function Join(ids: seq<string>): string {
    if ids == [] then "" else if |ids| == 1 then ids[0] else ids[0] + "," + Join(ids[1..])
  }

  function ArtifactTag(ids: seq<string>): string {
    Join(Sort(ids, TextLe))
  }

  /** The keyword arguments of one call to `_verify_claim_cached`; `rest` are the arguments that no
      tag mentions (claim, evidence, context, preference, timeout). */
  datatype Request = Request(
    service: string,
    rest: map<string, Option<string>>,
    modelVersion: string,
    artifactIds: seq<string>,
    orgId: string,
    promptVersion: string,
    contentHash: string)

  function CallOf(r: Request): Inputs {
    Inputs([r.service],
           r.rest["model_version" := Some(r.modelVersion)]["artifact_tag" := Some(ArtifactTag(r.artifactIds))]
                 ["org_id" := Some(r.orgId)]["prompt_version" := Some(r.promptVersion)]
                 ["content_hash" := Some(r.contentHash)])
  }

  function KeysOf(digest: Digest, r: Request): Keys {
    ResolveKeys(digest, VERIFICATION, CallOf(r))
  }

  /** The order in which a request lists its artifacts does not matter to either key. */
  lemma ArtifactOrderIrrelevant(digest: Digest, r: Request, ids: seq<string>)
    requires multiset(ids) == multiset(r.artifactIds)
    ensures KeysOf(digest, r.(artifactIds := ids)) == KeysOf(digest, r)
  {
    TextLeOrder();
    SortSorts(ids, TextLe);
    SortSorts(r.artifactIds, TextLe);
    SortedUnique(Sort(ids, TextLe), Sort(r.artifactIds, TextLe), TextLe);
    assert CallOf(r.(artifactIds := ids)) == CallOf(r);
  }

  // ----- What a key determines ----------------------------------------------------------

  /** The idealised digest: distinct inputs have distinct digests, and none contains a colon. */
  ghost predicate Ideal(digest: Digest) {
    && (forall x, y :: digest(x) == digest(y) ==> x == y)
    && (forall x :: ':' !in digest(x))
  }

  /** The arguments the decorated function may depend on: all but the excluded tags. */
  function Upstream(site: Site, inputs: Inputs): Inputs {
    inputs.(kwargs := map k | k in inputs.kwargs && k !in site.excludedTags :: inputs.kwargs[k])
  }

  ghost predicate EndsInDigest(digest: Digest, key: string, inputs: Inputs) {
    exists head :: key == head + ":" + digest(inputs)
  }

  /** The arguments a key stands for, read off the digest at its end. */
  ghost function ArgsOf(digest: Digest, site: Site, key: string): Inputs {
    if inputs :| EndsInDigest(digest, key, inputs) then Upstream(site, inputs) else Inputs([], map[])
  }

  /** Where the last colon of a text stands, or -1. */
  function LastColonOf(s: string): (i: int)
    ensures -1 <= i < |s|
  {
    if s == "" then -1 else if s[|s| - 1] == ':' then |s| - 1 else LastColonOf(s[..|s| - 1])
  }

  lemma {:induction false} LastColonAt(a: string, x: string)
    requires ':' !in x
    ensures LastColonOf(a + ":" + x) == |a|
  {
    var s := a + ":" + x;
    if x == "" {
      assert s == a + ":";
    } else {
      LastColonAt(a, x[..|x| - 1]);
      assert s[..|s| - 1] == a + ":" + x[..|x| - 1];
      assert s[|s| - 1] == x[|x| - 1];
    }
  }

  lemma LastColon(a: string, x: string, b: string, y: string)
    requires a + ":" + x == b + ":" + y && ':' !in x && ':' !in y
    ensures a == b && x == y
  {
    var s := a + ":" + x;
    LastColonAt(a, x);
    LastColonAt(b, y);
    assert a == s[..|a|] == (b + ":" + y)[..|b|] == b;
    assert x == s[|a| + 1..] == (b + ":" + y)[|b| + 1..] == y;
  }

  lemma GeneratedKeyStandsFor(digest: Digest, site: Site, tags: seq<Tag>, inputs: Inputs)
    requires Ideal(digest)
    ensures ArgsOf(digest, site, GenerateKey(digest, site.prefix, tags, inputs)) == Upstream(site, inputs)
  {
    var head := ("cache:ai:" + site.prefix) + Segments(Sort(tags, TagLe));
    var key := head + ":" + digest(inputs);
    assert key == head + (":" + digest(inputs));
    assert EndsInDigest(digest, key, inputs);
    forall other | EndsInDigest(digest, key, other) ensures other == inputs {
      var h :| key == h + ":" + digest(other);
      LastColon(head, digest(inputs), h, digest(other));
    }
  }

  /** Both keys of a call stand for its own arguments without the content hash and the excluded
      tags. So two calls that share any key agree on all of those, the tenant `org_id` included. */
  lemma KeysStandForArguments(digest: Digest, site: Site, call: Inputs)
    requires Ideal(digest)
    ensures var keys := ResolveKeys(digest, site, call);
            && ArgsOf(digest, site, keys.primary) == ContentInputs(site, call)
            && (keys.content.Some? ==> ArgsOf(digest, site, keys.content.value) == ContentInputs(site, call))
  {
    var tags := ResolveTags(site.keyTags, call.kwargs);
    GeneratedKeyStandsFor(digest, site, tags, PrimaryInputs(site, call));
    if ContentHash(site, call).Some? {
      var contentTags := ContentTags(site, tags, ContentHash(site, call).value);
      GeneratedKeyStandsFor(digest, site, contentTags, ContentInputs(site, call));
      assert Upstream(site, ContentInputs(site, call)) == ContentInputs(site, call);
    }
  }

  function AnyKeys(k: Keys): set<string> {
    {k.primary} + if k.content.Some? then {k.content.value} else {}
  }

  lemma VerificationArguments(r: Request)
    ensures var x := ContentInputs(VERIFICATION, CallOf(r));
            && x.args == [r.service]
            && x.kwargs == Given(r)
  {
    var x := ContentInputs(VERIFICATION, CallOf(r));
    assert VERIFICATION.excludedTags == ["artifact_tag"];
    assert x.kwargs.Keys == Given(r).Keys;
  }

  /** What the endpoint's request says, without its artifacts and their content hash. */
  function Given(r: Request): map<string, Option<string>> {
    (r.rest - {"artifact_tag", "content_hash"})
      ["model_version" := Some(r.modelVersion)]["org_id" := Some(r.orgId)]["prompt_version" := Some(r.promptVersion)]
  }

  lemma KeyStandsFor(digest: Digest, r: Request, k: string)
    requires Ideal(digest) && k in AnyKeys(KeysOf(digest, r))
    ensures ArgsOf(digest, VERIFICATION, k) == Inputs([r.service], Given(r))
  {
    KeysStandForArguments(digest, VERIFICATION, CallOf(r));
    VerificationArguments(r);
  }

  lemma GivenDetermines(r: Request, s: Request)
    requires Given(r) == Given(s)
    ensures r.orgId == s.orgId && r.modelVersion == s.modelVersion && r.promptVersion == s.promptVersion
  {
    assert Given(r)["org_id"] == Some(r.orgId) && Given(s)["org_id"] == Some(s.orgId);
    assert Given(r)["model_version"] == Some(r.modelVersion) && Given(s)["model_version"] == Some(s.modelVersion);
    assert Given(r)["prompt_version"] == Some(r.promptVersion) && Given(s)["prompt_version"] == Some(s.promptVersion);
  }

  /** Requests that share a key differ in nothing but their artifacts and the content hash; in
      particular they come from the same organisation. */
  lemma SharedKeySameArguments(digest: Digest, r: Request, s: Request, k: string)
    requires Ideal(digest)
    requires k in AnyKeys(KeysOf(digest, r)) && k in AnyKeys(KeysOf(digest, s))
    ensures r.service == s.service && Given(r) == Given(s)
    ensures r.orgId == s.orgId && r.modelVersion == s.modelVersion && r.promptVersion == s.promptVersion
  {
    KeyStandsFor(digest, r, k);
    KeyStandsFor(digest, s, k);
    assert r.service == [r.service][0] == [s.service][0];
    GivenDetermines(r, s);
  }

  // ----- What the content key determines --------------------------------------------------

  predicate Clean(value: string) {
    forall c :: c in value ==> c !in {'*', '?', '[', ']', ':'}
  }

  /** What is left of a value in a key has no wildcard, bracket or colon, and is the value itself if
      that had none. */
  lemma {:induction false} SanitizedIsClean(value: string)
    ensures Clean(SanitizeTagValue(value))
    ensures SanitizeTagValue(value) == value <==> Clean(value)
  {
    if value == [] {
    } else {
      SanitizedIsClean(value[1..]);
      assert value == [value[0]] + value[1..];
      assert value[0] in value && forall c :: c in value[1..] ==> c in value;
    }
  }

  lemma {:induction false} TagsAgree(names: seq<string>, a: map<string, Option<string>>, b: map<string, Option<string>>, excluded: seq<string>)
    requires forall n :: n in names && n !in excluded ==> TextArg(a, n) == TextArg(b, n)
    ensures WithoutTags(ResolveTags(names, a), excluded) == WithoutTags(ResolveTags(names, b), excluded)
  {
    if names == [] {
    } else {
      TagsAgree(names[1..], a, b, excluded);
      FirstTag(names, a, excluded);
      FirstTag(names, b, excluded);
    }
  }

  lemma FirstTag(names: seq<string>, kwargs: map<string, Option<string>>, excluded: seq<string>)
    requires names != []
    ensures var rest := WithoutTags(ResolveTags(names[1..], kwargs), excluded);
            WithoutTags(ResolveTags(names, kwargs), excluded) ==
            if TextArg(kwargs, names[0]).Some? && names[0] !in names[1..] && names[0] !in excluded
            then [Tag(names[0], TextArg(kwargs, names[0]).value)] + rest else rest
  {
    if TextArg(kwargs, names[0]).Some? && names[0] !in names[1..] {
      SelectFirst(Tag(names[0], TextArg(kwargs, names[0]).value), ResolveTags(names[1..], kwargs), (t: Tag) => t.name !in excluded);
    } else {
      assert ResolveTags(names, kwargs) == ResolveTags(names[1..], kwargs);
    }
  }

  lemma {:induction false} TagNames(names: seq<string>, kwargs: map<string, Option<string>>, t: Tag)
    requires t in ResolveTags(names, kwargs)
    ensures t.name in names
  {
    if t !in ResolveTags(names[1..], kwargs) {
      assert t.name == names[0];
    } else {
      TagNames(names[1..], kwargs, t);
    }
  }

  /** The tags of a content key but for the content hash. */
  function OtherTags(r: Request): seq<Tag> {
    WithoutTags(ResolveTags(VERIFICATION.keyTags, CallOf(r).kwargs), VERIFICATION.excludedTags + ["content_hash"])
  }

  lemma OtherTagsGiven(r: Request, s: Request)
    requires Given(r) == Given(s)
    ensures OtherTags(r) == OtherTags(s)
  {
    GivenDetermines(r, s);
    TagsAgree(VERIFICATION.keyTags, CallOf(r).kwargs, CallOf(s).kwargs, VERIFICATION.excludedTags + ["content_hash"]);
  }

  lemma OtherTagsFollow(r: Request, t: Tag, hash: string)
    requires t in OtherTags(r)
    ensures !TagLe(t, Tag("content_hash", hash))
  {
    var tags := ResolveTags(VERIFICATION.keyTags, CallOf(r).kwargs);
    SelectMember(tags, (x: Tag) => x.name !in VERIFICATION.excludedTags + ["content_hash"], t);
    TagNames(VERIFICATION.keyTags, CallOf(r).kwargs, t);
    assert t.name in {"model_version", "org_id", "prompt_version"};
    assert t.name[0] in {'m', 'o', 'p'};
  }

  lemma TagLeOrder()
    ensures TotalOrder(TagLe)
  {
    TextLeOrder();
    forall x: Tag, y: Tag ensures TagLe(x, y) || TagLe(y, x) {
      assert TextLe(x.name, y.name) || TextLe(y.name, x.name);
    }
    forall x: Tag, y: Tag, z: Tag | TagLe(x, y) && TagLe(y, z) ensures TagLe(x, z) {
      assert TextLe(x.name, y.name) && TextLe(y.name, z.name);
    }
  }

  /** A tag that goes before all others heads the key. */
  lemma LeastTagFirst(digest: Digest, prefix: string, tags: seq<Tag>, own: Tag, inputs: Inputs)
    requires own.value != "" && forall t :: t in tags ==> !TagLe(t, own)
    ensures GenerateKey(digest, prefix, tags + [own], inputs) ==
            ("cache:ai:" + prefix) + ((":" + Segment(own)) + Segments(Sort(tags, TagLe))) + (":" + digest(inputs))
  {
    TagLeOrder();
    SortLeastLast(tags, own, TagLe);
    assert ([own] + Sort(tags, TagLe))[1..] == Sort(tags, TagLe);
  }

  lemma Squeezed(head: string, pre: string, x: string, y: string, post: string, end: string)
    ensures head + ((pre + x) + post) + end == head + ((pre + y) + post) + end <==> x == y
  {
    var a, b := head + ((pre + x) + post) + end, head + ((pre + y) + post) + end;
    if a == b {
      var n := |head| + |pre|;
      assert |x| == |y|;
      assert x == a[n..n + |x|] && y == b[n..n + |y|];
    }
  }

  lemma LeastTagDetermined(digest: Digest, prefix: string, tags: seq<Tag>, a: Tag, b: Tag, inputs: Inputs)
    requires a.name == b.name && a.value != "" && b.value != "" && forall t :: t in tags ==> !TagLe(t, a)
    ensures GenerateKey(digest, prefix, tags + [a], inputs) == GenerateKey(digest, prefix, tags + [b], inputs) <==>
            SanitizeTagValue(a.value) == SanitizeTagValue(b.value)
  {
    LeastTagFirst(digest, prefix, tags, a, inputs);
    LeastTagFirst(digest, prefix, tags, b, inputs);
    var pre := ":" + (a.name + "=");
    Regroup(":", a.name + "=", SanitizeTagValue(a.value));
    Regroup(":", b.name + "=", SanitizeTagValue(b.value));
    Squeezed("cache:ai:" + prefix, pre, SanitizeTagValue(a.value), SanitizeTagValue(b.value), Segments(Sort(tags, TagLe)), ":" + digest(inputs));
  }

  lemma ContentKeyIs(digest: Digest, r: Request)
    ensures r.contentHash == "" <==> KeysOf(digest, r).content == None
    ensures r.contentHash != "" ==>
              KeysOf(digest, r).content ==
              Some(GenerateKey(digest, VERIFICATION.prefix, OtherTags(r) + [Tag("content_hash", r.contentHash)], Inputs([r.service], Given(r))))
  {
    VerificationArguments(r);
    assert CallOf(r).kwargs["content_hash"] == Some(r.contentHash);
    assert ContentInputs(VERIFICATION, CallOf(r)) == Inputs([r.service], Given(r));
  }

  /** The evidence is part of the content key and the artifacts are not: two requests with evidence
      share that key exactly when they agree in service, in all other arguments and in the content
      hash, as far as sanitizing leaves it; a hexadecimal hash it leaves as it is. */
  lemma ContentKeysExactly(digest: Digest, r: Request, s: Request)
    requires Ideal(digest) && r.contentHash != "" && s.contentHash != ""
    ensures KeysOf(digest, r).content.Some? && KeysOf(digest, s).content.Some?
    ensures KeysOf(digest, r).content == KeysOf(digest, s).content <==>
            r.service == s.service && Given(r) == Given(s) && SanitizeTagValue(r.contentHash) == SanitizeTagValue(s.contentHash)
    ensures Clean(r.contentHash) && Clean(s.contentHash) ==>
              (KeysOf(digest, r).content == KeysOf(digest, s).content <==>
               r.service == s.service && Given(r) == Given(s) && r.contentHash == s.contentHash)
  {
    ContentKeyIs(digest, r);
    ContentKeyIs(digest, s);
    SanitizedIsClean(r.contentHash);
    SanitizedIsClean(s.contentHash);
    if KeysOf(digest, r).content == KeysOf(digest, s).content {
      SharedKeySameArguments(digest, r, s, KeysOf(digest, r).content.value);
    }
    if r.service == s.service && Given(r) == Given(s) {
      OtherTagsGiven(r, s);
      forall t | t in OtherTags(r) ensures !TagLe(t, Tag("content_hash", r.contentHash)) {
        OtherTagsFollow(r, t, r.contentHash);
      }
      LeastTagDetermined(digest, VERIFICATION.prefix, OtherTags(r), Tag("content_hash", r.contentHash),
                         Tag("content_hash", s.contentHash), Inputs([r.service], Given(r)));
    }
  }

  // ----- What the identity key determines -------------------------------------------------

  lemma PrimaryArguments(r: Request)
    ensures PrimaryInputs(VERIFICATION, CallOf(r)) ==
            Inputs([r.service], Given(r)["artifact_tag" := Some(ArtifactTag(r.artifactIds))])
  {
    var x := PrimaryInputs(VERIFICATION, CallOf(r));
    assert x.kwargs.Keys == Given(r).Keys + {"artifact_tag"};
  }

  lemma PrimaryEndsInDigest(digest: Digest, r: Request)
    ensures exists head :: KeysOf(digest, r).primary == head + ":" + digest(PrimaryInputs(VERIFICATION, CallOf(r)))
  {
    var head := ("cache:ai:" + VERIFICATION.prefix) + Segments(Sort(ResolveTags(VERIFICATION.keyTags, CallOf(r).kwargs), TagLe));
    Regroup(head, ":", digest(PrimaryInputs(VERIFICATION, CallOf(r))));
  }

  lemma {:induction false} JoinedDetermines(a: seq<string>, b: seq<string>)
    requires forall x :: x in a || x in b ==> x != "" && ',' !in x
    ensures Join(a) == Join(b) <==> a == b
  {
    if a == [] || b == [] {
      assert a != [] ==> a[0] in a && Join(a) != "";
      assert b != [] ==> b[0] in b && Join(b) != "";
    } else {
      assert a == [a[0]] + a[1..] && b == [b[0]] + b[1..];
      assert (forall x :: x in a[1..] ==> x in a) && (forall x :: x in b[1..] ==> x in b);
      if Join(a) == Join(b) {
        FirstJoined(a, b);
        JoinedDetermines(a[1..], b[1..]);
      }
    }
  }

  function FirstComma(s: string): (n: nat)
    ensures n <= |s|
  {
    if s == "" || s[0] == ',' then 0 else 1 + FirstComma(s[1..])
  }

  lemma {:induction false} FirstCommaAt(a: string, rest: string)
    requires ',' !in a && (rest == "" || rest[0] == ',')
    ensures FirstComma(a + rest) == |a|
  {
    if a == "" {
      assert a + rest == rest;
    } else {
      FirstCommaAt(a[1..], rest);
      assert (a + rest)[1..] == a[1..] + rest;
      assert a[0] in a;
    }
  }

  lemma FirstOfJoin(ids: seq<string>)
    requires ids != [] && forall x :: x in ids ==> x != "" && ',' !in x
    ensures var s := Join(ids);
            && FirstComma(s) == |ids[0]| && ids[0] == s[..FirstComma(s)]
            && Join(ids[1..]) == (if FirstComma(s) == |s| then "" else s[FirstComma(s) + 1..])
  {
    var rest := if |ids| == 1 then "" else "," + Join(ids[1..]);
    assert ids[0] in ids;
    FirstCommaAt(ids[0], rest);
    assert Join(ids) == ids[0] + rest;
  }

  lemma FirstJoined(a: seq<string>, b: seq<string>)
    requires a != [] && b != [] && Join(a) == Join(b)
    requires forall x :: x in a || x in b ==> x != "" && ',' !in x
    ensures a[0] == b[0] && Join(a[1..]) == Join(b[1..])
  {
    FirstOfJoin(a);
    FirstOfJoin(b);
  }

  lemma SortedJoin(a: seq<string>, b: seq<string>)
    requires forall x :: x in a || x in b ==> x != "" && ',' !in x
    ensures ArtifactTag(a) == ArtifactTag(b) <==> multiset(a) == multiset(b)
  {
    TextLeOrder();
    SortSorts(a, TextLe);
    SortSorts(b, TextLe);
    var x, y := Sort(a, TextLe), Sort(b, TextLe);
    forall id | id in x || id in y ensures id != "" && ',' !in id {
      SameMembers(x, a, id);
      SameMembers(y, b, id);
    }
    JoinedDetermines(x, y);
    if multiset(a) == multiset(b) {
      SortedUnique(x, y, TextLe);
    }
  }

  lemma {:induction false} WithoutNone(tags: seq<Tag>)
    ensures WithoutTags(tags, []) == tags
  {
    if tags == [] {
    } else {
      WithoutNone(tags[1..]);
    }
  }

  lemma SameArguments(r: Request, s: Request)
    ensures PrimaryInputs(VERIFICATION, CallOf(r)) == PrimaryInputs(VERIFICATION, CallOf(s)) <==>
            r.service == s.service && Given(r) == Given(s) && ArtifactTag(r.artifactIds) == ArtifactTag(s.artifactIds)
  {
    PrimaryArguments(r);
    PrimaryArguments(s);
    var a, b := Given(r)["artifact_tag" := Some(ArtifactTag(r.artifactIds))], Given(s)["artifact_tag" := Some(ArtifactTag(s.artifactIds))];
    assert a["artifact_tag"] == Some(ArtifactTag(r.artifactIds)) && b["artifact_tag"] == Some(ArtifactTag(s.artifactIds));
    assert Given(r) == a - {"artifact_tag"} && Given(s) == b - {"artifact_tag"};
    assert [r.service][0] == r.service && [s.service][0] == s.service;
  }

  lemma SamePrimaryKey(digest: Digest, r: Request, s: Request)
    requires PrimaryInputs(VERIFICATION, CallOf(r)) == PrimaryInputs(VERIFICATION, CallOf(s))
    ensures KeysOf(digest, r).primary == KeysOf(digest, s).primary
  {
    var a, b := CallOf(r).kwargs, CallOf(s).kwargs;
    forall n | n in VERIFICATION.keyTags ensures TextArg(a, n) == TextArg(b, n) {
      assert n != "content_hash";
      assert TextArg(a, n) == TextArg(a - {"content_hash"}, n) && TextArg(b, n) == TextArg(b - {"content_hash"}, n);
    }
    TagsAgree(VERIFICATION.keyTags, a, b, []);
    WithoutNone(ResolveTags(VERIFICATION.keyTags, a));
    WithoutNone(ResolveTags(VERIFICATION.keyTags, b));
  }

  lemma PrimaryKeyExactly(digest: Digest, r: Request, s: Request)
    requires Ideal(digest)
    ensures KeysOf(digest, r).primary == KeysOf(digest, s).primary <==>
            PrimaryInputs(VERIFICATION, CallOf(r)) == PrimaryInputs(VERIFICATION, CallOf(s))
  {
    if KeysOf(digest, r).primary == KeysOf(digest, s).primary {
      PrimaryEndsInDigest(digest, r);
      PrimaryEndsInDigest(digest, s);
      var x, y := PrimaryInputs(VERIFICATION, CallOf(r)), PrimaryInputs(VERIFICATION, CallOf(s));
      var g :| KeysOf(digest, r).primary == g + ":" + digest(x);
      var h :| KeysOf(digest, s).primary == h + ":" + digest(y);
      LastColon(g, digest(x), h, digest(y));
    }
    if PrimaryInputs(VERIFICATION, CallOf(r)) == PrimaryInputs(VERIFICATION, CallOf(s)) {
      SamePrimaryKey(digest, r, s);
    }
  }

  /** Two requests share the identity key exactly when they agree in service and in all other
      arguments but the content hash, and their sorted artifact ids are one text; where no id is empty
      or has a comma, that is when they list the same artifacts, in whatever order. */
  lemma IdentityKeysExactly(digest: Digest, r: Request, s: Request)
    requires Ideal(digest)
    ensures KeysOf(digest, r).primary == KeysOf(digest, s).primary <==>
            r.service == s.service && Given(r) == Given(s) &&
            Join(Sort(r.artifactIds, TextLe)) == Join(Sort(s.artifactIds, TextLe))
    ensures (forall id :: id in r.artifactIds || id in s.artifactIds ==> id != "" && ',' !in id) ==>
              (KeysOf(digest, r).primary == KeysOf(digest, s).primary <==>
               r.service == s.service && Given(r) == Given(s) && multiset(r.artifactIds) == multiset(s.artifactIds))
  {
    PrimaryKeyExactly(digest, r, s);
    SameArguments(r, s);
    if forall id :: id in r.artifactIds || id in s.artifactIds ==> id != "" && ',' !in id {
      SortedJoin(r.artifactIds, s.artifactIds);
    }
  }

  /** An id with a comma reads like two: one artifact and another two then share their identity key. */
  lemma CommaIdsCollide(digest: Digest, r: Request)
    ensures KeysOf(digest, r.(artifactIds := ["a,b"])).primary == KeysOf(digest, r.(artifactIds := ["a", "b"])).primary
  {
    var one, two := ["a,b"], ["a", "b"];
    assert Sort(one, TextLe) == one;
    assert two[1..] == ["b"] && TextLe("a", "b");
    assert Sort(["b"], TextLe) == ["b"];
    assert Sort(two, TextLe) == two;
    assert ArtifactTag(one) == ArtifactTag(two) by {
      assert one[0] == "a,b" && "a" + "," + "b" == "a,b";
    }
    assert CallOf(r.(artifactIds := one)) == CallOf(r.(artifactIds := two));
  }
}
