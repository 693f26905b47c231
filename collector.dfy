/**
 * The pure parts of the collectors: the filters that decide which fetched records are kept, the
 * Bluesky URI rewrite, and the `transform_*` loops that turn records into posts. Records arrive
 * already fetched and decoded; the timestamp parser, the HTML-to-markdown converter and the
 * regular-expression engine's word-character class are parameters.
 */
module Collector {
  import opened Strings
  import opened Posts
  import opened Tags

  /** The JSON values a status field can hold, as far as Python's truth test is concerned. */
  datatype Json =
    | JNull
    | JBool(b: bool)
    | JInt(n: int)
    | JString(s: string)
    | JList(length: nat)
    | JObject(keys: set<string>)

  /** Python's truth value of a decoded JSON value. */
  predicate Truthy(v: Json)
  {
    match v
    case JNull => false
    case JBool(b) => b
    case JInt(n) => n != 0
    case JString(s) => s != ""
    case JList(n) => n > 0
    case JObject(keys) => keys != {}
  }

  /** A Mastodon status, with the fields the collector reads. */
  datatype MastodonStatus = MastodonStatus(
    inReplyToId: Json,
    reblog: Json,
    createdAt: string,
    url: string,
    username: string,
    content: string)

  /** The `value` of a Bluesky or Kibun record: the keys it has and the fields the collector reads. */
  datatype BlueskyValue = BlueskyValue(keys: set<string>, createdAt: string, text: string)

  datatype BlueskyRecord = BlueskyRecord(uri: string, value: BlueskyValue)

  datatype KibunRecord = KibunRecord(createdAt: string, emoji: string, text: string)

  // ---------------------------------------------------------------- filters

  /** The elements of `s` that `keep` accepts, in order. */
  function Filter<T>(keep: T -> bool, s: seq<T>): (r: seq<T>)
    ensures |r| <= |s|
    decreases |s|
  {
    if s == [] then [] else Filter(keep, s[..|s| - 1]) + (if keep(s[|s| - 1]) then [s[|s| - 1]] else [])
  }

  /** The positions of the accepted elements, in order. */
  function KeptPositions<T>(keep: T -> bool, s: seq<T>): (ps: seq<nat>)
    decreases |s|
  {
    if s == [] then [] else KeptPositions(keep, s[..|s| - 1]) + (if keep(s[|s| - 1]) then [|s| - 1] else [])
  }

  /** Order is preserved: the filter's output is the input at strictly increasing positions, which
      are exactly the positions of the accepted elements. */
  lemma {:induction false} FilterKeepsOrder<T>(keep: T -> bool, s: seq<T>)
    ensures var r, ps := Filter(keep, s), KeptPositions(keep, s);
      && |ps| == |r|
      && (forall k :: 0 <= k < |ps| ==> ps[k] < |s| && r[k] == s[ps[k]] && keep(s[ps[k]]))
      && (forall k, l :: 0 <= k < l < |ps| ==> ps[k] < ps[l])
      && (forall j :: 0 <= j < |s| && keep(s[j]) ==> j in ps)
    decreases |s|
  {
    if s != [] {
      var n := |s| - 1;
      var init := s[..n];
      FilterKeepsOrder(keep, init);
      assert forall k :: 0 <= k < n ==> init[k] == s[k];
    }
  }

  /** An element is kept exactly when it is in the input and accepted. */
  lemma {:induction false} FilterMembers<T>(keep: T -> bool, s: seq<T>, x: T)
    ensures x in Filter(keep, s) <==> x in s && keep(x)
    decreases |s|
  {
    if s != [] {
      var init := s[..|s| - 1];
      FilterMembers(keep, init, x);
      assert s == init + [s[|s| - 1]];
    }
  }

  /** The filter loop: appends each accepted record, in order. */
  method FilterLoop<T>(keep: T -> bool, records: seq<T>) returns (verifiedPosts: seq<T>)
    ensures verifiedPosts == Filter(keep, records)
  {
    verifiedPosts := [];
    for i := 0 to |records|
      invariant verifiedPosts == Filter(keep, records[..i])
    {
      var record := records[i];
      assert records[..i + 1][..i] == records[..i];
      if keep(record) {
        verifiedPosts := verifiedPosts + [record];
      }
    }
    assert records[..|records|] == records;
  }

  /** `collect_mastodon` keeps a status that is neither a reply nor a reblog. */
  predicate KeepMastodon(r: MastodonStatus)
  {
    !Truthy(r.inReplyToId) && !Truthy(r.reblog)
  }

  /** `collect_bluesky` drops a record whose value has an `embed` or a `reply` key. */
  predicate KeepBluesky(r: BlueskyRecord)
  {
    !("embed" in r.value.keys || "reply" in r.value.keys)
  }

  method FilterMastodon(records: seq<MastodonStatus>) returns (verifiedPosts: seq<MastodonStatus>)
    ensures verifiedPosts == Filter(KeepMastodon, records)
  {
    verifiedPosts := FilterLoop(KeepMastodon, records);
  }

  method FilterBluesky(records: seq<BlueskyRecord>) returns (verifiedPosts: seq<BlueskyRecord>)
    ensures verifiedPosts == Filter(KeepBluesky, records)
  {
    verifiedPosts := FilterLoop(KeepBluesky, records);
  }

  /** `collect_kibun` keeps every record, in order. */
  method FilterKibun(records: seq<KibunRecord>) returns (verifiedPosts: seq<KibunRecord>)
    ensures verifiedPosts == records
  {
    verifiedPosts := [];
    for i := 0 to |records|
      invariant verifiedPosts == records[..i]
    {
      verifiedPosts := verifiedPosts + [records[i]];
    }
  }

  /** A status survives exactly when it is in the input and both `in_reply_to_id` and `reblog` are
      falsy. */
  lemma MastodonKept(records: seq<MastodonStatus>, r: MastodonStatus)
    ensures r in Filter(KeepMastodon, records) <==>
      r in records && !Truthy(r.inReplyToId) && !Truthy(r.reblog)
  {
    FilterMembers(KeepMastodon, records, r);
  }

  /** A record is dropped exactly when its value has an `embed` or a `reply` key. */
  lemma BlueskyKept(records: seq<BlueskyRecord>, r: BlueskyRecord)
    requires r in records
    ensures r !in Filter(KeepBluesky, records) <==> "embed" in r.value.keys || "reply" in r.value.keys
  {
    FilterMembers(KeepBluesky, records, r);
  }

  // ---------------------------------------------------------------- Bluesky URIs

  const AtScheme := "at://"
  const ProfilePrefix := "https://reddwarf.app/profile/"
  const PostCollection := "/app.bsky.feed.post/"
  const PostPath := "/post/"

  /** `at_uri.replace("at://", ...).replace("/app.bsky.feed.post/", "/post/")`. */
  function BlueskyUri(atUri: string): string
  {
    ReplaceAll(ReplaceAll(atUri, AtScheme, ProfilePrefix), PostCollection, PostPath)
  }

  predicate NoSlash(s: string)
  {
    forall i :: 0 <= i < |s| ==> s[i] != '/'
  }

  /** The authority of an AT URI is a DID: `did:` and no slash. */
  predicate IsDid(d: string)
  {
    |d| >= 4 && d[..4] == "did:" && NoSlash(d)
  }

  /** In `d + "/app.bsky.feed.post/" + k` the only slashes are the collection's two. */
  lemma SlashesOfRest(d: string, k: string, j: nat)
    requires NoSlash(d) && NoSlash(k)
    requires j < |d + PostCollection + k| && (d + PostCollection + k)[j] == '/'
    ensures j == |d| || j == |d| + 19
  {
  }

  /** `at://` does not occur after the scheme: it needs two slashes in a row. */
  lemma NoSchemeInRest(d: string, k: string)
    requires NoSlash(d) && NoSlash(k)
    ensures forall i :: 0 <= i < |d + PostCollection + k| ==> !OccursAt(d + PostCollection + k, AtScheme, i)
  {
    var rest := d + PostCollection + k;
    forall i | 0 <= i < |rest| && OccursAt(rest, AtScheme, i) ensures false {
      assert rest[i + 3] == AtScheme[3] == '/';
      assert rest[i + 4] == AtScheme[4] == '/';
      SlashesOfRest(d, k, i + 3);
      SlashesOfRest(d, k, i + 4);
    }
  }

  /** The collection path does not start inside the profile prefix or the DID. */
  lemma NoCollectionBefore(d: string, k: string)
    requires IsDid(d) && NoSlash(k)
    ensures var t := ProfilePrefix + d + PostCollection + k;
      forall i :: 0 <= i < |ProfilePrefix + d| ==> !OccursAt(t, PostCollection, i)
  {
    var t := ProfilePrefix + d + PostCollection + k;
    forall i | 0 <= i < |ProfilePrefix + d| ensures !OccursAt(t, PostCollection, i) {
      if i < 29 {
        assert t[..33] == ProfilePrefix + "did:";
        assert t[i] == (ProfilePrefix + "did:")[i];
        assert t[i + 1] == (ProfilePrefix + "did:")[i + 1];
      } else {
        assert t[i] == d[i - 29];
      }
    }
  }

  /** The first replacement turns the scheme into the profile prefix and leaves the rest. */
  lemma SchemeReplaced(d: string, k: string)
    requires NoSlash(d) && NoSlash(k)
    ensures ReplaceAll(AtScheme + d + PostCollection + k, AtScheme, ProfilePrefix)
      == ProfilePrefix + d + PostCollection + k
  {
    NoSchemeInRest(d, k);
    ReplaceOnlyHead3(d, PostCollection, k, AtScheme, ProfilePrefix);
  }

  /** After the collection path, a slash-free record key is copied unchanged. */
  lemma CollectionTail(k: string)
    requires NoSlash(k)
    ensures ReplaceAll(PostCollection + k, PostCollection, PostPath) == PostPath + k
  {
    forall i | 0 <= i < |k| ensures !OccursAt(k, PostCollection, i) {
      assert k[i] != PostCollection[0];
    }
    ReplaceOnlyHead(k, PostCollection, PostPath);
  }

  /** The second replacement turns the collection path into `/post/`. */
  lemma CollectionReplaced(d: string, k: string)
    requires IsDid(d) && NoSlash(k)
    ensures ReplaceAll(ProfilePrefix + d + PostCollection + k, PostCollection, PostPath)
      == ProfilePrefix + d + PostPath + k
  {
    var a := ProfilePrefix + d;
    NoCollectionBefore(d, k);
    assert ProfilePrefix + d + PostCollection + k == a + (PostCollection + k);
    ReplaceAllSkip(a, PostCollection + k, PostCollection, PostPath);
    CollectionTail(k);
    assert ProfilePrefix + d + PostPath + k == a + (PostPath + k);
  }

  /** A post URI `at://{did}/app.bsky.feed.post/{rkey}` becomes
      `https://reddwarf.app/profile/{did}/post/{rkey}`. */
  lemma BlueskyUriOfPost(d: string, k: string)
    requires IsDid(d) && NoSlash(k)
    ensures BlueskyUri(AtScheme + d + PostCollection + k) == ProfilePrefix + d + PostPath + k
  {
    SchemeReplaced(d, k);
    CollectionReplaced(d, k);
  }

  // ---------------------------------------------------------------- transforms

  /** The post `transform_bluesky` makes of one record. */
  function BlueskyPost(r: BlueskyRecord, handle: string, parse: string -> Ts, word: char -> bool): Post
  {
    Post(parse(r.value.createdAt), BlueskyUri(r.uri), "bluesky", handle + " (bluesky)", r.value.text,
      FindTags(word, r.value.text))
  }

  /** The post `transform_mastodon` makes of one status; `markdown` is the HTML-to-markdown
      conversion of its content. */
  function MastodonPost(r: MastodonStatus, parse: string -> Ts, markdown: string -> string, word: char -> bool): Post
  {
    Post(parse(r.createdAt), r.url, "mastodon", r.username + " (mastodon)", markdown(r.content),
      FindTags(word, markdown(r.content)))
  }

  const KibunUri := "https://www.kibun.social/"

  /** The post `transform_kibun` makes of one record. */
  function KibunPost(r: KibunRecord, handle: string, parse: string -> Ts, word: char -> bool): Post
  {
    Post(parse(r.createdAt), KibunUri, "kibun", handle + " (kibun)", r.emoji + " | " + r.text,
      FindTags(word, r.emoji + " | " + r.text))
  }

  /** `transform_bluesky`: one post per record, in order, each built field by field from a fresh
      `NormalizedPost`. */
  method TransformBluesky(posts: seq<BlueskyRecord>, handle: string, parse: string -> Ts, word: char -> bool)
    returns (normalizedPosts: seq<Post>)
    ensures |normalizedPosts| == |posts|
    ensures forall i :: 0 <= i < |posts| ==> normalizedPosts[i] == BlueskyPost(posts[i], handle, parse, word)
    ensures forall i :: 0 <= i < |normalizedPosts| ==>
      normalizedPosts[i].sourceApp == "bluesky" && normalizedPosts[i].tags == FindTags(word, normalizedPosts[i].text)
  {
    normalizedPosts := [];
    for i := 0 to |posts|
      invariant |normalizedPosts| == i
      invariant forall k :: 0 <= k < i ==> normalizedPosts[k] == BlueskyPost(posts[k], handle, parse, word)
    {
      var post := posts[i];
      var np := DefaultPost();
      np := np.(sourceApp := "bluesky");
      np := np.(timestamp := parse(post.value.createdAt));
      var atUri := post.uri;
      np := np.(sourceUri := ReplaceAll(ReplaceAll(atUri, AtScheme, ProfilePrefix), PostCollection, PostPath));
      np := np.(author := handle + " (bluesky)");
      np := np.(text := post.value.text);
      np := np.(tags := np.tags + FindTags(word, np.text));
      assert np.tags == FindTags(word, post.value.text);
      normalizedPosts := normalizedPosts + [np];
    }
  }

  /** `transform_mastodon`. */
  method TransformMastodon(posts: seq<MastodonStatus>, parse: string -> Ts, markdown: string -> string,
    word: char -> bool)
    returns (normalizedPosts: seq<Post>)
    ensures |normalizedPosts| == |posts|
    ensures forall i :: 0 <= i < |posts| ==> normalizedPosts[i] == MastodonPost(posts[i], parse, markdown, word)
    ensures forall i :: 0 <= i < |normalizedPosts| ==>
      normalizedPosts[i].sourceApp == "mastodon" && normalizedPosts[i].tags == FindTags(word, normalizedPosts[i].text)
  {
    normalizedPosts := [];
    for i := 0 to |posts|
      invariant |normalizedPosts| == i
      invariant forall k :: 0 <= k < i ==> normalizedPosts[k] == MastodonPost(posts[k], parse, markdown, word)
    {
      var post := posts[i];
      var np := DefaultPost();
      np := np.(sourceApp := "mastodon");
      np := np.(timestamp := parse(post.createdAt));
      np := np.(sourceUri := post.url);
      np := np.(author := post.username + " (mastodon)");
      np := np.(text := markdown(post.content));
      np := np.(tags := np.tags + FindTags(word, np.text));
      assert np.tags == FindTags(word, markdown(post.content));
      normalizedPosts := normalizedPosts + [np];
    }
  }

  /** `transform_kibun`. */
  method TransformKibun(posts: seq<KibunRecord>, handle: string, parse: string -> Ts, word: char -> bool)
    returns (normalizedPosts: seq<Post>)
    ensures |normalizedPosts| == |posts|
    ensures forall i :: 0 <= i < |posts| ==> normalizedPosts[i] == KibunPost(posts[i], handle, parse, word)
    ensures forall i :: 0 <= i < |normalizedPosts| ==>
      normalizedPosts[i].sourceApp == "kibun" && normalizedPosts[i].tags == FindTags(word, normalizedPosts[i].text)
  {
    normalizedPosts := [];
    for i := 0 to |posts|
      invariant |normalizedPosts| == i
      invariant forall k :: 0 <= k < i ==> normalizedPosts[k] == KibunPost(posts[k], handle, parse, word)
    {
      var post := posts[i];
      var np := DefaultPost();
      np := np.(sourceApp := "kibun");
      np := np.(timestamp := parse(post.createdAt));
      np := np.(sourceUri := KibunUri);
      np := np.(author := handle + " (kibun)");
      np := np.(text := post.emoji + " | " + post.text);
      np := np.(tags := np.tags + FindTags(word, np.text));
      assert np.tags == FindTags(word, post.emoji + " | " + post.text);
      normalizedPosts := normalizedPosts + [np];
    }
  }
}
