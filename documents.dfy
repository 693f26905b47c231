/**
 * `to_gemtext_list` and `to_gemtext`: the posts are sorted by timestamp, split into runs of one
 * calendar date each, and every run becomes one document: a date header, then the rendered posts
 * joined with newlines.
 */
module Documents {
  import opened Strings
  import opened Posts
  import opened Sorting
  import opened Grouping
  import opened Renderer

  /** Where main.py reads a document's date from to name its output file. */
  const DateStart := 2
  const DateEnd := 12

  /** `f"# {day.strftime('%Y-%m-%d')}\n\n"`; the date sits exactly where main.py reads it. */
  function DayHeader(day: nat): (h: string)
    ensures |h| == 14 && h[..DateStart] == "# " && h[DateStart..DateEnd] == DateStr(day) && h[DateEnd..] == "\n\n"
  {
    "# " + DateStr(day) + "\n\n"
  }

  /** `f` applied to every post, in order. */
  function MapPosts(f: Post -> string, g: seq<Post>): (r: seq<string>)
    ensures |r| == |g|
  {
    seq(|g|, j requires 0 <= j < |g| => f(g[j]))
  }

  /** `[format_post_to_gemtext(post) for post in day_post_list]`. */
  function RenderAll(g: seq<Post>): seq<string>
  {
    MapPosts(RenderPost, g)
  }

  /** The document of one run, each post rendered by `render`; its date is the date every post of
      the run shares. */
  function Document(render: Post -> string, g: seq<Post>): string
    requires g != []
  {
    DayHeader(RunDay(g)) + JoinLines(MapPosts(render, g))
  }

  /** The runs of one date each, of the posts in timestamp order. */
  function DayGroups(posts: seq<Post>): (gs: seq<seq<Post>>)
    ensures forall i :: 0 <= i < |gs| ==> gs[i] != []
  {
    GroupByDay(SortByTimestamp(posts))
  }

  function DocumentsOf(render: Post -> string, gs: seq<seq<Post>>): (docs: seq<string>)
    requires forall i :: 0 <= i < |gs| ==> gs[i] != []
    ensures |docs| == |gs|
  {
    seq(|gs|, i requires 0 <= i < |gs| => Document(render, gs[i]))
  }

  /** What `to_gemtext_list(posts)` returns. */
  function Documents(posts: seq<Post>): seq<string>
  {
    DocumentsOf(RenderPost, DayGroups(posts))
  }

  /** `to_gemtext(posts)`. */
  function ToGemtext(posts: seq<Post>): string
  {
    JoinLines(Documents(posts))
  }

  /** `to_gemtext_list`: one document per run, in order. */
  method ToGemtextList(posts: seq<Post>) returns (result: seq<string>)
    ensures result == Documents(posts)
  {
    if posts == [] {
      return [];
    }
    var sortedPosts := SortByTimestamp(posts);
    var groups := GroupByDay(sortedPosts);
    result := [];
    for i := 0 to |groups|
      invariant result == DocumentsOf(RenderPost, groups[..i])
    {
      var dayPosts := groups[i];
      var formattedPosts := RenderDay(dayPosts);
      var dateHeader := DayHeader(DayOf(dayPosts[0]));
      var combined := dateHeader + JoinLines(formattedPosts);
      DocumentsOfSnoc(RenderPost, groups, i);
      result := result + [combined];
    }
    assert groups[..|groups|] == groups;
  }

  /** The list comprehension over one run's posts. */
  method RenderDay(dayPosts: seq<Post>) returns (formattedPosts: seq<string>)
    ensures formattedPosts == RenderAll(dayPosts)
  {
    formattedPosts := [];
    for j := 0 to |dayPosts|
      invariant formattedPosts == RenderAll(dayPosts[..j])
    {
      var s := FormatPostToGemtext(dayPosts[j]);
      MapPostsSnoc(RenderPost, dayPosts, j);
      formattedPosts := formattedPosts + [s];
    }
    assert dayPosts[..|dayPosts|] == dayPosts;
  }

  lemma MapPostsSnoc(f: Post -> string, g: seq<Post>, j: nat)
    requires j < |g|
    ensures MapPosts(f, g[..j + 1]) == MapPosts(f, g[..j]) + [f(g[j])]
  {
    assert forall k :: 0 <= k < j ==> g[..j + 1][k] == g[..j][k];
  }

  lemma DocumentsOfSnoc(render: Post -> string, gs: seq<seq<Post>>, i: nat)
    requires forall k :: 0 <= k < |gs| ==> gs[k] != []
    requires i < |gs|
    ensures DocumentsOf(render, gs[..i + 1]) == DocumentsOf(render, gs[..i]) + [Document(render, gs[i])]
  {
    assert forall k :: 0 <= k < i ==> gs[..i + 1][k] == gs[..i][k];
  }

  /** No posts, no documents; any post, at least one document. */
  lemma NoDocumentsIff(posts: seq<Post>)
    ensures Documents(posts) == [] <==> posts == []
  {
  }

  /** Having the same posts means having the same dates. */
  lemma DaysOfPermutation(a: seq<Post>, b: seq<Post>)
    requires multiset(a) == multiset(b)
    ensures Days(a) == Days(b)
  {
    forall p ensures p in a <==> p in b {
      assert p in a <==> p in multiset(a);
      assert p in b <==> p in multiset(b);
    }
  }

  /** One document per distinct date among the posts. */
  lemma DocumentPerDate(posts: seq<Post>)
    ensures |Documents(posts)| == |Days(posts)|
  {
    var s := SortByTimestamp(posts);
    SortSorts(posts);
    SortedDaysAscend(s);
    GroupCount(s);
    SortPermutes(posts);
    DaysOfPermutation(s, posts);
  }

  /** The runs' dates strictly increase, and each run's posts all fall on its date. */
  lemma DayGroupsOrdered(posts: seq<Post>)
    ensures RunDaysIncrease(DayGroups(posts))
    ensures RunsOnTheirDays(DayGroups(posts))
  {
    var s := SortByTimestamp(posts);
    SortSorts(posts);
    SortedDaysAscend(s);
    GroupDaysIncrease(s);
    GroupsShareDay(s);
  }

  /** Document `i` is the header of its run's date, then the run's rendered posts; the date sits at
      characters 2 to 12. */
  lemma DocumentAt(posts: seq<Post>, i: nat)
    requires i < |Documents(posts)|
    ensures var g := DayGroups(posts)[i]; var doc := Documents(posts)[i];
      && doc == DayHeader(RunDay(g)) + JoinLines(RenderAll(g))
      && doc[..14] == DayHeader(RunDay(g))
      && doc[DateStart..DateEnd] == DateStr(RunDay(g))
  {
    var gs := DayGroups(posts);
    var h := DayHeader(RunDay(gs[i]));
    var doc := h + JoinLines(RenderAll(gs[i]));
    assert doc[..14] == h;
    assert doc[DateStart..DateEnd] == h[DateStart..DateEnd];
  }

  /** The slice main.py names a document's file after is the date of every post in that document. */
  lemma FileNameDate(posts: seq<Post>, i: nat)
    requires i < |Documents(posts)|
    ensures var g, name := DayGroups(posts)[i], Documents(posts)[i][DateStart..DateEnd];
      forall k :: 0 <= k < |g| ==> name == DateStr(DayOf(g[k]))
  {
    DocumentAt(posts, i);
    DayGroupsOrdered(posts);
  }

  /** The runs, one after the other, hold exactly the input posts, in timestamp order, with the
      posts of one timestamp in input order. */
  lemma PostsCovered(posts: seq<Post>)
    ensures multiset(Flatten(DayGroups(posts))) == multiset(posts)
    ensures Sorted(Flatten(DayGroups(posts)))
    ensures forall k :: WithKey(Flatten(DayGroups(posts)), k) == WithKey(posts, k)
  {
    FlattenGroups(SortByTimestamp(posts));
    SortPermutes(posts);
    SortSorts(posts);
    forall k ensures WithKey(Flatten(DayGroups(posts)), k) == WithKey(posts, k) {
      SortStable(posts, k);
    }
  }

  /** With pairwise distinct timestamps the input order does not matter. */
  lemma OrderFree(a: seq<Post>, b: seq<Post>)
    requires multiset(a) == multiset(b) && DistinctKeys(a)
    ensures Documents(a) == Documents(b)
  {
    SortOrderFree(a, b);
  }

  /** `to_gemtext` is empty exactly when there are no posts, and otherwise starts with the header of
      the earliest date. */
  lemma ToGemtextShape(posts: seq<Post>)
    ensures ToGemtext(posts) == "" <==> posts == []
    ensures posts != [] ==> ToGemtext(posts)[..14] == DayHeader(RunDay(DayGroups(posts)[0]))
  {
    if posts != [] {
      var docs := Documents(posts);
      DocumentAt(posts, 0);
      JoinLinesPrefix(docs);
    }
  }
}
