/**
 * `format_post_to_gemtext`: one post becomes a gemtext fragment made of optional sections, each
 * followed by a blank entry, in a fixed order: the timestamp link, the formatted text, the author and
 * the tags.
 */
module Renderer {
  import opened Strings
  import opened Posts
  import Formatter

  const TagHeader := "*tags used in this post:*"

  /** The optional parts of a rendered post. */
  datatype Section =
    | Stamp(uri: string, time: string)   // `=> {source_uri} {HH:MM:SS (%Z)}`
    | Body(formatted: string)             // the text after `format_links_in_text`
    | Byline(author: string)              // `post author: {author}`
    | TagList(names: seq<string>)         // the header, then one `#tag` line per name

  /** Where a section sits in the fixed order. */
  function Rank(s: Section): nat
  {
    match s
    case Stamp(_, _) => 0
    case Body(_) => 1
    case Byline(_) => 2
    case TagList(_) => 3
  }

  /** The tag section is shown unless the list is empty or is exactly one empty tag. */
  predicate TagsShown(tags: seq<string>)
  {
    tags != [] && tags != [""]
  }

  /** The tags that get a `#tag` line: the non-empty ones, in list order. */
  function NonEmptyTags(tags: seq<string>): (r: seq<string>)
    ensures |r| <= |tags|
    ensures forall i :: 0 <= i < |r| ==> r[i] != ""
    decreases |tags|
  {
    if tags == [] then []
    else NonEmptyTags(tags[..|tags| - 1]) + (if tags[|tags| - 1] != "" then [tags[|tags| - 1]] else [])
  }

  function StampLine(p: Post): string
    requires p.timestamp.At?
  {
    "=> " + p.sourceUri + " " + TimeLabel(p.timestamp.localSeconds, p.timestamp.zone)
  }

  /** The timestamp link, unless the timestamp is the sentinel. */
  function StampPart(p: Post): seq<Section>
  {
    if p.timestamp.At? then [Stamp(p.sourceUri, TimeLabel(p.timestamp.localSeconds, p.timestamp.zone))] else []
  }

  /** The formatted text, unless the text is empty. */
  function BodyPart(p: Post, formatted: string): seq<Section>
  {
    if p.text != "" then [Body(formatted)] else []
  }

  /** The author line, unless the author is empty. */
  function BylinePart(p: Post): seq<Section>
  {
    if p.author != "" then [Byline(p.author)] else []
  }

  /** The tag list, when `TagsShown`. */
  function TagPart(p: Post): seq<Section>
  {
    if TagsShown(p.tags) then [TagList(NonEmptyTags(p.tags))] else []
  }

  /** The sections a post has, in the order they are emitted, when `formatted` is what the text
      formatter made of its text. */
  function Sections(p: Post, formatted: string): seq<Section>
  {
    StampPart(p) + BodyPart(p, formatted) + BylinePart(p) + TagPart(p)
  }

  /** One `#tag` entry per name. */
  function Hashed(names: seq<string>): (r: seq<string>)
    ensures |r| == |names|
    decreases |names|
  {
    if names == [] then [] else Hashed(names[..|names| - 1]) + ["#" + names[|names| - 1]]
  }

  /** The entries of one section; every section ends with a blank entry. */
  function SectionLines(s: Section): (r: seq<string>)
    ensures |r| >= 2 && r[|r| - 1] == ""
  {
    match s
    case Stamp(uri, time) => ["=> " + uri + " " + time, ""]
    case Body(f) => [f, ""]
    case Byline(a) => ["post author: " + a, ""]
    case TagList(names) => [TagHeader] + Hashed(names) + [""]
  }

  /** The entries of several sections: each section's entries, one section after the other. */
  function Emit(ss: seq<Section>): seq<string>
  {
    Concat(SectionBlocks(ss))
  }

  function SectionBlocks(ss: seq<Section>): (r: seq<seq<string>>)
    ensures |r| == |ss|
  {
    seq(|ss|, i requires 0 <= i < |ss| => SectionLines(ss[i]))
  }

  function Concat(ls: seq<seq<string>>): seq<string>
    decreases |ls|
  {
    if ls == [] then [] else Concat(ls[..|ls| - 1]) + ls[|ls| - 1]
  }

  /** The `lines` list `format_post_to_gemtext` builds. */
  function PostLines(p: Post, formatted: string): seq<string>
  {
    Emit(Sections(p, formatted))
  }

  /** `format_post_to_gemtext(p)`. */
  function RenderPost(p: Post): string
  {
    RenderWith(p, Formatter.FormatLinks(p.text))
  }

  /** The rendering of `p` around a given formatting of its text. */
  function RenderWith(p: Post, formatted: string): string
  {
    JoinLines(PostLines(p, formatted))
  }

  lemma AppendAssoc(a: seq<string>, b: seq<string>, c: seq<string>)
    ensures (a + b) + c == a + (b + c)
  {
  }

  lemma AppendFour(a: seq<string>, b: seq<string>, c: seq<string>, d: seq<string>)
    ensures a + b + c + d == a + (b + c + d)
  {
  }

  lemma HashedSnoc(names: seq<string>, t: string)
    ensures Hashed(names + [t]) == Hashed(names) + ["#" + t]
  {
    assert (names + [t])[..|names|] == names;
  }

  lemma NonEmptyTagsStep(tags: seq<string>, i: nat)
    requires i < |tags|
    ensures NonEmptyTags(tags[..i + 1]) == NonEmptyTags(tags[..i]) + (if tags[i] != "" then [tags[i]] else [])
  {
    assert tags[..i + 1][..i] == tags[..i];
  }

  lemma {:induction false} ConcatAppend(a: seq<seq<string>>, b: seq<seq<string>>)
    ensures Concat(a + b) == Concat(a) + Concat(b)
    decreases |b|
  {
    if b == [] {
      assert a + b == a;
    } else {
      var init := b[..|b| - 1];
      assert (a + b)[..|a + b| - 1] == a + init;
      ConcatAppend(a, init);
    }
  }

  lemma EmitAppend(a: seq<Section>, b: seq<Section>)
    ensures Emit(a + b) == Emit(a) + Emit(b)
  {
    assert SectionBlocks(a + b) == SectionBlocks(a) + SectionBlocks(b);
    ConcatAppend(SectionBlocks(a), SectionBlocks(b));
  }

  lemma EmitOne(s: Section)
    ensures Emit([s]) == SectionLines(s)
  {
    var ls := SectionBlocks([s]);
    assert ls == [SectionLines(s)];
    assert ls[..0] == [];
    assert Concat(ls) == Concat(ls[..0]) + ls[0];
  }

  /** The entries of each part, written out. */
  function StampEntries(p: Post): seq<string>
  {
    if p.timestamp.At? then [StampLine(p), ""] else []
  }

  function BodyEntries(p: Post, formatted: string): seq<string>
  {
    if p.text != "" then [formatted, ""] else []
  }

  function BylineEntries(p: Post): seq<string>
  {
    if p.author != "" then ["post author: " + p.author, ""] else []
  }

  function TagEntries(p: Post): seq<string>
  {
    if TagsShown(p.tags) then [TagHeader] + Hashed(NonEmptyTags(p.tags)) + [""] else []
  }

  /** `format_post_to_gemtext`: the four optional blocks, in order, then the entries joined with
      newlines. Each block is a method of its own below. */
  method FormatPostToGemtext(post: Post) returns (r: string)
    ensures r == RenderPost(post)
  {
    var lines: seq<string> := [];
    lines := AppendTimestamp(lines, post);
    assert lines == StampEntries(post);
    lines := AppendText(lines, post);
    lines := AppendAuthor(lines, post);
    lines := AppendTags(lines, post);
    r := JoinLines(lines);
    Assembled(post, Formatter.FormatLinks(post.text), lines);
  }

  /** The timestamp block: the link line, then a blank entry, unless the timestamp is the sentinel. */
  method AppendTimestamp(lines: seq<string>, post: Post) returns (r: seq<string>)
    ensures r == lines + StampEntries(post)
  {
    r := lines;
    if post.timestamp != Missing {
      var dateStr := TimeLabel(post.timestamp.localSeconds, post.timestamp.zone);
      r := r + ["=> " + post.sourceUri + " " + dateStr];
      r := r + [""];
    } else {
      assert lines + [] == lines;
    }
  }

  /** The text block: the formatted text, then a blank entry, unless the text is empty. */
  method AppendText(lines: seq<string>, post: Post) returns (r: seq<string>)
    ensures r == lines + BodyEntries(post, Formatter.FormatLinks(post.text))
  {
    r := lines;
    if post.text != "" {
      var formattedText := Formatter.FormatLinksInText(post.text);
      r := r + [formattedText];
      r := r + [""];
    } else {
      assert lines + [] == lines;
    }
  }

  /** The author block: the byline, then a blank entry, unless the author is empty. */
  method AppendAuthor(lines: seq<string>, post: Post) returns (r: seq<string>)
    ensures r == lines + BylineEntries(post)
  {
    r := lines;
    if post.author != "" {
      r := r + ["post author: " + post.author];
      r := r + [""];
    } else {
      assert lines + [] == lines;
    }
  }

  /** The tag block, when the tags are shown. */
  method AppendTags(lines: seq<string>, post: Post) returns (r: seq<string>)
    ensures r == lines + TagEntries(post)
  {
    if post.tags != [] && post.tags != [""] {
      r := AppendTagList(lines, post.tags);
    } else {
      r := lines;
      assert lines + [] == lines;
    }
  }

  /** The tag block of `format_post_to_gemtext`: the header, one `#tag` entry per non-empty tag
      in list order, then a blank entry. */
  method AppendTagList(lines: seq<string>, tags: seq<string>) returns (r: seq<string>)
    ensures r == lines + ([TagHeader] + Hashed(NonEmptyTags(tags)) + [""])
  {
    r := lines + [TagHeader];
    ghost var prefix := r;
    for i := 0 to |tags|
      invariant r == prefix + Hashed(NonEmptyTags(tags[..i]))
    {
      var tag := tags[i];
      ghost var hashed := Hashed(NonEmptyTags(tags[..i]));
      NonEmptyTagsStep(tags, i);
      if tag != "" {
        HashedSnoc(NonEmptyTags(tags[..i]), tag);
        AppendAssoc(prefix, hashed, ["#" + tag]);
        r := r + ["#" + tag];
      } else {
        assert NonEmptyTags(tags[..i]) + [] == NonEmptyTags(tags[..i]);
      }
    }
    assert tags[..|tags|] == tags;
    r := r + [""];
    AppendFour(lines, [TagHeader], Hashed(NonEmptyTags(tags)), [""]);
  }

  /** The entries the method collects, joined, are the rendering of the post. */
  lemma Assembled(p: Post, f: string, lines: seq<string>)
    requires p.text != "" ==> f == Formatter.FormatLinks(p.text)
    requires lines == StampEntries(p) + BodyEntries(p, f) + BylineEntries(p) + TagEntries(p)
    ensures JoinLines(lines) == RenderPost(p)
  {
    PostLinesByPart(p, f);
    RenderPostWith(p, f);
  }

  /** The rendering does not depend on the formatted text when the post has no text. */
  lemma RenderPostWith(p: Post, f: string)
    requires p.text != "" ==> f == Formatter.FormatLinks(p.text)
    ensures RenderPost(p) == RenderWith(p, f)
  {
    assert BodyPart(p, f) == BodyPart(p, Formatter.FormatLinks(p.text));
  }

  lemma PostLinesByPart(p: Post, f: string)
    ensures PostLines(p, f) == StampEntries(p) + BodyEntries(p, f) + BylineEntries(p) + TagEntries(p)
  {
    var a, b, c, d := StampPart(p), BodyPart(p, f), BylinePart(p), TagPart(p);
    EmitAppend(a + b + c, d);
    EmitAppend(a + b, c);
    EmitAppend(a, b);
    assert Emit(a) == StampEntries(p) by { if a != [] { EmitOne(a[0]); } }
    assert Emit(b) == BodyEntries(p, f) by { if b != [] { EmitOne(b[0]); } }
    assert Emit(c) == BylineEntries(p) by { if c != [] { EmitOne(c[0]); } }
    assert Emit(d) == TagEntries(p) by { if d != [] { EmitOne(d[0]); } }
  }

  /** Sections come in the fixed order, each at most once. */
  lemma SectionsInOrder(p: Post, f: string)
    ensures var ss := Sections(p, f); forall i, j :: 0 <= i < j < |ss| ==> Rank(ss[i]) < Rank(ss[j])
  {
    var a, b, c, d := StampPart(p), BodyPart(p, f), BylinePart(p), TagPart(p);
    assert RanksIn(a, 0, 0);
    assert RanksIn(b, 1, 1);
    assert RanksIn(c, 2, 2);
    assert RanksIn(d, 3, 3);
    RanksConcat(a, b, 0, 0, 1, 1);
    RanksConcat(a + b, c, 0, 1, 2, 2);
    RanksConcat(a + b + c, d, 0, 2, 3, 3);
  }

  /** Ranks strictly increase along `ss` and lie between `lo` and `hi`. */
  predicate RanksIn(ss: seq<Section>, lo: nat, hi: nat)
  {
    && (forall i :: 0 <= i < |ss| ==> lo <= Rank(ss[i]) <= hi)
    && (forall i, j :: 0 <= i < j < |ss| ==> Rank(ss[i]) < Rank(ss[j]))
  }

  lemma RanksConcat(a: seq<Section>, b: seq<Section>, lo: nat, mid: nat, mid': nat, hi: nat)
    requires RanksIn(a, lo, mid) && RanksIn(b, mid', hi) && lo <= mid < mid' <= hi
    ensures RanksIn(a + b, lo, hi)
  {
    var ab := a + b;
    assert forall i :: 0 <= i < |ab| ==> ab[i] == if i < |a| then a[i] else b[i - |a|];
  }

  /** A section is in `Sections(p, f)` exactly when it is in one of the four parts. */
  lemma InSections(p: Post, f: string, s: Section)
    ensures s in Sections(p, f) <==>
      s in StampPart(p) || s in BodyPart(p, f) || s in BylinePart(p) || s in TagPart(p)
  {
  }

  /** The timestamp link is there exactly when the timestamp is not the sentinel, and it links the
      source with the local time of day. */
  lemma StampSection(p: Post, f: string)
    ensures p.timestamp.At? <==> exists s :: s in Sections(p, f) && s.Stamp?
    ensures forall s :: s in Sections(p, f) && s.Stamp? ==>
      p.timestamp.At? && s == Stamp(p.sourceUri, TimeLabel(p.timestamp.localSeconds, p.timestamp.zone))
  {
    if p.timestamp.At? {
      InSections(p, f, StampPart(p)[0]);
    }
    forall s | s in Sections(p, f) && s.Stamp?
      ensures p.timestamp.At? && s == Stamp(p.sourceUri, TimeLabel(p.timestamp.localSeconds, p.timestamp.zone))
    {
      InSections(p, f, s);
    }
  }

  /** The text section is there exactly when the text is non-empty, and holds the formatted text. */
  lemma BodySection(p: Post, f: string)
    ensures p.text != "" <==> exists s :: s in Sections(p, f) && s.Body?
    ensures forall s :: s in Sections(p, f) && s.Body? ==> s == Body(f)
  {
    if p.text != "" {
      InSections(p, f, Body(f));
    }
    forall s | s in Sections(p, f) && s.Body? ensures p.text != "" && s == Body(f) {
      InSections(p, f, s);
    }
  }

  /** The author section is there exactly when the author is non-empty. */
  lemma BylineSection(p: Post, f: string)
    ensures p.author != "" <==> exists s :: s in Sections(p, f) && s.Byline?
    ensures forall s :: s in Sections(p, f) && s.Byline? ==> s == Byline(p.author)
  {
    if p.author != "" {
      InSections(p, f, Byline(p.author));
    }
    forall s | s in Sections(p, f) && s.Byline? ensures p.author != "" && s == Byline(p.author) {
      InSections(p, f, s);
    }
  }

  /** The tag section is there exactly when `TagsShown` holds, and names the non-empty tags. */
  lemma TagSection(p: Post, f: string)
    ensures TagsShown(p.tags) <==> exists s :: s in Sections(p, f) && s.TagList?
    ensures forall s :: s in Sections(p, f) && s.TagList? ==> s == TagList(NonEmptyTags(p.tags))
  {
    if TagsShown(p.tags) {
      InSections(p, f, TagList(NonEmptyTags(p.tags)));
    }
    forall s | s in Sections(p, f) && s.TagList? ensures TagsShown(p.tags) && s == TagList(NonEmptyTags(p.tags)) {
      InSections(p, f, s);
    }
  }

  /** The first two entries of a post with a real timestamp are the link line and a blank. */
  lemma StampComesFirst(p: Post, f: string)
    requires p.timestamp.At?
    ensures var lines := PostLines(p, f); |lines| >= 2 && lines[0] == StampLine(p) && lines[1] == ""
  {
    var ss := Sections(p, f);
    assert ss[0] == StampPart(p)[0];
    EmitPrefix(ss);
  }

  /** The first section's entries come first. */
  lemma EmitPrefix(ss: seq<Section>)
    requires ss != []
    ensures var e := Emit(ss); var h := SectionLines(ss[0]); |h| <= |e| && e[..|h|] == h
  {
    assert ss == [ss[0]] + ss[1..];
    EmitAppend([ss[0]], ss[1..]);
    EmitOne(ss[0]);
  }

  /** At least two entries per section, and the last one is blank. */
  lemma EmitShape(ss: seq<Section>)
    ensures |Emit(ss)| >= 2 * |ss|
    ensures ss != [] ==> Emit(ss)[|Emit(ss)| - 1] == ""
  {
    ConcatShape(SectionBlocks(ss));
  }

  lemma {:induction false} ConcatShape(ls: seq<seq<string>>)
    requires forall i :: 0 <= i < |ls| ==> |ls[i]| >= 2 && ls[i][|ls[i]| - 1] == ""
    ensures |Concat(ls)| >= 2 * |ls|
    ensures ls != [] ==> Concat(ls)[|Concat(ls)| - 1] == ""
    decreases |ls|
  {
    if ls != [] {
      ConcatShape(ls[..|ls| - 1]);
    }
  }

  /** Whatever the formatter returns, a post renders to the empty string exactly when it has no
      section at all, and otherwise to a text ending in a line break. */
  lemma RenderShape(p: Post, f: string)
    ensures RenderWith(p, f) == "" <==>
      p.timestamp.Missing? && p.text == "" && p.author == "" && !TagsShown(p.tags)
    ensures RenderWith(p, f) != "" ==> RenderWith(p, f)[|RenderWith(p, f)| - 1] == '\n'
  {
    var ss := Sections(p, f);
    EmitShape(ss);
    if ss != [] {
      JoinLinesEndsWithNewline(PostLines(p, f));
    }
  }

  /** A post renders to the empty string exactly when it has no section at all. */
  lemma EmptyRenderIff(p: Post)
    ensures RenderPost(p) == "" <==>
      p.timestamp.Missing? && p.text == "" && p.author == "" && !TagsShown(p.tags)
  {
    RenderShape(p, Formatter.FormatLinks(p.text));
  }

  /** A non-empty rendering `r` of a post ends with a line break: every section ends with a blank entry. */
  lemma RenderEndsWithNewline(p: Post, r: string)
    requires r == RenderPost(p) && r != ""
    ensures r[|r| - 1] == '\n'
  {
    var f := Formatter.FormatLinks(p.text);
    assert r == RenderWith(p, f) by {
      RenderPostWith(p, f);
    }
    LastOfRendering(p, f, r);
  }

  lemma LastOfRendering(p: Post, f: string, r: string)
    requires r == RenderWith(p, f) && r != ""
    ensures r[|r| - 1] == '\n'
  {
    RenderShape(p, f);
  }

  /** A freshly constructed post renders to nothing. */
  lemma DefaultPostRendersEmpty()
    ensures RenderPost(DefaultPost()) == ""
  {
    EmptyRenderIff(DefaultPost());
  }

  /** The source application never appears in the output. */
  lemma SourceAppNotRendered(p: Post, app: string)
    ensures RenderPost(p.(sourceApp := app)) == RenderPost(p)
  {
    var f := Formatter.FormatLinks(p.text);
    assert Sections(p.(sourceApp := app), f) == Sections(p, f);
  }

  /** A tag list holding only the empty tag renders like no tags at all. */
  lemma LoneEmptyTagHidden(p: Post)
    ensures RenderPost(p.(tags := [""])) == RenderPost(p.(tags := []))
  {
    var f := Formatter.FormatLinks(p.text);
    assert Sections(p.(tags := [""]), f) == Sections(p.(tags := []), f);
  }

  /** Two empty tags still show the header, but no tag line. */
  lemma TwoEmptyTagsShowHeader()
    ensures TagsShown(["", ""])
    ensures SectionLines(TagList(NonEmptyTags(["", ""]))) == [TagHeader, ""]
  {
    assert ["", ""][..1] == [""];
    assert [""][..0] == [];
  }

  /** A tag gets a line exactly when it is one of the post's tags and is not empty. */
  lemma {:induction false} NonEmptyTagsMembers(tags: seq<string>, t: string)
    ensures t in NonEmptyTags(tags) <==> t in tags && t != ""
    decreases |tags|
  {
    if tags != [] {
      var init := tags[..|tags| - 1];
      NonEmptyTagsMembers(init, t);
      assert tags == init + [tags[|tags| - 1]];
    }
  }

  /** Without empty tags every tag gets its line, in list order. */
  lemma {:induction false} NonEmptyTagsKeepsAll(tags: seq<string>)
    requires forall i :: 0 <= i < |tags| ==> tags[i] != ""
    ensures NonEmptyTags(tags) == tags
    decreases |tags|
  {
    if tags != [] {
      NonEmptyTagsKeepsAll(tags[..|tags| - 1]);
    }
  }
}
