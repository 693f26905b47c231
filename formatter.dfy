/**
 * `format_links_in_text`: every link in a post's text becomes a gemtext link line `=> url` of its
 * own, and the prose around the links becomes separate paragraphs.
 *
 * The lines the source appends to `result_lines` are described here by blocks: a prose paragraph
 * (the stripped text before a match) or a link. Every block is followed by a blank entry; the
 * stripped text after the last match, when non-empty, is the final entry with no blank after it.
 */
module Formatter {
  import opened Wrappers
  import opened Strings
  import opened LinkScanner

  /** `_extract_url_from_match`: the URL a match stands for. For a markdown link it is the
      parenthesised target (the caption is dropped), for a raw URL the whole matched token. */
  function ExtractUrl(s: string, m: LinkMatch): (u: string)
    requires m.start <= |s| && MatchAt(s, m.start) == Some(m)
    ensures u == m.url && m.end <= |s|
    ensures m.MarkdownLink? ==> s[m.start..m.end] == "[" + m.caption + "](" + u + ")"
    ensures m.RawUrl? ==> u == s[m.start..m.end]
  {
    if m.MarkdownLink? then
      MarkdownAtSound(s, m.start);
      m.url
    else
      RawAtSound(s, m.start);
      m.url
  }

  /** What one match contributes: the stripped text between the previous match (or the start of
      the text) and this one, and the URL the match stands for. */
  datatype Piece = Piece(before: string, url: string)

  /** The positions of a scan of a text of length `n`: each match lies in the text, starts at or
      after the end of the previous one and is not empty. */
  predicate Spans(ms: seq<LinkMatch>, n: nat)
  {
    && (forall i :: 0 <= i < |ms| ==> ms[i].start < ms[i].end <= n)
    && (forall i, j :: 0 <= i < j < |ms| ==> ms[i].end <= ms[j].start)
  }

  lemma ScanSpans(text: string, ms: seq<LinkMatch>)
    requires IsScan(text, ms, 0)
    ensures Spans(ms, |text|)
  {
    ScanOrdered(text, ms, 0);
  }

  /** The text between match `i - 1` (or the start) and match `i`, stripped. */
  function Before(text: string, ms: seq<LinkMatch>, i: nat): (t: string)
    requires Spans(ms, |text|) && i < |ms|
    ensures IsStripped(t)
  {
    Strip(text[ResumeAt(ms, i, 0)..ms[i].start])
  }

  /** The pieces of the first `k` matches of the scan `ms` of `text`, in order. */
  function Pieces(text: string, ms: seq<LinkMatch>, k: nat): (ps: seq<Piece>)
    requires Spans(ms, |text|) && k <= |ms|
    ensures |ps| == k
    ensures forall i :: 0 <= i < k ==> ps[i].url == ms[i].url && IsStripped(ps[i].before)
    ensures forall i {:trigger Before(text, ms, i)} :: 0 <= i < k ==> ps[i].before == Before(text, ms, i)
  {
    if k == 0 then [] else Pieces(text, ms, k - 1) + [Piece(Before(text, ms, k - 1), ms[k - 1].url)]
  }

  datatype Block = Prose(text: string) | Link(url: string)

  function BlockLine(b: Block): string
  {
    match b
    case Prose(t) => t
    case Link(u) => "=> " + u
  }

  /** The entries appended for a run of blocks: each block's line, then a blank entry. */
  function Separated(bs: seq<Block>): seq<string>
  {
    if bs == [] then [] else Separated(bs[..|bs| - 1]) + [BlockLine(bs[|bs| - 1]), ""]
  }

  /** A paragraph for the stripped prose `t`, or nothing when `t` is empty. */
  function ProseIfAny(t: string): seq<Block>
  {
    if t == "" then [] else [Prose(t)]
  }

  /** The blocks of the first `k` pieces: each piece's paragraph, if any, then its link. */
  function Blocks(ps: seq<Piece>, k: nat): seq<Block>
    requires k <= |ps|
  {
    if k == 0 then [] else Blocks(ps, k - 1) + ProseIfAny(ps[k - 1].before) + [Link(ps[k - 1].url)]
  }

  /** Where the text after the last match begins. */
  function TailStart(ms: seq<LinkMatch>, n: nat): (t: nat)
    requires Spans(ms, n)
    ensures t == ResumeAt(ms, |ms|, 0) && t <= n
  {
    ResumeAt(ms, |ms|, 0)
  }

  /** The stripped text after the last match. */
  function Remainder(text: string, ms: seq<LinkMatch>): (t: string)
    requires Spans(ms, |text|)
    ensures IsStripped(t)
    ensures t == "" <==> AllSpace(text[TailStart(ms, |text|)..])
  {
    Strip(text[TailStart(ms, |text|)..])
  }

  /** A run of blocks followed by the final entry `tail`, when it is not empty. */
  function Lines(bs: seq<Block>, tail: string): seq<string>
  {
    Separated(bs) + (if tail == "" then [] else [tail])
  }

  /** The final contents of `result_lines` for the scan `ms` of `text`. */
  function LinesOf(text: string, ms: seq<LinkMatch>): seq<string>
    requires Spans(ms, |text|)
  {
    var ps := Pieces(text, ms, |ms|);
    Lines(Blocks(ps, |ps|), Remainder(text, ms))
  }

  /** `re.finditer(combined_pattern, text)`, with the positions every later step relies on. */
  function Links(text: string): (ms: seq<LinkMatch>)
    ensures ms == Matches(text, 0) && Spans(ms, |text|)
  {
    var ms := Matches(text, 0);
    ScanSpans(text, ms);
    ms
  }

  /** The final contents of `result_lines`. */
  function ResultLines(text: string): seq<string>
  {
    LinesOf(text, Links(text))
  }

  /** What `format_links_in_text(text)` returns. */
  function FormatLinks(text: string): string
  {
    JoinLines(ResultLines(text))
  }

  lemma {:induction false} SeparatedAppend(a: seq<Block>, b: seq<Block>)
    ensures Separated(a + b) == Separated(a) + Separated(b)
    decreases |b|
  {
    if b == [] {
      assert a + b == a;
    } else {
      var b' := b[..|b| - 1];
      assert (a + b)[..|a + b| - 1] == a + b';
      SeparatedAppend(a, b');
    }
  }

  /** The entries of `Separated(bs)`, position by position: line of block `j` at `2j`, blank at `2j+1`. */
  lemma {:induction false} SeparatedAt(bs: seq<Block>)
    ensures |Separated(bs)| == 2 * |bs|
    ensures forall j :: 0 <= j < |bs| ==>
      Separated(bs)[2 * j] == BlockLine(bs[j]) && Separated(bs)[2 * j + 1] == ""
    decreases |bs|
  {
    if bs != [] {
      var init := bs[..|bs| - 1];
      var a := Separated(init);
      var lines := Separated(bs);
      SeparatedAt(init);
      assert lines == a + [BlockLine(bs[|bs| - 1]), ""];
      forall j | 0 <= j < |bs|
        ensures lines[2 * j] == BlockLine(bs[j]) && lines[2 * j + 1] == ""
      {
        if j < |init| {
          assert bs[j] == init[j];
          assert lines[2 * j] == a[2 * j] && lines[2 * j + 1] == a[2 * j + 1];
        }
      }
    }
  }

  /** One piece adds its paragraph's two entries, when it has prose, then the link line and a blank. */
  lemma SeparatedStep(ps: seq<Piece>, k: nat)
    requires k < |ps|
    ensures var t := ps[k].before;
      Separated(Blocks(ps, k + 1))
      == Separated(Blocks(ps, k)) + (if t == "" then [] else [t, ""]) + ["=> " + ps[k].url, ""]
  {
    var done := Blocks(ps, k);
    var prose := ProseIfAny(ps[k].before);
    SeparatedAppend(done, prose);
    SeparatedAppend(done + prose, [Link(ps[k].url)]);
    assert Separated([Link(ps[k].url)]) == ["=> " + ps[k].url, ""];
  }

  /** The URLs of the link blocks, in order. */
  function LinkUrls(bs: seq<Block>): seq<string>
  {
    if bs == [] then []
    else LinkUrls(bs[..|bs| - 1]) + (if bs[|bs| - 1].Link? then [bs[|bs| - 1].url] else [])
  }

  lemma {:induction false} LinkUrlsAppend(a: seq<Block>, b: seq<Block>)
    ensures LinkUrls(a + b) == LinkUrls(a) + LinkUrls(b)
    decreases |b|
  {
    if b == [] {
      assert a + b == a;
    } else {
      var b' := b[..|b| - 1];
      assert (a + b)[..|a + b| - 1] == a + b';
      LinkUrlsAppend(a, b');
    }
  }

  /** The URLs the first `k` matches stand for, in order. */
  function MatchUrls(ms: seq<LinkMatch>, k: nat): seq<string>
    requires k <= |ms|
  {
    if k == 0 then [] else MatchUrls(ms, k - 1) + [ms[k - 1].url]
  }

  /** The URLs of the first `k` pieces, in order. */
  function PieceUrls(ps: seq<Piece>, k: nat): seq<string>
    requires k <= |ps|
  {
    if k == 0 then [] else PieceUrls(ps, k - 1) + [ps[k - 1].url]
  }

  lemma {:induction false} LinkPerPiece(ps: seq<Piece>, k: nat)
    requires k <= |ps|
    ensures LinkUrls(Blocks(ps, k)) == PieceUrls(ps, k)
    decreases k
  {
    if k > 0 {
      LinkPerPiece(ps, k - 1);
      BlocksUnfold(ps, k);
      LinkUrlsStep(Blocks(ps, k - 1), ps[k - 1].before, ps[k - 1].url);
      assert PieceUrls(ps, k) == PieceUrls(ps, k - 1) + [ps[k - 1].url];
    }
  }

  lemma BlocksUnfold(ps: seq<Piece>, k: nat)
    requires 0 < k <= |ps|
    ensures Blocks(ps, k) == Blocks(ps, k - 1) + ProseIfAny(ps[k - 1].before) + [Link(ps[k - 1].url)]
  {
  }

  lemma LinkUrlsStep(done: seq<Block>, t: string, u: string)
    ensures LinkUrls(done + ProseIfAny(t) + [Link(u)]) == LinkUrls(done) + [u]
  {
    var prose := ProseIfAny(t);
    LinkUrlsAppend(done, prose);
    LinkUrlsAppend(done + prose, [Link(u)]);
    assert LinkUrls(prose) == [];
    assert LinkUrls([Link(u)]) == [u];
  }

  lemma {:induction false} PieceUrlsOf(text: string, ms: seq<LinkMatch>, k: nat)
    requires Spans(ms, |text|) && k <= |ms|
    ensures PieceUrls(Pieces(text, ms, |ms|), k) == MatchUrls(ms, k)
    decreases k
  {
    if k > 0 {
      PieceUrlsOf(text, ms, k - 1);
    }
  }

  /** Each match contributes exactly one link line, in left-to-right order of the matches, whose
      URL is the match's URL (for a markdown link the parenthesised target, the caption dropped). */
  lemma OneLinkPerMatch(text: string)
    ensures var ms := Links(text); var ps := Pieces(text, ms, |ms|);
      LinkUrls(Blocks(ps, |ps|)) == MatchUrls(ms, |ms|)
  {
    var ms := Links(text);
    var ps := Pieces(text, ms, |ms|);
    LinkPerPiece(ps, |ps|);
    PieceUrlsOf(text, ms, |ms|);
  }

  /** Prose paragraphs are non-empty, carry no surrounding whitespace, and each is directly
      followed by a link: two paragraphs are never adjacent, and a non-empty run ends with a link. */
  predicate WellShaped(bs: seq<Block>)
  {
    && (bs != [] ==> bs[|bs| - 1].Link?)
    && (forall i :: 0 <= i < |bs| && bs[i].Prose? ==> bs[i].text != "" && IsStripped(bs[i].text))
    && (forall i, j :: 0 <= i < |bs| && 0 <= j < |bs| && j == i + 1 && bs[i].Prose? ==> bs[j].Link?)
  }

  /** The blocks of pieces whose prose is stripped are well shaped, and there is one at least
      once a piece has been seen. */
  lemma {:induction false} BlocksShape(ps: seq<Piece>, k: nat)
    requires k <= |ps|
    requires forall i :: 0 <= i < |ps| ==> IsStripped(ps[i].before)
    ensures WellShaped(Blocks(ps, k))
    ensures Blocks(ps, k) == [] <==> k == 0
    decreases k
  {
    if k > 0 {
      BlocksShape(ps, k - 1);
      ShapeStep(Blocks(ps, k - 1), ps[k - 1].before, ps[k - 1].url);
    }
  }

  /** Appending a stripped paragraph, if any, and then a link keeps a run well shaped. */
  lemma ShapeStep(done: seq<Block>, t: string, u: string)
    requires WellShaped(done) && IsStripped(t)
    ensures WellShaped(done + ProseIfAny(t) + [Link(u)])
  {
    var bs := done + ProseIfAny(t) + [Link(u)];
    forall i | 0 <= i < |bs| && bs[i].Prose?
      ensures bs[i].text != "" && IsStripped(bs[i].text)
    {
      if i < |done| { assert bs[i] == done[i]; }
    }
    forall i, j | 0 <= i < |bs| && 0 <= j < |bs| && j == i + 1 && bs[i].Prose?
      ensures bs[j].Link?
    {
      if j < |done| { assert bs[i] == done[i] && bs[j] == done[j]; }
    }
  }

  /** Every block's line is non-blank. */
  lemma BlockLinesNonBlank(bs: seq<Block>)
    requires WellShaped(bs)
    ensures forall j :: 0 <= j < |bs| ==> BlockLine(bs[j]) != ""
  {
  }

  /** Every blank entry directly follows a non-blank one: the first entry is not blank and no two
      adjacent entries are both blank. */
  predicate NoStrayBlank(lines: seq<string>)
  {
    && (lines != [] ==> lines[0] != "")
    && (forall i, j :: 0 <= i < |lines| && 0 <= j < |lines| && j == i + 1 && lines[j] == "" ==> lines[i] != "")
  }

  /** Every blank entry directly follows a non-blank one. */
  lemma BlankEntriesIn(bs: seq<Block>, tail: string)
    requires WellShaped(bs)
    ensures var lines := Lines(bs, tail);
      NoStrayBlank(lines)
  {
    var lines := Lines(bs, tail);
    SeparatedAt(bs);
    BlockLinesNonBlank(bs);
    forall q | 0 <= q < |lines| && q % 2 == 0 ensures lines[q] != "" {
      if q < 2 * |bs| {
        assert lines[q] == BlockLine(bs[q / 2]);
      } else {
        assert lines[q] == tail;
      }
    }
  }

  /** In `result_lines` every blank entry directly follows a non-blank one: there is no leading
      blank and never two blanks in a row, so adjacent links are separated by exactly one blank. */
  lemma BlankEntriesFollowText(text: string)
    ensures var lines := ResultLines(text);
      NoStrayBlank(lines)
  {
    BlankEntriesInLines(text, Links(text));
  }

  lemma BlankEntriesInLines(text: string, ms: seq<LinkMatch>)
    requires Spans(ms, |text|)
    ensures NoStrayBlank(LinesOf(text, ms))
  {
    var ps := Pieces(text, ms, |ms|);
    BlocksShape(ps, |ps|);
    BlankEntriesIn(Blocks(ps, |ps|), Remainder(text, ms));
  }

  /** A match starts with `[` or `h`, so never at a whitespace character. */
  lemma MatchStartChar(s: string, p: nat)
    requires p < |s| && MatchAt(s, p).Some?
    ensures s[p] == '[' || s[p] == 'h'
    ensures !IsSpace(s[p])
  {
    if MarkdownAt(s, p).None? {
      if HasPrefixAt(s, p, "https://") { assert s[p..p + 8][0] == s[p]; }
      else { assert s[p..p + 7][0] == s[p]; }
    }
    GraphicNotSpace(s[p]);
  }

  /** Without matches, `result_lines` is the stripped text alone, or nothing when that is empty. */
  lemma LinesWithoutMatches(text: string)
    ensures LinesOf(text, []) == (if Strip(text) == "" then [] else [Strip(text)])
  {
    assert text[0..] == text;
  }

  /** With no link in the text, the result is the stripped text. */
  lemma NoLinkPassthrough(text: string)
    requires Matches(text, 0) == []
    ensures FormatLinks(text) == Strip(text)
  {
    LinesWithoutMatches(text);
  }

  /** No link starts in the remainder after the last link, so the remainder is copied as prose. */
  lemma NoLinkAfterLast(text: string)
    ensures var ms := Links(text);
      forall q :: TailStart(ms, |text|) <= q <= |text| ==> MatchAt(text, q).None?
  {
    ScanTail(text, Links(text), 0);
  }

  /** Whitespace contains no link. */
  lemma WhitespaceHasNoMatch(text: string)
    requires AllSpace(text)
    ensures Matches(text, 0) == []
  {
    var r := NextMatch(text, 0);
    if r.Some? {
      MatchStartChar(text, r.value.start);
      AllSpaceIff(text);
    }
  }

  /** Empty or all-whitespace text formats to the empty string. */
  lemma WhitespaceFormatsToEmpty(text: string)
    requires AllSpace(text)
    ensures FormatLinks(text) == ""
  {
    WhitespaceHasNoMatch(text);
    NoLinkPassthrough(text);
  }

  /** Joined lines end with a newline exactly when there is a block and no final entry. */
  lemma TrailingNewlineOfLines(bs: seq<Block>, tail: string)
    requires IsStripped(tail)
    ensures var r := JoinLines(Lines(bs, tail));
      (r != "" && r[|r| - 1] == '\n') <==> (bs != [] && tail == "")
  {
    var lines := Lines(bs, tail);
    SeparatedAt(bs);
    if tail != "" {
      JoinLinesSuffix(lines);
      NewlineIsSpace();
    } else if bs != [] {
      JoinLinesEndsWithNewline(lines);
    }
  }

  lemma TrailingNewlineInLines(text: string, ms: seq<LinkMatch>)
    requires Spans(ms, |text|)
    ensures var r := JoinLines(LinesOf(text, ms));
      (r != "" && r[|r| - 1] == '\n') <==> (ms != [] && AllSpace(text[TailStart(ms, |text|)..]))
  {
    var ps := Pieces(text, ms, |ms|);
    BlocksShape(ps, |ps|);
    TrailingNewlineOfLines(Blocks(ps, |ps|), Remainder(text, ms));
  }

  /** The result ends with a newline exactly when the text has a link and only whitespace follows
      the last one. */
  lemma TrailingNewlineIff(text: string)
    ensures var r := FormatLinks(text); var ms := Links(text);
      (r != "" && r[|r| - 1] == '\n') <==> (ms != [] && AllSpace(text[TailStart(ms, |text|)..]))
  {
    TrailingNewlineInLines(text, Links(text));
  }

  /** A text that is a single markdown link formats to that link's target line alone: the caption
      is dropped. */
  lemma SingleMarkdownLink(caption: string, url: string)
    requires caption != [] && url != []
    requires forall k :: 0 <= k < |caption| ==> caption[k] != ']'
    requires forall k :: 0 <= k < |url| ==> url[k] != ')'
    ensures FormatLinks("[" + caption + "](" + url + ")") == "=> " + url + "\n"
  {
    var text := "[" + caption + "](" + url + ")";
    var m := MarkdownLink(0, |text|, caption, url);
    SingleMarkdownLinkScan(text, caption, url);
    LinesOfWholeMatch(text, m);
    assert JoinLines(["=> " + url, ""]) == "=> " + url + "\n";
  }

  /** A match that covers the whole text leaves its link line and a blank. */
  lemma LinesOfWholeMatch(text: string, m: LinkMatch)
    requires 0 == m.start < m.end == |text|
    ensures Spans([m], |text|)
    ensures LinesOf(text, [m]) == ["=> " + m.url, ""]
  {
    var ms := [m];
    PiecesOfWholeMatch(text, m);
    BlocksOfOneLink(m.url);
    assert TailStart(ms, |text|) == |text|;
    assert text[|text|..] == "";
  }

  lemma PiecesOfWholeMatch(text: string, m: LinkMatch)
    requires 0 == m.start < m.end == |text|
    ensures Spans([m], |text|)
    ensures Pieces(text, [m], 1) == [Piece("", m.url)]
  {
    assert Before(text, [m], 0) == Strip(text[0..0]);
  }

  lemma BlocksOfOneLink(u: string)
    ensures Separated(Blocks([Piece("", u)], 1)) == ["=> " + u, ""]
  {
    assert Blocks([Piece("", u)], 1) == [Link(u)];
  }

  lemma SingleMarkdownLinkScan(text: string, caption: string, url: string)
    requires caption != [] && url != []
    requires forall k :: 0 <= k < |caption| ==> caption[k] != ']'
    requires forall k :: 0 <= k < |url| ==> url[k] != ')'
    requires text == "[" + caption + "](" + url + ")"
    ensures Matches(text, 0) == [MarkdownLink(0, |text|, caption, url)]
  {
    var m := MarkdownLink(0, |text|, caption, url);
    assert HasPrefixAt(text, 0, text) by { assert text[0..|text|] == text; }
    MarkdownAtComplete(text, 0, caption, url);
    assert MatchAt(text, 0) == Some(m);
    assert NextMatch(text, 0) == Some(m);
    assert NoMatchIn(text, |text|, |text| + 1) by { assert NextMatch(text, |text|) == None; }
    ScanUnique(text, [m], 0);
  }

  /** One pass of the loop body: the entries it appends are those of the next piece. */
  lemma LoopStep(text: string, ms: seq<LinkMatch>, i: nat, lastEnd: nat)
    requires Spans(ms, |text|) && i < |ms| && lastEnd == ResumeAt(ms, i, 0)
    ensures lastEnd <= ms[i].start <= |text|
    ensures var b := Strip(text[lastEnd..ms[i].start]); var ps := Pieces(text, ms, |ms|);
      Separated(Blocks(ps, i + 1))
      == Separated(Blocks(ps, i)) + (if b == "" then [] else [b, ""]) + ["=> " + ms[i].url, ""]
  {
    var ps := Pieces(text, ms, |ms|);
    assert ps[i].before == Before(text, ms, i);
    SeparatedStep(ps, i);
  }

  /** After the loop, the remaining text completes `result_lines`. */
  lemma LoopEnd(text: string, ms: seq<LinkMatch>, lastEnd: nat, lines: seq<string>)
    requires Spans(ms, |text|) && lastEnd == ResumeAt(ms, |ms|, 0)
    requires lines == Separated(Blocks(Pieces(text, ms, |ms|), |ms|))
    ensures lastEnd <= |text|
    ensures var t := Strip(text[lastEnd..]);
      lines + (if t == "" then [] else [t]) == LinesOf(text, ms)
  {
  }

  /** The loop body's four appends, one entry at a time, seen as whole pairs. */
  lemma AppendedEntries(done: seq<string>, b: string, l: string)
    ensures (if b != "" then done + [b] + [""] else done) + [l] + [""]
      == done + (if b == "" then [] else [b, ""]) + [l, ""]
  {
  }

  /** `format_links_in_text`: the scan loop of the source, appending to `result_lines`. */
  method FormatLinksInText(text: string) returns (r: string)
    ensures r == FormatLinks(text)
  {
    var matches := Links(text);
    ghost var ps := Pieces(text, matches, |matches|);
    var resultLines: seq<string> := [];
    var lastEnd := 0;
    for i := 0 to |matches|
      invariant lastEnd == ResumeAt(matches, i, 0)
      invariant resultLines == Separated(Blocks(ps, i))
    {
      var m := matches[i];
      LoopStep(text, matches, i, lastEnd);
      ghost var done := resultLines;
      var beforeText := Strip(text[lastEnd..m.start]);
      if beforeText != "" {
        resultLines := resultLines + [beforeText];
        resultLines := resultLines + [""];
      }
      ScanAt(text, matches, 0, i);
      var url := ExtractUrl(text, m);
      resultLines := resultLines + ["=> " + url];
      resultLines := resultLines + [""];
      AppendedEntries(done, beforeText, "=> " + url);
      lastEnd := m.end;
    }
    LoopEnd(text, matches, lastEnd, resultLines);
    var remainingText := Strip(text[lastEnd..]);
    if remainingText != "" {
      resultLines := resultLines + [remainingText];
    }
    assert resultLines == LinesOf(text, matches);
    r := JoinLines(resultLines);
  }
}
