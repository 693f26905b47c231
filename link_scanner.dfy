/**
 * The matcher behind `re.finditer` over the alternation
 *   `\[([^\]]+)\]\(([^\)]+)\)|(https?://[^\s]+)`
 * written as a deterministic scanner. Each match is a tagged value: a markdown link carries the
 * parenthesised target (group 2) and a raw URL carries the matched token (group 3), which is what
 * `_extract_url_from_match` picks by asking which group is set.
 */
module LinkScanner {
  import opened Wrappers
  import opened Strings

  datatype LinkMatch =
    | MarkdownLink(start: nat, end: nat, caption: string, url: string)
    | RawUrl(start: nat, end: nat, url: string)

  /** The first index at or after `from` holding `c`, or `|s|` when there is none. */
  function IndexOf(s: string, c: char, from: nat): (j: nat)
    requires from <= |s|
    ensures from <= j <= |s|
    ensures j < |s| ==> s[j] == c
    ensures forall k :: from <= k < j ==> s[k] != c
    decreases |s| - from
  {
    if from == |s| || s[from] == c then from else IndexOf(s, c, from + 1)
  }

  /** The first whitespace index at or after `from`, or `|s|` when there is none. */
  function SpaceIndex(s: string, from: nat): (j: nat)
    requires from <= |s|
    ensures from <= j <= |s|
    ensures j < |s| ==> IsSpace(s[j])
    ensures forall k :: from <= k < j ==> !IsSpace(s[k])
    decreases |s| - from
  {
    if from == |s| || IsSpace(s[from]) then from else SpaceIndex(s, from + 1)
  }

  predicate HasPrefixAt(s: string, p: nat, prefix: string)
  {
    p + |prefix| <= |s| && s[p..p + |prefix|] == prefix
  }

  /** The first alternative at position `p`: `[`, a run of non-`]` up to the first `]`, `(`, a run of
      non-`)` up to the first `)`, and `)`. Both runs must be non-empty. */
  function MarkdownAt(s: string, p: nat): (r: Option<LinkMatch>)
    requires p <= |s|
    ensures r.Some? ==> r.value.MarkdownLink? && r.value.start == p && p < r.value.end <= |s|
  {
    if p < |s| && s[p] == '[' then
      var q := IndexOf(s, ']', p + 1);
      if q > p + 1 && q + 1 < |s| && s[q + 1] == '(' then
        var e := IndexOf(s, ')', q + 2);
        if e > q + 2 && e < |s| then Some(MarkdownLink(p, e + 1, s[p + 1..q], s[q + 2..e]))
        else None
      else None
    else None
  }

  /** The second alternative at position `p`: `http://` or `https://` and then the longest non-empty
      run of non-whitespace characters. */
  function RawAt(s: string, p: nat): (r: Option<LinkMatch>)
    requires p <= |s|
    ensures r.Some? ==> r.value.RawUrl? && r.value.start == p && p < r.value.end <= |s|
  {
    var n := if HasPrefixAt(s, p, "https://") then 8 else if HasPrefixAt(s, p, "http://") then 7 else 0;
    if n == 0 then None
    else
      var e := SpaceIndex(s, p + n);
      if e > p + n then Some(RawUrl(p, e, s[p..e])) else None
  }

  /** The alternation at one position: the markdown form is tried first. */
  function MatchAt(s: string, p: nat): (r: Option<LinkMatch>)
    requires p <= |s|
    ensures r.Some? ==> r.value.start == p && p < r.value.end <= |s|
    ensures MarkdownAt(s, p).Some? ==> r == MarkdownAt(s, p)
    ensures MarkdownAt(s, p).None? ==> r == RawAt(s, p)
  {
    var m := MarkdownAt(s, p);
    if m.Some? then m else RawAt(s, p)
  }

  /** The leftmost match starting at or after `from` (one step of `re.finditer`). */
  function NextMatch(s: string, from: nat): (r: Option<LinkMatch>)
    requires from <= |s|
    ensures r.Some? ==> from <= r.value.start <= |s| && MatchAt(s, r.value.start) == r
    ensures r.Some? ==> forall q :: from <= q < r.value.start ==> MatchAt(s, q).None?
    ensures r.None? ==> forall q :: from <= q <= |s| ==> MatchAt(s, q).None?
    decreases |s| - from
  {
    if from == |s| then None
    else
      var m := MatchAt(s, from);
      if m.Some? then m else NextMatch(s, from + 1)
  }

  /** No match starts anywhere in `[lo, hi)`. */
  predicate NoMatchIn(s: string, lo: nat, hi: nat)
    requires hi <= |s| + 1
  {
    forall q :: lo <= q < hi ==> MatchAt(s, q).None?
  }

  /** `ms` is what `re.finditer` yields on `s` from position `from`: the first match is the leftmost
      one at or after `from`, the rest is the scan resumed at its end, and an empty scan means no
      match starts at or after `from`. */
  predicate IsScan(s: string, ms: seq<LinkMatch>, from: nat)
    decreases |ms|
  {
    && from <= |s|
    && if ms == [] then NoMatchIn(s, from, |s| + 1)
       else
         && from <= ms[0].start <= |s|
         && MatchAt(s, ms[0].start) == Some(ms[0])
         && NoMatchIn(s, from, ms[0].start)
         && IsScan(s, ms[1..], ms[0].end)
  }

  /** All matches from `from` on, left to right. */
  function Matches(s: string, from: nat): (ms: seq<LinkMatch>)
    requires from <= |s|
    ensures IsScan(s, ms, from)
    decreases |s| - from
  {
    match NextMatch(s, from)
    case None => []
    case Some(m) =>
      var ms := [m] + Matches(s, m.end);
      assert ms[1..] == Matches(s, m.end);
      ms
  }

  /** A scan is determined by the text: `Matches` is the only sequence `re.finditer` could yield. */
  lemma {:induction false} ScanUnique(s: string, ms: seq<LinkMatch>, from: nat)
    requires IsScan(s, ms, from)
    ensures ms == Matches(s, from)
    decreases |ms|
  {
    var m := NextMatch(s, from);
    if ms != [] {
      var first := ms[0];
      assert MatchAt(s, first.start).Some?;
      assert m.Some?;
      assert MatchAt(s, m.value.start).Some?;
      assert m.value.start == first.start;
      ScanUnique(s, ms[1..], first.end);
    }
  }

  /** Where the scan resumes before match `i`: the end of the previous match, or `from`. */
  function ResumeAt(ms: seq<LinkMatch>, i: nat, from: nat): nat
    requires i <= |ms|
  {
    if i == 0 then from else ms[i - 1].end
  }

  /** Match `i` starts at or after the end of match `i - 1` (matches are in order and never overlap),
      and it is the leftmost match from there. */
  lemma {:induction false} ScanAt(s: string, ms: seq<LinkMatch>, from: nat, i: nat)
    requires IsScan(s, ms, from)
    requires i < |ms|
    ensures ResumeAt(ms, i, from) <= ms[i].start < ms[i].end <= |s|
    ensures MatchAt(s, ms[i].start) == Some(ms[i])
    ensures NoMatchIn(s, ResumeAt(ms, i, from), ms[i].start)
    decreases i
  {
    if i > 0 {
      ScanAt(s, ms[1..], ms[0].end, i - 1);
      assert ms[1..][i - 1] == ms[i];
      if i > 1 { assert ms[1..][i - 2] == ms[i - 1]; }
    }
  }

  /** Matches lie in the text after `from`, are not empty, and come in order without overlapping. */
  lemma {:induction false} ScanOrdered(s: string, ms: seq<LinkMatch>, from: nat)
    requires IsScan(s, ms, from)
    ensures forall i :: 0 <= i < |ms| ==> from <= ms[i].start < ms[i].end <= |s|
    ensures forall i, j :: 0 <= i < j < |ms| ==> ms[i].end <= ms[j].start
    decreases |ms|
  {
    if ms != [] {
      var rest := ms[1..];
      ScanOrdered(s, rest, ms[0].end);
      assert forall i :: 0 < i < |ms| ==> ms[i] == rest[i - 1];
    }
  }

  /** After the last match the scan finds nothing more. */
  lemma {:induction false} ScanTail(s: string, ms: seq<LinkMatch>, from: nat)
    requires IsScan(s, ms, from)
    ensures ResumeAt(ms, |ms|, from) <= |s|
    ensures NoMatchIn(s, ResumeAt(ms, |ms|, from), |s| + 1)
    decreases |ms|
  {
    if ms != [] {
      ScanTail(s, ms[1..], ms[0].end);
      if |ms| > 1 { assert ms[1..][|ms| - 2] == ms[|ms| - 1]; }
    }
  }

  /** The two alternatives never both match at one position (one needs `[`, the other `h`), so the
      order of the alternation only decides which group is consulted, never which text is consumed. */
  lemma AlternativesExclusive(s: string, p: nat)
    requires p <= |s|
    ensures !(MarkdownAt(s, p).Some? && RawAt(s, p).Some?)
  {
    if RawAt(s, p).Some? {
      assert s[p] == 'h' by {
        if HasPrefixAt(s, p, "https://") { assert s[p..p + 8][0] == s[p]; }
        else { assert s[p..p + 7][0] == s[p]; }
      }
    }
  }

  lemma PrefixAtConcat(s: string, p: nat, x: string, y: string)
    ensures HasPrefixAt(s, p, x + y) <==> HasPrefixAt(s, p, x) && HasPrefixAt(s, p + |x|, y)
  {
    if HasPrefixAt(s, p, x) && HasPrefixAt(s, p + |x|, y) {
      assert s[p..p + |x + y|] == s[p..p + |x|] + s[p + |x|..p + |x| + |y|];
    }
    if HasPrefixAt(s, p, x + y) {
      assert s[p..p + |x|] == (x + y)[..|x|];
      assert s[p + |x|..p + |x| + |y|] == (x + y)[|x|..];
    }
  }

  lemma IndexOfIs(s: string, c: char, from: nat, j: nat)
    requires from <= j < |s| && s[j] == c
    requires forall k :: from <= k < j ==> s[k] != c
    ensures IndexOf(s, c, from) == j
  {
  }

  lemma SpaceIndexIs(s: string, from: nat, j: nat)
    requires from <= j <= |s| && (j < |s| ==> IsSpace(s[j]))
    requires forall k :: from <= k < j ==> !IsSpace(s[k])
    ensures SpaceIndex(s, from) == j
  {
  }

  /** The markdown form, as text: `[caption](url)` with a non-empty caption free of `]` and a non-empty
      URL free of `)`. */
  predicate IsMarkdownLinkAt(s: string, p: nat, caption: string, url: string)
  {
    && caption != [] && url != []
    && (forall k :: 0 <= k < |caption| ==> caption[k] != ']')
    && (forall k :: 0 <= k < |url| ==> url[k] != ')')
    && HasPrefixAt(s, p, "[" + caption + "](" + url + ")")
  }

  /** The pieces of `[caption](url)` at `p`, one by one. */
  lemma MarkdownPieces(s: string, p: nat, caption: string, url: string)
    ensures HasPrefixAt(s, p, "[" + caption + "](" + url + ")") <==>
      && HasPrefixAt(s, p, "[") && HasPrefixAt(s, p + 1, caption)
      && HasPrefixAt(s, p + 1 + |caption|, "](") && HasPrefixAt(s, p + 3 + |caption|, url)
      && HasPrefixAt(s, p + 3 + |caption| + |url|, ")")
  {
    var a := "[" + caption;
    var b := a + "](";
    var c := b + url;
    PrefixAtConcat(s, p, c, ")");
    PrefixAtConcat(s, p, b, url);
    PrefixAtConcat(s, p, a, "](");
    PrefixAtConcat(s, p, "[", caption);
  }

  /** Every `[caption](url)` at `p` is reported by `MarkdownAt`, with its parenthesised target. */
  lemma MarkdownAtComplete(s: string, p: nat, caption: string, url: string)
    requires p <= |s|
    requires IsMarkdownLinkAt(s, p, caption, url)
    ensures MarkdownAt(s, p) == Some(MarkdownLink(p, p + |caption| + |url| + 4, caption, url))
  {
    var a, b := |caption|, |url|;
    MarkdownChars(s, p, caption, url);
    FirstAfterPiece(s, p + 1, caption, ']');
    FirstAfterPiece(s, p + 3 + a, url, ')');
    MarkdownAtFound(s, p, caption, url);
  }

  /** The characters of `[caption](url)` at `p`. */
  lemma MarkdownChars(s: string, p: nat, caption: string, url: string)
    requires IsMarkdownLinkAt(s, p, caption, url)
    ensures var a, b := |caption|, |url|;
      && p + 4 + a + b <= |s|
      && s[p] == '[' && s[p + 1 + a] == ']' && s[p + 2 + a] == '(' && s[p + 3 + a + b] == ')'
      && HasPrefixAt(s, p + 1, caption) && HasPrefixAt(s, p + 3 + a, url)
  {
    var a, b := |caption|, |url|;
    MarkdownPieces(s, p, caption, url);
    assert s[p..p + 1] == "[";
    assert s[p + 1 + a..p + 3 + a] == "](";
    assert s[p + 3 + a + b..p + 4 + a + b] == ")";
  }

  /** `MarkdownAt` once both closing brackets have been located right after `caption` and `url`. */
  lemma MarkdownAtFound(s: string, p: nat, caption: string, url: string)
    requires caption != [] && url != [] && p + 4 + |caption| + |url| <= |s|
    requires s[p] == '[' && s[p + 2 + |caption|] == '('
    requires IndexOf(s, ']', p + 1) == p + 1 + |caption|
    requires IndexOf(s, ')', p + 3 + |caption|) == p + 3 + |caption| + |url|
    requires HasPrefixAt(s, p + 1, caption) && HasPrefixAt(s, p + 3 + |caption|, url)
    ensures MarkdownAt(s, p) == Some(MarkdownLink(p, p + |caption| + |url| + 4, caption, url))
  {
  }

  /** When `piece` sits at `from`, is free of `c` and is followed by `c`, the first `c` from `from`
      is the one right after it. */
  lemma FirstAfterPiece(s: string, from: nat, piece: string, c: char)
    requires HasPrefixAt(s, from, piece) && from + |piece| < |s| && s[from + |piece|] == c
    requires forall k :: 0 <= k < |piece| ==> piece[k] != c
    ensures IndexOf(s, c, from) == from + |piece|
  {
    assert forall k :: from <= k < from + |piece| ==> s[k] == s[from..from + |piece|][k - from];
    IndexOfIs(s, c, from, from + |piece|);
  }

  /** Whatever `MarkdownAt` reports is a `[caption](url)` in the text. */
  lemma MarkdownAtSound(s: string, p: nat)
    requires p <= |s| && MarkdownAt(s, p).Some?
    ensures var m := MarkdownAt(s, p).value;
      m.end == p + |m.caption| + |m.url| + 4 && IsMarkdownLinkAt(s, p, m.caption, m.url)
  {
    var q := IndexOf(s, ']', p + 1);
    var e := IndexOf(s, ')', q + 2);
    MarkdownFromBrackets(s, p, q, e);
  }

  /** Brackets at `p`, `q`, `q + 1` and `e` with no `]` and no `)` in between form a markdown link. */
  lemma MarkdownFromBrackets(s: string, p: nat, q: nat, e: nat)
    requires p + 1 < q && q + 2 < e < |s|
    requires s[p] == '[' && s[q] == ']' && s[q + 1] == '(' && s[e] == ')'
    requires forall k :: p + 1 <= k < q ==> s[k] != ']'
    requires forall k :: q + 2 <= k < e ==> s[k] != ')'
    ensures IsMarkdownLinkAt(s, p, s[p + 1..q], s[q + 2..e])
  {
    var caption, url := s[p + 1..q], s[q + 2..e];
    MarkdownPieces(s, p, caption, url);
    assert s[p..p + 1] == "[";
    assert s[q..q + 2] == "](";
    assert s[e..e + 1] == ")";
  }

  /** `MarkdownAt` finds exactly the markdown links: it reports `[caption](url)` at `p` if and only if
      the text there has that form; the URL it carries is the parenthesised target. */
  lemma MarkdownAtIff(s: string, p: nat, caption: string, url: string)
    requires p <= |s|
    ensures MarkdownAt(s, p) == Some(MarkdownLink(p, p + |caption| + |url| + 4, caption, url))
      <==> IsMarkdownLinkAt(s, p, caption, url)
  {
    if IsMarkdownLinkAt(s, p, caption, url) {
      MarkdownAtComplete(s, p, caption, url);
    }
    if MarkdownAt(s, p) == Some(MarkdownLink(p, p + |caption| + |url| + 4, caption, url)) {
      MarkdownAtSound(s, p);
    }
  }

  /** The raw form, as text: `http://` or `https://`, then at least one more character, no whitespace
      anywhere, and the token is maximal (whitespace or the end of the text follows). */
  predicate IsRawUrlAt(s: string, p: nat, url: string)
  {
    && HasPrefixAt(s, p, url)
    && ((|url| > 8 && url[..8] == "https://") || (|url| > 7 && url[..7] == "http://"))
    && (forall k :: 0 <= k < |url| ==> !IsSpace(url[k]))
    && (p + |url| == |s| || IsSpace(s[p + |url|]))
  }

  /** The scheme prefixes contain no whitespace. */
  lemma SchemesHaveNoSpace()
    ensures forall k :: 0 <= k < 8 ==> !IsSpace("https://"[k])
    ensures forall k :: 0 <= k < 7 ==> !IsSpace("http://"[k])
  {
    forall k | 0 <= k < 8 ensures !IsSpace("https://"[k]) { GraphicNotSpace("https://"[k]); }
    forall k | 0 <= k < 7 ensures !IsSpace("http://"[k]) { GraphicNotSpace("http://"[k]); }
  }

  /** Every maximal raw URL at `p` is reported by `RawAt`. */
  lemma RawAtComplete(s: string, p: nat, url: string)
    requires p <= |s| && IsRawUrlAt(s, p, url)
    ensures RawAt(s, p) == Some(RawUrl(p, p + |url|, url))
  {
    var n := if HasPrefixAt(s, p, "https://") then 8 else if HasPrefixAt(s, p, "http://") then 7 else 0;
    if |url| > 8 && url[..8] == "https://" {
      HttpsPrefix(s, p, url);
    } else {
      HttpPrefix(s, p, url);
    }
    UrlCharsAt(s, p, url, n);
    SpaceIndexIs(s, p + n, p + |url|);
  }

  lemma HttpsPrefix(s: string, p: nat, url: string)
    requires HasPrefixAt(s, p, url) && |url| > 8 && url[..8] == "https://"
    ensures HasPrefixAt(s, p, "https://")
  {
    assert s[p..p + 8] == s[p..p + |url|][..8];
  }

  lemma HttpPrefix(s: string, p: nat, url: string)
    requires HasPrefixAt(s, p, url) && |url| > 7 && url[..7] == "http://"
    ensures HasPrefixAt(s, p, "http://") && !HasPrefixAt(s, p, "https://")
  {
    assert s[p..p + 7] == s[p..p + |url|][..7];
    assert s[p + 4] == url[4] == ':';
  }

  /** The characters of a URL sitting at `p`, from offset `n` on, are not whitespace. */
  lemma UrlCharsAt(s: string, p: nat, url: string, n: nat)
    requires HasPrefixAt(s, p, url) && forall k :: 0 <= k < |url| ==> !IsSpace(url[k])
    ensures forall k :: p + n <= k < p + |url| ==> !IsSpace(s[k])
  {
    forall k | p + n <= k < p + |url| ensures !IsSpace(s[k]) {
      assert s[k] == s[p..p + |url|][k - p];
    }
  }

  /** Whatever `RawAt` reports is a maximal raw URL in the text. */
  lemma RawAtSound(s: string, p: nat)
    requires p <= |s| && RawAt(s, p).Some?
    ensures var m := RawAt(s, p).value; m.end == p + |m.url| && IsRawUrlAt(s, p, m.url)
  {
    SchemesHaveNoSpace();
    var url := RawAt(s, p).value.url;
    var n := if HasPrefixAt(s, p, "https://") then 8 else 7;
    assert url == s[p..p + |url|];
    if n == 8 {
      assert url[..8] == s[p..p + 8];
      assert forall k :: p <= k < p + 8 ==> s[k] == "https://"[k - p];
    } else {
      assert url[..7] == s[p..p + 7];
      assert forall k :: p <= k < p + 7 ==> s[k] == "http://"[k - p];
    }
  }

  /** `RawAt` finds exactly the maximal raw URLs. */
  lemma RawAtIff(s: string, p: nat, url: string)
    requires p <= |s|
    ensures RawAt(s, p) == Some(RawUrl(p, p + |url|, url)) <==> IsRawUrlAt(s, p, url)
  {
    if IsRawUrlAt(s, p, url) {
      RawAtComplete(s, p, url);
    }
    if RawAt(s, p) == Some(RawUrl(p, p + |url|, url)) {
      RawAtSound(s, p);
    }
  }

  /** A raw URL never contains whitespace. */
  lemma RawUrlHasNoSpace(s: string, p: nat)
    requires p <= |s| && RawAt(s, p).Some?
    ensures forall k :: 0 <= k < |RawAt(s, p).value.url| ==> !IsSpace(RawAt(s, p).value.url[k])
  {
    RawAtSound(s, p);
  }

  /** The alternation matches `m` at `p` exactly when `m` is the markdown link or the raw URL the
      textual pattern describes there. */
  lemma MatchAtIff(s: string, p: nat, m: LinkMatch)
    requires p <= |s|
    ensures MatchAt(s, p) == Some(m) <==>
      || (m.MarkdownLink? && m.start == p && m.end == p + |m.caption| + |m.url| + 4
          && IsMarkdownLinkAt(s, p, m.caption, m.url))
      || (m.RawUrl? && m.start == p && m.end == p + |m.url| && IsRawUrlAt(s, p, m.url))
  {
    AlternativesExclusive(s, p);
    if m.MarkdownLink? {
      MarkdownAtIff(s, p, m.caption, m.url);
    } else {
      RawAtIff(s, p, m.url);
    }
  }
}
