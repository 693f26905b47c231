/**
 * Character classes and the few Python string operations the pipeline relies on:
 * `str.strip()`, `"\n".join(...)` and `str.replace(old, new)`.
 */
module Strings {

  /** The code points for which Python's `str.isspace()` holds, as inclusive ranges in ascending order. */
  const SpaceRanges: seq<(int, int)> := [
    (0x09, 0x0D), (0x1C, 0x20), (0x85, 0x85), (0xA0, 0xA0), (0x1680, 0x1680),
    (0x2000, 0x200A), (0x2028, 0x2029), (0x202F, 0x202F), (0x205F, 0x205F), (0x3000, 0x3000)]

  predicate InRanges(n: int, rs: seq<(int, int)>)
  {
    rs != [] && ((rs[0].0 <= n <= rs[0].1) || InRanges(n, rs[1..]))
  }

  /** Python's `str.isspace()`, which is also what `\s` and `[^\s]` mean in a `str` pattern. */
  predicate IsSpace(c: char)
  {
    InRanges(c as int, SpaceRanges)
  }

  lemma {:induction false} BelowRanges(n: int, rs: seq<(int, int)>)
    requires forall i :: 0 <= i < |rs| ==> n < rs[i].0
    ensures !InRanges(n, rs)
    decreases |rs|
  {
    if rs != [] {
      BelowRanges(n, rs[1..]);
    }
  }

  /** No printable ASCII character other than the blank is whitespace. */
  lemma GraphicNotSpace(c: char)
    requires 0x21 <= c as int <= 0x7E
    ensures !IsSpace(c)
  {
    var rs := SpaceRanges;
    var n := c as int;
    assert rs[1..][1..] == rs[2..];
    BelowRanges(n, rs[2..]);
    assert !InRanges(n, rs[1..]);
  }

  /** The line feed is whitespace. */
  lemma NewlineIsSpace()
    ensures IsSpace('\n')
  {
  }

  /** Every character of `s` is whitespace (stated recursively; `AllSpaceIff` gives the indexed form). */
  predicate AllSpace(s: string)
    decreases |s|
  {
    s == [] || (IsSpace(s[0]) && AllSpace(s[1..]))
  }

  lemma {:induction false} AllSpaceIff(s: string)
    ensures AllSpace(s) <==> forall i :: 0 <= i < |s| ==> IsSpace(s[i])
    decreases |s|
  {
    if s != [] {
      AllSpaceIff(s[1..]);
      assert forall i :: 1 <= i < |s| ==> s[1..][i - 1] == s[i];
    }
  }

  lemma {:induction false} AllSpaceConcat(a: string, b: string)
    ensures AllSpace(a + b) <==> AllSpace(a) && AllSpace(b)
    decreases |a|
  {
    if a == [] {
      assert a + b == b;
    } else {
      assert (a + b)[1..] == a[1..] + b;
      AllSpaceConcat(a[1..], b);
    }
  }

  /** True when `s` has no leading and no trailing whitespace. */
  predicate IsStripped(s: string)
  {
    s != [] ==> !IsSpace(s[0]) && !IsSpace(s[|s| - 1])
  }

  /** Python's `s.strip()`: leading and trailing whitespace removed. */
  function Strip(s: string): (r: string)
    ensures |r| <= |s|
    ensures IsStripped(r)
    ensures r == [] <==> AllSpace(s)
    decreases |s|
  {
    if s == [] then []
    else if IsSpace(s[0]) then Strip(s[1..])
    else if IsSpace(s[|s| - 1]) then
      var init := s[..|s| - 1];
      assert s == init + [s[|s| - 1]];
      AllSpaceConcat(init, [s[|s| - 1]]);
      Strip(init)
    else s
  }

  /** `r` sits in `s` at index `i`, with only whitespace before and after it. */
  predicate PaddedAt(s: string, r: string, i: nat)
  {
    i + |r| <= |s| && s[i..i + |r|] == r && AllSpace(s[..i]) && AllSpace(s[i + |r|..])
  }

  /** What `Strip` keeps is a contiguous piece of `s`, with only whitespace before and after it. */
  lemma {:induction false} StripIsInfix(s: string)
    ensures exists i :: PaddedAt(s, Strip(s), i)
    decreases |s|
  {
    var r := Strip(s);
    if s == [] {
      assert PaddedAt(s, r, 0);
    } else if IsSpace(s[0]) {
      StripIsInfix(s[1..]);
      var i :| PaddedAt(s[1..], r, i);
      PaddedCons(s, r, i);
    } else if IsSpace(s[|s| - 1]) {
      StripIsInfix(s[..|s| - 1]);
      var i :| PaddedAt(s[..|s| - 1], r, i);
      PaddedSnoc(s, r, i);
    } else {
      assert s[0..|s|] == s && s[..0] == [] && s[|s|..] == [];
      assert PaddedAt(s, r, 0);
    }
  }

  lemma PaddedCons(s: string, r: string, i: nat)
    requires s != [] && IsSpace(s[0]) && PaddedAt(s[1..], r, i)
    ensures PaddedAt(s, r, i + 1)
  {
    var t := s[1..];
    HeadSlice(s, i);
    AllSpaceConcat([s[0]], t[..i]);
    assert AllSpace([s[0]]);
    assert s[i + 1..i + 1 + |r|] == t[i..i + |r|];
    assert s[i + 1 + |r|..] == t[i + |r|..];
  }

  lemma PaddedSnoc(s: string, r: string, i: nat)
    requires s != [] && IsSpace(s[|s| - 1]) && PaddedAt(s[..|s| - 1], r, i)
    ensures PaddedAt(s, r, i)
  {
    var t := s[..|s| - 1];
    assert s[..i] == t[..i];
    assert s[i..i + |r|] == t[i..i + |r|];
    assert s[i + |r|..] == t[i + |r|..] + [s[|s| - 1]];
    AllSpaceConcat(t[i + |r|..], [s[|s| - 1]]);
    assert AllSpace([s[|s| - 1]]);
  }

  lemma HeadSlice(s: string, i: nat)
    requires i < |s|
    ensures s[..i + 1] == [s[0]] + s[1..][..i]
  {
  }

  /** Python's `"\n".join(lines)`. */
  function JoinLines(lines: seq<string>): string
  {
    if |lines| == 0 then ""
    else if |lines| == 1 then lines[0]
    else JoinLines(lines[..|lines| - 1]) + "\n" + lines[|lines| - 1]
  }

  /** Appending one entry to a non-empty list appends a newline and the entry to the joined text. */
  lemma JoinLinesSnoc(lines: seq<string>, last: string)
    requires lines != []
    ensures JoinLines(lines + [last]) == JoinLines(lines) + "\n" + last
  {
    assert (lines + [last])[..|lines|] == lines;
  }

  /** The joined text starts with the first entry. */
  lemma {:induction false} JoinLinesPrefix(lines: seq<string>)
    requires lines != []
    ensures var r := JoinLines(lines); |lines[0]| <= |r| && r[..|lines[0]|] == lines[0]
    decreases |lines|
  {
    if |lines| > 1 {
      var init := lines[..|lines| - 1];
      JoinLinesPrefix(init);
      assert init[0] == lines[0];
      var r := JoinLines(init) + "\n" + lines[|lines| - 1];
      assert r[..|lines[0]|] == JoinLines(init)[..|lines[0]|];
    }
  }

  /** A list of at least two entries whose last entry is blank joins to a text ending in a newline. */
  lemma JoinLinesEndsWithNewline(lines: seq<string>)
    requires |lines| >= 2 && lines[|lines| - 1] == ""
    ensures var r := JoinLines(lines); r != "" && r[|r| - 1] == '\n'
  {
  }

  /** The joined text ends with the last entry. */
  lemma JoinLinesSuffix(lines: seq<string>)
    requires lines != []
    ensures var r := JoinLines(lines); var l := lines[|lines| - 1];
      |l| <= |r| && r[|r| - |l|..] == l
  {
  }

  /** True when `pat` occurs in `s` at index `i`. */
  predicate OccursAt(s: string, pat: string, i: nat)
  {
    i + |pat| <= |s| && s[i..i + |pat|] == pat
  }

  /** Python's `s.replace(pat, rep)`: every non-overlapping occurrence, scanning left to right. */
  function ReplaceAll(s: string, pat: string, rep: string): string
    requires pat != []
    decreases |s|
  {
    if |s| < |pat| then s
    else if s[..|pat|] == pat then rep + ReplaceAll(s[|pat|..], pat, rep)
    else [s[0]] + ReplaceAll(s[1..], pat, rep)
  }

  /** An occurrence in the tail of `s` is an occurrence in `s` one position further on. */
  lemma OccursAtTail(s: string, pat: string, i: nat)
    requires i < |s|
    ensures OccursAt(s[1..], pat, i) <==> OccursAt(s, pat, i + 1)
  {
    if i + 1 + |pat| <= |s| {
      assert s[1..][i..i + |pat|] == s[i + 1..i + 1 + |pat|];
    }
  }

  /** A string in which `pat` never occurs is left unchanged. */
  lemma {:induction false} ReplaceAllAbsent(s: string, pat: string, rep: string)
    requires pat != []
    requires forall i :: 0 <= i < |s| ==> !OccursAt(s, pat, i)
    ensures ReplaceAll(s, pat, rep) == s
    decreases |s|
  {
    if |s| >= |pat| {
      assert !OccursAt(s, pat, 0);
      forall i | 0 <= i < |s[1..]| ensures !OccursAt(s[1..], pat, i) {
        OccursAtTail(s, pat, i);
      }
      ReplaceAllAbsent(s[1..], pat, rep);
    }
  }

  /** A prefix `a` in which no occurrence starts is copied unchanged. */
  lemma {:induction false} ReplaceAllSkip(a: string, b: string, pat: string, rep: string)
    requires pat != []
    requires forall i :: 0 <= i < |a| ==> !OccursAt(a + b, pat, i)
    ensures ReplaceAll(a + b, pat, rep) == a + ReplaceAll(b, pat, rep)
    decreases |a|
  {
    if a == [] {
      assert a + b == b;
    } else {
      var s, t := a + b, a[1..];
      assert s[1..] == t + b;
      assert ReplaceAll(t + b, pat, rep) == t + ReplaceAll(b, pat, rep) by {
        forall i | 0 <= i < |t| ensures !OccursAt(t + b, pat, i) {
          OccursAtTail(s, pat, i);
        }
        ReplaceAllSkip(t, b, pat, rep);
      }
      ReplaceAllCopy(s, pat, rep);
      assert ReplaceAll(s, pat, rep) == [s[0]] + (t + ReplaceAll(b, pat, rep));
      assert a + ReplaceAll(b, pat, rep) == [s[0]] + (t + ReplaceAll(b, pat, rep)) by {
        assert a == [s[0]] + t;
      }
    }
  }

  /** Without an occurrence at the front, the first character is copied. */
  lemma ReplaceAllCopy(s: string, pat: string, rep: string)
    requires pat != [] && s != [] && !OccursAt(s, pat, 0)
    ensures ReplaceAll(s, pat, rep) == [s[0]] + ReplaceAll(s[1..], pat, rep)
  {
  }

  /** An occurrence at the front is replaced and scanning resumes after it. */
  lemma ReplaceAllHead(b: string, pat: string, rep: string)
    requires pat != []
    ensures ReplaceAll(pat + b, pat, rep) == rep + ReplaceAll(b, pat, rep)
  {
    assert (pat + b)[..|pat|] == pat;
    assert (pat + b)[|pat|..] == b;
  }

  /** An occurrence at the front of a string with no other occurrence is the only one replaced. */
  lemma ReplaceOnlyHead(b: string, pat: string, rep: string)
    requires pat != []
    requires forall i :: 0 <= i < |b| ==> !OccursAt(b, pat, i)
    ensures ReplaceAll(pat + b, pat, rep) == rep + b
  {
    ReplaceAllHead(b, pat, rep);
    ReplaceAllAbsent(b, pat, rep);
  }

  /** `ReplaceOnlyHead` for a text made of three pieces. */
  lemma ReplaceOnlyHead3(x: string, y: string, z: string, pat: string, rep: string)
    requires pat != []
    requires forall i :: 0 <= i < |x + y + z| ==> !OccursAt(x + y + z, pat, i)
    ensures ReplaceAll(pat + x + y + z, pat, rep) == rep + x + y + z
  {
    assert pat + x + y + z == pat + (x + y + z);
    ReplaceOnlyHead(x + y + z, pat, rep);
    assert rep + (x + y + z) == rep + x + y + z;
  }
}
