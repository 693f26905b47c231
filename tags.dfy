/**
 * `find_tags`: `re.findall(r'#(\w+)', text)`. The scan looks for a `#` followed by a word
 * character; the tag is the longest run of word characters after the `#`, and the scan resumes at
 * the first character after the run.
 *
 * The word-character class `w` is a parameter: Python's Unicode `\w` is one instance. The properties
 * need only that `#` is not a word character.
 */
module Tags {
  import opened Strings

  /** A `#` at `i` followed by a word character: where a match of `#(\w+)` can begin. */
  predicate IsTagStart(w: char -> bool, s: string, i: nat)
  {
    i + 1 < |s| && s[i] == '#' && w(s[i + 1])
  }

  /** The end of the run of word characters that starts at `i`. */
  function WordRunEnd(w: char -> bool, s: string, i: nat): (j: nat)
    requires i <= |s|
    ensures i <= j <= |s|
    ensures forall k :: i <= k < j ==> w(s[k])
    ensures j < |s| ==> !w(s[j])
    decreases |s| - i
  {
    if i < |s| && w(s[i]) then WordRunEnd(w, s, i + 1) else i
  }

  /** The tags found from position `i` on. */
  function TagsFrom(w: char -> bool, s: string, i: nat): seq<string>
    requires i <= |s|
    decreases |s| - i
  {
    if i == |s| then []
    else if IsTagStart(w, s, i) then
      var j := WordRunEnd(w, s, i + 1);
      [s[i + 1..j]] + TagsFrom(w, s, j)
    else TagsFrom(w, s, i + 1)
  }

  function FindTags(w: char -> bool, s: string): seq<string>
  {
    TagsFrom(w, s, 0)
  }

  /** The positions from `i` on where a tag can begin, in increasing order: the reference the scan
      is measured against. */
  function StartsFrom(w: char -> bool, s: string, i: nat): (ps: seq<nat>)
    requires i <= |s|
    decreases |s| - i
  {
    if i == |s| then [] else (if IsTagStart(w, s, i) then [i] else []) + StartsFrom(w, s, i + 1)
  }

  /** The tag that begins at `p`: the maximal run of word characters after the `#`. */
  function TagAt(w: char -> bool, s: string, p: nat): (t: string)
    requires !w('#')
    requires IsTagStart(w, s, p)
    ensures t != "" && (forall c :: c in t ==> w(c)) && '#' !in t
    ensures var e := p + 1 + |t|; e <= |s| && s[p + 1..e] == t && (e == |s| || !w(s[e]))
  {
    var j := WordRunEnd(w, s, p + 1);
    var t := s[p + 1..j];
    assert forall c :: c in t ==> w(c) by {
      forall c | c in t ensures w(c) {
        var m :| 0 <= m < |t| && t[m] == c;
        assert c == s[p + 1 + m];
      }
    }
    t
  }

  /** The positions in `StartsFrom(w, s, i)` are tag starts at or after `i`. */
  lemma {:induction false} StartsAreStarts(w: char -> bool, s: string, i: nat)
    requires i <= |s|
    ensures forall k :: 0 <= k < |StartsFrom(w, s, i)| ==>
      i <= StartsFrom(w, s, i)[k] < |s| && IsTagStart(w, s, StartsFrom(w, s, i)[k])
    decreases |s| - i
  {
    if i < |s| {
      StartsAreStarts(w, s, i + 1);
      var rest := StartsFrom(w, s, i + 1);
      if IsTagStart(w, s, i) {
        assert StartsFrom(w, s, i) == [i] + rest;
        assert forall k :: 1 <= k <= |rest| ==> ([i] + rest)[k] == rest[k - 1];
      } else {
        assert StartsFrom(w, s, i) == rest;
      }
    }
  }

  /** The positions in `StartsFrom(w, s, i)` strictly increase. */
  lemma {:induction false} StartsIncrease(w: char -> bool, s: string, i: nat)
    requires i <= |s|
    ensures forall k, l :: 0 <= k < l < |StartsFrom(w, s, i)| ==> StartsFrom(w, s, i)[k] < StartsFrom(w, s, i)[l]
    decreases |s| - i
  {
    if i < |s| {
      StartsIncrease(w, s, i + 1);
      var rest := StartsFrom(w, s, i + 1);
      if IsTagStart(w, s, i) {
        StartsAreStarts(w, s, i + 1);
        var ps := [i] + rest;
        assert StartsFrom(w, s, i) == ps;
        assert forall k :: 1 <= k < |ps| ==> ps[k] == rest[k - 1] && ps[k] > i;
      } else {
        assert StartsFrom(w, s, i) == rest;
      }
    }
  }

  /** Every tag start at or after `i` is in `StartsFrom(w, s, i)`. */
  lemma {:induction false} StartsComplete(w: char -> bool, s: string, i: nat)
    requires i <= |s|
    ensures forall p :: i <= p < |s| && IsTagStart(w, s, p) ==> p in StartsFrom(w, s, i)
    decreases |s| - i
  {
    if i < |s| {
      StartsComplete(w, s, i + 1);
      var rest := StartsFrom(w, s, i + 1);
      if IsTagStart(w, s, i) {
        assert StartsFrom(w, s, i) == [i] + rest;
      } else {
        assert StartsFrom(w, s, i) == rest;
      }
    }
  }

  /** No tag begins inside a run of word characters (a `#` is not one). */
  lemma {:induction false} SkipRun(w: char -> bool, s: string, i: nat, j: nat)
    requires !w('#')
    requires i <= j <= |s|
    requires forall k :: i <= k < j ==> w(s[k])
    ensures StartsFrom(w, s, i) == StartsFrom(w, s, j)
    decreases j - i
  {
    if i < j {
      assert !IsTagStart(w, s, i);
      SkipRun(w, s, i + 1, j);
    }
  }

  /** The scan finds one tag per tag start, in order, and the tag at each start is the maximal run
      of word characters after its `#`. */
  lemma {:induction false} TagsAreRuns(w: char -> bool, s: string, i: nat)
    requires !w('#')
    requires i <= |s|
    ensures var ts, ps := TagsFrom(w, s, i), StartsFrom(w, s, i);
      && |ts| == |ps|
      && forall k :: 0 <= k < |ts| ==> IsTagStart(w, s, ps[k]) && ts[k] == TagAt(w, s, ps[k])
    decreases |s| - i
  {
    if i < |s| {
      if IsTagStart(w, s, i) {
        var j := WordRunEnd(w, s, i + 1);
        SkipRun(w, s, i + 1, j);
        TagsAreRuns(w, s, j);
        var ts, ps := TagsFrom(w, s, j), StartsFrom(w, s, j);
        assert TagsFrom(w, s, i) == [TagAt(w, s, i)] + ts;
        assert StartsFrom(w, s, i) == [i] + ps;
      } else {
        TagsAreRuns(w, s, i + 1);
        assert StartsFrom(w, s, i) == [] + StartsFrom(w, s, i + 1);
        assert [] + StartsFrom(w, s, i + 1) == StartsFrom(w, s, i + 1);
      }
    }
  }

  /** `find_tags(text)`: the `k`-th tag is the maximal word run after the `k`-th `#` that is followed
      by a word character. */
  lemma FindTagsSpec(w: char -> bool, s: string)
    requires !w('#')
    ensures var ts, ps := FindTags(w, s), StartsFrom(w, s, 0);
      && |ts| == |ps|
      && (forall k :: 0 <= k < |ts| ==> IsTagStart(w, s, ps[k]) && ts[k] == TagAt(w, s, ps[k]))
      && (forall k, l :: 0 <= k < l < |ps| ==> ps[k] < ps[l])
      && (forall p :: 0 <= p < |s| && IsTagStart(w, s, p) ==> p in ps)
  {
    TagsAreRuns(w, s, 0);
    StartsIncrease(w, s, 0);
    StartsComplete(w, s, 0);
  }

  /** Every tag is non-empty, made of word characters only and contains no `#`. */
  lemma TagsWellFormed(w: char -> bool, s: string)
    requires !w('#')
    ensures forall t :: t in FindTags(w, s) ==>
      t != "" && (forall c :: c in t ==> w(c)) && '#' !in t
  {
    var ts, ps := FindTags(w, s), StartsFrom(w, s, 0);
    TagsAreRuns(w, s, 0);
    forall t | t in ts ensures t != "" && (forall c :: c in t ==> w(c)) && '#' !in t {
      var k :| 0 <= k < |ts| && ts[k] == t;
      assert t == TagAt(w, s, ps[k]);
    }
  }

  /** No tags exactly when no `#` is followed by a word character. */
  lemma NoTagsIff(w: char -> bool, s: string)
    requires !w('#')
    ensures FindTags(w, s) == [] <==> forall p :: 0 <= p < |s| ==> !IsTagStart(w, s, p)
  {
    FindTagsSpec(w, s);
    var ps := StartsFrom(w, s, 0);
    if ps != [] {
      assert IsTagStart(w, s, ps[0]);
    }
  }

  /** The number of `#` characters in `s` from `i` on. */
  function HashCount(s: string, i: nat): nat
    requires i <= |s|
    decreases |s| - i
  {
    if i == |s| then 0 else (if s[i] == '#' then 1 else 0) + HashCount(s, i + 1)
  }

  lemma {:induction false} StartsBelowHashes(w: char -> bool, s: string, i: nat)
    requires i <= |s|
    ensures |StartsFrom(w, s, i)| <= HashCount(s, i)
    decreases |s| - i
  {
    if i < |s| {
      StartsBelowHashes(w, s, i + 1);
    }
  }

  /** There are at most as many tags as `#` characters. */
  lemma TagCountBound(w: char -> bool, s: string)
    requires !w('#')
    ensures |FindTags(w, s)| <= HashCount(s, 0)
  {
    TagsAreRuns(w, s, 0);
    StartsBelowHashes(w, s, 0);
  }
}
