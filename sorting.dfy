/**
 * `sorted(posts, key=lambda p: p.timestamp)`: Python's sort is stable, so equal timestamps keep their
 * input order. The model is an insertion sort; `StableSortUnique` shows that any sorted arrangement
 * that keeps every timestamp's posts in input order is this one, so the choice of algorithm is not
 * part of what the model claims.
 */
module Sorting {
  import opened Posts

  function KeyOf(p: Post): nat
  {
    Key(p.timestamp)
  }

  /** Keys never decrease (stated neighbour by neighbour; `SortedIff` gives the all-pairs form). */
  predicate Sorted(s: seq<Post>)
    decreases |s|
  {
    |s| <= 1 || (KeyOf(s[0]) <= KeyOf(s[1]) && Sorted(s[1..]))
  }

  /** The posts of `s` whose key is `k`, in their order in `s`. */
  function WithKey(s: seq<Post>, k: nat): (r: seq<Post>)
    ensures |r| <= |s|
    decreases |s|
  {
    if s == [] then [] else (if KeyOf(s[0]) == k then [s[0]] else []) + WithKey(s[1..], k)
  }

  /** Puts `x` after every post whose key is at most its own. */
  function Insert(x: Post, s: seq<Post>): (r: seq<Post>)
    ensures |r| == |s| + 1
    ensures r[0] == x || (s != [] && r[0] == s[0])
    decreases |s|
  {
    if s == [] || KeyOf(x) < KeyOf(s[0]) then [x] + s
    else [s[0]] + Insert(x, s[1..])
  }

  function SortByTimestamp(s: seq<Post>): (r: seq<Post>)
    ensures |r| == |s|
    decreases |s|
  {
    if s == [] then [] else Insert(s[|s| - 1], SortByTimestamp(s[..|s| - 1]))
  }

  lemma {:induction false} SortedIff(s: seq<Post>)
    ensures Sorted(s) <==> forall i, j :: 0 <= i < j < |s| ==> KeyOf(s[i]) <= KeyOf(s[j])
    decreases |s|
  {
    if |s| > 1 {
      SortedIff(s[1..]);
      assert forall i :: 1 <= i < |s| ==> s[1..][i - 1] == s[i];
    }
  }

  lemma {:induction false} InsertPermutes(x: Post, s: seq<Post>)
    ensures multiset(Insert(x, s)) == multiset(s) + multiset{x}
    decreases |s|
  {
    if s != [] && KeyOf(x) >= KeyOf(s[0]) {
      InsertPermutes(x, s[1..]);
      assert s == [s[0]] + s[1..];
    }
  }

  lemma {:induction false} InsertSorted(x: Post, s: seq<Post>)
    requires Sorted(s)
    ensures Sorted(Insert(x, s))
    decreases |s|
  {
    if s != [] && KeyOf(x) >= KeyOf(s[0]) {
      InsertSorted(x, s[1..]);
      var t := Insert(x, s[1..]);
      assert ([s[0]] + t)[1..] == t;
    }
  }

  /** `SortByTimestamp` returns the same posts, by multiplicity. */
  lemma {:induction false} SortPermutes(s: seq<Post>)
    ensures multiset(SortByTimestamp(s)) == multiset(s)
    decreases |s|
  {
    if s != [] {
      var init, last := s[..|s| - 1], s[|s| - 1];
      assert s == init + [last];
      assert multiset(s) == multiset(init) + multiset{last};
      SortPermutes(init);
      InsertPermutes(last, SortByTimestamp(init));
    }
  }

  /** `SortByTimestamp` returns the posts in timestamp order. */
  lemma {:induction false} SortSorts(s: seq<Post>)
    ensures Sorted(SortByTimestamp(s))
    decreases |s|
  {
    if s != [] {
      SortSorts(s[..|s| - 1]);
      InsertSorted(s[|s| - 1], SortByTimestamp(s[..|s| - 1]));
    }
  }

  lemma {:induction false} WithKeyAppend(a: seq<Post>, b: seq<Post>, k: nat)
    ensures WithKey(a + b, k) == WithKey(a, k) + WithKey(b, k)
    decreases |a|
  {
    if a == [] {
      assert a + b == b;
    } else {
      var h := if KeyOf(a[0]) == k then [a[0]] else [];
      assert (a + b)[1..] == a[1..] + b;
      assert WithKey(a + b, k) == h + WithKey(a[1..] + b, k);
      WithKeyAppend(a[1..], b, k);
      assert WithKey(a, k) == h + WithKey(a[1..], k);
    }
  }

  /** In a sorted sequence nothing has a key below the first one. */
  lemma {:induction false} BelowHead(s: seq<Post>, k: nat)
    requires Sorted(s) && s != [] && k < KeyOf(s[0])
    ensures WithKey(s, k) == []
    decreases |s|
  {
    if |s| > 1 {
      BelowHead(s[1..], k);
    }
  }

  lemma {:induction false} InsertWithKey(x: Post, s: seq<Post>, k: nat)
    requires Sorted(s)
    ensures WithKey(Insert(x, s), k) == WithKey(s, k) + (if KeyOf(x) == k then [x] else [])
    decreases |s|
  {
    if s == [] {
      assert WithKey([x], k) == (if KeyOf(x) == k then [x] else []) + WithKey([], k);
    } else if KeyOf(x) < KeyOf(s[0]) {
      assert ([x] + s)[1..] == s;
      if KeyOf(x) == k {
        BelowHead(s, k);
      }
    } else {
      var t := Insert(x, s[1..]);
      assert ([s[0]] + t)[1..] == t;
      InsertWithKey(x, s[1..], k);
    }
  }

  /** Stability: the posts that share a timestamp come out in their input order. */
  lemma {:induction false} SortStable(s: seq<Post>, k: nat)
    ensures WithKey(SortByTimestamp(s), k) == WithKey(s, k)
    decreases |s|
  {
    if s != [] {
      var init, last := s[..|s| - 1], s[|s| - 1];
      var h := if KeyOf(last) == k then [last] else [];
      assert WithKey(s, k) == WithKey(init, k) + h by {
        assert s == init + [last];
        WithKeyAppend(init, [last], k);
        assert WithKey([last], k) == h + WithKey([], k);
      }
      assert WithKey(SortByTimestamp(s), k) == WithKey(SortByTimestamp(init), k) + h by {
        SortSorts(init);
        InsertWithKey(last, SortByTimestamp(init), k);
      }
      SortStable(init, k);
    }
  }

  /** The first post of a sorted sequence heads the posts with its key. */
  lemma HeadWithKey(s: seq<Post>)
    requires s != []
    ensures WithKey(s, KeyOf(s[0])) == [s[0]] + WithKey(s[1..], KeyOf(s[0]))
  {
  }

  /** The posts with key `k` after the first post of `s`. */
  lemma TailWithKey(s: seq<Post>, k: nat)
    requires s != []
    ensures WithKey(s[1..], k) == WithKey(s, k)[if KeyOf(s[0]) == k then 1 else 0..]
  {
    var h := if KeyOf(s[0]) == k then [s[0]] else [];
    assert WithKey(s, k) == h + WithKey(s[1..], k);
  }

  /** A post with key `k` exists only if the first key of a sorted sequence is at most `k`. */
  lemma HeadBound(a: seq<Post>, b: seq<Post>)
    requires Sorted(b) && a != []
    requires WithKey(a, KeyOf(a[0])) == WithKey(b, KeyOf(a[0]))
    ensures b != [] && KeyOf(b[0]) <= KeyOf(a[0])
  {
    HeadWithKey(a);
    if b != [] && KeyOf(a[0]) < KeyOf(b[0]) {
      BelowHead(b, KeyOf(a[0]));
      assert false;
    }
  }

  /** Without any post of any key, the sequence is empty. */
  lemma NoKeysEmpty(b: seq<Post>)
    requires forall k :: WithKey(b, k) == []
    ensures b == []
  {
    if b != [] {
      HeadWithKey(b);
      assert false;
    }
  }

  /** A sorted sequence is determined by which posts each key has, in order: sortedness and
      stability together pin the result of a sort down completely. */
  lemma {:induction false} StableSortUnique(a: seq<Post>, b: seq<Post>)
    requires Sorted(a) && Sorted(b)
    requires forall k :: WithKey(a, k) == WithKey(b, k)
    ensures a == b
    decreases |a|
  {
    if a == [] {
      NoKeysEmpty(b);
    } else {
      HeadBound(a, b);
      HeadBound(b, a);
      HeadWithKey(a);
      HeadWithKey(b);
      assert a[0] == WithKey(a, KeyOf(a[0]))[0] == WithKey(b, KeyOf(b[0]))[0] == b[0];
      forall k ensures WithKey(a[1..], k) == WithKey(b[1..], k) {
        TailWithKey(a, k);
        TailWithKey(b, k);
      }
      StableSortUnique(a[1..], b[1..]);
      assert a == [a[0]] + a[1..] && b == [b[0]] + b[1..];
    }
  }

  /** No two posts share a timestamp. */
  predicate DistinctKeys(s: seq<Post>)
  {
    forall i, j :: 0 <= i < j < |s| ==> KeyOf(s[i]) != KeyOf(s[j])
  }

  /** How often `x` is among the posts with key `k`. */
  lemma {:induction false} WithKeyCount(s: seq<Post>, k: nat, x: Post)
    ensures multiset(WithKey(s, k))[x] == if KeyOf(x) == k then multiset(s)[x] else 0
    decreases |s|
  {
    if s != [] {
      WithKeyCount(s[1..], k, x);
      assert s == [s[0]] + s[1..];
    }
  }

  lemma WithKeyOfPermutation(a: seq<Post>, b: seq<Post>, k: nat)
    requires multiset(a) == multiset(b)
    ensures multiset(WithKey(a, k)) == multiset(WithKey(b, k))
  {
    forall x ensures multiset(WithKey(a, k))[x] == multiset(WithKey(b, k))[x] {
      WithKeyCount(a, k, x);
      WithKeyCount(b, k, x);
    }
  }

  lemma {:induction false} MissingKey(s: seq<Post>, k: nat)
    requires forall i :: 0 <= i < |s| ==> KeyOf(s[i]) != k
    ensures WithKey(s, k) == []
    decreases |s|
  {
    if s != [] {
      MissingKey(s[1..], k);
    }
  }

  lemma {:induction false} DistinctAtMostOne(s: seq<Post>, k: nat)
    requires DistinctKeys(s)
    ensures |WithKey(s, k)| <= 1
    decreases |s|
  {
    if s != [] {
      var t := s[1..];
      if KeyOf(s[0]) == k {
        assert forall i :: 0 <= i < |t| ==> KeyOf(t[i]) == KeyOf(s[i + 1]);
        MissingKey(t, k);
      } else {
        assert forall i, j :: 0 <= i < j < |t| ==> t[i] == s[i + 1] && t[j] == s[j + 1];
        DistinctAtMostOne(t, k);
      }
    }
  }

  /** Two sequences of at most one post with the same posts are equal. */
  lemma ShortByMultiset(x: seq<Post>, y: seq<Post>)
    requires |x| <= 1 && multiset(x) == multiset(y)
    ensures x == y
  {
    assert |y| == |multiset(y)| == |multiset(x)| == |x|;
    if |x| == 1 {
      assert x[0] in multiset(y);
      assert y == [y[0]];
    }
  }

  /** With pairwise distinct timestamps the input order does not matter: any rearrangement of the
      posts sorts to the same sequence. */
  lemma SortOrderFree(a: seq<Post>, b: seq<Post>)
    requires multiset(a) == multiset(b) && DistinctKeys(a)
    ensures SortByTimestamp(a) == SortByTimestamp(b)
  {
    forall k ensures WithKey(SortByTimestamp(a), k) == WithKey(SortByTimestamp(b), k) {
      SortStable(a, k);
      SortStable(b, k);
      WithKeyOfPermutation(a, b, k);
      DistinctAtMostOne(a, k);
      ShortByMultiset(WithKey(a, k), WithKey(b, k));
    }
    SortSorts(a);
    SortSorts(b);
    StableSortUnique(SortByTimestamp(a), SortByTimestamp(b));
  }
}
