/**
 * `itertools.groupby(sorted_posts, key=lambda p: p.timestamp.date())`: the maximal runs of consecutive
 * posts that fall on the same calendar date.
 */
module Grouping {
  import opened Posts
  import opened Sorting

  function DayOf(p: Post): nat
  {
    Day(p.timestamp)
  }

  /** The runs, in order; each run is non-empty and its first post is where it starts. */
  function GroupByDay(ps: seq<Post>): (gs: seq<seq<Post>>)
    ensures gs == [] <==> ps == []
    ensures forall i :: 0 <= i < |gs| ==> gs[i] != []
    ensures ps != [] ==> gs[0][0] == ps[0]
    decreases |ps|
  {
    if ps == [] then []
    else
      var rest := GroupByDay(ps[1..]);
      if rest != [] && DayOf(rest[0][0]) == DayOf(ps[0]) then [[ps[0]] + rest[0]] + rest[1..]
      else [[ps[0]]] + rest
  }

  function Flatten(gs: seq<seq<Post>>): seq<Post>
    decreases |gs|
  {
    if gs == [] then [] else gs[0] + Flatten(gs[1..])
  }

  /** The date a non-empty run stands for: the date of its first post. */
  function RunDay(g: seq<Post>): nat
    requires g != []
  {
    DayOf(g[0])
  }

  /** Every post of `g` has the date `d`. */
  predicate OnDay(g: seq<Post>, d: nat)
  {
    forall i :: 0 <= i < |g| ==> DayOf(g[i]) == d
  }

  /** Dates never decrease (neighbour by neighbour). */
  predicate DaysAscend(ps: seq<Post>)
    decreases |ps|
  {
    |ps| <= 1 || (DayOf(ps[0]) <= DayOf(ps[1]) && DaysAscend(ps[1..]))
  }

  /** The set of dates the posts fall on. */
  function Days(ps: seq<Post>): set<nat>
  {
    set p | p in ps :: DayOf(p)
  }

  /** Concatenating the runs gives back the input: nothing is lost, added or reordered. */
  lemma {:induction false} FlattenGroups(ps: seq<Post>)
    ensures Flatten(GroupByDay(ps)) == ps
    decreases |ps|
  {
    if ps != [] {
      var rest := GroupByDay(ps[1..]);
      FlattenGroups(ps[1..]);
      var gs := GroupByDay(ps);
      if rest != [] && DayOf(rest[0][0]) == DayOf(ps[0]) {
        assert gs[1..] == rest[1..];
        assert Flatten(rest) == rest[0] + Flatten(rest[1..]);
        assert ps == [ps[0]] + ps[1..];
      } else {
        assert gs[1..] == rest;
        assert ps == [ps[0]] + ps[1..];
      }
    }
  }

  /** Every run is non-empty and all its posts share its date. */
  predicate RunsOnTheirDays(gs: seq<seq<Post>>)
  {
    forall i :: 0 <= i < |gs| ==> gs[i] != [] && OnDay(gs[i], RunDay(gs[i]))
  }

  /** Neighbouring runs have different dates. */
  predicate NeighboursDiffer(gs: seq<seq<Post>>)
  {
    forall i, j :: 0 <= i < |gs| && 0 <= j < |gs| && j == i + 1 ==>
      gs[i] != [] && gs[j] != [] && RunDay(gs[i]) != RunDay(gs[j])
  }

  /** Runs' dates strictly increase. */
  predicate RunDaysIncrease(gs: seq<seq<Post>>)
  {
    forall i, j :: 0 <= i < j < |gs| ==> gs[i] != [] && gs[j] != [] && RunDay(gs[i]) < RunDay(gs[j])
  }

  /** All posts of a run share its date. */
  lemma {:induction false} GroupsShareDay(ps: seq<Post>)
    ensures RunsOnTheirDays(GroupByDay(ps))
    decreases |ps|
  {
    if ps != [] {
      GroupsShareDay(ps[1..]);
      var rest := GroupByDay(ps[1..]);
      var gs := GroupByDay(ps);
      if rest != [] && DayOf(rest[0][0]) == DayOf(ps[0]) {
        MergedRun(ps[0], rest);
      } else {
        assert gs == [[ps[0]]] + rest;
        assert forall i :: 1 <= i < |gs| ==> gs[i] == rest[i - 1];
      }
    }
  }

  lemma MergedRun(p: Post, rest: seq<seq<Post>>)
    requires RunsOnTheirDays(rest) && rest != [] && DayOf(rest[0][0]) == DayOf(p)
    ensures RunsOnTheirDays([[p] + rest[0]] + rest[1..])
  {
    var gs := [[p] + rest[0]] + rest[1..];
    assert forall i :: 1 <= i < |gs| ==> gs[i] == rest[i];
    assert OnDay(rest[0], DayOf(p));
    assert forall i :: 1 <= i < |gs[0]| ==> gs[0][i] == rest[0][i - 1];
  }

  /** Runs are maximal: neighbouring runs have different dates. */
  lemma {:induction false} NeighbourGroupsDiffer(ps: seq<Post>)
    ensures NeighboursDiffer(GroupByDay(ps))
    decreases |ps|
  {
    if ps != [] {
      NeighbourGroupsDiffer(ps[1..]);
      var rest := GroupByDay(ps[1..]);
      var gs := GroupByDay(ps);
      if rest != [] && DayOf(rest[0][0]) == DayOf(ps[0]) {
        assert gs == [[ps[0]] + rest[0]] + rest[1..];
        assert forall i :: 1 <= i < |gs| ==> gs[i] == rest[i];
        assert RunDay(gs[0]) == RunDay(rest[0]);
      } else {
        assert gs == [[ps[0]]] + rest;
        assert forall i :: 1 <= i < |gs| ==> gs[i] == rest[i - 1];
      }
    }
  }

  lemma {:induction false} AscendFromHead(ps: seq<Post>)
    requires DaysAscend(ps) && ps != []
    ensures forall i :: 0 <= i < |ps| ==> DayOf(ps[0]) <= DayOf(ps[i])
    decreases |ps|
  {
    if |ps| > 1 {
      AscendFromHead(ps[1..]);
      assert forall i :: 1 <= i < |ps| ==> ps[i] == ps[1..][i - 1];
    }
  }

  /** Posts in timestamp order are in date order. */
  lemma {:induction false} SortedDaysAscend(ps: seq<Post>)
    requires Sorted(ps)
    ensures DaysAscend(ps)
    decreases |ps|
  {
    if |ps| > 1 {
      DayMonotone(ps[0].timestamp, ps[1].timestamp);
      SortedDaysAscend(ps[1..]);
    }
  }

  /** Over posts in date order, the runs' dates strictly increase. */
  lemma {:induction false} GroupDaysIncrease(ps: seq<Post>)
    requires DaysAscend(ps)
    ensures RunDaysIncrease(GroupByDay(ps))
    decreases |ps|
  {
    if |ps| > 1 {
      var rest := GroupByDay(ps[1..]);
      GroupDaysIncrease(ps[1..]);
      if DayOf(rest[0][0]) == DayOf(ps[0]) {
        IncreaseMerged(ps[0], rest);
      } else {
        IncreaseFresh(ps[0], rest);
      }
    }
  }

  lemma IncreaseMerged(p: Post, rest: seq<seq<Post>>)
    requires RunDaysIncrease(rest) && rest != [] && rest[0] != [] && DayOf(rest[0][0]) == DayOf(p)
    ensures RunDaysIncrease([[p] + rest[0]] + rest[1..])
  {
    var gs := [[p] + rest[0]] + rest[1..];
    assert forall i :: 1 <= i < |gs| ==> gs[i] == rest[i];
  }

  lemma IncreaseFresh(p: Post, rest: seq<seq<Post>>)
    requires RunDaysIncrease(rest) && rest != [] && rest[0] != [] && DayOf(p) < RunDay(rest[0])
    ensures RunDaysIncrease([[p]] + rest)
  {
    var gs := [[p]] + rest;
    assert forall i :: 1 <= i < |gs| ==> gs[i] == rest[i - 1];
  }

  lemma DaysCons(ps: seq<Post>)
    requires ps != []
    ensures Days(ps) == {DayOf(ps[0])} + Days(ps[1..])
  {
    assert ps == [ps[0]] + ps[1..];
    forall d | d in Days(ps) ensures d in {DayOf(ps[0])} + Days(ps[1..]) {
      var p :| p in ps && DayOf(p) == d;
      if p != ps[0] {
        assert p in ps[1..];
      }
    }
  }

  /** Over posts in date order there is one run per distinct date. */
  lemma {:induction false} GroupCount(ps: seq<Post>)
    requires DaysAscend(ps)
    ensures |GroupByDay(ps)| == |Days(ps)|
    decreases |ps|
  {
    if ps != [] {
      var rest := GroupByDay(ps[1..]);
      DaysCons(ps);
      if |ps| > 1 {
        GroupCount(ps[1..]);
      }
      if rest != [] && DayOf(rest[0][0]) == DayOf(ps[0]) {
        assert ps[1] in ps[1..];
        assert DayOf(ps[0]) in Days(ps[1..]);
      } else {
        NewDay(ps);
      }
    }
  }

  /** When the first post starts a run of its own, no later post has its date. */
  lemma NewDay(ps: seq<Post>)
    requires DaysAscend(ps) && ps != []
    requires var rest := GroupByDay(ps[1..]); !(rest != [] && DayOf(rest[0][0]) == DayOf(ps[0]))
    ensures DayOf(ps[0]) !in Days(ps[1..])
  {
    if |ps| > 1 {
      AscendFromHead(ps[1..]);
      forall p | p in ps[1..] ensures DayOf(p) != DayOf(ps[0]) {
        var i :| 0 <= i < |ps[1..]| && ps[1..][i] == p;
      }
    }
  }
}
