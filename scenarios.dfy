/**
 * A small job graph on which the walk is worked out completely, showing
 * that what the filter keeps depends on the order in which it meets the
 * matching jobs.
 *
 *   P produces a;  R consumes a and c and produces b;  S produces c;  Q consumes b.
 *
 * Ids: P = 0, R = 1, S = 2, Q = 3.  Started from P, the walk goes up to R and
 * on up to Q, but never down from R to S.  Started from Q, it goes down to R
 * and from there down to P and S.
 */
module Scenarios {
  import opened Seqs
  import opened JobIndex
  import opened Closure
  import Reach

  /** The indexes `run` builds for the four jobs, given outright. */
  function Crossing(): (s: State)
    ensures s.Valid()
  {
    var jobs := [Job(["a"], [], "P"), Job(["b"], ["a", "c"], "R"), Job(["c"], [], "S"), Job([], ["b"], "Q")];
    State(jobs, map["a" := [0], "b" := [1], "c" := [2]], map["a" := [1], "b" := [3], "c" := [1]], [], true)
  }

  /** The facts about Crossing() that the walk looks at. */
  ghost predicate Shaped(s: State)
  {
    && s.Valid() && |s.jobList| == 4
    && s.jobList[0].ts == ["a"] && s.jobList[0].ds == []
    && s.jobList[1].ts == ["b"] && s.jobList[1].ds == ["a", "c"]
    && s.jobList[2].ts == ["c"] && s.jobList[2].ds == []
    && s.jobList[3].ts == [] && s.jobList[3].ds == ["b"]
    && "a" in s.jobsOfT && s.jobsOfT["a"] == [0]
    && "b" in s.jobsOfT && s.jobsOfT["b"] == [1]
    && "c" in s.jobsOfT && s.jobsOfT["c"] == [2]
    && "a" in s.jobsOfD && s.jobsOfD["a"] == [1]
    && "b" in s.jobsOfD && s.jobsOfD["b"] == [3]
    && "c" in s.jobsOfD && s.jobsOfD["c"] == [1]
  }

  lemma CrossingIsShaped()
    ensures Shaped(Crossing())
  {
  }

  /** One fresh job walked on its own. */
  lemma WalkOne(s: State, j: nat, seen: set<nat>, max: set<nat>, upward: bool, downward: bool)
    requires s.Valid() && j < |s.jobList| && j in max && j !in seen
    ensures var up := if upward then ExpandUp(s, j, 0, seen + {j}, max) else Expanded([], seen + {j});
      var down := if downward then ExpandDown(s, j, 0, up.seen, max) else Expanded([], up.seen);
      down.Expanded? ==> ExpandList(s, [j], seen, max, upward, downward) == Expanded([j] + up.out + down.out, down.seen)
  {
    assert [j][1..] == [];
    var up := if upward then ExpandUp(s, j, 0, seen + {j}, max) else Expanded([], seen + {j});
    var down := if downward then ExpandDown(s, j, 0, up.seen, max) else Expanded([], up.seen);
    if down.Expanded? {
      assert ExpandList(s, [], down.seen, max, upward, downward) == Expanded([], down.seen);
      assert [j] + up.out + down.out + [] == [j] + up.out + down.out;
    }
  }

  /** A job already seen adds nothing. */
  lemma AlreadySeen(s: State, j: nat, seen: set<nat>)
    requires s.Valid() && j < |s.jobList| && j in seen
    ensures ExpandList(s, [j], seen, {0, 1, 2, 3}, true, true) == Expanded([], seen)
  {
    assert [j][1..] == [];
    assert ExpandList(s, [], seen, {0, 1, 2, 3}, true, true) == Expanded([], seen);
  }

  /** The sequence joins the walk from P builds. */
  lemma JoinsFromP()
    ensures [3] + [] + [] == [3] && [3] + [] == [3]
    ensures [1] + [3] + [] == [1, 3] && [1, 3] + [] == [1, 3]
    ensures [0, 3][1..] == [3] && [0] + [1, 3] + [] + [] == [0, 1, 3]
  {
  }

  /** The sequence joins the walk from Q builds. */
  lemma JoinsFromQ()
    ensures [0] + [] + [] == [0] && [2] + [] + [] == [2] && [2] + [] == [2] && [0] + [2] == [0, 2]
    ensures [1] + [] + [0, 2] == [1, 0, 2] && [1, 0, 2] + [] == [1, 0, 2]
    ensures [3, 0][1..] == [0] && [3] + [] + [1, 0, 2] + [] == [3, 1, 0, 2]
  {
  }

  // Each lemma below evaluates one call of the walk, using the ones before
  // it for the calls it makes.

  lemma QHasNothingAbove(s: State)
    requires Shaped(s)
    ensures ExpandList(s, [3], {0, 1}, {0, 1, 2, 3}, true, false) == Expanded([3], {0, 1, 3})
  {
    assert {0, 1} + {3} == {0, 1, 3};
    assert ExpandUp(s, 3, 0, {0, 1, 3}, {0, 1, 2, 3}) == Expanded([], {0, 1, 3});
    WalkOne(s, 3, {0, 1}, {0, 1, 2, 3}, true, false);
    JoinsFromP();
  }

  lemma RLabelsUp(s: State)
    requires Shaped(s)
    ensures ExpandUp(s, 1, 0, {0, 1}, {0, 1, 2, 3}) == Expanded([3], {0, 1, 3})
  {
    QHasNothingAbove(s);
    assert ExpandUp(s, 1, 1, {0, 1, 3}, {0, 1, 2, 3}) == Expanded([], {0, 1, 3});
    JoinsFromP();
  }

  lemma CrossingAboveR(s: State)
    requires Shaped(s)
    ensures ExpandList(s, [1], {0}, {0, 1, 2, 3}, true, false) == Expanded([1, 3], {0, 1, 3})
  {
    assert {0} + {1} == {0, 1};
    RLabelsUp(s);
    WalkOne(s, 1, {0}, {0, 1, 2, 3}, true, false);
    JoinsFromP();
  }

  lemma PLabelsUp(s: State)
    requires Shaped(s)
    ensures ExpandUp(s, 0, 0, {0}, {0, 1, 2, 3}) == Expanded([1, 3], {0, 1, 3})
  {
    CrossingAboveR(s);
    assert ExpandUp(s, 0, 1, {0, 1, 3}, {0, 1, 2, 3}) == Expanded([], {0, 1, 3});
    JoinsFromP();
  }

  /**
   * Started from the matching jobs P and Q in this order, the walk yields
   * P, R and Q and never S: R was reached upward, so it is only walked
   * further upward.
   */
  lemma CrossingFromP(s: State)
    requires Shaped(s)
    ensures ExpandList(s, [0, 3], {}, {0, 1, 2, 3}, true, true) == Expanded([0, 1, 3], {0, 1, 3})
  {
    var all := {0, 1, 2, 3};
    assert {} + {0} == {0};
    PLabelsUp(s);
    assert ExpandDown(s, 0, 0, {0, 1, 3}, all) == Expanded([], {0, 1, 3});
    FreshUnfold(s, [0, 3], {}, all, true, true);
    JoinsFromP();
    AlreadySeen(s, 3, {0, 1, 3});
  }

  lemma PHasNothingBelow(s: State)
    requires Shaped(s)
    ensures ExpandList(s, [0], {1, 3}, {0, 1, 2, 3}, false, true) == Expanded([0], {0, 1, 3})
  {
    assert {1, 3} + {0} == {0, 1, 3};
    assert ExpandDown(s, 0, 0, {0, 1, 3}, {0, 1, 2, 3}) == Expanded([], {0, 1, 3});
    WalkOne(s, 0, {1, 3}, {0, 1, 2, 3}, false, true);
    JoinsFromQ();
  }

  lemma SHasNothingBelow(s: State)
    requires Shaped(s)
    ensures ExpandList(s, [2], {0, 1, 3}, {0, 1, 2, 3}, false, true) == Expanded([2], {0, 1, 2, 3})
  {
    assert {0, 1, 3} + {2} == {0, 1, 2, 3};
    assert ExpandDown(s, 2, 0, {0, 1, 2, 3}, {0, 1, 2, 3}) == Expanded([], {0, 1, 2, 3});
    WalkOne(s, 2, {0, 1, 3}, {0, 1, 2, 3}, false, true);
    JoinsFromQ();
  }

  lemma RSecondLabelDown(s: State)
    requires Shaped(s)
    ensures ExpandDown(s, 1, 1, {0, 1, 3}, {0, 1, 2, 3}) == Expanded([2], {0, 1, 2, 3})
  {
    SHasNothingBelow(s);
    assert ExpandDown(s, 1, 2, {0, 1, 2, 3}, {0, 1, 2, 3}) == Expanded([], {0, 1, 2, 3});
    JoinsFromQ();
  }

  lemma RLabelsDown(s: State)
    requires Shaped(s)
    ensures ExpandDown(s, 1, 0, {1, 3}, {0, 1, 2, 3}) == Expanded([0, 2], {0, 1, 2, 3})
  {
    PHasNothingBelow(s);
    RSecondLabelDown(s);
    JoinsFromQ();
  }

  /** Walking down from R reaches P and then S. */
  lemma CrossingBelowR(s: State)
    requires Shaped(s)
    ensures ExpandList(s, [1], {3}, {0, 1, 2, 3}, false, true) == Expanded([1, 0, 2], {0, 1, 2, 3})
  {
    assert {3} + {1} == {1, 3};
    RLabelsDown(s);
    WalkOne(s, 1, {3}, {0, 1, 2, 3}, false, true);
    JoinsFromQ();
  }

  lemma QLabelsDown(s: State)
    requires Shaped(s)
    ensures ExpandDown(s, 3, 0, {3}, {0, 1, 2, 3}) == Expanded([1, 0, 2], {0, 1, 2, 3})
  {
    CrossingBelowR(s);
    assert ExpandDown(s, 3, 1, {0, 1, 2, 3}, {0, 1, 2, 3}) == Expanded([], {0, 1, 2, 3});
    JoinsFromQ();
  }

  /**
   * Started from the same two jobs in the other order, Q then P, the walk
   * yields all four: the set the filter keeps depends on the order of the
   * jobs, not only on the graph.
   */
  lemma CrossingFromQ(s: State)
    requires Shaped(s)
    ensures ExpandList(s, [3, 0], {}, {0, 1, 2, 3}, true, true) == Expanded([3, 1, 0, 2], {0, 1, 2, 3})
  {
    var all := {0, 1, 2, 3};
    assert {} + {3} == {3};
    QLabelsDown(s);
    assert ExpandUp(s, 3, 0, {3}, all) == Expanded([], {3});
    FreshUnfold(s, [3, 0], {}, all, true, true);
    JoinsFromQ();
    AlreadySeen(s, 0, all);
  }
}
