/**
 * Why each job the walk yields is there.
 *
 * Every yielded job is either one of the seeds, or was reached from an
 * earlier yielded job through one label: upward (the earlier job produces
 * the label, this one consumes it) or downward (the earlier job consumes it,
 * this one produces it).  Direction is sticky: a job reached upward has a
 * parent that is a seed or was itself reached upward, and likewise downward,
 * so no path of the walk ever turns round.
 *
 * Conversely, every yielded job was expanded in the directions its tag
 * allows (a seed in the walk's directions, an upward job upward, a downward
 * job downward): every job of the bound across one of those labels ends up
 * seen.  The directions follow the tag, not the seeds: a seed reached
 * upward from an earlier seed before its own turn is only expanded upward.
 * A job expanded downward that consumes a label nobody produces stops the
 * walk, so a walk that succeeds expanded no such job.
 */
module Reach {
  import opened Seqs
  import opened JobIndex
  import opened Closure

  /** How a yielded job was reached: as a seed, or from the yielded job at `parent`. */
  datatype Via = Seed | Up(parent: nat, through: string) | Down(parent: nat, through: string)

  /** The top-level call: its seed list and the directions it may go. */
  datatype Walk = Walk(seeds: seq<nat>, upward: bool, downward: bool)

  /** Job `x`, yielded right after `pre` (tagged `preVia`), may carry `tag`. */
  ghost predicate Fits(s: State, w: Walk, pre: seq<nat>, preVia: seq<Via>, tag: Via, x: nat)
    requires |pre| == |preVia|
  {
    match tag
    case Seed => x in w.seeds
    case Up(m, t) =>
      && w.upward && m < |pre| && (preVia[m].Seed? || preVia[m].Up?)
      && pre[m] < |s.jobList| && t in s.jobList[pre[m]].ts && t in s.jobsOfD && x in s.jobsOfD[t]
    case Down(m, d) =>
      && w.downward && m < |pre| && (preVia[m].Seed? || preVia[m].Down?)
      && pre[m] < |s.jobList| && d in s.jobList[pre[m]].ds && d in s.jobsOfT && x in s.jobsOfT[d]
  }

  /** A justification stays valid when more is yielded after it. */
  lemma FitsLater(s: State, w: Walk, pre: seq<nat>, preVia: seq<Via>, more: seq<nat>, moreVia: seq<Via>, tag: Via, x: nat)
    requires |pre| == |preVia| && |more| == |moreVia|
    requires Fits(s, w, pre, preVia, tag, x)
    ensures Fits(s, w, pre + more, preVia + moreVia, tag, x)
  {
    match tag
    case Seed =>
    case Up(m, t) =>
      assert (pre + more)[m] == pre[m] && (preVia + moreVia)[m] == preVia[m];
    case Down(m, d) =>
      assert (pre + more)[m] == pre[m] && (preVia + moreVia)[m] == preVia[m];
  }

  /** Job `out[k]` is justified by its tag `via[k]` within the trace `out`. */
  ghost predicate FitsAt(s: State, w: Walk, out: seq<nat>, via: seq<Via>, k: nat)
    requires |out| == |via| && k < |out|
  {
    match via[k]
    case Seed => out[k] in w.seeds
    case Up(m, t) =>
      && w.upward && m < k && (via[m].Seed? || via[m].Up?)
      && out[m] < |s.jobList| && t in s.jobList[out[m]].ts && t in s.jobsOfD && out[k] in s.jobsOfD[t]
    case Down(m, d) =>
      && w.downward && m < k && (via[m].Seed? || via[m].Down?)
      && out[m] < |s.jobList| && d in s.jobList[out[m]].ds && d in s.jobsOfT && out[k] in s.jobsOfT[d]
  }

  /** Every job of `out` is justified by its tag in `via`. */
  ghost predicate Reached(s: State, w: Walk, out: seq<nat>, via: seq<Via>)
  {
    |out| == |via| && forall k: nat :: k < |out| ==> FitsAt(s, w, out, via, k)
  }

  /** Yielding one more job that fits keeps the whole trace justified. */
  lemma ReachedSnoc(s: State, w: Walk, out: seq<nat>, via: seq<Via>, tag: Via, x: nat)
    requires Reached(s, w, out, via)
    requires Fits(s, w, out, via, tag, x)
    ensures Reached(s, w, out + [x], via + [tag])
  {
    var out', via' := out + [x], via + [tag];
    forall k: nat | k < |out'| ensures FitsAt(s, w, out', via', k) {
      if k < |out| {
        assert FitsAt(s, w, out, via, k);
        match via[k]
        case Seed =>
        case Up(m, t) => assert out'[m] == out[m] && via'[m] == via[m];
        case Down(m, d) => assert out'[m] == out[m] && via'[m] == via[m];
      } else {
        match tag
        case Seed =>
        case Up(m, t) => assert out'[m] == out[m] && via'[m] == via[m];
        case Down(m, d) => assert out'[m] == out[m] && via'[m] == via[m];
      }
    }
  }

  /**
   * Job `x`, tagged `tag`, was expanded in every direction its tag allows:
   * a seed in the walk's directions, an upward job upward, a downward job
   * downward.  Then every job of the bound across one of its labels in
   * such a direction is in `seen`, and, expanded downward, every label it
   * consumes has a producer.
   */
  ghost predicate Expands(s: State, w: Walk, x: nat, tag: Via, max: set<nat>, seen: set<nat>)
  {
    && x < |s.jobList|
    && ((tag.Up? || (tag.Seed? && w.upward)) ==> ConsumersIn(s, x, 0, max, seen))
    && ((tag.Down? || (tag.Seed? && w.downward)) ==> ProducersIn(s, x, 0, max, seen))
  }

  /** Every job of the trace from position `from` on was expanded as its tag says. */
  ghost predicate ClosedFrom(s: State, w: Walk, out: seq<nat>, via: seq<Via>, from: nat, max: set<nat>, seen: set<nat>)
    requires |out| == |via|
  {
    forall k :: from <= k < |out| ==> Expands(s, w, out[k], via[k], max, seen)
  }

  /** Closure of two consecutive parts of a trace joins up, `seen` only growing. */
  lemma ClosedJoin(s: State, w: Walk, out: seq<nat>, via: seq<Via>, more: seq<nat>, moreVia: seq<Via>,
      from: nat, max: set<nat>, seen: set<nat>, seen': set<nat>)
    requires |out| == |via| && |more| == |moreVia| && seen <= seen'
    requires ClosedFrom(s, w, out, via, from, max, seen)
    requires ClosedFrom(s, w, out + more, via + moreVia, |out|, max, seen')
    ensures ClosedFrom(s, w, out + more, via + moreVia, from, max, seen')
  {
    forall k | from <= k < |out| ensures Expands(s, w, (out + more)[k], (via + moreVia)[k], max, seen') {
      assert (out + more)[k] == out[k] && (via + moreVia)[k] == via[k];
      assert Expands(s, w, out[k], via[k], max, seen);
    }
  }

  /** Seeds that fit after `pre` still fit after any longer trace beginning with `pre`. */
  lemma SeedsFitLater(s: State, w: Walk, pre: seq<nat>, preVia: seq<Via>, out: seq<nat>, via: seq<Via>,
      tag: Via, list: seq<nat>)
    requires |pre| == |preVia| && |out| == |via| && |pre| <= |out|
    requires out[..|pre|] == pre && via[..|pre|] == preVia
    requires forall k :: 0 <= k < |list| ==> Fits(s, w, pre, preVia, tag, list[k])
    ensures forall k :: 0 <= k < |list| ==> Fits(s, w, out, via, tag, list[k])
  {
    assert pre + out[|pre|..] == out && preVia + via[|pre|..] == via;
    forall k | 0 <= k < |list| ensures Fits(s, w, out, via, tag, list[k]) {
      FitsLater(s, w, pre, preVia, out[|pre|..], via[|pre|..], tag, list[k]);
    }
  }

  /** A trace followed by the parts of one step, grouped either way. */
  lemma Regroup3<T>(p: seq<T>, a: seq<T>, b: seq<T>, c: seq<T>)
    ensures p + (a + b + c) == p + a + b + c
  {
    assert p + ((a + b) + c) == (p + (a + b)) + c;
  }

  lemma Regroup2<T>(p: seq<T>, a: seq<T>, b: seq<T>)
    ensures p + (a + b) == p + a + b
  {
  }

  /**
   * A walk of `list` started after the trace `pre`, whose seeds may all be
   * tagged `tag`, extends the trace by jobs that are all justified.
   */
  lemma {:induction false} ListReached(s: State, w: Walk, list: seq<nat>, seen: set<nat>, max: set<nat>,
      upward: bool, downward: bool, pre: seq<nat>, preVia: seq<Via>, tag: Via) returns (via: seq<Via>)
    requires s.Valid() && IdsOf(s, list)
    requires Reached(s, w, pre, preVia)
    requires upward ==> w.upward && (tag.Seed? || tag.Up?)
    requires downward ==> w.downward && (tag.Seed? || tag.Down?)
    requires forall k :: 0 <= k < |list| ==> Fits(s, w, pre, preVia, tag, list[k])
    requires (tag.Up? || (tag.Seed? && w.upward)) ==> upward
    requires (tag.Down? || (tag.Seed? && w.downward)) ==> downward
    ensures var r := ExpandList(s, list, seen, max, upward, downward);
      r.Expanded? ==> |via| == |r.out| && Reached(s, w, pre + r.out, preVia + via)
    ensures var r := ExpandList(s, list, seen, max, upward, downward);
      r.Expanded? ==> |via| == |r.out| && ClosedFrom(s, w, pre + r.out, preVia + via, |pre|, max, r.seen)
    decreases max - seen, 0, |list|, 1
  {
    via := [];
    if list == [] {
      assert pre + [] == pre && preVia + [] == preVia;
      return;
    }
    var j := list[0];
    if j !in max || j in seen {
      via := ListReached(s, w, list[1..], seen, max, upward, downward, pre, preVia, tag);
      return;
    }
    via := FreshReached(s, w, list, seen, max, upward, downward, pre, preVia, tag);
  }

  /** ListReached when the first job of `list` is fresh and within the bound. */
  lemma {:induction false} FreshReached(s: State, w: Walk, list: seq<nat>, seen: set<nat>, max: set<nat>,
      upward: bool, downward: bool, pre: seq<nat>, preVia: seq<Via>, tag: Via) returns (via: seq<Via>)
    requires s.Valid() && IdsOf(s, list)
    requires list != [] && list[0] in max && list[0] !in seen
    requires Reached(s, w, pre, preVia)
    requires upward ==> w.upward && (tag.Seed? || tag.Up?)
    requires downward ==> w.downward && (tag.Seed? || tag.Down?)
    requires forall k :: 0 <= k < |list| ==> Fits(s, w, pre, preVia, tag, list[k])
    requires (tag.Up? || (tag.Seed? && w.upward)) ==> upward
    requires (tag.Down? || (tag.Seed? && w.downward)) ==> downward
    ensures var r := ExpandList(s, list, seen, max, upward, downward);
      r.Expanded? ==> |via| == |r.out| && Reached(s, w, pre + r.out, preVia + via)
    ensures var r := ExpandList(s, list, seen, max, upward, downward);
      r.Expanded? ==> |via| == |r.out| && ClosedFrom(s, w, pre + r.out, preVia + via, |pre|, max, r.seen)
    decreases max - seen, 0, |list|, 0
  {
    via := [];
    var j := list[0];
    ReachedSnoc(s, w, pre, preVia, tag, j);
    var jobVia := JobReached(s, w, j, seen + {j}, max, upward, downward, pre + [j], preVia + [tag], |pre|);
    var up := if upward then ExpandUp(s, j, 0, seen + {j}, max) else Expanded([], seen + {j});
    var down := if downward then ExpandDown(s, j, 0, up.seen, max) else Expanded([], up.seen);
    FreshUnfold(s, list, seen, max, upward, downward);
    if down.Expanded? {
      var block, blockVia := [j] + up.out + down.out, [tag] + jobVia;
      Regroup3(pre, [j], up.out, down.out);
      Regroup2(preVia, [tag], jobVia);
      BlockClosed(s, w, j, tag, seen + {j}, max, upward, downward, pre, preVia, jobVia);
      via := TailReached(s, w, list[1..], down.seen, max, upward, downward, pre, preVia, block, blockVia, tag);
    }
  }

  /** The two label loops for job `j`, sitting at `jIdx` in the trace. */
  lemma {:induction false} JobReached(s: State, w: Walk, j: nat, seen: set<nat>, max: set<nat>,
      upward: bool, downward: bool, pre: seq<nat>, preVia: seq<Via>, jIdx: nat) returns (via: seq<Via>)
    requires s.Valid() && j < |s.jobList|
    requires Reached(s, w, pre, preVia) && jIdx < |pre| && pre[jIdx] == j
    requires upward ==> w.upward && (preVia[jIdx].Seed? || preVia[jIdx].Up?)
    requires downward ==> w.downward && (preVia[jIdx].Seed? || preVia[jIdx].Down?)
    ensures var up := if upward then ExpandUp(s, j, 0, seen, max) else Expanded([], seen);
      var down := if downward then ExpandDown(s, j, 0, up.seen, max) else Expanded([], up.seen);
      down.Expanded? ==> |via| == |up.out| + |down.out| && Reached(s, w, pre + up.out + down.out, preVia + via)
    ensures var up := if upward then ExpandUp(s, j, 0, seen, max) else Expanded([], seen);
      var down := if downward then ExpandDown(s, j, 0, up.seen, max) else Expanded([], up.seen);
      down.Expanded? ==>
        |via| == |up.out| + |down.out| && ClosedFrom(s, w, pre + up.out + down.out, preVia + via, |pre|, max, down.seen)
    decreases max - seen, 2
  {
    var up := if upward then ExpandUp(s, j, 0, seen, max) else Expanded([], seen);
    var upVia: seq<Via> := [];
    if upward {
      upVia := UpReached(s, w, j, 0, seen, max, pre, preVia, jIdx);
    } else {
      assert pre + [] == pre && preVia + [] == preVia;
    }
    var pre2, via2 := pre + up.out, preVia + upVia;
    assert pre2[jIdx] == j && via2[jIdx] == preVia[jIdx];
    var down := if downward then ExpandDown(s, j, 0, up.seen, max) else Expanded([], up.seen);
    var downVia: seq<Via> := [];
    if downward {
      downVia := DownReached(s, w, j, 0, up.seen, max, pre2, via2, jIdx);
    } else {
      assert pre2 + [] == pre2 && via2 + [] == via2;
    }
    via := upVia + downVia;
    assert preVia + via == via2 + downVia;
    if down.Expanded? {
      ClosedJoin(s, w, pre2, via2, down.out, downVia, |pre|, max, up.seen, down.seen);
    }
  }

  /**
   * A fresh job followed by what its two label loops yield: the job itself
   * was expanded in the directions its tag allows, and so were the others.
   */
  lemma BlockClosed(s: State, w: Walk, j: nat, tag: Via, seen: set<nat>, max: set<nat>, upward: bool, downward: bool,
      pre: seq<nat>, preVia: seq<Via>, jobVia: seq<Via>)
    requires s.Valid() && j < |s.jobList| && |pre| == |preVia|
    requires (tag.Up? || (tag.Seed? && w.upward)) ==> upward
    requires (tag.Down? || (tag.Seed? && w.downward)) ==> downward
    requires var up := if upward then ExpandUp(s, j, 0, seen, max) else Expanded([], seen);
      var down := if downward then ExpandDown(s, j, 0, up.seen, max) else Expanded([], up.seen);
      && down.Expanded? && |jobVia| == |up.out| + |down.out|
      && ClosedFrom(s, w, pre + [j] + up.out + down.out, preVia + [tag] + jobVia, |pre| + 1, max, down.seen)
    ensures var up := if upward then ExpandUp(s, j, 0, seen, max) else Expanded([], seen);
      var down := if downward then ExpandDown(s, j, 0, up.seen, max) else Expanded([], up.seen);
      ClosedFrom(s, w, pre + ([j] + up.out + down.out), preVia + ([tag] + jobVia), |pre|, max, down.seen)
  {
    var up := if upward then ExpandUp(s, j, 0, seen, max) else Expanded([], seen);
    var down := if downward then ExpandDown(s, j, 0, up.seen, max) else Expanded([], up.seen);
    var out, via := pre + [j] + up.out + down.out, preVia + [tag] + jobVia;
    Regroup3(pre, [j], up.out, down.out);
    Regroup2(preVia, [tag], jobVia);
    assert out[|pre|] == j && via[|pre|] == tag;
    assert Expands(s, w, j, tag, max, down.seen);
  }

  /**
   * The rest of the outer loop after one step yielded `block`: the whole
   * trace stays justified.
   */
  lemma {:induction false} TailReached(s: State, w: Walk, tail: seq<nat>, seen: set<nat>, max: set<nat>,
      upward: bool, downward: bool, pre: seq<nat>, preVia: seq<Via>, block: seq<nat>, blockVia: seq<Via>,
      tag: Via) returns (via: seq<Via>)
    requires s.Valid() && IdsOf(s, tail)
    requires |pre| == |preVia| && |block| == |blockVia|
    requires Reached(s, w, pre + block, preVia + blockVia)
    requires upward ==> w.upward && (tag.Seed? || tag.Up?)
    requires downward ==> w.downward && (tag.Seed? || tag.Down?)
    requires forall k :: 0 <= k < |tail| ==> Fits(s, w, pre, preVia, tag, tail[k])
    requires (tag.Up? || (tag.Seed? && w.upward)) ==> upward
    requires (tag.Down? || (tag.Seed? && w.downward)) ==> downward
    requires ClosedFrom(s, w, pre + block, preVia + blockVia, |pre|, max, seen)
    ensures var r := Then(block, ExpandList(s, tail, seen, max, upward, downward));
      r.Expanded? ==> |via| == |r.out| && Reached(s, w, pre + r.out, preVia + via)
    ensures var r := Then(block, ExpandList(s, tail, seen, max, upward, downward));
      r.Expanded? ==> |via| == |r.out| && ClosedFrom(s, w, pre + r.out, preVia + via, |pre|, max, r.seen)
    decreases max - seen, 0, |tail|, 2
  {
    var pre3, via3 := pre + block, preVia + blockVia;
    assert pre3[..|pre|] == pre && via3[..|pre|] == preVia;
    SeedsFitLater(s, w, pre, preVia, pre3, via3, tag, tail);
    var restVia := ListReached(s, w, tail, seen, max, upward, downward, pre3, via3, tag);
    via := blockVia + restVia;
    var rest := ExpandList(s, tail, seen, max, upward, downward);
    if rest.Expanded? {
      assert pre + (block + rest.out) == pre3 + rest.out;
      assert preVia + via == via3 + restVia;
      ClosedJoin(s, w, pre3, via3, rest.out, restVia, |pre|, max, seen, rest.seen);
    }
  }

  /** The upward walk of the consumers of label `t`, which the job at `jIdx` produces. */
  lemma {:induction false} ConsumersReached(s: State, w: Walk, t: string, seen: set<nat>, max: set<nat>,
      pre: seq<nat>, preVia: seq<Via>, jIdx: nat) returns (via: seq<Via>)
    requires s.Valid() && t in s.jobsOfD
    requires Reached(s, w, pre, preVia) && w.upward
    requires jIdx < |pre| && pre[jIdx] < |s.jobList| && t in s.jobList[pre[jIdx]].ts
    requires preVia[jIdx].Seed? || preVia[jIdx].Up?
    ensures var r := ExpandList(s, s.jobsOfD[t], seen, max, true, false);
      |via| == |r.out| && Reached(s, w, pre + r.out, preVia + via)
    ensures var r := ExpandList(s, s.jobsOfD[t], seen, max, true, false);
      |via| == |r.out| && ClosedFrom(s, w, pre + r.out, preVia + via, |pre|, max, r.seen)
    decreases max - seen, 0, |s.jobsOfD[t]|, 2
  {
    var list := s.jobsOfD[t];
    forall k | 0 <= k < |list| ensures Fits(s, w, pre, preVia, Up(jIdx, t), list[k]) {
      assert list[k] in s.jobsOfD[t];
    }
    via := ListReached(s, w, list, seen, max, true, false, pre, preVia, Up(jIdx, t));
  }

  /** The downward walk of the producers of label `d`, which the job at `jIdx` consumes. */
  lemma {:induction false} ProducersReached(s: State, w: Walk, d: string, seen: set<nat>, max: set<nat>,
      pre: seq<nat>, preVia: seq<Via>, jIdx: nat) returns (via: seq<Via>)
    requires s.Valid() && d in s.jobsOfT
    requires Reached(s, w, pre, preVia) && w.downward
    requires jIdx < |pre| && pre[jIdx] < |s.jobList| && d in s.jobList[pre[jIdx]].ds
    requires preVia[jIdx].Seed? || preVia[jIdx].Down?
    ensures var r := ExpandList(s, s.jobsOfT[d], seen, max, false, true);
      r.Expanded? ==> |via| == |r.out| && Reached(s, w, pre + r.out, preVia + via)
    ensures var r := ExpandList(s, s.jobsOfT[d], seen, max, false, true);
      r.Expanded? ==> |via| == |r.out| && ClosedFrom(s, w, pre + r.out, preVia + via, |pre|, max, r.seen)
    decreases max - seen, 0, |s.jobsOfT[d]|, 2
  {
    var list := s.jobsOfT[d];
    forall k | 0 <= k < |list| ensures Fits(s, w, pre, preVia, Down(jIdx, d), list[k]) {
      assert list[k] in s.jobsOfT[d];
    }
    via := ListReached(s, w, list, seen, max, false, true, pre, preVia, Down(jIdx, d));
  }

  /** The upward loop over the labels `j` produces, `j` sitting at `jIdx` in the trace. */
  lemma {:induction false} UpReached(s: State, w: Walk, j: nat, k: nat, seen: set<nat>, max: set<nat>,
      pre: seq<nat>, preVia: seq<Via>, jIdx: nat) returns (via: seq<Via>)
    requires s.Valid() && j < |s.jobList| && k <= |s.jobList[j].ts|
    requires Reached(s, w, pre, preVia) && w.upward
    requires jIdx < |pre| && pre[jIdx] == j && (preVia[jIdx].Seed? || preVia[jIdx].Up?)
    ensures var r := ExpandUp(s, j, k, seen, max);
      |via| == |r.out| && Reached(s, w, pre + r.out, preVia + via)
    ensures var r := ExpandUp(s, j, k, seen, max);
      |via| == |r.out| && ClosedFrom(s, w, pre + r.out, preVia + via, |pre|, max, r.seen)
    decreases max - seen, 1, |s.jobList[j].ts| - k
  {
    var ts := s.jobList[j].ts;
    if k == |ts| {
      via := [];
      assert pre + [] == pre && preVia + [] == preVia;
      return;
    }
    var t := ts[k];
    var head := if t in s.jobsOfD then ExpandList(s, s.jobsOfD[t], seen, max, true, false) else Expanded([], seen);
    var headVia: seq<Via> := [];
    if t in s.jobsOfD {
      headVia := ConsumersReached(s, w, t, seen, max, pre, preVia, jIdx);
    } else {
      assert pre + [] == pre && preVia + [] == preVia;
    }
    var pre1, via1 := pre + head.out, preVia + headVia;
    assert pre1[jIdx] == j && via1[jIdx] == preVia[jIdx];
    var restVia := UpReached(s, w, j, k + 1, head.seen, max, pre1, via1, jIdx);
    via := headVia + restVia;
    var rest := ExpandUp(s, j, k + 1, head.seen, max);
    Regroup2(pre, head.out, rest.out);
    Regroup2(preVia, headVia, restVia);
    ClosedJoin(s, w, pre1, via1, rest.out, restVia, |pre|, max, head.seen, rest.seen);
  }

  /** The downward loop over the labels `j` consumes, `j` sitting at `jIdx` in the trace. */
  lemma {:induction false} DownReached(s: State, w: Walk, j: nat, k: nat, seen: set<nat>, max: set<nat>,
      pre: seq<nat>, preVia: seq<Via>, jIdx: nat) returns (via: seq<Via>)
    requires s.Valid() && j < |s.jobList| && k <= |s.jobList[j].ds|
    requires Reached(s, w, pre, preVia) && w.downward
    requires jIdx < |pre| && pre[jIdx] == j && (preVia[jIdx].Seed? || preVia[jIdx].Down?)
    ensures var r := ExpandDown(s, j, k, seen, max);
      r.Expanded? ==> |via| == |r.out| && Reached(s, w, pre + r.out, preVia + via)
    ensures var r := ExpandDown(s, j, k, seen, max);
      r.Expanded? ==> |via| == |r.out| && ClosedFrom(s, w, pre + r.out, preVia + via, |pre|, max, r.seen)
    decreases max - seen, 1, |s.jobList[j].ds| - k
  {
    var ds := s.jobList[j].ds;
    if k == |ds| {
      via := [];
      assert pre + [] == pre && preVia + [] == preVia;
      return;
    }
    via := [];
    var d := ds[k];
    if d !in s.jobsOfT {
      return;
    }
    var head := ExpandList(s, s.jobsOfT[d], seen, max, false, true);
    var headVia := ProducersReached(s, w, d, seen, max, pre, preVia, jIdx);
    if head.Expanded? {
      var pre1, via1 := pre + head.out, preVia + headVia;
      assert pre1[jIdx] == j && via1[jIdx] == preVia[jIdx];
      var restVia := DownReached(s, w, j, k + 1, head.seen, max, pre1, via1, jIdx);
      via := headVia + restVia;
      var rest := ExpandDown(s, j, k + 1, head.seen, max);
      if rest.Expanded? {
        Regroup2(pre, head.out, rest.out);
        Regroup2(preVia, headVia, restVia);
        ClosedJoin(s, w, pre1, via1, rest.out, restVia, |pre|, max, head.seen, rest.seen);
      }
    }
  }

  /**
   * Every job a walk of `list` yields is a job of `list` or hangs off an
   * earlier yielded job by one label, in one direction all along its path;
   * and conversely every job of the bound across a label from a yielded
   * job, in a direction its tag allows, was seen before or is yielded.
   */
  lemma WalkReached(s: State, list: seq<nat>, seen: set<nat>, max: set<nat>, upward: bool, downward: bool)
      returns (via: seq<Via>)
    requires s.Valid() && IdsOf(s, list)
    ensures var r := ExpandList(s, list, seen, max, upward, downward);
      r.Expanded? ==> Reached(s, Walk(list, upward, downward), r.out, via)
    ensures var r := ExpandList(s, list, seen, max, upward, downward);
      r.Expanded? ==> |via| == |r.out| && ClosedFrom(s, Walk(list, upward, downward), r.out, via, 0, max, seen + Elems(r.out))
  {
    var w := Walk(list, upward, downward);
    forall k | 0 <= k < |list| ensures Fits(s, w, [], [], Seed, list[k]) {
      assert list[k] in w.seeds;
    }
    assert Reached(s, w, [], []);
    via := ListReached(s, w, list, seen, max, upward, downward, [], [], Seed);
    var r := ExpandList(s, list, seen, max, upward, downward);
    if r.Expanded? {
      assert [] + r.out == r.out && [] + via == via;
    }
  }

  /**
   * The walk stops at every job it expands downward that consumes a label
   * with no producer: when it succeeds, each job it expanded downward (a
   * downward job, or a seed of a downward walk) has a producer for every
   * label it consumes.
   */
  lemma UnproducedNeverExpanded(s: State, list: seq<nat>, seen: set<nat>, max: set<nat>, upward: bool, downward: bool)
      returns (via: seq<Via>)
    requires s.Valid() && IdsOf(s, list)
    ensures var r := ExpandList(s, list, seen, max, upward, downward);
      r.Expanded? ==> |via| == |r.out| && Reached(s, Walk(list, upward, downward), r.out, via)
    ensures var r := ExpandList(s, list, seen, max, upward, downward);
      r.Expanded? ==> (
        && |via| == |r.out|
        && forall k :: 0 <= k < |r.out| && (via[k].Down? || (via[k].Seed? && downward)) ==>
             r.out[k] < |s.jobList| && forall d :: d in s.jobList[r.out[k]].ds ==> d in s.jobsOfT)
  {
    via := WalkReached(s, list, seen, max, upward, downward);
    var r := ExpandList(s, list, seen, max, upward, downward);
    if r.Expanded? {
      var w := Walk(list, upward, downward);
      forall k | 0 <= k < |r.out| && (via[k].Down? || (via[k].Seed? && downward))
        ensures r.out[k] < |s.jobList| && forall d :: d in s.jobList[r.out[k]].ds ==> d in s.jobsOfT
      {
        assert Expands(s, w, r.out[k], via[k], max, seen + Elems(r.out));
        var ds := s.jobList[r.out[k]].ds;
        forall d | d in ds ensures d in s.jobsOfT {
          var i :| 0 <= i < |ds| && ds[i] == d;
        }
      }
    }
  }
}
