/**
 * The visible job list: `expand_job_list` and `filter_job_list`.
 *
 * `expand_job_list` is a recursive generator sharing one mutable `seen` set.
 * It walks a list of jobs; every job that lies in the bound `job_set_max`
 * and is not yet seen is marked seen and yielded, and then, depth first,
 *  - if the walk goes upward: for each label the job produces, the jobs
 *    consuming it are walked, upward only;
 *  - if the walk goes downward: for each label the job consumes, the jobs
 *    producing it are walked, downward only.
 * The downward branch looks the label up in `jobs_of_t` without checking
 * that some job produces it; when none does, iterating the missing bucket
 * throws, and the whole computation fails.  `Stuck(label)` models that.
 *
 * The walk is specified by the functions ExpandList, ExpandUp and ExpandDown
 * (one per loop of the generator), which thread `seen` through explicitly;
 * the method Expand is the generator itself and is proved to agree with them.
 */
module Closure {
  import opened Seqs
  import opened Labels
  import opened JobIndex
  import opened Selectors

  /** What a walk produces: the ids it yields and the final `seen`, or the failure. */
  datatype Expansion = Stuck(missing: Label) | Expanded(out: seq<nat>, seen: set<nat>)

  /** Every id of `list` names a job of `s`. */
  predicate IdsOf(s: State, list: seq<nat>)
  {
    forall k :: 0 <= k < |list| ==> list[k] < |s.jobList|
  }

  /** Every label consumed by a job of `max` is produced by some job. */
  ghost predicate ProducersKnown(s: State, max: set<nat>)
  {
    forall i, d :: i in max && i < |s.jobList| && d in s.jobList[i].ds ==> d in s.jobsOfT
  }

  /**
   * Every job of the bound that consumes a label job `j` produces, from the
   * `k`-th produced label on, is in `seen`.
   */
  predicate ConsumersIn(s: State, j: nat, k: nat, max: set<nat>, seen: set<nat>)
    requires j < |s.jobList|
  {
    var ts := s.jobList[j].ts;
    forall k', i ::
      (k <= k' < |ts| && ts[k'] in s.jobsOfD && 0 <= i < |s.jobsOfD[ts[k']]| && s.jobsOfD[ts[k']][i] in max)
      ==> s.jobsOfD[ts[k']][i] in seen
  }

  /**
   * Every label job `j` consumes, from the `k`-th on, has a producer, and
   * every job of the bound that produces one of them is in `seen`.
   */
  predicate ProducersIn(s: State, j: nat, k: nat, max: set<nat>, seen: set<nat>)
    requires j < |s.jobList|
  {
    var ds := s.jobList[j].ds;
    && (forall k' :: k <= k' < |ds| ==> ds[k'] in s.jobsOfT)
    && forall k', i ::
      (k <= k' < |ds| && ds[k'] in s.jobsOfT && 0 <= i < |s.jobsOfT[ds[k']]| && s.jobsOfT[ds[k']][i] in max)
      ==> s.jobsOfT[ds[k']][i] in seen
  }

  /** `prefix` was yielded before the walk `r`. */
  function Then(prefix: seq<nat>, r: Expansion): (r': Expansion)
  {
    match r
    case Stuck(d) => Stuck(d)
    case Expanded(out, seen) => Expanded(prefix + out, seen)
  }

  lemma ThenThen(a: seq<nat>, b: seq<nat>, r: Expansion)
    ensures Then(a, Then(b, r)) == Then(a + b, r)
  {
    if r.Expanded? {
      assert a + (b + r.out) == (a + b) + r.out;
    }
  }

  /** Two walks run one after the other yield fresh jobs of the bound, once each, and mark them. */
  lemma Compose(seen: set<nat>, a: seq<nat>, mid: set<nat>, b: seq<nat>, end: set<nat>, max: set<nat>)
    requires mid == seen + Elems(a) && Elems(a) <= max && Elems(a) !! seen && Distinct(a)
    requires end == mid + Elems(b) && Elems(b) <= max && Elems(b) !! mid && Distinct(b)
    ensures end == seen + Elems(a + b) && Elems(a + b) <= max && Elems(a + b) !! seen && Distinct(a + b)
  {
    DistinctConcat(a, b);
  }

  /** The seeds of a walk in the bound end up seen, given that its first seed and the rest do. */
  lemma SeedsSeen(list: seq<nat>, tail: seq<nat>, max: set<nat>, r: Expansion)
    requires list != [] && tail == list[1..]
    requires r.Expanded? ==> list[0] in max ==> list[0] in r.seen
    requires r.Expanded? ==> forall k :: 0 <= k < |tail| && tail[k] in max ==> tail[k] in r.seen
    ensures r.Expanded? ==> forall k :: 0 <= k < |list| && list[k] in max ==> list[k] in r.seen
  {
    if r.Expanded? {
      forall k | 0 <= k < |list| && list[k] in max ensures list[k] in r.seen {
        if k > 0 {
          assert list[k] == tail[k - 1];
        }
      }
    }
  }

  /**
   * The outer loop of `expand_job_list` over `list`, starting from `seen`,
   * bounded by `max`.  A walk yields only fresh jobs of the bound, each once,
   * marks exactly what it yields, and leaves every job of `list` that lies
   * in the bound seen.
   */
  function ExpandList(s: State, list: seq<nat>, seen: set<nat>, max: set<nat>, upward: bool, downward: bool)
    : (r: Expansion)
    requires s.Valid() && IdsOf(s, list)
    ensures r.Expanded? ==> r.seen == seen + Elems(r.out)
    ensures r.Expanded? ==> Elems(r.out) <= max && Elems(r.out) !! seen && Distinct(r.out)
    ensures r.Expanded? ==> forall k :: 0 <= k < |list| && list[k] in max ==> list[k] in r.seen
    ensures !downward ==> r.Expanded?
    ensures ProducersKnown(s, max) ==> r.Expanded?
    ensures r.Stuck? ==> r.missing !in s.jobsOfT
    decreases max - seen, 0, |list|
  {
    if list == [] then Expanded([], seen)
    else
      var j := list[0];
      if j !in max || j in seen then
        var rest := ExpandList(s, list[1..], seen, max, upward, downward);
        SeedsSeen(list, list[1..], max, rest);
        rest
      else
        var up := if upward then ExpandUp(s, j, 0, seen + {j}, max) else Expanded([], seen + {j});
        var down := if downward then ExpandDown(s, j, 0, up.seen, max) else Expanded([], up.seen);
        if down.Stuck? then down
        else
          var rest := ExpandList(s, list[1..], down.seen, max, upward, downward);
          if rest.Expanded? then
            assert Elems([j]) == {j};
            Compose(seen, [j], seen + {j}, up.out, up.seen, max);
            Compose(seen, [j] + up.out, up.seen, down.out, down.seen, max);
            Compose(seen, [j] + up.out + down.out, down.seen, rest.out, rest.seen, max);
            SeedsSeen(list, list[1..], max, Then([j] + up.out + down.out, rest));
            Then([j] + up.out + down.out, rest)
          else rest
  }

  /**
   * The loop over the labels job `j` produces, from position `k` on: each
   * label that some job consumes leads to an upward-only walk of its consumers.
   */
  function ExpandUp(s: State, j: nat, k: nat, seen: set<nat>, max: set<nat>): (r: Expansion)
    requires s.Valid() && j < |s.jobList| && k <= |s.jobList[j].ts|
    ensures r.Expanded?
    ensures r.seen == seen + Elems(r.out)
    ensures Elems(r.out) <= max && Elems(r.out) !! seen && Distinct(r.out)
    ensures ConsumersIn(s, j, k, max, r.seen)
    decreases max - seen, 1, |s.jobList[j].ts| - k
  {
    var ts := s.jobList[j].ts;
    if k == |ts| then Expanded([], seen)
    else
      var t := ts[k];
      var head := if t in s.jobsOfD then ExpandList(s, s.jobsOfD[t], seen, max, true, false) else Expanded([], seen);
      var rest := ExpandUp(s, j, k + 1, head.seen, max);
      Compose(seen, head.out, head.seen, rest.out, rest.seen, max);
      Then(head.out, rest)
  }

  /**
   * The loop over the labels job `j` consumes, from position `k` on: the
   * producers of each label are walked downward only; a label nobody
   * produces fails the walk.
   */
  function ExpandDown(s: State, j: nat, k: nat, seen: set<nat>, max: set<nat>): (r: Expansion)
    requires s.Valid() && j < |s.jobList| && k <= |s.jobList[j].ds|
    ensures r.Expanded? ==> r.seen == seen + Elems(r.out)
    ensures r.Expanded? ==> Elems(r.out) <= max && Elems(r.out) !! seen && Distinct(r.out)
    ensures r.Expanded? ==> ProducersIn(s, j, k, max, r.seen)
    ensures ProducersKnown(s, max) && j in max ==> r.Expanded?
    ensures r.Stuck? ==> r.missing !in s.jobsOfT
    decreases max - seen, 1, |s.jobList[j].ds| - k
  {
    var ds := s.jobList[j].ds;
    if k == |ds| then Expanded([], seen)
    else if ds[k] !in s.jobsOfT then Stuck(ds[k])
    else
      var head := ExpandList(s, s.jobsOfT[ds[k]], seen, max, false, true);
      if head.Stuck? then head
      else
        var rest := ExpandDown(s, j, k + 1, head.seen, max);
        if rest.Expanded? then
          Compose(seen, head.out, head.seen, rest.out, rest.seen, max);
          Then(head.out, rest)
        else rest
  }

  /** One step of the outer loop on a fresh job, as a single equation. */
  lemma FreshUnfold(s: State, list: seq<nat>, seen: set<nat>, max: set<nat>, upward: bool, downward: bool)
    requires s.Valid() && IdsOf(s, list)
    requires list != [] && list[0] in max && list[0] !in seen
    ensures var j := list[0];
      var up := if upward then ExpandUp(s, j, 0, seen + {j}, max) else Expanded([], seen + {j});
      var down := if downward then ExpandDown(s, j, 0, up.seen, max) else Expanded([], up.seen);
      ExpandList(s, list, seen, max, upward, downward)
        == if down.Stuck? then down
           else Then([j] + up.out + down.out, ExpandList(s, list[1..], down.seen, max, upward, downward))
  {
  }

  /** One step of the outer loop on a job that is outside the bound or already seen. */
  lemma SkipUnfold(s: State, list: seq<nat>, seen: set<nat>, max: set<nat>, upward: bool, downward: bool)
    requires s.Valid() && IdsOf(s, list)
    requires list != [] && (list[0] !in max || list[0] in seen)
    ensures ExpandList(s, list, seen, max, upward, downward) == ExpandList(s, list[1..], seen, max, upward, downward)
  {
  }

  /** One step of the loop over produced labels. */
  lemma UpUnfold(s: State, j: nat, k: nat, seen: set<nat>, max: set<nat>)
    requires s.Valid() && j < |s.jobList| && k < |s.jobList[j].ts|
    ensures var t := s.jobList[j].ts[k];
      ExpandUp(s, j, k, seen, max)
        == if t in s.jobsOfD then
             var head := ExpandList(s, s.jobsOfD[t], seen, max, true, false);
             Then(head.out, ExpandUp(s, j, k + 1, head.seen, max))
           else ExpandUp(s, j, k + 1, seen, max)
  {
    var t := s.jobList[j].ts[k];
    if t !in s.jobsOfD {
      var rest := ExpandUp(s, j, k + 1, seen, max);
      assert [] + rest.out == rest.out;
    }
  }

  /** One step of the loop over consumed labels. */
  lemma DownUnfold(s: State, j: nat, k: nat, seen: set<nat>, max: set<nat>)
    requires s.Valid() && j < |s.jobList| && k < |s.jobList[j].ds|
    ensures var d := s.jobList[j].ds[k];
      ExpandDown(s, j, k, seen, max)
        == if d !in s.jobsOfT then Stuck(d)
           else
             var head := ExpandList(s, s.jobsOfT[d], seen, max, false, true);
             if head.Stuck? then head else Then(head.out, ExpandDown(s, j, k + 1, head.seen, max))
  {
  }

  /** One pass of the loop over produced labels, after `out` was yielded. */
  lemma UpStep(s: State, j: nat, k: nat, cur: set<nat>, max: set<nat>, out: seq<nat>)
    requires s.Valid() && j < |s.jobList| && k < |s.jobList[j].ts|
    ensures var t := s.jobList[j].ts[k];
      t !in s.jobsOfD ==> ExpandUp(s, j, k + 1, cur, max) == ExpandUp(s, j, k, cur, max)
    ensures var t := s.jobList[j].ts[k];
      t in s.jobsOfD ==>
        var sub := ExpandList(s, s.jobsOfD[t], cur, max, true, false);
        && cur <= sub.seen
        && Then(out + sub.out, ExpandUp(s, j, k + 1, sub.seen, max)) == Then(out, ExpandUp(s, j, k, cur, max))
  {
    var t := s.jobList[j].ts[k];
    UpUnfold(s, j, k, cur, max);
    if t in s.jobsOfD {
      var sub := ExpandList(s, s.jobsOfD[t], cur, max, true, false);
      ThenThen(out, sub.out, ExpandUp(s, j, k + 1, sub.seen, max));
    }
  }

  /** One pass of the loop over consumed labels, after `out` was yielded. */
  lemma DownStep(s: State, j: nat, k: nat, cur: set<nat>, max: set<nat>, out: seq<nat>)
    requires s.Valid() && j < |s.jobList| && k < |s.jobList[j].ds|
    ensures var d := s.jobList[j].ds[k];
      d !in s.jobsOfT ==> Then(out, ExpandDown(s, j, k, cur, max)) == Stuck(d)
    ensures var d := s.jobList[j].ds[k];
      d in s.jobsOfT ==>
        var sub := ExpandList(s, s.jobsOfT[d], cur, max, false, true);
        && (sub.Stuck? ==> Then(out, ExpandDown(s, j, k, cur, max)) == sub)
        && (sub.Expanded? ==>
              && cur <= sub.seen
              && Then(out + sub.out, ExpandDown(s, j, k + 1, sub.seen, max)) == Then(out, ExpandDown(s, j, k, cur, max)))
  {
    var d := s.jobList[j].ds[k];
    DownUnfold(s, j, k, cur, max);
    if d in s.jobsOfT {
      var sub := ExpandList(s, s.jobsOfT[d], cur, max, false, true);
      if sub.Expanded? {
        ThenThen(out, sub.out, ExpandDown(s, j, k + 1, sub.seen, max));
      }
    }
  }

  /** One pass of the outer loop at position `p`, after `out` was yielded. */
  lemma OuterStep(s: State, list: seq<nat>, p: nat, cur: set<nat>, max: set<nat>, upward: bool, downward: bool,
      out: seq<nat>)
    requires s.Valid() && IdsOf(s, list) && p < |list|
    ensures list[p] !in max || list[p] in cur ==>
      ExpandList(s, list[p + 1..], cur, max, upward, downward) == ExpandList(s, list[p..], cur, max, upward, downward)
    ensures var j := list[p];
      var up := if upward then ExpandUp(s, j, 0, cur + {j}, max) else Expanded([], cur + {j});
      var down := if downward then ExpandDown(s, j, 0, up.seen, max) else Expanded([], up.seen);
      j in max && j !in cur ==>
        && (down.Stuck? ==> Then(out, ExpandList(s, list[p..], cur, max, upward, downward)) == down)
        && (down.Expanded? ==>
              && cur <= down.seen
              && Then(out + ([j] + up.out + down.out), ExpandList(s, list[p + 1..], down.seen, max, upward, downward))
                 == Then(out, ExpandList(s, list[p..], cur, max, upward, downward)))
  {
    var j := list[p];
    assert list[p..][1..] == list[p + 1..];
    if j !in max || j in cur {
      SkipUnfold(s, list[p..], cur, max, upward, downward);
    } else {
      FreshUnfold(s, list[p..], cur, max, upward, downward);
      var up := if upward then ExpandUp(s, j, 0, cur + {j}, max) else Expanded([], cur + {j});
      var down := if downward then ExpandDown(s, j, 0, up.seen, max) else Expanded([], up.seen);
      if down.Expanded? {
        ThenThen(out, [j] + up.out + down.out, ExpandList(s, list[p + 1..], down.seen, max, upward, downward));
      }
    }
  }

  /**
   * `expand_job_list` itself: the generator's outer loop, with the shared
   * `seen` set threaded through and the yielded jobs collected in order, as
   * `Array.from` drains them.  The two label loops are the methods
   * ExpandUpward and ExpandDownward.
   */
  method Expand(s: State, list: seq<nat>, seen: set<nat>, max: set<nat>, upward: bool, downward: bool)
    returns (r: Expansion)
    requires s.Valid() && IdsOf(s, list)
    ensures r == ExpandList(s, list, seen, max, upward, downward)
    decreases max - seen, 0
  {
    var out: seq<nat> := [];
    var cur := seen;
    for p := 0 to |list|
      invariant seen <= cur
      invariant Then(out, ExpandList(s, list[p..], cur, max, upward, downward))
             == ExpandList(s, list, seen, max, upward, downward)
    {
      var j := list[p];
      OuterStep(s, list, p, cur, max, upward, downward, out);
      if j in max && j !in cur {
        var up := Expanded([], cur + {j});
        if upward {
          up := ExpandUpward(s, j, cur + {j}, max);
        }
        var down := Expanded([], up.seen);
        if downward {
          down := ExpandDownward(s, j, up.seen, max);
        }
        if down.Stuck? {
          r := down;
          return;
        }
        out, cur := out + ([j] + up.out + down.out), down.seen;
      }
    }
    r := Expanded(out, cur);
  }

  /** `for (const t of j.ts) if (t in jobs_of_d) yield* expand_job_list(jobs_of_d[t], ..., true, false)`. */
  method ExpandUpward(s: State, j: nat, seen: set<nat>, max: set<nat>) returns (r: Expansion)
    requires s.Valid() && j < |s.jobList|
    ensures r == ExpandUp(s, j, 0, seen, max)
    decreases max - seen, 1
  {
    var ts := s.jobList[j].ts;
    var out: seq<nat> := [];
    var cur := seen;
    for k := 0 to |ts|
      invariant seen <= cur
      invariant Then(out, ExpandUp(s, j, k, cur, max)) == ExpandUp(s, j, 0, seen, max)
    {
      var t := ts[k];
      UpStep(s, j, k, cur, max, out);
      if t in s.jobsOfD {
        var sub := Expand(s, s.jobsOfD[t], cur, max, true, false);
        out, cur := out + sub.out, sub.seen;
      }
    }
    r := Expanded(out, cur);
  }

  /**
   * `for (const d of j.ds) yield* expand_job_list(jobs_of_t[d], ..., false, true)`,
   * failing at the first label that no job produces.
   */
  method ExpandDownward(s: State, j: nat, seen: set<nat>, max: set<nat>) returns (r: Expansion)
    requires s.Valid() && j < |s.jobList|
    ensures r == ExpandDown(s, j, 0, seen, max)
    decreases max - seen, 1
  {
    var ds := s.jobList[j].ds;
    var out: seq<nat> := [];
    var cur := seen;
    for k := 0 to |ds|
      invariant seen <= cur
      invariant Then(out, ExpandDown(s, j, k, cur, max)) == ExpandDown(s, j, 0, seen, max)
    {
      var d := ds[k];
      DownStep(s, j, k, cur, max, out);
      if d !in s.jobsOfT {
        r := Stuck(d);
        return;
      }
      var sub := Expand(s, s.jobsOfT[d], cur, max, false, true);
      if sub.Stuck? {
        r := sub;
        return;
      }
      out, cur := out + sub.out, sub.seen;
    }
    r := Expanded(out, cur);
  }

  /** `job_list.filter(j => ws.every(w => j.text.includes(w)))`. */
  function Matching(s: State, list: seq<nat>, ws: seq<string>): (r: seq<nat>)
    requires IdsOf(s, list)
    ensures IdsOf(s, r) && |r| <= |list|
    ensures forall x: nat :: x in r <==> x in list && x < |s.jobList| && Matches(s.jobList[x].text, ws)
    ensures Distinct(list) ==> Distinct(r)
  {
    if list == [] then []
    else
      var rest := Matching(s, list[1..], ws);
      if Matches(s.jobList[list[0]].text, ws) then
        DistinctConcat([list[0]], rest);
        [list[0]] + rest
      else rest
  }

  /**
   * Filtering distributes over concatenation: the jobs kept from `a` come
   * before those kept from `b`, so the filter keeps the list's order.
   */
  lemma {:induction false} MatchingConcat(s: State, a: seq<nat>, b: seq<nat>, ws: seq<string>)
    requires IdsOf(s, a) && IdsOf(s, b)
    ensures IdsOf(s, a + b)
    ensures Matching(s, a + b, ws) == Matching(s, a, ws) + Matching(s, b, ws)
    decreases |a|
  {
    forall k | 0 <= k < |a + b| ensures (a + b)[k] < |s.jobList| {
      if k >= |a| {
        assert (a + b)[k] == b[k - |a|];
      }
    }
    if a == [] {
      assert a + b == b;
    } else {
      assert (a + b)[1..] == a[1..] + b;
      MatchingConcat(s, a[1..], b, ws);
      var rest := Matching(s, a[1..], ws);
      assert [a[0]] + rest + Matching(s, b, ws) == [a[0]] + (rest + Matching(s, b, ws));
    }
  }

  /** A selector every job of the list matches keeps the whole list. */
  lemma {:induction false} MatchingAll(s: State, list: seq<nat>, ws: seq<string>)
    requires IdsOf(s, list)
    requires forall k :: 0 <= k < |list| ==> Matches(s.jobList[list[k]].text, ws)
    ensures Matching(s, list, ws) == list
  {
    if list != [] {
      MatchingAll(s, list[1..], ws);
      assert [list[0]] + list[1..] == list;
    }
  }

  /**
   * One pass of the loop of `filter_job_list`: the jobs of `list` matching
   * every token of `selector`, expanded with a fresh `seen` inside the
   * bound `new Set(list)`.
   */
  function Step(s: State, list: seq<nat>, selector: string): Expansion
    requires s.Valid() && IdsOf(s, list)
  {
    ExpandList(s, Matching(s, list, Split(selector)), {}, Elems(list), true, true)
  }

  /** The ids of `out`, all drawn from `list`, name jobs of `s`. */
  lemma SubsetIds(s: State, list: seq<nat>, out: seq<nat>)
    requires IdsOf(s, list) && Elems(out) <= Elems(list)
    ensures IdsOf(s, out)
  {
    forall k | 0 <= k < |out| ensures out[k] < |s.jobList| {
      assert out[k] in Elems(list);
    }
  }

  /** What `filter_job_list` returns, or the label it fails on. */
  datatype Outcome = Failed(missing: Label) | Visible(jobs: seq<nat>)

  /** The outcome after one more selector: a failure is passed on, a list is stepped. */
  function Advance(s: State, before: Outcome, selector: string): (r: Outcome)
    requires s.Valid() && (before.Visible? ==> IdsOf(s, before.jobs))
    ensures r.Visible? ==> IdsOf(s, r.jobs) && Distinct(r.jobs)
  {
    match before
    case Failed(d) => Failed(d)
    case Visible(list) =>
      match Step(s, list, selector)
      case Stuck(d) => Failed(d)
      case Expanded(out, _) =>
        SubsetIds(s, list, out);
        Visible(out)
  }

  /**
   * The visible list after the selectors `sels`, applied in order, each
   * narrowing the result of the ones before it.
   */
  function VisibleAfter(s: State, sels: seq<string>): (r: Outcome)
    requires s.Valid()
    ensures r.Visible? ==> IdsOf(s, r.jobs) && Distinct(r.jobs)
    decreases |sels|
  {
    if sels == [] then Visible(Ids(|s.jobList|))
    else Advance(s, VisibleAfter(s, sels[..|sels| - 1]), sels[|sels| - 1])
  }

  /** Once a selector fails, the chain fails with the same label whatever follows. */
  lemma {:induction false} FailedStaysFailed(s: State, sels: seq<string>, n: nat)
    requires s.Valid() && n <= |sels|
    requires VisibleAfter(s, sels[..n]).Failed?
    ensures VisibleAfter(s, sels) == VisibleAfter(s, sels[..n])
    decreases |sels| - n
  {
    if n < |sels| {
      assert sels[..n + 1][..n] == sels[..n];
      FailedStaysFailed(s, sels, n + 1);
    } else {
      assert sels[..n] == sels;
    }
  }

  /** `filter_job_list(state)`. */
  method FilterJobList(s: State) returns (r: Outcome)
    requires s.Valid()
    ensures r == VisibleAfter(s, s.selectorList)
    ensures s.selectorList == [] ==> r == Visible(Ids(|s.jobList|))
  {
    var sels := s.selectorList;
    var jobList := Ids(|s.jobList|);
    for i := 0 to |sels|
      invariant VisibleAfter(s, sels[..i]) == Visible(jobList)
    {
      ghost var upTo := sels[..i + 1];
      assert upTo[..|upTo| - 1] == sels[..i] && upTo[|upTo| - 1] == sels[i];
      var ws := Split(sels[i]);
      var matched := Matching(s, jobList, ws);
      var step := Expand(s, matched, {}, Elems(jobList), true, true);
      assert step == Step(s, jobList, sels[i]);
      if step.Stuck? {
        r := Failed(step.missing);
        FailedStaysFailed(s, sels, i + 1);
        return;
      }
      SubsetIds(s, jobList, step.out);
      jobList := step.out;
    }
    assert sels[..|sels|] == sels;
    r := Visible(jobList);
  }

  /**
   * A step keeps every job that matches the selector, adds only jobs of the
   * list it narrows, and repeats none; a step that matches nothing leaves
   * nothing.
   */
  lemma StepNarrows(s: State, list: seq<nat>, selector: string)
    requires s.Valid() && IdsOf(s, list)
    ensures var r := Step(s, list, selector);
      r.Expanded? ==>
        && Elems(r.out) <= Elems(list)
        && Elems(Matching(s, list, Split(selector))) <= Elems(r.out)
        && Distinct(r.out)
    ensures Matching(s, list, Split(selector)) == [] ==> Step(s, list, selector) == Expanded([], {})
  {
    var matched := Matching(s, list, Split(selector));
    var r := Step(s, list, selector);
    if r.Expanded? {
      forall x | x in Elems(matched) ensures x in Elems(r.out) {
        var k :| 0 <= k < |matched| && matched[k] == x;
        assert x in Elems(list);
      }
    }
  }

  /**
   * The last selector narrows the list the others leave: the result is
   * part of that list and holds every job of it the selector matches.  A
   * failure before it is passed on unchanged.
   */
  lemma VisibleNarrows(s: State, sels: seq<string>)
    requires s.Valid() && sels != []
    ensures var before := VisibleAfter(s, sels[..|sels| - 1]);
      var after := VisibleAfter(s, sels);
      && (after.Visible? ==>
            && before.Visible?
            && Elems(after.jobs) <= Elems(before.jobs)
            && Elems(Matching(s, before.jobs, Split(sels[|sels| - 1]))) <= Elems(after.jobs))
      && (before.Failed? ==> after == before)
  {
    var before := VisibleAfter(s, sels[..|sels| - 1]);
    if before.Visible? {
      StepNarrows(s, before.jobs, sels[|sels| - 1]);
    }
  }

  /** Unfolding the chain at its last selector. */
  lemma VisibleAfterSnoc(s: State, sels: seq<string>, sel: string)
    requires s.Valid()
    ensures VisibleAfter(s, sels + [sel]) == Advance(s, VisibleAfter(s, sels), sel)
  {
    var all := sels + [sel];
    assert all[..|all| - 1] == sels && all[|all| - 1] == sel;
  }

  /** A selector applied to the empty list leaves it empty. */
  lemma AdvanceEmpty(s: State, sel: string)
    requires s.Valid()
    ensures Advance(s, Visible([]), sel) == Visible([])
  {
    assert Matching(s, [], Split(sel)) == [];
    assert Step(s, [], sel) == ExpandList(s, [], {}, {}, true, true);
  }

  /** One more selector after an empty visible list. */
  lemma EmptyStep(s: State, sels: seq<string>, sel: string)
    requires s.Valid() && VisibleAfter(s, sels) == Visible([])
    ensures VisibleAfter(s, sels + [sel]) == Visible([])
  {
    VisibleAfterSnoc(s, sels, sel);
    AdvanceEmpty(s, sel);
  }

  /** Once the visible list is empty, every further selector keeps it empty. */
  lemma {:induction false} EmptyStaysEmpty(s: State, sels: seq<string>, more: seq<string>)
    requires s.Valid()
    requires VisibleAfter(s, sels) == Visible([])
    ensures VisibleAfter(s, sels + more) == Visible([])
    decreases |more|
  {
    if more == [] {
      assert sels + more == sels;
    } else {
      var init, last := more[..|more| - 1], more[|more| - 1];
      EmptyStaysEmpty(s, sels, init);
      EmptyStep(s, sels + init, last);
      SplitLast(sels, more);
    }
  }

  /** A non-empty tail split into its front and its last element. */
  lemma SplitLast<T>(a: seq<T>, b: seq<T>)
    requires b != []
    ensures a + b == (a + b[..|b| - 1]) + [b[|b| - 1]]
  {
    assert b == b[..|b| - 1] + [b[|b| - 1]];
  }

  /**
   * The empty selector splits to `[""]`, matches every job, and so keeps
   * the same set of jobs (in the order the walk visits them).
   */
  lemma EmptySelectorKeepsJobs(s: State, list: seq<nat>)
    requires s.Valid() && IdsOf(s, list)
    ensures var r := Step(s, list, "");
      r.Expanded? ==> Elems(r.out) == Elems(list)
  {
    forall k | 0 <= k < |list| ensures Matches(s.jobList[list[k]].text, Split("")) {
      EmptySelectorMatchesAll(s.jobList[list[k]].text);
    }
    MatchingAll(s, list, Split(""));
    var r := Step(s, list, "");
    if r.Expanded? {
      forall x | x in Elems(list) ensures x in Elems(r.out) {
        var k :| 0 <= k < |list| && list[k] == x;
      }
    }
  }

  /** Jobs already seen at the head of a list are passed over by the walk. */
  lemma {:induction false} SkipSeen(s: State, a: seq<nat>, b: seq<nat>, seen: set<nat>, max: set<nat>,
      upward: bool, downward: bool)
    requires s.Valid() && IdsOf(s, a + b) && Elems(a) <= seen
    ensures IdsOf(s, b)
    ensures ExpandList(s, a + b, seen, max, upward, downward) == ExpandList(s, b, seen, max, upward, downward)
    decreases |a|
  {
    forall k | 0 <= k < |b| ensures b[k] < |s.jobList| {
      assert b[k] == (a + b)[|a| + k];
    }
    if a == [] {
      assert a + b == b;
    } else {
      assert a[0] in Elems(a);
      SkipUnfold(s, a + b, seen, max, upward, downward);
      assert (a + b)[1..] == a[1..] + b;
      SkipSeen(s, a[1..], b, seen, max, upward, downward);
    }
  }

  /**
   * Walking again the jobs a walk yielded, in the order it yielded them,
   * from the same `seen` and in the same bound, repeats that walk exactly.
   * The bound `max` is given as the job ids `bound` it holds.
   */
  lemma {:induction false} Replay(s: State, list: seq<nat>, seen: set<nat>, max: set<nat>, bound: seq<nat>,
      upward: bool, downward: bool)
    requires s.Valid() && IdsOf(s, list) && IdsOf(s, bound) && max == Elems(bound)
    requires ExpandList(s, list, seen, max, upward, downward).Expanded?
    ensures var r := ExpandList(s, list, seen, max, upward, downward);
      IdsOf(s, r.out) && ExpandList(s, r.out, seen, max, upward, downward) == r
    decreases |list|, 1
  {
    if list != [] {
      if list[0] !in max || list[0] in seen {
        Replay(s, list[1..], seen, max, bound, upward, downward);
      } else {
        ReplayFresh(s, list, seen, max, bound, upward, downward);
      }
    }
  }

  /** Replay when the first job of the list is fresh: it is yielded first, and so replayed first. */
  lemma {:induction false} ReplayFresh(s: State, list: seq<nat>, seen: set<nat>, max: set<nat>, bound: seq<nat>,
      upward: bool, downward: bool)
    requires s.Valid() && IdsOf(s, list) && IdsOf(s, bound) && max == Elems(bound)
    requires list != [] && list[0] in max && list[0] !in seen
    requires ExpandList(s, list, seen, max, upward, downward).Expanded?
    ensures var r := ExpandList(s, list, seen, max, upward, downward);
      IdsOf(s, r.out) && ExpandList(s, r.out, seen, max, upward, downward) == r
    decreases |list|, 0
  {
    var j := list[0];
    var r := ExpandList(s, list, seen, max, upward, downward);
    FreshUnfold(s, list, seen, max, upward, downward);
    var up := if upward then ExpandUp(s, j, 0, seen + {j}, max) else Expanded([], seen + {j});
    var down := if downward then ExpandDown(s, j, 0, up.seen, max) else Expanded([], up.seen);
    var rest := ExpandList(s, list[1..], down.seen, max, upward, downward);
    Replay(s, list[1..], down.seen, max, bound, upward, downward);
    assert down.Expanded? && rest.Expanded? && r.out == [j] + up.out + down.out + rest.out;
    ReplayTail(j, up.out, down.out, rest.out, r.out);
    SubsetIds(s, bound, r.out);
    SkipSeen(s, up.out + down.out, rest.out, down.seen, max, upward, downward);
    FreshUnfold(s, r.out, seen, max, upward, downward);
  }

  lemma ReplayTail(j: nat, up: seq<nat>, down: seq<nat>, rest: seq<nat>, out: seq<nat>)
    requires out == [j] + up + down + rest
    ensures out != [] && out[0] == j && out[1..] == up + down + rest
  {
  }

  /**
   * A walk that yields only jobs of a smaller bound, inside that bound,
   * behaves exactly as in the larger one: a job of the larger bound outside
   * the smaller is met only once it is already seen.
   */
  lemma {:induction false} ListShrink(s: State, list: seq<nat>, seen: set<nat>, max: set<nat>, small: set<nat>,
      upward: bool, downward: bool)
    requires s.Valid() && IdsOf(s, list) && small <= max
    requires var r := ExpandList(s, list, seen, max, upward, downward);
      r.Expanded? && Elems(r.out) <= small
    ensures ExpandList(s, list, seen, small, upward, downward) == ExpandList(s, list, seen, max, upward, downward)
    decreases max - seen, 0, |list|
  {
    if list != [] {
      var j := list[0];
      if j !in max || j in seen {
        ListShrink(s, list[1..], seen, max, small, upward, downward);
      } else {
        var up := if upward then ExpandUp(s, j, 0, seen + {j}, max) else Expanded([], seen + {j});
        var down := if downward then ExpandDown(s, j, 0, up.seen, max) else Expanded([], up.seen);
        var rest := ExpandList(s, list[1..], down.seen, max, upward, downward);
        var r := ExpandList(s, list, seen, max, upward, downward);
        assert r.out == [j] + up.out + down.out + rest.out;
        assert j in Elems(r.out);
        if upward {
          UpShrink(s, j, 0, seen + {j}, max, small);
        }
        if downward {
          DownShrink(s, j, 0, up.seen, max, small);
        }
        ListShrink(s, list[1..], down.seen, max, small, upward, downward);
      }
    }
  }

  lemma {:induction false} UpShrink(s: State, j: nat, k: nat, seen: set<nat>, max: set<nat>, small: set<nat>)
    requires s.Valid() && j < |s.jobList| && k <= |s.jobList[j].ts| && small <= max
    requires Elems(ExpandUp(s, j, k, seen, max).out) <= small
    ensures ExpandUp(s, j, k, seen, small) == ExpandUp(s, j, k, seen, max)
    decreases max - seen, 1, |s.jobList[j].ts| - k
  {
    var ts := s.jobList[j].ts;
    if k < |ts| {
      var t := ts[k];
      if t in s.jobsOfD {
        ListShrink(s, s.jobsOfD[t], seen, max, small, true, false);
      }
      var head := if t in s.jobsOfD then ExpandList(s, s.jobsOfD[t], seen, max, true, false) else Expanded([], seen);
      UpShrink(s, j, k + 1, head.seen, max, small);
    }
  }

  lemma {:induction false} DownShrink(s: State, j: nat, k: nat, seen: set<nat>, max: set<nat>, small: set<nat>)
    requires s.Valid() && j < |s.jobList| && k <= |s.jobList[j].ds| && small <= max
    requires var r := ExpandDown(s, j, k, seen, max);
      r.Expanded? && Elems(r.out) <= small
    ensures ExpandDown(s, j, k, seen, small) == ExpandDown(s, j, k, seen, max)
    decreases max - seen, 1, |s.jobList[j].ds| - k
  {
    var ds := s.jobList[j].ds;
    if k < |ds| && ds[k] in s.jobsOfT {
      ListShrink(s, s.jobsOfT[ds[k]], seen, max, small, false, true);
      var head := ExpandList(s, s.jobsOfT[ds[k]], seen, max, false, true);
      DownShrink(s, j, k + 1, head.seen, max, small);
    }
  }

  /**
   * Filtering the list a selector left with the empty selector gives that
   * list back, in the same order: every job matches, and the walk from
   * them repeats the one that produced them.
   */
  lemma StepAgain(s: State, list: seq<nat>, selector: string)
    requires s.Valid() && IdsOf(s, list)
    requires Step(s, list, selector).Expanded?
    ensures var v := Step(s, list, selector).out;
      IdsOf(s, v) && Step(s, v, "") == Expanded(v, Elems(v))
  {
    var m := Matching(s, list, Split(selector));
    var r := ExpandList(s, m, {}, Elems(list), true, true);
    var v := r.out;
    SubsetIds(s, list, v);
    forall k | 0 <= k < |v| ensures Matches(s.jobList[v[k]].text, Split("")) {
      EmptySelectorMatchesAll(s.jobList[v[k]].text);
    }
    MatchingAll(s, v, Split(""));
    Replay(s, m, {}, Elems(list), list, true, true);
    ListShrink(s, v, {}, Elems(list), Elems(v), true, true);
  }

  /**
   * Appending an empty selector to the chain changes the visible set of
   * jobs not at all, unless expanding it fails; after at least one
   * selector it changes nothing, order included, so only a first selector
   * (whose seeds are all the jobs) can fail on it.
   */
  lemma AppendEmptySelector(s: State, sels: seq<string>)
    requires s.Valid()
    ensures var after := VisibleAfter(s, sels + [""]);
      var before := VisibleAfter(s, sels);
      && (after.Visible? ==> before.Visible? && Elems(after.jobs) == Elems(before.jobs))
      && (before.Failed? ==> after == before)
      && (sels != [] && before.Visible? ==> after == before)
  {
    var all := sels + [""];
    assert all[..|all| - 1] == sels && all[|all| - 1] == "";
    var before := VisibleAfter(s, sels);
    if before.Visible? {
      EmptySelectorKeepsJobs(s, before.jobs);
      if sels != [] {
        var prev := VisibleAfter(s, sels[..|sels| - 1]);
        StepAgain(s, prev.jobs, sels[|sels| - 1]);
      }
    }
  }

  /** When every consumed label has a producer, the chain never fails. */
  lemma {:induction false} NoFailureWhenAllProduced(s: State, sels: seq<string>)
    requires s.Valid()
    requires forall i, d :: 0 <= i < |s.jobList| && d in s.jobList[i].ds ==> d in s.jobsOfT
    ensures VisibleAfter(s, sels).Visible?
    decreases |sels|
  {
    if sels != [] {
      NoFailureWhenAllProduced(s, sels[..|sels| - 1]);
      var list := VisibleAfter(s, sels[..|sels| - 1]).jobs;
      assert ProducersKnown(s, Elems(list));
    }
  }

  /** A failing chain names a label that no job produces. */
  lemma {:induction false} FailureNamesUnproducedLabel(s: State, sels: seq<string>)
    requires s.Valid()
    requires Indexes(s.jobList, s.jobsOfT, Produced)
    ensures var r := VisibleAfter(s, sels);
      r.Failed? ==> r.missing !in s.jobsOfT && forall i :: 0 <= i < |s.jobList| ==> r.missing !in s.jobList[i].ts
    decreases |sels|
  {
    var r := VisibleAfter(s, sels);
    if sels != [] {
      FailureNamesUnproducedLabel(s, sels[..|sels| - 1]);
    }
    if r.Failed? {
      IndexMeaning(s.jobList, s.jobsOfT, Produced, r.missing);
    }
  }

  /** The downward loop fails when some label from position `k` on has no producer. */
  lemma {:induction false} DownStuckOnUnproduced(s: State, j: nat, k: nat, seen: set<nat>, max: set<nat>)
    requires s.Valid() && j < |s.jobList| && k <= |s.jobList[j].ds|
    requires exists i :: k <= i < |s.jobList[j].ds| && s.jobList[j].ds[i] !in s.jobsOfT
    ensures ExpandDown(s, j, k, seen, max).Stuck?
    decreases |s.jobList[j].ds| - k
  {
    var ds := s.jobList[j].ds;
    if ds[k] in s.jobsOfT {
      var head := ExpandList(s, s.jobsOfT[ds[k]], seen, max, false, true);
      if head.Expanded? {
        DownStuckOnUnproduced(s, j, k + 1, head.seen, max);
      }
    }
  }

  /**
   * A walk that goes downward fails when the first job of its list is fresh,
   * within the bound and consumes a label nobody produces.  For a job met
   * anywhere in the walk, see Reach.UnproducedNeverExpanded.
   */
  lemma FreshUnproducedFails(s: State, list: seq<nat>, seen: set<nat>, max: set<nat>, upward: bool)
    requires s.Valid() && IdsOf(s, list)
    requires list != [] && list[0] in max && list[0] !in seen
    requires exists d :: d in s.jobList[list[0]].ds && d !in s.jobsOfT
    ensures ExpandList(s, list, seen, max, upward, true).Stuck?
  {
    var j := list[0];
    var d :| d in s.jobList[j].ds && d !in s.jobsOfT;
    var i :| 0 <= i < |s.jobList[j].ds| && s.jobList[j].ds[i] == d;
    var up := if upward then ExpandUp(s, j, 0, seen + {j}, max) else Expanded([], seen + {j});
    DownStuckOnUnproduced(s, j, 0, up.seen, max);
  }

  /**
   * With a single selector, the first matching job in list order is walked
   * first; if it consumes a label nobody produces, the filter fails.
   */
  lemma FirstMatchUnproducedFails(s: State, sel: string)
    requires s.Valid()
    requires var m := Matching(s, Ids(|s.jobList|), Split(sel));
      m != [] && exists d :: d in s.jobList[m[0]].ds && d !in s.jobsOfT
    ensures VisibleAfter(s, [sel]).Failed?
  {
    var all := Ids(|s.jobList|);
    var m := Matching(s, all, Split(sel));
    assert m[0] in all;
    assert [sel][..0] == [];
    FreshUnproducedFails(s, m, {}, Elems(all), true);
  }

  /** Two states with the same jobs and indexes; the selectors and the flag may differ. */
  predicate SameGraph(a: State, b: State)
  {
    a.jobList == b.jobList && a.jobsOfT == b.jobsOfT && a.jobsOfD == b.jobsOfD
  }

  /** The walk reads only the jobs and the two indexes. */
  lemma {:induction false} ListSameGraph(a: State, b: State, list: seq<nat>, seen: set<nat>, max: set<nat>,
      upward: bool, downward: bool)
    requires a.Valid() && b.Valid() && SameGraph(a, b) && IdsOf(a, list)
    ensures ExpandList(a, list, seen, max, upward, downward) == ExpandList(b, list, seen, max, upward, downward)
    decreases max - seen, 0, |list|
  {
    if list != [] {
      var j := list[0];
      if j !in max || j in seen {
        ListSameGraph(a, b, list[1..], seen, max, upward, downward);
      } else {
        if upward {
          UpSameGraph(a, b, j, 0, seen + {j}, max);
        }
        var up := if upward then ExpandUp(a, j, 0, seen + {j}, max) else Expanded([], seen + {j});
        if downward {
          DownSameGraph(a, b, j, 0, up.seen, max);
        }
        var down := if downward then ExpandDown(a, j, 0, up.seen, max) else Expanded([], up.seen);
        if down.Expanded? {
          ListSameGraph(a, b, list[1..], down.seen, max, upward, downward);
        }
      }
    }
  }

  lemma {:induction false} UpSameGraph(a: State, b: State, j: nat, k: nat, seen: set<nat>, max: set<nat>)
    requires a.Valid() && b.Valid() && SameGraph(a, b) && j < |a.jobList| && k <= |a.jobList[j].ts|
    ensures ExpandUp(a, j, k, seen, max) == ExpandUp(b, j, k, seen, max)
    decreases max - seen, 1, |a.jobList[j].ts| - k
  {
    var ts := a.jobList[j].ts;
    if k < |ts| {
      var t := ts[k];
      if t in a.jobsOfD {
        ListSameGraph(a, b, a.jobsOfD[t], seen, max, true, false);
      }
      var head := if t in a.jobsOfD then ExpandList(a, a.jobsOfD[t], seen, max, true, false) else Expanded([], seen);
      UpSameGraph(a, b, j, k + 1, head.seen, max);
    }
  }

  lemma {:induction false} DownSameGraph(a: State, b: State, j: nat, k: nat, seen: set<nat>, max: set<nat>)
    requires a.Valid() && b.Valid() && SameGraph(a, b) && j < |a.jobList| && k <= |a.jobList[j].ds|
    ensures ExpandDown(a, j, k, seen, max) == ExpandDown(b, j, k, seen, max)
    decreases max - seen, 1, |a.jobList[j].ds| - k
  {
    var ds := a.jobList[j].ds;
    if k < |ds| && ds[k] in a.jobsOfT {
      ListSameGraph(a, b, a.jobsOfT[ds[k]], seen, max, false, true);
      var head := ExpandList(a, a.jobsOfT[ds[k]], seen, max, false, true);
      if head.Expanded? {
        DownSameGraph(a, b, j, k + 1, head.seen, max);
      }
    }
  }

  lemma {:induction false} MatchingSameGraph(a: State, b: State, list: seq<nat>, ws: seq<string>)
    requires SameGraph(a, b) && IdsOf(a, list)
    ensures Matching(a, list, ws) == Matching(b, list, ws)
  {
    if list != [] {
      MatchingSameGraph(a, b, list[1..], ws);
    }
  }

  /** The filter's outcome depends on the selectors given, not on the state's own list. */
  lemma {:induction false} VisibleAfterSameGraph(a: State, b: State, sels: seq<string>)
    requires a.Valid() && b.Valid() && SameGraph(a, b)
    ensures VisibleAfter(a, sels) == VisibleAfter(b, sels)
    decreases |sels|
  {
    if sels != [] {
      var init := sels[..|sels| - 1];
      VisibleAfterSameGraph(a, b, init);
      var before := VisibleAfter(a, init);
      if before.Visible? {
        MatchingSameGraph(a, b, before.jobs, Split(sels[|sels| - 1]));
        ListSameGraph(a, b, Matching(a, before.jobs, Split(sels[|sels| - 1])), {}, Elems(before.jobs), true, true);
      }
    }
  }
}
