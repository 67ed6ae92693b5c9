/**
 * Jobs, the application state and the two reverse indexes built by `run`.
 *
 * A job is addressed by its position in `jobList`; the JavaScript code uses
 * object identity, which is the same thing for a list of distinct objects.
 * `jobsOfT` maps a label to the jobs that produce it, `jobsOfD` to the jobs
 * that consume it; both are filled by appending, walking the jobs in order.
 */
module JobIndex {
  import opened Seqs
  import opened Labels

  /** A job as the viewer keeps it: distinct produced and consumed labels, and its text. */
  datatype Job = Job(ts: seq<Label>, ds: seq<Label>, text: string)

  /**
   * A job record as delivered to the viewer.  Only the two label containers
   * take part in the model; `text` is the record's JSON serialization, which
   * is taken as given.
   */
  datatype RawJob = RawJob(ts: Container, ds: Container, text: string)

  type Buckets = map<Label, seq<nat>>

  /** The store's state: jobs, the two indexes, the selectors and a flag. */
  datatype State = State(
    jobList: seq<Job>,
    jobsOfT: Buckets,
    jobsOfD: Buckets,
    selectorList: seq<string>,
    saveSuccess: bool)
  {
    /** Every id stored in an index names a job of `jobList`. */
    predicate Valid()
    {
      && (forall t | t in jobsOfT :: forall k :: 0 <= k < |jobsOfT[t]| ==> jobsOfT[t][k] < |jobList|)
      && (forall t | t in jobsOfD :: forall k :: 0 <= k < |jobsOfD[t]| ==> jobsOfD[t][k] < |jobList|)
    }
  }

  /** Which of a job's two label lists an index is built from. */
  datatype Side = Produced | Consumed

  function LabelsOf(j: Job, side: Side): seq<Label>
  {
    match side
    case Produced => j.ts
    case Consumed => j.ds
  }

  /** Every job's label lists are free of repeats, as `run` builds them. */
  predicate WellFormed(jobs: seq<Job>)
  {
    forall i :: 0 <= i < |jobs| ==> Distinct(jobs[i].ts) && Distinct(jobs[i].ds)
  }

  /** The job the viewer derives from a record: each container's distinct leaves. */
  function ToJob(raw: RawJob): (j: Job)
    ensures Distinct(j.ts) && Distinct(j.ds)
    ensures forall s :: s in j.ts <==> Occurs(raw.ts, s)
    ensures forall s :: s in j.ds <==> Occurs(raw.ds, s)
    ensures j.text == raw.text
  {
    Job(LabelList(raw.ts), LabelList(raw.ds), raw.text)
  }

  /**
   * Reference definition of a bucket: the ids below `n` whose labels on
   * `side` include `t`, in increasing order.
   */
  function Holders(jobs: seq<Job>, n: nat, side: Side, t: Label): (r: seq<nat>)
    requires n <= |jobs|
    ensures forall k :: 0 <= k < |r| ==> r[k] < n
    ensures forall k, l :: 0 <= k < l < |r| ==> r[k] < r[l]
    ensures forall i: nat :: i in r <==> i < n && t in LabelsOf(jobs[i], side)
  {
    if n == 0 then []
    else Holders(jobs, n - 1, side, t) + (if t in LabelsOf(jobs[n - 1], side) then [n - 1] else [])
  }

  /** `b` is the index of the first `n` jobs on `side`. */
  ghost predicate IndexesUpTo(jobs: seq<Job>, n: nat, b: Buckets, side: Side)
    requires n <= |jobs|
  {
    && (forall t :: t in b <==> Holders(jobs, n, side, t) != [])
    && (forall t | t in b :: b[t] == Holders(jobs, n, side, t))
  }

  ghost predicate Indexes(jobs: seq<Job>, b: Buckets, side: Side)
  {
    IndexesUpTo(jobs, |jobs|, b, side)
  }

  /**
   * A bucket lists the holders of its label in job order without repeats,
   * and the keys are exactly the labels some job holds.
   */
  lemma IndexMeaning(jobs: seq<Job>, b: Buckets, side: Side, t: Label)
    requires Indexes(jobs, b, side)
    ensures t in b <==> exists i :: 0 <= i < |jobs| && t in LabelsOf(jobs[i], side)
    ensures t in b ==> Distinct(b[t])
    ensures t in b ==> forall i: nat :: i in b[t] <==> i < |jobs| && t in LabelsOf(jobs[i], side)
  {
    var h := Holders(jobs, |jobs|, side, t);
    if exists i :: 0 <= i < |jobs| && t in LabelsOf(jobs[i], side) {
      var i :| 0 <= i < |jobs| && t in LabelsOf(jobs[i], side);
      assert i in h;
    }
    if h != [] {
      assert h[0] in h;
    }
  }

  /**
   * One inner loop of `run`: push `j` onto the bucket of every label in
   * `labels`, creating the bucket when the label is new.
   */
  method PushAll(index: Buckets, labels: seq<Label>, j: nat) returns (r: Buckets)
    requires Distinct(labels)
    ensures forall t :: t in r <==> t in index || t in labels
    ensures forall t | t in r ::
      r[t] == (if t in index then index[t] else []) + (if t in labels then [j] else [])
  {
    r := index;
    for k := 0 to |labels|
      invariant Pushed(index, Elems(labels[..k]), j, r)
    {
      var t := labels[k];
      assert labels[..k + 1] == labels[..k] + [t];
      DistinctConcat(labels[..k], [t]);
      assert Elems([t]) == {t};
      PushStep(index, Elems(labels[..k]), t, j, r);
      r := if t in r then r[t := r[t] + [j]] else r[t := [j]];
    }
    assert labels[..|labels|] == labels;
  }

  /** `r` is `index` with `j` pushed onto the bucket of every label in `done`. */
  ghost predicate Pushed(index: Buckets, done: set<Label>, j: nat, r: Buckets)
  {
    && (forall t :: t in r <==> t in index || t in done)
    && (forall t | t in r :: r[t] == (if t in index then index[t] else []) + (if t in done then [j] else []))
  }

  /** Pushing onto the bucket of one more label `t` extends what has been pushed by `t`. */
  lemma PushStep(index: Buckets, done: set<Label>, t: Label, j: nat, r: Buckets)
    requires t !in done && Pushed(index, done, j, r)
    ensures Pushed(index, done + {t}, j, if t in r then r[t := r[t] + [j]] else r[t := [j]])
  {
  }

  /** Adding job `n` to the index of the first `n` jobs gives the index of the first `n + 1`. */
  lemma PushExtends(jobs: seq<Job>, n: nat, b: Buckets, b': Buckets, side: Side)
    requires n < |jobs|
    requires IndexesUpTo(jobs, n, b, side)
    requires forall t :: t in b' <==> t in b || t in LabelsOf(jobs[n], side)
    requires forall t | t in b' ::
      b'[t] == (if t in b then b[t] else []) + (if t in LabelsOf(jobs[n], side) then [n] else [])
    ensures IndexesUpTo(jobs, n + 1, b', side)
  {
    forall t ensures t in b' <==> Holders(jobs, n + 1, side, t) != [] {
      if t in LabelsOf(jobs[n], side) {
        assert n in Holders(jobs, n + 1, side, t);
      }
    }
  }

  /** The nested loops of `run` that fill `jobs_of_t` and `jobs_of_d`. */
  method BuildIndex(jobs: seq<Job>) returns (jobsOfT: Buckets, jobsOfD: Buckets)
    requires WellFormed(jobs)
    ensures Indexes(jobs, jobsOfT, Produced)
    ensures Indexes(jobs, jobsOfD, Consumed)
  {
    jobsOfT, jobsOfD := map[], map[];
    for i := 0 to |jobs|
      invariant IndexesUpTo(jobs, i, jobsOfT, Produced)
      invariant IndexesUpTo(jobs, i, jobsOfD, Consumed)
    {
      var t' := PushAll(jobsOfT, jobs[i].ts, i);
      PushExtends(jobs, i, jobsOfT, t', Produced);
      var d' := PushAll(jobsOfD, jobs[i].ds, i);
      PushExtends(jobs, i, jobsOfD, d', Consumed);
      jobsOfT, jobsOfD := t', d';
    }
  }

  /** The ids an index stores name jobs of the list it indexes. */
  lemma IndexesAreValid(s: State)
    requires Indexes(s.jobList, s.jobsOfT, Produced)
    requires Indexes(s.jobList, s.jobsOfD, Consumed)
    ensures s.Valid()
  {
  }

  /**
   * `run` without the store and the rendering: derive the jobs, index them,
   * and start with no selectors.
   */
  method Run(data: seq<RawJob>) returns (s: State)
    ensures |s.jobList| == |data|
    ensures forall i :: 0 <= i < |data| ==> s.jobList[i] == ToJob(data[i])
    ensures Indexes(s.jobList, s.jobsOfT, Produced)
    ensures Indexes(s.jobList, s.jobsOfD, Consumed)
    ensures s.Valid() && WellFormed(s.jobList)
    ensures s.selectorList == [] && s.saveSuccess
  {
    var jobList := seq(|data|, i requires 0 <= i < |data| => ToJob(data[i]));
    var jobsOfT, jobsOfD := BuildIndex(jobList);
    s := State(jobList, jobsOfT, jobsOfD, [], true);
    IndexesAreValid(s);
  }
}
