# buildpy_viewer: the label-graph filter, in Dafny

buildpy_viewer shows the jobs of a buildpy build in the browser. Each job
produces some labels (`ts`) and consumes others (`ds`). The user types a
chain of keyword selectors. Each selector does two things:

1. It keeps the jobs still on display whose text contains every word of
   the selector.
2. It grows that set along shared labels, without leaving the jobs still
   on display.

This project models the part of `src/index.tsx` that does this:

- **Label flattening** (module `Labels`, file `labels.dfy`). This is
  `iterate_string_container`, which walks a nested string / array / object
  value and yields its leaf strings, followed by the `Set` that drops
  repeated labels.
- **Reverse indexes** (module `JobIndex`, file `jobs.dfy`). This is the body
  of `run`. It derives each job's label lists and fills `jobs_of_t` (the
  producers of each label) and `jobs_of_d` (the consumers of each label),
  pushing into dictionary buckets in job order.
- **Selector text** (module `Selectors`, file `selectors.dfy`). This covers
  `selector.split(/\s+/)` and `text.includes(w)`.
- **The walk and the filter** (module `Closure`, file `closure.dfy`).
  - `expand_job_list` is a depth-first walk with a shared `seen` set, bounded
    by `job_set_max`.
  - `filter_job_list` applies the selectors one after another.
  - The walk is specified by the mutually recursive functions `ExpandList`,
    `ExpandUp` and `ExpandDown`.
  - The generator with its loops is the methods `Expand`, `ExpandUpward` and
    `ExpandDownward`, each proved equal to its function.
  - `FilterJobList` is the loop of `filter_job_list`, proved equal to
    `VisibleAfter`.
- **Why a job is shown** (module `Reach`, file `reach.dfy`). Every yielded
  job is tagged as either a seed, or reached from an earlier yielded job
  through one label, upward or downward. The proof shows that a path never
  changes direction. Conversely, every job is expanded in the directions
  its tag allows: each job of the bound across such a label from it is
  seen before the walk or yielded by it. A job tagged upward is not
  expanded downward, even when it is also a seed. A job expanded downward
  that consumes a label nobody produces stops the walk with an error, so a
  walk that succeeds expanded no such job downward.
- **A worked example** (module `Scenarios`, file `scenarios.dfy`). Four jobs
  on which the walk is evaluated completely. It shows that the set the filter
  keeps depends on the order in which the matching jobs come, not only on the
  graph.
- **The store** (module `Store`, file `store.dfy`). The Redux reducer
  `root_reducer_of` is a function on states. The history node is a class, and
  `pushHistory` is a method that links a new node in place.

Jobs are ids, meaning positions in `jobList`. The JavaScript code compares
jobs by object identity, and the jobs are distinct objects, so an id stands
for exactly one job. The failure of the walk is modelled as a result:
`Expansion.Stuck` and `Outcome.Failed` carry the label that caused it. The
code reads `jobs_of_t[d]` without checking that some job produces `d`; if
none does, `for ... of undefined` throws and the filter fails.

The expansion the code computes is not a reachability closure that is the
same in both directions: the direction a job is first reached in sticks to
it, and because `seen` is shared, the result depends on the order of the
seeds. The model follows the
code. `Scenarios.CrossingFromP` and `Scenarios.CrossingFromQ` show the
difference on a concrete graph.

## Model

| member | source | states |
|---|---|---|
| Labels.Leaves | src/index.tsx:81-95 | the depth-first walk `iterate_string_container`; what it yields is stated by LeavesAreOccurrences |
| Labels.LeavesAreOccurrences | src/index.tsx:81-95 | the walk yields a string exactly when it occurs somewhere inside the container, that is, when it is the container itself or occurs in one of its elements or field values |
| Labels.LeavesOfAllAreOccurrences | src/index.tsx:86-89 | the array branch yields exactly the strings occurring in some element |
| Labels.LeavesOfFieldsAreOccurrences | src/index.tsx:90-94 | the object branch yields exactly the strings occurring in some field's value |
| Labels.Dedup | src/index.tsx:284-285 | `Array.from(new Set(xs))` has no repeats, has exactly the elements of `xs`, is no longer than `xs`, and lists the labels in the order of their first occurrence in `xs` |
| Labels.DedupOfDistinct | src/index.tsx:284-285 | a stream without repeats passes through the set unchanged |
| Labels.DedupKeepsFirst | src/index.tsx:284-285 | the first label of the stream stays first, a corollary of the first-occurrence order Dedup keeps |
| Labels.LabelList | src/index.tsx:284-285 | a job's label list has no repeats and holds exactly the strings occurring in its container |
| JobIndex.ToJob | src/index.tsx:283-287 | a derived job's `ts` and `ds` are repeat-free and hold exactly the labels of the record's containers; its text is the record's text |
| JobIndex.Holders | src/index.tsx:294-309 | reference bucket: the ids holding a label on one side, strictly increasing, and holding exactly the jobs that carry the label |
| JobIndex.IndexMeaning | src/index.tsx:294-309 | a label is a key exactly when some job holds it; its bucket has no repeats and holds exactly the jobs that carry the label |
| JobIndex.PushAll | src/index.tsx:295-301 | pushing a job onto the buckets of its labels creates the missing buckets and appends the job to every bucket of its labels; no other bucket changes |
| JobIndex.PushExtends | src/index.tsx:294-309 | one pass of the outer loop turns the index of the first n jobs into the index of the first n + 1 |
| JobIndex.BuildIndex | src/index.tsx:294-309 | the nested loops leave `jobs_of_t` and `jobs_of_d` equal to the reference index of producers and consumers |
| JobIndex.Run | src/index.tsx:282-316 | the initial state holds the derived jobs in order and both indexes, with every index entry naming a job, no selectors, and the flag set |
| Selectors.IsSpace | src/index.tsx:13 | the characters of the `\s` class in `SPACES_RE`; used by Split, whose pieces it constrains |
| Selectors.Split | src/index.tsx:172 | splitting gives at least one piece and no piece contains whitespace |
| Selectors.JoinSplit | src/index.tsx:172 | joining the pieces with single spaces gives the selector with each run of whitespace squeezed to one space, so splitting loses only the run lengths |
| Selectors.SplitWord | src/index.tsx:172 | a selector without whitespace is a single token |
| Selectors.Contains | src/index.tsx:175 | `text.includes(w)`; its meaning is stated by ContainsIsOccursIn |
| Selectors.Matches | src/index.tsx:175 | `ws.every(w => text.includes(w))`: every token is contained; used by Matching |
| Selectors.ContainsIsOccursIn | src/index.tsx:175 | `text.includes(w)` holds exactly when `w` occurs in `text` at some offset |
| Selectors.EmptySelectorMatchesAll | src/index.tsx:172-175 | the empty selector splits to `[""]`, which every text contains |
| Closure.ExpandList | src/index.tsx:124-167 | the walk yields only jobs in the bound that were not already seen, each once; `seen` grows by exactly what it yields; every seed in the bound ends up seen; a walk that does not go downward, or whose bound only consumes produced labels, never fails; a failure names a label with no producer |
| Closure.ExpandUp | src/index.tsx:137-151 | the upward label loop never fails, yields fresh jobs of the bound without repeats, and marks them seen; afterwards every job of the bound that consumes one of the labels from position `k` on is seen |
| Closure.ExpandDown | src/index.tsx:152-164 | the downward label loop yields fresh jobs of the bound without repeats and marks them seen; it fails only on a label with no producer; on success every label from position `k` on has a producer and every job of the bound that produces one of them is seen |
| Closure.Expand | src/index.tsx:124-167 | the generator, with its loop over the list and its shared `seen`, yields exactly what ExpandList specifies |
| Closure.ExpandUpward | src/index.tsx:137-151 | the loop over produced labels computes ExpandUp |
| Closure.ExpandDownward | src/index.tsx:152-164 | the loop over consumed labels computes ExpandDown, stopping at the first failure |
| Closure.Matching | src/index.tsx:175 | the filter keeps exactly the jobs of the list whose text contains every token, and keeps a repeat-free list repeat-free |
| Closure.MatchingConcat | src/index.tsx:175 | filtering a concatenation is concatenating the filtered parts, so the filter keeps the jobs in the order of the list |
| Closure.MatchingAll | src/index.tsx:175 | a token list every job matches keeps the list as it is |
| Closure.Step | src/index.tsx:173-183 | one pass of the loop: the matching jobs expanded from a fresh `seen` inside the bound of the current list; its properties are stated by StepNarrows, EmptySelectorKeepsJobs and StepAgain |
| Closure.Advance | src/index.tsx:171-183 | one more selector turns a visible list into a repeat-free list of jobs, or passes a failure on |
| Closure.VisibleAfter | src/index.tsx:169-186 | the outcome of a selector chain is a failure or a repeat-free list of jobs |
| Closure.FilterJobList | src/index.tsx:169-186 | the loop of `filter_job_list` computes VisibleAfter of the state's selectors; with no selectors it returns the whole job list |
| Closure.FailedStaysFailed | src/index.tsx:171-184 | once a selector fails, the whole chain fails with the same label |
| Closure.StepNarrows | src/index.tsx:173-183 | a step's result lies inside the list it started from and contains every job the selector matched; a step matching nothing yields nothing |
| Closure.VisibleNarrows | src/index.tsx:171-184 | each selector narrows the list the earlier ones left, keeps all its matches, and passes a failure on unchanged |
| Closure.EmptyStaysEmpty | src/index.tsx:171-184 | once the visible list is empty, every later selector keeps it empty |
| Closure.EmptySelectorKeepsJobs | src/index.tsx:172-183 | when its walk succeeds, an empty selector keeps exactly the set of jobs it was given |
| Closure.SkipSeen | src/index.tsx:133-134 | jobs already seen at the head of a list are passed over: the walk of the rest is the walk of the whole |
| Closure.Replay | src/index.tsx:133-165 | walking the jobs a walk yielded, in its order, from the same `seen` and bound, repeats that walk exactly |
| Closure.ListShrink | src/index.tsx:124-167 | a walk whose yield lies inside a smaller bound gives the same result in that bound |
| Closure.StepAgain | src/index.tsx:171-183 | filtering a selector's result with the empty selector gives back that result, order included |
| Closure.AppendEmptySelector | src/index.tsx:171-184 | appending an empty selector leaves the visible set unchanged whenever the longer chain succeeds, and a failing chain fails with the same label; after at least one selector it leaves the list exactly as it was, so only a first selector, whose seeds are all the jobs, can make it fail |
| Closure.NoFailureWhenAllProduced | src/index.tsx:152-163 | if every consumed label has a producer, the filter never fails |
| Closure.FailureNamesUnproducedLabel | src/index.tsx:152-163 | a failing filter names a label that no job produces |
| Closure.DownStuckOnUnproduced | src/index.tsx:152-163 | the downward loop fails when any label it has yet to visit has no producer |
| Closure.FreshUnproducedFails | src/index.tsx:133-163 | a downward walk fails when the first job of its list is fresh, inside the bound and consumes a label with no producer |
| Closure.FirstMatchUnproducedFails | src/index.tsx:169-186 | with one selector, if the first matching job consumes a label with no producer, the filter fails |
| Closure.VisibleAfterSameGraph | src/index.tsx:169-186 | the filter's outcome does not depend on the selector list or flag stored in the state, only on the selectors it is given |
| Reach.ListReached | src/index.tsx:133-166 | a walk started after a justified trace extends it with jobs that are all justified: each is a seed, or a consumer of a label produced by an earlier job reached upward, or a producer of a label consumed by an earlier job reached downward; and each new job was expanded in the directions its tag allows, so its neighbours in the bound end up seen |
| Reach.FreshReached | src/index.tsx:134-164 | the same two facts for one fresh job with its two label loops and the rest of the list |
| Reach.JobReached | src/index.tsx:137-164 | the two label loops of one job extend a justified trace with justified jobs, each expanded as its tag allows |
| Reach.TailReached | src/index.tsx:133-166 | the rest of the outer loop extends a justified and expanded trace with justified jobs, each expanded as its tag allows |
| Reach.UpReached | src/index.tsx:137-151 | every job found through a produced label is a consumer of it and is reached upward from a seed or an upward job, and is itself expanded upward |
| Reach.DownReached | src/index.tsx:152-164 | every job found through a consumed label is a producer of it and is reached downward from a seed or a downward job, and is itself expanded downward |
| Reach.ConsumersReached | src/index.tsx:139-149 | every job the upward walk of a label's consumers yields is justified, hanging off the producing job, and is expanded upward |
| Reach.ProducersReached | src/index.tsx:153-163 | every job the downward walk of a label's producers yields is justified, hanging off the consuming job, and is expanded downward |
| Reach.WalkReached | src/index.tsx:124-167 | every job a walk yields is a seed or hangs off an earlier yielded job by one label, and no path changes direction; conversely, for every yielded job, each job of the bound across one of its labels in a direction its tag allows (both walk directions for a seed, upward for an upward job, downward for a downward one) was seen before or is yielded, and a job expanded downward has a producer for every label it consumes |
| Reach.BlockClosed | src/index.tsx:134-164 | a fresh job is expanded in every direction its tag allows, through ExpandUp and ExpandDown |
| Reach.UnproducedNeverExpanded | src/index.tsx:152-163 | a walk that succeeds expanded downward no job consuming a label with no producer: every downward job, and every seed of a downward walk, has a producer for each label it consumes |
| Scenarios.CrossingFromP | src/index.tsx:133-164 | seeds P then Q: the walk yields P, R, Q and never S, because R was reached upward |
| Scenarios.CrossingFromQ | src/index.tsx:133-164 | seeds Q then P: the walk yields Q, R, P, S, so the result set depends on the seed order |
| Scenarios.CrossingBelowR | src/index.tsx:152-164 | walking down from R reaches P and then S |
| Scenarios.CrossingAboveR | src/index.tsx:137-151 | walking up from R reaches Q only |
| Store.Reduce | src/index.tsx:260-280 | no state yet gives the initial state; `add_selector` appends `""` at the end; `update_selector` writes only position `i` (or appends when `i` is the length, or changes nothing when `i` is negative); any other action returns the state as is; jobs, indexes and flag never change |
| Store.UpdateSameIsIdentity | src/index.tsx:270-273 | writing the selector a position already holds gives back the same state |
| Store.UpdateLastWins | src/index.tsx:270-273 | of two updates to one position the later wins |
| Store.UpdatesCommute | src/index.tsx:270-273 | updates to different positions commute |
| Store.AddSelectorKeepsDisplay | src/index.tsx:266-269 | after adding a selector, a display that still succeeds shows the same set of jobs as before, and a failing filter keeps failing with the same label; when there were selectors already and the display succeeded, it stays exactly the same, order included |
| Store.UpdateKeepsEarlierSteps | src/index.tsx:270-273 | editing selector `i` leaves the outcome of the selectors before it unchanged |
| Store.History.constructor | src/index.tsx:15-19 | a new node holds its state and its predecessor and has no successor |
| Store.PushHistory | src/index.tsx:97-103 | a fresh node with `prev == h`, `value == v` and no successor becomes `h.next` and is returned; what `h.next` held before is unlinked; `h.prev` and `h.value` are unchanged |

## Left out

- The React components `Display`, `Selector`, `Selectors` and `App` (src/index.tsx:188-258) and the Redux `createStore`/`Provider` wiring (src/index.tsx:317-322) are user-interface plumbing.
- `main` (src/index.tsx:325-333) fetches the records over the network and renders into the DOM. That is I/O; `Run` takes the records as a parameter.
- server.py is not part of this model. It serves files over HTTP, and `jp` wraps `os.path.normpath`.
- `JSON.stringify` for a job's text (src/index.tsx:286) is not modelled. `RawJob.text` is taken as given, and only substring containment is used.
- `Container` lists an object's fields in the order `for ... in` enumerates them. JavaScript lists integer-like keys first and other keys in insertion order; the model takes that order as given.
- Numbers, booleans and `null` in a label position are `Scalar`. `for ... in` over them enumerates nothing, so they yield no labels.
- Plain-object prototype quirks are not modelled. A label such as `"constructor"` passes the `in` checks at src/index.tsx:139 and 296 even with no bucket behind it. Buckets are a Dafny `map`, which holds only the keys put in it.
- `IsSpace` lists the characters of JavaScript's `\s` class; Unicode general-category lookups are not modelled beyond that list.
- Laziness of the generator is not modelled. `Array.from` drains it at once, so the failure of a walk is the failure of the whole filter, and the model returns the failure instead of a partial list.
- immer's `setAutoFreeze`, the `save_success` flag's use and the unused `assert` helper (src/index.tsx:9, 105-109) have no effect on the filter. The flag is only carried along.
- Store.Reduce: `update_selector` with `i` beyond the length of the selector array is excluded by its precondition. JavaScript would leave holes in the array, which a sequence cannot hold, and the viewer only writes inside the array. A non-integer `i` is not modelled either. A negative `i` writes a non-index property that `for ... of` ignores, so the model leaves the selectors unchanged.
- Store.PushHistory: the history is a chain of nodes, and nothing in the source calls `pushHistory`. No undo or redo operation exists in the code, so none is modelled.
- The code has no layering of jobs into columns, no undo or redo command, and no delete-selector or toggle-selection action, so the model has none.
