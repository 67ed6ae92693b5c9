/**
 * The store's reducer and the history node.
 *
 * `root_reducer_of(initial)` is the Redux reducer: before the store has a
 * state it answers the initial one; `add_selector` appends an empty selector;
 * `update_selector` writes one selector; any other action (Redux sends its
 * own on start-up) returns the state it was given.  The two selector
 * actions build a new value with immer and never change the old one, so
 * the reducer is a function here.
 *
 * `pushHistory` links a new node after an existing one, in place.
 */
module Store {
  import opened Seqs
  import opened JobIndex
  import opened Closure

  datatype Option<T> = None | Some(value: T)

  /** The actions the reducer tells apart. */
  datatype Action = AddSelector | UpdateSelector(i: int, selector: string) | Other(kind: string)

  /**
   * An update writes inside the selector array or right after its end;
   * further out a JavaScript array would get holes, which a sequence cannot
   * hold.  The viewer only ever writes inside.
   */
  predicate Applicable(s: State, action: Action)
  {
    action.UpdateSelector? ==> action.i <= |s.selectorList|
  }

  /** `root_reducer_of(initial)(state, action)`. */
  function Reduce(initial: State, state: Option<State>, action: Action): (r: State)
    requires state.Some? ==> Applicable(state.value, action)
    ensures state.None? ==> r == initial
    ensures state.Some? ==> SameGraph(r, state.value) && r.saveSuccess == state.value.saveSuccess
    ensures state.Some? && action.AddSelector? ==> r.selectorList == state.value.selectorList + [""]
    ensures state.Some? && action.UpdateSelector? && 0 <= action.i < |state.value.selectorList| ==>
      && |r.selectorList| == |state.value.selectorList|
      && r.selectorList[action.i] == action.selector
      && forall k :: 0 <= k < |r.selectorList| && k != action.i ==> r.selectorList[k] == state.value.selectorList[k]
    ensures state.Some? && action.UpdateSelector? && action.i == |state.value.selectorList| ==>
      r.selectorList == state.value.selectorList + [action.selector]
    ensures state.Some? && action.UpdateSelector? && action.i < 0 ==> r == state.value
    ensures state.Some? && action.Other? ==> r == state.value
  {
    match state
    case None => initial
    case Some(s) =>
      match action
      case AddSelector => s.(selectorList := s.selectorList + [""])
      case UpdateSelector(i, sel) =>
        if i < 0 then s
        else if i < |s.selectorList| then s.(selectorList := s.selectorList[i := sel])
        else s.(selectorList := s.selectorList + [sel])
      case Other(_) => s
  }

  /** Writing the selector a position already holds gives back the same state. */
  lemma UpdateSameIsIdentity(initial: State, s: State, i: nat)
    requires i < |s.selectorList|
    ensures Reduce(initial, Some(s), UpdateSelector(i, s.selectorList[i])) == s
  {
    assert s.selectorList[i := s.selectorList[i]] == s.selectorList;
  }

  /** Of two updates to the same position the later one wins. */
  lemma UpdateLastWins(initial: State, s: State, i: nat, a: string, b: string)
    requires i < |s.selectorList|
    ensures var once := Reduce(initial, Some(s), UpdateSelector(i, a));
      Reduce(initial, Some(once), UpdateSelector(i, b)) == Reduce(initial, Some(s), UpdateSelector(i, b))
  {
    assert s.selectorList[i := a][i := b] == s.selectorList[i := b];
  }

  /** Updates to different positions commute. */
  lemma UpdatesCommute(initial: State, s: State, i: nat, a: string, j: nat, b: string)
    requires i < |s.selectorList| && j < |s.selectorList| && i != j
    ensures var ia := Reduce(initial, Some(s), UpdateSelector(i, a));
      var jb := Reduce(initial, Some(s), UpdateSelector(j, b));
      Reduce(initial, Some(ia), UpdateSelector(j, b)) == Reduce(initial, Some(jb), UpdateSelector(i, a))
  {
    assert s.selectorList[i := a][j := b] == s.selectorList[j := b][i := a];
  }

  /**
   * Adding a selector leaves the jobs on display the same set (the new
   * selector is empty), and a failing filter fails alike; when there were
   * selectors already, a display that succeeded stays exactly as it was.
   */
  lemma AddSelectorKeepsDisplay(initial: State, s: State)
    requires s.Valid()
    ensures var r := Reduce(initial, Some(s), AddSelector);
      var after := VisibleAfter(r, r.selectorList);
      var before := VisibleAfter(s, s.selectorList);
      && (after.Visible? ==> before.Visible? && Elems(after.jobs) == Elems(before.jobs))
      && (before.Failed? ==> after == before)
      && (s.selectorList != [] && before.Visible? ==> after == before)
  {
    var r := Reduce(initial, Some(s), AddSelector);
    VisibleAfterSameGraph(r, s, s.selectorList + [""]);
    AppendEmptySelector(s, s.selectorList);
  }

  /** Editing selector `i` leaves what the selectors before it show unchanged. */
  lemma UpdateKeepsEarlierSteps(initial: State, s: State, i: nat, sel: string)
    requires s.Valid() && i < |s.selectorList|
    ensures var r := Reduce(initial, Some(s), UpdateSelector(i, sel));
      VisibleAfter(r, r.selectorList[..i]) == VisibleAfter(s, s.selectorList[..i])
  {
    var r := Reduce(initial, Some(s), UpdateSelector(i, sel));
    assert r.selectorList[..i] == s.selectorList[..i];
    VisibleAfterSameGraph(r, s, s.selectorList[..i]);
  }

  /** A node of the history: a state and links to the nodes before and after it. */
  class History {
    var prev: History?
    var value: State
    var next: History?

    constructor(prev: History?, value: State)
      ensures this.prev == prev && this.value == value && next == null
    {
      this.prev := prev;
      this.value := value;
      next := null;
    }
  }

  /**
   * `pushHistory(h, v)`: a new node holding `v` is linked after `h` and
   * returned; whatever followed `h` before is no longer linked from it.
   */
  method PushHistory(h: History, v: State) returns (n: History)
    modifies h
    ensures fresh(n)
    ensures n.prev == h && n.value == v && n.next == null
    ensures h.next == n && h.next.prev == h
    ensures h.prev == old(h.prev) && h.value == old(h.value)
  {
    n := new History(h, v);
    h.next := n;
  }
}
