/** Sequence helpers shared by the other modules. */
module Seqs {

  /** No element of `xs` occurs twice. */
  predicate Distinct<T(==)>(xs: seq<T>)
  {
    forall i, j :: 0 <= i < j < |xs| ==> xs[i] != xs[j]
  }

  /** The elements of `xs`, as a set. */
  function Elems<T>(xs: seq<T>): set<T>
  {
    set x | x in xs
  }

  /** Two repeat-free sequences with no common element concatenate to a repeat-free one. */
  lemma DistinctConcat<T>(a: seq<T>, b: seq<T>)
    ensures Elems(a + b) == Elems(a) + Elems(b)
    ensures Distinct(a) && Distinct(b) && Elems(a) !! Elems(b) ==> Distinct(a + b)
  {
    if Distinct(a) && Distinct(b) && Elems(a) !! Elems(b) {
      forall i, j | 0 <= i < j < |a + b| ensures (a + b)[i] != (a + b)[j] {
        if i < |a| && j >= |a| {
          assert (a + b)[i] in Elems(a) && (a + b)[j] in Elems(b);
        }
      }
    }
  }

  /** The position of the first occurrence of `x` in `xs`. */
  function First<T(==)>(xs: seq<T>, x: T): (i: nat)
    requires x in xs
    ensures i < |xs| && xs[i] == x && x !in xs[..i]
  {
    if xs[0] == x then 0
    else
      var i := First(xs[1..], x);
      assert xs[..i + 1] == [xs[0]] + xs[1..][..i];
      i + 1
  }

  /** Any position holding `x` with no `x` before it is the first occurrence. */
  lemma FirstUnique<T>(xs: seq<T>, x: T, i: nat)
    requires i < |xs| && xs[i] == x && x !in xs[..i]
    ensures First(xs, x) == i
  {
  }

  /** Elements of a prefix have their first occurrence there. */
  lemma FirstInPrefix<T>(xs: seq<T>, n: nat, ys: seq<T>)
    requires n <= |xs| && forall y :: y in ys ==> y in xs[..n]
    ensures forall k :: 0 <= k < |ys| ==> ys[k] in xs && First(xs, ys[k]) == First(xs[..n], ys[k])
  {
    forall k | 0 <= k < |ys| ensures ys[k] in xs && First(xs, ys[k]) == First(xs[..n], ys[k]) {
      var i := First(xs[..n], ys[k]);
      assert xs[..n][..i] == xs[..i];
      FirstUnique(xs, ys[k], i);
    }
  }

  /** The ids `0, 1, ..., n - 1` in increasing order. */
  function Ids(n: nat): (r: seq<nat>)
    ensures |r| == n
    ensures forall k :: 0 <= k < n ==> r[k] == k
  {
    seq(n, k requires 0 <= k < n => k)
  }
}

/**
 * Label containers and their flattening.
 *
 * A job declares the labels it produces (`ts`) and consumes (`ds`) as a
 * nested value: a string, an array, or an object whose values are again
 * containers.  `iterate_string_container` walks such a value depth first and
 * yields its leaf strings; `run` then drops repeated labels by passing the
 * stream through a JavaScript `Set`, which keeps first occurrences in order.
 */
module Labels {
  import opened Seqs

  type Label = string

  /**
   * A decoded JSON value in a label position.  `Obj` lists its fields in the
   * order a `for ... in` loop enumerates them.  `Scalar` stands for a number,
   * boolean or null: the walk finds no string there and enumerates no keys,
   * so it contributes nothing.
   */
  datatype Container =
    | Str(s: string)
    | Arr(items: seq<Container>)
    | Obj(fields: seq<Field>)
    | Scalar

  datatype Field = Field(key: string, value: Container)

  /** The leaf strings of `c`, in the order the walk yields them. */
  function Leaves(c: Container): seq<Label>
    decreases c, 1
  {
    match c
    case Str(s) => [s]
    case Arr(items) => LeavesOfAll(items)
    case Obj(fields) => LeavesOfFields(fields)
    case Scalar => []
  }

  function LeavesOfAll(items: seq<Container>): seq<Label>
    decreases items, 0
  {
    if items == [] then [] else Leaves(items[0]) + LeavesOfAll(items[1..])
  }

  function LeavesOfFields(fields: seq<Field>): seq<Label>
    decreases fields, 0
  {
    if fields == [] then [] else Leaves(fields[0].value) + LeavesOfFields(fields[1..])
  }

  /** Reference definition: `s` is a string somewhere inside `c`. */
  ghost predicate Occurs(c: Container, s: Label)
    decreases c
  {
    match c
    case Str(t) => t == s
    case Arr(items) => exists k :: 0 <= k < |items| && Occurs(items[k], s)
    case Obj(fields) => exists k :: 0 <= k < |fields| && Occurs(fields[k].value, s)
    case Scalar => false
  }

  /** The walk yields exactly the strings that occur inside the container. */
  lemma {:induction false} LeavesAreOccurrences(c: Container, s: Label)
    ensures s in Leaves(c) <==> Occurs(c, s)
    decreases c, 1
  {
    match c
    case Str(t) =>
    case Arr(items) => LeavesOfAllAreOccurrences(items, s);
    case Obj(fields) => LeavesOfFieldsAreOccurrences(fields, s);
    case Scalar =>
  }

  lemma {:induction false} LeavesOfAllAreOccurrences(items: seq<Container>, s: Label)
    ensures s in LeavesOfAll(items) <==> exists k :: 0 <= k < |items| && Occurs(items[k], s)
    decreases items, 0
  {
    if items != [] {
      LeavesAreOccurrences(items[0], s);
      LeavesOfAllAreOccurrences(items[1..], s);
      if exists k :: 0 <= k < |items| && Occurs(items[k], s) {
        var k :| 0 <= k < |items| && Occurs(items[k], s);
        if k > 0 {
          assert items[1..][k - 1] == items[k];
        }
      }
      if s in LeavesOfAll(items[1..]) {
        var k :| 0 <= k < |items[1..]| && Occurs(items[1..][k], s);
        assert items[k + 1] == items[1..][k];
      }
    }
  }

  lemma {:induction false} LeavesOfFieldsAreOccurrences(fields: seq<Field>, s: Label)
    ensures s in LeavesOfFields(fields) <==> exists k :: 0 <= k < |fields| && Occurs(fields[k].value, s)
    decreases fields, 0
  {
    if fields != [] {
      LeavesAreOccurrences(fields[0].value, s);
      LeavesOfFieldsAreOccurrences(fields[1..], s);
      if exists k :: 0 <= k < |fields| && Occurs(fields[k].value, s) {
        var k :| 0 <= k < |fields| && Occurs(fields[k].value, s);
        if k > 0 {
          assert fields[1..][k - 1] == fields[k];
        }
      }
      if s in LeavesOfFields(fields[1..]) {
        var k :| 0 <= k < |fields[1..]| && Occurs(fields[1..][k].value, s);
        assert fields[k + 1] == fields[1..][k];
      }
    }
  }

  /**
   * `Array.from(new Set(xs))`: the elements of `xs` without repeats, each at
   * the position of its first occurrence.
   */
  function Dedup(xs: seq<Label>): (r: seq<Label>)
    ensures Distinct(r)
    ensures forall x :: x in r <==> x in xs
    ensures |r| <= |xs|
    ensures forall a, b :: 0 <= a < b < |r| ==> First(xs, r[a]) < First(xs, r[b])
  {
    if xs == [] then []
    else
      var init := xs[..|xs| - 1];
      var last := xs[|xs| - 1];
      var rest := Dedup(init);
      FirstInPrefix(xs, |xs| - 1, rest);
      if last in rest then rest
      else
        FirstUnique(xs, last, |xs| - 1);
        rest + [last]
  }

  /** A stream that repeats nothing passes through the set unchanged. */
  lemma {:induction false} DedupOfDistinct(xs: seq<Label>)
    requires Distinct(xs)
    ensures Dedup(xs) == xs
  {
    if xs != [] {
      var init := xs[..|xs| - 1];
      assert Distinct(init);
      DedupOfDistinct(init);
      assert xs[|xs| - 1] !in init;
      assert init + [xs[|xs| - 1]] == xs;
    }
  }

  /**
   * Deduplication keeps the first label first: a corollary of the order
   * Dedup keeps, since the first label occurs first at position 0.
   */
  lemma DedupKeepsFirst(xs: seq<Label>)
    requires |xs| > 0
    ensures Dedup(xs)[0] == xs[0]
  {
    var r := Dedup(xs);
    FirstUnique(xs, xs[0], 0);
    assert xs[0] in xs;
    assert xs[0] in r;
    var a :| 0 <= a < |r| && r[a] == xs[0];
    var f0, fa := First(xs, r[0]), First(xs, r[a]);
    assert fa == 0;
    assert f0 <= fa;
    assert r[0] == xs[f0];
  }

  /** The label list a job ends up with: distinct leaves of its container. */
  function LabelList(c: Container): (r: seq<Label>)
    ensures Distinct(r)
    ensures forall s :: s in r <==> Occurs(c, s)
  {
    var r := Dedup(Leaves(c));
    assert forall s :: s in r <==> Occurs(c, s) by {
      forall s ensures s in r <==> Occurs(c, s) {
        LeavesAreOccurrences(c, s);
      }
    }
    r
  }
}
