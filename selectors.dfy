/**
 * Selector text: splitting on runs of whitespace (`selector.split(/\s+/)`)
 * and literal substring matching (`text.includes(w)`).
 */
module Selectors {

  /** The characters JavaScript's `\s` class matches. */
  predicate IsSpace(c: char)
  {
    || c == ' ' || c == '\t' || c == '\n' || c == '\r' || c == '\U{000B}' || c == '\U{000C}'
    || c == '\U{00A0}' || c == '\U{1680}' || ('\U{2000}' <= c <= '\U{200A}')
    || c == '\U{2028}' || c == '\U{2029}' || c == '\U{202F}' || c == '\U{205F}'
    || c == '\U{3000}' || c == '\U{FEFF}'
  }

  predicate NoSpace(s: string)
  {
    forall k :: 0 <= k < |s| ==> !IsSpace(s[k])
  }

  /** `s` without its leading run of whitespace. */
  function DropSpaces(s: string): (r: string)
    ensures |r| <= |s|
    ensures r == [] || !IsSpace(r[0])
    ensures r == s[|s| - |r|..]
  {
    if s != [] && IsSpace(s[0]) then DropSpaces(s[1..]) else s
  }

  /**
   * `s.split(/\s+/)`: the pieces between maximal runs of whitespace.  A
   * leading or trailing run gives an empty first or last piece, and the
   * empty string splits to `[""]`.
   */
  function Split(s: string): (r: seq<string>)
    ensures |r| >= 1
    ensures forall k :: 0 <= k < |r| ==> NoSpace(r[k])
    decreases |s|
  {
    if s == [] then [""]
    else if IsSpace(s[0]) then [""] + Split(DropSpaces(s[1..]))
    else
      var rest := Split(s[1..]);
      [[s[0]] + rest[0]] + rest[1..]
  }

  /** The pieces of `ws` glued back with single spaces. */
  function Join(ws: seq<string>): string
  {
    if ws == [] then "" else if |ws| == 1 then ws[0] else ws[0] + " " + Join(ws[1..])
  }

  /** Reference definition: `s` with every run of whitespace replaced by one space. */
  function Squeeze(s: string): string
    decreases |s|
  {
    if s == [] then ""
    else if IsSpace(s[0]) then " " + Squeeze(DropSpaces(s[1..]))
    else [s[0]] + Squeeze(s[1..])
  }

  /** Splitting loses exactly the lengths of the whitespace runs. */
  lemma {:induction false} JoinSplit(s: string)
    ensures Join(Split(s)) == Squeeze(s)
    decreases |s|
  {
    if s == [] {
    } else if IsSpace(s[0]) {
      var tail := DropSpaces(s[1..]);
      JoinSplit(tail);
      var rest := Split(tail);
      assert Split(s) == [""] + rest;
      assert ([""] + rest)[1..] == rest;
    } else {
      JoinSplit(s[1..]);
      var rest := Split(s[1..]);
      var first := [s[0]] + rest[0];
      assert Split(s) == [first] + rest[1..];
      if |rest| == 1 {
      } else {
        assert ([first] + rest[1..])[1..] == rest[1..];
        assert Join(rest) == rest[0] + " " + Join(rest[1..]);
      }
    }
  }

  /** A selector without whitespace is one token. */
  lemma {:induction false} SplitWord(s: string)
    requires NoSpace(s)
    ensures Split(s) == [s]
    decreases |s|
  {
    if s != [] {
      SplitWord(s[1..]);
      assert [s[0]] + s[1..] == s;
    }
  }

  /** Reference definition of `text.includes(w)`: `w` occurs at some offset. */
  ghost predicate OccursIn(w: string, text: string)
  {
    exists i :: OccursAt(w, text, i)
  }

  ghost predicate OccursAt(w: string, text: string, i: int)
  {
    0 <= i && i + |w| <= |text| && text[i..i + |w|] == w
  }

  /** `text.includes(w)`. */
  function Contains(text: string, w: string): bool
  {
    if w <= text then true
    else if text == [] then false
    else Contains(text[1..], w)
  }

  /** A slice of the tail is the slice of the whole text one further on. */
  lemma ShiftedSlice(text: string, i: nat, n: nat)
    requires 0 < |text| && i + n <= |text| - 1
    ensures text[1..][i..i + n] == text[i + 1..i + 1 + n]
  {
    var a, b := text[1..][i..i + n], text[i + 1..i + 1 + n];
    forall k | 0 <= k < n ensures a[k] == b[k] {
    }
  }

  /** The scan finds `w` exactly when it occurs at some offset. */
  lemma {:induction false} ContainsIsOccursIn(text: string, w: string)
    ensures Contains(text, w) <==> OccursIn(w, text)
  {
    if w <= text {
      assert OccursAt(w, text, 0);
    } else if text != [] {
      ContainsIsOccursIn(text[1..], w);
      OccursInTail(text, w);
    }
  }

  /** Past a non-match at offset 0, `w` occurs in `text` exactly when it occurs in its tail. */
  lemma OccursInTail(text: string, w: string)
    requires text != [] && !(w <= text)
    ensures OccursIn(w, text) <==> OccursIn(w, text[1..])
  {
    if OccursIn(w, text[1..]) {
      var i :| OccursAt(w, text[1..], i);
      ShiftedSlice(text, i, |w|);
      assert OccursAt(w, text, i + 1);
    }
    if OccursIn(w, text) {
      var i :| OccursAt(w, text, i);
      assert i != 0;
      ShiftedSlice(text, i - 1, |w|);
      assert OccursAt(w, text[1..], i - 1);
    }
  }

  /** `ws.every(w => text.includes(w))`. */
  predicate Matches(text: string, ws: seq<string>)
  {
    forall k :: 0 <= k < |ws| ==> Contains(text, ws[k])
  }

  /** The empty selector splits to one empty token, which every text contains. */
  lemma EmptySelectorMatchesAll(text: string)
    ensures Split("") == [""]
    ensures Matches(text, Split(""))
  {
  }
}
