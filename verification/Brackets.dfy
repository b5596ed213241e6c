/** Bracket pairs, definition BD16 of UAX #9 (section 3.1.3): the matcher and why pairs nest. */
module Brackets {
  import opened Wrappers

  datatype BracketType = Open | Close

  /** The bracket that pairs with a character, and the character's own type, if it is a bracket. */
  type Lookup = char -> Option<(char, BracketType)>

  datatype Pair = Pair(opening: nat, closing: nat)

  /** An opening bracket waiting for its closing one. */
  datatype Opener = Opener(closing: char, pos: nat)

  datatype Matching = Matching(open: seq<Opener>, pairs: seq<Pair>)

  const MAX_PAIRING_DEPTH: nat := 63

  /** U+232A and U+3009 are canonically equivalent. */
  predicate SameBracket(stored: char, c: char) {
    || stored == c
    || (stored == '\U{232a}' && c == '\U{3009}')
    || (stored == '\U{3009}' && c == '\U{232a}')
  }

  /** The topmost opener that `c` closes. */
  function FindOpener(open: seq<Opener>, c: char): (d: Option<nat>)
    ensures d.Some? ==> d.value < |open| && SameBracket(open[d.value].closing, c)
    ensures forall k :: (if d.Some? then d.value + 1 else 0) <= k < |open| ==> !SameBracket(open[k].closing, c)
  {
    if open == [] then None
    else
      var top := |open| - 1;
      if SameBracket(open[top].closing, c) then Some(top) else FindOpener(open[..top], c)
  }

  /** A waiting opener is found by its own closing bracket, and an angle bracket by either of the two forms. */
  lemma {:induction false} AnglesAreOne(closing: char, pos: nat, c: char)
    ensures FindOpener([Opener(closing, pos)], c).Some? <==>
      closing == c || {closing, c} == {'\U{232a}', '\U{3009}'}
  {
    var open := [Opener(closing, pos)];
    assert FindOpener(open[..0], c) == None;
    if {closing, c} == {'\U{232a}', '\U{3009}'} {
      assert closing in {'\U{232a}', '\U{3009}'} && c in {'\U{232a}', '\U{3009}'};
      assert '\U{232a}' in {closing, c} && '\U{3009}' in {closing, c};
    }
  }

  /** A closing bracket takes its opener and drops the openers above it; one without opener is ignored. */
  function Closed(m: Matching, c: char, pos: nat): Matching {
    var d := FindOpener(m.open, c);
    if d.None? then m
    else Matching(m.open[..d.value], m.pairs + [Pair(m.open[d.value].pos, pos)])
  }

  class BracketStack {
    const closingBracket: array<char>
    const position: array<nat>
    var depth: nat
    var pairs: seq<Pair>

    ghost predicate Valid()
      reads this
    {
      depth <= MAX_PAIRING_DEPTH == closingBracket.Length == position.Length
    }

    ghost function Value(): (m: Matching)
      requires Valid()
      reads this, closingBracket, position
      ensures |m.open| == depth && m.pairs == pairs
    {
      Matching(
        seq(depth, i requires 0 <= i < depth && Valid() reads this, closingBracket, position =>
          Opener(closingBracket[i], position[i])),
        pairs)
    }

    constructor ()
      ensures Valid() && Value() == Matching([], [])
      ensures fresh(closingBracket) && fresh(position)
    {
      closingBracket := new char[MAX_PAIRING_DEPTH](_ => ' ');
      position := new nat[MAX_PAIRING_DEPTH](_ => 0);
      depth := 0;
      pairs := [];
    }

    method Clear()
      requires Valid()
      modifies this
      ensures Valid() && Value() == Matching([], [])
    {
      pairs := [];
      depth := 0;
    }

    method Push(closing: char, pos: nat) returns (ok: bool)
      requires Valid()
      modifies this, closingBracket, position
      ensures Valid() && ok == (old(depth) < MAX_PAIRING_DEPTH)
      ensures Value() == if ok then old(Value()).(open := old(Value()).open + [Opener(closing, pos)]) else old(Value())
    {
      if depth >= MAX_PAIRING_DEPTH {
        return false;
      }
      closingBracket[depth] := closing;
      position[depth] := pos;
      depth := depth + 1;
      ok := true;
    }

    method SeekMatchingOpenBracket(closing: char, pos: nat) returns (found: bool)
      requires Valid()
      modifies this
      ensures Valid() && Value() == Closed(old(Value()), closing, pos)
      ensures found <==> FindOpener(old(Value()).open, closing).Some?
    {
      var d := depth;
      ghost var open := Value().open;
      assert open[..d] == open;
      while d > 0
        invariant d <= depth == old(depth) && pairs == old(pairs)
        invariant FindOpener(open, closing) == FindOpener(open[..d], closing)
      {
        d := d - 1;
        assert open[..d + 1][..d] == open[..d];
        if SameBracket(closingBracket[d], closing) {
          pairs := pairs + [Pair(position[d], pos)];
          depth := d;
          assert Value().open == open[..d];
          return true;
        }
      }
      found := false;
    }
  }

  // ---- nesting -----------------------------------------------------------------------------------

  ghost predicate Inside(p: Pair, q: Pair) {
    q.opening < p.opening && p.closing < q.closing
  }

  /** The pairs lie apart, or one lies strictly inside the other; so they share no position. */
  ghost predicate Compatible(p: Pair, q: Pair) {
    p.closing < q.opening || q.closing < p.opening || Inside(p, q) || Inside(q, p)
  }

  predicate Outside(p: Pair, i: nat) {
    i < p.opening || p.closing < i
  }

  /** What holds after the brackets before place `n`. */
  ghost predicate Nested(m: Matching, n: nat) {
    && |m.open| <= MAX_PAIRING_DEPTH
    && (forall k :: 0 <= k < |m.open| ==> m.open[k].pos < n)
    && (forall k, l :: 0 <= k < l < |m.open| ==> m.open[k].pos < m.open[l].pos)
    && (forall k :: 0 <= k < |m.pairs| ==> m.pairs[k].opening < m.pairs[k].closing < n)
    && (forall k, l :: 0 <= k < l < |m.pairs| ==> Compatible(m.pairs[k], m.pairs[l]))
    && (forall k, l :: 0 <= k < |m.pairs| && 0 <= l < |m.open| ==> Outside(m.pairs[k], m.open[l].pos))
  }

  lemma PushNests(m: Matching, n: nat, closing: char)
    requires Nested(m, n) && |m.open| < MAX_PAIRING_DEPTH
    ensures Nested(m.(open := m.open + [Opener(closing, n)]), n + 1)
  {
  }

  lemma {:induction false} CloseNests(m: Matching, n: nat, c: char)
    requires Nested(m, n)
    ensures Nested(Closed(m, c, n), n + 1)
  {
  }
}
