/**
  * The pass N0 as the source runs it: a bracket stack per sequence, then each pair resolved in place.
  *
  * `FindPairs` drives the stack of `Brackets` along a chain and is proved to give the matching of `BracketRules`.
  * `SetMarks`, `SetBracketPairBc` and `ResolveOnePair` rewrite the class array of the paragraph; what they do is said
  * of the view that the chain has of it, and nothing outside the chain changes. `Resolved` says how many pairs of a
  * sequence are done.
  */
module BracketPass {
  import opened Wrappers
  import opened BidiTypes
  import opened LevelRuns
  import opened ChainRules
  import opened ChainViews
  import opened ChainPasses
  import opened Brackets
  import opened BracketRules

  /** The marks on places `[from, to)` that trail place `from` now have class `bc`. */
  ghost predicate MarksSet(
    types: seq<BidiClass>, r: seq<BidiClass>, orig: seq<BidiClass>, sq: IsolatingRunSequence, from: nat, to: nat,
    bc: BidiClass)
    requires InText(|types|, sq.indices) && |orig| == |types|
  {
    && SameOutside(types, r, sq.indices)
    && forall k :: 0 <= k < |sq.indices| ==>
         var marked := from <= k < to && orig[sq.indices[k]].NonspacingMark? && Trails(View(orig, sq.indices), from, k);
         r[sq.indices[k]] == if marked then bc else types[sq.indices[k]]
  }

  lemma MarksStart(types: seq<BidiClass>, orig: seq<BidiClass>, sq: IsolatingRunSequence, from: nat, bc: BidiClass)
    requires InText(|types|, sq.indices) && |orig| == |types| && from <= |sq.indices|
    ensures Trails(View(orig, sq.indices), from, from) && MarksSet(types, types, orig, sq, from, from, bc)
  {
  }

  lemma MarksNext(
    types: seq<BidiClass>, r: seq<BidiClass>, next: seq<BidiClass>, orig: seq<BidiClass>, sq: IsolatingRunSequence,
    from: nat, i: nat,
    bc: BidiClass)
    requires InText(|types|, sq.indices) && Ascends(sq.indices) && |orig| == |types| && from <= i < |sq.indices|
    requires |r| == |types|
    requires Trails(View(orig, sq.indices), from, i) && MarksSet(types, r, orig, sq, from, i, bc)
    requires MarkOrRemoved(orig[sq.indices[i]])
    requires next == if orig[sq.indices[i]].NonspacingMark? then r[sq.indices[i] := bc] else r
    ensures Trails(View(orig, sq.indices), from, i + 1) && MarksSet(types, next, orig, sq, from, i + 1, bc)
  {
  }

  lemma MarksEnd(
    types: seq<BidiClass>, r: seq<BidiClass>, orig: seq<BidiClass>, sq: IsolatingRunSequence, from: nat, i: nat,
    to: nat, bc: BidiClass)
    requires InText(|types|, sq.indices) && |orig| == |types| && from <= i <= to <= |sq.indices|
    requires MarksSet(types, r, orig, sq, from, i, bc)
    requires i < to ==> !MarkOrRemoved(orig[sq.indices[i]])
    ensures MarksSet(types, r, orig, sq, from, to, bc)
  {
    var o := View(orig, sq.indices);
    forall k | i <= k < to && o[k].NonspacingMark?
      ensures !Trails(o, from, k)
    {
      assert !MarkOrRemoved(o[i]);
    }
  }

  /** Sets the marks on places `[from, to)` that directly follow a bracket. */
  method SetMarks(
    types: seq<BidiClass>, orig: seq<BidiClass>, levels: seq<Level>, sq: IsolatingRunSequence, from: nat, to: nat,
    bc: BidiClass)
    returns (r: seq<BidiClass>)
    requires IsPassable(types, levels, sq) && |orig| == |types| && from <= to <= |sq.indices|
    requires SameRemoved(View(types, sq.indices), View(orig, sq.indices))
    ensures MarksSet(types, r, orig, sq, from, to, bc)
  {
    hide MarksSet, Trails;
    r := types;
    ghost var o := View(orig, sq.indices);
    var i := from;
    MarksStart(types, orig, sq, from, bc);
    while i < to
      invariant from <= i <= to && |r| == |types|
      invariant Trails(o, from, i) && MarksSet(types, r, orig, sq, from, i, bc)
    {
      var cidx := sq.indices[i];
      ghost var before := r;
      assert View(types, sq.indices)[i].IsRemoved() <==> o[i].IsRemoved();
      if orig[cidx].NonspacingMark? {
        r := r[cidx := bc];
      } else if levels[cidx] != NO_LEVEL {
        break;
      }
      MarksNext(types, before, r, orig, sq, from, i, bc);
      i := i + 1;
    }
    MarksEnd(types, r, orig, sq, from, i, to, bc);
  }

  lemma PassableAfter(types: seq<BidiClass>, r: seq<BidiClass>, levels: seq<Level>, sq: IsolatingRunSequence)
    requires IsPassable(types, levels, sq) && |r| == |types| && InText(|types|, sq.indices)
    requires SameRemoved(View(types, sq.indices), View(r, sq.indices))
    ensures IsPassable(r, levels, sq)
  {
    hide Ascends, BordersOf;
    forall a | 0 <= a < |sq.indices|
      ensures levels[sq.indices[a]] == NO_LEVEL <==> r[sq.indices[a]].IsRemoved()
    {
      assert View(types, sq.indices)[a].IsRemoved() <==> View(r, sq.indices)[a].IsRemoved();
    }
  }

  lemma SameRemovedMeet(t: seq<BidiClass>, u: seq<BidiClass>, o: seq<BidiClass>)
    requires SameRemoved(t, u) && SameRemoved(t, o)
    ensures SameRemoved(u, o)
  {
  }

  /** The paragraph with the class of both brackets set, and what the chain shows of it. */
  function Paired(types: seq<BidiClass>, sq: IsolatingRunSequence, p: Pair, bc: BidiClass): (r: seq<BidiClass>)
    requires InText(|types|, sq.indices) && p.opening < p.closing < |sq.indices|
    ensures |r| == |types|
  {
    types[sq.indices[p.opening] := bc][sq.indices[p.closing] := bc]
  }

  lemma PairedView(types: seq<BidiClass>, sq: IsolatingRunSequence, p: Pair, bc: BidiClass)
    requires InText(|types|, sq.indices) && Ascends(sq.indices) && p.opening < p.closing < |sq.indices|
    ensures SameOutside(types, Paired(types, sq, p, bc), sq.indices)
    ensures forall k :: 0 <= k < |sq.indices| ==>
      Paired(types, sq, p, bc)[sq.indices[k]] == if k == p.opening || k == p.closing then bc else types[sq.indices[k]]
  {
    var r := Paired(types, sq, p, bc);
    forall k | 0 <= k < |sq.indices|
      ensures r[sq.indices[k]] == if k == p.opening || k == p.closing then bc else types[sq.indices[k]]
    {
    }
  }

  lemma PairedKeeps(types: seq<BidiClass>, levels: seq<Level>, sq: IsolatingRunSequence, p: Pair, bc: BidiClass)
    requires IsPassable(types, levels, sq) && IsKeptPair(View(types, sq.indices), p) && !bc.IsRemoved()
    ensures IsPassable(Paired(types, sq, p, bc), levels, sq)
    ensures SameRemoved(View(types, sq.indices), View(Paired(types, sq, p, bc), sq.indices))
  {
    PairedView(types, sq, p, bc);
    hide Paired, Ascends;
    var t, u := View(types, sq.indices), View(Paired(types, sq, p, bc), sq.indices);
    forall a | 0 <= a < |t|
      ensures t[a].IsRemoved() <==> u[a].IsRemoved()
    {
    }
    hide IsPassable;
    PassableAfter(types, Paired(types, sq, p, bc), levels, sq);
  }

  lemma PairIsSet(
    types: seq<BidiClass>, inner: seq<BidiClass>, r: seq<BidiClass>, orig: seq<BidiClass>, sq: IsolatingRunSequence,
    p: Pair, direction: Direction)
    requires InText(|types|, sq.indices) && Ascends(sq.indices) && |orig| == |types|
    requires p.opening < p.closing < |sq.indices|
    requires MarksSet(
      Paired(types, sq, p, direction.AsBidiClass()), inner, orig, sq, p.opening + 1, p.closing, direction.AsBidiClass())
    requires |inner| == |types| && MarksSet(inner, r, orig, sq, p.closing + 1, |sq.indices|, direction.AsBidiClass())
    ensures SameOutside(types, r, sq.indices)
    ensures View(r, sq.indices) == SetPair(View(types, sq.indices), View(orig, sq.indices), p, direction)
  {
    var bc := direction.AsBidiClass();
    PairedView(types, sq, p, bc);
    hide Paired, Trails, Ascends;
    forall k | 0 <= k < |sq.indices|
      ensures View(r, sq.indices)[k] == SetPair(View(types, sq.indices), View(orig, sq.indices), p, direction)[k]
    {
    }
  }

  lemma MarksKeep(
    types: seq<BidiClass>, r: seq<BidiClass>, orig: seq<BidiClass>, levels: seq<Level>, sq: IsolatingRunSequence,
    from: nat, to: nat, bc: BidiClass)
    requires IsPassable(types, levels, sq) && |orig| == |types| && !bc.IsRemoved()
    requires SameRemoved(View(types, sq.indices), View(orig, sq.indices))
    requires MarksSet(types, r, orig, sq, from, to, bc)
    ensures |r| == |types| && IsPassable(r, levels, sq)
    ensures SameRemoved(View(r, sq.indices), View(orig, sq.indices))
  {
    hide Ascends, Trails, BordersOf;
    var t, u, o := View(types, sq.indices), View(r, sq.indices), View(orig, sq.indices);
    forall a | 0 <= a < |t|
      ensures t[a].IsRemoved() <==> u[a].IsRemoved()
    {
      assert t[a].IsRemoved() <==> o[a].IsRemoved();
    }
    hide IsPassable, MarksSet;
    PassableAfter(types, r, levels, sq);
    SameRemovedMeet(t, u, o);
  }

  /** Sets both brackets of a pair and the marks that follow them. */
  method SetBracketPairBc(
    types: seq<BidiClass>, orig: seq<BidiClass>, levels: seq<Level>, sq: IsolatingRunSequence, p: Pair,
    direction: Direction)
    returns (r: seq<BidiClass>)
    requires IsPassable(types, levels, sq) && |orig| == |types| && IsKeptPair(View(types, sq.indices), p)
    requires SameRemoved(View(types, sq.indices), View(orig, sq.indices))
    ensures SameOutside(types, r, sq.indices)
    ensures View(r, sq.indices) == SetPair(View(types, sq.indices), View(orig, sq.indices), p, direction)
  {
    hide MarksSet, Trails, SameOutside, SameRemoved, Ascends, SetPair;
    var bc := direction.AsBidiClass();
    var paired := types[sq.indices[p.opening] := bc][sq.indices[p.closing] := bc];
    PairedKeeps(types, levels, sq, p, bc);
    SameRemovedMeet(View(types, sq.indices), View(paired, sq.indices), View(orig, sq.indices));
    var inner := SetMarks(paired, orig, levels, sq, p.opening + 1, p.closing, bc);
    MarksKeep(paired, inner, orig, levels, sq, p.opening + 1, p.closing, bc);
    r := SetMarks(inner, orig, levels, sq, p.closing + 1, |sq.indices|, bc);
    PairIsSet(types, inner, r, orig, sq, p, direction);
  }

  method ResolveOnePair(
    types: seq<BidiClass>, orig: seq<BidiClass>, levels: seq<Level>, sq: IsolatingRunSequence, p: Pair)
    returns (r: seq<BidiClass>)
    requires IsPassable(types, levels, sq) && |orig| == |types| && IsKeptPair(View(types, sq.indices), p)
    requires SameRemoved(View(types, sq.indices), View(orig, sq.indices))
    ensures |r| == |types| && SameOutside(types, r, sq.indices)
    ensures View(r, sq.indices) == ResolvePair(View(types, sq.indices), View(orig, sq.indices), p, BordersOf(sq))
  {
    ghost var t := View(types, sq.indices);
    var embedding := LevelDirection(sq.level);
    var opposite := embedding.Opposite();
    var strongTypeFound := false;
    for i := p.opening + 1 to p.closing
      invariant !HasSide(t, p.opening + 1, i, embedding)
      invariant strongTypeFound <==> HasSide(t, p.opening + 1, i, opposite)
    {
      var direction := Side(types[sq.indices[i]]);
      assert direction == Side(t[i]);
      if direction == Some(embedding) {
        r := SetBracketPairBc(types, orig, levels, sq, p, embedding);
        return;
      } else if direction == Some(opposite) {
        strongTypeFound := true;
      }
    }
    if strongTypeFound {
      var before := IsPriorSide(types, levels, p.opening, sq, opposite);
      if before {
        r := SetBracketPairBc(types, orig, levels, sq, p, opposite);
      } else {
        r := SetBracketPairBc(types, orig, levels, sq, p, embedding);
      }
    } else {
      r := types;
    }
  }

  /** BD16 on one sequence; `None` when the stack overflows. */
  method FindPairs(
    types: seq<BidiClass>, sq: IsolatingRunSequence, paragraph: seq<char>, lookup: Lookup, stack: BracketStack)
    returns (pairs: Option<seq<Pair>>)
    requires InText(|types|, sq.indices) && |paragraph| == |types| && stack.Valid()
    modifies stack, stack.closingBracket, stack.position
    ensures stack.Valid()
    ensures var m := Match(View(types, sq.indices), View(paragraph, sq.indices), lookup, |sq.indices|);
      pairs == if m.None? then None else Some(m.value.pairs)
  {
    stack.Clear();
    ghost var t, chars := View(types, sq.indices), View(paragraph, sq.indices);
    for a := 0 to |sq.indices|
      invariant stack.Valid() && Match(t, chars, lookup, a) == Some(stack.Value())
    {
      MatchStep(t, chars, lookup, a);
      var cidx := sq.indices[a];
      var bracket := lookup(paragraph[cidx]);
      if bracket.Some? && types[cidx].OtherNeutral? {
        if bracket.value.1.Open? {
          var ok := stack.Push(bracket.value.0, a);
          if !ok {
            StaysNone(t, chars, lookup, a + 1, |t|);
            return None;
          }
        } else {
          var found := stack.SeekMatchingOpenBracket(paragraph[cidx], a);
        }
      }
    }
    pairs := Some(stack.pairs);
  }

  /** The first `k` pairs are resolved, and nothing outside the chain has changed. */
  ghost predicate Resolved(
    types: seq<BidiClass>, r: seq<BidiClass>, orig: seq<BidiClass>, sq: IsolatingRunSequence, pairs: seq<Pair>, k: nat)
    requires InText(|types|, sq.indices) && |orig| == |types|
  {
    && |r| == |types| && SameOutside(types, r, sq.indices)
    && k <= |pairs| && AreIn(pairs, |sq.indices|)
    && View(r, sq.indices) == ResolvePairs(View(types, sq.indices), View(orig, sq.indices), pairs[..k], BordersOf(sq))
  }

  lemma ResolvePairsNext(t: seq<BidiClass>, orig: seq<BidiClass>, pairs: seq<Pair>, k: nat, b: Borders)
    requires AreIn(pairs, |t|) && |t| == |orig| && k < |pairs|
    ensures AreIn(pairs[..k], |t|) && AreIn(pairs[..k + 1], |t|) && pairs[k].opening < pairs[k].closing < |t|
    ensures ResolvePairs(t, orig, pairs[..k + 1], b) ==
      ResolvePair(ResolvePairs(t, orig, pairs[..k], b), orig, pairs[k], b)
  {
    hide ResolvePair;
    assert pairs[..k + 1][..k] == pairs[..k];
  }

  lemma ResolvedNext(
    types: seq<BidiClass>, before: seq<BidiClass>, r: seq<BidiClass>, orig: seq<BidiClass>, sq: IsolatingRunSequence,
    pairs: seq<Pair>, k: nat)
    requires InText(|types|, sq.indices) && |orig| == |types| && k < |pairs|
    requires Resolved(types, before, orig, sq, pairs, k)
    requires pairs[k].opening < pairs[k].closing < |sq.indices|
    requires |r| == |types| && SameOutside(before, r, sq.indices)
    requires View(r, sq.indices) ==
      ResolvePair(View(before, sq.indices), View(orig, sq.indices), pairs[k], BordersOf(sq))
    ensures Resolved(types, r, orig, sq, pairs, k + 1)
  {
    hide SameOutside, ResolvePairs, ResolvePair;
    OutsideKept(types, before, r, sq.indices);
    ResolvePairsNext(View(types, sq.indices), View(orig, sq.indices), pairs, k, BordersOf(sq));
  }

  lemma ResolvedEnd(
    types: seq<BidiClass>, r: seq<BidiClass>, orig: seq<BidiClass>, sq: IsolatingRunSequence, pairs: seq<Pair>)
    requires InText(|types|, sq.indices) && |orig| == |types| && Resolved(types, r, orig, sq, pairs, |pairs|)
    ensures |r| == |types| && SameOutside(types, r, sq.indices) && AreIn(pairs, |sq.indices|)
    ensures View(r, sq.indices) == ResolvePairs(View(types, sq.indices), View(orig, sq.indices), pairs, BordersOf(sq))
  {
    hide SameOutside, ResolvePairs;
    assert pairs[..|pairs|] == pairs;
  }

  lemma KeptPair(t: seq<BidiClass>, u: seq<BidiClass>, p: Pair)
    requires IsBracketPair(t, p) && SameRemoved(t, u)
    ensures IsKeptPair(u, p)
  {
  }

  lemma BracketsUpTo(t: seq<BidiClass>, pairs: seq<Pair>, k: nat)
    requires AreBrackets(t, pairs) && k < |pairs|
    ensures AreBrackets(t, pairs[..k]) && IsBracketPair(t, pairs[k])
  {
    hide IsBracketPair;
  }

  lemma NextIsReady(
    types: seq<BidiClass>, r: seq<BidiClass>, orig: seq<BidiClass>, levels: seq<Level>, sq: IsolatingRunSequence,
    pairs: seq<Pair>, k: nat)
    requires IsPassable(types, levels, sq) && |orig| == |types| && AreBrackets(View(types, sq.indices), pairs)
    requires k < |pairs|
    requires SameRemoved(View(types, sq.indices), View(orig, sq.indices)) && Resolved(types, r, orig, sq, pairs, k)
    ensures IsPassable(r, levels, sq) && |r| == |types| && pairs[k].opening < pairs[k].closing < |sq.indices|
    ensures IsKeptPair(View(r, sq.indices), pairs[k]) && SameRemoved(View(r, sq.indices), View(orig, sq.indices))
  {
    var t, u, o := View(types, sq.indices), View(r, sq.indices), View(orig, sq.indices);
    BracketsUpTo(t, pairs, k);
    hide IsPassable, SameOutside, SameRemoved, ResolvePairs, AreBrackets, Deleted, Compact, MapPairs, IsKeptPair;
    ResolvePairsCompacts(t, o, pairs[..k], BordersOf(sq));
    PassableAfter(types, r, levels, sq);
    KeptPair(t, u, pairs[k]);
    SameRemovedMeet(t, u, o);
  }

  /** Resolves the pairs of one sequence in the order of their openings. */
  method ResolveSequence(
    types: seq<BidiClass>, orig: seq<BidiClass>, levels: seq<Level>, sq: IsolatingRunSequence, pairs: seq<Pair>)
    returns (r: seq<BidiClass>)
    requires IsPassable(types, levels, sq) && |orig| == |types| && AreBrackets(View(types, sq.indices), pairs)
    requires SameRemoved(View(types, sq.indices), View(orig, sq.indices))
    ensures |r| == |types| && SameOutside(types, r, sq.indices)
    ensures AreIn(Sort(pairs), |sq.indices|)
    ensures View(r, sq.indices) ==
      ResolvePairs(View(types, sq.indices), View(orig, sq.indices), Sort(pairs), BordersOf(sq))
  {
    ghost var t, o := View(types, sq.indices), View(orig, sq.indices);
    SortKeeps(t, pairs);
    hide *;
    var sorted := Sort(pairs);
    r := types;
    for k := 0 to |sorted|
      invariant Resolved(types, r, orig, sq, sorted, k)
    {
      NextIsReady(types, r, orig, levels, sq, sorted, k);
      var before := r;
      r := ResolveOnePair(r, orig, levels, sq, sorted[k]);
      ResolvedNext(types, before, r, orig, sq, sorted, k);
    }
    ResolvedEnd(types, r, orig, sq, sorted);
  }
}
