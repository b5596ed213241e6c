/** Rule N0 in the words of UAX #9 (section 3.3.5): the class that a pair of brackets takes, and what follows it. */
module PairMeanings {
  import opened Wrappers
  import opened BidiTypes
  import opened ChainRules
  import opened Brackets
  import opened BracketRules
  import opened RuleMeanings

  /** Only skipped classes stand on `[lo, i)`, and another one before them. */
  ghost predicate IsGap(t: seq<BidiClass>, lo: nat, i: nat, skipped: set<BidiClass>) {
    && lo <= i <= |t|
    && (forall k :: lo <= k < i ==> t[k] in skipped)
    && (lo > 0 ==> t[lo - 1] !in skipped)
  }

  /** Where the skipped classes before place `i` begin. */
  function GapStart(t: seq<BidiClass>, i: nat, skipped: set<BidiClass>): (lo: nat)
    requires i <= |t|
    ensures IsGap(t, lo, i, skipped)
  {
    if i == 0 || t[i - 1] !in skipped then i else GapStart(t, i - 1, skipped)
  }

  /** The class before the neutrals that stand before place `i`, or the start of the sequence. */
  function ContextBefore(t: seq<BidiClass>, i: nat, sos: BidiClass): BidiClass
    requires i <= |t|
  {
    Before(t, GapStart(t, i, NEUTRALS + REMOVED), sos)
  }

  /** One of the classes stands between the brackets. */
  ghost predicate Encloses(t: seq<BidiClass>, p: Pair, classes: set<BidiClass>) {
    p.closing <= |t| && exists k :: p.opening < k < p.closing && t[k] in classes
  }

  /** The classes that count as the embedding direction, and those of the other direction. */
  function Inward(level: Level): set<BidiClass> {
    if level % 2 == 1 then RIGHTWARD else {LeftToRight}
  }

  function Outward(level: Level): set<BidiClass> {
    if level % 2 == 1 then {LeftToRight} else RIGHTWARD
  }

  /**
    * N0 b to d: the pair takes the embedding direction if that stands inside; otherwise, if the other direction does,
    * that one if it also comes before the pair, and else the embedding direction; and with neither inside it is left
    * alone.
    */
  ghost function PairClass(t: seq<BidiClass>, p: Pair, b: Borders): Option<BidiClass>
    requires p.opening <= |t|
  {
    var embedding := if b.level % 2 == 1 then RightToLeft else LeftToRight;
    var other := if b.level % 2 == 1 then LeftToRight else RightToLeft;
    if Encloses(t, p, Inward(b.level)) then Some(embedding)
    else if Encloses(t, p, Outward(b.level)) then
      Some(if ContextBefore(t, p.opening, b.sos) in Outward(b.level) then other else embedding)
    else None
  }

  /** Between the bracket at `at` and the mark at `k` stand only characters that were marks, or are removed. */
  ghost predicate IsMarkBehind(orig: seq<BidiClass>, at: nat, k: nat) {
    && at < k < |orig| && orig[k].NonspacingMark?
    && forall m :: at < m < k ==> orig[m] in {NonspacingMark} + REMOVED
  }

  /** The brackets of the pair, and the marks behind them. */
  ghost predicate GoesWith(orig: seq<BidiClass>, p: Pair, k: nat) {
    || k == p.opening || k == p.closing
    || (k < p.closing && IsMarkBehind(orig, p.opening, k))
    || IsMarkBehind(orig, p.closing, k)
  }

  lemma GapSees(t: seq<BidiClass>, lo: nat, i: nat, skip: BidiClass -> bool, skipped: set<BidiClass>)
    requires IsGap(t, lo, i, skipped) && forall c: BidiClass :: skip(c) <==> c in skipped
    ensures Back(t, i, skip) == if lo == 0 then None else Some(t[lo - 1])
  {
    BackSkips(t, lo, i, skip);
  }

  lemma SideIs(c: BidiClass)
    ensures Side(c) == Some(Ltr) <==> c.LeftToRight?
    ensures Side(c) == Some(Rtl) <==> c in RIGHTWARD
  {
  }

  /** The classes of one direction. */
  function Classes(dir: Direction): set<BidiClass> {
    if dir.Rtl? then RIGHTWARD else {LeftToRight}
  }

  lemma EnclosesSide(t: seq<BidiClass>, p: Pair, dir: Direction)
    requires p.opening < p.closing < |t|
    ensures HasSide(t, p.opening + 1, p.closing, dir) <==> Encloses(t, p, Classes(dir))
  {
    forall k | 0 <= k < |t|
      ensures Side(t[k]) == Some(dir) <==> t[k] in Classes(dir)
    {
      SideIs(t[k]);
    }
    hide Side, Classes;
  }

  lemma ContextIs(t: seq<BidiClass>, i: nat, sos: BidiClass)
    requires i <= |t|
    ensures Or(Back(t, i, NeutralOrRemoved), sos) == ContextBefore(t, i, sos)
  {
    hide Back, NeutralOrRemoved, IsGap, GapStart, Side;
    SkipsBlock();
    GapSees(t, GapStart(t, i, NEUTRALS + REMOVED), i, NeutralOrRemoved, NEUTRALS + REMOVED);
  }

  lemma ContextSide(t: seq<BidiClass>, i: nat, sos: BidiClass, dir: Direction)
    requires i <= |t|
    ensures BackSide(t, sos, i) == Some(dir) <==> ContextBefore(t, i, sos) in Classes(dir)
  {
    hide Side, Back, NeutralOrRemoved, ContextBefore, Or;
    ContextIs(t, i, sos);
    SideIs(ContextBefore(t, i, sos));
  }

  lemma WaysAre(level: Level)
    requires level != NO_LEVEL
    ensures Inward(level) == Classes(LevelDirection(level))
    ensures Outward(level) == Classes(LevelDirection(level).Opposite())
  {
  }

  lemma DirectionIs(t: seq<BidiClass>, p: Pair, b: Borders)
    requires b.Valid() && p.opening < p.closing < |t|
    ensures PairClass(t, p, b) ==
      var d := PairDirection(t, p, b); if d.None? then None else Some(if d.value.Rtl? then RightToLeft else LeftToRight)
  {
    hide HasSide, Encloses, BackSide, ContextBefore, Inward, Outward, Classes;
    var e := LevelDirection(b.level);
    WaysAre(b.level);
    EnclosesSide(t, p, e);
    EnclosesSide(t, p, e.Opposite());
    ContextSide(t, p.opening, b.sos, e.Opposite());
  }

  lemma GoesIs(orig: seq<BidiClass>, p: Pair, k: nat)
    requires p.opening < p.closing < |orig| && k < |orig|
    ensures GoesWith(orig, p, k) <==> ChangesWith(orig, p, k)
  {
    forall m | 0 <= m < |orig|
      ensures MarkOrRemoved(orig[m]) <==> orig[m] in {NonspacingMark} + REMOVED
    {
      SortsMatch(orig[m]);
    }
    hide MarkOrRemoved;
  }

  /** What one pair does: its brackets and their marks take its class, and nothing else changes. */
  ghost predicate IsPairResolved(
    u: seq<BidiClass>, v: seq<BidiClass>, orig: seq<BidiClass>, p: Pair, c: Option<BidiClass>)
  {
    && |u| == |v| == |orig|
    && forall k :: 0 <= k < |u| ==> v[k] == if c.Some? && GoesWith(orig, p, k) then c.value else u[k]
  }

  lemma OnePairResolved(t: seq<BidiClass>, orig: seq<BidiClass>, p: Pair, b: Borders)
    requires b.Valid() && p.opening < p.closing < |t| == |orig|
    ensures IsPairResolved(t, ResolvePair(t, orig, p, b), orig, p, PairClass(t, p, b))
  {
    hide PairDirection, PairClass, GoesWith, ChangesWith;
    DirectionIs(t, p, b);
    forall k | 0 <= k < |t|
      ensures GoesWith(orig, p, k) <==> ChangesWith(orig, p, k)
    {
      GoesIs(orig, p, k);
    }
  }

  // ---- the pairs in their turns ------------------------------------------------------------------

  /** Pairs that change no bracket of `p`. */
  ghost predicate LeaveAlone(orig: seq<BidiClass>, q: Pair, p: Pair) {
    && p.opening < p.closing < |orig| && q.opening < q.closing < |orig|
    && !ChangesWith(orig, q, p.opening) && !ChangesWith(orig, q, p.closing)
  }

  lemma Disturbs(orig: seq<BidiClass>, pairs: seq<Pair>, k: nat, n: nat)
    requires AreIn(pairs, |orig|) && k < |pairs| && n < |pairs| && k != n
    requires AllCompatible(pairs) && NoMarkIsBracket(orig, pairs)
    ensures LeaveAlone(orig, pairs[n], pairs[k])
  {
    hide Trails;
    assert IsUnmarked(orig, pairs[k]);
    assert if k < n then Compatible(pairs[k], pairs[n]) else Compatible(pairs[n], pairs[k]);
  }

  lemma LeftAlone(t: seq<BidiClass>, orig: seq<BidiClass>, q: Pair, b: Borders, p: Pair)
    requires |t| == |orig| && LeaveAlone(orig, q, p)
    ensures q.opening < q.closing < |t|
    ensures ResolvePair(t, orig, q, b)[p.opening] == t[p.opening]
    ensures ResolvePair(t, orig, q, b)[p.closing] == t[p.closing]
  {
    hide PairDirection, ChangesWith;
  }

  /** After the first `n` pairs. */
  function AfterPairs(
    t: seq<BidiClass>, orig: seq<BidiClass>, pairs: seq<Pair>, b: Borders, n: nat): (r: seq<BidiClass>)
    requires AreIn(pairs, |t|) && |t| == |orig| && n <= |pairs|
    ensures |r| == |t|
  {
    ResolvePairs(t, orig, pairs[..n], b)
  }

  lemma AfterOneMore(t: seq<BidiClass>, orig: seq<BidiClass>, pairs: seq<Pair>, b: Borders, n: nat)
    requires AreIn(pairs, |t|) && |t| == |orig| && n < |pairs|
    ensures AfterPairs(t, orig, pairs, b, n + 1) == ResolvePair(AfterPairs(t, orig, pairs, b, n), orig, pairs[n], b)
  {
    assert pairs[..n + 1] == pairs[..n] + [pairs[n]];
    ResolvePairsSnoc(t, orig, pairs[..n], pairs[n], b);
    hide ResolvePairs, ResolvePair;
  }

  /** From pair `from` to pair `to` without pair `k`, the brackets of that one stay as they are. */
  lemma {:induction false} KeptByOthers(
    t: seq<BidiClass>, orig: seq<BidiClass>, pairs: seq<Pair>, b: Borders, k: nat, from: nat, to: nat)
    requires AreIn(pairs, |t|) && |t| == |orig| && k < |pairs| && AllCompatible(pairs) && NoMarkIsBracket(orig, pairs)
    requires from <= to <= |pairs| && (to <= k || k < from)
    ensures var u, v, p := AfterPairs(t, orig, pairs, b, from), AfterPairs(t, orig, pairs, b, to), pairs[k];
      u[p.opening] == v[p.opening] && u[p.closing] == v[p.closing]
  {
    hide ResolvePair, LeaveAlone, AfterPairs, AllCompatible, NoMarkIsBracket;
    if from < to {
      KeptByOthers(t, orig, pairs, b, k, from, to - 1);
      AfterOneMore(t, orig, pairs, b, to - 1);
      Disturbs(orig, pairs, k, to - 1);
      LeftAlone(AfterPairs(t, orig, pairs, b, to - 1), orig, pairs[to - 1], b, pairs[k]);
    }
  }

  lemma AfterAll(t: seq<BidiClass>, orig: seq<BidiClass>, pairs: seq<Pair>, b: Borders)
    requires AreIn(pairs, |t|) && |t| == |orig|
    ensures AfterPairs(t, orig, pairs, b, 0) == t
    ensures AfterPairs(t, orig, pairs, b, |pairs|) == ResolvePairs(t, orig, pairs, b)
  {
    assert pairs[..|pairs|] == pairs;
  }

  /** The class that pair `n` takes when its turn comes, in the text as the pairs before it have left it. */
  ghost function TurnClass(
    t: seq<BidiClass>, orig: seq<BidiClass>, pairs: seq<Pair>, b: Borders, n: nat): Option<BidiClass>
    requires AreIn(pairs, |t|) && |t| == |orig| && n < |pairs|
  {
    PairClass(AfterPairs(t, orig, pairs, b, n), pairs[n], b)
  }

  lemma TurnResolved(t: seq<BidiClass>, orig: seq<BidiClass>, pairs: seq<Pair>, b: Borders, n: nat)
    requires b.Valid() && AreIn(pairs, |t|) && |t| == |orig| && n < |pairs|
    ensures IsPairResolved(
      AfterPairs(t, orig, pairs, b, n), AfterPairs(t, orig, pairs, b, n + 1), orig, pairs[n],
      TurnClass(t, orig, pairs, b, n))
  {
    hide ResolvePair, PairClass, AfterPairs, IsPairResolved;
    AfterOneMore(t, orig, pairs, b, n);
    OnePairResolved(AfterPairs(t, orig, pairs, b, n), orig, pairs[n], b);
  }

  /** If no bracket was a mark, the brackets of a pair end with the class of its turn, or as they were. */
  lemma {:induction false} PairsTakeClass(
    t: seq<BidiClass>, orig: seq<BidiClass>, pairs: seq<Pair>, b: Borders, k: nat)
    requires b.Valid() && AreIn(pairs, |t|) && |t| == |orig| && k < |pairs|
    requires AllCompatible(pairs) && NoMarkIsBracket(orig, pairs)
    ensures var p, c, r := pairs[k], TurnClass(t, orig, pairs, b, k), ResolvePairs(t, orig, pairs, b);
      && r[p.opening] == (if c.Some? then c.value else t[p.opening])
      && r[p.closing] == (if c.Some? then c.value else t[p.closing])
  {
    hide ResolvePairs, AllCompatible, NoMarkIsBracket, AfterPairs, TurnClass;
    TurnResolved(t, orig, pairs, b, k);
    AfterAll(t, orig, pairs, b);
    KeptByOthers(t, orig, pairs, b, k, 0, k);
    KeptByOthers(t, orig, pairs, b, k, k + 1, |pairs|);
  }

  /** The pairs of rule N0, in their turns. */
  function PairsInTurn(t: seq<BidiClass>, chars: seq<char>, lookup: Lookup): (r: seq<Pair>)
    requires |t| == |chars| && Match(t, chars, lookup, |t|).Some?
    ensures AreBrackets(t, r) && AreIn(r, |t|) && InOrder(r)
    ensures multiset(r) == multiset(Match(t, chars, lookup, |t|).value.pairs)
  {
    var pairs := Match(t, chars, lookup, |t|).value.pairs;
    PairsNest(t, chars, lookup, |t|);
    SortKeeps(t, pairs);
    SortSorts(pairs);
    SortPermutes(pairs);
    Sort(pairs)
  }

  lemma N0IsInTurn(t: seq<BidiClass>, orig: seq<BidiClass>, chars: seq<char>, lookup: Lookup, b: Borders)
    requires |t| == |orig| == |chars| && Match(t, chars, lookup, |t|).Some?
    ensures N0(t, orig, chars, lookup, b) == Some(ResolvePairs(t, orig, PairsInTurn(t, chars, lookup), b))
    ensures AllCompatible(PairsInTurn(t, chars, lookup))
  {
    PairsNest(t, chars, lookup, |t|);
    SortKeepsCompatible(Match(t, chars, lookup, |t|).value.pairs);
    hide Match, Sort, ResolvePairs;
  }

  /** N0 b to d: the two brackets of every pair that BD16 finds end with the class of its turn, or stay ON. */
  lemma {:induction false} N0TakesClass(
    t: seq<BidiClass>, orig: seq<BidiClass>, chars: seq<char>, lookup: Lookup, b: Borders, k: nat)
    requires b.Valid() && |t| == |orig| == |chars| && Match(t, chars, lookup, |t|).Some?
    requires k < |PairsInTurn(t, chars, lookup)| && NoMarkIsBracket(orig, PairsInTurn(t, chars, lookup))
    ensures N0(t, orig, chars, lookup, b).Some?
    ensures var p, r := PairsInTurn(t, chars, lookup)[k], N0(t, orig, chars, lookup, b).value;
      var c := TurnClass(t, orig, PairsInTurn(t, chars, lookup), b, k);
      && r[p.opening] == r[p.closing] == if c.Some? then c.value else OtherNeutral
  {
    hide Match, PairsInTurn, ResolvePairs, TurnClass, N0, AllCompatible, NoMarkIsBracket;
    N0IsInTurn(t, orig, chars, lookup, b);
    assert IsBracketPair(t, PairsInTurn(t, chars, lookup)[k]);
    PairsTakeClass(t, orig, PairsInTurn(t, chars, lookup), b, k);
  }

  // ---- every place ---------------------------------------------------------------------------------

  /** Pair `n` takes a class, and place `k` with it. */
  ghost predicate TakesAlong(
    t: seq<BidiClass>, orig: seq<BidiClass>, pairs: seq<Pair>, b: Borders, n: nat, k: nat)
    requires AreIn(pairs, |t|) && |t| == |orig|
  {
    n < |pairs| && TurnClass(t, orig, pairs, b, n).Some? && GoesWith(orig, pairs[n], k)
  }

  /** From pair `from` to pair `to` none takes the place along. */
  ghost predicate NoneTakes(
    t: seq<BidiClass>, orig: seq<BidiClass>, pairs: seq<Pair>, b: Borders, k: nat, from: nat, to: nat)
    requires AreIn(pairs, |t|) && |t| == |orig|
  {
    forall n :: from <= n < to ==> !TakesAlong(t, orig, pairs, b, n, k)
  }

  lemma OneTurn(t: seq<BidiClass>, orig: seq<BidiClass>, pairs: seq<Pair>, b: Borders, n: nat, k: nat)
    requires b.Valid() && AreIn(pairs, |t|) && |t| == |orig| && n < |pairs| && k < |t|
    ensures var after := AfterPairs(t, orig, pairs, b, n + 1)[k];
      if TakesAlong(t, orig, pairs, b, n, k) then Some(after) == TurnClass(t, orig, pairs, b, n)
      else after == AfterPairs(t, orig, pairs, b, n)[k]
  {
    hide AfterPairs, TurnClass, GoesWith;
    TurnResolved(t, orig, pairs, b, n);
  }

  lemma {:induction false} NoneChanges(
    t: seq<BidiClass>, orig: seq<BidiClass>, pairs: seq<Pair>, b: Borders, k: nat, from: nat, to: nat)
    requires b.Valid() && AreIn(pairs, |t|) && |t| == |orig| && k < |t| && from <= to <= |pairs|
    requires NoneTakes(t, orig, pairs, b, k, from, to)
    ensures AfterPairs(t, orig, pairs, b, to)[k] == AfterPairs(t, orig, pairs, b, from)[k]
  {
    hide AfterPairs, TakesAlong;
    if from < to {
      NoneChanges(t, orig, pairs, b, k, from, to - 1);
      OneTurn(t, orig, pairs, b, to - 1, k);
    }
  }

  ghost predicate IsLastToTake(t: seq<BidiClass>, orig: seq<BidiClass>, pairs: seq<Pair>, b: Borders, n: nat, k: nat)
    requires AreIn(pairs, |t|) && |t| == |orig|
  {
    TakesAlong(t, orig, pairs, b, n, k) && NoneTakes(t, orig, pairs, b, k, n + 1, |pairs|)
  }

  lemma LastTakes(t: seq<BidiClass>, orig: seq<BidiClass>, pairs: seq<Pair>, b: Borders, n: nat, k: nat)
    requires b.Valid() && AreIn(pairs, |t|) && |t| == |orig| && k < |t| && IsLastToTake(t, orig, pairs, b, n, k)
    ensures n < |pairs| && Some(ResolvePairs(t, orig, pairs, b)[k]) == TurnClass(t, orig, pairs, b, n)
  {
    hide ResolvePairs, AfterPairs, TurnClass, NoneTakes, GoesWith;
    OneTurn(t, orig, pairs, b, n, k);
    NoneChanges(t, orig, pairs, b, k, n + 1, |pairs|);
    AfterAll(t, orig, pairs, b);
  }

  lemma {:induction false} SomeIsLast(
    t: seq<BidiClass>, orig: seq<BidiClass>, pairs: seq<Pair>, b: Borders, k: nat, to: nat) returns (n: nat)
    requires AreIn(pairs, |t|) && |t| == |orig| && to <= |pairs| && !NoneTakes(t, orig, pairs, b, k, 0, to)
    ensures n < to && TakesAlong(t, orig, pairs, b, n, k) && NoneTakes(t, orig, pairs, b, k, n + 1, to)
  {
    hide TakesAlong;
    if TakesAlong(t, orig, pairs, b, to - 1, k) {
      n := to - 1;
    } else {
      n := SomeIsLast(t, orig, pairs, b, k, to - 1);
    }
  }

  /** Every place ends with the class of the last pair that takes it along, or as it was if none does. */
  lemma {:induction false} LastPairDecides(
    t: seq<BidiClass>, orig: seq<BidiClass>, pairs: seq<Pair>, b: Borders, k: nat)
    requires b.Valid() && AreIn(pairs, |t|) && |t| == |orig| && k < |t|
    ensures NoneTakes(t, orig, pairs, b, k, 0, |pairs|) ==> ResolvePairs(t, orig, pairs, b)[k] == t[k]
    ensures NoneTakes(t, orig, pairs, b, k, 0, |pairs|) || exists n: nat :: IsLastToTake(t, orig, pairs, b, n, k)
    ensures forall n: nat | IsLastToTake(t, orig, pairs, b, n, k) ::
      n < |pairs| && Some(ResolvePairs(t, orig, pairs, b)[k]) == TurnClass(t, orig, pairs, b, n)
  {
    hide ResolvePairs, AfterPairs, TurnClass, NoneTakes, TakesAlong;
    AfterAll(t, orig, pairs, b);
    if NoneTakes(t, orig, pairs, b, k, 0, |pairs|) {
      NoneChanges(t, orig, pairs, b, k, 0, |pairs|);
    } else {
      var n := SomeIsLast(t, orig, pairs, b, k, |pairs|);
      assert IsLastToTake(t, orig, pairs, b, n, k);
    }
    forall n: nat | IsLastToTake(t, orig, pairs, b, n, k)
      ensures n < |pairs| && Some(ResolvePairs(t, orig, pairs, b)[k]) == TurnClass(t, orig, pairs, b, n)
    {
      LastTakes(t, orig, pairs, b, n, k);
    }
  }
}
