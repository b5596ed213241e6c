/** What all the type rules together leave alone: strong types keep their direction, but for a mark behind a bracket. */
module StrongTypes {
  import opened Wrappers
  import opened BidiTypes
  import opened LevelRuns
  import opened ChainRules
  import opened ChainViews
  import opened Brackets
  import opened BracketRules
  import opened Resolution
  import opened RuleMeanings
  import opened WeakMeanings
  import opened PairMeanings

  // ---- in one sequence ----------------------------------------------------------------------------

  /** The classes that rules W1 to W7 leave alone. */
  predicate IsSettled(c: BidiClass) {
    && !c.NonspacingMark? && !c.EuropeanNumber? && !c.ArabicLetter?
    && !c.EuropeanSeparator? && !c.CommonSeparator? && !c.EuropeanTerminator?
  }

  lemma AtLeaves(rule: Rule, t: seq<BidiClass>, b: Borders, i: nat)
    requires i < |t| && IsSettled(t[i]) && !rule.N1? && !rule.N2?
    ensures Apply(rule, t, b)[i] == t[i]
  {
    hide Back, Ahead;
  }

  lemma WeakLeavesSettled(t: seq<BidiClass>, b: Borders, i: nat)
    requires i < |t| && IsSettled(t[i])
    ensures Weak(t, b)[i] == t[i]
  {
    var u1 := Apply(W1, t, b);
    var u2 := Apply(W2, u1, b);
    var u3 := Apply(W3, u2, b);
    var u4 := Apply(W4, u3, b);
    var u5 := Apply(W5, u4, b);
    var u6 := Apply(W6, u5, b);
    hide Apply, IsSettled;
    AtLeaves(W1, t, b, i);
    AtLeaves(W2, u1, b, i);
    AtLeaves(W3, u2, b, i);
    AtLeaves(W4, u3, b, i);
    AtLeaves(W5, u4, b, i);
    AtLeaves(W6, u5, b, i);
    AtLeaves(W7, u6, b, i);
  }

  /** The direction of a strong type. */
  function StrongClass(c: BidiClass): BidiClass {
    if c.LeftToRight? then LeftToRight else RightToLeft
  }

  /** W1 changes marks only. */
  lemma MarksOnly(t: seq<BidiClass>, b: Borders, i: nat)
    requires i < |t| && !t[i].NonspacingMark?
    ensures AfterW1(t, b)[i] == t[i]
  {
    hide Back;
    assert Apply(W1, t, b)[i] == W1At(t, b.sos, i);
  }

  /** W7 changes European numbers only. */
  lemma LastIsKept(t: seq<BidiClass>, b: Borders, i: nat)
    requires i < |t|
    ensures !AfterW6(t, b)[i].EuropeanNumber? ==> Apply(W7, AfterW6(t, b), b)[i] == AfterW6(t, b)[i]
  {
    var u := AfterW6(t, b);
    hide Back, AfterW6;
    assert Apply(W7, u, b)[i] == W7At(u, b.sos, i);
  }

  lemma {:induction false} WeakKeepsStrong(t: seq<BidiClass>, b: Borders, i: nat)
    requires i < |t| && t[i] in STRONG
    ensures Weak(t, b)[i] == StrongClass(t[i])
  {
    WeakIs(t, b);
    W3Leaves(t, b, i);
    W6Leaves(t, b, i);
    MarksOnly(t, b, i);
    LastIsKept(t, b, i);
    hide AfterW1, AfterW3, AfterW6, Weak, Apply;
  }

  lemma NoBracketPlace(t: seq<BidiClass>, pairs: seq<Pair>, i: nat)
    requires AreBrackets(t, pairs) && i < |t| && !t[i].OtherNeutral?
    ensures !IsBracketPlace(pairs, i)
  {
    forall l | 0 <= l < |pairs|
      ensures i != pairs[l].opening && i != pairs[l].closing
    {
      assert IsBracketPair(t, pairs[l]);
    }
  }

  lemma NoN0(t: seq<BidiClass>, orig: seq<BidiClass>, chars: seq<char>, lookup: Lookup, b: Borders)
    requires |t| == |orig| == |chars|
    ensures N0(t, orig, chars, lookup, b).Some? <==> Match(t, chars, lookup, |t|).Some?
  {
    hide Match, Sort, ResolvePairs;
  }

  lemma N0KeepsOthers(t: seq<BidiClass>, orig: seq<BidiClass>, chars: seq<char>, lookup: Lookup, b: Borders, i: nat)
    requires |t| == |orig| == |chars| && i < |t| && !t[i].OtherNeutral? && !orig[i].NonspacingMark?
    ensures N0(t, orig, chars, lookup, b).Some? ==> N0(t, orig, chars, lookup, b).value[i] == t[i]
  {
    hide Match, PairsInTurn, ResolvePairs, N0, IsBracketPair;
    var m := Match(t, chars, lookup, |t|);
    if m.Some? {
      N0IsInTurn(t, orig, chars, lookup, b);
      PairsChange(t, orig, PairsInTurn(t, chars, lookup), b, i);
      NoBracketPlace(t, PairsInTurn(t, chars, lookup), i);
    } else {
      NoN0(t, orig, chars, lookup, b);
    }
  }

  /** What rules W1 to W7 leave of a class stays, but for neutrals and for characters that were marks. */
  lemma {:induction false} RulesKeepOthers(
    t: seq<BidiClass>, orig: seq<BidiClass>, chars: seq<char>, lookup: Lookup, b: Borders, brackets: bool, i: nat)
    requires i < |t| == |orig| && !orig[i].NonspacingMark? && (brackets ==> |t| == |chars|)
    requires Weak(t, b)[i] !in NEUTRALS
    ensures Rules(t, orig, chars, lookup, b, brackets)[i] == Weak(t, b)[i]
  {
    var weak := Weak(t, b);
    hide Weak, N0, Neutrals;
    var paired := if brackets then N0(weak, orig, chars, lookup, b) else None;
    if brackets {
      N0KeepsOthers(weak, orig, chars, lookup, b, i);
    }
    OthersStay(if paired.Some? then paired.value else weak, b, i);
  }

  // ---- in a paragraph -----------------------------------------------------------------------------

  /**
    * A strong type, by itself or by an override, keeps its direction through all the rules, if the character was not a
    * nonspacing mark: an L ends as L, at the least even level from its explicit level on, and an R or an Arabic letter
    * ends as R, at the least odd level from there on.
    */
  lemma {:induction false} StrongStays(
    orig: seq<BidiClass>, base: Level, paragraph: seq<char>, lookup: Lookup, types: seq<BidiClass>, levels: seq<Level>,
    i: nat)
    requires paragraph != [] ==> |paragraph| == |orig|
    requires IsResolution(orig, base, paragraph, lookup, types, levels) && i < |orig| && !orig[i].IsRemoved()
    requires !orig[i].NonspacingMark?
    ensures |types| == |levels| == |orig|
    ensures ClassAt(orig, base, i).LeftToRight? ==>
      types[i] == LeftToRight && levels[i] % 2 == 0 && LevelAt(orig, base, i) <= levels[i] <= LevelAt(orig, base, i) + 1
    ensures ClassAt(orig, base, i).RightToLeft? || ClassAt(orig, base, i).ArabicLetter? ==>
      types[i] == RightToLeft && levels[i] % 2 == 1 && LevelAt(orig, base, i) <= levels[i] <= LevelAt(orig, base, i) + 1
  {
    hide Rewritten, FinalViews, Resolvable, LevelAt, ClassAt, XTypes, XLevels, XSequences, Rules, Weak, ImplicitLevel;
    var sq, a, brackets := ResolvedAt(orig, base, paragraph, lookup, types, levels, i);
    EndToEnd(orig, base, paragraph, lookup, types, levels, i);
    var t := View(XTypes(orig, base), sq.indices);
    if ClassAt(orig, base, i) in STRONG {
      WeakKeepsStrong(t, BordersOf(sq), a);
      RulesKeepOthers(
        t, View(orig, sq.indices), if brackets then View(paragraph, sq.indices)
          else [], lookup, BordersOf(sq), brackets,
        a);
    }
  }

  ghost predicate TurnsAway(
    t: seq<BidiClass>, orig: seq<BidiClass>, chars: seq<char>, lookup: Lookup, b: Borders, a: nat, c: BidiClass)
    requires |t| == |orig| == |chars|
  {
    && Match(t, chars, lookup, |t|).Some?
    && var pairs := PairsInTurn(t, chars, lookup);
       exists n: nat :: IsLastToTake(t, orig, pairs, b, n, a) && TurnClass(t, orig, pairs, b, n) != Some(c)
  }

  /** The last pair of brackets in sequence `s` that takes place `a` along turns it away from class `c`. */
  ghost predicate IsTurned(
    orig: seq<BidiClass>, base: Level, paragraph: seq<char>, lookup: Lookup, s: nat, a: nat, c: BidiClass)
    requires Resolvable(orig, base) && (paragraph != [] ==> |paragraph| == |orig|) && s < |XSequences(orig, base)|
  {
    XViewInText(orig, base, s);
    var sq := XSequences(orig, base)[s];
    var t, b := Weak(View(XTypes(orig, base), sq.indices), BordersOf(sq)), BordersOf(sq);
    && PassReaches(orig, base, paragraph, lookup, s)
    && TurnsAway(t, View(orig, sq.indices), View(paragraph, sq.indices), lookup, b, a, c)
  }

  lemma TurnsExactly(
    t: seq<BidiClass>, orig: seq<BidiClass>, chars: seq<char>, lookup: Lookup, b: Borders, a: nat)
    requires b.Valid() && |t| == |orig| == |chars| && a < |t| && Match(t, chars, lookup, |t|).Some?
    ensures N0(t, orig, chars, lookup, b).Some?
    ensures N0(t, orig, chars, lookup, b).value[a] == t[a] <==> !TurnsAway(t, orig, chars, lookup, b, a, t[a])
  {
    hide Match, PairsInTurn, ResolvePairs, N0, NoneTakes, IsLastToTake, TurnClass, AllCompatible, AreIn, InOrder;
    N0IsInTurn(t, orig, chars, lookup, b);
    LastPairDecides(t, orig, PairsInTurn(t, chars, lookup), b, a);
  }

  lemma NotTurned(
    t: seq<BidiClass>, orig: seq<BidiClass>, chars: seq<char>, lookup: Lookup, b: Borders, a: nat)
    requires |t| == |orig| == |chars| && a < |t| && Match(t, chars, lookup, |t|).None?
    ensures !TurnsAway(t, orig, chars, lookup, b, a, t[a])
  {
  }

  lemma ChangesToStrong(
    t: seq<BidiClass>, orig: seq<BidiClass>, chars: seq<char>, lookup: Lookup, b: Borders, a: nat)
    requires |t| == |orig| == |chars| && a < |t| && Match(t, chars, lookup, |t|).Some?
    ensures N0(t, orig, chars, lookup, b).Some?
    ensures var c := N0(t, orig, chars, lookup, b).value[a]; c == t[a] || c.LeftToRight? || c.RightToLeft?
  {
    hide Match, PairsInTurn, ResolvePairs, N0, AllCompatible, InOrder;
    N0IsInTurn(t, orig, chars, lookup, b);
    PairsChange(t, orig, PairsInTurn(t, chars, lookup), b, a);
  }

  /** The sequence after N0, which changes nothing when BD16 gives up. */
  function AfterN0(
    t: seq<BidiClass>, orig: seq<BidiClass>, chars: seq<char>, lookup: Lookup, b: Borders): (r: seq<BidiClass>)
    requires |t| == |orig| == |chars|
    ensures |r| == |t|
  {
    var r := N0(t, orig, chars, lookup, b);
    if r.Some? then r.value else t
  }

  /** With N0, a place that is L or R stays so, and keeps its class if and only if no pair turns it. */
  lemma N0Turns(
    t: seq<BidiClass>, orig: seq<BidiClass>, chars: seq<char>, lookup: Lookup, b: Borders, a: nat)
    requires b.Valid() && |t| == |orig| == |chars| && a < |t| && t[a] in {LeftToRight, RightToLeft}
    ensures AfterN0(t, orig, chars, lookup, b)[a] in {LeftToRight, RightToLeft}
    ensures AfterN0(t, orig, chars, lookup, b)[a] == t[a] <==> !TurnsAway(t, orig, chars, lookup, b, a, t[a])
  {
    NoN0(t, orig, chars, lookup, b);
    hide N0, Match, TurnsAway;
    if Match(t, chars, lookup, |t|).Some? {
      TurnsExactly(t, orig, chars, lookup, b, a);
      ChangesToStrong(t, orig, chars, lookup, b, a);
    } else {
      NotTurned(t, orig, chars, lookup, b, a);
    }
  }

  lemma RulesAre(
    t: seq<BidiClass>, orig: seq<BidiClass>, chars: seq<char>, lookup: Lookup, b: Borders, brackets: bool)
    requires brackets ==> |t| == |orig| == |chars|
    ensures Rules(t, orig, chars, lookup, b, brackets) ==
      Neutrals(if brackets then AfterN0(Weak(t, b), orig, chars, lookup, b) else Weak(t, b), b)
  {
    hide N0, Weak, Neutrals;
  }

  /** A strong type keeps its direction through the rules if and only if no pair turns it. */
  lemma RulesTurn(
    t: seq<BidiClass>, orig: seq<BidiClass>, chars: seq<char>, lookup: Lookup, b: Borders, brackets: bool, a: nat)
    requires b.Valid() && a < |t| == |orig| && (brackets ==> |t| == |chars|) && t[a] in STRONG
    ensures Rules(t, orig, chars, lookup, b, brackets)[a] == StrongClass(t[a]) <==>
      !(brackets && TurnsAway(Weak(t, b), orig, chars, lookup, b, a, StrongClass(t[a])))
  {
    hide Weak, AfterN0, Neutrals, TurnsAway, Rules;
    WeakKeepsStrong(t, b, a);
    RulesAre(t, orig, chars, lookup, b, brackets);
    if brackets {
      N0Turns(Weak(t, b), orig, chars, lookup, b, a);
    }
    OthersStay(if brackets then AfterN0(Weak(t, b), orig, chars, lookup, b) else Weak(t, b), b, a);
  }

  /**
    * A strong type keeps its direction if and only if no resolved pair of brackets turns it: with the places that
    * follow a bracket, the source goes by the class before the overrides, so that a mark which an override has made L
    * or R changes with the bracket all the same.
    */
  lemma {:induction false} StrongStaysExactly(
    orig: seq<BidiClass>, base: Level, paragraph: seq<char>, lookup: Lookup, types: seq<BidiClass>, levels: seq<Level>,
    s: nat, a: nat)
    requires paragraph != [] ==> |paragraph| == |orig|
    requires IsResolution(orig, base, paragraph, lookup, types, levels)
    requires s < |XSequences(orig, base)| && a < |XSequences(orig, base)[s].indices|
    ensures InText(|orig|, XSequences(orig, base)[s].indices) && |types| == |orig|
    ensures var i := XSequences(orig, base)[s].indices[a]; var c := ClassAt(orig, base, i);
      c in STRONG ==>
        (types[i] == StrongClass(c) <==> !IsTurned(orig, base, paragraph, lookup, s, a, StrongClass(c)))
  {
    hide Rewritten, Resolvable, XTypes, XLevels, XSequences, Rules, Weak, TurnsAway, FinalViews, PassReaches;
    hide ClassAt, LevelAt, ImplicitLevel;
    ShownAt(orig, base, paragraph, lookup, types, levels, s, a);
    FinalViewIs(orig, base, paragraph, lookup, s);
    ChainIsValid(orig, base, s);
    var sq := XSequences(orig, base)[s];
    var brackets := PassReaches(orig, base, paragraph, lookup, s);
    var t := View(XTypes(orig, base), sq.indices);
    assert t[a] == ClassAt(orig, base, sq.indices[a]);
    if t[a] in STRONG {
      RulesTurn(
        t, View(orig, sq.indices), if brackets then View(paragraph, sq.indices)
          else [], lookup, BordersOf(sq), brackets,
        a);
    }
  }
}
