/**
  * Where the code departs from rule N0 of UAX #9 (section 3.3.5): a mark that an override has made R still changes with
  * the bracket before it, because the code goes by the class before the overrides, and not by the one before rule W1.
  */
module BracketMark {
  import opened Wrappers
  import opened BidiTypes
  import opened LevelStacks
  import opened ExplicitLevels
  import opened LevelRuns
  import opened ChainRules
  import opened ChainViews
  import opened Brackets
  import opened BracketRules
  import opened Resolution
  import opened RuleMeanings
  import opened StrongTypes
  import opened Deviations

  /** `a(b)` in a right-to-left embedding, then a mark in a right-to-left override. */
  function Marked(): (r: seq<BidiClass>)
    ensures |r| == 9
  {
    [RightToLeftEmbedding, LeftToRight, OtherNeutral, LeftToRight, OtherNeutral, PopDirectionalFormat,
     RightToLeftOverride, NonspacingMark, PopDirectionalFormat]
  }

  function MarkedText(): (r: seq<char>)
    ensures |r| == 9
  {
    ['[', 'a', '(', 'b', ')', ']', '[', 'm', ']']
  }

  /** The classes after the explicit rules: the override makes the mark R. */
  function MarkedTypes(): (r: seq<BidiClass>)
    ensures |r| == 9 && r[7] == RightToLeft
  {
    Marked()[7 := RightToLeft]
  }

  function MarkedLevels(): (r: seq<Level>)
    ensures |r| == 9
  {
    [NO_LEVEL, 1, 1, 1, 1, NO_LEVEL, NO_LEVEL, 1, NO_LEVEL]
  }

  // ---- the explicit rules -------------------------------------------------------------------------

  function Embedded(override: Override): State {
    var stack := [Entry(0, Neutral, false), Entry(1, override, false)];
    NoIsolates(stack);
    assert IsStack(stack[..1]) && stack[..|stack| - 1] == stack[..1];
    XState(stack, 0, 0, 0)
  }

  lemma Embeds(c: BidiClass, fsiRtl: bool)
    requires c.RightToLeftEmbedding? || c.RightToLeftOverride?
    ensures Step(Init(0), c, fsiRtl) == Some(Embedded(if c.RightToLeftOverride? then RTL else Neutral))
  {
    var override := if c.RightToLeftOverride? then RTL else Neutral;
    assert Init(0).stack + [Entry(1, override, false)] == Embedded(override).stack;
  }

  lemma Pops(override: Override, fsiRtl: bool)
    ensures Step(Embedded(override), PopDirectionalFormat, fsiRtl) == Some(Init(0))
  {
    assert Embedded(override).stack[..1] == Init(0).stack;
  }

  function MarkedState(n: nat): State {
    if 1 <= n <= 5 then Embedded(Neutral) else if 7 <= n <= 8 then Embedded(RTL) else Init(0)
  }

  lemma {:induction false} MarkedRun(n: nat)
    requires n <= 9
    ensures Run(Marked(), 0, n) == Some(MarkedState(n))
  {
    hide Run, Step, Inv, Embedded, Init;
    if n == 0 {
      RunStart(Marked(), 0);
    } else {
      var c, fsiRtl := Marked()[n - 1], FsiIsRtl(Marked(), n - 1);
      MarkedRun(n - 1);
      RunStep(Marked(), 0, n - 1);
      if n == 1 || n == 7 {
        Embeds(c, fsiRtl);
      } else if n == 6 || n == 9 {
        Pops(if n == 6 then Neutral else RTL, fsiRtl);
      } else {
        OthersStep(MarkedState(n - 1), c, fsiRtl);
      }
    }
  }

  lemma MarkedExplicit(i: nat)
    requires i < 9
    ensures Resolvable(Marked(), 0)
    ensures XTypes(Marked(), 0)[i] == MarkedTypes()[i] && XLevels(Marked(), 0)[i] == MarkedLevels()[i]
  {
    hide Run, Step, Inv, XTypes, XLevels;
    MarkedRun(i);
    MarkedRun(i + 1);
    MarkedRun(9);
    assert XTypes(Marked(), 0)[i] == ClassAt(Marked(), 0, i);
    assert XLevels(Marked(), 0)[i] == LevelAt(Marked(), 0, i);
  }

  lemma MarkedIs()
    ensures Resolvable(Marked(), 0) && XTypes(Marked(), 0) == MarkedTypes() && XLevels(Marked(), 0) == MarkedLevels()
  {
    hide *;
    MarkedExplicit(0);
    forall i | 0 <= i < 9
      ensures XTypes(Marked(), 0)[i] == MarkedTypes()[i] && XLevels(Marked(), 0)[i] == MarkedLevels()[i]
    {
      MarkedExplicit(i);
    }
  }

  // ---- one level run, one sequence ----------------------------------------------------------------

  lemma MarkedSpan(i: nat)
    requires 2 <= i <= 9
    ensures SpanEnd(MarkedTypes(), MarkedLevels(), 1, i) == 9
    decreases 9 - i
  {
    if i < 9 {
      MarkedSpan(i + 1);
    }
  }

  lemma MarkedRuns(runs: seq<LevelRun>)
    requires runs == LevelRunsOf(MarkedTypes(), MarkedLevels(), 0)
    ensures runs == [LevelRun(0, 9, 9, 0, 1, RightToLeft, RightToLeft)]
  {
    MarkedSpan(2);
    var types, levels := MarkedTypes(), MarkedLevels();
    assert SpanEnd(types, levels, NO_LEVEL, 0) == SpanEnd(types, levels, NO_LEVEL, 1) == 9;
    assert FirstLevel(levels, 0, 9) == FirstLevel(levels, 1, 9) == 1;
    hide SpanEnd, FirstLevel;
    assert RunsFrom(types, levels, 9) == [];
    assert RunsFrom(types, levels, 0) == [LevelRun(0, 9, 9, 0, 1, OtherNeutral, OtherNeutral)];
  }

  lemma MarkedLists(ends: seq<Ends>)
    requires |ends| == 1 && !ends[0].endsWithInit
    ensures SequencesFrom(ends, {}, 0) == [[0]]
  {
    assert Continuation(ends, {}, 0) == [] && [0] + [] == [0];
    assert SequencesFrom(ends, {} + SetOf([0]), 1) == [];
  }

  lemma MarkedEnd()
    ensures !MarkedTypes()[8].IsIsoInit()
  {
  }

  lemma MarkedSequence()
    ensures Resolvable(Marked(), 0)
    ensures var seqs := XSequences(Marked(), 0);
      |seqs| == 1 && seqs[0].indices == Range(0, 9) && BordersOf(seqs[0]) == Borders(RightToLeft, RightToLeft, 1)
  {
    hide Marked, MarkedLevels, LevelRunsOf, Resolvable, SequencesFrom, Chain, Range, XTypes, XLevels, TotalLen;
    MarkedIs();
    var runs := LevelRunsOf(MarkedTypes(), MarkedLevels(), 0);
    MarkedRuns(runs);
    MarkedEnd();
    MarkedLists(AllEnds(MarkedTypes(), MarkedLevels(), runs));
    ChainOne(runs, 0);
  }

  lemma WholeView<T>(a: seq<T>)
    requires |a| == 9 && InText(9, Range(0, 9))
    ensures View(a, Range(0, 9)) == a
  {
  }

  // ---- the type rules -----------------------------------------------------------------------------

  lemma MarkedWeak(b: Borders)
    ensures Weak(MarkedTypes(), b) == MarkedTypes()
  {
    var t := MarkedTypes();
    hide Weak;
    forall k | 0 <= k < 9
      ensures Weak(t, b)[k] == t[k]
    {
      WeakLeavesSettled(t, b, k);
    }
  }

  lemma {:induction false} NoMoreBrackets(t: seq<BidiClass>, chars: seq<char>, lookup: Lookup, i: nat, n: nat)
    requires i <= n <= |t| == |chars| && forall k :: i <= k < n ==> !t[k].OtherNeutral?
    ensures Match(t, chars, lookup, n) == Match(t, chars, lookup, i)
  {
    if i < n {
      NoMoreBrackets(t, chars, lookup, i, n - 1);
    }
  }

  lemma MarkedPairs(lookup: Lookup)
    requires HasParentheses(lookup)
    ensures Match(MarkedTypes(), MarkedText(), lookup, 9) == Some(Matching([], [Pair(2, 4)]))
  {
    var t, chars := MarkedTypes(), MarkedText();
    NoMoreBrackets(t, chars, lookup, 0, 2);
    MatchStep(t, chars, lookup, 2);
    NoMoreBrackets(t, chars, lookup, 3, 4);
    MatchStep(t, chars, lookup, 4);
    NoMoreBrackets(t, chars, lookup, 5, 9);
    assert Match(t, chars, lookup, 2) == Some(Matching([], []));
    hide Match;
    var open := [Opener(')', 2)];
    assert [] + open == open;
    assert Match(t, chars, lookup, 3) == Some(Matching(open, []));
    assert FindOpener(open, ')') == Some(0) && open[..0] == [];
    assert Closed(Matching(open, []), ')', 4) == Matching([], [Pair(2, 4)]);
  }

  lemma MarkedDirection(b: Borders)
    requires b == Borders(RightToLeft, RightToLeft, 1)
    ensures PairDirection(MarkedTypes(), Pair(2, 4), b) == Some(Ltr)
  {
    var t := MarkedTypes();
    assert Side(t[3]) == Some(Ltr);
    assert Back(t, 2, NeutralOrRemoved) == Some(LeftToRight);
  }

  /** The mark was one before the override, and only removed characters stand between the bracket and it. */
  lemma MarkGoesWith()
    ensures ChangesWith(Marked(), Pair(2, 4), 7)
  {
  }

  lemma MarkTurns(lookup: Lookup, b: Borders)
    requires HasParentheses(lookup) && b == Borders(RightToLeft, RightToLeft, 1)
    ensures N0(MarkedTypes(), Marked(), MarkedText(), lookup, b).Some?
    ensures N0(MarkedTypes(), Marked(), MarkedText(), lookup, b).value[7] == LeftToRight
  {
    var t, p := MarkedTypes(), Pair(2, 4);
    MarkedPairs(lookup);
    OneIsSorted(p);
    MarkedDirection(b);
    MarkGoesWith();
    hide Match, Sort, PairDirection, ChangesWith, MarkedTypes, Marked;
    assert [p][..0] == [] && ResolvePairs(t, Marked(), [], b) == t;
    assert ResolvePairs(t, Marked(), [p], b) == ResolvePair(t, Marked(), p, b) == SetPair(t, Marked(), p, Ltr);
  }

  lemma MarkedRules(lookup: Lookup, b: Borders)
    requires HasParentheses(lookup) && b == Borders(RightToLeft, RightToLeft, 1)
    ensures Rules(MarkedTypes(), Marked(), MarkedText(), lookup, b, true)[7] == LeftToRight
  {
    hide Weak, N0, MarkedTypes, Marked, MarkedText, Neutrals, Rules;
    MarkedWeak(b);
    MarkTurns(lookup, b);
    RulesAre(MarkedTypes(), Marked(), MarkedText(), lookup, b, true);
    OthersStay(N0(MarkedTypes(), Marked(), MarkedText(), lookup, b).value, b, 7);
  }

  lemma MarkedPasses(lookup: Lookup)
    requires HasParentheses(lookup) && Resolvable(Marked(), 0) && |XSequences(Marked(), 0)| == 1
    ensures PassReaches(Marked(), 0, MarkedText(), lookup, 0)
  {
    hide Marked, MarkedTypes, MarkedText, Weak, Match, XSequences, XTypes, XLevels, MarkedLevels, Resolvable;
    MarkedSequence();
    MarkedIs();
    XViewInText(Marked(), 0, 0);
    var sq := XSequences(Marked(), 0)[0];
    WholeView(MarkedTypes());
    WholeView(MarkedText());
    MarkedWeak(BordersOf(sq));
    MarkedPairs(lookup);
  }

  lemma MarkedLevel()
    ensures MarkedLevels()[7] == 1
  {
  }

  /**
    * In every resolution of this paragraph from base level 0 the mark ends as L, at level 2, although the override has
    * made it R; by rule N0, only what was still a mark before rule W1 changes with a bracket, and it stays R,
      at level 1.
    */
  lemma {:induction false} MarkIsTurned(lookup: Lookup, types: seq<BidiClass>, levels: seq<Level>)
    requires HasParentheses(lookup) && IsResolution(Marked(), 0, MarkedText(), lookup, types, levels)
    ensures ClassAt(Marked(), 0, 7) == RightToLeft && LevelAt(Marked(), 0, 7) == 1
    ensures |types| == |levels| == 9 && types[7] == LeftToRight && levels[7] == 2
    ensures StrongClass(ClassAt(Marked(), 0, 7)) == RightToLeft != types[7]
  {
    hide Marked, MarkedTypes, MarkedText, MarkedLevels, FinalViews, XTypes, XLevels, XSequences, Rules, Resolvable;
    hide Rewritten, LevelAt, ClassAt, PassReaches;
    MarkedSequence();
    MarkedIs();
    MarkedLevel();
    MarkedPasses(lookup);
    assert Range(0, 9)[7] == 7;
    ShownAt(Marked(), 0, MarkedText(), lookup, types, levels, 0, 7);
    FinalViewIs(Marked(), 0, MarkedText(), lookup, 0);
    WholeView(MarkedTypes());
    WholeView(Marked());
    WholeView(MarkedText());
    MarkedRules(lookup, BordersOf(XSequences(Marked(), 0)[0]));
    assert XTypes(Marked(), 0)[7] == ClassAt(Marked(), 0, 7) && XLevels(Marked(), 0)[7] == LevelAt(Marked(), 0, 7);
  }
}
