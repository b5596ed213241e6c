/** Where the code departs from UAX #9: inputs that show it, and exactly when it happens. */
module Deviations {
  import opened Wrappers
  import opened BidiTypes
  import opened LevelStacks
  import opened ExplicitLevels
  import opened LevelRuns
  import opened ChainRules
  import opened ChainViews
  import opened Brackets
  import opened BracketRules
  import opened Resolution
  import opened RuleMeanings
  import opened StrongTypes
  import LineLevels
  import LineReversal

  // ---- rule L2: digits at level 126 --------------------------------------------------------------

  /** 124 nested embeddings, then two Arabic digits. */
  function DeepDigits(): (r: seq<BidiClass>)
    ensures |r| == 126 && r[124] == r[125] == ArabicNumber
  {
    seq(124, i => if i % 2 == 0 then RightToLeftEmbedding else LeftToRightEmbedding) + [ArabicNumber, ArabicNumber]
  }

  lemma DeepDigitsRun(n: nat)
    requires 124 <= n <= 126
    ensures Run(DeepDigits(), 0, n).Some? && Run(DeepDigits(), 0, n).value == XState(DeepStack(124), 0, 0, 0)
  {
    hide Run, Step, Inv;
    var types := DeepDigits();
    if n == 124 {
      DeepRun(types, 0, 124);
    } else {
      DeepDigitsRun(n - 1);
      RunStep(types, 0, n - 1);
      OthersStep(Run(types, 0, n - 1).value, types[n - 1], FsiIsRtl(types, n - 1));
    }
  }

  lemma DeepDigitsExplicit(i: nat)
    requires 124 <= i < 126
    ensures Resolvable(DeepDigits(), 0)
    ensures LevelAt(DeepDigits(), 0, i) == 124 && ClassAt(DeepDigits(), 0, i) == ArabicNumber
  {
    hide Run, Step;
    DeepDigitsRun(i);
    DeepDigitsRun(i + 1);
    DeepDigitsRun(126);
  }

  lemma DigitStays(
    t: seq<BidiClass>, orig: seq<BidiClass>, chars: seq<char>, lookup: Lookup, b: Borders, brackets: bool, i: nat)
    requires i < |t| == |orig| && t[i].ArabicNumber? && !orig[i].NonspacingMark? && (brackets ==> |t| == |chars|)
    ensures Rules(t, orig, chars, lookup, b, brackets)[i] == ArabicNumber
  {
    hide Rules, Weak;
    WeakLeavesSettled(t, b, i);
    RulesKeepOthers(t, orig, chars, lookup, b, brackets, i);
  }

  /** In every resolution of this paragraph from base level 0 the digits are at level 126. */
  lemma {:induction false} DeepDigitsAreHigh(
    paragraph: seq<char>, lookup: Lookup, types: seq<BidiClass>, levels: seq<Level>, i: nat)
    requires 124 <= i < 126 && (paragraph != [] ==> |paragraph| == 126)
    requires IsResolution(DeepDigits(), 0, paragraph, lookup, types, levels)
    ensures |levels| == 126 && levels[i] == 126
  {
    var orig := DeepDigits();
    hide DeepDigits, IsResolution, Resolvable, LevelAt, ClassAt, XTypes, Rules;
    DeepDigitsExplicit(i);
    var sq, a, brackets := ResolvedAt(orig, 0, paragraph, lookup, types, levels, i);
    DigitStays(
      View(XTypes(orig, 0), sq.indices), View(orig, sq.indices), if brackets then View(paragraph, sq.indices) else [],
      lookup, BordersOf(sq), brackets, a);
  }

  lemma DigitsLine(levels: seq<Level>, line: seq<Level>)
    requires |levels| == 126 && levels[124] == levels[125] == 126
    requires LineLevels.IsL1(DeepDigits(), levels, 0, 124, 126, line)
    ensures line == [126, 126]
  {
    var types := DeepDigits();
    hide DeepDigits;
    assert line[0] == levels[124 + 0] && line[1] == levels[124 + 1];
  }

  lemma TwoKept(line: seq<Level>, visual: seq<int>)
    requires line == [126, 126] && LineReversal.KeptOnce(line, 124, visual)
    ensures visual == [124, 125] || visual == [125, 124]
  {
    assert LineReversal.Kept(line, 124 - 124) && LineReversal.Kept(line, 125 - 124);
    assert forall x :: x in visual <==> x == 124 || x == 125;
    assert 124 in visual && 125 in visual;
    var a :| 0 <= a < |visual| && visual[a] == 124;
    var b :| 0 <= b < |visual| && visual[b] == 125;
    assert a != b && visual[0] in visual && visual[1] in visual && visual[|visual| - 1] in visual;
  }

  /** A line that holds just the digits is displayed with the two exchanged, against rule L2. */
  lemma {:induction false} DeepDigitsAreSwapped(
    paragraph: seq<char>, lookup: Lookup, types: seq<BidiClass>, levels: seq<Level>, line: seq<Level>, visual: seq<int>)
    requires paragraph != [] ==> |paragraph| == 126
    requires IsResolution(DeepDigits(), 0, paragraph, lookup, types, levels) && |levels| == 126
    requires LineLevels.IsL1(DeepDigits(), levels, 0, 124, 126, line)
    requires LineReversal.KeptOnce(line, 124, visual)
    requires LineReversal.IsL2Order(line, 124, visual) <==>
      LineReversal.HasOddLevel(line) || !LineReversal.HasHighPair(line)
    ensures line == [126, 126] && visual == [125, 124] && LineReversal.IsL2Order(line, 124, [124, 125])
  {
    hide *;
    DeepDigitsAreHigh(paragraph, lookup, types, levels, 124);
    DeepDigitsAreHigh(paragraph, lookup, types, levels, 125);
    DigitsLine(levels, line);
    LineReversal.HighDigitsAreSwapped(124);
    TwoKept(line, visual);
  }

  // ---- rule N0: an overflow ends the pass --------------------------------------------------------

  /** 64 brackets, then `a(b)` in an isolate. */
  function Crowded(): (r: seq<BidiClass>)
    ensures |r| == 70 && forall i :: 0 <= i < 64 ==> r[i] == OtherNeutral
    ensures r[64..] == [RightToLeftIsolate, LeftToRight, OtherNeutral, LeftToRight, OtherNeutral, PopDirectionalIsolate]
  {
    seq(64, _ => OtherNeutral)
      + [RightToLeftIsolate, LeftToRight, OtherNeutral, LeftToRight, OtherNeutral, PopDirectionalIsolate]
  }

  function CrowdedText(): (r: seq<char>)
    ensures |r| == 70 && forall i :: 0 <= i < 64 ==> r[i] == '('
    ensures r[64..] == ['[', 'a', '(', 'b', ')', ']']
  {
    seq(64, _ => '(') + ['[', 'a', '(', 'b', ')', ']']
  }

  lemma CrowdedAt(i: nat)
    requires 64 <= i < 70
    ensures Crowded()[i] == Crowded()[64..][i - 64] && CrowdedText()[i] == CrowdedText()[64..][i - 64]
  {
  }

  function InIsolate(): State {
    XState([Entry(0, Neutral, false), Entry(1, Neutral, true)], 0, 0, 1)
  }

  lemma Enters(fsiRtl: bool)
    ensures Step(Init(0), RightToLeftIsolate, fsiRtl) == Some(InIsolate())
  {
    assert Init(0).stack + [Entry(1, Neutral, true)] == InIsolate().stack;
  }

  lemma Leaves(fsiRtl: bool)
    ensures Step(InIsolate(), PopDirectionalIsolate, fsiRtl) == Some(Init(0))
  {
    var stack := InIsolate().stack;
    assert stack[..1] == Init(0).stack;
    assert PopIsolate(stack) == Some(stack[..1]);
  }

  lemma {:induction false} CrowdedRun(n: nat)
    requires n <= 70
    ensures Run(Crowded(), 0, n) == Some(if 65 <= n < 70 then InIsolate() else Init(0))
  {
    hide Run, Step, Inv, Crowded;
    if n == 0 {
      RunStart(Crowded(), 0);
    } else {
      var c, fsiRtl := Crowded()[n - 1], FsiIsRtl(Crowded(), n - 1);
      CrowdedRun(n - 1);
      RunStep(Crowded(), 0, n - 1);
      if n <= 64 {
        OthersStep(Init(0), c, fsiRtl);
      } else {
        CrowdedAt(n - 1);
        if n == 65 {
          Enters(fsiRtl);
        } else if n < 70 {
          OthersStep(InIsolate(), c, fsiRtl);
        } else {
          Leaves(fsiRtl);
        }
      }
    }
  }

  function CrowdedLevels(): (r: seq<Level>)
    ensures |r| == 70 && (forall i :: 0 <= i < 65 ==> r[i] == 0) && (forall i :: 65 <= i < 69 ==> r[i] == 1)
    ensures r[69] == 0
  {
    seq(65, _ => 0) + [1, 1, 1, 1, 0]
  }

  lemma CrowdedExplicit(i: nat)
    requires i < 70
    ensures Resolvable(Crowded(), 0)
    ensures ClassAt(Crowded(), 0, i) == Crowded()[i] && LevelAt(Crowded(), 0, i) == CrowdedLevels()[i]
  {
    hide Run, Step, Inv, Crowded, CrowdedLevels;
    CrowdedRun(i);
    CrowdedRun(i + 1);
    CrowdedRun(70);
    if i >= 64 {
      CrowdedAt(i);
    }
  }

  lemma CrowdedXAt(i: nat)
    requires i < 70
    ensures Resolvable(Crowded(), 0)
    ensures XTypes(Crowded(), 0)[i] == Crowded()[i] && XLevels(Crowded(), 0)[i] == CrowdedLevels()[i]
  {
    hide Resolvable, ClassAt, LevelAt, Crowded, CrowdedLevels, XTypes, XLevels;
    CrowdedExplicit(i);
    assert XTypes(Crowded(), 0)[i] == ClassAt(Crowded(), 0, i);
    assert XLevels(Crowded(), 0)[i] == LevelAt(Crowded(), 0, i);
  }

  lemma CrowdedIs()
    ensures Resolvable(Crowded(), 0) && XTypes(Crowded(), 0) == Crowded() && XLevels(Crowded(), 0) == CrowdedLevels()
  {
    hide *;
    CrowdedXAt(0);
    forall i | 0 <= i < 70
      ensures XTypes(Crowded(), 0)[i] == Crowded()[i] && XLevels(Crowded(), 0)[i] == CrowdedLevels()[i]
    {
      CrowdedXAt(i);
    }
  }

  lemma {:induction false} OutsideSpan(i: nat)
    requires 1 <= i <= 64
    ensures SpanEnd(Crowded(), CrowdedLevels(), 0, i) == 65
    decreases 64 - i
  {
    hide Crowded, CrowdedLevels;
    CrowdedAt(64);
    if i < 64 {
      OutsideSpan(i + 1);
    }
  }

  lemma InsideSpan(i: nat)
    requires 66 <= i <= 69
    ensures SpanEnd(Crowded(), CrowdedLevels(), 1, i) == 69
    decreases 69 - i
  {
    hide Crowded, CrowdedLevels;
    if i < 69 {
      CrowdedAt(i);
      InsideSpan(i + 1);
    }
  }

  lemma CrowdedSpans()
    ensures SpanEnd(Crowded(), CrowdedLevels(), NO_LEVEL, 0) == 65
    ensures SpanEnd(Crowded(), CrowdedLevels(), NO_LEVEL, 65) == 69
    ensures SpanEnd(Crowded(), CrowdedLevels(), NO_LEVEL, 69) == 70
  {
    hide Crowded, CrowdedLevels;
    CrowdedAt(65);
    CrowdedAt(69);
    OutsideSpan(1);
    InsideSpan(66);
  }

  function CrowdedRuns(): seq<LevelRun> {
    [LevelRun(0, 65, 65, 0, 0, OtherNeutral, OtherNeutral), LevelRun(65, 69, 4, 0, 1, OtherNeutral, OtherNeutral),
     LevelRun(69, 70, 1, 0, 0, OtherNeutral, OtherNeutral)]
  }

  lemma CrowdedRunsAre()
    ensures RunsFrom(Crowded(), CrowdedLevels(), 0) == CrowdedRuns()
  {
    hide Crowded, CrowdedLevels, SpanEnd;
    CrowdedSpans();
    assert RunsFrom(Crowded(), CrowdedLevels(), 70) == [];
    assert RunsFrom(Crowded(), CrowdedLevels(), 69) == CrowdedRuns()[2..];
    assert RunsFrom(Crowded(), CrowdedLevels(), 65) == CrowdedRuns()[1..];
  }

  /** The text in the isolate makes the second sequence; the rest makes the first. */
  lemma CrowdedLists(ends: seq<Ends>)
    requires |ends| == 3 && ends[0].level == ends[2].level == 0 && ends[1].level == 1
    requires ends[0].endsWithInit && ends[2].startsWithPdi && !ends[1].endsWithInit && !ends[2].endsWithInit
    ensures SequencesFrom(ends, {}, 0) == [[0, 2], [1]]
  {
    assert NextJoin(ends, {}, 0, 1) == 2;
    assert Continuation(ends, {}, 0) == [2];
    var taken := SetOf([0] + [2]);
    assert taken == {0, 2};
    assert Continuation(ends, taken, 1) == [] && [1] + [] == [1];
    assert SequencesFrom(ends, taken + SetOf([1]), 3) == [];
    assert SequencesFrom(ends, taken + SetOf([1]), 2) == [];
    assert SequencesFrom(ends, taken, 1) == [[1]];
    assert {} + taken == taken && [0] + [2] == [0, 2];
  }

  lemma CrowdedEnds(runs: seq<LevelRun>)
    requires runs == LevelRunsOf(Crowded(), CrowdedLevels(), 0)
    ensures |runs| == 3 && runs[0].start == 0 && runs[0].end == 65 && runs[2].start == 69 && runs[2].end == 70
    ensures runs[1] == LevelRun(65, 69, 4, 0, 1, RightToLeft, RightToLeft)
    ensures SequencesFrom(AllEnds(Crowded(), CrowdedLevels(), runs), {}, 0) == [[0, 2], [1]]
  {
    hide Crowded, CrowdedLevels, SpanEnd, RunsFrom, SequencesFrom;
    CrowdedRunsAre();
    CrowdedAt(64);
    CrowdedAt(68);
    CrowdedAt(69);
    assert runs == WithBorders(0, CrowdedRuns());
    var ends := AllEnds(Crowded(), CrowdedLevels(), runs);
    assert ends[0] == EndsOf(Crowded(), CrowdedLevels(), runs[0]);
    assert ends[1] == EndsOf(Crowded(), CrowdedLevels(), runs[1]);
    assert ends[2] == EndsOf(Crowded(), CrowdedLevels(), runs[2]);
    CrowdedLists(ends);
  }

  lemma ChainOne(runs: seq<LevelRun>, k: nat)
    requires k < |runs| && runs[k].start <= runs[k].end
    ensures Chain(runs, [k]) == Range(runs[k].start, runs[k].end)
  {
    assert [k][..0] == [] && Chain(runs, []) == [];
    assert [] + Range(runs[k].start, runs[k].end) == Range(runs[k].start, runs[k].end);
  }

  lemma ChainTwo(runs: seq<LevelRun>, k: nat, l: nat)
    requires k < |runs| && l < |runs| && runs[k].start <= runs[k].end && runs[l].start <= runs[l].end
    ensures Chain(runs, [k, l]) == Range(runs[k].start, runs[k].end) + Range(runs[l].start, runs[l].end)
  {
    ChainOne(runs, k);
    hide Range;
    assert [k, l][..1] == [k];
  }

  lemma CrowdedSequences()
    ensures Resolvable(Crowded(), 0)
    ensures var seqs := XSequences(Crowded(), 0);
      && |seqs| == 2
      && seqs[0].indices == Range(0, 65) + Range(69, 70)
      && seqs[1].indices == Range(65, 69)
      && BordersOf(seqs[1]) == Borders(RightToLeft, RightToLeft, 1)
  {
    hide Crowded, CrowdedLevels, LevelRunsOf, Resolvable, SequencesFrom, Chain, Range, AllEnds, XTypes, XLevels;
    hide TotalLen;
    CrowdedIs();
    CrowdedAt(68);
    var runs := LevelRunsOf(Crowded(), CrowdedLevels(), 0);
    CrowdedEnds(runs);
    ChainTwo(runs, 0, 2);
    ChainOne(runs, 1);
  }

  /** The bracket table knows the two parentheses. */
  predicate HasParentheses(lookup: Lookup) {
    lookup('(') == Some((')', Open)) && lookup(')') == Some(('(', Close))
  }

  lemma {:induction false} OpenersPile(t: seq<BidiClass>, chars: seq<char>, lookup: Lookup, n: nat)
    requires HasParentheses(lookup) && n <= 64 <= |t| == |chars|
    requires forall k :: 0 <= k < 64 ==> t[k] == OtherNeutral && chars[k] == '('
    ensures var m := Match(t, chars, lookup, n); if n == 64 then m.None? else m.Some? && |m.value.open| == n
  {
    if n > 0 {
      OpenersPile(t, chars, lookup, n - 1);
    }
  }

  /** The first sequence shows the 64 brackets. */
  lemma FirstOverflows(lookup: Lookup, sq: IsolatingRunSequence, weak: seq<BidiClass>)
    requires HasParentheses(lookup) && sq.indices == Range(0, 65) + Range(69, 70)
    requires InText(70, sq.indices) && weak == Weak(View(Crowded(), sq.indices), BordersOf(sq))
    ensures Match(weak, View(CrowdedText(), sq.indices), lookup, |weak|).None?
  {
    var t, chars := View(Crowded(), sq.indices), View(CrowdedText(), sq.indices);
    hide Crowded, CrowdedText, Weak, Match;
    forall k | 0 <= k < 64
      ensures weak[k] == OtherNeutral && chars[k] == '('
    {
      assert sq.indices[k] == k && t[k] == OtherNeutral;
      WeakLeavesSettled(t, BordersOf(sq), k);
    }
    OpenersPile(weak, chars, lookup, 64);
    StaysNone(weak, chars, lookup, 64, |weak|);
  }

  /** What the second sequence shows before rule N0. */
  function Bracketed(): (r: seq<BidiClass>)
    ensures |r| == 4
  {
    [LeftToRight, OtherNeutral, LeftToRight, OtherNeutral]
  }

  lemma SecondShows(sq: IsolatingRunSequence)
    requires sq.indices == Range(65, 69) && InText(70, sq.indices)
    ensures View(Crowded(), sq.indices) == Bracketed() && View(CrowdedText(), sq.indices) == ['a', '(', 'b', ')']
    ensures Weak(View(Crowded(), sq.indices), BordersOf(sq)) == Bracketed()
  {
    var t := View(Crowded(), sq.indices);
    hide Crowded, CrowdedText, Weak;
    CrowdedAt(65);
    CrowdedAt(66);
    CrowdedAt(67);
    CrowdedAt(68);
    forall k | 0 <= k < |t|
      ensures Weak(t, BordersOf(sq))[k] == t[k]
    {
      WeakLeavesSettled(t, BordersOf(sq), k);
    }
  }

  lemma NeutralsOfBracketed(b: Borders)
    requires b == Borders(RightToLeft, RightToLeft, 1)
    ensures Neutrals(Bracketed(), b)[3] == RightToLeft
  {
    var t := Bracketed();
    assert Back(t, 3, NeutralOrRemoved) == Some(LeftToRight) && Ahead(t, 4, NeutralOrRemoved) == None;
    assert Apply(N1, t, b)[3] == OtherNeutral;
  }

  lemma OnePair(lookup: Lookup)
    requires HasParentheses(lookup)
    ensures Match(Bracketed(), ['a', '(', 'b', ')'], lookup, 4) == Some(Matching([], [Pair(1, 3)]))
  {
    var t, chars := Bracketed(), ['a', '(', 'b', ')'];
    MatchStep(t, chars, lookup, 0);
    MatchStep(t, chars, lookup, 1);
    MatchStep(t, chars, lookup, 2);
    MatchStep(t, chars, lookup, 3);
    var open := [Opener(')', 1)];
    assert Match(t, chars, lookup, 2) == Some(Matching(open, []));
    assert Match(t, chars, lookup, 3) == Some(Matching(open, []));
    assert FindOpener(open, ')') == Some(0) && open[..0] == [];
    assert Closed(Matching(open, []), ')', 3) == Matching([], [Pair(1, 3)]);
  }

  lemma PairIsResolved(orig: seq<BidiClass>, b: Borders)
    requires b == Borders(RightToLeft, RightToLeft, 1) && |orig| == 4
    ensures AreIn([Pair(1, 3)], 4) && ResolvePairs(Bracketed(), orig, [Pair(1, 3)], b)[3] == LeftToRight
  {
    var t, p := Bracketed(), Pair(1, 3);
    assert PairDirection(t, p, b) == Some(Ltr) by {
      assert Side(t[2]) == Some(Ltr);
      assert Back(t, 1, NeutralOrRemoved) == Some(LeftToRight);
    }
    hide PairDirection, Trails;
    assert [p][..0] == [] && ResolvePairs(t, orig, [], b) == t;
    assert ResolvePairs(t, orig, [p], b) == ResolvePair(t, orig, p, b);
    assert ResolvePair(t, orig, p, b) == SetPair(t, orig, p, Ltr);
  }

  lemma OneIsSorted(p: Pair)
    ensures Sort([p]) == [p]
  {
    assert [p][..0] == [] && Sort([]) == [] && Insert(p, []) == [p];
  }

  /** With rule N0 both brackets are L, after the L before them; without it the second is R, like the embedding. */
  lemma BracketsMatter(orig: seq<BidiClass>, lookup: Lookup, b: Borders)
    requires HasParentheses(lookup) && b == Borders(RightToLeft, RightToLeft, 1) && |orig| == 4
    ensures Neutrals(Bracketed(), b)[3] == RightToLeft
    ensures N0(Bracketed(), orig, ['a', '(', 'b', ')'], lookup, b).Some?
    ensures N0(Bracketed(), orig, ['a', '(', 'b', ')'], lookup, b).value[3] == LeftToRight
  {
    hide Match, Neutrals, ResolvePairs, Sort, Bracketed;
    NeutralsOfBracketed(b);
    OnePair(lookup);
    OneIsSorted(Pair(1, 3));
    PairIsResolved(orig, b);
  }

  lemma CrowdedOverflows(lookup: Lookup)
    requires HasParentheses(lookup) && Resolvable(Crowded(), 0) && |XSequences(Crowded(), 0)| == 2
    ensures OverflowsAt(Crowded(), 0, CrowdedText(), lookup, 0)
  {
    CrowdedSequences();
    CrowdedIs();
    XViewInText(Crowded(), 0, 0);
    hide *;
    var sq := XSequences(Crowded(), 0)[0];
    FirstOverflows(lookup, sq, Weak(View(Crowded(), sq.indices), BordersOf(sq)));
  }

  /** Rules W1 to N2 on the second sequence. */
  lemma RulesOnSecond(lookup: Lookup, sq: IsolatingRunSequence, brackets: bool)
    requires HasParentheses(lookup) && sq.indices == Range(65, 69) && InText(70, sq.indices)
    requires BordersOf(sq) == Borders(RightToLeft, RightToLeft, 1)
    ensures var t, chars := View(Crowded(), sq.indices), View(CrowdedText(), sq.indices);
      Rules(t, t, if brackets then chars else [], lookup, BordersOf(sq), brackets)[3] ==
        if brackets then LeftToRight else RightToLeft
  {
    hide Crowded, CrowdedText, Weak, N0, Range, Bracketed, Neutrals;
    SecondShows(sq);
    BracketsMatter(View(Crowded(), sq.indices), lookup, BordersOf(sq));
    var paired := N0(Bracketed(), Bracketed(), ['a', '(', 'b', ')'], lookup, BordersOf(sq)).value;
    OthersStay(paired, BordersOf(sq), 3);
  }

  /** The pass for rule N0 has ended before the second sequence. */
  lemma SecondEnds(lookup: Lookup)
    requires HasParentheses(lookup) && Resolvable(Crowded(), 0) && |XSequences(Crowded(), 0)| == 2
    ensures |FinalViews(Crowded(), 0, CrowdedText(), lookup)| == 2
    ensures |FinalViews(Crowded(), 0, CrowdedText(), lookup)[1]| == 4
    ensures FinalViews(Crowded(), 0, CrowdedText(), lookup)[1][3] == RightToLeft
  {
    hide Crowded, CrowdedText, XTypes, XSequences, Resolvable, OverflowsAt, Rules, FinalViews;
    CrowdedSequences();
    CrowdedIs();
    CrowdedOverflows(lookup);
    XViewInText(Crowded(), 0, 1);
    FinalViewIs(Crowded(), 0, CrowdedText(), lookup, 1);
    RulesOnSecond(lookup, XSequences(Crowded(), 0)[1], false);
  }

  /**
    * In every resolution of this paragraph the closing parenthesis in the isolate is R, at level 1, although the rules
    * with N0 make it L in its sequence, which would put it at level 2.
    */
  lemma {:induction false} SecondIsLeftAlone(lookup: Lookup, types: seq<BidiClass>, levels: seq<Level>)
    returns (sq: IsolatingRunSequence)
    requires HasParentheses(lookup) && IsResolution(Crowded(), 0, CrowdedText(), lookup, types, levels)
    ensures |types| == |levels| == 70 && types[68] == RightToLeft && levels[68] == 1
    ensures sq in XSequences(Crowded(), 0) && sq.indices == Range(65, 69) && InText(70, sq.indices)
    ensures var t, chars := View(Crowded(), sq.indices), View(CrowdedText(), sq.indices);
      Rules(t, t, chars, lookup, BordersOf(sq), true)[3] == LeftToRight
  {
    hide Crowded, CrowdedText, FinalViews, XTypes, XLevels, XSequences, Rules, Resolvable, Rewritten, CrowdedLevels;
    hide LevelAt;
    CrowdedSequences();
    CrowdedIs();
    sq := XSequences(Crowded(), 0)[1];
    assert sq.indices[3] == 68;
    SecondEnds(lookup);
    ShownAt(Crowded(), 0, CrowdedText(), lookup, types, levels, 1, 3);
    RulesOnSecond(lookup, sq, true);
    assert XLevels(Crowded(), 0)[68] == CrowdedLevels()[68] == 1;
  }
}
