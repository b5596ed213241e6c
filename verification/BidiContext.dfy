/** The context object: the passes run over all sequences, `resolve`, and the display of a line. */
module BidiContexts {
  import opened Wrappers
  import opened BidiTypes
  import opened ParagraphLevels
  import opened ExplicitLevels
  import opened ExplicitPass
  import opened LevelRuns
  import opened RunsPass
  import opened ChainRules
  import opened ChainViews
  import opened ChainPasses
  import opened Brackets
  import opened BracketRules
  import opened BracketPass
  import opened Resolution
  import LineLevels
  import LineReversal

  // ---- one rule over all sequences ---------------------------------------------------------------

  lemma PassableChain(
    before: seq<BidiClass>, mid: seq<BidiClass>, levels: seq<Level>, seqs: seq<IsolatingRunSequence>,
    results: seq<seq<BidiClass>>, n: nat, s: nat)
    requires Ready(before, levels, seqs) && Rewritten(before, mid, seqs, results, n) && n <= s < |seqs|
    ensures View(mid, seqs[s].indices) == View(before, seqs[s].indices)
    ensures IsPassable(mid, levels, seqs[s])
  {
    Untouched(before, mid, levels, seqs, results, n, s);
    ReadyChain(before, levels, seqs, s);
    forall a | 0 <= a < |seqs[s].indices|
      ensures mid[seqs[s].indices[a]] == before[seqs[s].indices[a]]
    {
      assert View(mid, seqs[s].indices)[a] == View(before, seqs[s].indices)[a];
    }
  }

  method ApplyToChain(
    rule: Rule, types: seq<BidiClass>, levels: seq<Level>, sq: IsolatingRunSequence)
    returns (r: seq<BidiClass>)
    requires IsPassable(types, levels, sq)
    ensures Progress(rule, types, r, sq, 0, |sq.indices|)
  {
    match rule
    case W1 => r := ResolveCombiningMarks(types, levels, sq);
    case W2 => r := ResolveEuropeanNumbers(types, levels, sq);
    case W3 => r := ResolveArabicLetters(types, levels, sq);
    case W4 => r := ResolveSeparators(types, levels, sq);
    case W5 => r := ResolveTerminators(types, levels, sq);
    case W6 => r := ResolveEsCsEt(types, levels, sq);
    case W7 => r := ResolveEn(types, levels, sq);
    case N1 => r := ResolveNeutralsByContext(types, levels, sq);
    case N2 => r := ResolveNeutralsByLevel(types, levels, sq);
  }

  /** One pass of the source: a loop over the sequences. */
  method ApplyToAll(
    rule: Rule, types: seq<BidiClass>, levels: seq<Level>, isoRuns: seq<IsolatingRunSequence>)
    returns (r: seq<BidiClass>)
    requires Ready(types, levels, isoRuns)
    ensures Obeys(rule, types, r, isoRuns) && Ready(r, levels, isoRuns)
  {
    ghost var results := Results(rule, types, isoRuns);
    r := types;
    for s := 0 to |isoRuns|
      invariant Rewritten(types, r, isoRuns, results, s)
    {
      ghost var mid := r;
      PassableChain(types, mid, levels, isoRuns, results, s, s);
      r := ApplyToChain(rule, r, levels, isoRuns[s]);
      hide Progress, IsPassable, Apply, Ready;
      RewriteStep(types, mid, r, levels, isoRuns, results, s);
    }
    ObeysKeepsReady(rule, types, r, levels, isoRuns);
  }

  // ---- rule N0 over all sequences ----------------------------------------------------------------

  method PairBrackets(
    types: seq<BidiClass>, orig: seq<BidiClass>, paragraph: seq<char>, lookup: Lookup, levels: seq<Level>,
    sq: IsolatingRunSequence,
    stack: BracketStack)
    returns (ok: bool, r: seq<BidiClass>)
    requires IsPassable(types, levels, sq) && |paragraph| == |types| == |orig| && stack.Valid()
    requires SameRemoved(View(types, sq.indices), View(orig, sq.indices))
    modifies stack, stack.closingBracket, stack.position
    ensures stack.Valid()
    ensures
      var p := N0(View(types, sq.indices), View(orig, sq.indices), View(paragraph, sq.indices), lookup, BordersOf(sq));
      && (ok <==> p.Some?)
      && (ok ==> SameOutside(types, r, sq.indices) && View(r, sq.indices) == p.value)
      && (!ok ==> r == types)
  {
    r := types;
    ghost var t, chars := View(types, sq.indices), View(paragraph, sq.indices);
    var pairs := FindPairs(types, sq, paragraph, lookup, stack);
    hide Match;
    ok := pairs.Some?;
    if ok {
      PairsNest(t, chars, lookup, |t|);
      hide Nested;
      SortKeeps(t, pairs.value);
      r := ResolveSequence(types, orig, levels, sq, pairs.value);
    }
  }

  lemma RewriteBrackets(
    types: seq<BidiClass>, mid: seq<BidiClass>, r: seq<BidiClass>, orig: seq<BidiClass>, paragraph: seq<char>,
    lookup: Lookup,
    levels: seq<Level>, seqs: seq<IsolatingRunSequence>, s: nat)
    requires AreChains(levels, seqs) && s < |seqs| && |paragraph| == |orig| == |types|
    requires forall k :: 0 <= k < |seqs| ==> InText(|orig|, seqs[k].indices)
    requires Rewritten(types, mid, seqs, BracketsAll(Views(types, seqs), orig, paragraph, lookup, seqs), s)
    requires SameOutside(mid, r, seqs[s].indices)
    requires s + 1 <= BracketStop(Views(types, seqs), orig, paragraph, lookup, seqs, 0)
    requires var idx := seqs[s].indices;
      var p := N0(View(types, idx), View(orig, idx), View(paragraph, idx), lookup, BordersOf(seqs[s]));
      p.Some? && View(r, seqs[s].indices) == p.value
    ensures Rewritten(types, r, seqs, BracketsAll(Views(types, seqs), orig, paragraph, lookup, seqs), s + 1)
  {
    hide BracketStop, N0, AreChains;
    var results := BracketsAll(Views(types, seqs), orig, paragraph, lookup, seqs);
    assert View(r, seqs[s].indices) == results[s];
    RewriteStep(types, mid, r, levels, seqs, results, s);
  }

  /** Rule N0; an overflow ends it for this sequence and all later ones. */
  method ResolvePairedBrackets(
    types: seq<BidiClass>, orig: seq<BidiClass>, paragraph: seq<char>, lookup: Lookup, levels: seq<Level>,
    isoRuns: seq<IsolatingRunSequence>)
    returns (r: seq<BidiClass>)
    requires Ready(types, levels, isoRuns) && SameRemoved(types, orig) && |paragraph| == |types|
    requires forall s :: 0 <= s < |isoRuns| ==> InText(|orig|, isoRuns[s].indices)
    ensures Rewritten(
      types, r, isoRuns, BracketsAll(Views(types, isoRuns), orig, paragraph, lookup, isoRuns),
      BracketStop(Views(types, isoRuns), orig, paragraph, lookup, isoRuns, 0))
  {
    ghost var views := Views(types, isoRuns);
    ghost var results := BracketsAll(views, orig, paragraph, lookup, isoRuns);
    var stack := new BracketStack();
    r := types;
    for s := 0 to |isoRuns|
      invariant stack.Valid() && fresh(stack) && fresh(stack.closingBracket) && fresh(stack.position)
      invariant Rewritten(types, r, isoRuns, results, s)
      invariant BracketStop(views, orig, paragraph, lookup, isoRuns, 0) ==
        BracketStop(views, orig, paragraph, lookup, isoRuns, s)
    {
      ghost var mid := r;
      PassableChain(types, mid, levels, isoRuns, results, s, s);
      hide BracketStop, N0, Ready, IsPassable;
      var ok;
      ok, r := PairBrackets(r, orig, paragraph, lookup, levels, isoRuns[s], stack);
      if !ok {
        return;
      }
      RewriteBrackets(types, mid, r, orig, paragraph, lookup, levels, isoRuns, s);
    }
  }

  // ---- composing the passes ----------------------------------------------------------------------

  /** A pass after earlier ones: the sequences show the rule applied to what they showed. */
  lemma ObeysAdvances(
    rule: Rule, a: seq<BidiClass>, b: seq<BidiClass>, c: seq<BidiClass>, seqs: seq<IsolatingRunSequence>,
    views: seq<seq<BidiClass>>)
    requires |views| == |seqs| && Rewritten(a, b, seqs, views, |seqs|) && Obeys(rule, b, c, seqs)
    ensures Rewritten(a, c, seqs, ApplyAll(rule, views, seqs), |seqs|)
  {
    hide InText, Apply;
    assert Results(rule, b, seqs) == ApplyAll(rule, views, seqs);
  }

  /** Sequences after the overflow show what they showed. */
  lemma StoppedIsAll(
    a: seq<BidiClass>, b: seq<BidiClass>, levels: seq<Level>, seqs: seq<IsolatingRunSequence>,
    results: seq<seq<BidiClass>>, stop: nat)
    requires AreChains(levels, seqs) && Rewritten(a, b, seqs, results, stop) && |results| == |seqs|
    requires forall s :: stop <= s < |seqs| ==> results[s] == View(a, seqs[s].indices)
    ensures Rewritten(a, b, seqs, results, |seqs|)
  {
    forall s | 0 <= s < |seqs|
      ensures View(b, seqs[s].indices) == results[s]
    {
      if s >= stop {
        Untouched(a, b, levels, seqs, results, stop, s);
      }
    }
  }

  /** Rule N0 keeps the paragraph ready for the rules after it. */
  lemma BracketsKeepReady(
    a: seq<BidiClass>, b: seq<BidiClass>, orig: seq<BidiClass>, paragraph: seq<char>, lookup: Lookup,
    levels: seq<Level>, seqs: seq<IsolatingRunSequence>)
    requires Ready(a, levels, seqs) && SameRemoved(a, orig) && |paragraph| == |a|
    requires forall s :: 0 <= s < |seqs| ==> InText(|orig|, seqs[s].indices)
    requires Rewritten(a, b, seqs, BracketsAll(Views(a, seqs), orig, paragraph, lookup, seqs), |seqs|)
    ensures Ready(b, levels, seqs)
  {
    var results := BracketsAll(Views(a, seqs), orig, paragraph, lookup, seqs);
    forall s | 0 <= s < |seqs|
      ensures SameRemoved(View(a, seqs[s].indices), results[s])
    {
      var t, o, chars := View(a, seqs[s].indices), View(orig, seqs[s].indices), View(paragraph, seqs[s].indices);
      hide N0, BracketStop;
      if N0(t, o, chars, lookup, BordersOf(seqs[s])).Some? {
        N0KeepsRemoved(t, o, chars, lookup, BordersOf(seqs[s]));
      }
    }
  }

  /** Rules W1 to W7. */
  method ResolveWeak(
    types: seq<BidiClass>, levels: seq<Level>, isoRuns: seq<IsolatingRunSequence>, ghost views: seq<seq<BidiClass>>)
    returns (r: seq<BidiClass>)
    requires Ready(types, levels, isoRuns) && |views| == |isoRuns|
    requires Rewritten(types, types, isoRuns, views, |isoRuns|)
    ensures Ready(r, levels, isoRuns) && Rewritten(types, r, isoRuns, WeakAll(views, isoRuns), |isoRuns|)
  {
    hide Ready, Obeys, Rewritten;
    var r1 := ApplyToAll(W1, types, levels, isoRuns);
    ObeysAdvances(W1, types, types, r1, isoRuns, views);
    var r2 := ApplyToAll(W2, r1, levels, isoRuns);
    ghost var v1 := ApplyAll(W1, views, isoRuns);
    ObeysAdvances(W2, types, r1, r2, isoRuns, v1);
    var r3 := ApplyToAll(W3, r2, levels, isoRuns);
    ghost var v2 := ApplyAll(W2, v1, isoRuns);
    ObeysAdvances(W3, types, r2, r3, isoRuns, v2);
    var r4 := ApplyToAll(W4, r3, levels, isoRuns);
    ghost var v3 := ApplyAll(W3, v2, isoRuns);
    ObeysAdvances(W4, types, r3, r4, isoRuns, v3);
    var r5 := ApplyToAll(W5, r4, levels, isoRuns);
    ghost var v4 := ApplyAll(W4, v3, isoRuns);
    ObeysAdvances(W5, types, r4, r5, isoRuns, v4);
    var r6 := ApplyToAll(W6, r5, levels, isoRuns);
    ghost var v5 := ApplyAll(W5, v4, isoRuns);
    ObeysAdvances(W6, types, r5, r6, isoRuns, v5);
    r := ApplyToAll(W7, r6, levels, isoRuns);
    ObeysAdvances(W7, types, r6, r, isoRuns, ApplyAll(W6, v5, isoRuns));
    hide ApplyAll;
  }

  /** Rules N1 and N2. */
  method ResolveNeutrals(
    ghost start: seq<BidiClass>, types: seq<BidiClass>, levels: seq<Level>, isoRuns: seq<IsolatingRunSequence>,
    ghost views: seq<seq<BidiClass>>)
    returns (r: seq<BidiClass>)
    requires Ready(types, levels, isoRuns) && |views| == |isoRuns|
    requires Rewritten(start, types, isoRuns, views, |isoRuns|)
    ensures Rewritten(start, r, isoRuns, ApplyAll(N2, ApplyAll(N1, views, isoRuns), isoRuns), |isoRuns|)
  {
    hide Ready, Obeys, Rewritten;
    var r1 := ApplyToAll(N1, types, levels, isoRuns);
    ObeysAdvances(N1, start, types, r1, isoRuns, views);
    r := ApplyToAll(N2, r1, levels, isoRuns);
    ObeysAdvances(N2, start, r1, r, isoRuns, ApplyAll(N1, views, isoRuns));
  }

  lemma ViewsAre(
    start: seq<BidiClass>, types: seq<BidiClass>, seqs: seq<IsolatingRunSequence>, views: seq<seq<BidiClass>>)
    requires |views| == |seqs| && Rewritten(start, types, seqs, views, |seqs|)
    ensures Views(types, seqs) == views
  {
  }

  method BracketPhase(
    ghost start: seq<BidiClass>, types: seq<BidiClass>, orig: seq<BidiClass>, paragraph: seq<char>, lookup: Lookup,
    levels: seq<Level>, isoRuns: seq<IsolatingRunSequence>, ghost weak: seq<seq<BidiClass>>)
    returns (r: seq<BidiClass>, ghost shown: seq<seq<BidiClass>>)
    requires Ready(start, levels, isoRuns) && Ready(types, levels, isoRuns) && SameRemoved(start, orig)
    requires |paragraph| == |orig|
    requires |weak| == |isoRuns| && Rewritten(start, types, isoRuns, weak, |isoRuns|)
    ensures Ready(r, levels, isoRuns)
    ensures AreViews(|orig|, isoRuns, weak) && shown == BracketsAll(weak, orig, paragraph, lookup, isoRuns)
    ensures Rewritten(start, r, isoRuns, shown, |isoRuns|)
  {
    ViewsAre(start, types, isoRuns, weak);
    ghost var stop := BracketStop(Views(types, isoRuns), orig, paragraph, lookup, isoRuns, 0);
    r := ResolvePairedBrackets(types, orig, paragraph, lookup, levels, isoRuns);
    shown := BracketsAll(Views(types, isoRuns), orig, paragraph, lookup, isoRuns);
    hide N0;
    StoppedIsAll(types, r, levels, isoRuns, shown, stop);
    hide BracketsAll, BracketStop;
    BracketsKeepReady(types, r, orig, paragraph, lookup, levels, isoRuns);
  }

  /** Rules W1 to N2. */
  method ResolveTypes(
    orig: seq<BidiClass>, base: Level, types: seq<BidiClass>, levels: seq<Level>, isoRuns: seq<IsolatingRunSequence>,
    paragraph: seq<char>, lookup: Lookup)
    returns (r: seq<BidiClass>)
    requires Resolvable(orig, base) && (paragraph != [] ==> |paragraph| == |orig|)
    requires types == XTypes(orig, base) && levels == XLevels(orig, base) && isoRuns == XSequences(orig, base)
    ensures Rewritten(types, r, isoRuns, FinalViews(orig, base, paragraph, lookup), |isoRuns|)
  {
    XIsReady(orig, base);
    ghost var views := Views(types, isoRuns);
    hide XTypes, XLevels, XSequences, FinalViews, BracketsAll, Rewritten, Ready, Run, AreViews, WeakAll, ApplyAll;
    r := ResolveWeak(types, levels, isoRuns, views);
    ghost var weak := WeakAll(views, isoRuns);
    ghost var shown := weak;
    if paragraph != [] {
      r, shown := BracketPhase(types, r, orig, paragraph, lookup, levels, isoRuns, weak);
    }
    r := ResolveNeutrals(types, r, levels, isoRuns, shown);
  }

  // ---- explicit levels and runs ------------------------------------------------------------------

  /** Rules X1 to X9 on a context whose `levels` were only resized. */
  method ResolveExplicit(orig: seq<BidiClass>, base: Level, stale: seq<Level>)
    returns (ok: bool, types: seq<BidiClass>, levels: seq<Level>)
    requires 0 <= base <= 1 && |stale| == |orig|
    ensures ok <==> Resolvable(orig, base)
    ensures ok ==> types == XTypes(orig, base) && levels == XLevels(orig, base)
  {
    ok, types, levels := ExplicitEmbeddingLevels(orig, base, stale);
    if ok {
      ghost var written := levels;
      levels := DeleteFormatCharacters(types, levels);
      hide Run;
      forall i | 0 <= i < |orig|
        ensures types[i] == XTypes(orig, base)[i] && levels[i] == XLevels(orig, base)[i]
      {
        assert IsWritten(orig, base, types, written, i);
        assert XTypes(orig, base)[i] == ClassAt(orig, base, i) && XLevels(orig, base)[i] == LevelAt(orig, base, i);
      }
    }
  }

  lemma RunsStartUnmarked(types: seq<BidiClass>, levels: seq<Level>, base: Level, i: nat)
    requires i <= |types| == |levels|
    ensures forall k :: 0 <= k < |RunsFrom(types, levels, i)| ==> RunsFrom(types, levels, i)[k].seqId == 0
    decreases |types| - i
  {
    if i < |types| {
      SpanEndIsSpan(types, levels, i, i, NO_LEVEL);
      hide SpanEnd;
      RunsStartUnmarked(types, levels, base, SpanEnd(types, levels, NO_LEVEL, i));
    }
  }

  lemma UnmarkedRuns(types: seq<BidiClass>, levels: seq<Level>, base: Level)
    requires |types| == |levels|
    ensures forall k :: 0 <= k < |LevelRunsOf(types, levels, base)| ==> LevelRunsOf(types, levels, base)[k].seqId == 0
  {
    RunsStartUnmarked(types, levels, base, 0);
    hide RunsFrom;
  }

  method ResolveImplicitLevels(types: seq<BidiClass>, levels: seq<Level>) returns (r: seq<Level>)
    requires |types| == |levels| && forall i :: 0 <= i < |levels| ==> levels[i] <= MAX_DEPTH
    ensures |r| == |levels| && forall i :: 0 <= i < |r| ==> r[i] == ImplicitLevel(levels[i], types[i])
  {
    r := levels;
    for idx := 0 to |levels|
      invariant |r| == |levels|
      invariant forall i :: 0 <= i < |r| ==> r[i] == if i < idx then ImplicitLevel(levels[i], types[i]) else levels[i]
    {
      var level := r[idx];
      if level == NO_LEVEL {
        continue;
      }
      match LevelDirection(level)
      case Ltr =>
        if types[idx].RightToLeft? {
          r := r[idx := level + 1];
        } else if types[idx].ArabicNumber? || types[idx].EuropeanNumber? {
          r := r[idx := level + 2];
        }
      case Rtl =>
        if types[idx].LeftToRight? || types[idx].ArabicNumber? || types[idx].EuropeanNumber? {
          r := r[idx := level + 1];
        }
    }
  }

  lemma XLevelsAreLow(orig: seq<BidiClass>, base: Level)
    requires Resolvable(orig, base)
    ensures forall i :: 0 <= i < |orig| ==> XLevels(orig, base)[i] <= MAX_DEPTH
  {
    hide Run;
    forall i | 0 <= i < |orig|
      ensures XLevels(orig, base)[i] <= MAX_DEPTH
    {
      assert XLevels(orig, base)[i] == LevelAt(orig, base, i);
    }
  }

  /** `Vec::resize`: a longer vector keeps what it held and is filled up with level 0. */
  function Resize(levels: seq<Level>, n: nat): (r: seq<Level>)
    ensures |r| == n && forall i :: 0 <= i < n && i < |levels| ==> r[i] == levels[i]
  {
    if n <= |levels| then levels[..n] else levels + seq(n - |levels|, _ => 0)
  }

  lemma ResolutionFrom(
    orig: seq<BidiClass>, base: Level, paragraph: seq<char>, lookup: Lookup, types: seq<BidiClass>, levels: seq<Level>)
    requires Resolvable(orig, base) && (paragraph != [] ==> |paragraph| == |orig|)
    requires Rewritten(XTypes(orig, base), types, XSequences(orig, base), FinalViews(orig, base, paragraph, lookup),
      |XSequences(orig, base)|)
    requires forall i :: 0 <= i < |orig| ==> XLevels(orig, base)[i] <= MAX_DEPTH
    requires |levels| == |orig| && forall i :: 0 <= i < |levels| ==>
      levels[i] == ImplicitLevel(XLevels(orig, base)[i], types[i])
    ensures IsResolution(orig, base, paragraph, lookup, types, levels)
  {
    hide XTypes, XLevels, XSequences, FinalViews, Rewritten, ImplicitLevel;
  }

  /** The passes of `resolve` after the base level is known. */
  method ResolveFrom(orig: seq<BidiClass>, base: Level, stale: seq<Level>, paragraph: seq<char>, lookup: Lookup)
    returns (ok: bool, types: seq<BidiClass>, levels: seq<Level>, runs: seq<LevelRun>)
    requires 0 <= base <= 1 && |stale| == |orig| && (paragraph != [] ==> |paragraph| == |orig|)
    ensures ok <==> Resolvable(orig, base)
    ensures ok ==> IsResolution(orig, base, paragraph, lookup, types, levels)
  {
    hide *;
    runs := [];
    ok, types, levels := ResolveExplicit(orig, base, stale);
    if !ok {
      return;
    }
    XLengths(orig, base);
    runs := IdentifyRuns(types, levels, base);
    UnmarkedRuns(types, levels, base);
    var isoRuns;
    runs, isoRuns := IdentifyIsolatingRunSequences(types, levels, base, runs);
    types := ResolveTypes(orig, base, types, levels, isoRuns, paragraph, lookup);
    RewrittenLength(XTypes(orig, base), types, isoRuns, FinalViews(orig, base, paragraph, lookup), |isoRuns|);
    XLevelsAreLow(orig, base);
    levels := ResolveImplicitLevels(types, levels);
    ResolutionFrom(orig, base, paragraph, lookup, types, levels);
  }

  // ---- the context -------------------------------------------------------------------------------

  class BidiContext {
    var origCharTypes: seq<BidiClass>
    var charTypes: seq<BidiClass>
    var levels: seq<Level>
    var baseLevel: Level
    var runs: seq<LevelRun>

    /** The generated class table and bracket table, with their searches. */
    const bidiClassForChar: char -> BidiClass
    const lookupClosing: Lookup

    constructor (bidiClassForChar: char -> BidiClass, lookupClosing: Lookup)
      ensures origCharTypes == [] && charTypes == [] && levels == [] && baseLevel == 0 && runs == []
      ensures this.bidiClassForChar == bidiClassForChar && this.lookupClosing == lookupClosing
    {
      origCharTypes, charTypes, levels, baseLevel, runs := [], [], [], 0, [];
      this.bidiClassForChar := bidiClassForChar;
      this.lookupClosing := lookupClosing;
    }

    /** A context whose last `resolve` went through. */
    ghost predicate Resolved(paragraph: seq<char>)
      requires paragraph != [] ==> |paragraph| == |origCharTypes|
      reads this
    {
      IsResolution(origCharTypes, baseLevel, paragraph, lookupClosing, charTypes, levels)
    }

    method Resolve(hint: Hint, paragraph: seq<char>) returns (ok: bool)
      requires paragraph != [] ==> |paragraph| == |origCharTypes|
      modifies this`charTypes, this`levels, this`baseLevel, this`runs
      ensures baseLevel == BaseLevelOf(origCharTypes, hint)
      ensures ok <==> Resolvable(origCharTypes, baseLevel)
      ensures ok <==> !HasStrandedPdi(origCharTypes, baseLevel)
      ensures ok ==> Resolved(paragraph)
    {
      charTypes := origCharTypes;
      match hint {
        case LeftToRightHint => baseLevel := 0;
        case RightToLeftHint => baseLevel := 1;
        case AutoLeftToRight => baseLevel := ParagraphLevel(charTypes, false, Ltr);
        case AutoRightToLeft => baseLevel := ParagraphLevel(charTypes, false, Rtl);
      }
      assert baseLevel == BaseLevelOf(origCharTypes, hint);
      levels := Resize(levels, |charTypes|);
      hide *;
      ok, charTypes, levels, runs := ResolveFrom(charTypes, baseLevel, levels, paragraph, lookupClosing);
      ResolvableExactly(origCharTypes, baseLevel);
    }

    /** False where the source panics; otherwise the outcome depends on the arguments alone. */
    method ResolveParagraph(paragraph: seq<char>, hint: Hint) returns (ok: bool)
      modifies this
      ensures |origCharTypes| == |paragraph| && forall i :: 0 <= i < |paragraph| ==>
        origCharTypes[i] == bidiClassForChar(paragraph[i])
      ensures baseLevel == BaseLevelOf(origCharTypes, hint)
      ensures ok <==> Resolvable(origCharTypes, baseLevel)
      ensures ok <==> !HasStrandedPdi(origCharTypes, baseLevel)
      ensures ok ==> Resolved(paragraph)
    {
      origCharTypes := seq(|paragraph|, i requires 0 <= i < |paragraph| reads this => bidiClassForChar(paragraph[i]));
      ok := Resolve(hint, paragraph);
    }

    method SetCharTypes(types: seq<BidiClass>, hint: Hint) returns (ok: bool)
      modifies this
      ensures origCharTypes == types && baseLevel == BaseLevelOf(types, hint)
      ensures ok <==> Resolvable(types, baseLevel)
      ensures ok <==> !HasStrandedPdi(types, baseLevel)
      ensures ok ==> Resolved([])
    {
      origCharTypes := types;
      ok := Resolve(hint, []);
    }

    /** The runs of the paragraph. */
    method Runs() returns (r: seq<LineLevels.BidiRun>)
      ensures LineLevels.AreRuns(levels, 0, r)
    {
      r := LineLevels.CollectRuns(levels, 0);
    }

    /** The runs of a line, after rule L1. */
    method LineRuns(start: nat, end: nat) returns (line: seq<Level>, r: seq<LineLevels.BidiRun>)
      requires start <= end <= |levels| == |origCharTypes| && baseLevel != NO_LEVEL
      ensures LineLevels.IsL1(origCharTypes, levels, baseLevel, start, end, line)
      ensures LineLevels.AreRuns(line, start, r)
    {
      line := LineLevels.ResetWhitespaceLevels(origCharTypes, levels, baseLevel, start, end);
      r := LineLevels.CollectRuns(line, start);
    }

    /** The levels of a line after rule L1 and the order in which rule L2 displays it. */
    method ReorderLine(start: nat, end: nat) returns (line: seq<Level>, visual: seq<int>)
      requires start <= end <= |levels| == |origCharTypes| && baseLevel != NO_LEVEL
      ensures LineLevels.IsL1(origCharTypes, levels, baseLevel, start, end, line)
      ensures LineReversal.KeptOnce(line, start, visual)
      ensures LineReversal.IsL2Order(line, start, visual) <==>
        LineReversal.HasOddLevel(line) || !LineReversal.HasHighPair(line)
    {
      line := LineLevels.ResetWhitespaceLevels(origCharTypes, levels, baseLevel, start, end);
      visual := LineReversal.ReverseLevels(start, line);
    }
  }
}
