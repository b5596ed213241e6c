/**
  * The whole of `resolve` as a function of its inputs: explicit levels, sequences, the type rules in order, and the
  * implicit levels of rules I1 and I2 (UAX #9, section 3.3.6).
  *
  * `XTypes`, `XLevels` and `XSequences` are what the explicit rules and rule X10 leave. `Rules` is what rules W1 to N2
  * make of one sequence, and `FinalViews` what the passes over all sequences make of them together.
  */
module Resolution {
  import opened Wrappers
  import opened BidiTypes
  import opened LevelStacks
  import opened ParagraphLevels
  import opened ExplicitLevels
  import opened LevelRuns
  import opened ChainRules
  import opened ChainViews
  import opened Brackets
  import opened BracketRules

  datatype Hint = LeftToRightHint | RightToLeftHint | AutoLeftToRight | AutoRightToLeft

  lemma ParagraphLevelIsBit(types: seq<BidiClass>, fallback: Direction, i: nat)
    requires i <= |types|
    ensures 0 <= ParagraphLevelFrom(types, false, fallback, i) <= 1
    decreases |types| - i
  {
  }

  function BaseLevelOf(types: seq<BidiClass>, hint: Hint): (l: Level)
    ensures 0 <= l <= 1
  {
    ParagraphLevelIsBit(types, Ltr, 0);
    ParagraphLevelIsBit(types, Rtl, 0);
    match hint
    case LeftToRightHint => 0
    case RightToLeftHint => 1
    case AutoLeftToRight => ParagraphLevelOf(types, false, Ltr)
    case AutoRightToLeft => ParagraphLevelOf(types, false, Rtl)
  }

  /**
    * A fixed hint is the level; with an automatic one, rules P2 and P3 find it, or the hint when no strong type does.
    */
  lemma {:induction false} HintDecides(types: seq<BidiClass>, hint: Hint)
    ensures hint.LeftToRightHint? ==> BaseLevelOf(types, hint) == 0
    ensures hint.RightToLeftHint? ==> BaseLevelOf(types, hint) == 1
    ensures hint.AutoLeftToRight? ==> IsParagraphLevel(types, false, Ltr, BaseLevelOf(types, hint))
    ensures hint.AutoRightToLeft? ==> IsParagraphLevel(types, false, Rtl, BaseLevelOf(types, hint))
  {
    ParagraphLevelIsP2(types, false, Ltr, 0);
    ParagraphLevelIsP2(types, false, Rtl, 0);
    hide IsParagraphLevel, ParagraphLevelFrom;
  }

  /** The explicit rules run to the end, without the source's panic. */
  predicate Resolvable(orig: seq<BidiClass>, base: Level) {
    0 <= base <= 1 && Run(orig, base, |orig|).Some?
  }

  ghost predicate HasStrandedPdi(orig: seq<BidiClass>, base: Level)
    requires 0 <= base <= 1
  {
    exists i :: 0 <= i < |orig| && IsStrandedPdi(orig, base, i)
  }

  /** The source panics exactly on the paragraphs with a PDI that has isolates to close, all of them dropped. */
  lemma {:induction false} ResolvableExactly(orig: seq<BidiClass>, base: Level)
    requires 0 <= base <= 1
    ensures Resolvable(orig, base) <==> !HasStrandedPdi(orig, base)
  {
    PanicsExactlyAt(orig, base, |orig|);
    hide Run, IsStrandedPdi;
  }

  function ClassAt(orig: seq<BidiClass>, base: Level, i: nat): (c: BidiClass)
    requires Resolvable(orig, base) && i < |orig|
    ensures c.IsRemoved() <==> orig[i].IsRemoved()
  {
    RunsEarlier(orig, base, i, |orig|);
    RunsEarlier(orig, base, i + 1, |orig|);
    ExplicitClass(orig, base, i)
  }

  function LevelAt(orig: seq<BidiClass>, base: Level, i: nat): (l: Level)
    requires Resolvable(orig, base) && i < |orig|
    ensures l == NO_LEVEL <==> orig[i].IsRemoved()
    ensures !orig[i].IsRemoved() ==> base <= l <= MAX_DEPTH
  {
    RunsEarlier(orig, base, i, |orig|);
    RunsEarlier(orig, base, i + 1, |orig|);
    if orig[i].IsRemoved() then NO_LEVEL else ExplicitLevel(orig, base, i)
  }

  /** The classes after rules X1 to X8. */
  function XTypes(orig: seq<BidiClass>, base: Level): (r: seq<BidiClass>)
    requires Resolvable(orig, base)
    ensures |r| == |orig| && forall i :: 0 <= i < |r| ==> r[i] == ClassAt(orig, base, i)
  {
    seq(|orig|, i requires 0 <= i < |orig| => ClassAt(orig, base, i))
  }

  /** The levels after rules X1 to X9. */
  function XLevels(orig: seq<BidiClass>, base: Level): (r: seq<Level>)
    requires Resolvable(orig, base)
    ensures |r| == |orig| && forall i :: 0 <= i < |r| ==> r[i] == LevelAt(orig, base, i)
  {
    seq(|orig|, i requires 0 <= i < |orig| => LevelAt(orig, base, i))
  }

  function XSequences(orig: seq<BidiClass>, base: Level): seq<IsolatingRunSequence>
    requires Resolvable(orig, base)
  {
    SequencesOf(XTypes(orig, base), XLevels(orig, base), base)
  }

  lemma XLengths(orig: seq<BidiClass>, base: Level)
    requires Resolvable(orig, base)
    ensures |XTypes(orig, base)| == |XLevels(orig, base)| == |orig|
    ensures XSequences(orig, base) == SequencesOf(XTypes(orig, base), XLevels(orig, base), base)
  {
  }

  lemma XIsReady(orig: seq<BidiClass>, base: Level)
    requires Resolvable(orig, base)
    ensures Ready(XTypes(orig, base), XLevels(orig, base), XSequences(orig, base))
  {
    SequencesAreChains(XTypes(orig, base), XLevels(orig, base), base);
    hide Run, AreChains, SequencesOf;
    forall i | 0 <= i < |orig|
      ensures XLevels(orig, base)[i] == NO_LEVEL <==> XTypes(orig, base)[i].IsRemoved()
    {
      assert XLevels(orig, base)[i] == LevelAt(orig, base, i) && XTypes(orig, base)[i] == ClassAt(orig, base, i);
    }
  }

  // ---- the type rules on one sequence ------------------------------------------------------------

  function Weak(t: seq<BidiClass>, b: Borders): (r: seq<BidiClass>)
    ensures |r| == |t|
  {
    Apply(W7, Apply(W6, Apply(W5, Apply(W4, Apply(W3, Apply(W2, Apply(W1, t, b), b), b), b), b), b), b)
  }

  function Neutrals(t: seq<BidiClass>, b: Borders): (r: seq<BidiClass>)
    ensures |r| == |t|
  {
    Apply(N2, Apply(N1, t, b), b)
  }

  /** Rules W1 to N2 on one sequence; with `brackets` off, or when BD16 gives up, rule N0 is left out. */
  function Rules(t: seq<BidiClass>, orig: seq<BidiClass>, chars: seq<char>, lookup: Lookup, b: Borders,
    brackets: bool): (r: seq<BidiClass>)
    requires brackets ==> |t| == |orig| == |chars|
    ensures |r| == |t|
  {
    var weak := Weak(t, b);
    var paired := if brackets then N0(weak, orig, chars, lookup, b) else None;
    Neutrals(if paired.Some? then paired.value else weak, b)
  }

  lemma WeakRetaining(t: seq<BidiClass>, b: Borders)
    requires b.Valid()
    ensures Deleted(Weak(t, b)) == Weak(Deleted(t), b)
  {
    var u1 := Apply(W1, t, b);
    var u2 := Apply(W2, u1, b);
    var u3 := Apply(W3, u2, b);
    var u4 := Apply(W4, u3, b);
    var u5 := Apply(W5, u4, b);
    var u6 := Apply(W6, u5, b);
    hide Deleted, Apply;
    RetainingEqualsDeleting(W1, t, b);
    RetainingEqualsDeleting(W2, u1, b);
    RetainingEqualsDeleting(W3, u2, b);
    RetainingEqualsDeleting(W4, u3, b);
    RetainingEqualsDeleting(W5, u4, b);
    RetainingEqualsDeleting(W6, u5, b);
    RetainingEqualsDeleting(W7, u6, b);
  }

  lemma WeakKeepsRemoved(t: seq<BidiClass>, b: Borders)
    requires b.Valid()
    ensures SameRemoved(t, Weak(t, b))
  {
    var u1 := Apply(W1, t, b);
    var u2 := Apply(W2, u1, b);
    var u3 := Apply(W3, u2, b);
    var u4 := Apply(W4, u3, b);
    var u5 := Apply(W5, u4, b);
    var u6 := Apply(W6, u5, b);
    hide Apply;
    ApplyKeepsRemoved(W1, t, b);
    ApplyKeepsRemoved(W2, u1, b);
    ApplyKeepsRemoved(W3, u2, b);
    ApplyKeepsRemoved(W4, u3, b);
    ApplyKeepsRemoved(W5, u4, b);
    ApplyKeepsRemoved(W6, u5, b);
    ApplyKeepsRemoved(W7, u6, b);
  }

  lemma NeutralsRetaining(t: seq<BidiClass>, b: Borders)
    requires b.Valid()
    ensures Deleted(Neutrals(t, b)) == Neutrals(Deleted(t), b)
  {
    hide Deleted, Apply;
    RetainingEqualsDeleting(N1, t, b);
    RetainingEqualsDeleting(N2, Apply(N1, t, b), b);
  }

  lemma DeletedLength(t: seq<BidiClass>, u: seq<BidiClass>)
    requires SameRemoved(t, u)
    ensures |Deleted(t)| == |Deleted(u)|
  {
    CompactLength(t, t);
    CompactLength(u, u);
    SamePattern(t, u, |t|);
  }

  /**
    * The controls that rule X9 removes may stay in the text, as section 5.2 of UAX #9 proposes and the code does:
    * rules W1 to N2 give every kept character the class it gets when the removed ones are deleted beforehand.
    */
  lemma {:induction false} RulesRetaining(
    t: seq<BidiClass>, orig: seq<BidiClass>, chars: seq<char>, lookup: Lookup, b: Borders)
    requires b.Valid() && |t| == |chars| && SameRemoved(t, orig)
    ensures |Deleted(t)| == |Compact(t, orig)| == |Compact(t, chars)|
    ensures Deleted(Rules(t, orig, chars, lookup, b, true)) ==
      Rules(Deleted(t), Compact(t, orig), Compact(t, chars), lookup, b, true)
  {
    hide Deleted, Weak, Neutrals;
    WeakRetaining(t, b);
    WeakKeepsRemoved(t, b);
    var weak := Weak(t, b);
    N0RetainingEqualsDeleting(weak, orig, chars, lookup, b);
    CompactSame(t, weak, orig);
    CompactSame(t, weak, chars);
    DeletedLength(t, weak);
    var paired := N0(weak, orig, chars, lookup, b);
    NeutralsRetaining(if paired.Some? then paired.value else weak, b);
  }

  // ---- what the rules leave ----------------------------------------------------------------------

  lemma WeakLeaves(t: seq<BidiClass>, b: Borders, i: nat)
    requires b.Valid() && i < |t|
    ensures var c := Weak(t, b)[i]; IsResolved(c) || c.IsNeutral() || c.IsRemoved()
  {
    var u1 := Apply(W1, t, b);
    var u2 := Apply(W2, u1, b);
    var u3 := Apply(W3, u2, b);
    var u4 := Apply(W4, u3, b);
    var u5 := Apply(W5, u4, b);
    var u6 := Apply(W6, u5, b);
    BackIsNotSkipped(t, i, MarkOrRemoved);
    hide Back, Ahead;
    assert !u1[i].NonspacingMark?;
    assert u2[i] == u1[i] || u2[i] == ArabicNumber;
    assert !u3[i].NonspacingMark? && !u3[i].ArabicLetter?;
    assert u4[i] == u3[i] || IsResolved(u4[i]);
    assert u5[i] == u4[i] || IsResolved(u5[i]);
    assert IsResolved(u6[i]) || u6[i].IsNeutral() || u6[i].IsRemoved();
  }

  /** Rules N1 and N2 leave no neutral. */
  lemma NeutralsLeave(t: seq<BidiClass>, b: Borders, i: nat)
    requires i < |t| && (IsResolved(t[i]) || t[i].IsNeutral() || t[i].IsRemoved())
    ensures var c := Neutrals(t, b)[i]; if t[i].IsRemoved() then c == t[i] else IsResolved(c)
  {
    hide Back, Ahead;
    var u := Apply(N1, t, b);
    assert u[i] == t[i] || u[i] == LeftToRight || u[i] == RightToLeft;
  }

  lemma BracketsLeave(t: seq<BidiClass>, orig: seq<BidiClass>, chars: seq<char>, lookup: Lookup, b: Borders, i: nat)
    requires |t| == |orig| == |chars| && i < |t| && N0(t, orig, chars, lookup, b).Some? && SameRemoved(t, orig)
    requires IsResolved(t[i]) || t[i].IsNeutral() || t[i].IsRemoved()
    ensures var c := N0(t, orig, chars, lookup, b).value[i];
      (IsResolved(c) || c.IsNeutral() || c.IsRemoved()) && (c.IsRemoved() <==> t[i].IsRemoved())
  {
    N0KeepsRemoved(t, orig, chars, lookup, b);
    PairsNest(t, chars, lookup, |t|);
    SortKeeps(t, Match(t, chars, lookup, |t|).value.pairs);
    PairsChange(t, orig, Sort(Match(t, chars, lookup, |t|).value.pairs), b, i);
  }

  /** After rule N2 every kept character is L, R, EN or AN. */
  lemma {:induction false} RulesLeave(
    t: seq<BidiClass>, orig: seq<BidiClass>, chars: seq<char>, lookup: Lookup, b: Borders, brackets: bool, i: nat)
    requires b.Valid() && i < |t|
    requires brackets ==> |t| == |orig| == |chars| && SameRemoved(t, orig)
    ensures var c := Rules(t, orig, chars, lookup, b, brackets)[i];
      if t[i].IsRemoved() then c.IsRemoved() else IsResolved(c)
  {
    var weak := Weak(t, b);
    hide Weak, Neutrals, N0;
    WeakLeaves(t, b, i);
    WeakKeepsRemoved(t, b);
    var paired := if brackets then N0(weak, orig, chars, lookup, b) else None;
    if paired.Some? {
      BracketsLeave(weak, orig, chars, lookup, b, i);
    }
    NeutralsLeave(if paired.Some? then paired.value else weak, b, i);
  }

  // ---- the whole paragraph -----------------------------------------------------------------------

  /** The first sequence from `s` on whose brackets overflow; `|seqs|` if there is none. */
  ghost function BracketStop(
    weak: seq<seq<BidiClass>>, orig: seq<BidiClass>, paragraph: seq<char>, lookup: Lookup,
    seqs: seq<IsolatingRunSequence>, s: nat): (n: nat)
    requires s <= |seqs| == |weak| && |paragraph| == |orig|
    requires forall k :: 0 <= k < |seqs| ==> InText(|orig|, seqs[k].indices) && |weak[k]| == |seqs[k].indices|
    ensures s <= n <= |seqs|
    decreases |seqs| - s
  {
    if s == |seqs| then s
    else
      var r := N0(weak[s], View(orig, seqs[s].indices), View(paragraph, seqs[s].indices), lookup, BordersOf(seqs[s]));
      if r.None? then s else BracketStop(weak, orig, paragraph, lookup, seqs, s + 1)
  }

  ghost predicate AreViews(n: nat, seqs: seq<IsolatingRunSequence>, views: seq<seq<BidiClass>>) {
    && |views| == |seqs|
    && forall s :: 0 <= s < |seqs| ==> InText(n, seqs[s].indices) && |views[s]| == |seqs[s].indices|
  }

  ghost function Views(types: seq<BidiClass>, seqs: seq<IsolatingRunSequence>): (r: seq<seq<BidiClass>>)
    requires forall s :: 0 <= s < |seqs| ==> InText(|types|, seqs[s].indices)
    ensures AreViews(|types|, seqs, r) && forall s :: 0 <= s < |seqs| ==> r[s] == View(types, seqs[s].indices)
  {
    seq(|seqs|, s requires 0 <= s < |seqs| => View(types, seqs[s].indices))
  }

  ghost function ApplyAll(
    rule: Rule, views: seq<seq<BidiClass>>, seqs: seq<IsolatingRunSequence>): (r: seq<seq<BidiClass>>)
    requires |views| == |seqs|
    ensures |r| == |seqs| && forall s :: 0 <= s < |seqs| ==> r[s] == Apply(rule, views[s], BordersOf(seqs[s]))
  {
    seq(|seqs|, s requires 0 <= s < |seqs| => Apply(rule, views[s], BordersOf(seqs[s])))
  }

  /** Rule N0 on all sequences: after the first overflow the source returns and touches no later one. */
  ghost function BracketsAll(
    views: seq<seq<BidiClass>>, orig: seq<BidiClass>, paragraph: seq<char>, lookup: Lookup,
    seqs: seq<IsolatingRunSequence>): (r: seq<seq<BidiClass>>)
    requires AreViews(|orig|, seqs, views) && |paragraph| == |orig|
    ensures |r| == |seqs|
    ensures forall s :: 0 <= s < |seqs| ==>
      var p := N0(views[s], View(orig, seqs[s].indices), View(paragraph, seqs[s].indices), lookup, BordersOf(seqs[s]));
      r[s] == if s < BracketStop(views, orig, paragraph, lookup, seqs, 0) && p.Some? then p.value else views[s]
  {
    seq(|seqs|, s requires 0 <= s < |seqs| =>
      var p := N0(views[s], View(orig, seqs[s].indices), View(paragraph, seqs[s].indices), lookup, BordersOf(seqs[s]));
      if s < BracketStop(views, orig, paragraph, lookup, seqs, 0) && p.Some? then p.value else views[s])
  }

  /** BD16 gives up on sequence `s`: 63 openers are waiting when another one comes. */
  ghost predicate Overflows(
    views: seq<seq<BidiClass>>, orig: seq<BidiClass>, paragraph: seq<char>, lookup: Lookup,
    seqs: seq<IsolatingRunSequence>, s: nat)
    requires AreViews(|orig|, seqs, views) && |paragraph| == |orig| && s < |seqs|
  {
    Match(views[s], View(paragraph, seqs[s].indices), lookup, |views[s]|).None?
  }

  lemma {:induction false} StopsAtOverflow(
    views: seq<seq<BidiClass>>, orig: seq<BidiClass>, paragraph: seq<char>, lookup: Lookup,
    seqs: seq<IsolatingRunSequence>, from: nat, s: nat)
    requires AreViews(|orig|, seqs, views) && |paragraph| == |orig| && from <= s < |seqs|
    ensures s < BracketStop(views, orig, paragraph, lookup, seqs, from) <==>
      forall k :: from <= k <= s ==> !Overflows(views, orig, paragraph, lookup, seqs, k)
    decreases s - from
  {
    hide Match;
    if from < s {
      StopsAtOverflow(views, orig, paragraph, lookup, seqs, from + 1, s);
    }
    assert Overflows(views, orig, paragraph, lookup, seqs, from) <==>
      N0(views[from], View(orig, seqs[from].indices), View(paragraph, seqs[from].indices), lookup,
        BordersOf(seqs[from])).None?;
    hide N0, Overflows;
  }

  /** The pass resolves the brackets of a sequence exactly if neither it nor an earlier sequence overflows. */
  lemma {:induction false} OverflowEndsThePass(
    views: seq<seq<BidiClass>>, orig: seq<BidiClass>, paragraph: seq<char>, lookup: Lookup,
    seqs: seq<IsolatingRunSequence>, s: nat)
    requires AreViews(|orig|, seqs, views) && |paragraph| == |orig| && s < |seqs|
    ensures var r := BracketsAll(views, orig, paragraph, lookup, seqs)[s];
      if forall k :: 0 <= k <= s ==> !Overflows(views, orig, paragraph, lookup, seqs, k)
      then Some(r) == N0(views[s], View(orig, seqs[s].indices), View(paragraph, seqs[s].indices), lookup,
        BordersOf(seqs[s]))
      else r == views[s]
  {
    StopsAtOverflow(views, orig, paragraph, lookup, seqs, 0, s);
    assert !Overflows(views, orig, paragraph, lookup, seqs, s) <==>
      N0(views[s], View(orig, seqs[s].indices), View(paragraph, seqs[s].indices), lookup, BordersOf(seqs[s])).Some?;
    hide N0, Overflows, BracketStop;
  }

  ghost function WeakAll(views: seq<seq<BidiClass>>, seqs: seq<IsolatingRunSequence>): (r: seq<seq<BidiClass>>)
    requires |views| == |seqs|
    ensures |r| == |seqs|
    ensures forall s :: 0 <= s < |seqs| ==> r[s] == Weak(views[s], BordersOf(seqs[s]))
  {
    var v3 := ApplyAll(W3, ApplyAll(W2, ApplyAll(W1, views, seqs), seqs), seqs);
    ApplyAll(W7, ApplyAll(W6, ApplyAll(W5, ApplyAll(W4, v3, seqs), seqs), seqs), seqs)
  }

  /**
    * What each sequence shows in the end. An empty `paragraph` means that only classes were given: rule N0 is skipped.
    */
  ghost function FinalViews(
    orig: seq<BidiClass>, base: Level, paragraph: seq<char>, lookup: Lookup): (r: seq<seq<BidiClass>>)
    requires Resolvable(orig, base) && (paragraph != [] ==> |paragraph| == |orig|)
    ensures |r| == |XSequences(orig, base)|
  {
    XIsReady(orig, base);
    var xt, seqs := XTypes(orig, base), XSequences(orig, base);
    var weak := WeakAll(Views(xt, seqs), seqs);
    var paired := if paragraph == [] then weak else BracketsAll(weak, orig, paragraph, lookup, seqs);
    ApplyAll(N2, ApplyAll(N1, paired, seqs), seqs)
  }

  // ---- implicit levels ---------------------------------------------------------------------------

  /** Rules I1 and I2. */
  function ImplicitLevel(level: Level, c: BidiClass): (l: Level)
    requires level <= MAX_DEPTH
    ensures l == NO_LEVEL <==> level == NO_LEVEL
    ensures level != NO_LEVEL ==> level <= l <= level + 2 && l <= MAX_DEPTH + 1
    ensures level != NO_LEVEL && c.LeftToRight? ==> level <= l <= level + 1 && l % 2 == 0
    ensures level != NO_LEVEL && c.RightToLeft? ==> level <= l <= level + 1 && l % 2 == 1
    ensures level != NO_LEVEL && (c.EuropeanNumber? || c.ArabicNumber?) ==> level < l <= level + 2 && l % 2 == 0
  {
    if level == NO_LEVEL then level
    else if !IsOdd(level) then
      (if c.RightToLeft? then level + 1 else if c.ArabicNumber? || c.EuropeanNumber? then level + 2 else level)
    else
      (if c.LeftToRight? || c.ArabicNumber? || c.EuropeanNumber? then level + 1 else level)
  }

  /** `types` and `levels` are the outcome of `resolve`. */
  ghost predicate IsResolution(
    orig: seq<BidiClass>, base: Level, paragraph: seq<char>, lookup: Lookup, types: seq<BidiClass>, levels: seq<Level>)
    requires paragraph != [] ==> |paragraph| == |orig|
  {
    && Resolvable(orig, base)
    && Rewritten(XTypes(orig, base), types, XSequences(orig, base), FinalViews(orig, base, paragraph, lookup),
       |XSequences(orig, base)|)
    && |levels| == |orig|
    && forall i :: 0 <= i < |orig| ==> levels[i] == ImplicitLevel(XLevels(orig, base)[i], types[i])
  }

  lemma RewrittenLength(
    a: seq<BidiClass>, b: seq<BidiClass>, seqs: seq<IsolatingRunSequence>, results: seq<seq<BidiClass>>, n: nat)
    requires Rewritten(a, b, seqs, results, n)
    ensures |a| == |b|
  {
  }

  lemma RewrittenAgree(
    before: seq<BidiClass>, r: seq<BidiClass>, r': seq<BidiClass>, seqs: seq<IsolatingRunSequence>,
    views: seq<seq<BidiClass>>, i: nat)
    requires Rewritten(before, r, seqs, views, |seqs|) && Rewritten(before, r', seqs, views, |seqs|) && i < |before|
    ensures r[i] == r'[i]
  {
    if s: nat :| s < |seqs| && InChain(seqs, s, i) {
      var a :| 0 <= a < |seqs[s].indices| && seqs[s].indices[a] == i;
      assert View(r, seqs[s].indices)[a] == View(r', seqs[s].indices)[a];
    }
  }

  /** The outcome is a function of the inputs: what a context held before does not matter. */
  lemma {:induction false} ResolutionIsUnique(
    orig: seq<BidiClass>, base: Level, paragraph: seq<char>, lookup: Lookup,
    types: seq<BidiClass>, levels: seq<Level>, types': seq<BidiClass>, levels': seq<Level>)
    requires paragraph != [] ==> |paragraph| == |orig|
    requires IsResolution(orig, base, paragraph, lookup, types, levels)
    requires IsResolution(orig, base, paragraph, lookup, types', levels')
    ensures types == types' && levels == levels'
  {
    hide FinalViews, XTypes, XLevels, XSequences, Rewritten, Resolvable, ImplicitLevel;
    var seqs := XSequences(orig, base);
    RewrittenLength(XTypes(orig, base), types, seqs, FinalViews(orig, base, paragraph, lookup), |seqs|);
    RewrittenLength(XTypes(orig, base), types', seqs, FinalViews(orig, base, paragraph, lookup), |seqs|);
    forall i | 0 <= i < |types|
      ensures types[i] == types'[i]
    {
      RewrittenAgree(XTypes(orig, base), types, types', seqs, FinalViews(orig, base, paragraph, lookup), i);
    }
  }

  lemma XViewInText(orig: seq<BidiClass>, base: Level, s: nat)
    requires Resolvable(orig, base) && s < |XSequences(orig, base)|
    ensures InText(|orig|, XSequences(orig, base)[s].indices)
  {
    XIsReady(orig, base);
    hide Run, XTypes, XLevels, XSequences;
    ReadyChain(XTypes(orig, base), XLevels(orig, base), XSequences(orig, base), s);
  }

  /** On sequence `s`, after the weak types are resolved, BD16 finds 63 openers waiting when another one comes. */
  ghost predicate OverflowsAt(orig: seq<BidiClass>, base: Level, paragraph: seq<char>, lookup: Lookup, s: nat)
    requires Resolvable(orig, base) && |paragraph| == |orig| && s < |XSequences(orig, base)|
  {
    XViewInText(orig, base, s);
    var sq := XSequences(orig, base)[s];
    Match(Weak(View(XTypes(orig, base), sq.indices), BordersOf(sq)), View(paragraph, sq.indices), lookup,
      |sq.indices|).None?
  }

  /** The pass for rule N0 gets through sequence `s`: neither it nor an earlier one overflows. */
  ghost predicate PassReaches(
    orig: seq<BidiClass>, base: Level, paragraph: seq<char>, lookup: Lookup, s: nat): (r: bool)
    requires Resolvable(orig, base) && (paragraph != [] ==> |paragraph| == |orig|) && s < |XSequences(orig, base)|
    ensures r ==> paragraph != []
  {
    paragraph != [] && forall k :: 0 <= k <= s ==> !OverflowsAt(orig, base, paragraph, lookup, k)
  }

  lemma OverflowsAlike(orig: seq<BidiClass>, base: Level, paragraph: seq<char>, lookup: Lookup, s: nat)
    requires Resolvable(orig, base) && |paragraph| == |orig| && s < |XSequences(orig, base)|
    requires forall k :: 0 <= k < |XSequences(orig, base)| ==> InText(|orig|, XSequences(orig, base)[k].indices)
    ensures var seqs := XSequences(orig, base);
      OverflowsAt(orig, base, paragraph, lookup, s) <==>
        Overflows(WeakAll(Views(XTypes(orig, base), seqs), seqs), orig, paragraph, lookup, seqs, s)
  {
    hide Match, Weak, WeakAll, XTypes, XSequences, Run;
  }

  lemma PassesOnView(
    types: seq<BidiClass>, orig: seq<BidiClass>, paragraph: seq<char>, lookup: Lookup, seqs: seq<IsolatingRunSequence>,
    s: nat)
    requires |types| == |orig| && (paragraph != [] ==> |paragraph| == |orig|) && s < |seqs|
    requires forall s :: 0 <= s < |seqs| ==> InText(|orig|, seqs[s].indices)
    ensures var weak := WeakAll(Views(types, seqs), seqs);
      var paired := if paragraph == [] then weak else BracketsAll(weak, orig, paragraph, lookup, seqs);
      var brackets := paragraph != [] && forall k :: 0 <= k <= s ==> !Overflows(weak, orig, paragraph, lookup, seqs, k);
      ApplyAll(N2, ApplyAll(N1, paired, seqs), seqs)[s] ==
        Rules(View(types, seqs[s].indices), View(orig, seqs[s].indices),
              if brackets then View(paragraph, seqs[s].indices) else [], lookup, BordersOf(seqs[s]), brackets)
  {
    var weak := WeakAll(Views(types, seqs), seqs);
    hide N0, Weak, WeakAll, BracketStop, Overflows, BracketsAll;
    if paragraph != [] {
      OverflowEndsThePass(weak, orig, paragraph, lookup, seqs, s);
    }
  }

  lemma ReachesAlike(orig: seq<BidiClass>, base: Level, paragraph: seq<char>, lookup: Lookup, s: nat)
    requires Resolvable(orig, base) && |paragraph| == |orig| && s < |XSequences(orig, base)|
    requires forall k :: 0 <= k < |XSequences(orig, base)| ==> InText(|orig|, XSequences(orig, base)[k].indices)
    ensures var seqs := XSequences(orig, base); var weak := WeakAll(Views(XTypes(orig, base), seqs), seqs);
      PassReaches(orig, base, paragraph, lookup, s) <==>
        paragraph != [] && forall k :: 0 <= k <= s ==> !Overflows(weak, orig, paragraph, lookup, seqs, k)
  {
    hide OverflowsAt, Overflows, WeakAll, Views, XTypes, XSequences, Resolvable;
    var seqs := XSequences(orig, base);
    var weak := WeakAll(Views(XTypes(orig, base), seqs), seqs);
    forall k | 0 <= k <= s
      ensures OverflowsAt(orig, base, paragraph, lookup, k) <==> Overflows(weak, orig, paragraph, lookup, seqs, k)
    {
      OverflowsAlike(orig, base, paragraph, lookup, k);
    }
  }

  lemma FinalViewsAre(orig: seq<BidiClass>, base: Level, paragraph: seq<char>, lookup: Lookup)
    requires Resolvable(orig, base) && (paragraph != [] ==> |paragraph| == |orig|)
    ensures forall k :: 0 <= k < |XSequences(orig, base)| ==> InText(|orig|, XSequences(orig, base)[k].indices)
    ensures var seqs := XSequences(orig, base); var weak := WeakAll(Views(XTypes(orig, base), seqs), seqs);
      var paired := if paragraph == [] then weak else BracketsAll(weak, orig, paragraph, lookup, seqs);
      FinalViews(orig, base, paragraph, lookup) == ApplyAll(N2, ApplyAll(N1, paired, seqs), seqs)
  {
    forall k | 0 <= k < |XSequences(orig, base)|
      ensures InText(|orig|, XSequences(orig, base)[k].indices)
    {
      XViewInText(orig, base, k);
    }
    hide XTypes, XLevels, XSequences, ApplyAll, WeakAll, BracketsAll, Views;
  }

  /**
    * What a sequence shows in the end is what the rules make of it alone: with rule N0 exactly if there are characters
    * and no sequence up to this one overflows.
    */
  lemma {:induction false} FinalViewIs(orig: seq<BidiClass>, base: Level, paragraph: seq<char>, lookup: Lookup, s: nat)
    requires Resolvable(orig, base) && (paragraph != [] ==> |paragraph| == |orig|)
    requires s < |XSequences(orig, base)|
    ensures IsReadyChain(XTypes(orig, base), XLevels(orig, base), XSequences(orig, base)[s])
    ensures var sq, brackets := XSequences(orig, base)[s], PassReaches(orig, base, paragraph, lookup, s);
      FinalViews(orig, base, paragraph, lookup)[s] ==
        Rules(View(XTypes(orig, base), sq.indices), View(orig, sq.indices),
              if brackets then View(paragraph, sq.indices) else [], lookup, BordersOf(sq), brackets)
  {
    hide *;
    FinalViewsAre(orig, base, paragraph, lookup);
    XIsReady(orig, base);
    ReadyChain(XTypes(orig, base), XLevels(orig, base), XSequences(orig, base), s);
    XLengths(orig, base);
    PassesOnView(XTypes(orig, base), orig, paragraph, lookup, XSequences(orig, base), s);
    if paragraph != [] {
      ReachesAlike(orig, base, paragraph, lookup, s);
    }
  }

  /** Every kept character has a place in a sequence. */
  lemma KeptHasPlace(orig: seq<BidiClass>, base: Level, i: nat) returns (s: nat, a: nat)
    requires Resolvable(orig, base) && i < |orig| && !orig[i].IsRemoved()
    ensures s < |XSequences(orig, base)|
    ensures a < |XSequences(orig, base)[s].indices| && XSequences(orig, base)[s].indices[a] == i
  {
    XIsReady(orig, base);
    var seqs := XSequences(orig, base);
    assert XLevels(orig, base)[i] == LevelAt(orig, base, i);
    hide Run, LevelAt, XLevels, XSequences;
    s :| InChain(seqs, s, i);
    a :| 0 <= a < |seqs[s].indices| && seqs[s].indices[a] == i;
  }

  /** The class in the end at place `a` of sequence `s`. */
  lemma ShownAt(
    orig: seq<BidiClass>, base: Level, paragraph: seq<char>, lookup: Lookup, types: seq<BidiClass>, levels: seq<Level>,
    s: nat, a: nat)
    requires paragraph != [] ==> |paragraph| == |orig|
    requires IsResolution(orig, base, paragraph, lookup, types, levels)
    requires s < |XSequences(orig, base)| && a < |XSequences(orig, base)[s].indices|
    ensures InText(|orig|, XSequences(orig, base)[s].indices)
    ensures |FinalViews(orig, base, paragraph, lookup)[s]| == |XSequences(orig, base)[s].indices|
    ensures |types| == |orig|
    ensures types[XSequences(orig, base)[s].indices[a]] == FinalViews(orig, base, paragraph, lookup)[s][a]
  {
    var indices := XSequences(orig, base)[s].indices;
    var final := FinalViews(orig, base, paragraph, lookup);
    hide FinalViews, XSequences, Run;
    assert View(types, indices) == final[s];
    assert View(types, indices)[a] == types[indices[a]];
  }

  lemma ChainIsValid(orig: seq<BidiClass>, base: Level, s: nat)
    requires Resolvable(orig, base) && s < |XSequences(orig, base)|
    ensures BordersOf(XSequences(orig, base)[s]).Valid()
  {
    XIsReady(orig, base);
    ReadyChain(XTypes(orig, base), XLevels(orig, base), XSequences(orig, base), s);
    hide Run, XTypes, XLevels, XSequences;
  }

  /** A kept character ends with the class that the rules give its place in the view of its sequence. */
  lemma ResolvedAt(
    orig: seq<BidiClass>, base: Level, paragraph: seq<char>, lookup: Lookup, types: seq<BidiClass>, levels: seq<Level>,
    i: nat)
    returns (sq: IsolatingRunSequence, a: nat, brackets: bool)
    requires paragraph != [] ==> |paragraph| == |orig|
    requires IsResolution(orig, base, paragraph, lookup, types, levels) && i < |orig| && !orig[i].IsRemoved()
    ensures sq in XSequences(orig, base) && InText(|orig|, sq.indices) && BordersOf(sq).Valid()
    ensures a < |sq.indices| && sq.indices[a] == i && |types| == |levels| == |orig|
    ensures View(XTypes(orig, base), sq.indices)[a] == ClassAt(orig, base, i)
    ensures brackets ==> paragraph != []
    ensures types[i] ==
      Rules(View(XTypes(orig, base), sq.indices), View(orig, sq.indices),
            if brackets then View(paragraph, sq.indices) else [], lookup, BordersOf(sq), brackets)[a]
    ensures levels[i] == ImplicitLevel(LevelAt(orig, base, i), types[i])
  {
    hide FinalViews, XTypes, XLevels, XSequences, Rules, Rewritten, Resolvable, ClassAt, LevelAt, ImplicitLevel;
    hide PassReaches;
    var s;
    s, a := KeptHasPlace(orig, base, i);
    sq := XSequences(orig, base)[s];
    ShownAt(orig, base, paragraph, lookup, types, levels, s, a);
    FinalViewIs(orig, base, paragraph, lookup, s);
    brackets := PassReaches(orig, base, paragraph, lookup, s);
    ChainIsValid(orig, base, s);
    assert XTypes(orig, base)[i] == ClassAt(orig, base, i) && XLevels(orig, base)[i] == LevelAt(orig, base, i);
  }

  lemma XKeepsRemoved(orig: seq<BidiClass>, base: Level, indices: seq<nat>)
    requires Resolvable(orig, base) && InText(|orig|, indices)
    ensures SameRemoved(View(XTypes(orig, base), indices), View(orig, indices))
  {
    forall a | 0 <= a < |indices|
      ensures View(XTypes(orig, base), indices)[a].IsRemoved() <==> View(orig, indices)[a].IsRemoved()
    {
      assert XTypes(orig, base)[indices[a]] == ClassAt(orig, base, indices[a]);
    }
  }

  lemma KeptIsResolved(
    orig: seq<BidiClass>, base: Level, paragraph: seq<char>, lookup: Lookup, types: seq<BidiClass>, levels: seq<Level>,
    i: nat)
    requires paragraph != [] ==> |paragraph| == |orig|
    requires IsResolution(orig, base, paragraph, lookup, types, levels) && i < |orig| && !orig[i].IsRemoved()
    ensures |types| == |orig| && IsResolved(types[i])
  {
    var sq, a, brackets := ResolvedAt(orig, base, paragraph, lookup, types, levels, i);
    hide FinalViews, XTypes, XSequences, Rules, Rewritten, Resolvable, ClassAt;
    XKeepsRemoved(orig, base, sq.indices);
    RulesLeave(
      View(XTypes(orig, base), sq.indices), View(orig, sq.indices),
      if brackets then View(paragraph, sq.indices) else [],
      lookup, BordersOf(sq), brackets, a);
  }

  /**
    * End to end: a level is NO_LEVEL exactly for the classes that rule X9 removes; every other character ends as
    * L, R, EN or AN, at a level from the base to 126: an L at the least even level from its explicit level on, an R at
    * the least odd level from there on, and a number at the least even level above it.
    */
  lemma {:induction false} EndToEnd(
    orig: seq<BidiClass>, base: Level, paragraph: seq<char>, lookup: Lookup, types: seq<BidiClass>, levels: seq<Level>,
    i: nat)
    requires paragraph != [] ==> |paragraph| == |orig|
    requires IsResolution(orig, base, paragraph, lookup, types, levels) && i < |orig|
    ensures |types| == |levels| == |orig|
    ensures levels[i] == NO_LEVEL <==> orig[i].IsRemoved()
    ensures !orig[i].IsRemoved() ==>
      && IsResolved(types[i])
      && base <= LevelAt(orig, base, i) <= levels[i] <= LevelAt(orig, base, i) + 2
      && levels[i] <= MAX_DEPTH + 1
      && (types[i].LeftToRight? ==> levels[i] <= LevelAt(orig, base, i) + 1 && levels[i] % 2 == 0)
      && (types[i].RightToLeft? ==> levels[i] <= LevelAt(orig, base, i) + 1 && levels[i] % 2 == 1)
      && (types[i].EuropeanNumber? || types[i].ArabicNumber? ==>
            LevelAt(orig, base, i) < levels[i] && levels[i] % 2 == 0)
  {
    assert XLevels(orig, base)[i] == LevelAt(orig, base, i);
    if !orig[i].IsRemoved() {
      KeptIsResolved(orig, base, paragraph, lookup, types, levels, i);
    }
    hide Run;
  }
}
