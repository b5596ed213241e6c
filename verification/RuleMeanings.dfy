/**
  * The rules W1 to W7, N1 and N2 in the words of UAX #9 (sections 3.3.4 and 3.3.5): stretches and their two neighbours.
  */
module RuleMeanings {
  import opened Wrappers
  import opened BidiTypes
  import opened ChainRules
  import opened Resolution

  // The classes are named here one by one, so that what is said does not rest on how the rules sort them.

  const REMOVED: set<BidiClass> := {
    RightToLeftEmbedding, LeftToRightEmbedding, RightToLeftOverride, LeftToRightOverride, PopDirectionalFormat,
    BoundaryNeutral}

  const NEUTRALS: set<BidiClass> := {
    ParagraphSeparator, SegmentSeparator, WhiteSpace, OtherNeutral,
    RightToLeftIsolate, LeftToRightIsolate, FirstStrongIsolate, PopDirectionalIsolate}

  const STRONG: set<BidiClass> := {LeftToRight, RightToLeft, ArabicLetter}

  /** The classes that count as R beside a neutral. */
  const RIGHTWARD: set<BidiClass> := {RightToLeft, EuropeanNumber, ArabicNumber}

  /** The stretch `[lo, hi)` holds the skipped classes only, and reaches as far as they do. */
  ghost predicate IsStretch(t: seq<BidiClass>, lo: nat, hi: nat, skipped: set<BidiClass>) {
    && lo <= hi <= |t|
    && (forall k :: lo <= k < hi ==> t[k] in skipped)
    && (lo > 0 ==> t[lo - 1] !in skipped)
    && (hi < |t| ==> t[hi] !in skipped)
  }

  /** The last of the classes `stops` before place `i` stands directly before `lo`, or there is none and `lo` is 0. */
  ghost predicate IsLastBefore(t: seq<BidiClass>, lo: nat, i: nat, stops: set<BidiClass>) {
    && lo <= i <= |t|
    && (forall k :: lo <= k < i ==> t[k] !in stops)
    && (lo > 0 ==> t[lo - 1] in stops)
  }

  /** The class before place `lo`, or the start of the sequence. */
  function Before(t: seq<BidiClass>, lo: nat, sos: BidiClass): BidiClass
    requires lo <= |t|
  {
    if lo == 0 then sos else t[lo - 1]
  }

  function After(t: seq<BidiClass>, hi: nat, eos: BidiClass): BidiClass
    requires hi <= |t|
  {
    if hi == |t| then eos else t[hi]
  }

  /** From anywhere in a stretch, the nearest other class is the one at its end. */
  lemma {:induction false} StretchSees(
    t: seq<BidiClass>, lo: nat, hi: nat, skip: BidiClass -> bool, skipped: set<BidiClass>, i: nat)
    requires IsStretch(t, lo, hi, skipped) && lo <= i <= hi && forall c: BidiClass :: skip(c) <==> c in skipped
    ensures Back(t, i, skip) == if lo == 0 then None else Some(t[lo - 1])
    ensures Ahead(t, i, skip) == if hi == |t| then None else Some(t[hi])
  {
    BackSkips(t, lo, i, skip);
    AheadSkips(t, i, hi, skip);
  }

  lemma LastSees(t: seq<BidiClass>, lo: nat, i: nat, skip: BidiClass -> bool, stops: set<BidiClass>)
    requires IsLastBefore(t, lo, i, stops) && forall c: BidiClass :: skip(c) <==> c !in stops
    ensures Back(t, i, skip) == if lo == 0 then None else Some(t[lo - 1])
  {
    BackSkips(t, lo, i, skip);
  }

  // ---- each rule by itself -------------------------------------------------------------------------

  /** W1: the marks of a stretch take the class before the stretch. */
  lemma {:induction false} MarksTakeClassBefore(t: seq<BidiClass>, b: Borders, lo: nat, hi: nat, i: nat)
    requires IsStretch(t, lo, hi, {NonspacingMark} + REMOVED) && lo <= i < hi
    ensures Apply(W1, t, b)[i] == if t[i].NonspacingMark? then Before(t, lo, b.sos) else t[i]
  {
    StretchSees(t, lo, hi, MarkOrRemoved, {NonspacingMark} + REMOVED, i);
  }

  /** W2 and W7: a European number follows the last strong type before it, or the start of the sequence. */
  lemma {:induction false} NumbersFollowStrongType(t: seq<BidiClass>, b: Borders, lo: nat, i: nat)
    requires i < |t| && t[i].EuropeanNumber?
    ensures IsLastBefore(t, lo, i, STRONG) ==>
      Apply(W2, t, b)[i] == if Before(t, lo, b.sos).ArabicLetter? then ArabicNumber else EuropeanNumber
    ensures IsLastBefore(t, lo, i, {LeftToRight, RightToLeft}) ==>
      Apply(W7, t, b)[i] == if Before(t, lo, b.sos).LeftToRight? then LeftToRight else EuropeanNumber
  {
    if IsLastBefore(t, lo, i, STRONG) {
      LastSees(t, lo, i, NotStrong, STRONG);
    }
    if IsLastBefore(t, lo, i, {LeftToRight, RightToLeft}) {
      LastSees(t, lo, i, NotDirectional, {LeftToRight, RightToLeft});
    }
  }

  /**
    * W4: with only removed characters between, a separator joins the numbers at its two sides exactly if both are of
    * one kind it may join; at the border of a sequence there is no number to join.
    */
  lemma {:induction false} SeparatorJoinsEqualNumbers(t: seq<BidiClass>, b: Borders, lo: nat, i: nat, hi: nat)
    requires b.Valid() && lo <= i < hi <= |t| && IsStretch(t, lo, i, REMOVED) && IsStretch(t, i + 1, hi, REMOVED)
    requires t[i].EuropeanSeparator? || t[i].CommonSeparator?
    ensures var left, right := Before(t, lo, b.sos), After(t, hi, b.eos);
      Apply(W4, t, b)[i] ==
        if left.EuropeanNumber? && right.EuropeanNumber? then EuropeanNumber
        else if t[i].CommonSeparator? && left.ArabicNumber? && right.ArabicNumber? then ArabicNumber
        else t[i]
    ensures lo == 0 || hi == |t| ==> Apply(W4, t, b)[i] == t[i]
  {
    StretchSees(t, lo, i, Removed, REMOVED, i);
    StretchSees(t, i + 1, hi, Removed, REMOVED, i + 1);
  }

  lemma AfterOne(t: seq<BidiClass>, lo: nat, hi: nat, skipped: set<BidiClass>, i: nat)
    requires IsStretch(t, lo, hi, skipped) && lo <= i < hi
    ensures t[i] in skipped && lo <= i + 1 <= hi <= |t|
  {
  }

  /** W5: the terminators of a stretch all join when a European number stands at either end, and otherwise none does. */
  lemma {:induction false} TerminatorsJoinTouchingNumber(t: seq<BidiClass>, b: Borders, lo: nat, hi: nat, i: nat)
    requires IsStretch(t, lo, hi, {EuropeanTerminator} + REMOVED) && lo <= i < hi
    ensures var touches := (lo > 0 && t[lo - 1].EuropeanNumber?) || (hi < |t| && t[hi].EuropeanNumber?);
      Apply(W5, t, b)[i] == if t[i].EuropeanTerminator? && touches then EuropeanNumber else t[i]
  {
    StretchSees(t, lo, hi, TerminatorOrRemoved, {EuropeanTerminator} + REMOVED, i);
    AfterOne(t, lo, hi, {EuropeanTerminator} + REMOVED, i);
    StretchSees(t, lo, hi, TerminatorOrRemoved, {EuropeanTerminator} + REMOVED, i + 1);
  }

  /** What becomes of a neutral between `left` and `right`: their common direction, or that of the embedding. */
  function BetweenSides(left: BidiClass, right: BidiClass, level: Level): BidiClass {
    if left.LeftToRight? && right.LeftToRight? then LeftToRight
    else if left in RIGHTWARD && right in RIGHTWARD then RightToLeft
    else if level % 2 == 1 then RightToLeft
    else LeftToRight
  }

  lemma SidesAgree(left: BidiClass, right: BidiClass, level: Level)
    requires level != NO_LEVEL
    ensures BetweenSides(left, right, level) ==
      if Side(left).Some? && Side(left) == Side(right)
        then (if Side(left) == Some(Ltr) then LeftToRight else RightToLeft)
      else if level % 2 == 1 then RightToLeft else LeftToRight
  {
  }

  lemma SortsMatch(c: BidiClass)
    ensures c.IsNeutral() <==> c in NEUTRALS
    ensures c.IsRemoved() <==> c in REMOVED
    ensures c in NEUTRALS ==> c !in REMOVED
  {
  }

  lemma NeutralBetween(t: seq<BidiClass>, b: Borders, i: nat, left: BidiClass, right: BidiClass)
    requires b.Valid() && i < |t|
    requires Or(Back(t, i, NeutralOrRemoved), b.sos) == left && Or(Ahead(t, i + 1, NeutralOrRemoved), b.eos) == right
    ensures Neutrals(t, b)[i] ==
      if !t[i].IsNeutral() then t[i]
      else if Side(left).Some? && Side(left) == Side(right) then
        (if Side(left) == Some(Ltr) then LeftToRight else RightToLeft)
      else if b.level % 2 == 1 then RightToLeft else LeftToRight
  {
    hide Back, Ahead, NeutralOrRemoved, Side;
    assert Apply(N1, t, b)[i] == N1At(t, b.sos, b.eos, i);
  }

  lemma SkipsBlock()
    ensures forall c: BidiClass :: NeutralOrRemoved(c) <==> c in NEUTRALS + REMOVED
  {
    forall c: BidiClass
      ensures NeutralOrRemoved(c) <==> c in NEUTRALS + REMOVED
    {
      SortsMatch(c);
    }
  }

  /** What the neutral rules see from inside a block. */
  lemma BlockEnds(t: seq<BidiClass>, b: Borders, lo: nat, hi: nat, i: nat)
    requires b.Valid() && IsStretch(t, lo, hi, NEUTRALS + REMOVED) && lo <= i < hi
    ensures lo <= hi <= |t| && t[i] in NEUTRALS + REMOVED && b.level != NO_LEVEL
    ensures Or(Back(t, i, NeutralOrRemoved), b.sos) == Before(t, lo, b.sos)
    ensures Or(Ahead(t, i + 1, NeutralOrRemoved), b.eos) == After(t, hi, b.eos)
  {
    SkipsBlock();
    hide Back, Ahead, IsStretch, NeutralOrRemoved;
    AfterOne(t, lo, hi, NEUTRALS + REMOVED, i);
    StretchSees(t, lo, hi, NeutralOrRemoved, NEUTRALS + REMOVED, i);
    StretchSees(t, lo, hi, NeutralOrRemoved, NEUTRALS + REMOVED, i + 1);
  }

  /**
    * N1, then N2: the neutrals of a block take the direction of its two neighbours, or of the ends of the sequence,
    * when these agree, numbers counting as R, and otherwise the embedding direction.
    */
  lemma {:induction false} BlocksTakeCommonSide(t: seq<BidiClass>, b: Borders, lo: nat, hi: nat, i: nat)
    requires b.Valid() && IsStretch(t, lo, hi, NEUTRALS + REMOVED) && lo <= i < hi
    ensures Neutrals(t, b)[i] ==
      if t[i] in REMOVED then t[i] else BetweenSides(Before(t, lo, b.sos), After(t, hi, b.eos), b.level)
  {
    hide *;
    BlockEnds(t, b, lo, hi, i);
    var left, right := Before(t, lo, b.sos), After(t, hi, b.eos);
    SidesAgree(left, right, b.level);
    SortsMatch(t[i]);
    NeutralBetween(t, b, i, left, right);
  }

  /** N1 and N2 change neutrals only. */
  lemma {:induction false} OthersStay(t: seq<BidiClass>, b: Borders, i: nat)
    requires i < |t| && t[i] !in NEUTRALS
    ensures Neutrals(t, b)[i] == t[i]
  {
    hide Back, Ahead;
    assert Apply(N1, t, b)[i] == t[i];
  }
}
