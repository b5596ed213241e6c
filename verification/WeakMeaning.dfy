/** What rules W1 to W7 make of a sequence together, in the words of UAX #9 (section 3.3.4). */
module WeakMeanings {
  import opened Wrappers
  import opened BidiTypes
  import opened ChainRules
  import opened Resolution
  import opened RuleMeanings

  function AfterW1(t: seq<BidiClass>, b: Borders): (r: seq<BidiClass>)
    ensures |r| == |t|
  {
    Apply(W1, t, b)
  }

  function AfterW3(t: seq<BidiClass>, b: Borders): (r: seq<BidiClass>)
    ensures |r| == |t|
  {
    Apply(W3, Apply(W2, AfterW1(t, b), b), b)
  }

  function AfterW4(t: seq<BidiClass>, b: Borders): (r: seq<BidiClass>)
    ensures |r| == |t|
  {
    Apply(W4, AfterW3(t, b), b)
  }

  function AfterW6(t: seq<BidiClass>, b: Borders): (r: seq<BidiClass>)
    ensures |r| == |t|
  {
    Apply(W6, Apply(W5, AfterW4(t, b), b), b)
  }

  lemma WeakIs(t: seq<BidiClass>, b: Borders)
    ensures Weak(t, b) == Apply(W7, AfterW6(t, b), b)
  {
    hide Apply;
  }

  // ---- place by place ----------------------------------------------------------------------------

  /** What rules W2 and W3 leave of a class. */
  predicate ByW3(c: BidiClass, d: BidiClass) {
    if c.ArabicLetter? then d.RightToLeft?
    else if c.EuropeanNumber? then d.EuropeanNumber? || d.ArabicNumber?
    else d == c
  }

  lemma W3Leaves(t: seq<BidiClass>, b: Borders, k: nat)
    requires k < |t|
    ensures ByW3(AfterW1(t, b)[k], AfterW3(t, b)[k])
  {
    var u := AfterW1(t, b);
    hide Back, AfterW1;
    assert Apply(W2, u, b)[k] == W2At(u, b.sos, k);
  }

  /** What rules W4 to W6 leave of a class. */
  predicate ByW6(c: BidiClass, d: BidiClass) {
    if c.EuropeanSeparator? || c.CommonSeparator? || c.EuropeanTerminator?
    then d.EuropeanNumber? || d.ArabicNumber? || d.OtherNeutral?
    else d == c
  }

  lemma W4Leaves(t: seq<BidiClass>, b: Borders, k: nat)
    requires k < |t|
    ensures var c, d := AfterW3(t, b)[k], AfterW4(t, b)[k];
      d == c || (c.EuropeanSeparator? && d.EuropeanNumber?)
        || (c.CommonSeparator? && (d.EuropeanNumber? || d.ArabicNumber?))
  {
    var u := AfterW3(t, b);
    hide AfterW3, Between;
    assert Apply(W4, u, b)[k] == W4At(u, k);
  }

  lemma W6Leaves(t: seq<BidiClass>, b: Borders, k: nat)
    requires k < |t|
    ensures ByW6(AfterW3(t, b)[k], AfterW6(t, b)[k])
  {
    W4Leaves(t, b, k);
    var u := AfterW4(t, b);
    hide AfterW3, AfterW4, Back, Ahead;
    assert Apply(W5, u, b)[k] == W5At(u, k);
  }

  /** A number or a neutral that rule W5 has left is not changed by rule W6. */
  lemma W6Keeps(t: seq<BidiClass>, b: Borders, k: nat)
    requires k < |t|
    ensures var c := Apply(W5, AfterW4(t, b), b)[k];
      AfterW6(t, b)[k] ==
        if c.EuropeanSeparator? || c.CommonSeparator? || c.EuropeanTerminator? then OtherNeutral else c
  {
    hide AfterW4, Back, Ahead;
    assert Apply(W6, Apply(W5, AfterW4(t, b), b), b)[k] == W6At(Apply(W5, AfterW4(t, b), b), k);
  }

  // ---- the last strong type ------------------------------------------------------------------------

  /** The strong type `c` is `d` after rule W3, and stays one. */
  predicate IsCarried(c: BidiClass, d: BidiClass) {
    && (c in STRONG <==> d.LeftToRight? || d.RightToLeft?)
    && (c.LeftToRight? <==> d.LeftToRight?)
  }

  lemma PlaceIsCarried(t: seq<BidiClass>, b: Borders, k: nat)
    requires k < |t|
    ensures IsCarried(AfterW1(t, b)[k], AfterW6(t, b)[k])
  {
    hide AfterW1, AfterW3, AfterW6;
    W3Leaves(t, b, k);
    W6Leaves(t, b, k);
  }

  /** The last strong type before a place is still the last one after rule W6. */
  lemma StrongIsCarried(t: seq<BidiClass>, b: Borders, lo: nat, i: nat)
    requires IsLastBefore(AfterW1(t, b), lo, i, STRONG)
    ensures IsLastBefore(AfterW6(t, b), lo, i, {LeftToRight, RightToLeft})
    ensures Before(AfterW1(t, b), lo, b.sos).LeftToRight? <==> Before(AfterW6(t, b), lo, b.sos).LeftToRight?
  {
    hide AfterW1, AfterW6;
    forall k | 0 <= k < |t|
      ensures IsCarried(AfterW1(t, b)[k], AfterW6(t, b)[k])
    {
      PlaceIsCarried(t, b, k);
    }
  }

  /** What a European number becomes behind the last strong type `x`. */
  function NumberAfter(x: BidiClass): BidiClass {
    if x.ArabicLetter? then ArabicNumber else if x.LeftToRight? then LeftToRight else EuropeanNumber
  }

  lemma W7Ends(t: seq<BidiClass>, b: Borders, lo: nat, i: nat)
    requires i < |t| && IsLastBefore(AfterW1(t, b), lo, i, STRONG)
    ensures Weak(t, b)[i] ==
      if !AfterW6(t, b)[i].EuropeanNumber? then AfterW6(t, b)[i]
      else if Before(AfterW1(t, b), lo, b.sos).LeftToRight? then LeftToRight
      else EuropeanNumber
  {
    WeakIs(t, b);
    StrongIsCarried(t, b, lo, i);
    var u := AfterW6(t, b);
    hide AfterW1, AfterW6, Weak, IsLastBefore;
    if u[i].EuropeanNumber? {
      NumbersFollowStrongType(u, b, lo, i);
    } else {
      assert Apply(W7, u, b)[i] == W7At(u, b.sos, i);
    }
  }

  // ---- W1 to W7 together ---------------------------------------------------------------------------

  lemma NumberByW3(t: seq<BidiClass>, b: Borders, lo: nat, i: nat)
    requires i < |t| && IsLastBefore(AfterW1(t, b), lo, i, STRONG) && AfterW1(t, b)[i].EuropeanNumber?
    ensures AfterW3(t, b)[i] ==
      if Before(AfterW1(t, b), lo, b.sos).ArabicLetter? then ArabicNumber else EuropeanNumber
  {
    var u := AfterW1(t, b);
    hide AfterW1, IsLastBefore;
    NumbersFollowStrongType(u, b, lo, i);
    assert Apply(W3, Apply(W2, u, b), b)[i] == W3At(Apply(W2, u, b), i);
  }

  /**
    * W2, W3 and W7: behind its last strong type, or the start of the sequence, a European number is AN after an Arabic
    * letter, L after an L, and itself after an R. Strong types, Arabic numbers and neutrals keep their directions.
    */
  lemma {:induction false} NumbersInTheEnd(t: seq<BidiClass>, b: Borders, lo: nat, i: nat)
    requires b.Valid() && i < |t| && IsLastBefore(AfterW1(t, b), lo, i, STRONG)
    ensures var c := AfterW1(t, b)[i];
      && (c.EuropeanNumber? ==> Weak(t, b)[i] == NumberAfter(Before(AfterW1(t, b), lo, b.sos)))
      && (c.ArabicNumber? || c.LeftToRight? || c.RightToLeft? || c in NEUTRALS || c in REMOVED ==> Weak(t, b)[i] == c)
      && (c.ArabicLetter? ==> Weak(t, b)[i] == RightToLeft)
  {
    var u := AfterW1(t, b);
    if u[i].EuropeanNumber? {
      NumberByW3(t, b, lo, i);
    }
    hide AfterW1, AfterW3, AfterW6, Weak, IsLastBefore;
    W3Leaves(t, b, i);
    W6Leaves(t, b, i);
    W7Ends(t, b, lo, i);
  }

  /**
    * A number between strong types, as rule W4 finds it: European numbers count as Arabic ones after an Arabic letter.
    */
  function NumberBy(c: BidiClass, x: BidiClass): BidiClass {
    if c.EuropeanNumber? && x.ArabicLetter? then ArabicNumber else c
  }

  lemma NeighbourByW3(t: seq<BidiClass>, b: Borders, lo: nat, i: nat, k: nat)
    requires lo <= i <= |t| && k < |t| && IsLastBefore(AfterW1(t, b), lo, i, STRONG)
    requires k + 1 >= lo && (k < i || forall h :: i <= h < k ==> AfterW1(t, b)[h] !in STRONG)
    ensures var x, c, d := Before(AfterW1(t, b), lo, b.sos), AfterW1(t, b)[k], AfterW3(t, b)[k];
      && (d.EuropeanNumber? <==> NumberBy(c, x).EuropeanNumber?)
      && (d.ArabicNumber? <==> NumberBy(c, x).ArabicNumber?)
  {
    W3Leaves(t, b, k);
    hide AfterW1, AfterW3;
    if AfterW1(t, b)[k].EuropeanNumber? {
      assert k >= lo;
      NumberByW3(t, b, lo, k);
    }
  }

  lemma SameRemovals(t: seq<BidiClass>, b: Borders, lo: nat, hi: nat)
    requires IsStretch(AfterW1(t, b), lo, hi, REMOVED)
    ensures IsStretch(AfterW3(t, b), lo, hi, REMOVED)
  {
    hide AfterW1, AfterW3;
    forall k | 0 <= k < |t|
      ensures AfterW3(t, b)[k] in REMOVED <==> AfterW1(t, b)[k] in REMOVED
    {
      W3Leaves(t, b, k);
    }
  }

  lemma SeparatorByW4(t: seq<BidiClass>, b: Borders, lo: nat, p: nat, i: nat, q: nat)
    requires b.Valid() && p <= i < q <= |t| && IsLastBefore(AfterW1(t, b), lo, i, STRONG)
    requires IsStretch(AfterW1(t, b), p, i, REMOVED) && IsStretch(AfterW1(t, b), i + 1, q, REMOVED)
    requires AfterW1(t, b)[i].EuropeanSeparator? || AfterW1(t, b)[i].CommonSeparator?
    ensures var x := Before(AfterW1(t, b), lo, b.sos);
      var left := NumberBy(Before(AfterW1(t, b), p, b.sos), x);
      var right := NumberBy(After(AfterW1(t, b), q, b.eos), x);
      AfterW4(t, b)[i] ==
        if left.EuropeanNumber? && right.EuropeanNumber? then EuropeanNumber
        else if AfterW1(t, b)[i].CommonSeparator? && left.ArabicNumber? && right.ArabicNumber? then ArabicNumber
        else AfterW1(t, b)[i]
  {
    hide AfterW1, AfterW3;
    var u := AfterW1(t, b);
    assert lo == 0 || u[lo - 1] in STRONG;
    W3Leaves(t, b, i);
    SameRemovals(t, b, p, i);
    SameRemovals(t, b, i + 1, q);
    if p > 0 {
      NeighbourByW3(t, b, lo, i, p - 1);
    }
    if q < |t| {
      NeighbourByW3(t, b, lo, i, q);
    }
    hide IsStretch, IsLastBefore;
    SeparatorJoinsEqualNumbers(AfterW3(t, b), b, p, i, q);
  }

  lemma NotTerminator(t: seq<BidiClass>, b: Borders, i: nat)
    requires i < |t| && !AfterW4(t, b)[i].EuropeanTerminator?
    ensures Apply(W5, AfterW4(t, b), b)[i] == AfterW4(t, b)[i]
  {
    var u := AfterW4(t, b);
    hide AfterW4, Back, Ahead;
    assert Apply(W5, u, b)[i] == W5At(u, i);
  }

  /**
    * W4 and W6: a separator between two European numbers becomes what they become, one between two Arabic numbers,
      if it
    * is a common separator, joins these, and any other is ON. Behind an Arabic letter European numbers are Arabic ones.
    */
  lemma {:induction false} SeparatorsInTheEnd(t: seq<BidiClass>, b: Borders, lo: nat, p: nat, i: nat, q: nat)
    requires b.Valid() && p <= i < q <= |t| && IsLastBefore(AfterW1(t, b), lo, i, STRONG)
    requires IsStretch(AfterW1(t, b), p, i, REMOVED) && IsStretch(AfterW1(t, b), i + 1, q, REMOVED)
    requires AfterW1(t, b)[i].EuropeanSeparator? || AfterW1(t, b)[i].CommonSeparator?
    ensures var x := Before(AfterW1(t, b), lo, b.sos);
      var left := NumberBy(Before(AfterW1(t, b), p, b.sos), x);
      var right := NumberBy(After(AfterW1(t, b), q, b.eos), x);
      Weak(t, b)[i] ==
        if left.EuropeanNumber? && right.EuropeanNumber? then NumberAfter(x)
        else if AfterW1(t, b)[i].CommonSeparator? && left.ArabicNumber? && right.ArabicNumber? then ArabicNumber
        else OtherNeutral
  {
    hide AfterW1, AfterW4, AfterW6, Weak, IsStretch, IsLastBefore;
    SeparatorByW4(t, b, lo, p, i, q);
    NotTerminator(t, b, i);
    W6Keeps(t, b, i);
    W7Ends(t, b, lo, i);
  }

  // ---- terminators -------------------------------------------------------------------------------

  const TERMINATORS: set<BidiClass> := {EuropeanTerminator} + REMOVED

  lemma TerminatorStays(t: seq<BidiClass>, b: Borders, k: nat)
    requires k < |t|
    ensures AfterW4(t, b)[k] in TERMINATORS <==> AfterW1(t, b)[k] in TERMINATORS
    ensures AfterW1(t, b)[k].EuropeanTerminator? ==>
      AfterW3(t, b)[k].EuropeanTerminator? && AfterW4(t, b)[k].EuropeanTerminator?
  {
    hide AfterW1, AfterW3, AfterW4;
    W3Leaves(t, b, k);
    W4Leaves(t, b, k);
  }

  lemma SameTerminators(t: seq<BidiClass>, b: Borders, p: nat, q: nat)
    requires IsStretch(AfterW1(t, b), p, q, TERMINATORS)
    ensures IsStretch(AfterW4(t, b), p, q, TERMINATORS)
  {
    hide AfterW1, AfterW4;
    forall k | 0 <= k < |t|
      ensures AfterW4(t, b)[k] in TERMINATORS <==> AfterW1(t, b)[k] in TERMINATORS
    {
      TerminatorStays(t, b, k);
    }
    hide TERMINATORS;
  }

  lemma {:induction false} AheadTerminator(u: seq<BidiClass>, k: nat, i: nat)
    requires k <= i < |u| && u[i].EuropeanTerminator? && forall h :: k <= h < i ==> TerminatorOrRemoved(u[h])
    ensures Ahead(u, k, Removed) == Some(EuropeanTerminator)
    decreases i - k
  {
    if k < i && u[k].IsRemoved() {
      AheadTerminator(u, k + 1, i);
    }
  }

  lemma {:induction false} BackTerminator(u: seq<BidiClass>, k: nat, i: nat)
    requires i < k <= |u| && u[i].EuropeanTerminator? && forall h :: i < h < k ==> TerminatorOrRemoved(u[h])
    ensures Back(u, k, Removed) == Some(EuropeanTerminator)
  {
    if i < k - 1 && u[k - 1].IsRemoved() {
      BackTerminator(u, k - 1, i);
    }
  }

  /** A separator beside a terminator does not join. */
  lemma SeparatorStays(t: seq<BidiClass>, b: Borders, k: nat, i: nat)
    requires b.Valid() && k < |t| && i < |t| && k != i && AfterW3(t, b)[i].EuropeanTerminator?
    requires forall h :: (k < h < i || i < h < k) ==> TerminatorOrRemoved(AfterW3(t, b)[h])
    ensures AfterW4(t, b)[k] == AfterW3(t, b)[k]
  {
    var u := AfterW3(t, b);
    hide AfterW3;
    if k < i {
      AheadTerminator(u, k + 1, i);
    } else {
      BackTerminator(u, k, i);
    }
    hide Back, Ahead;
    assert Apply(W4, u, b)[k] == W4At(u, k);
  }

  /** The class at an end of a stretch of terminators, as rule W5 finds it. */
  lemma EndByW4(t: seq<BidiClass>, b: Borders, lo: nat, p: nat, q: nat, i: nat, k: nat)
    requires b.Valid() && IsLastBefore(AfterW1(t, b), lo, i, STRONG)
    requires IsStretch(AfterW1(t, b), p, q, TERMINATORS) && p <= i < q && AfterW1(t, b)[i].EuropeanTerminator?
    requires k < |t| && (k == p - 1 || k == q)
    ensures AfterW4(t, b)[k].EuropeanNumber? <==>
      NumberBy(AfterW1(t, b)[k], Before(AfterW1(t, b), lo, b.sos)).EuropeanNumber?
  {
    hide AfterW1, AfterW3, AfterW4;
    var u := AfterW1(t, b);
    assert lo == 0 || u[lo - 1] in STRONG;
    NeighbourByW3(t, b, lo, i, k);
    forall h | p <= h < q
      ensures TerminatorOrRemoved(AfterW3(t, b)[h])
    {
      W3Leaves(t, b, h);
    }
    TerminatorStays(t, b, i);
    SeparatorStays(t, b, k, i);
  }

  /**
    * W5 and W6: the terminators of a stretch become what the European number at one of its ends becomes,
      unless that one
    * stands behind an Arabic letter; without such a number they are ON.
    */
  lemma {:induction false} TerminatorsInTheEnd(t: seq<BidiClass>, b: Borders, lo: nat, p: nat, q: nat, i: nat)
    requires b.Valid() && IsLastBefore(AfterW1(t, b), lo, i, STRONG)
    requires IsStretch(AfterW1(t, b), p, q, TERMINATORS) && p <= i < q && AfterW1(t, b)[i].EuropeanTerminator?
    ensures var u := AfterW1(t, b);
      var x := Before(u, lo, b.sos);
      var touches := (p > 0 && u[p - 1].EuropeanNumber?) || (q < |t| && u[q].EuropeanNumber?);
      Weak(t, b)[i] == if touches && !x.ArabicLetter? then NumberAfter(x) else OtherNeutral
  {
    hide AfterW1, AfterW3, AfterW4, AfterW6, Weak, IsLastBefore;
    if p > 0 {
      EndByW4(t, b, lo, p, q, i, p - 1);
    }
    if q < |t| {
      EndByW4(t, b, lo, p, q, i, q);
    }
    SameTerminators(t, b, p, q);
    TerminatorStays(t, b, i);
    hide IsStretch;
    TerminatorsJoinTouchingNumber(AfterW4(t, b), b, p, q, i);
    W6Keeps(t, b, i);
    W7Ends(t, b, lo, i);
  }
}
