/**
  * The weak and neutral type rules of UAX #9 (sections 3.3.4 and 3.3.5) on one isolating run sequence, each as a
  * simultaneous rewrite of the classes found before the rule.
  *
  * A rule looks at a character and at the nearest characters on its two sides that it does not skip: `Back` and `Ahead`
  * find them, for any set of classes to skip. `At` is what a rule makes of one place and `Apply` what it makes of all.
  * `Compact` deletes the characters that rule X9 removes, and `Rank` says where a kept character is after that; each
  * rule is proved to commute with the deletion.
  */
module ChainRules {
  import opened Wrappers
  import opened BidiTypes

  /** The nearest class left of `i` that is not skipped. */
  function Back(t: seq<BidiClass>, i: nat, skip: BidiClass -> bool): Option<BidiClass>
    requires i <= |t|
  {
    if i == 0 then None
    else if skip(t[i - 1]) then Back(t, i - 1, skip)
    else Some(t[i - 1])
  }

  /** The nearest class from `i` on that is not skipped. */
  function Ahead(t: seq<BidiClass>, i: nat, skip: BidiClass -> bool): Option<BidiClass>
    requires i <= |t|
    decreases |t| - i
  {
    if i == |t| then None
    else if skip(t[i]) then Ahead(t, i + 1, skip)
    else Some(t[i])
  }

  function Or(c: Option<BidiClass>, default: BidiClass): BidiClass {
    if c.Some? then c.value else default
  }

  // ---- what each rule skips --------------------------------------------------------------------

  predicate Removed(c: BidiClass) {
    c.IsRemoved()
  }

  predicate MarkOrRemoved(c: BidiClass) {
    c.NonspacingMark? || c.IsRemoved()
  }

  predicate TerminatorOrRemoved(c: BidiClass) {
    c.EuropeanTerminator? || c.IsRemoved()
  }

  predicate NotStrong(c: BidiClass) {
    !(c.LeftToRight? || c.RightToLeft? || c.ArabicLetter?)
  }

  predicate NotDirectional(c: BidiClass) {
    !(c.LeftToRight? || c.RightToLeft?)
  }

  predicate NeutralOrRemoved(c: BidiClass) {
    c.IsNeutral() || c.IsRemoved()
  }

  // ---- weak types ------------------------------------------------------------------------------

  /** A nonspacing mark takes the class of the character before it. */
  function W1At(t: seq<BidiClass>, sos: BidiClass, i: nat): BidiClass
    requires i < |t|
  {
    if t[i].NonspacingMark? then Or(Back(t, i, MarkOrRemoved), sos) else t[i]
  }

  /** A European number after an Arabic letter, with no strong type between, is an Arabic number. */
  function W2At(t: seq<BidiClass>, sos: BidiClass, i: nat): BidiClass
    requires i < |t|
  {
    if t[i].EuropeanNumber? && Or(Back(t, i, NotStrong), sos).ArabicLetter? then ArabicNumber else t[i]
  }

  function W3At(t: seq<BidiClass>, i: nat): BidiClass
    requires i < |t|
  {
    if t[i].ArabicLetter? then RightToLeft else t[i]
  }

  predicate Between(t: seq<BidiClass>, i: nat, c: BidiClass)
    requires i < |t|
  {
    Back(t, i, Removed) == Some(c) && Ahead(t, i + 1, Removed) == Some(c)
  }

  /** A single separator between two numbers of one kind joins them. */
  function W4At(t: seq<BidiClass>, i: nat): BidiClass
    requires i < |t|
  {
    if (t[i].EuropeanSeparator? || t[i].CommonSeparator?) && Between(t, i, EuropeanNumber) then EuropeanNumber
    else if t[i].CommonSeparator? && Between(t, i, ArabicNumber) then ArabicNumber
    else t[i]
  }

  /** A terminator in a stretch of terminators that touches a European number joins it. */
  function W5At(t: seq<BidiClass>, i: nat): BidiClass
    requires i < |t|
  {
    if t[i].EuropeanTerminator? &&
       (Back(t, i, TerminatorOrRemoved) == Some(EuropeanNumber) ||
         Ahead(t, i + 1, TerminatorOrRemoved) == Some(EuropeanNumber))
    then EuropeanNumber else t[i]
  }

  function W6At(t: seq<BidiClass>, i: nat): BidiClass
    requires i < |t|
  {
    if t[i].EuropeanSeparator? || t[i].CommonSeparator? || t[i].EuropeanTerminator? then OtherNeutral else t[i]
  }

  /** A European number whose last strong type is L is L. */
  function W7At(t: seq<BidiClass>, sos: BidiClass, i: nat): BidiClass
    requires i < |t|
  {
    if t[i].EuropeanNumber? && Or(Back(t, i, NotDirectional), sos).LeftToRight? then LeftToRight else t[i]
  }

  // ---- neutral types ---------------------------------------------------------------------------

  /** The direction a class lends to the neutrals beside it: numbers count as R. */
  function Side(c: BidiClass): Option<Direction> {
    match c
    case LeftToRight => Some(Ltr)
    case RightToLeft => Some(Rtl)
    case EuropeanNumber => Some(Rtl)
    case ArabicNumber => Some(Rtl)
    case _ => None
  }

  function BackSide(t: seq<BidiClass>, sos: BidiClass, i: nat): Option<Direction>
    requires i <= |t|
  {
    Side(Or(Back(t, i, NeutralOrRemoved), sos))
  }

  function AheadSide(t: seq<BidiClass>, eos: BidiClass, i: nat): Option<Direction>
    requires i <= |t|
  {
    Side(Or(Ahead(t, i, NeutralOrRemoved), eos))
  }

  /** A block of neutrals takes the direction of its two sides if they agree. */
  function N1At(t: seq<BidiClass>, sos: BidiClass, eos: BidiClass, i: nat): BidiClass
    requires i < |t|
  {
    var side := BackSide(t, sos, i);
    if t[i].IsNeutral() && side.Some? && side == AheadSide(t, eos, i + 1) then side.value.AsBidiClass() else t[i]
  }

  /** Any other neutral takes the embedding direction. */
  function N2At(t: seq<BidiClass>, level: Level, i: nat): BidiClass
    requires i < |t|
  {
    if t[i].IsNeutral() then LevelClass(level) else t[i]
  }

  // ---- whole sequences -------------------------------------------------------------------------

  datatype Rule = W1 | W2 | W3 | W4 | W5 | W6 | W7 | N1 | N2

  /** What a rule needs to know of a sequence. */
  datatype Borders = Borders(sos: BidiClass, eos: BidiClass, level: Level) {
    predicate Valid() {
      !NotDirectional(sos) && !NotDirectional(eos) && level != NO_LEVEL
    }
  }

  function At(rule: Rule, t: seq<BidiClass>, b: Borders, i: nat): BidiClass
    requires i < |t|
  {
    match rule
    case W1 => W1At(t, b.sos, i)
    case W2 => W2At(t, b.sos, i)
    case W3 => W3At(t, i)
    case W4 => W4At(t, i)
    case W5 => W5At(t, i)
    case W6 => W6At(t, i)
    case W7 => W7At(t, b.sos, i)
    case N1 => N1At(t, b.sos, b.eos, i)
    case N2 => N2At(t, b.level, i)
  }

  /** The rule, applied to all characters of a sequence at once. */
  function Apply(rule: Rule, t: seq<BidiClass>, b: Borders): (r: seq<BidiClass>)
    ensures |r| == |t| && forall i :: 0 <= i < |t| ==> r[i] == At(rule, t, b, i)
  {
    seq(|t|, i requires 0 <= i < |t| => At(rule, t, b, i))
  }

  // ---- deleting what X9 removed ------------------------------------------------------------------

  /** The elements of `x` at the places where `t` keeps its character. */
  function Compact<T>(t: seq<BidiClass>, x: seq<T>): (r: seq<T>)
    requires |t| == |x|
    ensures |r| <= |x|
  {
    if t == [] then []
    else
      var n := |t| - 1;
      Compact(t[..n], x[..n]) + if t[n].IsRemoved() then [] else [x[n]]
  }

  function Deleted(t: seq<BidiClass>): seq<BidiClass> {
    Compact(t, t)
  }

  /** The place that character `i` has after the deletion. */
  function Rank(t: seq<BidiClass>, i: nat): (r: nat)
    requires i <= |t|
    ensures r <= i
  {
    if i == 0 then 0 else Rank(t, i - 1) + if t[i - 1].IsRemoved() then 0 else 1
  }

  lemma {:induction false} RankPrefix(t: seq<BidiClass>, n: nat, i: nat)
    requires i <= n <= |t|
    ensures Rank(t[..n], i) == Rank(t, i)
  {
    if i > 0 {
      RankPrefix(t, n, i - 1);
    }
  }

  lemma {:induction false} CompactLength<T>(t: seq<BidiClass>, x: seq<T>)
    requires |t| == |x|
    ensures |Compact(t, x)| == Rank(t, |t|)
  {
    if t != [] {
      var n := |t| - 1;
      CompactLength(t[..n], x[..n]);
      RankPrefix(t, n, n);
    }
  }

  lemma {:induction false} RankGrows(t: seq<BidiClass>, i: nat, n: nat)
    requires i <= n <= |t|
    ensures Rank(t, i) <= Rank(t, n)
    ensures i < n && !t[i].IsRemoved() ==> Rank(t, i) < Rank(t, n)
  {
    if i < n {
      RankGrows(t, i, n - 1);
    }
  }

  lemma {:induction false} CompactAt<T>(t: seq<BidiClass>, x: seq<T>, i: nat)
    requires i < |t| == |x| && !t[i].IsRemoved()
    ensures Rank(t, i) < |Compact(t, x)| && Compact(t, x)[Rank(t, i)] == x[i]
  {
    var n := |t| - 1;
    CompactLength(t[..n], x[..n]);
    RankPrefix(t, n, n);
    if i < n {
      CompactAt(t[..n], x[..n], i);
      RankPrefix(t, n, i);
    }
  }

  lemma KeptRank<T>(t: seq<BidiClass>, x: seq<T>, i: nat)
    requires i < |t| == |x| && !t[i].IsRemoved()
    ensures Rank(t, i + 1) == Rank(t, i) + 1 && Rank(t, i) < |Deleted(t)| == |Compact(t, x)|
    ensures Deleted(t)[Rank(t, i)] == t[i] && Compact(t, x)[Rank(t, i)] == x[i]
  {
    CompactLength(t, t);
    CompactLength(t, x);
    CompactAt(t, t, i);
    CompactAt(t, x, i);
  }

  /** Every place after the deletion is the place of a kept character. */
  lemma {:induction false} RankOnto(t: seq<BidiClass>, n: nat, c: nat) returns (i: nat)
    requires n <= |t| && c < Rank(t, n)
    ensures i < n && !t[i].IsRemoved() && Rank(t, i) == c
  {
    if !t[n - 1].IsRemoved() && Rank(t, n - 1) == c {
      i := n - 1;
    } else {
      i := RankOnto(t, n - 1, c);
    }
  }

  lemma {:induction false} SamePattern(t: seq<BidiClass>, u: seq<BidiClass>, i: nat)
    requires i <= |t| == |u| && forall k :: 0 <= k < i ==> (t[k].IsRemoved() <==> u[k].IsRemoved())
    ensures Rank(t, i) == Rank(u, i)
  {
    if i > 0 {
      SamePattern(t, u, i - 1);
    }
  }

  lemma {:induction false} BackCompacts(t: seq<BidiClass>, i: nat, skip: BidiClass -> bool)
    requires i <= |t| && forall c: BidiClass :: c.IsRemoved() ==> skip(c)
    ensures Rank(t, i) <= |Deleted(t)|
    ensures Back(Deleted(t), Rank(t, i), skip) == Back(t, i, skip)
  {
    CompactLength(t, t);
    RankGrows(t, i, |t|);
    if i > 0 {
      BackCompacts(t, i - 1, skip);
      if !t[i - 1].IsRemoved() {
        CompactAt(t, t, i - 1);
      }
    }
  }

  lemma {:induction false} AheadCompacts(t: seq<BidiClass>, i: nat, skip: BidiClass -> bool)
    requires i <= |t| && forall c: BidiClass :: c.IsRemoved() ==> skip(c)
    ensures Rank(t, i) <= |Deleted(t)|
    ensures Ahead(Deleted(t), Rank(t, i), skip) == Ahead(t, i, skip)
    decreases |t| - i
  {
    CompactLength(t, t);
    RankGrows(t, i, |t|);
    if i < |t| {
      AheadCompacts(t, i + 1, skip);
      if !t[i].IsRemoved() {
        CompactAt(t, t, i);
      }
    }
  }

  /** What stands beside a kept character is the same before and after the deletion. */
  lemma SidesCompact(t: seq<BidiClass>, i: nat, skip: BidiClass -> bool)
    requires i < |t| && !t[i].IsRemoved() && forall c: BidiClass :: c.IsRemoved() ==> skip(c)
    ensures Rank(t, i) < |Deleted(t)| && Deleted(t)[Rank(t, i)] == t[i]
    ensures Back(Deleted(t), Rank(t, i), skip) == Back(t, i, skip)
    ensures Ahead(Deleted(t), Rank(t, i) + 1, skip) == Ahead(t, i + 1, skip)
  {
    hide Back, Ahead, Rank, Deleted, Compact;
    KeptRank(t, t, i);
    BackCompacts(t, i, skip);
    AheadCompacts(t, i + 1, skip);
  }

  /** A rule treats a kept character as if the removed ones were not there. */
  lemma AtCompacts(rule: Rule, t: seq<BidiClass>, b: Borders, i: nat)
    requires i < |t| && !t[i].IsRemoved()
    ensures Rank(t, i) < |Deleted(t)|
    ensures At(rule, Deleted(t), b, Rank(t, i)) == At(rule, t, b, i)
  {
    hide Rank, Deleted, Back, Ahead;
    SidesCompact(t, i, Removed);
    match rule
    case W1 => SidesCompact(t, i, MarkOrRemoved);
    case W2 => SidesCompact(t, i, NotStrong);
    case W3 =>
    case W4 =>
    case W5 => SidesCompact(t, i, TerminatorOrRemoved);
    case W6 =>
    case W7 => SidesCompact(t, i, NotDirectional);
    case N1 => SidesCompact(t, i, NeutralOrRemoved);
    case N2 =>
  }

  ghost predicate SameRemoved(t: seq<BidiClass>, u: seq<BidiClass>) {
    |t| == |u| && forall a :: 0 <= a < |t| ==> (t[a].IsRemoved() <==> u[a].IsRemoved())
  }

  lemma {:induction false} BackIsNotSkipped(t: seq<BidiClass>, i: nat, skip: BidiClass -> bool)
    requires i <= |t|
    ensures Back(t, i, skip).Some? ==> !skip(Back(t, i, skip).value)
  {
    if i > 0 {
      BackIsNotSkipped(t, i - 1, skip);
    }
  }

  /** No rule touches, makes or unmakes a removed character. */
  lemma AtKeepsRemoved(rule: Rule, t: seq<BidiClass>, b: Borders, i: nat)
    requires i < |t| && b.Valid()
    ensures t[i].IsRemoved() ==> At(rule, t, b, i) == t[i]
    ensures At(rule, t, b, i).IsRemoved() ==> t[i].IsRemoved()
  {
    BackIsNotSkipped(t, i, MarkOrRemoved);
  }

  /**
    * Keeping the removed characters in the text, as section 5.2 of UAX #9 allows, is the same as deleting them:
    * each rule commutes with the deletion.
    */
  lemma {:induction false} RetainingEqualsDeleting(rule: Rule, t: seq<BidiClass>, b: Borders)
    requires b.Valid()
    ensures Deleted(Apply(rule, t, b)) == Apply(rule, Deleted(t), b)
  {
    var u := Apply(rule, t, b);
    forall i | 0 <= i < |t|
      ensures t[i].IsRemoved() <==> u[i].IsRemoved()
    {
      AtKeepsRemoved(rule, t, b, i);
    }
    CompactLength(t, t);
    CompactLength(u, u);
    SamePattern(t, u, |t|);
    forall c | 0 <= c < |Deleted(u)|
      ensures Deleted(u)[c] == Apply(rule, Deleted(t), b)[c]
    {
      var i := RankOnto(u, |u|, c);
      CompactAt(u, u, i);
      SamePattern(t, u, i);
      AtCompacts(rule, t, b, i);
    }
  }

  // ---- blocks of neutrals --------------------------------------------------------------------------

  lemma {:induction false} BackSkips(t: seq<BidiClass>, i: nat, j: nat, skip: BidiClass -> bool)
    requires i <= j <= |t| && forall k :: i <= k < j ==> skip(t[k])
    ensures Back(t, j, skip) == Back(t, i, skip)
  {
    if i < j {
      BackSkips(t, i, j - 1, skip);
    }
  }

  lemma {:induction false} AheadSkips(t: seq<BidiClass>, i: nat, j: nat, skip: BidiClass -> bool)
    requires i <= j <= |t| && forall k :: i <= k < j ==> skip(t[k])
    ensures Ahead(t, i, skip) == Ahead(t, j, skip)
    decreases j - i
  {
    if i < j {
      AheadSkips(t, i + 1, j, skip);
    }
  }

  // ---- the classes that are left -------------------------------------------------------------------

  predicate IsResolved(c: BidiClass) {
    c.LeftToRight? || c.RightToLeft? || c.EuropeanNumber? || c.ArabicNumber?
  }
}
