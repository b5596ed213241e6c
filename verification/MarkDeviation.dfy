/** Rule W1 behind isolate controls: where the code departs from UAX #9 (section 3.3.4), and why the result does not. */
module MarkDeviation {
  import opened Wrappers
  import opened BidiTypes
  import opened ChainRules
  import opened Brackets
  import opened BracketRules
  import opened Resolution

  /** Rule W1 as UAX #9 states it: behind an isolate initiator or a PDI, a mark is ON. */
  function StandardW1(t: seq<BidiClass>, b: Borders): (r: seq<BidiClass>)
    ensures |r| == |t|
    ensures forall i :: 0 <= i < |t| ==>
      r[i] == if t[i].NonspacingMark? && W1At(t, b.sos, i).IsIsoControl() then OtherNeutral else W1At(t, b.sos, i)
  {
    seq(|t|, i requires 0 <= i < |t| =>
      if t[i].NonspacingMark? && W1At(t, b.sos, i).IsIsoControl() then OtherNeutral else W1At(t, b.sos, i))
  }

  function StandardWeak(t: seq<BidiClass>, b: Borders): (r: seq<BidiClass>)
    ensures |r| == |t|
  {
    Apply(W7, Apply(W6, Apply(W5, Apply(W4, Apply(W3, Apply(W2, StandardW1(t, b), b), b), b), b), b), b)
  }

  /** `Rules`, with the standard's rule W1. */
  function StandardRules(
    t: seq<BidiClass>, orig: seq<BidiClass>, chars: seq<char>, lookup: Lookup, b: Borders,
    brackets: bool): (r: seq<BidiClass>)
    requires brackets ==> |t| == |orig| == |chars|
    ensures |r| == |t|
  {
    var weak := StandardWeak(t, b);
    var paired := if brackets then N0(weak, orig, chars, lookup, b) else None;
    Neutrals(if paired.Some? then paired.value else weak, b)
  }

  // ---- the deviation -----------------------------------------------------------------------------

  ghost predicate LeadsTo(t: seq<BidiClass>, h: nat, i: nat) {
    h < i < |t| && t[h].IsIsoControl() && forall k :: h < k < i ==> MarkOrRemoved(t[k])
  }

  /** Between an isolate control and the mark at `i` stand only marks and removed characters. */
  ghost predicate IsMarkBehindControl(t: seq<BidiClass>, i: nat) {
    i < |t| && t[i].NonspacingMark? && exists h :: 0 <= h < i && LeadsTo(t, h, i)
  }

  lemma {:induction false} BackFinds(t: seq<BidiClass>, i: nat) returns (h: nat)
    requires i <= |t| && Back(t, i, MarkOrRemoved).Some?
    ensures h < i && Back(t, i, MarkOrRemoved).value == t[h] && forall k :: h < k < i ==> MarkOrRemoved(t[k])
  {
    if MarkOrRemoved(t[i - 1]) {
      h := BackFinds(t, i - 1);
    } else {
      h := i - 1;
    }
  }

  lemma SeesControl(t: seq<BidiClass>, b: Borders, i: nat)
    requires b.Valid() && i < |t| && t[i].NonspacingMark?
    ensures W1At(t, b.sos, i).IsIsoControl() <==> IsMarkBehindControl(t, i)
  {
    if Back(t, i, MarkOrRemoved).Some? {
      var h := BackFinds(t, i);
      assert t[h].IsIsoControl() ==> LeadsTo(t, h, i);
    }
    if IsMarkBehindControl(t, i) {
      var h :| 0 <= h < i && LeadsTo(t, h, i);
      BackSkips(t, h + 1, i, MarkOrRemoved);
    }
  }

  lemma OnlyMarks(t: seq<BidiClass>, i: nat)
    requires i < |t| && !t[i].NonspacingMark?
    ensures !IsMarkBehindControl(t, i)
  {
  }

  /** The code's rule W1 differs from the standard's exactly on the sequences with a mark behind an isolate control. */
  lemma {:induction false} W1Deviates(t: seq<BidiClass>, b: Borders)
    requires b.Valid()
    ensures Apply(W1, t, b) != StandardW1(t, b) <==> exists i :: 0 <= i < |t| && IsMarkBehindControl(t, i)
  {
    hide IsMarkBehindControl, Back;
    forall i | 0 <= i < |t|
      ensures Apply(W1, t, b)[i] != StandardW1(t, b)[i] <==> IsMarkBehindControl(t, i)
    {
      if t[i].NonspacingMark? {
        SeesControl(t, b, i);
      } else {
        OnlyMarks(t, i);
      }
    }
  }

  // ---- it does not matter ------------------------------------------------------------------------

  predicate AlikeAt(c: BidiClass, d: BidiClass) {
    c == d || (c.IsIsoControl() && d.OtherNeutral?)
  }

  /** The same classes, but for marks that may be an isolate control in `t` and ON in `u`. */
  ghost predicate Alike(t: seq<BidiClass>, u: seq<BidiClass>, start: seq<BidiClass>) {
    && |t| == |u| == |start|
    && forall k :: 0 <= k < |t| ==> AlikeAt(t[k], u[k]) && (t[k] == u[k] || start[k].NonspacingMark?)
  }

  /** Isolate controls are skipped if and only if ON is. */
  ghost predicate IsBlind(skip: BidiClass -> bool) {
    forall c: BidiClass :: c.IsIsoControl() ==> skip(c) == skip(OtherNeutral)
  }

  predicate AlikeOption(c: Option<BidiClass>, d: Option<BidiClass>) {
    if c.None? then d.None? else d.Some? && AlikeAt(c.value, d.value)
  }

  lemma {:induction false} BackAlike(
    t: seq<BidiClass>, u: seq<BidiClass>, start: seq<BidiClass>, i: nat, skip: BidiClass -> bool)
    requires Alike(t, u, start) && IsBlind(skip) && i <= |t|
    ensures AlikeOption(Back(t, i, skip), Back(u, i, skip))
  {
    if i > 0 {
      BackAlike(t, u, start, i - 1, skip);
    }
  }

  lemma {:induction false} AheadAlike(
    t: seq<BidiClass>, u: seq<BidiClass>, start: seq<BidiClass>, i: nat, skip: BidiClass -> bool)
    requires Alike(t, u, start) && IsBlind(skip) && i <= |t|
    ensures AlikeOption(Ahead(t, i, skip), Ahead(u, i, skip))
    decreases |t| - i
  {
    if i < |t| {
      AheadAlike(t, u, start, i + 1, skip);
    }
  }

  lemma SidesAlike(t: seq<BidiClass>, u: seq<BidiClass>, start: seq<BidiClass>, i: nat, skip: BidiClass -> bool)
    requires Alike(t, u, start) && IsBlind(skip) && i < |t|
    ensures AlikeOption(Back(t, i, skip), Back(u, i, skip)) && AlikeOption(Ahead(t, i + 1, skip), Ahead(u, i + 1, skip))
  {
    BackAlike(t, u, start, i, skip);
    AheadAlike(t, u, start, i + 1, skip);
  }

  lemma W2W7Alike(t: seq<BidiClass>, u: seq<BidiClass>, start: seq<BidiClass>, sos: BidiClass, i: nat)
    requires Alike(t, u, start) && i < |t|
    ensures AlikeAt(W2At(t, sos, i), W2At(u, sos, i)) && (t[i] == u[i] ==> W2At(t, sos, i) == W2At(u, sos, i))
    ensures AlikeAt(W7At(t, sos, i), W7At(u, sos, i)) && (t[i] == u[i] ==> W7At(t, sos, i) == W7At(u, sos, i))
  {
    assert AlikeAt(t[i], u[i]);
    hide Back, Ahead, Alike;
    SidesAlike(t, u, start, i, NotStrong);
    SidesAlike(t, u, start, i, NotDirectional);
  }

  lemma W4Alike(t: seq<BidiClass>, u: seq<BidiClass>, start: seq<BidiClass>, i: nat)
    requires Alike(t, u, start) && i < |t|
    ensures AlikeAt(W4At(t, i), W4At(u, i)) && (t[i] == u[i] ==> W4At(t, i) == W4At(u, i))
  {
    assert AlikeAt(t[i], u[i]);
    hide Back, Ahead, Alike;
    SidesAlike(t, u, start, i, Removed);
  }

  lemma W5Alike(t: seq<BidiClass>, u: seq<BidiClass>, start: seq<BidiClass>, i: nat)
    requires Alike(t, u, start) && i < |t|
    ensures AlikeAt(W5At(t, i), W5At(u, i)) && (t[i] == u[i] ==> W5At(t, i) == W5At(u, i))
  {
    assert AlikeAt(t[i], u[i]);
    hide Back, Ahead, Alike;
    SidesAlike(t, u, start, i, TerminatorOrRemoved);
  }

  lemma SideAlike(c: Option<BidiClass>, d: Option<BidiClass>, default: BidiClass)
    requires AlikeOption(c, d)
    ensures Side(Or(c, default)) == Side(Or(d, default))
  {
  }

  lemma N1Alike(t: seq<BidiClass>, u: seq<BidiClass>, start: seq<BidiClass>, b: Borders, i: nat)
    requires Alike(t, u, start) && i < |t|
    ensures AlikeAt(N1At(t, b.sos, b.eos, i), N1At(u, b.sos, b.eos, i))
    ensures t[i] == u[i] ==> N1At(t, b.sos, b.eos, i) == N1At(u, b.sos, b.eos, i)
  {
    assert AlikeAt(t[i], u[i]);
    SidesAlike(t, u, start, i, NeutralOrRemoved);
    hide Back, Ahead, Alike, Side, Or, AlikeOption;
    SideAlike(Back(t, i, NeutralOrRemoved), Back(u, i, NeutralOrRemoved), b.sos);
    SideAlike(Ahead(t, i + 1, NeutralOrRemoved), Ahead(u, i + 1, NeutralOrRemoved), b.eos);
  }

  lemma AtAlike(rule: Rule, t: seq<BidiClass>, u: seq<BidiClass>, start: seq<BidiClass>, b: Borders, i: nat)
    requires Alike(t, u, start) && i < |t| && !rule.W1?
    ensures AlikeAt(At(rule, t, b, i), At(rule, u, b, i)) && (t[i] == u[i] ==> At(rule, t, b, i) == At(rule, u, b, i))
    ensures rule.N2? ==> At(rule, t, b, i) == At(rule, u, b, i)
  {
    assert AlikeAt(t[i], u[i]);
    hide W2At, W4At, W5At, W7At, N1At, Alike;
    W2W7Alike(t, u, start, b.sos, i);
    W4Alike(t, u, start, i);
    W5Alike(t, u, start, i);
    N1Alike(t, u, start, b, i);
  }

  lemma ApplyAlike(rule: Rule, t: seq<BidiClass>, u: seq<BidiClass>, start: seq<BidiClass>, b: Borders)
    requires Alike(t, u, start) && !rule.W1?
    ensures Alike(Apply(rule, t, b), Apply(rule, u, b), start)
    ensures rule.N2? ==> Apply(rule, t, b) == Apply(rule, u, b)
  {
    hide At;
    forall i | 0 <= i < |t|
      ensures AlikeAt(Apply(rule, t, b)[i], Apply(rule, u, b)[i])
      ensures t[i] == u[i] ==> Apply(rule, t, b)[i] == Apply(rule, u, b)[i]
      ensures rule.N2? ==> Apply(rule, t, b)[i] == Apply(rule, u, b)[i]
    {
      AtAlike(rule, t, u, start, b, i);
    }
  }

  lemma WeakAlike(t: seq<BidiClass>, b: Borders)
    ensures Alike(Weak(t, b), StandardWeak(t, b), t)
  {
    var t1, u1 := Apply(W1, t, b), StandardW1(t, b);
    assert Alike(t1, u1, t);
    var t2, u2 := Apply(W2, t1, b), Apply(W2, u1, b);
    var t3, u3 := Apply(W3, t2, b), Apply(W3, u2, b);
    var t4, u4 := Apply(W4, t3, b), Apply(W4, u3, b);
    var t5, u5 := Apply(W5, t4, b), Apply(W5, u4, b);
    var t6, u6 := Apply(W6, t5, b), Apply(W6, u5, b);
    hide Apply, Alike, StandardW1;
    ApplyAlike(W2, t1, u1, t, b);
    ApplyAlike(W3, t2, u2, t, b);
    ApplyAlike(W4, t3, u3, t, b);
    ApplyAlike(W5, t4, u4, t, b);
    ApplyAlike(W6, t5, u5, t, b);
    ApplyAlike(W7, t6, u6, t, b);
  }

  /** The marks of the sequence are no brackets; the bracket table holds none of class NSM. */
  ghost predicate MarksAreNoBrackets(start: seq<BidiClass>, chars: seq<char>, lookup: Lookup) {
    |start| == |chars| && forall k :: 0 <= k < |start| && start[k].NonspacingMark? ==> lookup(chars[k]).None?
  }

  lemma {:induction false} MatchAlike(
    t: seq<BidiClass>, u: seq<BidiClass>, start: seq<BidiClass>, chars: seq<char>, lookup: Lookup, n: nat)
    requires Alike(t, u, start) && MarksAreNoBrackets(start, chars, lookup) && n <= |t|
    ensures Match(t, chars, lookup, n) == Match(u, chars, lookup, n)
  {
    if n > 0 {
      MatchAlike(t, u, start, chars, lookup, n - 1);
      assert t[n - 1] == u[n - 1] || lookup(chars[n - 1]).None?;
      hide Closed;
    }
  }

  lemma HasSideAlike(t: seq<BidiClass>, u: seq<BidiClass>, start: seq<BidiClass>, lo: nat, hi: nat, dir: Direction)
    requires Alike(t, u, start) && hi <= |t|
    ensures HasSide(t, lo, hi, dir) <==> HasSide(u, lo, hi, dir)
  {
    forall k | 0 <= k < |t|
      ensures Side(t[k]) == Side(u[k])
    {
      assert AlikeAt(t[k], u[k]);
    }
  }

  lemma ResolvePairAlike(
    t: seq<BidiClass>, u: seq<BidiClass>, start: seq<BidiClass>, orig: seq<BidiClass>, p: Pair, b: Borders)
    requires Alike(t, u, start) && p.opening < p.closing < |t| == |orig|
    ensures Alike(ResolvePair(t, orig, p, b), ResolvePair(u, orig, p, b), start)
  {
    var e := LevelDirection(b.level);
    HasSideAlike(t, u, start, p.opening + 1, p.closing, e);
    HasSideAlike(t, u, start, p.opening + 1, p.closing, e.Opposite());
    BackAlike(t, u, start, p.opening, NeutralOrRemoved);
    hide HasSide, Back, ChangesWith;
    assert PairDirection(t, p, b) == PairDirection(u, p, b);
    hide PairDirection;
  }

  lemma {:induction false} ResolvePairsAlike(
    t: seq<BidiClass>, u: seq<BidiClass>, start: seq<BidiClass>, orig: seq<BidiClass>, pairs: seq<Pair>, b: Borders)
    requires Alike(t, u, start) && AreIn(pairs, |t|) && |t| == |orig|
    ensures |u| == |t| && Alike(ResolvePairs(t, orig, pairs, b), ResolvePairs(u, orig, pairs, b), start)
  {
    if pairs != [] {
      var init, last := pairs[..|pairs| - 1], pairs[|pairs| - 1];
      ResolvePairsAlike(t, u, start, orig, init, b);
      ResolvePairAlike(ResolvePairs(t, orig, init, b), ResolvePairs(u, orig, init, b), start, orig, last, b);
      hide ResolvePair, Alike;
    }
  }

  lemma N0Alike(
    t: seq<BidiClass>, u: seq<BidiClass>, start: seq<BidiClass>, orig: seq<BidiClass>, chars: seq<char>, lookup: Lookup,
    b: Borders)
    requires Alike(t, u, start) && MarksAreNoBrackets(start, chars, lookup) && |t| == |orig| == |chars|
    ensures |u| == |t|
    ensures var r, s := N0(t, orig, chars, lookup, b), N0(u, orig, chars, lookup, b);
      if r.None? then s.None? else s.Some? && Alike(r.value, s.value, start)
  {
    MatchAlike(t, u, start, chars, lookup, |t|);
    var m := Match(t, chars, lookup, |t|);
    if m.Some? {
      PairsNest(t, chars, lookup, |t|);
      SortKeeps(t, m.value.pairs);
      ResolvePairsAlike(t, u, start, orig, Sort(m.value.pairs), b);
      hide Match, Sort, ResolvePairs, Nested, Alike;
    }
  }

  /** All the same, no class in the end depends on it: both forms of rule W1 lead to the same result. */
  lemma {:induction false} MarkDeviationIsHarmless(
    t: seq<BidiClass>, orig: seq<BidiClass>, chars: seq<char>, lookup: Lookup, b: Borders, brackets: bool)
    requires brackets ==> |t| == |orig| == |chars| && MarksAreNoBrackets(t, chars, lookup)
    ensures Rules(t, orig, chars, lookup, b, brackets) == StandardRules(t, orig, chars, lookup, b, brackets)
  {
    var weak, weak' := Weak(t, b), StandardWeak(t, b);
    WeakAlike(t, b);
    hide Weak, StandardWeak, N0, Alike;
    if brackets {
      N0Alike(weak, weak', t, orig, chars, lookup, b);
    }
    var paired := if brackets then N0(weak, orig, chars, lookup, b) else None;
    var paired' := if brackets then N0(weak', orig, chars, lookup, b) else None;
    var v, v' := if paired.Some? then paired.value else weak, if paired'.Some? then paired'.value else weak';
    ApplyAlike(N1, v, v', t, b);
    ApplyAlike(N2, Apply(N1, v, b), Apply(N1, v', b), t, b);
    hide Apply;
  }

  /** The shortest sequence on which the two forms of rule W1 differ: a mark directly behind an RLI. */
  lemma {:induction false} MarkBehindInitiator(b: Borders)
    requires b.Valid()
    ensures Apply(W1, [RightToLeftIsolate, NonspacingMark], b) == [RightToLeftIsolate, RightToLeftIsolate]
    ensures StandardW1([RightToLeftIsolate, NonspacingMark], b) == [RightToLeftIsolate, OtherNeutral]
  {
    var t := [RightToLeftIsolate, NonspacingMark];
    assert Back(t, 1, MarkOrRemoved) == Some(RightToLeftIsolate);
  }
}
