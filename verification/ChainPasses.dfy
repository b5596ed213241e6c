/**
  * The passes W1 to W7, N1 and N2 as the source runs them: loops that rewrite the classes in place.
  *
  * Each loop is proved equal to the simultaneous rewrite that `ChainRules` defines. `Progress` says how far a pass has
  * come along a chain. Where a loop reads classes that it has already rewritten, lemmas say why it sees the same: a
  * number that joined is still a number, a neutral that was resolved took the side that it would have passed on.
  */
module ChainPasses {
  import opened Wrappers
  import opened BidiTypes
  import opened LevelRuns
  import opened ChainRules
  import opened ChainViews

  /** A chain of the paragraph, with levels that agree with the classes on what is removed. */
  ghost predicate IsPassable(types: seq<BidiClass>, levels: seq<Level>, sq: IsolatingRunSequence) {
    && |types| == |levels|
    && InText(|types|, sq.indices) && Ascends(sq.indices) && BordersOf(sq).Valid()
    && (forall a :: 0 <= a < |sq.indices| ==> (levels[sq.indices[a]] == NO_LEVEL <==> types[sq.indices[a]].IsRemoved()))
    && (forall a :: 0 <= a < |sq.indices| ==> levels[sq.indices[a]] == NO_LEVEL || levels[sq.indices[a]] == sq.level)
  }

  /** The rule has rewritten the places `lo..hi` of the chain, and nothing else has changed. */
  ghost predicate Progress(
    rule: Rule, types: seq<BidiClass>, r: seq<BidiClass>, sq: IsolatingRunSequence, lo: nat, hi: nat)
    requires InText(|types|, sq.indices)
  {
    && SameOutside(types, r, sq.indices)
    && lo <= hi <= |sq.indices|
    && forall a :: 0 <= a < |sq.indices| ==>
         r[sq.indices[a]] ==
           if lo <= a < hi then At(rule, View(types, sq.indices), BordersOf(sq), a) else types[sq.indices[a]]
  }

  lemma StartUp(rule: Rule, types: seq<BidiClass>, sq: IsolatingRunSequence)
    requires InText(|types|, sq.indices)
    ensures forall lo: nat :: lo <= |sq.indices| ==> Progress(rule, types, types, sq, lo, lo)
  {
  }

  /** Place `a` is rewritten next, going up. */
  lemma StepUp(
    rule: Rule, types: seq<BidiClass>, r: seq<BidiClass>, next: seq<BidiClass>, sq: IsolatingRunSequence, a: nat)
    requires InText(|types|, sq.indices) && Ascends(sq.indices) && Progress(rule, types, r, sq, 0, a)
    requires a < |sq.indices|
    requires next == r[sq.indices[a] := At(rule, View(types, sq.indices), BordersOf(sq), a)]
    ensures Progress(rule, types, next, sq, 0, a + 1)
  {
    hide At, View;
  }

  /** Place `a` is rewritten next, going down. */
  lemma StepDown(
    rule: Rule, types: seq<BidiClass>, r: seq<BidiClass>, next: seq<BidiClass>, sq: IsolatingRunSequence, a: nat)
    requires InText(|types|, sq.indices) && Ascends(sq.indices) && a < |sq.indices|
    requires Progress(rule, types, r, sq, a + 1, |sq.indices|)
    requires next == r[sq.indices[a] := At(rule, View(types, sq.indices), BordersOf(sq), a)]
    ensures Progress(rule, types, next, sq, a, |sq.indices|)
  {
    hide At, View;
  }

  /** The chain of a half-rewritten paragraph. */
  lemma Halfway(rule: Rule, types: seq<BidiClass>, r: seq<BidiClass>, sq: IsolatingRunSequence, lo: nat, hi: nat)
    requires InText(|types|, sq.indices) && Progress(rule, types, r, sq, lo, hi)
    ensures forall k :: 0 <= k < |sq.indices| ==>
      View(r, sq.indices)[k] ==
        if lo <= k < hi then At(rule, View(types, sq.indices), BordersOf(sq), k) else View(types, sq.indices)[k]
  {
    hide At;
  }

  /** A half-rewritten paragraph still agrees with the levels on what is removed. */
  lemma StillPassable(
    rule: Rule, types: seq<BidiClass>, r: seq<BidiClass>, levels: seq<Level>, sq: IsolatingRunSequence, lo: nat,
    hi: nat)
    requires IsPassable(types, levels, sq) && Progress(rule, types, r, sq, lo, hi)
    ensures IsPassable(r, levels, sq)
  {
    hide At;
    forall a | 0 <= a < |sq.indices|
      ensures r[sq.indices[a]].IsRemoved() <==> types[sq.indices[a]].IsRemoved()
    {
      AtKeepsRemoved(rule, View(types, sq.indices), BordersOf(sq), a);
    }
  }

  lemma {:induction false} BackSame(t: seq<BidiClass>, u: seq<BidiClass>, i: nat, skip: BidiClass -> bool)
    requires i <= |t| == |u|
    requires forall k :: 0 <= k < i ==> t[k] == u[k] || (skip(t[k]) && skip(u[k]))
    ensures Back(t, i, skip) == Back(u, i, skip)
  {
    if i > 0 {
      BackSame(t, u, i - 1, skip);
    }
  }

  lemma {:induction false} AheadSame(t: seq<BidiClass>, u: seq<BidiClass>, i: nat, skip: BidiClass -> bool)
    requires i <= |t| == |u|
    requires forall k :: i <= k < |t| ==> t[k] == u[k] || (skip(t[k]) && skip(u[k]))
    ensures Ahead(t, i, skip) == Ahead(u, i, skip)
    decreases |t| - i
  {
    if i < |t| {
      AheadSame(t, u, i + 1, skip);
    }
  }

  // ---- W1, W3, W6 ------------------------------------------------------------------------------

  lemma BackStart(t: seq<BidiClass>, skip: BidiClass -> bool)
    ensures Back(t, 0, skip) == None
  {
  }

  lemma BackStep(t: seq<BidiClass>, i: nat, skip: BidiClass -> bool)
    requires i < |t|
    ensures Back(t, i + 1, skip) == if skip(t[i]) then Back(t, i, skip) else Some(t[i])
  {
  }

  method ResolveCombiningMarks(
    types: seq<BidiClass>, levels: seq<Level>, sq: IsolatingRunSequence)
    returns (r: seq<BidiClass>)
    requires IsPassable(types, levels, sq)
    ensures Progress(W1, types, r, sq, 0, |sq.indices|)
  {
    hide Progress, Back;
    r := types;
    ghost var t := View(types, sq.indices);
    var priorBc := sq.sos;
    StartUp(W1, types, sq);
    BackStart(t, MarkOrRemoved);
    for a := 0 to |sq.indices|
      invariant |r| == |types| && Progress(W1, types, r, sq, 0, a)
      invariant priorBc == Or(Back(t, a, MarkOrRemoved), sq.sos)
    {
      var idx := sq.indices[a];
      ghost var before := r;
      Halfway(W1, types, r, sq, 0, a);
      assert View(r, sq.indices)[a] == r[idx];
      BackStep(t, a, MarkOrRemoved);
      if r[idx].NonspacingMark? {
        r := r[idx := priorBc];
      } else if levels[idx] != NO_LEVEL {
        priorBc := r[idx];
      }
      StepUp(W1, types, before, r, sq, a);
    }
  }

  method ResolveArabicLetters(
    types: seq<BidiClass>, levels: seq<Level>, sq: IsolatingRunSequence)
    returns (r: seq<BidiClass>)
    requires IsPassable(types, levels, sq)
    ensures Progress(W3, types, r, sq, 0, |sq.indices|)
  {
    r := types;
    for a := 0 to |sq.indices|
      invariant Progress(W3, types, r, sq, 0, a)
    {
      var idx := sq.indices[a];
      if r[idx].ArabicLetter? {
        r := r[idx := RightToLeft];
      }
    }
  }

  method ResolveEsCsEt(types: seq<BidiClass>, levels: seq<Level>, sq: IsolatingRunSequence) returns (r: seq<BidiClass>)
    requires IsPassable(types, levels, sq)
    ensures Progress(W6, types, r, sq, 0, |sq.indices|)
  {
    r := types;
    for a := 0 to |sq.indices|
      invariant Progress(W6, types, r, sq, 0, a)
    {
      var idx := sq.indices[a];
      if r[idx].EuropeanSeparator? || r[idx].CommonSeparator? || r[idx].EuropeanTerminator? {
        r := r[idx := OtherNeutral];
      }
    }
  }

  // ---- W2, W7 ----------------------------------------------------------------------------------

  /** Scans backwards from place `a` for a class that is not skipped. */
  method FirstStrong(
    types: seq<BidiClass>, indices: seq<nat>, a: nat, sos: BidiClass, skip: BidiClass -> bool)
    returns (bc: BidiClass)
    requires InText(|types|, indices) && a < |indices|
    ensures bc == Or(Back(View(types, indices), a, skip), sos)
  {
    var p: nat := a;
    while p > 0
      invariant p <= a
      invariant Back(View(types, indices), a, skip) == Back(View(types, indices), p, skip)
    {
      p := p - 1;
      if !skip(types[indices[p]]) {
        return types[indices[p]];
      }
    }
    bc := sos;
  }

  lemma NumbersAreNotSeen(rule: Rule, t: seq<BidiClass>, u: seq<BidiClass>, b: Borders, a: nat)
    requires a <= |t| == |u|
    requires (rule.W2? && forall k :: 0 <= k < a ==> u[k] == At(W2, t, b, k)) ||
      (rule.W7? && forall k :: 0 <= k < a ==> u[k] == t[k])
    ensures rule.W2? ==> Back(u, a, NotStrong) == Back(t, a, NotStrong)
    ensures rule.W7? ==> Back(u, a, NotDirectional) == Back(t, a, NotDirectional)
  {
    if rule.W2? {
      BackSame(t, u, a, NotStrong);
    } else {
      BackSame(t, u, a, NotDirectional);
    }
  }

  method ResolveEuropeanNumbers(
    types: seq<BidiClass>, levels: seq<Level>, sq: IsolatingRunSequence)
    returns (r: seq<BidiClass>)
    requires IsPassable(types, levels, sq)
    ensures Progress(W2, types, r, sq, 0, |sq.indices|)
  {
    hide Progress, Back;
    r := types;
    StartUp(W2, types, sq);
    for a := 0 to |sq.indices|
      invariant |r| == |types| && Progress(W2, types, r, sq, 0, a)
    {
      ghost var before := r;
      Halfway(W2, types, r, sq, 0, a);
      NumbersAreNotSeen(W2, View(types, sq.indices), View(r, sq.indices), BordersOf(sq), a);
      var cidx := sq.indices[a];
      if r[cidx].EuropeanNumber? {
        var firstStrong := FirstStrong(r, sq.indices, a, sq.sos, NotStrong);
        if firstStrong.ArabicLetter? {
          r := r[cidx := ArabicNumber];
        }
      }
      StepUp(W2, types, before, r, sq, a);
    }
  }

  method ResolveEn(types: seq<BidiClass>, levels: seq<Level>, sq: IsolatingRunSequence) returns (r: seq<BidiClass>)
    requires IsPassable(types, levels, sq)
    ensures Progress(W7, types, r, sq, 0, |sq.indices|)
  {
    hide Progress, Back;
    r := types;
    StartUp(W7, types, sq);
    for a := |sq.indices| downto 0
      invariant |r| == |types| && Progress(W7, types, r, sq, a, |sq.indices|)
    {
      ghost var before := r;
      Halfway(W7, types, r, sq, a + 1, |sq.indices|);
      NumbersAreNotSeen(W7, View(types, sq.indices), View(r, sq.indices), BordersOf(sq), a);
      var cidx := sq.indices[a];
      if r[cidx].EuropeanNumber? {
        var firstStrong := FirstStrong(r, sq.indices, a, sq.sos, NotDirectional);
        if firstStrong.LeftToRight? {
          r := r[cidx := LeftToRight];
        }
      }
      StepDown(W7, types, before, r, sq, a);
    }
  }

  // ---- W4 --------------------------------------------------------------------------------------

  /** The nearest kept character before place `a`, if its class is `bc`. */
  method IsPriorContext(
    types: seq<BidiClass>, levels: seq<Level>, a: nat, sq: IsolatingRunSequence, bc: BidiClass)
    returns (found: Option<nat>)
    requires IsPassable(types, levels, sq) && a < |sq.indices| && !bc.IsRemoved()
    ensures found.Some? <==> Back(View(types, sq.indices), a, Removed) == Some(bc)
    ensures found.Some? ==> found.value < |types| && types[found.value] == bc
  {
    var p: nat := a;
    while p > 0
      invariant p <= a
      invariant Back(View(types, sq.indices), a, Removed) == Back(View(types, sq.indices), p, Removed)
    {
      p := p - 1;
      var idx := sq.indices[p];
      if types[idx] == bc {
        return Some(idx);
      }
      if levels[idx] != NO_LEVEL {
        break;
      }
    }
    found := None;
  }

  /** The nearest kept character after place `a`, if its class is `bc`. */
  method IsFollowingContext(
    types: seq<BidiClass>, levels: seq<Level>, a: nat, sq: IsolatingRunSequence, bc: BidiClass)
    returns (found: Option<nat>)
    requires IsPassable(types, levels, sq) && a < |sq.indices| && !bc.IsRemoved()
    ensures found.Some? <==> Ahead(View(types, sq.indices), a + 1, Removed) == Some(bc)
    ensures found.Some? ==> found.value < |types| && types[found.value] == bc
  {
    var p := a + 1;
    while p < |sq.indices|
      invariant a < p <= |sq.indices|
      invariant Ahead(View(types, sq.indices), a + 1, Removed) == Ahead(View(types, sq.indices), p, Removed)
    {
      var idx := sq.indices[p];
      if types[idx] == bc {
        return Some(idx);
      }
      if levels[idx] != NO_LEVEL {
        break;
      }
      p := p + 1;
    }
    found := None;
  }

  method IsInContext(
    types: seq<BidiClass>, levels: seq<Level>, a: nat, sq: IsolatingRunSequence, bc: BidiClass)
    returns (b: bool)
    requires IsPassable(types, levels, sq) && a < |sq.indices| && !bc.IsRemoved()
    ensures b <==> Between(View(types, sq.indices), a, bc)
  {
    var prior := IsPriorContext(types, levels, a, sq, bc);
    var following := IsFollowingContext(types, levels, a, sq, bc);
    b := prior.Some? && following.Some?;
  }

  /** A separator that joined its neighbours is followed by a number, so no later separator sees it. */
  lemma {:induction false} JoinedIsNotSeen(t: seq<BidiClass>, u: seq<BidiClass>, b: Borders, a: nat, i: nat)
    requires i <= a < |t| == |u| && (t[a].EuropeanSeparator? || t[a].CommonSeparator?)
    requires forall k :: 0 <= k < a ==> u[k] == At(W4, t, b, k)
    requires forall k :: i <= k < a ==> Removed(t[k])
    ensures Back(u, i, Removed) == Back(t, i, Removed)
  {
    if i > 0 {
      AheadSkips(t, i, a, Removed);
      if Removed(t[i - 1]) {
        JoinedIsNotSeen(t, u, b, a, i - 1);
      }
    }
  }

  /** What a separator sees half-way through the pass is what it saw before. */
  lemma SeparatorSees(t: seq<BidiClass>, u: seq<BidiClass>, b: Borders, a: nat)
    requires a < |t| == |u| && (t[a].EuropeanSeparator? || t[a].CommonSeparator?)
    requires forall k :: 0 <= k < |t| ==> u[k] == if k < a then At(W4, t, b, k) else t[k]
    ensures Back(u, a, Removed) == Back(t, a, Removed)
    ensures Ahead(u, a + 1, Removed) == Ahead(t, a + 1, Removed)
  {
    hide At;
    JoinedIsNotSeen(t, u, b, a, a);
    AheadSame(t, u, a + 1, Removed);
  }

  method ResolveSeparators(
    types: seq<BidiClass>, levels: seq<Level>, sq: IsolatingRunSequence)
    returns (r: seq<BidiClass>)
    requires IsPassable(types, levels, sq)
    ensures Progress(W4, types, r, sq, 0, |sq.indices|)
  {
    hide Progress, Back, Ahead;
    r := types;
    StartUp(W4, types, sq);
    for a := 0 to |sq.indices|
      invariant |r| == |types| && Progress(W4, types, r, sq, 0, a)
    {
      ghost var before := r;
      ghost var t, u := View(types, sq.indices), View(r, sq.indices);
      Halfway(W4, types, r, sq, 0, a);
      StillPassable(W4, types, r, levels, sq, 0, a);
      var idx := sq.indices[a];
      if r[idx].EuropeanSeparator? {
        SeparatorSees(t, u, BordersOf(sq), a);
        var joins := IsInContext(r, levels, a, sq, EuropeanNumber);
        if joins {
          r := r[idx := EuropeanNumber];
        }
      } else if r[idx].CommonSeparator? {
        SeparatorSees(t, u, BordersOf(sq), a);
        var joins := IsInContext(r, levels, a, sq, EuropeanNumber);
        if joins {
          r := r[idx := EuropeanNumber];
        } else {
          joins := IsInContext(r, levels, a, sq, ArabicNumber);
          if joins {
            r := r[idx := ArabicNumber];
          }
        }
      }
      StepUp(W4, types, before, r, sq, a);
    }
  }

  // ---- W5 --------------------------------------------------------------------------------------

  /** Only terminators and removed characters stand between `e` and `j`. */
  ghost predicate Bridge(t: seq<BidiClass>, e: nat, j: nat) {
    && e < |t| && j < |t|
    && forall k :: e < k < j || j < k < e ==> TerminatorOrRemoved(t[k])
  }

  /** A European number before place `n` reaches `j`. */
  ghost predicate Touched(t: seq<BidiClass>, n: nat, j: nat) {
    exists e: nat :: e < n && Bridge(t, e, j) && t[e].EuropeanNumber?
  }

  /** The classes once the numbers before place `n` have spread. */
  ghost predicate Spread(t: seq<BidiClass>, n: nat, u: seq<BidiClass>) {
    && |u| == |t| && n <= |t|
    && forall j :: 0 <= j < |t| ==>
       u[j] == if t[j].EuropeanTerminator? && Touched(t, n, j) then EuropeanNumber else t[j]
  }

  /** One number spreads over the terminators on `[p, n)` and `(n, q)`, as far as they reach. */
  ghost predicate SpreadsFrom(u: seq<BidiClass>, n: nat, p: nat, q: nat, v: seq<BidiClass>) {
    && p <= n < q <= |u| == |v|
    && (forall k :: p <= k < n || n < k < q ==> TerminatorOrRemoved(u[k]))
    && (p > 0 ==> !TerminatorOrRemoved(u[p - 1]))
    && (q < |u| ==> !TerminatorOrRemoved(u[q]))
    && (forall k :: 0 <= k < |u| ==>
         v[k] == if (p <= k < n || n < k < q) && u[k].EuropeanTerminator? then EuropeanNumber else u[k])
  }

  ghost predicate JoinedOn(u: seq<BidiClass>, lo: nat, hi: nat, v: seq<BidiClass>) {
    && |u| == |v|
    && forall k :: 0 <= k < |u| ==> v[k] == if lo <= k < hi && u[k].EuropeanTerminator? then EuropeanNumber else u[k]
  }

  /** A number stops the ones before it. */
  lemma NotBeyond(t: seq<BidiClass>, n: nat, k: nat)
    requires n < k < |t| && t[n].EuropeanNumber?
    ensures !Touched(t, n, k)
  {
    forall e: nat | e < n
      ensures !Bridge(t, e, k)
    {
      assert !TerminatorOrRemoved(t[n]);
    }
  }

  /** Terminators beyond the place where the backward scan stops were reached by an earlier number. */
  lemma ReachedEarlier(t: seq<BidiClass>, u: seq<BidiClass>, n: nat, p: nat, j: nat)
    requires Spread(t, n, u) && n < |t| && j < p <= n && Bridge(t, n, j) && t[j].EuropeanTerminator?
    requires !TerminatorOrRemoved(u[p - 1])
    requires forall k :: p <= k < n ==> TerminatorOrRemoved(u[k])
    ensures Touched(t, n, j)
  {
    assert TerminatorOrRemoved(t[p - 1]);
    var e: nat :| e < n && Bridge(t, e, p - 1) && t[e].EuropeanNumber?;
    assert !(p <= e < n) by { assert u[e] == t[e]; }
    assert Bridge(t, e, j);
  }

  lemma SpreadNumber(t: seq<BidiClass>, u: seq<BidiClass>, n: nat, p: nat, q: nat, v: seq<BidiClass>)
    requires Spread(t, n, u) && n < |t| && t[n].EuropeanNumber? && SpreadsFrom(u, n, p, q, v)
    ensures Spread(t, n + 1, v)
  {
    forall k | n < k < |t|
      ensures u[k] == t[k]
    {
      NotBeyond(t, n, k);
    }
    forall j | 0 <= j < |t|
      ensures v[j] == if t[j].EuropeanTerminator? && Touched(t, n + 1, j) then EuropeanNumber else t[j]
    {
      if t[j].EuropeanTerminator? {
        if p <= j < q {
          assert Bridge(t, n, j);
        } else if Bridge(t, n, j) {
          ReachedEarlier(t, u, n, p, j);
        }
      }
    }
  }

  lemma {:induction false} ForwardBridge(t: seq<BidiClass>, u: seq<BidiClass>, n: nat, q: nat, e: nat, k: nat)
    requires Spread(t, n, u) && e < n < k < q <= |t| && Bridge(t, e, n) && TerminatorOrRemoved(t[n])
    requires forall m :: n < m < q ==> TerminatorOrRemoved(u[m])
    ensures Bridge(t, e, k)
  {
    assert forall m :: n < m < q ==> TerminatorOrRemoved(t[m]);
  }

  /** A terminator that has become a number spreads no further. */
  lemma SpreadJoined(t: seq<BidiClass>, u: seq<BidiClass>, n: nat, p: nat, q: nat, v: seq<BidiClass>)
    requires Spread(t, n, u) && n < |t| && t[n].EuropeanTerminator? && u[n].EuropeanNumber?
    requires SpreadsFrom(u, n, p, q, v)
    ensures v == u
  {
    var e: nat :| e < n && Bridge(t, e, n) && t[e].EuropeanNumber?;
    assert u[e] == t[e];
    forall k | e < k <= n && t[k].EuropeanTerminator?
      ensures Touched(t, n, k)
    {
      assert Bridge(t, e, k);
    }
    forall k | n < k < q && t[k].EuropeanTerminator?
      ensures Touched(t, n, k)
    {
      ForwardBridge(t, u, n, q, e, k);
    }
  }

  lemma SpreadNothing(t: seq<BidiClass>, u: seq<BidiClass>, n: nat)
    requires Spread(t, n, u) && n < |t| && !t[n].EuropeanNumber?
    ensures Spread(t, n + 1, u)
  {
    forall j | 0 <= j < |t|
      ensures Touched(t, n + 1, j) <==> Touched(t, n, j)
    {
    }
  }

  lemma {:induction false} BackWitness(t: seq<BidiClass>, i: nat, skip: BidiClass -> bool) returns (e: nat)
    requires i <= |t| && Back(t, i, skip).Some?
    ensures e < i && t[e] == Back(t, i, skip).value && forall k :: e < k < i ==> skip(t[k])
  {
    if skip(t[i - 1]) {
      e := BackWitness(t, i - 1, skip);
    } else {
      e := i - 1;
    }
  }

  lemma {:induction false} AheadWitness(t: seq<BidiClass>, i: nat, skip: BidiClass -> bool) returns (e: nat)
    requires i <= |t| && Ahead(t, i, skip).Some?
    ensures i <= e < |t| && t[e] == Ahead(t, i, skip).value && forall k :: i <= k < e ==> skip(t[k])
    decreases |t| - i
  {
    if skip(t[i]) {
      e := AheadWitness(t, i + 1, skip);
    } else {
      e := i;
    }
  }

  /** In the end a terminator is reached if and only if the nearest other class on one of its sides is EN. */
  lemma TouchedIsBeside(t: seq<BidiClass>, j: nat)
    requires j < |t| && t[j].EuropeanTerminator?
    ensures Touched(t, |t|, j) <==>
      Back(t, j, TerminatorOrRemoved) == Some(EuropeanNumber) ||
        Ahead(t, j + 1, TerminatorOrRemoved) == Some(EuropeanNumber)
  {
    if Back(t, j, TerminatorOrRemoved) == Some(EuropeanNumber) {
      var e := BackWitness(t, j, TerminatorOrRemoved);
      assert Bridge(t, e, j);
    }
    if Ahead(t, j + 1, TerminatorOrRemoved) == Some(EuropeanNumber) {
      var e := AheadWitness(t, j + 1, TerminatorOrRemoved);
      assert Bridge(t, e, j);
    }
    if Touched(t, |t|, j) {
      var e: nat :| e < |t| && Bridge(t, e, j) && t[e].EuropeanNumber?;
      if e < j {
        BackSkips(t, e + 1, j, TerminatorOrRemoved);
      } else {
        AheadSkips(t, j + 1, e, TerminatorOrRemoved);
      }
    }
  }

  lemma JoinNothing(types: seq<BidiClass>, sq: IsolatingRunSequence, a: nat)
    requires InText(|types|, sq.indices)
    ensures SameOutside(types, types, sq.indices) && JoinedOn(View(types, sq.indices), a, a, View(types, sq.indices))
  {
  }

  /** The place after a joined stretch: still as it was, and ready to join. */
  lemma JoinNext(
    types: seq<BidiClass>, r: seq<BidiClass>, levels: seq<Level>, sq: IsolatingRunSequence, lo: nat, hi: nat)
    requires IsPassable(types, levels, sq) && |r| == |types| && lo <= hi < |sq.indices|
    requires SameOutside(types, r, sq.indices)
    requires JoinedOn(View(types, sq.indices), lo, hi, View(r, sq.indices))
    ensures var idx := sq.indices[hi]; var next := if r[idx].EuropeanTerminator? then r[idx := EuropeanNumber] else r;
      && r[idx] == types[idx] && (levels[idx] == NO_LEVEL <==> types[idx].IsRemoved())
      && SameOutside(types, next, sq.indices) && JoinedOn(View(types, sq.indices), lo, hi + 1, View(next, sq.indices))
  {
    assert View(r, sq.indices)[hi] == View(types, sq.indices)[hi];
  }

  /** Places `p` to `a` are joined, and nothing else has changed. */
  ghost predicate JoinedBack(
    types: seq<BidiClass>, r: seq<BidiClass>, levels: seq<Level>, sq: IsolatingRunSequence, p: nat, a: nat)
    requires InText(|types|, sq.indices) && a <= |sq.indices|
  {
    && p <= a && SameOutside(types, r, sq.indices) && IsPassable(r, levels, sq)
    && (forall k :: p <= k < a ==> TerminatorOrRemoved(types[sq.indices[k]]))
    && JoinedOn(View(types, sq.indices), p, a, View(r, sq.indices))
  }

  lemma OutsideKept(a: seq<BidiClass>, b: seq<BidiClass>, c: seq<BidiClass>, indices: seq<nat>)
    requires SameOutside(a, b, indices) && SameOutside(b, c, indices)
    ensures SameOutside(a, c, indices)
  {
  }

  /** Turns the terminators on one side of place `a` into numbers, up to the first other character. */
  method SpreadBack(
    types: seq<BidiClass>, levels: seq<Level>, sq: IsolatingRunSequence, a: nat)
    returns (r: seq<BidiClass>, ghost p: nat)
    requires IsPassable(types, levels, sq) && a < |sq.indices|
    ensures SameOutside(types, r, sq.indices)
    ensures p <= a && forall k :: p <= k < a ==> TerminatorOrRemoved(View(types, sq.indices)[k])
    ensures p > 0 ==> !TerminatorOrRemoved(View(types, sq.indices)[p - 1])
    ensures JoinedOn(View(types, sq.indices), p, a, View(r, sq.indices))
    ensures IsPassable(r, levels, sq)
  {
    JoinNothing(types, sq, a);
    r := types;
    p := a;
    var i: nat := a;
    assert JoinedBack(types, r, levels, sq, a, a);
    while i > 0
      invariant i == p <= a && JoinedBack(types, r, levels, sq, p, a)
    {
      hide JoinedBack, IsPassable;
      i := i - 1;
      var priorIdx := sq.indices[i];
      if r[priorIdx].EuropeanTerminator? {
        r := r[priorIdx := EuropeanNumber];
      } else if levels[priorIdx] != NO_LEVEL {
        break;
      }
      p := i;
    }
  }

  method SpreadAhead(
    types: seq<BidiClass>, levels: seq<Level>, sq: IsolatingRunSequence, a: nat)
    returns (r: seq<BidiClass>, ghost q: nat)
    requires IsPassable(types, levels, sq) && a < |sq.indices|
    ensures SameOutside(types, r, sq.indices)
    ensures a < q <= |sq.indices| && forall k :: a < k < q ==> TerminatorOrRemoved(View(types, sq.indices)[k])
    ensures q < |sq.indices| ==> !TerminatorOrRemoved(View(types, sq.indices)[q])
    ensures JoinedOn(View(types, sq.indices), a + 1, q, View(r, sq.indices))
  {
    hide SameOutside, JoinedOn;
    r := types;
    q := a + 1;
    var i := a + 1;
    JoinNothing(types, sq, a + 1);
    while i < |sq.indices|
      invariant a < i == q <= |sq.indices| && |r| == |types|
      invariant SameOutside(types, r, sq.indices)
      invariant forall k :: a < k < q ==> TerminatorOrRemoved(types[sq.indices[k]])
      invariant JoinedOn(View(types, sq.indices), a + 1, q, View(r, sq.indices))
    {
      var nextIdx := sq.indices[i];
      JoinNext(types, r, levels, sq, a + 1, i);
      if r[nextIdx].EuropeanTerminator? {
        r := r[nextIdx := EuropeanNumber];
      } else if levels[nextIdx] != NO_LEVEL {
        break;
      }
      i := i + 1;
      q := i;
    }
  }

  lemma JoinBothSides(u: seq<BidiClass>, w: seq<BidiClass>, v: seq<BidiClass>, p: nat, n: nat, q: nat)
    requires p <= n < q <= |u| && u[n].EuropeanNumber?
    requires JoinedOn(u, p, n, w) && JoinedOn(w, n + 1, q, v)
    requires p > 0 ==> !TerminatorOrRemoved(u[p - 1])
    requires q < |u| ==> !TerminatorOrRemoved(w[q])
    requires forall k :: p <= k < n ==> TerminatorOrRemoved(u[k])
    requires forall k :: n < k < q ==> TerminatorOrRemoved(w[k])
    ensures SpreadsFrom(u, n, p, q, v)
  {
    hide TerminatorOrRemoved;
    forall k | n < k < q
      ensures TerminatorOrRemoved(u[k])
    {
      assert w[k] == u[k];
    }
  }

  lemma SpreadIsW5(types: seq<BidiClass>, r: seq<BidiClass>, sq: IsolatingRunSequence)
    requires InText(|types|, sq.indices) && SameOutside(types, r, sq.indices)
    requires Spread(View(types, sq.indices), |sq.indices|, View(r, sq.indices))
    ensures Progress(W5, types, r, sq, 0, |sq.indices|)
  {
    var t := View(types, sq.indices);
    forall a | 0 <= a < |sq.indices|
      ensures r[sq.indices[a]] == At(W5, t, BordersOf(sq), a)
    {
      assert View(r, sq.indices)[a] == r[sq.indices[a]];
      if t[a].EuropeanTerminator? {
        TouchedIsBeside(t, a);
      }
    }
  }

  lemma SpreadKeepsRemoved(
    types: seq<BidiClass>, r: seq<BidiClass>, levels: seq<Level>, sq: IsolatingRunSequence, n: nat)
    requires IsPassable(types, levels, sq) && SameOutside(types, r, sq.indices)
    requires Spread(View(types, sq.indices), n, View(r, sq.indices))
    ensures IsPassable(r, levels, sq)
  {
    hide Touched;
    forall a | 0 <= a < |sq.indices|
      ensures r[sq.indices[a]].IsRemoved() <==> types[sq.indices[a]].IsRemoved()
    {
      assert View(r, sq.indices)[a] == r[sq.indices[a]];
    }
  }

  method ResolveTerminators(
    types: seq<BidiClass>, levels: seq<Level>, sq: IsolatingRunSequence)
    returns (r: seq<BidiClass>)
    requires IsPassable(types, levels, sq)
    ensures Progress(W5, types, r, sq, 0, |sq.indices|)
  {
    hide TerminatorOrRemoved;
    r := types;
    ghost var t := View(types, sq.indices);
    for a := 0 to |sq.indices|
      invariant SameOutside(types, r, sq.indices)
      invariant Spread(t, a, View(r, sq.indices))
    {
      SpreadKeepsRemoved(types, r, levels, sq, a);
      ghost var u := View(r, sq.indices);
      if r[sq.indices[a]].EuropeanNumber? {
        ghost var p, q;
        r, p := SpreadBack(r, levels, sq, a);
        ghost var w := View(r, sq.indices);
        r, q := SpreadAhead(r, levels, sq, a);
        ghost var v := View(r, sq.indices);
        JoinBothSides(u, w, v, p, a, q);
        if t[a].EuropeanNumber? {
          SpreadNumber(t, u, a, p, q, v);
        } else {
          SpreadJoined(t, u, a, p, q, v);
          SpreadNothing(t, u, a);
        }
      } else {
        SpreadNothing(t, u, a);
      }
    }
    SpreadIsW5(types, r, sq);
  }

  // ---- N1, N2 ----------------------------------------------------------------------------------

  /** Whether the nearest character before place `a` that is neither neutral nor removed lends `dir`. */
  method IsPriorSide(
    types: seq<BidiClass>, levels: seq<Level>, a: nat, sq: IsolatingRunSequence, dir: Direction)
    returns (b: bool)
    requires IsPassable(types, levels, sq) && a < |sq.indices|
    ensures b <==> BackSide(View(types, sq.indices), sq.sos, a) == Some(dir)
  {
    var p: nat := a;
    while p > 0
      invariant p <= a
      invariant BackSide(View(types, sq.indices), sq.sos, a) == BackSide(View(types, sq.indices), sq.sos, p)
    {
      p := p - 1;
      var idx := sq.indices[p];
      if Side(types[idx]) == Some(dir) {
        return true;
      }
      if levels[idx] == NO_LEVEL {
        continue;
      }
      if types[idx].IsNeutral() {
        continue;
      }
      return false;
    }
    b := Side(sq.sos) == Some(dir);
  }

  /** Whether the nearest character after place `a` that is neither neutral nor removed lends `dir`. */
  method IsFollowingSide(
    types: seq<BidiClass>, levels: seq<Level>, a: nat, sq: IsolatingRunSequence, dir: Direction)
    returns (b: bool)
    requires IsPassable(types, levels, sq) && a < |sq.indices|
    ensures b <==> AheadSide(View(types, sq.indices), sq.eos, a + 1) == Some(dir)
  {
    var p := a + 1;
    while p < |sq.indices|
      invariant a < p <= |sq.indices|
      invariant AheadSide(View(types, sq.indices), sq.eos, a + 1) == AheadSide(View(types, sq.indices), sq.eos, p)
    {
      var idx := sq.indices[p];
      p := p + 1;
      if Side(types[idx]) == Some(dir) {
        return true;
      }
      if levels[idx] == NO_LEVEL {
        continue;
      }
      if types[idx].IsNeutral() {
        continue;
      }
      return false;
    }
    b := Side(sq.eos) == Some(dir);
  }

  /**
    * A neutral sees the same side ahead although later neutrals of its block are already rewritten, as far as
    * that matters: when the side behind it is the one asked for.
    */
  lemma {:induction false} RewrittenAhead(
    t: seq<BidiClass>, u: seq<BidiClass>, b: Borders, i: nat, p: nat, dir: Direction)
    requires i < p <= |t| == |u| && t[i].IsNeutral()
    requires forall k :: i < k < p ==> NeutralOrRemoved(t[k])
    requires forall k :: i < k < |t| ==> u[k] == At(N1, t, b, k)
    requires BackSide(t, b.sos, i) == Some(dir)
    ensures AheadSide(u, b.eos, p) == Some(dir) <==> AheadSide(t, b.eos, p) == Some(dir)
    decreases |t| - p
  {
    if p < |t| {
      if t[p].IsNeutral() {
        BackSkips(t, i, p, NeutralOrRemoved);
      }
      if NeutralOrRemoved(t[p]) {
        RewrittenAhead(t, u, b, i, p + 1, dir);
      }
    }
  }

  /** What a neutral sees half-way through the pass decides as what it saw before. */
  lemma NeutralSees(t: seq<BidiClass>, u: seq<BidiClass>, b: Borders, a: nat)
    requires a < |t| == |u| && t[a].IsNeutral()
    requires forall k :: 0 <= k < |t| ==> u[k] == if k > a then At(N1, t, b, k) else t[k]
    ensures BackSide(u, b.sos, a) == BackSide(t, b.sos, a)
    ensures BackSide(t, b.sos, a).Some? ==>
      (AheadSide(u, b.eos, a + 1) == BackSide(t, b.sos, a) <==> AheadSide(t, b.eos, a + 1) == BackSide(t, b.sos, a))
  {
    hide At;
    BackSame(t, u, a, NeutralOrRemoved);
    if BackSide(t, b.sos, a).Some? {
      RewrittenAhead(t, u, b, a, a + 1, BackSide(t, b.sos, a).value);
    }
  }

  method ResolveNeutralsByContext(
    types: seq<BidiClass>, levels: seq<Level>, sq: IsolatingRunSequence)
    returns (r: seq<BidiClass>)
    requires IsPassable(types, levels, sq)
    ensures Progress(N1, types, r, sq, 0, |sq.indices|)
  {
    hide Progress, BackSide, AheadSide;
    r := types;
    StartUp(N1, types, sq);
    for a := |sq.indices| downto 0
      invariant |r| == |types| && Progress(N1, types, r, sq, a, |sq.indices|)
    {
      ghost var before := r;
      Halfway(N1, types, r, sq, a + 1, |sq.indices|);
      StillPassable(N1, types, r, levels, sq, a + 1, |sq.indices|);
      var cidx := sq.indices[a];
      if !r[cidx].IsNeutral() {
        StepDown(N1, types, before, r, sq, a);
        continue;
      }
      NeutralSees(View(types, sq.indices), View(r, sq.indices), BordersOf(sq), a);
      var priorLeft := IsPriorSide(r, levels, a, sq, Ltr);
      var followingLeft := IsFollowingSide(r, levels, a, sq, Ltr);
      if priorLeft && followingLeft {
        r := r[cidx := LeftToRight];
      } else {
        var priorRight := IsPriorSide(r, levels, a, sq, Rtl);
        var followingRight := IsFollowingSide(r, levels, a, sq, Rtl);
        if priorRight && followingRight {
          r := r[cidx := RightToLeft];
        }
      }
      StepDown(N1, types, before, r, sq, a);
    }
  }

  method ResolveNeutralsByLevel(
    types: seq<BidiClass>, levels: seq<Level>, sq: IsolatingRunSequence)
    returns (r: seq<BidiClass>)
    requires IsPassable(types, levels, sq)
    ensures Progress(N2, types, r, sq, 0, |sq.indices|)
  {
    hide Progress;
    r := types;
    StartUp(N2, types, sq);
    for a := |sq.indices| downto 0
      invariant |r| == |types| && Progress(N2, types, r, sq, a, |sq.indices|)
    {
      var cidx := sq.indices[a];
      ghost var before := r;
      Halfway(N2, types, r, sq, a + 1, |sq.indices|);
      assert View(r, sq.indices)[a] == r[cidx];
      if r[cidx].IsNeutral() {
        r := r[cidx := LevelClass(levels[cidx])];
      }
      StepDown(N2, types, before, r, sq, a);
    }
  }
}
