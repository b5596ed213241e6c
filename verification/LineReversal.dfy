/** Rule L2 of UAX #9 (section 3.4): the reversal of a line, level by level. */
module LineReversal {
  import opened Wrappers
  import opened BidiTypes

  /** The placeholder for a deleted character in the visual order; it is no character index. */
  const DELETED := -1

  predicate Kept(levels: seq<Level>, i: int) {
    0 <= i < |levels| && levels[i] != NO_LEVEL
  }

  /** The least level of the kept characters on `i..j`, both included. */
  function MinKept(levels: seq<Level>, i: nat, j: nat): (m: Level)
    requires i <= j < |levels| && Kept(levels, i)
    ensures 0 <= m <= levels[i] && (Kept(levels, j) ==> m <= levels[j])
    ensures forall p :: i <= p <= j && Kept(levels, p) ==> m <= levels[p]
    ensures exists p :: i <= p <= j && Kept(levels, p) && m == levels[p]
  {
    if i == j then levels[i]
    else
      var m := MinKept(levels, i, j - 1);
      if Kept(levels, j) && levels[j] < m then levels[j] else m
  }

  /** `x` is rightly displayed before `y`. */
  ghost predicate L2Pair(levels: seq<Level>, x: int, y: int) {
    && Kept(levels, x) && Kept(levels, y) && x != y
    && (x < y ==> !IsOdd(MinKept(levels, x, y)))
    && (y < x ==> IsOdd(MinKept(levels, y, x)))
  }

  /** What rule L2 asks of the displayed order of a line that starts at index `first`. */
  ghost predicate IsL2Order(levels: seq<Level>, first: nat, visual: seq<int>) {
    && (forall x :: x in visual <==> Kept(levels, x - first))
    && (forall a, b :: 0 <= a < b < |visual| ==> L2Pair(levels, visual[a] - first, visual[b] - first))
  }

  /** Some kept level is odd and at most MAX_DEPTH. */
  ghost predicate HasOddLevel(levels: seq<Level>) {
    exists i :: Kept(levels, i) && IsOdd(levels[i]) && levels[i] <= MAX_DEPTH
  }

  ghost predicate HighPair(levels: seq<Level>, i: int, j: int) {
    && i < j && Kept(levels, i) && Kept(levels, j)
    && MinKept(levels, i, j) > MAX_DEPTH
  }

  /** Two kept characters lie on a stretch whose kept levels are all above MAX_DEPTH. */
  ghost predicate HasHighPair(levels: seq<Level>) {
    exists i, j :: HighPair(levels, i, j)
  }

  /** The kept characters, each once. */
  ghost predicate KeptOnce(levels: seq<Level>, first: nat, visual: seq<int>) {
    && (forall x :: x in visual <==> Kept(levels, x - first))
    && (forall a, b :: 0 <= a < b < |visual| ==> visual[a] != visual[b])
  }

  // The reversal works in place on slots. A ghost permutation `perm` records which line position each
  // slot shows, also for the slots of deleted characters.

  // ---- regions: what one pass reverses -------------------------------------------------------

  /** Position `p` lies in a range that the pass for level `k` has open. */
  predicate InRange(levels: seq<Level>, k: int, p: nat)
    requires p < |levels|
  {
    levels[p] >= k || (levels[p] == NO_LEVEL && p > 0 && InRange(levels, k, p - 1))
  }

  /** `p` and `q` are equal or lie in the same range of the pass for level `k`. */
  ghost predicate SameRange(levels: seq<Level>, k: int, p: nat, q: nat) {
    && p < |levels| && q < |levels|
    && (p == q || forall r :: (p <= r <= q || q <= r <= p) ==> InRange(levels, k, r))
  }

  lemma {:induction false} RangesNest(levels: seq<Level>, k: int, p: nat)
    requires p < |levels| && InRange(levels, k + 1, p)
    ensures InRange(levels, k, p)
  {
    if levels[p] < k + 1 {
      RangesNest(levels, k, p - 1);
    }
  }

  lemma SameRangeNests(levels: seq<Level>, k: int, p: nat, q: nat)
    requires SameRange(levels, k + 1, p, q)
    ensures SameRange(levels, k, p, q)
  {
    if p != q {
      forall r | p <= r <= q || q <= r <= p
        ensures InRange(levels, k, r)
      {
        RangesNest(levels, k, r);
      }
    }
  }

  /** After the passes from the highest level down to `k`, the kept pair `i < j` is swapped. */
  predicate Flipped(levels: seq<Level>, k: int, i: nat, j: nat)
    requires i < j < |levels| && Kept(levels, i)
  {
    var m := MinKept(levels, i, j);
    m >= k && (m - k + 1) % 2 == 1
  }

  /** Slots `q < r` hold `x` and `y` in the order that the passes down to `k` produce. */
  ghost predicate Placed(levels: seq<Level>, k: int, x: nat, y: nat) {
    Kept(levels, x) && Kept(levels, y) && x != y ==>
      if x < y then !Flipped(levels, k, x, y) else Flipped(levels, k, y, x)
  }

  ghost predicate IsPerm(levels: seq<Level>, perm: seq<nat>) {
    && |perm| == |levels|
    && (forall q :: 0 <= q < |perm| ==> perm[q] < |levels|)
    && (forall q, r :: 0 <= q < r < |perm| ==> perm[q] != perm[r])
    && (forall p :: 0 <= p < |levels| ==> p in perm)
  }

  /** The state between two passes: the passes down to level `k` are done. */
  ghost predicate Sorted(levels: seq<Level>, k: int, perm: seq<nat>) {
    && IsPerm(levels, perm)
    && (forall q :: 0 <= q < |perm| ==> SameRange(levels, k, q, perm[q]))
    && (forall q, r :: 0 <= q < r < |perm| ==> Placed(levels, k, perm[q], perm[r]))
  }

  /** The state inside the pass for level `k`: the slots below `done` are finished. */
  ghost predicate Sorting(levels: seq<Level>, k: int, perm: seq<nat>, done: nat) {
    && IsPerm(levels, perm)
    && (forall q :: 0 <= q < |perm| ==> SameRange(levels, k, q, perm[q]))
    && (forall q, r :: 0 <= q < r < |perm| ==> Placed(levels, if r < done then k else k + 1, perm[q], perm[r]))
  }

  ghost predicate Shows(levels: seq<Level>, first: nat, perm: seq<nat>, visual: seq<int>) {
    && |visual| == |perm|
    && (forall q :: 0 <= q < |perm| ==> visual[q] == if Kept(levels, perm[q]) then perm[q] + first else DELETED)
  }

  /** `[f, e)` is exactly one range of the pass for level `k`. */
  ghost predicate IsRange(levels: seq<Level>, k: int, f: nat, e: nat) {
    && f < e <= |levels|
    && levels[f] >= k
    && (forall p :: f <= p < e ==> InRange(levels, k, p))
    && (f > 0 ==> !InRange(levels, k, f - 1))
    && (e < |levels| ==> !InRange(levels, k, e))
  }

  /** Slots of a range hold positions of that range. */
  lemma RangeIsClosed(levels: seq<Level>, k: int, f: nat, e: nat, q: nat, x: nat)
    requires IsRange(levels, k, f, e) && SameRange(levels, k, q, x)
    ensures f <= q < e <==> f <= x < e
  {
  }

  lemma {:induction false} AllInRange(levels: seq<Level>, k: int, x: nat, y: nat)
    requires k >= 0 && x <= y < |levels| && Kept(levels, x) && MinKept(levels, x, y) >= k
    ensures forall p :: x <= p <= y ==> InRange(levels, k, p)
  {
    if x < y {
      AllInRange(levels, k, x, y - 1);
    }
  }

  /** Slots on the two sides of a boundary hold positions that no pass down to `k` swaps. */
  lemma AcrossBoundary(levels: seq<Level>, k: int, x: nat, y: nat, b: nat)
    requires k >= 0 && x < b <= y < |levels| && Kept(levels, x)
    requires !InRange(levels, k, b) || (!InRange(levels, k, b - 1) && levels[b] >= k)
    ensures MinKept(levels, x, y) < k
  {
    if MinKept(levels, x, y) >= k {
      AllInRange(levels, k, x, y);
    }
  }

  lemma {:induction false} RangeIsHigh(levels: seq<Level>, k: int, f: nat, e: nat, x: nat, y: nat)
    requires k >= 0 && IsRange(levels, k, f, e) && f <= x <= y < e && Kept(levels, x)
    ensures MinKept(levels, x, y) >= k
  {
    forall p | x <= p <= y && Kept(levels, p)
      ensures levels[p] >= k
    {
      assert InRange(levels, k, p);
    }
  }

  function Mirror(s: seq<nat>, f: nat, e: nat): (r: seq<nat>)
    requires f <= e <= |s|
    ensures |r| == |s|
    ensures forall q {:trigger r[q]} :: 0 <= q < |s| ==> r[q] == if f <= q < e then s[f + e - 1 - q] else s[q]
  {
    seq(|s|, q requires 0 <= q < |s| => if f <= q < e then s[f + e - 1 - q] else s[q])
  }

  /** Two positions of one range trade places in the pass for level `k`. */
  lemma SwapInRange(levels: seq<Level>, k: int, f: nat, e: nat, x: nat, y: nat)
    requires k >= 0 && IsRange(levels, k, f, e) && f <= x < e && f <= y < e
    requires Placed(levels, k + 1, y, x)
    ensures Placed(levels, k, x, y)
  {
    hide MinKept, IsRange;
    if Kept(levels, x) && Kept(levels, y) && x != y {
      RangeIsHigh(levels, k, f, e, if x < y then x else y, if x < y then y else x);
    }
  }

  /** Two positions on the two sides of a boundary stay as they are. */
  lemma KeepAcross(levels: seq<Level>, k: int, x: nat, y: nat, b: nat)
    requires k >= 0 && x < b <= y < |levels|
    requires !InRange(levels, k, b) || (!InRange(levels, k, b - 1) && levels[b] >= k)
    requires Placed(levels, k + 1, x, y)
    ensures Placed(levels, k, x, y)
  {
    if Kept(levels, x) && Kept(levels, y) {
      AcrossBoundary(levels, k, x, y, b);
    }
  }

  lemma MirrorIsPerm(levels: seq<Level>, perm: seq<nat>, f: nat, e: nat)
    requires IsPerm(levels, perm) && f <= e <= |perm|
    ensures IsPerm(levels, Mirror(perm, f, e))
  {
    var after := Mirror(perm, f, e);
    forall q, r | 0 <= q < r < |perm|
      ensures after[q] != after[r]
    {
      var q' := if f <= q < e then f + e - 1 - q else q;
      var r' := if f <= r < e then f + e - 1 - r else r;
      assert perm[q'] != perm[r'];
    }
    forall p | 0 <= p < |levels|
      ensures p in after
    {
      assert p in perm;
      var q :| 0 <= q < |perm| && perm[q] == p;
      assert after[if f <= q < e then f + e - 1 - q else q] == p;
    }
  }

  lemma MirroredSlot(levels: seq<Level>, k: int, f: nat, e: nat, q: nat, q': nat, x: nat)
    requires IsRange(levels, k, f, e) && SameRange(levels, k, q', x)
    requires q' == if f <= q < e then f + e - 1 - q else q
    ensures SameRange(levels, k, q, x)
  {
    RangeIsClosed(levels, k, f, e, q', x);
  }

  /** A slot left of a range holds a position left of it. */
  lemma StaysBelow(levels: seq<Level>, k: int, q: nat, x: nat, f: nat)
    requires SameRange(levels, k, q, x) && q < f <= |levels|
    requires f > 0 && !InRange(levels, k, f - 1)
    ensures x < f
  {
  }

  /** Reversing one whole range finishes its slots. */
  lemma ReverseFinishes(levels: seq<Level>, k: int, perm: seq<nat>, f: nat, e: nat)
    requires k >= 0 && Sorting(levels, k, perm, f) && IsRange(levels, k, f, e)
    ensures Sorting(levels, k, Mirror(perm, f, e), e)
  {
    var after := Mirror(perm, f, e);
    MirrorIsPerm(levels, perm, f, e);
    forall q | 0 <= q < |perm|
      ensures SameRange(levels, k, q, after[q])
    {
      var q' := if f <= q < e then f + e - 1 - q else q;
      MirroredSlot(levels, k, f, e, q, q', perm[q']);
    }
    forall q, r | 0 <= q < r < |perm|
      ensures Placed(levels, if r < e then k else k + 1, after[q], after[r])
    {
      var q' := if f <= q < e then f + e - 1 - q else q;
      var r' := if f <= r < e then f + e - 1 - r else r;
      var x, y := perm[q'], perm[r'];
      assert q' < r' ==> Placed(levels, if r' < f then k else k + 1, x, y);
      assert r' < q' ==> Placed(levels, if q' < f then k else k + 1, y, x);
      if f <= r < e {
        RangeIsClosed(levels, k, f, e, r', y);
        if f <= q {
          RangeIsClosed(levels, k, f, e, q', x);
          SwapInRange(levels, k, f, e, x, y);
        } else {
          StaysBelow(levels, k, q, x, f);
          KeepAcross(levels, k, x, y, f);
        }
      }
    }
  }

  /** A range with one kept character needs no reversal. */
  lemma SingleFinishes(levels: seq<Level>, k: int, perm: seq<nat>, f: nat, e: nat)
    requires k >= 0 && Sorting(levels, k, perm, f) && IsRange(levels, k, f, e)
    requires forall p :: f < p < e ==> !Kept(levels, p)
    ensures Sorting(levels, k, perm, e)
  {
    forall q, r | 0 <= q < r < |perm|
      ensures Placed(levels, if r < e then k else k + 1, perm[q], perm[r])
    {
      var x, y := perm[q], perm[r];
      assert Placed(levels, if r < f then k else k + 1, x, y);
      if f <= r < e {
        RangeIsClosed(levels, k, f, e, r, y);
        if f <= q {
          RangeIsClosed(levels, k, f, e, q, x);
        } else {
          StaysBelow(levels, k, q, x, f);
          KeepAcross(levels, k, x, y, f);
        }
      }
    }
  }

  /** A slot outside every range is finished as it stands. */
  lemma GapFinishes(levels: seq<Level>, k: int, perm: seq<nat>, i: nat)
    requires k >= 0 && Sorting(levels, k, perm, i) && i < |levels| && !InRange(levels, k, i)
    ensures Sorting(levels, k, perm, i + 1)
  {
    forall q, r | 0 <= q < r < |perm|
      ensures Placed(levels, if r < i + 1 then k else k + 1, perm[q], perm[r])
    {
      if r == i {
        assert SameRange(levels, k, i, perm[i]) && SameRange(levels, k, q, perm[q]) && perm[q] != perm[i];
        assert Placed(levels, k + 1, perm[q], perm[i]);
        KeepAcross(levels, k, perm[q], i, i);
      }
    }
  }

  // ---- the code ------------------------------------------------------------------------------

  /** Reverses `a[f..=l]` in place. */
  method ReverseSlice(a: array<int>, f: nat, l: nat)
    requires f <= l < a.Length
    modifies a
    ensures forall q {:trigger a[q]} :: 0 <= q < a.Length ==>
      a[q] == if f <= q <= l then old(a[f + l - q]) else old(a[q])
  {
    var i, j := f, l;
    while i < j
      invariant f <= i <= j + 1 <= l + 1 && i + j == f + l
      invariant forall q :: 0 <= q < a.Length ==>
        a[q] == if f <= q < i || j < q <= l then old(a[f + l - q]) else old(a[q])
    {
      a[i], a[j] := a[j], a[i];
      i, j := i + 1, j - 1;
    }
  }

  ghost predicate IsRangeSoFar(levels: seq<Level>, k: int, f: nat, e: nat) {
    && f < e <= |levels|
    && levels[f] >= k
    && (forall p :: f <= p < e ==> InRange(levels, k, p))
    && (f > 0 ==> !InRange(levels, k, f - 1))
  }

  lemma StartPass(levels: seq<Level>, k: int, perm: seq<nat>)
    requires Sorted(levels, k + 1, perm)
    ensures Sorting(levels, k, perm, 0)
  {
    forall q | 0 <= q < |perm|
      ensures SameRange(levels, k, q, perm[q])
    {
      SameRangeNests(levels, k, q, perm[q]);
    }
  }

  lemma MirrorShows(levels: seq<Level>, first: nat, perm: seq<nat>, f: nat, e: nat, visual: seq<int>, after: seq<int>)
    requires Shows(levels, first, perm, visual) && f < e <= |perm| && |after| == |visual|
    requires forall q {:trigger after[q]} :: 0 <= q < |visual| ==>
      after[q] == if f <= q < e then visual[f + e - 1 - q] else visual[q]
    ensures Shows(levels, first, Mirror(perm, f, e), after)
  {
  }

  /** The end of the range `[f, e)`: reverses it when it may hold two kept characters. */
  method CloseRange(
    levels: seq<Level>, first: nat, level: Level, visual: array<int>, ghost before: seq<nat>,
    f: nat, ghost e: nat, lastPos: Option<nat>, significantRange: bool)
    returns (ghost perm: seq<nat>)
    requires level > 0 && visual.Length == |levels|
    requires Sorting(levels, level, before, f) && Shows(levels, first, before, visual[..])
    requires IsRange(levels, level, f, e)
    requires lastPos == if e == f + 1 then None else Some(e - 1)
    requires !significantRange ==> forall p :: f < p < e ==> !Kept(levels, p)
    modifies visual
    ensures Sorting(levels, level, perm, e) && Shows(levels, first, perm, visual[..])
  {
    perm := before;
    if lastPos.Some? && significantRange && lastPos.value > f {
      ghost var shown := visual[..];
      ReverseSlice(visual, f, lastPos.value);
      ReverseFinishes(levels, level, before, f, e);
      perm := Mirror(before, f, e);
      MirrorShows(levels, first, before, f, e, shown, visual[..]);
    } else {
      SingleFinishes(levels, level, before, f, e);
    }
  }

  /** One step of rule L2: reverses every range of levels at or above `level`. */
  method ReversePass(levels: seq<Level>, first: nat, level: Level, visual: array<int>, ghost before: seq<nat>)
    returns (ghost perm: seq<nat>)
    requires level > 0 && visual.Length == |levels|
    requires Sorted(levels, level + 1, before) && Shows(levels, first, before, visual[..])
    modifies visual
    ensures Sorted(levels, level, perm) && Shows(levels, first, perm, visual[..])
  {
    perm := before;
    var i := 0;
    var inRange := false;
    var significantRange := false;
    var firstPos: Option<nat> := None;
    var lastPos: Option<nat> := None;
    StartPass(levels, level, before);

    while i < |levels|
      invariant i <= |levels|
      invariant !inRange ==> firstPos.None? && lastPos.None? && (i > 0 ==> !InRange(levels, level, i - 1))
      invariant inRange ==> firstPos.Some? && IsRangeSoFar(levels, level, firstPos.value, i)
      invariant Sorting(levels, level, perm, if inRange then firstPos.value else i)
      invariant Shows(levels, first, perm, visual[..])
      invariant inRange ==> lastPos == if i == firstPos.value + 1 then None else Some(i - 1)
      invariant inRange && !significantRange ==> forall p :: firstPos.value < p < i ==> !Kept(levels, p)
    {
      if levels[i] >= level {
        if !inRange {
          inRange := true;
          firstPos := Some(i);
        } else {
          significantRange := true;
          lastPos := Some(i);
        }
      } else if levels[i] == NO_LEVEL {
        assert !Kept(levels, i);
        if inRange {
          lastPos := Some(i);
        } else {
          GapFinishes(levels, level, perm, i);
        }
      } else {
        if inRange {
          perm := CloseRange(levels, first, level, visual, perm, firstPos.value, i, lastPos, significantRange);
        }
        GapFinishes(levels, level, perm, i);
        inRange := false;
        firstPos := None;
        lastPos := None;
      }
      i := i + 1;
    }
    if inRange {
      perm := CloseRange(levels, first, level, visual, perm, firstPos.value, i, lastPos, significantRange);
    }
  }

  /** The levels that bound the passes: the highest kept level and the lowest odd one. */
  method LevelBounds(levels: seq<Level>) returns (highest: Level, lowestOdd: Level, noLevels: bool)
    ensures noLevels <==> forall i :: !Kept(levels, i)
    ensures forall i :: Kept(levels, i) ==> levels[i] <= highest
    ensures 0 < lowestOdd <= MAX_DEPTH + 1
    ensures forall i :: Kept(levels, i) && IsOdd(levels[i]) && levels[i] <= MAX_DEPTH ==> lowestOdd <= levels[i]
    ensures if HasOddLevel(levels) then IsOdd(lowestOdd) && lowestOdd <= MAX_DEPTH else lowestOdd == MAX_DEPTH + 1
  {
    highest := 0;
    lowestOdd := MAX_DEPTH + 1;
    noLevels := true;
    for i := 0 to |levels|
      invariant noLevels <==> forall p :: 0 <= p < i ==> !Kept(levels, p)
      invariant forall p :: 0 <= p < i && Kept(levels, p) ==> levels[p] <= highest
      invariant 0 < lowestOdd <= MAX_DEPTH + 1
      invariant forall p :: 0 <= p < i && Kept(levels, p) && IsOdd(levels[p]) && levels[p] <= MAX_DEPTH ==>
        lowestOdd <= levels[p]
      invariant lowestOdd == MAX_DEPTH + 1 ||
        exists p :: 0 <= p < i && Kept(levels, p) && IsOdd(levels[p]) && levels[p] == lowestOdd
    {
      if levels[i] == NO_LEVEL {
        continue;
      }
      noLevels := false;
      assert Kept(levels, i);
      highest := MaxLevel(highest, levels[i]);
      if IsOdd(levels[i]) && levels[i] < lowestOdd {
        lowestOdd := levels[i];
      }
    }
  }

  lemma EmptyLine(levels: seq<Level>, first: nat)
    requires forall i :: !Kept(levels, i)
    ensures KeptOnce(levels, first, []) && IsL2Order(levels, first, []) && !HasHighPair(levels)
  {
  }

  /** `visual` lists the kept characters of `perm` in slot order; `from` names their slots. */
  ghost predicate IsRetained(levels: seq<Level>, first: nat, perm: seq<nat>, from: seq<nat>, visual: seq<int>) {
    && |from| == |visual|
    && (forall a :: 0 <= a < |from| ==>
         from[a] < |perm| && Kept(levels, perm[from[a]]) && visual[a] == perm[from[a]] + first)
    && (forall a, b :: 0 <= a < b < |from| ==> from[a] < from[b])
    && (forall q :: 0 <= q < |perm| && Kept(levels, perm[q]) ==> q in from)
  }

  lemma RetainedAre(levels: seq<Level>, first: nat, perm: seq<nat>, from: seq<nat>, visual: seq<int>, x: int)
    requires IsPerm(levels, perm) && IsRetained(levels, first, perm, from, visual)
    ensures x in visual <==> Kept(levels, x - first)
  {
    if Kept(levels, x - first) {
      assert x - first in perm;
      var q :| 0 <= q < |perm| && perm[q] == x - first;
      var a :| 0 <= a < |from| && from[a] == q;
      assert visual[a] == x;
    }
  }

  lemma RetainedOnce(levels: seq<Level>, first: nat, k: int, perm: seq<nat>, from: seq<nat>, visual: seq<int>)
    requires Sorted(levels, k, perm) && IsRetained(levels, first, perm, from, visual)
    ensures KeptOnce(levels, first, visual)
  {
    forall x
      ensures x in visual <==> Kept(levels, x - first)
    {
      RetainedAre(levels, first, perm, from, visual, x);
    }
  }

  /** The logical order, with placeholders for the deleted characters. */
  method InitialVisual(first: nat, levels: seq<Level>) returns (slots: array<int>)
    ensures fresh(slots) && slots.Length == |levels|
    ensures Shows(levels, first, seq(|levels|, i => i), slots[..])
  {
    slots := new int[|levels|];
    for i := 0 to |levels|
      invariant forall p :: 0 <= p < i ==> slots[p] == if Kept(levels, p) then p + first else DELETED
    {
      slots[i] := if levels[i] == NO_LEVEL then DELETED else i + first;
    }
  }

  method Retain(levels: seq<Level>, first: nat, slots: array<int>, ghost perm: seq<nat>)
    returns (visual: seq<int>, ghost from: seq<nat>)
    requires Shows(levels, first, perm, slots[..])
    ensures IsRetained(levels, first, perm, from, visual)
  {
    visual := [];
    from := [];
    for i := 0 to slots.Length
      invariant |from| == |visual|
      invariant forall a :: 0 <= a < |from| ==>
        from[a] < i && Kept(levels, perm[from[a]]) && visual[a] == perm[from[a]] + first
      invariant forall a, b :: 0 <= a < b < |from| ==> from[a] < from[b]
      invariant forall q :: 0 <= q < i && Kept(levels, perm[q]) ==> q in from
    {
      assert slots[i] == slots[..][i];
      if slots[i] != DELETED {
        visual := visual + [slots[i]];
        from := from + [i];
      }
    }
  }

  lemma Untouched(levels: seq<Level>, k: int, perm: seq<nat>)
    requires perm == seq(|levels|, i => i)
    requires forall i :: Kept(levels, i) ==> levels[i] < k
    ensures Sorted(levels, k, perm)
  {
    forall p | 0 <= p < |levels|
      ensures p in perm
    {
      assert perm[p] == p;
    }
  }

  /** Characters `x`, shown first, and `y` are in L2 order exactly when the source's bounds allow it. */
  ghost predicate RightlyPlaced(levels: seq<Level>, x: int, y: int) {
    L2Pair(levels, x, y) <==> HasOddLevel(levels) || !(HighPair(levels, x, y) || HighPair(levels, y, x))
  }

  lemma MinIsSomeLevel(levels: seq<Level>, i: nat, j: nat)
    requires i < j < |levels| && Kept(levels, i)
    ensures exists p :: Kept(levels, p) && levels[p] == MinKept(levels, i, j)
    ensures IsOdd(MinKept(levels, i, j)) && MinKept(levels, i, j) <= MAX_DEPTH ==> HasOddLevel(levels)
  {
    var m := MinKept(levels, i, j);
    var p :| i <= p <= j && Kept(levels, p) && m == levels[p];
    hide MinKept;
  }

  lemma CountsParity(m: Level, k: Level)
    requires 0 <= k <= m
    ensures IsOdd(k) ==> ((m - k + 1) % 2 == 1 <==> IsOdd(m))
    ensures !IsOdd(k) ==> ((m - k + 1) % 2 == 1 <==> !IsOdd(m))
  {
  }

  /** Whether the passes down to the lowest odd level leave the pair `i < j` as rule L2 wants it. */
  lemma FlippedIsOdd(levels: seq<Level>, lowestOdd: Level, i: nat, j: nat)
    requires i < j < |levels| && Kept(levels, i)
    requires forall p :: Kept(levels, p) && IsOdd(levels[p]) && levels[p] <= MAX_DEPTH ==> lowestOdd <= levels[p]
    requires if HasOddLevel(levels) then IsOdd(lowestOdd) && lowestOdd <= MAX_DEPTH else lowestOdd == MAX_DEPTH + 1
    ensures Flipped(levels, lowestOdd, i, j) == IsOdd(MinKept(levels, i, j))
      <==> HasOddLevel(levels) || MinKept(levels, i, j) <= MAX_DEPTH
  {
    MinIsSomeLevel(levels, i, j);
    hide MinKept, HasOddLevel;
    if MinKept(levels, i, j) >= lowestOdd {
      CountsParity(MinKept(levels, i, j), lowestOdd);
    }
  }

  lemma RetainedPair(levels: seq<Level>, lowestOdd: Level, x: nat, y: nat)
    requires forall p :: Kept(levels, p) && IsOdd(levels[p]) && levels[p] <= MAX_DEPTH ==> lowestOdd <= levels[p]
    requires if HasOddLevel(levels) then IsOdd(lowestOdd) && lowestOdd <= MAX_DEPTH else lowestOdd == MAX_DEPTH + 1
    requires x != y && Kept(levels, x) && Kept(levels, y) && Placed(levels, lowestOdd, x, y)
    ensures RightlyPlaced(levels, x, y)
  {
    FlippedIsOdd(levels, lowestOdd, if x < y then x else y, if x < y then y else x);
  }

  lemma RetainedDiffer(levels: seq<Level>, perm: seq<nat>, q: nat, r: nat)
    requires IsPerm(levels, perm) && q < r < |perm|
    ensures perm[q] != perm[r]
  {
  }

  lemma Ordered(levels: seq<Level>, i: int, j: int)
    requires HighPair(levels, i, j)
    ensures i < j
  {
  }

  lemma WronglyPlaced(levels: seq<Level>, first: nat, visual: seq<int>, i: int, j: int)
    requires i + first in visual && j + first in visual && HighPair(levels, i, j) && !HasOddLevel(levels)
    requires forall a, b :: 0 <= a < b < |visual| ==> RightlyPlaced(levels, visual[a] - first, visual[b] - first)
    ensures !IsL2Order(levels, first, visual)
  {
    hide HasOddLevel, L2Pair, HighPair;
    var a :| 0 <= a < |visual| && visual[a] == i + first;
    var b :| 0 <= b < |visual| && visual[b] == j + first;
    assert i < j by { Ordered(levels, i, j); }
    assert RightlyPlaced(levels, visual[if a < b then a else b] - first, visual[if a < b then b else a] - first);
  }

  lemma PairsDecideL2(levels: seq<Level>, first: nat, visual: seq<int>)
    requires forall x :: x in visual <==> Kept(levels, x - first)
    requires forall a, b :: 0 <= a < b < |visual| ==> RightlyPlaced(levels, visual[a] - first, visual[b] - first)
    ensures IsL2Order(levels, first, visual) <==> HasOddLevel(levels) || !HasHighPair(levels)
  {
    hide MinKept;
    if HasHighPair(levels) && !HasOddLevel(levels) {
      var i, j :| HighPair(levels, i, j);
      WronglyPlaced(levels, first, visual, i, j);
    }
  }

  lemma OrderIsL2(levels: seq<Level>, first: nat, lowestOdd: Level, perm: seq<nat>, from: seq<nat>, visual: seq<int>)
    requires forall p :: Kept(levels, p) && IsOdd(levels[p]) && levels[p] <= MAX_DEPTH ==> lowestOdd <= levels[p]
    requires if HasOddLevel(levels) then IsOdd(lowestOdd) && lowestOdd <= MAX_DEPTH else lowestOdd == MAX_DEPTH + 1
    requires Sorted(levels, lowestOdd, perm) && IsRetained(levels, first, perm, from, visual)
    ensures IsL2Order(levels, first, visual) <==> HasOddLevel(levels) || !HasHighPair(levels)
  {
    hide IsL2Order, HasOddLevel, HasHighPair, MinKept, IsOdd, Flipped, RightlyPlaced, IsPerm;
    forall x
      ensures x in visual <==> Kept(levels, x - first)
    {
      RetainedAre(levels, first, perm, from, visual, x);
    }
    forall a, b | 0 <= a < b < |visual|
      ensures RightlyPlaced(levels, visual[a] - first, visual[b] - first)
    {
      assert Placed(levels, lowestOdd, perm[from[a]], perm[from[b]]);
      RetainedDiffer(levels, perm, from[a], from[b]);
      RetainedPair(levels, lowestOdd, perm[from[a]], perm[from[b]]);
    }
    PairsDecideL2(levels, first, visual);
  }

  /**
    * Rule L2 on the line that starts at character `first`, with rule L3 off. The result is the
    * display order that UAX #9 asks for, except when every odd level is above MAX_DEPTH and two
    * neighbouring kept characters are above it too: then the code reverses them wrongly.
    */
  method ReverseLevels(first: nat, levels: seq<Level>) returns (visual: seq<int>)
    ensures KeptOnce(levels, first, visual)
    ensures IsL2Order(levels, first, visual) <==> HasOddLevel(levels) || !HasHighPair(levels)
  {
    hide Sorted, Shows, IsRetained, KeptOnce, IsL2Order, HasOddLevel, HasHighPair, MinKept, IsOdd;
    var highest, lowestOdd, noLevels := LevelBounds(levels);
    if noLevels {
      EmptyLine(levels, first);
      return [];
    }
    var slots := InitialVisual(first, levels);
    ghost var perm: seq<nat> := seq(|levels|, i => i);
    var level: int := highest;
    Untouched(levels, if highest < lowestOdd then lowestOdd else highest + 1, perm);
    while lowestOdd <= level
      invariant level <= highest && (lowestOdd <= level + 1 || level == highest)
      invariant Sorted(levels, if level < lowestOdd then lowestOdd else level + 1, perm)
      invariant Shows(levels, first, perm, slots[..])
    {
      perm := ReversePass(levels, first, level, slots, perm);
      level := level - 1;
    }
    ghost var from;
    visual, from := Retain(levels, first, slots, perm);
    RetainedOnce(levels, first, lowestOdd, perm, from, visual);
    OrderIsL2(levels, first, lowestOdd, perm, from, visual);
  }

  /**
    * Where the code is wrong: two neighbouring characters at level 126. Rule L2 keeps their order, but the line has a
    * high pair and no odd level, so that `ReverseLevels` does not.
    */
  lemma {:induction false} HighDigitsAreSwapped(first: nat)
    ensures IsL2Order([126, 126], first, [first, first + 1])
    ensures HasHighPair([126, 126]) && !HasOddLevel([126, 126])
  {
    var levels: seq<Level> := [126, 126];
    assert MinKept(levels, 0, 1) == 126;
    hide MinKept;
    assert HighPair(levels, 0, 1);
    assert L2Pair(levels, 0, 1);
  }
}
