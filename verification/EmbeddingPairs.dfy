/** Rule X7 of UAX #9 (section 3.3.2): what a PDF closes, by definition BD11. */
module EmbeddingPairs {
  import opened Wrappers
  import opened BidiTypes
  import opened LevelStacks
  import opened ParagraphLevels
  import opened ExplicitLevels

  // ---- embeddings in the text --------------------------------------------------------------------

  /** Embedding and override initiators minus PDFs on `[from, to)`, without what stands in isolates opened there. */
  function EmbedNest(types: seq<BidiClass>, from: nat, to: nat): int
    requires from <= to <= |types|
  {
    if from == to then 0
    else
      var n := EmbedNest(types, from, to - 1);
      if Nest(types, from, to - 1) != 0 then n
      else if types[to - 1].IsEmbeddingInit() then n + 1
      else if types[to - 1].PopDirectionalFormat? then n - 1
      else n
  }

  /** Neither the embedding that `i` initiates nor the isolate around it is closed before `k`. */
  predicate StaysOpen(types: seq<BidiClass>, i: nat, k: nat)
    requires i < k <= |types|
  {
    Nest(types, i + 1, k) >= 0 && EmbedNest(types, i + 1, k) >= 0
  }

  /** BD11: `j` is the PDF that matches the embedding or override initiator `i`. */
  ghost predicate MatchesEmbedding(types: seq<BidiClass>, i: nat, j: nat) {
    && i < j < |types|
    && types[i].IsEmbeddingInit() && types[j].PopDirectionalFormat?
    && Nest(types, i + 1, j) == 0 && EmbedNest(types, i + 1, j) == 0
    && (forall k :: i < k < j ==> StaysOpen(types, i, k))
  }

  /** With `h` embeddings open at `from`, those open before `to`; PDFs that close nothing do not count. */
  function StillOpen(types: seq<BidiClass>, from: nat, to: nat, h: nat): nat
    requires from <= to <= |types|
  {
    if from == to then h
    else
      var n := StillOpen(types, from, to - 1, h);
      if Nest(types, from, to - 1) != 0 then n
      else if types[to - 1].IsEmbeddingInit() then n + 1
      else if types[to - 1].PopDirectionalFormat? && n > 0 then n - 1
      else n
  }

  function NestAt(types: seq<BidiClass>, from: nat, h: nat): int
    requires from <= h <= |types|
  {
    Nest(types, from, h)
  }

  /** No PDI on `[from, k)` closes an isolate opened before `from`. */
  ghost predicate IsInner(types: seq<BidiClass>, from: nat, k: nat) {
    from <= k <= |types| && forall h :: from <= h <= k ==> NestAt(types, from, h) >= 0
  }

  /** The last place before `k` that is in no isolate opened from `from` on. */
  lemma {:induction false} LastOutside(types: seq<BidiClass>, from: nat, k: nat) returns (m: nat)
    requires IsInner(types, from, k) && from < k && Nest(types, from, k) > 0
    ensures from <= m < k && Nest(types, from, m) == 0
    ensures forall h :: m < h <= k ==> NestAt(types, from, h) > 0
  {
    if NestAt(types, from, k - 1) == 0 {
      m := k - 1;
    } else {
      m := LastOutside(types, from, k - 1);
    }
  }

  /** What stands in isolates makes no difference to the counts. */
  lemma {:induction false} CountsRest(types: seq<BidiClass>, from: nat, m: nat, k: nat)
    requires from <= m < k <= |types| && types[m].IsIsoInit()
    requires forall h :: m < h < k ==> NestAt(types, from, h) > 0
    ensures EmbedNest(types, from, k) == EmbedNest(types, from, m)
    ensures forall h :: StillOpen(types, from, k, h) == StillOpen(types, from, m, h)
  {
    if m + 1 < k {
      CountsRest(types, from, m, k - 1);
      assert NestAt(types, from, k - 1) > 0;
    }
  }

  /** A PDI that leads back out of all isolates opened from `from` on matches an initiator outside of them. */
  lemma {:induction false} InnerIsolate(types: seq<BidiClass>, from: nat, j: nat) returns (m: nat)
    requires IsInner(types, from, j + 1) && j < |types| && types[j].PopDirectionalIsolate?
    requires from <= j && Nest(types, from, j + 1) == 0
    ensures from <= m < j && MatchesIsolate(types, m, j) && Nest(types, from, m) == 0
    ensures EmbedNest(types, from, j + 1) == EmbedNest(types, from, m)
    ensures forall h :: StillOpen(types, from, j + 1, h) == StillOpen(types, from, m, h)
  {
    m := LastOutside(types, from, j);
    assert NestAt(types, from, m + 1) > 0;
    forall h | m < h <= j
      ensures IsOpen(types, m, h)
    {
      NestSplit(types, from, m + 1, h);
      assert NestAt(types, from, h) > 0;
    }
    NestSplit(types, from, m + 1, j);
    CountsRest(types, from, m, j + 1);
  }

  // ---- one step ----------------------------------------------------------------------------------

  /** The full stack drops the entry of an embedding initiator. */
  predicate DropsEmbedding(s: State, c: BidiClass, fsiRtl: bool) {
    c.IsEmbeddingInit() && Accepts(s, NextLevel(s, c, fsiRtl)) && |s.stack| >= MAX_DEPTH
  }

  predicate DropsEmbeddingAt(types: seq<BidiClass>, base: Level, i: nat)
    requires 0 <= base <= 1
  {
    && i < |types| && Run(types, base, i).Some?
    && DropsEmbedding(Run(types, base, i).value, types[i], FsiIsRtl(types, i))
  }

  /** No embedding can be closed: the base or an isolate is on top. */
  predicate IsFloor(s: State) {
    Top(s).isolate || |s.stack| == 1
  }

  predicate NoneIsolates(stack: seq<Entry>, f: nat) {
    forall k :: f <= k < |stack| ==> !stack[k].isolate
  }

  /** `t` differs from `s` only by embeddings, above the lowest `f` entries, and those that overflowed. */
  ghost predicate OnFloor(s: State, t: State, f: nat) {
    && 1 <= f <= |t.stack| && f <= |s.stack| && t.stack[..f] == s.stack[..f]
    && NoneIsolates(t.stack, f) && (f == 1 || s.stack[f - 1].isolate)
    && t.overflowIsolate == 0 && t.validIsolate == s.validIsolate
  }

  /** The embeddings above the floor, with those that overflowed. */
  function Height(t: State, f: nat): int {
    |t.stack| - f + t.overflowEmbedding
  }

  lemma StepOnFloor(s: State, t: State, f: nat, c: BidiClass, fsiRtl: bool)
    requires OnFloor(s, t, f) && !c.IsIsoControl()
    ensures Step(t, c, fsiRtl).Some? && Inv(Step(t, c, fsiRtl).value)
    ensures var u: State := Step(t, c, fsiRtl).value;
      && OnFloor(s, u, f)
      && Height(u, f) ==
           if c.IsEmbeddingInit() then Height(t, f) + (if DropsEmbedding(t, c, fsiRtl) then 0 else 1)
           else if c.PopDirectionalFormat? && Height(t, f) > 0 then Height(t, f) - 1
           else Height(t, f)
  {
    StepKeeps(t, c, fsiRtl);
    StepPanics(t, c, fsiRtl);
    hide NextLevel, Inv, Isolates;
    if c.PopDirectionalFormat? {
      assert f < |t.stack| ==> !Top(t).isolate;
      assert f == |t.stack| ==> t.stack[..f][f - 1] == s.stack[..f][f - 1];
    }
  }

  /** From `s` to `t` the isolates stay, and `en` more embeddings are open: stacked, or counted as overflowed. */
  ghost predicate IsOver(s: State, t: State, en: int) {
    && s.stack <= t.stack && NoneIsolates(t.stack, |s.stack|) && en >= 0
    && t.overflowIsolate == s.overflowIsolate && t.validIsolate == s.validIsolate
    && if s.overflowIsolate > 0 then t == s
       else if s.overflowEmbedding > 0 then t == s.(overflowEmbedding := s.overflowEmbedding + en)
       else |t.stack| + t.overflowEmbedding == |s.stack| + en
  }

  lemma PdfOver(s: State, t: State, en: int)
    requires IsOver(s, t, en) && en > 0
    ensures Inv(CloseEmbedding(t)) && IsOver(s, CloseEmbedding(t), en - 1)
  {
    CloseEmbeddingKeeps(t);
    assert |s.stack| >= 1;
    hide Inv, Isolates;
    if t.overflowIsolate == 0 && t.overflowEmbedding == 0 {
      assert s.overflowEmbedding == 0 && |t.stack| > |s.stack| && !Top(t).isolate;
    }
  }

  lemma EmbedOver(s: State, t: State, en: int, level: Option<Level>, override: Override)
    requires IsOver(s, t, en) && (level.Some? ==> Top(t).level < level.value <= MAX_DEPTH)
    requires Accepts(t, level) ==> |t.stack| < MAX_DEPTH
    ensures Inv(Embed(t, level, override)) && IsOver(s, Embed(t, level, override), en + 1)
  {
    EmbedKeeps(t, level, override);
    hide Inv, Isolates, Top;
  }

  lemma StepOver(s: State, t: State, en: int, c: BidiClass, fsiRtl: bool)
    requires IsOver(s, t, en) && !c.IsIsoControl() && !DropsEmbedding(t, c, fsiRtl)
    requires c.PopDirectionalFormat? ==> en > 0
    ensures Step(t, c, fsiRtl).Some? && Inv(Step(t, c, fsiRtl).value)
    ensures IsOver(
      s, Step(t, c, fsiRtl).value, if c.IsEmbeddingInit() then en + 1 else if c.PopDirectionalFormat? then en - 1
        else en)
  {
    hide NextLevel, Inv, Isolates, IsOver, Embed, CloseEmbedding, Accepts, Top;
    if c.PopDirectionalFormat? {
      PdfOver(s, t, en);
    } else if c.IsEmbeddingInit() {
      EmbedOver(
        s, t, en, NextLevel(t, c, fsiRtl), if c.RightToLeftOverride? then RTL
          else if c.LeftToRightOverride? then LTR else
        Neutral);
    }
  }

  /** Behind an initiator that took no effect only its overflow counter moves. */
  ghost predicate Overflowed(s: State, t: State, en: int) {
    && en >= 0
    && t == s.(overflowEmbedding := s.overflowEmbedding + if s.overflowIsolate == 0 then 1 + en else 0)
  }

  lemma StepOverflowed(s: State, t: State, en: int, c: BidiClass, fsiRtl: bool)
    requires Overflowed(s, t, en) && !c.IsIsoControl() && (c.PopDirectionalFormat? ==> en > 0)
    ensures Step(t, c, fsiRtl).Some? && Inv(Step(t, c, fsiRtl).value)
    ensures Overflowed(
      s, Step(t, c, fsiRtl).value, if c.IsEmbeddingInit() then en + 1 else if c.PopDirectionalFormat? then en - 1
        else en)
  {
    hide NextLevel, Top, IsStack, Isolates;
  }

  // ---- whole stretches ---------------------------------------------------------------------------

  function EmbedAt(types: seq<BidiClass>, from: nat, h: nat): int
    requires from <= h <= |types|
  {
    EmbedNest(types, from, h)
  }

  /** No PDF on `[from, k)` closes an embedding opened before `from`. */
  ghost predicate IsWithin(types: seq<BidiClass>, from: nat, k: nat) {
    from <= k <= |types| && forall h :: from <= h <= k ==> EmbedAt(types, from, h) >= 0
  }

  lemma {:induction false} NoneCloses(types: seq<BidiClass>, from: nat, k: nat, h: nat)
    requires IsWithin(types, from, k)
    ensures StillOpen(types, from, k, h) == h + EmbedNest(types, from, k)
  {
    if from < k {
      NoneCloses(types, from, k - 1, h);
      assert EmbedAt(types, from, k) >= 0;
    }
  }

  /** A full stack drops an embedding on `[from, k)`, outside the isolates opened there. */
  ghost predicate IsDropped(types: seq<BidiClass>, base: Level, from: nat, k: nat)
    requires 0 <= base <= 1 && from <= k <= |types|
  {
    exists h :: from <= h < k && NestAt(types, from, h) == 0 && DropsEmbeddingAt(types, base, h)
  }

  ghost predicate NoIsolateDropped(types: seq<BidiClass>, base: Level, from: nat, k: nat)
    requires 0 <= base <= 1 && from <= k <= |types|
  {
    forall h :: from <= h < k ==> !DropsAt(types, base, h)
  }

  /** One more character, outside the isolates. */
  lemma Outside(types: seq<BidiClass>, from: nat, k: nat)
    requires IsInner(types, from, k) && from < k && Nest(types, from, k) == 0
    requires !types[k - 1].PopDirectionalIsolate?
    ensures IsInner(types, from, k - 1) && Nest(types, from, k - 1) == 0 && !types[k - 1].IsIsoControl()
  {
    assert NestAt(types, from, k - 1) >= 0;
  }

  lemma InnerShorter(types: seq<BidiClass>, from: nat, k: nat, m: nat)
    requires IsInner(types, from, k) && from <= m <= k
    ensures IsInner(types, from, m)
  {
  }

  /** An isolate drops no embedding of the text around it. */
  lemma IsolateHidesDrops(types: seq<BidiClass>, base: Level, from: nat, m: nat, j: nat)
    requires 0 <= base <= 1 && from <= m && MatchesIsolate(types, m, j) && Nest(types, from, m) == 0
    ensures IsDropped(types, base, from, j + 1) <==> IsDropped(types, base, from, m)
  {
    forall h | m <= h < j + 1 && NestAt(types, from, h) == 0
      ensures !DropsEmbeddingAt(types, base, h)
    {
      if h > m {
        NestSplit(types, from, m + 1, h);
        assert h < j ==> IsOpen(types, m, h);
      }
    }
  }

  lemma DropsOneMore(types: seq<BidiClass>, base: Level, from: nat, k: nat)
    requires 0 <= base <= 1 && from < k <= |types| && Nest(types, from, k - 1) == 0
    ensures IsDropped(types, base, from, k) <==>
      IsDropped(types, base, from, k - 1) || DropsEmbeddingAt(types, base, k - 1)
  {
    hide DropsEmbeddingAt;
    assert NestAt(types, from, k - 1) == 0;
  }

  /** Above a floor, embeddings come and go as they are counted in the text, but for those that a full stack drops. */
  lemma {:induction false} FloorRun(types: seq<BidiClass>, base: Level, from: nat, s: State, f: nat, k: nat)
    requires 0 <= base <= 1 && IsInner(types, from, k) && Nest(types, from, k) == 0
    requires Run(types, base, from).Some? && OnFloor(s, Run(types, base, from).value, f)
    requires NoIsolateDropped(types, base, from, k)
    ensures Run(types, base, k).Some? && OnFloor(s, Run(types, base, k).value, f)
    ensures Height(Run(types, base, from).value, f) >= 0
    ensures var n := StillOpen(types, from, k, Height(Run(types, base, from).value, f));
      && 0 <= Height(Run(types, base, k).value, f) <= n
      && (!IsDropped(types, base, from, k) ==> Height(Run(types, base, k).value, f) == n)
    decreases k
  {
    hide Run, Step, Inv, DropsEmbedding;
    if from < k {
      if types[k - 1].PopDirectionalIsolate? {
        var m := InnerIsolate(types, from, k - 1);
        InnerShorter(types, from, k, m);
        FloorRun(types, base, from, s, f, m);
        UndroppedRestores(types, base, m, k - 1);
        IsolateHidesDrops(types, base, from, m, k - 1);
      } else {
        Outside(types, from, k);
        FloorRun(types, base, from, s, f, k - 1);
        RunStep(types, base, k - 1);
        StepOnFloor(s, Run(types, base, k - 1).value, f, types[k - 1], FsiIsRtl(types, k - 1));
        DropsOneMore(types, base, from, k);
      }
    }
  }

  /** At most this many embeddings are left of `h` when one was dropped and `en` were opened since. */
  function Left(h: int, en: int): int {
    (if h > 2 then h - 1 else 1) + en
  }

  /** The character at `k - 1` is an embedding initiator that the full stack drops. */
  lemma DropLowers(types: seq<BidiClass>, base: Level, from: nat, s: State, f: nat, k: nat)
    requires 0 <= base <= 1 && IsInner(types, from, k) && Nest(types, from, k) == 0 && IsWithin(types, from, k)
    requires Run(types, base, from).Some? && OnFloor(s, Run(types, base, from).value, f)
    requires NoIsolateDropped(types, base, from, k) && from < k && DropsEmbeddingAt(types, base, k - 1)
    ensures Run(types, base, k).Some?
    ensures Height(Run(types, base, k).value, f) <=
      Left(Height(Run(types, base, from).value, f), EmbedNest(types, from, k))
  {
    hide Run, Step, Inv, NextLevel, Accepts, OnFloor, Height;
    Outside(types, from, k);
    FloorRun(types, base, from, s, f, k - 1);
    NoneCloses(types, from, k - 1, Height(Run(types, base, from).value, f));
    RunStep(types, base, k - 1);
    StepOnFloor(s, Run(types, base, k - 1).value, f, types[k - 1], FsiIsRtl(types, k - 1));
  }

  lemma NothingDropped(types: seq<BidiClass>, base: Level, from: nat)
    requires 0 <= base <= 1 && from <= |types|
    ensures !IsDropped(types, base, from, from)
  {
  }

  /** Once an embedding was dropped, one fewer is stacked, or at most those that the text has opened since. */
  lemma {:induction false} DroppedIsLower(types: seq<BidiClass>, base: Level, from: nat, s: State, f: nat, k: nat)
    requires 0 <= base <= 1 && IsInner(types, from, k) && Nest(types, from, k) == 0 && IsWithin(types, from, k)
    requires Run(types, base, from).Some? && OnFloor(s, Run(types, base, from).value, f)
    requires NoIsolateDropped(types, base, from, k) && IsDropped(types, base, from, k)
    ensures Run(types, base, k).Some?
    ensures Height(Run(types, base, k).value, f) <=
      Left(Height(Run(types, base, from).value, f), EmbedNest(types, from, k))
    decreases k
  {
    hide Run, Step, Inv, DropsEmbeddingAt, OnFloor, Height, IsDropped;
    if from == k {
      NothingDropped(types, base, from);
    } else if types[k - 1].PopDirectionalIsolate? {
      var m := InnerIsolate(types, from, k - 1);
      InnerShorter(types, from, k, m);
      IsolateHidesDrops(types, base, from, m, k - 1);
      FloorRun(types, base, from, s, f, m);
      UndroppedRestores(types, base, m, k - 1);
      DroppedIsLower(types, base, from, s, f, m);
    } else {
      Outside(types, from, k);
      DropsOneMore(types, base, from, k);
      if IsDropped(types, base, from, k - 1) {
        DroppedIsLower(types, base, from, s, f, k - 1);
        FloorRun(types, base, from, s, f, k - 1);
        RunStep(types, base, k - 1);
        StepOnFloor(s, Run(types, base, k - 1).value, f, types[k - 1], FsiIsRtl(types, k - 1));
        assert EmbedAt(types, from, k) >= 0;
      } else {
        DropLowers(types, base, from, s, f, k);
      }
    }
  }

  /** Without drops, embeddings come and go above the state at `from`. */
  lemma {:induction false} OverRun(types: seq<BidiClass>, base: Level, from: nat, k: nat)
    requires 0 <= base <= 1 && IsInner(types, from, k) && Nest(types, from, k) == 0 && IsWithin(types, from, k)
    requires Run(types, base, from).Some? && NoIsolateDropped(types, base, from, k) && !IsDropped(types, base, from, k)
    ensures Run(types, base, k).Some?
    ensures IsOver(Run(types, base, from).value, Run(types, base, k).value, EmbedNest(types, from, k))
    decreases k
  {
    hide Run, Step, Inv, DropsEmbedding;
    if from < k {
      if types[k - 1].PopDirectionalIsolate? {
        var m := InnerIsolate(types, from, k - 1);
        InnerShorter(types, from, k, m);
        IsolateHidesDrops(types, base, from, m, k - 1);
        OverRun(types, base, from, m);
        UndroppedRestores(types, base, m, k - 1);
      } else {
        Outside(types, from, k);
        DropsOneMore(types, base, from, k);
        OverRun(types, base, from, k - 1);
        RunStep(types, base, k - 1);
        assert EmbedAt(types, from, k) >= 0;
        StepOver(
          Run(types, base, from).value, Run(types, base, k - 1).value, EmbedNest(types, from, k - 1), types[k - 1],
          FsiIsRtl(types, k - 1));
      }
    }
  }

  /** On `[from, k)` whatever is opened is closed again, nothing else is closed, and the full stack drops nothing. */
  ghost predicate IsBalanced(types: seq<BidiClass>, base: Level, from: nat, k: nat)
    requires 0 <= base <= 1
  {
    && IsInner(types, from, k) && Nest(types, from, k) == 0 && IsWithin(types, from, k) &&
       EmbedNest(types, from, k) == 0
    && NoIsolateDropped(types, base, from, k) && !IsDropped(types, base, from, k)
  }

  lemma OverNothing(s: State, t: State)
    requires IsOver(s, t, 0)
    ensures t == s
  {
  }

  /** A balanced stretch leaves the state as it was, whatever that is. */
  lemma {:induction false} BalancedRestores(types: seq<BidiClass>, base: Level, from: nat, k: nat)
    requires 0 <= base <= 1 && from <= |types| && Run(types, base, from).Some? && IsBalanced(types, base, from, k)
    ensures k <= |types| && Run(types, base, k) == Run(types, base, from)
  {
    OverRun(types, base, from, k);
    hide Run, IsOver;
    OverNothing(Run(types, base, from).value, Run(types, base, k).value);
  }

  lemma NotAtPdi(types: seq<BidiClass>, base: Level, j: nat)
    requires 0 <= base <= 1 && j < |types| && types[j].PopDirectionalIsolate?
    ensures !DropsAt(types, base, j)
  {
    hide Run, NextLevel;
  }

  lemma {:induction false} RejectedRestores(types: seq<BidiClass>, base: Level, i: nat, j: nat)
    requires 0 <= base <= 1 && MatchesIsolate(types, i, j) && Run(types, base, i).Some?
    requires !Accepts(Run(types, base, i).value, NextLevel(Run(types, base, i).value, types[i], FsiIsRtl(types, i)))
    ensures Run(types, base, j + 1) == Run(types, base, i) && NoIsolateDropped(types, base, i, j + 1)
  {
    hide Run, NextLevel, Accepts, Drops;
    DropsGrow(types, base, i, j);
    if Drops(types, base, i) != Drops(types, base, j) {
      DropsWereAccepted(types, base, i, j);
    }
    UndroppedRestores(types, base, i, j);
    NotAtPdi(types, base, j);
  }

  lemma {:induction false} OverflowedRun(types: seq<BidiClass>, base: Level, from: nat, s: State, k: nat)
    requires 0 <= base <= 1 && IsInner(types, from, k) && Nest(types, from, k) == 0 && IsWithin(types, from, k)
    requires Run(types, base, from).Some? && Overflowed(s, Run(types, base, from).value, 0)
    ensures Run(types, base, k).Some? && Overflowed(s, Run(types, base, k).value, EmbedNest(types, from, k))
    ensures !IsDropped(types, base, from, k)
    decreases k
  {
    hide Run, Step, Inv, NextLevel;
    if from < k {
      if types[k - 1].PopDirectionalIsolate? {
        var m := InnerIsolate(types, from, k - 1);
        InnerShorter(types, from, k, m);
        OverflowedRun(types, base, from, s, m);
        assert EmbedAt(types, from, m) >= 0;
        RejectedRestores(types, base, m, k - 1);
        IsolateHidesDrops(types, base, from, m, k - 1);
      } else {
        Outside(types, from, k);
        OverflowedRun(types, base, from, s, k - 1);
        DropsOneMore(types, base, from, k);
        RunStep(types, base, k - 1);
        assert EmbedAt(types, from, k) >= 0 && EmbedAt(types, from, k - 1) >= 0;
        StepOverflowed(
          s, Run(types, base, k - 1).value, EmbedNest(types, from, k - 1), types[k - 1], FsiIsRtl(types, k - 1));
      }
    }
  }

  // ---- what a PDF closes -------------------------------------------------------------------------

  /** The initiator at `i`, or one of the embeddings opened inside before `j`, meets a full stack. */
  ghost predicate EmbeddingDropped(types: seq<BidiClass>, base: Level, i: nat, j: nat)
    requires 0 <= base <= 1 && i < j <= |types|
  {
    DropsEmbeddingAt(types, base, i) || IsDropped(types, base, i + 1, j)
  }

  lemma MatchedIsInner(types: seq<BidiClass>, i: nat, j: nat)
    requires MatchesEmbedding(types, i, j)
    ensures IsInner(types, i + 1, j) && IsWithin(types, i + 1, j)
  {
    var from := i + 1;
    forall h | from <= h <= j
      ensures NestAt(types, from, h) >= 0 && EmbedAt(types, from, h) >= 0
    {
      assert h < j ==> StaysOpen(types, i, h);
    }
  }

  /** The lowest place above the base and above all isolates. */
  lemma FindFloor(s: State) returns (f: nat)
    ensures OnFloor(s, s.(overflowIsolate := 0), f)
    ensures f == |s.stack| <==> IsFloor(s)
  {
    f := |s.stack|;
    while f > 1 && !s.stack[f - 1].isolate
      invariant 1 <= f <= |s.stack| && NoneIsolates(s.stack, f)
      invariant f < |s.stack| ==> !IsFloor(s)
    {
      f := f - 1;
    }
  }

  lemma SameStateDropsNone(types: seq<BidiClass>, base: Level, i: nat, k: nat)
    requires 0 <= base <= 1 && i <= k <= |types| && Run(types, base, i).Some?
    requires Run(types, base, k) == Run(types, base, i)
    ensures NoIsolateDropped(types, base, i, k)
  {
    hide Run, Drops, Isolates, DropsAt;
    IsolatesAreCounted(types, base, i);
    IsolatesAreCounted(types, base, k);
    DropsGrow(types, base, i, k);
  }

  lemma RejectedStep(s: State, c: BidiClass, fsiRtl: bool)
    requires c.IsEmbeddingInit() && !Accepts(s, NextLevel(s, c, fsiRtl))
    ensures Step(s, c, fsiRtl).Some? && Overflowed(s, Step(s, c, fsiRtl).value, 0)
  {
    hide NextLevel, Inv;
  }

  lemma OverflowEnds(s: State, t: State, fsiRtl: bool)
    requires Overflowed(s, t, 0)
    ensures Step(t, PopDirectionalFormat, fsiRtl) == Some(s)
  {
    hide Inv, Top;
  }

  lemma RejectedPdf(types: seq<BidiClass>, base: Level, i: nat, j: nat)
    requires 0 <= base <= 1 && MatchesEmbedding(types, i, j) && Run(types, base, i).Some?
    requires !Accepts(Run(types, base, i).value, NextLevel(Run(types, base, i).value, types[i], FsiIsRtl(types, i)))
    ensures Run(types, base, j + 1) == Run(types, base, i)
    ensures NoIsolateDropped(types, base, i, j + 1) && !EmbeddingDropped(types, base, i, j)
  {
    hide Run, NextLevel, Accepts, Step, Inv;
    var s := Run(types, base, i).value;
    MatchedIsInner(types, i, j);
    RunStep(types, base, i);
    RejectedStep(s, types[i], FsiIsRtl(types, i));
    OverflowedRun(types, base, i + 1, s, j);
    RunStep(types, base, j);
    OverflowEnds(s, Run(types, base, j).value, FsiIsRtl(types, j));
    SameStateDropsNone(types, base, i, j + 1);
  }

  lemma PdfUndoes(s: State, t: State, c: BidiClass, fsiRtl: bool, fsiRtl': bool)
    requires c.IsEmbeddingInit() && Accepts(s, NextLevel(s, c, fsiRtl)) && |s.stack| < MAX_DEPTH
    requires Step(s, c, fsiRtl) == Some(t)
    ensures Step(t, PopDirectionalFormat, fsiRtl') == Some(s)
  {
    StepPushes(s, c, fsiRtl);
    hide NextLevel, Inv, Isolates;
    assert t.stack[..|t.stack| - 1] == s.stack;
  }

  lemma EmbedStep(s: State, c: BidiClass, fsiRtl: bool)
    requires c.IsEmbeddingInit()
    ensures Step(s, c, fsiRtl).Some? && Inv(Step(s, c, fsiRtl).value)
  {
    StepKeeps(s, c, fsiRtl);
    StepPanics(s, c, fsiRtl);
    hide Inv, Step, NextLevel;
  }

  lemma KeptPdf(types: seq<BidiClass>, base: Level, i: nat, j: nat)
    requires 0 <= base <= 1 && MatchesEmbedding(types, i, j) && Run(types, base, i).Some?
    requires Accepts(Run(types, base, i).value, NextLevel(Run(types, base, i).value, types[i], FsiIsRtl(types, i)))
    requires NoIsolateDropped(types, base, i, j) && !EmbeddingDropped(types, base, i, j)
    ensures Run(types, base, j + 1) == Run(types, base, i)
  {
    hide Run, NextLevel, Step, Inv, Accepts, IsDropped;
    var s, c, fsiRtl := Run(types, base, i).value, types[i], FsiIsRtl(types, i);
    MatchedIsInner(types, i, j);
    RunStep(types, base, i);
    EmbedStep(s, c, fsiRtl);
    BalancedRestores(types, base, i + 1, j);
    RunStep(types, base, j);
    PdfUndoes(s, Run(types, base, j).value, c, fsiRtl, FsiIsRtl(types, j));
  }

  /** Fewer embeddings than before, or none at all. */
  lemma FloorEnds(s: State, t: State, f: nat)
    requires OnFloor(s, s, f) && OnFloor(s, t, f) && (f == |s.stack| <==> IsFloor(s))
    requires s.overflowEmbedding == 0 && s.overflowIsolate == 0
    requires 0 <= Height(t, f) <= if Height(s, f) > 1 then Height(s, f) - 1 else 0
    ensures t == s <==> IsFloor(s)
  {
    hide Inv, Isolates, IsFloor;
    assert f == |s.stack| ==> s.stack[..f] == s.stack;
    assert f == |t.stack| ==> t.stack[..f] == t.stack;
  }

  lemma DroppedPdf(types: seq<BidiClass>, base: Level, i: nat, j: nat)
    requires 0 <= base <= 1 && MatchesEmbedding(types, i, j) && Run(types, base, i).Some?
    requires Accepts(Run(types, base, i).value, NextLevel(Run(types, base, i).value, types[i], FsiIsRtl(types, i)))
    requires NoIsolateDropped(types, base, i, j) && EmbeddingDropped(types, base, i, j)
    ensures Run(types, base, j + 1) == Run(types, base, i) <==> IsFloor(Run(types, base, i).value)
  {
    hide Run, NextLevel, Step, Inv, OnFloor, IsFloor, IsDropped, Height;
    var s := Run(types, base, i).value;
    var f := FindFloor(s);
    MatchedIsInner(types, i, j);
    RunStep(types, base, i);
    StepOnFloor(s, s, f, types[i], FsiIsRtl(types, i));
    FloorRun(types, base, i + 1, s, f, j);
    NoneCloses(types, i + 1, j, Height(Run(types, base, i + 1).value, f));
    if IsDropped(types, base, i + 1, j) {
      DroppedIsLower(types, base, i + 1, s, f, j);
    }
    RunStep(types, base, j);
    StepOnFloor(s, Run(types, base, j).value, f, types[j], FsiIsRtl(types, j));
    FloorEnds(s, Run(types, base, j + 1).value, f);
  }

  /**
    * Whatever stands between an embedding or override initiator and its matching PDF, the PDF restores the state before
    * the initiator, whether or not that one took effect. The exact exceptions are a full stack that dropped an isolate
    * on the way, or an embedding, unless no embedding is there to be closed in its place.
    */
  lemma {:induction false} MatchingPdfRestores(types: seq<BidiClass>, base: Level, i: nat, j: nat)
    requires 0 <= base <= 1 && MatchesEmbedding(types, i, j) && Run(types, base, i).Some?
    ensures Run(types, base, j + 1) == Run(types, base, i) <==>
      && NoIsolateDropped(types, base, i, j)
      && (!EmbeddingDropped(types, base, i, j) || IsFloor(Run(types, base, i).value))
  {
    hide Run, NextLevel, Accepts, DropsAt, EmbeddingDropped, IsFloor;
    if !Accepts(Run(types, base, i).value, NextLevel(Run(types, base, i).value, types[i], FsiIsRtl(types, i))) {
      RejectedPdf(types, base, i, j);
    } else if NoIsolateDropped(types, base, i, j) {
      if EmbeddingDropped(types, base, i, j) {
        DroppedPdf(types, base, i, j);
      } else {
        KeptPdf(types, base, i, j);
      }
    } else if Run(types, base, j + 1) == Run(types, base, i) {
      SameStateDropsNone(types, base, i, j + 1);
    }
  }

  /** The text from `m` to `j` stands directly in the isolate that begins at `m - 1`, or in none. */
  ghost predicate IsDirectlyIn(types: seq<BidiClass>, m: nat, j: nat) {
    (m > 0 ==> m <= |types| && types[m - 1].IsIsoInit()) && IsInner(types, m, j) && Nest(types, m, j) == 0
  }

  lemma NoPdf(t: State, fsiRtl: bool)
    requires t.overflowIsolate > 0
    ensures Step(t, PopDirectionalFormat, fsiRtl) == Some(t)
  {
  }

  lemma StartsOnFloor(base: Level)
    requires 0 <= base <= 1
    ensures OnFloor(Init(base), Init(base), |Init(base).stack|) && Height(Init(base), |Init(base).stack|) == 0
  {
  }

  lemma NothingCloses(s: State, t: State, f: nat, fsiRtl: bool)
    requires OnFloor(s, t, f) && Height(t, f) == 0
    ensures Step(t, PopDirectionalFormat, fsiRtl) == Some(t)
  {
    hide Inv, Isolates;
    assert t.stack[..f][f - 1] == s.stack[..f][f - 1];
  }

  lemma EntersIsolate(s: State, c: BidiClass, fsiRtl: bool)
    requires c.IsIsoInit() && Accepts(s, NextLevel(s, c, fsiRtl)) && |s.stack| < MAX_DEPTH
    ensures Step(s, c, fsiRtl).Some? && Inv(Step(s, c, fsiRtl).value)
    ensures var t: State := Step(s, c, fsiRtl).value;
      OnFloor(t, t, |t.stack|) && Height(t, |t.stack|) == 0
  {
    StepKeeps(s, c, fsiRtl);
    StepPushes(s, c, fsiRtl);
    hide NextLevel, Inv, Isolates;
  }

  /** Behind an isolate initiator: an isolate on top and nothing overflowed, or an overflowed isolate up to `j`. */
  lemma IsolateEntered(types: seq<BidiClass>, base: Level, m: nat, j: nat)
    requires 0 <= base <= 1 && 0 < m <= j < |types| && IsDirectlyIn(types, m, j)
    requires Run(types, base, m - 1).Some? && Run(types, base, j).Some? && NoIsolateDropped(types, base, m - 1, j)
    ensures Run(types, base, m).Some?
    ensures Run(types, base, j).value.overflowIsolate == 0 ==>
      var s := Run(types, base, m).value;
      OnFloor(s, s, |s.stack|) && Height(s, |s.stack|) == 0
  {
    hide Run, Step, Inv, NextLevel, OnFloor, Height;
    var s, c, fsiRtl := Run(types, base, m - 1).value, types[m - 1], FsiIsRtl(types, m - 1);
    RunStep(types, base, m - 1);
    assert !DropsAt(types, base, m - 1);
    var i := m - 1;
    forall h | i < h <= j
      ensures IsOpen(types, i, h)
    {
      assert NestAt(types, m, h) >= 0;
    }
    if Accepts(s, NextLevel(s, c, fsiRtl)) {
      EntersIsolate(s, c, fsiRtl);
    } else {
      OverflowRun(types, base, m - 1, j);
      OverflowStart(s, c, fsiRtl);
    }
  }

  /**
    * A PDF with no open embedding, at the base or directly in an isolate, changes nothing; one with an open embedding
    * changes the state, unless the isolate around it has overflowed or a full stack dropped an embedding in it.
    */
  lemma {:induction false} PdfClosesOpen(types: seq<BidiClass>, base: Level, m: nat, j: nat)
    requires 0 <= base <= 1 && m <= j < |types| && types[j].PopDirectionalFormat? && IsDirectlyIn(types, m, j)
    requires Run(types, base, j).Some? && NoIsolateDropped(types, base, if m == 0 then 0 else m - 1, j)
    ensures StillOpen(types, m, j, 0) == 0 ==> Run(types, base, j + 1) == Run(types, base, j)
    ensures Run(types, base, j).value.overflowIsolate == 0 && !IsDropped(types, base, m, j) ==>
      (Run(types, base, j + 1) == Run(types, base, j) <==> StillOpen(types, m, j, 0) == 0)
  {
    hide Run, Step, Inv, NextLevel, Accepts, OnFloor, IsDropped, DropsAt, Height;
    RunStep(types, base, j);
    RunsEarlier(types, base, m, j);
    var t := Run(types, base, j).value;
    if m > 0 {
      RunsEarlier(types, base, m - 1, j);
      IsolateEntered(types, base, m, j);
    }
    if t.overflowIsolate > 0 {
      NoPdf(t, FsiIsRtl(types, j));
    } else {
      var s := Run(types, base, m).value;
      if m == 0 {
        RunStart(types, base);
        StartsOnFloor(base);
      }
      FloorRun(types, base, m, s, |s.stack|, j);
      StepOnFloor(s, t, |s.stack|, types[j], FsiIsRtl(types, j));
      if Height(t, |s.stack|) == 0 {
        NothingCloses(s, t, |s.stack|, FsiIsRtl(types, j));
      }
    }
  }

  // ---- what an initiator governs -------------------------------------------------------------------

  /**
    * The class of a character directly behind an initiator of class `c`: overrides force theirs on all but separators.
    */
  function ForcedBy(c: BidiClass, own: BidiClass): BidiClass {
    if own.ParagraphSeparator? then own
    else if c.RightToLeftOverride? then RightToLeft
    else if c.LeftToRightOverride? then LeftToRight
    else own
  }

  lemma OpenedForces(s: State, c: BidiClass, fsiRtl: bool, e: Entry, own: BidiClass)
    requires Opened(s, c, fsiRtl, e) && !own.ParagraphSeparator?
    ensures Overridden(own, e.override) == ForcedBy(c, own)
  {
    hide Top;
  }

  /** A character that is neither a PDI nor removed goes by the state before it. */
  lemma GovernedBefore(types: seq<BidiClass>, base: Level, k: nat)
    requires 0 <= base <= 1 && k < |types| && Run(types, base, k).Some?
    requires !types[k].IsRemoved() && !types[k].PopDirectionalIsolate?
    ensures Run(types, base, k + 1).Some?
    ensures Governs(types, base, k) == Top(Run(types, base, k).value)
    ensures ExplicitLevel(types, base, k) ==
      if types[k].ParagraphSeparator? then base else Top(Run(types, base, k).value).level
    ensures ExplicitClass(types, base, k) ==
      if types[k].ParagraphSeparator? then types[k]
      else Overridden(types[k], Top(Run(types, base, k).value).override)
  {
    RunStep(types, base, k);
    StepPanics(Run(types, base, k).value, types[k], FsiIsRtl(types, k));
    hide Run, Step, Top;
  }

  lemma SeparatorKeeps(c: BidiClass)
    ensures ForcedBy(c, ParagraphSeparator) == ParagraphSeparator
  {
  }

  /**
    * Everything directly in the embedding, override or isolate that `i` opens stands at the level that opens there, and
    * in an override it is R or L, whatever it was by itself; but a paragraph separator keeps its class, at the base.
    */
  lemma {:induction false} InitiatorGoverns(types: seq<BidiClass>, base: Level, i: nat, k: nat)
    requires 0 <= base <= 1 && i < k < |types| && (types[i].IsEmbeddingInit() || types[i].IsIsoInit())
    requires Run(types, base, i).Some? && |Run(types, base, i).value.stack| < MAX_DEPTH
    requires Accepts(Run(types, base, i).value, NextLevel(Run(types, base, i).value, types[i], FsiIsRtl(types, i)))
    requires IsBalanced(types, base, i + 1, k) && !types[k].IsRemoved() && !types[k].PopDirectionalIsolate?
    ensures Run(types, base, k).Some? && Run(types, base, k + 1).Some?
    ensures ExplicitClass(types, base, k) == ForcedBy(types[i], types[k])
    ensures var outer := Top(Run(types, base, i).value).level;
      Some(ExplicitLevel(types, base, k)) ==
        if types[k].ParagraphSeparator? then Some(base)
        else if OpensOdd(types[i]) || (types[i].FirstStrongIsolate? && FsiIsRtl(types, i)) then LeastGreaterOdd(outer)
        else LeastGreaterEven(outer)
  {
    hide Run, NextLevel, Accepts, IsBalanced, Top, OpensOdd, ForcedBy, ExplicitClass, ExplicitLevel;
    InitiatorOpens(types, base, i);
    BalancedRestores(types, base, i + 1, k);
    GovernedBefore(types, base, k);
    var e := Top(Run(types, base, i + 1).value);
    if !types[k].ParagraphSeparator? {
      OpenedForces(Run(types, base, i).value, types[i], FsiIsRtl(types, i), e, types[k]);
    } else {
      SeparatorKeeps(types[i]);
    }
  }

  /** Everything outside all embeddings and isolates keeps its class, at the base level. */
  lemma {:induction false} BaseGoverns(types: seq<BidiClass>, base: Level, k: nat)
    requires 0 <= base <= 1 && k < |types| && IsBalanced(types, base, 0, k)
    requires !types[k].IsRemoved() && !types[k].PopDirectionalIsolate?
    ensures Run(types, base, k).Some? && Run(types, base, k + 1).Some?
    ensures ExplicitClass(types, base, k) == types[k] && ExplicitLevel(types, base, k) == base
  {
    RunStart(types, base);
    hide Run, IsBalanced, ExplicitClass, ExplicitLevel;
    BalancedRestores(types, base, 0, k);
    GovernedBefore(types, base, k);
  }

  // ---- an embedding that the full stack drops ------------------------------------------------------

  /** 124 nested embeddings, then one more and its PDF. */
  function DeepEmbeddings(): (r: seq<BidiClass>)
    ensures |r| == 126 && r[124] == RightToLeftEmbedding && r[125] == PopDirectionalFormat
  {
    seq(124, i => if i % 2 == 0 then RightToLeftEmbedding else LeftToRightEmbedding)
      + [RightToLeftEmbedding, PopDirectionalFormat]
  }

  lemma FullStack(s: State, fsiRtl: bool, fsiRtl': bool)
    requires s == XState(DeepStack(124), 0, 0, 0)
    ensures DropsEmbedding(s, RightToLeftEmbedding, fsiRtl) && Step(s, RightToLeftEmbedding, fsiRtl) == Some(s)
    ensures Step(s, PopDirectionalFormat, fsiRtl') == Some(XState(DeepStack(123), 0, 0, 0))
  {
    assert DeepStack(124)[..124] == DeepStack(123);
    hide Inv;
  }

  lemma DeepStart()
    ensures Run(DeepEmbeddings(), 0, 124) == Some(XState(DeepStack(124), 0, 0, 0))
  {
    DeepRun(DeepEmbeddings(), 0, 124);
  }

  /** The last embedding is dropped, and its PDF closes the one around it: level 124 is left for level 123. */
  lemma {:induction false} DroppedEmbeddingCloses()
    ensures MatchesEmbedding(DeepEmbeddings(), 124, 125) && DropsEmbeddingAt(DeepEmbeddings(), 0, 124)
    ensures Run(DeepEmbeddings(), 0, 124) == Some(XState(DeepStack(124), 0, 0, 0))
    ensures Run(DeepEmbeddings(), 0, 126) == Some(XState(DeepStack(123), 0, 0, 0))
  {
    hide Run, Step, DropsEmbedding, Inv, DeepEmbeddings, DeepStack;
    var types := DeepEmbeddings();
    DeepStart();
    FullStack(Run(types, 0, 124).value, FsiIsRtl(types, 124), FsiIsRtl(types, 125));
    RunStep(types, 0, 124);
    RunStep(types, 0, 125);
  }
}
