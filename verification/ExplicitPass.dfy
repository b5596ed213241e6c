/** Rules X1 to X9 as the source runs them: the level stack, three counters, and the panic made visible. */
module ExplicitPass {
  import opened Wrappers
  import opened BidiTypes
  import opened LevelStacks
  import opened ParagraphLevels
  import opened ExplicitLevels

  /** Pops entries up to and including the topmost isolate; false where the source's index underflows. */
  method PopPastIsolate(stack: LevelStack) returns (ok: bool)
    requires stack.Valid()
    modifies stack`depth
    ensures stack.Valid()
    ensures ok <==> PopIsolate(old(stack.Entries())).Some?
    ensures ok ==> Some(stack.Entries()) == PopIsolate(old(stack.Entries()))
  {
    ghost var entries := stack.Entries();
    while true
      invariant stack.Valid() && PopIsolate(stack.Entries()) == PopIsolate(entries)
      decreases stack.depth
    {
      if stack.depth == 0 {
        return false;
      }
      if stack.IsolateStatus() {
        break;
      }
      stack.Pop();
    }
    stack.Pop();
    ok := true;
  }

  /** The locals of the source's loop: the stack and the counters. */
  class Machine {
    const stack: LevelStack
    var overflowIsolate: nat
    var overflowEmbedding: nat
    var validIsolate: nat

    ghost predicate Valid()
      reads this, stack, stack.embeddingLevels, stack.overrideStatuses, stack.isolateStatuses
    {
      stack.Valid() && Inv(XState(stack.Entries(), overflowIsolate, overflowEmbedding, validIsolate))
    }

    ghost function Value(): State
      requires Valid()
      reads this, stack, stack.embeddingLevels, stack.overrideStatuses, stack.isolateStatuses
    {
      XState(stack.Entries(), overflowIsolate, overflowEmbedding, validIsolate)
    }

    ghost function Repr(): set<object>
      reads this
    {
      {this, stack, stack.embeddingLevels, stack.overrideStatuses, stack.isolateStatuses}
    }

    constructor (base: Level)
      requires 0 <= base <= 1
      ensures Valid() && Value() == Init(base) && fresh(Repr())
    {
      var s := new LevelStack();
      s.Push(base, Neutral, false);
      stack := s;
      overflowIsolate, overflowEmbedding, validIsolate := 0, 0, 0;
    }

    /** X2 to X5, once the next level is known. */
    method EmbedNext(level: Option<Level>, override: Override)
      requires Valid() && (level.Some? ==> Top(Value()).level < level.value <= MAX_DEPTH)
      modifies Repr()
      ensures Valid() && Value() == Embed(old(Value()), level, override)
    {
      hide Isolates, IsStack, Top, LevelStack.Entries;
      EmbedKeeps(Value(), level, override);
      if level.Some? {
        if overflowIsolate == 0 && overflowEmbedding == 0 {
          stack.Push(level.value, override, false);
          return;
        }
      }
      if overflowIsolate == 0 {
        overflowEmbedding := overflowEmbedding + 1;
      }
    }

    /** X5a to X5c, once the next level is known. */
    method IsolateNext(level: Option<Level>)
      requires Valid() && (level.Some? ==> Top(Value()).level < level.value <= MAX_DEPTH)
      modifies Repr()
      ensures Valid() && Value() == Isolate(old(Value()), level)
    {
      hide Isolates, IsStack, Top, LevelStack.Entries;
      IsolateKeeps(Value(), level);
      if level.Some? {
        if overflowIsolate == 0 && overflowEmbedding == 0 {
          validIsolate := validIsolate + 1;
          stack.Push(level.value, Neutral, true);
          return;
        }
      }
      overflowIsolate := overflowIsolate + 1;
    }

    /** X6a; false when the source would panic because its pop loop empties the stack. */
    method CloseNext() returns (ok: bool)
      requires Valid()
      modifies Repr()
      ensures ok <==> CloseIsolate(old(Value())).Some?
      ensures ok ==> Valid() && Some(Value()) == CloseIsolate(old(Value()))
    {
      hide Inv, PopIsolate, LevelStack.Entries;
      CloseIsolateKeeps(Value());
      if overflowIsolate > 0 {
        overflowIsolate := overflowIsolate - 1;
        return true;
      } else if validIsolate == 0 {
        return true;
      }
      overflowEmbedding := 0;
      ok := PopPastIsolate(stack);
      if ok {
        validIsolate := validIsolate - 1;
      }
    }

    /** X7. */
    method PopDirectionalFormat()
      requires Valid()
      modifies Repr()
      ensures Valid() && Value() == CloseEmbedding(old(Value()))
    {
      CloseEmbeddingKeeps(Value());
      if overflowIsolate > 0 {
      } else if overflowEmbedding > 0 {
        overflowEmbedding := overflowEmbedding - 1;
      } else {
        if !stack.IsolateStatus() {
          if stack.depth >= 2 {
            stack.Pop();
          }
        }
      }
    }

    /** The entry that the level and override accessors of the stack read. */
    method Current() returns (level: Level, override: Override)
      requires Valid()
      ensures level == Top(Value()).level && override == Top(Value()).override
    {
      level := stack.EmbeddingLevel();
      override := stack.OverrideStatus();
    }
  }

  // ---- the loop over the paragraph ---------------------------------------------------------------

  ghost predicate IsWritten(orig: seq<BidiClass>, base: Level, types: seq<BidiClass>, levels: seq<Level>, i: nat)
    requires 0 <= base <= 1 && i < |orig| == |types| == |levels|
  {
    && Run(orig, base, i).Some? && Run(orig, base, i + 1).Some?
    && types[i] == ExplicitClass(orig, base, i)
    && (!orig[i].IsRemoved() ==> levels[i] == ExplicitLevel(orig, base, i))
  }

  /** What the loop has written before character `n`: levels only where rule X9 keeps the character. */
  ghost predicate WrittenBefore(orig: seq<BidiClass>, base: Level, types: seq<BidiClass>, levels: seq<Level>, n: nat)
    requires 0 <= base <= 1
  {
    && |types| == |orig| == |levels| && n <= |orig|
    && Run(orig, base, n).Some?
    && (forall i :: 0 <= i < n ==> IsWritten(orig, base, types, levels, i))
    && (forall i :: n <= i < |orig| ==> types[i] == orig[i])
  }

  lemma WriteNext(
    orig: seq<BidiClass>, base: Level, types: seq<BidiClass>, levels: seq<Level>, n: nat, types': seq<BidiClass>,
    levels': seq<Level>)
    requires 0 <= base <= 1 && WrittenBefore(orig, base, types, levels, n) && n < |orig| && Run(orig, base, n + 1).Some?
    requires |types'| == |types| && |levels'| == |levels|
    requires forall i :: 0 <= i < |types| && i != n ==> types'[i] == types[i] && levels'[i] == levels[i]
    requires types'[n] == ExplicitClass(orig, base, n)
    requires !orig[n].IsRemoved() ==> levels'[n] == ExplicitLevel(orig, base, n)
    ensures WrittenBefore(orig, base, types', levels', n + 1)
  {
    hide Run;
    forall i | 0 <= i < n + 1
      ensures IsWritten(orig, base, types', levels', i)
    {
      if i < n {
        assert IsWritten(orig, base, types, levels, i);
      }
    }
  }

  /** Rules X5a to X5c, for an initiator before the text `rest`. */
  method OpenIsolate(m: Machine, bc: BidiClass, rest: seq<BidiClass>)
    requires m.Valid() && bc.IsIsoInit()
    modifies m.Repr()
    ensures m.Valid()
    ensures m.Value() == Isolate(old(m.Value()), NextLevel(old(m.Value()), bc, ParagraphLevelOf(rest, true, Ltr) == 1))
  {
    hide Inv, Top, Isolate;
    var level, _ := m.Current();
    var rtl := bc.RightToLeftIsolate?;
    if bc.FirstStrongIsolate? {
      var direction := ParagraphLevel(rest, true, Ltr);
      rtl := direction == 1;
    }
    m.IsolateNext(if rtl then LeastGreaterOdd(level) else LeastGreaterEven(level));
  }

  function OverrideOf(c: BidiClass): Override {
    if c.RightToLeftOverride? then RTL else if c.LeftToRightOverride? then LTR else Neutral
  }

  /** The step for one class, without the others. */
  lemma StepIs(s: State, c: BidiClass, fsiRtl: bool)
    ensures c.PopDirectionalIsolate? ==> Step(s, c, fsiRtl) == CloseIsolate(s)
    ensures c.IsIsoInit() ==> Step(s, c, fsiRtl) == Some(Isolate(s, NextLevel(s, c, fsiRtl)))
    ensures c.PopDirectionalFormat? ==> Step(s, c, fsiRtl) == Some(CloseEmbedding(s))
    ensures c.IsEmbeddingInit() ==> Step(s, c, fsiRtl) == Some(Embed(s, NextLevel(s, c, fsiRtl), OverrideOf(c)))
    ensures !c.PopDirectionalIsolate? && !c.IsIsoInit() && !c.PopDirectionalFormat? && !c.IsEmbeddingInit() ==>
      Step(s, c, fsiRtl) == Some(s)
  {
  }

  /** The level and the override of the current stack entry, written to character `idx`. */
  method Assign(
    m: Machine, types: seq<BidiClass>, levels: seq<Level>, idx: nat)
    returns (types': seq<BidiClass>, levels': seq<Level>)
    requires m.Valid() && idx < |types| == |levels|
    ensures types' == types[idx := Overridden(types[idx], Top(m.Value()).override)]
    ensures levels' == levels[idx := Top(m.Value()).level]
  {
    var level, override := m.Current();
    levels' := levels[idx := level];
    types' := types[idx := Overridden(types[idx], override)];
  }

  /** X2 to X5 and X7: the controls that only move the stack. */
  method Control(m: Machine, bc: BidiClass)
    requires m.Valid() && (bc.IsEmbeddingInit() || bc.PopDirectionalFormat?)
    modifies m.Repr()
    ensures m.Valid()
    ensures m.Value() == if bc.PopDirectionalFormat? then CloseEmbedding(old(m.Value()))
      else Embed(old(m.Value()), NextLevel(old(m.Value()), bc, false), OverrideOf(bc))
  {
    var level, _ := m.Current();
    match bc
    case RightToLeftEmbedding => m.EmbedNext(LeastGreaterOdd(level), Neutral);
    case LeftToRightEmbedding => m.EmbedNext(LeastGreaterEven(level), Neutral);
    case RightToLeftOverride => m.EmbedNext(LeastGreaterOdd(level), RTL);
    case LeftToRightOverride => m.EmbedNext(LeastGreaterEven(level), LTR);
    case PopDirectionalFormat => m.PopDirectionalFormat();
  }

  /** Character `idx`; false where the source panics. */
  method Character(m: Machine, base: Level, types: seq<BidiClass>, levels: seq<Level>, idx: nat, ghost fsiRtl: bool)
    returns (ok: bool, types': seq<BidiClass>, levels': seq<Level>)
    requires m.Valid() && idx < |types| == |levels|
    requires fsiRtl == FsiIsRtl(types, idx)
    modifies m.Repr()
    ensures ok <==> Step(old(m.Value()), types[idx], fsiRtl).Some?
    ensures ok ==> m.Valid() && Step(old(m.Value()), types[idx], fsiRtl) == Some(m.Value())
    ensures ok && types[idx].IsRemoved() ==> types' == types && levels' == levels
    ensures ok && types[idx].ParagraphSeparator? ==> types' == types && levels' == levels[idx := base]
    ensures ok && !types[idx].IsRemoved() && !types[idx].ParagraphSeparator? ==>
      var e := if types[idx].PopDirectionalIsolate? then Top(m.Value()) else old(Top(m.Value()));
      types' == types[idx := Overridden(types[idx], e.override)] && levels' == levels[idx := e.level]
  {
    hide Step, Inv, Top, Overridden, LevelStack.Entries, Isolate, Embed, CloseIsolate, CloseEmbedding;
    var bc := types[idx];
    StepIs(m.Value(), bc, fsiRtl);
    ok, types', levels' := true, types, levels;
    if bc.PopDirectionalIsolate? {
      ok := m.CloseNext();
      if ok {
        types', levels' := Assign(m, types, levels, idx);
      }
    } else if bc.BoundaryNeutral? {
    } else if bc.ParagraphSeparator? {
      levels' := levels[idx := base];
    } else if bc.IsRemoved() {
      Control(m, bc);
    } else {
      types', levels' := Assign(m, types, levels, idx);
      if bc.IsIsoInit() {
        OpenIsolate(m, bc, types[idx + 1..]);
      }
    }
  }

  lemma {:induction false} Panicked(types: seq<BidiClass>, base: Level, i: nat, n: nat)
    requires 0 <= base <= 1 && i <= n <= |types| && Run(types, base, i).None?
    ensures Run(types, base, n).None?
  {
    hide Run, Step;
    if i < n {
      Panicked(types, base, i, n - 1);
      RunStep(types, base, n - 1);
    }
  }

  /** Rules X1 to X8. `stale` may hold anything: a reused context only resizes its levels. */
  method ExplicitEmbeddingLevels(orig: seq<BidiClass>, base: Level, stale: seq<Level>)
    returns (ok: bool, types: seq<BidiClass>, levels: seq<Level>)
    requires 0 <= base <= 1 && |stale| == |orig|
    ensures ok <==> Run(orig, base, |orig|).Some?
    ensures ok ==> WrittenBefore(orig, base, types, levels, |orig|)
  {
    hide Run, Step, Inv;
    var m := new Machine(base);
    types, levels := orig, stale;
    ok := true;
    RunStart(orig, base);
    for idx := 0 to |orig|
      invariant ok && m.Valid() && fresh(m.Repr())
      invariant WrittenBefore(orig, base, types, levels, idx)
      invariant Run(orig, base, idx) == Some(m.Value())
    {
      ghost var before, beforeLevels := types, levels;
      RunStep(orig, base, idx);
      assert types[idx + 1..] == orig[idx + 1..];
      ok, types, levels := Character(m, base, types, levels, idx, FsiIsRtl(orig, idx));
      if !ok {
        Panicked(orig, base, idx + 1, |orig|);
        return;
      }
      WriteNext(orig, base, before, beforeLevels, idx, types, levels);
    }
  }

  /** Rule X9. */
  method DeleteFormatCharacters(types: seq<BidiClass>, levels: seq<Level>) returns (r: seq<Level>)
    requires |types| == |levels|
    ensures |r| == |levels|
    ensures forall i :: 0 <= i < |r| ==> r[i] == if types[i].IsRemoved() then NO_LEVEL else levels[i]
  {
    r := levels;
    for i := 0 to |types|
      invariant |r| == |levels|
      invariant forall k :: 0 <= k < |r| ==> r[k] == if k < i && types[k].IsRemoved() then NO_LEVEL else levels[k]
    {
      if types[i].IsRemoved() {
        r := r[i := NO_LEVEL];
      }
    }
  }
}
