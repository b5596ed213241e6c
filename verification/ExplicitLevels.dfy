/** Rules X1 to X8 of UAX #9 (section 3.3.2) as a state machine, and what it keeps over every run. */
module ExplicitLevels {
  import opened Wrappers
  import opened BidiTypes
  import opened LevelStacks
  import opened ParagraphLevels

  datatype XState = XState(stack: seq<Entry>, overflowIsolate: nat, overflowEmbedding: nat, validIsolate: nat)

  function Isolates(stack: seq<Entry>): (n: nat)
    ensures n <= |stack|
  {
    if stack == [] then 0
    else Isolates(stack[..|stack| - 1]) + if stack[|stack| - 1].isolate then 1 else 0
  }

  /** The stack holds the base entry below entries of strictly increasing levels. */
  predicate IsStack(stack: seq<Entry>) {
    var n := |stack|;
    && 1 <= n <= MAX_DEPTH
    && 0 <= stack[n - 1].level <= MAX_DEPTH
    && if n == 1 then stack[0].level <= 1 && !stack[0].isolate
       else IsStack(stack[..n - 1]) && stack[n - 2].level < stack[n - 1].level
  }

  ghost predicate Inv(s: XState) {
    IsStack(s.stack) && Isolates(s.stack) <= s.validIsolate
  }

  type State = s: XState | Inv(s) ghost witness XState([Entry(0, Neutral, false)], 0, 0, 0)

  function Top(s: State): (e: Entry)
    ensures 0 <= e.level <= MAX_DEPTH
  {
    s.stack[|s.stack| - 1]
  }

  /** Levels increase strictly up the stack, from a base of 0 or 1. */
  lemma {:induction false} LevelsIncrease(stack: seq<Entry>, i: nat, j: nat)
    requires IsStack(stack) && i < j < |stack|
    ensures stack[i].level + (j - i) <= stack[j].level <= MAX_DEPTH
  {
    var init := stack[..|stack| - 1];
    if j < |stack| - 1 {
      LevelsIncrease(init, i, j);
    } else if i < j - 1 {
      LevelsIncrease(init, i, j - 1);
    }
  }

  lemma {:induction false} BaseIsLowest(stack: seq<Entry>)
    requires IsStack(stack)
    ensures 0 <= stack[0].level <= 1 && !stack[0].isolate
    ensures stack[0].level + |stack| - 1 <= stack[|stack| - 1].level <= MAX_DEPTH
  {
    if |stack| > 1 {
      BaseIsLowest(stack[..|stack| - 1]);
    }
  }

  lemma {:induction false} PrefixIsStack(stack: seq<Entry>, n: nat)
    requires IsStack(stack) && 1 <= n <= |stack|
    ensures IsStack(stack[..n])
  {
    if n < |stack| {
      PrefixIsStack(stack[..|stack| - 1], n);
      assert stack[..|stack| - 1][..n] == stack[..n];
    } else {
      assert stack[..n] == stack;
    }
  }

  /** An initiator takes effect only while nothing has overflowed. */
  predicate Accepts(s: XState, level: Option<Level>) {
    level.Some? && s.overflowIsolate == 0 && s.overflowEmbedding == 0
  }

  /** Rules X2 to X5. */
  function Embed(s: XState, level: Option<Level>, override: Override): XState {
    if Accepts(s, level) then s.(stack := Pushed(s.stack, Entry(level.value, override, false)))
    else if s.overflowIsolate == 0 then s.(overflowEmbedding := s.overflowEmbedding + 1)
    else s
  }

  /** Rules X5a to X5c. */
  function Isolate(s: XState, level: Option<Level>): XState {
    if Accepts(s, level)
    then s.(stack := Pushed(s.stack, Entry(level.value, Neutral, true)), validIsolate := s.validIsolate + 1)
    else s.(overflowIsolate := s.overflowIsolate + 1)
  }

  /** The pop loop of rule X6a: `None` when it would run off the bottom of the stack. */
  function PopIsolate(stack: seq<Entry>): (r: Option<seq<Entry>>)
    ensures r.None? <==> Isolates(stack) == 0
    ensures r.Some? ==> |r.value| < |stack| && r.value == stack[..|r.value|] && stack[|r.value|].isolate
    ensures r.Some? ==> Isolates(r.value) == Isolates(stack) - 1
    ensures r.Some? ==> forall i :: |r.value| < i < |stack| ==> !stack[i].isolate
  {
    if stack == [] then None
    else if stack[|stack| - 1].isolate then Some(stack[..|stack| - 1])
    else
      var r := PopIsolate(stack[..|stack| - 1]);
      assert r.Some? ==> r.value == stack[..|r.value|];
      r
  }

  /** Rule X6a; `None` is the source's panic. */
  function CloseIsolate(s: XState): Option<XState> {
    if s.overflowIsolate > 0 then Some(s.(overflowIsolate := s.overflowIsolate - 1))
    else if s.validIsolate == 0 then Some(s)
    else
      var rest := PopIsolate(s.stack);
      if rest.None? then None
      else Some(s.(stack := rest.value, overflowEmbedding := 0, validIsolate := s.validIsolate - 1))
  }

  /** Rule X7. */
  function CloseEmbedding(s: State): XState {
    if s.overflowIsolate > 0 then s
    else if s.overflowEmbedding > 0 then s.(overflowEmbedding := s.overflowEmbedding - 1)
    else if !Top(s).isolate && |s.stack| >= 2 then s.(stack := s.stack[..|s.stack| - 1])
    else s
  }

  /** The level that an initiator of class `c` would open; `fsiRtl` decides for an FSI. */
  function NextLevel(s: State, c: BidiClass, fsiRtl: bool): (r: Option<Level>)
    ensures r.Some? ==> Top(s).level < r.value <= MAX_DEPTH
  {
    if c.RightToLeftEmbedding? || c.RightToLeftOverride? || c.RightToLeftIsolate? || (c.FirstStrongIsolate? && fsiRtl)
    then LeastGreaterOdd(Top(s).level)
    else LeastGreaterEven(Top(s).level)
  }

  /** One character; `None` is the source's panic. */
  function Step(s: State, c: BidiClass, fsiRtl: bool): Option<XState> {
    match c
    case RightToLeftEmbedding => Some(Embed(s, NextLevel(s, c, fsiRtl), Neutral))
    case LeftToRightEmbedding => Some(Embed(s, NextLevel(s, c, fsiRtl), Neutral))
    case RightToLeftOverride => Some(Embed(s, NextLevel(s, c, fsiRtl), RTL))
    case LeftToRightOverride => Some(Embed(s, NextLevel(s, c, fsiRtl), LTR))
    case RightToLeftIsolate => Some(Isolate(s, NextLevel(s, c, fsiRtl)))
    case LeftToRightIsolate => Some(Isolate(s, NextLevel(s, c, fsiRtl)))
    case FirstStrongIsolate => Some(Isolate(s, NextLevel(s, c, fsiRtl)))
    case PopDirectionalIsolate => CloseIsolate(s)
    case PopDirectionalFormat => Some(CloseEmbedding(s))
    case _ => Some(s)
  }

  /** The character `c` is an isolate initiator whose entry the full stack drops. */
  predicate DropsIsolate(s: State, c: BidiClass, fsiRtl: bool) {
    c.IsIsoInit() && Accepts(s, NextLevel(s, c, fsiRtl)) && |s.stack| >= MAX_DEPTH
  }

  /** From `s` to `t` the base stays, and `validIsolate` outgrows the stacked isolates by `dropped`. */
  ghost predicate Keeps(s: State, t: XState, dropped: bool) {
    && Inv(t)
    && t.stack[0] == s.stack[0]
    && t.validIsolate - Isolates(t.stack) == s.validIsolate - Isolates(s.stack) + if dropped then 1 else 0
  }

  lemma EmbedKeeps(s: State, level: Option<Level>, override: Override)
    requires level.Some? ==> Top(s).level < level.value <= MAX_DEPTH
    ensures Keeps(s, Embed(s, level, override), false)
  {
  }

  lemma IsolateKeeps(s: State, level: Option<Level>)
    requires level.Some? ==> Top(s).level < level.value <= MAX_DEPTH
    ensures Keeps(s, Isolate(s, level), Accepts(s, level) && |s.stack| >= MAX_DEPTH)
  {
  }

  lemma CloseIsolateKeeps(s: State)
    ensures CloseIsolate(s).Some? ==> Keeps(s, CloseIsolate(s).value, false)
    ensures CloseIsolate(s).None? ==> s.validIsolate > Isolates(s.stack)
  {
    var rest := PopIsolate(s.stack);
    if rest.Some? {
      BaseIsLowest(s.stack);
      PrefixIsStack(s.stack, |rest.value|);
    }
  }

  lemma CloseEmbeddingKeeps(s: State)
    ensures Keeps(s, CloseEmbedding(s), false)
  {
  }

  lemma StayKeeps(s: State)
    ensures Keeps(s, s, false)
  {
  }

  /** Every step keeps the stack, and counts the isolates on it except the dropped ones. */
  lemma {:induction false} StepKeeps(s: State, c: BidiClass, fsiRtl: bool)
    ensures Step(s, c, fsiRtl).Some? ==> Keeps(s, Step(s, c, fsiRtl).value, DropsIsolate(s, c, fsiRtl))
    ensures Step(s, c, fsiRtl).None? ==> s.validIsolate > Isolates(s.stack)
  {
    hide NextLevel, Inv, Top, Pushed, Isolates, IsStack, Keeps;
    var level := NextLevel(s, c, fsiRtl);
    if c.IsEmbeddingInit() {
      EmbedKeeps(s, level, if c.RightToLeftOverride? then RTL else if c.LeftToRightOverride? then LTR else Neutral);
    } else if c.IsIsoInit() {
      IsolateKeeps(s, level);
    } else if c.PopDirectionalIsolate? {
      CloseIsolateKeeps(s);
    } else if c.PopDirectionalFormat? {
      CloseEmbeddingKeeps(s);
    } else {
      StayKeeps(s);
    }
  }

  // ---- whole runs ------------------------------------------------------------------------------

  /** Rule X5c: the direction that an FSI at `i` takes from the text after it. */
  function FsiIsRtl(types: seq<BidiClass>, i: nat): bool
    requires i < |types|
  {
    ParagraphLevelOf(types[i + 1..], true, Ltr) == 1
  }

  /** The first strong type, before a PDI of the isolate's own, is one that is written from right to left. */
  ghost predicate StartsRtl(inside: seq<BidiClass>) {
    exists k: nat :: IsFirstStrong(inside, true, k) && !inside[k].LeftToRight?
  }

  /** Rule X5c by its words: the first strong type in the isolate decides, and without one it is left to right. */
  lemma {:induction false} FsiLooksInside(types: seq<BidiClass>, i: nat)
    requires i < |types|
    ensures FsiIsRtl(types, i) <==> StartsRtl(types[i + 1..])
  {
    var inside := types[i + 1..];
    ParagraphLevelIsP2(inside, true, Ltr, 0);
    hide ParagraphLevelFrom, Enclosed;
    assert forall k: nat, l: nat :: IsFirstStrong(inside, true, k) && IsFirstStrong(inside, true, l) ==> k == l;
  }

  /** Rule X1. */
  function Init(base: Level): State
    requires 0 <= base <= 1
  {
    XState([Entry(base, Neutral, false)], 0, 0, 0)
  }

  /** `Step`, with what it keeps. */
  function Next(s: State, c: BidiClass, fsiRtl: bool): (r: Option<State>)
    ensures r == Step(s, c, fsiRtl)
    ensures r.Some? ==> r.value.stack[0] == s.stack[0] && s.stack[0].level <= Top(r.value).level
  {
    StepKeeps(s, c, fsiRtl);
    var r := Step(s, c, fsiRtl);
    if r.Some? then (BaseIsLowest(r.value.stack); r) else r
  }

  /** The state before character `n`. */
  function Run(types: seq<BidiClass>, base: Level, n: nat): (r: Option<State>)
    requires 0 <= base <= 1 && n <= |types|
    ensures r.Some? ==> r.value.stack[0].level == base <= Top(r.value).level
  {
    if n == 0 then Some(Init(base))
    else
      var s := Run(types, base, n - 1);
      if s.None? then None else Next(s.value, types[n - 1], FsiIsRtl(types, n - 1))
  }

  lemma RunStart(types: seq<BidiClass>, base: Level)
    requires 0 <= base <= 1
    ensures Run(types, base, 0) == Some(Init(base))
    ensures Init(base).validIsolate == Isolates(Init(base).stack) == 0
  {
  }

  lemma RunStep(types: seq<BidiClass>, base: Level, n: nat)
    requires 0 <= base <= 1 && n < |types|
    ensures Run(types, base, n + 1) ==
      if Run(types, base, n).None? then None else Step(Run(types, base, n).value, types[n], FsiIsRtl(types, n))
  {
    hide Step;
  }

  /** Character `i` is an isolate initiator that meets a full stack. */
  predicate DropsAt(types: seq<BidiClass>, base: Level, i: nat)
    requires 0 <= base <= 1 && i < |types|
  {
    Run(types, base, i).Some? && DropsIsolate(Run(types, base, i).value, types[i], FsiIsRtl(types, i))
  }

  lemma RunKeeps(types: seq<BidiClass>, base: Level, n: nat)
    requires 0 <= base <= 1 && n < |types| && Run(types, base, n).Some?
    ensures Run(types, base, n + 1).Some? ==>
      Keeps(Run(types, base, n).value, Run(types, base, n + 1).value, DropsAt(types, base, n))
    ensures Run(types, base, n + 1).None? ==>
      Run(types, base, n).value.validIsolate > Isolates(Run(types, base, n).value.stack)
  {
    hide Run, Step;
    RunStep(types, base, n);
    StepKeeps(Run(types, base, n).value, types[n], FsiIsRtl(types, n));
  }

  function Drops(types: seq<BidiClass>, base: Level, n: nat): nat
    requires 0 <= base <= 1 && n <= |types|
  {
    if n == 0 then 0 else Drops(types, base, n - 1) + if DropsAt(types, base, n - 1) then 1 else 0
  }

  /**
    * The isolate entries on the stack number exactly `validIsolate` less the dropped initiators. So they number
    * `validIsolate` if and only if no isolate initiator met a full stack.
    */
  lemma {:induction false} IsolatesAreCounted(types: seq<BidiClass>, base: Level, n: nat)
    requires 0 <= base <= 1 && n <= |types|
    ensures var r := Run(types, base, n);
      if r.Some? then r.value.validIsolate == Isolates(r.value.stack) + Drops(types, base, n)
      else Drops(types, base, n) > 0
  {
    hide Run, Step, DropsAt, Isolates, Inv;
    if n == 0 {
      RunStart(types, base);
    } else {
      IsolatesAreCounted(types, base, n - 1);
      RunStep(types, base, n - 1);
      if Run(types, base, n - 1).Some? {
        RunKeeps(types, base, n - 1);
      }
    }
  }

  lemma StepCountsOpen(s: State, c: BidiClass, fsiRtl: bool)
    ensures var n, r := s.overflowIsolate + s.validIsolate, Step(s, c, fsiRtl);
      r.Some? ==>
        r.value.overflowIsolate + r.value.validIsolate ==
          (if c.IsIsoInit() then n + 1 else if c.PopDirectionalIsolate? && n > 0 then n - 1 else n)
  {
    hide NextLevel, Inv, Top, Pushed, PopIsolate;
  }

  /** The two isolate counters of the source add up to the isolates that are open by definition BD9. */
  lemma {:induction false} OpenAreCounted(types: seq<BidiClass>, base: Level, n: nat)
    requires 0 <= base <= 1 && n <= |types| && Run(types, base, n).Some?
    ensures var s := Run(types, base, n).value;
      OpenIsolates(types, n) == s.overflowIsolate + s.validIsolate
    ensures var s := Run(types, base, n).value;
      OpenIsolates(types, n) == s.overflowIsolate + Isolates(s.stack) + Drops(types, base, n)
  {
    hide Run, Step, Isolates, Drops, Inv;
    IsolatesAreCounted(types, base, n);
    if n == 0 {
      RunStart(types, base);
    } else {
      RunStep(types, base, n - 1);
      OpenAreCounted(types, base, n - 1);
      StepCountsOpen(Run(types, base, n - 1).value, types[n - 1], FsiIsRtl(types, n - 1));
    }
  }

  /** A PDI outside all isolates does nothing. */
  lemma {:induction false} UnmatchedPdiStays(types: seq<BidiClass>, base: Level, i: nat)
    requires 0 <= base <= 1 && i < |types| && types[i].PopDirectionalIsolate? && OpenIsolates(types, i) == 0
    requires Run(types, base, i).Some?
    ensures Run(types, base, i + 1) == Run(types, base, i)
  {
    OpenAreCounted(types, base, i);
    RunStep(types, base, i);
    hide Run, Isolates, Drops, OpenIsolates, Inv;
  }

  /** A PDI that has isolates to close, but all of them were dropped. */
  predicate IsStrandedPdi(types: seq<BidiClass>, base: Level, i: nat)
    requires 0 <= base <= 1
  {
    i < |types| && types[i].PopDirectionalIsolate? && 0 < OpenIsolates(types, i) == Drops(types, base, i)
  }

  lemma StepPanics(s: State, c: BidiClass, fsiRtl: bool)
    ensures Step(s, c, fsiRtl).None? <==>
      c.PopDirectionalIsolate? && s.overflowIsolate == 0 < s.validIsolate && Isolates(s.stack) == 0
  {
    hide NextLevel, Inv, Top, Pushed, Isolates;
  }

  /** The pop loop of rule X6a runs off the stack exactly when some PDI finds all open isolates dropped. */
  lemma {:induction false} PanicsExactlyAt(types: seq<BidiClass>, base: Level, n: nat)
    requires 0 <= base <= 1 && n <= |types|
    ensures Run(types, base, n).None? <==> exists i :: 0 <= i < n && IsStrandedPdi(types, base, i)
  {
    hide Run, Step, Isolates, Drops, OpenIsolates, Inv;
    if n == 0 {
      RunStart(types, base);
    } else {
      PanicsExactlyAt(types, base, n - 1);
      RunStep(types, base, n - 1);
      if Run(types, base, n - 1).Some? {
        OpenAreCounted(types, base, n - 1);
        StepPanics(Run(types, base, n - 1).value, types[n - 1], FsiIsRtl(types, n - 1));
        assert Run(types, base, n).None? <==> IsStrandedPdi(types, base, n - 1);
      }
    }
  }

  /** The embedding, override and isolate initiators before `n`. */
  function Initiators(types: seq<BidiClass>, n: nat): nat
    requires n <= |types|
  {
    if n == 0 then 0
    else Initiators(types, n - 1) + if types[n - 1].IsEmbeddingInit() || types[n - 1].IsIsoInit() then 1 else 0
  }

  lemma StepIsSmall(s: State, c: BidiClass, fsiRtl: bool)
    ensures var r := Step(s, c, fsiRtl);
      r.Some? ==> |r.value.stack| <= |s.stack| + if c.IsEmbeddingInit() || c.IsIsoInit() then 1 else 0
  {
    hide NextLevel, Inv, Top;
  }

  lemma {:induction false} StackIsSmall(types: seq<BidiClass>, base: Level, n: nat)
    requires 0 <= base <= 1 && n <= |types|
    ensures Run(types, base, n).Some? ==> |Run(types, base, n).value.stack| <= 1 + Initiators(types, n)
  {
    hide Run, Step;
    if n == 0 {
      RunStart(types, base);
    } else {
      StackIsSmall(types, base, n - 1);
      RunStep(types, base, n - 1);
      if Run(types, base, n - 1).Some? {
        StepIsSmall(Run(types, base, n - 1).value, types[n - 1], FsiIsRtl(types, n - 1));
      }
    }
  }

  lemma {:induction false} InitiatorsGrow(types: seq<BidiClass>, i: nat, n: nat)
    requires i <= n <= |types|
    ensures Initiators(types, i) <= Initiators(types, n)
  {
    if i < n {
      InitiatorsGrow(types, i, n - 1);
    }
  }

  lemma {:induction false} DropsGrow(types: seq<BidiClass>, base: Level, i: nat, n: nat)
    requires 0 <= base <= 1 && i <= n <= |types|
    ensures Drops(types, base, i) <= Drops(types, base, n)
    ensures Drops(types, base, i) == Drops(types, base, n) <==> forall h :: i <= h < n ==> !DropsAt(types, base, h)
  {
    hide DropsAt;
    if i < n {
      DropsGrow(types, base, i, n - 1);
    }
  }

  /** Base level 1, or at most 124 initiators: no entry is ever dropped and the code never panics. */
  lemma {:induction false} SmallParagraphsNeverDrop(types: seq<BidiClass>, base: Level)
    requires base == 1 || (base == 0 && Initiators(types, |types|) < MAX_DEPTH)
    ensures forall i :: 0 <= i < |types| ==> !DropsAt(types, base, i)
    ensures Run(types, base, |types|).Some?
  {
    hide Run;
    forall i | 0 <= i < |types|
      ensures !DropsAt(types, base, i)
    {
      var r := Run(types, base, i);
      if r.Some? && types[i].IsIsoInit() {
        StackIsSmall(types, base, i);
        InitiatorsGrow(types, i + 1, |types|);
        BaseIsLowest(r.value.stack);
      }
    }
    DropsGrow(types, base, 0, |types|);
    IsolatesAreCounted(types, base, |types|);
  }

  // ---- isolates isolate ------------------------------------------------------------------------

  /** What the text inside an accepted isolate leaves alone: the entries up to the isolate's own. */
  ghost predicate InsideIsolate(s: XState, e: Entry, t: XState, nest: int) {
    && |s.stack| < |t.stack| && t.stack[..|s.stack|] == s.stack && t.stack[|s.stack|] == e
    && t.validIsolate == s.validIsolate + 1 + (Isolates(t.stack) - Isolates(s.stack) - 1)
    && nest == t.overflowIsolate + Isolates(t.stack) - Isolates(s.stack) - 1
  }

  lemma {:induction false} IsolatesGrow(stack: seq<Entry>, n: nat)
    requires n <= |stack|
    ensures Isolates(stack[..n]) <= Isolates(stack)
    ensures Isolates(stack[..n]) == Isolates(stack) <==> forall i :: n <= i < |stack| ==> !stack[i].isolate
  {
    if n < |stack| {
      var init := stack[..|stack| - 1];
      IsolatesGrow(init, n);
      assert init[..n] == stack[..n];
    } else {
      assert stack[..n] == stack;
    }
  }

  lemma InsidePush(s: XState, e: Entry, t: State, nest: int, pushed: Entry)
    requires InsideIsolate(s, e, t, nest) && (pushed.isolate ==> |t.stack| < MAX_DEPTH)
    ensures InsideIsolate(s, e,
      t.(stack := Pushed(t.stack, pushed), validIsolate := t.validIsolate + if pushed.isolate then 1 else 0),
      nest + if pushed.isolate then 1 else 0)
  {
    assert (t.stack + [pushed])[..|t.stack|] == t.stack;
    assert (t.stack + [pushed])[..|s.stack|] == t.stack[..|s.stack|];
  }

  lemma InsidePopEmbedding(s: XState, e: Entry, t: State, nest: int)
    requires InsideIsolate(s, e, t, nest) && e.isolate
    ensures InsideIsolate(s, e, CloseEmbedding(t), nest)
  {
    hide Inv;
    var popped := t.stack[..|t.stack| - 1];
    assert |s.stack| < |popped| ==> popped[..|s.stack|] == t.stack[..|s.stack|];
  }

  lemma InsideIsolates(s: XState, e: Entry, t: State, nest: int)
    requires InsideIsolate(s, e, t, nest) && e.isolate
    ensures Isolates(s.stack) < Isolates(t.stack)
  {
    var k := |s.stack|;
    assert t.stack[..k + 1][..k] == s.stack;
    IsolatesGrow(t.stack, k + 1);
  }

  lemma InsideStep(s: XState, e: Entry, t: State, nest: int, c: BidiClass, fsiRtl: bool)
    requires InsideIsolate(s, e, t, nest) && e.isolate
    requires !DropsIsolate(t, c, fsiRtl)
    requires c.PopDirectionalIsolate? ==> nest > 0
    ensures var next := Step(t, c, fsiRtl);
      && next.Some?
      && InsideIsolate(
           s, e, next.value,
           if c.IsIsoInit() then nest + 1 else if c.PopDirectionalIsolate? then nest - 1 else nest)
  {
    hide NextLevel, PopIsolate, Inv, Pushed, Isolates;
    InsideIsolates(s, e, t, nest);
    var level := NextLevel(t, c, fsiRtl);
    if (c.IsEmbeddingInit() || c.IsIsoInit()) && Accepts(t, level) {
      var override := if c.RightToLeftOverride? then RTL else if c.LeftToRightOverride? then LTR else Neutral;
      InsidePush(s, e, t, nest, Entry(level.value, override, c.IsIsoInit()));
    } else if c.PopDirectionalIsolate? {
    } else if c.PopDirectionalFormat? {
      InsidePopEmbedding(s, e, t, nest);
    }
  }

  lemma InsideStart(s: State, c: BidiClass, fsiRtl: bool)
    requires c.IsIsoInit() && Accepts(s, NextLevel(s, c, fsiRtl)) && !DropsIsolate(s, c, fsiRtl)
    ensures Step(s, c, fsiRtl).Some?
    ensures InsideIsolate(s, Entry(NextLevel(s, c, fsiRtl).value, Neutral, true), Step(s, c, fsiRtl).value, 0)
  {
    var e := Entry(NextLevel(s, c, fsiRtl).value, Neutral, true);
    assert (s.stack + [e])[..|s.stack|] == s.stack;
  }

  lemma {:induction false} InsideRun(types: seq<BidiClass>, base: Level, i: nat, k: nat)
    requires 0 <= base <= 1 && i < k <= |types| && types[i].IsIsoInit()
    requires Run(types, base, i).Some?
    requires Accepts(Run(types, base, i).value, NextLevel(Run(types, base, i).value, types[i], FsiIsRtl(types, i)))
    requires forall h :: i <= h < k ==> !DropsAt(types, base, h)
    requires forall h :: i < h <= k ==> IsOpen(types, i, h)
    ensures var s := Run(types, base, i).value;
      && Run(types, base, k).Some?
      && InsideIsolate(
           s, Entry(NextLevel(s, types[i], FsiIsRtl(types, i)).value, Neutral, true),
           Run(types, base, k).value, Nest(types, i + 1, k))
  {
    hide Run, Step;
    var s := Run(types, base, i).value;
    var e := Entry(NextLevel(s, types[i], FsiIsRtl(types, i)).value, Neutral, true);
    if k == i + 1 {
      assert !DropsAt(types, base, i);
      RunStep(types, base, i);
      InsideStart(s, types[i], FsiIsRtl(types, i));
    } else {
      InsideRun(types, base, i, k - 1);
      RunStep(types, base, k - 1);
      assert !DropsAt(types, base, k - 1) && IsOpen(types, i, k);
      InsideStep(s, e, Run(types, base, k - 1).value, Nest(types, i + 1, k - 1), types[k - 1], FsiIsRtl(types, k - 1));
    }
  }

  /** Inside an isolate that overflowed, only the overflow counter moves. */
  lemma OverflowStep(s: State, t: State, nest: int, c: BidiClass, fsiRtl: bool)
    requires nest >= 0 && t == s.(overflowIsolate := s.overflowIsolate + 1 + nest)
    ensures Step(t, c, fsiRtl).Some?
    ensures Step(t, c, fsiRtl).value ==
      s.(overflowIsolate := s.overflowIsolate +
        (if c.IsIsoInit() then nest + 2 else if c.PopDirectionalIsolate? then nest else nest + 1))
  {
  }

  lemma OverflowStart(s: State, c: BidiClass, fsiRtl: bool)
    requires c.IsIsoInit() && !Accepts(s, NextLevel(s, c, fsiRtl))
    ensures Step(s, c, fsiRtl) == Some(s.(overflowIsolate := s.overflowIsolate + 1))
  {
  }

  lemma {:induction false} OverflowRun(types: seq<BidiClass>, base: Level, i: nat, k: nat)
    requires 0 <= base <= 1 && i < k <= |types| && types[i].IsIsoInit()
    requires Run(types, base, i).Some?
    requires !Accepts(Run(types, base, i).value, NextLevel(Run(types, base, i).value, types[i], FsiIsRtl(types, i)))
    requires IsOpen(types, i, k) && forall h :: i < h < k ==> IsOpen(types, i, h)
    ensures var s := Run(types, base, i).value;
      Run(types, base, k) == Some(s.(overflowIsolate := s.overflowIsolate + 1 + Nest(types, i + 1, k)))
  {
    hide Run, Step;
    var s := Run(types, base, i).value;
    if k == i + 1 {
      RunStep(types, base, i);
      OverflowStart(s, types[i], FsiIsRtl(types, i));
    } else {
      assert IsOpen(types, i, k - 1);
      OverflowRun(types, base, i, k - 1);
      RunStep(types, base, k - 1);
      OverflowStep(s, Run(types, base, k - 1).value, Nest(types, i + 1, k - 1), types[k - 1], FsiIsRtl(types, k - 1));
    }
  }

  /** The PDI that closes an accepted isolate. */
  lemma ClosesInside(s: State, e: Entry, t: State)
    requires InsideIsolate(s, e, t, 0) && e.isolate && s.overflowIsolate == 0 && s.overflowEmbedding == 0
    ensures CloseIsolate(t) == Some(s)
  {
    var k := |s.stack|;
    IsolatesGrow(t.stack, k + 1);
    assert t.stack[..k + 1][..k] == s.stack && t.stack[..k + 1][k] == e;
    var rest := PopIsolate(t.stack);
    assert rest.Some? && |rest.value| == k;
  }

  lemma {:induction false} UndroppedRestores(types: seq<BidiClass>, base: Level, i: nat, j: nat)
    requires 0 <= base <= 1 && MatchesIsolate(types, i, j)
    requires Run(types, base, i).Some?
    requires forall h :: i <= h < j ==> !DropsAt(types, base, h)
    ensures Run(types, base, j + 1) == Run(types, base, i)
  {
    hide Run;
    var s := Run(types, base, i).value;
    var level := NextLevel(s, types[i], FsiIsRtl(types, i));
    assert IsOpen(types, i, j);
    if Accepts(s, level) {
      InsideRun(types, base, i, j);
      RunStep(types, base, j);
      ClosesInside(s, Entry(level.value, Neutral, true), Run(types, base, j).value);
    } else {
      OverflowRun(types, base, i, j);
      RunStep(types, base, j);
      assert CloseIsolate(Run(types, base, j).value) == Some(s);
    }
  }

  /** The entry at `n - 1` is the isolate with `m - 1` others below it. */
  lemma {:induction false} NthIsolate(stack: seq<Entry>, m: nat) returns (n: nat)
    requires 1 <= m <= Isolates(stack)
    ensures 1 <= n <= |stack| && stack[n - 1].isolate && Isolates(stack[..n]) == m
  {
    var init := stack[..|stack| - 1];
    if m <= Isolates(init) {
      n := NthIsolate(init, m);
      assert init[..n] == stack[..n];
    } else {
      n := |stack|;
      assert stack[..n] == stack;
    }
  }

  lemma PopsToPrefix(s: State, t: XState)
    requires CloseIsolate(s) == Some(t)
    ensures t.stack <= s.stack
  {
    hide Inv;
  }

  lemma PrefixSurvives(stack: seq<Entry>, n: nat, k: nat)
    requires 1 <= n <= |stack| && k <= |stack| && stack[n - 1].isolate
    requires Isolates(stack[..n]) <= Isolates(stack[..k])
    ensures n <= k && stack[..k][..n] == stack[..n]
  {
    var m := if k < n then k else n;
    IsolatesGrow(stack[..n], m);
    assert stack[..n][..m] == stack[..m];
  }

  /** An isolate entry and all below it survive every step that leaves that many isolates. */
  lemma IsolateSurvives(s: State, n: nat, c: BidiClass, fsiRtl: bool)
    requires 1 <= n <= |s.stack| && s.stack[n - 1].isolate && Step(s, c, fsiRtl).Some?
    requires Isolates(s.stack[..n]) <= Isolates(Step(s, c, fsiRtl).value.stack)
    ensures var t := Step(s, c, fsiRtl).value;
      n <= |t.stack| && t.stack[..n] == s.stack[..n]
  {
    hide NextLevel, Inv, Isolates, PopIsolate;
    if c.PopDirectionalIsolate? {
      var t := Step(s, c, fsiRtl).value;
      PopsToPrefix(s, t);
      assert s.stack[..|t.stack|] == t.stack;
      PrefixSurvives(s.stack, n, |t.stack|);
    }
  }

  lemma {:induction false} OpenNests(types: seq<BidiClass>, i: nat, k: nat)
    requires i < k <= |types| && types[i].IsIsoInit()
    requires forall h :: i < h <= k ==> IsOpen(types, i, h)
    ensures OpenIsolates(types, k) == OpenIsolates(types, i) + 1 + Nest(types, i + 1, k)
  {
    if k > i + 1 {
      OpenNests(types, i, k - 1);
      assert IsOpen(types, i, k);
    }
  }

  lemma OverflowIsNested(s: State, c: BidiClass, fsiRtl: bool, nest: nat)
    requires s.overflowIsolate <= nest && (c.PopDirectionalIsolate? ==> nest > 0)
    ensures var r := Step(s, c, fsiRtl);
      r.Some? ==>
        r.value.overflowIsolate <=
          (if c.IsIsoInit() then nest + 1 else if c.PopDirectionalIsolate? then nest - 1 else nest)
  {
    hide NextLevel, Inv, Top, Pushed, PopIsolate;
  }

  /** Inside the isolate of `i`, the stack keeps the isolate entry `n - 1` as long as few enough were dropped. */
  ghost predicate KeepsUpTo(types: seq<BidiClass>, base: Level, i: nat, k: nat, n: nat)
    requires 0 <= base <= 1 && i < k <= |types| && Run(types, base, i).Some?
  {
    && Run(types, base, k).Some?
    && var s, t := Run(types, base, i).value, Run(types, base, k).value;
    && n <= |s.stack| && n <= |t.stack| && t.stack[..n] == s.stack[..n]
    && t.overflowIsolate <= Nest(types, i + 1, k)
    && t.overflowIsolate + Isolates(t.stack) + Drops(types, base, k)
         == Isolates(s.stack) + Drops(types, base, i) + 1 + Nest(types, i + 1, k)
  }

  lemma IsolateStarts(s: State, c: BidiClass, fsiRtl: bool)
    requires c.IsIsoInit() && Accepts(s, NextLevel(s, c, fsiRtl))
    ensures var r := Step(s, c, fsiRtl);
      r.Some? && s.stack <= r.value.stack && r.value.overflowIsolate == 0
  {
    hide NextLevel, Inv;
  }

  lemma IsolatesInPrefix(stack: seq<Entry>, n: nat)
    requires 1 <= n <= |stack| && stack[n - 1].isolate
    ensures 1 <= Isolates(stack[..n]) <= Isolates(stack)
  {
    IsolatesGrow(stack, n);
    assert stack[..n][n - 1].isolate;
  }

  lemma {:induction false} DroppedRun(types: seq<BidiClass>, base: Level, i: nat, k: nat, n: nat)
    requires 0 <= base <= 1 && i < k <= |types| && types[i].IsIsoInit() && Run(types, base, i).Some?
    requires Accepts(Run(types, base, i).value, NextLevel(Run(types, base, i).value, types[i], FsiIsRtl(types, i)))
    requires forall h :: i < h <= k ==> IsOpen(types, i, h)
    requires var stack := Run(types, base, i).value.stack;
      && 1 <= n <= |stack| && stack[n - 1].isolate
      && Isolates(stack[..n]) + Drops(types, base, k) - Drops(types, base, i) <= Isolates(stack) + 1
    ensures KeepsUpTo(types, base, i, k, n)
  {
    hide Run, Step, Drops, Isolates, Inv, NextLevel, OpenIsolates;
    var s := Run(types, base, i).value;
    var c, fsiRtl := types[k - 1], FsiIsRtl(types, k - 1);
    RunStep(types, base, k - 1);
    OpenNests(types, i, k);
    OpenAreCounted(types, base, i);
    if k == i + 1 {
      StepPanics(s, c, fsiRtl);
      OpenAreCounted(types, base, k);
      IsolateStarts(s, c, fsiRtl);
    } else {
      DropsGrow(types, base, k - 1, k);
      DroppedRun(types, base, i, k - 1, n);
      assert IsOpen(types, i, k) && IsOpen(types, i, k - 1);
      var t := Run(types, base, k - 1).value;
      IsolatesInPrefix(t.stack, n);
      StepPanics(t, c, fsiRtl);
      OpenAreCounted(types, base, k);
      OverflowIsNested(t, c, fsiRtl, Nest(types, i + 1, k - 1));
      IsolateSurvives(t, n, c, fsiRtl);
    }
  }

  /** Only an isolate that took effect, or was dropped itself, can hold dropped ones. */
  lemma {:induction false} DropsWereAccepted(types: seq<BidiClass>, base: Level, i: nat, j: nat)
    requires 0 <= base <= 1 && MatchesIsolate(types, i, j) && Run(types, base, i).Some?
    requires Drops(types, base, i) != Drops(types, base, j)
    ensures Accepts(Run(types, base, i).value, NextLevel(Run(types, base, i).value, types[i], FsiIsRtl(types, i)))
  {
    hide Run, Step, NextLevel, Drops;
    DropsGrow(types, base, i, j);
    var h :| i <= h < j && DropsAt(types, base, h);
    var s := Run(types, base, i).value;
    if h > i && !Accepts(s, NextLevel(s, types[i], FsiIsRtl(types, i))) {
      assert IsOpen(types, i, h);
      OverflowRun(types, base, i, h);
    }
  }

  /** From the state `s` to the state `t`, the topmost `d` isolates were popped with all that stood on them. */
  ghost predicate Unwinds(s: State, t: State, d: nat) {
    && t.stack < s.stack && s.stack[|t.stack|].isolate
    && Isolates(t.stack) + d == Isolates(s.stack)
    && Top(t).level < Top(s).level
  }

  lemma TopIsLower(s: State, n: nat)
    requires n < |s.stack| && s.stack[n].isolate
    ensures 1 <= n && s.stack[n - 1].level < Top(s).level
  {
    BaseIsLowest(s.stack);
    LevelsIncrease(s.stack, n - 1, |s.stack| - 1);
  }

  lemma PopsLast(t: State, n: nat)
    requires 1 <= n <= |t.stack| && t.stack[n - 1].isolate && t.overflowIsolate == 0
    requires 1 <= Isolates(t.stack) == Isolates(t.stack[..n])
    ensures CloseIsolate(t).Some? && CloseIsolate(t).value.stack == t.stack[..n - 1]
    ensures Isolates(t.stack[..n - 1]) == Isolates(t.stack) - 1
  {
    hide Isolates, IsStack;
    IsolatesGrow(t.stack, n);
    var r := PopIsolate(t.stack);
    assert r.Some? && |r.value| == n - 1;
  }

  lemma PopsDropped(s: State, t: State, n: nat, fsiRtl: bool)
    requires 1 <= n <= |s.stack| && n <= |t.stack| && t.stack[..n] == s.stack[..n] && s.stack[n - 1].isolate
    requires t.overflowIsolate == 0 && Isolates(t.stack) == Isolates(t.stack[..n])
    ensures var r := Step(t, PopDirectionalIsolate, fsiRtl);
      && r.Some? && Inv(r.value) && r.value.stack == s.stack[..n - 1]
      && Isolates(r.value.stack) == Isolates(t.stack) - 1
      && Top(r.value).level < Top(s).level
  {
    hide Isolates, Inv, IsStack;
    IsolatesInPrefix(t.stack, n);
    StepKeeps(t, PopDirectionalIsolate, fsiRtl);
    PopsLast(t, n);
    assert t.stack[..n][..n - 1] == s.stack[..n][..n - 1];
    TopIsLower(s, n - 1);
  }

  lemma DroppedIsUnwound(types: seq<BidiClass>, base: Level, i: nat, j: nat)
    requires 0 <= base <= 1 && MatchesIsolate(types, i, j) && Run(types, base, i).Some?
    requires Accepts(Run(types, base, i).value, NextLevel(Run(types, base, i).value, types[i], FsiIsRtl(types, i)))
    requires 0 < Drops(types, base, j) - Drops(types, base, i) <= Isolates(Run(types, base, i).value.stack)
    ensures Run(types, base, j + 1).Some?
    ensures Unwinds(Run(types, base, i).value, Run(types, base, j + 1).value,
      Drops(types, base, j) - Drops(types, base, i))
  {
    hide Run, Step, Isolates, Drops, Inv, NextLevel, OpenIsolates, Accepts;
    var s, d := Run(types, base, i).value, Drops(types, base, j) - Drops(types, base, i);
    var n := NthIsolate(s.stack, Isolates(s.stack) - d + 1);
    assert IsOpen(types, i, j);
    DroppedRun(types, base, i, j, n);
    RunStep(types, base, j);
    PopsDropped(s, Run(types, base, j).value, n, FsiIsRtl(types, j));
  }

  lemma TooManyDropped(types: seq<BidiClass>, base: Level, i: nat, j: nat)
    requires 0 <= base <= 1 && MatchesIsolate(types, i, j) && Run(types, base, i).Some?
    requires Accepts(Run(types, base, i).value, NextLevel(Run(types, base, i).value, types[i], FsiIsRtl(types, i)))
    requires Drops(types, base, j) - Drops(types, base, i) > Isolates(Run(types, base, i).value.stack)
    ensures Run(types, base, j + 1).None?
  {
    hide Run, Step, Isolates, Inv, NextLevel;
    if Run(types, base, j + 1).Some? {
      assert IsOpen(types, i, j);
      OpenNests(types, i, j);
      OpenAreCounted(types, base, i);
      OpenAreCounted(types, base, j + 1);
    }
  }

  /**
    * Between an isolate initiator and its matching PDI, let `d` isolates be dropped. Without any, the PDI restores
    * the state before the initiator, whatever stood between: stack, overrides and overflow counters. Otherwise it
    * unwinds `d` of the isolates around the initiator, and panics if there are not that many.
    */
  lemma {:induction false} MatchingPdiUnwinds(types: seq<BidiClass>, base: Level, i: nat, j: nat)
    requires 0 <= base <= 1 && MatchesIsolate(types, i, j) && Run(types, base, i).Some?
    ensures Drops(types, base, i) <= Drops(types, base, j)
    ensures var s, r := Run(types, base, i).value, Run(types, base, j + 1);
      var d := Drops(types, base, j) - Drops(types, base, i);
      && (r.Some? <==> d <= Isolates(s.stack))
      && (r.Some? ==> if d == 0 then r.value == s else Unwinds(s, r.value, d))
  {
    hide Run, Step, Isolates, Drops, Inv, NextLevel, OpenIsolates, Unwinds;
    DropsGrow(types, base, i, j);
    var d := Drops(types, base, j) - Drops(types, base, i);
    if d == 0 {
      UndroppedRestores(types, base, i, j);
    } else {
      DropsWereAccepted(types, base, i, j);
      if d <= Isolates(Run(types, base, i).value.stack) {
        DroppedIsUnwound(types, base, i, j);
      } else {
        TooManyDropped(types, base, i, j);
      }
    }
  }

  /** The PDI restores the state before its initiator if and only if no initiator from that one on was dropped. */
  lemma {:induction false} MatchingPdiRestores(types: seq<BidiClass>, base: Level, i: nat, j: nat)
    requires 0 <= base <= 1 && MatchesIsolate(types, i, j) && Run(types, base, i).Some?
    ensures Run(types, base, j + 1) == Run(types, base, i) <==> forall h :: i <= h < j ==> !DropsAt(types, base, h)
  {
    hide Run, Drops, DropsAt;
    DropsGrow(types, base, i, j);
    MatchingPdiUnwinds(types, base, i, j);
  }

  // ---- what the rules assign -------------------------------------------------------------------

  /** The entry that gives character `i` its level and override: a PDI takes it after closing. */
  function Governs(types: seq<BidiClass>, base: Level, i: nat): (e: Entry)
    requires 0 <= base <= 1 && i < |types| && Run(types, base, i).Some? && Run(types, base, i + 1).Some?
    ensures base <= e.level <= MAX_DEPTH
  {
    var s := Run(types, base, if types[i].PopDirectionalIsolate? then i + 1 else i).value;
    Top(s)
  }

  /** The explicit level of a character that rule X9 keeps. */
  function ExplicitLevel(types: seq<BidiClass>, base: Level, i: nat): (l: Level)
    requires 0 <= base <= 1 && i < |types| && Run(types, base, i).Some? && Run(types, base, i + 1).Some?
    ensures base <= l <= MAX_DEPTH
  {
    if types[i].ParagraphSeparator? then base else Governs(types, base, i).level
  }

  /** The class after directional overrides. */
  function ExplicitClass(types: seq<BidiClass>, base: Level, i: nat): (c: BidiClass)
    requires 0 <= base <= 1 && i < |types| && Run(types, base, i).Some? && Run(types, base, i + 1).Some?
    ensures c.IsRemoved() <==> types[i].IsRemoved()
  {
    if types[i].ParagraphSeparator? || types[i].IsRemoved() then types[i]
    else Overridden(types[i], Governs(types, base, i).override)
  }

  lemma {:induction false} RunsEarlier(types: seq<BidiClass>, base: Level, i: nat, n: nat)
    requires 0 <= base <= 1 && i <= n <= |types| && Run(types, base, n).Some?
    ensures Run(types, base, i).Some?
  {
    hide Run, Step;
    if i < n {
      RunStep(types, base, n - 1);
      RunsEarlier(types, base, i, n - 1);
    }
  }

  /** A PDI gets the level and the override of the initiator it matches if and only if nothing was dropped. */
  lemma {:induction false} MatchingPdiLevel(types: seq<BidiClass>, base: Level, i: nat, j: nat)
    requires 0 <= base <= 1 && MatchesIsolate(types, i, j) && Run(types, base, i).Some?
    ensures Run(types, base, j + 1).Some? ==>
      && Run(types, base, i + 1).Some? && Run(types, base, j).Some?
      && Governs(types, base, j).level <= Governs(types, base, i).level
      && ((forall h :: i <= h < j ==> !DropsAt(types, base, h)) <==> Governs(types, base, j) == Governs(types, base, i))
    ensures (forall h :: i <= h < j ==> !DropsAt(types, base, h)) ==> Run(types, base, j + 1).Some?
  {
    hide Run, Step, Drops, DropsAt;
    DropsGrow(types, base, i, j);
    MatchingPdiUnwinds(types, base, i, j);
    if Run(types, base, j + 1).Some? {
      RunsEarlier(types, base, i + 1, j + 1);
      RunsEarlier(types, base, j, j + 1);
    }
  }

  /** The classes whose initiators open an odd level, whatever follows them. */
  predicate OpensOdd(c: BidiClass) {
    c.RightToLeftEmbedding? || c.RightToLeftOverride? || c.RightToLeftIsolate?
  }

  /** The entry that rules X2 to X5c ask for. */
  predicate Opened(s: State, c: BidiClass, fsiRtl: bool, e: Entry) {
    && Some(e.level) == (if OpensOdd(c) || (c.FirstStrongIsolate? && fsiRtl) then LeastGreaterOdd(Top(s).level)
                         else LeastGreaterEven(Top(s).level))
    && e.override == (if c.RightToLeftOverride? then RTL else if c.LeftToRightOverride? then LTR else Neutral)
    && (e.isolate <==> c.IsIsoInit())
  }

  lemma StepPushes(s: State, c: BidiClass, fsiRtl: bool)
    requires (c.IsEmbeddingInit() || c.IsIsoInit()) && Accepts(s, NextLevel(s, c, fsiRtl)) && |s.stack| < MAX_DEPTH
    ensures var override := if c.RightToLeftOverride? then RTL else if c.LeftToRightOverride? then LTR else Neutral;
      Step(s, c, fsiRtl).Some? &&
      Step(s, c, fsiRtl).value.stack == s.stack + [Entry(NextLevel(s, c, fsiRtl).value, override, c.IsIsoInit())]
  {
    hide NextLevel, Inv, Top, Isolates;
  }

  lemma StepOpens(s: State, c: BidiClass, fsiRtl: bool)
    requires (c.IsEmbeddingInit() || c.IsIsoInit()) && Accepts(s, NextLevel(s, c, fsiRtl)) && |s.stack| < MAX_DEPTH
    ensures var r := Step(s, c, fsiRtl);
      && r.Some? && Inv(r.value)
      && r.value.stack == s.stack + [Top(r.value)] && Opened(s, c, fsiRtl, Top(r.value))
  {
    StepKeeps(s, c, fsiRtl);
    StepPushes(s, c, fsiRtl);
    hide Inv, LeastGreaterOdd, LeastGreaterEven, Step, Accepts, Isolates;
  }

  /**
    * An initiator that takes effect opens the least greater odd or even level; the character behind it stands at
    * that level, and is R or L behind an override, unless it is a paragraph separator or closes the isolate again.
    */
  lemma {:induction false} InitiatorOpens(types: seq<BidiClass>, base: Level, i: nat)
    requires 0 <= base <= 1 && i < |types| && (types[i].IsEmbeddingInit() || types[i].IsIsoInit())
    requires Run(types, base, i).Some? && |Run(types, base, i).value.stack| < MAX_DEPTH
    requires Accepts(Run(types, base, i).value, NextLevel(Run(types, base, i).value, types[i], FsiIsRtl(types, i)))
    ensures Run(types, base, i + 1).Some?
    ensures var s, t := Run(types, base, i).value, Run(types, base, i + 1).value;
      t.stack == s.stack + [Top(t)] && Opened(s, types[i], FsiIsRtl(types, i), Top(t))
    ensures i + 1 < |types| && !types[i + 1].PopDirectionalIsolate? ==>
      && Run(types, base, i + 2).Some?
      && Governs(types, base, i + 1) == Top(Run(types, base, i + 1).value)
    ensures i + 1 < |types| && types[i + 1].PopDirectionalIsolate? && types[i].IsIsoInit() ==>
      Run(types, base, i + 2) == Run(types, base, i) && Governs(types, base, i + 1) == Governs(types, base, i)
  {
    hide Run, Step, NextLevel, Accepts, Inv, Top, Opened;
    RunStep(types, base, i);
    StepOpens(Run(types, base, i).value, types[i], FsiIsRtl(types, i));
    if i + 1 < |types| {
      RunStep(types, base, i + 1);
      StepPanics(Run(types, base, i + 1).value, types[i + 1], FsiIsRtl(types, i + 1));
      if types[i + 1].PopDirectionalIsolate? && types[i].IsIsoInit() {
        assert !DropsAt(types, base, i);
        UndroppedRestores(types, base, i, i + 1);
      }
    }
  }

  lemma OthersStep(s: State, c: BidiClass, fsiRtl: bool)
    requires !c.IsRemoved() && !c.PopDirectionalIsolate?
    ensures Step(s, c, fsiRtl) == if c.IsIsoInit() then Some(Isolate(s, NextLevel(s, c, fsiRtl))) else Some(s)
  {
    hide Isolate, NextLevel, Inv;
  }

  // ---- the paragraph that panics ---------------------------------------------------------------

  /** 124 nested embeddings, then an isolate and its PDI. */
  function DeepParagraph(): seq<BidiClass> {
    seq(124, i => if i % 2 == 0 then RightToLeftEmbedding else LeftToRightEmbedding)
      + [RightToLeftIsolate, PopDirectionalIsolate]
  }

  function DeepStack(n: nat): seq<Entry>
    requires n <= 124
  {
    seq(n + 1, i requires 0 <= i < n + 1 => Entry(i, Neutral, false))
  }

  lemma DeepStep(s: State, n: nat, fsiRtl: bool)
    requires n < 124 && s == XState(DeepStack(n), 0, 0, 0)
    ensures Step(s, if n % 2 == 0 then RightToLeftEmbedding else LeftToRightEmbedding, fsiRtl)
      == Some(XState(DeepStack(n + 1), 0, 0, 0))
  {
    assert DeepStack(n + 1) == DeepStack(n) + [Entry(n + 1, Neutral, false)];
  }

  lemma {:induction false} DeepRun(types: seq<BidiClass>, base: Level, n: nat)
    requires base == 0 && n <= 124 <= |types|
    requires forall i :: 0 <= i < 124 ==> types[i] == if i % 2 == 0 then RightToLeftEmbedding else LeftToRightEmbedding
    ensures Run(types, base, n).Some? && Run(types, base, n).value == XState(DeepStack(n), 0, 0, 0)
  {
    if n > 0 {
      DeepRun(types, base, n - 1);
      RunStep(types, base, n - 1);
      hide Run, Step;
      DeepStep(Run(types, base, n - 1).value, n - 1, FsiIsRtl(types, n - 1));
    } else {
      assert Init(base).stack == DeepStack(0);
    }
  }

  lemma {:induction false} NoIsolates(stack: seq<Entry>)
    requires forall i :: 0 <= i < |stack| ==> !stack[i].isolate
    ensures Isolates(stack) == 0
  {
    if stack != [] {
      NoIsolates(stack[..|stack| - 1]);
    }
  }

  /** The full stack drops the isolate but counts it, and its PDI finds no isolate to pop. */
  lemma DeepEnd(s: State, fsiRtl: bool, fsiRtl': bool)
    requires s == XState(DeepStack(124), 0, 0, 0)
    ensures DropsIsolate(s, RightToLeftIsolate, fsiRtl)
    ensures var t := Step(s, RightToLeftIsolate, fsiRtl);
      t.Some? && Inv(t.value) && Step(t.value, PopDirectionalIsolate, fsiRtl').None?
  {
    NoIsolates(DeepStack(124));
  }

  /** With base level 0 and all of the levels 0 to 124 stacked, the pop loop runs off the stack. */
  lemma {:induction false} DeepIsolatePanics()
    ensures Run(DeepParagraph(), 0, 125).Some? && DropsAt(DeepParagraph(), 0, 124)
    ensures Run(DeepParagraph(), 0, 126).None?
  {
    hide Run, Step, DropsIsolate;
    var types := DeepParagraph();
    assert types[124] == RightToLeftIsolate && types[125] == PopDirectionalIsolate;
    DeepRun(types, 0, 124);
    DeepEnd(Run(types, 0, 124).value, FsiIsRtl(types, 124), FsiIsRtl(types, 125));
    RunStep(types, 0, 124);
    RunStep(types, 0, 125);
  }
}
