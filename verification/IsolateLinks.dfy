/**
  * Definition BD13 of UAX #9 (section 3.1.2): the greedy search of the source joins a run that ends with an isolate
  * initiator to the run that begins with the matching PDI, and to no other.
  */
module IsolateLinks {
  import opened Wrappers
  import opened BidiTypes
  import opened LevelStacks
  import opened ParagraphLevels
  import opened ExplicitLevels
  import opened LevelRuns
  import opened Resolution

  // ---- runs that belong together -----------------------------------------------------------------

  /** A run `m` that could continue the sequence of run `k`. */
  predicate IsMate(ends: seq<Ends>, k: nat, m: nat) {
    k < m < |ends| && ends[k].endsWithInit && ends[m].startsWithPdi && ends[m].level == ends[k].level
  }

  /**
    * For each run that ends with an isolate initiator, `mate` names the run that begins with its PDI, if there is one.
    */
  ghost predicate AreMates(ends: seq<Ends>, mate: map<nat, nat>) {
    && (forall k :: k in mate ==> IsMate(ends, k, mate[k]))
    && (forall k, l :: k in mate && l in mate && mate[k] == mate[l] ==> k == l)
    && (forall k, m :: IsMate(ends, k, m) ==> k in mate && mate[k] <= m)
  }

  /** Runs are taken together with the runs that come before them in their sequence. */
  ghost predicate TakesWhole(mate: map<nat, nat>, taken: set<nat>) {
    forall k :: k in mate && mate[k] in taken ==> k in taken
  }

  lemma NextIsMate(ends: seq<Ends>, mate: map<nat, nat>, taken: set<nat>, k: nat)
    requires AreMates(ends, mate) && TakesWhole(mate, taken) && k < |ends| && k !in taken && ends[k].endsWithInit
    ensures NextJoin(ends, taken, ends[k].level, k + 1) == if k in mate then mate[k] else |ends|
  {
    var n := NextJoin(ends, taken, ends[k].level, k + 1);
    assert k in mate ==> Joins(ends, taken, ends[k].level, mate[k]);
    assert n < |ends| ==> IsMate(ends, k, n);
  }

  predicate FollowsMate(mate: map<nat, nat>, members: seq<nat>, a: nat)
    requires 0 < a < |members|
  {
    members[a - 1] in mate && mate[members[a - 1]] == members[a]
  }

  /** The runs of a sequence follow one another as mates, to a run that has none. */
  ghost predicate FollowsMates(mate: map<nat, nat>, members: seq<nat>) {
    && members != []
    && (forall a :: 0 < a < |members| ==> FollowsMate(mate, members, a))
    && members[|members| - 1] !in mate
  }

  lemma FollowsCons(mate: map<nat, nat>, k: nat, tail: seq<nat>)
    requires FollowsMates(mate, tail) && k in mate && mate[k] == tail[0]
    ensures FollowsMates(mate, [k] + tail)
  {
    var members := [k] + tail;
    forall a | 0 < a < |members|
      ensures FollowsMate(mate, members, a)
    {
      assert a > 1 ==> FollowsMate(mate, tail, a - 1);
    }
  }

  lemma {:induction false} ContinuationFollows(ends: seq<Ends>, mate: map<nat, nat>, taken: set<nat>, k: nat)
    requires AreMates(ends, mate) && TakesWhole(mate, taken) && k < |ends| && k !in taken
    ensures FollowsMates(mate, [k] + Continuation(ends, taken, k))
    decreases |ends| - k
  {
    hide NextJoin;
    if ends[k].endsWithInit {
      NextIsMate(ends, mate, taken, k);
      if k in mate {
        var n := mate[k];
        assert n !in taken;
        ContinuationFollows(ends, mate, taken, n);
        FollowsCons(mate, k, [n] + Continuation(ends, taken, n));
      }
    }
  }

  lemma StaysWhole(ends: seq<Ends>, mate: map<nat, nat>, taken: set<nat>, members: seq<nat>)
    requires AreMates(ends, mate) && TakesWhole(mate, taken) && FollowsMates(mate, members)
    requires forall r: nat :: r < members[0] ==> r in taken
    ensures TakesWhole(mate, taken + SetOf(members))
  {
    forall k | k in mate && mate[k] in taken + SetOf(members)
      ensures k in taken + SetOf(members)
    {
      if mate[k] !in taken {
        var a :| 0 <= a < |members| && members[a] == mate[k];
        assert IsMate(ends, k, mate[k]);
        assert a > 0 ==> FollowsMate(mate, members, a);
      }
    }
  }

  lemma {:induction false} SequencesFollow(ends: seq<Ends>, mate: map<nat, nat>, taken: set<nat>, k: nat)
    requires AreMates(ends, mate) && TakesWhole(mate, taken) && k <= |ends|
    requires forall r: nat :: r < k ==> r in taken
    ensures forall s :: 0 <= s < |SequencesFrom(ends, taken, k)| ==>
      FollowsMates(mate, SequencesFrom(ends, taken, k)[s])
    decreases |ends| - k
  {
    hide AreMates, TakesWhole, FollowsMates, Continuation;
    if k < |ends| {
      if k in taken {
        SequencesFollow(ends, mate, taken, k + 1);
      } else {
        var members := [k] + Continuation(ends, taken, k);
        ContinuationFollows(ends, mate, taken, k);
        StaysWhole(ends, mate, taken, members);
        SequencesFollow(ends, mate, taken + SetOf(members), k + 1);
      }
    }
  }

  // ---- isolates in the text ----------------------------------------------------------------------

  predicate IsPlain(c: BidiClass) {
    !c.RightToLeftOverride? && !c.LeftToRightOverride? && !c.ParagraphSeparator?
  }

  predicate TakesEffect(orig: seq<BidiClass>, base: Level, h: nat)
    requires 0 <= base <= 1 && h < |orig|
  {
    && Run(orig, base, h).Some?
    && Accepts(Run(orig, base, h).value, NextLevel(Run(orig, base, h).value, orig[h], FsiIsRtl(orig, h)))
    && |Run(orig, base, h).value.stack| < MAX_DEPTH
  }

  /** No overrides, no paragraph separators, and every isolate initiator takes effect. */
  ghost predicate TakesAll(orig: seq<BidiClass>, base: Level) {
    && Resolvable(orig, base)
    && (forall h :: 0 <= h < |orig| ==> IsPlain(orig[h]))
    && (forall h :: 0 <= h < |orig| && orig[h].IsIsoInit() ==> TakesEffect(orig, base, h))
  }

  lemma NoneDropped(orig: seq<BidiClass>, base: Level, h: nat)
    requires TakesAll(orig, base) && h < |orig|
    ensures !DropsAt(orig, base, h)
  {
    hide Run, NextLevel;
    assert orig[h].IsIsoInit() ==> TakesEffect(orig, base, h);
  }

  predicate AllNeutral(stack: seq<Entry>) {
    forall k :: 0 <= k < |stack| ==> stack[k].override.Neutral?
  }

  lemma StepNeutral(s: State, c: BidiClass, fsiRtl: bool)
    requires IsPlain(c) && AllNeutral(s.stack)
    ensures Step(s, c, fsiRtl).Some? ==> AllNeutral(Step(s, c, fsiRtl).value.stack)
  {
    hide NextLevel, Inv, Isolates;
  }

  lemma StartNeutral(base: Level)
    requires 0 <= base <= 1
    ensures AllNeutral(Init(base).stack)
  {
  }

  lemma {:induction false} RunNeutral(orig: seq<BidiClass>, base: Level, n: nat)
    requires TakesAll(orig, base) && n <= |orig|
    ensures Run(orig, base, n).Some? && AllNeutral(Run(orig, base, n).value.stack)
  {
    hide Run, Step, AllNeutral, TakesEffect;
    RunsEarlier(orig, base, n, |orig|);
    if n == 0 {
      RunStart(orig, base);
      StartNeutral(base);
    } else {
      RunNeutral(orig, base, n - 1);
      RunStep(orig, base, n - 1);
      StepNeutral(Run(orig, base, n - 1).value, orig[n - 1], FsiIsRtl(orig, n - 1));
    }
  }

  /** Without overrides every character keeps its class. */
  lemma KeepsClass(orig: seq<BidiClass>, base: Level, i: nat)
    requires TakesAll(orig, base) && i < |orig|
    ensures ClassAt(orig, base, i) == orig[i]
  {
    RunNeutral(orig, base, i);
    RunNeutral(orig, base, i + 1);
    hide Run, TakesEffect;
  }

  lemma OpenBefore(orig: seq<BidiClass>, i: nat, j: nat, p: nat)
    requires MatchesIsolate(orig, i, j) && i < p < j
    ensures forall h :: i < h <= p + 1 ==> IsOpen(orig, i, h)
  {
    assert IsOpen(orig, i, j);
  }

  lemma InnerNests(types: seq<BidiClass>, a: nat, j: nat, b: nat)
    requires MatchesIsolate(types, a, j) && a < b < j && types[b].IsIsoInit()
    ensures Nest(types, a + 1, b + 1) > 0
  {
    assert IsOpen(types, a, b);
  }

  /** A PDI matches one initiator at most. */
  lemma {:induction false} OneInitiator(types: seq<BidiClass>, i: nat, i': nat, j: nat)
    requires MatchesIsolate(types, i, j) && MatchesIsolate(types, i', j)
    ensures i == i'
  {
    var a, b := if i < i' then i else i', if i < i' then i' else i;
    if a < b {
      InnerNests(types, a, j, b);
      NestSplit(types, a + 1, b + 1, j);
    }
  }

  lemma NotOpenBehind(types: seq<BidiClass>, i: nat, j: nat)
    requires MatchesIsolate(types, i, j)
    ensures !IsOpen(types, i, j + 1)
  {
  }

  lemma {:induction false} OnePdi(types: seq<BidiClass>, i: nat, j: nat, j': nat)
    requires MatchesIsolate(types, i, j) && MatchesIsolate(types, i, j')
    ensures j == j'
  {
    NotOpenBehind(types, i, if j < j' then j else j');
  }

  /** An isolate stays open up to `n`, or a PDI before `n` matches it. */
  lemma {:induction false} OpenOrClosed(types: seq<BidiClass>, i: nat, n: nat)
    requires i < n <= |types| && types[i].IsIsoInit()
    ensures (forall h :: i < h <= n ==> IsOpen(types, i, h)) || exists j: nat :: j < n && MatchesIsolate(types, i, j)
  {
    if n > i + 1 {
      OpenOrClosed(types, i, n - 1);
      if !IsOpen(types, i, n) && forall h :: i < h <= n - 1 ==> IsOpen(types, i, h) {
        assert IsOpen(types, i, n - 1);
        assert MatchesIsolate(types, i, n - 1);
      }
    }
  }

  lemma AboveEntry(s: State, e: Entry, t: State, nest: int)
    requires InsideIsolate(s, e, t, nest) && Top(s).level < e.level
    ensures Top(s).level < Top(t).level
  {
    if |s.stack| < |t.stack| - 1 {
      LevelsIncrease(t.stack, |s.stack|, |t.stack| - 1);
    }
  }

  /** While the isolate of `i` is open, the stack is above its level. */
  lemma {:induction false} OpenIsAbove(orig: seq<BidiClass>, base: Level, i: nat, k: nat)
    requires TakesAll(orig, base) && i < k <= |orig| && orig[i].IsIsoInit()
    requires forall h :: i < h <= k ==> IsOpen(orig, i, h)
    ensures Run(orig, base, i).Some? && Run(orig, base, k).Some?
    ensures Top(Run(orig, base, i).value).level < Top(Run(orig, base, k).value).level
  {
    assert TakesEffect(orig, base, i);
    forall h | i <= h < k
      ensures !DropsAt(orig, base, h)
    {
      NoneDropped(orig, base, h);
    }
    hide Run, Step, DropsAt, InsideIsolate, Inv;
    InsideRun(orig, base, i, k);
    var s := Run(orig, base, i).value;
    var e := Entry(NextLevel(s, orig[i], FsiIsRtl(orig, i)).value, Neutral, true);
    AboveEntry(s, e, Run(orig, base, k).value, Nest(orig, i + 1, k));
  }

  /** Inside an isolate, all kept characters are above the level of its initiator. */
  lemma InsideIsAbove(orig: seq<BidiClass>, base: Level, i: nat, k: nat)
    requires TakesAll(orig, base) && i < k < |orig| && orig[i].IsIsoInit() && !orig[k].IsRemoved()
    requires forall h :: i < h <= k + 1 ==> IsOpen(orig, i, h)
    ensures LevelAt(orig, base, i) < LevelAt(orig, base, k)
  {
    hide Run, TakesEffect, Top;
    OpenIsAbove(orig, base, i, k);
    OpenIsAbove(orig, base, i, k + 1);
    RunsEarlier(orig, base, i + 1, |orig|);
  }

  lemma MateIsLevel(orig: seq<BidiClass>, base: Level, i: nat, j: nat)
    requires TakesAll(orig, base) && MatchesIsolate(orig, i, j)
    ensures LevelAt(orig, base, i) == LevelAt(orig, base, j)
  {
    assert TakesEffect(orig, base, i);
    forall h | i <= h < j
      ensures !DropsAt(orig, base, h)
    {
      NoneDropped(orig, base, h);
    }
    hide Run, DropsAt, Top;
    MatchingPdiLevel(orig, base, i, j);
    assert IsPlain(orig[i]) && IsPlain(orig[j]);
  }

  // ---- isolates and runs -------------------------------------------------------------------------

  /** The first kept character of the run stands at `j`. */
  ghost predicate BeginsAt(levels: seq<Level>, run: LevelRun, j: nat)
    requires run.start < run.end <= |levels|
  {
    run.start <= j < run.end && levels[j] != NO_LEVEL && forall p :: run.start <= p < j ==> levels[p] == NO_LEVEL
  }

  lemma {:induction false} FirstClassAt(types: seq<BidiClass>, levels: seq<Level>, i: nat, e: nat, j: nat)
    requires i <= j < e <= |types| == |levels|
    requires levels[j] != NO_LEVEL && forall p :: i <= p < j ==> levels[p] == NO_LEVEL
    ensures FirstClass(types, levels, i, e) == Some(types[j])
    decreases j - i
  {
    if i < j {
      FirstClassAt(types, levels, i + 1, e, j);
    }
  }

  lemma {:induction false} FirstKept(levels: seq<Level>, i: nat, e: nat) returns (j: nat)
    requires i < e <= |levels| && exists p :: i <= p < e && levels[p] != NO_LEVEL
    ensures i <= j < e && levels[j] != NO_LEVEL && forall p :: i <= p < j ==> levels[p] == NO_LEVEL
    decreases e - i
  {
    if levels[i] != NO_LEVEL {
      j := i;
    } else {
      j := FirstKept(levels, i + 1, e);
    }
  }

  lemma RunBegins(types: seq<BidiClass>, levels: seq<Level>, runs: seq<LevelRun>, n: nat) returns (j: nat)
    requires AreRuns(types, levels, 0, runs) && n < |runs|
    ensures runs[n].start < runs[n].end <= |types| == |levels|
    ensures BeginsAt(levels, runs[n], j) && levels[j] == runs[n].level
    ensures EndsOf(types, levels, runs[n]).startsWithPdi <==> types[j].PopDirectionalIsolate?
  {
    var run := runs[n];
    assert IsRun(types, levels, run);
    j := FirstKept(levels, run.start, run.end);
    FirstClassAt(types, levels, run.start, run.end, j);
  }

  /** Run `k` ends with an isolate initiator, and run `n` begins with the PDI that matches it. */
  ghost predicate IsIsolateLink(orig: seq<BidiClass>, levels: seq<Level>, runs: seq<LevelRun>, k: nat, n: nat) {
    && k < |runs| && n < |runs|
    && 0 < runs[k].end <= |orig| && runs[n].start < runs[n].end <= |levels|
    && exists j: nat :: MatchesIsolate(orig, runs[k].end - 1, j) && BeginsAt(levels, runs[n], j)
  }

  /** What the lemmas below know of the text: its levels and runs are those of the explicit rules. */
  ghost predicate IsText(orig: seq<BidiClass>, base: Level, levels: seq<Level>, runs: seq<LevelRun>) {
    && TakesAll(orig, base)
    && |levels| == |orig| && (forall i :: 0 <= i < |orig| ==> levels[i] == LevelAt(orig, base, i))
    && AreRuns(orig, levels, 0, runs) && RunsInText(orig, levels, runs)
  }

  lemma MatchedKept(orig: seq<BidiClass>, i: nat, j: nat)
    requires MatchesIsolate(orig, i, j)
    ensures i < j < |orig| && !orig[i].IsRemoved() && !orig[j].IsRemoved() && orig[i].IsIsoInit()
  {
  }

  lemma LevelInRun(types: seq<BidiClass>, levels: seq<Level>, runs: seq<LevelRun>, n: nat, p: nat)
    requires AreRuns(types, levels, 0, runs) && n < |runs| && runs[n].start <= p < runs[n].end
    ensures p < |levels| && (levels[p] != NO_LEVEL ==> levels[p] == runs[n].level)
  {
    assert IsRun(types, levels, runs[n]);
  }

  /** A run that holds a character behind another run comes later. */
  lemma Later(types: seq<BidiClass>, levels: seq<Level>, runs: seq<LevelRun>, k: nat, n: nat, j: nat)
    requires AreRuns(types, levels, 0, runs) && k < |runs| && n < |runs|
    requires runs[k].end <= j && runs[n].start <= j < runs[n].end
    ensures k < n && runs[k].end <= runs[n].start
  {
    if n < k {
      RunsAscend(types, levels, 0, runs, n, k);
    } else if k < n {
      RunsAscend(types, levels, 0, runs, k, n);
    }
  }

  /** The PDI that matches the last character of a run begins a later run of the same level. */
  lemma PdiBegins(orig: seq<BidiClass>, base: Level, levels: seq<Level>, runs: seq<LevelRun>, k: nat, j: nat)
    returns (n: nat)
    requires IsText(orig, base, levels, runs) && k < |runs| && MatchesIsolate(orig, runs[k].end - 1, j)
    ensures k < n < |runs| && BeginsAt(levels, runs[n], j) && runs[n].level == runs[k].level
  {
    var i := runs[k].end - 1;
    hide LevelAt, TakesAll, IsSpan, MatchesIsolate;
    MateIsLevel(orig, base, i, j);
    MatchedKept(orig, i, j);
    n := RunsCover(orig, levels, 0, runs, j);
    LevelInRun(orig, levels, runs, n, j);
    LevelInRun(orig, levels, runs, k, i);
    Later(orig, levels, runs, k, n, j);
    var p := RunBegins(orig, levels, runs, n);
    if p < j {
      LevelInRun(orig, levels, runs, n, p);
      OpenBefore(orig, i, j, p);
      InsideIsAbove(orig, base, i, p);
    }
  }

  /** A run that ends with an isolate initiator ends with a kept character. */
  lemma LastIsKept(orig: seq<BidiClass>, levels: seq<Level>, runs: seq<LevelRun>, k: nat)
    requires AreRuns(orig, levels, 0, runs) && k < |runs| && 0 < runs[k].end <= |orig|
    requires orig[runs[k].end - 1].IsIsoInit()
    ensures runs[k].start <= runs[k].end - 1
  {
    assert IsRun(orig, levels, runs[k]);
  }

  /** Runs come in the order of their characters. */
  lemma Before(types: seq<BidiClass>, levels: seq<Level>, runs: seq<LevelRun>, n: nat, j: nat, m: nat, p: nat)
    requires AreRuns(types, levels, 0, runs) && n < |runs| && m < |runs| && j <= p
    requires runs[n].start <= j < runs[n].end && runs[m].start <= p < runs[m].end
    ensures n <= m
  {
    if m < n {
      RunsAscend(types, levels, 0, runs, m, n);
    }
  }

  /** A run of the same level that begins with a PDI is not before the one that the matching PDI begins. */
  lemma MateComesFirst(orig: seq<BidiClass>, base: Level, levels: seq<Level>, runs: seq<LevelRun>, k: nat, m: nat)
    returns (j: nat, n: nat)
    requires IsText(orig, base, levels, runs) && k < m < |runs| && runs[m].level == runs[k].level
    requires orig[runs[k].end - 1].IsIsoInit() && EndsOf(orig, levels, runs[m]).startsWithPdi
    ensures k < n <= m && MatchesIsolate(orig, runs[k].end - 1, j) && BeginsAt(levels, runs[n], j)
    ensures runs[n].level == runs[k].level
  {
    var i := runs[k].end - 1;
    hide LevelAt, TakesAll, IsSpan, MatchesIsolate, EndsOf;
    RunsAscend(orig, levels, 0, runs, k, m);
    var p := RunBegins(orig, levels, runs, m);
    LastIsKept(orig, levels, runs, k);
    LevelInRun(orig, levels, runs, k, i);
    OpenOrClosed(orig, i, p + 1);
    if forall h :: i < h <= p + 1 ==> IsOpen(orig, i, h) {
      InsideIsAbove(orig, base, i, p);
    }
    j :| j < p + 1 && MatchesIsolate(orig, i, j);
    n := PdiBegins(orig, base, levels, runs, k, j);
    Before(orig, levels, runs, n, j, m, p);
  }

  ghost predicate HasMate(orig: seq<BidiClass>, levels: seq<Level>, runs: seq<LevelRun>, k: nat) {
    exists n: nat :: n < |runs| && IsIsolateLink(orig, levels, runs, k, n)
  }

  ghost function MateOf(orig: seq<BidiClass>, levels: seq<Level>, runs: seq<LevelRun>, k: nat): (n: nat)
    requires HasMate(orig, levels, runs, k)
    ensures IsIsolateLink(orig, levels, runs, k, n)
  {
    var n: nat :| n < |runs| && IsIsolateLink(orig, levels, runs, k, n);
    n
  }

  ghost function Mates(orig: seq<BidiClass>, levels: seq<Level>, runs: seq<LevelRun>): (m: map<nat, nat>)
    ensures forall k: nat :: k in m <==> k < |runs| && HasMate(orig, levels, runs, k)
    ensures forall k: nat :: k in m ==> IsIsolateLink(orig, levels, runs, k, m[k])
  {
    map k: nat | k < |runs| && HasMate(orig, levels, runs, k) :: MateOf(orig, levels, runs, k)
  }

  lemma MatchedIsPdi(orig: seq<BidiClass>, i: nat, j: nat)
    requires MatchesIsolate(orig, i, j)
    ensures orig[j].PopDirectionalIsolate?
  {
  }

  lemma PdiStarts(orig: seq<BidiClass>, base: Level, levels: seq<Level>, runs: seq<LevelRun>, n: nat, j: nat)
    requires IsText(orig, base, levels, runs) && n < |runs| && BeginsAt(levels, runs[n], j)
    requires orig[j].PopDirectionalIsolate?
    ensures EndsOf(orig, levels, runs[n]).startsWithPdi
  {
    FirstClassAt(orig, levels, runs[n].start, runs[n].end, j);
  }

  lemma BeginsOnce(orig: seq<BidiClass>, base: Level, levels: seq<Level>, runs: seq<LevelRun>, n: nat, n': nat, j: nat)
    requires IsText(orig, base, levels, runs) && n < |runs| && n' < |runs|
    requires BeginsAt(levels, runs[n], j) && BeginsAt(levels, runs[n'], j)
    ensures n == n'
  {
    Before(orig, levels, runs, n, j, n', j);
    Before(orig, levels, runs, n', j, n, j);
  }

  /** A link joins two runs of one level, the first of which ends with an initiator and the other begins with a PDI. */
  lemma LinkIsMate(orig: seq<BidiClass>, base: Level, levels: seq<Level>, runs: seq<LevelRun>, k: nat, n: nat)
    requires IsText(orig, base, levels, runs) && IsIsolateLink(orig, levels, runs, k, n)
    ensures IsMate(AllEnds(orig, levels, runs), k, n)
  {
    var j: nat :| MatchesIsolate(orig, runs[k].end - 1, j) && BeginsAt(levels, runs[n], j);
    hide IsText, MatchesIsolate, LevelAt, FirstClass;
    assert IsText(orig, base, levels, runs);
    var n' := PdiBegins(orig, base, levels, runs, k, j);
    BeginsOnce(orig, base, levels, runs, n, n', j);
    MatchedKept(orig, runs[k].end - 1, j);
    MatchedIsPdi(orig, runs[k].end - 1, j);
    PdiStarts(orig, base, levels, runs, n, j);
  }

  lemma SameBeginning(levels: seq<Level>, run: LevelRun, j: nat, j': nat)
    requires run.start < run.end <= |levels| && BeginsAt(levels, run, j) && BeginsAt(levels, run, j')
    ensures j == j'
  {
  }

  lemma EndsDiffer(orig: seq<BidiClass>, base: Level, levels: seq<Level>, runs: seq<LevelRun>, k: nat, k': nat)
    requires IsText(orig, base, levels, runs) && k < |runs| && k' < |runs|
    ensures k == k' <==> runs[k].end == runs[k'].end
  {
    hide TakesAll, LevelAt;
    if k < k' {
      RunsAscend(orig, levels, 0, runs, k, k');
    } else if k' < k {
      RunsAscend(orig, levels, 0, runs, k', k);
    }
  }

  /** A run is linked to one run at most, and from one run at most. */
  lemma LinkIsUnique(
    orig: seq<BidiClass>, base: Level, levels: seq<Level>, runs: seq<LevelRun>, k: nat, n: nat, k': nat, n': nat)
    requires IsText(orig, base, levels, runs)
    requires IsIsolateLink(orig, levels, runs, k, n) && IsIsolateLink(orig, levels, runs, k', n')
    ensures k == k' <==> n == n'
  {
    hide MatchesIsolate, BeginsAt, IsText;
    var j: nat :| MatchesIsolate(orig, runs[k].end - 1, j) && BeginsAt(levels, runs[n], j);
    var j': nat :| MatchesIsolate(orig, runs[k'].end - 1, j') && BeginsAt(levels, runs[n'], j');
    if k == k' {
      OnePdi(orig, runs[k].end - 1, j, j');
      BeginsOnce(orig, base, levels, runs, n, n', j);
    }
    if n == n' {
      SameBeginning(levels, runs[n], j, j');
      OneInitiator(orig, runs[k].end - 1, runs[k'].end - 1, j);
      EndsDiffer(orig, base, levels, runs, k, k');
    }
  }

  lemma InRange(orig: seq<BidiClass>, base: Level, levels: seq<Level>, runs: seq<LevelRun>)
    requires IsText(orig, base, levels, runs)
    ensures RunsInText(orig, levels, runs) && |orig| == |levels|
  {
  }

  lemma FirstIsMate(orig: seq<BidiClass>, base: Level, levels: seq<Level>, runs: seq<LevelRun>, k: nat, m: nat)
    requires IsText(orig, base, levels, runs) && IsMate(AllEnds(orig, levels, runs), k, m)
    ensures k in Mates(orig, levels, runs) && Mates(orig, levels, runs)[k] <= m
  {
    hide MatchesIsolate, IsText, Mates, FirstClass, BeginsAt;
    InRange(orig, base, levels, runs);
    var j, n := MateComesFirst(orig, base, levels, runs, k, m);
    assert IsIsolateLink(orig, levels, runs, k, n);
    assert HasMate(orig, levels, runs, k);
    LinkIsUnique(orig, base, levels, runs, k, n, k, Mates(orig, levels, runs)[k]);
  }

  lemma MatesAre(orig: seq<BidiClass>, base: Level, levels: seq<Level>, runs: seq<LevelRun>)
    requires IsText(orig, base, levels, runs)
    ensures AreMates(AllEnds(orig, levels, runs), Mates(orig, levels, runs))
  {
    var ends, mate := AllEnds(orig, levels, runs), Mates(orig, levels, runs);
    hide IsIsolateLink, TakesAll, LevelAt, AreRuns, FirstClass, Mates;
    forall k | k in mate
      ensures IsMate(ends, k, mate[k])
    {
      LinkIsMate(orig, base, levels, runs, k, mate[k]);
    }
    forall k, l | k in mate && l in mate && mate[k] == mate[l]
      ensures k == l
    {
      LinkIsUnique(orig, base, levels, runs, k, mate[k], l, mate[l]);
    }
    forall k, m | IsMate(ends, k, m)
      ensures k in mate && mate[k] <= m
    {
      FirstIsMate(orig, base, levels, runs, k, m);
    }
  }

  // ---- rule X10 links isolates -------------------------------------------------------------------

  lemma XIsText(orig: seq<BidiClass>, base: Level)
    requires TakesAll(orig, base)
    ensures XTypes(orig, base) == orig
    ensures IsText(orig, base, XLevels(orig, base), LevelRunsOf(orig, XLevels(orig, base), base))
  {
    hide Run, TakesEffect;
    forall i | 0 <= i < |orig|
      ensures XTypes(orig, base)[i] == orig[i] && XLevels(orig, base)[i] == LevelAt(orig, base, i)
    {
      assert XTypes(orig, base)[i] == ClassAt(orig, base, i);
      KeepsClass(orig, base, i);
    }
    BordersKeepRuns(orig, XLevels(orig, base), base);
    hide LevelRunsOf, AreRuns;
  }

  /** Run `n` follows run `k` in sequence `s`. */
  ghost predicate AreLinkedIn(seqs: seq<IsolatingRunSequence>, s: nat, k: nat, n: nat) {
    s < |seqs| && exists a :: 0 < a < |seqs[s].runs| && seqs[s].runs[a - 1] == k && seqs[s].runs[a] == n
  }

  ghost predicate AreLinked(seqs: seq<IsolatingRunSequence>, k: nat, n: nat) {
    exists s: nat :: AreLinkedIn(seqs, s, k, n)
  }

  predicate HasRun(seqs: seq<IsolatingRunSequence>, s: nat, k: nat) {
    s < |seqs| && k in seqs[s].runs
  }

  ghost predicate IsHeld(seqs: seq<IsolatingRunSequence>, k: nat) {
    exists s: nat :: HasRun(seqs, s, k)
  }

  /** The sequences follow the mates, and hold each of the `count` runs. */
  ghost predicate FollowAll(mate: map<nat, nat>, seqs: seq<IsolatingRunSequence>, count: nat) {
    && (forall s :: 0 <= s < |seqs| ==> FollowsMates(mate, seqs[s].runs))
    && (forall k: nat :: k < count ==> IsHeld(seqs, k))
  }

  lemma NextInSequence(mate: map<nat, nat>, members: seq<nat>, k: nat)
    requires FollowsMates(mate, members) && k in mate && k in members
    ensures exists a :: 0 < a < |members| && members[a - 1] == k && members[a] == mate[k]
  {
    var b :| 0 <= b < |members| && members[b] == k;
    assert FollowsMate(mate, members, b + 1);
  }

  lemma LinkedAreMates(mate: map<nat, nat>, seqs: seq<IsolatingRunSequence>, count: nat, k: nat, n: nat)
    requires FollowAll(mate, seqs, count) && (k in mate ==> k < count)
    ensures AreLinked(seqs, k, n) <==> k in mate && mate[k] == n
  {
    if AreLinked(seqs, k, n) {
      var s: nat :| AreLinkedIn(seqs, s, k, n);
      var a :| 0 < a < |seqs[s].runs| && seqs[s].runs[a - 1] == k && seqs[s].runs[a] == n;
      assert FollowsMate(mate, seqs[s].runs, a);
    }
    if k in mate && mate[k] == n {
      assert IsHeld(seqs, k);
      var s: nat :| HasRun(seqs, s, k);
      NextInSequence(mate, seqs[s].runs, k);
      assert AreLinkedIn(seqs, s, k, n);
    }
  }

  lemma RunsOfSequences(
    orig: seq<BidiClass>, levels: seq<Level>, base: Level, runs: seq<LevelRun>, seqs: seq<IsolatingRunSequence>)
    requires |orig| == |levels| && RunsInText(orig, levels, runs)
    requires runs == LevelRunsOf(orig, levels, base) && seqs == SequencesOf(orig, levels, base)
    ensures var lists := SequencesFrom(AllEnds(orig, levels, runs), {}, 0);
      |seqs| == |lists| && forall s :: 0 <= s < |seqs| ==> seqs[s].runs == lists[s]
  {
    ListsInRange(AllEnds(orig, levels, runs), {}, 0);
    hide LevelRunsOf, AllEnds, SequencesFrom, TakenBy, Chain, TotalLen, MaxLevel;
  }

  lemma ListsHold(ends: seq<Ends>, seqs: seq<IsolatingRunSequence>, lists: seq<seq<nat>>)
    requires lists == SequencesFrom(ends, {}, 0)
    requires |seqs| == |lists| && forall s :: 0 <= s < |seqs| ==> seqs[s].runs == lists[s]
    ensures forall k: nat :: k < |ends| ==> IsHeld(seqs, k)
  {
    SequencesPartition(ends, {}, 0);
    hide SequencesFrom;
    forall k: nat | k < |ends|
      ensures IsHeld(seqs, k)
    {
      assert Listed(lists, k);
      var s: nat :| InSequence(lists, s, k);
      assert HasRun(seqs, s, k);
    }
  }

  lemma SequencesLink(
    orig: seq<BidiClass>, base: Level, levels: seq<Level>, runs: seq<LevelRun>, seqs: seq<IsolatingRunSequence>)
    requires IsText(orig, base, levels, runs)
    requires runs == LevelRunsOf(orig, levels, base) && seqs == SequencesOf(orig, levels, base)
    ensures FollowAll(Mates(orig, levels, runs), seqs, |runs|)
  {
    InRange(orig, base, levels, runs);
    hide LevelRunsOf, SequencesOf, SequencesFrom, Mates, IsText, FollowsMates, AreMates, IsHeld, EndsOf;
    var ends := AllEnds(orig, levels, runs);
    RunsOfSequences(orig, levels, base, runs, seqs);
    MatesAre(orig, base, levels, runs);
    SequencesFollow(ends, Mates(orig, levels, runs), {}, 0);
    ListsHold(ends, seqs, SequencesFrom(ends, {}, 0));
  }

  lemma MateIsLink(orig: seq<BidiClass>, base: Level, levels: seq<Level>, runs: seq<LevelRun>, k: nat, n: nat)
    requires IsText(orig, base, levels, runs)
    ensures var mate := Mates(orig, levels, runs);
      && (k in mate ==> k < |runs|)
      && (k in mate && mate[k] == n <==> IsIsolateLink(orig, levels, runs, k, n))
  {
    hide IsText, Mates;
    var mate := Mates(orig, levels, runs);
    if IsIsolateLink(orig, levels, runs, k, n) {
      assert HasMate(orig, levels, runs, k);
      hide IsIsolateLink;
      LinkIsUnique(orig, base, levels, runs, k, n, k, mate[k]);
    }
  }

  /**
    * In such a paragraph, two runs follow one another in an isolating run sequence if and only if the first ends with
    * an isolate initiator and the second begins with the PDI that matches it.
    */
  lemma {:induction false} LinksAreIsolates(orig: seq<BidiClass>, base: Level, k: nat, n: nat)
    requires TakesAll(orig, base)
    ensures AreLinked(XSequences(orig, base), k, n) <==>
      IsIsolateLink(orig, XLevels(orig, base), LevelRunsOf(orig, XLevels(orig, base), base), k, n)
  {
    XIsText(orig, base);
    var levels, seqs := XLevels(orig, base), XSequences(orig, base);
    var runs := LevelRunsOf(orig, levels, base);
    assert seqs == SequencesOf(orig, levels, base);
    hide *;
    SequencesLink(orig, base, levels, runs, seqs);
    MateIsLink(orig, base, levels, runs, k, n);
    LinkedAreMates(Mates(orig, levels, runs), seqs, |runs|, k, n);
  }

  // ---- when every initiator takes effect ---------------------------------------------------------

  lemma PrefixIsLower(s: State, t: State)
    requires t.stack <= s.stack
    ensures Top(t).level <= Top(s).level
  {
    if |t.stack| < |s.stack| {
      LevelsIncrease(s.stack, |t.stack| - 1, |s.stack| - 1);
    }
  }

  /** Nothing has overflowed, and the level is at most 2 above the base for each of the `n` initiators so far. */
  predicate IsShallow(s: State, n: nat) {
    s.overflowIsolate == 0 && s.overflowEmbedding == 0 && Top(s).level <= 1 + 2 * n && |s.stack| <= 1 + n
  }

  lemma ShallowAccepts(s: State, c: BidiClass, fsiRtl: bool, n: nat)
    requires IsShallow(s, n) && n < 62
    ensures Accepts(s, NextLevel(s, c, fsiRtl)) && NextLevel(s, c, fsiRtl).value <= 1 + 2 * (n + 1)
    ensures |s.stack| < MAX_DEPTH
  {
    hide Inv;
  }

  lemma StaysOnStack(s: State, c: BidiClass, fsiRtl: bool)
    requires !c.IsEmbeddingInit() && !c.IsIsoInit() && Step(s, c, fsiRtl).Some?
    ensures Step(s, c, fsiRtl).value.stack <= s.stack
  {
    hide Inv, NextLevel;
  }

  lemma ShallowStep(s: State, c: BidiClass, fsiRtl: bool, n: nat)
    requires IsShallow(s, n) && n < 62 && Step(s, c, fsiRtl).Some?
    ensures Inv(Step(s, c, fsiRtl).value)
    ensures IsShallow(Step(s, c, fsiRtl).value, if c.IsEmbeddingInit() || c.IsIsoInit() then n + 1 else n)
  {
    StepKeeps(s, c, fsiRtl);
    ShallowAccepts(s, c, fsiRtl, n);
    hide Inv, NextLevel;
    if c.IsEmbeddingInit() || c.IsIsoInit() {
      StepPushes(s, c, fsiRtl);
    } else {
      StaysOnStack(s, c, fsiRtl);
      PrefixIsLower(s, Step(s, c, fsiRtl).value);
    }
  }

  lemma StartIsShallow(base: Level)
    requires 0 <= base <= 1
    ensures IsShallow(Init(base), 0)
  {
  }

  lemma {:induction false} RunIsShallow(orig: seq<BidiClass>, base: Level, n: nat)
    requires 0 <= base <= 1 && n <= |orig| && Initiators(orig, n) < 62 && Run(orig, base, n).Some?
    ensures IsShallow(Run(orig, base, n).value, Initiators(orig, n))
  {
    hide Run, Step, IsShallow, Inv;
    if n == 0 {
      RunStart(orig, base);
      StartIsShallow(base);
    } else {
      RunStep(orig, base, n - 1);
      InitiatorsGrow(orig, n - 1, n);
      RunIsShallow(orig, base, n - 1);
      ShallowStep(Run(orig, base, n - 1).value, orig[n - 1], FsiIsRtl(orig, n - 1), Initiators(orig, n - 1));
    }
  }

  lemma OneMore(orig: seq<BidiClass>, h: nat)
    requires h < |orig| && orig[h].IsIsoInit()
    ensures Initiators(orig, h + 1) == Initiators(orig, h) + 1
  {
  }

  lemma EffectAt(orig: seq<BidiClass>, base: Level, h: nat)
    requires 0 <= base <= 1 && Initiators(orig, |orig|) <= 62 && Run(orig, base, |orig|).Some?
    requires h < |orig| && orig[h].IsIsoInit()
    ensures TakesEffect(orig, base, h)
  {
    hide Run, NextLevel, Accepts, Initiators, IsShallow;
    RunsEarlier(orig, base, h, |orig|);
    InitiatorsGrow(orig, h + 1, |orig|);
    OneMore(orig, h);
    RunIsShallow(orig, base, h);
    ShallowAccepts(Run(orig, base, h).value, orig[h], FsiIsRtl(orig, h), Initiators(orig, h));
  }

  /** In a paragraph with at most 62 initiators, none of them overrides, all isolate initiators take effect. */
  lemma {:induction false} FewTakeEffect(orig: seq<BidiClass>, base: Level)
    requires 0 <= base <= 1 && Initiators(orig, |orig|) <= 62
    requires forall h :: 0 <= h < |orig| ==> IsPlain(orig[h])
    ensures TakesAll(orig, base)
  {
    SmallParagraphsNeverDrop(orig, base);
    hide Run, TakesEffect, Initiators, DropsAt, IsPlain;
    forall h | 0 <= h < |orig| && orig[h].IsIsoInit()
      ensures TakesEffect(orig, base, h)
    {
      EffectAt(orig, base, h);
    }
  }
}
