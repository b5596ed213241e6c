/**
  * Rule X10 as the source runs it: spans, borders, and the marking of runs with sequence numbers.
  *
  * The source first lists the level runs, then walks them once to give each its borders, and then goes through them
  * again: a run without a sequence number starts a new sequence, and a look-ahead marks the runs that continue it.
  * `Marked` relates the numbers to the set of runs that are taken, and `Collected` says what a look-ahead has found up
  * to some run. The result is the definition in `LevelRuns`.
  */
module RunsPass {
  import opened Wrappers
  import opened BidiTypes
  import opened LevelRuns

  method SpanOneRun(types: seq<BidiClass>, levels: seq<Level>, start: nat) returns (spanLevel: Level, len: nat)
    requires start < |types| == |levels|
    ensures len > 0 && start + len == SpanEnd(types, levels, NO_LEVEL, start)
    ensures spanLevel == FirstLevel(levels, start, start + len)
  {
    spanLevel := NO_LEVEL;
    var isolateInitFound := false;
    var spanLen := 0;
    var idx := 0;
    while start + idx < |types|
      invariant start + idx <= |types| && !isolateInitFound
      invariant spanLen == if idx == 0 then 0 else idx - 1
      invariant spanLevel == FirstLevel(levels, start, start + idx)
      invariant SpanEnd(types, levels, NO_LEVEL, start) == SpanEnd(types, levels, spanLevel, start + idx)
    {
      FirstLevelStep(levels, start, start + idx);
      var bc, level := types[start + idx], levels[start + idx];
      if level != NO_LEVEL {
        if spanLevel != NO_LEVEL && level != spanLevel {
          break;
        }
        if bc.IsIsoInit() {
          isolateInitFound := true;
        }
        spanLevel := level;
      }
      spanLen := idx;
      if isolateInitFound {
        break;
      }
      idx := idx + 1;
    }
    len := spanLen + 1;
  }

  /** The first `k` runs have their borders. */
  ghost predicate BorderedUpTo(base: Level, runs: seq<LevelRun>, r: seq<LevelRun>, k: nat) {
    && k <= |r| == |runs|
    && (forall j :: 0 <= j < k ==> r[j] == WithBorders(base, runs)[j])
    && (forall j :: k <= j < |r| ==> r[j] == runs[j])
  }

  lemma BorderNext(base: Level, runs: seq<LevelRun>, r: seq<LevelRun>, k: nat, run: LevelRun)
    requires BorderedUpTo(base, runs, r, k) && k < |runs|
    requires run == runs[k].(sor := LevelClass(MaxLevel(LevelBefore(base, runs, k), runs[k].level)),
                             eor := LevelClass(MaxLevel(LevelAfter(base, runs, k), runs[k].level)))
    ensures BorderedUpTo(base, runs, r[k := run], k + 1)
  {
    hide WithBorders, LevelBefore, LevelAfter, LevelClass, MaxLevel, HasBorders;
    BorderIs(base, runs, k);
  }

  lemma AllBordered(base: Level, runs: seq<LevelRun>, r: seq<LevelRun>)
    requires BorderedUpTo(base, runs, r, |runs|)
    ensures r == WithBorders(base, runs)
  {
    hide LevelBefore, LevelAfter, LevelClass, MaxLevel;
  }

  method CalculateSorEor(base: Level, runs: seq<LevelRun>) returns (r: seq<LevelRun>)
    ensures r == WithBorders(base, runs)
  {
    r := runs;
    var priorRunLevel := base;
    for k := 0 to |runs|
      invariant |r| == |runs| && BorderedUpTo(base, runs, r, k)
      invariant priorRunLevel == if k == 0 then base else runs[k - 1].level
    {
      var nextRunLevel := if k + 1 < |runs| then r[k + 1].level else base;
      var sor := LevelClass(MaxLevel(priorRunLevel, r[k].level));
      var eor := LevelClass(MaxLevel(nextRunLevel, r[k].level));
      priorRunLevel := r[k].level;
      assert r[k] == runs[k];
      BorderNext(base, runs, r, k, r[k].(sor := sor, eor := eor));
      r := r[k := r[k].(sor := sor, eor := eor)];
      hide WithBorders, LevelClass, MaxLevel, BorderedUpTo;
    }
    AllBordered(base, runs, r);
  }

  lemma Shift<T>(all: seq<T>, front: seq<T>, next: seq<T>, rest: seq<T>)
    requires all == front + (next + rest)
    ensures all == (front + next) + rest
  {
  }

  lemma SpanGrows(types: seq<BidiClass>, levels: seq<Level>, i: nat)
    requires i < |types| == |levels|
    ensures i < SpanEnd(types, levels, NO_LEVEL, i)
  {
    SpanEndIsSpan(types, levels, i, i, NO_LEVEL);
    hide SpanEnd;
  }

  lemma RunsFromStep(types: seq<BidiClass>, levels: seq<Level>, i: nat)
    requires i < |types| == |levels|
    ensures var e := SpanEnd(types, levels, NO_LEVEL, i); var level := FirstLevel(levels, i, e);
      && i < e
      && RunsFrom(types, levels, i) ==
           (if level == NO_LEVEL then [] else [LevelRun(i, e, e - i, 0, level, OtherNeutral, OtherNeutral)]) +
             RunsFrom(types, levels, e)
  {
    hide SpanEnd, FirstLevel, IsSpan;
    SpanGrows(types, levels, i);
  }

  lemma LevelRunsAre(types: seq<BidiClass>, levels: seq<Level>, base: Level)
    requires |types| == |levels|
    ensures LevelRunsOf(types, levels, base) == WithBorders(base, RunsFrom(types, levels, 0))
  {
  }

  lemma RunsFromEnd(types: seq<BidiClass>, levels: seq<Level>)
    requires |types| == |levels|
    ensures RunsFrom(types, levels, |types|) == []
  {
  }

  method IdentifyRuns(types: seq<BidiClass>, levels: seq<Level>, base: Level) returns (runs: seq<LevelRun>)
    requires |types| == |levels|
    ensures runs == LevelRunsOf(types, levels, base)
  {
    hide *;
    var idx := 0;
    runs := [];
    while idx < |types|
      invariant idx <= |types|
      invariant RunsFrom(types, levels, 0) == runs + RunsFrom(types, levels, idx)
    {
      var spanLevel, spanLen := SpanOneRun(types, levels, idx);
      RunsFromStep(types, levels, idx);
      if spanLevel != NO_LEVEL {
        var run := LevelRun(idx, idx + spanLen, spanLen, 0, spanLevel, OtherNeutral, OtherNeutral);
        Shift(RunsFrom(types, levels, 0), runs, [run], RunsFrom(types, levels, idx + spanLen));
        runs := runs + [run];
      } else {
        assert [] + RunsFrom(types, levels, idx + spanLen) == RunsFrom(types, levels, idx + spanLen);
      }
      idx := idx + spanLen;
    }
    RunsFromEnd(types, levels);
    assert runs + [] == runs;
    LevelRunsAre(types, levels, base);
    runs := CalculateSorEor(base, runs);
  }

  // ---- sequences ---------------------------------------------------------------------------------

  /** Runs marked with a sequence number are the taken ones; nothing else changes. */
  ghost predicate Marked(plain: seq<LevelRun>, runs: seq<LevelRun>, taken: set<nat>) {
    && |runs| == |plain|
    && forall k :: 0 <= k < |runs| ==>
       runs[k] == plain[k].(seqId := runs[k].seqId) && (runs[k].seqId != 0 <==> k in taken)
  }

  method FirstSignificantBidiClass(
    types: seq<BidiClass>, levels: seq<Level>, run: LevelRun)
    returns (bc: Option<BidiClass>)
    requires run.start < run.end <= |types| == |levels|
    ensures bc == FirstClass(types, levels, run.start, run.end)
  {
    for idx := run.start to run.end
      invariant FirstClass(types, levels, run.start, run.end) == FirstClass(types, levels, idx, run.end)
    {
      if levels[idx] != NO_LEVEL {
        return Some(types[idx]);
      }
    }
    bc := None;
  }

  /** The runs still to come in a sequence that ended, so far, in an isolate initiator. */
  function Rest(ends: seq<Ends>, taken: set<nat>, level: Level, k: nat): seq<nat>
    requires k <= |ends|
  {
    var n := NextJoin(ends, taken, level, k);
    if n == |ends| then [] else [n] + Continuation(ends, taken, n)
  }

  lemma RestStep(ends: seq<Ends>, taken: set<nat>, level: Level, k: nat)
    requires k < |ends|
    ensures Rest(ends, taken, level, k) ==
      if Joins(ends, taken, level, k) then [k] + Continuation(ends, taken, k) else Rest(ends, taken, level, k + 1)
    ensures Continuation(ends, taken, k) == if ends[k].endsWithInit then Rest(ends, taken, ends[k].level, k + 1) else []
  {
  }

  lemma RestEnd(ends: seq<Ends>, taken: set<nat>, level: Level)
    ensures Rest(ends, taken, level, |ends|) == []
  {
  }

  lemma MarkNext(plain: seq<LevelRun>, runs: seq<LevelRun>, taken: set<nat>, members: seq<nat>, k: nat, seqId: nat)
    requires Marked(plain, runs, taken + SetOf(members)) && k < |runs| && seqId > 0
    ensures Marked(plain, runs[k := runs[k].(seqId := seqId)], taken + SetOf(members + [k]))
  {
    assert SetOf(members + [k]) == SetOf(members) + {k};
  }

  lemma LenNext(plain: seq<LevelRun>, members: seq<nat>, k: nat)
    requires k < |plain| && forall a :: 0 <= a < |members| ==> members[a] < |plain|
    ensures TotalLen(plain, members + [k]) == TotalLen(plain, members) + plain[k].len
  {
    assert (members + [k])[..|members|] == members;
  }

  lemma MembersBelow(members: seq<nat>, idx: nat)
    requires forall a :: 0 <= a < |members| ==> members[a] < idx
    ensures idx !in SetOf(members)
  {
  }

  lemma NoMembers(plain: seq<LevelRun>, taken: set<nat>)
    ensures taken + SetOf([]) == taken && TotalLen(plain, []) == 0
  {
  }

  lemma StartMembers(plain: seq<LevelRun>, before: seq<LevelRun>, taken: set<nat>, k: nat, seqId: nat)
    requires Marked(plain, before, taken) && k < |plain| && seqId > 0
    ensures Marked(plain, before[k := before[k].(seqId := seqId)], taken + SetOf([k]))
    ensures TotalLen(plain, [k]) == plain[k].len == before[k].len && k + 1 !in SetOf([k])
  {
    hide SetOf, TotalLen;
    assert [] + [k] == [k];
    NoMembers(plain, taken);
    LenNext(plain, [], k);
    MarkNext(plain, before, taken, [], k, seqId);
    MembersBelow([k], k + 1);
  }

  /** What a sequence has taken from the runs before `idx`: `members`, with `len` characters. */
  ghost predicate Collected(
    plain: seq<LevelRun>, runs: seq<LevelRun>, taken: set<nat>, members: seq<nat>, len: nat, idx: nat)
  {
    && |runs| == |plain| && idx <= |plain|
    && (forall a :: 0 <= a < |members| ==> members[a] < idx)
    && len == TotalLen(plain, members)
    && Marked(plain, runs, taken + SetOf(members))
  }

  lemma MarkedLength(plain: seq<LevelRun>, runs: seq<LevelRun>, taken: set<nat>)
    requires Marked(plain, runs, taken)
    ensures |runs| == |plain| && forall k :: 0 <= k < |runs| ==> runs[k] == plain[k].(seqId := runs[k].seqId)
  {
  }

  lemma CollectStart(plain: seq<LevelRun>, before: seq<LevelRun>, taken: set<nat>, k: nat, seqId: nat)
    requires Marked(plain, before, taken) && k < |plain| && seqId > 0
    ensures Collected(plain, before[k := before[k].(seqId := seqId)], taken, [k], before[k].len, k + 1)
  {
    hide SetOf, TotalLen, Marked;
    StartMembers(plain, before, taken, k, seqId);
    MarkedLength(plain, before, taken);
  }

  /** The run `idx` is as it was found, and it is marked exactly if an earlier sequence took it. */
  lemma CollectSees(
    plain: seq<LevelRun>, runs: seq<LevelRun>, taken: set<nat>, members: seq<nat>, len: nat, idx: nat)
    requires Collected(plain, runs, taken, members, len, idx) && idx < |plain|
    ensures |runs| == |plain| && runs[idx] == plain[idx].(seqId := runs[idx].seqId)
    ensures runs[idx].seqId != 0 <==> idx in taken
  {
    hide SetOf, TotalLen;
    MembersBelow(members, idx);
  }

  lemma CollectNext(
    plain: seq<LevelRun>, runs: seq<LevelRun>, taken: set<nat>, members: seq<nat>, len: nat, idx: nat, seqId: nat)
    requires Collected(plain, runs, taken, members, len, idx) && idx < |plain| && seqId > 0
    ensures |runs| == |plain|
    ensures Collected(
      plain, runs[idx := runs[idx].(seqId := seqId)], taken, members + [idx], len + plain[idx].len, idx + 1)
  {
    hide SetOf, TotalLen, Marked;
    MarkNext(plain, runs, taken, members, idx, seqId);
    LenNext(plain, members, idx);
  }

  lemma CollectSkip(
    plain: seq<LevelRun>, runs: seq<LevelRun>, taken: set<nat>, members: seq<nat>, len: nat, idx: nat)
    requires Collected(plain, runs, taken, members, len, idx) && idx < |plain|
    ensures Collected(plain, runs, taken, members, len, idx + 1)
  {
    hide SetOf, TotalLen, Marked;
  }

  lemma CollectEnd(
    plain: seq<LevelRun>, runs: seq<LevelRun>, taken: set<nat>, members: seq<nat>, len: nat, idx: nat)
    requires Collected(plain, runs, taken, members, len, idx)
    ensures forall a :: 0 <= a < |members| ==> members[a] < |plain|
    ensures len == TotalLen(plain, members) && Marked(plain, runs, taken + SetOf(members))
  {
    hide SetOf, TotalLen, Marked;
  }

  /** What the look-ahead asks of run `n`, in the terms of `Joins`. */
  lemma EndsAre(types: seq<BidiClass>, levels: seq<Level>, plain: seq<LevelRun>, n: nat)
    requires RunsInText(types, levels, plain) && n < |plain|
    ensures var ends := AllEnds(types, levels, plain);
      && |ends| == |plain| && ends[n].level == plain[n].level
      && (ends[n].endsWithInit <==> types[plain[n].end - 1].IsIsoInit())
      && (ends[n].startsWithPdi <==>
            FirstClass(types, levels, plain[n].start, plain[n].end) == Some(PopDirectionalIsolate))
  {
    hide FirstClass;
  }

  /** Looks ahead from run `k` for the runs that continue its sequence, and marks them. */
  method CollectSequence(
    types: seq<BidiClass>, levels: seq<Level>, ghost plain: seq<LevelRun>, before: seq<LevelRun>, k: nat, seqId: nat,
    ghost taken: set<nat>)
    returns (runs: seq<LevelRun>, members: seq<nat>, len: nat)
    requires RunsInText(types, levels, plain) && Marked(plain, before, taken) && k < |plain| && k !in taken && seqId > 0
    ensures members == [k] + Continuation(AllEnds(types, levels, plain), taken, k)
    ensures forall a :: 0 <= a < |members| ==> members[a] < |plain|
    ensures len == TotalLen(plain, members)
    ensures Marked(plain, runs, taken + SetOf(members))
  {
    hide Rest, Continuation, SetOf, TotalLen, FirstClass, Marked, Collected, AllEnds;
    ghost var ends := AllEnds(types, levels, plain);
    ghost var all := [k] + Continuation(ends, taken, k);
    MarkedLength(plain, before, taken);
    CollectStart(plain, before, taken, k, seqId);
    EndsAre(types, levels, plain, k);
    runs := before[k := before[k].(seqId := seqId)];
    members := [k];
    len := before[k].len;
    RestStep(ends, taken, plain[k].level, k);
    if !types[runs[k].end - 1].IsIsoInit() {
      assert [k] + [] == [k];
      CollectEnd(plain, runs, taken, members, len, k + 1);
      return;
    }
    var saveLevel := runs[k].level;
    for idx := k + 1 to |runs|
      invariant |runs| == |plain| && Collected(plain, runs, taken, members, len, idx)
      invariant all == members + Rest(ends, taken, saveLevel, idx)
    {
      RestStep(ends, taken, saveLevel, idx);
      EndsAre(types, levels, plain, idx);
      CollectSees(plain, runs, taken, members, len, idx);
      var first := FirstSignificantBidiClass(types, levels, runs[idx]);
      if runs[idx].seqId == 0 && runs[idx].level == saveLevel && first == Some(PopDirectionalIsolate) {
        CollectNext(plain, runs, taken, members, len, idx, seqId);
        Shift(all, members, [idx], Continuation(ends, taken, idx));
        members := members + [idx];
        len := len + runs[idx].len;
        runs := runs[idx := runs[idx].(seqId := seqId)];
        if !types[runs[idx].end - 1].IsIsoInit() {
          assert members + [] == members;
          CollectEnd(plain, runs, taken, members, len, idx + 1);
          return;
        }
      } else {
        CollectSkip(plain, runs, taken, members, len, idx);
      }
    }
    RestEnd(ends, taken, saveLevel);
    assert members + [] == members;
    CollectEnd(plain, runs, taken, members, len, |plain|);
  }

  /** A sequence before its borders and characters are known. */
  function Draft(plain: seq<LevelRun>, members: seq<nat>): IsolatingRunSequence
    requires members != [] && forall a :: 0 <= a < |members| ==> members[a] < |plain|
  {
    IsolatingRunSequence(members, TotalLen(plain, members), plain[members[0]].level, OtherNeutral, OtherNeutral, [])
  }

  ghost predicate AreDrafts(plain: seq<LevelRun>, drafts: seq<IsolatingRunSequence>, lists: seq<seq<nat>>) {
    && |drafts| == |lists| && MembersInRange(plain, lists)
    && forall s :: 0 <= s < |lists| ==> drafts[s] == Draft(plain, lists[s])
  }

  lemma SequencesStep(ends: seq<Ends>, taken: set<nat>, k: nat)
    requires k < |ends|
    ensures SequencesFrom(ends, taken, k) ==
      if k in taken then SequencesFrom(ends, taken, k + 1)
      else
        [[k] + Continuation(ends, taken, k)] +
        SequencesFrom(ends, taken + SetOf([k] + Continuation(ends, taken, k)), k + 1)
  {
    hide Continuation;
  }

  lemma SequencesEnd(ends: seq<Ends>, taken: set<nat>)
    ensures SequencesFrom(ends, taken, |ends|) == []
  {
  }

  lemma FirstIsMember(members: seq<nat>)
    requires members != []
    ensures members[0] in SetOf(members)
  {
  }

  /** The finished sequences with the runs `lists`. */
  ghost function SequencesFor(types: seq<BidiClass>, levels: seq<Level>, base: Level, plain: seq<LevelRun>,
    lists: seq<seq<nat>>): (r: seq<IsolatingRunSequence>)
    requires RunsInText(types, levels, plain) && MembersInRange(plain, lists)
    ensures |r| == |lists| && forall s :: 0 <= s < |r| ==> r[s] == SequenceOf(types, levels, base, plain, lists[s])
  {
    seq(|lists|, s requires 0 <= s < |lists| => SequenceOf(types, levels, base, plain, lists[s]))
  }

  lemma SequencesForAre(types: seq<BidiClass>, levels: seq<Level>, base: Level)
    requires |types| == |levels|
    ensures var plain := LevelRunsOf(types, levels, base);
      var lists := SequencesFrom(AllEnds(types, levels, plain), {}, 0);
      MembersInRange(plain, lists) &&
        SequencesOf(types, levels, base) == SequencesFor(types, levels, base, plain, lists)
  {
    var plain := LevelRunsOf(types, levels, base);
    ListsInRange(AllEnds(types, levels, plain), {}, 0);
    hide SequencesFrom, LevelRunsOf;
  }

  /** The sequence with its borders, before its characters are known. */
  function Bordered(types: seq<BidiClass>, levels: seq<Level>, base: Level, plain: seq<LevelRun>,
    members: seq<nat>): IsolatingRunSequence
    requires RunsInText(types, levels, plain)
    requires members != [] && forall a :: 0 <= a < |members| ==> members[a] < |plain|
  {
    SequenceOf(types, levels, base, plain, members).(indices := [])
  }

  method CalculateSosEos(
    types: seq<BidiClass>, levels: seq<Level>, base: Level, ghost plain: seq<LevelRun>, runs: seq<LevelRun>,
    drafts: seq<IsolatingRunSequence>, ghost lists: seq<seq<nat>>)
    returns (r: seq<IsolatingRunSequence>)
    requires RunsInText(types, levels, plain) && |runs| == |plain|
    requires forall k :: 0 <= k < |runs| ==> runs[k] == plain[k].(seqId := runs[k].seqId)
    requires AreDrafts(plain, drafts, lists)
    ensures |r| == |lists| && forall s :: 0 <= s < |r| ==> r[s] == Bordered(types, levels, base, plain, lists[s])
  {
    r := drafts;
    for s := 0 to |drafts|
      invariant |r| == |drafts|
      invariant forall t :: 0 <= t < |r| ==>
        r[t] == if t < s then Bordered(types, levels, base, plain, lists[t]) else drafts[t]
    {
      var first := runs[r[s].runs[0]];
      var last := runs[r[s].runs[|r[s].runs| - 1]];
      r := r[s := r[s].(sos := first.sor, eos := last.eor)];
      if types[last.end - 1].IsIsoInit() {
        var higherLevel := MaxLevel(base, r[s].level);
        r := r[s := r[s].(eos := LevelClass(higherLevel))];
      }
    }
  }

  method BuildTextChains(
    types: seq<BidiClass>, levels: seq<Level>, base: Level, ghost plain: seq<LevelRun>, runs: seq<LevelRun>,
    bordered: seq<IsolatingRunSequence>, ghost lists: seq<seq<nat>>)
    returns (r: seq<IsolatingRunSequence>)
    requires RunsInText(types, levels, plain) && |runs| == |plain|
    requires forall k :: 0 <= k < |runs| ==> runs[k] == plain[k].(seqId := runs[k].seqId)
    requires MembersInRange(plain, lists)
    requires |bordered| == |lists| && forall s :: 0 <= s < |lists| ==>
      bordered[s] == Bordered(types, levels, base, plain, lists[s])
    ensures |r| == |lists| && forall s :: 0 <= s < |r| ==> r[s] == SequenceOf(types, levels, base, plain, lists[s])
  {
    r := bordered;
    for s := 0 to |bordered|
      invariant |r| == |bordered|
      invariant forall t :: 0 <= t < |r| ==>
        r[t] == if t < s then SequenceOf(types, levels, base, plain, lists[t]) else bordered[t]
    {
      var indices := [];
      var members := r[s].runs;
      assert members[..0] == [];
      for a := 0 to |members|
        invariant indices == Chain(plain, members[..a])
      {
        var run := runs[members[a]];
        indices := indices + Range(run.start, run.end);
        assert members[..a + 1][..a] == members[..a];
      }
      assert members[..|members|] == members;
      r := r[s := r[s].(indices := indices)];
    }
  }

  method IdentifyIsolatingRunSequences(types: seq<BidiClass>, levels: seq<Level>, base: Level, plain: seq<LevelRun>)
    returns (runs: seq<LevelRun>, isoRuns: seq<IsolatingRunSequence>)
    requires |types| == |levels| && plain == LevelRunsOf(types, levels, base)
    requires forall k :: 0 <= k < |plain| ==> plain[k].seqId == 0
    ensures isoRuns == SequencesOf(types, levels, base)
    ensures |runs| == |plain| && forall k :: 0 <= k < |runs| ==>
      runs[k] == plain[k].(seqId := runs[k].seqId) && runs[k].seqId > 0
  {
    hide SequencesFrom, SequencesOf, LevelRunsOf, SetOf, Continuation, AllEnds, TotalLen, SequencesFor, SequenceOf;
    SequencesForAre(types, levels, base);
    ghost var ends := AllEnds(types, levels, plain);
    ghost var taken: set<nat> := {};
    ghost var lists: seq<seq<nat>> := [];
    ghost var all := SequencesFrom(ends, {}, 0);
    var seqId := 0;
    isoRuns := [];
    runs := plain;
    assert [] + all == all;
    for runIdx := 0 to |plain|
      invariant Marked(plain, runs, taken)
      invariant forall k: nat :: k < runIdx ==> k in taken
      invariant AreDrafts(plain, isoRuns, lists)
      invariant all == lists + SequencesFrom(ends, taken, runIdx)
    {
      SequencesStep(ends, taken, runIdx);
      if runs[runIdx].seqId != 0 {
        continue;
      }
      seqId := seqId + 1;
      var members, len;
      runs, members, len := CollectSequence(types, levels, plain, runs, runIdx, seqId, taken);
      isoRuns := isoRuns + [IsolatingRunSequence(members, len, runs[runIdx].level, OtherNeutral, OtherNeutral, [])];
      Shift(all, lists, [members], SequencesFrom(ends, taken + SetOf(members), runIdx + 1));
      lists := lists + [members];
      taken := taken + SetOf(members);
      FirstIsMember(members);
    }
    SequencesEnd(ends, taken);
    assert lists + [] == lists;
    isoRuns := CalculateSosEos(types, levels, base, plain, runs, isoRuns, lists);
    isoRuns := BuildTextChains(types, levels, base, plain, runs, isoRuns, lists);
  }
}
