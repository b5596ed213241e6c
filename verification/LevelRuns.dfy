/** Rule X10 of UAX #9 (section 3.3.2): level runs, and the sequences that partition the text. */
module LevelRuns {
  import opened Wrappers
  import opened BidiTypes

  datatype LevelRun = LevelRun(start: nat, end: nat, len: nat, seqId: nat, level: Level, sor: BidiClass, eor: BidiClass)

  datatype IsolatingRunSequence =
    IsolatingRunSequence(runs: seq<nat>, len: nat, level: Level, sos: BidiClass, eos: BidiClass, indices: seq<nat>)

  // ---- level runs ------------------------------------------------------------------------------

  /** The end of the span that begins before `i` with the level `level`, NO_LEVEL while none is known. */
  function SpanEnd(types: seq<BidiClass>, levels: seq<Level>, level: Level, i: nat): (e: nat)
    requires i <= |types| == |levels|
    ensures i <= e <= |types|
    decreases |types| - i
  {
    if i == |types| then i
    else if levels[i] == NO_LEVEL then SpanEnd(types, levels, level, i + 1)
    else if level != NO_LEVEL && levels[i] != level then i
    else if types[i].IsIsoInit() then i + 1
    else SpanEnd(types, levels, levels[i], i + 1)
  }

  /** The first kept level on `[i, e)`, else NO_LEVEL. */
  function FirstLevel(levels: seq<Level>, i: nat, e: nat): (l: Level)
    requires i <= e <= |levels|
    ensures l == NO_LEVEL <==> forall p :: i <= p < e ==> levels[p] == NO_LEVEL
    decreases e - i
  {
    if i == e then NO_LEVEL
    else if levels[i] != NO_LEVEL then levels[i]
    else FirstLevel(levels, i + 1, e)
  }

  /**
    * `[start, end)` is one level run: kept characters of one level, an isolate initiator only at the end, and no longer
    * run would do.
    */
  ghost predicate IsSpan(types: seq<BidiClass>, levels: seq<Level>, start: nat, end: nat, level: Level) {
    && start < end <= |types| == |levels|
    && (forall p :: start <= p < end && levels[p] != NO_LEVEL ==> levels[p] == level)
    && (level != NO_LEVEL ==> exists p :: start <= p < end && levels[p] == level)
    && (forall p :: start <= p < end - 1 && levels[p] != NO_LEVEL ==> !types[p].IsIsoInit())
    && (end < |types| ==>
         || (levels[end] != NO_LEVEL && level != NO_LEVEL && levels[end] != level)
         || (levels[end - 1] != NO_LEVEL && types[end - 1].IsIsoInit()))
  }

  lemma {:induction false} FirstLevelStep(levels: seq<Level>, i: nat, e: nat)
    requires i <= e < |levels|
    ensures FirstLevel(levels, i, e + 1) ==
      if FirstLevel(levels, i, e) != NO_LEVEL then FirstLevel(levels, i, e) else levels[e]
    decreases e - i
  {
    if i < e {
      FirstLevelStep(levels, i + 1, e);
    }
  }

  lemma {:induction false} SpanEndIsSpan(types: seq<BidiClass>, levels: seq<Level>, start: nat, i: nat, level: Level)
    requires start <= i <= |types| == |levels| && start < |types|
    requires level == FirstLevel(levels, start, i)
    requires forall p :: start <= p < i && levels[p] != NO_LEVEL ==> levels[p] == level && !types[p].IsIsoInit()
    ensures var e := SpanEnd(types, levels, level, i);
      IsSpan(types, levels, start, e, FirstLevel(levels, start, e))
    decreases |types| - i
  {
    if i < |types| {
      FirstLevelStep(levels, start, i);
      if levels[i] == NO_LEVEL {
        SpanEndIsSpan(types, levels, start, i + 1, level);
      } else if level != NO_LEVEL && levels[i] != level {
      } else if !types[i].IsIsoInit() {
        SpanEndIsSpan(types, levels, start, i + 1, levels[i]);
      }
    }
  }

  /** The runs of the text from `i` on; a last span of deleted characters makes no run. */
  function RunsFrom(types: seq<BidiClass>, levels: seq<Level>, i: nat): seq<LevelRun>
    requires i <= |types| == |levels|
    decreases |types| - i
  {
    if i == |types| then []
    else
      SpanEndIsSpan(types, levels, i, i, NO_LEVEL);
      var e := SpanEnd(types, levels, NO_LEVEL, i);
      var level := FirstLevel(levels, i, e);
      (if level == NO_LEVEL then [] else [LevelRun(i, e, e - i, 0, level, OtherNeutral, OtherNeutral)])
        + RunsFrom(types, levels, e)
  }

  predicate Follows(runs: seq<LevelRun>, k: nat)
    requires 0 < k < |runs|
  {
    runs[k].start == runs[k - 1].end
  }

  ghost predicate IsRun(types: seq<BidiClass>, levels: seq<Level>, run: LevelRun) {
    IsSpan(types, levels, run.start, run.end, run.level) && run.level != NO_LEVEL && run.len == run.end - run.start
  }

  /** The spans line up: each begins where the one before ends, and deleted characters follow the last. */
  ghost predicate AreRuns(types: seq<BidiClass>, levels: seq<Level>, i: nat, runs: seq<LevelRun>) {
    && |types| == |levels|
    && (forall k :: 0 <= k < |runs| ==> IsRun(types, levels, runs[k]))
    && (runs != [] ==> runs[0].start == i)
    && (forall k :: 0 < k < |runs| ==> Follows(runs, k))
    && (forall p :: (if runs == [] then i else runs[|runs| - 1].end) <= p < |types| ==> levels[p] == NO_LEVEL)
  }

  lemma RunsCons(types: seq<BidiClass>, levels: seq<Level>, i: nat, run: LevelRun, tail: seq<LevelRun>)
    requires IsRun(types, levels, run) && run.start == i && AreRuns(types, levels, run.end, tail)
    ensures AreRuns(types, levels, i, [run] + tail)
  {
    hide IsRun;
    var runs := [run] + tail;
    assert forall k :: 0 <= k < |tail| ==> runs[k + 1] == tail[k];
    forall k | 0 < k < |runs|
      ensures Follows(runs, k)
    {
      assert k > 1 ==> Follows(tail, k - 1);
    }
    assert tail != [] ==> runs[|runs| - 1] == tail[|tail| - 1];
  }

  lemma {:induction false} RunsFromAreRuns(types: seq<BidiClass>, levels: seq<Level>, i: nat)
    requires i <= |types| == |levels|
    ensures AreRuns(types, levels, i, RunsFrom(types, levels, i))
    decreases |types| - i
  {
    if i < |types| {
      SpanEndIsSpan(types, levels, i, i, NO_LEVEL);
      var e := SpanEnd(types, levels, NO_LEVEL, i);
      RunsFromAreRuns(types, levels, e);
      var runs, tail := RunsFrom(types, levels, i), RunsFrom(types, levels, e);
      if FirstLevel(levels, i, e) == NO_LEVEL {
        assert e == |types|;
      } else {
        RunsCons(types, levels, i, runs[0], tail);
      }
      hide IsSpan;
    }
  }

  /** Level runs are disjoint and ascending. */
  lemma {:induction false} RunsAscend(
    types: seq<BidiClass>, levels: seq<Level>, i: nat, runs: seq<LevelRun>, k: nat, m: nat)
    requires AreRuns(types, levels, i, runs) && k < m < |runs|
    ensures runs[k].end <= runs[m].start
  {
    assert Follows(runs, m);
    if k < m - 1 {
      RunsAscend(types, levels, i, runs, k, m - 1);
      assert IsRun(types, levels, runs[m - 1]);
    }
  }

  /** Every kept character lies in a run. */
  lemma {:induction false} RunsCover(
    types: seq<BidiClass>, levels: seq<Level>, i: nat, runs: seq<LevelRun>, p: nat)
    returns (k: nat)
    requires AreRuns(types, levels, i, runs) && i <= p < |types| && levels[p] != NO_LEVEL
    ensures k < |runs| && runs[k].start <= p < runs[k].end
  {
    hide IsSpan;
    k := |runs|;
    while k > 0 && runs[k - 1].start > p
      invariant 0 <= k <= |runs|
      invariant k < |runs| ==> p < runs[k].start
      invariant k == |runs| ==> runs == [] || p < runs[|runs| - 1].end
    {
      k := k - 1;
    }
    assert 0 < k < |runs| ==> Follows(runs, k);
    assert k > 0;
    k := k - 1;
  }

  // ---- the directions at the borders of runs -------------------------------------------------------

  function LevelBefore(base: Level, runs: seq<LevelRun>, k: nat): Level
    requires k < |runs|
  {
    if k == 0 then base else runs[k - 1].level
  }

  function LevelAfter(base: Level, runs: seq<LevelRun>, k: nat): Level
    requires k < |runs|
  {
    if k + 1 < |runs| then runs[k + 1].level else base
  }

  predicate IsDirectional(c: BidiClass) {
    c.LeftToRight? || c.RightToLeft?
  }

  predicate HasBorders(run: LevelRun) {
    IsDirectional(run.sor) && IsDirectional(run.eor)
  }

  /** The runs with `sor` and `eor`: the direction of the higher of the two levels that meet. */
  function WithBorders(base: Level, runs: seq<LevelRun>): (r: seq<LevelRun>)
    ensures |r| == |runs|
    ensures forall k :: 0 <= k < |runs| ==> r[k] == runs[k].(sor := r[k].sor, eor := r[k].eor) && HasBorders(r[k])
  {
    seq(|runs|, k requires 0 <= k < |runs| =>
      runs[k].(sor := LevelClass(MaxLevel(LevelBefore(base, runs, k), runs[k].level)),
               eor := LevelClass(MaxLevel(LevelAfter(base, runs, k), runs[k].level))))
  }

  lemma BorderIs(base: Level, runs: seq<LevelRun>, k: nat)
    requires k < |runs|
    ensures WithBorders(base, runs)[k] ==
      runs[k].(sor := LevelClass(MaxLevel(LevelBefore(base, runs, k), runs[k].level)),
               eor := LevelClass(MaxLevel(LevelAfter(base, runs, k), runs[k].level)))
  {
    hide LevelBefore, LevelAfter, LevelClass, MaxLevel;
  }

  // ---- isolating run sequences ---------------------------------------------------------------------

  /** The class of the first kept character of a run. */
  function FirstClass(types: seq<BidiClass>, levels: seq<Level>, i: nat, e: nat): Option<BidiClass>
    requires i <= e <= |types| == |levels|
    decreases e - i
  {
    if i == e then None
    else if levels[i] != NO_LEVEL then Some(types[i])
    else FirstClass(types, levels, i + 1, e)
  }

  /** What joining needs to know of a run. */
  datatype Ends = Ends(level: Level, startsWithPdi: bool, endsWithInit: bool)

  function EndsOf(types: seq<BidiClass>, levels: seq<Level>, run: LevelRun): Ends
    requires run.start < run.end <= |types| == |levels|
  {
    Ends(
      run.level,
      FirstClass(types, levels, run.start, run.end) == Some(PopDirectionalIsolate),
      types[run.end - 1].IsIsoInit())
  }

  predicate Joins(ends: seq<Ends>, taken: set<nat>, level: Level, k: nat)
    requires k < |ends|
  {
    k !in taken && ends[k].level == level && ends[k].startsWithPdi
  }

  /** The first run from `k` on that may continue a sequence of level `level`; `|ends|` if there is none. */
  function NextJoin(ends: seq<Ends>, taken: set<nat>, level: Level, k: nat): (n: nat)
    requires k <= |ends|
    ensures k <= n <= |ends|
    ensures n < |ends| ==> Joins(ends, taken, level, n)
    ensures forall m :: k <= m < n ==> !Joins(ends, taken, level, m)
    decreases |ends| - k
  {
    if k == |ends| || Joins(ends, taken, level, k) then k else NextJoin(ends, taken, level, k + 1)
  }

  /** The runs that follow run `k` in its sequence. */
  function Continuation(ends: seq<Ends>, taken: set<nat>, k: nat): seq<nat>
    requires k < |ends|
    decreases |ends| - k
  {
    if !ends[k].endsWithInit then []
    else
      var n := NextJoin(ends, taken, ends[k].level, k + 1);
      if n == |ends| then [] else [n] + Continuation(ends, taken, n)
  }

  function SetOf(s: seq<nat>): set<nat> {
    set x | x in s
  }

  /** The sequences, as lists of runs, that begin at run `k` or later. */
  function SequencesFrom(ends: seq<Ends>, taken: set<nat>, k: nat): seq<seq<nat>>
    requires k <= |ends|
    decreases |ends| - k
  {
    if k == |ends| then []
    else if k in taken then SequencesFrom(ends, taken, k + 1)
    else
      var members := [k] + Continuation(ends, taken, k);
      [members] + SequencesFrom(ends, taken + SetOf(members), k + 1)
  }

  ghost predicate IsLink(ends: seq<Ends>, taken: set<nat>, k: nat, n: nat) {
    && k < n < |ends|
    && ends[k].endsWithInit && ends[n].startsWithPdi
    && (forall m :: k < m < n ==> !Joins(ends, taken, ends[k].level, m))
  }

  /**
    * The runs of one sequence: one level; each but the first begins with a PDI and follows a run that
    * ends with an isolate initiator; and it is the first such run that no earlier sequence took.
    */
  ghost predicate IsSequence(ends: seq<Ends>, taken: set<nat>, members: seq<nat>) {
    && members != []
    && (forall a :: 0 <= a < |members| ==> members[a] < |ends| && members[a] !in taken)
    && (forall a :: 0 <= a < |members| ==> ends[members[a]].level == ends[members[0]].level)
    && (forall a, b :: 0 <= a < b < |members| ==> members[a] < members[b])
    && (forall a :: 0 < a < |members| ==> IsLink(ends, taken, members[a - 1], members[a]))
    && (var last := members[|members| - 1];
        ends[last].endsWithInit ==> forall m :: last < m < |ends| ==> !Joins(ends, taken, ends[last].level, m))
  }

  lemma SequenceCons(ends: seq<Ends>, taken: set<nat>, k: nat, tail: seq<nat>)
    requires k < |ends| && k !in taken && IsSequence(ends, taken, tail)
    requires IsLink(ends, taken, k, tail[0]) && ends[tail[0]].level == ends[k].level
    ensures IsSequence(ends, taken, [k] + tail)
  {
    var members := [k] + tail;
    assert forall a :: 0 < a < |members| ==> members[a] == tail[a - 1];
    forall a | 0 < a < |members|
      ensures IsLink(ends, taken, members[a - 1], members[a])
    {
      assert a > 1 ==> IsLink(ends, taken, tail[a - 2], tail[a - 1]);
    }
    hide IsLink, Joins;
  }

  lemma {:induction false} ContinuationIsSequence(ends: seq<Ends>, taken: set<nat>, k: nat)
    requires k < |ends| && k !in taken
    ensures IsSequence(ends, taken, [k] + Continuation(ends, taken, k))
    decreases |ends| - k
  {
    if ends[k].endsWithInit {
      var n := NextJoin(ends, taken, ends[k].level, k + 1);
      if n < |ends| {
        ContinuationIsSequence(ends, taken, n);
        var tail := [n] + Continuation(ends, taken, n);
        assert Continuation(ends, taken, k) == tail;
        assert IsLink(ends, taken, k, n) && ends[n].level == ends[k].level;
        SequenceCons(ends, taken, k, tail);
      }
    }
  }

  /** The runs that `seqs[..n]` take, besides `taken`. */
  function TakenBy(taken: set<nat>, seqs: seq<seq<nat>>): set<nat>
    decreases |seqs|
  {
    if seqs == [] then taken else TakenBy(taken + SetOf(seqs[0]), seqs[1..])
  }

  predicate InSequence(seqs: seq<seq<nat>>, s: nat, r: nat) {
    s < |seqs| && r in seqs[s]
  }

  ghost predicate Listed(seqs: seq<seq<nat>>, r: nat) {
    exists s: nat :: InSequence(seqs, s, r)
  }

  /** Every run from `k` on that is not taken joins exactly one sequence. */
  ghost predicate IsPartition(ends: seq<Ends>, taken: set<nat>, k: nat, seqs: seq<seq<nat>>) {
    && (forall s: nat, r: nat :: InSequence(seqs, s, r) ==> k <= r < |ends| && r !in taken)
    && (forall s: nat, t: nat, r: nat :: InSequence(seqs, s, r) && InSequence(seqs, t, r) ==> s == t)
    && (forall r: nat :: k <= r < |ends| && r !in taken ==> Listed(seqs, r))
  }

  lemma SequenceMembers(ends: seq<Ends>, taken: set<nat>, members: seq<nat>)
    requires IsSequence(ends, taken, members)
    ensures forall r :: r in members ==> members[0] <= r < |ends| && r !in taken
  {
  }

  lemma PartitionCons(ends: seq<Ends>, taken: set<nat>, k: nat, members: seq<nat>, rest: seq<seq<nat>>)
    requires k in members && forall r :: r in members ==> k <= r < |ends| && r !in taken
    requires IsPartition(ends, taken + SetOf(members), k + 1, rest)
    ensures IsPartition(ends, taken, k, [members] + rest)
  {
    var seqs := [members] + rest;
    forall s: nat, r: nat | InSequence(seqs, s, r)
      ensures k <= r < |ends| && r !in taken
    {
      assert s > 0 ==> InSequence(rest, s - 1, r);
    }
    forall s: nat, t: nat, r: nat | InSequence(seqs, s, r) && InSequence(seqs, t, r)
      ensures s == t
    {
      assert s > 0 ==> InSequence(rest, s - 1, r);
      assert t > 0 ==> InSequence(rest, t - 1, r);
    }
    forall r | k <= r < |ends| && r !in taken
      ensures Listed(seqs, r)
    {
      if r in members {
        assert InSequence(seqs, 0, r);
      } else {
        assert Listed(rest, r);
        var s: nat :| InSequence(rest, s, r);
        assert InSequence(seqs, s + 1, r);
      }
    }
  }

  lemma {:induction false} SequencesPartition(ends: seq<Ends>, taken: set<nat>, k: nat)
    requires k <= |ends|
    ensures IsPartition(ends, taken, k, SequencesFrom(ends, taken, k))
    decreases |ends| - k
  {
    if k == |ends| {
    } else if k in taken {
      SequencesPartition(ends, taken, k + 1);
    } else {
      var members := [k] + Continuation(ends, taken, k);
      var rest := SequencesFrom(ends, taken + SetOf(members), k + 1);
      ContinuationIsSequence(ends, taken, k);
      SequencesPartition(ends, taken + SetOf(members), k + 1);
      SequenceMembers(ends, taken, members);
      PartitionCons(ends, taken, k, members, rest);
    }
  }

  lemma TakenByCons(taken: set<nat>, members: seq<nat>, rest: seq<seq<nat>>, s: nat)
    requires 0 < s <= |rest| + 1
    ensures TakenBy(taken, ([members] + rest)[..s]) == TakenBy(taken + SetOf(members), rest[..s - 1])
  {
    assert ([members] + rest)[..s] == [members] + rest[..s - 1];
    assert ([members] + rest[..s - 1])[1..] == rest[..s - 1];
  }

  lemma NothingTaken(taken: set<nat>)
    ensures TakenBy(taken, []) == taken
  {
  }

  /** Each sequence is what the runs left over by the sequences before it give. */
  lemma {:induction false} SequencesAreGreedy(ends: seq<Ends>, taken: set<nat>, k: nat, s: nat)
    requires k <= |ends| && s < |SequencesFrom(ends, taken, k)|
    ensures var seqs := SequencesFrom(ends, taken, k); IsSequence(ends, TakenBy(taken, seqs[..s]), seqs[s])
    decreases |ends| - k
  {
    hide IsSequence, SetOf, Continuation, TakenBy;
    if k == |ends| {
    } else if k in taken {
      SequencesAreGreedy(ends, taken, k + 1, s);
    } else {
      ContinuationIsSequence(ends, taken, k);
      if s == 0 {
        NothingTaken(taken);
      } else {
        var members := [k] + Continuation(ends, taken, k);
        var rest := SequencesFrom(ends, taken + SetOf(members), k + 1);
        SequencesAreGreedy(ends, taken + SetOf(members), k + 1, s - 1);
        assert SequencesFrom(ends, taken, k) == [members] + rest;
        TakenByCons(taken, members, rest, s);
      }
    }
  }

  // ---- text chains ---------------------------------------------------------------------------------

  function Range(start: nat, end: nat): (r: seq<nat>)
    requires start <= end
    ensures |r| == end - start && forall a :: 0 <= a < |r| ==> r[a] == start + a
  {
    seq(end - start, a requires 0 <= a < end - start => start + a)
  }

  /** The characters of the runs `members`, in order. */
  function Chain(runs: seq<LevelRun>, members: seq<nat>): seq<nat>
    requires forall a :: 0 <= a < |members| ==> members[a] < |runs| && runs[members[a]].start <= runs[members[a]].end
  {
    if members == [] then []
    else
      var last := runs[members[|members| - 1]];
      Chain(runs, members[..|members| - 1]) + Range(last.start, last.end)
  }

  lemma {:induction false} ChainMembers(runs: seq<LevelRun>, members: seq<nat>, i: nat)
    requires forall a :: 0 <= a < |members| ==> members[a] < |runs| && runs[members[a]].start <= runs[members[a]].end
    ensures i in Chain(runs, members) <==> exists r :: r in members && runs[r].start <= i < runs[r].end
  {
    if members != [] {
      var init, last := members[..|members| - 1], members[|members| - 1];
      ChainMembers(runs, init, i);
      var range := Range(runs[last].start, runs[last].end);
      assert members == init + [last];
      assert i in range <==> runs[last].start <= i < runs[last].end by {
        if runs[last].start <= i < runs[last].end {
          assert range[i - runs[last].start] == i;
        }
      }
    }
  }

  /** A chain names its characters in ascending order. */
  lemma {:induction false} ChainAscends(
    types: seq<BidiClass>, levels: seq<Level>, runs: seq<LevelRun>, members: seq<nat>)
    requires AreRuns(types, levels, 0, runs)
    requires forall a :: 0 <= a < |members| ==> members[a] < |runs| && runs[members[a]].start <= runs[members[a]].end
    requires forall a, b :: 0 <= a < b < |members| ==> members[a] < members[b]
    ensures forall a, b :: 0 <= a < b < |Chain(runs, members)| ==> Chain(runs, members)[a] < Chain(runs, members)[b]
    ensures members != [] ==> forall a :: 0 <= a < |Chain(runs, members)| ==>
      Chain(runs, members)[a] < runs[members[|members| - 1]].end
  {
    if members != [] {
      var init, last := members[..|members| - 1], members[|members| - 1];
      ChainAscends(types, levels, runs, init);
      if init != [] {
        RunsAscend(types, levels, 0, runs, init[|init| - 1], last);
      }
      hide AreRuns;
    }
  }

  // ---- the result of rule X10 ----------------------------------------------------------------------

  ghost predicate RunsInText(types: seq<BidiClass>, levels: seq<Level>, runs: seq<LevelRun>) {
    && |types| == |levels|
    && forall k :: 0 <= k < |runs| ==> runs[k].start < runs[k].end <= |types|
  }

  function AllEnds(types: seq<BidiClass>, levels: seq<Level>, runs: seq<LevelRun>): (e: seq<Ends>)
    requires RunsInText(types, levels, runs)
    ensures |e| == |runs| && forall k :: 0 <= k < |runs| ==> e[k] == EndsOf(types, levels, runs[k])
  {
    seq(|runs|, k requires 0 <= k < |runs| => EndsOf(types, levels, runs[k]))
  }

  function TotalLen(runs: seq<LevelRun>, members: seq<nat>): nat
    requires forall a :: 0 <= a < |members| ==> members[a] < |runs|
  {
    if members == [] then 0
    else TotalLen(runs, members[..|members| - 1]) + runs[members[|members| - 1]].len
  }

  /**
    * The sequence with runs `members`: its borders come from its first and last run, or from the paragraph if its
    * isolate is never closed.
    */
  function SequenceOf(types: seq<BidiClass>, levels: seq<Level>, base: Level, runs: seq<LevelRun>,
    members: seq<nat>): IsolatingRunSequence
    requires RunsInText(types, levels, runs)
    requires members != [] && forall a :: 0 <= a < |members| ==> members[a] < |runs|
  {
    var first, last := runs[members[0]], runs[members[|members| - 1]];
    IsolatingRunSequence(
      members, TotalLen(runs, members), first.level, first.sor,
      if types[last.end - 1].IsIsoInit() then LevelClass(MaxLevel(base, first.level)) else last.eor,
      Chain(runs, members))
  }

  ghost predicate MembersInRange(runs: seq<LevelRun>, lists: seq<seq<nat>>) {
    forall s :: 0 <= s < |lists| ==> lists[s] != [] && forall a :: 0 <= a < |lists[s]| ==> lists[s][a] < |runs|
  }

  lemma {:induction false} ListsInRange(ends: seq<Ends>, taken: set<nat>, k: nat)
    requires k <= |ends|
    ensures forall s :: 0 <= s < |SequencesFrom(ends, taken, k)| ==>
      IsSequence(ends, TakenBy(taken, SequencesFrom(ends, taken, k)[..s]), SequencesFrom(ends, taken, k)[s])
  {
    forall s | 0 <= s < |SequencesFrom(ends, taken, k)|
      ensures IsSequence(ends, TakenBy(taken, SequencesFrom(ends, taken, k)[..s]), SequencesFrom(ends, taken, k)[s])
    {
      SequencesAreGreedy(ends, taken, k, s);
    }
  }

  /** Rule X10: all runs, with their borders. */
  function LevelRunsOf(types: seq<BidiClass>, levels: seq<Level>, base: Level): (runs: seq<LevelRun>)
    requires |types| == |levels|
    ensures RunsInText(types, levels, runs)
    ensures forall k :: 0 <= k < |runs| ==> HasBorders(runs[k])
  {
    RunsFromAreRuns(types, levels, 0);
    WithBorders(base, RunsFrom(types, levels, 0))
  }

  /** Rule X10: all isolating run sequences. */
  function SequencesOf(types: seq<BidiClass>, levels: seq<Level>, base: Level): (r: seq<IsolatingRunSequence>)
    requires |types| == |levels|
  {
    var runs := LevelRunsOf(types, levels, base);
    var lists := SequencesFrom(AllEnds(types, levels, runs), {}, 0);
    ListsInRange(AllEnds(types, levels, runs), {}, 0);
    seq(|lists|, s requires 0 <= s < |lists| => SequenceOf(types, levels, base, runs, lists[s]))
  }

  ghost predicate IsChain(levels: seq<Level>, sq: IsolatingRunSequence) {
    && sq.level != NO_LEVEL
    && (forall a :: 0 <= a < |sq.indices| ==>
         sq.indices[a] < |levels| && (levels[sq.indices[a]] == NO_LEVEL || levels[sq.indices[a]] == sq.level))
    && (forall a, b :: 0 <= a < b < |sq.indices| ==> sq.indices[a] < sq.indices[b])
    && IsDirectional(sq.sos) && IsDirectional(sq.eos)
  }

  predicate InChain(seqs: seq<IsolatingRunSequence>, s: nat, i: nat) {
    s < |seqs| && i in seqs[s].indices
  }

  /** What the later rules rely on: chains that name each kept character once, all at the level of the sequence. */
  ghost predicate AreChains(levels: seq<Level>, seqs: seq<IsolatingRunSequence>) {
    && (forall s :: 0 <= s < |seqs| ==> IsChain(levels, seqs[s]))
    && (forall s: nat, t: nat, i: nat :: InChain(seqs, s, i) && InChain(seqs, t, i) ==> s == t)
    && (forall i :: 0 <= i < |levels| && levels[i] != NO_LEVEL ==> exists s: nat :: InChain(seqs, s, i))
  }

  lemma WithBordersKeeps(types: seq<BidiClass>, levels: seq<Level>, base: Level, plain: seq<LevelRun>)
    requires AreRuns(types, levels, 0, plain)
    ensures AreRuns(types, levels, 0, WithBorders(base, plain))
  {
    hide IsSpan, WithBorders;
    var runs := WithBorders(base, plain);
    forall k | 0 < k < |runs|
      ensures Follows(runs, k)
    {
      assert Follows(plain, k);
    }
    forall k | 0 <= k < |runs|
      ensures IsRun(types, levels, runs[k])
    {
      assert IsRun(types, levels, plain[k]);
    }
  }

  lemma BordersKeepRuns(types: seq<BidiClass>, levels: seq<Level>, base: Level)
    requires |types| == |levels|
    ensures AreRuns(types, levels, 0, LevelRunsOf(types, levels, base))
  {
    RunsFromAreRuns(types, levels, 0);
    hide RunsFrom;
    WithBordersKeeps(types, levels, base, RunsFrom(types, levels, 0));
  }

  lemma DirectionalClass(level: Level)
    ensures IsDirectional(LevelClass(level))
  {
  }

  lemma MembersAreRuns(
    types: seq<BidiClass>, levels: seq<Level>, runs: seq<LevelRun>, members: seq<nat>, taken: set<nat>)
    requires RunsInText(types, levels, runs) && AreRuns(types, levels, 0, runs)
    requires IsSequence(AllEnds(types, levels, runs), taken, members)
    ensures members != [] && runs[members[0]].level != NO_LEVEL
    ensures forall a :: 0 <= a < |members| ==> members[a] < |runs| && runs[members[a]].start <= runs[members[a]].end
    ensures forall a, b :: 0 <= a < b < |members| ==> members[a] < members[b]
  {
    hide AllEnds, IsSpan, IsLink, Joins;
    assert IsRun(types, levels, runs[members[0]]);
  }

  lemma RunOf(
    types: seq<BidiClass>, levels: seq<Level>, runs: seq<LevelRun>, members: seq<nat>, i: nat)
    returns (r: nat)
    requires RunsInText(types, levels, runs)
    requires forall a :: 0 <= a < |members| ==> members[a] < |runs|
    requires i in Chain(runs, members)
    ensures r in members && r < |runs| && runs[r].start <= i < runs[r].end
  {
    ChainMembers(runs, members, i);
    r :| r in members && runs[r].start <= i < runs[r].end;
  }

  lemma ChainLevel(
    types: seq<BidiClass>, levels: seq<Level>, runs: seq<LevelRun>, members: seq<nat>, taken: set<nat>, i: nat)
    requires RunsInText(types, levels, runs) && AreRuns(types, levels, 0, runs)
    requires IsSequence(AllEnds(types, levels, runs), taken, members)
    requires i in Chain(runs, members)
    ensures i < |levels| && (levels[i] == NO_LEVEL || levels[i] == runs[members[0]].level)
  {
    var r := RunOf(types, levels, runs, members, i);
    hide Chain, AllEnds;
    assert IsRun(types, levels, runs[r]);
    var b :| 0 <= b < |members| && members[b] == r;
    assert AllEnds(types, levels, runs)[members[b]].level == AllEnds(types, levels, runs)[members[0]].level;
  }

  lemma SequenceIsChain(
    types: seq<BidiClass>, levels: seq<Level>, base: Level, runs: seq<LevelRun>, members: seq<nat>, taken: set<nat>)
    requires RunsInText(types, levels, runs) && AreRuns(types, levels, 0, runs)
    requires forall k :: 0 <= k < |runs| ==> HasBorders(runs[k])
    requires IsSequence(AllEnds(types, levels, runs), taken, members)
    ensures IsChain(levels, SequenceOf(types, levels, base, runs, members))
  {
    hide AllEnds, IsSequence, AreRuns, Chain, TotalLen, LevelClass, MaxLevel, IsLink, IsRun;
    MembersAreRuns(types, levels, runs, members, taken);
    ChainAscends(types, levels, runs, members);
    DirectionalClass(MaxLevel(base, runs[members[0]].level));
    forall i | i in Chain(runs, members)
      ensures i < |levels| && (levels[i] == NO_LEVEL || levels[i] == runs[members[0]].level)
    {
      ChainLevel(types, levels, runs, members, taken, i);
    }
  }

  lemma ChainsGather(levels: seq<Level>, seqs: seq<IsolatingRunSequence>)
    requires forall s :: 0 <= s < |seqs| ==> IsChain(levels, seqs[s])
    requires forall s: nat, t: nat, i: nat :: InChain(seqs, s, i) && InChain(seqs, t, i) ==> s == t
    requires forall i :: 0 <= i < |levels| && levels[i] != NO_LEVEL ==> exists s: nat :: InChain(seqs, s, i)
    ensures AreChains(levels, seqs)
  {
  }

  ghost predicate HaveSequences(
    types: seq<BidiClass>, levels: seq<Level>, base: Level, runs: seq<LevelRun>, lists: seq<seq<nat>>,
    seqs: seq<IsolatingRunSequence>)
  {
    && RunsInText(types, levels, runs) && MembersInRange(runs, lists) && |seqs| == |lists|
    && forall s :: 0 <= s < |lists| ==> seqs[s] == SequenceOf(types, levels, base, runs, lists[s])
  }

  lemma SequencesOfHave(types: seq<BidiClass>, levels: seq<Level>, base: Level)
    requires |types| == |levels|
    ensures var runs := LevelRunsOf(types, levels, base);
      && (forall k :: 0 <= k < |runs| ==> HasBorders(runs[k])) && RunsInText(types, levels, runs)
      && HaveSequences(types, levels, base, runs, SequencesFrom(AllEnds(types, levels, runs), {}, 0),
         SequencesOf(types, levels, base))
  {
    var runs := LevelRunsOf(types, levels, base);
    ListsInRange(AllEnds(types, levels, runs), {}, 0);
    hide SequencesFrom, LevelRunsOf, SequenceOf, AllEnds;
  }

  lemma EachIsChain(
    types: seq<BidiClass>, levels: seq<Level>, base: Level, runs: seq<LevelRun>, ends: seq<Ends>, lists: seq<seq<nat>>,
    seqs: seq<IsolatingRunSequence>, s: nat)
    requires HaveSequences(types, levels, base, runs, lists, seqs) && AreRuns(types, levels, 0, runs)
    requires forall k :: 0 <= k < |runs| ==> HasBorders(runs[k])
    requires s < |seqs| && ends == AllEnds(types, levels, runs) && IsSequence(ends, TakenBy({}, lists[..s]), lists[s])
    ensures IsChain(levels, seqs[s])
  {
    hide IsChain, IsSequence, AreRuns, SequenceOf, AllEnds, HasBorders;
    SequenceIsChain(types, levels, base, runs, lists[s], TakenBy({}, lists[..s]));
  }

  lemma SameRun(types: seq<BidiClass>, levels: seq<Level>, runs: seq<LevelRun>, r: nat, r': nat, i: nat)
    requires AreRuns(types, levels, 0, runs)
    requires r < |runs| && r' < |runs| && runs[r].start <= i < runs[r].end && runs[r'].start <= i < runs[r'].end
    ensures r == r'
  {
    if r < r' {
      RunsAscend(types, levels, 0, runs, r, r');
    } else if r' < r {
      RunsAscend(types, levels, 0, runs, r', r);
    }
  }

  lemma ChainsPartition(
    types: seq<BidiClass>, levels: seq<Level>, base: Level, runs: seq<LevelRun>, ends: seq<Ends>, lists: seq<seq<nat>>,
    seqs: seq<IsolatingRunSequence>)
    requires HaveSequences(types, levels, base, runs, lists, seqs) && AreRuns(types, levels, 0, runs)
    requires |ends| == |runs|
    requires IsPartition(ends, {}, 0, lists)
    ensures forall s: nat, t: nat, i: nat :: InChain(seqs, s, i) && InChain(seqs, t, i) ==> s == t
    ensures forall i :: 0 <= i < |levels| && levels[i] != NO_LEVEL ==> exists s: nat :: InChain(seqs, s, i)
  {
    hide Chain, AreRuns;
    forall s: nat, t: nat, i: nat | InChain(seqs, s, i) && InChain(seqs, t, i)
      ensures s == t
    {
      var r := RunOf(types, levels, runs, lists[s], i);
      var r' := RunOf(types, levels, runs, lists[t], i);
      SameRun(types, levels, runs, r, r', i);
      assert InSequence(lists, s, r) && InSequence(lists, t, r);
    }
    forall i | 0 <= i < |levels| && levels[i] != NO_LEVEL
      ensures exists s: nat :: InChain(seqs, s, i)
    {
      var r := RunsCover(types, levels, 0, runs, i);
      assert Listed(lists, r);
      var s: nat :| InSequence(lists, s, r);
      ChainMembers(runs, lists[s], i);
      assert InChain(seqs, s, i);
    }
  }

  /** The sequences partition the text: each kept character is in exactly one chain. */
  lemma {:induction false} SequencesAreChains(types: seq<BidiClass>, levels: seq<Level>, base: Level)
    requires |types| == |levels|
    ensures AreChains(levels, SequencesOf(types, levels, base))
  {
    var runs := LevelRunsOf(types, levels, base);
    var ends := AllEnds(types, levels, runs);
    var lists, seqs := SequencesFrom(ends, {}, 0), SequencesOf(types, levels, base);
    BordersKeepRuns(types, levels, base);
    SequencesOfHave(types, levels, base);
    ListsInRange(ends, {}, 0);
    SequencesPartition(ends, {}, 0);
    hide *;
    forall s | 0 <= s < |seqs|
      ensures IsChain(levels, seqs[s])
    {
      EachIsChain(types, levels, base, runs, ends, lists, seqs, s);
    }
    ChainsPartition(types, levels, base, runs, ends, lists, seqs);
    ChainsGather(levels, seqs);
  }

  lemma {:induction false} LenCounts(runs: seq<LevelRun>, members: seq<nat>)
    requires forall a :: 0 <= a < |members| ==> members[a] < |runs|
    requires forall k :: 0 <= k < |runs| ==> runs[k].start <= runs[k].end && runs[k].len == runs[k].end - runs[k].start
    ensures TotalLen(runs, members) == |Chain(runs, members)|
  {
    if members != [] {
      LenCounts(runs, members[..|members| - 1]);
    }
  }

  lemma RunLengths(types: seq<BidiClass>, levels: seq<Level>, runs: seq<LevelRun>)
    requires AreRuns(types, levels, 0, runs)
    ensures forall k :: 0 <= k < |runs| ==> runs[k].start <= runs[k].end && runs[k].len == runs[k].end - runs[k].start
  {
    hide Follows;
    forall k | 0 <= k < |runs|
      ensures runs[k].start <= runs[k].end && runs[k].len == runs[k].end - runs[k].start
    {
      assert IsRun(types, levels, runs[k]);
    }
  }

  /** The length of a sequence is that of its chain. */
  lemma {:induction false} SequenceCounts(types: seq<BidiClass>, levels: seq<Level>, base: Level, s: nat)
    requires |types| == |levels| && s < |SequencesOf(types, levels, base)|
    ensures SequencesOf(types, levels, base)[s].len == |SequencesOf(types, levels, base)[s].indices|
  {
    var runs := LevelRunsOf(types, levels, base);
    BordersKeepRuns(types, levels, base);
    RunLengths(types, levels, runs);
    ListsInRange(AllEnds(types, levels, runs), {}, 0);
    var lists := SequencesFrom(AllEnds(types, levels, runs), {}, 0);
    hide LevelRunsOf, SequencesFrom, AreRuns, TotalLen, Chain;
    LenCounts(runs, lists[s]);
  }
}
