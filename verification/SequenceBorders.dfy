/** The borders sos and eos of rule X10 (UAX #9, section 3.3.2), from the levels of the text alone. */
module SequenceBorders {
  import opened BidiTypes
  import opened LevelRuns
  import opened IsolateLinks
  import opened Resolution

  /** The level of the nearest kept character before place `p`, or of the paragraph. */
  function KeptBefore(levels: seq<Level>, base: Level, p: nat): Level
    requires p <= |levels|
  {
    if p == 0 then base
    else if levels[p - 1] != NO_LEVEL then levels[p - 1]
    else KeptBefore(levels, base, p - 1)
  }

  /** The level of the nearest kept character from place `p` on, or of the paragraph. */
  function KeptAfter(levels: seq<Level>, base: Level, p: nat): Level
    requires p <= |levels|
    decreases |levels| - p
  {
    if p == |levels| then base
    else if levels[p] != NO_LEVEL then levels[p]
    else KeptAfter(levels, base, p + 1)
  }

  /** The direction of the higher of two levels. */
  function Higher(a: Level, b: Level): BidiClass {
    if (if a < b then b else a) % 2 == 1 then RightToLeft else LeftToRight
  }

  lemma {:induction false} BeforeSkips(levels: seq<Level>, base: Level, p: nat, q: nat)
    requires p <= q <= |levels| && forall i :: p <= i < q ==> levels[i] == NO_LEVEL
    ensures KeptBefore(levels, base, q) == KeptBefore(levels, base, p)
  {
    if p < q {
      BeforeSkips(levels, base, p, q - 1);
    }
  }

  lemma {:induction false} AfterSkips(levels: seq<Level>, base: Level, p: nat, q: nat)
    requires p <= q <= |levels| && forall i :: p <= i < q ==> levels[i] == NO_LEVEL
    ensures KeptAfter(levels, base, p) == KeptAfter(levels, base, q)
    decreases q - p
  {
    if p < q {
      AfterSkips(levels, base, p + 1, q);
    }
  }

  lemma {:induction false} LastKept(levels: seq<Level>, i: nat, e: nat) returns (q: nat)
    requires i < e <= |levels| && exists p :: i <= p < e && levels[p] != NO_LEVEL
    ensures i <= q < e && levels[q] != NO_LEVEL && forall p :: q < p < e ==> levels[p] == NO_LEVEL
    decreases e - i
  {
    if levels[e - 1] != NO_LEVEL {
      q := e - 1;
    } else {
      q := LastKept(levels, i, e - 1);
    }
  }

  /** The first and the last kept character of a run. */
  lemma RunEnds(types: seq<BidiClass>, levels: seq<Level>, runs: seq<LevelRun>, k: nat) returns (p: nat, q: nat)
    requires AreRuns(types, levels, 0, runs) && k < |runs|
    ensures runs[k].start <= p <= q < runs[k].end <= |levels|
    ensures levels[p] == levels[q] == runs[k].level != NO_LEVEL
    ensures forall i :: runs[k].start <= i < p || q < i < runs[k].end ==> levels[i] == NO_LEVEL
    ensures types[q].IsIsoInit() ==> q == runs[k].end - 1
  {
    assert IsRun(types, levels, runs[k]);
    p := FirstKept(levels, runs[k].start, runs[k].end);
    q := LastKept(levels, runs[k].start, runs[k].end);
  }

  /** What the source takes for the level before a run is that of the nearest kept character. */
  lemma BeforeRun(types: seq<BidiClass>, levels: seq<Level>, base: Level, runs: seq<LevelRun>, k: nat, p: nat)
    requires AreRuns(types, levels, 0, runs) && k < |runs| && runs[k].start <= p < |levels|
    requires forall i :: runs[k].start <= i < p ==> levels[i] == NO_LEVEL
    ensures KeptBefore(levels, base, p) == LevelBefore(base, runs, k)
  {
    BeforeSkips(levels, base, runs[k].start, p);
    if k > 0 {
      assert Follows(runs, k);
      var _, q := RunEnds(types, levels, runs, k - 1);
      BeforeSkips(levels, base, q + 1, runs[k].start);
    }
  }

  lemma AfterRun(types: seq<BidiClass>, levels: seq<Level>, base: Level, runs: seq<LevelRun>, k: nat, q: nat)
    requires AreRuns(types, levels, 0, runs) && k < |runs| && q < runs[k].end <= |levels|
    requires forall i :: q < i < runs[k].end ==> levels[i] == NO_LEVEL
    ensures KeptAfter(levels, base, q + 1) == LevelAfter(base, runs, k)
  {
    AfterSkips(levels, base, q + 1, runs[k].end);
    if k + 1 < |runs| {
      assert Follows(runs, k + 1);
      var p, _ := RunEnds(types, levels, runs, k + 1);
      AfterSkips(levels, base, runs[k].end, p);
    } else {
      AfterSkips(levels, base, runs[k].end, |levels|);
    }
  }

  /** The first and the last kept character of a run, and the borders that follow from the levels around them. */
  ghost predicate IsBordered(types: seq<BidiClass>, levels: seq<Level>, base: Level, run: LevelRun, p: nat, q: nat) {
    && run.start <= p <= q < run.end <= |levels| == |types| && levels[p] == levels[q] == run.level != NO_LEVEL
    && (forall i :: run.start <= i < p || q < i < run.end ==> levels[i] == NO_LEVEL)
    && (types[q].IsIsoInit() ==> q == run.end - 1)
    && run.sor == Higher(run.level, KeptBefore(levels, base, p))
    && run.eor == Higher(run.level, KeptAfter(levels, base, q + 1))
  }

  lemma HigherIs(level: Level, other: Level)
    requires level != NO_LEVEL
    ensures LevelClass(MaxLevel(other, level)) == Higher(level, other)
  {
  }

  lemma RunBorders(types: seq<BidiClass>, levels: seq<Level>, base: Level, k: nat) returns (p: nat, q: nat)
    requires |types| == |levels| && k < |LevelRunsOf(types, levels, base)|
    ensures IsBordered(types, levels, base, LevelRunsOf(types, levels, base)[k], p, q)
  {
    var plain := RunsFrom(types, levels, 0);
    RunsFromAreRuns(types, levels, 0);
    hide RunsFrom, AreRuns, KeptBefore, KeptAfter, LevelBefore, LevelAfter, HasBorders;
    assert LevelRunsOf(types, levels, base) == WithBorders(base, plain);
    p, q := RunEnds(types, levels, plain, k);
    BeforeRun(types, levels, base, plain, k, p);
    AfterRun(types, levels, base, plain, k, q);
    HigherIs(plain[k].level, LevelBefore(base, plain, k));
    HigherIs(plain[k].level, LevelAfter(base, plain, k));
    BorderIs(base, plain, k);
  }

  ghost predicate InitiatorsKept(types: seq<BidiClass>, levels: seq<Level>) {
    |types| == |levels| && forall i :: 0 <= i < |types| && types[i].IsIsoInit() ==> levels[i] != NO_LEVEL
  }

  /** The kept characters of a chain lie between the first of its first run and the last of its last run. */
  lemma ChainBetween(
    types: seq<BidiClass>, levels: seq<Level>, runs: seq<LevelRun>, members: seq<nat>, p: nat, q: nat, i: nat)
    requires AreRuns(types, levels, 0, runs) && RunsInText(types, levels, runs) && members != []
    requires forall a :: 0 <= a < |members| ==> members[a] < |runs|
    requires forall a, b :: 0 <= a < b < |members| ==> members[a] < members[b]
    requires var first, last := runs[members[0]], runs[members[|members| - 1]];
      && first.start <= p < first.end && (forall x :: first.start <= x < p ==> levels[x] == NO_LEVEL)
      && last.start <= q < last.end && (forall x :: q < x < last.end ==> levels[x] == NO_LEVEL)
    ensures p in Chain(runs, members) && q in Chain(runs, members)
    ensures i in Chain(runs, members) ==> i < |levels| && (levels[i] != NO_LEVEL ==> p <= i <= q)
  {
    ChainMembers(runs, members, p);
    ChainMembers(runs, members, q);
    assert members[0] in members && members[|members| - 1] in members;
    if i in Chain(runs, members) {
      var r := RunOf(types, levels, runs, members, i);
      var a :| 0 <= a < |members| && members[a] == r;
      if a > 0 {
        RunsAscend(types, levels, 0, runs, members[0], r);
      }
      if a < |members| - 1 {
        RunsAscend(types, levels, 0, runs, r, members[|members| - 1]);
      }
    }
  }

  lemma MembersAscend(types: seq<BidiClass>, levels: seq<Level>, base: Level, s: nat) returns (members: seq<nat>)
    requires |types| == |levels| && s < |SequencesOf(types, levels, base)|
    ensures var runs := LevelRunsOf(types, levels, base);
      && members != [] && (forall a :: 0 <= a < |members| ==> members[a] < |runs|)
      && (forall a, b :: 0 <= a < b < |members| ==> members[a] < members[b])
      && runs[members[0]].level == runs[members[|members| - 1]].level
      && SequencesOf(types, levels, base)[s] == SequenceOf(types, levels, base, runs, members)
  {
    var runs := LevelRunsOf(types, levels, base);
    var ends := AllEnds(types, levels, runs);
    ListsInRange(ends, {}, 0);
    members := SequencesFrom(ends, {}, 0)[s];
    hide LevelRunsOf, AllEnds, SequencesFrom, TakenBy, SequenceOf;
  }

  lemma AllBetween(
    types: seq<BidiClass>, levels: seq<Level>, runs: seq<LevelRun>, members: seq<nat>, p: nat, q: nat)
    requires AreRuns(types, levels, 0, runs) && RunsInText(types, levels, runs) && members != []
    requires forall a :: 0 <= a < |members| ==> members[a] < |runs|
    requires forall a, b :: 0 <= a < b < |members| ==> members[a] < members[b]
    requires var first, last := runs[members[0]], runs[members[|members| - 1]];
      && first.start <= p < first.end && (forall x :: first.start <= x < p ==> levels[x] == NO_LEVEL)
      && last.start <= q < last.end && (forall x :: q < x < last.end ==> levels[x] == NO_LEVEL)
    ensures p in Chain(runs, members) && q in Chain(runs, members)
    ensures forall i :: i in Chain(runs, members) ==> i < |levels| && (levels[i] != NO_LEVEL ==> p <= i <= q)
  {
    hide AreRuns, Chain;
    ChainBetween(types, levels, runs, members, p, q, q);
    forall i: nat | i in Chain(runs, members)
      ensures i < |levels| && (levels[i] != NO_LEVEL ==> p <= i <= q)
    {
      ChainBetween(types, levels, runs, members, p, q, i);
    }
  }

  /** The last character of a run is an isolate initiator if and only if its last kept one is. */
  lemma EndsWithInit(types: seq<BidiClass>, levels: seq<Level>, base: Level, run: LevelRun, p: nat, q: nat)
    requires InitiatorsKept(types, levels) && IsBordered(types, levels, base, run, p, q)
    ensures types[run.end - 1].IsIsoInit() <==> types[q].IsIsoInit()
  {
    hide KeptBefore, KeptAfter;
  }

  /** The borders of a sequence from its first to its last kept character, at `p` and `q`. */
  ghost predicate HasBordersAt(
    types: seq<BidiClass>, levels: seq<Level>, base: Level, sq: IsolatingRunSequence, p: nat, q: nat)
  {
    && p in sq.indices && q in sq.indices
    && p <= q < |levels| == |types| && levels[p] == levels[q] == sq.level != NO_LEVEL
    && (forall i :: i in sq.indices ==> i < |levels| && (levels[i] != NO_LEVEL ==> p <= i <= q))
    && sq.sos == Higher(sq.level, KeptBefore(levels, base, p))
    && sq.eos == Higher(sq.level, if types[q].IsIsoInit() then base else KeptAfter(levels, base, q + 1))
  }

  lemma BorderedPlaces(types: seq<BidiClass>, levels: seq<Level>, base: Level, run: LevelRun, p: nat, q: nat)
    requires IsBordered(types, levels, base, run, p, q)
    ensures run.start <= p < run.end <= |levels| == |types| && run.start <= q < run.end
    ensures forall i :: run.start <= i < p || q < i < run.end ==> levels[i] == NO_LEVEL
  {
    hide KeptBefore, KeptAfter, Higher;
  }

  lemma SequenceFields(
    types: seq<BidiClass>, levels: seq<Level>, base: Level, runs: seq<LevelRun>, members: seq<nat>)
    requires RunsInText(types, levels, runs)
    requires members != [] && forall a :: 0 <= a < |members| ==> members[a] < |runs|
    ensures var sq := SequenceOf(types, levels, base, runs, members);
      var first, last := runs[members[0]], runs[members[|members| - 1]];
      && sq.indices == Chain(runs, members) && sq.level == first.level && sq.sos == first.sor
      && sq.eos == if types[last.end - 1].IsIsoInit() then LevelClass(MaxLevel(base, first.level)) else last.eor
  {
    hide Chain, TotalLen, LevelClass, MaxLevel;
  }

  lemma Assembled(
    types: seq<BidiClass>, levels: seq<Level>, base: Level, first: LevelRun, last: LevelRun, sq: IsolatingRunSequence,
    p: nat, p': nat, q: nat, q': nat)
    requires IsBordered(types, levels, base, first, p, p') && IsBordered(types, levels, base, last, q', q)
    requires sq.level == first.level == last.level && sq.sos == first.sor
    requires sq.eos == if types[q].IsIsoInit() then LevelClass(MaxLevel(base, first.level)) else last.eor
    requires p in sq.indices && q in sq.indices
    requires forall i :: i in sq.indices ==> i < |levels| && (levels[i] != NO_LEVEL ==> p <= i <= q)
    ensures HasBordersAt(types, levels, base, sq, p, q)
  {
    HigherIs(first.level, base);
    hide KeptBefore, KeptAfter, Higher, LevelClass, MaxLevel;
  }

  lemma SequenceIsBordered(
    types: seq<BidiClass>, levels: seq<Level>, base: Level, runs: seq<LevelRun>, members: seq<nat>,
    p: nat, p': nat, q: nat, q': nat)
    requires InitiatorsKept(types, levels) && AreRuns(types, levels, 0, runs) && RunsInText(types, levels, runs)
    requires members != [] && forall a :: 0 <= a < |members| ==> members[a] < |runs|
    requires forall a, b :: 0 <= a < b < |members| ==> members[a] < members[b]
    requires runs[members[0]].level == runs[members[|members| - 1]].level
    requires IsBordered(types, levels, base, runs[members[0]], p, p')
    requires IsBordered(types, levels, base, runs[members[|members| - 1]], q', q)
    ensures HasBordersAt(types, levels, base, SequenceOf(types, levels, base, runs, members), p, q)
  {
    hide *;
    var first, last := runs[members[0]], runs[members[|members| - 1]];
    BorderedPlaces(types, levels, base, first, p, p');
    BorderedPlaces(types, levels, base, last, q', q);
    AllBetween(types, levels, runs, members, p, q);
    EndsWithInit(types, levels, base, last, q', q);
    SequenceFields(types, levels, base, runs, members);
    Assembled(types, levels, base, first, last, SequenceOf(types, levels, base, runs, members), p, p', q, q');
  }

  lemma KeptLengths(types: seq<BidiClass>, levels: seq<Level>)
    requires InitiatorsKept(types, levels)
    ensures |types| == |levels|
  {
  }

  /**
    * From the levels alone: sos is the direction of the higher of the level of the sequence and that of the nearest
    * kept character before its first one; eos is found likewise behind its last one, or with the paragraph level if
    * that is an isolate initiator, which then no run continues.
    */
  lemma {:induction false} SosAndEos(types: seq<BidiClass>, levels: seq<Level>, base: Level, s: nat)
    returns (p: nat, q: nat)
    requires InitiatorsKept(types, levels) && s < |SequencesOf(types, levels, base)|
    ensures HasBordersAt(types, levels, base, SequencesOf(types, levels, base)[s], p, q)
  {
    hide *;
    KeptLengths(types, levels);
    var runs := LevelRunsOf(types, levels, base);
    BordersKeepRuns(types, levels, base);
    var members := MembersAscend(types, levels, base, s);
    var q', p';
    p, q' := RunBorders(types, levels, base, members[0]);
    p', q := RunBorders(types, levels, base, members[|members| - 1]);
    SequenceIsBordered(types, levels, base, runs, members, p, q', q, p');
  }

  /** The borders of the sequences of a paragraph. */
  lemma {:induction false} ParagraphBorders(orig: seq<BidiClass>, base: Level, s: nat) returns (p: nat, q: nat)
    requires Resolvable(orig, base) && s < |XSequences(orig, base)|
    ensures HasBordersAt(XTypes(orig, base), XLevels(orig, base), base, XSequences(orig, base)[s], p, q)
  {
    XIsReady(orig, base);
    hide XTypes, XLevels, SequencesOf, HasBordersAt, AreChains;
    p, q := SosAndEos(XTypes(orig, base), XLevels(orig, base), base, s);
  }
}
