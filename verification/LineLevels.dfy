/**
  * Rule L1 of UAX #9 (section 3.4), the whitespace reset of a line, and the runs of equal level
  * that a resolved line is handed out in.
  */
module LineLevels {
  import opened Wrappers
  import opened BidiTypes

  // ---- rule L1 ---------------------------------------------------------------------------------

  predicate IsSeparator(c: BidiClass) {
    c.SegmentSeparator? || c.ParagraphSeparator?
  }

  predicate IsBlank(c: BidiClass) {
    c.WhiteSpace? || c.IsIsoControl()
  }

  /** Characters that may stand between a reset character and the separator or line end. */
  predicate IsPassable(types: seq<BidiClass>, levels: seq<Level>, i: nat)
    requires i < |types| == |levels|
  {
    !IsSeparator(types[i]) && (IsBlank(types[i]) || levels[i] == NO_LEVEL)
  }

  /** `i` is a blank with only passable characters between it and `e`. */
  ghost predicate BlankUpTo(types: seq<BidiClass>, levels: seq<Level>, i: nat, e: nat) {
    && i < e <= |types| == |levels|
    && IsBlank(types[i])
    && (forall k :: i < k < e ==> IsPassable(types, levels, k))
  }

  /** `i` is a separator, or trails a separator before `end`, or trails the line end if `atEnd`. */
  ghost predicate IsReset(types: seq<BidiClass>, levels: seq<Level>, end: nat, atEnd: bool, i: nat)
    requires i < end <= |types| == |levels|
  {
    || IsSeparator(types[i])
    || (exists e :: i < e < end && IsSeparator(types[e]) && BlankUpTo(types, levels, i, e))
    || (atEnd && BlankUpTo(types, levels, i, end))
  }

  /** Rule L1 on the line `[start, end)` of a paragraph whose original classes are `types`. */
  ghost predicate IsL1(types: seq<BidiClass>, levels: seq<Level>, base: Level, start: nat, end: nat, line: seq<Level>)
    requires start <= end <= |types| == |levels|
  {
    && |line| == end - start
    && forall i :: 0 <= i < |line| ==>
         line[i] == if IsReset(types, levels, end, true, start + i) then base else levels[start + i]
  }

  /** Resets the blanks that end at `end`. */
  method ResetBlanksBefore(types: seq<BidiClass>, base: Level, start: nat, end: nat, levels: seq<Level>)
    returns (r: seq<Level>)
    requires start <= end <= |types| == |levels|
    requires base != NO_LEVEL
    requires forall k :: start <= k < end && IsSeparator(types[k]) ==> levels[k] != NO_LEVEL
    ensures |r| == |levels|
    ensures forall i {:trigger r[i]} :: 0 <= i < |r| ==>
      r[i] == if start <= i && BlankUpTo(types, levels, i, end) then base else levels[i]
  {
    r := levels;
    var i: int := end;
    while start < i
      invariant start <= i <= end && |r| == |levels|
      invariant forall k :: i <= k < end ==> IsPassable(types, levels, k)
      invariant forall k :: 0 <= k < |r| ==>
        r[k] == if i <= k && BlankUpTo(types, levels, k, end) then base else levels[k]
    {
      i := i - 1;
      if IsBlank(types[i]) {
        r := r[i := base];
      } else if r[i] == NO_LEVEL {
        // skip over deleted characters
      } else {
        assert !IsPassable(types, levels, i);
        break;
      }
    }
  }

  /** Blanks and deleted characters are found alike before and after earlier resets. */
  lemma SameBlanks(types: seq<BidiClass>, levels: seq<Level>, now: seq<Level>, base: Level, start: nat, i: nat, e: nat)
    requires base != NO_LEVEL && start <= i < e <= |types| == |levels| == |now|
    requires forall k :: start <= k < e ==>
      now[k] == levels[k] || (now[k] == base && (IsSeparator(types[k]) || IsBlank(types[k])))
    ensures BlankUpTo(types, now, i, e) == BlankUpTo(types, levels, i, e)
  {
    forall k | i < k < e
      ensures IsPassable(types, now, k) == IsPassable(types, levels, k)
    {
    }
  }

  /** The levels of the line `[start, end)` after rule L1. */
  method ResetWhitespaceLevels(types: seq<BidiClass>, levels: seq<Level>, base: Level, start: nat, end: nat)
    returns (line: seq<Level>)
    requires start <= end <= |types| == |levels|
    requires base != NO_LEVEL
    ensures IsL1(types, levels, base, start, end, line)
  {
    var all: seq<Level> := levels;
    for idx := start to end
      invariant |all| == |levels|
      invariant forall i {:trigger all[i]} :: start <= i < idx ==>
        all[i] == if IsReset(types, levels, idx, false, i) then base else levels[i]
      invariant forall i :: idx <= i < end ==> all[i] == levels[i]
    {
      if IsSeparator(types[idx]) {
        all := all[idx := base];
        ghost var before := all;
        all := ResetBlanksBefore(types, base, start, idx, all);
        forall i | start <= i < idx + 1
          ensures all[i] == if IsReset(types, levels, idx + 1, false, i) then base else levels[i]
        {
          if i < idx {
            SameBlanks(types, levels, before, base, start, i, idx);
          }
        }
      } else {
        forall i | start <= i < idx
          ensures IsReset(types, levels, idx, false, i) == IsReset(types, levels, idx + 1, false, i)
        {
        }
        assert !IsReset(types, levels, idx + 1, false, idx);
      }
    }
    ghost var before := all;
    all := ResetBlanksBefore(types, base, start, end, all);
    line := all[start..end];
    forall i | 0 <= i < |line|
      ensures line[i] == if IsReset(types, levels, end, true, start + i) then base else levels[start + i]
    {
      assert line[i] == all[start + i];
      SameBlanks(types, levels, before, base, start, start + i, end);
    }
  }

  /** After rule L1 the same characters are reset as before it. */
  lemma SameReset(
    types: seq<BidiClass>, levels: seq<Level>, now: seq<Level>, base: Level, start: nat, end: nat, i: nat)
    requires base != NO_LEVEL && start <= i < end <= |types| == |levels| == |now|
    requires forall k :: start <= k < end ==>
      now[k] == levels[k] || (now[k] == base && (IsSeparator(types[k]) || IsBlank(types[k])))
    ensures IsReset(types, now, end, true, i) == IsReset(types, levels, end, true, i)
  {
    hide IsSeparator, IsBlank, BlankUpTo;
    forall e | i < e <= end
      ensures BlankUpTo(types, now, i, e) == BlankUpTo(types, levels, i, e)
    {
      SameBlanks(types, levels, now, base, start, i, e);
    }
  }

  lemma ResetIsBlank(types: seq<BidiClass>, levels: seq<Level>, end: nat, atEnd: bool, i: nat)
    requires i < end <= |types| == |levels| && IsReset(types, levels, end, atEnd, i)
    ensures IsSeparator(types[i]) || IsBlank(types[i])
  {
    hide IsSeparator, IsBlank, IsPassable;
  }

  /** The levels of the paragraph when those of one line are replaced. */
  function WithLine(levels: seq<Level>, start: nat, end: nat, line: seq<Level>): (r: seq<Level>)
    requires start <= end <= |levels| && |line| == end - start
    ensures |r| == |levels| && forall i :: start <= i < end ==> r[i] == line[i - start]
  {
    levels[..start] + line + levels[end..]
  }

  lemma ResetLine(
    types: seq<BidiClass>, levels: seq<Level>, base: Level, start: nat, end: nat, once: seq<Level>, i: nat)
    requires start <= i < end <= |types| == |levels| && base != NO_LEVEL
    requires IsL1(types, levels, base, start, end, once)
    ensures IsReset(types, WithLine(levels, start, end, once), end, true, i) == IsReset(types, levels, end, true, i)
  {
    hide IsReset, IsSeparator, IsBlank;
    var now := WithLine(levels, start, end, once);
    hide WithLine;
    forall k | start <= k < end
      ensures now[k] == levels[k] || (now[k] == base && (IsSeparator(types[k]) || IsBlank(types[k])))
    {
      assert now[k] == once[k - start];
      if IsReset(types, levels, end, true, start + (k - start)) {
        ResetIsBlank(types, levels, end, true, k);
      }
    }
    SameReset(types, levels, now, base, start, end, i);
  }

  /** Applying rule L1 to its own result changes nothing more. */
  lemma {:induction false} L1Idempotent(
    types: seq<BidiClass>, levels: seq<Level>, base: Level, start: nat, end: nat, once: seq<Level>, twice: seq<Level>)
    requires start <= end <= |types| == |levels| && base != NO_LEVEL
    requires IsL1(types, levels, base, start, end, once)
    requires IsL1(types, WithLine(levels, start, end, once), base, start, end, twice)
    ensures twice == once
  {
    hide IsReset, WithLine;
    forall j | 0 <= j < end - start
      ensures twice[j] == once[j]
    {
      ResetLine(types, levels, base, start, end, once, start + j);
    }
  }

  // ---- runs ------------------------------------------------------------------------------------

  datatype BidiRun = BidiRun(direction: Direction, level: Level, start: nat, end: nat, removedByX9: seq<nat>) {
    /** The character indices of the run, without the deleted ones. */
    method Indices() returns (r: seq<nat>)
      ensures forall i :: i in r <==> start <= i < end && i !in removedByX9
      ensures forall a, b :: 0 <= a < b < |r| ==> r[a] < r[b]
      ensures removedByX9 == [] && start <= end ==> r == seq(end - start, i requires 0 <= i => start + i)
    {
      r := [];
      var idx := start;
      while idx < end
        invariant start <= idx && (if start <= end then idx <= end else idx == start)
        invariant forall i :: i in r <==> start <= i < idx && i !in removedByX9
        invariant forall a :: 0 <= a < |r| ==> r[a] < idx
        invariant forall a, b :: 0 <= a < b < |r| ==> r[a] < r[b]
        invariant removedByX9 == [] ==> r == seq(idx - start, i requires 0 <= i => start + i)
      {
        if idx !in removedByX9 {
          r := r + [idx];
        }
        idx := idx + 1;
      }
    }
  }

  /** The length of the stretch of equal levels that begins at `start`. */
  function SpanLen(levels: seq<Level>, start: nat): (n: nat)
    requires start < |levels|
    ensures 0 < n <= |levels| - start
    ensures forall i :: start <= i < start + n ==> levels[i] == levels[start]
    ensures start + n < |levels| ==> levels[start + n] != levels[start]
    decreases |levels| - start
  {
    if start + 1 == |levels| || levels[start + 1] != levels[start] then 1
    else 1 + SpanLen(levels, start + 1)
  }

  /** `run` is a maximal stretch of one level of a line that starts at character `first`. */
  ghost predicate IsRun(levels: seq<Level>, first: nat, run: BidiRun) {
    && first <= run.start < run.end <= first + |levels|
    && run.level != NO_LEVEL
    && run.direction == LevelDirection(run.level)
    && (forall i :: run.start - first <= i < run.end - first ==> levels[i] == run.level)
    && (run.start > first ==> levels[run.start - first - 1] != run.level)
    && (run.end < first + |levels| ==> levels[run.end - first] != run.level)
    && run.removedByX9 == []
  }

  ghost predicate InSomeRun(runs: seq<BidiRun>, i: nat) {
    exists k :: 0 <= k < |runs| && runs[k].start <= i < runs[k].end
  }

  /** `runs` are the runs of the line: ascending, disjoint, maximal, covering what rule X9 kept. */
  ghost predicate AreRuns(levels: seq<Level>, first: nat, runs: seq<BidiRun>) {
    && (forall k :: 0 <= k < |runs| ==> IsRun(levels, first, runs[k]))
    && (forall k, m :: 0 <= k < m < |runs| ==> runs[k].end <= runs[m].start)
    && (forall i :: 0 <= i < |levels| ==> (levels[i] != NO_LEVEL <==> InSomeRun(runs, first + i)))
  }

  class RunIter {
    var pos: nat
    const levels: seq<Level>
    const first: nat

    constructor (levels: seq<Level>, first: nat)
      ensures this.levels == levels && this.first == first && pos == 0 && Valid()
    {
      this.levels := levels;
      this.first := first;
      pos := 0;
    }

    ghost predicate Valid()
      reads this
    {
      pos <= |levels| && (0 < pos < |levels| ==> levels[pos - 1] != levels[pos])
    }

    /** The next run; the stretch before it held deleted characters only. */
    method Next() returns (r: Option<BidiRun>)
      requires Valid()
      modifies this`pos
      ensures Valid() && old(pos) <= pos
      ensures r.Some? ==>
        IsRun(levels, first, r.value) && old(pos) + first <= r.value.start && r.value.end == pos + first
      ensures forall i :: old(pos) <= i < (if r.Some? then r.value.start - first else |levels|) ==>
        levels[i] == NO_LEVEL
    {
      while true
        invariant Valid() && old(pos) <= pos
        invariant forall i :: old(pos) <= i < pos ==> levels[i] == NO_LEVEL
        decreases |levels| - pos
      {
        if pos >= |levels| {
          return None;
        }
        var start := pos;
        var len := SpanLen(levels, start);
        pos := pos + len;
        var level := levels[start];
        if level != NO_LEVEL {
          var removed := [];
          for idx := start to start + len
            invariant removed == []
          {
            if levels[idx] == NO_LEVEL {
              removed := removed + [idx + first];
            }
          }
          return Some(BidiRun(LevelDirection(level), level, first + start, first + start + len, removed));
        }
      }
    }
  }

  /** The runs found before position `pos` of the line. */
  ghost predicate Collected(levels: seq<Level>, first: nat, runs: seq<BidiRun>, pos: nat) {
    && pos <= |levels|
    && (forall k :: 0 <= k < |runs| ==> IsRun(levels, first, runs[k]) && runs[k].end <= first + pos)
    && (forall k, m :: 0 <= k < m < |runs| ==> runs[k].end <= runs[m].start)
    && (forall i :: 0 <= i < pos ==> (levels[i] != NO_LEVEL <==> InSomeRun(runs, first + i)))
  }

  lemma CollectEnd(levels: seq<Level>, first: nat, runs: seq<BidiRun>, pos: nat)
    requires Collected(levels, first, runs, pos) && forall i :: pos <= i < |levels| ==> levels[i] == NO_LEVEL
    ensures AreRuns(levels, first, runs)
  {
    hide IsRun;
  }

  lemma LastRunCovers(levels: seq<Level>, first: nat, runs: seq<BidiRun>, run: BidiRun, pos: nat, i: nat)
    requires IsRun(levels, first, run) && pos + first <= run.start && i < run.end - first
    requires i < pos ==> (levels[i] != NO_LEVEL <==> InSomeRun(runs, first + i))
    requires forall p :: pos <= p < run.start - first ==> levels[p] == NO_LEVEL
    requires forall k :: 0 <= k < |runs| ==> runs[k].end <= first + pos
    ensures levels[i] != NO_LEVEL <==> InSomeRun(runs + [run], first + i)
  {
    var after := runs + [run];
    assert forall k :: 0 <= k < |runs| ==> after[k] == runs[k];
    assert after[|runs|] == run;
  }

  lemma CollectNext(levels: seq<Level>, first: nat, runs: seq<BidiRun>, run: BidiRun, pos: nat, pos': nat)
    requires Collected(levels, first, runs, pos)
    requires IsRun(levels, first, run) && pos + first <= run.start && run.end == pos' + first
    requires forall i :: pos <= i < run.start - first ==> levels[i] == NO_LEVEL
    ensures pos < pos' && Collected(levels, first, runs + [run], pos')
  {
    hide InSomeRun;
    forall i | 0 <= i < pos'
      ensures levels[i] != NO_LEVEL <==> InSomeRun(runs + [run], first + i)
    {
      LastRunCovers(levels, first, runs, run, pos, i);
    }
  }

  /** Exhausts the iterator: no run ever holds a deleted character. */
  method CollectRuns(levels: seq<Level>, first: nat) returns (runs: seq<BidiRun>)
    ensures AreRuns(levels, first, runs)
  {
    hide IsRun, InSomeRun;
    var iter := new RunIter(levels, first);
    runs := [];
    while true
      invariant iter.levels == levels && iter.first == first && iter.Valid()
      invariant Collected(levels, first, runs, iter.pos)
      decreases |levels| - iter.pos
    {
      ghost var pos := iter.pos;
      var next := iter.Next();
      if next.None? {
        CollectEnd(levels, first, runs, pos);
        return;
      }
      CollectNext(levels, first, runs, next.value, pos, iter.pos);
      runs := runs + [next.value];
    }
  }
}
