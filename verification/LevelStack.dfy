/** The bounded stack of directional statuses of rules X1 to X8. */
module LevelStacks {
  import opened BidiTypes

  datatype Override = Neutral | LTR | RTL

  datatype Entry = Entry(level: Level, override: Override, isolate: bool)

  /** What `push` does to the entries: nothing at all once MAX_DEPTH of them are stacked. */
  function Pushed(entries: seq<Entry>, e: Entry): seq<Entry> {
    if |entries| >= MAX_DEPTH then entries else entries + [e]
  }

  function Overridden(c: BidiClass, o: Override): BidiClass {
    match o
    case LTR => LeftToRight
    case RTL => RightToLeft
    case Neutral => c
  }

  class LevelStack {
    const embeddingLevels: array<Level>
    const overrideStatuses: array<Override>
    const isolateStatuses: array<bool>
    var depth: nat

    ghost predicate Valid()
      reads this
    {
      && depth <= MAX_DEPTH
      && embeddingLevels.Length == overrideStatuses.Length == isolateStatuses.Length == MAX_DEPTH
    }

    ghost function Entries(): (s: seq<Entry>)
      requires Valid()
      reads this, embeddingLevels, overrideStatuses, isolateStatuses
      ensures |s| == depth
    {
      seq(depth, i requires 0 <= i < depth && Valid()
                   reads this, embeddingLevels, overrideStatuses, isolateStatuses =>
        Entry(embeddingLevels[i], overrideStatuses[i], isolateStatuses[i]))
    }

    constructor ()
      ensures Valid() && Entries() == []
      ensures fresh(embeddingLevels) && fresh(overrideStatuses) && fresh(isolateStatuses)
    {
      embeddingLevels := new Level[MAX_DEPTH](_ => 0);
      overrideStatuses := new Override[MAX_DEPTH](_ => Neutral);
      isolateStatuses := new bool[MAX_DEPTH](_ => false);
      depth := 0;
    }

    method Push(level: Level, override: Override, isolate: bool)
      requires Valid()
      modifies this, embeddingLevels, overrideStatuses, isolateStatuses
      ensures Valid() && Entries() == Pushed(old(Entries()), Entry(level, override, isolate))
    {
      if depth >= MAX_DEPTH {
        return;
      }
      embeddingLevels[depth] := level;
      overrideStatuses[depth] := override;
      isolateStatuses[depth] := isolate;
      depth := depth + 1;
    }

    method Pop()
      requires Valid()
      modifies this`depth
      ensures Valid()
      ensures Entries() == if old(depth) == 0 then [] else old(Entries())[..old(depth) - 1]
    {
      if depth > 0 {
        depth := depth - 1;
      }
    }

    function EmbeddingLevel(): (l: Level)
      requires Valid() && depth > 0
      reads this, embeddingLevels, overrideStatuses, isolateStatuses
      ensures l == Entries()[depth - 1].level
    {
      embeddingLevels[depth - 1]
    }

    function OverrideStatus(): (o: Override)
      requires Valid() && depth > 0
      reads this, embeddingLevels, overrideStatuses, isolateStatuses
      ensures o == Entries()[depth - 1].override
    {
      overrideStatuses[depth - 1]
    }

    function IsolateStatus(): (b: bool)
      requires Valid() && depth > 0
      reads this, embeddingLevels, overrideStatuses, isolateStatuses
      ensures b == Entries()[depth - 1].isolate
    {
      isolateStatuses[depth - 1]
    }
  }
}
