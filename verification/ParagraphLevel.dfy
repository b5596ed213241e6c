/** Rules P2 and P3 of UAX #9 (section 3.3.1): the paragraph level, and isolate nesting (BD9). */
module ParagraphLevels {
  import opened BidiTypes

  /** Isolate initiators minus PDIs on `[from, to)`. */
  function Nest(types: seq<BidiClass>, from: nat, to: nat): int
    requires from <= to <= |types|
  {
    if from == to then 0
    else
      var n := Nest(types, from, to - 1);
      if types[to - 1].IsIsoInit() then n + 1
      else if types[to - 1].PopDirectionalIsolate? then n - 1
      else n
  }

  lemma {:induction false} NestSplit(types: seq<BidiClass>, i: nat, j: nat, k: nat)
    requires i <= j <= k <= |types|
    ensures Nest(types, i, k) == Nest(types, i, j) + Nest(types, j, k)
  {
    if j < k {
      NestSplit(types, i, j, k - 1);
    }
  }

  /** The isolate that `i` initiates is not closed before `k`. */
  predicate IsOpen(types: seq<BidiClass>, i: nat, k: nat)
    requires i < k <= |types|
  {
    Nest(types, i + 1, k) >= 0
  }

  /** BD9: `j` is the PDI that matches the isolate initiator `i`. */
  ghost predicate MatchesIsolate(types: seq<BidiClass>, i: nat, j: nat) {
    && i < j < |types|
    && types[i].IsIsoInit() && types[j].PopDirectionalIsolate?
    && Nest(types, i + 1, j) == 0
    && (forall k :: i < k < j ==> IsOpen(types, i, k))
  }

  /** Some stretch that ends before `i` opens more isolates than it closes. */
  ghost predicate Enclosed(types: seq<BidiClass>, i: nat)
    requires i <= |types|
  {
    exists h :: 0 <= h < i && Nest(types, h, i) > 0
  }

  predicate IsStrong(c: BidiClass) {
    c.LeftToRight? || c.RightToLeft? || c.ArabicLetter?
  }

  /** The character that rule P2 looks for; for an isolate, a PDI of its own ends the search. */
  ghost predicate IsFirstStrong(types: seq<BidiClass>, respectPdi: bool, i: nat) {
    && i < |types| && IsStrong(types[i]) && !Enclosed(types, i)
    && (forall k :: 0 <= k < i && !Enclosed(types, k) ==>
         !IsStrong(types[k]) && !(respectPdi && types[k].PopDirectionalIsolate?))
  }

  /** The number of isolates open before `i`, ignoring PDIs that close nothing. */
  function OpenIsolates(types: seq<BidiClass>, i: nat): (n: nat)
    requires i <= |types|
  {
    if i == 0 then 0
    else
      var n := OpenIsolates(types, i - 1);
      if types[i - 1].IsIsoInit() then n + 1
      else if types[i - 1].PopDirectionalIsolate? && n > 0 then n - 1
      else n
  }

  lemma {:induction false} OpenIsEnclosed(types: seq<BidiClass>, i: nat)
    requires i <= |types|
    ensures forall h :: 0 <= h <= i ==> Nest(types, h, i) <= OpenIsolates(types, i)
    ensures exists h :: 0 <= h <= i && Nest(types, h, i) == OpenIsolates(types, i)
  {
    if i > 0 {
      OpenIsEnclosed(types, i - 1);
      var h :| 0 <= h <= i - 1 && Nest(types, h, i - 1) == OpenIsolates(types, i - 1);
      assert Nest(types, i, i) == 0;
      assert OpenIsolates(types, i) ==
        Nest(types, if OpenIsolates(types, i) == 0 && OpenIsolates(types, i - 1) == 0 then i else h, i);
    } else {
      assert Nest(types, 0, 0) == 0;
    }
  }

  lemma {:induction false} EnclosedIffOpen(types: seq<BidiClass>, i: nat)
    requires i <= |types|
    ensures Enclosed(types, i) <==> OpenIsolates(types, i) > 0
  {
    OpenIsEnclosed(types, i);
    var h :| 0 <= h <= i && Nest(types, h, i) == OpenIsolates(types, i);
  }

  /** The level that rules P2 and P3 give; `fallback` when no strong character decides. */
  ghost predicate IsParagraphLevel(types: seq<BidiClass>, respectPdi: bool, fallback: Direction, level: Level) {
    if exists i: nat :: IsFirstStrong(types, respectPdi, i)
    then exists i: nat :: IsFirstStrong(types, respectPdi, i) && level == (if types[i].LeftToRight? then 0 else 1)
    else level == if fallback.Ltr? then 0 else 1
  }

  /** The search of rule P2 from `i` on, as a function. */
  function ParagraphLevelFrom(types: seq<BidiClass>, respectPdi: bool, fallback: Direction, i: nat): Level
    requires i <= |types|
    decreases |types| - i
  {
    if i == |types| then (if fallback.Ltr? then 0 else 1)
    else if OpenIsolates(types, i) == 0 && IsStrong(types[i]) then (if types[i].LeftToRight? then 0 else 1)
    else if OpenIsolates(types, i) == 0 && respectPdi && types[i].PopDirectionalIsolate?
      then (if fallback.Ltr? then 0 else 1)
    else ParagraphLevelFrom(types, respectPdi, fallback, i + 1)
  }

  function ParagraphLevelOf(types: seq<BidiClass>, respectPdi: bool, fallback: Direction): Level {
    ParagraphLevelFrom(types, respectPdi, fallback, 0)
  }

  lemma {:induction false} ParagraphLevelIsP2(types: seq<BidiClass>, respectPdi: bool, fallback: Direction, i: nat)
    requires i <= |types|
    requires forall k :: 0 <= k < i && !Enclosed(types, k) ==>
      !IsStrong(types[k]) && !(respectPdi && types[k].PopDirectionalIsolate?)
    ensures IsParagraphLevel(types, respectPdi, fallback, ParagraphLevelFrom(types, respectPdi, fallback, i))
    decreases |types| - i
  {
    if i < |types| {
      EnclosedIffOpen(types, i);
      if OpenIsolates(types, i) == 0 && IsStrong(types[i]) {
        assert IsFirstStrong(types, respectPdi, i);
      } else if OpenIsolates(types, i) == 0 && respectPdi && types[i].PopDirectionalIsolate? {
        assert forall k: nat :: IsFirstStrong(types, respectPdi, k) ==> k <= i;
      } else {
        ParagraphLevelIsP2(types, respectPdi, fallback, i + 1);
      }
    }
  }

  method ParagraphLevel(types: seq<BidiClass>, respectPdi: bool, fallback: Direction) returns (level: Level)
    ensures level == ParagraphLevelOf(types, respectPdi, fallback)
    ensures IsParagraphLevel(types, respectPdi, fallback, level)
  {
    ParagraphLevelIsP2(types, respectPdi, fallback, 0);
    var isolateCount := 0;
    for i := 0 to |types|
      invariant isolateCount == OpenIsolates(types, i)
      invariant ParagraphLevelOf(types, respectPdi, fallback) == ParagraphLevelFrom(types, respectPdi, fallback, i)
    {
      var t := types[i];
      if t.IsIsoInit() {
        isolateCount := isolateCount + 1;
      } else if t.PopDirectionalIsolate? {
        if isolateCount > 0 {
          isolateCount := isolateCount - 1;
        } else if respectPdi {
          break;
        }
      } else if t.LeftToRight? && isolateCount == 0 {
        return 0;
      } else if (t.RightToLeft? || t.ArabicLetter?) && isolateCount == 0 {
        return 1;
      }
    }
    level := if fallback.Ltr? then 0 else 1;
  }
}
