/**
  * Bidi classes, directions and embedding levels, the vocabulary that the rules
  * of the Unicode Bidirectional Algorithm (UAX #9) share.
  */
module BidiTypes {
  import opened Wrappers

  datatype BidiClass =
    | ArabicLetter
    | ArabicNumber
    | BoundaryNeutral
    | CommonSeparator
    | EuropeanNumber
    | EuropeanSeparator
    | EuropeanTerminator
    | FirstStrongIsolate
    | LeftToRight
    | LeftToRightEmbedding
    | LeftToRightIsolate
    | LeftToRightOverride
    | NonspacingMark
    | OtherNeutral
    | ParagraphSeparator
    | PopDirectionalFormat
    | PopDirectionalIsolate
    | RightToLeft
    | RightToLeftEmbedding
    | RightToLeftIsolate
    | RightToLeftOverride
    | SegmentSeparator
    | WhiteSpace
  {
    predicate IsIsoInit() {
      RightToLeftIsolate? || LeftToRightIsolate? || FirstStrongIsolate?
    }

    predicate IsIsoControl() {
      IsIsoInit() || PopDirectionalIsolate?
    }

    predicate IsNeutral() {
      OtherNeutral? || WhiteSpace? || SegmentSeparator? || ParagraphSeparator? || IsIsoControl()
    }

    /** The classes that rule X9 deletes from the text. */
    predicate IsRemoved() {
      || RightToLeftEmbedding? || LeftToRightEmbedding?
      || RightToLeftOverride? || LeftToRightOverride?
      || PopDirectionalFormat? || BoundaryNeutral?
    }

    /** The embedding and override initiators of rules X2 to X5. */
    predicate IsEmbeddingInit() {
      RightToLeftEmbedding? || LeftToRightEmbedding? || RightToLeftOverride? || LeftToRightOverride?
    }
  }

  datatype Direction = Ltr | Rtl {
    function Opposite(): Direction {
      if Ltr? then Rtl else Ltr
    }

    function AsBidiClass(): BidiClass {
      if Rtl? then RightToLeft else LeftToRight
    }
  }

  /** Maximum explicit depth, fixed by UAX #9. */
  const MAX_DEPTH: nat := 125

  /** The level of a character that rule X9 deleted. */
  const NO_LEVEL := -1

  /** The values an 8-bit level takes: NO_LEVEL or a natural number. */
  type Level = l: int | -1 <= l <= 127 witness 0

  /** The source tests `level % 2 == 1` with a remainder that is negative for NO_LEVEL. */
  predicate IsOdd(l: Level) {
    l >= 0 && l % 2 == 1
  }

  function LevelDirection(l: Level): Direction {
    if IsOdd(l) then Rtl else Ltr
  }

  function LevelClass(l: Level): BidiClass {
    LevelDirection(l).AsBidiClass()
  }

  function MaxLevel(a: Level, b: Level): Level {
    if a < b then b else a
  }

  /** The least even level above `l`, unless it would exceed MAX_DEPTH. */
  function LeastGreaterEven(l: Level): (r: Option<Level>)
    requires 0 <= l <= MAX_DEPTH
    ensures r.Some? ==> l < r.value <= MAX_DEPTH && !IsOdd(r.value)
    ensures forall e: Level :: l < e <= MAX_DEPTH && !IsOdd(e) ==> r.Some? && r.value <= e
  {
    var level := if l % 2 == 0 then l + 2 else l + 1;
    if level > MAX_DEPTH then None else Some(level)
  }

  /** The least odd level above `l`, unless it would exceed MAX_DEPTH. */
  function LeastGreaterOdd(l: Level): (r: Option<Level>)
    requires 0 <= l <= MAX_DEPTH
    ensures r.Some? ==> l < r.value <= MAX_DEPTH && IsOdd(r.value)
    ensures forall o: Level :: l < o <= MAX_DEPTH && IsOdd(o) ==> r.Some? && r.value <= o
  {
    var level := if l % 2 == 1 then l + 2 else l + 1;
    if level > MAX_DEPTH then None else Some(level)
  }
}
