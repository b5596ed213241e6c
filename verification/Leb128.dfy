/** Unsigned LEB128 integers, section 7.6 of DWARF 4: groups of seven bits, low group first. */
module Leb128 {
  import opened Bytes

  function Write(v: nat): (s: seq<byte>)
    ensures s != []
  {
    if v < 128 then [v] else [128 + v % 128] + Write(v / 128)
  }

  /** What a read finds: a value and the bytes after it, the end of the input, or more than 64 bits. */
  datatype Reading = Found(value: nat, rest: seq<byte>) | EndOfInput | Overflow

  /** Skips the groups of a number that is too large. */
  function Drain(s: seq<byte>): (r: Reading)
    ensures !r.Found?
  {
    if s == [] then EndOfInput else if s[0] < 128 then Overflow else Drain(s[1..])
  }

  /** How many values the groups from `g` on can hold. */
  function Room(g: nat): (n: nat)
    requires g <= 9
    ensures n >= 2 && (g < 9 ==> n >= 256)
    decreases 9 - g
  {
    if g == 9 then 2 else 128 * Room(g + 1)
  }

  /** Reads from group `g` on; the tenth group holds the last of the 64 bits. */
  function Read(s: seq<byte>, g: nat): (r: Reading)
    requires g <= 9
    ensures r.Found? ==> |r.rest| < |s| && r.rest == s[|s| - |r.rest|..]
    ensures r.Found? ==> r.value < Room(g)
    decreases |s|
  {
    if s == [] then EndOfInput
    else if g == 9 && s[0] > 1 then Drain(s)
    else if s[0] < 128 then Found(s[0], s[1..])
    else
      match Read(s[1..], g + 1)
      case Found(v, rest) => Found(s[0] - 128 + 128 * v, rest)
      case other => other
  }

  lemma {:induction false} ReadsBack(v: nat, g: nat, rest: seq<byte>)
    requires g <= 9 && v < Room(g)
    ensures Read(Write(v) + rest, g) == Found(v, rest)
    decreases v
  {
    var s := Write(v) + rest;
    if v < 128 {
      assert s[1..] == rest;
    } else {
      ReadsBack(v / 128, g + 1, rest);
      assert s[1..] == Write(v / 128) + rest;
    }
  }

  /** Reading undoes writing, whatever bytes follow. */
  lemma {:induction false} RoundTrip(v: u64, rest: seq<byte>)
    ensures Read(Write(v) + rest, 0) == Found(v, rest)
  {
    ReadsBack(v, 0, rest);
  }

  lemma {:induction false} DrainsNumber(v: nat, rest: seq<byte>)
    ensures Drain(Write(v) + rest) == Overflow
    decreases v
  {
    if v >= 128 {
      DrainsNumber(v / 128, rest);
      assert (Write(v) + rest)[1..] == Write(v / 128) + rest;
    }
  }

  lemma {:induction false} TooMuchOverflows(v: nat, g: nat, rest: seq<byte>)
    requires g <= 9 && v >= Room(g)
    ensures Read(Write(v) + rest, g) == Overflow
    decreases v
  {
    var s := Write(v) + rest;
    if g == 9 {
      DrainsNumber(v, rest);
    } else {
      TooMuchOverflows(v / 128, g + 1, rest);
      assert s[1..] == Write(v / 128) + rest;
    }
  }

  /** A number of more than 64 bits is an overflow, found as soon as its last byte is there. */
  lemma {:induction false} OverflowsExactly(v: nat, rest: seq<byte>)
    ensures Read(Write(v) + rest, 0) == Overflow <==> v >= TWO_TO_THE_64
  {
    assert Room(0) == 128 * 128 * Room(2) && Room(2) == 128 * 128 * 128 * 128 * Room(6) &&
      Room(6) == 128 * 128 * Room(8);
    if v >= Room(0) {
      TooMuchOverflows(v, 0, rest);
    } else {
      ReadsBack(v, 0, rest);
    }
  }

  /** A number cut short reads as the end of the input. */
  lemma {:induction false} PrefixIsShort(v: nat, g: nat, n: nat)
    requires g <= 9 && v < Room(g) && n < |Write(v)|
    ensures Read(Write(v)[..n], g) == EndOfInput
    decreases v
  {
    if n > 0 {
      PrefixIsShort(v / 128, g + 1, n - 1);
      assert Write(v)[..n][1..] == Write(v / 128)[..n - 1];
    }
  }

  lemma {:induction false} DrainStays(s: seq<byte>, more: seq<byte>)
    requires Drain(s) != EndOfInput
    ensures Drain(s + more) == Drain(s)
  {
    if s[0] >= 128 {
      DrainStays(s[1..], more);
      assert (s + more)[1..] == s[1..] + more;
    }
  }

  /** What has been read does not change when more bytes arrive. */
  lemma {:induction false} ReadStays(s: seq<byte>, g: nat, more: seq<byte>)
    requires g <= 9 && Read(s, g) != EndOfInput
    ensures var r := Read(s, g); Read(s + more, g) == if r.Found? then Found(r.value, r.rest + more) else r
    decreases |s|
  {
    assert (s + more)[1..] == s[1..] + more;
    if g == 9 && s[0] > 1 {
      DrainStays(s, more);
    } else if s[0] >= 128 {
      ReadStays(s[1..], g + 1, more);
    }
  }

  /** The number of bytes that the writer writes. */
  function EncodedLength(v: u64): nat {
    |Write(v)|
  }

  lemma {:induction false} LengthAtMost(v: nat, g: nat)
    requires g <= 9 && v < Room(g)
    ensures |Write(v)| <= 10 - g
    decreases v
  {
    if v >= 128 {
      LengthAtMost(v / 128, g + 1);
    }
  }
}
