/** The encodings that the unit tests of the repository spell out, byte by byte. */
module KnownVectors {
  import opened Bytes
  import opened BitStrings
  import opened Base91
  import Frame
  import Leb128

  /** The frame of the data `hello`, with kind 0x81 and serial 0x42: each number is in LEB128, its low group first. */
  lemma {:induction false} KnownFrame()
    ensures Frame.Fits(0x81, 0x42, [104, 101, 108, 108, 111])
    ensures Frame.Encode(0x81, 0x42, [104, 101, 108, 108, 111], false) == [8, 0x42, 0x81, 1, 104, 101, 108, 108, 111]
  {
    assert Leb128.Write(8) == [8] && Leb128.Write(0x42) == [0x42];
    assert Leb128.Write(0x81) == [0x81] + Leb128.Write(1) == [0x81, 1];
  }

  /** The encoding of `bytes` so far, with its pending bits as a number. */
  ghost predicate Pends(bytes: seq<byte>, v: nat, n: nat, out: seq<byte>) {
    var e := EncodeBytes(bytes);
    Val(e.pending) == v && |e.pending| == n && e.out == out
  }

  lemma ByteJoins(bytes: seq<byte>, b: byte, v: nat, n: nat, out: seq<byte>)
    requires Pends(bytes, v, n, out) && n <= 5
    ensures Pends(bytes + [b], v + Shift(b, n), n + 8, out)
  {
    hide Val, Bits, Shift, Pow2, EncodeBytes;
    EncodeAppend(bytes, b);
    Pow2Values();
    Accumulate(EncodeBytes(bytes).pending, b, 8);
  }

  lemma CodeIsWritten(bytes: seq<byte>, b: byte, v: nat, n: nat, out: seq<byte>)
    requires Pends(bytes, v, n, out) && 5 < n && (v + Shift(b, n)) % 8192 > 88
    ensures var w := v + Shift(b, n); var code := w % 8192;
      code < 91 * 91 && Pends(bytes + [b], w / 8192, n - 5, out + [Encoded(code % 91), Encoded(code / 91)])
  {
    hide Val, Bits, Shift, Pow2, Encoded, EncodeBytes;
    EncodeAppend(bytes, b);
    Pow2Values();
    var p := EncodeBytes(bytes).pending;
    Accumulate(p, b, 8);
    Mask13(p + Bits(b, 8));
  }

  lemma HelloShifts()
    ensures Shift(104, 0) == 104 && Shift(101, 8) == 25856 && Shift(108, 3) == 864 && Shift(108, 11) == 221184
    ensures Shift(111, 6) == 7104 && Shift(10, 1) == 20
  {
    ShiftValues(101);
    ShiftValues(108);
    assert Shift(108, 11) == 8 * Shift(108, 8);
  }

  lemma TailIsWritten(bytes: seq<byte>, v: nat, n: nat, out: seq<byte>)
    requires Pends(bytes, v, n, out) && 7 < n
    ensures v < 91 * 91 && Encode(bytes) == out + Pair(v)
  {
    PendingFits(EncodeBytes(bytes).pending);
    hide EncodeBytes, Pair, Val;
  }

  lemma FirstCode()
    ensures Encoded(1384 % 91) == 84 && Encoded(1384 / 91) == 80
  {
  }

  lemma SecondCode()
    ensures Encoded(867 % 91) == 119 && Encoded(867 / 91) == 74
  {
    assert 867 % 91 == 48 && 867 / 91 == 9;
    assert ENCTAB[3] == "nopqrstuvwxyz" && ENCTAB[0] == "ABCDEFGHIJKLM";
  }

  lemma ThirdCode()
    ensures Encoded(7131 % 91) == 104 && Encoded(7131 / 91) == 62
  {
  }

  lemma LastCode()
    ensures Pair(20) == [85, 65]
  {
  }

  lemma NothingPends()
    ensures Pends([], 0, 0, [])
  {
  }

  /** The text `hello` with a line feed is encoded as `TPwJh>UA`. */
  lemma KnownText()
    ensures Encode([104, 101, 108, 108, 111, 10]) == [84, 80, 119, 74, 104, 62, 85, 65]
  {
    hide Shift, Encoded, EncodeBytes, Pair, Encode;
    FirstCode();
    SecondCode();
    ThirdCode();
    LastCode();
    NothingPends();
    hide Pends;
    HelloShifts();
    ByteJoins([], 104, 0, 0, []);
    CodeIsWritten([] + [104], 101, 104, 8, []);
    ByteJoins([] + [104] + [101], 108, 3, 3, [] + [84, 80]);
    CodeIsWritten([] + [104] + [101] + [108], 108, 867, 11, [] + [84, 80]);
    CodeIsWritten([] + [104] + [101] + [108] + [108], 111, 27, 6, [] + [84, 80] + [119, 74]);
    ByteJoins([] + [104] + [101] + [108] + [108] + [111], 10, 0, 1, [] + [84, 80] + [119, 74] + [104, 62]);
    TailIsWritten([] + [104] + [101] + [108] + [108] + [111] + [10], 20, 9, [] + [84, 80] + [119, 74] + [104, 62]);
    assert [] + [104] + [101] + [108] + [108] + [111] + [10] == [104, 101, 108, 108, 111, 10];
  }
}
