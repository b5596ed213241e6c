/**
  * The basE91 encoder and decoder: streaming bit packers that take 13 or 14 bits at a time.
  *
  * The specification works on bit strings: `EncodeByte` and `DecodeByte` say what one byte does to the bits that are
  * pending and to the output. The classes keep those bits as a number and a count, and their loops are proved to do
  * the same. The round trip then says that the decoder always has, in its output and its pending bits, exactly the
  * bits that the encoder has taken, whichever of the two code lengths was used.
  */
module Base91 {
  import opened Wrappers
  import opened Bytes
  import opened BitStrings

  /** The alphabet, in rows of 13. */
  const ENCTAB: seq<string> := [
    "ABCDEFGHIJKLM",
    "NOPQRSTUVWXYZ",
    "abcdefghijklm",
    "nopqrstuvwxyz",
    "0123456789!#$",
    "%&()*+,./:;<=",
    ">?@[]^_`{|}~\""]

  /** Marks the bytes outside the alphabet. */
  const INV := 91

  /** The place of each byte in the alphabet, in rows of 16. */
  const DECTAB: seq<seq<int>> := [
    [INV, INV, INV, INV, INV, INV, INV, INV, INV, INV, INV, INV, INV, INV, INV, INV],
    [INV, INV, INV, INV, INV, INV, INV, INV, INV, INV, INV, INV, INV, INV, INV, INV],
    [INV, 62, 90, 63, 64, 65, 66, INV, 67, 68, 69, 70, 71, INV, 72, 73],
    [52, 53, 54, 55, 56, 57, 58, 59, 60, 61, 74, 75, 76, 77, 78, 79],
    [80, 0, 1, 2, 3, 4, 5, 6, 7, 8, 9, 10, 11, 12, 13, 14],
    [15, 16, 17, 18, 19, 20, 21, 22, 23, 24, 25, 81, INV, 82, 83, 84],
    [85, 26, 27, 28, 29, 30, 31, 32, 33, 34, 35, 36, 37, 38, 39, 40],
    [41, 42, 43, 44, 45, 46, 47, 48, 49, 50, 51, 86, 87, 88, 89, INV],
    [INV, INV, INV, INV, INV, INV, INV, INV, INV, INV, INV, INV, INV, INV, INV, INV],
    [INV, INV, INV, INV, INV, INV, INV, INV, INV, INV, INV, INV, INV, INV, INV, INV],
    [INV, INV, INV, INV, INV, INV, INV, INV, INV, INV, INV, INV, INV, INV, INV, INV],
    [INV, INV, INV, INV, INV, INV, INV, INV, INV, INV, INV, INV, INV, INV, INV, INV],
    [INV, INV, INV, INV, INV, INV, INV, INV, INV, INV, INV, INV, INV, INV, INV, INV],
    [INV, INV, INV, INV, INV, INV, INV, INV, INV, INV, INV, INV, INV, INV, INV, INV],
    [INV, INV, INV, INV, INV, INV, INV, INV, INV, INV, INV, INV, INV, INV, INV, INV],
    [INV, INV, INV, INV, INV, INV, INV, INV, INV, INV, INV, INV, INV, INV, INV, INV]]

  function Encoded(i: nat): (c: byte)
    requires i < 91
  {
    ENCTAB[i / 13][i % 13] as int
  }

  function Decoded(b: byte): (d: nat)
    ensures d <= INV
  {
    DECTAB[b / 16][b % 16]
  }

  lemma Row0(i: nat)
    requires 0 <= i < 13
    ensures Decoded(Encoded(i)) == i
  {
    match i
    case 0 => case 1 => case 2 => case 3 => case 4 => case 5 => case 6 =>
    case 7 => case 8 => case 9 => case 10 => case 11 => case 12 =>
    case _ =>
  }

  lemma Row1(i: nat)
    requires 13 <= i < 26
    ensures Decoded(Encoded(i)) == i
  {
    match i
    case 13 => case 14 => case 15 => case 16 => case 17 => case 18 => case 19 =>
    case 20 => case 21 => case 22 => case 23 => case 24 => case 25 =>
    case _ =>
  }

  lemma Row2(i: nat)
    requires 26 <= i < 39
    ensures Decoded(Encoded(i)) == i
  {
    match i
    case 26 => case 27 => case 28 => case 29 => case 30 => case 31 => case 32 =>
    case 33 => case 34 => case 35 => case 36 => case 37 => case 38 =>
    case _ =>
  }

  lemma Row3(i: nat)
    requires 39 <= i < 52
    ensures Decoded(Encoded(i)) == i
  {
    match i
    case 39 => case 40 => case 41 => case 42 => case 43 => case 44 => case 45 =>
    case 46 => case 47 => case 48 => case 49 => case 50 => case 51 =>
    case _ =>
  }

  lemma Row4(i: nat)
    requires 52 <= i < 65
    ensures Decoded(Encoded(i)) == i
  {
    match i
    case 52 => case 53 => case 54 => case 55 => case 56 => case 57 => case 58 =>
    case 59 => case 60 => case 61 => case 62 => case 63 => case 64 =>
    case _ =>
  }

  lemma Row5(i: nat)
    requires 65 <= i < 78
    ensures Decoded(Encoded(i)) == i
  {
    match i
    case 65 => case 66 => case 67 => case 68 => case 69 => case 70 => case 71 =>
    case 72 => case 73 => case 74 => case 75 => case 76 => case 77 =>
    case _ =>
  }

  lemma Row7(i: nat)
    requires 85 <= i < 91
    ensures Decoded(Encoded(i)) == i
  {
    match i
    case 85 => case 86 => case 87 => case 88 => case 89 => case 90 =>
    case _ =>
  }

  lemma Row6(i: nat)
    requires 78 <= i < 91
    ensures Decoded(Encoded(i)) == i
  {
    match i
    case 78 => case 79 => case 80 => case 81 => case 82 => case 83 => case 84 =>
    case _ => Row7(i);
  }

  /** The two tables agree, entry by entry. */
  lemma {:induction false} DecodedEncoded(i: nat)
    requires i < 91
    ensures Decoded(Encoded(i)) == i
  {
    hide Decoded, Encoded;
    match i / 13
    case 0 => Row0(i);
    case 1 => Row1(i);
    case 2 => Row2(i);
    case 3 => Row3(i);
    case 4 => Row4(i);
    case 5 => Row5(i);
    case 6 => Row6(i);
  }

  // ---- encoding on bit strings -------------------------------------------------------------------

  /** A code: 13 bits that write more than 88, or 14 bits whose low 13 write at most 88. */
  ghost predicate IsCode(s: Bitstring) {
    || (|s| == 13 && Val(s) > 88)
    || (|s| == 14 && Val(s[..13]) <= 88)
  }

  function Pair(v: nat): (r: seq<byte>)
    requires v < 91 * 91
    ensures |r| == 2
  {
    [Encoded(v % 91), Encoded(v / 91)]
  }

  /** How many of the pending bits the next code takes. */
  function TakeLen(p: Bitstring): nat
    requires |p| > 13
  {
    if Val(p[..13]) > 88 then 13 else 14
  }

  lemma CodeTaken(p: Bitstring)
    requires |p| > 13
    ensures IsCode(p[..TakeLen(p)])
  {
    assert p[..14][..13] == p[..13];
  }

  lemma Split13(s: Bitstring)
    requires |s| == 14
    ensures Val(s) == Val(s[..13]) + 8192 * Val(s[13..])
    ensures Val(s[..13]) < 8192 && Val(s[13..]) < 2
  {
    hide *;
    Pow2Values();
    SplitVal(s, 13);
    ShiftValues(Val(s[13..]));
  }

  /** The length of a code, told from its value. */
  function CodeLen(v: nat): nat {
    if v % 8192 > 88 then 13 else 14
  }

  /** A code fits two characters, and its own low bits tell its length. */
  lemma {:induction false} CodeFits(s: Bitstring)
    requires IsCode(s)
    ensures Val(s) < 91 * 91 && CodeLen(Val(s)) == |s|
  {
    hide Val, Pow2;
    Pow2Values();
    if |s| == 14 {
      Split13(s);
    }
  }

  /** The bits pending and the characters written after `bytes`. */
  datatype Encoding = Encoding(pending: Bitstring, out: seq<byte>)

  /** A byte joins the pending bits; beyond 13 of them, a code leaves. */
  function EncodeByte(e: Encoding, b: byte): (r: Encoding)
  {
    var p := e.pending + Bits(b, 8);
    if |p| <= 13 then Encoding(p, e.out)
    else
      var n := TakeLen(p);
      CodeTaken(p);
      CodeFits(p[..n]);
      Encoding(p[n..], e.out + Pair(Val(p[..n])))
  }

  function EncodeBytes(bytes: seq<byte>): (r: Encoding)
    ensures |r.pending| <= 13
  {
    if bytes == [] then Encoding([], [])
    else EncodeByte(EncodeBytes(bytes[..|bytes| - 1]), bytes[|bytes| - 1])
  }

  lemma PendingFits(p: Bitstring)
    requires |p| <= 13
    ensures Val(p) < 8192
    ensures |p| <= 7 ==> Val(p) < 128
    ensures |p| <= 6 ==> Val(p) < 64
  {
    Pow2Values();
    Pow2Grows(|p|, 13);
    if |p| <= 7 {
      Pow2Grows(|p|, 7);
    }
    if |p| <= 6 {
      Pow2Grows(|p|, 6);
    }
  }

  /** The last characters: none, one, or two. */
  function Tail(p: Bitstring): (r: seq<byte>)
    requires |p| <= 13
  {
    if p == [] then []
    else
      PendingFits(p);
      if |p| > 7 || Val(p) > 90 then Pair(Val(p)) else [Encoded(Val(p) % 91)]
  }

  /** What `encode` writes. */
  function Encode(bytes: seq<byte>): seq<byte> {
    var e := EncodeBytes(bytes);
    e.out + Tail(e.pending)
  }

  // ---- decoding on bit strings -------------------------------------------------------------------

  datatype Decoding = Decoding(pending: Bitstring, first: Option<nat>, out: seq<byte>)

  /** How many of `n` bits make whole bytes. */
  function WholeBits(n: nat): (r: nat)
    ensures r <= n < r + 8 && r % 8 == 0
  {
    n / 8 * 8
  }

  /** The whole bytes of a bit string, and the bits left over. */
  function Whole(p: Bitstring): seq<byte> {
    BytesOf(p[..WholeBits(|p|)])
  }

  function Rest(p: Bitstring): (r: Bitstring)
    ensures |r| < 8
  {
    p[WholeBits(|p|)..]
  }

  function DecodeCode(pending: Bitstring, out: seq<byte>, v: nat): (r: Decoding)
    ensures r.first.None? && |r.pending| < 8
  {
    var p := pending + Bits(v, CodeLen(v));
    Decoding(Rest(p), None, out + Whole(p))
  }

  /** One byte: bytes outside the alphabet are skipped; the second character of a pair releases whole bytes. */
  function DecodeByte(d: Decoding, b: byte): Decoding {
    var c := Decoded(b);
    if c == INV then d
    else if d.first.None? then d.(first := Some(c))
    else DecodeCode(d.pending, d.out, d.first.value + 91 * c)
  }

  lemma WholeBitsStep(n: nat)
    requires n >= 8
    ensures WholeBits(n) >= 8 && WholeBits(n - 8) == WholeBits(n) - 8
  {
  }

  lemma Slices<T>(p: seq<T>, n: nat)
    requires 8 <= n <= |p|
    ensures p[..n][..8] == p[..8] && p[..n][8..] == p[8..][..n - 8] && p[n..] == p[8..][n - 8..]
  {
  }

  lemma FrontStep(p: Bitstring, n: nat)
    requires 8 <= n <= |p| && n % 8 == 0
    ensures Val(p[..8]) < 256 && BytesOf(p[..n]) == [Val(p[..8])] + BytesOf(p[8..][..n - 8])
  {
    hide *;
    Slices(p, n);
    BytesFromFront(p[..n]);
  }

  lemma WholeStep(p: Bitstring, n: nat)
    requires |p| >= 8 && n == WholeBits(|p|)
    ensures Val(p[..8]) < 256 && Whole(p) == [Val(p[..8])] + Whole(p[8..]) && Rest(p) == Rest(p[8..])
  {
    WholeBitsStep(|p|);
    hide Val, Pow2, BytesOf, Bits, WholeBits;
    FrontStep(p, n);
    Slices(p, n);
  }

  /** Whole bytes leave one at a time, from the low end. */
  lemma TakeByte(p: Bitstring)
    requires |p| >= 8
    ensures Val(p) / 256 == Val(p[8..])
    ensures Whole(p) == [Val(p) % 256] + Whole(p[8..]) && Rest(p) == Rest(p[8..])
  {
    hide *;
    Pow2Values();
    Mask8(p);
    WholeStep(p, WholeBits(|p|));
  }

  lemma NoWhole(p: Bitstring)
    requires |p| < 8
    ensures Whole(p) == [] && Rest(p) == p
  {
    hide WholeBits;
    assert WholeBits(|p|) == 0;
  }

  function DecodeBytes(text: seq<byte>): Decoding {
    if text == [] then Decoding([], None, []) else DecodeByte(DecodeBytes(text[..|text| - 1]), text[|text| - 1])
  }

  /** The byte that a leftover character completes. */
  function LastByte(p: Bitstring, c: nat): byte {
    (Val(p) + Shift(c, |p|)) % 256
  }

  /** What `decode` writes. */
  function Decode(text: seq<byte>): seq<byte> {
    var d := DecodeBytes(text);
    if d.first.Some? then d.out + [LastByte(d.pending, d.first.value)] else d.out
  }

  /** The bytes of the alphabet. */
  function Filter(text: seq<byte>): seq<byte> {
    if text == [] then []
    else Filter(text[..|text| - 1]) + if Decoded(text[|text| - 1]) == INV then [] else [text[|text| - 1]]
  }

  lemma {:induction false} FilteredDecodesAlike(text: seq<byte>)
    ensures DecodeBytes(text) == DecodeBytes(Filter(text))
  {
    if text != [] {
      var init, last := text[..|text| - 1], text[|text| - 1];
      FilteredDecodesAlike(init);
      if Decoded(last) != INV {
        assert Filter(text)[..|Filter(text)| - 1] == Filter(init);
      } else {
        assert Filter(text) == Filter(init);
      }
    }
  }

  // ---- the round trip ----------------------------------------------------------------------------

  lemma DecodeAppend(text: seq<byte>, b: byte)
    ensures DecodeBytes(text + [b]) == DecodeByte(DecodeBytes(text), b)
  {
    assert (text + [b])[..|text|] == text;
  }

  lemma DecodePair(d: Decoding, out: seq<byte>, v: nat)
    requires d == DecodeBytes(out) && d.first.None? && v < 91 * 91
    ensures DecodeBytes(out + Pair(v)) == DecodeCode(d.pending, d.out, v)
  {
    hide Encoded, Decoded, DecodeCode, DecodeBytes;
    DecodedEncoded(v % 91);
    DecodedEncoded(v / 91);
    DecodeAppend(out, Encoded(v % 91));
    DecodeAppend(out + [Encoded(v % 91)], Encoded(v / 91));
    assert out + Pair(v) == out + [Encoded(v % 91)] + [Encoded(v / 91)];
  }

  /** After any bytes the decoder has recovered all bits that the encoder has written. */
  ghost predicate InStep(written: Bitstring, e: Encoding, d: Decoding) {
    && d.first.None? && |d.pending| < 8
    && written == BitsOf(d.out) + d.pending + e.pending
  }

  /** Bits that arrive leave as bytes or stay pending. */
  lemma Released(out: seq<byte>, p: Bitstring)
    ensures BitsOf(out + Whole(p)) + Rest(p) == BitsOf(out) + p
  {
    hide Val, Bits, BitsOf, BytesOf, WholeBits;
    var n := WholeBits(|p|);
    BitsOfAppend(out, BytesOf(p[..n]));
    BitsOfBytes(p[..n]);
    assert p == p[..n] + p[n..];
  }

  lemma {:induction false} CodeRoundTrip(d: Decoding, s: Bitstring)
    requires |d.pending| < 8 && IsCode(s)
    ensures var r := DecodeCode(d.pending, d.out, Val(s));
      r.first.None? && |r.pending| < 8 && BitsOf(r.out) + r.pending == BitsOf(d.out) + d.pending + s
  {
    CodeFits(s);
    BitsOfVal(s);
    var p := d.pending + s;
    hide Val, Bits, Pow2, Whole, Rest, BitsOf;
    Released(d.out, p);
    Assoc(BitsOf(d.out), d.pending, s);
  }

  lemma EncodeUnfolds(bytes: seq<byte>)
    requires bytes != []
    ensures EncodeBytes(bytes) == EncodeByte(EncodeBytes(bytes[..|bytes| - 1]), bytes[|bytes| - 1])
    ensures BitsOf(bytes) == BitsOf(bytes[..|bytes| - 1]) + Bits(bytes[|bytes| - 1], 8)
  {
    hide EncodeByte, Bits;
  }

  lemma TakeLenIs(p: Bitstring)
    requires |p| > 13
    ensures TakeLen(p) == 13 || TakeLen(p) == 14
  {
  }

  lemma StepInStep(written: Bitstring, e: Encoding, d: Decoding, b: byte)
    requires d == DecodeBytes(e.out) && InStep(written, e, d)
    ensures InStep(written + Bits(b, 8), EncodeByte(e, b), DecodeBytes(EncodeByte(e, b).out))
  {
    hide Val, Bits, Pow2, DecodeBytes, BitsOf, Pair, DecodeCode, IsCode, TakeLen;
    var p := e.pending + Bits(b, 8);
    Assoc(BitsOf(d.out) + d.pending, e.pending, Bits(b, 8));
    if |p| > 13 {
      TakeLenIs(p);
      var n := TakeLen(p);
      CodeTaken(p);
      CodeFits(p[..n]);
      DecodePair(d, e.out, Val(p[..n]));
      CodeRoundTrip(d, p[..n]);
      Assoc(BitsOf(d.out) + d.pending, p[..n], p[n..]);
      assert p == p[..n] + p[n..];
    }
  }

  lemma {:induction false} EncodeDecodeInStep(bytes: seq<byte>)
    ensures InStep(BitsOf(bytes), EncodeBytes(bytes), DecodeBytes(EncodeBytes(bytes).out))
  {
    if bytes != [] {
      EncodeDecodeInStep(bytes[..|bytes| - 1]);
      EncodeUnfolds(bytes);
      hide *;
      var e := EncodeBytes(bytes[..|bytes| - 1]);
      StepInStep(BitsOf(bytes[..|bytes| - 1]), e, DecodeBytes(e.out), bytes[|bytes| - 1]);
    }
  }

  lemma DecodeOne(d: Decoding, text: seq<byte>, c: nat)
    requires d == DecodeBytes(text) && d.first.None? && c < 91
    ensures Decode(text + [Encoded(c)]) == d.out + [LastByte(d.pending, c)]
  {
    hide Encoded, Decoded, DecodeBytes, LastByte, DecodeCode;
    DecodedEncoded(c);
    DecodeAppend(text, Encoded(c));
  }

  lemma DecodeTwo(d: Decoding, text: seq<byte>, v: nat)
    requires d == DecodeBytes(text) && d.first.None? && v < 91 * 91
    requires DecodeCode(d.pending, d.out, v).first.None?
    ensures Decode(text + Pair(v)) == DecodeCode(d.pending, d.out, v).out
  {
    hide Pair, DecodeBytes, LastByte, DecodeCode;
    DecodePair(d, text, v);
  }

  lemma InStepIs(written: Bitstring, e: Encoding, d: Decoding)
    requires InStep(written, e, d)
    ensures d.first.None? && |d.pending| < 8 && |written| == 8 * |d.out| + |d.pending| + |e.pending|
    ensures written == BitsOf(d.out) + d.pending + e.pending
  {
    hide BitsOf;
  }

  lemma FitsByte(s: Bitstring)
    requires |s| == 8
    ensures Val(s) < 256 && Val(s) % 256 == Val(s)
  {
    hide Val;
    Pow2Values();
  }

  lemma LastByteIs(pending: Bitstring, p: Bitstring)
    requires |pending| + |p| == 8
    ensures LastByte(pending, Val(p)) == Val(pending + p)
  {
    hide Val, Bits, Pow2, Shift;
    ValAppend(pending, p);
    FitsByte(pending + p);
  }

  lemma LastByteCompletes(pending: Bitstring, p: Bitstring)
    requires |pending| + |p| == 8
    ensures Bits(LastByte(pending, Val(p)), 8) == pending + p
  {
    hide *;
    LastByteIs(pending, p);
    BitsOfVal(pending + p);
  }

  lemma BitsOfSnoc(bytes: seq<byte>, b: byte)
    ensures BitsOf(bytes + [b]) == BitsOf(bytes) + Bits(b, 8)
  {
    hide Bits;
    assert (bytes + [b])[..|bytes|] == bytes;
  }

  /** One leftover character completes the last byte. */
  lemma OneCharTail(d: Decoding, text: seq<byte>, p: Bitstring, bits: Bitstring)
    requires d == DecodeBytes(text) && InStep(bits, Encoding(p, text), d) && |bits| % 8 == 0
    requires 1 <= |p| <= 7 && Val(p) <= 90
    ensures BitsOf(Decode(text + [Encoded(Val(p))])) == bits
  {
    hide *;
    InStepIs(bits, Encoding(p, text), d);
    DecodeOne(d, text, Val(p));
    LastByteCompletes(d.pending, p);
    Assoc(BitsOf(d.out), d.pending, p);
    BitsOfSnoc(d.out, LastByte(d.pending, Val(p)));
  }

  lemma BitsOfBoth(out: seq<byte>, q: Bitstring)
    requires |q| % 8 == 0
    ensures BitsOf(out + BytesOf(q)) == BitsOf(out) + q
  {
    hide *;
    BitsOfAppend(out, BytesOf(q));
    BitsOfBytes(q);
  }

  lemma WholeOfPadded(q: Bitstring, zeros: Bitstring)
    requires |q| % 8 == 0 && |zeros| < 8
    ensures Whole(q + zeros) == BytesOf(q)
  {
    hide BytesOf;
    assert WholeBits(|q| + |zeros|) == |q|;
    assert (q + zeros)[..|q|] == q;
  }

  lemma PaddedWhole(pending: Bitstring, p: Bitstring, n: nat)
    requires |pending + p| % 8 == 0 && |p| <= n < |p| + 8
    ensures Whole(pending + Bits(Val(p), n)) == BytesOf(pending + p)
  {
    hide *;
    var zeros := Bits(0, n - |p|);
    BitsPad(p, n);
    Assoc(pending, p, zeros);
    WholeOfPadded(pending + p, zeros);
  }

  lemma CodeLens(v: nat)
    ensures 13 <= CodeLen(v) <= 14
  {
  }

  lemma DecodeCodeIs(pending: Bitstring, out: seq<byte>, v: nat)
    ensures DecodeCode(pending, out, v).out == out + Whole(pending + Bits(v, CodeLen(v)))
  {
  }

  /** Decoding a padded code drops the zeros. */
  lemma PaddedCode(d: Decoding, p: Bitstring)
    requires 7 <= |p| <= 13 && |d.pending + p| % 8 == 0
    ensures DecodeCode(d.pending, d.out, Val(p)).first == None
    ensures BitsOf(DecodeCode(d.pending, d.out, Val(p)).out) == BitsOf(d.out) + (d.pending + p)
  {
    hide *;
    var q := d.pending + p;
    CodeLens(Val(p));
    DecodeCodeIs(d.pending, d.out, Val(p));
    PaddedWhole(d.pending, p, CodeLen(Val(p)));
    BitsOfBoth(d.out, q);
  }

  /** Two leftover characters carry the last bits and fewer than 8 zeros. */
  lemma TwoCharTail(d: Decoding, text: seq<byte>, p: Bitstring, bits: Bitstring)
    requires d == DecodeBytes(text) && InStep(bits, Encoding(p, text), d) && |bits| % 8 == 0
    requires 7 <= |p| <= 13 && Val(p) < 8192
    ensures BitsOf(Decode(text + Pair(Val(p)))) == bits
  {
    hide *;
    InStepIs(bits, Encoding(p, text), d);
    assert |d.pending + p| == |bits| - 8 * |d.out|;
    PaddedCode(d, p);
    DecodeTwo(d, text, Val(p));
    Assoc(BitsOf(d.out), d.pending, p);
  }

  lemma TailDecoded(bytes: seq<byte>, e: Encoding)
    requires e == EncodeBytes(bytes) && InStep(BitsOf(bytes), e, DecodeBytes(e.out))
    ensures BitsOf(Decode(Encode(bytes))) == BitsOf(bytes)
  {
    hide EncodeBytes, DecodeBytes, Val, Bits, Pow2, BitsOf, Pair, Encoded;
    var d := DecodeBytes(e.out);
    var p := e.pending;
    if p == [] {
      assert e.out + [] == e.out;
      assert d.pending == [];
      assert BitsOf(d.out) + [] + [] == BitsOf(d.out);
    } else {
      PendingFits(p);
      hide InStep, Decode;
      if |p| > 7 || Val(p) > 90 {
        TwoCharTail(d, e.out, p, BitsOf(bytes));
      } else {
        OneCharTail(d, e.out, p, BitsOf(bytes));
      }
    }
  }

  /** The encoder never leaves a character outside the alphabet. */
  lemma TailRoundTrip(bytes: seq<byte>)
    ensures Decode(Encode(bytes)) == bytes
  {
    hide *;
    EncodeDecodeInStep(bytes);
    TailDecoded(bytes, EncodeBytes(bytes));
    BitsOfInjective(Decode(Encode(bytes)), bytes);
  }

  /**
    * basE91 loses nothing: whatever bytes outside the alphabet are strewn into the encoded text, decoding it
    * gives the original bytes.
    */
  lemma {:induction false} RoundTrip(bytes: seq<byte>, text: seq<byte>)
    requires Filter(text) == Encode(bytes)
    ensures Decode(text) == bytes
  {
    FilteredDecodesAlike(text);
    TailRoundTrip(bytes);
  }

  predicate IsText(s: seq<byte>) {
    forall i :: 0 <= i < |s| ==> Decoded(s[i]) != INV
  }

  lemma PairIsText(v: nat)
    requires v < 91 * 91
    ensures IsText(Pair(v)) && IsText([Encoded(v % 91)])
  {
    hide Encoded, Decoded;
    DecodedEncoded(v % 91);
    DecodedEncoded(v / 91);
  }

  lemma TextJoins(a: seq<byte>, b: seq<byte>)
    requires IsText(a) && IsText(b)
    ensures IsText(a + b)
  {
    hide Decoded;
  }

  lemma {:induction false} OutIsText(bytes: seq<byte>)
    ensures IsText(EncodeBytes(bytes).out)
  {
    if bytes != [] {
      var e, b := EncodeBytes(bytes[..|bytes| - 1]), bytes[|bytes| - 1];
      OutIsText(bytes[..|bytes| - 1]);
      EncodeUnfolds(bytes);
      hide EncodeBytes, IsText, Pair, Val, Bits, TakeLen, IsCode;
      var p := e.pending + Bits(b, 8);
      if |p| > 13 {
        CodeTaken(p);
        CodeFits(p[..TakeLen(p)]);
        PairIsText(Val(p[..TakeLen(p)]));
        TextJoins(e.out, Pair(Val(p[..TakeLen(p)])));
      }
    }
  }

  lemma NothingIsText()
    ensures IsText([])
  {
  }

  lemma TailIsText(p: Bitstring)
    requires |p| <= 13
    ensures IsText(Tail(p))
  {
    hide IsText, Encoded, Pair, Val, Pow2;
    PendingFits(p);
    if p == [] {
      NothingIsText();
    } else {
      PairIsText(Val(p));
    }
  }

  lemma {:induction false} FilterKeeps(text: seq<byte>)
    requires IsText(text)
    ensures Filter(text) == text
  {
    if text != [] {
      hide Decoded;
      FilterKeeps(text[..|text| - 1]);
      assert text == text[..|text| - 1] + [text[|text| - 1]];
    }
  }

  /** Encoded text holds characters of the alphabet only. */
  lemma {:induction false} EncodedIsText(bytes: seq<byte>)
    ensures IsText(Encode(bytes)) && Filter(Encode(bytes)) == Encode(bytes)
  {
    var e := EncodeBytes(bytes);
    OutIsText(bytes);
    TailIsText(e.pending);
    hide EncodeBytes, IsText, Tail, Filter;
    TextJoins(e.out, Tail(e.pending));
    FilterKeeps(Encode(bytes));
  }

  // ---- size --------------------------------------------------------------------------------------

  /** Every two characters carry 13 or 14 bits. */
  lemma {:induction false} CodesCarry(bytes: seq<byte>)
    ensures var e := EncodeBytes(bytes);
      13 * |e.out| <= 2 * (8 * |bytes| - |e.pending|) <= 14 * |e.out|
  {
    if bytes != [] {
      CodesCarry(bytes[..|bytes| - 1]);
    }
  }

  /** The overhead lies between 1/7 and 3/13: 14% to 23%. */
  lemma {:induction false} SizeBound(bytes: seq<byte>)
    ensures 8 * |bytes| <= 7 * |Encode(bytes)|
    ensures 13 * |Encode(bytes)| <= 16 * |bytes| + 12
  {
    CodesCarry(bytes);
    var p := EncodeBytes(bytes).pending;
    hide EncodeBytes;
    PendingFits(p);
  }

  // ---- the streaming code ------------------------------------------------------------------------

  lemma TailIs(p: Bitstring)
    requires |p| <= 13
    ensures Val(p) < 8192
    ensures Tail(p) ==
      if |p| > 0 then
        if |p| > 7 || Val(p) > 90 then [Encoded(Val(p) % 91), Encoded(Val(p) / 91)] else [Encoded(Val(p) % 91)]
      else
        []
  {
    PendingFits(p);
    hide Val, Pow2, Encoded;
  }

  lemma EncodeAppend(bytes: seq<byte>, b: byte)
    ensures EncodeBytes(bytes + [b]) == EncodeByte(EncodeBytes(bytes), b)
  {
    hide EncodeByte;
    assert (bytes + [b])[..|bytes|] == bytes;
  }

  lemma CodeLeaves(e: Encoding, b: byte, start: seq<byte>)
    requires |e.pending| + 8 > 13
    ensures var p, r := e.pending + Bits(b, 8), EncodeByte(e, b);
      var v := Val(p[..13]);
      var n := if v > 88 then 13 else 14;
      var val := Val(p[..n]);
      && val < 91 * 91 && r.pending == p[n..] && start + r.out == start + e.out + [Encoded(val % 91), Encoded(val / 91)]
  {
    hide Val, Bits, Encoded;
    var p := e.pending + Bits(b, 8);
    CodeTaken(p);
    CodeFits(p[..TakeLen(p)]);
  }

  lemma NothingEncoded()
    ensures EncodeBytes([]) == Encoding([], []) && Val([]) == 0
  {
  }

  /** The encoder; `out` is what the underlying writer has received. */
  class Base91Encoder {
    var out: seq<byte>
    var accumulator: nat
    var bits: nat
    ghost var start: seq<byte>
    ghost var written: seq<byte>

    /** Since the last flush, when the writer held `start`, the bytes `written` have arrived. */
    ghost predicate Valid()
      reads this
    {
      var e := EncodeBytes(written);
      bits == |e.pending| && accumulator == Val(e.pending) && out == start + e.out
    }

    constructor (out: seq<byte>)
      ensures Valid() && start == out && written == []
    {
      this.out, accumulator, bits := out, 0, 0;
      start, written := out, [];
    }

    method WriteByte(b: byte)
      requires Valid()
      modifies this
      ensures Valid() && start == old(start) && written == old(written) + [b]
    {
      hide EncodeBytes, Val, Bits, Pow2, Encoded, Pair, IsCode, TakeLen;
      ghost var e := EncodeBytes(written);
      ghost var p := e.pending + Bits(b, 8);
      EncodeAppend(written, b);
      Pow2Values();
      Accumulate(e.pending, b, 8);
      // the bits of the byte lie above those of the accumulator, so that `|=` adds them
      accumulator := accumulator + Shift(b, bits);
      bits := bits + 8;
      if bits > 13 {
        CodeLeaves(e, b, start);
        Mask13(p);
        Mask14(p);
        var val := accumulator % 8192;
        if val > 88 {
          accumulator := accumulator / 8192;
          bits := bits - 13;
        } else {
          val := accumulator % 16384;
          accumulator := accumulator / 16384;
          bits := bits - 14;
        }
        out := out + [Encoded(val % 91), Encoded(val / 91)];
      }
      written := written + [b];
    }

    method Write(buf: seq<byte>) returns (n: nat)
      requires Valid()
      modifies this
      ensures Valid() && start == old(start) && written == old(written) + buf && n == |buf|
      ensures bits <= 13
    {
      hide EncodeBytes, Val;
      assert buf[..0] == [] && written == written + [];
      for i := 0 to |buf|
        invariant Valid() && start == old(start) && written == old(written) + buf[..i]
      {
        WriteByte(buf[i]);
        assert buf[..i + 1] == buf[..i] + [buf[i]];
      }
      assert buf[..|buf|] == buf;
      n := |buf|;
    }

    /** Writes the last bits; flushing again writes nothing. */
    method Flush()
      requires Valid()
      modifies this
      ensures Valid() && out == old(start) + Encode(old(written))
      ensures start == out && written == [] && accumulator == 0 && bits == 0
    {
      hide EncodeBytes, Encoded, Pow2, Tail, Val;
      ghost var e := EncodeBytes(written);
      Assoc(start, e.out, Tail(e.pending));
      TailIs(e.pending);
      if bits > 0 {
        var val := accumulator;
        if bits > 7 || accumulator > 90 {
          out := out + [Encoded(val % 91), Encoded(val / 91)];
        } else {
          out := out + [Encoded(val % 91)];
        }
      } else {
        assert out + [] == out;
      }
      bits := 0;
      accumulator := 0;
      start, written := out, [];
      NothingEncoded();
      assert start + [] == start;
    }
  }

  lemma {:induction false} PendingIsShort(text: seq<byte>)
    ensures |DecodeBytes(text).pending| < 8
    ensures DecodeBytes(text).first.Some? ==> DecodeBytes(text).first.value < 91
  {
    if text != [] {
      PendingIsShort(text[..|text| - 1]);
      hide Decoded, BytesOf, Bits, CodeLen;
    }
  }

  lemma NothingDecoded()
    ensures DecodeBytes([]) == Decoding([], None, []) && Val([]) == 0
  {
  }

  /** The decoder; `out` is what the underlying writer has received. */
  class Base91Decoder {
    var out: seq<byte>
    var accumulator: nat
    var bits: nat
    var value: Option<nat>
    ghost var start: seq<byte>
    ghost var received: seq<byte>

    ghost predicate Valid()
      reads this
    {
      var d := DecodeBytes(received);
      bits == |d.pending| && accumulator == Val(d.pending) && value == d.first && out == start + d.out
    }

    constructor (out: seq<byte>)
      ensures Valid() && start == out && received == []
    {
      this.out, accumulator, bits, value := out, 0, 0, None;
      start, received := out, [];
    }

    /** Takes the value of a pair and writes whole bytes while there are any; there is at least one. */
    method ReleaseCode(ghost pending: Bitstring, ghost decoded: seq<byte>, v: nat)
      requires |pending| == bits < 8 && accumulator == Val(pending) && out == start + decoded && v < 91 * 91
      modifies this`out, this`accumulator, this`bits
      ensures var r := DecodeCode(pending, decoded, v);
        bits == |r.pending| && accumulator == Val(r.pending) && out == start + r.out
    {
      hide Val, Bits, Pow2, Whole, Rest;
      Pow2Values();
      ghost var p := pending + Bits(v, CodeLen(v));
      Accumulate(pending, v, CodeLen(v));
      Assoc(start, decoded, Whole(p));
      accumulator := accumulator + Shift(v, bits);
      bits := bits + if v % 8192 > 88 then 13 else 14;
      ghost var q := p;
      while true
        invariant bits == |q| >= 8 && accumulator == Val(q)
        invariant Rest(q) == Rest(p) && out + Whole(q) == start + (decoded + Whole(p))
        decreases bits
      {
        TakeByte(q);
        Assoc(out, [accumulator % 256], Whole(q[8..]));
        out := out + [accumulator % 256];
        accumulator := accumulator / 256;
        bits := bits - 8;
        q := q[8..];
        if bits < 8 {
          break;
        }
      }
      NoWhole(q);
      assert out + [] == out;
    }

    method WriteByte(b: byte)
      requires Valid()
      modifies this
      ensures Valid() && start == old(start) && received == old(received) + [b]
    {
      hide DecodeBytes, DecodeCode, Decoded, Val;
      ghost var d := DecodeBytes(received);
      PendingIsShort(received);
      DecodeAppend(received, b);
      received := received + [b];
      var c := Decoded(b);
      if c == INV {
        return;
      }
      if value.Some? {
        ReleaseCode(d.pending, d.out, value.value + c * 91);
        value := None;
      } else {
        value := Some(c);
      }
    }

    method Write(buf: seq<byte>) returns (n: nat)
      requires Valid()
      modifies this
      ensures Valid() && start == old(start) && received == old(received) + buf && n == |buf|
      ensures bits <= 7
    {
      hide DecodeBytes, Val;
      assert buf[..0] == [] && received == received + [];
      for i := 0 to |buf|
        invariant Valid() && start == old(start) && received == old(received) + buf[..i]
      {
        WriteByte(buf[i]);
        assert buf[..i + 1] == buf[..i] + [buf[i]];
      }
      assert buf[..|buf|] == buf;
      PendingIsShort(received);
      n := |buf|;
    }

    /** Writes the byte that a leftover character completes. */
    method Flush()
      requires Valid()
      modifies this
      ensures Valid() && out == old(start) + Decode(old(received))
      ensures start == out && received == [] && accumulator == 0 && bits == 0 && value == None
    {
      ghost var d := DecodeBytes(received);
      hide DecodeBytes;
      if value.Some? {
        out := out + [(accumulator + Shift(value.value, bits)) % 256];
        assert start + d.out + [LastByte(d.pending, d.first.value)] ==
          start + (d.out + [LastByte(d.pending, d.first.value)]);
      }
      value := None;
      bits := 0;
      accumulator := 0;
      start, received := out, [];
      NothingDecoded();
      assert start + [] == start;
    }
  }

  /** The convenience function `encode`. */
  method EncodeAll(buf: seq<byte>) returns (r: seq<byte>)
    ensures r == Encode(buf)
    ensures 8 * |buf| <= 7 * |r| && 13 * |r| <= 16 * |buf| + 12
  {
    SizeBound(buf);
    hide *;
    var encoder := new Base91Encoder([]);
    var _ := encoder.Write(buf);
    encoder.Flush();
    assert [] + buf == buf && [] + Encode(buf) == Encode(buf);
    r := encoder.out;
  }

  /** The convenience function `decode`. */
  method DecodeAll(buf: seq<byte>) returns (r: seq<byte>)
    ensures r == Decode(buf)
    ensures forall bytes :: Filter(buf) == Encode(bytes) ==> r == bytes
  {
    forall bytes | Filter(buf) == Encode(bytes)
      ensures Decode(buf) == bytes
    {
      RoundTrip(bytes, buf);
    }
    hide *;
    var decoder := new Base91Decoder([]);
    var _ := decoder.Write(buf);
    decoder.Flush();
    assert [] + buf == buf && [] + Decode(buf) == Decode(buf);
    r := decoder.out;
  }

  // ---- any slicing into writes -------------------------------------------------------------------

  function Joined(pieces: seq<seq<byte>>): seq<byte> {
    if pieces == [] then [] else Joined(pieces[..|pieces| - 1]) + pieces[|pieces| - 1]
  }

  /** However the bytes are cut into writes, one flush at the end completes the same text. */
  method EncodePieces(pieces: seq<seq<byte>>) returns (r: seq<byte>)
    ensures r == Encode(Joined(pieces))
  {
    hide Encode, EncodeBytes, Base91Encoder.Valid;
    var encoder := new Base91Encoder([]);
    for k := 0 to |pieces|
      invariant encoder.Valid() && encoder.start == [] && encoder.written == Joined(pieces[..k])
    {
      var _ := encoder.Write(pieces[k]);
      assert pieces[..k + 1][..k] == pieces[..k];
    }
    assert pieces[..|pieces|] == pieces;
    encoder.Flush();
    assert [] + Encode(Joined(pieces)) == Encode(Joined(pieces));
    r := encoder.out;
  }

  /** However encoded text, and anything outside the alphabet, is cut into writes: the original bytes come back. */
  method DecodePieces(pieces: seq<seq<byte>>) returns (r: seq<byte>)
    ensures r == Decode(Joined(pieces))
    ensures forall bytes :: Filter(Joined(pieces)) == Encode(bytes) ==> r == bytes
  {
    forall bytes | Filter(Joined(pieces)) == Encode(bytes)
      ensures Decode(Joined(pieces)) == bytes
    {
      RoundTrip(bytes, Joined(pieces));
    }
    hide Decode, DecodeBytes, Base91Decoder.Valid;
    var decoder := new Base91Decoder([]);
    for k := 0 to |pieces|
      invariant decoder.Valid() && decoder.start == [] && decoder.received == Joined(pieces[..k])
    {
      var _ := decoder.Write(pieces[k]);
      assert pieces[..k + 1][..k] == pieces[..k];
    }
    assert pieces[..|pieces|] == pieces;
    decoder.Flush();
    assert [] + Decode(Joined(pieces)) == Decode(Joined(pieces));
    r := decoder.out;
  }
}
