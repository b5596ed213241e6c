/**
  * Bit strings, least significant bit first: the meaning of an accumulator and its bit count.
  *
  * `Val` and `Bits` go between a bit string and the number it writes, `BitsOf` and `BytesOf` between bytes and their
  * bits. Shifting, masking and joining numbers are proved to be slicing and concatenation of the bit strings, so that
  * the coder can be reasoned about without arithmetic.
  *
  * Shifting left is repeated doubling here rather than multiplication by a power of two: all facts about it stay
  * linear, and the three shifts that the coder uses, by 8, 13 and 14 bits, are given as constants. A byte string is
  * read from the front, as the coder reads it, although `BitsOf` and `BytesOf` take bytes off the end.
  */
module BitStrings {
  import opened Bytes

  /** `v` shifted left by `n` bits. */
  function Shift(v: nat, n: nat): nat {
    if n == 0 then v else 2 * Shift(v, n - 1)
  }

  function Pow2(n: nat): (p: nat)
    ensures p > 0
  {
    if n == 0 then 1 else 2 * Pow2(n - 1)
  }

  lemma Pow2Values()
    ensures Pow2(1) == 2 && Pow2(6) == 64 && Pow2(7) == 128 && Pow2(8) == 256 && Pow2(13) == 8192 && Pow2(14) == 16384
  {
    assert Pow2(2) == 4 && Pow2(4) == 16;
    assert Pow2(6) == 64 && Pow2(8) == 256 && Pow2(10) == 1024 && Pow2(12) == 4096;
  }

  lemma ShiftValues(v: nat)
    ensures Shift(v, 8) == 256 * v && Shift(v, 13) == 8192 * v && Shift(v, 14) == 16384 * v
  {
    assert Shift(v, 1) == 2 * v;
    assert Shift(v, 2) == 4 * v;
    assert Shift(v, 4) == 16 * v;
    assert Shift(v, 6) == 64 * v;
    assert Shift(v, 8) == 256 * v;
    assert Shift(v, 10) == 1024 * v;
    assert Shift(v, 12) == 4096 * v;
  }

  lemma {:induction false} Pow2Grows(m: nat, n: nat)
    requires m <= n
    ensures Pow2(m) <= Pow2(n)
  {
    if m < n {
      Pow2Grows(m, n - 1);
    }
  }

  type Bitstring = seq<bool>

  lemma Assoc<T>(a: seq<T>, b: seq<T>, c: seq<T>)
    ensures a + b + c == a + (b + c)
  {
  }

  /** The number that a bit string writes. */
  function Val(s: Bitstring): (v: nat)
    ensures v < Pow2(|s|)
  {
    if s == [] then 0 else (if s[0] then 1 else 0) + 2 * Val(s[1..])
  }

  /** The low `n` bits of `v`. */
  function Bits(v: nat, n: nat): (s: Bitstring)
    ensures |s| == n
  {
    if n == 0 then [] else [v % 2 == 1] + Bits(v / 2, n - 1)
  }

  lemma {:induction false} ValOfBits(v: nat, n: nat)
    requires v < Pow2(n)
    ensures Val(Bits(v, n)) == v
  {
    if n > 0 {
      ValOfBits(v / 2, n - 1);
      assert Bits(v, n)[1..] == Bits(v / 2, n - 1);
    }
  }

  lemma {:induction false} BitsOfVal(s: Bitstring)
    ensures Bits(Val(s), |s|) == s
  {
    if s != [] {
      BitsOfVal(s[1..]);
    }
  }

  lemma {:induction false} ValAppend(a: Bitstring, b: Bitstring)
    ensures Val(a + b) == Val(a) + Shift(Val(b), |a|)
  {
    hide Pow2;
    if a == [] {
      assert a + b == b;
    } else {
      ValAppend(a[1..], b);
      assert (a + b)[1..] == a[1..] + b;
    }
  }

  /** The value of a bit string in two parts. */
  lemma SplitVal(s: Bitstring, n: nat)
    requires n <= |s|
    ensures Val(s) == Val(s[..n]) + Shift(Val(s[n..]), n)
  {
    hide *;
    assert s == s[..n] + s[n..];
    ValAppend(s[..n], s[n..]);
  }

  /** Adding a number above the pending bits. */
  lemma Accumulate(p: Bitstring, v: nat, n: nat)
    requires v < Pow2(n)
    ensures Val(p + Bits(v, n)) == Val(p) + Shift(v, |p|)
  {
    hide *;
    ValAppend(p, Bits(v, n));
    ValOfBits(v, n);
  }

  lemma Low8(v: nat, low: nat, high: nat)
    requires v == low + 256 * high && low < 256
    ensures v % 256 == low && v / 256 == high
  {
  }

  /** What masking and shifting right by 8 bits read. */
  lemma Mask8(q: Bitstring)
    requires |q| >= 8
    ensures Val(q) % 256 == Val(q[..8]) && Val(q) / 256 == Val(q[8..])
  {
    hide *;
    SplitVal(q, 8);
    ShiftValues(Val(q[8..]));
    Pow2Values();
    Low8(Val(q), Val(q[..8]), Val(q[8..]));
  }

  lemma Low13(v: nat, low: nat, high: nat)
    requires v == low + 8192 * high && low < 8192
    ensures v % 8192 == low && v / 8192 == high
  {
  }

  lemma Low14(v: nat, low: nat, high: nat)
    requires v == low + 16384 * high && low < 16384
    ensures v % 16384 == low && v / 16384 == high
  {
  }

  lemma Mask13(q: Bitstring)
    requires |q| >= 13
    ensures Val(q) % 8192 == Val(q[..13]) && Val(q) / 8192 == Val(q[13..])
  {
    hide *;
    SplitVal(q, 13);
    ShiftValues(Val(q[13..]));
    Pow2Values();
    Low13(Val(q), Val(q[..13]), Val(q[13..]));
  }

  lemma Mask14(q: Bitstring)
    requires |q| >= 14
    ensures Val(q) % 16384 == Val(q[..14]) && Val(q) / 16384 == Val(q[14..])
  {
    hide *;
    SplitVal(q, 14);
    ShiftValues(Val(q[14..]));
    Pow2Values();
    Low14(Val(q), Val(q[..14]), Val(q[14..]));
  }

  lemma BitsUnfold(s: Bitstring, n: nat)
    requires s != [] && n > 0
    ensures Bits(Val(s), n) == [s[0]] + Bits(Val(s[1..]), n - 1)
  {
    hide Pow2;
  }

  /** Padding with zeros keeps the value. */
  lemma {:induction false} BitsPad(s: Bitstring, n: nat)
    requires n >= |s|
    ensures Bits(Val(s), n) == s + Bits(0, n - |s|)
  {
    hide Pow2;
    if s == [] {
      assert [] + Bits(0, n) == Bits(0, n);
    } else {
      BitsPad(s[1..], n - 1);
      BitsUnfold(s, n);
      hide Val, Bits;
      assert [s[0]] + (s[1..] + Bits(0, n - |s|)) == s + Bits(0, n - |s|);
    }
  }

  // ---- bytes -------------------------------------------------------------------------------------

  function BitsOf(bytes: seq<byte>): (s: Bitstring)
    ensures |s| == 8 * |bytes|
  {
    if bytes == [] then [] else BitsOf(bytes[..|bytes| - 1]) + Bits(bytes[|bytes| - 1], 8)
  }

  lemma NoBits()
    ensures BitsOf([]) == []
  {
  }

  lemma LastBits(a: seq<byte>, n: nat)
    requires |a| == n + 1
    ensures BitsOf(a) == BitsOf(a[..n]) + Bits(a[n], 8)
  {
    hide Bits;
  }

  lemma Ends<T>(a: seq<T>, b: seq<T>, n: nat)
    requires n <= |b|
    ensures (a + b)[..|a| + n] == a + b[..n] && (a + b)[|a| + n..] == b[n..]
  {
  }

  lemma {:induction false} BitsOfAppend(a: seq<byte>, b: seq<byte>)
    ensures BitsOf(a + b) == BitsOf(a) + BitsOf(b)
  {
    hide *;
    if b == [] {
      NoBits();
      assert a + b == a && BitsOf(a) + [] == BitsOf(a);
    } else {
      var n := |b| - 1;
      BitsOfAppend(a, b[..n]);
      Ends(a, b, n);
      LastBits(b, n);
      LastBits(a + b, |a| + n);
      Assoc(BitsOf(a), BitsOf(b[..n]), Bits(b[n], 8));
    }
  }

  lemma SplitEqual<T>(a: seq<T>, b: seq<T>, a': seq<T>, b': seq<T>)
    requires a + b == a' + b' && |b| == |b'|
    ensures a == a' && b == b'
  {
    assert a == (a + b)[..|a|] && a' == (a' + b')[..|a'|];
    assert b == (a + b)[|a|..] && b' == (a' + b')[|a'|..];
  }

  /** Different byte strings have different bits. */
  lemma {:induction false} BitsOfInjective(a: seq<byte>, b: seq<byte>)
    requires BitsOf(a) == BitsOf(b)
    ensures a == b
  {
    hide *;
    assert |a| == |b|;
    if a != [] {
      var n := |a| - 1;
      LastBits(a, n);
      LastBits(b, n);
      SplitEqual(BitsOf(a[..n]), Bits(a[n], 8), BitsOf(b[..n]), Bits(b[n], 8));
      BitsOfInjective(a[..n], b[..n]);
      Pow2Values();
      ValOfBits(a[n], 8);
      ValOfBits(b[n], 8);
      assert a == a[..n] + [a[n]] && b == b[..n] + [b[n]];
    }
  }

  /** The whole bytes of a bit string. */
  function BytesOf(s: Bitstring): (r: seq<byte>)
    requires |s| % 8 == 0
    ensures |r| == |s| / 8
  {
    if s == [] then []
    else
      Pow2Values();
      BytesOf(s[..|s| - 8]) + [Val(s[|s| - 8..])]
  }

  lemma Nothing()
    ensures BytesOf([]) == []
  {
  }

  lemma LastByteOf(s: Bitstring)
    requires |s| % 8 == 0 && s != []
    ensures Val(s[|s| - 8..]) < 256
    ensures BytesOf(s) == BytesOf(s[..|s| - 8]) + [Val(s[|s| - 8..])]
  {
    Pow2Values();
  }

  lemma {:induction false} BitsOfBytes(s: Bitstring)
    requires |s| % 8 == 0
    ensures BitsOf(BytesOf(s)) == s
  {
    hide *;
    if s == [] {
      Nothing();
      NoBits();
    } else {
      var n := |s| - 8;
      var bytes, last := BytesOf(s[..n]), Val(s[n..]);
      BitsOfBytes(s[..n]);
      BitsOfVal(s[n..]);
      LastByteOf(s);
      LastBits(bytes + [last], |bytes|);
      assert (bytes + [last])[..|bytes|] == bytes;
      assert s[..n] + s[n..] == s;
    }
  }

  lemma {:induction false} BytesOfAppend(a: Bitstring, b: Bitstring)
    requires |a| % 8 == 0 && |b| % 8 == 0
    ensures BytesOf(a + b) == BytesOf(a) + BytesOf(b)
  {
    hide *;
    if b == [] {
      Nothing();
      assert a + b == a;
    } else {
      var n := |b| - 8;
      BytesOfAppend(a, b[..n]);
      Ends(a, b, n);
      LastByteOf(b);
      LastByteOf(a + b);
      assert |a + b| - 8 == |a| + n;
      Assoc(BytesOf(a), BytesOf(b[..n]), [Val(b[n..])]);
    }
  }

  /** Whole bytes can be taken from the front. */
  lemma BytesFromFront(s: Bitstring)
    requires |s| % 8 == 0 && s != []
    ensures Val(s[..8]) < 256
    ensures BytesOf(s) == [Val(s[..8])] + BytesOf(s[8..])
  {
    hide *;
    assert s == s[..8] + s[8..];
    BytesOfAppend(s[..8], s[8..]);
    LastByteOf(s[..8]);
    Nothing();
    assert s[..8][0..] == s[..8] && s[..8][..0] == [];
  }
}
