/** Frames of the mux protocol: length, serial and ident as LEB128 numbers, then the data. */
module Frame {
  import opened Bytes
  import Leb128

  const COMPRESSED_MASK: u64 := TWO_TO_THE_63

  /** The number in front of a frame: it counts the serial, the ident and the data, and flags compression. */
  function Length(ident: u64, serial: u64, data: seq<byte>): nat {
    |data| + Leb128.EncodedLength(ident) + Leb128.EncodedLength(serial)
  }

  /** Frames whose length leaves the flag free. */
  predicate Fits(ident: u64, serial: u64, data: seq<byte>) {
    Length(ident, serial, data) < COMPRESSED_MASK
  }

  function MaskedLength(ident: u64, serial: u64, data: seq<byte>, isCompressed: bool): u64
    requires Fits(ident, serial, data)
  {
    Length(ident, serial, data) + if isCompressed then COMPRESSED_MASK else 0
  }

  function Encode(ident: u64, serial: u64, data: seq<byte>, isCompressed: bool): (s: seq<byte>)
    requires Fits(ident, serial, data)
  {
    Leb128.Write(MaskedLength(ident, serial, data, isCompressed)) +
      (Leb128.Write(serial) + (Leb128.Write(ident) + data))
  }

  datatype Decoded = Decoded(ident: u64, serial: u64, data: seq<byte>, isCompressed: bool)

  /** A frame and the bytes after it, an input that ends too early, or one that no more bytes can mend. */
  datatype Outcome<+T> = Got(value: T, rest: seq<byte>) | NeedMore | Corrupt

  function ReadU64(s: seq<byte>): (r: Outcome<u64>)
    ensures r.Got? ==> |r.rest| < |s| && r.rest == s[|s| - |r.rest|..]
  {
    match Leb128.Read(s, 0)
    case Found(v, rest) => Got(v, rest)
    case EndOfInput => NeedMore
    case Overflow => Corrupt
  }

  /** The data, once the header is known. */
  function ReadData(len: u64, serial: u64, ident: u64, s: seq<byte>): (r: Outcome<Decoded>)
    ensures r.Got? ==> |r.rest| <= |s| && r.rest == s[|s| - |r.rest|..]
  {
    var isCompressed := len >= COMPRESSED_MASK;
    var dataLen := (if isCompressed then len - COMPRESSED_MASK else len)
                   - (Leb128.EncodedLength(ident) + Leb128.EncodedLength(serial));
    if dataLen < 0 then Corrupt
    else if dataLen > |s| then NeedMore
    else Got(Decoded(ident, serial, s[..dataLen], isCompressed), s[dataLen..])
  }

  function Failed<T, U>(o: Outcome<T>): (r: Outcome<U>)
    requires !o.Got?
    ensures !r.Got?
  {
    match o
    case NeedMore => NeedMore
    case Corrupt => Corrupt
  }

  function Decode(s: seq<byte>): (r: Outcome<Decoded>)
    ensures r.Got? ==> |r.rest| < |s| && r.rest == s[|s| - |r.rest|..]
  {
    var len := ReadU64(s);
    if !len.Got? then Failed(len)
    else
      var serial := ReadU64(len.rest);
      if !serial.Got? then Failed(serial)
      else
        var ident := ReadU64(serial.rest);
        if !ident.Got? then Failed(ident) else ReadData(len.value, serial.value, ident.value, ident.rest)
  }

  // ---- round trip and prefixes -------------------------------------------------------------------

  /** Reading a number that is followed by anything, and one that is cut short. */
  lemma NumberReads(v: u64, rest: seq<byte>)
    ensures ReadU64(Leb128.Write(v) + rest) == Got(v, rest)
  {
    Leb128.RoundTrip(v, rest);
  }

  lemma NumberCut(v: u64, n: nat)
    requires n < |Leb128.Write(v)|
    ensures ReadU64(Leb128.Write(v)[..n]) == NeedMore
  {
    Leb128.PrefixIsShort(v, 0, n);
  }

  lemma DataReads(ident: u64, serial: u64, data: seq<byte>, isCompressed: bool, s: seq<byte>)
    requires Fits(ident, serial, data)
    ensures var r := ReadData(MaskedLength(ident, serial, data, isCompressed), serial, ident, s);
      if |s| < |data| then r == NeedMore
      else r == Got(Decoded(ident, serial, s[..|data|], isCompressed), s[|data|..])
  {
  }

  /** Decoding a frame gives back what was encoded and stops exactly at its end. */
  lemma {:induction false} RoundTrip(ident: u64, serial: u64, data: seq<byte>, isCompressed: bool, rest: seq<byte>)
    requires Fits(ident, serial, data)
    ensures Decode(Encode(ident, serial, data, isCompressed) + rest) ==
      Got(Decoded(ident, serial, data, isCompressed), rest)
  {
    var len := MaskedLength(ident, serial, data, isCompressed);
    hide ReadU64, ReadData, MaskedLength, Fits;
    var l, n, i := Leb128.Write(len), Leb128.Write(serial), Leb128.Write(ident);
    assert l + (n + (i + data)) + rest == l + (n + (i + (data + rest)));
    NumberReads(len, n + (i + (data + rest)));
    NumberReads(serial, i + (data + rest));
    NumberReads(ident, data + rest);
    DataReads(ident, serial, data, isCompressed, data + rest);
    assert (data + rest)[..|data|] == data && (data + rest)[|data|..] == rest;
  }

  /**
    * What a header of these numbers makes of the bytes behind it: a length that does not even count the serial and the
    * ident is corrupt; otherwise the data are the bytes it leaves for them, or more input is needed.
    */
  ghost predicate IsDecidedBy(len: u64, serial: u64, ident: u64, s: seq<byte>, r: Outcome<Decoded>) {
    var n := len % COMPRESSED_MASK - |Leb128.Write(serial)| - |Leb128.Write(ident)|;
    r == if n < 0 then Corrupt
         else if n > |s| then NeedMore
         else Got(Decoded(ident, serial, s[..n], len >= COMPRESSED_MASK), s[n..])
  }

  lemma DataDecided(len: u64, serial: u64, ident: u64, s: seq<byte>)
    ensures IsDecidedBy(len, serial, ident, s, ReadData(len, serial, ident, s))
  {
  }

  /** Any header is decided in this way, whatever stands behind it. */
  lemma {:induction false} HeaderDecides(len: u64, serial: u64, ident: u64, s: seq<byte>)
    ensures IsDecidedBy(
      len, serial, ident, s, Decode(Leb128.Write(len) + (Leb128.Write(serial) + (Leb128.Write(ident) + s))))
  {
    hide ReadU64, ReadData, IsDecidedBy;
    NumberReads(len, Leb128.Write(serial) + (Leb128.Write(ident) + s));
    NumberReads(serial, Leb128.Write(ident) + s);
    NumberReads(ident, s);
    DataDecided(len, serial, ident, s);
  }

  lemma FrameIs(ident: u64, serial: u64, data: seq<byte>, isCompressed: bool, buffer: seq<byte>)
    requires Fits(ident, serial, data)
    requires var len := Leb128.Write(MaskedLength(ident, serial, data, isCompressed));
      buffer == [] + len + Leb128.Write(serial) + Leb128.Write(ident) + data
    ensures buffer == Encode(ident, serial, data, isCompressed)
  {
    hide MaskedLength;
  }

  /** The buffer is the frame, and decoding it gives back what went in, whatever stands behind it. */
  method EncodeRawAsVec(ident: u64, serial: u64, data: seq<byte>, isCompressed: bool) returns (buffer: seq<byte>)
    requires Fits(ident, serial, data)
    ensures buffer == Encode(ident, serial, data, isCompressed)
    ensures forall rest :: Decode(buffer + rest) == Got(Decoded(ident, serial, data, isCompressed), rest)
  {
    var len := |data| + Leb128.EncodedLength(ident) + Leb128.EncodedLength(serial);
    // the flag is a bit that a length below 2^63 leaves clear, so that `|` adds it
    var maskedLen := if isCompressed then len + COMPRESSED_MASK else len;
    buffer := [];
    buffer := buffer + Leb128.Write(maskedLen);
    buffer := buffer + Leb128.Write(serial);
    buffer := buffer + Leb128.Write(ident);
    buffer := buffer + data;
    FrameIs(ident, serial, data, isCompressed, buffer);
    hide *;
    forall rest: seq<byte>
      ensures Decode(buffer + rest) == Got(Decoded(ident, serial, data, isCompressed), rest)
    {
      RoundTrip(ident, serial, data, isCompressed, rest);
    }
  }

  /** A number and part of what follows: cut inside the number, or behind it. */
  lemma CutBehind(v: u64, tail: seq<byte>, n: nat)
    requires n < |Leb128.Write(v)| + |tail|
    ensures var s := (Leb128.Write(v) + tail)[..n]; var m := |Leb128.Write(v)|;
      ReadU64(s) == if n < m then NeedMore else Got(v, tail[..n - m])
  {
    var w := Leb128.Write(v);
    hide ReadU64;
    if n < |w| {
      assert (w + tail)[..n] == w[..n];
      NumberCut(v, n);
    } else {
      assert (w + tail)[..n] == w + tail[..n - |w|];
      NumberReads(v, tail[..n - |w|]);
    }
  }

  /** Every proper prefix of a frame asks for more input. */
  lemma {:induction false} PrefixNeedsMore(ident: u64, serial: u64, data: seq<byte>, isCompressed: bool, n: nat)
    requires Fits(ident, serial, data) && n < |Encode(ident, serial, data, isCompressed)|
    ensures Decode(Encode(ident, serial, data, isCompressed)[..n]) == NeedMore
  {
    var len := MaskedLength(ident, serial, data, isCompressed);
    hide ReadU64, ReadData, MaskedLength, Fits;
    var l, s, i := |Leb128.Write(len)|, |Leb128.Write(serial)|, |Leb128.Write(ident)|;
    CutBehind(len, Leb128.Write(serial) + (Leb128.Write(ident) + data), n);
    if n >= l {
      CutBehind(serial, Leb128.Write(ident) + data, n - l);
      if n >= l + s {
        CutBehind(ident, data, n - l - s);
        if n >= l + s + i {
          DataReads(ident, serial, data, isCompressed, data[..n - l - s - i]);
        }
      }
    }
  }

  // ---- more input --------------------------------------------------------------------------------

  function Extended<T>(o: Outcome<T>, more: seq<byte>): Outcome<T> {
    match o
    case Got(v, rest) => Got(v, rest + more)
    case other => other
  }

  lemma NumberStays(s: seq<byte>, more: seq<byte>)
    requires !ReadU64(s).NeedMore?
    ensures ReadU64(s + more) == Extended(ReadU64(s), more)
  {
    Leb128.ReadStays(s, 0, more);
  }

  lemma DataStays(len: u64, serial: u64, ident: u64, s: seq<byte>, more: seq<byte>)
    requires !ReadData(len, serial, ident, s).NeedMore?
    ensures ReadData(len, serial, ident, s + more) == Extended(ReadData(len, serial, ident, s), more)
  {
    var r := ReadData(len, serial, ident, s);
    if r.Got? {
      var n := |s| - |r.rest|;
      assert (s + more)[..n] == s[..n] && (s + more)[n..] == s[n..] + more;
    }
  }

  /** A decision, once made, is not changed by bytes that arrive later. */
  lemma {:induction false} DecodeStays(s: seq<byte>, more: seq<byte>)
    requires !Decode(s).NeedMore?
    ensures Decode(s + more) == Extended(Decode(s), more)
  {
    hide ReadU64, ReadData;
    var len := ReadU64(s);
    NumberStays(s, more);
    if len.Got? {
      var serial := ReadU64(len.rest);
      NumberStays(len.rest, more);
      if serial.Got? {
        var ident := ReadU64(serial.rest);
        NumberStays(serial.rest, more);
        if ident.Got? {
          DataStays(len.value, serial.value, ident.value, ident.rest, more);
        }
      }
    }
  }
}
