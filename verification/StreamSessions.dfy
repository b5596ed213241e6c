/** Whole sessions of the incremental decoder: the messages do not depend on how the bytes were cut into reads. */
module StreamSessions {
  import opened Wrappers
  import opened Bytes
  import opened Frame
  import opened Stream

  /** The messages in a byte string, and the bytes after the last whole one. */
  datatype Split<P> = Split(pdus: seq<DecodedPdu<P>>, rest: seq<byte>, isCorrupt: bool)

  /** Decoding a byte string that is all there: the reference. */
  function DecodeAll<P(!new)>(codec: Codec<P>, s: seq<byte>): Split<P>
    decreases |s|
  {
    match codec.DecodePdu(s)
    case Got(d, rest) =>
      var more := DecodeAll(codec, rest);
      Split([d] + more.pdus, more.rest, more.isCorrupt)
    case NeedMore => Split([], s, false)
    case Corrupt => Split([], s, true)
  }

  /** What calling the decoder again and again gives, until it fails or no read is left. */
  datatype Transcript<P> = Transcript(pdus: seq<DecodedPdu<P>>, bytes: seq<byte>, unread: seq<Event>,
    error: Option<Error>)

  function Session<P(!new)>(codec: Codec<P>, bytes: seq<byte>, events: seq<Event>): Transcript<P>
    decreases |events|, |bytes|
  {
    var a := Try(codec, bytes, events);
    if a.outcome.Err? then Transcript([], a.bytes, a.events, Some(a.outcome.error))
    else if a.outcome.value.Some? then
      var t := Session(codec, a.bytes, a.events);
      t.(pdus := [a.outcome.value.value] + t.pdus)
    else if events == [] then Transcript([], a.bytes, [], None)
    else Session(codec, a.bytes, a.events)
  }

  function Ends(e: Event): Option<Error> {
    if e == Chunk([]) then Some(EndOfStream) else if e.Broken? then Some(ReadFailed) else None
  }

  /** The bytes that arrive before the stream ends or breaks. */
  function Received(events: seq<Event>): seq<byte> {
    if events == [] || Ends(events[0]).Some? then []
    else (if events[0].Chunk? then events[0].bytes else []) + Received(events[1..])
  }

  /** How the stream ends, if it does. */
  function Ending(events: seq<Event>): Option<Error> {
    if events == [] then None else if Ends(events[0]).Some? then Ends(events[0]) else Ending(events[1..])
  }

  lemma ExtendedIs<T>(o: Outcome<T>, more: seq<byte>)
    ensures o.Got? ==> Extended(o, more) == Got(o.value, o.rest + more)
    ensures !o.Got? ==> Extended(o, more) == o
  {
  }

  lemma PduStays<P(!new)>(codec: Codec<P>, s: seq<byte>, more: seq<byte>)
    requires !codec.DecodePdu(s).NeedMore?
    ensures codec.DecodePdu(s + more) == Extended(codec.DecodePdu(s), more)
  {
    hide Decode, Extended;
    DecodeStays(s, more);
    ExtendedIs(Decode(s), more);
    ExtendedIs(codec.DecodePdu(s), more);
  }

  /** One call, seen from the bytes still to come. */
  lemma {:induction false} TryIs<P(!new)>(codec: Codec<P>, bytes: seq<byte>, events: seq<Event>)
    ensures var a, all := Try(codec, bytes, events), bytes + Received(events);
      match a.outcome
      case Ok(Some(d)) => codec.DecodePdu(all) == Got(d, a.bytes + Received(a.events)) &&
        Ending(a.events) == Ending(events)
      case Ok(None) => codec.DecodePdu(a.bytes) == NeedMore && a.bytes + Received(a.events) == all &&
        Ending(a.events) == Ending(events)
      case Err(e) =>
        if e == CorruptInput then codec.DecodePdu(all) == Corrupt && a.bytes + Received(a.events) == all
        else codec.DecodePdu(a.bytes) == NeedMore && a.bytes == all && Ending(events) == Some(e)
    decreases |events|
  {
    hide Codec.DecodePdu;
    var r := codec.DecodePdu(bytes);
    if !r.NeedMore? {
      PduStays(codec, bytes, Received(events));
    } else if events != [] && Ends(events[0]).None? && events[0].Chunk? {
      assert bytes + (events[0].bytes + Received(events[1..])) == bytes + events[0].bytes + Received(events[1..]);
      TryIs(codec, bytes + events[0].bytes, events[1..]);
    }
  }

  /**
    * How bytes arrive does not matter: a session delivers the messages that decoding all received bytes at once
    * finds, fails where that finds corrupt input or else as the stream ends, and keeps exactly the bytes after the
    * last whole message.
    */
  lemma {:induction false} ChunkingDoesNotMatter<P(!new)>(codec: Codec<P>, bytes: seq<byte>, events: seq<Event>)
    ensures var t, all := Session(codec, bytes, events), DecodeAll(codec, bytes + Received(events));
      && t.pdus == all.pdus
      && t.error == (if all.isCorrupt then Some(CorruptInput) else Ending(events))
      && (if all.isCorrupt then t.bytes + Received(t.unread) else t.bytes) == all.rest
    decreases |events|, |bytes|
  {
    TryIs(codec, bytes, events);
    var a := Try(codec, bytes, events);
    hide Try, Codec.DecodePdu;
    assert a.bytes + [] == a.bytes;
    if a.outcome.Ok? && (a.outcome.value.Some? || events != []) {
      ChunkingDoesNotMatter(codec, a.bytes, a.events);
    }
  }

  /** Two ways to cut the same bytes deliver the same messages and leave the same bytes. */
  lemma {:induction false} AnyTwoCutsAgree<P(!new)>(codec: Codec<P>, events: seq<Event>, events': seq<Event>)
    requires Received(events) == Received(events') && Ending(events) == Ending(events')
    ensures var t, t' := Session(codec, [], events), Session(codec, [], events');
      t.pdus == t'.pdus && t.error == t'.error && (t.error != Some(CorruptInput) ==> t.bytes == t'.bytes)
  {
    ChunkingDoesNotMatter(codec, [], events);
    ChunkingDoesNotMatter(codec, [], events');
  }

  // ---- encoded messages --------------------------------------------------------------------------

  /** A message of a known kind, or the frame of a kind that the receiver does not know. */
  datatype Outgoing<P> =
    | Known(serial: u64, payload: P)
    | Unknown(serial: u64, ident: u64, data: seq<byte>, isCompressed: bool)

  ghost predicate IsSendable<P(!new)>(codec: Codec<P>, m: Outgoing<P>) {
    match m
    case Known(serial, p) => codec.Inverts(serial, p)
    case Unknown(serial, ident, data, _) => !codec.isKnown(ident) && Fits(ident, serial, data)
  }

  ghost predicate AllSendable<P(!new)>(codec: Codec<P>, messages: seq<Outgoing<P>>) {
    forall k :: 0 <= k < |messages| ==> IsSendable(codec, messages[k])
  }

  function FrameOf<P(!new)>(codec: Codec<P>, m: Outgoing<P>): seq<byte>
    requires IsSendable(codec, m)
  {
    match m
    case Known(serial, p) => codec.EncodePdu(serial, p)
    case Unknown(serial, ident, data, isCompressed) => Encode(ident, serial, data, isCompressed)
  }

  /** The frames of the messages, one after the other. */
  function Wire<P(!new)>(codec: Codec<P>, messages: seq<Outgoing<P>>): seq<byte>
    requires AllSendable(codec, messages)
  {
    if messages == [] then [] else FrameOf(codec, messages[0]) + Wire(codec, messages[1..])
  }

  /** What arrives of a message: an unknown kind with its identifier, and either with its serial. */
  function Delivered<P>(m: Outgoing<P>): DecodedPdu<P> {
    DecodedPdu(m.serial, if m.Known? then Message(m.payload) else Invalid(m.ident))
  }

  function Incoming<P>(messages: seq<Outgoing<P>>): (r: seq<DecodedPdu<P>>)
    ensures |r| == |messages| && forall k :: 0 <= k < |r| ==> r[k] == Delivered(messages[k])
  {
    seq(|messages|, k requires 0 <= k < |messages| => Delivered(messages[k]))
  }

  lemma {:induction false} PduRoundTrip<P(!new)>(codec: Codec<P>, m: Outgoing<P>, rest: seq<byte>)
    requires IsSendable(codec, m)
    ensures codec.DecodePdu(FrameOf(codec, m) + rest) == Got(Delivered(m), rest)
  {
    hide Encode, Decode, Fits;
    match m
    case Known(serial, p) =>
      var (data, isCompressed) := codec.serialize(p);
      RoundTrip(codec.kind(p), serial, data, isCompressed, rest);
    case Unknown(serial, ident, data, isCompressed) => RoundTrip(ident, serial, data, isCompressed, rest);
  }

  lemma PduPrefix<P(!new)>(codec: Codec<P>, m: Outgoing<P>, n: nat)
    requires IsSendable(codec, m) && n < |FrameOf(codec, m)|
    ensures codec.DecodePdu(FrameOf(codec, m)[..n]) == NeedMore
  {
    hide Encode, Decode, Fits;
    match m
    case Known(serial, p) =>
      var (data, isCompressed) := codec.serialize(p);
      PrefixNeedsMore(codec.kind(p), serial, data, isCompressed, n);
    case Unknown(serial, ident, data, isCompressed) => PrefixNeedsMore(ident, serial, data, isCompressed, n);
  }

  ghost predicate IsCut<P(!new)>(codec: Codec<P>, part: seq<byte>, m: Outgoing<P>, n: nat) {
    IsSendable(codec, m) && n < |FrameOf(codec, m)| && part == FrameOf(codec, m)[..n]
  }

  /** The part of a frame that has arrived behind whole messages: nothing, or a proper prefix of the next frame. */
  ghost predicate IsPart<P(!new)>(codec: Codec<P>, part: seq<byte>) {
    part == [] || exists m, n: nat :: IsCut(codec, part, m, n)
  }

  lemma PartNeedsMore<P(!new)>(codec: Codec<P>, part: seq<byte>)
    requires IsPart(codec, part)
    ensures codec.DecodePdu(part) == NeedMore
  {
    if part != [] {
      var m, n: nat :| IsCut(codec, part, m, n);
      PduPrefix(codec, m, n);
    }
  }

  lemma {:induction false} WireDecodes<P(!new)>(codec: Codec<P>, messages: seq<Outgoing<P>>, tail: seq<byte>)
    requires AllSendable(codec, messages) && codec.DecodePdu(tail) == NeedMore
    ensures DecodeAll(codec, Wire(codec, messages) + tail) == Split(Incoming(messages), tail, false)
  {
    hide Codec.DecodePdu, FrameOf, IsSendable;
    if messages == [] {
      assert Wire(codec, messages) + tail == tail;
    } else {
      var first, others := messages[0], Wire(codec, messages[1..]);
      var frame := FrameOf(codec, first);
      assert frame + others + tail == frame + (others + tail);
      PduRoundTrip(codec, first, others + tail);
      WireDecodes(codec, messages[1..], tail);
      assert Incoming(messages) == [Delivered(first)] + Incoming(messages[1..]);
    }
  }

  /**
    * However the frames of some messages, of known kinds and others, and perhaps part of one more, are cut into reads:
    * exactly those messages and serials are delivered, in order and once each, a frame of an unknown kind as its
    * identifier, and the buffer holds exactly the part.
    */
  lemma {:induction false} ExactlyTheMessages<P(!new)>(codec: Codec<P>, messages: seq<Outgoing<P>>, part: seq<byte>,
    events: seq<Event>)
    requires AllSendable(codec, messages) && IsPart(codec, part)
    requires Received(events) == Wire(codec, messages) + part
    ensures var t := Session(codec, [], events);
      t.pdus == Incoming(messages) && t.bytes == part && t.error == Ending(events)
  {
    PartNeedsMore(codec, part);
    WireDecodes(codec, messages, part);
    ChunkingDoesNotMatter(codec, [], events);
    assert [] + Received(events) == Received(events);
  }

  // ---- payloads that end early -------------------------------------------------------------------

  /** A whole frame of a known kind whose data end before the payload does. */
  ghost predicate IsStalled<P(!new)>(codec: Codec<P>, s: seq<byte>) {
    var raw := Decode(s);
    raw.Got? && codec.isKnown(raw.value.ident)
      && codec.deserialize(raw.value.ident, raw.value.data, raw.value.isCompressed) == EndOfFile
  }

  /** The decoder asks for more input exactly when the frame is not whole, or is stalled. */
  lemma {:induction false} NeedsMoreExactly<P(!new)>(codec: Codec<P>, s: seq<byte>)
    ensures codec.DecodePdu(s).NeedMore? <==> Decode(s).NeedMore? || IsStalled(codec, s)
  {
    hide Decode;
  }

  lemma {:induction false} FrameStalls<P(!new)>(
    codec: Codec<P>, ident: u64, serial: u64, data: seq<byte>, isCompressed: bool, more: seq<byte>)
    requires Fits(ident, serial, data) && codec.isKnown(ident)
    requires codec.deserialize(ident, data, isCompressed) == EndOfFile
    ensures IsStalled(codec, Encode(ident, serial, data, isCompressed) + more)
  {
    hide Decode, Encode, Fits;
    RoundTrip(ident, serial, data, isCompressed, more);
  }

  /** A frame of a known kind whose data cannot be deserialised, but do not end early, is an error at once. */
  lemma {:induction false} MalformedFails<P(!new)>(
    codec: Codec<P>, ident: u64, serial: u64, data: seq<byte>, isCompressed: bool, more: seq<byte>)
    requires Fits(ident, serial, data) && codec.isKnown(ident)
    requires codec.deserialize(ident, data, isCompressed) == Malformed
    ensures codec.DecodePdu(Encode(ident, serial, data, isCompressed) + more) == Corrupt
  {
    hide Decode, Encode, Fits;
    RoundTrip(ident, serial, data, isCompressed, more);
  }

  /** No input behind a stalled frame is ever decoded. */
  lemma {:induction false} StallsForGood<P(!new)>(codec: Codec<P>, s: seq<byte>, more: seq<byte>)
    requires IsStalled(codec, s)
    ensures IsStalled(codec, s + more) && codec.DecodePdu(s + more) == NeedMore
  {
    hide Decode, Extended;
    DecodeStays(s, more);
    ExtendedIs(Decode(s), more);
  }

  /**
    * A stalled frame behind some messages blocks the session: the messages arrive, nothing after them does, whatever
    * follows and however it is cut into reads, no error is reported, and every byte from the frame on is kept.
    */
  lemma {:induction false} StalledSession<P(!new)>(
    codec: Codec<P>, messages: seq<Outgoing<P>>, frame: seq<byte>, more: seq<byte>, events: seq<Event>)
    requires AllSendable(codec, messages) && IsStalled(codec, frame)
    requires Received(events) == Wire(codec, messages) + (frame + more)
    ensures var t := Session(codec, [], events);
      t.pdus == Incoming(messages) && t.bytes == frame + more && t.error == Ending(events)
  {
    StallsForGood(codec, frame, more);
    WireDecodes(codec, messages, frame + more);
    ChunkingDoesNotMatter(codec, [], events);
    assert [] + Received(events) == Received(events);
  }
}
