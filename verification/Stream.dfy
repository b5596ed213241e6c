/** The incremental decoder of the mux protocol: a growing buffer, and why it does not matter how bytes arrive. */
module Stream {
  import opened Wrappers
  import opened Bytes
  import opened Frame

  /** A message: one of the known kinds, or the identifier of an unknown one. */
  datatype Pdu<P> = Invalid(ident: u64) | Message(payload: P)

  datatype DecodedPdu<P> = DecodedPdu(serial: u64, pdu: Pdu<P>)

  /** What deserialising the data of a frame gives; data that end early fail with an end-of-file error. */
  datatype Payload<P> = Value(value: P) | EndOfFile | Malformed

  /** The kinds of messages, with how their payloads are serialised, and perhaps compressed, and back. */
  datatype Codec<!P(!new)> = Codec(
    isKnown: u64 -> bool,
    kind: P -> u64,
    serialize: P -> (seq<byte>, bool),
    deserialize: (u64, seq<byte>, bool) -> Payload<P>)
  {
    /** Deserialising undoes serialising, and the frame has room for the data. */
    ghost predicate Inverts(serial: u64, p: P) {
      var (data, isCompressed) := serialize(p);
      isKnown(kind(p)) && deserialize(kind(p), data, isCompressed) == Value(p) && Fits(kind(p), serial, data)
    }

    /** The bytes that `encode` writes for a known message. */
    function EncodePdu(serial: u64, p: P): seq<byte>
      requires Inverts(serial, p)
    {
      var (data, isCompressed) := serialize(p);
      Encode(kind(p), serial, data, isCompressed)
    }

    /** One message from the front of `s`. */
    function DecodePdu(s: seq<byte>): (r: Outcome<DecodedPdu<P>>)
      ensures r.Got? ==> |r.rest| < |s| && r.rest == s[|s| - |r.rest|..]
    {
      var raw := Decode(s);
      if !raw.Got? then Failed(raw)
      else
        var d := raw.value;
        if !isKnown(d.ident) then Got(DecodedPdu(d.serial, Invalid(d.ident)), raw.rest)
        else
          match deserialize(d.ident, d.data, d.isCompressed)
          case Value(p) => Got(DecodedPdu(d.serial, Message(p)), raw.rest)
          // an end of file inside the data is taken for one of the input
          case EndOfFile => NeedMore
          case Malformed => Corrupt
    }
  }

  /** The receive buffer. */
  class ByteBuffer {
    var bytes: seq<byte>

    constructor ()
      ensures bytes == []
    {
      bytes := [];
    }
  }

  datatype Error = CorruptInput | EndOfStream | ReadFailed

  /** Takes one message off the front of the buffer, if a whole one is there. */
  method StreamDecode<P(!new)>(codec: Codec<P>, buffer: ByteBuffer) returns (r: Result<Option<DecodedPdu<P>>, Error>)
    modifies buffer
    ensures match codec.DecodePdu(old(buffer.bytes))
      case Got(d, rest) => r == Ok(Some(d)) && buffer.bytes == rest
      case NeedMore => r == Ok(None) && buffer.bytes == old(buffer.bytes)
      case Corrupt => r == Err(CorruptInput) && buffer.bytes == old(buffer.bytes)
  {
    match codec.DecodePdu(buffer.bytes)
    case Got(d, rest) =>
      var consumed := |buffer.bytes| - |rest|;
      buffer.bytes := buffer.bytes[consumed..];
      r := Ok(Some(d));
    case NeedMore => r := Ok(None);
    case Corrupt => r := Err(CorruptInput);
  }

  /** What one read gives; no bytes at all mean the end of the stream. */
  datatype Event = Chunk(bytes: seq<byte>) | WouldBlock | Broken

  /** The reads to come; when none is left, the next would block. */
  class Reader {
    var events: seq<Event>

    constructor (events: seq<Event>)
      ensures this.events == events
    {
      this.events := events;
    }

    method Read() returns (e: Event)
      modifies this
      ensures old(events) == [] ==> e == WouldBlock && events == []
      ensures old(events) != [] ==> e == old(events)[0] && events == old(events)[1..]
    {
      if events == [] {
        e := WouldBlock;
      } else {
        e := events[0];
        events := events[1..];
      }
    }
  }

  /** A call's outcome, what is left in the buffer, and the reads still to come. */
  datatype Attempt<P> = Attempt(outcome: Result<Option<DecodedPdu<P>>, Error>, bytes: seq<byte>, events: seq<Event>)

  function Try<P(!new)>(codec: Codec<P>, bytes: seq<byte>, events: seq<Event>): (a: Attempt<P>)
    ensures |a.events| <= |events|
    ensures a.outcome.Ok? && a.outcome.value.Some? ==> |a.events| < |events| || |a.bytes| < |bytes|
    ensures a.outcome.Ok? && a.outcome.value.None? && events != [] ==> |a.events| < |events|
    decreases |events|
  {
    match codec.DecodePdu(bytes)
    case Got(d, rest) => Attempt(Ok(Some(d)), rest, events)
    case Corrupt => Attempt(Err(CorruptInput), bytes, events)
    case NeedMore =>
      if events == [] then Attempt(Ok(None), bytes, [])
      else
        match events[0]
        case Chunk(b) => if b == [] then Attempt(Err(EndOfStream), bytes, events[1..])
          else Try(codec, bytes + b, events[1..])
        case WouldBlock => Attempt(Ok(None), bytes, events[1..])
        case Broken => Attempt(Err(ReadFailed), bytes, events[1..])
  }

  method TryReadAndDecode<P(!new)>(codec: Codec<P>, reader: Reader, buffer: ByteBuffer)
    returns (r: Result<Option<DecodedPdu<P>>, Error>)
    modifies reader, buffer
    ensures Attempt(r, buffer.bytes, reader.events) == Try(codec, old(buffer.bytes), old(reader.events))
  {
    while true
      invariant Try(codec, buffer.bytes, reader.events) == Try(codec, old(buffer.bytes), old(reader.events))
      decreases |reader.events|
    {
      var decoded :- StreamDecode(codec, buffer);
      if decoded.Some? {
        return Ok(decoded);
      }
      var event := reader.Read();
      match event
      case WouldBlock => return Ok(None);
      case Broken => return Err(ReadFailed);
      case Chunk(bytes) =>
        if |bytes| == 0 {
          return Err(EndOfStream);
        }
        buffer.bytes := buffer.bytes + bytes;
    }
  }
}
