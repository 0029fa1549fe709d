/** The Browser agent bridge's length-prefixed frames
    (crates/codex-platform/src/browser_agent.rs, `encode_message`, `decode_messages` and the
    reads, writes and queue of `BridgeClient`).

    JSON is a parameter: a renderer and a partial parser. So is the machine's byte order. */
module FrameCodec {

  import opened Bytes
  import opened Numbers
  import opened Wrappers
  import opened Sequences

  const MAX_BROWSER_AGENT_FRAME_BYTES: nat := 8 * 1024 * 1024
  const MAX_QUEUED_WRITE_BYTES: nat := 16 * 1024 * 1024
  const MAX_CLIENT_FRAMES_PER_TICK: nat := 8
  const MAX_CLIENT_READS_PER_TICK: nat := 8
  const SOCKET_WRITE_CHUNK_BYTES: nat := 64 * 1024

  /** The value syntax (`render`, `parse`) and the four-byte length (`header`, `length`). */
  datatype Codec<!V> = Codec(
    render: V -> seq<byte>, parse: seq<byte> -> Option<V>,
    header: nat -> seq<byte>, length: seq<byte> -> nat)

  /** The parser undoes the renderer, and the length is read back from its four bytes. */
  ghost predicate Inverse<V(!new)>(c: Codec<V>) {
    && (forall v :: c.parse(c.render(v)) == Some(v))
    && (forall n: nat :: n < 0x1_0000_0000 ==> |c.header(n)| == 4 && c.length(c.header(n)) == n)
  }

  datatype DecodeError = FrameTooLarge | InvalidJson

  // ----- the four-byte length, in the machine's own byte order -----

  function LittleEndian(length: nat): seq<byte> {
    [(length % 0x100) as byte, (length / 0x100 % 0x100) as byte,
     (length / 0x1_0000 % 0x100) as byte, (length / 0x100_0000 % 0x100) as byte]
  }

  function FromLittleEndian(b: seq<byte>): nat {
    if |b| != 4 then 0
    else b[0] as nat + 0x100 * b[1] as nat + 0x1_0000 * b[2] as nat + 0x100_0000 * b[3] as nat
  }

  function Reversed(b: seq<byte>): seq<byte> {
    if b == [] then [] else Reversed(b[1..]) + [b[0]]
  }

  function NativeCodec<V>(bigEndian: bool, render: V -> seq<byte>, parse: seq<byte> -> Option<V>): Codec<V> {
    if bigEndian
    then Codec(render, parse, (n: nat) => Reversed(LittleEndian(n)), (b: seq<byte>) => FromLittleEndian(Reversed(b)))
    else Codec(render, parse, LittleEndian, FromLittleEndian)
  }

  // Both byte orders read back the length they wrote.
  lemma NativeCodecIsInverse<V(!new)>(bigEndian: bool, render: V -> seq<byte>, parse: seq<byte> -> Option<V>)
    requires forall v :: parse(render(v)) == Some(v)
    ensures Inverse(NativeCodec(bigEndian, render, parse))
  {
    var c := NativeCodec(bigEndian, render, parse);
    forall n: nat | n < 0x1_0000_0000
      ensures |c.header(n)| == 4 && c.length(c.header(n)) == n
    {
      LengthRoundTrip(n);
    }
  }

  /** The length in the machine's byte order: the low byte first, or last. */
  lemma NativeHeaderIs<V>(bigEndian: bool, render: V -> seq<byte>, parse: seq<byte> -> Option<V>, n: nat)
    requires n < 0x1_0000_0000
    ensures var header := NativeCodec(bigEndian, render, parse).header(n);
            && |header| == 4
            && header[if bigEndian then 3 else 0] as nat == n % 0x100
            && header[if bigEndian then 2 else 1] as nat == n / 0x100 % 0x100
            && header[if bigEndian then 1 else 2] as nat == n / 0x1_0000 % 0x100
            && header[if bigEndian then 0 else 3] as nat == n / 0x100_0000
  {
    var b := LittleEndian(n);
    FourReversed(b[0], b[1], b[2], b[3]);
    assert b == [b[0], b[1], b[2], b[3]];
  }

  lemma LengthRoundTrip(n: nat)
    requires n < 0x1_0000_0000
    ensures FromLittleEndian(LittleEndian(n)) == n
    ensures |Reversed(LittleEndian(n))| == 4 && Reversed(Reversed(LittleEndian(n))) == LittleEndian(n)
  {
    var b := LittleEndian(n);
    FourReversed(b[0], b[1], b[2], b[3]);
    FourReversed(b[3], b[2], b[1], b[0]);
    assert b == [b[0], b[1], b[2], b[3]];
    Digits(n);
  }

  lemma FourReversed(w: byte, x: byte, y: byte, z: byte)
    ensures Reversed([w, x, y, z]) == [z, y, x, w]
  {
    assert [w, x, y, z][1..] == [x, y, z] && [x, y, z][1..] == [y, z] && [y, z][1..] == [z];
    assert Reversed([z]) == [z];
    assert Reversed([y, z]) == [z, y];
    assert Reversed([x, y, z]) == [z, y, x];
  }

  lemma Digits(n: nat)
    requires n < 0x1_0000_0000
    ensures n == n % 0x100 + 0x100 * (n / 0x100 % 0x100) + 0x1_0000 * (n / 0x1_0000 % 0x100)
                 + 0x100_0000 * (n / 0x100_0000 % 0x100)
  {
    var high := n / 0x100;
    var higher := n / 0x1_0000;
    assert high / 0x100 == higher;
    assert higher / 0x100 == n / 0x100_0000;
  }

  // ----- frames -----

  predicate Encodable<V>(c: Codec<V>, v: V) {
    |c.render(v)| <= MAX_BROWSER_AGENT_FRAME_BYTES
  }

  ghost predicate AllEncodable<V>(c: Codec<V>, messages: seq<V>) {
    forall i :: 0 <= i < |messages| ==> Encodable(c, messages[i])
  }

  function Encode<V>(c: Codec<V>, v: V): Option<seq<byte>> {
    if Encodable(c, v)
    then Some(c.header(|c.render(v)|) + c.render(v))
    else None
  }

  /** The stream that carries the given messages one after the other. */
  ghost function Stream<V>(c: Codec<V>, messages: seq<V>): seq<byte>
    requires AllEncodable(c, messages)
  {
    if messages == [] then []
    else Encode(c, messages[0]).value + Stream(c, messages[1..])
  }

  lemma {:induction false} StreamConcat<V>(c: Codec<V>, first: seq<V>, second: seq<V>)
    requires AllEncodable(c, first) && AllEncodable(c, second)
    ensures AllEncodable(c, first + second)
    ensures Stream(c, first + second) == Stream(c, first) + Stream(c, second)
  {
    if first == [] {
      assert first + second == second;
    } else {
      assert (first + second)[1..] == first[1..] + second;
      StreamConcat(c, first[1..], second);
    }
  }

  /** What `decode_messages` finds at the head of its buffer. */
  datatype Head = Incomplete | Oversized | Frame(length: nat)

  function HeadOf<V>(c: Codec<V>, buffer: seq<byte>): (head: Head)
    ensures head.Frame? ==> head.length + 4 <= |buffer|
  {
    if |buffer| < 4 then Incomplete
    else
      var length := c.length(buffer[..4]);
      if length > MAX_BROWSER_AGENT_FRAME_BYTES then Oversized
      else if |buffer| < length + 4 then Incomplete
      else Frame(length)
  }

  /** The messages decoded, or the error that hides them, and the buffer left behind. */
  function Decoded<V>(c: Codec<V>, buffer: seq<byte>, limit: nat): (Result<seq<V>, DecodeError>, seq<byte>)
    decreases limit
  {
    if limit == 0 then (Ok([]), buffer)
    else
      match HeadOf(c, buffer)
      case Incomplete => (Ok([]), buffer)
      case Oversized => (Err(FrameTooLarge), buffer)
      case Frame(length) =>
        match c.parse(buffer[4..length + 4])
        case None => (Err(InvalidJson), buffer[length + 4..])
        case Some(v) =>
          var (rest, left) := Decoded(c, buffer[length + 4..], limit - 1);
          match rest
          case Ok(messages) => (Ok([v] + messages), left)
          case Err(e) => (Err(e), left)
  }

  lemma HeadOfFrame<V(!new)>(c: Codec<V>, v: V, rest: seq<byte>)
    requires Inverse(c) && Encodable(c, v)
    ensures var buffer := Encode(c, v).value + rest; var length := |c.render(v)|;
            && HeadOf(c, buffer) == Frame(length)
            && buffer[4..length + 4] == c.render(v)
            && buffer[length + 4..] == rest
  {
    var payload := c.render(v);
    var header := c.header(|payload|);
    var buffer := Encode(c, v).value + rest;
    assert buffer == header + (payload + rest);
    assert buffer[..4] == header;
  }

  // A proper prefix of one frame is never taken for a frame, nor for an oversized one.
  lemma HeadOfPartialFrame<V(!new)>(c: Codec<V>, v: V, buffer: seq<byte>)
    requires Inverse(c) && Encodable(c, v)
    requires buffer <= Encode(c, v).value && buffer != Encode(c, v).value
    ensures HeadOf(c, buffer).Incomplete?
  {
    var frame := Encode(c, v).value;
    if |buffer| >= 4 {
      assert buffer[..4] == frame[..4] == c.header(|c.render(v)|);
      assert |buffer| < |frame|;
    }
  }

  lemma DecodeOne<V(!new)>(c: Codec<V>, v: V, rest: seq<byte>, limit: nat)
    requires Inverse(c) && Encodable(c, v) && limit > 0
    ensures var (more, left) := Decoded(c, rest, limit - 1);
            Decoded(c, Encode(c, v).value + rest, limit) ==
              (match more case Ok(messages) => Ok([v] + messages) case Err(e) => Err(e), left)
  {
    HeadOfFrame(c, v, rest);
  }

  /** A header that announces more than eight mebibytes fails the connection once the messages
      before it are decoded, and stays in the buffer. */
  lemma {:induction false} OversizedFrameFails<V(!new)>(
    c: Codec<V>, messages: seq<V>, header: seq<byte>, rest: seq<byte>, limit: nat)
    requires Inverse(c) && AllEncodable(c, messages) && |messages| < limit
    requires |header| == 4 && c.length(header) > 8 * 1024 * 1024
    ensures Decoded(c, Stream(c, messages) + (header + rest), limit) == (Err(FrameTooLarge), header + rest)
  {
    if messages == [] {
      assert [] + (header + rest) == header + rest && (header + rest)[..4] == header;
    } else {
      OversizedFrameFails(c, messages[1..], header, rest, limit - 1);
      Regroup(Encode(c, messages[0]).value, Stream(c, messages[1..]), header + rest);
      DecodeOne(c, messages[0], Stream(c, messages[1..]) + (header + rest), limit);
    }
  }

  lemma UnparsableHead<V>(c: Codec<V>, header: seq<byte>, payload: seq<byte>, rest: seq<byte>, limit: nat)
    requires limit > 0 && |header| == 4 && c.length(header) == |payload| <= 8 * 1024 * 1024 && c.parse(payload).None?
    ensures Decoded(c, header + (payload + rest), limit) == (Err(InvalidJson), rest)
  {
    var frame := header + (payload + rest);
    assert frame[..4] == header;
    assert frame[4..|payload| + 4] == payload && frame[|payload| + 4..] == rest;
  }

  /** So does a whole frame whose payload does not parse, which is gone from the buffer. */
  lemma {:induction false} UnparsableFrameFails<V(!new)>(
    c: Codec<V>, messages: seq<V>, header: seq<byte>, payload: seq<byte>, rest: seq<byte>, limit: nat)
    requires Inverse(c) && AllEncodable(c, messages) && |messages| < limit
    requires |header| == 4 && c.length(header) == |payload| <= 8 * 1024 * 1024 && c.parse(payload).None?
    ensures Decoded(c, Stream(c, messages) + (header + (payload + rest)), limit) == (Err(InvalidJson), rest)
  {
    var frame := header + (payload + rest);
    if messages == [] {
      assert [] + frame == frame;
      UnparsableHead(c, header, payload, rest, limit);
    } else {
      UnparsableFrameFails(c, messages[1..], header, payload, rest, limit - 1);
      Regroup(Encode(c, messages[0]).value, Stream(c, messages[1..]), frame);
      DecodeOne(c, messages[0], Stream(c, messages[1..]) + frame, limit);
    }
  }

  /** `stream` was cut after its first `count` messages: `left` begins what follows them. */
  ghost predicate Consumed<V>(c: Codec<V>, messages: seq<V>, buffer: seq<byte>, count: nat, left: seq<byte>)
    requires AllEncodable(c, messages)
  {
    && count <= |messages|
    && buffer == Stream(c, messages[..count]) + left
    && left <= Stream(c, messages[count..])
  }

  lemma NothingConsumed<V>(c: Codec<V>, messages: seq<V>, buffer: seq<byte>)
    requires AllEncodable(c, messages) && buffer <= Stream(c, messages)
    ensures Consumed(c, messages, buffer, 0, buffer)
  {
    assert messages[0..] == messages;
    assert Stream(c, messages[..0]) + buffer == buffer;
  }

  lemma ConsumedMore<V>(c: Codec<V>, messages: seq<V>, buffer: seq<byte>, first: nat, middle: seq<byte>,
                        arrived: seq<byte>, more: nat, left: seq<byte>)
    requires AllEncodable(c, messages)
    requires Consumed(c, messages, buffer, first, middle)
    requires Consumed(c, messages[first..], middle + arrived, more, left)
    ensures Consumed(c, messages, buffer + arrived, first + more, left)
    ensures messages[..first] + messages[first..][..more] == messages[..first + more]
  {
    var head, tail := messages[..first], messages[first..][..more];
    SliceOfSlice(messages, first, more);
    StreamConcat(c, head, tail);
    Regroup(Stream(c, head), middle, arrived);
    Regroup(Stream(c, head), Stream(c, tail), left);
  }

  // What follows the consumed part still fits the rest of the stream when more bytes arrive.
  lemma ArrivalFits<V>(c: Codec<V>, messages: seq<V>, buffer: seq<byte>, count: nat, left: seq<byte>,
                       arriving: seq<byte>)
    requires AllEncodable(c, messages)
    requires Consumed(c, messages, buffer, count, left) && buffer + arriving <= Stream(c, messages)
    ensures left + arriving <= Stream(c, messages[count..])
  {
    var taken := Stream(c, messages[..count]);
    assert messages == messages[..count] + messages[count..];
    StreamConcat(c, messages[..count], messages[count..]);
    assert buffer + arriving == taken + (left + arriving);
    SuffixOfPrefix(taken, left + arriving, Stream(c, messages[count..]));
  }

  lemma SuffixOfPrefix(head: seq<byte>, tail: seq<byte>, whole: seq<byte>)
    requires head + tail <= head + whole
    ensures tail <= whole
  {
    assert tail == (head + tail)[|head|..] && whole == (head + whole)[|head|..];
  }

  /** Of the messages whose frames `buffer` holds the first `count` are decoded, up to the limit,
      and exactly the bytes after them are left. */
  ghost predicate Decodes<V>(c: Codec<V>, messages: seq<V>, buffer: seq<byte>, limit: nat, count: nat)
    requires AllEncodable(c, messages)
  {
    var (result, left) := Decoded(c, buffer, limit);
    && count <= |messages| && count <= limit
    && result == Ok(messages[..count])
    && Consumed(c, messages, buffer, count, left)
    && (count < limit ==> HeadOf(c, left).Incomplete?)
  }

  /** Decoding any prefix of a stream yields the messages whose frames it holds in full, up to
      the limit, and leaves exactly the bytes after them. */
  lemma {:induction false} DecodePrefix<V(!new)>(c: Codec<V>, messages: seq<V>, buffer: seq<byte>, limit: nat)
    returns (count: nat)
    requires Inverse(c) && AllEncodable(c, messages)
    requires buffer <= Stream(c, messages)
    ensures Decodes(c, messages, buffer, limit, count)
    decreases |messages|
  {
    if limit == 0 || messages == [] {
      count := 0;
      NothingConsumed(c, messages, buffer);
    } else if |buffer| < |Encode(c, messages[0]).value| {
      count := 0;
      HeadOfPartialFrame(c, messages[0], buffer);
      NothingConsumed(c, messages, buffer);
    } else {
      var tail := FirstFrame(c, messages, buffer);
      var more := DecodePrefix(c, messages[1..], tail, limit - 1);
      count := more + 1;
      OneFrameMore(c, messages, tail, limit, more);
    }
  }

  lemma OneFrameMore<V(!new)>(c: Codec<V>, messages: seq<V>, tail: seq<byte>, limit: nat, more: nat)
    requires Inverse(c) && AllEncodable(c, messages) && messages != [] && limit > 0
    requires var frame := Encode(c, messages[0]).value; Consumed(c, messages, frame, 1, [])
    requires Decodes(c, messages[1..], tail, limit - 1, more)
    ensures Decodes(c, messages, Encode(c, messages[0]).value + tail, limit, more + 1)
  {
    var frame := Encode(c, messages[0]).value;
    var left := Decoded(c, tail, limit - 1).1;
    DecodeCompose(c, messages, tail, limit, more, left);
    assert [] + tail == tail;
    ConsumedMore(c, messages, frame, 1, [], tail, more, left);
  }

  lemma DecodeCompose<V(!new)>(c: Codec<V>, messages: seq<V>, tail: seq<byte>, limit: nat, more: nat, left: seq<byte>)
    requires Inverse(c) && messages != [] && Encodable(c, messages[0]) && limit > 0 && more < |messages|
    requires Decoded(c, tail, limit - 1) == (Ok(messages[1..][..more]), left)
    ensures Decoded(c, Encode(c, messages[0]).value + tail, limit) == (Ok(messages[..more + 1]), left)
  {
    HeadOfFrame(c, messages[0], tail);
    SliceOfSlice(messages, 1, more);
    assert messages[..1] == [messages[0]];
  }

  lemma FirstFrame<V>(c: Codec<V>, messages: seq<V>, buffer: seq<byte>) returns (tail: seq<byte>)
    requires messages != [] && AllEncodable(c, messages)
    requires buffer <= Stream(c, messages) && |Encode(c, messages[0]).value| <= |buffer|
    ensures var frame := Encode(c, messages[0]).value;
            && buffer == frame + tail && [] + tail == tail
            && tail <= Stream(c, messages[1..])
            && Consumed(c, messages, frame, 1, [])
    ensures messages[..1] == [messages[0]]
  {
    var frame := Encode(c, messages[0]).value;
    tail := buffer[|frame|..];
    assert buffer == frame + tail;
    SuffixOfPrefix(frame, tail, Stream(c, messages[1..]));
    assert messages[..1] == [messages[0]] && messages[..1][1..] == [];
    assert Stream(c, messages[..1]) == frame + Stream(c, []);
  }

  // ----- any chunks, any limits -----

  datatype Tick = Tick(chunk: seq<byte>, limit: nat)

  /** Bytes arrive in chunks and the buffer is decoded after each of them. */
  function Ticks<V>(c: Codec<V>, buffer: seq<byte>, ticks: seq<Tick>): (Result<seq<V>, DecodeError>, seq<byte>)
    decreases |ticks|
  {
    if ticks == [] then (Ok([]), buffer)
    else
      var (first, left) := Decoded(c, buffer + ticks[0].chunk, ticks[0].limit);
      match first
      case Err(e) => (Err(e), left)
      case Ok(messages) =>
        var (rest, end) := Ticks(c, left, ticks[1..]);
        match rest
        case Err(e) => (Err(e), end)
        case Ok(more) => (Ok(messages + more), end)
  }

  function Chunks(ticks: seq<Tick>): seq<byte> {
    if ticks == [] then [] else ticks[0].chunk + Chunks(ticks[1..])
  }

  lemma ChunkArrives(buffer: seq<byte>, chunk: seq<byte>, later: seq<byte>, stream: seq<byte>)
    requires buffer + (chunk + later) <= stream
    ensures buffer + (chunk + later) == (buffer + chunk) + later
    ensures buffer + chunk <= stream
  {
    assert buffer + (chunk + later) == (buffer + chunk) + later;
    assert buffer + chunk == ((buffer + chunk) + later)[..|buffer + chunk|];
  }

  lemma TicksCompose<V>(c: Codec<V>, buffer: seq<byte>, ticks: seq<Tick>, messages: seq<V>, first: nat,
                        left: seq<byte>, more: nat, last: seq<byte>)
    requires ticks != [] && first + more <= |messages|
    requires Decoded(c, buffer + ticks[0].chunk, ticks[0].limit) == (Ok(messages[..first]), left)
    requires Ticks(c, left, ticks[1..]) == (Ok(messages[first..][..more]), last)
    ensures Ticks(c, buffer, ticks) == (Ok(messages[..first + more]), last)
  {
    SliceOfSlice(messages, first, more);
  }

  /** The first `count` messages were decoded, and the bytes after their frames are buffered. */
  ghost predicate Reassembled<V>(c: Codec<V>, messages: seq<V>, buffer: seq<byte>, ticks: seq<Tick>, count: nat)
    requires AllEncodable(c, messages)
  {
    var (result, left) := Ticks(c, buffer, ticks);
    count <= |messages| && result == Ok(messages[..count]) && Consumed(c, messages, buffer + Chunks(ticks), count, left)
  }

  lemma NothingArrives<V>(c: Codec<V>, messages: seq<V>, buffer: seq<byte>)
    requires AllEncodable(c, messages) && buffer + Chunks([]) <= Stream(c, messages)
    ensures Reassembled(c, messages, buffer, [], 0)
  {
    assert buffer + Chunks([]) == buffer;
    NothingConsumed(c, messages, buffer);
  }

  lemma OneTickMore<V>(c: Codec<V>, messages: seq<V>, buffer: seq<byte>, ticks: seq<Tick>, first: nat,
                       left: seq<byte>, more: nat)
    requires ticks != [] && AllEncodable(c, messages)
    requires first <= |messages| && Consumed(c, messages, buffer + ticks[0].chunk, first, left)
    requires Decoded(c, buffer + ticks[0].chunk, ticks[0].limit) == (Ok(messages[..first]), left)
    requires Reassembled(c, messages[first..], left, ticks[1..], more)
    ensures Reassembled(c, messages, buffer, ticks, first + more)
  {
    var later := Chunks(ticks[1..]);
    var last := Ticks(c, left, ticks[1..]).1;
    Regroup(buffer, ticks[0].chunk, later);
    ConsumedMore(c, messages, buffer + ticks[0].chunk, first, left, later, more, last);
    TicksCompose(c, buffer, ticks, messages, first, left, more, last);
  }

  lemma OneTick<V(!new)>(c: Codec<V>, messages: seq<V>, buffer: seq<byte>, ticks: seq<Tick>)
    returns (first: nat, left: seq<byte>)
    requires Inverse(c) && AllEncodable(c, messages) && ticks != []
    requires buffer + Chunks(ticks) <= Stream(c, messages)
    ensures first <= |messages| && Consumed(c, messages, buffer + ticks[0].chunk, first, left)
    ensures Decoded(c, buffer + ticks[0].chunk, ticks[0].limit) == (Ok(messages[..first]), left)
    ensures AllEncodable(c, messages[first..]) && left + Chunks(ticks[1..]) <= Stream(c, messages[first..])
  {
    var filled, later := buffer + ticks[0].chunk, Chunks(ticks[1..]);
    ChunkArrives(buffer, ticks[0].chunk, later, Stream(c, messages));
    first := DecodePrefix(c, messages, filled, ticks[0].limit);
    left := Decoded(c, filled, ticks[0].limit).1;
    ArrivalFits(c, messages, filled, first, left, later);
  }

  /** Reassembly does not depend on how the stream is cut: whatever the chunks and the limits,
      the messages decoded so far followed by the frames still buffered are the messages sent,
      and the buffer is exactly the suffix not consumed. */
  lemma {:induction false} ReassemblyIsChunkIndependent<V(!new)>(c: Codec<V>, messages: seq<V>, buffer: seq<byte>,
                                                          ticks: seq<Tick>)
    returns (count: nat)
    requires Inverse(c) && AllEncodable(c, messages)
    requires buffer + Chunks(ticks) <= Stream(c, messages)
    ensures Reassembled(c, messages, buffer, ticks, count)
    decreases |ticks|
  {
    if ticks == [] {
      count := 0;
      NothingArrives(c, messages, buffer);
    } else {
      var first, left := OneTick(c, messages, buffer, ticks);
      var more := ReassemblyIsChunkIndependent(c, messages[first..], left, ticks[1..]);
      OneTickMore(c, messages, buffer, ticks, first, left, more);
      count := first + more;
    }
  }

  /** Once the whole stream has arrived and no whole frame is buffered, the messages decoded
      are the messages sent and nothing is left. */
  lemma WholeStreamIsDecoded<V(!new)>(c: Codec<V>, messages: seq<V>, ticks: seq<Tick>)
    requires Inverse(c) && AllEncodable(c, messages)
    requires Chunks(ticks) == Stream(c, messages)
    requires HeadOf(c, Ticks(c, [], ticks).1).Incomplete?
    ensures Ticks(c, [], ticks) == (Ok(messages), [])
  {
    assert [] + Chunks(ticks) == Chunks(ticks);
    var count := ReassemblyIsChunkIndependent(c, messages, [], ticks);
    var left := Ticks(c, [], ticks).1;
    AllConsumed(c, messages, count, left);
    if count < |messages| {
      HeadOfFrame(c, messages[count], Stream(c, messages[count..][1..]));
      assert false;
    }
    assert messages[..count] == messages;
  }

  lemma AllConsumed<V>(c: Codec<V>, messages: seq<V>, count: nat, left: seq<byte>)
    requires AllEncodable(c, messages)
    requires Consumed(c, messages, Stream(c, messages), count, left)
    ensures left == Stream(c, messages[count..])
  {
    var taken := Stream(c, messages[..count]);
    assert messages == messages[..count] + messages[count..];
    StreamConcat(c, messages[..count], messages[count..]);
    assert left == (taken + left)[|taken|..];
    assert Stream(c, messages[count..]) == (taken + Stream(c, messages[count..]))[|taken|..];
  }

  // ----- the client of one connection -----

  function Length(frame: seq<byte>): nat { |frame| }

  /** The bytes queued and not written yet. */
  function Unwritten(writes: seq<seq<byte>>, offset: nat): seq<byte> {
    var all := FlatMap(Itself, writes);
    if offset <= |all| then all[offset..] else []
  }

  function Prepend<V>(messages: seq<V>, rest: (Result<seq<V>, DecodeError>, seq<byte>))
    : (Result<seq<V>, DecodeError>, seq<byte>)
  {
    (match rest.0 case Ok(more) => Ok(messages + more) case Err(e) => Err(e), rest.1)
  }

  /** The buffer after the chunks one tick reads, and whether it stayed within one maximal
      frame; the first chunk that would not fit is not appended. */
  function Fill(buffer: seq<byte>, arrivals: seq<seq<byte>>, budget: nat): (seq<byte>, bool)
    decreases budget
  {
    if arrivals == [] || budget == 0 then (buffer, true)
    else if |buffer| + |arrivals[0]| > MAX_BROWSER_AGENT_FRAME_BYTES + 4 then (buffer, false)
    else Fill(buffer + arrivals[0], arrivals[1..], budget - 1)
  }

  /** A tick is accepted iff everything it reads fits, and then all of it is appended. The check
      comes before any frame is decoded, so many small frames can fail it together. */
  lemma {:induction false} FillAcceptsWhatFits(buffer: seq<byte>, arrivals: seq<seq<byte>>, budget: nat)
    requires |buffer| <= MAX_BROWSER_AGENT_FRAME_BYTES + 4
    ensures var (filled, fits) := Fill(buffer, arrivals, budget);
            var all := FlatMap(Itself, arrivals[..Min(|arrivals|, budget)]);
            && |filled| <= MAX_BROWSER_AGENT_FRAME_BYTES + 4
            && (fits <==> |buffer| + |all| <= MAX_BROWSER_AGENT_FRAME_BYTES + 4)
            && (fits ==> filled == buffer + all)
    decreases budget
  {
    var n := Min(|arrivals|, budget);
    if n == 0 {
      assert buffer + [] == buffer;
    } else {
      assert arrivals[..n][1..] == arrivals[1..][..n - 1];
      var rest := FlatMap(Itself, arrivals[1..][..n - 1]);
      assert FlatMap(Itself, arrivals[..n]) == arrivals[0] + rest;
      if |buffer| + |arrivals[0]| <= MAX_BROWSER_AGENT_FRAME_BYTES + 4 {
        FillAcceptsWhatFits(buffer + arrivals[0], arrivals[1..], budget - 1);
        Regroup(buffer, arrivals[0], rest);
      }
    }
  }

  /** A stream of two frames, the first maximal and buffered but for its last byte. */
  function AlmostArrived<V>(c: Codec<V>, v: V): seq<byte>
    requires Encodable(c, v) && |Encode(c, v).value| > 0
  {
    var frame := Encode(c, v).value;
    frame[..|frame| - 1]
  }

  lemma TwoFrames<V>(c: Codec<V>, v: V, w: V)
    requires Encodable(c, v) && Encodable(c, w)
    ensures AllEncodable(c, [v, w]) && Stream(c, [v, w]) == Encode(c, v).value + Encode(c, w).value
  {
    assert [v, w] == [v] + [w];
    assert [v][1..] == [] && [w][1..] == [];
    assert Stream(c, [v]) == Encode(c, v).value + Stream(c, []);
    assert Stream(c, [w]) == Encode(c, w).value + Stream(c, []);
    StreamConcat(c, [v], [w]);
  }

  lemma LastByteAndNext(first: seq<byte>, second: seq<byte>)
    requires first != [] && second != []
    ensures first[..|first| - 1] + (first[|first| - 1..] + second[..1]) == first + second[..1]
    ensures first + second[..1] <= first + second
  {
  }

  /** A legal stream is refused: its first frame is maximal and lacks one byte, and the chunk that
      brings it brings a byte of the next frame too. Without that byte the chunk is accepted. */
  lemma LegalStreamIsRefused<V(!new)>(c: Codec<V>, v: V, w: V, budget: nat)
    requires Inverse(c) && |c.render(v)| == MAX_BROWSER_AGENT_FRAME_BYTES && Encodable(c, w) && budget > 0
    ensures var first, second := Encode(c, v).value, Encode(c, w).value;
            && |first| == MAX_BROWSER_AGENT_FRAME_BYTES + 4 && |second| >= 4
            && AllEncodable(c, [v, w])
            && var buffer, last := AlmostArrived(c, v), first[|first| - 1..];
               && HeadOf(c, buffer).Incomplete?
               && buffer + (last + second[..1]) <= Stream(c, [v, w])
               && !Fill(buffer, [last + second[..1]], budget).1
               && Fill(buffer, [last], budget).1
  {
    var first, second := Encode(c, v).value, Encode(c, w).value;
    var buffer := AlmostArrived(c, v);
    TwoFrames(c, v, w);
    LastByteAndNext(first, second);
    HeadOfPartialFrame(c, v, buffer);
  }

  /** Messages that are bytes themselves. */
  function RawCodec(bigEndian: bool): Codec<seq<byte>> {
    NativeCodec(bigEndian, (bytes: seq<byte>) => bytes, (bytes: seq<byte>) => Some(bytes))
  }

  function Zeros(n: nat): (zeros: seq<byte>)
    ensures |zeros| == n
  {
    seq(n, i => 0)
  }

  // Such streams exist: eight mebibytes of zeros, and nothing.
  lemma MaximalMessageExists(bigEndian: bool)
    ensures var c := RawCodec(bigEndian);
            Inverse(c) && |c.render(Zeros(MAX_BROWSER_AGENT_FRAME_BYTES))| == MAX_BROWSER_AGENT_FRAME_BYTES
              && Encodable(c, [])
  {
    NativeCodecIsInverse(bigEndian, (bytes: seq<byte>) => bytes, (bytes: seq<byte>) => Some(bytes));
  }

  /** The write queue: `offset` bytes of its first frame are out, `queued` counts the frames
      queued in full, and what was written followed by what is queued is the stream of all
      messages enqueued. */
  ghost predicate Queue<V(!new)>(c: Codec<V>, writes: seq<seq<byte>>, offset: nat, queued: nat, enqueued: seq<V>,
                          written: seq<byte>) {
    && AllEncodable(c, enqueued)
    && (if writes == [] then offset == 0 else offset < |writes[0]|)
    && (forall i :: 0 <= i < |writes| ==> writes[i] != [])
    && queued == SumBy(Length, writes)
    && written + Unwritten(writes, offset) == Stream(c, enqueued)
  }

  lemma QueueTakesFrame<V(!new)>(c: Codec<V>, writes: seq<seq<byte>>, offset: nat, queued: nat, enqueued: seq<V>,
                          written: seq<byte>, v: V)
    requires Inverse(c) && Queue(c, writes, offset, queued, enqueued, written) && Encodable(c, v)
    ensures var frame := Encode(c, v).value;
            && |frame| == |c.render(v)| + 4
            && Queue(c, writes + [frame], offset, queued + |frame|, enqueued + [v], written)
  {
    var frame := Encode(c, v).value;
    UnwrittenGrows(writes, offset, frame);
    SumByAppend(Length, writes, frame);
    StreamConcat(c, enqueued, [v]);
    assert Stream(c, [v]) == frame by {
      assert [v][1..] == [];
      assert Stream(c, [v]) == frame + Stream(c, []);
    }
    Regroup(written, Unwritten(writes, offset), frame);
  }

  lemma UnwrittenGrows(writes: seq<seq<byte>>, offset: nat, frame: seq<byte>)
    requires if writes == [] then offset == 0 else offset < |writes[0]|
    ensures Unwritten(writes + [frame], offset) == Unwritten(writes, offset) + frame
  {
    var all := FlatMap(Itself, writes);
    FlatMapAppend(Itself, writes, frame);
    if writes != [] {
      assert |all| == |writes[0]| + |FlatMap(Itself, writes[1..])|;
    }
    assert (all + frame)[offset..] == all[offset..] + frame;
  }

  lemma QueueGivesPart<V(!new)>(c: Codec<V>, writes: seq<seq<byte>>, offset: nat, queued: nat, enqueued: seq<V>,
                         written: seq<byte>, taken: nat)
    requires Queue(c, writes, offset, queued, enqueued, written)
    requires writes != [] && offset + taken < |writes[0]|
    ensures Queue(c, writes, offset + taken, queued, enqueued, written + writes[0][offset..offset + taken])
  {
    UnwrittenShrinks(writes, offset, taken);
    Regroup(written, writes[0][offset..offset + taken], Unwritten(writes, offset + taken));
  }

  lemma QueueGivesFrame<V(!new)>(c: Codec<V>, writes: seq<seq<byte>>, offset: nat, queued: nat, enqueued: seq<V>,
                          written: seq<byte>, taken: nat)
    requires Queue(c, writes, offset, queued, enqueued, written)
    requires writes != [] && offset + taken == |writes[0]|
    ensures queued >= |writes[0]|
    ensures Queue(c, writes[1..], 0, queued - |writes[0]|, enqueued, written + writes[0][offset..offset + taken])
  {
    UnwrittenShrinks(writes, offset, taken);
    Regroup(written, writes[0][offset..offset + taken], Unwritten(writes[1..], 0));
  }

  class BridgeClient<V(!new)> {
    const codec: Codec<V>
    var readBuffer: seq<byte>
    var writes: seq<seq<byte>>
    var writeOffset: nat
    var queuedWriteBytes: nat
    // history: what was accepted for sending and what the socket took
    ghost var enqueued: seq<V>
    ghost var written: seq<byte>

    ghost predicate Valid()
      reads this
    {
      && Inverse(codec)
      && Queue(codec, writes, writeOffset, queuedWriteBytes, enqueued, written)
      && queuedWriteBytes <= MAX_QUEUED_WRITE_BYTES
    }

    constructor (codec: Codec<V>)
      requires Inverse(codec)
      ensures Valid() && this.codec == codec && enqueued == [] && written == [] && readBuffer == []
    {
      this.codec := codec;
      readBuffer, writes, writeOffset, queuedWriteBytes := [], [], 0, 0;
      enqueued, written := [], [];
    }

    method DecodeMessages(limit: nat) returns (result: Result<seq<V>, DecodeError>)
      modifies this`readBuffer
      ensures (result, readBuffer) == Decoded(codec, old(readBuffer), limit)
    {
      var messages: seq<V> := [];
      PrependNothing(Decoded(codec, readBuffer, limit));
      while |messages| < limit
        invariant |messages| <= limit
        invariant Prepend(messages, Decoded(codec, readBuffer, limit - |messages|)) ==
                  Decoded(codec, old(readBuffer), limit)
        decreases limit - |messages|
      {
        ghost var buffer := readBuffer;
        if |readBuffer| < 4 {
          break;
        }
        var length := codec.length(readBuffer[..4]);
        if length > MAX_BROWSER_AGENT_FRAME_BYTES {
          return Err(FrameTooLarge);
        }
        if |readBuffer| < length + 4 {
          break;
        }
        var payload := readBuffer[4..length + 4];
        readBuffer := readBuffer[length + 4..];
        match codec.parse(payload) {
          case None => return Err(InvalidJson);
          case Some(v) =>
            PrependSplits(messages, v, Decoded(codec, readBuffer, limit - |messages| - 1));
            messages := messages + [v];
        }
      }
      assert messages + [] == messages;
      result := Ok(messages);
    }

    /** One tick of reading: up to eight chunks are appended, then up to eight frames decoded. A
        chunk that would take the buffer past one maximal frame fails the connection instead. */
    method ReadMessages(arrivals: seq<seq<byte>>) returns (result: Result<seq<V>, DecodeError>)
      modifies this`readBuffer
      ensures var (filled, fits) := Fill(old(readBuffer), arrivals, MAX_CLIENT_READS_PER_TICK);
              (result, readBuffer) ==
                if fits then Decoded(codec, filled, MAX_CLIENT_FRAMES_PER_TICK) else (Err(FrameTooLarge), filled)
    {
      var i := 0;
      while i < MAX_CLIENT_READS_PER_TICK && i < |arrivals|
        invariant i <= |arrivals| && i <= MAX_CLIENT_READS_PER_TICK
        invariant Fill(readBuffer, arrivals[i..], MAX_CLIENT_READS_PER_TICK - i) ==
                  Fill(old(readBuffer), arrivals, MAX_CLIENT_READS_PER_TICK)
      {
        if |readBuffer| + |arrivals[i]| > MAX_BROWSER_AGENT_FRAME_BYTES + 4 {
          return Err(FrameTooLarge);
        }
        assert arrivals[i..][1..] == arrivals[i + 1..];
        readBuffer := readBuffer + arrivals[i];
        i := i + 1;
      }
      result := DecodeMessages(MAX_CLIENT_FRAMES_PER_TICK);
    }

    /** A message is queued whole or refused without a trace. */
    method Enqueue(v: V) returns (ok: bool)
      requires Valid()
      modifies this`writes, this`queuedWriteBytes, this`enqueued
      ensures Valid()
      ensures ok <==> Encodable(codec, v) && old(queuedWriteBytes) + |codec.render(v)| + 4 <= MAX_QUEUED_WRITE_BYTES
      ensures enqueued == if ok then old(enqueued) + [v] else old(enqueued)
      ensures !ok ==> writes == old(writes) && queuedWriteBytes == old(queuedWriteBytes)
    {
      var frame := Encode(codec, v);
      if frame.None? {
        return false;
      }
      if queuedWriteBytes + |frame.value| > MAX_QUEUED_WRITE_BYTES {
        return false;
      }
      QueueTakesFrame(codec, writes, writeOffset, queuedWriteBytes, enqueued, written, v);
      queuedWriteBytes := queuedWriteBytes + |frame.value|;
      writes := writes + [frame.value];
      enqueued := enqueued + [v];
      ok := true;
    }

    /** One call of the socket's `write`, which takes `accepted` of the bytes offered. */
    method WriteOnce(accepted: nat) returns (taken: nat)
      requires Valid() && writes != [] && accepted > 0
      modifies this`writes, this`writeOffset, this`queuedWriteBytes, this`written
      ensures Valid() && 0 < taken <= accepted && taken <= SOCKET_WRITE_CHUNK_BYTES
      ensures old(written) <= written && |written| == |old(written)| + taken
    {
      var frame := writes[0];
      var offset := writeOffset;
      taken := Min(accepted, Min(|frame| - offset, SOCKET_WRITE_CHUNK_BYTES));
      ghost var more := frame[offset..offset + taken];
      assert |more| == taken && written <= written + more;
      if offset + taken == |frame| {
        QueueGivesFrame(codec, writes, offset, queuedWriteBytes, enqueued, written, taken);
        queuedWriteBytes := queuedWriteBytes - |frame|;
        writes := writes[1..];
        writeOffset := 0;
      } else {
        QueueGivesPart(codec, writes, offset, queuedWriteBytes, enqueued, written, taken);
        writeOffset := offset + taken;
      }
      written := written + more;
    }

    /** Writes until the socket would block. `takes` is how many bytes it accepts at each call
        before that; they reach it in order, none twice and none skipped. */
    method Flush(takes: seq<nat>)
      requires Valid() && forall i :: 0 <= i < |takes| ==> takes[i] > 0
      modifies this`writes, this`writeOffset, this`queuedWriteBytes, this`written
      ensures Valid()
      ensures old(written) <= written
      ensures writes == [] || |written| >= |old(written)| + |takes|
    {
      var i := 0;
      while writes != [] && i < |takes|
        invariant i <= |takes| && Valid()
        invariant old(written) <= written
        invariant |written| >= |old(written)| + i
        decreases |takes| - i
      {
        ghost var before := written;
        var taken := WriteOnce(takes[i]);
        PrefixOfPrefix(old(written), before, written);
        i := i + 1;
      }
    }
  }

  lemma PrefixOfPrefix<T>(a: seq<T>, b: seq<T>, c: seq<T>)
    requires a <= b <= c
    ensures a <= c
  {
    assert c[..|b|] == b && b[..|a|] == a;
  }

  lemma PrependNothing<V>(rest: (Result<seq<V>, DecodeError>, seq<byte>))
    ensures Prepend([], rest) == rest
  {
    if rest.0.Ok? {
      assert [] + rest.0.value == rest.0.value;
    }
  }

  lemma PrependSplits<V>(messages: seq<V>, v: V, rest: (Result<seq<V>, DecodeError>, seq<byte>))
    ensures Prepend(messages + [v], rest) == Prepend(messages, Prepend([v], rest))
  {
    if rest.0.Ok? {
      assert (messages + [v]) + rest.0.value == messages + ([v] + rest.0.value);
    }
  }

  lemma UnwrittenShrinks(writes: seq<seq<byte>>, offset: nat, taken: nat)
    requires writes != [] && offset + taken <= |writes[0]|
    ensures Unwritten(writes, offset) == writes[0][offset..offset + taken] + Unwritten(writes, offset + taken)
    ensures offset + taken == |writes[0]| ==> Unwritten(writes, offset + taken) == Unwritten(writes[1..], 0)
  {
    var all := FlatMap(Itself, writes);
    assert all == writes[0] + FlatMap(Itself, writes[1..]);
    assert all[offset..offset + taken] == writes[0][offset..offset + taken];
  }

  /** End to end: whatever the writer's socket takes, and however the reader's chunks and
      limits cut what was written, the messages read are the first of those enqueued. */
  lemma ReaderSeesWhatWasEnqueued<V(!new)>(c: Codec<V>, enqueued: seq<V>, written: seq<byte>, unwritten: seq<byte>,
                                    ticks: seq<Tick>)
    requires Inverse(c) && AllEncodable(c, enqueued)
    requires written + unwritten == Stream(c, enqueued)
    requires Chunks(ticks) <= written
    ensures exists count: nat :: count <= |enqueued| && Ticks(c, [], ticks).0 == Ok(enqueued[..count])
  {
    assert [] + Chunks(ticks) == Chunks(ticks);
    assert Chunks(ticks) == (written + unwritten)[..|Chunks(ticks)|];
    var count := ReassemblyIsChunkIndependent(c, enqueued, [], ticks);
  }
}
