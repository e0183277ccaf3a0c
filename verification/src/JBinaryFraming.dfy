/**
 * Messages on a connection: ServiceClient::isend (src/include/core/comm/ServiceClient.hpp:100-120) with
 * the header that the GIO module puts before each message and readSocketMessage, which takes a byte
 * stream apart again (src/core/comm/modules/gio/GIOinternal.hpp:144-230).
 */
module JBinaryFraming {
  import opened Base
  import opened JBinary
  import opened JBinaryProofs
  import opened JBinaryBuffers

  const MAGIC_KEY: nat := 14099
  const MAGIC_ERROR_KEY: nat := 16962
  const HEADER: nat := 16               // clientMsgHeaderLen

  /** A message, or the error response that the server sends in place of one. */
  datatype Frame = Message(id: nat, payload: seq<Byte>) | Failure(id: nat, error: nat)

  predicate Sendable(f: Frame)
  {
    && f.id < WORD32
    && (f.Message? ==> HEADER + |f.payload| < WORD64)
    && (f.Failure? ==> f.error < 256)
  }

  /** serializeMsgHeader: the id, the magic key, the size of the whole message or the error. */
  function HeaderBytes(id: nat, magic: nat, size: nat): (bytes: seq<Byte>)
    ensures |bytes| == HEADER
  {
    IntBytes(id, 4) + IntBytes(magic, 4) + IntBytes(size, 8)
  }

  function FrameBytes(f: Frame): (bytes: seq<Byte>)
    ensures |bytes| >= HEADER
  {
    match f
    case Message(id, payload) => HeaderBytes(id, MAGIC_KEY, HEADER + |payload|) + payload
    case Failure(id, error) => HeaderBytes(id, MAGIC_ERROR_KEY, error)
  }

  /** readSocketMessage; Short when the stream ends too early or the magic key is a wrong one. */
  function ReadFrame(stream: seq<Byte>, pos: nat): (r: Read<Frame>)
    ensures r.Done? ==> pos < r.pos <= |stream|
  {
    if pos + HEADER > |stream| then Short
    else
      var id := ReadInt(stream, pos, 4, false);
      var magic := ReadInt(stream, pos + 4, 4, false);
      var msgLength := ReadInt(stream, pos + 8, 8, false);
      if id.Short? || magic.Short? || msgLength.Short? || id.value < 0 then Short
      else if magic.value == MAGIC_KEY then
        var toRead := (msgLength.value - HEADER) % WORD64;
        if pos + HEADER + toRead > |stream| then Short
        else Done(Message(id.value, stream[pos + HEADER..pos + HEADER + toRead]), pos + HEADER + toRead)
      else if magic.value == MAGIC_ERROR_KEY then Done(Failure(id.value, msgLength.value % 256), pos + HEADER)
      else Short
  }

  // ---- Streams of messages, for any way to write and read one ----

  /** The loop of a reading thread, up to the first message that it cannot read. */
  function Receive<M>(read: (seq<Byte>, nat) -> Read<M>, stream: seq<Byte>, pos: nat): seq<M>
    decreases |stream| - pos
  {
    var r := read(stream, pos);
    if r.Done? && pos < r.pos <= |stream| then [r.value] + Receive(read, stream, r.pos) else []
  }

  function Send<M>(write: M -> seq<Byte>, messages: seq<M>): seq<Byte>
  {
    if messages == [] then [] else write(messages[0]) + Send(write, messages[1..])
  }

  /** A message is read back wherever the stream holds it. */
  ghost predicate IsRead<M(!new)>(write: M -> seq<Byte>, read: (seq<Byte>, nat) -> Read<M>, m: M)
  {
    write(m) != [] && forall s: seq<Byte>, p: nat :: Holds(s, p, write(m)) ==> read(s, p) == Done(m, p + |write(m)|)
  }

  lemma SuffixHolds(stream: seq<Byte>, pos: nat, a: seq<Byte>, b: seq<Byte>)
    requires pos <= |stream| && stream[pos..] == a + b
    ensures Holds(stream, pos, a) && stream[pos + |a|..] == b
  {
    assert |stream| == pos + |a| + |b|;
    assert stream[pos..pos + |a|] == (a + b)[..|a|] == a;
    assert stream[pos + |a|..] == (a + b)[|a|..] == b;
  }

  lemma {:induction false} SentIsReceivedFrom<M(!new)>(write: M -> seq<Byte>, read: (seq<Byte>, nat) -> Read<M>,
                                                       messages: seq<M>, rest: seq<Byte>, stream: seq<Byte>, pos: nat)
    requires forall m :: m in messages ==> IsRead(write, read, m)
    requires pos <= |stream| && stream[pos..] == Send(write, messages) + rest
    requires read(stream, |stream| - |rest|).Short?
    ensures Receive(read, stream, pos) == messages
    decreases |messages|
  {
    if messages == [] {
      assert stream[pos..] == rest;
    } else {
      var m, more := messages[0], messages[1..];
      var others := Send(write, more) + rest;
      assert Send(write, messages) + rest == write(m) + others;
      SuffixHolds(stream, pos, write(m), others);
      assert IsRead(write, read, m);
      SentIsReceivedFrom(write, read, more, rest, stream, pos + |write(m)|);
    }
  }

  // ---- What was sent is received ----

  lemma Width8(n: nat)
    ensures n < WORD64 <==> InRange(n, 8, false)
    ensures n < WORD64 ==> Bytes(n, 8, false) == IntBytes(n, 8)
  {
    assert Pow256(4) == 256 * Pow256(3) == 65536 * Pow256(2) == 16777216 * Pow256(1);
    assert Pow256(8) == 256 * Pow256(7) == 65536 * Pow256(6) == 16777216 * Pow256(5) == 4294967296 * Pow256(4);
  }

  lemma HeaderIsRead(stream: seq<Byte>, pos: nat, id: nat, magic: nat, size: nat)
    requires id < WORD32 && magic < WORD32 && size < WORD64 && Holds(stream, pos, HeaderBytes(id, magic, size))
    ensures pos + HEADER <= |stream|
    ensures ReadInt(stream, pos, 4, false) == Done(id, pos + 4)
    ensures ReadInt(stream, pos + 4, 4, false) == Done(magic, pos + 8)
    ensures ReadInt(stream, pos + 8, 8, false) == Done(size, pos + 16)
  {
    var a, b, c := IntBytes(id, 4), IntBytes(magic, 4), IntBytes(size, 8);
    HoldsBoth(stream, pos, a + b, c);
    HoldsBoth(stream, pos, a, b);
    Width4(id);
    Width4(magic);
    Width8(size);
    ReadIntFinds(stream, pos, id, 4, false);
    ReadIntFinds(stream, pos + 4, magic, 4, false);
    ReadIntFinds(stream, pos + 8, size, 8, false);
  }

  lemma FrameIsRead(stream: seq<Byte>, pos: nat, f: Frame)
    requires Sendable(f) && Holds(stream, pos, FrameBytes(f))
    ensures ReadFrame(stream, pos) == Done(f, pos + |FrameBytes(f)|)
  {
    match f
    case Message(id, payload) =>
      HoldsBoth(stream, pos, HeaderBytes(id, MAGIC_KEY, HEADER + |payload|), payload);
      HeaderIsRead(stream, pos, id, MAGIC_KEY, HEADER + |payload|);
    case Failure(id, error) =>
      HeaderIsRead(stream, pos, id, MAGIC_ERROR_KEY, error);
  }

  lemma CutFrameIsNotRead(stream: seq<Byte>, pos: nat, f: Frame)
    requires Sendable(f) && Cut(stream, pos, FrameBytes(f))
    ensures ReadFrame(stream, pos).Short?
  {
    if f.Message? {
      var header := HeaderBytes(f.id, MAGIC_KEY, HEADER + |f.payload|);
      CutInOne(stream, pos, header, f.payload);
      if Holds(stream, pos, header) {
        HeaderIsRead(stream, pos, f.id, MAGIC_KEY, HEADER + |f.payload|);
      }
    }
  }

  /** A connection that breaks inside a frame delivers exactly the frames before it. */
  lemma StreamIsReceived(frames: seq<Frame>, last: Frame, k: nat)
    requires forall f :: f in frames ==> Sendable(f)
    requires Sendable(last) && k < |FrameBytes(last)|
    ensures Receive(ReadFrame, Send(FrameBytes, frames) + FrameBytes(last)[..k], 0) == frames
  {
    forall f | f in frames ensures IsRead(FrameBytes, ReadFrame, f) {
      forall s: seq<Byte>, p: nat | Holds(s, p, FrameBytes(f)) ensures ReadFrame(s, p) == Done(f, p + |FrameBytes(f)|) {
        FrameIsRead(s, p, f);
      }
    }
    var rest := FrameBytes(last)[..k];
    var stream := Send(FrameBytes, frames) + rest;
    var end := |stream| - k;
    assert stream[0..] == stream && stream[end..] == rest;
    CutFrameIsNotRead(stream, end, last);
    SentIsReceivedFrom(FrameBytes, ReadFrame, frames, rest, stream, 0);
  }

  // ---- isend ----

  /** The message that carries an object. */
  function Carrying(env: Env, t: Type, v: Value, id: nat): Frame
    requires HasType(env, t, v)
  {
    Message(id, Serialize(env, t, v))
  }

  /** isend allocates exactly the bytes that it fills. */
  method Isend(env: Env, t: Type, v: Value, id: nat) returns (payload: array<Byte>)
    requires HasType(env, t, v) && Sendable(Carrying(env, t, v, id))
    ensures fresh(payload) && payload[..] == FrameBytes(Carrying(env, t, v, id))
  {
    LenIsSize(env, t, v);
    var msgSize := HEADER + Len(env, t, v);
    payload := new Byte[msgSize](_ => 0);
    WriteBehind(HeaderBytes(id, MAGIC_KEY, msgSize), env, t, v, payload);
  }

  /** Sent objects arrive: whatever is in the stream around it, the frame is read and its payload deserializes to the object. */
  lemma ObjectArrives(env: Env, t: Type, v: Value, id: nat, stream: seq<Byte>, pos: nat)
    requires WellFormed(env) && Known(env, t) && HasType(env, t, v) && Sendable(Carrying(env, t, v, id))
    requires Holds(stream, pos, FrameBytes(Carrying(env, t, v, id)))
    ensures var r := ReadFrame(stream, pos);
            && r.Done? && r.value.Message? && r.value.id == id
            && Deserialize(env, t, r.value.payload, 0) == Done(v, |r.value.payload|)
  {
    FrameIsRead(stream, pos, Carrying(env, t, v, id));
    RoundTrip(env, t, v, Serialize(env, t, v), 0);
  }
}
