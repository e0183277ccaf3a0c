/**
 * Which bytes deserialize accepts, and as what. The bytes that stand for a value are defined by the layout alone;
 * serialize writes some of them, and deserialize reads all of them, and nothing else.
 */
module JBinaryAccepts {
  import opened Base
  import opened JBinary
  import opened JBinaryProofs
  import opened JBinaryFraming

  // ---- The layout ----

  predicate IsCounted(text: seq<Byte>, bytes: seq<Byte>)
  {
    |text| < WORD32 && bytes == IntBytes(|text|, 4) + text
  }

  /** The text, which may go on behind a NUL with whatever there is. */
  ghost predicate IsCountedToNul(text: seq<Byte>, bytes: seq<Byte>)
  {
    0 !in text && exists rest :: (rest == [] || rest[0] == 0) && IsCounted(text + rest, bytes)
  }

  /** The bytes stand for the value: any byte but 0 is a true, and a pointer that is not null. */
  ghost predicate Stands(env: Env, t: Type, v: Value, bytes: seq<Byte>)
    decreases v
  {
    match t
    case Nothing => v == NoValue && bytes == []
    case Bool => v.BoolValue? && |bytes| == 1 && (v.b <==> bytes[0] != 0)
    case Int(w, s) => v.IntValue? && InRange(v.i, w, s) && bytes == Bytes(v.i, w, s)
    case Text => v.TextValue? && IsCounted(v.text, bytes)
    case CString => v.TextValue? && IsCountedToNul(v.text, bytes)
    case Variant =>
      v.VariantValue? && |bytes| >= 1 && InRange(v.tag, 1, true) && bytes[..1] == Bytes(v.tag, 1, true)
      && Stands(env, PayloadType(v.tag), v.payload, bytes[1..])
    case List(e) =>
      v.ListValue? && |v.values| < WORD32 && |bytes| >= 4 && bytes[..4] == IntBytes(|v.values|, 4)
      && AllStand(env, Repeat(e, |v.values|), v.values, bytes[4..])
    case Array(e, n) => v.ListValue? && |v.values| == n && AllStand(env, Repeat(e, n), v.values, bytes)
    case Pointer(e) =>
      |bytes| >= 1
      && if bytes[0] == 0 then v == NullPointer && |bytes| == 1 else v.PointerTo? && Stands(env, e, v.target, bytes[1..])
    case Class(c) => v.Object? && c in env && AllStand(env, Parts(env[c]), v.parts, bytes)
  }

  /** One behind the other. */
  ghost predicate AllStand(env: Env, ts: seq<Type>, vs: seq<Value>, bytes: seq<Byte>)
    decreases vs
  {
    && |ts| == |vs|
    && if vs == [] then bytes == []
       else exists k: nat :: k <= |bytes| && Stands(env, ts[0], vs[0], bytes[..k]) && AllStand(env, ts[1..], vs[1..], bytes[k..])
  }

  // ---- What is read stands for the value ----

  lemma {:induction false} BytesOfInt(bytes: seq<Byte>)
    ensures IntBytes(IntOf(bytes), |bytes|) == bytes
  {
    if bytes != [] {
      BytesOfInt(bytes[1..]);
    }
  }

  lemma IntRead(buf: seq<Byte>, pos: nat, width: nat, signed: bool)
    requires pos <= |buf| && ReadInt(buf, pos, width, signed).Done?
    ensures var i := ReadInt(buf, pos, width, signed).value;
            InRange(i, width, signed) && pos + width <= |buf| && buf[pos..pos + width] == Bytes(i, width, signed)
  {
    var bytes := buf[pos..pos + width];
    IntOfBound(bytes);
    BytesOfInt(bytes);
  }

  lemma Slices(buf: seq<Byte>, pos: nat, mid: nat, end: nat)
    requires pos <= mid <= end <= |buf|
    ensures buf[pos..end][..mid - pos] == buf[pos..mid] && buf[pos..end][mid - pos..] == buf[mid..end]
    ensures buf[pos..end] == buf[pos..mid] + buf[mid..end]
  {}

  lemma ByteRead(buf: seq<Byte>, pos: nat, signed: bool)
    requires pos < |buf|
    ensures ReadInt(buf, pos, 1, signed) == Done(Signed(buf[pos], 1, signed), pos + 1)
  {
    var bytes := buf[pos..pos + 1];
    assert IntOf(bytes) == bytes[0] + 256 * IntOf(bytes[1..]);
  }

  lemma TextRead(buf: seq<Byte>, pos: nat)
    requires pos <= |buf| && ReadText(buf, pos).Done?
    ensures var r := ReadText(buf, pos); IsCounted(r.value, buf[pos..r.pos])
  {
    IntRead(buf, pos, 4, false);
    var n := ReadInt(buf, pos, 4, false).value;
    Width4(n);
    Slices(buf, pos, pos + 4, pos + 4 + n);
  }

  lemma {:induction false} UpToNulCuts(bytes: seq<Byte>) returns (rest: seq<Byte>)
    ensures bytes == UpToNul(bytes) + rest && 0 !in UpToNul(bytes) && (rest == [] || rest[0] == 0)
  {
    if bytes == [] || bytes[0] == 0 {
      rest := bytes;
    } else {
      rest := UpToNulCuts(bytes[1..]);
    }
  }

  lemma LeafStands(env: Env, t: Type, buf: seq<Byte>, pos: nat)
    requires WellFormed(env) && IsLeaf(t) && pos <= |buf| && Deserialize(env, t, buf, pos).Done?
    ensures var r := Deserialize(env, t, buf, pos); Stands(env, t, r.value, buf[pos..r.pos])
  {
    match t
    case Bool => ByteRead(buf, pos, false);
    case Int(w, s) => IntRead(buf, pos, w, s);
    case Text => TextRead(buf, pos);
    case CString =>
      TextRead(buf, pos);
      var rest := UpToNulCuts(ReadText(buf, pos).value);
    case _ =>
  }

  lemma {:induction false} ReadStands(env: Env, t: Type, buf: seq<Byte>, pos: nat)
    requires WellFormed(env) && Known(env, t) && pos <= |buf| && Deserialize(env, t, buf, pos).Done?
    ensures var r := Deserialize(env, t, buf, pos); Stands(env, t, r.value, buf[pos..r.pos])
    decreases |buf| - pos, Level(env, t), Size(t), 1
  {
    match t
    case Variant => VariantStands(env, buf, pos);
    case List(e) => ListStands(env, e, buf, pos);
    case Array(e, n) => ManyStand(env, e, n, buf, pos);
    case Pointer(e) => PointerStands(env, e, buf, pos);
    case Class(c) => PartsStand(env, 2 * env[c].rank + 1, Parts(env[c]), buf, pos);
    case _ => LeafStands(env, t, buf, pos);
  }

  lemma {:induction false} VariantStands(env: Env, buf: seq<Byte>, pos: nat)
    requires WellFormed(env) && pos <= |buf| && Deserialize(env, Variant, buf, pos).Done?
    ensures var r := Deserialize(env, Variant, buf, pos); Stands(env, Variant, r.value, buf[pos..r.pos])
    decreases |buf| - pos, 0, 0, 0
  {
    var tag := ReadInt(buf, pos, 1, true);
    IntRead(buf, pos, 1, true);
    ReadStands(env, PayloadType(tag.value), buf, tag.pos);
    Slices(buf, pos, tag.pos, Deserialize(env, Variant, buf, pos).pos);
  }

  lemma {:induction false} ListStands(env: Env, e: Type, buf: seq<Byte>, pos: nat)
    requires WellFormed(env) && Known(env, e) && pos <= |buf| && Deserialize(env, List(e), buf, pos).Done?
    ensures var r := Deserialize(env, List(e), buf, pos); Stands(env, List(e), r.value, buf[pos..r.pos])
    decreases |buf| - pos, 0, Size(List(e)), 0
  {
    var n := ReadInt(buf, pos, 4, false);
    IntRead(buf, pos, 4, false);
    Width4(n.value);
    ManyStand(env, e, n.value, buf, n.pos);
    Slices(buf, pos, n.pos, Deserialize(env, List(e), buf, pos).pos);
  }

  lemma {:induction false} PointerStands(env: Env, e: Type, buf: seq<Byte>, pos: nat)
    requires WellFormed(env) && Known(env, e) && pos <= |buf| && Deserialize(env, Pointer(e), buf, pos).Done?
    ensures var r := Deserialize(env, Pointer(e), buf, pos); Stands(env, Pointer(e), r.value, buf[pos..r.pos])
    decreases |buf| - pos, 0, Size(Pointer(e)), 0
  {
    ByteRead(buf, pos, true);
    if buf[pos] != 0 {
      ReadStands(env, e, buf, pos + 1);
      Slices(buf, pos, pos + 1, Deserialize(env, Pointer(e), buf, pos).pos);
    }
  }

  lemma AllStandFirst(env: Env, ts: seq<Type>, vs: seq<Value>, first: seq<Byte>, others: seq<Byte>, bytes: seq<Byte>)
    requires vs != [] && |ts| == |vs| && bytes == first + others
    requires Stands(env, ts[0], vs[0], first) && AllStand(env, ts[1..], vs[1..], others)
    ensures AllStand(env, ts, vs, bytes)
  {
    var k := |first|;
    assert bytes[..k] == first && bytes[k..] == others;
  }

  lemma {:induction false} ManyStand(env: Env, t: Type, n: nat, buf: seq<Byte>, pos: nat)
    requires WellFormed(env) && Known(env, t) && pos <= |buf| && DeserializeMany(env, t, n, buf, pos).Done?
    ensures var r := DeserializeMany(env, t, n, buf, pos);
            |r.value| == n && AllStand(env, Repeat(t, n), r.value, buf[pos..r.pos])
    decreases |buf| - pos, Level(env, t), Size(t), n + 1
  {
    if n != 0 {
      var first := Deserialize(env, t, buf, pos);
      var rest := DeserializeMany(env, t, n - 1, buf, first.pos);
      ReadStands(env, t, buf, pos);
      ManyStand(env, t, n - 1, buf, first.pos);
      var ts := Repeat(t, n);
      assert ts[1..] == Repeat(t, n - 1);
      var vs := [first.value] + rest.value;
      assert vs[1..] == rest.value;
      Slices(buf, pos, first.pos, rest.pos);
      AllStandFirst(env, ts, vs, buf[pos..first.pos], buf[first.pos..rest.pos], buf[pos..rest.pos]);
    }
  }

  lemma {:induction false} PartsStand(env: Env, level: nat, ts: seq<Type>, buf: seq<Byte>, pos: nat)
    requires WellFormed(env) && Below(env, ts, level) && pos <= |buf| && DeserializeParts(env, level, ts, buf, pos).Done?
    ensures var r := DeserializeParts(env, level, ts, buf, pos); AllStand(env, ts, r.value, buf[pos..r.pos])
    decreases |buf| - pos, level, 0, |ts|
  {
    if ts != [] {
      var first := Deserialize(env, ts[0], buf, pos);
      var rest := DeserializeParts(env, level, ts[1..], buf, first.pos);
      ReadStands(env, ts[0], buf, pos);
      PartsStand(env, level, ts[1..], buf, first.pos);
      var vs := [first.value] + rest.value;
      assert vs[1..] == rest.value;
      Slices(buf, pos, first.pos, rest.pos);
      AllStandFirst(env, ts, vs, buf[pos..first.pos], buf[first.pos..rest.pos], buf[pos..rest.pos]);
    }
  }

  // ---- What stands for a value is read as this value ----

  lemma IntStands(buf: seq<Byte>, pos: nat, i: int, width: nat, signed: bool)
    requires InRange(i, width, signed) && pos + width <= |buf| && buf[pos..pos + width] == Bytes(i, width, signed)
    ensures ReadInt(buf, pos, width, signed) == Done(i, pos + width)
  {
    ReadIntFinds(buf, pos, i, width, signed);
  }

  lemma TextStands(buf: seq<Byte>, pos: nat, end: nat, text: seq<Byte>)
    requires pos <= end <= |buf| && IsCounted(text, buf[pos..end])
    ensures ReadText(buf, pos) == Done(text, end)
  {
    assert |buf[pos..end]| == 4 + |text|;
    ReadTextFinds(buf, pos, text);
  }

  lemma {:induction false} UpToNulIs(text: seq<Byte>, rest: seq<Byte>)
    requires 0 !in text && (rest == [] || rest[0] == 0)
    ensures UpToNul(text + rest) == text
  {
    if text == [] {
      assert text + rest == rest;
    } else {
      assert text[0] in text;
      UpToNulIs(text[1..], rest);
      assert (text + rest)[1..] == text[1..] + rest;
    }
  }

  lemma CStringStands(env: Env, v: Value, buf: seq<Byte>, pos: nat, end: nat)
    requires WellFormed(env) && pos <= end <= |buf| && Stands(env, CString, v, buf[pos..end])
    ensures Deserialize(env, CString, buf, pos) == Done(v, end)
  {
    var rest :| (rest == [] || rest[0] == 0) && IsCounted(v.text + rest, buf[pos..end]);
    TextStands(buf, pos, end, v.text + rest);
    UpToNulIs(v.text, rest);
  }

  lemma LeafIsRead(env: Env, t: Type, v: Value, buf: seq<Byte>, pos: nat, end: nat)
    requires WellFormed(env) && IsLeaf(t) && pos <= end <= |buf| && Stands(env, t, v, buf[pos..end])
    ensures Deserialize(env, t, buf, pos) == Done(v, end)
  {
    match t
    case Bool => ByteRead(buf, pos, false);
    case Int(w, s) =>
      assert |buf[pos..end]| == w;
      IntStands(buf, pos, v.i, w, s);
    case Text => TextStands(buf, pos, end, v.text);
    case CString => CStringStands(env, v, buf, pos, end);
    case Nothing => assert |buf[pos..end]| == 0;
    case _ =>
  }

  lemma {:induction false} VariantIsRead(env: Env, v: Value, buf: seq<Byte>, pos: nat, end: nat)
    requires WellFormed(env) && pos <= end <= |buf| && Stands(env, Variant, v, buf[pos..end])
    ensures Deserialize(env, Variant, buf, pos) == Done(v, end)
    decreases v, 0
  {
    assert |buf[pos..end]| >= 1;
    Slices(buf, pos, pos + 1, end);
    IntStands(buf, pos, v.tag, 1, true);
    StandsIsRead(env, PayloadType(v.tag), v.payload, buf, pos + 1, end);
  }

  lemma {:induction false} ListIsRead(env: Env, e: Type, v: Value, buf: seq<Byte>, pos: nat, end: nat)
    requires WellFormed(env) && Known(env, e) && pos <= end <= |buf| && Stands(env, List(e), v, buf[pos..end])
    ensures Deserialize(env, List(e), buf, pos) == Done(v, end)
    decreases v, 0
  {
    var n := |v.values|;
    assert |buf[pos..end]| >= 4;
    Slices(buf, pos, pos + 4, end);
    Width4(n);
    IntStands(buf, pos, n, 4, false);
    ManyAreRead(env, e, Repeat(e, n), v.values, buf, pos + 4, end);
  }

  lemma {:induction false} PointerIsRead(env: Env, e: Type, v: Value, buf: seq<Byte>, pos: nat, end: nat)
    requires WellFormed(env) && Known(env, e) && pos <= end <= |buf| && Stands(env, Pointer(e), v, buf[pos..end])
    ensures Deserialize(env, Pointer(e), buf, pos) == Done(v, end)
    decreases v, 0
  {
    assert |buf[pos..end]| >= 1;
    ByteRead(buf, pos, true);
    if buf[pos] != 0 {
      Slices(buf, pos, pos + 1, end);
      StandsIsRead(env, e, v.target, buf, pos + 1, end);
    }
  }

  lemma {:induction false} StandsIsRead(env: Env, t: Type, v: Value, buf: seq<Byte>, pos: nat, end: nat)
    requires WellFormed(env) && Known(env, t) && pos <= end <= |buf| && Stands(env, t, v, buf[pos..end])
    ensures Deserialize(env, t, buf, pos) == Done(v, end)
    decreases v, 1
  {
    match t
    case Variant => VariantIsRead(env, v, buf, pos, end);
    case List(e) => ListIsRead(env, e, v, buf, pos, end);
    case Array(e, n) => ManyAreRead(env, e, Repeat(e, n), v.values, buf, pos, end);
    case Pointer(e) => PointerIsRead(env, e, v, buf, pos, end);
    case Class(c) => PartsAreRead(env, 2 * env[c].rank + 1, Parts(env[c]), v.parts, buf, pos, end);
    case _ => LeafIsRead(env, t, v, buf, pos, end);
  }

  lemma FirstEnd(env: Env, ts: seq<Type>, vs: seq<Value>, buf: seq<Byte>, pos: nat, end: nat) returns (mid: nat)
    requires vs != [] && pos <= end <= |buf| && AllStand(env, ts, vs, buf[pos..end])
    ensures |ts| == |vs| && pos <= mid <= end
    ensures Stands(env, ts[0], vs[0], buf[pos..mid]) && AllStand(env, ts[1..], vs[1..], buf[mid..end])
  {
    var bytes := buf[pos..end];
    var k: nat :| k <= |bytes| && Stands(env, ts[0], vs[0], bytes[..k]) && AllStand(env, ts[1..], vs[1..], bytes[k..]);
    mid := pos + k;
    Slices(buf, pos, mid, end);
  }

  lemma {:induction false} ManyAreRead(env: Env, t: Type, ts: seq<Type>, vs: seq<Value>, buf: seq<Byte>, pos: nat, end: nat)
    requires WellFormed(env) && Known(env, t) && AllAre(ts, t) && pos <= end <= |buf| && AllStand(env, ts, vs, buf[pos..end])
    ensures DeserializeMany(env, t, |vs|, buf, pos) == Done(vs, end)
    decreases vs, 0
  {
    if vs == [] {
      assert |buf[pos..end]| == 0;
    } else {
      var v, more, rest := vs[0], vs[1..], ts[1..];
      var mid := FirstEnd(env, ts, vs, buf, pos, end);
      StandsIsRead(env, ts[0], v, buf, pos, mid);
      ManyAreRead(env, t, rest, more, buf, mid, end);
      OneMoreIsRead(env, t, v, more, buf, pos, mid, end);
      assert vs == [v] + more;
    }
  }

  lemma {:induction false} PartsAreRead(env: Env, level: nat, ts: seq<Type>, vs: seq<Value>, buf: seq<Byte>, pos: nat, end: nat)
    requires WellFormed(env) && Below(env, ts, level) && pos <= end <= |buf| && AllStand(env, ts, vs, buf[pos..end])
    ensures DeserializeParts(env, level, ts, buf, pos) == Done(vs, end)
    decreases vs, 0
  {
    if vs == [] {
      assert |buf[pos..end]| == 0;
    } else {
      var mid := FirstEnd(env, ts, vs, buf, pos, end);
      StandsIsRead(env, ts[0], vs[0], buf, pos, mid);
      PartsAreRead(env, level, ts[1..], vs[1..], buf, mid, end);
      assert vs == [vs[0]] + vs[1..];
    }
  }

  /** deserialize returns a value and a position exactly if the bytes up to that position stand for the value. */
  lemma ReadsIffStands(env: Env, t: Type, v: Value, buf: seq<Byte>, pos: nat, end: nat)
    requires WellFormed(env) && Known(env, t) && pos <= |buf|
    ensures Deserialize(env, t, buf, pos) == Done(v, end) <==> pos <= end <= |buf| && Stands(env, t, v, buf[pos..end])
  {
    if Deserialize(env, t, buf, pos) == Done(v, end) {
      ReadStands(env, t, buf, pos);
    }
    if pos <= end <= |buf| && Stands(env, t, v, buf[pos..end]) {
      StandsIsRead(env, t, v, buf, pos, end);
    }
  }

  /** serialize writes bytes that stand for the value. */
  lemma SerializedStands(env: Env, t: Type, v: Value)
    requires WellFormed(env) && Known(env, t) && HasType(env, t, v)
    ensures Stands(env, t, v, Serialize(env, t, v))
  {
    var bytes := Serialize(env, t, v);
    assert bytes[0..|bytes|] == bytes;
    RoundTrip(env, t, v, bytes, 0);
    ReadsIffStands(env, t, v, bytes, 0, |bytes|);
  }

  /** No bytes stand for two values, and what stands for a value is not the beginning of what stands for another one. */
  lemma OneReading(env: Env, t: Type, v: Value, u: Value, bytes: seq<Byte>, more: seq<Byte>)
    requires WellFormed(env) && Known(env, t) && Stands(env, t, v, bytes) && Stands(env, t, u, bytes + more)
    ensures u == v && more == []
  {
    var buf := bytes + more;
    assert buf[0..|bytes|] == bytes && buf[0..|buf|] == buf;
    ReadsIffStands(env, t, v, buf, 0, |bytes|);
    ReadsIffStands(env, t, u, buf, 0, |buf|);
  }

  // ---- Frames ----

  lemma HeaderHeld(stream: seq<Byte>, pos: nat, id: nat, magic: nat, size: nat)
    requires pos + HEADER <= |stream|
    requires ReadInt(stream, pos, 4, false) == Done(id, pos + 4) && ReadInt(stream, pos + 4, 4, false) == Done(magic, pos + 8)
    requires ReadInt(stream, pos + 8, 8, false) == Done(size, pos + 16)
    ensures id < WORD32 && size < WORD64 && Holds(stream, pos, HeaderBytes(id, magic, size))
  {
    IntRead(stream, pos, 4, false);
    IntRead(stream, pos + 4, 4, false);
    IntRead(stream, pos + 8, 8, false);
    Width4(id);
    Width4(magic);
    Width8(size);
    var a, b, c := IntBytes(id, 4), IntBytes(magic, 4), IntBytes(size, 8);
    HoldsBoth(stream, pos, a, b);
    HoldsBoth(stream, pos, a + b, c);
  }

  /** Sizes below 16, which wrap around, point behind the end of any stream. */
  lemma MessageRead(stream: seq<Byte>, pos: nat, id: nat, payload: seq<Byte>, end: nat) returns (size: nat)
    requires |stream| < WORD64 && ReadFrame(stream, pos) == Done(Message(id, payload), end)
    ensures pos + HEADER <= |stream|
    ensures ReadInt(stream, pos, 4, false) == Done(id, pos + 4) && ReadInt(stream, pos + 4, 4, false) == Done(MAGIC_KEY, pos + 8)
    ensures ReadInt(stream, pos + 8, 8, false) == Done(size, pos + 16) && size == HEADER + |payload|
    ensures Holds(stream, pos + HEADER, payload) && end == pos + HEADER + |payload|
  {
    IntRead(stream, pos + 8, 8, false);
    size := ReadInt(stream, pos + 8, 8, false).value;
    Width8(size);
  }

  lemma MessageHeld(stream: seq<Byte>, pos: nat, id: nat, payload: seq<Byte>, end: nat)
    requires |stream| < WORD64 && ReadFrame(stream, pos) == Done(Message(id, payload), end)
    ensures Holds(stream, pos, FrameBytes(Message(id, payload))) && end == pos + HEADER + |payload| && id < WORD32
  {
    var size := MessageRead(stream, pos, id, payload, end);
    HeaderHeld(stream, pos, id, MAGIC_KEY, size);
    HoldsBoth(stream, pos, HeaderBytes(id, MAGIC_KEY, size), payload);
  }

  /** A message is read exactly where the stream holds its frame. */
  lemma MessageIffHeld(stream: seq<Byte>, pos: nat, id: nat, payload: seq<Byte>, end: nat)
    requires |stream| < WORD64
    ensures ReadFrame(stream, pos) == Done(Message(id, payload), end) <==>
              id < WORD32 && Holds(stream, pos, FrameBytes(Message(id, payload))) && end == pos + HEADER + |payload|
  {
    if ReadFrame(stream, pos) == Done(Message(id, payload), end) {
      MessageHeld(stream, pos, id, payload, end);
    }
    if id < WORD32 && Holds(stream, pos, FrameBytes(Message(id, payload))) && end == pos + HEADER + |payload| {
      FrameIsRead(stream, pos, Message(id, payload));
    }
  }

  /** An error is read exactly where the stream holds a header with the key for errors; the lowest byte of its size is the error. */
  lemma FailureIffHeld(stream: seq<Byte>, pos: nat, id: nat, error: nat, end: nat)
    ensures ReadFrame(stream, pos) == Done(Failure(id, error), end) <==>
              && id < WORD32 && end == pos + HEADER
              && exists size: nat :: size < WORD64 && size % 256 == error && Holds(stream, pos, HeaderBytes(id, MAGIC_ERROR_KEY, size))
  {
    if ReadFrame(stream, pos) == Done(Failure(id, error), end) {
      HeaderHeld(stream, pos, id, MAGIC_ERROR_KEY, ReadInt(stream, pos + 8, 8, false).value);
    }
    if size: nat :| id < WORD32 && end == pos + HEADER && size < WORD64 && size % 256 == error
                    && Holds(stream, pos, HeaderBytes(id, MAGIC_ERROR_KEY, size)) {
      HeaderIsRead(stream, pos, id, MAGIC_ERROR_KEY, size);
    }
  }
}
