/**
 * The emitted functions as they run: serialize writes into a buffer behind an advancing position, and
 * deserialize fills its object while it advances through a buffer.
 */
module JBinaryBuffers {
  import opened Base
  import opened JBinary
  import opened JBinaryProofs

  /** A buffer after `bytes` were copied to position `pos`. */
  function Patch(was: seq<Byte>, pos: nat, bytes: seq<Byte>): (now: seq<Byte>)
    requires pos + |bytes| <= |was|
    ensures |now| == |was| && Holds(now, pos, bytes)
  {
    was[..pos] + bytes + was[pos + |bytes|..]
  }

  lemma PatchTwice(was: seq<Byte>, pos: nat, a: seq<Byte>, b: seq<Byte>)
    requires pos + |a| + |b| <= |was|
    ensures Patch(Patch(was, pos, a), pos + |a|, b) == Patch(was, pos, a + b)
  {}

  lemma PatchWhole(was: seq<Byte>, bytes: seq<Byte>)
    requires |bytes| == |was|
    ensures Patch(was, 0, bytes) == bytes
  {}

  method CopyBytes(bytes: seq<Byte>, buffer: array<Byte>, pos: nat) returns (end: nat)
    requires pos + |bytes| <= buffer.Length
    modifies buffer
    ensures end == pos + |bytes| && buffer[..] == Patch(old(buffer[..]), pos, bytes)
  {
    for k := 0 to |bytes|
      invariant buffer[..] == Patch(old(buffer[..]), pos, bytes[..k])
    {
      ghost var before := buffer[..];
      buffer[pos + k] := bytes[k];
      assert bytes[..k + 1] == bytes[..k] + [bytes[k]];
      PatchTwice(old(buffer[..]), pos, bytes[..k], [bytes[k]]);
      assert buffer[..] == Patch(before, pos + k, [bytes[k]]);
    }
    assert bytes[..|bytes|] == bytes;
    end := pos + |bytes|;
  }

  /** What the first `i` values are serialized to. */
  ghost function Written(env: Env, ts: seq<Type>, vs: seq<Value>, i: nat): seq<Byte>
    requires HaveTypes(env, ts, vs) && i <= |vs|
  {
    assert HaveTypes(env, ts[..i], vs[..i]);
    SerializeAll(env, ts[..i], vs[..i])
  }

  lemma SplitAt(env: Env, ts: seq<Type>, vs: seq<Value>, i: nat)
    requires HaveTypes(env, ts, vs) && i <= |vs|
    ensures HaveTypes(env, ts[i..], vs[i..])
    ensures SerializeAll(env, ts, vs) == Written(env, ts, vs, i) + SerializeAll(env, ts[i..], vs[i..])
  {
    SerializeAllAppend(env, ts[..i], vs[..i], ts[i..], vs[i..]);
    assert ts == ts[..i] + ts[i..] && vs == vs[..i] + vs[i..];
  }

  lemma WrittenNext(env: Env, ts: seq<Type>, vs: seq<Value>, i: nat)
    requires HaveTypes(env, ts, vs) && i < |vs|
    ensures Written(env, ts, vs, i + 1) == Written(env, ts, vs, i) + Serialize(env, ts[i], vs[i])
    ensures |Written(env, ts, vs, i + 1)| <= |SerializeAll(env, ts, vs)|
  {
    SplitAt(env, ts, vs, i + 1);
    var us, ws := ts[..i + 1], vs[..i + 1];
    SplitAt(env, us, ws, i);
    assert us[..i] == ts[..i] && ws[..i] == vs[..i];
    SerializeOne(env, us[i..], ws[i..]);
  }

  lemma SerializeOne(env: Env, ts: seq<Type>, vs: seq<Value>)
    requires HaveTypes(env, ts, vs) && |vs| == 1
    ensures SerializeAll(env, ts, vs) == Serialize(env, ts[0], vs[0])
  {
    assert SerializeAll(env, ts[1..], vs[1..]) == [];
  }

  lemma WrittenAll(env: Env, ts: seq<Type>, vs: seq<Value>)
    requires HaveTypes(env, ts, vs)
    ensures Written(env, ts, vs, |vs|) == SerializeAll(env, ts, vs)
  {
    assert ts[..|vs|] == ts && vs[..|vs|] == vs;
  }

  method WriteText(text: seq<Byte>, buffer: array<Byte>, pos: nat) returns (end: nat)
    requires pos + 4 + |text| <= buffer.Length
    modifies buffer
    ensures end == pos + 4 + |text| && buffer[..] == Patch(old(buffer[..]), pos, IntBytes(|text|, 4) + text)
  {
    var len := IntBytes(|text|, 4);
    end := CopyBytes(len, buffer, pos);
    end := CopyBytes(text, buffer, end);
    PatchTwice(old(buffer[..]), pos, len, text);
  }

  method Write(env: Env, t: Type, v: Value, buffer: array<Byte>, pos: nat) returns (end: nat)
    requires HasType(env, t, v) && pos + |Serialize(env, t, v)| <= buffer.Length
    modifies buffer
    ensures end == pos + |Serialize(env, t, v)| && buffer[..] == Patch(old(buffer[..]), pos, Serialize(env, t, v))
    decreases v, 1
  {
    match t
    case Nothing =>
      end := CopyBytes([], buffer, pos);
    case Bool =>
      end := CopyBytes([if v.b then 1 else 0], buffer, pos);
    case Int(w, s) =>
      end := CopyBytes(Bytes(v.i, w, s), buffer, pos);
    case Text =>
      end := WriteText(v.text, buffer, pos);
    case CString =>
      end := WriteText(v.text, buffer, pos);
    case Variant =>
      end := WriteVariant(env, v, buffer, pos);
    case List(e) =>
      end := WriteList(env, e, v, buffer, pos);
    case Array(e, n) =>
      end := WriteAll(env, Repeat(e, |v.values|), v.values, buffer, pos);
    case Pointer(e) =>
      end := WritePointer(env, e, v, buffer, pos);
    case Class(c) =>
      end := WriteAll(env, Parts(env[c]), v.parts, buffer, pos);
  }

  method WriteVariant(env: Env, v: Value, buffer: array<Byte>, pos: nat) returns (end: nat)
    requires HasType(env, Variant, v) && pos + |Serialize(env, Variant, v)| <= buffer.Length
    modifies buffer
    ensures end == pos + |Serialize(env, Variant, v)| && buffer[..] == Patch(old(buffer[..]), pos, Serialize(env, Variant, v))
    decreases v, 0
  {
    var tag := Bytes(v.tag, 1, true);
    ghost var payload := Serialize(env, PayloadType(v.tag), v.payload);
    assert Serialize(env, Variant, v) == tag + payload;
    end := CopyBytes(tag, buffer, pos);
    end := Write(env, PayloadType(v.tag), v.payload, buffer, end);
    PatchTwice(old(buffer[..]), pos, tag, payload);
  }

  method WriteList(env: Env, e: Type, v: Value, buffer: array<Byte>, pos: nat) returns (end: nat)
    requires HasType(env, List(e), v) && pos + |Serialize(env, List(e), v)| <= buffer.Length
    modifies buffer
    ensures end == pos + |Serialize(env, List(e), v)| && buffer[..] == Patch(old(buffer[..]), pos, Serialize(env, List(e), v))
    decreases v, 0
  {
    var ts := Repeat(e, |v.values|);
    var vlen := IntBytes(|v.values|, 4);
    ghost var elements := SerializeAll(env, ts, v.values);
    assert Serialize(env, List(e), v) == vlen + elements;
    end := CopyBytes(vlen, buffer, pos);
    end := WriteAll(env, ts, v.values, buffer, end);
    PatchTwice(old(buffer[..]), pos, vlen, elements);
  }

  method WritePointer(env: Env, e: Type, v: Value, buffer: array<Byte>, pos: nat) returns (end: nat)
    requires HasType(env, Pointer(e), v) && pos + |Serialize(env, Pointer(e), v)| <= buffer.Length
    modifies buffer
    ensures end == pos + |Serialize(env, Pointer(e), v)| && buffer[..] == Patch(old(buffer[..]), pos, Serialize(env, Pointer(e), v))
    decreases v, 0
  {
    if v.NullPointer? {
      end := CopyBytes([0], buffer, pos);
    } else {
      end := CopyBytes([1], buffer, pos);
      end := Write(env, e, v.target, buffer, end);
      PatchTwice(old(buffer[..]), pos, [1], Serialize(env, e, v.target));
    }
  }

  method WriteAll(env: Env, ts: seq<Type>, vs: seq<Value>, buffer: array<Byte>, pos: nat) returns (end: nat)
    requires HaveTypes(env, ts, vs) && pos + |SerializeAll(env, ts, vs)| <= buffer.Length
    modifies buffer
    ensures end == pos + |SerializeAll(env, ts, vs)| && buffer[..] == Patch(old(buffer[..]), pos, SerializeAll(env, ts, vs))
    decreases vs, 0
  {
    ghost var was := buffer[..];
    ghost var done: seq<Byte> := [];
    end := pos;
    for i := 0 to |vs|
      invariant done == Written(env, ts, vs, i)
      invariant end == pos + |done| <= buffer.Length && buffer[..] == Patch(was, pos, done)
    {
      WrittenNext(env, ts, vs, i);
      end := Write(env, ts[i], vs[i], buffer, end);
      ghost var bytes := Serialize(env, ts[i], vs[i]);
      PatchTwice(was, pos, done, bytes);
      done := done + bytes;
    }
    WrittenAll(env, ts, vs);
  }

  /** A message as isend fills it: a header, and behind it an object. Neither assert on the position fails. */
  method WriteBehind(header: seq<Byte>, env: Env, t: Type, v: Value, buffer: array<Byte>)
    requires HasType(env, t, v) && buffer.Length == |header| + |Serialize(env, t, v)|
    modifies buffer
    ensures buffer[..] == header + Serialize(env, t, v)
  {
    ghost var was, bytes := buffer[..], Serialize(env, t, v);
    var pos := CopyBytes(header, buffer, 0);
    assert pos == |header|;
    pos := Write(env, t, v, buffer, pos);
    assert pos == buffer.Length;
    PatchTwice(was, 0, header, bytes);
    PatchWhole(was, header + bytes);
  }

  // ---- Deserialization ----

  function Prepend(vs: seq<Value>, r: Read<seq<Value>>): Read<seq<Value>>
  {
    if r.Short? then Short else Done(vs + r.value, r.pos)
  }

  lemma PrependTwice(vs: seq<Value>, v: Value, r: Read<seq<Value>>)
    ensures Prepend(vs, Prepend([v], r)) == Prepend(vs + [v], r)
  {
    if r.Done? {
      assert vs + ([v] + r.value) == vs + [v] + r.value;
    }
  }

  lemma PrependNone(r: Read<seq<Value>>)
    ensures Prepend([], r) == r
  {
    if r.Done? {
      assert [] + r.value == r.value;
    }
  }

  method Load(env: Env, t: Type, buffer: seq<Byte>, start: nat) returns (obj: Read<Value>)
    requires WellFormed(env) && Known(env, t) && start <= |buffer|
    ensures obj == Deserialize(env, t, buffer, start)
    decreases |buffer| - start, Level(env, t), Size(t), 0
  {
    match t
    case Variant =>
      var tag := ReadInt(buffer, start, 1, true);
      if tag.Short? {
        return Short;
      }
      var data := Load(env, PayloadType(tag.value), buffer, tag.pos);
      return if data.Short? then Short else Done(VariantValue(tag.value, data.value), data.pos);
    case List(e) =>
      var vlen := ReadInt(buffer, start, 4, false);
      if vlen.Short? || vlen.value < 0 {
        return Short;
      }
      var values := LoadMany(env, e, vlen.value, buffer, vlen.pos);
      return if values.Short? then Short else Done(ListValue(values.value), values.pos);
    case Array(e, n) =>
      var values := LoadMany(env, e, n, buffer, start);
      return if values.Short? then Short else Done(ListValue(values.value), values.pos);
    case Pointer(e) =>
      var ptr := ReadInt(buffer, start, 1, true);
      if ptr.Short? {
        return Short;
      }
      if ptr.value == 0 {
        return Done(NullPointer, ptr.pos);
      }
      var target := Load(env, e, buffer, ptr.pos);
      return if target.Short? then Short else Done(PointerTo(target.value), target.pos);
    case Class(c) =>
      var parts := LoadParts(env, 2 * env[c].rank + 1, Parts(env[c]), buffer, start);
      return if parts.Short? then Short else Done(Object(parts.value), parts.pos);
    case Nothing =>
      return Done(NoValue, start);
    case Bool =>
      var b := ReadInt(buffer, start, 1, false);
      return if b.Short? then Short else Done(BoolValue(b.value != 0), b.pos);
    case Int(w, s) =>
      var i := ReadInt(buffer, start, w, s);
      return if i.Short? then Short else Done(IntValue(i.value), i.pos);
    case Text =>
      var text := ReadText(buffer, start);
      return if text.Short? then Short else Done(TextValue(text.value), text.pos);
    case CString =>
      var text := ReadText(buffer, start);
      return if text.Short? then Short else Done(TextValue(UpToNul(text.value)), text.pos);
  }

  method LoadMany(env: Env, t: Type, n: nat, buffer: seq<Byte>, start: nat) returns (obj: Read<seq<Value>>)
    requires WellFormed(env) && Known(env, t) && start <= |buffer|
    ensures obj == DeserializeMany(env, t, n, buffer, start)
    decreases |buffer| - start, Level(env, t), Size(t), n + 1
  {
    var values: seq<Value> := [];
    var pos := start;
    PrependNone(DeserializeMany(env, t, n, buffer, start));
    for i := 0 to n
      invariant start <= pos <= |buffer|
      invariant DeserializeMany(env, t, n, buffer, start) == Prepend(values, DeserializeMany(env, t, n - i, buffer, pos))
    {
      var v := Load(env, t, buffer, pos);
      if v.Short? {
        return Short;
      }
      PrependTwice(values, v.value, DeserializeMany(env, t, n - i - 1, buffer, v.pos));
      values := values + [v.value];
      pos := v.pos;
    }
    assert values + [] == values;
    return Done(values, pos);
  }

  method LoadParts(env: Env, level: nat, ts: seq<Type>, buffer: seq<Byte>, start: nat) returns (obj: Read<seq<Value>>)
    requires WellFormed(env) && Below(env, ts, level) && start <= |buffer|
    ensures obj == DeserializeParts(env, level, ts, buffer, start)
    decreases |buffer| - start, level, 0, |ts|
  {
    var values: seq<Value> := [];
    var pos := start;
    PrependNone(DeserializeParts(env, level, ts, buffer, start));
    assert ts[0..] == ts;
    for i := 0 to |ts|
      invariant start <= pos <= |buffer|
      invariant Below(env, ts[i..], level)
      invariant DeserializeParts(env, level, ts, buffer, start) == Prepend(values, DeserializeParts(env, level, ts[i..], buffer, pos))
    {
      assert ts[i..][0] == ts[i] && ts[i..][1..] == ts[i + 1..];
      var v := Load(env, ts[i], buffer, pos);
      if v.Short? {
        return Short;
      }
      PrependTwice(values, v.value, DeserializeParts(env, level, ts[i + 1..], buffer, v.pos));
      values := values + [v.value];
      pos := v.pos;
    }
    assert values + [] == values;
    return Done(values, pos);
  }
}
