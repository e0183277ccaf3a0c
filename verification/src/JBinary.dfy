/**
 * What the JBinary generator emits (devel/scripts/serialization-code-generator.py:223-359), as an
 * interpreter over schemas: for each class a length function, a serializer and a deserializer. The
 * bottom layer are the primitive serializers (src/include/core/container/container-binary-serializer.hpp)
 * and the tagged union (src/include/core/datatypes/VariableDatatypeJBinarySerialization.hpp).
 */
module JBinary {
  import opened Base

  type Byte = b: int | 0 <= b < 256

  // ---- Schemas ----

  /**
   * Enumerations travel as their underlying integer type, floating-point numbers as the unsigned
   * integer with the same bits.
   */
  datatype Type =
    | Nothing                          // a variant that holds no value
    | Bool
    | Int(width: nat, signed: bool)
    | Text                             // std::string
    | CString                          // the char * of a variant
    | Variant                          // VariableDatatype
    | List(elem: Type)                 // std::vector, std::list
    | Array(elem: Type, n: nat)        // std::array
    | Pointer(target: Type)
    | Class(name: string)

  /** A class may contain, other than behind pointers and in lists, only classes of smaller rank: those declared before it. */
  datatype ClassDef = ClassDef(parents: seq<string>, members: seq<Type>, rank: nat)

  type Env = map<string, ClassDef>

  predicate Known(env: Env, t: Type)
  {
    match t
    case List(e) => Known(env, e)
    case Array(e, n) => Known(env, e)
    case Pointer(e) => Known(env, e)
    case Class(c) => c in env
    case _ => true
  }

  /** What a value of the type may contain without a pointer or list in between. */
  function Level(env: Env, t: Type): nat
    requires Known(env, t)
  {
    match t
    case Array(e, n) => Level(env, e)
    case Class(c) => 2 * env[c].rank + 2
    case _ => 0
  }

  function AsTypes(parents: seq<string>): seq<Type>
  {
    seq(|parents|, i requires 0 <= i < |parents| => Class(parents[i]))
  }

  /** The parts of an object in the order in which they are serialized: parents, then members. */
  function Parts(d: ClassDef): seq<Type>
  {
    AsTypes(d.parents) + d.members
  }

  predicate Below(env: Env, ts: seq<Type>, level: nat)
  {
    forall i :: 0 <= i < |ts| ==> Known(env, ts[i]) && Level(env, ts[i]) < level
  }

  predicate WellFormed(env: Env)
  {
    forall c :: c in env ==> Below(env, Parts(env[c]), 2 * env[c].rank + 1)
  }

  // ---- Values ----

  datatype Value =
    | NoValue
    | BoolValue(b: bool)
    | IntValue(i: int)
    | TextValue(text: seq<Byte>)
    | VariantValue(tag: int, payload: Value)
    | ListValue(values: seq<Value>)
    | NullPointer
    | PointerTo(target: Value)
    | Object(parts: seq<Value>)

  function Pow256(width: nat): (p: nat)
    ensures p >= 1
  {
    if width == 0 then 1 else 256 * Pow256(width - 1)
  }

  predicate InRange(i: int, width: nat, signed: bool)
  {
    if signed then 0 <= 2 * i + Pow256(width) < 2 * Pow256(width) else 0 <= i < Pow256(width)
  }

  /** VariableDatatype::Type. */
  const INT64 := 0
  const UINT64 := 1
  const INT32 := 2
  const UINT32 := 3
  const FLOAT := 4
  const DOUBLE := 5
  const STRING := 6
  const INVALID := 7

  /** What follows the tag of a variant; nothing for INVALID, nor for a tag that is none of the eight. */
  function PayloadType(tag: int): Type
  {
    if tag == INT64 then Int(8, true)
    else if tag == UINT64 then Int(8, false)
    else if tag == INT32 then Int(4, true)
    else if tag == UINT32 || tag == FLOAT then Int(4, false)
    else if tag == DOUBLE then Int(8, false)
    else if tag == STRING then CString
    else Nothing
  }

  predicate HasType(env: Env, t: Type, v: Value)
    decreases v
  {
    match t
    case Nothing => v.NoValue?
    case Bool => v.BoolValue?
    case Int(w, s) => v.IntValue? && InRange(v.i, w, s)
    case Text => v.TextValue? && |v.text| < WORD32
    case CString => v.TextValue? && |v.text| < WORD32 && 0 !in v.text
    case Variant => v.VariantValue? && InRange(v.tag, 1, true) && HasType(env, PayloadType(v.tag), v.payload)
    case List(e) => v.ListValue? && |v.values| < WORD32 && forall i :: 0 <= i < |v.values| ==> HasType(env, e, v.values[i])
    case Array(e, n) => v.ListValue? && |v.values| == n && forall i :: 0 <= i < |v.values| ==> HasType(env, e, v.values[i])
    case Pointer(e) => v.NullPointer? || (v.PointerTo? && HasType(env, e, v.target))
    case Class(c) => v.Object? && c in env && HaveTypes(env, Parts(env[c]), v.parts)
  }

  predicate HaveTypes(env: Env, ts: seq<Type>, vs: seq<Value>)
    decreases vs
  {
    |ts| == |vs| && forall i :: 0 <= i < |vs| ==> HasType(env, ts[i], vs[i])
  }

  /** The types of the elements of a container. */
  function Repeat(t: Type, n: nat): seq<Type>
  {
    seq(n, i => t)
  }

  // ---- Length ----

  /** serializeLen of the emitted code: fixed widths for primitives, members before parents for classes. */
  function Len(env: Env, t: Type, v: Value): nat
    requires HasType(env, t, v)
    decreases v
  {
    match t
    case Nothing => 0
    case Bool => 1
    case Int(w, s) => w
    case Text => 4 + |v.text|
    case CString => |v.text| + 4
    case Variant => 1 + Len(env, PayloadType(v.tag), v.payload)
    case List(e) => 4 + LenAll(env, Repeat(e, |v.values|), v.values)
    case Array(e, n) => LenAll(env, Repeat(e, |v.values|), v.values)
    case Pointer(e) => if v.NullPointer? then 1 else Len(env, e, v.target) + 1
    case Class(c) => LenObject(env, env[c], v.parts)
  }

  function LenObject(env: Env, d: ClassDef, vs: seq<Value>): nat
    requires HaveTypes(env, Parts(d), vs)
    decreases vs, 1
  {
    var k := |d.parents|;
    assert vs[..k] + vs[k..] == vs;
    assert Parts(d)[..k] == AsTypes(d.parents) && Parts(d)[k..] == d.members;
    assert (k == 0 ==> vs[k..] == vs) && (k == |vs| ==> vs[..k] == vs);
    LenAll(env, d.members, vs[k..]) + LenAll(env, AsTypes(d.parents), vs[..k])
  }

  function LenAll(env: Env, ts: seq<Type>, vs: seq<Value>): nat
    requires HaveTypes(env, ts, vs)
    decreases vs, 0
  {
    if vs == [] then 0 else Len(env, ts[0], vs[0]) + LenAll(env, ts[1..], vs[1..])
  }

  // ---- Serialization ----

  /** The bytes of an integer as memcpy copies them on a little-endian machine. */
  function IntBytes(u: nat, width: nat): (bytes: seq<Byte>)
    ensures |bytes| == width
  {
    if width == 0 then [] else [u % 256] + IntBytes(u / 256, width - 1)
  }

  /** Two's complement. */
  function Unsigned(i: int, width: nat): int
  {
    if i < 0 then i + Pow256(width) else i
  }

  function Bytes(i: int, width: nat, signed: bool): (bytes: seq<Byte>)
    requires InRange(i, width, signed)
    ensures |bytes| == width
  {
    IntBytes(Unsigned(i, width), width)
  }

  function Serialize(env: Env, t: Type, v: Value): seq<Byte>
    requires HasType(env, t, v)
    decreases v
  {
    match t
    case Nothing => []
    case Bool => [if v.b then 1 else 0]
    case Int(w, s) => Bytes(v.i, w, s)
    case Text => IntBytes(|v.text|, 4) + v.text
    case CString => IntBytes(|v.text|, 4) + v.text
    case Variant => Bytes(v.tag, 1, true) + Serialize(env, PayloadType(v.tag), v.payload)
    case List(e) => IntBytes(|v.values|, 4) + SerializeAll(env, Repeat(e, |v.values|), v.values)
    case Array(e, n) => SerializeAll(env, Repeat(e, |v.values|), v.values)
    case Pointer(e) => if v.NullPointer? then [0] else [1] + Serialize(env, e, v.target)
    case Class(c) => SerializeAll(env, Parts(env[c]), v.parts)
  }

  function SerializeAll(env: Env, ts: seq<Type>, vs: seq<Value>): seq<Byte>
    requires HaveTypes(env, ts, vs)
    decreases vs
  {
    if vs == [] then [] else Serialize(env, ts[0], vs[0]) + SerializeAll(env, ts[1..], vs[1..])
  }

  // ---- Deserialization ----

  /** Short: a CHECK_LENGTH failed. */
  datatype Read<T> = Done(value: T, pos: nat) | Short

  predicate Advances<T>(r: Read<T>, pos: nat, limit: nat)
  {
    r.Done? ==> pos <= r.pos <= limit
  }

  function IntOf(bytes: seq<Byte>): nat
  {
    if bytes == [] then 0 else bytes[0] + 256 * IntOf(bytes[1..])
  }

  function Signed(u: int, width: nat, signed: bool): int
  {
    if signed && 2 * u >= Pow256(width) then u - Pow256(width) else u
  }

  function ReadInt(buf: seq<Byte>, pos: nat, width: nat, signed: bool): (r: Read<int>)
    requires pos <= |buf|
    ensures Advances(r, pos, |buf|)
  {
    if pos + width > |buf| then Short else Done(Signed(IntOf(buf[pos..pos + width]), width, signed), pos + width)
  }

  /** strndup stops at the first NUL. */
  function UpToNul(bytes: seq<Byte>): seq<Byte>
  {
    if bytes == [] || bytes[0] == 0 then [] else [bytes[0]] + UpToNul(bytes[1..])
  }

  function ReadText(buf: seq<Byte>, pos: nat): (r: Read<seq<Byte>>)
    requires pos <= |buf|
    ensures Advances(r, pos, |buf|)
  {
    var len := ReadInt(buf, pos, 4, false);
    if len.Short? || len.value < 0 || len.pos + len.value > |buf| then Short
    else Done(buf[len.pos..len.pos + len.value], len.pos + len.value)
  }

  function Size(t: Type): nat
  {
    match t
    case List(e) => 1 + Size(e)
    case Array(e, n) => 1 + Size(e)
    case Pointer(e) => 1 + Size(e)
    case _ => 0
  }

  function Deserialize(env: Env, t: Type, buf: seq<Byte>, pos: nat): (r: Read<Value>)
    requires WellFormed(env) && Known(env, t) && pos <= |buf|
    ensures Advances(r, pos, |buf|)
    decreases |buf| - pos, Level(env, t), Size(t), 0
  {
    match t
    case Nothing => Done(NoValue, pos)
    case Bool =>
      var r := ReadInt(buf, pos, 1, false);
      if r.Short? then Short else Done(BoolValue(r.value != 0), r.pos)
    case Int(w, s) =>
      var r := ReadInt(buf, pos, w, s);
      if r.Short? then Short else Done(IntValue(r.value), r.pos)
    case Text =>
      var r := ReadText(buf, pos);
      if r.Short? then Short else Done(TextValue(r.value), r.pos)
    case CString =>
      var r := ReadText(buf, pos);
      if r.Short? then Short else Done(TextValue(UpToNul(r.value)), r.pos)
    case Variant =>
      var tag := ReadInt(buf, pos, 1, true);
      if tag.Short? then Short
      else
        var r := Deserialize(env, PayloadType(tag.value), buf, tag.pos);
        if r.Short? then Short else Done(VariantValue(tag.value, r.value), r.pos)
    case List(e) =>
      var n := ReadInt(buf, pos, 4, false);
      if n.Short? || n.value < 0 then Short
      else
        var r := DeserializeMany(env, e, n.value, buf, n.pos);
        if r.Short? then Short else Done(ListValue(r.value), r.pos)
    case Array(e, n) =>
      var r := DeserializeMany(env, e, n, buf, pos);
      if r.Short? then Short else Done(ListValue(r.value), r.pos)
    case Pointer(e) =>
      var ptr := ReadInt(buf, pos, 1, true);
      if ptr.Short? then Short
      else if ptr.value == 0 then Done(NullPointer, ptr.pos)
      else
        var r := Deserialize(env, e, buf, ptr.pos);
        if r.Short? then Short else Done(PointerTo(r.value), r.pos)
    case Class(c) =>
      var r := DeserializeParts(env, 2 * env[c].rank + 1, Parts(env[c]), buf, pos);
      if r.Short? then Short else Done(Object(r.value), r.pos)
  }

  /** The loop over the elements of a container. */
  function DeserializeMany(env: Env, t: Type, n: nat, buf: seq<Byte>, pos: nat): (r: Read<seq<Value>>)
    requires WellFormed(env) && Known(env, t) && pos <= |buf|
    ensures Advances(r, pos, |buf|)
    decreases |buf| - pos, Level(env, t), Size(t), n + 1
  {
    if n == 0 then Done([], pos)
    else
      var first := Deserialize(env, t, buf, pos);
      if first.Short? then Short
      else
        var rest := DeserializeMany(env, t, n - 1, buf, first.pos);
        if rest.Short? then Short else Done([first.value] + rest.value, rest.pos)
  }

  /** The statements for the parents and members of a class. */
  function DeserializeParts(env: Env, level: nat, ts: seq<Type>, buf: seq<Byte>, pos: nat): (r: Read<seq<Value>>)
    requires WellFormed(env) && Below(env, ts, level) && pos <= |buf|
    ensures Advances(r, pos, |buf|)
    decreases |buf| - pos, level, 0, |ts|
  {
    if ts == [] then Done([], pos)
    else
      var first := Deserialize(env, ts[0], buf, pos);
      if first.Short? then Short
      else
        var rest := DeserializeParts(env, level, ts[1..], buf, first.pos);
        if rest.Short? then Short else Done([first.value] + rest.value, rest.pos)
  }
}
