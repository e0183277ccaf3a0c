/**
 * The emitted length, serialize and deserialize functions fit together, for every schema and every
 * value of it.
 */
module JBinaryProofs {
  import opened Base
  import opened JBinary

  // ---- Integers ----

  lemma {:induction false} IntRoundTrip(u: nat, width: nat)
    requires u < Pow256(width)
    ensures IntOf(IntBytes(u, width)) == u
  {
    if width > 0 {
      IntRoundTrip(u / 256, width - 1);
      assert IntBytes(u, width)[1..] == IntBytes(u / 256, width - 1);
    }
  }

  lemma {:induction false} IntOfBound(bytes: seq<Byte>)
    ensures IntOf(bytes) < Pow256(|bytes|)
  {
    if bytes != [] {
      IntOfBound(bytes[1..]);
    }
  }

  lemma BytesRoundTrip(i: int, width: nat, signed: bool)
    requires InRange(i, width, signed)
    ensures Signed(IntOf(Bytes(i, width, signed)), width, signed) == i
  {
    IntRoundTrip(Unsigned(i, width), width);
  }

  lemma Width4(n: nat)
    ensures n < WORD32 <==> InRange(n, 4, false)
    ensures n < WORD32 ==> Bytes(n, 4, false) == IntBytes(n, 4)
  {
    assert Pow256(4) == 256 * Pow256(3) == 65536 * Pow256(2) == 16777216 * Pow256(1);
  }

  // ---- Reading what a buffer holds ----

  predicate Holds(buf: seq<Byte>, pos: nat, bytes: seq<Byte>)
  {
    pos + |bytes| <= |buf| && buf[pos..pos + |bytes|] == bytes
  }

  lemma HoldsBoth(buf: seq<Byte>, pos: nat, a: seq<Byte>, b: seq<Byte>)
    ensures Holds(buf, pos, a + b) <==> Holds(buf, pos, a) && Holds(buf, pos + |a|, b)
  {
    var mid, end := pos + |a|, pos + |a| + |b|;
    if end <= |buf| {
      assert buf[pos..end] == buf[pos..mid] + buf[mid..end];
      if buf[pos..end] == a + b {
        assert buf[pos..mid] == (a + b)[..|a|] == a;
        assert buf[mid..end] == (a + b)[|a|..] == b;
      }
    }
  }

  lemma ReadIntFinds(buf: seq<Byte>, pos: nat, i: int, width: nat, signed: bool)
    requires InRange(i, width, signed) && Holds(buf, pos, Bytes(i, width, signed))
    ensures ReadInt(buf, pos, width, signed) == Done(i, pos + width)
  {
    BytesRoundTrip(i, width, signed);
  }

  lemma HeadFinds(buf: seq<Byte>, pos: nat, i: int, width: nat, signed: bool, rest: seq<Byte>)
    requires InRange(i, width, signed) && Holds(buf, pos, Bytes(i, width, signed) + rest)
    ensures ReadInt(buf, pos, width, signed) == Done(i, pos + width) && Holds(buf, pos + width, rest)
  {
    HoldsBoth(buf, pos, Bytes(i, width, signed), rest);
    ReadIntFinds(buf, pos, i, width, signed);
  }

  lemma ReadTextKnown(buf: seq<Byte>, pos: nat, text: seq<Byte>)
    requires pos <= |buf| && ReadInt(buf, pos, 4, false) == Done(|text|, pos + 4) && Holds(buf, pos + 4, text)
    ensures ReadText(buf, pos) == Done(text, pos + 4 + |text|)
  {}

  lemma ReadTextFinds(buf: seq<Byte>, pos: nat, text: seq<Byte>)
    requires |text| < WORD32 && Holds(buf, pos, IntBytes(|text|, 4) + text)
    ensures ReadText(buf, pos) == Done(text, pos + 4 + |text|)
  {
    Width4(|text|);
    HeadFinds(buf, pos, |text|, 4, false, text);
    ReadTextKnown(buf, pos, text);
  }

  lemma {:induction false} NoNul(bytes: seq<Byte>)
    requires 0 !in bytes
    ensures UpToNul(bytes) == bytes
  {
    if bytes != [] {
      assert bytes[0] in bytes;
      NoNul(bytes[1..]);
    }
  }

  // ---- Length ----

  lemma SerializeFirst(env: Env, t: Type, v: Value, ts: seq<Type>, vs: seq<Value>)
    requires HasType(env, t, v) && HaveTypes(env, ts, vs)
    ensures HaveTypes(env, [t] + ts, [v] + vs)
    ensures SerializeAll(env, [t] + ts, [v] + vs) == Serialize(env, t, v) + SerializeAll(env, ts, vs)
  {
    assert ([t] + ts)[1..] == ts && ([v] + vs)[1..] == vs;
  }

  lemma Regroup(a: seq<Byte>, b: seq<Byte>, c: seq<Byte>)
    ensures a + (b + c) == a + b + c
  {}

  lemma FirstApart<T>(a: seq<T>, b: seq<T>)
    requires a != []
    ensures a == [a[0]] + a[1..] && a + b == [a[0]] + (a[1..] + b)
  {}

  lemma OneMoreAppends(env: Env, t: Type, v: Value, ts: seq<Type>, vs: seq<Value>, us: seq<Type>, ws: seq<Value>)
    requires HasType(env, t, v) && HaveTypes(env, ts, vs) && HaveTypes(env, us, ws) && HaveTypes(env, ts + us, vs + ws)
    requires SerializeAll(env, ts + us, vs + ws) == SerializeAll(env, ts, vs) + SerializeAll(env, us, ws)
    ensures HaveTypes(env, [t] + ts, [v] + vs) && HaveTypes(env, [t] + (ts + us), [v] + (vs + ws))
    ensures SerializeAll(env, [t] + (ts + us), [v] + (vs + ws)) == SerializeAll(env, [t] + ts, [v] + vs) + SerializeAll(env, us, ws)
  {
    SerializeFirst(env, t, v, ts, vs);
    SerializeFirst(env, t, v, ts + us, vs + ws);
    Regroup(Serialize(env, t, v), SerializeAll(env, ts, vs), SerializeAll(env, us, ws));
  }

  lemma {:induction false} SerializeAllAppend(env: Env, ts: seq<Type>, vs: seq<Value>, us: seq<Type>, ws: seq<Value>)
    requires HaveTypes(env, ts, vs) && HaveTypes(env, us, ws)
    ensures HaveTypes(env, ts + us, vs + ws)
    ensures SerializeAll(env, ts + us, vs + ws) == SerializeAll(env, ts, vs) + SerializeAll(env, us, ws)
    decreases |vs|
  {
    if vs == [] {
      assert ts + us == us && vs + ws == ws;
    } else {
      SerializeAllAppend(env, ts[1..], vs[1..], us, ws);
      OneMoreAppends(env, ts[0], vs[0], ts[1..], vs[1..], us, ws);
      FirstApart(ts, us);
      FirstApart(vs, ws);
    }
  }

  /** serialize writes exactly serializeLen bytes. */
  lemma {:induction false} LenIsSize(env: Env, t: Type, v: Value)
    requires HasType(env, t, v)
    ensures |Serialize(env, t, v)| == Len(env, t, v)
    decreases v, 0
  {
    match t
    case Variant => LenIsSize(env, PayloadType(v.tag), v.payload);
    case List(e) => LenAllIsSize(env, Repeat(e, |v.values|), v.values);
    case Array(e, n) => LenAllIsSize(env, Repeat(e, |v.values|), v.values);
    case Pointer(e) =>
      if v.PointerTo? {
        LenIsSize(env, e, v.target);
      }
    case Class(c) => LenObjectIsSize(env, env[c], v.parts);
    case _ =>
  }

  lemma {:induction false} LenAllIsSize(env: Env, ts: seq<Type>, vs: seq<Value>)
    requires HaveTypes(env, ts, vs)
    ensures |SerializeAll(env, ts, vs)| == LenAll(env, ts, vs)
    decreases vs, 0
  {
    if vs != [] {
      LenIsSize(env, ts[0], vs[0]);
      LenAllIsSize(env, ts[1..], vs[1..]);
    }
  }

  lemma {:induction false} LenObjectIsSize(env: Env, d: ClassDef, vs: seq<Value>)
    requires HaveTypes(env, Parts(d), vs)
    ensures |SerializeAll(env, Parts(d), vs)| == LenObject(env, d, vs)
    decreases vs, 1
  {
    var k := |d.parents|;
    var ts := AsTypes(d.parents);
    assert vs[..k] + vs[k..] == vs;
    assert Parts(d)[..k] == ts && Parts(d)[k..] == d.members;
    assert (k == 0 ==> vs[k..] == vs) && (k == |vs| ==> vs[..k] == vs);
    LenAllIsSize(env, ts, vs[..k]);
    LenAllIsSize(env, d.members, vs[k..]);
    SerializeAllAppend(env, ts, vs[..k], d.members, vs[k..]);
  }

  // ---- Round trip ----

  predicate IsLeaf(t: Type)
  {
    t.Nothing? || t.Bool? || t.Int? || t.Text? || t.CString?
  }

  lemma LeafRoundTrip(env: Env, t: Type, v: Value, buf: seq<Byte>, pos: nat)
    requires WellFormed(env) && IsLeaf(t) && HasType(env, t, v)
    requires Holds(buf, pos, Serialize(env, t, v))
    ensures Deserialize(env, t, buf, pos) == Done(v, pos + |Serialize(env, t, v)|)
  {
    match t
    case Nothing =>
    case Bool =>
      assert Serialize(env, t, v) == Bytes(if v.b then 1 else 0, 1, false);
      ReadIntFinds(buf, pos, if v.b then 1 else 0, 1, false);
    case Int(w, s) =>
      ReadIntFinds(buf, pos, v.i, w, s);
    case Text =>
      ReadTextFinds(buf, pos, v.text);
    case CString =>
      ReadTextFinds(buf, pos, v.text);
      NoNul(v.text);
  }

  /** What is left to show for a value that begins with a tag or a length: that its first bytes are read back. */
  lemma HeadRoundTrip(env: Env, t: Type, v: Value, buf: seq<Byte>, pos: nat)
    requires (t.Variant? || t.List? || t.Pointer?) && HasType(env, t, v) && Holds(buf, pos, Serialize(env, t, v))
    ensures t.Variant? ==> ReadInt(buf, pos, 1, true) == Done(v.tag, pos + 1)
                           && Holds(buf, pos + 1, Serialize(env, PayloadType(v.tag), v.payload))
    ensures t.List? ==> ReadInt(buf, pos, 4, false) == Done(|v.values|, pos + 4)
                        && Holds(buf, pos + 4, SerializeAll(env, Repeat(t.elem, |v.values|), v.values))
    ensures t.Pointer? ==> ReadInt(buf, pos, 1, true) == Done(if v.NullPointer? then 0 else 1, pos + 1)
                           && (v.PointerTo? ==> Holds(buf, pos + 1, Serialize(env, t.target, v.target)))
  {
    match t
    case Variant =>
      HeadFinds(buf, pos, v.tag, 1, true, Serialize(env, PayloadType(v.tag), v.payload));
    case List(e) =>
      var n := |v.values|;
      Width4(n);
      HeadFinds(buf, pos, n, 4, false, SerializeAll(env, Repeat(e, n), v.values));
    case Pointer(e) =>
      var rest := if v.NullPointer? then [] else Serialize(env, e, v.target);
      var tag := if v.NullPointer? then 0 else 1;
      assert Bytes(tag, 1, true) == [tag];
      assert Serialize(env, t, v) == [tag] + rest;
      HeadFinds(buf, pos, tag, 1, true, rest);
  }

  lemma {:induction false} VariantRoundTrip(env: Env, v: Value, buf: seq<Byte>, pos: nat)
    requires WellFormed(env) && HasType(env, Variant, v) && Holds(buf, pos, Serialize(env, Variant, v))
    ensures Deserialize(env, Variant, buf, pos) == Done(v, pos + |Serialize(env, Variant, v)|)
    decreases v, 0
  {
    HeadRoundTrip(env, Variant, v, buf, pos);
    RoundTrip(env, PayloadType(v.tag), v.payload, buf, pos + 1);
  }

  lemma {:induction false} ListRoundTrip(env: Env, e: Type, v: Value, buf: seq<Byte>, pos: nat)
    requires WellFormed(env) && Known(env, e) && HasType(env, List(e), v) && Holds(buf, pos, Serialize(env, List(e), v))
    ensures Deserialize(env, List(e), buf, pos) == Done(v, pos + |Serialize(env, List(e), v)|)
    decreases v, 0
  {
    HeadRoundTrip(env, List(e), v, buf, pos);
    ManyRoundTrip(env, e, Repeat(e, |v.values|), v.values, buf, pos + 4);
  }

  lemma {:induction false} PointerRoundTrip(env: Env, e: Type, v: Value, buf: seq<Byte>, pos: nat)
    requires WellFormed(env) && Known(env, e) && HasType(env, Pointer(e), v) && Holds(buf, pos, Serialize(env, Pointer(e), v))
    ensures Deserialize(env, Pointer(e), buf, pos) == Done(v, pos + |Serialize(env, Pointer(e), v)|)
    decreases v, 0
  {
    HeadRoundTrip(env, Pointer(e), v, buf, pos);
    if v.PointerTo? {
      RoundTrip(env, e, v.target, buf, pos + 1);
    }
  }

  /** Wherever a buffer holds a serialized value, deserialize returns it and stops right behind it. */
  lemma {:induction false} RoundTrip(env: Env, t: Type, v: Value, buf: seq<Byte>, pos: nat)
    requires WellFormed(env) && Known(env, t) && HasType(env, t, v)
    requires Holds(buf, pos, Serialize(env, t, v))
    ensures Deserialize(env, t, buf, pos) == Done(v, pos + |Serialize(env, t, v)|)
    decreases v, 1
  {
    match t
    case Variant => VariantRoundTrip(env, v, buf, pos);
    case List(e) => ListRoundTrip(env, e, v, buf, pos);
    case Array(e, n) => ManyRoundTrip(env, e, Repeat(e, n), v.values, buf, pos);
    case Pointer(e) => PointerRoundTrip(env, e, v, buf, pos);
    case Class(c) => PartsRoundTrip(env, 2 * env[c].rank + 1, Parts(env[c]), v.parts, buf, pos);
    case _ => LeafRoundTrip(env, t, v, buf, pos);
  }

  lemma OneMoreIsRead(env: Env, t: Type, v: Value, vs: seq<Value>, buf: seq<Byte>, pos: nat, mid: nat, end: nat)
    requires WellFormed(env) && Known(env, t) && pos <= |buf|
    requires Deserialize(env, t, buf, pos) == Done(v, mid) && DeserializeMany(env, t, |vs|, buf, mid) == Done(vs, end)
    ensures DeserializeMany(env, t, |vs| + 1, buf, pos) == Done([v] + vs, end)
  {}

  predicate AllAre(ts: seq<Type>, t: Type)
  {
    forall i :: 0 <= i < |ts| ==> ts[i] == t
  }

  lemma OthersAre(env: Env, t: Type, ts: seq<Type>, vs: seq<Value>)
    requires AllAre(ts, t) && HaveTypes(env, ts, vs) && vs != []
    ensures ts[0] == t && HasType(env, ts[0], vs[0]) && AllAre(ts[1..], t) && HaveTypes(env, ts[1..], vs[1..])
  {}

  /** A buffer that holds values holds the first of them, and the others right behind it. */
  lemma HoldsFirst(env: Env, ts: seq<Type>, vs: seq<Value>, buf: seq<Byte>, pos: nat)
    requires HaveTypes(env, ts, vs) && vs != [] && HaveTypes(env, ts[1..], vs[1..]) && HasType(env, ts[0], vs[0])
    requires Holds(buf, pos, SerializeAll(env, ts, vs))
    ensures var first, others := Serialize(env, ts[0], vs[0]), SerializeAll(env, ts[1..], vs[1..]);
            Holds(buf, pos, first) && Holds(buf, pos + |first|, others) && |SerializeAll(env, ts, vs)| == |first| + |others|
  {
    HoldsBoth(buf, pos, Serialize(env, ts[0], vs[0]), SerializeAll(env, ts[1..], vs[1..]));
  }

  lemma {:induction false} ManyRoundTrip(env: Env, t: Type, ts: seq<Type>, vs: seq<Value>, buf: seq<Byte>, pos: nat)
    requires WellFormed(env) && Known(env, t) && AllAre(ts, t) && HaveTypes(env, ts, vs)
    requires Holds(buf, pos, SerializeAll(env, ts, vs))
    ensures DeserializeMany(env, t, |vs|, buf, pos) == Done(vs, pos + |SerializeAll(env, ts, vs)|)
    decreases vs, 0
  {
    if vs != [] {
      OthersAre(env, t, ts, vs);
      HoldsFirst(env, ts, vs, buf, pos);
      var v, more, rest := vs[0], vs[1..], ts[1..];
      var mid := pos + |Serialize(env, t, v)|;
      RoundTrip(env, t, v, buf, pos);
      ManyRoundTrip(env, t, rest, more, buf, mid);
      OneMoreIsRead(env, t, v, more, buf, pos, mid, mid + |SerializeAll(env, rest, more)|);
      assert vs == [v] + more;
    }
  }

  lemma {:induction false} PartsRoundTrip(env: Env, level: nat, ts: seq<Type>, vs: seq<Value>, buf: seq<Byte>, pos: nat)
    requires WellFormed(env) && Below(env, ts, level) && HaveTypes(env, ts, vs)
    requires Holds(buf, pos, SerializeAll(env, ts, vs))
    ensures DeserializeParts(env, level, ts, buf, pos) == Done(vs, pos + |SerializeAll(env, ts, vs)|)
    decreases vs, 0
  {
    if vs != [] {
      var first, others := Serialize(env, ts[0], vs[0]), SerializeAll(env, ts[1..], vs[1..]);
      HoldsBoth(buf, pos, first, others);
      RoundTrip(env, ts[0], vs[0], buf, pos);
      PartsRoundTrip(env, level, ts[1..], vs[1..], buf, pos + |first|);
      assert [vs[0]] + vs[1..] == vs;
    }
  }

  /** In the words of the interface: any prefix, any suffix. */
  lemma RoundTripAnywhere(env: Env, t: Type, v: Value, front: seq<Byte>, back: seq<Byte>)
    requires WellFormed(env) && Known(env, t) && HasType(env, t, v)
    ensures Deserialize(env, t, front + Serialize(env, t, v) + back, |front|) == Done(v, |front| + Len(env, t, v))
  {
    var bytes := Serialize(env, t, v);
    var buf := front + bytes + back;
    assert buf[|front|..|front| + |bytes|] == bytes;
    RoundTrip(env, t, v, buf, |front|);
    LenIsSize(env, t, v);
  }

  // ---- Truncated buffers ----

  /** The buffer ends inside the bytes. */
  predicate Cut(buf: seq<Byte>, pos: nat, bytes: seq<Byte>)
  {
    pos <= |buf| < pos + |bytes| && buf[pos..] == bytes[..|buf| - pos]
  }

  lemma CutInOne(buf: seq<Byte>, pos: nat, a: seq<Byte>, b: seq<Byte>)
    requires Cut(buf, pos, a + b)
    ensures Cut(buf, pos, a) || (Holds(buf, pos, a) && Cut(buf, pos + |a|, b))
  {
    var n := |buf| - pos;
    if n < |a| {
      assert (a + b)[..n] == a[..n];
    } else {
      assert buf[pos..pos + |a|] == buf[pos..][..|a|] == (a + b)[..n][..|a|] == a;
      assert buf[pos + |a|..] == buf[pos..][|a|..] == (a + b)[..n][|a|..] == b[..n - |a|];
    }
  }

  lemma LeafTruncated(env: Env, t: Type, v: Value, buf: seq<Byte>, pos: nat)
    requires WellFormed(env) && IsLeaf(t) && HasType(env, t, v)
    requires Cut(buf, pos, Serialize(env, t, v))
    ensures Deserialize(env, t, buf, pos).Short?
  {
    if t.Text? || t.CString? {
      var n := |v.text|;
      CutInOne(buf, pos, IntBytes(n, 4), v.text);
      if Holds(buf, pos, IntBytes(n, 4)) {
        Width4(n);
        ReadIntFinds(buf, pos, n, 4, false);
      }
      assert ReadText(buf, pos).Short?;
    }
  }

  lemma {:induction false} VariantTruncated(env: Env, v: Value, buf: seq<Byte>, pos: nat)
    requires WellFormed(env) && HasType(env, Variant, v) && Cut(buf, pos, Serialize(env, Variant, v))
    ensures Deserialize(env, Variant, buf, pos).Short?
    decreases v, 0
  {
    var tag, payload := Bytes(v.tag, 1, true), Serialize(env, PayloadType(v.tag), v.payload);
    CutInOne(buf, pos, tag, payload);
    if Holds(buf, pos, tag) {
      ReadIntFinds(buf, pos, v.tag, 1, true);
      Truncated(env, PayloadType(v.tag), v.payload, buf, pos + 1);
    }
  }

  lemma {:induction false} ListTruncated(env: Env, e: Type, v: Value, buf: seq<Byte>, pos: nat)
    requires WellFormed(env) && Known(env, e) && HasType(env, List(e), v) && Cut(buf, pos, Serialize(env, List(e), v))
    ensures Deserialize(env, List(e), buf, pos).Short?
    decreases v, 0
  {
    var n := |v.values|;
    CutInOne(buf, pos, IntBytes(n, 4), SerializeAll(env, Repeat(e, n), v.values));
    if Holds(buf, pos, IntBytes(n, 4)) {
      Width4(n);
      ReadIntFinds(buf, pos, n, 4, false);
      ManyTruncated(env, e, Repeat(e, n), v.values, buf, pos + 4);
    }
  }

  lemma {:induction false} PointerTruncated(env: Env, e: Type, v: Value, buf: seq<Byte>, pos: nat)
    requires WellFormed(env) && Known(env, e) && HasType(env, Pointer(e), v) && Cut(buf, pos, Serialize(env, Pointer(e), v))
    ensures Deserialize(env, Pointer(e), buf, pos).Short?
    decreases v, 0
  {
    if v.PointerTo? {
      CutInOne(buf, pos, Bytes(1, 1, true), Serialize(env, e, v.target));
      if Holds(buf, pos, Bytes(1, 1, true)) {
        ReadIntFinds(buf, pos, 1, 1, true);
        Truncated(env, e, v.target, buf, pos + 1);
      }
    }
  }

  /** A buffer that ends inside a serialized value always fails a bounds check, instead of giving another value. */
  lemma {:induction false} Truncated(env: Env, t: Type, v: Value, buf: seq<Byte>, pos: nat)
    requires WellFormed(env) && Known(env, t) && HasType(env, t, v)
    requires Cut(buf, pos, Serialize(env, t, v))
    ensures Deserialize(env, t, buf, pos).Short?
    decreases v, 1
  {
    match t
    case Variant => VariantTruncated(env, v, buf, pos);
    case List(e) => ListTruncated(env, e, v, buf, pos);
    case Array(e, n) => ManyTruncated(env, e, Repeat(e, n), v.values, buf, pos);
    case Pointer(e) => PointerTruncated(env, e, v, buf, pos);
    case Class(c) => PartsTruncated(env, 2 * env[c].rank + 1, Parts(env[c]), v.parts, buf, pos);
    case _ => LeafTruncated(env, t, v, buf, pos);
  }

  lemma {:induction false} ManyTruncated(env: Env, t: Type, ts: seq<Type>, vs: seq<Value>, buf: seq<Byte>, pos: nat)
    requires WellFormed(env) && Known(env, t) && AllAre(ts, t) && HaveTypes(env, ts, vs)
    requires Cut(buf, pos, SerializeAll(env, ts, vs))
    ensures DeserializeMany(env, t, |vs|, buf, pos).Short?
    decreases vs, 0
  {
    var first, others := Serialize(env, t, vs[0]), SerializeAll(env, ts[1..], vs[1..]);
    CutInOne(buf, pos, first, others);
    if Cut(buf, pos, first) {
      Truncated(env, t, vs[0], buf, pos);
    } else {
      RoundTrip(env, t, vs[0], buf, pos);
      ManyTruncated(env, t, ts[1..], vs[1..], buf, pos + |first|);
    }
  }

  lemma {:induction false} PartsTruncated(env: Env, level: nat, ts: seq<Type>, vs: seq<Value>, buf: seq<Byte>, pos: nat)
    requires WellFormed(env) && Below(env, ts, level) && HaveTypes(env, ts, vs)
    requires Cut(buf, pos, SerializeAll(env, ts, vs))
    ensures DeserializeParts(env, level, ts, buf, pos).Short?
    decreases vs, 0
  {
    var first, others := Serialize(env, ts[0], vs[0]), SerializeAll(env, ts[1..], vs[1..]);
    CutInOne(buf, pos, first, others);
    if Cut(buf, pos, first) {
      Truncated(env, ts[0], vs[0], buf, pos);
    } else {
      RoundTrip(env, ts[0], vs[0], buf, pos);
      PartsTruncated(env, level, ts[1..], vs[1..], buf, pos + |first|);
    }
  }

  // ---- Whatever is read is a value of the type ----

  lemma ReadIntInRange(buf: seq<Byte>, pos: nat, width: nat, signed: bool)
    requires pos <= |buf| && ReadInt(buf, pos, width, signed).Done?
    ensures InRange(ReadInt(buf, pos, width, signed).value, width, signed)
  {
    IntOfBound(buf[pos..pos + width]);
  }

  lemma {:induction false} UpToNulHasNone(bytes: seq<Byte>)
    ensures 0 !in UpToNul(bytes) && |UpToNul(bytes)| <= |bytes|
  {
    if bytes != [] {
      UpToNulHasNone(bytes[1..]);
    }
  }

  lemma LeafHasType(env: Env, t: Type, buf: seq<Byte>, pos: nat)
    requires WellFormed(env) && IsLeaf(t) && pos <= |buf| && Deserialize(env, t, buf, pos).Done?
    ensures HasType(env, t, Deserialize(env, t, buf, pos).value)
  {
    match t
    case Int(w, s) =>
      ReadIntInRange(buf, pos, w, s);
    case Text =>
      ReadIntInRange(buf, pos, 4, false);
      Width4(ReadInt(buf, pos, 4, false).value);
    case CString =>
      ReadIntInRange(buf, pos, 4, false);
      Width4(ReadInt(buf, pos, 4, false).value);
      UpToNulHasNone(ReadText(buf, pos).value);
    case _ =>
  }

  /** Whatever bytes arrive, what deserialize makes of them is a value that serialize and deserialize carry over unchanged. */
  lemma {:induction false} DecodedHasType(env: Env, t: Type, buf: seq<Byte>, pos: nat)
    requires WellFormed(env) && Known(env, t) && pos <= |buf| && Deserialize(env, t, buf, pos).Done?
    ensures HasType(env, t, Deserialize(env, t, buf, pos).value)
    decreases |buf| - pos, Level(env, t), Size(t), 0
  {
    match t
    case Variant =>
      var tag := ReadInt(buf, pos, 1, true);
      ReadIntInRange(buf, pos, 1, true);
      DecodedHasType(env, PayloadType(tag.value), buf, tag.pos);
    case List(e) =>
      var n := ReadInt(buf, pos, 4, false);
      ReadIntInRange(buf, pos, 4, false);
      Width4(n.value);
      ManyHaveType(env, e, n.value, buf, n.pos);
    case Array(e, n) =>
      ManyHaveType(env, e, n, buf, pos);
    case Pointer(e) =>
      var ptr := ReadInt(buf, pos, 1, true);
      if ptr.value != 0 {
        DecodedHasType(env, e, buf, ptr.pos);
      }
    case Class(c) =>
      PartsHaveTypes(env, 2 * env[c].rank + 1, Parts(env[c]), buf, pos);
    case _ =>
      LeafHasType(env, t, buf, pos);
  }

  lemma {:induction false} ManyHaveType(env: Env, t: Type, n: nat, buf: seq<Byte>, pos: nat)
    requires WellFormed(env) && Known(env, t) && pos <= |buf| && DeserializeMany(env, t, n, buf, pos).Done?
    ensures var vs := DeserializeMany(env, t, n, buf, pos).value;
            |vs| == n && forall i :: 0 <= i < n ==> HasType(env, t, vs[i])
    decreases |buf| - pos, Level(env, t), Size(t), n + 1
  {
    if n != 0 {
      DecodedHasType(env, t, buf, pos);
      ManyHaveType(env, t, n - 1, buf, Deserialize(env, t, buf, pos).pos);
    }
  }

  lemma {:induction false} PartsHaveTypes(env: Env, level: nat, ts: seq<Type>, buf: seq<Byte>, pos: nat)
    requires WellFormed(env) && Below(env, ts, level) && pos <= |buf| && DeserializeParts(env, level, ts, buf, pos).Done?
    ensures HaveTypes(env, ts, DeserializeParts(env, level, ts, buf, pos).value)
    decreases |buf| - pos, level, 0, |ts|
  {
    if ts != [] {
      DecodedHasType(env, ts[0], buf, pos);
      PartsHaveTypes(env, level, ts[1..], buf, Deserialize(env, ts[0], buf, pos).pos);
    }
  }
}
