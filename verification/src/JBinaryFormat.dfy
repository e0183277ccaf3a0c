/**
 * The bytes on the wire, byte by byte. That a value is read back says nothing about them, as long as writer and
 * reader agree; other programs and stored data rely on them.
 */
module JBinaryFormat {
  import opened Base
  import opened JBinary
  import opened JBinaryProofs
  import opened JBinaryBuffers
  import opened JBinaryFraming

  lemma QuotientIs(p: nat, q: int, r: nat, x: int)
    requires r < p && x == p * q + r
    ensures x / p == q
  {
    var d := x / p - q;
    assert p * d == r - x % p;
    if d > 0 { TimesAtLeast(p, d); } else if d < 0 { TimesAtLeast(p, -d); }
  }

  lemma TimesAtLeast(p: nat, d: int)
    requires d > 0
    ensures p * d >= p
  {}

  lemma DivideTwice(u: nat, p: nat)
    requires p > 0
    ensures u / 256 / p == u / (256 * p)
  {
    var half := u / 256;
    var q, r := half / p, half % p;
    assert u == 256 * half + u % 256 && half == p * q + r;
    assert 256 * (p * q) == (256 * p) * q;
    QuotientIs(256 * p, q, 256 * r + u % 256, u);
  }

  /** Byte `k` of an integer is its k-th digit to the base 256: the least significant one comes first. */
  lemma {:induction false} LittleEndian(u: nat, width: nat, k: nat)
    requires k < width
    ensures IntBytes(u, width)[k] == (u / Pow256(k)) % 256
  {
    if k > 0 {
      LittleEndian(u / 256, width - 1, k - 1);
      DivideTwice(u, Pow256(k - 1));
    }
  }

  lemma {:induction false} PowersDivide(k: nat, width: nat) returns (m: nat)
    requires k < width
    ensures Pow256(width) == Pow256(k) * (256 * m)
  {
    if k == width - 1 {
      m := 1;
    } else {
      var n := PowersDivide(k, width - 1);
      m := 256 * n;
    }
  }

  lemma AddMultiple(i: int, p: int, q: int)
    requires p > 0
    ensures (i + p * (256 * q)) / p % 256 == i / p % 256
  {
    QuotientIs(p, i / p + 256 * q, i % p, i + p * (256 * q));
  }

  /** Also byte `k` of a negative integer is its k-th digit, if division rounds down: two's complement. */
  lemma DigitsOfBytes(i: int, width: nat, signed: bool, k: nat)
    requires InRange(i, width, signed) && k < width
    ensures Bytes(i, width, signed)[k] == (i / Pow256(k)) % 256
  {
    LittleEndian(Unsigned(i, width), width, k);
    if i < 0 {
      var m := PowersDivide(k, width);
      AddMultiple(i, Pow256(k), m);
    }
  }

  /** A number below 65536 in four bytes. */
  lemma SmallInFourBytes(n: nat)
    requires n < 65536
    ensures IntBytes(n, 4) == [n % 256, n / 256, 0, 0]
  {
    assert IntBytes(n / 256 / 256, 2) == [0] + IntBytes(0, 1) && IntBytes(0, 1) == [0] + IntBytes(0, 0);
    assert IntBytes(n / 256, 3) == [n / 256] + IntBytes(n / 256 / 256, 2);
  }

  /** Truth values take a byte, 1 or 0. */
  lemma BoolBytes(env: Env, b: bool)
    ensures Serialize(env, Bool, BoolValue(b)) == [if b then 1 else 0]
  {}

  /** A byte with the number of the type, and the value: 8 bytes for 64-bit numbers, 4 for 32-bit numbers, nothing for INVALID. */
  lemma VariantBytes(env: Env, v: Value)
    requires HasType(env, Variant, v) && 0 <= v.tag < 8
    ensures var bytes := Serialize(env, Variant, v);
            && bytes[0] == v.tag
            && |bytes| == match v.tag
                          case 0 => 9 case 1 => 9 case 2 => 5 case 3 => 5 case 4 => 5 case 5 => 9
                          case 6 => 5 + (if v.payload.TextValue? then |v.payload.text| else 0)
                          case _ => 1
  {
    var payload := Serialize(env, PayloadType(v.tag), v.payload);
    assert Bytes(v.tag, 1, true) == [v.tag % 256] + IntBytes(v.tag / 256, 0);
    if v.tag == 6 {
      assert PayloadType(v.tag) == CString;
    }
  }

  /** Texts and containers begin with their length in four bytes; the characters or elements follow. */
  lemma CountedBytes(env: Env, e: Type, v: Value)
    requires HasType(env, List(e), v)
    ensures var bytes := Serialize(env, List(e), v);
            && |bytes| >= 4 && bytes[..4] == IntBytes(|v.values|, 4)
            && bytes[4..] == SerializeAll(env, Repeat(e, |v.values|), v.values)
  {}

  lemma TextBytes(env: Env, text: seq<Byte>)
    requires |text| < 65536
    ensures HasType(env, Text, TextValue(text))
    ensures Serialize(env, Text, TextValue(text)) == [|text| % 256, |text| / 256, 0, 0] + text
  {
    SmallInFourBytes(|text|);
  }

  /** A null pointer is a zero byte, any other one a byte 1 in front of its target. */
  lemma PointerBytes(env: Env, e: Type, v: Value)
    requires HasType(env, Pointer(e), v)
    ensures var bytes := Serialize(env, Pointer(e), v);
            if v.NullPointer? then bytes == [0] else bytes[0] == 1 && bytes[1..] == Serialize(env, e, v.target)
  {}

  /** An object: first its parents in their order, then its members in theirs. */
  lemma ParentsBeforeMembers(env: Env, c: string, ps: seq<Value>, ms: seq<Value>)
    requires c in env && HaveTypes(env, AsTypes(env[c].parents), ps) && HaveTypes(env, env[c].members, ms)
    ensures HasType(env, Class(c), Object(ps + ms))
    ensures Serialize(env, Class(c), Object(ps + ms))
         == SerializeAll(env, AsTypes(env[c].parents), ps) + SerializeAll(env, env[c].members, ms)
  {
    SerializeAllAppend(env, AsTypes(env[c].parents), ps, env[c].members, ms);
  }

  /** A frame: the id of the request, the key 14099, the size of the whole frame, and the payload. */
  lemma FrameLayout(id: nat, payload: seq<Byte>)
    ensures var bytes := FrameBytes(Message(id, payload));
            && |bytes| == 16 + |payload|
            && bytes[..4] == IntBytes(id, 4) && bytes[4..8] == [19, 55, 0, 0]
            && bytes[8..16] == IntBytes(16 + |payload|, 8) && bytes[16..] == payload
  {
    SmallInFourBytes(MAGIC_KEY);
    var header := HeaderBytes(id, MAGIC_KEY, HEADER + |payload|);
    var i, m, n := IntBytes(id, 4), IntBytes(MAGIC_KEY, 4), IntBytes(HEADER + |payload|, 8);
    assert header == i + m + n;
    assert header[..4] == i && header[4..8] == m && header[8..16] == n;
    var bytes := header + payload;
    assert bytes[..4] == header[..4] && bytes[4..8] == header[4..8] && bytes[8..16] == header[8..16];
  }
}
