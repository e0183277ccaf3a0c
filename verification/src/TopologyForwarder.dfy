/**
 * The forwarded topology: the client half
 * (src/monitoring/topology/NetworkForwarderTopology/NetworkForwarderTopology.cpp) packs each call into a
 * request, the server half (NetworkForwarderTopologyServer.cpp) performs it on its backend and packs the
 * result into a response. Both messages travel serialized.
 */
module TopologyForwarder {
  import opened Base
  import opened Variables
  import opened JBinary
  import opened JBinaryProofs
  import opened TopologyStore
  import opened TopologyByPath
  import T = TopologyThreads

  datatype Operation =
    | RegisterType(name: string)
    | LookUpTypeByName(name: string)
    | LookUpTypeById(id: nat)
    | RegisterObject(parent: nat, relationType: nat, name: string, objectType: nat)
    | LookUpObjectById(id: nat)
    | RegisterRelation(parent: nat, relationType: nat, name: string, child: nat)
    | LookUpRelation(parent: nat, relationType: nat, name: string)
    | RegisterAttribute(domain: nat, name: string, dt: nat)
    | LookUpAttributeByName(domain: nat, name: string)
    | LookUpAttributeById(id: nat)
    | SetAttribute(owner: nat, attribute: nat, value: Variable)
    | GetAttribute(owner: nat, attribute: nat)

  /** The handles that a topology returns, with what they show. */
  datatype Handle =
    | Null
    | TypeHandle(name: string, id: nat)
    | ObjectHandle(ty: nat, id: nat)
    | RelationHandle(name: string, parent: nat, child: nat, relationType: nat)
    | AttributeHandle(name: string, domain: nat, dt: int, id: nat)
    | ValueHandle(value: Variable, owner: nat, attribute: nat)
    | Flag(success: bool)            // setAttribute returns no handle

  // ---- The backend ----

  function AttributeOf(s: Store, id: nat): Handle
  {
    if 1 <= id <= |s.attributes.keys| && id <= |s.datatypes| then
      AttributeHandle(s.attributes.keys[id - 1].name, s.attributes.keys[id - 1].domain, s.datatypes[id - 1], id)
    else Null
  }

  /** The same calls on the backend itself. */
  function Direct(s: Store, op: Operation): (Store, Handle)
  {
    match op
    case RegisterType(name) =>
      var (s', answer) := T.Call(s, T.RegisterType(name));
      (s', if answer.Id? then TypeHandle(name, answer.id) else Null)
    case LookUpTypeByName(name) => (s, if name in s.types.ids then TypeHandle(name, s.types.ids[name]) else Null)
    case LookUpTypeById(id) => (s, if 1 <= id <= |s.types.keys| then TypeHandle(s.types.keys[id - 1], id) else Null)
    case RegisterObject(parent, rt, name, ot) =>
      var (s', answer) := T.Call(s, T.RegisterObject(parent, Key(name, rt), ot));
      (s', if answer.Id? then ObjectHandle(ot, answer.id) else Null)
    case LookUpObjectById(id) => (s, if 1 <= id < |s.objectTypes| then ObjectHandle(s.objectTypes[id], id) else Null)
    case RegisterRelation(parent, rt, name, child) =>
      var (s', answer) := T.Call(s, T.RegisterRelation(Relation(parent, Key(name, rt), child)));
      (s', if answer.Linked? then HandleOf(answer.relation) else Null)
    case LookUpRelation(parent, rt, name) =>
      (s, if parent < |s.children| && Key(name, rt) in s.children[parent] then HandleOf(s.children[parent][Key(name, rt)]) else Null)
    case RegisterAttribute(domain, name, dt) =>
      var (s', answer) := T.Call(s, T.RegisterAttribute(Attribute(domain, name), dt));
      (s', if answer.Id? then AttributeOf(s', answer.id) else Null)
    case LookUpAttributeByName(domain, name) =>
      (s, if Attribute(domain, name) in s.attributes.ids then AttributeOf(s, s.attributes.ids[Attribute(domain, name)]) else Null)
    case LookUpAttributeById(id) => (s, AttributeOf(s, id))
    case SetAttribute(owner, attribute, value) =>
      var (s', answer) := T.Call(s, T.SetAttribute(owner, attribute, value));
      (s', Flag(answer.Success?))
    case GetAttribute(owner, attribute) =>
      (s, if 1 <= owner < |s.values| && attribute in s.values[owner] then ValueHandle(s.values[owner][attribute], owner, attribute)
          else Null)
  }

  function HandleOf(r: Relation): Handle
  {
    RelationHandle(r.key.childName, r.parent, r.child, r.key.relationType)
  }

  // ---- Messages ----

  const REQUEST := "NetworkForwarderRequestMessage"
  const RESPONSE := "NetworkForwarderResponseMessage"

  const FORWARDER_ENV: Env := map[
    REQUEST := ClassDef([], [Int(4, true), Int(4, true), Int(4, true), Int(4, true), Text, Variant], 0),
    RESPONSE := ClassDef([], [Int(4, true), Int(4, true), Int(4, true), Text, Variant], 0)]

  /** A field that nobody has assigned holds anything. */
  datatype Request = Request(kind: int, id: int, ty: int, other: int, name: string, variable: Variable)

  datatype Response = Response(id: int, ty: int, other: int, name: string, variable: Variable)

  predicate IsInt32(i: int)
  {
    -0x8000_0000 <= i < 0x8000_0000
  }

  /** An unsigned id in a field of type int32_t, and back. */
  function ToInt32(id: nat): int
  {
    if id < 0x8000_0000 then id else id - WORD32
  }

  function FromInt32(i: int): int
  {
    if i < 0 then i + WORD32 else i
  }

  function ToBytes(s: string): seq<Byte>
    requires IsBytes(s)
  {
    seq(|s|, i requires 0 <= i < |s| => s[i] as int)
  }

  function FromBytes(bytes: seq<Byte>): string
  {
    seq(|bytes|, i requires 0 <= i < |bytes| => bytes[i] as char)
  }

  predicate Sendable(id: int, ty: int, other: int, name: string, variable: Variable)
  {
    IsInt32(id) && IsInt32(ty) && IsInt32(other) && IsBytes(name) && IsVariable(variable)
  }

  function VariableValue(variable: Variable): Value
    requires IsVariable(variable)
  {
    match variable
    case Int64(i) => VariantValue(INT64, IntValue(i))
    case UInt64(u) => VariantValue(UINT64, IntValue(u))
    case Int32(i) => VariantValue(INT32, IntValue(i))
    case UInt32(u) => VariantValue(UINT32, IntValue(u))
    case Float(bits) => VariantValue(FLOAT, IntValue(bits))
    case Double(bits) => VariantValue(DOUBLE, IntValue(bits))
    case Chars(text) => VariantValue(STRING, TextValue(ToBytes(text)))
    case Invalid => VariantValue(INVALID, NoValue)
  }

  function VariableOf(v: Value): Variable
  {
    if !v.VariantValue? then Invalid
    else if v.payload.TextValue? then (if v.tag == STRING then Chars(FromBytes(v.payload.text)) else Invalid)
    else if !v.payload.IntValue? then Invalid
    else
      var i := v.payload.i;
      if v.tag == INT64 then Int64(i)
      else if v.tag == INT32 then Int32(i)
      else if i < 0 then Invalid
      else if v.tag == UINT64 then UInt64(i)
      else if v.tag == UINT32 then UInt32(i)
      else if v.tag == FLOAT then Float(i)
      else if v.tag == DOUBLE then Double(i)
      else Invalid
  }

  function RequestValue(r: Request): Value
    requires Sendable(r.id, r.ty, r.other, r.name, r.variable)
  {
    Object([IntValue(r.kind), IntValue(r.id), IntValue(r.ty), IntValue(r.other), TextValue(ToBytes(r.name)), VariableValue(r.variable)])
  }

  function ResponseValue(r: Response): Value
    requires Sendable(r.id, r.ty, r.other, r.name, r.variable)
  {
    Object([IntValue(r.id), IntValue(r.ty), IntValue(r.other), TextValue(ToBytes(r.name)), VariableValue(r.variable)])
  }

  /** What a deserialized message shows in its fields. */
  function RequestOf(v: Value): Option<Request>
  {
    if v.Object? && |v.parts| == 6 && v.parts[0].IntValue? && v.parts[1].IntValue? && v.parts[2].IntValue?
       && v.parts[3].IntValue? && v.parts[4].TextValue?
    then Some(Request(v.parts[0].i, v.parts[1].i, v.parts[2].i, v.parts[3].i, FromBytes(v.parts[4].text), VariableOf(v.parts[5])))
    else None
  }

  function ResponseOf(v: Value): Option<Response>
  {
    if v.Object? && |v.parts| == 5 && v.parts[0].IntValue? && v.parts[1].IntValue? && v.parts[2].IntValue? && v.parts[3].TextValue?
    then Some(Response(v.parts[0].i, v.parts[1].i, v.parts[2].i, FromBytes(v.parts[3].text), VariableOf(v.parts[4])))
    else None
  }

  // ---- Client and server ----

  /** What is in the fields that are not assigned. */
  datatype Junk = Junk(id: int, ty: int, other: int)

  predicate Possible(junk: Junk)
  {
    IsInt32(junk.id) && IsInt32(junk.ty) && IsInt32(junk.other)
  }

  /** The client fills in a request; the kinds are numbered as in NetworkForwarderMessageType. */
  function Ask(op: Operation, junk: Junk): Request
  {
    match op
    case RegisterType(name) => Request(0, 0, junk.ty, junk.other, name, Invalid)
    case LookUpTypeByName(name) => Request(1, 0, junk.ty, junk.other, name, Invalid)
    case LookUpTypeById(id) => Request(2, ToInt32(id), junk.ty, junk.other, "", Invalid)
    case RegisterObject(parent, rt, name, ot) => Request(3, ToInt32(parent), ToInt32(rt), ToInt32(ot), name, Invalid)
    case LookUpObjectById(id) => Request(4, ToInt32(id), junk.ty, junk.other, "", Invalid)
    case RegisterRelation(parent, rt, name, child) => Request(5, ToInt32(parent), ToInt32(rt), ToInt32(child), name, Invalid)
    case LookUpRelation(parent, rt, name) => Request(6, ToInt32(parent), ToInt32(rt), junk.other, name, Invalid)
    case RegisterAttribute(domain, name, dt) => Request(7, ToInt32(domain), junk.ty, dt, name, Invalid)
    case LookUpAttributeByName(domain, name) => Request(8, ToInt32(domain), junk.ty, junk.other, name, Invalid)
    case LookUpAttributeById(id) => Request(9, ToInt32(id), junk.ty, junk.other, "", Invalid)
    case SetAttribute(owner, attribute, value) => Request(10, ToInt32(owner), ToInt32(attribute), junk.other, "", value)
    case GetAttribute(owner, attribute) => Request(11, ToInt32(owner), ToInt32(attribute), junk.other, "", Invalid)
  }

  /** The call that the server makes; none for a kind that it does not know. */
  function CallOf(r: Request): Option<Operation>
  {
    if !IsInt32(r.id) || !IsInt32(r.ty) || !IsInt32(r.other) then None
    else
      var id, ty, other := FromInt32(r.id), FromInt32(r.ty), FromInt32(r.other);
      match r.kind
      case 0 => Some(RegisterType(r.name))
      case 1 => Some(LookUpTypeByName(r.name))
      case 2 => Some(LookUpTypeById(id))
      case 3 => Some(RegisterObject(id, ty, r.name, other))
      case 4 => Some(LookUpObjectById(id))
      case 5 => Some(RegisterRelation(id, ty, r.name, other))
      case 6 => Some(LookUpRelation(id, ty, r.name))
      case 7 => Some(RegisterAttribute(id, r.name, other))
      case 8 => Some(LookUpAttributeByName(id, r.name))
      case 9 => Some(LookUpAttributeById(id))
      case 10 => Some(SetAttribute(id, ty, r.variable))
      case 11 => Some(GetAttribute(id, ty))
      case _ => None
  }

  /** The response of the server; -1 stands for a null handle, and for types looked up by id, the name "-1". */
  function Reply(kind: int, h: Handle, junk: Junk): Response
  {
    match h
    case Null => if kind == 2 then Response(junk.id, junk.ty, junk.other, "-1", Invalid) else Response(-1, junk.ty, junk.other, "", Invalid)
    case TypeHandle(name, id) =>
      if kind == 2 then Response(junk.id, junk.ty, junk.other, name, Invalid) else Response(ToInt32(id), junk.ty, junk.other, "", Invalid)
    case ObjectHandle(ty, id) => Response(ToInt32(id), if kind == 4 then ToInt32(ty) else junk.ty, junk.other, "", Invalid)
    case RelationHandle(name, parent, child, rt) => Response(if kind == 5 then 0 else ToInt32(child), junk.ty, junk.other, "", Invalid)
    case AttributeHandle(name, domain, dt, id) =>
      if kind == 7 then Response(ToInt32(id), junk.ty, junk.other, "", Invalid)
      else if kind == 8 then Response(ToInt32(id), junk.ty, dt, "", Invalid)
      else Response(ToInt32(domain), junk.ty, dt, name, Invalid)
    case ValueHandle(value, owner, attribute) => Response(1, junk.ty, junk.other, "", value)
    case Flag(success) => Response(if success then 1 else -1, junk.ty, junk.other, "", Invalid)
  }

  /** The handle that the client makes from the response and its own arguments. */
  function Conclude(op: Operation, r: Response): Handle
    requires IsInt32(r.id) && IsInt32(r.ty)
  {
    if op.LookUpTypeById? then if r.name != "-1" then TypeHandle(r.name, op.id) else Null
    else if op.SetAttribute? then Flag(r.id != -1)
    else if op.GetAttribute? then
      if r.id == 1 then ValueHandle(r.variable, op.owner, op.attribute) else Null
    else if r.id == -1 then Null
    else
      var id := FromInt32(r.id);
      match op
      case RegisterType(name) => TypeHandle(name, id)
      case LookUpTypeByName(name) => TypeHandle(name, id)
      case RegisterObject(parent, rt, name, ot) => ObjectHandle(ot, id)
      case LookUpObjectById(_) => ObjectHandle(FromInt32(r.ty), id)
      case RegisterRelation(parent, rt, name, child) => RelationHandle(name, parent, child, rt)
      case LookUpRelation(parent, rt, name) => RelationHandle(name, parent, id, rt)
      case RegisterAttribute(domain, name, dt) => AttributeHandle(name, domain, dt, id)
      case LookUpAttributeByName(domain, name) => AttributeHandle(name, domain, r.other, id)
      case LookUpAttributeById(anId) => AttributeHandle(r.name, id, r.other, anId)
      case _ => Null
  }

  // ---- The way of a call ----

  /** Arguments that the types of the source admit. */
  predicate Fits(op: Operation)
  {
    match op
    case RegisterType(name) => IsBytes(name)
    case LookUpTypeByName(name) => IsBytes(name)
    case LookUpTypeById(id) => id < WORD32
    case RegisterObject(parent, rt, name, ot) => parent < WORD32 && rt < WORD32 && ot < WORD32 && IsBytes(name)
    case LookUpObjectById(id) => id < WORD32
    case RegisterRelation(parent, rt, name, child) => parent < WORD32 && rt < WORD32 && child < WORD32 && IsBytes(name)
    case LookUpRelation(parent, rt, name) => parent < WORD32 && rt < WORD32 && IsBytes(name)
    case RegisterAttribute(domain, name, dt) => domain < WORD32 && dt < 8 && IsBytes(name)
    case LookUpAttributeByName(domain, name) => domain < WORD32 && IsBytes(name)
    case LookUpAttributeById(id) => id < WORD32
    case SetAttribute(owner, attribute, value) => owner < WORD32 && attribute < WORD32 && IsVariable(value)
    case GetAttribute(owner, attribute) => owner < WORD32 && attribute < WORD32
  }

  /** A result that the types of the source admit. */
  predicate HandleFits(h: Handle)
  {
    match h
    case Null => true
    case TypeHandle(name, id) => IsBytes(name) && id < WORD32
    case ObjectHandle(ty, id) => ty < WORD32 && id < WORD32
    case RelationHandle(name, parent, child, rt) => child < WORD32
    case AttributeHandle(name, domain, dt, id) => IsBytes(name) && domain < WORD32 && IsInt32(dt) && id < WORD32
    case ValueHandle(value, owner, attribute) => IsVariable(value)
    case Flag(_) => true
  }

  /** What a response cannot tell from a null handle. */
  predicate LooksNull(op: Operation, h: Handle)
  {
    match h
    case Null => false
    case TypeHandle(name, id) => if op.LookUpTypeById? then name == "-1" else id == WORD32 - 1
    case ObjectHandle(ty, id) => id == WORD32 - 1
    case RelationHandle(name, parent, child, rt) => op.LookUpRelation? && child == WORD32 - 1
    case AttributeHandle(name, domain, dt, id) => if op.LookUpAttributeById? then domain == WORD32 - 1 else id == WORD32 - 1
    case _ => false
  }

  /** What the caller sees of a handle. */
  function Seen(op: Operation, h: Handle): Handle
  {
    if LooksNull(op, h) then Null else h
  }

  function Send(t: string, v: Value): Option<Value>
    requires t in FORWARDER_ENV && HasType(FORWARDER_ENV, Class(t), v)
  {
    EnvIsWellFormed();
    var r := Deserialize(FORWARDER_ENV, Class(t), Serialize(FORWARDER_ENV, Class(t), v), 0);
    if r.Short? then None else Some(r.value)
  }

  lemma EnvIsWellFormed()
    ensures JBinary.WellFormed(FORWARDER_ENV)
  {}

  lemma SentArrives(t: string, v: Value)
    requires t in FORWARDER_ENV && HasType(FORWARDER_ENV, Class(t), v)
    ensures Send(t, v) == Some(v)
  {
    EnvIsWellFormed();
    RoundTrip(FORWARDER_ENV, Class(t), v, Serialize(FORWARDER_ENV, Class(t), v), 0);
  }

  lemma IntField(i: int)
    requires IsInt32(i)
    ensures HasType(FORWARDER_ENV, Int(4, true), IntValue(i))
  {
    Powers();
  }

  lemma TextField(name: string)
    requires IsBytes(name)
    ensures HasType(FORWARDER_ENV, Text, TextValue(ToBytes(name))) && FromBytes(ToBytes(name)) == name
  {
    assert FromBytes(ToBytes(name)) == name;
  }

  lemma Powers()
    ensures Pow256(1) == 256 && Pow256(4) == WORD32 && Pow256(8) == WORD64
  {
    assert Pow256(1) == 256 * Pow256(0);
    assert Pow256(4) == 256 * Pow256(3) == 65536 * Pow256(2) == 16777216 * Pow256(1);
    assert Pow256(8) == 256 * Pow256(7) == 65536 * Pow256(6) == 16777216 * Pow256(5) == 4294967296 * Pow256(4);
  }

  lemma VariableReadsBack(variable: Variable)
    requires IsVariable(variable)
    ensures VariableOf(VariableValue(variable)) == variable
  {
    if variable.Chars? {
      TextField(variable.text);
    }
  }

  lemma PayloadHasType(variable: Variable)
    requires IsVariable(variable)
    ensures var v := VariableValue(variable); HasType(FORWARDER_ENV, PayloadType(v.tag), v.payload)
  {
    Powers();
    if variable.Chars? {
      CharsField(variable.text);
    }
  }

  lemma CharsField(text: string)
    requires IsBytes(text) && '\0' !in text
    ensures HasType(FORWARDER_ENV, CString, TextValue(ToBytes(text)))
  {
    forall i | 0 <= i < |text| ensures ToBytes(text)[i] != 0 {
      assert text[i] in text;
    }
  }

  lemma VariableField(variable: Variable)
    requires IsVariable(variable)
    ensures HasType(FORWARDER_ENV, Variant, VariableValue(variable)) && VariableOf(VariableValue(variable)) == variable
  {
    Powers();
    PayloadHasType(variable);
    VariableReadsBack(variable);
  }

  lemma RequestReadsBack(r: Request)
    requires Sendable(r.id, r.ty, r.other, r.name, r.variable)
    ensures RequestOf(RequestValue(r)) == Some(r)
  {
    TextField(r.name);
    VariableField(r.variable);
  }

  lemma RequestHasType(r: Request)
    requires Sendable(r.id, r.ty, r.other, r.name, r.variable) && 0 <= r.kind < 12
    ensures HasType(FORWARDER_ENV, Class(REQUEST), RequestValue(r)) && RequestOf(RequestValue(r)) == Some(r)
  {
    RequestReadsBack(r);
    var ts, vs := Parts(FORWARDER_ENV[REQUEST]), RequestValue(r).parts;
    assert ts == [Int(4, true), Int(4, true), Int(4, true), Int(4, true), Text, Variant];
    forall i | 0 <= i < 6 ensures HasType(FORWARDER_ENV, ts[i], vs[i]) {
      if i < 4 {
        IntField(vs[i].i);
      } else if i == 4 {
        TextField(r.name);
      } else {
        VariableField(r.variable);
      }
    }
    AllHaveTypes(ts, vs);
  }

  lemma ResponseReadsBack(r: Response)
    requires Sendable(r.id, r.ty, r.other, r.name, r.variable)
    ensures ResponseOf(ResponseValue(r)) == Some(r)
  {
    TextField(r.name);
    VariableField(r.variable);
  }

  lemma ResponseHasType(r: Response)
    requires Sendable(r.id, r.ty, r.other, r.name, r.variable)
    ensures HasType(FORWARDER_ENV, Class(RESPONSE), ResponseValue(r)) && ResponseOf(ResponseValue(r)) == Some(r)
  {
    ResponseReadsBack(r);
    var ts, vs := Parts(FORWARDER_ENV[RESPONSE]), ResponseValue(r).parts;
    assert ts == [Int(4, true), Int(4, true), Int(4, true), Text, Variant];
    forall i | 0 <= i < 5 ensures HasType(FORWARDER_ENV, ts[i], vs[i]) {
      if i < 3 {
        IntField(vs[i].i);
      } else if i == 3 {
        TextField(r.name);
      } else {
        VariableField(r.variable);
      }
    }
    AllHaveTypes(ts, vs);
  }

  lemma AllHaveTypes(ts: seq<Type>, vs: seq<Value>)
    requires |ts| == |vs| && forall i :: 0 <= i < |ts| ==> HasType(FORWARDER_ENV, ts[i], vs[i])
    ensures HaveTypes(FORWARDER_ENV, ts, vs)
  {}

  lemma AskIsSendable(op: Operation, junk: Junk)
    requires Fits(op) && Possible(junk)
    ensures var r := Ask(op, junk);
            Sendable(r.id, r.ty, r.other, r.name, r.variable) && 0 <= r.kind < 12 && CallOf(r) == Some(op)
  {}

  /** A call through client, request, server, response and client. */
  function Forwarded(s: Store, op: Operation, asked: Junk, replied: Junk): (Store, Handle)
    requires Fits(op) && Possible(asked) && Possible(replied)
  {
    AskIsSendable(op, asked);
    var r := Ask(op, asked);
    RequestHasType(r);
    var received := Send(REQUEST, RequestValue(r));
    if received.None? then (s, Null) else Served(s, op, received.value, replied)
  }

  function Served(s: Store, op: Operation, v: Value, replied: Junk): (Store, Handle)
  {
    var r := RequestOf(v);
    if r.None? || CallOf(r.value).None? then (s, Null)
    else
      var (s', h) := Direct(s, CallOf(r.value).value);
      (s', Returned(op, Reply(r.value.kind, h, replied)))
  }

  function Returned(op: Operation, response: Response): Handle
  {
    if !Sendable(response.id, response.ty, response.other, response.name, response.variable) then Null
    else
      ResponseHasType(response);
      var back := Send(RESPONSE, ResponseValue(response));
      if back.None? then Null
      else
        var r := ResponseOf(back.value);
        if r.None? || !IsInt32(r.value.id) || !IsInt32(r.value.ty) then Null else Conclude(op, r.value)
  }

  // ---- Forwarding is transparent ----

  /** A handle repeats the arguments that the client does not send back. */
  predicate Repeats(op: Operation, h: Handle)
  {
    (h.Null? && !op.SetAttribute?) ||
    match op
    case RegisterType(name) => h.TypeHandle? && h.name == name
    case LookUpTypeByName(name) => h.TypeHandle? && h.name == name
    case LookUpTypeById(id) => h.TypeHandle? && h.id == id
    case RegisterObject(parent, rt, name, ot) => h.ObjectHandle? && h.ty == ot
    case LookUpObjectById(id) => h.ObjectHandle? && h.id == id
    case RegisterRelation(parent, rt, name, child) => h == RelationHandle(name, parent, child, rt)
    case LookUpRelation(parent, rt, name) => h.RelationHandle? && h.name == name && h.parent == parent && h.relationType == rt
    case RegisterAttribute(domain, name, dt) => h.AttributeHandle? && h.name == name && h.domain == domain && h.dt == dt
    case LookUpAttributeByName(domain, name) => h.AttributeHandle? && h.name == name && h.domain == domain
    case LookUpAttributeById(id) => h.AttributeHandle? && h.id == id
    case SetAttribute(_, _, _) => h.Flag?
    case GetAttribute(owner, attribute) => h.ValueHandle? && h.owner == owner && h.attribute == attribute
  }

  lemma RegisterRepeats(s: Store, op: Operation, r: T.Request)
    requires Consistent(s)
    requires match op
             case RegisterType(name) => r == T.RegisterType(name)
             case RegisterObject(parent, rt, name, ot) => r == T.RegisterObject(parent, Key(name, rt), ot)
             case RegisterRelation(parent, rt, name, child) => r == T.RegisterRelation(Relation(parent, Key(name, rt), child))
             case RegisterAttribute(domain, name, dt) => r == T.RegisterAttribute(Attribute(domain, name), dt)
             case SetAttribute(owner, attribute, value) => r == T.SetAttribute(owner, attribute, value)
             case _ => false
    ensures Consistent(Direct(s, op).0) && Grows(s, Direct(s, op).0) && Repeats(op, Direct(s, op).1)
  {
    CallIsSound(s, r);
    if op.RegisterAttribute? {
      var s' := T.Call(s, r).0;
      assert Matches(s'.attributes, r.attribute, s'.attributes.ids[r.attribute]);
    }
  }

  lemma DirectRepeats(s: Store, op: Operation)
    requires Consistent(s)
    ensures Consistent(Direct(s, op).0) && Grows(s, Direct(s, op).0) && Repeats(op, Direct(s, op).1)
  {
    match op
    case RegisterType(name) => RegisterRepeats(s, op, T.RegisterType(name));
    case RegisterObject(parent, rt, name, ot) => RegisterRepeats(s, op, T.RegisterObject(parent, Key(name, rt), ot));
    case RegisterRelation(parent, rt, name, child) =>
      RegisterRepeats(s, op, T.RegisterRelation(Relation(parent, Key(name, rt), child)));
    case RegisterAttribute(domain, name, dt) => RegisterRepeats(s, op, T.RegisterAttribute(Attribute(domain, name), dt));
    case SetAttribute(owner, attribute, value) => RegisterRepeats(s, op, T.SetAttribute(owner, attribute, value));
    case LookUpAttributeByName(domain, name) =>
      var a := Attribute(domain, name);
      assert a in s.attributes.ids ==> Matches(s.attributes, a, s.attributes.ids[a]);
    case _ =>
  }

  /** The client gets back the backend's handle, or null where the response looks like one. */
  lemma ReplyConcludes(op: Operation, asked: Junk, h: Handle, replied: Junk)
    requires Fits(op) && Possible(replied) && HandleFits(h) && Repeats(op, h)
    ensures var response := Reply(Ask(op, asked).kind, h, replied);
            && Sendable(response.id, response.ty, response.other, response.name, response.variable)
            && Conclude(op, response) == if LooksNull(op, h) then Null else h
  {}

  lemma ResponseReturns(op: Operation, response: Response)
    requires Sendable(response.id, response.ty, response.other, response.name, response.variable)
    ensures Returned(op, response) == Conclude(op, response)
  {
    ResponseHasType(response);
    SentArrives(RESPONSE, ResponseValue(response));
  }

  /**
   * A forwarded call leaves the backend as the call itself does, and returns the same handle if and only if
   * the response can be told from a null one: the id that travels is not 2^32 - 1, and no type is named "-1".
   */
  lemma ForwardingIsTransparent(s: Store, op: Operation, asked: Junk, replied: Junk)
    requires Consistent(s) && Fits(op) && Possible(asked) && Possible(replied) && HandleFits(Direct(s, op).1)
    ensures Forwarded(s, op, asked, replied) == (Direct(s, op).0, Seen(op, Direct(s, op).1))
    ensures Forwarded(s, op, asked, replied).1 == Direct(s, op).1 <==> !LooksNull(op, Direct(s, op).1)
  {
    var r := Ask(op, asked);
    AskIsSendable(op, asked);
    RequestHasType(r);
    SentArrives(REQUEST, RequestValue(r));
    var h := Direct(s, op).1;
    DirectRepeats(s, op);
    ReplyConcludes(op, asked, h, replied);
    ResponseReturns(op, Reply(r.kind, h, replied));
    assert Forwarded(s, op, asked, replied) == Served(s, op, RequestValue(r), replied);
  }

  // ---- Sequences of calls ----

  function DirectAll(s: Store, ops: seq<Operation>): (r: (Store, seq<Handle>))
    ensures |r.1| == |ops|
    decreases |ops|
  {
    if ops == [] then (s, [])
    else
      var (s', h) := Direct(s, ops[0]);
      var (end, handles) := DirectAll(s', ops[1..]);
      (end, [h] + handles)
  }

  predicate AllFit(handles: seq<Handle>)
  {
    forall i :: 0 <= i < |handles| ==> HandleFits(handles[i])
  }

  predicate AllPossible(ops: seq<Operation>, asked: seq<Junk>, replied: seq<Junk>)
  {
    |asked| == |replied| == |ops| && forall i :: 0 <= i < |ops| ==> Fits(ops[i]) && Possible(asked[i]) && Possible(replied[i])
  }

  function ForwardedAll(s: Store, ops: seq<Operation>, asked: seq<Junk>, replied: seq<Junk>): (r: (Store, seq<Handle>))
    requires AllPossible(ops, asked, replied)
    ensures |r.1| == |ops|
    decreases |ops|
  {
    if ops == [] then (s, [])
    else
      var (s', h) := Forwarded(s, ops[0], asked[0], replied[0]);
      var (end, handles) := ForwardedAll(s', ops[1..], asked[1..], replied[1..]);
      (end, [h] + handles)
  }

  function AllSeen(ops: seq<Operation>, handles: seq<Handle>): seq<Handle>
    requires |ops| == |handles|
  {
    seq(|ops|, i requires 0 <= i < |ops| => Seen(ops[i], handles[i]))
  }

  lemma FirstSeen(ops: seq<Operation>, h: Handle, later: seq<Handle>)
    requires |ops| == 1 + |later|
    ensures AllSeen(ops, [h] + later) == [Seen(ops[0], h)] + AllSeen(ops[1..], later)
  {}

  lemma LaterFit(h: Handle, later: seq<Handle>)
    requires AllFit([h] + later)
    ensures HandleFits(h) && AllFit(later)
  {
    assert ([h] + later)[0] == h;
    forall i | 0 <= i < |later| ensures HandleFits(later[i]) {
      assert later[i] == ([h] + later)[i + 1];
    }
  }

  /**
   * Any sequence of calls has the same effect through the forwarder, and the same results, except that each of
   * them that looks like a null handle is seen as one.
   */
  lemma {:induction false} SequencesAreTransparent(s: Store, ops: seq<Operation>, asked: seq<Junk>, replied: seq<Junk>)
    requires Consistent(s) && AllPossible(ops, asked, replied) && AllFit(DirectAll(s, ops).1)
    ensures ForwardedAll(s, ops, asked, replied) == (DirectAll(s, ops).0, AllSeen(ops, DirectAll(s, ops).1))
    decreases |ops|
  {
    if ops != [] {
      var (s', h) := Direct(s, ops[0]);
      var later := DirectAll(s', ops[1..]).1;
      LaterFit(h, later);
      ForwardingIsTransparent(s, ops[0], asked[0], replied[0]);
      DirectRepeats(s, ops[0]);
      SequencesAreTransparent(s', ops[1..], asked[1..], replied[1..]);
      FirstSeen(ops, h, later);
    } else {
      assert AllSeen(ops, []) == [];
    }
  }

  /** The results are all the same if and only if none of them looks null. */
  lemma SameResults(s: Store, ops: seq<Operation>, asked: seq<Junk>, replied: seq<Junk>)
    requires Consistent(s) && AllPossible(ops, asked, replied) && AllFit(DirectAll(s, ops).1)
    ensures ForwardedAll(s, ops, asked, replied) == DirectAll(s, ops)
            <==> forall i :: 0 <= i < |ops| ==> !LooksNull(ops[i], DirectAll(s, ops).1[i])
  {
    SequencesAreTransparent(s, ops, asked, replied);
    var handles := DirectAll(s, ops).1;
    if forall i :: 0 <= i < |ops| ==> !LooksNull(ops[i], handles[i]) {
      assert AllSeen(ops, handles) == handles;
    } else {
      var i :| 0 <= i < |ops| && LooksNull(ops[i], handles[i]);
      assert AllSeen(ops, handles)[i] == Null != handles[i];
    }
  }
}
