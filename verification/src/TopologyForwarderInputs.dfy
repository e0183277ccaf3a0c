/**
 * When forwarding is transparent, in terms of what is registered and what is asked for. The responses have no
 * room for an id of 2^32 - 1, for a type that is named "-1", nor for the attributes of the domain 2^32 - 1.
 */
module TopologyForwarderInputs {
  import opened Base
  import opened Variables
  import opened TopologyStore
  import opened TopologyByPath
  import opened TopologyForwarder
  import T = TopologyThreads

  /** As an int32_t it is the -1 that stands for a null handle. */
  const LAST_ID: nat := 0xFFFF_FFFF

  const MINUS_ONE: string := "-1"

  // ---- Stores that the types of the source admit ----

  predicate TypesFit(s: Store)
  {
    forall k :: 0 <= k < |s.types.keys| ==> IsBytes(s.types.keys[k])
  }

  predicate AttributesFit(s: Store)
  {
    && (forall k :: 0 <= k < |s.attributes.keys| ==> IsBytes(s.attributes.keys[k].name) && s.attributes.keys[k].domain < WORD32)
    && (forall k :: 0 <= k < |s.datatypes| ==> IsInt32(s.datatypes[k]))
  }

  predicate ObjectsFit(s: Store)
  {
    forall k :: 0 <= k < |s.objectTypes| ==> s.objectTypes[k] < WORD32
  }

  predicate ValuesFit(s: Store)
  {
    forall o, a :: 0 <= o < |s.values| && a in s.values[o] ==> IsVariable(s.values[o][a])
  }

  predicate StoreFits(s: Store)
  {
    TypesFit(s) && AttributesFit(s) && ObjectsFit(s) && ValuesFit(s)
  }

  /** With `n` more entries in every table the ids are still below 2^32 - 1. */
  predicate Room(s: Store, n: nat)
  {
    |s.types.keys| + n < LAST_ID && |s.attributes.keys| + n < LAST_ID && |s.objectTypes| + n <= LAST_ID
  }

  lemma SetFits(s: Store, owner: nat, id: nat, value: Variable)
    requires ValuesFit(s) && IsVariable(value) && owner < |s.values|
    ensures ValuesFit(PutValue(s, owner, id, value))
  {}

  lemma InsertObjectFits(s: Store, parent: nat, key: Key, objectType: nat)
    requires StoreFits(s) && Shape(s) && parent < Size(s) && objectType < WORD32
    ensures StoreFits(InsertObject(s, parent, key, objectType))
  {}

  /** A call leaves a store that fits, with at most one entry more in each table. */
  lemma DirectFits(s: Store, op: Operation, n: nat)
    requires Consistent(s) && StoreFits(s) && Fits(op) && Room(s, n + 1)
    ensures StoreFits(Direct(s, op).0) && Room(Direct(s, op).0, n)
  {
    match op
    case RegisterType(name) => CallRegisterType(s, name);
    case RegisterObject(parent, rt, name, ot) =>
      CallRegisterObject(s, parent, Key(name, rt), ot);
      if parent < Size(s) { InsertObjectFits(s, parent, Key(name, rt), ot); }
    case RegisterRelation(parent, rt, name, child) => CallRegisterRelation(s, Relation(parent, Key(name, rt), child));
    case RegisterAttribute(domain, name, dt) => CallRegisterAttribute(s, Attribute(domain, name), dt);
    case SetAttribute(owner, attribute, value) =>
      CallSetAttribute(s, owner, attribute, value);
      if 1 <= owner < |s.values| { SetFits(s, owner, attribute, value); }
    case _ =>
  }

  // ---- One call ----

  /** The guard of the calls that go wrong: they look up, by its id, an entry whose description contains the mark of a null handle. */
  predicate Ambiguous(s: Store, op: Operation)
  {
    match op
    case LookUpTypeById(id) => 1 <= id <= |s.types.keys| && s.types.keys[id - 1] == MINUS_ONE
    case LookUpAttributeById(id) => 1 <= id <= |s.attributes.keys| && s.attributes.keys[id - 1].domain == LAST_ID
    case _ => false
  }

  lemma TypeIsSafe(s: Store, name: string)
    requires Consistent(s) && StoreFits(s) && Room(s, 1) && IsBytes(name)
    ensures var h := Direct(s, RegisterType(name)).1; HandleFits(h) && !LooksNull(RegisterType(name), h)
  {
    CallRegisterType(s, name);
    CallIsSound(s, T.RegisterType(name));
    var s' := InsertType(s, name);
    assert Matches(s'.types, name, s'.types.ids[name]);
  }

  lemma ObjectIsSafe(s: Store, op: Operation)
    requires op.RegisterObject? && Consistent(s) && StoreFits(s) && Room(s, 1) && Fits(op)
    ensures var h := Direct(s, op).1; HandleFits(h) && !LooksNull(op, h)
  {
    DirectFits(s, op, 0);
    CallIsSound(s, T.RegisterObject(op.parent, Key(op.name, op.relationType), op.objectType));
  }

  lemma RelationIsSafe(s: Store, op: Operation)
    requires op.RegisterRelation? && Consistent(s) && StoreFits(s) && Room(s, 1) && Fits(op)
    ensures var h := Direct(s, op).1; HandleFits(h) && !LooksNull(op, h)
  {
    DirectRepeats(s, op);
  }

  lemma AttributeIsSafe(s: Store, op: Operation)
    requires op.RegisterAttribute? && Consistent(s) && StoreFits(s) && Room(s, 1) && Fits(op)
    ensures var h := Direct(s, op).1; HandleFits(h) && !LooksNull(op, h)
  {
    DirectFits(s, op, 0);
    DirectRepeats(s, op);
    CallIsSound(s, T.RegisterAttribute(Attribute(op.domain, op.name), op.dt));
  }

  lemma LookUpIsSafe(s: Store, op: Operation)
    requires Consistent(s) && StoreFits(s) && Room(s, 1) && Fits(op)
    requires !op.RegisterType? && !op.RegisterObject? && !op.RegisterRelation? && !op.RegisterAttribute? && !op.SetAttribute?
    ensures var h := Direct(s, op).1; HandleFits(h) && (LooksNull(op, h) <==> Ambiguous(s, op))
  {
    match op
    case LookUpTypeByName(name) => assert name in s.types.ids ==> Matches(s.types, name, s.types.ids[name]);
    case LookUpAttributeByName(domain, name) =>
      var a := Attribute(domain, name);
      assert a in s.attributes.ids ==> Matches(s.attributes, a, s.attributes.ids[a]);
    case LookUpRelation(parent, rt, name) =>
      if parent < Size(s) && Key(name, rt) in s.children[parent] {
        assert s.children[parent][Key(name, rt)].child < Size(s);
      }
    case _ =>
  }

  /** The backend's handle looks null exactly if the call is ambiguous. */
  lemma LooksNullIffAmbiguous(s: Store, op: Operation)
    requires Consistent(s) && StoreFits(s) && Room(s, 1) && Fits(op)
    ensures var h := Direct(s, op).1; HandleFits(h) && (LooksNull(op, h) <==> Ambiguous(s, op))
  {
    match op
    case RegisterType(name) => TypeIsSafe(s, name);
    case RegisterObject(_, _, _, _) => ObjectIsSafe(s, op);
    case RegisterRelation(_, _, _, _) => RelationIsSafe(s, op);
    case RegisterAttribute(_, _, _) => AttributeIsSafe(s, op);
    case SetAttribute(_, _, _) =>
    case _ => LookUpIsSafe(s, op);
  }

  /** One forwarded call: its result is that of the call itself if and only if the call is not ambiguous. */
  lemma ForwardsUnlessAmbiguous(s: Store, op: Operation, asked: Junk, replied: Junk)
    requires Consistent(s) && StoreFits(s) && Room(s, 1) && Fits(op) && Possible(asked) && Possible(replied)
    ensures Forwarded(s, op, asked, replied) == Direct(s, op) <==> !Ambiguous(s, op)
    ensures Forwarded(s, op, asked, replied).0 == Direct(s, op).0
  {
    LooksNullIffAmbiguous(s, op);
    ForwardingIsTransparent(s, op, asked, replied);
  }

  // ---- Sequences of calls ----

  /** Some call is ambiguous when its turn comes. */
  predicate Stumbles(s: Store, ops: seq<Operation>)
    decreases |ops|
  {
    ops != [] && (Ambiguous(s, ops[0]) || Stumbles(Direct(s, ops[0]).0, ops[1..]))
  }

  /** A sequence of calls has the same results and the same effect through the forwarder if and only if no call is ambiguous when its turn comes. */
  lemma {:induction false} ForwardsUnlessStumbling(s: Store, ops: seq<Operation>, asked: seq<Junk>, replied: seq<Junk>)
    requires Consistent(s) && StoreFits(s) && Room(s, |ops|) && AllPossible(ops, asked, replied)
    ensures ForwardedAll(s, ops, asked, replied) == DirectAll(s, ops) <==> !Stumbles(s, ops)
    decreases |ops|
  {
    if ops != [] {
      var op, s' := ops[0], Direct(s, ops[0]).0;
      ForwardsUnlessAmbiguous(s, op, asked[0], replied[0]);
      DirectFits(s, op, |ops| - 1);
      DirectRepeats(s, op);
      ForwardsUnlessStumbling(s', ops[1..], asked[1..], replied[1..]);
      var forwarded, direct := ForwardedAll(s', ops[1..], asked[1..], replied[1..]), DirectAll(s', ops[1..]);
      SameSteps(Forwarded(s, op, asked[0], replied[0]).1, forwarded.1, Direct(s, op).1, direct.1);
    }
  }

  lemma SameSteps(h: Handle, later: seq<Handle>, h': Handle, later': seq<Handle>)
    ensures [h] + later == [h'] + later' <==> h == h' && later == later'
  {
    if [h] + later == [h'] + later' {
      assert h == ([h] + later)[0] == h' && later == ([h] + later)[1..] == later';
    }
  }

  /** Nothing that is registered contains the mark of a null handle. */
  predicate Unmarked(s: Store)
  {
    && (forall k :: 0 <= k < |s.types.keys| ==> s.types.keys[k] != MINUS_ONE)
    && (forall k :: 0 <= k < |s.attributes.keys| ==> s.attributes.keys[k].domain != LAST_ID)
  }

  /** The call does not register such a thing. */
  predicate Plain(op: Operation)
  {
    op != RegisterType(MINUS_ONE) && (op.RegisterAttribute? ==> op.domain != LAST_ID)
  }

  lemma DirectStaysUnmarked(s: Store, op: Operation)
    requires Consistent(s) && Unmarked(s) && Plain(op)
    ensures Unmarked(Direct(s, op).0)
  {
    match op
    case RegisterType(name) => CallRegisterType(s, name);
    case RegisterObject(parent, rt, name, ot) => CallRegisterObject(s, parent, Key(name, rt), ot);
    case RegisterRelation(parent, rt, name, child) => CallRegisterRelation(s, Relation(parent, Key(name, rt), child));
    case RegisterAttribute(domain, name, dt) => CallRegisterAttribute(s, Attribute(domain, name), dt);
    case SetAttribute(owner, attribute, value) => CallSetAttribute(s, owner, attribute, value);
    case _ =>
  }

  lemma {:induction false} PlainNeverStumbles(s: Store, ops: seq<Operation>)
    requires Consistent(s) && Unmarked(s) && forall i :: 0 <= i < |ops| ==> Plain(ops[i])
    ensures !Stumbles(s, ops)
    decreases |ops|
  {
    if ops != [] {
      DirectStaysUnmarked(s, ops[0]);
      DirectRepeats(s, ops[0]);
      PlainNeverStumbles(Direct(s, ops[0]).0, ops[1..]);
    }
  }

  /**
   * What a caller can check beforehand: forwarding is transparent as long as no type is named "-1", no attribute
   * has the domain 2^32 - 1, and the tables stay below 2^32 - 1 entries.
   */
  lemma PlainCallsAreForwarded(s: Store, ops: seq<Operation>, asked: seq<Junk>, replied: seq<Junk>)
    requires Consistent(s) && StoreFits(s) && Unmarked(s) && Room(s, |ops|)
    requires AllPossible(ops, asked, replied) && forall i :: 0 <= i < |ops| ==> Plain(ops[i])
    ensures ForwardedAll(s, ops, asked, replied) == DirectAll(s, ops)
  {
    PlainNeverStumbles(s, ops);
    ForwardsUnlessStumbling(s, ops, asked, replied);
  }

  lemma EmptyIsPlain(n: nat)
    requires n < LAST_ID
    ensures Consistent(EMPTY) && StoreFits(EMPTY) && Unmarked(EMPTY) && Room(EMPTY, n)
  {}

  /** For an empty topology the calls alone decide. */
  lemma PlainCallsOnly(ops: seq<Operation>, asked: seq<Junk>, replied: seq<Junk>)
    requires |ops| < LAST_ID && AllPossible(ops, asked, replied) && forall i :: 0 <= i < |ops| ==> Plain(ops[i])
    ensures ForwardedAll(EMPTY, ops, asked, replied) == DirectAll(EMPTY, ops)
  {
    EmptyIsPlain(|ops|);
    PlainCallsAreForwarded(EMPTY, ops, asked, replied);
  }

  // ---- The ways to fail ----

  /** Register something in an empty topology, and look it up: the backend finds it, the caller is given null. */
  lemma RegisterAndLookUp(op: Operation, lookUp: Operation, asked: seq<Junk>, replied: seq<Junk>)
    requires AllPossible([op, lookUp], asked, replied) && Ambiguous(Direct(EMPTY, op).0, lookUp)
    ensures DirectAll(EMPTY, [op, lookUp]).1[1] == Direct(Direct(EMPTY, op).0, lookUp).1 != Null
    ensures ForwardedAll(EMPTY, [op, lookUp], asked, replied).1[1] == Null
  {
    var ops, h, later := [op, lookUp], Direct(EMPTY, op).1, DirectAll(Direct(EMPTY, op).0, [lookUp]).1;
    assert Fits(ops[0]) && Fits(ops[1]);
    EmptyIsPlain(2);
    DirectFits(EMPTY, op, 1);
    DirectRepeats(EMPTY, op);
    LooksNullIffAmbiguous(EMPTY, op);
    LooksNullIffAmbiguous(Direct(EMPTY, op).0, lookUp);
    assert ops[1..] == [lookUp] && DirectAll(EMPTY, ops).1 == [h] + later;
    assert [lookUp][1..] == [] && later == [Direct(Direct(EMPTY, op).0, lookUp).1];
    SequencesAreTransparent(EMPTY, ops, asked, replied);
  }

  lemma NamedMinusOneIsLost(asked: seq<Junk>, replied: seq<Junk>)
    requires AllPossible([RegisterType(MINUS_ONE), LookUpTypeById(1)], asked, replied)
    ensures var ops := [RegisterType(MINUS_ONE), LookUpTypeById(1)];
            DirectAll(EMPTY, ops).1[1] == TypeHandle(MINUS_ONE, 1) && ForwardedAll(EMPTY, ops, asked, replied).1[1] == Null
  {
    CallRegisterType(EMPTY, MINUS_ONE);
    RegisterAndLookUp(RegisterType(MINUS_ONE), LookUpTypeById(1), asked, replied);
  }

  lemma LastDomainIsLost(name: string, dt: nat, asked: seq<Junk>, replied: seq<Junk>)
    requires AllPossible([RegisterAttribute(LAST_ID, name, dt), LookUpAttributeById(1)], asked, replied)
    ensures var ops := [RegisterAttribute(LAST_ID, name, dt), LookUpAttributeById(1)];
            && DirectAll(EMPTY, ops).1[1] == AttributeHandle(name, LAST_ID, dt, 1)
            && ForwardedAll(EMPTY, ops, asked, replied).1[1] == Null
  {
    CallRegisterAttribute(EMPTY, Attribute(LAST_ID, name), dt);
    RegisterAndLookUp(RegisterAttribute(LAST_ID, name, dt), LookUpAttributeById(1), asked, replied);
  }

  /** The third way needs a full table: the type that gets the id 2^32 - 1 is registered, but its caller is given null. */
  lemma LastTypeIsLost(s: Store, name: string, asked: Junk, replied: Junk)
    requires Consistent(s) && |s.types.keys| == LAST_ID - 1 && name !in s.types.ids && IsBytes(name)
    requires Possible(asked) && Possible(replied)
    ensures Direct(s, RegisterType(name)).1 == TypeHandle(name, LAST_ID)
    ensures Forwarded(s, RegisterType(name), asked, replied) == (InsertType(s, name), Null)
  {
    CallRegisterType(s, name);
    ForwardingIsTransparent(s, RegisterType(name), asked, replied);
  }
}
