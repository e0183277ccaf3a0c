/**
 * Registering and looking up objects by a path (src/monitoring/topology/Topology.cpp:108-158), one
 * registration after the other or amid the registrations of other threads.
 */
module TopologyByPath {
  import opened Base
  import opened Variables
  import opened TopologyStore
  import opened TopologyPaths
  import opened TopologyAliases
  import T = TopologyThreads

  /** The store as it is between two calls. */
  ghost predicate Consistent(s: Store)
  {
    StoreInv(s, r => false)
  }

  // ---- Single calls ----

  lemma BeginIsSound(s: Store, r: T.Request)
    requires Consistent(s)
    ensures T.Inv(T.State(s, [T.Begin(r)], [0]))
  {
    assert forall rel: Relation :: !T.PendingIn([T.Begin(r)])(rel);
  }

  lemma DoneIsRight(s: Store, r: T.Request, answer: T.Answer, size: nat)
    requires T.Inv(T.State(s, [T.Done(r, answer)], [size]))
    ensures Consistent(s) && T.Correct(s, r, answer) && (answer.Unknown? <==> !T.Located(size, r))
  {
    var threads := [T.Done(r, answer)];
    assert T.Knows(s, threads[0]) && T.Told(size, threads[0]);
    assert forall rel: Relation :: !T.PendingIn(threads)(rel);
  }

  /** A call on its own adds to the store and answers right; it is refused exactly if its objects do not exist. */
  lemma CallIsSound(s: Store, r: T.Request)
    requires Consistent(s)
    ensures var (s', answer) := T.Call(s, r);
            && Consistent(s') && Grows(s, s') && T.Correct(s', r, answer)
            && (answer.Unknown? <==> !T.Located(Size(s), r))
  {
    var state := T.State(s, [T.Begin(r)], [0]);
    var (s', answer) := T.Call(s, r);
    BeginIsSound(s, r);
    var run := T.SoloRun(state, 0);
    T.RunGrows(state, run);
    assert T.Exec(state, run) == T.State(s', [T.Done(r, answer)], [Size(s)]);
    DoneIsRight(s', r, answer, Size(s));
  }

  lemma CallRegisterType(s: Store, name: string)
    ensures var s' := InsertType(s, name); T.Call(s, T.RegisterType(name)) == (s', T.Id(s'.types.ids[name]))
  {
    var r := T.RegisterType(name);
    assert T.Call(s, r) == T.Complete(s, T.LookUp(r));
    if name !in s.types.ids {
      var s' := InsertType(s, name);
      assert T.Complete(s, T.LookUp(r)) == T.Complete(s, T.Insert(r)) == T.Complete(s', T.Done(r, T.Id(s'.types.ids[name])));
    }
  }

  lemma CallRegisterObject(s: Store, parent: nat, key: Key, objectType: nat)
    ensures T.Call(s, T.RegisterObject(parent, key, objectType)) ==
            if parent >= |s.children| then (s, T.Unknown)
            else if key !in s.children[parent] then (InsertObject(s, parent, key, objectType), T.Id(Size(s)))
            else
              var child := s.children[parent][key].child;
              (s, if child < |s.objectTypes| && s.objectTypes[child] == objectType then T.Id(child) else T.Conflict)
  {
    var r := T.RegisterObject(parent, key, objectType);
    if parent < |s.children| {
      assert T.Call(s, r) == T.Complete(s, T.LookUp(r));
      if key in s.children[parent] {
        var child := s.children[parent][key].child;
        var answer := if child < |s.objectTypes| && s.objectTypes[child] == objectType then T.Id(child) else T.Conflict;
        assert T.Complete(s, T.LookUp(r)) == T.Complete(s, T.Check(r, child)) == T.Complete(s, T.Done(r, answer)) == (s, answer);
      } else {
        assert T.Complete(s, T.LookUp(r)) == T.Complete(s, T.Insert(r)) == T.Complete(s, T.Hold(r));
        assert T.Complete(s, T.Hold(r)) == T.Complete(InsertObject(s, parent, key, objectType), T.Done(r, T.Id(Size(s))));
      }
    } else {
      assert T.Call(s, r) == T.Complete(s, T.Done(r, T.Unknown));
    }
  }

  lemma UnknownParent(s: Store, parent: nat, key: Key, objectType: nat)
    requires Shape(s) && parent >= Size(s)
    ensures T.Call(s, T.RegisterObject(parent, key, objectType)) == (s, T.Unknown)
  {
    CallRegisterObject(s, parent, key, objectType);
  }

  lemma FoundObject(s: Store, parent: nat, key: Key, objectType: nat)
    requires Consistent(s) && parent < Size(s) && key in s.children[parent]
    ensures var child := s.children[parent][key].child;
            && child < Size(s)
            && T.Call(s, T.RegisterObject(parent, key, objectType))
               == (s, if s.objectTypes[child] == objectType then T.Id(child) else T.Conflict)
  {
    CallRegisterObject(s, parent, key, objectType);
  }

  lemma NewObject(s: Store, parent: nat, key: Key, objectType: nat)
    requires Consistent(s) && parent < Size(s) && key !in s.children[parent]
    ensures T.Call(s, T.RegisterObject(parent, key, objectType)) == (InsertObject(s, parent, key, objectType), T.Id(Size(s)))
    ensures Consistent(InsertObject(s, parent, key, objectType))
  {
    CallRegisterObject(s, parent, key, objectType);
    CallIsSound(s, T.RegisterObject(parent, key, objectType));
  }

  lemma CallRegisterRelation(s: Store, rel: Relation)
    ensures T.Call(s, T.RegisterRelation(rel)) ==
            if rel.child == 0 || rel.parent >= |s.children| || rel.child >= |s.parents| then (s, T.Unknown)
            else if rel.key in s.children[rel.parent] then (s, T.CheckRelation(s, rel))
            else (PushParent(PutChild(s, rel), rel), T.Linked(rel))
  {
    var r := T.RegisterRelation(rel);
    if rel.child == 0 || rel.parent >= |s.children| || rel.child >= |s.parents| {
      assert T.Call(s, r) == T.Complete(s, T.Done(r, T.Unknown));
    } else {
      assert T.Call(s, r) == T.Complete(s, T.LookUp(r));
      if rel.key in s.children[rel.parent] {
        assert T.Complete(s, T.LookUp(r)) == T.Complete(s, T.Done(r, T.CheckRelation(s, rel)));
      } else {
        var s1 := PutChild(s, rel);
        var s2 := PushParent(s1, rel);
        assert T.Complete(s, T.LookUp(r)) == T.Complete(s, T.Insert(r)) == T.Complete(s1, T.Push(r));
        assert T.Complete(s1, T.Push(r)) == T.Complete(s2, T.Done(r, T.Linked(rel))) == (s2, T.Linked(rel));
      }
    }
  }

  lemma UnknownRelation(s: Store, rel: Relation)
    requires Shape(s) && (rel.child == 0 || rel.parent >= Size(s) || rel.child >= Size(s))
    ensures T.Call(s, T.RegisterRelation(rel)) == (s, T.Unknown)
  {
    CallRegisterRelation(s, rel);
  }

  lemma FoundRelation(s: Store, rel: Relation)
    requires Shape(s) && 1 <= rel.child < Size(s) && rel.parent < Size(s) && rel.key in s.children[rel.parent]
    ensures T.Call(s, T.RegisterRelation(rel)) == (s, T.CheckRelation(s, rel))
  {
    CallRegisterRelation(s, rel);
  }

  lemma NewRelation(s: Store, rel: Relation)
    requires Consistent(s) && 1 <= rel.child < Size(s) && rel.parent < Size(s) && rel.key !in s.children[rel.parent]
    ensures T.Call(s, T.RegisterRelation(rel)) == (PushParent(PutChild(s, rel), rel), T.Linked(rel))
    ensures Consistent(PushParent(PutChild(s, rel), rel))
  {
    CallRegisterRelation(s, rel);
    CallIsSound(s, T.RegisterRelation(rel));
  }

  lemma CallRegisterAttribute(s: Store, a: Attribute, dt: int)
    ensures var s' := InsertAttribute(s, a, dt); T.Call(s, T.RegisterAttribute(a, dt)) == (s', T.CheckAttribute(s', a, dt))
  {
    var r := T.RegisterAttribute(a, dt);
    var s' := InsertAttribute(s, a, dt);
    assert T.Call(s, r) == T.Complete(s, T.LookUp(r));
    if a !in s.attributes.ids {
      assert T.Complete(s, T.LookUp(r)) == T.Complete(s, T.Insert(r)) == T.Complete(s', T.Done(r, T.CheckAttribute(s', a, dt)));
    }
  }

  /** A value that is equal to the one that is there is not written. */
  lemma CallSetAttribute(s: Store, owner: nat, id: nat, value: Variable)
    ensures T.Call(s, T.SetAttribute(owner, id, value)) ==
            if owner == 0 || owner >= |s.values| then (s, T.Unknown)
            else if id in s.values[owner] && Equal(value, s.values[owner][id]) then (s, T.Success)
            else (PutValue(s, owner, id, value), T.Success)
  {
    var r := T.SetAttribute(owner, id, value);
    if owner == 0 || owner >= |s.values| {
      assert T.Call(s, r) == T.Complete(s, T.Done(r, T.Unknown));
    } else {
      assert T.Call(s, r) == T.Complete(s, T.LookUp(r));
      if id in s.values[owner] && Equal(value, s.values[owner][id]) {
        assert T.Complete(s, T.LookUp(r)) == T.Complete(s, T.Done(r, T.Success));
      } else {
        var s' := PutValue(s, owner, id, value);
        assert T.Complete(s, T.LookUp(r)) == T.Complete(s, T.Insert(r)) == T.Complete(s', T.Done(r, T.Success));
      }
    }
  }

  /** What is found afterwards is the value that was set, except that a zero stays where its negative is set. */
  lemma SetAttributeStores(s: Store, owner: nat, id: nat, value: Variable)
    requires 1 <= owner < |s.values|
    ensures var values := T.Call(s, T.SetAttribute(owner, id, value)).0.values;
            && |values| == |s.values| && id in values[owner]
            && (values[owner][id] == value
                <==> !(id in s.values[owner] && Equal(value, s.values[owner][id]) && value != s.values[owner][id]))
            && (values[owner][id] != value ==> IsZero(value) && IsZero(values[owner][id]))
            && forall o: nat, a :: o < |values| && (o, a) != (owner, id) ==>
                 (a in values[o] <==> a in s.values[o]) && (a in values[o] ==> values[o][a] == s.values[o][a])
  {
    CallSetAttribute(s, owner, id, value);
  }

  // ---- Paths ----

  /** registerObjectByPath: a component without an object type gets the relation's type. */
  function TypeOf(c: Component): string
  {
    if c.childType.Some? then c.childType.value else c.relation
  }

  function Explicit(cs: seq<Component>): seq<Component>
  {
    seq(|cs|, i requires 0 <= i < |cs| => cs[i].(childType := Some(TypeOf(cs[i]))))
  }

  function RegisterChild(s: Store, c: Component, parent: nat): (Store, T.Answer)
  {
    var (s1, relationType) := T.Call(s, T.RegisterType(c.relation));
    var (s2, childType) := T.Call(s1, T.RegisterType(TypeOf(c)));
    if relationType.Id? && childType.Id? then
      T.Call(s2, T.RegisterObject(parent, Key(c.child, relationType.id), childType.id))
    else (s2, T.Unknown)
  }

  /** Register one component below the other; what was registered stays, even if a later component fails. */
  function RegisterComponents(s: Store, cs: seq<Component>, parent: nat): (Store, Option<nat>)
    decreases |cs|
  {
    if cs == [] then (s, Some(parent))
    else
      var (s', answer) := RegisterChild(s, cs[0], parent);
      if answer.Id? then RegisterComponents(s', cs[1..], answer.id) else (s', None)
  }

  /** The child that one component names, if its type is the expected one. */
  function LookUpChild(s: Store, c: Component, parent: nat): Option<nat>
  {
    if c.relation !in s.types.ids || parent >= |s.children| then None
    else
      var key := Key(c.child, s.types.ids[c.relation]);
      if key !in s.children[parent] then None
      else
        var child := s.children[parent][key].child;
        if c.childType.Some? && !(1 <= child < |s.objectTypes| && c.childType.value in s.types.ids
                                  && s.objectTypes[child] == s.types.ids[c.childType.value])
        then None
        else Some(child)
  }

  function LookUpComponents(s: Store, cs: seq<Component>, parent: nat): Option<nat>
  {
    if cs == [] then Some(parent)
    else
      var child := LookUpChild(s, cs[0], parent);
      if child.None? then None else LookUpComponents(s, cs[1..], child.value)
  }

  /** The descriptor that parsePath allocates behind a slash at the end and never fills; its flag is whatever the memory holds. */
  function Unfilled(junk: bool): Component
  {
    Component("", "", if junk then Some("") else None)
  }

  /** All the descriptors that parsePath counts. */
  function Descriptors(m: map<string, string>, path: string, junk: bool): Option<seq<Component>>
  {
    var cs := ParsePath(m, path);
    if cs.None? then None else if path[|path| - 1] == SLASH then Some(cs.value + [Unfilled(junk)]) else cs
  }

  function RegisterByPath(s: Store, m: map<string, string>, path: string, parent: nat, junk: bool): (Store, Option<nat>)
  {
    var cs := Descriptors(m, path, junk);
    if cs.None? then (s, None) else RegisterComponents(s, cs.value, parent)
  }

  function LookUpByPath(s: Store, m: map<string, string>, path: string, parent: nat, junk: bool): Option<nat>
  {
    var cs := Descriptors(m, path, junk);
    if cs.None? then None
    else
      var child := LookUpComponents(s, cs.value, parent);
      if child.Some? && 1 <= child.value < Size(s) then child else None   // lookupObjectById
  }

  /** With all types named, the descriptors do not depend on the flag, nor on aliases that are added. */
  lemma SameDescriptors(m: map<string, string>, m': map<string, string>, path: string, junk: bool, junk': bool)
    requires Extends(m, m') && ParsePath(m, path).Some?
    ensures var cs, cs' := Descriptors(m, path, junk), Descriptors(m', path, junk');
            cs.Some? && cs'.Some? && cs.value != [] && |cs.value| == |cs'.value| && Explicit(cs.value) == Explicit(cs'.value)
  {
    PathsKeepTheirMeaning(m, m', path);
    PiecesAreSplit(path, 0);
  }

  // ---- What is registered is found ----

  lemma TypesAreRegistered(s: Store, first: string, second: string)
    requires Consistent(s)
    ensures var (s1, t1) := T.Call(s, T.RegisterType(first));
            var (s2, t2) := T.Call(s1, T.RegisterType(second));
            && Consistent(s2) && Grows(s, s2)
            && T.Correct(s2, T.RegisterType(first), t1) && T.Correct(s2, T.RegisterType(second), t2)
  {
    CallIsSound(s, T.RegisterType(first));
    var s1 := T.Call(s, T.RegisterType(first)).0;
    CallIsSound(s1, T.RegisterType(second));
    GrowsTransitively(s, s1, T.Call(s1, T.RegisterType(second)).0);
  }

  lemma RegisterChildIsSound(s: Store, c: Component, parent: nat)
    requires Consistent(s)
    ensures var (s', answer) := RegisterChild(s, c, parent);
            && Consistent(s') && Grows(s, s')
            && (answer.Id? ==> 1 <= answer.id < Size(s') && LookUpChild(s', c.(childType := Some(TypeOf(c))), parent) == Some(answer.id))
  {
    var (s1, t1) := T.Call(s, T.RegisterType(c.relation));
    var (s2, t2) := T.Call(s1, T.RegisterType(TypeOf(c)));
    TypesAreRegistered(s, c.relation, TypeOf(c));
    var r := T.RegisterObject(parent, Key(c.child, t1.id), t2.id);
    var (s3, answer) := T.Call(s2, r);
    CallIsSound(s2, r);
    GrowsTransitively(s, s2, s3);
    ChildIsFound(s3, c, parent, t1.id, t2.id, answer);
  }

  /** Three right answers are all that is needed to find a child again. */
  lemma ChildIsFound(s: Store, c: Component, parent: nat, relationType: nat, childType: nat, answer: T.Answer)
    requires Consistent(s)
    requires T.Correct(s, T.RegisterType(c.relation), T.Id(relationType))
    requires T.Correct(s, T.RegisterType(TypeOf(c)), T.Id(childType))
    requires T.Correct(s, T.RegisterObject(parent, Key(c.child, relationType), childType), answer)
    ensures answer.Id? ==> 1 <= answer.id < Size(s) && LookUpChild(s, c.(childType := Some(TypeOf(c))), parent) == Some(answer.id)
  {
    if answer.Id? {
      assert HasRelation(s, Relation(parent, Key(c.child, relationType), answer.id));
    }
  }

  lemma {:induction false} LookUpGrows(s: Store, t: Store, cs: seq<Component>, parent: nat)
    requires Grows(s, t) && LookUpComponents(s, cs, parent).Some?
    ensures LookUpComponents(t, cs, parent) == LookUpComponents(s, cs, parent)
  {
    if cs != [] {
      LookUpGrows(s, t, cs[1..], LookUpChild(s, cs[0], parent).value);
    }
  }

  /** A lookup that names fewer types finds no other object. */
  lemma {:induction false} LookUpUntyped(s: Store, cs: seq<Component>, parent: nat)
    requires LookUpComponents(s, Explicit(cs), parent).Some?
    ensures LookUpComponents(s, cs, parent) == LookUpComponents(s, Explicit(cs), parent)
  {
    if cs != [] {
      var child := LookUpChild(s, cs[0], parent);
      assert LookUpChild(s, Explicit(cs)[0], parent) == child;
      assert Explicit(cs)[1..] == Explicit(cs[1..]);
      LookUpUntyped(s, cs[1..], child.value);
    }
  }

  lemma {:induction false} RegisteredIsFound(s: Store, cs: seq<Component>, parent: nat)
    requires Consistent(s)
    ensures var (s', id) := RegisterComponents(s, cs, parent);
            && Consistent(s') && Grows(s, s')
            && (id.Some? ==> LookUpComponents(s', Explicit(cs), parent) == id && (cs != [] ==> 1 <= id.value < Size(s')))
    decreases |cs|
  {
    if cs != [] {
      var (s1, answer) := RegisterChild(s, cs[0], parent);
      RegisterChildIsSound(s, cs[0], parent);
      if answer.Id? {
        RegisteredIsFound(s1, cs[1..], answer.id);
        var (s', id) := RegisterComponents(s1, cs[1..], answer.id);
        GrowsTransitively(s, s1, s');
        if id.Some? {
          PrependFound(s1, s', cs, parent, answer.id);
        }
      }
    }
  }

  lemma PrependFound(s: Store, t: Store, cs: seq<Component>, parent: nat, child: nat)
    requires Grows(s, t) && cs != [] && LookUpChild(s, Explicit(cs)[0], parent) == Some(child)
    ensures LookUpComponents(t, Explicit(cs), parent) == LookUpComponents(t, Explicit(cs[1..]), child)
  {
    assert LookUpChild(t, Explicit(cs)[0], parent) == Some(child);
    assert Explicit(cs)[1..] == Explicit(cs[1..]);
  }

  lemma RegisterChildAgain(s: Store, c: Component, parent: nat, child: nat)
    requires LookUpChild(s, c.(childType := Some(TypeOf(c))), parent) == Some(child)
    ensures RegisterChild(s, c, parent) == (s, T.Id(child))
  {
    CallRegisterType(s, c.relation);
    CallRegisterType(s, TypeOf(c));
    CallRegisterObject(s, parent, Key(c.child, s.types.ids[c.relation]), s.types.ids[TypeOf(c)]);
  }

  lemma {:induction false} RegisterKnown(s: Store, cs: seq<Component>, parent: nat, id: nat)
    requires LookUpComponents(s, Explicit(cs), parent) == Some(id)
    ensures RegisterComponents(s, cs, parent) == (s, Some(id))
    decreases |cs|
  {
    if cs != [] {
      var child := LookUpChild(s, Explicit(cs)[0], parent).value;
      RegisterChildAgain(s, cs[0], parent, child);
      assert Explicit(cs)[1..] == Explicit(cs[1..]);
      RegisterKnown(s, cs[1..], child, id);
    }
  }

  /** Registering creates nothing and answers `id` if and only if looking up with all types finds `id`. */
  lemma RegisterAgain(s: Store, cs: seq<Component>, parent: nat, id: nat)
    requires Consistent(s)
    ensures RegisterComponents(s, cs, parent) == (s, Some(id)) <==> LookUpComponents(s, Explicit(cs), parent) == Some(id)
  {
    RegisteredIsFound(s, cs, parent);
    if LookUpComponents(s, Explicit(cs), parent) == Some(id) {
      RegisterKnown(s, cs, parent, id);
    }
  }

  /**
   * After a path was registered it is found at once, and in every later store whatever else is registered
   * and whatever aliases are set; registering it again gives the same object and creates nothing.
   */
  lemma RegisteredPathIsFound(s: Store, m: map<string, string>, path: string, parent: nat, t: Store, m': map<string, string>,
                              first: bool, second: bool, third: bool)
    requires Consistent(s) && RegisterByPath(s, m, path, parent, first).1.Some?
    requires Consistent(t) && Grows(RegisterByPath(s, m, path, parent, first).0, t) && Extends(m, m')
    ensures var (s', id) := RegisterByPath(s, m, path, parent, first);
            && LookUpByPath(s', m, path, parent, second) == id
            && LookUpByPath(t, m', path, parent, second) == id
            && RegisterByPath(t, m', path, parent, third) == (t, id)
  {
    var cs := Descriptors(m, path, first).value;
    var (s', id) := RegisterByPath(s, m, path, parent, first);
    SameDescriptors(m, m, path, first, second);
    SameDescriptors(m, m', path, first, second);
    SameDescriptors(m, m', path, first, third);
    RegisteredIsFound(s, cs, parent);
    LookUpUntyped(s', Descriptors(m, path, second).value, parent);
    LookUpGrows(s', t, Explicit(cs), parent);
    LookUpUntyped(t, Descriptors(m', path, second).value, parent);
    RegisterAgain(t, Descriptors(m', path, third).value, parent, id.value);
  }

  // ---- Registering a path while other threads register things ----

  /** When the three calls for one component had returned, and what they returned. */
  datatype Visit = Visit(relationAt: nat, relationType: nat, typeAt: nat, childType: nat, objectAt: nat, child: nat)

  function From(visits: seq<Visit>, parent: nat, k: nat): nat
    requires k <= |visits|
  {
    if k == 0 then parent else visits[k - 1].child
  }

  /** At some moment of the run, some thread had this answer to this request. */
  predicate Returned(n: nat, run: seq<T.Action>, at: nat, r: T.Request, id: nat)
  {
    at <= |run| && T.Done(r, T.Id(id)) in T.Exec(T.Init(n), run[..at]).threads
  }

  predicate Registered(n: nat, run: seq<T.Action>, c: Component, parent: nat, v: Visit)
  {
    && Returned(n, run, v.relationAt, T.RegisterType(c.relation), v.relationType)
    && Returned(n, run, v.typeAt, T.RegisterType(TypeOf(c)), v.childType)
    && Returned(n, run, v.objectAt, T.RegisterObject(parent, Key(c.child, v.relationType), v.childType), v.child)
  }

  lemma ThenIsCorrect(n: nat, before: seq<T.Action>, after: seq<T.Action>, r: T.Request, id: nat)
    requires T.Done(r, T.Id(id)) in T.Exec(T.Init(n), before).threads
    ensures T.Correct(T.Exec(T.Init(n), before + after).store, r, T.Id(id))
  {
    var threads := T.Exec(T.Init(n), before).threads;
    var i :| 0 <= i < |threads| && threads[i] == T.Done(r, T.Id(id));
    T.AnswersStayRight(n, before, after, i);
  }

  lemma ReturnedIsCorrect(n: nat, run: seq<T.Action>, at: nat, r: T.Request, id: nat)
    requires Returned(n, run, at, r, id)
    ensures T.Correct(T.Exec(T.Init(n), run).store, r, T.Id(id))
  {
    var before, after := run[..at], run[at..];
    ThenIsCorrect(n, before, after, r, id);
    assert run == before + after;
  }

  lemma VisitIsFound(n: nat, run: seq<T.Action>, c: Component, parent: nat, v: Visit)
    requires Registered(n, run, c, parent, v)
    ensures LookUpChild(T.Exec(T.Init(n), run).store, c.(childType := Some(TypeOf(c))), parent) == Some(v.child)
    ensures 1 <= v.child < Size(T.Exec(T.Init(n), run).store)
  {
    var s := T.Exec(T.Init(n), run).store;
    ReturnedIsCorrect(n, run, v.relationAt, T.RegisterType(c.relation), v.relationType);
    ReturnedIsCorrect(n, run, v.typeAt, T.RegisterType(TypeOf(c)), v.childType);
    ReturnedIsCorrect(n, run, v.objectAt, T.RegisterObject(parent, Key(c.child, v.relationType), v.childType), v.child);
    T.Reachable(n, run);
    assert HasRelation(s, Relation(parent, Key(c.child, v.relationType), v.child));
  }

  lemma {:induction false} VisitsAreFound(s: Store, cs: seq<Component>, parent: nat, visits: seq<Visit>)
    requires |visits| == |cs|
    requires forall k :: 0 <= k < |cs| ==> LookUpChild(s, cs[k], From(visits, parent, k)) == Some(visits[k].child)
    ensures LookUpComponents(s, cs, parent) == Some(From(visits, parent, |visits|))
    decreases |cs|
  {
    if cs != [] {
      var rest, child := visits[1..], visits[0].child;
      assert From(visits, parent, 0) == parent;
      forall k | 0 <= k < |cs| - 1 ensures LookUpChild(s, cs[1..][k], From(rest, child, k)) == Some(rest[k].child) {
        assert From(rest, child, k) == From(visits, parent, k + 1);
      }
      VisitsAreFound(s, cs[1..], child, rest);
    }
  }

  lemma RegisteredAreFound(n: nat, run: seq<T.Action>, cs: seq<Component>, parent: nat, visits: seq<Visit>)
    requires |visits| == |cs| > 0
    requires forall k :: 0 <= k < |cs| ==> Registered(n, run, cs[k], From(visits, parent, k), visits[k])
    ensures var s, last := T.Exec(T.Init(n), run).store, visits[|visits| - 1].child;
            1 <= last < Size(s) && LookUpComponents(s, Explicit(cs), parent) == Some(last)
  {
    var s := T.Exec(T.Init(n), run).store;
    forall k | 0 <= k < |cs|
      ensures LookUpChild(s, Explicit(cs)[k], From(visits, parent, k)) == Some(visits[k].child) && 1 <= visits[k].child < Size(s)
    {
      VisitIsFound(n, run, cs[k], From(visits, parent, k), visits[k]);
    }
    VisitsAreFound(s, Explicit(cs), parent, visits);
  }

  /**
   * If the calls that register the components of a path have returned objects, whatever other threads
   * did between them, then the path leads to the last of these objects.
   */
  lemma PathRegisteredAmidOthers(n: nat, run: seq<T.Action>, m: map<string, string>, path: string, parent: nat, visits: seq<Visit>,
                                 first: bool, second: bool)
    requires ParsePath(m, path).Some? && |visits| == |Descriptors(m, path, first).value|
    requires var cs := Descriptors(m, path, first).value;
             forall k :: 0 <= k < |cs| ==> Registered(n, run, cs[k], From(visits, parent, k), visits[k])
    ensures visits != [] && LookUpByPath(T.Exec(T.Init(n), run).store, m, path, parent, second) == Some(visits[|visits| - 1].child)
  {
    SameDescriptors(m, m, path, first, second);
    RegisteredAreFound(n, run, Descriptors(m, path, first).value, parent, visits);
    LookUpUntyped(T.Exec(T.Init(n), run).store, Descriptors(m, path, second).value, parent);
  }
}
