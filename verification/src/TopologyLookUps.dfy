/**
 * What a path means: a chain of relations that carry the names on the path, to an object of the type that the
 * path names, if it names one (src/include/monitoring/topology/Topology.hpp:18-29).
 */
module TopologyLookUps {
  import opened Base
  import opened TopologyStore
  import opened TopologyPaths
  import opened TopologyAliases
  import opened TopologyByPath
  import T = TopologyThreads

  /** The relation carries the names of the component. Its child may have any type, unless the component names one. */
  predicate Carries(s: Store, rel: Relation, c: Component)
  {
    && HasRelation(s, rel) && rel.key.childName == c.child
    && IsTypeNamed(s, rel.key.relationType, c.relation)
    && match c.childType
       case None => true
       case Some(name) => rel.child < |s.objectTypes| && IsTypeNamed(s, s.objectTypes[rel.child], name)
  }

  predicate IsTypeNamed(s: Store, id: nat, name: string)
  {
    1 <= id <= |s.types.keys| && s.types.keys[id - 1] == name
  }

  /** The relations of `path` carry the components one by one, and lead from one object to the next. */
  predicate IsChain(s: Store, path: seq<Relation>, cs: seq<Component>, from: nat, to: nat)
  {
    T.Leads(s, path, from, to) && |path| == |cs| && forall i :: 0 <= i < |cs| ==> Carries(s, path[i], cs[i])
  }

  /** Names and ids of types belong together. */
  lemma TypeHasOneName(s: Store, id: nat, name: string)
    requires TablesInv(s)
    ensures IsTypeNamed(s, id, name) <==> name in s.types.ids && s.types.ids[name] == id
  {
    if name in s.types.ids {
      assert Matches(s.types, name, s.types.ids[name]);
    }
    if 1 <= id <= |s.types.keys| {
      assert Matches(s.types, KeyOf(s.types, id), id);
    }
  }

  lemma ChildIsCarried(s: Store, c: Component, parent: nat, child: nat)
    requires Consistent(s)
    ensures LookUpChild(s, c, parent) == Some(child) <==> exists rel :: Carries(s, rel, c) && rel.parent == parent && rel.child == child
  {
    if LookUpChild(s, c, parent) == Some(child) {
      FoundIsCarried(s, c, parent, child);
    }
    if rel :| Carries(s, rel, c) && rel.parent == parent && rel.child == child {
      CarriedIsFound(s, c, rel);
    }
  }

  lemma FoundIsCarried(s: Store, c: Component, parent: nat, child: nat)
    requires Consistent(s) && LookUpChild(s, c, parent) == Some(child)
    ensures exists rel :: Carries(s, rel, c) && rel.parent == parent && rel.child == child
  {
    var rel := s.children[parent][Key(c.child, s.types.ids[c.relation])];
    TypeHasOneName(s, rel.key.relationType, c.relation);
    if c.childType.Some? {
      TypeHasOneName(s, s.objectTypes[child], c.childType.value);
    }
    assert rel.parent == parent && rel.child == child && Carries(s, rel, c);
  }

  lemma CarriedIsFound(s: Store, c: Component, rel: Relation)
    requires Consistent(s) && Carries(s, rel, c)
    ensures LookUpChild(s, c, rel.parent) == Some(rel.child)
  {
    TypeHasOneName(s, rel.key.relationType, c.relation);
    assert rel.key == Key(c.child, s.types.ids[c.relation]);
    if c.childType.Some? {
      TypeHasOneName(s, s.objectTypes[rel.child], c.childType.value);
    }
  }

  lemma {:induction false} FoundIsChain(s: Store, cs: seq<Component>, parent: nat, id: nat) returns (path: seq<Relation>)
    requires Consistent(s) && LookUpComponents(s, cs, parent) == Some(id)
    ensures IsChain(s, path, cs, parent, id)
    decreases |cs|
  {
    path := [];
    if cs != [] {
      var child := LookUpChild(s, cs[0], parent).value;
      ChildIsCarried(s, cs[0], parent, child);
      var rel :| Carries(s, rel, cs[0]) && rel.parent == parent && rel.child == child;
      var more := FoundIsChain(s, cs[1..], child, id);
      path := [rel] + more;
      ChainGrows(s, rel, more, cs, id);
    }
  }

  lemma ChainGrows(s: Store, rel: Relation, more: seq<Relation>, cs: seq<Component>, to: nat)
    requires cs != [] && Carries(s, rel, cs[0]) && IsChain(s, more, cs[1..], rel.child, to)
    ensures IsChain(s, [rel] + more, cs, rel.parent, to)
  {
    var path := [rel] + more;
    forall i | 0 <= i < |cs| ensures Carries(s, path[i], cs[i]) && HasRelation(s, path[i]) {
      if i > 0 { assert path[i] == more[i - 1] && cs[i] == cs[1..][i - 1]; }
    }
    forall i | 0 < i < |path| ensures path[i].parent == path[i - 1].child {
      if i > 1 { assert path[i] == more[i - 1] && path[i - 1] == more[i - 2]; }
    }
  }

  lemma {:induction false} ChainIsFound(s: Store, path: seq<Relation>, cs: seq<Component>, parent: nat, id: nat)
    requires Consistent(s) && IsChain(s, path, cs, parent, id)
    ensures LookUpComponents(s, cs, parent) == Some(id)
    decreases |cs|
  {
    if cs != [] {
      var rel := path[0];
      CarriedIsFound(s, cs[0], rel);
      ChainShrinks(s, path, cs, parent, id);
      ChainIsFound(s, path[1..], cs[1..], rel.child, id);
    }
  }

  lemma ChainShrinks(s: Store, path: seq<Relation>, cs: seq<Component>, from: nat, to: nat)
    requires cs != [] && IsChain(s, path, cs, from, to)
    ensures path[0].parent == from && IsChain(s, path[1..], cs[1..], path[0].child, to)
  {}

  /** A lookup finds exactly what a chain with these names leads to. */
  lemma FoundIffChain(s: Store, cs: seq<Component>, parent: nat, id: nat)
    requires Consistent(s)
    ensures LookUpComponents(s, cs, parent) == Some(id) <==> exists path :: IsChain(s, path, cs, parent, id)
  {
    if LookUpComponents(s, cs, parent) == Some(id) {
      var path := FoundIsChain(s, cs, parent, id);
    }
    if path :| IsChain(s, path, cs, parent, id) {
      ChainIsFound(s, path, cs, parent, id);
    }
  }

  lemma {:induction false} ChainEndsInObject(s: Store, path: seq<Relation>, cs: seq<Component>, parent: nat, id: nat)
    requires Consistent(s) && cs != [] && IsChain(s, path, cs, parent, id)
    ensures 1 <= id < Size(s)
  {
    var last := path[|path| - 1];
    assert HasRelation(s, last);
    assert s.children[last.parent][last.key] == last;
  }

  /** A path finds an object if and only if a chain of relations that carry its names leads there. */
  lemma PathFindsIffChain(s: Store, m: map<string, string>, path: string, parent: nat, junk: bool, id: nat)
    requires Consistent(s)
    ensures LookUpByPath(s, m, path, parent, junk) == Some(id)
            <==> Descriptors(m, path, junk).Some? && exists chain :: IsChain(s, chain, Descriptors(m, path, junk).value, parent, id)
  {
    if ParsePath(m, path).Some? {
      var cs := Descriptors(m, path, junk).value;
      SameDescriptors(m, m, path, junk, junk);
      FoundIffChain(s, cs, parent, id);
      if chain :| IsChain(s, chain, cs, parent, id) {
        ChainEndsInObject(s, chain, cs, parent, id);
      }
    }
  }

  // ---- What a registered path leads to ----

  /** The type of the object that a component registers: the one that it names, or else the one of its relation. */
  predicate HasTypeOf(s: Store, c: Component, child: nat)
  {
    child < |s.objectTypes|
    && match c.childType
       case Some(name) => IsTypeNamed(s, s.objectTypes[child], name)
       case None => IsTypeNamed(s, s.objectTypes[child], c.relation)
  }

  /** A registered path leads to its object, and each object on the way has the type named on the path, or else that of its relation. */
  lemma RegisteredHaveTypes(s: Store, cs: seq<Component>, parent: nat) returns (path: seq<Relation>)
    requires Consistent(s) && RegisterComponents(s, cs, parent).1.Some?
    ensures var (s', id) := RegisterComponents(s, cs, parent);
            && IsChain(s', path, cs, parent, id.value)
            && forall i :: 0 <= i < |cs| ==> HasTypeOf(s', cs[i], path[i].child)
  {
    var (s', id) := RegisterComponents(s, cs, parent);
    RegisteredIsFound(s, cs, parent);
    path := FoundIsChain(s', Explicit(cs), parent, id.value);
    forall i | 0 <= i < |cs| ensures Carries(s', path[i], cs[i]) && HasTypeOf(s', cs[i], path[i].child) {
      assert Carries(s', path[i], Explicit(cs)[i]);
    }
  }

  // ---- When a path cannot be registered ----

  /** The first `k` components lead to an object from which a relation carries the next names, but to an object of another type. */
  predicate Blocks(s: Store, cs: seq<Component>, from: nat, k: nat, path: seq<Relation>, rel: Relation)
  {
    && k < |cs| && IsChain(s, path, Explicit(cs)[..k], from, rel.parent)
    && Carries(s, rel, cs[k].(childType := None)) && !HasTypeOf(s, cs[k], rel.child)
  }

  ghost predicate Blocked(s: Store, cs: seq<Component>, from: nat)
  {
    exists k: nat, path, rel :: Blocks(s, cs, from, k, path, rel)
  }

  lemma OtherTypeBlocks(s: Store, cs: seq<Component>, parent: nat, rt: nat, ct: nat)
    requires Consistent(s) && cs != []
    requires T.Correct(s, T.RegisterType(cs[0].relation), T.Id(rt)) && T.Correct(s, T.RegisterType(TypeOf(cs[0])), T.Id(ct))
    requires T.HasOther(s, parent, Key(cs[0].child, rt), ct)
    ensures Blocked(s, cs, parent)
  {
    var rel := s.children[parent][Key(cs[0].child, rt)];
    TypeHasOneName(s, rt, cs[0].relation);
    TypeHasOneName(s, s.objectTypes[rel.child], TypeOf(cs[0]));
    BlocksNow(s, cs, parent, 0, [], rel);
  }

  /** A component is refused only because of an object of another type. */
  lemma RefusedIsBlocked(s: Store, cs: seq<Component>, parent: nat)
    requires Consistent(s) && cs != [] && parent < Size(s) && !RegisterChild(s, cs[0], parent).1.Id?
    ensures Blocked(RegisterChild(s, cs[0], parent).0, cs, parent)
  {
    var c := cs[0];
    var (s1, t1) := T.Call(s, T.RegisterType(c.relation));
    var (s2, t2) := T.Call(s1, T.RegisterType(TypeOf(c)));
    TypesAreRegistered(s, c.relation, TypeOf(c));
    var r := T.RegisterObject(parent, Key(c.child, t1.id), t2.id);
    CallIsSound(s2, r);
    OtherTypeBlocks(T.Call(s2, r).0, cs, parent, t1.id, t2.id);
  }

  lemma ExplicitPrefix(cs: seq<Component>, k: nat)
    requires k < |cs| - 1
    ensures Explicit(cs)[..k + 1] == [Explicit(cs)[0]] + Explicit(cs[1..])[..k]
  {}

  lemma BlocksLater(s: Store, cs: seq<Component>, parent: nat, first: Relation, k: nat, path: seq<Relation>, rel: Relation)
    requires cs != [] && Carries(s, first, Explicit(cs)[0]) && first.parent == parent
    requires Blocks(s, cs[1..], first.child, k, path, rel)
    ensures Blocks(s, cs, parent, k + 1, [first] + path, rel)
  {
    ExplicitPrefix(cs, k);
    var front := Explicit(cs)[..k + 1];
    assert front[1..] == Explicit(cs[1..])[..k];
    ChainGrows(s, first, path, front, rel.parent);
    assert cs[1..][k] == cs[k + 1];
  }

  lemma BlockedBehind(s: Store, cs: seq<Component>, parent: nat, first: Relation)
    requires cs != [] && Carries(s, first, Explicit(cs)[0]) && first.parent == parent && Blocked(s, cs[1..], first.child)
    ensures Blocked(s, cs, parent)
  {
    var k: nat, path, rel :| Blocks(s, cs[1..], first.child, k, path, rel);
    BlocksLater(s, cs, parent, first, k, path, rel);
    BlocksNow(s, cs, parent, k + 1, [first] + path, rel);
  }

  lemma BlocksNow(s: Store, cs: seq<Component>, from: nat, k: nat, path: seq<Relation>, rel: Relation)
    requires Blocks(s, cs, from, k, path, rel)
    ensures Blocked(s, cs, from)
  {}

  lemma ChildStaysCarried(s: Store, s': Store, c: Component, parent: nat, child: nat) returns (rel: Relation)
    requires Consistent(s') && Grows(s, s') && LookUpChild(s, c, parent) == Some(child)
    ensures Carries(s', rel, c) && rel.parent == parent && rel.child == child
  {
    ChildStaysFound(s, s', c, parent, child);
    ChildIsCarried(s', c, parent, child);
    rel :| Carries(s', rel, c) && rel.parent == parent && rel.child == child;
  }

  lemma ChildStaysFound(s: Store, s': Store, c: Component, parent: nat, child: nat)
    requires Grows(s, s') && LookUpChild(s, c, parent) == Some(child)
    ensures LookUpChild(s', c, parent) == Some(child)
  {}

  lemma {:induction false} FailedIsBlocked(s: Store, cs: seq<Component>, parent: nat)
    requires Consistent(s) && parent < Size(s) && RegisterComponents(s, cs, parent).1.None?
    ensures Blocked(RegisterComponents(s, cs, parent).0, cs, parent)
    decreases |cs|
  {
    var (s1, answer) := RegisterChild(s, cs[0], parent);
    if answer.Id? {
      RegisterChildIsSound(s, cs[0], parent);
      FailedIsBlocked(s1, cs[1..], answer.id);
      RegisteredIsFound(s1, cs[1..], answer.id);
      var s' := RegisterComponents(s1, cs[1..], answer.id).0;
      var first := ChildStaysCarried(s1, s', Explicit(cs)[0], parent, answer.id);
      BlockedBehind(s', cs, parent, first);
    } else {
      RefusedIsBlocked(s, cs, parent);
    }
  }

  /** A lookup passes through what its first components lead to. */
  lemma {:induction false} LookUpPasses(s: Store, cs: seq<Component>, parent: nat, k: nat)
    requires LookUpComponents(s, cs, parent).Some? && k < |cs|
    ensures LookUpComponents(s, cs[..k], parent).Some?
    ensures LookUpChild(s, cs[k], LookUpComponents(s, cs[..k], parent).value).Some?
    decreases |cs|
  {
    if k > 0 {
      LookUpPasses(s, cs[1..], LookUpChild(s, cs[0], parent).value, k - 1);
      assert cs[..k][1..] == cs[1..][..k - 1] && cs[..k][0] == cs[0];
    }
  }

  lemma FoundIsNotBlocked(s: Store, cs: seq<Component>, parent: nat)
    requires Consistent(s) && LookUpComponents(s, Explicit(cs), parent).Some?
    ensures !Blocked(s, cs, parent)
  {
    forall k: nat, path, rel: Relation | k < |cs| && IsChain(s, path, Explicit(cs)[..k], parent, rel.parent) && Carries(s, rel, cs[k].(childType := None))
      ensures HasTypeOf(s, cs[k], rel.child)
    {
      PassedHasType(s, cs, parent, k, path, rel);
    }
  }

  lemma PassedHasType(s: Store, cs: seq<Component>, parent: nat, k: nat, path: seq<Relation>, rel: Relation)
    requires Consistent(s) && LookUpComponents(s, Explicit(cs), parent).Some?
    requires k < |cs| && IsChain(s, path, Explicit(cs)[..k], parent, rel.parent) && Carries(s, rel, cs[k].(childType := None))
    ensures HasTypeOf(s, cs[k], rel.child)
  {
    ChainIsFound(s, path, Explicit(cs)[..k], parent, rel.parent);
    LookUpPasses(s, Explicit(cs), parent, k);
    CarriedIsFound(s, cs[k].(childType := None), rel);
    TypeHasOneName(s, s.objectTypes[rel.child], TypeOf(cs[k]));
  }

  /** Registering fails if and only if the parent does not exist, or an object of another type is in the way. */
  lemma RegisterFailsIffBlocked(s: Store, cs: seq<Component>, parent: nat)
    requires Consistent(s) && cs != []
    ensures var (s', id) := RegisterComponents(s, cs, parent); id.None? <==> parent >= Size(s) || Blocked(s', cs, parent)
  {
    var (s', id) := RegisterComponents(s, cs, parent);
    if id.Some? {
      RegisteredIsFound(s, cs, parent);
      FoundIsNotBlocked(s', cs, parent);
      RegisterChildIsSound(s, cs[0], parent);
      ParentIsKnown(s, cs[0], parent);
    } else if parent < Size(s) {
      FailedIsBlocked(s, cs, parent);
    }
  }

  lemma ParentIsKnown(s: Store, c: Component, parent: nat)
    requires Consistent(s) && RegisterChild(s, c, parent).1.Id?
    ensures parent < Size(s)
  {
    CallRegisterType(s, c.relation);
    var s1 := T.Call(s, T.RegisterType(c.relation)).0;
    CallRegisterType(s1, TypeOf(c));
    TypesAreRegistered(s, c.relation, TypeOf(c));
    var s2 := T.Call(s1, T.RegisterType(TypeOf(c))).0;
    var r := T.RegisterObject(parent, Key(c.child, T.Call(s, T.RegisterType(c.relation)).1.id), T.Call(s1, T.RegisterType(TypeOf(c))).1.id);
    CallIsSound(s2, r);
  }
}
