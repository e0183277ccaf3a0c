/**
 * The topology as an object: the maps and vectors of RamTopology
 * (src/monitoring/topology/RamTopology.cpp) with its registration methods, and the path methods of
 * Topology (src/monitoring/topology/Topology.cpp) that scan their arguments in loops.
 */
module Topologies {
  import opened Base
  import opened Variables
  import opened TopologyStore
  import opened TopologyPaths
  import opened TopologyAliases
  import opened TopologyByPath
  import T = TopologyThreads

  // ---- What the scanning loops compute ----

  /** Passing a separator takes one piece away, passing another character none. */
  lemma SplitNext(s: string, sep: char, i: nat)
    requires i < |s|
    ensures |SplitFrom(s, sep, i)| == |SplitFrom(s, sep, i + 1)| + if s[i] == sep then 1 else 0
  {
    if s[i] == sep {
      FindFirst(s, sep, i, i);
    } else {
      FindFirst(s, sep, i, Find(s, sep, i + 1));
    }
  }

  lemma ParseOneMore(m: map<string, string>, pieces: seq<string>, piece: string)
    requires ParsePieces(m, pieces).Some?
    ensures var c := ParsePiece(m, piece);
            ParsePieces(m, pieces + [piece]) == if c.None? then None else Some(ParsePieces(m, pieces).value + [c.value])
  {
    assert (pieces + [piece])[..|pieces|] == pieces;
  }

  lemma {:induction false} FailsForGood(m: map<string, string>, pieces: seq<string>, more: seq<string>)
    requires ParsePieces(m, pieces).None?
    ensures ParsePieces(m, pieces + more).None?
    decreases |more|
  {
    if more == [] {
      assert pieces + more == pieces;
    } else {
      FailsForGood(m, pieces, more[..|more| - 1]);
      assert (pieces + more)[..|pieces + more| - 1] == pieces + more[..|more| - 1];
    }
  }

  /** What parsePath has done so far: `parsed` are the pieces it visited, `rest` those that are left. */
  ghost predicate Parsed(m: map<string, string>, pieces: seq<string>, parsed: seq<string>, rest: seq<string>, components: seq<Component>)
  {
    parsed + rest == pieces && ParsePieces(m, parsed) == Some(components)
  }

  lemma ParsedNext(m: map<string, string>, pieces: seq<string>, parsed: seq<string>, rest: seq<string>, components: seq<Component>)
    requires Parsed(m, pieces, parsed, rest, components) && rest != []
    ensures var c := ParsePiece(m, rest[0]);
            if c.None? then ParsePieces(m, pieces).None?
            else Parsed(m, pieces, parsed + [rest[0]], rest[1..], components + [c.value])
  {
    assert parsed + rest == parsed + [rest[0]] + rest[1..];
    ParseOneMore(m, parsed, rest[0]);
    if ParsePiece(m, rest[0]).None? {
      FailsForGood(m, parsed + [rest[0]], rest[1..]);
    }
  }

  /** enumerateParents lists them from the last one to the first; here, the first `n` of them. */
  function Listed(rels: seq<Relation>, relationType: nat, n: nat): seq<Relation>
    requires n <= |rels|
  {
    if n == 0 then []
    else if relationType == 0 || rels[n - 1].key.relationType == relationType then
      [rels[n - 1]] + Listed(rels, relationType, n - 1)
    else Listed(rels, relationType, n - 1)
  }

  lemma {:induction false} ListedHas(rels: seq<Relation>, relationType: nat, n: nat, rel: Relation)
    requires n <= |rels|
    ensures multiset(Listed(rels, relationType, n))[rel] ==
            if relationType == 0 || rel.key.relationType == relationType then multiset(rels[..n])[rel] else 0
  {
    if n != 0 {
      assert rels[..n] == rels[..n - 1] + [rels[n - 1]];
      ListedHas(rels, relationType, n - 1, rel);
    }
  }

  /** What enumerateChildren is asked for; relation type 0 stands for any. */
  predicate IsChildRelation(s: Store, parent: nat, relationType: nat, rel: Relation)
  {
    HasRelation(s, rel) && rel.parent == parent && (relationType == 0 || rel.key.relationType == relationType)
  }

  predicate InMap(childMap: map<Key, Relation>, relationType: nat, rel: Relation)
  {
    rel.key in childMap && childMap[rel.key] == rel && (relationType == 0 || rel.key.relationType == relationType)
  }

  /** A relation is listed by enumerateParents of its child exactly as often as by enumerateChildren of its parent. */
  lemma ParentsMirrorChildren(s: Store, relationType: nat, rel: Relation)
    requires Consistent(s) && rel.child < Size(s)
    ensures multiset(Listed(s.parents[rel.child], relationType, |s.parents[rel.child]|))[rel] ==
            if IsChildRelation(s, rel.parent, relationType, rel) then 1 else 0
  {
    var parents := s.parents[rel.child];
    ListedHas(parents, relationType, |parents|, rel);
    assert parents[..|parents|] == parents;
    if HasRelation(s, rel) {
      assert s.children[rel.parent][rel.key] == rel;
      T.OccursOnce(parents, rel);
    } else {
      forall i | 0 <= i < |parents| ensures parents[i] != rel {
        assert HasRelation(s, parents[i]);
      }
    }
  }

  class Topology {
    var typesByName: map<string, nat>
    var typesById: seq<string>
    var objectsById: seq<nat>
    var childMapsById: seq<map<Key, Relation>>
    var parentVectorsById: seq<seq<Relation>>
    var attributeMapsById: seq<map<int, Variable>>
    var attributesByName: map<Attribute, nat>
    var attributesById: seq<Attribute>
    var datatypesById: seq<int>
    var aliases: map<string, string>

    /** The vectors by id start with a dummy. */
    ghost function View(): Store
      reads this
      requires |typesById| > 0 && |attributesById| > 0 && |datatypesById| > 0
    {
      Store(Table(typesById[1..], typesByName), objectsById, childMapsById, parentVectorsById, attributeMapsById,
            Table(attributesById[1..], attributesByName), datatypesById[1..])
    }

    ghost predicate Valid()
      reads this
    {
      |typesById| > 0 && |attributesById| > 0 && |datatypesById| > 0 && Consistent(View()) && AliasInv(aliases)
    }

    constructor ()
      ensures Valid() && View() == EMPTY && aliases == map[]
    {
      typesByName, typesById := map[], [""];
      objectsById, childMapsById, parentVectorsById, attributeMapsById := [0], [map[]], [[]], [map[]];
      attributesByName, attributesById, datatypesById := map[], [Attribute(0, "")], [0];
      aliases := map[];
    }

    // ---- RamTopology ----

    method RegisterType(name: string) returns (id: nat)
      requires Valid()
      modifies this
      ensures Valid() && aliases == old(aliases)
      ensures (View(), T.Id(id)) == T.Call(old(View()), T.RegisterType(name))
    {
      CallRegisterType(View(), name);
      CallIsSound(View(), T.RegisterType(name));
      if name in typesByName {
        id := typesByName[name];
      } else {
        id := |typesById|;
        AddType(name);
      }
    }

    /** What registerType does under the exclusive lock. */
    method AddType(name: string)
      requires Valid() && name !in typesByName
      modifies this`typesById, this`typesByName
      ensures |typesById| == old(|typesById|) + 1 && View() == InsertType(old(View()), name)
    {
      typesByName := typesByName[name := |typesById|];
      typesById := typesById + [name];
      assert typesById[1..] == old(typesById[1..]) + [name];
    }

    method LookUpTypeByName(name: string) returns (id: Option<nat>)
      requires Valid()
      ensures id == if name in View().types.ids then Some(View().types.ids[name]) else None
    {
      id := if name in typesByName then Some(typesByName[name]) else None;
    }

    method RegisterObject(parent: nat, relationType: nat, childName: string, objectType: nat) returns (answer: T.Answer)
      requires Valid()
      modifies this
      ensures Valid() && aliases == old(aliases)
      ensures (View(), answer) == T.Call(old(View()), T.RegisterObject(parent, Key(childName, relationType), objectType))
    {
      var key := Key(childName, relationType);
      if parent >= |objectsById| {
        UnknownParent(View(), parent, key, objectType);
        return T.Unknown;
      }
      if key in childMapsById[parent] {
        FoundObject(View(), parent, key, objectType);
        var child := childMapsById[parent][key].child;
        return if objectsById[child] == objectType then T.Id(child) else T.Conflict;
      }
      NewObject(View(), parent, key, objectType);
      AddObject(parent, key, objectType);
      return T.Id(|objectsById| - 1);
    }

    /** What registerObject does under the exclusive locks. */
    method AddObject(parent: nat, key: Key, objectType: nat)
      requires Valid() && parent < Size(View()) && key !in View().children[parent]
      modifies this`objectsById, this`childMapsById, this`parentVectorsById, this`attributeMapsById
      ensures View() == InsertObject(old(View()), parent, key, objectType)
    {
      var newRelation := Relation(parent, key, |objectsById|);
      objectsById := objectsById + [objectType];
      childMapsById := childMapsById + [map[]];
      parentVectorsById := parentVectorsById + [[newRelation]];
      attributeMapsById := attributeMapsById + [map[]];
      childMapsById := childMapsById[parent := childMapsById[parent][key := newRelation]];
    }

    method RegisterRelation(rel: Relation) returns (answer: T.Answer)
      requires Valid()
      modifies this
      ensures Valid() && aliases == old(aliases)
      ensures (View(), answer) == T.Call(old(View()), T.RegisterRelation(rel))
    {
      if rel.child == 0 || rel.parent >= |objectsById| || rel.child >= |objectsById| {
        UnknownRelation(View(), rel);
        return T.Unknown;
      }
      if rel.key in childMapsById[rel.parent] {
        FoundRelation(View(), rel);
        var found := childMapsById[rel.parent][rel.key];
        return if found.child != rel.child || found.key.relationType != rel.key.relationType then T.Conflict else T.Linked(found);
      }
      NewRelation(View(), rel);
      AddRelation(rel);
      return T.Linked(rel);
    }

    /** What registerRelation does under the locks of the child map and the parent vector. */
    method AddRelation(rel: Relation)
      requires Valid() && rel.parent < Size(View()) && rel.child < Size(View())
      modifies this`childMapsById, this`parentVectorsById
      ensures View() == PushParent(PutChild(old(View()), rel), rel)
    {
      childMapsById := childMapsById[rel.parent := childMapsById[rel.parent][rel.key := rel]];
      parentVectorsById := parentVectorsById[rel.child := parentVectorsById[rel.child] + [rel]];
    }

    method RegisterAttribute(a: Attribute, dt: int) returns (answer: T.Answer)
      requires Valid()
      modifies this
      ensures Valid() && aliases == old(aliases)
      ensures (View(), answer) == T.Call(old(View()), T.RegisterAttribute(a, dt))
    {
      CallRegisterAttribute(View(), a, dt);
      CallIsSound(View(), T.RegisterAttribute(a, dt));
      assert a in attributesByName ==> Matches(View().attributes, a, attributesByName[a]);
      if a !in attributesByName {
        attributesByName := attributesByName[a := |attributesById|];
        attributesById := attributesById + [a];
        datatypesById := datatypesById + [dt];
        assert attributesById[1..] == old(attributesById[1..]) + [a];
        assert datatypesById[1..] == old(datatypesById[1..]) + [dt];
      }
      var id := attributesByName[a];
      return if datatypesById[id] == dt then T.Id(id) else T.Conflict;
    }

    method SetAttribute(owner: nat, id: nat, value: Variable) returns (answer: T.Answer)
      requires Valid()
      modifies this
      ensures Valid() && aliases == old(aliases)
      ensures (View(), answer) == T.Call(old(View()), T.SetAttribute(owner, id, value))
    {
      CallSetAttribute(View(), owner, id, value);
      CallIsSound(View(), T.SetAttribute(owner, id, value));
      if owner == 0 || owner >= |objectsById| {
        return T.Unknown;
      }
      if id !in attributeMapsById[owner] || !Equal(value, attributeMapsById[owner][id]) {
        attributeMapsById := attributeMapsById[owner := attributeMapsById[owner][id := value]];
      }
      return T.Success;
    }

    static method ListParents(parentVector: seq<Relation>, relationType: nat) returns (rels: seq<Relation>)
      ensures rels == Listed(parentVector, relationType, |parentVector|)
    {
      rels := [];
      var i := |parentVector|;
      while i > 0
        invariant 0 <= i <= |parentVector|
        invariant rels + Listed(parentVector, relationType, i) == Listed(parentVector, relationType, |parentVector|)
      {
        i := i - 1;
        if relationType == 0 || parentVector[i].key.relationType == relationType {
          ghost var rest := Listed(parentVector, relationType, i);
          assert rels + ([parentVector[i]] + rest) == rels + [parentVector[i]] + rest;
          rels := rels + [parentVector[i]];
        }
      }
    }

    method EnumerateParents(child: nat, relationType: nat) returns (rels: seq<Relation>)
      requires Valid()
      ensures rels == if child < Size(View()) then Listed(View().parents[child], relationType, |View().parents[child]|) else []
    {
      rels := [];
      if child < |objectsById| {
        rels := ListParents(parentVectorsById[child], relationType);
      }
    }

    static method ListChildren(childMap: map<Key, Relation>, relationType: nat) returns (rels: seq<Relation>)
      requires forall key :: key in childMap ==> childMap[key].key == key
      ensures forall rel :: multiset(rels)[rel] == if InMap(childMap, relationType, rel) then 1 else 0
    {
      rels := [];
      var keys := childMap.Keys;
      while keys != {}
        invariant keys <= childMap.Keys
        invariant forall rel :: multiset(rels)[rel] == if InMap(childMap, relationType, rel) && rel.key !in keys then 1 else 0
        decreases |keys|
      {
        var key :| key in keys;
        keys := keys - {key};
        var rel := childMap[key];
        if relationType == 0 || rel.key.relationType == relationType {
          rels := rels + [rel];
        }
      }
    }

    method EnumerateChildren(parent: nat, relationType: nat) returns (rels: seq<Relation>)
      requires Valid()
      ensures forall rel :: multiset(rels)[rel] == if IsChildRelation(View(), parent, relationType, rel) then 1 else 0
    {
      rels := [];
      if parent < |objectsById| {
        rels := ListChildren(childMapsById[parent], relationType);
        forall rel ensures InMap(childMapsById[parent], relationType, rel) <==> IsChildRelation(View(), parent, relationType, rel) {}
      }
    }

    // ---- Paths and aliases ----

    method ParsePathComponent(aliasedComponent: string) returns (component: Option<Component>)
      requires AliasInv(aliases)
      ensures component == ParsePiece(aliases, aliasedComponent)
    {
      var text := aliasedComponent;
      while IsAlias(text)
        invariant Resolve(aliases, text) == Resolve(aliases, aliasedComponent)
        decreases Depth(aliases, text)
      {
        if text !in aliases {
          return None;
        }
        FollowOne(aliases, text);
        text := aliases[text];
      }
      component := ScanComponent(text);
    }

    static method CountColons(text: string) returns (colonCount: Option<nat>)
      ensures colonCount == if SLASH in text then None else Some(|Split(text, COLON)| - 1)
    {
      var count := 0;
      var i := 0;
      while i < |text|
        invariant Lacks(text, SLASH, 0, i)
        invariant count + |SplitFrom(text, COLON, i)| == |Split(text, COLON)|
      {
        SplitNext(text, COLON, i);
        if text[i] == COLON {
          count := count + 1;
        } else if text[i] == SLASH {
          return None;
        }
        i := i + 1;
      }
      return Some(count);
    }

    static method ScanComponent(text: string) returns (component: Option<Component>)
      ensures component == ParseComponent(text)
    {
      var colonCount := CountColons(text);
      if colonCount.None? || colonCount.value == 0 || colonCount.value > 2 {
        return None;
      }
      var colon1 := SkipTo(text, 0);
      if colonCount.value == 1 {
        if colon1 == 0 || colon1 == |text| - 1 {
          return None;
        }
        return Some(Component(text[..colon1], text[colon1 + 1..], None));
      }
      var colon2 := SkipTo(text, colon1 + 1);
      if colon1 == 0 || colon1 == colon2 - 1 || colon2 == |text| - 1 {
        return None;
      }
      return Some(Component(text[..colon1], text[colon1 + 1..colon2], Some(text[colon2 + 1..])));
    }

    /** The loops that look for a colon that is known to be there. */
    static method SkipTo(text: string, start: nat) returns (i: nat)
      requires start <= |text| && |SplitFrom(text, COLON, start)| > 1
      ensures i == Find(text, COLON, start) < |text|
    {
      i := start;
      while text[i] != COLON
        invariant start <= i <= Find(text, COLON, start) < |text|
        decreases |text| - i
      {
        i := i + 1;
      }
    }

    static method CountSlashes(path: string) returns (componentCount: nat)
      ensures componentCount == |Split(path, SLASH)|
    {
      componentCount := 1;
      var i := |path|;
      while i > 0
        invariant 0 <= i <= |path|
        invariant componentCount == |SplitFrom(path, SLASH, i)|
      {
        i := i - 1;
        SplitNext(path, SLASH, i);
        if path[i] == SLASH {
          componentCount := componentCount + 1;
        }
      }
    }

    /** The descriptors, and how many the source allocates for them. */
    method ParsePathString(path: string) returns (components: Option<seq<Component>>, componentCount: nat)
      requires AliasInv(aliases)
      ensures components == ParsePath(aliases, path)
      ensures componentCount == |Split(path, SLASH)|
    {
      componentCount := CountSlashes(path);
      if path == "" {
        return None, componentCount;
      }
      var i: nat;
      components, i := Some([]), 0;
      ghost var pieces := PiecesFrom(path, 0);
      ghost var parsed, rest: seq<string> := [], pieces;
      while i < |path|
        invariant components.Some? && Parsed(aliases, pieces, parsed, rest, components.value)
        invariant rest == PiecesFrom(path, i)
      {
        var end := SkipSlash(path, i);
        ParsedNext(aliases, pieces, parsed, rest, components.value);
        var component := ParsePathComponent(path[i..end]);
        if component.None? {
          return None, componentCount;
        }
        components := Some(components.value + [component.value]);
        parsed, rest := parsed + [rest[0]], rest[1..];
        i := end + 1;
      }
      assert parsed == pieces;
    }

    static method SkipSlash(path: string, start: nat) returns (i: nat)
      requires start <= |path|
      ensures i == Find(path, SLASH, start)
    {
      i := start;
      while i < |path| && path[i] != SLASH
        invariant Lacks(path, SLASH, start, i)
      {
        i := i + 1;
      }
      FindFirst(path, SLASH, start, i);
    }

    /** The components, with the descriptor that is counted but not filled. */
    method AllDescriptors(path: string, junk: bool) returns (components: Option<seq<Component>>, componentCount: nat)
      requires AliasInv(aliases)
      ensures components == Descriptors(aliases, path, junk)
      ensures components.Some? ==> componentCount == |components.value| > 0
    {
      components, componentCount := ParsePathString(path);
      if components.Some? {
        CountIsFilled(aliases, path);
        if |components.value| < componentCount {
          components := Some(components.value + [Unfilled(junk)]);
        }
      }
    }

    method RegisterObjectByPath(path: string, parent: nat, junk: bool) returns (id: Option<nat>)
      requires Valid()
      modifies this
      ensures Valid() && aliases == old(aliases)
      ensures (View(), id) == RegisterByPath(old(View()), aliases, path, parent, junk)
    {
      var components, componentCount := AllDescriptors(path, junk);
      if components.None? {
        return None;
      }
      var cs := components.value;
      var resultId := parent;
      for i := 0 to componentCount
        invariant Valid() && aliases == old(aliases)
        invariant RegisterComponents(View(), cs[i..], resultId) == RegisterComponents(old(View()), cs, parent)
      {
        ghost var before := View();
        var relationType := RegisterType(cs[i].relation);
        var childTypeName := if cs[i].childType.Some? then cs[i].childType.value else cs[i].relation;
        var childType := RegisterType(childTypeName);
        var child := RegisterObject(resultId, relationType, cs[i].child, childType);
        assert (View(), child) == RegisterChild(before, cs[i], resultId);
        assert cs[i..][0] == cs[i] && cs[i..][1..] == cs[i + 1..];
        if !child.Id? {
          return None;
        }
        resultId := child.id;
      }
      assert cs[componentCount..] == [];
      return Some(resultId);
    }

    method LookUpRelation(parent: nat, relationType: nat, childName: string) returns (rel: Option<Relation>)
      requires Valid()
      ensures rel.Some? ==> HasRelation(View(), rel.value) && rel.value.parent == parent && rel.value.key == Key(childName, relationType)
      ensures rel.None? ==> parent >= Size(View()) || Key(childName, relationType) !in View().children[parent]
    {
      var key := Key(childName, relationType);
      if parent < |objectsById| && key in childMapsById[parent] {
        rel := Some(childMapsById[parent][key]);
      } else {
        rel := None;
      }
    }

    /** One turn of the loop in lookupObjectByPath. */
    method LookUpByComponent(c: Component, parent: nat) returns (id: Option<nat>)
      requires Valid()
      ensures id == LookUpChild(View(), c, parent)
      ensures id.Some? ==> 1 <= id.value < Size(View())
    {
      var relationType := LookUpTypeByName(c.relation);
      if relationType.None? {
        return None;
      }
      var relation := LookUpRelation(parent, relationType.value, c.child);
      if relation.None? {
        return None;
      }
      var child := relation.value.child;
      if c.childType.Some? {
        var expectedType := LookUpTypeByName(c.childType.value);
        if expectedType.None? || objectsById[child] != expectedType.value {
          return None;
        }
      }
      return Some(child);
    }

    method LookUpEach(cs: seq<Component>, parent: nat) returns (id: Option<nat>)
      requires Valid()
      ensures id == LookUpComponents(View(), cs, parent)
      ensures id.Some? && cs != [] ==> 1 <= id.value < Size(View())
    {
      var resultId: nat := parent;
      ghost var s := View();
      for i := 0 to |cs|
        invariant LookUpComponents(s, cs[i..], resultId) == LookUpComponents(s, cs, parent)
        invariant i > 0 ==> 1 <= resultId < Size(s)
      {
        assert cs[i..][0] == cs[i] && cs[i..][1..] == cs[i + 1..];
        var child := LookUpByComponent(cs[i], resultId);
        if child.None? {
          return None;
        }
        resultId := child.value;
      }
      assert cs[|cs|..] == [];
      return Some(resultId);
    }

    method LookUpObjectByPath(path: string, parent: nat, junk: bool) returns (id: Option<nat>)
      requires Valid()
      ensures id == LookUpByPath(View(), aliases, path, parent, junk)
    {
      var components, componentCount := AllDescriptors(path, junk);
      if components.None? {
        return None;
      }
      id := LookUpEach(components.value, parent);
    }

    method SetAlias(name: string, value: string) returns (success: bool)
      requires Valid()
      modifies this`aliases
      ensures Valid() && View() == old(View())
      ensures success <==> Acceptable(old(aliases), name, value) && Settable(old(aliases), name, value)
      ensures aliases == if success then old(aliases)[name := value] else old(aliases)
    {
      if |name| < 2 || name[0] != AT {
        return false;
      }
      var i := |name|;
      while i > 0
        invariant 0 <= i <= |name| && SLASH !in name[i..]
      {
        i := i - 1;
        if name[i] == SLASH {
          return false;
        }
      }
      var trash := ParsePathComponent(value);
      if trash.None? {
        return false;
      }
      if name in aliases && aliases[name] != value {
        return false;
      }
      StoreKeeps(aliases, name, value);
      aliases := aliases[name := value];
      return true;
    }
  }
}
