/**
 * The data of RamTopology (src/monitoring/topology/RamTopology.cpp) as a value, and what each of its
 * critical sections does to it.
 */
module TopologyStore {
  import opened Base
  import opened Variables

  // ---- Tables with dense ids ----

  /** xxxByName and xxxById: the i-th key has the id i + 1, since index 0 holds a dummy. */
  datatype Table<K(==)> = Table(keys: seq<K>, ids: map<K, nat>)

  /** Key and id belong together, seen from either table. */
  predicate Matches<K>(t: Table<K>, k: K, id: nat)
  {
    1 <= id <= |t.keys| && t.keys[id - 1] == k && k in t.ids && t.ids[k] == id
  }

  function KeyOf<K>(t: Table<K>, id: nat): K
    requires 1 <= id <= |t.keys|
  {
    t.keys[id - 1]
  }

  predicate TableInv<K>(t: Table<K>)
  {
    && (forall k :: k in t.ids ==> Matches(t, k, t.ids[k]))
    && (forall id: nat :: 1 <= id <= |t.keys| ==> Matches(t, KeyOf(t, id), id))
  }

  /** Look the key up again and append it if it is still missing. */
  function InsertKey<K>(t: Table<K>, k: K): (t': Table<K>)
    ensures k in t'.ids
  {
    if k in t.ids then t else Table(t.keys + [k], t.ids[k := |t.keys| + 1])
  }

  predicate TableGrows<K>(t: Table<K>, t': Table<K>)
  {
    t.keys <= t'.keys && forall k :: k in t.ids ==> k in t'.ids && t'.ids[k] == t.ids[k]
  }

  // ---- The store ----

  datatype Key = Key(childName: string, relationType: nat)

  datatype Relation = Relation(parent: nat, key: Key, child: nat)

  datatype Attribute = Attribute(domain: nat, name: string)

  /** Object 0 is the implicit root; it has a child map, but no parents and no attributes. */
  datatype Store = Store(
    types: Table<string>,
    objectTypes: seq<nat>,                 // objectsById
    children: seq<map<Key, Relation>>,     // childMapsById
    parents: seq<seq<Relation>>,           // parentVectorsById
    values: seq<map<int, Variable>>,       // attributeMapsById
    attributes: Table<Attribute>,
    datatypes: seq<int>)                   // the datatype of each attribute

  const EMPTY: Store := Store(Table([], map[]), [0], [map[]], [[]], [map[]], Table([], map[]), [])

  function Size(s: Store): nat
  {
    |s.objectTypes|
  }

  predicate Shape(s: Store)
  {
    |s.objectTypes| == |s.children| == |s.parents| == |s.values| > 0
  }

  predicate HasRelation(s: Store, rel: Relation)
  {
    rel.parent < |s.children| && rel.key in s.children[rel.parent] && s.children[rel.parent][rel.key] == rel
  }

  function InsertType(s: Store, name: string): Store
  {
    s.(types := InsertKey(s.types, name))
  }

  function InsertAttribute(s: Store, a: Attribute, dt: int): Store
  {
    s.(attributes := InsertKey(s.attributes, a), datatypes := if a in s.attributes.ids then s.datatypes else s.datatypes + [dt])
  }

  /** The section of registerObject that holds objectsLock and the lock of the child map. */
  function InsertObject(s: Store, parent: nat, key: Key, objectType: nat): Store
    requires parent < |s.children|
  {
    if key in s.children[parent] then s
    else
      var rel := Relation(parent, key, Size(s));
      s.(objectTypes := s.objectTypes + [objectType],
         children := s.children[parent := s.children[parent][key := rel]] + [map[]],
         parents := s.parents + [[rel]],
         values := s.values + [map[]])
  }

  /** registerRelation, in the child map of the parent ... */
  function PutChild(s: Store, rel: Relation): Store
    requires rel.parent < |s.children|
  {
    s.(children := s.children[rel.parent := s.children[rel.parent][rel.key := rel]])
  }

  /** ... and in the parent vector of the child. */
  function PushParent(s: Store, rel: Relation): Store
    requires rel.child < |s.parents|
  {
    s.(parents := s.parents[rel.child := s.parents[rel.child] + [rel]])
  }

  function PutValue(s: Store, owner: nat, attribute: nat, value: Variable): Store
    requires owner < |s.values|
  {
    s.(values := s.values[owner := s.values[owner][attribute := value]])
  }

  // ---- What holds whenever no section is half done ----

  predicate TablesInv(s: Store)
  {
    TableInv(s.types) && TableInv(s.attributes) && |s.datatypes| == |s.attributes.keys|
  }

  /** A child map holds under each key the relation with that parent and key. */
  predicate ChildrenInv(s: Store)
    requires Shape(s)
  {
    forall p, k {:trigger s.children[p][k]} :: 0 <= p < Size(s) && k in s.children[p] ==>
      var rel := s.children[p][k];
      rel.parent == p && rel.key == k && 1 <= rel.child < Size(s)
  }

  /** A parent vector holds relations of the child maps, to this child, each of them once. */
  predicate ParentsInv(s: Store)
    requires Shape(s)
  {
    && (forall c, i {:trigger s.parents[c][i]} :: 0 <= c < Size(s) && 0 <= i < |s.parents[c]| ==>
          s.parents[c][i].child == c && HasRelation(s, s.parents[c][i]))
    && (forall c, i, j {:trigger s.parents[c][i], s.parents[c][j]} ::
          0 <= c < Size(s) && 0 <= i < j < |s.parents[c]| ==> s.parents[c][i] != s.parents[c][j])
  }

  /** Every object but the root was first registered below an object with a smaller id. */
  predicate RootedInv(s: Store)
    requires Shape(s)
  {
    s.parents[0] == [] && forall c :: 1 <= c < Size(s) ==> s.parents[c] != [] && s.parents[c][0].parent < c
  }

  /** Every relation of a child map, except those for which `pending` holds, is in the parent vector of its child. */
  ghost predicate MirrorInv(s: Store, pending: Relation -> bool)
    requires Shape(s)
  {
    forall p, k {:trigger s.children[p][k]} :: 0 <= p < Size(s) && k in s.children[p] ==>
      var rel := s.children[p][k];
      rel.child < Size(s) && (rel in s.parents[rel.child] <==> !pending(rel))
  }

  ghost predicate StoreInv(s: Store, pending: Relation -> bool)
  {
    Shape(s) && TablesInv(s) && ChildrenInv(s) && ParentsInv(s) && RootedInv(s) && MirrorInv(s, pending)
  }

  /** Nothing that is registered ever changes, and an attribute that has a value keeps one. */
  predicate Grows(s: Store, s': Store)
  {
    && TableGrows(s.types, s'.types) && TableGrows(s.attributes, s'.attributes) && s.datatypes <= s'.datatypes
    && s.objectTypes <= s'.objectTypes
    && |s.children| <= |s'.children| && |s.parents| <= |s'.parents|
    && (forall p, k {:trigger s'.children[p][k]} {:trigger s.children[p][k]} :: 0 <= p < |s.children| && k in s.children[p] ==>
          k in s'.children[p] && s'.children[p][k] == s.children[p][k])
    && (forall c :: 0 <= c < |s.parents| ==> s.parents[c] <= s'.parents[c])
    && |s.values| <= |s'.values| && forall o, a :: 0 <= o < |s.values| && a in s.values[o] ==> a in s'.values[o]
  }

  lemma GrowsTransitively(s: Store, t: Store, u: Store)
    requires Grows(s, t) && Grows(t, u)
    ensures Grows(s, u)
  {}

  lemma InsertKeyKeeps<K>(t: Table<K>, k: K)
    requires TableInv(t)
    ensures TableInv(InsertKey(t, k)) && TableGrows(t, InsertKey(t, k))
  {
    var t' := InsertKey(t, k);
    if k !in t.ids {
      forall l | l in t'.ids ensures Matches(t', l, t'.ids[l]) {
        if l != k { assert Matches(t, l, t.ids[l]); }
      }
      forall id: nat | 1 <= id <= |t'.keys| ensures Matches(t', KeyOf(t', id), id) {
        if id <= |t.keys| { assert Matches(t, KeyOf(t, id), id); }
      }
    }
  }

  lemma InsertTypeKeeps(s: Store, name: string, pending: Relation -> bool)
    requires StoreInv(s, pending)
    ensures StoreInv(InsertType(s, name), pending) && Grows(s, InsertType(s, name))
  {
    InsertKeyKeeps(s.types, name);
  }

  lemma InsertAttributeKeeps(s: Store, a: Attribute, dt: int, pending: Relation -> bool)
    requires StoreInv(s, pending)
    ensures StoreInv(InsertAttribute(s, a, dt), pending) && Grows(s, InsertAttribute(s, a, dt))
  {
    InsertKeyKeeps(s.attributes, a);
  }

  lemma InsertObjectGrows(s: Store, parent: nat, key: Key, objectType: nat)
    requires Shape(s) && parent < Size(s)
    ensures Shape(InsertObject(s, parent, key, objectType)) && Grows(s, InsertObject(s, parent, key, objectType))
  {}

  lemma InsertObjectKeepsChildren(s: Store, parent: nat, key: Key, objectType: nat)
    requires Shape(s) && parent < Size(s) && ChildrenInv(s)
    ensures ChildrenInv(InsertObject(s, parent, key, objectType))
  {}

  lemma InsertObjectKeepsParents(s: Store, parent: nat, key: Key, objectType: nat)
    requires Shape(s) && parent < Size(s) && ChildrenInv(s) && ParentsInv(s) && RootedInv(s)
    ensures var s' := InsertObject(s, parent, key, objectType); ParentsInv(s') && RootedInv(s')
  {
    var s' := InsertObject(s, parent, key, objectType);
    InsertObjectGrows(s, parent, key, objectType);
    forall c, i | 0 <= c < Size(s') && 0 <= i < |s'.parents[c]|
      ensures s'.parents[c][i].child == c && HasRelation(s', s'.parents[c][i])
    {
      if c < Size(s) {
        assert s'.parents[c][i] == s.parents[c][i] && HasRelation(s, s.parents[c][i]);
      }
    }
  }

  lemma InsertObjectKeepsMirror(s: Store, parent: nat, key: Key, objectType: nat, pending: Relation -> bool)
    requires Shape(s) && parent < Size(s) && ChildrenInv(s) && MirrorInv(s, pending)
    requires key !in s.children[parent] ==> !pending(Relation(parent, key, Size(s)))
    ensures MirrorInv(InsertObject(s, parent, key, objectType), pending)
  {}

  lemma InsertObjectKeeps(s: Store, parent: nat, key: Key, objectType: nat, pending: Relation -> bool)
    requires StoreInv(s, pending) && parent < Size(s)
    requires key !in s.children[parent] ==> !pending(Relation(parent, key, Size(s)))
    ensures var s' := InsertObject(s, parent, key, objectType);
            StoreInv(s', pending) && Grows(s, s') && key in s'.children[parent]
  {
    InsertObjectGrows(s, parent, key, objectType);
    InsertObjectKeepsChildren(s, parent, key, objectType);
    InsertObjectKeepsParents(s, parent, key, objectType);
    InsertObjectKeepsMirror(s, parent, key, objectType, pending);
  }

  lemma PutChildKeeps(s: Store, rel: Relation, pending: Relation -> bool, pending': Relation -> bool)
    requires StoreInv(s, pending) && rel.parent < Size(s) && 1 <= rel.child < Size(s) && rel.key !in s.children[rel.parent]
    requires forall r: Relation :: pending'(r) <==> pending(r) || r == rel
    ensures StoreInv(PutChild(s, rel), pending') && Grows(s, PutChild(s, rel))
  {
    PutChildKeepsParents(s, rel);
    PutChildKeepsMirror(s, rel, pending, pending');
  }

  lemma PutChildKeepsParents(s: Store, rel: Relation)
    requires Shape(s) && ChildrenInv(s) && ParentsInv(s)
    requires rel.parent < Size(s) && 1 <= rel.child < Size(s) && rel.key !in s.children[rel.parent]
    ensures Shape(PutChild(s, rel)) && ChildrenInv(PutChild(s, rel)) && ParentsInv(PutChild(s, rel))
    ensures Grows(s, PutChild(s, rel))
  {
    var s' := PutChild(s, rel);
    forall c, i | 0 <= c < Size(s') && 0 <= i < |s'.parents[c]| ensures HasRelation(s', s'.parents[c][i]) {
      assert HasRelation(s, s.parents[c][i]);
    }
  }

  lemma PutChildKeepsMirror(s: Store, rel: Relation, pending: Relation -> bool, pending': Relation -> bool)
    requires Shape(s) && ParentsInv(s) && MirrorInv(s, pending)
    requires rel.parent < Size(s) && 1 <= rel.child < Size(s) && rel.key !in s.children[rel.parent]
    requires forall r: Relation :: pending'(r) <==> pending(r) || r == rel
    ensures MirrorInv(PutChild(s, rel), pending')
  {
    assert rel !in s.parents[rel.child] by {
      forall i | 0 <= i < |s.parents[rel.child]| ensures s.parents[rel.child][i] != rel {
        assert HasRelation(s, s.parents[rel.child][i]);
      }
    }
  }

  lemma PushParentKeepsParents(s: Store, rel: Relation)
    requires Shape(s) && ParentsInv(s) && RootedInv(s)
    requires HasRelation(s, rel) && 1 <= rel.child < Size(s) && rel !in s.parents[rel.child]
    ensures var s' := PushParent(s, rel); Shape(s') && ParentsInv(s') && RootedInv(s') && Grows(s, s')
  {
    var s' := PushParent(s, rel);
    forall c, i | 0 <= c < Size(s') && 0 <= i < |s'.parents[c]|
      ensures s'.parents[c][i].child == c && HasRelation(s', s'.parents[c][i])
    {
      if i < |s.parents[c]| {
        assert s'.parents[c][i] == s.parents[c][i] && HasRelation(s, s.parents[c][i]);
      }
    }
  }

  lemma PushParentKeepsMirror(s: Store, rel: Relation, pending: Relation -> bool, pending': Relation -> bool)
    requires Shape(s) && MirrorInv(s, pending) && rel.child < Size(s)
    requires forall r: Relation :: pending'(r) <==> pending(r) && r != rel
    ensures MirrorInv(PushParent(s, rel), pending')
  {}

  lemma PushParentKeeps(s: Store, rel: Relation, pending: Relation -> bool, pending': Relation -> bool)
    requires StoreInv(s, pending) && HasRelation(s, rel) && pending(rel)
    requires forall r: Relation :: pending'(r) <==> pending(r) && r != rel
    ensures rel.child < Size(s) && StoreInv(PushParent(s, rel), pending') && Grows(s, PushParent(s, rel))
  {
    assert s.children[rel.parent][rel.key] == rel;
    PushParentKeepsParents(s, rel);
    PushParentKeepsMirror(s, rel, pending, pending');
  }

  lemma PutValueKeeps(s: Store, owner: nat, attribute: nat, value: Variable, pending: Relation -> bool)
    requires StoreInv(s, pending) && owner < Size(s)
    ensures StoreInv(PutValue(s, owner, attribute, value), pending) && Grows(s, PutValue(s, owner, attribute, value))
  {}
}
