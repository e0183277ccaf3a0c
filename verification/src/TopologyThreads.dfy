/**
 * Any number of threads that call the registration methods of RamTopology
 * (src/monitoring/topology/RamTopology.cpp:92-112, 134-206, 218-258, 311-381), interleaved at the
 * points where they take or release a lock. A thread that needs a lock which another thread holds
 * between two of its steps stutters.
 */
module TopologyThreads {
  import opened Base
  import opened Variables
  import opened TopologyStore

  datatype Request =
    | RegisterType(name: string)
    | RegisterObject(parent: nat, key: Key, objectType: nat)
    | RegisterRelation(relation: Relation)
    | RegisterAttribute(attribute: Attribute, dt: int)
    | SetAttribute(owner: nat, attributeId: nat, value: Variable)

  /** Unknown and Conflict are both null handles in the source: an id names nothing, or the entry is there with other data. */
  datatype Answer = Unknown | Conflict | Id(id: nat) | Linked(relation: Relation) | Success

  datatype Thread =
    | Idle
    | Begin(r: Request)            // the arguments are checked and the containers looked up
    | LookUp(r: Request)           // the shared lock
    | Insert(r: Request)           // the exclusive lock: look up again, then insert
    | Hold(r: Request)             // registerObject: holds objectsLock, is about to lock the child map
    | Push(r: Request)             // registerRelation: the parent vector, still holding the child map
    | Check(r: Request, child: nat)  // registerObject: compare the type of the object that was found
    | Done(r: Request, answer: Answer)

  /** `begun` is history: how many objects there were when the call of each thread looked up its containers. */
  datatype State = State(store: Store, threads: seq<Thread>, begun: seq<nat>)

  datatype Action = Start(i: nat, r: Request) | Run(i: nat)

  /** The thread holds the lock of the child map of `parent` for writing. */
  predicate Locks(t: Thread, parent: nat)
  {
    t.Push? && t.r.RegisterRelation? && t.r.relation.parent == parent
  }

  predicate Unlocked(threads: seq<Thread>, parent: nat)
  {
    forall j :: 0 <= j < |threads| ==> !Locks(threads[j], parent)
  }

  /** The parent of a request that looks into a child map. */
  function ParentOf(r: Request): Option<nat>
  {
    match r
    case RegisterObject(parent, key, objectType) => Some(parent)
    case RegisterRelation(relation) => Some(relation.parent)
    case _ => None
  }

  function CheckRelation(s: Store, rel: Relation): Answer
    requires rel.parent < |s.children| && rel.key in s.children[rel.parent]
  {
    var found := s.children[rel.parent][rel.key];
    if found.child != rel.child || found.key.relationType != rel.key.relationType then Conflict else Linked(found)
  }

  function CheckAttribute(s: Store, a: Attribute, dt: int): Answer
    requires a in s.attributes.ids
  {
    var id := s.attributes.ids[a];
    if 1 <= id <= |s.datatypes| && s.datatypes[id - 1] == dt then Id(id) else Conflict
  }

  /** One critical section of a thread: the new store and what the thread does next. */
  function Section(s: Store, t: Thread): (Store, Thread)
  {
    match t
    case Idle => (s, t)
    case Begin(r) =>
      (match r
       case RegisterType(name) => (s, LookUp(r))
       case RegisterAttribute(a, dt) => (s, LookUp(r))
       case RegisterObject(parent, key, ot) => (s, if parent < |s.children| then LookUp(r) else Done(r, Unknown))
       case RegisterRelation(rel) =>
         (s, if rel.child != 0 && rel.parent < |s.children| && rel.child < |s.parents| then LookUp(r) else Done(r, Unknown))
       case SetAttribute(owner, id, v) => (s, if owner != 0 && owner < |s.values| then LookUp(r) else Done(r, Unknown)))
    case LookUp(r) =>
      (match r
       case RegisterType(name) => (s, if name in s.types.ids then Done(r, Id(s.types.ids[name])) else Insert(r))
       case RegisterAttribute(a, dt) => (s, if a in s.attributes.ids then Done(r, CheckAttribute(s, a, dt)) else Insert(r))
       case RegisterObject(parent, key, ot) =>
         (s, if parent < |s.children| && key in s.children[parent] then Check(r, s.children[parent][key].child) else Insert(r))
       case RegisterRelation(rel) =>
         (s, if rel.parent < |s.children| && rel.key in s.children[rel.parent] then Done(r, CheckRelation(s, rel)) else Insert(r))
       case SetAttribute(owner, id, v) =>
         (s, if owner < |s.values| && id in s.values[owner] && Equal(v, s.values[owner][id]) then Done(r, Success) else Insert(r)))
    case Insert(r) =>
      (match r
       case RegisterType(name) =>
         var s' := InsertType(s, name);
         (s', Done(r, Id(s'.types.ids[name])))
       case RegisterAttribute(a, dt) =>
         var s' := InsertAttribute(s, a, dt);
         (s', Done(r, CheckAttribute(s', a, dt)))
       case RegisterObject(parent, key, ot) => (s, Hold(r))
       case RegisterRelation(rel) =>
         if rel.parent >= |s.children| then (s, Done(r, Unknown))
         else if rel.key in s.children[rel.parent] then (s, Done(r, CheckRelation(s, rel)))
         else (PutChild(s, rel), Push(r))
       case SetAttribute(owner, id, v) =>
         if owner < |s.values| then (PutValue(s, owner, id, v), Done(r, Success)) else (s, Done(r, Unknown)))
    case Hold(r) =>
      if !r.RegisterObject? || r.parent >= |s.children| then (s, Done(r, Unknown))
      else if r.key in s.children[r.parent] then (s, Check(r, s.children[r.parent][r.key].child))
      else (InsertObject(s, r.parent, r.key, r.objectType), Done(r, Id(Size(s))))
    case Push(r) =>
      if r.RegisterRelation? && r.relation.child < |s.parents| then (PushParent(s, r.relation), Done(r, Linked(r.relation)))
      else (s, Done(r, Unknown))
    case Check(r, child) =>
      (s, Done(r, if r.RegisterObject? && child < |s.objectTypes| && s.objectTypes[child] == r.objectType then Id(child) else Conflict))
    case Done(r, answer) => (s, Idle)
  }

  /** How far a thread is from its answer. */
  function Rank(t: Thread): nat
  {
    match t
    case Begin(_) => 5
    case LookUp(_) => 4
    case Insert(_) => 3
    case Hold(_) => 2
    case Push(_) => 1
    case Check(_, _) => 1
    case _ => 0
  }

  /** A call that nobody interferes with: all its sections in a row. */
  function Complete(s: Store, t: Thread): (Store, Answer)
    requires !t.Idle?
    decreases Rank(t)
  {
    if t.Done? then (s, t.answer)
    else
      var (s', t') := Section(s, t);
      Complete(s', t')
  }

  function Call(s: Store, r: Request): (Store, Answer)
  {
    Complete(s, Begin(r))
  }

  /** The next section takes objectsLock, shared or exclusive. */
  predicate NeedsObjects(t: Thread)
  {
    match t
    case Begin(r) => r.RegisterObject? || r.RegisterRelation? || r.SetAttribute?
    case Insert(r) => r.RegisterObject?
    case Check(_, _) => true
    case _ => false
  }

  /** The next section takes the lock of this child map, shared or exclusive. */
  function NeedsMap(t: Thread): Option<nat>
  {
    match t
    case LookUp(r) => ParentOf(r)
    case Insert(r) => if r.RegisterObject? then None else ParentOf(r)
    case Hold(r) => ParentOf(r)
    case _ => None
  }

  /** Thread `j` holds a lock that thread `i` needs. */
  predicate WaitsFor(s: State, i: nat, j: nat)
    requires i < |s.threads| && j < |s.threads|
  {
    var t, other := s.threads[i], s.threads[j];
    (NeedsObjects(t) && other.Hold?) || (NeedsMap(t).Some? && Locks(other, NeedsMap(t).value))
  }

  predicate MayRun(s: State, i: nat)
    requires i < |s.threads|
  {
    forall j :: 0 <= j < |s.threads| ==> !WaitsFor(s, i, j)
  }

  function Step(s: State, action: Action): State
  {
    match action
    case Start(i, r) =>
      if i < |s.threads| && s.threads[i].Idle? then s.(threads := s.threads[i := Begin(r)]) else s
    case Run(i) =>
      if i < |s.threads| && MayRun(s, i) then
        var (store, next) := Section(s.store, s.threads[i]);
        State(store, s.threads[i := next], if s.threads[i].Begin? && i < |s.begun| then s.begun[i := Size(s.store)] else s.begun)
      else s
  }

  function Exec(s: State, run: seq<Action>): State
    decreases |run|
  {
    if run == [] then s else Step(Exec(s, run[..|run| - 1]), run[|run| - 1])
  }

  function Init(n: nat): State
  {
    State(EMPTY, seq(n, i => Idle), seq(n, i => 0))
  }

  // ---- Invariants ----

  /** The relation is in its child map, and the thread that put it there has not reached the parent vector yet. */
  predicate Pending(threads: seq<Thread>, rel: Relation)
  {
    exists i :: 0 <= i < |threads| && threads[i].Push? && threads[i].r == RegisterRelation(rel)
  }

  ghost function PendingIn(threads: seq<Thread>): Relation -> bool
  {
    rel => Pending(threads, rel)
  }

  /** What a thread knows. Nothing of it can become false, since the store only grows. */
  predicate Knows(s: Store, t: Thread)
  {
    match t
    case Idle => true
    case Begin(r) => true
    case LookUp(r) => Located(Size(s), r)
    case Insert(r) => Located(Size(s), r)
    case Hold(r) => r.RegisterObject? && Located(Size(s), r)
    case Push(r) => r.RegisterRelation? && HasRelation(s, r.relation) && r.relation.child < Size(s)
    case Check(r, child) => r.RegisterObject? && IsChild(s, r.parent, r.key, child)
    case Done(r, answer) => Correct(s, r, answer)
  }

  /** The objects that the request names are among the first `size` ones, and the root is not named as a child or owner. */
  predicate Located(size: nat, r: Request)
  {
    match r
    case RegisterObject(parent, key, ot) => parent < size
    case RegisterRelation(rel) => rel.parent < size && 1 <= rel.child < size
    case SetAttribute(owner, id, v) => 1 <= owner < size
    case _ => true
  }

  /** A call is refused as unknown exactly if its objects were not there when it looked them up. */
  predicate Told(size: nat, t: Thread)
  {
    match t
    case Idle => true
    case Begin(_) => true
    case Done(r, answer) => answer.Unknown? <==> !Located(size, r)
    case _ => Located(size, t.r)
  }

  predicate IsChild(s: Store, parent: nat, key: Key, child: nat)
  {
    HasRelation(s, Relation(parent, key, child)) && child < Size(s)
  }

  /** The answer of a call is right, and stays right. */
  predicate Correct(s: Store, r: Request, answer: Answer)
  {
    match r
    case RegisterType(name) => answer.Id? && name in s.types.ids && s.types.ids[name] == answer.id
    case RegisterAttribute(a, dt) =>
      && a in s.attributes.ids && 1 <= s.attributes.ids[a] <= |s.datatypes|
      && answer == if s.datatypes[s.attributes.ids[a] - 1] == dt then Id(s.attributes.ids[a]) else Conflict
    case RegisterObject(parent, key, ot) =>
      (match answer
       case Id(id) => IsChild(s, parent, key, id) && id < |s.objectTypes| && s.objectTypes[id] == ot
       case Conflict => HasOther(s, parent, key, ot)
       case _ => answer.Unknown?)
    case RegisterRelation(rel) =>
      (match answer
       case Linked(found) => found == rel && HasRelation(s, rel)
       case Conflict => rel.parent < |s.children| && rel.key in s.children[rel.parent] && s.children[rel.parent][rel.key].child != rel.child
       case _ => answer.Unknown?)
    case SetAttribute(owner, id, v) =>
      if answer.Success? then owner < |s.values| && id in s.values[owner] else answer.Unknown?
  }

  /** The key is taken by an object of another type. */
  predicate HasOther(s: Store, parent: nat, key: Key, objectType: nat)
  {
    && parent < |s.children| && key in s.children[parent]
    && var child := s.children[parent][key].child;
       child < |s.objectTypes| && s.objectTypes[child] != objectType
  }

  /** One thread at most has locked a child map, and one at most holds objectsLock from one section to the next. */
  ghost predicate LockInv(threads: seq<Thread>)
  {
    && (forall i, j, p {:trigger Locks(threads[i], p), Locks(threads[j], p)} ::
          0 <= i < |threads| && 0 <= j < |threads| && Locks(threads[i], p) && Locks(threads[j], p) ==> i == j)
    && (forall i, j :: 0 <= i < |threads| && 0 <= j < |threads| && threads[i].Hold? && threads[j].Hold? ==> i == j)
  }

  ghost predicate Sound(s: Store, threads: seq<Thread>)
  {
    && StoreInv(s, PendingIn(threads))
    && LockInv(threads)
    && forall i :: 0 <= i < |threads| ==> Knows(s, threads[i])
  }

  predicate TellInv(s: State)
  {
    |s.begun| == |s.threads|
    && forall i :: 0 <= i < |s.threads| ==> Told(s.begun[i], s.threads[i]) && s.begun[i] <= Size(s.store)
  }

  ghost predicate Inv(s: State)
  {
    Sound(s.store, s.threads) && TellInv(s)
  }

  lemma KnowsForGood(s: Store, s': Store, t: Thread)
    requires Knows(s, t) && Grows(s, s') && Shape(s) && Shape(s')
    ensures Knows(s', t)
  {
    if t.Push? {
      assert HasRelation(s', t.r.relation);
    } else if t.Check? {
      assert HasRelation(s', Relation(t.r.parent, t.r.key, t.child));
    } else if t.Done? {
      match t.r
      case RegisterObject(parent, key, ot) =>
        if t.answer.Id? {
          assert HasRelation(s', Relation(parent, key, t.answer.id));
        } else if t.answer.Conflict? {
          assert s'.children[parent][key] == s.children[parent][key];
        }
      case RegisterRelation(rel) =>
        if !t.answer.Unknown? {
          assert s'.children[rel.parent][rel.key] == s.children[rel.parent][rel.key];
        }
      case _ =>
    }
  }

  /** The effect of one section on the store, and what the thread knows afterwards. */
  lemma SectionKeeps(s: Store, threads: seq<Thread>, i: nat)
    requires Sound(s, threads) && i < |threads|
    ensures var (s', t) := Section(s, threads[i]);
            && StoreInv(s', PendingIn(threads[i := t])) && Grows(s, s') && Knows(s', t)
  {
    var t := threads[i];
    assert Knows(s, t);
    if t.Push? {
      PushKeeps(s, threads, i);
    } else if t.Hold? {
      HoldKeeps(s, threads, i);
    } else if t.Insert? && t.r.RegisterRelation? {
      InsertRelationKeeps(s, threads, i);
    } else if t.Insert? && !t.r.RegisterObject? {
      var (s', next) := Section(s, t);
      InsertEntryKeeps(s, t.r, PendingIn(threads));
      SamePending(s', threads, i, next);
    } else {
      ReadsAreRight(s, t);
      SamePending(s, threads, i, Section(s, t).1);
    }
  }

  lemma ReadsAreRight(s: Store, t: Thread)
    requires Shape(s) && TablesInv(s) && ChildrenInv(s) && Knows(s, t) && !t.Hold? && !t.Push?
    requires t.Insert? ==> t.r.RegisterObject?
    ensures var (s', next) := Section(s, t); s' == s && Knows(s, next) && !next.Push? && Grows(s, s)
  {}

  lemma PushKeeps(s: Store, threads: seq<Thread>, i: nat)
    requires Sound(s, threads) && i < |threads| && threads[i].Push? && Knows(s, threads[i])
    ensures var (s', t) := Section(s, threads[i]);
            StoreInv(s', PendingIn(threads[i := t])) && Grows(s, s') && Knows(s', t)
  {
    var rel := threads[i].r.relation;
    var next := Done(threads[i].r, Linked(rel));
    PendingWithout(threads, i, next);
    PushParentKeeps(s, rel, PendingIn(threads), PendingIn(threads[i := next]));
    assert HasRelation(PushParent(s, rel), rel);
  }

  lemma HoldKeeps(s: Store, threads: seq<Thread>, i: nat)
    requires Sound(s, threads) && i < |threads| && threads[i].Hold? && Knows(s, threads[i])
    ensures var (s', t) := Section(s, threads[i]);
            StoreInv(s', PendingIn(threads[i := t])) && Grows(s, s') && Knows(s', t)
  {
    var r := threads[i].r;
    var (s', next) := Section(s, threads[i]);
    PendingIsRegistered(s, threads, Relation(r.parent, r.key, Size(s)));
    InsertObjectKeeps(s, r.parent, r.key, r.objectType, PendingIn(threads));
    ObjectAnswer(s, r.parent, r.key, r.objectType);
    assert s' == InsertObject(s, r.parent, r.key, r.objectType);
    SamePending(s', threads, i, next);
  }

  lemma InsertEntryKeeps(s: Store, r: Request, pending: Relation -> bool)
    requires StoreInv(s, pending) && Located(Size(s), r) && !r.RegisterObject? && !r.RegisterRelation?
    ensures var (s', t) := Section(s, Insert(r)); StoreInv(s', pending) && Grows(s, s') && Knows(s', t) && !t.Push?
  {
    match r
    case RegisterType(name) =>
      InsertTypeKeeps(s, name, pending);
    case RegisterAttribute(a, dt) =>
      InsertAttributeKeeps(s, a, dt, pending);
      AttributeAnswer(InsertAttribute(s, a, dt), a, dt);
    case SetAttribute(owner, id, v) =>
      PutValueKeeps(s, owner, id, v, pending);
    case _ =>
  }

  lemma AttributeAnswer(s: Store, a: Attribute, dt: int)
    requires TablesInv(s) && a in s.attributes.ids
    ensures Correct(s, RegisterAttribute(a, dt), CheckAttribute(s, a, dt))
  {
    assert Matches(s.attributes, a, s.attributes.ids[a]);
  }

  lemma ObjectAnswer(s: Store, parent: nat, key: Key, objectType: nat)
    requires Shape(s) && ChildrenInv(s) && parent < Size(s)
    ensures Knows(InsertObject(s, parent, key, objectType), Section(s, Hold(RegisterObject(parent, key, objectType))).1)
  {}

  lemma InsertRelationKeeps(s: Store, threads: seq<Thread>, i: nat)
    requires Sound(s, threads) && i < |threads| && threads[i].Insert? && threads[i].r.RegisterRelation?
    ensures var (s', t) := Section(s, threads[i]);
            StoreInv(s', PendingIn(threads[i := t])) && Grows(s, s') && Knows(s', t)
  {
    assert Knows(s, threads[i]);
    var rel := threads[i].r.relation;
    var next := Section(s, threads[i]).1;
    if rel.key in s.children[rel.parent] {
      SamePending(s, threads, i, next);
    } else {
      PendingWith(threads, i, next);
      PutChildKeeps(s, rel, PendingIn(threads), PendingIn(threads[i := next]));
    }
  }

  lemma PendingIsRegistered(s: Store, threads: seq<Thread>, rel: Relation)
    requires forall j :: 0 <= j < |threads| ==> Knows(s, threads[j])
    ensures Pending(threads, rel) ==> HasRelation(s, rel) && rel.child < Size(s)
  {}

  lemma PendingAt(threads: seq<Thread>, j: nat, rel: Relation)
    requires j < |threads| && threads[j].Push? && threads[j].r == RegisterRelation(rel)
    ensures Pending(threads, rel)
  {}

  /** What is pending stays so while the thread in question stays at the parent vector. */
  lemma StaysPending(threads: seq<Thread>, i: nat, next: Thread, rel: Relation)
    requires i < |threads| && Pending(threads, rel) && !(threads[i].Push? && threads[i].r == RegisterRelation(rel))
    ensures Pending(threads[i := next], rel)
  {
    var j :| 0 <= j < |threads| && threads[j].Push? && threads[j].r == RegisterRelation(rel);
    PendingAt(threads[i := next], j, rel);
  }

  lemma WasPending(threads: seq<Thread>, i: nat, next: Thread, rel: Relation)
    requires i < |threads| && Pending(threads[i := next], rel) && !(next.Push? && next.r == RegisterRelation(rel))
    ensures exists j :: 0 <= j < |threads| && j != i && threads[j].Push? && threads[j].r == RegisterRelation(rel)
  {
    var threads' := threads[i := next];
    var j :| 0 <= j < |threads'| && threads'[j].Push? && threads'[j].r == RegisterRelation(rel);
    assert threads[j] == threads'[j];
  }

  /** Replacing a thread that is not at the parent vector by another such thread changes nothing that is pending. */
  lemma SamePending(s: Store, threads: seq<Thread>, i: nat, next: Thread)
    requires i < |threads| && !threads[i].Push? && !next.Push?
    requires StoreInv(s, PendingIn(threads))
    ensures StoreInv(s, PendingIn(threads[i := next]))
  {
    var threads' := threads[i := next];
    forall r: Relation | Pending(threads, r) ensures Pending(threads', r) { StaysPending(threads, i, next, r); }
    forall r: Relation | Pending(threads', r) ensures Pending(threads, r) { WasPending(threads, i, next, r); }
    SameMirror(s, PendingIn(threads), PendingIn(threads'));
  }

  lemma SameMirror(s: Store, pending: Relation -> bool, pending': Relation -> bool)
    requires StoreInv(s, pending) && forall r: Relation :: pending'(r) <==> pending(r)
    ensures StoreInv(s, pending')
  {}

  lemma PendingWith(threads: seq<Thread>, i: nat, next: Thread)
    requires i < |threads| && !threads[i].Push? && next.Push? && next.r.RegisterRelation?
    ensures forall r: Relation :: PendingIn(threads[i := next])(r) <==> PendingIn(threads)(r) || r == next.r.relation
  {
    var threads' := threads[i := next];
    PendingAt(threads', i, next.r.relation);
    forall r: Relation | Pending(threads, r) ensures Pending(threads', r) { StaysPending(threads, i, next, r); }
    forall r: Relation | Pending(threads', r) && r != next.r.relation ensures Pending(threads, r) { WasPending(threads, i, next, r); }
  }

  lemma PendingWithout(threads: seq<Thread>, i: nat, next: Thread)
    requires i < |threads| && threads[i].Push? && threads[i].r.RegisterRelation? && !next.Push? && LockInv(threads)
    ensures PendingIn(threads)(threads[i].r.relation)
    ensures forall r: Relation :: PendingIn(threads[i := next])(r) <==> PendingIn(threads)(r) && r != threads[i].r.relation
  {
    var threads', rel := threads[i := next], threads[i].r.relation;
    PendingAt(threads, i, rel);
    forall r: Relation | Pending(threads, r) && r != rel ensures Pending(threads', r) { StaysPending(threads, i, next, r); }
    forall r: Relation | Pending(threads', r) ensures Pending(threads, r) && r != rel { OnlyOnePending(threads, i, next, r); }
  }

  lemma OnlyOnePending(threads: seq<Thread>, i: nat, next: Thread, rel: Relation)
    requires i < |threads| && threads[i].Push? && threads[i].r.RegisterRelation? && !next.Push? && LockInv(threads)
    requires Pending(threads[i := next], rel)
    ensures Pending(threads, rel) && rel != threads[i].r.relation
  {
    WasPending(threads, i, next, rel);
    var j :| 0 <= j < |threads| && j != i && threads[j].Push? && threads[j].r == RegisterRelation(rel);
    assert Locks(threads[j], rel.parent) && !Locks(threads[i], rel.parent);
  }

  /** Only the thread that finds a lock free gets to hold it. */
  lemma SectionKeepsLocks(s: State, i: nat)
    requires LockInv(s.threads) && i < |s.threads| && MayRun(s, i)
    ensures LockInv(s.threads[i := Section(s.store, s.threads[i]).1])
  {
    var next := Section(s.store, s.threads[i]).1;
    forall j, p | 0 <= j < |s.threads| && j != i && Locks(next, p) ensures !Locks(s.threads[j], p) {
      assert !WaitsFor(s, i, j);
    }
    forall j | 0 <= j < |s.threads| && j != i && next.Hold? ensures !s.threads[j].Hold? {
      assert !WaitsFor(s, i, j);
    }
  }

  lemma SectionTells(s: Store, t: Thread, size: nat)
    requires Shape(s) && Knows(s, t) && Told(size, t)
    ensures Told(if t.Begin? then Size(s) else size, Section(s, t).1)
  {}

  lemma RunTells(s: State, i: nat)
    requires Inv(s) && i < |s.threads| && MayRun(s, i)
    requires Grows(s.store, Step(s, Run(i)).store) && Shape(Step(s, Run(i)).store)
    ensures TellInv(Step(s, Run(i)))
  {
    SectionTells(s.store, s.threads[i], s.begun[i]);
  }

  lemma RunKeepsSound(s: State, i: nat)
    requires Inv(s) && i < |s.threads| && MayRun(s, i)
    ensures var s' := Step(s, Run(i)); Sound(s'.store, s'.threads) && Grows(s.store, s'.store)
  {
    var s' := Step(s, Run(i));
    SectionKeeps(s.store, s.threads, i);
    SectionKeepsLocks(s, i);
    forall j | 0 <= j < |s'.threads| ensures Knows(s'.store, s'.threads[j]) {
      if j != i {
        KnowsForGood(s.store, s'.store, s.threads[j]);
      }
    }
  }

  lemma StepInv(s: State, action: Action)
    requires Inv(s)
    ensures Inv(Step(s, action)) && Grows(s.store, Step(s, action).store)
  {
    match action
    case Start(i, r) =>
      if i < |s.threads| && s.threads[i].Idle? {
        SamePending(s.store, s.threads, i, Begin(r));
      }
    case Run(i) =>
      if i < |s.threads| && MayRun(s, i) {
        RunKeepsSound(s, i);
        RunTells(s, i);
      }
  }

  /** When setAttribute reports success, the value that is found at that moment is the one that was set, or an equal one. */
  lemma SuccessIsSet(s: Store, t: Thread, owner: nat, id: nat, v: Variable)
    requires !t.Done? && Section(s, t).1 == Done(SetAttribute(owner, id, v), Success)
    ensures var s' := Section(s, t).0;
            owner < |s'.values| && id in s'.values[owner] && (s'.values[owner][id] == v || Equal(v, s'.values[owner][id]))
  {}

  // ---- Every run ----

  lemma {:induction false} Reachable(n: nat, run: seq<Action>)
    ensures Inv(Exec(Init(n), run))
  {
    if run == [] {
      assert forall r: Relation :: !PendingIn(Init(n).threads)(r);
    } else {
      Reachable(n, run[..|run| - 1]);
      StepInv(Exec(Init(n), run[..|run| - 1]), run[|run| - 1]);
    }
  }

  /** Whatever the threads do, nothing that was registered changes or disappears. */
  lemma {:induction false} RunGrows(s: State, run: seq<Action>)
    requires Inv(s)
    ensures Inv(Exec(s, run)) && Grows(s.store, Exec(s, run).store)
  {
    if run != [] {
      RunGrows(s, run[..|run| - 1]);
      StepInv(Exec(s, run[..|run| - 1]), run[|run| - 1]);
    }
  }

  lemma NothingPending(threads: seq<Thread>)
    requires forall p: nat :: Unlocked(threads, p)
    ensures forall r: Relation :: !PendingIn(threads)(r)
  {
    forall r: Relation ensures !PendingIn(threads)(r) {
      assert Unlocked(threads, r.parent);
      forall j | 0 <= j < |threads| && threads[j].Push? ensures threads[j].r != RegisterRelation(r) {
        assert !Locks(threads[j], r.parent);
      }
    }
  }

  /** While nobody holds the lock of a child map, child maps and parent vectors list the same relations, each once. */
  lemma MapsMirrorVectors(n: nat, run: seq<Action>, rel: Relation)
    requires forall p: nat :: Unlocked(Exec(Init(n), run).threads, p)
    ensures var s := Exec(Init(n), run).store;
            && Shape(s)
            && (HasRelation(s, rel) <==> rel.child < Size(s) && multiset(s.parents[rel.child])[rel] == 1)
            && (!HasRelation(s, rel) <==> forall c :: 0 <= c < Size(s) ==> rel !in s.parents[c])
  {
    Reachable(n, run);
    var state := Exec(Init(n), run);
    var s := state.store;
    NothingPending(state.threads);
    if HasRelation(s, rel) {
      assert rel in s.parents[rel.child];
      OccursOnce(s.parents[rel.child], rel);
    }
    forall c | 0 <= c < Size(s) && rel in s.parents[c] ensures HasRelation(s, rel) && rel.child == c {
      var i :| 0 <= i < |s.parents[c]| && s.parents[c][i] == rel;
    }
  }

  lemma {:induction false} OccursOnce(rels: seq<Relation>, rel: Relation)
    requires rel in rels && forall i, j :: 0 <= i < j < |rels| ==> rels[i] != rels[j]
    ensures multiset(rels)[rel] == 1
  {
    var i :| 0 <= i < |rels| && rels[i] == rel;
    assert rels == rels[..i] + [rel] + rels[i + 1..];
    assert rel !in rels[..i] && rel !in rels[i + 1..];
  }

  lemma {:induction false} ExecAppend(s: State, run: seq<Action>, later: seq<Action>)
    ensures Exec(s, run + later) == Exec(Exec(s, run), later)
    decreases |later|
  {
    if later == [] {
      assert run + later == run;
    } else {
      ExecAppend(s, run, later[..|later| - 1]);
      assert (run + later)[..|run + later| - 1] == run + later[..|later| - 1];
    }
  }

  /** What makes two requests ask for the same entry. */
  predicate SameEntry(r: Request, q: Request)
  {
    match r
    case RegisterType(name) => q == r
    case RegisterObject(parent, key, ot) => q.RegisterObject? && q.parent == parent && q.key == key
    case RegisterAttribute(a, dt) => q.RegisterAttribute? && q.attribute == a
    case _ => false
  }

  lemma SameEntrySameAnswer(s: Store, r: Request, q: Request, a: nat, b: nat)
    requires Correct(s, r, Id(a)) && Correct(s, q, Id(b)) && SameEntry(r, q)
    ensures a == b
    ensures r.RegisterObject? ==> r.objectType == q.objectType
    ensures r.RegisterAttribute? ==> r.dt == q.dt
  {
    if r.RegisterObject? {
      assert s.children[r.parent][r.key] == Relation(r.parent, r.key, a) == Relation(q.parent, q.key, b);
    }
  }

  /** All threads that register the same entry, at whatever time, are given the same id. */
  lemma SameEntrySameId(n: nat, run: seq<Action>, later: seq<Action>, i: nat, j: nat, r: Request, q: Request, a: nat, b: nat)
    requires i < |Exec(Init(n), run).threads| && Exec(Init(n), run).threads[i] == Done(r, Id(a))
    requires j < |Exec(Init(n), run + later).threads| && Exec(Init(n), run + later).threads[j] == Done(q, Id(b))
    requires SameEntry(r, q)
    ensures a == b
    ensures r.RegisterObject? ==> r.objectType == q.objectType
    ensures r.RegisterAttribute? ==> r.dt == q.dt
  {
    AnswersStayRight(n, run, later, i);
    AnswersStayRight(n, run + later, [], j);
    assert run + later + [] == run + later;
    SameEntrySameAnswer(Exec(Init(n), run + later).store, r, q, a, b);
  }

  /** An answer that was given is still right after any later steps. */
  lemma AnswersStayRight(n: nat, run: seq<Action>, later: seq<Action>, i: nat)
    requires i < |Exec(Init(n), run).threads| && Exec(Init(n), run).threads[i].Done?
    ensures var t := Exec(Init(n), run).threads[i]; Correct(Exec(Init(n), run + later).store, t.r, t.answer)
    ensures TablesInv(Exec(Init(n), run + later).store)
  {
    var s := Exec(Init(n), run);
    ExecAppend(Init(n), run, later);
    Reachable(n, run);
    RunGrows(s, later);
    KnowsForGood(s.store, Exec(s, later).store, s.threads[i]);
  }

  /**
   * In every interleaving a call is refused as unknown if and only if an object that it names did not exist, or
   * was the root as a child or owner, at the moment when the call looked it up.
   */
  lemma UnknownIffMissing(n: nat, run: seq<Action>, i: nat)
    requires i < |Exec(Init(n), run).threads| && Exec(Init(n), run).threads[i].Done?
    ensures var s := Exec(Init(n), run);
            |s.begun| == |s.threads| && (s.threads[i].answer.Unknown? <==> !Located(s.begun[i], s.threads[i].r))
  {
    Reachable(n, run);
  }

  /** Two different entries never get the same id. */
  lemma OtherEntryOtherId(n: nat, run: seq<Action>, later: seq<Action>, i: nat, j: nat, r: Request, q: Request, a: nat, b: nat)
    requires i < |Exec(Init(n), run).threads| && Exec(Init(n), run).threads[i] == Done(r, Id(a))
    requires j < |Exec(Init(n), run + later).threads| && Exec(Init(n), run + later).threads[j] == Done(q, Id(b))
    requires (r.RegisterType? && q.RegisterType?) || (r.RegisterAttribute? && q.RegisterAttribute?)
    requires !SameEntry(r, q)
    ensures a != b
  {
    AnswersStayRight(n, run, later, i);
    AnswersStayRight(n, run + later, [], j);
    assert run + later + [] == run + later;
    var s := Exec(Init(n), run + later).store;
    if r.RegisterType? {
      assert Matches(s.types, r.name, a) && Matches(s.types, q.name, b);
    } else {
      assert Matches(s.attributes, r.attribute, a) && Matches(s.attributes, q.attribute, b);
    }
  }

  /** The relations that lead from the root to an object: the first parent of each object has a smaller id. */
  function PathFromRoot(s: Store, c: nat): seq<Relation>
    requires Shape(s) && RootedInv(s) && c < Size(s)
  {
    if c == 0 then [] else PathFromRoot(s, s.parents[c][0].parent) + [s.parents[c][0]]
  }

  /** `path` can be followed from object `from` to object `to` in the child maps. */
  predicate Leads(s: Store, path: seq<Relation>, from: nat, to: nat)
  {
    && (forall i :: 0 <= i < |path| ==> HasRelation(s, path[i]))
    && (forall i :: 0 < i < |path| ==> path[i].parent == path[i - 1].child)
    && (if path == [] then from == to else path[0].parent == from && path[|path| - 1].child == to)
  }

  lemma {:induction false} RootReaches(s: Store, c: nat)
    requires Shape(s) && ParentsInv(s) && RootedInv(s) && c < Size(s)
    ensures Leads(s, PathFromRoot(s, c), 0, c)
  {
    if c != 0 {
      var rel := s.parents[c][0];
      RootReaches(s, rel.parent);
      assert rel.child == c && HasRelation(s, rel);
    }
  }

  /** In every reachable state, even inside registerRelation, every object can be found from the root. */
  lemma EveryObjectIsReachable(n: nat, run: seq<Action>, c: nat)
    requires c < Size(Exec(Init(n), run).store)
    ensures exists path :: Leads(Exec(Init(n), run).store, path, 0, c)
  {
    Reachable(n, run);
    RootReaches(Exec(Init(n), run).store, c);
  }

  /** The order of the locks: objectsLock, then a child map, then a parent vector. */
  function Level(t: Thread): nat
  {
    if NeedsObjects(t) then 2 else if NeedsMap(t).Some? then 1 else 0
  }

  /** Whoever waits, waits for a thread that is further on in the order of the locks: there are no cycles. */
  lemma WaitsAreOrdered(s: State, i: nat, j: nat)
    requires i < |s.threads| && j < |s.threads| && WaitsFor(s, i, j)
    ensures Level(s.threads[j]) < Level(s.threads[i]) && !s.threads[j].Idle?
  {}

  /** Somebody can always move. */
  lemma {:induction false} NoDeadlock(s: State, i: nat)
    requires i < |s.threads| && !s.threads[i].Idle?
    ensures exists j :: 0 <= j < |s.threads| && !s.threads[j].Idle? && MayRun(s, j)
    decreases Level(s.threads[i])
  {
    if !MayRun(s, i) {
      var j :| 0 <= j < |s.threads| && WaitsFor(s, i, j);
      WaitsAreOrdered(s, i, j);
      NoDeadlock(s, j);
    }
  }

  lemma AloneMayRun(s: State, i: nat)
    requires i < |s.threads| && forall j :: 0 <= j < |s.threads| && j != i ==> s.threads[j].Idle?
    ensures MayRun(s, i)
  {}

  /** A thread that runs alone gives the answer of `Complete`, and leaves its store. */
  lemma {:induction false} SoloRun(s: State, i: nat) returns (run: seq<Action>)
    requires i < |s.threads| == |s.begun| && !s.threads[i].Idle?
    requires forall j :: 0 <= j < |s.threads| && j != i ==> s.threads[j].Idle?
    ensures var (store, answer) := Complete(s.store, s.threads[i]);
            Exec(s, run) == State(store, s.threads[i := Done(s.threads[i].r, answer)],
                                  if s.threads[i].Begin? then s.begun[i := Size(s.store)] else s.begun)
    decreases Rank(s.threads[i])
  {
    var t := s.threads[i];
    if t.Done? {
      run := [];
      assert s.threads[i := t] == s.threads;
    } else {
      AloneMayRun(s, i);
      var s' := Step(s, Run(i));
      var rest := SoloRun(s', i);
      var first := [Run(i)];
      assert Exec(s, first) == s' by { assert first[..0] == []; }
      run := first + rest;
      ExecAppend(s, first, rest);
      assert s'.threads[i := Done(t.r, Complete(s.store, t).1)] == s.threads[i := Done(t.r, Complete(s.store, t).1)];
    }
  }
}
