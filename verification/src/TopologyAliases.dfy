/**
 * Aliases for path components (src/monitoring/topology/Topology.cpp:62-74, 160-183, rules at
 * src/include/monitoring/topology/Topology.hpp:31-37), and the paths that may contain them.
 */
module TopologyAliases {
  import opened Base
  import opened TopologyPaths

  predicate IsAlias(s: string)
  {
    s != "" && s[0] == AT
  }

  /** Follow aliases; an alias that was followed once is not followed again, so this ends on every map. */
  function Resolve(m: map<string, string>, s: string): Option<string>
    decreases |m|
  {
    if !IsAlias(s) then Some(s) else if s !in m then None else Resolve(m - {s}, m[s])
  }

  /** The number of aliases on the way. */
  function Depth(m: map<string, string>, s: string): nat
    decreases |m|
  {
    if !IsAlias(s) || s !in m then 0 else 1 + Depth(m - {s}, m[s])
  }

  function ParsePiece(m: map<string, string>, s: string): Option<Component>
  {
    var target := Resolve(m, s);
    if target.None? then None else ParseComponent(target.value)
  }

  function ParsePieces(m: map<string, string>, pieces: seq<string>): (cs: Option<seq<Component>>)
    ensures cs.Some? ==> |cs.value| == |pieces|
  {
    if pieces == [] then Some([])
    else
      var front := ParsePieces(m, pieces[..|pieces| - 1]);
      var last := ParsePiece(m, pieces[|pieces| - 1]);
      if front.None? || last.None? then None else Some(front.value + [last.value])
  }

  function ParsePath(m: map<string, string>, path: string): Option<seq<Component>>
  {
    if path == "" then None else ParsePieces(m, PiecesFrom(path, 0))
  }

  predicate Extends(m: map<string, string>, m': map<string, string>)
  {
    forall k :: k in m ==> k in m' && m'[k] == m[k]
  }

  predicate IsAliasName(name: string)
  {
    |name| >= 2 && name[0] == AT && SLASH !in name
  }

  /** Every alias that is stored has a proper name and leads to a valid component. */
  predicate AliasInv(m: map<string, string>)
  {
    forall name :: name in m ==> IsAliasName(name) && ParsePiece(m, name).Some?
  }

  // ---- Resolution is final ----

  lemma {:induction false} ResolveGrows(m: map<string, string>, m': map<string, string>, s: string)
    requires Extends(m, m') && Resolve(m, s).Some?
    ensures Resolve(m', s) == Resolve(m, s) && Depth(m', s) == Depth(m, s)
    decreases |m|
  {
    if IsAlias(s) {
      ResolveGrows(m - {s}, m' - {s}, m[s]);
    }
  }

  lemma {:induction false} ParsePiecesGrows(m: map<string, string>, m': map<string, string>, pieces: seq<string>)
    requires Extends(m, m') && ParsePieces(m, pieces).Some?
    ensures ParsePieces(m', pieces) == ParsePieces(m, pieces)
  {
    if pieces != [] {
      ParsePiecesGrows(m, m', pieces[..|pieces| - 1]);
      ResolveGrows(m, m', pieces[|pieces| - 1]);
    }
  }

  /** A path that could be parsed once means the same whatever aliases are added. */
  lemma PathsKeepTheirMeaning(m: map<string, string>, m': map<string, string>, path: string)
    requires Extends(m, m') && ParsePath(m, path).Some?
    ensures ParsePath(m', path) == ParsePath(m, path)
  {
    ParsePiecesGrows(m, m', PiecesFrom(path, 0));
  }

  /** One step of the loop in parsePathComponent: resolution goes on as if nothing had been removed, and gets nearer to its end. */
  lemma FollowOne(m: map<string, string>, s: string)
    requires IsAlias(s) && Resolve(m, s).Some?
    ensures s in m && Resolve(m, m[s]) == Resolve(m, s) && Depth(m, s) == Depth(m, m[s]) + 1
  {
    ResolveGrows(m - {s}, m, m[s]);
  }

  /** No alias leads back to itself: the depth is a rank that every alias has above its value. */
  lemma AliasesAreAcyclic(m: map<string, string>, name: string)
    requires AliasInv(m) && name in m
    ensures Depth(m, name) > Depth(m, m[name])
    ensures SLASH !in m[name]
  {
    FollowOne(m, name);
    var value := m[name];
    if IsAlias(value) {
      FollowOne(m, value);
    }
  }

  // ---- Concurrent setAlias ----

  /** setAlias checks its arguments under a shared lock and stores the alias under an exclusive one. */
  datatype Setter =
    | Free
    | Checked(name: string, value: string)
    | Returned(name: string, value: string, success: bool)

  datatype State = State(aliases: map<string, string>, setters: seq<Setter>)

  datatype Action = Check(i: nat, name: string, value: string) | Put(i: nat) | Finish(i: nat)

  predicate Acceptable(m: map<string, string>, name: string, value: string)
  {
    IsAliasName(name) && ParsePiece(m, value).Some?
  }

  /** The alias is new, or set to the same value already. */
  predicate Settable(m: map<string, string>, name: string, value: string)
  {
    name in m ==> m[name] == value
  }

  function Step(s: State, action: Action): State
  {
    if action.i >= |s.setters| then s
    else
      var setter := s.setters[action.i];
      match action
      case Check(i, name, value) =>
        if !setter.Free? then s
        else if Acceptable(s.aliases, name, value) then s.(setters := s.setters[i := Checked(name, value)])
        else s.(setters := s.setters[i := Returned(name, value, false)])
      case Put(i) =>
        if !setter.Checked? then s
        else if Settable(s.aliases, setter.name, setter.value) then
          State(s.aliases[setter.name := setter.value], s.setters[i := Returned(setter.name, setter.value, true)])
        else s.(setters := s.setters[i := Returned(setter.name, setter.value, false)])
      case Finish(i) =>
        if !setter.Returned? then s else s.(setters := s.setters[i := Free])
  }

  function Exec(s: State, run: seq<Action>): State
    decreases |run|
  {
    if run == [] then s else Step(Exec(s, run[..|run| - 1]), run[|run| - 1])
  }

  function Init(n: nat): State
  {
    State(map[], seq(n, i => Free))
  }

  predicate SetterInv(m: map<string, string>, t: Setter)
  {
    && (t.Checked? ==> Acceptable(m, t.name, t.value))
    && (t.Returned? && t.success ==> t.name in m && m[t.name] == t.value)
  }

  predicate Inv(s: State)
  {
    AliasInv(s.aliases) && forall i :: 0 <= i < |s.setters| ==> SetterInv(s.aliases, s.setters[i])
  }

  /** Storing an alias that was checked earlier is still sound: what its value leads to cannot run through the new name. */
  lemma StoreKeeps(m: map<string, string>, name: string, value: string)
    requires AliasInv(m) && Acceptable(m, name, value) && Settable(m, name, value)
    ensures var m' := m[name := value];
            AliasInv(m') && Extends(m, m') && ParsePiece(m', name) == ParsePiece(m, value)
  {
    var m' := m[name := value];
    if name in m {
      assert m' == m;
      FollowOne(m, name);
    } else {
      assert m' - {name} == m;
      assert Resolve(m', name) == Resolve(m, value);
      forall k | k in m' ensures IsAliasName(k) && ParsePiece(m', k).Some? {
        if k != name {
          ResolveGrows(m, m', k);
        }
      }
    }
  }

  lemma SetterGrows(m: map<string, string>, m': map<string, string>, t: Setter)
    requires SetterInv(m, t) && Extends(m, m')
    ensures SetterInv(m', t)
  {
    if t.Checked? {
      ResolveGrows(m, m', t.value);
    }
  }

  lemma StepInv(s: State, action: Action)
    requires Inv(s)
    ensures Inv(Step(s, action)) && Extends(s.aliases, Step(s, action).aliases)
  {
    var s' := Step(s, action);
    var m, m' := s.aliases, s'.aliases;
    if action.i < |s.setters| {
      var t := s.setters[action.i];
      assert SetterInv(m, t);
      if m' != m {
        StoreKeeps(m, t.name, t.value);
      }
      assert SetterInv(m', s'.setters[action.i]);
      forall i | 0 <= i < |s'.setters| && i != action.i ensures SetterInv(m', s'.setters[i]) {
        SetterGrows(m, m', s.setters[i]);
      }
    }
  }

  lemma {:induction false} RunGrows(s: State, run: seq<Action>)
    requires Inv(s)
    ensures Inv(Exec(s, run)) && Extends(s.aliases, Exec(s, run).aliases) && |Exec(s, run).setters| == |s.setters|
  {
    if run != [] {
      RunGrows(s, run[..|run| - 1]);
      StepInv(Exec(s, run[..|run| - 1]), run[|run| - 1]);
    }
  }

  lemma {:induction false} ExecAppend(s: State, run: seq<Action>, later: seq<Action>)
    ensures Exec(s, run + later) == Exec(Exec(s, run), later)
    decreases |later|
  {
    if later == [] {
      assert run + later == run;
    } else {
      ExecAppend(s, run, later[..|later| - 1]);
      assert (run + later)[..|run + later| - 1] == run + later[..|later| - 1];
    }
  }

  /** In every run: aliases are acyclic, lead to valid components, and never mean anything else afterwards. */
  lemma AliasesAreSound(n: nat, run: seq<Action>, later: seq<Action>, name: string)
    requires name in Exec(Init(n), run).aliases
    ensures var m := Exec(Init(n), run).aliases;
            var m' := Exec(Init(n), run + later).aliases;
            && ParsePiece(m, name).Some? && Depth(m, name) > Depth(m, m[name])
            && name in m' && m'[name] == m[name]
            && Resolve(m', name) == Resolve(m, name) && Depth(m', name) == Depth(m, name)
  {
    var s := Exec(Init(n), run);
    RunGrows(Init(n), run);
    RunGrows(s, later);
    ExecAppend(Init(n), run, later);
    AliasesAreAcyclic(s.aliases, name);
    ResolveGrows(s.aliases, Exec(s, later).aliases, name);
  }

  /** Two calls that set the same name, at whatever time, both succeed only if they set the same value. */
  lemma WinnersAgree(n: nat, run: seq<Action>, later: seq<Action>, i: nat, j: nat)
    requires i < |Exec(Init(n), run).setters| && j < |Exec(Init(n), run + later).setters|
    requires var t := Exec(Init(n), run).setters[i];
             var u := Exec(Init(n), run + later).setters[j];
             t.Returned? && t.success && u.Returned? && u.success && t.name == u.name
    ensures Exec(Init(n), run).setters[i].value == Exec(Init(n), run + later).setters[j].value
  {
    var s := Exec(Init(n), run);
    RunGrows(Init(n), run);
    RunGrows(s, later);
    ExecAppend(Init(n), run, later);
    assert SetterInv(s.aliases, s.setters[i]);
    var s' := Exec(s, later);
    assert SetterInv(s'.aliases, s'.setters[j]);
  }

  // ---- Parsing paths inverts printing them ----

  lemma {:induction false} ParsePiecesIsMap(m: map<string, string>, pieces: seq<string>, cs: seq<Component>)
    requires forall i :: 0 <= i < |pieces| ==> !IsAlias(pieces[i])
    ensures ParsePieces(m, pieces) == Some(cs) <==>
              |cs| == |pieces| && forall i :: 0 <= i < |pieces| ==> WellFormed(cs[i]) && pieces[i] == Print(cs[i])
  {
    if pieces != [] && cs != [] {
      var k := |pieces| - 1;
      var l := |cs| - 1;
      ParsePiecesIsMap(m, pieces[..k], cs[..l]);
      ParseInvertsPrint(pieces[k], cs[l]);
      assert cs == cs[..l] + [cs[l]];
      assert ParsePieces(m, pieces) == Some(cs) <==>
          ParsePieces(m, pieces[..k]) == Some(cs[..l]) && ParseComponent(pieces[k]) == Some(cs[l]);
    }
  }

  lemma PrintHasNoSlash(c: Component)
    requires WellFormed(c)
    ensures SLASH !in Print(c)
  {
    ParseInvertsPrint(Print(c), c);
  }

  /** Without aliases and a slash at the end, a path is accepted exactly if it is the text of a list of components. */
  lemma ParsePathInvertsPrintPath(m: map<string, string>, path: string, cs: seq<Component>)
    requires path != "" && path[|path| - 1] != SLASH
    requires forall i :: 0 <= i < |Split(path, SLASH)| ==> !IsAlias(Split(path, SLASH)[i])
    ensures ParsePath(m, path) == Some(cs) <==>
              cs != [] && path == PrintPath(cs) && forall i :: 0 <= i < |cs| ==> WellFormed(cs[i])
  {
    var pieces := Split(path, SLASH);
    PiecesAreSplit(path, 0);
    assert pieces == PiecesFrom(path, 0);
    ParsePiecesIsMap(m, pieces, cs);
    if ParsePath(m, path) == Some(cs) {
      JoinSplit(path, SLASH);
      forall i | 0 <= i < |pieces| ensures pieces[i] == PrintAll(cs)[i] {}
      assert pieces == PrintAll(cs);
    }
    if cs != [] && path == PrintPath(cs) && forall i :: 0 <= i < |cs| ==> WellFormed(cs[i]) {
      forall i | 0 <= i < |cs| ensures SLASH !in PrintAll(cs)[i] {
        PrintHasNoSlash(cs[i]);
      }
      SplitJoin(PrintAll(cs), SLASH);
    }
  }

  /** parsePath counts slashes to allocate descriptors; it fills all of them if and only if the path does not end in one. */
  lemma CountIsFilled(m: map<string, string>, path: string)
    requires ParsePath(m, path).Some?
    ensures var filled := |ParsePath(m, path).value|;
            var counted := |Split(path, SLASH)|;
            counted == if path[|path| - 1] == SLASH then filled + 1 else filled
  {
    PiecesAreSplit(path, 0);
  }
}
