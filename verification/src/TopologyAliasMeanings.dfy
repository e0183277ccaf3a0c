/**
 * What a path with aliases means, without the functions that resolve it, and which calls of setAlias succeed
 * (src/monitoring/topology/Topology.cpp:41-106, 160-183).
 */
module TopologyAliasMeanings {
  import opened Base
  import opened TopologyPaths
  import opened TopologyAliases

  /** Each text but the last is an alias for the next one, and the last is not an alias. */
  predicate Leads(m: map<string, string>, texts: seq<string>)
  {
    && texts != [] && !("@" <= texts[|texts| - 1])
    && forall i :: 0 <= i < |texts| - 1 ==> "@" <= texts[i] && texts[i] in m && m[texts[i]] == texts[i + 1]
  }

  /** A chain of aliases leads from the text to the component. */
  ghost predicate Means(m: map<string, string>, s: string, c: Component)
  {
    WellFormed(c) && exists texts :: Leads(m, texts) && texts[0] == s && texts[|texts| - 1] == Print(c)
  }

  lemma {:induction false} ChainOf(m: map<string, string>, s: string) returns (texts: seq<string>)
    requires Resolve(m, s).Some?
    ensures Leads(m, texts) && texts[0] == s && texts[|texts| - 1] == Resolve(m, s).value
    decreases Depth(m, s)
  {
    if IsAlias(s) {
      FollowOne(m, s);
      var rest := ChainOf(m, m[s]);
      texts := [s] + rest;
    } else {
      texts := [s];
    }
  }

  lemma {:induction false} ChainResolves(m: map<string, string>, texts: seq<string>)
    requires AliasInv(m) && Leads(m, texts)
    ensures Resolve(m, texts[0]) == Some(texts[|texts| - 1])
    decreases |texts|
  {
    if |texts| > 1 {
      ChainResolves(m, texts[1..]);
      assert ParsePiece(m, texts[0]).Some?;
      FollowOne(m, texts[0]);
    }
  }

  /** A piece is accepted as a component exactly if a chain of aliases leads from the one to the text of the other. */
  lemma PieceMeans(m: map<string, string>, s: string, c: Component)
    requires AliasInv(m)
    ensures ParsePiece(m, s) == Some(c) <==> Means(m, s, c)
  {
    if ParsePiece(m, s) == Some(c) {
      var texts := ChainOf(m, s);
      ParseInvertsPrint(texts[|texts| - 1], c);
    }
    if Means(m, s, c) {
      var texts :| Leads(m, texts) && texts[0] == s && texts[|texts| - 1] == Print(c);
      ChainResolves(m, texts);
      ParseInvertsPrint(Print(c), c);
    }
  }

  ghost predicate AllMean(m: map<string, string>, texts: seq<string>, cs: seq<Component>)
  {
    |texts| == |cs| && forall i :: 0 <= i < |cs| ==> SLASH !in texts[i] && Means(m, texts[i], cs[i])
  }

  lemma AllMeanOneMore(m: map<string, string>, texts: seq<string>, cs: seq<Component>, s: string, c: Component)
    requires |texts| == |cs| && SLASH !in s
    ensures AllMean(m, texts + [s], cs + [c]) <==> AllMean(m, texts, cs) && Means(m, s, c)
  {
    var n, texts', cs' := |cs|, texts + [s], cs + [c];
    assert texts'[n] == s && cs'[n] == c;
    assert forall i :: 0 <= i < n ==> texts'[i] == texts[i] && cs'[i] == cs[i];
  }

  lemma ParsePiecesOneMore(m: map<string, string>, texts: seq<string>, cs: seq<Component>, s: string, c: Component)
    ensures ParsePieces(m, texts + [s]) == Some(cs + [c]) <==> ParsePieces(m, texts) == Some(cs) && ParsePiece(m, s) == Some(c)
  {
    assert (texts + [s])[..|texts|] == texts;
    var front, last := ParsePieces(m, texts), ParsePiece(m, s);
    if front.Some? && last.Some? && front.value + [last.value] == cs + [c] {
      assert (front.value + [last.value])[..|cs|] == cs;
      assert front.value == (front.value + [last.value])[..|front.value|];
    }
  }

  lemma {:induction false} PiecesMean(m: map<string, string>, texts: seq<string>, cs: seq<Component>)
    requires AliasInv(m) && forall i :: 0 <= i < |texts| ==> SLASH !in texts[i]
    ensures ParsePieces(m, texts) == Some(cs) <==> AllMean(m, texts, cs)
    decreases |texts|
  {
    if texts != [] && |texts| == |cs| {
      var k := |texts| - 1;
      var front, s, fronts, c := texts[..k], texts[k], cs[..k], cs[k];
      PiecesMean(m, front, fronts);
      PieceMeans(m, s, c);
      AllMeanOneMore(m, front, fronts, s, c);
      ParsePiecesOneMore(m, front, fronts, s, c);
      assert texts == front + [s] && cs == fronts + [c];
    }
  }

  lemma {:induction false} JoinSlash(texts: seq<string>)
    requires texts != []
    ensures Join(texts + [""], SLASH) == Join(texts, SLASH) + [SLASH]
  {
    if |texts| > 1 {
      JoinSlash(texts[1..]);
      assert (texts + [""])[1..] == texts[1..] + [""];
      var a, b := texts[0] + [SLASH], Join(texts[1..], SLASH);
      assert a + (b + [SLASH]) == a + b + [SLASH];
    } else {
      assert (texts + [""])[1..] == [""];
      assert texts[0] + [SLASH] + "" == texts[0] + [SLASH];
    }
  }

  /** The texts with slashes between them, and maybe one behind. */
  predicate IsPathOf(path: string, texts: seq<string>)
  {
    texts != [] && (path == Join(texts, SLASH) || path == Join(texts, SLASH) + [SLASH])
  }

  lemma NoNameIsEmpty(m: map<string, string>, s: string, c: Component)
    requires Means(m, s, c) && AliasInv(m)
    ensures s != ""
  {
    PieceMeans(m, s, c);
  }

  lemma PiecesOf(path: string)
    requires path != ""
    ensures IsPathOf(path, PiecesFrom(path, 0))
    ensures forall i :: 0 <= i < |PiecesFrom(path, 0)| ==> SLASH !in PiecesFrom(path, 0)[i]
  {
    var pieces, split := PiecesFrom(path, 0), Split(path, SLASH);
    PiecesAreSplit(path, 0);
    JoinSplit(path, SLASH);
    forall i | 0 <= i < |pieces| ensures SLASH !in pieces[i] {
      assert pieces[i] == split[i];
    }
    assert pieces != [] && pieces + [] == pieces;
    JoinSlash(pieces);
  }

  lemma PiecesAre(path: string, texts: seq<string>)
    requires IsPathOf(path, texts) && texts[|texts| - 1] != "" && forall i :: 0 <= i < |texts| ==> SLASH !in texts[i]
    ensures path != "" && PiecesFrom(path, 0) == texts
  {
    PiecesAreSplit(path, 0);
    var pieces := PiecesFrom(path, 0);
    if path == Join(texts, SLASH) {
      SplitJoin(texts, SLASH);
      assert (pieces + [""])[|pieces|] == "" && |pieces + [""]| == |pieces| + 1;
      assert texts != pieces + [""];
      assert texts == pieces + [] == pieces;
    } else {
      JoinSlash(texts);
      SplitJoin(texts + [""], SLASH);
      assert texts + [""] == pieces + [""];
      assert texts == (texts + [""])[..|texts|] == pieces;
    }
  }

  lemma PathMeansOne(m: map<string, string>, path: string, texts: seq<string>, cs: seq<Component>)
    requires AliasInv(m) && IsPathOf(path, texts) && AllMean(m, texts, cs)
    ensures ParsePath(m, path) == Some(cs)
  {
    NoNameIsEmpty(m, texts[|texts| - 1], cs[|cs| - 1]);
    PiecesAre(path, texts);
    PiecesMean(m, texts, cs);
  }

  /** A path is accepted as a list of components exactly if it consists of texts that mean these components. */
  lemma PathMeans(m: map<string, string>, path: string, cs: seq<Component>)
    requires AliasInv(m)
    ensures ParsePath(m, path) == Some(cs) <==> exists texts :: IsPathOf(path, texts) && AllMean(m, texts, cs)
  {
    if ParsePath(m, path) == Some(cs) {
      PiecesOf(path);
      PiecesMean(m, PiecesFrom(path, 0), cs);
    }
    if texts :| IsPathOf(path, texts) && AllMean(m, texts, cs) {
      PathMeansOne(m, path, texts, cs);
    }
  }

  // ---- Which calls of setAlias succeed ----

  /** The setter has yet to store the alias, or says whether it has its value. */
  predicate Answers(s: State, i: nat, name: string, value: string)
  {
    && i < |s.setters|
    && (s.setters[i] == Checked(name, value)
        || (name in s.aliases && s.setters[i] == Returned(name, value, s.aliases[name] == value)))
  }

  lemma StepAnswers(s: State, action: Action, i: nat, name: string, value: string)
    requires Answers(s, i, name, value) && action != Finish(i)
    ensures Answers(Step(s, action), i, name, value)
  {}

  /** A call that passed its check succeeds exactly if the alias has its value afterwards, whatever other calls do. */
  lemma {:induction false} CheckedAnswer(s: State, run: seq<Action>, i: nat, name: string, value: string)
    requires i < |s.setters| && s.setters[i] == Checked(name, value) && Finish(i) !in run
    ensures Answers(Exec(s, run), i, name, value)
    decreases |run|
  {
    if run != [] {
      var front, last := run[..|run| - 1], run[|run| - 1];
      CheckedAnswer(s, front, i, name, value);
      StepAnswers(Exec(s, front), last, i, name, value);
    }
  }

  lemma ExecTwo(s: State, a: Action, b: Action)
    ensures Exec(s, [a, b]) == Step(Step(s, a), b)
  {
    var run := [a, b];
    assert run[..1] == [a] && [a][..0] == [];
    assert Exec(s, [a]) == Step(s, a);
  }

  /**
   * A call that nobody interferes with succeeds exactly if the name is an at sign and more without a slash, the
   * value means something, and the alias has no other value; then the name means the same.
   */
  lemma SetAliasDecides(s: State, i: nat, name: string, value: string)
    requires Inv(s) && i < |s.setters| && s.setters[i].Free?
    ensures var s' := Exec(s, [Check(i, name, value), Put(i)]);
            && i < |s'.setters| && s'.setters[i].Returned?
            && (s'.setters[i].success <==>
                  && "@" < name && SLASH !in name && (exists c :: Means(s.aliases, value, c))
                  && (name in s.aliases ==> s.aliases[name] == value))
            && (s'.setters[i].success ==> s'.aliases == s.aliases[name := value]
                                          && forall c :: Means(s'.aliases, name, c) <==> Means(s.aliases, value, c))
            && (!s'.setters[i].success ==> s'.aliases == s.aliases)
  {
    var m := s.aliases;
    var s' := Step(Step(s, Check(i, name, value)), Put(i));
    ExecTwo(s, Check(i, name, value), Put(i));
    forall c ensures ParsePiece(m, value) == Some(c) <==> Means(m, value, c) {
      PieceMeans(m, value, c);
    }
    assert ParsePiece(m, value).Some? ==> Means(m, value, ParsePiece(m, value).value);
    if s'.setters[i].success {
      StoreKeeps(m, name, value);
      forall c ensures Means(s'.aliases, name, c) <==> Means(m, value, c) {
        PieceMeans(s'.aliases, name, c);
      }
    }
  }
}
