/**
 * The path language of Topology (src/monitoring/topology/Topology.cpp:41-106, grammar at
 * src/include/monitoring/topology/Topology.hpp:18-29): a printer for it, and what the scanning loops
 * have to return.
 */
module TopologyPaths {
  import opened Base

  const SLASH: char := '/'
  const COLON: char := ':'
  const AT: char := '@'

  /** PathComponentDescription; no childType stands for haveChildType == false. */
  datatype Component = Component(relation: string, child: string, childType: Option<string>)

  predicate IsName(s: string)
  {
    s != "" && SLASH !in s && COLON !in s
  }

  predicate WellFormed(c: Component)
  {
    IsName(c.relation) && IsName(c.child) && (c.childType.Some? ==> IsName(c.childType.value))
  }

  // ---- Printing ----

  function Join(pieces: seq<string>, sep: char): string
    requires pieces != []
  {
    if |pieces| == 1 then pieces[0] else pieces[0] + [sep] + Join(pieces[1..], sep)
  }

  function Fields(c: Component): seq<string>
  {
    [c.relation, c.child] + if c.childType.Some? then [c.childType.value] else []
  }

  function Print(c: Component): string
  {
    Join(Fields(c), COLON)
  }

  function PrintAll(cs: seq<Component>): seq<string>
  {
    seq(|cs|, i requires 0 <= i < |cs| => Print(cs[i]))
  }

  function PrintPath(cs: seq<Component>): string
    requires cs != []
  {
    Join(PrintAll(cs), SLASH)
  }

  // ---- Scanning ----

  /** The character does not occur from position `from` up to position `to`. */
  predicate Lacks(s: string, ch: char, from: nat, to: nat)
  {
    from <= to <= |s| && forall k :: from <= k < to ==> s[k] != ch
  }

  /** The first position at or after `from` that holds the character, or the end. */
  function Find(s: string, ch: char, from: nat): (i: nat)
    requires from <= |s|
    ensures Lacks(s, ch, from, i) && (i < |s| ==> s[i] == ch)
    decreases |s| - from
  {
    if from == |s| || s[from] == ch then from else Find(s, ch, from + 1)
  }

  /** The texts between the separators, from a position on. */
  function SplitFrom(s: string, sep: char, start: nat): (pieces: seq<string>)
    requires start <= |s|
    ensures pieces != []
    decreases |s| - start
  {
    var end := Find(s, sep, start);
    if end == |s| then [s[start..]] else [s[start..end]] + SplitFrom(s, sep, end + 1)
  }

  function Split(s: string, sep: char): (pieces: seq<string>)
  {
    SplitFrom(s, sep, 0)
  }

  function FromFields(fields: seq<string>): Option<Component>
  {
    if |fields| == 2 && fields[0] != "" && fields[1] != "" then Some(Component(fields[0], fields[1], None))
    else if |fields| == 3 && fields[0] != "" && fields[1] != "" && fields[2] != "" then
      Some(Component(fields[0], fields[1], Some(fields[2])))
    else None
  }

  function ParseComponent(s: string): Option<Component>
  {
    if SLASH in s then None else FromFields(Split(s, COLON))
  }

  /** The pieces that the loop of parsePath visits from a position on; it stops at the end of the path, also behind a slash. */
  function PiecesFrom(path: string, start: nat): seq<string>
    decreases |path| - start
  {
    if start >= |path| then []
    else
      var end := Find(path, SLASH, start);
      [path[start..end]] + PiecesFrom(path, end + 1)
  }

  // ---- Splitting and joining are inverses ----

  lemma FindFirst(s: string, ch: char, from: nat, i: nat)
    requires Lacks(s, ch, from, i) && (i < |s| ==> s[i] == ch)
    ensures Find(s, ch, from) == i
  {}

  /** Where the scanner stops on a piece and what follows it. */
  lemma StopsBehind(s: string, sep: char, start: nat, piece: string, tail: string)
    requires start <= |s| && s[start..] == piece + tail && sep !in piece && (tail != "" ==> tail[0] == sep)
    ensures var end := start + |piece|;
            end <= |s| && Find(s, sep, start) == end && s[start..end] == piece && s[end..] == tail
  {
    var end := start + |piece|;
    var text := piece + tail;
    assert |s| == start + |text|;
    assert forall k :: 0 <= k < |text| ==> text[k] == s[start + k];
    forall k | start <= k < end ensures s[k] != sep {
      assert s[k] == text[k - start] == piece[k - start];
    }
    if end < |s| {
      assert s[end] == text[|piece|] == tail[0];
    }
    FindFirst(s, sep, start, end);
  }

  lemma DropOne(s: string, at: nat, ch: char, text: string)
    requires at <= |s| && s[at..] == [ch] + text
    ensures at < |s| && s[at + 1..] == text
  {
    assert s[at..][1..] == s[at + 1..];
  }

  /** The scanner cuts off a piece in front of a separator. */
  lemma SplitsOff(s: string, sep: char, start: nat, piece: string, text: string, tail: string)
    requires tail == [sep] + text && start <= |s| && s[start..] == piece + tail && sep !in piece
    ensures var next := start + |piece| + 1;
            next <= |s| && s[next..] == text && SplitFrom(s, sep, start) == [piece] + SplitFrom(s, sep, next)
  {
    StopsBehind(s, sep, start, piece, tail);
    DropOne(s, start + |piece|, sep, text);
  }

  lemma {:induction false} SplitJoinFrom(s: string, sep: char, start: nat, pieces: seq<string>)
    requires pieces != [] && forall i :: 0 <= i < |pieces| ==> sep !in pieces[i]
    requires start <= |s| && s[start..] == Join(pieces, sep)
    ensures SplitFrom(s, sep, start) == pieces
    decreases |pieces|
  {
    var piece, more := pieces[0], pieces[1..];
    if |pieces| == 1 {
      assert piece == piece + "";
      StopsBehind(s, sep, start, piece, "");
    } else {
      var text := Join(more, sep);
      assert Join(pieces, sep) == piece + [sep] + text == piece + ([sep] + text);
      SplitsOff(s, sep, start, piece, text, [sep] + text);
      SplitJoinFrom(s, sep, start + |piece| + 1, more);
      assert pieces == [piece] + more;
    }
  }

  lemma SplitJoin(pieces: seq<string>, sep: char)
    requires pieces != [] && forall i :: 0 <= i < |pieces| ==> sep !in pieces[i]
    ensures Split(Join(pieces, sep), sep) == pieces
  {
    var s := Join(pieces, sep);
    assert s[0..] == s;
    SplitJoinFrom(s, sep, 0, pieces);
  }

  lemma {:induction false} JoinSplitFrom(s: string, sep: char, start: nat)
    requires start <= |s|
    ensures Join(SplitFrom(s, sep, start), sep) == s[start..]
    ensures forall i :: 0 <= i < |SplitFrom(s, sep, start)| ==> sep !in SplitFrom(s, sep, start)[i]
    decreases |s| - start
  {
    var end := Find(s, sep, start);
    if end < |s| {
      JoinSplitFrom(s, sep, end + 1);
      assert s[start..] == s[start..end] + [sep] + s[end + 1..];
    }
  }

  lemma JoinSplit(s: string, sep: char)
    ensures Join(Split(s, sep), sep) == s
    ensures forall i :: 0 <= i < |Split(s, sep)| ==> sep !in Split(s, sep)[i]
  {
    JoinSplitFrom(s, sep, 0);
  }

  /** The empty piece that parsePath does not visit: the one behind a slash that ends the path. */
  function Unvisited(path: string, start: nat): seq<string>
  {
    if start >= |path| || path[|path| - 1] == SLASH then [""] else []
  }

  lemma Prepend(piece: string, split: seq<string>, pieces: seq<string>, last: seq<string>, split': seq<string>, pieces': seq<string>)
    requires split == pieces + last && split' == [piece] + split && pieces' == [piece] + pieces
    ensures split' == pieces' + last
  {}

  lemma FirstPiece(path: string, start: nat, end: nat)
    requires start < |path| && end == Find(path, SLASH, start) < |path|
    ensures SplitFrom(path, SLASH, start) == [path[start..end]] + SplitFrom(path, SLASH, end + 1)
    ensures PiecesFrom(path, start) == [path[start..end]] + PiecesFrom(path, end + 1)
    ensures Unvisited(path, start) == Unvisited(path, end + 1)
  {}

  lemma LastPiece(path: string, start: nat)
    requires start <= |path| && Find(path, SLASH, start) == |path|
    ensures SplitFrom(path, SLASH, start) == PiecesFrom(path, start) + Unvisited(path, start)
  {
    var piece := path[start..];
    assert SplitFrom(path, SLASH, start) == [piece];
    if start < |path| {
      assert path[start..|path|] == piece && PiecesFrom(path, |path| + 1) == [];
    }
  }

  lemma {:induction false} PiecesAreSplit(path: string, start: nat)
    requires start <= |path|
    ensures SplitFrom(path, SLASH, start) == PiecesFrom(path, start) + Unvisited(path, start)
    decreases |path| - start
  {
    var end := Find(path, SLASH, start);
    if end < |path| {
      PiecesAreSplit(path, end + 1);
      FirstPiece(path, start, end);
      Prepend(path[start..end], SplitFrom(path, SLASH, end + 1), PiecesFrom(path, end + 1), Unvisited(path, start),
              SplitFrom(path, SLASH, start), PiecesFrom(path, start));
    } else {
      LastPiece(path, start);
    }
  }

  /** Joining neither adds nor removes other characters. */
  lemma {:induction false} JoinHas(pieces: seq<string>, sep: char, ch: char)
    requires pieces != [] && ch != sep
    ensures ch in Join(pieces, sep) <==> exists i :: 0 <= i < |pieces| && ch in pieces[i]
  {
    if |pieces| > 1 {
      JoinHas(pieces[1..], sep, ch);
      assert pieces == [pieces[0]] + pieces[1..];
    }
  }

  // ---- The scanner inverts the printer ----

  /** A component is accepted exactly if it is the text of a well-formed one, and then that one is returned. */
  lemma ParseInvertsPrint(s: string, c: Component)
    ensures ParseComponent(s) == Some(c) <==> WellFormed(c) && s == Print(c)
  {
    if WellFormed(c) && s == Print(c) {
      SplitJoin(Fields(c), COLON);
      JoinHas(Fields(c), COLON, SLASH);
    }
    if ParseComponent(s) == Some(c) {
      JoinSplit(s, COLON);
      assert Fields(c) == Split(s, COLON);
      JoinHas(Fields(c), COLON, SLASH);
      assert SLASH !in c.relation && SLASH !in c.child by {
        assert Fields(c)[0] == c.relation && Fields(c)[1] == c.child;
      }
      if c.childType.Some? {
        assert Fields(c)[2] == c.childType.value;
      }
    }
  }
}
