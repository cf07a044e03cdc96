/** The statement tree the rule inspects, addressed by paths from the source file.

    The tree owns its nodes top-down; a node is named by the path of child indices
    that leads to it from the source file, so the syntactic parent of a node is the
    node named by its path without the last index. A path of length one names a
    top-level statement, whose parent is the source file itself (neither a block nor
    an `if`). */
module Syntax {

  datatype Option<T> = None | Some(value: T)

  /** Text offsets of a block, as the parser gives them: `pos` is the full start
      (before leading trivia), `stmtsPos`/`stmtsEnd` delimit the statement list
      (it starts right after the `{`), and `end` is just past the `}`. */
  datatype BlockSpan = BlockSpan(pos: int, stmtsPos: int, stmtsEnd: int, end: int)

  /** Statement kinds the rule distinguishes. An `If` records where its `else`
      keyword starts; the value is meaningful only when there is an else arm.
      `Switch` and `Other` are leaves for the decision procedure but may hold
      nested statements (case clauses, function bodies, ...) that the walker visits. */
  datatype Stmt =
    | Block(stmts: seq<Stmt>, span: BlockSpan)
    | If(thenStmt: Stmt, elseStmt: Option<Stmt>, elseStart: int)
    | Iteration(body: Stmt)
    | Switch(clauses: seq<Stmt>)
    | Other(nested: seq<Stmt>)

  type Path = seq<nat>

  /** Syntactic children in source order; for an `If`, index 0 is the then arm and
      index 1 the else arm. */
  function Children(s: Stmt): seq<Stmt> {
    match s
    case Block(stmts, _) => stmts
    case If(t, e, _) => if e.Some? then [t, e.value] else [t]
    case Iteration(b) => [b]
    case Switch(cs) => cs
    case Other(ns) => ns
  }

  predicate BlockOfOne(s: Stmt) {
    s.Block? && |s.stmts| == 1
  }

  /** Number of nodes in the subtree rooted at `s`. */
  function Size(s: Stmt): nat {
    match s
    case Block(stmts, _) => 1 + SizeSeq(stmts)
    case If(t, e, _) => 1 + Size(t) + (if e.Some? then Size(e.value) else 0)
    case Iteration(b) => 1 + Size(b)
    case Switch(cs) => 1 + SizeSeq(cs)
    case Other(ns) => 1 + SizeSeq(ns)
  }

  function SizeSeq(ss: seq<Stmt>): nat {
    if ss == [] then 0 else SizeSeq(ss[..|ss| - 1]) + Size(ss[|ss| - 1])
  }

  /** `p` names a node of the forest `ss`. */
  predicate ValidPath(ss: seq<Stmt>, p: Path)
    decreases p
  {
    |p| > 0 && p[0] < |ss| && (|p| == 1 || ValidPath(Children(ss[p[0]]), p[1..]))
  }

  function At(ss: seq<Stmt>, p: Path): Stmt
    requires ValidPath(ss, p)
    decreases p
  {
    if |p| == 1 then ss[p[0]] else At(Children(ss[p[0]]), p[1..])
  }

  /** Pre-order index of the node `p`: the number of nodes that a pre-order walk
      of the forest visits before it. */
  function Pre(ss: seq<Stmt>, p: Path): nat
    requires ValidPath(ss, p)
    decreases p
  {
    SizeSeq(ss[..p[0]]) + (if |p| == 1 then 0 else 1 + Pre(Children(ss[p[0]]), p[1..]))
  }

  /** Pre-order index just past the subtree of `p` (0 for a path naming no node). */
  function End(ss: seq<Stmt>, p: Path): nat {
    if ValidPath(ss, p) then Pre(ss, p) + Size(At(ss, p)) else 0
  }

  lemma SizeOfChildren(s: Stmt)
    ensures Size(s) == 1 + SizeSeq(Children(s))
  {
    match s
    case If(t, e, _) =>
      assert [t][..0] == [];
      assert SizeSeq([t]) == Size(t);
      if e.Some? {
        assert [t, e.value][..1] == [t];
        assert SizeSeq([t, e.value]) == Size(t) + Size(e.value);
      }
    case _ =>
  }

  lemma {:induction false} SizeSeqPrefix(ss: seq<Stmt>, i: nat, j: nat)
    requires i <= j <= |ss|
    ensures SizeSeq(ss[..i]) <= SizeSeq(ss[..j])
    decreases j - i
  {
    if i < j {
      SizeSeqPrefix(ss, i, j - 1);
      assert ss[..j][..j - 1] == ss[..j - 1];
    }
  }

  lemma SizeSeqStep(ss: seq<Stmt>, i: nat)
    requires i < |ss|
    ensures SizeSeq(ss[..i + 1]) == SizeSeq(ss[..i]) + Size(ss[i])
  {
    assert ss[..i + 1][..i] == ss[..i];
  }

  /** Extending a path by one index: when it names a node, that node is the
      corresponding child, and it comes in pre-order after its parent and after the
      subtrees of its earlier siblings. */
  lemma {:induction false} ChildPath(ss: seq<Stmt>, p: Path, i: nat)
    requires |p| > 0
    ensures ValidPath(ss, p + [i]) <==> ValidPath(ss, p) && i < |Children(At(ss, p))|
    ensures ValidPath(ss, p + [i]) ==>
              At(ss, p + [i]) == Children(At(ss, p))[i] &&
              Pre(ss, p + [i]) == Pre(ss, p) + 1 + SizeSeq(Children(At(ss, p))[..i])
    decreases p
  {
    var q := p + [i];
    assert q[0] == p[0] && q[1..] == p[1..] + [i];
    if |p| > 1 && p[0] < |ss| {
      ChildPath(Children(ss[p[0]]), p[1..], i);
    } else if |p| == 1 && p[0] < |ss| {
      var cs := Children(ss[p[0]]);
      assert q[1..] == [i];
    }
  }

  /** Extending a node's path by the index of one of its children names that
      child, whose subtree is strictly smaller. */
  lemma ChildNode(ss: seq<Stmt>, p: Path, i: nat)
    requires ValidPath(ss, p) && i < |Children(At(ss, p))|
    ensures ValidPath(ss, p + [i]) && At(ss, p + [i]) == Children(At(ss, p))[i]
    ensures Size(At(ss, p + [i])) < Size(At(ss, p))
  {
    var cs := Children(At(ss, p));
    ChildPath(ss, p, i);
    SizeOfChildren(At(ss, p));
    SizeSeqStep(cs, i);
    SizeSeqPrefix(cs, i + 1, |cs|);
    assert cs[..|cs|] == cs;
  }

  /** A child's subtree starts after its parent and ends no later than its
      parent's. */
  lemma ChildRange(ss: seq<Stmt>, p: Path, i: nat)
    requires ValidPath(ss, p) && i < |Children(At(ss, p))|
    ensures ValidPath(ss, p + [i])
    ensures Pre(ss, p) < Pre(ss, p + [i]) && End(ss, p + [i]) <= End(ss, p)
  {
    var cs := Children(At(ss, p));
    ChildPath(ss, p, i);
    var base := Pre(ss, p) + 1;
    SizeSeqStep(cs, i);
    assert End(ss, p + [i]) == base + SizeSeq(cs[..i + 1]);
    SizeSeqPrefix(cs, i + 1, |cs|);
    assert cs[..|cs|] == cs;
    SizeOfChildren(At(ss, p));
    assert End(ss, p) == base + SizeSeq(cs);
  }

  /** A child's subtree starts where its previous sibling's ends. */
  lemma SiblingRange(ss: seq<Stmt>, p: Path, i: nat)
    requires ValidPath(ss, p) && 0 < i < |Children(At(ss, p))|
    ensures ValidPath(ss, p + [i - 1]) && ValidPath(ss, p + [i])
    ensures Pre(ss, p + [i]) == End(ss, p + [i - 1])
  {
    var cs := Children(At(ss, p));
    var j: nat := i - 1;
    ChildPath(ss, p, i);
    ChildPath(ss, p, j);
    SizeSeqStep(cs, j);
    assert End(ss, p + [j]) == Pre(ss, p) + 1 + SizeSeq(cs[..i]);
  }

  /** The measure facts used to bound the recursion of the brace analyzer:
      a child's subtree ends no later than its parent's and is strictly smaller. */
  lemma ChildMeasure(ss: seq<Stmt>, p: Path, i: nat)
    requires ValidPath(ss, p) && i < |Children(At(ss, p))|
    ensures ValidPath(ss, p + [i])
    ensures At(ss, p + [i]) == Children(At(ss, p))[i]
    ensures Pre(ss, p) < Pre(ss, p + [i])
    ensures End(ss, p + [i]) <= End(ss, p)
    ensures Size(At(ss, p + [i])) < Size(At(ss, p))
    ensures i > 0 ==> Pre(ss, p + [i]) == End(ss, p + [i - 1])
  {
    ChildNode(ss, p, i);
    ChildRange(ss, p, i);
    if i > 0 {
      SiblingRange(ss, p, i);
    }
  }

  /** Every non-empty prefix of a node's path names a node too. */
  lemma {:induction false} PrefixPath(ss: seq<Stmt>, p: Path, k: nat)
    requires ValidPath(ss, p) && 0 < k <= |p|
    ensures ValidPath(ss, p[..k])
    decreases |p| - k
  {
    if k == |p| {
      assert p[..k] == p;
    } else {
      PrefixPath(ss, p, k + 1);
      assert p[..k + 1] == p[..k] + [p[k]];
      ChildPath(ss, p[..k], p[k]);
    }
  }
}
