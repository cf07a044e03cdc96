/** Helpers that look through redundant single-statement blocks: `unwrapBlock`
    and `getElseIfParent` of rules/extCurlyRule.ts. */
module ChainResolver {
  import opened Syntax

  /** The substantive statement: strips every layer of single-statement block. */
  function Unwrap(s: Stmt): (r: Stmt)
    ensures !BlockOfOne(r)
    ensures Size(r) <= Size(s)
    ensures r == s || BlockOfOne(s)
  {
    if BlockOfOne(s) then Unwrap(s.stmts[0]) else s
  }

  lemma UnwrapIdempotent(s: Stmt)
    ensures Unwrap(Unwrap(s)) == Unwrap(s)
  {
  }

  /** `unwrapBlock`: the loop that reassigns `node` while it is a block holding
      exactly one statement. */
  method UnwrapBlock(s: Stmt) returns (r: Stmt)
    ensures r == Unwrap(s)
  {
    r := s;
    while BlockOfOne(r)
      invariant Unwrap(r) == Unwrap(s)
      decreases r
    {
      r := r.stmts[0];
    }
  }

  /** The same unwrapping, followed along paths of the tree: the node reached from
      `p` by entering single-statement blocks. */
  function UnwrapPath(ss: seq<Stmt>, p: Path): (u: Path)
    requires ValidPath(ss, p)
    ensures ValidPath(ss, u) && At(ss, u) == Unwrap(At(ss, p))
    ensures |p| <= |u| && u[..|p|] == p
    decreases Size(At(ss, p))
  {
    if BlockOfOne(At(ss, p)) then
      ChildMeasure(ss, p, 0);
      var u := UnwrapPath(ss, p + [0]);
      assert u[..|p|] == (p + [0])[..|p|];
      u
    else
      p
  }

  /** `q` is the else-if parent of `p`: `q` is an `if` whose else arm is `p`, or
      whose else arm is a single-statement block holding `p`. */
  predicate ElseLink(ss: seq<Stmt>, q: Path, p: Path) {
    && ValidPath(ss, q)
    && ValidPath(ss, q + [1])
    && At(ss, q).If?
    && (p == q + [1] || (p == q + [1, 0] && BlockOfOne(At(ss, q + [1]))))
  }

  /** `getElseIfParent`: the else-if parent of `p`, if it has one. */
  function ElseIfParent(ss: seq<Stmt>, p: Path): (r: Option<Path>)
    requires ValidPath(ss, p)
    ensures forall q :: r == Some(q) <==> ElseLink(ss, q, p)
  {
    var n := |p|;
    if n < 2 then None
    else
      PrefixPath(ss, p, n - 1);
      var parent := p[..n - 1];
      assert p == parent + [p[n - 1]];
      ChildPath(ss, parent, p[n - 1]);
      assert forall q :: p == q + [1, 0] ==> parent == q + [1] by {
        forall q | p == q + [1, 0] ensures parent == q + [1] { assert p[..n - 1] == q + [1]; }
      }
      if BlockOfOne(At(ss, parent)) then
        if n < 3 then None
        else
          PrefixPath(ss, p, n - 2);
          var grand := p[..n - 2];
          assert parent == grand + [p[n - 2]];
          assert p == grand + [p[n - 2], p[n - 1]];
          if At(ss, grand).If? && p[n - 2] == 1 then Some(grand) else None
      else if At(ss, parent).If? && p[n - 1] == 1 then Some(parent)
      else None
  }

  /** `getElseIfParent` as the source writes it: the locals `node` and `parent`
      move up one level when the parent is a single-statement block. The empty
      path stands for the source file. */
  method GetElseIfParent(ss: seq<Stmt>, p: Path) returns (r: Option<Path>)
    requires ValidPath(ss, p)
    ensures r == ElseIfParent(ss, p)
  {
    var node := p;
    var parent := p[..|p| - 1];
    if |parent| > 0 {
      PrefixPath(ss, p, |parent|);
    }
    if |parent| > 0 && BlockOfOne(At(ss, parent)) {
      node := parent;
      parent := node[..|node| - 1];
      if |parent| > 0 {
        PrefixPath(ss, p, |parent|);
        assert parent == p[..|parent|];
      }
    }
    if |parent| > 0 && At(ss, parent).If? && node[|node| - 1] == 1 {
      r := Some(parent);
    } else {
      r := None;
    }
  }
}
