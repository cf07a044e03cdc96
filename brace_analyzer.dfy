/** The decision procedure of rules/extCurlyRule.ts: `_needsBraces` and
    `_ifStatementNeedsBraces`, and what they promise. */
module BraceAnalyzer {
  import opened Syntax
  import opened ChainResolver

  /** The rule's switches, in the order of its option tokens `else`, `consistent`,
      `braced-child` and `nested-if-else`. */
  datatype Options = Options(braceElse: bool, consistent: bool, child: bool, nestedIfElse: bool)

  /** Whether the then arm and the else arm of an `if` must be braced. */
  datatype Verdict = Verdict(thenArm: bool, elseArm: bool)

  /** The dangling-else test: the then arm, looked through single-statement blocks,
      is an `if` without an else arm of its own. */
  predicate DanglingThen(s: Stmt) {
    var u := Unwrap(s);
    u.If? && u.elseStmt.None?
  }

  /** An else-if parent lies before the then arm of the node that links to it, so
      the upward call of `IfNeedsBraces` lowers the first component of its measure. */
  lemma ElseIfParentMeasure(ss: seq<Stmt>, p: Path)
    requires ValidPath(ss, p) && At(ss, p).If?
    ensures ValidPath(ss, p + [0]) && End(ss, p + [0]) <= End(ss, p)
    ensures Size(At(ss, p + [0])) < Size(At(ss, p))
    ensures ElseIfParent(ss, p).Some? ==>
              var q := ElseIfParent(ss, p).value;
              ValidPath(ss, q) && At(ss, q).If? && End(ss, q + [0]) < End(ss, p + [0])
  {
    ChildMeasure(ss, p, 0);
    var r := ElseIfParent(ss, p);
    if r.Some? {
      var q := r.value;
      assert ElseLink(ss, q, p);
      ChildPath(ss, q, 1);
      ChildMeasure(ss, q, 1);
      if p != q + [1] {
        ChildMeasure(ss, q + [1], 0);
        assert q + [1] + [0] == p;
      }
    }
  }

  lemma ElseArmMeasure(ss: seq<Stmt>, p: Path)
    requires ValidPath(ss, p) && At(ss, p).If? && At(ss, p).elseStmt.Some?
    ensures ValidPath(ss, p + [1]) && At(ss, p + [1]) == At(ss, p).elseStmt.value
    ensures End(ss, p + [1]) <= End(ss, p) && Size(At(ss, p + [1])) < Size(At(ss, p))
  {
    ChildMeasure(ss, p, 1);
  }

  /** `_needsBraces(node, allowIfElse)` for the node `p`. */
  function NeedsBraces(o: Options, ss: seq<Stmt>, p: Path, allowIfElse: bool): bool
    requires ValidPath(ss, p)
    decreases End(ss, p), Size(At(ss, p)), 2
  {
    var s := At(ss, p);
    if s.Block? then
      |s.stmts| != 1 || (ChildMeasure(ss, p, 0); NeedsBraces(o, ss, p + [0], allowIfElse))
    else if !allowIfElse && o.nestedIfElse && s.If? && s.elseStmt.Some? then
      true
    else if !o.child then
      false
    else if s.If? then
      var v := IfNeedsBraces(o, ss, p, false);
      v.thenArm || v.elseArm
    else if s.Iteration? then
      ChildMeasure(ss, p, 0);
      NeedsBraces(o, ss, p + [0], false)
    else
      s.Switch?
  }

  /** The `else` option applies: the `if` at `p` has an else arm or is itself the
      else arm of an enclosing `if`. */
  predicate ElseRuleFires(o: Options, ss: seq<Stmt>, p: Path)
    requires ValidPath(ss, p) && At(ss, p).If?
  {
    o.braceElse && (At(ss, p).elseStmt.Some? || ElseIfParent(ss, p).Some?)
  }

  /** The `consistent` option applies: the then arm needs braces, or (unless
      `excludeElse`) the else arm does, or the then arm of the else-if parent does. */
  predicate ConsistentRuleFires(o: Options, ss: seq<Stmt>, p: Path, excludeElse: bool)
    requires ValidPath(ss, p) && At(ss, p).If?
    decreases if excludeElse then End(ss, p + [0]) else End(ss, p), Size(At(ss, p)), 0
  {
    ElseIfParentMeasure(ss, p);
    var s := At(ss, p);
    var parentIf := ElseIfParent(ss, p);
    && o.consistent
    && (|| NeedsBraces(o, ss, p + [0], false)
        || (!excludeElse && s.elseStmt.Some? && (ElseArmMeasure(ss, p); NeedsBraces(o, ss, p + [1], true)))
        || (parentIf.Some? && IfNeedsBraces(o, ss, parentIf.value, true).thenArm))
  }

  /** `_ifStatementNeedsBraces(node, excludeElse)` for the `if` at `p`. */
  function IfNeedsBraces(o: Options, ss: seq<Stmt>, p: Path, excludeElse: bool): Verdict
    requires ValidPath(ss, p) && At(ss, p).If?
    decreases if excludeElse then End(ss, p + [0]) else End(ss, p), Size(At(ss, p)), 1
  {
    ElseIfParentMeasure(ss, p);
    var s := At(ss, p);
    if ElseRuleFires(o, ss, p) then
      Verdict(true, true)
    else if ConsistentRuleFires(o, ss, p, excludeElse) then
      Verdict(true, true)
    else if s.elseStmt.Some? then
      Verdict(DanglingThen(s.thenStmt),
              !excludeElse && (ElseArmMeasure(ss, p); NeedsBraces(o, ss, p + [1], true)))
    else
      Verdict(NeedsBraces(o, ss, p + [0], false), false)
  }
}
