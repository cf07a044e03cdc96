/** What the decision procedure of rules/extCurlyRule.ts guarantees, for every tree
    and every option set. */
module BraceProperties {
  import opened Syntax
  import opened ChainResolver
  import opened BraceAnalyzer

  /** A block whose statement count is not one (an empty block included) always
      needs braces; a single-statement block has the verdict of its statement, and
      so every statement has the verdict of what it unwraps to. */
  lemma {:induction false} BlockRule(o: Options, ss: seq<Stmt>, p: Path, allowIfElse: bool)
    requires ValidPath(ss, p)
    ensures At(ss, p).Block? && |At(ss, p).stmts| != 1 ==> NeedsBraces(o, ss, p, allowIfElse)
    ensures BlockOfOne(At(ss, p)) ==>
              ValidPath(ss, p + [0]) &&
              NeedsBraces(o, ss, p, allowIfElse) == NeedsBraces(o, ss, p + [0], allowIfElse)
    ensures NeedsBraces(o, ss, p, allowIfElse) == NeedsBraces(o, ss, UnwrapPath(ss, p), allowIfElse)
    decreases Size(At(ss, p))
  {
    if BlockOfOne(At(ss, p)) {
      ChildMeasure(ss, p, 0);
      BlockRule(o, ss, p + [0], allowIfElse);
    }
  }

  /** With `braced-child` off, a statement needs braces exactly when it unwraps to
      a block of zero or several statements, or (outside an else-if link) to an
      `if` with its own else arm while `nested-if-else` is on. */
  lemma ChildOffRule(o: Options, ss: seq<Stmt>, p: Path, allowIfElse: bool)
    requires ValidPath(ss, p) && !o.child
    ensures var u := Unwrap(At(ss, p));
            NeedsBraces(o, ss, p, allowIfElse) <==>
              u.Block? || (!allowIfElse && o.nestedIfElse && u.If? && u.elseStmt.Some?)
  {
    BlockRule(o, ss, p, allowIfElse);
  }

  /** `nested-if-else`: a nested `if` with its own else arm, tested outside an
      else-if link, needs braces whatever `braced-child` says. */
  lemma NestedIfElseRule(o: Options, ss: seq<Stmt>, p: Path)
    requires ValidPath(ss, p) && o.nestedIfElse
    requires Unwrap(At(ss, p)).If? && Unwrap(At(ss, p)).elseStmt.Some?
    ensures NeedsBraces(o, ss, p, false)
  {
    BlockRule(o, ss, p, false);
  }

  /** Testing a statement as an else-if link only drops the `nested-if-else` rule,
      so it never finds more to brace. */
  lemma {:induction false} AllowIfElseWeakens(o: Options, ss: seq<Stmt>, p: Path)
    requires ValidPath(ss, p)
    ensures NeedsBraces(o, ss, p, true) ==> NeedsBraces(o, ss, p, false)
    decreases Size(At(ss, p))
  {
    if BlockOfOne(At(ss, p)) {
      ChildMeasure(ss, p, 0);
      AllowIfElseWeakens(o, ss, p + [0]);
    }
  }

  /** `else` option: an `if` with an else arm, or one that is the else arm of an
      enclosing `if` (directly or through one single-statement block), is fully braced. */
  lemma ElseOptionRule(o: Options, ss: seq<Stmt>, p: Path, excludeElse: bool)
    requires ValidPath(ss, p) && At(ss, p).If? && o.braceElse
    requires At(ss, p).elseStmt.Some? || exists q :: ElseLink(ss, q, p)
    ensures IfNeedsBraces(o, ss, p, excludeElse) == Verdict(true, true)
  {
    if At(ss, p).elseStmt.None? {
      var q :| ElseLink(ss, q, p);
      assert ElseIfParent(ss, p) == Some(q);
    }
  }

  /** `consistent` option, first case: a then arm that needs braces forces both arms. */
  lemma ConsistentThenRule(o: Options, ss: seq<Stmt>, p: Path, excludeElse: bool)
    requires ValidPath(ss, p) && At(ss, p).If? && o.consistent
    ensures ValidPath(ss, p + [0])
    ensures NeedsBraces(o, ss, p + [0], false) ==> IfNeedsBraces(o, ss, p, excludeElse) == Verdict(true, true)
  {
    ChildMeasure(ss, p, 0);
  }

  /** `consistent` option, second case: outside an else-if test, an else arm that
      needs braces (as an else-if link) forces both arms. */
  lemma ConsistentElseRule(o: Options, ss: seq<Stmt>, p: Path)
    requires ValidPath(ss, p) && At(ss, p).If? && At(ss, p).elseStmt.Some? && o.consistent
    ensures ValidPath(ss, p + [1])
    ensures NeedsBraces(o, ss, p + [1], true) ==> IfNeedsBraces(o, ss, p, false) == Verdict(true, true)
  {
    ChildMeasure(ss, p, 1);
  }

  /** `consistent` option, third case: the requirement travels backwards along an
      else-if chain, from the then arm of the else-if parent to this `if`. */
  lemma ConsistentChainRule(o: Options, ss: seq<Stmt>, p: Path, q: Path, excludeElse: bool)
    requires ValidPath(ss, p) && At(ss, p).If? && o.consistent && ElseLink(ss, q, p)
    ensures At(ss, q).If?
    ensures IfNeedsBraces(o, ss, q, true).thenArm ==> IfNeedsBraces(o, ss, p, excludeElse) == Verdict(true, true)
  {
    assert ElseIfParent(ss, p) == Some(q);
  }

  /** When neither the `else` nor the `consistent` rule applies: with an else arm,
      the then verdict is the dangling-else test alone; the else verdict is false
      under `excludeElse` and without an else arm; without an else arm the then
      verdict is that of the then arm. */
  lemma FallbackRule(o: Options, ss: seq<Stmt>, p: Path, excludeElse: bool)
    requires ValidPath(ss, p) && At(ss, p).If?
    requires !ElseRuleFires(o, ss, p) && !ConsistentRuleFires(o, ss, p, excludeElse)
    ensures ValidPath(ss, p + [0])
    ensures var s := At(ss, p);
            var v := IfNeedsBraces(o, ss, p, excludeElse);
            && (s.elseStmt.Some? ==> v.thenArm == DanglingThen(s.thenStmt))
            && (excludeElse ==> !v.elseArm)
            && (s.elseStmt.None? ==> !v.elseArm && v.thenArm == NeedsBraces(o, ss, p + [0], false))
  {
    ChildMeasure(ss, p, 0);
  }

  /** The dangling-else guard: when the then arm of an `if` with an else arm
      unwraps to an `if` without an else arm, the then arm must stay braced, under
      every option set; removing those braces would hand the `else` to the inner `if`. */
  lemma DanglingElseGuard(o: Options, ss: seq<Stmt>, p: Path, excludeElse: bool)
    requires ValidPath(ss, p) && At(ss, p).If? && At(ss, p).elseStmt.Some?
    requires DanglingThen(At(ss, p).thenStmt)
    ensures IfNeedsBraces(o, ss, p, excludeElse).thenArm
  {
  }

  /** As written, when an `if` has an else arm and neither the `else` nor the
      `consistent` rule applies, a then block of zero or several statements gets a
      false then verdict: the then arm's own statement count is not consulted. */
  lemma MultiStatementThenBlockWithElse(o: Options, ss: seq<Stmt>, p: Path, excludeElse: bool)
    requires ValidPath(ss, p) && At(ss, p).If? && At(ss, p).elseStmt.Some?
    requires At(ss, p).thenStmt.Block? && |At(ss, p).thenStmt.stmts| != 1
    requires !o.braceElse && !o.consistent
    ensures !IfNeedsBraces(o, ss, p, excludeElse).thenArm
  {
  }

  /** Computing a verdict for use as an else-if parent (`excludeElse`) never finds
      more to brace than the ordinary computation. */
  lemma ExcludeElseWeakens(o: Options, ss: seq<Stmt>, p: Path)
    requires ValidPath(ss, p) && At(ss, p).If?
    ensures IfNeedsBraces(o, ss, p, true).thenArm ==> IfNeedsBraces(o, ss, p, false).thenArm
    ensures IfNeedsBraces(o, ss, p, true).elseArm ==> IfNeedsBraces(o, ss, p, false).elseArm
  {
    ElseIfParentMeasure(ss, p);
    assert ConsistentRuleFires(o, ss, p, true) ==> ConsistentRuleFires(o, ss, p, false);
  }

  /** Under `consistent` (and outside an else-if test), an else arm that needs
      braces always comes with a then arm that needs them too, and a then arm that
      needs braces alone does so only because of the dangling-else test. */
  lemma ConsistentVerdicts(o: Options, ss: seq<Stmt>, p: Path)
    requires ValidPath(ss, p) && At(ss, p).If? && At(ss, p).elseStmt.Some? && o.consistent
    ensures var v := IfNeedsBraces(o, ss, p, false);
            && (v.elseArm ==> v.thenArm)
            && (v.thenArm && !v.elseArm ==> DanglingThen(At(ss, p).thenStmt))
  {
    ElseIfParentMeasure(ss, p);
    ElseArmMeasure(ss, p);
  }

  /** `o2` enables every option `o1` enables. */
  predicate Stronger(o1: Options, o2: Options) {
    && (o1.braceElse ==> o2.braceElse)
    && (o1.consistent ==> o2.consistent)
    && (o1.child ==> o2.child)
    && (o1.nestedIfElse ==> o2.nestedIfElse)
  }

  /** Enabling options never removes a bracing requirement: both decisions are
      monotone in the option set. */
  lemma {:induction false} NeedsBracesMonotone(o1: Options, o2: Options, ss: seq<Stmt>, p: Path, allowIfElse: bool)
    requires ValidPath(ss, p) && Stronger(o1, o2)
    ensures NeedsBraces(o1, ss, p, allowIfElse) ==> NeedsBraces(o2, ss, p, allowIfElse)
    decreases End(ss, p), Size(At(ss, p)), 2
  {
    var s := At(ss, p);
    if s.Block? {
      if |s.stmts| == 1 {
        ChildMeasure(ss, p, 0);
        NeedsBracesMonotone(o1, o2, ss, p + [0], allowIfElse);
      }
    } else if s.If? {
      IfNeedsBracesMonotone(o1, o2, ss, p, false);
    } else if s.Iteration? {
      ChildMeasure(ss, p, 0);
      NeedsBracesMonotone(o1, o2, ss, p + [0], false);
    }
  }

  lemma {:induction false} ConsistentRuleMonotone(o1: Options, o2: Options, ss: seq<Stmt>, p: Path, excludeElse: bool)
    requires ValidPath(ss, p) && At(ss, p).If? && Stronger(o1, o2)
    ensures ConsistentRuleFires(o1, ss, p, excludeElse) ==> ConsistentRuleFires(o2, ss, p, excludeElse)
    decreases if excludeElse then End(ss, p + [0]) else End(ss, p), Size(At(ss, p)), 0
  {
    ElseIfParentMeasure(ss, p);
    NeedsBracesMonotone(o1, o2, ss, p + [0], false);
    if !excludeElse && At(ss, p).elseStmt.Some? {
      ElseArmMeasure(ss, p);
      NeedsBracesMonotone(o1, o2, ss, p + [1], true);
    }
    var parentIf := ElseIfParent(ss, p);
    if parentIf.Some? {
      IfNeedsBracesMonotone(o1, o2, ss, parentIf.value, true);
    }
  }

  lemma {:induction false} IfNeedsBracesMonotone(o1: Options, o2: Options, ss: seq<Stmt>, p: Path, excludeElse: bool)
    requires ValidPath(ss, p) && At(ss, p).If? && Stronger(o1, o2)
    ensures IfNeedsBraces(o1, ss, p, excludeElse).thenArm ==> IfNeedsBraces(o2, ss, p, excludeElse).thenArm
    ensures IfNeedsBraces(o1, ss, p, excludeElse).elseArm ==> IfNeedsBraces(o2, ss, p, excludeElse).elseArm
    decreases if excludeElse then End(ss, p + [0]) else End(ss, p), Size(At(ss, p)), 1
  {
    ElseIfParentMeasure(ss, p);
    ConsistentRuleMonotone(o1, o2, ss, p, excludeElse);
    if At(ss, p).elseStmt.Some? {
      if !excludeElse {
        ElseArmMeasure(ss, p);
        NeedsBracesMonotone(o1, o2, ss, p + [1], true);
      }
    } else {
      NeedsBracesMonotone(o1, o2, ss, p + [0], false);
    }
  }
}
