/** The walker of rules/extCurlyRule.ts: a pre-order traversal that checks every
    loop and every `if`, turning verdicts into diagnostics. */
module TreeWalker {
  import opened Syntax
  import opened BraceAnalyzer
  import opened EditPlanner

  /** `_checkLoop`: the diagnostics for the loop at `p`. */
  function LoopFailures(o: Options, ss: seq<Stmt>, p: Path): seq<Failure>
    requires ValidPath(ss, p) && At(ss, p).Iteration?
  {
    ChildMeasure(ss, p, 0);
    var body := At(ss, p).body;
    if NeedsBraces(o, ss, p + [0], false) then
      if !body.Block? then [MissingBraces(p + [0])] else []
    else if body.Block? then [PlanUnnecessary(body.span, p + [0])]
    else []
  }

  /** `_checkIfStatement`: the diagnostics for the `if` at `p`, then arm first. */
  function IfFailures(o: Options, ss: seq<Stmt>, p: Path): seq<Failure>
    requires ValidPath(ss, p) && At(ss, p).If?
  {
    var s := At(ss, p);
    var v := IfNeedsBraces(o, ss, p, false);
    var elseStart := if s.elseStmt.Some? then Some(s.elseStart) else None;
    var thenFailures :=
      if v.thenArm then
        if !s.thenStmt.Block? then [MissingBraces(p + [0])] else []
      else if s.thenStmt.Block? then [PlanUnnecessaryThen(s.thenStmt.span, elseStart, p + [0])]
      else [];
    var elseFailures :=
      if v.elseArm then
        if s.elseStmt.Some? && !s.elseStmt.value.Block? && !s.elseStmt.value.If? then [MissingBraces(p + [1])]
        else []
      else if s.elseStmt.Some? && s.elseStmt.value.Block? then [PlanUnnecessary(s.elseStmt.value.span, p + [1])]
      else [];
    thenFailures + elseFailures
  }

  /** What the traversal callback reports when it reaches the node `p`. */
  function NodeFailures(o: Options, ss: seq<Stmt>, p: Path): seq<Failure> {
    if !ValidPath(ss, p) then []
    else if At(ss, p).Iteration? then LoopFailures(o, ss, p)
    else if At(ss, p).If? then IfFailures(o, ss, p)
    else []
  }

  /** Every path of `ps`, extended in front by `pre`. */
  function Prefixed(pre: Path, ps: seq<Path>): (r: seq<Path>)
    ensures |r| == |ps| && forall k :: 0 <= k < |ps| ==> r[k] == pre + ps[k]
  {
    seq(|ps|, k requires 0 <= k < |ps| => pre + ps[k])
  }

  lemma ChildrenSmaller(ss: seq<Stmt>, i: nat)
    requires i < |ss|
    ensures SizeSeq(Children(ss[i])) < SizeSeq(ss)
  {
    SizeOfChildren(ss[i]);
    SizeSeqStep(ss, i);
    SizeSeqPrefix(ss, i + 1, |ss|);
    assert ss[..|ss|] == ss;
  }

  /** The pre-order walk of a forest: for each tree in turn, its root and then the
      walk of its children. Paths are relative to the forest. */
  function Order(ss: seq<Stmt>): seq<Path>
    decreases SizeSeq(ss), 1, 0
  {
    OrderUpTo(ss, |ss|)
  }

  /** The walk of the first `n` trees of the forest. */
  function OrderUpTo(ss: seq<Stmt>, n: nat): seq<Path>
    requires n <= |ss|
    decreases SizeSeq(ss), 0, n
  {
    if n == 0 then []
    else
      ChildrenSmaller(ss, n - 1);
      OrderUpTo(ss, n - 1) + Prefixed([n - 1], [[]] + Order(Children(ss[n - 1])))
  }

  /** One more tree extends the walk by that tree's root and the walk of its children. */
  lemma OrderUpToStep(ss: seq<Stmt>, m: nat)
    requires m < |ss|
    ensures OrderUpTo(ss, m + 1) == OrderUpTo(ss, m) + Prefixed([m], [[]] + Order(Children(ss[m])))
    ensures |OrderUpTo(ss, m + 1)| == |OrderUpTo(ss, m)| + 1 + |Order(Children(ss[m]))|
  {
    ChildrenSmaller(ss, m);
  }

  /** The concatenation of a sequence of reports. */
  function Flatten(xs: seq<seq<Failure>>): seq<Failure> {
    if xs == [] then [] else Flatten(xs[..|xs| - 1]) + xs[|xs| - 1]
  }

  lemma {:induction false} FlattenAppend(xs: seq<seq<Failure>>, ys: seq<seq<Failure>>)
    ensures Flatten(xs + ys) == Flatten(xs) + Flatten(ys)
    decreases |ys|
  {
    if ys == [] {
      assert xs + ys == xs;
    } else {
      var n := |ys| - 1;
      assert (xs + ys)[..|xs + ys| - 1] == xs + ys[..n];
      FlattenAppend(xs, ys[..n]);
    }
  }

  /** `f` applied to each of the nodes `ps`. */
  function MapPaths(f: Path -> seq<Failure>, ps: seq<Path>): (r: seq<seq<Failure>>)
    ensures |r| == |ps| && forall k :: 0 <= k < |ps| ==> r[k] == f(ps[k])
  {
    seq(|ps|, k requires 0 <= k < |ps| => f(ps[k]))
  }

  lemma MapPathsAppend(f: Path -> seq<Failure>, ps: seq<Path>, qs: seq<Path>)
    ensures MapPaths(f, ps + qs) == MapPaths(f, ps) + MapPaths(f, qs)
  {
  }

  /** The reports `f` gives at the nodes `ps`, concatenated in that order. */
  function Gather(f: Path -> seq<Failure>, ps: seq<Path>): seq<Failure> {
    Flatten(MapPaths(f, ps))
  }

  lemma GatherAppend(f: Path -> seq<Failure>, ps: seq<Path>, qs: seq<Path>)
    ensures Gather(f, ps + qs) == Gather(f, ps) + Gather(f, qs)
  {
    MapPathsAppend(f, ps, qs);
    FlattenAppend(MapPaths(f, ps), MapPaths(f, qs));
  }

  lemma GatherOne(f: Path -> seq<Failure>, p: Path)
    ensures Gather(f, [p]) == f(p)
  {
    assert MapPaths(f, [p]) == [f(p)];
    assert [f(p)][..0] == [];
    assert Flatten([f(p)]) == Flatten([]) + f(p);
  }

  /** What the traversal callback reports at each node. */
  function Report(o: Options, ss: seq<Stmt>): Path -> seq<Failure> {
    p => NodeFailures(o, ss, p)
  }

  /** What the callback reports at each of the nodes `ps`. */
  function Reports(o: Options, ss: seq<Stmt>, ps: seq<Path>): (r: seq<seq<Failure>>)
    ensures |r| == |ps| && forall k :: 0 <= k < |ps| ==> r[k] == NodeFailures(o, ss, ps[k])
  {
    MapPaths(Report(o, ss), ps)
  }

  /** The diagnostics of the nodes `ps`, in that order. */
  function Collect(o: Options, ss: seq<Stmt>, ps: seq<Path>): seq<Failure> {
    Flatten(Reports(o, ss, ps))
  }

  /** Everything one run of the rule reports for the source file `ss`. */
  function Diagnostics(o: Options, ss: seq<Stmt>): seq<Failure> {
    Collect(o, ss, Order(ss))
  }

  lemma CollectAppend(o: Options, ss: seq<Stmt>, ps: seq<Path>, qs: seq<Path>)
    ensures Collect(o, ss, ps + qs) == Collect(o, ss, ps) + Collect(o, ss, qs)
  {
    GatherAppend(Report(o, ss), ps, qs);
  }

  lemma CollectOne(o: Options, ss: seq<Stmt>, p: Path)
    ensures Collect(o, ss, [p]) == NodeFailures(o, ss, p)
  {
    GatherOne(Report(o, ss), p);
  }

  lemma PrefixedAppend(pre: Path, ps: seq<Path>, qs: seq<Path>)
    ensures Prefixed(pre, ps + qs) == Prefixed(pre, ps) + Prefixed(pre, qs)
  {
  }

  lemma PrefixedTwice(p: Path, q: Path, ps: seq<Path>)
    ensures Prefixed(p, Prefixed(q, ps)) == Prefixed(p + q, ps)
  {
    forall k | 0 <= k < |ps| ensures p + (q + ps[k]) == (p + q) + ps[k] {
    }
  }

  /** The walk below the node `p`, as paths of the whole forest. */
  function Subtree(ss: seq<Stmt>, p: Path): seq<Path>
    requires ValidPath(ss, p)
  {
    Prefixed(p, [[]] + Order(Children(At(ss, p))))
  }

  /** The walk below the children of `p` numbered less than `i`, as paths of the
      whole forest. */
  function ChildrenWalk(ss: seq<Stmt>, p: Path, i: nat): seq<Path>
    requires ValidPath(ss, p) && i <= |Children(At(ss, p))|
  {
    Prefixed(p, OrderUpTo(Children(At(ss, p)), i))
  }

  /** One step of the traversal over the top-level statements. */
  lemma WalkStep(f: Path -> seq<Failure>, ss: seq<Stmt>, i: nat)
    requires i < |ss|
    ensures ValidPath(ss, [i])
    ensures Gather(f, OrderUpTo(ss, i + 1)) == Gather(f, OrderUpTo(ss, i)) + Gather(f, Subtree(ss, [i]))
  {
    assert ValidPath(ss, [i]) && At(ss, [i]) == ss[i];
    assert OrderUpTo(ss, i + 1) == OrderUpTo(ss, i) + Subtree(ss, [i]);
    GatherAppend(f, OrderUpTo(ss, i), Subtree(ss, [i]));
  }

  /** One step of the traversal over the children of `p`: the walk of the first
      `i + 1` children is that of the first `i` followed by the subtree of child `i`. */
  lemma SubtreeStep(ss: seq<Stmt>, p: Path, i: nat)
    requires ValidPath(ss, p) && i < |Children(At(ss, p))|
    ensures ValidPath(ss, p + [i])
    ensures ChildrenWalk(ss, p, i + 1) == ChildrenWalk(ss, p, i) + Subtree(ss, p + [i])
  {
    var cs := Children(At(ss, p));
    ChildNode(ss, p, i);
    PrefixedAppend(p, OrderUpTo(cs, i), Prefixed([i], [[]] + Order(Children(cs[i]))));
    PrefixedTwice(p, [i], [[]] + Order(Children(cs[i])));
  }

  lemma VisitStep(f: Path -> seq<Failure>, ss: seq<Stmt>, p: Path, i: nat)
    requires ValidPath(ss, p) && i < |Children(At(ss, p))|
    ensures ValidPath(ss, p + [i])
    ensures Gather(f, ChildrenWalk(ss, p, i + 1)) == Gather(f, ChildrenWalk(ss, p, i)) + Gather(f, Subtree(ss, p + [i]))
  {
    SubtreeStep(ss, p, i);
    GatherAppend(f, ChildrenWalk(ss, p, i), Subtree(ss, p + [i]));
  }

  lemma ChildrenWalkEmpty(f: Path -> seq<Failure>, ss: seq<Stmt>, p: Path)
    requires ValidPath(ss, p)
    ensures Gather(f, ChildrenWalk(ss, p, 0)) == []
  {
    assert ChildrenWalk(ss, p, 0) == [];
    assert MapPaths(f, []) == [];
  }

  lemma SubtreeSplit(f: Path -> seq<Failure>, ss: seq<Stmt>, p: Path)
    requires ValidPath(ss, p)
    ensures Gather(f, Subtree(ss, p)) == f(p) + Gather(f, ChildrenWalk(ss, p, |Children(At(ss, p))|))
  {
    var rest := Order(Children(At(ss, p)));
    PrefixedAppend(p, [[]], rest);
    assert p + [] == p;
    assert Prefixed(p, [[]]) == [p];
    GatherAppend(f, [p], Prefixed(p, rest));
    GatherOne(f, p);
  }

  /** What a traversal reporting `f` at each node yields from the node `p` down:
      the node's own reports, then those of each child's subtree in turn. */
  function SubtreeReports(f: Path -> seq<Failure>, ss: seq<Stmt>, p: Path): seq<Failure>
    requires ValidPath(ss, p)
    decreases Size(At(ss, p)), 1, 0
  {
    f(p) + ChildReports(f, ss, p, |Children(At(ss, p))|)
  }

  /** What it yields from the subtrees of the first `i` children of `p`. */
  function ChildReports(f: Path -> seq<Failure>, ss: seq<Stmt>, p: Path, i: nat): seq<Failure>
    requires ValidPath(ss, p) && i <= |Children(At(ss, p))|
    decreases Size(At(ss, p)), 0, i
  {
    if i == 0 then []
    else
      ChildNode(ss, p, i - 1);
      ChildReports(f, ss, p, i - 1) + SubtreeReports(f, ss, p + [i - 1])
  }

  /** What it yields from the first `n` top-level statements. */
  function TopReports(f: Path -> seq<Failure>, ss: seq<Stmt>, n: nat): seq<Failure>
    requires n <= |ss|
  {
    if n == 0 then []
    else
      assert ValidPath(ss, [n - 1]);
      TopReports(f, ss, n - 1) + SubtreeReports(f, ss, [n - 1])
  }

  lemma {:induction false} SubtreeReportsWalk(f: Path -> seq<Failure>, ss: seq<Stmt>, p: Path)
    requires ValidPath(ss, p)
    ensures SubtreeReports(f, ss, p) == Gather(f, Subtree(ss, p))
    decreases Size(At(ss, p)), 1, 0
  {
    ChildReportsWalk(f, ss, p, |Children(At(ss, p))|);
    SubtreeSplit(f, ss, p);
  }

  lemma {:induction false} ChildReportsWalk(f: Path -> seq<Failure>, ss: seq<Stmt>, p: Path, i: nat)
    requires ValidPath(ss, p) && i <= |Children(At(ss, p))|
    ensures ChildReports(f, ss, p, i) == Gather(f, ChildrenWalk(ss, p, i))
    decreases Size(At(ss, p)), 0, i
  {
    if i == 0 {
      ChildrenWalkEmpty(f, ss, p);
    } else {
      var j: nat := i - 1;
      ChildNode(ss, p, j);
      assert ChildReports(f, ss, p, i) == ChildReports(f, ss, p, j) + SubtreeReports(f, ss, p + [j]);
      ChildReportsWalk(f, ss, p, j);
      SubtreeReportsWalk(f, ss, p + [j]);
      VisitStep(f, ss, p, j);
    }
  }

  lemma {:induction false} TopReportsWalk(f: Path -> seq<Failure>, ss: seq<Stmt>, n: nat)
    requires n <= |ss|
    ensures TopReports(f, ss, n) == Gather(f, OrderUpTo(ss, n))
  {
    if n == 0 {
      assert MapPaths(f, []) == [];
    } else {
      var j: nat := n - 1;
      assert ValidPath(ss, [j]);
      assert TopReports(f, ss, n) == TopReports(f, ss, j) + SubtreeReports(f, ss, [j]);
      TopReportsWalk(f, ss, j);
      WalkStep(f, ss, j);
      SubtreeReportsWalk(f, ss, [j]);
    }
  }

  /** A traversal that reports, at each node, what the callback reports there yields
      the run's diagnostics, tree by tree. */
  lemma DiagnosticsByTrees(o: Options, ss: seq<Stmt>, f: Path -> seq<Failure>)
    requires forall q {:trigger NodeFailures(o, ss, q)} :: f(q) == NodeFailures(o, ss, q)
    ensures TopReports(f, ss, |ss|) == Diagnostics(o, ss)
  {
    TopReportsWalk(f, ss, |ss|);
    assert MapPaths(f, Order(ss)) == Reports(o, ss, Order(ss));
  }

  lemma AppendAssoc(a: seq<Failure>, b: seq<Failure>, c: seq<Failure>)
    ensures a + b + c == a + (b + c)
  {
  }

  /** The walker object: the options it was built with, the source file, and the
      failures it has added so far. */
  class ExtCurlyWalker {
    const sourceFile: seq<Stmt>
    const options: Options
    /** The callback's reports at each node, named for the specification of the
        traversal. */
    ghost const report: Path -> seq<Failure>
    var failures: seq<Failure>

    ghost predicate Valid() {
      forall q {:trigger NodeFailures(options, sourceFile, q)} :: report(q) == NodeFailures(options, sourceFile, q)
    }

    constructor (sourceFile: seq<Stmt>, options: Options)
      ensures this.sourceFile == sourceFile && this.options == options && failures == []
      ensures Valid()
    {
      this.sourceFile := sourceFile;
      this.options := options;
      report := Report(options, sourceFile);
      failures := [];
    }

    /** `walk`: visits every top-level statement in order. */
    method Walk()
      requires Valid()
      modifies this
      ensures failures == old(failures) + Diagnostics(options, sourceFile)
    {
      var i := 0;
      while i < |sourceFile|
        invariant 0 <= i <= |sourceFile|
        invariant failures == old(failures) + TopReports(report, sourceFile, i)
      {
        assert ValidPath(sourceFile, [i]);
        ghost var walked := TopReports(report, sourceFile, i);
        Visit([i]);
        AppendAssoc(old(failures), walked, SubtreeReports(report, sourceFile, [i]));
        i := i + 1;
      }
      DiagnosticsByTrees(options, sourceFile, report);
    }

    /** The traversal callback `cb`: checks the node, then visits its children in
      order, whatever the node's own verdict. */
    method Visit(p: Path)
      requires Valid() && ValidPath(sourceFile, p)
      modifies this
      ensures failures == old(failures) + SubtreeReports(report, sourceFile, p)
      decreases Size(At(sourceFile, p)), 1
    {
      var s := At(sourceFile, p);
      if s.Iteration? {
        CheckLoop(p);
      } else if s.If? {
        CheckIfStatement(p);
      }
      assert failures == old(failures) + NodeFailures(options, sourceFile, p);
      VisitChildren(p);
      AppendAssoc(old(failures), report(p), ChildReports(report, sourceFile, p, |Children(s)|));
    }

    /** `ts.forEachChild(node, cb)`: the callback on each child of `p`, in order. */
    method VisitChildren(p: Path)
      requires Valid() && ValidPath(sourceFile, p)
      modifies this
      ensures failures == old(failures) + ChildReports(report, sourceFile, p, |Children(At(sourceFile, p))|)
      decreases Size(At(sourceFile, p)), 0
    {
      var cs := Children(At(sourceFile, p));
      var i := 0;
      while i < |cs|
        invariant 0 <= i <= |cs|
        invariant failures == old(failures) + ChildReports(report, sourceFile, p, i)
      {
        ChildNode(sourceFile, p, i);
        ghost var walked := ChildReports(report, sourceFile, p, i);
        Visit(p + [i]);
        AppendAssoc(old(failures), walked, SubtreeReports(report, sourceFile, p + [i]));
        i := i + 1;
      }
    }

    method CheckLoop(p: Path)
      requires ValidPath(sourceFile, p) && At(sourceFile, p).Iteration?
      modifies this
      ensures failures == old(failures) + LoopFailures(options, sourceFile, p)
    {
      ChildMeasure(sourceFile, p, 0);
      var body := At(sourceFile, p).body;
      if NeedsBraces(options, sourceFile, p + [0], false) {
        if !body.Block? {
          AddFailureAtNode(p + [0]);
        }
      } else if body.Block? {
        ReportUnnecessary(body.span, p + [0]);
      }
    }

    method CheckIfStatement(p: Path)
      requires ValidPath(sourceFile, p) && At(sourceFile, p).If?
      modifies this
      ensures failures == old(failures) + IfFailures(options, sourceFile, p)
    {
      var node := At(sourceFile, p);
      var v := IfNeedsBraces(options, sourceFile, p, false);
      if v.thenArm {
        if !node.thenStmt.Block? {
          AddFailureAtNode(p + [0]);
        }
      } else if node.thenStmt.Block? {
        ReportUnnecessaryThen(p);
      }
      if v.elseArm {
        if node.elseStmt.Some? && !node.elseStmt.value.Block? && !node.elseStmt.value.If? {
          AddFailureAtNode(p + [1]);
        }
      } else if node.elseStmt.Some? && node.elseStmt.value.Block? {
        ReportUnnecessary(node.elseStmt.value.span, p + [1]);
      }
    }

    /** `addFailureAtNode(statement, FAIL_MESSAGE_MISSING)`. */
    method AddFailureAtNode(at: Path)
      modifies this
      ensures failures == old(failures) + [MissingBraces(at)]
    {
      failures := failures + [MissingBraces(at)];
    }

    method ReportUnnecessary(b: BlockSpan, at: Path)
      modifies this
      ensures failures == old(failures) + [PlanUnnecessary(b, at)]
    {
      failures := failures + [PlanUnnecessary(b, at)];
    }

    method ReportUnnecessaryThen(p: Path)
      requires ValidPath(sourceFile, p) && At(sourceFile, p).If? && At(sourceFile, p).thenStmt.Block?
      modifies this
      ensures var node := At(sourceFile, p);
              var elseStart := if node.elseStmt.Some? then Some(node.elseStart) else None;
              failures == old(failures) + [PlanUnnecessaryThen(node.thenStmt.span, elseStart, p + [0])]
    {
      var node := At(sourceFile, p);
      var elseStart := if node.elseStmt.Some? then Some(node.elseStart) else None;
      failures := failures + [PlanUnnecessaryThen(node.thenStmt.span, elseStart, p + [0])];
    }
  }
}
