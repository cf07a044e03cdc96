/** What a run of the walker reports: every node is visited once, in pre-order;
    each loop body and each arm of an `if` is reported missing or unnecessary
    exactly when its verdict and its kind say so, and at most once. */
module WalkerProperties {
  import opened Syntax
  import opened BraceAnalyzer
  import opened EditPlanner
  import opened TreeWalker

  // ---------------------------------------------------------------------------
  // The traversal order

  /** A path into the `m`-th tree of the forest, seen from that tree's children. */
  lemma PathInTree(ss: seq<Stmt>, m: nat, r: Path)
    requires m < |ss|
    ensures ValidPath(ss, [m]) && Pre(ss, [m]) == SizeSeq(ss[..m])
    ensures ValidPath(Children(ss[m]), r) ==>
              ValidPath(ss, [m] + r) && Pre(ss, [m] + r) == SizeSeq(ss[..m]) + 1 + Pre(Children(ss[m]), r)
  {
    var q := [m] + r;
    assert q[0] == m && q[1..] == r;
  }

  lemma {:induction false} OrderUpToLength(ss: seq<Stmt>, n: nat)
    requires n <= |ss|
    ensures |OrderUpTo(ss, n)| == SizeSeq(ss[..n])
    decreases SizeSeq(ss), n
  {
    if n == 0 {
      assert ss[..0] == [];
    } else {
      var m: nat := n - 1;
      var cs := Children(ss[m]);
      assert |OrderUpTo(ss, n)| == |OrderUpTo(ss, m)| + 1 + |Order(cs)| by {
        OrderUpToStep(ss, m);
      }
      assert |OrderUpTo(ss, m)| == SizeSeq(ss[..m]) by {
        OrderUpToLength(ss, m);
      }
      assert |Order(cs)| == SizeSeq(cs) by {
        ChildrenSmaller(ss, m);
        OrderUpToLength(cs, |cs|);
        assert cs[..|cs|] == cs;
      }
      assert SizeSeq(ss[..n]) == SizeSeq(ss[..m]) + 1 + SizeSeq(cs) by {
        SizeSeqStep(ss, m);
        SizeOfChildren(ss[m]);
      }
    }
  }

  /** The walk of the `m`-th tree, its root and then the walk of its children, lists
      that tree's nodes in pre-order, after the nodes of the trees before it. */
  lemma TreeBlockSound(ss: seq<Stmt>, m: nat)
    requires m < |ss|
    requires var cs := Children(ss[m]);
             forall k :: 0 <= k < |Order(cs)| ==> ValidPath(cs, Order(cs)[k]) && Pre(cs, Order(cs)[k]) == k
    ensures var block := Prefixed([m], [[]] + Order(Children(ss[m])));
            forall j :: 0 <= j < |block| ==> ValidPath(ss, block[j]) && Pre(ss, block[j]) == SizeSeq(ss[..m]) + j
  {
    var cs := Children(ss[m]);
    var tail := [[]] + Order(cs);
    var block := Prefixed([m], tail);
    forall j | 0 <= j < |block|
      ensures ValidPath(ss, block[j]) && Pre(ss, block[j]) == SizeSeq(ss[..m]) + j
    {
      if j == 0 {
        PathInTree(ss, m, []);
        assert block[j] == [m] + [] == [m];
      } else {
        assert block[j] == [m] + Order(cs)[j - 1];
        PathInTree(ss, m, Order(cs)[j - 1]);
      }
    }
  }

  /** Entries at their pre-order indices, followed by entries at the indices after
      them, are all at their pre-order indices. */
  lemma ConcatSound(ss: seq<Stmt>, prev: seq<Path>, block: seq<Path>)
    requires forall k :: 0 <= k < |prev| ==> ValidPath(ss, prev[k]) && Pre(ss, prev[k]) == k
    requires forall j :: 0 <= j < |block| ==> ValidPath(ss, block[j]) && Pre(ss, block[j]) == |prev| + j
    ensures forall k :: 0 <= k < |prev + block| ==>
              ValidPath(ss, (prev + block)[k]) && Pre(ss, (prev + block)[k]) == k
  {
    var all := prev + block;
    forall k | 0 <= k < |all|
      ensures ValidPath(ss, all[k]) && Pre(ss, all[k]) == k
    {
      if k < |prev| {
        assert all[k] == prev[k];
      } else {
        assert all[k] == block[k - |prev|];
      }
    }
  }

  lemma {:induction false} OrderUpToSound(ss: seq<Stmt>, n: nat)
    requires n <= |ss|
    ensures |OrderUpTo(ss, n)| == SizeSeq(ss[..n])
    ensures forall k :: 0 <= k < |OrderUpTo(ss, n)| ==>
              ValidPath(ss, OrderUpTo(ss, n)[k]) && Pre(ss, OrderUpTo(ss, n)[k]) == k
    decreases SizeSeq(ss), n
  {
    OrderUpToLength(ss, n);
    if n > 0 {
      var m := n - 1;
      var cs := Children(ss[m]);
      ChildrenSmaller(ss, m);
      OrderUpToSound(ss, m);
      OrderUpToSound(cs, |cs|);
      TreeBlockSound(ss, m);
      OrderUpToStep(ss, m);
      ConcatSound(ss, OrderUpTo(ss, m), Prefixed([m], [[]] + Order(cs)));
    }
  }

  /** The walk lists the nodes of the forest in pre-order: its `k`-th entry is the
      node with pre-order index `k`, and it has as many entries as there are nodes. */
  lemma OrderSound(ss: seq<Stmt>)
    ensures |Order(ss)| == SizeSeq(ss)
    ensures forall k :: 0 <= k < |Order(ss)| ==> ValidPath(ss, Order(ss)[k]) && Pre(ss, Order(ss)[k]) == k
  {
    OrderUpToSound(ss, |ss|);
    assert ss[..|ss|] == ss;
  }

  lemma {:induction false} OrderUpToPrefix(ss: seq<Stmt>, m: nat, n: nat)
    requires m <= n <= |ss|
    ensures |OrderUpTo(ss, m)| <= |OrderUpTo(ss, n)|
    ensures forall k :: 0 <= k < |OrderUpTo(ss, m)| ==> OrderUpTo(ss, n)[k] == OrderUpTo(ss, m)[k]
    decreases n - m
  {
    if m < n {
      OrderUpToPrefix(ss, m, n - 1);
      ChildrenSmaller(ss, n - 1);
      assert OrderUpTo(ss, n) == OrderUpTo(ss, n - 1) + Prefixed([n - 1], [[]] + Order(Children(ss[n - 1])));
    }
  }

  /** Where the walk of the `m`-th tree sits in the walk of the forest. */
  lemma OrderUpToEntry(ss: seq<Stmt>, m: nat, j: nat)
    requires m < |ss| && j < 1 + |Order(Children(ss[m]))|
    ensures |OrderUpTo(ss, m)| + j < |OrderUpTo(ss, m + 1)|
    ensures OrderUpTo(ss, m + 1)[|OrderUpTo(ss, m)| + j] == [m] + ([[]] + Order(Children(ss[m])))[j]
  {
    OrderUpToStep(ss, m);
  }

  lemma OrderAtTree(ss: seq<Stmt>, m: nat, j: nat)
    requires m < |ss| && j < 1 + |Order(Children(ss[m]))|
    ensures SizeSeq(ss[..m]) + j < |Order(ss)|
    ensures Order(ss)[SizeSeq(ss[..m]) + j] == [m] + ([[]] + Order(Children(ss[m])))[j]
  {
    OrderUpToEntry(ss, m, j);
    OrderUpToLength(ss, m);
    OrderUpToPrefix(ss, m + 1, |ss|);
  }

  /** Every node of the forest is visited, at its pre-order index. */
  lemma {:induction false} OrderComplete(ss: seq<Stmt>, q: Path)
    requires ValidPath(ss, q)
    ensures Pre(ss, q) < |Order(ss)| && Order(ss)[Pre(ss, q)] == q
    decreases |q|
  {
    var i := q[0];
    var cs := Children(ss[i]);
    if |q| == 1 {
      OrderAtTree(ss, i, 0);
      assert [i] + [] == q;
    } else {
      var r := q[1..];
      OrderComplete(cs, r);
      OrderAtTree(ss, i, 1 + Pre(cs, r));
      assert q == [i] + r;
    }
  }

  /** No node is visited twice. */
  lemma OrderDistinct(ss: seq<Stmt>)
    ensures forall i, j :: 0 <= i < j < |Order(ss)| ==> Order(ss)[i] != Order(ss)[j]
  {
    OrderSound(ss);
  }

  // ---------------------------------------------------------------------------
  // Collecting the callback's reports

  lemma {:induction false} FlattenMember(xs: seq<seq<Failure>>, f: Failure)
    ensures f in Flatten(xs) <==> exists k :: 0 <= k < |xs| && f in xs[k]
    decreases |xs|
  {
    if xs != [] {
      var n := |xs| - 1;
      var init := xs[..n];
      assert Flatten(xs) == Flatten(init) + xs[n];
      FlattenMember(init, f);
      if f in Flatten(xs) {
        if f in Flatten(init) {
          var k :| 0 <= k < n && f in init[k];
          assert xs[k] == init[k];
        } else {
          assert f in xs[n];
        }
      }
      if k :| 0 <= k < |xs| && f in xs[k] {
        if k < n {
          assert init[k] == xs[k];
        }
      }
    }
  }

  lemma CollectMember(o: Options, ss: seq<Stmt>, ps: seq<Path>, f: Failure)
    ensures f in Collect(o, ss, ps) <==> exists k :: 0 <= k < |ps| && f in NodeFailures(o, ss, ps[k])
  {
    var xs := Reports(o, ss, ps);
    FlattenMember(xs, f);
    assert forall k :: 0 <= k < |ps| ==> xs[k] == NodeFailures(o, ss, ps[k]);
  }

  /** A diagnostic comes from the check of some node, and the check of every node
      contributes all of its diagnostics. */
  lemma DiagnosticsMember(o: Options, ss: seq<Stmt>, f: Failure)
    ensures f in Diagnostics(o, ss) <==> exists p :: ValidPath(ss, p) && f in NodeFailures(o, ss, p)
  {
    CollectMember(o, ss, Order(ss), f);
    OrderSound(ss);
    if p :| ValidPath(ss, p) && f in NodeFailures(o, ss, p) {
      OrderComplete(ss, p);
    }
  }

  // ---------------------------------------------------------------------------
  // What the check of one node reports

  /** The node naming the syntactic parent of `q`. */
  function Parent(q: Path): (r: Path)
    requires |q| > 0
    ensures |r| == |q| - 1 && q == r + [q[|q| - 1]]
  {
    q[..|q| - 1]
  }

  /** `q` is a loop body or an arm of an `if`: a statement the walker checks. */
  predicate CheckedArm(ss: seq<Stmt>, q: Path) {
    && |q| >= 2
    && ValidPath(ss, q)
    && ValidPath(ss, Parent(q))
    && (At(ss, Parent(q)).Iteration? || At(ss, Parent(q)).If?)
  }

  /** The verdict for the checked statement `q`: `_needsBraces` of a loop body, or the
      component of `_ifStatementNeedsBraces` for the arm. */
  predicate ArmVerdict(o: Options, ss: seq<Stmt>, q: Path)
    requires CheckedArm(ss, q)
  {
    var p := Parent(q);
    if At(ss, p).Iteration? then NeedsBraces(o, ss, q, false)
    else if q[|q| - 1] == 0 then IfNeedsBraces(o, ss, p, false).thenArm
    else IfNeedsBraces(o, ss, p, false).elseArm
  }

  /** A statement that braces could wrap: not a block already, and not the `if` of
      an `else if`. */
  predicate MissingKind(ss: seq<Stmt>, q: Path)
    requires CheckedArm(ss, q)
  {
    !At(ss, q).Block? && !(At(ss, Parent(q)).If? && q[|q| - 1] == 1 && At(ss, q).If?)
  }

  /** The then arm of an `if` that has an else arm. */
  predicate ThenBeforeElse(ss: seq<Stmt>, q: Path)
    requires CheckedArm(ss, q)
  {
    At(ss, Parent(q)).If? && q[|q| - 1] == 0 && At(ss, Parent(q)).elseStmt.Some?
  }

  lemma ArmsOfNode(ss: seq<Stmt>, p: Path, j: nat)
    requires ValidPath(ss, p) && j < |Children(At(ss, p))|
    requires At(ss, p).Iteration? || At(ss, p).If?
    ensures CheckedArm(ss, p + [j]) && Parent(p + [j]) == p
    ensures At(ss, p).Iteration? ==> j == 0 && At(ss, p + [j]) == At(ss, p).body
    ensures At(ss, p).If? && j == 0 ==> At(ss, p + [j]) == At(ss, p).thenStmt
    ensures At(ss, p).If? && j == 1 ==> At(ss, p + [j]) == At(ss, p).elseStmt.value
  {
    ChildMeasure(ss, p, j);
    assert Parent(p + [j]) == p;
  }

  lemma LoopFailuresAt(o: Options, ss: seq<Stmt>, p: Path)
    requires ValidPath(ss, p) && At(ss, p).Iteration?
    ensures |LoopFailures(o, ss, p)| <= 1
    ensures forall f :: f in LoopFailures(o, ss, p) ==> f.at == p + [0]
  {
  }

  lemma IfFailuresAt(o: Options, ss: seq<Stmt>, p: Path)
    requires ValidPath(ss, p) && At(ss, p).If?
    ensures forall f :: f in IfFailures(o, ss, p) ==>
              f.at == p + [0] || (At(ss, p).elseStmt.Some? && f.at == p + [1])
    ensures DistinctAt(IfFailures(o, ss, p))
  {
    assert p + [0] != p + [1] by {
      assert (p + [0])[|p|] != (p + [1])[|p|];
    }
  }

  /** A report at an arm of `p` concerns a checked statement whose parent is `p`. */
  lemma ReportsAtArms(ss: seq<Stmt>, p: Path, fs: seq<Failure>)
    requires ValidPath(ss, p) && (At(ss, p).Iteration? || At(ss, p).If?)
    requires forall f :: f in fs ==> f.at == p + [0] || (|Children(At(ss, p))| == 2 && f.at == p + [1])
    ensures forall f :: f in fs ==> |f.at| == |p| + 1 && Parent(f.at) == p && CheckedArm(ss, f.at)
  {
    ArmsOfNode(ss, p, 0);
    if |Children(At(ss, p))| == 2 {
      ArmsOfNode(ss, p, 1);
    }
  }

  /** Every report of the check of `p` concerns one of its arms (or its body), and
      the two reports of an `if` concern different arms. */
  lemma NodeFailuresLocal(o: Options, ss: seq<Stmt>, p: Path)
    ensures forall f :: f in NodeFailures(o, ss, p) ==>
              |f.at| == |p| + 1 && Parent(f.at) == p && CheckedArm(ss, f.at)
    ensures DistinctAt(NodeFailures(o, ss, p))
  {
    if ValidPath(ss, p) && At(ss, p).Iteration? {
      var fs := LoopFailures(o, ss, p);
      assert NodeFailures(o, ss, p) == fs;
      LoopFailuresAt(o, ss, p);
      ReportsAtArms(ss, p, fs);
    } else if ValidPath(ss, p) && At(ss, p).If? {
      var fs := IfFailures(o, ss, p);
      assert NodeFailures(o, ss, p) == fs;
      IfFailuresAt(o, ss, p);
      ReportsAtArms(ss, p, fs);
    }
  }

  /** The check of the parent of `q` reports `q` missing exactly when `q`'s verdict
      holds and `q` is neither a block nor an else-if. */
  lemma NodeMissing(o: Options, ss: seq<Stmt>, q: Path)
    requires CheckedArm(ss, q)
    ensures MissingBraces(q) in NodeFailures(o, ss, Parent(q)) <==> ArmVerdict(o, ss, q) && MissingKind(ss, q)
  {
    var p := Parent(q);
    var j := q[|q| - 1];
    ChildPath(ss, p, j);
    ArmsOfNode(ss, p, j);
    if At(ss, p).Iteration? {
      LoopMissing(o, ss, p);
    } else if j == 0 {
      ThenMissing(o, ss, p);
    } else {
      ElseMissing(o, ss, p);
    }
  }

  lemma LoopMissing(o: Options, ss: seq<Stmt>, p: Path)
    requires ValidPath(ss, p) && At(ss, p).Iteration?
    ensures CheckedArm(ss, p + [0]) && Parent(p + [0]) == p
    ensures MissingBraces(p + [0]) in NodeFailures(o, ss, p) <==>
            ArmVerdict(o, ss, p + [0]) && MissingKind(ss, p + [0])
  {
    ArmsOfNode(ss, p, 0);
    assert NodeFailures(o, ss, p) == LoopFailures(o, ss, p);
  }

  lemma ThenMissing(o: Options, ss: seq<Stmt>, p: Path)
    requires ValidPath(ss, p) && At(ss, p).If?
    ensures CheckedArm(ss, p + [0]) && Parent(p + [0]) == p
    ensures MissingBraces(p + [0]) in NodeFailures(o, ss, p) <==>
            ArmVerdict(o, ss, p + [0]) && MissingKind(ss, p + [0])
  {
    ArmsOfNode(ss, p, 0);
    if At(ss, p).elseStmt.Some? {
      assert p + [0] != p + [1] by {
        assert (p + [0])[|p|] != (p + [1])[|p|];
      }
    }
    assert NodeFailures(o, ss, p) == IfFailures(o, ss, p);
  }

  lemma ElseMissing(o: Options, ss: seq<Stmt>, p: Path)
    requires ValidPath(ss, p) && At(ss, p).If? && At(ss, p).elseStmt.Some?
    ensures CheckedArm(ss, p + [1]) && Parent(p + [1]) == p
    ensures MissingBraces(p + [1]) in NodeFailures(o, ss, p) <==>
            ArmVerdict(o, ss, p + [1]) && MissingKind(ss, p + [1])
  {
    ArmsOfNode(ss, p, 1);
    assert p + [0] != p + [1] by {
      assert (p + [0])[|p|] != (p + [1])[|p|];
    }
    assert NodeFailures(o, ss, p) == IfFailures(o, ss, p);
  }

  /** The report `_reportUnnecessaryThen` builds for a then arm followed by `else`,
      and the one `_reportUnnecessary` builds for any other block `q`. */
  function UnnecessaryReport(ss: seq<Stmt>, q: Path): Failure
    requires CheckedArm(ss, q) && At(ss, q).Block?
  {
    if ThenBeforeElse(ss, q)
    then PlanUnnecessaryThen(At(ss, q).span, Some(At(ss, Parent(q)).elseStart), q)
    else PlanUnnecessary(At(ss, q).span, q)
  }

  /** The check of the parent of `q` reports `q`'s braces unnecessary exactly when
      `q` is a block whose verdict is false, and then with the report built for
      that kind of arm. */
  lemma NodeUnnecessary(o: Options, ss: seq<Stmt>, q: Path)
    requires CheckedArm(ss, q)
    ensures forall f :: f in NodeFailures(o, ss, Parent(q)) && f.UnnecessaryBraces? && f.at == q ==>
              !ArmVerdict(o, ss, q) && At(ss, q).Block? && f == UnnecessaryReport(ss, q)
    ensures !ArmVerdict(o, ss, q) && At(ss, q).Block? ==> UnnecessaryReport(ss, q) in NodeFailures(o, ss, Parent(q))
  {
    var p := Parent(q);
    var j := q[|q| - 1];
    ChildPath(ss, p, j);
    ArmsOfNode(ss, p, j);
    if At(ss, p).Iteration? {
      LoopUnnecessary(o, ss, p);
    } else if j == 0 {
      ThenUnnecessary(o, ss, p);
    } else {
      ElseUnnecessary(o, ss, p);
    }
  }

  lemma LoopUnnecessary(o: Options, ss: seq<Stmt>, p: Path)
    requires ValidPath(ss, p) && At(ss, p).Iteration?
    ensures CheckedArm(ss, p + [0]) && Parent(p + [0]) == p
    ensures forall f :: f in NodeFailures(o, ss, p) && f.UnnecessaryBraces? && f.at == p + [0] ==>
              !ArmVerdict(o, ss, p + [0]) && At(ss, p + [0]).Block? && f == UnnecessaryReport(ss, p + [0])
    ensures !ArmVerdict(o, ss, p + [0]) && At(ss, p + [0]).Block? ==>
              UnnecessaryReport(ss, p + [0]) in NodeFailures(o, ss, p)
  {
    ArmsOfNode(ss, p, 0);
    assert NodeFailures(o, ss, p) == LoopFailures(o, ss, p);
  }

  lemma ThenUnnecessary(o: Options, ss: seq<Stmt>, p: Path)
    requires ValidPath(ss, p) && At(ss, p).If?
    ensures CheckedArm(ss, p + [0]) && Parent(p + [0]) == p
    ensures forall f :: f in NodeFailures(o, ss, p) && f.UnnecessaryBraces? && f.at == p + [0] ==>
              !ArmVerdict(o, ss, p + [0]) && At(ss, p + [0]).Block? && f == UnnecessaryReport(ss, p + [0])
    ensures !ArmVerdict(o, ss, p + [0]) && At(ss, p + [0]).Block? ==>
              UnnecessaryReport(ss, p + [0]) in NodeFailures(o, ss, p)
  {
    ArmsOfNode(ss, p, 0);
    if At(ss, p).elseStmt.Some? {
      ArmsOfNode(ss, p, 1);
      assert p + [0] != p + [1] by {
        assert (p + [0])[|p|] != (p + [1])[|p|];
      }
    }
    assert NodeFailures(o, ss, p) == IfFailures(o, ss, p);
  }

  lemma ElseUnnecessary(o: Options, ss: seq<Stmt>, p: Path)
    requires ValidPath(ss, p) && At(ss, p).If? && At(ss, p).elseStmt.Some?
    ensures CheckedArm(ss, p + [1]) && Parent(p + [1]) == p
    ensures forall f :: f in NodeFailures(o, ss, p) && f.UnnecessaryBraces? && f.at == p + [1] ==>
              !ArmVerdict(o, ss, p + [1]) && At(ss, p + [1]).Block? && f == UnnecessaryReport(ss, p + [1])
    ensures !ArmVerdict(o, ss, p + [1]) && At(ss, p + [1]).Block? ==>
              UnnecessaryReport(ss, p + [1]) in NodeFailures(o, ss, p)
  {
    ArmsOfNode(ss, p, 0);
    ArmsOfNode(ss, p, 1);
    assert p + [0] != p + [1] by {
      assert (p + [0])[|p|] != (p + [1])[|p|];
    }
    assert NodeFailures(o, ss, p) == IfFailures(o, ss, p);
  }

  // ---------------------------------------------------------------------------
  // What a run reports

  lemma DiagnosticsLocal(o: Options, ss: seq<Stmt>, f: Failure)
    requires f in Diagnostics(o, ss)
    ensures CheckedArm(ss, f.at) && f in NodeFailures(o, ss, Parent(f.at))
  {
    DiagnosticsMember(o, ss, f);
    var p :| ValidPath(ss, p) && f in NodeFailures(o, ss, p);
    NodeFailuresLocal(o, ss, p);
  }

  lemma ArmParentVisited(o: Options, ss: seq<Stmt>, q: Path, f: Failure)
    requires CheckedArm(ss, q) && f in NodeFailures(o, ss, Parent(q))
    ensures f in Diagnostics(o, ss)
  {
    DiagnosticsMember(o, ss, f);
  }

  /** MissingBraces is reported for `q` exactly when `q` is a loop body or an arm
      whose verdict is true, and it is neither a block nor the `if` of an
      `else if`. */
  lemma MissingIff(o: Options, ss: seq<Stmt>, q: Path)
    ensures MissingBraces(q) in Diagnostics(o, ss) <==>
            CheckedArm(ss, q) && ArmVerdict(o, ss, q) && MissingKind(ss, q)
  {
    if MissingBraces(q) in Diagnostics(o, ss) {
      DiagnosticsLocal(o, ss, MissingBraces(q));
      NodeMissing(o, ss, q);
    }
    if CheckedArm(ss, q) && ArmVerdict(o, ss, q) && MissingKind(ss, q) {
      NodeMissing(o, ss, q);
      ArmParentVisited(o, ss, q, MissingBraces(q));
    }
  }

  /** An else arm that is itself an `if` is never reported missing, whatever its
      verdict. */
  lemma ElseIfNeverMissing(o: Options, ss: seq<Stmt>, p: Path)
    requires ValidPath(ss, p) && At(ss, p).If? && At(ss, p).elseStmt.Some? && At(ss, p).elseStmt.value.If?
    ensures MissingBraces(p + [1]) !in Diagnostics(o, ss)
  {
    ArmsOfNode(ss, p, 1);
    MissingIff(o, ss, p + [1]);
  }

  /** UnnecessaryBraces is reported for `q` exactly when `q` is a block that is a
      loop body or an arm, and its verdict is false. */
  lemma UnnecessaryIff(o: Options, ss: seq<Stmt>, q: Path)
    ensures (exists f :: f in Diagnostics(o, ss) && f.UnnecessaryBraces? && f.at == q) <==>
            CheckedArm(ss, q) && !ArmVerdict(o, ss, q) && At(ss, q).Block?
  {
    if f :| f in Diagnostics(o, ss) && f.UnnecessaryBraces? && f.at == q {
      DiagnosticsLocal(o, ss, f);
      NodeUnnecessary(o, ss, q);
    }
    if CheckedArm(ss, q) && !ArmVerdict(o, ss, q) && At(ss, q).Block? {
      NodeUnnecessary(o, ss, q);
      ArmParentVisited(o, ss, q, UnnecessaryReport(ss, q));
    }
  }

  /** Every unnecessary-braces report removes exactly its block's braces: the failure
      starts at the `{` and ends with the block, the first deletion runs from the
      block's start to its statements, and the second from the end of the
      statements to the end of the block, or, for a then arm followed by `else`,
      from the `}` to the `else` keyword. */
  lemma UnnecessaryFix(o: Options, ss: seq<Stmt>, f: Failure)
    requires f in Diagnostics(o, ss) && f.UnnecessaryBraces?
    ensures CheckedArm(ss, f.at) && At(ss, f.at).Block? && !ArmVerdict(o, ss, f.at)
    ensures |f.fix| == 2
    ensures var b := At(ss, f.at).span;
            && f.from == b.stmtsPos - 1 && f.to == b.end
            && f.fix[0] == DeleteFromTo(b.pos, b.stmtsPos)
            && f.fix[1] == if ThenBeforeElse(ss, f.at)
                           then DeleteFromTo(b.end - 1, At(ss, Parent(f.at)).elseStart)
                           else DeleteFromTo(b.stmtsEnd, b.end)
  {
    DiagnosticsLocal(o, ss, f);
    NodeUnnecessary(o, ss, f.at);
  }

  /** On any text holding the block, the fix of an unnecessary-braces report leaves
      the block's statements (and, before an `else`, the trivia up to the `}`)
      with the braces gone. */
  lemma UnnecessaryFixSound(o: Options, ss: seq<Stmt>, f: Failure, text: seq<char>)
    requires f in Diagnostics(o, ss) && f.UnnecessaryBraces?
    requires CheckedArm(ss, f.at) && At(ss, f.at).Block?
    requires var b := At(ss, f.at).span;
             && WellFormedSpan(b) && 0 <= b.pos
             && (if ThenBeforeElse(ss, f.at) then b.end <= At(ss, Parent(f.at)).elseStart <= |text|
                 else b.end <= |text|)
    ensures SparesStatements(f, At(ss, f.at).span)
    ensures Ordered(f.fix, |text|)
    ensures var b := At(ss, f.at).span;
            Apply(text, f.fix) ==
              if ThenBeforeElse(ss, f.at)
              then text[..b.pos] + text[b.stmtsPos..b.end - 1] + text[At(ss, Parent(f.at)).elseStart..]
              else text[..b.pos] + text[b.stmtsPos..b.stmtsEnd] + text[b.end..]
  {
    UnnecessaryFix(o, ss, f);
    assert f.fix == [f.fix[0], f.fix[1]];
    ApplyTwo(text, f.fix[0], f.fix[1]);
  }

  /** The reports in `fs` concern pairwise different statements. */
  predicate DistinctAt(fs: seq<Failure>) {
    forall i, j :: 0 <= i < j < |fs| ==> fs[i].at != fs[j].at
  }

  lemma ConcatDistinct(front: seq<Failure>, last: seq<Failure>)
    requires DistinctAt(front) && DistinctAt(last)
    requires forall f, g :: f in front && g in last ==> f.at != g.at
    ensures DistinctAt(front + last)
  {
    var all := front + last;
    forall i, j | 0 <= i < j < |all|
      ensures all[i].at != all[j].at
    {
      if j < |front| {
        assert all[i] == front[i] && all[j] == front[j];
      } else if i >= |front| {
        assert all[i] == last[i - |front|] && all[j] == last[j - |front|];
      } else {
        assert all[i] in front && all[j] in last;
      }
    }
  }

  /** A report of an earlier node and one of a later node concern different
      statements: each concerns a child of its own node. */
  lemma CollectApart(o: Options, ss: seq<Stmt>, ps: seq<Path>, p: Path)
    requires p !in ps
    ensures forall f, g :: f in Collect(o, ss, ps) && g in NodeFailures(o, ss, p) ==> f.at != g.at
  {
    NodeFailuresLocal(o, ss, p);
    forall f, g | f in Collect(o, ss, ps) && g in NodeFailures(o, ss, p)
      ensures f.at != g.at
    {
      CollectMember(o, ss, ps, f);
      var k :| 0 <= k < |ps| && f in NodeFailures(o, ss, ps[k]);
      NodeFailuresLocal(o, ss, ps[k]);
    }
  }

  lemma {:induction false} CollectDistinct(o: Options, ss: seq<Stmt>, ps: seq<Path>)
    requires forall i, j :: 0 <= i < j < |ps| ==> ps[i] != ps[j]
    ensures DistinctAt(Collect(o, ss, ps))
    decreases |ps|
  {
    if ps != [] {
      var n := |ps| - 1;
      var init := ps[..n];
      CollectDistinct(o, ss, init);
      CollectAppend(o, ss, init, [ps[n]]);
      assert init + [ps[n]] == ps;
      CollectOne(o, ss, ps[n]);
      NodeFailuresLocal(o, ss, ps[n]);
      CollectApart(o, ss, init, ps[n]);
      ConcatDistinct(Collect(o, ss, init), NodeFailures(o, ss, ps[n]));
    }
  }

  /** No statement gets two diagnostics in one run. */
  lemma DiagnosticsDistinct(o: Options, ss: seq<Stmt>)
    ensures DistinctAt(Diagnostics(o, ss))
  {
    OrderDistinct(ss);
    CollectDistinct(o, ss, Order(ss));
  }
}
