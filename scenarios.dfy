module Scenarios {
  import opened Syntax
  import opened ChainResolver
  import opened BraceAnalyzer
  import opened EditPlanner
  import opened TreeWalker
  import opened WalkerProperties

  const Defaults := Options(false, false, false, false)
  const Span := BlockSpan(10, 11, 14, 16)
  const X := Other([])

  lemma OrderOne(s: Stmt)
    ensures Order([s]) == [[0]] + Prefixed([0], Order(Children(s)))
  {
    assert OrderUpTo([s], 0) == [];
    OrderUpToStep([s], 0);
    PrefixedAppend([0], [[]], Order(Children(s)));
    assert [0] + [] == [0];
    assert Prefixed([0], [[]]) == [[0]];
  }

  lemma OrderTwo(s: Stmt, t: Stmt)
    ensures Order([s, t]) == [[0]] + Prefixed([0], Order(Children(s))) + [[1]] + Prefixed([1], Order(Children(t)))
  {
    var ss := [s, t];
    assert OrderUpTo(ss, 1) == [[0]] + Prefixed([0], Order(Children(s))) by {
      assert OrderUpTo(ss, 0) == [];
      OrderUpToStep(ss, 0);
      PrefixedAppend([0], [[]], Order(Children(s)));
      assert [0] + [] == [0];
      assert Prefixed([0], [[]]) == [[0]];
    }
    assert OrderUpTo(ss, 2) == OrderUpTo(ss, 1) + [[1]] + Prefixed([1], Order(Children(t))) by {
      OrderUpToStep(ss, 1);
      PrefixedAppend([1], [[]], Order(Children(t)));
      assert [1] + [] == [1];
      assert Prefixed([1], [[]]) == [[1]];
    }
  }

  lemma FlattenCons(x: seq<Failure>, xs: seq<seq<Failure>>)
    ensures Flatten([x] + xs) == x + Flatten(xs)
  {
    FlattenAppend([x], xs);
    assert [x][..0] == [];
  }

  lemma Flatten2(x: seq<Failure>, y: seq<Failure>)
    ensures Flatten([x, y]) == x + y
  {
    FlattenCons(x, [y]);
    FlattenCons(y, []);
    assert [x] + [y] == [x, y] && [y] + [] == [y];
  }

  /** The diagnostics of the nodes `ps`, given what the check of each reports. */
  lemma CollectIs(o: Options, ss: seq<Stmt>, ps: seq<Path>, rs: seq<seq<Failure>>)
    requires |rs| == |ps| && forall k :: 0 <= k < |ps| ==> NodeFailures(o, ss, ps[k]) == rs[k]
    ensures Collect(o, ss, ps) == Flatten(rs)
  {
    assert Reports(o, ss, ps) == rs;
  }

  lemma Flatten4(x: seq<Failure>, y: seq<Failure>, z: seq<Failure>, w: seq<Failure>)
    ensures Flatten([x, y, z, w]) == x + y + z + w
  {
    assert [x, y, z, w] == [x] + ([y] + [z, w]);
    FlattenCons(x, [y] + [z, w]);
    FlattenCons(y, [z, w]);
    Flatten2(z, w);
  }

  lemma Flatten5(x: seq<Failure>, y: seq<Failure>, z: seq<Failure>, w: seq<Failure>, v: seq<Failure>)
    ensures Flatten([x, y, z, w, v]) == x + y + z + w + v
  {
    assert [x, y, z, w, v] == [x] + [y, z, w, v];
    FlattenCons(x, [y, z, w, v]);
    Flatten4(y, z, w, v);
  }

  // --- `if (c) x;` with every option off: nothing to report.

  const Bare := [If(X, None, 0)]

  lemma BareOrder()
    ensures Order(Bare) == [[0], [0, 0]]
  {
    OrderOne(Bare[0]);
    OrderOne(X);
    assert [0] + [0] == [0, 0];
    assert Prefixed([0], [[0]]) == [[0, 0]];
  }

  lemma BareNodes()
    ensures NodeFailures(Defaults, Bare, [0]) == [] && NodeFailures(Defaults, Bare, [0, 0]) == []
  {
    assert [0] + [0] == [0, 0];
    assert ValidPath(Bare, [0, 0]) && At(Bare, [0, 0]) == X;
    assert IfNeedsBraces(Defaults, Bare, [0], false) == Verdict(false, false);
  }

  lemma DefaultBare()
    ensures Diagnostics(Defaults, Bare) == []
  {
    BareOrder();
    BareNodes();
    CollectIs(Defaults, Bare, [[0], [0, 0]], [[], []]);
    Flatten2([], []);
  }

  // --- `if (c) { x; }` with every option off: the braces are unnecessary, and
  // the fix deletes the `{` and the `}`.

  const OneThen := [If(Block([X], Span), None, 0)]

  lemma OneThenOrder()
    ensures Order(OneThen) == [[0], [0, 0], [0, 0, 0]]
  {
    OrderOne(OneThen[0]);
    OrderOne(Block([X], Span));
    OrderOne(X);
    assert Prefixed([0], []) == [];
    assert [0] + [0] == [0, 0] && [0] + [0, 0] == [0, 0, 0];
    assert Prefixed([0], [[0]]) == [[0, 0]];
    assert Prefixed([0], [[0], [0, 0]]) == [[0, 0], [0, 0, 0]];
  }

  lemma OneThenNodes()
    ensures NodeFailures(Defaults, OneThen, [0]) == [PlanUnnecessaryThen(Span, None, [0, 0])]
    ensures NodeFailures(Defaults, OneThen, [0, 0]) == [] && NodeFailures(Defaults, OneThen, [0, 0, 0]) == []
  {
    var ss := OneThen;
    assert ValidPath(ss, [0, 0, 0]) && At(ss, [0, 0, 0]) == X;
    assert At(ss, [0, 0]) == Block([X], Span) && [0, 0] + [0] == [0, 0, 0] && [0] + [0] == [0, 0];
    assert NeedsBraces(Defaults, ss, [0, 0], false) == false;
    assert IfNeedsBraces(Defaults, ss, [0], false) == Verdict(false, false);
  }

  lemma DefaultBlock()
    ensures Diagnostics(Defaults, OneThen) ==
            [UnnecessaryBraces([0, 0], 10, 16, [DeleteFromTo(10, 11), DeleteFromTo(14, 16)])]
  {
    OneThenOrder();
    OneThenNodes();
    var f := PlanUnnecessaryThen(Span, None, [0, 0]);
    CollectIs(Defaults, OneThen, [[0], [0, 0], [0, 0, 0]], [[f], [], []]);
    FlattenCons([f], [[], []]);
    Flatten2([], []);
    assert [[f]] + [[], []] == [[f], [], []];
  }

  // --- `if (c) x; else y;` with `else`: both arms must be braced.

  const ElseOnly := Options(true, false, false, false)
  const BareElse := [If(X, Some(X), 20)]

  lemma BareElseOrder()
    ensures Order(BareElse) == [[0], [0, 0], [0, 1]]
  {
    OrderOne(BareElse[0]);
    OrderTwo(X, X);
    assert Prefixed([0], []) == [] && Prefixed([1], []) == [];
    assert [0] + [0] == [0, 0] && [0] + [1] == [0, 1];
    assert Prefixed([0], [[0], [1]]) == [[0, 0], [0, 1]];
  }

  lemma BareElseNodes()
    ensures NodeFailures(ElseOnly, BareElse, [0]) == [MissingBraces([0, 0]), MissingBraces([0, 1])]
    ensures NodeFailures(ElseOnly, BareElse, [0, 0]) == [] && NodeFailures(ElseOnly, BareElse, [0, 1]) == []
  {
    var ss := BareElse;
    assert [0] + [0] == [0, 0] && [0] + [1] == [0, 1];
    assert ValidPath(ss, [0, 1]) && At(ss, [0, 1]) == X && At(ss, [0, 0]) == X;
    assert IfNeedsBraces(ElseOnly, ss, [0], false) == Verdict(true, true);
  }

  lemma ElseOptionBothArms()
    ensures Diagnostics(ElseOnly, BareElse) == [MissingBraces([0, 0]), MissingBraces([0, 1])]
  {
    BareElseOrder();
    BareElseNodes();
    var fs := [MissingBraces([0, 0]), MissingBraces([0, 1])];
    CollectIs(ElseOnly, BareElse, [[0], [0, 0], [0, 1]], [fs, [], []]);
    FlattenCons(fs, [[], []]);
    Flatten2([], []);
    assert [fs] + [[], []] == [fs, [], []];
  }

  // --- `if (c) { x; y; } else z;`

  const TwoThen := [If(Block([X, X], Span), Some(X), 20)]

  lemma TwoThenOrder()
    ensures Order(TwoThen) == [[0], [0, 0], [0, 0, 0], [0, 0, 1], [0, 1]]
  {
    OrderOne(TwoThen[0]);
    OrderTwo(Block([X, X], Span), X);
    OrderTwo(X, X);
    assert Prefixed([0], []) == [] && Prefixed([1], []) == [];
    assert [0] + [0] == [0, 0] && [0] + [1] == [0, 1] && [0] + [0, 0] == [0, 0, 0] && [0] + [0, 1] == [0, 0, 1];
    assert Prefixed([0], [[0], [1]]) == [[0, 0], [0, 1]];
    assert Order([Block([X, X], Span), X]) == [[0], [0, 0], [0, 1], [1]];
    assert Prefixed([0], [[0], [0, 0], [0, 1], [1]]) == [[0, 0], [0, 0, 0], [0, 0, 1], [0, 1]];
  }

  lemma TwoThenNodes(o: Options)
    requires !o.braceElse
    ensures NodeFailures(o, TwoThen, [0, 0]) == [] && NodeFailures(o, TwoThen, [0, 1]) == []
    ensures NodeFailures(o, TwoThen, [0, 0, 0]) == [] && NodeFailures(o, TwoThen, [0, 0, 1]) == []
    ensures var v := IfNeedsBraces(o, TwoThen, [0], false);
            NodeFailures(o, TwoThen, [0]) ==
              (if v.thenArm then [] else [PlanUnnecessaryThen(Span, Some(20), [0, 0])])
              + (if v.elseArm then [MissingBraces([0, 1])] else [])
  {
    var ss := TwoThen;
    assert [0] + [0] == [0, 0] && [0] + [1] == [0, 1];
    assert At(ss, [0]) == If(Block([X, X], Span), Some(X), 20);
    assert ValidPath(ss, [0, 1]) && At(ss, [0, 1]) == X && At(ss, [0, 0]) == Block([X, X], Span);
    assert ValidPath(ss, [0, 0, 1]) && At(ss, [0, 0, 0]) == X && At(ss, [0, 0, 1]) == X;
  }

  lemma TwoThenCollect(o: Options, fs: seq<Failure>)
    requires !o.braceElse && NodeFailures(o, TwoThen, [0]) == fs
    ensures Diagnostics(o, TwoThen) == fs
  {
    TwoThenOrder();
    TwoThenNodes(o);
    CollectIs(o, TwoThen, [[0], [0, 0], [0, 0, 0], [0, 0, 1], [0, 1]], [fs, [], [], [], []]);
    Flatten5(fs, [], [], [], []);
  }

  /** With `consistent`, the two-statement then block forces braces on the else
      arm. */
  lemma ConsistentForcesElse()
    ensures Diagnostics(Options(false, true, false, false), TwoThen) == [MissingBraces([0, 1])]
  {
    var o := Options(false, true, false, false);
    TwoThenNodes(o);
    assert [0] + [0] == [0, 0];
    assert At(TwoThen, [0, 0]) == Block([X, X], Span);
    assert NeedsBraces(o, TwoThen, [0, 0], false);
    assert IfNeedsBraces(o, TwoThen, [0], false) == Verdict(true, true);
    TwoThenCollect(o, [MissingBraces([0, 1])]);
  }

  /** With every option off, the then-verdict of an `if` with an else arm is the
      dangling-else test alone, so the braces of the two-statement then block are
      reported unnecessary. */
  lemma DefaultTwoStatementThen()
    ensures Diagnostics(Defaults, TwoThen) ==
            [UnnecessaryBraces([0, 0], 10, 16, [DeleteFromTo(10, 11), DeleteFromTo(15, 20)])]
  {
    TwoThenNodes(Defaults);
    assert [0] + [1] == [0, 1];
    assert At(TwoThen, [0]) == If(Block([X, X], Span), Some(X), 20);
    assert At(TwoThen, [0, 1]) == X;
    assert !DanglingThen(Block([X, X], Span));
    assert NeedsBraces(Defaults, TwoThen, [0, 1], true) == false;
    assert IfNeedsBraces(Defaults, TwoThen, [0], false) == Verdict(false, false);
    TwoThenCollect(Defaults, [PlanUnnecessaryThen(Span, Some(20), [0, 0])]);
  }

  // --- The dangling else. `Dangling` is the tree `If(If(x), else y)`: a then arm that
  // is an `if` without else, beside an else arm. No parse of source text yields it,
  // since an unbraced `else` binds to the nearest `if`; it can only arise in a tree
  // built or rewritten directly. `if (c) if (d) x; else y;` parses as `RealDangling`,
  // and `if (c) { if (d) x; } else y;` as `DanglingBraced`.

  const Dangling := [If(If(X, None, 0), Some(X), 20)]

  lemma DanglingOrder()
    ensures Order(Dangling) == [[0], [0, 0], [0, 0, 0], [0, 1]]
  {
    OrderOne(Dangling[0]);
    OrderTwo(If(X, None, 0), X);
    OrderOne(X);
    assert Prefixed([0], []) == [] && Prefixed([1], []) == [];
    assert [0] + [0] == [0, 0] && [0] + [1] == [0, 1] && [0] + [0, 0] == [0, 0, 0];
    assert Prefixed([0], [[0]]) == [[0, 0]];
    assert Order([If(X, None, 0), X]) == [[0], [0, 0], [1]];
    assert Prefixed([0], [[0], [0, 0], [1]]) == [[0, 0], [0, 0, 0], [0, 1]];
  }

  lemma DanglingNodes()
    ensures NodeFailures(Defaults, Dangling, [0]) == [MissingBraces([0, 0])]
    ensures NodeFailures(Defaults, Dangling, [0, 0]) == []
    ensures NodeFailures(Defaults, Dangling, [0, 0, 0]) == [] && NodeFailures(Defaults, Dangling, [0, 1]) == []
  {
    var ss := Dangling;
    assert [0] + [0] == [0, 0] && [0] + [1] == [0, 1] && [0, 0] + [0] == [0, 0, 0];
    assert At(ss, [0]) == If(If(X, None, 0), Some(X), 20);
    assert ValidPath(ss, [0, 0, 0]) && At(ss, [0, 0, 0]) == X && At(ss, [0, 1]) == X;
    assert At(ss, [0, 0]) == If(X, None, 0);
    assert IfNeedsBraces(Defaults, ss, [0], false) == Verdict(true, false);
    assert IfNeedsBraces(Defaults, ss, [0, 0], false) == Verdict(false, false);
  }

  /** On the tree `If(If(x), else y)` the guard reports the bare nested `if` missing
      braces, whatever the options say about plain statements. */
  lemma DanglingElseBare()
    ensures Diagnostics(Defaults, Dangling) == [MissingBraces([0, 0])]
  {
    DanglingOrder();
    DanglingNodes();
    CollectIs(Defaults, Dangling, [[0], [0, 0], [0, 0, 0], [0, 1]], [[MissingBraces([0, 0])], [], [], []]);
    Flatten4([MissingBraces([0, 0])], [], [], []);
  }

  const RealDangling := [If(If(X, Some(X), 20), None, 0)]

  lemma RealDanglingOrder()
    ensures Order(RealDangling) == [[0], [0, 0], [0, 0, 0], [0, 0, 1]]
  {
    OrderOne(RealDangling[0]);
    OrderOne(If(X, Some(X), 20));
    OrderTwo(X, X);
    assert Prefixed([0], []) == [] && Prefixed([1], []) == [];
    assert [0] + [0] == [0, 0] && [0] + [1] == [0, 1] && [0] + [0, 0] == [0, 0, 0] && [0] + [0, 1] == [0, 0, 1];
    assert Order([X, X]) == [[0], [1]];
    assert Prefixed([0], [[0], [1]]) == [[0, 0], [0, 1]];
    assert Order([If(X, Some(X), 20)]) == [[0], [0, 0], [0, 1]];
    assert Prefixed([0], [[0], [0, 0], [0, 1]]) == [[0, 0], [0, 0, 0], [0, 0, 1]];
  }

  lemma RealDanglingNodes()
    ensures NodeFailures(Defaults, RealDangling, [0]) == [] && NodeFailures(Defaults, RealDangling, [0, 0]) == []
    ensures NodeFailures(Defaults, RealDangling, [0, 0, 0]) == [] && NodeFailures(Defaults, RealDangling, [0, 0, 1]) == []
  {
    var ss := RealDangling;
    assert [0] + [0] == [0, 0] && [0, 0] + [0] == [0, 0, 0] && [0, 0] + [1] == [0, 0, 1];
    assert At(ss, [0]) == If(If(X, Some(X), 20), None, 0) && At(ss, [0, 0]) == If(X, Some(X), 20);
    assert ValidPath(ss, [0, 0, 0]) && At(ss, [0, 0, 0]) == X;
    assert ValidPath(ss, [0, 0, 1]) && At(ss, [0, 0, 1]) == X;
    assert IfNeedsBraces(Defaults, ss, [0], false) == Verdict(false, false);
    assert IfNeedsBraces(Defaults, ss, [0, 0], false) == Verdict(false, false);
  }

  /** `if (c) if (d) x; else y;` as parsed, the `else` belonging to the inner `if`:
      with every option off nothing is reported. The outer then arm needs braces
      only through `braced-child`, and the inner `if`'s then arm is no `if`. */
  lemma DanglingElseParsed()
    ensures Diagnostics(Defaults, RealDangling) == []
  {
    RealDanglingOrder();
    RealDanglingNodes();
    CollectIs(Defaults, RealDangling, [[0], [0, 0], [0, 0, 0], [0, 0, 1]], [[], [], [], []]);
    Flatten4([], [], [], []);
  }

  const DanglingBraced := [If(Block([If(X, None, 0)], Span), Some(X), 20)]

  lemma DanglingBracedOrder()
    ensures Order(DanglingBraced) == [[0], [0, 0], [0, 0, 0], [0, 0, 0, 0], [0, 1]]
  {
    OrderOne(DanglingBraced[0]);
    OrderTwo(Block([If(X, None, 0)], Span), X);
    OrderOne(If(X, None, 0));
    OrderOne(X);
    assert Prefixed([0], []) == [] && Prefixed([1], []) == [];
    assert [0] + [0] == [0, 0] && [0] + [1] == [0, 1] && [0] + [0, 0] == [0, 0, 0] && [0] + [0, 0, 0] == [0, 0, 0, 0];
    assert Prefixed([0], [[0]]) == [[0, 0]];
    assert Order([If(X, None, 0)]) == [[0], [0, 0]];
    assert Prefixed([0], [[0], [0, 0]]) == [[0, 0], [0, 0, 0]];
    assert Order([Block([If(X, None, 0)], Span), X]) == [[0], [0, 0], [0, 0, 0], [1]];
    assert Prefixed([0], [[0], [0, 0], [0, 0, 0], [1]]) == [[0, 0], [0, 0, 0], [0, 0, 0, 0], [0, 1]];
  }

  lemma DanglingBracedNodes()
    ensures NodeFailures(Defaults, DanglingBraced, [0]) == [] && NodeFailures(Defaults, DanglingBraced, [0, 0]) == []
    ensures NodeFailures(Defaults, DanglingBraced, [0, 0, 0]) == []
    ensures NodeFailures(Defaults, DanglingBraced, [0, 0, 0, 0]) == [] && NodeFailures(Defaults, DanglingBraced, [0, 1]) == []
  {
    var ss := DanglingBraced;
    assert [0] + [0] == [0, 0] && [0] + [1] == [0, 1] && [0, 0] + [0] == [0, 0, 0] && [0, 0, 0] + [0] == [0, 0, 0, 0];
    assert At(ss, [0]) == If(Block([If(X, None, 0)], Span), Some(X), 20);
    assert ValidPath(ss, [0, 0, 0, 0]) && At(ss, [0, 0, 0, 0]) == X && At(ss, [0, 1]) == X;
    assert At(ss, [0, 0]) == Block([If(X, None, 0)], Span) && At(ss, [0, 0, 0]) == If(X, None, 0);
    assert IfNeedsBraces(Defaults, ss, [0], false) == Verdict(true, false);
    assert IfNeedsBraces(Defaults, ss, [0, 0, 0], false) == Verdict(false, false);
  }

  /** Already braced, the nested `if` gets nothing: its braces are needed, and are
      not reported unnecessary. */
  lemma DanglingElseBraced()
    ensures Diagnostics(Defaults, DanglingBraced) == []
  {
    DanglingBracedOrder();
    DanglingBracedNodes();
    CollectIs(Defaults, DanglingBraced, [[0], [0, 0], [0, 0, 0], [0, 0, 0, 0], [0, 1]], [[], [], [], [], []]);
    Flatten5([], [], [], [], []);
  }

  // --- Else-if chains with `else`

  const Chain := [If(X, Some(If(X, Some(X), 30)), 20)]

  lemma ChainElseOrder()
    ensures Order([X, If(X, Some(X), 30)]) == [[0], [1], [1, 0], [1, 1]]
  {
    OrderTwo(X, If(X, Some(X), 30));
    OrderTwo(X, X);
    assert Prefixed([0], []) == [] && Prefixed([1], []) == [];
    assert [1] + [0] == [1, 0] && [1] + [1] == [1, 1];
    assert Order([X, X]) == [[0], [1]];
    assert Prefixed([1], [[0], [1]]) == [[1, 0], [1, 1]];
  }

  lemma ChainOrder()
    ensures Order(Chain) == [[0], [0, 0], [0, 1], [0, 1, 0], [0, 1, 1]]
  {
    OrderOne(Chain[0]);
    ChainElseOrder();
    assert [0] + [0] == [0, 0] && [0] + [1] == [0, 1] && [0] + [1, 0] == [0, 1, 0] && [0] + [1, 1] == [0, 1, 1];
    assert Prefixed([0], [[0], [1], [1, 0], [1, 1]]) == [[0, 0], [0, 1], [0, 1, 0], [0, 1, 1]];
  }

  lemma ChainNodes()
    ensures NodeFailures(ElseOnly, Chain, [0]) == [MissingBraces([0, 0])]
    ensures NodeFailures(ElseOnly, Chain, [0, 1]) == [MissingBraces([0, 1, 0]), MissingBraces([0, 1, 1])]
    ensures NodeFailures(ElseOnly, Chain, [0, 0]) == []
    ensures NodeFailures(ElseOnly, Chain, [0, 1, 0]) == [] && NodeFailures(ElseOnly, Chain, [0, 1, 1]) == []
  {
    var ss := Chain;
    assert [0] + [0] == [0, 0] && [0] + [1] == [0, 1] && [0, 1] + [0] == [0, 1, 0] && [0, 1] + [1] == [0, 1, 1];
    assert At(ss, [0]) == If(X, Some(If(X, Some(X), 30)), 20);
    assert At(ss, [0, 1]) == If(X, Some(X), 30) && At(ss, [0, 0]) == X;
    assert ValidPath(ss, [0, 1, 1]) && At(ss, [0, 1, 0]) == X && At(ss, [0, 1, 1]) == X;
    assert IfNeedsBraces(ElseOnly, ss, [0], false) == Verdict(true, true);
    assert IfNeedsBraces(ElseOnly, ss, [0, 1], false) == Verdict(true, true);
  }

  /** `if (a) x; else if (b) y; else z;`: `x`, `y` and `z` must be braced; the link
      `if (b) y; else z;` is not reported as a bare else arm. */
  lemma ElseIfChain()
    ensures Diagnostics(ElseOnly, Chain) == [MissingBraces([0, 0]), MissingBraces([0, 1, 0]), MissingBraces([0, 1, 1])]
  {
    ChainOrder();
    ChainNodes();
    var fs := [MissingBraces([0, 1, 0]), MissingBraces([0, 1, 1])];
    CollectIs(ElseOnly, Chain, [[0], [0, 0], [0, 1], [0, 1, 0], [0, 1, 1]], [[MissingBraces([0, 0])], [], fs, [], []]);
    Flatten5([MissingBraces([0, 0])], [], fs, [], []);
  }

  const BlockChain := [If(X, Some(Block([If(X, None, 0)], Span)), 20)]

  lemma BlockChainElseOrder()
    ensures Order([X, Block([If(X, None, 0)], Span)]) == [[0], [1], [1, 0], [1, 0, 0]]
  {
    OrderTwo(X, Block([If(X, None, 0)], Span));
    OrderOne(If(X, None, 0));
    OrderOne(X);
    assert Prefixed([0], []) == [] && Prefixed([1], []) == [];
    assert [0] + [0] == [0, 0] && [1] + [0] == [1, 0] && [1] + [0, 0] == [1, 0, 0];
    assert Prefixed([0], [[0]]) == [[0, 0]];
    assert Order([If(X, None, 0)]) == [[0], [0, 0]];
    assert Prefixed([1], [[0], [0, 0]]) == [[1, 0], [1, 0, 0]];
  }

  lemma BlockChainOrder()
    ensures Order(BlockChain) == [[0], [0, 0], [0, 1], [0, 1, 0], [0, 1, 0, 0]]
  {
    OrderOne(BlockChain[0]);
    BlockChainElseOrder();
    assert [0] + [0] == [0, 0];
    assert [0] + [1] == [0, 1] && [0] + [1, 0] == [0, 1, 0] && [0] + [1, 0, 0] == [0, 1, 0, 0];
    assert Prefixed([0], [[0], [1], [1, 0], [1, 0, 0]]) == [[0, 0], [0, 1], [0, 1, 0], [0, 1, 0, 0]];
  }

  lemma BlockChainShape()
    ensures ValidPath(BlockChain, [0]) && At(BlockChain, [0]) == If(X, Some(Block([If(X, None, 0)], Span)), 20)
    ensures ValidPath(BlockChain, [0, 0]) && At(BlockChain, [0, 0]) == X
    ensures ValidPath(BlockChain, [0, 1]) && At(BlockChain, [0, 1]) == Block([If(X, None, 0)], Span)
    ensures ValidPath(BlockChain, [0, 1, 0]) && At(BlockChain, [0, 1, 0]) == If(X, None, 0)
    ensures ValidPath(BlockChain, [0, 1, 0, 0]) && At(BlockChain, [0, 1, 0, 0]) == X
  {
  }

  lemma BlockChainOuter()
    ensures NodeFailures(ElseOnly, BlockChain, [0]) == [MissingBraces([0, 0])]
  {
    var ss := BlockChain;
    BlockChainShape();
    assert [0] + [0] == [0, 0] && [0] + [1] == [0, 1];
    assert ElseLink(ss, [0], [0, 1, 0]) by {
      assert [0] + [1, 0] == [0, 1, 0];
    }
    assert IfNeedsBraces(ElseOnly, ss, [0], false) == Verdict(true, true);
  }

  lemma BlockChainInner()
    ensures NodeFailures(ElseOnly, BlockChain, [0, 1, 0]) == [MissingBraces([0, 1, 0, 0])]
  {
    var ss := BlockChain;
    BlockChainShape();
    assert [0, 1, 0] + [0] == [0, 1, 0, 0];
    assert ElseLink(ss, [0], [0, 1, 0]) by {
      assert [0] + [1] == [0, 1] && [0] + [1, 0] == [0, 1, 0];
    }
    assert IfNeedsBraces(ElseOnly, ss, [0, 1, 0], false) == Verdict(true, true);
  }

  lemma BlockChainQuiet()
    ensures NodeFailures(ElseOnly, BlockChain, [0, 0]) == [] && NodeFailures(ElseOnly, BlockChain, [0, 1]) == []
    ensures NodeFailures(ElseOnly, BlockChain, [0, 1, 0, 0]) == []
  {
    BlockChainShape();
  }

  lemma BlockChainNodes()
    ensures NodeFailures(ElseOnly, BlockChain, [0]) == [MissingBraces([0, 0])]
    ensures NodeFailures(ElseOnly, BlockChain, [0, 1, 0]) == [MissingBraces([0, 1, 0, 0])]
    ensures NodeFailures(ElseOnly, BlockChain, [0, 0]) == [] && NodeFailures(ElseOnly, BlockChain, [0, 1]) == []
    ensures NodeFailures(ElseOnly, BlockChain, [0, 1, 0, 0]) == []
  {
    BlockChainOuter();
    BlockChainInner();
    BlockChainQuiet();
  }

  /** `if (a) x; else { if (b) y; }`: the inner `if` is an else-if through one
      single-statement block, so with `else` its then arm `y` must be braced too;
      the block itself is the braced else arm. */
  lemma ElseIfThroughBlock()
    ensures Diagnostics(ElseOnly, BlockChain) == [MissingBraces([0, 0]), MissingBraces([0, 1, 0, 0])]
  {
    BlockChainOrder();
    BlockChainNodes();
    var a, b := [MissingBraces([0, 0])], [MissingBraces([0, 1, 0, 0])];
    CollectIs(ElseOnly, BlockChain, [[0], [0, 0], [0, 1], [0, 1, 0], [0, 1, 0, 0]], [a, [], [], b, []]);
    Flatten5(a, [], [], b, []);
  }

  // --- `for (;;) switch (x) { ... }`

  const LoopOverSwitch := [Iteration(Switch([]))]

  lemma LoopOverSwitchOrder()
    ensures Order(LoopOverSwitch) == [[0], [0, 0]]
  {
    OrderOne(LoopOverSwitch[0]);
    OrderOne(Switch([]));
    assert Prefixed([0], []) == [];
    assert [0] + [0] == [0, 0];
    assert Prefixed([0], [[0]]) == [[0, 0]];
  }

  /** With `braced-child`, a loop whose body is a `switch` must brace it; without
      it, nothing is reported. */
  lemma BracedChildSwitch()
    ensures Diagnostics(Options(false, false, true, false), LoopOverSwitch) == [MissingBraces([0, 0])]
    ensures Diagnostics(Defaults, LoopOverSwitch) == []
  {
    var ss := LoopOverSwitch;
    LoopOverSwitchOrder();
    assert [0] + [0] == [0, 0];
    assert ValidPath(ss, [0, 0]) && At(ss, [0]) == Iteration(Switch([])) && At(ss, [0, 0]) == Switch([]);
    var child := Options(false, false, true, false);
    assert NodeFailures(child, ss, [0]) == [MissingBraces([0, 0])];
    assert NodeFailures(Defaults, ss, [0]) == [];
    assert NodeFailures(child, ss, [0, 0]) == [] && NodeFailures(Defaults, ss, [0, 0]) == [];
    CollectIs(child, ss, [[0], [0, 0]], [[MissingBraces([0, 0])], []]);
    CollectIs(Defaults, ss, [[0], [0, 0]], [[], []]);
    Flatten2([MissingBraces([0, 0])], []);
    Flatten2([], []);
  }

  // --- The dangling-else test looks only at the unwrapped then arm itself:
  // `if (c) { if (d) x; else if (e) y; } else z;`

  const NestedChainThen := [If(Block([If(X, Some(If(X, None, 0)), 30)], Span), Some(X), 20)]

  lemma NestedChainThenNode()
    ensures NodeFailures(Defaults, NestedChainThen, [0]) == [PlanUnnecessaryThen(Span, Some(20), [0, 0])]
  {
    var ss := NestedChainThen;
    assert [0] + [0] == [0, 0] && [0] + [1] == [0, 1];
    assert At(ss, [0]) == If(Block([If(X, Some(If(X, None, 0)), 30)], Span), Some(X), 20);
    assert At(ss, [0, 0]) == Block([If(X, Some(If(X, None, 0)), 30)], Span) && At(ss, [0, 1]) == X;
    assert Unwrap(Block([If(X, Some(If(X, None, 0)), 30)], Span)) == If(X, Some(If(X, None, 0)), 30);
    assert NeedsBraces(Defaults, ss, [0, 1], true) == false;
    assert IfNeedsBraces(Defaults, ss, [0], false) == Verdict(false, false);
  }

  /** The inner `if (d)` has an else arm, so the test does not fire, even though the
      chain ends in `if (e) y;` without else. The then block's braces are reported
      unnecessary; removing them would give `else z` to `if (e)`. */
  lemma NestedChainThenUnbraced()
    ensures PlanUnnecessaryThen(Span, Some(20), [0, 0]) in Diagnostics(Defaults, NestedChainThen)
  {
    var ss := NestedChainThen;
    NestedChainThenNode();
    assert CheckedArm(ss, [0, 0]) && Parent([0, 0]) == [0] by {
      assert [0, 0][..1] == [0];
      assert At(ss, [0]).If?;
    }
    ArmParentVisited(Defaults, ss, [0, 0], PlanUnnecessaryThen(Span, Some(20), [0, 0]));
  }

  // --- `nested-if-else` beside an else arm: `if (a) { if (b) x; else y; } else z;`

  const NestedOnly := Options(false, false, false, true)
  const NestedIfElseThen := [If(Block([If(X, Some(X), 30)], Span), Some(X), 20)]

  lemma NestedIfElseThenNode()
    ensures NodeFailures(NestedOnly, NestedIfElseThen, [0]) == [PlanUnnecessaryThen(Span, Some(20), [0, 0])]
  {
    var ss := NestedIfElseThen;
    assert [0] + [0] == [0, 0] && [0] + [1] == [0, 1];
    assert At(ss, [0]) == If(Block([If(X, Some(X), 30)], Span), Some(X), 20);
    assert At(ss, [0, 0]) == Block([If(X, Some(X), 30)], Span) && At(ss, [0, 1]) == X;
    assert Unwrap(Block([If(X, Some(X), 30)], Span)) == If(X, Some(X), 30);
    assert NeedsBraces(NestedOnly, ss, [0, 1], true) == false;
    assert IfNeedsBraces(NestedOnly, ss, [0], false) == Verdict(false, false);
  }

  /** `nested-if-else` does not reach a then arm beside an else arm: the block
      holding the nested `if`/`else` is reported unnecessary. */
  lemma NestedIfElseBesideElse()
    ensures PlanUnnecessaryThen(Span, Some(20), [0, 0]) in Diagnostics(NestedOnly, NestedIfElseThen)
  {
    var ss := NestedIfElseThen;
    NestedIfElseThenNode();
    assert CheckedArm(ss, [0, 0]) && Parent([0, 0]) == [0] by {
      assert [0, 0][..1] == [0];
      assert At(ss, [0]).If?;
    }
    ArmParentVisited(NestedOnly, ss, [0, 0], PlanUnnecessaryThen(Span, Some(20), [0, 0]));
  }
}
