# ext-curly: a verified model of the brace rule

This project models the `ext-curly` lint rule (`rules/extCurlyRule.ts`). The rule
decides, for every loop body and every arm of an `if` statement in a source file,
whether the statement must be wrapped in braces. It then reports either
`statement must be braced` for a bare statement that needs them, or
`unnecessary curly braces` for a block that does not, with a fix that deletes the
`{` and `}`. Four switches shape the decision:

- `else`: an `if` with an else arm, or one that is itself an else arm, is braced throughout;
- `consistent`: an arm that needs braces forces braces on both arms of its `if`,
  and a then arm that needs braces forces them on the later links of its
  `else if` chain; an earlier link is reached only through `_needsBraces` of its
  else arm, so only with `braced-child`;
- `braced-child`: a statement that is not a block also needs braces when it is an
  `if` with a true verdict for either arm, a loop whose body needs braces, or a
  `switch`; any other statement never does, whatever its children;
- `nested-if-else`: an `if` with its own `else` must be braced when it is a loop
  body or the then arm of an `if` without else (and, under `consistent`, the then
  arm of any `if`). Beside an else arm only the dangling-else test applies, and an
  else arm is never forced by this switch.

The model is split into modules:

- `Syntax`: the statement tree as a forest (`seq<Stmt>`) of `Block`, `If`,
  `Iteration`, `Switch` and `Other` nodes. A node is addressed by the path of child
  indices from the source file. For an `If`, child 0 is the then arm and child 1 the
  else arm. A block records its text offsets (`BlockSpan`); an `if` records where its
  `else` keyword starts.
- `ChainResolver`: `unwrapBlock` (a loop method proved against the function `Unwrap`)
  and `getElseIfParent` (a method proved against the function `ElseIfParent`, whose
  contract characterises the else-if parent exactly).
- `BraceAnalyzer`: `_needsBraces` and `_ifStatementNeedsBraces` as mutually
  recursive functions. They terminate on the measure (end of the node's pre-order
  range, node size, rank), which also covers the upward call to the else-if parent.
- `BraceProperties`: the rules of the decision, proved as lemmas. These cover the
  block rule, the `braced-child` off rule, each option's rule, the fallback, the
  dangling-else guard, and monotonicity in the option set.
- `EditPlanner`: the failures and the deletion spans of `_reportUnnecessary` and
  `_reportUnnecessaryThen`. A reference `Apply` carries out deletions on a text, and
  lemmas prove that each fix removes the braces together with the whitespace and
  comments around them and keeps the statements. For a then block followed by
  `else`, the trivia before the `}` stays and everything from the `}` up to the
  `else` keyword goes.
- `TreeWalker`: the walker as a class whose methods append to `failures`.
  `Visit` and `VisitChildren` are proved against the recursive specification
  `SubtreeReports`/`ChildReports`, stated over a ghost copy of the callback's
  reports. Lemmas tie that specification to the pre-order walk (`Order`), so
  `Walk` is proved to append exactly `Diagnostics`, the reports of every node in
  pre-order.
- `WalkerProperties`: what a run reports. `Order` lists every node exactly once,
  indexed by pre-order position. A missing-braces failure is reported exactly for a
  non-block arm whose verdict is true. An unnecessary-braces failure is reported
  exactly for a block arm whose verdict is false, with the fix stated. An else arm
  that is an `if` is never reported. No statement gets two failures.
- `Scenarios`: small files evaluated end to end.

Two behaviours of the code are kept as written:

- When an `if` has an else arm and neither `else` nor `consistent` fires, the
  then-verdict is only the dangling-else test. So with every option off,
  `if (c) { a; b; } else d;` reports the braces of the two-statement then block as
  unnecessary (`BraceProperties.MultiStatementThenBlockWithElse`,
  `Scenarios.DefaultTwoStatementThen`).
- The dangling-else test looks only through single-statement blocks at the then arm
  itself (`unwrapBlock`), not deeper into an `if`'s own arms. So with every option
  off, `if (c) { if (d) x; else if (e) y; } else z;` has its then block's braces
  reported unnecessary, although removing them gives `else z` to `if (e)`
  (`Scenarios.NestedChainThenUnbraced`).

## Model

| member | source | states |
|---|---|---|
| ChainResolver.Unwrap | rules/extCurlyRule.ts:142-146 | the result is never a one-statement block, is no larger than the input, and is the input unless the input is a one-statement block |
| ChainResolver.UnwrapIdempotent | rules/extCurlyRule.ts:142-146 | unwrapping twice gives the same statement as unwrapping once |
| ChainResolver.UnwrapBlock | rules/extCurlyRule.ts:142-146 | the loop that descends while the node is a one-statement block returns `Unwrap` of its input |
| ChainResolver.UnwrapPath | rules/extCurlyRule.ts:142-146 | following the unwrapping along the tree reaches a descendant path of the node, holding the unwrapped statement |
| ChainResolver.ElseIfParent | rules/extCurlyRule.ts:132-140 | returns `q` exactly when `q` is an `if` whose else arm is the node, or whose else arm is a one-statement block holding the node |
| ChainResolver.GetElseIfParent | rules/extCurlyRule.ts:132-140 | the step-by-step reassignment of `node` and `parent` computes `ElseIfParent` |
| BraceProperties.BlockRule | rules/extCurlyRule.ts:71-72 | a block with other than one statement needs braces; a one-statement block's verdict is its statement's with the same `allowIfElse`, and so that of the unwrapped node |
| BraceProperties.ChildOffRule | rules/extCurlyRule.ts:70-84 | with `braced-child` off, a statement needs braces iff, unwrapped, it is a block of other than one statement or (without `allowIfElse`, under `nested-if-else`) an `if` with an else arm |
| BraceProperties.NestedIfElseRule | rules/extCurlyRule.ts:73-74 | under `nested-if-else`, an `if` with an else arm (through one-statement blocks) needs braces when `allowIfElse` is off, whatever `braced-child` says |
| BraceProperties.AllowIfElseWeakens | rules/extCurlyRule.ts:70-84 | needing braces with `allowIfElse` implies needing them without it |
| BraceProperties.ElseOptionRule | rules/extCurlyRule.ts:87-88 | under `else`, an `if` with an else arm or with an else-if parent gets verdict (true, true) |
| BraceProperties.ConsistentThenRule | rules/extCurlyRule.ts:89-92 | under `consistent`, a then arm that needs braces makes the verdict (true, true) |
| BraceProperties.ConsistentElseRule | rules/extCurlyRule.ts:89-92 | under `consistent`, without `excludeElse`, an else arm that needs braces (with `allowIfElse`) makes the verdict (true, true) |
| BraceProperties.ConsistentChainRule | rules/extCurlyRule.ts:93-95 | under `consistent`, an else-if parent whose then-verdict (with `excludeElse`) is true makes the verdict (true, true) |
| BraceProperties.FallbackRule | rules/extCurlyRule.ts:97-104 | when neither rule fires: with an else arm the then-verdict is exactly the dangling-else test; `excludeElse` makes the else-verdict false; without an else arm the else-verdict is false and the then-verdict is the then arm's `_needsBraces` |
| BraceProperties.DanglingElseGuard | rules/extCurlyRule.ts:97-102 | a then arm that unwraps to an `if` without else, beside an else arm, always needs braces |
| BraceProperties.MultiStatementThenBlockWithElse | rules/extCurlyRule.ts:97-102 | without `else` and `consistent`, a multi-statement then block beside an else arm gets a false then-verdict |
| BraceProperties.ExcludeElseWeakens | rules/extCurlyRule.ts:86-105 | each verdict component computed with `excludeElse` implies the one computed without it |
| BraceProperties.ConsistentVerdicts | rules/extCurlyRule.ts:86-105 | under `consistent`, with an else arm, a true else-verdict implies a true then-verdict, and a lone true then-verdict comes only from the dangling-else test |
| BraceProperties.NeedsBracesMonotone | rules/extCurlyRule.ts:70-84 | enabling more options never turns a true `_needsBraces` false |
| BraceProperties.ConsistentRuleMonotone | rules/extCurlyRule.ts:89-95 | enabling more options never stops the `consistent` rule from firing |
| BraceProperties.IfNeedsBracesMonotone | rules/extCurlyRule.ts:86-105 | enabling more options never turns a true verdict component false |
| EditPlanner.PlanUnnecessarySound | rules/extCurlyRule.ts:107-112 | the fix is two ordered, disjoint, non-empty deletions inside the block, reported from the `{` to the block's end; applied to the text, it leaves the text before the block, the statements and the text after it |
| EditPlanner.PlanUnnecessaryThenSound | rules/extCurlyRule.ts:114-129 | with an `else` following, the second deletion runs from the `}` to the `else` keyword; applied, it leaves the text before the block, the statements with their trailing trivia, and the text from `else` on |
| TreeWalker.ExtCurlyWalker.constructor | rules/extCurlyRule.ts:31 | a walker holds the source file and the options, and starts with no failures |
| TreeWalker.ExtCurlyWalker.Walk | rules/extCurlyRule.ts:32-42 | the traversal appends exactly the reports of every node, in pre-order |
| TreeWalker.ExtCurlyWalker.Visit | rules/extCurlyRule.ts:33-40 | visiting a node appends `SubtreeReports` of the callback: its own reports, then the subtrees of its children in order |
| TreeWalker.ExtCurlyWalker.VisitChildren | rules/extCurlyRule.ts:39 | visiting the children in order appends, child after child, the reports of each child's subtree |
| TreeWalker.SubtreeReportsWalk | rules/extCurlyRule.ts:33-40 | what the recursive visit of a node appends equals the callback's reports gathered along the pre-order walk of that node's subtree |
| TreeWalker.ChildReportsWalk | rules/extCurlyRule.ts:39 | what visiting the first `i` children appends equals the reports gathered along their subtrees' walks, concatenated in child order |
| TreeWalker.TopReportsWalk | rules/extCurlyRule.ts:41 | what visiting the first `n` top-level statements appends equals the reports gathered along the pre-order walk of those statements |
| TreeWalker.DiagnosticsByTrees | rules/extCurlyRule.ts:32-42 | a traversal whose callback reports `NodeFailures` at every node yields exactly `Diagnostics`, the reports of all nodes in pre-order |
| TreeWalker.ExtCurlyWalker.CheckLoop | rules/extCurlyRule.ts:44-51 | appends a missing-braces failure for a bare body that needs braces, an unnecessary-braces failure for a block body that does not, and nothing else |
| TreeWalker.ExtCurlyWalker.CheckIfStatement | rules/extCurlyRule.ts:53-68 | appends the then-arm report, then the else-arm report, following the verdict pair; an else arm that is a block or an `if` is never reported missing |
| TreeWalker.ExtCurlyWalker.AddFailureAtNode | rules/extCurlyRule.ts:47 | appends one missing-braces failure at the statement |
| TreeWalker.ExtCurlyWalker.ReportUnnecessary | rules/extCurlyRule.ts:107-112 | appends the unnecessary-braces failure with the two deletions of the block's braces |
| TreeWalker.ExtCurlyWalker.ReportUnnecessaryThen | rules/extCurlyRule.ts:114-129 | appends the unnecessary-braces failure for the then block, with the closing deletion reaching the `else` keyword when there is one |
| WalkerProperties.OrderSound | rules/extCurlyRule.ts:32-42 | the traversal order has one entry per node, and its k-th entry is the node with pre-order index k |
| WalkerProperties.OrderComplete | rules/extCurlyRule.ts:32-42 | every node of the tree is visited, at its pre-order index |
| WalkerProperties.OrderDistinct | rules/extCurlyRule.ts:32-42 | no node is visited twice |
| WalkerProperties.DiagnosticsMember | rules/extCurlyRule.ts:32-42 | a failure is reported iff some node of the tree reports it |
| WalkerProperties.NodeFailuresLocal | rules/extCurlyRule.ts:44-68 | every failure a node reports is about one of its own arms or its body, and no two of them name the same statement |
| WalkerProperties.NodeMissing | rules/extCurlyRule.ts:44-68 | a node reports a missing-braces failure for its arm iff the arm's verdict is true and the arm is neither a block nor an else-if |
| WalkerProperties.NodeUnnecessary | rules/extCurlyRule.ts:44-68 | a node reports an unnecessary-braces failure for its arm iff the arm is a block whose verdict is false, and that failure is the planned report |
| WalkerProperties.MissingIff | rules/extCurlyRule.ts:32-68 | a run reports a statement missing braces iff it is a loop body or `if` arm, its verdict is true, and it is neither a block nor an else-if |
| WalkerProperties.ElseIfNeverMissing | rules/extCurlyRule.ts:61-64 | an else arm that is itself an `if` is never reported missing braces |
| WalkerProperties.UnnecessaryIff | rules/extCurlyRule.ts:32-68 | a run reports a block's braces unnecessary iff it is a loop body or `if` arm whose verdict is false |
| WalkerProperties.UnnecessaryFix | rules/extCurlyRule.ts:107-129 | every unnecessary-braces failure is reported from the `{` to the block's end, and its fix deletes up to the statements and then from their end (or from the `}` up to `else`) |
| WalkerProperties.UnnecessaryFixSound | rules/extCurlyRule.ts:107-129 | every unnecessary-braces fix a run reports is ordered and keeps the block's statements when applied to a text that holds the block |
| WalkerProperties.DiagnosticsDistinct | rules/extCurlyRule.ts:32-68 | no statement receives two failures in one run |
| Scenarios.DefaultBare | rules/extCurlyRule.ts:97-104 | `if (c) x;` with every option off reports nothing |
| Scenarios.DefaultBlock | rules/extCurlyRule.ts:107-129 | `if (c) { x; }` with every option off reports the braces unnecessary, with the deletions of `{` and `}` |
| Scenarios.ElseOptionBothArms | rules/extCurlyRule.ts:87-88 | `if (c) x; else y;` under `else` reports both arms missing braces |
| Scenarios.ConsistentForcesElse | rules/extCurlyRule.ts:89-92 | a two-statement then block under `consistent` makes the bare else arm missing braces |
| Scenarios.DefaultTwoStatementThen | rules/extCurlyRule.ts:97-102 | with every option off, a two-statement then block beside an else arm is reported unnecessary, its closing deletion reaching `else` |
| Scenarios.DanglingElseBare | rules/extCurlyRule.ts:97-100 | on the tree `If(If(x), else y)`, which no parse of source text produces (an unbraced `else` binds to the inner `if`), the guard reports the inner `if` missing braces; on parsed text the guard's effect is the one `DanglingElseBraced` shows |
| Scenarios.DanglingElseParsed | rules/extCurlyRule.ts:97-104 | `if (c) if (d) x; else y;` as parsed, with the `else` on the inner `if`, reports nothing with every option off |
| Scenarios.DanglingElseBraced | rules/extCurlyRule.ts:97-100 | `if (c) { if (d) x; } else y;` reports nothing |
| Scenarios.ElseIfChain | rules/extCurlyRule.ts:61-64 | `if (a) x; else if (b) y; else z;` under `else` reports `x`, `y` and `z`, and not the else-if |
| Scenarios.ElseIfThroughBlock | rules/extCurlyRule.ts:132-140 | an `if` inside a one-statement else block is an else-if, so under `else` its then arm is reported |
| Scenarios.NestedChainThenUnbraced | rules/extCurlyRule.ts:97-102 | with every option off, `if (c) { if (d) x; else if (e) y; } else z;` reports the then block's braces unnecessary: the dangling-else test does not look into the inner `if`'s else arm |
| Scenarios.NestedIfElseBesideElse | rules/extCurlyRule.ts:97-100 | under `nested-if-else` alone, a one-statement then block holding an `if` with its own else, beside an else arm, is reported unnecessary: only the dangling-else test decides that arm |
| Scenarios.BracedChildSwitch | rules/extCurlyRule.ts:81-83 | a loop over a bare `switch` is reported under `braced-child` and not otherwise |

## Left out

- `Rule.apply` and the parsing of the option tokens (rules/extCurlyRule.ts:20-29): the options are a given record.
- TypeScript parsing, the `tsutils` type guards and `ts.forEachChild` are not part of this model; the tree is given as a datatype.
- Statements nested inside expressions (function bodies in conditions, for example) are reached only where the tree places them under `Switch` or `Other`.
- The offsets from `getChildAt(4).end` and `getChildAt(5).getStart()` are given: the block's `end` and the `if`'s recorded `elseStart`.
- A missing-braces failure carries the statement's path, not its text range; message rendering and the `addFailure` machinery of the host linter are not modelled (`Failure.Message` gives the two message texts).
- Applying `Lint.Replacement` edits to real source text is host-tool work; `EditPlanner.Apply` is a reference for one failure's two deletions, and non-overlap between the fixes of different failures is not proved.
- Idempotence of fixing and re-linting: it needs re-parsing the edited text.
- `Switch` and `Other` are leaves for the decision procedure (only the `switch` kind matters to `_needsBraces`).
