/** Diagnostics and the deletions that remove unnecessary braces:
    `_reportUnnecessary` and `_reportUnnecessaryThen` of rules/extCurlyRule.ts. */
module EditPlanner {
  import opened Syntax

  const FailMessageMissing := "statement must be braced"
  const FailMessageUnnecessary := "unnecessary curly braces"

  /** A deletion of the text `[from, to)`. */
  datatype Edit = DeleteFromTo(from: int, to: int)

  /** A diagnostic. A missing-braces failure names the statement that should be
      braced; an unnecessary-braces failure names the block, the text range
      `[from, to)` it is reported at, and the deletions that fix it. */
  datatype Failure =
    | MissingBraces(at: Path)
    | UnnecessaryBraces(at: Path, from: int, to: int, fix: seq<Edit>)
  {
    function Message(): string {
      if MissingBraces? then FailMessageMissing else FailMessageUnnecessary
    }
  }

  /** The order the parser guarantees for a block's offsets: something (the `{`)
      lies between the block's start and its statements, and the `}` after them. */
  predicate WellFormedSpan(b: BlockSpan) {
    b.pos < b.stmtsPos <= b.stmtsEnd < b.end
  }

  /** Deletions in increasing order, disjoint, inside a text of length `n`. */
  predicate Ordered(edits: seq<Edit>, n: int) {
    && (forall i :: 0 <= i < |edits| ==> 0 <= edits[i].from <= edits[i].to <= n)
    && (forall i, j :: 0 <= i < j < |edits| ==> edits[i].to <= edits[j].from)
  }

  /** The text left once ordered deletions are carried out (last one first, so the
      offsets of the earlier ones stay put). */
  function Apply(text: seq<char>, edits: seq<Edit>): seq<char>
    requires Ordered(edits, |text|)
    decreases |edits|
  {
    if edits == [] then text
    else
      var e := edits[|edits| - 1];
      var rest := edits[..|edits| - 1];
      assert forall i :: 0 <= i < |rest| ==> rest[i] == edits[i];
      Apply(text[..e.from] + text[e.to..], rest)
  }

  /** `_reportUnnecessary(block)`: reported from the `{` to the end of the block;
      deletes from the block's start up to its statements, and from the end of its
      statements to the end of the block. */
  function PlanUnnecessary(b: BlockSpan, at: Path): Failure {
    UnnecessaryBraces(at, b.stmtsPos - 1, b.end,
      [DeleteFromTo(b.pos, b.stmtsPos), DeleteFromTo(b.stmtsEnd, b.end)])
  }

  /** `_reportUnnecessaryThen(node)` for the then block `b`: when an `else` keyword
      follows (starting at `elseStart`), the second deletion runs from the `}` to the
      `else` keyword, so the trivia before the `}` still separates the statement from
      `else`; otherwise the fix is that of `_reportUnnecessary`. */
  function PlanUnnecessaryThen(b: BlockSpan, elseStart: Option<int>, at: Path): Failure {
    var closeBraceFix :=
      if elseStart.Some? then DeleteFromTo(b.end - 1, elseStart.value)
      else DeleteFromTo(b.stmtsEnd, b.end);
    UnnecessaryBraces(at, b.stmtsPos - 1, b.end, [DeleteFromTo(b.pos, b.stmtsPos), closeBraceFix])
  }

  /** What a correct brace-removal fix for the block `b` looks like: two non-empty
      deletions in order, the first from the block's start to its statements, the
      second at or after the end of its statements; the failure is reported inside
      the block. */
  predicate SparesStatements(f: Failure, b: BlockSpan) {
    && f.UnnecessaryBraces?
    && |f.fix| == 2
    && f.fix[0] == DeleteFromTo(b.pos, b.stmtsPos)
    && b.pos < b.stmtsPos <= b.stmtsEnd <= f.fix[1].from < f.fix[1].to
    && b.pos <= f.from < f.to == b.end
  }

  lemma {:induction false} ApplyTwo(text: seq<char>, e0: Edit, e1: Edit)
    requires 0 <= e0.from <= e0.to <= e1.from <= e1.to <= |text|
    ensures Ordered([e0, e1], |text|)
    ensures Apply(text, [e0, e1]) == text[..e0.from] + text[e0.to..e1.from] + text[e1.to..]
  {
    var t := text[..e1.from] + text[e1.to..];
    assert [e0, e1][..1] == [e0];
    assert [e0][..0] == [];
    assert Apply(text, [e0, e1]) == Apply(t, [e0]);
    assert Apply(t, [e0]) == Apply(t[..e0.from] + t[e0.to..], []);
    assert t[..e0.from] == text[..e0.from];
    assert t[e0.to..] == text[e0.to..e1.from] + text[e1.to..];
  }

  /** The fix of `_reportUnnecessary` removes exactly the block's braces and the
      trivia around them: what remains is the text before the block, the block's
      statements and the text after the block. */
  lemma PlanUnnecessarySound(b: BlockSpan, at: Path, text: seq<char>)
    requires WellFormedSpan(b) && 0 <= b.pos && b.end <= |text|
    ensures var f := PlanUnnecessary(b, at);
            && SparesStatements(f, b)
            && f.fix[1].to == b.end
            && Ordered(f.fix, |text|)
            && Apply(text, f.fix) == text[..b.pos] + text[b.stmtsPos..b.stmtsEnd] + text[b.end..]
  {
    ApplyTwo(text, DeleteFromTo(b.pos, b.stmtsPos), DeleteFromTo(b.stmtsEnd, b.end));
  }

  /** The fix of `_reportUnnecessaryThen` when an `else` follows: it removes the `{`
      with what precedes it inside the block, and the `}` with the trivia up to the
      `else` keyword; the statements and the trivia before the `}` remain, directly
      followed by `else`. */
  lemma PlanUnnecessaryThenSound(b: BlockSpan, elseStart: int, at: Path, text: seq<char>)
    requires WellFormedSpan(b) && 0 <= b.pos && b.end <= elseStart <= |text|
    ensures var f := PlanUnnecessaryThen(b, Some(elseStart), at);
            && SparesStatements(f, b)
            && f.fix[1] == DeleteFromTo(b.end - 1, elseStart)
            && Ordered(f.fix, |text|)
            && Apply(text, f.fix) == text[..b.pos] + text[b.stmtsPos..b.end - 1] + text[elseStart..]
  {
    ApplyTwo(text, DeleteFromTo(b.pos, b.stmtsPos), DeleteFromTo(b.end - 1, elseStart));
  }
}
