/** Worked examples of IF, each proved for every `Host`. */
module IfScenarios {
  import opened Wrappers
  import opened ValueObjects
  import opened LogicalIf
  import opened IfLaws

  /** IF(TRUE, 5, 10) is 5 and IF(0, "a", "b") is "b". */
  lemma ScalarSelections(h: Host)
    ensures Calculate(h, Some(Scalar(Boolean(true))), Some(Scalar(Number(5))), Scalar(Number(10))) == Scalar(Number(5))
    ensures Calculate(h, Some(Scalar(Number(0))), Some(Scalar(Text("a"))), Scalar(Text("b"))) == Scalar(Text("b"))
  {
  }

  /** IF with a missing condition is #N/A. */
  lemma MissingConditionExample(h: Host)
    ensures Calculate(h, None, Some(Scalar(Number(1))), Scalar(Number(2))) == Scalar(NotAvailable)
  {
  }

  /**
   * The true-branch error is checked before the condition's truth value is looked at:
   * IF(#DIV/0!, #REF!, 1) is #DIV/0!, and IF(FALSE, #REF!, 1) is #REF!.
   */
  lemma ErrorPrecedenceExamples(h: Host)
    ensures Calculate(h, Some(Scalar(Error(DivByZero))), Some(Scalar(Error(Ref))), Scalar(Number(1))) == Scalar(Error(DivByZero))
    ensures Calculate(h, Some(Scalar(Boolean(false))), Some(Scalar(Error(Ref))), Scalar(Number(1))) == Scalar(Error(Ref))
  {
  }

  /** A selected branch that is a null scalar comes back as null on the scalar path. */
  lemma ScalarPathKeepsNull(h: Host)
    ensures Calculate(h, Some(Scalar(Boolean(true))), Some(Scalar(Null)), Scalar(Number(1))) == Scalar(Null)
  {
  }

  /** IF({TRUE, FALSE}, {1, 2}, 0) is {1, 0}. */
  lemma RowConditionExample(h: Host)
    ensures Calculate(h, Some(Array(1, 2, [[Boolean(true), Boolean(false)]])), Some(Array(1, 2, [[Number(1), Number(2)]])), Scalar(Number(0)))
         == Array(1, 2, [[Number(1), Number(0)]])
  {
    var cond := Array(1, 2, [[Boolean(true), Boolean(false)]]);
    var t := Array(1, 2, [[Number(1), Number(2)]]);
    var r := Calculate(h, Some(cond), Some(t), Scalar(Number(0)));
    ArrayPathCell(h, cond, t, Scalar(Number(0)), 0, 0);
    ArrayPathCell(h, cond, t, Scalar(Number(0)), 0, 1);
    assert r.cells[0] == [Number(1), Number(0)];
  }

  /**
   * IF({TRUE, FALSE; FALSE, TRUE}, 100, {200}): the scalar 100 fills the
   * grid, while the 1 by 1 array {200} keeps its one cell at (0, 0) and is
   * padded with #N/A, so both cells that select it outside (0, 0) are #N/A:
   * the result is {100, #N/A; #N/A, 100}.
   */
  lemma SquareConditionExample(h: Host, cond: Value, t: Value, f: Value)
    requires cond == Array(2, 2, [[Boolean(true), Boolean(false)], [Boolean(false), Boolean(true)]])
    requires t == Scalar(Number(100)) && f == Array(1, 1, [[Number(200)]])
    ensures Calculate(h, Some(cond), Some(t), f) == Array(2, 2, [[Number(100), NotAvailable], [NotAvailable, Number(100)]])
  {
    var r := Calculate(h, Some(cond), Some(t), f);
    ArrayPathShape(h, cond, t, f);
    ArrayPathCell(h, cond, t, f, 0, 0);
    ArrayPathCell(h, cond, t, f, 0, 1);
    ArrayPathCell(h, cond, t, f, 1, 0);
    ArrayPathCell(h, cond, t, f, 1, 1);
    assert r.cells[0] == [Number(100), NotAvailable];
    assert r.cells[1] == [NotAvailable, Number(100)];
  }

  /** Broadcasting a 2 by 1 condition against a 1 by 3 true-branch gives a 2 by 3 result. */
  lemma BroadcastShapeExample(h: Host)
    ensures var r := Calculate(h, Some(Array(2, 1, [[Boolean(true)], [Boolean(false)]])),
                               Some(Array(1, 3, [[Number(1), Number(2), Number(3)]])), Scalar(Number(0)));
      r.Array? && r.rows == 2 && r.cols == 3
  {
  }
}
