/**
 * What `If.calculate` promises, stated over all inputs and every `Host`:
 * which argument wins, when the result is a branch verbatim, and the
 * shape and cell law of the broadcast result.
 */
module IfLaws {
  import opened Wrappers
  import opened ValueObjects
  import opened ArrayObjects
  import opened LogicalIf

  /** A missing condition or true-branch gives NA, whatever else is passed. */
  lemma MissingArgumentIsNA(h: Host, logicalTest: Option<Value>, valueIfTrue: Option<Value>, valueIfFalse: Value)
    requires logicalTest.Some? ==> WellFormed(logicalTest.value)
    requires valueIfTrue.Some? ==> WellFormed(valueIfTrue.value)
    requires WellFormed(valueIfFalse)
    requires logicalTest.None? || valueIfTrue.None?
    ensures Calculate(h, logicalTest, valueIfTrue, valueIfFalse) == Scalar(NotAvailable)
  {
  }

  /** An error condition comes back unchanged; an error true-branch only when the condition is no error. */
  lemma ErrorShortCircuit(h: Host, logicalTest: Value, valueIfTrue: Value, valueIfFalse: Value)
    requires WellFormed(logicalTest) && WellFormed(valueIfTrue) && WellFormed(valueIfFalse)
    ensures IsError(logicalTest) ==>
      Calculate(h, Some(logicalTest), Some(valueIfTrue), valueIfFalse) == logicalTest
    ensures !IsError(logicalTest) && IsError(valueIfTrue) ==>
      Calculate(h, Some(logicalTest), Some(valueIfTrue), valueIfFalse) == valueIfTrue
  {
  }

  /** Left out, the false-branch is the boolean false scalar: a falsy scalar condition yields it. */
  lemma DefaultFalseBranch(h: Host, logicalTest: Value, valueIfTrue: Value)
    requires WellFormed(logicalTest) && WellFormed(valueIfTrue)
    requires !IsError(logicalTest) && !IsError(valueIfTrue)
    requires logicalTest.Scalar? && !Truthy(logicalTest.cell, h.errorIsTruthy)
    ensures Calculate(h, Some(logicalTest), Some(valueIfTrue)) == Scalar(Boolean(false))
  {
  }

  /** An error false-branch is not looked at unless it is selected. */
  lemma FalseBranchErrorNotPrechecked(h: Host, logicalTest: Value, valueIfTrue: Value, valueIfFalse: Value)
    requires WellFormed(logicalTest) && WellFormed(valueIfTrue) && WellFormed(valueIfFalse)
    requires IsError(valueIfFalse) && !IsError(valueIfTrue)
    requires logicalTest.Scalar? && !logicalTest.cell.Error? && Truthy(logicalTest.cell, h.errorIsTruthy)
    ensures Calculate(h, Some(logicalTest), Some(valueIfTrue), valueIfFalse) == valueIfTrue
  {
  }

  /** A 1 by 1 condition array holding a non-error cell behaves exactly like that cell. */
  lemma SingletonConditionIsItsCell(h: Host, x: Cell, valueIfTrue: Option<Value>, valueIfFalse: Value)
    requires valueIfTrue.Some? ==> WellFormed(valueIfTrue.value)
    requires WellFormed(valueIfFalse)
    requires !x.Error?
    ensures Calculate(h, Some(Array(1, 1, [[x]])), valueIfTrue, valueIfFalse)
         == Calculate(h, Some(Scalar(x)), valueIfTrue, valueIfFalse)
  {
  }

  /**
   * With a non-array condition after unwrapping, the result is one of the
   * branches verbatim (even an array or a null), chosen by truthiness.
   */
  lemma ScalarPath(h: Host, logicalTest: Value, valueIfTrue: Value, valueIfFalse: Value)
    requires WellFormed(logicalTest) && WellFormed(valueIfTrue) && WellFormed(valueIfFalse)
    requires !IsError(logicalTest) && !IsError(valueIfTrue)
    requires !logicalTest.Array? || (logicalTest.rows == 1 && logicalTest.cols == 1)
    ensures Calculate(h, Some(logicalTest), Some(valueIfTrue), valueIfFalse)
         == if Truthy(SingleValueObject(logicalTest).cell, h.errorIsTruthy) then valueIfTrue else valueIfFalse
  {
  }

  /** The array path: the condition is an array other than 1 by 1, and neither it nor the true-branch is an error. */
  ghost predicate TakesArrayPath(logicalTest: Value, valueIfTrue: Value) {
    && logicalTest.Array?
    && !(logicalTest.rows == 1 && logicalTest.cols == 1)
    && !IsError(valueIfTrue)
  }

  /**
   * On the array path the result is an array whose extents are the per
   * dimension maxima of the three operands, a non-array counting 1; so it is
   * never smaller than the condition.
   */
  lemma ArrayPathShape(h: Host, logicalTest: Value, valueIfTrue: Value, valueIfFalse: Value)
    requires WellFormed(logicalTest) && WellFormed(valueIfTrue) && WellFormed(valueIfFalse)
    requires TakesArrayPath(logicalTest, valueIfTrue)
    ensures var r := Calculate(h, Some(logicalTest), Some(valueIfTrue), valueIfFalse);
      && r.Array?
      && r.rows == Max3(logicalTest.rows, RowCount(valueIfTrue), RowCount(valueIfFalse))
      && r.cols == Max3(logicalTest.cols, ColumnCount(valueIfTrue), ColumnCount(valueIfFalse))
      && r.rows >= logicalTest.rows && r.cols >= logicalTest.cols
  {
  }

  /**
   * The cell law of the array path, in terms of the operands' own aligned
   * cells: a null condition cell gives NA; otherwise the condition's
   * truthiness selects the true or false cell (NA outside a branch array's
   * bounds), and a selected null gives NA.
   */
  lemma ArrayPathCell(h: Host, logicalTest: Value, valueIfTrue: Value, valueIfFalse: Value, row: nat, col: nat)
    requires WellFormed(logicalTest) && WellFormed(valueIfTrue) && WellFormed(valueIfFalse)
    requires TakesArrayPath(logicalTest, valueIfTrue)
    requires row < BroadcastRows(logicalTest, valueIfTrue, valueIfFalse)
    requires col < BroadcastColumns(logicalTest, valueIfTrue, valueIfFalse)
    ensures var r := Calculate(h, Some(logicalTest), Some(valueIfTrue), valueIfFalse);
      var x := Aligned(logicalTest, row, col, h.conditionFill);
      var a := Aligned(valueIfTrue, row, col, NotAvailable);
      var b := Aligned(valueIfFalse, row, col, NotAvailable);
      && r.Array? && row < r.rows && col < r.cols
      && r.cells[row][col] ==
         if x.Null? then NotAvailable
         else if Truthy(x, h.errorIsTruthy) then (if a.Null? then NotAvailable else a)
         else if b.Null? then NotAvailable
         else b
  {
  }

  /** No cell of an array-path result is null: an empty outcome is always turned into NA. */
  lemma ArrayPathHasNoNullCells(h: Host, logicalTest: Value, valueIfTrue: Value, valueIfFalse: Value)
    requires WellFormed(logicalTest) && WellFormed(valueIfTrue) && WellFormed(valueIfFalse)
    requires TakesArrayPath(logicalTest, valueIfTrue)
    ensures var r := Calculate(h, Some(logicalTest), Some(valueIfTrue), valueIfFalse);
      && r.Array?
      && forall row, col :: 0 <= row < r.rows && 0 <= col < r.cols ==> !r.cells[row][col].Null?
  {
  }
}
