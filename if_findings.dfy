/**
 * An error inside the condition is lost when it sits in an array.
 * `calculate` checks `isError()` on the condition before the 1 by 1 array
 * is unwrapped, and the cell rule never checks a condition cell for an
 * error, so such an error selects a branch by its truthiness instead of
 * coming back. This module exhibits that on the model as written and
 * gives the corrected definition, in which a condition error (single,
 * unwrapped, or per condition cell) is the result, and proves that the two
 * agree whenever the condition holds no error.
 */
module IfFindings {
  import opened Wrappers
  import opened ValueObjects
  import opened ArrayObjects
  import opened LogicalIf
  import opened IfLaws

  /** As written: IF({#N/A}, 1, 2) is 1 or 2, never #N/A. */
  lemma SingletonErrorConditionIsDropped(h: Host)
    ensures var r := Calculate(h, Some(Array(1, 1, [[NotAvailable]])), Some(Scalar(Number(1))), Scalar(Number(2)));
      && r != Scalar(NotAvailable)
      && (r == Scalar(Number(1)) || r == Scalar(Number(2)))
  {
  }

  /** As written: in IF({#N/A, TRUE}, 1, 2) the first cell is 1 or 2, never #N/A. */
  lemma ArrayErrorCellIsDropped(h: Host)
    ensures var r := Calculate(h, Some(Array(1, 2, [[NotAvailable, Boolean(true)]])), Some(Scalar(Number(1))), Scalar(Number(2)));
      && r.Array? && r.rows == 1 && r.cols == 2
      && r.cells[0][0] != NotAvailable
      && (r.cells[0][0] == Number(1) || r.cells[0][0] == Number(2))
  {
  }

  /** The array path with condition errors kept: an error condition cell is the result cell. */
  function IntendedArrayPath(h: Host, logicalTest: Value, valueIfTrue: Value, valueIfFalse: Value): (r: Value)
    requires WellFormed(logicalTest) && WellFormed(valueIfTrue) && WellFormed(valueIfFalse)
    ensures WellFormed(r) && r.Array?
    ensures r.rows == BroadcastRows(logicalTest, valueIfTrue, valueIfFalse)
    ensures r.cols == BroadcastColumns(logicalTest, valueIfTrue, valueIfFalse)
  {
    var asWritten := ArrayPath(h, logicalTest, valueIfTrue, valueIfFalse);
    var logicalTestArray := Expand(asWritten.rows, asWritten.cols, logicalTest, h.conditionFill);
    Map(logicalTestArray,
      (x: Cell, row: nat, col: nat) requires row < asWritten.rows && col < asWritten.cols =>
        if x.Error? then x else asWritten.cells[row][col])
  }

  /** `If.calculate` with the condition unwrapped before its error check and error cells propagated. */
  function CalculateIntended(h: Host, logicalTest: Option<Value>, valueIfTrue: Option<Value>,
                             valueIfFalse: Value := Scalar(Boolean(false))): (r: Value)
    requires logicalTest.Some? ==> WellFormed(logicalTest.value)
    requires valueIfTrue.Some? ==> WellFormed(valueIfTrue.value)
    requires WellFormed(valueIfFalse)
    ensures WellFormed(r)
  {
    if logicalTest.None? || valueIfTrue.None? then
      Scalar(NotAvailable)
    else
      var test := SingleValueObject(logicalTest.value);
      if IsError(test) then
        test
      else if IsError(valueIfTrue.value) then
        valueIfTrue.value
      else if !test.Array? then
        if Truthy(test.cell, h.errorIsTruthy) then valueIfTrue.value else valueIfFalse
      else
        IntendedArrayPath(h, test, valueIfTrue.value, valueIfFalse)
  }

  /** Corrected: an error condition, bare or in a 1 by 1 array, is the result and beats an error true-branch. */
  lemma IntendedPropagatesConditionError(h: Host, logicalTest: Value, valueIfTrue: Value, valueIfFalse: Value)
    requires WellFormed(logicalTest) && WellFormed(valueIfTrue) && WellFormed(valueIfFalse)
    requires IsError(SingleValueObject(logicalTest))
    ensures CalculateIntended(h, Some(logicalTest), Some(valueIfTrue), valueIfFalse) == SingleValueObject(logicalTest)
  {
  }

  /** Corrected: on the array path, a cell whose aligned condition cell is an error is that error. */
  lemma IntendedPropagatesErrorCells(h: Host, logicalTest: Value, valueIfTrue: Value, valueIfFalse: Value, row: nat, col: nat)
    requires WellFormed(logicalTest) && WellFormed(valueIfTrue) && WellFormed(valueIfFalse)
    requires TakesArrayPath(logicalTest, valueIfTrue)
    requires row < BroadcastRows(logicalTest, valueIfTrue, valueIfFalse)
    requires col < BroadcastColumns(logicalTest, valueIfTrue, valueIfFalse)
    requires Aligned(logicalTest, row, col, h.conditionFill).Error?
    ensures var r := CalculateIntended(h, Some(logicalTest), Some(valueIfTrue), valueIfFalse);
      && r.Array? && row < r.rows && col < r.cols
      && r.cells[row][col] == Aligned(logicalTest, row, col, h.conditionFill)
  {
  }

  /** No cell of `v` is an error. */
  ghost predicate ErrorFree(v: Value)
    requires WellFormed(v)
  {
    match v
    case Scalar(x) => !x.Error?
    case Array(rows, cols, cells) => forall r, c :: 0 <= r < rows && 0 <= c < cols ==> !cells[r][c].Error?
  }

  /** The condition, once unwrapped, is an array that broadcasting pads with the condition fill. */
  ghost predicate PadsCondition(logicalTest: Value, valueIfTrue: Value, valueIfFalse: Value)
    requires WellFormed(logicalTest) && WellFormed(valueIfTrue) && WellFormed(valueIfFalse)
  {
    && logicalTest.Array?
    && !(logicalTest.rows == 1 && logicalTest.cols == 1)
    && (BroadcastRows(logicalTest, valueIfTrue, valueIfFalse) > logicalTest.rows
        || BroadcastColumns(logicalTest, valueIfTrue, valueIfFalse) > logicalTest.cols)
  }

  /**
   * Without a condition error the corrected definition and the source agree
   * on every input; the condition fill matters only when it is used.
   */
  lemma IntendedAgreesWithoutConditionErrors(h: Host, logicalTest: Value, valueIfTrue: Value, valueIfFalse: Value)
    requires WellFormed(logicalTest) && WellFormed(valueIfTrue) && WellFormed(valueIfFalse)
    requires ErrorFree(logicalTest)
    requires PadsCondition(logicalTest, valueIfTrue, valueIfFalse) ==> !h.conditionFill.Error?
    ensures CalculateIntended(h, Some(logicalTest), Some(valueIfTrue), valueIfFalse)
         == Calculate(h, Some(logicalTest), Some(valueIfTrue), valueIfFalse)
  {
    var test := SingleValueObject(logicalTest);
    if test.Array? && !IsError(valueIfTrue) {
      var asWritten := ArrayPath(h, test, valueIfTrue, valueIfFalse);
      var corrected := IntendedArrayPath(h, test, valueIfTrue, valueIfFalse);
      var ct := Expand(asWritten.rows, asWritten.cols, test, h.conditionFill);
      forall row | 0 <= row < asWritten.rows
        ensures corrected.cells[row] == asWritten.cells[row]
      {
        forall col | 0 <= col < asWritten.cols
          ensures corrected.cells[row][col] == asWritten.cells[row][col]
        {
          assert ct.cells[row][col] == Aligned(test, row, col, h.conditionFill);
        }
      }
      assert corrected.cells == asWritten.cells;
    }
  }
}
