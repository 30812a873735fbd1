/**
 * The spreadsheet IF function: `If.calculate` with its two private helpers.
 * A missing argument is an NA error; an error condition, then an error
 * true-branch, is returned as it is; a 1 by 1 condition array is replaced
 * by its cell; a non-array condition picks a branch by truthiness; an
 * array condition broadcasts all three operands to a common grid and picks
 * cell by cell.
 */
module LogicalIf {
  import opened Wrappers
  import opened ValueObjects
  import opened ArrayObjects

  /**
   * Behaviour of collaborators whose source is not part of this model:
   * whether `getValue()` of an error marker is truthy, and the fill cell
   * `expandArrayValueObject` uses when no fill is passed (the condition's
   * expansion). Every property proved here holds for every choice.
   */
  datatype Host = Host(errorIsTruthy: ErrorKind -> bool, conditionFill: Cell)

  /** `Math.max` of three extents. */
  function Max3(a: nat, b: nat, c: nat): (m: nat)
    ensures a <= m && b <= m && c <= m
    ensures m == a || m == b || m == c
  {
    if a >= b && a >= c then a else if b >= c then b else c
  }

  /** `_getSingleValueObject`: a 1 by 1 array stands for its only cell; anything else is kept. */
  function SingleValueObject(v: Value): (s: Value)
    requires WellFormed(v)
    ensures WellFormed(s)
    ensures !(s.Array? && s.rows == 1 && s.cols == 1)
    ensures s != v ==> v.Array? && v.rows == 1 && v.cols == 1 && s == Scalar(FirstCell(v))
  {
    if v.Array? && v.rows == 1 && v.cols == 1 then Scalar(FirstCell(v)) else v
  }

  /**
   * `_calculateSingleCell`: a null condition gives NA; otherwise the branch
   * the condition's truthiness selects, except that a selected null cell
   * gives NA. A null never comes out.
   */
  function CalculateSingleCell(h: Host, logicalTest: Cell, valueIfTrue: Cell, valueIfFalse: Cell): (r: Cell)
    ensures !r.Null?
    ensures logicalTest.Null? ==> r == NotAvailable
    ensures !logicalTest.Null? && Truthy(logicalTest, h.errorIsTruthy) ==>
      (r == valueIfTrue || r == NotAvailable) && (!valueIfTrue.Null? ==> r == valueIfTrue)
    ensures !logicalTest.Null? && !Truthy(logicalTest, h.errorIsTruthy) ==>
      (r == valueIfFalse || r == NotAvailable) && (!valueIfFalse.Null? ==> r == valueIfFalse)
  {
    if logicalTest.Null? then
      NotAvailable
    else if Truthy(logicalTest, h.errorIsTruthy) then
      if valueIfTrue.Null? then NotAvailable else valueIfTrue
    else if valueIfFalse.Null? then
      NotAvailable
    else
      valueIfFalse
  }

  /** The broadcast shape: per dimension, the largest extent of the three operands. */
  function BroadcastRows(logicalTest: Value, valueIfTrue: Value, valueIfFalse: Value): (n: nat)
    requires WellFormed(logicalTest) && WellFormed(valueIfTrue) && WellFormed(valueIfFalse)
    ensures n >= RowCount(logicalTest) && n >= RowCount(valueIfTrue) && n >= RowCount(valueIfFalse)
    ensures n == RowCount(logicalTest) || n == RowCount(valueIfTrue) || n == RowCount(valueIfFalse)
  {
    Max3(RowCount(logicalTest), RowCount(valueIfTrue), RowCount(valueIfFalse))
  }

  function BroadcastColumns(logicalTest: Value, valueIfTrue: Value, valueIfFalse: Value): (n: nat)
    requires WellFormed(logicalTest) && WellFormed(valueIfTrue) && WellFormed(valueIfFalse)
    ensures n >= ColumnCount(logicalTest) && n >= ColumnCount(valueIfTrue) && n >= ColumnCount(valueIfFalse)
    ensures n == ColumnCount(logicalTest) || n == ColumnCount(valueIfTrue) || n == ColumnCount(valueIfFalse)
  {
    Max3(ColumnCount(logicalTest), ColumnCount(valueIfTrue), ColumnCount(valueIfFalse))
  }

  /**
   * The array path of `calculate`: expand the three operands to the
   * broadcast shape (NA fills the branches) and map the cell rule over
   * the expanded condition.
   */
  function ArrayPath(h: Host, logicalTest: Value, valueIfTrue: Value, valueIfFalse: Value): (r: Value)
    requires WellFormed(logicalTest) && WellFormed(valueIfTrue) && WellFormed(valueIfFalse)
    ensures WellFormed(r) && r.Array?
    ensures r.rows == BroadcastRows(logicalTest, valueIfTrue, valueIfFalse)
    ensures r.cols == BroadcastColumns(logicalTest, valueIfTrue, valueIfFalse)
  {
    var rows := BroadcastRows(logicalTest, valueIfTrue, valueIfFalse);
    var cols := BroadcastColumns(logicalTest, valueIfTrue, valueIfFalse);
    var logicalTestArray := Expand(rows, cols, logicalTest, h.conditionFill);
    var valueIfTrueArray := Expand(rows, cols, valueIfTrue, NotAvailable);
    var valueIfFalseArray := Expand(rows, cols, valueIfFalse, NotAvailable);
    Map(logicalTestArray,
      (x: Cell, row: nat, col: nat) requires row < rows && col < cols =>
        if x.Null? then NotAvailable
        else CalculateSingleCell(h, x, valueIfTrueArray.cells[row][col], valueIfFalseArray.cells[row][col]))
  }

  /**
   * `If.calculate`. `None` is an argument the caller did not supply; the
   * false-branch defaults to the boolean false scalar.
   */
  function Calculate(h: Host, logicalTest: Option<Value>, valueIfTrue: Option<Value>,
                     valueIfFalse: Value := Scalar(Boolean(false))): (r: Value)
    requires logicalTest.Some? ==> WellFormed(logicalTest.value)
    requires valueIfTrue.Some? ==> WellFormed(valueIfTrue.value)
    requires WellFormed(valueIfFalse)
    ensures WellFormed(r)
  {
    if logicalTest.None? || valueIfTrue.None? then
      Scalar(NotAvailable)
    else if IsError(logicalTest.value) then
      logicalTest.value
    else if IsError(valueIfTrue.value) then
      valueIfTrue.value
    else
      var test := SingleValueObject(logicalTest.value);
      if !test.Array? then
        if Truthy(test.cell, h.errorIsTruthy) then valueIfTrue.value else valueIfFalse
      else
        ArrayPath(h, test, valueIfTrue.value, valueIfFalse)
  }
}
