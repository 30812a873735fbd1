/**
 * The formula value model the IF function relies on: a closed variant of
 * scalar cells (number, boolean, text, the empty "null" cell and error
 * markers) and rectangular arrays of such cells.
 */
module ValueObjects {

  /** The spreadsheet error markers; NA is the one the IF function produces itself. */
  datatype ErrorKind =
    | NA
    | ValueMismatch
    | Ref
    | DivByZero
    | InvalidNumber
    | Name
    | NullIntersection
    | Spill

  /** One non-array value object: what an array cell holds. */
  datatype Cell =
    | Number(n: int)
    | Boolean(b: bool)
    | Text(s: string)
    | Null
    | Error(kind: ErrorKind)

  /**
   * A value object handed to a formula function: a single cell, or an
   * array of `rows` by `cols` cells stored row by row. Cells are never
   * arrays themselves.
   */
  datatype Value =
    | Scalar(cell: Cell)
    | Array(rows: nat, cols: nat, cells: seq<seq<Cell>>)

  /** The error value `new ErrorValueObject(ErrorType.NA)`. */
  const NotAvailable: Cell := Error(NA)

  /** The representation invariant of an array value object: a non-empty rectangle. */
  predicate WellFormed(v: Value) {
    v.Array? ==>
      && v.rows >= 1
      && v.cols >= 1
      && |v.cells| == v.rows
      && forall r :: 0 <= r < |v.cells| ==> |v.cells[r]| == v.cols
  }

  /** `isError()`: only a single error cell is an error; an array is assumed never to be one. */
  predicate IsError(v: Value): (b: bool)
    ensures v.Array? ==> !b
    ensures v.Scalar? ==> (b <==> v.cell.Error?)
  {
    v.Scalar? && v.cell.Error?
  }

  /** The row count a value contributes to broadcasting: its own for an array, 1 otherwise. */
  function RowCount(v: Value): (n: nat)
    requires WellFormed(v)
    ensures n >= 1
    ensures v.Scalar? ==> n == 1
    ensures v.Array? ==> n == v.rows
  {
    if v.Array? then v.rows else 1
  }

  /** The column count a value contributes to broadcasting: its own for an array, 1 otherwise. */
  function ColumnCount(v: Value): (n: nat)
    requires WellFormed(v)
    ensures n >= 1
    ensures v.Scalar? ==> n == 1
    ensures v.Array? ==> n == v.cols
  {
    if v.Array? then v.cols else 1
  }

  /**
   * JavaScript truthiness of `getValue()`: zero, false and the empty string
   * are falsy, and so is the null cell (assumed to give null). What `getValue()`
   * gives for an error marker is not part of this model, so the caller
   * supplies that as `errorIsTruthy`.
   */
  predicate Truthy(c: Cell, errorIsTruthy: ErrorKind -> bool): (b: bool)
    ensures c.Null? ==> !b
    ensures c.Error? ==> (b <==> errorIsTruthy(c.kind))
    ensures c.Boolean? ==> (b <==> c.b)
  {
    match c
    case Number(n) => n != 0
    case Boolean(b) => b
    case Text(s) => s != ""
    case Null => false
    case Error(k) => errorIsTruthy(k)
  }

  /** The truthiness partition: exactly zero, false, "" and null are falsy among non-errors. */
  lemma TruthinessPartition(c: Cell, errorIsTruthy: ErrorKind -> bool)
    requires !c.Error?
    ensures !Truthy(c, errorIsTruthy) <==> c in {Number(0), Boolean(false), Text(""), Null}
  {
  }
}
