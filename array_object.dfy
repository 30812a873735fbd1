/**
 * Array value objects: cell access, the cell-by-cell `map`, and the
 * broadcast expansion `expandArrayValueObject`. The source of `map` and of
 * the expansion is not part of this model; what is written here is the
 * behaviour the IF function assumes of them: `map` keeps the shape and
 * rewrites each cell from the cell and its position, and expansion
 * replicates a scalar over the whole grid, copies an array's own cells and
 * puts the fill cell everywhere outside the array's bounds.
 */
module ArrayObjects {
  import opened ValueObjects

  /** `getFirstCell()`: the cell at row 0, column 0; a 1 by 1 array holds nothing else. */
  function FirstCell(a: Value): (x: Cell)
    requires WellFormed(a) && a.Array?
    ensures x == a.cells[0][0]
    ensures a.rows == 1 && a.cols == 1 ==> a.cells == [[x]]
  {
    assert a.rows == 1 && a.cols == 1 ==> a.cells[0] == [a.cells[0][0]];
    a.cells[0][0]
  }

  /** A callback may be applied at every position of `a`, whatever the cell. */
  ghost predicate AppliesOn(a: Value, f: (Cell, nat, nat) --> Cell)
    requires a.Array?
  {
    forall x: Cell, r: nat, c: nat :: r < a.rows && c < a.cols ==> f.requires(x, r, c)
  }

  /** `ArrayValueObject.map`: a new array of the same shape, cell (r, c) rewritten by f. */
  function Map(a: Value, f: (Cell, nat, nat) --> Cell): (m: Value)
    requires WellFormed(a) && a.Array?
    requires AppliesOn(a, f)
    ensures WellFormed(m) && m.Array?
    ensures m.rows == a.rows && m.cols == a.cols
    ensures forall r: nat, c: nat :: r < a.rows && c < a.cols ==> m.cells[r][c] == f(a.cells[r][c], r, c)
  {
    Array(a.rows, a.cols,
      seq(a.rows, r requires 0 <= r < a.rows =>
        seq(a.cols, c requires 0 <= c < a.cols => f(a.cells[r][c], r, c))))
  }

  /**
   * The cell of `v` that lines up with grid position (r, c) once `v` is
   * broadcast: a scalar everywhere, an array's own cell inside its bounds,
   * and the fill cell outside them.
   */
  function Aligned(v: Value, r: nat, c: nat, fill: Cell): Cell
    requires WellFormed(v)
  {
    match v
    case Scalar(x) => x
    case Array(rows, cols, cells) => if r < rows && c < cols then cells[r][c] else fill
  }

  /** `expandArrayValueObject(rows, cols, v, fill)`: `v` broadcast to a rows by cols array. */
  function Expand(rows: nat, cols: nat, v: Value, fill: Cell): (e: Value)
    requires WellFormed(v)
    ensures e.Array? && e.rows == rows && e.cols == cols
    ensures rows >= 1 && cols >= 1 ==> WellFormed(e)
    ensures |e.cells| == rows && forall r :: 0 <= r < rows ==> |e.cells[r]| == cols
    ensures v.Scalar? ==>
      forall r: nat, c: nat :: r < rows && c < cols ==> e.cells[r][c] == v.cell
    ensures v.Array? ==>
      forall r: nat, c: nat :: r < rows && c < cols && r < v.rows && c < v.cols ==> e.cells[r][c] == v.cells[r][c]
    ensures v.Array? ==>
      forall r: nat, c: nat :: r < rows && c < cols && (r >= v.rows || c >= v.cols) ==> e.cells[r][c] == fill
  {
    Array(rows, cols,
      seq(rows, r requires 0 <= r < rows =>
        seq(cols, c requires 0 <= c < cols => Aligned(v, r, c, fill))))
  }

  /** Expanding an array to the shape it already has gives back that same array. */
  lemma ExpandKeepsMatchingArray(v: Value, fill: Cell)
    requires WellFormed(v) && v.Array?
    ensures Expand(v.rows, v.cols, v, fill) == v
  {
    var e := Expand(v.rows, v.cols, v, fill);
    forall r | 0 <= r < v.rows
      ensures e.cells[r] == v.cells[r]
    {
      assert |e.cells[r]| == |v.cells[r]|;
    }
    assert e.cells == v.cells;
  }
}
