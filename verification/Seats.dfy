/** Seat coordinates and their place in the flat seat array (operations.c, `seat_index`). */
module Seats {
  import opened Common

  datatype Seat = Seat(row: size, col: size)

  /** The row-major place of a seat, in unbounded arithmetic. */
  function Index(cols: nat, s: Seat): int {
    (s.row - 1) * cols + s.col - 1
  }

  /** The same expression as `size_t` arithmetic computes it. */
  function MachineIndex(cols: size, s: Seat): size {
    Index(cols, s) % (SIZE_MAX + 1)
  }

  predicate InGrid(rows: nat, cols: nat, s: Seat) {
    1 <= s.row <= rows && 1 <= s.col <= cols
  }

  /** The cells a request names. */
  function Cells(cols: nat, req: seq<Seat>): set<int> {
    set s | s in req :: Index(cols, s)
  }

  lemma IndexInRange(rows: nat, cols: nat, s: Seat)
    requires InGrid(rows, cols, s)
    ensures 0 <= Index(cols, s) < rows * cols
  {
    assert (s.row - 1) * cols >= 0;
    assert (s.row - 1) * cols + cols == s.row * cols;
    assert s.row * cols <= rows * cols;
  }

  /** Within an allocated grid the machine expression never wraps. */
  lemma IndexDoesNotWrap(rows: size, cols: size, s: Seat)
    requires InGrid(rows, cols, s) && rows * cols <= SIZE_MAX
    ensures MachineIndex(cols, s) == Index(cols, s)
  {
    IndexInRange(rows, cols, s);
  }

  /** Dimensions read by `parse_uint` fit a 64-bit `size_t` product. */
  lemma ParsedDimensionsFit(rows: uint, cols: uint)
    ensures rows * cols <= SIZE_MAX
  {
    assert rows * cols <= UINT_MAX * cols <= UINT_MAX * UINT_MAX;
  }

  /** The seat stored at a place of the array: the inverse of `Index`. */
  function SeatAt(rows: size, cols: size, i: nat): (s: Seat)
    requires i < rows * cols
    ensures InGrid(rows, cols, s) && Index(cols, s) == i
  {
    SeatAtInGrid(rows, cols, i);
    Seat(i / cols + 1, i % cols + 1)
  }

  lemma MulMonotonic(a: int, b: int, c: nat)
    requires a <= b
    ensures a * c <= b * c
  {
  }

  /** A row of the grid is a stretch of the array. */
  lemma RowFits(rows: nat, cols: nat, row: nat)
    requires 1 <= row <= rows
    ensures 0 <= (row - 1) * cols && (row - 1) * cols + cols == row * cols <= rows * cols
  {
    MulMonotonic(0, row - 1, cols);
    MulMonotonic(row, rows, cols);
    assert (row - 1) * cols == row * cols - cols;
  }

  lemma SeatAtInGrid(rows: size, cols: size, i: nat)
    requires i < rows * cols
    ensures cols > 0 && 1 <= i / cols + 1 <= rows && 1 <= i % cols + 1 <= cols
    ensures (i / cols) * cols + i % cols == i
  {
    assert cols != 0;
    var q := i / cols;
    assert q * cols + i % cols == i;
    assert q < rows by {
      if rows <= q { MulMonotonic(rows, q, cols); }
    }
  }

  /** `Index` is one-to-one on the grid, so with `SeatAt` a bijection onto the array. */
  lemma IndexInjective(rows: nat, cols: nat, s: Seat, t: Seat)
    requires InGrid(rows, cols, s) && InGrid(rows, cols, t)
    requires Index(cols, s) == Index(cols, t)
    ensures s == t
  {
    if s.row < t.row { LaterRowLaterIndex(rows, cols, s, t); }
    if t.row < s.row { LaterRowLaterIndex(rows, cols, t, s); }
  }

  lemma LaterRowLaterIndex(rows: nat, cols: nat, s: Seat, t: Seat)
    requires InGrid(rows, cols, s) && InGrid(rows, cols, t) && s.row < t.row
    ensures Index(cols, s) < Index(cols, t)
  {
    MulMonotonic(s.row, t.row - 1, cols);
    assert s.row * cols == (s.row - 1) * cols + cols;
  }

  /** The seat of cell `i` is named by a request exactly when the request's cells contain `i`. */
  lemma NamedIffCell(rows: size, cols: size, req: seq<Seat>, i: nat)
    requires i < rows * cols
    requires forall s :: s in req ==> InGrid(rows, cols, s)
    ensures i in Cells(cols, req) <==> SeatAt(rows, cols, i) in req
  {
    if i in Cells(cols, req) {
      var s :| s in req && Index(cols, s) == i;
      IndexInjective(rows, cols, s, SeatAt(rows, cols, i));
    }
  }
}
