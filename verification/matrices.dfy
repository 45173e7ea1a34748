/**
  The matrix of the calculator as the code is written: a grid of exact
  rationals plus a checksum that every mutation updates by a delta instead
  of recomputing it. Each mutator returns an `Outcome` holding the state the
  matrix is left in, since a rejected `insert_row` still changes the
  checksum; an unchecked row index in `Multiply` or `ReplaceWithMultiple`
  is the `Panicked` outcome.

  Operations that index cells require `Rectangular(elements)`: the field is
  private and only `InsertRow` adds rows, and it keeps that shape.
 */
module Matrices {
  import opened Common
  import opened Grid
  import Operations

  datatype Matrix = Matrix(elements: Cells, checksum: real)

  datatype MatrixError =
    | ShapeError(expected: nat, got: nat, row: Row)
    | RowOutOfRange(height: nat, index: nat)
    | ColumnOutOfRange(width: nat, index: nat)
    | EmptyRow(rowIndex: nat, column: nat)

  /** What a mutating call leaves behind: success, an error with the state it leaves, or a panic. */
  datatype Outcome =
    | Applied(after: Matrix)
    | Rejected(after: Matrix, error: MatrixError)
    | Panicked

  /** The checksum holds exactly the digest of the cells. */
  ghost predicate Consistent(m: Matrix)
  {
    m.checksum == Digest(m.elements)
  }

  /** The number of rows; zero exactly for the matrix without rows. */
  function Height(m: Matrix): (r: nat)
    ensures r == 0 <==> m.elements == []
  {
    |m.elements|
  }

  /** The length of the first row; undefined while there are no rows. */
  function Width(m: Matrix): (r: Option<nat>)
    ensures r.None? <==> Height(m) == 0
    ensures r.Some? ==> r.value == |m.elements[0]|
    ensures r.Some? && Rectangular(m.elements) ==> forall i :: 0 <= i < Height(m) ==> |m.elements[i]| == r.value
  {
    if m.elements == [] then None else Some(|m.elements[0]|)
  }

  /** The empty matrix. */
  function New(): (r: Matrix)
    ensures Height(r) == 0 && Width(r) == None && r.checksum == 0.0
    ensures Rectangular(r.elements) && Consistent(r)
  {
    Matrix([], 0.0)
  }

  /**
    Appends `row` at index `Height(m)` when it matches the established width.
    The checksum terms of the row are added before the width is checked, so
    they are added even when the row is rejected.
   */
  function InsertRow(m: Matrix, row: Row): (out: Outcome)
    ensures out.Applied? <==> Width(m) == None || Width(m) == Some(|row|)
    ensures out.Applied? ==> out.after.elements == m.elements + [row]
    ensures out.Rejected? ==>
      out.after.elements == m.elements && out.error == ShapeError(|m.elements[0]|, |row|, row)
    ensures !out.Panicked? && out.after.checksum == m.checksum + RowDigest(Height(m), row)
    ensures Rectangular(m.elements) ==> Rectangular(out.after.elements)
    ensures out.Applied? && Consistent(m) ==> Consistent(out.after)
  {
    var checksum := m.checksum + RowDigest(Height(m), row);
    DigestAppend(m.elements, row);
    match Width(m)
    case Some(width) =>
      if width == |row| then Applied(Matrix(m.elements + [row], checksum))
      else Rejected(Matrix(m.elements, checksum), ShapeError(width, |row|, row))
    case None => Applied(Matrix(m.elements + [row], checksum))
  }

  /**
    Builds a matrix from `rows` by inserting them in order, stopping at the
    first row whose length differs from the first row's.
   */
  method FromIter(rows: seq<Row>) returns (r: Result<Matrix, MatrixError>)
    ensures r.Ok? <==> Rectangular(rows)
    ensures r.Ok? ==> r.value.elements == rows && Consistent(r.value)
    ensures r.Err? ==>
      exists k :: 0 < k < |rows| && |rows[k]| != |rows[0]|
        && (forall j :: 0 <= j < k ==> |rows[j]| == |rows[0]|)
        && r.error == ShapeError(|rows[0]|, |rows[k]|, rows[k])
  {
    var m := New();
    for k := 0 to |rows|
      invariant m.elements == rows[..k]
      invariant Consistent(m)
      invariant forall j :: 0 <= j < k ==> |rows[j]| == |rows[0]|
    {
      var out := InsertRow(m, rows[k]);
      InsertNext(rows, k, m);
      if out.Rejected? {
        return Err(out.error);
      }
      m := out.after;
    }
    assert rows[..|rows|] == rows;
    return Ok(m);
  }

  /** One step of `FromIter`: the next row is appended, or it is the first one of a different length. */
  lemma InsertNext(rows: seq<Row>, k: nat, m: Matrix)
    requires k < |rows| && m.elements == rows[..k] && Consistent(m)
    requires forall j :: 0 <= j < k ==> |rows[j]| == |rows[0]|
    ensures InsertRow(m, rows[k]).Rejected? ==>
      0 < k && |rows[k]| != |rows[0]| && InsertRow(m, rows[k]).error == ShapeError(|rows[0]|, |rows[k]|, rows[k])
    ensures InsertRow(m, rows[k]).Applied? ==>
      && InsertRow(m, rows[k]).after.elements == rows[..k + 1]
      && Consistent(InsertRow(m, rows[k]).after)
      && |rows[k]| == |rows[0]|
  {
    assert rows[..k + 1] == rows[..k] + [rows[k]];
  }

  /** The bounds check in front of every cell access. */
  function CheckXY(m: Matrix, x: nat, y: nat): (r: Result<(), MatrixError>)
    ensures r.Ok? <==> x < Height(m) && y < |m.elements[0]|
    ensures x >= Height(m) ==> r == Err(RowOutOfRange(Height(m), x))
    ensures x < Height(m) && y >= |m.elements[0]| ==> r == Err(ColumnOutOfRange(|m.elements[0]|, y))
    ensures !(r.Err? && r.error.EmptyRow?)
  {
    if x >= Height(m) then Err(RowOutOfRange(Height(m), x))
    else
      match Width(m)
      case Some(width) => if y >= width then Err(ColumnOutOfRange(width, y)) else Ok(())
      case None => Err(EmptyRow(x, y))
  }

  /** Bounds-checked read of cell `(x, y)`. */
  function Get(m: Matrix, x: nat, y: nat): (r: Result<real, MatrixError>)
    requires Rectangular(m.elements)
    ensures r.Ok? <==> x < Height(m) && y < |m.elements[x]|
    ensures r.Ok? ==> r.value == m.elements[x][y]
    ensures r.Err? ==> CheckXY(m, x, y) == Err(r.error)
  {
    match CheckXY(m, x, y)
    case Err(e) => Err(e)
    case Ok(_) => Ok(m.elements[x][y])
  }

  /** `e'` is `e` with cell `(x, y)` set to `v` and every other cell kept. */
  ghost predicate CellWritten(e: Cells, x: nat, y: nat, v: real, e': Cells)
  {
    && |e'| == |e|
    && (forall i :: 0 <= i < |e| ==> |e'[i]| == |e[i]|)
    && forall i, j :: 0 <= i < |e| && 0 <= j < |e[i]| ==> e'[i][j] == if i == x && j == y then v else e[i][j]
  }

  /**
    Bounds-checked write of cell `(x, y)`. The checksum is moved by the old
    term minus the new one, the opposite of the change in the digest.
   */
  function Set(m: Matrix, x: nat, y: nat, v: real): (out: Outcome)
    requires Rectangular(m.elements)
    ensures out.Applied? <==> x < Height(m) && y < |m.elements[x]|
    ensures !out.Panicked? && Rectangular(out.after.elements)
    ensures out.Rejected? ==> out.after == m && CheckXY(m, x, y) == Err(out.error)
    ensures out.Applied? ==>
      out.after.checksum == m.checksum + CalcChecksum(x as real, y as real, m.elements[x][y]) - CalcChecksum(x as real, y as real, v)
  {
    match CheckXY(m, x, y)
    case Err(e) => Rejected(m, e)
    case Ok(_) =>
      var n := m.elements[x][y];
      var diff := CalcChecksum(x as real, y as real, n) - CalcChecksum(x as real, y as real, v);
      Applied(Matrix(m.elements[x := m.elements[x][y := v]], m.checksum + diff))
  }

  /** As written, an in-range `Set` moves the checksum by minus the change in the digest. */
  lemma SetMirrorsDigest(m: Matrix, x: nat, y: nat, v: real)
    requires Rectangular(m.elements) && x < Height(m) && y < |m.elements[x]|
    ensures Set(m, x, y, v).after.checksum - m.checksum == Digest(m.elements) - Digest(Set(m, x, y, v).after.elements)
  {
    DigestUpdate(m.elements, x, y, v);
  }

  /** What `SwapRows` promises: both indices checked, the rows exchanged, the checksum untouched. */
  ghost predicate SwapOutcome(m: Matrix, lhs: nat, rhs: nat, out: Outcome)
  {
    if lhs >= Height(m) then out == Rejected(m, RowOutOfRange(Height(m), lhs))
    else if rhs >= Height(m) then out == Rejected(m, RowOutOfRange(Height(m), rhs))
    else out.Applied? && out.after.elements == Exchange(m.elements, lhs, rhs) && out.after.checksum == m.checksum
  }

  /** Swapping the same two rows twice gives back the matrix, checksum included. */
  lemma SwapTwiceRestores(m: Matrix, lhs: nat, rhs: nat, once: Outcome, twice: Outcome)
    requires lhs < Height(m) && rhs < Height(m)
    requires SwapOutcome(m, lhs, rhs, once) && SwapOutcome(once.after, lhs, rhs, twice)
    ensures twice == Applied(m)
  {
    ExchangeTwice(m.elements, lhs, rhs);
  }

  /** What `Multiply` promises: an unchecked row index, then the row scaled cell by cell through `Set`. */
  ghost predicate MultiplyOutcome(m: Matrix, row: nat, scaler: real, out: Outcome)
  {
    if row >= Height(m) then out.Panicked?
    else
      && out.Applied?
      && out.after.elements == m.elements[row := Scale(m.elements[row], scaler)]
      && out.after.checksum == m.checksum + (1.0 - scaler) * RowDigest(row, m.elements[row])
  }

  /**
    What `ReplaceWithMultiple` promises: unchecked row indices, then
    `scaler` times a snapshot of the source row added into the target
    row cell by cell through `Set`.
   */
  ghost predicate ReplaceOutcome(m: Matrix, scaler: real, fromRow: nat, toRow: nat, out: Outcome)
    requires Rectangular(m.elements)
  {
    if fromRow >= Height(m) || toRow >= Height(m) then out.Panicked?
    else
      && out.Applied?
      && out.after.elements == m.elements[toRow := AddScaled(m.elements[toRow], m.elements[fromRow], scaler)]
      && out.after.checksum == m.checksum - scaler * RowDigest(toRow, m.elements[fromRow])
  }

  /**
    Exchanges two rows, then runs the two checksum loops of `operate`: the
    first adds, per column, the term at `rhs` minus the term at `lhs`, the
    second the reverse, so the two cancel.
   */
  method SwapRows(m: Matrix, lhs: nat, rhs: nat) returns (out: Outcome)
    requires Rectangular(m.elements)
    ensures SwapOutcome(m, lhs, rhs, out)
    ensures !out.Panicked? && Rectangular(out.after.elements)
  {
    var height := |m.elements|;
    if lhs >= height {
      return Rejected(m, RowOutOfRange(height, lhs));
    }
    if rhs >= height {
      return Rejected(m, RowOutOfRange(height, rhs));
    }
    var elements := Exchange(m.elements, lhs, rhs);
    ExchangeRectangular(m.elements, lhs, rhs);
    ghost var left, right := m.elements[lhs], m.elements[rhs];
    var checksum := m.checksum;
    for i := 0 to |elements[lhs]|
      invariant checksum == m.checksum + RowDigestTo(rhs, left, i) - RowDigestTo(lhs, right, i)
    {
      var previous := elements[rhs][i];
      var moved := elements[lhs][i];
      checksum := checksum + (CalcChecksum(rhs as real, i as real, previous) - CalcChecksum(lhs as real, i as real, moved));
      RowDigestStep(rhs, left, i);
      RowDigestStep(lhs, right, i);
    }
    ghost var middle := checksum;
    for i := 0 to |elements[rhs]|
      invariant checksum == middle + RowDigestTo(lhs, right, i) - RowDigestTo(rhs, left, i)
    {
      var previous := elements[lhs][i];
      var moved := elements[rhs][i];
      checksum := checksum + (CalcChecksum(lhs as real, i as real, previous) - CalcChecksum(rhs as real, i as real, moved));
      RowDigestStep(rhs, left, i);
      RowDigestStep(lhs, right, i);
    }
    return Applied(Matrix(elements, checksum));
  }

  /** Multiplies every cell of `row` by `scaler`, one `Get` and one `Set` per column. */
  method Multiply(m: Matrix, row: nat, scaler: real) returns (out: Outcome)
    requires Rectangular(m.elements)
    ensures MultiplyOutcome(m, row, scaler, out)
    ensures !out.Panicked? ==> Rectangular(out.after.elements)
  {
    if row >= |m.elements| {
      return Panicked;
    }
    var current := m;
    ScaledNone(m, row, scaler);
    for i := 0 to |m.elements[row]|
      invariant ScaledUpTo(m, row, scaler, i, current)
    {
      current := MultiplyCell(m, row, scaler, i, current);
    }
    ScaledAll(m, row, scaler, current);
    return Applied(current);
  }

  /**
    Adds `scaler` times row `fromRow` to row `toRow`, reading the source
    row once before any cell is written.
   */
  method ReplaceWithMultiple(m: Matrix, scaler: real, fromRow: nat, toRow: nat) returns (out: Outcome)
    requires Rectangular(m.elements)
    ensures ReplaceOutcome(m, scaler, fromRow, toRow, out)
    ensures !out.Panicked? ==> Rectangular(out.after.elements)
  {
    if fromRow >= |m.elements| {
      return Panicked;
    }
    var snapshot := Scale(m.elements[fromRow], scaler);
    if toRow >= |m.elements| {
      return Panicked;
    }
    var current := m;
    AddedNone(m, scaler, fromRow, toRow);
    for i := 0 to |m.elements[toRow]|
      invariant AddedUpTo(m, scaler, fromRow, toRow, i, current)
    {
      current := ReplaceCell(m, snapshot, scaler, fromRow, toRow, i, current);
    }
    AddedAll(m, scaler, fromRow, toRow, current);
    out := Applied(current);
  }

  /**
    `Multiply` after `i` columns: the first `i` cells of `row` scaled, the
    rest as they were, and the checksum moved by `1 - scaler` times the
    terms of the cells already done.
   */
  ghost predicate ScaledUpTo(m: Matrix, row: nat, scaler: real, i: nat, current: Matrix)
  {
    && row < |m.elements| && i <= |m.elements[row]| && Rectangular(current.elements)
    && current.elements == m.elements[row := ScaleFirst(m.elements[row], scaler, i)]
    && current.checksum == m.checksum + (1.0 - scaler) * RowDigestTo(row, m.elements[row], i)
  }

  /**
    `ReplaceWithMultiple` after `i` columns: the first `i` cells of the
    target with the source added in, the rest as they were, and `scaler`
    times the source cells' terms taken off the checksum.
   */
  ghost predicate AddedUpTo(m: Matrix, scaler: real, fromRow: nat, toRow: nat, i: nat, current: Matrix)
  {
    && fromRow < |m.elements| && toRow < |m.elements| && |m.elements[fromRow]| == |m.elements[toRow]|
    && i <= |m.elements[toRow]| && Rectangular(current.elements)
    && current.elements == m.elements[toRow := AddScaledFirst(m.elements[toRow], m.elements[fromRow], scaler, i)]
    && current.checksum == m.checksum - scaler * RowDigestTo(toRow, m.elements[fromRow], i)
  }

  /** One column of `Multiply`: `Get` the cell, `Set` it to its product with `scaler`. */
  method MultiplyCell(m: Matrix, row: nat, scaler: real, i: nat, current: Matrix) returns (next: Matrix)
    requires ScaledUpTo(m, row, scaler, i, current) && i < |m.elements[row]|
    ensures ScaledUpTo(m, row, scaler, i + 1, next)
  {
    var cell := Get(current, row, i);
    var scaled := cell.value * scaler;
    var step := Set(current, row, i, scaled);
    SetIsUpdate(current, row, i, scaled);
    next := step.after;
    ScaledStep(m, row, scaler, i, current, scaled, next);
  }

  /** The bookkeeping of one column of `Multiply`, given what `Set` did. */
  lemma ScaledStep(m: Matrix, row: nat, scaler: real, i: nat, current: Matrix, scaled: real, next: Matrix)
    requires ScaledUpTo(m, row, scaler, i, current) && i < |m.elements[row]|
    requires scaled == current.elements[row][i] * scaler
    requires Rectangular(next.elements)
    requires next.elements == current.elements[row := current.elements[row][i := scaled]]
    requires next.checksum == current.checksum
      + CalcChecksum(row as real, i as real, current.elements[row][i]) - CalcChecksum(row as real, i as real, scaled)
    ensures ScaledUpTo(m, row, scaler, i + 1, next)
  {
    var original := m.elements[row];
    ScaleStepCells(m.elements, row, scaler, i, current.elements, scaled);
    assert current.elements[row][i] == original[i] by {
      ScaleFirstFacts(original, scaler, i);
    }
    ScaleTotalStep(row, original, scaler, i, current.elements[row][i], scaled, m.checksum, current.checksum, next.checksum);
  }

  /** One column of `ReplaceWithMultiple`: `Get` the target cell, `Set` it to its sum with the snapshot's cell. */
  method ReplaceCell(m: Matrix, snapshot: Row, scaler: real, fromRow: nat, toRow: nat, i: nat, current: Matrix)
    returns (next: Matrix)
    requires AddedUpTo(m, scaler, fromRow, toRow, i, current) && i < |m.elements[toRow]|
    requires snapshot == Scale(m.elements[fromRow], scaler)
    ensures AddedUpTo(m, scaler, fromRow, toRow, i + 1, next)
  {
    var cell := Get(current, toRow, i);
    var added := cell.value + snapshot[i];
    var step := Set(current, toRow, i, added);
    SetIsUpdate(current, toRow, i, added);
    next := step.after;
    AddedStep(m, scaler, fromRow, toRow, i, current, added, next);
  }

  /** The bookkeeping of one column of `ReplaceWithMultiple`, given what `Set` did. */
  lemma AddedStep(m: Matrix, scaler: real, fromRow: nat, toRow: nat, i: nat, current: Matrix, added: real, next: Matrix)
    requires AddedUpTo(m, scaler, fromRow, toRow, i, current) && i < |m.elements[toRow]|
    requires added == current.elements[toRow][i] + m.elements[fromRow][i] * scaler
    requires Rectangular(next.elements)
    requires next.elements == current.elements[toRow := current.elements[toRow][i := added]]
    requires next.checksum == current.checksum
      + CalcChecksum(toRow as real, i as real, current.elements[toRow][i]) - CalcChecksum(toRow as real, i as real, added)
    ensures AddedUpTo(m, scaler, fromRow, toRow, i + 1, next)
  {
    var target, source := m.elements[toRow], m.elements[fromRow];
    assert next.elements == m.elements[toRow := AddScaledFirst(target, source, scaler, i + 1)] by {
      AddScaledStepCells(m.elements, toRow, source, scaler, i, current.elements, added);
    }
    assert next.checksum == m.checksum - scaler * RowDigestTo(toRow, source, i + 1) by {
      AddTotalStep(toRow, source, scaler, i, current.elements[toRow][i], added, m.checksum, current.checksum, next.checksum);
    }
  }

  /** `Multiply` starts from the matrix as given. */
  lemma ScaledNone(m: Matrix, row: nat, scaler: real)
    requires Rectangular(m.elements) && row < Height(m)
    ensures ScaledUpTo(m, row, scaler, 0, m)
  {
    assert ScaleFirst(m.elements[row], scaler, 0) == m.elements[row];
  }

  /** `ReplaceWithMultiple` starts from the matrix as given. */
  lemma AddedNone(m: Matrix, scaler: real, fromRow: nat, toRow: nat)
    requires Rectangular(m.elements) && fromRow < Height(m) && toRow < Height(m)
    ensures AddedUpTo(m, scaler, fromRow, toRow, 0, m)
  {
    assert AddScaledFirst(m.elements[toRow], m.elements[fromRow], scaler, 0) == m.elements[toRow];
  }

  /** After every column, `Multiply` has done what it promises. */
  lemma ScaledAll(m: Matrix, row: nat, scaler: real, current: Matrix)
    requires row < Height(m) && ScaledUpTo(m, row, scaler, |m.elements[row]|, current)
    ensures MultiplyOutcome(m, row, scaler, Applied(current)) && Rectangular(current.elements)
  {
    assert ScaleFirst(m.elements[row], scaler, |m.elements[row]|) == Scale(m.elements[row], scaler);
  }

  /** After every column, `ReplaceWithMultiple` has done what it promises. */
  lemma AddedAll(m: Matrix, scaler: real, fromRow: nat, toRow: nat, current: Matrix)
    requires Rectangular(m.elements) && toRow < Height(m) && AddedUpTo(m, scaler, fromRow, toRow, |m.elements[toRow]|, current)
    ensures ReplaceOutcome(m, scaler, fromRow, toRow, Applied(current)) && Rectangular(current.elements)
  {
    var target, source := m.elements[toRow], m.elements[fromRow];
    assert AddScaledFirst(target, source, scaler, |target|) == AddScaled(target, source, scaler);
  }

  /** Adding a row to itself scales it by one plus the scaler. */
  lemma ReplaceSelfScales(m: Matrix, scaler: real, row: nat, out: Outcome)
    requires Rectangular(m.elements) && row < Height(m) && ReplaceOutcome(m, scaler, row, row, out)
    ensures out.after.elements[row] == Scale(m.elements[row], 1.0 + scaler)
  {
    AddScaledSelf(m.elements[row], scaler);
  }

  /** An in-range `Set` writes exactly the one cell it names. */
  lemma SetWritesOneCell(m: Matrix, x: nat, y: nat, v: real)
    requires Rectangular(m.elements) && x < Height(m) && y < |m.elements[x]|
    ensures CellWritten(m.elements, x, y, v, Set(m, x, y, v).after.elements)
  {
  }

  /** An in-range `Set` is a sequence update of one cell. */
  lemma SetIsUpdate(m: Matrix, x: nat, y: nat, v: real)
    requires Rectangular(m.elements) && x < Height(m) && y < |m.elements[x]|
    ensures Set(m, x, y, v).after.elements == m.elements[x := m.elements[x][y := v]]
  {
  }

  /** Applies one parsed operation; help is not a matrix operation and changes nothing. */
  method Operate(m: Matrix, op: Operations.Operation) returns (out: Outcome)
    requires Rectangular(m.elements)
    ensures !out.Panicked? ==> Rectangular(out.after.elements)
    ensures op.SwapRows? ==> SwapOutcome(m, op.lhs, op.rhs, out)
    ensures op.Multiply? ==> MultiplyOutcome(m, op.row, op.scaler, out)
    ensures op.ReplaceWithMultiple? ==> ReplaceOutcome(m, op.scaler, op.fromRow, op.toRow, out)
    ensures op.ShowHelp? ==> out == Applied(m)
  {
    match op
    case SwapRows(lhs, rhs) => out := SwapRows(m, lhs, rhs);
    case Multiply(row, scaler) => out := Multiply(m, row, scaler);
    case ReplaceWithMultiple(scaler, fromRow, toRow) => out := ReplaceWithMultiple(m, scaler, fromRow, toRow);
    case ShowHelp => out := Applied(m);
  }

  /** `PartialEq`: checksums first, then cells. */
  function Eq(a: Matrix, b: Matrix): (r: bool)
    ensures r <==> a == b
  {
    if a.checksum != b.checksum then false else a.elements == b.elements
  }

  /** On consistent matrices the checksum comparison never hides equal cells. */
  lemma EqOnConsistent(a: Matrix, b: Matrix)
    requires Consistent(a) && Consistent(b)
    ensures Eq(a, b) <==> a.elements == b.elements
  {
  }

  /** As written, `Multiply` moves the checksum by minus the change in the digest. */
  lemma MultiplyMirrorsDigest(m: Matrix, row: nat, scaler: real, out: Outcome)
    requires Rectangular(m.elements) && row < Height(m) && MultiplyOutcome(m, row, scaler, out)
    ensures out.after.checksum - m.checksum == Digest(m.elements) - Digest(out.after.elements)
  {
    ScaleMirror(m.elements, row, m.elements[row], scaler, out.after.elements, m.checksum, out.after.checksum);
  }

  /** As written, `ReplaceWithMultiple` moves the checksum by minus the change in the digest. */
  lemma ReplaceMirrorsDigest(m: Matrix, scaler: real, fromRow: nat, toRow: nat, out: Outcome)
    requires Rectangular(m.elements) && fromRow < Height(m) && toRow < Height(m)
    requires ReplaceOutcome(m, scaler, fromRow, toRow, out)
    ensures out.after.checksum - m.checksum == Digest(m.elements) - Digest(out.after.elements)
  {
    AddScaledMirror(m.elements, toRow, m.elements[toRow], m.elements[fromRow], scaler,
      out.after.elements, m.checksum, out.after.checksum);
  }
}
