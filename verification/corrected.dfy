/**
  The checksum bookkeeping of the matrix as it is evidently meant: every
  mutation moves the checksum by exactly the change in the digest of the
  cells, so a matrix whose checksum matches its cells keeps matching. The
  cell arithmetic, the bounds checks and the panics are those of
  `Matrices`; only the checksum updates differ:

  - `Set` adds the new cell's term and takes off the old one;
  - `InsertRow` checks the width before it touches the checksum;
  - `SwapRows` re-places each exchanged cell at its own new row index.

  `Multiply` and `ReplaceWithMultiple` are unchanged apart from going
  through the corrected `Set`. The lemmas at the end show, on small
  matrices, where the code as written loses track.
 */
module Corrected {
  import opened Common
  import opened Grid
  import Operations
  import Matrices

  type Matrix = Matrices.Matrix
  type Outcome = Matrices.Outcome

  /** From `m` to `after` the checksum moved by exactly the change in the digest. */
  ghost predicate Tracks(m: Matrix, after: Matrix)
  {
    after.checksum - m.checksum == Digest(after.elements) - Digest(m.elements)
  }

  /** Appends `row` when it matches the established width; a rejected row leaves the matrix untouched. */
  function InsertRow(m: Matrix, row: Row): (out: Outcome)
    ensures out.Applied? <==> Matrices.Width(m) == None || Matrices.Width(m) == Some(|row|)
    ensures out.Applied? ==> out.after.elements == m.elements + [row]
    ensures out.Rejected? ==> out.after == m && out.error == Matrices.ShapeError(|m.elements[0]|, |row|, row)
    ensures !out.Panicked? && Tracks(m, out.after)
    ensures Rectangular(m.elements) ==> Rectangular(out.after.elements)
  {
    var appended := Matrices.Matrix(m.elements + [row], m.checksum + RowDigest(|m.elements|, row));
    DigestAppend(m.elements, row);
    match Matrices.Width(m)
    case Some(width) =>
      if width == |row| then Matrices.Applied(appended)
      else Matrices.Rejected(m, Matrices.ShapeError(width, |row|, row))
    case None => Matrices.Applied(appended)
  }

  /** Bounds-checked write of cell `(x, y)`, moving the checksum by the new term minus the old one. */
  function Set(m: Matrix, x: nat, y: nat, v: real): (out: Outcome)
    requires Rectangular(m.elements)
    ensures out.Applied? <==> x < |m.elements| && y < |m.elements[x]|
    ensures !out.Panicked? && Rectangular(out.after.elements)
    ensures out.Rejected? ==> out.after == m && Matrices.CheckXY(m, x, y) == Err(out.error)
    ensures out.Applied? ==>
      out.after.checksum == m.checksum + CalcChecksum(x as real, y as real, v) - CalcChecksum(x as real, y as real, m.elements[x][y])
  {
    match Matrices.CheckXY(m, x, y)
    case Err(e) => Matrices.Rejected(m, e)
    case Ok(_) =>
      var diff := CalcChecksum(x as real, y as real, v) - CalcChecksum(x as real, y as real, m.elements[x][y]);
      ReplacedRectangular(m.elements, x, m.elements[x][y := v]);
      Matrices.Applied(Matrices.Matrix(m.elements[x := m.elements[x][y := v]], m.checksum + diff))
  }

  /** Every `Set`, in range or not, moves the checksum by exactly the change in the digest. */
  lemma SetTracks(m: Matrix, x: nat, y: nat, v: real)
    requires Rectangular(m.elements)
    ensures Tracks(m, Set(m, x, y, v).after)
  {
    if x < |m.elements| && y < |m.elements[x]| {
      DigestUpdate(m.elements, x, y, v);
    }
  }

  /** An in-range `Set` writes exactly the one cell it names. */
  lemma SetWritesOneCell(m: Matrix, x: nat, y: nat, v: real)
    requires Rectangular(m.elements) && x < |m.elements| && y < |m.elements[x]|
    ensures Matrices.CellWritten(m.elements, x, y, v, Set(m, x, y, v).after.elements)
  {
  }

  /** An in-range `Set` is a sequence update of one cell. */
  lemma SetIsUpdate(m: Matrix, x: nat, y: nat, v: real)
    requires Rectangular(m.elements) && x < |m.elements| && y < |m.elements[x]|
    ensures Set(m, x, y, v).after.elements == m.elements[x := m.elements[x][y := v]]
  {
  }

  /** What the corrected `SwapRows` promises: both indices checked, the rows exchanged, the checksum tracking. */
  ghost predicate SwapOutcome(m: Matrix, lhs: nat, rhs: nat, out: Outcome)
  {
    if lhs >= |m.elements| then out == Matrices.Rejected(m, Matrices.RowOutOfRange(|m.elements|, lhs))
    else if rhs >= |m.elements| then out == Matrices.Rejected(m, Matrices.RowOutOfRange(|m.elements|, rhs))
    else out.Applied? && out.after.elements == Exchange(m.elements, lhs, rhs) && Tracks(m, out.after)
  }

  /** What the corrected `Multiply` promises: the row scaled, the checksum tracking. */
  ghost predicate MultiplyOutcome(m: Matrix, row: nat, scaler: real, out: Outcome)
  {
    if row >= |m.elements| then out.Panicked?
    else
      && out.Applied?
      && out.after.elements == m.elements[row := Scale(m.elements[row], scaler)]
      && Tracks(m, out.after)
  }

  /** What the corrected `ReplaceWithMultiple` promises: the source added in, the checksum tracking. */
  ghost predicate ReplaceOutcome(m: Matrix, scaler: real, fromRow: nat, toRow: nat, out: Outcome)
    requires Rectangular(m.elements)
  {
    if fromRow >= |m.elements| || toRow >= |m.elements| then out.Panicked?
    else
      && out.Applied?
      && out.after.elements == m.elements[toRow := AddScaled(m.elements[toRow], m.elements[fromRow], scaler)]
      && Tracks(m, out.after)
  }

  /**
    Exchanges two rows, then runs two checksum loops: the first moves, per
    column, the term at row `lhs` from the old cell to the new one, the
    second does the same at row `rhs`.
   */
  method SwapRows(m: Matrix, lhs: nat, rhs: nat) returns (out: Outcome)
    requires Rectangular(m.elements)
    ensures SwapOutcome(m, lhs, rhs, out)
    ensures !out.Panicked? && Rectangular(out.after.elements)
  {
    var height := |m.elements|;
    if lhs >= height {
      return Matrices.Rejected(m, Matrices.RowOutOfRange(height, lhs));
    }
    if rhs >= height {
      return Matrices.Rejected(m, Matrices.RowOutOfRange(height, rhs));
    }
    var elements := Exchange(m.elements, lhs, rhs);
    ExchangeRectangular(m.elements, lhs, rhs);
    ghost var left, right := m.elements[lhs], m.elements[rhs];
    var checksum := m.checksum;
    for i := 0 to |elements[lhs]|
      invariant checksum == m.checksum + RowDigestTo(lhs, right, i) - RowDigestTo(lhs, left, i)
    {
      var previous := elements[rhs][i];
      var moved := elements[lhs][i];
      checksum := checksum + (CalcChecksum(lhs as real, i as real, moved) - CalcChecksum(lhs as real, i as real, previous));
      RowDigestStep(lhs, left, i);
      RowDigestStep(lhs, right, i);
    }
    ghost var middle := checksum;
    for i := 0 to |elements[rhs]|
      invariant checksum == middle + RowDigestTo(rhs, left, i) - RowDigestTo(rhs, right, i)
    {
      var previous := elements[lhs][i];
      var moved := elements[rhs][i];
      checksum := checksum + (CalcChecksum(rhs as real, i as real, moved) - CalcChecksum(rhs as real, i as real, previous));
      RowDigestStep(rhs, left, i);
      RowDigestStep(rhs, right, i);
    }
    DigestExchange(m.elements, lhs, rhs);
    return Matrices.Applied(Matrices.Matrix(elements, checksum));
  }

  /** `Multiply` after `i` columns through the corrected `Set`. */
  ghost predicate ScaledUpTo(m: Matrix, row: nat, scaler: real, i: nat, current: Matrix)
  {
    && row < |m.elements| && i <= |m.elements[row]| && Rectangular(current.elements)
    && current.elements == m.elements[row := ScaleFirst(m.elements[row], scaler, i)]
    && current.checksum == m.checksum - (1.0 - scaler) * RowDigestTo(row, m.elements[row], i)
  }

  /** `ReplaceWithMultiple` after `i` columns through the corrected `Set`. */
  ghost predicate AddedUpTo(m: Matrix, scaler: real, fromRow: nat, toRow: nat, i: nat, current: Matrix)
  {
    && fromRow < |m.elements| && toRow < |m.elements| && |m.elements[fromRow]| == |m.elements[toRow]|
    && i <= |m.elements[toRow]| && Rectangular(current.elements)
    && current.elements == m.elements[toRow := AddScaledFirst(m.elements[toRow], m.elements[fromRow], scaler, i)]
    && current.checksum == m.checksum + scaler * RowDigestTo(toRow, m.elements[fromRow], i)
  }

  /** Multiplies every cell of `row` by `scaler`, one `Get` and one corrected `Set` per column. */
  method Multiply(m: Matrix, row: nat, scaler: real) returns (out: Outcome)
    requires Rectangular(m.elements)
    ensures MultiplyOutcome(m, row, scaler, out)
    ensures !out.Panicked? ==> Rectangular(out.after.elements)
  {
    if row >= |m.elements| {
      return Matrices.Panicked;
    }
    var current := m;
    assert ScaleFirst(m.elements[row], scaler, 0) == m.elements[row];
    for i := 0 to |m.elements[row]|
      invariant ScaledUpTo(m, row, scaler, i, current)
    {
      current := MultiplyCell(m, row, scaler, i, current);
    }
    assert ScaleFirst(m.elements[row], scaler, |m.elements[row]|) == Scale(m.elements[row], scaler);
    ScaleMirror(m.elements, row, m.elements[row], scaler, current.elements, -m.checksum, -current.checksum);
    return Matrices.Applied(current);
  }

  /** Adds `scaler` times row `fromRow` to row `toRow` through the corrected `Set`. */
  method ReplaceWithMultiple(m: Matrix, scaler: real, fromRow: nat, toRow: nat) returns (out: Outcome)
    requires Rectangular(m.elements)
    ensures ReplaceOutcome(m, scaler, fromRow, toRow, out)
    ensures !out.Panicked? ==> Rectangular(out.after.elements)
  {
    if fromRow >= |m.elements| {
      return Matrices.Panicked;
    }
    var snapshot := Scale(m.elements[fromRow], scaler);
    if toRow >= |m.elements| {
      return Matrices.Panicked;
    }
    var current := m;
    ghost var target, source := m.elements[toRow], m.elements[fromRow];
    assert AddScaledFirst(target, source, scaler, 0) == target;
    for i := 0 to |m.elements[toRow]|
      invariant AddedUpTo(m, scaler, fromRow, toRow, i, current)
    {
      current := ReplaceCell(m, snapshot, scaler, fromRow, toRow, i, current);
    }
    assert AddScaledFirst(target, source, scaler, |target|) == AddScaled(target, source, scaler);
    AddScaledMirror(m.elements, toRow, target, source, scaler, current.elements, -m.checksum, -current.checksum);
    out := Matrices.Applied(current);
  }

  /** One column of `Multiply`. */
  method MultiplyCell(m: Matrix, row: nat, scaler: real, i: nat, current: Matrix) returns (next: Matrix)
    requires ScaledUpTo(m, row, scaler, i, current) && i < |m.elements[row]|
    ensures ScaledUpTo(m, row, scaler, i + 1, next)
  {
    var cell := Matrices.Get(current, row, i);
    var scaled := cell.value * scaler;
    var step := Set(current, row, i, scaled);
    SetIsUpdate(current, row, i, scaled);
    next := step.after;
    ScaledStep(m, row, scaler, i, current, scaled, next);
  }

  /** The bookkeeping of one column of the corrected `Multiply`, given what `Set` did. */
  lemma ScaledStep(m: Matrix, row: nat, scaler: real, i: nat, current: Matrix, scaled: real, next: Matrix)
    requires ScaledUpTo(m, row, scaler, i, current) && i < |m.elements[row]|
    requires scaled == current.elements[row][i] * scaler
    requires Rectangular(next.elements)
    requires next.elements == current.elements[row := current.elements[row][i := scaled]]
    requires next.checksum == current.checksum
      + CalcChecksum(row as real, i as real, scaled) - CalcChecksum(row as real, i as real, current.elements[row][i])
    ensures ScaledUpTo(m, row, scaler, i + 1, next)
  {
    var original := m.elements[row];
    ScaleStepCells(m.elements, row, scaler, i, current.elements, scaled);
    assert current.elements[row][i] == original[i] by {
      ScaleFirstFacts(original, scaler, i);
    }
    ScaleTotalStep(row, original, scaler, i, current.elements[row][i], scaled, -m.checksum, -current.checksum, -next.checksum);
  }

  /** One column of `ReplaceWithMultiple`. */
  method ReplaceCell(m: Matrix, snapshot: Row, scaler: real, fromRow: nat, toRow: nat, i: nat, current: Matrix)
    returns (next: Matrix)
    requires AddedUpTo(m, scaler, fromRow, toRow, i, current) && i < |m.elements[toRow]|
    requires snapshot == Scale(m.elements[fromRow], scaler)
    ensures AddedUpTo(m, scaler, fromRow, toRow, i + 1, next)
  {
    var cell := Matrices.Get(current, toRow, i);
    var added := cell.value + snapshot[i];
    var step := Set(current, toRow, i, added);
    SetIsUpdate(current, toRow, i, added);
    next := step.after;
    AddedStep(m, scaler, fromRow, toRow, i, current, added, next);
  }

  /** The bookkeeping of one column of the corrected `ReplaceWithMultiple`, given what `Set` did. */
  lemma AddedStep(m: Matrix, scaler: real, fromRow: nat, toRow: nat, i: nat, current: Matrix, added: real, next: Matrix)
    requires AddedUpTo(m, scaler, fromRow, toRow, i, current) && i < |m.elements[toRow]|
    requires added == current.elements[toRow][i] + m.elements[fromRow][i] * scaler
    requires Rectangular(next.elements)
    requires next.elements == current.elements[toRow := current.elements[toRow][i := added]]
    requires next.checksum == current.checksum
      + CalcChecksum(toRow as real, i as real, added) - CalcChecksum(toRow as real, i as real, current.elements[toRow][i])
    ensures AddedUpTo(m, scaler, fromRow, toRow, i + 1, next)
  {
    var target, source := m.elements[toRow], m.elements[fromRow];
    assert next.elements == m.elements[toRow := AddScaledFirst(target, source, scaler, i + 1)] by {
      AddScaledStepCells(m.elements, toRow, source, scaler, i, current.elements, added);
    }
    assert next.checksum == m.checksum + scaler * RowDigestTo(toRow, source, i + 1) by {
      AddTotalStep(toRow, source, scaler, i, current.elements[toRow][i], added, -m.checksum, -current.checksum, -next.checksum);
    }
  }

  /** Applies one parsed operation; a matrix whose checksum matches its cells keeps matching. */
  method Operate(m: Matrix, op: Operations.Operation) returns (out: Outcome)
    requires Rectangular(m.elements)
    ensures !out.Panicked? ==> Rectangular(out.after.elements) && Tracks(m, out.after)
    ensures Matrices.Consistent(m) && !out.Panicked? ==> Matrices.Consistent(out.after)
    ensures op.SwapRows? ==> SwapOutcome(m, op.lhs, op.rhs, out)
    ensures op.Multiply? ==> MultiplyOutcome(m, op.row, op.scaler, out)
    ensures op.ReplaceWithMultiple? ==> ReplaceOutcome(m, op.scaler, op.fromRow, op.toRow, out)
    ensures op.ShowHelp? ==> out == Matrices.Applied(m)
  {
    match op
    case SwapRows(lhs, rhs) => out := SwapRows(m, lhs, rhs);
    case Multiply(row, scaler) => out := Multiply(m, row, scaler);
    case ReplaceWithMultiple(scaler, fromRow, toRow) => out := ReplaceWithMultiple(m, scaler, fromRow, toRow);
    case ShowHelp => out := Matrices.Applied(m);
  }

  // ---------------------------------------------------------------------
  // The code as written, on small matrices

  /** The digest of a one-row grid is the digest of that row at index 0. */
  lemma DigestOneRow(e: Cells)
    requires |e| == 1
    ensures Digest(e) == RowDigest(0, e[0])
  {
    assert DigestTo(e, 0) == 0.0;
  }

  /** The digest of a two-row grid is the sum of its rows' digests at indices 0 and 1. */
  lemma DigestTwoRows(e: Cells)
    requires |e| == 2
    ensures Digest(e) == RowDigest(0, e[0]) + RowDigest(1, e[1])
  {
    assert DigestTo(e, 1) == RowDigest(0, e[0]) by {
      assert DigestTo(e, 0) == 0.0;
    }
  }

  /** The digest of a one-cell row. */
  lemma RowDigestOne(x: nat, row: Row)
    requires |row| == 1
    ensures RowDigest(x, row) == CalcChecksum(x as real, 0.0, row[0])
  {
    assert RowDigestTo(x, row, 0) == 0.0;
  }

  /** The digest of a two-cell row. */
  lemma RowDigestTwo(x: nat, row: Row)
    requires |row| == 2
    ensures RowDigest(x, row) == CalcChecksum(x as real, 0.0, row[0]) + CalcChecksum(x as real, 1.0, row[1])
  {
    assert RowDigestTo(x, row, 1) == CalcChecksum(x as real, 0.0, row[0]) by {
      assert RowDigestTo(x, row, 0) == 0.0;
    }
  }

  /**
    Writing 5 into cell (0, 1) of the consistent matrix `[[1, 2]]`: as
    written the checksum goes from 2 to -1 while the digest goes to 5; the
    corrected `Set` moves it to 5.
   */
  lemma SetCounterexample()
    ensures var m := Matrices.Matrix([[1.0, 2.0]], 2.0);
      && Matrices.Consistent(m)
      && Matrices.Set(m, 0, 1, 5.0).after.checksum == -1.0
      && !Matrices.Consistent(Matrices.Set(m, 0, 1, 5.0).after)
      && Matrices.Consistent(Set(m, 0, 1, 5.0).after)
  {
    var m := Matrices.Matrix([[1.0, 2.0]], 2.0);
    DigestOneRow(m.elements);
    RowDigestTwo(0, m.elements[0]);
    var after := Matrices.Set(m, 0, 1, 5.0).after;
    Matrices.SetIsUpdate(m, 0, 1, 5.0);
    assert [1.0, 2.0][1 := 5.0] == [1.0, 5.0];
    assert after.elements == [[1.0, 5.0]];
    DigestOneRow(after.elements);
    RowDigestTwo(0, after.elements[0]);
  }

  /**
    Multiplying row 0 of the consistent matrix `[[1, 2]]` by 2: as written
    the checksum goes from 2 to 0 while the digest doubles to 4.
   */
  lemma MultiplyCounterexample(out: Outcome)
    requires Matrices.MultiplyOutcome(Matrices.Matrix([[1.0, 2.0]], 2.0), 0, 2.0, out)
    ensures Matrices.Consistent(Matrices.Matrix([[1.0, 2.0]], 2.0))
    ensures out.after.checksum == 0.0 && Digest(out.after.elements) == 4.0
  {
    var m := Matrices.Matrix([[1.0, 2.0]], 2.0);
    DigestOneRow(m.elements);
    RowDigestTwo(0, m.elements[0]);
    assert Scale([1.0, 2.0], 2.0) == [2.0, 4.0] by {
      assert Scale([1.0, 2.0], 2.0)[0] == 2.0 && Scale([1.0, 2.0], 2.0)[1] == 4.0;
    }
    assert out.after.elements == [[2.0, 4.0]];
    DigestOneRow(out.after.elements);
    RowDigestTwo(0, out.after.elements[0]);
  }

  /**
    Swapping the rows of the consistent matrix `[[1], [2]]`: as written the
    checksum stays 2 while the digest becomes 1.
   */
  lemma SwapCounterexample(out: Outcome)
    requires Matrices.SwapOutcome(Matrices.Matrix([[1.0], [2.0]], 2.0), 0, 1, out)
    ensures Matrices.Consistent(Matrices.Matrix([[1.0], [2.0]], 2.0))
    ensures out.after.checksum == 2.0 && Digest(out.after.elements) == 1.0
  {
    assert out.after.elements == [[2.0], [1.0]];
    ColumnDigest(1.0, 2.0);
    ColumnDigest(2.0, 1.0);
  }

  /** The digest of the one-column grid `[[a], [b]]` is `b`: the cell at row 0, column 0 weighs nothing. */
  lemma ColumnDigest(a: real, b: real)
    ensures Digest([[a], [b]]) == b
  {
    var e := [[a], [b]];
    DigestTwoRows(e);
    RowDigestOne(0, e[0]);
    RowDigestOne(1, e[1]);
  }

  /**
    Inserting the short row `[3]` into the consistent matrix `[[1, 2]]`: as
    written the row is rejected but the checksum still goes from 2 to 5;
    the corrected `InsertRow` leaves the matrix as it was.
   */
  lemma InsertRowCounterexample()
    ensures var m := Matrices.Matrix([[1.0, 2.0]], 2.0);
      && Matrices.Consistent(m)
      && Matrices.InsertRow(m, [3.0]).Rejected?
      && Matrices.InsertRow(m, [3.0]).after.checksum == 5.0
      && !Matrices.Consistent(Matrices.InsertRow(m, [3.0]).after)
      && InsertRow(m, [3.0]) == Matrices.Rejected(m, Matrices.ShapeError(2, 1, [3.0]))
  {
    var m := Matrices.Matrix([[1.0, 2.0]], 2.0);
    DigestOneRow(m.elements);
    RowDigestTwo(0, m.elements[0]);
    RowDigestOne(1, [3.0]);
  }
}
