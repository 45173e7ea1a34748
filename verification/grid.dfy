/**
  The numeric grid underneath a matrix: rows of exact rationals, the shape
  invariant, the per-cell checksum term `(row + column) * value`, and the
  digest obtained by summing that term over every cell. The lemmas say how
  the digest moves when a cell, a row, or a pair of rows changes.

  Digests are sums over an index bound, counted from the front the way the
  checksum loops of `insert_row` and `operate` count: `RowDigestTo` over
  the columns of one row and `DigestTo` over the rows of a grid.
 */
module Grid {

  type Row = seq<real>
  type Cells = seq<Row>

  /** Every row is as long as the first one. */
  ghost predicate Rectangular(e: Cells)
  {
    forall i :: 0 <= i < |e| ==> |e[i]| == |e[0]|
  }

  /** The checksum term of the value `n` at row `x`, column `y`. */
  function CalcChecksum(x: real, y: real, n: real): (r: real)
    ensures r == x * n + y * n
    ensures n == 0.0 ==> r == 0.0
  {
    (x + y) * n
  }

  /** Products distribute over sums; stated once for the steps below. */
  lemma Distribute(s: real, a: real, c: real)
    ensures s * a + s * c == s * (a + c)
  {
  }

  // ---------------------------------------------------------------------
  // Digests

  /**
    The checksum terms of the first `n` cells of `row`, with `row` placed at
    row index `x`: what a column loop has counted after `n` steps.
   */
  function RowDigestTo(x: nat, row: Row, n: nat): real
    requires n <= |row|
  {
    if n == 0 then 0.0 else RowDigestTo(x, row, n - 1) + CalcChecksum(x as real, (n - 1) as real, row[n - 1])
  }

  /** The checksum terms of every cell of `row`, with `row` placed at row index `x`. */
  function RowDigest(x: nat, row: Row): real
  {
    RowDigestTo(x, row, |row|)
  }

  /** The digests of the first `n` rows, each at its own index. */
  ghost function DigestTo(e: Cells, n: nat): real
    requires n <= |e|
  {
    if n == 0 then 0.0 else DigestTo(e, n - 1) + RowDigest(n - 1, e[n - 1])
  }

  /** The checksum terms of every cell: the value a matrix's checksum is meant to hold. */
  ghost function Digest(e: Cells): real
  {
    DigestTo(e, |e|)
  }

  /** A column loop that has counted `i` cells counts cell `i` next. */
  lemma RowDigestStep(x: nat, row: Row, i: nat)
    requires i < |row|
    ensures RowDigestTo(x, row, i + 1) == RowDigestTo(x, row, i) + CalcChecksum(x as real, i as real, row[i])
  {
  }

  /** Two rows that agree on their first `n` cells have the same digest up to `n`. */
  lemma {:induction false} RowDigestToAgree(x: nat, p: Row, q: Row, n: nat)
    requires n <= |p| && n <= |q|
    requires forall j :: 0 <= j < n ==> p[j] == q[j]
    ensures RowDigestTo(x, p, n) == RowDigestTo(x, q, n)
  {
    if n > 0 {
      RowDigestToAgree(x, p, q, n - 1);
    }
  }

  /** Overwriting cell `j` moves every partial row digest that covers it by the change in that cell's term. */
  lemma {:induction false} RowDigestToUpdate(x: nat, row: Row, j: nat, v: real, n: nat)
    requires j < |row| && n <= |row|
    ensures RowDigestTo(x, row[j := v], n) ==
      if j < n then RowDigestTo(x, row, n) + CalcChecksum(x as real, j as real, v) - CalcChecksum(x as real, j as real, row[j])
      else RowDigestTo(x, row, n)
  {
    if n > 0 {
      RowDigestToUpdate(x, row, j, v, n - 1);
    }
  }

  /** Overwriting one cell moves the row digest by the change in that cell's term. */
  lemma RowDigestUpdate(x: nat, row: Row, j: nat, v: real)
    requires j < |row|
    ensures RowDigest(x, row[j := v]) ==
      RowDigest(x, row) + CalcChecksum(x as real, j as real, v) - CalcChecksum(x as real, j as real, row[j])
  {
    RowDigestToUpdate(x, row, j, v, |row|);
  }

  /** The checksum term is linear in the cell value. */
  lemma CalcChecksumLinear(x: real, y: real, t: real, f: real, s: real)
    ensures CalcChecksum(x, y, f * s) == s * CalcChecksum(x, y, f)
    ensures CalcChecksum(x, y, t + f * s) == CalcChecksum(x, y, t) + s * CalcChecksum(x, y, f)
  {
  }

  /** Partial row digests are linear: cells `p[j] + q[j] * s` give `s` times `q`'s digest on top of `p`'s. */
  lemma {:induction false} RowDigestToLinear(x: nat, r: Row, p: Row, q: Row, s: real, n: nat)
    requires n <= |r| && n <= |p| && n <= |q|
    requires forall j :: 0 <= j < n ==> r[j] == p[j] + q[j] * s
    ensures RowDigestTo(x, r, n) == RowDigestTo(x, p, n) + s * RowDigestTo(x, q, n)
  {
    if n > 0 {
      RowDigestToLinear(x, r, p, q, s, n - 1);
      CalcChecksumLinear(x as real, (n - 1) as real, p[n - 1], q[n - 1], s);
      Distribute(s, RowDigestTo(x, q, n - 1), CalcChecksum(x as real, (n - 1) as real, q[n - 1]));
    }
  }

  /** Partial row digests are homogeneous: cells `q[j] * s` give `s` times `q`'s digest. */
  lemma {:induction false} RowDigestToScaled(x: nat, r: Row, q: Row, s: real, n: nat)
    requires n <= |r| && n <= |q|
    requires forall j :: 0 <= j < n ==> r[j] == q[j] * s
    ensures RowDigestTo(x, r, n) == s * RowDigestTo(x, q, n)
  {
    if n > 0 {
      RowDigestToScaled(x, r, q, s, n - 1);
      CalcChecksumLinear(x as real, (n - 1) as real, 0.0, q[n - 1], s);
      Distribute(s, RowDigestTo(x, q, n - 1), CalcChecksum(x as real, (n - 1) as real, q[n - 1]));
    }
  }

  /** Every cell of `row` multiplied by `s`. */
  function Scale(row: Row, s: real): (r: Row)
    ensures |r| == |row|
    ensures forall j :: 0 <= j < |row| ==> r[j] == row[j] * s
  {
    seq(|row|, j requires 0 <= j < |row| => row[j] * s)
  }

  /** `target` with `s` times the matching cell of `source` added to each cell. */
  function AddScaled(target: Row, source: Row, s: real): (r: Row)
    requires |source| >= |target|
    ensures |r| == |target|
    ensures forall j :: 0 <= j < |target| ==> r[j] == target[j] + source[j] * s
  {
    seq(|target|, j requires 0 <= j < |target| => target[j] + source[j] * s)
  }

  /** Scaling a row scales its digest. */
  lemma RowDigestScale(x: nat, row: Row, s: real)
    ensures RowDigest(x, Scale(row, s)) == s * RowDigest(x, row)
  {
    RowDigestToScaled(x, Scale(row, s), row, s, |row|);
  }

  /** Adding a multiple of another row adds that multiple of its digest. */
  lemma RowDigestAddScaled(x: nat, target: Row, source: Row, s: real)
    requires |source| == |target|
    ensures RowDigest(x, AddScaled(target, source, s)) == RowDigest(x, target) + s * RowDigest(x, source)
  {
    RowDigestToLinear(x, AddScaled(target, source, s), target, source, s, |target|);
  }

  /** Two grids that agree on their first `n` rows have the same digest up to `n`. */
  lemma {:induction false} DigestToAgree(e: Cells, f: Cells, n: nat)
    requires n <= |e| && n <= |f|
    requires forall k :: 0 <= k < n ==> e[k] == f[k]
    ensures DigestTo(e, n) == DigestTo(f, n)
  {
    if n > 0 {
      DigestToAgree(e, f, n - 1);
    }
  }

  /** Replacing row `k` moves every partial digest that covers it by the change in that row's digest. */
  lemma {:induction false} DigestToReplaceRow(e: Cells, k: nat, row: Row, n: nat)
    requires k < |e| && n <= |e|
    ensures DigestTo(e[k := row], n) ==
      if k < n then DigestTo(e, n) - RowDigest(k, e[k]) + RowDigest(k, row) else DigestTo(e, n)
  {
    if n > 0 {
      DigestToReplaceRow(e, k, row, n - 1);
    }
  }

  /** Replacing row `k` swaps that row's digest at index `k` for the new one's. */
  lemma DigestReplaceRow(e: Cells, k: nat, row: Row)
    requires k < |e|
    ensures Digest(e[k := row]) == Digest(e) - RowDigest(k, e[k]) + RowDigest(k, row)
  {
    DigestToReplaceRow(e, k, row, |e|);
  }

  /** Appending a row at index `|e|` adds its row digest at that index. */
  lemma DigestAppend(e: Cells, row: Row)
    ensures Digest(e + [row]) == Digest(e) + RowDigest(|e|, row)
  {
    DigestToAgree(e + [row], e, |e|);
  }

  /** Overwriting one cell moves the digest by the change in that cell's term. */
  lemma DigestUpdate(e: Cells, x: nat, y: nat, v: real)
    requires x < |e| && y < |e[x]|
    ensures Digest(e[x := e[x][y := v]]) ==
      Digest(e) + CalcChecksum(x as real, y as real, v) - CalcChecksum(x as real, y as real, e[x][y])
  {
    DigestReplaceRow(e, x, e[x][y := v]);
    RowDigestUpdate(x, e[x], y, v);
  }

  // ---------------------------------------------------------------------
  // Whole-row changes

  /** `e` with rows `a` and `b` exchanged. */
  function Exchange(e: Cells, a: nat, b: nat): (r: Cells)
    requires a < |e| && b < |e|
    ensures |r| == |e| && r[a] == e[b] && r[b] == e[a]
    ensures forall k :: 0 <= k < |e| && k != a && k != b ==> r[k] == e[k]
  {
    e[a := e[b]][b := e[a]]
  }

  /** Exchanging the same two rows twice gives the grid back. */
  lemma ExchangeTwice(e: Cells, a: nat, b: nat)
    requires a < |e| && b < |e|
    ensures Exchange(Exchange(e, a, b), a, b) == e
  {
  }

  /** Exchanging rows keeps a rectangular grid rectangular. */
  lemma ExchangeRectangular(e: Cells, a: nat, b: nat)
    requires a < |e| && b < |e| && Rectangular(e)
    ensures Rectangular(Exchange(e, a, b))
  {
  }

  /** Replacing a row by one of the same length keeps a rectangular grid rectangular. */
  lemma ReplacedRectangular(e: Cells, k: nat, row: Row)
    requires Rectangular(e) && k < |e| && |row| == |e[k]|
    ensures Rectangular(e[k := row])
  {
    assert |e[k := row][0]| == |e[0]|;
  }

  /** Exchanging two rows re-places each one at the other's index. */
  lemma DigestExchange(e: Cells, a: nat, b: nat)
    requires a < |e| && b < |e|
    ensures Digest(Exchange(e, a, b)) ==
      Digest(e) + RowDigest(a, e[b]) + RowDigest(b, e[a]) - RowDigest(a, e[a]) - RowDigest(b, e[b])
  {
    if a == b {
      assert Exchange(e, a, b) == e;
    } else {
      var e1 := e[a := e[b]];
      DigestReplaceRow(e, a, e[b]);
      DigestReplaceRow(e1, b, e[a]);
      assert Exchange(e, a, b) == e1[b := e[a]];
    }
  }

  /** Scaling row `k` by `s` replaces that row's digest with `s` times it. */
  lemma DigestScaleRow(e: Cells, k: nat, row: Row, s: real)
    requires k < |e| && row == e[k]
    ensures Digest(e[k := Scale(row, s)]) == Digest(e) - RowDigest(k, row) + s * RowDigest(k, row)
  {
    DigestReplaceRow(e, k, Scale(row, s));
    RowDigestScale(k, row, s);
  }

  /** Adding `s` times `source` into row `k` adds `s` times the digest of `source` at index `k`. */
  lemma DigestAddScaledRow(e: Cells, k: nat, target: Row, source: Row, s: real)
    requires k < |e| && target == e[k] && |source| == |target|
    ensures Digest(e[k := AddScaled(target, source, s)]) == Digest(e) + s * RowDigest(k, source)
  {
    DigestReplaceRow(e, k, AddScaled(target, source, s));
    RowDigestAddScaled(k, target, source, s);
  }

  /** Adding `s` times a row to itself scales it by `1 + s`. */
  lemma AddScaledSelf(row: Row, s: real)
    ensures AddScaled(row, row, s) == Scale(row, 1.0 + s)
  {
    forall j | 0 <= j < |row|
      ensures AddScaled(row, row, s)[j] == Scale(row, 1.0 + s)[j]
    {
      Distribute(row[j], 1.0, s);
    }
  }

  // ---------------------------------------------------------------------
  // Rows changed one column at a time

  /** `row` with its first `i` cells multiplied by `s`. */
  function ScaleFirst(row: Row, s: real, i: nat): (r: Row)
    ensures |r| == |row|
    ensures forall j :: 0 <= j < |row| ==> r[j] == if j < i then row[j] * s else row[j]
  {
    seq(|row|, j requires 0 <= j < |row| => if j < i then row[j] * s else row[j])
  }

  /** `target` with `s` times `source` added into its first `i` cells. */
  function AddScaledFirst(target: Row, source: Row, s: real, i: nat): (r: Row)
    requires |source| >= |target|
    ensures |r| == |target|
    ensures forall j :: 0 <= j < |target| ==> r[j] == if j < i then target[j] + source[j] * s else target[j]
  {
    seq(|target|, j requires 0 <= j < |target| => if j < i then target[j] + source[j] * s else target[j])
  }

  /** No cell scaled is the row itself; every cell scaled is `Scale`; cell `i` is the next one. */
  lemma ScaleFirstFacts(row: Row, s: real, i: nat)
    requires i < |row|
    ensures ScaleFirst(row, s, 0) == row
    ensures ScaleFirst(row, s, |row|) == Scale(row, s)
    ensures ScaleFirst(row, s, i)[i := row[i] * s] == ScaleFirst(row, s, i + 1)
  {
  }

  /** No cell added is the target itself; every cell added is `AddScaled`; cell `i` is the next one. */
  lemma AddScaledFirstFacts(target: Row, source: Row, s: real, i: nat)
    requires |source| == |target| && i < |target|
    ensures AddScaledFirst(target, source, s, 0) == target
    ensures AddScaledFirst(target, source, s, |target|) == AddScaled(target, source, s)
    ensures AddScaledFirst(target, source, s, i)[i := target[i] + source[i] * s] == AddScaledFirst(target, source, s, i + 1)
  {
  }

  /** Writing the scaled cell `i` into row `k` of a grid whose row `k` is scaled up to `i` scales it up to `i + 1`. */
  lemma ScaleStepCells(e: Cells, k: nat, s: real, i: nat, cur: Cells, v: real)
    requires k < |e| && i < |e[k]|
    requires cur == e[k := ScaleFirst(e[k], s, i)]
    requires v == cur[k][i] * s
    ensures cur[k := cur[k][i := v]] == e[k := ScaleFirst(e[k], s, i + 1)]
  {
    ScaleFirstFacts(e[k], s, i);
    assert cur[k] == ScaleFirst(e[k], s, i);
    assert v == e[k][i] * s;
    var row := ScaleFirst(e[k], s, i + 1);
    assert cur[k][i := v] == row;
    assert cur[k := row] == e[k := row];
  }

  /** Writing the added cell `i` into row `k` of a grid whose row `k` is added into up to `i` adds into it up to `i + 1`. */
  lemma AddScaledStepCells(e: Cells, k: nat, source: Row, s: real, i: nat, cur: Cells, v: real)
    requires k < |e| && |source| == |e[k]| && i < |e[k]|
    requires cur == e[k := AddScaledFirst(e[k], source, s, i)]
    requires v == cur[k][i] + source[i] * s
    ensures cur[k := cur[k][i := v]] == e[k := AddScaledFirst(e[k], source, s, i + 1)]
  {
    AddScaledFirstFacts(e[k], source, s, i);
    assert cur[k] == AddScaledFirst(e[k], source, s, i);
    assert v == e[k][i] + source[i] * s;
    var row := AddScaledFirst(e[k], source, s, i + 1);
    assert cur[k][i := v] == row;
    assert cur[k := row] == e[k := row];
  }

  /** The change in a cell's term when its value `v` is multiplied by `s`, written as `set`'s difference computes it. */
  lemma ScaledCellDelta(x: real, y: real, v: real, s: real)
    ensures CalcChecksum(x, y, v) - CalcChecksum(x, y, v * s) == (1.0 - s) * CalcChecksum(x, y, v)
  {
  }

  /**
    One more cell scaled: a checksum that has moved by `(1 - s)` times the
    digest of the first `i` cells, then by `set`'s difference
    for cell `i`, has moved by `(1 - s)` times the digest of the first `i + 1`.
   */
  lemma ScaleTotalStep(x: nat, row: Row, s: real, i: nat, u: real, v: real, base: real, c: real, c': real)
    requires i < |row| && u == row[i] && v == u * s
    requires c == base + (1.0 - s) * RowDigestTo(x, row, i)
    requires c' == c + CalcChecksum(x as real, i as real, u) - CalcChecksum(x as real, i as real, v)
    ensures c' == base + (1.0 - s) * RowDigestTo(x, row, i + 1)
  {
    RowDigestStep(x, row, i);
    ScaledCellDelta(x as real, i as real, row[i], s);
    Distribute(1.0 - s, RowDigestTo(x, row, i), CalcChecksum(x as real, i as real, row[i]));
  }

  /**
    One more cell added into: a checksum that has lost `s` times the digest
    of the first `i` source cells, then moved by `set`'s
    difference for target cell `i`, has lost `s` times the digest of the
    first `i + 1`.
   */
  lemma AddTotalStep(x: nat, source: Row, s: real, i: nat, t: real, v: real, base: real, c: real, c': real)
    requires i < |source| && v == t + source[i] * s
    requires c == base - s * RowDigestTo(x, source, i)
    requires c' == c + CalcChecksum(x as real, i as real, t) - CalcChecksum(x as real, i as real, v)
    ensures c' == base - s * RowDigestTo(x, source, i + 1)
  {
    RowDigestStep(x, source, i);
    CalcChecksumLinear(x as real, i as real, t, source[i], s);
    Distribute(s, RowDigestTo(x, source, i), CalcChecksum(x as real, i as real, source[i]));
  }

  /** A checksum that gains `1 - s` times row `k`'s digest mirrors scaling that row by `s`. */
  lemma ScaleMirror(e: Cells, k: nat, row: Row, s: real, e': Cells, c: real, c': real)
    requires k < |e| && row == e[k] && e' == e[k := Scale(row, s)]
    requires c' == c + (1.0 - s) * RowDigest(k, row)
    ensures c' - c == Digest(e) - Digest(e')
  {
    DigestScaleRow(e, k, row, s);
    ScaledMirrorArith(c, c', Digest(e), Digest(e[k := Scale(row, s)]), RowDigest(k, row), s);
  }

  /** A checksum that loses `s` times the source row's digest mirrors adding `s` times that row into row `k`. */
  lemma AddScaledMirror(e: Cells, k: nat, target: Row, source: Row, s: real, e': Cells, c: real, c': real)
    requires k < |e| && target == e[k] && |source| == |target| && e' == e[k := AddScaled(target, source, s)]
    requires c' == c - s * RowDigest(k, source)
    ensures c' - c == Digest(e) - Digest(e')
  {
    DigestAddScaledRow(e, k, target, source, s);
  }

  /** Two sums that differ by `(1 - s) * d` balance a change `d - s * d`. */
  lemma ScaledMirrorArith(c: real, c': real, total: real, total': real, d: real, s: real)
    requires total' == total - d + s * d
    requires c' == c + (1.0 - s) * d
    ensures c' - c == total - total'
  {
  }
}
