/** Matrix::determinant: Gaussian elimination with partial pivoting on a copy of the rows,
    returning zero as soon as a pivot falls below the tolerance. */
module Determinants {
  import opened Wrappers
  import opened Matrices

  /** The source's 1e-10. */
  const TOLERANCE: real := 0.0000000001

  function Abs(x: real): real {
    if x < 0.0 then -x else x
  }

  /** A working copy of the rows: at least n rows, every one of length n. */
  predicate IsGrid(mat: seq<seq<real>>, n: nat) {
    n <= |mat| && forall r :: 0 <= r < |mat| ==> |mat[r]| == n
  }

  /** Two grids with the same entries are equal. */
  lemma SameGrid(a: seq<seq<real>>, b: seq<seq<real>>, n: nat)
    requires IsGrid(a, n) && IsGrid(b, n) && |a| == |b|
    requires forall r, c :: 0 <= r < |a| && 0 <= c < n ==> a[r][c] == b[r][c]
    ensures a == b
  {
    forall r | 0 <= r < |a|
      ensures a[r] == b[r]
    {
      assert forall c :: 0 <= c < n ==> a[r][c] == b[r][c];
    }
  }

  /** The clone of `self.val` the determinant works on. */
  function Rows(A: Matrix): (g: seq<seq<real>>)
    requires A.Valid() && 0 < A.n <= A.m
    ensures IsGrid(g, A.n) && |g| == A.m
    ensures forall r, c :: 0 <= r < A.m && 0 <= c < A.n ==> g[r][c] == At(A, r, c)
  {
    seq(A.m, r requires 0 <= r < A.m => A.val[r].val)
  }

  /** The pivot search of column `col`: rows from j on replace the best row so far only
      when strictly larger in magnitude, so the first largest row wins. */
  function PivotScan(mat: seq<seq<real>>, n: nat, col: nat, best: nat, j: nat): (p: nat)
    requires IsGrid(mat, n) && col <= best < j <= n
    ensures col <= p < n
    decreases n - j
  {
    if j == n then best
    else PivotScan(mat, n, col, if Abs(mat[j][col]) > Abs(mat[best][col]) then j else best, j + 1)
  }

  /** The pivot has the largest magnitude of its column among rows col .. n. */
  lemma {:induction false} PivotScanMaximal(mat: seq<seq<real>>, n: nat, col: nat, best: nat, j: nat)
    requires IsGrid(mat, n) && col <= best < j <= n && col < n
    requires forall r :: col <= r < j ==> Abs(mat[r][col]) <= Abs(mat[best][col])
    ensures forall r :: col <= r < n ==>
              Abs(mat[r][col]) <= Abs(mat[PivotScan(mat, n, col, best, j)][col])
    decreases n - j
  {
    if j < n {
      var next := if Abs(mat[j][col]) > Abs(mat[best][col]) then j else best;
      PivotScanMaximal(mat, n, col, next, j + 1);
    }
  }

  function Swapped(mat: seq<seq<real>>, i: nat, p: nat): (r: seq<seq<real>>)
    requires i < |mat| && p < |mat|
    ensures |r| == |mat|
  {
    mat[i := mat[p]][p := mat[i]]
  }

  /** Entry (k, c) after subtracting row i, scaled by mat[k][i] / mat[i][i], from row k
      in the columns from i on. */
  function EliminatedEntry(mat: seq<seq<real>>, n: nat, i: nat, k: nat, c: nat): real
    requires IsGrid(mat, n) && i < n && k < |mat| && c < n && mat[i][i] != 0.0
  {
    if c < i then mat[k][c] else mat[k][c] - Times(mat[k][i] / mat[i][i], mat[i][c])
  }

  /** Row k after subtracting the scaled pivot row. */
  function EliminatedRow(mat: seq<seq<real>>, n: nat, i: nat, k: nat): (row: seq<real>)
    requires IsGrid(mat, n) && i < n && k < |mat| && mat[i][i] != 0.0
    ensures |row| == n
  {
    seq(n, c requires 0 <= c < n => EliminatedEntry(mat, n, i, k, c))
  }

  /** Rows k .. n replaced one at a time, as the loop over k does. */
  function EliminateFrom(mat: seq<seq<real>>, n: nat, i: nat, k: nat): (r: seq<seq<real>>)
    requires IsGrid(mat, n) && i < k <= n && mat[i][i] != 0.0
    ensures IsGrid(r, n) && |r| == |mat|
    decreases n - k
  {
    if k == n then mat
    else EliminateFrom(mat[k := EliminatedRow(mat, n, i, k)], n, i, k + 1)
  }

  /** Every row below the pivot row i (and above n) eliminated. */
  function Eliminated(mat: seq<seq<real>>, n: nat, i: nat): (r: seq<seq<real>>)
    requires IsGrid(mat, n) && i < n && mat[i][i] != 0.0
    ensures IsGrid(r, n) && |r| == |mat|
  {
    EliminateFrom(mat, n, i, i + 1)
  }

  /** Whether the pivot search of step i picks a row other than i. */
  predicate Swaps(mat: seq<seq<real>>, n: nat, i: nat)
    requires IsGrid(mat, n) && i < n
  {
    PivotScan(mat, n, i, i, i + 1) != i
  }

  /** The rows after the pivot of step i has been swapped into row i. */
  function Pivoted(mat: seq<seq<real>>, n: nat, i: nat): (s: seq<seq<real>>)
    requires IsGrid(mat, n) && i < n
    ensures IsGrid(s, n) && |s| == |mat|
  {
    var p := PivotScan(mat, n, i, i, i + 1);
    if p != i then Swapped(mat, i, p) else mat
  }

  /** Rows k .. n of EliminateFrom hold the eliminated entries; the others are unchanged. */
  lemma {:induction false} EliminateFromEntries(mat: seq<seq<real>>, n: nat, i: nat, k: nat)
    requires IsGrid(mat, n) && i < k <= n && mat[i][i] != 0.0
    ensures forall r, c :: 0 <= r < |mat| && 0 <= c < n ==>
              EliminateFrom(mat, n, i, k)[r][c] == if k <= r < n then EliminatedEntry(mat, n, i, r, c) else mat[r][c]
    decreases n - k
  {
    if k < n {
      var next := mat[k := EliminatedRow(mat, n, i, k)];
      EliminateFromEntries(next, n, i, k + 1);
      forall r, c | 0 <= r < |mat| && 0 <= c < n && k + 1 <= r < n
        ensures EliminatedEntry(next, n, i, r, c) == EliminatedEntry(mat, n, i, r, c)
      {
        assert next[r] == mat[r] && next[i] == mat[i];
      }
    }
  }

  lemma EliminatedEntries(mat: seq<seq<real>>, n: nat, i: nat)
    requires IsGrid(mat, n) && i < n && mat[i][i] != 0.0
    ensures forall k, c :: 0 <= k < |mat| && 0 <= c < n ==>
              Eliminated(mat, n, i)[k][c] == if i < k < n then EliminatedEntry(mat, n, i, k, c) else mat[k][c]
  {
    EliminateFromEntries(mat, n, i, i + 1);
  }

  /** The running determinant after step i: negated by a swap, then multiplied by the pivot. */
  function NextDet(mat: seq<seq<real>>, n: nat, i: nat, det: real): real
    requires IsGrid(mat, n) && i < n
  {
    Times(if Swaps(mat, n, i) then -det else det, Pivoted(mat, n, i)[i][i])
  }

  /** What the elimination loop computes from step i on, with det the running value. */
  function DetFrom(mat: seq<seq<real>>, n: nat, i: nat, det: real): real
    requires IsGrid(mat, n) && i <= n
    decreases n - i
  {
    if i == n then det
    else if Abs(Pivoted(mat, n, i)[i][i]) < TOLERANCE then 0.0
    else DetFrom(Eliminated(Pivoted(mat, n, i), n, i), n, i + 1, NextDet(mat, n, i, det))
  }

  lemma DetFromUnfold(mat: seq<seq<real>>, n: nat, i: nat, det: real,
                      pivoted: seq<seq<real>>, next: real)
    requires IsGrid(mat, n) && i < n
    requires pivoted == Pivoted(mat, n, i) && next == NextDet(mat, n, i, det)
    requires Abs(pivoted[i][i]) >= TOLERANCE
    ensures DetFrom(mat, n, i, det) == DetFrom(Eliminated(pivoted, n, i), n, i + 1, next)
  {
  }

  lemma DetFromStops(mat: seq<seq<real>>, n: nat, i: nat, det: real)
    requires IsGrid(mat, n) && i < n && Abs(Pivoted(mat, n, i)[i][i]) < TOLERANCE
    ensures DetFrom(mat, n, i, det) == 0.0
  {
  }

  /** The determinant as the source computes it. The pivot search reads rows up to n, so
      a matrix with fewer rows than columns panics; extra rows are never read. */
  function Det(A: Matrix): Result<real>
    requires A.Valid()
  {
    if A.n > A.m then Err(Panic("index out of bounds"))
    else if A.n == 0 then Ok(1.0)
    else Ok(DetFrom(Rows(A), A.n, 0, 1.0))
  }

  method Determinant(A: Matrix) returns (r: Result<real>)
    requires A.Valid()
    ensures r == Det(A)
  {
    if A.n > A.m {
      return Err(Panic("index out of bounds"));
    }
    if A.n == 0 {
      return Ok(1.0);
    }
    var n := A.n;
    var mat := Rows(A);
    var det := 1.0;
    var i := 0;
    while i < n
      invariant i <= n && IsGrid(mat, n) && |mat| == A.m
      invariant DetFrom(mat, n, i, det) == DetFrom(Rows(A), n, 0, 1.0)
    {
      var pivoted, signed := PivotStep(mat, n, i, det);
      if Abs(pivoted[i][i]) < TOLERANCE {
        DetFromStops(mat, n, i, det);
        return Ok(0.0);
      }
      var next := Times(signed, pivoted[i][i]);
      DetFromUnfold(mat, n, i, det, pivoted, next);
      mat := EliminateBelow(pivoted, n, i);
      det := next;
      i := i + 1;
    }
    r := Ok(det);
  }

  /** Pivot search and row swap of one step; a swap negates the running determinant. */
  method PivotStep(mat: seq<seq<real>>, n: nat, i: nat, det: real)
    returns (pivoted: seq<seq<real>>, signed: real)
    requires IsGrid(mat, n) && i < n
    ensures pivoted == Pivoted(mat, n, i)
    ensures signed == if Swaps(mat, n, i) then -det else det
  {
    var maxRow := FindPivot(mat, n, i);
    pivoted, signed := mat, det;
    if maxRow != i {
      pivoted := Swapped(mat, i, maxRow);
      signed := -det;
    }
  }

  /** The pivot search loop of determinant. */
  method FindPivot(mat: seq<seq<real>>, n: nat, i: nat) returns (maxRow: nat)
    requires IsGrid(mat, n) && i < n
    ensures maxRow == PivotScan(mat, n, i, i, i + 1)
  {
    maxRow := i;
    for j := i + 1 to n
      invariant i <= maxRow < j
      invariant PivotScan(mat, n, i, maxRow, j) == PivotScan(mat, n, i, i, i + 1)
    {
      if Abs(mat[j][i]) > Abs(mat[maxRow][i]) {
        maxRow := j;
      }
    }
  }

  /** The elimination loops of determinant: for each row k below i, the factor
      mat[k][i] / mat[i][i] is fixed first, then row i times it is subtracted from the
      columns i .. n of row k. */
  method EliminateBelow(start: seq<seq<real>>, n: nat, i: nat) returns (mat: seq<seq<real>>)
    requires IsGrid(start, n) && i < n && start[i][i] != 0.0
    ensures mat == Eliminated(start, n, i)
  {
    mat := start;
    for k := i + 1 to n
      invariant IsGrid(mat, n) && |mat| == |start|
      invariant forall r, c :: 0 <= r < |mat| && 0 <= c < n ==>
                  mat[r][c] == if i < r < k then EliminatedEntry(start, n, i, r, c) else start[r][c]
    {
      var factor := mat[k][i] / mat[i][i];
      for j := i to n
        invariant IsGrid(mat, n) && |mat| == |start|
        invariant forall r, c :: 0 <= r < |mat| && 0 <= c < n ==>
                    mat[r][c] == if i < r < k || (r == k && i <= c < j)
                                 then EliminatedEntry(start, n, i, r, c) else start[r][c]
      {
        mat := mat[k := mat[k][j := mat[k][j] - Times(factor, mat[i][j])]];
      }
    }
    EliminatedEntries(start, n, i);
    SameGrid(mat, Eliminated(start, n, i), n);
  }

  // ---- properties -----------------------------------------------------------------------

  /** Zero below the diagonal in the first n rows. */
  predicate UpperTriangular(mat: seq<seq<real>>, n: nat)
    requires IsGrid(mat, n)
  {
    forall r, c :: 0 <= c < r < n ==> mat[r][c] == 0.0
  }

  /** The product of the diagonal entries i .. n. */
  function DiagonalProduct(mat: seq<seq<real>>, n: nat, i: nat): real
    requires IsGrid(mat, n) && i <= n
    decreases n - i
  {
    if i == n then 1.0 else Times(mat[i][i], DiagonalProduct(mat, n, i + 1))
  }

  lemma {:induction false} PivotOfTriangular(mat: seq<seq<real>>, n: nat, i: nat, j: nat)
    requires IsGrid(mat, n) && UpperTriangular(mat, n) && i < j <= n
    ensures PivotScan(mat, n, i, i, j) == i
    decreases n - j
  {
    if j < n {
      PivotOfTriangular(mat, n, i, j + 1);
    }
  }

  /** In a triangular matrix nothing is eliminated: every factor is zero. */
  lemma EliminateTriangular(mat: seq<seq<real>>, n: nat, i: nat)
    requires IsGrid(mat, n) && UpperTriangular(mat, n) && i < n && mat[i][i] != 0.0
    ensures Eliminated(mat, n, i) == mat
  {
    forall k, c | 0 <= k < |mat| && 0 <= c < n && i < k < n
      ensures EliminatedEntry(mat, n, i, k, c) == mat[k][c]
    {
      assert mat[k][i] == 0.0;
    }
    EliminatedEntries(mat, n, i);
    SameGrid(Eliminated(mat, n, i), mat, n);
  }

  /** On an upper triangular matrix whose diagonal clears the tolerance, the pivoted
      elimination multiplies out the diagonal. */
  lemma {:induction false} DetFromTriangular(mat: seq<seq<real>>, n: nat, i: nat, det: real)
    requires IsGrid(mat, n) && UpperTriangular(mat, n) && i <= n
    requires forall r :: i <= r < n ==> Abs(mat[r][r]) >= TOLERANCE
    ensures DetFrom(mat, n, i, det) == Times(det, DiagonalProduct(mat, n, i))
    decreases n - i
  {
    if i < n {
      PivotOfTriangular(mat, n, i, i + 1);
      assert !Swaps(mat, n, i);
      assert Pivoted(mat, n, i) == mat;
      EliminateTriangular(mat, n, i);
      var next := NextDet(mat, n, i, det);
      assert next == Times(det, mat[i][i]);
      DetFromUnfold(mat, n, i, det, mat, next);
      DetFromTriangular(mat, n, i + 1, next);
      var rest := DiagonalProduct(mat, n, i + 1);
      assert DiagonalProduct(mat, n, i) == Times(mat[i][i], rest);
      TimesAssociative(det, mat[i][i], rest);
    }
  }

  lemma DeterminantOfTriangular(A: Matrix)
    requires A.Valid() && 0 < A.n <= A.m && UpperTriangular(Rows(A), A.n)
    requires forall r :: 0 <= r < A.n ==> Abs(At(A, r, r)) >= TOLERANCE
    ensures Det(A) == Ok(DiagonalProduct(Rows(A), A.n, 0))
  {
    DetFromTriangular(Rows(A), A.n, 0, 1.0);
  }

  lemma {:induction false} IdentityDiagonal(mat: seq<seq<real>>, n: nat, i: nat)
    requires IsGrid(mat, n) && i <= n
    requires forall r :: i <= r < n ==> mat[r][r] == 1.0
    ensures DiagonalProduct(mat, n, i) == 1.0
    decreases n - i
  {
    if i < n {
      IdentityDiagonal(mat, n, i + 1);
    }
  }

  lemma DeterminantOfIdentity(d: nat)
    ensures Det(Identity(d)) == Ok(1.0)
  {
    if d > 0 {
      var I := Identity(d);
      IdentityDiagonal(Rows(I), d, 0);
      DeterminantOfTriangular(I);
    }
  }

  /** Swapping rows i and p moves a zero row z to its new index. */
  lemma SwapKeepsZeroRow(mat: seq<seq<real>>, n: nat, i: nat, p: nat, z: nat)
    requires IsGrid(mat, n) && i < |mat| && p < |mat| && z < |mat|
    requires forall c :: 0 <= c < n ==> mat[z][c] == 0.0
    ensures var z' := if z == i then p else if z == p then i else z;
            forall c :: 0 <= c < n ==> Swapped(mat, i, p)[z'][c] == 0.0
  {
    var z' := if z == i then p else if z == p then i else z;
    assert Swapped(mat, i, p)[z'] == mat[z];
  }

  /** The pivot swap moves a zero row among rows i .. n to another index in that range. */
  lemma PivotedKeepsZeroRow(mat: seq<seq<real>>, n: nat, i: nat, z: nat) returns (z': nat)
    requires IsGrid(mat, n) && i <= z < n
    requires forall c :: 0 <= c < n ==> mat[z][c] == 0.0
    ensures i <= z' < n
    ensures forall c :: 0 <= c < n ==> Pivoted(mat, n, i)[z'][c] == 0.0
  {
    var p := PivotScan(mat, n, i, i, i + 1);
    z' := if p != i && z == i then p else if p != i && z == p then i else z;
    if p != i {
      SwapKeepsZeroRow(mat, n, i, p, z);
    }
  }

  /** Elimination leaves a zero row below the pivot zero: its factor is zero. */
  lemma EliminateKeepsZeroRow(mat: seq<seq<real>>, n: nat, i: nat, z: nat)
    requires IsGrid(mat, n) && i < n && mat[i][i] != 0.0 && z < |mat|
    requires forall c :: 0 <= c < n ==> mat[z][c] == 0.0
    ensures forall c :: 0 <= c < n ==> Eliminated(mat, n, i)[z][c] == 0.0
  {
    EliminatedEntries(mat, n, i);
    forall c | 0 <= c < n
      ensures Eliminated(mat, n, i)[z][c] == 0.0
    {
      assert mat[z][i] == 0.0;
    }
  }

  /** A row of zeros among the first n rows forces the result to zero: pivoting may move
      the row, and elimination leaves it zero, until its pivot falls below the tolerance. */
  lemma {:induction false} DetFromZeroRow(mat: seq<seq<real>>, n: nat, i: nat, det: real, z: nat)
    requires IsGrid(mat, n) && i <= z < n
    requires forall c :: 0 <= c < n ==> mat[z][c] == 0.0
    ensures DetFrom(mat, n, i, det) == 0.0
    decreases n - i
  {
    var stops, e, next, z' := ZeroRowStep(mat, n, i, det, z);
    if !stops {
      DetFromZeroRow(e, n, i + 1, next, z');
    }
  }

  /** One elimination step on rows with a zero row: either the result is zero at once, or
      the next step again sees a zero row. */
  lemma ZeroRowStep(mat: seq<seq<real>>, n: nat, i: nat, det: real, z: nat)
    returns (stops: bool, e: seq<seq<real>>, next: real, z': nat)
    requires IsGrid(mat, n) && i <= z < n
    requires forall c :: 0 <= c < n ==> mat[z][c] == 0.0
    ensures stops ==> DetFrom(mat, n, i, det) == 0.0
    ensures !stops ==> IsGrid(e, n) && i < z' < n && (forall c :: 0 <= c < n ==> e[z'][c] == 0.0)
                       && DetFrom(mat, n, i, det) == DetFrom(e, n, i + 1, next)
  {
    var s := Pivoted(mat, n, i);
    z' := PivotedKeepsZeroRow(mat, n, i, z);
    stops := Abs(s[i][i]) < TOLERANCE;
    e, next := mat, det;
    if stops {
      DetFromStops(mat, n, i, det);
    } else {
      assert z' != i;
      EliminateKeepsZeroRow(s, n, i, z');
      e, next := Eliminated(s, n, i), NextDet(mat, n, i, det);
      DetFromUnfold(mat, n, i, det, s, next);
    }
  }

  lemma DeterminantOfZeroRow(A: Matrix, z: nat)
    requires A.Valid() && z < A.n <= A.m
    requires forall c :: 0 <= c < A.n ==> At(A, z, c) == 0.0
    ensures Det(A) == Ok(0.0)
  {
    DetFromZeroRow(Rows(A), A.n, 0, 1.0, z);
  }

  /** A single entry is its own determinant unless it falls below the tolerance. */
  lemma DeterminantOfSingle(x: real)
    ensures Det(FromRows(1, 1, [[x]])) == Ok(if Abs(x) < TOLERANCE then 0.0 else x)
  {
    var A := FromRows(1, 1, [[x]]);
    assert Rows(A) == [[x]];
  }
}
