/** invert of math_types.rs as evidently intended: row reduce A beside the identity and,
    when the left-hand block has become the identity, return the right-hand block. Row
    operations keep every row of [A | I] in the relation "left part = right part times A",
    so the right-hand block of the result times A is the identity. */
module Inverses {
  import opened Wrappers
  import opened Matrices
  import opened MatrixKernels

  /** The sum over t < k of row[n + t] times entry (t, c) of A: entry c of the right-hand
      part of row, multiplied by A, summed over the first k terms. */
  function Comb(row: seq<real>, A: Matrix, c: nat, k: nat): real
    requires A.Valid() && A.m == A.n && |row| == A.n + A.n && c < A.n && k <= A.n
  {
    if k == 0 then 0.0 else Comb(row, A, c, k - 1) + Times(row[A.n + (k - 1)], At(A, k - 1, c))
  }

  /** The left-hand part of row equals its right-hand part times A. */
  predicate RowRel(row: seq<real>, A: Matrix)
    requires A.Valid() && A.m == A.n
  {
    |row| == A.n + A.n && forall c :: 0 <= c < A.n ==> row[c] == Comb(row, A, c, A.n)
  }

  /** Every row of the n by 2n grid g is in that relation. */
  predicate GridRel(g: seq<seq<real>>, A: Matrix)
    requires A.Valid() && A.m == A.n
  {
    Shaped(g, A.n, A.n + A.n) && forall i :: 0 <= i < A.n ==> RowRel(g[i], A)
  }

  /** The rows of [A | I] after the corrected reduced_row_echelon_form. */
  function ReducedAugmented(A: Matrix): (g: seq<seq<real>>)
    requires A.Valid() && A.m == A.n
    ensures Shaped(g, A.n, A.n + A.n)
  {
    Rref(Corrected, Entries(Augmented(A, Identity(A.n)).value.val), A.n, A.n + A.n)
  }

  /** invert as intended: None for a non-square matrix; otherwise [A | I] in reduced row
      echelon form, and its right-hand block when its left-hand block is I. */
  function InvertCorrected(A: Matrix): (r: Option<Matrix>)
    requires A.Valid()
    ensures r.Some? ==> A.m == A.n && r.value.Valid() && r.value.m == A.m && r.value.n == A.m
  {
    if A.m != A.n then None
    else
      var n := A.m;
      var red := FromRows(n, n + n, ReducedAugmented(A));
      var left := Extracted(red, 0, n, 0, n).value;
      var right := Extracted(red, 0, n, n, n + n).value;
      if left != Identity(n) then None else Some(right)
  }

  // ---- the relation survives each row operation ------------------------------------------

  /** Dividing a row by d divides every term of the sum by d. */
  lemma {:induction false} CombDiv(x: seq<real>, z: seq<real>, d: real, A: Matrix, c: nat, k: nat)
    requires A.Valid() && A.m == A.n && |x| == |z| == A.n + A.n && c < A.n && k <= A.n
    requires d != 0.0 && forall j :: 0 <= j < A.n + A.n ==> z[j] == x[j] / d
    ensures Comb(z, A, c, k) == Comb(x, A, c, k) / d
  {
    if k > 0 {
      CombDiv(x, z, d, A, c, k - 1);
      var a, y := At(A, k - 1, c), x[A.n + (k - 1)];
      assert z[A.n + (k - 1)] == y / d;
      assert Times(y / d, a) == Times(y, a) / d;
    }
  }

  /** Subtracting f times row y from row x subtracts f times its sum. */
  lemma {:induction false} CombSub(x: seq<real>, y: seq<real>, z: seq<real>, f: real, A: Matrix, c: nat, k: nat)
    requires A.Valid() && A.m == A.n && |x| == |y| == |z| == A.n + A.n && c < A.n && k <= A.n
    requires forall j :: 0 <= j < A.n + A.n ==> z[j] == x[j] - Times(f, y[j])
    ensures Comb(z, A, c, k) == Comb(x, A, c, k) - Times(f, Comb(y, A, c, k))
  {
    if k > 0 {
      CombSub(x, y, z, f, A, c, k - 1);
      var a, p, q := At(A, k - 1, c), x[A.n + (k - 1)], y[A.n + (k - 1)];
      assert z[A.n + (k - 1)] == p - Times(f, q);
      assert Times(p - Times(f, q), a) == Times(p, a) - Times(f, Times(q, a));
      assert Times(f, Comb(y, A, c, k - 1) + Times(q, a))
          == Times(f, Comb(y, A, c, k - 1)) + Times(f, Times(q, a));
    }
  }

  lemma RelDiv(x: seq<real>, z: seq<real>, d: real, A: Matrix)
    requires A.Valid() && A.m == A.n && RowRel(x, A) && |z| == A.n + A.n
    requires d != 0.0 && forall j :: 0 <= j < A.n + A.n ==> z[j] == x[j] / d
    ensures RowRel(z, A)
  {
    forall c | 0 <= c < A.n
      ensures z[c] == Comb(z, A, c, A.n)
    {
      CombDiv(x, z, d, A, c, A.n);
    }
  }

  lemma RelSub(x: seq<real>, y: seq<real>, z: seq<real>, f: real, A: Matrix)
    requires A.Valid() && A.m == A.n && RowRel(x, A) && RowRel(y, A) && |z| == A.n + A.n
    requires forall j :: 0 <= j < A.n + A.n ==> z[j] == x[j] - Times(f, y[j])
    ensures RowRel(z, A)
  {
    forall c | 0 <= c < A.n
      ensures z[c] == Comb(z, A, c, A.n)
    {
      CombSub(x, y, z, f, A, c, A.n);
    }
  }

  lemma SwapRel(g: seq<seq<real>>, A: Matrix, a: nat, b: nat)
    requires A.Valid() && A.m == A.n && GridRel(g, A) && a < A.n && b < A.n
    ensures GridRel(Swap(g, a, b), A)
  {
    SwapShaped(g, A.n, A.n + A.n, a, b);
    var w := Swap(g, a, b);
    forall i | 0 <= i < A.n
      ensures RowRel(w[i], A)
    {
      assert w[i] == g[i] || w[i] == g[a] || w[i] == g[b];
    }
  }

  // ---- the row echelon form ----------------------------------------------------------------

  /** Normalising a row that is zero before column col divides the whole row. */
  lemma NormalizedRel(g: seq<seq<real>>, A: Matrix, r: nat, col: nat)
    requires A.Valid() && A.m == A.n && GridRel(g, A) && r < A.n && col < A.n + A.n
    requires g[r][col] != 0.0 && forall c :: 0 <= c < col ==> g[r][c] == 0.0
    ensures GridRel(Normalized(g, A.n, A.n + A.n, r, col), A)
  {
    var s := Normalized(g, A.n, A.n + A.n, r, col);
    var x := g[r][col];
    forall j | 0 <= j < A.n + A.n
      ensures s[r][j] == g[r][j] / x
    {
    }
    RelDiv(g[r], s[r], x, A);
    assert forall i :: 0 <= i < A.n && i != r ==> s[i] == g[i];
  }

  /** Reducing a row against a pivot row that is zero before column col subtracts a
      multiple of the whole pivot row. */
  lemma ReducedRowRel(g: seq<seq<real>>, A: Matrix, cur: nat, row: nat, col: nat)
    requires A.Valid() && A.m == A.n && GridRel(g, A) && cur < A.n && row < A.n && col < A.n + A.n
    requires forall c :: 0 <= c < col ==> g[cur][c] == 0.0
    ensures RowRel(ReducedRow(g, A.n, A.n + A.n, cur, row, col), A)
  {
    var z := ReducedRow(g, A.n, A.n + A.n, cur, row, col);
    var f := g[row][col];
    forall j | 0 <= j < A.n + A.n
      ensures z[j] == g[row][j] - Times(f, g[cur][j])
    {
      if j < col {
        assert Times(f, g[cur][j]) == 0.0;
      }
    }
    RelSub(g[row], g[cur], z, f, A);
  }

  lemma {:induction false} ReduceFromRel(g: seq<seq<real>>, A: Matrix, cur: nat, col: nat, row: nat)
    requires A.Valid() && A.m == A.n && GridRel(g, A) && cur < row <= A.n && col < A.n + A.n
    requires forall c :: 0 <= c < col ==> g[cur][c] == 0.0
    ensures GridRel(ReduceFrom(g, A.n, A.n + A.n, cur, col, row), A)
    decreases A.n - row
  {
    if row < A.n {
      var next := g[row := ReducedRow(g, A.n, A.n + A.n, cur, row, col)];
      ReducedRowRel(g, A, cur, row, col);
      assert next[cur] == g[cur];
      assert forall i :: 0 <= i < A.n && i != row ==> next[i] == g[i];
      ReduceFromRel(next, A, cur, col, row + 1);
    }
  }

  lemma RefStepRel(g: seq<seq<real>>, A: Matrix, col: nat, cur: nat)
    requires A.Valid() && A.m == A.n && GridRel(g, A) && col < A.n + A.n
    requires RefInvariant(g, A.n, A.n + A.n, col, cur) && PivotSearch(g, A.n, A.n + A.n, col, cur) < A.n
    ensures GridRel(RefStep(g, A.n, A.n + A.n, col, cur), A)
  {
    var rows, cols := A.n, A.n + A.n;
    var p := PivotSearch(g, rows, cols, col, cur);
    var w := Swap(g, cur, p);
    SwapPivotUp(g, rows, cols, col, cur, p);
    SwapRel(g, A, cur, p);
    NormalizedRel(w, A, cur, col);
    var nz := Normalized(w, rows, cols, cur, col);
    NormalizePivot(w, rows, cols, col, cur);
    ReduceFromRel(nz, A, cur, col, cur + 1);
  }

  lemma {:induction false} RefFromRel(g: seq<seq<real>>, A: Matrix, col: nat, cur: nat)
    requires A.Valid() && A.m == A.n && GridRel(g, A) && col <= A.n + A.n
    requires RefInvariant(g, A.n, A.n + A.n, col, cur)
    ensures GridRel(RefFrom(g, A.n, A.n + A.n, col, cur), A)
    decreases A.n + A.n - col
  {
    var rows, cols := A.n, A.n + A.n;
    if col < cols {
      var y, next, found := RefRoundOf(g, rows, cols, col, cur);
      if found { RefStepRel(g, A, col, cur); }
      RefFromRel(y, A, col + 1, next);
    } else {
      RefFromDone(g, rows, cols, col, cur);
    }
  }

  // ---- the row loop, corrected ---------------------------------------------------------------

  lemma ScaledRel(g: seq<seq<real>>, A: Matrix, r: nat, lead: nat)
    requires A.Valid() && A.m == A.n && GridRel(g, A) && r < A.n && lead < A.n + A.n
    ensures GridRel(Scaled(g, A.n, A.n + A.n, r, lead), A)
  {
    var d := g[r][lead];
    if d != 0.0 {
      var s := Scaled(g, A.n, A.n + A.n, r, lead);
      RelDiv(g[r], s[r], d, A);
      assert forall i :: 0 <= i < A.n && i != r ==> s[i] == g[i];
    }
  }

  lemma {:induction false} EliminateFromRel(g: seq<seq<real>>, A: Matrix, r: nat, lead: nat, k: nat)
    requires A.Valid() && A.m == A.n && GridRel(g, A) && r < A.n && lead < A.n + A.n && k <= A.n
    ensures GridRel(EliminateFrom(Corrected, g, A.n, A.n + A.n, r, lead, k), A)
    decreases A.n - k
  {
    var rows, cols := A.n, A.n + A.n;
    if k < rows {
      if k == r {
        EliminateFromRel(g, A, r, lead, k + 1);
      } else {
        var z := CombinedRow(Corrected, g, rows, cols, r, k, lead);
        RelSub(g[k], g[r], z, g[k][lead], A);
        var next := g[k := z];
        assert forall i :: 0 <= i < A.n && i != k ==> next[i] == g[i];
        EliminateFromRel(next, A, r, lead, k + 1);
      }
    }
  }

  lemma RrefStepRel(g: seq<seq<real>>, A: Matrix, r: nat, i: nat, lead: nat)
    requires A.Valid() && A.m == A.n && GridRel(g, A) && r <= i < A.n && lead < A.n + A.n
    ensures GridRel(RrefStep(Corrected, g, A.n, A.n + A.n, r, i, lead), A)
  {
    var rows, cols := A.n, A.n + A.n;
    SwapRel(g, A, i, r);
    var w := Swap(g, i, r);
    ScaledRel(w, A, r, lead);
    EliminateFromRel(Scaled(w, rows, cols, r, lead), A, r, lead, 0);
  }

  lemma {:induction false} RrefFromRel(g: seq<seq<real>>, A: Matrix, r: nat, lead: nat)
    requires A.Valid() && A.m == A.n && GridRel(g, A) && r <= A.n
    ensures GridRel(RrefFrom(Corrected, g, A.n, A.n + A.n, r, lead), A)
    decreases A.n - r
  {
    if r < A.n && lead < A.n + A.n {
      var y, l := RrefRoundRel(g, A, r, lead);
      RrefFromRel(y, A, r + 1, l + 1);
    } else {
      RrefFromDone(Corrected, g, A.n, A.n + A.n, r, lead);
    }
  }

  /** One round of the row loop keeps the relation. */
  lemma RrefRoundRel(g: seq<seq<real>>, A: Matrix, r: nat, lead: nat) returns (y: seq<seq<real>>, l: nat)
    requires A.Valid() && A.m == A.n && GridRel(g, A) && r < A.n && lead < A.n + A.n
    ensures GridRel(y, A)
    ensures RrefFrom(Corrected, y, A.n, A.n + A.n, r + 1, l + 1) == RrefFrom(Corrected, g, A.n, A.n + A.n, r, lead)
  {
    var i;
    y, i, l := RrefRoundOf(Corrected, g, A.n, A.n + A.n, r, lead);
    if l < A.n + A.n {
      RrefStepRel(g, A, r, i, l);
    }
  }

  /** Corrected reduced_row_echelon_form keeps the relation on every row. */
  lemma RrefRel(g: seq<seq<real>>, A: Matrix, out: seq<seq<real>>)
    requires A.Valid() && A.m == A.n && GridRel(g, A)
    requires out == Rref(Corrected, g, A.n, A.n + A.n)
    ensures GridRel(out, A)
  {
    var rows, cols := A.n, A.n + A.n;
    RefFromRel(g, A, 0, 0);
    RrefFromRel(RefFrom(g, rows, cols, 0, 0), A, 0, 0);
  }

  // ---- the start and the end -----------------------------------------------------------------

  /** With a unit vector on the right, the sum picks out one row of A. */
  lemma {:induction false} CombOfUnit(row: seq<real>, A: Matrix, i: nat, c: nat, k: nat)
    requires A.Valid() && A.m == A.n && |row| == A.n + A.n && i < A.n && c < A.n && k <= A.n
    requires forall j :: A.n <= j < A.n + A.n ==> row[j] == if j == A.n + i then 1.0 else 0.0
    ensures Comb(row, A, c, k) == if i < k then At(A, i, c) else 0.0
  {
    if k > 0 {
      CombOfUnit(row, A, i, c, k - 1);
      assert row[A.n + (k - 1)] == if A.n + (k - 1) == A.n + i then 1.0 else 0.0;
    }
  }

  /** A row of A followed by the matching row of I is in the relation. */
  lemma UnitRowRel(row: seq<real>, A: Matrix, i: nat)
    requires A.Valid() && A.m == A.n && |row| == A.n + A.n && i < A.n
    requires forall c :: 0 <= c < A.n ==> row[c] == At(A, i, c)
    requires forall j :: A.n <= j < A.n + A.n ==> row[j] == if j == A.n + i then 1.0 else 0.0
    ensures RowRel(row, A)
  {
    forall c | 0 <= c < A.n
      ensures row[c] == Comb(row, A, c, A.n)
    {
      CombOfUnit(row, A, i, c, A.n);
    }
  }

  /** Every row of [A | I] is in the relation. */
  lemma AugmentedRel(A: Matrix, g: seq<seq<real>>)
    requires A.Valid() && A.m == A.n && g == Entries(Augmented(A, Identity(A.n)).value.val)
    ensures GridRel(g, A)
  {
    var n := A.n;
    var I := Identity(n);
    var aug := Augmented(A, I).value;
    if n > 0 {
      assert Shaped(g, n, n + n);
      forall i | 0 <= i < n
        ensures RowRel(g[i], A)
      {
        forall j | 0 <= j < n + n
          ensures g[i][j] == AugmentedEntry(A, I, i, j)
        {
          assert g[i][j] == At(aug, i, j);
        }
        forall j | n <= j < n + n
          ensures g[i][j] == if j == n + i then 1.0 else 0.0
        {
          assert g[i][j] == AugmentedEntry(A, I, i, j) == At(I, i, j - n);
        }
        UnitRowRel(g[i], A, i);
      }
    }
  }

  /** The entries of R times A are the sums of a grid's right-hand parts taken with A. */
  lemma {:induction false} ProductIsComb(R: Matrix, A: Matrix, row: seq<real>, i: nat, c: nat, k: nat)
    requires A.Valid() && A.m == A.n && R.Valid() && R.m == A.n && R.n == A.n
    requires |row| == A.n + A.n && i < A.n && c < A.n && k <= A.n
    requires forall t :: 0 <= t < A.n ==> At(R, i, t) == row[A.n + t]
    ensures ProductEntry(R, A, i, c, k) == Comb(row, A, c, k)
  {
    if k > 0 {
      ProductIsComb(R, A, row, i, c, k - 1);
    }
  }

  /** The blocks of the reduced grid, read back as matrices. */
  lemma BlocksOfGrid(out: seq<seq<real>>, n: nat, red: Matrix, left: Matrix, right: Matrix)
    requires Shaped(out, n, n + n) && red == FromRows(n, n + n, out)
    requires left == Extracted(red, 0, n, 0, n).value && right == Extracted(red, 0, n, n, n + n).value
    ensures left.Valid() && left.m == n && left.n == n && right.Valid() && right.m == n && right.n == n
    ensures forall i, c :: 0 <= i < n && 0 <= c < n ==> At(left, i, c) == out[i][c]
    ensures forall i, t :: 0 <= i < n && 0 <= t < n ==> At(right, i, t) == out[i][n + t]
  {
  }

  /** An entry of R times A, where row i of the grid is in the relation. */
  lemma ProductEntryOfRel(out: seq<seq<real>>, A: Matrix, R: Matrix, i: nat, c: nat)
    requires A.Valid() && A.m == A.n && GridRel(out, A) && i < A.n && c < A.n
    requires R.Valid() && R.m == A.n && R.n == A.n
    requires forall t :: 0 <= t < A.n ==> At(R, i, t) == out[i][A.n + t]
    ensures ProductEntry(R, A, i, c, A.n) == out[i][c]
  {
    ProductIsComb(R, A, out[i], i, c, A.n);
  }

  /** A grid in the relation whose left-hand block is I: its right-hand block R has
      R times A equal to I. */
  lemma RightBlockInverts(out: seq<seq<real>>, A: Matrix, left: Matrix, R: Matrix)
    requires A.Valid() && A.m == A.n && A.n > 0 && GridRel(out, A)
    requires left.Valid() && left.m == A.n && left.n == A.n && left == Identity(A.n)
    requires R.Valid() && R.m == A.n && R.n == A.n
    requires forall i, c :: 0 <= i < A.n && 0 <= c < A.n ==> At(left, i, c) == out[i][c]
    requires forall i, t :: 0 <= i < A.n && 0 <= t < A.n ==> At(R, i, t) == out[i][A.n + t]
    ensures Product(R, A) == Ok(Identity(A.n))
  {
    var P := Product(R, A).value;
    forall i, c | 0 <= i < A.n && 0 <= c < A.n
      ensures At(P, i, c) == At(left, i, c)
    {
      ProductEntryOfRel(out, A, R, i, c);
    }
    SameEntries(P, left);
  }

  /** Every row of [A | I] is still in the relation after the row reduction. */
  lemma ReducedAugmentedRel(A: Matrix, out: seq<seq<real>>)
    requires A.Valid() && A.m == A.n && out == ReducedAugmented(A)
    ensures GridRel(out, A)
  {
    var g := Entries(Augmented(A, Identity(A.n)).value.val);
    AugmentedRel(A, g);
    RrefRel(g, A, out);
  }

  /** What the corrected invert returns is a left inverse: R times A is the identity. */
  lemma InvertCorrectedIsInverse(A: Matrix)
    requires A.Valid() && InvertCorrected(A).Some? && A.m > 0
    ensures Product(InvertCorrected(A).value, A) == Ok(Identity(A.m))
  {
    var n := A.m;
    var out := ReducedAugmented(A);
    ReducedAugmentedRel(A, out);
    var red := FromRows(n, n + n, out);
    var left := Extracted(red, 0, n, 0, n).value;
    var R := Extracted(red, 0, n, n, n + n).value;
    BlocksOfGrid(out, n, red, left, R);
    RightBlockInverts(out, A, left, R);
  }

  /** Against a zero column of A, every entry of R times A in that column is zero. */
  lemma {:induction false} ProductOfZeroColumn(R: Matrix, A: Matrix, i: nat, c: nat, k: nat)
    requires R.Valid() && A.Valid() && R.n == A.m && i < R.m && c < A.n && k <= R.n
    requires forall t :: 0 <= t < A.m ==> At(A, t, c) == 0.0
    ensures ProductEntry(R, A, i, c, k) == 0.0
  {
    if k > 0 {
      ProductOfZeroColumn(R, A, i, c, k - 1);
    }
  }

  /** Nothing times a matrix with a zero column is the identity. */
  lemma NoLeftInverse(R: Matrix, A: Matrix, c: nat)
    requires R.Valid() && A.Valid() && R.n == A.m && R.m == A.n && c < A.n
    requires forall t :: 0 <= t < A.m ==> At(A, t, c) == 0.0
    ensures Product(R, A) != Ok(Identity(A.n))
  {
    if Product(R, A).Ok? {
      var P := Product(R, A).value;
      ProductOfZeroColumn(R, A, c, c, A.m);
      assert At(P, c, c) == 0.0;
      assert At(Identity(A.n), c, c) == 1.0;
    }
  }

  /** A matrix with a zero column is singular: the corrected invert returns None. */
  lemma ZeroColumnHasNoInverse(A: Matrix, c: nat)
    requires A.Valid() && A.m > 0 && c < A.n
    requires forall t :: 0 <= t < A.m ==> At(A, t, c) == 0.0
    ensures InvertCorrected(A) == None
  {
    if InvertCorrected(A).Some? {
      InvertCorrectedIsInverse(A);
      NoLeftInverse(InvertCorrected(A).value, A, c);
      assert false;
    }
  }

  /** [[0]] has no inverse. */
  lemma InvertCorrectedRejectsZero()
    ensures InvertCorrected(FromRows(1, 1, [[0.0]])) == None
  {
    ZeroColumnHasNoInverse(FromRows(1, 1, [[0.0]]), 0);
  }

  /** The row reduction of [2 | 1]: one pivot, divided to one. */
  lemma ReducedOfTwo(g: seq<seq<real>>)
    requires g == [[2.0, 1.0]]
    ensures Rref(Corrected, g, 1, 2) == [[1.0, 0.5]]
  {
    var h := [[1.0, 0.5]];
    assert PivotSearch(g, 1, 2, 0, 0) == 0;
    assert Swap(g, 0, 0) == g;
    var nr := Normalized(g, 1, 2, 0, 0)[0];
    assert nr[0] == 2.0 / 2.0 && nr[1] == 1.0 / 2.0;
    assert nr == h[0];
    assert Normalized(g, 1, 2, 0, 0) == h;
    assert RefStep(g, 1, 2, 0, 0) == h;
    assert PivotSearch(h, 1, 2, 1, 1) == 1;
    assert RefFrom(h, 1, 2, 1, 1) == h;
    assert RefFrom(g, 1, 2, 0, 0) == h;
    assert SearchFrom(h, 1, 2, 0, 0, 0) == (0, 0);
    assert Swap(h, 0, 0) == h;
    var sr := Scaled(h, 1, 2, 0, 0)[0];
    assert sr[0] == 1.0 / 1.0 && sr[1] == 0.5 / 1.0;
    assert sr == h[0];
    assert Scaled(h, 1, 2, 0, 0) == h;
    assert EliminateFrom(Corrected, h, 1, 2, 0, 0, 0) == h;
    assert RrefStep(Corrected, h, 1, 2, 0, 0, 0) == h;
  }

  /** [[2]], which Invert rejects, gets its inverse [[0.5]] from the corrected invert. */
  lemma InvertCorrectedFindsInverse()
    ensures InvertCorrected(FromRows(1, 1, [[2.0]])) == Some(FromRows(1, 1, [[0.5]]))
  {
    var A := FromRows(1, 1, [[2.0]]);
    var aug := Augmented(A, Identity(1)).value;
    var g := Entries(aug.val);
    assert At(aug, 0, 0) == 2.0 && At(aug, 0, 1) == 1.0;
    assert |g| == 1 && |g[0]| == 2;
    assert g[0][0] == At(aug, 0, 0) && g[0][1] == At(aug, 0, 1);
    assert g[0] == [2.0, 1.0];
    assert g == [[2.0, 1.0]];
    ReducedOfTwo(g);
    var red := FromRows(1, 2, [[1.0, 0.5]]);
    var left := Extracted(red, 0, 1, 0, 1).value;
    var right := Extracted(red, 0, 1, 1, 2).value;
    assert At(left, 0, 0) == 1.0;
    SameEntries(left, Identity(1));
    assert At(right, 0, 0) == 0.5;
    SameEntries(right, FromRows(1, 1, [[0.5]]));
  }
}
