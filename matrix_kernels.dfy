/** The in-place operations of math_types.rs's Matrix: set_val, row_swap, row_add and the
    row echelon form, on a matrix object whose `val`, `m` and `n` they update. */
module MatrixKernels {
  import opened Wrappers
  import Vectors
  import opened Matrices

  /** The entries of the rows, one sequence per row. */
  function Entries(val: seq<Vectors.Vector>): (g: seq<seq<real>>)
    ensures |g| == |val| && forall r :: 0 <= r < |val| ==> g[r] == val[r].val
  {
    seq(|val|, r requires 0 <= r < |val| => val[r].val)
  }

  /** rows rows of cols entries each. */
  predicate Shaped(g: seq<seq<real>>, rows: nat, cols: nat) {
    |g| == rows && forall r {:trigger |g[r]|} :: 0 <= r < rows ==> |g[r]| == cols
  }

  // ---- row_swap and row_add on matrix values ---------------------------------------------

  /** row_swap: nothing happens for equal or out-of-range rows; otherwise the two rows are
      exchanged. A matrix with rows but no columns stores no rows, so the swap indexes
      past the end and panics. */
  function RowSwapped(A: Matrix, a: nat, b: nat): (r: Result<Matrix>)
    requires A.Valid()
    ensures r.Err? <==> a != b && a < A.m && b < A.m && A.n == 0
    ensures r.Ok? ==> r.value.Valid() && r.value.m == A.m && r.value.n == A.n
    ensures r.Ok? ==> forall i, j :: 0 <= i < A.m && 0 <= j < A.n ==>
              At(r.value, i, j) == At(A, if a < A.m && b < A.m && i == a then b
                                         else if a < A.m && b < A.m && i == b then a else i, j)
  {
    if a == b || a >= A.m || b >= A.m then Ok(A)
    else if A.n == 0 then Err(Panic("index out of bounds"))
    else Ok(Matrix(A.val[a := A.val[b]][b := A.val[a]], A.m, A.n))
  }

  /** Swapping the same two rows again restores the matrix. */
  lemma RowSwapTwice(A: Matrix, a: nat, b: nat)
    requires A.Valid() && RowSwapped(A, a, b).Ok?
    ensures RowSwapped(RowSwapped(A, a, b).value, a, b) == Ok(A)
  {
    var B := RowSwapped(A, a, b).value;
    SameEntries(RowSwapped(B, a, b).value, A);
  }

  /** row_add: row `target` gains `fac` times row `orig`, unless fac is zero or a row is
      out of range; a matrix without columns has nothing to add. */
  function RowAdded(A: Matrix, orig: nat, fac: real, target: nat): (r: Matrix)
    requires A.Valid()
    ensures r.Valid() && r.m == A.m && r.n == A.n
    ensures fac == 0.0 || orig >= A.m || target >= A.m ==> r == A
    ensures forall i, j :: 0 <= i < A.m && 0 <= j < A.n ==>
              At(r, i, j) == if i == target && fac != 0.0 && orig < A.m
                             then At(A, target, j) + At(A, orig, j) * fac else At(A, i, j)
  {
    if fac == 0.0 || orig >= A.m || target >= A.m || A.n == 0 then A
    else Matrix(A.val[target := Vectors.Vector(seq(A.n, j requires 0 <= j < A.n =>
                  At(A, target, j) + At(A, orig, j) * fac), A.n)], A.m, A.n)
  }

  /** Adding -fac times the same other row undoes a row addition. */
  lemma RowAddUndone(A: Matrix, orig: nat, fac: real, target: nat)
    requires A.Valid() && orig != target
    ensures RowAdded(RowAdded(A, orig, fac, target), orig, -fac, target) == A
  {
    var B := RowAdded(A, orig, fac, target);
    var C := RowAdded(B, orig, -fac, target);
    if fac != 0.0 && orig < A.m && target < A.m {
      forall i, j | 0 <= i < A.m && 0 <= j < A.n
        ensures At(C, i, j) == At(A, i, j)
      {
        if i == target {
          assert At(B, orig, j) == At(A, orig, j);
          assert At(C, i, j) == At(A, i, j) + At(A, orig, j) * fac + At(A, orig, j) * -fac;
        }
      }
      SameEntries(C, A);
    }
  }

  // ---- the row echelon form on row grids -------------------------------------------------

  /** The first row from p on whose entry in column col is non-zero, or rows. */
  function PivotSearch(g: seq<seq<real>>, rows: nat, cols: nat, col: nat, p: nat): (q: nat)
    requires Shaped(g, rows, cols) && col < cols && p <= rows
    ensures p <= q <= rows
    ensures q < rows ==> g[q][col] != 0.0
    ensures forall r :: p <= r < q ==> g[r][col] == 0.0
    decreases rows - p
  {
    if p == rows || g[p][col] != 0.0 then p else PivotSearch(g, rows, cols, col, p + 1)
  }

  /** Rows a and b exchanged (Vec::swap). */
  function Swap(g: seq<seq<real>>, a: nat, b: nat): (s: seq<seq<real>>)
    requires a < |g| && b < |g|
    ensures |s| == |g|
  {
    g[a := g[b]][b := g[a]]
  }

  /** Row r divided, from column col on, by its entry in column col. */
  function Normalized(g: seq<seq<real>>, rows: nat, cols: nat, r: nat, col: nat): (s: seq<seq<real>>)
    requires Shaped(g, rows, cols) && r < rows && col < cols && g[r][col] != 0.0
    ensures Shaped(s, rows, cols)
  {
    g[r := seq(cols, c requires 0 <= c < cols => if c < col then g[r][c] else g[r][c] / g[r][col])]
  }

  /** Row `row` less its entry in column col times row cur, from column col on. */
  function ReducedRow(g: seq<seq<real>>, rows: nat, cols: nat, cur: nat, row: nat, col: nat): (s: seq<real>)
    requires Shaped(g, rows, cols) && cur < rows && row < rows && col < cols
    ensures |s| == cols
  {
    seq(cols, c requires 0 <= c < cols => if c < col then g[row][c] else g[row][c] - Times(g[row][col], g[cur][c]))
  }

  /** Rows row .. rows reduced against row cur one after the other, as the loop does. */
  function ReduceFrom(g: seq<seq<real>>, rows: nat, cols: nat, cur: nat, col: nat, row: nat): (s: seq<seq<real>>)
    requires Shaped(g, rows, cols) && cur < row <= rows && col < cols
    ensures Shaped(s, rows, cols)
    decreases rows - row
  {
    if row == rows then g
    else ReduceFrom(g[row := ReducedRow(g, rows, cols, cur, row, col)], rows, cols, cur, col, row + 1)
  }

  /** row_echelon_form from column col on, with cur rows already holding pivots. */
  function RefFrom(g: seq<seq<real>>, rows: nat, cols: nat, col: nat, cur: nat): (s: seq<seq<real>>)
    requires Shaped(g, rows, cols) && col <= cols && cur <= rows
    ensures Shaped(s, rows, cols)
    decreases cols - col
  {
    if col == cols then g
    else if PivotSearch(g, rows, cols, col, cur) == rows then RefFrom(g, rows, cols, col + 1, cur)
    else RefFrom(RefStep(g, rows, cols, col, cur), rows, cols, col + 1, cur + 1)
  }

  /** One pivot step: swap the pivot row up, normalise it, clear the column below it. */
  function RefStep(g: seq<seq<real>>, rows: nat, cols: nat, col: nat, cur: nat): (s: seq<seq<real>>)
    requires Shaped(g, rows, cols) && col < cols && cur <= rows
    requires PivotSearch(g, rows, cols, col, cur) < rows
    ensures Shaped(s, rows, cols)
  {
    var p := PivotSearch(g, rows, cols, col, cur);
    var n := Normalized(Swap(g, cur, p), rows, cols, cur, col);
    ReduceFrom(n, rows, cols, cur, col, cur + 1)
  }

  /** The column loop one round further, where the search finds a pivot. */
  lemma RefFromPivot(g: seq<seq<real>>, rows: nat, cols: nat, col: nat, cur: nat, y: seq<seq<real>>)
    requires Shaped(g, rows, cols) && col < cols && cur <= rows
    requires PivotSearch(g, rows, cols, col, cur) < rows && y == RefStep(g, rows, cols, col, cur)
    ensures RefFrom(y, rows, cols, col + 1, cur + 1) == RefFrom(g, rows, cols, col, cur)
  {
  }

  // ---- what the row echelon form guarantees ----------------------------------------------

  /** The column of the first non-zero entry of row from column c on, or its length. */
  function Lead(row: seq<real>, c: nat): (p: nat)
    requires c <= |row|
    ensures c <= p <= |row|
    decreases |row| - c
  {
    if c == |row| || row[c] != 0.0 then c else Lead(row, c + 1)
  }

  /** Every non-zero row starts with a one, strictly right of the start of every row above
      it, and the zero rows come last. */
  predicate IsRowEchelon(g: seq<seq<real>>, rows: nat, cols: nat)
    requires Shaped(g, rows, cols)
  {
    (forall r :: 0 <= r < rows && Lead(g[r], 0) < cols ==> g[r][Lead(g[r], 0)] == 1.0) &&
    (forall r, s :: 0 <= r < s < rows ==> Lead(g[s], 0) == cols || Lead(g[r], 0) < Lead(g[s], 0))
  }

  lemma {:induction false} LeadAt(row: seq<real>, c: nat, p: nat)
    requires c <= p < |row| && row[p] != 0.0
    requires forall k :: c <= k < p ==> row[k] == 0.0
    ensures Lead(row, c) == p
    decreases p - c
  {
    if c < p {
      LeadAt(row, c + 1, p);
    }
  }

  lemma {:induction false} LeadOfZeros(row: seq<real>, c: nat)
    requires c <= |row| && forall k :: c <= k < |row| ==> row[k] == 0.0
    ensures Lead(row, c) == |row|
    decreases |row| - c
  {
    if c < |row| {
      LeadOfZeros(row, c + 1);
    }
  }

  /** What holds after columns 0 .. col have been processed with cur pivot rows. */
  predicate RefInvariant(g: seq<seq<real>>, rows: nat, cols: nat, col: nat, cur: nat)
    requires Shaped(g, rows, cols)
  {
    cur <= rows && col <= cols && cur <= col &&
    (forall r :: 0 <= r < cur ==> Lead(g[r], 0) < col && g[r][Lead(g[r], 0)] == 1.0) &&
    (forall r, s :: 0 <= r < s < cur ==> Lead(g[r], 0) < Lead(g[s], 0)) &&
    (forall r, c :: cur <= r < rows && 0 <= c < col ==> g[r][c] == 0.0)
  }

  lemma {:induction false} ReduceFromEntries(g: seq<seq<real>>, rows: nat, cols: nat, cur: nat, col: nat, row: nat)
    requires Shaped(g, rows, cols) && cur < row <= rows && col < cols
    ensures forall r :: 0 <= r < rows ==>
              ReduceFrom(g, rows, cols, cur, col, row)[r] ==
                if row <= r then ReducedRow(g, rows, cols, cur, r, col) else g[r]
    decreases rows - row
  {
    if row < rows {
      var next := g[row := ReducedRow(g, rows, cols, cur, row, col)];
      ReduceFromEntries(next, rows, cols, cur, col, row + 1);
      forall r | row + 1 <= r < rows
        ensures ReducedRow(next, rows, cols, cur, r, col) == ReducedRow(g, rows, cols, cur, r, col)
      {
        assert next[r] == g[r] && next[cur] == g[cur];
      }
    }
  }

  /** Swapping the pivot row p up to row cur keeps the rows above and the zero columns. */
  lemma SwapPivotUp(g: seq<seq<real>>, rows: nat, cols: nat, col: nat, cur: nat, p: nat)
    requires Shaped(g, rows, cols) && col < cols && cur <= p < rows && g[p][col] != 0.0
    requires forall r, c :: cur <= r < rows && 0 <= c < col ==> g[r][c] == 0.0
    ensures Shaped(Swap(g, cur, p), rows, cols)
    ensures forall r :: 0 <= r < cur ==> Swap(g, cur, p)[r] == g[r]
    ensures forall r, c :: cur <= r < rows && 0 <= c < col ==> Swap(g, cur, p)[r][c] == 0.0
    ensures Swap(g, cur, p)[cur][col] != 0.0
  {
    var w := Swap(g, cur, p);
    assert w[cur] == g[p];
    forall r | cur <= r < rows
      ensures w[r] == g[r] || w[r] == g[cur] || w[r] == g[p]
    {
    }
  }

  lemma DivSelf(x: real)
    requires x != 0.0
    ensures x / x == 1.0
  {
  }

  /** Normalising row cur turns its entry in column col into one and keeps the zeros
      before it. */
  lemma NormalizePivot(w: seq<seq<real>>, rows: nat, cols: nat, col: nat, cur: nat)
    requires Shaped(w, rows, cols) && col < cols && cur < rows && w[cur][col] != 0.0
    requires forall c :: 0 <= c < col ==> w[cur][c] == 0.0
    ensures forall r :: 0 <= r < rows && r != cur ==> Normalized(w, rows, cols, cur, col)[r] == w[r]
    ensures forall c :: 0 <= c < col ==> Normalized(w, rows, cols, cur, col)[cur][c] == 0.0
    ensures Normalized(w, rows, cols, cur, col)[cur][col] == 1.0
  {
    var x := w[cur][col];
    var row := seq(cols, c requires 0 <= c < cols => if c < col then w[cur][c] else w[cur][c] / x);
    assert Normalized(w, rows, cols, cur, col) == w[cur := row];
    assert row[col] == x / x;
    DivSelf(x);
  }

  /** Reducing the rows below a normalised pivot row zeroes their entries in its column. */
  lemma ReduceBelowPivot(nz: seq<seq<real>>, rows: nat, cols: nat, col: nat, cur: nat, below: nat)
    requires Shaped(nz, rows, cols) && col < cols && cur < rows && below == cur + 1 && nz[cur][col] == 1.0
    requires forall r, c :: cur < r < rows && 0 <= c < col ==> nz[r][c] == 0.0
    ensures forall r :: 0 <= r <= cur ==> ReduceFrom(nz, rows, cols, cur, col, below)[r] == nz[r]
    ensures forall r, c :: cur < r < rows && 0 <= c <= col ==> ReduceFrom(nz, rows, cols, cur, col, below)[r][c] == 0.0
  {
    ReduceFromEntries(nz, rows, cols, cur, col, cur + 1);
    forall r, c | cur < r < rows && 0 <= c <= col
      ensures ReducedRow(nz, rows, cols, cur, r, col)[c] == 0.0
    {
      if c == col {
        assert Times(nz[r][col], nz[cur][col]) == nz[r][col];
      }
    }
  }

  /** A pivot step keeps the invariant, one column further and with one more pivot row. */
  lemma RefStepInvariant(g: seq<seq<real>>, rows: nat, cols: nat, col: nat, cur: nat)
    requires Shaped(g, rows, cols) && col < cols && RefInvariant(g, rows, cols, col, cur)
    requires PivotSearch(g, rows, cols, col, cur) < rows
    ensures RefInvariant(RefStep(g, rows, cols, col, cur), rows, cols, col + 1, cur + 1)
  {
    var p := PivotSearch(g, rows, cols, col, cur);
    var w := Swap(g, cur, p);
    SwapPivotUp(g, rows, cols, col, cur, p);
    var nz := Normalized(w, rows, cols, cur, col);
    NormalizePivot(w, rows, cols, col, cur);
    var s := RefStep(g, rows, cols, col, cur);
    ReduceBelowPivot(nz, rows, cols, col, cur, cur + 1);
    assert s[cur] == nz[cur];
    LeadAt(s[cur], 0, col);
    assert forall r :: 0 <= r < cur ==> s[r] == g[r];
  }

  /** One column of the row echelon loop: either no pivot is found and the grid stays, or
      the pivot round runs; the invariant moves on one column and the rest of the loop
      continues from the new grid. */
  lemma RefRoundOf(g: seq<seq<real>>, rows: nat, cols: nat, col: nat, cur: nat)
    returns (y: seq<seq<real>>, next: nat, found: bool)
    requires Shaped(g, rows, cols) && col < cols && RefInvariant(g, rows, cols, col, cur)
    ensures found ==> PivotSearch(g, rows, cols, col, cur) < rows &&
                      y == RefStep(g, rows, cols, col, cur) && next == cur + 1
    ensures !found ==> y == g && next == cur
    ensures Shaped(y, rows, cols) && RefInvariant(y, rows, cols, col + 1, next)
    ensures RefFrom(y, rows, cols, col + 1, next) == RefFrom(g, rows, cols, col, cur)
  {
    found := PivotSearch(g, rows, cols, col, cur) < rows;
    if found {
      y, next := RefStep(g, rows, cols, col, cur), cur + 1;
      RefStepInvariant(g, rows, cols, col, cur);
      RefFromPivot(g, rows, cols, col, cur, y);
    } else {
      y, next := g, cur;
      RefSkipInvariant(g, rows, cols, col, cur);
    }
  }

  lemma RefFromDone(g: seq<seq<real>>, rows: nat, cols: nat, col: nat, cur: nat)
    requires Shaped(g, rows, cols) && col == cols && cur <= rows
    ensures RefFrom(g, rows, cols, col, cur) == g
  {}

  /** A column without a pivot keeps the invariant, one column further. */
  lemma RefSkipInvariant(g: seq<seq<real>>, rows: nat, cols: nat, col: nat, cur: nat)
    requires Shaped(g, rows, cols) && col < cols && RefInvariant(g, rows, cols, col, cur)
    requires PivotSearch(g, rows, cols, col, cur) == rows
    ensures RefInvariant(g, rows, cols, col + 1, cur)
  {
  }

  lemma {:induction false} RefFromEchelon(g: seq<seq<real>>, rows: nat, cols: nat, col: nat, cur: nat)
    requires Shaped(g, rows, cols) && RefInvariant(g, rows, cols, col, cur)
    ensures IsRowEchelon(RefFrom(g, rows, cols, col, cur), rows, cols)
    decreases cols - col
  {
    if col == cols {
      forall r | cur <= r < rows
        ensures Lead(g[r], 0) == cols
      {
        LeadOfZeros(g[r], 0);
      }
    } else if PivotSearch(g, rows, cols, col, cur) == rows {
      RefSkipInvariant(g, rows, cols, col, cur);
      RefFromEchelon(g, rows, cols, col + 1, cur);
    } else {
      RefStepInvariant(g, rows, cols, col, cur);
      RefFromEchelon(RefStep(g, rows, cols, col, cur), rows, cols, col + 1, cur + 1);
    }
  }

  /** row_echelon_form leaves every matrix in row echelon form (in exact arithmetic). */
  lemma RowEchelonIsEchelon(g: seq<seq<real>>, rows: nat, cols: nat)
    requires Shaped(g, rows, cols)
    ensures IsRowEchelon(RefFrom(g, rows, cols, 0, 0), rows, cols)
  {
    RefFromEchelon(g, rows, cols, 0, 0);
  }

  /** The rows after Vec::swap, or after the equal-rows no-op of row_swap. */
  lemma EntriesOfSwap(v: seq<Vectors.Vector>, a: nat, b: nat)
    requires a < |v| && b < |v|
    ensures Entries(if a == b then v else v[a := v[b]][b := v[a]]) == Swap(Entries(v), a, b)
  {
    var g := Entries(v);
    if a == b {
      assert Swap(g, a, b) == g;
    } else {
      assert Entries(v[a := v[b]][b := v[a]]) == Swap(g, a, b);
    }
  }

  // ---- the reduced row echelon form on row grids -----------------------------------------

  /** The pivot search of reduced_row_echelon_form from row i of column lead: down the
      column, then on to the next column from row r, until a non-zero entry turns up;
      (r, cols) once the columns run out. */
  function SearchFrom(g: seq<seq<real>>, rows: nat, cols: nat, r: nat, i: nat, lead: nat): (p: (nat, nat))
    requires Shaped(g, rows, cols) && r <= i < rows && lead < cols
    ensures lead <= p.1 <= cols
    ensures p.1 < cols ==> r <= p.0 < rows && g[p.0][p.1] != 0.0
    ensures p.1 == cols ==> p.0 == r
    decreases cols - lead, rows - i
  {
    if g[i][lead] != 0.0 then (i, lead)
    else if i + 1 < rows then SearchFrom(g, rows, cols, r, i + 1, lead)
    else if lead + 1 == cols then (r, cols)
    else SearchFrom(g, rows, cols, r, r, lead + 1)
  }

  /** Row r divided, in every column, by its entry in column lead, unless that is zero. */
  function Scaled(g: seq<seq<real>>, rows: nat, cols: nat, r: nat, lead: nat): (s: seq<seq<real>>)
    requires Shaped(g, rows, cols) && r < rows && lead < cols
    ensures Shaped(s, rows, cols)
  {
    var d := g[r][lead];
    if d != 0.0 then g[r := seq(cols, c requires 0 <= c < cols => g[r][c] / d)] else g
  }

  /** Row k combined with the pivot row r, factor being row k's entry in column lead: as
      written the row becomes factor times row r; corrected it loses factor times row r. */
  function CombinedRow(v: Version, g: seq<seq<real>>, rows: nat, cols: nat, r: nat, k: nat, lead: nat): (s: seq<real>)
    requires Shaped(g, rows, cols) && r < rows && k < rows && lead < cols
    ensures |s| == cols
  {
    var factor := g[k][lead];
    if v == AsWritten then seq(cols, c requires 0 <= c < cols => Times(factor, g[r][c]))
    else seq(cols, c requires 0 <= c < cols => g[k][c] - Times(factor, g[r][c]))
  }

  /** The rows from k on, other than r, combined with row r one after the other. */
  function EliminateFrom(v: Version, g: seq<seq<real>>, rows: nat, cols: nat, r: nat, lead: nat, k: nat): (s: seq<seq<real>>)
    requires Shaped(g, rows, cols) && r < rows && lead < cols && k <= rows
    ensures Shaped(s, rows, cols)
    decreases rows - k
  {
    if k == rows then g
    else if k == r then EliminateFrom(v, g, rows, cols, r, lead, k + 1)
    else EliminateFrom(v, g[k := CombinedRow(v, g, rows, cols, r, k, lead)], rows, cols, r, lead, k + 1)
  }

  /** One round of the row loop with its pivot found in row i, column lead: swap it up to
      row r, scale it, and combine every other row with it. */
  function RrefStep(v: Version, g: seq<seq<real>>, rows: nat, cols: nat, r: nat, i: nat, lead: nat): (s: seq<seq<real>>)
    requires Shaped(g, rows, cols) && r <= i < rows && lead < cols
    ensures Shaped(s, rows, cols)
  {
    SwapShaped(g, rows, cols, i, r);
    EliminateFrom(v, Scaled(Swap(g, i, r), rows, cols, r, lead), rows, cols, r, lead, 0)
  }

  /** The row loop of reduced_row_echelon_form from row r, with lead the first column
      still to search. */
  function RrefFrom(v: Version, g: seq<seq<real>>, rows: nat, cols: nat, r: nat, lead: nat): (s: seq<seq<real>>)
    requires Shaped(g, rows, cols) && r <= rows
    ensures Shaped(s, rows, cols)
    decreases rows - r
  {
    if r == rows || lead >= cols then g
    else
      var p := SearchFrom(g, rows, cols, r, r, lead);
      if p.1 == cols then g
      else RrefFrom(v, RrefStep(v, g, rows, cols, r, p.0, p.1), rows, cols, r + 1, p.1 + 1)
  }

  /** reduced_row_echelon_form: the row echelon form, then the row loop. */
  function Rref(v: Version, g: seq<seq<real>>, rows: nat, cols: nat): (s: seq<seq<real>>)
    requires Shaped(g, rows, cols)
    ensures Shaped(s, rows, cols)
  {
    RrefFrom(v, RefFrom(g, rows, cols, 0, 0), rows, cols, 0, 0)
  }

  lemma SwapShaped(g: seq<seq<real>>, rows: nat, cols: nat, a: nat, b: nat)
    requires Shaped(g, rows, cols) && a < rows && b < rows
    ensures Shaped(Swap(g, a, b), rows, cols) && Swap(g, a, b) == Swap(g, b, a)
  {
    var s := Swap(g, a, b);
    forall r | 0 <= r < rows
      ensures |s[r]| == cols
    {
      assert s[r] == g[r] || s[r] == g[a] || s[r] == g[b];
    }
  }

  // ---- what the reduced row echelon form guarantees --------------------------------------

  /** Row echelon form, and each leading one is the only non-zero entry of its column. */
  predicate IsReducedRowEchelon(g: seq<seq<real>>, rows: nat, cols: nat)
    requires Shaped(g, rows, cols)
  {
    IsRowEchelon(g, rows, cols) &&
    forall s, k :: 0 <= s < rows && 0 <= k < rows && k != s && Lead(g[s], 0) < cols ==> g[k][Lead(g[s], 0)] == 0.0
  }

  /** Before the first non-zero entry there are only zeros. */
  lemma {:induction false} LeadBefore(row: seq<real>, c: nat)
    requires c <= |row|
    ensures forall k :: c <= k < Lead(row, c) ==> row[k] == 0.0
    ensures Lead(row, c) < |row| ==> row[Lead(row, c)] != 0.0
    decreases |row| - c
  {
    if c < |row| && row[c] == 0.0 {
      LeadBefore(row, c + 1);
    }
  }

  /** Two rows that agree up to and including the leading entry of the first lead at the
      same column. */
  lemma LeadAgrees(a: seq<real>, b: seq<real>, cols: nat)
    requires |a| == cols && |b| == cols && Lead(a, 0) < cols
    requires forall c :: 0 <= c <= Lead(a, 0) ==> b[c] == a[c]
    ensures Lead(b, 0) == Lead(a, 0)
  {
    LeadBefore(a, 0);
    LeadAt(b, 0, Lead(a, 0));
  }

  /** What holds after rows 0 .. r have been through the row loop, lead being the next
      column to search. */
  predicate RrefInvariant(g: seq<seq<real>>, rows: nat, cols: nat, r: nat, lead: nat)
    requires Shaped(g, rows, cols)
  {
    r <= rows && lead <= cols &&
    (forall s :: 0 <= s < r ==> Lead(g[s], 0) < lead && g[s][Lead(g[s], 0)] == 1.0) &&
    (forall s, t :: 0 <= s < t < r ==> Lead(g[s], 0) < Lead(g[t], 0)) &&
    (forall s, k :: 0 <= s < r && 0 <= k < rows && k != s ==> g[k][Lead(g[s], 0)] == 0.0) &&
    (forall s, c :: r <= s < rows && 0 <= c < lead ==> g[s][c] == 0.0)
  }

  /** The search passes over zeros only. */
  lemma {:induction false} SearchFromZeros(g: seq<seq<real>>, rows: nat, cols: nat, r: nat, i: nat, lead: nat)
    requires Shaped(g, rows, cols) && r <= i < rows && lead < cols
    requires forall s :: r <= s < i ==> g[s][lead] == 0.0
    ensures forall s, c :: r <= s < rows && lead <= c < SearchFrom(g, rows, cols, r, i, lead).1 ==> g[s][c] == 0.0
    decreases cols - lead, rows - i
  {
    if g[i][lead] != 0.0 {
    } else if i + 1 < rows {
      SearchFromZeros(g, rows, cols, r, i + 1, lead);
    } else if lead + 1 == cols {
    } else {
      SearchFromZeros(g, rows, cols, r, r, lead + 1);
    }
  }

  /** Once the columns from lead on are searched in vain, or all rows have pivots, the
      grid is in reduced row echelon form. */
  lemma FinalReduced(g: seq<seq<real>>, rows: nat, cols: nat, r: nat)
    requires Shaped(g, rows, cols) && RrefInvariant(g, rows, cols, r, cols)
    ensures IsReducedRowEchelon(g, rows, cols)
  {
    forall s | r <= s < rows
      ensures Lead(g[s], 0) == cols
    {
      LeadOfZeros(g[s], 0);
    }
  }

  /** Scaling a pivot row whose entries before column l are zero puts a one in column l. */
  lemma ScaledPivot(w: seq<seq<real>>, rows: nat, cols: nat, r: nat, l: nat)
    requires Shaped(w, rows, cols) && r < rows && l < cols && w[r][l] != 0.0
    requires forall c :: 0 <= c < l ==> w[r][c] == 0.0
    ensures forall s :: 0 <= s < rows && s != r ==> Scaled(w, rows, cols, r, l)[s] == w[s]
    ensures forall c :: 0 <= c < l ==> Scaled(w, rows, cols, r, l)[r][c] == 0.0
    ensures Scaled(w, rows, cols, r, l)[r][l] == 1.0
  {
    var d := w[r][l];
    var row := seq(cols, c requires 0 <= c < cols => w[r][c] / d);
    assert Scaled(w, rows, cols, r, l) == w[r := row];
    assert row[l] == d / d;
    DivSelf(d);
    forall c | 0 <= c < l
      ensures row[c] == 0.0
    {
      assert row[c] == 0.0 / d;
    }
  }

  lemma {:induction false} EliminateFromEntries(v: Version, g: seq<seq<real>>, rows: nat, cols: nat, r: nat, lead: nat, k: nat)
    requires Shaped(g, rows, cols) && r < rows && lead < cols && k <= rows
    ensures forall t :: 0 <= t < rows ==>
              EliminateFrom(v, g, rows, cols, r, lead, k)[t] ==
                if k <= t && t != r then CombinedRow(v, g, rows, cols, r, t, lead) else g[t]
    decreases rows - k
  {
    if k < rows && k == r {
      EliminateFromEntries(v, g, rows, cols, r, lead, k + 1);
    } else if k < rows {
      var next := g[k := CombinedRow(v, g, rows, cols, r, k, lead)];
      EliminateFromEntries(v, next, rows, cols, r, lead, k + 1);
      forall t | k + 1 <= t < rows && t != r
        ensures CombinedRow(v, next, rows, cols, r, t, lead) == CombinedRow(v, g, rows, cols, r, t, lead)
      {
        assert next[t] == g[t] && next[r] == g[r];
      }
    }
  }

  /** Corrected, combining a row with a pivot row keeps its entries before the pivot
      column and clears the pivot column. */
  lemma CombinedClears(x: seq<seq<real>>, rows: nat, cols: nat, r: nat, k: nat, l: nat)
    requires Shaped(x, rows, cols) && r < rows && k < rows && l < cols
    requires x[r][l] == 1.0 && forall c :: 0 <= c < l ==> x[r][c] == 0.0
    ensures forall c :: 0 <= c < l ==> CombinedRow(Corrected, x, rows, cols, r, k, l)[c] == x[k][c]
    ensures CombinedRow(Corrected, x, rows, cols, r, k, l)[l] == 0.0
  {
    assert Times(x[k][l], x[r][l]) == x[k][l];
    forall c | 0 <= c < l
      ensures CombinedRow(Corrected, x, rows, cols, r, k, l)[c] == x[k][c]
    {
      assert Times(x[k][l], x[r][c]) == 0.0;
    }
  }

  /** Corrected, the rows after a round: before column l nothing but the pivot row's
      entries moved, and column l holds a single one, in row r. */
  lemma RoundEntries(g: seq<seq<real>>, rows: nat, cols: nat, r: nat, i: nat, l: nat)
    requires Shaped(g, rows, cols) && r <= i < rows && l < cols && g[i][l] != 0.0
    requires forall s, c :: r <= s < rows && 0 <= c < l ==> g[s][c] == 0.0
    ensures var y := RrefStep(Corrected, g, rows, cols, r, i, l);
      (forall s, c :: 0 <= s < r && 0 <= c < l ==> y[s][c] == g[s][c]) &&
      (forall s, c :: r <= s < rows && 0 <= c < l ==> y[s][c] == 0.0) &&
      (forall k :: 0 <= k < rows ==> y[k][l] == if k == r then 1.0 else 0.0)
  {
    SwapShaped(g, rows, cols, i, r);
    var w := Swap(g, i, r);
    SwapPivotUp(g, rows, cols, l, r, i);
    var x := Scaled(w, rows, cols, r, l);
    ScaledPivot(w, rows, cols, r, l);
    EliminateFromEntries(Corrected, x, rows, cols, r, l, 0);
    forall k | 0 <= k < rows && k != r
      ensures forall c :: 0 <= c < l ==> CombinedRow(Corrected, x, rows, cols, r, k, l)[c] == x[k][c]
      ensures CombinedRow(Corrected, x, rows, cols, r, k, l)[l] == 0.0
    {
      CombinedClears(x, rows, cols, r, k, l);
    }
  }

  /** The search starts past columns that are zero from row r down, and passes over
      zeros only. */
  lemma SearchedZeros(g: seq<seq<real>>, rows: nat, cols: nat, r: nat, lead: nat)
    requires Shaped(g, rows, cols) && r < rows && lead < cols
    requires forall s, c :: r <= s < rows && 0 <= c < lead ==> g[s][c] == 0.0
    ensures forall s, c :: r <= s < rows && 0 <= c < SearchFrom(g, rows, cols, r, r, lead).1 ==> g[s][c] == 0.0
  {
    SearchFromZeros(g, rows, cols, r, r, lead);
  }

  /** The invariant one row further, from what a round does to the entries. */
  lemma InvariantAfterRound(g: seq<seq<real>>, y: seq<seq<real>>, rows: nat, cols: nat, r: nat, lead: nat, l: nat)
    requires Shaped(g, rows, cols) && Shaped(y, rows, cols) && RrefInvariant(g, rows, cols, r, lead)
    requires r < rows && lead <= l < cols
    requires forall s, c :: 0 <= s < r && 0 <= c < l ==> y[s][c] == g[s][c]
    requires forall s, c :: r <= s < rows && 0 <= c < l ==> y[s][c] == 0.0
    requires forall k :: 0 <= k < rows ==> y[k][l] == if k == r then 1.0 else 0.0
    ensures RrefInvariant(y, rows, cols, r + 1, l + 1)
  {
    forall s | 0 <= s < r
      ensures Lead(y[s], 0) == Lead(g[s], 0)
    {
      LeadAgrees(g[s], y[s], cols);
    }
    LeadAt(y[r], 0, l);
    forall s, k | 0 <= s < r && 0 <= k < rows && k != s
      ensures y[k][Lead(y[s], 0)] == 0.0
    {
      var c := Lead(g[s], 0);
      if k < r {
        assert y[k][c] == g[k][c];
      }
    }
  }

  /** A round of the corrected row loop keeps the invariant, one row further. */
  lemma RrefStepInvariant(g: seq<seq<real>>, rows: nat, cols: nat, r: nat, lead: nat,
                          i: nat, l: nat, y: seq<seq<real>>)
    requires Shaped(g, rows, cols) && RrefInvariant(g, rows, cols, r, lead) && r < rows && lead < cols
    requires (i, l) == SearchFrom(g, rows, cols, r, r, lead) && l < cols
    requires y == RrefStep(Corrected, g, rows, cols, r, i, l)
    ensures RrefInvariant(y, rows, cols, r + 1, l + 1)
  {
    SearchedZeros(g, rows, cols, r, lead);
    RoundEntries(g, rows, cols, r, i, l);
    InvariantAfterRound(g, y, rows, cols, r, lead, l);
  }

  /** A search in vain leaves the rows from r down zero. */
  lemma SearchFailed(g: seq<seq<real>>, rows: nat, cols: nat, r: nat, lead: nat)
    requires Shaped(g, rows, cols) && RrefInvariant(g, rows, cols, r, lead) && r < rows && lead < cols
    requires SearchFrom(g, rows, cols, r, r, lead).1 == cols
    ensures RrefInvariant(g, rows, cols, r, cols)
  {
    SearchedZeros(g, rows, cols, r, lead);
  }

  /** Where the row loop stops, what it leaves is in reduced row echelon form. */
  lemma RrefStops(g: seq<seq<real>>, rows: nat, cols: nat, r: nat, lead: nat)
    requires Shaped(g, rows, cols) && RrefInvariant(g, rows, cols, r, lead)
    requires r == rows || lead >= cols || SearchFrom(g, rows, cols, r, r, lead).1 == cols
    ensures RrefFrom(Corrected, g, rows, cols, r, lead) == g
    ensures IsReducedRowEchelon(g, rows, cols)
  {
    if r == rows || lead >= cols {
      assert RrefInvariant(g, rows, cols, r, cols);
    } else {
      SearchFailed(g, rows, cols, r, lead);
    }
    FinalReduced(g, rows, cols, r);
  }

  lemma {:induction false} RrefFromReduced(g: seq<seq<real>>, rows: nat, cols: nat, r: nat, lead: nat,
                                           out: seq<seq<real>>)
    requires Shaped(g, rows, cols) && RrefInvariant(g, rows, cols, r, lead)
    requires out == RrefFrom(Corrected, g, rows, cols, r, lead)
    ensures Shaped(out, rows, cols) && IsReducedRowEchelon(out, rows, cols)
    decreases rows - r, 1
  {
    if r == rows || lead >= cols || SearchFrom(g, rows, cols, r, r, lead).1 == cols {
      RrefStops(g, rows, cols, r, lead);
    } else {
      var p := SearchFrom(g, rows, cols, r, r, lead);
      var y := RrefStep(Corrected, g, rows, cols, r, p.0, p.1);
      RrefStepInvariant(g, rows, cols, r, lead, p.0, p.1, y);
      RrefFromPivot(Corrected, g, rows, cols, r, lead, p.0, p.1, y);
      RrefFromReducedRound(y, rows, cols, r, p.1, out);
    }
  }

  /** The induction step of RrefFromReduced, where the round gives y and moves lead to l. */
  lemma {:induction false} RrefFromReducedRound(y: seq<seq<real>>, rows: nat, cols: nat, r: nat, l: nat,
                                                out: seq<seq<real>>)
    requires Shaped(y, rows, cols) && r < rows && l < cols
    requires RrefInvariant(y, rows, cols, r + 1, l + 1)
    requires out == RrefFrom(Corrected, y, rows, cols, r + 1, l + 1)
    ensures Shaped(out, rows, cols) && IsReducedRowEchelon(out, rows, cols)
    decreases rows - r, 0
  {
    RrefFromReduced(y, rows, cols, r + 1, l + 1, out);
  }

  /** Corrected, reduced_row_echelon_form leaves every matrix in reduced row echelon form
      (in exact arithmetic). */
  lemma RrefIsReduced(g: seq<seq<real>>, rows: nat, cols: nat)
    requires Shaped(g, rows, cols)
    ensures IsReducedRowEchelon(Rref(Corrected, g, rows, cols), rows, cols)
  {
    RrefFromReduced(RefFrom(g, rows, cols, 0, 0), rows, cols, 0, 0, Rref(Corrected, g, rows, cols));
  }

  // ---- a reduced grid is left as it is -----------------------------------------------------

  /** In row echelon form a row below row r is zero up to and including r's leading
      column. */
  lemma EchelonBelow(g: seq<seq<real>>, rows: nat, cols: nat, r: nat, s: nat)
    requires Shaped(g, rows, cols) && IsRowEchelon(g, rows, cols) && r < s < rows
    ensures Lead(g[s], 0) == cols || Lead(g[r], 0) < Lead(g[s], 0)
    ensures Lead(g[r], 0) == cols ==> Lead(g[s], 0) == cols
    ensures forall c :: 0 <= c < cols && c <= Lead(g[r], 0) ==> g[s][c] == 0.0
  {
    LeadBefore(g[s], 0);
  }

  lemma {:induction false} ReduceFromKeeps(g: seq<seq<real>>, rows: nat, cols: nat, cur: nat, col: nat, row: nat)
    requires Shaped(g, rows, cols) && cur < row <= rows && col < cols
    requires forall s :: row <= s < rows ==> g[s][col] == 0.0
    ensures ReduceFrom(g, rows, cols, cur, col, row) == g
    decreases rows - row
  {
    if row < rows {
      var red := ReducedRow(g, rows, cols, cur, row, col);
      forall c | 0 <= c < cols
        ensures red[c] == g[row][c]
      {
        assert Times(g[row][col], g[cur][c]) == 0.0;
      }
      assert red == g[row];
      assert g[row := red] == g;
      ReduceFromKeeps(g, rows, cols, cur, col, row + 1);
    }
  }

  /** A pivot step at a one with zeros below it changes nothing. */
  lemma RefStepKeeps(g: seq<seq<real>>, rows: nat, cols: nat, col: nat, cur: nat)
    requires Shaped(g, rows, cols) && col < cols && cur < rows
    requires g[cur][col] == 1.0 && forall s :: cur < s < rows ==> g[s][col] == 0.0
    ensures PivotSearch(g, rows, cols, col, cur) == cur
    ensures RefStep(g, rows, cols, col, cur) == g
  {
    assert Swap(g, cur, cur) == g;
    var n := Normalized(g, rows, cols, cur, col);
    assert n[cur] == g[cur];
    assert n == g;
    ReduceFromKeeps(g, rows, cols, cur, col, cur + 1);
  }

  /** The column loop of row_echelon_form on a grid in row echelon form whose first cur
      rows lead before column col, and the others from col on, changes nothing. */
  lemma {:induction false} RefFromKeeps(g: seq<seq<real>>, rows: nat, cols: nat, col: nat, cur: nat)
    requires Shaped(g, rows, cols) && IsRowEchelon(g, rows, cols) && col <= cols && cur <= rows
    requires forall s :: 0 <= s < cur ==> Lead(g[s], 0) < col
    requires forall s :: cur <= s < rows ==> col <= Lead(g[s], 0)
    ensures RefFrom(g, rows, cols, col, cur) == g
    decreases cols - col
  {
    if col < cols {
      var next := RefColumnKeeps(g, rows, cols, col, cur);
      RefFromKeeps(g, rows, cols, col + 1, next);
    }
  }

  /** One round of that column loop: the grid stays, and the rows leading at col join the
      first ones. */
  lemma RefColumnKeeps(g: seq<seq<real>>, rows: nat, cols: nat, col: nat, cur: nat) returns (next: nat)
    requires Shaped(g, rows, cols) && IsRowEchelon(g, rows, cols) && col < cols && cur <= rows
    requires forall s :: 0 <= s < cur ==> Lead(g[s], 0) < col
    requires forall s :: cur <= s < rows ==> col <= Lead(g[s], 0)
    ensures next <= rows && RefFrom(g, rows, cols, col, cur) == RefFrom(g, rows, cols, col + 1, next)
    ensures forall s :: 0 <= s < next ==> Lead(g[s], 0) < col + 1
    ensures forall s :: next <= s < rows ==> col + 1 <= Lead(g[s], 0)
  {
    LeadsPastColumn(g, rows, cols, col, cur);
    if cur < rows && Lead(g[cur], 0) == col {
      RefStepKeeps(g, rows, cols, col, cur);
      next := cur + 1;
    } else {
      assert PivotSearch(g, rows, cols, col, cur) == rows;
      next := cur;
    }
  }

  /** The rows below the cur-th lead past column col, and are zero in it, and so is the
      cur-th row unless it leads there. */
  lemma LeadsPastColumn(g: seq<seq<real>>, rows: nat, cols: nat, col: nat, cur: nat)
    requires Shaped(g, rows, cols) && IsRowEchelon(g, rows, cols) && col < cols && cur <= rows
    requires forall s :: cur <= s < rows ==> col <= Lead(g[s], 0)
    ensures forall s :: cur < s < rows ==> g[s][col] == 0.0 && col + 1 <= Lead(g[s], 0)
    ensures cur < rows && Lead(g[cur], 0) != col ==> g[cur][col] == 0.0 && col + 1 <= Lead(g[cur], 0)
    ensures cur < rows && Lead(g[cur], 0) == col ==> g[cur][col] == 1.0
  {
    forall s | cur < s < rows
      ensures g[s][col] == 0.0 && col + 1 <= Lead(g[s], 0)
    {
      EchelonBelow(g, rows, cols, cur, s);
      LeadBefore(g[s], 0);
    }
    if cur < rows {
      LeadBefore(g[cur], 0);
    }
  }

  lemma ScaledKeeps(g: seq<seq<real>>, rows: nat, cols: nat, r: nat, l: nat)
    requires Shaped(g, rows, cols) && r < rows && l < cols && g[r][l] == 1.0
    ensures Scaled(g, rows, cols, r, l) == g
  {
    var row := seq(cols, c requires 0 <= c < cols => g[r][c] / 1.0);
    assert row == g[r];
    assert g[r := row] == g;
  }

  /** Combining the other rows with a pivot row changes nothing where they are zero in its
      column. */
  lemma EliminateKeeps(g: seq<seq<real>>, rows: nat, cols: nat, r: nat, l: nat)
    requires Shaped(g, rows, cols) && r < rows && l < cols
    requires forall k :: 0 <= k < rows && k != r ==> g[k][l] == 0.0
    ensures EliminateFrom(Corrected, g, rows, cols, r, l, 0) == g
  {
    EliminateFromEntries(Corrected, g, rows, cols, r, l, 0);
    var y := EliminateFrom(Corrected, g, rows, cols, r, l, 0);
    forall t | 0 <= t < rows && t != r
      ensures y[t] == g[t]
    {
      var row := CombinedRow(Corrected, g, rows, cols, r, t, l);
      forall c | 0 <= c < cols
        ensures row[c] == g[t][c]
      {
        assert Times(g[t][l], g[r][c]) == 0.0;
      }
    }
  }

  /** On a grid in row echelon form whose rows from r on lead from column lead on, the
      search of the row loop stops at row r's leading entry. */
  lemma SearchFindsLead(g: seq<seq<real>>, rows: nat, cols: nat, r: nat, lead: nat)
    requires Shaped(g, rows, cols) && IsRowEchelon(g, rows, cols) && r < rows && lead < cols
    requires forall s :: r <= s < rows ==> lead <= Lead(g[s], 0)
    ensures SearchFrom(g, rows, cols, r, r, lead) == (r, Lead(g[r], 0))
  {
    var p := SearchFrom(g, rows, cols, r, r, lead);
    var l := Lead(g[r], 0);
    SearchFromZeros(g, rows, cols, r, r, lead);
    LeadBefore(g[r], 0);
    if p.1 < cols {
      LeadBefore(g[p.0], 0);
      if r < p.0 {
        EchelonBelow(g, rows, cols, r, p.0);
      }
    }
  }

  /** The row loop over a grid in reduced row echelon form whose rows from r on lead from
      column lead on changes nothing. */
  lemma {:induction false} RrefFromKeeps(g: seq<seq<real>>, rows: nat, cols: nat, r: nat, lead: nat)
    requires Shaped(g, rows, cols) && IsReducedRowEchelon(g, rows, cols) && r <= rows
    requires forall s :: r <= s < rows ==> lead <= Lead(g[s], 0)
    ensures RrefFrom(Corrected, g, rows, cols, r, lead) == g
    decreases rows - r
  {
    if r < rows && lead < cols {
      SearchFindsLead(g, rows, cols, r, lead);
      var l := Lead(g[r], 0);
      if l < cols {
        assert Swap(g, r, r) == g;
        ScaledKeeps(g, rows, cols, r, l);
        EliminateKeeps(g, rows, cols, r, l);
        assert RrefStep(Corrected, g, rows, cols, r, r, l) == g;
        forall s | r + 1 <= s < rows
          ensures l + 1 <= Lead(g[s], 0)
        {
          EchelonBelow(g, rows, cols, r, s);
        }
        RrefFromKeeps(g, rows, cols, r + 1, l + 1);
      }
    }
  }

  /** Corrected, reduced_row_echelon_form leaves a grid already in reduced row echelon form
      as it is. */
  lemma RrefOfReduced(g: seq<seq<real>>, rows: nat, cols: nat)
    requires Shaped(g, rows, cols) && IsReducedRowEchelon(g, rows, cols)
    ensures Rref(Corrected, g, rows, cols) == g
  {
    RefFromKeeps(g, rows, cols, 0, 0);
    RrefFromKeeps(g, rows, cols, 0, 0);
  }

  /** Corrected, reduced_row_echelon_form is idempotent. */
  lemma RrefIdempotent(g: seq<seq<real>>, rows: nat, cols: nat)
    requires Shaped(g, rows, cols)
    ensures Rref(Corrected, Rref(Corrected, g, rows, cols), rows, cols) == Rref(Corrected, g, rows, cols)
  {
    RrefIsReduced(g, rows, cols);
    RrefOfReduced(Rref(Corrected, g, rows, cols), rows, cols);
  }

  // ---- the row loop as written -------------------------------------------------------------

  /** On a grid in row echelon form the search from the top left stops at the leading
      entry of the first row (at (0, cols) when that row is zero), and every other row is
      zero up to that column. */
  lemma FirstSearch(e: seq<seq<real>>, rows: nat, cols: nat)
    requires Shaped(e, rows, cols) && IsRowEchelon(e, rows, cols) && 0 < rows && 0 < cols
    ensures SearchFrom(e, rows, cols, 0, 0, 0) == (0, Lead(e[0], 0))
    ensures forall s, c :: 1 <= s < rows && 0 <= c < cols && c <= Lead(e[0], 0) ==> e[s][c] == 0.0
  {
    var l0 := Lead(e[0], 0);
    LeadBefore(e[0], 0);
    forall s, c | 1 <= s < rows && 0 <= c < cols && c <= l0
      ensures e[s][c] == 0.0
    {
      LeadBefore(e[s], 0);
    }
    SearchFromZeros(e, rows, cols, 0, 0, 0);
    var p := SearchFrom(e, rows, cols, 0, 0, 0);
    assert l0 < cols ==> e[0][l0] != 0.0;
    assert p.1 < cols ==> e[p.0][p.1] != 0.0;
  }

  /** A grid whose rows from r down are zero is left as it is by the row loop. */
  lemma ZeroRowsStop(v: Version, y: seq<seq<real>>, rows: nat, cols: nat, r: nat, lead: nat)
    requires Shaped(y, rows, cols) && r <= rows
    requires forall s, c :: r <= s < rows && 0 <= c < cols ==> y[s][c] == 0.0
    ensures RrefFrom(v, y, rows, cols, r, lead) == y
  {
    if r < rows && lead < cols {
      var p := SearchFrom(y, rows, cols, r, r, lead);
      if p.1 < cols {
        assert false;
      }
    }
  }

  /** As written, the first round on a grid in row echelon form, whose first leading
      entry is in column l0: the first row stays, every other becomes zero. */
  lemma FirstRoundAsWritten(e: seq<seq<real>>, rows: nat, cols: nat, l0: nat)
    requires Shaped(e, rows, cols) && 0 < rows && l0 < cols && e[0][l0] == 1.0
    requires forall s, c :: 1 <= s < rows && 0 <= c < cols && c <= l0 ==> e[s][c] == 0.0
    ensures RrefStep(AsWritten, e, rows, cols, 0, 0, l0)[0] == e[0]
    ensures forall k, c :: 1 <= k < rows && 0 <= c < cols ==> RrefStep(AsWritten, e, rows, cols, 0, 0, l0)[k][c] == 0.0
  {
    assert Swap(e, 0, 0) == e;
    var x := Scaled(e, rows, cols, 0, l0);
    assert x[0] == e[0] by {
      forall c | 0 <= c < cols
        ensures x[0][c] == e[0][c]
      {
        assert x[0][c] == e[0][c] / 1.0;
      }
    }
    EliminateFromEntries(AsWritten, x, rows, cols, 0, l0, 0);
    forall k, c | 1 <= k < rows && 0 <= c < cols
      ensures CombinedRow(AsWritten, x, rows, cols, 0, k, l0)[c] == 0.0
    {
      assert x[k] == e[k];
      assert Times(0.0, x[0][c]) == 0.0;
    }
  }

  /** As written, the row loop on a grid in row echelon form keeps the first row and
      clears all the others. */
  lemma RrefFromAsWritten(e: seq<seq<real>>, rows: nat, cols: nat)
    requires Shaped(e, rows, cols) && IsRowEchelon(e, rows, cols) && 0 < rows
    ensures RrefFrom(AsWritten, e, rows, cols, 0, 0)[0] == e[0]
    ensures forall k, c :: 1 <= k < rows && 0 <= c < cols ==> RrefFrom(AsWritten, e, rows, cols, 0, 0)[k][c] == 0.0
  {
    if cols > 0 {
      var l0 := Lead(e[0], 0);
      FirstSearch(e, rows, cols);
      if l0 < cols {
        var y := RrefStep(AsWritten, e, rows, cols, 0, 0, l0);
        FirstRoundAsWritten(e, rows, cols, l0);
        ZeroRowsStop(AsWritten, y, rows, cols, 1, l0 + 1);
        assert RrefFrom(AsWritten, e, rows, cols, 0, 0) == RrefFrom(AsWritten, y, rows, cols, 1, l0 + 1);
      }
    }
  }

  /** As written, reduced_row_echelon_form keeps the first row of the row echelon form
      and turns every other row into zeros: `factor * val[r][j]` with factor zero. */
  lemma RrefAsWrittenKeepsOneRow(g: seq<seq<real>>, rows: nat, cols: nat)
    requires Shaped(g, rows, cols) && 0 < rows
    ensures Rref(AsWritten, g, rows, cols)[0] == RefFrom(g, rows, cols, 0, 0)[0]
    ensures forall k, c :: 1 <= k < rows && 0 <= c < cols ==> Rref(AsWritten, g, rows, cols)[k][c] == 0.0
  {
    RowEchelonIsEchelon(g, rows, cols);
    RrefFromAsWritten(RefFrom(g, rows, cols, 0, 0), rows, cols);
  }

  // ---- the 2 by 2 identity -------------------------------------------------------------

  function Identity2(): (g: seq<seq<real>>)
    ensures Shaped(g, 2, 2)
  {
    [[1.0, 0.0], [0.0, 1.0]]
  }

  /** The row echelon form of the identity is the identity. */
  lemma RefOfIdentity2()
    ensures RefFrom(Identity2(), 2, 2, 0, 0) == Identity2()
  {
    var g := Identity2();
    assert PivotSearch(g, 2, 2, 0, 0) == 0;
    assert Swap(g, 0, 0) == g;
    assert Normalized(g, 2, 2, 0, 0)[0] == g[0] by {
      var row := Normalized(g, 2, 2, 0, 0)[0];
      assert row[0] == 1.0 / 1.0 && row[1] == 0.0 / 1.0;
    }
    assert Normalized(g, 2, 2, 0, 0) == g;
    assert ReducedRow(g, 2, 2, 0, 1, 0) == g[1];
    assert ReduceFrom(g, 2, 2, 0, 0, 1) == g;
    assert RefStep(g, 2, 2, 0, 0) == g;
    assert PivotSearch(g, 2, 2, 1, 1) == 1;
    assert Swap(g, 1, 1) == g;
    assert Normalized(g, 2, 2, 1, 1)[1] == g[1] by {
      var row := Normalized(g, 2, 2, 1, 1)[1];
      assert row[0] == 0.0 && row[1] == 1.0 / 1.0;
    }
    assert Normalized(g, 2, 2, 1, 1) == g;
    assert RefStep(g, 2, 2, 1, 1) == g;
  }

  lemma FirstRoundOfIdentity2()
    ensures RrefStep(Corrected, Identity2(), 2, 2, 0, 0, 0) == Identity2()
  {
    var g := Identity2();
    assert Swap(g, 0, 0) == g;
    assert Scaled(g, 2, 2, 0, 0)[0] == g[0] by {
      var row := Scaled(g, 2, 2, 0, 0)[0];
      assert row[0] == 1.0 / 1.0 && row[1] == 0.0 / 1.0;
    }
    assert Scaled(g, 2, 2, 0, 0) == g;
    assert CombinedRow(Corrected, g, 2, 2, 0, 1, 0) == g[1];
    assert g[1 := g[1]] == g;
  }

  lemma SecondRoundOfIdentity2()
    ensures RrefStep(Corrected, Identity2(), 2, 2, 1, 1, 1) == Identity2()
  {
    var g := Identity2();
    assert Swap(g, 1, 1) == g;
    assert Scaled(g, 2, 2, 1, 1)[1] == g[1] by {
      var row := Scaled(g, 2, 2, 1, 1)[1];
      assert row[0] == 0.0 / 1.0 && row[1] == 1.0 / 1.0;
    }
    assert Scaled(g, 2, 2, 1, 1) == g;
    assert CombinedRow(Corrected, g, 2, 2, 1, 0, 1) == g[0];
    assert g[0 := g[0]] == g;
  }

  /** Corrected, the identity is its own reduced row echelon form ... */
  lemma RrefOfIdentity2()
    ensures Rref(Corrected, Identity2(), 2, 2) == Identity2()
  {
    var g := Identity2();
    RefOfIdentity2();
    assert SearchFrom(g, 2, 2, 0, 0, 0) == (0, 0);
    FirstRoundOfIdentity2();
    assert SearchFrom(g, 2, 2, 1, 1, 1) == (1, 1);
    SecondRoundOfIdentity2();
  }

  /** ... and as written it loses its second row. */
  lemma RrefAsWrittenOnIdentity2()
    ensures Rref(AsWritten, Identity2(), 2, 2) == [[1.0, 0.0], [0.0, 0.0]]
  {
    RefOfIdentity2();
    RrefAsWrittenKeepsOneRow(Identity2(), 2, 2);
    var h := Rref(AsWritten, Identity2(), 2, 2);
    assert h[1][0] == 0.0 && h[1][1] == 0.0;
    assert h[1] == [0.0, 0.0];
  }


  /** The row loop one round further where the search finds a pivot. */
  lemma RrefFromPivot(v: Version, g: seq<seq<real>>, rows: nat, cols: nat, r: nat, lead: nat,
                      i: nat, l: nat, y: seq<seq<real>>)
    requires Shaped(g, rows, cols) && r < rows && lead < cols
    requires (i, l) == SearchFrom(g, rows, cols, r, r, lead) && l < cols
    requires y == RrefStep(v, g, rows, cols, r, i, l)
    ensures RrefFrom(v, y, rows, cols, r + 1, l + 1) == RrefFrom(v, g, rows, cols, r, lead)
  {
  }

  /** One round of the row loop, with the pivot it finds and the grid it leaves. */
  lemma RrefRoundOf(v: Version, g: seq<seq<real>>, rows: nat, cols: nat, r: nat, lead: nat)
    returns (y: seq<seq<real>>, i: nat, l: nat)
    requires Shaped(g, rows, cols) && r < rows && lead < cols
    ensures l < cols ==> r <= i < rows && y == RrefStep(v, g, rows, cols, r, i, l)
    ensures l >= cols ==> y == g
    ensures Shaped(y, rows, cols)
    ensures RrefFrom(v, y, rows, cols, r + 1, l + 1) == RrefFrom(v, g, rows, cols, r, lead)
  {
    var p := SearchFrom(g, rows, cols, r, r, lead);
    i, l := p.0, p.1;
    y := if l < cols then RrefStep(v, g, rows, cols, r, i, l) else g;
    RrefFromRound(v, g, rows, cols, r, lead, i, l, y);
  }

  /** Once the rows or the columns are used up, the reduction leaves the grid alone. */
  lemma RrefFromDone(v: Version, g: seq<seq<real>>, rows: nat, cols: nat, r: nat, lead: nat)
    requires Shaped(g, rows, cols) && r <= rows && (r == rows || lead >= cols)
    ensures RrefFrom(v, g, rows, cols, r, lead) == g
  {
  }

  /** The row loop where the search finds no pivot: the grid stays as it is. */
  lemma RrefFromNoPivot(v: Version, g: seq<seq<real>>, rows: nat, cols: nat, r: nat, lead: nat)
    requires Shaped(g, rows, cols) && r < rows && lead < cols && SearchFrom(g, rows, cols, r, r, lead).1 == cols
    ensures RrefFrom(v, g, rows, cols, r, lead) == g == RrefFrom(v, g, rows, cols, r + 1, cols + 1)
  {
  }

  /** One round of the row loop, with or without a pivot. */
  lemma RrefFromRound(v: Version, g: seq<seq<real>>, rows: nat, cols: nat, r: nat, lead: nat,
                      i: nat, l: nat, y: seq<seq<real>>)
    requires Shaped(g, rows, cols) && r < rows && lead < cols
    requires (i, l) == SearchFrom(g, rows, cols, r, r, lead)
    requires l < cols ==> y == RrefStep(v, g, rows, cols, r, i, l)
    requires l >= cols ==> y == g
    ensures RrefFrom(v, y, rows, cols, r + 1, l + 1) == RrefFrom(v, g, rows, cols, r, lead)
  {
    if l < cols {
      RrefFromPivot(v, g, rows, cols, r, lead, i, l, y);
    } else {
      RrefFromNoPivot(v, g, rows, cols, r, lead);
    }
  }

  // ---- the matrix object -----------------------------------------------------------------

  class MatrixCell {
    var val: seq<Vectors.Vector>
    var m: nat
    var n: nat

    constructor (A: Matrix)
      ensures Value() == A
    {
      val, m, n := A.val, A.m, A.n;
    }

    function Value(): Matrix
      reads this
    {
      Matrix(val, m, n)
    }

    predicate Valid()
      reads this
    {
      Value().Valid()
    }

    /** set_val. Empty new data first resizes to 0 by 0 and then panics reading its first
        row. A first row of dimension zero also resizes to 0 by 0, so nothing is checked.
        Otherwise the first (old) m rows must have the old column count, or nothing
        changes; then the rows are taken over, with the first row's dimension as n. */
    method SetVal(newData: seq<Vectors.Vector>) returns (r: Result<()>)
      modifies this
      ensures |newData| == 0 ==> r == Err(Panic("index out of bounds")) && val == [] && m == 0 && n == 0
      ensures |newData| > 0 && newData[0].d == 0 ==>
                r == Ok(()) && val == newData && m == |newData| && n == 0
      ensures |newData| > 0 && newData[0].d != 0 ==>
                (r.Ok? <==> forall i :: 0 <= i < |newData| && i < old(m) ==> newData[i].d == old(n))
      ensures |newData| > 0 && newData[0].d != 0 && r.Err? ==>
                r == Err(DimensionMismatch) && val == old(val) && m == old(m) && n == old(n)
      ensures |newData| > 0 && newData[0].d != 0 && r.Ok? ==>
                val == newData && m == |newData| && n == newData[0].d
    {
      if |newData| == 0 || newData[0].d == 0 {
        val, m, n := [], 0, 0;
      }
      var i := 0;
      while i < |newData| && i < m
        invariant 0 <= i <= |newData|
        invariant forall k :: 0 <= k < i && k < m ==> newData[k].d == n
      {
        if newData[i].d != n {
          return Err(DimensionMismatch);
        }
        i := i + 1;
      }
      if |newData| == 0 {
        return Err(Panic("index out of bounds"));
      }
      m, n, val := |newData|, newData[0].d, newData;
      r := Ok(());
    }

    /** row_swap; Err when it would panic. */
    method RowSwap(a: nat, b: nat) returns (r: Result<()>)
      requires Valid()
      modifies this
      ensures RowSwapped(old(Value()), a, b).Ok? ==> r.Ok? && Value() == RowSwapped(old(Value()), a, b).value
      ensures RowSwapped(old(Value()), a, b).Err? ==> r == Err(Panic("index out of bounds")) && Value() == old(Value())
    {
      if a == b || a >= m || b >= m {
        return Ok(());
      }
      if |val| == 0 {
        return Err(Panic("index out of bounds"));
      }
      val := val[a := val[b]][b := val[a]];
      r := Ok(());
    }

    /** row_add: the loop over the columns of the target row. */
    method RowAdd(orig: nat, fac: real, target: nat)
      requires Valid()
      modifies this
      ensures Value() == RowAdded(old(Value()), orig, fac, target)
    {
      if fac == 0.0 || orig >= m || target >= m {
        return;
      }
      ghost var A := Value();
      for j := 0 to n
        invariant m == A.m && n == A.n && |val| == |A.val|
        invariant n > 0 ==> forall i :: 0 <= i < m ==> val[i].d == n && |val[i].val| == n
        invariant forall i :: 0 <= i < |val| && i != target ==> val[i] == A.val[i]
        invariant n > 0 ==> forall k :: 0 <= k < n ==>
                    val[target].val[k] == if k < j then At(A, target, k) + At(A, orig, k) * fac else At(A, target, k)
      {
        var x := val[target].val[j] + val[orig].val[j] * fac;
        val := val[target := Vectors.Vector(val[target].val[j := x], n)];
      }
      if n > 0 {
        ghost var R := RowAdded(A, orig, fac, target);
        assert R.val[target].val == seq(A.n, k requires 0 <= k < A.n => At(A, target, k) + At(A, orig, k) * fac);
        assert |val[target].val| == n;
        forall k | 0 <= k < n
          ensures val[target].val[k] == R.val[target].val[k]
        {
        }
        assert val[target].val == R.val[target].val;
        assert val[target] == R.val[target];
        assert val == R.val;
      }
    }

    /** row_echelon_form: for each column, search for a pivot from the current row down,
        swap it up, normalise it and clear the column below it. */
    method RowEchelonForm()
      requires Valid()
      modifies this
      ensures Valid() && m == old(m) && n == old(n) && |val| == |old(val)|
      ensures Entries(val) == RefFrom(old(Entries(val)), |old(val)|, old(n), 0, 0)
    {
      ghost var start := Entries(val);
      var rows := m;
      var cols := n;
      var currentRow: nat := 0;
      for currentCol := 0 to cols
        invariant Valid() && m == rows && n == cols && |val| == |start|
        invariant Shaped(Entries(val), |val|, cols) && currentRow <= |val|
        invariant RefFrom(Entries(val), |val|, cols, currentCol, currentRow) == RefFrom(start, |start|, cols, 0, 0)
      {
        currentRow := ColumnRound(currentCol, currentRow);
      }
    }

    /** One round of the column loop of row_echelon_form: the pivot search down column
        col from row cur, and the pivot step when it succeeds; the answer is the next
        value of the current row. */
    method ColumnRound(col: nat, cur: nat) returns (next: nat)
      requires Valid() && col < n && cur <= m
      modifies this
      ensures Valid() && m == old(m) && n == old(n) && |val| == |old(val)| && next <= m
      ensures RefFrom(Entries(val), |val|, n, col + 1, next) == RefFrom(old(Entries(val)), |old(val)|, n, col, cur)
    {
      ghost var g := Entries(val);
      var pivotRow := SearchPivotRow(col, cur);
      if pivotRow < m {
        PivotStep(col, cur, pivotRow);
        RefFromPivot(g, m, n, col, cur, Entries(val));
        next := cur + 1;
      } else {
        next := cur;
      }
    }

    /** The pivot search of row_echelon_form: down column col from row cur to the first
        non-zero entry, or to m. */
    method SearchPivotRow(col: nat, cur: nat) returns (pivotRow: nat)
      requires Valid() && col < n && cur <= m
      ensures pivotRow == PivotSearch(Entries(val), m, n, col, cur)
    {
      ghost var g := Entries(val);
      pivotRow := cur;
      while pivotRow < m && val[pivotRow].val[col] == 0.0
        invariant cur <= pivotRow <= m
        invariant PivotSearch(g, m, n, col, pivotRow) == PivotSearch(g, m, n, col, cur)
        decreases m - pivotRow
      {
        pivotRow := pivotRow + 1;
      }
    }

    /** The pivot step of row_echelon_form: the swap, the normalisation and the
        elimination below. */
    method PivotStep(col: nat, cur: nat, pivotRow: nat)
      requires Valid() && col < n && cur <= m && pivotRow == PivotSearch(Entries(val), m, n, col, cur) < m
      modifies this
      ensures Valid() && m == old(m) && n == old(n) && |val| == |old(val)|
      ensures Entries(val) == RefStep(old(Entries(val)), |old(val)|, n, col, cur)
    {
      ghost var v := val;
      var _ := RowSwap(cur, pivotRow);
      EntriesOfSwap(v, cur, pivotRow);
      NormalizeRow(cur, col);
      ReduceBelow(cur, col);
    }

    /** The normalisation loop of row_echelon_form: the pivot value is read once. */
    method NormalizeRow(r: nat, col: nat)
      requires Valid() && r < m && col < n && val[r].val[col] != 0.0
      modifies this
      ensures Valid() && m == old(m) && n == old(n) && |val| == |old(val)|
      ensures Entries(val) == Normalized(old(Entries(val)), |old(val)|, n, r, col)
    {
      ghost var before := Entries(val);
      var pivotValue := val[r].val[col];
      for c := col to n
        invariant m == old(m) && n == old(n) && |val| == |before|
        invariant forall i :: 0 <= i < |val| && i != r ==> val[i] == old(val)[i]
        invariant val[r].d == n && |val[r].val| == n
        invariant forall k :: 0 <= k < n ==>
                    val[r].val[k] == if col <= k < c then before[r][k] / pivotValue else before[r][k]
      {
        val := val[r := Vectors.Vector(val[r].val[c := val[r].val[c] / pivotValue], n)];
      }
      assert Entries(val)[r] == Normalized(before, |before|, n, r, col)[r];
      assert Entries(val) == Normalized(before, |before|, n, r, col);
    }

    /** The elimination loop of row_echelon_form below pivot row cur. */
    method ReduceBelow(cur: nat, col: nat)
      requires Valid() && cur < m && col < n
      modifies this
      ensures Valid() && m == old(m) && n == old(n) && |val| == |old(val)|
      ensures Entries(val) == ReduceFrom(old(Entries(val)), |old(val)|, n, cur, col, cur + 1)
    {
      ghost var start := Entries(val);
      for row := cur + 1 to m
        invariant Valid() && m == old(m) && n == old(n) && |val| == |start|
        invariant Shaped(Entries(val), m, n)
        invariant ReduceFrom(Entries(val), m, n, cur, col, row) == ReduceFrom(start, m, n, cur, col, cur + 1)
      {
        ReduceRow(cur, row, col);
      }
    }

    /** Row `row` less its entry in column col (read once) times row cur, from column col on. */
    method ReduceRow(cur: nat, row: nat, col: nat)
      requires Valid() && cur < m && row < m && row != cur && col < n
      modifies this
      ensures Valid() && m == old(m) && n == old(n) && |val| == |old(val)|
      ensures Entries(val) == old(Entries(val))[row := ReducedRow(old(Entries(val)), m, n, cur, row, col)]
    {
      ghost var before := Entries(val);
      var multiplier := val[row].val[col];
      for c := col to n
        invariant Valid() && m == old(m) && n == old(n) && |val| == |before|
        invariant forall i :: 0 <= i < |val| && i != row ==> val[i] == old(val)[i]
        invariant forall k :: 0 <= k < n ==>
                    val[row].val[k] == if col <= k < c then before[row][k] - Times(multiplier, before[cur][k]) else before[row][k]
      {
        val := val[row := Vectors.Vector(val[row].val[c := val[row].val[c] - multiplier * val[cur].val[c]], n)];
      }
      assert Entries(val)[row] == ReducedRow(before, m, n, cur, row, col);
      assert Entries(val) == before[row := ReducedRow(before, m, n, cur, row, col)];
    }

    /** reduced_row_echelon_form: the row echelon form, then for each row r, while
        columns remain, the pivot search from column lead, the swap of the pivot row up
        to r, its scaling, and the combination of every other row with it; lead then
        moves past the pivot column. v selects the combination, as written or corrected. */
    method ReducedRowEchelonForm(v: Version)
      requires Valid()
      modifies this
      ensures Valid() && m == old(m) && n == old(n) && |val| == |old(val)|
      ensures Entries(val) == Rref(v, old(Entries(val)), |old(val)|, old(n))
    {
      RowEchelonForm();
      ghost var start := Entries(val);
      var rows := m;
      var cols := n;
      var lead := 0;
      for r := 0 to rows
        invariant Valid() && m == rows && n == cols && |val| == |start|
        invariant Shaped(Entries(val), |val|, cols) && r <= |val| && (cols == 0 ==> r == 0)
        invariant RrefFrom(v, Entries(val), |val|, cols, r, lead) == RrefFrom(v, start, |start|, cols, 0, 0)
      {
        if lead >= cols {
          break;
        }
        lead := RowRound(v, r, lead);
      }
    }

    /** One round of the row loop of reduced_row_echelon_form: the pivot search, and the
        pivot round when it succeeds; the answer is the next value of lead. */
    method RowRound(v: Version, r: nat, lead0: nat) returns (lead: nat)
      requires Valid() && r < m && lead0 < n
      modifies this
      ensures Valid() && m == old(m) && n == old(n) && |val| == |old(val)|
      ensures RrefFrom(v, Entries(val), |val|, n, r + 1, lead) == RrefFrom(v, old(Entries(val)), |old(val)|, n, r, lead0)
    {
      ghost var g := Entries(val);
      assert |val| == m && Shaped(g, m, n);
      var i;
      i, lead := FindPivot(r, lead0);
      if lead < n {
        PivotRound(v, r, i, lead);
      }
      RrefFromRound(v, g, m, n, r, lead0, i, lead, Entries(val));
      lead := lead + 1;
    }

    /** The pivot search of reduced_row_echelon_form: down column lead from row r, then
        on through the next columns, until a non-zero entry turns up; (r, n) if none. */
    method FindPivot(r: nat, lead0: nat) returns (i: nat, lead: nat)
      requires Valid() && r < m && lead0 < n
      ensures (i, lead) == SearchFrom(Entries(val), |val|, n, r, r, lead0)
    {
      ghost var target := SearchFrom(Entries(val), |val|, n, r, r, lead0);
      i, lead := r, lead0;
      while val[i].val[lead] == 0.0
        invariant r <= i < m && lead < n
        invariant SearchFrom(Entries(val), |val|, n, r, i, lead) == target
        decreases n - lead, m - i
      {
        i := i + 1;
        if i == m {
          i := r;
          lead := lead + 1;
          if lead == n {
            assert target == (r, n);
            break;
          }
        }
      }
    }

    /** One round of the row loop with the pivot in row i, column lead. */
    method PivotRound(v: Version, r: nat, i: nat, lead: nat)
      requires Valid() && r <= i < m && lead < n
      modifies this
      ensures Valid() && m == old(m) && n == old(n) && |val| == |old(val)|
      ensures Entries(val) == RrefStep(v, old(Entries(val)), |old(val)|, n, r, i, lead)
    {
      ghost var before := val;
      var _ := RowSwap(i, r);
      EntriesOfSwap(before, i, r);
      ScaleRow(r, lead);
      EliminateAll(v, r, lead);
    }

    /** The division loop of reduced_row_echelon_form: row r divided by its entry in
        column lead, read once, unless that entry is zero. */
    method ScaleRow(r: nat, lead: nat)
      requires Valid() && r < m && lead < n
      modifies this
      ensures Valid() && m == old(m) && n == old(n) && |val| == |old(val)|
      ensures Entries(val) == Scaled(old(Entries(val)), |old(val)|, n, r, lead)
    {
      ghost var before := Entries(val);
      var divisor := val[r].val[lead];
      if divisor != 0.0 {
        for j := 0 to n
          invariant m == old(m) && n == old(n) && |val| == |before|
          invariant forall i :: 0 <= i < |val| && i != r ==> val[i] == old(val)[i]
          invariant val[r].d == n && |val[r].val| == n
          invariant forall k :: 0 <= k < n ==> val[r].val[k] == if k < j then before[r][k] / divisor else before[r][k]
        {
          val := val[r := Vectors.Vector(val[r].val[j := val[r].val[j] / divisor], n)];
        }
        assert Entries(val)[r] == Scaled(before, |before|, n, r, lead)[r];
        assert Entries(val) == Scaled(before, |before|, n, r, lead);
      }
    }

    /** The elimination loop of reduced_row_echelon_form: every row but r combined with
        row r. */
    method EliminateAll(v: Version, r: nat, lead: nat)
      requires Valid() && r < m && lead < n
      modifies this
      ensures Valid() && m == old(m) && n == old(n) && |val| == |old(val)|
      ensures Entries(val) == EliminateFrom(v, old(Entries(val)), |old(val)|, n, r, lead, 0)
    {
      ghost var start := Entries(val);
      for k := 0 to m
        invariant Valid() && m == old(m) && n == old(n) && |val| == |start|
        invariant Shaped(Entries(val), m, n)
        invariant EliminateFrom(v, Entries(val), m, n, r, lead, k) == EliminateFrom(v, start, m, n, r, lead, 0)
      {
        if k != r {
          CombineRow(v, r, k, lead);
        }
      }
    }

    /** Row k combined with row r, factor being row k's entry in column lead, read once:
        as written `val[k][j] = factor * val[r][j]`, corrected `-=`. */
    method CombineRow(v: Version, r: nat, k: nat, lead: nat)
      requires Valid() && r < m && k < m && k != r && lead < n
      modifies this
      ensures Valid() && m == old(m) && n == old(n) && |val| == |old(val)|
      ensures Entries(val) == old(Entries(val))[k := CombinedRow(v, old(Entries(val)), m, n, r, k, lead)]
    {
      ghost var before := Entries(val);
      var factor := val[k].val[lead];
      for j := 0 to n
        invariant Valid() && m == old(m) && n == old(n) && |val| == |before|
        invariant forall i :: 0 <= i < |val| && i != k ==> val[i] == old(val)[i]
        invariant forall c :: 0 <= c < n ==>
                    val[k].val[c] == if c < j then (if v == AsWritten then Times(factor, before[r][c])
                                                    else before[k][c] - Times(factor, before[r][c]))
                                     else before[k][c]
      {
        var x := if v == AsWritten then factor * val[r].val[j] else val[k].val[j] - factor * val[r].val[j];
        val := val[k := Vectors.Vector(val[k].val[j := x], n)];
      }
      assert Entries(val)[k] == CombinedRow(v, before, m, n, r, k, lead);
      assert Entries(val) == before[k := CombinedRow(v, before, m, n, r, k, lead)];
    }
  }
}
