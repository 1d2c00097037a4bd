/** Matrices of math_types.rs: m rows, each a Vector of dimension n. Matrix::new stores
    no rows at all when either dimension is zero, and every operation that builds a
    new matrix starts from Matrix::new, so that shape is the invariant. */
module Matrices {
  import opened Wrappers
  import Vectors

  datatype Matrix = Matrix(val: seq<Vectors.Vector>, m: nat, n: nat) {
    predicate Valid() {
      if m == 0 || n == 0 then val == []
      else |val| == m && forall i :: 0 <= i < m ==> val[i].Valid() && val[i].d == n
    }
  }

  /** A product kept as one term, so that equal factors give equal products without
      appeal to nonlinear arithmetic. */
  function Times(a: real, b: real): real {
    a * b
  }

  lemma TimesAssociative(a: real, b: real, c: real)
    ensures Times(Times(a, b), c) == Times(a, Times(b, c))
  {
    assert (a * b) * c == a * (b * c);
  }

  /** The entry in row i, column j (the source's `val[i][j]`). */
  function At(A: Matrix, i: nat, j: nat): real
    requires A.Valid() && i < A.m && j < A.n
  {
    A.val[i].val[j]
  }

  /** The matrix of shape m by n whose rows are `rows`. */
  function FromRows(m: nat, n: nat, rows: seq<seq<real>>): (r: Matrix)
    requires |rows| == m && forall i :: 0 <= i < m ==> |rows[i]| == n
    ensures r.Valid() && r.m == m && r.n == n
    ensures forall i, j :: 0 <= i < m && 0 <= j < n ==> At(r, i, j) == rows[i][j]
  {
    if m == 0 || n == 0 then Matrix([], m, n)
    else Matrix(seq(m, i requires 0 <= i < m => Vectors.Vector(rows[i], n)), m, n)
  }

  /** The contents of a two-dimensional array, row by row. */
  function Grid(a: array2<real>): (g: seq<seq<real>>)
    reads a
    ensures |g| == a.Length0
    ensures forall i :: 0 <= i < a.Length0 ==> |g[i]| == a.Length1
    ensures forall i, j :: 0 <= i < a.Length0 && 0 <= j < a.Length1 ==> g[i][j] == a[i, j]
  {
    seq(a.Length0, i requires 0 <= i < a.Length0 reads a =>
      seq(a.Length1, j requires 0 <= j < a.Length1 reads a => a[i, j]))
  }

  /** Two matrices of the same shape with the same entries are the same value. */
  lemma SameEntries(A: Matrix, B: Matrix)
    requires A.Valid() && B.Valid() && A.m == B.m && A.n == B.n
    requires forall i, j :: 0 <= i < A.m && 0 <= j < A.n ==> At(A, i, j) == At(B, i, j)
    ensures A == B
  {
    if A.m > 0 && A.n > 0 {
      forall i | 0 <= i < A.m
        ensures A.val[i] == B.val[i]
      {
        assert forall j :: 0 <= j < A.n ==> A.val[i].val[j] == At(A, i, j);
        assert A.val[i].val == B.val[i].val;
      }
      assert A.val == B.val;
    }
  }

  /** Matrix::new: an m by n matrix of zeros. */
  function NewMatrix(m: nat, n: nat): (r: Matrix)
    ensures r.Valid() && r.m == m && r.n == n
    ensures forall i, j :: 0 <= i < m && 0 <= j < n ==> At(r, i, j) == 0.0
  {
    FromRows(m, n, seq(m, _ => seq(n, _ => 0.0)))
  }

  function ErrorMatrix(): (r: Matrix)
    ensures r.Valid() && r.m == 0 && r.n == 0
  {
    Matrix([], 0, 0)
  }

  /** The d by d identity. */
  function Identity(d: nat): (r: Matrix)
    ensures r.Valid() && r.m == d && r.n == d
    ensures forall i, j :: 0 <= i < d && 0 <= j < d ==> At(r, i, j) == if i == j then 1.0 else 0.0
  {
    FromRows(d, d, seq(d, i => seq(d, j => if i == j then 1.0 else 0.0)))
  }

  /** identity_matrix: starts from Matrix::new(d, d) and sets the diagonal to one. */
  method IdentityMatrix(d: nat) returns (r: Matrix)
    ensures r == Identity(d)
  {
    var res := new real[d, d]((_, _) => 0.0);
    for i := 0 to d
      invariant forall a, b :: 0 <= a < d && 0 <= b < d ==>
                  res[a, b] == if a == b && a < i then 1.0 else 0.0
    {
      res[i, i] := 1.0;
    }
    r := FromRows(d, d, Grid(res));
    SameEntries(r, Identity(d));
  }

  // ---- element-wise sum and difference ----------------------------------------------

  function Sum(A: Matrix, B: Matrix): Result<Matrix>
    requires A.Valid() && B.Valid()
  {
    if A.m == B.m && A.n == B.n then
      Ok(FromRows(A.m, A.n, seq(A.m, i requires 0 <= i < A.m =>
           seq(A.n, j requires 0 <= j < A.n => At(A, i, j) + At(B, i, j)))))
    else Err(DimensionMismatch)
  }

  function Difference(A: Matrix, B: Matrix): Result<Matrix>
    requires A.Valid() && B.Valid()
  {
    if A.m == B.m && A.n == B.n then
      Ok(FromRows(A.m, A.n, seq(A.m, i requires 0 <= i < A.m =>
           seq(A.n, j requires 0 <= j < A.n => At(A, i, j) - At(B, i, j)))))
    else Err(DimensionMismatch)
  }

  /** add: shapes must agree; the entries of a fresh Matrix::new are set to the sums. */
  method Add(A: Matrix, B: Matrix) returns (r: Result<Matrix>)
    requires A.Valid() && B.Valid()
    ensures r == Sum(A, B)
  {
    if !(A.m == B.m && A.n == B.n) {
      return Err(DimensionMismatch);
    }
    var res := new real[A.m, A.n]((_, _) => 0.0);
    for i := 0 to A.m
      invariant forall a, b :: 0 <= a < i && 0 <= b < A.n ==> res[a, b] == At(A, a, b) + At(B, a, b)
    {
      for j := 0 to A.n
        invariant forall a, b :: 0 <= a < i && 0 <= b < A.n ==> res[a, b] == At(A, a, b) + At(B, a, b)
        invariant forall b :: 0 <= b < j ==> res[i, b] == At(A, i, b) + At(B, i, b)
      {
        res[i, j] := At(A, i, j) + At(B, i, j);
      }
    }
    var C := FromRows(A.m, A.n, Grid(res));
    SameEntries(C, Sum(A, B).value);
    r := Ok(C);
  }

  /** sub: shapes must agree; the entries of a fresh Matrix::new are set to the differences. */
  method Sub(A: Matrix, B: Matrix) returns (r: Result<Matrix>)
    requires A.Valid() && B.Valid()
    ensures r == Difference(A, B)
  {
    if !(A.m == B.m && A.n == B.n) {
      return Err(DimensionMismatch);
    }
    var res := new real[A.m, A.n]((_, _) => 0.0);
    for i := 0 to A.m
      invariant forall a, b :: 0 <= a < i && 0 <= b < A.n ==> res[a, b] == At(A, a, b) - At(B, a, b)
    {
      for j := 0 to A.n
        invariant forall a, b :: 0 <= a < i && 0 <= b < A.n ==> res[a, b] == At(A, a, b) - At(B, a, b)
        invariant forall b :: 0 <= b < j ==> res[i, b] == At(A, i, b) - At(B, i, b)
      {
        res[i, j] := At(A, i, j) - At(B, i, j);
      }
    }
    var C := FromRows(A.m, A.n, Grid(res));
    SameEntries(C, Difference(A, B).value);
    r := Ok(C);
  }

  lemma SumCommutes(A: Matrix, B: Matrix)
    requires A.Valid() && B.Valid()
    ensures Sum(A, B) == Sum(B, A)
  {
    if A.m == B.m && A.n == B.n {
      SameEntries(Sum(A, B).value, Sum(B, A).value);
    }
  }

  /** Subtracting B undoes adding it. */
  lemma DifferenceUndoesSum(A: Matrix, B: Matrix)
    requires A.Valid() && B.Valid() && A.m == B.m && A.n == B.n
    ensures Sum(A, B).Ok? && Difference(Sum(A, B).value, B) == Ok(A)
  {
    var S := Sum(A, B).value;
    SameEntries(Difference(S, B).value, A);
  }

  // ---- product -------------------------------------------------------------------------

  /** The sum of the first k terms of row i of A times column j of B. */
  function ProductEntry(A: Matrix, B: Matrix, i: nat, j: nat, k: nat): real
    requires A.Valid() && B.Valid() && A.n == B.m && i < A.m && j < B.n && k <= A.n
  {
    if k == 0 then 0.0 else ProductEntry(A, B, i, j, k - 1) + At(A, i, k - 1) * At(B, k - 1, j)
  }

  /** The matrix product; both operands must be non-empty and the inner dimensions agree. */
  function Product(A: Matrix, B: Matrix): Result<Matrix>
    requires A.Valid() && B.Valid()
  {
    if A.n != B.m || A.m == 0 || A.n == 0 || B.m == 0 || B.n == 0 then Err(EmptyOrMismatched)
    else Ok(FromRows(A.m, B.n, seq(A.m, i requires 0 <= i < A.m =>
              seq(B.n, j requires 0 <= j < B.n => ProductEntry(A, B, i, j, A.n)))))
  }

  /** mul: each entry starts at zero and accumulates the n products of row and column. */
  method Mul(A: Matrix, B: Matrix) returns (r: Result<Matrix>)
    requires A.Valid() && B.Valid()
    ensures r == Product(A, B)
  {
    if A.n != B.m || A.m == 0 || A.n == 0 || B.m == 0 || B.n == 0 {
      return Err(EmptyOrMismatched);
    }
    var res := new real[A.m, B.n]((_, _) => 0.0);
    for i := 0 to A.m
      invariant forall a, b :: 0 <= a < i && 0 <= b < B.n ==> res[a, b] == ProductEntry(A, B, a, b, A.n)
    {
      for j := 0 to B.n
        invariant forall a, b :: 0 <= a < i && 0 <= b < B.n ==> res[a, b] == ProductEntry(A, B, a, b, A.n)
        invariant forall b :: 0 <= b < j ==> res[i, b] == ProductEntry(A, B, i, b, A.n)
      {
        res[i, j] := 0.0;
        for k := 0 to B.m
          invariant forall a, b :: 0 <= a < i && 0 <= b < B.n ==> res[a, b] == ProductEntry(A, B, a, b, A.n)
          invariant forall b :: 0 <= b < j ==> res[i, b] == ProductEntry(A, B, i, b, A.n)
          invariant res[i, j] == ProductEntry(A, B, i, j, k)
        {
          res[i, j] := res[i, j] + At(A, i, k) * At(B, k, j);
        }
      }
    }
    var C := FromRows(A.m, B.n, Grid(res));
    SameEntries(C, Product(A, B).value);
    r := Ok(C);
  }

  lemma {:induction false} IdentityLeftEntry(A: Matrix, i: nat, j: nat, k: nat)
    requires A.Valid() && i < A.m && j < A.n && k <= A.m
    ensures ProductEntry(Identity(A.m), A, i, j, k) == if i < k then At(A, i, j) else 0.0
  {
    if k > 0 {
      IdentityLeftEntry(A, i, j, k - 1);
    }
  }

  lemma {:induction false} IdentityRightEntry(A: Matrix, i: nat, j: nat, k: nat)
    requires A.Valid() && i < A.m && j < A.n && k <= A.n
    ensures ProductEntry(A, Identity(A.n), i, j, k) == if j < k then At(A, i, j) else 0.0
  {
    if k > 0 {
      IdentityRightEntry(A, i, j, k - 1);
    }
  }

  /** The identity is a two-sided unit of the product. */
  lemma IdentityIsUnit(A: Matrix)
    requires A.Valid() && A.m > 0 && A.n > 0
    ensures Product(Identity(A.m), A) == Ok(A)
    ensures Product(A, Identity(A.n)) == Ok(A)
  {
    forall i, j | 0 <= i < A.m && 0 <= j < A.n
      ensures ProductEntry(Identity(A.m), A, i, j, A.m) == At(A, i, j)
      ensures ProductEntry(A, Identity(A.n), i, j, A.n) == At(A, i, j)
    {
      IdentityLeftEntry(A, i, j, A.m);
      IdentityRightEntry(A, i, j, A.n);
    }
    SameEntries(Product(Identity(A.m), A).value, A);
    SameEntries(Product(A, Identity(A.n)).value, A);
  }

  // ---- transpose -----------------------------------------------------------------------

  function Transposed(A: Matrix): (r: Matrix)
    requires A.Valid()
    ensures r.Valid() && r.m == A.n && r.n == A.m
    ensures forall i, j :: 0 <= i < A.n && 0 <= j < A.m ==> At(r, i, j) == At(A, j, i)
  {
    FromRows(A.n, A.m, seq(A.n, i requires 0 <= i < A.n =>
      seq(A.m, j requires 0 <= j < A.m => At(A, j, i))))
  }

  /** transpose: a fresh n by m matrix receives entry (i, j) at (j, i). */
  method Transpose(A: Matrix) returns (r: Matrix)
    requires A.Valid()
    ensures r == Transposed(A)
  {
    var res := new real[A.n, A.m]((_, _) => 0.0);
    for i := 0 to A.m
      invariant forall a, b :: 0 <= a < i && 0 <= b < A.n ==> res[b, a] == At(A, a, b)
    {
      for j := 0 to A.n
        invariant forall a, b :: 0 <= a < i && 0 <= b < A.n ==> res[b, a] == At(A, a, b)
        invariant forall b :: 0 <= b < j ==> res[b, i] == At(A, i, b)
      {
        res[j, i] := At(A, i, j);
      }
    }
    r := FromRows(A.n, A.m, Grid(res));
    SameEntries(r, Transposed(A));
  }

  lemma TransposeInvolution(A: Matrix)
    requires A.Valid()
    ensures Transposed(Transposed(A)) == A
  {
    SameEntries(Transposed(Transposed(A)), A);
  }

  lemma {:induction false} TransposedProductEntry(A: Matrix, B: Matrix, i: nat, j: nat, k: nat)
    requires A.Valid() && B.Valid() && A.n == B.m && i < A.m && j < B.n && k <= A.n
    ensures ProductEntry(Transposed(B), Transposed(A), j, i, k) == ProductEntry(A, B, i, j, k)
  {
    if k > 0 {
      TransposedProductEntry(A, B, i, j, k - 1);
      assert At(B, k - 1, j) * At(A, i, k - 1) == At(A, i, k - 1) * At(B, k - 1, j);
    }
  }

  /** The transpose of a product is the product of the transposes in reverse order. */
  lemma TransposeOfProduct(A: Matrix, B: Matrix)
    requires A.Valid() && B.Valid() && Product(A, B).Ok?
    ensures Product(Transposed(B), Transposed(A)) == Ok(Transposed(Product(A, B).value))
  {
    var P := Product(A, B).value;
    var Q := Product(Transposed(B), Transposed(A)).value;
    forall i, j | 0 <= i < B.n && 0 <= j < A.m
      ensures At(Q, i, j) == At(Transposed(P), i, j)
    {
      TransposedProductEntry(A, B, j, i, A.n);
    }
    SameEntries(Q, Transposed(P));
  }

  // ---- augment -------------------------------------------------------------------------

  /** Entry (i, j) of A beside B: column j of A, or column j - A.n of B. */
  function AugmentedEntry(A: Matrix, B: Matrix, i: nat, j: nat): real
    requires A.Valid() && B.Valid() && A.m == B.m && i < A.m && j < A.n + B.n
  {
    if j < A.n then At(A, i, j) else At(B, i, j - A.n)
  }

  /** The columns of A followed by the columns of B; the row counts must agree. */
  function Augmented(A: Matrix, B: Matrix): (r: Result<Matrix>)
    requires A.Valid() && B.Valid()
    ensures r.Ok? <==> A.m == B.m
  {
    if A.m != B.m then Err(NotAugmentable)
    else Ok(FromRows(A.m, A.n + B.n, seq(A.m, i requires 0 <= i < A.m =>
           seq(A.n + B.n, j requires 0 <= j < A.n + B.n => AugmentedEntry(A, B, i, j)))))
  }

  /** augment, with the second block copied into columns n1 .. n1 + n2. */
  method Augment(A: Matrix, B: Matrix) returns (r: Result<Matrix>)
    requires A.Valid() && B.Valid()
    ensures r == Augmented(A, B)
  {
    if A.m != B.m {
      return Err(NotAugmentable);
    }
    var cols := A.n + B.n;
    var res := new real[A.m, cols]((_, _) => 0.0);
    for i := 0 to A.m
      invariant forall a, b :: 0 <= a < i && 0 <= b < cols ==> res[a, b] == AugmentedEntry(A, B, a, b)
    {
      for j := 0 to A.n
        invariant forall a, b :: 0 <= a < A.m && 0 <= b < cols && (a < i || (a == i && b < j)) ==>
                    res[a, b] == AugmentedEntry(A, B, a, b)
      {
        res[i, j] := At(A, i, j);
      }
      for j := A.n to cols
        invariant forall a, b :: 0 <= a < A.m && 0 <= b < cols && (a < i || (a == i && b < j)) ==>
                    res[a, b] == AugmentedEntry(A, B, a, b)
      {
        res[i, j] := At(B, i, j - A.n);
      }
    }
    var C := FromRows(A.m, cols, Grid(res));
    SameEntries(C, Augmented(A, B).value);
    r := Ok(C);
  }

  /** Entry (i, j) of augment as written: the second block reaches only the columns
      n1 .. n2, and every other column past n1 stays zero. */
  function WrittenEntry(A: Matrix, B: Matrix, i: nat, j: nat): real
    requires A.Valid() && B.Valid() && A.m == B.m && i < A.m && j < A.n + B.n
  {
    if j < A.n then At(A, i, j)
    else if j < B.n then At(B, i, j - A.n)
    else 0.0
  }

  /** The matrix augment as written copies the second block only for the column indices
      n1 .. n2 (empty unless n2 > n1), so most of it stays zero. */
  function AugmentedAsWritten(A: Matrix, B: Matrix): Result<Matrix>
    requires A.Valid() && B.Valid()
  {
    if A.m != B.m then Err(NotAugmentable)
    else Ok(FromRows(A.m, A.n + B.n, seq(A.m, i requires 0 <= i < A.m =>
           seq(A.n + B.n, j requires 0 <= j < A.n + B.n => WrittenEntry(A, B, i, j)))))
  }

  /** augment as the source writes it: the second loop runs over `cols1..cols2`. */
  method AugmentAsWritten(A: Matrix, B: Matrix) returns (r: Result<Matrix>)
    requires A.Valid() && B.Valid()
    ensures r == AugmentedAsWritten(A, B)
  {
    if A.m != B.m {
      return Err(NotAugmentable);
    }
    var cols := A.n + B.n;
    var res := new real[A.m, cols]((_, _) => 0.0);
    for i := 0 to A.m
      invariant forall a, b :: 0 <= a < A.m && 0 <= b < cols ==>
                  res[a, b] == if a < i then WrittenEntry(A, B, a, b) else 0.0
    {
      for j := 0 to A.n
        invariant forall a, b :: 0 <= a < A.m && 0 <= b < cols ==>
                    res[a, b] == if a < i || (a == i && b < j) then WrittenEntry(A, B, a, b) else 0.0
      {
        res[i, j] := At(A, i, j);
      }
      var j := A.n;
      while j < B.n
        invariant A.n <= j <= if B.n > A.n then B.n else A.n
        invariant forall a, b :: 0 <= a < A.m && 0 <= b < cols ==>
                    res[a, b] == if a < i || (a == i && b < j) then WrittenEntry(A, B, a, b) else 0.0
      {
        res[i, j] := At(B, i, j - A.n);
        j := j + 1;
      }
      assert forall b :: j <= b < cols ==> WrittenEntry(A, B, i, b) == 0.0;
    }
    var C := FromRows(A.m, cols, Grid(res));
    SameEntries(C, AugmentedAsWritten(A, B).value);
    r := Ok(C);
  }

  /** Augmenting [[1]] with [[2]] as written gives [[1, 0]] instead of [[1, 2]]. */
  lemma AugmentAsWrittenDropsColumns()
    ensures AugmentedAsWritten(FromRows(1, 1, [[1.0]]), FromRows(1, 1, [[2.0]]))
            == Ok(FromRows(1, 2, [[1.0, 0.0]]))
    ensures Augmented(FromRows(1, 1, [[1.0]]), FromRows(1, 1, [[2.0]]))
            == Ok(FromRows(1, 2, [[1.0, 2.0]]))
  {
    var A := FromRows(1, 1, [[1.0]]);
    var B := FromRows(1, 1, [[2.0]]);
    SameEntries(AugmentedAsWritten(A, B).value, FromRows(1, 2, [[1.0, 0.0]]));
    SameEntries(Augmented(A, B).value, FromRows(1, 2, [[1.0, 2.0]]));
  }

  // ---- extract -------------------------------------------------------------------------

  /** The number of indices in the half-open range lo .. hi (Range::len). */
  function RangeLen(lo: nat, hi: nat): nat {
    if hi > lo then hi - lo else 0
  }

  /** Reading any entry of a non-empty block outside the matrix panics. */
  predicate BlockInside(A: Matrix, r0: nat, r1: nat, c0: nat, c1: nat) {
    RangeLen(r0, r1) == 0 || RangeLen(c0, c1) == 0 || (r1 <= A.m && c1 <= A.n)
  }

  /** The block of rows r0 .. r1 and columns c0 .. c1, re-indexed from zero. */
  function Extracted(A: Matrix, r0: nat, r1: nat, c0: nat, c1: nat): (r: Result<Matrix>)
    requires A.Valid()
    ensures r.Ok? <==> BlockInside(A, r0, r1, c0, c1)
    ensures r.Ok? ==> r.value.m == RangeLen(r0, r1) && r.value.n == RangeLen(c0, c1)
  {
    var rl, cl := RangeLen(r0, r1), RangeLen(c0, c1);
    if !BlockInside(A, r0, r1, c0, c1) then Err(Panic("index out of bounds"))
    else Ok(FromRows(rl, cl, seq(rl, i requires 0 <= i < rl =>
           seq(cl, j requires 0 <= j < cl => At(A, r0 + i, c0 + j)))))
  }

  /** extract, with the entry (i, j) of the block written at (i - r0, j - c0). */
  method Extract(A: Matrix, r0: nat, r1: nat, c0: nat, c1: nat) returns (r: Result<Matrix>)
    requires A.Valid()
    ensures r == Extracted(A, r0, r1, c0, c1)
  {
    if !BlockInside(A, r0, r1, c0, c1) {
      return Err(Panic("index out of bounds"));
    }
    var rl, cl := RangeLen(r0, r1), RangeLen(c0, c1);
    var res := new real[rl, cl]((_, _) => 0.0);
    for i := 0 to rl
      invariant forall a, b :: 0 <= a < i && 0 <= b < cl ==> res[a, b] == At(A, r0 + a, c0 + b)
    {
      for j := 0 to cl
        invariant forall a, b :: 0 <= a < i && 0 <= b < cl ==> res[a, b] == At(A, r0 + a, c0 + b)
        invariant forall b :: 0 <= b < j ==> res[i, b] == At(A, r0 + i, c0 + b)
      {
        res[i, j] := At(A, r0 + i, c0 + j);
      }
    }
    var C := FromRows(rl, cl, Grid(res));
    SameEntries(C, Extracted(A, r0, r1, c0, c1).value);
    r := Ok(C);
  }

  /** extract as the source writes it: the write position (ip, jp) moves one step down the
      diagonal per entry read, so every block other than a single entry (or an empty one)
      walks off the result and panics. */
  method ExtractAsWritten(A: Matrix, r0: nat, r1: nat, c0: nat, c1: nat) returns (r: Result<Matrix>)
    requires A.Valid()
    ensures r.Ok? <==> (BlockInside(A, r0, r1, c0, c1) &&
                        (RangeLen(r0, r1) == 0 || RangeLen(c0, c1) == 0
                         || (RangeLen(r0, r1) == 1 && RangeLen(c0, c1) == 1)))
    ensures r.Ok? ==> r == Extracted(A, r0, r1, c0, c1)
  {
    if !BlockInside(A, r0, r1, c0, c1) {
      return Err(Panic("index out of bounds"));
    }
    var rl, cl := RangeLen(r0, r1), RangeLen(c0, c1);
    var res := new real[rl, cl]((_, _) => 0.0);
    var p := 0;  // ip and jp, which always move together
    var i := r0;
    while i < r1
      invariant r0 <= i && (rl > 0 ==> i <= r1)
      invariant cl > 0 ==> i <= r0 + 1
      invariant i == r0 ==> p == 0
      invariant i > r0 ==> p == cl && p <= rl
      invariant forall a, b :: 0 <= a < rl && 0 <= b < cl ==>
                  res[a, b] == if a == b && a < p then At(A, r0, c0 + a) else 0.0
    {
      var j := c0;
      while j < c1
        invariant c0 <= j && (j == c0 || j <= c1)
        invariant i == r0 ==> p == j - c0 && p <= rl
        invariant i > r0 ==> j == c0 && p == cl
        invariant forall a, b :: 0 <= a < rl && 0 <= b < cl ==>
                    res[a, b] == if a == b && a < p then At(A, r0, c0 + a) else 0.0
      {
        if p >= rl || p >= cl {
          return Err(Panic("index out of bounds"));
        }
        res[p, p] := At(A, i, j);
        p := p + 1;
        j := j + 1;
      }
      i := i + 1;
    }
    var C := FromRows(rl, cl, Grid(res));
    SameEntries(C, Extracted(A, r0, r1, c0, c1).value);
    r := Ok(C);
  }

  /** Extracting the two blocks of an augmented matrix gives back its parts. */
  lemma ExtractUndoesAugment(A: Matrix, B: Matrix)
    requires A.Valid() && B.Valid() && A.m == B.m
    ensures Augmented(A, B).Ok?
    ensures Extracted(Augmented(A, B).value, 0, A.m, 0, A.n) == Ok(A)
    ensures Extracted(Augmented(A, B).value, 0, A.m, A.n, A.n + B.n) == Ok(B)
  {
    var C := Augmented(A, B).value;
    SameEntries(Extracted(C, 0, A.m, 0, A.n).value, A);
    SameEntries(Extracted(C, 0, A.m, A.n, A.n + B.n).value, B);
  }

  // ---- invert --------------------------------------------------------------------------

  /** invert's own steps, on the corrected augment and extract: non-square matrices have
      none; otherwise [I | A] is built and split again, and the left block is returned when
      the right block equals I. No row reduction takes place in between. */
  function Invert(A: Matrix): (r: Option<Matrix>)
    requires A.Valid()
    ensures A.m != A.n ==> r == None
    ensures r.Some? ==> r.value.Valid() && r.value.m == A.m && r.value.n == A.m
  {
    if A.m != A.n then None
    else
      var id := Identity(A.m);
      var aug := Augmented(id, A).value;
      var left := Extracted(aug, 0, A.m, 0, A.m).value;
      var right := Extracted(aug, 0, A.m, A.m, A.m * 2).value;
      if right != id then None else Some(left)
  }

  /** The only matrices invert's own steps accept, on the corrected augment and extract,
      are the identities, and what they return is then a left inverse. */
  lemma InvertAcceptsOnlyIdentity(A: Matrix)
    requires A.Valid()
    ensures Invert(A).Some? <==> A.m == A.n && A == Identity(A.m)
    ensures Invert(A).Some? && A.m > 0 ==> Product(Invert(A).value, A) == Ok(Identity(A.m))
  {
    if A.m == A.n {
      ExtractUndoesAugment(Identity(A.m), A);
      assert A.m * 2 == A.m + A.m;
      if A == Identity(A.m) && A.m > 0 {
        IdentityIsUnit(A);
      }
    }
  }

  /** [[2]] is invertible, yet Invert finds no inverse for it. */
  lemma InvertMissesInverse()
    ensures Invert(FromRows(1, 1, [[2.0]])) == None
    ensures Product(FromRows(1, 1, [[0.5]]), FromRows(1, 1, [[2.0]])) == Ok(Identity(1))
  {
    var A := FromRows(1, 1, [[2.0]]);
    InvertAcceptsOnlyIdentity(A);
    assert At(A, 0, 0) != At(Identity(1), 0, 0);
    var P := Product(FromRows(1, 1, [[0.5]]), A).value;
    assert At(P, 0, 0) == 1.0;
    SameEntries(P, Identity(1));
  }

  /** invert as written, on the as-written augment and extract: the
      0 by 0 matrix is its own inverse, a 1 by 1 matrix has none, and anything larger
      panics in extract. */
  method InvertAsWritten(A: Matrix) returns (r: Result<Option<Matrix>>)
    requires A.Valid()
    ensures A.m != A.n ==> r == Ok(None)
    ensures A.m == A.n == 0 ==> r == Ok(Some(A))
    ensures A.m == A.n == 1 ==> r == Ok(None)
    ensures A.m == A.n && A.m >= 2 ==> r.Err?
  {
    if A.m != A.n {
      return Ok(None);
    }
    var id := IdentityMatrix(A.m);
    var aug := AugmentAsWritten(id, A);
    var a := aug.value;
    var left := ExtractAsWritten(a, 0, A.m, 0, A.m);
    if left.Err? {
      return Err(left.error);
    }
    var right := ExtractAsWritten(a, 0, A.m, A.m, A.m * 2);
    if right.Err? {
      assert false;
    }
    if right.value != id {
      r := Ok(None);
    } else {
      r := Ok(Some(left.value));
    }
    if A.m == 1 {
      assert At(a, 0, 1) == 0.0;
      assert At(right.value, 0, 0) == 0.0;
      assert At(id, 0, 0) == 1.0;
    }
  }
}
