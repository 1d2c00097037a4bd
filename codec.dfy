/** The text codec of math_types.rs (`sterilize` / `from_sterilize`): a three-letter type
    tag, then the dimensions and the numbers, each written with a single space after it.
    Printing an f64 (`Display`) and parsing one (`str::parse::<f64>`) are library
    routines; the model takes them as a pair of functions. */
module MathCodec {
  import opened Wrappers
  import opened Text
  import Scalars
  import Vectors
  import Matrices

  /** f64's `Display` (`show`) and `str::parse::<f64>` (`read`). */
  datatype NumberFormat = NumberFormat(show: real -> string, read: string -> Option<real>)

  /** x prints as one blank-free token that parses back to x, as every finite f64 does. */
  predicate Prints(f: NumberFormat, x: real) {
    f.read(f.show(x)) == Some(x) && NoWhitespace(f.show(x))
  }

  // ---- scalars -------------------------------------------------------------------------

  /** Scalar::sterilize: "SCA " and the number. */
  function EncodeScalar(f: NumberFormat, s: Scalars.Scalar): string {
    "SCA " + f.show(s.val)
  }

  /** Scalar::from_sterilize: the tag must be SCA; a bare "SCA" is zero; otherwise
      everything after the fourth character, trimmed, must parse as a number. */
  function DecodeScalar(f: NumberFormat, input: string): (r: Result<Scalars.Scalar>)
    ensures |input| < 3 ==> r == Err(TooShort)
    ensures |input| >= 3 && input[..3] != "SCA" ==> r == Err(WrongTag)
    ensures input == "SCA" ==> r == Ok(Scalars.Scalar(0.0))
    ensures |input| >= 4 && input[..3] == "SCA" ==>
              (r.Ok? <==> f.read(Trim(input[4..])).Some?)
  {
    if |input| < 3 then Err(TooShort)
    else if input[..3] != "SCA" then Err(WrongTag)
    else if |input| < 4 then Ok(Scalars.Scalar(0.0))
    else
      var token := Trim(input[4..]);
      match f.read(token)
      case Some(x) => Ok(Scalars.Scalar(x))
      case None => Err(BadNumber(token))
  }

  lemma ScalarRoundTrip(f: NumberFormat, s: Scalars.Scalar)
    requires Prints(f, s.val)
    ensures DecodeScalar(f, EncodeScalar(f, s)) == Ok(s)
  {
    var t := f.show(s.val);
    var input := "SCA " + t;
    assert input[..3] == "SCA" && input[4..] == t;
    TrimOfNoWhitespace(t);
    assert DecodeScalar(f, input) == Ok(s);
  }

  // ---- number lists ----------------------------------------------------------------------

  /** The numbers of a vector or matrix as sterilize writes them: each followed by a space. */
  function Fields(f: NumberFormat, xs: seq<real>): string {
    if xs == [] then "" else f.show(xs[0]) + " " + Fields(f, xs[1..])
  }

  function Shown(f: NumberFormat, xs: seq<real>): (r: seq<string>)
    ensures |r| == |xs|
    ensures forall i :: 0 <= i < |xs| ==> r[i] == f.show(xs[i])
  {
    seq(|xs|, i requires 0 <= i < |xs| => f.show(xs[i]))
  }

  /** Splitting the fields at spaces gives back one token per number, and the empty piece
      after the last space. */
  lemma {:induction false} SplitFields(f: NumberFormat, xs: seq<real>)
    requires forall i :: 0 <= i < |xs| ==> Prints(f, xs[i])
    ensures Split(Fields(f, xs), ' ') == Shown(f, xs) + [""]
    decreases |xs|
  {
    if xs != [] {
      var t := f.show(xs[0]);
      assert ' ' !in t by { assert IsWhitespace(' '); }
      assert Fields(f, xs) == t + [' '] + Fields(f, xs[1..]);
      SplitField(t, ' ', Fields(f, xs[1..]));
      assert forall i :: 0 <= i < |xs[1..]| ==> Prints(f, xs[1..][i]) by {
        forall i | 0 <= i < |xs[1..]| ensures Prints(f, xs[1..][i]) {
          assert xs[1..][i] == xs[i + 1];
        }
      }
      SplitFields(f, xs[1..]);
      assert Shown(f, xs) == [t] + Shown(f, xs[1..]);
    }
  }

  /** The number-reading loop of from_sterilize: count numbers from splits[from..], in
      order; the first token that is missing or does not parse ends it with an error. */
  function ReadNumbers(f: NumberFormat, splits: seq<string>, from: nat, count: nat): (r: Result<seq<real>>)
    ensures r.Ok? <==> count == 0 || (from + count <= |splits| &&
                         forall i :: from <= i < from + count ==> f.read(splits[i]).Some?)
    ensures r.Ok? ==> |r.value| == count &&
                      forall i :: from <= i < from + count ==> i < |splits| && f.read(splits[i]) == Some(r.value[i - from])
    decreases count
  {
    if count == 0 then Ok([])
    else if from >= |splits| then Err(MissingNumbers)
    else match f.read(splits[from])
      case None => Err(BadNumber(splits[from]))
      case Some(x) =>
        match ReadNumbers(f, splits, from + 1, count - 1)
        case Ok(rest) => Ok([x] + rest)
        case Err(e) => Err(e)
  }

  // ---- vectors ---------------------------------------------------------------------------

  /** Vector::sterilize: "VEC", the dimension, then the numbers. */
  function EncodeVector(f: NumberFormat, v: Vectors.Vector): string {
    "VEC " + (NatToString(v.d) + " " + Fields(f, v.val))
  }

  /** Vector::from_sterilize: the tag must be VEC; the input is split at single spaces, the
      second piece is the dimension d and the d pieces after it are the numbers. */
  function DecodeVector(f: NumberFormat, input: string): (r: Result<Vectors.Vector>)
    ensures r.Ok? ==> |input| >= 3 && input[..3] == "VEC"
    ensures r.Ok? ==> r.value.Valid()
    ensures r.Ok? ==> |Split(input, ' ')| >= 3 && Some(r.value.d) == ParseUsize(Split(input, ' ')[1])
  {
    // the source reports a short input and a wrong tag with the same message
    if |input| < 3 || input[..3] != "VEC" then Err(TooShort)
    else
      var splits := Split(input, ' ');
      if |splits| < 3 then Err(MissingFields)
      else match ParseUsize(splits[1])
        case None => Err(BadDimensions)
        case Some(d) =>
          match ReadNumbers(f, splits, 2, d)
          case Ok(vals) => Ok(Vectors.Vector(vals, d))
          case Err(e) => Err(e)
  }

  /** The tokens of a sterilized vector. */
  lemma SplitVector(f: NumberFormat, v: Vectors.Vector)
    requires forall i :: 0 <= i < |v.val| ==> Prints(f, v.val[i])
    ensures Split(EncodeVector(f, v), ' ') == ["VEC", NatToString(v.d)] + Shown(f, v.val) + [""]
  {
    var ds, fs := NatToString(v.d), Fields(f, v.val);
    DigitsHaveNoSpace(v.d);
    VectorPieces(ds, fs);
    SplitToken(ds, fs);
    SplitFields(f, v.val);
    SplitToken("VEC", ds + (" " + fs));
  }

  lemma VectorPieces(ds: string, fs: string)
    ensures "VEC " + (ds + " " + fs) == "VEC" + (" " + (ds + (" " + fs)))
  {}

  lemma VectorRoundTrip(f: NumberFormat, v: Vectors.Vector)
    requires v.Valid() && v.d <= USIZE_MAX
    requires forall i :: 0 <= i < v.d ==> Prints(f, v.val[i])
    ensures DecodeVector(f, EncodeVector(f, v)) == Ok(v)
  {
    var input := EncodeVector(f, v);
    assert input[..3] == "VEC";
    SplitVector(f, v);
    var splits := Split(input, ' ');
    ParseUsizeOfNatToString(v.d);
    var shown := Shown(f, v.val);
    assert splits == ["VEC", NatToString(v.d)] + shown + [""];
    forall i | 2 <= i < 2 + v.d
      ensures splits[i] == f.show(v.val[i - 2])
    {
      assert splits[i] == shown[i - 2];
    }
    var r := ReadNumbers(f, splits, 2, v.d);
    assert r.Ok?;
    forall j | 0 <= j < v.d
      ensures r.value[j] == v.val[j]
    {
      assert f.read(splits[j + 2]) == Some(r.value[j]);
    }
    assert r.value == v.val;
  }

  // ---- matrices --------------------------------------------------------------------------

  /** The entries of the rows, row after row. */
  function Flatten(rows: seq<Vectors.Vector>): seq<real> {
    if rows == [] then [] else rows[0].val + Flatten(rows[1..])
  }

  /** A property of every entry of every row holds of every element of the flattening. */
  lemma {:induction false} FlattenPrints(f: NumberFormat, rows: seq<Vectors.Vector>)
    requires forall i, j :: 0 <= i < |rows| && 0 <= j < |rows[i].val| ==> Prints(f, rows[i].val[j])
    ensures forall k :: 0 <= k < |Flatten(rows)| ==> Prints(f, Flatten(rows)[k])
    decreases |rows|
  {
    if rows != [] {
      assert forall i, j :: 0 <= i < |rows[1..]| && 0 <= j < |rows[1..][i].val| ==>
        rows[1..][i].val[j] == rows[i + 1].val[j];
      FlattenPrints(f, rows[1..]);
    }
  }

  /** Matrix::sterilize: "MAT", the row and column counts, then the entries row by row. */
  function EncodeMatrix(f: NumberFormat, A: Matrices.Matrix): string {
    "MAT " + (NatToString(A.m) + " " + (NatToString(A.n) + " " + Fields(f, Flatten(A.val))))
  }

  /** A blank-free token and a space split off as one piece. */
  lemma SplitToken(t: string, rest: string)
    requires ' ' !in t
    ensures Split(t + (" " + rest), ' ') == [t] + Split(rest, ' ')
  {
    assert t + (" " + rest) == t + [' '] + rest;
    SplitField(t, ' ', rest);
  }

  lemma DigitsHaveNoSpace(n: nat)
    ensures ' ' !in NatToString(n)
  {
    assert AllDigits(NatToString(n));
  }

  lemma SplitThree(a: string, b: string, c: string, rest: string)
    requires ' ' !in a && ' ' !in b && ' ' !in c
    ensures Split(a + (" " + (b + (" " + (c + (" " + rest))))), ' ') == [a, b, c] + Split(rest, ' ')
  {
    SplitToken(c, rest);
    SplitToken(b, c + (" " + rest));
    SplitToken(a, b + (" " + (c + (" " + rest))));
  }

  lemma SplitMatrix(f: NumberFormat, A: Matrices.Matrix)
    requires forall k :: 0 <= k < |Flatten(A.val)| ==> Prints(f, Flatten(A.val)[k])
    ensures Split(EncodeMatrix(f, A), ' ') ==
              ["MAT", NatToString(A.m), NatToString(A.n)] + Shown(f, Flatten(A.val)) + [""]
  {
    var ms, ns, rest := NatToString(A.m), NatToString(A.n), Fields(f, Flatten(A.val));
    DigitsHaveNoSpace(A.m);
    DigitsHaveNoSpace(A.n);
    assert EncodeMatrix(f, A) == "MAT" + (" " + (ms + (" " + (ns + (" " + rest)))));
    SplitThree("MAT", ms, ns, rest);
    SplitFields(f, Flatten(A.val));
  }

  /** The number-reading loop of Matrix::from_sterilize as intended: count rows of n numbers
      each, taken in order from splits[from..]. */
  function ReadRows(f: NumberFormat, splits: seq<string>, from: nat, count: nat, n: nat)
    : (r: Result<seq<Vectors.Vector>>)
    ensures r.Ok? ==> |r.value| == count
    ensures r.Ok? ==> forall i :: 0 <= i < count ==> r.value[i].Valid() && r.value[i].d == n
    decreases count
  {
    if count == 0 then Ok([])
    else match ReadNumbers(f, splits, from, n)
      case Err(e) => Err(e)
      case Ok(row) =>
        match ReadRows(f, splits, from + n, count - 1, n)
        case Err(e) => Err(e)
        case Ok(rest) => Ok([Vectors.Vector(row, n)] + rest)
  }

  /** Rows whose entries appear, printed, from splits[from] on are read back. */
  lemma {:induction false} ReadRowsOfShown(f: NumberFormat, splits: seq<string>, from: nat,
                                          rows: seq<Vectors.Vector>, n: nat)
    requires forall i :: 0 <= i < |rows| ==> rows[i].Valid() && rows[i].d == n
    requires from + |Flatten(rows)| <= |splits|
    requires forall k :: from <= k < from + |Flatten(rows)| ==>
               splits[k] == f.show(Flatten(rows)[k - from]) && Prints(f, Flatten(rows)[k - from])
    ensures ReadRows(f, splits, from, |rows|, n) == Ok(rows)
    decreases |rows|
  {
    if rows != [] {
      var flat, rest := Flatten(rows), Flatten(rows[1..]);
      assert flat == rows[0].val + rest;
      var row := ReadNumbers(f, splits, from, n);
      forall k | from <= k < from + n
        ensures f.read(splits[k]) == Some(rows[0].val[k - from])
      {
        assert flat[k - from] == rows[0].val[k - from];
      }
      assert row.Ok?;
      forall j | 0 <= j < n
        ensures row.value[j] == rows[0].val[j]
      {
        assert f.read(splits[from + j]) == Some(row.value[j]);
      }
      assert row.value == rows[0].val;
      forall k | from + n <= k < from + n + |rest|
        ensures splits[k] == f.show(rest[k - (from + n)]) && Prints(f, rest[k - (from + n)])
      {
        assert rest[k - (from + n)] == flat[k - from];
      }
      assert forall i :: 0 <= i < |rows[1..]| ==> rows[1..][i] == rows[i + 1];
      assert from + n + |rest| <= |splits|;
      ReadRowsOfShown(f, splits, from + n, rows[1..], n);
      assert [rows[0]] + rows[1..] == rows;
    }
  }

  /** The shared head of Matrix::from_sterilize: the tag, at least three pieces, and both
      dimensions parsing as usize. */
  function MatrixHeader(input: string): (r: Result<(seq<string>, nat, nat)>)
    ensures r.Ok? ==> |input| >= 3 && input[..3] == "MAT"
    ensures r.Ok? ==> r.value.0 == Split(input, ' ') && |r.value.0| >= 3 &&
                      ParseUsize(r.value.0[1]) == Some(r.value.1) &&
                      ParseUsize(r.value.0[2]) == Some(r.value.2)
  {
    // the source reports a short input and a wrong tag with the same message
    if |input| < 3 || input[..3] != "MAT" then Err(TooShort)
    else
      var splits := Split(input, ' ');
      if |splits| < 3 then Err(MissingFields)
      else match (ParseUsize(splits[1]), ParseUsize(splits[2]))
        case (Some(m), Some(n)) => Ok((splits, m, n))
        case _ => Err(BadDimensions)
  }

  /** Matrix::from_sterilize as intended: the m * n numbers after the dimensions fill the
      matrix row by row, and a matrix with no entries has the Matrix::new shape. */
  function DecodeMatrix(f: NumberFormat, input: string): (r: Result<Matrices.Matrix>)
    ensures r.Ok? ==> r.value.Valid()
    ensures r.Ok? ==> MatrixHeader(input).Ok? &&
                      r.value.m == MatrixHeader(input).value.1 && r.value.n == MatrixHeader(input).value.2
  {
    match MatrixHeader(input)
    case Err(e) => Err(e)
    case Ok((splits, m, n)) =>
      if m == 0 || n == 0 then Ok(Matrices.NewMatrix(m, n))
      else match ReadRows(f, splits, 3, m, n)
        case Ok(rows) => Ok(Matrices.Matrix(rows, m, n))
        case Err(e) => Err(e)
  }

  lemma MatrixRoundTrip(f: NumberFormat, A: Matrices.Matrix)
    requires A.Valid() && A.m <= USIZE_MAX && A.n <= USIZE_MAX
    requires forall i, j :: 0 <= i < A.m && 0 <= j < A.n ==> Prints(f, Matrices.At(A, i, j))
    ensures DecodeMatrix(f, EncodeMatrix(f, A)) == Ok(A)
  {
    MatrixEntriesPrint(f, A);
    var splits := MatrixHeaderOfEncoding(f, A);
    if A.m == 0 || A.n == 0 {
      assert A.val == [];
      assert Matrices.NewMatrix(A.m, A.n).val == [];
    } else {
      MatrixRowsOfEncoding(f, A, splits);
    }
  }

  /** Every entry of the flattened rows prints. */
  lemma MatrixEntriesPrint(f: NumberFormat, A: Matrices.Matrix)
    requires A.Valid()
    requires forall i, j :: 0 <= i < A.m && 0 <= j < A.n ==> Prints(f, Matrices.At(A, i, j))
    ensures forall k :: 0 <= k < |Flatten(A.val)| ==> Prints(f, Flatten(A.val)[k])
  {
    if A.m > 0 && A.n > 0 {
      forall i, j | 0 <= i < |A.val| && 0 <= j < |A.val[i].val|
        ensures Prints(f, A.val[i].val[j])
      {
        assert A.val[i].val[j] == Matrices.At(A, i, j);
      }
    }
    FlattenPrints(f, A.val);
  }

  /** The header of a sterilized matrix reads back its dimensions. */
  lemma MatrixHeaderOfEncoding(f: NumberFormat, A: Matrices.Matrix) returns (splits: seq<string>)
    requires A.m <= USIZE_MAX && A.n <= USIZE_MAX
    requires forall k :: 0 <= k < |Flatten(A.val)| ==> Prints(f, Flatten(A.val)[k])
    ensures splits == ["MAT", NatToString(A.m), NatToString(A.n)] + Shown(f, Flatten(A.val)) + [""]
    ensures MatrixHeader(EncodeMatrix(f, A)) == Ok((splits, A.m, A.n))
  {
    var input := EncodeMatrix(f, A);
    assert input[..3] == "MAT";
    SplitMatrix(f, A);
    ParseUsizeOfNatToString(A.m);
    ParseUsizeOfNatToString(A.n);
    splits := Split(input, ' ');
  }

  /** The numbers after the header of a sterilized matrix read back its rows. */
  lemma MatrixRowsOfEncoding(f: NumberFormat, A: Matrices.Matrix, splits: seq<string>)
    requires A.Valid() && A.m > 0 && A.n > 0
    requires forall k :: 0 <= k < |Flatten(A.val)| ==> Prints(f, Flatten(A.val)[k])
    requires splits == ["MAT", NatToString(A.m), NatToString(A.n)] + Shown(f, Flatten(A.val)) + [""]
    ensures ReadRows(f, splits, 3, A.m, A.n) == Ok(A.val)
  {
    var flat, shown := Flatten(A.val), Shown(f, Flatten(A.val));
    forall k | 3 <= k < 3 + |flat|
      ensures splits[k] == f.show(flat[k - 3]) && Prints(f, flat[k - 3])
    {
      assert splits[k] == shown[k - 3];
    }
    ReadRowsOfShown(f, splits, 3, A.val, A.n);
  }

  // ---- Matrix::from_sterilize as written ---------------------------------------------------

  /** The loop of Matrix::from_sterilize as the source writes it: number k is read from
      splits[k + 2] (which is the column count for k == 0) into row k / m, column k % m,
      and the index assertion aborts as soon as that cell is outside the matrix. */
  function FillAsWritten(f: NumberFormat, splits: seq<string>, m: nat, n: nat, k: nat,
                         val: seq<Vectors.Vector>): (r: Result<seq<Vectors.Vector>>)
    requires |val| == m && forall i :: 0 <= i < m ==> val[i].Valid() && val[i].d == n
    ensures r.Ok? ==> |r.value| == m && forall i :: 0 <= i < m ==> r.value[i].Valid() && r.value[i].d == n
    decreases m * n - k
  {
    if k >= m * n then Ok(val)
    else
      assert m != 0;
      var i, j := k / m, k % m;
      if k + 2 >= |splits| then Err(MissingNumbers)
      else if !(i < m && j < n) then Err(Panic("assertion failed: i < m && j < n"))
      else match f.read(splits[k + 2])
        case None => Err(BadNumber(splits[k + 2]))
        case Some(t) =>
          assert val[i].Valid() && val[i].d == n;
          var row := Vectors.Vector(val[i].val[j := t], n);
          assert row.Valid();
          FillAsWritten(f, splits, m, n, k + 1, val[i := row])
  }

  /** Matrix::from_sterilize as written: m rows of Vector::new(n) (m empty rows when n is
      zero), then the loop above. */
  function DecodeMatrixAsWritten(f: NumberFormat, input: string): (r: Result<Matrices.Matrix>)
    ensures r.Ok? ==> |r.value.val| == r.value.m &&
                      forall i :: 0 <= i < r.value.m ==> r.value.val[i].Valid() && r.value.val[i].d == r.value.n
  {
    match MatrixHeader(input)
    case Err(e) => Err(e)
    case Ok((splits, m, n)) =>
      match FillAsWritten(f, splits, m, n, 0, seq(m, _ => Vectors.Zero(n)))
      case Ok(val) => Ok(Matrices.Matrix(val, m, n))
      case Err(e) => Err(e)
  }

  /** An m by 0 matrix comes back as written with m empty rows, which no matrix of shape
      m by 0 has (Matrix::new stores none); the corrected decoder stores none. */
  lemma EmptyRowsAsWritten(f: NumberFormat, m: nat)
    requires 0 < m <= USIZE_MAX
    ensures DecodeMatrixAsWritten(f, EncodeMatrix(f, Matrices.NewMatrix(m, 0))) ==
              Ok(Matrices.Matrix(seq(m, _ => Vectors.Zero(0)), m, 0))
    ensures !Matrices.Matrix(seq(m, _ => Vectors.Zero(0)), m, 0).Valid()
    ensures DecodeMatrix(f, EncodeMatrix(f, Matrices.NewMatrix(m, 0))) == Ok(Matrices.NewMatrix(m, 0))
  {
    var A := Matrices.NewMatrix(m, 0);
    assert A.val == [];
    var splits := MatrixHeaderOfEncoding(f, A);
    MatrixRoundTrip(f, A);
  }

  /** The 1 by 1 matrix [x], sterilized as "MAT 1 1 " and x's text, comes back as [1]:
      the first number read is the column count. */
  lemma MatrixAsWrittenShiftsEntries(f: NumberFormat, x: real)
    requires Prints(f, x) && f.read("1") == Some(1.0)
    ensures DecodeMatrixAsWritten(f, EncodeMatrix(f, Matrices.FromRows(1, 1, [[x]]))) ==
              Ok(Matrices.FromRows(1, 1, [[1.0]]))
    ensures DecodeMatrix(f, EncodeMatrix(f, Matrices.FromRows(1, 1, [[x]]))) ==
              Ok(Matrices.FromRows(1, 1, [[x]]))
  {
    var A := Matrices.FromRows(1, 1, [[x]]);
    assert A.val == [Vectors.Vector([x], 1)];
    assert Flatten(A.val) == [x] by {
      assert Flatten(A.val[1..]) == [];
    }
    assert NatToString(1) == "1";
    FlattenPrints(f, A.val);
    SplitMatrix(f, A);
    var splits := Split(EncodeMatrix(f, A), ' ');
    assert Shown(f, [x]) == [f.show(x)];
    assert splits == ["MAT", "1", "1", f.show(x), ""];
    ParseUsizeOfNatToString(1);
    assert MatrixHeader(EncodeMatrix(f, A)) == Ok((splits, 1, 1));
    var start := seq(1, _ => Vectors.Zero(1));
    var row := Vectors.Vector(start[0].val[0 := 1.0], 1);
    assert start[0 := row] == [row];
    assert FillAsWritten(f, splits, 1, 1, 0, start) == FillAsWritten(f, splits, 1, 1, 1, [row]);
    assert row == Vectors.Vector([1.0], 1);
    assert Matrices.FromRows(1, 1, [[1.0]]).val == [row];
    MatrixRoundTrip(f, A);
  }

  /** A 1 by 2 matrix does not decode: its second number is aimed at row 1 of a one-row
      matrix, and the index assertion aborts. */
  lemma MatrixAsWrittenRejectsWide(f: NumberFormat, x: real, y: real)
    requires Prints(f, x) && Prints(f, y) && f.read("2") == Some(2.0)
    ensures DecodeMatrixAsWritten(f, EncodeMatrix(f, Matrices.FromRows(1, 2, [[x, y]]))).Err?
    ensures DecodeMatrix(f, EncodeMatrix(f, Matrices.FromRows(1, 2, [[x, y]]))) ==
              Ok(Matrices.FromRows(1, 2, [[x, y]]))
  {
    var A := Matrices.FromRows(1, 2, [[x, y]]);
    assert A.val == [Vectors.Vector([x, y], 2)];
    assert Flatten(A.val) == [x, y] by {
      assert Flatten(A.val[1..]) == [];
    }
    assert NatToString(1) == "1";
    assert NatToString(2) == "2";
    FlattenPrints(f, A.val);
    SplitMatrix(f, A);
    var splits := Split(EncodeMatrix(f, A), ' ');
    assert Shown(f, [x, y]) == [f.show(x), f.show(y)];
    assert splits == ["MAT", "1", "2", f.show(x), f.show(y), ""];
    ParseUsizeOfNatToString(1);
    ParseUsizeOfNatToString(2);
    assert MatrixHeader(EncodeMatrix(f, A)) == Ok((splits, 1, 2));
    var start := seq(1, _ => Vectors.Zero(2));
    var row := Vectors.Vector(start[0].val[0 := 2.0], 2);
    assert FillAsWritten(f, splits, 1, 2, 1, start[0 := row]).Err?;
    MatrixRoundTrip(f, A);
  }
}
