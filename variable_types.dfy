/** The operand type of the expression evaluator (variables/variable_types.rs): a closed
    union of scalar, vector, matrix and None, with arithmetic dispatched on the pair of
    tags and a text form that starts with the tag. */
module VariableTypes {
  import opened Wrappers
  import Text
  import Scalars
  import Vectors
  import Matrices
  import MathCodec

  datatype VariableType =
    | ScalarValue(s: Scalars.Scalar)
    | VectorValue(v: Vectors.Vector)
    | MatrixValue(m: Matrices.Matrix)
    | NoneValue
  {
    /** The invariants the vector and matrix constructors keep. */
    predicate Valid() {
      match this
      case VectorValue(v) => v.Valid()
      case MatrixValue(m) => m.Valid()
      case _ => true
    }
  }

  predicate SameTag(a: VariableType, b: VariableType) {
    (a.ScalarValue? && b.ScalarValue?) || (a.VectorValue? && b.VectorValue?) ||
    (a.MatrixValue? && b.MatrixValue?) || (a.NoneValue? && b.NoneValue?)
  }

  /** The pairs add and sub accept: two scalars, two vectors of one dimension, or two
      matrices of one shape. */
  predicate SameShape(a: VariableType, b: VariableType) {
    (a.ScalarValue? && b.ScalarValue?) ||
    (a.VectorValue? && b.VectorValue? && a.v.d == b.v.d) ||
    (a.MatrixValue? && b.MatrixValue? && a.m.m == b.m.m && a.m.n == b.m.n)
  }

  /** add: element-wise on equal tags; None on either side and a mix of tags are errors. */
  function Add(a: VariableType, b: VariableType): (r: Result<VariableType>)
    requires a.Valid() && b.Valid()
    ensures r.Ok? <==> SameShape(a, b)
    ensures r.Ok? ==> r.value.Valid() && SameTag(r.value, a)
    ensures a.NoneValue? || b.NoneValue? ==> r == Err(NoneOperand)
    ensures !a.NoneValue? && !b.NoneValue? && !SameTag(a, b) ==> r == Err(MismatchedTypes)
  {
    match (a, b)
    case (ScalarValue(x), ScalarValue(y)) => Ok(ScalarValue(Scalars.Add(x, y)))
    case (VectorValue(x), VectorValue(y)) =>
      (match Vectors.Sum(x, y)
       case Ok(z) => Ok(VectorValue(z))
       case Err(e) => Err(e))
    case (MatrixValue(x), MatrixValue(y)) =>
      (match Matrices.Sum(x, y)
       case Ok(z) => Ok(MatrixValue(z))
       case Err(e) => Err(e))
    case (NoneValue, _) => Err(NoneOperand)
    case (_, NoneValue) => Err(NoneOperand)
    case _ => Err(MismatchedTypes)
  }

  /** sub: as add, with differences. */
  function Sub(a: VariableType, b: VariableType): (r: Result<VariableType>)
    requires a.Valid() && b.Valid()
    ensures r.Ok? <==> SameShape(a, b)
    ensures r.Ok? ==> r.value.Valid() && SameTag(r.value, a)
    ensures a.NoneValue? || b.NoneValue? ==> r == Err(NoneOperand)
    ensures !a.NoneValue? && !b.NoneValue? && !SameTag(a, b) ==> r == Err(MismatchedTypes)
  {
    match (a, b)
    case (ScalarValue(x), ScalarValue(y)) => Ok(ScalarValue(Scalars.Sub(x, y)))
    case (VectorValue(x), VectorValue(y)) =>
      (match Vectors.Difference(x, y)
       case Ok(z) => Ok(VectorValue(z))
       case Err(e) => Err(e))
    case (MatrixValue(x), MatrixValue(y)) =>
      (match Matrices.Difference(x, y)
       case Ok(z) => Ok(MatrixValue(z))
       case Err(e) => Err(e))
    case (NoneValue, _) => Err(NoneOperand)
    case (_, NoneValue) => Err(NoneOperand)
    case _ => Err(MismatchedTypes)
  }

  /** mul: two scalars, or two non-empty matrices whose inner dimensions agree. */
  function Mul(a: VariableType, b: VariableType): (r: Result<VariableType>)
    requires a.Valid() && b.Valid()
    ensures r.Ok? <==> (a.ScalarValue? && b.ScalarValue?) ||
                       (a.MatrixValue? && b.MatrixValue? && a.m.n == b.m.m &&
                        a.m.m > 0 && a.m.n > 0 && b.m.n > 0)
    ensures r.Ok? ==> r.value.Valid() && SameTag(r.value, a)
    ensures r.Ok? && a.MatrixValue? ==> r.value.m.m == a.m.m && r.value.m.n == b.m.n
    ensures a.NoneValue? || b.NoneValue? ==> r == Err(NoneOperand)
    ensures a.VectorValue? && !b.NoneValue? ==> r == Err(NoMultiplication)
  {
    match (a, b)
    case (ScalarValue(x), ScalarValue(y)) => Ok(ScalarValue(Scalars.Mul(x, y)))
    case (MatrixValue(x), MatrixValue(y)) =>
      (match Matrices.Product(x, y)
       case Ok(z) => Ok(MatrixValue(z))
       case Err(e) => Err(e))
    case (NoneValue, _) => Err(NoneOperand)
    case (_, NoneValue) => Err(NoneOperand)
    case _ => Err(NoMultiplication)
  }

  /** div: two scalars only; a zero divisor is reported as in Scalars.Div. */
  function Div(a: VariableType, b: VariableType): (r: Result<VariableType>)
    ensures r.Ok? <==> a.ScalarValue? && b.ScalarValue? && b.s.val != 0.0
    ensures r.Ok? ==> r.value.ScalarValue? && r.value.s.val * b.s.val == a.s.val
    ensures a.NoneValue? || b.NoneValue? ==> r == Err(NoneOperand)
    ensures !a.NoneValue? && !b.NoneValue? && !(a.ScalarValue? && b.ScalarValue?) ==> r == Err(NoDivision)
  {
    match (a, b)
    case (ScalarValue(x), ScalarValue(y)) =>
      (match Scalars.Div(x, y)
       case Ok(z) => Ok(ScalarValue(z))
       case Err(e) => Err(e))
    case (NoneValue, _) => Err(NoneOperand)
    case (_, NoneValue) => Err(NoneOperand)
    case _ => Err(NoDivision)
  }

  lemma AddCommutes(a: VariableType, b: VariableType)
    requires a.Valid() && b.Valid()
    ensures Add(a, b) == Add(b, a)
  {
    match (a, b)
    case (VectorValue(x), VectorValue(y)) => Vectors.SumCommutes(x, y);
    case (MatrixValue(x), MatrixValue(y)) => Matrices.SumCommutes(x, y);
    case _ =>
  }

  /** Subtracting b undoes adding it, for every pair add accepts. */
  lemma SubUndoesAdd(a: VariableType, b: VariableType)
    requires a.Valid() && b.Valid() && Add(a, b).Ok?
    ensures Sub(Add(a, b).value, b) == Ok(a)
  {
    match (a, b)
    case (ScalarValue(x), ScalarValue(y)) =>
    case (VectorValue(x), VectorValue(y)) => Vectors.DifferenceUndoesSum(x, y);
    case (MatrixValue(x), MatrixValue(y)) => Matrices.DifferenceUndoesSum(x, y);
  }

  /** Multiplying a matrix by the identity of its width gives it back. */
  lemma MulByIdentity(A: Matrices.Matrix)
    requires A.Valid() && A.m > 0 && A.n > 0
    ensures Mul(MatrixValue(A), MatrixValue(Matrices.Identity(A.n))) == Ok(MatrixValue(A))
    ensures Mul(MatrixValue(Matrices.Identity(A.m)), MatrixValue(A)) == Ok(MatrixValue(A))
  {
    Matrices.IdentityIsUnit(A);
  }

  /** Dividing by a non-zero scalar undoes multiplying by it. */
  lemma DivUndoesMul(a: Scalars.Scalar, b: Scalars.Scalar)
    requires b.val != 0.0
    ensures Div(Mul(ScalarValue(a), ScalarValue(b)).value, ScalarValue(b)) == Ok(ScalarValue(a))
  {
    var q := Div(Mul(ScalarValue(a), ScalarValue(b)).value, ScalarValue(b)).value.s.val;
    assert q * b.val == a.val * b.val;
  }

  // ---- text form ------------------------------------------------------------------------

  /** sterilize: the codec of the payload's type, and "NAN" for None. */
  function Sterilize(f: MathCodec.NumberFormat, x: VariableType): string {
    match x
    case ScalarValue(s) => MathCodec.EncodeScalar(f, s)
    case VectorValue(v) => MathCodec.EncodeVector(f, v)
    case MatrixValue(m) => MathCodec.EncodeMatrix(f, m)
    case NoneValue => "NAN"
  }

  /** from_sterilize: dispatches on the first three characters. The matrix decoder is the
      corrected one (MathCodec.DecodeMatrix). */
  function FromSterilize(f: MathCodec.NumberFormat, input: string): (r: Result<VariableType>)
    ensures |input| < 3 ==> r == Err(TooShort)
    ensures |input| >= 3 && input[..3] !in {"SCA", "VEC", "MAT", "NAN"} ==> r == Err(UnknownTag(input[..3]))
    ensures |input| >= 3 && input[..3] == "NAN" ==> r == Ok(NoneValue)
    ensures r.Ok? ==> r.value.Valid()
  {
    if |input| < 3 then Err(TooShort)
    else
      var tag := input[..3];
      if tag == "SCA" then
        (match MathCodec.DecodeScalar(f, input)
         case Ok(s) => Ok(ScalarValue(s))
         case Err(e) => Err(e))
      else if tag == "VEC" then
        (match MathCodec.DecodeVector(f, input)
         case Ok(v) => Ok(VectorValue(v))
         case Err(e) => Err(e))
      else if tag == "MAT" then
        (match MathCodec.DecodeMatrix(f, input)
         case Ok(m) => Ok(MatrixValue(m))
         case Err(e) => Err(e))
      else if tag == "NAN" then Ok(NoneValue)
      else Err(UnknownTag(tag))
  }

  /** Every number of x prints as a token that reads back, and its dimensions fit a usize. */
  predicate Printable(f: MathCodec.NumberFormat, x: VariableType) {
    match x
    case ScalarValue(s) => MathCodec.Prints(f, s.val)
    case VectorValue(v) =>
      v.Valid() && v.d <= Text.USIZE_MAX && forall i :: 0 <= i < v.d ==> MathCodec.Prints(f, v.val[i])
    case MatrixValue(m) =>
      m.Valid() && m.m <= Text.USIZE_MAX && m.n <= Text.USIZE_MAX &&
      forall i, j :: 0 <= i < m.m && 0 <= j < m.n ==> MathCodec.Prints(f, Matrices.At(m, i, j))
    case NoneValue => true
  }

  lemma SterilizeRoundTrip(f: MathCodec.NumberFormat, x: VariableType)
    requires Printable(f, x)
    ensures FromSterilize(f, Sterilize(f, x)) == Ok(x)
  {
    match x
    case ScalarValue(s) =>
      MathCodec.ScalarRoundTrip(f, s);
      assert Sterilize(f, x)[..3] == "SCA";
    case VectorValue(v) =>
      MathCodec.VectorRoundTrip(f, v);
      assert Sterilize(f, x)[..3] == "VEC";
    case MatrixValue(m) =>
      MathCodec.MatrixRoundTrip(f, m);
      assert Sterilize(f, x)[..3] == "MAT";
    case NoneValue =>
  }
}
