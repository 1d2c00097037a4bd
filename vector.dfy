/** Vectors of math_types.rs: a list of f64 and its declared dimension d. Every
    constructor of the source keeps `|val| == d`; d == 0 is the error vector. */
module Vectors {
  import opened Wrappers

  datatype Vector = Vector(val: seq<real>, d: nat) {
    /** The struct invariant the source's constructors and set_val keep. */
    predicate Valid() {
      |val| == d
    }

    /** The source's is_valid: false exactly for the error vector. */
    predicate IsUsable() {
      d != 0
    }
  }

  /** Vector::new: d zeros. */
  function Zero(d: nat): (v: Vector)
    ensures v.Valid() && v.d == d
    ensures forall i :: 0 <= i < d ==> v.val[i] == 0.0
  {
    Vector(seq(d, _ => 0.0), d)
  }

  /** from_list: the dimension is the length of the list, so an empty list gives the error vector. */
  function FromList(vals: seq<real>): (v: Vector)
    ensures v.Valid() && v.val == vals
    ensures v.IsUsable() <==> vals != []
  {
    Vector(vals, |vals|)
  }

  /** from_num: the usable 1-vector holding x. */
  function FromNum(x: real): (v: Vector)
    ensures v.Valid() && v.IsUsable() && v.d == 1 && v.val[0] == x
  {
    Vector([x], 1)
  }

  function ErrorVector(): (v: Vector)
    ensures v.Valid() && !v.IsUsable()
  {
    Vector([], 0)
  }

  /** set_val: conforms the new data to the vector's own dimension d, padding a shorter
      list with zeros and truncating a longer one; d never changes. */
  function SetVal(v: Vector, data: seq<real>): (r: Vector)
    ensures r.Valid() && r.d == v.d
    ensures forall i :: 0 <= i < v.d && i < |data| ==> r.val[i] == data[i]
    ensures forall i :: |data| <= i < v.d ==> r.val[i] == 0.0
  {
    if |data| < v.d then Vector(data + seq(v.d - |data|, _ => 0.0), v.d)
    else if |data| == v.d then Vector(data, v.d)
    else Vector(data[..v.d], v.d)
  }

  /** cross_product: defined for two vectors of the same dimension 1, 2 or 3; a pair of
      2-vectors is read as 3-vectors with z = 0. */
  function CrossProduct(a: Vector, b: Vector): (r: Result<Vector>)
    requires a.Valid() && b.Valid()
    ensures r.Ok? <==> a.d == b.d && 1 <= a.d <= 3
    ensures a.d != b.d ==> r == Err(DimensionMismatch)
    ensures r.Ok? ==> r.value.Valid() && r.value.d == (if a.d == 1 then 1 else 3)
    ensures a.d == b.d == 1 ==> r.value.val == [a.val[0] * b.val[0]]
    ensures a.d == b.d == 2 ==> r.value.val[0] == 0.0 && r.value.val[1] == 0.0
  {
    if a.d != b.d then Err(DimensionMismatch)
    else if a.d == 1 then Ok(FromNum(a.val[0] * b.val[0]))
    else if a.d == 2 then
      Ok(FromList([0.0, 0.0, a.val[0] * b.val[1] - a.val[1] * b.val[0]]))
    else if a.d == 3 then
      Ok(FromList([a.val[1] * b.val[2] - a.val[2] * b.val[1],
                   a.val[2] * b.val[0] - a.val[0] * b.val[2],
                   a.val[0] * b.val[1] - a.val[1] * b.val[0]]))
    else Err(CannotCross(a.d, b.d))
  }

  /** For 1-vectors the product commutes; for 2- and 3-vectors it changes sign when the
      operands are exchanged. */
  lemma CrossSwapped(a: Vector, b: Vector)
    requires a.Valid() && b.Valid() && a.d == b.d && 1 <= a.d <= 3
    ensures a.d == 1 ==> CrossProduct(b, a) == CrossProduct(a, b)
    ensures a.d != 1 ==> forall i :: 0 <= i < 3 ==>
              CrossProduct(b, a).value.val[i] == -CrossProduct(a, b).value.val[i]
  {
    if a.d == 1 {
      assert b.val[0] * a.val[0] == a.val[0] * b.val[0];
    }
  }

  /** The 3-dimensional cross product is orthogonal to both operands. */
  lemma CrossOrthogonal(a: Vector, b: Vector)
    requires a.Valid() && b.Valid() && a.d == 3 && b.d == 3
    ensures DotSum(a.val, CrossProduct(a, b).value.val, 3) == 0.0
    ensures DotSum(b.val, CrossProduct(a, b).value.val, 3) == 0.0
  {
    var c := CrossProduct(a, b).value.val;
    var a0, a1, a2 := a.val[0], a.val[1], a.val[2];
    var b0, b1, b2 := b.val[0], b.val[1], b.val[2];
    assert DotSum(a.val, c, 1) == a0 * c[0];
    assert DotSum(a.val, c, 2) == a0 * c[0] + a1 * c[1];
    assert DotSum(a.val, c, 3) == a0 * c[0] + a1 * c[1] + a2 * c[2];
    assert DotSum(b.val, c, 1) == b0 * c[0];
    assert DotSum(b.val, c, 2) == b0 * c[0] + b1 * c[1];
    assert DotSum(b.val, c, 3) == b0 * c[0] + b1 * c[1] + b2 * c[2];
    assert a0 * (a1 * b2 - a2 * b1) + a1 * (a2 * b0 - a0 * b2) + a2 * (a0 * b1 - a1 * b0) == 0.0;
    assert b0 * (a1 * b2 - a2 * b1) + b1 * (a2 * b0 - a0 * b2) + b2 * (a0 * b1 - a1 * b0) == 0.0;
  }

  /** A 2-vector read as a 3-vector in the plane z = 0. */
  function Lifted(v: Vector): (w: Vector)
    requires v.Valid() && v.d == 2
    ensures w.Valid() && w.d == 3 && w.val[0] == v.val[0] && w.val[1] == v.val[1] && w.val[2] == 0.0
  {
    Vector(v.val + [0.0], 3)
  }

  /** The 3-dimensional formula of cross_product, as one equation. */
  lemma CrossSpatial(a: Vector, b: Vector)
    requires a.Valid() && b.Valid() && a.d == 3 && b.d == 3
    ensures CrossProduct(a, b) == Ok(Vector([a.val[1] * b.val[2] - a.val[2] * b.val[1],
                                             a.val[2] * b.val[0] - a.val[0] * b.val[2],
                                             a.val[0] * b.val[1] - a.val[1] * b.val[0]], 3))
  {
    assert a.d == b.d && a.d != 1 && a.d != 2;
    var r := CrossProduct(a, b);
    assert r.Ok? && r.value.d == 3 && |r.value.val| == 3;
    assert r.value.val[0] == a.val[1] * b.val[2] - a.val[2] * b.val[1];
    assert r.value.val[1] == a.val[2] * b.val[0] - a.val[0] * b.val[2];
    assert r.value.val[2] == a.val[0] * b.val[1] - a.val[1] * b.val[0];
  }

  /** The product of two 2-vectors is the product of the 3-vectors they become with z = 0,
      which is how cross_product reads the planar case. */
  lemma CrossPlanarIsSpatial(a: Vector, b: Vector)
    requires a.Valid() && b.Valid() && a.d == 2 && b.d == 2
    ensures CrossProduct(a, b) == CrossProduct(Lifted(a), Lifted(b))
  {
    var la, lb := Lifted(a), Lifted(b);
    CrossSpatial(la, lb);
    var p, q := CrossProduct(a, b), CrossProduct(la, lb);
    assert a.d == b.d && a.d != 1;
    assert p.Ok? && q.Ok? && |p.value.val| == 3 && |q.value.val| == 3 && p.value.d == q.value.d == 3;
    assert p.value.val[0] == 0.0 == la.val[1] * lb.val[2] - la.val[2] * lb.val[1] == q.value.val[0];
    assert p.value.val[1] == 0.0 == la.val[2] * lb.val[0] - la.val[0] * lb.val[2] == q.value.val[1];
    assert p.value.val[2] == a.val[0] * b.val[1] - a.val[1] * b.val[0] == q.value.val[2];
    assert p.value.val == q.value.val;
  }

  /** The unit 3-vector along axis k. */
  function Unit(k: nat): (e: Vector)
    requires k < 3
    ensures e.Valid() && e.d == 3
    ensures forall i :: 0 <= i < 3 ==> e.val[i] == if i == k then 1.0 else 0.0
  {
    Vector(seq(3, i => if i == k then 1.0 else 0.0), 3)
  }

  /** The unit vectors multiply cyclically: e1 x e2 = e3, e2 x e3 = e1, e3 x e1 = e2. */
  lemma CrossOfUnits()
    ensures CrossProduct(Unit(0), Unit(1)) == Ok(Unit(2))
    ensures CrossProduct(Unit(1), Unit(2)) == Ok(Unit(0))
    ensures CrossProduct(Unit(2), Unit(0)) == Ok(Unit(1))
  {
    assert CrossProduct(Unit(0), Unit(1)).value.val == [0.0, 0.0, 1.0] == Unit(2).val;
    assert CrossProduct(Unit(1), Unit(2)).value.val == [1.0, 0.0, 0.0] == Unit(0).val;
    assert CrossProduct(Unit(2), Unit(0)).value.val == [0.0, 1.0, 0.0] == Unit(1).val;
  }

  /** The 3-vector s a + t c. */
  function Combined(s: real, a: Vector, t: real, c: Vector): (w: Vector)
    requires a.Valid() && c.Valid() && a.d == 3 && c.d == 3
    ensures w.Valid() && w.d == 3
    ensures forall i :: 0 <= i < 3 ==> w.val[i] == s * a.val[i] + t * c.val[i]
  {
    Vector([s * a.val[0] + t * c.val[0], s * a.val[1] + t * c.val[1], s * a.val[2] + t * c.val[2]], 3)
  }

  /** The 3-dimensional product is linear in its first operand; with CrossSwapped it is
      linear in the second too, so CrossOfUnits fixes every value. */
  lemma CrossLinearLeft(s: real, a: Vector, t: real, c: Vector, b: Vector)
    requires a.Valid() && b.Valid() && c.Valid() && a.d == 3 && b.d == 3 && c.d == 3
    ensures CrossProduct(Combined(s, a, t, c), b) ==
            Ok(Combined(s, CrossProduct(a, b).value, t, CrossProduct(c, b).value))
  {
    var w := Combined(s, a, t, c);
    CrossSpatial(a, b);
    CrossSpatial(c, b);
    CrossSpatial(w, b);
    var a0, a1, a2, c0, c1, c2 := a.val[0], a.val[1], a.val[2], c.val[0], c.val[1], c.val[2];
    var b0, b1, b2, w0, w1, w2 := b.val[0], b.val[1], b.val[2], w.val[0], w.val[1], w.val[2];
    LinearMinor(s, t, a1, c1, a2, c2, w1, w2, b1, b2);
    LinearMinor(s, t, a2, c2, a0, c0, w2, w0, b2, b0);
    LinearMinor(s, t, a0, c0, a1, c1, w0, w1, b0, b1);
    SameVector3(CrossProduct(w, b).value, Combined(s, CrossProduct(a, b).value, t, CrossProduct(c, b).value));
  }

  /** Two 3-vectors with the same three entries are equal. */
  lemma SameVector3(u: Vector, v: Vector)
    requires u.Valid() && v.Valid() && u.d == 3 && v.d == 3
    requires u.val[0] == v.val[0] && u.val[1] == v.val[1] && u.val[2] == v.val[2]
    ensures u == v
  {
    assert u.val == v.val;
  }

  /** One 2 by 2 minor of a combination s p + t q is the same combination of the minors. */
  lemma LinearMinor(s: real, t: real, p: real, q: real, r: real, u: real, wp: real, wr: real, m: real, n: real)
    requires wp == s * p + t * q && wr == s * r + t * u
    ensures wp * n - wr * m == s * (p * n - r * m) + t * (q * n - u * m)
  {
  }

  /** The sum of the first k element products. */
  function DotSum(a: seq<real>, b: seq<real>, k: nat): real
    requires k <= |a| && k <= |b|
  {
    if k == 0 then 0.0 else DotSum(a, b, k - 1) + a[k - 1] * b[k - 1]
  }

  lemma {:induction false} DotSumSymmetric(a: seq<real>, b: seq<real>, k: nat)
    requires k <= |a| && k <= |b|
    ensures DotSum(a, b, k) == DotSum(b, a, k)
  {
    if k > 0 {
      DotSumSymmetric(a, b, k - 1);
      assert a[k - 1] * b[k - 1] == b[k - 1] * a[k - 1];
    }
  }

  lemma {:induction false} DotSumSelfNonNegative(a: seq<real>, k: nat)
    requires k <= |a|
    ensures DotSum(a, a, k) >= 0.0
  {
    if k > 0 {
      DotSumSelfNonNegative(a, k - 1);
      assert a[k - 1] * a[k - 1] >= 0.0;
    }
  }

  /** dot_product: fails for an error vector or unequal dimensions; otherwise the sum of
      the element products. */
  method DotProduct(a: Vector, b: Vector) returns (r: Result<real>)
    requires a.Valid() && b.Valid()
    ensures !a.IsUsable() || !b.IsUsable() ==> r == Err(EmptyVectors)
    ensures a.IsUsable() && b.IsUsable() && a.d != b.d ==> r == Err(DimensionMismatch)
    ensures a.IsUsable() && b.IsUsable() && a.d == b.d ==> r == Ok(DotSum(a.val, b.val, a.d))
  {
    if !a.IsUsable() || !b.IsUsable() {
      return Err(EmptyVectors);
    } else if a.d != b.d {
      return Err(DimensionMismatch);
    }
    var result := 0.0;
    for i := 0 to a.d
      invariant result == DotSum(a.val, b.val, i)
    {
      result := result + a.val[i] * b.val[i];
    }
    r := Ok(result);
  }

  /** The element-wise sum, defined for equal dimensions. */
  function Sum(a: Vector, b: Vector): Result<Vector>
    requires a.Valid() && b.Valid()
  {
    if a.d != b.d then Err(DimensionMismatch)
    else Ok(Vector(seq(a.d, i requires 0 <= i < a.d => a.val[i] + b.val[i]), a.d))
  }

  /** The element-wise difference, defined for equal dimensions. */
  function Difference(a: Vector, b: Vector): Result<Vector>
    requires a.Valid() && b.Valid()
  {
    if a.d != b.d then Err(DimensionMismatch)
    else Ok(Vector(seq(a.d, i requires 0 <= i < a.d => a.val[i] - b.val[i]), a.d))
  }

  /** add: fails on unequal dimensions, otherwise fills a fresh zero vector with the sums. */
  method Add(a: Vector, b: Vector) returns (r: Result<Vector>)
    requires a.Valid() && b.Valid()
    ensures a.d != b.d ==> r == Err(DimensionMismatch)
    ensures a.d == b.d ==> r.Ok? && r.value.Valid() && r.value.d == a.d
    ensures r == Sum(a, b)
  {
    if a.d != b.d {
      return Err(DimensionMismatch);
    }
    var result := new real[a.d](_ => 0.0);
    for i := 0 to a.d
      invariant forall k :: 0 <= k < i ==> result[k] == a.val[k] + b.val[k]
    {
      result[i] := a.val[i] + b.val[i];
    }
    assert result[..] == Sum(a, b).value.val;
    r := Ok(Vector(result[..], a.d));
  }

  /** sub: fails on unequal dimensions, otherwise fills a fresh zero vector with the differences. */
  method Sub(a: Vector, b: Vector) returns (r: Result<Vector>)
    requires a.Valid() && b.Valid()
    ensures a.d != b.d ==> r == Err(DimensionMismatch)
    ensures a.d == b.d ==> r.Ok? && r.value.Valid() && r.value.d == a.d
    ensures r == Difference(a, b)
  {
    if a.d != b.d {
      return Err(DimensionMismatch);
    }
    var result := new real[a.d](_ => 0.0);
    for i := 0 to a.d
      invariant forall k :: 0 <= k < i ==> result[k] == a.val[k] - b.val[k]
    {
      result[i] := a.val[i] - b.val[i];
    }
    assert result[..] == Difference(a, b).value.val;
    r := Ok(Vector(result[..], a.d));
  }

  lemma SumCommutes(a: Vector, b: Vector)
    requires a.Valid() && b.Valid()
    ensures Sum(a, b) == Sum(b, a)
  {
    if a.d == b.d {
      assert Sum(a, b).value.val == Sum(b, a).value.val;
    }
  }

  /** Subtracting b undoes adding it. */
  lemma DifferenceUndoesSum(a: Vector, b: Vector)
    requires a.Valid() && b.Valid() && a.d == b.d
    ensures Sum(a, b).Ok? && Sum(a, b).value.Valid()
    ensures Difference(Sum(a, b).value, b) == Ok(a)
  {
    var s := Sum(a, b).value;
    assert Difference(s, b).value.val == a.val;
  }
}
