/** The 2-D point/vector container `Vxy` (opencsp/common/lib/geometry/Vxy.py).

    The source keeps a 2×N float array; here the array is the sequence of
    its N columns, so column i of `_data` is `v[i]`. Every operation is a
    pure function: the copies the source makes (`normalize`, `rotate`,
    `rotate_about`) leave the receiver untouched by construction. */
module Vxy {
  import opened Errors
  import opened RealSqrt

  /** One column of the store: a point or vector in the plane. */
  datatype Vec2 = Vec2(x: real, y: real)

  type Vxy = seq<Vec2>

  /** The first row (`Vxy.x`) and second row (`Vxy.y`) of the stored array. */
  function Xs(v: Vxy): (r: seq<real>)
    ensures |r| == |v|
    ensures forall i :: 0 <= i < |v| ==> r[i] == v[i].x
  {
    seq(|v|, i requires 0 <= i < |v| => v[i].x)
  }

  function Ys(v: Vxy): (r: seq<real>)
    ensures |r| == |v|
    ensures forall i :: 0 <= i < |v| ==> r[i] == v[i].y
  {
    seq(|v|, i requires 0 <= i < |v| => v[i].y)
  }

  /** Pairs two equally long rows into columns. */
  function Columns(xs: seq<real>, ys: seq<real>): (v: Vxy)
    requires |xs| == |ys|
    ensures Xs(v) == xs && Ys(v) == ys
  {
    seq(|xs|, i requires 0 <= i < |xs| => Vec2(xs[i], ys[i]))
  }

  lemma ColumnsOfRows(v: Vxy)
    ensures Columns(Xs(v), Ys(v)) == v
  {
  }

  // ------------------------------------------------------------------
  // Construction

  /** An element of a Python list handed to the constructor. */
  datatype Item = Scalar(value: real) | Row(values: seq<real>)

  /** What the constructor may receive: an ndarray (shape and row-major
      elements), a Python list or tuple, or something without a length. */
  datatype Input =
    | NdArray(shape: seq<nat>, elems: seq<real>)
    | PyList(items: seq<Item>)
    | PyScalar(value: real)

  function Product(shape: seq<nat>): nat {
    if |shape| == 0 then 1 else shape[0] * Product(shape[1..])
  }

  /** An ndarray holds exactly as many elements as its shape says. */
  predicate WellShaped(d: Input) {
    d.NdArray? ==> |d.elems| == Product(d.shape)
  }

  /** numpy's `squeeze`: drops every axis of length 1. */
  function Squeeze(shape: seq<nat>): (r: seq<nat>)
    ensures Product(r) == Product(shape)
    ensures forall i :: 0 <= i < |r| ==> r[i] != 1
  {
    if |shape| == 0 then []
    else if shape[0] == 1 then Squeeze(shape[1..])
    else
      var r := [shape[0]] + Squeeze(shape[1..]);
      assert r[1..] == Squeeze(shape[1..]);
      r
  }

  /** numpy's `reshape((2, -1))` of a flat row-major sequence of even length. */
  function Reshape2(elems: seq<real>): Vxy
    requires |elems| % 2 == 0
  {
    var h := |elems| / 2;
    Columns(elems[..h], elems[h..])
  }

  /** The two items of a list can form the two rows of a 2×N array:
      two scalars, or two rows of one length. */
  predicate RowsAgree(a: Item, b: Item) {
    (a.Scalar? && b.Scalar?) || (a.Row? && b.Row? && |a.values| == |b.values|)
  }

  function ItemRow(a: Item): seq<real> {
    match a
    case Scalar(x) => [x]
    case Row(xs) => xs
  }

  /** `Vxy.__init__`: validates the input's shape and stores it as 2×N. */
  function FromData(d: Input): (r: Result<Vxy>)
    requires WellShaped(d)
    ensures d.PyScalar? ==> r.Err? && r.error.TypeError?
    ensures d.PyList? ==> (r.Ok? <==> |d.items| == 2 && RowsAgree(d.items[0], d.items[1]))
    ensures d.PyList? && r.Ok? ==> Xs(r.value) == ItemRow(d.items[0]) && Ys(r.value) == ItemRow(d.items[1])
    ensures d.NdArray? ==>
      var sq := Squeeze(d.shape);
      (r.Ok? <==> (|sq| == 1 && |d.elems| % 2 == 0) || (|sq| == 2 && sq[0] == 2))
    ensures d.NdArray? && r.Ok? ==> Xs(r.value) + Ys(r.value) == d.elems
    ensures !d.PyScalar? && r.Err? ==> r.error.ValueError?
  {
    match d
    case NdArray(shape, elems) =>
      var sq := Squeeze(shape);
      if |sq| != 1 && |sq| != 2 then Err(ValueError("ndarray must have 1 or 2 dimensions"))
      else if |sq| == 2 && sq[0] != 2 then Err(ValueError("first dimension must be 2"))
      else if |elems| % 2 != 0 then Err(ValueError("cannot reshape into 2 rows"))
      else
        assert |sq| == 2 ==> |elems| == 2 * sq[1] by {
          if |sq| == 2 {
            assert Product(sq[1..]) == sq[1] by {
              assert sq[1..][1..] == [];
            }
          }
        }
        var h := |elems| / 2;
        assert elems[..h] + elems[h..] == elems;
        Ok(Reshape2(elems))
    case PyList(items) =>
      if |items| != 2 then Err(ValueError("input must have length 2"))
      else if !RowsAgree(items[0], items[1]) then Err(ValueError("rows of inhomogeneous length"))
      else Ok(Columns(ItemRow(items[0]), ItemRow(items[1])))
    case PyScalar(_) => Err(TypeError("input has no length"))
  }

  /** The array the source keeps in `_data`: shape (2, N), x row then y row. */
  function Stored(v: Vxy): (d: Input)
    ensures WellShaped(d)
  {
    assert Product([2, |v|]) == 2 * |v| by {
      assert [2, |v|][1..] == [|v|];
      assert [|v|][1..] == [];
      assert Product([|v|]) == |v| * Product([]);
    }
    NdArray([2, |v|], Xs(v) + Ys(v))
  }

  /** `_from_data` is lossless: rebuilding a Vxy from its own stored
      array gives it back, whatever N is (N = 1 squeezes to a 1-D array,
      which reshapes to the same 2×1 store). */
  lemma FromStoredData(v: Vxy)
    ensures FromData(Stored(v)) == Ok(v)
  {
    var d := Stored(v);
    var sq := Squeeze(d.shape);
    if |v| == 1 {
      assert sq == [2] by {
        assert d.shape[1..] == [1];
        assert Squeeze([1]) == Squeeze([1][1..]);
        assert [2] + Squeeze([1]) == [2];
      }
    } else {
      assert sq == [2, |v|] by {
        assert d.shape[1..] == [|v|];
        assert Squeeze([|v|]) == [|v|] + Squeeze([|v|][1..]);
        assert Squeeze([|v|]) == [|v|];
      }
    }
    var r := FromData(d);
    assert r.Ok?;
    assert Xs(r.value) + Ys(r.value) == Xs(v) + Ys(v);
    assert Xs(r.value) == Xs(v) by {
      assert Xs(r.value) == (Xs(r.value) + Ys(r.value))[..|v|];
      assert Xs(v) == (Xs(v) + Ys(v))[..|v|];
    }
    assert Ys(r.value) == Ys(v) by {
      assert Ys(r.value) == (Xs(r.value) + Ys(r.value))[|v|..];
      assert Ys(v) == (Xs(v) + Ys(v))[|v|..];
    }
    ColumnsOfRows(r.value);
    ColumnsOfRows(v);
  }

  /** Building a Vxy from the list of its two rows gives it back. */
  lemma FromRowList(v: Vxy)
    ensures FromData(PyList([Row(Xs(v)), Row(Ys(v))])) == Ok(v)
  {
    ColumnsOfRows(v);
  }

  /** `__len__`: the column count N of the stored (2, N) array. */
  function Len(v: Vxy): (n: nat)
    ensures Stored(v).shape == [2, n]
  {
    |v|
  }

  // ------------------------------------------------------------------
  // Columnwise arithmetic

  /** The right operand of `+`, `-`, `*`, `dot` and `cross`. `Number`
      stands for the int, float, float32 and float64 scalars `__mul__`
      accepts; `Array1` for a 1-D ndarray; `OtherType` for anything
      else (bool, numpy integer scalars, strings, ...). */
  datatype Operand = OfVxy(v: Vxy) | Number(k: real) | Array1(factors: seq<real>) | OtherType

  /** numpy broadcasting of two column counts: equal, or one of them is 1. */
  function Broadcast(n: nat, m: nat): (r: Option<nat>)
    ensures r.Some? <==> n == m || n == 1 || m == 1
    ensures r.Some? ==> (r.value == n || n == 1) && (r.value == m || m == 1)
  {
    if n == m then Some(n)
    else if n == 1 then Some(m)
    else if m == 1 then Some(n)
    else None
  }

  /** Element i of a broadcast operand: a single column stands for all. */
  function Pick<T>(s: seq<T>, i: nat): T
    requires |s| == 1 || i < |s|
  {
    if |s| == 1 then s[0] else s[i]
  }

  /** Applies `f` to the broadcast pairs of columns of `a` and `b`. */
  function Combine<T>(a: Vxy, b: Vxy, f: (Vec2, Vec2) -> T): (r: Result<seq<T>>)
    ensures r.Ok? <==> Broadcast(|a|, |b|).Some?
    ensures r.Err? ==> r.error.ValueError?
    ensures r.Ok? ==> |r.value| == Broadcast(|a|, |b|).value
    ensures r.Ok? ==> forall i :: 0 <= i < |r.value| ==> r.value[i] == f(Pick(a, i), Pick(b, i))
  {
    match Broadcast(|a|, |b|)
    case None => Err(ValueError("operands could not be broadcast together"))
    case Some(n) => Ok(seq(n, i requires 0 <= i < n => f(Pick(a, i), Pick(b, i))))
  }

  function Plus(p: Vec2, q: Vec2): Vec2 { Vec2(p.x + q.x, p.y + q.y) }

  function Minus(p: Vec2, q: Vec2): Vec2 { Vec2(p.x - q.x, p.y - q.y) }

  function Times(p: Vec2, q: Vec2): Vec2 { Vec2(p.x * q.x, p.y * q.y) }

  /** `__add__`: columnwise sum; only another Vxy is accepted. */
  function Add(a: Vxy, b: Operand): (r: Result<Vxy>)
    ensures !b.OfVxy? ==> r.Err? && r.error.TypeError?
    ensures b.OfVxy? ==> (r.Ok? <==> Broadcast(|a|, |b.v|).Some?)
    ensures b.OfVxy? && |a| == |b.v| ==> r.Ok? && |r.value| == |a|
    ensures b.OfVxy? && r.Ok? ==> |r.value| == Broadcast(|a|, |b.v|).value
    ensures b.OfVxy? && r.Ok? ==> forall i :: 0 <= i < |r.value| ==>
      r.value[i].x == Pick(a, i).x + Pick(b.v, i).x && r.value[i].y == Pick(a, i).y + Pick(b.v, i).y
  {
    if !b.OfVxy? then Err(TypeError("operand must be Vxy"))
    else Combine(a, b.v, Plus)
  }

  /** `__sub__`: columnwise difference; only another Vxy is accepted. */
  function Sub(a: Vxy, b: Operand): (r: Result<Vxy>)
    ensures !b.OfVxy? ==> r.Err? && r.error.TypeError?
    ensures b.OfVxy? ==> (r.Ok? <==> Broadcast(|a|, |b.v|).Some?)
    ensures b.OfVxy? && |a| == |b.v| ==> r.Ok? && |r.value| == |a|
    ensures b.OfVxy? && r.Ok? ==> |r.value| == Broadcast(|a|, |b.v|).value
    ensures b.OfVxy? && r.Ok? ==> forall i :: 0 <= i < |r.value| ==>
      r.value[i].x == Pick(a, i).x - Pick(b.v, i).x && r.value[i].y == Pick(a, i).y - Pick(b.v, i).y
  {
    if !b.OfVxy? then Err(TypeError("operand must be Vxy"))
    else Combine(a, b.v, Minus)
  }

  /** `__mul__`: scales by a number, multiplies columnwise by a Vxy, or
      scales column i by element i of a 1-D array. */
  function Mul(a: Vxy, b: Operand): (r: Result<Vxy>)
    ensures b.OtherType? ==> r.Err? && r.error.TypeError?
    ensures b.Number? ==> r.Ok? && |r.value| == |a|
    ensures b.Number? ==> forall i :: 0 <= i < |a| ==> r.value[i] == Vec2(b.k * a[i].x, b.k * a[i].y)
    ensures b.OfVxy? ==> (r.Ok? <==> Broadcast(|a|, |b.v|).Some?)
    ensures b.OfVxy? && r.Ok? ==> |r.value| == Broadcast(|a|, |b.v|).value
    ensures b.OfVxy? && r.Ok? ==> forall i :: 0 <= i < |r.value| ==>
      r.value[i] == Vec2(Pick(a, i).x * Pick(b.v, i).x, Pick(a, i).y * Pick(b.v, i).y)
    ensures b.Array1? ==> (r.Ok? <==> Broadcast(|a|, |b.factors|).Some?)
    ensures b.Array1? && r.Ok? ==> |r.value| == Broadcast(|a|, |b.factors|).value
    ensures b.Array1? && r.Ok? ==> forall i :: 0 <= i < |r.value| ==>
      r.value[i] == Vec2(Pick(a, i).x * Pick(b.factors, i), Pick(a, i).y * Pick(b.factors, i))
  {
    match b
    case Number(k) => Ok(seq(|a|, i requires 0 <= i < |a| => Vec2(k * a[i].x, k * a[i].y)))
    case OfVxy(w) => Combine(a, w, Times)
    case Array1(f) => Combine(a, seq(|f|, i requires 0 <= i < |f| => Vec2(f[i], f[i])), Times)
    case OtherType => Err(TypeError("Vxy cannot be multiplied by this type"))
  }

  /** `__neg__`. */
  function Neg(v: Vxy): (r: Vxy)
    ensures |r| == |v|
    ensures forall i :: 0 <= i < |v| ==> r[i].x == -v[i].x && r[i].y == -v[i].y
  {
    seq(|v|, i requires 0 <= i < |v| => Vec2(-v[i].x, -v[i].y))
  }

  lemma {:induction false} AddCommutes(a: Vxy, b: Vxy)
    ensures Add(a, OfVxy(b)) == Add(b, OfVxy(a))
  {
    var r1 := Add(a, OfVxy(b));
    var r2 := Add(b, OfVxy(a));
    if r1.Ok? {
      assert |r1.value| == |r2.value|;
      forall i | 0 <= i < |r1.value|
        ensures r1.value[i] == r2.value[i]
      {
      }
      assert r1.value == r2.value;
    }
  }

  /** Subtracting is adding the negation. */
  lemma {:induction false} SubIsAddOfNeg(a: Vxy, b: Vxy)
    ensures Sub(a, OfVxy(b)) == Add(a, OfVxy(Neg(b)))
  {
    var r1 := Sub(a, OfVxy(b));
    var r2 := Add(a, OfVxy(Neg(b)));
    if r1.Ok? {
      assert |r1.value| == |r2.value|;
      forall i | 0 <= i < |r1.value|
        ensures r1.value[i] == r2.value[i]
      {
      }
      assert r1.value == r2.value;
    }
  }

  /** Adding back what was subtracted restores the original. */
  lemma {:induction false} AddUndoesSub(a: Vxy, b: Vxy)
    requires |a| == |b|
    ensures Sub(a, OfVxy(b)).Ok?
    ensures Add(Sub(a, OfVxy(b)).value, OfVxy(b)) == Ok(a)
  {
    var d := Sub(a, OfVxy(b)).value;
    var r := Add(d, OfVxy(b));
    assert r.Ok? && |r.value| == |a|;
    forall i | 0 <= i < |a|
      ensures r.value[i] == a[i]
    {
    }
    assert r.value == a;
  }

  lemma NegInvolution(v: Vxy)
    ensures Neg(Neg(v)) == v
  {
  }

  /** Multiplying by the number -1 is negation. */
  lemma {:induction false} MulByMinusOneIsNeg(v: Vxy)
    ensures Mul(v, Number(-1.0)) == Ok(Neg(v))
  {
    var r := Mul(v, Number(-1.0));
    forall i | 0 <= i < |v|
      ensures r.value[i] == Neg(v)[i]
    {
    }
    assert r.value == Neg(v);
  }

  // ------------------------------------------------------------------
  // Magnitude and normalisation

  function SqNorm(p: Vec2): real { p.x * p.x + p.y * p.y }

  predicate IsZero(p: Vec2) { p.x == 0.0 && p.y == 0.0 }

  predicate HasZeroColumn(v: Vxy) {
    exists i :: 0 <= i < |v| && IsZero(v[i])
  }

  /** p points the same way as q: parallel, and not opposite. */
  predicate SameDirection(p: Vec2, q: Vec2) {
    p.x * q.y == p.y * q.x && 0.0 < p.x * q.x + p.y * q.y
  }

  lemma SqNormFacts(p: Vec2, sqrt: real -> real)
    requires IsSqrt(sqrt)
    ensures 0.0 <= SqNorm(p)
    ensures 0.0 <= sqrt(SqNorm(p)) && sqrt(SqNorm(p)) * sqrt(SqNorm(p)) == SqNorm(p)
    ensures sqrt(SqNorm(p)) == 0.0 <==> IsZero(p)
  {
    SumOfSquares(p.x, p.y, SqNorm(p));
    SqrtZeroIff(sqrt, SqNorm(p));
  }

  /** `magnitude`: the Euclidean length of every column. */
  function Magnitude(v: Vxy, sqrt: real -> real): (m: seq<real>)
    requires IsSqrt(sqrt)
    ensures |m| == |v|
    ensures forall i :: 0 <= i < |v| ==> 0.0 <= m[i] && m[i] * m[i] == SqNorm(v[i])
    ensures forall i :: 0 <= i < |v| ==> (m[i] == 0.0 <==> IsZero(v[i]))
  {
    var m := seq(|v|, i requires 0 <= i < |v| => sqrt(SqNorm(v[i])));
    assert forall i :: 0 <= i < |v| ==> 0.0 <= m[i] && m[i] * m[i] == SqNorm(v[i]) && (m[i] == 0.0 <==> IsZero(v[i])) by {
      forall i | 0 <= i < |v| {
        SqNormFacts(v[i], sqrt);
      }
    }
    m
  }

  /** Dividing a non-zero vector by its length gives a unit vector
      pointing the same way. */
  lemma UnitAfterDivision(p: Vec2, m: real)
    requires 0.0 < m && m * m == SqNorm(p)
    ensures SqNorm(Vec2(p.x / m, p.y / m)) == 1.0
    ensures SameDirection(Vec2(p.x / m, p.y / m), p)
  {
    UnitScale(p.x, p.y, m);
    var u := p.x / m;
    var w := p.y / m;
    assert u * m == p.x && w * m == p.y;
    assert u * p.y == w * p.x;
    var d := u * p.x + w * p.y;
    assert d * m == m * m;
    Cancel(d, m, m);
  }

  /** Divides every column by its (non-zero) length. */
  function DivideByLength(v: Vxy, m: seq<real>): (u: Vxy)
    requires |m| == |v|
    requires forall i :: 0 <= i < |v| ==> 0.0 < m[i] && m[i] * m[i] == SqNorm(v[i])
    ensures |u| == |v|
    ensures forall i :: 0 <= i < |v| ==> SqNorm(u[i]) == 1.0 && SameDirection(u[i], v[i])
  {
    var u := seq(|v|, i requires 0 <= i < |v| => Vec2(v[i].x / m[i], v[i].y / m[i]));
    assert forall i :: 0 <= i < |v| ==> SqNorm(u[i]) == 1.0 && SameDirection(u[i], v[i]) by {
      forall i | 0 <= i < |v| {
        UnitAfterDivision(v[i], m[i]);
      }
    }
    u
  }

  /** `normalize` (and `normalize_in_place` on a copy): every column
      scaled to unit length; a zero column raises ValueError. */
  function Normalize(v: Vxy, sqrt: real -> real): (r: Result<Vxy>)
    requires IsSqrt(sqrt)
    ensures r.Err? <==> HasZeroColumn(v)
    ensures r.Err? ==> r.error.ValueError?
    ensures r.Ok? ==> |r.value| == |v|
    ensures r.Ok? ==> forall i :: 0 <= i < |v| ==> SqNorm(r.value[i]) == 1.0 && SameDirection(r.value[i], v[i])
  {
    var m := Magnitude(v, sqrt);
    if HasZeroColumn(v) then
      Err(ValueError("vector contains zero vector, cannot normalize"))
    else
      assert forall i :: 0 <= i < |v| ==> 0.0 < m[i] && m[i] * m[i] == SqNorm(v[i]);
      Ok(DivideByLength(v, m))
  }

  /** Normalising twice is normalising once. */
  lemma {:induction false} NormalizeIdempotent(v: Vxy, sqrt: real -> real)
    requires IsSqrt(sqrt)
    requires Normalize(v, sqrt).Ok?
    ensures Normalize(Normalize(v, sqrt).value, sqrt) == Normalize(v, sqrt)
  {
    var u := Normalize(v, sqrt).value;
    SqrtOne(sqrt);
    var m := Magnitude(u, sqrt);
    forall i | 0 <= i < |u|
      ensures m[i] == 1.0
    {
    }
    assert !HasZeroColumn(u);
    var w := Normalize(u, sqrt).value;
    forall i | 0 <= i < |u|
      ensures w[i] == u[i]
    {
    }
    assert w == u;
  }

  // ------------------------------------------------------------------
  // Rotation

  /** A 2×2 matrix [[a, b], [c, d]]. */
  datatype Mat2 = Mat2(a: real, b: real, c: real, d: real)

  function Apply(m: Mat2, p: Vec2): Vec2 {
    Vec2(m.a * p.x + m.b * p.y, m.c * p.x + m.d * p.y)
  }

  function Transpose(m: Mat2): Mat2 { Mat2(m.a, m.c, m.b, m.d) }

  /** A rotation (or reflection): its columns are orthonormal. */
  predicate Orthonormal(m: Mat2) {
    m.a * m.a + m.c * m.c == 1.0 && m.b * m.b + m.d * m.d == 1.0 && m.a * m.b + m.c * m.d == 0.0
  }

  /** The ndarray the source would be handed for `m`. */
  function AsArray(m: Mat2): (r: Input)
    ensures WellShaped(r)
  {
    assert Product([2, 2]) == 4 by {
      assert [2, 2][1..] == [2];
      assert [2][1..] == [];
    }
    NdArray([2, 2], [m.a, m.b, m.c, m.d])
  }

  /** The checks `rotate_in_place` makes of its argument R. */
  function RotationArg(r: Input): (res: Result<Mat2>)
    requires WellShaped(r)
    ensures res.Ok? <==> r.NdArray? && r.shape == [2, 2]
    ensures !r.NdArray? ==> res.Err? && res.error.TypeError?
    ensures r.NdArray? && res.Err? ==> res.error.ValueError?
  {
    if !r.NdArray? then Err(TypeError("rotation must be an ndarray"))
    else if r.shape != [2, 2] then Err(ValueError("rotation matrix must have shape (2, 2)"))
    else
      assert |r.elems| == 4 by {
        assert r.shape[1..] == [2];
        assert [2][1..] == [];
        assert Product([2]) == 2 * Product([]);
      }
      Ok(Mat2(r.elems[0], r.elems[1], r.elems[2], r.elems[3]))
  }

  lemma RotationArgOfArray(m: Mat2)
    ensures RotationArg(AsArray(m)) == Ok(m)
  {
  }

  /** `rotate` (and `rotate_in_place` on a copy): every column becomes R·column. */
  function Rotate(v: Vxy, r: Input): (res: Result<Vxy>)
    requires WellShaped(r)
    ensures res.Ok? <==> RotationArg(r).Ok?
    ensures res.Err? ==> res.error == RotationArg(r).error
    ensures res.Ok? ==> |res.value| == |v|
    ensures res.Ok? ==> forall i :: 0 <= i < |v| ==> res.value[i] == Apply(RotationArg(r).value, v[i])
  {
    var m :- RotationArg(r);
    Ok(seq(|v|, i requires 0 <= i < |v| => Apply(m, v[i])))
  }

  lemma OrthonormalKeepsLength(m: Mat2, p: Vec2)
    requires Orthonormal(m)
    ensures SqNorm(Apply(m, p)) == SqNorm(p)
  {
    var q := Apply(m, p);
    assert q.x * q.x == m.a * m.a * (p.x * p.x) + 2.0 * (m.a * m.b) * (p.x * p.y) + m.b * m.b * (p.y * p.y);
    assert q.y * q.y == m.c * m.c * (p.x * p.x) + 2.0 * (m.c * m.d) * (p.x * p.y) + m.d * m.d * (p.y * p.y);
    assert SqNorm(q) == (m.a * m.a + m.c * m.c) * (p.x * p.x) + 2.0 * (m.a * m.b + m.c * m.d) * (p.x * p.y)
                        + (m.b * m.b + m.d * m.d) * (p.y * p.y);
  }

  lemma TransposeUndoes(m: Mat2, p: Vec2)
    requires Orthonormal(m)
    ensures Apply(Transpose(m), Apply(m, p)) == p
  {
    var q := Apply(Transpose(m), Apply(m, p));
    assert q.x == (m.a * m.a + m.c * m.c) * p.x + (m.a * m.b + m.c * m.d) * p.y;
    assert q.y == (m.a * m.b + m.c * m.d) * p.x + (m.b * m.b + m.d * m.d) * p.y;
  }

  /** A rotation matrix keeps every column's length. */
  lemma {:induction false} RotatePreservesMagnitude(v: Vxy, m: Mat2)
    requires Orthonormal(m)
    ensures Rotate(v, AsArray(m)).Ok?
    ensures forall i :: 0 <= i < |v| ==> SqNorm(Rotate(v, AsArray(m)).value[i]) == SqNorm(v[i])
  {
    RotationArgOfArray(m);
    forall i | 0 <= i < |v| {
      OrthonormalKeepsLength(m, v[i]);
    }
  }

  /** Rotating by R and then by its transpose gives the points back. */
  lemma {:induction false} RotateRoundTrip(v: Vxy, m: Mat2)
    requires Orthonormal(m)
    ensures Rotate(v, AsArray(m)).Ok?
    ensures Rotate(Rotate(v, AsArray(m)).value, AsArray(Transpose(m))) == Ok(v)
  {
    RotationArgOfArray(m);
    RotationArgOfArray(Transpose(m));
    var w := Rotate(v, AsArray(m)).value;
    var u := Rotate(w, AsArray(Transpose(m))).value;
    forall i | 0 <= i < |v|
      ensures u[i] == v[i]
    {
      TransposeUndoes(m, v[i]);
    }
    assert u == v;
  }

  /** The pivot of an in-place `-=`/`+=` must broadcast to the receiver's
      own N columns. */
  predicate PivotFits(v: Vxy, pivot: Vxy) {
    |pivot| == |v| || |pivot| == 1
  }

  /** Shifts every column by `sign` times the (broadcast) pivot. */
  function Shift(v: Vxy, pivot: Vxy, sign: real): (r: Vxy)
    requires PivotFits(v, pivot)
    ensures |r| == |v|
  {
    seq(|v|, i requires 0 <= i < |v| => Vec2(v[i].x + sign * Pick(pivot, i).x, v[i].y + sign * Pick(pivot, i).y))
  }

  /** The receiver's data after an in-place operation, and the exception
      raised, if any. */
  datatype Mutation = Mutation(data: Vxy, raised: Option<Error>)

  /** `rotate_about_in_place` as written: the pivot is subtracted before R
      is checked, so a bad R leaves the receiver shifted by -pivot. */
  function RotateAboutInPlaceAsWritten(v: Vxy, r: Input, pivot: Vxy): (m: Mutation)
    requires WellShaped(r)
    ensures |m.data| == |v|
    ensures m.raised.None? <==> RotationArg(r).Ok? && PivotFits(v, pivot)
    ensures !PivotFits(v, pivot) ==> m.data == v && m.raised.Some? && m.raised.value.ValueError?
    ensures PivotFits(v, pivot) && RotationArg(r).Err? ==>
      m.raised == Some(RotationArg(r).error) && forall i :: 0 <= i < |v| ==> m.data[i] == Minus(v[i], Pick(pivot, i))
    ensures m.raised.None? ==> forall i :: 0 <= i < |v| ==>
      Minus(m.data[i], Pick(pivot, i)) == Apply(RotationArg(r).value, Minus(v[i], Pick(pivot, i)))
  {
    if !PivotFits(v, pivot) then Mutation(v, Some(ValueError("non-broadcastable output operand")))
    else
      var shifted := Shift(v, pivot, -1.0);
      match Rotate(shifted, r)
      case Err(e) => Mutation(shifted, Some(e))
      case Ok(w) => Mutation(Shift(w, pivot, 1.0), None)
  }

  /** With a pivot that is not the origin and an argument that is not an
      ndarray, the as-written method raises TypeError and still changes
      the receiver. */
  lemma RotateAboutAsWrittenMutatesOnError()
    ensures var m := RotateAboutInPlaceAsWritten([Vec2(1.0, 1.0)], PyScalar(0.0), [Vec2(1.0, 0.0)]);
      m.raised.Some? && m.raised.value.TypeError? && m.data == [Vec2(0.0, 1.0)]
  {
    var m := RotateAboutInPlaceAsWritten([Vec2(1.0, 1.0)], PyScalar(0.0), [Vec2(1.0, 0.0)]);
    assert m.data[0] == Vec2(0.0, 1.0);
  }

  /** The same holds for every receiver and non-zero pivot: the data left
      behind differs from the original. */
  lemma {:induction false} RotateAboutAsWrittenCorruptsReceiver(v: Vxy, r: Input, pivot: Vxy)
    requires WellShaped(r) && RotationArg(r).Err?
    requires PivotFits(v, pivot) && |v| > 0 && !IsZero(pivot[0])
    ensures RotateAboutInPlaceAsWritten(v, r, pivot).raised.Some?
    ensures RotateAboutInPlaceAsWritten(v, r, pivot).data != v
  {
    var m := RotateAboutInPlaceAsWritten(v, r, pivot);
    assert m.data[0] != v[0];
  }

  /** `rotate_about_in_place` with the argument checks made before the
      receiver is touched: on any exception the data is unchanged. */
  function RotateAboutInPlace(v: Vxy, r: Input, pivot: Vxy): (m: Mutation)
    requires WellShaped(r)
    ensures m.raised.Some? ==> m.data == v
    ensures m.raised.None? <==> RotationArg(r).Ok? && PivotFits(v, pivot)
    ensures m.raised.None? ==> |m.data| == |v|
    ensures m.raised.None? ==> forall i :: 0 <= i < |v| ==>
      Minus(m.data[i], Pick(pivot, i)) == Apply(RotationArg(r).value, Minus(v[i], Pick(pivot, i)))
  {
    if !PivotFits(v, pivot) then Mutation(v, Some(ValueError("non-broadcastable output operand")))
    else match RotationArg(r)
      case Err(e) => Mutation(v, Some(e))
      case Ok(_) =>
        var w := Rotate(Shift(v, pivot, -1.0), r).value;
        Mutation(Shift(w, pivot, 1.0), None)
  }

  /** `rotate_about`: rotation about a pivot, on a copy. */
  function RotateAbout(v: Vxy, r: Input, pivot: Vxy): (res: Result<Vxy>)
    requires WellShaped(r)
    ensures res.Ok? <==> RotationArg(r).Ok? && PivotFits(v, pivot)
    ensures res.Ok? ==> |res.value| == |v|
    ensures res.Ok? ==> forall i :: 0 <= i < |v| ==>
      Minus(res.value[i], Pick(pivot, i)) == Apply(RotationArg(r).value, Minus(v[i], Pick(pivot, i)))
  {
    var m := RotateAboutInPlace(v, r, pivot);
    if m.raised.Some? then Err(m.raised.value) else Ok(m.data)
  }

  /** The copy the source makes hides the as-written defect: `rotate_about`
      built on either in-place variant returns the same thing. */
  lemma RotateAboutCopyAgrees(v: Vxy, r: Input, pivot: Vxy)
    requires WellShaped(r)
    ensures var m := RotateAboutInPlaceAsWritten(v, r, pivot);
      RotateAbout(v, r, pivot) == if m.raised.Some? then Err(m.raised.value) else Ok(m.data)
  {
  }

  /** The pivot itself does not move. */
  lemma {:induction false} PivotIsFixed(p: Vec2, m: Mat2)
    ensures RotateAbout([p], AsArray(m), [p]) == Ok([p])
  {
    RotationArgOfArray(m);
    var res := RotateAbout([p], AsArray(m), [p]);
    assert Minus(p, p) == Vec2(0.0, 0.0);
    assert Apply(m, Vec2(0.0, 0.0)) == Vec2(0.0, 0.0);
    assert Minus(res.value[0], p) == Vec2(0.0, 0.0);
    assert res.value == [p];
  }

  /** A rotation keeps every point's distance to the pivot. */
  lemma {:induction false} RotateAboutKeepsDistanceToPivot(v: Vxy, m: Mat2, p: Vec2)
    requires Orthonormal(m)
    ensures RotateAbout(v, AsArray(m), [p]).Ok?
    ensures forall i :: 0 <= i < |v| ==>
      SqNorm(Minus(RotateAbout(v, AsArray(m), [p]).value[i], p)) == SqNorm(Minus(v[i], p))
  {
    RotationArgOfArray(m);
    var w := RotateAbout(v, AsArray(m), [p]).value;
    forall i | 0 <= i < |v|
      ensures SqNorm(Minus(w[i], p)) == SqNorm(Minus(v[i], p))
    {
      OrthonormalKeepsLength(m, Minus(v[i], p));
    }
  }

  /** Rotating about the origin is plain rotation. */
  lemma {:induction false} RotateAboutOrigin(v: Vxy, r: Input)
    requires WellShaped(r) && RotationArg(r).Ok?
    ensures RotateAbout(v, r, [Vec2(0.0, 0.0)]) == Rotate(v, r)
  {
    var a := RotateAbout(v, r, [Vec2(0.0, 0.0)]).value;
    var b := Rotate(v, r).value;
    forall i | 0 <= i < |v|
      ensures a[i] == b[i]
    {
    }
    assert a == b;
  }

  // ------------------------------------------------------------------
  // Products

  function DotOf(p: Vec2, q: Vec2): real { p.x * q.x + p.y * q.y }

  function CrossOf(p: Vec2, q: Vec2): real { p.x * q.y - p.y * q.x }

  /** `dot`: per-column dot product of broadcast operands. */
  function Dot(a: Vxy, b: Operand): (r: Result<seq<real>>)
    ensures !b.OfVxy? ==> r.Err? && r.error.TypeError?
    ensures b.OfVxy? ==> (r.Ok? <==> Broadcast(|a|, |b.v|).Some?)
    ensures b.OfVxy? && r.Ok? ==> |r.value| == Broadcast(|a|, |b.v|).value
    ensures b.OfVxy? && r.Ok? ==> forall i :: 0 <= i < |r.value| ==>
      r.value[i] == Pick(a, i).x * Pick(b.v, i).x + Pick(a, i).y * Pick(b.v, i).y
  {
    if !b.OfVxy? then Err(TypeError("operand must be Vxy"))
    else Combine(a, b.v, DotOf)
  }

  /** `cross`: the z component x1·y2 - y1·x2 of the broadcast columns. */
  function Cross(a: Vxy, b: Operand): (r: Result<seq<real>>)
    ensures !b.OfVxy? ==> r.Err? && r.error.TypeError?
    ensures b.OfVxy? ==> (r.Ok? <==> Broadcast(|a|, |b.v|).Some?)
    ensures b.OfVxy? && r.Ok? ==> |r.value| == Broadcast(|a|, |b.v|).value
    ensures b.OfVxy? && r.Ok? ==> forall i :: 0 <= i < |r.value| ==>
      r.value[i] == Pick(a, i).x * Pick(b.v, i).y - Pick(a, i).y * Pick(b.v, i).x
  {
    if !b.OfVxy? then Err(TypeError("operand must be Vxy"))
    else Combine(a, b.v, CrossOf)
  }

  lemma {:induction false} DotSymmetric(a: Vxy, b: Vxy)
    ensures Dot(a, OfVxy(b)) == Dot(b, OfVxy(a))
  {
    var r1 := Dot(a, OfVxy(b));
    var r2 := Dot(b, OfVxy(a));
    if r1.Ok? {
      forall i | 0 <= i < |r1.value|
        ensures r1.value[i] == r2.value[i]
      {
      }
      assert r1.value == r2.value;
    }
  }

  lemma {:induction false} CrossAntisymmetric(a: Vxy, b: Vxy)
    ensures Cross(a, OfVxy(b)).Ok? <==> Cross(b, OfVxy(a)).Ok?
    ensures Cross(a, OfVxy(b)).Ok? ==>
      var r1 := Cross(a, OfVxy(b)).value;
      var r2 := Cross(b, OfVxy(a)).value;
      |r1| == |r2| && forall i :: 0 <= i < |r1| ==> r1[i] == -r2[i]
  {
  }

  /** A vector crossed with itself is zero, column by column. */
  lemma {:induction false} CrossWithSelfIsZero(v: Vxy)
    ensures Cross(v, OfVxy(v)) == Ok(seq(|v|, i => 0.0))
  {
    var r := Cross(v, OfVxy(v)).value;
    forall i | 0 <= i < |v|
      ensures r[i] == 0.0
    {
    }
    assert r == seq(|v|, i => 0.0);
  }

  /** A vector dotted with itself is its squared magnitude. */
  lemma {:induction false} DotWithSelfIsSquaredMagnitude(v: Vxy, sqrt: real -> real)
    requires IsSqrt(sqrt)
    ensures Dot(v, OfVxy(v)).Ok?
    ensures forall i :: 0 <= i < |v| ==>
      Dot(v, OfVxy(v)).value[i] == Magnitude(v, sqrt)[i] * Magnitude(v, sqrt)[i]
  {
  }

  // ------------------------------------------------------------------
  // Indexing

  /** What `__getitem__` may receive: one (possibly negative) int, a
      boolean mask, a sequence of ints, or a tuple containing a slice. */
  datatype Key = At(k: int) | Mask(keep: seq<bool>) | Take(ks: seq<int>) | TupleWithSlice

  /** Python's reading of a possibly negative index into n columns. */
  predicate InBounds(k: int, n: nat) {
    -(n as int) <= k < n
  }

  function Wrap(k: int, n: nat): (i: int)
    ensures InBounds(k, n) ==> 0 <= i < n
    ensures InBounds(k, n) ==> i == k || i == k + n
  {
    if k < 0 then k + n else k
  }

  /** The columns at the given (in-bounds) indices, in the given order. */
  function TakeColumns(v: Vxy, ks: seq<int>): (r: Vxy)
    requires forall j :: 0 <= j < |ks| ==> InBounds(ks[j], |v|)
    ensures |r| == |ks|
    ensures forall j :: 0 <= j < |ks| ==> r[j] == v[Wrap(ks[j], |v|)]
  {
    seq(|ks|, j requires 0 <= j < |ks| => v[Wrap(ks[j], |v|)])
  }

  /** The columns at or after `lo` whose mask entry is true, in order. */
  function Select(v: Vxy, keep: seq<bool>, lo: nat): Vxy
    requires |keep| == |v| && lo <= |v|
    decreases |v| - lo
  {
    if lo == |v| then []
    else if keep[lo] then [v[lo]] + Select(v, keep, lo + 1)
    else Select(v, keep, lo + 1)
  }

  /** `__getitem__`: columns picked by an int, a mask or an int sequence;
      an index outside [-N, N) or a mask of the wrong length raises
      IndexError, a tuple with a slice raises ValueError. */
  function GetItem(v: Vxy, key: Key): (r: Result<Vxy>)
    ensures key.TupleWithSlice? ==> r.Err? && r.error.ValueError?
    ensures key.At? ==> (r.Ok? <==> InBounds(key.k, |v|))
    ensures key.At? && r.Ok? ==> r.value == [v[Wrap(key.k, |v|)]]
    ensures key.Take? ==> (r.Ok? <==> forall j :: 0 <= j < |key.ks| ==> InBounds(key.ks[j], |v|))
    ensures key.Take? && r.Ok? ==>
      (|r.value| == |key.ks| && forall j :: 0 <= j < |key.ks| ==> r.value[j] == v[Wrap(key.ks[j], |v|)])
    ensures key.Mask? ==> (r.Ok? <==> |key.keep| == |v|)
    ensures !key.TupleWithSlice? && r.Err? ==> r.error.IndexError?
  {
    match key
    case At(k) =>
      if InBounds(k, |v|) then Ok([v[Wrap(k, |v|)]]) else Err(IndexError)
    case Take(ks) =>
      if forall j :: 0 <= j < |ks| ==> InBounds(ks[j], |v|) then Ok(TakeColumns(v, ks))
      else Err(IndexError)
    case Mask(keep) =>
      if |keep| == |v| then Ok(Select(v, keep, 0)) else Err(IndexError)
    case TupleWithSlice => Err(ValueError("can only index over one dimension"))
  }

  /** The positions at or after `lo` of the true entries of a mask, in
      increasing order. */
  function TrueIndices(keep: seq<bool>, lo: nat): (r: seq<int>)
    requires lo <= |keep|
    ensures forall j :: 0 <= j < |r| ==> lo <= r[j] < |keep| && keep[r[j]]
    ensures forall j, k :: 0 <= j < k < |r| ==> r[j] < r[k]
    ensures forall i :: lo <= i < |keep| && keep[i] ==> i in r
    decreases |keep| - lo
  {
    if lo == |keep| then []
    else if keep[lo] then [lo] + TrueIndices(keep, lo + 1)
    else TrueIndices(keep, lo + 1)
  }

  lemma TakeColumnsCons(v: Vxy, k: nat, rest: seq<int>)
    requires k < |v| && forall j :: 0 <= j < |rest| ==> InBounds(rest[j], |v|)
    ensures forall j :: 0 <= j < |[k] + rest| ==> InBounds(([k] + rest)[j], |v|)
    ensures TakeColumns(v, [k] + rest) == [v[k]] + TakeColumns(v, rest)
  {
    var ks := [k] + rest;
    assert forall j :: 1 <= j < |ks| ==> ks[j] == rest[j - 1];
    assert TakeColumns(v, ks)[0] == v[k];
  }

  lemma {:induction false} SelectIsTake(v: Vxy, keep: seq<bool>, lo: nat)
    requires |keep| == |v| && lo <= |v|
    ensures Select(v, keep, lo) == TakeColumns(v, TrueIndices(keep, lo))
    decreases |v| - lo
  {
    if lo < |v| {
      SelectIsTake(v, keep, lo + 1);
      var rest := TrueIndices(keep, lo + 1);
      if keep[lo] {
        assert TrueIndices(keep, lo) == [lo] + rest;
        TakeColumnsCons(v, lo, rest);
      } else {
        assert TrueIndices(keep, lo) == rest;
      }
    }
  }

  /** A mask picks the same columns as the list of its true positions. */
  lemma MaskIsTakeOfTrueIndices(v: Vxy, keep: seq<bool>)
    requires |keep| == |v|
    ensures GetItem(v, Mask(keep)) == GetItem(v, Take(TrueIndices(keep, 0)))
  {
    SelectIsTake(v, keep, 0);
  }

  /** Negative indices count from the end. */
  lemma NegativeIndexCountsFromEnd(v: Vxy, k: int)
    requires 0 < k <= |v|
    ensures GetItem(v, At(-k)) == GetItem(v, At(|v| - k))
  {
  }

  // ------------------------------------------------------------------
  // Concatenation

  /** `concatenate`: stacks the x rows and the y rows and builds a new Vxy;
      the result never raises and holds a's columns, then b's. */
  function Concatenate(a: Vxy, b: Vxy): (r: Result<Vxy>)
    ensures r == Ok(a + b)
  {
    var d := NdArray([2, |a| + |b|], (Xs(a) + Xs(b)) + (Ys(a) + Ys(b)));
    assert Xs(a + b) == Xs(a) + Xs(b) && Ys(a + b) == Ys(a) + Ys(b);
    assert d == Stored(a + b);
    FromStoredData(a + b);
    FromData(d)
  }

  /** The columns of every Vxy of a list, in list order. */
  function Flatten(vs: seq<Vxy>): Vxy {
    if |vs| == 0 then [] else vs[0] + Flatten(vs[1..])
  }

  function AllXs(vs: seq<Vxy>): seq<real> {
    if |vs| == 0 then [] else Xs(vs[0]) + AllXs(vs[1..])
  }

  function AllYs(vs: seq<Vxy>): seq<real> {
    if |vs| == 0 then [] else Ys(vs[0]) + AllYs(vs[1..])
  }

  lemma {:induction false} RowsOfFlatten(vs: seq<Vxy>)
    ensures Xs(Flatten(vs)) == AllXs(vs) && Ys(Flatten(vs)) == AllYs(vs)
  {
    if |vs| > 0 {
      RowsOfFlatten(vs[1..]);
      assert Xs(vs[0] + Flatten(vs[1..])) == Xs(vs[0]) + Xs(Flatten(vs[1..]));
      assert Ys(vs[0] + Flatten(vs[1..])) == Ys(vs[0]) + Ys(Flatten(vs[1..]));
    }
  }

  /** `merge`: one Vxy holding the columns of every list element in list
      order; an empty list gives an empty Vxy. It never raises. */
  function Merge(vs: seq<Vxy>): (r: Result<Vxy>)
    ensures r == Ok(Flatten(vs))
  {
    if |vs| == 0 then
      FromRowList([]);
      FromData(PyList([Row([]), Row([])]))
    else
      var all := Flatten(vs);
      RowsOfFlatten(vs);
      FromStoredData(all);
      FromData(NdArray([2, |all|], AllXs(vs) + AllYs(vs)))
  }

  /** Merging two lists one after the other is concatenating their merges. */
  lemma {:induction false} MergeAppend(us: seq<Vxy>, ws: seq<Vxy>)
    ensures Merge(us + ws) == Concatenate(Merge(us).value, Merge(ws).value)
  {
    FlattenAppend(us, ws);
  }

  lemma {:induction false} FlattenAppend(us: seq<Vxy>, ws: seq<Vxy>)
    ensures Flatten(us + ws) == Flatten(us) + Flatten(ws)
  {
    if |us| == 0 {
      assert us + ws == ws;
    } else {
      assert (us + ws)[1..] == us[1..] + ws;
      FlattenAppend(us[1..], ws);
    }
  }
}
