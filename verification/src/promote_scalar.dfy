/**
 * promote_scalar (stan/math/prim/fun/promote_scalar.hpp): convert every scalar
 * inside a value to the target scalar type, keeping the value's shape.
 *
 * A C++ type is modelled by the shape of a value: a scalar, a std::vector of
 * values (nested to any depth), or a dense Eigen matrix of scalars with
 * dynamic rows and columns, one row, or one column. The scalar conversion
 * T(x) is the parameter `conv`; the specialization for equal input and
 * output types is promotion with the identity conversion.
 */
module PromoteScalar {
  import opened DenseMatrix

  /** Which of the three Eigen shapes a dense value has. */
  datatype DenseShape =
    | General    // Eigen::Matrix<S, -1, -1>
    | RowVector  // Eigen::Matrix<S, 1, -1>: exactly one row
    | ColVector  // Eigen::Matrix<S, -1, 1>: exactly one column

  datatype Value<S> =
    | Scalar(x: S)
    | StdVector(elems: seq<Value<S>>)
    | Dense(shape: DenseShape, m: Matrix<S>)

  /** A dense value respects its compile-time shape, at every depth. */
  predicate WellShaped<S>(v: Value<S>) {
    match v
    case Scalar(_) => true
    case StdVector(elems) => forall k | 0 <= k < |elems| :: WellShaped(elems[k])
    case Dense(shape, m) =>
      (shape == RowVector ==> m.rows == 1) && (shape == ColVector ==> m.cols == 1)
  }

  /** Same shape at every depth: same kinds, same sizes, same Eigen shapes. */
  predicate SameShape<S, T>(x: Value<S>, y: Value<T>) {
    match (x, y)
    case (Scalar(_), Scalar(_)) => true
    case (StdVector(xs), StdVector(ys)) =>
      |xs| == |ys| && forall k | 0 <= k < |xs| :: SameShape(xs[k], ys[k])
    case (Dense(sx, mx), Dense(sy, my)) => sx == sy && mx.rows == my.rows && mx.cols == my.cols
    case _ => false
  }

  /** The specification of promotion: every scalar converted, the structure kept. */
  function Promote<S, T>(conv: S -> T, x: Value<S>): Value<T>
    decreases x
  {
    match x
    case Scalar(s) => Scalar(conv(s))
    case StdVector(elems) => StdVector(seq(|elems|, k requires 0 <= k < |elems| => Promote(conv, elems[k])))
    case Dense(shape, m) =>
      Dense(shape, MatrixData(m.rows, m.cols, seq(|m.data|, k requires 0 <= k < |m.data| => conv(m.data[k]))))
  }

  /** promote_scalar_struct::apply, dispatched on the shape of the input. */
  method Apply<S, T(0)>(conv: S -> T, x: Value<S>) returns (y: Value<T>)
    ensures y == Promote(conv, x)
    decreases x
  {
    match x
    case Scalar(s) =>
      y := Scalar(conv(s));
    case StdVector(elems) =>
      var out := new Value<T>[|elems|];
      for i := 0 to |elems|
        invariant forall k | 0 <= k < i :: out[k] == Promote(conv, elems[k])
      {
        out[i] := Apply(conv, elems[i]);
      }
      y := StdVector(out[..]);
    case Dense(shape, m) =>
      var out := new T[|m.data|];
      for i := 0 to |m.data|
        invariant forall k | 0 <= k < i :: out[k] == conv(m.data[k])
      {
        out[i] := conv(m.data[i]);
      }
      y := Dense(shape, MatrixData(m.rows, m.cols, out[..]));
  }

  /** promote_scalar<T>(x): the top-level entry, same as apply. */
  method PromoteScalarTo<S, T(0)>(conv: S -> T, x: Value<S>) returns (y: Value<T>)
    ensures SameShape(x, y)
    ensures y == Promote(conv, x)
  {
    y := Apply(conv, x);
    PromoteKeepsShape(conv, x);
  }

  /** Promotion keeps the shape at every depth. */
  lemma {:induction false} PromoteKeepsShape<S, T>(conv: S -> T, x: Value<S>)
    ensures SameShape(x, Promote(conv, x))
    ensures WellShaped(x) ==> WellShaped(Promote(conv, x))
    decreases x
  {
    match x
    case Scalar(_) =>
    case StdVector(elems) =>
      forall k | 0 <= k < |elems| ensures SameShape(elems[k], Promote(conv, elems[k]))
        && (WellShaped(elems[k]) ==> WellShaped(Promote(conv, elems[k]))) {
        PromoteKeepsShape(conv, elems[k]);
      }
    case Dense(_, _) =>
  }

  /** Each scalar of a std::vector's element, and each matrix entry, is the converted input. */
  lemma {:induction false} PromoteElementwise<S, T>(conv: S -> T, x: Value<S>)
    ensures x.StdVector? ==> forall k | 0 <= k < |x.elems| ::
      Promote(conv, x).elems[k] == Promote(conv, x.elems[k])
    ensures x.Dense? ==> forall i: nat, j: nat | i < x.m.rows && j < x.m.cols ::
      At(Promote(conv, x).m, i, j) == conv(At(x.m, i, j))
  {
    if x.Dense? {
      var y := Promote(conv, x);
      forall i: nat, j: nat | i < x.m.rows && j < x.m.cols ensures At(y.m, i, j) == conv(At(x.m, i, j)) {
        ColumnMajorIndex(i, j, x.m.rows, x.m.cols);
        assert y.m.data[i + j * x.m.rows] == conv(x.m.data[i + j * x.m.rows]);
      }
    }
  }

  /** The specialization for equal types: promotion with the identity changes nothing. */
  lemma {:induction false} PromoteIdentity<T>(x: Value<T>)
    ensures Promote((t: T) => t, x) == x
    decreases x
  {
    match x
    case Scalar(_) =>
    case StdVector(elems) =>
      forall k | 0 <= k < |elems| ensures Promote((t: T) => t, elems[k]) == elems[k] {
        PromoteIdentity(elems[k]);
      }
      assert Promote((t: T) => t, x).elems == elems;
    case Dense(shape, m) =>
      assert Promote((t: T) => t, x).m.data == m.data;
  }

  /** Promoting an already promoted value again to the same type changes nothing. */
  lemma {:induction false} PromoteTwice<S, T>(conv: S -> T, x: Value<S>)
    ensures Promote((t: T) => t, Promote(conv, x)) == Promote(conv, x)
  {
    PromoteIdentity(Promote(conv, x));
  }

  /** Promoting in two steps is promoting once by the composed conversion. */
  lemma {:induction false} PromoteCompose<R, S, T>(f: R -> S, g: S -> T, x: Value<R>)
    ensures Promote(g, Promote(f, x)) == Promote((r: R) => g(f(r)), x)
    decreases x
  {
    match x
    case Scalar(_) =>
    case StdVector(elems) =>
      forall k | 0 <= k < |elems|
        ensures Promote(g, Promote(f, elems[k])) == Promote((r: R) => g(f(r)), elems[k]) {
        PromoteCompose(f, g, elems[k]);
      }
      assert Promote(g, Promote(f, x)).elems == Promote((r: R) => g(f(r)), x).elems;
    case Dense(_, m) =>
      assert Promote(g, Promote(f, x)).m.data == Promote((r: R) => g(f(r)), x).m.data;
  }
}
