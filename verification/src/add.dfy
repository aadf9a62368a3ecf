/**
 * Element-wise matrix addition and scalar broadcast (stan/math/prim/fun/add.hpp),
 * over real numbers.
 */
module Add {
  import opened DenseMatrix
  import opened MathErrors

  /** check_matching_dims: both dimensions agree. */
  predicate MatchingDims(m1: Matrix<real>, m2: Matrix<real>) {
    m1.rows == m2.rows && m1.cols == m2.cols
  }

  /** add(m1, m2): the element-wise sum, or invalid_argument on mismatched dimensions. */
  function AddMatrices(m1: Matrix<real>, m2: Matrix<real>): (r: Result<Matrix<real>>)
    ensures r.Err? <==> !MatchingDims(m1, m2)
    ensures r.Err? ==> r.error == InvalidArgument
    ensures r.Ok? ==> r.value.rows == m1.rows && r.value.cols == m1.cols
    ensures r.Ok? ==> forall i: nat, j: nat | i < m1.rows && j < m1.cols ::
      At(r.value, i, j) == At(m1, i, j) + At(m2, i, j)
  {
    if !MatchingDims(m1, m2) then Err(InvalidArgument)
    else Ok(Build(m1.rows, m1.cols, (i: nat, j: nat) =>
      if i < m1.rows && j < m1.cols then At(m1, i, j) + At(m2, i, j) else 0.0))
  }

  /** add(m, c): c added to every entry. */
  function AddScalarRight(m: Matrix<real>, c: real): (r: Matrix<real>)
    ensures r.rows == m.rows && r.cols == m.cols
    ensures forall i: nat, j: nat | i < m.rows && j < m.cols :: At(r, i, j) == At(m, i, j) + c
  {
    Build(m.rows, m.cols, (i: nat, j: nat) =>
      if i < m.rows && j < m.cols then At(m, i, j) + c else 0.0)
  }

  /** add(c, m): c added to every entry, the scalar written first. */
  function AddScalarLeft(c: real, m: Matrix<real>): (r: Matrix<real>)
    ensures r.rows == m.rows && r.cols == m.cols
    ensures forall i: nat, j: nat | i < m.rows && j < m.cols :: At(r, i, j) == c + At(m, i, j)
  {
    Build(m.rows, m.cols, (i: nat, j: nat) =>
      if i < m.rows && j < m.cols then c + At(m, i, j) else 0.0)
  }

  /** Matrix + matrix does not depend on the order of the operands, error included. */
  lemma {:induction false} AddMatricesCommutes(m1: Matrix<real>, m2: Matrix<real>)
    ensures AddMatrices(m1, m2).Err? == AddMatrices(m2, m1).Err?
    ensures AddMatrices(m1, m2).Ok? ==> AddMatrices(m1, m2) == AddMatrices(m2, m1)
  {
    if MatchingDims(m1, m2) {
      MatrixExt(AddMatrices(m1, m2).value, AddMatrices(m2, m1).value);
    }
  }

  /** add(m, c) and add(c, m) build the same matrix. */
  lemma {:induction false} BroadcastCommutes(m: Matrix<real>, c: real)
    ensures AddScalarRight(m, c) == AddScalarLeft(c, m)
  {
    MatrixExt(AddScalarRight(m, c), AddScalarLeft(c, m));
  }

  /** Adding zero, on either side, gives back the matrix. */
  lemma {:induction false} BroadcastZero(m: Matrix<real>)
    ensures AddScalarRight(m, 0.0) == m && AddScalarLeft(0.0, m) == m
  {
    MatrixExt(AddScalarRight(m, 0.0), m);
    MatrixExt(AddScalarLeft(0.0, m), m);
  }
}
