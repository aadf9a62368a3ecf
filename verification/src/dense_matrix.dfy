/**
 * Dense Eigen matrices as values. Eigen stores matrices column by column,
 * so entry (i, j) of a matrix with `rows` rows lives at linear index
 * i + j * rows of `data`; the linear index x(k) and to_array_1d both read
 * `data` directly.
 */
module DenseMatrix {

  datatype MatrixData<T> = MatrixData(rows: nat, cols: nat, data: seq<T>)

  /** A matrix whose storage holds exactly rows * cols entries. */
  type Matrix<T> = m: MatrixData<T> | |m.data| == m.rows * m.cols
    witness MatrixData(0, 0, [])

  /** Multiplying by the same natural number keeps the order. */
  lemma {:induction false} MulMono(a: nat, b: nat, c: nat)
    requires a <= b
    ensures a * c <= b * c
  {
    if c > 0 {
      MulMono(a, b, c - 1);
      assert a * c == a * (c - 1) + a;
      assert b * c == b * (c - 1) + b;
    }
  }

  /** The only multiple of d strictly between -d and d is zero. */
  lemma {:induction false} SmallMultiple(x: int, d: int)
    requires d > 0 && -d < x * d < d
    ensures x == 0
  {
    if x >= 1 {
      MulMono(1, x, d);
    } else if x <= -1 {
      assert false;
    }
  }

  /** Division by a positive number has exactly one quotient and remainder. */
  lemma {:induction false} DivModUnique(k: int, d: int, q: int, r: int)
    requires d > 0 && 0 <= r < d && k == q * d + r
    ensures k / d == q && k % d == r
  {
    var q', r' := k / d, k % d;
    assert k == q' * d + r';
    assert (q - q') * d == r' - r;
    SmallMultiple(q - q', d);
  }

  /** Where entry (i, j) sits in column-major storage. */
  lemma {:induction false} ColumnMajorIndex(i: nat, j: nat, rows: nat, cols: nat)
    requires i < rows && j < cols
    ensures i + j * rows < rows * cols
    ensures (i + j * rows) % rows == i && (i + j * rows) / rows == j
  {
    MulMono(j + 1, cols, rows);
    assert (j + 1) * rows == j * rows + rows;
    DivModUnique(i + j * rows, rows, j, i);
  }

  /** A linear index splits back into a row and a column. */
  lemma {:induction false} LinearIndexSplit(k: nat, rows: nat, cols: nat)
    requires k < rows * cols
    ensures rows > 0 && k % rows < rows && k / rows < cols
  {
    assert rows != 0 by {
      if rows == 0 { assert false; }
    }
    var q := k / rows;
    assert q * rows <= k;
    if q >= cols {
      MulMono(cols, q, rows);
    }
  }

  /** Entry (i, j), as Eigen's m(i, j). */
  function At<T>(m: Matrix<T>, i: nat, j: nat): T
    requires i < m.rows && j < m.cols
  {
    ColumnMajorIndex(i, j, m.rows, m.cols);
    assert i + j * m.rows < |m.data|;
    m.data[i + j * m.rows]
  }

  /** The first n columns of the matrix whose entry (i, j) is f(i, j), one after another. */
  function Columns<T>(rows: nat, f: (nat, nat) -> T, n: nat): (s: seq<T>)
    ensures |s| == n * rows
  {
    if n == 0 then []
    else
      assert (n - 1) * rows + rows == n * rows;
      Columns(rows, f, n - 1) + seq(rows, i requires 0 <= i < rows => f(i, n - 1))
  }

  lemma {:induction false} ColumnsAt<T>(rows: nat, f: (nat, nat) -> T, n: nat, i: nat, j: nat)
    requires i < rows && j < n
    ensures i + j * rows < n * rows && Columns(rows, f, n)[i + j * rows] == f(i, j)
  {
    ColumnMajorIndex(i, j, rows, n);
    var prefix := Columns(rows, f, n - 1);
    assert Columns(rows, f, n) == prefix + seq(rows, i requires 0 <= i < rows => f(i, n - 1));
    if j < n - 1 {
      ColumnsAt(rows, f, n - 1, i, j);
    } else {
      assert i + j * rows == |prefix| + i;
    }
  }

  /** The matrix with the given shape whose entry (i, j) is f(i, j). */
  function Build<T>(rows: nat, cols: nat, f: (nat, nat) -> T): (m: Matrix<T>)
    ensures m.rows == rows && m.cols == cols
    ensures forall i: nat, j: nat | i < rows && j < cols :: At(m, i, j) == f(i, j)
  {
    var m := MatrixData(rows, cols, Columns(rows, f, cols));
    assert forall i: nat, j: nat | i < rows && j < cols :: At(m, i, j) == f(i, j) by {
      forall i: nat, j: nat | i < rows && j < cols ensures At(m, i, j) == f(i, j) {
        ColumnsAt(rows, f, cols, i, j);
      }
    }
    m
  }

  /** Two matrices of one shape with the same entries are the same matrix. */
  lemma {:induction false} MatrixExt<T>(a: Matrix<T>, b: Matrix<T>)
    requires a.rows == b.rows && a.cols == b.cols
    requires forall i: nat, j: nat | i < a.rows && j < a.cols :: At(a, i, j) == At(b, i, j)
    ensures a == b
  {
    forall k | 0 <= k < |a.data| ensures a.data[k] == b.data[k] {
      LinearIndexSplit(k, a.rows, a.cols);
      var i, j := k % a.rows, k / a.rows;
      ColumnMajorIndex(i, j, a.rows, a.cols);
      assert k == i + j * a.rows;
      assert At(a, i, j) == At(b, i, j);
    }
  }
}
