/**
 * The latent Gaussian Poisson system (stan/math/laplace/lgp_dense_system.hpp):
 * the covariance of the local parameters and the flat data array handed to
 * the KINSOL solver.
 */
module LgpDenseSystem {
  import opened DenseMatrix

  /** std::pow with a whole-number exponent, over the reals. */
  function Pow(x: real, n: nat): (r: real)
    ensures n == 0 ==> r == 1.0
  {
    if n == 0 then 1.0 else Pow(x, n - 1) * x
  }

  /** The exponent lgp_covariance uses for entry (i, j), i != j. */
  function Exponent(i: nat, j: nat, spaceMatters: bool): nat {
    if !spaceMatters then 1 else if i > j then i - j else j - i
  }

  /** Entry (i, j) of the covariance: sigma on the diagonal, rho^exponent * sigma off it. */
  function CovarianceEntry(sigma: real, rho: real, i: nat, j: nat, spaceMatters: bool): real {
    if i == j then sigma else Pow(rho, Exponent(i, j, spaceMatters)) * sigma
  }

  /** The M x M covariance built from sigma = phi[0] and rho = phi[1]. */
  function Covariance(sigma: real, rho: real, M: nat, spaceMatters: bool): (s: Matrix<real>)
    ensures s.rows == M && s.cols == M
  {
    Build(M, M, (i: nat, j: nat) => CovarianceEntry(sigma, rho, i, j, spaceMatters))
  }

  /**
   * lgp_covariance: fills the lower triangle row by row, mirrors each entry
   * above the diagonal, and writes sigma on the diagonal.
   */
  method LgpCovariance(phi: seq<real>, M: int, spaceMatters: bool) returns (s: Matrix<real>)
    requires |phi| >= 2 && M >= 0
    ensures s == Covariance(phi[0], phi[1], M, spaceMatters)
  {
    var a := FillCovariance(phi[0], phi[1], M, spaceMatters);
    s := Flatten(a);
    forall i: nat, j: nat | i < M && j < M
      ensures At(s, i, j) == At(Covariance(phi[0], phi[1], M, spaceMatters), i, j)
    {
      FlattenAt(a, i, j);
    }
    MatrixExt(s, Covariance(phi[0], phi[1], M, spaceMatters));
  }

  /** The nested loops of lgp_covariance, on the Eigen storage as a 2-D array. */
  method FillCovariance(sigma: real, rho: real, M: nat, spaceMatters: bool) returns (a: array2<real>)
    ensures fresh(a) && a.Length0 == M && a.Length1 == M
    ensures forall r, c | 0 <= r < M && 0 <= c < M :: a[r, c] == CovarianceEntry(sigma, rho, r, c, spaceMatters)
  {
    a := new real[M, M];
    for i := 0 to M
      invariant forall r, c | 0 <= r < i && 0 <= c < i ::
        a[r, c] == CovarianceEntry(sigma, rho, r, c, spaceMatters)
    {
      for j := 0 to i
        invariant forall r, c | 0 <= r < i && 0 <= c < i ::
          a[r, c] == CovarianceEntry(sigma, rho, r, c, spaceMatters)
        invariant forall c | 0 <= c < j ::
          a[i, c] == CovarianceEntry(sigma, rho, i, c, spaceMatters)
          && a[c, i] == CovarianceEntry(sigma, rho, c, i, spaceMatters)
      {
        var exponent: nat := if spaceMatters then i - j else 1;
        a[i, j] := Pow(rho, exponent) * sigma;
        a[j, i] := a[i, j];
      }
      a[i, i] := sigma;
    }
  }

  /** The column-major storage of a square 2-D array. */
  function Flatten(a: array2<real>): (s: Matrix<real>)
    reads a
    requires a.Length0 == a.Length1
    ensures s.rows == a.Length0 && s.cols == a.Length1
  {
    var n := a.Length0;
    MatrixData(n, n, seq(n * n, k requires 0 <= k < n * n reads a =>
      LinearIndexSplit(k, n, n); a[k % n, k / n]))
  }

  lemma {:induction false} FlattenAt(a: array2<real>, i: nat, j: nat)
    requires a.Length0 == a.Length1 && i < a.Length0 && j < a.Length1
    ensures At(Flatten(a), i, j) == a[i, j]
  {
    ColumnMajorIndex(i, j, a.Length0, a.Length1);
  }

  /** Entry (i, j) of the covariance matrix is CovarianceEntry. */
  lemma CovarianceAt(sigma: real, rho: real, M: nat, spaceMatters: bool, i: nat, j: nat)
    requires i < M && j < M
    ensures At(Covariance(sigma, rho, M, spaceMatters), i, j) == CovarianceEntry(sigma, rho, i, j, spaceMatters)
  {
  }

  /** The covariance is symmetric. */
  lemma {:induction false} CovarianceSymmetric(sigma: real, rho: real, M: nat, spaceMatters: bool, i: nat, j: nat)
    requires i < M && j < M
    ensures At(Covariance(sigma, rho, M, spaceMatters), i, j) == At(Covariance(sigma, rho, M, spaceMatters), j, i)
  {
    CovarianceAt(sigma, rho, M, spaceMatters, i, j);
    CovarianceAt(sigma, rho, M, spaceMatters, j, i);
    assert Exponent(i, j, spaceMatters) == Exponent(j, i, spaceMatters);
  }

  /** Every diagonal entry is sigma; below the diagonal entry (i, j) is rho^(i-j) * sigma
      when space matters and rho * sigma otherwise. */
  lemma {:induction false} CovarianceEntries(sigma: real, rho: real, M: nat, spaceMatters: bool, i: nat, j: nat)
    requires i < M && j < M
    ensures i == j ==> At(Covariance(sigma, rho, M, spaceMatters), i, j) == sigma
    ensures j < i && spaceMatters ==> At(Covariance(sigma, rho, M, spaceMatters), i, j) == Pow(rho, i - j) * sigma
    ensures j < i && !spaceMatters ==> At(Covariance(sigma, rho, M, spaceMatters), i, j) == rho * sigma
  {
    CovarianceAt(sigma, rho, M, spaceMatters, i, j);
    if j < i && !spaceMatters {
      assert Exponent(i, j, spaceMatters) == 1;
      assert Pow(rho, 1) == rho by {
        assert Pow(rho, 1) == Pow(rho, 0) * rho;
      }
    }
  }

  /**
   * lgp_dense_system: the global parameter, the per-site sample counts and
   * observation sums, and the precision matrix Q.
   */
  class LgpDenseSystemModel {
    const phi: seq<real>
    const M: nat            // size of the system
    const spaceMatters: bool
    const nSamples: seq<real>
    const sums: seq<real>
    const Q: Matrix<real>   // precision matrix

    ghost predicate Valid() {
      |nSamples| == M && Q.rows == M && Q.cols == M
    }

    /**
     * The constructor: M is the number of sample counts, and Q is the inverse of
     * the spatial covariance, whether or not space matters for this system.
     * inverse_spd is the parameter `inverseSpd`, assumed to keep a square shape.
     */
    constructor (phi: seq<real>, nSamples: seq<real>, sums: seq<real>, spaceMatters: bool,
                 inverseSpd: Matrix<real> -> Matrix<real>)
      requires |phi| >= 2
      requires forall s: Matrix<real> :: inverseSpd(s).rows == s.rows && inverseSpd(s).cols == s.cols
      ensures Valid()
      ensures this.phi == phi && this.nSamples == nSamples && this.sums == sums
      ensures this.spaceMatters == spaceMatters && M == |nSamples|
      ensures Q == inverseSpd(Covariance(phi[0], phi[1], |nSamples|, true))
    {
      this.phi := phi;
      this.M := |nSamples|;
      this.nSamples := nSamples;
      this.sums := sums;
      this.spaceMatters := spaceMatters;
      var sigma := LgpCovariance(phi, |nSamples|, true);
      this.Q := inverseSpd(sigma);
    }

    /**
     * get_dat: the counts, then the sums, then Q column by column, in one
     * array of M * (2 + M) numbers.
     */
    method GetDat() returns (dat: seq<real>)
      requires Valid() && |sums| >= M
      ensures |dat| == M * (2 + M)
      ensures dat[..M] == nSamples
      ensures dat[M..2 * M] == sums[..M]
      ensures dat[2 * M..] == Q.data
    {
      var mm := |Q.data|;
      assert mm == M * M;
      var a := new real[2 * M + mm];
      var qArray := Q.data;
      for i := 0 to M
        invariant forall k | 0 <= k < i :: a[k] == nSamples[k]
      {
        a[i] := nSamples[i];
      }
      for i := 0 to M
        invariant forall k | 0 <= k < M :: a[k] == nSamples[k]
        invariant forall k | 0 <= k < i :: a[M + k] == sums[k]
      {
        a[M + i] := sums[i];
      }
      for i := 0 to mm
        invariant forall k | 0 <= k < M :: a[k] == nSamples[k]
        invariant forall k | 0 <= k < M :: a[M + k] == sums[k]
        invariant forall k | 0 <= k < i :: a[2 * M + k] == qArray[k]
      {
        a[2 * M + i] := qArray[i];
      }
      dat := a[..];
      assert dat[..M] == nSamples;
      assert dat[M..2 * M] == sums[..M];
      assert dat[2 * M..] == Q.data;
      assert M * (2 + M) == 2 * M + mm;
    }

    /** Entry (i, j) of Q sits at 2M + i + jM of the data array. */
    lemma {:induction false} DatHoldsQ(dat: seq<real>, i: nat, j: nat)
      requires Valid() && i < M && j < M
      requires |dat| == M * (2 + M) && dat[2 * M..] == Q.data
      ensures 2 * M + i + j * M < |dat| && dat[2 * M + i + j * M] == At(Q, i, j)
    {
      ColumnMajorIndex(i, j, M, M);
      assert |dat| == 2 * M + M * M;
      assert dat[2 * M..][i + j * M] == Q.data[i + j * M];
    }
  }
}
