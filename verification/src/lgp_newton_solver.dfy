/**
 * The Newton solver for the latent Gaussian Poisson model and its reverse-mode
 * node (stan/math/laplace/lgp_newton_solver.hpp).
 *
 * The conditional system's gradient, Newton direction (-elt_divide of the
 * gradient by the Hessian), log density and solver gradient are functions
 * over real vectors given with the system.
 */
module LgpNewtonSolver {
  import opened LgpDenseSystem

  /** The conditional system, as seen by the solver. */
  datatype System = System(
    condGradient: seq<real> -> seq<real>,   // cond_gradient(theta)
    direction: seq<real> -> seq<real>,      // -elt_divide(cond_gradient(theta), cond_hessian(theta))
    logDensity: seq<real> -> real,          // log_density(theta)
    solverGradient: seq<real> -> seq<real>) // solver_gradient(theta): d theta / d phi

  /** The system's vector functions keep the length of theta. */
  ghost predicate Conformable(sys: System) {
    forall t: seq<real> ::
      |sys.condGradient(t)| == |t| && |sys.direction(t)| == |t| && |sys.solverGradient(t)| == |t|
  }

  /** theta + alpha * d. */
  function AddScaled(theta: seq<real>, alpha: real, d: seq<real>): (r: seq<real>)
    requires |d| == |theta|
    ensures |r| == |theta|
  {
    seq(|theta|, k requires 0 <= k < |theta| => theta[k] + alpha * d[k])
  }

  /** theta + d. */
  function Plus(theta: seq<real>, d: seq<real>): (r: seq<real>)
    requires |d| == |theta|
    ensures |r| == |theta|
  {
    seq(|theta|, k requires 0 <= k < |theta| => theta[k] + d[k])
  }

  /** a . b, summed from the first index to the last. */
  function Dot(a: seq<real>, b: seq<real>): real
    requires |a| == |b|
  {
    if |a| == 0 then 0.0 else Dot(a[..|a| - 1], b[..|b| - 1]) + a[|a| - 1] * b[|b| - 1]
  }

  function SumSquares(g: seq<real>): real {
    if |g| == 0 then 0.0 else SumSquares(g[..|g| - 1]) + g[|g| - 1] * g[|g| - 1]
  }

  /** gradient.norm() <= tol, without the square root: the norm is the root of SumSquares. */
  predicate Converged(g: seq<real>, tol: real) {
    tol >= 0.0 && SumSquares(g) <= tol * tol
  }

  /** Armijo's constants, as the solver fixes them. */
  const C: real := 0.5
  const Tau: real := 0.5

  /** A candidate is rejected while its log density exceeds log_density(theta) + c * m. */
  predicate Rejected(sys: System, theta: seq<real>, m: real, candidate: seq<real>) {
    sys.logDensity(candidate) > sys.logDensity(theta) + C * m
  }

  /**
   * The backtracking loop, from step size alpha: None when `fuel` halvings did
   * not find an accepted candidate (the source has no such bound).
   */
  function LineSearchFrom(sys: System, theta: seq<real>, d: seq<real>, m: real, alpha: real, fuel: nat): Option<seq<real>>
    requires |d| == |theta|
    decreases fuel
  {
    var candidate := AddScaled(theta, alpha, d);
    if !Rejected(sys, theta, m, candidate) then Some(candidate)
    else if fuel == 0 then None
    else LineSearchFrom(sys, theta, d, m, Tau * alpha, fuel - 1)
  }

  datatype Option<T> = None | Some(value: T)

  /** How a solve ends. */
  datatype Outcome =
    | Solved(theta: seq<real>)
    | MaxStepsExceeded     // boost::math::evaluation_error
    | LineSearchExhausted  // the model's bound on halvings was reached

  /** One update of theta: the full Newton step, or the line-searched step. */
  function Update(sys: System, lineSearch: bool, fuel: nat, theta: seq<real>): (r: Option<seq<real>>)
    requires Conformable(sys)
    ensures r.Some? ==> |r.value| == |theta|
    ensures !lineSearch ==> r == Some(Plus(theta, sys.direction(theta)))
  {
    var g := sys.condGradient(theta);
    var d := sys.direction(theta);
    if !lineSearch then Some(Plus(theta, d))
    else
      LineSearchLength(sys, theta, d, Dot(d, g), 1.0, fuel);
      LineSearchFrom(sys, theta, d, Dot(d, g), 1.0, fuel)
  }

  lemma {:induction false} LineSearchLength(sys: System, theta: seq<real>, d: seq<real>, m: real, alpha: real, fuel: nat)
    requires |d| == |theta|
    ensures LineSearchFrom(sys, theta, d, m, alpha, fuel).Some? ==> |LineSearchFrom(sys, theta, d, m, alpha, fuel).value| == |theta|
    decreases fuel
  {
    if fuel > 0 { LineSearchLength(sys, theta, d, m, Tau * alpha, fuel - 1); }
  }

  /**
   * With line search, an update moves along the Newton direction by tau^k, k
   * the first halving whose candidate is accepted (alpha starts at 1 and
   * m = direction . gradient).
   */
  lemma UpdateAccepts(sys: System, fuel: nat, theta: seq<real>, k: nat)
    requires Conformable(sys) && k <= fuel
    requires forall j: nat | j < k ::
      RejectedAt(sys, theta, sys.direction(theta), Dot(sys.direction(theta), sys.condGradient(theta)), 1.0, j)
    requires !RejectedAt(sys, theta, sys.direction(theta), Dot(sys.direction(theta), sys.condGradient(theta)), 1.0, k)
    ensures Update(sys, true, fuel, theta) == Some(AddScaled(theta, Pow(Tau, k), sys.direction(theta)))
  {
    var d := sys.direction(theta);
    LineSearchAccepts(sys, theta, d, Dot(d, sys.condGradient(theta)), 1.0, fuel, k);
    StepSizeIsPower(1.0, k);
  }

  /** With line search, an update gives out when every candidate within the halving bound is rejected. */
  lemma UpdateGivesOut(sys: System, fuel: nat, theta: seq<real>)
    requires Conformable(sys)
    requires forall j: nat | j <= fuel ::
      RejectedAt(sys, theta, sys.direction(theta), Dot(sys.direction(theta), sys.condGradient(theta)), 1.0, j)
    ensures Update(sys, true, fuel, theta) == None
  {
    var d := sys.direction(theta);
    LineSearchGivesOut(sys, theta, d, Dot(d, sys.condGradient(theta)), 1.0, fuel);
  }

  /** The iterations of lgp_newton_solver from index i. */
  function NewtonFrom(sys: System, tol: real, maxNumSteps: int, lineSearch: bool, fuel: nat,
                      theta: seq<real>, i: nat): Outcome
    requires Conformable(sys)
    decreases maxNumSteps - i
  {
    if i > maxNumSteps then Solved(theta)
    else if i == maxNumSteps then MaxStepsExceeded
    else
      match Update(sys, lineSearch, fuel, theta)
      case None => LineSearchExhausted
      case Some(next) =>
        if Converged(sys.condGradient(theta), tol) then Solved(next)
        else NewtonFrom(sys, tol, maxNumSteps, lineSearch, fuel, next, i + 1)
  }

  /** lgp_newton_solver over doubles. */
  method NewtonSolve(theta0: seq<real>, sys: System, tol: real, maxNumSteps: int, lineSearch: bool, fuel: nat)
    returns (r: Outcome)
    requires Conformable(sys)
    ensures r == NewtonFrom(sys, tol, maxNumSteps, lineSearch, fuel, theta0, 0)
    ensures r.Solved? ==> |r.theta| == |theta0|
  {
    var thetaDbl := theta0;
    var i := 0;
    while i <= maxNumSteps
      invariant 0 <= i
      invariant |thetaDbl| == |theta0|
      invariant NewtonFrom(sys, tol, maxNumSteps, lineSearch, fuel, theta0, 0)
             == NewtonFrom(sys, tol, maxNumSteps, lineSearch, fuel, thetaDbl, i)
      decreases maxNumSteps - i
    {
      if i == maxNumSteps {
        return MaxStepsExceeded;
      }
      var gradient := sys.condGradient(thetaDbl);
      var direction := sys.direction(thetaDbl);
      if !lineSearch {
        thetaDbl := Plus(thetaDbl, direction);
      } else {
        var alpha := 1.0;
        var m := Dot(direction, gradient);
        var candidate := AddScaled(thetaDbl, alpha, direction);
        var budget := fuel;
        while sys.logDensity(candidate) > sys.logDensity(thetaDbl) + C * m
          invariant candidate == AddScaled(thetaDbl, alpha, direction)
          invariant LineSearchFrom(sys, thetaDbl, direction, m, 1.0, fuel)
                 == LineSearchFrom(sys, thetaDbl, direction, m, alpha, budget)
          decreases budget
        {
          if budget == 0 {
            return LineSearchExhausted;
          }
          alpha := Tau * alpha;
          candidate := AddScaled(thetaDbl, alpha, direction);
          budget := budget - 1;
        }
        thetaDbl := candidate;
      }
      if Converged(gradient, tol) {
        return Solved(thetaDbl);
      }
      i := i + 1;
    }
    return Solved(thetaDbl);
  }

  /** A negative step bound skips the loop: the initial guess comes back unchanged. */
  lemma NegativeStepBound(sys: System, tol: real, maxNumSteps: int, lineSearch: bool, fuel: nat, theta0: seq<real>)
    requires Conformable(sys) && maxNumSteps < 0
    ensures NewtonFrom(sys, tol, maxNumSteps, lineSearch, fuel, theta0, 0) == Solved(theta0)
  {
  }

  /** A step bound of zero always throws. */
  lemma ZeroStepBound(sys: System, tol: real, lineSearch: bool, fuel: nat, theta0: seq<real>)
    requires Conformable(sys)
    ensures NewtonFrom(sys, tol, 0, lineSearch, fuel, theta0, 0) == MaxStepsExceeded
  {
  }

  /** theta after k updates from theta0, None once a line search gave out. */
  function Iterate(sys: System, lineSearch: bool, fuel: nat, theta0: seq<real>, k: nat): Option<seq<real>>
    requires Conformable(sys)
  {
    if k == 0 then Some(theta0)
    else match Iterate(sys, lineSearch, fuel, theta0, k - 1)
      case None => None
      case Some(t) => Update(sys, lineSearch, fuel, t)
  }

  /** The first k iterations each applied an update and did not meet the tolerance. */
  ghost predicate NotConvergedBefore(sys: System, tol: real, lineSearch: bool, fuel: nat, theta0: seq<real>, k: nat)
    requires Conformable(sys)
  {
    forall j: nat {:trigger Iterate(sys, lineSearch, fuel, theta0, j)} | j < k ::
      Iterate(sys, lineSearch, fuel, theta0, j).Some?
      && Iterate(sys, lineSearch, fuel, theta0, j + 1).Some?
      && !Converged(sys.condGradient(Iterate(sys, lineSearch, fuel, theta0, j).value), tol)
  }

  /** Running from iteration 0 is running from iteration j on the j-th iterate. */
  lemma {:induction false} RunReaches(sys: System, tol: real, maxNumSteps: int, lineSearch: bool, fuel: nat,
                                      theta0: seq<real>, j: nat)
    requires Conformable(sys) && j <= maxNumSteps
    requires NotConvergedBefore(sys, tol, lineSearch, fuel, theta0, j)
    ensures Iterate(sys, lineSearch, fuel, theta0, j).Some?
    ensures NewtonFrom(sys, tol, maxNumSteps, lineSearch, fuel, theta0, 0)
         == NewtonFrom(sys, tol, maxNumSteps, lineSearch, fuel, Iterate(sys, lineSearch, fuel, theta0, j).value, j)
  {
    if j > 0 {
      assert NotConvergedBefore(sys, tol, lineSearch, fuel, theta0, j - 1);
      RunReaches(sys, tol, maxNumSteps, lineSearch, fuel, theta0, j - 1);
      assert Iterate(sys, lineSearch, fuel, theta0, j - 1).Some? && Iterate(sys, lineSearch, fuel, theta0, j).Some?;
    }
  }

  /** The solver returns the update made in the first iteration whose pre-step gradient meets the tolerance. */
  lemma {:induction false} SolvesAtFirstConvergence(sys: System, tol: real, maxNumSteps: int, lineSearch: bool,
                                                    fuel: nat, theta0: seq<real>, k: nat)
    requires Conformable(sys) && k < maxNumSteps
    requires NotConvergedBefore(sys, tol, lineSearch, fuel, theta0, k)
    requires Iterate(sys, lineSearch, fuel, theta0, k + 1).Some?
    requires Iterate(sys, lineSearch, fuel, theta0, k).Some?
    requires Converged(sys.condGradient(Iterate(sys, lineSearch, fuel, theta0, k).value), tol)
    ensures NewtonFrom(sys, tol, maxNumSteps, lineSearch, fuel, theta0, 0)
         == Solved(Iterate(sys, lineSearch, fuel, theta0, k + 1).value)
  {
    RunReaches(sys, tol, maxNumSteps, lineSearch, fuel, theta0, k);
  }

  /** Without convergence in the first maxNumSteps iterations the solver throws. */
  lemma {:induction false} ThrowsWithoutConvergence(sys: System, tol: real, maxNumSteps: nat, lineSearch: bool,
                                                    fuel: nat, theta0: seq<real>)
    requires Conformable(sys)
    requires NotConvergedBefore(sys, tol, lineSearch, fuel, theta0, maxNumSteps)
    ensures NewtonFrom(sys, tol, maxNumSteps, lineSearch, fuel, theta0, 0) == MaxStepsExceeded
  {
    RunReaches(sys, tol, maxNumSteps, lineSearch, fuel, theta0, maxNumSteps);
  }

  /**
   * A solution is always the update of an iteration k < maxNumSteps whose
   * pre-step gradient met the tolerance: at most maxNumSteps updates are applied.
   */
  lemma {:induction false} SolvedOnlyOnConvergence(sys: System, tol: real, maxNumSteps: nat, lineSearch: bool,
                                                   fuel: nat, theta0: seq<real>, t: seq<real>)
    requires Conformable(sys)
    requires NewtonFrom(sys, tol, maxNumSteps, lineSearch, fuel, theta0, 0) == Solved(t)
    ensures exists k: nat | k < maxNumSteps ::
      Iterate(sys, lineSearch, fuel, theta0, k).Some?
      && Iterate(sys, lineSearch, fuel, theta0, k + 1) == Some(t)
      && Converged(sys.condGradient(Iterate(sys, lineSearch, fuel, theta0, k).value), tol)
  {
    SolvedFrom(sys, tol, maxNumSteps, lineSearch, fuel, theta0, t, 0);
  }

  lemma {:induction false} SolvedFrom(sys: System, tol: real, maxNumSteps: nat, lineSearch: bool,
                                      fuel: nat, theta0: seq<real>, t: seq<real>, j: nat)
    requires Conformable(sys) && j <= maxNumSteps
    requires Iterate(sys, lineSearch, fuel, theta0, j).Some?
    requires NewtonFrom(sys, tol, maxNumSteps, lineSearch, fuel, Iterate(sys, lineSearch, fuel, theta0, j).value, j) == Solved(t)
    ensures exists k: nat | j <= k < maxNumSteps ::
      Iterate(sys, lineSearch, fuel, theta0, k).Some?
      && Iterate(sys, lineSearch, fuel, theta0, k + 1) == Some(t)
      && Converged(sys.condGradient(Iterate(sys, lineSearch, fuel, theta0, k).value), tol)
    decreases maxNumSteps - j
  {
    var theta := Iterate(sys, lineSearch, fuel, theta0, j).value;
    assert Iterate(sys, lineSearch, fuel, theta0, j + 1) == Update(sys, lineSearch, fuel, theta);
    if j < maxNumSteps && Update(sys, lineSearch, fuel, theta).Some? {
      if !Converged(sys.condGradient(theta), tol) {
        SolvedFrom(sys, tol, maxNumSteps, lineSearch, fuel, theta0, t, j + 1);
      }
    }
  }

  /** The step size the line search tries after j halvings of alpha. */
  function StepSize(alpha: real, j: nat): real
    decreases j
  {
    if j == 0 then alpha else StepSize(Tau * alpha, j - 1)
  }

  /** After j halvings the step size is alpha * tau^j. */
  lemma {:induction false} StepSizeIsPower(alpha: real, j: nat)
    ensures StepSize(alpha, j) == alpha * Pow(Tau, j)
    decreases j
  {
    if j == 0 {
      var p := Pow(Tau, 0);
      assert p == 1.0;
      assert alpha * p == alpha * 1.0;
    } else {
      StepSizeIsPower(Tau * alpha, j - 1);
      var p := Pow(Tau, j - 1);
      assert Pow(Tau, j) == p * Tau;
      calc {
        StepSize(alpha, j);
        StepSize(Tau * alpha, j - 1);
        (Tau * alpha) * p;
        alpha * (p * Tau);
      }
    }
  }

  /** The candidate the line search tries after j halvings of alpha is rejected. */
  predicate RejectedAt(sys: System, theta: seq<real>, d: seq<real>, m: real, alpha: real, j: nat)
    requires |d| == |theta|
  {
    Rejected(sys, theta, m, AddScaled(theta, StepSize(alpha, j), d))
  }

  /**
   * The line search accepts theta + alpha * tau^k * d for the first k whose
   * candidate is not rejected.
   */
  lemma {:induction false} LineSearchAccepts(sys: System, theta: seq<real>, d: seq<real>, m: real, alpha: real,
                                             fuel: nat, k: nat)
    requires |d| == |theta| && k <= fuel
    requires forall j: nat | j < k :: RejectedAt(sys, theta, d, m, alpha, j)
    requires !RejectedAt(sys, theta, d, m, alpha, k)
    ensures LineSearchFrom(sys, theta, d, m, alpha, fuel) == Some(AddScaled(theta, StepSize(alpha, k), d))
    decreases k
  {
    if k > 0 {
      assert RejectedAt(sys, theta, d, m, alpha, 0);
      var beta := Tau * alpha;
      forall j: nat | j < k - 1
        ensures RejectedAt(sys, theta, d, m, beta, j)
      {
        assert RejectedAt(sys, theta, d, m, alpha, j + 1);
      }
      LineSearchAccepts(sys, theta, d, m, beta, fuel - 1, k - 1);
    }
  }

  /** When the first fuel + 1 candidates are all rejected, the bounded search gives out. */
  lemma {:induction false} LineSearchGivesOut(sys: System, theta: seq<real>, d: seq<real>, m: real, alpha: real, fuel: nat)
    requires |d| == |theta|
    requires forall j: nat | j <= fuel :: RejectedAt(sys, theta, d, m, alpha, j)
    ensures LineSearchFrom(sys, theta, d, m, alpha, fuel) == None
    decreases fuel
  {
    assert RejectedAt(sys, theta, d, m, alpha, 0);
    if fuel > 0 {
      var beta := Tau * alpha;
      forall j: nat | j <= fuel - 1
        ensures RejectedAt(sys, theta, d, m, beta, j)
      {
        assert RejectedAt(sys, theta, d, m, alpha, j + 1);
      }
      LineSearchGivesOut(sys, theta, d, m, beta, fuel - 1);
    }
  }

  /** A prefix of the dot product extends by one term. */
  lemma DotPrefix(a: seq<real>, b: seq<real>, i: nat)
    requires |a| == |b| && i < |a|
    ensures Dot(a[..i + 1], b[..i + 1]) == Dot(a[..i], b[..i]) + a[i] * b[i]
  {
    assert a[..i + 1][..i] == a[..i];
    assert b[..i + 1][..i] == b[..i];
  }

  /** A node of the reverse-mode tape: its value and its adjoint. */
  class Vari {
    const value: real
    var adj: real

    constructor(v: real)
      ensures value == v && adj == 0.0
    {
      value := v;
      adj := 0.0;
    }
  }

  /**
   * lgp_newton_solver_vari: the node the var solver puts on the tape. Its own
   * vari part (node) holds theta_dbl(0); phi is the one-element array phi_,
   * theta holds one node per entry of the solution and J the derivative of the
   * solution with respect to the global parameter.
   */
  class LgpNewtonSolverVari {
    const node: Vari          // the vari base of the solver node
    const phi: array<Vari>    // phi_
    const thetaSize: nat
    const theta: array<Vari>
    const J: seq<real>

    ghost predicate Valid()
      reads this, phi, theta
    {
      && phi.Length == 1 && theta.Length == thetaSize && |J| == thetaSize
      && forall i :: 0 <= i < thetaSize ==> theta[i] != phi[0]
    }

    /** The adjoints of the solution's nodes, in order. */
    function Adjoints(): (r: seq<real>)
      reads this, theta, set i | 0 <= i < theta.Length :: theta[i]
      ensures |r| == theta.Length
      ensures forall i :: 0 <= i < theta.Length ==> r[i] == theta[i].adj
    {
      seq(theta.Length, i requires 0 <= i < theta.Length reads theta, set k | 0 <= k < theta.Length :: theta[k] => theta[i].adj)
    }

    /**
     * Every entry of the solution gets a node of its own, holding its value with
     * a zero adjoint. Every slot first holds the solver node itself (the source
     * puts it in slot 0 only), but the loop starts at 0 and overwrites them all,
     * so no slot refers to the solver node.
     */
    constructor(phiNode: Vari, sys: System, thetaDbl: seq<real>)
      requires Conformable(sys) && |thetaDbl| >= 1
      ensures Valid()
      ensures node.value == thetaDbl[0] && node.adj == 0.0
      ensures fresh(phi) && phi[0] == phiNode
      ensures thetaSize == |thetaDbl| && J == sys.solverGradient(thetaDbl)
      ensures fresh(theta)
      ensures forall i :: 0 <= i < thetaSize ==> fresh(theta[i]) && theta[i].value == thetaDbl[i] && theta[i].adj == 0.0
      ensures forall i :: 0 <= i < thetaSize ==> theta[i] != node
      ensures forall i, j :: 0 <= i < j < thetaSize ==> theta[i] != theta[j]
    {
      var self := new Vari(thetaDbl[0]);
      node := self;
      var phiSlot := new Vari[1](_ => phiNode);
      phi := phiSlot;
      thetaSize := |thetaDbl|;
      var nodes := new Vari[|thetaDbl|](_ => self);
      for i := 0 to |thetaDbl|
        invariant self.value == thetaDbl[0] && self.adj == 0.0 && phiSlot[0] == phiNode
        invariant forall k :: i <= k < |thetaDbl| ==> nodes[k] == self
        invariant forall k :: 0 <= k < i ==>
          fresh(nodes[k]) && nodes[k] != self && nodes[k].value == thetaDbl[k] && nodes[k].adj == 0.0
        invariant forall k, l :: 0 <= k < l < i ==> nodes[k] != nodes[l]
      {
        nodes[i] := new Vari(thetaDbl[i]);
      }
      theta := nodes;
      J := sys.solverGradient(thetaDbl);
    }

    /** chain(): phi's adjoint gains the solution's adjoints times J. */
    method Chain()
      requires Valid()
      modifies phi[0]
      ensures phi[0].adj == old(phi[0].adj) + Dot(old(Adjoints()), J)
      ensures Adjoints() == old(Adjoints())
    {
      ghost var adjoints := Adjoints();
      var target := phi[0];
      for i := 0 to thetaSize
        invariant Adjoints() == adjoints
        invariant target.adj == old(target.adj) + Dot(adjoints[..i], J[..i])
      {
        DotPrefix(adjoints, J, i);
        target.adj := target.adj + theta[i].adj * J[i];
      }
      assert adjoints[..thetaSize] == adjoints && J[..thetaSize] == J;
    }
  }

  /**
   * lgp_newton_solver with a var global parameter: solve on values, then put
   * one node per entry of the solution on the tape, tied to phi through the
   * solver node.
   */
  method LgpNewtonSolverVar(theta0: seq<real>, sys: System, phi: Vari, tol: real, maxNumSteps: int,
                            lineSearch: bool, fuel: nat)
    returns (r: Outcome, vi: LgpNewtonSolverVari?, theta: seq<Vari>)
    requires Conformable(sys) && |theta0| >= 1
    ensures r == NewtonFrom(sys, tol, maxNumSteps, lineSearch, fuel, theta0, 0)
    ensures !r.Solved? ==> vi == null && theta == []
    ensures r.Solved? ==> vi != null && fresh(vi) && vi.Valid() && vi.phi[0] == phi
                          && vi.J == sys.solverGradient(r.theta) && theta == vi.theta[..]
    ensures r.Solved? ==> |theta| == |r.theta|
                          && forall i :: 0 <= i < |theta| ==> fresh(theta[i]) && theta[i].value == r.theta[i]
  {
    r := NewtonSolve(theta0, sys, tol, maxNumSteps, lineSearch, fuel);
    if !r.Solved? {
      return r, null, [];
    }
    vi := new LgpNewtonSolverVari(phi, sys, r.theta);
    theta := [vi.theta[0]];
    for i := 1 to |r.theta|
      invariant theta == vi.theta[..i]
    {
      theta := theta + [vi.theta[i]];
    }
  }
}
