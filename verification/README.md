# A Dafny model of five pieces of Stan Math

This project models, in Dafny, five parts of the Stan Math C++ library and proves what each of them promises.

- **The OpenCL kernel generator's code assembly.** This covers `kernel_parts` and its `operator+`/`+=`, and the `get_kernel_parts` pass over an expression DAG. That pass uses a `generated` set, so each operation emits its code once and takes one fresh variable name. It also covers `get_whole_kernel_parts`, `set_args`, the `rows`/`cols`/`extreme_diagonals` folds, `view()`, and the size guard of `eval`. Finally it covers the unary functions of `unary_function_cl.hpp`:
  - the line `generate` emits;
  - their spelling and includes;
  - the pass-zero list;
  - the `extreme_diagonals` override;
  - `deep_copy`.
- **The latent Gaussian Poisson dense system.** This covers `lgp_covariance`, the `lgp_dense_system` constructor, and `get_dat`, which lays out the data handed to the KINSOL solver.
- **The LGP Newton solver.** This covers the iteration with its step bound, its backtracking line search and its convergence test. It also covers the solver's reverse-mode node `lgp_newton_solver_vari` (its constructor and `chain()`) and the `var` overload that builds the output vector.
- **`promote_scalar`.** This covers the general, same-type, `std::vector` and three Eigen specializations.
- **`add`.** This covers matrix + matrix with its dimension check, matrix + scalar, and scalar + matrix.

The Dafny modules under `src/` follow the source files, with two exceptions. `KernelCode` holds the `kernel_parts` struct of `operation_cl.hpp`, which every other module of the generator uses. `OperationCl` also holds the parts of `unary_function_cl.hpp` that recurse over the whole expression (`deep_copy`, the `extreme_diagonals` override inside `DimsOf`, the view lemmas and the code a unary function adds to a pass):

| module | models |
|---|---|
| `KernelCode` | `kernel_parts` of `operation_cl.hpp` (six strings), its `operator+`, and `std::accumulate` over it |
| `UnaryFunctionCl` | `unary_function_cl.hpp`: the function list, spellings, includes, the pass-zero list, `generate` and the diagonals override |
| `OperationCl` | `operation_cl.hpp`, with `deep_copy` and the views of `unary_function_cl.hpp` |
| `LgpDenseSystem` | `lgp_dense_system.hpp` |
| `LgpNewtonSolver` | `lgp_newton_solver.hpp` |
| `PromoteScalar` | `promote_scalar.hpp` |
| `Add` | `add.hpp` |

`DenseMatrix` (column-major matrices, as Eigen stores them) and `MathErrors` (the exceptions, as a `Result`) are shared.

## Modelling choices

- **Expressions.** A kernel-generator expression is a tree whose nodes carry an `id`, the identity of the C++ operation object. An operation used twice appears twice with the same `id`, so the tree stands for the DAG.
  - `Leaf` stands for an operation without arguments, which reports its own sizes.
  - `Unary` stands for a `unary_function_cl`.
  - `Nary` stands for any other operation; it keeps the base `rows`, `cols` and `extreme_diagonals`.
- **The code-generation pass.** The generated set, the name generator's counter and each operation's `var_name` are the fields of the class `KernelGenerator`. Its methods are proved equal to the functions `GenExpr`/`GenArgs` over a `GenState` value, and the properties are lemmas about those functions. `kernel_parts::operator+=` is the reassignment `res := Plus(res, other)`, since `kernel_parts` is a value.
- **Other operations' code.** `generate()` of the operations other than unary functions is not part of this model. It is the function field `Codegen.other`, applied to the operation, the index names, `view_handled`, its variable name and its arguments' variable names. `type_str<Scalar>()` is the string `Codegen.typeStr`.
- **`view_handled` for arguments.** Arguments are generated with `view_handled` false. The base `view_transitivity` is `std::is_same<Args, void>`, which is false for every real argument. The pass-zero macro declares a member spelled `view_transitivness`, which `get_kernel_parts` does not read. The model follows the code.
- **`set_args`.** Only its bookkeeping is modelled. `ArgSetter` keeps the generated set and the order in which operations ran their body, and `SetArgs` is proved to visit every operation at most once.
- **Reals and the Newton system.** Doubles are modelled as reals. The Newton system's `cond_gradient`, Newton direction (`-elt_divide(cond_gradient, cond_hessian)`), `log_density` and `solver_gradient` are function fields of `System`. `inverse_spd` is a parameter of the `lgp_dense_system` constructor.
- **The gradient norm.** The test `gradient.norm() <= tol` is written as `tol >= 0 && sum of squares <= tol * tol`, which is the same condition without a square root.
- **Reverse-mode nodes.** A node is a `Vari` (a constant value and a mutable adjoint).
  - `lgp_newton_solver_vari` keeps its own vari part as `node`, `phi_` as a one-element array, and `theta_` as an array of `Vari`.
  - The source stores `this` in `theta_[0]` and then overwrites it, because its loop starts at 0. In the constructor every slot starts as the solver node, since a Dafny array needs an initial value in each slot. The loop then overwrites all of them, and the constructor proves that no slot refers to the solver node afterwards.
- **`promote_scalar`.** A C++ type is the shape of a `Value`: a scalar, a `std::vector` of values, or a dense matrix with dynamic, one-row or one-column shape. The conversion `T(x)` is a parameter. The same-type specialization is promotion with the identity conversion.
- **Swapped doc comments.** In `promote_scalar.hpp`, the comment above `Eigen::Matrix<S, 1, -1>` calls it a column vector and the one above `Eigen::Matrix<S, -1, 1>` calls it a row vector. The model follows the template arguments: `<S, 1, -1>` is `RowVector`, with one row.

## Model

| member | source | states |
|---|---|---|
| KernelCode.Plus | stan/math/opencl/kernel_generator/operation_cl.hpp:45-50 | `operator+`: each of the six fields of `a` followed by the same field of `b` |
| KernelCode.PlusGet | stan/math/opencl/kernel_generator/operation_cl.hpp:45-50 | whichever field is read, the field of `a + b` is `a`'s followed by `b`'s |
| KernelCode.PlusIdentity | stan/math/opencl/kernel_generator/operation_cl.hpp:45-50 | the empty `kernel_parts{}` is a left and a right identity of `operator+` |
| KernelCode.PlusAssociative | stan/math/opencl/kernel_generator/operation_cl.hpp:45-50 | `operator+` is associative, so `std::accumulate` may group the parts freely |
| KernelCode.Sum | stan/math/opencl/kernel_generator/operation_cl.hpp:215-216 | `std::accumulate` from `kernel_parts{}` with `operator+`: the left fold of the parts (its properties are `SumFields`, `SumAppend` and `SumConcat`) |
| KernelCode.SumFields | stan/math/opencl/kernel_generator/operation_cl.hpp:215-216 | every one of the six fields of the accumulated parts (includes, initialization, body_prefix, body, reduction, args) is the concatenation of that field over the parts, in order |
| KernelCode.SumAppend | stan/math/opencl/kernel_generator/operation_cl.hpp:215-216 | accumulating one more part appends it with `operator+` |
| KernelCode.SumConcat | stan/math/opencl/kernel_generator/operation_cl.hpp:215-216 | accumulating two runs of parts one after the other equals accumulating each and adding the results |
| UnaryFunctionCl.Spelling | stan/math/opencl/kernel_generator/unary_function_cl.hpp:150-190 | the name each `ADD_UNARY_FUNCTION*` invocation passes as `#fun`, stored in `fun_` |
| UnaryFunctionCl.SpellingRoundTrip | stan/math/opencl/kernel_generator/unary_function_cl.hpp:150-190 | reading back the name a function stores in `fun_` (the macro's `#fun`) gives that function back |
| UnaryFunctionCl.SpellingInjective | stan/math/opencl/kernel_generator/unary_function_cl.hpp:150-190 | two functions store the same name exactly when they are the same function |
| UnaryFunctionCl.IsPassZero | stan/math/opencl/kernel_generator/unary_function_cl.hpp:150-190 | the sixteen functions declared with `ADD_UNARY_FUNCTION_PASS_ZERO` (sqrt, cbrt, expm1, log1p, sin, sinh, tan, tanh, asin, asinh, atan, atanh, erf, floor, round, ceil) |
| UnaryFunctionCl.Include | stan/math/opencl/kernel_generator/unary_function_cl.hpp:147-189 | only digamma, log1m_exp and log1p_exp can bring an include; every pass-zero function's include is empty |
| UnaryFunctionCl.Generate | stan/math/opencl/kernel_generator/unary_function_cl.hpp:61-69 | `generate` yields body `type_str + " " + var_name + " = " + fun + "(" + arg + ");\n"`, includes equal to the function's include, and every other field empty |
| UnaryFunctionCl.GenerateLine | stan/math/opencl/kernel_generator/unary_function_cl.hpp:66-67 | the emitted line can be split back into the variable name, the function (by its spelling) and the argument name |
| UnaryFunctionCl.FullDiagonals | stan/math/opencl/kernel_generator/unary_function_cl.hpp:97-99 | the override reports a bottom diagonal at or below `-rows+1` (negative once rows > 1) and a top one at or above `cols-1` (positive once cols > 1) |
| OperationCl.DimsOf | stan/math/opencl/kernel_generator/operation_cl.hpp:290-338 | `rows()`, `cols()` and `extreme_diagonals()` of an operation: a leaf's own; a pass-zero unary function's argument's; another unary function's argument's sizes with the diagonals of its override; an n-ary operation's base folds (`CombineFrom`) |
| OperationCl.Rows | stan/math/opencl/kernel_generator/operation_cl.hpp:290-295 | `rows()` of the operation (base: the maximum over the arguments) |
| OperationCl.Cols | stan/math/opencl/kernel_generator/operation_cl.hpp:302-307 | `cols()` of the operation (base: the maximum over the arguments) |
| OperationCl.ExtremeDiagonals | stan/math/opencl/kernel_generator/operation_cl.hpp:328-338 | `extreme_diagonals()` of the operation (base: the minimum bottom and the maximum top over the arguments) |
| OperationCl.CombineFrom | stan/math/opencl/kernel_generator/operation_cl.hpp:290-338 | the base rows/cols are at least every argument's and the base diagonals span every argument's, and each of the four values is some argument's |
| OperationCl.NaryDimsBound | stan/math/opencl/kernel_generator/operation_cl.hpp:290-338 | `rows()`/`cols()` are at least each argument's; `extreme_diagonals()` has a bottom at or below and a top at or above each argument's |
| OperationCl.NaryDimsAttained | stan/math/opencl/kernel_generator/operation_cl.hpp:290-338 | each of `rows()`, `cols()` and the two diagonals equals that of some argument: they are the maximum and minimum, not just bounds |
| OperationCl.Either | stan/math/opencl/kernel_generator/operation_cl.hpp:352 | the joined view has a lower part iff either view has one, and an upper part iff either view has one |
| OperationCl.ViewOf | stan/math/opencl/kernel_generator/operation_cl.hpp:344-356 | the view has a lower triangle exactly when the bottom diagonal is negative and an upper triangle exactly when the top diagonal is positive |
| OperationCl.PassZeroView | stan/math/opencl/kernel_generator/unary_function_cl.hpp:117-148 | a pass-zero function, which keeps the base `extreme_diagonals`, has its argument's rows, cols and view |
| OperationCl.FullView | stan/math/opencl/kernel_generator/unary_function_cl.hpp:97-99 | any other function on an argument with more than one row and column has the full view |
| OperationCl.Eval | stan/math/opencl/kernel_generator/operation_cl.hpp:126-136 | negative rows or cols fail with a domain error (and only they do); otherwise the result has the expression's rows, cols and view, and the kernel runs iff the result is non-empty |
| OperationCl.DeepCopy | stan/math/opencl/kernel_generator/unary_function_cl.hpp:92-96 | a deep copy has the same kind of operation at every node (the same function for a unary function) and as many arguments; every id is the original's moved by `offset` |
| OperationCl.DeepCopyShape | stan/math/opencl/kernel_generator/unary_function_cl.hpp:92-96 | with ids erased, the copy equals the original: the same operations and functions, in the same places, all the way down |
| OperationCl.DeepCopyIds | stan/math/opencl/kernel_generator/unary_function_cl.hpp:92-96 | the copy's ids are exactly the original's ids moved by `offset` |
| OperationCl.DeepCopyNewObjects | stan/math/opencl/kernel_generator/unary_function_cl.hpp:92-96 | with `offset` above every id of the original, no node of the copy is an object of the original |
| OperationCl.DeepCopyDims | stan/math/opencl/kernel_generator/unary_function_cl.hpp:92-96 | a deep copy is well formed and reports the same rows, cols and extreme diagonals as the original |
| OperationCl.DeepCopyView | stan/math/opencl/kernel_generator/unary_function_cl.hpp:92-96 | a deep copy has the same view as the original |
| OperationCl.Take | stan/math/opencl/kernel_generator/operation_cl.hpp:203-204 | a new operation is inserted into `generated` and its `var_name` is the name generator's next name, the counter moving on by one |
| OperationCl.ArgNames | stan/math/opencl/kernel_generator/operation_cl.hpp:217-220 | the `var_name` of each argument, in argument order, one per argument |
| OperationCl.OwnPart | stan/math/opencl/kernel_generator/operation_cl.hpp:217-220 | `my_part`: a unary function's `generate`, or the `generate` of another operation, given the argument variable names |
| OperationCl.FoldPrefix | stan/math/opencl/kernel_generator/operation_cl.hpp:222-223 | `body_prefix` is moved to the front of `body` and emptied |
| OperationCl.GenExpr | stan/math/opencl/kernel_generator/operation_cl.hpp:198-226 | after `get_kernel_parts` the operation is generated; an operation already generated yields empty parts and leaves the state alone; a new one takes the next name, earlier names stay, and body_prefix ends empty |
| OperationCl.GenArgs | stan/math/opencl/kernel_generator/operation_cl.hpp:208-214 | generating the arguments yields one part per argument, keeps earlier names, and leaves every argument generated |
| OperationCl.TakeFresh | stan/math/opencl/kernel_generator/operation_cl.hpp:203-204 | taking `name_gen.generate()` for a new operation keeps the names distinct and drawn from the counter |
| OperationCl.GenFresh | stan/math/opencl/kernel_generator/operation_cl.hpp:198-226 | a pass keeps every earlier name, keeps all names distinct and below the counter, gives each newly generated operation a fresh name, and advances the counter by exactly the number of operations it generated |
| OperationCl.GenArgsFresh | stan/math/opencl/kernel_generator/operation_cl.hpp:208-214 | the same freshness for the arguments generated in order |
| OperationCl.GenerateOnce | stan/math/opencl/kernel_generator/operation_cl.hpp:201 | generating an operation a second time in the same pass emits nothing and changes nothing, whatever the index names and view_handled |
| OperationCl.ArgumentsFirst | stan/math/opencl/kernel_generator/operation_cl.hpp:208-223 | a new operation's body is the arguments' prefixes, its own prefix, the arguments' bodies in argument order, then its own body; every other field (includes, initialization, reduction, args) is the arguments' in argument order followed by its own, and body_prefix is empty |
| OperationCl.UnaryCode | stan/math/opencl/kernel_generator/unary_function_cl.hpp:61-69 | a new unary function emits its argument's code and then the one line storing `fun(argument variable)` in the next name |
| OperationCl.Accumulate | stan/math/opencl/kernel_generator/operation_cl.hpp:215-216 | the loop of `std::accumulate` from `kernel_parts{}` computes the left fold of `operator+` |
| OperationCl.KernelGenerator.constructor | stan/math/opencl/kernel_generator/operation_cl.hpp:179-180 | a pass starts with an empty generated set and a fresh name generator; the invariant `Valid` (names distinct, below the counter, one per generated operation) holds |
| OperationCl.KernelGenerator.GetKernelParts | stan/math/opencl/kernel_generator/operation_cl.hpp:198-226 | the in-place pass (insert into `generated`, write `var_name`, `+=`, fold `body_prefix`) returns and leaves exactly what `GenExpr` specifies, and keeps `Valid` |
| OperationCl.KernelGenerator.GenerateArgs | stan/math/opencl/kernel_generator/operation_cl.hpp:208-214 | the arguments' parts, generated in argument order, are what `GenArgs` specifies, and `Valid` is kept |
| OperationCl.KernelGenerator.GetWholeKernelParts | stan/math/opencl/kernel_generator/operation_cl.hpp:177-187 | the result is the expression's parts followed by the left-hand side's parts with `" = " + var_name + ";\n"` appended to its body |
| OperationCl.SetArgsVisit | stan/math/opencl/kernel_generator/operation_cl.hpp:246-260 | set_args runs the body of operations not yet in the set, each once, adding exactly those to the set; the operation ends up in the set |
| OperationCl.SetArgsFrom | stan/math/opencl/kernel_generator/operation_cl.hpp:253-259 | the arguments, visited in order, add exactly the operations they ran, none of them twice and none already in the set |
| OperationCl.ArgSetter.constructor | stan/math/opencl/kernel_generator/operation_cl.hpp:246 | a pass starts with an empty set and no operation visited |
| OperationCl.ArgSetter.SetArgs | stan/math/opencl/kernel_generator/operation_cl.hpp:246-260 | the in-place `set_args` visits what `SetArgsVisit` specifies and keeps every operation to one visit, the set holding exactly the visited ones |
| OperationCl.ArgSetter.SetArgsOfArgs | stan/math/opencl/kernel_generator/operation_cl.hpp:253-259 | the loop over the arguments visits what `SetArgsFrom` specifies, keeping the same invariant |
| LgpDenseSystem.Pow | stan/math/laplace/lgp_dense_system.hpp:46 | `pow(rho, exponent)` for a whole-number exponent; the zeroth power is 1 |
| LgpDenseSystem.Exponent | stan/math/laplace/lgp_dense_system.hpp:45 | the exponent is `i - j` below the diagonal when space matters, and 1 otherwise |
| LgpDenseSystem.CovarianceEntry | stan/math/laplace/lgp_dense_system.hpp:45-49 | entry (i, j): sigma on the diagonal, `pow(rho, exponent) * sigma` off it, the exponent being `|i - j|` when space matters and 1 otherwise |
| LgpDenseSystem.Covariance | stan/math/laplace/lgp_dense_system.hpp:41 | the covariance is M x M |
| LgpDenseSystem.LgpCovariance | stan/math/laplace/lgp_dense_system.hpp:32-53 | `lgp_covariance` returns the covariance built from `sigma = phi[0]` and `rho = phi[1]` |
| LgpDenseSystem.FillCovariance | stan/math/laplace/lgp_dense_system.hpp:43-50 | the nested loops leave every entry (i, j) of the M x M storage equal to its covariance entry |
| LgpDenseSystem.Flatten | stan/math/laplace/lgp_dense_system.hpp:41-52 | the `M x M` storage read as a column-major matrix of M rows and M columns |
| LgpDenseSystem.CovarianceSymmetric | stan/math/laplace/lgp_dense_system.hpp:47 | `Sigma(i, j) == Sigma(j, i)` |
| LgpDenseSystem.CovarianceEntries | stan/math/laplace/lgp_dense_system.hpp:45-49 | diagonal entries are sigma; below the diagonal, `rho^(i-j) * sigma` when space matters and `rho * sigma` otherwise |
| LgpDenseSystem.LgpDenseSystemModel.constructor | stan/math/laplace/lgp_dense_system.hpp:79-86 | `M_` is the number of sample counts and `Q_` inverts the spatial covariance (`true`), whatever `space_matters` is |
| LgpDenseSystem.LgpDenseSystemModel.GetDat | stan/math/laplace/lgp_dense_system.hpp:92-99 | `dat` has length `M*(2+M)`: the counts in `[0,M)`, the sums in `[M,2M)`, and `Q` column-major from `2M` |
| LgpDenseSystem.LgpDenseSystemModel.DatHoldsQ | stan/math/laplace/lgp_dense_system.hpp:97 | entry (i, j) of `Q` sits at `2M + i + jM` of `dat` |
| LgpNewtonSolver.Plus | stan/math/laplace/lgp_newton_solver.hpp:90 | `theta_dbl += direction`, entry by entry, keeping the length |
| LgpNewtonSolver.AddScaled | stan/math/laplace/lgp_newton_solver.hpp:98 | a candidate `theta + alpha * direction`, entry by entry, keeping the length |
| LgpNewtonSolver.Dot | stan/math/laplace/lgp_newton_solver.hpp:97 | `m = transpose(direction) * gradient`, the sum of the entrywise products |
| LgpNewtonSolver.Converged | stan/math/laplace/lgp_newton_solver.hpp:110 | `gradient.norm() <= tol`, compared through the sum of squares |
| LgpNewtonSolver.Rejected | stan/math/laplace/lgp_newton_solver.hpp:95-101 | a candidate is rejected while `log_density(candidate) > log_density(theta) + c * m`, with `c = 0.5` |
| LgpNewtonSolver.LineSearchFrom | stan/math/laplace/lgp_newton_solver.hpp:94-106 | the backtracking loop: the first candidate `theta + alpha * direction` not rejected, `alpha` multiplied by `tau = 0.5` after each rejection |
| LgpNewtonSolver.LineSearchLength | stan/math/laplace/lgp_newton_solver.hpp:94-106 | a candidate the line search accepts has the length of theta |
| LgpNewtonSolver.Update | stan/math/laplace/lgp_newton_solver.hpp:86-107 | without line search the update is `theta + direction`; with it, it is the line search from `alpha = 1` with `m = direction . gradient`; a new theta keeps the length of theta |
| LgpNewtonSolver.UpdateAccepts | stan/math/laplace/lgp_newton_solver.hpp:94-106 | with line search, when the first k candidates are rejected and candidate k is not, the update is `theta + tau^k * direction` |
| LgpNewtonSolver.UpdateGivesOut | stan/math/laplace/lgp_newton_solver.hpp:100-104 | with line search, when every candidate within the halving bound is rejected, the update gives out |
| LgpNewtonSolver.NewtonFrom | stan/math/laplace/lgp_newton_solver.hpp:76-111 | iteration i of the solver loop: past a negative bound the guess comes back, at `i == max_num_steps` it throws; otherwise update theta and stop with it once the pre-step gradient meets the tolerance |
| LgpNewtonSolver.NewtonSolve | stan/math/laplace/lgp_newton_solver.hpp:64-114 | the solver's loops compute `NewtonFrom` from iteration 0; a solution has the length of the initial guess |
| LgpNewtonSolver.NegativeStepBound | stan/math/laplace/lgp_newton_solver.hpp:76 | with a negative step bound the loop does not run and the initial guess comes back |
| LgpNewtonSolver.ZeroStepBound | stan/math/laplace/lgp_newton_solver.hpp:79-84 | `max_num_steps = 0` always throws |
| LgpNewtonSolver.RunReaches | stan/math/laplace/lgp_newton_solver.hpp:76-111 | while no iteration has converged, iteration j runs on the j-th iterate |
| LgpNewtonSolver.SolvesAtFirstConvergence | stan/math/laplace/lgp_newton_solver.hpp:86-110 | the solver returns the update made in the first iteration whose pre-step gradient meets the tolerance |
| LgpNewtonSolver.ThrowsWithoutConvergence | stan/math/laplace/lgp_newton_solver.hpp:79-84 | without convergence in the first `max_num_steps` iterations the solver throws |
| LgpNewtonSolver.SolvedOnlyOnConvergence | stan/math/laplace/lgp_newton_solver.hpp:76-111 | every solution is the update of an iteration k < `max_num_steps` whose pre-step gradient met the tolerance, so at most `max_num_steps` updates are applied |
| LgpNewtonSolver.SolvedFrom | stan/math/laplace/lgp_newton_solver.hpp:76-111 | the same, for a run resumed at iteration j |
| LgpNewtonSolver.StepSize | stan/math/laplace/lgp_newton_solver.hpp:102-103 | the step size after j rejections: `alpha = tau * alpha`, j times |
| LgpNewtonSolver.StepSizeIsPower | stan/math/laplace/lgp_newton_solver.hpp:97-104 | after j rejections the step size is `alpha * tau^j` |
| LgpNewtonSolver.LineSearchAccepts | stan/math/laplace/lgp_newton_solver.hpp:94-106 | the line search accepts `theta + alpha*tau^k*direction` for the first k whose candidate is not rejected |
| LgpNewtonSolver.LineSearchGivesOut | stan/math/laplace/lgp_newton_solver.hpp:101-104 | when every candidate within the halving bound is rejected, the bounded search gives out |
| LgpNewtonSolver.Vari.constructor | stan/math/laplace/lgp_newton_solver.hpp:41 | a new node holds its value with a zero adjoint |
| LgpNewtonSolver.LgpNewtonSolverVari.constructor | stan/math/laplace/lgp_newton_solver.hpp:26-51 | `phi_` holds phi; `theta_` has one fresh, distinct node per entry with value `theta_dbl(i)` and none is the solver node; `J_` is the solver gradient |
| LgpNewtonSolver.LgpNewtonSolverVari.Chain | stan/math/laplace/lgp_newton_solver.hpp:53-56 | `chain()` adds Σ `theta_[i].adj * J_[i]` to phi's adjoint and changes no theta adjoint |
| LgpNewtonSolver.LgpNewtonSolverVar | stan/math/laplace/lgp_newton_solver.hpp:121-148 | the var overload solves on values and returns one fresh node per solution entry, with that entry's value, element i being `theta_[i]` of a node tied to phi |
| PromoteScalar.Promote | stan/math/prim/fun/promote_scalar.hpp:21-193 | the promotion: every scalar converted with `T(x)`, every `std::vector` and Eigen matrix kept with its sizes and shape |
| PromoteScalar.Apply | stan/math/prim/fun/promote_scalar.hpp:21-193 | `apply`, dispatched on the input's shape (the vector and matrix loops included), computes `Promote` |
| PromoteScalar.PromoteScalarTo | stan/math/prim/fun/promote_scalar.hpp:64-67 | `promote_scalar` keeps the shape at every depth and computes `Promote` |
| PromoteScalar.PromoteKeepsShape | stan/math/prim/fun/promote_scalar.hpp:94-192 | promotion keeps the kind, the sizes and the Eigen shape at every depth |
| PromoteScalar.PromoteElementwise | stan/math/prim/fun/promote_scalar.hpp:94-192 | element i of a promoted `std::vector` is the promoted element i; entry (i, j) of a promoted matrix is the converted entry |
| PromoteScalar.PromoteIdentity | stan/math/prim/fun/promote_scalar.hpp:44-53 | promoting to the same type returns the input unchanged |
| PromoteScalar.PromoteTwice | stan/math/prim/fun/promote_scalar.hpp:64-67 | promoting an already promoted value to the same type again changes nothing |
| PromoteScalar.PromoteCompose | stan/math/prim/fun/promote_scalar.hpp:94-101 | promoting in two steps equals one promotion by the composed conversion |
| Add.MatchingDims | stan/math/prim/fun/add.hpp:27 | `check_matching_dims`: both the rows and the columns agree |
| Add.AddMatrices | stan/math/prim/fun/add.hpp:26-28 | mismatched dimensions, and only they, give `invalid_argument`; otherwise the result has the same dimensions and `r(i,j) = m1(i,j) + m2(i,j)` |
| Add.AddScalarRight | stan/math/prim/fun/add.hpp:42-44 | `add(m, c)` keeps the dimensions and adds c to every entry |
| Add.AddScalarLeft | stan/math/prim/fun/add.hpp:57-59 | `add(c, m)` keeps the dimensions and adds c to every entry |
| Add.AddMatricesCommutes | stan/math/prim/fun/add.hpp:27-28 | `add(m1, m2)` and `add(m2, m1)` fail together and are equal otherwise |
| Add.BroadcastCommutes | stan/math/prim/fun/add.hpp:42-58 | `add(m, c) == add(c, m)` |
| Add.BroadcastZero | stan/math/prim/fun/add.hpp:42-59 | adding zero on either side gives back the matrix |

## Left out

- The reverse-mode tape engine (arena, node stack, nested scopes, `grad`) is not part of this model. A node is a value and an adjoint, allocated with `new`.
- The OpenCL runtime is left out: `evaluate_into`, the kernel cache, `cl::Kernel`, setting kernel arguments (`arg_num`), and read and write events. These are device I/O.
- `name_generator` is not part of this model. Its k-th name is `VarName(k)` ("var" and k in decimal); only its distinctness matters.
- `matrix_cl_view::either` and `type_str` are not part of this model. `Either` is defined by the triangles it keeps, and `type_str` is a string given with the pass.
- `generate` and `set_args` of the operations other than unary functions are not part of this model. `generate` is a parameter, and the set_args visit is the base behaviour of `operation_cl.hpp`.
- OperationCl.DeepCopy: `deep_copy` of operations other than unary functions is defined outside these files. For them the model assumes a structural copy under new ids: a leaf keeps its sizes and diagonals, and an n-ary operation keeps its kind and copies each argument.
- `modify_argument_indices` is the base no-op, so arguments receive the caller's index names.
- OperationCl.KernelGenerator.GetWholeKernelParts: the left-hand side's `get_kernel_parts_lhs` is given as parts, and its effect on the pass state is not modelled.
- OperationCl.DeepCopy: a copy keeps the original's sharing (ids moved by a constant offset). The C++ copies a shared operation once per use, so the copy's generated-set behaviour on shared operations is not captured.
- OperationCl.Eval: it models the checks, the result's size and view, and whether the kernel is launched, but not the values written.
- LgpNewtonSolver.NewtonSolve: the source's line search `while` has no bound. The model stops after `fuel` halvings with `LineSearchExhausted`, so a search that needs more halvings is not modelled.
- LgpNewtonSolver.LgpNewtonSolverVar: it inherits the same `fuel` bound. It also returns the solver node beside the output vector, so the node's fields can be stated.
- Floating point is modelled as reals: rounding, overflow to infinity and NaN are not captured. This covers `pow`, the norm and the line-search arithmetic. The norm test is compared through squares.
- `int`/`long` widths are not modelled (step counter, `max_num_steps`, sizes); integers are unbounded.
- `cond_gradient`, `cond_hessian`, `elt_divide`, `log_density`, `solver_gradient`, `jacobian_fwd` and `inverse_spd` are numerical code outside this model; they are parameters. The conversion of the system to `lgp_conditional_system<double>` (`system_dbl`) is not modelled: the same `System` serves both.
- Default arguments are not modelled: every argument is explicit. The source's defaults are `tol = 1e-3` in the double solver (`lgp_newton_solver.hpp:68`) but `1e-6` in the `var` overload and the wrapper (`:125`, `:162`); `max_num_steps = 100` (`:69`, `:126`, `:163`); `line_search = false` (`:70`, `:127`, and `is_line_search = 0` at `:164`); and `space_matters = false` for `lgp_covariance` and the `lgp_dense_system` constructor (`lgp_dense_system.hpp:35`, `:82`).
- The Stan-language wrapper of `lgp_newton_solver` (building the system from `std::vector<int>` data) is not modelled: it only converts arguments and forwards them.
- The `lgp_dense_system` default constructor, its unused `dat` member, and its getters are not modelled.
- `check_matching_dims`'s message text is not modelled; only the `invalid_argument` outcome is.
- `Add`: the scalar type is real only; `var` and other autodiff scalars are not modelled.
