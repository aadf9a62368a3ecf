/**
 * The base of all kernel-generator operations
 * (stan/math/opencl/kernel_generator/operation_cl.hpp): sizes, diagonal
 * extents and views folded over the arguments, the size guard of eval, the
 * code-generation pass that emits each operation once, and set_args.
 *
 * An expression is a tree whose nodes carry the identity (the address) of the
 * operation object; an operation used twice appears twice with the same id,
 * so the tree stands for the expression DAG the C++ code walks.
 */
module OperationCl {
  import opened KernelCode
  import opened UnaryFunctionCl
  import opened MathErrors

  datatype Expr =
    | Leaf(id: nat, rows: int, cols: int, bottom: int, top: int)  // an operation without arguments; it reports its own sizes
    | Unary(id: nat, fun: UnaryFun, arg: Expr)                     // a unary_function_cl
    | Nary(id: nat, op: string, args: seq<Expr>)                   // any other operation, keeping the base rows, cols and diagonals

  /** The arguments of an operation, in order. */
  function Args(e: Expr): seq<Expr> {
    match e
    case Leaf(_, _, _, _, _) => []
    case Unary(_, _, a) => [a]
    case Nary(_, _, args) => args
  }

  /** Operations that use the base rows() and cols() have at least one argument (std::max of an empty list is undefined). */
  predicate WellFormed(e: Expr)
    decreases e
  {
    match e
    case Leaf(_, _, _, _, _) => true
    case Unary(_, _, a) => WellFormed(a)
    case Nary(_, _, args) => |args| > 0 && forall k :: 0 <= k < |args| ==> WellFormed(args[k])
  }

  // ---------------------------------------------------------------------------
  // Sizes, diagonal extents and views
  // ---------------------------------------------------------------------------

  /** rows(), cols() and extreme_diagonals() of an operation. */
  datatype Dims = Dims(rows: int, cols: int, bottom: int, top: int)

  function Max(a: int, b: int): int { if a < b then b else a }
  function Min(a: int, b: int): int { if a < b then a else b }

  function DimsOf(e: Expr): Dims
    requires WellFormed(e)
    decreases e, 1
  {
    match e
    case Leaf(_, rows, cols, bottom, top) => Dims(rows, cols, bottom, top)
    case Unary(_, f, a) =>
      var d := DimsOf(a);
      if IsPassZero(f) then d
      else
        var diags := FullDiagonals(d.rows, d.cols);
        Dims(d.rows, d.cols, diags.0, diags.1)
    case Nary(_, _, _) => CombineFrom(e, 0)
  }

  /**
   * The base rows/cols (maximum over the arguments) and extreme_diagonals
   * (minimum bottom, maximum top) over the arguments k.. of e.
   */
  function CombineFrom(e: Expr, k: nat): (r: Dims)
    requires e.Nary? && WellFormed(e) && k < |e.args|
    ensures forall m :: k <= m < |e.args| ==>
      var d := DimsOf(e.args[m]);
      d.rows <= r.rows && d.cols <= r.cols && r.bottom <= d.bottom && d.top <= r.top
    ensures exists m :: k <= m < |e.args| && DimsOf(e.args[m]).rows == r.rows
    ensures exists m :: k <= m < |e.args| && DimsOf(e.args[m]).cols == r.cols
    ensures exists m :: k <= m < |e.args| && DimsOf(e.args[m]).bottom == r.bottom
    ensures exists m :: k <= m < |e.args| && DimsOf(e.args[m]).top == r.top
    decreases e, 0, |e.args| - k
  {
    var d := DimsOf(e.args[k]);
    if k == |e.args| - 1 then d
    else
      var rest := CombineFrom(e, k + 1);
      Dims(Max(d.rows, rest.rows), Max(d.cols, rest.cols), Min(d.bottom, rest.bottom), Max(d.top, rest.top))
  }

  function Rows(e: Expr): int requires WellFormed(e) { DimsOf(e).rows }
  function Cols(e: Expr): int requires WellFormed(e) { DimsOf(e).cols }
  function ExtremeDiagonals(e: Expr): (int, int) requires WellFormed(e) { (DimsOf(e).bottom, DimsOf(e).top) }

  /**
   * For an operation that keeps the base definitions, rows() and cols() are at
   * least its arguments' and extreme_diagonals() spans all of theirs ...
   */
  lemma NaryDimsBound(e: Expr, m: nat)
    requires e.Nary? && WellFormed(e) && m < |e.args|
    ensures Rows(e.args[m]) <= Rows(e) && Cols(e.args[m]) <= Cols(e)
    ensures ExtremeDiagonals(e).0 <= ExtremeDiagonals(e.args[m]).0
    ensures ExtremeDiagonals(e.args[m]).1 <= ExtremeDiagonals(e).1
  {
    assert DimsOf(e) == CombineFrom(e, 0);
  }

  /** ... and each of the four is attained by some argument. */
  lemma NaryDimsAttained(e: Expr)
    requires e.Nary? && WellFormed(e)
    ensures exists m :: 0 <= m < |e.args| && Rows(e.args[m]) == Rows(e)
    ensures exists m :: 0 <= m < |e.args| && Cols(e.args[m]) == Cols(e)
    ensures exists m :: 0 <= m < |e.args| && ExtremeDiagonals(e.args[m]).0 == ExtremeDiagonals(e).0
    ensures exists m :: 0 <= m < |e.args| && ExtremeDiagonals(e.args[m]).1 == ExtremeDiagonals(e).1
  {
    var c := CombineFrom(e, 0);
    assert DimsOf(e) == c;
    var a :| 0 <= a < |e.args| && DimsOf(e.args[a]).rows == c.rows;
    assert Rows(e.args[a]) == Rows(e);
    var b :| 0 <= b < |e.args| && DimsOf(e.args[b]).cols == c.cols;
    assert Cols(e.args[b]) == Cols(e);
    var lo :| 0 <= lo < |e.args| && DimsOf(e.args[lo]).bottom == c.bottom;
    assert ExtremeDiagonals(e.args[lo]).0 == ExtremeDiagonals(e).0;
    var hi :| 0 <= hi < |e.args| && DimsOf(e.args[hi]).top == c.top;
    assert ExtremeDiagonals(e.args[hi]).1 == ExtremeDiagonals(e).1;
  }

  /** matrix_cl_view: which triangular parts of a matrix may be non-zero. */
  datatype MatrixView = Diagonal | Lower | Upper | Entire

  predicate HasLower(v: MatrixView) { v == Lower || v == Entire }
  predicate HasUpper(v: MatrixView) { v == Upper || v == Entire }

  /** either(): the view holding the parts of both. */
  function Either(a: MatrixView, b: MatrixView): (r: MatrixView)
    ensures HasLower(r) <==> HasLower(a) || HasLower(b)
    ensures HasUpper(r) <==> HasUpper(a) || HasUpper(b)
  {
    var lower := HasLower(a) || HasLower(b);
    var upper := HasUpper(a) || HasUpper(b);
    if lower && upper then Entire else if lower then Lower else if upper then Upper else Diagonal
  }

  /** view(): Lower when a subdiagonal is written, otherwise Diagonal, joined with Upper when a superdiagonal is. */
  function ViewOf(e: Expr): (r: MatrixView)
    requires WellFormed(e)
    ensures HasLower(r) <==> ExtremeDiagonals(e).0 < 0
    ensures HasUpper(r) <==> ExtremeDiagonals(e).1 > 0
  {
    var diagonals := ExtremeDiagonals(e);
    var view := if diagonals.0 < 0 then Lower else Diagonal;
    if diagonals.1 > 0 then Either(view, Upper) else view
  }

  /** A function passing through zero has its argument's sizes and view. */
  lemma PassZeroView(id: nat, f: UnaryFun, a: Expr)
    requires WellFormed(a) && IsPassZero(f)
    ensures Rows(Unary(id, f, a)) == Rows(a) && Cols(Unary(id, f, a)) == Cols(a)
    ensures ViewOf(Unary(id, f, a)) == ViewOf(a)
  {
  }

  /** Any other function writes the whole matrix once it has more than one row and column. */
  lemma FullView(id: nat, f: UnaryFun, a: Expr)
    requires WellFormed(a) && !IsPassZero(f) && Rows(a) > 1 && Cols(a) > 1
    ensures ViewOf(Unary(id, f, a)) == Entire
  {
  }

  /** The matrix eval() creates, and whether the kernel is launched to fill it. */
  datatype Evaluation = Evaluation(rows: nat, cols: nat, view: MatrixView, launched: bool)

  /** eval(): negative sizes are a domain error; the kernel runs only for a non-empty result. */
  function Eval(e: Expr): (r: Result<Evaluation>)
    requires WellFormed(e)
    ensures r.Err? <==> Rows(e) < 0 || Cols(e) < 0
    ensures r.Err? ==> r.error == DomainError
    ensures r.Ok? ==> r.value.rows == Rows(e) && r.value.cols == Cols(e) && r.value.view == ViewOf(e)
    ensures r.Ok? ==> (r.value.launched <==> Rows(e) > 0 && Cols(e) > 0)
  {
    var rows := Rows(e);
    var cols := Cols(e);
    if rows < 0 || cols < 0 then Err(DomainError)
    else Ok(Evaluation(rows, cols, ViewOf(e), rows * cols > 0))
  }

  // ---------------------------------------------------------------------------
  // deep_copy
  // ---------------------------------------------------------------------------

  /**
   * deep_copy(): a unary function around a deep copy of its argument, as a new
   * object (id moved by offset). The copy of a leaf or an n-ary operation is
   * not defined in these files; it is assumed structural in the same way.
   */
  function DeepCopy(e: Expr, offset: nat): (r: Expr)
    ensures r.id == e.id + offset
    ensures r.Leaf? == e.Leaf? && r.Unary? == e.Unary? && r.Nary? == e.Nary?
    ensures |Args(r)| == |Args(e)|
    ensures r.Unary? ==> r.fun == e.fun
    decreases e
  {
    match e
    case Leaf(id, rows, cols, bottom, top) => Leaf(id + offset, rows, cols, bottom, top)
    case Unary(id, f, a) => Unary(id + offset, f, DeepCopy(a, offset))
    case Nary(id, op, args) =>
      Nary(id + offset, op, seq(|args|, k requires 0 <= k < |args| => DeepCopy(args[k], offset)))
  }

  /** The expression with every id erased: the operations, their data and their nesting. */
  function Shape(e: Expr): Expr
    decreases e
  {
    match e
    case Leaf(_, rows, cols, bottom, top) => Leaf(0, rows, cols, bottom, top)
    case Unary(_, f, a) => Unary(0, f, Shape(a))
    case Nary(_, op, args) => Nary(0, op, seq(|args|, k requires 0 <= k < |args| => Shape(args[k])))
  }

  /** The ids of all operations in the expression. */
  function Ids(e: Expr): set<nat>
    decreases e, 1
  {
    match e
    case Leaf(id, _, _, _, _) => {id}
    case Unary(id, _, a) => {id} + Ids(a)
    case Nary(id, _, _) => {id} + IdsFrom(e, 0)
  }

  /** The ids in the arguments k.. of an n-ary operation. */
  function IdsFrom(e: Expr, k: nat): set<nat>
    requires e.Nary? && k <= |e.args|
    decreases e, 0, |e.args| - k
  {
    if k == |e.args| then {} else Ids(e.args[k]) + IdsFrom(e, k + 1)
  }

  /** A deep copy is the same expression, operation for operation: only the ids differ. */
  lemma {:induction false} DeepCopyShape(e: Expr, offset: nat)
    ensures Shape(DeepCopy(e, offset)) == Shape(e)
    decreases e
  {
    match e
    case Leaf(_, _, _, _, _) =>
    case Unary(_, _, a) => DeepCopyShape(a, offset);
    case Nary(_, _, args) =>
      var c := DeepCopy(e, offset);
      forall k | 0 <= k < |args|
        ensures Shape(c.args[k]) == Shape(args[k])
      {
        assert c.args[k] == DeepCopy(args[k], offset);
        DeepCopyShape(args[k], offset);
      }
      assert seq(|args|, k requires 0 <= k < |args| => Shape(c.args[k]))
          == seq(|args|, k requires 0 <= k < |args| => Shape(args[k]));
  }

  /** The copy's ids are exactly the original's, moved by offset. */
  lemma DeepCopyIds(e: Expr, offset: nat)
    ensures forall x: nat :: x in Ids(DeepCopy(e, offset)) <==> x >= offset && x - offset in Ids(e)
  {
    forall x: nat
      ensures x in Ids(DeepCopy(e, offset)) <==> x >= offset && x - offset in Ids(e)
    {
      DeepCopyId(e, offset, x);
    }
  }

  /** The same, for one id x. */
  lemma {:induction false} DeepCopyId(e: Expr, offset: nat, x: nat)
    ensures x in Ids(DeepCopy(e, offset)) <==> x >= offset && x - offset in Ids(e)
    decreases e, 1
  {
    match e
    case Leaf(_, _, _, _, _) =>
    case Unary(_, _, a) => DeepCopyId(a, offset, x);
    case Nary(_, _, _) => DeepCopyIdFrom(e, offset, 0, x);
  }

  /** The same, for the ids in the arguments k.. of an n-ary operation. */
  lemma {:induction false} DeepCopyIdFrom(e: Expr, offset: nat, k: nat, x: nat)
    requires e.Nary? && k <= |e.args|
    ensures DeepCopy(e, offset).Nary? && k <= |DeepCopy(e, offset).args|
    ensures x in IdsFrom(DeepCopy(e, offset), k) <==> x >= offset && x - offset in IdsFrom(e, k)
    decreases e, 0, |e.args| - k
  {
    if k < |e.args| {
      DeepCopyArg(e, offset, k);
      DeepCopyId(e.args[k], offset, x);
      DeepCopyIdFrom(e, offset, k + 1, x);
    }
  }

  /** Argument k of the copy of an n-ary operation is the copy of its argument k. */
  lemma DeepCopyArg(e: Expr, offset: nat, k: nat)
    requires e.Nary? && k < |e.args|
    ensures DeepCopy(e, offset).Nary? && DeepCopy(e, offset).args[k] == DeepCopy(e.args[k], offset)
  {
  }

  /** With an offset beyond every id, the copy consists of new objects only. */
  lemma DeepCopyNewObjects(e: Expr, offset: nat)
    requires forall x :: x in Ids(e) ==> x < offset
    ensures Ids(DeepCopy(e, offset)) !! Ids(e)
  {
    DeepCopyIds(e, offset);
  }

  /** A deep copy reports the sizes and diagonal extents of the original. */
  lemma {:induction false} DeepCopyDims(e: Expr, offset: nat)
    requires WellFormed(e)
    ensures WellFormed(DeepCopy(e, offset)) && DimsOf(DeepCopy(e, offset)) == DimsOf(e)
    decreases e, 1
  {
    match e
    case Leaf(_, _, _, _, _) =>
    case Unary(_, _, a) =>
      assert WellFormed(DeepCopy(a, offset)) && DimsOf(DeepCopy(a, offset)) == DimsOf(a) by {
        DeepCopyDims(a, offset);
      }
    case Nary(_, _, args) =>
      var c := DeepCopy(e, offset);
      forall k | 0 <= k < |args|
        ensures WellFormed(c.args[k])
      {
        assert c.args[k] == DeepCopy(args[k], offset);
        DeepCopyDims(args[k], offset);
      }
      assert WellFormed(c);
      assert CombineFrom(c, 0) == CombineFrom(e, 0) by {
        DeepCopyCombine(e, offset, 0);
      }
  }

  /** ... and so the view of the original. */
  lemma DeepCopyView(e: Expr, offset: nat)
    requires WellFormed(e)
    ensures WellFormed(DeepCopy(e, offset)) && ViewOf(DeepCopy(e, offset)) == ViewOf(e)
  {
    DeepCopyDims(e, offset);
  }

  lemma {:induction false} DeepCopyCombine(e: Expr, offset: nat, k: nat)
    requires e.Nary? && WellFormed(e) && k < |e.args|
    requires WellFormed(DeepCopy(e, offset))
    ensures CombineFrom(DeepCopy(e, offset), k) == CombineFrom(e, k)
    decreases e, 0, |e.args| - k
  {
    var c := DeepCopy(e, offset);
    assert DimsOf(c.args[k]) == DimsOf(e.args[k]) by {
      assert c.args[k] == DeepCopy(e.args[k], offset);
      DeepCopyDims(e.args[k], offset);
    }
    if k < |e.args| - 1 {
      assert CombineFrom(c, k + 1) == CombineFrom(e, k + 1) by {
        DeepCopyCombine(e, offset, k + 1);
      }
    }
  }

  // ---------------------------------------------------------------------------
  // Code generation
  // ---------------------------------------------------------------------------

  /** Decimal digits of n. */
  function Decimal(n: nat): string
    decreases n
  {
    var digit := ['0', '1', '2', '3', '4', '5', '6', '7', '8', '9'][n % 10];
    if n < 10 then [digit] else Decimal(n / 10) + [digit]
  }

  /** The variable name the name generator hands out k-th. */
  function VarName(k: nat): string {
    "var" + Decimal(k)
  }

  /**
   * What stays fixed during a pass: the kernel type of the scalars, the device
   * functions unary functions include, and generate() of the operations other
   * than unary functions, whose code is not part of this model. That generate
   * gets the operation, the row and column index names, view_handled, the
   * operation's variable name and its arguments' variable names.
   */
  datatype Codegen = Codegen(
    typeStr: string,
    lib: DeviceLibrary,
    other: (Expr, string, string, bool, string, seq<string>) -> KernelParts)

  /**
   * The state of one code-generation pass: the generated set, the name
   * generator's counter, and the var_name of each generated operation (as
   * the index of its name).
   */
  datatype GenState = GenState(generated: set<nat>, count: nat, names: map<nat, nat>)

  /** Exactly the generated operations have names. */
  predicate Named(st: GenState) {
    st.generated == st.names.Keys
  }

  /** st1 generated at least what st did, under the same names, and took no name back. */
  ghost predicate Keeps(st: GenState, st1: GenState) {
    && st.generated <= st1.generated
    && st.count <= st1.count
    && (forall x :: x in st.names ==> x in st1.names && st1.names[x] == st.names[x])
  }

  /** The names are all taken from the counter and all distinct. */
  ghost predicate StateOk(st: GenState) {
    && Named(st)
    && (forall x :: x in st.names ==> st.names[x] < st.count)
    && (forall x, y :: x in st.names && y in st.names && x != y ==> st.names[x] != st.names[y])
  }

  /** The operations st1 added over st got fresh names, one per operation. */
  ghost predicate Fresh(st: GenState, st1: GenState) {
    && (forall x :: x in st1.names && x !in st.names ==> st.count <= st1.names[x] < st1.count)
    && st1.count - st.count == |st1.generated - st.generated|
  }

  /** body_prefix folded into the front of body. */
  function FoldPrefix(p: KernelParts): KernelParts {
    KernelParts(p.includes, p.initialization, "", p.bodyPrefix + p.body, p.reduction, p.args)
  }

  /** The variable names of e's arguments. */
  function ArgNames(e: Expr, names: map<nat, nat>): (r: seq<string>)
    requires forall k :: 0 <= k < |Args(e)| ==> Args(e)[k].id in names
    ensures |r| == |Args(e)|
  {
    seq(|Args(e)|, k requires 0 <= k < |Args(e)| => VarName(names[Args(e)[k].id]))
  }

  /** generate() of the operation itself. */
  function OwnPart(cg: Codegen, e: Expr, i: string, j: string, viewHandled: bool, name: string, argNames: seq<string>)
    : KernelParts
    requires |argNames| == |Args(e)|
  {
    match e
    case Unary(_, f, _) => Generate(f, cg.lib, cg.typeStr, name, argNames[0])
    case _ => cg.other(e, i, j, viewHandled, name, argNames)
  }

  /** The state after operation id takes the next name. */
  function Take(st: GenState, id: nat): GenState {
    GenState(st.generated + {id}, st.count + 1, st.names[id := st.count])
  }

  lemma KeepsTrans(st0: GenState, st1: GenState, st2: GenState)
    requires Keeps(st0, st1) && Keeps(st1, st2)
    ensures Keeps(st0, st2)
  {
  }

  /**
   * get_kernel_parts: an operation already generated in this pass yields empty
   * parts and leaves the state alone; otherwise it takes the next name, marks
   * itself generated, generates its arguments (with view_handled false, as no
   * argument type is void) and then itself, and folds body_prefix into body.
   */
  function GenExpr(cg: Codegen, e: Expr, st: GenState, i: string, j: string, viewHandled: bool)
    : (r: (KernelParts, GenState))
    requires WellFormed(e) && Named(st)
    ensures Named(r.1) && Keeps(st, r.1) && e.id in r.1.generated
    ensures e.id in st.generated ==> r == (Empty, st)
    ensures e.id !in st.generated ==> r.1.names[e.id] == st.count && r.0.bodyPrefix == ""
    decreases e, 1
  {
    if e.id in st.generated then (Empty, st)
    else
      var st1 := Take(st, e.id);
      var args := GenArgs(cg, e, 0, st1, i, j);
      KeepsTrans(st, st1, args.1);
      var own := OwnPart(cg, e, i, j, viewHandled, VarName(st.count), ArgNames(e, args.1.names));
      (FoldPrefix(Plus(Sum(args.0), own)), args.1)
  }

  /** The arguments k.. of e, generated in order, each pass continuing from the previous state. */
  function GenArgs(cg: Codegen, e: Expr, k: nat, st: GenState, i: string, j: string)
    : (r: (seq<KernelParts>, GenState))
    requires WellFormed(e) && k <= |Args(e)| && Named(st)
    ensures |r.0| == |Args(e)| - k
    ensures Named(r.1) && Keeps(st, r.1)
    ensures forall m :: k <= m < |Args(e)| ==> Args(e)[m].id in r.1.generated
    decreases e, 0, |Args(e)| - k
  {
    if k == |Args(e)| then ([], st)
    else
      var first := GenExpr(cg, Args(e)[k], st, i, j, false);
      var rest := GenArgs(cg, e, k + 1, first.1, i, j);
      KeepsTrans(st, first.1, rest.1);
      ([first.0] + rest.0, rest.1)
  }

  /** One step of GenArgs: the k-th argument, then the rest from the state it leaves. */
  lemma GenArgsStep(cg: Codegen, e: Expr, k: nat, st: GenState, i: string, j: string)
    requires WellFormed(e) && k < |Args(e)| && Named(st)
    ensures var first := GenExpr(cg, Args(e)[k], st, i, j, false);
      var rest := GenArgs(cg, e, k + 1, first.1, i, j);
      GenArgs(cg, e, k, st, i, j) == ([first.0] + rest.0, rest.1)
  {
  }

  lemma TakeFresh(st: GenState, id: nat)
    requires StateOk(st) && id !in st.generated
    ensures StateOk(Take(st, id)) && Fresh(st, Take(st, id))
  {
    assert Take(st, id).generated - st.generated == {id};
  }

  lemma FreshTrans(st0: GenState, st1: GenState, st2: GenState)
    requires Keeps(st0, st1) && Keeps(st1, st2) && Fresh(st0, st1) && Fresh(st1, st2)
    ensures Fresh(st0, st2)
  {
    assert st2.generated - st0.generated == (st2.generated - st1.generated) + (st1.generated - st0.generated);
    assert (st2.generated - st1.generated) * (st1.generated - st0.generated) == {};
  }

  /** st1 keeps st, its names are distinct and drawn from the counter, and those it added are fresh. */
  ghost predicate Grows(st: GenState, st1: GenState) {
    StateOk(st1) && Keeps(st, st1) && Fresh(st, st1)
  }

  lemma GrowsTrans(st0: GenState, st1: GenState, st2: GenState)
    requires Grows(st0, st1) && Grows(st1, st2)
    ensures Grows(st0, st2)
  {
    KeepsTrans(st0, st1, st2);
    FreshTrans(st0, st1, st2);
  }

  lemma GrowsRefl(st: GenState)
    requires StateOk(st)
    ensures Grows(st, st)
  {
    assert st.generated - st.generated == {};
  }

  /**
   * A pass over an expression keeps the names distinct and drawn from the
   * counter, and gives each operation it generates a fresh name of its own:
   * the counter advances by exactly the number of operations generated.
   */
  lemma {:induction false} GenFresh(cg: Codegen, e: Expr, st: GenState, i: string, j: string, viewHandled: bool)
    requires WellFormed(e) && StateOk(st)
    ensures Grows(st, GenExpr(cg, e, st, i, j, viewHandled).1)
    decreases e, 1
  {
    if e.id !in st.generated {
      var st1 := Take(st, e.id);
      TakeFresh(st, e.id);
      GenArgsFresh(cg, e, 0, st1, i, j);
      GrowsTrans(st, st1, GenArgs(cg, e, 0, st1, i, j).1);
    } else {
      GrowsRefl(st);
    }
  }

  lemma {:induction false} GenArgsFresh(cg: Codegen, e: Expr, k: nat, st: GenState, i: string, j: string)
    requires WellFormed(e) && k <= |Args(e)| && StateOk(st)
    ensures Grows(st, GenArgs(cg, e, k, st, i, j).1)
    decreases e, 0, |Args(e)| - k
  {
    if k < |Args(e)| {
      ArgWellFormed(e, k);
      var first := GenExpr(cg, Args(e)[k], st, i, j, false).1;
      var rest := GenArgs(cg, e, k + 1, first, i, j).1;
      GenArgsNext(cg, e, k, st, i, j);
      GenFresh(cg, Args(e)[k], st, i, j, false);
      GenArgsFresh(cg, e, k + 1, first, i, j);
      GrowsTrans(st, first, rest);
    } else {
      GenArgsEnd(cg, e, st, i, j);
      GrowsRefl(st);
    }
  }

  lemma ArgWellFormed(e: Expr, k: nat)
    requires WellFormed(e) && k < |Args(e)|
    ensures WellFormed(Args(e)[k])
  {
  }

  /** The state GenArgs leaves is the one the rest leaves after the k-th argument. */
  lemma GenArgsNext(cg: Codegen, e: Expr, k: nat, st: GenState, i: string, j: string)
    requires WellFormed(e) && k < |Args(e)| && Named(st)
    ensures GenArgs(cg, e, k, st, i, j).1 == GenArgs(cg, e, k + 1, GenExpr(cg, Args(e)[k], st, i, j, false).1, i, j).1
  {
  }

  lemma PartsAssoc(a: seq<KernelParts>, b: seq<KernelParts>, c: seq<KernelParts>)
    ensures a + (b + c) == (a + b) + c
  {
  }

  /** With no argument left, GenArgs emits nothing and keeps the state. */
  lemma GenArgsEnd(cg: Codegen, e: Expr, st: GenState, i: string, j: string)
    requires WellFormed(e) && Named(st)
    ensures GenArgs(cg, e, |Args(e)|, st, i, j) == ([], st)
  {
  }

  /** Generating an operation a second time in the same pass emits nothing and changes nothing. */
  lemma GenerateOnce(cg: Codegen, e: Expr, st: GenState, i: string, j: string, viewHandled: bool,
                     i2: string, j2: string, viewHandled2: bool)
    requires WellFormed(e) && Named(st)
    ensures var st1 := GenExpr(cg, e, st, i, j, viewHandled).1;
      GenExpr(cg, e, st1, i2, j2, viewHandled2) == (Empty, st1)
  {
  }

  /**
   * The code of a newly generated operation: the prefixes of its arguments and
   * its own, then the bodies of its arguments in argument order (Sum, whose
   * fields are the concatenations of the parts' fields by SumFields), then its
   * own body; every other field holds the arguments' code before its own.
   */
  lemma {:induction false} ArgumentsFirst(cg: Codegen, e: Expr, st: GenState, i: string, j: string, viewHandled: bool)
    requires WellFormed(e) && Named(st) && e.id !in st.generated
    ensures var r := GenExpr(cg, e, st, i, j, viewHandled);
      var args := GenArgs(cg, e, 0, Take(st, e.id), i, j);
      var own := OwnPart(cg, e, i, j, viewHandled, VarName(st.count), ArgNames(e, args.1.names));
      && r.1 == args.1
      && r.0.bodyPrefix == ""
      && r.0.body == Sum(args.0).bodyPrefix + own.bodyPrefix + Sum(args.0).body + own.body
      && r.0.includes == Sum(args.0).includes + own.includes
      && r.0.initialization == Sum(args.0).initialization + own.initialization
      && r.0.reduction == Sum(args.0).reduction + own.reduction
      && r.0.args == Sum(args.0).args + own.args
  {
    var args := GenArgs(cg, e, 0, Take(st, e.id), i, j);
    var own := OwnPart(cg, e, i, j, viewHandled, VarName(st.count), ArgNames(e, args.1.names));
    var sum := Plus(Sum(args.0), own);
    var r := GenExpr(cg, e, st, i, j, viewHandled);
    assert r == (FoldPrefix(sum), args.1);
    assert r.0.body == sum.bodyPrefix + sum.body;
    assert sum.bodyPrefix + sum.body == Sum(args.0).bodyPrefix + own.bodyPrefix + Sum(args.0).body + own.body;
  }

  /**
   * A new unary function emits its argument's code and then exactly one line,
   * storing fun(argument variable) in the next name the generator hands out.
   */
  lemma {:induction false} UnaryCode(cg: Codegen, id: nat, f: UnaryFun, a: Expr, st: GenState,
                                     i: string, j: string, viewHandled: bool)
    requires WellFormed(a) && Named(st) && id !in st.generated
    ensures var r := GenExpr(cg, Unary(id, f, a), st, i, j, viewHandled);
      var p := GenExpr(cg, a, Take(st, id), i, j, false);
      && r.1 == p.1
      && r.1.names[id] == st.count
      && r.0.body == p.0.body + cg.typeStr + " " + VarName(st.count) + " = " + Spelling(f)
                     + "(" + VarName(r.1.names[a.id]) + ");\n"
      && r.0.includes == p.0.includes + Include(f, cg.lib)
  {
    var e := Unary(id, f, a);
    var p := GenExpr(cg, a, Take(st, id), i, j, false);
    var args := GenArgs(cg, e, 0, Take(st, id), i, j);
    ArgumentsFirst(cg, e, st, i, j, viewHandled);
    assert Args(e) == [a];
    GenArgsStep(cg, e, 0, Take(st, id), i, j);
    assert GenArgs(cg, e, 1, p.1, i, j) == ([], p.1);
    assert args.0 == [p.0] && args.1 == p.1;
    assert Sum(args.0) == Plus(Empty, p.0);
    PlusIdentity(p.0);
    assert p.0.bodyPrefix == "";
    var argName := VarName(p.1.names[a.id]);
    assert ArgNames(e, args.1.names)[0] == argName;
    var own := Generate(f, cg.lib, cg.typeStr, VarName(st.count), argName);
    assert OwnPart(cg, e, i, j, viewHandled, VarName(st.count), ArgNames(e, args.1.names)) == own;
    var line := own.body;
    assert GenExpr(cg, e, st, i, j, viewHandled).0.body == p.0.body + line;
    AppendLine(p.0.body, cg.typeStr, VarName(st.count), Spelling(f), argName);
  }

  /** Appending a generated line is appending its pieces one after another. */
  lemma AppendLine(code: string, typeStr: string, name: string, fun: string, arg: string)
    ensures code + (typeStr + " " + name + " = " + fun + "(" + arg + ");\n")
         == code + typeStr + " " + name + " = " + fun + "(" + arg + ");\n"
  {
  }

  /** std::accumulate of parts from kernel_parts{}. */
  method Accumulate(ps: seq<KernelParts>) returns (res: KernelParts)
    ensures res == Sum(ps)
  {
    res := Empty;
    for k := 0 to |ps|
      invariant res == Sum(ps[..k])
    {
      assert ps[..k + 1][..k] == ps[..k];
      res := Plus(res, ps[k]);
    }
    assert ps[..|ps|] == ps;
  }

  /**
   * One code-generation pass over an expression: the generated set, the name
   * generator and the var_name of every operation generated so far.
   */
  class KernelGenerator {
    var generated: set<nat>
    var count: nat
    var names: map<nat, nat>

    function State(): GenState
      reads this
    {
      GenState(generated, count, names)
    }

    /** Exactly the generated operations have names, all distinct and drawn from the counter. */
    ghost predicate Valid()
      reads this
    {
      StateOk(State())
    }

    /** A pass starts with nothing generated and a fresh name generator. */
    constructor()
      ensures generated == {} && count == 0 && names == map[]
      ensures Valid()
    {
      generated := {};
      count := 0;
      names := map[];
    }

    /** get_kernel_parts, proved to follow GenExpr. */
    method GetKernelParts(cg: Codegen, e: Expr, i: string, j: string, viewHandled: bool) returns (parts: KernelParts)
      requires WellFormed(e) && Valid()
      modifies this
      ensures (parts, State()) == GenExpr(cg, e, old(State()), i, j, viewHandled)
      ensures Valid()
      decreases e, 1
    {
      parts := Empty;
      if e.id in generated {
        return;
      }
      ghost var st0 := State();
      var name := count;            // name_gen.generate()
      count := count + 1;
      names := names[e.id := name];
      generated := generated + {e.id};
      assert State() == Take(st0, e.id);
      TakeFresh(st0, e.id);
      var argsParts := GenerateArgs(cg, e, i, j);
      var res := Accumulate(argsParts);
      var own := OwnPart(cg, e, i, j, viewHandled, VarName(name), ArgNames(e, names));
      assert GenExpr(cg, e, st0, i, j, viewHandled) == (FoldPrefix(Plus(res, own)), State());
      res := Plus(res, own);        // res += my_part
      res := res.(body := res.bodyPrefix + res.body);
      res := res.(bodyPrefix := "");
      parts := res;
      GenFresh(cg, e, st0, i, j, viewHandled);
    }

    /** The argument expressions' parts, generated in argument order. */
    method GenerateArgs(cg: Codegen, e: Expr, i: string, j: string) returns (argsParts: seq<KernelParts>)
      requires WellFormed(e) && Valid()
      modifies this
      ensures (argsParts, State()) == GenArgs(cg, e, 0, old(State()), i, j)
      ensures Valid()
      decreases e, 0
    {
      ghost var whole := GenArgs(cg, e, 0, State(), i, j);
      var args := Args(e);
      argsParts := [];
      for k := 0 to |args|
        invariant Valid()
        invariant whole.0 == argsParts + GenArgs(cg, e, k, State(), i, j).0
        invariant whole.1 == GenArgs(cg, e, k, State(), i, j).1
      {
        ArgWellFormed(e, k);
        ghost var first := GenExpr(cg, args[k], State(), i, j, false);
        ghost var rest := GenArgs(cg, e, k + 1, first.1, i, j);
        assert GenArgs(cg, e, k, State(), i, j) == ([first.0] + rest.0, rest.1) by {
          GenArgsStep(cg, e, k, State(), i, j);
        }
        var p := GetKernelParts(cg, args[k], i, j, false);
        assert argsParts + ([p] + rest.0) == (argsParts + [p]) + rest.0 by {
          PartsAssoc(argsParts, [p], rest.0);
        }
        argsParts := argsParts + [p];
      }
      assert GenArgs(cg, e, |args|, State(), i, j) == ([], State()) by {
        GenArgsEnd(cg, e, State(), i, j);
      }
      assert argsParts + [] == argsParts;
    }

    /**
     * get_whole_kernel_parts: the expression's parts, then the left-hand side's
     * parts with the assignment of the expression's variable appended to its body.
     */
    method GetWholeKernelParts(cg: Codegen, e: Expr, i: string, j: string, lhs: KernelParts)
      returns (parts: KernelParts)
      requires WellFormed(e) && Valid()
      modifies this
      ensures State() == GenExpr(cg, e, old(State()), i, j, false).1
      ensures Valid()
      ensures e.id in names
      ensures parts == Plus(GenExpr(cg, e, old(State()), i, j, false).0,
                            lhs.(body := lhs.body + " = " + VarName(names[e.id]) + ";\n"))
    {
      parts := GetKernelParts(cg, e, i, j, false);
      var outParts := lhs;
      outParts := outParts.(body := outParts.body + " = " + VarName(names[e.id]) + ";\n");
      parts := Plus(parts, outParts);
    }
  }

  // ---------------------------------------------------------------------------
  // set_args
  // ---------------------------------------------------------------------------

  ghost predicate NoDuplicates(s: seq<nat>) {
    forall a, b :: 0 <= a < b < |s| ==> s[a] != s[b]
  }

  lemma NoDuplicatesAppend(s: seq<nat>, t: seq<nat>)
    requires NoDuplicates(s) && NoDuplicates(t)
    requires forall x :: x in t ==> x !in s
    ensures NoDuplicates(s + t)
  {
    forall a, b | 0 <= a < b < |s + t|
      ensures (s + t)[a] != (s + t)[b]
    {
      if a < |s| && b >= |s| {
        assert (s + t)[b] in t;
      }
    }
  }

  lemma AppendAssoc(a: seq<nat>, b: seq<nat>, c: seq<nat>)
    ensures (a + b) + c == a + (b + c)
  {
  }

  /**
   * The operations whose set_args body runs, in order, starting from the set
   * gen: an operation already in the set is skipped with its arguments;
   * otherwise it is added and its arguments follow in order.
   */
  function SetArgsVisit(e: Expr, gen: set<nat>): (r: (seq<nat>, set<nat>))
    ensures r.1 == gen + (set x | x in r.0)
    ensures forall x :: x in r.0 ==> x !in gen
    ensures NoDuplicates(r.0)
    ensures e.id in r.1
    decreases e, 1
  {
    if e.id in gen then ([], gen)
    else
      var rest := SetArgsFrom(e, 0, gen + {e.id});
      NoDuplicatesAppend([e.id], rest.0);
      ([e.id] + rest.0, rest.1)
  }

  function SetArgsFrom(e: Expr, k: nat, gen: set<nat>): (r: (seq<nat>, set<nat>))
    requires k <= |Args(e)|
    ensures r.1 == gen + (set x | x in r.0)
    ensures forall x :: x in r.0 ==> x !in gen
    ensures NoDuplicates(r.0)
    decreases e, 0, |Args(e)| - k
  {
    if k == |Args(e)| then ([], gen)
    else
      var first := SetArgsVisit(Args(e)[k], gen);
      var rest := SetArgsFrom(e, k + 1, first.1);
      NoDuplicatesAppend(first.0, rest.0);
      (first.0 + rest.0, rest.1)
  }

  /** The set_args pass: the set of operations done so far and the order they ran in. */
  class ArgSetter {
    var generated: set<nat>
    var visited: seq<nat>

    /** Each operation ran at most once, and the set holds exactly those that ran. */
    ghost predicate Valid()
      reads this
    {
      NoDuplicates(visited) && generated == set x | x in visited
    }

    constructor()
      ensures Valid() && generated == {} && visited == []
    {
      generated := {};
      visited := [];
    }

    /** set_args, proved to follow SetArgsVisit; it keeps every operation to one visit. */
    method SetArgs(e: Expr)
      requires Valid()
      modifies this
      ensures Valid()
      ensures visited == old(visited) + SetArgsVisit(e, old(generated)).0
      ensures generated == SetArgsVisit(e, old(generated)).1
      decreases e, 1
    {
      if e.id !in generated {
        ghost var visited0 := visited;
        ghost var gen1 := generated + {e.id};
        generated := generated + {e.id};
        visited := visited + [e.id];
        SetArgsOfArgs(e);
        assert visited0 + [e.id] + SetArgsFrom(e, 0, gen1).0 == visited0 + ([e.id] + SetArgsFrom(e, 0, gen1).0);
      }
    }

    /** The loop of set_args over the arguments, in order. */
    method SetArgsOfArgs(e: Expr)
      requires Valid()
      modifies this
      ensures Valid()
      ensures visited == old(visited) + SetArgsFrom(e, 0, old(generated)).0
      ensures generated == SetArgsFrom(e, 0, old(generated)).1
      decreases e, 0
    {
      ghost var whole := SetArgsFrom(e, 0, generated);
      ghost var visited0 := visited;
      var args := Args(e);
      for k := 0 to |args|
        invariant Valid()
        invariant whole.1 == SetArgsFrom(e, k, generated).1
        invariant visited0 + whole.0 == visited + SetArgsFrom(e, k, generated).0
      {
        ghost var before := visited;
        ghost var first := SetArgsVisit(args[k], generated);
        ghost var rest := SetArgsFrom(e, k + 1, first.1);
        assert SetArgsFrom(e, k, generated) == (first.0 + rest.0, rest.1);
        SetArgs(args[k]);
        assert visited == before + first.0;
        AppendAssoc(before, first.0, rest.0);
      }
      assert SetArgsFrom(e, |args|, generated).0 == [];
    }
  }
}
