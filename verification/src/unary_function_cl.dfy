/**
 * Unary functions of the kernel generator
 * (stan/math/opencl/kernel_generator/unary_function_cl.hpp): the functions the
 * macros declare, the spelling each one emits, which of them pass through zero,
 * and the code unary_function_cl::generate produces.
 */
module UnaryFunctionCl {
  import opened KernelCode

  /** One constructor per macro invocation, in the order of the header. */
  datatype UnaryFun =
    | Rsqrt | Sqrt | Cbrt
    | Exp | Exp2 | Expm1
    | Log | Log2 | Log10 | Log1p
    | Sin | Sinh | Cos | Cosh | Tan | Tanh
    | Asin | Asinh | Acos | Acosh | Atan | Atanh
    | Tgamma | Lgamma | Erf | Erfc
    | Floor | Round | Ceil
    | Digamma | Log1mExp | Log1pExp

  datatype Option<T> = None | Some(value: T)

  /** The name the macro stringises (#fun) and generate emits as the call. */
  function Spelling(f: UnaryFun): string {
    match f
    case Rsqrt => "rsqrt"     case Sqrt => "sqrt"       case Cbrt => "cbrt"
    case Exp => "exp"         case Exp2 => "exp2"       case Expm1 => "expm1"
    case Log => "log"         case Log2 => "log2"       case Log10 => "log10"
    case Log1p => "log1p"     case Sin => "sin"         case Sinh => "sinh"
    case Cos => "cos"         case Cosh => "cosh"       case Tan => "tan"
    case Tanh => "tanh"       case Asin => "asin"       case Asinh => "asinh"
    case Acos => "acos"       case Acosh => "acosh"     case Atan => "atan"
    case Atanh => "atanh"     case Tgamma => "tgamma"   case Lgamma => "lgamma"
    case Erf => "erf"         case Erfc => "erfc"       case Floor => "floor"
    case Round => "round"     case Ceil => "ceil"       case Digamma => "digamma"
    case Log1mExp => "log1m_exp"
    case Log1pExp => "log1p_exp"
  }

  /** The function a spelling names, if any, looked up by its first letter. */
  function FromSpelling(s: string): Option<UnaryFun> {
    if |s| == 0 then None
    else match s[0]
      case 'a' =>
        if s == "asin" then Some(Asin) else if s == "asinh" then Some(Asinh)
        else if s == "acos" then Some(Acos) else if s == "acosh" then Some(Acosh)
        else if s == "atan" then Some(Atan) else if s == "atanh" then Some(Atanh)
        else None
      case 'c' =>
        if s == "cbrt" then Some(Cbrt) else if s == "cos" then Some(Cos)
        else if s == "cosh" then Some(Cosh) else if s == "ceil" then Some(Ceil)
        else None
      case 'd' => if s == "digamma" then Some(Digamma) else None
      case 'e' =>
        if s == "exp" then Some(Exp) else if s == "exp2" then Some(Exp2)
        else if s == "expm1" then Some(Expm1) else if s == "erf" then Some(Erf)
        else if s == "erfc" then Some(Erfc)
        else None
      case 'f' => if s == "floor" then Some(Floor) else None
      case 'l' =>
        if s == "log" then Some(Log) else if s == "log2" then Some(Log2)
        else if s == "log10" then Some(Log10) else if s == "log1p" then Some(Log1p)
        else if s == "lgamma" then Some(Lgamma) else if s == "log1m_exp" then Some(Log1mExp)
        else if s == "log1p_exp" then Some(Log1pExp)
        else None
      case 'r' =>
        if s == "rsqrt" then Some(Rsqrt) else if s == "round" then Some(Round) else None
      case 's' =>
        if s == "sqrt" then Some(Sqrt) else if s == "sin" then Some(Sin)
        else if s == "sinh" then Some(Sinh)
        else None
      case 't' =>
        if s == "tan" then Some(Tan) else if s == "tanh" then Some(Tanh)
        else if s == "tgamma" then Some(Tgamma)
        else None
      case _ => None
  }

  /** Reading back the emitted spelling gives the function: no two functions share a name. */
  lemma SpellingRoundTrip(f: UnaryFun)
    ensures FromSpelling(Spelling(f)) == Some(f)
  {
    match f
    case Rsqrt => case Sqrt => case Cbrt => case Exp => case Exp2 => case Expm1 =>
    case Log => case Log2 => case Log10 => case Log1p => case Sin => case Sinh =>
    case Cos => case Cosh => case Tan => case Tanh => case Asin => case Asinh =>
    case Acos => case Acosh => case Atan => case Atanh => case Tgamma => case Lgamma =>
    case Erf => case Erfc => case Floor => case Round => case Ceil => case Digamma =>
    case Log1mExp => case Log1pExp =>
  }

  lemma SpellingInjective(f: UnaryFun, g: UnaryFun)
    ensures Spelling(f) == Spelling(g) <==> f == g
  {
    SpellingRoundTrip(f);
    SpellingRoundTrip(g);
  }

  /** The functions declared with ADD_UNARY_FUNCTION_PASS_ZERO: f(0) = 0. */
  predicate IsPassZero(f: UnaryFun) {
    f in {Sqrt, Cbrt, Expm1, Log1p, Sin, Sinh, Tan, Tanh, Asin, Asinh, Atan, Atanh, Erf, Floor, Round, Ceil}
  }

  /** The device-function sources the three included functions bring along. */
  datatype DeviceLibrary = DeviceLibrary(digamma: string, log1mExp: string, log1pExp: string)

  /** fun_::include: a device-function source for three functions, "" for the rest. */
  function Include(f: UnaryFun, lib: DeviceLibrary): (r: string)
    ensures r != "" ==> f in {Digamma, Log1mExp, Log1pExp}
    ensures IsPassZero(f) ==> r == ""
  {
    match f
    case Digamma => lib.digamma
    case Log1mExp => lib.log1mExp
    case Log1pExp => lib.log1pExp
    case _ => ""
  }

  /**
   * unary_function_cl::generate: the one line that stores fun(arg) in the
   * operation's variable, plus the function's include; the row and column index
   * names and view_handled do not enter it.
   */
  function Generate(f: UnaryFun, lib: DeviceLibrary, typeStr: string, varName: string, argName: string): (r: KernelParts)
    ensures r.initialization == "" && r.bodyPrefix == "" && r.reduction == "" && r.args == ""
    ensures r.includes == Include(f, lib)
    ensures r.body == typeStr + " " + varName + " = " + Spelling(f) + "(" + argName + ");\n"
  {
    KernelParts(Include(f, lib), "", "", typeStr + " " + varName + " = " + Spelling(f) + "(" + argName + ");\n", "", "")
  }

  /** The piece b of a + b + c sits between |a| and |a| + |b|. */
  lemma Slice(a: string, b: string, c: string)
    ensures (a + b + c)[|a|..|a| + |b|] == b
  {
    assert (a + b + c)[|a|..|a| + |b|] == b by {
      forall k | 0 <= k < |b| ensures (a + b + c)[|a| + k] == b[k] { }
    }
  }

  /** A line of the shape generate emits, split back into its variable, call and argument. */
  lemma LineSlices(typeStr: string, varName: string, sp: string, argName: string)
    ensures var body := typeStr + " " + varName + " = " + sp + "(" + argName + ");\n";
      var call := |typeStr| + |varName| + 4;
      && body[|typeStr| + 1..|typeStr| + 1 + |varName|] == varName
      && body[call..call + |sp|] == sp
      && body[call + |sp| + 1..call + |sp| + 1 + |argName|] == argName
  {
    var body := typeStr + " " + varName + " = " + sp + "(" + argName + ");\n";
    var tail := " = " + sp + "(" + argName + ");\n";
    assert body == (typeStr + " ") + varName + tail;
    Slice(typeStr + " ", varName, tail);
    var tail2 := "(" + argName + ");\n";
    assert body == (typeStr + " " + varName + " = ") + sp + tail2;
    Slice(typeStr + " " + varName + " = ", sp, tail2);
    assert body == (typeStr + " " + varName + " = " + sp + "(") + argName + ");\n";
    Slice(typeStr + " " + varName + " = " + sp + "(", argName, ");\n");
  }

  /** The line generate emits, split back into the variable, the function and the argument. */
  lemma GenerateLine(f: UnaryFun, lib: DeviceLibrary, typeStr: string, varName: string, argName: string)
    ensures var body := Generate(f, lib, typeStr, varName, argName).body;
      var call := |typeStr| + |varName| + 4;
      && body[|typeStr| + 1..|typeStr| + 1 + |varName|] == varName
      && FromSpelling(body[call..call + |Spelling(f)|]) == Some(f)
      && body[call + |Spelling(f)| + 1..call + |Spelling(f)| + 1 + |argName|] == argName
  {
    var sp := Spelling(f);
    LineSlices(typeStr, varName, sp, argName);
    SpellingRoundTrip(f);
  }

  /** The extreme_diagonals override of the functions that do not pass through zero. */
  function FullDiagonals(rows: int, cols: int): (r: (int, int))
    ensures rows > 1 ==> r.0 < 0
    ensures cols > 1 ==> r.1 > 0
    ensures r.0 <= 0 - rows + 1 && r.1 >= cols - 1
  {
    (-rows + 1, cols - 1)
  }
}
