/**
 * The parts of an OpenCL kernel that the kernel generator assembles
 * (kernel_parts in stan/math/opencl/kernel_generator/operation_cl.hpp).
 */
module KernelCode {

  /** Six pieces of kernel source, each joined field by field. */
  datatype KernelParts = KernelParts(
    includes: string,        // function definitions placed at the start of the source
    initialization: string,  // code run by all threads, even those without work
    bodyPrefix: string,      // code placed at the start of the kernel body
    body: string,            // the code executing the operations
    reduction: string,       // work-group reductions run by all threads
    args: string)            // kernel arguments

  /** kernel_parts{}: every field empty. */
  const Empty := KernelParts("", "", "", "", "", "")

  /** operator+: each field of a followed by the same field of b. */
  function Plus(a: KernelParts, b: KernelParts): KernelParts {
    KernelParts(a.includes + b.includes, a.initialization + b.initialization,
                a.bodyPrefix + b.bodyPrefix, a.body + b.body,
                a.reduction + b.reduction, a.args + b.args)
  }

  /** The empty parts are a left and a right identity of operator+. */
  lemma PlusIdentity(a: KernelParts)
    ensures Plus(Empty, a) == a && Plus(a, Empty) == a
  {
    assert Plus(Empty, a).includes == a.includes && Plus(a, Empty).includes == a.includes;
  }

  /** operator+ is associative. */
  lemma PlusAssociative(a: KernelParts, b: KernelParts, c: KernelParts)
    ensures Plus(Plus(a, b), c) == Plus(a, Plus(b, c))
  {
    assert (a.body + b.body) + c.body == a.body + (b.body + c.body);
  }

  /** std::accumulate over parts from kernel_parts{}: the left fold of operator+. */
  function Sum(ps: seq<KernelParts>): KernelParts {
    if |ps| == 0 then Empty else Plus(Sum(ps[..|ps| - 1]), ps[|ps| - 1])
  }

  /** The six fields, by name. */
  datatype Field = Includes | Initialization | BodyPrefix | Body | Reduction | KernelArgs

  function Get(p: KernelParts, f: Field): string {
    match f
    case Includes => p.includes
    case Initialization => p.initialization
    case BodyPrefix => p.bodyPrefix
    case Body => p.body
    case Reduction => p.reduction
    case KernelArgs => p.args
  }

  /** operator+ joins every field, whichever it is. */
  lemma PlusGet(a: KernelParts, b: KernelParts, f: Field)
    ensures Get(Plus(a, b), f) == Get(a, f) + Get(b, f)
  {
  }

  /** Field f of each part, in order. */
  function Column(ps: seq<KernelParts>, f: Field): (r: seq<string>)
    ensures |r| == |ps|
  {
    seq(|ps|, k requires 0 <= k < |ps| => Get(ps[k], f))
  }

  function Concat(ss: seq<string>): string {
    if |ss| == 0 then "" else Concat(ss[..|ss| - 1]) + ss[|ss| - 1]
  }

  /** Every field of the sum is the concatenation of that field over the parts, in order. */
  lemma {:induction false} SumFields(ps: seq<KernelParts>)
    ensures forall f: Field :: Get(Sum(ps), f) == Concat(Column(ps, f))
  {
    forall f: Field
      ensures Get(Sum(ps), f) == Concat(Column(ps, f))
    {
      SumField(ps, f);
    }
  }

  lemma {:induction false} SumField(ps: seq<KernelParts>, f: Field)
    ensures Get(Sum(ps), f) == Concat(Column(ps, f))
  {
    if |ps| > 0 {
      var n := |ps| - 1;
      SumField(ps[..n], f);
      assert Column(ps, f)[..n] == Column(ps[..n], f);
      PlusGet(Sum(ps[..n]), ps[n], f);
    }
  }

  /** Summing a sequence of parts and then one more is summing the longer sequence. */
  lemma SumAppend(ps: seq<KernelParts>, p: KernelParts)
    ensures Sum(ps + [p]) == Plus(Sum(ps), p)
  {
    assert (ps + [p])[..|ps|] == ps;
  }

  /** The sum of two runs of parts is the sum of their concatenation. */
  lemma {:induction false} SumConcat(ps: seq<KernelParts>, qs: seq<KernelParts>)
    ensures Sum(ps + qs) == Plus(Sum(ps), Sum(qs))
    decreases |qs|
  {
    if |qs| == 0 {
      assert ps + qs == ps;
      PlusIdentity(Sum(ps));
    } else {
      var n := |qs| - 1;
      assert ps + qs == (ps + qs[..n]) + [qs[n]];
      SumAppend(ps + qs[..n], qs[n]);
      SumConcat(ps, qs[..n]);
      PlusAssociative(Sum(ps), Sum(qs[..n]), qs[n]);
    }
  }
}
