/** Linkers: combine the values of a chromosome's genes into one result. */
module Linkers {
  import opened Logic

  /** What a linker returns: one number, or a tuple of numbers. */
  datatype Output = Scalar(v: int) | Tuple(items: seq<int>)

  /** The linkers a chromosome may be given. */
  datatype Linker = DefaultLinker | SumLinker | OrLinker

  /** The sum of a sequence, from the left. */
  function Sum(args: seq<int>): int
  {
    if args == [] then 0 else Sum(args[..|args| - 1]) + args[|args| - 1]
  }

  lemma {:induction false} SumAppend(a: seq<int>, b: seq<int>)
    ensures Sum(a + b) == Sum(a) + Sum(b)
    decreases |b|
  {
    if b == [] {
      assert a + b == a;
    } else {
      var b' := b[..|b| - 1];
      assert (a + b)[..|a + b| - 1] == a + b';
      SumAppend(a, b');
    }
  }

  /** `default_linker`: a single argument is returned as it is, any other number of them as a tuple. */
  function Default(args: seq<int>): (r: Output)
    ensures |args| == 1 ==> r == Scalar(args[0])
    ensures |args| != 1 ==> r.Tuple? && r.items == args
  {
    if |args| == 1 then Scalar(args[0]) else Tuple(args)
  }

  /** `sum_linker`. */
  function SumOf(args: seq<int>): (r: Output)
    ensures r.Scalar?
    ensures forall k :: 0 <= k <= |args| ==> r.v == Sum(args[..k]) + Sum(args[k..])
  {
    forall k | 0 <= k <= |args|
      ensures Sum(args) == Sum(args[..k]) + Sum(args[k..])
    {
      assert args == args[..k] + args[k..];
      SumAppend(args[..k], args[k..]);
    }
    Scalar(Sum(args))
  }

  /** `or_linker`: true as soon as one argument is true, false when none is (or there are none). */
  function AnyTruthy(args: seq<int>): (r: bool)
    ensures r <==> exists k :: 0 <= k < |args| && Truthy(args[k])
  {
    if args == [] then false
    else if Truthy(args[0]) then true
    else
      var rest := AnyTruthy(args[1..]);
      assert forall k :: 1 <= k < |args| ==> args[k] == args[1..][k - 1];
      rest
  }

  function OrOf(args: seq<int>): (r: Output)
    ensures r.Scalar? && (r.v == 0 || r.v == 1)
    ensures Truthy(r.v) <==> exists k :: 0 <= k < |args| && Truthy(args[k])
  {
    Scalar(FromBool(AnyTruthy(args)))
  }

  /** Apply a linker to the ordered gene values. */
  function Link(linker: Linker, args: seq<int>): Output
  {
    match linker
    case DefaultLinker => Default(args)
    case SumLinker => SumOf(args)
    case OrLinker => OrOf(args)
  }

  /** The values the library's linker tests expect. */
  lemma LinkerExamples()
    ensures Default([5]) == Scalar(5)
    ensures Default([5, 6, 7]) == Tuple([5, 6, 7])
    ensures SumOf([1, 2, 3, 4]) == Scalar(10)
    ensures OrOf([0, 0, 1]) == Scalar(1)
    ensures OrOf([0, 0]) == Scalar(0) && OrOf([]) == Scalar(0)
  {
    assert Truthy([0, 0, 1][2]);
    assert [1, 2, 3, 4][..3] == [1, 2, 3] && [1, 2, 3][..2] == [1, 2] && [1, 2][..1] == [1];
    assert Sum([1]) == 1;
    assert Sum([1, 2, 3]) == 6;
  }
}
