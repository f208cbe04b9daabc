/**
 * Alleles: the symbols a Karva gene is written in. A function allele carries
 * an operator of fixed arity and display glyph; a terminal is either the name
 * of an attribute of the input object or a numeric constant.
 */
module Symbols {
  import Comparison
  import Logic

  /** The operators that can stand as function alleles, with the glyphs they are registered under. */
  datatype Op =
    | Add | Subtract | Multiply
    | EqualOp | UnequalOp | LessOp | GreaterOp | LessOrEqualOp | GreaterOrEqualOp
    | AndOp | OrOp | NotOp | IfOp

  function Arity(op: Op): nat
  {
    match op
    case NotOp => 1
    case IfOp => 3
    case _ => 2
  }

  function Glyph(op: Op): string
  {
    match op
    case Add => "+"
    case Subtract => "-"
    case Multiply => "*"
    case EqualOp => "="
    case UnequalOp => "U"
    case LessOp => "<"
    case GreaterOp => ">"
    case LessOrEqualOp => "L"
    case GreaterOrEqualOp => "G"
    case AndOp => "&"
    case OrOp => "|"
    case NotOp => "!"
    case IfOp => "I"
  }

  /** Call an operator on exactly as many arguments as its arity. */
  function Apply(op: Op, args: seq<int>): int
    requires |args| == Arity(op)
  {
    match op
    case Add => args[0] + args[1]
    case Subtract => args[0] - args[1]
    case Multiply => args[0] * args[1]
    case EqualOp => Comparison.Equal(args[0], args[1])
    case UnequalOp => Comparison.Unequal(args[0], args[1])
    case LessOp => Comparison.Less(args[0], args[1])
    case GreaterOp => Comparison.Greater(args[0], args[1])
    case LessOrEqualOp => Comparison.LessOrEqual(args[0], args[1])
    case GreaterOrEqualOp => Comparison.GreaterOrEqual(args[0], args[1])
    case AndOp => Logic.And(args[0], args[1])
    case OrOp => Logic.Or(args[0], args[1])
    case NotOp => Logic.Not(args[0])
    case IfOp => Logic.If(args[0], args[1], args[2])
  }

  predicate IsSelector(op: Op) {
    op.EqualOp? || op.UnequalOp? || op.LessOp? || op.GreaterOp? || op.LessOrEqualOp? || op.GreaterOrEqualOp?
  }

  /** The `*_op` selectors: each returns one of its two arguments, `<`/`L` the minimum, `>`/`G` the maximum. */
  lemma SelectorOps(op: Op, i: int, j: int)
    requires IsSelector(op)
    ensures Arity(op) == 2
    ensures Apply(op, [i, j]) == i || Apply(op, [i, j]) == j
    ensures op.EqualOp? ==> Apply(op, [i, j]) == j
    ensures op.UnequalOp? ==> Apply(op, [i, j]) == i
    ensures (op.LessOp? || op.LessOrEqualOp?) ==> Apply(op, [i, j]) <= i && Apply(op, [i, j]) <= j
    ensures (op.GreaterOp? || op.GreaterOrEqualOp?) ==> Apply(op, [i, j]) >= i && Apply(op, [i, j]) >= j
  {
  }

  datatype Allele = Fn(op: Op) | Attr(name: string) | Const(value: int)

  /** The number of arguments an allele takes: its operator's arity, zero for a terminal. */
  function AlleleArity(a: Allele): nat
  {
    if a.Fn? then Arity(a.op) else 0
  }

  /** Decimal digits of a natural number. */
  function NatToString(n: nat): (s: string)
    ensures |s| >= 1
    ensures |s| == 1 <==> n < 10
    decreases n
  {
    var d := [(48 + n % 10) as char];
    if n < 10 then d else NatToString(n / 10) + d
  }

  /** `str(v)` of an integer constant. */
  function IntToString(v: int): (s: string)
    ensures |s| >= 1
    ensures |s| == 1 <==> 0 <= v < 10
  {
    if v < 0 then "-" + NatToString(-v) else NatToString(v)
  }

  /** An allele's name in a rendering: the glyph of a function, the attribute name, or the constant's digits. */
  function Name(a: Allele): string
  {
    match a
    case Fn(op) => Glyph(op)
    case Attr(n) => n
    case Const(v) => IntToString(v)
  }

  /** A one-character name is shown as is, a longer (or empty) one in braces. */
  function Display(a: Allele): (s: string)
    ensures |Name(a)| == 1 ==> s == Name(a)
    ensures |Name(a)| != 1 ==> s == "{" + Name(a) + "}"
  {
    var n := Name(a);
    if |n| == 1 then n else "{" + n + "}"
  }

  /** The rendering of a sequence of alleles, one display after another. */
  function Render(s: seq<Allele>): string
  {
    if s == [] then "" else Display(s[0]) + Render(s[1..])
  }

  lemma {:induction false} RenderAppend(a: seq<Allele>, b: seq<Allele>)
    ensures Render(a + b) == Render(a) + Render(b)
    decreases |a|
  {
    if a == [] {
      assert a + b == b;
    } else {
      var ab := a + b;
      assert ab != [] && ab[0] == a[0] && ab[1..] == a[1..] + b;
      RenderAppend(a[1..], b);
      var d, ra, rb := Display(a[0]), Render(a[1..]), Render(b);
      assert Render(ab) == d + Render(a[1..] + b);
      assert Render(a) == d + ra;
      ConcatAssoc(d, ra, rb);
    }
  }

  lemma ConcatAssoc(x: string, y: string, z: string)
    ensures x + (y + z) == (x + y) + z
  {
  }

  /** Every allele contributes at least one character; a rendering of one-character names has one per allele. */
  lemma {:induction false} RenderLength(s: seq<Allele>)
    ensures |Render(s)| >= |s|
    ensures (forall k :: 0 <= k < |s| ==> |Name(s[k])| == 1) ==> |Render(s)| == |s|
    decreases |s|
  {
    if s != [] {
      RenderLength(s[1..]);
      assert forall k :: 1 <= k < |s| ==> s[1..][k - 1] == s[k];
    }
  }

  /** The rendering of the library's worked example gene. */
  lemma RenderExample()
    ensures Render([Fn(Add), Fn(Subtract), Attr("a"), Const(1), Attr("a")]) == "+-a1a"
  {
    var g := [Fn(Add), Fn(Subtract), Attr("a"), Const(1), Attr("a")];
    assert Display(Const(1)) == "1" by {
      assert IntToString(1) == "1";
    }
    assert Render(g[4..]) == "a";
    assert Render(g[3..]) == "1a";
    assert Render(g[2..]) == "a1a";
    assert Render(g[1..]) == "-a1a";
  }

  /** Names longer than one character are braced. */
  lemma RenderBracesExample()
    ensures Render([Attr("ab"), Const(12), Const(-3)]) == "{ab}{12}{-3}"
  {
    var h := [Attr("ab"), Const(12), Const(-3)];
    assert Display(Const(12)) == "{12}" by {
      assert IntToString(12) == "12";
    }
    assert Display(Const(-3)) == "{-3}" by {
      assert IntToString(-3) == "-3";
    }
    assert Render(h[2..]) == "{-3}";
    assert Render(h[1..]) == "{12}{-3}";
  }
}
