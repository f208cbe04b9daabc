/**
 * The meaning of a Karva gene: breadth-first (heap-order) arity accounting,
 * the coding region it delimits, the expression tree the coding region
 * decodes to, and that tree's value on an object's attributes.
 */
module Coding {
  import opened Symbols

  /** Total arity of a sequence of alleles. */
  function ArSum(s: seq<Allele>): nat
  {
    if s == [] then 0 else ArSum(s[..|s| - 1]) + AlleleArity(s[|s| - 1])
  }

  lemma ArSumStep(s: seq<Allele>, k: nat)
    requires k < |s|
    ensures ArSum(s[..k + 1]) == ArSum(s[..k]) + AlleleArity(s[k])
  {
    assert s[..k + 1][..k] == s[..k];
  }

  /** Prefix sums never decrease. */
  lemma {:induction false} ArSumMonotone(s: seq<Allele>, j: nat, k: nat)
    requires j <= k <= |s|
    ensures ArSum(s[..j]) <= ArSum(s[..k])
    decreases k - j
  {
    if j < k {
      ArSumStep(s, k - 1);
      ArSumMonotone(s, j, k - 1);
    }
  }

  /**
   * The number of argument slots still open after the first `k` alleles have
   * been read in breadth-first order: one for the root, plus every arity
   * read, minus every allele read.
   */
  function Need(s: seq<Allele>, k: nat): int
    requires k <= |s|
  {
    1 + ArSum(s[..k]) - k
  }

  lemma NeedStep(s: seq<Allele>, k: nat)
    requires k < |s|
    ensures Need(s, k + 1) == Need(s, k) + AlleleArity(s[k]) - 1
  {
    ArSumStep(s, k);
  }

  /**
   * `c` is the last coding index: the first `c + 1` alleles close every open
   * slot, and no shorter prefix does.
   */
  predicate CodingEnd(s: seq<Allele>, c: nat)
  {
    && c < |s|
    && Need(s, c + 1) == 0
    && forall k :: 0 <= k <= c ==> Need(s, k) > 0
  }

  predicate Closes(s: seq<Allele>)
  {
    exists c: nat :: c < |s| && CodingEnd(s, c)
  }

  /** A gene has at most one coding region. */
  lemma CodingEndUnique(s: seq<Allele>, c: nat, d: nat)
    requires CodingEnd(s, c) && CodingEnd(s, d)
    ensures c == d
  {
  }

  /** The arities of the coding region sum to exactly one fewer than its number of alleles. */
  lemma CodingArity(s: seq<Allele>, c: nat)
    requires CodingEnd(s, c)
    ensures ArSum(s[..c + 1]) == c
    ensures forall k :: 0 <= k <= c ==> ArSum(s[..k]) >= k
  {
    forall k | 0 <= k <= c
      ensures ArSum(s[..k]) >= k
    {
      assert Need(s, k) > 0;
    }
  }

  /** Whether a slot needs arguments: only arities matter, not which terminal or which operator. */
  predicate SameArities(s: seq<Allele>, t: seq<Allele>)
  {
    |s| == |t| && forall k :: 0 <= k < |s| ==> AlleleArity(s[k]) == AlleleArity(t[k])
  }

  lemma {:induction false} ArSumSameArities(s: seq<Allele>, t: seq<Allele>, k: nat)
    requires |s| == |t| && k <= |s|
    requires forall j :: 0 <= j < k ==> AlleleArity(s[j]) == AlleleArity(t[j])
    ensures ArSum(s[..k]) == ArSum(t[..k])
    decreases k
  {
    if k > 0 {
      ArSumStep(s, k - 1);
      ArSumStep(t, k - 1);
      ArSumSameArities(s, t, k - 1);
    }
  }

  /** The coding index is determined by the arity profile alone. */
  lemma CodingDependsOnArities(s: seq<Allele>, t: seq<Allele>, c: nat)
    requires SameArities(s, t)
    ensures CodingEnd(s, c) <==> CodingEnd(t, c)
  {
    forall k | 0 <= k <= |s|
      ensures Need(s, k) == Need(t, k)
    {
      ArSumSameArities(s, t, k);
    }
  }

  /** Alleles past the coding region are inert: a gene that agrees on the coding region has the same one. */
  lemma CodingDependsOnPrefix(s: seq<Allele>, t: seq<Allele>, c: nat)
    requires CodingEnd(s, c)
    requires c < |t| && t[..c + 1] == s[..c + 1]
    ensures CodingEnd(t, c)
  {
    forall k | 0 <= k <= c + 1
      ensures Need(s, k) == Need(t, k)
    {
      assert s[..k] == s[..c + 1][..k] == t[..c + 1][..k] == t[..k];
    }
  }

  /**
   * The gene shape `generate` builds: `head` alleles that may be functions of
   * arity at most `arity`, followed by `head * (arity - 1) + 1` terminals.
   */
  function TailLength(head: nat, arity: nat): nat
  {
    if head * (arity - 1) + 1 < 0 then 0 else head * (arity - 1) + 1
  }

  predicate Shaped(s: seq<Allele>, head: nat, arity: nat)
  {
    && |s| == head + TailLength(head, arity)
    && (forall k :: 0 <= k < |s| ==> AlleleArity(s[k]) <= arity)
    && (forall k :: head <= k < |s| ==> !s[k].Fn?)
  }

  lemma {:induction false} ArSumBound(s: seq<Allele>, k: nat, arity: nat)
    requires k <= |s|
    requires forall j :: 0 <= j < k ==> AlleleArity(s[j]) <= arity
    ensures ArSum(s[..k]) <= k * arity
    decreases k
  {
    if k > 0 {
      ArSumBound(s, k - 1, arity);
      ArSumStep(s, k - 1);
      assert AlleleArity(s[k - 1]) <= arity;
      MulSucc(k, arity);
    }
  }

  lemma MulSucc(k: nat, a: nat)
    requires k > 0
    ensures (k - 1) * a + a == k * a
  {
  }

  lemma {:induction false} ArSumTerminals(s: seq<Allele>, head: nat, k: nat)
    requires head <= k <= |s|
    requires forall j :: head <= j < |s| ==> !s[j].Fn?
    ensures ArSum(s[..k]) == ArSum(s[..head])
    decreases k - head
  {
    if k > head {
      ArSumStep(s, k - 1);
      ArSumTerminals(s, head, k - 1);
    }
  }

  /** Need can fall by at most one per allele, so it reaches zero before it turns negative. */
  lemma {:induction false} FirstClosing(s: seq<Allele>, k: nat)
    requires k <= |s|
    requires forall j :: 0 <= j <= k ==> Need(s, j) > 0
    requires Need(s, |s|) <= 0
    ensures Closes(s)
    decreases |s| - k
  {
    if k == |s| {
      assert false;
    } else {
      NeedStep(s, k);
      if Need(s, k + 1) == 0 {
        assert CodingEnd(s, k);
      } else {
        FirstClosing(s, k + 1);
      }
    }
  }

  /** Every gene of the shape `generate` builds has a coding region inside it. */
  lemma ShapedCloses(s: seq<Allele>, head: nat, arity: nat)
    requires Shaped(s, head, arity)
    ensures Closes(s)
  {
    ArSumBound(s, head, arity);
    ArSumTerminals(s, head, |s|);
    assert head * arity - head == head * (arity - 1);
    assert Need(s, 0) == 1 by { assert s[..0] == []; }
    FirstClosing(s, 0);
  }

  /** The start of a slot's children in heap order: one past the root plus all arities before it. */
  function ChildStart(s: seq<Allele>, i: nat): nat
    requires i <= |s|
  {
    1 + ArSum(s[..i])
  }

  /** Inside the coding region the children of a slot lie after it and inside the region. */
  lemma ChildrenInside(s: seq<Allele>, c: nat, i: nat)
    requires CodingEnd(s, c) && i <= c
    ensures i < ChildStart(s, i)
    ensures ChildStart(s, i) + AlleleArity(s[i]) == ChildStart(s, i + 1) <= c + 1
  {
    assert Need(s, i) > 0;
    ArSumStep(s, i);
    ArSumMonotone(s, i + 1, c + 1);
  }

  /** An expression tree. */
  datatype Expr = Leaf(terminal: Allele) | Node(op: Op, kids: seq<Expr>)

  /** The subtree rooted at slot `i` of the coding region, decoded breadth-first. */
  function Decode(s: seq<Allele>, c: nat, i: nat): (e: Expr)
    requires CodingEnd(s, c) && i <= c
    ensures s[i].Fn? ==> e.Node? && e.op == s[i].op && |e.kids| == Arity(s[i].op)
    ensures !s[i].Fn? ==> e == Leaf(s[i])
    decreases c + 1 - i, 0
  {
    ChildrenInside(s, c, i);
    if s[i].Fn? then Node(s[i].op, DecodeAll(s, c, ChildStart(s, i), Arity(s[i].op)))
    else Leaf(s[i])
  }

  /** The subtrees rooted at `n` consecutive slots from `from`. */
  function DecodeAll(s: seq<Allele>, c: nat, from: nat, n: nat): (es: seq<Expr>)
    requires CodingEnd(s, c) && 0 < from && from + n <= c + 1
    ensures |es| == n
    ensures forall j :: 0 <= j < n ==> es[j] == Decode(s, c, from + j)
    decreases c + 1 - from, 1
  {
    if n == 0 then [] else [Decode(s, c, from)] + DecodeAll(s, c, from + 1, n - 1)
  }

  /** Every attribute terminal of the coding region names an attribute the object has. */
  predicate AttrsBound(s: seq<Allele>, c: nat, env: map<string, int>)
  {
    forall k :: 0 <= k <= c && k < |s| && s[k].Attr? ==> s[k].name in env
  }

  /** A tree that can be evaluated on `env`: arities respected, attributes present. */
  predicate Evaluable(e: Expr, env: map<string, int>)
  {
    match e
    case Leaf(a) => !a.Fn? && (a.Attr? ==> a.name in env)
    case Node(op, kids) => |kids| == Arity(op) && forall j :: 0 <= j < |kids| ==> Evaluable(kids[j], env)
  }

  function LeafValue(a: Allele, env: map<string, int>): int
    requires !a.Fn? && (a.Attr? ==> a.name in env)
  {
    if a.Attr? then env[a.name] else a.value
  }

  function Eval(e: Expr, env: map<string, int>): int
    requires Evaluable(e, env)
    decreases e, 1
  {
    match e
    case Leaf(a) => LeafValue(a, env)
    case Node(op, kids) => Apply(op, EvalAll(kids, env))
  }

  function EvalAll(es: seq<Expr>, env: map<string, int>): (vs: seq<int>)
    requires forall j :: 0 <= j < |es| ==> Evaluable(es[j], env)
    ensures |vs| == |es|
    ensures forall j :: 0 <= j < |es| ==> vs[j] == Eval(es[j], env)
    decreases es, 0
  {
    if es == [] then [] else [Eval(es[0], env)] + EvalAll(es[1..], env)
  }

  lemma {:induction false} DecodeEvaluable(s: seq<Allele>, c: nat, i: nat, env: map<string, int>)
    requires CodingEnd(s, c) && i <= c && AttrsBound(s, c, env)
    ensures Evaluable(Decode(s, c, i), env)
    decreases c + 1 - i
  {
    ChildrenInside(s, c, i);
    var e := Decode(s, c, i);
    if s[i].Fn? {
      var cs := ChildStart(s, i);
      forall j | 0 <= j < |e.kids|
        ensures Evaluable(e.kids[j], env)
      {
        assert e.kids[j] == Decode(s, c, cs + j);
        DecodeEvaluable(s, c, cs + j, env);
      }
    } else {
      assert e == Leaf(s[i]);
    }
  }

  /** The value of the tree rooted at slot `i` on an object with attributes `env`. */
  function ValueAt(s: seq<Allele>, c: nat, env: map<string, int>, i: nat): int
    requires CodingEnd(s, c) && i <= c && AttrsBound(s, c, env)
  {
    DecodeEvaluable(s, c, i, env);
    Eval(Decode(s, c, i), env)
  }

  /** The values of the heap-order children of a function slot. */
  function ChildValues(s: seq<Allele>, c: nat, env: map<string, int>, i: nat): (vs: seq<int>)
    requires CodingEnd(s, c) && i <= c && AttrsBound(s, c, env) && s[i].Fn?
    ensures ChildStart(s, i) + Arity(s[i].op) <= c + 1
    ensures |vs| == Arity(s[i].op)
    ensures forall j :: 0 <= j < |vs| ==> vs[j] == ValueAt(s, c, env, ChildStart(s, i) + j)
  {
    ChildrenInside(s, c, i);
    DecodeEvaluable(s, c, i, env);
    var e := Decode(s, c, i);
    forall j | 0 <= j < |e.kids|
      ensures Evaluable(e.kids[j], env) && Eval(e.kids[j], env) == ValueAt(s, c, env, ChildStart(s, i) + j)
    {
      assert e.kids[j] == Decode(s, c, ChildStart(s, i) + j);
    }
    EvalAll(e.kids, env)
  }

  /** The value of a function slot is its operator applied to the values of its children. */
  lemma ValueAtNode(s: seq<Allele>, c: nat, env: map<string, int>, i: nat)
    requires CodingEnd(s, c) && i <= c && AttrsBound(s, c, env) && s[i].Fn?
    ensures ValueAt(s, c, env, i) == Apply(s[i].op, ChildValues(s, c, env, i))
  {
    DecodeEvaluable(s, c, i, env);
  }

  /** The value of a terminal slot is the attribute it names or the constant it holds. */
  lemma ValueAtLeaf(s: seq<Allele>, c: nat, env: map<string, int>, i: nat)
    requires CodingEnd(s, c) && i <= c && AttrsBound(s, c, env) && !s[i].Fn?
    ensures ValueAt(s, c, env, i) == LeafValue(s[i], env)
  {
  }
}
