/**
 * The Karva gene: a fixed list of alleles whose breadth-first coding region
 * is found once, evaluated against objects through a reusable evaluation
 * buffer and a per-gene memo, and derived into new genes by block changes
 * that keep the parent's buffer and memo when the coding region is
 * untouched.
 */
module Karva {
  import opened Wrappers
  import opened Symbols
  import opened Coding
  import opened Terminals
  import Util
  import Strings

  /**
   * An object a gene is evaluated against: the attributes its attribute
   * terminals read, fixed once the object exists. Genes memoize on the
   * object's identity.
   */
  class Instance {
    const attrs: map<string, int>

    constructor (attrs: map<string, int>)
      ensures this.attrs == attrs
    {
      this.attrs := attrs;
    }
  }

  function Min(a: int, b: int): int
  {
    if a <= b then a else b
  }

  /** Python's `s[i:j]` for non-negative bounds: both ends are clipped to the length. */
  function Slice(s: seq<Allele>, i: nat, j: nat): seq<Allele>
  {
    var lo := Min(i, |s|);
    var hi := Min(j, |s|);
    if hi <= lo then [] else s[lo..hi]
  }

  lemma SliceSpec(s: seq<Allele>, i: nat, j: nat)
    ensures |Slice(s, i, j)| == if Min(j, |s|) <= Min(i, |s|) then 0 else Min(j, |s|) - Min(i, |s|)
    ensures forall k :: 0 <= k < |Slice(s, i, j)| ==> i + k < |s| && Slice(s, i, j)[k] == s[i + k]
    ensures i <= j <= |s| ==> Slice(s, i, j) == s[i..j]
  {
  }

  /**
   * Python's `s[i:i + len(xs)] = xs`, which is also `s[:i] + xs + s[i + len(xs):]`.
   */
  function Splice(s: seq<Allele>, i: nat, xs: seq<Allele>): seq<Allele>
  {
    s[..Min(i, |s|)] + xs + s[Min(i + |xs|, |s|)..]
  }

  /**
   * The block is written at `i` (at the end when `i` is past it), nothing
   * before it moves, and the list never gets shorter; a block inside the list
   * keeps its length and everything outside the block.
   */
  lemma SpliceSpec(s: seq<Allele>, i: nat, xs: seq<Allele>)
    ensures |Splice(s, i, xs)| == Min(i, |s|) + |xs| + (|s| - Min(i + |xs|, |s|)) >= |s|
    ensures Splice(s, i, xs)[..Min(i, |s|)] == s[..Min(i, |s|)]
    ensures Splice(s, i, xs)[Min(i, |s|)..Min(i, |s|) + |xs|] == xs
    ensures i + |xs| <= |s| ==> |Splice(s, i, xs)| == |s| && Splice(s, i, xs)[i + |xs|..] == s[i + |xs|..]
    ensures i + |xs| <= |s| ==> forall q :: 0 <= q < |s| && !(i <= q < i + |xs|) ==> Splice(s, i, xs)[q] == s[q]
  {
  }

  /** One `(index, alleles)` pair of a derivation. */
  datatype Change = Change(index: nat, alleles: seq<Allele>)

  /** A change does something only when its block differs from the parent's alleles there. */
  predicate Differs(s0: seq<Allele>, ch: Change)
  {
    Slice(s0, ch.index, ch.index + |ch.alleles|) != ch.alleles
  }

  /**
   * The alleles a derivation produces: every change whose block differs from
   * the parent `s0` is written, in order, over the alleles built so far.
   */
  function ApplyChanges(s0: seq<Allele>, chs: seq<Change>): seq<Allele>
  {
    if chs == [] then s0
    else
      var prev := ApplyChanges(s0, chs[..|chs| - 1]);
      var ch := chs[|chs| - 1];
      if Differs(s0, ch) then Splice(prev, ch.index, ch.alleles) else prev
  }

  /** Some change of `chs` differs from the parent. */
  predicate AnyDiffer(s0: seq<Allele>, chs: seq<Change>)
  {
    chs != [] && (AnyDiffer(s0, chs[..|chs| - 1]) || Differs(s0, chs[|chs| - 1]))
  }

  /** Some differing change starts inside the coding region `..c`. */
  predicate TouchesCoding(s0: seq<Allele>, c: nat, chs: seq<Change>)
  {
    chs != [] && (TouchesCoding(s0, c, chs[..|chs| - 1]) || (Differs(s0, chs[|chs| - 1]) && chs[|chs| - 1].index <= c))
  }

  lemma {:induction false} AnyDifferSpec(s0: seq<Allele>, chs: seq<Change>)
    ensures AnyDiffer(s0, chs) <==> exists k :: 0 <= k < |chs| && Differs(s0, chs[k])
    decreases |chs|
  {
    if chs != [] {
      var init := chs[..|chs| - 1];
      AnyDifferSpec(s0, init);
      assert forall k :: 0 <= k < |init| ==> init[k] == chs[k];
    }
  }

  lemma {:induction false} TouchesCodingSpec(s0: seq<Allele>, c: nat, chs: seq<Change>)
    ensures TouchesCoding(s0, c, chs) <==> exists k :: 0 <= k < |chs| && Differs(s0, chs[k]) && chs[k].index <= c
  {
    if TouchesCoding(s0, c, chs) {
      var k := TouchesWitness(s0, c, chs);
    }
    if exists k :: 0 <= k < |chs| && Differs(s0, chs[k]) && chs[k].index <= c {
      var k :| 0 <= k < |chs| && Differs(s0, chs[k]) && chs[k].index <= c;
      WitnessTouches(s0, c, chs, k);
    }
  }

  lemma {:induction false} TouchesWitness(s0: seq<Allele>, c: nat, chs: seq<Change>) returns (k: nat)
    requires TouchesCoding(s0, c, chs)
    ensures k < |chs| && Differs(s0, chs[k]) && chs[k].index <= c
    decreases |chs|
  {
    var n := |chs| - 1;
    if Differs(s0, chs[n]) && chs[n].index <= c {
      k := n;
    } else {
      var init := chs[..n];
      k := TouchesWitness(s0, c, init);
      assert init[k] == chs[k];
    }
  }

  lemma {:induction false} WitnessTouches(s0: seq<Allele>, c: nat, chs: seq<Change>, k: nat)
    requires k < |chs| && Differs(s0, chs[k]) && chs[k].index <= c
    ensures TouchesCoding(s0, c, chs)
    decreases |chs|
  {
    var n := |chs| - 1;
    if k < n {
      var init := chs[..n];
      assert init[k] == chs[k];
      WitnessTouches(s0, c, init, k);
    }
  }

  /** Taking one more change into a derivation. */
  lemma ApplyStep(s0: seq<Allele>, chs: seq<Change>, n: nat)
    requires n < |chs|
    ensures ApplyChanges(s0, chs[..n + 1]) ==
              if Differs(s0, chs[n]) then Splice(ApplyChanges(s0, chs[..n]), chs[n].index, chs[n].alleles)
              else ApplyChanges(s0, chs[..n])
  {
    var next := chs[..n + 1];
    assert next[..n] == chs[..n];
  }

  lemma DifferStep(s0: seq<Allele>, c: nat, chs: seq<Change>, n: nat)
    requires n < |chs|
    ensures AnyDiffer(s0, chs[..n + 1]) <==> AnyDiffer(s0, chs[..n]) || Differs(s0, chs[n])
    ensures TouchesCoding(s0, c, chs[..n + 1]) <==>
              TouchesCoding(s0, c, chs[..n]) || (Differs(s0, chs[n]) && chs[n].index <= c)
  {
    var next := chs[..n + 1];
    assert next[..n] == chs[..n];
    assert next[n] == chs[n];
  }

  /** A change inside the coding region is a change. */
  lemma {:induction false} TouchesDiffers(s0: seq<Allele>, c: nat, chs: seq<Change>)
    requires TouchesCoding(s0, c, chs)
    ensures AnyDiffer(s0, chs)
    decreases |chs|
  {
    if TouchesCoding(s0, c, chs[..|chs| - 1]) {
      TouchesDiffers(s0, c, chs[..|chs| - 1]);
    }
  }

  /** Changes that all agree with the parent leave its alleles as they were. */
  lemma {:induction false} ApplyNoDiffer(s0: seq<Allele>, chs: seq<Change>)
    requires !AnyDiffer(s0, chs)
    ensures ApplyChanges(s0, chs) == s0
    decreases |chs|
  {
    if chs != [] {
      ApplyNoDiffer(s0, chs[..|chs| - 1]);
    }
  }

  /**
   * Changes that leave the first `c + 1` alleles alone keep them, and a
   * derivation never shortens a gene.
   */
  lemma {:induction false} ApplyKeepsPrefix(s0: seq<Allele>, c: nat, chs: seq<Change>)
    requires c < |s0| && !TouchesCoding(s0, c, chs)
    ensures |ApplyChanges(s0, chs)| >= |s0|
    ensures ApplyChanges(s0, chs)[..c + 1] == s0[..c + 1]
    decreases |chs|
  {
    if chs != [] {
      var init := chs[..|chs| - 1];
      ApplyKeepsPrefix(s0, c, init);
      var prev := ApplyChanges(s0, init);
      var ch := chs[|chs| - 1];
      if Differs(s0, ch) {
        assert ch.index > c;
        SpliceSpec(prev, ch.index, ch.alleles);
        var r := Splice(prev, ch.index, ch.alleles);
        assert r[..c + 1] == r[..Min(ch.index, |prev|)][..c + 1];
        assert prev[..c + 1] == prev[..Min(ch.index, |prev|)][..c + 1];
      }
    }
  }

  /** Blocks that fit inside the gene keep its length. */
  predicate InBounds(s0: seq<Allele>, chs: seq<Change>)
  {
    forall k :: 0 <= k < |chs| ==> chs[k].index + |chs[k].alleles| <= |s0|
  }

  /** A slot no differing change covers keeps its allele (for blocks inside the gene). */
  predicate Covered(s0: seq<Allele>, chs: seq<Change>, q: nat)
  {
    exists k :: 0 <= k < |chs| && Differs(s0, chs[k]) && chs[k].index <= q < chs[k].index + |chs[k].alleles|
  }

  lemma {:induction false} ApplyInBounds(s0: seq<Allele>, chs: seq<Change>)
    requires InBounds(s0, chs)
    ensures |ApplyChanges(s0, chs)| == |s0|
    ensures forall q :: 0 <= q < |s0| && !Covered(s0, chs, q) ==> ApplyChanges(s0, chs)[q] == s0[q]
    decreases |chs|
  {
    if chs != [] {
      var init := chs[..|chs| - 1];
      assert InBounds(s0, init) by {
        forall k | 0 <= k < |init|
          ensures init[k].index + |init[k].alleles| <= |s0|
        {
          assert init[k] == chs[k];
        }
      }
      ApplyInBounds(s0, init);
      SpliceSpec(ApplyChanges(s0, init), chs[|chs| - 1].index, chs[|chs| - 1].alleles);
      forall q | 0 <= q < |s0| && !Covered(s0, chs, q)
        ensures ApplyChanges(s0, chs)[q] == s0[q]
      {
        assert !Covered(s0, init, q) by {
          forall k | 0 <= k < |init|
            ensures !(Differs(s0, init[k]) && init[k].index <= q < init[k].index + |init[k].alleles|)
          {
            assert init[k] == chs[k];
          }
        }
      }
    }
  }

  /** A derivation of one change. */
  lemma ApplySingle(s0: seq<Allele>, chs: seq<Change>)
    requires |chs| == 1
    ensures ApplyChanges(s0, chs) == if Differs(s0, chs[0]) then Splice(s0, chs[0].index, chs[0].alleles) else s0
  {
    assert chs[..0] == [];
  }

  /** Writing a block equal to what is already there changes nothing. */
  lemma SpliceSame(s0: seq<Allele>, i: nat, xs: seq<Allele>)
    requires i + |xs| <= |s0| && s0[i..i + |xs|] == xs
    ensures Splice(s0, i, xs) == s0
  {
    assert s0 == s0[..i] + s0[i..i + |xs|] + s0[i + |xs|..];
  }

  /** A block inside the list replaces exactly its own slots. */
  lemma SpliceInside(s0: seq<Allele>, i: nat, xs: seq<Allele>)
    requires i + |xs| <= |s0|
    ensures Splice(s0, i, xs) == s0[..i] + xs + s0[i + |xs|..]
  {
    assert Min(i, |s0|) == i && Min(i + |xs|, |s0|) == i + |xs|;
  }

  /** A single change whose block fits inside the gene writes that block, whether or not it differs. */
  lemma ApplyOne(s0: seq<Allele>, chs: seq<Change>)
    requires |chs| == 1 && chs[0].index + |chs[0].alleles| <= |s0|
    ensures ApplyChanges(s0, chs) == s0[..chs[0].index] + chs[0].alleles + s0[chs[0].index + |chs[0].alleles|..]
  {
    var ch := chs[0];
    ApplySingle(s0, chs);
    SpliceInside(s0, ch.index, ch.alleles);
    if !Differs(s0, ch) {
      SliceSpec(s0, ch.index, ch.index + |ch.alleles|);
      SpliceSame(s0, ch.index, ch.alleles);
    }
  }

  /** A single change inside the gene differs exactly when it changes the alleles. */
  lemma ApplyOneDiffers(s0: seq<Allele>, chs: seq<Change>)
    requires |chs| == 1 && chs[0].index + |chs[0].alleles| <= |s0|
    ensures AnyDiffer(s0, chs) <==> ApplyChanges(s0, chs) != s0
  {
    var ch := chs[0];
    var i, j := ch.index, ch.index + |ch.alleles|;
    assert chs[..0] == [];
    ApplySingle(s0, chs);
    ApplyOne(s0, chs);
    SliceSpec(s0, i, j);
    var r := ApplyChanges(s0, chs);
    if Differs(s0, ch) {
      assert r[i..j] == ch.alleles;
      assert s0[i..j] != ch.alleles;
    }
  }

  /** Appending one change to a derivation. */
  lemma ApplyAppend(s0: seq<Allele>, chs: seq<Change>, ch: Change)
    ensures ApplyChanges(s0, chs + [ch]) ==
              if Differs(s0, ch) then Splice(ApplyChanges(s0, chs), ch.index, ch.alleles) else ApplyChanges(s0, chs)
    ensures AnyDiffer(s0, chs + [ch]) <==> AnyDiffer(s0, chs) || Differs(s0, ch)
  {
    assert (chs + [ch])[..|chs|] == chs;
  }

  /** The derivations of the library's gene tests. */
  lemma {:induction false} DeriveExample()
    ensures ApplyChanges([Fn(Add), Fn(Subtract), Attr("a"), Const(1), Attr("a")],
                         [Change(0, [Attr("a")]), Change(3, [Fn(Add), Fn(Add)])])
         == [Attr("a"), Fn(Subtract), Attr("a"), Fn(Add), Fn(Add)]
    ensures !AnyDiffer([Fn(Add), Fn(Subtract), Attr("a"), Const(1), Attr("a")], [Change(2, [Attr("a")])])
  {
    var s0 := [Fn(Add), Fn(Subtract), Attr("a"), Const(1), Attr("a")];
    var c0 := Change(0, [Attr("a")]);
    var c1 := Change(3, [Fn(Add), Fn(Add)]);
    var chs := [c0, c1];
    assert Slice(s0, 0, 1) == [Fn(Add)];
    assert Slice(s0, 3, 5) == [Const(1), Attr("a")];
    assert chs[..1] == [c0];
    assert [c0][..0] == [];
    var first := Splice(s0, 0, [Attr("a")]);
    assert first == [Attr("a"), Fn(Subtract), Attr("a"), Const(1), Attr("a")];
    assert ApplyChanges(s0, [c0]) == first;
    assert Splice(first, 3, [Fn(Add), Fn(Add)]) == [Attr("a"), Fn(Subtract), Attr("a"), Fn(Add), Fn(Add)];
    var one := [Change(2, [Attr("a")])];
    assert Slice(s0, 2, 3) == [Attr("a")];
    assert !Differs(s0, one[0]);
  }

  /** Slots `i..c` of `buf` hold the values of the subtrees rooted there. */
  predicate Swept(p: seq<Allele>, c: nat, env: map<string, int>, buf: seq<int>, i: nat)
    requires CodingEnd(p, c) && AttrsBound(p, c, env) && |buf| == c + 1
  {
    forall k :: i <= k <= c ==> buf[k] == ValueAt(p, c, env, k)
  }

  /** Once the slots above a function slot are swept, its children's values sit right after `ChildStart`. */
  lemma SweptChildren(p: seq<Allele>, c: nat, env: map<string, int>, buf: seq<int>, i: nat)
    requires CodingEnd(p, c) && AttrsBound(p, c, env) && |buf| == c + 1
    requires i <= c && p[i].Fn? && Swept(p, c, env, buf, i + 1)
    ensures ChildStart(p, i) + Arity(p[i].op) <= c + 1
    ensures buf[ChildStart(p, i)..ChildStart(p, i) + Arity(p[i].op)] == ChildValues(p, c, env, i)
  {
    ChildrenInside(p, c, i);
  }

  /** Writing the value of slot `i` extends a sweep by one slot. */
  lemma SweptStep(p: seq<Allele>, c: nat, env: map<string, int>, buf: seq<int>, i: nat, v: int)
    requires CodingEnd(p, c) && AttrsBound(p, c, env) && |buf| == c + 1
    requires i <= c && Swept(p, c, env, buf, i + 1) && v == ValueAt(p, c, env, i)
    ensures Swept(p, c, env, buf[i := v], i)
  {
  }

  /** A slot that already holds its value extends a sweep by one slot. */
  lemma SweptHere(p: seq<Allele>, c: nat, env: map<string, int>, buf: seq<int>, i: nat)
    requires CodingEnd(p, c) && AttrsBound(p, c, env) && |buf| == c + 1
    requires i <= c && Swept(p, c, env, buf, i + 1) && buf[i] == ValueAt(p, c, env, i)
    ensures Swept(p, c, env, buf, i)
  {
  }

  /** The terminal slots of `a` and `b` agree. */
  predicate LeavesKept(p: seq<Allele>, a: seq<int>, b: seq<int>)
    requires |a| == |b| == |p|
  {
    forall k :: 0 <= k < |p| && !p[k].Fn? ==> a[k] == b[k]
  }

  /** The const part of a gene is consistent: the coding region, the terminal groups and the buffer size agree with the alleles. */
  predicate Consistent(alleles: seq<Allele>, coding: nat, terminals: seq<Group>, size: nat)
  {
    && CodingEnd(alleles, coding)
    && CodingEnd(alleles[..coding + 1], coding)
    && terminals == TerminalGroups(alleles[..coding + 1], coding + 1)
    && size == coding + 1
  }

  /** Constants of the coding region sit in the buffer at their own slots. */
  predicate ConstsInPlace(p: seq<Allele>, buf: seq<int>)
  {
    |buf| == |p| && forall k :: 0 <= k < |p| && p[k].Const? ==> buf[k] == p[k].value
  }

  /** Every memoized object binds the attributes the coding region reads and maps to its true value. */
  predicate MemoSound(p: seq<Allele>, c: nat, table: map<Instance, int>)
  {
    CodingEnd(p, c) &&
    forall o :: o in table ==> AttrsBound(p, c, o.attrs) && table[o] == ValueAt(p, c, o.attrs, 0)
  }

  /** The first group, in order, whose attribute `env` lacks; `None` when it binds them all. */
  function MissingAttr(gs: seq<Group>, env: map<string, int>): (r: Option<string>)
    ensures r.None? <==> forall j :: 0 <= j < |gs| ==> gs[j].name in env
    ensures r.Some? ==> exists g :: 0 <= g < |gs| && gs[g].name == r.value && r.value !in env
                          && forall j :: 0 <= j < g ==> gs[j].name in env
  {
    if gs == [] then None
    else if gs[0].name !in env then Some(gs[0].name)
    else MissingAttr(gs[1..], env)
  }

  /** The group `g` is the first one missing when every earlier one is bound. */
  lemma {:induction false} MissingAttrAt(gs: seq<Group>, env: map<string, int>, g: nat)
    requires g < |gs| && gs[g].name !in env
    requires forall j :: 0 <= j < g ==> gs[j].name in env
    ensures MissingAttr(gs, env) == Some(gs[g].name)
  {
    if g > 0 {
      assert gs[0].name in env;
      MissingAttrAt(gs[1..], env, g - 1);
    }
  }

  class Gene {
    const alleles: seq<Allele>
    const head: int
    /** Index of the last allele of the coding region. */
    const coding: nat
    /** The attribute terminals of the coding region grouped by name. */
    const terminals: seq<Group>
    /** The evaluation list; derived genes with the same coding region share it. */
    const evaluation: array<int>
    /** The `__call__` memo, absent until the first evaluation; shared like the buffer. */
    var memo: Util.Memo?<Instance, int>

    predicate WellFormed()
    {
      Consistent(alleles, coding, terminals, evaluation.Length)
    }

    /** The coding region. */
    function Expressed(): (p: seq<Allele>)
      requires WellFormed()
      ensures |p| == coding + 1 && p == alleles[..coding + 1]
      ensures CodingEnd(p, coding)
    {
      alleles[..coding + 1]
    }

    ghost predicate StateOk()
      reads this, evaluation, memo
    {
      && WellFormed()
      && ConstsInPlace(Expressed(), evaluation[..])
      && (memo != null ==> MemoSound(Expressed(), coding, memo.table))
    }

    /** The value the gene's expression tree takes on attributes `env`. */
    function Value(env: map<string, int>): int
      requires WellFormed() && AttrsBound(Expressed(), coding, env)
    {
      ValueAt(Expressed(), coding, env, 0)
    }

    /** An object binds every attribute the coding region reads exactly when no terminal group is missing from it. */
    lemma MissingMeansUnbound(env: map<string, int>)
      requires WellFormed()
      ensures MissingAttr(terminals, env).None? <==> AttrsBound(Expressed(), coding, env)
    {
      var p := Expressed();
      TerminalGroupsSpec(p);
      var m := MissingAttr(terminals, env);
      if m.None? {
        forall k | 0 <= k <= coding && p[k].Attr?
          ensures p[k].name in env
        {
          AttrPositionsSpec(p, p[k].name, |p|);
          assert k in AttrPositions(p, p[k].name, |p|);
          PositionsFound(terminals, p[k].name);
        }
      } else {
        var g :| 0 <= g < |terminals| && terminals[g].name == m.value && m.value !in env;
        PositionsOfGroup(terminals, g);
        AttrPositionsSpec(p, m.value, |p|);
        assert terminals[g].positions != [] by {
          assert NonEmpty(terminals);
        }
        var q := terminals[g].positions[0];
        assert q < |p| && p[q] == Attr(m.value);
      }
    }

    constructor Build(alleles: seq<Allele>, head: int, coding: nat, terminals: seq<Group>,
                      evaluation: array<int>, memo: Util.Memo?<Instance, int>)
      ensures this.alleles == alleles && this.head == head && this.coding == coding
      ensures this.terminals == terminals && this.evaluation == evaluation && this.memo == memo
    {
      this.alleles := alleles;
      this.head := head;
      this.coding := coding;
      this.terminals := terminals;
      this.evaluation := evaluation;
      this.memo := memo;
    }

    /**
     * The breadth-first scan of `_find_coding`: read the alleles a level at a
     * time, summing the arities of the level to size the next one, until a
     * level needs no arguments. Running off the end is an `IndexError`.
     */
    static method FindCoding(s: seq<Allele>) returns (r: Result<nat>)
      ensures r.Success? <==> Closes(s)
      ensures r.Success? ==> CodingEnd(s, r.value)
      ensures r.Failure? ==> r.error == IndexError
    {
      var index: nat, args: nat := 0, 1;
      assert s[..0] == [];
      while args != 0
        invariant index <= |s|
        invariant Need(s, index) == args
        invariant forall k :: 0 <= k < index ==> Need(s, k) > 0
        decreases |s| - index
      {
        var nextArgs: nat := 0;
        var j: nat := 0;
        ghost var start := index;
        while j < args
          invariant j <= args
          invariant index <= |s| && index == start + j
          invariant Need(s, index) == args - j + nextArgs
          invariant forall k :: 0 <= k < index ==> Need(s, k) > 0
          decreases args - j
        {
          if index == |s| {
            forall c: nat | c < |s|
              ensures !CodingEnd(s, c)
            {
              assert Need(s, c + 1) > 0;
            }
            return Failure(IndexError);
          }
          if s[index].Fn? {
            nextArgs := nextArgs + Arity(s[index].op);
          }
          NeedStep(s, index);
          index := index + 1;
          j := j + 1;
        }
        args := nextArgs;
      }
      assert index > 0;
      assert CodingEnd(s, index - 1);
      r := Success(index - 1);
    }

    /**
     * A gene over `alleles` (the constructor): the coding region, a fresh
     * evaluation list holding the coding region's constants, its terminal
     * groups, and no memo yet.
     */
    static method Create(alleles: seq<Allele>, head: int) returns (r: Result<Gene>)
      ensures r.Success? <==> Closes(alleles)
      ensures r.Failure? ==> r.error == IndexError
      ensures r.Success? ==> && fresh(r.value) && fresh(r.value.evaluation)
                             && r.value.alleles == alleles && r.value.head == head
                             && r.value.memo == null && r.value.StateOk()
    {
      var found := FindCoding(alleles);
      if found.Failure? {
        return Failure(found.error);
      }
      var g := Assemble(alleles, head, found.value);
      r := Success(g);
    }

    /** The part of `_find_coding` after the scan: evaluation list and terminal groups from the coding region. */
    static method Assemble(alleles: seq<Allele>, head: int, c: nat) returns (g: Gene)
      requires CodingEnd(alleles, c)
      ensures fresh(g) && fresh(g.evaluation)
      ensures g.alleles == alleles && g.head == head && g.coding == c && g.memo == null
      ensures g.StateOk()
    {
      var p := alleles[..c + 1];
      CodingDependsOnPrefix(alleles, p, c);
      var buf := new int[c + 1](k requires 0 <= k < c + 1 => if p[k].Const? then p[k].value else 0);
      var groups := TerminalGroups(p, c + 1);
      g := new Gene.Build(alleles, head, c, groups, buf, null);
    }

    /**
     * `_prepare_eval_attrs`: for each terminal group in name order, read the
     * attribute and write it at every slot of the group. A missing attribute
     * stops the loop; the result names it, and it is the first group the
     * object lacks.
     */
    method Prepare(obj: Instance) returns (missing: Option<string>)
      requires WellFormed()
      modifies evaluation
      ensures forall k :: 0 <= k <= coding && !alleles[k].Attr? ==> evaluation[k] == old(evaluation[k])
      ensures missing.None? <==> AttrsBound(Expressed(), coding, obj.attrs)
      ensures missing.None? ==> forall k :: 0 <= k <= coding && alleles[k].Attr? ==> evaluation[k] == obj.attrs[alleles[k].name]
      ensures missing == MissingAttr(terminals, obj.attrs)
    {
      var p := Expressed();
      TerminalGroupsSpec(p);
      ghost var done: set<string> := {};
      var g := 0;
      while g < |terminals|
        invariant g <= |terminals|
        invariant done == set j | 0 <= j < g :: terminals[j].name
        invariant done <= obj.attrs.Keys
        invariant forall k :: 0 <= k <= coding ==>
                    evaluation[k] == if p[k].Attr? && p[k].name in done then obj.attrs[p[k].name] else old(evaluation[k])
      {
        var name := terminals[g].name;
        var ps := terminals[g].positions;
        GroupPositions(p, terminals, g);
        if name !in obj.attrs {
          assert ps[0] in ps;
          MissingAttrAt(terminals, obj.attrs, g);
          return Some(name);
        }
        assert name !in done;
        Fill(ps, obj.attrs[name]);
        done := done + {name};
        g := g + 1;
      }
      forall k | 0 <= k <= coding && p[k].Attr?
        ensures p[k].name in done
      {
        GroupsCover(p, terminals, k);
      }
      missing := None;
    }

    /** Writes `v` into every listed slot of the evaluation buffer. */
    method Fill(ps: seq<nat>, v: int)
      requires forall j :: 0 <= j < |ps| ==> ps[j] < evaluation.Length
      modifies evaluation
      ensures forall k :: 0 <= k < evaluation.Length ==> evaluation[k] == if k in ps then v else old(evaluation[k])
    {
      var m := 0;
      while m < |ps|
        invariant m <= |ps|
        invariant forall k :: 0 <= k < evaluation.Length ==> evaluation[k] == if k in ps[..m] then v else old(evaluation[k])
      {
        evaluation[ps[m]] := v;
        assert ps[..m + 1] == ps[..m] + [ps[m]];
        m := m + 1;
      }
      assert ps[..m] == ps;
    }

    /**
     * The reverse sweep of `__call__`: from the last coding slot down, a
     * function slot takes its operator applied to the values of its heap-order
     * children, which sit just below the running `index`; slot 0 then holds
     * the value of the whole tree.
     */
    method Sweep(env: map<string, int>) returns (v: int)
      requires WellFormed() && AttrsBound(Expressed(), coding, env)
      requires forall k :: 0 <= k <= coding && !alleles[k].Fn? ==> evaluation[k] == LeafValue(alleles[k], env)
      modifies evaluation
      ensures v == Value(env)
      ensures LeavesKept(Expressed(), evaluation[..], old(evaluation[..]))
    {
      var p := Expressed();
      CodingArity(p, coding);
      var index := coding + 1;
      var i := coding + 1;
      while i > 0
        invariant 0 <= i <= coding + 1
        invariant index == ChildStart(p, i)
        invariant Swept(p, coding, env, evaluation[..], i)
        invariant LeavesKept(p, evaluation[..], old(evaluation[..]))
      {
        i := i - 1;
        index := SweepSlot(p, env, i, index);
      }
      v := evaluation[0];
    }

    /** One step of the sweep: slot `i` takes its value; `index` moves to the start of its children. */
    method SweepSlot(ghost p: seq<Allele>, env: map<string, int>, i: nat, index: nat) returns (next: nat)
      requires WellFormed() && p == Expressed() && AttrsBound(p, coding, env)
      requires i <= coding && index == ChildStart(p, i + 1)
      requires Swept(p, coding, env, evaluation[..], i + 1)
      requires !p[i].Fn? ==> evaluation[i] == LeafValue(p[i], env)
      modifies evaluation
      ensures next == ChildStart(p, i)
      ensures Swept(p, coding, env, evaluation[..], i)
      ensures LeavesKept(p, evaluation[..], old(evaluation[..]))
    {
      ChildrenInside(p, coding, i);
      next := index;
      if alleles[i].Fn? {
        var op := alleles[i].op;
        var num := Arity(op);
        SweptChildren(p, coding, env, evaluation[..], i);
        var args := evaluation[index - num..index];
        ValueAtNode(p, coding, env, i);
        SweptStep(p, coding, env, evaluation[..], i, Apply(op, args));
        evaluation[i] := Apply(op, args);
        next := index - num;
      } else {
        ValueAtLeaf(p, coding, env, i);
        SweptHere(p, coding, env, evaluation[..], i);
      }
    }

    /**
     * `__call__` under `memoize`: the memo is created on first use; a
     * memoized object returns its stored value; otherwise the attributes are
     * loaded, the sweep runs, and the value is stored. An object lacking an
     * attribute the coding region reads is an `AttributeError`.
     */
    method Evaluate(obj: Instance) returns (r: Result<int>)
      requires StateOk()
      modifies this, evaluation, memo
      ensures StateOk() && memo != null
      ensures old(memo) == null ==> fresh(memo)
      ensures old(memo) != null ==> memo == old(memo)
      ensures r.Success? <==> AttrsBound(Expressed(), coding, obj.attrs)
      ensures r.Success? ==> r.value == Value(obj.attrs) && obj in memo.table && memo.table[obj] == r.value
      ensures r.Failure? ==> MissingAttr(terminals, obj.attrs).Some?
                             && r.error == AttributeError(MissingAttr(terminals, obj.attrs).value)
      ensures old(memo) != null && obj in old(memo.table) ==> memo.table == old(memo.table)
      ensures r.Failure? ==> memo.table == if old(memo) == null then map[] else old(memo.table)
      ensures r.Success? ==> memo.table == (if old(memo) == null then map[] else old(memo.table))[obj := r.value]
    {
      if memo == null {
        memo := new Util.Memo<Instance, int>();
      }
      var hit := memo.Lookup(obj);
      match hit {
        case Some(v) =>
          r := Success(v);
        case None =>
          var missing := Prepare(obj);
          if missing.Some? {
            r := Failure(AttributeError(missing.value));
            return;
          }
          var v := Sweep(obj.attrs);
          memo.Store(obj, v);
          r := Success(v);
      }
    }

    /**
     * The loop of `derive`: the first differing change copies the parent with
     * its block written in, later ones are written over that copy; a
     * differing change starting at or before `c` marks the coding region
     * changed.
     */
    static method ApplyAll(s0: seq<Allele>, c: nat, changes: seq<Change>) returns (cur: seq<Allele>, changed: bool, same: bool)
      ensures cur == ApplyChanges(s0, changes)
      ensures changed <==> AnyDiffer(s0, changes)
      ensures same <==> !TouchesCoding(s0, c, changes)
    {
      cur := s0;
      changed := false;
      same := true;
      var n := 0;
      while n < |changes|
        invariant n <= |changes|
        invariant cur == ApplyChanges(s0, changes[..n])
        invariant changed <==> AnyDiffer(s0, changes[..n])
        invariant !changed ==> cur == s0
        invariant same <==> !TouchesCoding(s0, c, changes[..n])
      {
        var ch := changes[n];
        ApplyStep(s0, changes, n);
        DifferStep(s0, c, changes, n);
        if Differs(s0, ch) {
          if !changed {
            cur := Splice(s0, ch.index, ch.alleles);
          } else {
            cur := Splice(cur, ch.index, ch.alleles);
          }
          changed := true;
          if same && ch.index <= c {
            same := false;
          }
        }
        n := n + 1;
      }
      assert changes[..n] == changes;
    }

    /**
     * `derive`: apply the changes that differ from this gene. With none, the
     * result is this gene itself. With the coding region untouched, the new
     * gene keeps this gene's coding region, groups, evaluation list and memo
     * (shallow copy). Otherwise the coding region is found again, with a new
     * evaluation list and no memo; the scan may run off the end.
     */
    method Derive(changes: seq<Change>) returns (r: Result<Gene>)
      requires WellFormed()
      ensures !AnyDiffer(alleles, changes) ==> r == Success(this)
      ensures AnyDiffer(alleles, changes) && r.Success? ==>
                && fresh(r.value) && r.value.alleles == ApplyChanges(alleles, changes)
                && r.value.head == head && r.value.WellFormed()
                && (StateOk() ==> r.value.StateOk())
      ensures AnyDiffer(alleles, changes) && !TouchesCoding(alleles, coding, changes) ==>
                && r.Success? && r.value.coding == coding && r.value.terminals == terminals
                && r.value.evaluation == evaluation && r.value.memo == memo
      ensures TouchesCoding(alleles, coding, changes) ==>
                && (r.Success? <==> Closes(ApplyChanges(alleles, changes)))
                && (r.Success? ==> fresh(r.value.evaluation) && r.value.memo == null)
                && (r.Failure? ==> r.error == IndexError)
    {
      var cur, changed, same := ApplyAll(alleles, coding, changes);
      if TouchesCoding(alleles, coding, changes) {
        TouchesDiffers(alleles, coding, changes);
      }
      if !changed {
        return Success(this);
      }
      if same {
        ApplyKeepsPrefix(alleles, coding, changes);
        var p := Expressed();
        assert cur[..coding + 1] == p;
        CodingDependsOnPrefix(alleles, cur, coding);
        var g := new Gene.Build(cur, head, coding, terminals, evaluation, memo);
        r := Success(g);
      } else {
        var found := FindCoding(cur);
        if found.Failure? {
          return Failure(found.error);
        }
        var g := Assemble(cur, head, found.value);
        r := Success(g);
      }
    }

    /** `__repr__`: each allele's name, in braces unless it is one character long. */
    method Repr() returns (text: string)
      ensures text == Render(alleles)
    {
      text := "";
      var i := 0;
      while i < |alleles|
        invariant i <= |alleles|
        invariant text == Render(alleles[..i])
      {
        var name := Name(alleles[i]);
        text := text + if |name| == 1 then name else "{" + name + "}";
        RenderAppend(alleles[..i], [alleles[i]]);
        assert alleles[..i + 1] == alleles[..i] + [alleles[i]];
        i := i + 1;
      }
      assert alleles[..i] == alleles;
    }

    /** `__len__`: the number of alleles, which always exceeds the last coding index. */
    function Length(): (n: nat)
      requires WellFormed()
      ensures n == |alleles| && n > coding
    {
      |alleles|
    }

    /** `__getitem__` for a non-negative index: the allele, or an `IndexError` past the end. */
    function At(i: nat): (r: Result<Allele>)
      ensures r.Success? <==> i < |alleles|
      ensures r.Success? ==> r.value == alleles[i]
      ensures r.Failure? ==> r.error == IndexError
    {
      if i < |alleles| then Success(alleles[i]) else Failure(IndexError)
    }

    /** `__getslice__`: the clipped slice of the alleles. */
    function GetSlice(i: nat, j: nat): (r: seq<Allele>)
      ensures r == Slice(alleles, i, j)
      ensures |r| <= |alleles|
      ensures forall k :: 0 <= k < |r| ==> i + k < |alleles| && r[k] == alleles[i + k]
      ensures i <= j <= |alleles| ==> r == alleles[i..j] && |r| == j - i
    {
      SliceSpec(alleles, i, j);
      Slice(alleles, i, j)
    }
  }

  /**
   * After a derivation that leaves the coding region alone, evaluating the
   * child fills the memo it shares with the parent, so the parent then
   * answers that object from the memo too.
   */
  method SharedMemo(parent: Gene, changes: seq<Change>, obj: Instance) returns (child: Gene, a: Result<int>)
    requires parent.StateOk() && parent.memo != null
    requires AnyDiffer(parent.alleles, changes) && !TouchesCoding(parent.alleles, parent.coding, changes)
    modifies parent.evaluation, parent.memo
    ensures child != parent && child.memo == parent.memo && child.evaluation == parent.evaluation
    ensures parent.StateOk()
    ensures a.Success? <==> AttrsBound(parent.Expressed(), parent.coding, obj.attrs)
    ensures a.Success? ==> obj in parent.memo.table && parent.memo.table[obj] == a.value == parent.Value(obj.attrs)
  {
    var d := parent.Derive(changes);
    child := d.value;
    ApplyKeepsPrefix(parent.alleles, parent.coding, changes);
    assert child.Expressed() == parent.Expressed();
    a := child.Evaluate(obj);
  }

  /** The library's test gene `+-a1a` (head 2): its coding region ends at slot 4, and it takes the value 1 when `a` is 5. */
  lemma KarvaCodingExample(s: seq<Allele>)
    requires s == [Fn(Add), Fn(Subtract), Attr("a"), Const(1), Attr("a")]
    ensures CodingEnd(s, 4)
  {
    assert Need(s, 0) == 1 by {
      assert s[..0] == [];
    }
    NeedStep(s, 0);
    assert Need(s, 1) == 2;
    NeedStep(s, 1);
    assert Need(s, 2) == 3;
    NeedStep(s, 2);
    assert Need(s, 3) == 2;
    NeedStep(s, 3);
    assert Need(s, 4) == 1;
    NeedStep(s, 4);
    assert Need(s, 5) == 0;
  }

  /** Deriving `(0, ['a'])` from the test gene leaves a one-allele coding region. */
  lemma DerivedCodingExample(t: seq<Allele>)
    requires t == [Attr("a"), Fn(Subtract), Attr("a"), Const(1), Attr("a")]
    ensures CodingEnd(t, 0)
  {
    assert Need(t, 0) == 1 by {
      assert t[..0] == [];
    }
    NeedStep(t, 0);
  }

  lemma KarvaValueExample(s: seq<Allele>, env: map<string, int>)
    requires s == [Fn(Add), Fn(Subtract), Attr("a"), Const(1), Attr("a")] && env == map["a" := 5]
    ensures CodingEnd(s, 4) && AttrsBound(s, 4, env)
    ensures ValueAt(s, 4, env, 0) == 1
  {
    KarvaCodingExample(s);
    assert AttrsBound(s, 4, env);
    assert ChildStart(s, 0) == 1 by {
      assert s[..0] == [];
    }
    assert ChildStart(s, 1) == 3 by {
      ArSumStep(s, 0);
      assert s[..0] == [];
    }
    ValueAtLeaf(s, 4, env, 2);
    ValueAtLeaf(s, 4, env, 3);
    ValueAtLeaf(s, 4, env, 4);
    var low := ChildValues(s, 4, env, 1);
    assert low == [1, 5];
    ValueAtNode(s, 4, env, 1);
    assert ValueAt(s, 4, env, 1) == -4;
    var top := ChildValues(s, 4, env, 0);
    assert top == [-4, 5];
    ValueAtNode(s, 4, env, 0);
  }
}
