/**
 * The variation operators of a chromosome, stated as functions on allele
 * lists: point mutation, head inversion, IS and RIS transposition, gene
 * transposition and the crossovers. The chromosome methods draw their
 * random numbers as arguments and are proved to produce exactly these
 * allele lists; the lemmas here say what the lists are.
 */
module Variation {
  import opened Wrappers
  import opened Symbols
  import opened Coding
  import opened Karva

  /** The alleles of each gene of a chromosome, in gene order. */
  type Genome = seq<seq<Allele>>

  /** What a chromosome type may place in a gene: any symbol in the head, only terminals in the tail. */
  datatype Alphabet = Alphabet(symbols: seq<Allele>, terminals: seq<Allele>)

  /** The alphabet fits genes of maximum arity `arity`: symbols respect it and terminals are not functions. */
  predicate Fits(al: Alphabet, arity: nat)
  {
    && (forall k :: 0 <= k < |al.symbols| ==> AlleleArity(al.symbols[k]) <= arity)
    && (forall k :: 0 <= k < |al.terminals| ==> !al.terminals[k].Fn?)
  }

  /** A list whose every slot comes from one of two lists of its shape has that shape too. */
  lemma MixShaped(x: seq<Allele>, y: seq<Allele>, z: seq<Allele>, head: nat, arity: nat)
    requires Shaped(x, head, arity) && Shaped(y, head, arity) && |z| == |x|
    requires forall k :: 0 <= k < |z| ==> z[k] == x[k] || z[k] == y[k]
    ensures Shaped(z, head, arity)
  {
  }

  // ---------------------------------------------------------------- mutation

  /** The random numbers one locus of `mutate` consumes: `random.random()` and, when it mutates, a `random.choice` index. */
  datatype Draw = Draw(u: real, pick: nat)

  predicate DrawFits(d: Draw, i: nat, head: int, al: Alphabet)
  {
    0.0 <= d.u < 1.0 && d.pick < if i >= head then |al.terminals| else |al.symbols|
  }

  predicate DrawsFit(ds: seq<Draw>, n: nat, head: int, al: Alphabet)
  {
    |ds| == n && forall i :: 0 <= i < n ==> DrawFits(ds[i], i, head, al)
  }

  /** Locus `i` under mutation: below the rate it takes the drawn terminal (tail) or symbol (head). */
  function Mutant(a: Allele, i: nat, head: int, al: Alphabet, rate: real, d: Draw): Allele
    requires DrawFits(d, i, head, al)
  {
    if d.u < rate then (if i >= head then al.terminals[d.pick] else al.symbols[d.pick]) else a
  }

  function MutateGene(s: seq<Allele>, head: int, al: Alphabet, rate: real, ds: seq<Draw>): (r: seq<Allele>)
    requires DrawsFit(ds, |s|, head, al)
    ensures |r| == |s|
    ensures forall i :: 0 <= i < |s| ==> r[i] == Mutant(s[i], i, head, al, rate, ds[i])
  {
    seq(|s|, i requires 0 <= i < |s| => Mutant(s[i], i, head, al, rate, ds[i]))
  }

  /**
   * Mutation keeps a gene's shape: every locus keeps its allele or takes an
   * allele of the alphabet, and a tail locus only ever takes a terminal.
   */
  lemma MutateShaped(s: seq<Allele>, head: nat, arity: nat, al: Alphabet, rate: real, ds: seq<Draw>)
    requires Shaped(s, head, arity) && Fits(al, arity) && DrawsFit(ds, |s|, head, al)
    ensures Shaped(MutateGene(s, head, al, rate, ds), head, arity)
    ensures forall i :: 0 <= i < |s| ==>
              var r := MutateGene(s, head, al, rate, ds)[i];
              r == s[i] || (i >= head && r in al.terminals) || (i < head && r in al.symbols)
  {
    var r := MutateGene(s, head, al, rate, ds);
    forall i | 0 <= i < |s|
      ensures AlleleArity(r[i]) <= arity && (i >= head ==> !r[i].Fn?)
    {
      if ds[i].u < rate {
        if i >= head {
          assert r[i] == al.terminals[ds[i].pick];
        } else {
          assert r[i] == al.symbols[ds[i].pick];
        }
      }
    }
  }

  /** A rate of zero (or less) mutates nothing. */
  lemma MutateNothing(s: seq<Allele>, head: int, al: Alphabet, rate: real, ds: seq<Draw>)
    requires DrawsFit(ds, |s|, head, al) && rate <= 0.0
    ensures MutateGene(s, head, al, rate, ds) == s
  {
  }

  /** A rate of one (or more) replaces every locus by its draw. */
  lemma MutateEverything(s: seq<Allele>, head: int, al: Alphabet, rate: real, ds: seq<Draw>)
    requires DrawsFit(ds, |s|, head, al) && rate >= 1.0
    ensures forall i :: 0 <= i < |s| ==>
              MutateGene(s, head, al, rate, ds)[i] == if i >= head then al.terminals[ds[i].pick] else al.symbols[ds[i].pick]
  {
  }

  predicate MutationDraws(p: Genome, head: int, al: Alphabet, ds: seq<seq<Draw>>)
  {
    |ds| == |p| && forall g :: 0 <= g < |p| ==> DrawsFit(ds[g], |p[g]|, head, al)
  }

  /** `mutate` on every gene. */
  function MutateGenome(p: Genome, head: int, al: Alphabet, rate: real, ds: seq<seq<Draw>>): (c: Genome)
    requires MutationDraws(p, head, al, ds)
    ensures |c| == |p| && forall g :: 0 <= g < |p| ==> c[g] == MutateGene(p[g], head, al, rate, ds[g])
  {
    seq(|p|, g requires 0 <= g < |p| => MutateGene(p[g], head, al, rate, ds[g]))
  }

  // ---------------------------------------------------------------- inversion

  function Reverse(s: seq<Allele>): (r: seq<Allele>)
    ensures |r| == |s|
    ensures forall k :: 0 <= k < |s| ==> r[k] == s[|s| - 1 - k]
  {
    if s == [] then [] else Reverse(s[1..]) + [s[0]]
  }

  /** `invert`: the alleles `a..b` (both included) in reverse order. */
  function Inverted(s: seq<Allele>, a: nat, b: nat): seq<Allele>
    requires a <= b < |s|
  {
    s[..a] + Reverse(s[a..b + 1]) + s[b + 1..]
  }

  lemma InvertedSpec(s: seq<Allele>, a: nat, b: nat)
    requires a <= b < |s|
    ensures |Inverted(s, a, b)| == |s|
    ensures forall k :: 0 <= k < |s| && !(a <= k <= b) ==> Inverted(s, a, b)[k] == s[k]
    ensures forall k :: a <= k <= b ==> Inverted(s, a, b)[k] == s[a + b - k]
  {
    var r := Inverted(s, a, b);
    var m := Reverse(s[a..b + 1]);
    forall k | a <= k <= b
      ensures r[k] == s[a + b - k]
    {
      assert r[k] == m[k - a];
    }
  }

  /** Inverting the same range twice restores the gene. */
  lemma InvertTwice(s: seq<Allele>, a: nat, b: nat)
    requires a <= b < |s|
    ensures Inverted(Inverted(s, a, b), a, b) == s
  {
    InvertedSpec(s, a, b);
    InvertedSpec(Inverted(s, a, b), a, b);
  }

  /** Inverting inside the head keeps a gene's shape, and the tail stays as it was. */
  lemma InvertShaped(s: seq<Allele>, head: nat, arity: nat, a: nat, b: nat)
    requires Shaped(s, head, arity) && a <= b < head
    ensures Shaped(Inverted(s, a, b), head, arity)
    ensures Inverted(s, a, b)[head..] == s[head..]
  {
    InvertedSpec(s, a, b);
  }

  // ---------------------------------------------------------------- IS transposition

  /** The end of a transposed sequence: `start + length`, cut back to the head. */
  function SeqEnd(start: nat, length: nat, head: nat): nat
  {
    Min(start + length, head)
  }

  /** The IS block written at `offset`: the source sequence cut to fit the head, then the target's head from `offset` on. */
  function IsBlock(src: seq<Allele>, tgt: seq<Allele>, head: nat, length: nat, start: nat, offset: nat): seq<Allele>
    requires offset < head
  {
    var end := SeqEnd(start, length, head);
    Slice(Slice(src, start, end), 0, head - offset) + Slice(tgt, offset, head - end + start)
  }

  /**
   * For a source start inside the head the block fills the head from
   * `offset` exactly; from the tail the block is the target's own alleles.
   */
  lemma IsBlockSpec(src: seq<Allele>, tgt: seq<Allele>, head: nat, length: nat, start: nat, offset: nat)
    requires offset < head <= |src| && head <= |tgt|
    ensures start < head ==> offset + |IsBlock(src, tgt, head, length, start, offset)| == head
    ensures start >= head ==> IsBlock(src, tgt, head, length, start, offset) == tgt[offset..Min(start, |tgt|)]
    ensures offset + |IsBlock(src, tgt, head, length, start, offset)| <= |tgt|
  {
    var end := SeqEnd(start, length, head);
    SliceSpec(src, start, end);
    SliceSpec(Slice(src, start, end), 0, head - offset);
    SliceSpec(tgt, offset, head - end + start);
    if start >= head {
      assert end == head;
      assert Slice(src, start, end) == [];
    }
  }

  /** `transpose_is` on the target gene: the block written at `offset`. */
  function IsTransposed(src: seq<Allele>, tgt: seq<Allele>, head: nat, length: nat, start: nat, offset: nat): seq<Allele>
    requires offset < head <= |src| && head <= |tgt|
  {
    IsBlockSpec(src, tgt, head, length, start, offset);
    var b := IsBlock(src, tgt, head, length, start, offset);
    tgt[..offset] + b + tgt[offset + |b|..]
  }

  /** For a start inside the head, the IS block is the source sequence cut to fit, then as much of the target's head as fits. */
  lemma IsBlockInHead(src: seq<Allele>, tgt: seq<Allele>, head: nat, length: nat, start: nat, offset: nat)
    requires start < head && offset < head <= |src| && head <= |tgt|
    ensures var m := src[start..SeqEnd(start, length, head)];
            IsBlock(src, tgt, head, length, start, offset)
              == if |m| <= head - offset then m + tgt[offset..head - |m|] else m[..head - offset]
  {
    var end := SeqEnd(start, length, head);
    var m := src[start..end];
    assert Slice(src, start, end) == m;
    if |m| <= head - offset {
      assert Slice(m, 0, head - offset) == m;
      assert Slice(tgt, offset, head - end + start) == tgt[offset..head - |m|];
    } else {
      assert Slice(m, 0, head - offset) == m[..head - offset];
      assert Slice(tgt, offset, head - end + start) == [];
    }
  }

  /**
   * IS transposition inserts the source sequence `src[start..end]` into the
   * target's head at `offset` (never at the root) and pushes the rest of the
   * head right, dropping what falls out of the head; the root and the tail
   * are kept.
   */
  lemma IsInserts(src: seq<Allele>, tgt: seq<Allele>, head: nat, length: nat, start: nat, offset: nat)
    requires 0 < offset < head <= |src| && head <= |tgt| && start < head
    ensures |IsTransposed(src, tgt, head, length, start, offset)| == |tgt|
    ensures IsTransposed(src, tgt, head, length, start, offset)[head..] == tgt[head..]
    ensures IsTransposed(src, tgt, head, length, start, offset)[..head]
              == (tgt[..offset] + src[start..SeqEnd(start, length, head)] + tgt[offset..head])[..head]
  {
    IsBlockSpec(src, tgt, head, length, start, offset);
    IsBlockInHead(src, tgt, head, length, start, offset);
    var end := SeqEnd(start, length, head);
    var m := src[start..end];
    var a := tgt[..offset];
    var b := IsBlock(src, tgt, head, length, start, offset);
    var r := IsTransposed(src, tgt, head, length, start, offset);
    assert r == a + b + tgt[head..];
    assert r[..head] == a + b;
    var w := a + m + tgt[offset..head];
    if |m| <= head - offset {
      assert tgt[offset..head][..head - offset - |m|] == tgt[offset..head - |m|];
      assert w[..head] == a + m + tgt[offset..head][..head - offset - |m|];
    } else {
      assert w[..head] == a + m[..head - offset];
    }
  }

  /** A source start in the tail leaves the target as it was. */
  lemma IsFromTail(src: seq<Allele>, tgt: seq<Allele>, head: nat, length: nat, start: nat, offset: nat)
    requires 0 < offset < head <= |src| && head <= |tgt| && start >= head
    ensures IsTransposed(src, tgt, head, length, start, offset) == tgt
  {
    IsBlockSpec(src, tgt, head, length, start, offset);
    var t := Min(start, |tgt|);
    assert tgt == tgt[..offset] + tgt[offset..t] + tgt[t..];
  }

  /** IS transposition never touches the root or the tail of the target gene, whatever the start. */
  lemma IsKeepsRootAndTail(src: seq<Allele>, tgt: seq<Allele>, head: nat, length: nat, start: nat, offset: nat)
    requires 0 < offset < head <= |src| && head <= |tgt|
    ensures |IsTransposed(src, tgt, head, length, start, offset)| == |tgt|
    ensures IsTransposed(src, tgt, head, length, start, offset)[head..] == tgt[head..]
    ensures IsTransposed(src, tgt, head, length, start, offset)[0] == tgt[0]
  {
    if start < head {
      IsInserts(src, tgt, head, length, start, offset);
      var r := IsTransposed(src, tgt, head, length, start, offset);
      var m := tgt[..offset] + src[start..SeqEnd(start, length, head)] + tgt[offset..head];
      assert r[..head][0] == m[..head][0];
    } else {
      IsFromTail(src, tgt, head, length, start, offset);
    }
  }

  predicate Bounded(s: seq<Allele>, arity: nat)
  {
    forall k :: 0 <= k < |s| ==> AlleleArity(s[k]) <= arity
  }

  /** A list that keeps a gene's tail and whose new head respects the arity has the gene's shape. */
  lemma HeadReplaced(r: seq<Allele>, tgt: seq<Allele>, w: seq<Allele>, head: nat, arity: nat)
    requires Shaped(tgt, head, arity) && |r| == |tgt| && head <= |w|
    requires r[..head] == w[..head] && r[head..] == tgt[head..] && Bounded(w, arity)
    ensures Shaped(r, head, arity)
  {
    forall k | 0 <= k < |r|
      ensures AlleleArity(r[k]) <= arity && (k >= head ==> !r[k].Fn?)
    {
      if k < head {
        assert r[k] == r[..head][k];
      } else {
        assert r[k] == r[head..][k - head];
      }
    }
  }

  lemma BoundedConcat(a: seq<Allele>, b: seq<Allele>, c: seq<Allele>, arity: nat)
    requires Bounded(a, arity) && Bounded(b, arity) && Bounded(c, arity)
    ensures Bounded(a + b + c, arity)
  {
    var w := a + b + c;
    forall k | 0 <= k < |w|
      ensures AlleleArity(w[k]) <= arity
    {
      if k < |a| {
      } else if k < |a| + |b| {
        assert w[k] == b[k - |a|];
      } else {
        assert w[k] == c[k - |a| - |b|];
      }
    }
  }

  /** IS transposition keeps a gene's shape. */
  lemma IsShaped(src: seq<Allele>, tgt: seq<Allele>, head: nat, arity: nat, length: nat, start: nat, offset: nat)
    requires 0 < offset < head && Shaped(src, head, arity) && Shaped(tgt, head, arity)
    ensures Shaped(IsTransposed(src, tgt, head, length, start, offset), head, arity)
  {
    if start < head {
      IsInserts(src, tgt, head, length, start, offset);
      var end := SeqEnd(start, length, head);
      BoundedConcat(tgt[..offset], src[start..end], tgt[offset..head], arity);
      HeadReplaced(IsTransposed(src, tgt, head, length, start, offset), tgt,
                   tgt[..offset] + src[start..end] + tgt[offset..head], head, arity);
    } else {
      IsFromTail(src, tgt, head, length, start, offset);
    }
  }

  // ---------------------------------------------------------------- RIS transposition

  /** Positions `< n` of `s` holding functions, ascending (the `callable` filter of `transpose_ris`). */
  function FnPositions(s: seq<Allele>, n: nat): (ps: seq<nat>)
    requires n <= |s|
    ensures forall j :: 0 <= j < |ps| ==> ps[j] < n && s[ps[j]].Fn?
    ensures forall k :: 0 <= k < n && s[k].Fn? ==> k in ps
    ensures forall i, j :: 0 <= i < j < |ps| ==> ps[i] < ps[j]
  {
    if n == 0 then []
    else if s[n - 1].Fn? then FnPositions(s, n - 1) + [n - 1]
    else FnPositions(s, n - 1)
  }

  /** The RIS block written at the root: the sequence from `start`, then the target's head, cut to the head length. */
  function RisBlock(src: seq<Allele>, tgt: seq<Allele>, head: nat, length: nat, start: nat): seq<Allele>
  {
    var end := SeqEnd(start, length, head);
    Slice(src, start, end) + Slice(tgt, 0, head + start - end)
  }

  lemma RisBlockSpec(src: seq<Allele>, tgt: seq<Allele>, head: nat, length: nat, start: nat)
    requires start < head <= |src| && head <= |tgt|
    ensures |RisBlock(src, tgt, head, length, start)| == head
    ensures RisBlock(src, tgt, head, length, start)
              == src[start..SeqEnd(start, length, head)] + tgt[..head - (SeqEnd(start, length, head) - start)]
  {
    var end := SeqEnd(start, length, head);
    SliceSpec(src, start, end);
    SliceSpec(tgt, 0, head + start - end);
  }

  /** `transpose_ris` on the target gene, for a start inside the head. */
  function RisTransposed(src: seq<Allele>, tgt: seq<Allele>, head: nat, length: nat, start: nat): seq<Allele>
    requires start < head <= |src| && head <= |tgt|
  {
    RisBlockSpec(src, tgt, head, length, start);
    RisBlock(src, tgt, head, length, start) + tgt[head..]
  }

  /**
   * RIS transposition puts the sequence starting at a function at the root
   * of the target and pushes the head right, dropping what falls out of the
   * head; the tail is kept, and the new root is that function.
   */
  lemma RisInserts(src: seq<Allele>, tgt: seq<Allele>, head: nat, length: nat, start: nat)
    requires start < head <= |src| && head <= |tgt| && src[start].Fn? && length >= 1
    ensures |RisTransposed(src, tgt, head, length, start)| == |tgt|
    ensures RisTransposed(src, tgt, head, length, start)[head..] == tgt[head..]
    ensures RisTransposed(src, tgt, head, length, start)[..head]
              == (src[start..SeqEnd(start, length, head)] + tgt)[..head]
    ensures RisTransposed(src, tgt, head, length, start)[0] == src[start]
  {
    RisBlockSpec(src, tgt, head, length, start);
    var end := SeqEnd(start, length, head);
    var r := RisTransposed(src, tgt, head, length, start);
    var m := src[start..end];
    assert r[..head] == m + tgt[..head - (end - start)];
    assert (m + tgt)[..head] == m + tgt[..head - (end - start)];
    assert r[0] == m[0];
  }

  lemma RisShaped(src: seq<Allele>, tgt: seq<Allele>, head: nat, arity: nat, length: nat, start: nat)
    requires start < head && Shaped(src, head, arity) && Shaped(tgt, head, arity)
    ensures Shaped(RisTransposed(src, tgt, head, length, start), head, arity)
  {
    RisBlockSpec(src, tgt, head, length, start);
    var end := SeqEnd(start, length, head);
    var r := RisTransposed(src, tgt, head, length, start);
    var m := src[start..end];
    forall k | 0 <= k < |r|
      ensures AlleleArity(r[k]) <= arity && (k >= head ==> !r[k].Fn?)
    {
      if k < |m| {
        assert r[k] == src[start + k];
      } else if k < head {
        assert r[k] == tgt[k - |m|];
      } else {
        assert r[k] == tgt[k];
      }
    }
  }

  // ---------------------------------------------------------------- gene transposition

  /** `transpose_gene`: genes `0` and `which` change places. */
  function SwapGenes(p: Genome, which: nat): Genome
    requires 0 < which < |p|
  {
    p[0 := p[which]][which := p[0]]
  }

  /** Gene transposition reorders the genes and changes none of them. */
  lemma SwapPermutes(p: Genome, which: nat)
    requires 0 < which < |p|
    ensures |SwapGenes(p, which)| == |p| && multiset(SwapGenes(p, which)) == multiset(p)
    ensures SwapGenes(p, which)[0] == p[which] && SwapGenes(p, which)[which] == p[0]
    ensures forall g :: 0 < g < |p| && g != which ==> SwapGenes(p, which)[g] == p[g]
  {
    var q := p[0 := p[which]];
    assert multiset(q) == multiset(p) - multiset{p[0]} + multiset{p[which]};
    assert multiset(q[which := p[0]]) == multiset(q) - multiset{q[which]} + multiset{p[0]};
  }

  // ---------------------------------------------------------------- crossover

  /**
   * The loci a crossover exchanges, as (gene, allele) pairs: the alleles of
   * one gene from an index on; one whole gene; the loci between two points
   * in gene-major order; or the alleles of one gene outside `lo..hi`.
   */
  datatype Region =
    | Suffix(gene: nat, from: nat)
    | WholeGene(gene: nat)
    | Span(gene1: nat, allele1: nat, gene2: nat, allele2: nat)
    | Outside(gene: nat, lo: nat, hi: nat)

  predicate InRegion(r: Region, g: nat, a: nat)
  {
    match r
    case Suffix(gene, from) => g == gene && a >= from
    case WholeGene(gene) => g == gene
    case Span(g1, a1, g2, a2) => (g1 < g || (g1 == g && a1 <= a)) && (g < g2 || (g == g2 && a < a2))
    case Outside(gene, lo, hi) => g == gene && !(lo <= a < hi)
  }

  predicate SameShape(p: Genome, q: Genome)
  {
    |p| == |q| && forall g :: 0 <= g < |p| ==> |p[g]| == |q[g]|
  }

  /** Gene `g` of the first child: the second parent's allele inside the region, the first parent's outside it. */
  function Cross(x: seq<Allele>, y: seq<Allele>, r: Region, g: nat): (z: seq<Allele>)
    requires |x| == |y|
    ensures |z| == |x|
    ensures forall a :: 0 <= a < |x| ==> z[a] == if InRegion(r, g, a) then y[a] else x[a]
  {
    seq(|x|, a requires 0 <= a < |x| => if InRegion(r, g, a) then y[a] else x[a])
  }

  /** The first child of exchanging region `r`; the second child is `Exchange(q, p, r)`. */
  function Exchange(p: Genome, q: Genome, r: Region): (c: Genome)
    requires SameShape(p, q)
    ensures SameShape(c, p)
    ensures forall g :: 0 <= g < |p| ==> c[g] == Cross(p[g], q[g], r, g)
  {
    seq(|p|, g requires 0 <= g < |p| => Cross(p[g], q[g], r, g))
  }

  /** A one-point crossover changes one gene: its alleles from `index` on come from the other parent. */
  lemma ExchangeSuffix(p: Genome, q: Genome, gene: nat, index: nat)
    requires SameShape(p, q) && gene < |p| && index <= |p[gene]|
    ensures Exchange(p, q, Suffix(gene, index)) == p[gene := p[gene][..index] + q[gene][index..]]
  {
    var c := Exchange(p, q, Suffix(gene, index));
    var w := p[gene := p[gene][..index] + q[gene][index..]];
    forall g | 0 <= g < |p|
      ensures c[g] == w[g]
    {
      if g != gene {
        assert c[g] == p[g];
      }
    }
  }

  /** Gene crossover exchanges one whole gene. */
  lemma ExchangeWhole(p: Genome, q: Genome, gene: nat)
    requires SameShape(p, q) && gene < |p|
    ensures Exchange(p, q, WholeGene(gene)) == p[gene := q[gene]]
  {
    var c := Exchange(p, q, WholeGene(gene));
    forall g | 0 <= g < |p|
      ensures c[g] == p[gene := q[gene]][g]
    {
      if g == gene {
        assert c[g] == q[g];
      } else {
        assert c[g] == p[g];
      }
    }
  }

  /** `__getitem__` on a genome: index `i` is allele `i / n` of gene `i % n` (the genes are interleaved). */
  function ItemAt(p: Genome, i: nat): Result<Allele>
    requires |p| > 0
  {
    var g, a := i % |p|, i / |p|;
    if a < |p[g]| then Success(p[g][a]) else Failure(IndexError)
  }

  /** Every allele is reached by exactly the index `a * n + g`. */
  lemma ItemAtCovers(p: Genome, g: nat, a: nat)
    requires g < |p|
    ensures (a * |p| + g) % |p| == g && (a * |p| + g) / |p| == a
    ensures a < |p[g]| ==> ItemAt(p, a * |p| + g) == Success(p[g][a])
  {
    DivMod(a, |p|, g);
  }

  lemma DivMod(a: nat, n: nat, g: nat)
    requires g < n
    ensures (a * n + g) % n == g && (a * n + g) / n == a
  {
    var i := a * n + g;
    var q, m := i / n, i % n;
    assert q * n + m == i;
    if q > a {
      MulStep(a, q, n);
      assert false;
    }
    if q < a {
      MulStep(q, a, n);
      assert false;
    }
  }

  /**
   * The crossover tests' check, for every index the first child has: each
   * child's allele is one of the parents' alleles there, and the children
   * agree exactly where the parents agree.
   */
  lemma CrossoverAlleles(p: Genome, q: Genome, r: Region, i: nat)
    requires SameShape(p, q) && |p| > 0
    ensures ItemAt(Exchange(p, q, r), i).Success? <==> ItemAt(p, i).Success?
    ensures ItemAt(Exchange(q, p, r), i).Success? <==> ItemAt(p, i).Success?
    ensures ItemAt(p, i).Success? ==>
              var c1, c2 := ItemAt(Exchange(p, q, r), i).value, ItemAt(Exchange(q, p, r), i).value;
              var p1, p2 := ItemAt(p, i).value, ItemAt(q, i).value;
              && (c1 == p1 || c1 == p2) && (c2 == p1 || c2 == p2)
              && (p1 == p2 <==> c1 == c2)
  {
  }

  /** A one-point crossover at allele `index` of gene `gene` writes that gene's suffix of the other parent. */
  lemma OnePointGene(x: seq<Allele>, y: seq<Allele>, gene: nat, index: nat)
    requires |x| == |y| && index <= |x|
    ensures Cross(x, y, Suffix(gene, index), gene) == x[..index] + y[index..]
  {
  }

  /**
   * The region two-point crossover exchanges for loci `lo < hi` in gene-major
   * order, with genes of `width` alleles: the span between them, or, when
   * both fall in one gene, that gene's alleles outside them (the two
   * derivations of the same gene exchange a suffix, then a prefix).
   */
  function TwoPointRegion(lo: nat, hi: nat, width: nat): Region
    requires width > 0
  {
    var g1, g2 := lo / width, hi / width;
    if g1 < g2 then Span(g1, lo % width, g2, hi % width) else Outside(g1, lo % width, hi % width)
  }

  /** Across genes, two-point crossover exchanges exactly the loci `lo <= g * width + a < hi`. */
  lemma TwoPointSpan(lo: nat, hi: nat, width: nat, g: nat, a: nat)
    requires width > 0 && lo < hi && a < width && lo / width < hi / width
    ensures InRegion(TwoPointRegion(lo, hi, width), g, a) <==> lo <= g * width + a < hi
  {
    var g1, a1, g2, a2 := lo / width, lo % width, hi / width, hi % width;
    assert lo == g1 * width + a1 && hi == g2 * width + a2;
    assert TwoPointRegion(lo, hi, width) == Span(g1, a1, g2, a2);
    SpanOrder(g1, a1, g2, a2, width, g, a);
  }

  /** A span between two loci holds exactly the gene-major positions between them. */
  lemma SpanOrder(g1: nat, a1: nat, g2: nat, a2: nat, width: nat, g: nat, a: nat)
    requires a1 < width && a2 < width && a < width
    ensures InRegion(Span(g1, a1, g2, a2), g, a) <==> g1 * width + a1 <= g * width + a < g2 * width + a2
  {
    LexOrder(g, a, g1, a1, width);
    LexOrder(g, a, g2, a2, width);
  }

  /** Positions in gene-major order compare like (gene, allele) pairs. */
  lemma LexOrder(g: nat, a: nat, h: nat, b: nat, width: nat)
    requires a < width && b < width
    ensures g * width + a < h * width + b <==> g < h || (g == h && a < b)
  {
    if g < h {
      MulStep(g, h, width);
    } else if g > h {
      MulStep(h, g, width);
    }
  }

  lemma MulStep(g: nat, h: nat, width: nat)
    requires g < h
    ensures g * width + width <= h * width
  {
    var d := h - g - 1;
    assert h * width == g * width + width + d * width;
  }

  /** Within one gene, two-point crossover exchanges the alleles outside `lo..hi` of that gene. */
  lemma TwoPointSameGene(lo: nat, hi: nat, width: nat, g: nat, a: nat)
    requires width > 0 && lo < hi && lo / width == hi / width
    ensures InRegion(TwoPointRegion(lo, hi, width), g, a) <==>
              g == lo / width && !(lo % width <= a < hi % width)
  {
  }

  /** A locus inside a list of `n` genes of `width` alleles lies in one of those genes. */
  lemma DivBelow(i: nat, n: nat, width: nat)
    requires width > 0 && i < n * width
    ensures i / width < n
  {
    if i / width >= n {
      var q := i / width;
      if q > n {
        MulStep(n, q, width);
      }
      assert false;
    }
  }

  /** The first step of `crossover_two_point`: the genes strictly between the two cut genes come from `q`. */
  function MiddleSwap(p: Genome, q: Genome, g1: nat, g2: nat): (r: Genome)
    requires g1 <= g2 < |p| == |q|
    ensures |r| == |p| && forall g :: 0 <= g < |p| ==> r[g] == if g1 < g < g2 then q[g] else p[g]
  {
    if g2 - g1 > 1 then p[..g1 + 1] + q[g1 + 1..g2] + p[g2..] else p
  }

  /** The two cut points in (gene, allele) form: the first gene is not after the second, and both lie inside the genome. */
  lemma Cuts(lo: nat, hi: nat, width: nat, n: nat)
    requires width > 0 && lo < hi < n * width
    ensures lo / width <= hi / width < n
    ensures lo / width == hi / width ==> lo % width < hi % width
  {
    DivBelow(hi, n, width);
    LexOrder(lo / width, lo % width, hi / width, hi % width, width);
  }

  /**
   * `crossover_two_point` as written, on the genomes, for cut genes `g1 <= g2`
   * and alleles `a1`, `a2`: swap the genes between the cut genes, exchange
   * the suffix of gene `g1` from `a1`, then the prefix of gene `g2` before
   * `a2` (of the genes as they are after the first exchange).
   */
  function TwoPointChildren(p: Genome, q: Genome, g1: nat, a1: nat, g2: nat, a2: nat, width: nat): (Genome, Genome)
    requires g1 <= g2 < |p| && a1 <= width && a2 <= width && SameShape(p, q)
    requires forall g :: 0 <= g < |p| ==> |p[g]| == width
  {
    var m1, m2 := MiddleSwap(p, q, g1, g2), MiddleSwap(q, p, g1, g2);
    var s1 := m1[g1 := m1[g1][..a1] + m2[g1][a1..]];
    var s2 := m2[g1 := m2[g1][..a1] + m1[g1][a1..]];
    (s1[g2 := s2[g2][..a2] + s1[g2][a2..]], s2[g2 := s1[g2][..a2] + s2[g2][a2..]])
  }

  /** The two children are mirror images: swapping the parents swaps the children. */
  lemma TwoPointMirror(p: Genome, q: Genome, g1: nat, a1: nat, g2: nat, a2: nat, width: nat)
    requires g1 <= g2 < |p| && a1 <= width && a2 <= width && SameShape(p, q)
    requires forall g :: 0 <= g < |p| ==> |p[g]| == width
    ensures TwoPointChildren(q, p, g1, a1, g2, a2, width).0 == TwoPointChildren(p, q, g1, a1, g2, a2, width).1
  {
  }

  /**
   * The three steps of two-point crossover at loci `lo < hi` exchange exactly
   * the region `TwoPointRegion(lo, hi, width)`: every locus between the two
   * points in gene-major order, or, with both points in one gene, that
   * gene's loci outside them.
   */
  lemma TwoPointExchange(p: Genome, q: Genome, lo: nat, hi: nat, width: nat)
    requires width > 0 && lo < hi < |p| * width && SameShape(p, q)
    requires forall g :: 0 <= g < |p| ==> |p[g]| == width
    ensures lo / width <= hi / width < |p|
    ensures var c := TwoPointChildren(p, q, lo / width, lo % width, hi / width, hi % width, width);
            && c.0 == Exchange(p, q, TwoPointRegion(lo, hi, width))
            && c.1 == Exchange(q, p, TwoPointRegion(lo, hi, width))
  {
    Cuts(lo, hi, width, |p|);
    TwoPointFirst(p, q, lo, hi, width);
    TwoPointFirst(q, p, lo, hi, width);
    TwoPointMirror(p, q, lo / width, lo % width, hi / width, hi % width, width);
  }

  lemma TwoPointFirst(p: Genome, q: Genome, lo: nat, hi: nat, width: nat)
    requires width > 0 && lo < hi < |p| * width && SameShape(p, q)
    requires forall g :: 0 <= g < |p| ==> |p[g]| == width
    ensures lo / width <= hi / width < |p|
    ensures TwoPointChildren(p, q, lo / width, lo % width, hi / width, hi % width, width).0
              == Exchange(p, q, TwoPointRegion(lo, hi, width))
  {
    Cuts(lo, hi, width, |p|);
    var g1, a1, g2, a2 := lo / width, lo % width, hi / width, hi % width;
    if g1 < g2 {
      TwoPointAcross(p, q, g1, a1, g2, a2, width);
    } else {
      TwoPointWithin(p, q, g1, a1, a2, width);
    }
  }

  /** Cut points in different genes: the first child takes the second parent's loci from `(g1, a1)` up to `(g2, a2)`. */
  lemma TwoPointAcross(p: Genome, q: Genome, g1: nat, a1: nat, g2: nat, a2: nat, width: nat)
    requires g1 < g2 < |p| && a1 < width && a2 < width && SameShape(p, q)
    requires forall g :: 0 <= g < |p| ==> |p[g]| == width
    ensures TwoPointChildren(p, q, g1, a1, g2, a2, width).0 == Exchange(p, q, Span(g1, a1, g2, a2))
  {
    var c := TwoPointChildren(p, q, g1, a1, g2, a2, width).0;
    var e := Exchange(p, q, Span(g1, a1, g2, a2));
    forall g | 0 <= g < |p|
      ensures c[g] == e[g]
    {
      AcrossGene(p, q, g1, a1, g2, a2, width, g);
      SpanGene(p[g], q[g], g1, a1, g2, a2, g);
    }
  }

  lemma AcrossGene(p: Genome, q: Genome, g1: nat, a1: nat, g2: nat, a2: nat, width: nat, g: nat)
    requires g1 < g2 < |p| && a1 < width && a2 < width && SameShape(p, q) && g < |p|
    requires forall h :: 0 <= h < |p| ==> |p[h]| == width
    ensures TwoPointChildren(p, q, g1, a1, g2, a2, width).0[g] ==
              if g == g1 then p[g][..a1] + q[g][a1..]
              else if g == g2 then q[g][..a2] + p[g][a2..]
              else if g1 < g < g2 then q[g] else p[g]
  {
  }

  lemma SpanGene(x: seq<Allele>, y: seq<Allele>, g1: nat, a1: nat, g2: nat, a2: nat, g: nat)
    requires g1 < g2 && |x| == |y| && a1 <= |x| && a2 <= |x|
    ensures Cross(x, y, Span(g1, a1, g2, a2), g) ==
              if g == g1 then x[..a1] + y[a1..]
              else if g == g2 then y[..a2] + x[a2..]
              else if g1 < g < g2 then y else x
  {
  }

  /** Both cut points in gene `g1`: the first child takes the second parent's loci of that gene outside `a1..a2`. */
  lemma TwoPointWithin(p: Genome, q: Genome, g1: nat, a1: nat, a2: nat, width: nat)
    requires g1 < |p| && a1 < a2 < width && SameShape(p, q)
    requires forall g :: 0 <= g < |p| ==> |p[g]| == width
    ensures TwoPointChildren(p, q, g1, a1, g1, a2, width).0 == Exchange(p, q, Outside(g1, a1, a2))
  {
    var c := TwoPointChildren(p, q, g1, a1, g1, a2, width).0;
    var e := Exchange(p, q, Outside(g1, a1, a2));
    var x, y := p[g1], q[g1];
    assert c[g1] == (y[..a1] + x[a1..])[..a2] + (x[..a1] + y[a1..])[a2..];
    forall g | 0 <= g < |p|
      ensures c[g] == e[g]
    {
      if g != g1 {
        assert c[g] == p[g];
      }
    }
  }
}
