// The `Population` class: the generations of chromosomes, elitist
// roulette-wheel selection, then variation and crossover of everyone
// but the elite slot. Random draws arrive as arguments constrained to
// the ranges the source draws them from.

module Populations {
  import opened Wrappers
  import opened Symbols
  import opened Coding
  import Linkers
  import opened Karva
  import opened Variation
  import opened Chromosomes

  // ---------------------------------------------------------------- class attributes

  const ExclusionLevel: real := 1.5
  const InversionRate: real := 0.1
  const IsTranspositionRate: real := 0.1
  const IsTranspositionLength: seq<nat> := [1, 2, 3]
  const RisTranspositionRate: real := 0.1
  const RisTranspositionLength: seq<nat> := [1, 2, 3]
  const GeneTranspositionRate: real := 0.1
  const CrossoverOnePointRate: real := 0.3
  const CrossoverTwoPointRate: real := 0.3
  const CrossoverGeneRate: real := 0.1

  // ---------------------------------------------------------------- sums and means

  function Sum(xs: seq<real>): real
  {
    if xs == [] then 0.0 else Sum(xs[..|xs| - 1]) + xs[|xs| - 1]
  }

  /** The `mean` of `fitness_stats`: the total over the number of members. */
  function Mean(xs: seq<real>): real
    requires |xs| > 0
  {
    Sum(xs) / (|xs| as real)
  }

  /** The fitness-proportionate weights of `cycle`: `exclusion_level * fitness / mean`. */
  function Scaled(fs: seq<real>, mean: real): (ws: seq<real>)
    requires mean != 0.0
    ensures |ws| == |fs| && forall i :: 0 <= i < |fs| ==> ws[i] == ExclusionLevel * fs[i] / mean
  {
    seq(|fs|, i requires 0 <= i < |fs| => ExclusionLevel * fs[i] / mean)
  }

  lemma {:induction false} SumScaled(fs: seq<real>, mean: real)
    requires mean != 0.0
    ensures Sum(Scaled(fs, mean)) == ExclusionLevel * Sum(fs) / mean
    decreases |fs|
  {
    if fs != [] {
      var n := |fs| - 1;
      assert Scaled(fs, mean)[..n] == Scaled(fs[..n], mean);
      SumScaled(fs[..n], mean);
      assert Sum(Scaled(fs, mean)) == ExclusionLevel * Sum(fs[..n]) / mean + ExclusionLevel * fs[n] / mean;
    }
  }

  /** With `mean` the true mean, the roulette wheel's circumference is `exclusion_level` times the population size. */
  lemma WheelSize(fs: seq<real>)
    requires |fs| > 0 && Mean(fs) != 0.0
    ensures Sum(Scaled(fs, Mean(fs))) == ExclusionLevel * (|fs| as real)
  {
    SumScaled(fs, Mean(fs));
    var n, m := |fs| as real, Mean(fs);
    DivTimes(Sum(fs), n);
    assert Sum(fs) == m * n;
    Cancel(ExclusionLevel * n, m);
    assert ExclusionLevel * (m * n) == ExclusionLevel * n * m;
  }

  lemma DivTimes(x: real, n: real)
    requires n != 0.0
    ensures x / n * n == x
  {
  }

  lemma Cancel(x: real, m: real)
    requires m != 0.0
    ensures x * m / m == x
  {
  }

  // ---------------------------------------------------------------- best

  /**
   * The slot `max(reversed(population))` ends on among slots `k..`: scanning
   * from the back, a slot replaces the best so far only when it is strictly
   * fitter.
   */
  function BestFrom(fs: seq<real>, k: nat): (b: nat)
    requires k < |fs|
    ensures k <= b < |fs|
    decreases |fs| - k
  {
    if k == |fs| - 1 then k
    else
      var b := BestFrom(fs, k + 1);
      if fs[k] > fs[b] then k else b
  }

  /** The best slot is a fittest one, and the last among the fittest. */
  lemma {:induction false} BestFromSpec(fs: seq<real>, k: nat)
    requires k < |fs|
    ensures forall j :: k <= j < |fs| ==> fs[j] <= fs[BestFrom(fs, k)]
    ensures forall j :: BestFrom(fs, k) < j < |fs| ==> fs[j] < fs[BestFrom(fs, k)]
    decreases |fs| - k
  {
    if k < |fs| - 1 {
      BestFromSpec(fs, k + 1);
    }
  }

  // ---------------------------------------------------------------- roulette wheel

  /** The window after slot `k`: the weights of slots `0..k`. */
  function Prefix(ws: seq<real>, k: nat): real
    requires k < |ws|
  {
    Sum(ws[..k + 1])
  }

  lemma PrefixFirst(ws: seq<real>)
    requires |ws| > 0
    ensures Prefix(ws, 0) == ws[0]
  {
    var x := ws[..1];
    assert x[..|x| - 1] == [] && x[|x| - 1] == ws[0];
    assert Sum(x[..|x| - 1]) == 0.0;
    assert Sum(x) == Sum(x[..|x| - 1]) + x[|x| - 1];
  }

  lemma PrefixStep(ws: seq<real>, k: nat)
    requires k + 1 < |ws|
    ensures Prefix(ws, k + 1) == Prefix(ws, k) + ws[k + 1]
  {
    assert ws[..k + 2][..k + 1] == ws[..k + 1];
  }

  /**
   * The slot one spin `s` selects when the walk stands at `from`: the walk
   * moves on while the window is short of the spin, and running off the
   * end leaves it at the last slot.
   */
  function Pick(ws: seq<real>, from: nat, s: real): (k: nat)
    requires from < |ws|
    ensures from <= k < |ws|
    decreases |ws| - from
  {
    if Prefix(ws, from) >= s then from
    else if from + 1 < |ws| then Pick(ws, from + 1, s)
    else |ws| - 1
  }

  /** The selected slot is the first from `from` whose window covers the spin, else the last slot. */
  lemma {:induction false} PickLeast(ws: seq<real>, from: nat, s: real)
    requires from < |ws|
    ensures Prefix(ws, Pick(ws, from, s)) >= s || Pick(ws, from, s) == |ws| - 1
    ensures forall j :: from <= j < Pick(ws, from, s) ==> Prefix(ws, j) < s
    decreases |ws| - from
  {
    if Prefix(ws, from) < s && from + 1 < |ws| {
      PickLeast(ws, from + 1, s);
    }
  }

  /** The slots the ascending spins `ss` select, the walk starting at `from`. */
  function Walk(ws: seq<real>, ss: seq<real>, from: nat): (ks: seq<nat>)
    requires from < |ws|
    ensures |ks| == |ss|
    ensures forall t :: 0 <= t < |ks| ==> from <= ks[t] < |ws|
    decreases |ss|
  {
    if ss == [] then []
    else
      var k := Pick(ws, from, ss[0]);
      [k] + Walk(ws, ss[1..], k)
  }

  /** The selected slots never move back. */
  lemma {:induction false} WalkMonotone(ws: seq<real>, ss: seq<real>, from: nat)
    requires from < |ws|
    ensures forall t, u :: 0 <= t <= u < |ss| ==> Walk(ws, ss, from)[t] <= Walk(ws, ss, from)[u]
    decreases |ss|
  {
    if ss != [] {
      var k := Pick(ws, from, ss[0]);
      WalkMonotone(ws, ss[1..], k);
      var w, rest := Walk(ws, ss, from), Walk(ws, ss[1..], k);
      forall t, u | 0 <= t <= u < |ss|
        ensures w[t] <= w[u]
      {
        if 0 < t {
          assert w[t] == rest[t - 1] && w[u] == rest[u - 1];
        } else if 0 < u {
          assert w[u] == rest[u - 1];
        }
      }
    }
  }

  /** One more spin of the walk: the slot it picks joins those picked so far. */
  lemma WalkOn(ws: seq<real>, ss: seq<real>, t: nat, from: nat, picked: seq<nat>)
    requires t < |ss| && from < |ws| && picked + Walk(ws, ss[t..], from) == Walk(ws, ss, 0)
    ensures var k := Pick(ws, from, ss[t]); (picked + [k]) + Walk(ws, ss[t + 1..], k) == Walk(ws, ss, 0)
  {
    assert ss[t..][1..] == ss[t + 1..];
  }

  // ---------------------------------------------------------------- crossover pairs

  /** The members `1..n` whose roll is below the rate, ascending; member `i` rolls `rolls[i - 1]`. */
  function Chosen(rolls: seq<real>, rate: real, n: nat): (orgs: seq<nat>)
    requires n <= |rolls|
    ensures |orgs| <= n
    ensures forall t :: 0 <= t < |orgs| ==> 1 <= orgs[t] <= n
    ensures forall t, u :: 0 <= t < u < |orgs| ==> orgs[t] < orgs[u]
    ensures forall i :: 1 <= i <= n ==> (i in orgs <==> rolls[i - 1] < rate)
  {
    if n == 0 then []
    else Chosen(rolls, rate, n - 1) + if rolls[n - 1] < rate then [n] else []
  }

  /** `perm` reorders `0..n`: `random.shuffle` as the permutation it applies. */
  predicate IsPermutation(perm: seq<nat>, n: nat)
  {
    && |perm| == n
    && (forall t :: 0 <= t < n ==> perm[t] < n)
    && forall t, u :: 0 <= t < u < n ==> perm[t] != perm[u]
  }

  function Shuffled(orgs: seq<nat>, perm: seq<nat>): (r: seq<nat>)
    requires IsPermutation(perm, |orgs|)
    ensures |r| == |orgs| && forall t :: 0 <= t < |r| ==> r[t] == orgs[perm[t]]
  {
    seq(|orgs|, t requires 0 <= t < |orgs| => orgs[perm[t]])
  }

  /** Consecutive members paired off; an odd one out is dropped. */
  function PairUp(s: seq<nat>): (ps: seq<(nat, nat)>)
    ensures |ps| == |s| / 2
    ensures forall k :: 0 <= k < |ps| ==> ps[k] == (s[2 * k], s[2 * k + 1])
    decreases |s|
  {
    if |s| < 2 then [] else [(s[0], s[1])] + PairUp(s[2..])
  }

  /** Pairs of distinct members of `1..n - 1`, no member in two pairs. */
  predicate Disjoint(ps: seq<(nat, nat)>, n: nat)
  {
    && (forall k :: 0 <= k < |ps| ==> 1 <= ps[k].0 < n && 1 <= ps[k].1 < n && ps[k].0 != ps[k].1)
    && forall k, l :: 0 <= k < l < |ps| ==>
         ps[k].0 != ps[l].0 && ps[k].0 != ps[l].1 && ps[k].1 != ps[l].0 && ps[k].1 != ps[l].1
  }

  /** The k-th of disjoint pairs names two distinct members. */
  lemma PairAt(ps: seq<(nat, nat)>, n: nat, k: nat)
    requires Disjoint(ps, n) && k < |ps|
    ensures 1 <= ps[k].0 < n && 1 <= ps[k].1 < n && ps[k].0 != ps[k].1
  {
  }

  /** Pairing off distinct members of `1..n - 1` gives disjoint pairs. */
  lemma PairUpDisjoint(s: seq<nat>, n: nat)
    requires forall t :: 0 <= t < |s| ==> 1 <= s[t] < n
    requires forall t, u :: 0 <= t < u < |s| ==> s[t] != s[u]
    ensures Disjoint(PairUp(s), n)
  {
    var ps := PairUp(s);
    forall k, l | 0 <= k < l < |ps|
      ensures ps[k].0 != ps[l].0 && ps[k].0 != ps[l].1 && ps[k].1 != ps[l].0 && ps[k].1 != ps[l].1
    {
      assert 2 * k + 1 < 2 * l;
    }
  }

  /** `_pairs` gives disjoint pairs of distinct members, never the elite slot 0. */
  lemma PairsDisjoint(rolls: seq<real>, rate: real, perm: seq<nat>)
    requires |rolls| > 0 && IsPermutation(perm, |Chosen(rolls, rate, |rolls|)|)
    ensures Disjoint(PairUp(Shuffled(Chosen(rolls, rate, |rolls|), perm)), |rolls| + 1)
  {
    var orgs := Chosen(rolls, rate, |rolls|);
    var s := Shuffled(orgs, perm);
    forall t, u | 0 <= t < u < |s|
      ensures s[t] != s[u]
    {
      if perm[t] < perm[u] {
        assert orgs[perm[t]] < orgs[perm[u]];
      } else {
        assert orgs[perm[u]] < orgs[perm[t]];
      }
    }
    PairUpDisjoint(s, |rolls| + 1);
  }

  /** CPython 2's `random.choice` on `n` items: the item at `int(u * n)` for a uniform `u`. */
  function Choice(u: real, n: nat): (k: nat)
    requires 0.0 <= u < 1.0 && n > 0
    ensures k < n
  {
    var x := u * (n as real);
    assert x < n as real by {
      assert (n as real) - x == (1.0 - u) * (n as real);
    }
    x.Floor
  }

  // ---------------------------------------------------------------- draws of a cycle

  predicate Unit(u: real)
  {
    0.0 <= u < 1.0
  }

  predicate Ascending(ss: seq<real>)
  {
    forall t, u :: 0 <= t < u < |ss| ==> ss[t] <= ss[u]
  }

  /** The roulette spins `random.random() * scaling`. */
  function Spun(us: seq<real>, scaling: real): (ss: seq<real>)
    ensures |ss| == |us| && forall t :: 0 <= t < |us| ==> ss[t] == us[t] * scaling
  {
    seq(|us|, t requires 0 <= t < |us| => us[t] * scaling)
  }

  datatype Inversion = Inversion(roll: real, gene: nat, start: nat, stop: nat)
  datatype Insertion = Insertion(roll: real, lengthPick: nat, source: nat, target: nat, start: nat, offset: nat)
  datatype RootInsertion = RootInsertion(roll: real, lengthPick: nat, source: nat, target: nat, u: real)
  datatype GeneMove = GeneMove(roll: real, which: nat)

  /** The draws of one member's variation: the mutation draws, then each operator's roll and arguments. */
  datatype Variations = Variations(
    mutation: seq<seq<Draw>>, inversion: Inversion, insertion: Insertion, root: RootInsertion, move: GeneMove)

  datatype Crossover = OnePointCross | TwoPointCross | GeneCross

  /** The arguments one crossover draws: a gene and an index (one-point, gene), or two loci (two-point). */
  datatype CrossDraw = CrossDraw(gene: nat, index: nat, first: nat, second: nat)

  /** One `_pairs` call: the members' rolls, the shuffle, and the arguments of the k-th pair's crossover. */
  datatype Pairing = Pairing(rolls: seq<real>, shuffle: seq<nat>, draws: seq<CrossDraw>)

  datatype CycleDraws = CycleDraws(
    spins: seq<real>, choices: seq<nat>, variations: seq<Variations>,
    onePoint: Pairing, twoPoint: Pairing, gene: Pairing)

  /** The children of one crossover of type `op`, as genomes. */
  function Crossed(op: Crossover, p: Genome, q: Genome, d: CrossDraw, width: nat): (Genome, Genome)
    requires SameShape(p, q) && width > 0
  {
    match op
    case OnePointCross => (Exchange(p, q, Suffix(d.gene, d.index)), Exchange(q, p, Suffix(d.gene, d.index)))
    case TwoPointCross =>
      if TotalLength(p) < 2 then (p, q)
      else
        var r := TwoPointRegion(Min(d.first, d.second), Max(d.first, d.second), width);
        (Exchange(p, q, r), Exchange(q, p, r))
    case GeneCross => (Exchange(p, q, WholeGene(d.gene)), Exchange(q, p, WholeGene(d.gene)))
  }

  // ---------------------------------------------------------------- variation of one member, on genomes

  /** Every gene has the head/tail shape `generate` gives. */
  predicate Formed(p: Genome, head: nat, arity: nat)
  {
    forall g :: 0 <= g < |p| ==> Shaped(p[g], head, arity)
  }

  /** Point mutation keeps every gene's shape. */
  lemma MutatedFormed(p: Genome, head: nat, arity: nat, al: Alphabet, rate: real, ds: seq<seq<Draw>>)
    requires Formed(p, head, arity) && Fits(al, arity) && MutationDraws(p, head, al, ds)
    ensures Formed(MutateGenome(p, head, al, rate, ds), head, arity)
  {
    forall g | 0 <= g < |p|
      ensures Shaped(MutateGenome(p, head, al, rate, ds)[g], head, arity)
    {
      MutateShaped(p[g], head, arity, al, rate, ds[g]);
    }
  }

  /** Mutation in `cycle`: `mutate(rate)` when the rate is non-zero. */
  function MutationPhase(p: Genome, head: nat, arity: nat, al: Alphabet, rate: real, ds: seq<seq<Draw>>): (r: Genome)
    requires Formed(p, head, arity) && Fits(al, arity) && MutationDraws(p, head, al, ds)
    ensures |r| == |p| && Formed(r, head, arity)
    ensures rate <= 0.0 ==> r == p
    ensures forall g :: 0 <= g < |p| ==> |r[g]| == |p[g]|
    ensures forall g, k :: 0 <= g < |p| && 0 <= k < |p[g]| ==>
              r[g][k] == p[g][k] || (k >= head && r[g][k] in al.terminals) || (k < head && r[g][k] in al.symbols)
  {
    MutatedFormed(p, head, arity, al, rate, ds);
    forall g | 0 <= g < |p|
      ensures rate <= 0.0 ==> MutateGene(p[g], head, al, rate, ds[g]) == p[g]
      ensures forall k :: 0 <= k < |p[g]| ==>
                var m := MutateGene(p[g], head, al, rate, ds[g])[k];
                m == p[g][k] || (k >= head && m in al.terminals) || (k < head && m in al.symbols)
    {
      MutateShaped(p[g], head, arity, al, rate, ds[g]);
      if rate <= 0.0 {
        MutateNothing(p[g], head, al, rate, ds[g]);
      }
    }
    if rate != 0.0 then MutateGenome(p, head, al, rate, ds) else p
  }

  /**
   * Inversion in `cycle`: when the roll falls below the rate and the head
   * has two loci at least, one gene's head range is reversed.
   */
  function InversionPhase(p: Genome, head: nat, arity: nat, t: Inversion): (r: Genome)
    requires Formed(p, head, arity)
    requires head >= 2 ==> t.gene < |p| && t.start < head && t.stop < head && t.start != t.stop
    ensures |r| == |p| && Formed(r, head, arity)
    ensures forall g :: 0 <= g < |p| && (head < 2 || g != t.gene) ==> r[g] == p[g]
    ensures forall g :: 0 <= g < |p| ==> r[g][head..] == p[g][head..]
  {
    if !(InversionRate != 0.0 && t.roll < InversionRate) || head < 2 then p
    else
      var lo, hi := Min(t.start, t.stop), Max(t.start, t.stop);
      InvertShaped(p[t.gene], head, arity, lo, hi);
      p[t.gene := Inverted(p[t.gene], lo, hi)]
  }

  /**
   * IS transposition in `cycle`: when the roll falls below the rate and the
   * head has two loci at least, the target gene takes the insertion of the
   * drawn length.
   */
  function IsPhase(p: Genome, head: nat, arity: nat, t: Insertion): (r: Genome)
    requires Formed(p, head, arity)
    requires t.lengthPick < |IsTranspositionLength|
    requires head >= 2 ==> t.source < |p| && t.target < |p| && 1 <= t.offset < head
    ensures |r| == |p| && Formed(r, head, arity)
    ensures forall g :: 0 <= g < |p| && (head < 2 || g != t.target) ==> r[g] == p[g]
    ensures forall g :: 0 <= g < |p| ==> r[g][head..] == p[g][head..] && (head >= 1 ==> r[g][0] == p[g][0])
  {
    if !(IsTranspositionRate != 0.0 && t.roll < IsTranspositionRate) || head < 2 then p
    else
      var length := IsTranspositionLength[t.lengthPick];
      IsShaped(p[t.source], p[t.target], head, arity, length, t.start, t.offset);
      IsKeepsRootAndTail(p[t.source], p[t.target], head, length, t.start, t.offset);
      p[t.target := IsTransposed(p[t.source], p[t.target], head, length, t.start, t.offset)]
  }

  /**
   * RIS transposition in `cycle`: when the roll falls below the rate and the
   * source gene has a function, the target gene takes the root insertion
   * that starts at the function `random.choice` picks.
   */
  function RisPhase(p: Genome, head: nat, arity: nat, t: RootInsertion): (r: Genome)
    requires Formed(p, head, arity) && t.lengthPick < |RisTranspositionLength|
    requires t.source < |p| && t.target < |p| && Unit(t.u)
    ensures |r| == |p| && Formed(r, head, arity)
    ensures forall g :: 0 <= g < |p| && g != t.target ==> r[g] == p[g]
    ensures forall g :: 0 <= g < |p| ==> r[g][head..] == p[g][head..]
    ensures r == p || r[t.target][0].Fn?
  {
    var src := p[t.source];
    var fs := FnPositions(src, |src|);
    if !(RisTranspositionRate != 0.0 && t.roll < RisTranspositionRate) || fs == [] then p
    else
      var length := RisTranspositionLength[t.lengthPick];
      var start := fs[Choice(t.u, |fs|)];
      assert start < head;
      RisShaped(src, p[t.target], head, arity, length, start);
      RisInserts(src, p[t.target], head, length, start);
      p[t.target := RisTransposed(src, p[t.target], head, length, start)]
  }

  /** Gene transposition in `cycle`: when the roll falls below the rate and there are two genes at least, gene 0 and gene `which` trade places. */
  function MovePhase(p: Genome, head: nat, arity: nat, t: GeneMove): (r: Genome)
    requires Formed(p, head, arity)
    requires |p| >= 2 ==> 1 <= t.which < |p|
    ensures |r| == |p| && Formed(r, head, arity)
    ensures multiset(r) == multiset(p)
    ensures forall g :: 0 < g < |p| && g != t.which ==> r[g] == p[g]
  {
    if !(GeneTranspositionRate != 0.0 && t.roll < GeneTranspositionRate) || |p| < 2 then p
    else
      SwapPermutes(p, t.which);
      SwapGenes(p, t.which)
  }

  /** The variation one member goes through in `cycle`: mutation, inversion, IS, RIS and gene transposition, in that order. */
  function Varied(p: Genome, head: nat, arity: nat, al: Alphabet, rate: real, v: Variations): (r: Genome)
    requires Formed(p, head, arity) && Fits(al, arity) && MutationDraws(p, head, al, v.mutation)
    requires head >= 2 ==> v.inversion.gene < |p| && v.inversion.start < head && v.inversion.stop < head
                           && v.inversion.start != v.inversion.stop
    requires v.insertion.lengthPick < |IsTranspositionLength|
    requires head >= 2 ==> v.insertion.source < |p| && v.insertion.target < |p| && 1 <= v.insertion.offset < head
    requires v.root.lengthPick < |RisTranspositionLength| && v.root.source < |p| && v.root.target < |p| && Unit(v.root.u)
    requires |p| >= 2 ==> 1 <= v.move.which < |p|
    ensures |r| == |p| && Formed(r, head, arity)
  {
    var p1 := MutationPhase(p, head, arity, al, rate, v.mutation);
    var p2 := InversionPhase(p1, head, arity, v.inversion);
    var p3 := IsPhase(p2, head, arity, v.insertion);
    var p4 := RisPhase(p3, head, arity, v.root);
    MovePhase(p4, head, arity, v.move)
  }

  /** A member of a population of this type, head, linker and gene count. */
  predicate Fit(c: Chromosome, kind: Kind, head: nat, linker: Linkers.Linker, count: nat)
  {
    c.Valid() && c.kind == kind && c.head == head && c.linker == linker && |c.genes| == count
  }

  /** The fitness of each member. */
  function Scores(cs: seq<Chromosome>): (fs: seq<real>)
    requires forall i :: 0 <= i < |cs| ==> cs[i].kind.fitness.Some?
    ensures |fs| == |cs| && forall i :: 0 <= i < |cs| ==> cs[i].FitnessOf() == Success(fs[i])
  {
    seq(|cs|, i requires 0 <= i < |cs| => cs[i].FitnessOf().value)
  }

  /** The set of members some pair names. */
  function Paired(ps: seq<(nat, nat)>): set<nat>
  {
    if ps == [] then {} else {ps[0].0, ps[0].1} + Paired(ps[1..])
  }

  /** The pairing loop of `_pairs`: consecutive members, stepping by two. */
  method PairOff(orgs: seq<nat>) returns (pairs: seq<(nat, nat)>)
    ensures pairs == PairUp(orgs)
  {
    pairs := [];
    var t := 0;
    while t < |orgs|
      invariant t % 2 == 0 && t <= |orgs| + 1
      invariant |pairs| == (if t <= |orgs| then t else |orgs|) / 2
      invariant forall k :: 0 <= k < |pairs| ==> pairs[k] == (orgs[2 * k], orgs[2 * k + 1])
    {
      if t + 1 < |orgs| {
        pairs := pairs + [(orgs[t], orgs[t + 1])];
      }
      t := t + 2;
    }
  }

  lemma {:induction false} PairedAppend(ps: seq<(nat, nat)>, q: (nat, nat))
    ensures Paired(ps + [q]) == Paired(ps) + {q.0, q.1}
    decreases |ps|
  {
    if ps != [] {
      assert (ps + [q])[1..] == ps[1..] + [q];
      PairedAppend(ps[1..], q);
    }
  }

  /** Two different pairs of a disjoint list name four different members. */
  lemma PairApart(ps: seq<(nat, nat)>, n: nat, m: nat, k: nat)
    requires Disjoint(ps, n) && m < k < |ps|
    ensures ps[m].0 != ps[k].0 && ps[m].0 != ps[k].1 && ps[m].1 != ps[k].0 && ps[m].1 != ps[k].1
  {}

  /** A member no pair among the first `k` names is outside their `Paired` set. */
  lemma {:induction false} NotPaired(ps: seq<(nat, nat)>, k: nat, x: nat)
    requires k <= |ps| && forall j :: 0 <= j < k ==> x != ps[j].0 && x != ps[j].1
    ensures x !in Paired(ps[..k])
    decreases k
  {
    if k > 0 {
      NotPaired(ps, k - 1, x);
      PairedStep(ps, k - 1);
    }
  }

  /** The members the first `k + 1` pairs name. */
  lemma PairedStep(ps: seq<(nat, nat)>, k: nat)
    requires k < |ps|
    ensures Paired(ps[..k + 1]) == Paired(ps[..k]) + {ps[k].0, ps[k].1}
  {
    assert ps[..k + 1] == ps[..k] + [ps[k]];
    PairedAppend(ps[..k], ps[k]);
  }

  /** Crossing pair `k` keeps every slot no pair up to `k` names. */
  lemma KeptStep(ps: seq<(nat, nat)>, before: seq<Chromosome>, mid: seq<Chromosome>, after: seq<Chromosome>, k: nat)
    requires k < |ps| && |mid| == |before| && |after| == |before|
    requires forall i :: 0 <= i < |before| && i !in Paired(ps[..k]) ==> mid[i] == before[i]
    requires forall i :: 0 <= i < |before| && i != ps[k].0 && i != ps[k].1 ==> after[i] == mid[i]
    ensures forall i :: 0 <= i < |before| && i !in Paired(ps[..k + 1]) ==> after[i] == before[i]
  {
    PairedStep(ps, k);
  }

  class Population {
    const kind: Kind
    const size: nat
    const head: nat
    const count: nat
    const linker: Linkers.Linker
    const mutationRate: real
    const scaled: array<real>
    var age: nat
    var population: array<Chromosome>
    var nextPop: array<Chromosome>
    var mean: real

    predicate Member(c: Chromosome)
    {
      Fit(c, kind, head, linker, count)
    }

    /** The state `__init__` sets up and `cycle` keeps. */
    predicate Valid()
      reads this, population
    {
      && kind.Ok() && kind.fitness.Some? && size >= 1 && count >= 1
      && population.Length == size && nextPop.Length == size && scaled.Length == size
      && population != nextPop
      && (forall i :: 0 <= i < size ==> Member(population[i]))
      && mean == Mean(Scores(population[..]))
      && mutationRate == 2.0 / ((count * kind.GeneLength(head)) as real)
    }

    /** The next generation's buffer holds members only. */
    predicate Ready()
      reads this, nextPop
    {
      nextPop.Length == size && forall i :: 0 <= i < size ==> Member(nextPop[i])
    }

    constructor Init(kind: Kind, size: nat, head: nat, count: nat, linker: Linkers.Linker, cs: seq<Chromosome>)
      requires kind.Ok() && kind.fitness.Some? && size >= 1 && count >= 1 && |cs| == size
      requires forall k :: 0 <= k < size ==> Fit(cs[k], kind, head, linker, count)
      ensures Valid() && fresh(population) && fresh(nextPop) && fresh(scaled)
      ensures this.kind == kind && this.size == size && this.head == head && this.count == count && this.linker == linker
      ensures age == 0 && population[..] == cs
    {
      this.kind := kind;
      this.size := size;
      this.head := head;
      this.count := count;
      this.linker := linker;
      mutationRate := 2.0 / ((count * kind.GeneLength(head)) as real);
      scaled := new real[size](_ => 0.0);
      age := 0;
      var first := cs[0];
      population := new Chromosome[size](k requires 0 <= k < size => cs[k]);
      nextPop := new Chromosome[size](_ => first);
      new;
      assert population[..] == cs;
      mean := Mean(Scores(population[..]));
    }

    /**
     * `Population(cls, size, head, genes, linker)`: `size` chromosomes from
     * `generate`, the k-th drawn by `picks[k]`. No chromosome at all is a
     * `ValueError`; the first chromosome's errors (a draw from an empty
     * table, a negative head, no genes) are raised as `generate` raises
     * them; a type without `_fitness` fails when the first statistics are
     * computed.
     */
    static method Create(kind: Kind, size: int, head: int, count: nat, linker: Linkers.Linker, picks: seq<seq<seq<nat>>>)
      returns (r: Result<Population>)
      requires kind.Ok()
      requires size >= 1 ==> |picks| == size && forall k :: 0 <= k < size ==> |picks[k]| == count
      requires size >= 1 && head >= 0 && !kind.GeneFails(head) ==>
                 forall k, g :: 0 <= k < size && 0 <= g < count ==> kind.Picks(head, picks[k][g])
      modifies kind
      ensures size < 1 ==> r == Failure(ValueError("Empty populations are meaningless!")) && kind.nextId == old(kind.nextId)
      ensures size >= 1 && count >= 1 && kind.GeneFails(head) ==> r == Failure(IndexError)
      ensures size >= 1 && head < 0 && (count == 0 || !kind.GeneFails(head)) ==> r == Failure(ValueError("Head length must be at least 0"))
      ensures size >= 1 && head >= 0 && count == 0 ==> r == Failure(ValueError("Must have at least 1 gene"))
      ensures size >= 1 && (head < 0 || count == 0 || kind.GeneFails(head)) ==> kind.nextId == old(kind.nextId)
      ensures size >= 1 && head >= 0 && count >= 1 && !kind.GeneFails(head) && kind.fitness.None? ==> r == Failure(NotImplementedError)
      ensures size >= 1 && head >= 0 && count >= 1 && !kind.GeneFails(head) && kind.fitness.Some? ==>
                && r.Success? && fresh(r.value) && r.value.Valid() && r.value.age == 0
                && r.value.kind == kind && r.value.size == size && r.value.head == head
                && r.value.count == count && r.value.linker == linker
                && kind.nextId == old(kind.nextId) + size
                && forall k :: 0 <= k < size ==>
                     && r.value.population[k].id == old(kind.nextId) + k
                     && forall g :: 0 <= g < count ==> r.value.population[k].genes[g].alleles == kind.Drawn(head, picks[k][g])
    {
      if size < 1 {
        return Failure(ValueError("Empty populations are meaningless!"));
      }
      if head < 0 || count == 0 || kind.GeneFails(head) {
        var c := Chromosome.Generate(kind, head, count, linker, picks[0]);
        return Failure(c.error);
      }
      var cs := GenerateAll(kind, size, head, count, linker, picks);
      if kind.fitness.None? {
        return Failure(NotImplementedError);
      }
      var p := new Population.Init(kind, size, head, count, linker, cs);
      r := Success(p);
    }

    /** The first `size` chromosomes of the generator. */
    static method GenerateAll(kind: Kind, size: nat, head: nat, count: nat, linker: Linkers.Linker, picks: seq<seq<seq<nat>>>)
      returns (cs: seq<Chromosome>)
      requires kind.Ok() && count >= 1 && |picks| == size
      requires forall k :: 0 <= k < size ==> |picks[k]| == count
      requires forall k, g :: 0 <= k < size && 0 <= g < count ==> kind.Picks(head, picks[k][g])
      modifies kind
      ensures |cs| == size && kind.nextId == old(kind.nextId) + size
      ensures forall k :: 0 <= k < size ==>
                && Fit(cs[k], kind, head, linker, count) && cs[k].id == old(kind.nextId) + k
                && forall g :: 0 <= g < count ==> cs[k].genes[g].alleles == kind.Drawn(head, picks[k][g])
    {
      if size > 0 {
        kind.PicksDrawable(head, picks[0][0]);
      }
      cs := [];
      var k := 0;
      while k < size
        invariant k <= size && |cs| == k && kind.nextId == old(kind.nextId) + k
        invariant forall j :: 0 <= j < k ==>
                    && Fit(cs[j], kind, head, linker, count) && cs[j].id == old(kind.nextId) + j
                    && forall g :: 0 <= g < count ==> cs[j].genes[g].alleles == kind.Drawn(head, picks[j][g])
      {
        ghost var before := kind.nextId;
        assert forall g :: 0 <= g < count ==> kind.Picks(head, picks[k][g]);
        var c := Chromosome.Generate(kind, head, count, linker, picks[k]);
        assert c.Success? && Fit(c.value, kind, head, linker, count) && c.value.id == before;
        cs := cs + [c.value];
        k := k + 1;
      }
    }

    /** `__len__`. */
    function Len(): (n: nat)
      reads this, population
      requires Valid()
      ensures n == population.Length
    {
      size
    }

    /** `__getitem__` for a non-negative index: the member, or an `IndexError` past the end. */
    function GetItem(i: nat): (r: Result<Chromosome>)
      reads this, population
      requires Valid()
      ensures r.Success? <==> i < size
      ensures r.Success? ==> Member(r.value) && r.value == population[i]
      ensures r.Failure? ==> r.error == IndexError
    {
      if i < size then Success(population[i]) else Failure(IndexError)
    }

    /** The member `best` names. */
    function BestMember(): (c: Chromosome)
      reads this, population
      requires Valid()
      ensures Member(c)
    {
      population[BestFrom(Scores(population[..]), 0)]
    }

    /** `best`: a fittest member, the last of them among ties. */
    method Best() returns (b: Chromosome)
      requires Valid()
      ensures b == BestMember()
      ensures forall j :: 0 <= j < size ==> population[j].FitnessOf().value <= b.FitnessOf().value
    {
      ghost var fs := Scores(population[..]);
      var i := size - 1;
      b := population[i];
      ghost var bi := i;
      while i > 0
        invariant 0 <= i < size && bi == BestFrom(fs, i) && b == population[bi]
      {
        i := i - 1;
        var c := population[i].Cmp(b);
        if c.value > 0 {
          b := population[i];
          bi := i;
        }
      }
      BestFromSpec(fs, 0);
    }

    /** The inner walk of the roulette: the source moves on while its window is short of the spin. */
    method Advance(from: nat, w: real, spin: real) returns (source: nat, window: real)
      requires scaled.Length == size && from < size && w == Prefix(scaled[..], from)
      ensures source == Pick(scaled[..], from, spin) && window == Prefix(scaled[..], source)
    {
      ghost var ws := scaled[..];
      source, window := from, w;
      while window < spin
        invariant from <= source < size && window == Prefix(ws, source)
        invariant Pick(ws, from, spin) == Pick(ws, source, spin)
        decreases size - source
      {
        source := source + 1;
        if source >= scaled.Length {
          source := size - 1;
          break;
        }
        PrefixStep(ws, source - 1);
        window := window + scaled[source];
      }
    }

    // ------------------------------------------------------------ draws a cycle may use

    /** One member's variation draws fit this population's chromosomes. */
    predicate VariationFits(v: Variations)
    {
      var width := kind.GeneLength(head);
      && |v.mutation| == count && (forall g :: 0 <= g < count ==> DrawsFit(v.mutation[g], width, head, kind.Letters()))
      && Unit(v.inversion.roll) && Unit(v.insertion.roll) && Unit(v.root.roll) && Unit(v.move.roll)
      && (head >= 2 ==>
            && v.inversion.gene < count && v.inversion.start < head && v.inversion.stop < head
            && v.inversion.start != v.inversion.stop)
      && v.insertion.lengthPick < |IsTranspositionLength|
      && (head >= 2 ==>
            && v.insertion.source < count && v.insertion.target < count
            && v.insertion.start < width && 1 <= v.insertion.offset < head)
      && v.root.lengthPick < |RisTranspositionLength|
      && v.root.source < count && v.root.target < count && Unit(v.root.u)
      && (count >= 2 ==> 1 <= v.move.which < count)
    }

    /** One crossover's arguments fit this population's chromosomes. */
    predicate CrossFits(d: CrossDraw)
    {
      var width := kind.GeneLength(head);
      && d.gene < count && d.index < width
      && (count * width >= 2 ==> d.first < count * width && d.second < count * width && d.first != d.second)
    }

    /** One `_pairs` call's draws: a roll per member after the elite, a shuffle of the chosen, arguments for every pair. */
    predicate PairingFits(rate: real, p: Pairing)
    {
      && size >= 1 && |p.rolls| == size - 1 && (forall t :: 0 <= t < |p.rolls| ==> Unit(p.rolls[t]))
      && (rate != 0.0 && size >= 3 ==> IsPermutation(p.shuffle, |Chosen(p.rolls, rate, size - 1)|))
      && |p.draws| == size && forall k :: 0 <= k < size ==> CrossFits(p.draws[k])
    }

    predicate CycleFits(d: CycleDraws)
    {
      && size >= 1
      && |d.spins| == size - 1 && (forall t :: 0 <= t < |d.spins| ==> Unit(d.spins[t])) && Ascending(d.spins)
      && |d.choices| == size && (forall i :: 0 <= i < size ==> d.choices[i] < size)
      && |d.variations| == size - 1 && (forall i :: 0 <= i < size - 1 ==> VariationFits(d.variations[i]))
      && PairingFits(CrossoverOnePointRate, d.onePoint)
      && PairingFits(CrossoverTwoPointRate, d.twoPoint)
      && PairingFits(CrossoverGeneRate, d.gene)
    }

    // ------------------------------------------------------------ selection

    /**
     * Selection of `cycle`: slot 0 takes the best member. With a positive
     * mean the other slots come from the roulette wheel of scaled
     * fitness; otherwise every slot, slot 0 included, is a random member.
     */
    method Select(b: Chromosome, spins: seq<real>, choices: seq<nat>)
      requires Valid() && b == BestMember()
      requires |spins| == size - 1 && |choices| == size && forall i :: 0 <= i < size ==> choices[i] < size
      modifies nextPop, scaled
      ensures mean > 0.0 ==>
                && scaled[..] == Scaled(Scores(population[..]), mean)
                && nextPop[0] == b
                && forall t :: 0 <= t < size - 1 ==>
                     nextPop[t + 1] == population[Walk(scaled[..], Spun(spins, Sum(scaled[..])), 0)[t]]
      ensures mean <= 0.0 ==> scaled[..] == old(scaled[..]) && forall i :: 0 <= i < size ==> nextPop[i] == population[choices[i]]
      ensures forall i :: 0 <= i < size ==> nextPop[i] in population[..]
      ensures Ready()
    {
      nextPop[0] := b;
      if mean > 0.0 {
        ScaleFitness();
        var scaling := Sum(scaled[..]);
        var select := Spun(spins, scaling);
        Roulette(select);
        Selected(Walk(scaled[..], select, 0), b);
      } else {
        PickAtRandom(choices);
      }
    }

    /** The scaled fitness of each member: `exclusion_level * fitness / mean`. */
    method ScaleFitness()
      requires Valid() && mean > 0.0
      modifies scaled
      ensures scaled[..] == Scaled(Scores(population[..]), mean)
    {
      ghost var fs := Scores(population[..]);
      var i := 0;
      while i < size
        invariant i <= size
        invariant forall k :: 0 <= k < i ==> scaled[k] == ExclusionLevel * fs[k] / mean
      {
        scaled[i] := ExclusionLevel * population[i].FitnessOf().value / mean;
        i := i + 1;
      }
    }

    /** The choices of the random refill: every slot a member drawn by `random.choice`. */
    method PickAtRandom(choices: seq<nat>)
      requires Valid() && |choices| == size && forall i :: 0 <= i < size ==> choices[i] < size
      modifies nextPop
      ensures forall i :: 0 <= i < size ==> nextPop[i] == population[choices[i]]
    {
      var i := 0;
      while i < size
        invariant i <= size
        invariant forall k :: 0 <= k < i ==> nextPop[k] == population[choices[k]]
      {
        nextPop[i] := population[choices[i]];
        i := i + 1;
      }
    }

    /** Slots filled from the population hold members. */
    lemma Selected(ks: seq<nat>, b: Chromosome)
      requires Valid() && |ks| == size - 1 && forall t :: 0 <= t < |ks| ==> ks[t] < size
      requires b == BestMember() && nextPop[0] == b
      requires forall t :: 0 <= t < size - 1 ==> nextPop[t + 1] == population[ks[t]]
      ensures forall i :: 0 <= i < size ==> nextPop[i] in population[..] && Member(nextPop[i])
    {
      forall i | 0 <= i < size
        ensures nextPop[i] in population[..] && Member(nextPop[i])
      {
        if i > 0 {
          assert nextPop[i] == population[ks[i - 1]];
        } else {
          assert nextPop[0] == population[BestFrom(Scores(population[..]), 0)];
        }
      }
    }

    /**
     * The roulette walk of `cycle`: for each spin in ascending order the
     * source moves on while its window is short of the spin, running off
     * the end clamps it to the last member; target `t + 1` takes the source.
     */
    method Roulette(select: seq<real>)
      requires size >= 1 && |select| == size - 1
      requires scaled.Length == size && population.Length == size && nextPop.Length == size && population != nextPop
      modifies nextPop
      ensures nextPop[0] == old(nextPop[0])
      ensures forall t :: 0 <= t < size - 1 ==> nextPop[t + 1] == population[Walk(scaled[..], select, 0)[t]]
    {
      ghost var ws := scaled[..];
      var window := scaled[0];
      PrefixFirst(ws);
      var source, target := 0, 1;
      ghost var picked: seq<nat> := [];
      while target < size
        invariant 1 <= target <= size && |picked| == target - 1 && source < size
        invariant forall t :: 0 <= t < |picked| ==> picked[t] < size
        invariant window == Prefix(ws, source)
        invariant picked + Walk(ws, select[target - 1..], source) == Walk(ws, select, 0)
        invariant forall t :: 0 <= t < target - 1 ==> nextPop[t + 1] == population[picked[t]]
        invariant nextPop[0] == old(nextPop[0])
      {
        var spin := select[target - 1];
        ghost var from := source;
        source, window := Advance(source, window, spin);
        WalkOn(ws, select, target - 1, from, picked);
        nextPop[target] := population[source];
        picked := picked + [source];
        target := target + 1;
      }
    }

    // ------------------------------------------------------------ variation

    /** A member's genes have the population's shape. */
    lemma MemberFormed(c: Chromosome)
      requires Member(c)
      ensures Formed(c.GeneAlleles(), head, kind.Arity()) && |c.GeneAlleles()| == count
    {
    }

    /** The genes a member's variation in `cycle` leaves it with. */
    function VariedMember(c: Chromosome, v: Variations): (p: Genome)
      requires Member(c) && VariationFits(v)
    {
      MemberFormed(c);
      Varied(c.GeneAlleles(), head, kind.Arity(), kind.Letters(), mutationRate, v)
    }

    /**
     * The variation of one member in `cycle`: mutation at the population's
     * rate, then inversion, IS, RIS and gene transposition, each when its
     * roll falls below its rate; the genes are as `Varied` states them.
     */
    method VaryOne(c: Chromosome, v: Variations) returns (d: Chromosome)
      requires Member(c) && VariationFits(v)
      modifies kind
      ensures Member(d) && d.GeneAlleles() == VariedMember(c, v)
    {
      MemberFormed(c);
      d := MutateStep(c, v);
      d := InvertStep(d, v.inversion);
      d := IsStep(d, v.insertion);
      d := RisStep(d, v.root);
      d := GeneStep(d, v.move);
    }

    /** `mutate` at the population's rate, when that rate is non-zero. */
    method MutateStep(c: Chromosome, v: Variations) returns (d: Chromosome)
      requires Member(c) && VariationFits(v)
      modifies kind
      ensures Member(d)
      ensures d.GeneAlleles() == MutationPhase(c.GeneAlleles(), head, kind.Arity(), kind.Letters(), mutationRate, v.mutation)
    {
      MemberFormed(c);
      d := c;
      if mutationRate != 0.0 {
        d := c.Mutate(mutationRate, v.mutation);
      }
    }

    /** `invert` when the roll falls below the inversion rate. */
    method InvertStep(c: Chromosome, t: Inversion) returns (d: Chromosome)
      requires Member(c)
      requires head >= 2 ==> t.gene < count && t.start < head && t.stop < head && t.start != t.stop
      modifies kind
      ensures Member(d) && d.GeneAlleles() == InversionPhase(c.GeneAlleles(), head, kind.Arity(), t)
    {
      MemberFormed(c);
      d := c;
      if InversionRate != 0.0 && t.roll < InversionRate {
        d := c.Invert(t.gene, t.start, t.stop);
      }
    }

    /** `transpose_is` of the drawn length when the roll falls below its rate. */
    method IsStep(c: Chromosome, t: Insertion) returns (d: Chromosome)
      requires Member(c) && t.lengthPick < |IsTranspositionLength|
      requires head >= 2 ==> t.source < count && t.target < count && t.start < kind.GeneLength(head) && 1 <= t.offset < head
      modifies kind
      ensures Member(d) && d.GeneAlleles() == IsPhase(c.GeneAlleles(), head, kind.Arity(), t)
    {
      MemberFormed(c);
      d := c;
      if IsTranspositionRate != 0.0 && t.roll < IsTranspositionRate {
        d := c.TransposeIs(IsTranspositionLength[t.lengthPick], t.source, t.target, t.start, t.offset);
      }
    }

    /** `transpose_ris` of the drawn length when the roll falls below its rate; the start is drawn among the source gene's functions by `random.choice`. */
    method RisStep(c: Chromosome, t: RootInsertion) returns (d: Chromosome)
      requires Member(c) && t.lengthPick < |RisTranspositionLength| && t.source < count && t.target < count && Unit(t.u)
      modifies kind
      ensures Member(d) && d.GeneAlleles() == RisPhase(c.GeneAlleles(), head, kind.Arity(), t)
    {
      MemberFormed(c);
      d := c;
      if RisTranspositionRate != 0.0 && t.roll < RisTranspositionRate {
        var source := c.genes[t.source];
        var fs := FnPositions(source.alleles, |source.alleles|);
        var pick := if fs == [] then 0 else Choice(t.u, |fs|);
        d := c.TransposeRis(RisTranspositionLength[t.lengthPick], t.source, t.target, pick);
      }
    }

    /** `transpose_gene` when the roll falls below its rate. */
    method GeneStep(c: Chromosome, t: GeneMove) returns (d: Chromosome)
      requires Member(c) && (count >= 2 ==> 1 <= t.which < count)
      modifies kind
      ensures Member(d) && d.GeneAlleles() == MovePhase(c.GeneAlleles(), head, kind.Arity(), t)
    {
      MemberFormed(c);
      d := c;
      if GeneTranspositionRate != 0.0 && t.roll < GeneTranspositionRate {
        d := c.TransposeGene(t.which);
      }
    }

    /** Every member but the elite slot 0 goes through variation; member `i` uses `vs[i - 1]`. */
    method Vary(vs: seq<Variations>)
      requires Ready() && size >= 1 && |vs| == size - 1 && forall i :: 0 <= i < size - 1 ==> VariationFits(vs[i])
      modifies nextPop, kind
      ensures Ready() && nextPop[0] == old(nextPop[0])
      ensures forall i :: 1 <= i < size ==> nextPop[i].GeneAlleles() == VariedMember(old(nextPop[i]), vs[i - 1])
    {
      ghost var before := nextPop[..];
      var i := 1;
      while i < size
        invariant 1 <= i <= size && Ready()
        invariant forall k :: 0 <= k < size ==> Member(before[k])
        invariant forall k :: (k == 0 || i <= k < size) ==> nextPop[k] == before[k]
        invariant forall k :: 1 <= k < i ==> nextPop[k].GeneAlleles() == VariedMember(before[k], vs[k - 1])
      {
        VaryAt(i, vs[i - 1]);
        i := i + 1;
      }
    }

    /** `next[i]` is replaced by its variation. */
    method VaryAt(i: nat, v: Variations)
      requires Ready() && 1 <= i < size && VariationFits(v)
      modifies nextPop, kind
      ensures Ready() && nextPop[i].GeneAlleles() == VariedMember(old(nextPop[i]), v)
      ensures forall k :: 0 <= k < size && k != i ==> nextPop[k] == old(nextPop[k])
    {
      var d := VaryOne(nextPop[i], v);
      nextPop[i] := d;
    }

    // ------------------------------------------------------------ crossover

    /** The genes of the two children a crossover of type `op` gives two members. */
    function Children(op: Crossover, a: Chromosome, b: Chromosome, d: CrossDraw): (Genome, Genome)
      requires Member(a) && Member(b) && CrossFits(d)
    {
      a.MatchesShape(b);
      Crossed(op, a.GeneAlleles(), b.GeneAlleles(), d, kind.GeneLength(head))
    }

    /** One crossover of type `op` between two members. */
    method CrossPair(op: Crossover, a: Chromosome, b: Chromosome, d: CrossDraw) returns (c1: Chromosome, c2: Chromosome)
      requires Member(a) && Member(b) && CrossFits(d)
      modifies kind
      ensures Member(c1) && Member(c2)
      ensures SameShape(a.GeneAlleles(), b.GeneAlleles())
      ensures (c1.GeneAlleles(), c2.GeneAlleles()) == Crossed(op, a.GeneAlleles(), b.GeneAlleles(), d, kind.GeneLength(head))
    {
      a.MatchesShape(b);
      a.LenOfValid();
      match op {
        case OnePointCross =>
          c1, c2 := a.CrossoverOnePoint(b, d.gene, d.index);
        case TwoPointCross =>
          c1, c2 := a.CrossoverTwoPoint(b, d.first, d.second);
        case GeneCross =>
          c1, c2 := a.CrossoverGene(b, d.gene);
      }
    }

    /**
     * `_pairs(rate)`: with a non-zero rate and at least three members, the
     * members after the elite whose roll is below the rate, shuffled and
     * paired off in order; an odd one out is dropped.
     */
    method Pairs(rate: real, rolls: seq<real>, shuffle: seq<nat>) returns (pairs: seq<(nat, nat)>)
      requires size >= 1 && |rolls| == size - 1
      requires rate != 0.0 && size >= 3 ==> IsPermutation(shuffle, |Chosen(rolls, rate, size - 1)|)
      ensures rate == 0.0 || size < 3 ==> pairs == []
      ensures rate != 0.0 && size >= 3 ==> pairs == PairUp(Shuffled(Chosen(rolls, rate, size - 1), shuffle))
      ensures Disjoint(pairs, size) && |pairs| < size
    {
      if rate == 0.0 || size < 3 {
        return [];
      }
      var orgs := ChooseMembers(rate, rolls);
      orgs := Shuffled(orgs, shuffle);
      pairs := PairOff(orgs);
      PairsDisjoint(rolls, rate, shuffle);
    }

    /** `next[i], next[j] = next[i].crossover(next[j])`. */
    method CrossAt(op: Crossover, i: nat, j: nat, d: CrossDraw)
      requires Ready() && i < size && j < size && i != j && CrossFits(d)
      modifies nextPop, kind
      ensures Ready()
      ensures forall k :: 0 <= k < size && k != i && k != j ==> nextPop[k] == old(nextPop[k])
      ensures (nextPop[i].GeneAlleles(), nextPop[j].GeneAlleles()) == Children(op, old(nextPop[i]), old(nextPop[j]), d)
    {
      var c1, c2 := CrossPair(op, nextPop[i], nextPop[j], d);
      nextPop[i], nextPop[j] := c1, c2;
    }

    /** The members after the elite whose roll is below the rate. */
    method ChooseMembers(rate: real, rolls: seq<real>) returns (orgs: seq<nat>)
      requires size >= 1 && |rolls| == size - 1
      ensures orgs == Chosen(rolls, rate, size - 1)
    {
      orgs := [];
      var i := 1;
      while i < size
        invariant 1 <= i <= size && orgs == Chosen(rolls, rate, i - 1)
      {
        if rolls[i - 1] < rate {
          orgs := orgs + [i];
        }
        i := i + 1;
      }
    }

    /** One crossover pass of `cycle`: each pair `_pairs` gives is replaced by its two children. */
    method CrossPhase(op: Crossover, rate: real, p: Pairing) returns (pairs: seq<(nat, nat)>)
      requires Ready() && PairingFits(rate, p)
      modifies nextPop, kind
      ensures rate == 0.0 || size < 3 ==> pairs == []
      ensures rate != 0.0 && size >= 3 ==> pairs == PairUp(Shuffled(Chosen(p.rolls, rate, size - 1), p.shuffle))
      ensures Ready() && nextPop[0] == old(nextPop[0])
      ensures forall i :: 0 <= i < size && i !in Paired(pairs) ==> nextPop[i] == old(nextPop[i])
      ensures Disjoint(pairs, size) && forall k :: 0 <= k < |pairs| ==>
                (nextPop[pairs[k].0].GeneAlleles(), nextPop[pairs[k].1].GeneAlleles())
                  == Children(op, old(nextPop[pairs[k].0]), old(nextPop[pairs[k].1]), p.draws[k])
    {
      pairs := Pairs(rate, p.rolls, p.shuffle);
      CrossAll(op, pairs, p.draws);
    }

    /** In `cur`, the first `k` pairs hold the children of the members `before` held in their slots. */
    ghost predicate PairsCrossed(op: Crossover, pairs: seq<(nat, nat)>, draws: seq<CrossDraw>, before: seq<Chromosome>, cur: seq<Chromosome>, k: nat)
    {
      && |cur| == size && |before| == size && Disjoint(pairs, size) && k <= |pairs| <= |draws|
      && (forall i :: 0 <= i < size ==> Member(before[i]))
      && (forall m :: 0 <= m < |draws| ==> CrossFits(draws[m]))
      && forall m :: 0 <= m < k ==>
           (cur[pairs[m].0].GeneAlleles(), cur[pairs[m].1].GeneAlleles())
             == Children(op, before[pairs[m].0], before[pairs[m].1], draws[m])
    }

    /** In `cur`, every slot the first `k` pairs do not name still holds what `before` held. */
    ghost predicate KeptOutside(pairs: seq<(nat, nat)>, before: seq<Chromosome>, cur: seq<Chromosome>, k: nat)
      requires k <= |pairs|
    {
      |cur| == size && |before| == size
      && forall i :: 0 <= i < size && i !in Paired(pairs[..k]) ==> cur[i] == before[i]
    }

    /** The crossover loop of a pass: the k-th pair is replaced by its children, drawn by `draws[k]`. */
    method CrossAll(op: Crossover, pairs: seq<(nat, nat)>, draws: seq<CrossDraw>)
      requires Ready() && size >= 1 && Disjoint(pairs, size) && |pairs| <= |draws|
      requires forall k :: 0 <= k < |draws| ==> CrossFits(draws[k])
      modifies nextPop, kind
      ensures Ready() && nextPop[0] == old(nextPop[0])
      ensures forall i :: 0 <= i < size && i !in Paired(pairs) ==> nextPop[i] == old(nextPop[i])
      ensures forall k :: 0 <= k < |pairs| ==>
                (nextPop[pairs[k].0].GeneAlleles(), nextPop[pairs[k].1].GeneAlleles())
                  == Children(op, old(nextPop[pairs[k].0]), old(nextPop[pairs[k].1]), draws[k])
    {
      ghost var before := nextPop[..];
      assert PairsCrossed(op, pairs, draws, before, nextPop[..], 0);
      var k := 0;
      while k < |pairs|
        invariant k <= |pairs| && Ready()
        invariant PairsCrossed(op, pairs, draws, before, nextPop[..], k) && KeptOutside(pairs, before, nextPop[..], k)
      {
        CrossNext(op, pairs, draws, k, before);
        k := k + 1;
      }
      CrossedAll(op, pairs, draws, before, nextPop[..]);
    }

    /** Once every pair is crossed, the whole pass is as `CrossAll` states it. */
    lemma CrossedAll(op: Crossover, pairs: seq<(nat, nat)>, draws: seq<CrossDraw>, before: seq<Chromosome>, cur: seq<Chromosome>)
      requires size >= 1 && PairsCrossed(op, pairs, draws, before, cur, |pairs|) && KeptOutside(pairs, before, cur, |pairs|)
      ensures cur[0] == before[0]
      ensures forall i :: 0 <= i < size && i !in Paired(pairs) ==> cur[i] == before[i]
      ensures forall k :: 0 <= k < |pairs| ==>
                (cur[pairs[k].0].GeneAlleles(), cur[pairs[k].1].GeneAlleles())
                  == Children(op, before[pairs[k].0], before[pairs[k].1], draws[k])
    {
      assert pairs[..|pairs|] == pairs;
      NotPaired(pairs, |pairs|, 0);
    }

    /** One more crossed pair: `after` differs from `mid` at most in pair `k`'s slots, which hold its children. */
    lemma CrossedStep(op: Crossover, pairs: seq<(nat, nat)>, draws: seq<CrossDraw>, before: seq<Chromosome>,
                      mid: seq<Chromosome>, after: seq<Chromosome>, k: nat)
      requires k < |pairs| && PairsCrossed(op, pairs, draws, before, mid, k) && KeptOutside(pairs, before, mid, k)
      requires |after| == size && pairs[k].0 < size && pairs[k].1 < size
      requires Member(mid[pairs[k].0]) && Member(mid[pairs[k].1])
      requires forall x :: 0 <= x < size && x != pairs[k].0 && x != pairs[k].1 ==> after[x] == mid[x]
      requires (after[pairs[k].0].GeneAlleles(), after[pairs[k].1].GeneAlleles())
                 == Children(op, mid[pairs[k].0], mid[pairs[k].1], draws[k])
      ensures PairsCrossed(op, pairs, draws, before, after, k + 1) && KeptOutside(pairs, before, after, k + 1)
    {
      PairAt(pairs, size, k);
      NotPaired(pairs, k, pairs[k].0);
      NotPaired(pairs, k, pairs[k].1);
      KeptStep(pairs, before, mid, after, k);
      forall m | 0 <= m < k
        ensures after[pairs[m].0] == mid[pairs[m].0] && after[pairs[m].1] == mid[pairs[m].1]
      {
        PairAt(pairs, size, m);
        PairApart(pairs, size, m, k);
      }
    }

    /** The k-th pair of a pass: its slots still hold the members of before the pass, and no earlier pair's slot changes. */
    method CrossNext(op: Crossover, pairs: seq<(nat, nat)>, draws: seq<CrossDraw>, k: nat, ghost before: seq<Chromosome>)
      requires Ready() && k < |pairs|
      requires PairsCrossed(op, pairs, draws, before, nextPop[..], k) && KeptOutside(pairs, before, nextPop[..], k)
      modifies nextPop, kind
      ensures Ready()
      ensures PairsCrossed(op, pairs, draws, before, nextPop[..], k + 1) && KeptOutside(pairs, before, nextPop[..], k + 1)
    {
      var (i, j) := pairs[k];
      PairAt(pairs, size, k);
      ghost var mid := nextPop[..];
      CrossAt(op, i, j, draws[k]);
      CrossedStep(op, pairs, draws, before, mid, nextPop[..], k);
    }

    // ------------------------------------------------------------ generations

    /**
     * Everything `cycle` does before the swap: elitism and selection into
     * the next generation's buffer, then variation and the three crossover
     * passes on it. The current generation is left as it was.
     */
    method Breed(d: CycleDraws)
      requires Valid() && CycleFits(d)
      modifies nextPop, scaled, kind
      ensures Valid() && Ready()
      ensures old(mean) > 0.0 ==> nextPop[0] == old(BestMember())
      ensures mean <= 0.0 ==> nextPop[0] == population[d.choices[0]]
    {
      var b := Best();
      Select(b, d.spins, d.choices);
      Vary(d.variations);
      var one := CrossPhase(OnePointCross, CrossoverOnePointRate, d.onePoint);
      var two := CrossPhase(TwoPointCross, CrossoverTwoPointRate, d.twoPoint);
      var gene := CrossPhase(GeneCross, CrossoverGeneRate, d.gene);
    }

    /**
     * `cycle`: breed the next generation, then swap the two buffers, count
     * the generation and recompute the mean fitness.
     */
    method Cycle(d: CycleDraws)
      requires Valid() && CycleFits(d)
      modifies this, nextPop, scaled, kind
      ensures Valid() && age == old(age) + 1
      ensures population == old(nextPop) && nextPop == old(population) && nextPop[..] == old(population[..])
      ensures old(mean) > 0.0 ==> population[0] == old(BestMember())
      ensures old(mean) <= 0.0 ==> population[0] == old(population[d.choices[0]])
    {
      Breed(d);
      population, nextPop := nextPop, population;
      age := age + 1;
      mean := Mean(Scores(population[..]));
    }

    /**
     * One pass of `solve`'s loop: stop when the best member is solved,
     * otherwise cycle once.
     */
    method SolveStep(d: CycleDraws) returns (stop: bool)
      requires Valid() && CycleFits(d)
      modifies this, nextPop, scaled, kind
      ensures Valid() && stop == old(BestSolved())
      ensures stop ==> age == old(age) && population == old(population) && nextPop == old(nextPop)
      ensures stop ==> population[..] == old(population[..]) && nextPop[..] == old(nextPop[..])
      ensures !stop ==> age == old(age) + 1 && population == old(nextPop) && nextPop == old(population)
      ensures !stop ==> nextPop[..] == old(population[..])
      ensures !stop && old(mean) > 0.0 ==> population[0] == old(BestMember())
      ensures !stop && old(mean) <= 0.0 ==> population[0] == old(population[d.choices[0]])
    {
      var b := Best();
      stop := b.Solved();
      if !stop {
        Cycle(d);
      }
    }

    /**
     * `solve(generations)`: cycle until the generations run out or the best
     * member is solved, which is checked before each cycle.
     */
    method Solve(generations: nat, ds: seq<CycleDraws>)
      requires Valid() && |ds| == generations && forall g :: 0 <= g < generations ==> CycleFits(ds[g])
      modifies this, population, nextPop, scaled, kind
      ensures Valid() && old(age) <= age <= old(age) + generations
      ensures age < old(age) + generations ==> BestSolved()
      ensures old(BestSolved()) ==> age == old(age) && population == old(population)
      ensures old(BestSolved()) ==> population[..] == old(population[..])
      ensures {population, nextPop} == {old(population), old(nextPop)}
    {
      var g := 0;
      while g < generations
        invariant 0 <= g <= generations && Valid() && age == old(age) + g
        invariant {population, nextPop} == {old(population), old(nextPop)}
        invariant old(BestSolved()) ==> g == 0 && population == old(population) && population[..] == old(population[..])
      {
        assert CycleFits(ds[g]);
        var stop := SolveStep(ds[g]);
        if stop {
          break;
        }
        g := g + 1;
      }
    }

    /** `solved` of the best member. */
    function BestSolved(): bool
      reads this, population
      requires Valid()
    {
      BestMember().Solved()
    }
  }
}
