/**
 * Chromosomes: a list of Karva genes sharing one head length and one
 * linker, with an identity number drawn from a counter kept on the
 * chromosome type. A chromosome is never changed; the variation operators
 * build children through `Gene.Derive` and return the chromosome itself
 * when the gene list they end with is the one it already has.
 */
module Chromosomes {
  import opened Wrappers
  import opened Symbols
  import opened Coding
  import opened Linkers
  import opened Karva
  import opened Variation
  import Util

  /** The largest arity among the functions, 0 without any (the metaclass's `arity`). */
  function MaxArity(fs: seq<Op>): (m: nat)
    ensures forall j :: 0 <= j < |fs| ==> Arity(fs[j]) <= m
    ensures fs == [] ==> m == 0
    ensures fs != [] ==> exists j :: 0 <= j < |fs| && Arity(fs[j]) == m
  {
    if fs == [] then 0
    else
      var rest := MaxArity(fs[1..]);
      if Arity(fs[0]) >= rest then Arity(fs[0]) else rest
  }

  /**
   * A chromosome type: its functions and terminals, its `_fitness` and
   * `_solved` overrides (absent when not overridden), and the `__next_id`
   * counter the type keeps for its instances.
   */
  class Kind {
    const functions: seq<Op>
    const terminals: seq<Allele>
    const fitness: Option<Genome -> real>
    const solved: Option<Genome -> bool>
    var nextId: nat

    constructor (functions: seq<Op>, terminals: seq<Allele>, fitness: Option<Genome -> real>, solved: Option<Genome -> bool>)
      ensures this.functions == functions && this.terminals == terminals && nextId == 1
    {
      this.functions := functions;
      this.terminals := terminals;
      this.fitness := fitness;
      this.solved := solved;
      nextId := 1;
    }

    /** `symbols`: the functions, then the terminals. */
    function Symbols(): (r: seq<Allele>)
      ensures |r| == |functions| + |terminals|
      ensures forall j :: 0 <= j < |functions| ==> r[j] == Fn(functions[j])
      ensures forall j :: 0 <= j < |terminals| ==> r[|functions| + j] == terminals[j]
    {
      seq(|functions|, j requires 0 <= j < |functions| => Fn(functions[j])) + terminals
    }

    function Arity(): nat
    {
      MaxArity(functions)
    }

    function Letters(): Alphabet
    {
      Alphabet(Symbols(), terminals)
    }

    /** Terminals are attribute names and constants, never functions. */
    predicate Ok()
    {
      forall k :: 0 <= k < |terminals| ==> !terminals[k].Fn?
    }

    /** The head may hold any symbol and the tail only terminals, within the type's arity. */
    lemma LettersFit()
      requires Ok()
      ensures Fits(Letters(), Arity())
    {
      var s := Symbols();
      forall k | 0 <= k < |s|
        ensures AlleleArity(s[k]) <= Arity()
      {
        if k >= |functions| {
          assert s[k] == terminals[k - |functions|];
        }
      }
    }

    /** Head plus tail: `head * (arity - 1) + 1` tail alleles, none when that is negative. */
    function GeneLength(head: nat): (n: nat)
      ensures n >= 1
    {
      head + TailLength(head, Arity())
    }

    /** The number of tail loci `generate` draws for any head: `head * (arity - 1) + 1`, none when that is not positive. */
    function TailDraws(head: int): (n: nat)
      ensures head >= 0 ==> n == TailLength(head, Arity())
    {
      if head * (Arity() - 1) + 1 <= 0 then 0 else head * (Arity() - 1) + 1
    }

    /** Some locus of a gene draws with `random.choice` from an empty table: the symbols for a head locus, the terminals for a tail locus. */
    predicate DrawsEmpty(head: int)
    {
      (head > 0 && |Symbols()| == 0) || (TailDraws(head) > 0 && |terminals| == 0)
    }

    /**
     * The first gene `generate` builds raises `IndexError`: either a draw
     * from an empty table, or a negative head whose tail is empty, so that
     * the gene has no alleles and its coding scan fails.
     */
    predicate GeneFails(head: int)
    {
      DrawsEmpty(head) || (head < 0 && TailDraws(head) == 0)
    }

    /**
     * A type without terminals cannot generate a gene: some draw meets an
     * empty table or the gene is left without alleles. The one exception is
     * a head of one locus or more over functions that all take no argument,
     * whose tail is empty.
     */
    lemma NoTerminalsFail(head: int)
      requires |terminals| == 0
      requires !(functions != [] && Arity() == 0 && head >= 1)
      ensures GeneFails(head)
    {
      if head >= 0 && Arity() >= 1 {
        assert head * (Arity() - 1) >= 0;
      } else if head < 0 && Arity() >= 1 {
        assert TailDraws(head) == 0 || DrawsEmpty(head);
      }
    }

    /** Choices for a natural head exist only when no locus draws from an empty table. */
    lemma PicksDrawable(head: nat, pick: seq<nat>)
      requires Picks(head, pick)
      ensures !GeneFails(head)
    {
      if head > 0 {
        assert pick[0] < |Symbols()|;
      }
      if TailDraws(head) > 0 {
        assert pick[head] < |terminals|;
      }
    }

    /** The choices `generate` makes for one gene: a symbol for each head locus, a terminal for each tail locus. */
    predicate Picks(head: nat, pick: seq<nat>)
    {
      && |pick| == GeneLength(head)
      && forall k :: 0 <= k < |pick| ==> pick[k] < if k < head then |Symbols()| else |terminals|
    }

    /** The alleles those choices give. */
    function Drawn(head: nat, pick: seq<nat>): (s: seq<Allele>)
      requires Picks(head, pick)
      ensures |s| == |pick|
      ensures forall k :: 0 <= k < |s| ==> s[k] == if k < head then Symbols()[pick[k]] else terminals[pick[k]]
    {
      seq(|pick|, k requires 0 <= k < |pick| => if k < head then Symbols()[pick[k]] else terminals[pick[k]])
    }

    /** A generated gene has the type's gene shape. */
    lemma DrawnShaped(head: nat, pick: seq<nat>)
      requires Ok() && Picks(head, pick)
      ensures Shaped(Drawn(head, pick), head, Arity())
    {
      LettersFit();
      var s := Drawn(head, pick);
      forall k | 0 <= k < |s|
        ensures AlleleArity(s[k]) <= Arity() && (k >= head ==> !s[k].Fn?)
      {
        if k < head {
          assert s[k] == Letters().symbols[pick[k]];
        } else {
          assert s[k] == Letters().terminals[pick[k]];
        }
      }
    }
  }

  /** The number of alleles of all genes together. */
  function TotalLength(p: Genome): nat
  {
    if p == [] then 0 else |p[0]| + TotalLength(p[1..])
  }

  lemma {:induction false} UniformLength(p: Genome, width: nat)
    requires forall g :: 0 <= g < |p| ==> |p[g]| == width
    ensures TotalLength(p) == |p| * width
    decreases |p|
  {
    if p != [] {
      UniformLength(p[1..], width);
    }
  }

  /** `__iter__`: the alleles gene after gene. */
  function Flatten(p: Genome): (r: seq<Allele>)
    ensures |r| == TotalLength(p)
  {
    if p == [] then [] else p[0] + Flatten(p[1..])
  }

  /** With genes of one width, locus `g * width + a` of the flattened list is allele `a` of gene `g`. */
  lemma {:induction false} FlattenAt(p: Genome, width: nat, g: nat, a: nat)
    requires forall h :: 0 <= h < |p| ==> |p[h]| == width
    requires g < |p| && a < width
    ensures g * width + a < |Flatten(p)| && Flatten(p)[g * width + a] == p[g][a]
    decreases g
  {
    UniformLength(p, width);
    if g > 0 {
      FlattenAt(p[1..], width, g - 1, a);
      assert g * width + a == width + ((g - 1) * width + a);
    }
  }

  /** `__repr__`: the genes' representations joined. */
  function RenderGenome(p: Genome): string
  {
    if p == [] then "" else Render(p[0]) + RenderGenome(p[1..])
  }

  /** The library's multigenic test: genes `abc` and `def` print as `abcdef`. */
  lemma RenderGenomeExample(x: seq<Allele>, y: seq<Allele>, p: Genome)
    requires x == [Attr("a"), Attr("b"), Attr("c")] && y == [Attr("d"), Attr("e"), Attr("f")] && p == [x, y]
    ensures RenderGenome(p) == "abcdef"
  {
    assert Render(x[2..]) == "c";
    assert Render(x[1..]) == "bc";
    assert Render(x) == "abc";
    assert Render(y[2..]) == "f";
    assert Render(y[1..]) == "ef";
    assert Render(y) == "def";
    assert p[1..] == [y] && p[1..][1..] == [];
    assert RenderGenome([y]) == "def";
    assert RenderGenome(p) == "abc" + "def";
  }

  function Max(a: int, b: int): int
  {
    if a >= b then a else b
  }

  /** `cmp` on fitness values. */
  function Compare(a: real, b: real): int
  {
    if a < b then -1 else if a > b then 1 else 0
  }

  /**
   * The values of the genes on `env`, in order (the argument list of the
   * linker); a gene whose coding region reads an attribute `env` lacks
   * raises an `AttributeError`, and the first such gene decides which.
   */
  function GeneValues(gs: seq<Gene>, env: map<string, int>): (r: Result<seq<int>>)
    requires forall g :: 0 <= g < |gs| ==> gs[g].WellFormed()
    ensures r.Success? <==> forall g :: 0 <= g < |gs| ==> AttrsBound(gs[g].Expressed(), gs[g].coding, env)
    ensures r.Success? ==> |r.value| == |gs| && forall g :: 0 <= g < |gs| ==> r.value[g] == gs[g].Value(env)
    ensures r.Failure? ==> r.error.AttributeError?
  {
    if gs == [] then Success([])
    else
      gs[0].MissingMeansUnbound(env);
      var m := MissingAttr(gs[0].terminals, env);
      if m.Some? then Failure(AttributeError(m.value))
      else
        match GeneValues(gs[1..], env)
        case Failure(e) => Failure(e)
        case Success(vs) => Success([gs[0].Value(env)] + vs)
  }

  /** The error names the first missing attribute of the first gene that lacks one. */
  lemma {:induction false} GeneValuesFailure(gs: seq<Gene>, env: map<string, int>, g: nat)
    requires forall h :: 0 <= h < |gs| ==> gs[h].WellFormed()
    requires g < |gs| && !AttrsBound(gs[g].Expressed(), gs[g].coding, env)
    requires forall j :: 0 <= j < g ==> AttrsBound(gs[j].Expressed(), gs[j].coding, env)
    ensures MissingAttr(gs[g].terminals, env).Some?
    ensures GeneValues(gs, env) == Failure(AttributeError(MissingAttr(gs[g].terminals, env).value))
    decreases g
  {
    gs[g].MissingMeansUnbound(env);
    gs[0].MissingMeansUnbound(env);
    if g > 0 {
      GeneValuesFailure(gs[1..], env, g - 1);
    }
  }

  class Chromosome {
    const genes: seq<Gene>
    const head: int
    const linker: Linker
    const kind: Kind
    const id: nat
    /** The `cache` slot of `_fitness` (the type's metaclass caches it). */
    const fitnessCache: Util.Cache<real>
    /** The `cache` slot of `__repr__`. */
    const reprCache: Util.Cache<string>

    constructor Build(genes: seq<Gene>, head: int, linker: Linker, kind: Kind, id: nat)
      ensures this.genes == genes && this.head == head && this.linker == linker
      ensures this.kind == kind && this.id == id
      ensures fresh(fitnessCache) && fresh(reprCache) && Newborn()
    {
      this.genes := genes;
      this.head := head;
      this.linker := linker;
      this.kind := kind;
      this.id := id;
      fitnessCache := new Util.Cache<real>();
      reprCache := new Util.Cache<string>();
    }

    /** The alleles of each gene. */
    function GeneAlleles(): (p: Genome)
      ensures |p| == |genes| && forall g :: 0 <= g < |genes| ==> p[g] == genes[g].alleles
    {
      AllelesOf(genes)
    }

    /** Nothing cached yet. */
    ghost predicate Newborn()
      reads fitnessCache, reprCache
    {
      && fitnessCache.Valid() && fitnessCache.stored == None
      && reprCache.Valid() && reprCache.stored == None
    }

    /** What the caches hold is what their methods compute. */
    ghost predicate CachesOk()
      reads fitnessCache, reprCache
    {
      && fitnessCache.Valid() && reprCache.Valid()
      && (fitnessCache.stored.Some? ==> FitnessOf() == Success(fitnessCache.stored.value))
      && (reprCache.stored.Some? ==> reprCache.stored.value == RenderGenome(GeneAlleles()))
    }

    /** A chromosome as `generate` and the variation operators make it: genes of the type's shape. */
    predicate Valid()
    {
      && head >= 0 && |genes| >= 1 && kind.Ok()
      && forall g :: 0 <= g < |genes| ==> genes[g].WellFormed() && Shaped(genes[g].alleles, head, kind.Arity())
    }

    /** A child of this chromosome's line: same head, linker and type. */
    predicate Sibling(c: Chromosome)
    {
      c.head == head && c.linker == linker && c.kind == kind
    }

    /** A crossover partner of the same type and shape. */
    predicate Matches(other: Chromosome)
    {
      other.kind == kind && other.head == head && |other.genes| == |genes|
    }

    /**
     * The constructor: a negative head or an empty gene list is a
     * `ValueError`; otherwise the chromosome takes the type's next id and
     * the counter moves on.
     */
    static method Create(genes: seq<Gene>, head: int, linker: Linker, kind: Kind) returns (r: Result<Chromosome>)
      modifies kind
      ensures head < 0 ==> r == Failure(ValueError("Head length must be at least 0"))
      ensures head >= 0 && genes == [] ==> r == Failure(ValueError("Must have at least 1 gene"))
      ensures r.Failure? ==> kind.nextId == old(kind.nextId)
      ensures head >= 0 && genes != [] ==>
                && r.Success? && fresh(r.value) && fresh(r.value.fitnessCache) && fresh(r.value.reprCache)
                && r.value.Newborn() && r.value.genes == genes && r.value.head == head
                && r.value.linker == linker && r.value.kind == kind
                && r.value.id == old(kind.nextId) && kind.nextId == old(kind.nextId) + 1
    {
      if head < 0 {
        return Failure(ValueError("Head length must be at least 0"));
      }
      if genes == [] {
        return Failure(ValueError("Must have at least 1 gene"));
      }
      var c := new Chromosome.Build(genes, head, linker, kind, kind.nextId);
      kind.nextId := kind.nextId + 1;
      r := Success(c);
    }

    /** `_child`: this chromosome when the gene list is the same list of genes, else a new one of the same line. */
    method Child(newGenes: seq<Gene>) returns (c: Chromosome)
      requires head >= 0 && newGenes != []
      modifies kind
      ensures newGenes == genes ==> c == this && kind.nextId == old(kind.nextId)
      ensures newGenes != genes ==>
                && fresh(c) && c.Newborn() && c.genes == newGenes && Sibling(c)
                && c.id == old(kind.nextId) && kind.nextId == old(kind.nextId) + 1
    {
      if newGenes != genes {
        var r := Create(newGenes, head, linker, kind);
        c := r.value;
      } else {
        c := this;
      }
    }

    /** `__len__`: all alleles of all genes. */
    function Len(): nat
    {
      TotalLength(GeneAlleles())
    }

    /** The library's length test: a generated chromosome has `genes * (head + tail)` alleles. */
    lemma LenOfValid()
      requires Valid()
      ensures Len() == |genes| * kind.GeneLength(head)
    {
      UniformLength(GeneAlleles(), kind.GeneLength(head));
    }

    /** `__iter__`: the alleles gene after gene. */
    function Iter(): (r: seq<Allele>)
      ensures |r| == Len()
    {
      Flatten(GeneAlleles())
    }

    /** `__getitem__` for a non-negative index. */
    function GetItem(i: nat): (r: Result<Allele>)
      requires |genes| > 0
      ensures r == ItemAt(GeneAlleles(), i)
    {
      var g, a := i % |genes|, i / |genes|;
      if a < |genes[g].alleles| then Success(genes[g].alleles[a]) else Failure(IndexError)
    }

    /** Indexing a chromosome reaches every allele of every gene. */
    lemma GetItemReaches(g: nat, a: nat)
      requires g < |genes| && a < |genes[g].alleles|
      ensures GetItem(a * |genes| + g) == Success(genes[g].alleles[a])
    {
      ItemAtCovers(GeneAlleles(), g, a);
    }

    /** `__call__`: the linker applied to the genes' values; a gene lacking an attribute raises. */
    function Call(env: map<string, int>): (r: Result<Output>)
      requires forall g :: 0 <= g < |genes| ==> genes[g].WellFormed()
      ensures r.Success? <==> forall g :: 0 <= g < |genes| ==> AttrsBound(genes[g].Expressed(), genes[g].coding, env)
      ensures r.Success? ==> GeneValues(genes, env).Success? && r.value == Link(linker, GeneValues(genes, env).value)
      ensures r.Failure? ==> r.error.AttributeError?
    {
      match GeneValues(genes, env)
      case Failure(e) => Failure(e)
      case Success(vs) => Success(Link(linker, vs))
    }

    /** The `_fitness` override on this chromosome's alleles; without one, `NotImplementedError`. */
    function FitnessOf(): (r: Result<real>)
      ensures kind.fitness.None? <==> r == Failure(NotImplementedError)
    {
      match kind.fitness
      case None => Failure(NotImplementedError)
      case Some(f) => Success(f(GeneAlleles()))
    }

    /** `fitness`: computed once and then answered from the cache; nothing is stored when `_fitness` raises. */
    method Fitness() returns (r: Result<real>)
      requires CachesOk()
      modifies fitnessCache
      ensures CachesOk() && r == FitnessOf()
      ensures r.Success? ==> fitnessCache.stored == Some(r.value)
      ensures r.Failure? ==> fitnessCache.stored == old(fitnessCache.stored)
    {
      match kind.fitness {
        case None =>
          r := Failure(NotImplementedError);
        case Some(f) =>
          var p := GeneAlleles();
          var v := fitnessCache.Get(() => f(p));
          r := Success(v);
      }
    }

    /** `solved`: the `_solved` override, `False` when there is none. */
    function Solved(): (b: bool)
      ensures kind.solved.None? ==> !b
    {
      match kind.solved
      case None => false
      case Some(s) => s(GeneAlleles())
    }

    /** `__repr__`, cached. */
    method Repr() returns (text: string)
      requires CachesOk()
      modifies reprCache
      ensures CachesOk() && text == RenderGenome(GeneAlleles()) && reprCache.stored == Some(text)
    {
      var p := GeneAlleles();
      text := reprCache.Get(() => RenderGenome(p));
    }

    /** `__cmp__`: 0 for the chromosome itself, else `cmp` of the two fitness values. */
    function Cmp(other: Chromosome): (r: Result<int>)
      ensures this == other ==> r == Success(0)
      ensures this != other ==> (r.Success? <==> FitnessOf().Success? && other.FitnessOf().Success?)
      ensures this != other && r.Success? ==>
                && (r.value < 0 <==> FitnessOf().value < other.FitnessOf().value)
                && (r.value == 0 <==> FitnessOf().value == other.FitnessOf().value)
                && (r.value > 0 <==> FitnessOf().value > other.FitnessOf().value)
      ensures r.Failure? ==> r.error == NotImplementedError
    {
      if this == other then Success(0)
      else
        match FitnessOf()
        case Failure(e) => Failure(e)
        case Success(a) =>
          match other.FitnessOf()
          case Failure(e) => Failure(e)
          case Success(b) => Success(Compare(a, b))
    }

    // ------------------------------------------------------------ variation

    /**
     * `mutate`: each locus below the rate takes its drawn allele (a terminal
     * in the tail, any symbol in the head); genes with an actual change are
     * derived. Nothing changed gives this chromosome back.
     */
    method Mutate(rate: real, ds: seq<seq<Draw>>) returns (c: Chromosome)
      requires Valid() && MutationDraws(GeneAlleles(), head, kind.Letters(), ds)
      modifies kind
      ensures c.Valid() && c.GeneAlleles() == MutateGenome(GeneAlleles(), head, kind.Letters(), rate, ds)
      ensures c == this <==> c.GeneAlleles() == GeneAlleles()
      ensures c != this ==> fresh(c) && c.Newborn() && Sibling(c) && c.id == old(kind.nextId)
    {
      var al := kind.Letters();
      kind.LettersFit();
      var p := GeneAlleles();
      var newGenes := MutateGenes(genes, head, kind.Arity(), al, rate, ds);
      SameAlleles(newGenes, genes);
      c := Child(newGenes);
    }

    /**
     * `invert`: with a head of at least two, reverse the alleles between two
     * distinct head positions of one gene.
     */
    method Invert(gi: nat, start: nat, stop: nat) returns (c: Chromosome)
      requires Valid()
      requires head >= 2 ==> gi < |genes| && start < head && stop < head && start != stop
      modifies kind
      ensures head < 2 ==> c == this
      ensures head >= 2 ==>
                c.GeneAlleles() == GeneAlleles()[gi := Inverted(genes[gi].alleles, Min(start, stop), Max(start, stop))]
      ensures c.Valid()
      ensures c == this <==> c.GeneAlleles() == GeneAlleles()
      ensures c != this ==> fresh(c) && c.Newborn() && Sibling(c)
    {
      if head < 2 {
        return this;
      }
      var a, b := start, stop;
      if a > b {
        a, b := b, a;
      }
      var d := InvertGene(genes[gi], head, kind.Arity(), a, b);
      c := ReplaceGene(gi, d);
    }

    /**
     * `transpose_is`: with a head of at least two, copy the sequence of
     * `length` alleles at `start` of gene `src` into the head of gene `tgt`
     * at `offset` (never the root).
     */
    method TransposeIs(length: nat, src: nat, tgt: nat, start: nat, offset: nat) returns (c: Chromosome)
      requires Valid()
      requires head >= 2 ==> src < |genes| && tgt < |genes| && start < |genes[src].alleles| && 1 <= offset < head
      modifies kind
      ensures head < 2 ==> c == this
      ensures head >= 2 ==>
                c.GeneAlleles() == GeneAlleles()[tgt := IsTransposed(genes[src].alleles, genes[tgt].alleles, head, length, start, offset)]
      ensures c.Valid()
      ensures c == this <==> c.GeneAlleles() == GeneAlleles()
      ensures c != this ==> fresh(c) && c.Newborn() && Sibling(c)
    {
      if head < 2 {
        return this;
      }
      var d := IsGene(genes[src], genes[tgt], head, kind.Arity(), length, start, offset);
      c := ReplaceGene(tgt, d);
    }

    /**
     * `transpose_ris`: copy the sequence of `length` alleles starting at a
     * function of gene `src` to the root of gene `tgt`; `pick` chooses among
     * the source's functions. A source gene without functions changes
     * nothing.
     */
    method TransposeRis(length: nat, src: nat, tgt: nat, pick: nat) returns (c: Chromosome)
      requires Valid() && src < |genes| && tgt < |genes|
      requires var fs := FnPositions(genes[src].alleles, |genes[src].alleles|); fs != [] ==> pick < |fs|
      modifies kind
      ensures var fs := FnPositions(genes[src].alleles, |genes[src].alleles|);
              && (fs == [] ==> c == this)
              && (fs != [] ==>
                    && fs[pick] < head
                    && c.GeneAlleles() == GeneAlleles()[tgt := RisTransposed(genes[src].alleles, genes[tgt].alleles, head, length, fs[pick])])
      ensures c.Valid()
      ensures c == this <==> c.GeneAlleles() == GeneAlleles()
      ensures c != this ==> fresh(c) && c.Newborn() && Sibling(c)
    {
      var source := genes[src];
      var fs := FnPositions(source.alleles, |source.alleles|);
      if fs == [] {
        return this;
      }
      var start := fs[pick];
      var d := RisGene(source, genes[tgt], head, kind.Arity(), length, start);
      c := ReplaceGene(tgt, d);
    }

    /** `transpose_gene`: with two genes or more, gene `which` (not the first) and the first change places. */
    method TransposeGene(which: nat) returns (c: Chromosome)
      requires Valid()
      requires |genes| >= 2 ==> 1 <= which < |genes|
      modifies kind
      ensures |genes| < 2 ==> c == this
      ensures |genes| >= 2 ==> c.GeneAlleles() == SwapGenes(GeneAlleles(), which)
      ensures |genes| >= 2 ==> (c == this <==> genes[0] == genes[which])
      ensures c.Valid()
      ensures c != this ==> fresh(c) && c.Newborn() && Sibling(c)
    {
      if |genes| < 2 {
        return this;
      }
      var newGenes := genes[0 := genes[which]][which := genes[0]];
      c := Child(newGenes);
      assert c.GeneAlleles() == SwapGenes(GeneAlleles(), which);
    }

    /** Two chromosomes of one type and shape: their genomes have the same shape, genes of the type's gene length. */
    lemma MatchesShape(other: Chromosome)
      requires Valid() && other.Valid() && Matches(other)
      ensures SameShape(GeneAlleles(), other.GeneAlleles())
      ensures forall g :: 0 <= g < |genes| ==> |genes[g].alleles| == kind.GeneLength(head)
    {
    }

    /**
     * `crossover_one_point`: the alleles of gene `gi` from `index` on are
     * exchanged between the two parents.
     */
    method CrossoverOnePoint(other: Chromosome, gi: nat, index: nat) returns (c1: Chromosome, c2: Chromosome)
      requires Valid() && other.Valid() && Matches(other) && gi < |genes| && index < |genes[gi].alleles|
      modifies kind
      ensures SameShape(GeneAlleles(), other.GeneAlleles())
      ensures c1.GeneAlleles() == Exchange(GeneAlleles(), other.GeneAlleles(), Suffix(gi, index))
      ensures c2.GeneAlleles() == Exchange(other.GeneAlleles(), GeneAlleles(), Suffix(gi, index))
      ensures c1.Valid() && c2.Valid()
      ensures c1 == this <==> c1.GeneAlleles() == GeneAlleles()
      ensures c2 == other <==> c2.GeneAlleles() == other.GeneAlleles()
      ensures c1 != this ==> fresh(c1) && c1.Newborn() && Sibling(c1)
      ensures c2 != other ==> fresh(c2) && c2.Newborn() && other.Sibling(c2)
    {
      MatchesShape(other);
      c1 := OnePointChild(other, gi, index);
      c2 := other.OnePointChild(this, gi, index);
    }

    /** One child of `crossover_one_point`: this parent with the alleles of gene `gi` from `index` on taken from `donor`. */
    method OnePointChild(donor: Chromosome, gi: nat, index: nat) returns (c: Chromosome)
      requires Valid() && donor.Valid() && Matches(donor) && gi < |genes| && index < |genes[gi].alleles|
      modifies kind
      ensures SameShape(GeneAlleles(), donor.GeneAlleles())
      ensures c.GeneAlleles() == Exchange(GeneAlleles(), donor.GeneAlleles(), Suffix(gi, index))
      ensures c.Valid()
      ensures c == this <==> c.GeneAlleles() == GeneAlleles()
      ensures c != this ==> fresh(c) && c.Newborn() && Sibling(c)
    {
      MatchesShape(donor);
      ExchangeSuffix(GeneAlleles(), donor.GeneAlleles(), gi, index);
      var u := TakeSuffix(genes[gi], donor.genes[gi], index, head, kind.Arity());
      c := ReplaceGene(gi, u);
    }

    /**
     * `crossover_two_point`: with at least two loci, two distinct loci in
     * gene-major order cut both parents, and the region between them (see
     * `TwoPointRegion`) is exchanged.
     */
    method CrossoverTwoPoint(other: Chromosome, i1: nat, i2: nat) returns (c1: Chromosome, c2: Chromosome)
      requires Valid() && other.Valid() && Matches(other)
      requires Len() >= 2 ==> i1 < Len() && i2 < Len() && i1 != i2
      modifies kind
      ensures SameShape(GeneAlleles(), other.GeneAlleles())
      ensures Len() < 2 ==> c1 == this && c2 == other
      ensures Len() >= 2 ==>
                var r := TwoPointRegion(Min(i1, i2), Max(i1, i2), kind.GeneLength(head));
                && c1.GeneAlleles() == Exchange(GeneAlleles(), other.GeneAlleles(), r)
                && c2.GeneAlleles() == Exchange(other.GeneAlleles(), GeneAlleles(), r)
      ensures c1.Valid() && c2.Valid()
      ensures c1 == this <==> c1.genes == genes
      ensures c2 == other <==> c2.genes == other.genes
      ensures c1.GeneAlleles() != GeneAlleles() ==> c1 != this
      ensures c2.GeneAlleles() != other.GeneAlleles() ==> c2 != other
      ensures c1 != this ==> fresh(c1) && c1.Newborn() && Sibling(c1)
      ensures c2 != other ==> fresh(c2) && c2.Newborn() && other.Sibling(c2)
    {
      MatchesShape(other);
      if Len() < 2 {
        return this, other;
      }
      var lo, hi := i1, i2;
      if lo > hi {
        lo, hi := hi, lo;
      }
      LenOfValid();
      var genes1, genes2 := TwoPointGenes(genes, other.genes, lo, hi, head, kind.Arity());
      c1 := Child(genes1);
      c2 := other.Child(genes2);
    }

    /** `crossover_gene`: gene `gi` is exchanged whole. */
    method CrossoverGene(other: Chromosome, gi: nat) returns (c1: Chromosome, c2: Chromosome)
      requires Valid() && other.Valid() && Matches(other) && gi < |genes|
      modifies kind
      ensures SameShape(GeneAlleles(), other.GeneAlleles())
      ensures c1.GeneAlleles() == Exchange(GeneAlleles(), other.GeneAlleles(), WholeGene(gi))
      ensures c2.GeneAlleles() == Exchange(other.GeneAlleles(), GeneAlleles(), WholeGene(gi))
      ensures c1.Valid() && c2.Valid()
      ensures c1 == this <==> genes[gi] == other.genes[gi]
      ensures c2 == other <==> genes[gi] == other.genes[gi]
      ensures c1 != this ==> fresh(c1) && c1.Newborn() && Sibling(c1)
      ensures c2 != other ==> fresh(c2) && c2.Newborn() && other.Sibling(c2)
    {
      MatchesShape(other);
      var genes1, genes2 := genes[gi := other.genes[gi]], other.genes[gi := genes[gi]];
      assert genes1 == genes <==> genes[gi] == other.genes[gi] by {
        if genes1 == genes {
          assert genes1[gi] == genes[gi];
        }
      }
      assert genes2 == other.genes <==> genes[gi] == other.genes[gi] by {
        if genes2 == other.genes {
          assert genes2[gi] == other.genes[gi];
        }
      }
      c1 := Child(genes1);
      c2 := other.Child(genes2);
      ExchangeWhole(GeneAlleles(), other.GeneAlleles(), gi);
      ExchangeWhole(other.GeneAlleles(), GeneAlleles(), gi);
      assert c1.GeneAlleles() == GeneAlleles()[gi := other.genes[gi].alleles];
      assert c2.GeneAlleles() == other.GeneAlleles()[gi := genes[gi].alleles];
    }

    /** The gene list with gene `gi` replaced by `d`, through `_child`. */
    method ReplaceGene(gi: nat, d: Gene) returns (c: Chromosome)
      requires Valid() && gi < |genes| && d.WellFormed() && Shaped(d.alleles, head, kind.Arity())
      requires d == genes[gi] <==> d.alleles == genes[gi].alleles
      modifies kind
      ensures c.GeneAlleles() == GeneAlleles()[gi := d.alleles]
      ensures c.Valid()
      ensures c == this <==> c.GeneAlleles() == GeneAlleles()
      ensures c != this ==> fresh(c) && c.Newborn() && Sibling(c)
    {
      var newGenes := genes[gi := d];
      c := Child(newGenes);
      assert newGenes == genes <==> GeneAlleles()[gi := d.alleles] == GeneAlleles() by {
        if GeneAlleles()[gi := d.alleles] == GeneAlleles() {
          assert d.alleles == GeneAlleles()[gi];
        }
      }
    }

    /**
     * `generate`, one chromosome of the generator: each of `count` genes
     * takes `head` symbols and the tail's terminals as `picks` chooses them.
     * The first gene raises `IndexError` when a draw meets an empty table,
     * or when a negative head with functions of arity 2 or more leaves it
     * no alleles for its coding scan; otherwise the constructor refuses a
     * negative head or an empty gene list.
     */
    static method Generate(kind: Kind, head: int, count: nat, linker: Linker, picks: seq<seq<nat>>) returns (r: Result<Chromosome>)
      requires kind.Ok() && |picks| == count
      requires head >= 0 && !kind.GeneFails(head) ==> forall g :: 0 <= g < count ==> kind.Picks(head, picks[g])
      modifies kind
      ensures r.Failure? ==> kind.nextId == old(kind.nextId)
      ensures count > 0 && kind.GeneFails(head) ==> r == Failure(IndexError)
      ensures head < 0 && (count == 0 || !kind.GeneFails(head)) ==> r == Failure(ValueError("Head length must be at least 0"))
      ensures head >= 0 && count == 0 ==> r == Failure(ValueError("Must have at least 1 gene"))
      ensures head >= 0 && count > 0 && !kind.GeneFails(head) ==>
                && r.Success? && fresh(r.value) && r.value.Newborn() && r.value.Valid()
                && r.value.head == head && r.value.linker == linker && r.value.kind == kind && |r.value.genes| == count
                && r.value.id == old(kind.nextId) && kind.nextId == old(kind.nextId) + 1
                && forall g :: 0 <= g < count ==> r.value.genes[g].alleles == kind.Drawn(head, picks[g])
    {
      if count > 0 && kind.DrawsEmpty(head) {
        // `random.choice` of an empty table
        return Failure(IndexError);
      }
      if head < 0 {
        if count > 0 && kind.TailDraws(head) == 0 {
          var first := Gene.Create([], head);
          return Failure(first.error);
        }
        return Failure(ValueError("Head length must be at least 0"));
      }
      var newGenes := GenerateGenes(kind, head, picks);
      assert AllShaped(newGenes, head, kind.Arity());
      r := Create(newGenes, head, linker, kind);
    }
  }

  /**
   * The inner loop of `mutate` on one gene: one single-allele change per
   * locus whose draw is below the rate and whose new allele differs.
   */
  method MutationChanges(s: seq<Allele>, head: int, al: Alphabet, rate: real, ds: seq<Draw>) returns (reps: seq<Change>)
    requires DrawsFit(ds, |s|, head, al)
    ensures ApplyChanges(s, reps) == MutateGene(s, head, al, rate, ds)
    ensures reps == [] <==> MutateGene(s, head, al, rate, ds) == s
    ensures reps != [] ==> AnyDiffer(s, reps)
  {
    reps := [];
    ghost var cur := s;
    var i := 0;
    while i < |s|
      invariant i <= |s| && cur == ApplyChanges(s, reps) && MutatedTo(s, head, al, rate, ds, cur, i)
      invariant reps == [] <==> cur == s
      invariant reps != [] ==> AnyDiffer(s, reps)
    {
      var allele := s[i];
      assert DrawFits(ds[i], i, head, al);
      MutatedStep(s, head, al, rate, ds, cur, i);
      if ds[i].u < rate {
        var drawn := if i >= head then al.terminals[ds[i].pick] else al.symbols[ds[i].pick];
        assert drawn == Mutant(allele, i, head, al, rate, ds[i]);
        if drawn != allele {
          var ch := Change(i, [drawn]);
          PointChange(s, reps, ch);
          reps := reps + [ch];
          cur := cur[i := drawn];
        }
      }
      i := i + 1;
    }
    assert cur == MutateGene(s, head, al, rate, ds);
  }

  /** The alleles after the loop of `mutate` has visited the loci below `i`. */
  ghost predicate MutatedTo(s: seq<Allele>, head: int, al: Alphabet, rate: real, ds: seq<Draw>, cur: seq<Allele>, i: nat)
    requires DrawsFit(ds, |s|, head, al) && i <= |s|
  {
    && |cur| == |s|
    && (forall k :: 0 <= k < i ==> cur[k] == Mutant(s[k], k, head, al, rate, ds[k]))
    && (forall k :: i <= k < |s| ==> cur[k] == s[k])
  }

  lemma MutatedStep(s: seq<Allele>, head: int, al: Alphabet, rate: real, ds: seq<Draw>, cur: seq<Allele>, i: nat)
    requires DrawsFit(ds, |s|, head, al) && i < |s| && MutatedTo(s, head, al, rate, ds, cur, i)
    ensures var m := Mutant(s[i], i, head, al, rate, ds[i]);
            && cur[i] == s[i]
            && MutatedTo(s, head, al, rate, ds, if m != s[i] then cur[i := m] else cur, i + 1)
  {
  }

  /** A one-allele change to a locus still holding the parent's allele writes it and differs. */
  lemma PointChange(s: seq<Allele>, reps: seq<Change>, ch: Change)
    requires |ch.alleles| == 1 && ch.index < |s| && |ApplyChanges(s, reps)| == |s|
    requires ApplyChanges(s, reps)[ch.index] == s[ch.index] != ch.alleles[0]
    ensures ApplyChanges(s, reps + [ch]) == ApplyChanges(s, reps)[ch.index := ch.alleles[0]]
    ensures AnyDiffer(s, reps + [ch])
  {
    var i := ch.index;
    SliceSpec(s, i, i + 1);
    assert Differs(s, ch);
    ApplyAppend(s, reps, ch);
    SpliceInside(ApplyChanges(s, reps), i, ch.alleles);
    UpdateAsSplice(ApplyChanges(s, reps), i, ch.alleles);
  }

  /** Writing a one-element block is updating one slot. */
  lemma UpdateAsSplice<T>(s: seq<T>, i: nat, xs: seq<T>)
    requires i < |s| && |xs| == 1
    ensures s[..i] + xs + s[i + 1..] == s[i := xs[0]]
  {
  }

  /** The loop of `generate` over the genes: one gene per choice list. */
  method GenerateGenes(kind: Kind, head: nat, picks: seq<seq<nat>>) returns (newGenes: seq<Gene>)
    requires kind.Ok() && forall g :: 0 <= g < |picks| ==> kind.Picks(head, picks[g])
    ensures |newGenes| == |picks| && AllShaped(newGenes, head, kind.Arity())
    ensures forall g :: 0 <= g < |picks| ==> newGenes[g].alleles == kind.Drawn(head, picks[g])
  {
    newGenes := [];
    var i := 0;
    while i < |picks|
      invariant i <= |picks| && |newGenes| == i && AllShaped(newGenes, head, kind.Arity())
      invariant forall g :: 0 <= g < i ==> newGenes[g].alleles == kind.Drawn(head, picks[g])
    {
      var alleles := kind.Drawn(head, picks[i]);
      kind.DrawnShaped(head, picks[i]);
      ShapedCloses(alleles, head, kind.Arity());
      var gene := Gene.Create(alleles, head);
      newGenes := newGenes + [gene.value];
      i := i + 1;
    }
  }

  /** The loop of `mutate` over the genes. */
  method MutateGenes(genes: seq<Gene>, head: nat, arity: nat, al: Alphabet, rate: real, ds: seq<seq<Draw>>)
    returns (newGenes: seq<Gene>)
    requires Fits(al, arity) && |ds| == |genes|
    requires forall g :: 0 <= g < |genes| ==>
               && genes[g].WellFormed() && Shaped(genes[g].alleles, head, arity)
               && DrawsFit(ds[g], |genes[g].alleles|, head, al)
    ensures |newGenes| == |genes|
    ensures forall g :: 0 <= g < |genes| ==>
              && newGenes[g].WellFormed() && Shaped(newGenes[g].alleles, head, arity)
              && newGenes[g].alleles == MutateGene(genes[g].alleles, head, al, rate, ds[g])
              && (newGenes[g] == genes[g] <==> newGenes[g].alleles == genes[g].alleles)
  {
    newGenes := genes;
    var gi := 0;
    while gi < |genes|
      invariant gi <= |genes| && |newGenes| == |genes|
      invariant forall g :: 0 <= g < gi ==>
                  && newGenes[g].WellFormed() && Shaped(newGenes[g].alleles, head, arity)
                  && newGenes[g].alleles == MutateGene(genes[g].alleles, head, al, rate, ds[g])
                  && (newGenes[g] == genes[g] <==> newGenes[g].alleles == genes[g].alleles)
      invariant forall g :: gi <= g < |genes| ==> newGenes[g] == genes[g]
    {
      var d := MutateOne(genes[gi], head, arity, al, rate, ds[gi]);
      newGenes := newGenes[gi := d];
      gi := gi + 1;
    }
  }

  /** `mutate` on one gene: the mutated alleles, derived only when some locus actually changes. */
  method MutateOne(gene: Gene, head: nat, arity: nat, al: Alphabet, rate: real, ds: seq<Draw>) returns (d: Gene)
    requires gene.WellFormed() && Shaped(gene.alleles, head, arity) && Fits(al, arity)
    requires DrawsFit(ds, |gene.alleles|, head, al)
    ensures d.WellFormed() && Shaped(d.alleles, head, arity)
    ensures d.alleles == MutateGene(gene.alleles, head, al, rate, ds)
    ensures d == gene <==> d.alleles == gene.alleles
    ensures d != gene ==> fresh(d)
  {
    var reps := MutationChanges(gene.alleles, head, al, rate, ds);
    MutateShaped(gene.alleles, head, arity, al, rate, ds);
    d := DeriveShaped(gene, reps, MutateGene(gene.alleles, head, al, rate, ds), head, arity);
  }

  /** Two gene lists that hold the same gene wherever they hold the same alleles are equal exactly when all alleles agree. */
  lemma SameAlleles(a: seq<Gene>, b: seq<Gene>)
    requires |a| == |b| && forall g :: 0 <= g < |a| ==> (a[g] == b[g] <==> a[g].alleles == b[g].alleles)
    ensures a == b <==> forall g :: 0 <= g < |a| ==> a[g].alleles == b[g].alleles
  {
  }

  /** A derivation of one change inside the gene, whose result has the gene shape. */
  method DeriveOne(gene: Gene, chs: seq<Change>, ghost want: seq<Allele>, head: nat, arity: nat) returns (d: Gene)
    requires gene.WellFormed() && |chs| == 1 && chs[0].index + |chs[0].alleles| <= |gene.alleles|
    requires want == gene.alleles[..chs[0].index] + chs[0].alleles + gene.alleles[chs[0].index + |chs[0].alleles|..]
    requires Shaped(want, head, arity)
    ensures d.WellFormed() && d.alleles == want
    ensures d == gene <==> want == gene.alleles
    ensures d != gene ==> fresh(d)
  {
    ApplyOne(gene.alleles, chs);
    ApplyOneDiffers(gene.alleles, chs);
    d := DeriveShaped(gene, chs, want, head, arity);
  }

  /** `invert` on one gene: the head alleles `a..b` reversed. */
  method InvertGene(gene: Gene, head: nat, arity: nat, a: nat, b: nat) returns (d: Gene)
    requires gene.WellFormed() && Shaped(gene.alleles, head, arity) && a <= b < head
    ensures d.WellFormed() && Shaped(d.alleles, head, arity) && d.alleles == Inverted(gene.alleles, a, b)
    ensures d == gene <==> d.alleles == gene.alleles
    ensures d != gene ==> fresh(d)
  {
    var block := gene.GetSlice(a, b + 1);
    InvertShaped(gene.alleles, head, arity, a, b);
    d := DeriveOne(gene, [Change(a, Reverse(block))], Inverted(gene.alleles, a, b), head, arity);
  }

  /** `transpose_is` on the target gene. */
  method IsGene(source: Gene, target: Gene, head: nat, arity: nat, length: nat, start: nat, offset: nat) returns (d: Gene)
    requires source.WellFormed() && target.WellFormed() && 0 < offset < head
    requires Shaped(source.alleles, head, arity) && Shaped(target.alleles, head, arity)
    ensures d.WellFormed() && Shaped(d.alleles, head, arity)
    ensures d.alleles == IsTransposed(source.alleles, target.alleles, head, length, start, offset)
    ensures d == target <==> d.alleles == target.alleles
    ensures d != target ==> fresh(d)
  {
    var end := SeqEnd(start, length, head);
    var block := Slice(source.GetSlice(start, end), 0, head - offset) + target.GetSlice(offset, head - end + start);
    assert block == IsBlock(source.alleles, target.alleles, head, length, start, offset);
    IsBlockSpec(source.alleles, target.alleles, head, length, start, offset);
    IsShaped(source.alleles, target.alleles, head, arity, length, start, offset);
    d := DeriveOne(target, [Change(offset, block)], IsTransposed(source.alleles, target.alleles, head, length, start, offset), head, arity);
  }

  /** `transpose_ris` on the target gene, for a start inside the head. */
  method RisGene(source: Gene, target: Gene, head: nat, arity: nat, length: nat, start: nat) returns (d: Gene)
    requires source.WellFormed() && target.WellFormed() && start < head
    requires Shaped(source.alleles, head, arity) && Shaped(target.alleles, head, arity)
    ensures d.WellFormed() && Shaped(d.alleles, head, arity)
    ensures d.alleles == RisTransposed(source.alleles, target.alleles, head, length, start)
    ensures d == target <==> d.alleles == target.alleles
    ensures d != target ==> fresh(d)
  {
    var end := SeqEnd(start, length, head);
    var block := source.GetSlice(start, end) + target.GetSlice(0, head + start - end);
    assert block == RisBlock(source.alleles, target.alleles, head, length, start);
    RisBlockSpec(source.alleles, target.alleles, head, length, start);
    RisShaped(source.alleles, target.alleles, head, arity, length, start);
    d := DeriveOne(target, [Change(0, block)], RisTransposed(source.alleles, target.alleles, head, length, start), head, arity);
  }

  /** The derivation of `x` that takes the alleles of `y` from `at` on. */
  method TakeSuffix(x: Gene, y: Gene, at: nat, head: nat, arity: nat) returns (u: Gene)
    requires x.WellFormed() && Shaped(x.alleles, head, arity) && Shaped(y.alleles, head, arity)
    requires at <= |x.alleles|
    ensures u.WellFormed() && Shaped(u.alleles, head, arity) && u.alleles == x.alleles[..at] + y.alleles[at..]
    ensures u == x <==> u.alleles == x.alleles
    ensures u != x ==> fresh(u)
  {
    assert |y.alleles| == |x.alleles|;
    var ys := y.GetSlice(at, |y.alleles|);
    assert ys == y.alleles[at..] && at + |ys| == |x.alleles|;
    assert x.alleles[at + |ys|..] == [];
    assert x.alleles[..at] + ys + [] == x.alleles[..at] + ys;
    MixShaped(x.alleles, y.alleles, x.alleles[..at] + ys, head, arity);
    u := DeriveOne(x, [Change(at, ys)], x.alleles[..at] + ys, head, arity);
  }

  /** The derivation of `x` that takes the alleles of `y` before `upto`. */
  method TakePrefix(x: Gene, y: Gene, upto: nat, head: nat, arity: nat) returns (u: Gene)
    requires x.WellFormed() && Shaped(x.alleles, head, arity) && Shaped(y.alleles, head, arity)
    requires upto <= |x.alleles|
    ensures u.WellFormed() && Shaped(u.alleles, head, arity) && u.alleles == y.alleles[..upto] + x.alleles[upto..]
    ensures u == x <==> u.alleles == x.alleles
    ensures u != x ==> fresh(u)
  {
    var ys := y.GetSlice(0, upto);
    MixShaped(x.alleles, y.alleles, ys + x.alleles[upto..], head, arity);
    u := DeriveOne(x, [Change(0, ys)], ys + x.alleles[upto..], head, arity);
  }

  /** The alleles of each gene of a list. */
  function AllelesOf(gs: seq<Gene>): (p: Genome)
    ensures |p| == |gs| && forall g :: 0 <= g < |gs| ==> p[g] == gs[g].alleles
  {
    seq(|gs|, g requires 0 <= g < |gs| => gs[g].alleles)
  }

  /** Every gene of the list is well formed and of the shape. */
  predicate AllShaped(gs: seq<Gene>, head: nat, arity: nat)
  {
    forall g :: 0 <= g < |gs| ==> gs[g].WellFormed() && Shaped(gs[g].alleles, head, arity)
  }

  /**
   * The gene lists of `crossover_two_point` for loci `lo < hi`: the loci are
   * turned into (gene, allele) pairs with the first gene's length, and the
   * three steps exchange the region between them.
   */
  method TwoPointGenes(genes: seq<Gene>, others: seq<Gene>, lo: nat, hi: nat, head: nat, arity: nat)
    returns (genes1: seq<Gene>, genes2: seq<Gene>)
    requires AllShaped(genes, head, arity) && AllShaped(others, head, arity) && |genes| == |others|
    requires lo < hi < |genes| * (head + TailLength(head, arity))
    ensures AllShaped(genes1, head, arity) && AllShaped(genes2, head, arity)
    ensures SameShape(AllelesOf(genes), AllelesOf(others))
    ensures var r := TwoPointRegion(lo, hi, head + TailLength(head, arity));
            && AllelesOf(genes1) == Exchange(AllelesOf(genes), AllelesOf(others), r)
            && AllelesOf(genes2) == Exchange(AllelesOf(others), AllelesOf(genes), r)
  {
    var width := |genes[0].alleles|;
    TwoPointExchange(AllelesOf(genes), AllelesOf(others), lo, hi, width);
    var g1, a1 := lo / width, lo % width;
    var g2, a2 := hi / width, hi % width;
    genes1, genes2 := MiddleGenes(genes, others, g1, g2, head, arity);
    genes1, genes2 := CutGenes(genes1, genes2, g1, a1, true, head, arity);
    genes1, genes2 := CutGenes(genes1, genes2, g2, a2, false, head, arity);
  }

  /** The first step of `crossover_two_point`: the genes strictly between `g1` and `g2` change sides. */
  method MiddleGenes(genes: seq<Gene>, others: seq<Gene>, g1: nat, g2: nat, head: nat, arity: nat)
    returns (genes1: seq<Gene>, genes2: seq<Gene>)
    requires AllShaped(genes, head, arity) && AllShaped(others, head, arity) && |genes| == |others| && g1 <= g2 < |genes|
    ensures AllShaped(genes1, head, arity) && AllShaped(genes2, head, arity)
    ensures AllelesOf(genes1) == MiddleSwap(AllelesOf(genes), AllelesOf(others), g1, g2)
    ensures AllelesOf(genes2) == MiddleSwap(AllelesOf(others), AllelesOf(genes), g1, g2)
  {
    genes1, genes2 := genes, others;
    if g2 - g1 > 1 {
      var start := g1 + 1;
      genes1, genes2 := genes1[..start] + genes2[start..g2] + genes1[g2..], genes2[..start] + genes1[start..g2] + genes2[g2..];
    }
    forall g | 0 <= g < |genes|
      ensures genes1[g] == (if g1 < g < g2 then others[g] else genes[g])
      ensures genes2[g] == (if g1 < g < g2 then genes[g] else others[g])
    {
      if g2 - g1 > 1 {
        SpliceAt(genes, others, g1 + 1, g2, g);
        SpliceAt(others, genes, g1 + 1, g2, g);
      }
    }
    assert AllelesOf(genes1) == MiddleSwap(AllelesOf(genes), AllelesOf(others), g1, g2);
    assert AllelesOf(genes2) == MiddleSwap(AllelesOf(others), AllelesOf(genes), g1, g2);
  }

  /** Slots `i..j` taken from `b`, the rest from `a`. */
  lemma SpliceAt<T>(a: seq<T>, b: seq<T>, i: nat, j: nat, g: nat)
    requires i <= j <= |a| == |b| && g < |a|
    ensures |a[..i] + b[i..j] + a[j..]| == |a|
    ensures (a[..i] + b[i..j] + a[j..])[g] == if i <= g < j then b[g] else a[g]
  {
  }

  /**
   * The second and third steps of `crossover_two_point` on gene `g`: both
   * lists' gene `g` is derived, taking the other list's alleles from `at`
   * on (`suffix`) or before `at`.
   */
  method CutGenes(genes1: seq<Gene>, genes2: seq<Gene>, g: nat, at: nat, suffix: bool, head: nat, arity: nat)
    returns (next1: seq<Gene>, next2: seq<Gene>)
    requires AllShaped(genes1, head, arity) && AllShaped(genes2, head, arity) && |genes1| == |genes2| && g < |genes1|
    requires at < head + TailLength(head, arity)
    ensures AllShaped(next1, head, arity) && AllShaped(next2, head, arity)
    ensures var x, y := genes1[g].alleles, genes2[g].alleles;
            && AllelesOf(next1) == AllelesOf(genes1)[g := if suffix then x[..at] + y[at..] else y[..at] + x[at..]]
            && AllelesOf(next2) == AllelesOf(genes2)[g := if suffix then y[..at] + x[at..] else x[..at] + y[at..]]
  {
    var u, v;
    if suffix {
      u := TakeSuffix(genes1[g], genes2[g], at, head, arity);
      v := TakeSuffix(genes2[g], genes1[g], at, head, arity);
    } else {
      u := TakePrefix(genes1[g], genes2[g], at, head, arity);
      v := TakePrefix(genes2[g], genes1[g], at, head, arity);
    }
    next1, next2 := genes1[g := u], genes2[g := v];
    assert AllelesOf(next1) == AllelesOf(genes1)[g := u.alleles];
    assert AllelesOf(next2) == AllelesOf(genes2)[g := v.alleles];
  }

  /** A derivation whose resulting alleles are known to have the gene shape, which therefore cannot fail. */
  method DeriveShaped(gene: Gene, chs: seq<Change>, ghost want: seq<Allele>, head: nat, arity: nat) returns (d: Gene)
    requires gene.WellFormed() && ApplyChanges(gene.alleles, chs) == want && Shaped(want, head, arity)
    ensures d.WellFormed() && d.alleles == want
    ensures !AnyDiffer(gene.alleles, chs) ==> d == gene
    ensures AnyDiffer(gene.alleles, chs) ==> fresh(d)
  {
    ShapedCloses(want, head, arity);
    if !AnyDiffer(gene.alleles, chs) {
      ApplyNoDiffer(gene.alleles, chs);
    }
    var r := gene.Derive(chs);
    d := r.value;
  }
}
