# pygep kernel in Dafny

A model of the kernel of pygep, a Gene Expression Programming library, with proofs of its properties. The model covers four parts:

- **Karva genes.** A gene is a linear list of alleles. Its breadth-first coding region is found by arity counting. The gene is evaluated against an object by a reverse sweep over an evaluation buffer, with a per-gene memo. A gene is derived into a new one from a list of `(index, alleles)` changes.
- **Chromosomes.** A chromosome is a list of genes sharing one head length and one linker. It has an id taken from a counter on its type, and it carries these operators:
  - point mutation and head inversion;
  - IS, RIS and gene transposition;
  - one-point, two-point and gene crossover.
- **The population.** It has two generation buffers, a scaled-fitness buffer and an age. It provides elitism, roulette selection over sorted spins, per-member variation, crossover over disjoint random pairs, and `solve`.
- **Helpers.** The `cache` and `memoize` decorators, the linkers, and the comparison and logic operators that serve as function alleles.

The model is organised in layers:

- **Values.** Alleles, coding regions, expression trees and terminal groups are datatypes and functions (`Symbols`, `Coding`, `Terminals`). The variation operators are stated as functions on allele lists (`Variation`).
- **Objects.** The objects the source updates in place are classes:
  - `Karva.Gene`, with its evaluation `array` and memo;
  - `Chromosomes.Kind`, with the id counter;
  - `Chromosomes.Chromosome`, with its cached fitness and repr;
  - `Populations.Population`, with its buffers, scaled fitness, age and mean;
  - `Util.Cache`, `Util.Memo` and `Util.Memoized`.
- **Proofs.** Each loop of the source is a method with invariants. Each method is proved against the functions that state what it computes.

**Randomness.** Every random draw is a parameter, restricted to the range the source draws it from: `random.random`, `random.choice`, `random.sample`, `random.randint` and `random.shuffle` (a shuffle is passed as the permutation it applies).

**Python identity.** Identity is object identity:

- `derive` returns the very same gene when nothing differs.
- `_child` returns the very same chromosome when the gene list is unchanged.
- A derived gene whose coding region is untouched is a shallow copy. It shares the parent's evaluation buffer and memo, and `Karva.SharedMemo` shows that sharing at work.

**Two-point crossover.** When both cut points fall in one gene, `crossover_two_point` as written (pygep/src/pygep/chromosome.py:434-440) gives the first child the second parent's alleles *outside* the two points. The model states that as written (`Variation.TwoPointWithin`). It yields the same two children as exchanging the alleles between the points, in the other order.

## Model

All source paths are relative to the repository root.

| member | source | states |
|---|---|---|
| Util.CacheName | src/pygep/util/__init__.py:37 | the cache attribute of a method is `_<name>_cache`: an underscore, the method's name, then `_cache` |
| Util.CacheNameInjective | src/pygep/util/__init__.py:37 | two methods with the same cache attribute have the same name, so cached values of different methods never collide |
| Util.MemoName | src/pygep/util/__init__.py:65 | the memo attribute of a method is `_<name>_memo` |
| Util.MemoNameInjective | src/pygep/util/__init__.py:65 | different methods never share a memo table |
| Util.MemoNameExample | src/tests/cache.py:48-49 | the memo attribute of `baz` is `_baz_memo` |
| Util.Cache.constructor | src/pygep/util/__init__.py:40-47 | a new instance has no cache attribute and the wrapped method has not run |
| Util.Cache.Get | src/pygep/util/__init__.py:40-47 | the first call runs the method once, stores its value and returns it; later calls return the stored value without running it; the method runs at most once per instance |
| Util.Memo.Lookup | src/pygep/util/__init__.py:77-78 | a key in the table gives its stored value, any other key a miss |
| Util.Memo.Store | src/pygep/util/__init__.py:81 | storing a result changes the table at that key only |
| Util.Memoized.Call | src/pygep/util/__init__.py:68-82 | the table is created fresh on the first call; a seen key returns its stored result without running the function; an unseen key runs the function once and adds exactly that entry |
| Util.MemoizeTwice | src/tests/cache.py:36-47 | two calls with one key run the body once and agree; a second instance runs it once for itself, and the first instance's table still holds exactly its one entry |
| Util.CacheTwice | src/tests/cache.py:22-33 | a cached method runs once however often it is called; a second instance runs it once more |
| Comparison.Equal | src/pygep/functions/comparison.py:38-41 | `equal(i, j)` always has the value of `j` |
| Comparison.Unequal | src/pygep/functions/comparison.py:44-47 | `unequal(i, j)` always has the value of `i` |
| Comparison.Less | src/pygep/functions/comparison.py:50-53 | the result is one of the arguments and no larger than either: the minimum |
| Comparison.Greater | src/pygep/functions/comparison.py:56-59 | the result is one of the arguments and no smaller than either: the maximum |
| Comparison.LessOrEqual | src/pygep/functions/comparison.py:62-65 | the minimum of the two arguments |
| Comparison.GreaterOrEqual | src/pygep/functions/comparison.py:68-71 | the maximum of the two arguments |
| Comparison.StrictAndNonStrictAgree | src/pygep/functions/comparison.py:50-71 | the strict and non-strict selectors give the same value, and both are symmetric in their arguments |
| Comparison.ComparisonExamples | pygep/src/tests/functions/mathematical.py:21-35 | the values the library's comparison tests expect |
| Symbols.SelectorOps | pygep/src/pygep/functions/mathematical/comparison.py:37-42 | every `*_op` selector as a function allele has arity 2 and returns one of its arguments; `equal_op` gives `j`, `unequal_op` gives `i`, the less/greater ops give the minimum/maximum |
| Logic.FromBool | pygep/src/pygep/functions/logic.py:48-51 | Python's `True`/`False` as the integers 1/0, with matching truthiness |
| Logic.And | pygep/src/pygep/functions/logic.py:36-39 | `i` when it is falsy, else `j`; truthy exactly when both are |
| Logic.Or | pygep/src/pygep/functions/logic.py:42-45 | `i` when it is truthy, else `j`; truthy exactly when either is |
| Logic.Not | pygep/src/pygep/functions/logic.py:48-51 | a boolean whose truthiness is the negation of its argument's |
| Logic.If | pygep/src/pygep/functions/logic.py:54-57 | `j` when `i` is truthy, else `k` |
| Logic.DeMorgan | pygep/src/pygep/functions/logic.py:36-51 | De Morgan's laws hold for the truthiness of `and_op`, `or_op` and `not_op` |
| Logic.LogicExamples | src/tests/functions/logical.py:7-24 | the values the library's logic tests expect |
| Linkers.Default | src/pygep/functions/linkers.py:33-37 | one argument is returned as it is, any other number as the tuple of the arguments in order |
| Linkers.SumAppend | src/pygep/functions/linkers.py:40-42 | the sum of a concatenation is the sum of the sums |
| Linkers.SumOf | src/pygep/functions/linkers.py:40-42 | `sum_linker` returns one number, the sum of all arguments, however they are split |
| Linkers.AnyTruthy | src/pygep/functions/linkers.py:45-50 | the search is true exactly when some argument is truthy |
| Linkers.OrOf | src/pygep/functions/linkers.py:45-50 | `or_linker` returns a boolean, true exactly when some argument is truthy; false for no arguments |
| Linkers.LinkerExamples | src/tests/functions/linkers.py:7-18 | the values the library's linker tests expect |
| Strings.StrLessIrreflexive | pygep/src/pygep/gene/karva.py:169 | no name sorts before itself |
| Strings.StrLessAsymmetric | pygep/src/pygep/gene/karva.py:169 | two names never sort before each other |
| Strings.StrLessTransitive | pygep/src/pygep/gene/karva.py:169 | Python's string order is transitive |
| Strings.StrLessTotal | pygep/src/pygep/gene/karva.py:169 | any two different names are ordered, so sorting terminals by name is well defined |
| Symbols.IntToString | pygep/src/pygep/gene/karva.py:92 | `str` of a constant has one character exactly for 0 to 9 |
| Symbols.RenderAppend | pygep/src/pygep/gene/karva.py:83-97 | the rendering of a concatenation is the concatenation of the renderings |
| Symbols.RenderLength | pygep/src/pygep/gene/karva.py:94-95 | every allele contributes at least one character, and exactly one when all names are one character |
| Symbols.RenderExample | pygep/src/tests/gene/karva.py:33-34 | the test gene renders as `+-a1a` |
| Symbols.RenderBracesExample | pygep/src/pygep/gene/karva.py:94-95 | names longer than one character are put in braces |
| Coding.CodingEndUnique | pygep/src/pygep/gene/karva.py:133-143 | a gene has at most one coding region |
| Coding.CodingArity | pygep/src/pygep/gene/karva.py:133-143 | the arities of the coding region sum to one less than its number of alleles, and every proper prefix still has open slots: the minimal closed breadth-first tree |
| Coding.CodingDependsOnArities | pygep/src/pygep/gene/karva.py:136-138 | the coding region depends only on the arity of each allele |
| Coding.CodingDependsOnPrefix | pygep/src/pygep/gene/karva.py:133-143 | alleles past the coding region never change it |
| Coding.ShapedCloses | pygep/src/pygep/chromosome.py:135-142 | a gene of the shape `generate` builds always has a coding region inside it, so the scan never runs off the end |
| Coding.ChildrenInside | pygep/src/pygep/gene/karva.py:64-75 | the heap-order children of a coding slot lie after it and inside the coding region |
| Coding.Decode | pygep/src/pygep/gene/karva.py:64-78 | the tree a slot decodes to: a node of its operator with as many children as its arity, or a leaf of its terminal |
| Coding.DecodeEvaluable | pygep/src/pygep/gene/karva.py:62-78 | when the object has every attribute the coding region reads, the decoded tree can be evaluated |
| Coding.ChildValues | pygep/src/pygep/gene/karva.py:69-74 | the values of a function slot's children, which lie inside the coding region |
| Coding.ValueAtNode | pygep/src/pygep/gene/karva.py:69-74 | a function slot's value is its operator applied to its children's values |
| Coding.ValueAtLeaf | pygep/src/pygep/gene/karva.py:55-57 | a terminal slot's value is the attribute it names or the constant it holds |
| Terminals.AttrPositionsSpec | pygep/src/pygep/gene/karva.py:163-164 | the positions listed for a name are exactly the coding slots holding that attribute, in ascending order |
| Terminals.AddPositionPositions | pygep/src/pygep/gene/karva.py:167-170 | recording a slot extends the list of its own name and no other |
| Terminals.AddPositionSorted | pygep/src/pygep/gene/karva.py:168-169 | recording a slot keeps the groups in name order and non-empty |
| Terminals.TerminalGroupsSorted | pygep/src/pygep/gene/karva.py:167-171 | `_terminals` is in ascending name order with no empty group |
| Terminals.TerminalGroupsUpto | pygep/src/pygep/gene/karva.py:163-171 | every name's positions in the grouping are exactly its attribute slots |
| Terminals.TerminalGroupsSpec | pygep/src/pygep/gene/karva.py:156-171 | `_terminals` lists every attribute name of the coding region once, in name order, with all its positions ascending |
| Terminals.GroupPositions | pygep/src/pygep/gene/karva.py:167-171 | each group is non-empty, holds exactly the slots of its name inside the region, and its name is not repeated |
| Terminals.GroupsCover | pygep/src/pygep/gene/karva.py:163-171 | every attribute slot's name has a group |
| Terminals.PositionsOfGroup | pygep/src/pygep/gene/karva.py:167-171 | in name order, each group is the one found for its name |
| Terminals.PositionsFound | pygep/src/pygep/gene/karva.py:167-171 | a name with positions has its own group |
| Terminals.TerminalGroupsExample | pygep/src/tests/gene/karva.py:37-38 | the test gene's grouping is `[('a', [2, 4])]` |
| Karva.SliceSpec | pygep/src/pygep/gene/karva.py:115-117 | Python's `s[i:j]` clips both bounds to the length and yields the alleles from `i` on |
| Karva.SpliceSpec | pygep/src/pygep/gene/karva.py:207-209 | a written block lands at its index (at the end when the index is past it); nothing before it moves; the list never shortens; a block inside the list keeps the length and every slot outside it |
| Karva.AnyDifferSpec | pygep/src/pygep/gene/karva.py:201-206 | a derivation changes something exactly when some change's block differs from the parent's alleles there |
| Karva.TouchesCodingSpec | pygep/src/pygep/gene/karva.py:211-213 | the coding region is marked changed exactly when some differing change starts at or before the coding index |
| Karva.TouchesDiffers | pygep/src/pygep/gene/karva.py:204-213 | a change to the coding region is a change |
| Karva.ApplyNoDiffer | pygep/src/pygep/gene/karva.py:215-216 | changes that all agree with the parent leave its alleles as they were |
| Karva.ApplyKeepsPrefix | pygep/src/pygep/gene/karva.py:201-213 | changes that leave the coding region alone keep its alleles, and a derivation never shortens a gene |
| Karva.ApplyInBounds | pygep/src/pygep/gene/karva.py:201-209 | with every block inside the gene, the length is kept and every slot no differing block covers keeps its allele |
| Karva.ApplySingle | pygep/src/pygep/gene/karva.py:201-209 | a one-change derivation writes that block when it differs, else nothing |
| Karva.SpliceSame | pygep/src/pygep/gene/karva.py:204 | writing a block equal to what is there changes nothing |
| Karva.SpliceInside | pygep/src/pygep/gene/karva.py:207 | a block inside the list replaces exactly its own slots |
| Karva.ApplyOne | pygep/src/pygep/gene/karva.py:204-209 | one change inside the gene gives the gene with that block written, whether or not it differs |
| Karva.ApplyOneDiffers | pygep/src/pygep/gene/karva.py:204-216 | one change inside the gene differs exactly when the alleles change |
| Karva.DeriveExample | pygep/src/tests/gene/karva.py:27-30 | the test derivation gives `['a', -, 'a', +, +]`, and `(2, ['a'])` changes nothing |
| Karva.SweptChildren | pygep/src/pygep/gene/karva.py:69-71 | once the later slots are swept, a function's arguments are the `num` values just below the moving index |
| Karva.SweptStep | pygep/src/pygep/gene/karva.py:73-75 | writing a slot's value extends the swept part by one slot |
| Karva.MissingAttr | pygep/src/pygep/gene/karva.py:177-178 | no result exactly when the object has every group's attribute; otherwise the first missing group's name |
| Karva.MissingAttrAt | pygep/src/pygep/gene/karva.py:177-178 | the first group the object lacks, after only bound ones, is the one reported |
| Karva.Gene.Expressed | pygep/src/pygep/gene/karva.py:149 | the evaluation list covers the coding region, which closes at the coding index |
| Karva.Gene.MissingMeansUnbound | pygep/src/pygep/gene/karva.py:174-180 | no group is missing exactly when the object has every attribute the coding region reads |
| Karva.Gene.FindCoding | pygep/src/pygep/gene/karva.py:133-143 | the scan succeeds exactly when the alleles close a breadth-first tree and returns its last index; running off the end is an `IndexError` |
| Karva.Gene.Create | pygep/src/pygep/gene/karva.py:38-49 | a new gene keeps the alleles and head, has a fresh evaluation list, no memo and consistent fields; unclosed alleles raise `IndexError` |
| Karva.Gene.Assemble | pygep/src/pygep/gene/karva.py:143-171 | the coding index, evaluation list and terminal groups agree with the alleles |
| Karva.Gene.Prepare | pygep/src/pygep/gene/karva.py:174-180 | slots that hold no attribute are untouched; when the object has every attribute read, each attribute slot of the coding region holds its value; otherwise the missing name reported is that of the first group the object lacks |
| Karva.Gene.Fill | pygep/src/pygep/gene/karva.py:179-180 | the listed slots take the value and all others keep theirs |
| Karva.Gene.Sweep | pygep/src/pygep/gene/karva.py:64-78 | the reverse sweep returns the value of the decoded expression tree and leaves the terminal slots as they were |
| Karva.Gene.SweepSlot | pygep/src/pygep/gene/karva.py:66-75 | one step writes the slot's value and moves the index back by its arity |
| Karva.Gene.Evaluate | pygep/src/pygep/gene/karva.py:52-78 | `gene(obj)` succeeds exactly when the object has every attribute read, with the tree's value; a memoized object returns its stored value; a new one is stored; a missing attribute is an `AttributeError` naming it and nothing is stored |
| Karva.Gene.ApplyAll | pygep/src/pygep/gene/karva.py:199-213 | the loop builds the alleles the changes give, notes whether any change differs, and whether any touches the coding region |
| Karva.Gene.Derive | pygep/src/pygep/gene/karva.py:183-229 | no differing change returns the gene itself; otherwise a new gene with the changed alleles; with the coding region untouched it shares coding, groups, buffer and memo; otherwise the coding region is recomputed (an `IndexError` if it no longer closes) and the memo dropped |
| Karva.Gene.Repr | pygep/src/pygep/gene/karva.py:81-97 | `repr` is the rendering of the alleles, long names in braces |
| Karva.Gene.Length | pygep/src/pygep/gene/karva.py:100-102 | the number of alleles, which exceeds the coding index |
| Karva.Gene.At | pygep/src/pygep/gene/karva.py:110-112 | the allele at an index, or an `IndexError` past the end |
| Karva.Gene.GetSlice | pygep/src/pygep/gene/karva.py:115-117 | the clipped slice: never longer than the gene, each element the allele at its offset; inside the gene exactly `j - i` alleles |
| Karva.SharedMemo | pygep/src/pygep/gene/karva.py:218-221 | after a derivation that leaves the coding region alone, evaluating the child fills the memo the parent shares, so the parent then answers from it |
| Karva.KarvaCodingExample | pygep/src/tests/gene/karva.py:22-23 | the test gene's coding region ends at slot 4 |
| Karva.DerivedCodingExample | pygep/src/tests/gene/karva.py:24 | writing `'a'` at slot 0 leaves a coding region of one allele |
| Karva.KarvaValueExample | pygep/src/tests/gene/karva.py:16-18 | the test gene evaluates to 1 when `a` is 5 |
| Variation.MutateGene | pygep/src/pygep/chromosome.py:264-276 | per locus: below the rate the drawn allele (a terminal in the tail, any symbol in the head), otherwise the old one; the length is kept |
| Variation.MutateShaped | pygep/src/pygep/chromosome.py:265-276 | mutation keeps a gene's shape: every locus keeps its allele or takes one of the alphabet, and the tail only takes terminals |
| Variation.MutateNothing | pygep/src/tests/variation/mutation.py:24-27 | a rate of 0 mutates nothing |
| Variation.MutateEverything | pygep/src/tests/variation/mutation.py:17-21 | a rate of 1 or more replaces every locus by its draw |
| Variation.InvertedSpec | pygep/src/pygep/chromosome.py:306-307 | inversion reverses the inclusive range and keeps every other allele |
| Variation.InvertTwice | pygep/src/pygep/chromosome.py:306-307 | inverting the same range twice restores the gene |
| Variation.InvertShaped | src/tests/variation/inversion.py:12-19 | head inversion keeps the gene's shape and leaves the tail unchanged |
| Variation.IsBlockSpec | pygep/src/pygep/chromosome.py:329-337 | from a head start, the IS replacement fills the head from the offset exactly; from a tail start it is the target's own alleles |
| Variation.IsBlockInHead | pygep/src/pygep/chromosome.py:336-337 | the replacement is the source sequence cut to fit, then as much of the target's head as fits |
| Variation.IsInserts | pygep/src/pygep/chromosome.py:327-338 | IS inserts the sequence into the head at the offset, never the root; the rest of the head shifts right; the root and tail are kept |
| Variation.IsFromTail | pygep/src/pygep/chromosome.py:328-338 | a source start in the tail leaves the target as it was |
| Variation.IsKeepsRootAndTail | pygep/src/pygep/chromosome.py:327-338 | whatever the start, IS keeps the target's length, root and tail |
| Variation.IsShaped | pygep/src/pygep/chromosome.py:319-338 | IS transposition keeps a gene's shape |
| Variation.FnPositions | pygep/src/pygep/chromosome.py:356-358 | exactly the positions holding functions, ascending |
| Variation.RisBlockSpec | pygep/src/pygep/chromosome.py:362-366 | the RIS replacement has exactly the head's length |
| Variation.RisInserts | pygep/src/pygep/chromosome.py:355-367 | RIS puts the sequence at the root, shifts the head right and keeps the tail; the new root is the function the sequence starts at |
| Variation.RisShaped | pygep/src/pygep/chromosome.py:362-367 | RIS transposition keeps a gene's shape |
| Variation.SwapPermutes | pygep/src/pygep/chromosome.py:379-384 | gene transposition swaps genes 0 and `which`, keeps the others and the multiset of genes |
| Variation.ExchangeSuffix | pygep/src/pygep/chromosome.py:399-402 | one-point crossover changes only the chosen gene: its alleles from the index on come from the other parent |
| Variation.ExchangeWhole | pygep/src/pygep/chromosome.py:454-455 | gene crossover exchanges exactly one whole gene |
| Variation.ItemAtCovers | pygep/src/pygep/chromosome.py:196-203 | index `a * n + g` reaches allele `a` of gene `g` and nothing else |
| Variation.CrossoverAlleles | src/tests/variation/crossover.py:13-17 | at every index each child's allele is one of the parents', and the children agree exactly where the parents do |
| Variation.OnePointGene | pygep/src/pygep/chromosome.py:400 | the crossed gene is this parent's prefix followed by the other's suffix |
| Variation.TwoPointSpan | pygep/src/pygep/chromosome.py:418-440 | with the points in different genes, exactly the loci between them in gene-major order are exchanged |
| Variation.TwoPointSameGene | pygep/src/pygep/chromosome.py:434-440 | with both points in one gene, that gene's loci outside them are exchanged |
| Variation.Cuts | pygep/src/pygep/chromosome.py:418-425 | the gene of the first point is not after the second's, and in one gene the allele indexes are ordered |
| Variation.TwoPointMirror | pygep/src/pygep/chromosome.py:434-440 | the first child of the swapped parents is the second child of the original order |
| Variation.TwoPointExchange | pygep/src/pygep/chromosome.py:415-442 | the three steps exchange exactly the region between the two points |
| Variation.TwoPointAcross | pygep/src/pygep/chromosome.py:428-440 | across genes the first child takes the other's loci from the first point up to the second |
| Variation.TwoPointWithin | pygep/src/pygep/chromosome.py:434-440 | within one gene the first child takes the other's loci outside the two points |
| Chromosomes.MaxArity | pygep/src/pygep/chromosome.py:76-79 | the largest arity among the functions, attained by one of them, 0 without functions |
| Chromosomes.Kind.constructor | pygep/src/pygep/chromosome.py:117 | a chromosome type starts its id counter at 1 |
| Chromosomes.Kind.Symbols | pygep/src/pygep/chromosome.py:73 | `symbols` is the functions followed by the terminals |
| Chromosomes.Kind.LettersFit | pygep/src/pygep/chromosome.py:135-142 | head symbols respect the type's arity and the tail's are terminals |
| Chromosomes.Kind.Drawn | pygep/src/pygep/chromosome.py:140-142 | a generated gene: the drawn symbol at each head locus, the drawn terminal at each tail locus |
| Chromosomes.Kind.DrawnShaped | src/tests/chromosome.py:29-39 | generated genes have head-then-tail shape with terminals only in the tail |
| Chromosomes.Kind.PicksDrawable | pygep/src/pygep/chromosome.py:135-142 | drawing every locus of a gene is possible only when no head locus meets an empty symbol table and no tail locus an empty terminal table |
| Chromosomes.Kind.NoTerminalsFail | pygep/src/pygep/chromosome.py:121-142 | a type left with the default empty `terminals` fails on its first gene for every head, except a head of one locus or more over functions that all take no argument |
| Chromosomes.Flatten | pygep/src/pygep/chromosome.py:189-193 | iteration yields as many alleles as all genes hold |
| Chromosomes.FlattenAt | pygep/src/pygep/chromosome.py:189-193 | with equal genes, locus `g * width + a` of iteration is allele `a` of gene `g` |
| Chromosomes.RenderGenomeExample | src/tests/chromosome.py:56-60 | genes `abc` and `def` render as `abcdef` |
| Chromosomes.GeneValues | pygep/src/pygep/chromosome.py:236 | the genes' values in order exactly when every gene's attributes are bound, else an `AttributeError` |
| Chromosomes.GeneValuesFailure | pygep/src/pygep/chromosome.py:236 | the error names the first missing attribute of the first gene that lacks one |
| Chromosomes.Chromosome.Create | pygep/src/pygep/chromosome.py:148-173 | a negative head or no genes raise `ValueError` and take no id; otherwise the chromosome takes the next id and the counter moves on |
| Chromosomes.Chromosome.Child | pygep/src/pygep/chromosome.py:212-220 | the same chromosome, keeping its id, exactly when the gene list is the same; else a new one of the same head, linker and type with the next id |
| Chromosomes.Chromosome.LenOfValid | src/tests/chromosome.py:24-26 | a generated chromosome has gene count times gene length alleles |
| Chromosomes.Chromosome.Iter | pygep/src/pygep/chromosome.py:189-193 | iteration yields `len(chromosome)` alleles |
| Chromosomes.Chromosome.GetItem | pygep/src/pygep/chromosome.py:196-203 | index `i` is allele `i div n` of gene `i mod n`, an `IndexError` past it |
| Chromosomes.Chromosome.GetItemReaches | pygep/src/pygep/chromosome.py:196-203 | every allele of every gene is reachable by index |
| Chromosomes.Chromosome.Call | pygep/src/pygep/chromosome.py:227-236 | the linker applied to the genes' values, exactly when their attributes are bound; otherwise an `AttributeError` |
| Chromosomes.Chromosome.FitnessOf | pygep/src/pygep/chromosome.py:239-241 | without a `_fitness` override the result is `NotImplementedError` |
| Chromosomes.Chromosome.Fitness | pygep/src/pygep/chromosome.py:81-82 | `fitness` is the cached `_fitness`: stored after success, nothing stored on an error |
| Chromosomes.Chromosome.Solved | pygep/src/pygep/chromosome.py:243-248 | without a `_solved` override a chromosome is never solved |
| Chromosomes.Chromosome.Repr | pygep/src/pygep/chromosome.py:206-209 | the genes' renderings joined, and cached |
| Chromosomes.Chromosome.Cmp | pygep/src/pygep/chromosome.py:176-181 | 0 for the chromosome itself; otherwise the sign of the fitness comparison, failing when a fitness fails |
| Chromosomes.Chromosome.Mutate | pygep/src/pygep/chromosome.py:251-284 | the child's genes are the mutated genes and keep their shape; it is this chromosome exactly when no allele changed, else new with the next id |
| Chromosomes.Chromosome.Invert | pygep/src/pygep/chromosome.py:287-308 | a head below 2 returns the chromosome; otherwise one gene has the range between the two head points reversed |
| Chromosomes.Chromosome.TransposeIs | pygep/src/pygep/chromosome.py:311-339 | a head below 2 returns the chromosome; otherwise the target gene takes the IS insertion |
| Chromosomes.Chromosome.TransposeRis | pygep/src/pygep/chromosome.py:342-368 | a source without functions returns the chromosome; otherwise the target gene takes the RIS insertion starting at the chosen function, which lies in the head |
| Chromosomes.Chromosome.TransposeGene | pygep/src/pygep/chromosome.py:371-384 | with under two genes, the chromosome itself; else genes 0 and `which` swapped, and the chromosome itself comes back exactly when those two are the same gene object |
| Chromosomes.Chromosome.CrossoverOnePoint | pygep/src/pygep/chromosome.py:387-403 | the children exchange the chosen gene's alleles from the index on; each child is its parent exactly when nothing changed |
| Chromosomes.Chromosome.OnePointChild | pygep/src/pygep/chromosome.py:400-403 | one child: this parent with the chosen gene's suffix taken from the donor |
| Chromosomes.Chromosome.CrossoverTwoPoint | pygep/src/pygep/chromosome.py:406-442 | under two loci the parents are returned; otherwise the children exchange the region between the two loci; a child is its parent exactly when its gene list is the parent's, and a child whose alleles differ is a new chromosome |
| Chromosomes.Chromosome.CrossoverGene | pygep/src/pygep/chromosome.py:445-456 | the children exchange one whole gene; each is its parent exactly when that gene is the same |
| Chromosomes.Chromosome.ReplaceGene | pygep/src/pygep/chromosome.py:307-308 | the gene list with one gene replaced, through `_child` |
| Chromosomes.Chromosome.Generate | pygep/src/pygep/chromosome.py:127-145 | with genes to build, a draw from an empty table (no symbols for a head locus, no terminals for a tail locus) is an `IndexError`, and so is a negative head whose tail is empty because some function has arity 2 or more (the first gene gets no alleles); a negative head is otherwise a `ValueError`; no genes is a `ValueError`; no id is taken on an error; otherwise a new well-shaped chromosome whose genes are the drawn alleles, with the next id |
| Chromosomes.MutationChanges | pygep/src/pygep/chromosome.py:264-276 | the replacements give exactly the mutated gene; there are none exactly when nothing changes, and all of them differ |
| Chromosomes.GenerateGenes | pygep/src/pygep/chromosome.py:138-143 | one well-shaped gene per choice list, holding the drawn alleles |
| Chromosomes.MutateGenes | pygep/src/pygep/chromosome.py:259-281 | every gene is mutated in place in the list and keeps its shape; a gene is kept as it was exactly when its alleles are unchanged |
| Chromosomes.MutateOne | pygep/src/pygep/chromosome.py:279-281 | a gene is derived only when some locus changes |
| Chromosomes.InvertGene | pygep/src/pygep/chromosome.py:306-307 | the derived gene holds the inverted alleles and keeps the shape |
| Chromosomes.IsGene | pygep/src/pygep/chromosome.py:336-338 | the derived target holds the IS-transposed alleles and keeps the shape |
| Chromosomes.RisGene | pygep/src/pygep/chromosome.py:366-367 | the derived target holds the RIS-transposed alleles and keeps the shape |
| Chromosomes.TakeSuffix | pygep/src/pygep/chromosome.py:434-435 | the derived gene takes the other's alleles from the index on |
| Chromosomes.TakePrefix | pygep/src/pygep/chromosome.py:438-439 | the derived gene takes the other's alleles before the index |
| Chromosomes.TwoPointGenes | pygep/src/pygep/chromosome.py:415-440 | the gene lists of `crossover_two_point` exchange exactly the region between the two loci and keep their shape |
| Chromosomes.MiddleGenes | pygep/src/pygep/chromosome.py:427-431 | the genes strictly between the cut genes change sides |
| Chromosomes.CutGenes | pygep/src/pygep/chromosome.py:433-440 | both lists' cut gene is rewritten with the other's suffix or prefix |
| Populations.Scaled | src/pygep/population.py:168-169 | each weight is `exclusion_level * fitness / mean` |
| Populations.SumScaled | src/pygep/population.py:168-170 | the scaling sum is `exclusion_level` times the total fitness over the mean |
| Populations.WheelSize | src/pygep/population.py:165-170 | with the true mean, the wheel's circumference is `exclusion_level` times the population size |
| Populations.BestFromSpec | src/pygep/population.py:142-146 | `best` is a fittest member, and the last among the fittest |
| Populations.PickLeast | src/pygep/population.py:182-189 | a spin selects the first slot whose window covers it, or the last slot on overrun |
| Populations.Walk | src/pygep/population.py:179-193 | one selected slot per spin, each inside the population |
| Populations.WalkMonotone | src/pygep/population.py:179-193 | the selected source never moves back across targets |
| Populations.Chosen | src/pygep/population.py:264 | exactly the members after the elite whose roll is below the rate, ascending |
| Populations.Shuffled | src/pygep/population.py:265 | the chosen members reordered by the shuffle's permutation |
| Populations.PairUp | src/pygep/population.py:268-272 | consecutive members paired off, an odd one out dropped |
| Populations.PairUpDisjoint | src/pygep/population.py:268-272 | pairing off distinct members gives disjoint pairs |
| Populations.PairsDisjoint | src/pygep/population.py:261-272 | `_pairs` yields disjoint pairs of distinct members, never the elite slot 0 |
| Populations.Choice | pygep/src/pygep/chromosome.py:356-358 | `random.choice` picks an index inside the list |
| Populations.Spun | src/pygep/population.py:173 | each spin is a uniform draw times the scaling sum |
| Populations.MutatedFormed | src/pygep/population.py:209-210 | mutation keeps every gene's shape |
| Populations.MutationPhase | src/pygep/population.py:209-210 | a rate of 0 keeps the member; otherwise every locus keeps its allele or takes a symbol (head) or terminal (tail); gene count, lengths and shapes are kept |
| Populations.InversionPhase | src/pygep/population.py:213-214 | only the drawn gene can change, none with a head below 2; every tail is kept; gene count and shapes are kept |
| Populations.IsPhase | src/pygep/population.py:217-220 | only the target gene can change, none with a head below 2; every root and tail is kept; gene count and shapes are kept |
| Populations.RisPhase | src/pygep/population.py:223-226 | only the target gene can change, every tail is kept, and a changed member has a function at the target's root; gene count and shapes are kept |
| Populations.MovePhase | src/pygep/population.py:229-231 | the multiset of genes is kept and only genes 0 and `which` can move; shapes are kept |
| Populations.Varied | src/pygep/population.py:207-231 | the whole variation of a member keeps its gene count and every gene's shape |
| Populations.PairOff | src/pygep/population.py:268-272 | the pairing loop gives consecutive pairs |
| Populations.Population.Init | src/pygep/population.py:80-107 | the population holds the generated members, age 0, fresh buffers and the first mean |
| Populations.Population.Create | src/pygep/population.py:71-107 | size below 1 is a `ValueError`; the first chromosome's `IndexError` (a draw from an empty table, or a negative head leaving a gene without alleles) or `ValueError` (a negative head, no genes) is raised as `generate` raises it, taking no id; without `_fitness` the statistics raise `NotImplementedError`; otherwise `size` generated members with consecutive ids, age 0 and mutation rate `2 / len(chromosome)` |
| Populations.Population.GenerateAll | src/pygep/population.py:88-89 | the first `size` chromosomes of the generator, with consecutive ids |
| Populations.Population.Len | src/pygep/population.py:121-123 | the population size |
| Populations.Population.GetItem | src/pygep/population.py:131-133 | the member at the index when it is below the size, otherwise an `IndexError` |
| Populations.Population.Best | src/pygep/population.py:142-146 | `best` is no less fit than any member |
| Populations.Population.Advance | src/pygep/population.py:183-189 | the inner walk stops at the slot the spin selects, with that slot's window |
| Populations.Population.Select | src/pygep/population.py:163-200 | with a positive mean, slot 0 is the best and the others are filled by the roulette walk over the scaled weights; otherwise every slot is a random member; every slot holds a member of the current population |
| Populations.Population.ScaleFitness | src/pygep/population.py:168-169 | the scaled buffer holds each member's scaled fitness |
| Populations.Population.PickAtRandom | src/pygep/population.py:199-200 | every slot takes the drawn member |
| Populations.Population.Selected | src/pygep/population.py:192 | every selected slot holds a member of the current population |
| Populations.Population.Roulette | src/pygep/population.py:176-193 | target `t + 1` takes the member the walk selects for spin `t`; slot 0 is untouched |
| Populations.Population.VaryOne | src/pygep/population.py:208-231 | the member's genes become the varied genes of each drawn operator in turn |
| Populations.Population.MutateStep | src/pygep/population.py:209-210 | mutation at the population's rate when it is non-zero |
| Populations.Population.InvertStep | src/pygep/population.py:213-214 | inversion when its roll falls below the rate |
| Populations.Population.IsStep | src/pygep/population.py:217-220 | IS transposition of the drawn length when its roll falls below the rate |
| Populations.Population.RisStep | src/pygep/population.py:223-226 | RIS transposition of the drawn length when its roll falls below the rate |
| Populations.Population.GeneStep | src/pygep/population.py:229-231 | gene transposition when its roll falls below the rate |
| Populations.Population.Vary | src/pygep/population.py:207-231 | every slot but the elite slot 0 is varied by its own draws; slot 0 is untouched |
| Populations.Population.CrossPair | src/pygep/population.py:235-237 | the two children of one crossover of the given type |
| Populations.Population.Pairs | src/pygep/population.py:255-272 | no pairs when the rate is 0 or the population is under 3; otherwise the shuffled chosen members paired off; always disjoint |
| Populations.Population.CrossAt | src/pygep/population.py:235-237 | the two slots take the children of their members and no other slot changes |
| Populations.Population.ChooseMembers | src/pygep/population.py:264 | the members after the elite whose roll is below the rate |
| Populations.Population.CrossPhase | src/pygep/population.py:234-247 | each pair `_pairs` yields is replaced by its children; slot 0 and every unpaired slot are unchanged |
| Populations.Population.CrossAll | src/pygep/population.py:234-237 | the crossover loop: every pair's slots hold the children of their members from before the pass, other slots unchanged |
| Populations.Population.Breed | src/pygep/population.py:160-247 | the new generation holds members only; with a positive mean slot 0 is the old best, otherwise a random pick |
| Populations.Population.Cycle | src/pygep/population.py:160-252 | the buffers are swapped, not copied, and the old generation's buffer keeps its members; age goes up by one; the invariants, the recomputed mean included, are kept; with a positive mean the old best is in slot 0, otherwise the random pick |
| Populations.Population.SolveStep | src/pygep/population.py:154-157 | one pass of the loop: it stops exactly when the best member is solved, and then nothing changes; otherwise it is one `cycle`, with the buffers swapped, the age up by one and the elite in slot 0 |
| Populations.Population.Solve | src/pygep/population.py:149-157 | at most `generations` cycles; it stops early only when the best member is solved, and a best member already solved stops it before any cycle, leaving the population and age as they were |

## Left out

- Floating point is left out. Fitness, the mean, the roulette weights and the spins are exact `real` numbers, without rounding. Gene values are unbounded integers.
- Python booleans are modelled as the integers 1 and 0. This covers the comparison operators, `not_op` and `or_linker`.
- The float operator catalogs are left out: trigonometry, hyperbolic, power, rounding, constants, and arithmetic with division and `sqrt`. The function alleles are `+`, `-` and `*`, the six comparison selectors and the four logic operators.
- ZeroDivisionError and other exceptions raised inside operators or fitness code are left out. They belong to caller-supplied code.
- Random draws are parameters restricted to the range the source draws them from. No distribution is modelled.
- The roulette spins arrive already in ascending order. They stand for the result of `select.sort()`.
- A shuffle is passed as the permutation it applies.
- The standard deviation in `fitness_stats` is left out, because it needs `math.sqrt`. Only the mean is modelled.
- `Population.__repr__` and the display header are left out. They are string formatting with float output.
- `Population.__iter__` and `KarvaGene.__iter__` have no separate operation. The model reads the member array and the allele sequence directly.
- The `None` placeholders of `_next_pop` and `_scaled` are modelled as the first member and 0.0, because Dafny arrays need an initial value. Both buffers are overwritten before they are read.
- `generate` is an endless generator. The model makes one chromosome per call (`Generate`), and `GenerateAll` takes the first `size` of them.
- The `_pairs` generator is modelled as the list it yields. Its draws come in as parameters, so it does not matter when they are taken.
- Python introspection is replaced by the allele datatype and an attribute map. This covers `callable`, `co_argcount`, `getattr`, `isinstance(str)`, `functools.wraps` and the metaclass.
- Negative indices and negative slice bounds, which Python counts from the end, are left out. `Karva.Gene.At`, `Karva.Gene.GetSlice`, `Chromosomes.Chromosome.GetItem` and `Populations.Population.GetItem` take natural indices.
- The demos, `setup.py` and the package `__init__` are left out. They are problem definitions, file reading, printing and packaging.
- The random-numerical-constant gene variant is left out. It needs a different gene constructor from the one modelled.
- Chromosomes.Chromosome.FitnessOf: the `_fitness` override is a function of the chromosome's alleles, not of the whole Python object.
- Chromosomes.Chromosome.Solved: the contract states only the default `False`. With an override it is the override's value on the alleles.
- Chromosomes.Chromosome.Generate: with a negative head, terminals to draw from and functions of arity 1 or less, the source builds the genes before the constructor refuses the head. The model returns that `ValueError` without building them, so the random draws those genes take are not modelled. Likewise, on an `IndexError` from an empty table the draws made before it are not modelled.
- Karva.Gene.Evaluate: an evaluated object's attributes are fixed (`Instance.attrs` is a `const`), and the memo's soundness rests on that. In the source the memo is keyed by the object itself, and a Python object can change. A memo hit after one of its attributes has changed returns the stale stored value, not the tree's value on the new attributes. The model does not capture this.
- Chromosomes.Chromosome.Call: this is a function over the genes' values. The memo entries that each gene call `g(obj)` stores are outside the model; `Karva.Gene.Evaluate` states them for one gene.
- Karva.Gene.Prepare: when an attribute is missing, the source has already written the groups before it. The contract states only that non-attribute slots are untouched in that case.
- Populations.Population.Breed: the contract does not combine the phases into one statement of the new genomes. Selection, variation and the three crossover passes are stated by `Select`, `Vary` and `CrossPhase`.
- Populations.Population.Cycle: as for `Breed`, the new genomes are not stated in one contract. Only the swap, the age, the kept invariants (including the recomputed mean) and elitism in slot 0 are stated here.
- The variation operators require well-shaped chromosomes, as `generate` and the operators themselves produce them (`Valid`). Hand-built chromosomes of another shape are not covered.
