# matchpy syntactic matching and combinatorics, in Dafny

This project models the syntactic core of matchpy, and of its predecessor
`patternmatcher`, and proves properties of the model.

**Flatterms.** A pattern or subject expression is flattened into its atoms
in prefix order, with an `OPERATION_END` after the operands of every
operation. Each run of adjacent sequence wildcards becomes one merged
wildcard.

**Discrimination nets.** Flatterms are compiled into a discrimination net,
an automaton over term atoms whose states carry the indices of the
patterns they accept. A syntactic pattern becomes a chain of states. Any
other pattern becomes an NFA with fail states and epsilon transitions,
which is then made deterministic by the subset construction. Each new
pattern net is combined with the existing net by a breadth-first product
construction. `_match` walks a subject's flatterm through the net.

**Two net implementations.** There are two:

- matchpy's `DiscriminationNet`, where the states carry payloads.
- The legacy `patternmatcher` net, whose accepting transitions lead to
  plain lists of final labels. Its product can raise `AttributeError`.

**Sequence matcher.** matchpy's `SequenceMatcher` puts the middle operands
of patterns of the form `f(*x, ..., *y)` into one such net.

**Combinatorics module.** The combinatorial helpers in
`patternmatcher/utils.py` are modelled alongside:

- partitions of a sequence with length limits;
- Knuth's integer partitions (Algorithm H);
- fixed-sum vectors in lexicographic order;
- `_count`;
- partitions of a multiset into lists with size bounds;
- the extended Euclidean algorithm;
- the enumeration of non-negative solutions of linear Diophantine
  equations.

**How the model is built.**

- An expression, a flatterm atom and a net state are datatypes (module `Terms`, `Transitions`).
  - A `_State` dictionary becomes an insertion-ordered list of labelled
    transitions and a payload.
  - The Python class tests (`isinstance`, `is_operation`,
    `is_symbol_wildcard`) become constructor tests.
  - A symbol carries the names of the symbol classes it is an instance of.
- Each net is a `class` that owns a map from state ids to states and the
  counter `nextId`, which takes the place of `_State._id`. It also has a
  ghost map `level` that records each state's operation nesting depth.
- The net-building methods (`_generate_net`, `_convert_nfa_to_dfa`,
  `_product_net`, `add`) update that map in place. They are proved against
  specifications:
  - the chain a syntactic pattern becomes (`IsChain`);
  - the completeness of each DFA state (`Complete`, `LComplete`);
  - the completeness of each product state (`ProductOf`, `LPComplete`);
  - the walk of `_match` (`Run`, `LRun`).
- The generators of `utils.py` are methods that return the list of
  everything the generator yields. They are proved sound and complete
  against a predicate that says what an answer is. Where the source
  promises an order, the order is proved as well.

**Findings.** The model exhibits three places where the code does not do
what its documentation says; they are listed under "## Findings". Each is
modelled twice: once as written, with a lemma that exhibits the input that
shows the discrepancy, and once corrected, with the intended property.

## Model

| member | source | states |
|---|---|---|
| MathUtils.FloorMod | patternmatcher/utils.py:250 | Python's `%`: the remainder lies in `[0, b)` for a positive divisor and in `(b, 0]` for a negative one |
| MathUtils.FloorDiv | patternmatcher/utils.py:251 | Python's `//`: `a == b * (a // b) + a % b` with the floor remainder |
| MathUtils.DividesIffFloorMod | patternmatcher/utils.py:277-278 | `c % d == 0` holds exactly when `d` divides `c`, and then `c == d * (c // d)` |
| MathUtils.GcdDivides | patternmatcher/utils.py:266 | `math.gcd(a, b)` divides both arguments |
| MathUtils.GcdGreatest | patternmatcher/utils.py:266 | every common divisor divides `math.gcd(a, b)` |
| MathUtils.GcdPositive | patternmatcher/utils.py:266 | the gcd is positive unless both arguments are zero |
| MathUtils.GcdUnique | patternmatcher/utils.py:266 | the gcd is the only non-negative common divisor that every common divisor divides |
| MathUtils.ExtendedEuclid | patternmatcher/utils.py:238-253 | `extended_euclid(a, b)` returns Bezout coefficients: `a*x + b*y == d`, `d` divides `a` and `b`, and `d >= 0` for non-negative arguments |
| MathUtils.ExtendedEuclidIsGcd | patternmatcher/utils.py:238-253 | the `d` of `extended_euclid` is the gcd up to sign, and exactly the gcd for non-negative arguments, as its docstring promises |
| MathUtils.ExtendedEuclidMinimal | patternmatcher/utils.py:242-253 | for positive `a` and `b` the coefficients are a minimal Bezout pair: `abs(x)*d <= b` and `abs(y)*d <= a` |
| MathUtils.AsWrittenNegativeGcd | patternmatcher/utils.py:240-253 | with Python's floor `%`, `extended_euclid(4, -6)` returns `d == -2`, while `gcd(4, -6) == 2` |
| MathUtils.ExtendedGcd | patternmatcher/utils.py:240-253 | Bezout coefficients with `d == gcd(a, b)` for all arguments; equal to `extended_euclid` for non-negative arguments |
| Diophantine.Normalise | patternmatcher/utils.py:266-269 | dividing `a`, `b`, `c` by `gcd(a, gcd(b, c))` is exact, keeps the coefficients positive and keeps the set of non-negative solutions |
| Diophantine.GeneralSolution | patternmatcher/utils.py:280-293 | two solutions of a normalised equation differ by a multiple of `(b, -a)`, so the walks reach every solution |
| Diophantine.BaseSolutionLinear | patternmatcher/utils.py:255-293 | `base_solution_linear(c, a, b)` yields every non-negative solution of `a*x + b*y == c` and nothing else |
| Diophantine.SolutionsOfCoprime | patternmatcher/utils.py:274-293 | from a Bezout pair of a normalised equation, the walk yields exactly the non-negative solutions |
| Diophantine.WalkRight | patternmatcher/utils.py:282-287 | the `x <= 0` walk yields exactly the non-negative solutions |
| Diophantine.WalkLeft | patternmatcher/utils.py:288-293 | the `x > 0` walk yields exactly the non-negative solutions |
| Diophantine.GcdOfAllIsGcd | patternmatcher/utils.py:318-321 | the fold of `math.gcd` over the coefficients divides each of them and is divided by every common divisor |
| Diophantine.RemainderGcd | patternmatcher/utils.py:318-321 | the `remainder_gcd` loop computes the gcd of all remaining coefficients |
| Diophantine.SolveSingle | patternmatcher/utils.py:310-313 | with one coefficient `c`, the one-tuples yielded are exactly the `(x,)` with `c*x == total` |
| Diophantine.PairsAsVectors | patternmatcher/utils.py:314-316 | with two coefficients the yielded tuples are exactly the pairs of `base_solution_linear` |
| Diophantine.SplitExists | patternmatcher/utils.py:323-327 | every solution of the whole equation splits into a solution of `coeffs[0]*x + g*y == total` and a solution of the rest summing to `g*y` |
| Diophantine.SplitStep | patternmatcher/utils.py:323-327 | one round of the outer loop adds only solutions, and adds all solutions that split by its pair |
| Diophantine.SolveLinearDiop | patternmatcher/utils.py:295-327 | corrected `solve_linear_diop`: nothing for no coefficients; otherwise exactly the non-negative solutions of `c_1 x_1 + ... + c_n x_n == total` |
| Diophantine.SolveLinearDiopAsWritten | patternmatcher/utils.py:295-327 | `solve_linear_diop` as written: exactly the non-negative vectors whose as-written value (the recursion's total taken as `y`) is the total |
| Diophantine.AsWrittenAcceptsNonSolution | patternmatcher/utils.py:324-327 | for total 5 and coefficients `(1, 2, 2)` the source yields `(1, 1, 0)`, which is not a solution |
| Partitions.Range | patternmatcher/utils.py:20 | `range(lo, hi)` holds exactly the integers from `lo` up to `hi`, in ascending order |
| Partitions.ProductMembership | patternmatcher/utils.py:22 | `itertools.product` yields exactly the tuples whose components come from the corresponding lists |
| Partitions.ProductWithMembership | patternmatcher/utils.py:22 | one factor of the product: a tuple is produced exactly when its head comes from the first list and its tail from the rest |
| Partitions.SliceByParts | patternmatcher/utils.py:26-33 | slicing by lengths that add up to the length of `values` gives slices of those lengths, which concatenate back to `values` |
| Partitions.SliceByConcat | patternmatcher/utils.py:26-33 | every list of lists is the slicing of its concatenation by its own lengths, so slicing is onto |
| Partitions.Slices | patternmatcher/utils.py:26-33 | the slicing loop computes the consecutive slices of the given lengths |
| Partitions.ClippedRanges | patternmatcher/utils.py:17-20 | `counts[i]` holds exactly the lengths between the minimum and the upper limit clipped to what the other minima leave over |
| Partitions.PartitionsWithLimits | patternmatcher/utils.py:11-33 | `partitions_with_limits` yields every split of `values` into consecutive slices with lengths within the limits, and nothing else |
| IntegerPartitions.AsWrittenVisitsUnordered | patternmatcher/utils.py:46-51 | with the source's test, step H3 turns the partition `[2, 1]` of 3 into the list `[1, 2]`, which is not non-increasing |
| IntegerPartitions.FindJ | patternmatcher/utils.py:54-59 | step H4 finds the first position `j >= 2` whose part is below `a[0] - 1` (at worst the sentinel's position `m`), and the sum of the parts before it, less one |
| IntegerPartitions.IncreaseAndFill | patternmatcher/utils.py:62-75 | steps H5 and H6: `a[1..j]` all become `old a[j] + 1`, the parts after `j` are unchanged, and the array still holds a partition |
| IntegerPartitions.VisitAndTweak | patternmatcher/utils.py:41-51 | steps H2 and H3 visit partitions in strictly increasing colex order, miss none below the current one, and stop where the test leaves the tweak |
| IntegerPartitions.FindAndFill | patternmatcher/utils.py:54-75 | steps H4 to H6 either return after every partition was visited, or move the array strictly forward without skipping a partition |
| IntegerPartitions.PartitionsWithCount | patternmatcher/utils.py:35-75 | corrected `partitions_with_count(n, m)`: it visits only partitions of `n` into `m` parts, largest first; the first is `[n-m+1, 1, ..., 1]`; each is larger than the one before in colex order; and every partition is visited |
| IntegerPartitions.PartitionsWithCountAsWritten | patternmatcher/utils.py:35-75 | `partitions_with_count` as written, with `a[1] > a[0] - 1`: it visits `First(n, m)`, tweaks every list its test does not leave, and stops where H5 returns |
| IntegerPartitions.AsWrittenVisitsOneTwo | patternmatcher/utils.py:46 | as written, `partitions_with_count(3, 2)` visits `[1, 2]`, which is not a partition with its largest part first |
| IntegerPartitions.ColexTotal | patternmatcher/utils.py:35-75 | the colex order in which Algorithm H visits partitions is total on lists of one length |
| IntegerPartitions.FirstIsLeast | patternmatcher/utils.py:37-39 | the initial partition of step H1 is the least in colex order |
| IntegerPartitions.TweakNext | patternmatcher/utils.py:46-51 | step H3 moves to the very next partition in colex order |
| IntegerPartitions.FillNext | patternmatcher/utils.py:62-75 | steps H4 to H6 move to the very next partition in colex order |
| IntegerPartitions.LastHasNoNext | patternmatcher/utils.py:57-63 | when H4 runs into the sentinel, no partition comes after the current one |
| IntegerPartitions.CoversAll | patternmatcher/utils.py:62-63 | at the return of H5 every partition of `n` into `m` parts has been visited |
| IntegerPartitions.ProgressGrows | patternmatcher/utils.py:41-75 | colex growth of the array's partition is growth of its positional encoding, so the generator terminates |
| FixedSum.TightenBounds | patternmatcher/utils.py:96-105 | `realMins[i]` and `realMaxs[i]` are what the other components cannot absorb, or leave over; they are ordered, enclose the total, and admit the same vectors as the given bounds |
| FixedSum.TightOrdered | patternmatcher/utils.py:96-105 | the tightened bounds lie inside the given ones |
| FixedSum.TightExact | patternmatcher/utils.py:96-105 | tightening loses no vector |
| FixedSum.Distribute | patternmatcher/utils.py:115-120 | the filling loop hands the remaining units out from the right, each position up to its cap |
| FixedSum.AddFromRightLeast | patternmatcher/utils.py:115-120 | the vector filled from the right is the lexicographically least vector between the bounds with that sum |
| FixedSum.NextVector | patternmatcher/utils.py:122-146 | one round of the inner search finds the next admissible vector in lexicographic order, or reports that none is left |
| FixedSum.SearchSucceeds | patternmatcher/utils.py:131-143 | a successful raise-and-refill gives the least admissible vector after the current one |
| FixedSum.SearchFails | patternmatcher/utils.py:122-130 | when a position cannot be raised, no later vector agrees with the current one up to it |
| FixedSum.NextIsLeast | patternmatcher/utils.py:131-143 | the refilled vector comes before or equals every admissible vector after the current one |
| FixedSum.FirstIsLeast | patternmatcher/utils.py:109-120 | the first vector, the lower bounds filled from the right, is admissible and the least one |
| FixedSum.OneComponent | patternmatcher/utils.py:89-94 | with one component `[total]` is the only admissible vector |
| FixedSum.YieldLast | patternmatcher/utils.py:122-146 | when no vector follows, everything yielded is admissible and strictly increasing, and every admissible vector was yielded |
| FixedSum.MeasureIncreases | patternmatcher/utils.py:122-146 | a lexicographically later vector has a larger encoding, so the generator terminates |
| FixedSum.LexTotal | patternmatcher/utils.py:122-146 | lexicographic order on vectors of one length is total |
| FixedSum.EnumerateTight | patternmatcher/utils.py:107-146 | for two or more components with tightened bounds, the loops yield exactly the admissible vectors, strictly increasing |
| FixedSum.FixedSumVectorIter | patternmatcher/utils.py:77-146 | `fixed_sum_vector_iter` yields every vector between `min_vect` and `max_vect` with sum `total`, each once, in strictly increasing lexicographic order, and nothing else |
| MultisetPartitions.SortedListFacts | patternmatcher/utils.py:151 | `sorted(values)` is an ascending permutation of `values` |
| MultisetPartitions.CountOfMultiset | patternmatcher/utils.py:148-160 | the running count of a value is its multiplicity in the prefix read so far |
| MultisetPartitions.Count | patternmatcher/utils.py:148-160 | `_count` yields the distinct values in ascending order, each with its multiplicity; the counts add up to the length of `values` |
| CommutativePartitions.SpreadIsPartition | patternmatcher/utils.py:181-188 | the tuple built from one fixed-sum vector per distinct value, with list sizes in bounds, is a partition of the values |
| CommutativePartitions.TallyIsFixedSum | patternmatcher/utils.py:162-195 | counting a value over the lists of a partition gives a fixed-sum vector for its multiplicity |
| CommutativePartitions.PartitionIsSpread | patternmatcher/utils.py:181-188 | every partition is, up to the order inside its lists, the tuple built from its tally vectors |
| CommutativePartitions.YieldsSound | patternmatcher/utils.py:180-188 | everything yielded for the product of the vector lists is a partition of the values |
| CommutativePartitions.YieldsComplete | patternmatcher/utils.py:174-195 | every partition is yielded for the product of the vector lists, up to the order inside its lists |
| CommutativePartitions.BuildPartition | patternmatcher/utils.py:183-187 | list `j` receives `cs[j]` copies of each value, in the order of the values |
| CommutativePartitions.Emit | patternmatcher/utils.py:179-188 | a complete combination is yielded exactly when all list sizes are within `min_vect` and `max_vect` |
| CommutativePartitions.Start | patternmatcher/utils.py:168-173 | the odometer starts at the first vector of the first list, before every combination |
| CommutativePartitions.Backtrack | patternmatcher/utils.py:189-195 | a used-up iterator is dropped and the loop goes back one list; at the first list everything has been yielded |
| CommutativePartitions.Produce | patternmatcher/utils.py:179-189 | a complete combination is yielded if kept, and the odometer moves on |
| CommutativePartitions.Step | patternmatcher/utils.py:174-195 | one pass of the nested loops keeps the odometer invariant and strictly advances it, or finishes with every combination yielded |
| CommutativePartitions.Enumerate | patternmatcher/utils.py:174-195 | the nested loops yield, in order, the partition of every combination of vectors whose list sizes are within the bounds |
| CommutativePartitions.CommutativePartitionIter | patternmatcher/utils.py:162-195 | no values raise `IndexError`; when the lists cannot hold the least value, the first `__next__()` raises `StopIteration` inside the generator (`RuntimeError` for the caller on Python 3.7 and later, an empty generator before); otherwise exactly the partitions of the values into lists within the size bounds are yielded, up to order inside the lists |
| FlatTerms.LegacyFlatIter | patternmatcher/syntactic.py:114-128 | the legacy `_flatterm_iter` raises `TypeError` exactly on an expression kind it does not know, and otherwise gives the same flatterm as matchpy's |
| FlatTerms.LegacyOperandFlats | patternmatcher/syntactic.py:118-122 | each operand of an operation flattens, or raises, like the same operand on its own |
| FlatTerms.FlatBalanced | matchpy/matching/syntactic.py:154-168 | the flatterm of an operation is its head, the operands' flatterms in order, and `OPERATION_END`; every flatterm opens and closes operations in balance |
| FlatTerms.VariablesTransparent | matchpy/matching/syntactic.py:162-163 | variables are looked through: removing them changes neither whether an expression flattens nor its flatterm |
| FlatTerms.MergeNoAdjacent | matchpy/matching/syntactic.py:171-188 | after merging no two wildcards are adjacent, and the last atom is a wildcard exactly when it was before |
| FlatTerms.MergeKeepsSolid | matchpy/matching/syntactic.py:171-188 | merging keeps every atom that is not a wildcard, in order |
| FlatTerms.MergeIdentity | matchpy/matching/syntactic.py:171-188 | merging leaves a flatterm unchanged exactly when it has no adjacent wildcards, so merging is idempotent |
| FlatTerms.MergeCongruent | matchpy/matching/syntactic.py:141-151 | merging two merged flatterms equals merging their raw concatenation |
| FlatTerms.MergeConcat | matchpy/matching/syntactic.py:141-151 | merging the concatenation of merged flatterms equals merging the raw concatenation |
| FlatTerms.MergeDepth | matchpy/matching/syntactic.py:171-188 | merging keeps the nesting depth of the whole flatterm and of every prefix |
| FlatTerms.MergeBalanced | matchpy/matching/syntactic.py:171-188 | merging keeps a flatterm balanced |
| FlatTerms.MergeSyntactic | matchpy/matching/syntactic.py:126-133 | merging does not change whether a flatterm is syntactic |
| FlatTerms.CombinedWildcards | matchpy/matching/syntactic.py:171-188 | `_combined_wildcards_iter` replaces every run of adjacent wildcards by one merged wildcard |
| FlatTerms.NewFlatTerm | matchpy/matching/syntactic.py:96-99 | `FlatTerm(expression)` is the merged flatterm of the expression; it is balanced and has no adjacent wildcards |
| FlatTerms.Merged | matchpy/matching/syntactic.py:141-151 | `FlatTerm.merged` concatenates and merges across part boundaries; pre-merging the parts makes no difference |
| FlatTerms.IsSyntactic | matchpy/matching/syntactic.py:126-133 | a flatterm is syntactic exactly when it has no wildcard of variable size and no head of a commutative or associative operation |
| FlatTerms.Add | matchpy/matching/syntactic.py:113-118 | `FlatTerm.__add__`: the sum is syntactic iff both parts are, depths add up, and balanced parts give a balanced sum |
| Transitions.Get | matchpy/matching/syntactic.py:211-224 | `state[label]` finds a target exactly when the label is a key, and that target is the one stored for it |
| Transitions.PutFacts | matchpy/matching/syntactic.py:356-359 | after storing a transition, the label leads to the new target, other labels are unchanged, and the keys gain the label |
| Transitions.PutNew | matchpy/matching/syntactic.py:356-359 | a new label is appended at the end, as in Python's insertion-ordered dict |
| Transitions.SymbolWildcardKey | matchpy/matching/syntactic.py:45-47 | `_get_symbol_wildcard_label` returns a key that is a symbol class of the symbol, or `None` when no key is |
| Transitions.SymbolWildcardKeyFirst | matchpy/matching/syntactic.py:45-47 | no key before the one returned is a matching symbol class |
| Closures.EpsStep | matchpy/matching/syntactic.py:497-504 | one round of `_epsilon_closure` adds only epsilon targets not yet in the set |
| Closures.EpsClosureLeast | matchpy/matching/syntactic.py:493-511 | the epsilon closure contains its input, is closed under epsilon transitions, and lies inside every such closed superset |
| Closures.EpsilonClosure | matchpy/matching/syntactic.py:493-511 | `_epsilon_closure` computes the least epsilon-closed superset of its input (the legacy function at patternmatcher/syntactic.py:398-416 is the same code) |
| Closures.MoveSetAdd | matchpy/matching/syntactic.py:514-531 | the moves of a set are the union of the moves of its members |
| Closures.TargetSet | matchpy/matching/syntactic.py:514-531 | `_target_set` is the epsilon closure of the moves on the label of every member |
| Closures.StructuralMoves | matchpy/matching/syntactic.py:527 | on an operation head or `OPERATION_END` only transitions on that very label are followed |
| Closures.ClosureLevel | matchpy/matching/syntactic.py:493-511 | the closure of a set on one nesting level stays on that level |
| SubsetConstruction.DoneInv | matchpy/matching/syntactic.py:470-490 | when the queue is empty every DFA state has a transition to the target set of each label of its NFA states, and its payload is the union of theirs |
| SubsetConstruction.DfaBound | matchpy/matching/syntactic.py:475-488 | every set that gets a DFA state is a set of NFA states, so the construction terminates |
| SubsetConstruction.PayloadUnionAdd | matchpy/matching/syntactic.py:464-465 | the joined payload of a set grows by the payload of each added member |
| SubsetConstruction.TargetNonEmpty | matchpy/matching/syntactic.py:477-488 | a label of some NFA state of a set has a non-empty target set |
| SubsetConstruction.JoinPayloads | matchpy/matching/syntactic.py:462-465 | the loop of `_create_state` joins the payloads of all the NFA states of the set |
| SubsetConstruction.SetToList | matchpy/matching/syntactic.py:467 | `list(s)` holds each member of the set exactly once |
| DiscriminationNets.PyIndex | matchpy/matching/syntactic.py:417-420 | Python indexing: an index in range from either end gives a member, any other index raises `IndexError` |
| DiscriminationNets.LastFailState | matchpy/matching/syntactic.py:417-420 | `last_fail_state` raises `IndexError` exactly when the operand count is outside a list of fail states, and is `None` exactly when there is no fail state |
| DiscriminationNets.PayloadsGrow | matchpy/matching/syntactic.py:382-458 | building new states without payloads adds no pattern index |
| DiscriminationNets.FinalPayload | matchpy/matching/syntactic.py:456 | after `state.payload = [final_label]` the new automaton holds exactly the one pattern index |
| DiscriminationNets.MatchMove | matchpy/matching/syntactic.py:621-640 | a step of `_match` follows an existing transition; the `Wildcard` fallback on an operation head swallows that operation; only a non-terminal atom raises `TypeError` |
| DiscriminationNets.RunIndices | matchpy/matching/syntactic.py:609-643 | every index `_match` returns is in a payload of the net, so `match` can look it up in `_patterns` |
| DiscriminationNets.ChainRun | matchpy/matching/syntactic.py:362-373 | `_match` on the chain built for a terminal flatterm reaches its end and returns the pattern's index |
| DiscriminationNets.ProductWalk | matchpy/matching/syntactic.py:553-607 | walking a pattern's flatterm through a product with its chain never leaves the product and collects the pattern's index |
| DiscriminationNets.CombinedFinds | matchpy/matching/syntactic.py:349-352 | after combining the old root with a terminal chain, `_match` from the new root finds the chain's pattern |
| DiscriminationNets.DiscriminationNet.constructor | matchpy/matching/syntactic.py:315-324 | a new net has an empty root state and no patterns |
| DiscriminationNets.DiscriminationNet.CreateChildState | matchpy/matching/syntactic.py:356-359 | `_create_child_state` makes one new state, reached from `s` on `l`, one nesting step further down |
| DiscriminationNets.DiscriminationNet.GenerateStateChain | matchpy/matching/syntactic.py:376-379 | `_generate_state_chain` makes `count` new states in a row, joined on `l`, and returns the last one (`s` itself for a count of zero) |
| DiscriminationNets.DiscriminationNet.GenerateSyntacticNet | matchpy/matching/syntactic.py:362-373 | `_generate_syntactic_net` builds a chain of new states reading the flatterm's labels, whose last state alone carries `[final_label]` |
| DiscriminationNets.DiscriminationNet.CreateState | matchpy/matching/syntactic.py:461-467 | `_create_state` makes a new state without transitions whose payload lists each payload entry of the set's NFA states once |
| DiscriminationNets.DiscriminationNet.ConvertNfaToDfa | matchpy/matching/syntactic.py:470-490 | the subset construction gives each reachable set of NFA states a complete DFA state with the joined payload, changes no existing state, and returns the state of the root's closure |
| DiscriminationNets.DiscriminationNet.FixedFail | matchpy/matching/syntactic.py:421-432 | the fail states of a fixed-arity operation: `min + 1` new states joined on `Wildcard`, the last one leaving on `OPERATION_END` |
| DiscriminationNets.DiscriminationNet.StarFail | matchpy/matching/syntactic.py:433-437 | the fail state of a variable-arity operation leaves on `OPERATION_END` and loops on `Wildcard` |
| DiscriminationNets.DiscriminationNet.WildcardStep | matchpy/matching/syntactic.py:401-410 | a wildcard adds a chain of `min_count` states; a sequence wildcard loops on `Wildcard` and becomes the last wildcard of its level |
| DiscriminationNets.DiscriminationNet.MakeFail | matchpy/matching/syntactic.py:415-437 | fail states are made exactly when the level has a true last wildcard or fail state; the lookup of `last_fail_state` raises `IndexError` exactly when the operand count is out of range |
| DiscriminationNets.DiscriminationNet.OperationStep | matchpy/matching/syntactic.py:412-440 | an operation head adds a child state one level down and pushes a level onto the stacks, unless the fail state lookup raises `IndexError` |
| DiscriminationNets.DiscriminationNet.EpsilonStep | matchpy/matching/syntactic.py:446-454 | the epsilon transition goes to the level's last wildcard or else to the current fail state, and its lookup raises `IndexError` exactly in the stated case |
| DiscriminationNets.DiscriminationNet.TermStep | matchpy/matching/syntactic.py:395-444 | one round of `_generate_net` raises `IndexError` exactly at an outermost `OPERATION_END` or a failed fail-state lookup, and otherwise moves to the new state on the term |
| DiscriminationNets.DiscriminationNet.NetLoop | matchpy/matching/syntactic.py:393-454 | the loop of `_generate_net` keeps the net well formed and ends on a new state unless a round raised |
| DiscriminationNets.DiscriminationNet.FinishNet | matchpy/matching/syntactic.py:456-458 | the last state receives the payload, and the DFA of the new NFA is complete and carries exactly that pattern index |
| DiscriminationNets.DiscriminationNet.GenerateNet | matchpy/matching/syntactic.py:382-458 | `_generate_net` builds a closed, graded NFA whose only payload is the pattern index, and returns the root of its complete DFA |
| DiscriminationNets.DiscriminationNet.ProductLabel | matchpy/matching/syntactic.py:563-605 | one label of an item gives the item's product state a transition to the product state of the child, created and queued when its key is new |
| DiscriminationNets.DiscriminationNet.ProductTarget | matchpy/matching/syntactic.py:601-605 | the child's product state is the one stored for its key, or a new one carrying the child's payload, one nesting step from the parent |
| DiscriminationNets.DiscriminationNet.ProductNet | matchpy/matching/syntactic.py:553-607 | `_product_net` gives each key met one new state with a transition on each label of its item to the child's state; the payloads and levels follow the items, and no existing state changes |
| DiscriminationNets.DiscriminationNet.PatternNet | matchpy/matching/syntactic.py:344-348 | a syntactic or one-atom flatterm becomes a chain; anything else becomes the automaton of `_generate_net`, which may raise `IndexError` |
| DiscriminationNets.DiscriminationNet.CombineRoot | matchpy/matching/syntactic.py:349-352 | the root becomes the product of the old root with the new net, or the new net itself when the old root has no transition |
| DiscriminationNets.DiscriminationNet.Add | matchpy/matching/syntactic.py:326-353 | `add` appends the pattern and its label, returns its index, builds its net with that index as payload and combines it into the root; a terminal syntactic pattern is then found from the root |
| DiscriminationNets.DiscriminationNet.Match | matchpy/matching/syntactic.py:609-643 | `_match` is the walk of the subject through the net from the root, and every index it returns names a stored pattern |
| DiscriminationNets.MatchAfterAdd | matchpy/matching/syntactic.py:326-353 | after adding a terminal syntactic pattern to any net, `_match(pattern, collect=True)` returns a list that holds its index |
| DiscriminationNets.MatchOwnPattern | matchpy/matching/syntactic.py:609-643 | a terminal syntactic pattern added to a new net matches itself: `_match` returns `[0]` |
| ProductNets.ItemLabels | matchpy/matching/syntactic.py:277-296 | `labels` holds the keys of each state that does not sit on a wildcard, plus `Wildcard` when one sits, plus `OPERATION_END` when the other net has failed, and nothing else |
| ProductNets.NextLevel | matchpy/matching/syntactic.py:534-550 | `_get_next_state` follows the label when it is a key; otherwise it falls back to `Wildcard`, staying on the level for an operation head; any state reached lies one nesting step `Delta(l)` further |
| ProductNets.KeyUnique | matchpy/matching/syntactic.py:247-256 | two items the product meets with the same key are the same item, so the key identifies the product state |
| ProductNets.ChildPayload | matchpy/matching/syntactic.py:566-596 | the payload of a child's product state lists pattern indices of the nets, including all of both states' when neither sits on a wildcard |
| ProductNets.PResult | matchpy/matching/syntactic.py:553-607 | once the queue is empty every product state is complete and lies on the level of its item |
| ProductNets.PBound | matchpy/matching/syntactic.py:558-605 | the keys that get product states lie in a finite space, so the construction terminates |
| SequenceMatchers.CheckWildcardAndGetName | matchpy/matching/syntactic.py:771-780 | an operand is accepted exactly when it is a star wildcard, directly or under one variable; the name is the variable's, and the operand flattens to one star wildcard |
| SequenceMatchers.CanMatch | matchpy/matching/syntactic.py:783-805 | `can_match` holds exactly for non-commutative operations with at least three operands and star wildcards at both ends |
| SequenceMatchers.CanMatchNotSyntactic | matchpy/matching/syntactic.py:762-766 | a pattern the sequence matcher accepts is never syntactic, which is why only its middle operands go into the net |
| SequenceMatchers.SequenceMatcher.constructor | matchpy/matching/syntactic.py:718-728 | a new sequence matcher has no patterns, no operation and an empty net |
| SequenceMatchers.SequenceMatcher.Add | matchpy/matching/syntactic.py:730-768 | the first pattern fixes the operation; `TypeError` is raised exactly for a non-operation, a commutative first operation or a different operation; `ValueError` for a wrong shape; an accepted pattern is stored with its end names, and its merged middle flatterm goes into the net under its index |
| SequenceMatchers.SequenceMatcher.Store | matchpy/matching/syntactic.py:759-768 | an accepted pattern is stored with its end names, and its merged middle flatterm goes into the net with the pattern's index as label |
| LegacyNets.LegacyLabels | patternmatcher/syntactic.py:296-311 | the legacy chain reads the labels of matchpy's chain for the flatterm with its last atom raised to a list transition |
| LegacyNets.LegacyChainTerminal | patternmatcher/syntactic.py:296-311 | for a terminal flatterm the legacy chain reads exactly the flatterm |
| LegacyNets.LRunIndices | patternmatcher/syntactic.py:532-566 | every index the legacy `match` returns is in a list of the net |
| LegacyNets.LChainRun | patternmatcher/syntactic.py:532-566 | the legacy `match` on a chain's own terminal flatterm reaches the list at its end |
| LegacyNets.ChainToRun | patternmatcher/syntactic.py:532-566 | a chain leading to a list returns that list's index for its own terminal flatterm |
| LegacyNets.FlatTermEnds | patternmatcher/syntactic.py:366-367 | a flatterm is one atom or ends in `OPERATION_END`, so the legacy assert on the last atom only fires on one-atom wildcards |
| LegacyNets.FlatTermOpen | patternmatcher/syntactic.py:356-358 | no prefix of a flatterm without its last atom closes more operations than it opened, so its `IndexError` path cannot occur |
| LegacyNets.LTarget | patternmatcher/syntactic.py:385-393 | the DFA target on a label is the list when a member's transition hits it, or else the DFA state of the target set, created and queued when new |
| LegacyNets.LConvertNfaToDfa | patternmatcher/syntactic.py:372-395 | the legacy subset construction gives each reachable set a complete DFA state without payload, keeps the lists as lists, and changes no existing state |
| LegacyNets.LMakeFail | patternmatcher/syntactic.py:347-354 | the legacy fail state is made exactly when the level has a true last wildcard or fail state; it leads back on `OPERATION_END` and loops on `Wildcard` |
| LegacyNets.LFinishNet | patternmatcher/syntactic.py:366-369 | the last atom leads to a new list `[final_label]`, and the DFA of the NFA is complete |
| LegacyNets.LGenerateNet | patternmatcher/syntactic.py:320-369 | the legacy `_generate_net` raises `IndexError` exactly when a prefix closes too much, fails its assert exactly when the last atom is a wildcard, and otherwise builds a complete DFA leading to one new list |
| LegacyNets.LegacyNet.constructor | patternmatcher/syntactic.py:271-272 | a new legacy net has an empty root state and no lists |
| LegacyNets.LegacyNet.GenerateSyntacticNet | patternmatcher/syntactic.py:296-311 | the legacy `_generate_syntactic_net` builds a chain of new states whose last transition leads to a new list `[final_label]` |
| LegacyNets.LegacyNet.ProductRoot | patternmatcher/syntactic.py:284-285 | the root becomes the product of the old root and the new net, unless `labels` raises `AttributeError`, which leaves the root unchanged |
| LegacyNets.LegacyNet.CombineRoot | patternmatcher/syntactic.py:283-287 | the root becomes the new net while the old root has no transition, and otherwise the product as `ProductRoot` says |
| LegacyNets.LegacyNet.PatternNet | patternmatcher/syntactic.py:279-282 | a syntactic or one-atom flatterm becomes a chain to a new list; any other becomes the automaton, which raises nothing for the flatterm of an expression |
| LegacyNets.LegacyNet.AutomatonNet | patternmatcher/syntactic.py:282 | the automaton of `_generate_net` for a flatterm that ends in `OPERATION_END` |
| LegacyNets.LegacyNet.Add | patternmatcher/syntactic.py:274-287 | the legacy `add` raises `TypeError` exactly for an unknown expression kind; it stores the final label, or the pattern when none is given, and a syntactic pattern's chain leads to its index |
| LegacyNets.LegacyNet.AddFlat | patternmatcher/syntactic.py:279-287 | once the flatterm is known, `add` raises no `TypeError`; the new net is combined into the root, or `AttributeError` leaves the root as it was |
| LegacyNets.LegacyNet.Match | patternmatcher/syntactic.py:532-566 | the legacy `match` is the walk through the net from the root, and every index it returns names a stored final label |
| LegacyNets.LegacyMatchOwnPattern | patternmatcher/syntactic.py:532-566 | a syntactic pattern added to a new legacy net matches its own flatterm and returns `[0]` |
| LegacyProducts.ListChild | patternmatcher/syntactic.py:518-528 | a child without a product state is a pair of lists on the child's level, not sitting on a wildcard |
| LegacyProducts.LPResult | patternmatcher/syntactic.py:462-530 | once the queue is empty every legacy product state is complete, raised no `AttributeError` and lies on its item's level |
| LegacyProducts.LPCrashed | patternmatcher/syntactic.py:243-246 | an item that raises `AttributeError` in `labels` is recorded under its key |
| LegacyProducts.LPRootItem | patternmatcher/syntactic.py:463-469 | the item stored under the key of two states at depth 0 is the item of those two states |
| LegacyProductNets.LPStart | patternmatcher/syntactic.py:463-465 | the legacy product starts with one new state for the item of the two roots, alone in the queue |
| LegacyProductNets.LProductNet | patternmatcher/syntactic.py:462-530 | the legacy `_product_net` gives each key met a state with a transition on each label to the child's state or to a new list joining the child's lists; it fails exactly when `labels` raises `AttributeError` |
| LegacySubsets.NoListInTarget | patternmatcher/syntactic.py:419-440 | without a direct transition to the list, the target set holds no list |
| LegacySubsets.LegacyTargetSet | patternmatcher/syntactic.py:419-440 | the legacy `_target_set` returns the list exactly when a member's transition on the label hits it, and otherwise the epsilon-closed moves |
| LegacySubsets.LDoneInv | patternmatcher/syntactic.py:372-395 | once the queue is empty every legacy DFA state is complete and has no payload |
| LegacySubsets.LDfaBound | patternmatcher/syntactic.py:377-393 | the legacy DFA has at most as many states as there are sets of NFA states |

## Left out

- Diophantine.BaseSolutionLinear: positive coefficients only. For zero or negative coefficients the walk need not stop, but the source still returns at once when the normalised `c` is `0` (it yields `(0, 0)`; utils.py:271-272) or not a multiple of `gcd(a, b)` (it yields nothing; 277-278). Those early returns for other signs are not modelled.
- Diophantine.SolveLinearDiop: for two or more coefficients, only all-positive coefficients are modelled (see `BaseSolutionLinear`). For one coefficient it requires `c != 0`, because the source's `total % 0` raises `ZeroDivisionError`.
- Diophantine.SolveLinearDiopAsWritten: the same restrictions as `SolveLinearDiop`.
- Diophantine.SolutionsOfCoprime, Diophantine.WalkRight, Diophantine.WalkLeft: positive coefficients only, as for `BaseSolutionLinear`.
- Partitions.PartitionsWithLimits: requires non-negative minimum limits. A negative minimum would make Python slice from the end of the list.
- IntegerPartitions.PartitionsWithCount: requires `2 <= m <= n`. For `m < 2` the source overwrites its sentinel. For `n < m` its first part is not positive.
- IntegerPartitions.PartitionsWithCountAsWritten: the same restriction as `PartitionsWithCount`.
- FixedSum.FixedSumVectorIter: bounds of `math.inf` are not modelled, so the test at utils.py:103 always holds. The two asserts at utils.py:78-79 become the precondition.
- MultisetPartitions.Count: values are integers. Arbitrary comparable values of a type `T` are not modelled.
- CommutativePartitions.CommutativePartitionIter: values are integers. The length and non-negativity asserts of the inner `fixed_sum_vector_iter` become the precondition.
- FlatTerms.FlatIter: for an expression kind it does not know, matchpy's `_flatterm_iter` fails an assert (matchpy/matching/syntactic.py:168). That path is not modelled: matchpy's operations require `Supported`. The legacy `TypeError` is modelled.
- SequenceMatchers.SequenceMatcher.Add: the operation test is exact `OpType` equality instead of `isinstance`. A pattern whose operation is a subclass of the first pattern's operation is refused with `TypeError` here but accepted by the source.
- DiscriminationNets.DiscriminationNet.Add: takes the pattern as a flatterm only. `is_syntactic` of the flatterm stands for that of the expression, and an expression argument is first flattened with `FlatTerms.NewFlatTerm`.
- DiscriminationNets.DiscriminationNet.Match: proved to find a pattern again only for terminal syntactic patterns (`MatchAfterAdd`). What a net with non-syntactic patterns matches is stated only as the walk `Run`.
- LegacyNets.LegacyNet.Add: the branch at patternmatcher/syntactic.py:279 asks the expression's `is_syntactic`. The model asks `IsSyntactic` of its flatterm instead.
- LegacyNets.LegacyNet.Match: proved to find a pattern again only when it was added to a new net (`LegacyMatchOwnPattern`). A match after a product of several adds is not stated.
- The class counter `_State._id`, shared by all nets, becomes a counter `nextId` per net. Ids are only compared within one net.
- `for x in set` in `_convert_nfa_to_dfa`, `_target_set` and `_create_state` visits the members in an arbitrary order, chosen with `:|`. The properties hold for every order.
- `DiscriminationNet.match` (matchpy/matching/syntactic.py:645-662) is not modelled: it builds substitutions with the one-to-one matcher in other modules, and checks constraints. Also not modelled: `SequenceMatcher.match`, `as_graph`, `__str__`/`__repr__`, `get_lambda_source`, `isidentifier` and `match_repr_str`. They are output, or rely on code outside this model.
- The legacy `_epsilon_closure` and `_get_next_state` are the same code as matchpy's. The model uses `Closures.EpsilonClosure` and `ProductNets.NextState` for both.

## Findings

| source | as written | input that shows it | evidently intended | confidence | as-written member | corrected member |
|---|---|---|---|---|---|---|
| patternmatcher/utils.py:46 | step H2 tests `a[1] > a[0] - 1` | `partitions_with_count(3, 2)` visits `[2, 1]` and then `[1, 2]` | Knuth's test `a[1] >= a[0] - 1`, which stops at `[2, 1]` | not executed | IntegerPartitions.AsWrittenVisitsOneTwo | IntegerPartitions.PartitionsWithCount |
| patternmatcher/utils.py:324-327 | the recursive call solves the remaining coefficients for total `y` | `solve_linear_diop(5, 1, 2, 2)` yields `(1, 1, 0)`, whose value is 3 | solve them for total `remainder_gcd * y` | not executed | Diophantine.AsWrittenAcceptsNonSolution | Diophantine.SolveLinearDiop |
| patternmatcher/utils.py:247-253 | the recursion returns the `d` it reaches with Python's floor `%`, which follows the sign of the divisor | `extended_euclid(4, -6)` returns `d == -2` | `d == gcd(a, b)`, which the docstring at 240 promises and which is never negative | not executed | MathUtils.AsWrittenNegativeGcd | MathUtils.ExtendedGcd |
