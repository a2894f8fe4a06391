# Verified model of the SCRAM analysis core

SCRAM turns a fault tree into a propositional graph, simplifies the graph, compiles it into a
reduced ordered binary decision diagram (BDD) with complement edges, and computes probabilities
and importance factors on that diagram. This project models these steps in Dafny and proves what
they keep and what they compute. `dafny verify dfyconfig.toml` checks everything.

Names, branches and constants follow the source. Indices are integers, probabilities are `real`
numbers, hash functions and growth policies are arbitrary, and random draws and loop lengths are
inputs. Objects that the source changes in place are classes: the tables, the BDD, the converter,
the analyzers, the graph under rewriting, the translator, the common cause group, the event-tree
collector, the cycle search and the generator. The gates of a graph are rows of a map that the
graph object reassigns, and the fields of BDD vertices that change (mark, probability, factor) are
maps from ids, so that a vertex itself is a value.

## Parts

- **BDD engine.** `Vertices` (diagrams, their meaning, canonicity), `Tables` (unique table and
  compute cache), `Bdd` (vertex creation, memoised Apply, vertex death), `Graphs` (normalised
  graphs with modules), `Conversion` (use-counted memoisation), `Construction` (the finished BDD
  and its meaning through modules).
- **Quantification.** `Expectation` (weighted sums and independence), `Diagrams` (probability of
  diagrams with modules), `Importance`, `Analyzers` (the marking calculations), `Factors`,
  `Approximations`, `Histogram`.
- **Graph rewriting.** `Connectives` and `Laws` (what adding an argument means), `Links` (the link
  invariant), `Values` (functions of gates), `Measures`, `Joining` and `Progress` (the removal of
  pass-through gates step by step), `Separation` and `Deviations` (when a step goes wrong),
  `Coalescing`, `Rewriting` (the operations).
- **Graph construction.** `Formulas`, `Meanings`, `Translation`, `Substitutions`, and
  `Preprocessing` (from the fault tree to the graph without pass-through gates).
- **Models around it.** `Combinations` and `CommonCause`; `Cycles`, `EventTrees`,
  `Walks`, `Routes` and `WalkRoutes` (the walk, and what it finds), `EventTreeAnalysis`, `Parts`
  (what the static checks mean), `Cloning`; `FaultTrees` and `Generator`.
- `Indices`, `Sets`, `Reals` and `Options` hold shared definitions.

## Where the code and its comments differ

- `src/pdag.cc:367-372` announces `@(2, [x, x, z]) = x`, erases `x` and keeps `z`; the test
  `DuplicateArgAtleastToNull` in `tests/pdag_tests.cc` expects what the code does. Both rules are
  modelled, as a parameter of the graph: `AsWritten` for the code and `AsDocumented` for the
  comment. With the documented rule, the removal of pass-through gates keeps all functions of all
  graphs. As the code is written, `Laws.AddArgumentExactly` shows that this is the only case in
  which adding an argument without new gates changes the meaning, `Deviations.StepExactly` says
  exactly which steps of a run keep all functions, and `Deviations.PairChanges` gives a graph of
  two gates whose function changes: 2/3 over two variables and a gate that passes one of them
  through, which the loader makes of any gate whose formula names an event
  (`src/initializer.cc:687-688`). Every run returns the list of its steps, and keeps all functions
  if none of them goes wrong. A condition that can be checked before excludes it: each K/N gate
  has no pass-through gates below it, or arguments that reach no nodes in common.
- `src/event.cc:208-214` accepts a cardinality over one argument. If it allows only one number of
  true arguments, `src/pdag.cc:680-690` makes an OR gate with one argument of it, which the
  removal of pass-through gates does not expect. `Substitutions.ConstructPdag` says that these are
  the only formulas that leave a gate with too few arguments.
- `src/ccf_group.cc:151` and `src/ccf_group.cc:179` assert at least two levels and at least two
  events for each member. An alpha-factor group that has only the factor of level 1 is valid and
  has one of each: `CommonCause.SingleAlphaFactor`. There are no other such groups.
- `src/importance_analysis.cc:73-84` computes the importance of the root vertex and leaves out the
  complement of the root. `Importance.SignOfImportance` says exactly when this is the importance
  of the root function, and `Factors.FactorsRight` when the factors made of it are right.
- `src/importance_analysis.cc:97-100` assumes that the order of a module is greater than those of
  its variables. The proofs use the stronger fact that the orders of a module are a contiguous
  block that ends at the module.
- `src/probability_analysis.cc:107-108` counts a flat segment that lies on the bound between two
  buckets in both. `Histogram.HistogramConserves` says exactly when the histogram sums to 1.
- `src/ccf_group.cc:250-274` divides by a sum that is 0 if all alpha factors are 0. The results
  for that model are for groups with some positive factor.

## Model

| member | source | states |
|---|---|---|
| Vertices.Canonicity | src/bdd.cc:91-104 | For any two functions over a reduced store (ordered, no redundant vertex, one vertex for each index, high and signed low): they agree on all assignments if and only if complement bits and vertices are the same |
| Vertices.AllTrueIsTrue | src/bdd.h:327-394 | Every vertex without its complement bit is true when all variables are true, which is what makes the complement bit of a function unique |
| Vertices.Cofactors | src/bdd.h:327-394 | Above an ordered vertex, setting its variable selects the high child, and clearing it selects the low child with the complement edge |
| Tables.UniqueTable.FindOrAdd | src/bdd.h:450-473 | Returns the slot of the live vertex with the key whenever one exists, and an empty slot only if none does; the recorded size stays the number of stored entries and every live vertex stays stored |
| Tables.UniqueTable.Assign | src/bdd.cc:91-104 | Filling the slot found for a new vertex stores that vertex beside all live ones |
| Tables.UniqueTable.Rehash | src/bdd.h:480-505 | Moves every live vertex to the bucket of its hash and drops expired entries only |
| Tables.CacheTable.Find | src/bdd.h:623-629 | Answers only with the value last emplaced under exactly this key since the last clear, and answers nothing exactly when no entry has the key |
| Tables.CacheTable.Emplace | src/bdd.h:642-655 | Records the value under the key, possibly overwriting another key, and keeps every answer truthful |
| Tables.CacheTable.Rehash | src/bdd.h:660-675 | Growing loses entries at most and falsifies none |
| Tables.CacheTable.Clear | src/bdd.h:592-598 | After clearing no answer is given |
| BddEngine.Bdd.FindOrAddVertex | src/bdd.cc:91-133 | Yields the vertex with the index, children and complement edge; ids are never used twice, and the store stays ordered, reduced and unique; it adds nothing but that vertex |
| BddEngine.Bdd.AddModule | src/bdd.cc:180-181 | A module function is recorded under its proxy index once, before proxies can be made |
| BddEngine.Bdd.Collect | src/bdd.h:79-141 | Any vertices to which nothing refers may die; table entries of the dead stay harmless |
| BddEngine.Bdd.ClearTables | src/bdd.h:946-950 | Both caches forget everything and the store stays as it is |
| BddEngine.KeyMeaning | src/bdd.cc:187-199 | The cache key of two signed ids determines both functions up to their order, whatever has died since |
| BddEngine.ComputesCommutes | src/bdd.cc:187-199 | The order of the arguments makes no difference to what a cached result means |
| BddEngine.Bdd.ApplyAnd | src/bdd.cc:201-230 | The result is the conjunction of both arguments for every assignment, whatever the cache has lost, kept or overwritten; the store stays ordered and reduced |
| BddEngine.Bdd.ApplyOr | src/bdd.cc:232-261 | The same for the disjunction |
| BddEngine.Bdd.ApplyIte | src/bdd.cc:263-296 | Shannon expansion on the earlier root: the new vertex computes the connective on both cofactors and is reduced |
| BddEngine.Join | src/bdd.cc:277-296 | Moving the complement of the high branch to the result keeps the meaning and makes equal branches detectable |
| BddEngine.Split | src/bdd.cc:264-276 | A connective of two functions on both values of a variable is the connective of the cofactors |
| BddEngine.Bdd.Apply | src/bdd.cc:298-307 | Dispatch by connective computes that connective |
| BddEngine.Bdd.CalculateConsensus | src/bdd.cc:309-314 | The result holds exactly where the function holds for both values of its root variable |
| Conversion.Converter.ConvertGraph | src/bdd.cc:135-185 | The function of a gate, proxies standing for modules, equals the gate function for every assignment; each use is counted against the parents of the gate |
| Conversion.Converter.FoldArguments | src/bdd.cc:166-178 | Folding the sorted arguments with the connective gives the connective of all of them |
| Conversion.Converter.Proxy | src/bdd.cc:156-165 | A module argument becomes a proxy vertex whose recorded function is that of the module gate |
| Conversion.Converter.ConvertVariable | src/bdd.cc:150-155 | A variable argument becomes a vertex with its index and order, recorded once |
| Conversion.Enter | src/bdd.cc:140-148 | A gate that is not in the memo when it is reached has never been converted |
| Conversion.Reuse | src/bdd.cc:140-148 | The use count of a memo entry never exceeds the number of parents, and the last use removes the entry |
| Conversion.Leave | src/bdd.cc:182-184 | A finished gate enters the memo with one use exactly if it has further parents |
| Conversion.AllConverted | src/bdd.cc:61-65 | At the end every gate has been converted exactly once and the memo is empty |
| Conversion.CombinedArgs | src/bdd.cc:166-178 | If every argument function represents its signed argument, their combination has the value of the gate |
| Construction.BuildBdd | src/bdd.cc:41-80 | For every graph with shared gates, signed arguments and modules, the finished BDD expanded through its modules equals the graph function with the graph complement |
| Construction.BuildTrivialBdd | src/bdd.cc:47-60 | A graph that is one literal or a constant becomes the function of that literal or constant, in a valid store |
| Construction.ExpandProxied | src/bdd.cc:156-165 | Expanding proxies through the recorded modules undoes the replacement of module gates by proxies |
| Construction.ProbabilityOfGraph | src/probability_analysis.cc:233-244 | End to end: the probability computed on the BDD of a graph is the sum over all assignments of weight times the truth value of the graph, and lies in [0,1] |
| Expectation.SumIsExpectation | src/probability_analysis.cc:267-291 | The expectation by conditioning on one variable after the other equals the sum over all assignments of weight times value |
| Expectation.ExpectChoice | src/probability_analysis.cc:267-291 | Choosing between two functions by an event of disjoint variables multiplies out by independence |
| Diagrams.ExactProbability | src/probability_analysis.cc:267-291 | The recursive probability of a diagram with modules and complement edges is the expectation of its expanded function, modules being disjoint blocks of variables |
| Diagrams.ProbBounds | src/probability_analysis.cc:43 | With variable probabilities in [0,1], every vertex probability is in [0,1] |
| Analyzers.ProbabilityAnalyzer.CalculateProbability | src/probability_analysis.cc:267-291 | Returns the probability of the vertex under the given variable probabilities; only vertices visited now get the new mark and a value, and no stale value is read |
| Analyzers.ProbabilityAnalyzer.CalculateTotalProbability | src/probability_analysis.cc:233-244 | Flipping the mark makes every call a fresh calculation: the result is exact for the current probabilities, complement included, and every vertex then holds its own probability |
| Importance.TotalProbability | src/importance_analysis.cc:52-57 | Conditioning on a variable: the probability is the average of those with the variable certain and impossible, through nested modules |
| Importance.MifAfterVariable | src/importance_analysis.cc:94-111 | A vertex later than the variable has importance through its module only: (high - low) times the importance of the module |
| Importance.MifAtVariable | src/importance_analysis.cc:112-118 | At the vertex of the variable the importance is high minus low |
| Importance.MifBeforeVariable | src/importance_analysis.cc:119-136 | At an earlier vertex the importance is the average of those of its branches, a complement edge changing the sign |
| Importance.OutsideBlock | src/importance_analysis.cc:97-100 | A variable outside the contiguous block of orders of a diagram has no influence on it |
| Analyzers.ImportanceAnalyzer.CalculateVertexMif | src/importance_analysis.cc:86-138 | The memoised recursion computes P(f given x) - P(f given not x) of the vertex function for any variable, through modules and complement edges |
| Analyzers.ImportanceAnalyzer.CalculateMif | src/importance_analysis.cc:73-84 | The importance of the root vertex function, with all marks restored and all stored probabilities unchanged |
| Analyzers.ImportanceAnalyzer.ClearMarks | src/bdd.cc:331-344 | Clears the connected marked vertices and no others |
| Analyzers.Restored | src/bdd.cc:331-344 | Clearing from the root restores every mark that the calculation has set |
| Analyzers.ImportanceAnalyzer.RetrieveProbability | src/importance_analysis.cc:140-145 | The stored value is the probability of the vertex, and 1 for the terminal |
| Analyzers.ConditioningAnalyzer.CalculateMif | src/importance_analysis.h:145-157 | Two total probabilities with the variable set to 1 and to 0 give P(f given x) - P(f given not x) of the whole function, and the probability of the variable is put back |
| Importance.ModuleMif | src/importance_analysis.cc:107-110 | The importance of a complemented function is that of the function with the other sign |
| Importance.SignOfImportance | src/importance_analysis.cc:73-84 | The value computed from the root vertex is the importance of the root function for all probabilities if and only if the root is not complemented or the variable is irrelevant to it |
| Importance.NoImportance | src/importance_analysis.cc:73-84 | An irrelevant variable has no importance |
| Importance.SomeImportance | src/importance_analysis.cc:73-84 | Where a variable matters, some probabilities give it an importance other than 0 |
| Factors.CalculateFactors | src/importance_analysis.cc:48-57 | For P(f) as the average of P(f given x) and P(f given not x): RAW is P(f given x)/P(f), RRW is P(f)/P(f given not x), DIF is p P(f given x)/P(f) and CIF is p times importance over P(f), with 0 for a zero denominator; if the importance has the sign of a complemented root, CIF is negated, RAW is 2 - P(f given x)/P(f), and DIF and RRW follow |
| Factors.AnalyzeEvent | src/importance_analysis.cc:46-58 | The record of one variable has these meanings in the conditional probabilities of the root function, whether the root is complemented or not |
| Factors.Analyze | src/importance_analysis.cc:35-62 | A basic event has a record if and only if its index is in [2, 2+n) and some product has a literal of it; the records are in increasing order of indices, each with its meanings and the number of positions of its literals |
| Factors.Occurrences | src/importance_analysis.cc:64-71 | One pass over the products counts for each variable the positions (product, place) that hold it in either sign |
| Factors.FactorsRight | src/importance_analysis.cc:48-57 | For a complemented root, CIF and RRW are right if and only if p times importance is 0, RAW if and only if (1 - p) times importance is 0, and DIF if and only if the product of both weights and the importance is 0 |
| Approximations.CalculateCutSet | src/probability_analysis.cc:159-168 | The product of the probabilities of the members |
| Approximations.CalculateRareEvent | src/probability_analysis.cc:170-177 | The sum over cut sets, cut off at 1; with RareEventExactly, the lesser of 1 and the expected number of cut sets that fail |
| Approximations.CalculateMcub | src/probability_analysis.cc:179-186 | One minus the product of the complements of the cut sets; with McubExactly, the exact probability of cut sets without common variables |
| Approximations.PositiveCorrelation | src/probability_analysis.cc:179-186 | Decreasing events of independent variables are positively correlated |
| Approximations.CutIsProduct | src/probability_analysis.cc:159-168 | The probability that all members of a cut set occur is the product of their probabilities |
| Approximations.IntactAtLeastProduct | src/probability_analysis.cc:179-186 | The probability that no cut set fails is at least the product of the probabilities that each does not |
| Approximations.ApproximationOrder | src/probability_analysis.cc:159-186 | For any list of cut sets, exact union <= MCUB <= rare event <= 1 |
| Approximations.ExpectedFailures | src/probability_analysis.cc:170-177 | The sum of the probabilities of the cut sets is the expected number of those that fail |
| Approximations.RareEventExactly | src/probability_analysis.cc:170-177 | The rare-event approximation is the expected number of cut sets that fail, or 1 if that is greater |
| Approximations.McubExactly | src/probability_analysis.cc:179-186 | If no two cut sets share a variable, the min-cut upper bound is the probability that some cut set fails |
| Connectives.DeMorgan | src/pdag.cc:199-211 | Negating all arguments of a gate gives the dual connective, and for K/N the complement of (N-K+1)/N |
| Connectives.DuplicateVote | src/pdag.cc:360-366 | @(k, [x, x, y]) = (x and @(k-2, [y])) or @(k, [y]) for all k and n |
| Connectives.ComplementArgument | src/pdag.cc:415-447 | x and its complement together: AND and NOR are false, OR, NAND and XOR are true, and @(k, [x, not x, y]) = @(k-1, [y]) |
| Connectives.DuplicateArgument | src/pdag.cc:332-358 | What a duplicate does to the connectives other than K/N |
| Laws.ConstantLaw | src/pdag.cc:99-167 | For all connectives and both constants, the changed gate is the connective with the constant added |
| Laws.SplitLaw | src/pdag.cc:373-412 | The gates that replace a K/N gate with more than two arguments mean the connective with the duplicate added, in every valuation of the new gates |
| Laws.InsertLaw | src/pdag.h:544-561 | Fresh, duplicate, complement and constant arguments without new gates: the changed gate is the connective of the old arguments and the new one |
| Laws.AddArgumentExactly | src/pdag.cc:367-372 | That law holds in all valuations if and only if the argument is not a duplicate for a K/N gate with two arguments, or the rule is that of the comment |
| Laws.PairFails | src/pdag.cc:367-372 | For every such two-argument gate, a valuation in which the code and the connective differ |
| Connectives.DuplicateOfPair | src/pdag.cc:367-372 | A concrete instance: with the duplicated argument true and the other false, @(2, [x, x, z]) is true but the kept argument z is false |
| Connectives.DuplicateAlone | src/pdag.cc:367-372 | As the comment has it: @(2, [x, x, z]) means x |
| Laws.AddedLaw | src/pdag.h:544-561 | Whatever way an argument is added, with or without new gates, the gate means the connective of the old arguments and the new one unless it is the two-argument K/N duplicate |
| Laws.ConstantArgumentLaw | src/pdag.cc:279-285 | Removing an argument of known value keeps the gate value in all valuations where the node has that value |
| Laws.CoalesceLaw | src/pdag.cc:230-250 | Taking over the arguments of an argument gate of the same logic keeps the gate value |
| Laws.CoalesceConflict | src/pdag.cc:235-244 | If the taken argument meets its complement, the constant that is left has the old value of the gate |
| Joining.InsertCompletes | src/pdag.h:544-561 | A gate that lacks one argument is complete after one more: AND/OR/NAND/NOR at least 2, XOR 2, K/N n > k >= 2, NOT and NULL 1 |
| Joining.SplitCompletes | src/pdag.cc:373-412 | So are all gates that replace a K/N gate, and none of them is a pass-through gate |
| Links.SoundRelink | src/pdag.cc:43-46 | Changing the arguments of a gate together with its parent entries keeps the link invariant: a gate is a parent of a node if and only if the node is its argument |
| Rewriting.Pdag.constructor | src/pdag.cc:449-455 | The constant has index 1, the variables exactly the indices from 2 on |
| Rewriting.Pdag.AddArg | src/pdag.h:544-561 | Dispatches to the constant, duplicate, complement or fresh case; links, tidiness and acyclicity stay, and nothing but this gate and new gates changes |
| Rewriting.Pdag.AddConstantArg | src/pdag.cc:99-160 | The gate becomes what its connective is with the constant; other gates stay |
| Rewriting.Pdag.ProcessDuplicateArg | src/pdag.cc:332-358 | The duplicate case of all connectives, K/N by its own procedure |
| Rewriting.Pdag.ProcessAtleastGateDuplicateArg | src/pdag.cc:360-413 | Step by step cloning and transfer yields exactly the two or four gates of the decomposition, with links kept; with two arguments the duplicated one is erased as written, and the other one by the rule of the comment |
| Rewriting.Pdag.ProcessComplementArg | src/pdag.cc:415-447 | The complement case of all connectives |
| Rewriting.Pdag.Clone | src/pdag.cc:79-97 | A new gate with the same type and arguments and no parents, entered at all its arguments |
| Rewriting.Pdag.TransferArg | src/pdag.cc:169-186 | The argument leaves one gate and is added to the other |
| Rewriting.Pdag.ShareArg | src/pdag.cc:188-197 | The argument is added to the other gate and stays |
| Rewriting.Pdag.NegateArgs | src/pdag.cc:199-211 | All arguments are replaced with their complements, links kept |
| Rewriting.Pdag.NegateArg | src/pdag.cc:213-228 | One argument is replaced with its complement, links kept |
| Rewriting.Pdag.NegateNonCoherentGateArgs | src/pdag.h:610-624 | Exactly the arguments whose gates are NOT, NAND or NOR change sign; the gate keeps its value when the values of these gates are complemented |
| Coalescing.FlippedLaw | src/pdag.h:610-624 | Complementing arguments together with the values of their nodes keeps the value of any gate |
| Rewriting.Pdag.EraseArg | src/pdag.cc:287-305 | The argument and the parent entry disappear together |
| Rewriting.Pdag.EraseArgs | src/pdag.cc:307-320 | The gate leaves all its arguments and keeps none |
| Rewriting.Pdag.MakeConstant | src/pdag.cc:322-330 | The gate passes through the constant and nothing else |
| Rewriting.Pdag.SetType | src/pdag.cc:71-77 | Only the type changes, and a gate that becomes a pass-through gate is registered while registration is on |
| Rewriting.Pdag.ProcessConstantArg | src/pdag.cc:279-285 | The gate value is kept in all valuations in which the node has the given state |
| Rewriting.Pdag.CoalesceGate | src/pdag.cc:230-250 | The gate value is kept in all valuations in which the argument gate has its value, and the gate is complete |
| Rewriting.Pdag.JoinNullGate | src/pdag.cc:252-277 | The parent takes the argument of a pass-through gate with the sign carried over; functions of all gates stay unless the wrong argument is dropped, and the termination measure falls |
| Joining.JoinLaw | src/pdag.cc:252-277 | The parent means the same before and after the join, for every connective, unless the K/N deviation occurs |
| Joining.JoinKeepsValues | src/pdag.cc:252-277 | So the functions of all gates of the graph stay the same, gates cloned by K/N duplicates included, unless the K/N deviation occurs |
| Joining.JoinDecreases | src/pdag.cc:811-821 | Each join lowers (sum of 2^n over K/N gates, summed ranks of all arguments) lexicographically, also when gates are cloned |
| Values.Unique | src/pdag.h:763-781 | In an acyclic graph, values that satisfy every gate are the functions of the gates |
| Values.KeepsValues | src/pdag.cc:252-277 | If every old gate still holds in the values of the new graph, no function has changed |
| Rewriting.Pdag.PropagateNullGate | src/pdag.cc:811-821 | The gate loses all parents, no new pass-through gate keeps parents, and gates without parents get none; the returned steps are joins and removals that lead from the old graph to the new one, and all functions are kept if no step drops the wrong argument; terminates although cloning can add parents |
| Rewriting.Pdag.RemoveNullGates | src/pdag.cc:795-809 | Afterwards only the root can be a pass-through gate or a constant and all gates are complete; the returned steps lead from the old graph to the new one, and all functions are kept if no step drops the wrong argument, always with the rule of the comment, and in every graph that is separate beforehand |
| Rewriting.Pdag.IsTrivial | src/pdag.cc:759-793 | The function of the graph with its complement is kept under the same three conditions; the answer is yes only for a single variable or constant without complement, and otherwise no pass-through gate or constant is left |
| Progress.OnlyParent | src/pdag.cc:770-777 | A gate that is the only argument of the root has no other parents, so it can be the root |
| Separation.SeparateJoined | src/pdag.cc:811-821 | If each K/N gate has no pass-through gates below it or arguments that reach no nodes in common, a join neither splits a K/N gate nor drops the wrong argument, and the condition still holds afterwards |
| Separation.SeparateExactly | src/pdag.cc:811-821 | The bounds that the removal carries along exist if and only if the reachable nodes, computed from the graph alone, meet that condition |
| Deviations.StepExactly | src/pdag.cc:252-277 | One join as written keeps the functions of all gates if and only if it does not drop the wrong argument, or the dropped and the kept argument have the same function |
| Deviations.PairChanges | src/pdag.cc:367-372 | The removal of the one pass-through gate of a sound and complete graph with two gates changes the function of the root as written |
| Progress.RunTwice | src/pdag.cc:795-821 | What a run keeps composes: the steps of two runs together lead from the first graph to the last, and go wrong if and only if one of either does |
| Substitutions.GatherVariables | src/pdag.cc:504-539 | Every event that the construction looks up is registered, each basic event once, in the order in which it is met; no gate is gathered that is not below the formula, and no event that no gathered formula mentions or that has a common cause gate |
| Translation.Translator.ArgumentNode | src/pdag.cc:554-595 | The signed node of an argument has its value and its sign: the variable of a basic event without a common cause gate, the node of that gate otherwise, the gate of a gate, or a pass-through gate of its own for a house event |
| Formulas.EventMeaning | src/pdag.cc:524-539 | A basic event in a common cause table has the value of the gate that the table gives, any other one its own value, and gates and house events theirs |
| Translation.Translator.ConstructFormula | src/pdag.cc:597-637 | For all eleven connectives the new gate means the formula in every valuation of the finished gates; gates are constructed once |
| Translation.Translator.ConstructCore | src/pdag.cc:597-637 | The eight core connectives map to gates over all arguments |
| Translation.Translator.ConstructIff | src/pdag.cc:644-656 | Equivalence is the complement of XOR behind a pass-through gate |
| Translation.Translator.ConstructImply | src/pdag.cc:657-665 | Implication is OR with the first argument complemented |
| Translation.Translator.ConstructCardinality | src/pdag.cc:666-695 | Between min and max true arguments: min of n, and n - max of n complemented, degenerate K/N gates reduced |
| Translation.CardinalityCompletes | src/pdag.cc:680-690 | Both K/N gates have enough arguments after reduction if and only if the formula is not a cardinality over one argument with min equal to max |
| Meanings.CardinalityMeans | src/pdag.cc:666-695 | Both K/N gates together hold exactly when the number of true arguments is between the bounds |
| Meanings.GateMeans | src/pdag.cc:597-637 | A finished gate over distinct nodes that stand for the arguments means the formula |
| Substitutions.ConstructSubstitution | src/pdag.cc:701-714 | The gate means that the hypothesis implies the target, or is false if there is none |
| Substitutions.ApplySubstitutions | src/pdag.cc:469-483 | The application gate means the root together with all implications |
| Substitutions.ConstructPdag | src/pdag.cc:457-484 | The root of the graph has no parents and means the root formula conjoined with all declarative substitutions; the variables are exactly [2, 2+n), one for each basic event of the gathered formulas, none of which has a common cause gate; the gathered gates are those below the root and the substitutions; all gates have greater indices, all pass-through gates are registered, and all gates are complete if and only if no formula is a cardinality over one argument with min equal to max |
| Substitutions.FunctionOfGraph | src/pdag.cc:457-484 | So the Boolean function of the graph is that conjunction, for every assignment of the variables |
| Substitutions.SeenAreMet | src/pdag.cc:457-466 | The gathered gates are exactly those below the root and the substitutions, and so are the formulas that decide on completeness |
| Preprocessing.ValueOfKnown | src/pdag.cc:504-539 | The value of a formula depends only on the basic events that have been gathered |
| Preprocessing.AppliedComputes | src/pdag.cc:457-484 | For every set of true basic events, the graph at their variables has the value of the conjunction |
| Preprocessing.BuildGraph | src/pdag.cc:457-484 | The same once the table of gates is given up; then only the root has no parents |
| Preprocessing.RunPhaseOne | src/preprocessor.cc:320-329 | Unless the graph is a single variable or constant, no pass-through gates and no constants are left, no gate is registered, all gates are complete and only the root has no parents, as the sanity checks demand; the function of the graph is kept under the conditions of the removal |
| Preprocessing.Preprocess | src/preprocessor.cc:320-329 | End to end: for every fault tree, substitutions and set of true basic events, the graph after construction and removal has the value of the root formula conjoined with all substitutions, always with the rule of the comment, and as written if no step drops the wrong argument, as in graphs that are separate |
| Combinations.CalculateCombinationReciprocal | src/ccf_group.cc:211-222 | The loop yields 1 / C(n, k) |
| Combinations.SubsetsComplete | src/ccf_group.cc:155-175 | Every combination of k members is generated |
| Combinations.SubsetsDistinct | src/ccf_group.cc:155-175 | No combination is generated twice |
| Combinations.SubsetsAre | src/ccf_group.cc:155-175 | Every generated combination has k members of the group |
| CommonCause.LevelSum | src/ccf_group.cc:153-175 | A member fails in exactly C(n-1, k-1) of the events of k members |
| CommonCause.BetaProbabilities | src/ccf_group.cc:184-200 | Level 1 has (1 - beta) Q and level n beta Q, which distributes Q to each member |
| CommonCause.MglProbabilities | src/ccf_group.cc:226-248 | All events of level i together carry their product of factors |
| CommonCause.MglComplete | src/ccf_group.cc:226-248 | The fractions telescope to 1 for any number of factors |
| CommonCause.AlphaProbabilities | src/ccf_group.cc:250-274 | All events of level i together carry i times the factor over the weighted sum |
| CommonCause.AlphaComplete | src/ccf_group.cc:250-274 | These fractions sum to 1 whenever the weighted sum is not 0 |
| CommonCause.Conservation | src/ccf_group.cc:139-182 | For every model, group size and level: each member fails in the generated events with summed probability Q, and in at least one event of every level |
| CommonCause.CcfGroup.ApplyModel | src/ccf_group.cc:139-182 | Each set of members of a size of the model has exactly one event, and no other sets have any. Beta: the event of all members has beta Q, and those of one member (1 - beta) Q. MGL: of the failures of a member together with at least k - 2 others, factor k is the fraction of those with at least k - 1 others. Alpha: the events of k members are in proportion to factor k. The proxy of each member is the OR over exactly the events that contain it, their probabilities sum to Q, and there are at least two of them if and only if the model is not alpha-factor or has more than one factor |
| CommonCause.BetaMeaning | src/ccf_group.cc:184-200 | Over the generated events: beta Q for all members together, (1 - beta) Q for each alone |
| CommonCause.MglMeaning | src/ccf_group.cc:226-248 | Over the generated events: the probability that a member fails with at least k - 1 others is factor k times that with at least k - 2 others |
| CommonCause.AlphaMeaning | src/ccf_group.cc:250-274 | Over the generated events: the summed probability of the events of k members times the sum of the factors is factor k times that of all events |
| CommonCause.OnceInModel | src/ccf_group.cc:153-175 | The sets of members with events are exactly those of the sizes of the model, each once |
| CommonCause.SingleAlphaFactor | src/ccf_group.cc:150-180 | An alpha-factor group of two members with only the factor of level 1 passes validation, and its members have one event each |
| CommonCause.FirstLevelAlone | src/ccf_group.cc:150-180 | With level 1 alone, every member of any group has exactly one event |
| CommonCause.CcfGroup.AddMember | src/ccf_group.cc:54-67 | No members after the distribution or a factor, and no duplicates |
| CommonCause.CcfGroup.AddDistribution | src/ccf_group.cc:69-80 | Once, and for at least two members |
| CommonCause.CcfGroup.AddFactor | src/ccf_group.cc:82-115 | Which levels are accepted and where the factor is put, with gaps filled as missing; without a level, the one after the last, or first n, 2 or 1 by model |
| CommonCause.CcfGroup.Validate | src/ccf_group.cc:117-137 | Succeeds exactly if the distribution and a gapless list of factors are there and all are between 0 and 1 |
| CommonCause.WeightedPositive | src/ccf_group.cc:250-258 | The weighted sum of an alpha-factor group is positive exactly if some factor is |
| Histogram.Fraction | src/probability_analysis.cc:104-118 | The case analysis gives the time that a segment spends between two bounds, flat segments on a bound included |
| Histogram.TimeBetween | src/probability_analysis.cc:92-118 | The time counted for a segment is the length of the interval in which its linear course is between the bounds |
| Histogram.PartitionY | src/probability_analysis.cc:92-128 | Each bucket gets its share of the time of the curve |
| Histogram.FlatTime | src/probability_analysis.cc:107-108 | A flat segment is counted once, and twice on the bound between two buckets |
| Histogram.SlopedTime | src/probability_analysis.cc:104-118 | A rising or falling segment is counted with its whole time |
| Histogram.HistogramSigns | src/probability_analysis.cc:92-128 | No fraction is negative |
| Histogram.HistogramConserves | src/probability_analysis.cc:92-128 | For any curve within the buckets, the fractions sum to 1 if and only if no flat segment lies on the bound between two buckets, and to more otherwise |
| Histogram.Integrate | src/probability_analysis.cc:63-72 | The trapezoid rule |
| Histogram.AverageY | src/probability_analysis.cc:75-79 | The average times the whole time is the area under the curve, and it is between any bounds of the curve |
| Histogram.TrapezoidOfTwo | src/probability_analysis.cc:63-72 | The area under a segment is the mean of its two values times its time |
| Histogram.TrapezoidsSplit | src/probability_analysis.cc:63-72 | The area under a curve is the sum of those of both parts wherever it is split at a point |
| Histogram.RateTimesTime | src/probability_analysis.cc:148-153 | A rate times its time is the probability, and at time 0 the rate is 0 |
| Histogram.ComputeSil | src/probability_analysis.cc:132-157 | The averages of the probability and of its rate times the mission time are the areas under both curves, with their histograms; a single point is its own average, goes to the one bucket that contains it, and has no rate |
| Histogram.CalculateProbabilityOverTime | src/probability_analysis.cc:194-217 | The sampled times are strictly increasing from 0 to the mission time, all but the last a time step apart, each with the probability at that time |
| Cycles.Traversal.DetectCycle | src/cycle.h:130-147 | Either reports a path that returns to a marked node, or finishes the node and all that it leads to |
| Cycles.Traversal.ContinueConnector | src/cycle.h:149-161 | The same for all nodes behind a connector, in order, stopping at the first report |
| Cycles.CheckCycle | src/cycle.h:214-223 | Reports if and only if a cycle can be reached; the reported vector has equal front and back and is, reversed, a path of edges; otherwise everything reachable is permanently marked |
| Cycles.CheckGraph | src/cycle.h:214-223 | A search from all nodes passes if and only if the graph has no cycle |
| Cycles.ReportNode | src/cycle.h:134-139 | Nodes are added to the report until it is a whole cycle, and not beyond |
| EventTrees.CheckFunctionalEventOrder | src/initializer.cc:1435-1474 | Passes exactly if the next fork after each path has a later functional event |
| Parts.OrderedExactly | src/initializer.cc:1435-1474 | The check passes if and only if the event of every fork in the branch is earlier than that of the next fork on each path, found through named branches |
| EventTrees.CheckNext | src/initializer.cc:1436-1457 | The next fork is found through named branches |
| EventTrees.EnsureLinksOnlyInSequences | src/initializer.cc:1476-1502 | Passes exactly if no branch has a link |
| Parts.LinkFreeExactly | src/initializer.cc:1476-1502 | The check passes if and only if no instruction in the branch or its forks is a link, inside conditions and blocks too |
| EventTrees.CheckBranches | src/initializer.cc:1389-1397 | Passes if and only if the named branches of the tree have no cycle; then they have ranks |
| EventTrees.CheckLinks | src/initializer.cc:1414-1415 | Passes if and only if the links have no cycle through the initial states of their trees; then they have ranks |
| EventTreeAnalysis.HomogeneousChecker.VisitBranch | src/initializer.cc:1504-1557 | Passes exactly if formulas and expressions are not both collected below, through named branches and links |
| EventTreeAnalysis.EnsureHomogeneousEventTree | src/initializer.cc:1417-1428 | Passes exactly if every branch and the initial state of the tree can be walked and are homogeneous |
| EventTreeAnalysis.ValidateInitialization | src/initializer.cc:1382-1428 | If all checks pass, gates, rules, branches and links have no cycles and every tree is safe to walk; otherwise one of them does not hold |
| EventTrees.CheckedIsWalkable | src/initializer.cc:1399-1415 | From the passed checks: functional events strictly increase along every path, and links and named branches descend in rank |
| EventTreeAnalysis.SequenceCollector.WalkFork | src/event_tree_analysis.cc:217-229 | No functional event of the fork is set when it is entered, and the context is restored |
| EventTreeAnalysis.SequenceCollector.FollowLink | src/event_tree_analysis.cc:180-186 | The linked tree is walked without functional events, which are put back |
| EventTreeAnalysis.SequenceCollector.WalkBranch | src/event_tree_analysis.cc:231-237 | The walk ends, restores the context and finds the paths of the recursive definition, in order |
| EventTreeAnalysis.SequenceCollector.ExecuteOne | src/event_tree_analysis.cc:175-200 | Each instruction has its effect on the path: settings, expressions, formulas cloned under the settings so far, links, and conditions; WalkRoutes.WalkLists says what that comes to |
| WalkRoutes.WalkLists | src/event_tree_analysis.cc:168-246 | The found paths are exactly the routes to sequences, step by step over the model: one for each list of choices at forks and links, in the order of the choices, ending only in sequences in which no link was passed |
| WalkRoutes.CollectsNext | src/event_tree_analysis.cc:175-200 | Along a route, the expressions are those collected, in order, and each formula is paired with the last state set before it of every house event that was set, and no others |
| WalkRoutes.LinkLists | src/event_tree_analysis.cc:180-186 | The routes through a linked tree come before those that pass the link |
| EventTreeAnalysis.WalkCollects | src/event_tree_analysis.cc:112-135 | The paths of a walk collect only the kinds of instructions below its start |
| Parts.BranchHas | src/initializer.cc:1504-1557 | A branch has a kind if and only if a collect instruction of that kind is below it, through conditions, blocks, links, sequences, forks and named branches |
| EventTreeAnalysis.CollectSequences | src/event_tree_analysis.cc:168-246 | On a validated model the walk terminates with the functional events restored, and formulas and expressions never meet; it finds exactly the routes from the initial state to sequences, one for each list of choices in order, each recording the collected expressions and the formulas with the last states set before them; every sequence has the paths that end in it, in order |
| Cloning.CloneValue | src/event_tree_analysis.cc:44-86 | The clone of a formula has the value of the original with the house events as set |
| FaultTrees.FaultTree.GetAncestors | scripts/fault_tree.py:177-190 | The queue loop yields the least set with the gate and the parents of its members |
| FaultTrees.FaultTree.AddArgument | scripts/fault_tree.py:153-175 | Gates stay linked with any argument; one that is no ancestor keeps the graph acyclic and the ancestors of the gate the same, and one that is an ancestor leaves no ranks for an acyclic graph |
| FaultTrees.StaysAcyclic | scripts/fault_tree_generator.py:600-607 | Raising the ranks of all ancestors shows the graph to stay acyclic |
| FaultTrees.ClosesCycle | scripts/fault_tree_generator.py:600-607 | An argument that is among the ancestors of the gate makes the graph cyclic |
| FaultTrees.SameAncestors | scripts/fault_tree_generator.py:592-594 | The cached ancestors stay exact while arguments are added |
| FaultTrees.LeafIsNoAncestor | scripts/fault_tree_generator.py:602-603 | A gate without argument gates is no ancestor of another gate |
| FaultTrees.FaultTree.ToposortGates | scripts/fault_tree.py:423-460 | Lists exactly the gates reachable from the roots, each once and before its arguments; no gate is met while temporarily marked, and the lengths agree exactly if all gates are reachable |
| Generator.GeneratorFaultTree.AddCommonGate | scripts/fault_tree_generator.py:591-607 | The first candidate that is no argument yet and closes no cycle becomes an argument, and enters the queue with its first parent; nothing happens if the tries run out before |
| Generator.GeneratorFaultTree.InitGates | scripts/fault_tree_generator.py:560-616 | For any draws the first gate of the queue gets exactly the drawn basic events, and gates that are new or among the drawn candidates, until it has enough arguments; other gates stay as they are, new arguments enter the queue once, and the gate graph stays acyclic |
| Generator.GeneratorFaultTree.CorrectForExhaustion | scripts/fault_tree_generator.py:509-532 | If the queue is exhausted, the drawn gate gets a new gate, which is then the queue; otherwise nothing changes |
| Generator.GenerateFaultTree | scripts/fault_tree_generator.py:655-695 | For every sequence of random choices: acyclic, and no gate enters the queue twice |

## Left out

- Floating point: rounding, overflow and NaN; all arithmetic is over `real`.
- Reference counts and raw memory: a vertex or gate lives while something refers to it. Vertices
  may die at any point where the tables allow it; a gate dies at the end of the operation that
  drops its last reference.
- Prime table sizes, hash quality, load factors other than as triggers of growth, and the release
  of tables (`Freeze`, `Release`, `reserve`).
- `TestStructure` and `CountIteNodes`: checks and statistics without effect on results.
- The preprocessor after the removal of pass-through gates, ZBDD and MOCUS: cut sets are lists of positive indices, and the ordering and
  modules of a normalised graph are what `Graphs` demands. So the graph of `Rewriting` is not
  connected to the normalised graph of `Graphs` by a proof.
- BddEngine.Bdd.Collect: any unreferenced vertices may die at a collection, where the source lets
  each die at once.
- Conversion.Converter.ConvertGraph: arguments are folded in the order of the sort by vertex order,
  and no claim is made about the size of the result.
- Rewriting.Pdag.CoalesceGate: the arguments are taken over in any order, not gates first.
- Rewriting.Pdag.RemoveNullGates: as written, whether a whole run keeps all functions is decided
  by its steps; the condition that can be checked before is sufficient, not necessary.
- Preprocessing.Preprocess: for fault trees without a cardinality over one argument with min equal
  to max, since the removal of pass-through gates demands complete gates.
- Preprocessing.BuildGraph: that an incomplete gate can disappear with the table of gates, below a
  cardinality that is always true.
- Translation.Translator.ConstructFormula: pass-through gates are registered when they are made,
  not after they are filled, and the flags for coherent and normal graphs are not kept.
- Gate marks, visit times, counts and orders of the graph.
- Non-declarative substitutions (`CollectSubstitution`), which only record indices.
- CommonCause.CcfGroup.ApplyModel: the phi-factor model, whose levels are given directly and are
  not divided by numbers of combinations, and alpha-factor groups with all factors 0.
- Combinations.SubsetsComplete: combinations come from a recursive list, not from the rotations of
  `src/ext/combination.h`.
- Histogram.ComputeSil: rates per hour above 1, which can arise for times below one hour, lie
  outside all buckets; the histogram results are for curves within the buckets.
- Cycles.CheckCycle: connectors are trees of nodes in the order of traversal, one kind for all
  specialisations.
- EventTreeAnalysis.ValidateInitialization: conflicts of substitutions and the validation of
  expressions.
- EventTreeAnalysis.CollectSequences: rules are used as blocks of their instructions, which are
  finite after the check for cycles among rules; `Analyze` and its disjunction of paths are not
  modelled, since a path that collects nothing is skipped there.
- Cloning.CloneValue: the registration of clones as new events.
- Generator.GenerateFaultTree: the groups of candidates by their number of parents, the sampling of
  numbers of arguments, house events, common cause groups, and the termination of the loops.
- Parsing, reference lookup, reporting, settings, logging, and the graphical user interface.
