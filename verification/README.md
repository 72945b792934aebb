# Verified model of the finite-magma implication search

The repository searches for finite magmas that refute implications between equational laws, and
looks for implications that bounded equational reasoning already decides. This project models its
decision-making parts in Dafny and proves what they promise. The modules, bottom up:

- **Terms and laws.** `Terms`, `Syntax` (normalisation, tokenizer, parser class, both printers),
  `Magma` (evaluation in a table and the concrete checkers), with `Results`, `Orders` and
  `Products` (`itertools.product`) beside them.
- **Bounded source closure.** `UnionFinds` (path halving, lesser root), `Universe` (the terms over
  the roles), `Congruence` (the saturation loop and the least congruence of keys), `Closure` (role
  substitutions, and the least congruence of terms), `SourceClosure` (the whole function),
  `Soundness` (what identified terms mean in tables), `Classify` (target specs and the verdict).
- **How long the closure runs.** `GroundRule` (a law with one instance as a rewrite rule),
  `RoundTraces` and `TraceRounds` (a round visit by visit), `TraceFold` and `TraceCap` (how many
  rounds each kind of rule needs), `TraceClosure` (the cap is never reached with one role).
- **Countermodel search.** `Encoding` (both solver encodings as constraint datatypes with a
  denotation), `Partitions` (witness shapes), `Witness` (they lose no countermodel), `Replay` (a
  table against all pairs at once).
- **Routes.** `Greedy` (maximum coverage with a warm start), `Recovery` (what its columns say about
  pairs and tables) and `RouteChain` (generic, repair, lawbook and compact stages).
- **Controllers.** `Memory` (constructor memory under attempt budgets); `ShapeSearch` (solver calls
  under budgets with a blacklist for barren source shapes) and `SearchLog` (what its attempt log
  must say: which shapes are barred, which questions a probe asks, how a run goes on).

Code that works by changing state is a class or a method with loops, proved against a
specification: `TermParser`, `UnionFind`, `PartitionSearch`, `Replayer`, `Engine` and
`Controller` carry the fields the source updates. Masks are sets of rows or of pairs, a Python
dictionary is a `map` (with a `seq` of its keys where the insertion order matters), an exception
or `None` is a `Result` or an `Option`. A relation called *least* is defined as the intersection of
all relations of its kind, so "exact" means both directions.

## What the proofs found

- `max_depth` of the universe bounds the number of operations, not the depth of the tree.
- The twelve-round cap leaves soundness untouched for any roles and bound. With one role and bound
  5 it is never reached: the law's only instance is a rewrite rule, a round moves classes towards
  the sets of terms with one normal form, and at most ten rounds change anything. For more roles
  completeness is claimed when the last round changed nothing, which a cap of at least the number
  of terms guarantees.
- So a target is classified as forced exactly when the law forces its all-same instance in the
  one-role universe, which one pass of rewriting decides. The two-role closure never decides a
  verdict alone, and a same-role conflict or a diagonal distance of 1 never occurs.
- A forced verdict is a theorem about the pair for one-variable targets and for specs that keep the
  variables apart; in general it is not (`x = x` "forces" `x = y`).
- The two solver encodings agree whenever the witness gives the operand variables values inside the
  carrier, which is what the program produces; for an operand outside it a concrete input, which the
  program never produces, shows that they part ways.
- The truth vectors and the witness checker agree on tables whose cells lie in the carrier; a
  concrete out-of-range table shows that they can differ otherwise.
- The branches "failed concrete validation" and "pair-valid global-new=0" are unreachable when the
  solver returns tables satisfying its own constraints.
- On a table with a cell outside its carrier the replay can count a pair that its recovery list
  skips; the two stay equal exactly when the table is a countermodel of all it newly covers, which
  holds for every table whose cells lie in the carrier.
- The greedy guarantee holds for the generic and the repair selection together, not only for each.
- Lawbook reuse and the compact atlas never change the repaired route: by then the route has the
  length of the budget, so that nothing fits, or it lists every column.
- A FALSE pair that the search leaves uncovered was given up for a reason: a blacklisted shape, a
  schedule asked in vain, or a budget that was used up.
- A shape blacklisted inside a probe stays blacklisted even if a later call of that probe hits, and
  no later probe touches it.

## Model

| member | source | states |
|---|---|---|
| `Terms.EqVarsAscending` | sair_v16_obstruction_factory_colab.py:520 | The variables of an equation, over which every checker and every assignment list iterates, are strictly ascending in the order of the names. |
| `Orders.StrLessMeaning` | sair_v16_obstruction_factory_colab.py:520 | That order is Python's order of strings: by the first character that differs, a proper prefix first. |
| `Orders.SortedPosition` | sair_v16_obstruction_factory_colab.py:920-929 | In an ascending list the position of an element is the number of smaller elements. |
| `Syntax.ParsePrinted` | sair_v16_obstruction_factory_colab.py:279-299 | For every term whose names are made of name characters, parsing its canonical key, and parsing its spaced display form, gives back that term with no token left over. |
| `Syntax.ChainsReadLeft` | sair_v16_obstruction_factory_colab.py:255-260 | A chain of operands of any length written without parentheses is read from the left: the last operation is at the top. |
| `Syntax.CanonicalInjective` | sair_v16_obstruction_factory_colab.py:296-299 | Two printable terms with the same key are the same term, so string keys may stand for terms. |
| `Syntax.CanonicalStable` | sair_v16_obstruction_factory_colab.py:279-299 | For every text at all: if it parses, the result is printable and its key parses to the same result. |
| `Syntax.ParsePrintedEquation` | sair_v16_obstruction_factory_colab.py:288-293 | An equation written from two printed sides is read back as itself, and its text is stored unchanged. |
| `Syntax.Tokenize` | sair_v16_obstruction_factory_colab.py:213-237 | The index loop yields the tokens of the normalised text, or its first bad character, as the recursive reading of the text from left to right does. |
| `Syntax.EndOfWord` | sair_v16_obstruction_factory_colab.py:229-233 | The inner loop stops at the end of the longest run of name characters. |
| `Syntax.NormalizeFixes` | sair_v16_obstruction_factory_colab.py:206-210 | Normalisation changes nothing in a text of written characters without doubled equals signs or blanks and without outer blanks. |
| `Syntax.NormalizedText` | sair_v16_obstruction_factory_colab.py:206-210 | For every text: the normalised text holds none of the other spellings of the operator and of the equals sign, no white space but single blanks inside, and none around. |
| `Syntax.SpellingsReadAlike` | sair_v16_obstruction_factory_colab.py:206-210 | Texts that differ only in which of the four operator signs, or of the four one-character equals signs standing apart, they use are parsed alike, as terms and as equations. |
| `Syntax.ParseDoubleEquals` | sair_v16_obstruction_factory_colab.py:206-210 | An equation written with a doubled equals sign reads as the one with a single sign. |
| `Syntax.TokensOfCanonical` | sair_v16_obstruction_factory_colab.py:213-237 | The tokens of a key, followed by anything that does not extend its last name, are the term's tokens followed by those of the rest. |
| `Syntax.TokensOfDisplay` | sair_v16_obstruction_factory_colab.py:97-100 | The display form has the same tokens as the key, in the same place. |
| `Syntax.AtomOfTokens` | sair_v16_obstruction_factory_colab.py:262-276 | Reading one atom from a term's tokens consumes exactly these and returns the term. |
| `Syntax.TermParser.constructor` | sair_v16_obstruction_factory_colab.py:241-243 | A parser starts at the first token. |
| `Syntax.TermParser.Pop` | sair_v16_obstruction_factory_colab.py:248-253 | At the end it reports a missing token and stays; otherwise it returns the next token and moves past it. |
| `Syntax.TermParser.Parse` | sair_v16_obstruction_factory_colab.py:255-260 | The chain loop reads what the grammar's left-associated chain of atoms reads, leaves the same tokens, or reports the same error. |
| `Syntax.TermParser.ParseAtom` | sair_v16_obstruction_factory_colab.py:262-276 | One atom is read as the grammar says: a name, or a bracketed chain; the errors are those of the grammar. |
| `Syntax.ParseTerm` | sair_v16_obstruction_factory_colab.py:279-285 | The method refines the functional parser on every text, the trailing-token error included. |
| `Magma.MagmaSatisfiesEquation` | sair_v16_obstruction_factory_colab.py:519-525 | True exactly when the two sides agree under every assignment of carrier elements, where a side without a value agrees only with another such side. |
| `Magma.MagmaViolationWitness` | sair_v16_obstruction_factory_colab.py:528-536 | A witness is found exactly when some assignment gives both sides values that differ; the witness is such an assignment and carries these values. |
| `Magma.ValidateCountermodel` | sair_v16_obstruction_factory_colab.py:539-542 | Accepts exactly the tables that satisfy the first law and violate the second, with a separating assignment as certificate. |
| `Magma.TableTruthVectors` | sair_v16_obstruction_factory_colab.py:545-560 | The two vectors say of every equation whether it is satisfied, and the second is the complement of the first. |
| `Magma.TruthOf` | sair_v16_obstruction_factory_colab.py:545-560 | The loop body for one equation: it may stop at the first disagreement without missing either answer. |
| `Magma.FirstDisagreement` | sair_v16_obstruction_factory_colab.py:521-524 | The early exit skips only assignments on which the two sides agree. |
| `Magma.FirstSeparation` | sair_v16_obstruction_factory_colab.py:530-535 | The early exit skips only assignments that separate nothing. |
| `Magma.EnvListSound` | sair_v16_obstruction_factory_colab.py:520-521 | Every listed assignment maps exactly the equation's variables into the carrier. |
| `Magma.EnvListComplete` | sair_v16_obstruction_factory_colab.py:520-521 | Every assignment of the variables to carrier elements is listed. |
| `Magma.EvalInRange` | sair_v16_obstruction_factory_colab.py:506-516 | On a table with all cells in the carrier, evaluation under a carrier assignment always has a value, and it lies in the carrier. |
| `Magma.EvalSubst` | sair_v16_obstruction_factory_colab.py:797-800 | Evaluating a substituted term is evaluating the term under the composed assignment, undefined results included. |
| `Magma.CheckersAgree` | sair_v16_obstruction_factory_colab.py:519-560 | On tables whose cells lie in the carrier, the witness checker and the truth vectors agree: violated means not satisfied. |
| `Magma.CheckersDisagree` | sair_v16_obstruction_factory_colab.py:519-560 | Outside such tables they do not: a table with an out-of-range cell is neither satisfying nor violating. |
| `UnionFinds.UnionFind.constructor` | sair_v16_obstruction_factory_colab.py:822-823 | Every item starts in a class of its own. |
| `UnionFinds.UnionFind.Find` | sair_v16_obstruction_factory_colab.py:825-831 | The returned key is the root of the key's class and the least key of that class; path halving changes no class, and an unknown key joins as a class of its own. Termination is proved: parents that are not the key itself are smaller. |
| `UnionFinds.UnionFind.Union` | sair_v16_obstruction_factory_colab.py:833-840 | The two classes, and only these, become one, rooted at the lesser of the two roots; the flag says whether they were different. |
| `UnionFinds.HalvingKeepsRoots` | sair_v16_obstruction_factory_colab.py:827-830 | One halving step keeps the root of every key. |
| `UnionFinds.HalvingStep` | sair_v16_obstruction_factory_colab.py:827-830 | One halving step keeps the forest and all its classes and moves to a smaller key. |
| `UnionFinds.LinkMovesClass` | sair_v16_obstruction_factory_colab.py:833-840 | Hanging a root below a smaller root moves exactly that root's class. |
| `UnionFinds.RootFacts` | sair_v16_obstruction_factory_colab.py:825-831 | Following parents ends at a key that is its own parent and not above the start. |
| `UnionFinds.RootIsLeast` | sair_v16_obstruction_factory_colab.py:833-840 | In every valid root map a root is at most every key of its class; `Find` ties the object's own map to this. |
| `UnionFinds.PartitionDeterminesRoots` | sair_v16_obstruction_factory_colab.py:916 | The list of keys with their roots, which the signature is built from, depends on the partition alone. |
| `UnionFinds.MergeJoins` | sair_v16_obstruction_factory_colab.py:833-840 | After a union two keys share a class exactly when they did before or the union joined their classes. |
| `UnionFinds.MergeCounts` | sair_v16_obstruction_factory_colab.py:833-840 | A union that returns True lowers the number of classes by exactly one. |
| `UnionFinds.RunIsLeastEquivalence` | sair_v16_obstruction_factory_colab.py:821-840 | After any interleaving of finds and unions from singletons the classes are the least equivalence containing the joined pairs. |
| `UnionFinds.UnionOrderIrrelevant` | sair_v16_obstruction_factory_colab.py:821-840 | Two runs that join the same pairs, in any order and with any finds between, end with the same key-to-root map. |
| `Universe.GenerateTermsForRoles` | sair_v16_obstruction_factory_colab.py:803-818 | The result lists exactly the terms over the roles with at most `max_depth` operations, each once, smaller ones before larger ones. The bound counts operations, not tree depth. |
| `Universe.ExtendLevel` | sair_v16_obstruction_factory_colab.py:807-817 | One level adds exactly the terms with that many operations, repeats none and keeps the order by size. |
| `Universe.UniverseHasSubterms` | sair_v16_obstruction_factory_colab.py:876-879 | Both sides of every operation in the universe are in the universe, so the operation index only holds known keys. |
| `Universe.KeysIdentify` | sair_v16_obstruction_factory_colab.py:804-816 | Over role names made of name characters, equal keys are equal terms, so deduplication by key loses nothing. |
| `Congruence.Round` | sair_v16_obstruction_factory_colab.py:881-895 | A round only joins what every congruence joins, counts its unions exactly, reports a change exactly when it made one, and a round without change leaves the classes closed under the operation; the visits it made, one per operation, lead from the old root map to the new one. |
| `Congruence.Visit` | sair_v16_obstruction_factory_colab.py:884-893 | Visiting one operation either joins its class with the one remembered for its signature or remembers it; all that the round has established so far is kept. |
| `Congruence.Saturate` | sair_v16_obstruction_factory_colab.py:881-895 | Leaving with no change, the classes are exactly the least congruence that contains the direct equalities; leaving at the cap, they are still inside it, and every round made a union. The history holds the root map after each round, all different except that the last round may have changed nothing. |
| `Congruence.UnionRelated` | sair_v16_obstruction_factory_colab.py:833-840 | Joining two related keys keeps the classes inside the least congruence and accounts for the class count. |
| `Congruence.LeastIsCongruent` | sair_v16_obstruction_factory_colab.py:860-899 | The pairs that lie in every congruence form a congruence. |
| `Congruence.CoveredIsClosed` | sair_v16_obstruction_factory_colab.py:884-893 | If every operation's signature has a bucket whose parent is in the operation's own class, the classes are closed under the operation. |
| `Congruence.ClosedIsLeast` | sair_v16_obstruction_factory_colab.py:881-899 | Classes inside the least congruence that contain the direct equalities and are closed under the operation are the least congruence. |
| `Congruence.SameSignature` | sair_v16_obstruction_factory_colab.py:884-893 | Two operations that shared a signature at any time during the round have parents related in every congruence, although the roots kept moving. |
| `Congruence.CapNeverReached` | sair_v16_obstruction_factory_colab.py:881-883 | Every changing round lowers the class count, so a run that is still changing at the cap has a cap below the number of terms. |
| `Closure.RoleSubstitutions` | sair_v16_obstruction_factory_colab.py:843-857 | A law without variables gets none. Otherwise the all-same substitution comes first, and the list has no repetition and holds exactly the substitutions the capped product loop reads. |
| `Closure.ListSubstitutions` | sair_v16_obstruction_factory_colab.py:848-856 | The loop reads the product in order and stops after the cap. |
| `Closure.EnumeratedMapsToRoles` | sair_v16_obstruction_factory_colab.py:843-857 | Every listed substitution maps exactly the source variables, and into the roles. |
| `Closure.AllEnumeratedBelowCap` | sair_v16_obstruction_factory_colab.py:843-857 | If the number of maps is at most the cap, every map from the variables to the roles is listed. |
| `Closure.SmallLawsAreComplete` | sair_v16_obstruction_factory_colab.py:843-857 | With the program's cap every map of the variables to the roles gives an instance for one role, for two roles and at most six variables, and for three roles and at most four. |
| `Closure.FirstNinetySix` | sair_v16_obstruction_factory_colab.py:843-849 | Otherwise the substitutions are the first 96 of the product. |
| `Products.ProductOrder` | sair_v16_obstruction_factory_colab.py:847 | The product lists its vectors with the first position running slowest. |
| `Closure.DiagonalEnumerated` | sair_v16_obstruction_factory_colab.py:843-857 | The all-same substitution is always among those read, whatever the cap. |
| `Closure.OneSubstitution` | sair_v16_obstruction_factory_colab.py:843-857 | With one role there is one substitution, whatever the law and the cap. |
| `Closure.LeastIsForced` | sair_v16_obstruction_factory_colab.py:860-899 | Two universe terms have keys related by the least congruence of keys exactly when they are related by every equivalence on the universe that contains the enumerated instances and respects operations inside it. |
| `Closure.ToTermsIsLawCongruence` | sair_v16_obstruction_factory_colab.py:860-899 | Every congruence of keys is such an equivalence of terms. |
| `Closure.ToKeysIsCongruent` | sair_v16_obstruction_factory_colab.py:860-899 | Every such equivalence of terms is a congruence of keys. |
| `SourceClosure.BoundedSourceClosure` | sair_v16_obstruction_factory_colab.py:860-917 | For every law, role list, bound and cap: the terms are the exact universe; each listed class holds, once each and in universe order, exactly the keys of the universe terms with its root; the direct phase joins exactly what the instances inside the universe generate and its counter is the number of classes it lost, the congruence phase lost the others; terms with equal roots are forced together by the law; after a round without change the converse holds too; a run that did not saturate used the whole cap, which is below the number of terms; one role gives at most one direct equality; and the rounds are those of the saturation loop on the law's own system. |
| `SourceClosure.CloseClasses` | sair_v16_obstruction_factory_colab.py:866-895 | After the direct phase the classes are the least equivalence containing the direct equalities and the first counter is what they lost; both phases together stay inside the least congruence, reach it when saturated, and account for every lost class. |
| `SourceClosure.DirectUnions` | sair_v16_obstruction_factory_colab.py:869-873 | The classes are afterwards the least equivalence that contains every enumerated instance with both sides in the universe, and the counter equals the loss of classes and is at most the number of substitutions. |
| `SourceClosure.BuildIndex` | sair_v16_obstruction_factory_colab.py:876-879 | The index holds one entry for each operation of the universe, in universe order. |
| `SourceClosure.OpsBySize` | sair_v16_obstruction_factory_colab.py:874-879 | The operations of the index come in the order of their size. |
| `SourceClosure.GroupClasses` | sair_v16_obstruction_factory_colab.py:897-899 | Each root gets exactly the members of its class in universe order, and looking them up changes no class. |
| `SourceClosure.MembersPicked` | sair_v16_obstruction_factory_colab.py:897-899 | A class list is picked from the universe by ascending positions: exactly those of the terms with that root. |
| `SourceClosure.PickedSize` | sair_v16_obstruction_factory_colab.py:897-908 | The length of such a list is the number of universe terms with that root. |
| `SourceClosure.GroupsAreReps` | sair_v16_obstruction_factory_colab.py:897-912 | The dictionary's keys are the roots, so its size is the number of classes. |
| `SourceClosure.KeyCount` | sair_v16_obstruction_factory_colab.py:860-867 | There are as many keys as terms: no two terms of the universe share a key. |
| `SourceClosure.SystemRepresents` | sair_v16_obstruction_factory_colab.py:866-879 | The direct equalities and the index stand for exactly the law's instances and the universe's operations. |
| `SourceClosure.JustifiedIsSound` | sair_v16_obstruction_factory_colab.py:860-899 | Classes inside the least congruence only join forced terms, and classes equal to it join all of them. |
| `GroundRule.ForcedIsSameNf` | sair_v16_obstruction_factory_colab.py:860-899 | A law whose only instance in the universe is one pair of terms, read as a rewrite rule from the larger to the smaller side, forces two terms together exactly when they have the same normal form. |
| `GroundRule.NfIsForced` | sair_v16_obstruction_factory_colab.py:860-899 | Every law congruence of the universe relates each term with its normal form. |
| `RoundTraces.SameSignatureJoins` | sair_v16_obstruction_factory_colab.py:884-893 | Within a round, two operations that had one signature when each was visited are in one class from then on, although roots move between the two visits. |
| `RoundTraces.ClassesStay` | sair_v16_obstruction_factory_colab.py:881-895 | Classes only grow along the visits of a round. |
| `TraceRounds.DoneKeepsRoots` | sair_v16_obstruction_factory_colab.py:881-895 | A class that holds all terms of its normal form keeps its root through the whole round. |
| `TraceRounds.FirstBecomesComplete` | sair_v16_obstruction_factory_colab.py:881-895 | The first operation, in the order of the index, that is not yet in the class of its normal form is there after the round. |
| `TraceRounds.RoundCompletes` | sair_v16_obstruction_factory_colab.py:881-895 | With the class of the smaller side complete, one round completes all classes whose normal form has one more operation. |
| `TraceRounds.ListCompletes` | sair_v16_obstruction_factory_colab.py:881-895 | If only the terms of a list have to be rewritten, the list is complete after as many rounds as it is long. |
| `TraceRounds.AllDoneIsStill` | sair_v16_obstruction_factory_colab.py:881-895 | When all classes are complete, the next round changes nothing. |
| `TraceFold.RoundGathers` | sair_v16_obstruction_factory_colab.py:881-895 | For a law that makes xx equal to x, one round gathers all terms of the next size in at most two classes. |
| `TraceFold.FoldedAfter` | sair_v16_obstruction_factory_colab.py:881-895 | For such a law two rounds for each size suffice. |
| `TraceCap.LargeRule` | sair_v16_obstruction_factory_colab.py:881-895 | When the larger side has at least three operations, at most eight rounds complete everything: only the terms around that side are ever rewritten. |
| `TraceCap.VanishingRule` | sair_v16_obstruction_factory_colab.py:881-895 | When it is x(xx) or (xx)x and the smaller side is x, ten rounds do. |
| `TraceCap.ShrinkingRule` | sair_v16_obstruction_factory_colab.py:881-895 | When it is x(xx) or (xx)x and the smaller side is xx, eight rounds do. |
| `TraceCap.AtMostTenChanges` | sair_v16_obstruction_factory_colab.py:881-883 | Whatever the rule, a saturation of the one-role universe cannot change something in more than ten rounds. |
| `TraceClosure.InstanceIsTheOne` | sair_v16_obstruction_factory_colab.py:869-873 | Over one role a law has one instance, and it is the two sides of the law's rule or trivial. |
| `TraceClosure.ForcedByRewriting` | sair_v16_obstruction_factory_colab.py:860-899 | For every law: it forces two terms of the one-role universe together exactly when a single pass of rewriting with the law's rule gives them one normal form. |
| `TraceClosure.TraceNeverCut` | sair_v16_obstruction_factory_colab.py:881-883 | For every law the closure with one role and bound 5 stops by itself, after at most eleven rounds: the program's cap of twelve never ends it. |
| `Soundness.ForcedHolds` | sair_v16_obstruction_factory_colab.py:860-899 | Terms the law forces together have the same value in every table satisfying the law, under every role assignment. |
| `Soundness.InstanceHolds` | sair_v16_obstruction_factory_colab.py:869-873 | The sides of an enumerated instance have the same value there. |
| `Soundness.IdentifiedHasNoCountermodel` | sair_v16_obstruction_factory_colab.py:949-964 | If the instance of the target under a spec sending different variables to different roles is forced, no table of any size is a countermodel of the pair. |
| `Soundness.CollapseKeepsForced` | sair_v16_obstruction_factory_colab.py:997-998 | Merging roles keeps forced equalities forced in any universe at least as deep. |
| `Soundness.DiagonalCollapses` | sair_v16_obstruction_factory_colab.py:843-857 | Sending all roles to one is such a merge for every law, even when the cap cuts the enumeration. |
| `Soundness.PullBackIsLawCongruence` | sair_v16_obstruction_factory_colab.py:860-899 | Pulling a law congruence of the merged universe back along the merge gives a law congruence. |
| `Classify.TargetPartitionSpecs` | sair_v16_obstruction_factory_colab.py:920-939 | Said by the order of the variable names alone: one spec for one variable, exactly two for two, all five for three and more; all_same sends all to x; first_split exactly the variable with none below it to x; last_split exactly the one with none above it to y; alternating_xy and xyz_roles go by the number of smaller variables modulo 2 and 3. The all-same spec comes first, no two specs have the same shape, a repeated shape keeps its first name, and every named shape is present up to that. |
| `Classify.SpecsByNames` | sair_v16_obstruction_factory_colab.py:920-939 | The list of specs that the other results speak of is this one. |
| `Classify.SpecsOfExact` | sair_v16_obstruction_factory_colab.py:920-939 | The specs are at most twelve, of different shapes, all named ones, with the all-same spec first. |
| `Classify.ClassifyPair` | sair_v16_obstruction_factory_colab.py:942-986 | Forced exactly when some spec is identified in the closure it is looked up in. The report is that of the first listed spec, among those with both sides known to the closure, whose two classes together are smallest: its keys, name, class sizes and whether its two roots are equal; every field of the record follows from these. |
| `Classify.CompareSpecs` | sair_v16_obstruction_factory_colab.py:946-975 | The loop over the specs finds the verdict and that report, and looking keys up changes no class of either closure. |
| `Classify.LookUp` | sair_v16_obstruction_factory_colab.py:949-964 | A spec is looked up in the trace closure when it uses one role and in the escape closure otherwise; nothing is found when a side is unknown there. |
| `Classify.AnyHitIsListed` | sair_v16_obstruction_factory_colab.py:920-975 | Dropping repeated shapes loses no verdict: some named spec is identified exactly when a listed one is. |
| `Classify.NoNearMiss` | sair_v16_obstruction_factory_colab.py:965-986 | The same-role conflict and a distance of 1 never occur, and the near flag implies a forced verdict. |
| `Classify.ClassifySourceAndTarget` | sair_v16_obstruction_factory_colab.py:989-1023 | With the program's own roles, bounds and cap, for every pair of laws: the verdict is forced exactly when the law forces the target's all-same instance in the trace universe, without any condition on the rounds. The report is that of the first listed spec for which the number of terms forced equal to the one side plus the number forced equal to the other, counted in the one-role universe of bound 5 or the two-role universe of bound 4, is smallest; its flag says whether the sides are forced together; all other fields follow from verdict and report. Only when the two-role closure ended at the twelve-round cap are the two-role counts and flags those of what was joined so far. |
| `Classify.ReportIsDetermined` | sair_v16_obstruction_factory_colab.py:942-986 | Unless the two-role closure was cut off, the report is determined by the two laws. |
| `Classify.FoundHasMeaning` | sair_v16_obstruction_factory_colab.py:949-964 | Looking a spec up finds both sides exactly when they are in the universe; what is found is then the sum of the two class sizes, which are the numbers of forced terms when the closure is saturated, and whether the sides are in one class. |
| `Classify.ClassCounts` | sair_v16_obstruction_factory_colab.py:957-958 | In a saturated closure the size of a term's class is the number of universe terms that the law forces equal to it. |
| `Classify.DiagonalByRewriting` | sair_v16_obstruction_factory_colab.py:989-1023 | That condition, and so the whole verdict, can be read off without a closure: both sides of the all-same instance have at most five operations and rewriting gives them one normal form. |
| `Classify.ForcedIsAllSame` | sair_v16_obstruction_factory_colab.py:949-975 | Once the trace closure is saturated, which it always is, some spec is identified exactly when the all-same instance is; the two-role closure never decides a verdict alone. |
| `Classify.EscapeHitCollapses` | sair_v16_obstruction_factory_colab.py:949-975 | A hit in the two-role closure (bound 4) is, with the roles merged, forced in the one-role universe (bound 5). |
| `Classify.HitIsDiagonalForced` | sair_v16_obstruction_factory_colab.py:949-975 | Any hit, saturated or not, means that the all-same instance is forced. |
| `Classify.IdentifiedIsForced` | sair_v16_obstruction_factory_colab.py:949-964 | A spec found in one class has both sides in that universe, and they are forced together. |
| `Classify.InjectiveHitIsTheorem` | sair_v16_obstruction_factory_colab.py:949-964 | A hit under a spec that keeps the variables apart rules out every countermodel, even when the rounds ended at the cap. |
| `Classify.OneVariableForcedIsTheorem` | sair_v16_obstruction_factory_colab.py:1596-1599 | For a target with one variable the forced verdict that makes the search skip the pair is a theorem. |
| `Classify.ShadowIsNoTheorem` | sair_v16_obstruction_factory_colab.py:1596-1599 | For other targets it need not be: x = x "forces" x = y through the all-same spec, yet a two-element table separates them. |
| `Encoding.Z3Cell` | sair_v16_obstruction_factory_colab.py:563-568 | The loop builds the If chain over all cells in row-major order with the last cell as fallback. |
| `Encoding.RowsValue` | sair_v16_obstruction_factory_colab.py:563-568 | For any argument values the chain denotes the addressed cell when both lie in the carrier, and the last cell otherwise. |
| `Encoding.MulValue` | sair_v16_obstruction_factory_colab.py:563-574 | For arguments in the carrier, the chain and the function application both denote the table cell, and their range clauses hold. |
| `Encoding.EncodeValue` | sair_v16_obstruction_factory_colab.py:686-692 | In either encoding the encoded term denotes the concrete value of the term, in range, and its side clauses hold by themselves. |
| `Encoding.LawMeaning` | sair_v16_obstruction_factory_colab.py:577-583 | The clauses of one assignment hold exactly when the two sides agree (source) or differ (witness) on the table, as soon as every variable that is an operand of some operation has a value in the carrier. |
| `Encoding.RangesMeaning` | sair_v16_obstruction_factory_colab.py:667-669 | The range clauses hold exactly when all cells lie in the carrier. |
| `Encoding.SourceIsSatisfies` | sair_v16_obstruction_factory_colab.py:577-583 | All source clauses together hold exactly when the table satisfies the law. |
| `Encoding.CellBiasMeaning` | sair_v16_obstruction_factory_colab.py:623-659 | Each plain bias family, in either encoding, asks exactly the stated property of the table's cells. |
| `Encoding.PowerBiasMeaning` | sair_v16_obstruction_factory_colab.py:695-732 | Each power bias family, in either encoding, asks exactly the stated property of the powers of 0. |
| `Encoding.AssocSplitMeaning` | sair_v16_obstruction_factory_colab.py:725-729 | The clauses of assoc_diag_split, in either encoding, ask exactly that the cubes 0(00) and (00)0 differ. |
| `Encoding.SymmetryMeaning` | sair_v16_obstruction_factory_colab.py:670-672 | The symmetry clauses hold exactly when cell (0,0) is at most every other diagonal cell. |
| `Encoding.SolverMeaning` | sair_v16_obstruction_factory_colab.py:735-772 | All clauses of a solver call hold of a table exactly when it is well formed, satisfies the source, separates the target at the witness, and meets the symmetry and bias demands; only operand variables of the witness need values in the carrier. |
| `Encoding.SolversAcceptSameTables` | sair_v16_obstruction_factory_colab.py:662-785 | The two solvers accept the same tables for every carrier size, bias and witness whose operand variables lie in the carrier: the extra range clauses follow from the cell ranges. |
| `Encoding.AcceptedPassesValidation` | sair_v16_obstruction_factory_colab.py:1667-1677 | Every accepted table is well formed and a countermodel, separated at the very witness asked for, so the "failed concrete validation" branch is never taken. |
| `Encoding.ExtractedIsCountermodel` | sair_v16_obstruction_factory_colab.py:778-783 | The table read back from any model of the clauses of a solver call, in either encoding, is a countermodel, whatever the function does outside the carrier. |
| `Encoding.OutsideWitnessesDisagree` | sair_v16_obstruction_factory_colab.py:617-620 | That condition cannot be dropped: for an operand value outside the carrier (5 and 6 on two elements) a table is accepted by the function encoding and rejected by the If-chain encoding. The program never produces such a witness. |
| `Partitions.PartitionSearch.Rec` | sair_v16_obstruction_factory_colab.py:591-603 | The push/pop search restores its assignment and appends exactly the completions of the assignment in search order, cut off at the cap. |
| `Partitions.AllSetPartitions` | sair_v16_obstruction_factory_colab.py:586-606 | No items give no partitions; otherwise the result is exactly what the capped search found, and of two listed partitions the first has fewer blocks, or as many and a larger largest block, or equals there and has the smaller labels at the first difference, hence there is no repetition. |
| `Partitions.LargestBlockMeaning` | sair_v16_obstruction_factory_colab.py:605 | The size the sort key speaks of is that of some block and at least that of every block. |
| `Partitions.ShapeLessIsStrictTotal` | sair_v16_obstruction_factory_colab.py:605 | The sort key orders all shapes strictly. |
| `Partitions.CompletionsExact` | sair_v16_obstruction_factory_colab.py:591-603 | The completions of a prefix are exactly the label strings continuing it by restricted growth. |
| `Partitions.CompletionsDistinct` | sair_v16_obstruction_factory_colab.py:591-603 | The search visits no string twice. |
| `Partitions.KernelDetermines` | sair_v16_obstruction_factory_colab.py:586-606 | A set partition has only one restricted-growth string. |
| `Partitions.CanonNames` | sair_v16_obstruction_factory_colab.py:586-606 | Every labelling has a restricted-growth string with the same blocks. |
| `Partitions.EnumerationExact` | sair_v16_obstruction_factory_colab.py:586-606 | The search lists every set partition exactly once and nothing else. |
| `Partitions.BelowCapComplete` | sair_v16_obstruction_factory_colab.py:592-593 | With a cap of at least the number of set partitions nothing is cut off. |
| `Partitions.WitnessSeparatesBlocks` | sair_v16_obstruction_factory_colab.py:609-614 | Two variables get the same value exactly when they share a block, at every offset, and every value is below n. |
| `Partitions.WitnessExists` | sair_v16_obstruction_factory_colab.py:609-612 | There are values exactly when the number of different blocks is at most n. |
| `Partitions.WitnessStartsAtZero` | sair_v16_obstruction_factory_colab.py:610-614 | At offset 0 the value of an item is the number of different blocks smaller than its own. |
| `Partitions.WitnessNextOffset` | sair_v16_obstruction_factory_colab.py:613 | Going from one offset to the next adds 1 modulo n to every value. |
| `Partitions.OffsetsDiffer` | sair_v16_obstruction_factory_colab.py:613 | Different offsets below n give every item different values. |
| `Witness.WitnessShapesLoseNothing` | sair_v16_obstruction_factory_colab.py:586-620 | If some n-element table satisfies the source and violates the target, and the cap is at least the number of partitions of the target's variables, then at every offset a listed witness separates the target in a copy of the table under a renaming of the carrier, and the copy satisfies the source. |
| `Witness.ShapesReachSolver` | sair_v16_obstruction_factory_colab.py:577-620 | For that copy the range, source and target-witness clauses of either encoding hold. |
| `Witness.ExtendMatching` | sair_v16_obstruction_factory_colab.py:609-614 | Any matching between two lists of different carrier elements extends to a bijection of the carrier. |
| `Witness.EvalRenamed` | sair_v16_obstruction_factory_colab.py:506-516 | Evaluation commutes with renaming the carrier. |
| `Witness.RenamedSatisfies` | sair_v16_obstruction_factory_colab.py:519-525 | A renamed table satisfies the laws the original does. |
| `Witness.KernelIsListed` | sair_v16_obstruction_factory_colab.py:586-614 | Below the cap, the partition of the variables by their values at a violation is listed and fits the carrier. |
| `Witness.ListedWitnessInCarrier` | sair_v16_obstruction_factory_colab.py:609-614 | A listed witness assigns exactly the target's variables, inside the carrier. |
| `Witness.PartitionWitnessFits` | sair_v16_obstruction_factory_colab.py:609-614 | Any partition of the target's variables that fits the carrier gives an assignment of exactly these variables, inside the carrier, at every offset. |
| `Replay.Replayer.ReplaySatTable` | sair_v16_obstruction_factory_colab.py:1482-1533 | For every table with full rows: one seen before changes nothing and yields 0; a new one adds exactly the uncovered FALSE pairs its truth vectors refute to the mask and the counter and returns their number, and to the recovery list those that the pairwise checker confirms. |
| `Replay.Replayer.NewHits` | sair_v16_obstruction_factory_colab.py:1482-1533 | The outer product of the truth vectors, limited to uncovered FALSE pairs, is the list of newly refuted pairs in row-major order. |
| `Replay.WhereAscends` | sair_v16_obstruction_factory_colab.py:1482-1533 | The listed positions ascend by row, and by column within a row. |
| `Replay.Replayer.RecordRecoveries` | sair_v16_obstruction_factory_colab.py:1482-1533 | Exactly the newly covered pairs of which the table is a countermodel are recorded, in order. |
| `Replay.RunExact` | sair_v16_obstruction_factory_colab.py:1482-1533 | Over every run of tables with full rows: the mask is the starting mask joined with all FALSE pairs refuted by any table of the run; the counter is the growth of the mask; the ids seen are those of the tables and the table counter is their number; recoveries are new and not repeated; and if all cells lie in the carriers, the recovery list has every newly covered pair. |
| `Replay.StepKeepsCounts` | sair_v16_obstruction_factory_colab.py:1482-1533 | One replay keeps counter, recovery list and growth equal if and only if the table is a countermodel of every pair it newly covers. |
| `Replay.WellFormedKeepsCounts` | sair_v16_obstruction_factory_colab.py:1482-1533 | Which is so for every table whose cells lie in its carrier. |
| `Replay.RecoveriesCanLag` | sair_v16_obstruction_factory_colab.py:1482-1533 | And not otherwise: for the table [[1]] a pair is counted and covered that the recovery list skips. |
| `Replay.StepKeepsGrowth` | sair_v16_obstruction_factory_colab.py:1482-1533 | For every table with full rows the counter stays the growth of the mask. |
| `Replay.StepKeepsSeenCovered` | sair_v16_obstruction_factory_colab.py:1482-1533 | With ids that tell tables apart, every table whose id has been seen has all its pairs covered. |
| `Replay.UncoveredIsGained` | sair_v16_obstruction_factory_colab.py:1667-1675 | A countermodel of an uncovered FALSE pair is new and covers that pair. |
| `Replay.ValidTableAlwaysCovers` | sair_v16_obstruction_factory_colab.py:1667-1675 | After any run, a countermodel of an uncovered FALSE pair gains at least that pair: the message "global-new=0" is unreachable. |
| `Recovery.ColumnIsRefuted` | mathgraph/autonomous_finite_recovery.py:75-80 | With the cache holding which constructor table satisfies which law, row p of column c is set exactly when table c is a countermodel of pair p. |
| `Recovery.RouteRefutes` | mathgraph/autonomous_finite_recovery.py:75-80 | A route recovers exactly the pairs refuted by the table of one of its columns. |
| `Recovery.TruePairsStayClean` | mathgraph/autonomous_finite_recovery.py:75-80 | Pairs without a countermodel are recovered by no route. |
| `Recovery.EvaluateFalsePairs` | mathgraph/autonomous_finite_recovery.py:56-72 | A pair is reported as recovered exactly when some table refutes it, with the first such table. |
| `Greedy.SelectRoute` | mathgraph/autonomous_finite_recovery.py:114-158 | For every matrix, budget and starting mask: each step takes the first free column of largest gain, the mask is the start joined with the selected columns, one row is logged per step, and the number of steps is the budget or the number of columns. |
| `Greedy.PickBest` | mathgraph/autonomous_finite_recovery.py:128-136 | The inner loop finds the first free column with the largest gain, or reports that none is free. |
| `Greedy.GreedyUnique` | mathgraph/autonomous_finite_recovery.py:114-158 | The route is determined by matrix and start; a smaller budget gives a prefix. |
| `Greedy.GreedyDistinct` | mathgraph/autonomous_finite_recovery.py:114-158 | No column is selected twice. |
| `Greedy.GainsNeverIncrease` | mathgraph/autonomous_finite_recovery.py:114-158 | Marginal gains never increase along a route. |
| `Greedy.GainsSumToGrowth` | mathgraph/autonomous_finite_recovery.py:114-158 | The gains sum to the growth of the mask. |
| `Greedy.NoColumnGainsMore` | mathgraph/autonomous_finite_recovery.py:128-136 | No column, taken ones included, gains more than the one chosen. |
| `Greedy.ZeroGainMeansDone` | mathgraph/autonomous_finite_recovery.py:137-158 | A zero gain means that no column at all can add a row any more. |
| `Greedy.StepClosesGap` | mathgraph/autonomous_finite_recovery.py:114-158 | One step gains at least a k-th of what any selection of k columns still has ahead, rows of an earlier start included or not. |
| `Greedy.EnoughBudgetReachesOracle` | mathgraph/autonomous_finite_recovery.py:114-158 | With as many steps as columns the route covers all that any selection covers. |
| `Greedy.GreedyBound` | mathgraph/autonomous_finite_recovery.py:114-158 | For every matrix, start, k >= 1 and selection U of at most k columns, after t steps: k^t * (cov(U) - cov(route)) <= (k-1)^t * cov(U), counting rows outside the start. |
| `Greedy.TwoPhaseBound` | mathgraph/autonomous_finite_recovery.py:114-158 | A greedy selection continued by a second one from its mask meets the bound for the sum of both step counts. |
| `RouteChain.RunStages` | mathgraph/autonomous_compounding_engine.py:146-164 | Whatever the lawbook hints are, the lawbook and the compact route equal the repaired route, which joins the generic route with a greedy repair, with a budget of at least one, on the rows left over; the generic route has half the budget of columns, rounded down, but at least one and at most all. |
| `RouteChain.RunNative` | mathgraph/autonomous_compounding_engine.py:146-180 | The repaired route extends the generic one; masks grow by inclusion up to the any-column oracle and reach it when the budget is at least the number of columns; there are as many of the four named episode rows as configured, at least one, and each holds its route's length, the rows its route covers, those it leaves, those it adds to the stage before, and the TRUE pairs it covers; the first two account for all recoveries, the last two never gain anything, and no stage contaminates more TRUE pairs than the repaired route. |
| `RouteChain.LawbookIndices` | mathgraph/autonomous_compounding_engine.py:407-427 | The result is the first `budget` of all hinted columns, each once: those named by number in the order of the hints, then those named by family in column order. |
| `RouteChain.CompactIndices` | mathgraph/autonomous_compounding_engine.py:430-436 | Every returned index is the column of a repair row. |
| `RouteChain.CompactKeepsBest` | mathgraph/autonomous_compounding_engine.py:430-436 | The rows kept are as many as the budget, at least one, or all of them; each kept row has a larger gain than every later and every dropped one, or the same gain and a smaller column. |
| `RouteChain.ExtendKeepsPrefix` | mathgraph/autonomous_compounding_engine.py:159-163 | Joining more columns and cutting to the larger of route length and budget keeps the route as a prefix, without repetition. |
| `RouteChain.RepairMaskIsTheRoutes` | mathgraph/autonomous_compounding_engine.py:148-150 | The mask recomputed from the joined route is the one the repair selection returned. |
| `RouteChain.RepairIsLongOrFull` | mathgraph/autonomous_compounding_engine.py:147-149 | The repaired route is as long as the budget, or it lists every column. |
| `RouteChain.ReuseChangesNothing` | mathgraph/autonomous_compounding_engine.py:159-160 | Lawbook reuse never changes the repaired route, whatever is recommended. |
| `RouteChain.CompactionChangesNothing` | mathgraph/autonomous_compounding_engine.py:162-163 | Nor does the compact atlas. |
| `RouteChain.ChainGrows` | mathgraph/autonomous_compounding_engine.py:147-163 | Prefixes and masks grow along the chain, inside the oracle, which a large enough budget reaches. |
| `RouteChain.PipelineBound` | mathgraph/autonomous_compounding_engine.py:147-164 | The whole pipeline meets the greedy bound: after the generic and repair steps together, k^t * (cov(U) - cov(route)) <= (k-1)^t * cov(U) for every selection U of at most k columns, although the route was cut into two runs. |
| `RouteChain.RepairBound` | mathgraph/autonomous_compounding_engine.py:147-150 | The repair steps alone meet it on the rows the generic route left over. |
| `RouteChain.StageRowsAdd` | mathgraph/autonomous_compounding_engine.py:372-389 | Recoveries and contamination of the four episode rows add up as stated for the native run. |
| `RouteChain.RouteLog` | mathgraph/autonomous_compounding_engine.py:439-460 | Row t of a stage's log holds the gain and the totals of its first t columns counted from an empty mask, and the last total is the mask of the route. |
| `Memory.Engine.Learn` | mathgraph/compounding_engine.py:161-165 | A new id goes to the front of its family's list, a known one changes nothing, and the log grows by one entry either way. |
| `Memory.LearnedFirst` | mathgraph/compounding_engine.py:161-168 | A newly learned constructor is tried first for its family by every memory policy; stored lists only grow, at the front. |
| `Memory.LearnedOk` | mathgraph/compounding_engine.py:161-165 | Stored ids stay distinct and inside the bank. |
| `Memory.MemoryStaysOk` | mathgraph/compounding_engine.py:234-266 | They do so before every task of any run, under any policy. |
| `Memory.OrderIsPermutation` | mathgraph/compounding_engine.py:300-312 | Every order tried is a permutation of the bank. |
| `Memory.FullBudgetSolvesAll` | mathgraph/compounding_engine.py:245-266 | With a budget of at least the bank, a task is solved exactly when some constructor of the bank is good for it. |
| `Memory.PoliciesAgreeAtFullBudget` | mathgraph/compounding_engine.py:234-266 | At full budget any two policies solve the same tasks, whatever memories they start from and gather. |
| `Memory.MemoryCostsAtMostItsHits` | mathgraph/compounding_engine.py:300-312 | At budget b a memory policy solves every task that the bank order solves at budget b minus the number of hits. |
| `Memory.LessonsAreKept` | mathgraph/compounding_engine.py:223-232 | What a training task taught stays in its family's list through all later training. |
| `Memory.TrainedTasksAreSolved` | mathgraph/compounding_engine.py:223-312 | A memory policy solves every training task that taught something within a budget of its family's list, wherever the constructor stands in the bank. |
| `Memory.Engine.TrainMemory` | mathgraph/compounding_engine.py:223-232 | The memory and the log after training are those of the tasks' lessons in turn, and the memory stays distinct and inside the bank. |
| `Memory.Engine.TrainOne` | mathgraph/compounding_engine.py:224-232 | Only the first constructor that passes the checker is offered to the gate; if the gate refuses it nothing is learned. |
| `Memory.Engine.TryTask` | mathgraph/compounding_engine.py:245-266 | The loop stops at the first good constructor within the budget, learns it, logs one row for each attempt and the accepted one, keeping all earlier rows. |
| `Memory.Engine.RunTask` | mathgraph/compounding_engine.py:238-276 | One task: its order, flags, counters and the memory after it, and exactly the rows it adds to the attempt, residual and decode logs. |
| `Memory.Engine.RunPolicy` | mathgraph/compounding_engine.py:234-298 | Over all tasks, said by policy name: memory, lawbook_attention and reason_atlas try the stored ids of the family first, in stored order, and then the rest of the bank in bank order, and the hits are the stored list; shuffled_null tries the shuffle; baseline and any other name try the bank; outside the first three no hit and no changed order is counted. Each task is handled with the memory gathered so far; every counter (solved, residual, attempts, accepted, rejected, hits, changed orders, decodes and successes) is the number of tasks or rows its name says; the logs grow by exactly the rows of the tasks in turn; attempts = accepted + rejected, solved = accepted, solved + residual = tasks, decode attempts = hits. |
| `Memory.RunHasMeaning` | mathgraph/compounding_engine.py:234-298 | Every run of the tasks in turn has a history of memories in which each task has the order, hits, attempts and lesson described. |
| `Memory.EventMeans` | mathgraph/compounding_engine.py:238-276 | The outcome of one task said without the functions that compute it: order by policy name, the first good constructor within the budget, its rows, its lesson. |
| `Memory.OrderByPolicy` | mathgraph/compounding_engine.py:300-312 | The order tried is the one described for the policy's name. |
| `Memory.NoHitsWithoutMemory` | mathgraph/compounding_engine.py:300-312 | A policy that does not read the memory counts no hit and no changed order, and logs no hit and no decode, in any run. |
| `Memory.CountOfIsSize` | mathgraph/compounding_engine.py:234-276 | The counting function is the size of the set of tasks so marked. |
| `Memory.CountersBalance` | mathgraph/compounding_engine.py:234-298 | Counters with that meaning balance, whatever the tasks were. |
| `Memory.FirstGoodExact` | mathgraph/compounding_engine.py:245-266 | The constructor that ends the attempts is good and all before it are not; without one, none within the budget is. |
| `ShapeSearch.Controller.RunSearch` | sair_v15_10_residual_witness_partition_constructor.py:1043-1145 | Over any run: a shape is marked blacklisted if and only if some first entries of the attempt log have no hit for it and at least 32 unsat answers, 18 unknown answers or 48 calls for it, counted as positions of the log. The run goes through clusters and probes in order: each probe is skipped exactly when its pair is no open FALSE pair or its shape is so barred, and otherwise asks its schedule in order until it hits or its own calls, the calls of the run or the time are used up; a cluster or the run ends early exactly when its loop condition fails. Every entry holds the solver's answer to its question, and its hits are the pairs it newly covers. Calls = length of the log = sum over the shapes, at most the call budget; new pairs = recoveries = hits summed over the shapes = growth of the mask; no pair is asked about again after it hit; a blacklisted shape never changes; and a shape with zero hits has used at most 47 + the probe cap calls. |
| `ShapeSearch.UncoveredWasTried` | sair_v15_10_residual_witness_partition_constructor.py:1043-1145 | After a run, a FALSE pair of the plan that is still uncovered has a blacklisted shape, or its whole schedule or as many questions as one probe may ask were asked in vain, or the time, the calls, the tables, the hits or the clusters were used up. |
| `ShapeSearch.BlacklistExact` | sair_v15_10_residual_witness_partition_constructor.py:937-948 | For every attempt log, the state of a shape is blacklisted if and only if some first entries of the log have no hit and at least 32 unsat, 18 unknown or 48 calls for it. |
| `ShapeSearch.FoldedCounts` | sair_v15_10_residual_witness_partition_constructor.py:937-948 | The counters of a shape are the numbers of log positions of each kind, and its hits are zero exactly when no entry for it has hit. |
| `SearchLog.ScheduleExact` | sair_v15_10_residual_witness_partition_constructor.py:1096-1112 | The schedule of a probe holds a question exactly when it asks one of the listed biases about the witness of one of the listed partitions, at an offset below the carrier and below three, on a listed carrier on which the source law has no more assignments than allowed. |
| `SearchLog.BlacklistIsFinal` | sair_v15_10_residual_witness_partition_constructor.py:937-948 | A shape blacklisted by the first entries of any attempt log is blacklisted by the whole log. |
| `ShapeSearch.Controller.MayOpen` | sair_v15_10_residual_witness_partition_constructor.py:1043-1047 | A cluster is begun exactly when the time, the calls, the tables, the hits and the clusters allow it and some FALSE pair is uncovered. |
| `ShapeSearch.Controller.ProbeInTime` | sair_v15_10_residual_witness_partition_constructor.py:1080-1082 | A probe is begun exactly when the time and the calls allow it. |
| `ShapeSearch.Controller.RunCluster` | sair_v15_10_residual_witness_partition_constructor.py:1080-1082 | The probes of a cluster run in order, until the time of the cluster or of the run is over or the calls are used up; all counters still agree, wherever a budget stops it. |
| `ShapeSearch.Controller.RunProbe` | sair_v15_10_residual_witness_partition_constructor.py:1083-1137 | A covered or unlabelled pair, or one with a blacklisted shape, costs no call and changes nothing that is counted; any other probe asks its schedule from the start, in order and without gaps, and stops before its end only after a hit or when its own calls, those of the run or the time are used up; it touches no other shape. |
| `ShapeSearch.Controller.TryPartitions` | sair_v15_10_residual_witness_partition_constructor.py:1099-1137 | After a hit it asks nothing more; otherwise the questions of the partitions follow in order, all of them unless the probe is halted. |
| `ShapeSearch.Controller.TryOffsets` | sair_v15_10_residual_witness_partition_constructor.py:1103-1137 | The questions of the first three offsets below the carrier follow in order, all of them unless the probe is halted; a partition with more blocks than the carrier is skipped without a call. |
| `ShapeSearch.Controller.TryBiases` | sair_v15_10_residual_witness_partition_constructor.py:1107-1134 | One question for each bias, in order, unless the probe is halted; all on this shape only. |
| `ShapeSearch.LogSnoc` | sair_v15_10_residual_witness_partition_constructor.py:1110-1129 | Adding an entry keeps the log an explanation of every stored state, and keeps it free of questions about pairs that had hit. |
| `ShapeSearch.Controller.Ask` | sair_v15_10_residual_witness_partition_constructor.py:1110-1129 | One call adds one to the calls, the log, the probe and the shape, its entry is the next question of the schedule, and the pair is done exactly when it hit. |
| `ShapeSearch.Controller.Consult` | sair_v15_10_residual_witness_partition_constructor.py:1112-1122 | The entry holds the solver's answer to this very question; a satisfying answer always hits and covers the pair, adds exactly what its table refutes and a new id; any other answer changes nothing. |
| `ShapeSearch.Controller.UseTable` | sair_v15_10_residual_witness_partition_constructor.py:1116-1123 | The checker accepts every table the solver returns for an uncovered pair, and its replay covers the pair and adds exactly what the table refutes. |
| `ShapeSearch.Controller.Record` | sair_v15_10_residual_witness_partition_constructor.py:937-948 | The stored state of the shape is updated and the sums over all shapes stay exact. |
| `ShapeSearch.Controller.Register` | sair_v15_10_residual_witness_partition_constructor.py:932-935 | A shape seen for the first time gets a state of zeros; known states are untouched. |
| `ShapeSearch.UpdatedOk` | sair_v15_10_residual_witness_partition_constructor.py:937-948 | An update keeps calls = unsat + unknown + sat, blacklists a barren shape, and never lets satisfying answers outnumber hits. |
| `ShapeSearch.ProbeIsBounded` | sair_v15_10_residual_witness_partition_constructor.py:937-948 | A probe that starts on a shape not blacklisted leaves it, while it has no hit, with at most 47 calls, 31 unsat and 17 unknown answers beyond the probe cap. |
| `ShapeSearch.BlacklistOutlivesHits` | sair_v15_10_residual_witness_partition_constructor.py:947-948 | Blacklisting and hits can coexist: a call of the probe that blacklisted a shape may still hit. |
| `ShapeSearch.SumUpdate` | sair_v15_10_residual_witness_partition_constructor.py:937-948 | Replacing one shape's count changes the total by the difference. |

## Left out

- Z3 itself, timeouts and clocks: the solver is a function returning some table that satisfies its constraints, or none. The clock is a function from the number of a reading to whether time is over, for a cluster and for the run; time that is over stays over.
- Completeness of the whole solver call: the symmetry and bias clauses constrain a table whose witness labels are already fixed, so `Witness.WitnessShapesLoseNothing` covers the range, source and target-witness clauses only.
- The two bias builders and constraint builders are written once with a parameter for the style of cell access, as they differ in nothing else than access and range clauses; their meaning is proved for both styles.
- Classify.ClassifySourceAndTarget: does not capture the cache of closures by source law, because a closure depends on the law alone.
- ShapeSearch.Controller.TryOffsets: the carrier, partition and bias schedules of a row are arbitrary inputs, so their heuristic scores are not modelled.
- ShapeSearch.Controller.RunSearch: the cluster plan is an arbitrary input; the choice of rows by priority and shape is not modelled, and checkpoints and printed lines are left out.
- The main loop of the sixteenth version: its replay and its closures are modelled, its rounds and re-queueing are not; the controller is the one of version 15.10.
- Memory.Engine.RunPolicy: the checker and the promotion gate are fixed predicates of task and constructor; certificates, ratios and the rows of the skipped policy are left out.
- Constructor ids in the bank are taken to be distinct, and a seeded shuffle to be some permutation of the bank.
- Table ids and signature hashes: an id is a function of the table, injective where a theorem needs it; the bytes of the digest are not modelled.
- Class statistics of a closure (largest class, rank, diagonal terms, signature text) and all feature columns of the queue: derived values with no invariant of their own.
- The text and index an equation carries, other than in `Syntax.ParsePrintedEquation`: no checker reads them.
- White space and characters: a text is a sequence of characters; only the white space that stripping, splitting and the tokenizer agree on is treated as such.
- File discovery, data frames, CSV, JSON and NumPy files, Lean templates, and the adapter, loop, service and benchmark modules: records and glue.
