# A verified model of SMCHR

SMCHR is a constraint solver: a clause-learning SAT engine drives theory solvers over a persistent
2-3-4 tree library, an indexed constraint store with an undo trail, a garbage collector of its own,
and a front end that normalises and clausifies formulas. This project models these parts in Dafny and
proves what each is for. Paths and line numbers below are those of the repository's C files.

## What is modelled

* **SAT engine** (`sat.c`; files `Sat*.dfy`). A class with the engine's trail, variable records, clauses,
  watch lists and activity order, updated in place by the same loops: two-watched-literal propagation,
  first-UIP analysis with local minimisation, backjumping, restarts, decay and decision selection. The main
  result is that the search ends and that an answer of unsatisfiable is right, for every set of duplicate-free
  clauses, with the case where a unit is set a second time at level 0 against its value; and what an answer of
  satisfiable leaves to be checked. The scan for decisions is followed through the whole run: two ghost fields
  record its passes and how often each variable was unset or watched by one more clause, and every free
  variable before the scan position is accounted for by a pass. Clause normalisation and subsumption for clauses
  added during the search are modelled on their own.
* **Simplex** (`solver_linear.c`, `gcd` in `misc.c`; `Rational.dfy`, `Linear*.dfy`). Exact rationals in lowest
  terms, sorted sparse rows, pivoting, substitution, bounds with reasons and an undo log. The tableau
  invariant is stated against the equations as they were added, so that no operation can change the solution
  set, and a conflict is proved against all rational assignments.
* **2-3-4 trees** (`tree.c`; `Tree*.dfy`). The persistent operations are functions on a datatype, refined to
  map update and removal for any exact total order; the destructive ones work on heap nodes with explicit
  ownership and are proved to leave exactly the tree that the persistent ones build; the iterator keeps its
  explicit stack in an array.
* **Garbage collector** (`gc.c`; `Gc*.dfy`). Mark bits in 64-bit words, the mark stack with the exchange of a
  half-scanned frame against the oldest new one, lazy sweeping in the allocator, and collection followed by
  any sequence of requests: no reachable object is handed out before it was freed. What the layout says of
  addresses, objects and words is pinned by two if-and-only-ifs.
* **Store and trail** (`store.c`, `trail.c`; `Store*.dfy`). A chained hash index that grows in place, linked
  lists of constraints with a tail pointer, entry moves that copy or append, deletion of purged constraints,
  and the log that takes any sequence of these back, attempts nested in attempts included. All of it is tied
  to a table from keys to lists of constraints, on which each operation is a line or two.
* **Scheduler** (`prop.c`; `PropQueue.dfy`). Queue heads, tails and intrusive links, refined to one queue for
  each priority, and those to one list in the order in which its members will run.
* **Bounds propagation** (`solver_bounds.c`; `Bounds.dfy`). Integer intervals with missing ends, and one
  handler for each kind of constraint. Every clause handed to the search engine is valid over the integers, every
  bound that a handler derives is the conclusion of one of them, no solution is lost, and the new bounds are stated
  exactly.
* **Front end** (`expr.c`, `pass_cnf.c`; `Expr*.dfy`, `Cnf*.dfy`, `IffElim.dfy`). The Boolean normal form,
  linear sums and comparisons, elimination of equivalences, and conversion to clauses with definitions.
* **Constraint handling rules** (`solver_chr.c`; `Chr*.dfy`). What a propagation rule means for a fixed store
  is a recursive function that knows nothing of registers or code. The compiler (a class that appends to an
  instruction buffer) and the interpreter (a class with registers, choicepoints, reason and stack) are each
  proved against a machine on values, and the main result is that running the compiled code does what the rule
  means. What it means is characterised by tuples of partners, and the reason of each conclusion literal by
  literal.

Calls into code outside the model are parameters: a comparison function for trees, the store and the
equality solver as seen by a rule, the priority of a propagator, memory contents and root ranges for the collector.

## What the proofs found

Where the code does not do what its name or its documentation suggests, the code is modelled as it is and the exact
condition is proved.

* The destructive tree map (`tree.c:3345-3381`) leaves out the fourth child of a full node: `MapInPlaceIff`.
* The upper bound of `z` in `x = y + z` is compared the wrong way round (`solver_bounds.c:840`) and never
  lowered: `ThirdPart`. `ThirdPartIff` says when nothing is lost by it, `ThirdPartMisses` is an input where
  something is.
* A propagator that schedules itself while it runs, after its constraint was purged, keeps its link
  (`prop.c:54-66`) and cannot be scheduled again, even after the purge is undone: `Schedule` gives the exact
  condition, `ForgetsItself` and `NeverAgain` what follows in every later course of events.
* A variable that occurs twice in one partner and is not bound before is not compared with itself
  (`solver_chr.c:1510-1524`): `p(X,X)` takes `p(1,2)`. `LinearIffFits` and `FitsWhenEqual` say when a match is
  right; `RepeatedFires` runs the compiled code of a rule that fires on it.
* A request that finds its region full still moves the first fresh index on (`gc.c:507-513`), and after enough
  of them a sweep makes objects past the region's end available: `Sweep` gives the exact condition,
  `PastTheEnd` an instance.
* The second loop of row substitution (`solver_linear.c:742-747`) copies the variable to be replaced if the
  other row ran out first: `SubstituteRemovesIff`. `RowReachesUp` shows that this cannot happen on a reachable
  tableau.

## Model

| member | source | states |
|---|---|---|
| `SatSolver.Solver.Solve` | sat.c:683-737 | the search always ends; `false` means that no interpretation satisfies the clauses added; `true` means that no stored clause is false or unit, that no variable from the scan position on is worth deciding, and that every free variable before it was not worth deciding when a pass of the scan went over it and has since been neither unset nor watched by one more clause; if those before it are still not worth deciding, which is what the engine's disabled check asks for (`sat.c:905-942`), the assignment, free variables being false, is a model of the input |
| `SatSolver.Solver.Propagate` | sat.c:267-387 | setting a literal and propagating ends with every trail literal visited and every clause guarded, or the input is unsatisfiable; each conflict on the way makes progress in a measure on learnt clauses and level-0 variables; no free variable that was unset or got a watch on the way stands before the scan position |
| `SatSolver.Solver.Scan` | sat.c:280-353 | after one watch list is scanned, either the next trail position is fully propagated or a clause that watches the literal is false in every literal |
| `SatSolver.Solver.Visit` | sat.c:288-352 | one watched clause: a true partner, a replacement watch, an implied literal or a conflict, each keeping the scan invariant |
| `SatSolver.Solver.MoveWatch` | sat.c:340-351 | the clause changes watch lists, and the variable it watches now is not before the scan position |
| `SatSolver.Solver.Backtrack` | sat.c:451-609 | from a falsified clause: nil only if the input is unsatisfiable, otherwise a literal that may be set next with the learnt clause, which is entailed and new, as its reason; the scan falls back to every variable that was unset, moved forward in the order or got a watch |
| `SatSolver.Solver.Analyse` | sat.c:451-574 | conflict analysis yields an entailed clause whose first literal alone is from the conflict level and the level to go back to |
| `SatSolver.Solver.FindUip` | sat.c:499-546 | the walk down the trail stops at the first unique implication point, the clause read off the marks being entailed at every stop; the variable of that point is not before the scan position afterwards |
| `SatSolver.Solver.IsRedundant` | sat.c:556-565 | a literal is dropped exactly if its reason has only marked literals besides its own |
| `SatSolver.Solver.Simplify` | sat.c:548-574 | the learnt clause starts with the negated UIP, keeps every conflict that is not redundant, and has a literal of the highest remaining level second |
| `SatSolver.Solver.JumpBack` | sat.c:576-599 | unwinding, clearing the marks and storing the learnt clause have exactly their specified effect; the scan falls back to every variable that was unset or got a watch |
| `SatSolver.Solver.Unwind` | sat.c:615-629 | the trail is cut at the first literal at or below the level, exactly the variables behind the cut are free again, and the scan falls back to all of them |
| `SatSolver.Solver.Unset` | sat.c:247-262 | the variable is free, the others are as before, and it is not before the scan position |
| `SatSolver.Solver.InitClause` | sat.c:1152-1193 | an empty clause sets the flag, a unit is recorded with its variable or sets the flag if its negation is recorded, a longer clause is listed under its first two literals |
| `SatSolver.Solver.AddClause` | sat.c:1144-1147 | the formula grows by the clause and all invariants hold again |
| `SatSolver.Solver.AddVar` | sat.c:796-824 | a new variable has empty watch lists, no unit flag and the last place in the order |
| `SatSolver.Solver.BumpClause` | sat.c:897-903 | every variable gains as much activity as it has occurrences in the clause, others none; no variable gets before the scan position |
| `SatSolver.Solver.ShouldSelect` | sat.c:958-1003 | nothing is decided on a variable exactly if it is set or every clause that watches it, of either sign, has a true partner |
| `SatSolver.Solver.SelectLiteral` | sat.c:1008-1123 | a free literal, whose variable stands directly before the new scan position, every variable from the old position up to it not being worth deciding; or nil, and then no variable from the scan position on is worth deciding |
| `SatSolver.Solver.Restart` | sat.c:660-678 | back to level 1 with a prefix of the trail that is never empty; nothing fixed at level 0 is lost, the propagated state stays propagated, and the scan falls back to every variable that was unset |
| `SatSolver.Solver.RestartWhenDue` | sat.c:714-719 | a restart exactly when as many conflicts were met as the next term of the sequence says, which puts off the next one |
| `SatSolver.Solver.AssertUnits` | sat.c:691-706 | all unit clauses are propagated at level 0, or the input is unsatisfiable; nothing free stands before the scan position that was not passed over |
| `SatSolver.Solver.Decide` | sat.c:712-735 | one decision keeps the search state, and what is known of the variables passed over, or refutes the input; it always lowers the termination measure |
| `SatAnalysis.MinimizedEntailed` | sat.c:553-567 | dropping literals whose reasons are fully marked keeps the clause entailed |
| `SatAnalysis.MarkedFromReason` | sat.c:516-544 | resolving the marked clause with a reason keeps it entailed |
| `SatAnalysis.ReasonExists` | sat.c:512-518 | while more than one marked literal is from the conflict level, the last one on the trail has a reason |
| `SatAnalysis.ExtendNogood` | sat.c:566-573 | appending a conflict keeps the literal of the highest level second |
| `SatBackjump.LearntClause` | sat.c:451-574 | the learnt clause is entailed, all false, not stored before, and only its first literal is from the conflict level |
| `SatBackjump.NogoodFalse` | sat.c:548-574 | levels of the learnt clause: the first above all others, the second the level to return to |
| `SatBackjump.LearntAfterUnwind` | sat.c:576-599 | after unwinding the first literal is free and all others are still false at their old levels |
| `SatBackjump.Backjump` | sat.c:576-608 | after unwinding and storing, all invariants hold and the first literal may be asserted with the new clause as reason, or the input is refuted |
| `SatBackjump.UnwindKeeps` | sat.c:615-629 | backjumping below the waiting literals leaves every clause guarded and nothing waiting |
| `SatBackjump.AssertLearnt` | sat.c:591-608 | asserting the learnt literal keeps the propagation queue sound |
| `SatBackjump.FlipDooms` | sat.c:273-278 | a unit set again at level 0 against its value makes some clause false, which the following scan must meet |
| `SatBackjump.LearntShrinks` | sat.c:451-609 | each learnt clause is new, so the clauses that can still be learnt get fewer |
| `SatBackjump.LearntWatches` | sat.c:591-608 | the learnt clause watches the variable of the implication point and one that is still set |
| `SatSteps.ScanComplete` | sat.c:280-353 | once a watch list is scanned, every false watch propagated so far has a true partner of no higher level |
| `SatSteps.MoveKeeps` | sat.c:341-352 | exchanging a false watch for a literal that is not false keeps watch lists, reasons, guards and the part already scanned |
| `SatSteps.ImplyKeeps` | sat.c:309-328 | implying the free partner keeps all invariants: the implied literal stands first in its reason |
| `SatSteps.AssignKeeps` | sat.c:227-245 | setting a literal that is forced, entailed at level 0 or a decision keeps all invariants |
| `SatPropagation.MoveKeepsWatchLists` | sat.c:1511-1545 | moving a clause between watch lists keeps every clause listed once under exactly its first two literals |
| `SatPropagation.SwapKeepsReasons` | sat.c:341-344 | exchanging literals of a clause whose first literal is not true disturbs no reason |
| `SatPropagation.ImpliedAtZero` | sat.c:309-328 | at level 0 a clause with one literal left entails that literal |
| `SatSearch.ReadyMissesNothing` | sat.c:267-353 | in a propagated state every clause has a true watch or two free ones |
| `SatSearch.ReadyModel` | sat.c:958-1003 | if no variable is worth deciding in a propagated state, giving the free ones false satisfies every clause of the input: why decisions may pass over them |
| `SatSearch.RestartKeeps` | sat.c:660-678 | cutting the trail to level 0 keeps the search state and at least the variable asserted true |
| `SatScan.TouchFallsBack` | sat.c:259-261 | lowering the position to a variable that is unset or gets a watch lets the scan fall back to it |
| `SatScan.RanksFallBack` | sat.c:884-891 | moving a variable forward in the order brings none before the scan position |
| `SatScan.LearntFallsBack` | sat.c:451-609 | analysis, unwinding and storing the learnt clause: what is before the scan position afterwards was there before, and if it is free it was left alone |
| `SatScan.AccountedPass` | sat.c:1066-1076 | a pass that ends at a selected variable accounts for those it went over |
| `SatScan.AccountedSet` | sat.c:227-245 | setting the selected literal, and whatever propagation does then, leaves no free variable before the position unaccounted for |
| `SatScan.AccountedLater` | sat.c:905-942 | steps that let the scan fall back keep every free variable before the position accounted for |
| `SatOrder.VarOrder.AddVar` | sat.c:796-824 | the order stays a permutation sorted by activity, with its inverse |
| `SatOrder.VarOrder.Bump` | sat.c:853-892 | one variable gains one activity and is exchanged to the front of everything less active; the order stays a sorted permutation with exact inverse |
| `SatOrder.VarOrder.FirstBelow` | sat.c:864-881 | the binary search finds the first position with smaller activity |
| `SatOrder.VarOrder.Decay` | sat.c:946-953 | halving all activities keeps the order sorted |
| `SatLuby.LubyTerm` | sat.c:634-655 | the bit computation returns the terms of the reluctant doubling sequence |
| `SatLuby.LubyBlocks` | sat.c:634-655 | the sequence repeats its first half and then doubles |
| `SatLazyClause.InsertLiteral` | sat.c:1199-1300 | placing a literal in the buffer has exactly the specified effect |
| `SatLazyClause.PlacedIsWatched` | sat.c:1199-1300 | placing keeps the multiset of literals and the watch conditions: the best literal first; if it is free, a second free literal or else the false one of highest level; if all are false, the two highest levels in order |
| `SatLazyClause.Normalise` | sat.c:1313-1349 | a tautology is recognised, else the literals without duplicates and constants remain, in order, well watched; marks are clear again |
| `SatLazyClause.NormalisedMeaning` | sat.c:1313-1349 | normalising keeps what the clause says, variable 0 being true |
| `SatLazyClause.UselessMeaning` | sat.c:1313-1349 | a clause rejected as a tautology holds always |
| `SatLazyClause.IsSubsumed` | sat.c:1465-1502 | true exactly if some clause that watches a leading free literal covers the new one |
| `SatLazyClause.CoveredIsRedundant` | sat.c:1465-1502 | whatever satisfies a covering clause satisfies the covered one under the present assignment |
| `LinearSolver.Simplex.Solve` | solver_linear.c:380-385 | solved: the values satisfy every equation and every bound; conflict: no rational assignment satisfies the equations and the bounds listed, all of them current; the run is a chain of pivots, each of which brings the first variable out of bounds to the bound it violated, and it is given up exactly after `fuel` of them |
| `LinearSolver.Simplex.Step` | solver_linear.c:390-529 | the first row out of bounds is pivoted on an entry that can move, its variable going to the violated bound, or a real conflict is reported and nothing changes, or all rows are within bounds |
| `LinearSolver.Simplex.Repair` | solver_linear.c:402-465 | a pivot on an entry that can move, or a conflict that no solution of the equations respects |
| `LinearSolver.Simplex.FindEntry` | solver_linear.c:405-425 | the first entry that can move; all before it are pinned to the bound that is listed for them |
| `LinearSolver.Simplex.Pivot` | solver_linear.c:477-528 | exactly the exchange of a basic and a nonbasic variable; the tableau invariant and the nonbasic bounds hold afterwards |
| `LinearSolver.Simplex.Eliminate` | solver_linear.c:489-502 | every other row that has the pivot variable is rewritten without it and its value recomputed, the others are as before |
| `LinearSolver.Simplex.UpdateRow` | solver_linear.c:571-657 | merging a multiple of one row into another and inserting one entry in order, with the value computed on the way |
| `LinearSolver.Simplex.Update` | solver_linear.c:360-375 | a nonbasic variable gets its value and the equations stay true |
| `LinearSolver.Simplex.AdjustRow` | solver_linear.c:360-375 | the value of one row is adjusted by the change times the coefficient |
| `LinearSolver.Simplex.SetLb` | solver_linear.c:896-912 | a tighter lower bound is recorded with its reason and undo entry, a looser one ignored, a clash explained by two bounds; what backtracking will bring back is unchanged |
| `LinearSolver.Simplex.SetUb` | solver_linear.c:917-933 | the same for upper bounds |
| `LinearSolver.Simplex.SetLbReason` | solver_linear.c:322-336 | the bound is replaced and a nonbasic value below it moved up to it, no other nonbasic value changing; what backtracking will bring back is unchanged |
| `LinearSolver.Simplex.SetUbReason` | solver_linear.c:341-355 | the same for upper bounds |
| `LinearSolver.Simplex.Backtrack` | solver_linear.c:322-355 | exactly the logged bounds are put back, each with its reason; values stay, and nonbasic ones are within the bounds again |
| `LinearSolver.Simplex.TryAll` | trail.c:84-100 | after any requests, up to the first conflict, and backtracking, all bounds and all their reasons are those of the start |
| `LinearSolver.Simplex.InitVar` | solver_linear.c:666-686 | a new variable without bounds and row |
| `LinearSolver.Simplex.Rewrite` | solver_linear.c:782-796 | rewriting a form until no basic variable is left keeps its value in every solution |
| `LinearSolver.Simplex.AddRow` | solver_linear.c:768-808 | a new equation for a fresh slack is added to the solution set; rows stay sorted and free of basic variables |
| `LinearSolver.Simplex.AddSubSub` | solver_linear.c:813-865 | the slack equals x - y - z in every solution |
| `LinearSolver.Simplex.AddSubTimes` | solver_linear.c:870-891 | the slack equals x - c*y in every solution |
| `LinearTableau.ConflictIsReal` | solver_linear.c:402-465 | a row whose entries are all pinned cannot reach the bound: no solution of the equations respects the listed bounds |
| `LinearTableau.PivotEquivalent` | solver_linear.c:484-523 | pivoting keeps the solution set |
| `LinearTableau.PivotKeepsRows` | solver_linear.c:484-526 | pivoting keeps rows strictly sorted, basic variables out of rows and the row index exact |
| `LinearTableau.PivotKeeps` | solver_linear.c:477-528 | the tableau invariant holds after a pivot, values included |
| `LinearTableau.RowReachesUp` | solver_linear.c:742-747 | no row is ever empty, and the row of a variable that is no slack has an entry above that variable: what the unchecked tail loop of substitution relies on |
| `LinearTableau.SubstituteKeeps` | solver_linear.c:704-763 | substituting a basic variable works on every reachable tableau, keeps the form's meaning and leaves one basic variable less |
| `LinearTableau.AddRowKeeps` | solver_linear.c:768-808 | adding a rewritten row keeps the tableau invariant |
| `LinearTableau.LoosenKeepsBounds` | solver_linear.c:322-355 | loosening bounds keeps nonbasic values within them |
| `LinearRow.Lookup` | solver_linear.c:534-549 | the binary search stops at the entry of the variable if the row has one |
| `LinearRow.Merge` | solver_linear.c:571-657 | the loops compute the merge of a row with a multiple of another, dropping zero coefficients |
| `LinearRow.SubstituteRow` | solver_linear.c:704-763 | the loops compute the specified substitution, tail loops included |
| `LinearRow.SubstituteMerges` | solver_linear.c:704-763 | substitution is removal of the variable followed by merging, if the tail loop is not the one to meet it |
| `LinearRow.SubstituteRemovesIff` | solver_linear.c:742-747 | substitution removes the variable if and only if the substituted row reaches it: the copying loop does not look for it |
| `LinearRow.SubstituteMisses` | solver_linear.c:742-747 | otherwise the variable stays in the row |
| `LinearRow.Replace` | solver_linear.c:504-522 | shifting entries puts the leaving variable in its sorted place |
| `Rational.Gcd` | misc.c:63-95 | the loop with repeated subtraction computes Euclid's divisor, with the sign conventions of its shortcuts |
| `Rational.GcdDivisors` | misc.c:63-95 | the result is divided by exactly the common divisors of the arguments |
| `Rational.Bezout` | misc.c:63-95 | the divisor is an integer combination of the arguments |
| `Rational.OperationsExact` | solver_linear.c:60-121 | sum, difference, product and quotient are exact and in lowest terms |
| `Rational.LowestIsUnique` | solver_linear.c:42-49 | in lowest terms equal values have equal parts |
| `TreeOrder.PutIsUpdate` | tree.c:716-737 | the list specification of insertion is map update |
| `TreeOrder.DropIsRemoval` | tree.c:1384-1388 | the list specification of deletion is map removal |
| `TreeOrder.FromKeeps` | tree.c:3043-3167 | the list specification of an iterator started at a key keeps exactly the bindings not below it |
| `TreeOrder.NeighboursAreNearest` | tree.c:500-711 | the neighbours of a key are the nearest bindings on either side |
| `Tree.InsertIsUpdate` | tree.c:716-1031 | for any exact total order insertion is map update, keeps keys sorted and leaves level, and grows the tree exactly when its root was full or absent |
| `Tree.DeleteIsRemoval` | tree.c:1384-1604 | deletion is map removal and returns the removed binding; keys stay sorted, leaves level, and the flag tells exactly whether a level was lost |
| `Tree.Delete2Drops` | tree.c:1390-1604 | the recursive deletion drops the key from the ascending list, at every arity and position |
| `Tree.DeleteMin2` | tree.c:1615-1684 | the first binding is taken off and the flag is right; the empty tree gives nothing |
| `Tree.DeleteMax2` | tree.c:1695-1764 | the last binding is taken off and the flag is right |
| `Tree.Fix2t0` | tree.c:1766-1807 | rebuilding around a left child that lost a level keeps the bindings and levels the leaves |
| `Tree.Fix2t1` | tree.c:1809-1850 | the same for the right child |
| `Tree.Fix3t0` | tree.c:1852-1893 | the same in a node of three, first child |
| `Tree.Fix3t1` | tree.c:1895-1936 | second child |
| `Tree.Fix3t2` | tree.c:1938-1979 | third child |
| `Tree.Fix4t0` | tree.c:1981-2023 | the same in a node of four, first child |
| `Tree.Fix4t1` | tree.c:2025-2067 | second child |
| `Tree.Fix4t2` | tree.c:2069-2111 | third child |
| `Tree.Fix4t3` | tree.c:2113-2155 | fourth child |
| `Tree.SizeIsLength` | tree.c:2898-2924 | the size is the number of bindings |
| `TreeSearch.Search` | tree.c:222-322 | the walk down finds the value bound to the key, or that there is none |
| `TreeSearch.SearchMin` | tree.c:368-429 | the first binding |
| `TreeSearch.SearchMax` | tree.c:434-495 | the last binding |
| `TreeSearch.SearchesAreNearest` | tree.c:500-711 | the two searches return the greatest binding below and the least above the key, or that there is none |
| `TreeSearch.MapAppliesToAll` | tree.c:3300-3340 | mapping changes every value and nothing else |
| `TreeSearch.MapInPlaceIff` | tree.c:3345-3381 | the destructive map skips the fourth child of every full node: it agrees with the persistent one exactly if those subtrees hold only values that the function fixes |
| `TreeSearch.MapInPlaceMisses` | tree.c:3345-3381 | a tree on which the two maps differ |
| `TreeIterator.TreeIterator.Init` | tree.c:3005-3038 | the iterator stands before all bindings in ascending order, its stack no deeper than the tree |
| `TreeIterator.TreeIterator.InitGeq` | tree.c:3043-3167 | started at a key it stands before exactly the bindings not below that key |
| `TreeIterator.TreeIterator.Get` | tree.c:3172-3213 | the first remaining binding |
| `TreeIterator.TreeIterator.Next` | tree.c:3218-3295 | one binding less remains, the others in order |
| `TreeIterator.TurnFinds` | tree.c:3043-3167 | at each node the turn taken leaves exactly the bindings from the key on |
| `TreeDestructive.DestructiveInsert` | tree.c:1036-1059 | insertion in place leaves exactly the tree that the persistent one builds, every node reached once |
| `TreeDestructive.Insert2` | tree.c:1064-1182 | the same below a node of two |
| `TreeDestructive.Insert3` | tree.c:1187-1379 | the same below a node of three |
| `TreeDestructive.DestructiveDelete` | tree.c:2160-2165 | deletion in place leaves exactly the tree and returns exactly the binding of the persistent one |
| `TreeDestructive.DestructiveDelete2` | tree.c:2167-2371 | the same for the recursive step, flag included |
| `TreeDestructive.DestructiveDeleteMin2` | tree.c:2382-2456 | the same for taking off the first binding |
| `TreeDestructive.Fix2` | tree.c:2458-2554 | rebuilding in place a node of two gives what the persistent fix builds |
| `TreeDestructive.Fix3` | tree.c:2556-2698 | the same for a node of three |
| `TreeDestructive.Fix4` | tree.c:2700-2893 | the same for a node of four |
| `TreeDestructive.DestructiveMap` | tree.c:3345-3381 | the map in place has exactly the modelled effect, the skipped child included |
| `StoreTable.Store.Backtrack` | trail.c:84-100 | after any logged inserts, moves, deletions and growths since a choicepoint, every key is found again with the list it had there |
| `StoreTable.Store.Perform` | trail.c:61-100 | any sequence of inserts, moves, deletions, growths and nested attempts keeps every state that was remembered restorable, and makes of the stored constraints what the same sequence makes of a table from keys to lists |
| `StoreTable.Store.Try` | trail.c:84-100 | any sequence of operations after a choicepoint, attempts nested in it included, is taken back by backtracking: every search finds what it found at the choicepoint, and the trail is as it was |
| `StoreTable.Store.Insert` | store.c:193-230 | afterwards a search for the key finds the new constraint and then what it found before; searches for other keys find the same; the state before can be restored |
| `StoreTable.Store.NewEntry` | store.c:193-230 | a new entry in front of its chain, with its undo item |
| `StoreTable.Store.MoveEntry` | store.c:339-394 | the constraints of the old key follow those of the new one, appended if the new key has an entry, as a copy otherwise; the old key finds nothing and other keys find the same |
| `StoreTable.Store.Append` | store.c:339-394 | the entry at the new key takes over the list |
| `StoreTable.Store.Copy` | store.c:339-394 | a copied entry at the new key takes over the list |
| `StoreTable.Store.DeletePurged` | store.c:260-305 | of the constraints under one key the purged ones behind the first go, the others stay in order; other keys keep theirs |
| `StoreTable.Store.Grow` | store.c:455-514 | the table doubles and each chain is spread over two buckets; nothing else changes |
| `StoreTable.Store.Lookup` | store.c:121-134 | the entry of a key is found if and only if there is one |
| `StoreTable.Store.Search` | store.c:121-134 | the head of the list of a key, which holds the first of its constraints, or nothing if the key is not stored |
| `StoreTable.Store.UndoItem` | store.c:165-188 | each undo routine has exactly its specified effect and keeps the index exact |
| `StoreTable.Store.UndoMove` | store.c:399-450 | taking back a move puts the entry and the lists back |
| `StoreTable.Store.UndoLast` | trail.c:84-100 | the last item of the log leads back to the state before it was written |
| `StoreTable.Store.Log` | trail.c:61-71 | an operation is logged with an inverse |
| `StoreTable.CarriesTrans` | trail.c:61-100 | operations in sequence carry along whatever could be restored before |
| `StoreTable.CarriesSince` | trail.c:84-100 | a state remembered at a choicepoint is still remembered after an operation |
| `StoreCore.UndoAgrees` | trail.c:84-100 | undoing depends only on what is stored, so garbage left by other operations does not matter |
| `StoreCore.AgreeFinds` | store.c:121-134 | states that agree give every search the same result in the same order |
| `StoreContents.FindsIsContents` | store.c:121-134 | walking the chains and lists finds exactly what the table has under a key |
| `StoreContents.StoredFinds` | store.c:193-230 | storing in the table: the constraint comes first under its key, and nothing changes under another |
| `StoreContents.RenamedFinds` | store.c:339-394 | renaming in the table: the old key finds nothing, the new one its own constraints and then those of the old, other keys the same |
| `StoreContents.InsertFrontContents` | store.c:205-230 | a node put in front of the list of an entry stores its constraint under the key of the entry |
| `StoreContents.InsertNewContents` | store.c:193-204 | a new entry with one node stores its constraint under the new key |
| `StoreContents.MoveMergeContents` | store.c:339-394 | appending one list to another renames the key in the table |
| `StoreContents.MoveCopyContents` | store.c:339-394 | so does copying the entry to a key that had none |
| `StoreContents.KeptCons` | store.c:260-305 | the nodes that deletion keeps hold the first constraint and those of the others that are not purged |
| `StoreContents.UnpurgedIs` | store.c:260-305 | exactly the constraints that are not purged stay, as often as they were there |
| `StoreContents.UnpurgedJoins` | store.c:260-305 | they stay in order: what is left of two lists joined is what is left of each, joined |
| `StoreContents.CleanedContents` | store.c:260-305 | deletion cleans one key of the table and leaves the others |
| `StoreContents.AgreeContents` | trail.c:84-100 | states that agree, such as one remembered and the one restored, have the same table |
| `StoreCore.MoveMergeUndone` | store.c:399-450 | undoing an appending move cuts the appended list off again |
| `StoreCore.MoveCopyUndone` | store.c:399-450 | undoing a copying move puts the entry back |
| `StoreCore.AddEntryUndone` | store.c:165-188 | undoing an insert removes the entry |
| `GcMark.Marker.Mark` | gc.c:602-755 | after marking, an object is marked if and only if a chain of words leads to it from the roots; marking ends |
| `GcMark.Marker.Scan` | gc.c:666-755 | one frame is scanned, or exchanged with the oldest new one when many were pushed: no waiting frame is lost and nothing unreachable is marked |
| `GcMark.Marker.MarkIndex` | gc.c:634-647 | one mark bit is set, and whether it was new is reported |
| `GcMark.ClearFit` | gc.c:602-629 | cleared marks mark nothing |
| `GcMark.TargetExact` | gc.c:708-724 | there, an address belongs to an object exactly if it is that of one of its bytes and the object is one of the region's |
| `GcMark.WordsExact` | gc.c:735-740 | where regions are aligned and lie in their own spans, the words scanned for an object are exactly those whose address belongs to it |
| `GcBits.SetBitSets` | gc.c:634-647 | setting one bit of a word array sets that bit and no other |
| `GcAlloc.Allocator.Malloc` | gc.c:463-532 | what is handed out was available and is no longer, and lies in the region if all that was available did; nothing is handed out exactly when nothing is available, and then the first fresh index moves on all the same |
| `GcAlloc.Allocator.SweepSome` | gc.c:483-504 | lazy sweeping moves unmarked objects to the free list without changing what is available |
| `GcAlloc.Allocator.Free` | gc.c:559-569 | an object given back is available again |
| `GcAlloc.Allocator.Sweep` | gc.c:760-820 | a new round makes available exactly the unmarked objects and the space above the last marked one; all of it lies in the region exactly if the first fresh index was at most two past twice the region's end |
| `GcAlloc.PastTheEnd` | gc.c:507-513 | a region of one object, five requests and a sweep: an object past the region's end is available |
| `GcAlloc.NotHandedOut` | gc.c:463-532 | in a run an object that was not available, such as a marked one, is handed out only after it was freed; `GcCycle.Serve` shows that serving requests is a run |
| `GcAlloc.HandedOutOnce` | gc.c:463-569 | in a run an object handed out twice was freed in between |
| `GcCycle.Serve` | gc.c:463-569 | any requests and returns, answered one by one, are the run of the allocator that those requests with those answers make, leading from what was available to what is; an object is refused exactly when none is available; the objects stay inside the region if they were |
| `GcCycle.Collect` | gc.c:574-597 | marking and sweeping: no reachable object is available afterwards, and whatever else is in the region is |
| `GcCycle.CollectAndServe` | gc.c:463-597 | after a collection, and whatever is then asked for and given back, what happens is what was asked for and answered; no reachable object is handed out before it was freed, and none twice without being freed in between |
| `ExprForm.NotNot` | expr.c:1708-1725 | negating twice gives back the same expression, through nested conjunctions and disjunctions |
| `ExprForm.NotMeans` | expr.c:1696-1725 | negation negates |
| `ExprForm.AndMeans` | expr.c:1565-1604 | conjunction is conjunction in every assignment |
| `ExprForm.OrMeans` | expr.c:1609-1647 | disjunction is disjunction in every assignment |
| `ExprForm.AndNormal` | expr.c:2557-2656 | conjunctions are flat, without constants, with negation on leaves only |
| `ExprForm.OrNormal` | expr.c:2665-2751 | the same for disjunctions |
| `ExprForm.IffKeeps` | expr.c:1660-1683 | equivalence keeps meaning and form |
| `ExprForm.IffSymmetric` | expr.c:1660-1683 | the two sides of an equivalence may be exchanged: the expression is the same |
| `ExprForm.MergeArgs` | expr.c:2557-2575 | the merging loop gives the union, or the contradiction, whichever side is added to the other |
| `ExprForm.NegateArgs` | expr.c:2760-2801 | the negating loop gives the map of negated operands |
| `ExprForm.MakeAnd` | expr.c:1565-1604 | the constructor with its loops computes the specified conjunction |
| `ExprForm.MakeOr` | expr.c:1609-1647 | the constructor with its loops computes the specified disjunction |
| `ExprLinear.PlusAdds` | expr.c:1376-1409 | sums add coefficient by coefficient and stay in normal form |
| `ExprLinear.MakeSum` | expr.c:1376-1409 | the constructor, with its loop over the summands, computes the specified sum |
| `ExprLinear.NegNegates` | expr.c:1423-1437 | negation negates every coefficient and keeps the normal form |
| `ExprLinear.SameExpr` | expr.c:2210-2232 | in normal form equal coefficients mean equal expressions |
| `ExprLinear.ContentIs` | expr.c:2171-2188 | the factor taken out of a sum is positive and divides every coefficient |
| `ExprLinear.TakeContent` | expr.c:2171-2188 | the loop over the coefficients computes that factor |
| `ExprLinear.ScaledPrimitive` | expr.c:2834-2840 | the difference kept in a comparison has no common factor left |
| `ExprLinear.CompareKeeps` | expr.c:2820-2892 | over the integers a comparison is true exactly when its normal form is, the bound form of one variable included |
| `ExprLinear.ComparisonKeeps` | expr.c:1734-1804 | all six comparisons keep their truth |
| `ExprLinear.OppositeSharesAtom` | expr.c:1734-1804 | a comparison and its opposite become one atom and its negation |
| `ExprLinear.EqualSharesAtom` | expr.c:1734-1756 | a = b and b = a are one atom |
| `ExprLinear.StrictSharesAtom` | expr.c:2842-2882 | for a variable x and a number c, x < c is the negation of the atom of x > c - 1 |
| `ExprLinear.ScaledNeg` | expr.c:2834-2840 | scaling to no common factor commutes with negation |
| `ExprLinear.ContentNeg` | expr.c:2171-2188 | a sum and its negation have the same positive factor taken out |
| `Cnf.PassCnf` | pass_cnf.c:115-156 | an assignment satisfies the input exactly if some change of the fresh variables satisfies both outputs; the first is a conjunction of disjunctions of signed variables |
| `Cnf.Converter.TopLevel` | pass_cnf.c:115-156 | the top conjunction operand by operand: each stays or becomes a signed variable or a clause with the same truth |
| `Cnf.Converter.NextLevel` | pass_cnf.c:161-186 | one level down: a disjunction of signed variables, or a variable, with the same truth |
| `Cnf.Converter.Arg` | pass_cnf.c:191-245 | the variable returned is forced to mean the operand |
| `Cnf.Converter.Node` | pass_cnf.c:196-241 | the clauses for one node force its fresh variable to mean the node |
| `Cnf.Converter.Operand` | pass_cnf.c:203-216 | one operand adds its clause and lengthens the other one |
| `Cnf.Converter.InsertIff` | pass_cnf.c:260-273 | a constraint has one name, reused when it comes again |
| `Cnf.Converter.ToIffs` | pass_cnf.c:286-295 | the second output says exactly that every name equals its constraint |
| `Cnf.BothConverted` | pass_cnf.c:115-156 | why the two outputs are satisfiable together exactly when the input is, with the original variables unchanged |
| `CnfContext.AddClauseKeeps` | pass_cnf.c:278-281 | a clause that the fresh variables' meanings satisfy keeps the extension property |
| `IffElim.Eliminate` | pass_cnf.c:57-110 | the result is equivalent in every assignment, in normal form, and has no equivalence of formulas |
| `IffElim.EliminateArgs` | pass_cnf.c:65-80 | the accumulator loop over operands keeps meaning and form |
| `IffElim.SpellOut` | pass_cnf.c:81-97 | both ways of spelling out an equivalence are equivalent to it |
| `ChrTheorem.RuleRuns` | solver_chr.c:1295-1399 | running the compiled code of a propagation rule tells exactly what the rule means, in nested-loop order and with each reason, and then stops; or is given up where the meaning is |
| `ChrTheorem.PartnersRun` | solver_chr.c:1457-1544 | from each partner on, the backtracking code does the nested loop over the remaining partners and returns to the last choicepoint with reason and registers restored |
| `ChrTheorem.LoopRuns` | solver_chr.c:518-545 | the iterator instruction takes every live, correctly signed constraint of the list once, in order |
| `ChrTheorem.GuardsRun` | solver_chr.c:1549-1626 | guard code goes on, steps back or gives up as the guards say; an assignment binds its variable |
| `ChrTheorem.CompareRuns` | solver_chr.c:1549-1626 | the code of a comparison goes on exactly if it holds of the values of both sides |
| `ChrTheorem.ActiveRuns` | solver_chr.c:1421-1452 | the code for the active constraint matches it as specified, with the equalities that were asked in the reason |
| `ChrMachine.ExprRuns` | solver_chr.c:1631-1708 | the stack code of an expression pushes its value and leaves the rest of the stack alone, or the run is given up |
| `ChrMachine.SpecRuns` | solver_chr.c:1465-1492 | after the code of a specification its entries hold the known arguments |
| `ChrRun.FetchRuns` | solver_chr.c:1510-1524 | the arguments not known are fetched and their variables bound |
| `ChrRun.BodyRuns` | solver_chr.c:1713-1829 | the body is told once, constraint by constraint, and the run steps back |
| `ChrCompiler.Compiler.CompileOcc` | solver_chr.c:1295-1399 | the compiler's buffer holds exactly the specified code; it fails only if the rule does not compile or registers or instructions run out |
| `ChrCompiler.Compiler.CompileActive` | solver_chr.c:1421-1452 | the loop appends the code for the active constraint |
| `ChrCompiler.Compiler.CompilePartner` | solver_chr.c:1457-1544 | the loops append lookup, iterator and fetches, and bind what was fetched |
| `ChrCompiler.Compiler.CompileGuard` | solver_chr.c:1549-1626 | the code of one guard is appended |
| `ChrCompiler.Compiler.CompileExpr` | solver_chr.c:1631-1708 | the stack code of an expression is appended, or a variable is not bound |
| `ChrCompiler.Compiler.CompileBody` | solver_chr.c:1713-1829 | the code of one body constraint is appended, or a variable is not bound |
| `ChrCompiler.Compiler.PushInstr` | solver_chr.c:1863-1887 | an instruction is appended unless the buffer is full |
| `ChrCompiler.Compiler.MakeReg` | solver_chr.c:1847-1858 | registers are handed out in order up to the limit |
| `ChrVm.Execute` | solver_chr.c:458-793 | the interpreter run on compiled code returns what the rule means |
| `ChrVm.Vm.Run` | solver_chr.c:458-793 | the loop takes exactly the steps of the machine and ends when it does |
| `ChrVm.Vm.Dispatch` | solver_chr.c:472-752 | each instruction has its specified effect |
| `ChrVm.Vm.Iterate` | solver_chr.c:518-545 | the iterator skips dead constraints, saves a choicepoint and extends the reason, or steps back |
| `ChrVm.Vm.MatchArgs` | solver_chr.c:815-826 | the reason gets the equalities of the known arguments in order, of every known argument, and of no other |
| `ChrFacts.RuleCompiles` | solver_chr.c:1631-1750 | a rule compiles if and only if every variable of its guards and body is bound by the head or an earlier assignment |
| `ChrFacts.RunTellsTuples` | solver_chr.c:509-584 | a run that is not given up tells a constraint if and only if it is in the body for some tuple of matching partners that passes the guards; its reason holds the start reason, the literals asked for the active constraint, and for each partner its literal and the equalities of all its known arguments, and nothing else |
| `ChrFacts.ToldReason` | solver_chr.c:572-584 | a constraint is told with the reason the guards were reached with |
| `ChrFacts.TupleReason` | solver_chr.c:509-545 | a tuple extends the reason by exactly what its partners explain |
| `ChrFacts.ActiveReason` | solver_chr.c:1421-1452 | matching the active constraint asks for exactly the equalities of the arguments whose places are known |
| `ChrFacts.FiresReason` | solver_chr.c:509-584 | the reason of everything told is the right one: all that was used, and nothing more |
| `ChrRule.AgreeLitsAre` | solver_chr.c:815-826 | a literal is among the equalities if and only if some known argument needs it |
| `ChrRule.AgreeLitsInOrder` | solver_chr.c:815-826 | the equalities of each known argument stand together, in the order of the arguments, and fill the whole |
| `ChrRule.TruncateIsQuotient` | solver_chr.c:738-744 | division is the one whose remainder is smaller than the divisor and has the sign of the dividend |
| `ChrRule.ApplyLaws` | solver_chr.c:707-752 | arithmetic is given up exactly for operands that are no numbers and for division by zero; subtraction takes back addition, multiplication repeats it |
| `ChrRule.ComparesLaws` | solver_chr.c:672-706 | the six comparisons are those of one order |
| `ChrFacts.LinearIffFits` | solver_chr.c:1457-1544 | a head is matched rightly whatever the store holds if and only if no unbound variable is repeated in it |
| `ChrFacts.FitsWhenEqual` | solver_chr.c:1510-1524 | for given arguments the match is right if and only if the places of each unbound variable hold equal arguments |
| `ChrFacts.RepeatedVariable` | solver_chr.c:1510-1524 | matching p(X,X) with p(1,2) binds X to 2, which is not a match |
| `ChrFacts.RepeatedFires` | solver_chr.c:1510-1524 | the compiled code of a rule with the partner p(X,X) and the body r(X), run on a store whose only partner is p(1,2), tells r(2), although no constraint is an instance of p(X,X) |
| `Bounds.Solver.SetLo` | solver_bounds.c:208-230 | a lower bound is raised for a reason that implies it; the search engine gets exactly the clause with that reason and the new bound, followed on failure by the clash of the two bounds; no assignment that respects the bounds and the reason is lost |
| `Bounds.Solver.SetHi` | solver_bounds.c:231-253 | the same for upper bounds |
| `Bounds.ToldLo` | solver_bounds.c:208-230 | raising a bound tells the engine all it needs: the new bound with its reason, and the clash if there is one |
| `Bounds.ToldHi` | solver_bounds.c:231-253 | the same for upper bounds |
| `Bounds.ToldThen` | solver_bounds.c:208-253 | if each of two steps explains its changes by the same literals read, what both tell explains every change from before the first, clash included |
| `Bounds.Solver.Narrow` | solver_bounds.c:559-585 | both ends of an interval imposed on one variable: the new interval is the common part, the handler fails exactly if that is empty, and every bound that changed is explained by what was read |
| `Bounds.Solver.HandleLb` | solver_bounds.c:281-342 | a decided bound constraint narrows to exactly the common part, or its clash with the opposite bound is handed on, and nothing else |
| `Bounds.Solver.HandleGtC` | solver_bounds.c:347-370 | x > c: exact new bounds, no solution lost; every bound that changed is the conclusion of a clause from the decided literal alone, and giving up is explained by a clash |
| `Bounds.Solver.HandleGt` | solver_bounds.c:375-412 | x > y: exact new bounds of both from those read before, no solution lost; every bound that changed is the conclusion of a clause from the decided literal and the bounds read, and giving up is explained by a clash |
| `Bounds.Solver.HandleEqC` | solver_bounds.c:417-447 | x = c and its negation: exact new bounds, an end equal to the excluded value moving by one; all of them explained, as for x > y |
| `Bounds.Solver.HandleOffset` | solver_bounds.c:452-631 | x = y and x = y + c and their negations: each interval shifts to the other, or an end is excluded by a fixed variable; all changes explained by the bounds read |
| `Bounds.Solver.Exclude` | solver_bounds.c:580-625 | an end of the interval equal to the excluded value moves by one, for a reason of bounds read |
| `Bounds.Solver.HandleEqMulC` | solver_bounds.c:658-764 | x = c*y, negative c included: exact new bounds, explained by the bounds read, and a new round is asked for exactly if y changed |
| `Bounds.Solver.HandleEqPlus` | solver_bounds.c:781-857 | x = y + z: exact new bounds of x and y and of the lower end of z, every bound that changed concluded by a clause from the bounds read, and another round is asked for exactly if one of the three changed |
| `Bounds.Solver.ThirdPart` | solver_bounds.c:832-846 | the upper bound of z is never lowered, because it is compared the wrong way round |
| `Bounds.ThirdPartIff` | solver_bounds.c:832-846 | z is left with all that follows from x and y if and only if they do not lower its upper bound |
| `Bounds.ThirdPartMisses` | solver_bounds.c:832-846 | x in 0..1, y = 0 and z in 0..5: z stays as it is, though it is at most 1 |
| `Bounds.MulCEncloses` | solver_bounds.c:636-643 | multiplying an interval by a constant encloses the products, and nothing else unless the constant is zero |
| `Bounds.DivCExact` | solver_bounds.c:644-657 | dividing by a constant encloses exactly the integer solutions |
| `Bounds.SumExact` | solver_bounds.c:781-857 | the sum of intervals holds exactly the sums of values |
| `Bounds.DifferenceExact` | solver_bounds.c:769-774 | the difference of intervals holds exactly the differences of values |
| `Bounds.MulEncloses` | solver_bounds.c:859-872 | the interval product encloses every product |
| `Bounds.MulAttained` | solver_bounds.c:859-872 | both ends of the interval product are products of values |
| `Bounds.DivEncloses` | solver_bounds.c:873-907 | the interval quotient encloses every integer solution, and is unbounded if the divisor may be zero |
| `Bounds.DivAttained` | solver_bounds.c:873-907 | each end of the interval quotient is the rounded quotient of values of the two ranges |
| `Bounds.MeetIsCommon` | solver_bounds.c:559-585 | the interval that a handler leaves holds exactly the values in both the old one and the one imposed |
| `PropQueue.Scheduler.Schedule` | prop.c:54-84 | a propagator that is neither pending nor purged goes behind all that are no less urgent; the running one is noted as rescheduled; a link is left stray exactly when the running one schedules itself after a purge |
| `PropQueue.Scheduler.WakeStart` | prop.c:89-123 | the first pending propagator that is not killed or purged, in order of priority and age, is run; those found dead before it are dropped and no other is lost |
| `PropQueue.Scheduler.WakeEnd` | prop.c:124-137 | the link of the propagator that ran is cleared unless it scheduled itself |
| `PropQueue.Scheduler.Pop` | prop.c:98-110 | the head of the lowest non-empty queue is taken off |
| `PropQueue.Scheduler.Advance` | prop.c:103-108 | the lowest pending priority is found |
| `PropQueue.Scheduler.Flush` | prop.c:150-180 | all queues are empty, and the links left are exactly the stray ones, which stay stray |
| `PropQueue.Scheduler.Enqueue` | prop.c:69-81 | append to one intrusive list, the lowest priority kept exact |
| `PropQueue.PopOrder` | prop.c:98-110 | taking the oldest of the lowest priority takes the first of all pending propagators |
| `PropQueue.AppendPlaces` | prop.c:69-81 | appending to the queue of its priority places a propagator behind all that are no less urgent |
| `PropQueue.DeadDropped` | prop.c:89-123 | dropping the dead from the front leaves exactly what a list without them starts with |
| `PropQueue.Answer` | prop.c:54-180 | any requests while a propagator runs do to the queues what they do to one list |
| `PropQueue.ForgetsItself` | prop.c:54-66 | a propagator that schedules itself after its constraint was purged is pending nowhere, and in no later course of rounds and requests is it run again, the purge taken back or not |
| `PropQueue.NeverAgain` | prop.c:54-137 | any course of requests, runs and flushes runs exactly what one list in order of priority and age would run, and leaves what it would leave; a stray link survives it, and its propagator is never run |

## Left out

- SatSolver.Solver.Solve: a `true` answer is shown to give a model if no free variable ordered before the scan position is worth deciding; for those the result says only that they were not when the scan passed them and were neither unset nor watched by one more clause since, because the pass also accepts a clause whose only true literal is none of its two watches, and undoing it moves the position back to the variables that are undone and not to the watches.
- SatSolver.Solver.SelectLiteral: the fall-back for variables without activity (`sat.c:1078-1109`) looks at the arguments of the theory constraint of the variable decided last; without theories there is none, and the fall-back is not modelled.
- SatSolver.Solver.Solve: theory propagators and clauses they add during the search are not part of the run; the normalisation, placing and subsumption of such clauses are modelled by themselves.
- SatSolver.Solver.MakeVar: states only that the setup invariants hold again and how many variables there are; AddVar states the whole new state.
- SatOrder.VarOrder.Decay: activities are unbounded naturals, so their wrap-around is not modelled.
- SatLazyClause.InsertLiteral: what the engine does with the finished clause (assert, fail or watch it) is not modelled.
- LinearSolver.Simplex.Solve: `fuel` bounds the number of pivots, where the source goes on until it is done; rows are chosen by position, and that the pivots come to an end is not claimed.
- LinearSolver.Simplex.Step: values are exact rationals; rounding of bounds held as doubles and the bail-out on overflow are not modelled.
- TreeDestructive.DestructiveInsert: the order must be zero on equal words only.
- TreeDestructive.Fix4: memory reuse is a `live` flag on nodes; that `tree4_destructive_fix_t3` does not free the node it replaces is not stated.
- StoreTable.Store.Insert: inserts under a primary key, which are not logged, the panic at the largest table and the computation of hashes are not modelled; bucket chains are sequences.
- GcMark.Marker.Mark: memory is read, not written, during marking; roots are given as ranges of words, and the layout stands for the page tables. `WordsExact` and `TargetExact` are about layouts in which every region's first free address is still in its own span.
- GcAlloc.Allocator.Malloc: one size class; protection, zeroing and returning of pages, the error handler, and the decision when to collect, are not modelled.
- PropQueue.Scheduler.WakeStart: the handler that runs between WakeStart and WakeEnd is any sequence of Schedule and Flush calls.
- Bounds.Solver.HandleEqPlus: no fixpoint of the rounds that it asks for is claimed.
- Bounds.Solver.HandleEqMulC: numbers are unbounded integers and missing ends stand for infinities; rounding of doubles and division of infinities are not modelled.
- Bounds.MulEncloses: for x = y*z only the interval arithmetic is modelled, not the handler and its explanations.
- Cnf.PassCnf: the order in which operands are visited is any order, since operands are kept in a map.
- ExprForm.AndMeans: implication and exclusive or are compositions of the constructors modelled and are not repeated.
- ExprLinear.ComparisonKeeps: products and powers are opaque summands; numbers are unbounded integers instead of doubles.
- ChrTheorem.RuleRuns: rules are propagation rules with conjunctive bodies of ordinary constraints and flat heads and bodies; simplification, disjunction, equality, printing, counters and identifiers of heads are not modelled.
- ChrTheorem.RuleRuns: the store and the decisions are fixed during one run, and telling a constraint records it instead of waking propagators; a failure inside the body is not modelled.
- ChrVm.Vm.Run: the limits on choicepoints and on the evaluation stack are not modelled; the limits on registers and instructions are.
- Variable unification and word tagging, names, parsing and printing, the prompt, the server, the debugger, plug-ins, statistics, logging and hashing are not part of this model.
