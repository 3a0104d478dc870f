# Verification of the ClamAV bytecode compiler

This project models the decision-making parts of the bytecode compiler in Dafny and proves what they are
for. LLVM itself is not modelled: functions are blocks of SSA instructions, phis and branches over a small
abstract instruction set.

**Logical signatures.** A trigger function over match counts is compiled to one logical node. `NodeStore`
holds the uniquing table as a class: an append-only sequence of records whose children are earlier
positions, so a node is its position. `LogicalNodes` says what a node means for a vector of 32-bit match
counts; additions wrap. `NodeRules`, `SumModifiers`, `WrappedRanges`, `NodeOrder` and `NodeSums` hold the
conditions under which each constructor is exact, and the lemmas. `LogicalProgram` gives functions a semantics, `Routes`
enumerates paths, `CompilerRules`, `PhiRules` and `CompilerProof` relate the compiler's value map to runs,
`LogicalCompiler` is the compiler, `TakenPrograms` with `NodeEstimates` and `DeniableNodes` says when a
function is certain to be compiled, `SignatureText` the printed language with a reader for it,
`SignaturePrinter` the printer, and `LogicalSignature` puts them together.

The equality modifiers are read as the comments beside them say: `op1 == ~0` compares the total (`=X`),
`op0 == op1` only the number of different terms that matched (`=Y,Y`), anything else both (`=X,Y`);
`SumModifiers` says when negating and merging them is right. The main theorem asks for what the code needs:
blocks in topological order, one return, loads that read the match counts, a constant on the left only of an
equality, i1 operands for logic, and every constructor called where it is exact. The last condition is
tracked by the ghost field `guarded`, which falls to false at the first call outside the condition of the
constructor called (`EqGuard`, `LtGuard`, `GtGuard`, `RangeGuard`, `NotGuard`, `AndGuard`: all of them
conditions on the arguments).

It stays true for every function that can be given shapes (`ShapedFunc` in `ShapedPrograms`). Each i32 value
is a match count, a sum of them, a number of counted conditions and match counts above zero, or one of these
plus a constant. An order of a count with offset folds and is not above zero; a number of terms is not
compared with ~0. A number of terms not all of which are conditions is compared for equality or with zero
alone, and what comes of it is not negated: no `!=`, xor, choice or branch on it. A condition also carries
the totals X of the `=X` and the numbers Y of the `=Y,Y` among its conjuncts, and two conditions are joined
when no total of the one is a number of the other, except where none match or more are asked for than there
are. `FuncShaped` checks given shapes instruction by instruction, and `ShapesOf` computes some to try. For
such functions the theorem has no condition on the compile, and the printer never fails. `MergedTriggers`
follows the trigger of `test/examples/in/lsig.o1.c` through all of this. `ShapedTables` is the matching
invariant of the node table. A node prints as it is meant when it is `Legible`: bounds on sums of conditions
read right when no term can match more than once. The text theorem also asks that no sum behind the text
reaches 2^32 (`SumsFit`), since the reader adds without wrapping; a disjunction is no sum.

With several returns the exits are joined without the branch conditions, which are popped before they are
used (lines 953 to 958). What the root then says is proved too, and when that is the result of the function.

**SSA rewriting.** `FlowProgram` is a program with arbitrary control flow, run block by block over values,
stack slots and an outside world that operations may read and change. `PhiElimination`, `WideValues` and
`PhiWidening`, and `Dominance`, `SsaRenaming` and `Rebuild` model three passes and prove that runs of any
length are preserved. `ValueNumbering` is the numbering that follows.

**Layout and tables.** `TypeLayout` lays out types for any target; `TypeCheck` is the interface generator's
size check and `AddressFlattening` the rewriting of element addresses. `TypeTables` numbers types,
`ApiTables` pairs interface functions with dispatch lists, and `CallGraph` finds recursion.

**Where the code does not keep the meaning.** These are stated as lemmas, with the code kept as it is. A
direct load from any other address is compiled as the first match count (`DirectLoadExact`,
`DirectLoadCompiles`). A swapped compare keeps its predicate (`SwappedCompare`). Several returns are joined
without regard to the path taken (`ReturnsExact`, `TwoReturnsMisread`). Negating `=X,Y` negates the total
alone (`NegationExact`), so that the trigger of `test/examples/in/lsig.o1.c`, compiled with a branch, misses
the check when the total is 42 and the number of different matches is not two (`BranchingMisread`). `=X`
merged with `=X,X` drops the total (`MergeExact`, `KeepsTotalExact`, `TriggerExact`). An offset on
both sides of an addition counts one of them twice (`DriftFree`). Count plus constant compared above zero
gives back the offset itself, and counting a compare that is below zero counts FALSE; neither can be printed
(`OffsetAbove`, `CountedBelow`, `PrintableExact`). A bound on a sum of conditions prints as a bound on a
total, which is wrong just where a term can match more than once (`TallyExact`, `PlainBounds`). Equalities
that differ in their second number tie in the order of terms (`LessTies`). The rebuilder drops the last case
of every switch and gives no value to cases that share a block (`RebuiltRenamed`, `SwitchKept`,
`SwitchRuns`), which the switch lowering ahead of it in the pipeline keeps from mattering. Phis wider than 64
bits lose bits (`BroadRoundTrip`, `BroadConstant`). Widening a phi that lists one edge twice gives the
listings different operands (`WideConsistent`). The two loops over interface functions disagree on prototypes
with more than two parameters (`LoopsAgree`). The comment at line 643 of
`clambc-ifacegen/ifacegen.cpp` calls its check conservative; on the integer sizes it allows the check is
exact.

## Model

| member | source | states |
|---|---|---|
| `LogicalSignature.CompileLogicalSignature` | `libclambcc/ClamBCLogicalCompiler.cpp:1526-1593` | a function that is certain to be compiled is accepted exactly when its root is neither TRUE nor FALSE, has a printed form, and the text has at most 64 groups, which are its opening parentheses less its equality signs; whatever becomes of it, the root means the function when it is in the fragment and has shapes, and such a function is accepted outright if it returns true of some input and false of another and its values leave room for so many groups. An accepted signature, read back from its text, holds for a vector of match counts exactly when the trigger function returns nonzero, for counts its sums have room for and whenever the compile stayed exact; it stays exact, and never reaches the printer's failing case, for every function that can be given shapes; a function that adds no two values has room for all counts; the failing case is reached exactly when some part of the expression has no printed form |
| `LogicalSignature.CompileTrigger` | `test/examples/in/lsig.o1.c:22-36` | the trigger sum == x && unique == y || check == z is accepted, and what is printed for it holds, wherever its sums have room, exactly when the counts say that, if x and y differ or y is zero or above three, and y is not 2^32 - 1 |
| `LogicalSignature.GroupsWithin` | `libclambcc/ClamBCLogicalCompiler.cpp:1235-1258` | a text has no more groups than its expression has entries when shared parts are written out |
| `LogicalSignature.TextExpresses` | `libclambcc/ClamBCLogicalCompiler.cpp:1526-1553` | the printed form of a node that compiles the function expresses the function |
| `LogicalCompiler.Compiler.Compile` | `libclambcc/ClamBCLogicalCompiler.cpp:557-577` | if compiling ends and every constructor call was inside its exactness condition, the root means its exits joined, for any number of returns; without phis, that some return's value is nonzero or all return a nonzero constant; in the supported fragment with one return, that the function returns nonzero; for functions with shapes the exactness is automatic. Functions with branches and phis always end in a root, of bounded size, when values are defined before their uses, branch conditions can be negated, phis come from earlier blocks by some route, and each instruction is one that is taken whenever its operands are: loads, nontrivial compares with constants, added constants, sums without a common term, conjunctions, disjunctions, counted conditions, and negations and choices on conditions that can be negated |
| `LogicalCompiler.Compiler.ProcessBlock` | `libclambcc/ClamBCLogicalCompiler.cpp:914-1199` | one more block keeps the invariant that wherever a run reaches a definition with an entry, the entry has the run's value |
| `LogicalCompiler.Compiler.ProcessInst` | `libclambcc/ClamBCLogicalCompiler.cpp:932-1191` | an instruction gets at most one entry, and every run that agreed with the entries before agrees with them after; a direct load always gets the entry of the first match count |
| `CompilerRules.DirectLoadExact` | `libclambcc/ClamBCLogicalCompiler.cpp:590-610` | that entry has the value read if and only if the load reads the match counts |
| `CompilerLimits.DirectLoadCompiles` | `libclambcc/ClamBCLogicalCompiler.cpp:590-610` | a function that returns whether a directly loaded value is over three gets the expression of the first match count being over three, which is its result if and only if that is what it loads |
| `LogicalCompiler.Compiler.Compared` | `libclambcc/ClamBCLogicalCompiler.cpp:625-684` | exactly the unsigned predicates with a nontrivial bound are accepted, and give a node that compares the operand's value with the constant |
| `LogicalCompiler.Compiler.CompareNodeFor` | `libclambcc/ClamBCLogicalCompiler.cpp:612-686` | accepts exactly a known operand and a constant with a supported predicate; over a missing node the refusals come first, above zero gives the missing node again and anything else crashes; a node has the compare's value in every run, including a constant on the left of an equality |
| `LogicalCompiler.Compiler.AddNodeFor` | `libclambcc/ClamBCLogicalCompiler.cpp:1092-1127` | an addition's node has the wrapped sum as its value; unknown operands are refused |
| `LogicalCompiler.Compiler.SumNodeFor` | `libclambcc/ClamBCLogicalCompiler.cpp:1108-1126` | without an offset, succeeds exactly when both sides are counts or both count conditions and no term is there twice, and is refused otherwise |
| `LogicalCompiler.Compiler.CheckUniq` | `libclambcc/ClamBCLogicalCompiler.cpp:329-340` | answers exactly whether all children differ |
| `LogicalCompiler.Compiler.LogicNodeFor` | `libclambcc/ClamBCLogicalCompiler.cpp:1128-1151` | known operands are accepted, and the node has the truth of their conjunction or disjunction |
| `LogicalCompiler.Compiler.XorNodeFor` | `libclambcc/ClamBCLogicalCompiler.cpp:1152-1169` | xor with one negates a known operand that has a negation, any other xor is refused |
| `LogicalCompiler.Compiler.ZExtNodeFor` | `libclambcc/ClamBCLogicalCompiler.cpp:1170-1190` | exactly a known operand from i1 to i32 is accepted, and its node counts the condition as zero or one |
| `LogicalCompiler.Compiler.SelectNodeFor` | `libclambcc/ClamBCLogicalCompiler.cpp:961-1068` | a select's node is (condition and first) or (not condition and second), with constant sides dropped; it is refused or crashes exactly when the condition or both sides are unknown, a side is no node and neither 0 nor 1, or the condition has no negation |
| `LogicalCompiler.Compiler.SelectJoin` | `libclambcc/ClamBCLogicalCompiler.cpp:1010-1067` | the joined node is true exactly when the side the condition picks is; there is one exactly when the condition has a negation and some side can be true |
| `LogicalCompiler.Compiler.GetLogicalNode` | `libclambcc/ClamBCLogicalCompiler.cpp:789-810` | the node of a route is true exactly when every branch condition along it goes the route's way; it is made exactly when each of these has a node, which has a negation where the route goes the other way, and is missing exactly when there are none |
| `LogicalCompiler.Compiler.ProcessTerm` | `libclambcc/ClamBCLogicalCompiler.cpp:939-960` | a branch condition must have a node that has a negation, a returned value a node, and only an unconditional branch overlooks what was found invalid before; nothing but a return adds an exit |
| `LogicalCompiler.Compiler.FindRoute` | `libclambcc/ClamBCLogicalCompiler.cpp:777-787` | exactly the routes whose last block is the given one; an empty route is the out-of-range access |
| `LogicalCompiler.Compiler.ProcessPhi` | `libclambcc/ClamBCLogicalCompiler.cpp:870-912` | the phi's node is the disjunction, over nonzero incoming operands and the routes to their blocks, of route and operand; the phi is taken when no route is empty and each route to a nonzero incoming block has a condition, conditions with nodes that can be negated where it goes the other way, and an operand with a node; the entry is then a node exactly when there is such a route |
| `TakenPrograms.PhiTakenHere` | `libclambcc/ClamBCLogicalCompiler.cpp:870-912` | in a function that is certain to be compiled, every phi meets these conditions once the blocks before it are done |
| `TakenPrograms.StraightTaken` | `libclambcc/ClamBCLogicalCompiler.cpp:557-577` | functions of loads, nontrivial compares with constants, added constants, conjunctions, disjunctions and counted conditions, without phis and branch conditions and with each value defined before its uses, are certain to be compiled |
| `CompilerLimits.BothTaken` | `libclambcc/ClamBCLogicalCompiler.cpp:870-912` | so is the usual lowering of count 0 > m && count 1 > n, with its branch and phi, for all m and n |
| `NodeEstimates.ApartAdds` | `libclambcc/ClamBCLogicalCompiler.cpp:1108-1126` | sums of match counts, or of counted conditions, that share no term can be added |
| `NodeEstimates.CompareEstimated` | `libclambcc/ClamBCLogicalCompiler.cpp:158-242` | how often the node of a compare can be negated, and how large it is, from what is known of its operand |
| `DeniableNodes.DeniableOnce` | `libclambcc/ClamBCLogicalCompiler.cpp:269-319` | a condition that can be negated twice or more can be negated once, which is what the constructor of negations asks for |
| `DeniableNodes.ConjunctionDeniable` | `libclambcc/ClamBCLogicalCompiler.cpp:436-524` | a conjunction can be negated as often as all its operands, and is no larger than they are together and itself |
| `LogicalCompiler.Compiler.ProcessRet` | `libclambcc/ClamBCLogicalCompiler.cpp:1069-1091` | a return adds one exit node that means the returned value, and nothing of the branch conditions |
| `PhiRules.PhiValue` | `libclambcc/ClamBCLogicalCompiler.cpp:812-869` | in a run, the disjunction over all routes is true exactly when the operand the run selects is nonzero |
| `CompilerProof.OnlyOwnRoute` | `libclambcc/ClamBCLogicalCompiler.cpp:812-869` | when a run reaches a phi's block, the run's own route holds and no other route does |
| `CompilerProof.PhiNodeValue` | `libclambcc/ClamBCLogicalCompiler.cpp:880-905` | hence the phi's node has the phi's value in every run |
| `CompilerProof.InstProgress` | `libclambcc/ClamBCLogicalCompiler.cpp:914-1199` | the value-map invariant survives an instruction, entries of unreached blocks being free |
| `CompilerProof.PhiProgress` | `libclambcc/ClamBCLogicalCompiler.cpp:924-928` | the value-map invariant survives a phi |
| `CompilerProof.ExitCompiles` | `libclambcc/ClamBCLogicalCompiler.cpp:1069-1091` | the node of the only return gives the result of every run |
| `CompilerProof.RootMeans` | `libclambcc/ClamBCLogicalCompiler.cpp:575-576` | with one return, the joined exits are its value in every run |
| `LogicalCompiler.Compiler.JoinExits` | `libclambcc/ClamBCLogicalCompiler.cpp:575-576` | the root is true exactly when some alternative is, unless there are none, and all the other exits are |
| `CompilerProof.RootReturns` | `libclambcc/ClamBCLogicalCompiler.cpp:575-576` | over values that satisfy every instruction, reached or not, the root of a function without phis says that some return's value is nonzero or that all return a nonzero constant |
| `CompilerProof.ReturnsExact` | `libclambcc/ClamBCLogicalCompiler.cpp:575-576` | where every value is defined before its uses in the layout, the root of a function without phis is its result if and only if, for every input, joining the returns of all blocks gives what the run returns |
| `CompilerLimits.TwoReturnsMisread` | `libclambcc/ClamBCLogicalCompiler.cpp:946-960` | a function with a branch and two returns whose root is not its result |
| `LogicalProgram.ExecuteSolves` | `libclambcc/ClamBCLogicalCompiler.cpp:914-1199` | the reference semantics: running an SSA function in topological order yields values that satisfy the equation of every instruction and phi on the path taken |
| `CompilerRules.CompareNode` | `libclambcc/ClamBCLogicalCompiler.cpp:612-686` | a node comparing the operand's node as the predicate says has the compare's value in every run |
| `CompilerRules.SelectNode` | `libclambcc/ClamBCLogicalCompiler.cpp:961-1068` | likewise for a select |
| `ShapedPrograms.RoutesBranch` | `libclambcc/ClamBCLogicalCompiler.cpp:739-774` | when the entry block ends in a condition, every nonempty route has a condition |
| `CompilerLimits.SwappedCompare` | `libclambcc/ClamBCLogicalCompiler.cpp:614-618` | swapping a constant to the right without turning the predicate is right for equality and inequality and for no other unsigned predicate, whatever the constant |
| `Routes.RouteFinder.PopulateRoutes` | `libclambcc/ClamBCLogicalCompiler.cpp:739-774` | replaces one route by all its continuations, each as often as enumerated, and leaves the other routes alone; it ends on cyclic graphs too |
| `Routes.AllRoutes` | `libclambcc/ClamBCLogicalCompiler.cpp:870-878` | started on the empty route, the routes are the enumeration from the entry |
| `Routes.OnwardExact` | `libclambcc/ClamBCLogicalCompiler.cpp:739-774` | on a loop-free function the enumeration is exactly the set of maximal walks to the end block, each once |
| `Routes.WalksPart` | `libclambcc/ClamBCLogicalCompiler.cpp:753-767` | two different maximal walks leave a shared conditional branch on opposite sides |
| `Routes.OnlyRunRoute` | `libclambcc/ClamBCLogicalCompiler.cpp:739-810` | the walk a run takes is maximal, its conditions hold, and no other maximal walk's conditions do |
| `NodeStore.Store.GetNode` | `libclambcc/ClamBCLogicalCompiler.cpp:115-138` | returns the entry equal to the record and adds one only if there is none, so equal positions are equal expressions; earlier entries stay |
| `NodeRules.AppendKeepsForm` | `libclambcc/ClamBCLogicalCompiler.cpp:126-138` | a record that may be entered keeps the whole table acyclic, duplicate-free and in flat form |
| `LogicalNodes.ValExtends` | `libclambcc/ClamBCLogicalCompiler.cpp:93-110` | appending entries changes the meaning of no existing node |
| `NodeStore.Store.GetSubSig` | `libclambcc/ClamBCLogicalCompiler.cpp:152-156` | a node whose value is the match count of the signature |
| `NodeStore.Store.GetUniqueSigs` | `libclambcc/ClamBCLogicalCompiler.cpp:244-249` | a node whose value is one when the operand is true and zero otherwise |
| `NodeStore.Store.GetEQ` | `libclambcc/ClamBCLogicalCompiler.cpp:158-182` | true exactly when the operand's value equals the constant, through one offset and over both kinds of sum, unless a sum of conditions is compared with ~0 |
| `NodeStore.Store.GetLT` | `libclambcc/ClamBCLogicalCompiler.cpp:201-220` | true whenever the value is below the bound, and only then inside the folding condition |
| `NodeStore.Store.GetGT` | `libclambcc/ClamBCLogicalCompiler.cpp:222-242` | true whenever the value is above the bound, and only then inside the folding condition |
| `NodeStore.Store.GetRange` | `libclambcc/ClamBCLogicalCompiler.cpp:184-199` | true on every value of the interval, and nowhere else inside its condition |
| `WrappedRanges.LtFoldExact` | `libclambcc/ClamBCLogicalCompiler.cpp:206-215` | a + c < b folded to an interval for a loses no value for b above zero, is exact if and only if c = 0 or c >= b, and is everything otherwise |
| `WrappedRanges.GtFoldExact` | `libclambcc/ClamBCLogicalCompiler.cpp:227-238` | a + c > b likewise, exact if and only if b is not 2^32 - 1 and c <= b + 1 |
| `NodeRules.LtThroughRange` | `libclambcc/ClamBCLogicalCompiler.cpp:205-215` | what the folded interval means for the compare of the sum with offset |
| `NodeRules.GtThroughRange` | `libclambcc/ClamBCLogicalCompiler.cpp:226-238` | the same for the other order |
| `NodeStore.Store.GetNot` | `libclambcc/ClamBCLogicalCompiler.cpp:269-319` | gives a node exactly on the kinds that have a negation, and inside its condition, which for an equality over a sum is the exact one, the node is the negation |
| `NodeStore.Store.NotConnective` | `libclambcc/ClamBCLogicalCompiler.cpp:277-292` | negates a conjunction or disjunction by negating every operand |
| `NodeStore.Store.NotEquality` | `libclambcc/ClamBCLogicalCompiler.cpp:293-297` | below or above negates an equality whose modifier says no more than the value, and whatever the modifier says that the value differs |
| `NodeStore.Store.NotOrder` | `libclambcc/ClamBCLogicalCompiler.cpp:298-307` | the other side or equality negates an order |
| `NodeRules.DeMorgan` | `libclambcc/ClamBCLogicalCompiler.cpp:277-292` | the connective of the negations is the negation of the connective |
| `NodeRules.SplitNegates` | `libclambcc/ClamBCLogicalCompiler.cpp:293-307` | the two remaining sides of a compare make its negation |
| `SumModifiers.ValueOnlyExact` | `libclambcc/ClamBCLogicalCompiler.cpp:293-297` | when an equality over a sum is true exactly at its value: over conditions if and only if both numbers agree or the total is never reached, over match counts if and only if there is one and it is =0,0 or =X,1 with X above one |
| `SumModifiers.NegationExact` | `libclambcc/ClamBCLogicalCompiler.cpp:293-297` | the disjunction of below and above is the negation of an equality if and only if that condition holds |
| `NodeStore.Store.GetAnd` | `libclambcc/ClamBCLogicalCompiler.cpp:436-524` | implied by the conjunction always, equal to it unless =X meets =X,X over one sum that does not keep its total; where nothing is lost, nothing is lost in the result either, and its numbers are those of the operands |
| `NodeStore.Store.AndTerms` | `libclambcc/ClamBCLogicalCompiler.cpp:449-477` | the worklist ends by total size, and the plain terms together with the equalities set aside mean the conjunction |
| `NodeStore.Store.Merge` | `libclambcc/ClamBCLogicalCompiler.cpp:479-514` | the placed equalities are implied by the given ones, and mean the same unless two of them are lossy together; each one placed is given or merges two given ones |
| `NodeStore.Store.MergePair` | `libclambcc/ClamBCLogicalCompiler.cpp:499-508` | =X and =Y,Y become =X,Y |
| `SumModifiers.MergeExact` | `libclambcc/ClamBCLogicalCompiler.cpp:499-508` | the merged equality is implied by the two and says what they say if and only if they are not lossy together |
| `SumModifiers.KeepsTotalExact` | `libclambcc/ClamBCLogicalCompiler.cpp:499-508` | =X,X keeps the total X always over conditions, over match counts if and only if X is zero or above their number |
| `NodeRules.ConjunctionNumbers` | `libclambcc/ClamBCLogicalCompiler.cpp:479-523` | a conjunction of operands that lose nothing together loses nothing when joined on, and has only totals and numbers its operands had |
| `SumModifiers.ApartGuard` | `libclambcc/ClamBCLogicalCompiler.cpp:499-508` | two conditions may be joined when each loses nothing by itself and no total of the one is a number of the other |
| `NodeStore.Store.GetOr` | `libclambcc/ClamBCLogicalCompiler.cpp:526-550` | means the disjunction of its operands, always |
| `NodeStore.Store.Connect` | `libclambcc/ClamBCLogicalCompiler.cpp:516-523` | none, one or more terms give the constant, the term or a connective over exactly these terms |
| `NodeStore.Store.GetOffset` | `libclambcc/ClamBCLogicalCompiler.cpp:321-326` | value plus offset, wrapping |
| `NodeStore.Store.GetSum` | `libclambcc/ClamBCLogicalCompiler.cpp:360-394` | an entered sum has the wrapped sum of both values plus an error term that is zero unless both sides carry an offset; without offsets, exactly two counts or two counted conditions can be added, and the node collects the terms of both |
| `NodeStore.Store.EnterSum` | `libclambcc/ClamBCLogicalCompiler.cpp:362-385` | two terms without offset sum to their wrapped total, in a node whose children are the terms of both sides, sorted |
| `NodeSums.OneSum` | `libclambcc/ClamBCLogicalCompiler.cpp:115-138` | two sums over one bag of default terms are one node |
| `NodeSums.SumsAssociate` | `libclambcc/ClamBCLogicalCompiler.cpp:360-394` | so (x + y) + z and x + (y + z) are the same node |
| `NodeSums.CollectsExtends` | `libclambcc/ClamBCLogicalCompiler.cpp:126-138` | a sum keeps its terms while the table grows |
| `NodeSums.DriftFree` | `libclambcc/ClamBCLogicalCompiler.cpp:386-392` | the error is zero unless both sides carry an offset, and with one layer on the right it is the left offset |
| `NodeSums.SumMeaning` | `libclambcc/ClamBCLogicalCompiler.cpp:362-385` | a sum node over the sorted terms of both sides adds them, for counts and for counted conditions |
| `NodeOrder.LessIrreflexive` | `libclambcc/ClamBCLogicalCompiler.cpp:342-358` | no node precedes itself |
| `NodeOrder.LessTotal` | `libclambcc/ClamBCLogicalCompiler.cpp:342-358` | of two different entries with default operands one precedes the other |
| `NodeOrder.LessTransitive` | `libclambcc/ClamBCLogicalCompiler.cpp:342-358` | precedence is transitive on entries with default operands |
| `NodeOrder.SortOrders` | `libclambcc/ClamBCLogicalCompiler.cpp:366-383` | sorting leaves no later term preceding an earlier one |
| `NodeOrder.SortCanonical` | `libclambcc/ClamBCLogicalCompiler.cpp:342-394` | default terms come out in one order whatever order they were added in |
| `NodeOrder.LessTies` | `libclambcc/ClamBCLogicalCompiler.cpp:349-350` | two entries that differ in the second operand alone are a tie, so sums over them depend on the order of addition |
| `NodeOrder.SortTotal` | `libclambcc/ClamBCLogicalCompiler.cpp:362-385` | sorting changes neither the total nor the number of terms that matched |
| `ShapedPrograms.CompareInRange` | `libclambcc/ClamBCLogicalCompiler.cpp:158-242` | a compare that the shape of its operand allows is inside its exactness condition |
| `ShapedPrograms.CountShaped` | `libclambcc/ClamBCLogicalCompiler.cpp:914-1199` | functions over counts and sums of counts can always be given shapes |
| `CompilerLimits.CountedRangeShaped` | `libclambcc/ClamBCLogicalCompiler.cpp:201-249` | a counted compare of count plus constant can be given shapes if and only if the offset folds |
| `MergedTriggers.TriggerTaken` | `test/examples/in/lsig.o1.c:22-36` | that trigger is certain to be compiled, whatever the numbers, to an expression of at most 23 entries |
| `MergedTriggers.TriggerShaped` | `test/examples/in/lsig.o1.c:22-36` | sum == x && unique == y, alone or with a check besides, can be given shapes if and only if x and y differ or y is zero or above three, and y is not 2^32 - 1 |
| `MergedTriggers.TriggerExact` | `libclambcc/ClamBCLogicalCompiler.cpp:499-508` | the =x,y it becomes is its result if and only if the same holds of x and y |
| `MergedTriggers.BranchingMisread` | `libclambcc/ClamBCLogicalCompiler.cpp:293-297` | written with a branch as in the repository, the second way is guarded by the negation of =x,y, and the disjunction built is never the result, whatever the three numbers |
| `MergedTriggers.TriggerSupported` | `test/examples/in/lsig.o1.c:22-36` | the trigger is in the supported fragment |
| `ShapedTables.ShapedNotGuard` | `libclambcc/ClamBCLogicalCompiler.cpp:269-319` | in tables in shape the negation of every condition without =Y,Y on a sum that counts match counts is inside its exactness condition |
| `ShapedTables.PlacedFirm` | `libclambcc/ClamBCLogicalCompiler.cpp:479-514` | and the conjuncts such conditions are joined to are never merged |
| `SignaturePrinter.Node2String` | `libclambcc/ClamBCLogicalCompiler.cpp:1202-1258` | prints exactly the merged expression and counts its groups, which are the opening parentheses of the text less its equality signs |
| `SignatureText.GroupsWritten` | `libclambcc/ClamBCLogicalCompiler.cpp:1202-1258` | the groups of an expression and the equality signs of its text are together the opening parentheses of its text |
| `SignatureText.ReadPrinted` | `libclambcc/ClamBCLogicalCompiler.cpp:1202-1250` | a reader of the printed language gets back the expression it was printed from |
| `SignatureText.PrintInjective` | `libclambcc/ClamBCLogicalCompiler.cpp:1202-1250` | different merged expressions print differently |
| `SignaturePrinter.MergedMeaning` | `libclambcc/ClamBCLogicalCompiler.cpp:1234-1245` | printing sums as disjunctions keeps the truth of every legible node, where its sums have room |
| `SignaturePrinter.FitsSums` | `libclambcc/ClamBCLogicalCompiler.cpp:1225-1245` | they have where the lists in the text have |
| `SignaturePrinter.OneTermFits` | `libclambcc/ClamBCLogicalCompiler.cpp:1225-1245` | and always where no sum has several terms |
| `SignaturePrinter.ShapedLegible` | `libclambcc/ClamBCLogicalCompiler.cpp:1202-1250` | in tables in shape every node that may stand for a condition is legible, =X,Y over match counts included |
| `SignaturePrinter.TallyExact` | `libclambcc/ClamBCLogicalCompiler.cpp:1225-1245` | bounds on a sum of conditions read right, all of them, if and only if no term ever matches more than once |
| `SignaturePrinter.PlainBounds` | `libclambcc/ClamBCLogicalCompiler.cpp:1225-1245` | counting match counts above zero, only the trivial bounds read right: above zero, below one, and above 2^32 - 1 with a single term |
| `SignaturePrinter.ShapedPrintable` | `libclambcc/ClamBCLogicalCompiler.cpp:1246-1248` | in tables in shape only offsets and the two constants reach the printer's failing case |
| `SignaturePrinter.PrintableExact` | `libclambcc/ClamBCLogicalCompiler.cpp:1246-1248` | a node reaches the failing case if and only if an offset, a constant, a negation or an empty list is part of its expression |
| `CompilerLimits.OffsetAbove` | `libclambcc/ClamBCLogicalCompiler.cpp:222-242` | count plus constant above v gives the unprintable offset back if and only if v is zero |
| `CompilerLimits.CountedBelow` | `libclambcc/ClamBCLogicalCompiler.cpp:244-249` | a counted count below v can be printed if and only if v is not zero |
| `PhiElimination.Rewriter.RunOnFunction` | `libclambcc/ClamBCRegAlloc.cpp:87-107` | replaces every phi of any flow graph by a stack slot; no phi is left and all runs are the same |
| `PhiElimination.Rewriter.HandlePHI` | `libclambcc/ClamBCRegAlloc.cpp:50-85` | one store before the terminator of each listed predecessor, and a load behind the remaining phis |
| `PhiElimination.Rewriter.Collect` | `libclambcc/ClamBCRegAlloc.cpp:92-103` | collects every phi, block by block |
| `PhiElimination.EliminationSimulates` | `libclambcc/ClamBCRegAlloc.cpp:50-85` | replacing one phi preserves every run of any length: same blocks, same values, same world, same result |
| `PhiElimination.StepRelated` | `libclambcc/ClamBCRegAlloc.cpp:50-85` | one block keeps the slot equal to what the phi would read along the edge taken, swaps and self-references included |
| `PhiElimination.StoresRun` | `libclambcc/ClamBCRegAlloc.cpp:69-75` | the stores at the end of a block leave the value for the edge to come, or nothing |
| `PhiElimination.EliminatedKeeps` | `libclambcc/ClamBCRegAlloc.cpp:50-85` | the rewritten program is again well formed |
| `FlowProgram.EnterWithout` | `libclambcc/ClamBCRegAlloc.cpp:76-84` | taking one phi out of the parallel assignment and assigning it last changes nothing |
| `ValueNumbering.Numbering.RunOnFunction` | `libclambcc/ClamBCRegAlloc.cpp:109-200` | argument v has id v; live values are numbered by the far end of their bitcast chain, in the order the ends are laid out, every number below the count is used once in the reverse list, unused and bitcast instructions are skipped |
| `ValueNumbering.IdsInOrder` | `libclambcc/ClamBCRegAlloc.cpp:109-200` | of two live values at the ends of their own bitcast chains, the one laid out first has the smaller id |
| `ValueNumbering.Numbering.BuildReverseMap` | `libclambcc/ClamBCRegAlloc.cpp:220-250` | the largest id of a value that is not skipped, plus one, is the size of the reverse list, so the assertion holds, and the list is copied |
| `ValueNumbering.SharedIds` | `libclambcc/ClamBCRegAlloc.cpp:140-164` | two live values share an id exactly when chains of bitcasts lead to one value |
| `ValueNumbering.IdsDense` | `libclambcc/ClamBCRegAlloc.cpp:109-200` | an id is in use exactly when it is below the size of the reverse list |
| `PhiWidening.Widener.ConvertPHIs` | `libclambcc/ClamBCExtendPHIsTo64Bit.cpp:60-75` | for integer widths up to 64 every integer phi is 64 bits wide afterwards and every run from well-typed arguments goes through the same blocks with the same values under the old names |
| `PhiWidening.Widener.ConvertPHI` | `libclambcc/ClamBCExtendPHIsTo64Bit.cpp:77-119` | constants capped and kept, other operands sign-extended before the predecessor's terminator, a truncation behind the phis under the old name; other types and 64 bits are left alone |
| `PhiWidening.RunsRelated` | `libclambcc/ClamBCExtendPHIsTo64Bit.cpp:77-119` | after every number of steps the wide operand for the edge taken truncates to the old phi's value |
| `PhiWidening.CastsRun` | `libclambcc/ClamBCExtendPHIsTo64Bit.cpp:93-98` | the casts at a block's end compute the wide operand for it and change nothing else |
| `PhiWidening.StepFits` | `libclambcc/ClamBCExtendPHIsTo64Bit.cpp:77-119` | values stay within the width of their names |
| `PhiWidening.WidenedReady` | `libclambcc/ClamBCExtendPHIsTo64Bit.cpp:77-119` | the rewritten program is again typed and well formed with its new names |
| `PhiWidening.WideConsistent` | `libclambcc/ClamBCExtendPHIsTo64Bit.cpp:86-99` | an edge listed twice keeps one operand if and only if the operand is a constant |
| `WideValues.NarrowRoundTrip` | `libclambcc/ClamBCExtendPHIsTo64Bit.cpp:90-115` | below 64 bits, widening and truncating gives the value back, for operands and constants |
| `WideValues.BroadRoundTrip` | `libclambcc/ClamBCExtendPHIsTo64Bit.cpp:93-115` | above 64 bits an operand survives if and only if its upper bits repeat the 64-bit sign |
| `WideValues.BroadConstant` | `libclambcc/ClamBCExtendPHIsTo64Bit.cpp:90-92` | above 64 bits a constant survives if and only if it is below 2^63 or has all bits set |
| `Rebuild.Rebuilder.RunOnFunction` | `libclambcc/ClamBCRebuild.cpp:64-118` | the copy has block for block and in order the instructions of the original under new names, no two values share a name, and every operand found its copy |
| `Rebuild.Rebuilder.MapValue` | `libclambcc/ClamBCRebuild.cpp:283-306` | a missing operand makes its defining block be copied first; the copy then exists, the insert point is restored and no block visited before is touched |
| `Rebuild.Rebuilder.RunOnBasicBlock` | `libclambcc/ClamBCRebuild.cpp:576-586` | a block is copied once, and nested visits finish only further blocks; recursion ends because a strict dominator has fewer dominators |
| `Rebuild.Rebuilder.VisitPHIs` | `libclambcc/ClamBCRebuild.cpp:503-507` | the phis of a block get copies without operands |
| `Rebuild.Rebuilder.VisitInst` | `libclambcc/ClamBCRebuild.cpp:509-569` | an instruction's copy takes the copies of its operands and a new name |
| `Rebuild.Rebuilder.MapPHI` | `libclambcc/ClamBCRebuild.cpp:98-118` | the operands of a phi's copy are the copies of its operands in order, from the same blocks |
| `Rebuild.AllCovered` | `libclambcc/ClamBCRebuild.cpp:93-106` | once every block is visited no phi operand lacks a copy |
| `Rebuild.RebuiltRenamed` | `libclambcc/ClamBCRebuild.cpp:385-414` | the copy is the original renamed if and only if no switch has a case |
| `Rebuild.RebuiltRunsAlike` | `libclambcc/ClamBCRebuild.cpp:64-118` | if every switch is kept, every run of the copy is a run of the original with values under their new names |
| `Rebuild.CaseLost` | `libclambcc/ClamBCRebuild.cpp:404-414` | a selector equal to the last case, or to one that shares its block with another, goes to the case's block in the original and to the default in the copy |
| `Rebuild.SwitchKept` | `libclambcc/ClamBCRebuild.cpp:404-414` | the copy of a switch selects as the original for all selectors if and only if the last case goes where the default goes and every other does too or has a block of its own |
| `Rebuild.SwitchRuns` | `libclambcc/ClamBCRebuild.cpp:404-414` | a function that switches on its argument at once runs like its copy on all arguments if and only if its switch is kept |
| `SsaRenaming.RenamedRunsAlike` | `libclambcc/ClamBCRebuild.cpp:64-118` | renaming values by an injective map preserves every run |
| `Dominance.StrictDominatorsShrink` | `libclambcc/ClamBCRebuild.cpp:290-299` | a strict dominator of a reachable block is reachable, has strictly fewer dominators and is not dominated back |
| `TypeCheck.CheckTypeSize` | `clambc-ifacegen/ifacegen.cpp:605-691` | accepts exactly the nests of 8 to 64 bit integers that the strictest target lays out without padding and whose sizes survive 32 bits, and returns size and alignment |
| `TypeCheck.CheckFields` | `clambc-ifacegen/ifacegen.cpp:636-686` | the loop over a struct's fields decides the same for the struct |
| `TypeCheck.AcceptableExact` | `clambc-ifacegen/ifacegen.cpp:637-643` | accepted is the same as having no padding on any target whose integer alignments are powers of two no larger than the integer |
| `TypeCheck.StructAcceptable` | `clambc-ifacegen/ifacegen.cpp:644-685` | a struct is acceptable exactly when its fields are, each stands at a multiple of its alignment and so does the end |
| `TypeLayout.UnpaddedEverywhere` | `clambc-ifacegen/ifacegen.cpp:637-643` | no padding on the strictest target means no padding on any |
| `TypeLayout.SameEverywhere` | `clambc-ifacegen/ifacegen.cpp:637-643` | every nested element of an unpadded type has the same offset and its packed size on every target |
| `TypeLayout.ElementInside` | `libclambcc/ClamBCPrepareGEPsForWriter.cpp:174-243` | an element within bounds lies inside the object |
| `TypeLayout.ElementsDisjoint` | `libclambcc/ClamBCPrepareGEPsForWriter.cpp:174-243` | two elements within bounds, neither inside the other, share no byte |
| `AddressFlattening.ProcessGEPI` | `libclambcc/ClamBCPrepareGEPsForWriter.cpp:174-243` | produces code exactly when no assertion stops it, and the code computes the element address's byte offset modulo the index width, for all run-time indices |
| `AddressFlattening.SizeInBits` | `libclambcc/ClamBCPrepareGEPsForWriter.cpp:87-109` | a size, where one is given, is eight times the layout's |
| `AddressFlattening.SizedExactly` | `libclambcc/ClamBCPrepareGEPsForWriter.cpp:87-109` | a size is given exactly to types that are not pointers, or arrays of pointers, or arrays that take no space |
| `AddressFlattening.StepSplits` | `libclambcc/ClamBCPrepareGEPsForWriter.cpp:190-227` | the offset of an address is what its first index adds plus the offset of the rest from the type the loop keeps |
| `AddressFlattening.AddendComputes` | `libclambcc/ClamBCPrepareGEPsForWriter.cpp:194-220` | the code for one index computes what the index adds, constants read as unsigned included |
| `TypeTables.NumberTypes` | `libclambcc/ClamBCAnalyzer.cpp:106-349` | every table ends closed: everything needed has an id and nothing else but padding is listed, unless an undefined struct is needed outside a pointer or 64k types are reached |
| `TypeTables.Table.Close` | `libclambcc/ClamBCAnalyzer.cpp:319-345` | the worklist ends on cyclic types, succeeds exactly when no undefined struct is needed outside a pointer, and then lists exactly what is needed |
| `TypeTables.Table.Add` | `libclambcc/ClamBCAnalyzer.cpp:189-193` | a new type gets the next id, and an old one keeps its own |
| `TypeTables.NumberApiTypes` | `clambc-ifacegen/ifacegen.cpp:1267-1298` | the interface's worklist, with repetitions, ends and lists exactly what is needed, the i-th type with id start plus i |
| `TypeTables.DenseInjective` | `clambc-ifacegen/ifacegen.cpp:1342-1363` | no two types share an id and all ids are below the next free one |
| `ApiTables.Output` | `clambc-ifacegen/ifacegen.cpp:1199-1451` | succeeds exactly when every function is called as one of the ten prototypes, list 1 taking any pointer and an i32; then each list holds, in order, exactly the functions called as its prototype, and so do the list numbers beside them; up to 2^16 functions, each index and list number leads to its own function and every place on a list is led to; it reads past the parameters exactly when the first function that the first loop cannot place has a pointer alone |
| `ApiTables.Classify` | `clambc-ifacegen/ifacegen.cpp:1199-1265` | each dispatch list holds the positions of its functions in order |
| `ApiTables.Number` | `clambc-ifacegen/ifacegen.cpp:1399-1451` | each entry's index is the number of earlier functions of its list, in 16 bits |
| `ApiTables.LoopsAgree` | `clambc-ifacegen/ifacegen.cpp:1204-1445` | the two loops put a prototype on one list unless it has more than two parameters and only begins like a buffer function, or the first loop looks past its parameters |
| `ApiTables.EntriesPair` | `clambc-ifacegen/ifacegen.cpp:1069-1085` | index and list number written beside a function name its place |
| `CallGraph.FunctionRecurses` | `libclambcc/ClamBCUtilities.cpp:60-64` | without reachable calls through pointers the answer is exactly whether the function can reach itself by one or more calls; otherwise the first call that leads back or to a call through a pointer decides: the answer is yes only if that call leads back, the program is stopped only if it leads to such a call, and it is never no; on a negative answer what was visited is closed under calls |
| `CallGraph.Searcher.FunctionRecurses` | `libclambcc/ClamBCUtilities.cpp:30-58` | the search ends by the number of unvisited functions; a positive answer comes with a chain of calls, a negative one leaves all new visits closed |
| `CallGraph.ClosedChain` | `libclambcc/ClamBCUtilities.cpp:30-58` | no chain of calls leaves a closed set or ends at the avoided function |

## Left out

- LLVM's memory management, metadata, debug locations, pass registration and diagnostics.
- Iteration order of pointer sets and maps: an arbitrary order is taken instead, so the order of operands in a printed conjunction or disjunction is not determined.
- Sorting of sums whose terms do not all carry the default second operand: the comparison is then inconsistent, and the sort is modelled as an insertion sort.
- Compares of constants wider than 32 bits, which are refused: constants are 32-bit words here.
- Logical instructions on operands other than i1, compares between two i1 values, and undef.
- Names, attributes, icons, functionality levels and pattern checks around a logical signature.
- Freeing of route helpers, and the `Stack`, which is empty whenever it is read apart from the value just pushed.
- LogicalCompiler.Compiler.Compile: with several returns the root is related to the joined exits and not to the result, which it need not be; with phis as well, to the exit nodes alone. The estimates by which a function is certain to be compiled tell nothing of a phi's value, of the size of a compare of a sum with offset, or of how often one that becomes a range can be negated; where a phi's value, or an order of a sum with offset, is branched on or negated, whether the function is taken depends on the nodes built before, and is stated instruction by instruction.
- LogicalSignature.CompileLogicalSignature: says nothing about counts whose sums reach 2^32, because the compiled additions wrap and the reader's do not; functions that add two values with offsets, negate =Y,Y over match counts, or join =X with =X,X, have no shapes and stay with the condition tracked through the compile.
- SignaturePrinter.MergedMeaning: is stated for legible nodes, because other bounds on sums of conditions are misread.
- SumModifiers.ValueOnlyExact: over sums that mix match counts with conditions the condition is the agreement with the value itself, since their terms depend on one another.
- What different loads from elsewhere read is an input by the name of the value, so two loads of one address are not tied together.
- NodeStore.Store.GetSum: an addition built over a missing operand is an outcome of its own, without a node.
- ValueNumbering.Numbering.RunOnFunction: does not model the arm for values stored once to an alloca (lines 170 to 188), which depends on what the use iterator yields and on liveness the pass does not compute; nor the skip set kept from earlier functions, whose instructions are other objects; nor ids reaching 2^32 - 1.
- PhiElimination.Rewriter.RunOnFunction: stack slots are numbers apart from other memory, so that no other store can reach them.
- PhiWidening.Widener.ConvertPHIs: landing pads and values that are neither integers nor names are not modelled.
- Rebuild.Rebuilder.RunOnFunction: does not model the casts the rebuilder inserts, the constant folding of the builder, element addresses with all zero indices (which become no instruction), changes of types, and the fixing of call sites.
- Rebuild.Rebuilder.MapPHIValue: the branch that makes a phi on demand is unreachable once all blocks are visited, and is left out.
- TypeCheck.CheckTypeSize: the alignment of a rejected field is not initialised in the source; here it is one, which no accepted result depends on.
- AddressFlattening.ProcessGEPI: sizes in bits are taken to stay below 2^63, all indices have one width, and the new instructions around the offset are not modelled; the array-rooted overload is left out.
- TypeTables.NumberTypes: the helper globals made for constant expressions and the order in which types are mentioned are inputs.
- ApiTables.Output: text and headers that are printed beside the tables, and the order of functions, which is an input.
- The global numbering in `printGlobals`, `getDependentValues` and `compare_lt_functions`: easy members beside the worklists and orders that are modelled.
- Pointer lowering, removal of pointer phis, the verifier, the small instruction-replacing passes and the driver script.
