# xark

xark runs a circuit's wasm with symbolic values and lowers what it computes to rows `a · b = c` over a prime
field. Each clever form it uses on the way stands for a plain one: a run of both arms for a branch, a few rows
for an integer instruction, one row for a product and the equality that follows it, a template call for a
stretch of rows, a random combination for a list of checks. This project models those forms and proves that
they mean what the plain ones mean.

- **The machine** (`Words` … `Execution`). `Wasm` is the concrete semantics of an i32 subset: locals, globals,
  operand stack, byte memory, blocks, branches, traps. `Machine` is the symbolic one: it runs both arms of a branch
  on a witness, undoes what each wrote, lets arms that stop at different depths meet, and merges them into selects.
  `Simulation`, `Forks` and `Instructions` hold the simulation relation, `Accesses` the log of loads and stores,
  `Control` where execution can go whatever the values are; `Execution` closes it, and `Straying` has a run that is
  not exact.
- **Structured code** (`Structured` … `Functions`): what blocks, loops and conditionals do without offsets, the flat
  code they are decoded to, and that it does the same (`Structured`, `Decoding`); valid code, and where its labels and
  stack heights stand (`Validation`, `Layout`); the machine on valid functions (`Functions`).
- **Pointers and the peephole pass** (`Pointers`, `Peephole`).
- **The builder** (`Fields` … `Builds`): rows, hints, products and their reuse, merged and revived; gadgets on bits.
- **Native integers** (`Intervals` … `Requirements`): the rows of each instruction, the interval analysis that
  spares some, and the join with what the machine says a symbol is worth; `Compilation` puts run and rows together,
  and `WordLaws` says what the instructions' words mean as signed numbers and as bits.
  Of every step that emits rows both halves are stated: what a solution forces, and that a solution there was
  extends to one there is.
- **Handles, sums, indices** (`Handles`, `Sums`, `Indexing`).
- **Templates** (`Regions` … `Outputs`), **gadget folding** (`Reduction`, `Gadgets`, `Affine`, `Folding`) and **proven
  bits** (`Coverage`).
- **Setup** (`Polynomials`, `Ptau`, `Ceremony`) and **comb tables** (`Groups`, `Fermat`, `Combs`).

The prime `p` is a parameter; where the code relies on its size the contract says `p > 2^253`.
Control, integer meaning and validity follow sections 4.4.5, 4.3.2 and 3.3 of the WebAssembly Core Specification 1.0.

## Model

| member | source | states |
|---|---|---|
| Machine.Machine.Run | crates/frontend/src/interp.rs:1671-2372 | from every state reached, running until at most `stop` labels are left: an input on the path (it takes the guards and meets the requirements so far) that meets the new requirements reaches the state the machine now stands for; one that fails a new requirement traps, or strays at an access in the log; a run that diverges means every input on the path traps or strays; outside a look-ahead it gives up only for a cause: the steps are spent; an instruction the arm comes to does not fit its state, compares, loads or stores what is not supported, or goes on with a loop on a symbol; a branch on a symbol is nested as deep as allowed; or two arms that left the same labels and are as deep are at different offsets or stack heights |
| Machine.Machine.RunPath | crates/frontend/src/interp.rs:2894-2936 | a path leaves memory, symbolic bytes, granule counts, journals and the machine's own state as they were, however it ends and however paths nest; replaying its returned writes gives the memory it ended with |
| Machine.Machine.Fork | crates/frontend/src/interp.rs:2961-3110 | a branch on a witness: the merged state and the requirements stand for the then-run on inputs where the condition holds and the else-run on the others, as `Run` says; an arm that can only panic becomes a requirement on the condition, and what was owed for accesses in it is paid by that requirement; outside a look-ahead it fails wherever it is nested as deep as allowed, and else only for a cause, as `Run` says; unless it diverges, each arm is required away first, or a look-ahead into it learned nothing for a cause, as `Probe` says |
| Machine.Machine.Probe | crates/frontend/src/interp.rs:2867-2891 | a look-ahead leaves the machine, memory and requirements as they were; if it finds that the arm only panics, every input that takes the arm panics or strays; if not, it came to the end of the program, spent its steps, or came to an instruction that does not fit its state, computes or branches on what it cannot see, or loads or stores at a symbol |
| Machine.Machine.Rejoin | crates/frontend/src/interp.rs:3043-3110 | arms paused at different depths are resumed until they meet, and the whole still follows both, or fails for a cause, as `Run` says |
| Machine.Machine.Merge | crates/frontend/src/interp.rs:3112-3157 | stack, locals, globals and memory become selects worth the then-values where the condition holds and the else-values where not; it fails exactly if the arms' offsets or stack heights differ |
| Machine.Machine.Step | crates/frontend/src/interp.rs:1671-2372 | one instruction, and the arms it opens: as `Run` says; it leaves the labels below in place |
| Machine.Machine.StepLoad | crates/frontend/src/interp.rs:2436-2496 | a load is accepted exactly when every leaf of its pointer is a constant or a wire with an index form, and has a slot in bounds; it is logged with the guards, symbols and requirements it was made under |
| Accesses.LoggedPruned | crates/frontend/src/interp.rs:3022-3060 | requiring an arm away makes every input that strayed at an access of the arm fail a requirement |
| Accesses.LoggedAccess | crates/frontend/src/interp.rs:2436-2496 | logging an access keeps: every input on the path of a logged access comes to it, and every input that strays at one fails a requirement or is owed |
| Execution.Execute | crates/frontend/src/interp.rs:1671-3157 | for every program of the subset and every input that meets the initial requirements: if the run succeeds, the new requirements are met if and only if the program returns, in the state the machine ends in, and the input strays at no logged access, and fail if and only if it panics or strays; every input that strays really comes to that load or store of the program, finds it in bounds and goes on; where the program has no loads and stores, or every logged pointer is no select or has all slots of its leaves in bounds, requirements hold if and only if the program returns and fail if and only if it panics; if the run diverges every input panics or strays; if it gives up, it is for a cause, as `Machine.Machine.Run` says |
| Execution.SimulationIsFaithful | crates/frontend/src/interp.rs:2961-3157 | a simulation that ends outside every label, with nothing owed, gives both equivalences, with straying |
| Execution.ExactIffStraysPanic | crates/frontend/src/interp.rs:2961-3157 | both hold without straying if and only if the program panics on every input that strays |
| Execution.StrayingBreaks | crates/frontend/src/interp.rs:2436-2496 | where an input strays and the program returns they do not: a requirement fails and the program does not panic |
| Execution.SafeAt | crates/frontend/src/interp.rs:2436-2502 | at an access whose pointer is no select, or has all slots of its leaves in bounds, or that stores through anything but a select of two constants, no input strays |
| Straying.StrictRun | crates/frontend/src/interp.rs:2436-2496 | a machine built over `c ? 0 : 100·x` accepts the load; the input `c = x = 1` strays at it and fails a requirement, and the program returns on it |
| Structured.FlatIsStructured | crates/frontend/src/interp.rs:1717-1838 | a function that is never stuck, flattened: running it returns exactly what the structured function ends with, for some number of iterations, and panics exactly where that traps |
| Structured.CallRuns | crates/frontend/src/interp.rs:1717-1838 | for every bound on iterations: where the structured function ends the flat code returns the same, where it traps the flat code panics, where it is not done the flat code is still running |
| Structured.RunsIfElse | crates/frontend/src/interp.rs:1738-1779 | the flat code of a conditional does what the arm taken does, under the label, and goes on past the end; a branch out of the arm lands where the structured one does |
| Structured.Iterates | crates/frontend/src/interp.rs:1615-1635 | a branch to a loop's label runs its code again on the values it carries, the stack below unchanged |
| Structured.JumpLands | crates/frontend/src/interp.rs:1615-1635 | a branch keeps the label's number of values, drops what is above the label's height, and lands at the start of a loop or past the end of a block |
| Decoding.Decode | crates/frontend/src/interp.rs:568-640 | reading the tokens of a function, writing offsets of elses and ends back into the instructions that opened them, gives its structured code, flattened |
| Validation.ValidNeverStuck | crates/frontend/src/interp.rs:1671-1838 | a valid function is never stuck and ends with its number of results |
| Layout.AlwaysFits | crates/frontend/src/interp.rs:1671-1838 | whatever offset a valid function comes to, whichever way its branches go, the labels and the stack height there are always the same and fit the instruction |
| Layout.ArmsMeet | crates/frontend/src/interp.rs:3043-3128 | two arms of a valid function that left the same labels and are as deep are at one offset if and only if both or neither went back to the start of the loop around, and then at one stack height |
| Layout.PartedIff | crates/frontend/src/interp.rs:3112-3128 | so the arms do not meet if and only if one of them, and not the other, is back at a loop |
| Layout.RepeatParts | crates/frontend/src/interp.rs:3112-3128 | `loop { if c { continue } }`: the arms do not meet |
| Functions.ExecuteFunction | crates/frontend/src/interp.rs:1671-3157 | for every valid function: if the run ends, its requirements are met exactly where the structured function ends without straying, in the state the machine ends in, and fail exactly where it traps or strays; if it gives up, the steps are spent, a branch is nested as deep as allowed, a comparison, load, store or loop on a symbol is not supported, or one of two arms, and not the other, went back to a loop |
| Compilation.Compile | crates/frontend/src/interp.rs:1671-3157 | program to rows: the solutions of the emitted rows are solutions of the earlier ones, with the new variables as hinted, on whose inputs the program returns without straying, and give each symbol its worth; and every earlier solution on whose inputs it does extends to one; no circuit comes of it only if the run diverges (then the program panics or strays on every input), gives up for a cause, as `Machine.Machine.Run` says, leaves symbols or requirements without rows, or the program accepts the inputs of no earlier solution |
| Compilation.AskedNeverByZero | crates/frontend/src/host.rs:1353-1428 | inputs that meet the requirements of a run divide by zero in no arm that is taken |
| SymMemory.Memory.Store | crates/frontend/src/interp.rs:1241-1272 | exactly the addressed cells become the value's low bytes, the rest is unchanged, granule counts stay exact, and the open journals still undo to the old contents |
| SymMemory.Memory.Load | crates/frontend/src/interp.rs:1274-1292 | the loaded value is worth, on every input, the little-endian number its cells are worth |
| SymMemory.Memory.Assemble | crates/frontend/src/interp.rs:1309-1360 | assembling bytes of one wire, of selects, or mixed keeps their worth, and ends because replacing a select by an arm lowers the sum of the bytes' symbols |
| SymMemory.Memory.Copy | crates/frontend/src/interp.rs:2546-2577 | `memory.copy` from a concrete source moves the source range as it was before, however the ranges overlap, with exact granule counts and undoable journals |
| SymMemory.Memory.SetShadow | crates/frontend/src/interp.rs:1174-1188 | each granule's count stays the number of its symbolic bytes |
| SymMemory.Memory.ClosePath | crates/frontend/src/interp.rs:2905-2936 | the journal is undone and the returned writes, applied, give back the memory before the undo |
| SymMemory.Memory.MergeMemory | crates/frontend/src/interp.rs:3130-3157 | every byte is worth the then-path's byte where the condition holds and the else-path's where not |
| Lowering.Host.SymBin | crates/frontend/src/interp.rs:2728-2801 | an i32 operation (of add, sub, mul, and, or, xor, shl, shr_u, div_u, rem_u) pushed through selects is worth the wasm result on every input that takes the guards, and the added requirements are exactly that a division's divisor is not zero there; it fails only in a look-ahead |
| Lowering.Host.LowerDivision | crates/frontend/src/host.rs:1353-1428 | a division made in the open arms is worth the wasm result where they are taken, and a witness divisor is required not to be 0 there |
| Lowering.Host.SymCmp | crates/frontend/src/interp.rs:2814-2852 | an i32 comparison pushed through selects is worth the wasm comparison on every input; outside a look-ahead it is refused exactly when it compares, in some arm, a bit with 0 or 1 in a way that is neither the bit nor its negation |
| Lowering.Host.Cond | crates/frontend/src/interp.rs:2594-2638 | a branch condition is classified as constant or as a bit (or its negation) that decides, on every input, as the value does |
| Pointers.LoadAny | crates/frontend/src/interp.rs:2436-2496 | a load of up to four bytes through any pointer is worth the load at the address held; the new requirements are exactly that every leaf of the pointer's selects, taken or not, is in bounds; it succeeds exactly when every leaf is a constant or (outside a look-ahead) a wire with an index form, and has a slot in bounds |
| Pointers.ExactUnlessStrays | crates/frontend/src/interp.rs:2436-2496 | a load's requirements say exactly that the address held is in bounds if and only if no input of the path strays (an access in bounds with another leaf of its pointer out of bounds) |
| Pointers.PlainNeverStrays | crates/frontend/src/interp.rs:2436-2484 | outside selects no input strays, so there requirements are exact |
| Pointers.InBoundsNeverStrays | crates/frontend/src/interp.rs:2436-2496 | nor does one through a select whose leaves' slots are all in bounds |
| Pointers.NoSlotNever | crates/frontend/src/interp.rs:2436-2484 | a leaf without a slot in bounds is in bounds on no input, so a refusal always comes from such a leaf |
| Pointers.SelectRefused | crates/frontend/src/interp.rs:2486-2494 | a select of addresses 0 and 100 in four bytes of memory: refused, though an input reads address 0 |
| Pointers.SelectTooStrict | crates/frontend/src/interp.rs:2486-2494 | a select whose untaken arm is a witness pointer with one slot out of bounds: accepted, and an input in bounds strays |
| Pointers.CandidatesCover | crates/frontend/src/interp.rs:1414-1434 | the candidate addresses of a pointer contain the address held on every input |
| Pointers.CandidatesAre | crates/frontend/src/interp.rs:1414-1434 | there are candidates exactly if every leaf of the pointer is a constant or has an index form, and they are exactly the addresses the leaves' forms list |
| Pointers.StoreAny | crates/frontend/src/interp.rs:1366-1434 | memory has the value, up to four bytes, at the address held and is otherwise unchanged, however candidate slots overlap; the new requirements are exactly that the address held is in bounds; unsupported exactly for pointers, not constant nor a select of two constants, in a look-ahead or without known candidates |
| Pointers.StoreSelect | crates/frontend/src/interp.rs:1436-1502 | a store through a select of two constants, overlapping or not, is the store at the selected one; it is accepted exactly when both are in bounds |
| Peephole.Fuse | crates/frontend/src/interp.rs:836-943 | the pass rewrites the code in place into code each of whose offsets is the plain instruction or a fused run of the plain ones starting there |
| Peephole.CopyRunIs | crates/frontend/src/interp.rs:2163-2204 | the block copy is the run of load–store pairs it replaces, in either direction |
| Peephole.FusedSame | crates/frontend/src/interp.rs:836-943 | from every state, fused code panics if and only if plain code does, and returns exactly what it returns |
| Peephole.StepIsWasm | crates/frontend/src/interp.rs:2124-2223 | on the instructions both have, the pass's semantics is the machine's concrete semantics |
| Builder.Builder.EmitMul | crates/frontend/src/builder.rs:541-620 | new, reused or constant, the variable is worth the product in every solution, and every earlier solution extends to one, in one way |
| Builder.Builder.MergeMul | crates/frontend/src/builder.rs:1139-1168 | folding a product into an equality restricts the solutions by exactly that equality |
| Builder.Builder.EmitRequireEq | crates/frontend/src/builder.rs:766-800 | merged or not, the solutions are restricted by exactly `lhs = rhs` |
| Builder.Builder.EmitRequireEqGated | crates/frontend/src/builder.rs:804-828 | the solutions are restricted by exactly `g ≠ 0 ⟹ lhs = rhs` |
| Builder.Builder.EmitXor | crates/frontend/src/builder.rs:662-690 | one row forces the variable to its hinted value, and every earlier solution extends to one, in one way |
| Builder.Builder.EmitPow | crates/frontend/src/builder.rs:719-757 | repeated squaring: the form is worth the power in every solution, and every earlier solution extends to one, in one way |
| Builder.Builder.DecomposeBits | crates/frontend/src/builder.rs:888-970 | with hinted high bits and a computed bit 0, a solution extends if and only if the value (times the gate in an arm) is below `2^n`, then in one way, and the bits are its bits |
| Builder.Builder.EmitIsZero | crates/frontend/src/builder.rs:980-1002 | the bit is 1 exactly where the input is 0, in every solution, and every earlier solution extends to one, in one way |
| Builder.Builder.EmitLessThan | crates/frontend/src/builder.rs:1015-1069 | for operands below `2^n`, in the field and gated, the bit is forced to `a < b`, and every earlier solution with such operands extends to one, in one way; refused exactly for `n > 252` |
| Builder.Builder.EmitWrappingSub | crates/frontend/src/builder.rs:1087-1110 | every earlier solution with operands below `2^n` extends to one; where `2^(n+1)` is in the field, so for all `n` up to 252, in one way, with the form forced to `(a − b) mod 2^n`; where it is not, which `n = 253` allows, an earlier solution with `2^n − 1` and 0 extends to two with different answers |
| Recompose.BitSumMatch | crates/frontend/src/builder.rs:117-144 | it matches exactly sums of `n` proven bits times distinct powers of two below `2^n`; a match lists different proven bits and the form is `Σ 2^i · vᵢ` of them under every assignment |
| Calls.EmitAll | crates/frontend/src/builder.rs:541-828 | after every sequence of product, equality and gated-equality calls the builder has exactly the solutions, on the caller's values, of a plain builder that gives each call a row of its own |
| Finishing.RevivalIsExact | crates/frontend/src/gadgets.rs:535-548 | one pass of revival: the finished rows hold exactly when all rows and all merged products do, once dropped products have their values |
| Finishing.Finish | crates/frontend/src/builder.rs:1112-1137 | exactly the merged products some row mentions get their row and their hint back; every other hint is filled from its row |
| Builds.Build | crates/frontend/src/builder.rs:541-1168 | the two joined: the finished rows of every sequence of calls have exactly the plain builder's solutions on the caller's values, both ways |
| Solving.HintsDetermine | crates/ir/src/primitive.rs:72-79 | of the hints modelled: running them in order leaves no choice, so two assignments that follow them and agree on what is not hinted agree everywhere |
| Solving.Extensible | crates/ir/src/primitive.rs:72-79 | where a step adds nothing but hinted values and its hints can be run, an earlier solution extends to one after it |
| Integers.Integers.IntBin | crates/frontend/src/host.rs:1176-1435 | for every operation and operands of the register: every earlier solution extends to one of the rows, in one way (for a division by a witness, exactly those in which it is not by zero where the arm is taken), and it is worth the wasm result, a division in an arm not taken being 0; division by a constant zero diverges, and only that; witness amounts of an arithmetic shift or rotation are unsupported, and only those; it breaks only if nothing solved the earlier rows |
| Integers.Integers.DivInts | crates/frontend/src/host.rs:1353-1428 | quotient and remainder are forced where the arm is taken, and are 0 where it is not; an earlier solution extends, in one way, if and only if the divisor is not 0 or the arm is not taken |
| NumPowers.DivCompletes | crates/frontend/src/host.rs:1384-1396 | the hint of a division divides by `y + 1 − g`, so it can be run in every arm that is not taken |
| Integers.Integers.ShiftByInts | crates/frontend/src/host.rs:1198-1240 | a shift by a witness is forced to the wasm shift by the amount modulo the width, and every earlier solution extends to one, in one way |
| NumPowers.RightCompletes | crates/frontend/src/host.rs:1217-1240 | its dividing hint can always be run: no power of two is 0 in the field |
| WordLaws.ArithmeticShift | crates/frontend/src/host.rs:1320-1330 | as a signed number, `shr_s` divides by `2^(y mod reg)`, rounding down |
| WordLaws.SignedOrder | crates/frontend/src/host.rs:1437-1491 | signed comparisons are the order of the signed numbers, unsigned ones that of the words |
| WordLaws.WrapsAround | crates/frontend/src/host.rs:1176-1298 | sum, difference and product are those of the signed numbers, modulo `2^reg` |
| WordLaws.BitwiseBits | crates/frontend/src/host.rs:1268-1317 | bit `i` of AND, OR and XOR is made of the operands' bits `i` |
| WordLaws.ShiftBits | crates/frontend/src/host.rs:1315-1341 | a shift moves bits and brings in zeros |
| WordLaws.RotateBits | crates/frontend/src/host.rs:1342-1352 | a rotation turns the bits round the register |
| Integers.Integers.IntResult | crates/frontend/src/host.rs:1135-1161 | a wire for the low bits of a bounded sum is forced to the value modulo `2^reg`, and every earlier solution extends to one, in one way |
| Integers.Integers.BitsOf | crates/frontend/src/host.rs:1071-1111 | cached, known or decomposed, the bits are the value's in every solution, and every earlier solution extends to one, in one way; none are found only for a constant, and then nothing solved the rows |
| Integers.Integers.CmpInts | crates/frontend/src/host.rs:1437-1491 | decided, equal-tested, or by borrow, signed or not, the result is forced to the wasm comparison, and every earlier solution extends to one, in one way |
| Integers.Integers.SignFlip | crates/frontend/src/host.rs:1016-1034 | the form is forced to `x + 2^(reg−1) mod 2^reg`, which turns signed order into unsigned, and every earlier solution extends to one, in one way |
| Integers.Integers.Guard | crates/frontend/src/host.rs:782-806 | in every nesting of arms the guard is worth the product of the enclosing literals, and every earlier solution extends to one, in one way |
| Integers.Integers.RequireGated | crates/frontend/src/host.rs:809-817 | the solutions are restricted by exactly: where all enclosing literals hold, `lhs = rhs`, and a solution in which it does extends |
| Integers.Integers.LearnBound | crates/frontend/src/host.rs:819-857 | every bound remembered from a required comparison holds in every solution |
| Wires.LowerWire | crates/frontend/src/host.rs:1647-1655 | the rows of an operation or comparison force exactly the worth the machine gives that wire, and every earlier solution extends to one, in one way; none are emitted only if there was no solution |
| Wires.LowerDivision | crates/frontend/src/host.rs:1353-1428 | the rows of a division, in the arms it was made in, force its worth, 0 where they are not taken; a solution extends if the divisor is not 0 where they are |
| Wires.LowerTable | crates/frontend/src/host.rs:640-725 | the rows of a whole symbol table (operations, comparisons, divisions in arms, negations, boolean operations, selects, words of bytes) force the machine's valuation of it, and every earlier solution on whose inputs no division in a taken arm is by zero extends to one, in one way |
| Requirements.LowerCircuit | crates/frontend/src/host.rs:1663-1696 | a table and its requirements, in the arms of their guards: the solutions left are exactly those whose inputs every requirement accepts, and every earlier solution with such inputs, and no division by zero in a taken arm, extends to one, in one way |
| Requirements.LowerReqs | crates/frontend/src/host.rs:1663-1696 | requirements on bits restrict the solutions by exactly themselves, where their guards are taken, and a solution on which they hold extends |
| Wires.RangesAreForm | crates/frontend/src/host.rs:1493-1588 | the base and offsets listed for a wire describe it to the machine as its index form |
| Symbols.LowerMux | crates/frontend/src/host.rs:695-722 | `e + c · (t − e)` is forced to the arm the condition takes, and every earlier solution extends to one, in one way |
| Symbols.LowerByte | crates/frontend/src/host.rs:676-693 | a byte of a wire, from a split or from its bits, is forced to that byte, and every earlier solution extends to one, in one way |
| Symbols.LowerBytes | crates/frontend/src/host.rs:640-674 | a word of bytes is forced to the number they spell, and every earlier solution extends to one, in one way |
| Symbols.LowerBool | crates/frontend/src/host.rs:1617-1645 | one row forces the boolean operation of bits, and every earlier solution extends to one, in one way |
| Intervals.LcMaxSound | crates/frontend/src/host.rs:865-898 | the interval bounds the field value in every solution |
| Intervals.SplitLcSound | crates/frontend/src/host.rs:900-937 | the two parts are remainder and quotient by `2^k` in every solution |
| Intervals.SplitEnds | crates/frontend/src/builder.rs:645-657 | each replacement of a computed bit 0 lowers the weight `Σ 2^var`, so repeating it ends |
| Intervals.DisjointSound | crates/frontend/src/host.rs:939-963 | where forms are found disjoint, OR and XOR are the sum |
| Intervals.DecidedCmpSound | crates/frontend/src/host.rs:965-986 | a comparison decided by bounds is never decided wrongly |
| Indexing.IndexForm | crates/frontend/src/host.rs:1493-1588 | base plus one of the listed offsets (subset sums or a grid of the gcd) is the index, in every solution, and at most 1024 are listed; there is a form if and only if every part has a known range, some part counts, the base is a 32-bit address, and there are at most ten bits or 1024 grid points |
| Handles.Handles.FieldWords | crates/frontend/src/host.rs:317-347 | issuing a handle disturbs none: the new one decodes to its form, every live one in scanned state still to its own |
| Handles.Handles.Collect | crates/frontend/src/host.rs:349-378 | handles to slots the scan reports survive a collection, and every handle issued for another slot is stale after it; constants and variables read as before |
| Handles.Handles.DecodeIsHonest | crates/frontend/src/host.rs:546-637 | over every interleaving, a handle decodes to the form it was issued for or to an error |
| Handles.ConstRoundTrip | crates/frontend/src/host.rs:762-776 | the four words of a constant read back as that constant |
| Sums.MergeLc | crates/frontend/src/host.rs:2364-2461 | the merged form is worth the signed sum, operands in order or not; the sorted zero-free one when they are; without the flag every coefficient is settled when the operands' are |
| Sums.ReduceKeepsValue | crates/frontend/src/host.rs:407-435 | reduction keeps the value in the field |
| Sums.SettledStays | crates/frontend/src/host.rs:407-435 | reducing a settled form changes nothing |
| Sums.AddReduced | crates/frontend/src/host.rs:457-507 | so skipping the reduction on the flag gives the same reduced sum; the sum of reduced forms is reduced again |
| Sums.ReducedSettles | crates/frontend/src/host.rs:407-435 | the reduction of a form in order is in order, without zeros, and settled |
| Regions.Recorder.RegionBegin | crates/frontend/src/builder.rs:278-292 | a call opens a region inside the innermost open one; what the recorder keeps of nesting stays so |
| Regions.Recorder.RegionEnd | crates/frontend/src/builder.rs:294-307 | a returned call keeps its span, or is forgotten with all inside it when small; open and closed regions stay properly nested |
| Templates.Normalized | crates/frontend/src/templates.rs:208-250 | the normal form of a region, or none exactly when a variable cannot be named |
| Templates.SameFormInstance | crates/frontend/src/templates.rs:210-250 | a region of the same form is its template's rows and witness ops renamed by base and plugs |
| Detection.Walk | crates/frontend/src/templates.rs:302-345 | calls of one scope never overlap, each lies inside its scope's body, no template calls its own key, and every repeated form the walk can see is a call unless marked bad or recursive |
| Detection.Detect | crates/frontend/src/templates.rs:246-398 | the redo loop ends, every call is exactly an instance of its template, and only regions that were not are marked; of two closed regions of 8 to `max_rows` rows, as large as each other and of one form, each that is visible is a call of a template, and both of the same one, unless it is part of its own template or marked because a region of its digest differs in form |
| Expansion.DetectExactly | crates/frontend/src/templates.rs:246-398 | with keys that hold the form, the compact circuit found expands to the circuit's rows and witness ops, in order |
| Expansion.DetectAndExpand | crates/frontend/src/templates.rs:265-398 | the same for every hash under which equal keys have equally many variables |
| Expansion.ExpandIsFlat | crates/frontend/src/templates.rs:210-250 | expanding any body from any position gives exactly its stretch of the flat circuit |
| Expansion.NoCycle | crates/frontend/src/templates.rs:330-398 | no template calls itself through any chain of calls |
| Outputs.DetectWithOutputs | crates/frontend/src/templates.rs:246-515 | the templates' outputs are the least sets that hold every variable read outside some call and are closed under nesting |
| Outputs.OutputsOf | crates/frontend/src/templates.rs:399-510 | the fixpoint loop ends in that least family, for every circuit and list of calls |
| Reduction.CanonicalIffSame | crates/frontend/src/gadgets.rs:380-411 | canonical forms are equal if and only if the functions are |
| Gadgets.AffineValueIsHint | crates/frontend/src/gadgets.rs:305-355 | an affine hint's folds hold exactly when the hint does |
| Gadgets.RowValidityHolds | crates/frontend/src/gadgets.rs:358-378 | a row called always true is, one called never true is not, under every assignment |
| Gadgets.AlwaysIsFound | crates/frontend/src/gadgets.rs:358-378 | a linear row that holds under every assignment is found to |
| Affine.ValidityDecides | crates/frontend/src/gadgets.rs:358-378 | a row with a constant factor is called always true exactly if every assignment satisfies it, never true exactly if none does |
| Affine.AffineIff | crates/frontend/src/gadgets.rs:305-355 | a hint on reduced forms has an affine value exactly if it is bits of a form with one value, or a gate with such an input |
| Folding.SubstitutionOf | crates/frontend/src/gadgets.rs:96-120 | the substitution found makes the template the call under every assignment; none is found only when there is none |
| Folding.FoldingOf | crates/frontend/src/gadgets.rs:126-214 | when a template folds to a call, every assignment satisfying the call extends to one satisfying the template with the same inputs and outputs, and back; a row folded to false means the template has no solution there whose variables are computed as hinted; it folds exactly if the template with the inputs plugged in, hint after hint folded away and the variables left renumbered, has the call's canonical form |
| Coverage.InContext | xtask/src/coverage.rs:564-669 | the fixpoint ends; what it calls a bit is one in every solution, every call it calls covered meets its meaning, and nothing more follows: rows `x·x = x`, `x·(x − 1) = 0` and products of bits, producers' outputs, and calls whose assumptions are known have been followed up |
| Ptau.VerifyPowersConsistency | crates/backend/src/ptau.rs:247-344 | the batched check accepts exactly when every random combination and every parameter check does |
| Ptau.ChecksDecideHonesty | crates/backend/src/ptau.rs:247-344 | for more than m − 2 distinct challenges, m the longest section, acceptance at all of them is exactly: all sections are geometric ladders of one τ outside {0, 1} with nonzero α and β; such a transcript passes at every challenge |
| Ptau.PowersOf | crates/backend/src/ptau.rs:381-389 | the list of powers of the challenge |
| Polynomials.TooManyRoots | crates/backend/src/ptau.rs:247-344 | as many distinct roots as coefficients leave only the zero polynomial |
| Ceremony.Keys.Contribute | crates/backend/src/ceremony.rs:114-165 | a contribution multiplies both deltas by the secret and each H and L point by its inverse, and attests to it |
| Ceremony.RunConserves | crates/backend/src/ceremony.rs:114-165 | over any number of contributions delta times each H and L point, and everything else in the keys, stays what it was |
| Ceremony.VerifyChain | crates/backend/src/ceremony.rs:171-216 | accepts exactly the chains whose every link is good, with no factor or delta zero in the field, and else names the first bad link and the first thing wrong with it |
| Ceremony.ResponseForced | crates/backend/src/ceremony.rs:188-200 | of an accepted chain with another response in one place, the response is congruent if and only if the chain is still accepted |
| Ceremony.ForgedResponse | crates/backend/src/ceremony.rs:188-200 | a response that is not congruent is answered as an invalid proof at its index |
| Ceremony.ShiftedRunRefused | crates/backend/src/ceremony.rs:171-216 | so is every honest run with one response shifted by what is not zero in the field |
| Ceremony.FactorExtracted | crates/backend/src/ceremony.rs:188-200 | two accepted responses to one commitment under challenges that differ give the factor |
| Ceremony.BrokenChain | crates/backend/src/ceremony.rs:178-180 | a link that does not follow the one before is answered as a break at its index |
| Ceremony.ZeroRefused | crates/backend/src/ceremony.rs:181-185 | a factor or delta that is zero in the field is answered as degenerate at its index |
| Ceremony.ForgedDelta | crates/backend/src/ceremony.rs:201-206 | a new delta that is not the old one times the factor, though the factor is proved for it, is answered as inconsistent at its index |
| Ceremony.ChainMultiplies | crates/backend/src/ceremony.rs:171-216 | an accepted chain's final delta is the initial one times the committed factors, none of them zero in the field |
| Ceremony.HonestRunPasses | crates/backend/src/ceremony.rs:171-291 | after every honest run all three verifiers accept, for every random vector |
| Ceremony.WrongPointCaught | crates/backend/src/ceremony.rs:249-291 | a point that is not the initial one rescaled passes for at most one value of its coefficient, whatever the others |
| Ceremony.MatchingDecides | crates/backend/src/ceremony.rs:249-291 | passing at one random vector and at one other value of each coefficient is exactly having only been rescaled |
| Ceremony.ChecksProveRescaling | crates/backend/src/ceremony.rs:171-291 | all three verifiers together: the shipped delta is the initial one times the committed factors, none of them and not the delta zero in the field, delta times every H and L point is conserved, and nothing else changed |
| Combs.BuildComb | gadgets/xark-secp256k1/build.rs:75-89 | entry `v` of window `j` is its start plus `v · 2^(8j+1) · G` |
| Combs.CombSum | gadgets/xark-secp256k1/build.rs:75-89 | for every 256-bit scalar the selected entries sum to `2C·G − 2^e·O`, with every `H` cancelling; `e` is 65 here and 130 in gadgets/xark-secp256r1/build.rs:76-90 |
| Combs.Pow2Mod | gadgets/xark-secp256k1/build.rs:51-57 | doubling gives `2^e` modulo the order |
| Combs.Mul | gadgets/xark-ed25519/build.rs:53-63 | double-and-add gives the multiple |
| Combs.EdwardsSum | gadgets/xark-ed25519/build.rs:86-102 | for every scalar the selected entries sum to `[2W · 4⁻ᵐ]·G` |
| Combs.BuildEdwards | gadgets/xark-ed25519/build.rs:87-102 | the tables built from the scaled base point have that sum for every scalar |
| Combs.BatchInvert | gadgets/xark-ed25519/build.rs:104-117 | if no entry is zero every result is the inverse; with a zero entry every result is zero |
| Combs.BatchInvertsIff | gadgets/xark-ed25519/build.rs:104-117 | the nonzero entries are all inverted if and only if none is zero or all are |
| Combs.ZeroSpoilsBatch | gadgets/xark-ed25519/build.rs:104-117 | beside a zero, 1 is not inverted |
| Fermat.LittleTheorem | gadgets/xark-ed25519/build.rs:82-85 | `a^(p−1) = 1` for `a` not divisible by the prime `p`, on which both inversions rest |

## Findings

- Loads through a select check every arm (`crates/frontend/src/interp.rs:2436-2496`), while a program reads only the
  one selected. So "requirements hold exactly when the program does not trap" is false of programs that load through
  a select with an arm out of bounds: `Pointers.SelectRefused` (a constant arm: compilation is refused) and
  `Straying.StrictRun` (a witness arm: the requirement binds although the arm is not taken, and the program
  returns). The exact condition is `Pointers.Strays` at a logged access: `Pointers.ExactUnlessStrays` states it for
  one access, and `Execution.Execute` for whole runs, both ways. It never arises where every pointer is no select or
  has all slots in bounds, nor in a program without loads and stores.
- The arms of a branch on a witness meet unless one of them, and not the other, goes back to the start of a loop
  around the branch (`crates/frontend/src/interp.rs:3043-3128`): `Layout.RepeatParts` is a program where one does, and
  `Layout.PartedIff` the exact condition for valid functions. The machine then gives up, as for a `br_if` to a loop on a
  witness (`crates/frontend/src/interp.rs:1826-1829`), though with the words that the arms do not rejoin.
- Wrapping subtraction at the 253 bits its range proof still accepts leaves two solutions for some operands
  (`crates/frontend/src/builder.rs:888-898, 1087-1110`) unless `2^254` is in the field:
  `Builder.Builder.EmitWrappingSub` states both, of the rows it emits. The code only calls it at register widths.
- The header of `gadgets/xark-secp256k1/build.rs:1-7` has `2^0·H` in window 0 and the correction added to it; the code
  starts window 0 at the correction alone, and only so do the `H` offsets cancel. `Combs` follows the code.

## Left out

- Outside the machine's i32 subset: i64 and float instructions, `br_table`, `call_indirect`, calls between
  functions, `memory.fill` and `memory.grow` (it is not journaled); signed and 64-bit loads; step and depth budgets
  are parameters.
- Validation: one value type; code after a branch that is always taken is not checked, and never run. Parsing of the
  binary format is not modelled: `Decoding` starts from its tokens.
- A wire in the machine is its defining operation, and `Wires` emits the rows of a table after the run; the code
  emits each symbol's rows as it makes the symbol. A symbol whose form turns out constant is a constant from then on
  in the code, and a symbol with that form here.
- The host's `emitted` test, call notes, profiling, locations and memoisation of muxes.
- The offsets of a witness pointer reach the machine as a parameter whose forms hold for every input
  (`Machine.index`, joined to `Indexing` by `Wires.RangesAreForm`); forms narrowed by bounds learned from
  requirements hold only for inputs that meet those.
- Lowering.Host.SymBin: without arithmetic shift, rotations and 64-bit operands, which `Integers` has.
- Lowering.Host.SymCmp: 32-bit operands only.
- SymMemory.Memory.Copy: not the copy through a select of pointers (`crates/frontend/src/interp.rs:2529-2545`),
  which is a load through the select and a store for each word.
- Pointers.LoadAny: unsigned loads of one, two and four bytes.
- Pointers.StoreAny: stores of one, two and four bytes.
- Solving.HintsDetermine: the plain inverse, batched bits and big-integer hints are not modelled.
- Field constants are unbounded integers; a product is looked up by its literal operands, as the code compares them
  again after hashing; handle generations are unbounded, and the packing of handles into 64-bit words is not
  modelled.
- Folding.FoldingOf: that it never panics is not stated; it passes over the hints once, so a folding that needs an
  earlier hint folded after a later one is not found; hints other than the listed ones are opaque.
- Expansion.DetectAndExpand: expands exactly when equal keys come with equally many variables, which the code does
  not compare again (`crates/frontend/src/templates.rs:252-363`) and only a hash collision could break; with keys
  that hold the whole form it is proved without that (`Expansion.DetectExactly`).
- Templates: witness-only regions, recording of gadget calls and the order-based search for a variable's enclosing
  calls (each call is asked instead).
- Coverage: the class strings, labels and site splitting.
- Peephole.Fuse: does not say that every run that could be fused is, which no behaviour depends on; called functions
  are a parameter.
- Setup: points are their exponents, the pairing is multiplication, challenges, nonces and random vectors are
  parameters; parsing and serialisation.
- Combs.BatchInvert: a zero entry is a case outside what the trick is for; that no point built has one is a matter
  of the curve's formulas, which are not modelled.
- Combs: curve formulas are an abstract group; the offsets `O` and `H` are parameters, so `hash_point` is not
  modelled.
- `renumber_inputs`, the witness-only clean-up and the minimiser are not part of this model.
