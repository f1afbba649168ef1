# A verified model of the Paco compiler's ownership and driver core

Paco compiles a language with move semantics, drop flags and reference-counted
shared cells. Its compile-time evaluator is a small machine that runs the same
intermediate representation (MIR) as the two native backends, and all three
follow one discipline: values are copied bit by bit, and only drop flags, deep
clones and counts keep each heap block owned by the right number of places. The
borrow checker supplies the move analysis and the drop plan that the discipline
relies on; the driver discovers, fetches, caches and prunes what is compiled.

The project models these parts in Dafny and proves what they are for.

- **The evaluator.** `Heap` defines who owns what in a typed heap, as an
  invariant with an owner count per block. `Drop`, `Clone` and `RoundTrip` are
  the glue and its laws. `Mir`, `Places` and `Semantics` give the meaning of
  places, operands, statements and calls as a definitional interpreter, `Laws`
  and `Meanings` say what it comes to, and `Machine` is the evaluator as a class that updates
  its heap in place. It is proved to compute the interpreter's result and to
  keep the ownership invariant at every step of every run, with an instruction
  budget and a depth limit. `Confine` and `Conserve` say what a call, nested or
  not, does to blocks it was not given and what becomes of those it was.
  `Memory` is the byte-addressed memory below it.
- **Integers.** `IntOps` has the evaluator's wide arithmetic and the LLVM
  lowering on bit patterns side by side; `IntLaws` says what the operators mean
  for the numbers, and `Bits` has the arithmetic of both.
- **Shared cells.** `CellProtocol` is the spin lock and atomic count both native
  backends emit, as steps of any number of threads; `CellRuns` says what holds
  over whole runs and `CellValues` what the cells say.
- **The move analysis.** `Borrow` is a core language with the analysis and a
  semantics, `BorrowState` the checker that updates its state in place,
  `BorrowSound` the soundness of moves and the exactness of the drop plan for
  regular bodies, `BorrowExact` a condition on the text of a body for that,
  `BorrowReplay` the exact conditions for `while` and `loop` in terms of the
  checker's own states, and `BorrowLimits` the checker's whole-function result
  and bodies that are accepted although a run of them goes wrong. `BorrowRuns`
  puts runs together from parts. `BorrowPaths` follows all paths through a body
  at once; `BorrowPathSound` and `BorrowPathExact` prove that this finds a fault
  if and only if some run has one, for every body, and `BorrowGaps` draws from it
  the exact conditions for the checker: for moves, for the drop plan, for guards
  and for block ends. `BorrowReports` proves that the checker does not report too
  much.
- **The driver.** `Discover` is the walk of the `use` graph, `Fetch` the
  concurrent population of the package cache, `Prune` and `Manifest` the build
  cache, `Slice` the closure of compile-time names.

A stop of the evaluator is one of three kinds: `Fault` is an error the program
earned, `Promise` a step that the type checker or the borrow checker promises
never to let through, and `MemoryFault` an access to memory that is gone, which
is proved never to happen.

## Model

| member | source | states |
|---|---|---|
| `Heaps.OwnersOf` | compiler/paco-comptime/src/machine.rs:577-745 | what the ownership invariant says of one block: a live string or slice has exactly one owner anywhere, a cell as many as its count, and a freed block, a constant or a local's storage none |
| `Heaps.RootLive` | compiler/paco-comptime/src/machine.rs:665-745 | whatever an owner points at is live and of the right kind, and a string or slice with an owner is not in the middle of being taken apart |
| `Heaps.Tear` | compiler/paco-comptime/src/machine.rs:699-711 | opening an owned string or slice trades its owner for the owners stored in it, with the invariant kept |
| `Heaps.Mend` | compiler/paco-comptime/src/machine.rs:762-778 | closing a finished slice trades the owners stored in it for one owner, with the invariant kept |
| `DropGlue.DropSound` | compiler/paco-comptime/src/machine.rs:665-745 | drop never fails on an owned value, never meets a block on its own recursion stack, and gives up exactly the ownership the value stood for; blocks under way stay untouched |
| `DropGlue.WeightLower` | compiler/paco-comptime/src/machine.rs:712-727 | drop recursion through a cell decreases live slices plus total cell counts, so it ends on recursive types |
| `CloneGlue.CloneSound` | compiler/paco-comptime/src/machine.rs:749-803 | clone never fails on an owned value, leaves every owner in place, and the copy is owned separately |
| `CloneGlue.CloneDeep` | compiler/paco-comptime/src/machine.rs:749-803 | the copy is the same value as the original down to any depth, on strings and slices that were not there before; a cell is shared, with its count raised |
| `CloneGlue.Stable` | compiler/paco-comptime/src/machine.rs:749-803 | a copy on storage of its own keeps its value whatever happens to the older blocks |
| `Heaps.RootsUnique` | compiler/paco-comptime/src/machine.rs:577-745 | a heap leaves no choice of who the owners outside it are |
| `RoundTrips.CloneDropRestores` | compiler/paco-comptime/src/machine.rs:665-815 | cloning an owned value and dropping the copy restores every block and every count, and leaves no further live block |
| `RoundTrips.DropKeeps` | compiler/paco-comptime/src/machine.rs:665-745 | dropping a value whose blocks have other owners frees none of theirs and changes only counts |
| `Places.ResolveSettled` | compiler/paco-comptime/src/machine.rs:437-476 | a resolved place is a slot of a local's storage or of a slice reached from one through owners |
| `Places.OpenChain` | compiler/paco-comptime/src/machine.rs:437-476 | each block on the way to a place is none of those before it, and opening them one after another keeps the invariant |
| `Places.CloneAt` | compiler/paco-comptime/src/machine.rs:577-598 | cloning what is stored at any place succeeds and keeps the invariant |
| `Steps.AssignAt` | compiler/paco-comptime/src/machine.rs:611-630 | overwriting a slot, the old value dropped in place and the new one stored, never fails and moves exactly the new value's ownership into the slot |
| `Steps.TakeLocal` | compiler/paco-comptime/src/machine.rs:577-589 | moving out of a flagged local clears the flag and puts its owners in flight |
| `Steps.DropOwnedLocal` | compiler/paco-comptime/src/machine.rs:646-655 | dropping a flagged local succeeds and keeps the invariant |
| `Steps.SwapCell` | compiler/paco-comptime/src/machine.rs:1470-1485 | replacing what a cell holds puts the new owners in and the old ones in flight |
| `Steps.CloneFromCell` | compiler/paco-comptime/src/machine.rs:1465-1469 | cloning what a cell holds succeeds and leaves the cell as it was |
| `Laws.GetBeside` | compiler/paco-comptime/src/machine.rs:611-630 | writing one part of a value leaves every part beside it |
| `Laws.StoreThenLoad` | compiler/paco-comptime/src/machine.rs:611-630 | what is stored at a slot is read back from it; parts beside it and every other local stay |
| `Laws.StoreLocalThenRead` | compiler/paco-comptime/src/machine.rs:611-622 | storing into a local sets its flag exactly if its type needs drop, and the value is read back |
| `Laws.MovedOut` | compiler/paco-comptime/src/machine.rs:577-589 | moving out of a local copies its bits and clears its flag; the bits stay, nothing else changes, and when the frame's locals are dropped this one is passed over |
| `Laws.CopyIsDeep` | compiler/paco-comptime/src/machine.rs:577-609 | an owned copy of what a place holds is the same value down to any depth on storage of its own |
| `Laws.CopySurvivesDrop` | compiler/paco-comptime/src/machine.rs:611-630 | dropping an old value does not touch a copy just made |
| `Laws.AssignCopies` | compiler/paco-comptime/src/machine.rs:838-860 | `x = copy p` makes `x` the value `p` had, down to any depth, although what `x` held before is dropped in between |
| `Evaluator.Machine.FreeBlock` | compiler/paco-comptime/src/machine.rs:78-91 | frees a live, not fixed block; a second free or the free of a constant fails and changes nothing |
| `Evaluator.Machine.DropAt` | compiler/paco-comptime/src/machine.rs:665-745 | drop glue run in place computes the drop function wherever that succeeds |
| `Evaluator.Machine.CloneValue` | compiler/paco-comptime/src/machine.rs:749-815 | clone glue run in place, elements cloned inside the copy, computes the clone function |
| `Evaluator.Machine.Intern` | compiler/paco-comptime/src/machine.rs:504-517 | a string constant is stored once, in a block that is never freed |
| `Evaluator.Machine.Locate` | compiler/paco-comptime/src/machine.rs:437-476 | where a place is, as the semantics says, and the slot is accounted for |
| `Evaluator.Machine.LocateThrough` | compiler/paco-comptime/src/machine.rs:557-575 | the same through a reference |
| `Evaluator.Machine.CopyOut` | compiler/paco-comptime/src/machine.rs:577-609 | reading to keep: the new heap and the value are those of the semantics, the copy's owners are in flight, nothing that was live goes away |
| `Evaluator.Machine.MoveOut` | compiler/paco-comptime/src/machine.rs:577-589 | moving out of a local: the flag is cleared and the value is in flight |
| `Evaluator.Machine.OwnedAs` | compiler/paco-comptime/src/machine.rs:577-609 | every operand: the world and the value the semantics says, owned by the asker; never an access to freed memory |
| `Evaluator.Machine.DropFlagged` | compiler/paco-comptime/src/machine.rs:646-655 | drops a local exactly if its flag is set and clears the flag |
| `Evaluator.Machine.DropAllOwned` | compiler/paco-comptime/src/machine.rs:657-662 | drops every flagged local, newest first; no flag is left |
| `Evaluator.Machine.WritePlace` | compiler/paco-comptime/src/machine.rs:611-630 | stores an owned value at any place, dropping what was there, as the semantics says, with the invariant kept |
| `Evaluator.Machine.EvalRvalue` | compiler/paco-comptime/src/machine.rs:883-1035 | rvalues as the semantics says; what they give is owned once |
| `Evaluator.Machine.RunStatement` | compiler/paco-comptime/src/machine.rs:838-881 | a statement changes the world as the semantics says, keeps the invariant and leaks nothing when it succeeds |
| `Evaluator.Machine.NewSharedCell` | compiler/paco-comptime/src/machine.rs:1449-1459 | a new cell has count 1 and the evaluated value |
| `Evaluator.Machine.GetFromCell` | compiler/paco-comptime/src/machine.rs:1465-1469 | `get` gives a clone of what the cell holds |
| `Evaluator.Machine.StoreToCell` | compiler/paco-comptime/src/machine.rs:1470-1485 | `set` stores first and drops the old value afterwards |
| `Evaluator.Machine.RunBuiltin` | compiler/paco-comptime/src/machine.rs:1448-1494 | every cell operation and slice allocation as the semantics says, with the invariant kept |
| `Evaluator.Machine.Tick` | compiler/paco-comptime/src/machine.rs:262-268 | the budget is exceeded by at most one |
| `Evaluator.Machine.ArgValues` | compiler/paco-comptime/src/machine.rs:1250-1259 | arguments are evaluated in order, owned or passed by reference as the parameter's type says |
| `Evaluator.Machine.RunReturn` | compiler/paco-comptime/src/machine.rs:1222-1234 | the result is evaluated first, then every flagged local is dropped; exactly the result's owners are left in flight |
| `Evaluator.Machine.Deliver` | compiler/paco-comptime/src/machine.rs:1260-1265 | a result goes to its destination; without one its owners are lost, and exactly those |
| `Evaluator.Machine.RunTerminator` | compiler/paco-comptime/src/machine.rs:1190-1265 | a terminator goes on where the semantics says, with the world and the count of instructions it says |
| `Evaluator.Machine.RunFrame` | compiler/paco-comptime/src/machine.rs:396-421 | a body runs as the semantics says from block 0 to its return, whatever loops it has, within the budget |
| `Evaluator.Machine.BindParams` | compiler/paco-comptime/src/machine.rs:396-405 | arguments are moved into the parameters and flagged |
| `Evaluator.Machine.InFrame` | compiler/paco-comptime/src/machine.rs:366-394 | a call computes what the semantics says; the frames are restored on success and on failure, the depth limit holds, and nothing leaks on success |
| `Evaluator.Machine.Invoke` | compiler/paco-comptime/src/machine.rs:366-421 | for every call, nested or not, from any heap: it also leaves every block its arguments do not lead to as it was, and afterwards every live block among those they lead to or that are new belongs to the result, to a local it was given a reference to, or to a cell; no storage of its own is left |
| `Evaluator.Machine.PushFrame` | compiler/paco-comptime/src/machine.rs:366-387 | new zero-filled storage, apart from all other storage, for each local |
| `Evaluator.Machine.PopFrame` | compiler/paco-comptime/src/machine.rs:388-394 | the frame's storage is given back on success and on failure |
| `Evaluator.Machine.Evaluate` | compiler/paco-comptime/src/machine.rs:229-237 | for every program and every run: the result is that of the semantics, no freed memory is touched, the budget is exceeded by at most one, no frame is left, and after a success every live block is owned by the result unless a cell keeps it; the result owns everything if and only if nothing was thrown away |
| `Confinement.InvokedRespects` | compiler/paco-comptime/src/machine.rs:366-421 | over a whole call, loops and nested calls included: blocks walled off from what the call is given stay the same, and what it gives back does not lead to them |
| `Conservation.CallSpares` | compiler/paco-comptime/src/machine.rs:366-421 | a call that returns leaves every block its arguments do not lead to, through owners and through references to locals, as it was |
| `Conservation.OutsideUntouched` | compiler/paco-comptime/src/machine.rs:577-662 | what somebody outside the call owns is not among what its arguments lead to |
| `Conservation.LiveBelongs` | compiler/paco-comptime/src/machine.rs:388-394 | after a call a live block that the arguments led to, or that is new, belongs to the result or to what the call was given to work on |
| `Conservation.CallConserves` | compiler/paco-comptime/src/machine.rs:366-421 | conservation across any call, from the ownership invariant before and after it and what it spares |
| `Conservation.TouchesNoLocal` | compiler/paco-comptime/src/machine.rs:577-662 | arguments without references lead to no local and to no constant |
| `Conservation.PlainCallConserves` | compiler/paco-comptime/src/machine.rs:366-421 | for a call without references among its arguments and with no cell among what they lead to or what is new, whatever cells its callers hold: every block they do not own is the same, every block they own is freed or owned by the result, and a new block is freed, owned by the result or a constant |
| `Evaluator.ResultOwnsAll` | compiler/paco-comptime/src/machine.rs:229-237 | at the end of an evaluation without cells, every live block is owned by the result, directly or through slices |
| `Evaluator.PlainResultFreesAll` | compiler/paco-comptime/src/machine.rs:366-394 | a result that owns nothing leaves nothing live but constants |
| `Meanings.LocalIs` | compiler/paco-comptime/src/machine.rs:437-448 | a local is its own storage; a path through one that holds a reference starts at what it refers to |
| `Meanings.FieldIs` | compiler/paco-comptime/src/machine.rs:449-453 | a field's place holds that component of the record its base holds |
| `Meanings.VariantFieldIs` | compiler/paco-comptime/src/machine.rs:454-458 | a variant field's place holds that component of the payload, if that variant is there |
| `Meanings.ElementIs` | compiler/paco-comptime/src/machine.rs:459-471 | an index into a slice is that element, the index being the number given or the one its local holds |
| `Meanings.IndexStops` | compiler/paco-comptime/src/machine.rs:459-471 | an index stops the program exactly if it is negative or not below the length |
| `Meanings.ThroughIs` | compiler/paco-comptime/src/machine.rs:557-575 | looking through a place shows what a reference in it refers to, and otherwise what it holds |
| `Meanings.ConstantIs` | compiler/paco-comptime/src/machine.rs:490-519 | integer, unit and string constants are the values written, a string on new storage of its own |
| `Meanings.ConstantOnce` | compiler/paco-comptime/src/machine.rs:504-517 | the second use of a string constant is the same block |
| `Meanings.CopyIs` | compiler/paco-comptime/src/machine.rs:577-609 | a copied operand is what the place holds, or what a reference in it refers to where that is wanted, deeply |
| `Meanings.MoveIs` | compiler/paco-comptime/src/machine.rs:577-589 | a local moved out of gives its value and changes no other block |
| `Meanings.MoveElsewhereIs` | compiler/paco-comptime/src/machine.rs:577-609 | a move out of any other place is a copy |
| `Meanings.OperandIs` | compiler/paco-comptime/src/machine.rs:990-1034 | operands are evaluated from left to right, each where those before it left things, and give one value each in order |
| `Meanings.ConcatIs` | compiler/paco-comptime/src/machine.rs:891-900 | a concatenation is a new string with the bytes of the left operand followed by those of the right one |
| `Meanings.LengthIs` | compiler/paco-comptime/src/machine.rs:928-931 | the length is the number of elements of the slice, or of bytes of the string, that the place shows |
| `Meanings.TagIs` | compiler/paco-comptime/src/machine.rs:932-935 | the discriminant is the tag of the variant that the place shows |
| `Meanings.RefIs` | compiler/paco-comptime/src/machine.rs:941 | a reference refers to what its place holds |
| `Meanings.AggregateIs` | compiler/paco-comptime/src/machine.rs:990-1034 | records and variants have one component for each operand in order, and the tag asked for |
| `Meanings.NewCellIs` | compiler/paco-comptime/src/machine.rs:1449-1459 | a new cell holds what its operand stands for |
| `Meanings.GetIs` | compiler/paco-comptime/src/machine.rs:1465-1469 | `get` gives what the cell holds, deeply, and leaves it |
| `Meanings.SetIs` | compiler/paco-comptime/src/machine.rs:1470-1485 | after `set` a cell that is still there holds what the operand stood for |
| `Meanings.CountIs` | compiler/paco-comptime/src/machine.rs:1448-1494 | `strong_count` is the count, and cloning a handle raises it by one and changes nothing else |
| `Meanings.ZerosAre` | compiler/paco-comptime/src/machine.rs:1448-1494 | a new slice has as many elements as asked for, each zero; a negative number is refused |
| `Meanings.PlainIs` | compiler/paco-comptime/src/machine.rs:838-860 | a destination takes a reference as it is exactly if its type, or what is there, is a reference |
| `Meanings.AssignIs` | compiler/paco-comptime/src/machine.rs:838-860 | an assignment makes its place hold the value of its right-hand side |
| `Meanings.SwitchIs` | compiler/paco-comptime/src/machine.rs:1193-1204 | a switch goes to the block of the first target equal to what its discriminant holds, and if there is none to the other one; nothing else changes |
| `Meanings.GoesOn` | compiler/paco-comptime/src/machine.rs:1190-1265 | jumps go to their target, calls go on behind themselves, a return ends the function, unreachable code stops the program |
| `Meanings.InOrder` | compiler/paco-comptime/src/machine.rs:406-416 | statements run in the order they stand |
| `Meanings.ArgumentIs` | compiler/paco-comptime/src/machine.rs:1250-1259 | arguments are evaluated from left to right for the parameters in order |
| `Meanings.PassingIs` | compiler/paco-comptime/src/machine.rs:1250-1259 | a reference parameter gets the reference its argument holds or one to its place, any other the argument's value |
| `Meanings.CallIs` | compiler/paco-comptime/src/machine.rs:1235-1265 | a call runs the named function on its arguments' values and puts the result into its destination |
| `Meanings.ParametersHold` | compiler/paco-comptime/src/machine.rs:396-405 | each parameter holds its own argument, flagged if its type needs it, and nothing else changed |
| `Meanings.LocalsStart` | compiler/paco-comptime/src/machine.rs:366-387 | a new frame's locals have zero-filled storage of their own behind everything else |
| `Meanings.ZeroIs` | compiler/paco-comptime/src/machine.rs:34-37 | zero-filled storage reads as zeros and null pointers at every type |
| `Meanings.NeedsDropIs` | compiler/paco-comptime/src/machine.rs:343-357 | a type needs drop if and only if it has a value that owns storage |
| `Meanings.NewestFirst` | compiler/paco-comptime/src/machine.rs:657-662 | locals are dropped newest first |
| `Meanings.ReturnIs` | compiler/paco-comptime/src/machine.rs:1222-1234 | a function returns its operand's value, evaluated before its locals are dropped |
| `Meanings.ZeroTestIs` | compiler/paco-comptime/src/machine.rs:366-421 | end to end, for every number and from any heap: a function with one branch binds its argument, takes the right branch, returns its value and frees its storage |
| `Laws.DiscardIsClean` | compiler/paco-comptime/src/machine.rs:1260-1265 | a call result without a destination is thrown away as it is, and nothing is lost if and only if it owned nothing |
| `Memories.Memory.AllocBlock` | compiler/paco-comptime/src/machine.rs:34-37 | a zeroed block at the end of the list; its address is its number times 2^32, wrapping in 64 bits |
| `Memories.Memory.Read` | compiler/paco-comptime/src/machine.rs:53-59 | reads exactly the bytes asked for, or reports why not |
| `Memories.Memory.WriteBytes` | compiler/paco-comptime/src/machine.rs:61-68 | after a write the same range reads back what was written; a failed write changes nothing |
| `Memories.Memory.ReadU64` | compiler/paco-comptime/src/machine.rs:70-72 | the eight bytes at the address, as a number |
| `Memories.Memory.WriteU64` | compiler/paco-comptime/src/machine.rs:74-76 | the number is read back from its bytes |
| `Memories.Memory.FreeBlock` | compiler/paco-comptime/src/machine.rs:78-91 | frees as specified; a failed free changes nothing |
| `Memories.AccessInside` | compiler/paco-comptime/src/machine.rs:39-59 | access through a base plus an offset works exactly if the block is live and the range lies inside it, and reaches no other block |
| `Memories.ReadAfterWrite` | compiler/paco-comptime/src/machine.rs:53-68 | read-after-write for every address and length |
| `Memories.WriteElsewhere` | compiler/paco-comptime/src/machine.rs:61-68 | a write leaves every other block and every byte outside its range |
| `Memories.RunAges` | compiler/paco-comptime/src/machine.rs:34-91 | over any run of operations a block keeps its kind, its size while live, and stays freed once freed |
| `Memories.FreedForGood` | compiler/paco-comptime/src/machine.rs:39-91 | whatever runs afterwards, a freed block is never read, written or freed again |
| `Memories.FixedForGood` | compiler/paco-comptime/src/machine.rs:78-91 | a fixed block is live with its size after any run |
| `Memories.FreeWorks` | compiler/paco-comptime/src/machine.rs:78-91 | a free works exactly on the base of a live block that is not fixed, and once |
| `Memories.AddressesWrap` | compiler/paco-comptime/src/machine.rs:34-56 | a base plus an offset leads back to its live block if and only if the block's number and the offset fit in 32 bits; the base after those is null |
| `IntOps.IntValueIs` | compiler/paco-comptime/src/machine.rs:122-133 | reading an operand's bytes gives the number its bit pattern stands for, for all eight widths |
| `IntOps.IntBytesIs` | compiler/paco-comptime/src/machine.rs:135-137 | cutting a number down to bytes keeps it modulo the width |
| `IntOps.ProductRange` | compiler/paco-comptime/src/machine.rs:1121-1172 | a product that wrapped in 128 bits is out of every width's range, so the overflow test on the wrapped product is exact |
| `IntOps.DebugIsExact` | compiler/paco-comptime/src/machine.rs:1121-1172 | debug add, subtract and multiply fail if and only if the true result is out of range, and otherwise the bytes decode to it |
| `IntOps.ProfilesRelate` | compiler/paco-comptime/src/machine.rs:1121-1172 | the overflow predicates say whether debug arithmetic would fail, and the wrapping operators are release arithmetic |
| `IntOps.BinaryAgrees` | compiler/paco-codegen-llvm/src/codegen.rs:1215-1343 | for every operator, profile and operand bytes, at every width and for shifts at every pair of widths, the machine and the lowered code leave the same bytes or fail with the same message |
| `IntOps.CheckedAgrees` | compiler/paco-codegen-llvm/src/codegen.rs:1256-1296 | add, subtract and multiply with overflow intrinsics agree with the machine's wide arithmetic |
| `IntOps.ShiftAgrees` | compiler/paco-codegen-llvm/src/codegen.rs:1298-1316 | shifts agree for all 64 pairs of widths: the amount, of a type of its own, is decoded and checked or masked as a wide number in the machine; in the lowered code it is compared and masked in its own type and cast to the other; the sign is filled in from the top |
| `IntOps.DivideAgrees` | compiler/paco-codegen-llvm/src/codegen.rs:1318-1343 | division and remainder agree, with zero divisors, MIN / -1 and MIN % -1 |
| `IntOps.BitwiseAgrees` | compiler/paco-codegen-llvm/src/codegen.rs:1238-1240 | and, or and exclusive or of sign-extended numbers are those of the patterns |
| `IntOps.OverflowsAgree` | compiler/paco-codegen-llvm/src/codegen.rs:1245-1296 | the overflow predicates agree |
| `IntOps.CompareAgrees` | compiler/paco-codegen-llvm/src/codegen.rs:1218-1233 | comparisons agree, signed and unsigned |
| `IntOps.NegAgrees` | compiler/paco-codegen-llvm/src/codegen.rs:1156-1180 | negation agrees, with the same failure on the smallest number in debug |
| `IntOps.NotAgrees` | compiler/paco-codegen-llvm/src/codegen.rs:1181 | bitwise not agrees |
| `IntOps.CastAgrees` | compiler/paco-codegen-llvm/src/codegen.rs:1451-1462 | casts between all pairs of integer widths leave the same bytes |
| `IntLaws.ArithmeticWraps` | compiler/paco-comptime/src/machine.rs:1121-1172 | release arithmetic, and the wrapping operators in either profile, give the true sum, difference or product wrapped to the width |
| `IntLaws.DivisionTruncates` | compiler/paco-comptime/src/machine.rs:1135-1152 | division fails exactly by zero and for the smallest number by minus one, the remainder exactly by zero; otherwise the bytes decode to q and r with left = right * q + r, r smaller than the divisor and 0 or of the sign of the dividend |
| `IntLaws.ShiftScales` | compiler/paco-comptime/src/machine.rs:1175-1185 | in debug a shift fails exactly if the amount is not below the width; otherwise, the amount taken modulo the width, a left shift multiplies by the power of two and wraps and a right shift divides and rounds down |
| `IntLaws.EachBit` | compiler/paco-comptime/src/machine.rs:1159-1161 | each bit of and, or and exclusive or, from that bit of the operands |
| `IntLaws.Compares` | compiler/paco-comptime/src/machine.rs:1153-1158 | a comparison leaves 1 if the numbers are so related and 0 if not |
| `IntLaws.Negates` | compiler/paco-comptime/src/machine.rs:1050-1057 | negation and bitwise not give the wrapped result; in debug negating the smallest number fails |
| `IntLaws.FlipsBits` | compiler/paco-comptime/src/machine.rs:1057 | bitwise not flips each bit |
| `IntLaws.CastWraps` | compiler/paco-comptime/src/machine.rs:1753-1757 | a cast keeps the number if the new width has it and wraps it otherwise |
| `IntOps.MinByMinusOne` | compiler/paco-comptime/src/machine.rs:1135-1152 | the smallest number by minus one: the quotient fails, the remainder is 0 |
| `CellProtocol.StepInv` | compiler/paco-codegen-cranelift/src/lib.rs:2118-2215 | every step of every thread keeps the invariant: counts equal handles, locks equal threads inside, every value in one place or dropped once, one pending release for a cell without handles |
| `CellProtocol.MutualExclusion` | compiler/paco-codegen-cranelift/src/lib.rs:2118-2135 | no two threads are between lock and unlock of one cell |
| `CellProtocol.LockedInUse` | compiler/paco-codegen-cranelift/src/lib.rs:2118-2135 | a locked cell has a thread inside that holds a handle on it |
| `CellProtocol.ReleasePending` | compiler/paco-codegen-cranelift/src/drop.rs:252-273 | a pending release means a live cell with no handles, not locked, with nobody inside |
| `CellProtocol.CloneStepInv` | compiler/paco-codegen-cranelift/src/drop.rs:324-334 | clone glue running under the lock reaches only cells that somebody holds, and keeps the invariant |
| `CellProtocol.DropPartInv` | compiler/paco-codegen-cranelift/src/drop.rs:252-273 | the decrement that takes the last handle away hands the value and the release to that thread |
| `CellProtocol.SetUnlockInv` | compiler/paco-codegen-cranelift/src/lib.rs:2181-2203 | the unlock of `set` leaves the old value with the thread that has to drop it |
| `CellProtocol.GetUnlockInv` | compiler/paco-codegen-cranelift/src/lib.rs:2160-2180 | the unlock of `get` leaves a value of its own with the thread |
| `CellRuns.ReachableInv` | compiler/paco-codegen-cranelift/src/lib.rs:2118-2215 | in every reachable state of any number of threads the invariant holds and at most one thread is inside each cell |
| `CellRuns.CountIsHandles` | compiler/paco-codegen-cranelift/src/drop.rs:252-273 | in every reachable state a live cell's count is the number of handles anywhere, a cell that is gone has none, and one without handles has exactly one pending release |
| `CellRuns.NeverStuck` | compiler/paco-codegen-llvm/src/glue.rs:133-153 | a thread inside an operation or drop glue can always take its next step: no step needs a released cell |
| `CellRuns.StepAllowed` | compiler/paco-codegen-cranelift/src/lib.rs:2159-2203 | a step releases a cell only at count 0, never brings one back or raises a count from 0, and changes a value only inside `set` |
| `CellRuns.ReleasedForGood` | compiler/paco-codegen-cranelift/src/drop.rs:252-273 | over any run a released cell stays released and a cell without handles gets none, so release happens at most once |
| `CellRuns.DroppedOnce` | compiler/paco-codegen-cranelift/src/lib.rs:2181-2203 | in every reachable state every value made so far is in exactly one place or was dropped exactly once |
| `CellRuns.WhoDrops` | compiler/paco-codegen-cranelift/src/lib.rs:2181-2203 | a value leaves a cell only by the `set` that stored over it or by the last handle's drop, and that thread has to drop it |
| `CellRuns.NothingLeft` | compiler/paco-codegen-cranelift/src/drop.rs:252-273 | when every thread has let go of everything and handles form no cycle, all cells are released and every value was dropped exactly once |
| `CellRuns.GetReturnsCurrent` | compiler/paco-codegen-llvm/src/codegen.rs:1820-1838 | what `get` returns says what the cell says at its unlock, is a value of its own, and comes from one not dropped |
| `CellRuns.OtherKeeps` | compiler/paco-codegen-llvm/src/codegen.rs:1768-1794 | while a thread is inside, no step of another moves it or changes the cell's value |
| `CellRuns.HolderSteps` | compiler/paco-codegen-llvm/src/codegen.rs:1768-1856 | a thread inside needs no other thread; each of its steps brings it one nearer to the unlock |
| `CellRuns.HolderUnlocks` | compiler/paco-codegen-llvm/src/codegen.rs:1768-1856 | however other threads are scheduled, the cell is unlocked once the thread inside has had the steps it has left |
| `CellValues.StepOccurs` | compiler/paco-codegen-cranelift/src/lib.rs:2118-2203 | what is somewhere after a step was somewhere before it, the very same value, or the step made it: as asked, or as what the cell says that `get` clones |
| `CellValues.SaidForGood` | compiler/paco-codegen-cranelift/src/lib.rs:2118-2203 | over any run an identity keeps what it says and the handles it holds, wherever it goes |
| `CellValues.NewHolds` | compiler/paco-codegen-cranelift/src/lib.rs:2145-2158 | a new cell holds the value it was made from, with one handle, which is its maker's |
| `CellValues.SetStores` | compiler/paco-codegen-cranelift/src/lib.rs:2181-2203 | however other threads are scheduled, when a thread is done setting a cell the cell is unlocked and holds exactly the value it was set to |
| `CellRuns.SpinnerWaitsForWorker` | compiler/paco-codegen-llvm/src/codegen.rs:1768-1787 | a spinning thread waits for a thread that is not itself waiting, and gets in at once if the cell is unlocked |
| `MoveSoundness.Evolved` | compiler/paco-borrow/src/lib.rs:1485-1515 | through any expression move counts only grow, a local that becomes moved has its count raised and is one of those taken, and one no longer moved was assigned |
| `MoveSoundness.EvolvedMerge` | compiler/paco-borrow/src/lib.rs:2467-2545 | the same across a merge of branches |
| `MoveSoundness.SoundMerge` | compiler/paco-borrow/src/lib.rs:2467-2545 | of branches that agree, the one that ran is what the merge says |
| `MoveSoundness.Back` | compiler/paco-borrow/src/lib.rs:1777-1804 | a loop body without a diagnostic leaves the run covered by the state before it |
| `MoveSoundness.Sound` | compiler/paco-borrow/src/lib.rs:1399-1515 | by induction over expressions and runs: what the analysis of an accepted expression says holds after every run of it, for any number of iterations |
| `MoveSoundness.MovesAreSound` | compiler/paco-borrow/src/lib.rs:1399-1515 | no run of an accepted body reads or moves a non-Copy local that was moved and not assigned since |
| `MoveSoundness.DropPlanIsExact` | compiler/paco-borrow/src/lib.rs:1735-1775 | on every path of an accepted regular body the drops noted at each scope exit taken are exactly the owned locals that were not moved, innermost scope first, in reverse declaration order |
| `MoveExactness.FitsRegular` | compiler/paco-borrow/src/lib.rs:1777-1804 | regular bodies can be told by their text: conditions and guards move nothing from outside, and for the drop plan loops assign nothing non-Copy from outside |
| `MoveExactness.FittingBodies` | compiler/paco-borrow/src/lib.rs:1399-1515 | both results for bodies told by their text |
| `WhileConditions.Replay` | compiler/paco-borrow/src/lib.rs:1508-1515 | with more locals gone the same run either meets one of them or does what it did without touching them |
| `WhileConditions.Passable` | compiler/paco-borrow/src/lib.rs:1485-1515 | where the analysis says code can be passed some run passes it, and the analysis says exactly what that run leaves |
| `WhileConditions.MeetsIt` | compiler/paco-borrow/src/lib.rs:1508-1515 | if a loop condition moves a local that the body does not give back, some run evaluates the condition again and meets it gone |
| `WhileConditions.WhileIsExact` | compiler/paco-borrow/src/lib.rs:1508-1515 | for an accepted `while` loop with parts regular for moves whose ends no inner `loop` keeps from being reached, and whose condition assigns no outer local: no run uses a moved local if and only if what is moved at the end of the body was moved before the condition; the checker compares with the state after the condition |
| `WhileConditions.GivesBack` | compiler/paco-borrow/src/lib.rs:1777-1804 | if a loop body gives back a local moved before the loop, some run leaves the loop with it live although the checker has it moved |
| `WhileConditions.WhileKeeps` | compiler/paco-borrow/src/lib.rs:1777-1804 | for an accepted `while` loop with regular parts whose ends no inner `loop` keeps from being reached, whose condition assigns no outer local and moves nothing that the body does not give back: every run that passes it leaves exactly what the checker has marked if and only if the body gives back nothing that was moved before |
| `WhileConditions.LoopKeeps` | compiler/paco-borrow/src/lib.rs:1777-1804 | for an accepted `loop` with a regular body whose end no inner `loop` keeps from being reached: every round starts with exactly what the checker has marked if and only if the body gives back nothing that was moved before |
| `MoveLimits.ConditionAssigns` | compiler/paco-borrow/src/lib.rs:1508-1515 | a condition that itself gives back a local moved before: the body's end has more live than before the loop and still every run is as the checker says, so the condition on conditions is needed |
| `PathSoundness.Holds` | compiler/paco-borrow/src/lib.rs:1399-1515 | every run of every expression stays on the paths that are followed, and where nothing is found on them no run has a fault |
| `PathSoundness.HeadHolds` | compiler/paco-borrow/src/lib.rs:1777-1804 | the paths at the head of a loop are those of any number of rounds |
| `PathExactness.Attained` | compiler/paco-borrow/src/lib.rs:1399-1515 | whatever is found on the paths, a fault or a way through with a local live or gone, some run meets it |
| `PathExactness.FromHead` | compiler/paco-borrow/src/lib.rs:1777-1804 | what can be met from the head of a loop after any number of rounds can be met from before it |
| `MoveGaps.PathsAreExact` | compiler/paco-borrow/src/lib.rs:1399-1515 | for every expression, accepted or not: some run uses a moved local or leaves a scope with the wrong drops if and only if following all paths finds it, and otherwise what runs leave behind is exactly what the paths say |
| `MoveGaps.MovesExactly` | compiler/paco-borrow/src/lib.rs:1399-1515 | the exact condition for moves, for every body: no run uses a moved local if and only if following all paths finds no use of one that may be gone |
| `MoveGaps.DropsExactly` | compiler/paco-borrow/src/lib.rs:1735-1775 | the exact condition for the drop plan, for every body: no run uses a moved local or meets a wrong drop list if and only if on all paths to each exit the list has what is live there and nothing is live on one path and gone on another |
| `MoveGaps.NothingFound` | compiler/paco-borrow/src/lib.rs:1399-1515 | in accepted code that is regular for moves nothing is found on any path, and whatever may be gone is marked as moved |
| `MoveGaps.Distribute` | compiler/paco-borrow/src/lib.rs:2467-2545 | following two groups of paths together finds what following each finds |
| `MoveGaps.GuardsAreExact` | compiler/paco-borrow/src/lib.rs:2145-2186 | for an accepted match with regular parts, whatever its guards move: no run uses a moved local if and only if for each arm nothing is found in the arms behind it when they are followed from where its failed guard leaves things; the checker starts them before the first guard |
| `MoveGaps.BlockEndIsExact` | compiler/paco-borrow/src/lib.rs:1399-1483 | for an accepted block, regular for moves and with right drop lists inside: no run leaves it with the wrong drops if and only if no local marked as moved at its end is live there on some path, that is every local given back by a loop or guard was assigned or moved again |
| `MoveLimits.DueContents` | compiler/paco-borrow/src/lib.rs:1735-1744 | a drop list has the live locals and nothing else |
| `MoveLimits.DueOnce` | compiler/paco-borrow/src/lib.rs:1735-1744 | with one declaration per local every live local is listed exactly once |
| `MoveLimits.DueReversed` | compiler/paco-borrow/src/lib.rs:1735-1744 | what is listed later was declared earlier |
| `MoveLimits.CheckFunction` | compiler/paco-borrow/src/lib.rs:809-828 | checking a function: if nothing is reported and the body is regular no run uses a moved local, and the plan is exact |
| `MoveLimits.WhileConditionMoves` | compiler/paco-borrow/src/lib.rs:1508-1515 | a `while` condition that moves a local is accepted although its second evaluation uses a moved local |
| `MoveLimits.GuardMoves` | compiler/paco-borrow/src/lib.rs:2145-2186 | a match guard that moves a local and fails is accepted although the next arm uses a moved local |
| `MoveLimits.DisagreementIsNoUse` | compiler/paco-borrow/src/lib.rs:2467-2545 | what the checker reports of later arms, started from a failed guard, is not the exact condition: it may report branches that disagree although no run uses a moved local |
| `MoveLimits.LoopAssignsOuter` | compiler/paco-borrow/src/lib.rs:1777-1804 | a local moved before a loop that assigns it is not dropped after the loop |
| `MoveReports.Real` | compiler/paco-borrow/src/lib.rs:2429-2465 | the other direction: where branches agree, loops leave nothing outer moved and every part looked at can be got to, whatever is reported is the use of a moved local in some run |
| `MoveReports.AcceptedExactly` | compiler/paco-borrow/src/lib.rs:1399-1515 | a body that is quiet in that sense and regular is accepted if and only if no run of it uses a moved local |
| `MoveReports.NothingReported` | compiler/paco-borrow/src/lib.rs:1399-1515 | code that takes no non-Copy local is accepted where nothing is moved, however it branches and loops |
| `MoveReports.PlainAccepted` | compiler/paco-borrow/src/lib.rs:809-828 | a body that takes no non-Copy local is accepted |
| `OwnershipChecker.MaxMoveCount` | compiler/paco-borrow/src/lib.rs:2478-2498 | the largest move count of the branches |
| `OwnershipChecker.CountMoved` | compiler/paco-borrow/src/lib.rs:2509-2518 | how many of the reachable branches have moved a local: all of them, none, or some |
| `OwnershipChecker.MergeCounts` | compiler/paco-borrow/src/lib.rs:2478-2498 | one scope's counts raised to the largest |
| `OwnershipChecker.MergeMoves` | compiler/paco-borrow/src/lib.rs:2507-2544 | one scope's move marks merged, with a diagnostic exactly where branches disagree |
| `OwnershipChecker.DroppableFromScope` | compiler/paco-borrow/src/lib.rs:1735-1744 | the live non-Copy locals of a scope in reverse declaration order |
| `OwnershipChecker.DroppableUpTo` | compiler/paco-borrow/src/lib.rs:1746-1760 | the same for all scopes, innermost first |
| `OwnershipChecker.CheckLoopEnd` | compiler/paco-borrow/src/lib.rs:1789-1803 | a diagnostic exactly where something bound before the loop is moved in it and left moved |
| `OwnershipChecker.OwnershipState.MergeManyBranchStates` | compiler/paco-borrow/src/lib.rs:2467-2545 | the state after branches, in place, with a diagnostic exactly if reachable branches disagree |
| `OwnershipChecker.OwnershipState.MentionLocal` | compiler/paco-borrow/src/lib.rs:2429-2465 | a mention of a local: reported if it is moved, and moved if it is taken and not Copy |
| `OwnershipChecker.OwnershipState.VisitExpr` | compiler/paco-borrow/src/lib.rs:1485-1733 | the checker walking an expression computes the analysis, its state, its drops and whether anything is reported |
| `OwnershipChecker.OwnershipState.VisitBlock` | compiler/paco-borrow/src/lib.rs:1399-1483 | blocks: statements are skipped once unreachable, drops are noted where the end is reachable |
| `OwnershipChecker.OwnershipState.VisitIf` | compiler/paco-borrow/src/lib.rs:1491-1506 | branches start from the same state and are merged |
| `OwnershipChecker.OwnershipState.VisitMatch` | compiler/paco-borrow/src/lib.rs:2145-2186 | arms start from the state after the scrutinee and are merged |
| `OwnershipChecker.OwnershipState.VisitLoopBody` | compiler/paco-borrow/src/lib.rs:1777-1804 | the body is walked on a copy; the state stays as it was |
| `Discovery.Discover` | compiler/paco-driver/src/lib.rs:996-1015 | on any finite graph discovery ends; it succeeds exactly when nothing reached is missing, broken, unresolvable or on a cycle, and then lists exactly the files reached, each once and after all it uses; a reported problem is really there |
| `Discovery.Walk.DiscoverOne` | compiler/paco-driver/src/lib.rs:1017-1074 | one declaration adds only files it leads to, behind those already listed, and restores the stack |
| `Discovery.Walk.DiscoverFile` | compiler/paco-driver/src/lib.rs:1061-1073 | a file is listed behind everything it uses |
| `Discovery.ListedClean` | compiler/paco-driver/src/lib.rs:996-1074 | nothing reached from a listed file is on a cycle or missing from the list |
| `Fetching.StepInv` | compiler/paco-driver/src/pkg_cache.rs:89-138 | every step of every process, failure, death or upstream move keeps the invariant |
| `Fetching.AbsentOrComplete` | compiler/paco-driver/src/pkg_cache.rs:89-138 | the cached copy is absent or complete, whoever dies where |
| `Fetching.TargetNeverChanges` | compiler/paco-driver/src/pkg_cache.rs:124-137 | once present the cached copy never changes and never goes away |
| `Fetching.FetchesAgree` | compiler/paco-driver/src/pkg_cache.rs:98-104 | every successful fetch without a lock returns the commit of the cached copy, so all of them agree, for ever |
| `Fetching.LockedFetch` | compiler/paco-driver/src/pkg_cache.rs:98-104 | a successful fetch with a lock returns the locked commit and finds the copy present |
| `Fetching.WinnerInstalls` | compiler/paco-driver/src/pkg_cache.rs:111-125 | the process that renames its clone into place puts there what it returns, pinned to its lock |
| `Fetching.ExactWinner` | compiler/paco-driver/src/pkg_cache.rs:111-125 | whatever others ask for, a process that asked for an exact revision and renames its clone into place installs and returns that revision, or the locked commit |
| `Fetching.ExactRevision` | compiler/paco-driver/src/pkg_cache.rs:89-138 | if every process asks for one revision and no lock names another, the cached copy is a complete checkout of it and every successful fetch returns it |
| `Fetching.RefWinner` | compiler/paco-driver/src/pkg_cache.rs:111-125 | a winner without a lock that asked for a tag or branch installs and returns a commit the ref named between its start and its end |
| `Fetching.UseIsPinned` | compiler/paco-driver/src/lib.rs:1195-1213 | a `use` resolves only to a complete checkout of the locked commit, and then in every later state |
| `Fetching.GetThenUse` | compiler/paco-driver/src/lib.rs:2173-2192 | locking what an unlocked fetch returned makes the dependency usable from then on |
| `Fetching.MismatchStays` | compiler/paco-driver/src/lib.rs:1206-1211 | a lock that disagrees with the cached copy never resolves again: fetching again, as the error suggests, changes nothing |
| `Fetching.MismatchHappens` | compiler/paco-driver/src/pkg_cache.rs:98-104 | such a state is reachable, for every pair of different commits |
| `Pruning.Cache.Prune` | compiler/paco-driver/src/cache.rs:336-375 | the manifests removed are the shortest oldest-first prefix after which those left meet both limits, or all; a binary goes exactly with the last manifest that refers to it; orphans go first |
| `Pruning.Cache.RemoveManifest` | compiler/paco-driver/src/cache.rs:364-373 | the running total is always the size of the files left, so it never saturates, and reference counts are those of the manifests left |
| `Pruning.Cache.ListManifests` | compiler/paco-driver/src/cache.rs:340-346 | all manifests that parse, each once, oldest first |
| `Pruning.Cache.SweepOrphans` | compiler/paco-driver/src/cache.rs:351-358 | exactly the old binaries and line tables nobody refers to go |
| `Pruning.NextDecides` | compiler/paco-driver/src/cache.rs:360-363 | the test on the next manifest decides whether all that are left meet the limits |
| `Pruning.LeftNext` | compiler/paco-driver/src/cache.rs:364-373 | what one more manifest takes with it |
| `Pruning.NothingDangles` | compiler/paco-driver/src/cache.rs:364-373 | a manifest that is left keeps its binary, and a binary whose manifests went is gone |
| `ManifestText.Parse` | compiler/paco-driver/src/cache.rs:153-172 | reads a manifest line by line |
| `ManifestText.RoundTrip` | compiler/paco-driver/src/cache.rs:142-173 | printing and reading back gives the same manifest if and only if no name in it has a line feed or ends with a carriage return |
| `ManifestText.ReadBack` | compiler/paco-driver/src/cache.rs:142-173 | without line feeds a manifest reads back as itself, except that names lose a carriage return at their end |
| `ManifestText.Refused` | compiler/paco-driver/src/cache.rs:153-172 | a text is refused if and only if its first line is not the version, its second has no output, or some further line has an unknown first word, an input without a 128-bit hash and a path, or a stream that is not hexadecimal |
| `ManifestText.LineAdds` | compiler/paco-driver/src/cache.rs:158-170 | what each kind of line adds: a file or a directory behind the inputs so far, or one of the two streams |
| `ManifestText.HighFirst` | compiler/paco-driver/src/cache.rs:99-105 | numbers and bytes are read with their high digits first |
| `ManifestText.CodecRoundTrip` | compiler/paco-driver/src/cache.rs:99-105 | any bytes survive the hexadecimal codec |
| `ManifestText.HashRoundTrip` | compiler/paco-driver/src/cache.rs:60-62 | any 128-bit hash survives as 32 digits |
| `ComptimeSlice.Reach` | compiler/paco-driver/src/lowering.rs:610-621 | the loop ends with the smallest set that has the roots and every name mentioned by a function whose name is in it |
| `ComptimeSlice.Slice` | compiler/paco-driver/src/lowering.rs:579-649 | the slice is what is left when functions whose names are not in the closure are taken out: each of the others once, in the order they stand; so every function a root or a kept function names is kept |

## Left out

The evaluator:

- User-defined `drop`, closure environments and indirect calls, raw pointers, `Load`, `Store`, `FreeBox`, runtime handles and moves out of the `?` temporary: their discipline depends on lowering that is not part of this model.
- Floats, characters, booleans, quoting, reflection and string helpers of the evaluator: they own nothing new or call code that is not part of this model. Integer operators are modelled on their own, not as rvalues of the machine.
- Type layouts and byte offsets: values carry their own shape, so a bitwise copy is a copy of the value, and a slice's length is the length of its block. The drop flag of a local is kept with its storage instead of in a list beside it.
- Places.ResolveSettled: references resolve into locals' storage only. One into an element of a slice stops the model with `Promise`, because such an element can be freed or moved away while the reference lives, which borrow checks that are not part of this model rule out.
- Evaluator.Machine.Locate: the same restriction.
- Evaluator.Machine.LocateThrough: the same restriction.
- Evaluator.Machine.ArgValues: constants passed by reference and arguments beyond the parameters stop the model with `Promise`, as do string arguments of the entry point.
- Evaluator.Machine.EvalRvalue: has use, reference, aggregate, length, discriminant and concatenation, the rvalues that deal with ownership.
- Evaluator.Machine.RunStatement: has no `Load`, `Store` and `FreeBox`, which go through raw pointers.
- Evaluator.Machine.RunTerminator: has no indirect calls, and compares the targets of a switch as numbers, not as masked bytes.
- Evaluator.Machine.Invoke: what a call that fails has done to blocks it was not given is not stated; the evaluation is over then.
- Scratch blocks of a frame: they are freed with the frame and own nothing.
- The 64-bit width of cell counts.
- Evaluator.Machine.Evaluate: starts from argument values and ends with the result's value; how `run` encodes the one and decodes the other is not modelled. Freedom from leaks is stated for programs in which a call without a destination has a result that owns nothing. The evaluator throws such a result away without dropping it (compiler/paco-comptime/src/machine.rs:1260-1264); `Deliver` states that exactly its owners are lost and `DiscardIsClean` that this is harmless if and only if there are none. Leaks kept alive by a cycle of cells are possible, as with any reference counting.

Integers:

- Operators on floats, and ordering on booleans, which the evaluator rejects and both backends accept.

Shared cells:

- The order of the words of one value while it is copied under the lock, weak memory orderings, and reads of the count by `strong_count`, which change nothing. A `get` without a destination only locks and unlocks.
- CellRuns.NothingLeft: does not cover handles that form a cycle, because reference counting never releases them.

The move analysis:

- `break`, `continue`, `select`, closures, `spawn`, `?`, field moves, borrow conflicts, lifetimes and escape checks.
- MoveSoundness.MovesAreSound: is stated for regular bodies, in which the body of a `while` loop gives back what its condition moved and guards of match arms move nothing from outside. The checker also accepts others, and then it can be wrong (`WhileConditionMoves`, `GuardMoves`). Exactly when it is right is `MovesExactly`, for every body; `WhileIsExact` and `GuardsAreExact` say it for loops and guards.
- MoveSoundness.DropPlanIsExact: says nothing about the end of match arms and of the parameter scope, for which the plan has no entry, and asks that loops and guards give nothing back that was moved before them; `LoopAssignsOuter` shows that it fails without. Exactly when the plan is right is `DropsExactly`, for every body; `WhileKeeps`, `LoopKeeps` and `BlockEndIsExact` say it for loops and block ends.
- MoveReports.Real: is about reports of uses. Branches that disagree and loops that leave something outer moved are reported by rule, also where no run uses it (`DisagreementIsNoUse`), and so are uses in parts of an expression that nothing gets to.
- WhileConditions.WhileIsExact: is stated where the condition assigns no outer local and no `loop` keeps the end of a part from being reached; `MovesExactly` has neither restriction.
- WhileConditions.WhileKeeps: has the same two restrictions and takes the body to give back what the condition moved, without which some run uses a moved local (`WhileIsExact`) and runs that would show a difference may never pass; `DropsExactly` has none of them.
- WhileConditions.LoopKeeps: is stated where no inner `loop` keeps the end of the body from being reached; `DropsExactly` has no such restriction.
- MoveGaps.DropsExactly: takes every declaration to have an identity of its own, which the resolver gives it.

The driver:

- Git, the network, file-system errors other than a failing step, parsing of sources, manifests and lock files, path spelling (two paths that share a cache directory), the prelude's own directory walk, the command line.
- Pruning.Cache.Prune: takes removals to succeed and nobody to write meanwhile. Names of binaries and of their `.dwarf` line tables are told apart by type: an output's name is 32 hexadecimal digits, the only ones `publish` writes, so none ends in `.dwarf`.
- ManifestText.RoundTrip: paths are text; paths that are not valid UTF-8 are not covered, nor is the check that decoded output is UTF-8, which printed output always passes.
- A cache hit being equal to a fresh build, which depends on inputs that are not recorded.
