# A verified model of tiny-wasm-runtime

The repository is a WebAssembly 2.0 interpreter in C: a binary decoder, a type-checking
validator and a stack machine. This project states what these three parts do in Dafny, in the
order of the C code, and proves what makes them fit together: the machine pops without
checking, so its safety rests on the validator, and the validator's on the shape of decoded
code.

The end of the chain is `Validity.ValidModuleIsSafe`: a module whose bodies were decoded from
bytes, that is valid by the standard's type system and accepted by the validator, linked with
instances of the types it imports, instantiates without going wrong, and from then on no call of
any of its functions ever gets stuck: it returns results of the declared types, traps, runs on,
or comes to a place that the C language leaves open. "Stuck" is every unchecked operation on the
machine's stack and instances: popping an entry of the wrong kind, a branch to a missing label, a
missing local, function, table, memory, global or segment.

What instantiation itself leaves behind is said by `StartOutcome.StartUpExactly`: every part of the
module at its index, as declared, every active segment at the value of its offset, later ones over
earlier ones, and then the start function, or else the trap of the first segment that does not fit.

The places left open that the model follows are accesses over the end of a 4096-byte page, signed
overflow and null pointers in the loops of the bulk instructions, freeing a whole table, and
frames whose number of slots wraps around. `StateLaws.UndefinedExactly` says for each plain
instruction exactly when one of its loop's rounds comes to such a place, and
`StateLaws.NoHazardNoUB` that a call which never meets these conditions never does. Numeric
operators (signed overflow of i32.add, shifts) and the alignment of accesses are outside.

## How the model is laid out

Each piece exists as functions over values, about which the theorems speak, and, where the C
code works in place, as classes and methods that are proved to compute those functions.

| files | what they hold |
|---|---|
| `Syntax`, `Runtime` | instructions as linked lists, values, stores, one non-control instruction |
| `Typing`, `Validator`, `TypeSystem` | the validator as functions; as a class with a type stack; the standard's type system as a relation, and exactly where the validator decides it |
| `Deviations`, `Counterexamples` | where the validator lets through too much or too little, and accepted modules that go wrong there |
| `Machine`, `LinkedList`, `StackClass`, `Interpreter`, `Host` | the flat machine as functions; rings, the shared stack and the interpreter as classes |
| `Semantics`, `StackLemmas`, `Simulation`, `Runs` | structured big-step semantics, the simulation, and what runs keep under a condition on their instructions |
| `Invariants`, `Soundness`, `Theorems`, `Preservation` | soundness of validation, call contract, and the typed invariant of every reachable state |
| `Leb128`, `Encoding`, `Decoding`, `Printer`, `Reader`, `Locals`, `CodePrinter` | number readers, instruction decoder, printer, the cursor class, local declarations and code entries |
| `StateLaws`, `Bulk`, `MemoryLaws`, `Reentry`, `PageTable`, `Tables` | what later instructions see, bulk operations, growing, re-entry of the machine, three-level page table, tables on growable vectors |
| `AccessLaws`, `PlainLaws`, `ControlLaws` | what loads, stores, other plain and control instructions do, opcode by opcode or by each other, without the machine's own tables |
| `Truncation` | float-to-integer bounds |
| `Vectors`, `Instances`, `ModuleValidator`, `ModuleLaws`, `InstanceProofs`, `StartupProofs`, `Contents`, `Segments`, `StartOutcome`, `Pipeline`, `Validity` | vectors, module validation and its rules, instantiation, what stands in the store afterwards and how start-up ends, the whole chain, and modules valid by the standard |

A run is bounded by `fuel`, since WebAssembly code may diverge; statements hold for every fuel,
and machine and structured semantics count it alike. Values carry a type tag that no
instruction looks at; it exists for the theorems. `strict` in a lemma chooses between claims
about types (`true`) and claims about stack heights only (`false`), which need fewer premises.

## What turned out not to hold

These are facts of the code, kept as they are, each with its exact condition:

- An `if` finds its own declared parameters exactly when they read the same in both directions,
  and accepts the reverse order otherwise (`Deviations.IfAcceptsItsParameters`,
  `Deviations.IfAcceptsReversed`). An accepted module that swaps its results:
  `Counterexamples.ReversedIf`.
- `br_table` compares only its first label with the stack (`Deviations.BrTableAccepts`). An
  accepted module that returns an i32 for an i64: `Counterexamples.MixedTable`.
- The machine cannot expand a funcref block type (`Deviations.BlockTypesAgree`). An accepted
  module that gets stuck: `Counterexamples.FuncrefBlock`.
- A type index whose low byte is the code of a block type is read as that block type, by validator
  and machine alike: a block type means what the standard says exactly when it is no such index,
  or the type it names is the one of that code (`Deviations.BlockTypeMeaning`). Type index 64 is
  read as the empty block type (`Deviations.BlockTypeMisread`).
- `ref.is_null` accepts numbers (`TypeSystem.NullDecided`, `Counterexamples.NullOnNumber`).
- An accepted list is well typed exactly when it meets no such `if`, no such `br_table`, no
  ref.is_null on a number and no misplaced type byte along its check (`TypeSystem.BodyDecided`).
- Function labels are never taken away again, so a function is judged wrongly after another one
  exactly when a label index leaves it (`Deviations.LeftoverLabels`). An accepted module of two
  functions, of which the second gets stuck: `Counterexamples.LeftoverLabel`.
- Reference locals start as reference 0, not null (`Deviations.ZeroIsDefault`).
- The slots of a frame are counted in 32 bits: a frame can be made exactly when arguments and
  locals are fewer than 2^32 (`Soundness.SlotsExact`, `Locals.LocalIndexAgrees`).
- A load or store inside the memory that reaches over the end of a 4096-byte page is undefined
  (`StateLaws.UndefinedExactly`).
- `table.grow` by a negative count shrinks the table and pushes the old size. Where C settles it,
  the instruction does what the standard allows exactly when it does not shrink the table and no
  declared maximum of 0 has to stop it (`MemoryLaws.TableGrowIsStandard`,
  `MemoryLaws.TableShrinks`).
- `table.fill` follows a null pointer instead of trapping when one negative operand brings the
  sum back into the table (`StateLaws.TableFillLaw`).
- The loops of memory.copy, memory.fill and memory.init overflow a signed variable exactly when a
  range runs up to or over the middle of the address space, or the count is 2^31 or more
  (`Bulk.CopyOverflowsIff`, `Bulk.FillOverflowsIff`, `Bulk.InitOverflowsIff`).
- Active data segments are kept after instantiation (`StartupProofs.DatasKept`), where the
  standard drops them.
- A decoded body is one the machine theorems cover exactly when it has no stray ELSE
  (`Decoding.DecodedBodyWellFormed`). An accepted module with one that gets stuck:
  `Counterexamples.StrayElse`.
- `memory.copy` chooses its direction by a signed comparison. Every copy that overflows nowhere is
  a move (`Bulk.DefinedCopyMoves`); with signed variables that wrap around, it is one exactly when
  the comparison does not mislead it (`Bulk.CopyIsMove`).
- `memory.grow` is the standard's exactly when its operand does not shrink the memory and no
  declared maximum of 0 has to stop it (`MemoryLaws.GrowIsStandard`, `MemoryLaws.ShrinkReveals`).
- Concatenating vectors swaps length and capacity, which is harmless exactly when both sources
  are full (`Vectors.Vec.Concat`).
- The decoder refuses 2^32 - 1 locals, which the standard allows (`Locals.RunsBounded`).

## Model

| member | source | states |
|---|---|---|
| Validity.ValidModuleIsSafe | src/exec.c:1834-2203 | decoded modules that are valid by the standard's type system, accepted and linked instantiate without going wrong; every later call, for any fuel, returns typed results, traps, runs on or comes to a place C leaves open, through typed states only |
| Validity.ValidIsAdmissible | src/validate.c:1187-1303 | what the standard's type system allows and the validator accepts meets every premise of the run-time theorems, the one on leftover labels included |
| Validity.RegularPremise | src/validate.c:901-924 | a list that is regular along its check, without funcref blocks, meets the premises of soundness and preservation |
| Pipeline.DecodedModuleIsSafe | src/exec.c:1834-2203 | the same for modules that meet those premises, with types or with stack heights only |
| Pipeline.AdmissibleModule | src/validate.c:1187-1303 | what decoding and validation give covers every premise of the run-time theorems except those on types and stray ELSE |
| Pipeline.ConstantWellFormed | src/validate.c:999-1020 | a decoded constant expression has exactly one terminator, END, in last position |
| Pipeline.AdmissibleModes | src/validate.c:1101-1174 | the same for the offsets of active segments |
| Pipeline.AllocatedMemories | src/exec.c:1900-1910 | new memories start within their limits, with nothing written past their ends |
| Pipeline.InstantiatedMemories | src/exec.c:1968-2162 | active segments and the start function keep every memory within its limits |
| Theorems.CallContract | src/exec.c:1834-1873 | a call of an accepted function turns base ++ args into base ++ results, results typed and in order, every entry of base unchanged, for every fuel; a trap leaves an acceptable store; it never gets stuck |
| Theorems.CallIsStructured | src/exec.c:409-562 | the flat machine and the structured semantics give the same results, store, trap and remaining fuel |
| Theorems.RunsStaySafe | src/exec.c:2166-2203 | over every run of host calls, through refusals and traps, none gets stuck and the store stays one from which the next call is safe |
| Theorems.ImmutableGlobals | src/validate.c:324-330 | a global of an immutable type keeps its value over every run of host calls, through returns and traps |
| Preservation.StepKeepsTypes | src/exec.c:409-1824 | progress and preservation: in a typed state no instruction is stuck, and each leads to a typed state, to the end of the activation with typed results, or to a call with typed arguments |
| Preservation.EveryStateTyped | src/exec.c:334-1873 | at every instruction reached in a call and in all it calls, the values above each label have the types of the validator's type stack at that point |
| Preservation.LeaveLevel | src/exec.c:482-495 | ending a list puts its results on the values waiting below, and the list outside goes on with the types its check has there |
| Preservation.BrArrives | src/exec.c:519-550 | a branch resumes a loop with its parameters, or the list outside a block with its results, as typed there |
| Simulation.Sim | src/exec.c:409-562 | an instruction list run on a stack with labels and frames agrees with its nested evaluation: end, branch, return, trap, out of fuel |
| Simulation.SimCall | src/exec.c:1834-1873 | an activation ends as the structured call does, whether by END, by return inside blocks or by a branch to the outermost label |
| Simulation.BrUnwinds | src/exec.c:519-550 | br k leaves the stack below the k-th innermost label and the top arity values in order, and continues at that label's target |
| Simulation.SimBlock | src/exec.c:417-447 | entering and leaving block and loop; a branch to a loop runs it again with the same parameters under the same label |
| Simulation.SimCallIndirect | src/exec.c:564-597 | call_indirect resolves, compares types and calls as the structured semantics does |
| Simulation.LeaveExact | src/exec.c:1864-1869 | leaving an activation with its results directly above the frame restores the stack below |
| StackLemmas.UnwindTo | src/exec.c:165-205 | k + 1 rounds of popping values and one label end exactly below the k-th innermost label |
| StackLemmas.DropToFrameAt | src/exec.c:215-228 | popping to the frame stops at the topmost frame, keeping everything below |
| StackLemmas.SameTypesIsEquality | src/exec.c:579-594 | the element-wise comparison of call_indirect is equality of function types |
| Soundness.SoundSeq | src/validate.c:901-924 | a checked list from values of the checked types ends normally with the declared results, or in a branch or return with that label's types, or traps; it never goes wrong |
| Soundness.SoundCall | src/validate.c:947-963 | an accepted function called with typed arguments returns typed results or traps |
| Soundness.SlotsExact | src/exec.c:1842-1845 | the 32-bit count gives a frame with a slot for every argument and local exactly when there are fewer than 2^32 |
| Soundness.PerformSound | src/validate.c:269-891 | with operands of its declared types every plain instruction traps or delivers its declared results, and keeps store and locals typed |
| Soundness.SoundCallIndirect | src/validate.c:248-267 | the run-time type comparison makes indirect calls preserve types |
| Soundness.SoundBrTable | src/validate.c:191-221 | where the type stack has operands for every label, every target of br_table finds them |
| Soundness.SoundIf | src/validate.c:136-159 | both branches of an if whose parameters are there in their order start on the parameters they were checked with |
| Soundness.SoundBlock | src/validate.c:105-134 | block bodies run under their own label; the outcome of the body becomes the outcome of the block |
| Soundness.CopyRefsOk | src/exec.c:1697-1746 | table.copy keeps every funcref table filled with null or valid functions |
| TypeSystem.BodyDecided | src/validate.c:901-924 | acceptance, the standard's type system (a relation on stacks of operand types) and meeting none of the listed places: each two give the third |
| TypeSystem.FuncDecided | src/validate.c:947-963 | the same for functions |
| TypeSystem.RuleIsChecked | src/validate.c:269-891 | what the validator pops and pushes for each plain instruction is the standard's rule, written out by opcode without the validator's tables; without a rule it is refused |
| TypeSystem.NumIsSig | src/validate.c:509-740 | every numeric operator has the operand and result types of its group, test, comparison, unary, binary or conversion, and no other opcode has any |
| TypeSystem.InstrComplete | src/validate.c:93-898 | what the type system allows and the validator does not part from is accepted on every type stack that knows no more, for all instructions including unreachable code |
| TypeSystem.InstrSound | src/validate.c:93-898 | for every stack of operand types an accepted instruction may leave there is one it may start from, related by the type system |
| TypeSystem.InstrDecided | src/validate.c:93-898 | one accepted instruction is well typed on some stack the type stack stands for iff it is regular there |
| TypeSystem.SelectDecided | src/validate.c:273-283 | select without annotation is accepted iff it is well typed, unknown operands included |
| TypeSystem.NullDecided | src/validate.c:746-749 | ref.is_null is accepted iff there is an operand, and well typed iff that is no number |
| Invariants.PopAllExact | src/validate.c:9-57 | off unreachable code, a successful pop removes exactly the wanted types from the top |
| Invariants.PopForwardExact | src/validate.c:136-159 | the pops of an if remove as many types, compared in reverse |
| Deviations.BlockTypesAgree | src/exec.c:258-280 | the machine expands an accepted block type as the validator did iff it is not funcref (or by accident names that type) |
| Deviations.BlockTypeMeaning | src/validate.c:59-89 | a block type read from bytes means what the standard says iff it is no type index whose low byte is a block type code, or that index names the type of the code |
| Deviations.BlockTypeMisread | src/decode.c:199-219 | the bytes C0 00, type index 64, are read as the empty block type whatever type 64 is |
| Deviations.IfAcceptsItsParameters | src/validate.c:136-159 | an if finds its declared parameters on the stack iff they are a palindrome |
| Deviations.IfAcceptsReversed | src/validate.c:136-159 | the reverse of the declared parameters is always accepted |
| Deviations.PalindromeIsRegular | src/validate.c:136-159 | an if whose parameters are a palindrome is regular on every type stack |
| Deviations.BrTableAccepts | src/validate.c:191-221 | exactly what br_table checks: label existence and arity for all labels, types for the first only |
| Deviations.LeftoverLabels | src/validate.c:947-963 | a function is judged as in a fresh label list iff it is accepted after others and its label indices stay inside it |
| Deviations.ZeroIsDefault | src/exec.c:1843-1845 | zeroed locals are the defaults of their types iff none is a reference |
| Counterexamples.StrayElse | src/exec.c:482-507 | a module with a stray ELSE is accepted, and its function gets stuck |
| Counterexamples.FuncrefBlock | src/exec.c:258-280 | a module with a funcref block is accepted, and its function gets stuck |
| Counterexamples.MixedTable | src/validate.c:191-221 | a module whose br_table mixes label types is accepted, and a call returns a value of the wrong type |
| Counterexamples.ReversedIf | src/validate.c:136-159 | a module whose `if` gets its operands reversed is accepted, and a call returns values of the wrong types |
| Counterexamples.LeftoverLabel | src/validate.c:947-963 | a branch to the label of an earlier function is accepted in the module and refused alone, and gets stuck |
| Counterexamples.NullOnNumber | src/validate.c:746-749 | a body testing a number for null is accepted and has no typing |
| LinkedList.Insert | src/list.c:12-17 | four pointer writes, with the ring around the new element |
| LinkedList.PushBack | src/list.c:19-21 | a ring of elements becomes the ring with the element appended |
| LinkedList.PopTail | src/list.c:32-43 | a ring loses its last element, NULL iff it was empty |
| LinkedList.GetElem | src/list.c:45-55 | the idx-th element from the tail, NULL iff there are not that many |
| StackClass.Stack.constructor | src/exec.c:11-24 | an empty stack with both lists empty and idx -1 |
| StackClass.Stack.PushVal | src/exec.c:34-47 | pushes, or reports exhaustion exactly when all 1365 entries are used |
| StackClass.Stack.PushLabel | src/exec.c:98-114 | pushes a label and links it at the tail of the label list, keeping the frame list |
| StackClass.Stack.PushFrame | src/exec.c:116-132 | pushes a frame and links it at the tail of the frame list, keeping the label list |
| StackClass.Stack.PopLabel | src/exec.c:193-197 | removes the topmost label entry from stack and list |
| StackClass.Stack.TryPopLabel | src/exec.c:199-205 | pops a label iff the top entry is one, and otherwise changes nothing |
| StackClass.Stack.PopVals | src/exec.c:165-181 | pops all values above the topmost label or frame, top first |
| StackClass.Stack.PushVals | src/exec.c:87-96 | pushes values back in their old order |
| StackClass.Stack.PopWhileNotFrame | src/exec.c:215-228 | drops values and labels down to the topmost frame, with the lists in step |
| StackClass.Stack.GetLabel | src/list.c:45-55 | the list node for label index k is the k-th label entry from the top of the stack |
| StackClass.LabelAtIsNth | src/exec.c:519-530 | position of the k-th innermost label as an element of the label list |
| StackClass.ThreadedSnoc | src/exec.c:98-132 | the list that a pushed entry joins grows by that entry, the other list does not change |
| Interpreter.Interpreter.ExecInstr | src/exec.c:409-1824 | one round of the loop on the real stack is one step of the machine |
| Interpreter.Interpreter.ExecLocal | src/exec.c:619-639 | local.get, local.set and local.tee on the real stack, tee pushing its operand twice and falling through into set, are the machine's step |
| Interpreter.Interpreter.ExecParametric | src/exec.c:599-617 | drop and select on the real stack are the machine's step |
| Interpreter.Interpreter.ExecGlobal | src/exec.c:641-655 | global.get and global.set on the real stack are the machine's step |
| Interpreter.Interpreter.ExecSource | src/exec.c:892-906 | constants, ref.null, ref.func, memory.size and table.size on the real stack push what instruction, instance or store hold, and are the machine's step |
| Interpreter.Interpreter.ExecIsNull | src/exec.c:1488-1493 | ref.is_null on the real stack pushes 1 for the null reference, else 0, and is the machine's step |
| Interpreter.Interpreter.Jump | src/exec.c:519-550 | label lookup, popping, unwinding and pushing back compute the machine's branch |
| Interpreter.Interpreter.ExecExpr | src/exec.c:334-1831 | the loop over ip computes the machine's run: stack, store, trap and fuel |
| Interpreter.Interpreter.InvokeFunc | src/exec.c:1834-1873 | frame, label, body, unwinding and results compute the machine's call |
| Interpreter.Interpreter.CompareTypes | src/exec.c:579-594 | the two loops over parameter and result types decide equality of the types |
| Host.Invoke | src/exec.c:2166-2203 | a host call is refused without effect if arguments do not fit, else ends as the structured semantics says, with typed results and the stack as before |
| Host.CheckTypes | src/exec.c:2173-2179 | the argument check decides whether count and types agree |
| Validator.Operands.TryPop | src/validate.c:9-40 | the mutable type stack pops as specified, including the polymorphic case |
| Validator.Operands.PopForward | src/validate.c:136-159 | the forward loop over if parameters |
| Validator.Checker.ValidateInstrs | src/validate.c:901-924 | a list checked on a fresh type stack decides CheckBody, with the context unchanged on success |
| Validator.Checker.ValidateInstr | src/validate.c:93-898 | one instruction updates the type stack as specified |
| Validator.Checker.ValidateFunc | src/validate.c:947-963 | a function body checked with parameters and locals in place decides CheckFunc |
| Validator.Checker.ValidateTargets | src/validate.c:191-221 | the loop of br_table over its labels |
| Leb128.ReadU32Exact | src/decode.c:84-107 | read_u32_leb128 succeeds exactly on encodings of section 5.2.2, gives their value and consumes exactly them |
| Leb128.ReadI32Exact | src/decode.c:109-138 | the same for read_i32_leb128 |
| Leb128.ReadI64Exact | src/decode.c:109-154 | the same for read_i64_leb128, where a tenth byte must be 0x00 or 0x7F |
| Leb128.ReadU7Exact | src/decode.c:141-150 | the seven-bit reader takes exactly one byte without continuation bit |
| Encoding.ReadsU32 | src/decode.c:156-165 | every encoding of a u32 in at most five bytes, padded or not, reads back |
| Encoding.ReadsI32 | src/decode.c:167-176 | every encoding of an s32 in at most five bytes reads back |
| Encoding.ReadsI64 | src/decode.c:152-154 | every encoding of an s64 in at most ten bytes reads back |
| Encoding.RoundTripU32 | src/decode.c:156-165 | reading inverts writing the shortest unsigned form |
| Encoding.RoundTripI32 | src/decode.c:167-176 | reading inverts writing the shortest signed form, 32 bits |
| Encoding.RoundTripI64 | src/decode.c:152-154 | reading inverts writing the shortest signed form, 64 bits |
| Decoding.InstrShape | src/decode.c:443-483 | in every decoded instruction nested lists stop at their first terminator, in last position, and a second list is present iff the first stops at ELSE |
| Decoding.ExprShape | src/decode.c:827-844 | every decoded body ends at its first END and has that shape throughout |
| Decoding.DecodedBodyWellFormed | src/decode.c:827-844 | a decoded body is well formed for the machine theorems iff it has no stray ELSE |
| Decoding.DecodeInstr | src/decode.c:443-483 | on success the position strictly advances and stays within the bytes |
| Decoding.DecodeExpr | src/decode.c:827-844 | on success the position strictly advances and stays within the bytes |
| Printer.RoundTripInstr | src/decode.c:443-825 | decoding a printed instruction, blocks with all they contain included, gives it back and consumes exactly its bytes |
| Printer.RoundTripList | src/decode.c:457-483 | decoding a printed nested list gives it back |
| Printer.RoundTripExpr | src/decode.c:827-844 | decoding a printed body, whatever surrounds it, gives it back |
| Printer.DecoderRange | src/decode.c:443-844 | the printable bodies are exactly the bodies the decoder can produce |
| Printer.InstrIsPrintable | src/decode.c:443-825 | every decoded instruction can be printed |
| Reader.Buffer.NextByte | src/decode.c:35-42 | reads one byte, or fails at the end |
| Reader.Buffer.LebUnsigned | src/decode.c:84-107 | the loop with or and shift computes the unsigned reader |
| Reader.Buffer.LebSigned | src/decode.c:109-138 | the loop with or, 64-bit shift and sign fill computes the signed reader |
| Reader.ShiftedOr | src/decode.c:116-117 | or-ing a shifted group into lower bits, truncated to 64 bits, is addition modulo 2^64 |
| Reader.Buffer.NextBlockType | src/decode.c:199-219 | a value-type byte or a type index |
| Reader.Buffer.FlatInstr | src/decode.c:485-815 | operands of every instruction without nested lists |
| Reader.Buffer.NextInstr | src/decode.c:443-483 | the recursive instruction reader on the cursor |
| Reader.Buffer.NextList | src/decode.c:463-477 | the linking loop of a nested list |
| Reader.Buffer.NextExpr | src/decode.c:827-844 | the loop over a body, cut short by the end of the bytes |
| Locals.ExpandedAt | src/decode.c:1043-1050 | the j-th local of run k stands after the earlier runs and has that run's type |
| Locals.ExpandedLength | src/decode.c:1034-1042 | there are as many locals as the counts add up to |
| Locals.RunsBounded | src/decode.c:1034-1041 | accepted declarations have fewer than 2^32 - 1 locals |
| Locals.NextLocals | src/decode.c:1027-1050 | both loops, counting and filling, compute the expansion |
| Locals.ReadCode | src/decode.c:1019-1054 | locals and body of one code entry, ignoring what follows END |
| Locals.DecodedLocals | src/decode.c:1034-1041 | every decoded function has fewer than 2^32 - 1 locals |
| Locals.LocalIndexAgrees | src/validate.c:295-315 | for a decoded function a frame can be made iff parameters and locals are fewer than 2^32; an accepted local index then addresses a slot of it; arguments first and in order, then zeros of the declared types |
| CodePrinter.RoundTripLocals | src/decode.c:1027-1050 | written declarations, whatever surrounds them, read back as that many locals of each written type, in order, or are refused iff they are 2^32 - 1 or more |
| CodePrinter.RoundTripCode | src/decode.c:1019-1054 | a written code entry decodes to its type index, its expanded locals and its body, whatever follows |
| CodePrinter.CodeExample | src/decode.c:1027-1050 | the bytes 01 02 7E declare two i64 locals |
| Vectors.Vec.Append | src/vector.h:59-66 | appends; a full vector doubles into a new buffer, else no other slot is written |
| Vectors.Vec.Grow | src/vector.c:47-59 | more room, same elements, new buffer unless nothing was asked for; a negative count cuts the buffer, or is refused when the sum wraps around |
| Vectors.Vec.Elem | src/vector.h:50-54 | the element, or NULL iff the index is out of range |
| Vectors.Vec.Concat | src/vector.c:30-45 | the buffer holds both sources; length and capacity are swapped sums, right iff both sources are full |
| Vectors.AppendShared | src/validate.c:1253-1260 | appending to the copy never moves the shared buffer and never changes what the context sees |
| ModuleValidator.IsConstantExpr | src/validate.c:999-1020 | the loop decides whether everything before END is constant |
| ModuleValidator.ValidateGlobals | src/validate.c:1253-1260 | every initialiser is checked against the imports alone; the list of all globals ends up complete in the same buffer |
| ModuleValidator.ValidateElems | src/validate.c:1101-1150 | each segment is checked, with its mode, knowing the types of those before it |
| ModuleValidator.ValidateDatas | src/validate.c:1152-1174 | active data segments name a memory and a constant i32 offset |
| ModuleValidator.CollectFuncs | src/validate.c:1222-1231 | the loops over imports and functions fill the vector of function types, or find an unknown type index |
| ModuleValidator.ValidateFuncs | src/validate.c:1277-1280 | all functions in one context, which keeps the label of each function checked |
| ModuleValidator.ValidateModule | src/validate.c:1187-1283 | the loops over all parts decide CheckModule |
| ModuleLaws.InitExactly | src/validate.c:999-1030 | an initialiser is accepted iff it is one constant instruction of the right type, naming known functions, declared references or immutable globals, and END |
| ModuleLaws.Scopes | src/validate.c:1187-1283 | of each kind, bodies name the imports and then the module's own by index; initialisers see only imported globals |
| ModuleLaws.FuncsExactly | src/validate.c:1277-1280 | a list of functions is accepted iff each is by itself, among the result types of the earlier ones as outermost labels |
| ModuleLaws.ModuleExactly | src/validate.c:1187-1283 | a module is accepted iff limits, indices, start function, initialisers and segments obey the standard's rules, there is at most one memory, and every function is accepted |
| InstanceProofs.InitShape | src/validate.c:1022-1030 | an accepted initialiser is one constant instruction and END |
| InstanceProofs.InitRuns | src/exec.c:1920-1929 | an accepted initialiser reads only filled slots and leaves one value of the declared type |
| InstanceProofs.GlobalsRun | src/exec.c:2051-2058 | all globals are allocated, in order, at consecutive fresh addresses, with typed values |
| InstanceProofs.ElemsRun | src/exec.c:2060-2064 | all element segments are allocated, in order, at consecutive fresh addresses, with references of their type |
| InstanceProofs.FuncAccepted | src/validate.c:1277-1280 | a function accepted among the labels of earlier ones, with label indices inside it, is accepted on its own |
| InstanceProofs.AllocateMakes | src/exec.c:1979-2064 | each address vector is the imports followed by consecutive fresh addresses |
| InstanceProofs.AllocationIsSafe | src/exec.c:1968-2064 | allocation succeeds, moves nothing in the store, yields what the context declares, and a store safe for every call |
| Contents.GlobalValues | src/exec.c:2051-2058 | each new global has its declared type and mutability and the value of its constant: its number, null, the address of its function, or what the imported global holds |
| Contents.ElemValues | src/exec.c:2060-2064 | the j-th reference of each new element segment is the value of its j-th constant, for ref.func x the address of function x of the instance |
| Contents.AllocatedContents | src/exec.c:1875-1966 | after allocation every function, table, memory, global and segment of the module stands at its index behind the imports, as declared |
| StartupProofs.ElemsStart | src/exec.c:2091-2127 | starting up element segments never goes wrong: a trap, undefined behaviour, or an acceptable store; where the references go, see Segments.ElemsContents |
| StartupProofs.DatasStart | src/exec.c:2129-2150 | starting up data segments never goes wrong: a trap, an error, undefined behaviour, or an acceptable store; where the bytes go, see Segments.DatasContents |
| StartupProofs.DatasKept | src/exec.c:2129-2150 | starting up leaves all data segments as they were, active ones included |
| StartupProofs.StartRuns | src/exec.c:2152-2155 | the start function is called without arguments, and returns, traps or runs on |
| StartupProofs.StartIsSafe | src/exec.c:2091-2158 | starting up an allocated module never goes wrong and keeps what calls need |
| Segments.DataWritten | src/exec.c:2129-2150 | an active data segment that goes on has its bytes at its offset; every other byte and every other memory is as before |
| Segments.DatasContents | src/exec.c:2129-2150 | after all data segments each byte is that of the last active segment over it, at the value of its offset, else the old one |
| Segments.LastDataWins | src/exec.c:2129-2150 | the byte of the last segment that covers an address stands there in the end |
| Segments.ElemsContents | src/exec.c:2091-2127 | after all element segments each slot of each table holds the reference of the last active segment over it, else the old one; active and declarative segments are empty, passive ones as they were |
| Segments.FuncRefIsCalled | src/exec.c:1815-1819 | ref.func f put in a slot by table.set makes call_indirect on that slot invoke what `call f` invokes |
| Segments.SegmentIsCalled | src/exec.c:564-597 | the same for a slot that start-up fills from a segment whose constant there is ref.func f |
| Segments.ImmutableForever | src/exec.c:1920-1929 | an immutable global of the module has the value of its initialiser after start-up and after every run of calls |
| StartOutcome.DatasMeet | src/exec.c:2129-2150 | data segments all go on, or the first that does not fit the memory stops start-up with that trap (or is left open, over the middle of the address space) |
| StartOutcome.ElemsMeet | src/exec.c:2091-2127 | the same for element segments and their tables |
| StartOutcome.StartIsCall | src/exec.c:2152-2155 | start-up ends as the structured evaluation of the start function of the instance does |
| StartOutcome.StartUpExactly | src/exec.c:1968-2158 | for every accepted module, exactly how instantiation ends: the trap of the first segment that does not fit, or all segments in place in order, and then the start function on that store |
| StateLaws.StoreThenLoad | src/exec.c:682-863 | a load sees what a store of the same width put there, cut to that width |
| StateLaws.StoreElsewhere | src/exec.c:682-863 | a load of bytes that a store does not touch is unaffected, its trap included |
| StateLaws.LoadedNumber | src/exec.c:735-779 | signed loads keep the number, unsigned ones the bits |
| AccessLaws.LoadIs | src/exec.c:682-784 | each load, by opcode: its own number of bytes, least first, at the unsigned sum of operand and offset, sign- or zero-extended to its own type; the trap iff they pass the end |
| AccessLaws.StoreIs | src/exec.c:786-863 | each store, by opcode: exactly its own number of bytes change, to the low digits of the operand, and nothing else in the store |
| AccessLaws.LoadAfterStore | src/exec.c:682-863 | a load after a store of at least its width gives the stored number cut to the load's width and extended, for each pair of opcodes |
| StateLaws.WriteThenRead | src/exec.c:619-655 | a local or global read after a write gives the written value in the same slot, the old one in any other |
| StateLaws.TableWriteThenRead | src/exec.c:657-679 | the same for table.set and table.get |
| Tables.Table.Grow | src/exec.c:1749-1775 | for every signed count, the vector resized in place and the loop over the new slots: refused, shrunk, grown with the operand in the new slots, or left open |
| Tables.GrowIsPerformed | src/exec.c:1749-1775 | the machine's table.grow is this one on the module's table |
| MemoryLaws.TableGrowIsStandard | src/exec.c:1749-1775 | where C settles it, table.grow does what the standard allows iff it does not shrink the table and no declared maximum 0 applies |
| MemoryLaws.TableShrinks | src/exec.c:1749-1775 | a table of three slots grown by -1 has two, and 3 is pushed |
| Tables.Table.Fill | src/exec.c:1786-1808 | for all signed operands, the loop with its check in every round computes the machine's table.fill: trap, range filled, or left open |
| StateLaws.TableFillLaw | src/exec.c:1786-1808 | for all operands: table.fill traps before any write iff the sum is negative or beyond the table, fills exactly its range, or is left open |
| StateLaws.UnsignedTarget | src/exec.c:509-517 | br_table selects by the unsigned index, falling back to the default |
| PlainLaws.SelectChooses | src/exec.c:605-617 | select, annotated or not, gives the first operand iff the condition is not zero |
| PlainLaws.TeeThenRead | src/exec.c:629-639 | local.tee leaves its operand on the stack and in the local, so a local.get after it gives it again |
| PlainLaws.NullTest | src/exec.c:1484-1493 | ref.is_null tells ref.null from every other reference |
| PlainLaws.FuncIsNotNull | src/exec.c:1815-1819 | the reference of a function of the instance is the address of that function and not null |
| PlainLaws.MemorySizeBounds | src/exec.c:865-870 | memory.size is where loads start to trap, in pages of 65536 bytes |
| PlainLaws.GrowThenSize | src/exec.c:865-890 | a memory.grow that succeeds gives the old size, and memory.size after it the sum |
| PlainLaws.TableSizeBounds | src/exec.c:1778-1783 | table.size is where table.get and table.set start to trap |
| PlainLaws.DropEmptiesData | src/exec.c:1565-1570 | after data.drop the segment gives memory.init no byte; every other segment is as before |
| PlainLaws.DropEmptiesElem | src/exec.c:1689-1694 | the same for elem.drop and table.init |
| PlainLaws.OperatorApplied | src/exec.c:908-1482 | every numeric instruction but the truncations applies the operator of its opcode to the bits of its operands in their order, and gives the type of its rule |
| ControlLaws.BrIfIsBr | src/exec.c:497-507 | br_if is br if its operand is not zero, and otherwise nothing |
| ControlLaws.BrTableIsBr | src/exec.c:509-517 | br_table is br to the label its operand selects |
| ControlLaws.IfIsBlock | src/exec.c:449-476 | if is a block with its first list when its operand is not zero, with its second or an empty one when it is |
| ControlLaws.IndirectTraps | src/exec.c:564-597 | call_indirect traps on an index past the table, a null slot, and a function of another type, each by its own name |
| StateLaws.TruncPerformed | src/exec.c:1358-1397 | each trapping truncation instruction delivers the operand cut toward zero, and traps iff that is no number of the result type |
| StateLaws.TruncSatPerformed | src/exec.c:1497-1527 | each saturating one delivers the nearest number of the result type, 0 for NaN, and never traps |
| StateLaws.UndefinedExactly | src/exec.c:1530-1808 | for every plain instruction, from its operands alone, exactly when its access or some round of its loop comes to one of the modelled places that C leaves open |
| StateLaws.NoHazardNoUB | src/exec.c:1834-1873 | a call along which no such condition arises, of functions whose frames can be made, comes to no such place |
| Bulk.CopyIsMove | src/exec.c:1573-1618 | with wrapping variables, memory.copy is a simultaneous move of all byte strings iff the signed comparison does not mislead it; always below 2 GiB |
| Bulk.DefinedCopyMoves | src/exec.c:1573-1618 | every memory.copy that overflows in no round is a simultaneous move |
| Bulk.CopyOverflowsIff | src/exec.c:1597-1616 | some round of memory.copy overflows iff a range runs up to or over the middle of the address space or the count is negative as an int |
| Bulk.FillOverflowsIff | src/exec.c:1633-1644 | the same for memory.fill |
| Bulk.InitOverflowsIff | src/exec.c:1546-1560 | the same for memory.init and table.init, where a negative source index finds no entry |
| Bulk.CopyMoves | src/exec.c:1599-1616 | under any overlap the destination ends as the old source and nothing else changes |
| Bulk.DownwardSpoils | src/exec.c:1599-1616 | turning downward over an overlap duplicates a byte |
| Bulk.UpwardSpoils | src/exec.c:1599-1616 | starting upward below an overlap duplicates a byte |
| Bulk.FillIs | src/exec.c:1633-1644 | memory.fill writes its byte to the range and nothing else |
| Bulk.InitIs | src/exec.c:1546-1560 | memory.init writes the segment range and nothing else |
| Bulk.InitRefsIs | src/exec.c:1649-1686 | table.init splices the segment range into the table |
| Bulk.CopyRefsIs | src/exec.c:1697-1746 | table.copy, also within one table, is a simultaneous copy |
| MemoryLaws.MemoryCopyLaw | src/exec.c:1573-1618 | out of bounds traps before any write; an overflow is left open; otherwise only the bytes of one memory change, moved at once |
| MemoryLaws.MemoryFillLaw | src/exec.c:1621-1646 | the same for memory.fill |
| MemoryLaws.MemoryInitLaw | src/exec.c:1530-1562 | the same for memory.init |
| MemoryLaws.TableInitLaw | src/exec.c:1649-1686 | table.init traps before any write, splices, or reaches an index of 2^31 |
| MemoryLaws.TableCopyLaw | src/exec.c:1697-1746 | table.copy traps before any write, splices, or reaches an index of 2^31 |
| Runs.ExecKeepsWhere | src/exec.c:334-1831 | what the plain instructions that meet a condition keep, every run along which it is met keeps, calls included, validated or not |
| Runs.ExecDefined | src/exec.c:334-1831 | a run along which no instruction is undefined is defined, calls included |
| MemoryLaws.InvokeKeepsMems | src/exec.c:872-890 | in every call, validated or not, returning or trapping, no memory exceeds its maximum or 65536 pages and no byte lands outside the address space |
| MemoryLaws.GrowthOnly | src/exec.c:872-890 | over any call in which no memory.grow has a negative operand, also up to a trap, sizes never decrease and nothing is written past the end |
| MemoryLaws.GrowLaw | src/exec.c:872-890 | grow refuses exactly beyond the bound; else old bytes survive and new bytes read as zero |
| MemoryLaws.GrowIsStandard | src/exec.c:872-890 | memory.grow is the standard's iff it does not shrink and no declared maximum 0 applies |
| MemoryLaws.ShrinkReveals | src/exec.c:872-890 | a concrete shrink and grow after which a new byte is not zero |
| Reentry.CopyRoundsAre | src/exec.c:1590-1616 | memory.copy by re-entering the machine: no round traps, the stack below the operands is unchanged, the bytes are those of the copy loop, unless a signed variable overflows first |
| Reentry.MemoryCopyIsRounds | src/exec.c:1573-1618 | one machine step for memory.copy is its check followed by its loop over signed variables, overflow included |
| Reentry.MemoryFillIsRounds | src/exec.c:1621-1646 | the same for memory.fill |
| Reentry.MemoryInitIsRounds | src/exec.c:1530-1562 | the same for memory.init |
| Reentry.TableCopyRoundsAre | src/exec.c:1697-1746 | after the first bounds check none fails, the stack never runs out, the net effect is three pops, unless an index leaves the range of an int |
| Reentry.TableCopyIsRounds | src/exec.c:1697-1746 | one machine step for table.copy is its loop |
| Reentry.TableInitIsRounds | src/exec.c:1649-1686 | one machine step for table.init is its loop |
| PageTable.SplitInjective | src/exec.c:234-238 | table indices and offset determine a 32-bit address |
| PageTable.Memory.constructor | src/exec.c:1900-1910 | a new memory stands for zero bytes, without any page |
| PageTable.Memory.Translate | src/exec.c:234-256 | the page of an address is found or made; making one changes no visible byte and shares no part with other regions |
| PageTable.Memory.StoreRaw | src/exec.c:831-862 | a store inside one page is the little-endian store on the flat memory |
| PageTable.Memory.LoadRaw | src/exec.c:735-779 | a load inside one page is the little-endian load on the flat memory |
| PageTable.Memory.Load | src/exec.c:682-784 | bounds check, translation and sign or zero extension agree with the flat memory |
| PageTable.Memory.Store | src/exec.c:786-863 | the same for stores, with truncation to the width |
| PageTable.Memory.Grow | src/exec.c:872-890 | the size changes as in the flat memory, in unsigned 64-bit arithmetic |
| PageTable.Memory.Copy | src/exec.c:1573-1618 | the byte loop on the page table computes the copy on the flat memory, or stops where a signed variable overflows |
| PageTable.Memory.Fill | src/exec.c:1621-1646 | the same for fill |
| PageTable.Memory.Init | src/exec.c:1530-1562 | the same for init |
| PageTable.LoadIsPerformed | src/exec.c:682-784 | the machine's load is this load on the module's memory |
| PageTable.StoreIsPerformed | src/exec.c:786-863 | the machine's store is this store on the module's memory |
| Truncation.CheckedExact | src/exec.c:287-306 | each TRUNC traps exactly for NaN, infinities and truncations outside the type, else gives the truncation |
| Truncation.SaturatingExact | src/exec.c:308-330 | each TRUNC_SAT is the truncation clamped to the type, 0 for NaN |
| Truncation.TruncBitsExact | src/exec.c:1358-1397 | the same on bit patterns of operand and result |
| Truncation.TruncSatBitsExact | src/exec.c:1497-1527 | the same for the saturating operators |
| Truncation.TruncTowardZero | src/exec.c:287-296 | the truncation is the integer toward zero at distance less than one |
| Truncation.GridGap | src/exec.c:298-306 | no float of the given precision truncates strictly between the lower bound and the least integer |
| Truncation.InstancesOnGrid | src/exec.c:298-330 | the written bounds are one below the type or one float step below it |

## Left out

- Numeric operators: a parameter of the store maps operator and operand bits to a result or a trap, so shifts, divisions, floating-point arithmetic and NaN payloads are not modelled; only truncation from floats to integers is.
- Theorems.CallContract: with types it asks, along the validator's check and as far as control can get, that an `if` finds its parameters in their order too, that a `br_table` finds operands for every label, and that constants are numbers and no type byte is 0; with heights only it asks for no `call_indirect`, which trusts references to be typed. Both exclude funcref block types there. `Validity` derives all but the last from the standard's type system.
- Preservation.EveryStateTyped: has the premises with types of the line above.
- Pipeline.DecodedModuleIsSafe: carries the same premises, and asks that bodies have no stray ELSE and no label index that leaves its function.
- StartOutcome.StartUpExactly: asks that segment sizes fit the 32-bit counts of the binary format, starts on an empty stack, and asks for the premises of Pipeline.DecodedModuleIsSafe; a data segment over the middle of the address space, or an element segment up to slot 2^31, is left open.
- ModuleLaws.ModuleExactly: speaks of modules whose initialisers are lists as the decoder makes them, for value types; exports and table limits are left out.
- Validity.ValidModuleIsSafe: asks for no stray ELSE, which is no instruction of the standard, and no funcref block types.
- Pipeline.AdmissibleModule: leaves the premises on types, on stray ELSE and on label indices to the caller.
- TypeSystem.BodyDecided: asks that declared types are value types, which the decoder does not check; block types, ELSE and END in the middle of a list mean in the relation what they mean to the validator.
- Labels left behind by earlier functions lie in dead frames of the C stack; they are modelled as still holding their types and places. In practice the label of the next function often lies at the same address, and the list closes on itself, so that an outside index finds the function's own label.
- Instantiation is modelled on values: the C code fills one module instance in place, which shows here as the slots filled so far. Exports are left out.
- ModuleValidator.ValidateModule: leaves out exports and table limits; imports are grouped by kind, so which of several errors is reported first may differ; `refs`, the list of functions that may be referenced, is an input, since the C array is not initialised.
- Interpreter.Interpreter.ExecInstr: numeric operators, table and memory instructions that change or read contents pop and push on the real stack but get their effect from `Runtime.Perform`, about which `AccessLaws`, `PlainLaws`, `StateLaws` and `MemoryLaws` speak; the page table and the table vectors are proved to stand for the flat memory and the table separately, and bulk instructions are single steps there, proved equal to their loops in `Reentry`.
- Reader.Buffer.NextInstr: builds instruction lists as values; the in-place linking of freshly allocated nodes is not modelled.
- Reader.Buffer.NextBlockType: at the end of the bytes the C code looks one byte past the buffer before it fails; the upper bytes of a one-byte block type, which the C code leaves uninitialised, read as zero.
- Decoding.DecodeInstr: an unknown operation after 0xFC is an error here and a panic in the C code.
- PageTable.Memory.Load: an access that crosses a 4096-byte page is translated at its first byte only by the C code, and reaches past the end of that page's allocation; here it is an outcome of its own, without a value.
- PageTable.Memory.Store: the same for stores, which then leave the memory unsaid.
- MemoryLaws.GrowLaw: asks for a non-negative operand; see MemoryLaws.GrowIsStandard for the rest.
- Vectors.Vec.Append: asks for capacity above 0, without which the C macro writes through a null pointer; every caller reserves room first.
- StateLaws.UndefinedExactly: covers the modelled places only: numeric operators and alignment are outside. table.copy and table.init at an index of 2^31 or more, where the C code skips the element or leaves an operand behind, and new table slots beyond 2^31, which it leaves unwritten, are counted as left open and not followed.
- Tables.Table.Grow: a request for more bytes than an address space holds is taken to be refused, every other one to succeed; freeing the whole table by a count that brings it to zero is left open.
- A maximum of 0 means no maximum at run time, as in the C code; a limit that is absent is taken to be stored as 0.
- The validator's type stack is unbounded; the C array of 4096 entries is not checked there. Alignment exponents above 3 are refused; the C shift is undefined from 31 on.
- Section framing, names, custom sections, element kinds and trailing bytes of sections.
- The type tags that a host call returns, which the C code assigns in reverse order; only values are claimed.
- The state after a trap: the C code leaves stack and lists as they were at the trap.
- Failing allocation, leaks and printing.
