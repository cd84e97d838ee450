# Verified model of the tiro core

Tiro compiles a scripting language to bytecode and runs it in coroutines. This project models the parts of its
implementation where correctness depends on several functions working together, and proves what they guarantee:

* **The assembler and the decoder.** `BytecodeWriter` appends variable-length big-endian instructions, leaves holes
  for labels, opens and closes exception handler regions, and patches and merges everything in `Finish`.
  `BytecodeReader` decodes. The meaning of a writer is the log of the calls made on it (`Calls`): the program, the
  label offsets and, for every byte, the handler current when it was written are functions of that log. `Assembly`
  joins the two halves, `HandlerTable` holds the in-place merge of handler entries and the search used when an
  exception is dispatched.
* **The call-frame machine.** `Interpreter` gives every transition of a coroutine as a function on a snapshot
  (`Machine`); `Coroutines` has the coroutine object and the interpreter's methods on it, which update it step by
  step, each proved to perform its transition. `StepEffects` says what every step does to values, frames and results
  in their own terms; `StackInvariant`, `CallTheorems` and `FrameTheorems` prove the theorems about all reachable
  states and runs: no pop underflows, calls are balanced, unwinding reaches the right frame, catch frames hold.
* **Both together.** `Unwinding`: an exception in finished code continues with what was emitted after its handler's
  label.
* **The scheduler.** `Histories` records what happens in a context as a list of events; the machines, the ready
  queue, tokens and callbacks of the moment are functions of it, and `Legal` says what may follow what. `Turns` and
  `ReadyLoop` give every request of native code, every turn of a coroutine and the loop of `run_ready` as functions
  on histories, and prove the theorems about them, `Requests` those about what each request does. `Scheduler` is the
  context itself: the ready list linked through the coroutine objects, tokens, callbacks, and the interpreter's loop
  on their frames. At any time it is what its ghost history says (`Valid`), and each of its methods extends the
  history exactly as specified.
* **Smaller cores.** Bit sets over machine words (`Bitset`), the bump allocator (`Arena`), integer power
  (`IntegerMath`), logarithms and rounding to powers of two for every word width (`PowersOfTwo`), the indenting
  stream (`IndentStream`), and two generators: the numbering of class hierarchies (`HierarchyLabels`) and the
  compression of code points into ranges (`CodePointTables`).

The environment is a parameter: what bytecode and native functions do next is a `Step`, a `Turn` adds what native
code asks of the context in each native step and in the completion callback, what malloc returns is an `Option<nat>`
bound by malloc's own promise. Exceptions thrown by the original are `Result` values, its assertions are proof
obligations: they are proved where the code can establish them, are preconditions (`Enabled`, `Valid`) where they
bind the caller, and where the code does not enforce them the exact condition under which they hold is proved (see
below).

## Where the code departs from its intent

The model follows the code, and says for which inputs the code does what was meant:

* A native step can leave a coroutine `Ready` or `Waiting` and still end with a return: `std.dispatch` and
  `std.yield_coroutine` are synchronous functions, whose adapter turns "no action" into returning null
  (`src/vm/objects/native.hpp:473-487`). `StateSetByNativeIsKept` gives the exact condition under which the state
  survives, and `DispatchAsMainCompletesWhileQueued` a machine in which a queued coroutine completes. A turn whose
  last step breaks the condition leaves a coroutine in the ready list that is not ready: it ends as `Misqueued`, and
  `RunReady` stops there. `TurnIsRun` proves that this happens exactly then. `TameProgramsAreNotMisqueued` is a
  condition on the program: it never happens, over any number of turns, where no main function is native, no native
  function is launched, and native functions only return after dispatching. The first part is needed: any native
  main function that accepts its arguments can be misqueued by dispatching and returning
  (`NativeMainCanBeMisqueued`).
* The assertion that a catch frame has exactly one argument (`src/vm/interpreter.cpp:1090`) does not follow from
  entering it, which only demands at least one (`src/vm/interpreter.cpp:1207`). `CatchMayHaveTwoArguments` is a call
  that breaks it; `StepKeepsOneArgument` and `RunsKeepOneArgument` prove that a step, and a whole run, keeps it if
  and only if no catch function is called with more than one argument, those bound by methods included.
* An exception can end up in its own list of secondary exceptions. `StepAndItself` and `RunsAndItself` prove that
  this happens if and only if an exception reaches a frame that is already unwinding with it; rethrowing always does
  (`RethrowingMeetsItself`). A code frame that caught an exception is marked as unwinding for the rest of its life:
  a later panic is demoted to a secondary exception of the one caught first (`UnwindingMeaning`).
* `pow` with base -1 and an even negative exponent returns -1 (`NegativeExponents`).
* `unary_minus` rejects -1 and lets the minimum through (`UnaryMinusIsExact`). The negation of the minimum is
  undefined in C++; the model lets it wrap around.
* `flip()` and a shrinking `resize` can leave bits set beyond the size of a bit set, and `find_set` then returns an
  index that is not in the set (`FlipLeavesStray`, `ResizeLeavesStray`, `SearchIsRightExactly`, with one example
  each).

## Model

| member | source | states |
|---|---|---|
| `Binary.CheckedBinaryReader.ReadRaw` | src/common/memory/binary.hpp:36-43 | succeeds exactly when enough bytes remain; the value read is the one whose big-endian image was passed over, and a failed read moves nothing |
| `Binary.BinaryWriter.EmitRaw` | src/common/memory/binary.hpp:91-97 | appends the big-endian image of the value and touches nothing before it |
| `Binary.BinaryWriter.OverwriteRaw` | src/common/memory/binary.hpp:99-107 | replaces exactly the bytes of one field that was already written |
| `Binary.DecodesWhatWasEncoded` | src/common/memory/binary.hpp:36-43 | a value that fits its field survives writing and reading |
| `Binary.EncodesWhatWasDecoded` | src/common/memory/binary.hpp:91-97 | every byte string is the image of the value read from it |
| `Binary.EarlierBytesCountMore` | src/common/memory/binary.hpp:36-43 | fields are big-endian: what comes first counts 256 times as much for every byte behind it |
| `Binary.TwosComplement` | src/common/memory/binary.hpp:91-97 | signed numbers are written as two's complement and read back as the same number |
| `InstructionSet.TableCoversOpcodes` | support/codegen/bytecode.py:166-555 | there is one table entry for each valid opcode |
| `InstructionSet.SwitchesMatchTheTable` | src/bytecode/op.cpp:171-226 | an opcode references offsets, or modules, if and only if its table entry has such a parameter |
| `HandlerTable.SimplifyHandlers` | src/bytecode/writer.cpp:66-84 | the in-place loop with two positions leaves the merged table in front |
| `HandlerTable.FoldEntry` | src/bytecode/writer.cpp:74-81 | one entry either extends the last one kept or is moved behind it; entries not yet read stay |
| `HandlerTable.MergeKeepsShape` | src/bytecode/writer.cpp:64-84 | merging a sorted table gives a sorted one in which no entry continues its predecessor |
| `HandlerTable.MergePreservesLookup` | src/bytecode/writer.cpp:64-84 | at every pc the merged table names the same handler as the original one, or none when it had none |
| `HandlerTable.MergeIsIdempotent` | src/bytecode/writer.cpp:64-84 | merging a merged table changes nothing |
| `HandlerTable.MergedIsMinimal` | src/bytecode/writer.cpp:64-84 | no sorted table that answers every lookup alike has fewer entries |
| `HandlerTable.FindEntry` | src/vm/objects/function.cpp:50-59 | the search by halving finds the entry that covers pc, and none exactly when none does |
| `BytecodeReader.BytecodeReader.ReadField` | src/bytecode/reader.cpp:41-43 | reads the operand whose field stands at the cursor and moves past it |
| `BytecodeReader.BytecodeReader.ReadArgs` | src/bytecode/reader.cpp:49-59 | with the operand size checked up front, no operand read can fail |
| `BytecodeReader.BytecodeReader.Read` | src/bytecode/reader.cpp:23-554 | the answer and the new cursor, for every position of every byte string: the instruction, an invalid opcode, an incomplete instruction, or the end |
| `BytecodeReader.ReadAt` | src/bytecode/reader.cpp:23-554 | every read with bytes remaining advances the cursor and stays inside the code |
| `BytecodeReader.Disassemble` | src/bytecode/formatting.cpp:186-199 | the loop terminates on all bytes, with all instructions or the first error |
| `BytecodeReader.ReadIsExact` | src/bytecode/reader.cpp:23-554 | an instruction is read at a position exactly when its encoding stands there, and the cursor moves by its length |
| `BytecodeReader.InvalidOpcodeIsExact` | src/bytecode/reader.cpp:29-31 | an opcode is invalid if and only if no instruction's encoding begins with its byte |
| `BytecodeReader.IncompleteIsExact` | src/bytecode/reader.cpp:24-26 | an instruction is incomplete if and only if the bytes left are a proper beginning of some instruction's encoding |
| `BytecodeReader.DecodingStops` | src/bytecode/formatting.cpp:186-199 | the instructions listed are those whose code comes first, and the listing stops with what is read after them |
| `BytecodeReader.CodeDecodes` | src/bytecode/reader.cpp:23-554 | the code of any program decodes to that program, then to the end |
| `BytecodeReader.DecodedCodeIsCanonical` | src/bytecode/reader.cpp:23-554 | bytes that decode to the end are the code of what was decoded: there is no second encoding |
| `BytecodeReader.DecodingInvertsEncoding` | src/bytecode/reader.cpp:23-554 | bytes decode to a program and then end if and only if they are its code |
| `BytecodeWriter.BytecodeWriter.WriteImpl` | src/bytecode/writer.cpp:86-126 | one token appends its field and records its position when it is a label or a module member, and nothing else |
| `BytecodeWriter.BytecodeWriter.WriteAll` | src/bytecode/writer.hpp:301-304 | the arguments are written in order |
| `BytecodeWriter.BytecodeWriter.Write` | src/bytecode/writer.hpp:49-289 | every emitter extends the log by its instruction and keeps the writer's fields equal to what the log says |
| `BytecodeWriter.BytecodeWriter.Pos` | src/bytecode/writer.cpp:128-131 | the offset, or an error when it does not fit 32 bits |
| `BytecodeWriter.BytecodeWriter.MarkLabel` | src/bytecode/writer.cpp:14-19 | the label is defined at the current offset |
| `BytecodeWriter.BytecodeWriter.BeginHandler` | src/bytecode/writer.cpp:21-28 | from here on bytes belong to this handler; the regions so far still describe the bytes before |
| `BytecodeWriter.BytecodeWriter.FinishHandler` | src/bytecode/writer.cpp:52-62 | the open region is recorded unless it is empty or has no handler |
| `BytecodeWriter.ClosingDescribes` | src/bytecode/writer.cpp:52-62 | closing a region keeps "the regions answer the handler of every byte before them" |
| `BytecodeWriter.BytecodeWriter.PatchLabels` | src/bytecode/writer.cpp:34-38 | succeeds exactly when every label used was defined, and patches all references |
| `BytecodeWriter.BytecodeWriter.ConvertHandlers` | src/bytecode/writer.cpp:40-47 | succeeds exactly when every handler label was defined, and replaces labels by offsets |
| `BytecodeWriter.BytecodeWriter.Finish` | src/bytecode/writer.cpp:30-50 | succeeds exactly when the log is complete; the code is then that of the linked program, and the handler table dispatches every byte as the log demands |
| `BytecodeWriter.PatchingResolves` | src/bytecode/writer.cpp:34-38 | patching all references turns the code of a token sequence into the code of the same sequence with labels replaced by offsets |
| `BytecodeWriter.PatchingIsLocal` | src/bytecode/writer.cpp:34-38 | a byte outside all label fields is not changed |
| `BytecodeWriter.RegionsNameCover` | src/bytecode/writer.cpp:40-47 | the labels of the regions are defined exactly when the handlers of all covered bytes are |
| `BytecodeWriter.FinishedTable` | src/bytecode/writer.cpp:40-49 | converted and merged, the table still dispatches every byte to the handler current when it was written |
| `Assembly.AssembledCodeDecodes` | src/bytecode/writer.cpp:30-50 | for every sequence of calls: reading the finished code gives the emitted instructions with labels replaced by offsets, then the end |
| `Assembly.LabelsAreBoundaries` | src/bytecode/writer.cpp:14-19 | a label's offset is an instruction boundary, and decoding from there gives what was emitted after the label |
| `Assembly.JumpsLandOnLabels` | src/bytecode/writer.cpp:34-38 | in finished code a label operand is the offset its label was defined at, and no other operand or opcode changes |
| `Assembly.HandlerUntilTheNext` | src/bytecode/writer.cpp:21-28 | a handler covers everything emitted until the next one is started |
| `Assembly.ThrowsReachTheirHandler` | src/vm/interpreter.cpp:808-829 | for every pc inside or right after an instruction, looking up pc - 1 gives the offset of the handler that was current when it was emitted, or none |
| `Assembly.OnlyLabelsArePatched` | src/bytecode/writer.cpp:34-38 | finishing changes no byte outside label operands |
| `Assembly.LabelRefsAreExact` | src/bytecode/writer.cpp:103-107 | the recorded label references are exactly the label operands, with the offsets they start at |
| `Assembly.MemberRefsAreExact` | src/bytecode/writer.cpp:109-114 | the recorded module references are exactly the module operands, with the offsets they start at |
| `Assembly.ReassemblyIsIdentity` | src/bytecode/writer.cpp:86-126 | emitting what was decoded rebuilds the same bytes |
| `Coroutines.Coroutine.PushValue` | src/vm/objects/coroutine_stack.cpp:142-152 | one value on top of the top frame's values |
| `Coroutines.Coroutine.PopValues` | src/vm/objects/coroutine_stack.cpp:185-189 | exactly n values fewer; that they exist is proved at every call |
| `Coroutines.Coroutine.PopFrame` | src/vm/interpreter.cpp:1281-1296 | the frame, its values and its arguments (and one more if flagged) are gone, the caller is unchanged below |
| `Coroutines.Coroutine.ReturnFunction` | src/vm/interpreter.cpp:1224-1237 | the caller gets the value, or the coroutine is done with it |
| `Coroutines.Coroutine.HandleException` | src/vm/interpreter.cpp:799-829 | jumps to the handler that covers pc - 1; an exception already in flight stays primary and records the new one |
| `Coroutines.Coroutine.UnwindInto` | src/vm/interpreter.cpp:1257-1279 | control continues in the frame exactly when it is a catch frame or a code frame with a covering handler |
| `Coroutines.Coroutine.Unwind` | src/vm/interpreter.cpp:1239-1255 | the loop terminates and refines the recursive unwinding of the frame list |
| `Coroutines.Coroutine.EnterFunction` | src/vm/interpreter.cpp:1130-1222 | bound methods are unpacked in a loop, then the callee is entered or the fault is unwound |
| `Coroutines.Coroutine.PushFrame` | src/vm/interpreter.cpp:1150-1221 | a frame of the right kind is pushed, or the fault is unwound when the arguments do not fit or the value cannot be called |
| `Coroutines.Coroutine.CallMethodWith` | src/vm/interpreter.cpp:1121-1128 | a null receiver is popped later instead of being passed |
| `Coroutines.Coroutine.Execute` | src/vm/interpreter.cpp:219-793 | one bytecode instruction's effect on frames and values, and whether control leaves the loop after it |
| `Coroutines.Coroutine.RunCode` | src/vm/interpreter.cpp:219-793 | executes instructions in order as long as the loop goes on; the invariant holds again |
| `Coroutines.CodeRunIsExact` | src/vm/interpreter.cpp:219-793 | such a stretch is a run of the machine that leaves the loop at the first suspension point and not before, or ends where there is no more instruction |
| `Coroutines.Coroutine.FinishInvoke` | src/vm/interpreter.cpp:1042-1053 | the state left by the native function is kept, leftover values are dropped |
| `Coroutines.Coroutine.CarryOut` | src/vm/interpreter.cpp:1055-1080 | the native function's request is carried out |
| `Coroutines.Coroutine.Conclude` | src/vm/interpreter.cpp:1038-1080 | both together complete the native step, whatever state the function left; a ready coroutine stays ready exactly under the stated condition |
| `Coroutines.Coroutine.PushArguments` | src/vm/interpreter.cpp:970-974 | all arguments are pushed in order |
| `Coroutines.Coroutine.RunCatch` | src/vm/interpreter.cpp:1085-1112 | starts its function once, then returns one Result; the assertions about the exception and the missing value hold |
| `Coroutines.Coroutine.BeginRun` | src/vm/interpreter.cpp:967-986 | the first step of a run: the function is called with its arguments, or the coroutine goes on |
| `Interpreter.RunFurther` | src/vm/interpreter.cpp:988-1008 | runs compose |
| `StackInvariant.UnwindingSettles` | src/vm/interpreter.cpp:1239-1279 | unwinding never pops a value that is not there and only enters catch frames that were started |
| `StackInvariant.EnteringSettles` | src/vm/interpreter.cpp:1130-1222 | after entering any callee its caller holds the callee's arguments |
| `StackInvariant.StepKeepsInvariant` | src/vm/interpreter.cpp:964-1296 | every step keeps: callers hold their callees' arguments, covered catch frames are started, a started catch frame on top holds a result or an exception, there is a result exactly when done |
| `StackInvariant.StepsFollowTheOrder` | src/vm/interpreter.cpp:933-1009 | states follow New, Started, Running, then Ready, Waiting or Done |
| `StackInvariant.RunsKeepInvariant` | src/vm/interpreter.cpp:964-1009 | over whole runs the invariant holds, and a coroutine that is done takes no further step |
| `CallTheorems.UnwindingMeaning` | src/vm/interpreter.cpp:1239-1279 | unwinding resumes in the youngest frame that catches, with older frames untouched and exactly the younger ones' arguments gone: a code frame at its handler, a catch frame as it was, both with the primary exception; the exception of the oldest unwinding frame passed is primary, the one thrown and those of all other frames passed are kept as secondary ones; with no such frame the coroutine is done with the error |
| `CallTheorems.ArrivingIsRecorded` | src/vm/interpreter.cpp:802-806 | every unwinding frame that is reached records the exception that arrives there, under its own one |
| `CallTheorems.OthersRecordNothingNew` | src/vm/interpreter.cpp:802-806 | no other list of secondary exceptions changes |
| `CallTheorems.EnteringGuards` | src/vm/interpreter.cpp:1130-1222 | entering any callee leaves the caller's values below the arguments alone |
| `CallTheorems.RunKeepsGuard` | src/vm/interpreter.cpp:1114-1296 | while a callee is on the stack, nothing it or its callees do changes more of the caller than the callee's own arguments |
| `CallTheorems.CallsAreBalanced` | src/vm/interpreter.cpp:1055-1128 | for calls by instruction, on request of native code and from catch frames, of plain functions, methods and bound methods: whatever happens in between, a normal return replaces the arguments (and the receiver of a method call) by the result |
| `CallTheorems.PanicsStopAtCatch` | src/vm/interpreter.cpp:1257-1279 | no panic passes a catch frame |
| `CallTheorems.CatchReturnsAResult` | src/vm/interpreter.cpp:1085-1112 | a catch frame stays until it returns, and what it returns is a Result |
| `CallTheorems.StateSetByNativeIsKept` | src/vm/interpreter.cpp:1042-1080 | a state set by native code survives its step if and only if its request neither completes nor re-blocks the coroutine |
| `CallTheorems.DispatchAsMainCompletesWhileQueued` | src/vm/builtins/std.cpp:157-159 | a machine in which a coroutine that queued itself completes in the same step |
| `CallTheorems.NativeStepEnds` | src/vm/interpreter.cpp:1042-1080 | after a native step the coroutine is as the function left it, waiting or done |
| `FrameTheorems.EnteringKeepsOneArgument` | src/vm/interpreter.cpp:1203-1213 | entering a callee keeps "every catch frame has one argument" if and only if it is not the catch function with more than one |
| `FrameTheorems.StepKeepsOneArgument` | src/vm/interpreter.cpp:1085-1090 | the same for every step of the machine |
| `FrameTheorems.RunsKeepOneArgument` | src/vm/interpreter.cpp:1085-1090 | over whole runs the assertion never fails if and only if no step makes such a call |
| `FrameTheorems.CatchMayHaveTwoArguments` | src/vm/interpreter.cpp:1203-1213 | a call after which a catch frame with two arguments is about to run |
| `FrameTheorems.UnwindingAndItself` | src/vm/interpreter.cpp:802-806 | unwinding puts an exception into its own secondary list if and only if it reaches a frame that is unwinding with it |
| `FrameTheorems.StepAndItself` | src/vm/interpreter.cpp:802-806 | the same for every step, by throw, rethrow, native panic or refused call |
| `FrameTheorems.RunsAndItself` | src/vm/interpreter.cpp:802-806 | over whole runs no exception is its own secondary one if and only if no step throws one that meets itself |
| `FrameTheorems.RethrowingMeetsItself` | src/vm/interpreter.cpp:802-806 | rethrowing always meets itself, and so does throwing the exception the frame is unwinding with |
| `FrameTheorems.EnteringKeepsMain` | src/vm/interpreter.cpp:1130-1222 | whatever is entered, the oldest frame stays that of the main function; the first callee makes it native if and only if it is a native function, bound or not |
| `FrameTheorems.StepKeepsMain` | src/vm/interpreter.cpp:964-1296 | the main function is native after a step if and only if it was before, or the step begins the coroutine with a native one |
| `StepEffects.EnteringCalls` | src/vm/interpreter.cpp:1130-1222 | a callee that accepts its arguments gets a fresh frame, over the caller's values with the bound instances in front of the arguments; one that refuses them panics |
| `StepEffects.InstructionsCall` | src/vm/interpreter.cpp:1114-1119 | a call passes the topmost values |
| `StepEffects.MethodsAreCalled` | src/vm/interpreter.cpp:1121-1128 | a method call passes its receiver first, or leaves a null receiver below to be popped later |
| `StepEffects.NativeCodeCalls` | src/vm/interpreter.cpp:1055-1065 | a call on request of native code passes the values asked for, and leftover values are gone |
| `StepEffects.CatchFramesCall` | src/vm/interpreter.cpp:1092-1099 | a catch frame calls its first argument, the topmost value of its caller when it is the only one, with no arguments |
| `StepEffects.CoroutinesCallMain` | src/vm/interpreter.cpp:967-977 | a coroutine begins by calling its function with its arguments |
| `StepEffects.NativeSteps` | src/vm/interpreter.cpp:1038-1080 | the effect of native steps that call nothing: frame, state, and where a panic unwinds from |
| `StepEffects.ValuesOfInstructions` | src/vm/interpreter.cpp:219-793 | the values and the offset after jumps, pushes, pops and collecting instructions |
| `StepEffects.StoredParameter` | src/vm/interpreter.cpp:219-793 | storing a parameter changes this argument among the caller's values and nothing else |
| `StepEffects.InstructionsThrow` | src/vm/interpreter.cpp:219-793 | what throwing instructions unwind with |
| `StepEffects.SuspendsExactly` | src/vm/interpreter.cpp:219-793 | an instruction leaves the loop if and only if it calls, throws or returns |
| `StepEffects.ReturnsGiveTheValue` | src/vm/interpreter.cpp:1224-1237 | a value returned replaces the arguments among the caller's values; the value returned by the only frame is the coroutine's result |
| `StepEffects.CompletionIsExact` | src/vm/interpreter.cpp:1224-1255 | a coroutine completes if and only if its only frame returns, with that value, or a panic leaves all frames, with the exception that arrives |
| `StepEffects.CompletedRuns` | src/vm/interpreter.cpp:964-1009 | the same over whole runs |
| `StepEffects.CatchReturnsThePanic` | src/vm/interpreter.cpp:1102-1106 | a catch frame returns the exception that arrives, as an error |
| `StepEffects.CatchReturnsTheValue` | src/vm/interpreter.cpp:1092-1112 | a catch frame returns what its function returned, as a success |
| `Histories.QueueIsRunnable` | src/vm/context.cpp:141-169 | in every legal history the ready queue holds exactly the started and ready coroutines, each one once |
| `Histories.MachinesAreSound` | src/vm/interpreter.cpp:933-1009 | every coroutine's frames and values satisfy the invariant between any two events |
| `Histories.DoneIsFinal` | src/vm/context.cpp:114-119 | over any continuation, what is done stays as it is, with its result |
| `Histories.DoneUsesNoToken` | src/vm/context.cpp:116-117 | no token of a coroutine works after it is done |
| `Histories.UsedIsNotCurrent` | src/vm/context.cpp:193-196 | a token that was used is never current again |
| `Histories.TokensWorkOnce` | src/vm/objects/coroutine.cpp:153-164 | a token resumes its coroutine at most once |
| `Histories.CallbacksRunOnce` | src/vm/context.cpp:116-119 | at most one callback call per coroutine |
| `Histories.CompletionIsCalledBack` | src/vm/context.cpp:116-119 | after the completion of a coroutine with a callback, its token is reset and its callback called, with nothing in between, whatever follows |
| `Histories.DoneIsCalledBack` | src/vm/context.cpp:116-119 | a coroutine that had a callback and is done was called back |
| `Turns.AnswerContinues` | src/vm/builtins/std.cpp:147-159 | a request keeps the history legal; it runs nobody, costs nobody the place in the queue, and changes other coroutines only by queueing them |
| `Turns.AnswersLeaveRunning` | src/vm/builtins/std.cpp:153-159 | whatever native code asks for, its own coroutine is as before but for being dispatched |
| `Turns.FrameContinues` | src/vm/interpreter.cpp:988-1008 | what running the top frame does to everybody; it misqueues the coroutine if and only if its native step queues it and then completes or blocks it |
| `Turns.TurnContinues` | src/vm/context.cpp:108-120 | a turn is taken by the first coroutine of the queue; everyone behind it moves up; all others are as they were or were queued; a completed coroutine was called back |
| `Turns.TurnIsRun` | src/vm/interpreter.cpp:933-1009 | the machine after a turn is that of a run: first step, then steps of the turn, until it is not running or no step is possible; misqueued if and only if the last step misqueues |
| `Requests.LaunchMakesACoroutine` | src/vm/builtins/std.cpp:129-141 | launching makes one coroutine, with this function and these arguments, started and last in the queue; all others are as they were |
| `Requests.StartQueues` | src/vm/context.cpp:87-93 | a new coroutine is started and last in the queue; any other request to start is without effect |
| `Requests.TokenResumes` | src/vm/objects/coroutine.cpp:153-164 | the current token of a waiting coroutine makes it ready, last in the queue and without a token; any other token is without effect |
| `Requests.TokenIsMade` | src/vm/objects/coroutine.cpp:123-131 | the coroutine has a current token afterwards, the one it had or a new one |
| `Requests.DispatchQueues` | src/vm/builtins/std.cpp:157-159 | a running coroutine is ready, last in the queue and without a token |
| `Requests.CallbackIsSet` | src/vm/context.cpp:66-85 | the coroutine has a callback, and nothing else changes |
| `Requests.AnswersInOrder` | src/vm/builtins/std.cpp:129-159 | requests take effect in the order they are made |
| `Requests.AnswersLaunch` | src/vm/builtins/std.cpp:129-141 | requests make exactly the coroutines they launch, with their functions and arguments, in order |
| `Requests.NativeFramesAnswer` | src/vm/interpreter.cpp:1034-1053 | all requests of a native step are answered before the coroutine makes the step |
| `Requests.TurnsMakeWhatWasAsked` | src/vm/context.cpp:108-120 | a turn makes exactly the coroutines launched in the native steps taken, and then those launched by the completion callback |
| `Requests.CompletionLeavesNoToken` | src/vm/context.cpp:116-117 | a coroutine that is done has no current token, whatever its callback asks for |
| `Requests.TurnsBeginWithMain` | src/vm/interpreter.cpp:967-986 | a started coroutine begins with its function and arguments, a ready one goes on as it was |
| `Requests.LaunchedFunctionsAreCalled` | src/vm/builtins/std.cpp:129-141 | a launched function is called with the arguments of the launch when its turn comes, whatever happened in between |
| `ReadyLoop.QueueIsServed` | src/vm/context.cpp:95-121 | the coroutines run, followed by those still queued, begin with those queued at the start; the loop ends with an empty queue, with every turn of the script taken, with a turn cut short, or at a misqueued coroutine |
| `ReadyLoop.WaitingIsUntouched` | src/vm/context.cpp:95-121 | a coroutine that had no turn has the frames, values and result it had, and at most was queued |
| `ReadyLoop.CompletedAreCalledBack` | src/vm/context.cpp:116-119 | whoever became done and had a callback was called back, also when the run ends at another, misqueued coroutine |
| `ReadyLoop.TameProgramsAreNotMisqueued` | src/vm/context.cpp:95-121 | where no main function is native, no native function is launched, and native functions only return after dispatching, no run of the loop leaves a coroutine in the queue that is not ready, and no main function is native afterwards |
| `ReadyLoop.NativeMainCanBeMisqueued` | src/vm/builtins/std.cpp:157-159 | every native main function that accepts its arguments is misqueued by a turn that only dispatches and returns |
| `Scheduler.Context.ScheduleCoroutine` | src/vm/context.cpp:141-155 | the links form the queue that the history says, with the coroutine at its end |
| `Scheduler.Context.LinkLast` | src/vm/context.cpp:146-154 | appends through the last link |
| `Scheduler.Context.DequeueCoroutine` | src/vm/context.cpp:157-169 | the first coroutine of the queue is returned, the others stay in line |
| `Scheduler.Context.UnlinkFirst` | src/vm/context.cpp:158-168 | the links form the queue without its first coroutine, which is unlinked |
| `Scheduler.Context.MakeCoroutine` | src/vm/interpreter.cpp:926-931 | a new coroutine with the next number, not queued |
| `Scheduler.Context.Start` | src/vm/context.cpp:87-93 | succeeds exactly for new coroutines, which are started and queued last |
| `Scheduler.Context.CreateToken` | src/vm/objects/coroutine.cpp:123-131 | the current token, or a fresh one that becomes current |
| `Scheduler.Context.ResumeCoroutine` | src/vm/context.cpp:187-199 | ready, queued last, and without a current token |
| `Scheduler.Context.UseToken` | src/vm/objects/coroutine.cpp:153-164 | resumes exactly when the token is current and the coroutine waits; otherwise nothing changes |
| `Scheduler.Context.Perform` | src/vm/builtins/std.cpp:147-159 | one request has exactly its effect: what is made, started, resumed, dispatched, issued or set, and nothing else |
| `Scheduler.Context.PerformAll` | src/vm/builtins/std.cpp:147-159 | requests take effect one after the other |
| `Scheduler.Context.RunResumable` | src/vm/interpreter.cpp:1024-1083 | the requests of a native step take effect, and then the coroutine makes the machine's step |
| `Scheduler.Context.RunCatchFrame` | src/vm/interpreter.cpp:1085-1112 | the coroutine makes the catch frame's step, and nothing else changes |
| `Scheduler.Context.RunInstructions` | src/vm/interpreter.cpp:219-793 | the coroutine executes instructions up to a suspension point, and nothing else changes |
| `Scheduler.Context.RunFrame` | src/vm/interpreter.cpp:988-1008 | the frame on top is run according to its kind |
| `Scheduler.Context.BeginTurn` | src/vm/interpreter.cpp:967-986 | a dequeued coroutine is set running by the machine's first step |
| `Scheduler.Context.RunUntilBlock` | src/vm/interpreter.cpp:933-1009 | frames are run until the coroutine is not running, or no step can be taken |
| `Scheduler.Context.ExecuteCallbacks` | src/vm/context.cpp:171-185 | the callback of a coroutine that has one is called next and what it asks for takes effect; otherwise nothing changes |
| `Scheduler.Context.AfterCompletion` | src/vm/context.cpp:116-119 | the token is reset, then the callback called |
| `Scheduler.Context.TakeTurn` | src/vm/context.cpp:114-119 | the dequeued coroutine runs until it blocks, and what follows a completion is done |
| `Scheduler.Context.RunNext` | src/vm/context.cpp:108-120 | the same for the first coroutine of the queue |
| `Scheduler.Context.RunReady` | src/vm/context.cpp:95-121 | everything in the context, and the answer, is what taking the turns of the script in order of the queue makes of it; a nested call is an error and changes nothing |
| `Unwinding.CatchesWhereEmitted` | src/vm/interpreter.cpp:808-829 | a frame of finished code catches at an instruction if and only if a handler was current when the instruction was emitted |
| `Unwinding.ExceptionsReachTheirHandler` | src/vm/interpreter.cpp:799-829 | an exception that arrives at an instruction of finished code, thrown there or by a callee, continues with what was emitted after the label of its handler, or leaves the frame when there is none |
| `Bitset.BitsetView.CountBits` | src/common/adt/bitset.hpp:56-100 | the number of set positions in the range, for every block width |
| `Bitset.BitsetView.CountRest` | src/common/adt/bitset.hpp:89-99 | whole blocks and the remainder of the last one |
| `Bitset.CountIntoBlock` | src/common/adt/bitset.hpp:75-97 | counting positions inside one block is counting the bits of a part of its word |
| `Bitset.BitsetView.FindSet` | src/common/adt/bitset.hpp:107-130 | the least set position up to the end of the last used block; the least set index of the set when no bit beyond the size is set |
| `Bitset.BitsetView.FindUnset` | src/common/adt/bitset.hpp:137-167 | the least unset index of the set, or none exactly when there is none |
| `Bitset.BitsetView.Search` | src/common/adt/bitset.hpp:112-129 | the rest of the first block and then whole blocks miss no position |
| `Bitset.BitsetView.Test` | src/common/adt/bitset.hpp:180-183 | the bit at the index |
| `Bitset.BitsetView.SetBit` | src/common/adt/bitset.hpp:187-190 | changes this bit only; stray bits stay as they are |
| `Bitset.BitsetView.ClearBit` | src/common/adt/bitset.hpp:230-233 | changes this bit only; stray bits stay as they are |
| `Bitset.BitsetView.SetTo` | src/common/adt/bitset.hpp:237-243 | the bit is as asked for, all others are unchanged |
| `Bitset.BitsetView.FlipBit` | src/common/adt/bitset.hpp:247-247 | the bit is inverted, all others are unchanged |
| `Bitset.BitsetView.ClearRange` | src/common/adt/bitset.hpp:194-226 | exactly the positions of the range are reset |
| `Bitset.BitsetView.ClearAll` | src/common/adt/bitset.hpp:170-170 | all positions of the used blocks are reset, so no stray bit is left |
| `Bitset.BitsetView.FlipAll` | src/common/adt/bitset.hpp:173-176 | all positions of the used blocks are inverted, those beyond the size included |
| `Bitset.SearchIsRightExactly` | src/common/adt/bitset.hpp:107-130 | the search answers for the set if and only if something in the set is found or no stray bit is set |
| `Bitset.FlipLeavesStray` | src/common/adt/bitset.hpp:173-176 | after inverting, no stray bit is set if and only if all of them were; from a clean set, if and only if the size fills its blocks |
| `Bitset.LimitIsSizeExactly` | src/common/adt/bitset.hpp:262-267 | the size fills its blocks if and only if it is a multiple of the block width |
| `Bitset.FlippedSetFindsBeyondItsSize` | src/common/adt/bitset.hpp:173-176 | an example: a set of one bit in which the search finds index 1 |
| `Bitset.DynamicBitset.Resize` | src/common/adt/bitset.hpp:295-299 | every position keeps its bit, new positions are unset |
| `Bitset.DynamicBitset.View` | src/common/adt/bitset.hpp:361-361 | the vector has exactly the blocks that the view uses |
| `Bitset.ResizeLeavesStray` | src/common/adt/bitset.hpp:295-299 | from a clean set, resizing leaves no stray bit if and only if no bit was set from the new size to the end of its last block; growing never does |
| `Bitset.ShrunkSetFindsBeyondItsSize` | src/common/adt/bitset.hpp:295-299 | an example: shrunk to one bit, the search finds index 1 |
| `Arena.RoundingIsLeast` | src/common/memory/arena.cpp:63-70 | block sizes are the least multiple of the minimum block size that is large enough, and fail exactly when it is not representable |
| `Arena.DisjointBlocksFit` | src/common/memory/arena.cpp:53-57 | pairwise disjoint blocks are together no larger than the address space, so the sum of their sizes does not wrap around |
| `Arena.Bump` | src/common/memory/arena.hpp:116-125 | a region at or above the position is disjoint from everything handed out before |
| `Arena.Link` | src/common/memory/arena.cpp:29-46 | a region at the start of a new block is aligned and disjoint from everything handed out before |
| `Arena.Arena.Allocate` | src/common/memory/arena.hpp:111-128 | the new region is aligned, lies in one live block and is disjoint from all others; the position is then right behind it; used bytes are the sum of all requests, used bytes and headers fit the total; the used-bytes overflow is unreachable; it fails exactly when a new block is needed and its size overflows or malloc fails |
| `Arena.Arena.AllocateSlowPath` | src/common/memory/arena.cpp:29-46 | the same, for a request that is served from a new block |
| `Arena.Arena.AllocateBlock` | src/common/memory/arena.cpp:48-61 | the block holds the request and its header, its size is a multiple of the minimum block size, and the total is exact |
| `Arena.Arena.Deallocate` | src/common/memory/arena.cpp:16-27 | nothing is live and everything is as new |
| `Arena.Arena.Take` | src/common/memory/arena.cpp:8-14 | all blocks and regions move, the other arena is empty |
| `PowersOfTwo.Log2` | src/common/math.hpp:37-43 | the logarithm brackets the number |
| `PowersOfTwo.LogarithmsAgree` | src/common/math.hpp:48-51 | counting leading zeroes gives the same logarithm, for every word width |
| `PowersOfTwo.CeilPow2` | src/common/math.hpp:71-81 | shifting and joining in doubling steps gives the least power of two that is not smaller, and 0 for 0 |
| `PowersOfTwo.SmearDown` | src/common/math.hpp:76-78 | exactly the bits up to the highest one are set |
| `PowersOfTwo.CeilPow2FastIsLeast` | src/common/math.hpp:86-95 | the variant with leading zeroes gives the only such power |
| `IntegerMath.PowInts` | src/vm/math.cpp:82-105 | for exponents from 0: the exact power if it fits 64 bits, and an overflow if and only if it does not |
| `IntegerMath.SquareFits` | src/vm/math.cpp:97-102 | if squaring the base overflows then the result would not have fitted: the check is never a false alarm |
| `IntegerMath.NegativeExponents` | src/vm/math.cpp:83-87 | the result is the rounded reciprocal if and only if not (base -1 and an even exponent) |
| `IntegerMath.UnaryMinusIsExact` | src/vm/math.cpp:182-187 | negation is exact, or an overflow when it does not fit, if and only if the operand is neither -1 nor the minimum |
| `IndentStream.IndentStream.Write` | src/common/format.cpp:49-80 | through any number of streams on top of each other, the text at the bottom gets what the transducers make of the message, and every stream knows whether a line starts next |
| `IndentStream.ChunkingIsInvisible` | src/common/format.cpp:49-80 | writing two messages gives the output and the state of writing them as one |
| `IndentStream.PassingChunks` | src/common/format.cpp:49-80 | the same through any number of streams |
| `IndentStream.WriteMessages` | src/common/format.cpp:49-80 | the same for any number of messages |
| `IndentStream.EveryLineIsIndentedOnce` | src/common/format.cpp:57-79 | every line of a text gets exactly one indent, in front, but for the first line of a stream that starts without one |
| `IndentStream.NestedStreamsAdd` | src/common/format.cpp:34-80 | one transducer after another, started alike, is one with the sum of the indents |
| `IndentStream.StackedStreamsAdd` | src/common/format.cpp:34-80 | any number of streams on top of each other, all started alike, are one stream with the sum of the indents |
| `CodePointTables.GenerateRanges` | support/unicode/unicode_tables.py:129-149 | sorted, non-adjacent ranges whose union is the set |
| `CodePointTables.SeparatedIsMinimal` | support/unicode/unicode_tables.py:129-149 | no list of ranges with the same union is shorter |
| `CodePointTables.GenerateMap` | support/unicode/unicode_tables.py:101-122 | the last key up to a code point has its value, for every code point, those beyond the maximum included; keys ascend and neighbouring values differ; an empty table is an error |
| `HierarchyLabels.Labeller.Visit` | support/codegen/objects.py:94-107 | fails exactly when a name is used twice; numbers the leaves in order |
| `HierarchyLabels.InitTree` | support/codegen/objects.py:90-110 | the leaves get the ids 1 to N, and nothing else gets one |
| `HierarchyLabels.IdRange` | support/codegen/objects.py:39-50 | the smallest and the largest id of the leaves under the node; fails exactly when one has none |
| `HierarchyLabels.RangesAreExact` | support/codegen/objects.py:39-50 | a leaf's id lies in a node's range if and only if the leaf is under that node |
| `HierarchyLabels.TagCollector.Visit` | support/codegen/ast.py:609-629 | fails exactly when a base type has no derived types; the tags and the next value |
| `HierarchyLabels.TagCollector.VisitDerived` | support/codegen/ast.py:617-622 | the smallest and the largest value given under the derived types |
| `HierarchyLabels.TypeTags` | support/codegen/ast.py:602-632 | the tags of the whole hierarchy, numbered from 1 |
| `HierarchyLabels.TagsMatchIds` | support/codegen/ast.py:602-632 | every leaf's tag has its id, every other class is tagged with the two ends of its id range |
| `HierarchyLabels.NoOtherTags` | support/codegen/ast.py:602-632 | every tag belongs to a node, and has its id or an end of its id range |
| `HierarchyLabels.NoTagTwice` | support/codegen/ast.py:602-632 | no tag is given twice |
| `HierarchyLabels.AcceptedFinalsAreLeaves` | support/codegen/ast.py:58-71 | where nothing derives from a final type, type_tags succeeds if and only if the final types are the leaves |
| `HierarchyLabels.SchemesAgree` | support/codegen/ast.py:602-632 | on every hierarchy that the registry accepts and type_tags succeeds on, both generators give the same numbers and ranges |
| `HierarchyLabels.SchemesGiveNothingElse` | support/codegen/ast.py:602-632 | on such a hierarchy there is no tag besides those, and none twice |

## Left out

- The values computed by instructions: locals, closures, arithmetic and object access are a parameter of each step;
  only effects on frames, value stacks and control flow are modelled.
- The byte layout, growth and overflow of the coroutine stack: a frame holds a sequence of values without bound.
- The sixteen registers of the interpreter, handles, garbage collection, and the interpreter's own fields `running_` and
  `current_`.
- Scheduler.Context.RunUntilBlock: the stack that `run` drops after completion stays; it has no frames then. Within
  one native step the requests come before the state set by the function itself.
- Coroutines.Coroutine.EnterFunction: bound methods nested into each other, which an assertion of the original excludes,
  are unpacked one after the other.
- Scheduler.Context.RunReady: a call from inside a callback or native code is modelled as the error it is, with no
  exception propagating through the interpreter; the loop is cut short when the script of turns ends.
- Scheduler.Context.Perform: timers and the host's own threads are not modelled; dispatching a coroutine that is not
  running, an assertion in the original, does nothing.
- What follows a misqueued coroutine, its own callback included: the original goes on to an assertion when it dequeues
  the coroutine again, the model reports it and stops.
- Writer calls that violate a debug assertion (an invalid or twice defined label, an operand of the wrong kind) are
  excluded by preconditions, as are functions whose code was not empty when the writer was made.
- BytecodeReader.BytecodeReader.Read: floats are their 64-bit pattern; printing of instructions is not modelled.
- Bitset: the bounds of `size_t`, `npos` as a number, and blocks of 8 or 16 bits, whose shifts promote to `int`.
- Arena.Arena.Allocate: block links are a sequence and memory contents are not modelled; `std::align` is taken from its
  standard description; the sizes of headers and alignments are those of 64-bit platforms.
- PowersOfTwo and IntegerMath: `ceil_div`, `checked_cast` and the other arithmetic operators, whose contracts would
  repeat their bodies; float arithmetic.
- HierarchyLabels.InitTree: parents, public types and the lists of objects gathered from the tree.
- CodePointTables: reading the Unicode database and printing the tables.
- Lexer, parser, intermediate representation, modules, heap, hash tables, the C API and its wrappers.
