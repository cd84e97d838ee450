/** The call-frame machine of one coroutine: src/vm/interpreter.cpp. */
module Interpreter {
  import opened Common
  import opened HandlerTable
  import opened CallStack

  // ----- transitions as functions on snapshots

  datatype Machine = Machine(
    state: CoroutineState,
    stack: Stack,
    result: Option<CallResult>,
    secondary: map<ExceptionId, seq<ExceptionId>>)

  type Secondaries = map<ExceptionId, seq<ExceptionId>>

  /** Exception::add_secondary */
  function AddSecondary(all: Secondaries, primary: ExceptionId, ex: ExceptionId): Secondaries {
    all[primary := (if primary in all then all[primary] else []) + [ex]]
  }

  /** The handler that covers the instruction a code frame is executing. */
  ghost function HandlerOf(f: Frame): Option<nat>
    requires f.body.Code?
  {
    Lookup(f.body.tmpl.handlers, if f.body.pc > 0 then f.body.pc - 1 else 0)
  }

  /** Control can continue in this frame when a callee panics. */
  ghost predicate Catches(f: Frame) {
    f.body.Catch? || (f.body.Code? && HandlerOf(f).Some?)
  }

  /** The exception a frame passes on: the one it is already unwinding with, if any. */
  function Passes(f: Frame, ex: ExceptionId): ExceptionId {
    if f.body.Code? && f.unwinding && f.body.current.Some? then f.body.current.value else ex
  }

  function Record(all: Secondaries, f: Frame, ex: ExceptionId): Secondaries {
    if f.body.Code? && f.unwinding && f.body.current.Some? then AddSecondary(all, f.body.current.value, ex) else all
  }

  /** The frame after it caught the exception. */
  ghost function Caught(f: Frame, ex: ExceptionId): Frame
    requires Catches(f)
  {
    match f.body
    case Code(tmpl, _, _) => f.(unwinding := true, body := Code(tmpl, HandlerOf(f).value, Some(ex)))
    case Catch(started, _) => f.(unwinding := true, body := Catch(started, Some(ex)))
    case Resumable(_) => f
  }

  ghost function Unwound(m: Machine, ex: ExceptionId): Machine
    decreases m.stack.Depth()
  {
    if m.stack.Bottom? then m.(state := Done, result := Some(Error(ex)))
    else
      var f := m.stack.frame;
      var next := m.(secondary := Record(m.secondary, f, ex));
      if Catches(f) then next.(stack := Above(Caught(f, Passes(f, ex)), m.stack.below))
      else Unwound(next.(stack := m.stack.PopFrame()), Passes(f, ex))
  }

  function Returned(m: Machine, v: Value): Machine
    requires m.stack.Above?
  {
    var below := m.stack.PopFrame();
    if below.Bottom? then m.(stack := below, result := Some(CallResult.Success(v)), state := Done)
    else m.(stack := below.WithValues(below.Values() + [v]))
  }

  /** `fault` is the exception made when the call cannot be entered. */
  ghost function Entered(m: Machine, callee: Value, argc: nat, popOneMore: bool, fault: ExceptionId): Machine
    decreases callee
  {
    match callee
    case CodeFunction(tmpl) =>
      if tmpl.params != argc then Unwound(m, fault)
      else m.(stack := Above(Frame(argc, popOneMore, false, Code(tmpl, 0, None), []), m.stack))
    case BoundMethod(inner, instance) =>
      var vs := m.stack.Values();
      var args := DropTop(vs, argc) + [instance] + vs[|DropTop(vs, argc)|..];
      Entered(m.(stack := m.stack.WithValues(args)), inner, argc + 1, popOneMore, fault)
    case NativeFunction(params) =>
      if argc < params then Unwound(m, fault)
      else m.(stack := Above(Frame(argc, popOneMore, false, Resumable(RESUMABLE_START), []), m.stack))
    case CatchFunction =>
      if argc < 1 then Unwound(m, fault)
      else m.(stack := Above(Frame(argc, popOneMore, false, Catch(false, None), []), m.stack))
    case _ => Unwound(m, fault)
  }

  /** What a native function asks for when it is invoked once. */
  datatype Action =
    | NoAction
    | ReturnAction(value: Value)
    | PanicAction(ex: ExceptionId)
    | InvokeAction(callee: Value, args: seq<Value>)
    | YieldAction

  /** What the program and its environment do next; pc is the offset reached when the effect takes place. */
  datatype Step =
    | Goto(pc: nat)
    | Push(pc: nat, value: Value)
    | PopValue(pc: nat, fault: ExceptionId)
    | Collect(pc: nat, count: nat)
    | StoreParam(pc: nat, index: nat, value: Value)
    | Throw(pc: nat, ex: ExceptionId)
    | Rethrow(pc: nat)
    | Call(pc: nat, callee: Value, argc: nat, fault: ExceptionId)
    | CallMethod(pc: nat, callee: Value, argc: nat, fault: ExceptionId)
    | Return(pc: nat, value: Value)
    | Native(becomes: CoroutineState, next: int, action: Action, fault: ExceptionId)
    | RunCatch(fault: ExceptionId)
    | Start
    | Begin(callee: Value, args: seq<Value>, fault: ExceptionId)
    | Resume
    | Continue

  predicate IsCodeStep(step: Step) {
    match step
    case Native(_, _, _, _) | RunCatch(_) | Start | Begin(_, _, _) | Resume | Continue => false
    case _ => true
  }

  /** What the debug assertions demand of bytecode and native functions. */
  predicate Enabled(m: Machine, step: Step) {
    match step
    case Start => m.state.New?
    case Begin(_, _, _) => m.state.Started?
    case Resume => m.state.Waiting?
    case Continue => m.state.Ready?
    case _ =>
      && m.state.Running? && m.stack.Above?
      && var f := m.stack.frame;
         match step
         case Native(becomes, _, _, _) => f.body.Resumable? && (becomes.Running? || becomes.Ready? || becomes.Waiting?)
         case RunCatch(_) => f.body.Catch?
         case Collect(_, count) => f.body.Code? && count <= |f.values|
         case StoreParam(_, index, _) => f.body.Code? && index < f.argc
         case Rethrow(_) => f.body.Code? && f.unwinding
         case Call(_, _, argc, _) => f.body.Code? && argc <= |f.values|
         case CallMethod(_, _, argc, _) => f.body.Code? && argc + 1 <= |f.values|
         case _ => f.body.Code?
  }

  function AtPc(m: Machine, pc: nat): Machine
    requires m.stack.Above? && m.stack.frame.body.Code?
  {
    var f := m.stack.frame;
    m.(stack := Above(f.(body := f.body.(pc := pc)), m.stack.below))
  }

  /** The function a coroutine was made for, and its arguments. */
  datatype MainCall = MainCall(callee: Value, arguments: seq<Value>)

  /** The first step of a coroutine that is run: its function is called, or it goes on where it was blocked. */
  function FirstStep(main: MainCall, state: CoroutineState, fault: ExceptionId): Step {
    if state.Started? then Begin(main.callee, main.arguments, fault) else Continue
  }

  /** One bytecode instruction. */
  ghost function CodeNext(m0: Machine, step: Step): Machine
    requires Enabled(m0, step) && IsCodeStep(step)
  {
    var m := AtPc(m0, step.pc);
    var st, vs := m.stack, m.stack.Values();
    match step
    case Goto(_) => m
    case Push(_, v) => m.(stack := st.WithValues(vs + [v]))
    case PopValue(_, fault) => if vs == [] then Unwound(m, fault) else m.(stack := st.WithValues(DropTop(vs, 1)))
    case Collect(_, count) => m.(stack := st.WithValues(DropTop(vs, count)))
    case StoreParam(_, index, v) =>
      if st.frame.argc <= |st.below.Values()| then m.(stack := st.WithArg(index, v)) else m
    case Throw(_, ex) => Unwound(m, ex)
    case Rethrow(_) => Unwound(m, if st.frame.body.current.Some? then st.frame.body.current.value else 0)
    case Call(_, callee, argc, fault) => Entered(m, callee, argc, false, fault)
    case CallMethod(_, callee, argc, fault) =>
      var isMethod := !vs[|vs| - argc - 1].Null?;
      Entered(m, callee, argc + (if isMethod then 1 else 0), !isMethod, fault)
    case Return(_, v) => Returned(m, v)
  }

  /** After the native function was invoked once; leftover values are dropped. */
  function Invoked(m: Machine, step: Step): Machine
    requires Enabled(m, step) && step.Native?
  {
    m.(state := step.becomes,
       stack := Above(m.stack.frame.(values := [], body := Resumable(step.next)), m.stack.below))
  }

  /** One turn of a native function's frame. */
  ghost function NativeNext(m0: Machine, step: Step): Machine
    requires Enabled(m0, step) && step.Native?
  {
    var f := m0.stack.frame;
    if f.body.state == RESUMABLE_END then Returned(m0, Null)
    else ActionNext(Invoked(m0, step), step.action, step.fault)
  }

  /** What the native function asked for is carried out. */
  ghost function ActionNext(m: Machine, action: Action, fault: ExceptionId): Machine
    requires m.stack.Above?
  {
    match action
    case NoAction => m
    case ReturnAction(v) => Returned(m, v)
    case PanicAction(ex) => Unwound(m, ex)
    case InvokeAction(callee, args) => Entered(m.(stack := m.stack.WithValues(args)), callee, |args|, false, fault)
    case YieldAction => m.(state := Waiting)
  }

  /** The catch frame on top is marked as started. */
  function StartedCatch(m: Machine): Machine
    requires m.stack.Above? && m.stack.frame.body.Catch?
  {
    var f := m.stack.frame;
    m.(stack := Above(f.(body := f.body.(started := true)), m.stack.below))
  }

  /** One turn of a catch frame. */
  ghost function CatchNext(m: Machine, step: Step): Machine
    requires Enabled(m, step) && step.RunCatch?
  {
    var f := m.stack.frame;
    if !f.body.started then
      Entered(StartedCatch(m), CatchArg(m.stack), 0, false, step.fault)
    else if f.unwinding then
      Returned(m, ResultValue(Error(if f.body.exception.Some? then f.body.exception.value else 0)))
    else
      Returned(m, ResultValue(CallResult.Success(if f.values == [] then Null else f.values[|f.values| - 1])))
  }

  function CatchArg(st: Stack): Value
    requires st.Above?
  {
    if 0 < st.frame.argc <= |st.below.Values()| then st.Arg(0) else Null
  }

  ghost function Next(m: Machine, step: Step): Machine
    requires Enabled(m, step)
  {
    match step
    case Start => m.(state := Started)
    case Begin(callee, args, fault) =>
      Entered(m.(state := Running, stack := m.stack.WithValues(m.stack.Values() + args)), callee, |args|, false, fault)
    case Resume => m.(state := Ready)
    case Continue => m.(state := Running)
    case Native(_, _, _, _) => NativeNext(m, step)
    case RunCatch(_) => CatchNext(m, step)
    case _ => CodeNext(m, step)
  }

  // ----- what a step does to the frames

  /** A callee about to be entered from the top frame of `at`. */
  datatype Attempt = Attempt(at: Machine, callee: Value, argc: nat, popOneMore: bool, fault: ExceptionId)

  /** The call a step makes: by instruction, on request of native code, from a catch frame, or to begin with. */
  ghost function Attempted(m: Machine, step: Step): Option<Attempt>
    requires Enabled(m, step)
  {
    match step
    case Call(pc, callee, argc, fault) => Some(Attempt(AtPc(m, pc), callee, argc, false, fault))
    case CallMethod(pc, callee, argc, fault) =>
      var vs := m.stack.Values();
      var isMethod := !vs[|vs| - argc - 1].Null?;
      Some(Attempt(AtPc(m, pc), callee, argc + (if isMethod then 1 else 0), !isMethod, fault))
    case Native(_, _, InvokeAction(callee, args), fault) =>
      if m.stack.frame.body.state == RESUMABLE_END then None
      else
        var n := Invoked(m, step);
        Some(Attempt(n.(stack := n.stack.WithValues(args)), callee, |args|, false, fault))
    case RunCatch(fault) =>
      if m.stack.frame.body.started then None
      else Some(Attempt(StartedCatch(m), CatchArg(m.stack), 0, false, fault))
    case Begin(callee, args, fault) =>
      var running := m.(state := Running, stack := m.stack.WithValues(m.stack.Values() + args));
      Some(Attempt(running, callee, |args|, false, fault))
    case _ => None
  }

  /** The exception a step throws without calling anything, and where. */
  ghost function Thrown(m: Machine, step: Step): Option<(Machine, ExceptionId)>
    requires Enabled(m, step)
  {
    match step
    case Throw(pc, ex) => Some((AtPc(m, pc), ex))
    case Rethrow(pc) =>
      var current := m.stack.frame.body.current;
      Some((AtPc(m, pc), if current.Some? then current.value else 0))
    case PopValue(pc, fault) => if m.stack.Values() == [] then Some((AtPc(m, pc), fault)) else None
    case Native(_, _, PanicAction(ex), _) =>
      if m.stack.frame.body.state == RESUMABLE_END then None else Some((Invoked(m, step), ex))
    case _ => None
  }

  lemma AttemptsEnter(m: Machine, step: Step)
    requires Enabled(m, step) && Attempted(m, step).Some?
    ensures var a := Attempted(m, step).value;
            Next(m, step) == Entered(a.at, a.callee, a.argc, a.popOneMore, a.fault)
    ensures Thrown(m, step).None?
  {
  }

  lemma ThrowsUnwind(m: Machine, step: Step)
    requires Enabled(m, step) && Thrown(m, step).Some?
    ensures Next(m, step) == Unwound(Thrown(m, step).value.0, Thrown(m, step).value.1)
  {
  }

  lemma OthersRecordNothing(m: Machine, step: Step)
    requires Enabled(m, step) && Attempted(m, step).None? && Thrown(m, step).None?
    ensures Next(m, step).secondary == m.secondary
  {
  }

  /** A step enters a callee, or throws, or leaves the record of secondary exceptions alone. */
  lemma StepKinds(m: Machine, step: Step)
    requires Enabled(m, step)
    ensures var a, t, next := Attempted(m, step), Thrown(m, step), Next(m, step);
      && (a.Some? ==> t.None?)
      && (a.Some? ==> next == Entered(a.value.at, a.value.callee, a.value.argc, a.value.popOneMore, a.value.fault))
      && (t.Some? ==> next == Unwound(t.value.0, t.value.1))
      && (a.None? && t.None? ==> next.secondary == m.secondary)
  {
    if Attempted(m, step).Some? {
      AttemptsEnter(m, step);
    } else if Thrown(m, step).Some? {
      ThrowsUnwind(m, step);
    } else {
      OthersRecordNothing(m, step);
    }
  }

  /** The steps can be taken one after the other. */
  ghost predicate Allowed(m: Machine, steps: seq<Step>)
    decreases |steps|
  {
    steps == [] || (Enabled(m, steps[0]) && Allowed(Next(m, steps[0]), steps[1..]))
  }

  ghost function RunAll(m: Machine, steps: seq<Step>): Machine
    requires Allowed(m, steps)
    decreases |steps|
  {
    if steps == [] then m else RunAll(Next(m, steps[0]), steps[1..])
  }

  lemma {:induction false} RunOneMore(m: Machine, steps: seq<Step>, step: Step)
    requires Allowed(m, steps) && Enabled(RunAll(m, steps), step)
    ensures Allowed(m, steps + [step]) && RunAll(m, steps + [step]) == Next(RunAll(m, steps), step)
    decreases |steps|
  {
    if steps == [] {
      assert [step][1..] == [];
    } else {
      assert (steps + [step])[1..] == steps[1..] + [step];
      RunOneMore(Next(m, steps[0]), steps[1..], step);
    }
  }

  lemma {:induction false} RunFurther(m: Machine, a: seq<Step>, b: seq<Step>)
    requires Allowed(m, a) && Allowed(RunAll(m, a), b)
    ensures Allowed(m, a + b) && RunAll(m, a + b) == RunAll(RunAll(m, a), b)
    decreases |a|
  {
    if a == [] {
      assert a + b == b;
    } else {
      assert (a + b)[1..] == a[1..] + b;
      RunFurther(Next(m, a[0]), a[1..], b);
    }
  }
}
