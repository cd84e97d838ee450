/** What holds of a coroutine between any two steps. */
module StackInvariant {
  import opened Common
  import opened CallStack
  import opened Interpreter

  ghost predicate FrameOk(f: Frame) {
    match f.body
    case Code(_, _, current) => f.unwinding ==> current.Some?
    case Resumable(_) => !f.unwinding
    case Catch(started, exception) => f.argc >= 1 && (f.unwinding ==> started && exception.Some?)
  }

  /** Every caller still holds its callee's arguments, and covered catch frames have been started. */
  ghost predicate StackOk(st: Stack) {
    match st
    case Bottom(_) => true
    case Above(f, below) =>
      FrameOk(f) && f.Pops() <= |below.Values()| && TopStarted(below) && StackOk(below)
  }

  ghost predicate TopStarted(st: Stack) {
    st.Above? ==> CatchStarted(st.frame)
  }

  ghost predicate CatchStarted(f: Frame) {
    f.body.Catch? ==> f.body.started
  }

  /** A started catch frame on top has either caught an exception or holds its callee's result. */
  ghost predicate TopReady(st: Stack)
    requires st.Above?
  {
    var f := st.frame;
    f.body.Catch? && f.body.started && !f.unwinding ==> f.values != []
  }

  ghost predicate Invariant(m: Machine) {
    && StackOk(m.stack)
    && match m.state
       case New | Started => m.stack == Bottom([]) && m.result.None?
       case Running | Ready | Waiting => m.stack.Above? && TopReady(m.stack) && m.result.None?
       case Done => m.stack.Bottom? && m.result.Some?
  }

  /** How a panic or a call attempt leaves a machine: finished, or with control in the top frame. */
  ghost predicate Settled(before: Machine, after: Machine) {
    && StackOk(after.stack)
    && if after.stack.Bottom? then after.state.Done? && after.result.Some?
       else after.state == before.state && after.result == before.result && TopReady(after.stack)
  }

  lemma ReplacingValues(st: Stack, values: seq<Value>)
    requires StackOk(st)
    ensures StackOk(st.WithValues(values)) && TopStarted(st.WithValues(values)) == TopStarted(st)
  {
  }

  /** No pop underflows, and a catch frame that is unwound into was started. */
  lemma {:induction false} UnwindingSettles(m: Machine, ex: ExceptionId)
    requires StackOk(m.stack) && TopStarted(m.stack)
    ensures Settled(m, Unwound(m, ex))
    decreases m.stack.Depth()
  {
    if m.stack.Above? {
      var f := m.stack.frame;
      var next := m.(secondary := Record(m.secondary, f, ex));
      if !Catches(f) {
        UnwindingSettles(next.(stack := m.stack.PopFrame()), Passes(f, ex));
      }
    }
  }

  lemma ReturningSettles(m: Machine, v: Value)
    requires StackOk(m.stack) && m.stack.Above?
    ensures Settled(m, Returned(m, v))
  {
    var below := m.stack.PopFrame();
  }

  lemma {:induction false} EnteringSettles(m: Machine, callee: Value, argc: nat, popOneMore: bool, fault: ExceptionId)
    requires StackOk(m.stack) && TopStarted(m.stack)
    requires argc + (if popOneMore then 1 else 0) <= |m.stack.Values()|
    ensures Settled(m, Entered(m, callee, argc, popOneMore, fault))
    decreases callee
  {
    match callee
    case CodeFunction(tmpl) =>
      UnwindingSettles(m, fault);
    case BoundMethod(inner, instance) =>
      var vs := m.stack.Values();
      var args := DropTop(vs, argc) + [instance] + vs[|DropTop(vs, argc)|..];
      EnteringSettles(m.(stack := m.stack.WithValues(args)), inner, argc + 1, popOneMore, fault);
    case NativeFunction(params) =>
      UnwindingSettles(m, fault);
    case CatchFunction =>
      UnwindingSettles(m, fault);
    case _ =>
      UnwindingSettles(m, fault);
  }

  lemma CodeStepSettles(m0: Machine, step: Step)
    requires Invariant(m0) && Enabled(m0, step) && IsCodeStep(step)
    ensures Settled(m0, CodeNext(m0, step))
  {
    var m := AtPc(m0, step.pc);
    var f := m0.stack.frame;
    var st, vs := m.stack, m.stack.Values();
    match step
    case Goto(_) =>
    case Push(_, v) =>
    case PopValue(_, fault) => UnwindingSettles(m, fault);
    case Collect(_, count) =>
    case StoreParam(_, index, v) =>
      ReplacingValues(st.below, st.WithArg(index, v).below.Values());
    case Throw(_, ex) => UnwindingSettles(m, ex);
    case Rethrow(_) => UnwindingSettles(m, st.frame.body.current.value);
    case Call(_, callee, argc, fault) => EnteringSettles(m, callee, argc, false, fault);
    case CallMethod(_, callee, argc, fault) =>
      var isMethod := !vs[|vs| - argc - 1].Null?;
      EnteringSettles(m, callee, argc + (if isMethod then 1 else 0), !isMethod, fault);
    case Return(_, v) => ReturningSettles(m, v);
  }

  lemma NativeStepKeeps(m0: Machine, step: Step)
    requires Invariant(m0) && Enabled(m0, step) && step.Native?
    ensures Invariant(NativeNext(m0, step))
  {
    var f := m0.stack.frame;
    if f.body.state == RESUMABLE_END {
      ReturningSettles(m0, Null);
    } else {
      var m := Invoked(m0, step);
      match step.action
      case NoAction =>
      case ReturnAction(v) => ReturningSettles(m, v);
      case PanicAction(ex) => UnwindingSettles(m, ex);
      case InvokeAction(callee, args) =>
        EnteringSettles(m.(stack := m.stack.WithValues(args)), callee, |args|, false, step.fault);
      case YieldAction =>
    }
  }

  lemma CatchStepSettles(m: Machine, step: Step)
    requires Invariant(m) && Enabled(m, step) && step.RunCatch?
    ensures Settled(m, CatchNext(m, step))
  {
    var f := m.stack.frame;
    if !f.body.started {
      var started := StartedCatch(m);
      EnteringSettles(started, CatchArg(m.stack), 0, false, step.fault);
    } else if f.unwinding {
      ReturningSettles(m, ResultValue(Error(f.body.exception.value)));
    } else {
      ReturningSettles(m, ResultValue(CallResult.Success(f.values[|f.values| - 1])));
    }
  }

  /** The invariant is kept by every step that is allowed. */
  lemma StepKeepsInvariant(m: Machine, step: Step)
    requires Invariant(m) && Enabled(m, step)
    ensures Invariant(Next(m, step))
  {
    match step
    case Start =>
    case Begin(callee, args, fault) =>
      var running := m.(state := Running, stack := m.stack.WithValues(m.stack.Values() + args));
      EnteringSettles(running, callee, |args|, false, fault);
    case Resume =>
    case Continue =>
    case Native(_, _, _, _) => NativeStepKeeps(m, step);
    case RunCatch(_) => CatchStepSettles(m, step);
    case _ => CodeStepSettles(m, step);
  }

  /** The order of a coroutine's states; nothing follows Done. */
  predicate Follows(before: CoroutineState, after: CoroutineState) {
    match before
    case New => after.Started?
    case Started => after.Running? || after.Done?
    case Running => after.Running? || after.Ready? || after.Waiting? || after.Done?
    case Ready => after.Running?
    case Waiting => after.Ready?
    case Done => false
  }

  lemma StepsFollowTheOrder(m: Machine, step: Step)
    requires Invariant(m) && Enabled(m, step)
    ensures Follows(m.state, Next(m, step).state)
  {
    match step
    case Start =>
    case Begin(callee, args, fault) =>
      var running := m.(state := Running, stack := m.stack.WithValues(m.stack.Values() + args));
      EnteringSettles(running, callee, |args|, false, fault);
    case Resume =>
    case Continue =>
    case RunCatch(_) => CatchStepSettles(m, step);
    case Native(becomes, next, action, fault) =>
      var n := Invoked(m, step);
      match action {
        case InvokeAction(callee, args) =>
          EnteringSettles(n.(stack := n.stack.WithValues(args)), callee, |args|, false, fault);
        case PanicAction(ex) => UnwindingSettles(n, ex);
        case _ =>
      }
    case _ => CodeStepSettles(m, step);
  }

  /** Over a whole run: the invariant holds at the end, and a coroutine that is done takes no further step. */
  lemma {:induction false} RunsKeepInvariant(m: Machine, steps: seq<Step>)
    requires Invariant(m) && Allowed(m, steps)
    ensures Invariant(RunAll(m, steps))
    ensures m.state.Done? ==> steps == []
    decreases |steps|
  {
    if steps != [] {
      StepKeepsInvariant(m, steps[0]);
      RunsKeepInvariant(Next(m, steps[0]), steps[1..]);
    }
  }

  /** The changes of state that the context makes. */
  predicate Reschedules(before: CoroutineState, after: CoroutineState) {
    (before.New? && after.Started?) || ((before.Running? || before.Waiting?) && after.Ready?)
  }

  lemma ReschedulingKeepsInvariant(m: Machine, to: CoroutineState)
    requires Invariant(m) && Reschedules(m.state, to)
    ensures Invariant(m.(state := to)) && Follows(m.state, to)
  {
  }
}
