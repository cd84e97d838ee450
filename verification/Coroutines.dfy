/** The interpreter's methods, each proved to perform the transition it stands for: src/vm/interpreter.cpp. */
module Coroutines {
  import opened Common
  import opened HandlerTable
  import opened CallStack
  import opened Interpreter
  import opened StackInvariant
  import opened CallTheorems

  /** The instruction leaves the interpreter's loop. */
  predicate Suspends(m: Machine, step: Step)
    requires Enabled(m, step)
  {
    match step
    case Throw(_, _) | Rethrow(_) | Call(_, _, _, _) | CallMethod(_, _, _, _) | Return(_, _) => true
    case PopValue(_, _) => m.stack.Values() == []
    case _ => false
  }

  /** Instructions of which none leaves the loop. */
  ghost predicate Straight(m: Machine, steps: seq<Step>)
    requires Allowed(m, steps)
    decreases |steps|
  {
    steps != [] ==> IsCodeStep(steps[0]) && !Suspends(m, steps[0]) && Straight(Next(m, steps[0]), steps[1..])
  }

  /** The machine after the instructions from position k on, up to a suspension point, and the position reached. */
  ghost function CodeRun(m: Machine, steps: seq<Step>, k: nat): (r: (Machine, nat))
    requires k < |steps| && Enabled(m, steps[k]) && IsCodeStep(steps[k])
    ensures k < r.1 <= |steps|
    decreases |steps| - k
  {
    var next := Next(m, steps[k]);
    if Suspends(m, steps[k]) || k + 1 == |steps| || !Enabled(next, steps[k + 1]) || !IsCodeStep(steps[k + 1])
    then (next, k + 1)
    else CodeRun(next, steps, k + 1)
  }

  /** Instructions that were executed one after the other; only the last one may have left the loop. */
  ghost predicate Stretch(m: Machine, steps: seq<Step>, now: Machine, suspended: bool) {
    && steps != []
    && (forall i :: 0 <= i < |steps| ==> IsCodeStep(steps[i]))
    && Allowed(m, steps) && now == RunAll(m, steps)
    && var n := |steps| - 1;
       && Allowed(m, steps[..n]) && Straight(m, steps[..n])
       && Enabled(RunAll(m, steps[..n]), steps[n])
       && (suspended <==> Suspends(RunAll(m, steps[..n]), steps[n]))
  }

  lemma StretchOfOne(m: Machine, step: Step)
    requires Enabled(m, step) && IsCodeStep(step)
    ensures Stretch(m, [step], Next(m, step), Suspends(m, step))
  {
    assert [step][1..] == [] && [step][..0] == [];
  }

  lemma StretchLonger(m: Machine, step: Step, steps: seq<Step>, now: Machine, suspended: bool)
    requires Enabled(m, step) && IsCodeStep(step) && !Suspends(m, step)
    requires Stretch(Next(m, step), steps, now, suspended)
    ensures Stretch(m, [step] + steps, now, suspended)
  {
    var all, n := [step] + steps, |steps|;
    assert all[1..] == steps && all[..n][1..] == steps[..n - 1];
    assert all[n] == steps[n - 1];
  }

  /** It is a run of the machine that stops at the first suspension point, or where there is no more instruction. */
  lemma {:induction false} CodeRunIsExact(m: Machine, steps: seq<Step>, k: nat) returns (suspended: bool)
    requires k < |steps| && Enabled(m, steps[k]) && IsCodeStep(steps[k])
    ensures var (now, next) := CodeRun(m, steps, k);
      && Stretch(m, steps[k..next], now, suspended)
      && (suspended || next == |steps| || !Enabled(now, steps[next]) || !IsCodeStep(steps[next]))
    decreases |steps| - k
  {
    var (now, next) := CodeRun(m, steps, k);
    if next == k + 1 {
      suspended := Suspends(m, steps[k]);
      StretchOfOne(m, steps[k]);
      assert steps[k..next] == [steps[k]];
    } else {
      suspended := CodeRunIsExact(Next(m, steps[k]), steps, k + 1);
      StretchLonger(m, steps[k], steps[k + 1..next], now, suspended);
      assert steps[k..next] == [steps[k]] + steps[k + 1..next];
    }
  }

  lemma CodeRunEnds(m: Machine, steps: seq<Step>, k: nat)
    requires k < |steps| && Enabled(m, steps[k]) && IsCodeStep(steps[k]) && Invariant(m) && m.state.Running?
    ensures var now := CodeRun(m, steps, k).0; Invariant(now) && (now.state.Running? || now.state.Done?)
  {
    var (_, next) := CodeRun(m, steps, k);
    var _ := CodeRunIsExact(m, steps, k);
    CodeRunsEnd(m, steps[k..next]);
  }

  /** A token is good for resuming its coroutine until it is replaced. */
  class Token {
    const coroutine: Coroutine
    /** Tokens are numbered in the order they are made in. */
    const id: nat

    constructor (coroutine: Coroutine, id: nat)
      ensures this.coroutine == coroutine && this.id == id
    {
      this.coroutine := coroutine;
      this.id := id;
    }
  }

  class Coroutine {
    /** Coroutines are numbered in the order they are made in. */
    const id: nat
    const callee: Value
    const arguments: seq<Value>
    var state: CoroutineState
    var stack: Stack
    var result: Option<CallResult>
    var secondary: Secondaries
    /** The next coroutine in the ready list. */
    var nextReady: Coroutine?
    var currentToken: Token?
    var hasCallback: bool

    function Now(): Machine
      reads this`state, this`stack, this`result, this`secondary
    {
      Machine(state, stack, result, secondary)
    }

    function Main(): MainCall {
      MainCall(callee, arguments)
    }

    constructor (id: nat, callee: Value, arguments: seq<Value>)
      ensures this.id == id && this.callee == callee && this.arguments == arguments
      ensures Now() == Machine(New, Bottom([]), None, map[])
      ensures nextReady == null && currentToken == null && !hasCallback
    {
      this.id := id;
      this.callee := callee;
      this.arguments := arguments;
      state, stack, result, secondary := New, Bottom([]), None, map[];
      nextReady, currentToken, hasCallback := null, null, false;
    }

    method PushValue(v: Value)
      modifies this`stack
      ensures stack == old(stack).WithValues(old(stack).Values() + [v])
    {
      stack := stack.WithValues(stack.Values() + [v]);
    }

    method PopValues(n: nat)
      requires n <= |stack.Values()|
      modifies this`stack
      ensures stack == old(stack).WithValues(DropTop(old(stack).Values(), n))
    {
      stack := stack.WithValues(stack.Values()[..|stack.Values()| - n]);
    }

    method PopFrame()
      requires stack.Above? && stack.frame.Pops() <= |stack.below.Values()|
      modifies this`stack
      ensures stack == old(stack).PopFrame()
    {
      var popArgs := stack.frame.argc;
      if stack.frame.popOneMore {
        popArgs := popArgs + 1;
      }
      stack := stack.below;
      PopValues(popArgs);
    }

    method ReturnFunction(v: Value)
      requires StackOk(stack) && stack.Above?
      modifies this`state, this`stack, this`result, this`secondary
      ensures Now() == Returned(old(Now()), v)
    {
      PopFrame();
      if stack.Above? {
        PushValue(v);
      } else {
        result := Some(CallResult.Success(v));
        state := Done;
      }
    }

    /** Attempts to jump to a handler of the top code frame; `ex` may be replaced by an earlier exception. */
    method HandleException(ex: ExceptionId) returns (handled: bool, primary: ExceptionId)
      requires stack.Above? && FrameOk(stack.frame) && stack.frame.body.Code?
      modifies this`stack, this`secondary
      ensures primary == Passes(old(stack.frame), ex) && secondary == Record(old(secondary), old(stack.frame), ex)
      ensures handled <==> Catches(old(stack.frame))
      ensures stack == if handled then Above(Caught(old(stack.frame), primary), old(stack.below)) else old(stack)
    {
      var f := stack.frame;
      primary := ex;
      if f.unwinding {
        assert f.body.current.Some?;
        secondary := AddSecondary(secondary, f.body.current.value, ex);
        primary := f.body.current.value;
      }
      var pc := f.body.pc;
      if pc > 0 {
        pc := pc - 1;
      }
      var entry := FindEntry(f.body.tmpl.handlers, pc);
      if entry.None? {
        return false, primary;
      }
      stack := Above(f.(unwinding := true, body := Code(f.body.tmpl, entry.value.target, Some(primary))), stack.below);
      handled := true;
    }

    method UnwindInto(ex: ExceptionId) returns (handled: bool, primary: ExceptionId)
      requires stack.Above? && FrameOk(stack.frame) && CatchStarted(stack.frame)
      modifies this`stack, this`secondary
      ensures primary == Passes(old(stack.frame), ex) && secondary == Record(old(secondary), old(stack.frame), ex)
      ensures handled <==> Catches(old(stack.frame))
      ensures stack == if handled then Above(Caught(old(stack.frame), primary), old(stack.below)) else old(stack)
    {
      match stack.frame.body
      case Resumable(_) => handled, primary := false, ex;
      case Code(_, _, _) => handled, primary := HandleException(ex);
      case Catch(started, _) =>
        assert started;
        stack := Above(stack.frame.(unwinding := true, body := Catch(started, Some(ex))), stack.below);
        handled, primary := true, ex;
    }

    method Unwind(thrown: ExceptionId)
      requires StackOk(stack) && TopStarted(stack)
      modifies this`state, this`stack, this`result, this`secondary
      ensures Now() == Unwound(old(Now()), thrown)
    {
      var ex := thrown;
      while stack.Above?
        invariant StackOk(stack) && TopStarted(stack)
        invariant Unwound(Now(), ex) == Unwound(old(Now()), thrown)
        decreases stack.Depth()
      {
        var handled, primary := UnwindInto(ex);
        if handled {
          return;
        }
        ex := primary;
        PopFrame();
      }
      result := Some(Error(ex));
      state := Done;
    }

    method EnterFunction(callee: Value, count: nat, popOneMore: bool, fault: ExceptionId)
      requires StackOk(stack) && TopStarted(stack)
      requires count + (if popOneMore then 1 else 0) <= |stack.Values()|
      modifies this`state, this`stack, this`result, this`secondary
      ensures Now() == Entered(old(Now()), callee, count, popOneMore, fault)
    {
      var functionRegister: Value := callee;
      var argc: nat := count;
      while functionRegister.BoundMethod?
        invariant StackOk(stack) && TopStarted(stack)
        invariant argc + (if popOneMore then 1 else 0) <= |stack.Values()|
        invariant Entered(Now(), functionRegister, argc, popOneMore, fault) ==
                  Entered(old(Now()), callee, count, popOneMore, fault)
        decreases functionRegister
      {
        var vs := stack.Values();
        var first := |vs| - argc;
        ReplacingValues(stack, vs[..first] + [functionRegister.instance] + vs[first..]);
        stack := stack.WithValues(vs[..first] + [functionRegister.instance] + vs[first..]);
        functionRegister := functionRegister.callee;
        argc := argc + 1;
      }
      PushFrame(functionRegister, argc, popOneMore, fault);
    }

    /** Pushes the frame of a callee that is not a bound method, or panics. */
    method PushFrame(callee: Value, argc: nat, popOneMore: bool, fault: ExceptionId)
      requires StackOk(stack) && TopStarted(stack) && !callee.BoundMethod?
      requires argc + (if popOneMore then 1 else 0) <= |stack.Values()|
      modifies this`state, this`stack, this`result, this`secondary
      ensures Now() == Entered(old(Now()), callee, argc, popOneMore, fault)
    {
      match callee
      case CodeFunction(tmpl) =>
        if tmpl.params != argc {
          Unwind(fault);
        } else {
          stack := Above(Frame(argc, popOneMore, false, Code(tmpl, 0, None), []), stack);
        }
      case NativeFunction(params) =>
        if argc < params {
          Unwind(fault);
        } else {
          stack := Above(Frame(argc, popOneMore, false, Resumable(RESUMABLE_START), []), stack);
        }
      case CatchFunction =>
        if argc < 1 {
          Unwind(fault);
        } else {
          stack := Above(Frame(argc, popOneMore, false, Catch(false, None), []), stack);
        }
      case BoundMethod(_, _) => assert false;
      case Null | Plain(_) | ResultValue(_) => Unwind(fault);
    }

    method CallMethodWith(callee: Value, argc: nat, fault: ExceptionId)
      requires StackOk(stack) && TopStarted(stack) && argc + 1 <= |stack.Values()|
      modifies this`state, this`stack, this`result, this`secondary
      ensures var isMethod := !old(stack).Values()[|old(stack).Values()| - argc - 1].Null?;
              Now() == Entered(old(Now()), callee, argc + (if isMethod then 1 else 0), !isMethod, fault)
    {
      var vs := stack.Values();
      var isMethod := !vs[|vs| - argc - 1].Null?;
      EnterFunction(callee, argc + (if isMethod then 1 else 0), !isMethod, fault);
    }

    /** Executes one instruction; control leaves the interpreter loop when it is a suspension point. */
    method Execute(step: Step) returns (suspended: bool)
      requires Invariant(Now()) && Enabled(Now(), step) && IsCodeStep(step)
      modifies this`state, this`stack, this`result, this`secondary
      ensures Now() == CodeNext(old(Now()), step)
      ensures suspended <==> Suspends(old(Now()), step)
    {
      stack := Above(stack.frame.(body := stack.frame.body.(pc := step.pc)), stack.below);
      suspended := false;
      match step
      case Goto(_) =>
      case Push(_, v) => PushValue(v);
      case PopValue(_, fault) =>
        if stack.Values() == [] {
          Unwind(fault);
          suspended := true;
        } else {
          PopValues(1);
        }
      case Collect(_, count) => PopValues(count);
      case StoreParam(_, index, v) => stack := stack.WithArg(index, v);
      case Throw(_, ex) => Unwind(ex); suspended := true;
      case Rethrow(_) => Unwind(stack.frame.body.current.value); suspended := true;
      case Call(_, callee, argc, fault) => EnterFunction(callee, argc, false, fault); suspended := true;
      case CallMethod(_, callee, argc, fault) => CallMethodWith(callee, argc, fault); suspended := true;
      case Return(_, v) => ReturnFunction(v); suspended := true;
    }

    /** Executes instructions of the top code frame up to a suspension point, or until `script` has no more for it. */
    method RunCode(script: seq<Step>, start: nat) returns (k: nat)
      requires Invariant(Now()) && state.Running? && start < |script|
      requires Enabled(Now(), script[start]) && IsCodeStep(script[start])
      modifies this`state, this`stack, this`result, this`secondary
      ensures (Now(), k) == CodeRun(old(Now()), script, start)
      ensures Invariant(Now()) && (state.Running? || state.Done?)
    {
      k := start;
      ghost var m := Now();
      var suspended := false;
      while !suspended && k < |script| && Enabled(Now(), script[k]) && IsCodeStep(script[k])
        invariant Invariant(Now()) && start <= k <= |script| && (k == start ==> Now() == m && !suspended)
        invariant CodeRun(m, script, start) ==
                  if !suspended && k < |script| && Enabled(Now(), script[k]) && IsCodeStep(script[k])
                  then CodeRun(Now(), script, k) else (Now(), k)
        decreases |script| - k
      {
        StepKeepsInvariant(Now(), script[k]);
        suspended := Execute(script[k]);
        k := k + 1;
      }
      CodeRunEnds(m, script, start);
    }

    /** The native function has returned: the state it left is kept, leftover values are dropped. */
    method FinishInvoke(step: Step)
      requires stack.Above? && stack.frame.body.Resumable? && step.Native?
      modifies this`state, this`stack
      ensures state == step.becomes
      ensures stack == Above(old(stack.frame).(values := [], body := Resumable(step.next)), old(stack.below))
    {
      state := step.becomes;
      stack := Above(stack.frame.(body := Resumable(step.next)), stack.below);
      PopValues(|stack.Values()|);
    }

    /** Carries out what the native function of the top frame asked for. */
    method CarryOut(action: Action, fault: ExceptionId)
      requires StackOk(stack) && stack.Above? && stack.frame.body.Resumable? && stack.Values() == []
      modifies this`state, this`stack, this`result, this`secondary
      ensures Now() == ActionNext(old(Now()), action, fault)
    {
      match action
      case NoAction =>
      case ReturnAction(v) => ReturnFunction(v);
      case PanicAction(ex) => Unwind(ex);
      case InvokeAction(callee, args) =>
        assert stack.Values() + args == args;
        var argc := PushArguments(args);
        EnterFunction(callee, argc, false, fault);
      case YieldAction => state := Waiting;
    }

    /** What follows after the native function returned; it may have left another state than at the start of the step. */
    method Conclude(step: Step, ghost start: Machine)
      requires Invariant(start) && Enabled(start, step) && step.Native? && start.stack.frame.body.state != RESUMABLE_END
      requires Now() == start.(state := state)
      modifies this`state, this`stack, this`result, this`secondary
      ensures Now() == NativeNext(start, step) && Invariant(Now())
      ensures state.Waiting? || state.Done? || state == step.becomes
      ensures step.becomes.Ready? ==> (state.Ready? <==> KeepsState(start, step))
    {
      FinishInvoke(step);
      assert Now() == Invoked(start, step);
      CarryOut(step.action, step.fault);
      StepKeepsInvariant(start, step);
      NativeStepEnds(start, step);
      if step.becomes.Ready? {
        StateSetByNativeIsKept(start, step);
      }
    }

    /** A native function that asked not to be invoked again returns null. */
    method ReturnFromEnd(ghost step: Step)
      requires Invariant(Now()) && Enabled(Now(), step) && step.Native? && stack.frame.body.state == RESUMABLE_END
      modifies this`state, this`stack, this`result, this`secondary
      ensures Now() == NativeNext(old(Now()), step) && Invariant(Now())
      ensures state.Running? || state.Done?
    {
      StepKeepsInvariant(Now(), step);
      ReturnFunction(Null);
    }

    method PushArguments(args: seq<Value>) returns (argc: nat)
      modifies this`stack
      ensures argc == |args| && stack == old(stack).WithValues(old(stack).Values() + args)
    {
      argc := |args|;
      assert stack == stack.WithValues(stack.Values() + args[..0]) by {
        assert stack.Values() + args[..0] == stack.Values();
      }
      for i := 0 to argc
        invariant stack == old(stack).WithValues(old(stack).Values() + args[..i])
      {
        assert (old(stack).Values() + args[..i]) + [args[i]] == old(stack).Values() + args[..i + 1];
        PushValue(args[i]);
      }
      assert args[..argc] == args;
    }

    method RunCatch(step: Step)
      requires Invariant(Now()) && Enabled(Now(), step) && step.RunCatch?
      modifies this`state, this`stack, this`result, this`secondary
      ensures Now() == CatchNext(old(Now()), step) && Invariant(Now())
      ensures state.Running? || state.Done?
    {
      StepKeepsInvariant(Now(), step);
      CatchStepEnds(Now(), step);
      var f := stack.frame;
      if !f.body.started {
        assert !f.unwinding;
        var arg := stack.Arg(0);
        stack := Above(f.(body := f.body.(started := true)), stack.below);
        EnterFunction(arg, 0, false, step.fault);
        return;
      }
      if f.unwinding {
        assert f.body.exception.Some?;
        ReturnFunction(ResultValue(Error(f.body.exception.value)));
        return;
      }
      assert |f.values| > 0;
      ReturnFunction(ResultValue(CallResult.Success(f.values[|f.values| - 1])));
    }

    /** Calls the coroutine's function, or continues where it was blocked. */
    method BeginRun(fault: ExceptionId)
      requires Invariant(Now()) && IsRunnable(state)
      modifies this`state, this`stack, this`result, this`secondary
      ensures Now() == Next(old(Now()), FirstStep(Main(), old(state), fault)) && Invariant(Now())
      ensures state.Running? || state.Done?
    {
      StepKeepsInvariant(Now(), FirstStep(Main(), state, fault));
      FirstStepEnds(Now(), FirstStep(Main(), state, fault));
      if state.Started? {
        var argc := PushArguments(arguments);
        state := Running;
        EnterFunction(callee, argc, false, fault);
      } else {
        state := Running;
      }
    }
  }
}
