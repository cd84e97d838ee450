/**
 What every step does to values, frames and results, in terms of the values and frames themselves:
 src/vm/interpreter.cpp:219-1296.
 */
module StepEffects {
  import opened Common
  import opened CallStack
  import opened Interpreter
  import opened StackInvariant
  import opened CallTheorems
  import opened Coroutines

  // ----- instructions that stay in their frame

  /** Nothing changed but the offset and the values of the top frame. */
  ghost predicate StaysIn(m: Machine, r: Machine, pc: nat, values: seq<Value>)
    requires m.stack.Above? && m.stack.frame.body.Code?
  {
    var f := m.stack.frame;
    r == m.(stack := Above(f.(values := values, body := f.body.(pc := pc)), m.stack.below))
  }

  lemma ValuesOfInstructions(m: Machine, step: Step)
    requires Enabled(m, step) && IsCodeStep(step)
    ensures var vs, n, r := m.stack.frame.values, |m.stack.frame.values|, Next(m, step);
            match step
            case Goto(pc) => StaysIn(m, r, pc, vs)
            case Push(pc, v) => StaysIn(m, r, pc, vs + [v])
            case PopValue(pc, _) => n > 0 ==> StaysIn(m, r, pc, vs[..n - 1])
            case Collect(pc, count) => StaysIn(m, r, pc, vs[..n - count])
            case _ => true
  {
  }

  /** Only one argument of the top frame changes, and it is a value of its caller. */
  lemma StoredParameter(m: Machine, step: Step)
    requires Enabled(m, step) && step.StoreParam? && m.stack.frame.argc <= |m.stack.below.Values()|
    ensures var f, held, r := m.stack.frame, m.stack.below.Values(), Next(m, step);
      && r == m.(stack := r.stack) && r.stack.Above?
      && r.stack.frame == f.(body := f.body.(pc := step.pc))
      && r.stack.below == m.stack.below.WithValues(r.stack.below.Values())
      && |r.stack.below.Values()| == |held|
      && forall i :: 0 <= i < |held| ==>
           r.stack.below.Values()[i] == if i == |held| - f.argc + step.index then step.value else held[i]
  {
  }

  // ----- calls

  /** The instances bound to a callee, in the order of the arguments they become. */
  function Instances(callee: Value): seq<Value> {
    match callee
    case BoundMethod(inner, instance) => Instances(inner) + [instance]
    case _ => []
  }

  function Target(callee: Value): Value {
    match callee
    case BoundMethod(inner, _) => Target(inner)
    case _ => callee
  }

  /** A frame that has not run yet. */
  predicate IsFresh(f: Frame, callee: Value, argc: nat, pop: bool) {
    && f.argc == argc && f.popOneMore == pop && !f.unwinding && f.values == []
    && match callee
       case CodeFunction(tmpl) => f.body == Code(tmpl, 0, None)
       case NativeFunction(_) => f.body == Resumable(RESUMABLE_START)
       case CatchFunction => f.body == Catch(false, None)
       case _ => false
  }

  /**
   The callee was called with these arguments, over the values `rest` of its caller: it has a fresh
   frame, its bound instances in front of the arguments, or the call was refused and panicked.
   */
  ghost predicate Called(r: Machine, at: Machine, rest: seq<Value>, callee: Value, args: seq<Value>, pop: bool, fault: ExceptionId) {
    var held := at.(stack := at.stack.WithValues(rest + Instances(callee) + args));
    if Refuses(callee, |args|) then r == Unwound(held, fault)
    else
      && r == held.(stack := r.stack) && r.stack.Above? && r.stack.below == held.stack
      && IsFresh(r.stack.frame, Target(callee), |Instances(callee)| + |args|, pop)
  }

  lemma {:induction false} EnteringCalls(m: Machine, callee: Value, rest: seq<Value>, args: seq<Value>, pop: bool, fault: ExceptionId)
    requires m.stack.Values() == rest + args
    ensures Called(Entered(m, callee, |args|, pop, fault), m, rest, callee, args, pop, fault)
    decreases callee
  {
    SplitsAt(rest, args);
    if callee.BoundMethod? {
      var more := [callee.instance] + args;
      assert rest + [callee.instance] + args == rest + more;
      assert rest + Instances(callee.callee) + more == rest + Instances(callee) + args;
      EnteringCalls(m.(stack := m.stack.WithValues(rest + more)), callee.callee, rest, more, pop, fault);
    } else {
      assert rest + [] + args == rest + args;
      assert m.stack.WithValues(m.stack.Values()) == m.stack;
    }
  }

  lemma SplitsAt(rest: seq<Value>, args: seq<Value>)
    ensures DropTop(rest + args, |args|) == rest && (rest + args)[|rest|..] == args
  {
  }

  /** The top frame at an offset, with other values. */
  ghost function AtOffset(m: Machine, pc: nat, values: seq<Value>): Machine
    requires m.stack.Above? && m.stack.frame.body.Code?
  {
    m.(stack := Above(m.stack.frame.(values := values, body := m.stack.frame.body.(pc := pc)), m.stack.below))
  }

  lemma InstructionsCall(m: Machine, step: Step)
    requires Enabled(m, step) && step.Call?
    ensures var vs, k := m.stack.frame.values, |m.stack.frame.values| - step.argc;
            Called(Next(m, step), AtOffset(m, step.pc, vs), vs[..k], step.callee, vs[k..], false, step.fault)
  {
    var vs, k := m.stack.frame.values, |m.stack.frame.values| - step.argc;
    assert vs == vs[..k] + vs[k..];
    EnteringCalls(AtPc(m, step.pc), step.callee, vs[..k], vs[k..], false, step.fault);
  }

  /** The receiver is the value below the arguments: the first argument, or null and popped later. */
  lemma MethodsAreCalled(m: Machine, step: Step)
    requires Enabled(m, step) && step.CallMethod?
    ensures var vs, k := m.stack.frame.values, |m.stack.frame.values| - step.argc;
            var at := AtOffset(m, step.pc, vs);
            if vs[k - 1].Null? then Called(Next(m, step), at, vs[..k], step.callee, vs[k..], true, step.fault)
            else Called(Next(m, step), at, vs[..k - 1], step.callee, vs[k - 1..], false, step.fault)
  {
    var vs, k := m.stack.frame.values, |m.stack.frame.values| - step.argc;
    var first, pop := if vs[k - 1].Null? then k else k - 1, vs[k - 1].Null?;
    assert vs == vs[..first] + vs[first..];
    EnteringCalls(AtPc(m, step.pc), step.callee, vs[..first], vs[first..], pop, step.fault);
  }

  lemma NativeCodeCalls(m: Machine, step: Step)
    requires Enabled(m, step) && step.Native? && step.action.InvokeAction? && m.stack.frame.body.state != RESUMABLE_END
    ensures var f, args := m.stack.frame, step.action.args;
            var at := m.(state := step.becomes, stack := Above(f.(values := args, body := Resumable(step.next)), m.stack.below));
            Called(Next(m, step), at, [], step.action.callee, args, false, step.fault)
  {
    var n, args := Invoked(m, step), step.action.args;
    assert [] + args == args;
    EnteringCalls(n.(stack := n.stack.WithValues(args)), step.action.callee, [], args, false, step.fault);
  }

  /** The function to call is the first argument: the topmost value of the caller when it is the only one. */
  lemma CatchFramesCall(m: Machine, step: Step)
    requires Invariant(m) && Enabled(m, step) && step.RunCatch? && !m.stack.frame.body.started
    ensures var f, passed := m.stack.frame, m.stack.below.Values();
            var at := m.(stack := Above(f.(body := Catch(true, f.body.exception)), m.stack.below));
            && 0 < f.argc <= |passed|
            && Called(Next(m, step), at, f.values, passed[|passed| - f.argc], [], false, step.fault)
  {
    var vs := m.stack.frame.values;
    assert vs + [] == vs;
    EnteringCalls(StartedCatch(m), CatchArg(m.stack), vs, [], false, step.fault);
  }

  lemma CoroutinesCallMain(m: Machine, step: Step)
    requires Enabled(m, step) && step.Begin?
    ensures var at := m.(state := Running, stack := m.stack.WithValues(m.stack.Values() + step.args));
            Called(Next(m, step), at, m.stack.Values(), step.callee, step.args, false, step.fault)
  {
    var all := m.stack.Values() + step.args;
    EnteringCalls(m.(state := Running, stack := m.stack.WithValues(all)), step.callee, m.stack.Values(), step.args, false,
                  step.fault);
  }

  // ----- native steps that call nothing

  lemma NativeSteps(m: Machine, step: Step)
    requires Enabled(m, step) && step.Native? && m.stack.frame.body.state != RESUMABLE_END
    ensures var f, r := m.stack.frame, Next(m, step);
            var at := m.(state := step.becomes, stack := Above(f.(values := [], body := Resumable(step.next)), m.stack.below));
            match step.action
            case NoAction => r == at
            case YieldAction => r == at.(state := Waiting)
            case PanicAction(ex) => r == Unwound(at, ex)
            case _ => true
  {
  }

  /** What the instructions that throw unwind with. */
  lemma InstructionsThrow(m: Machine, step: Step)
    requires Invariant(m) && Enabled(m, step)
    ensures match step
            case Throw(pc, ex) => Next(m, step) == Unwound(AtOffset(m, pc, m.stack.frame.values), ex)
            case Rethrow(pc) =>
              && m.stack.frame.body.current.Some?
              && Next(m, step) == Unwound(AtOffset(m, pc, m.stack.frame.values), m.stack.frame.body.current.value)
            case PopValue(pc, fault) =>
              m.stack.frame.values == [] ==> Next(m, step) == Unwound(AtOffset(m, pc, []), fault)
            case _ => true
  {
  }

  // ----- returns and completion

  /** A value that is returned replaces the arguments of the frame, or is the result of the coroutine. */
  lemma ReturnsGiveTheValue(m: Machine, step: Step, v: Value)
    requires Invariant(m) && Enabled(m, step) && ReturnsWith(m, step, v)
    ensures var below, vs, pops, r := m.stack.below, m.stack.below.Values(), m.stack.frame.Pops(), Next(m, step);
      && r.secondary == m.secondary
      && if below.Bottom? then r.state.Done? && r.result == Some(CallResult.Success(v)) && r.stack.Bottom?
         else r.result.None? && pops <= |vs| && r.stack == below.WithValues(vs[..|vs| - pops] + [v])
  {
  }

  /** Where a step panics and with what: by throwing, or because the callee refuses the call. */
  ghost function Failing(m: Machine, step: Step): Option<(Machine, ExceptionId)>
    requires Enabled(m, step)
  {
    if Thrown(m, step).Some? then Thrown(m, step)
    else if Attempted(m, step).Some? && Refuses(Attempted(m, step).value.callee, Attempted(m, step).value.argc) then
      var a := Attempted(m, step).value;
      var vs := a.at.stack.Values();
      var rest := DropTop(vs, a.argc);
      Some((a.at.(stack := a.at.stack.WithValues(rest + Instances(a.callee) + vs[|rest|..])), a.fault))
    else None
  }

  lemma FailingUnwinds(m: Machine, step: Step)
    requires Invariant(m) && Enabled(m, step) && Failing(m, step).Some?
    ensures Next(m, step) == Unwound(Failing(m, step).value.0, Failing(m, step).value.1)
  {
    StepKinds(m, step);
    if Thrown(m, step).None? {
      var a := Attempted(m, step).value;
      var vs := a.at.stack.Values();
      AttemptsHaveArguments(m, step);
      assert vs == DropTop(vs, a.argc) + vs[|vs| - a.argc..];
      EnteringCalls(a.at, a.callee, DropTop(vs, a.argc), vs[|vs| - a.argc..], a.popOneMore, a.fault);
    }
  }

  lemma AttemptsHaveArguments(m: Machine, step: Step)
    requires Invariant(m) && Enabled(m, step) && Attempted(m, step).Some?
    ensures Attempted(m, step).value.argc <= |Attempted(m, step).value.at.stack.Values()|
  {
  }

  /** The panic leaves all frames, and the coroutine has its primary exception as error. */
  ghost predicate CompletesWithError(at: Machine, ex: ExceptionId, r: Machine) {
    && !SomeoneCatches(at.stack) && r.state.Done?
    && exists primary :: IsPrimary(at.stack, 0, ex, primary) && r.result == Some(Error(primary))
  }

  lemma PanicsComplete(at: Machine, ex: ExceptionId)
    requires !at.state.Done?
    ensures Unwound(at, ex).state.Done? <==> CompletesWithError(at, ex, Unwound(at, ex))
  {
    var k, primary := UnwindingMeaning(at, ex);
    UncaughtCompletes(at, ex);
  }

  /** The step is a return of the only frame. */
  ghost predicate ReturnsFromMain(m: Machine, step: Step)
    requires Enabled(m, step)
  {
    m.stack.Depth() == 1 && exists v :: ReturnsWith(m, step, v)
  }

  lemma ReturnFromMain(m: Machine, step: Step, v: Value)
    requires Invariant(m) && Enabled(m, step) && ReturnsWith(m, step, v)
    ensures ReturnsFromMain(m, step) <==> m.stack.Depth() == 1
    ensures Next(m, step).state.Done? <==> m.stack.Depth() == 1
  {
  }

  lemma OnlyReturnsComplete(m: Machine, step: Step)
    requires Invariant(m) && Enabled(m, step) && Attempted(m, step).None? && Thrown(m, step).None?
    ensures Next(m, step).state.Done? <==> ReturnsFromMain(m, step)
  {
    match step
    case Return(_, v) => ReturnFromMain(m, step, v);
    case Native(_, _, action, _) =>
      if m.stack.frame.body.state == RESUMABLE_END {
        ReturnFromMain(m, step, Null);
      } else if action.ReturnAction? {
        ReturnFromMain(m, step, action.value);
      }
    case RunCatch(_) =>
      var f := m.stack.frame;
      ReturnFromMain(m, step, ResultValue(if f.unwinding then Error(f.body.exception.value)
                                          else CallResult.Success(f.values[|f.values| - 1])));
    case _ =>
  }

  lemma CallsReturnNothing(m: Machine, step: Step)
    requires Invariant(m) && Enabled(m, step) && (Attempted(m, step).Some? || Thrown(m, step).Some?)
    ensures !ReturnsFromMain(m, step)
  {
  }

  /**
   A coroutine completes exactly when its only frame returns, with the value returned as result, or
   when a panic leaves all frames, with the exception that arrives.
   */
  lemma CompletionIsExact(m: Machine, step: Step)
    requires Invariant(m) && Enabled(m, step)
    ensures var r, fails := Next(m, step), Failing(m, step);
            if fails.Some? then r.state.Done? <==> CompletesWithError(fails.value.0, fails.value.1, r)
            else r.state.Done? <==> ReturnsFromMain(m, step)
    ensures forall v :: m.stack.Depth() == 1 && ReturnsWith(m, step, v) ==> Next(m, step).result == Some(CallResult.Success(v))
  {
    forall v | m.stack.Depth() == 1 && ReturnsWith(m, step, v)
      ensures Next(m, step).result == Some(CallResult.Success(v))
    {
      ReturnsGiveTheValue(m, step, v);
    }
    if Failing(m, step).Some? {
      FailingUnwinds(m, step);
      PanicsComplete(Failing(m, step).value.0, Failing(m, step).value.1);
    } else if Attempted(m, step).Some? {
      var a := Attempted(m, step).value;
      StepKinds(m, step);
      RefusalsUnwind(a.at, a.callee, a.argc, a.popOneMore, a.fault);
      CallsReturnNothing(m, step);
    } else {
      OnlyReturnsComplete(m, step);
    }
  }

  /** The same over whole runs. */
  lemma CompletedRuns(m: Machine, steps: seq<Step>, last: Step)
    requires Invariant(m) && Allowed(m, steps) && Enabled(RunAll(m, steps), last)
    ensures var n := RunAll(m, steps);
            Allowed(m, steps + [last]) &&
            var r, fails := RunAll(m, steps + [last]), Failing(n, last);
            && (r.state.Done? <==> if fails.Some? then CompletesWithError(fails.value.0, fails.value.1, r)
                                   else ReturnsFromMain(n, last))
            && forall v :: n.stack.Depth() == 1 && ReturnsWith(n, last, v) ==> r.result == Some(CallResult.Success(v))
  {
    RunsKeepInvariant(m, steps);
    RunOneMore(m, steps, last);
    CompletionIsExact(RunAll(m, steps), last);
  }

  // ----- what catch returns

  /** A panic that arrives at a catch frame is returned by it as an error: the exception that arrives. */
  lemma CatchReturnsThePanic(m: Machine, ex: ExceptionId, k: nat, fault: ExceptionId) returns (primary: ExceptionId)
    requires m.state.Running? && YoungestCatcher(m.stack, k) && k > 0
    requires At(m.stack, k).frame.body.Catch? && At(m.stack, k).frame.body.started
    ensures var r := Unwound(m, ex);
      && IsPrimary(m.stack, k, ex, primary)
      && Enabled(r, RunCatch(fault)) && ReturnsWith(r, RunCatch(fault), ResultValue(Error(primary)))
  {
    var j: nat;
    j, primary := UnwindingMeaning(m, ex);
    assert j == k;
  }

  /** What the function called by a catch frame returns is returned by the frame as a success. */
  lemma CatchReturnsTheValue(m: Machine, call: Step, steps: seq<Step>, last: Step, v: Value, fault: ExceptionId)
    requires Invariant(m) && Enabled(m, call) && call.RunCatch? && !m.stack.frame.body.started
    requires Inside(Next(m, call), steps, m.stack.Depth())
    requires var n := Run(Next(m, call), steps, m.stack.Depth());
             n.stack.Depth() == m.stack.Depth() + 1 && Enabled(n, last) && ReturnsWith(n, last, v)
    ensures var r := Next(Run(Next(m, call), steps, m.stack.Depth()), last);
            r.state.Running? ==>
              Enabled(r, RunCatch(fault)) && ReturnsWith(r, RunCatch(fault), ResultValue(CallResult.Success(v)))
  {
    CallsAreBalanced(m, call, steps, last, v);
  }

  // ----- leaving the loop

  /** An instruction leaves the loop exactly when it calls, throws or returns. */
  lemma SuspendsExactly(m: Machine, step: Step)
    requires Enabled(m, step) && IsCodeStep(step)
    ensures Suspends(m, step) <==>
              Attempted(m, step).Some? || Thrown(m, step).Some? || exists v :: ReturnsWith(m, step, v)
  {
    if step.Return? {
      assert ReturnsWith(m, step, step.value);
    }
  }
}
