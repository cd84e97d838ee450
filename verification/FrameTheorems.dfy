/** Assumptions of the interpreter that its code does not enforce, and exactly when they hold. */
module FrameTheorems {
  import opened Common
  import opened CallStack
  import opened Interpreter
  import opened StackInvariant
  import opened CallTheorems

  // ----- every catch frame has one argument: src/vm/interpreter.cpp:1090

  ghost predicate OneArgument(st: Stack) {
    st.Above? ==> (st.frame.body.Catch? ==> st.frame.argc == 1) && OneArgument(st.below)
  }

  /** The call enters a catch frame with more than one argument; every bound method adds one. */
  predicate Overfed(callee: Value, argc: nat) {
    match callee
    case BoundMethod(inner, _) => Overfed(inner, argc + 1)
    case CatchFunction => argc > 1
    case _ => false
  }

  lemma OneArgumentWithValues(st: Stack, values: seq<Value>)
    ensures OneArgument(st.WithValues(values)) == OneArgument(st)
  {
  }

  lemma {:induction false} UnwindingKeepsOneArgument(m: Machine, ex: ExceptionId)
    requires OneArgument(m.stack)
    ensures OneArgument(Unwound(m, ex).stack)
    decreases m.stack.Depth()
  {
    if m.stack.Above? && !Catches(m.stack.frame) {
      var f := m.stack.frame;
      OneArgumentWithValues(m.stack.below, m.stack.PopFrame().Values());
      UnwindingKeepsOneArgument(m.(secondary := Record(m.secondary, f, ex), stack := m.stack.PopFrame()), Passes(f, ex));
    }
  }

  lemma {:induction false} EnteringKeepsOneArgument(m: Machine, callee: Value, argc: nat, pop: bool, fault: ExceptionId)
    requires OneArgument(m.stack)
    ensures OneArgument(Entered(m, callee, argc, pop, fault).stack) <==> !Overfed(callee, argc)
    decreases callee
  {
    UnwindingKeepsOneArgument(m, fault);
    if callee.BoundMethod? {
      var vs := m.stack.Values();
      var args := DropTop(vs, argc) + [callee.instance] + vs[|DropTop(vs, argc)|..];
      OneArgumentWithValues(m.stack, args);
      EnteringKeepsOneArgument(m.(stack := m.stack.WithValues(args)), callee.callee, argc + 1, pop, fault);
    }
  }

  lemma ReturningKeepsOneArgument(m: Machine, v: Value)
    requires m.stack.Above? && OneArgument(m.stack)
    ensures OneArgument(Returned(m, v).stack)
  {
    var below := m.stack.PopFrame();
    OneArgumentWithValues(m.stack.below, below.Values());
    OneArgumentWithValues(below, below.Values() + [v]);
  }

  ghost predicate Overfeeds(m: Machine, step: Step)
    requires Enabled(m, step)
  {
    Attempted(m, step).Some? && Overfed(Attempted(m, step).value.callee, Attempted(m, step).value.argc)
  }

  /** A step keeps the assumption exactly when it does not call a catch function with more than one argument. */
  lemma StepKeepsOneArgument(m: Machine, step: Step)
    requires Enabled(m, step) && OneArgument(m.stack)
    ensures OneArgument(Next(m, step).stack) <==> !Overfeeds(m, step)
  {
    StepKinds(m, step);
    if Attempted(m, step).Some? {
      var a := Attempted(m, step).value;
      EnteringKeepsOneArgument(a.at, a.callee, a.argc, a.popOneMore, a.fault);
    } else if Thrown(m, step).Some? {
      UnwindingKeepsOneArgument(Thrown(m, step).value.0, Thrown(m, step).value.1);
    } else {
      QuietStepKeepsOneArgument(m, step);
    }
  }

  lemma QuietStepKeepsOneArgument(m: Machine, step: Step)
    requires Enabled(m, step) && OneArgument(m.stack) && Attempted(m, step).None? && Thrown(m, step).None?
    ensures OneArgument(Next(m, step).stack)
  {
    match step
    case Return(pc, v) => ReturningKeepsOneArgument(AtPc(m, pc), v);
    case StoreParam(pc, index, v) =>
      var st := AtPc(m, pc).stack;
      if st.frame.argc <= |st.below.Values()| {
        OneArgumentWithValues(st.below, st.WithArg(index, v).below.Values());
      }
    case RunCatch(_) =>
      var f := m.stack.frame;
      ReturningKeepsOneArgument(m, ResultValue(Error(if f.body.exception.Some? then f.body.exception.value else 0)));
      ReturningKeepsOneArgument(m, ResultValue(CallResult.Success(if f.values == [] then Null else f.values[|f.values| - 1])));
    case Native(_, _, action, _) =>
      if m.stack.frame.body.state == RESUMABLE_END {
        ReturningKeepsOneArgument(m, Null);
      } else if action.ReturnAction? {
        ReturningKeepsOneArgument(Invoked(m, step), action.value);
      }
    case _ =>
  }

  /** The assumption holds before every step of a run, and at its end. */
  ghost predicate AlwaysOneArgument(m: Machine, steps: seq<Step>)
    requires Allowed(m, steps)
    decreases |steps|
  {
    OneArgument(m.stack) && (steps != [] ==> AlwaysOneArgument(Next(m, steps[0]), steps[1..]))
  }

  ghost predicate NeverOverfeeds(m: Machine, steps: seq<Step>)
    requires Allowed(m, steps)
    decreases |steps|
  {
    steps != [] ==> !Overfeeds(m, steps[0]) && NeverOverfeeds(Next(m, steps[0]), steps[1..])
  }

  /** Over whole runs: every catch frame has one argument throughout, exactly when no step overfeeds one. */
  lemma {:induction false} RunsKeepOneArgument(m: Machine, steps: seq<Step>)
    requires Allowed(m, steps) && OneArgument(m.stack)
    ensures AlwaysOneArgument(m, steps) <==> NeverOverfeeds(m, steps)
    decreases |steps|
  {
    if steps != [] {
      StepKeepsOneArgument(m, steps[0]);
      if !Overfeeds(m, steps[0]) {
        RunsKeepOneArgument(Next(m, steps[0]), steps[1..]);
      }
    }
  }

  /** A function that calls the catch function with two arguments: the frame about to be run has two. */
  lemma CatchMayHaveTwoArguments() returns (m: Machine, call: Step)
    ensures Invariant(m) && OneArgument(m.stack) && Enabled(m, call) && call.Call?
    ensures Enabled(Next(m, call), RunCatch(0)) && Next(m, call).stack.frame.argc == 2
  {
    var f := Frame(0, false, false, Code(CodeTemplate(0, []), 0, None), [Null, Null]);
    m := Machine(Running, Above(f, Bottom([])), None, map[]);
    call := Call(1, CatchFunction, 2, 0);
    assert Next(m, call).stack.frame == Frame(2, false, false, Catch(false, None), []);
  }

  // ----- whether the main function is native: src/vm/builtins/std.cpp:157-159

  /** The oldest frame, that of the main function, is a native one. */
  ghost predicate NativeMain(st: Stack) {
    st.Above? && if st.below.Bottom? then st.frame.body.Resumable? else NativeMain(st.below)
  }

  predicate IsNative(callee: Value) {
    match callee
    case BoundMethod(inner, _) => IsNative(inner)
    case NativeFunction(_) => true
    case _ => false
  }

  /** While there are frames, they are those of the same main function as before. */
  ghost predicate SameMain(before: Stack, after: Stack) {
    after.Above? ==> NativeMain(after) == NativeMain(before)
  }

  lemma MainWithValues(st: Stack, values: seq<Value>)
    ensures NativeMain(st.WithValues(values)) == NativeMain(st)
  {
  }

  lemma {:induction false} UnwindingKeepsMain(m: Machine, ex: ExceptionId)
    ensures SameMain(m.stack, Unwound(m, ex).stack)
    decreases m.stack.Depth()
  {
    if m.stack.Above? && !Catches(m.stack.frame) {
      var f := m.stack.frame;
      MainWithValues(m.stack.below, m.stack.PopFrame().Values());
      UnwindingKeepsMain(m.(secondary := Record(m.secondary, f, ex), stack := m.stack.PopFrame()), Passes(f, ex));
    }
  }

  lemma {:induction false} EnteringKeepsMain(m: Machine, callee: Value, argc: nat, pop: bool, fault: ExceptionId)
    ensures var after := Entered(m, callee, argc, pop, fault).stack;
            if m.stack.Above? then SameMain(m.stack, after) else after.Above? ==> (NativeMain(after) <==> IsNative(callee))
    decreases callee
  {
    UnwindingKeepsMain(m, fault);
    if m.stack.Bottom? {
      assert Unwound(m, fault).stack.Bottom?;
    }
    if callee.BoundMethod? {
      var vs := m.stack.Values();
      var args := DropTop(vs, argc) + [callee.instance] + vs[|DropTop(vs, argc)|..];
      MainWithValues(m.stack, args);
      EnteringKeepsMain(m.(stack := m.stack.WithValues(args)), callee.callee, argc + 1, pop, fault);
    }
  }

  lemma ReturningKeepsMain(m: Machine, v: Value)
    requires m.stack.Above?
    ensures SameMain(m.stack, Returned(m, v).stack)
  {
    var below := m.stack.PopFrame();
    MainWithValues(m.stack.below, below.Values());
    MainWithValues(below, below.Values() + [v]);
  }

  ghost predicate BringsNativeMain(m: Machine, step: Step) {
    m.stack.Bottom? && step.Begin? && IsNative(step.callee)
  }

  /** The main function is native exactly when it was before the step, or when the step enters a native one first. */
  lemma StepKeepsMain(m: Machine, step: Step)
    requires Enabled(m, step)
    ensures Next(m, step).stack.Above? ==> (NativeMain(Next(m, step).stack) <==> NativeMain(m.stack) || BringsNativeMain(m, step))
  {
    StepKinds(m, step);
    if Attempted(m, step).Some? {
      var a := Attempted(m, step).value;
      EnteringKeepsMain(a.at, a.callee, a.argc, a.popOneMore, a.fault);
    } else if Thrown(m, step).Some? {
      UnwindingKeepsMain(Thrown(m, step).value.0, Thrown(m, step).value.1);
    } else {
      QuietStepKeepsMain(m, step);
    }
  }

  lemma QuietStepKeepsMain(m: Machine, step: Step)
    requires Enabled(m, step) && Attempted(m, step).None? && Thrown(m, step).None?
    ensures SameMain(m.stack, Next(m, step).stack)
  {
    match step
    case Return(pc, v) => ReturningKeepsMain(AtPc(m, pc), v);
    case StoreParam(pc, index, v) =>
      var st := AtPc(m, pc).stack;
      if st.frame.argc <= |st.below.Values()| {
        MainWithValues(st.below, st.WithArg(index, v).below.Values());
      }
    case RunCatch(_) =>
      var f := m.stack.frame;
      ReturningKeepsMain(m, ResultValue(Error(if f.body.exception.Some? then f.body.exception.value else 0)));
      ReturningKeepsMain(m, ResultValue(CallResult.Success(if f.values == [] then Null else f.values[|f.values| - 1])));
    case Native(_, _, action, _) =>
      if m.stack.frame.body.state == RESUMABLE_END {
        ReturningKeepsMain(m, Null);
      } else if action.ReturnAction? {
        ReturningKeepsMain(Invoked(m, step), action.value);
      }
    case _ =>
  }

  /** A coroutine whose main function is not native never gets one. */
  lemma {:induction false} RunsKeepMain(m: Machine, steps: seq<Step>)
    requires Allowed(m, steps) && !NativeMain(m.stack)
    requires forall k :: 0 <= k < |steps| && steps[k].Begin? ==> !IsNative(steps[k].callee)
    ensures !NativeMain(RunAll(m, steps).stack)
    decreases |steps|
  {
    if steps != [] {
      StepKeepsMain(m, steps[0]);
      RunsKeepMain(Next(m, steps[0]), steps[1..]);
    }
  }

  // ----- no exception is its own secondary exception: src/vm/interpreter.cpp:802-806

  ghost predicate NoneIsItsOwn(all: Secondaries) {
    forall p :: p in all ==> p !in all[p]
  }

  /** Some frame that is reached is in the middle of unwinding with the very exception that arrives there. */
  ghost predicate MeetsItself(st: Stack, ex: ExceptionId) {
    && st.Above?
    && ((Busy(st.frame) && st.frame.body.current.value == ex)
        || (!Catches(st.frame) && MeetsItself(st.below, Passes(st.frame, ex))))
  }

  lemma MeetsWithValues(st: Stack, values: seq<Value>, ex: ExceptionId)
    ensures MeetsItself(st.WithValues(values), ex) == MeetsItself(st, ex)
  {
  }

  lemma AddingItself(all: Secondaries, p: ExceptionId, ex: ExceptionId)
    ensures p == ex ==> !NoneIsItsOwn(AddSecondary(all, p, ex))
    ensures p != ex && NoneIsItsOwn(all) ==> NoneIsItsOwn(AddSecondary(all, p, ex))
  {
    var r := AddSecondary(all, p, ex);
    assert p in r && r[p][|r[p]| - 1] == ex;
  }

  lemma OwnStays(a: Secondaries, b: Secondaries)
    requires Grows(a, b) && !NoneIsItsOwn(a)
    ensures !NoneIsItsOwn(b)
  {
    var p :| p in a && p in a[p];
    assert p in b[p];
  }

  /** Unwinding adds an exception to its own list exactly when it meets itself in a frame that is reached. */
  lemma {:induction false} UnwindingAndItself(m: Machine, ex: ExceptionId)
    requires NoneIsItsOwn(m.secondary)
    ensures NoneIsItsOwn(Unwound(m, ex).secondary) <==> !MeetsItself(m.stack, ex)
    decreases m.stack.Depth()
  {
    if m.stack.Above? {
      var f := m.stack.frame;
      var next := m.(secondary := Record(m.secondary, f, ex), stack := m.stack.PopFrame());
      if Busy(f) {
        AddingItself(m.secondary, f.body.current.value, ex);
      }
      if !Catches(f) {
        MeetsWithValues(m.stack.below, next.stack.Values(), Passes(f, ex));
        if NoneIsItsOwn(next.secondary) {
          UnwindingAndItself(next, Passes(f, ex));
        } else {
          UnwindingGrows(next, Passes(f, ex));
          OwnStays(next.secondary, Unwound(m, ex).secondary);
        }
      }
    }
  }

  lemma {:induction false} EnteringAndItself(m: Machine, callee: Value, argc: nat, pop: bool, fault: ExceptionId)
    requires NoneIsItsOwn(m.secondary)
    ensures NoneIsItsOwn(Entered(m, callee, argc, pop, fault).secondary) <==>
              !(Refuses(callee, argc) && MeetsItself(m.stack, fault))
    decreases callee
  {
    UnwindingAndItself(m, fault);
    if callee.BoundMethod? {
      var vs := m.stack.Values();
      var args := DropTop(vs, argc) + [callee.instance] + vs[|DropTop(vs, argc)|..];
      MeetsWithValues(m.stack, args, fault);
      EnteringAndItself(m.(stack := m.stack.WithValues(args)), callee.callee, argc + 1, pop, fault);
    }
  }

  /** The step throws an exception that meets itself. */
  ghost predicate ThrowsItself(m: Machine, step: Step)
    requires Enabled(m, step)
  {
    var a, t := Attempted(m, step), Thrown(m, step);
    || (a.Some? && Refuses(a.value.callee, a.value.argc) && MeetsItself(a.value.at.stack, a.value.fault))
    || (t.Some? && MeetsItself(t.value.0.stack, t.value.1))
  }

  /** A step makes an exception its own secondary exception exactly when it throws one that meets itself. */
  lemma StepAndItself(m: Machine, step: Step)
    requires Enabled(m, step) && NoneIsItsOwn(m.secondary)
    ensures NoneIsItsOwn(Next(m, step).secondary) <==> !ThrowsItself(m, step)
  {
    StepKinds(m, step);
    if Attempted(m, step).Some? {
      var a := Attempted(m, step).value;
      EnteringAndItself(a.at, a.callee, a.argc, a.popOneMore, a.fault);
    } else if Thrown(m, step).Some? {
      UnwindingAndItself(Thrown(m, step).value.0, Thrown(m, step).value.1);
    }
  }

  lemma StepsOnlyRecord(m: Machine, step: Step)
    requires Enabled(m, step)
    ensures Grows(m.secondary, Next(m, step).secondary)
  {
    StepKinds(m, step);
    if Attempted(m, step).Some? {
      var a := Attempted(m, step).value;
      EnteringGrows(a.at, a.callee, a.argc, a.popOneMore, a.fault);
    } else if Thrown(m, step).Some? {
      UnwindingGrows(Thrown(m, step).value.0, Thrown(m, step).value.1);
    }
  }

  lemma {:induction false} EnteringGrows(m: Machine, callee: Value, argc: nat, pop: bool, fault: ExceptionId)
    ensures Grows(m.secondary, Entered(m, callee, argc, pop, fault).secondary)
    decreases callee
  {
    UnwindingGrows(m, fault);
    if callee.BoundMethod? {
      var vs := m.stack.Values();
      var args := DropTop(vs, argc) + [callee.instance] + vs[|DropTop(vs, argc)|..];
      EnteringGrows(m.(stack := m.stack.WithValues(args)), callee.callee, argc + 1, pop, fault);
    }
  }

  lemma {:induction false} RunsOnlyRecord(m: Machine, steps: seq<Step>)
    requires Allowed(m, steps)
    ensures Grows(m.secondary, RunAll(m, steps).secondary)
    decreases |steps|
  {
    if steps != [] {
      StepsOnlyRecord(m, steps[0]);
      RunsOnlyRecord(Next(m, steps[0]), steps[1..]);
    }
  }

  ghost predicate NeverThrowsItself(m: Machine, steps: seq<Step>)
    requires Allowed(m, steps)
    decreases |steps|
  {
    steps != [] ==> !ThrowsItself(m, steps[0]) && NeverThrowsItself(Next(m, steps[0]), steps[1..])
  }

  /** Over whole runs: no exception ends up in its own list, exactly when no step throws one that meets itself. */
  lemma {:induction false} RunsAndItself(m: Machine, steps: seq<Step>)
    requires Allowed(m, steps) && NoneIsItsOwn(m.secondary)
    ensures NoneIsItsOwn(RunAll(m, steps).secondary) <==> NeverThrowsItself(m, steps)
    decreases |steps|
  {
    if steps != [] {
      var next := Next(m, steps[0]);
      StepAndItself(m, steps[0]);
      if NoneIsItsOwn(next.secondary) {
        RunsAndItself(next, steps[1..]);
      } else {
        RunsOnlyRecord(next, steps[1..]);
        OwnStays(next.secondary, RunAll(m, steps).secondary);
      }
    }
  }

  /** Rethrowing always does, and so does throwing the exception that a frame is unwinding with. */
  lemma RethrowingMeetsItself(m: Machine, step: Step)
    requires Invariant(m) && Enabled(m, step)
    requires step.Rethrow? || (step.Throw? && Busy(m.stack.frame) && step.ex == m.stack.frame.body.current.value)
    ensures ThrowsItself(m, step)
    ensures NoneIsItsOwn(m.secondary) ==> !NoneIsItsOwn(Next(m, step).secondary)
  {
    if NoneIsItsOwn(m.secondary) {
      StepAndItself(m, step);
    }
  }
}
