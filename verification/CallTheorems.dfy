/** Unwinding stops at the right frame, and calls leave the caller's values balanced. */
module CallTheorems {
  import opened Common
  import opened CallStack
  import opened Interpreter
  import opened StackInvariant

  /** The part of the stack that is d frames deep. */
  ghost function At(st: Stack, d: nat): (r: Stack)
    requires d <= st.Depth()
    ensures r.Depth() == d
  {
    if st.Depth() == d then st else At(st.below, d)
  }

  // ----- unwinding

  /** An earlier exception is already being unwound through this frame. */
  ghost predicate Busy(f: Frame) {
    f.body.Code? && f.unwinding && f.body.current.Some?
  }

  /** The values that stay in the part d frames deep when all younger frames are removed. */
  ghost function Kept(st: Stack, d: nat): seq<Value>
    requires d <= st.Depth()
  {
    if d == st.Depth() then st.Values() else DropTop(At(st, d).Values(), At(st, d + 1).frame.Pops())
  }

  /** k is the depth of the youngest frame that catches, or 0. */
  ghost predicate YoungestCatcher(st: Stack, k: nat) {
    && k <= st.Depth()
    && (k > 0 ==> Catches(At(st, k).frame))
    && (forall j :: k < j <= st.Depth() ==> !Catches(At(st, j).frame))
  }

  /** The frame j deep is the oldest busy one among those at least k deep. */
  ghost predicate OldestBusy(st: Stack, k: nat, j: nat) {
    && 0 < j <= st.Depth() && k <= j
    && Busy(At(st, j).frame)
    && forall i :: 0 < i < j && k <= i ==> !Busy(At(st, i).frame)
  }

  ghost predicate NoneBusy(st: Stack, k: nat) {
    forall j :: 0 < j <= st.Depth() && k <= j ==> !Busy(At(st, j).frame)
  }

  /** The exception that arrives: that of the oldest busy frame passed, or else the one thrown. */
  ghost predicate IsPrimary(st: Stack, k: nat, ex: ExceptionId, primary: ExceptionId)
    requires k <= st.Depth()
  {
    || (primary == ex && NoneBusy(st, k))
    || exists j :: OldestBusy(st, k, j) && primary == At(st, j).frame.body.current.value
  }

  lemma {:induction false} WithValuesAt(st: Stack, values: seq<Value>, d: nat)
    requires d <= st.Depth()
    ensures At(st.WithValues(values), d) ==
            if d == st.Depth() then At(st, d).WithValues(values) else At(st, d)
  {
  }

  /** Removing the top frame changes the frames below in their values only. */
  lemma PoppedAt(st: Stack, d: nat)
    requires st.Above? && 0 < d < st.Depth()
    ensures At(st.PopFrame(), d).below == At(st, d).below
    ensures At(st.PopFrame(), d).frame == At(st, d).frame.(values := At(st.PopFrame(), d).Values())
  {
    WithValuesAt(st.below, DropTop(st.below.Values(), st.frame.Pops()), d);
  }

  lemma PoppedCatcher(st: Stack, k: nat)
    requires st.Above? && !Catches(st.frame) && YoungestCatcher(st.PopFrame(), k)
    ensures YoungestCatcher(st, k)
  {
    forall j: nat | 0 < j < st.Depth() ensures Catches(At(st, j).frame) == Catches(At(st.PopFrame(), j).frame) {
      PoppedAt(st, j);
    }
  }

  lemma PoppedKept(st: Stack, k: nat)
    requires st.Above? && k < st.Depth()
    ensures Kept(st.PopFrame(), k) == Kept(st, k)
  {
    var values := DropTop(st.below.Values(), st.frame.Pops());
    WithValuesAt(st.below, values, k);
    if k + 1 < st.Depth() {
      WithValuesAt(st.below, values, k + 1);
    } else {
      assert At(st, k) == st.below;
    }
  }

  lemma PoppedBusy(st: Stack)
    requires st.Above?
    ensures forall j: nat :: 0 < j < st.Depth() ==>
              && At(st.PopFrame(), j).frame.body == At(st, j).frame.body
              && Busy(At(st.PopFrame(), j).frame) == Busy(At(st, j).frame)
  {
    forall j: nat | 0 < j < st.Depth()
      ensures At(st.PopFrame(), j).frame.body == At(st, j).frame.body
      ensures Busy(At(st.PopFrame(), j).frame) == Busy(At(st, j).frame)
    {
      PoppedAt(st, j);
    }
  }

  lemma PoppedPrimary(st: Stack, k: nat, ex: ExceptionId, primary: ExceptionId)
    requires st.Above? && k < st.Depth() && IsPrimary(st.PopFrame(), k, Passes(st.frame, ex), primary)
    ensures IsPrimary(st, k, ex, primary)
  {
    var popped, n := st.PopFrame(), st.Depth();
    PoppedBusy(st);
    assert At(st, n) == st;
    if NoneBusy(popped, k) {
      assert Busy(st.frame) ==> OldestBusy(st, k, n);
      assert !Busy(st.frame) ==> NoneBusy(st, k);
    } else {
      var j :| OldestBusy(popped, k, j) && primary == At(popped, j).frame.body.current.value;
      assert OldestBusy(st, k, j);
    }
  }

  /** A recorded exception is never dropped from a list of secondary exceptions. */
  ghost predicate Grows(a: Secondaries, b: Secondaries) {
    forall p :: p in a ==> p in b && a[p] <= b[p]
  }

  ghost predicate Recorded(all: Secondaries, ex: ExceptionId) {
    exists p :: p in all && ex in all[p]
  }

  lemma AddingGrows(all: Secondaries, primary: ExceptionId, ex: ExceptionId)
    ensures Grows(all, AddSecondary(all, primary, ex)) && Recorded(AddSecondary(all, primary, ex), ex)
  {
    var r := AddSecondary(all, primary, ex);
    assert primary in r && r[primary][|r[primary]| - 1] == ex;
  }

  lemma GrowingKeeps(a: Secondaries, b: Secondaries, ex: ExceptionId)
    requires Grows(a, b) && Recorded(a, ex)
    ensures Recorded(b, ex)
  {
    var p :| p in a && ex in a[p];
    assert ex in b[p];
  }

  lemma {:induction false} UnwindingGrows(m: Machine, ex: ExceptionId)
    ensures Grows(m.secondary, Unwound(m, ex).secondary)
    decreases m.stack.Depth()
  {
    if m.stack.Above? {
      var f := m.stack.frame;
      var recorded := Record(m.secondary, f, ex);
      if Busy(f) {
        AddingGrows(m.secondary, f.body.current.value, ex);
      }
      if !Catches(f) {
        UnwindingGrows(m.(secondary := recorded, stack := m.stack.PopFrame()), Passes(f, ex));
      }
    }
  }

  /** The frame goes on with the exception: at the handler's target, or for a catch frame to return it. */
  ghost predicate GoesOnWith(now: Frame, f: Frame, values: seq<Value>, primary: ExceptionId) {
    && now.unwinding && now.argc == f.argc && now.popOneMore == f.popOneMore && now.values == values
    && match f.body
       case Code(tmpl, _, _) =>
         now.body.Code? && now.body.tmpl == tmpl && HandlerOf(f) == Some(now.body.pc) && now.body.current == Some(primary)
       case Catch(started, _) => now.body == Catch(started, Some(primary))
       case Resumable(_) => false
  }

  /**
   unwind() resumes in the youngest frame that catches, or completes the coroutine with the error.
   The panic, and every exception in flight in a frame passed, arrives as the primary exception or is
   kept as a secondary one.
   */
  lemma {:induction false} UnwindingMeaning(m: Machine, ex: ExceptionId) returns (k: nat, primary: ExceptionId)
    ensures YoungestCatcher(m.stack, k) && IsPrimary(m.stack, k, ex, primary)
    ensures var r := Unwound(m, ex);
            if k == 0 then r.stack == Bottom(Kept(m.stack, 0)) && r.state.Done? && r.result == Some(Error(primary))
            else
              && r.state == m.state && r.result == m.result
              && r.stack.Above? && r.stack.below == At(m.stack, k).below
              && GoesOnWith(r.stack.frame, At(m.stack, k).frame, Kept(m.stack, k), primary)
    ensures primary != ex ==> Recorded(Unwound(m, ex).secondary, ex)
    ensures forall j: nat :: 0 < j <= m.stack.Depth() && k <= j && Busy(At(m.stack, j).frame) ==>
              var other := At(m.stack, j).frame.body.current.value;
              other == primary || Recorded(Unwound(m, ex).secondary, other)
    decreases m.stack.Depth()
  {
    var st := m.stack;
    if st.Above? && Busy(st.frame) {
      AddingGrows(m.secondary, st.frame.body.current.value, ex);
    }
    if st.Bottom? {
      k, primary := 0, ex;
    } else if Catches(st.frame) {
      k, primary := st.Depth(), Passes(st.frame, ex);
      CatchingGoesOn(st.frame, primary);
      assert At(st, k) == st;
    } else {
      var next := m.(secondary := Record(m.secondary, st.frame, ex), stack := st.PopFrame());
      k, primary := UnwindingMeaning(next, Passes(st.frame, ex));
      PoppedBusy(st);
      PoppedCatcher(st, k);
      PoppedPrimary(st, k, ex, primary);
      PoppedKept(st, k);
      if Busy(st.frame) {
        UnwindingGrows(next, Passes(st.frame, ex));
        GrowingKeeps(next.secondary, Unwound(m, ex).secondary, ex);
      }
      if k > 0 {
        PoppedAt(st, k);
      }
    }
  }

  lemma CatchingGoesOn(f: Frame, primary: ExceptionId)
    requires Catches(f)
    ensures GoesOnWith(Caught(f, primary), f, f.values, primary)
  {
  }

  /** The exception that arrives at the frame j deep. */
  ghost predicate Arrives(st: Stack, j: nat, ex: ExceptionId, arriving: ExceptionId)
    requires 0 < j <= st.Depth()
  {
    if j == st.Depth() then arriving == ex else IsPrimary(st, j + 1, ex, arriving)
  }

  lemma ArrivesPopped(st: Stack, j: nat, ex: ExceptionId, arriving: ExceptionId)
    requires 0 < j < st.Depth() && Arrives(st, j, ex, arriving)
    ensures Arrives(st.PopFrame(), j, Passes(st.frame, ex), arriving)
  {
    var popped, n := st.PopFrame(), st.Depth();
    PoppedBusy(st);
    assert At(st, n) == st;
    if NoneBusy(st, j + 1) {
      assert !Busy(At(st, n).frame);
      if j < n - 1 {
        assert NoneBusy(popped, j + 1);
      }
    } else {
      var i :| OldestBusy(st, j + 1, i) && arriving == At(st, i).frame.body.current.value;
      if i == n && j < n - 1 {
        assert NoneBusy(popped, j + 1);
      } else if i < n {
        assert OldestBusy(popped, j + 1, i);
      }
    }
  }

  /** A frame that is already unwinding records what arrives as a secondary exception of its own one. */
  lemma {:induction false} ArrivingIsRecorded(m: Machine, ex: ExceptionId, j: nat, arriving: ExceptionId)
    requires 0 < j <= m.stack.Depth() && Busy(At(m.stack, j).frame) && Arrives(m.stack, j, ex, arriving)
    requires forall i: nat :: j < i <= m.stack.Depth() ==> !Catches(At(m.stack, i).frame)
    ensures var own, all := At(m.stack, j).frame.body.current.value, Unwound(m, ex).secondary;
            own in all && arriving in all[own]
    decreases m.stack.Depth()
  {
    var st := m.stack;
    var f := st.frame;
    var next := m.(secondary := Record(m.secondary, f, ex), stack := st.PopFrame());
    assert At(st, st.Depth()) == st;
    if j == st.Depth() {
      var own := f.body.current.value;
      assert next.secondary[own][|next.secondary[own]| - 1] == ex;
      if !Catches(f) {
        UnwindingGrows(next, Passes(f, ex));
      }
    } else {
      PoppedBusy(st);
      ArrivesPopped(st, j, ex, arriving);
      forall i: nat | j < i <= next.stack.Depth()
        ensures !Catches(At(next.stack, i).frame)
      {
        PoppedAt(st, i);
      }
      ArrivingIsRecorded(next, Passes(f, ex), j, arriving);
    }
  }

  /** No other list changes. */
  lemma {:induction false} OthersRecordNothingNew(m: Machine, ex: ExceptionId, p: ExceptionId)
    requires forall j: nat :: 0 < j <= m.stack.Depth() && Busy(At(m.stack, j).frame) ==> At(m.stack, j).frame.body.current != Some(p)
    ensures var all := Unwound(m, ex).secondary;
            (p in all <==> p in m.secondary) && (p in all ==> all[p] == m.secondary[p])
    decreases m.stack.Depth()
  {
    var st := m.stack;
    if st.Above? {
      var next := m.(secondary := Record(m.secondary, st.frame, ex), stack := st.PopFrame());
      assert At(st, st.Depth()) == st;
      if !Catches(st.frame) {
        PoppedBusy(st);
        OthersRecordNothingNew(next, Passes(st.frame, ex), p);
      }
    }
  }

  // ----- a call, seen from its caller

  /** `now` is the caller's part of the stack with at most its topmost `pops` values overwritten. */
  ghost predicate ArgsRewritten(caller: Stack, now: Stack, pops: nat) {
    && now == caller.WithValues(now.Values())
    && |now.Values()| == |caller.Values()|
    && DropTop(now.Values(), pops) == DropTop(caller.Values(), pops)
  }

  /** The callee entered above `caller` is still on the stack, and `caller` is as it left it but for its arguments. */
  ghost predicate Guard(caller: Stack, st: Stack, pops: nat) {
    && st.Above?
    && if st.Depth() == caller.Depth() + 1 then st.frame.Pops() == pops && ArgsRewritten(caller, st.below, pops)
       else Guard(caller, st.below, pops)
  }

  lemma {:induction false} GuardDepth(caller: Stack, st: Stack, pops: nat)
    requires Guard(caller, st, pops)
    ensures st.Depth() > caller.Depth()
  {
    if st.Depth() != caller.Depth() + 1 {
      GuardDepth(caller, st.below, pops);
    }
  }

  /** Pushing, popping and overwriting values of a deeper callee does not disturb the guard. */
  lemma GuardWithValues(caller: Stack, st: Stack, pops: nat, values: seq<Value>)
    requires Guard(caller, st, pops)
    ensures Guard(caller, st.WithValues(values), pops)
  {
  }

  lemma GuardPop(caller: Stack, st: Stack, pops: nat)
    requires Guard(caller, st, pops) && st.Depth() > caller.Depth() + 1
    ensures Guard(caller, st.PopFrame(), pops)
  {
    GuardWithValues(caller, st.below, pops, DropTop(st.below.Values(), st.frame.Pops()));
  }

  lemma GuardWithArg(caller: Stack, st: Stack, pops: nat, index: nat, v: Value)
    requires Guard(caller, st, pops) && index < st.frame.argc && st.frame.Pops() <= |st.below.Values()|
    ensures Guard(caller, st.WithArg(index, v), pops)
  {
    if st.Depth() != caller.Depth() + 1 {
      GuardWithValues(caller, st.below, pops, st.WithArg(index, v).below.Values());
    }
  }

  lemma {:induction false} GuardUnwound(caller: Stack, m: Machine, ex: ExceptionId, pops: nat)
    requires Guard(caller, m.stack, pops)
    ensures var r := Unwound(m, ex).stack; r.Depth() > caller.Depth() ==> Guard(caller, r, pops)
    ensures Unwound(m, ex).stack.Depth() <= m.stack.Depth()
    decreases m.stack.Depth()
  {
    var f := m.stack.frame;
    if !Catches(f) {
      var next := m.(secondary := Record(m.secondary, f, ex), stack := m.stack.PopFrame());
      if m.stack.Depth() > caller.Depth() + 1 {
        GuardPop(caller, m.stack, pops);
        GuardUnwound(caller, next, Passes(f, ex), pops);
      } else {
        UnwindingShrinks(next, Passes(f, ex));
      }
    }
  }

  lemma {:induction false} UnwindingShrinks(m: Machine, ex: ExceptionId)
    ensures Unwound(m, ex).stack.Depth() <= m.stack.Depth()
    decreases m.stack.Depth()
  {
    if m.stack.Above? && !Catches(m.stack.frame) {
      var f := m.stack.frame;
      UnwindingShrinks(m.(secondary := Record(m.secondary, f, ex), stack := m.stack.PopFrame()), Passes(f, ex));
    }
  }

  lemma {:induction false} GuardEntered(caller: Stack, m: Machine, callee: Value, argc: nat, pop: bool, fault: ExceptionId, pops: nat)
    requires Guard(caller, m.stack, pops)
    ensures var r := Entered(m, callee, argc, pop, fault).stack; r.Depth() > caller.Depth() ==> Guard(caller, r, pops)
    decreases callee
  {
    match callee
    case BoundMethod(inner, instance) =>
      var vs := m.stack.Values();
      var args := DropTop(vs, argc) + [instance] + vs[|DropTop(vs, argc)|..];
      GuardWithValues(caller, m.stack, pops, args);
      GuardEntered(caller, m.(stack := m.stack.WithValues(args)), inner, argc + 1, pop, fault, pops);
    case _ =>
      GuardUnwound(caller, m, fault, pops);
      GuardDepth(caller, m.stack, pops);
  }

  lemma GuardCodeStep(caller: Stack, m0: Machine, step: Step, pops: nat)
    requires Invariant(m0) && Enabled(m0, step) && IsCodeStep(step) && Guard(caller, m0.stack, pops)
    ensures var r := CodeNext(m0, step).stack; r.Depth() > caller.Depth() ==> Guard(caller, r, pops)
  {
    var m := AtPc(m0, step.pc);
    var st, vs := m.stack, m.stack.Values();
    assert Guard(caller, st, pops);
    match step
    case Goto(_) =>
    case Push(_, v) => GuardWithValues(caller, st, pops, vs + [v]);
    case PopValue(_, fault) => GuardUnwound(caller, m, fault, pops); GuardWithValues(caller, st, pops, DropTop(vs, 1));
    case Collect(_, count) => GuardWithValues(caller, st, pops, DropTop(vs, count));
    case StoreParam(_, index, v) => GuardWithArg(caller, st, pops, index, v);
    case Throw(_, ex) => GuardUnwound(caller, m, ex, pops);
    case Rethrow(_) => GuardUnwound(caller, m, st.frame.body.current.value, pops);
    case Call(_, callee, argc, fault) => GuardEntered(caller, m, callee, argc, false, fault, pops);
    case CallMethod(_, callee, argc, fault) =>
      var isMethod := !vs[|vs| - argc - 1].Null?;
      GuardEntered(caller, m, callee, argc + (if isMethod then 1 else 0), !isMethod, fault, pops);
    case Return(_, v) => GuardReturned(caller, m, v, pops);
  }

  lemma GuardReturned(caller: Stack, m: Machine, v: Value, pops: nat)
    requires Guard(caller, m.stack, pops)
    ensures var r := Returned(m, v).stack; r.Depth() > caller.Depth() ==> Guard(caller, r, pops)
  {
    GuardDepth(caller, m.stack, pops);
    if m.stack.Depth() > caller.Depth() + 1 {
      GuardPop(caller, m.stack, pops);
      var below := m.stack.PopFrame();
      GuardWithValues(caller, below, pops, below.Values() + [v]);
    }
  }

  lemma GuardNativeStep(caller: Stack, m: Machine, step: Step, pops: nat)
    requires Invariant(m) && Enabled(m, step) && step.Native? && Guard(caller, m.stack, pops)
    ensures var r := NativeNext(m, step).stack; r.Depth() > caller.Depth() ==> Guard(caller, r, pops)
  {
    var f := m.stack.frame;
    if f.body.state == RESUMABLE_END {
      GuardReturned(caller, m, Null, pops);
    } else {
      var n := Invoked(m, step);
      assert Guard(caller, n.stack, pops);
      match step.action
      case NoAction =>
      case ReturnAction(v) => GuardReturned(caller, n, v, pops);
      case PanicAction(ex) => GuardUnwound(caller, n, ex, pops);
      case InvokeAction(callee, args) =>
        GuardWithValues(caller, n.stack, pops, args);
        GuardEntered(caller, n.(stack := n.stack.WithValues(args)), callee, |args|, false, step.fault, pops);
      case YieldAction =>
    }
  }

  lemma GuardCatchStep(caller: Stack, m: Machine, step: Step, pops: nat)
    requires Invariant(m) && Enabled(m, step) && step.RunCatch? && Guard(caller, m.stack, pops)
    ensures var r := CatchNext(m, step).stack; r.Depth() > caller.Depth() ==> Guard(caller, r, pops)
  {
    var f := m.stack.frame;
    if !f.body.started {
      var started := StartedCatch(m);
      assert Guard(caller, started.stack, pops);
      GuardEntered(caller, started, CatchArg(m.stack), 0, false, step.fault, pops);
    } else if f.unwinding {
      GuardReturned(caller, m, ResultValue(Error(f.body.exception.value)), pops);
    } else {
      GuardReturned(caller, m, ResultValue(CallResult.Success(f.values[|f.values| - 1])), pops);
    }
  }

  lemma GuardStep(caller: Stack, m: Machine, step: Step, pops: nat)
    requires Invariant(m) && Enabled(m, step) && Guard(caller, m.stack, pops)
    ensures var r := Next(m, step).stack; r.Depth() > caller.Depth() ==> Guard(caller, r, pops)
  {
    match step
    case Start =>
    case Begin(_, _, _) =>
    case Resume =>
    case Continue =>
    case Native(_, _, _, _) => GuardNativeStep(caller, m, step, pops);
    case RunCatch(_) => GuardCatchStep(caller, m, step, pops);
    case _ => GuardCodeStep(caller, m, step, pops);
  }

  /** The steps can be taken one after the other, and the stack stays deeper than d throughout. */
  ghost predicate Inside(m: Machine, steps: seq<Step>, d: nat)
    decreases |steps|
  {
    && m.stack.Depth() > d
    && (steps == [] || (Enabled(m, steps[0]) && Inside(Next(m, steps[0]), steps[1..], d)))
  }

  ghost function Run(m: Machine, steps: seq<Step>, d: nat): Machine
    requires Inside(m, steps, d)
    decreases |steps|
  {
    if steps == [] then m else Run(Next(m, steps[0]), steps[1..], d)
  }

  lemma {:induction false} RunKeepsGuard(caller: Stack, m: Machine, steps: seq<Step>, pops: nat)
    requires Invariant(m) && Guard(caller, m.stack, pops) && Inside(m, steps, caller.Depth())
    ensures Invariant(Run(m, steps, caller.Depth())) && Guard(caller, Run(m, steps, caller.Depth()).stack, pops)
    decreases |steps|
  {
    if steps != [] {
      StepKeepsInvariant(m, steps[0]);
      GuardStep(caller, m, steps[0], pops);
      RunKeepsGuard(caller, Next(m, steps[0]), steps[1..], pops);
    }
  }

  /** A call that is entered leaves the caller's values below the arguments untouched. */
  lemma {:induction false} EnteringGuards(m: Machine, callee: Value, argc: nat, pop: bool, fault: ExceptionId)
    requires argc + (if pop then 1 else 0) <= |m.stack.Values()|
    ensures var r := Entered(m, callee, argc, pop, fault);
            r.stack.Depth() > m.stack.Depth() ==>
              && r.stack.Above? && r.stack.below == m.stack.WithValues(r.stack.below.Values())
              && r.stack.frame.Pops() <= |r.stack.below.Values()|
              && DropTop(r.stack.below.Values(), r.stack.frame.Pops()) ==
                 DropTop(m.stack.Values(), argc + if pop then 1 else 0)
    decreases callee
  {
    UnwindingShrinks(m, fault);
    if callee.BoundMethod? {
      var vs := m.stack.Values();
      var kept := DropTop(vs, argc);
      var args := kept + [callee.instance] + vs[|kept|..];
      EnteringGuards(m.(stack := m.stack.WithValues(args)), callee.callee, argc + 1, pop, fault);
      var n := if pop then 1 else 0;
      assert DropTop(args, argc + 1 + n) == DropTop(vs, argc + n);
      assert m.stack.WithValues(args).WithValues(vs) == m.stack;
    } else {
      assert m.stack.WithValues(m.stack.Values()) == m.stack;
    }
  }

  /** The step is a normal return of the top frame with value v. */
  ghost predicate ReturnsWith(m: Machine, step: Step, v: Value)
    requires Enabled(m, step)
  {
    match step
    case Return(_, value) => v == value
    case Native(_, _, action, _) =>
      if m.stack.frame.body.state == RESUMABLE_END then v == Null else action == ReturnAction(v)
    case RunCatch(_) =>
      var f := m.stack.frame;
      && f.body.started
      && (f.unwinding ==> f.body.exception.Some? && v == ResultValue(Error(f.body.exception.value)))
      && (!f.unwinding ==> f.values != [] && v == ResultValue(CallResult.Success(f.values[|f.values| - 1])))
    case _ => false
  }

  lemma GuardedReturn(caller: Stack, m: Machine, step: Step, pops: nat, v: Value)
    requires Invariant(m) && Enabled(m, step) && ReturnsWith(m, step, v)
    requires Guard(caller, m.stack, pops) && m.stack.Depth() == caller.Depth() + 1
    ensures caller.Above? ==> Next(m, step).stack == caller.WithValues(DropTop(caller.Values(), pops) + [v])
  {
  }

  /** How many of the caller's values are replaced by the result. */
  function Consumed(call: Step): nat {
    match call
    case Call(_, _, argc, _) => argc
    case CallMethod(_, _, argc, _) => argc + 1
    case Native(_, _, InvokeAction(_, args), _) => |args|
    case _ => 0
  }

  lemma CallIsGuarded(m: Machine, call: Step) returns (caller: Stack, pops: nat)
    requires Enabled(m, call) && Attempted(m, call).Some? && !call.Begin?
    requires Next(m, call).stack.Depth() > m.stack.Depth()
    ensures Guard(caller, Next(m, call).stack, pops) && caller.Depth() == m.stack.Depth()
    ensures var at := Attempted(m, call).value.at.stack;
            caller == at.WithValues(caller.Values()) &&
            DropTop(caller.Values(), pops) == DropTop(at.Values(), Consumed(call))
  {
    StepKinds(m, call);
    var a := Attempted(m, call).value;
    EnteringGuards(a.at, a.callee, a.argc, a.popOneMore, a.fault);
    EnteringDepth(a.at, a.callee, a.argc, a.popOneMore, a.fault);
    var entered := Next(m, call).stack;
    caller, pops := entered.below, entered.frame.Pops();
    assert caller.WithValues(caller.Values()) == caller;
  }

  /**
   Calls are balanced, whether made by an instruction, on request of native code or from a catch
   frame. Whatever the callee does in between, if it returns v then the caller continues with its
   arguments (and the receiver of a method call) replaced by v, and nothing else of its stack changed.
   */
  lemma CallsAreBalanced(m: Machine, call: Step, steps: seq<Step>, last: Step, v: Value)
    requires Invariant(m) && Enabled(m, call) && Attempted(m, call).Some? && !call.Begin?
    requires Inside(Next(m, call), steps, m.stack.Depth())
    requires var n := Run(Next(m, call), steps, m.stack.Depth());
             n.stack.Depth() == m.stack.Depth() + 1 && Enabled(n, last) && ReturnsWith(n, last, v)
    ensures var n := Run(Next(m, call), steps, m.stack.Depth());
            var caller := Attempted(m, call).value.at.stack;
            Next(n, last).stack == caller.WithValues(DropTop(caller.Values(), Consumed(call)) + [v])
  {
    var caller, pops := CallIsGuarded(m, call);
    StepKeepsInvariant(m, call);
    RunKeepsGuard(caller, Next(m, call), steps, pops);
    GuardedReturn(caller, Run(Next(m, call), steps, m.stack.Depth()), last, pops, v);
  }

  lemma {:induction false} EnteringDepth(m: Machine, callee: Value, argc: nat, pop: bool, fault: ExceptionId)
    ensures Entered(m, callee, argc, pop, fault).stack.Depth() <= m.stack.Depth() + 1
    decreases callee
  {
    UnwindingShrinks(m, fault);
    if callee.BoundMethod? {
      var vs := m.stack.Values();
      var args := DropTop(vs, argc) + [callee.instance] + vs[|DropTop(vs, argc)|..];
      EnteringDepth(m.(stack := m.stack.WithValues(args)), callee.callee, argc + 1, pop, fault);
    }
  }

  // ----- catch frames

  /** The frame d deep is a catch frame. */
  ghost predicate CatchAt(st: Stack, d: nat) {
    st.Above? && if st.Depth() == d then st.frame.body.Catch? else CatchAt(st.below, d)
  }

  lemma {:induction false} CatchDepth(st: Stack, d: nat)
    requires CatchAt(st, d)
    ensures 0 < d <= st.Depth()
  {
    if st.Depth() != d {
      CatchDepth(st.below, d);
    }
  }

  lemma CatchWithValues(st: Stack, d: nat, values: seq<Value>)
    requires CatchAt(st, d)
    ensures CatchAt(st.WithValues(values), d)
  {
  }

  /** No panic passes a catch frame. */
  lemma {:induction false} PanicsStopAtCatch(m: Machine, ex: ExceptionId, d: nat)
    requires CatchAt(m.stack, d)
    ensures CatchAt(Unwound(m, ex).stack, d)
    decreases m.stack.Depth()
  {
    var f := m.stack.frame;
    if m.stack.Depth() != d && !Catches(f) {
      CatchWithValues(m.stack.below, d, DropTop(m.stack.below.Values(), f.Pops()));
      PanicsStopAtCatch(m.(secondary := Record(m.secondary, f, ex), stack := m.stack.PopFrame()), Passes(f, ex), d);
    }
  }

  lemma {:induction false} CatchEntered(m: Machine, callee: Value, argc: nat, pop: bool, fault: ExceptionId, d: nat)
    requires CatchAt(m.stack, d)
    ensures CatchAt(Entered(m, callee, argc, pop, fault).stack, d)
    decreases callee
  {
    PanicsStopAtCatch(m, fault, d);
    CatchDepth(m.stack, d);
    if callee.BoundMethod? {
      var vs := m.stack.Values();
      var args := DropTop(vs, argc) + [callee.instance] + vs[|DropTop(vs, argc)|..];
      CatchWithValues(m.stack, d, args);
      CatchEntered(m.(stack := m.stack.WithValues(args)), callee.callee, argc + 1, pop, fault, d);
    }
  }

  lemma CatchReturned(m: Machine, v: Value, d: nat)
    requires CatchAt(m.stack, d) && m.stack.Depth() != d
    ensures CatchAt(Returned(m, v).stack, d)
  {
    CatchDepth(m.stack, d);
    var below := m.stack.PopFrame();
    CatchWithValues(m.stack.below, d, below.Values());
    CatchWithValues(below, d, below.Values() + [v]);
  }

  lemma CatchCodeStep(m0: Machine, step: Step, d: nat)
    requires Invariant(m0) && Enabled(m0, step) && IsCodeStep(step) && CatchAt(m0.stack, d)
    ensures CatchAt(CodeNext(m0, step).stack, d)
  {
    var m := AtPc(m0, step.pc);
    var st, vs := m.stack, m.stack.Values();
    CatchDepth(m0.stack, d);
    assert CatchAt(st, d);
    match step
    case Goto(_) =>
    case Push(_, v) => CatchWithValues(st, d, vs + [v]);
    case PopValue(_, fault) => PanicsStopAtCatch(m, fault, d); CatchWithValues(st, d, DropTop(vs, 1));
    case Collect(_, count) => CatchWithValues(st, d, DropTop(vs, count));
    case StoreParam(_, index, v) => CatchWithValues(st.below, d, st.WithArg(index, v).below.Values());
    case Throw(_, ex) => PanicsStopAtCatch(m, ex, d);
    case Rethrow(_) => PanicsStopAtCatch(m, st.frame.body.current.value, d);
    case Call(_, callee, argc, fault) => CatchEntered(m, callee, argc, false, fault, d);
    case CallMethod(_, callee, argc, fault) =>
      var isMethod := !vs[|vs| - argc - 1].Null?;
      CatchEntered(m, callee, argc + (if isMethod then 1 else 0), !isMethod, fault, d);
    case Return(_, v) => CatchReturned(m, v, d);
  }

  /** A catch frame stays until it returns, and then it returns a Result. */
  lemma CatchReturnsAResult(m: Machine, step: Step, d: nat) returns (r: CallResult)
    requires Invariant(m) && Enabled(m, step) && CatchAt(m.stack, d)
    ensures CatchAt(Next(m, step).stack, d) || (m.stack.Depth() == d && ReturnsWith(m, step, ResultValue(r)))
  {
    var st := m.stack;
    CatchDepth(st, d);
    r := Error(0);
    match step
    case Start =>
    case Begin(_, _, _) =>
    case Resume =>
    case Continue =>
    case Native(becomes, next, action, fault) =>
      var f := st.frame;
      if f.body.state == RESUMABLE_END {
        CatchReturned(m, Null, d);
      } else {
        var n := Invoked(m, step);
        assert CatchAt(n.stack, d);
        match action
        case NoAction =>
        case ReturnAction(v) => CatchReturned(n, v, d);
        case PanicAction(ex) => PanicsStopAtCatch(n, ex, d);
        case InvokeAction(callee, args) =>
          CatchWithValues(n.stack, d, args);
          CatchEntered(n.(stack := n.stack.WithValues(args)), callee, |args|, false, fault, d);
        case YieldAction =>
      }
    case RunCatch(fault) =>
      var f := st.frame;
      if !f.body.started {
        var started := StartedCatch(m);
        assert CatchAt(started.stack, d);
        CatchEntered(started, CatchArg(st), 0, false, fault, d);
      } else {
        r := if f.unwinding then Error(f.body.exception.value) else CallResult.Success(f.values[|f.values| - 1]);
        if st.Depth() != d {
          CatchReturned(m, ResultValue(r), d);
        }
      }
    case _ => CatchCodeStep(m, step, d);
  }

  // ----- native functions that change the coroutine's state and then return

  ghost predicate SomeoneCatches(st: Stack) {
    st.Above? && (Catches(st.frame) || SomeoneCatches(st.below))
  }

  lemma {:induction false} UncaughtCompletes(m: Machine, ex: ExceptionId)
    ensures SomeoneCatches(m.stack) ==> Unwound(m, ex).state == m.state
    ensures !SomeoneCatches(m.stack) ==> Unwound(m, ex).state == Done
    decreases m.stack.Depth()
  {
    if m.stack.Above? && !Catches(m.stack.frame) {
      var f := m.stack.frame;
      UncaughtCompletes(m.(secondary := Record(m.secondary, f, ex), stack := m.stack.PopFrame()), Passes(f, ex));
      assert SomeoneCatches(m.stack.PopFrame()) == SomeoneCatches(m.stack.below);
    }
  }

  /** The call is rejected before a frame is pushed. */
  predicate Refuses(callee: Value, argc: nat) {
    match callee
    case CodeFunction(tmpl) => tmpl.params != argc
    case BoundMethod(inner, _) => Refuses(inner, argc + 1)
    case NativeFunction(params) => argc < params
    case CatchFunction => argc < 1
    case _ => true
  }

  lemma {:induction false} RefusalsUnwind(m: Machine, callee: Value, argc: nat, pop: bool, fault: ExceptionId)
    ensures Entered(m, callee, argc, pop, fault).state ==
            if Refuses(callee, argc) && !SomeoneCatches(m.stack) then Done else m.state
    decreases callee
  {
    UncaughtCompletes(m, fault);
    if callee.BoundMethod? {
      var vs := m.stack.Values();
      var args := DropTop(vs, argc) + [callee.instance] + vs[|DropTop(vs, argc)|..];
      var shifted := m.(stack := m.stack.WithValues(args));
      RefusalsUnwind(shifted, callee.callee, argc + 1, pop, fault);
      assert SomeoneCatches(shifted.stack) == SomeoneCatches(m.stack);
    }
  }

  /** The frame's request does not complete or re-block the coroutine. */
  ghost predicate KeepsState(m: Machine, step: Step)
    requires Enabled(m, step) && step.Native?
  {
    match step.action
    case NoAction => true
    case ReturnAction(_) => m.stack.below.Above?
    case PanicAction(_) => SomeoneCatches(m.stack.below)
    case InvokeAction(callee, args) => Refuses(callee, |args|) ==> SomeoneCatches(m.stack.below)
    case YieldAction => step.becomes.Waiting?
  }

  /**
   A native function that put its coroutine into the ready queue (or made it wait) leaves it in
   that state exactly when its own request neither completes nor re-blocks the coroutine.
   */
  lemma StateSetByNativeIsKept(m: Machine, step: Step)
    requires Invariant(m) && Enabled(m, step) && step.Native?
    requires m.stack.frame.body.state != RESUMABLE_END && !step.becomes.Running?
    ensures Next(m, step).state == step.becomes <==> KeepsState(m, step)
  {
    var f := m.stack.frame;
    var n := Invoked(m, step);
    assert SomeoneCatches(n.stack) == SomeoneCatches(m.stack.below);
    match step.action
    case PanicAction(ex) => UncaughtCompletes(n, ex);
    case InvokeAction(callee, args) =>
      RefusalsUnwind(n.(stack := n.stack.WithValues(args)), callee, |args|, false, step.fault);
      assert SomeoneCatches(n.stack.WithValues(args)) == SomeoneCatches(n.stack);
    case _ =>
  }

  /** std.dispatch as the main function of a coroutine completes it although it is queued as ready. */
  lemma DispatchAsMainCompletesWhileQueued() returns (m: Machine, step: Step)
    ensures Invariant(m) && Enabled(m, step) && step.Native?
    ensures step.becomes.Ready? && Next(m, step).state == Done
  {
    var f := Frame(0, false, false, Resumable(RESUMABLE_START), []);
    m := Machine(Running, Above(f, Bottom([])), None, map[]);
    step := Native(Ready, RESUMABLE_END, ReturnAction(Null), 0);
  }

  /** A native step leaves its coroutine in the state set by the function, or blocks or completes it. */
  lemma NativeStepEnds(m: Machine, step: Step)
    requires Invariant(m) && Enabled(m, step) && step.Native?
    ensures var state := Next(m, step).state;
            state.Waiting? || state.Done? ||
            state == if m.stack.frame.body.state == RESUMABLE_END then Running else step.becomes
  {
    if m.stack.frame.body.state != RESUMABLE_END {
      var n := Invoked(m, step);
      match step.action
      case PanicAction(ex) => UncaughtCompletes(n, ex);
      case InvokeAction(callee, args) =>
        RefusalsUnwind(n.(stack := n.stack.WithValues(args)), callee, |args|, false, step.fault);
      case _ =>
    }
  }

  /** Instructions leave their coroutine running, or complete it. */
  lemma {:induction false} CodeRunsEnd(m: Machine, steps: seq<Step>)
    requires Invariant(m) && m.state.Running? && Allowed(m, steps) && forall i :: 0 <= i < |steps| ==> IsCodeStep(steps[i])
    ensures Invariant(RunAll(m, steps)) && (RunAll(m, steps).state.Running? || RunAll(m, steps).state.Done?)
    decreases |steps|
  {
    if steps != [] {
      var next := Next(m, steps[0]);
      StepKeepsInvariant(m, steps[0]);
      CodeStepSettles(m, steps[0]);
      if steps[1..] != [] {
        CodeRunsEnd(next, steps[1..]);
      }
    }
  }

  /** A catch frame's step leaves its coroutine running, or completes it. */
  lemma CatchStepEnds(m: Machine, step: Step)
    requires Invariant(m) && Enabled(m, step) && step.RunCatch?
    ensures Next(m, step).state.Running? || Next(m, step).state.Done?
  {
    CatchStepSettles(m, step);
  }

  /** So does the first step of a run. */
  lemma FirstStepEnds(m: Machine, step: Step)
    requires Invariant(m) && Enabled(m, step) && (step.Begin? || step.Continue?)
    ensures Next(m, step).state.Running? || Next(m, step).state.Done?
  {
    if step.Begin? {
      var running := m.(state := Running, stack := m.stack.WithValues(m.stack.Values() + step.args));
      EnteringSettles(running, step.callee, |step.args|, false, step.fault);
    }
  }
}
