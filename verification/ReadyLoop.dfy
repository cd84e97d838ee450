/** What run_ready() does over any number of turns, whatever the coroutines do in them: src/vm/context.cpp:95-121. */
module ReadyLoop {
  import opened Common
  import opened CallStack
  import opened CallTheorems
  import opened Coroutines
  import opened FrameTheorems
  import opened Histories
  import opened Interpreter
  import opened StackInvariant
  import opened Turns

  datatype RunOutcome = Drained | ScriptEnded | LeftMisqueued(c: nat) | NestedCall

  /** The coroutines of the queue take turns, those of the script, until the queue is empty or the script ends. */
  ghost function AfterTurns(h: History, script: seq<Turn>): (History, RunOutcome)
    requires Quiet(h)
    decreases |script|
  {
    if Queue(h) == [] then (h, Drained)
    else if script == [] then (h, ScriptEnded)
    else
      var (g, outcome) := AfterTurn(h, script[0]);
      TurnContinues(h, script[0]);
      match outcome
      case Misqueued => (g, LeftMisqueued(Queue(h)[0]))
      case CutShort => (g, ScriptEnded)
      case Blocked => AfterTurns(g, script[1..])
  }

  /** The turns from position k on begin with that one. */
  lemma OneMoreTurn(h: History, script: seq<Turn>, k: nat)
    requires Quiet(h) && Queue(h) != [] && k < |script|
    ensures !AfterTurn(h, script[k]).1.Misqueued? ==> Quiet(AfterTurn(h, script[k]).0)
    ensures var (g, outcome) := AfterTurn(h, script[k]);
            AfterTurns(h, script[k..]) ==
            match outcome
            case Misqueued => (g, LeftMisqueued(Queue(h)[0]))
            case CutShort => (g, ScriptEnded)
            case Blocked => AfterTurns(g, script[k + 1..])
  {
    TurnContinues(h, script[k]);
    assert script[k..][0] == script[k] && script[k..][1..] == script[k + 1..];
  }

  /** The coroutines that were run since, one for each turn. */
  ghost function RanSince(h: History, g: History): seq<nat> {
    if Begun(h) <= Begun(g) then Begun(g)[|Begun(h)|..] else []
  }

  /** How run_ready() ends. */
  ghost predicate EndsAs(h: History, script: seq<Turn>, g: History, r: RunOutcome) {
    var ran := RanSince(h, g);
    match r
    case Drained => Quiet(g) && Queue(g) == [] && |ran| <= |script|
    case ScriptEnded =>
      && Quiet(g) && |ran| <= |script|
      && ((|ran| == |script| && Queue(g) != []) || (ran != [] && StateIn(g, ran[|ran| - 1]).Running?))
    case LeftMisqueued(c) => ran != [] && |ran| <= |script| && c == ran[|ran| - 1] && IsMisqueued(g, c)
    case NestedCall => false
  }

  /** Those run since, followed by those still queued, begin with those that were queued before. */
  ghost predicate ServedInOrder(h: History, g: History) {
    Extends(g, h) && Begun(h) <= Begun(g) && Queue(h) <= RanSince(h, g) + Queue(g)
  }

  lemma RanMore(h: History, first: History, g: History, c: nat)
    requires Begun(first) == Begun(h) + [c] && Begun(first) <= Begun(g)
    ensures Begun(h) <= Begun(g) && RanSince(h, g) == [c] + RanSince(first, g)
  {
  }

  lemma StillInOrder(queue: seq<nat>, next: seq<nat>, ran: seq<nat>, end: seq<nat>)
    requires queue != [] && queue[1..] <= next <= ran + end
    ensures queue <= [queue[0]] + ran + end
  {
    assert queue == [queue[0]] + queue[1..];
    assert [queue[0]] + ran + end == [queue[0]] + (ran + end);
  }

  lemma ServedFurther(h: History, first: History, g: History, c: nat)
    requires Begins(h, first, c) && ServedInOrder(first, g)
    ensures ServedInOrder(h, g) && RanSince(h, g) == [c] + RanSince(first, g)
  {
    ExtendsFurther(g, first, h);
    RanMore(h, first, g, c);
    StillInOrder(Queue(h), Queue(first), RanSince(first, g), Queue(g));
  }

  lemma EndsFurther(h: History, first: History, g: History, script: seq<Turn>, r: RunOutcome, c: nat)
    requires script != [] && RanSince(h, g) == [c] + RanSince(first, g) && EndsAs(first, script[1..], g, r)
    ensures EndsAs(h, script, g, r)
  {
  }

  lemma ServedAtOnce(h: History)
    ensures ServedInOrder(h, h) && RanSince(h, h) == []
  {
    assert [] + Queue(h) == Queue(h);
  }

  /** The queue is served in order, until it is empty or the script ends. */
  lemma {:induction false} QueueIsServed(h: History, script: seq<Turn>)
    requires Quiet(h)
    ensures var (g, r) := AfterTurns(h, script); ServedInOrder(h, g) && EndsAs(h, script, g, r)
    decreases |script|
  {
    ServedAtOnce(h);
    if Queue(h) != [] && script != [] {
      var (first, outcome) := AfterTurn(h, script[0]);
      var (g, r) := AfterTurns(h, script);
      TurnContinues(h, script[0]);
      ServedAtOnce(first);
      if outcome.Blocked? {
        QueueIsServed(first, script[1..]);
        ServedFurther(h, first, g, Queue(h)[0]);
        EndsFurther(h, first, g, script, r, Queue(h)[0]);
      } else {
        ServedFurther(h, first, g, Queue(h)[0]);
      }
    }
  }

  /** A coroutine that was not run is as it was, or was queued. */
  lemma {:induction false} WaitingIsUntouched(h: History, script: seq<Turn>, d: nat)
    requires Quiet(h) && d < Count(h) && d !in RanSince(h, AfterTurns(h, script).0)
    ensures Rescheduled(MachineIn(h, d), MachineIn(AfterTurns(h, script).0, d))
    decreases |script|
  {
    if Queue(h) != [] && script != [] {
      var g := AfterTurns(h, script).0;
      var (first, outcome) := AfterTurn(h, script[0]);
      TurnContinues(h, script[0]);
      ServedAtOnce(first);
      if outcome.Blocked? {
        QueueIsServed(first, script[1..]);
      }
      ServedFurther(h, first, g, Queue(h)[0]);
      if outcome.Blocked? {
        WaitingIsUntouched(first, script[1..], d);
      }
    }
  }

  /** Whoever became done, and had a callback before, was called back; also when the run ends misqueued. */
  lemma {:induction false} CompletedAreCalledBack(h: History, script: seq<Turn>, c: nat)
    requires Quiet(h) && HasCallback(h, c) && !StateIn(h, c).Done?
    requires var (g, r) := AfterTurns(h, script); StateIn(g, c).Done? && r != LeftMisqueued(c)
    ensures CalledBack(AfterTurns(h, script).0, c)
    decreases |script|
  {
    if Queue(h) != [] && script != [] {
      var g := AfterTurns(h, script).0;
      var (first, outcome) := AfterTurn(h, script[0]);
      TurnCallsBack(h, script[0], c);
      TurnContinues(h, script[0]);
      if outcome.Blocked? {
        QueueIsServed(first, script[1..]);
        RecordStays(first, h, c);
        RecordStays(g, first, c);
        if !StateIn(first, c).Done? {
          CompletedAreCalledBack(first, script[1..], c);
        }
      }
    }
  }

  lemma TurnCallsBack(h: History, turn: Turn, c: nat)
    requires Quiet(h) && Queue(h) != [] && HasCallback(h, c) && !StateIn(h, c).Done?
    ensures var (g, outcome) := AfterTurn(h, turn);
            StateIn(g, c).Done? && (outcome.Misqueued? ==> c != Queue(h)[0]) ==> CalledBack(g, c)
  {
    var (g, outcome) := AfterTurn(h, turn);
    TurnContinues(h, turn);
    if Count(h) <= c {
      UnknownIsNew(h, c);
    }
    if outcome.Misqueued? && c != Queue(h)[0] {
      assert Rescheduled(MachineIn(h, c), MachineIn(g, c));
    } else if !outcome.Misqueued? && StateIn(g, c).Done? {
      DoneIsCalledBack(g, h, c);
    }
  }

  // ----- no coroutine is misqueued

  /** No main function is native. */
  ghost predicate NoNativeMain(h: History) {
    forall c: nat :: c < Count(h) ==> !IsNative(MainOf(h, c).callee) && !NativeMain(MachineIn(h, c).stack)
  }

  predicate LaunchesNoNative(rs: seq<Request>) {
    forall k :: 0 <= k < |rs| && rs[k].Launch? ==> !IsNative(rs[k].callee)
  }

  /** Native functions that dispatch their coroutine only return afterwards, or do nothing more. */
  predicate DispatchesQuietly(step: Step) {
    step.Native? && step.becomes.Ready? ==> step.action.NoAction? || step.action.ReturnAction?
  }

  /** A turn of a program that launches no native functions and dispatches quietly. */
  ghost predicate IsTame(turn: Turn) {
    && (forall k :: 0 <= k < |turn.steps| ==> DispatchesQuietly(turn.steps[k]))
    && (forall k :: 0 <= k < |turn.asks| ==> LaunchesNoNative(turn.asks[k]))
    && LaunchesNoNative(turn.callback)
  }

  lemma EventKeepsMains(h: History, e: Event)
    requires Legal(h) && NoNativeMain(h) && !e.Began? && !e.Ran? && (e.Made? ==> !IsNative(e.main.callee))
    ensures NoNativeMain(Then(h, e))
  {
    UnknownIsNew(h, Count(h));
    forall c: nat | c < Count(Then(h, e))
      ensures !IsNative(MainOf(Then(h, e), c).callee) && !NativeMain(MachineIn(Then(h, e), c).stack)
    {
      if c < Count(h) {
        assert !NativeMain(MachineIn(h, c).stack);
      }
    }
  }

  lemma AnswerKeepsMains(h: History, r: Request, current: Option<nat>)
    requires Quiet(h) && NoNativeMain(h) && (r.Launch? ==> !IsNative(r.callee))
    requires current.Some? ==> current.value < Count(h)
    ensures NoNativeMain(Answer(h, r, current))
  {
    var g := Answer(h, r, current);
    AnswerContinues(h, r, current);
    if g != h && (r.Launch? || r.UseOneToken?) {
      EventKeepsMains(h, g.before.event);
      EventKeepsMains(g.before, g.event);
    } else if g != h {
      EventKeepsMains(h, g.event);
    }
  }

  lemma {:induction false} AnswersKeepMains(h: History, rs: seq<Request>, current: Option<nat>)
    requires Quiet(h) && NoNativeMain(h) && LaunchesNoNative(rs)
    requires current.Some? ==> current.value < Count(h)
    ensures NoNativeMain(AnswerAll(h, rs, current))
  {
    if rs != [] {
      var init := rs[..|rs| - 1];
      AnswersContinue(h, init, current);
      AnswersKeepMains(h, init, current);
      AnswerKeepsMains(AnswerAll(h, init, current), rs[|rs| - 1], current);
    }
  }

  lemma RanKeepsMains(h: History, c: nat, left: Machine)
    requires NoNativeMain(h) && !NativeMain(left.stack)
    ensures NoNativeMain(Then(h, Ran(c, left))) && NoNativeMain(Then(h, Began(c, left)))
  {
    var ran, began := Then(h, Ran(c, left)), Then(h, Began(c, left));
    forall d: nat | d < Count(h)
      ensures !IsNative(MainOf(ran, d).callee) && !NativeMain(MachineIn(ran, d).stack)
      ensures !IsNative(MainOf(began, d).callee) && !NativeMain(MachineIn(began, d).stack)
    {
      assert !NativeMain(MachineIn(h, d).stack);
    }
  }

  /** Dispatching is safe wherever some other function of the coroutine is still to be returned to. */
  lemma NativeFrameKeepsMains(h: History, c: nat, turn: Turn, k: nat)
    requires Stepped(h, c) && CanGoOn(h, c, turn, k) && NoNativeMain(h) && IsTame(turn) && turn.steps[k].Native?
    ensures NoNativeMain(AfterFrame(h, c, turn, k).0) && !MisqueuesAt(MachineIn(h, c), turn.steps[k])
  {
    var m, step := MachineIn(h, c), turn.steps[k];
    var asked := AnswerAll(h, turn.Asks(k), Some(c));
    assert DispatchesQuietly(step);
    StepKeepsMain(m, step);
    AnswersKeepMains(h, turn.Asks(k), Some(c));
    if m.stack.frame.body.state == RESUMABLE_END {
      RanKeepsMains(h, c, NativeNext(m, step));
    } else {
      RanKeepsMains(asked, c, NativeNext(m, step));
    }
  }

  lemma CodeFrameKeepsMains(h: History, c: nat, turn: Turn, k: nat)
    requires Stepped(h, c) && CanGoOn(h, c, turn, k) && NoNativeMain(h) && IsCodeStep(turn.steps[k])
    ensures NoNativeMain(AfterFrame(h, c, turn, k).0)
  {
    var (now, next) := CodeRun(MachineIn(h, c), turn.steps, k);
    var suspended := CodeRunIsExact(MachineIn(h, c), turn.steps, k);
    StretchKeepsMain(MachineIn(h, c), turn.steps[k..next], now, suspended);
    RanKeepsMains(h, c, now);
  }

  lemma StretchKeepsMain(m: Machine, steps: seq<Step>, now: Machine, suspended: bool)
    requires Stretch(m, steps, now, suspended) && !NativeMain(m.stack)
    ensures !NativeMain(now.stack)
  {
    RunsKeepMain(m, steps);
  }

  lemma FrameKeepsMains(h: History, c: nat, turn: Turn, k: nat)
    requires Stepped(h, c) && CanGoOn(h, c, turn, k) && NoNativeMain(h) && IsTame(turn)
    ensures NoNativeMain(AfterFrame(h, c, turn, k).0) && !MisqueuesAt(MachineIn(h, c), turn.steps[k])
  {
    var m, step := MachineIn(h, c), turn.steps[k];
    if step.Native? {
      NativeFrameKeepsMains(h, c, turn, k);
    } else if step.RunCatch? {
      StepKeepsMain(m, step);
      RanKeepsMains(h, c, Next(m, step));
    } else {
      CodeFrameKeepsMains(h, c, turn, k);
    }
  }

  lemma {:induction false} FramesKeepMains(h: History, c: nat, turn: Turn, k: nat)
    requires Stepped(h, c) && NoNativeMain(h) && IsTame(turn)
    ensures var g := AfterFrames(h, c, turn, k); NoNativeMain(g) && Stepped(g, c) && !IsMisqueued(g, c)
    decreases |turn.steps| - k
  {
    if CanGoOn(h, c, turn, k) {
      var (g, next) := AfterFrame(h, c, turn, k);
      FrameContinues(h, c, turn, k);
      FrameKeepsMains(h, c, turn, k);
      FramesKeepMains(g, c, turn, next);
    } else {
      SteppedIsNotMisqueued(h, c);
    }
  }

  lemma TurnKeepsMains(h: History, turn: Turn)
    requires Quiet(h) && Queue(h) != [] && NoNativeMain(h) && IsTame(turn)
    ensures NoNativeMain(AfterTurn(h, turn).0) && !AfterTurn(h, turn).1.Misqueued?
  {
    OnlyRunnableBegin(h);
    QueueIsRunnable(h);
    var c := Queue(h)[0];
    assert c in Queue(h);
    var begun, blocked := AfterBegin(h, c, turn.fault), AfterBlock(h, c, turn);
    var first := FirstStep(MainOf(h, c), StateIn(h, c), turn.fault);
    StepKeepsMain(MachineIn(h, c), first);
    RanKeepsMains(h, c, Next(MachineIn(h, c), first));
    BeginBegins(h, c, turn.fault);
    FramesKeepMains(begun, c, turn, 0);
    if StateIn(blocked, c).Done? {
      DoneKeepsMains(blocked, c, turn.callback);
    }
  }

  lemma DoneKeepsMains(h: History, c: nat, requests: seq<Request>)
    requires Stepped(h, c) && StateIn(h, c).Done? && NoNativeMain(h) && LaunchesNoNative(requests)
    ensures NoNativeMain(AfterDone(h, c, requests))
  {
    var reset := Then(h, TokenReset(c));
    OwedMayHappen(h);
    EventKeepsMains(h, TokenReset(c));
    if HasCallback(h, c) {
      OwedMayHappen(reset);
      EventKeepsMains(reset, CallbackRun(c));
      AnswersKeepMains(Then(reset, CallbackRun(c)), requests, None);
    }
  }

  /**
   Where no main function is native, and native functions only return after dispatching, run_ready()
   never leaves a coroutine in the queue that is not ready; and no main function is native afterwards.
   */
  lemma {:induction false} TameProgramsAreNotMisqueued(h: History, script: seq<Turn>)
    requires Quiet(h) && NoNativeMain(h) && forall i :: 0 <= i < |script| ==> IsTame(script[i])
    ensures var (g, r) := AfterTurns(h, script); !r.LeftMisqueued? && Quiet(g) && NoNativeMain(g)
    decreases |script|
  {
    if Queue(h) != [] && script != [] {
      TurnContinues(h, script[0]);
      TurnKeepsMains(h, script[0]);
      var (g, outcome) := AfterTurn(h, script[0]);
      if outcome.Blocked? {
        TameProgramsAreNotMisqueued(g, script[1..]);
      }
    }
  }

  lemma {:induction false} NativeIsEntered(m: Machine, callee: Value, argc: nat, pop: bool, fault: ExceptionId)
    requires IsNative(callee) && !Refuses(callee, argc)
    ensures var n := Entered(m, callee, argc, pop, fault);
      && n.stack.Above? && n.stack.frame.body == Resumable(RESUMABLE_START)
      && n.state == m.state && n.stack.below.Bottom? == m.stack.Bottom?
    decreases callee
  {
    if callee.BoundMethod? {
      var vs := m.stack.Values();
      var args := DropTop(vs, argc) + [callee.instance] + vs[|DropTop(vs, argc)|..];
      NativeIsEntered(m.(stack := m.stack.WithValues(args)), callee.callee, argc + 1, pop, fault);
    }
  }

  /** The turn of a native function that dispatches its coroutine and returns. */
  function DispatchAndReturn(): Turn {
    Turn([Native(Ready, RESUMABLE_END, ReturnAction(Null), 0)], [[Dispatch]], 0, [])
  }

  lemma DispatchingMainMisqueues(h: History, c: nat)
    requires Stepped(h, c) && StateIn(h, c).Running?
    requires var st := MachineIn(h, c).stack;
             st.Above? && st.frame.body == Resumable(RESUMABLE_START) && st.below.Bottom?
    ensures IsMisqueued(AfterFrames(h, c, DispatchAndReturn(), 0), c)
  {
    var turn := DispatchAndReturn();
    assert Dispatch in turn.Asks(0);
    FrameContinues(h, c, turn, 0);
    assert AfterFrame(h, c, turn, 0).1 == 1;
    assert MisqueuesAt(MachineIn(h, c), turn.steps[0]);
    var g := AfterFrame(h, c, turn, 0).0;
    assert AfterFrames(h, c, turn, 0) == AfterFrames(g, c, turn, 1) == g;
  }

  /** A native main function that accepts its arguments is left misqueued when it dispatches its coroutine and returns. */
  lemma NativeMainCanBeMisqueued(h: History)
    requires Quiet(h) && Queue(h) != [] && StateIn(h, Queue(h)[0]).Started?
    requires var main := MainOf(h, Queue(h)[0]); IsNative(main.callee) && !Refuses(main.callee, |main.arguments|)
    ensures IsTame(DispatchAndReturn()) && AfterTurns(h, [DispatchAndReturn()]).1 == LeftMisqueued(Queue(h)[0])
  {
    var c := Queue(h)[0];
    var m, main := MachineIn(h, c), MainOf(h, c);
    MachinesAreSound(h, c);
    NativeIsEntered(m.(state := Running, stack := m.stack.WithValues(m.stack.Values() + main.arguments)),
                    main.callee, |main.arguments|, false, 0);
    BeginBegins(h, c, 0);
    DispatchingMainMisqueues(AfterBegin(h, c, 0), c);
  }
}
