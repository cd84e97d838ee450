/**
 What the context does, as functions on its history: requests of native code, turns of coroutines,
 and the loop that serves the ready queue: src/vm/context.cpp:87-199 and src/vm/interpreter.cpp:933-1112.
 */
module Turns {
  import opened Common
  import opened CallStack
  import opened CallTheorems
  import opened Coroutines
  import opened Histories
  import opened Interpreter
  import opened StackInvariant

  // ----- requests

  /** What native code can ask of the context; coroutines and tokens are named by their numbers. */
  datatype Request =
    | Launch(callee: Value, args: seq<Value>)
    | StartOne(c: nat)
    | UseOneToken(t: nat)
    | MakeToken
    | Dispatch
    | SetCallback(c: nat)

  /** The history after one request; `current` is the running coroutine, if native code runs inside one. */
  ghost function Answer(h: History, r: Request, current: Option<nat>): History {
    match r
    case Launch(callee, args) => Then(Then(h, Made(MainCall(callee, args))), Moved(Count(h), Started))
    case StartOne(c) => if c < Count(h) && StateIn(h, c).New? then Then(h, Moved(c, Started)) else h
    case UseOneToken(t) => if t < |Owners(h)| then AnswerToken(h, t) else h
    case MakeToken =>
      if current.Some? && TokenIn(h, current.value).None? then Then(h, Issued(current.value)) else h
    case Dispatch =>
      if current.Some? && StateIn(h, current.value).Running? then Then(h, Moved(current.value, Ready)) else h
    case SetCallback(c) => if c < Count(h) then Then(h, CallbackSet(c)) else h
  }

  /** Resumes the token's coroutine if it waits and the token was not superseded. */
  ghost function AnswerToken(h: History, t: nat): History
    requires t < |Owners(h)|
  {
    var c := Owners(h)[t];
    if TokenIn(h, c) == Some(t) && StateIn(h, c).Waiting? then Then(Then(h, Moved(c, Ready)), TokenUsed(t)) else h
  }

  /** The history after requests, one after the other. */
  ghost function AnswerAll(h: History, rs: seq<Request>, current: Option<nat>): History {
    if rs == [] then h else Answer(AnswerAll(h, rs[..|rs| - 1], current), rs[|rs| - 1], current)
  }

  // ----- turns

  /**
   One turn of a coroutine: the steps that bytecode and native functions take, what native code asks
   of the context in each native step, the exception made when the first call cannot be entered, and
   what the completion callback asks for.
   */
  datatype Turn = Turn(steps: seq<Step>, asks: seq<seq<Request>>, fault: ExceptionId, callback: seq<Request>) {
    function Asks(k: nat): seq<Request> {
      if k < |asks| then asks[k] else []
    }

    /** A native function leaves its coroutine ready exactly by dispatching it. */
    predicate Consistent(k: nat)
      requires k < |steps|
    {
      steps[k].Native? ==> (steps[k].becomes.Ready? <==> Dispatch in Asks(k))
    }
  }

  /** Blocked: the coroutine is ready, waiting or done. CutShort: the turn has no further step that can be taken. */
  datatype TurnOutcome = Blocked | Misqueued | CutShort

  ghost predicate CanGoOn(h: History, c: nat, turn: Turn, k: nat) {
    && StateIn(h, c).Running?
    && k < |turn.steps| && Enabled(MachineIn(h, c), turn.steps[k]) && turn.Consistent(k)
  }

  /** The topmost frame is run: instructions up to a suspension point, or one step of a native or catch frame. */
  ghost function AfterFrame(h: History, c: nat, turn: Turn, k: nat): (r: (History, nat))
    requires CanGoOn(h, c, turn, k)
    ensures k < r.1 <= |turn.steps|
  {
    var m, step := MachineIn(h, c), turn.steps[k];
    if step.Native? then
      var asked := if m.stack.frame.body.state == RESUMABLE_END then h else AnswerAll(h, turn.Asks(k), Some(c));
      (Then(asked, Ran(c, NativeNext(m, step))), k + 1)
    else if step.RunCatch? then (Then(h, Ran(c, CatchNext(m, step))), k + 1)
    else
      var (now, next) := CodeRun(m, turn.steps, k);
      (Then(h, Ran(c, now)), next)
  }

  /** Frames are run from position k on for as long as the coroutine is running. */
  ghost function AfterFrames(h: History, c: nat, turn: Turn, k: nat): History
    decreases |turn.steps| - k
  {
    if CanGoOn(h, c, turn, k) then
      var (g, next) := AfterFrame(h, c, turn, k);
      AfterFrames(g, c, turn, next)
    else h
  }

  ghost function AfterBegin(h: History, c: nat, fault: ExceptionId): History
    requires IsRunnable(StateIn(h, c))
  {
    Then(h, Began(c, Next(MachineIn(h, c), FirstStep(MainOf(h, c), StateIn(h, c), fault))))
  }

  /** A coroutine runs until it blocks. */
  ghost function AfterBlock(h: History, c: nat, turn: Turn): History
    requires IsRunnable(StateIn(h, c))
  {
    AfterFrames(AfterBegin(h, c, turn.fault), c, turn, 0)
  }

  /** The coroutine is in the ready queue, but it is not ready. */
  ghost predicate IsMisqueued(h: History, c: nat) {
    c in Queue(h) && (StateIn(h, c).Waiting? || StateIn(h, c).Done?)
  }

  ghost function OutcomeOf(h: History, c: nat): TurnOutcome {
    if IsMisqueued(h, c) then Misqueued else if StateIn(h, c).Running? then CutShort else Blocked
  }

  /** What follows after a completion. */
  ghost function AfterDone(h: History, c: nat, requests: seq<Request>): History {
    var reset := Then(h, TokenReset(c));
    if HasCallback(h, c) then AnswerAll(Then(reset, CallbackRun(c)), requests, None) else reset
  }

  /** The first coroutine of the queue takes a turn. */
  ghost function AfterTurn(h: History, turn: Turn): (History, TurnOutcome)
    requires Legal(h) && Queue(h) != []
  {
    OnlyRunnableBegin(h);
    var c := Queue(h)[0];
    var g := AfterBlock(h, c, turn);
    (if OutcomeOf(g, c).Blocked? && StateIn(g, c).Done? then AfterDone(g, c, turn.callback) else g, OutcomeOf(g, c))
  }

  // ----- what requests do

  /** The machine is as it was, or was queued. */
  predicate Rescheduled(m: Machine, n: Machine) {
    n == m || (Reschedules(m.state, n.state) && n == m.(state := n.state))
  }

  /** All coroutines but the given one are as they were, or were queued. */
  ghost predicate OthersWait(h: History, g: History, c: Option<nat>) {
    forall d: nat :: d < Count(h) && Some(d) != c ==> Rescheduled(MachineIn(h, d), MachineIn(g, d))
  }

  /** More has happened, but no coroutine other than the given one has run, and nobody lost its place in the queue. */
  ghost predicate Continues(h: History, g: History, c: Option<nat>) {
    && Extends(g, h) && Count(h) <= Count(g) && Queue(h) <= Queue(g) && Begun(g) == Begun(h)
    && OthersWait(h, g, c)
  }

  lemma ContinuesFurther(a: History, b: History, d: History, c: Option<nat>)
    requires Continues(a, b, c) && Continues(b, d, c)
    ensures Continues(a, d, c)
  {
    ExtendsFurther(d, b, a);
  }

  lemma ContinuesForOne(h: History, g: History, c: Option<nat>)
    requires Continues(h, g, None)
    ensures Continues(h, g, c)
  {
  }

  /** Whatever the context does for somebody else. */
  lemma EventContinues(h: History, e: Event)
    requires Legal(h) && Allows(h, e) && !e.Began? && !e.Ran?
    ensures Continues(h, Then(h, e), None)
  {
    assert Then(h, e).before == h;
  }

  lemma EventIsQuiet(h: History, e: Event)
    requires Quiet(h) && Allows(h, e) && !e.Began? && !e.Ran?
    ensures Quiet(Then(h, e)) && Continues(h, Then(h, e), None)
  {
    EventContinues(h, e);
  }

  lemma MadeIsNew(h: History, main: MainCall)
    requires Quiet(h)
    ensures var g := Then(h, Made(main)); Quiet(g) && Count(g) == Count(h) + 1 && StateIn(g, Count(h)).New?
  {
    UnknownIsNew(h, Count(h));
  }

  lemma LaunchContinues(h: History, main: MainCall)
    requires Quiet(h)
    ensures var g := Then(Then(h, Made(main)), Moved(Count(h), Started)); Quiet(g) && Continues(h, g, None)
  {
    var made := Then(h, Made(main));
    UnknownIsNew(h, Count(h));
    EventIsQuiet(h, Made(main));
    EventIsQuiet(made, Moved(Count(h), Started));
    ContinuesFurther(h, made, Then(made, Moved(Count(h), Started)), None);
  }

  lemma AnswerContinues(h: History, r: Request, current: Option<nat>)
    requires Quiet(h) && (current.Some? ==> current.value < Count(h))
    ensures Quiet(Answer(h, r, current)) && Continues(h, Answer(h, r, current), None)
  {
    var g := Answer(h, r, current);
    if r.Launch? {
      LaunchContinues(h, MainCall(r.callee, r.args));
    } else if r.UseOneToken? && g != h {
      TokenAnswerContinues(h, r.t);
    } else if g != h {
      EventIsQuiet(h, g.event);
    }
  }

  lemma TokenAnswerContinues(h: History, t: nat)
    requires Quiet(h) && t < |Owners(h)| && AnswerToken(h, t) != h
    ensures Quiet(AnswerToken(h, t)) && Continues(h, AnswerToken(h, t), None)
  {
    var c := Owners(h)[t];
    OwnersExist(h, t);
    var moved := Then(h, Moved(c, Ready));
    EventContinues(h, Moved(c, Ready));
    EventContinues(moved, TokenUsed(t));
    ContinuesFurther(h, moved, AnswerToken(h, t), None);
  }

  lemma {:induction false} AnswersContinue(h: History, rs: seq<Request>, current: Option<nat>)
    requires Quiet(h) && (current.Some? ==> current.value < Count(h))
    ensures Quiet(AnswerAll(h, rs, current)) && Continues(h, AnswerAll(h, rs, current), None)
  {
    if rs != [] {
      var g := AnswerAll(h, rs[..|rs| - 1], current);
      AnswersContinue(h, rs[..|rs| - 1], current);
      AnswerContinues(g, rs[|rs| - 1], current);
      ContinuesFurther(h, g, AnswerAll(h, rs, current), None);
    }
  }

  lemma AnswerLeavesRunning(h: History, r: Request, c: nat)
    requires c < Count(h) && (StateIn(h, c).Running? || StateIn(h, c).Ready?)
    ensures c < Count(Answer(h, r, Some(c)))
    ensures MachineIn(Answer(h, r, Some(c)), c) ==
            MachineIn(h, c).(state := if r.Dispatch? then Ready else StateIn(h, c))
  {
    var g := Answer(h, r, Some(c));
    if g != h && (r.Launch? || r.UseOneToken?) {
      assert MachineIn(g.before, c) == MachineIn(h, c) && MachineIn(g, c) == MachineIn(g.before, c);
    }
  }

  /** No request affects the running coroutine, but for dispatching it. */
  lemma {:induction false} AnswersLeaveRunning(h: History, rs: seq<Request>, c: nat)
    requires c < Count(h) && StateIn(h, c).Running?
    ensures c < Count(AnswerAll(h, rs, Some(c)))
    ensures MachineIn(AnswerAll(h, rs, Some(c)), c) == MachineIn(h, c).(state := if Dispatch in rs then Ready else Running)
  {
    if rs != [] {
      var init, r := rs[..|rs| - 1], rs[|rs| - 1];
      AnswersLeaveRunning(h, init, c);
      AnswerLeavesRunning(AnswerAll(h, init, Some(c)), r, c);
      assert rs == init + [r];
    }
  }

  // ----- what turns do

  /** The step queues its coroutine as ready, and then completes or blocks it. */
  ghost predicate MisqueuesAt(m: Machine, step: Step)
    requires Enabled(m, step)
  {
    step.Native? && m.stack.frame.body.state != RESUMABLE_END && step.becomes.Ready? && !KeepsState(m, step)
  }

  /** The coroutine has made a step; what is owed is owed to it. */
  ghost predicate Stepped(h: History, c: nat) {
    Legal(h) && c < Count(h) && Owed(h) == if StateIn(h, c).Done? then Some(TokenReset(c)) else None
  }

  lemma RanContinues(h: History, c: nat, m: Machine)
    requires Quiet(h) && c < Count(h) && Invariant(m) && Leaves(StateIn(h, c), m.state)
    ensures Stepped(Then(h, Ran(c, m)), c) && Continues(h, Then(h, Ran(c, m)), Some(c)) && !IsMisqueued(Then(h, Ran(c, m)), c)
  {
    assert Then(h, Ran(c, m)).before == h;
    QueueIsRunnable(h);
  }

  /** The coroutine went on, and all is well unless it misqueued. */
  ghost predicate GoesOn(h: History, g: History, c: nat, misqueued: bool) {
    Continues(h, g, Some(c)) && (IsMisqueued(g, c) <==> misqueued) && (!misqueued ==> Stepped(g, c))
  }

  /** A frame's part of a turn misqueues its coroutine exactly when its native step does. */
  lemma FrameContinues(h: History, c: nat, turn: Turn, k: nat)
    requires Stepped(h, c) && CanGoOn(h, c, turn, k)
    ensures GoesOn(h, AfterFrame(h, c, turn, k).0, c, MisqueuesAt(MachineIn(h, c), turn.steps[k]))
  {
    var m, step := MachineIn(h, c), turn.steps[k];
    MachinesAreSound(h, c);
    if step.Native? && m.stack.frame.body.state == RESUMABLE_END {
      StepKeepsInvariant(m, step);
      NativeStepEnds(m, step);
      RanContinues(h, c, NativeNext(m, step));
    } else if step.Native? {
      NativeContinues(h, c, turn, k);
    } else if step.RunCatch? {
      StepKeepsInvariant(m, step);
      CatchStepEnds(m, step);
      RanContinues(h, c, CatchNext(m, step));
    } else {
      CodeRunEnds(m, turn.steps, k);
      RanContinues(h, c, CodeRun(m, turn.steps, k).0);
    }
  }

  lemma NativeContinues(h: History, c: nat, turn: Turn, k: nat)
    requires Stepped(h, c) && CanGoOn(h, c, turn, k)
    requires turn.steps[k].Native? && MachineIn(h, c).stack.frame.body.state != RESUMABLE_END
    ensures GoesOn(h, AfterFrame(h, c, turn, k).0, c, MisqueuesAt(MachineIn(h, c), turn.steps[k]))
  {
    var m, step := MachineIn(h, c), turn.steps[k];
    var asked := AnswerAll(h, turn.Asks(k), Some(c));
    var next := NativeNext(m, step);
    MachinesAreSound(h, c);
    AnswersContinue(h, turn.Asks(k), Some(c));
    AnswersLeaveRunning(h, turn.Asks(k), c);
    StepKeepsInvariant(m, step);
    NativeStepEnds(m, step);
    ContinuesForOne(h, asked, Some(c));
    if step.becomes.Ready? {
      StateSetByNativeIsKept(m, step);
    }
    if Leaves(StateIn(asked, c), next.state) {
      RanContinues(asked, c, next);
    } else {
      QueueIsRunnable(asked);
      MisqueueContinues(asked, c, next);
    }
    ContinuesFurther(h, asked, Then(asked, Ran(c, next)), Some(c));
  }

  lemma MisqueueContinues(h: History, c: nat, m: Machine)
    ensures Continues(h, Then(h, Ran(c, m)), Some(c))
  {
    assert Then(h, Ran(c, m)).before == h;
  }

  lemma SteppedIsNotMisqueued(h: History, c: nat)
    requires Stepped(h, c)
    ensures !IsMisqueued(h, c)
  {
    QueueIsRunnable(h);
  }

  lemma {:induction false} FramesContinue(h: History, c: nat, turn: Turn, k: nat)
    requires Stepped(h, c)
    ensures var g := AfterFrames(h, c, turn, k); GoesOn(h, g, c, IsMisqueued(g, c))
    decreases |turn.steps| - k
  {
    if CanGoOn(h, c, turn, k) {
      var (g, next) := AfterFrame(h, c, turn, k);
      FrameContinues(h, c, turn, k);
      if Stepped(g, c) {
        FramesContinue(g, c, turn, next);
        ContinuesFurther(h, g, AfterFrames(h, c, turn, k), Some(c));
      }
    } else {
      SteppedIsNotMisqueued(h, c);
    }
  }

  /** The coroutine has made a step, and may have misqueued. */
  ghost predicate HasStepped(h: History, c: nat) {
    IsMisqueued(h, c) || Stepped(h, c)
  }

  lemma OneMoreFrame(h: History, c: nat, turn: Turn, k: nat)
    requires HasStepped(h, c) && CanGoOn(h, c, turn, k)
    ensures Stepped(h, c)
    ensures var (g, next) := AfterFrame(h, c, turn, k);
            HasStepped(g, c) && AfterFrames(h, c, turn, k) == AfterFrames(g, c, turn, next)
  {
    FrameContinues(h, c, turn, k);
  }

  /** The coroutine is taken from the queue and run, and everyone else keeps its place. */
  ghost predicate Begins(h: History, g: History, c: nat) {
    && Extends(g, h) && Count(h) <= Count(g) && Queue(h) != [] && Queue(h)[0] == c && Queue(h)[1..] <= Queue(g)
    && OthersWait(h, g, Some(c)) && Begun(g) == Begun(h) + [c]
  }

  lemma BeginsFurther(a: History, b: History, d: History, c: nat)
    requires Begins(a, b, c) && Continues(b, d, Some(c))
    ensures Begins(a, d, c)
  {
    ExtendsFurther(d, b, a);
  }

  lemma BeginBegins(h: History, c: nat, fault: ExceptionId)
    requires Quiet(h) && Queue(h) != [] && Queue(h)[0] == c && IsRunnable(StateIn(h, c))
    ensures var g := AfterBegin(h, c, fault); Begins(h, g, c) && Stepped(g, c)
  {
    var m, first := MachineIn(h, c), FirstStep(MainOf(h, c), StateIn(h, c), fault);
    MachinesAreSound(h, c);
    StepKeepsInvariant(m, first);
    FirstStepEnds(m, first);
    QueueIsRunnable(h);
    assert c in Queue(h);
    assert AfterBegin(h, c, fault).before == h;
  }

  lemma DoneContinues(h: History, c: nat, requests: seq<Request>)
    requires Stepped(h, c) && StateIn(h, c).Done?
    ensures var g := AfterDone(h, c, requests);
            Continues(h, g, None) && Quiet(g) && MachineIn(g, c) == MachineIn(h, c)
    ensures HasCallback(h, c) ==> CalledBack(AfterDone(h, c, requests), c)
  {
    var g, reset := AfterDone(h, c, requests), Then(h, TokenReset(c));
    OwedMayHappen(h);
    EventContinues(h, TokenReset(c));
    if HasCallback(h, c) {
      var called := Then(reset, CallbackRun(c));
      OwedMayHappen(reset);
      EventContinues(reset, CallbackRun(c));
      ContinuesFurther(h, reset, called, None);
      AnswersContinue(called, requests, None);
      ContinuesFurther(h, called, g, None);
      RecordStays(g, called, c);
    }
  }

  lemma OwedMayHappen(h: History)
    requires Legal(h) && Owed(h).Some?
    ensures Allows(h, Owed(h).value)
  {
  }

  lemma RunsAndBlocks(h: History, turn: Turn)
    requires Quiet(h) && Queue(h) != []
    ensures IsRunnable(StateIn(h, Queue(h)[0])) && HasStepped(AfterBlock(h, Queue(h)[0], turn), Queue(h)[0])
  {
    OnlyRunnableBegin(h);
    BeginBegins(h, Queue(h)[0], turn.fault);
    FramesContinue(AfterBegin(h, Queue(h)[0], turn.fault), Queue(h)[0], turn, 0);
  }

  /**
   A turn is taken by the first coroutine of the queue, and by nobody else: all others are as they
   were or were queued, and those behind it move up. All is well afterwards unless it misqueued.
   */
  lemma TurnContinues(h: History, turn: Turn)
    requires Quiet(h) && Queue(h) != []
    ensures var c, (g, outcome) := Queue(h)[0], AfterTurn(h, turn);
      && Begins(h, g, c)
      && (outcome.Misqueued? <==> IsMisqueued(g, c))
      && (outcome.CutShort? <==> StateIn(g, c).Running?)
      && (!outcome.Misqueued? ==> Quiet(g))
      && (outcome.Blocked? && StateIn(g, c).Done? && HasCallback(h, c) ==> CalledBack(g, c))
  {
    OnlyRunnableBegin(h);
    var c := Queue(h)[0];
    var begun, blocked := AfterBegin(h, c, turn.fault), AfterBlock(h, c, turn);
    BeginBegins(h, c, turn.fault);
    FramesContinue(begun, c, turn, 0);
    BeginsFurther(h, begun, blocked, c);
    if OutcomeOf(blocked, c).Blocked? && StateIn(blocked, c).Done? {
      var g := AfterDone(blocked, c, turn.callback);
      DoneContinues(blocked, c, turn.callback);
      ContinuesForOne(blocked, g, Some(c));
      BeginsFurther(h, blocked, g, c);
      RecordStays(blocked, h, c);
      DoneIsNotQueued(g, c);
    }
  }

  lemma DoneIsNotQueued(h: History, c: nat)
    requires Legal(h) && StateIn(h, c).Done?
    ensures c !in Queue(h)
  {
    QueueIsRunnable(h);
  }

  // ----- a turn is a run of the machine

  /** The last of these steps misqueues. */
  ghost predicate LastMisqueues(m: Machine, steps: seq<Step>) {
    && steps != []
    && var n := |steps| - 1;
       Allowed(m, steps[..n]) && Enabled(RunAll(m, steps[..n]), steps[n]) && MisqueuesAt(RunAll(m, steps[..n]), steps[n])
  }

  lemma LastIs(m: Machine, init: seq<Step>, last: Step)
    ensures LastMisqueues(m, init + [last]) <==>
              Allowed(m, init) && Enabled(RunAll(m, init), last) && MisqueuesAt(RunAll(m, init), last)
  {
    assert (init + [last])[..|init|] == init;
  }

  lemma LastOfMore(m: Machine, a: seq<Step>, b: seq<Step>)
    requires Allowed(m, a) && Allowed(RunAll(m, a), b) && b != []
    ensures LastMisqueues(m, a + b) <==> LastMisqueues(RunAll(m, a), b)
  {
    var init, last := b[..|b| - 1], b[|b| - 1];
    AllowedPrefix(RunAll(m, a), b, |b| - 1);
    RunFurther(m, a, init);
    LastIs(RunAll(m, a), init, last);
    LastIs(m, a + init, last);
    assert b == init + [last];
    assert a + b == (a + init) + [last];
  }

  lemma {:induction false} AllowedPrefix(m: Machine, steps: seq<Step>, n: nat)
    requires Allowed(m, steps) && n <= |steps|
    ensures Allowed(m, steps[..n])
    decreases n
  {
    if n > 0 {
      AllowedPrefix(Next(m, steps[0]), steps[1..], n - 1);
      assert steps[..n][1..] == steps[1..][..n - 1];
    }
  }

  /** The machine takes these steps, and the last one decides whether the coroutine is misqueued. */
  ghost predicate IsRun(start: Machine, steps: seq<Step>, now: Machine, misqueued: bool) {
    Allowed(start, steps) && now == RunAll(start, steps) && (misqueued <==> LastMisqueues(start, steps))
  }

  lemma RunOfMore(start: Machine, a: seq<Step>, m: Machine, b: seq<Step>, now: Machine, misqueued: bool)
    requires IsRun(start, a, m, false) && IsRun(m, b, now, misqueued)
    ensures IsRun(start, a + b, now, misqueued)
  {
    RunFurther(start, a, b);
    if b == [] {
      assert a + b == a;
    } else {
      LastOfMore(start, a, b);
    }
  }

  lemma RunOfOne(m: Machine, step: Step)
    requires Enabled(m, step)
    ensures IsRun(m, [step], Next(m, step), MisqueuesAt(m, step))
  {
    assert [step][1..] == [] && [step][..0] == [];
  }

  lemma FrameIsRun(h: History, c: nat, turn: Turn, k: nat)
    requires CanGoOn(h, c, turn, k)
    ensures var m, (g, next) := MachineIn(h, c), AfterFrame(h, c, turn, k);
            IsRun(m, turn.steps[k..next], MachineIn(g, c), MisqueuesAt(m, turn.steps[k]))
  {
    var m, step := MachineIn(h, c), turn.steps[k];
    var (g, next) := AfterFrame(h, c, turn, k);
    if step.Native? || step.RunCatch? {
      RunOfOne(m, step);
      assert turn.steps[k..next] == [step];
    } else {
      var _ := CodeRunIsExact(m, turn.steps, k);
      assert IsCodeStep(turn.steps[k..next][next - k - 1]);
    }
  }

  lemma JoinedSteps(steps: seq<Step>, k: nat, next: nat, end: nat)
    requires k <= next <= end <= |steps|
    ensures steps[k..next] + steps[next..end] == steps[k..end]
  {
  }

  /** The position reached in the turn. */
  ghost function FramesEnd(h: History, c: nat, turn: Turn, k: nat): nat
    decreases |turn.steps| - k
  {
    if CanGoOn(h, c, turn, k) then FramesEnd(AfterFrame(h, c, turn, k).0, c, turn, AfterFrame(h, c, turn, k).1) else k
  }

  lemma {:induction false} FramesAreRun(h: History, c: nat, turn: Turn, k: nat)
    requires Stepped(h, c) && k <= |turn.steps|
    ensures k <= FramesEnd(h, c, turn, k) <= |turn.steps|
    ensures var g, end := AfterFrames(h, c, turn, k), FramesEnd(h, c, turn, k);
      && IsRun(MachineIn(h, c), turn.steps[k..end], MachineIn(g, c), IsMisqueued(g, c))
      && !CanGoOn(g, c, turn, end)
    decreases |turn.steps| - k
  {
    if CanGoOn(h, c, turn, k) {
      var (g, next) := AfterFrame(h, c, turn, k);
      FrameContinues(h, c, turn, k);
      FrameIsRun(h, c, turn, k);
      if Stepped(g, c) {
        FramesAreRun(g, c, turn, next);
        SteppedIsNotMisqueued(g, c);
        var last, end := AfterFrames(h, c, turn, k), FramesEnd(h, c, turn, k);
        RunOfMore(MachineIn(h, c), turn.steps[k..next], MachineIn(g, c), turn.steps[next..end], MachineIn(last, c),
                  IsMisqueued(last, c));
        JoinedSteps(turn.steps, k, next, end);
      }
    } else {
      SteppedIsNotMisqueued(h, c);
      assert turn.steps[k..k] == [];
    }
  }

  /** How many steps of the turn are taken. */
  ghost function TurnEnd(h: History, turn: Turn): nat
    requires Legal(h) && Queue(h) != []
  {
    OnlyRunnableBegin(h);
    FramesEnd(AfterBegin(h, Queue(h)[0], turn.fault), Queue(h)[0], turn, 0)
  }

  /**
   A turn is a run of the coroutine's machine: its first step and then steps of the turn, up to one
   after which it is not running or to where no further step can be taken. It is misqueued exactly
   when the last step queues it as ready and then completes or blocks it.
   */
  lemma TurnIsRun(h: History, turn: Turn)
    requires Quiet(h) && Queue(h) != []
    ensures TurnEnd(h, turn) <= |turn.steps|
    ensures var c, (g, outcome), end := Queue(h)[0], AfterTurn(h, turn), TurnEnd(h, turn);
            var first := FirstStep(MainOf(h, c), StateIn(h, c), turn.fault);
      && IsRun(MachineIn(h, c), [first] + turn.steps[..end], MachineIn(g, c), outcome.Misqueued?)
      && (outcome.CutShort? ==> !CanGoOn(g, c, turn, end))
  {
    OnlyRunnableBegin(h);
    var c := Queue(h)[0];
    var begun, blocked := AfterBegin(h, c, turn.fault), AfterBlock(h, c, turn);
    BeginBegins(h, c, turn.fault);
    var end := TurnEnd(h, turn);
    FramesAreRun(begun, c, turn, 0);
    var m, first := MachineIn(h, c), FirstStep(MainOf(h, c), StateIn(h, c), turn.fault);
    RunOfOne(m, first);
    RunOfMore(m, [first], MachineIn(begun, c), turn.steps[0..end], MachineIn(blocked, c), IsMisqueued(blocked, c));
    FramesContinue(begun, c, turn, 0);
    if OutcomeOf(blocked, c).Blocked? && StateIn(blocked, c).Done? {
      DoneContinues(blocked, c, turn.callback);
    }
  }
}
