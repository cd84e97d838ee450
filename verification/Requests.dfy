/**
 What each request of native code does, and what a turn makes of all of them: src/vm/builtins/std.cpp,
 src/vm/context.cpp:87-93, 187-199 and src/vm/objects/coroutine.cpp:123-164.
 */
module Requests {
  import opened Common
  import opened CallStack
  import opened Coroutines
  import opened Histories
  import opened Interpreter
  import opened StepEffects
  import opened Turns

  // ----- one request

  /** One coroutine and the queue are as given, and every other coroutine is as it was. */
  ghost predicate OnlyChanges(h: History, g: History, c: nat, now: Record, queue: seq<nat>) {
    RecordOf(g, c) == now && Queue(g) == queue && forall d: nat :: d != c ==> RecordOf(g, d) == RecordOf(h, d)
  }

  /** A new coroutine with this function and these arguments is started, and last in the queue. */
  lemma LaunchMakesACoroutine(h: History, callee: Value, args: seq<Value>, current: Option<nat>)
    requires Legal(h)
    ensures var g, c := Answer(h, Launch(callee, args), current), Count(h);
      && Count(g) == c + 1 && Owners(g) == Owners(h)
      && OnlyChanges(h, g, c, Record(MainCall(callee, args), NEW_MACHINE.(state := Started), None, false), Queue(h) + [c])
  {
    UnknownIsNew(h, Count(h));
    var made := Then(h, Made(MainCall(callee, args)));
    forall d: nat | d != Count(h)
      ensures RecordOf(Answer(h, Launch(callee, args), current), d) == RecordOf(h, d)
    {
      assert RecordOf(made, d) == RecordOf(h, d);
    }
  }

  /** A new coroutine is started and last in the queue; nothing happens to any other. */
  lemma StartQueues(h: History, c: nat, current: Option<nat>)
    ensures var g, r := Answer(h, StartOne(c), current), RecordOf(h, c);
            if c < Count(h) && r.machine.state.New? then
              && Count(g) == Count(h) && Owners(g) == Owners(h)
              && OnlyChanges(h, g, c, r.(machine := r.machine.(state := Started)), Queue(h) + [c])
            else g == h
  {
  }

  /** The coroutine that waits for its current token is ready, last in the queue, and has no token. */
  lemma TokenResumes(h: History, t: nat, current: Option<nat>)
    ensures var g := Answer(h, UseOneToken(t), current);
            if t < |Owners(h)| && RecordOf(h, Owners(h)[t]).token == Some(t) && StateIn(h, Owners(h)[t]).Waiting? then
              var c, r := Owners(h)[t], RecordOf(h, Owners(h)[t]);
              && Count(g) == Count(h) && Owners(g) == Owners(h) && Used(g, t)
              && OnlyChanges(h, g, c, r.(machine := r.machine.(state := Ready), token := None), Queue(h) + [c])
            else g == h
  {
    if t < |Owners(h)| && Answer(h, UseOneToken(t), current) != h {
      var c, moved := Owners(h)[t], Then(h, Moved(Owners(h)[t], Ready));
      forall d: nat | d != c
        ensures RecordOf(Answer(h, UseOneToken(t), current), d) == RecordOf(h, d)
      {
        assert RecordOf(moved, d) == RecordOf(h, d);
      }
    }
  }

  /** The running coroutine has a current token afterwards: the one it had, or a new one. */
  lemma TokenIsMade(h: History, c: nat)
    ensures var g, r := Answer(h, MakeToken, Some(c)), RecordOf(h, c);
            if r.token.Some? then g == h
            else
              && Count(g) == Count(h) && Owners(g) == Owners(h) + [c]
              && OnlyChanges(h, g, c, r.(token := Some(|Owners(h)|)), Queue(h))
    ensures Answer(h, MakeToken, None) == h
  {
  }

  /** A running coroutine that is dispatched is ready, last in the queue, and has no token. */
  lemma DispatchQueues(h: History, c: nat)
    ensures var g, r := Answer(h, Dispatch, Some(c)), RecordOf(h, c);
            if r.machine.state.Running? then
              && Count(g) == Count(h) && Owners(g) == Owners(h)
              && OnlyChanges(h, g, c, r.(machine := r.machine.(state := Ready), token := None), Queue(h) + [c])
            else g == h
    ensures Answer(h, Dispatch, None) == h
  {
  }

  lemma CallbackIsSet(h: History, c: nat, current: Option<nat>)
    ensures var g, r := Answer(h, SetCallback(c), current), RecordOf(h, c);
            if c < Count(h) then
              && Count(g) == Count(h) && Owners(g) == Owners(h)
              && OnlyChanges(h, g, c, r.(callback := true), Queue(h))
            else g == h
  {
  }

  // ----- several requests

  /** Requests take effect in order. */
  lemma {:induction false} AnswersInOrder(h: History, a: seq<Request>, b: seq<Request>, current: Option<nat>)
    ensures AnswerAll(h, a + b, current) == AnswerAll(AnswerAll(h, a, current), b, current)
    ensures b == [] ==> AnswerAll(h, b, current) == h
    ensures |b| == 1 ==> AnswerAll(h, b, current) == Answer(h, b[0], current)
    decreases |b|
  {
    if b == [] {
      assert a + b == a;
    } else {
      var init, r := b[..|b| - 1], b[|b| - 1];
      assert (a + b)[..|a + b| - 1] == a + init;
      AnswersInOrder(h, a, init, current);
    }
  }

  /** The functions of all coroutines, in the order they were made. */
  ghost function Mains(h: History): seq<MainCall> {
    match h
    case NoHistory => []
    case Then(before, Made(main)) => Mains(before) + [main]
    case Then(before, _) => Mains(before)
  }

  lemma {:induction false} MainsAreOfCoroutines(h: History, c: nat)
    ensures |Mains(h)| == Count(h) && (c < Count(h) ==> Mains(h)[c] == MainOf(h, c))
  {
    match h
    case NoHistory =>
    case Then(before, _) => MainsAreOfCoroutines(before, c);
  }

  /** The functions that requests launch, with their arguments. */
  function Launches(rs: seq<Request>): seq<MainCall> {
    if rs == [] then [] else LaunchOf(rs[0]) + Launches(rs[1..])
  }

  function LaunchOf(r: Request): seq<MainCall> {
    if r.Launch? then [MainCall(r.callee, r.args)] else []
  }

  lemma {:induction false} LaunchesAppend(a: seq<Request>, b: seq<Request>)
    ensures Launches(a + b) == Launches(a) + Launches(b)
  {
    if a == [] {
      assert a + b == b;
    } else {
      assert (a + b)[0] == a[0] && (a + b)[1..] == a[1..] + b;
      LaunchesAppend(a[1..], b);
      Regrouped(LaunchOf(a[0]), Launches(a[1..]), Launches(b));
    }
  }

  /** Requests make exactly the coroutines they launch, in order. */
  lemma {:induction false} AnswersLaunch(h: History, rs: seq<Request>, current: Option<nat>)
    ensures Mains(AnswerAll(h, rs, current)) == Mains(h) + Launches(rs)
  {
    if rs != [] {
      var init, r := rs[..|rs| - 1], rs[|rs| - 1];
      AnswersLaunch(h, init, current);
      AnswerLaunches(AnswerAll(h, init, current), r, current);
      LaunchesAppend(init, [r]);
      LaunchesOne(r);
      Regrouped(Mains(h), Launches(init), LaunchOf(r));
      assert rs == init + [r];
    }
  }

  lemma LaunchesOne(r: Request)
    ensures Launches([r]) == LaunchOf(r)
  {
    assert [r][1..] == [] && LaunchOf(r) + [] == LaunchOf(r);
  }

  lemma AnswerLaunches(h: History, r: Request, current: Option<nat>)
    ensures Mains(Answer(h, r, current)) == Mains(h) + LaunchOf(r)
  {
    if r.Launch? {
      assert Mains(Then(h, Made(MainCall(r.callee, r.args)))) == Mains(h) + LaunchOf(r);
    } else {
      assert Mains(h) + [] == Mains(h);
    }
  }

  // ----- the requests of a turn

  /** What native functions asked for in these steps, of which the first is step k of the turn. */
  ghost function Asked(m: Machine, steps: seq<Step>, turn: Turn, k: nat): seq<Request>
    requires Allowed(m, steps)
    decreases |steps|
  {
    if steps == [] then []
    else
      (if steps[0].Native? && m.stack.frame.body.state != RESUMABLE_END then turn.Asks(k) else [])
      + Asked(Next(m, steps[0]), steps[1..], turn, k + 1)
  }

  lemma {:induction false} AskedAppend(m: Machine, a: seq<Step>, b: seq<Step>, turn: Turn, k: nat)
    requires Allowed(m, a) && Allowed(RunAll(m, a), b)
    ensures Allowed(m, a + b) && Asked(m, a + b, turn, k) == Asked(m, a, turn, k) + Asked(RunAll(m, a), b, turn, k + |a|)
    decreases |a|
  {
    RunFurther(m, a, b);
    if a == [] {
      assert a + b == b;
    } else {
      assert (a + b)[1..] == a[1..] + b;
      AskedAppend(Next(m, a[0]), a[1..], b, turn, k + 1);
      var own := if a[0].Native? && m.stack.frame.body.state != RESUMABLE_END then turn.Asks(k) else [];
      Regrouped(own, Asked(Next(m, a[0]), a[1..], turn, k + 1), Asked(RunAll(m, a), b, turn, k + |a|));
    }
  }

  lemma {:induction false} CodeAsksNothing(m: Machine, steps: seq<Step>, turn: Turn, k: nat)
    requires Allowed(m, steps) && forall i :: 0 <= i < |steps| ==> IsCodeStep(steps[i])
    ensures Asked(m, steps, turn, k) == []
    decreases |steps|
  {
    if steps != [] {
      CodeAsksNothing(Next(m, steps[0]), steps[1..], turn, k + 1);
    }
  }

  /** A native step has all its requests answered, in order, and then the coroutine makes the step. */
  lemma NativeFramesAnswer(h: History, c: nat, turn: Turn, k: nat)
    requires CanGoOn(h, c, turn, k) && turn.steps[k].Native?
    ensures var m := MachineIn(h, c);
            AfterFrame(h, c, turn, k).0 ==
            Then(AnswerAll(h, Asked(m, [turn.steps[k]], turn, k), Some(c)), Ran(c, Next(m, turn.steps[k])))
  {
    var m, step := MachineIn(h, c), turn.steps[k];
    var own := if m.stack.frame.body.state == RESUMABLE_END then [] else turn.Asks(k);
    assert [step][1..] == [];
    assert Asked(m, [step], turn, k) == own + [] == own;
    assert own == [] ==> AnswerAll(h, own, Some(c)) == h;
  }

  lemma FramesMakeWhatWasAsked(h: History, c: nat, turn: Turn, k: nat)
    requires CanGoOn(h, c, turn, k)
    ensures var m, (g, next) := MachineIn(h, c), AfterFrame(h, c, turn, k);
            Allowed(m, turn.steps[k..next]) && Mains(g) == Mains(h) + Launches(Asked(m, turn.steps[k..next], turn, k))
  {
    var m, step := MachineIn(h, c), turn.steps[k];
    var (g, next) := AfterFrame(h, c, turn, k);
    FrameIsRun(h, c, turn, k);
    if step.Native? {
      NativeFramesAnswer(h, c, turn, k);
      assert turn.steps[k..next] == [step];
      AnswersLaunch(h, Asked(m, [step], turn, k), Some(c));
      assert Mains(g) == Mains(g.before);
    } else {
      if step.RunCatch? {
        assert turn.steps[k..next] == [step] && [step][1..] == [];
      } else {
        var _ := CodeRunIsExact(m, turn.steps, k);
        CodeAsksNothing(m, turn.steps[k..next], turn, k);
      }
      assert Asked(m, turn.steps[k..next], turn, k) == [];
      assert g.before == h && Mains(g) == Mains(h) == Mains(h) + [];
    }
  }

  lemma AskedJoins(m: Machine, steps: seq<Step>, turn: Turn, k: nat, next: nat, end: nat)
    requires k <= next <= end <= |steps| && Allowed(m, steps[k..next])
    requires Allowed(RunAll(m, steps[k..next]), steps[next..end])
    ensures Allowed(m, steps[k..end])
    ensures Asked(m, steps[k..end], turn, k) ==
            Asked(m, steps[k..next], turn, k) + Asked(RunAll(m, steps[k..next]), steps[next..end], turn, next)
  {
    AskedAppend(m, steps[k..next], steps[next..end], turn, k);
    JoinedSteps(steps, k, next, end);
  }

  lemma MadeFurther(h: History, g: History, last: History, a: seq<Request>, b: seq<Request>)
    requires Mains(g) == Mains(h) + Launches(a) && Mains(last) == Mains(g) + Launches(b)
    ensures Mains(last) == Mains(h) + Launches(a + b)
  {
    LaunchesAppend(a, b);
    Regrouped(Mains(h), Launches(a), Launches(b));
  }

  lemma Regrouped<T>(a: seq<T>, b: seq<T>, c: seq<T>)
    ensures a + b + c == a + (b + c)
  {
  }

  /** What the frames ask for from position k of the turn on. */
  ghost function AskedFrom(h: History, c: nat, turn: Turn, k: nat): seq<Request>
    requires Stepped(h, c) && k <= |turn.steps|
  {
    FramesAreRun(h, c, turn, k);
    Asked(MachineIn(h, c), turn.steps[k..FramesEnd(h, c, turn, k)], turn, k)
  }

  lemma {:induction false} AllFramesMakeWhatWasAsked(h: History, c: nat, turn: Turn, k: nat)
    requires Stepped(h, c) && k <= |turn.steps|
    ensures Mains(AfterFrames(h, c, turn, k)) == Mains(h) + Launches(AskedFrom(h, c, turn, k))
    decreases |turn.steps| - k
  {
    FramesAreRun(h, c, turn, k);
    if CanGoOn(h, c, turn, k) {
      var (g, next) := AfterFrame(h, c, turn, k);
      var m, last := MachineIn(h, c), AfterFrames(h, c, turn, k);
      FrameContinues(h, c, turn, k);
      FramesMakeWhatWasAsked(h, c, turn, k);
      if Stepped(g, c) {
        FramesAreRun(g, c, turn, next);
        AllFramesMakeWhatWasAsked(g, c, turn, next);
        FrameIsRun(h, c, turn, k);
        AskedJoins(m, turn.steps, turn, k, next, FramesEnd(g, c, turn, next));
        MadeFurther(h, g, last, Asked(m, turn.steps[k..next], turn, k), AskedFrom(g, c, turn, next));
      }
    } else {
      assert turn.steps[k..k] == [];
    }
  }

  /**
   A turn makes exactly the coroutines that native functions launch in its steps, and then those that
   the completion callback launches.
   */
  lemma TurnsMakeWhatWasAsked(h: History, turn: Turn)
    requires Quiet(h) && Queue(h) != []
    ensures IsRunnable(StateIn(h, Queue(h)[0]))
    ensures var c, (g, outcome), end := Queue(h)[0], AfterTurn(h, turn), TurnEnd(h, turn);
            var begun := Next(MachineIn(h, c), FirstStep(MainOf(h, c), StateIn(h, c), turn.fault));
      && end <= |turn.steps| && Allowed(begun, turn.steps[..end])
      && var called := outcome.Blocked? && StateIn(g, c).Done? && HasCallback(g, c);
         var asked := Asked(begun, turn.steps[..end], turn, 0) + if called then turn.callback else [];
         Mains(g) == Mains(h) + Launches(asked)
  {
    OnlyRunnableBegin(h);
    var c := Queue(h)[0];
    var begun, blocked := AfterBegin(h, c, turn.fault), AfterBlock(h, c, turn);
    BeginBegins(h, c, turn.fault);
    FramesAreRun(begun, c, turn, 0);
    AllFramesMakeWhatWasAsked(begun, c, turn, 0);
    FramesContinue(begun, c, turn, 0);
    var asked := AskedFrom(begun, c, turn, 0);
    assert turn.steps[0..TurnEnd(h, turn)] == turn.steps[..TurnEnd(h, turn)];
    assert Mains(begun) == Mains(h) && asked + [] == asked;
    if OutcomeOf(blocked, c).Blocked? && StateIn(blocked, c).Done? {
      DoneContinues(blocked, c, turn.callback);
      CompletionMakesWhatWasAsked(blocked, c, turn.callback);
      var g := AfterDone(blocked, c, turn.callback);
      MadeFurther(h, blocked, g, asked, if HasCallback(g, c) then turn.callback else []);
    }
  }

  lemma CompletionMakesWhatWasAsked(h: History, c: nat, requests: seq<Request>)
    requires Stepped(h, c) && StateIn(h, c).Done?
    ensures var g := AfterDone(h, c, requests);
            Mains(g) == Mains(h) + Launches(if HasCallback(g, c) then requests else [])
  {
    var g, called := AfterDone(h, c, requests), Then(Then(h, TokenReset(c)), CallbackRun(c));
    DoneContinues(h, c, requests);
    RecordStays(g, h, c);
    if HasCallback(h, c) {
      AnswersLaunch(called, requests, None);
    } else {
      assert Mains(h) + [] == Mains(h);
    }
  }

  /** A coroutine that is done has no current token, whatever its callback asks for. */
  lemma CompletionLeavesNoToken(h: History, c: nat, requests: seq<Request>)
    ensures TokenIn(AfterDone(h, c, requests), c).None?
  {
    var reset := Then(h, TokenReset(c));
    assert TokenIn(reset, c).None? && TokenIn(Then(reset, CallbackRun(c)), c).None?;
    NobodyGetsAToken(Then(reset, CallbackRun(c)), requests, c);
  }

  lemma {:induction false} NobodyGetsAToken(h: History, rs: seq<Request>, c: nat)
    requires TokenIn(h, c).None?
    ensures TokenIn(AnswerAll(h, rs, None), c).None?
  {
    if rs != [] {
      var g, r := AnswerAll(h, rs[..|rs| - 1], None), rs[|rs| - 1];
      NobodyGetsAToken(h, rs[..|rs| - 1], c);
      if r.UseOneToken? {
        TokenResumes(g, r.t, None);
      } else if r.Launch? {
        assert TokenIn(Then(g, Made(MainCall(r.callee, r.args))), c).None?;
      }
    }
  }

  // ----- what was launched is called

  /** The first step of a coroutine calls its function with its arguments; later it goes on where it was. */
  lemma TurnsBeginWithMain(h: History, fault: ExceptionId)
    requires Legal(h) && Queue(h) != []
    ensures var c, main := Queue(h)[0], MainOf(h, Queue(h)[0]);
            IsRunnable(StateIn(h, c)) &&
            var now := MachineIn(AfterBegin(h, c, fault), c);
            if StateIn(h, c).Started? then
              Called(now, Machine(Running, Bottom([]), None, map[]).(secondary := MachineIn(h, c).secondary), [],
                     main.callee, main.arguments, false, fault)
            else now == MachineIn(h, c).(state := Running)
  {
    OnlyRunnableBegin(h);
    var c := Queue(h)[0];
    MachinesAreSound(h, c);
    if StateIn(h, c).Started? {
      var main := MainOf(h, c);
      CoroutinesCallMain(MachineIn(h, c), Begin(main.callee, main.arguments, fault));
    }
  }

  /** A launched function is called with the arguments of the launch when its turn comes, whatever happens in between. */
  lemma LaunchedFunctionsAreCalled(h: History, callee: Value, args: seq<Value>, current: Option<nat>, later: History, fault: ExceptionId)
    requires Legal(h) && Legal(later) && Extends(later, Answer(h, Launch(callee, args), current))
    requires Queue(later) != [] && Queue(later)[0] == Count(h) && StateIn(later, Count(h)).Started?
    ensures var at := Machine(Running, Bottom([]), None, MachineIn(later, Count(h)).secondary);
            Called(MachineIn(AfterBegin(later, Count(h), fault), Count(h)), at, [], callee, args, false, fault)
  {
    LaunchMakesACoroutine(h, callee, args, current);
    RecordStays(later, Answer(h, Launch(callee, args), current), Count(h));
    TurnsBeginWithMain(later, fault);
  }
}
