/**
 What has happened in a context since it was made, and what that says about its present state:
 src/vm/context.cpp and src/vm/objects/coroutine.cpp. Coroutines and tokens are named by the
 numbers of the order they were made in.
 */
module Histories {
  import opened Common
  import opened CallStack
  import opened Interpreter
  import opened StackInvariant

  datatype Event =
    | Made(main: MainCall)
    | Moved(c: nat, to: CoroutineState) // by the context, to the end of the ready queue
    | Began(c: nat, left: Machine) // taken from the front of the queue, and made its first step
    | Ran(c: nat, left: Machine) // made further steps
    | Issued(c: nat)
    | TokenUsed(t: nat)
    | CallbackSet(c: nat)
    | TokenReset(c: nat)
    | CallbackRun(c: nat)

  datatype History = NoHistory | Then(before: History, event: Event)

  // ----- the present state

  const NEW_MACHINE := Machine(New, Bottom([]), None, map[])

  /** What there is to know about a coroutine: its function, its machine, the current token, and whether it has a callback. */
  datatype Record = Record(main: MainCall, machine: Machine, token: Option<nat>, callback: bool)

  /** How many coroutines there are. */
  ghost function Count(h: History): nat {
    match h
    case NoHistory => 0
    case Then(before, Made(_)) => Count(before) + 1
    case Then(before, _) => Count(before)
  }

  ghost function RecordOf(h: History, c: nat): Record {
    match h
    case NoHistory => Record(MainCall(Null, []), NEW_MACHINE, None, false)
    case Then(before, event) =>
      var r := RecordOf(before, c);
      match event
      case Made(main) => if c == Count(before) then r.(main := main) else r
      case Moved(d, to) =>
        if c == d then r.(machine := r.machine.(state := to), token := if to.Ready? then None else r.token) else r
      case Began(d, left) => if c == d then r.(machine := left) else r
      case Ran(d, left) => if c == d then r.(machine := left) else r
      case Issued(d) => if c == d then r.(token := Some(|Owners(before)|)) else r
      case TokenUsed(_) => r
      case CallbackSet(d) => if c == d then r.(callback := true) else r
      case TokenReset(d) => if c == d then r.(token := None) else r
      case CallbackRun(_) => r
  }

  ghost function MainOf(h: History, c: nat): MainCall {
    RecordOf(h, c).main
  }

  ghost function MachineIn(h: History, c: nat): Machine {
    RecordOf(h, c).machine
  }

  ghost function StateIn(h: History, c: nat): CoroutineState {
    MachineIn(h, c).state
  }

  /** The ready queue. */
  ghost function Queue(h: History): seq<nat> {
    match h
    case NoHistory => []
    case Then(before, Moved(c, _)) => Queue(before) + [c]
    case Then(before, Began(_, _)) => if Queue(before) == [] then [] else Queue(before)[1..]
    case Then(before, _) => Queue(before)
  }

  /** The coroutines that the tokens were made for. */
  ghost function Owners(h: History): seq<nat> {
    match h
    case NoHistory => []
    case Then(before, Issued(c)) => Owners(before) + [c]
    case Then(before, _) => Owners(before)
  }

  /** The current token of a coroutine. */
  ghost function TokenIn(h: History, c: nat): Option<nat> {
    RecordOf(h, c).token
  }

  ghost predicate HasCallback(h: History, c: nat) {
    RecordOf(h, c).callback
  }

  /** The event makes no object, and concerns no other coroutine. */
  predicate ConcernsOnly(e: Event, c: nat) {
    match e
    case Made(_) | Issued(_) => false
    case Moved(d, _) => c == d
    case Began(d, _) => c == d
    case Ran(d, _) => c == d
    case TokenUsed(_) => true
    case CallbackSet(d) => c == d
    case TokenReset(d) => c == d
    case CallbackRun(d) => c == d
  }

  // ----- what may happen next

  /** The coroutine has just become done. */
  ghost predicate JustDone(h: History, c: nat) {
    h.Then? && (h.event.Began? || h.event.Ran?) && h.event.c == c && h.event.left.state.Done?
  }

  /** What must happen next: after a completion the token is reset, and then the callback is called if there is one. */
  ghost function Owed(h: History): Option<Event> {
    match h
    case NoHistory => None
    case Then(_, Began(c, left)) => if left.state.Done? then Some(TokenReset(c)) else None
    case Then(_, Ran(c, left)) => if left.state.Done? then Some(TokenReset(c)) else None
    case Then(before, TokenReset(c)) => if HasCallback(before, c) then Some(CallbackRun(c)) else None
    case Then(_, _) => None
  }

  /** How control may leave a coroutine that is running, or that is ready again. */
  predicate Leaves(before: CoroutineState, after: CoroutineState) {
    if before.Running? then after.Running? || after.Waiting? || after.Done? else before.Ready? && after.Ready?
  }

  /**
   Coroutines start and resume in order, only the first one of the queue may begin, a token resumes a
   waiting coroutine and only if it is the current one; and what is owed after a completion comes next.
   */
  ghost predicate Allows(h: History, e: Event) {
    if Owed(h).Some? then e == Owed(h).value
    else
      match e
      case Made(_) => true
      case Moved(c, to) => c < Count(h) && Reschedules(StateIn(h, c), to)
      case Began(c, left) =>
        Queue(h) != [] && Queue(h)[0] == c && Invariant(left) && (left.state.Running? || left.state.Done?)
      case Ran(c, left) => c < Count(h) && Invariant(left) && Leaves(StateIn(h, c), left.state)
      case Issued(c) => c < Count(h) && TokenIn(h, c).None?
      case TokenUsed(t) =>
        && h.Then? && t < |Owners(h)| && h.event == Moved(Owners(h)[t], Ready)
        && StateIn(h.before, Owners(h)[t]).Waiting? && TokenIn(h.before, Owners(h)[t]) == Some(t)
      case CallbackSet(c) => c < Count(h)
      case TokenReset(_) | CallbackRun(_) => false
  }

  ghost predicate Legal(h: History) {
    match h
    case NoHistory => true
    case Then(before, event) => Legal(before) && Allows(before, event)
  }

  /** Legal, and nothing is owed. */
  ghost predicate Quiet(h: History) {
    Legal(h) && Owed(h).None?
  }

  // ----- what always holds

  /** Nothing is on record of a coroutine that was not made yet. */
  lemma {:induction false} UnknownIsNew(h: History, c: nat)
    requires Legal(h) && Count(h) <= c
    ensures MachineIn(h, c) == NEW_MACHINE && !HasCallback(h, c) && TokenIn(h, c).None? && c !in Queue(h)
  {
    match h
    case NoHistory =>
    case Then(before, Began(d, _)) =>
      UnknownIsNew(before, c);
      QueueIsRunnable(before);
    case Then(before, _) => UnknownIsNew(before, c);
  }

  /** The queue holds exactly the runnable coroutines, each one once. */
  lemma {:induction false} QueueIsRunnable(h: History)
    requires Legal(h)
    ensures forall c: nat :: c in Queue(h) <==> c < Count(h) && IsRunnable(StateIn(h, c))
    ensures forall i, j :: 0 <= i < j < |Queue(h)| ==> Queue(h)[i] != Queue(h)[j]
  {
    match h
    case NoHistory =>
    case Then(before, event) =>
      QueueIsRunnable(before);
      UnknownIsNew(before, Count(before));
      if event.Began? {
        var q := Queue(before);
        assert q == [event.c] + q[1..];
        assert forall c: nat :: c in q <==> c == event.c || c in q[1..];
      }
  }

  lemma {:induction false} MachinesAreSound(h: History, c: nat)
    requires Legal(h)
    ensures Invariant(MachineIn(h, c))
  {
    match h
    case NoHistory =>
    case Then(before, Moved(d, to)) =>
      MachinesAreSound(before, c);
      if c == d {
        ReschedulingKeepsInvariant(MachineIn(before, c), to);
      }
    case Then(before, _) => MachinesAreSound(before, c);
  }

  lemma {:induction false} OwnersExist(h: History, t: nat)
    requires Legal(h) && t < |Owners(h)|
    ensures Owners(h)[t] < Count(h)
  {
    match h
    case Then(before, _) => if t < |Owners(before)| { OwnersExist(before, t); }
  }

  lemma {:induction false} TokensHaveOwners(h: History, c: nat)
    requires TokenIn(h, c).Some?
    ensures TokenIn(h, c).value < |Owners(h)| && Owners(h)[TokenIn(h, c).value] == c
  {
    match h
    case Then(before, Issued(d)) => if c != d { TokensHaveOwners(before, c); }
    case Then(before, _) => TokensHaveOwners(before, c);
  }

  // ----- over time

  ghost predicate Extends(h: History, earlier: History) {
    h == earlier || (h.Then? && Extends(h.before, earlier))
  }

  lemma {:induction false} ExtendsFurther(a: History, b: History, c: History)
    requires Extends(a, b) && Extends(b, c)
    ensures Extends(a, c)
  {
    if a != b {
      ExtendsFurther(a.before, b, c);
    }
  }

  ghost predicate Used(h: History, t: nat) {
    match h
    case NoHistory => false
    case Then(before, TokenUsed(u)) => t == u || Used(before, t)
    case Then(before, _) => Used(before, t)
  }

  ghost predicate CalledBack(h: History, c: nat) {
    match h
    case NoHistory => false
    case Then(before, CallbackRun(d)) => c == d || CalledBack(before, c)
    case Then(before, _) => CalledBack(before, c)
  }

  /** The coroutines that were taken from the queue and run, one for each turn. */
  ghost function Begun(h: History): seq<nat> {
    match h
    case NoHistory => []
    case Then(before, Began(c, _)) => Begun(before) + [c]
    case Then(before, _) => Begun(before)
  }

  /** What is on record stays on record. */
  lemma {:induction false} RecordStays(h: History, earlier: History, c: nat)
    requires Extends(h, earlier)
    ensures Begun(earlier) <= Begun(h) && Count(earlier) <= Count(h)
    ensures CalledBack(earlier, c) ==> CalledBack(h, c)
    ensures HasCallback(earlier, c) ==> HasCallback(h, c)
    ensures c < Count(earlier) ==> MainOf(h, c) == MainOf(earlier, c)
  {
    if h != earlier {
      RecordStays(h.before, earlier, c);
    }
  }

  /** A coroutine that is done stays done with the result it has. */
  lemma {:induction false} DoneIsFinal(h: History, earlier: History, c: nat)
    requires Legal(h) && Extends(h, earlier) && StateIn(earlier, c).Done?
    ensures Legal(earlier) && MachineIn(h, c) == MachineIn(earlier, c)
  {
    if h != earlier {
      DoneIsFinal(h.before, earlier, c);
      if Queue(h.before) != [] {
        OnlyRunnableBegin(h.before);
      }
    }
  }

  /** None of its tokens works any more. */
  lemma DoneUsesNoToken(h: History, earlier: History, t: nat)
    requires Legal(h) && Extends(h, earlier) && h != earlier && h.event == TokenUsed(t)
    ensures !StateIn(earlier, Owners(h)[t]).Done?
  {
    var c, waiting := Owners(h)[t], h.before.before;
    if Extends(waiting, earlier) && StateIn(earlier, c).Done? {
      DoneIsFinal(waiting, earlier, c);
    }
  }

  lemma {:induction false} UsedWasIssued(h: History, t: nat)
    requires Legal(h) && Used(h, t)
    ensures t < |Owners(h)|
  {
    match h
    case Then(before, TokenUsed(u)) => if t != u { UsedWasIssued(before, t); }
    case Then(before, _) => UsedWasIssued(before, t);
  }

  /** A token that was used is not current any more, and never will be again. */
  lemma {:induction false} UsedIsNotCurrent(h: History, t: nat, c: nat)
    requires Legal(h) && Used(h, t)
    ensures TokenIn(h, c) != Some(t)
  {
    match h
    case Then(before, TokenUsed(u)) =>
      if t != u {
        UsedIsNotCurrent(before, t, c);
      } else {
        assert TokenIn(before, Owners(h)[t]).None?;
        if TokenIn(h, c).Some? {
          TokensHaveOwners(h, c);
        }
      }
    case Then(before, Issued(_)) =>
      UsedIsNotCurrent(before, t, c);
      UsedWasIssued(before, t);
    case Then(before, _) => UsedIsNotCurrent(before, t, c);
  }

  /** A token resumes its coroutine at most once. */
  lemma TokensWorkOnce(h: History, t: nat)
    requires Legal(h) && h.Then? && h.event == TokenUsed(t)
    ensures !Used(h.before, t)
  {
    if Used(h.before.before, t) {
      UsedIsNotCurrent(h.before.before, t, Owners(h)[t]);
    }
  }

  lemma OnlyRunnableBegin(h: History)
    requires Legal(h) && Queue(h) != []
    ensures IsRunnable(StateIn(h, Queue(h)[0]))
  {
    QueueIsRunnable(h);
    assert Queue(h)[0] in Queue(h);
  }

  /** The callback is owed right after the completion. */
  lemma CallbackAfterCompletion(h: History, c: nat)
    requires Legal(h) && Owed(h) == Some(CallbackRun(c))
    ensures h.event == TokenReset(c) && JustDone(h.before, c) && StateIn(h, c).Done?
  {
    assert Allows(h.before, h.event);
    assert StateIn(h.before, c).Done?;
  }

  lemma {:induction false} CalledBackIsDone(h: History, c: nat)
    requires Legal(h) && CalledBack(h, c)
    ensures StateIn(h, c).Done?
  {
    match h
    case Then(before, CallbackRun(d)) =>
      if c == d {
        CallbackAfterCompletion(before, c);
      } else {
        CalledBackIsDone(before, c);
      }
    case Then(before, event) =>
      CalledBackIsDone(before, c);
      DoneIsFinal(h, before, c);
  }

  /** At most one callback call per coroutine. */
  lemma CallbacksRunOnce(h: History, c: nat)
    requires Legal(h) && h.Then? && h.event == CallbackRun(c)
    ensures !CalledBack(h.before, c)
  {
    CallbackAfterCompletion(h.before, c);
    NotDoneBefore(h.before.before, c);
  }

  lemma NotDoneBefore(h: History, c: nat)
    requires Legal(h) && JustDone(h, c)
    ensures !CalledBack(h, c)
  {
    if CalledBack(h.before, c) {
      CalledBackIsDone(h.before, c);
      if Queue(h.before) != [] {
        OnlyRunnableBegin(h.before);
      }
    }
  }

  /** What is owed is the next thing that happens. */
  lemma {:induction false} OwedIsNext(h: History, g: History)
    requires Legal(h) && Extends(h, g) && Owed(g).Some?
    ensures h == g || Extends(h, Then(g, Owed(g).value))
  {
    if h != g {
      OwedIsNext(h.before, g);
    }
  }

  /** The token is reset and the callback called right after the completion, whatever happens later. */
  lemma CompletionIsCalledBack(h: History, done: History, c: nat)
    requires Quiet(h) && Extends(h, done) && JustDone(done, c) && HasCallback(done, c)
    ensures Extends(h, Then(Then(done, TokenReset(c)), CallbackRun(c))) && CalledBack(h, c)
  {
    var reset := Then(done, TokenReset(c));
    OwedIsNext(h, done);
    OwedIsNext(h, reset);
    RecordStays(h, Then(reset, CallbackRun(c)), c);
  }

  /** Whoever had a callback before becoming done has been called back. */
  lemma {:induction false} DoneIsCalledBack(h: History, earlier: History, c: nat)
    requires Quiet(h) && Extends(h, earlier) && HasCallback(earlier, c)
    requires !StateIn(earlier, c).Done? && StateIn(h, c).Done?
    ensures CalledBack(h, c)
  {
    var done := Completion(h, earlier, c);
    RecordStays(done, earlier, c);
    CompletionIsCalledBack(h, done, c);
  }

  /** The part of the history that ends with the completion. */
  lemma {:induction false} Completion(h: History, earlier: History, c: nat) returns (done: History)
    requires Legal(h) && Extends(h, earlier) && !StateIn(earlier, c).Done? && StateIn(h, c).Done?
    ensures JustDone(done, c) && Extends(h, done) && Extends(done, earlier)
  {
    if JustDone(h, c) {
      done := h;
    } else {
      done := Completion(h.before, earlier, c);
    }
  }
}
