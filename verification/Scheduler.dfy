/**
 The ready queue, tokens and completion callbacks of a context, and the interpreter's loop that runs
 a coroutine until it blocks: src/vm/context.cpp, src/vm/objects/coroutine.cpp and
 src/vm/interpreter.cpp:933-1112. A ghost history records what happens; the context is at any time
 what its history says, and each method extends the history as specified.
 */
module Scheduler {
  import opened Common
  import opened CallStack
  import opened CallTheorems
  import opened Coroutines
  import opened Histories
  import opened Interpreter
  import opened ReadyLoop
  import opened StackInvariant
  import opened Turns

  ghost function NumberOf(t: Token?): Option<nat> {
    if t == null then None else Some(t.id)
  }

  ghost predicate Distinct(cs: seq<Coroutine>) {
    forall i, j :: 0 <= i < j < |cs| ==> cs[i] != cs[j]
  }

  class Context {
    var firstReady: Coroutine?
    var lastReady: Coroutine?
    var running: bool

    /** The objects that programs and the host can refer to, in the order they were made in. */
    var coroutines: set<Coroutine>
    var known: seq<Coroutine>
    var issued: seq<Token>

    /** The coroutines in the ready list. */
    ghost var queue: seq<Coroutine>
    ghost var history: History

    /** The links form a list without cycles that holds the queue, from first to last. */
    ghost predicate Linked()
      reads this`coroutines, this`queue, this`firstReady, this`lastReady, coroutines`nextReady
    {
      && (forall i :: 0 <= i < |queue| ==> queue[i] in coroutines)
      && Distinct(queue)
      && (if queue == [] then firstReady == null && lastReady == null
          else firstReady == queue[0] && lastReady == queue[|queue| - 1])
      && (forall i :: 0 <= i < |queue| - 1 ==> queue[i].nextReady == queue[i + 1])
      && (queue != [] ==> queue[|queue| - 1].nextReady == null)
      && (forall c :: c in coroutines && c !in queue ==> c.nextReady == null)
    }

    ghost predicate QueueIs(ids: seq<nat>)
      reads this`queue
    {
      |queue| == |ids| && forall i :: 0 <= i < |ids| ==> queue[i].id == ids[i]
    }

    /** The numbers of these coroutines, and of the tokens, are their positions. */
    ghost predicate Named(cs: set<Coroutine>)
      reads this`known, this`issued, this`history
    {
      && |known| == Count(history) && |issued| == |Owners(history)|
      && (forall i :: 0 <= i < |known| ==> known[i] in cs && known[i].id == i)
      && (forall c :: c in cs ==> c.id < |known| && known[c.id] == c)
      && (forall i :: 0 <= i < |issued| ==>
            issued[i].id == i && issued[i].coroutine in cs && issued[i].coroutine.id == Owners(history)[i])
    }

    ghost function Seen(c: Coroutine): Record
      reads c`state, c`stack, c`result, c`secondary, c`currentToken, c`hasCallback
    {
      Record(c.Main(), c.Now(), NumberOf(c.currentToken), c.hasCallback)
    }

    ghost predicate TokenKnown(c: Coroutine)
      reads this`issued, c`currentToken
    {
      c.currentToken != null ==>
        && c.currentToken.coroutine == c
        && c.currentToken.id < |issued| && issued[c.currentToken.id] == c.currentToken
    }

    ghost predicate TokensKnown(cs: set<Coroutine>)
      reads this`issued, cs`currentToken
    {
      forall c :: c in cs ==> TokenKnown(c)
    }

    /** These coroutines are as the history says. */
    ghost predicate OnRecord(cs: set<Coroutine>)
      reads this`history, cs`state, cs`stack, cs`result, cs`secondary, cs`currentToken, cs`hasCallback
    {
      forall c :: c in cs ==> Seen(c) == RecordOf(history, c.id)
    }

    /** The context is what the history says, but for the order of the queue. */
    ghost predicate Matches()
      reads this`coroutines, this`known, this`issued
      reads this`queue, this`firstReady, this`lastReady, this`history, coroutines
    {
      Linked() && Named(coroutines) && TokensKnown(coroutines) && OnRecord(coroutines)
    }

    /** The same, but for one coroutine. */
    ghost predicate MatchesBut(c: Coroutine)
      reads this`coroutines, this`known, this`issued
      reads this`queue, this`firstReady, this`lastReady, this`history, coroutines`nextReady
      reads (coroutines - {c})`state, (coroutines - {c})`stack, (coroutines - {c})`result
      reads (coroutines - {c})`secondary, (coroutines - {c})`currentToken, (coroutines - {c})`hasCallback
    {
      && c in coroutines && Linked() && Named(coroutines)
      && TokensKnown(coroutines - {c}) && OnRecord(coroutines - {c})
    }

    ghost predicate Valid()
      reads this`coroutines, this`known, this`issued
      reads this`queue, this`firstReady, this`lastReady, this`history, coroutines
    {
      Matches() && QueueIs(Queue(history))
    }

    /** The coroutine was taken from the list, and is not begun yet. */
    ghost predicate Dequeued(c: Coroutine)
      reads this`coroutines, this`known, this`issued
      reads this`queue, this`firstReady, this`lastReady, this`history, coroutines
    {
      var q := Queue(history);
      Matches() && c in coroutines && q != [] && q[0] == c.id && QueueIs(q[1..])
    }

    /** The coroutine is runnable, and not in the list yet. */
    ghost predicate Unlinked(c: Coroutine)
      reads this`coroutines, this`known, this`issued
      reads this`queue, this`firstReady, this`lastReady, this`history, coroutines
    {
      var q := Queue(history);
      && Matches() && c in coroutines && c !in queue
      && q != [] && q[|q| - 1] == c.id && QueueIs(q[..|q| - 1])
    }

    /** The last steps of the coroutine are not on record yet. */
    ghost predicate InTurn(c: Coroutine)
      reads this`coroutines, this`known, this`issued
      reads this`queue, this`firstReady, this`lastReady, this`history, coroutines`nextReady
      reads (coroutines - {c})`state, (coroutines - {c})`stack, (coroutines - {c})`result
      reads (coroutines - {c})`secondary, (coroutines - {c})`currentToken, (coroutines - {c})`hasCallback
      reads c`currentToken, c`hasCallback
    {
      && MatchesBut(c) && TokenKnown(c) && QueueIs(Queue(history))
      && var r := RecordOf(history, c.id);
         c.Main() == r.main && NumberOf(c.currentToken) == r.token && c.hasCallback == r.callback
    }

    /** Puts on record what has been done to the coroutine. */
    ghost method Note(c: Coroutine, e: Event)
      requires MatchesBut(c) && TokenKnown(c) && ConcernsOnly(e, c.id) && Seen(c) == RecordOf(Then(history, e), c.id)
      modifies this`history
      ensures Matches() && history == Then(old(history), e)
    {
      history := Then(history, e);
    }

    constructor ()
      ensures Valid() && !running && history == NoHistory && coroutines == {}
    {
      firstReady, lastReady, running := null, null, false;
      coroutines, known, issued, queue, history := {}, [], [], [], NoHistory;
    }

    method MakeCoroutine(callee: Value, arguments: seq<Value>) returns (c: Coroutine)
      requires Valid() && Quiet(history)
      modifies this`coroutines, this`known, this`history
      ensures Valid() && Quiet(history)
      ensures fresh(c) && coroutines == old(coroutines) + {c} && known == old(known) + [c]
      ensures history == Then(old(history), Made(MainCall(callee, arguments))) && c.id == Count(old(history))
    {
      MadeIsNew(history, MainCall(callee, arguments));
      c := new Coroutine(|known|, callee, arguments);
      Register(c);
    }

    method Register(c: Coroutine)
      requires Valid() && Quiet(history) && c !in coroutines && c.id == |known| && c.nextReady == null
      requires c.Now() == NEW_MACHINE && c.currentToken == null && !c.hasCallback
      modifies this`coroutines, this`known, this`history
      ensures Valid() && coroutines == old(coroutines) + {c} && known == old(known) + [c]
      ensures history == Then(old(history), Made(c.Main())) && c.id == Count(old(history))
    {
      EnterName(c);
      Admit(c);
      assert Matches();
    }

    method EnterName(c: Coroutine)
      requires Named(coroutines) && TokensKnown(coroutines) && OnRecord(coroutines) && Legal(history)
      requires c !in coroutines && c.id == |known| && c.Now() == NEW_MACHINE && c.currentToken == null && !c.hasCallback
      modifies this`known, this`history
      ensures Named(coroutines + {c}) && OnRecord(coroutines + {c})
      ensures known == old(known) + [c] && history == Then(old(history), Made(c.Main()))
    {
      UnknownIsNew(history, c.id);
      known := known + [c];
      history := Then(history, Made(c.Main()));
    }

    method Admit(c: Coroutine)
      requires Linked() && TokensKnown(coroutines) && c !in coroutines && c.nextReady == null && c.currentToken == null
      modifies this`coroutines
      ensures Linked() && TokensKnown(coroutines) && coroutines == old(coroutines) + {c}
    {
      coroutines := coroutines + {c};
    }

    method ScheduleCoroutine(c: Coroutine)
      requires Unlinked(c)
      modifies this`firstReady, this`lastReady, this`queue, coroutines`nextReady
      ensures Valid()
    {
      LinkLast(c);
    }

    method LinkLast(c: Coroutine)
      requires Linked() && c in coroutines && c !in queue
      modifies this`firstReady, this`lastReady, this`queue, coroutines`nextReady
      ensures Linked() && queue == old(queue) + [c]
    {
      assert c.nextReady == null;
      if lastReady != null {
        lastReady.nextReady := c;
        lastReady := c;
      } else {
        firstReady := c;
        lastReady := c;
      }
      queue := queue + [c];
    }

    method DequeueCoroutine() returns (c: Coroutine?)
      requires Valid()
      modifies this`firstReady, this`lastReady, this`queue, coroutines`nextReady
      ensures if Queue(history) == [] then c == null && Valid() else c != null && Dequeued(c)
    {
      c := UnlinkFirst();
    }

    method UnlinkFirst() returns (c: Coroutine?)
      requires Linked()
      modifies this`firstReady, this`lastReady, this`queue, coroutines`nextReady
      ensures Linked()
      ensures if old(queue) == [] then c == null && queue == []
              else c == old(queue)[0] && queue == old(queue)[1..] && c !in queue
    {
      c := firstReady;
      if c == null {
        return;
      }
      firstReady := c.nextReady;
      c.nextReady := null;
      if firstReady == null {
        lastReady := null;
      }
      queue := queue[1..];
    }

    /** A coroutine that is not runnable is not in the list. */
    lemma IsNotQueued(c: Coroutine)
      requires Valid() && Quiet(history) && c in coroutines && !IsRunnable(c.state)
      ensures c !in queue
    {
      QueueIsRunnable(history);
      forall i | 0 <= i < |queue|
        ensures IsRunnable(queue[i].state)
      {
        assert Queue(history)[i] in Queue(history);
        assert StateIn(history, queue[i].id) == queue[i].state;
      }
    }

    method Start(c: Coroutine) returns (ok: bool)
      requires Valid() && Quiet(history) && c in coroutines
      modifies this`firstReady, this`lastReady, this`queue, this`history, coroutines`nextReady, coroutines`state
      ensures Valid() && Quiet(history) && (ok <==> old(c.state).New?)
      ensures history == if ok then Then(old(history), Moved(c.id, Started)) else old(history)
    {
      if c.state != New {
        return false;
      }
      EventIsQuiet(history, Moved(c.id, Started));
      MarkStarted(c);
      ScheduleCoroutine(c);
      ok := true;
    }

    method MarkStarted(c: Coroutine)
      requires Valid() && Quiet(history) && c in coroutines && c.state.New?
      modifies this`history, c`state
      ensures Unlinked(c) && history == Then(old(history), Moved(c.id, Started))
    {
      IsNotQueued(c);
      assert MatchesBut(c);
      c.state := Started;
      Note(c, Moved(c.id, Started));
    }

    /** Returns the current token of the coroutine, or makes one. */
    method CreateToken(c: Coroutine) returns (t: Token)
      requires Valid() && c in coroutines
      modifies this`issued, this`history, c`currentToken
      ensures Valid() && c.currentToken == t && t in issued && t.coroutine == c
      ensures if old(c.currentToken) != null then t == old(c.currentToken) && history == old(history)
              else fresh(t) && history == Then(old(history), Issued(c.id))
    {
      if c.currentToken != null {
        return c.currentToken;
      }
      t := new Token(c, |issued|);
      Issue(t);
    }

    method Issue(t: Token)
      requires Valid() && t.coroutine in coroutines && t.id == |issued| && t.coroutine.currentToken == null
      modifies this`issued, this`history, t.coroutine`currentToken
      ensures Valid() && t.coroutine.currentToken == t && issued == old(issued) + [t]
      ensures history == Then(old(history), Issued(t.coroutine.id))
    {
      assert MatchesBut(t.coroutine) && Seen(t.coroutine) == RecordOf(history, t.coroutine.id);
      t.coroutine.currentToken := t;
      assert MatchesBut(t.coroutine);
      ListToken(t);
    }

    method ListToken(t: Token)
      requires Named(coroutines) && TokensKnown(coroutines - {t.coroutine}) && OnRecord(coroutines - {t.coroutine})
      requires t.coroutine in coroutines && t.id == |issued| && t.coroutine.currentToken == t
      requires Seen(t.coroutine) == RecordOf(history, t.coroutine.id).(token := Some(t.id))
      modifies this`issued, this`history
      ensures Named(coroutines) && TokensKnown(coroutines) && OnRecord(coroutines)
      ensures issued == old(issued) + [t] && history == Then(old(history), Issued(t.coroutine.id))
    {
      issued := issued + [t];
      history := Then(history, Issued(t.coroutine.id));
      forall c | c in coroutines
        ensures TokenKnown(c) && Seen(c) == RecordOf(history, c.id)
      {
        assert c != t.coroutine ==> c in coroutines - {t.coroutine};
      }
    }

    /** Moves a running or waiting coroutine to the end of the ready queue; its token becomes useless. */
    method ResumeCoroutine(c: Coroutine)
      requires Valid() && Quiet(history) && c in coroutines && (c.state.Running? || c.state.Waiting?)
      modifies this`firstReady, this`lastReady, this`queue, this`history
      modifies coroutines`nextReady, coroutines`state, coroutines`currentToken
      ensures Valid() && history == Then(old(history), Moved(c.id, Ready))
    {
      MarkReady(c);
      ScheduleCoroutine(c);
    }

    method MarkReady(c: Coroutine)
      requires Valid() && Quiet(history) && c in coroutines && (c.state.Running? || c.state.Waiting?)
      modifies this`history, c`state, c`currentToken
      ensures Unlinked(c) && history == Then(old(history), Moved(c.id, Ready))
    {
      IsNotQueued(c);
      assert MatchesBut(c);
      c.currentToken := null;
      c.state := Ready;
      Note(c, Moved(c.id, Ready));
    }

    /** Resumes the token's coroutine if it waits and the token was not superseded. */
    method UseToken(t: Token) returns (ok: bool)
      requires Valid() && Quiet(history) && t in issued
      modifies this`firstReady, this`lastReady, this`queue, this`history
      modifies coroutines`nextReady, coroutines`state, coroutines`currentToken
      ensures Valid() && Quiet(history) && history == AnswerToken(old(history), t.id)
      ensures ok <==> old(t.coroutine.currentToken) == t && old(t.coroutine.state).Waiting?
    {
      var c := t.coroutine;
      if c.currentToken != t {
        return false;
      }
      if c.state != Waiting {
        return false;
      }
      assert Seen(c) == RecordOf(history, c.id);
      TokenAnswerContinues(history, t.id);
      ResumeCoroutine(c);
      NoteUsed(t);
      ok := true;
    }

    ghost method NoteUsed(t: Token)
      requires Valid() && t in issued
      modifies this`history
      ensures Valid() && history == Then(old(history), TokenUsed(t.id))
    {
      Note(t.coroutine, TokenUsed(t.id));
    }

    // ----- requests

    method LaunchNew(callee: Value, args: seq<Value>)
      requires Valid() && Quiet(history)
      modifies this`coroutines, this`known, this`firstReady, this`lastReady, this`queue, this`history
      modifies coroutines`nextReady, coroutines`state
      ensures Valid() && history == Answer(old(history), Launch(callee, args), None)
      ensures coroutines >= old(coroutines) && fresh(coroutines - old(coroutines))
    {
      ghost var h, made := history, Then(history, Made(MainCall(callee, args)));
      MadeIsNew(h, made.event.main);
      var c := MakeCoroutine(callee, args);
      var ok := Start(c);
      assert ok;
    }

    method StartNamed(index: nat)
      requires Valid() && Quiet(history)
      modifies this`firstReady, this`lastReady, this`queue, this`history, coroutines`nextReady, coroutines`state
      ensures Valid() && history == Answer(old(history), StartOne(index), None)
    {
      if index < |known| {
        var ok := Start(known[index]);
      }
    }

    method UseNamedToken(index: nat)
      requires Valid() && Quiet(history)
      modifies this`firstReady, this`lastReady, this`queue, this`history
      modifies coroutines`nextReady, coroutines`state, coroutines`currentToken
      ensures Valid() && history == Answer(old(history), UseOneToken(index), None)
    {
      if index < |issued| {
        var ok := UseToken(issued[index]);
      }
    }

    method SetNamedCallback(index: nat)
      requires Valid()
      modifies this`history, coroutines`hasCallback
      ensures Valid() && history == Answer(old(history), SetCallback(index), None)
    {
      if index < |known| {
        assert MatchesBut(known[index]);
        known[index].hasCallback := true;
        Note(known[index], CallbackSet(index));
      }
    }

    method DispatchCurrent(c: Coroutine)
      requires Valid() && Quiet(history) && c in coroutines
      modifies this`firstReady, this`lastReady, this`queue, this`history
      modifies coroutines`nextReady, coroutines`state, coroutines`currentToken
      ensures Valid() && history == Answer(old(history), Dispatch, Some(c.id))
    {
      if c.state.Running? {
        ResumeCoroutine(c);
      }
    }

    method MakeCurrentToken(c: Coroutine)
      requires Valid() && c in coroutines
      modifies this`issued, this`history, coroutines`currentToken
      ensures Valid() && history == Answer(old(history), MakeToken, Some(c.id))
    {
      var _ := CreateToken(c);
    }

    ghost function IdOf(c: Coroutine?): Option<nat> {
      if c == null then None else Some(c.id)
    }

    /** Carries out one request; `current` is the running coroutine, if native code runs inside one. */
    method Perform(r: Request, current: Coroutine?)
      requires Valid() && Quiet(history) && (current != null ==> current in coroutines)
      modifies this`coroutines, this`known, this`issued
      modifies this`firstReady, this`lastReady, this`queue, this`history
      modifies coroutines`nextReady, coroutines`state, coroutines`currentToken, coroutines`hasCallback
      ensures Valid() && history == Answer(old(history), r, IdOf(current))
      ensures coroutines >= old(coroutines) && fresh(coroutines - old(coroutines))
    {
      match r
      case Launch(callee, args) => LaunchNew(callee, args);
      case StartOne(i) => StartNamed(i);
      case UseOneToken(i) => UseNamedToken(i);
      case MakeToken =>
        if current != null {
          MakeCurrentToken(current);
        }
      case Dispatch =>
        if current != null {
          DispatchCurrent(current);
        }
      case SetCallback(i) => SetNamedCallback(i);
    }

    method PerformAll(requests: seq<Request>, current: Coroutine?)
      requires Valid() && Quiet(history) && (current != null ==> current in coroutines)
      modifies this`coroutines, this`known, this`issued
      modifies this`firstReady, this`lastReady, this`queue, this`history
      modifies coroutines`nextReady, coroutines`state, coroutines`currentToken, coroutines`hasCallback
      ensures Valid() && Quiet(history) && history == AnswerAll(old(history), requests, IdOf(current))
      ensures coroutines >= old(coroutines) && fresh(coroutines - old(coroutines))
    {
      for i := 0 to |requests|
        invariant Valid() && Quiet(history) && history == AnswerAll(old(history), requests[..i], IdOf(current))
        invariant coroutines >= old(coroutines) && fresh(coroutines - old(coroutines))
      {
        assert requests[..i + 1][..i] == requests[..i];
        AnswerContinues(history, requests[i], IdOf(current));
        Perform(requests[i], current);
      }
      assert requests[..|requests|] == requests;
    }

    // ----- running a coroutine until it blocks

    /** Puts the steps of the coroutine on record. */
    ghost method Settle(c: Coroutine)
      requires InTurn(c)
      modifies this`history
      ensures Valid() && history == Then(old(history), Ran(c.id, c.Now()))
    {
      Note(c, Ran(c.id, c.Now()));
    }

    /** Invokes the native function of the top frame once, and carries out what it asked for. */
    method RunResumable(c: Coroutine, step: Step, asks: seq<Request>)
      requires Valid() && Quiet(history) && c in coroutines && c.state.Running?
      requires Invariant(c.Now()) && Enabled(c.Now(), step) && step.Native?
      requires step.becomes.Ready? <==> Dispatch in asks
      modifies this`coroutines, this`known, this`issued
      modifies this`firstReady, this`lastReady, this`queue, this`history
      modifies coroutines`nextReady, coroutines`state, coroutines`currentToken, coroutines`hasCallback
      modifies c`stack, c`result, c`secondary
      ensures var asked := if old(c.stack).frame.body.state == RESUMABLE_END then old(history)
                           else AnswerAll(old(history), asks, Some(c.id));
              Valid() && history == Then(asked, Ran(c.id, NativeNext(old(c.Now()), step)))
      ensures coroutines >= old(coroutines) && fresh(coroutines - old(coroutines))
    {
      if c.stack.frame.body.state == RESUMABLE_END {
        ReturnFromEnd(c, step);
      } else {
        ghost var start := c.Now();
        AnswersLeaveRunning(history, asks, c.id);
        PerformAll(asks, c);
        Conclude(c, step, start);
      }
    }

    /** The native function had asked not to be invoked again. */
    method ReturnFromEnd(c: Coroutine, step: Step)
      requires Valid() && c in coroutines && Invariant(c.Now()) && Enabled(c.Now(), step) && step.Native?
      requires c.stack.frame.body.state == RESUMABLE_END
      modifies this`history, c`state, c`stack, c`result, c`secondary
      ensures Valid() && history == Then(old(history), Ran(c.id, NativeNext(old(c.Now()), step)))
    {
      assert InTurn(c);
      c.ReturnFromEnd(step);
      Settle(c);
    }

    /** What follows after the native function returned; it may have left another state than at the start of the step. */
    method Conclude(c: Coroutine, step: Step, ghost start: Machine)
      requires Valid() && c in coroutines && step.Native?
      requires Invariant(start) && Enabled(start, step) && start.stack.frame.body.state != RESUMABLE_END
      requires c.Now() == start.(state := c.state)
      modifies this`history, c`state, c`stack, c`result, c`secondary
      ensures Valid() && history == Then(old(history), Ran(c.id, NativeNext(start, step)))
    {
      assert InTurn(c);
      c.Conclude(step, start);
      Settle(c);
    }

    /** One turn of a catch frame. */
    method RunCatchFrame(c: Coroutine, step: Step)
      requires Valid() && c in coroutines && Invariant(c.Now()) && Enabled(c.Now(), step) && step.RunCatch?
      modifies this`history, c`state, c`stack, c`result, c`secondary
      ensures Valid() && history == Then(old(history), Ran(c.id, CatchNext(old(c.Now()), step)))
    {
      assert InTurn(c);
      c.RunCatch(step);
      Settle(c);
    }

    /** Instructions up to a suspension point. */
    method RunInstructions(c: Coroutine, steps: seq<Step>, k: nat) returns (next: nat)
      requires Valid() && c in coroutines && c.state.Running? && Invariant(c.Now())
      requires k < |steps| && Enabled(c.Now(), steps[k]) && IsCodeStep(steps[k])
      modifies this`history, c`state, c`stack, c`result, c`secondary
      ensures var (now, end) := CodeRun(old(c.Now()), steps, k);
              Valid() && history == Then(old(history), Ran(c.id, now)) && next == end
    {
      assert InTurn(c);
      next := c.RunCode(steps, k);
      Settle(c);
    }

    /** Runs the topmost frame: instructions up to a suspension point, or one step of a native or catch frame. */
    method RunFrame(c: Coroutine, turn: Turn, k: nat) returns (next: nat)
      requires Valid() && c in coroutines && Stepped(history, c.id) && CanGoOn(history, c.id, turn, k)
      modifies this`coroutines, this`known, this`issued
      modifies this`firstReady, this`lastReady, this`queue, this`history
      modifies coroutines`nextReady, coroutines`state, coroutines`currentToken, coroutines`hasCallback
      modifies c`stack, c`result, c`secondary
      ensures Valid() && (history, next) == AfterFrame(old(history), c.id, turn, k)
      ensures coroutines >= old(coroutines) && fresh(coroutines - old(coroutines))
    {
      MachinesAreSound(history, c.id);
      assert Seen(c).machine == MachineIn(history, c.id);
      match c.stack.frame.body
      case Resumable(_) =>
        next := k + 1;
        RunResumable(c, turn.steps[k], turn.Asks(k));
      case Code(_, _, _) => next := RunInstructions(c, turn.steps, k);
      case Catch(_, _) =>
        next := k + 1;
        RunCatchFrame(c, turn.steps[k]);
    }

    /** The coroutine has made steps, and running its frames from position k on leads to the given end. */
    ghost predicate LeadsTo(c: Coroutine, turn: Turn, k: nat, end: History)
      reads this`coroutines, this`known, this`issued
      reads this`queue, this`firstReady, this`lastReady, this`history, coroutines
    {
      var h := history;
      && Valid() && c in coroutines && c.Now() == MachineIn(h, c.id)
      && HasStepped(h, c.id) && AfterFrames(h, c.id, turn, k) == end
    }

    /** One iteration of the loop below. */
    method RunNextFrame(c: Coroutine, turn: Turn, k: nat, ghost end: History) returns (next: nat)
      requires LeadsTo(c, turn, k, end)
      requires c.state.Running? && k < |turn.steps| && Enabled(c.Now(), turn.steps[k]) && turn.Consistent(k)
      modifies this`coroutines, this`known, this`issued
      modifies this`firstReady, this`lastReady, this`queue, this`history
      modifies coroutines`nextReady, coroutines`state, coroutines`currentToken, coroutines`hasCallback
      modifies c`stack, c`result, c`secondary
      ensures LeadsTo(c, turn, next, end) && k < next <= |turn.steps|
      ensures coroutines >= old(coroutines) && fresh(coroutines - old(coroutines))
    {
      OneMoreFrame(history, c.id, turn, k);
      next := RunFrame(c, turn, k);
      assert Seen(c).machine == MachineIn(history, c.id);
    }

    /** The loop that runs the topmost frame while the coroutine is running. */
    method RunFrames(c: Coroutine, turn: Turn)
      requires Valid() && c in coroutines && Stepped(history, c.id)
      modifies this`coroutines, this`known, this`issued
      modifies this`firstReady, this`lastReady, this`queue, this`history
      modifies coroutines`nextReady, coroutines`state, coroutines`currentToken, coroutines`hasCallback
      modifies c`stack, c`result, c`secondary
      ensures Valid() && c in coroutines && history == AfterFrames(old(history), c.id, turn, 0)
      ensures coroutines >= old(coroutines) && fresh(coroutines - old(coroutines))
    {
      ghost var end := AfterFrames(history, c.id, turn, 0);
      var k := 0;
      assert Seen(c).machine == MachineIn(history, c.id);
      while c.state.Running? && k < |turn.steps| && Enabled(c.Now(), turn.steps[k]) && turn.Consistent(k)
        invariant LeadsTo(c, turn, k, end)
        invariant coroutines >= old(coroutines) && fresh(coroutines - old(coroutines))
        decreases |turn.steps| - k
      {
        k := RunNextFrame(c, turn, k, end);
      }
    }

    /** Sets a dequeued coroutine running: its function is called, or it goes on where it was blocked. */
    method BeginTurn(c: Coroutine, fault: ExceptionId)
      requires Dequeued(c) && Invariant(c.Now()) && IsRunnable(c.state)
      modifies this`history, c`state, c`stack, c`result, c`secondary
      ensures var first := FirstStep(c.Main(), old(c.state), fault);
              Valid() && history == Then(old(history), Began(c.id, Next(old(c.Now()), first)))
    {
      assert MatchesBut(c);
      c.BeginRun(fault);
      Note(c, Began(c.id, c.Now()));
    }

    /** Runs the coroutine until it is ready, waiting or done, or until the turn has no further step that can be taken. */
    method RunUntilBlock(c: Coroutine, turn: Turn)
      requires Dequeued(c) && Quiet(history) && IsRunnable(StateIn(history, c.id))
      modifies this`coroutines, this`known, this`issued
      modifies this`firstReady, this`lastReady, this`queue, this`history
      modifies coroutines`nextReady, coroutines`state, coroutines`currentToken, coroutines`hasCallback
      modifies c`stack, c`result, c`secondary
      ensures Valid() && c in coroutines && history == AfterBlock(old(history), c.id, turn)
      ensures coroutines >= old(coroutines) && fresh(coroutines - old(coroutines))
    {
      assert Seen(c) == RecordOf(history, c.id);
      MachinesAreSound(history, c.id);
      BeginBegins(history, c.id, turn.fault);
      BeginTurn(c, turn.fault);
      RunFrames(c, turn);
    }

    /** How the turn ended; a coroutine that is linked, or last in line, is in the list. */
    function Outcome(c: Coroutine): TurnOutcome
      requires Valid() && c in coroutines
      reads this`coroutines, this`known, this`issued
      reads this`queue, this`firstReady, this`lastReady, this`history, coroutines
      ensures Outcome(c) == OutcomeOf(history, c.id)
    {
      QueuedIsLinked(c);
      var queued := c.nextReady != null || lastReady == c;
      if queued && (c.state.Waiting? || c.state.Done?) then Misqueued
      else if c.state.Running? then CutShort else Blocked
    }

    lemma QueuedIsLinked(c: Coroutine)
      requires Valid() && c in coroutines
      ensures c.id in Queue(history) <==> c.nextReady != null || lastReady == c
    {
      if c.id in Queue(history) {
        var i :| 0 <= i < |queue| && Queue(history)[i] == c.id;
        assert queue[i].id == c.id && known[c.id] == queue[i] && known[c.id] == c;
        if i < |queue| - 1 {
          assert queue[i].nextReady == queue[i + 1];
        }
      } else {
        forall i | 0 <= i < |queue|
          ensures queue[i] != c
        {
          assert Queue(history)[i] in Queue(history) && queue[i].id == Queue(history)[i];
        }
      }
    }

    /** What follows after a completion: the token is reset, and the callback is called if there is one. */
    method AfterCompletion(c: Coroutine, requests: seq<Request>)
      requires Valid() && c in coroutines && c.state.Done? && Stepped(history, c.id)
      modifies this`coroutines, this`known, this`issued
      modifies this`firstReady, this`lastReady, this`queue, this`history
      modifies coroutines`nextReady, coroutines`state, coroutines`currentToken, coroutines`hasCallback
      ensures Valid() && history == AfterDone(old(history), c.id, requests)
      ensures coroutines >= old(coroutines) && fresh(coroutines - old(coroutines))
    {
      ResetToken(c);
      ExecuteCallbacks(c, requests);
    }

    method ResetToken(c: Coroutine)
      requires Valid() && c in coroutines
      modifies this`history, c`currentToken
      ensures Valid() && c.currentToken == null && history == Then(old(history), TokenReset(c.id))
    {
      assert MatchesBut(c);
      c.currentToken := null;
      Note(c, TokenReset(c.id));
    }

    /** Calls the completion callback of a coroutine that has just become done, if it has one. */
    method ExecuteCallbacks(c: Coroutine, requests: seq<Request>)
      requires Valid() && c in coroutines && Legal(history)
      requires Owed(history) == if c.hasCallback then Some(CallbackRun(c.id)) else None
      modifies this`coroutines, this`known, this`issued
      modifies this`firstReady, this`lastReady, this`queue, this`history
      modifies coroutines`nextReady, coroutines`state, coroutines`currentToken, coroutines`hasCallback
      ensures Valid() && Quiet(history)
      ensures history == if old(c.hasCallback) then AnswerAll(Then(old(history), CallbackRun(c.id)), requests, None)
                         else old(history)
      ensures coroutines >= old(coroutines) && fresh(coroutines - old(coroutines))
    {
      if !c.hasCallback {
        return;
      }
      OwedMayHappen(history);
      Note(c, CallbackRun(c.id));
      PerformAll(requests, null);
    }

    /** A dequeued coroutine runs until it blocks; if it is done then, its callback is called. */
    method TakeTurn(c: Coroutine, turn: Turn) returns (outcome: TurnOutcome)
      requires Dequeued(c) && Quiet(history)
      modifies this`coroutines, this`known, this`issued
      modifies this`firstReady, this`lastReady, this`queue, this`history
      modifies coroutines`nextReady, coroutines`state, coroutines`currentToken, coroutines`hasCallback
      modifies c`stack, c`result, c`secondary
      ensures Valid() && (history, outcome) == AfterTurn(old(history), turn)
      ensures coroutines >= old(coroutines) && fresh(coroutines - old(coroutines))
    {
      RunsAndBlocks(history, turn);
      RunUntilBlock(c, turn);
      outcome := Outcome(c);
      if outcome.Blocked? && c.state.Done? {
        AfterCompletion(c, turn.callback);
      }
    }

    /** One iteration of the loop of run_ready(): the first coroutine of the queue gets a turn. */
    method RunNext(turn: Turn) returns (c: Coroutine, outcome: TurnOutcome)
      requires Valid() && Quiet(history) && Queue(history) != []
      modifies this`coroutines, this`known, this`issued
      modifies this`firstReady, this`lastReady, this`queue, this`history, coroutines
      ensures Valid() && (history, outcome) == AfterTurn(old(history), turn)
      ensures c in coroutines && c.id == old(Queue(history)[0])
      ensures coroutines >= old(coroutines) && fresh(coroutines - old(coroutines))
    {
      c := DequeueCoroutine();
      outcome := TakeTurn(c, turn);
    }

    function HasReady(): bool
      requires Valid()
      reads this`coroutines, this`known, this`issued
      reads this`queue, this`firstReady, this`lastReady, this`history, coroutines
      ensures HasReady() <==> Queue(history) != []
    {
      firstReady != null
    }

    /** Taking the turns from position k on leads to the given end. */
    ghost predicate Serves(script: seq<Turn>, k: nat, end: (History, RunOutcome))
      reads this`coroutines, this`known, this`issued
      reads this`queue, this`firstReady, this`lastReady, this`history, coroutines
    {
      var h := history;
      Valid() && Quiet(h) && k <= |script| && AfterTurns(h, script[k..]) == end
    }

    /** The loop of run_ready(). */
    method Drain(script: seq<Turn>) returns (r: RunOutcome)
      requires Valid() && Quiet(history)
      modifies this`coroutines, this`known, this`issued
      modifies this`firstReady, this`lastReady, this`queue, this`history, coroutines
      ensures Valid() && (history, r) == AfterTurns(old(history), script)
    {
      ghost var end := AfterTurns(history, script);
      var k := 0;
      assert script[k..] == script;
      while HasReady() && k < |script|
        invariant Serves(script, k, end)
        invariant coroutines >= old(coroutines) && fresh(coroutines - old(coroutines))
        decreases |script| - k
      {
        OneMoreTurn(history, script, k);
        var c, outcome := RunNext(script[k]);
        k := k + 1;
        match outcome
        case Misqueued => return LeftMisqueued(c.id);
        case CutShort => return ScriptEnded;
        case Blocked =>
      }
      r := if HasReady() then ScriptEnded else Drained;
    }

    method SetRunning(to: bool)
      requires Valid()
      modifies this`running
      ensures Valid() && running == to
    {
      running := to;
    }

    /**
     Runs queued coroutines, one turn each and in the order of the queue, until none is left. Each
     turn takes the next entry of the script; the run is cut short when the script ends.
     */
    method RunReady(script: seq<Turn>) returns (r: RunOutcome)
      requires Valid() && Quiet(history)
      modifies this`running, this`coroutines, this`known, this`issued
      modifies this`firstReady, this`lastReady, this`queue, this`history, coroutines
      ensures Valid() && running == old(running)
      ensures (history, r) == if old(running) then (old(history), NestedCall) else AfterTurns(old(history), script)
      ensures !r.LeftMisqueued? ==> Quiet(history)
    {
      QueueIsServed(history, script);
      if running {
        return NestedCall;
      }
      SetRunning(true);
      r := Drain(script);
      SetRunning(false);
    }
  }
}
