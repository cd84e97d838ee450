/**
 Values, call frames and the stack of a coroutine: src/vm/objects/coroutine_stack.hpp and
 src/vm/objects/coroutine_stack.cpp. Every frame has its own value stack; the arguments of a
 frame are the topmost values of the frame (or stack bottom) below it.
 */
module CallStack {
  import opened Common
  import opened HandlerTable

  datatype CoroutineState = New | Started | Ready | Running | Waiting | Done

  predicate IsRunnable(state: CoroutineState) {
    state.Started? || state.Ready?
  }

  /** Exceptions are objects; a number identifies one. */
  type ExceptionId = nat

  datatype CodeTemplate = CodeTemplate(params: nat, handlers: seq<Region>)

  /** Handler tables are sorted when they are made. */
  type Template = t: CodeTemplate | Sorted(t.handlers) witness CodeTemplate(0, [])

  datatype Value =
    | Null
    | Plain(id: nat)
    | CodeFunction(tmpl: Template)
    | BoundMethod(callee: Value, instance: Value)
    | NativeFunction(params: nat)
    | CatchFunction
    | ResultValue(result: CallResult)

  /** The Result objects made for completed coroutines and by catch frames. */
  datatype CallResult = Success(value: Value) | Error(exception: ExceptionId)

  const RESUMABLE_START: int := 0
  const RESUMABLE_END: int := -1

  datatype Body =
    | Code(tmpl: Template, pc: nat, current: Option<ExceptionId>)
    | Resumable(state: int)
    | Catch(started: bool, exception: Option<ExceptionId>)

  datatype Frame = Frame(argc: nat, popOneMore: bool, unwinding: bool, body: Body, values: seq<Value>) {
    /** How many values pop_frame() removes from the caller. */
    function Pops(): nat {
      argc + if popOneMore then 1 else 0
    }
  }

  function DropTop(values: seq<Value>, n: nat): (r: seq<Value>)
    ensures n <= |values| ==> r == values[..|values| - n]
  {
    if n <= |values| then values[..|values| - n] else []
  }

  /** Every frame leads to its caller; the values below the first frame are the bottom. */
  datatype Stack = Bottom(base: seq<Value>) | Above(frame: Frame, below: Stack) {
    function Depth(): nat {
      match this
      case Bottom(_) => 0
      case Above(_, below) => below.Depth() + 1
    }

    /** The value stack on top. */
    function Values(): seq<Value> {
      match this
      case Bottom(base) => base
      case Above(f, _) => f.values
    }

    function WithValues(values: seq<Value>): (st: Stack)
      ensures st.Depth() == Depth() && st.Values() == values
    {
      match this
      case Bottom(_) => Bottom(values)
      case Above(f, below) => Above(f.(values := values), below)
    }

    /** The top frame removed, together with its arguments. */
    function PopFrame(): (st: Stack)
      requires Above?
      ensures st.Depth() == Depth() - 1
    {
      below.WithValues(DropTop(below.Values(), frame.Pops()))
    }

    /** Argument `index` of the top frame. */
    function Arg(index: nat): Value
      requires Above? && index < frame.argc <= |below.Values()|
    {
      below.Values()[|below.Values()| - frame.argc + index]
    }

    function WithArg(index: nat, v: Value): Stack
      requires Above? && index < frame.argc <= |below.Values()|
    {
      Above(frame, below.WithValues(below.Values()[|below.Values()| - frame.argc + index := v]))
    }
  }
}
