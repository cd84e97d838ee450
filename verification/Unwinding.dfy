/**
 Where an exception goes in code that the writer finished: the assembler's handler tables
 (src/bytecode/writer.cpp:21-84) and the interpreter's unwinding (src/vm/interpreter.cpp:799-829) together.
 */
module Unwinding {
  import opened Common
  import opened Encoding
  import opened HandlerTable
  import opened BytecodeReader
  import opened BytecodeWriter
  import opened CallStack
  import opened Interpreter
  import opened CallTheorems
  import Assembly

  /** The frame runs code finished from these calls, and is inside or right after this instruction of it. */
  ghost predicate IsAt(f: Frame, c: Calls, prev: Calls, i: Instr) {
    && f.body.Code? && DispatchesAs(f.body.tmpl.handlers, c) && Assembly.Extends(c, Emit(prev, i))
    && Position(prev) < f.body.pc <= Position(Emit(prev, i))
  }

  /** A frame catches exactly where a handler was current when the instruction was emitted. */
  lemma CatchesWhereEmitted(f: Frame, c: Calls, prev: Calls, i: Instr)
    requires Legal(c) && IsAt(f, c, prev, i)
    ensures Catches(f) <==> Handler(prev) != INVALID
    ensures Catches(f) ==> Handler(prev) in Defs(c) && HandlerOf(f) == Some(Defs(c)[Handler(prev)])
  {
    Assembly.ThrowsReachTheirHandler(c, prev, i, f.body.tmpl.handlers, f.body.pc);
  }

  /** Whether unwinding stops at the frame j deep when no younger one catches, and how that frame goes on. */
  lemma StopsWhereCaught(m: Machine, ex: ExceptionId, j: nat)
    requires 0 < j <= m.stack.Depth()
    requires forall n: nat :: j < n <= m.stack.Depth() ==> !Catches(At(m.stack, n).frame)
    ensures var f, r := At(m.stack, j).frame, Unwound(m, ex);
            if !Catches(f) then r.stack.Depth() < j
            else
              && r.state == m.state && r.stack.Depth() == j && r.stack.below == At(m.stack, j).below
              && (f.body.Code? ==> r.stack.frame.body.Code? && r.stack.frame.body.tmpl == f.body.tmpl
                                   && Some(r.stack.frame.body.pc) == HandlerOf(f))
  {
    var k, primary := UnwindingMeaning(m, ex);
  }

  /**
   An exception that arrives at such a frame, thrown there or by a callee, continues with what was
   emitted after the label of the handler that was current at the instruction; with no such handler
   it leaves the frame.
   */
  lemma ExceptionsReachTheirHandler(m: Machine, ex: ExceptionId, j: nat, c: Calls, prev: Calls, i: Instr)
    requires Legal(c) && Complete(c)
    requires 0 < j <= m.stack.Depth() && IsAt(At(m.stack, j).frame, c, prev, i)
    requires forall n: nat :: j < n <= m.stack.Depth() ==> !Catches(At(m.stack, n).frame)
    ensures var f, r := At(m.stack, j).frame, Unwound(m, ex);
            if Handler(prev) == INVALID then r.stack.Depth() < j
            else
              && r.state == m.state && r.stack.Depth() == j && r.stack.below == At(m.stack, j).below
              && r.stack.frame.body.Code? && r.stack.frame.body.tmpl == f.body.tmpl
              && ContinuesAt(r.stack.frame.body.pc, c, Handler(prev))
  {
    StopsWhereCaught(m, ex, j);
    CatchesWhereEmitted(At(m.stack, j).frame, c, prev, i);
    if Handler(prev) != INVALID {
      LabelsContinue(c, Handler(prev));
    }
  }

  /** Decoding from this offset gives what was emitted after the label was defined. */
  ghost predicate ContinuesAt(pc: nat, c: Calls, id: u32) {
    forall at: Calls :: Assembly.Extends(c, DefineLabel(at, id)) ==>
      |Program(at)| <= |Linked(c)| && pc <= |Encoding.Code(Linked(c))|
      && DecodeAll(Encoding.Code(Linked(c)), pc) == Listing(Linked(c)[|Program(at)|..], End)
  }

  lemma LabelsContinue(c: Calls, id: u32)
    requires Legal(c) && Complete(c) && id in Defs(c)
    ensures ContinuesAt(Defs(c)[id], c, id)
  {
    forall at: Calls | Assembly.Extends(c, DefineLabel(at, id))
      ensures |Program(at)| <= |Linked(c)| && Defs(c)[id] <= |Encoding.Code(Linked(c))|
      ensures DecodeAll(Encoding.Code(Linked(c)), Defs(c)[id]) == Listing(Linked(c)[|Program(at)|..], End)
    {
      Assembly.LabelsAreBoundaries(c, at, id);
    }
  }
}
