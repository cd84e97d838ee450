/**
 What a program looks like as bytes. A token is what one write_impl overload appends
 (src/bytecode/writer.cpp:86-126); an instruction is its opcode followed by its operands.
 */
module Encoding {
  import opened Common
  import opened Binary
  import opened InstructionSet

  datatype Token =
    | Op(op: u8)
    | Register(value: u32)
    | Parameter(value: u32)
    | Member(value: u32)
    | Target(value: u32)
    | Label(id: u32)
    | Word(value: u32)
    | Int64(signed: i64)
    | Float64(bits: u64)

  datatype Instr = Instr(op: u8, args: seq<Token>) {
    function Tokens(): seq<Token> {
      [Op(op)] + args
    }
  }

  /** The raw value of an invalid entity id; also the placeholder written for a label. */
  const INVALID: u32 := 0xFFFF_FFFF

  function Width(t: Token): (n: nat)
    ensures n > 0
  {
    match t
    case Op(_) => 1
    case Int64(_) | Float64(_) => 8
    case _ => 4
  }

  /** The unsigned field a token is written as. */
  function Raw(t: Token): nat {
    match t
    case Op(op) => op
    case Label(_) => INVALID
    case Int64(i) => ToU64(i)
    case Float64(bits) => bits
    case Register(v) => v
    case Parameter(v) => v
    case Member(v) => v
    case Target(v) => v
    case Word(v) => v
  }

  function EncodeToken(t: Token): (bytes: seq<u8>)
    ensures |bytes| == Width(t)
  {
    BigEndian(Raw(t), Width(t))
  }

  function Encode(ts: seq<Token>): seq<u8> {
    if ts == [] then [] else EncodeToken(ts[0]) + Encode(ts[1..])
  }

  lemma {:induction false} EncodeAppend(a: seq<Token>, b: seq<Token>)
    ensures Encode(a + b) == Encode(a) + Encode(b)
  {
    if a == [] {
      assert a + b == b;
    } else {
      assert (a + b)[1..] == a[1..] + b;
      EncodeAppend(a[1..], b);
    }
  }

  lemma EncodeOne(t: Token)
    ensures Encode([t]) == EncodeToken(t)
  {
    assert [t][1..] == [];
  }

  function Flatten(program: seq<Instr>): seq<Token> {
    if program == [] then [] else program[0].Tokens() + Flatten(program[1..])
  }

  lemma {:induction false} FlattenAppend(a: seq<Instr>, b: seq<Instr>)
    ensures Flatten(a + b) == Flatten(a) + Flatten(b)
  {
    if a == [] {
      assert a + b == b;
    } else {
      assert (a + b)[1..] == a[1..] + b;
      FlattenAppend(a[1..], b);
    }
  }

  lemma FlattenOne(i: Instr)
    ensures Flatten([i]) == i.Tokens()
  {
    assert [i][1..] == [];
  }

  /** The code of a program, before its labels are patched. */
  function Code(program: seq<Instr>): seq<u8> {
    Encode(Flatten(program))
  }

  lemma CodeAppend(program: seq<Instr>, i: Instr)
    ensures Code(program + [i]) == Code(program) + Encode(i.Tokens())
  {
    FlattenAppend(program, [i]);
    FlattenOne(i);
    EncodeAppend(Flatten(program), i.Tokens());
  }

  /** The parameter kind an operand fits; a label stands where an offset is expected. */
  predicate Fits(t: Token, kind: ParamKind) {
    match kind
    case Local => t.Register?
    case Param => t.Parameter?
    case Module => t.Member?
    case Offset => t.Target? || t.Label?
    case U32 => t.Word?
    case I64 => t.Int64?
    case F64 => t.Float64?
  }

  predicate ArgsFit(args: seq<Token>, kinds: seq<ParamKind>) {
    |args| == |kinds| && forall k :: 0 <= k < |args| ==> Fits(args[k], kinds[k])
  }

  /** The instruction one of the writer's emitters can produce. */
  predicate WellFormed(i: Instr) {
    ValidOpcode(i.op) && ArgsFit(i.args, Params(i.op))
  }

  predicate LabelFree(ts: seq<Token>) {
    forall k :: 0 <= k < |ts| ==> !ts[k].Label?
  }

  /** Replaces a label by the offset it was defined at. */
  function ResolveToken(t: Token, defs: map<u32, u32>): Token {
    if t.Label? && t.id in defs then Target(defs[t.id]) else t
  }

  function Resolve(ts: seq<Token>, defs: map<u32, u32>): (rs: seq<Token>)
    ensures |rs| == |ts|
    ensures forall k :: 0 <= k < |ts| ==> rs[k] == ResolveToken(ts[k], defs)
  {
    seq(|ts|, k requires 0 <= k < |ts| => ResolveToken(ts[k], defs))
  }

  function ResolveInstr(i: Instr, defs: map<u32, u32>): Instr {
    Instr(i.op, Resolve(i.args, defs))
  }

  function ResolveProgram(program: seq<Instr>, defs: map<u32, u32>): (r: seq<Instr>)
    ensures |r| == |program|
    ensures forall k :: 0 <= k < |program| ==> r[k] == ResolveInstr(program[k], defs)
  {
    seq(|program|, k requires 0 <= k < |program| => ResolveInstr(program[k], defs))
  }

  lemma {:induction false} ResolveFlatten(program: seq<Instr>, defs: map<u32, u32>)
    ensures Flatten(ResolveProgram(program, defs)) == Resolve(Flatten(program), defs)
  {
    if program != [] {
      ResolveFlatten(program[1..], defs);
      assert ResolveProgram(program, defs)[1..] == ResolveProgram(program[1..], defs);
    }
  }

  /** Where the tokens selected by a reference list start. */
  datatype Ref = Ref(pos: nat, id: u32)

  /** The label operands of a token sequence that starts at byte `base`. */
  function LabelRefs(ts: seq<Token>, base: nat): seq<Ref> {
    if ts == [] then []
    else (if ts[0].Label? then [Ref(base, ts[0].id)] else []) + LabelRefs(ts[1..], base + Width(ts[0]))
  }

  /** The module operands of a token sequence that starts at byte `base`. */
  function MemberRefs(ts: seq<Token>, base: nat): seq<Ref> {
    if ts == [] then []
    else (if ts[0].Member? then [Ref(base, ts[0].value)] else []) + MemberRefs(ts[1..], base + Width(ts[0]))
  }

  lemma {:induction false} LabelRefsAppend(a: seq<Token>, b: seq<Token>, base: nat)
    ensures LabelRefs(a + b, base) == LabelRefs(a, base) + LabelRefs(b, base + |Encode(a)|)
  {
    if a == [] {
      assert a + b == b;
    } else {
      assert (a + b)[1..] == a[1..] + b;
      var next := base + Width(a[0]);
      var head := if a[0].Label? then [Ref(base, a[0].id)] else [];
      LabelRefsAppend(a[1..], b, next);
      var mid, tail := LabelRefs(a[1..], next), LabelRefs(b, next + |Encode(a[1..])|);
      assert LabelRefs(a + b, base) == head + (mid + tail) == (head + mid) + tail;
    }
  }

  lemma {:induction false} MemberRefsAppend(a: seq<Token>, b: seq<Token>, base: nat)
    ensures MemberRefs(a + b, base) == MemberRefs(a, base) + MemberRefs(b, base + |Encode(a)|)
  {
    if a == [] {
      assert a + b == b;
    } else {
      assert (a + b)[1..] == a[1..] + b;
      var next := base + Width(a[0]);
      var head := if a[0].Member? then [Ref(base, a[0].value)] else [];
      MemberRefsAppend(a[1..], b, next);
      var mid, tail := MemberRefs(a[1..], next), MemberRefs(b, next + |Encode(a[1..])|);
      assert MemberRefs(a + b, base) == head + (mid + tail) == (head + mid) + tail;
    }
  }

  lemma RefsOne(t: Token, base: nat)
    ensures LabelRefs([t], base) == if t.Label? then [Ref(base, t.id)] else []
    ensures MemberRefs([t], base) == if t.Member? then [Ref(base, t.value)] else []
  {
    assert [t][1..] == [];
  }
}
