/** The instruction decoder: src/bytecode/reader.cpp, and the loop of src/bytecode/formatting.cpp:186-199. */
module BytecodeReader {
  import opened Common
  import opened Binary
  import opened InstructionSet
  import opened Encoding

  datatype ReaderError = InvalidOpcode | IncompleteInstruction | End

  datatype ReadResult = Decoded(instr: Instr) | Stopped(error: ReaderError)

  function KindWidth(kind: ParamKind): (n: nat) {
    if kind.I64? || kind.F64? then 8 else 4
  }

  function OperandSize(kinds: seq<ParamKind>): nat {
    if kinds == [] then 0 else KindWidth(kinds[0]) + OperandSize(kinds[1..])
  }

  /** The operand of the given kind whose field holds `raw`. */
  function MakeToken(kind: ParamKind, raw: nat): (t: Token)
    requires raw < Pow256(KindWidth(kind))
    ensures Fits(t, kind) && !t.Label? && Width(t) == KindWidth(kind) && Raw(t) == raw
  {
    Pow256Values();
    match kind
    case Local => Register(raw)
    case Param => Parameter(raw)
    case Module => Member(raw)
    case Offset => Target(raw)
    case U32 => Word(raw)
    case I64 => Int64(ToI64(raw))
    case F64 => Float64(raw)
  }

  lemma TokenIsItsField(t: Token, kind: ParamKind)
    requires Fits(t, kind) && !t.Label?
    ensures Raw(t) < Pow256(KindWidth(kind)) && Width(t) == KindWidth(kind)
    ensures MakeToken(kind, Raw(t)) == t
  {
    Pow256Values();
  }

  function DecodeArgs(kinds: seq<ParamKind>, data: seq<u8>, pos: nat): (args: seq<Token>)
    requires pos + OperandSize(kinds) <= |data|
    ensures |args| == |kinds|
  {
    if kinds == [] then []
    else
      var next := pos + KindWidth(kinds[0]);
      [MakeToken(kinds[0], FromBigEndian(data[pos..next]))] + DecodeArgs(kinds[1..], data, next)
  }

  /** One more operand. */
  lemma DecodeArgsStep(args: seq<Token>, kinds: seq<ParamKind>, k: nat, data: seq<u8>, pos: nat, all: seq<Token>)
    requires k < |kinds| && pos + OperandSize(kinds[k..]) <= |data|
    requires args + DecodeArgs(kinds[k..], data, pos) == all
    ensures OperandSize(kinds[k..]) == KindWidth(kinds[k]) + OperandSize(kinds[k + 1..])
    ensures var next := pos + KindWidth(kinds[k]);
            args + [MakeToken(kinds[k], FromBigEndian(data[pos..next]))] + DecodeArgs(kinds[k + 1..], data, next) == all
  {
    assert kinds[k..][1..] == kinds[k + 1..];
  }

  /** What read() answers at a position, and where it leaves the cursor. */
  function ReadAt(data: seq<u8>, pos: nat): (r: (ReadResult, nat))
    requires pos <= |data|
    ensures pos <= r.1 <= |data|
    ensures pos < |data| ==> pos < r.1
  {
    if pos == |data| then (Stopped(End), pos)
    else if !ValidOpcode(data[pos]) then (Stopped(InvalidOpcode), pos + 1)
    else
      var kinds := Params(data[pos]);
      if |data| - (pos + 1) < OperandSize(kinds) then (Stopped(IncompleteInstruction), pos + 1)
      else (Decoded(Instr(data[pos], DecodeArgs(kinds, data, pos + 1))), pos + 1 + OperandSize(kinds))
  }

  class BytecodeReader {
    const r: CheckedBinaryReader

    ghost predicate Valid()
      reads r
    {
      r.Valid()
    }

    constructor (bytecode: seq<u8>)
      ensures Valid() && fresh(r) && r.data == bytecode && r.pos == 0
    {
      r := new CheckedBinaryReader(bytecode);
    }

    method ReadField(kind: ParamKind) returns (t: Token)
      requires Valid() && r.pos + KindWidth(kind) <= |r.data|
      modifies r
      ensures Valid() && r.pos == old(r.pos) + KindWidth(kind)
      ensures t == MakeToken(kind, FromBigEndian(r.data[old(r.pos)..r.pos]))
    {
      var field := r.ReadRaw(KindWidth(kind));
      DecodesWhatWasEncoded(field.value, KindWidth(kind));
      t := MakeToken(kind, field.value);
    }

    method ReadArgs(kinds: seq<ParamKind>) returns (args: seq<Token>)
      requires Valid() && r.pos + OperandSize(kinds) <= |r.data|
      modifies r
      ensures Valid() && r.pos == old(r.pos) + OperandSize(kinds)
      ensures args == DecodeArgs(kinds, r.data, old(r.pos))
    {
      args := [];
      ghost var all := DecodeArgs(kinds, r.data, r.pos);
      for k := 0 to |kinds|
        invariant Valid() && r.pos + OperandSize(kinds[k..]) == old(r.pos) + OperandSize(kinds)
        invariant args + DecodeArgs(kinds[k..], r.data, r.pos) == all
      {
        DecodeArgsStep(args, kinds, k, r.data, r.pos, all);
        var t := ReadField(kinds[k]);
        args := args + [t];
      }
    }

    method ReadOpcode() returns (op: u8)
      requires Valid() && r.pos < |r.data|
      modifies r
      ensures Valid() && r.pos == old(r.pos) + 1 && op == r.data[old(r.pos)]
    {
      Pow256Values();
      var raw := r.ReadRaw(1);
      op := raw.value;
      assert r.data[old(r.pos)] == r.data[old(r.pos)..r.pos][0] == BigEndian(op, 1)[0] == op;
    }

    method Read() returns (result: ReadResult)
      requires Valid()
      modifies r
      ensures Valid()
      ensures (result, r.pos) == ReadAt(r.data, old(r.pos))
    {
      if r.Remaining() == 0 {
        return Stopped(End);
      }
      var op := ReadOpcode();
      if !ValidOpcode(op) {
        return Stopped(InvalidOpcode);
      }
      var kinds := Params(op);
      if r.Remaining() < OperandSize(kinds) {
        return Stopped(IncompleteInstruction);
      }
      var args := ReadArgs(kinds);
      result := Decoded(Instr(op, args));
    }
  }

  /** All instructions up to the first answer that is not an instruction. */
  datatype Listing = Listing(instrs: seq<Instr>, stop: ReaderError) {
    function After(i: Instr): Listing {
      Listing([i] + instrs, stop)
    }

    ghost function Behind(done: seq<Instr>): Listing {
      Listing(done + instrs, stop)
    }

    lemma AfterBehind(i: Instr, done: seq<Instr>)
      ensures After(i).Behind(done) == Behind(done + [i])
    {
      assert done + ([i] + instrs) == (done + [i]) + instrs;
    }
  }

  function DecodeAll(data: seq<u8>, pos: nat): Listing
    requires pos <= |data|
    decreases |data| - pos
  {
    var (result, next) := ReadAt(data, pos);
    match result
    case Stopped(e) => Listing([], e)
    case Decoded(i) => DecodeAll(data, next).After(i)
  }

  /** The disassembler's loop; it gives up at the first error. */
  method Disassemble(code: seq<u8>) returns (result: Result<seq<Instr>, ReaderError>)
    ensures var all := DecodeAll(code, 0);
            result == if all.stop.End? then Success(all.instrs) else Failure(all.stop)
  {
    var reader := new BytecodeReader(code);
    var instrs := [];
    while reader.r.Remaining() > 0
      invariant reader.Valid() && fresh(reader.r) && reader.r.data == code
      invariant DecodeAll(code, 0) == DecodeAll(code, reader.r.pos).Behind(instrs)
      decreases |code| - reader.r.pos
    {
      var r := reader.Read();
      match r {
        case Stopped(e) => return Failure(e);
        case Decoded(i) =>
          DecodeAll(code, reader.r.pos).AfterBehind(i, instrs);
          instrs := instrs + [i];
      }
    }
    assert DecodeAll(code, reader.r.pos) == Listing([], End);
    assert instrs + [] == instrs;
    result := Success(instrs);
  }

  // ----- decoding inverts encoding

  /** What the writer's offset overloads accept: no label is left. */
  ghost predicate Plain(i: Instr) {
    WellFormed(i) && LabelFree(i.args)
  }

  ghost predicate AllPlain(program: seq<Instr>) {
    program == [] || (Plain(program[0]) && AllPlain(program[1..]))
  }

  /** data holds `field` at pos. */
  ghost predicate HoldsAt(data: seq<u8>, pos: nat, field: seq<u8>) {
    pos + |field| <= |data| && data[pos..pos + |field|] == field
  }

  lemma HoldsSplit(data: seq<u8>, pos: nat, a: seq<u8>, b: seq<u8>)
    ensures HoldsAt(data, pos, a + b) <==> HoldsAt(data, pos, a) && HoldsAt(data, pos + |a|, b)
  {
    if pos + |a + b| <= |data| {
      var both := data[pos..pos + |a + b|];
      assert both[..|a|] == data[pos..pos + |a|];
      assert both[|a|..] == data[pos + |a|..pos + |a| + |b|];
      assert both == both[..|a|] + both[|a|..];
      assert (a + b)[..|a|] == a && (a + b)[|a|..] == b;
    }
  }

  /** Decoded operands fit their kinds and are the only ones with those bytes. */
  lemma {:induction false} ArgsRoundTrip(kinds: seq<ParamKind>, data: seq<u8>, pos: nat)
    requires pos + OperandSize(kinds) <= |data|
    ensures var args := DecodeArgs(kinds, data, pos);
            && ArgsFit(args, kinds) && LabelFree(args)
            && |Encode(args)| == OperandSize(kinds) && HoldsAt(data, pos, Encode(args))
  {
    if kinds != [] {
      var next := pos + KindWidth(kinds[0]);
      ArgsRoundTrip(kinds[1..], data, next);
      var args := DecodeArgs(kinds, data, pos);
      var rest := DecodeArgs(kinds[1..], data, next);
      assert args[1..] == rest;
      EncodesWhatWasDecoded(data[pos..next]);
      assert EncodeToken(args[0]) == data[pos..next];
      HoldsSplit(data, pos, EncodeToken(args[0]), Encode(rest));
      assert forall k :: 0 < k < |args| ==> args[k] == rest[k - 1] && kinds[k] == kinds[1..][k - 1];
    }
  }

  lemma {:induction false} ArgsAreUnique(args: seq<Token>, kinds: seq<ParamKind>, data: seq<u8>, pos: nat)
    requires ArgsFit(args, kinds) && LabelFree(args) && HoldsAt(data, pos, Encode(args))
    ensures |Encode(args)| == OperandSize(kinds) && DecodeArgs(kinds, data, pos) == args
  {
    if kinds != [] {
      TokenIsItsField(args[0], kinds[0]);
      HoldsSplit(data, pos, EncodeToken(args[0]), Encode(args[1..]));
      ArgsAreUnique(args[1..], kinds[1..], data, pos + KindWidth(kinds[0]));
      DecodesWhatWasEncoded(Raw(args[0]), Width(args[0]));
    }
  }

  lemma OpcodeByte(i: Instr, data: seq<u8>, pos: nat)
    ensures Encode(i.Tokens()) == [i.op] + Encode(i.args)
    ensures HoldsAt(data, pos, Encode(i.Tokens())) <==>
              pos < |data| && data[pos] == i.op && HoldsAt(data, pos + 1, Encode(i.args))
  {
    assert i.Tokens()[1..] == i.args;
    assert BigEndian(i.op, 1) == [i.op];
    HoldsSplit(data, pos, [i.op], Encode(i.args));
    if pos < |data| {
      assert data[pos..pos + 1] == [data[pos]];
    }
  }

  /** read() answers an instruction exactly when its encoding stands at the cursor. */
  lemma ReadIsExact(data: seq<u8>, pos: nat, i: Instr)
    requires pos <= |data|
    ensures ReadAt(data, pos).0 == Decoded(i) <==> Plain(i) && HoldsAt(data, pos, Encode(i.Tokens()))
    ensures ReadAt(data, pos).0 == Decoded(i) ==> ReadAt(data, pos).1 == pos + |Encode(i.Tokens())|
  {
    OpcodeByte(i, data, pos);
    if pos < |data| && ValidOpcode(data[pos]) {
      var kinds := Params(data[pos]);
      if pos + 1 + OperandSize(kinds) <= |data| {
        ArgsRoundTrip(kinds, data, pos + 1);
      }
      if Plain(i) && HoldsAt(data, pos, Encode(i.Tokens())) {
        ArgsAreUnique(i.args, kinds, data, pos + 1);
      }
    }
  }

  // ----- which error is which

  /** The bytes at pos are where an instruction's encoding breaks off. */
  ghost predicate BreaksOff(data: seq<u8>, pos: nat, i: Instr)
    requires pos <= |data|
  {
    Plain(i) && data[pos..] < Encode(i.Tokens())
  }

  ghost predicate BeginsWith(i: Instr, op: u8) {
    Plain(i) && Encode(i.Tokens()) != [] && Encode(i.Tokens())[0] == op
  }

  lemma SizeOfPlain(i: Instr)
    requires Plain(i)
    ensures Encode(i.Tokens()) == [i.op] + Encode(i.args) && |Encode(i.args)| == OperandSize(Params(i.op))
  {
    OpcodeByte(i, Encode(i.Tokens()), 0);
    ArgsAreUnique(i.args, Params(i.op), Encode(i.args), 0);
  }

  /** The instruction that these bytes, continued by zeros, hold. */
  lemma Continued(op: u8, bytes: seq<u8>) returns (i: Instr)
    requires ValidOpcode(op) && |bytes| < OperandSize(Params(op))
    ensures i.op == op && Plain(i) && bytes < Encode(i.args)
  {
    var kinds := Params(op);
    var all := bytes + seq(OperandSize(kinds) - |bytes|, _ => 0);
    i := Instr(op, DecodeArgs(kinds, all, 0));
    ArgsRoundTrip(kinds, all, 0);
    assert all[0..0 + |Encode(i.args)|] == all;
  }

  lemma Opens(op: u8) returns (i: Instr)
    requires ValidOpcode(op)
    ensures BeginsWith(i, op)
  {
    var all := seq(OperandSize(Params(op)), _ => 0);
    i := Instr(op, DecodeArgs(Params(op), all, 0));
    ArgsRoundTrip(Params(op), all, 0);
    SizeOfPlain(i);
  }

  /** An opcode is invalid exactly when no instruction begins with its byte. */
  lemma InvalidOpcodeIsExact(data: seq<u8>, pos: nat)
    requires pos < |data|
    ensures ReadAt(data, pos).0 == Stopped(InvalidOpcode) <==> !exists i :: BeginsWith(i, data[pos])
  {
    if ValidOpcode(data[pos]) {
      var _ := Opens(data[pos]);
    } else {
      forall i | Plain(i)
        ensures !BeginsWith(i, data[pos])
      {
        SizeOfPlain(i);
      }
    }
  }

  /** An instruction is incomplete exactly when the bytes left are the beginning of one, but not all of it. */
  lemma IncompleteIsExact(data: seq<u8>, pos: nat)
    requires pos < |data|
    ensures ReadAt(data, pos).0 == Stopped(IncompleteInstruction) <==> exists i :: BreaksOff(data, pos, i)
  {
    var rest := data[pos + 1..];
    assert data[pos..] == [data[pos]] + rest;
    forall i | BreaksOff(data, pos, i)
      ensures ReadAt(data, pos).0 == Stopped(IncompleteInstruction)
    {
      SizeOfPlain(i);
      assert data[pos..][0] == i.op;
    }
    if ValidOpcode(data[pos]) && |rest| < OperandSize(Params(data[pos])) {
      var i := Continued(data[pos], rest);
      SizeOfPlain(i);
      assert BreaksOff(data, pos, i);
    }
  }

  lemma CodeCons(program: seq<Instr>)
    requires program != []
    ensures Code(program) == Encode(program[0].Tokens()) + Code(program[1..])
  {
    EncodeAppend(program[0].Tokens(), Flatten(program[1..]));
  }

  lemma ConsumeHead(data: seq<u8>, pos: nat, head: seq<u8>, rest: seq<u8>)
    requires pos <= |data| && head + rest == data[pos..]
    ensures HoldsAt(data, pos, head) && rest == data[pos + |head|..]
  {
    assert data[pos..pos + |head|] == data[pos..][..|head|] == head;
    assert data[pos + |head|..] == data[pos..][|head|..] == rest;
  }

  lemma DecodeAllStep(data: seq<u8>, pos: nat, i: Instr)
    requires pos <= |data| && ReadAt(data, pos).0 == Decoded(i)
    ensures DecodeAll(data, pos) == DecodeAll(data, ReadAt(data, pos).1).After(i)
  {
  }

  lemma FirstStands(data: seq<u8>, pos: nat, program: seq<Instr>)
    requires pos <= |data| && program != [] && Code(program) == data[pos..]
    ensures var head := Encode(program[0].Tokens());
            HoldsAt(data, pos, head) && Code(program[1..]) == data[pos + |head|..]
  {
    CodeCons(program);
    ConsumeHead(data, pos, Encode(program[0].Tokens()), Code(program[1..]));
  }

  lemma ReadsWhatStands(data: seq<u8>, pos: nat, i: Instr, width: nat)
    requires pos <= |data| && Plain(i) && HoldsAt(data, pos, Encode(i.Tokens())) && width == |Encode(i.Tokens())|
    ensures ReadAt(data, pos).0 == Decoded(i) && ReadAt(data, pos).1 == pos + width
  {
    ReadIsExact(data, pos, i);
  }

  /** The first instruction of a program is read, and the code of the others comes next. */
  lemma HeadIsRead(data: seq<u8>, pos: nat, program: seq<Instr>)
    requires pos <= |data| && program != [] && Plain(program[0]) && Code(program) == data[pos..]
    ensures ReadAt(data, pos).0 == Decoded(program[0]) && Code(program[1..]) == data[ReadAt(data, pos).1..]
  {
    FirstStands(data, pos, program);
    ReadsWhatStands(data, pos, program[0], |Encode(program[0].Tokens())|);
  }

  lemma DecodeNothing(data: seq<u8>, pos: nat)
    requires pos <= |data| && data[pos..] == Code([])
    ensures DecodeAll(data, pos) == Listing([], End)
  {
    assert Code([]) == [];
    assert pos == |data|;
  }

  /** The code of a program decodes to that program, and then ends. */
  lemma {:induction false} CodeDecodes(data: seq<u8>, pos: nat, program: seq<Instr>)
    requires pos <= |data| && AllPlain(program) && Code(program) == data[pos..]
    ensures DecodeAll(data, pos) == Listing(program, End)
    decreases |program|
  {
    if program == [] {
      DecodeNothing(data, pos);
    } else {
      HeadIsRead(data, pos, program);
      DecodeAllStep(data, pos, program[0]);
      CodeDecodes(data, ReadAt(data, pos).1, program[1..]);
      assert program == [program[0]] + program[1..];
    }
  }

  /** Whatever decodes to the end is the code of the instructions listed. */
  lemma {:induction false} DecodedCodeIsCanonical(data: seq<u8>, pos: nat)
    requires pos <= |data| && DecodeAll(data, pos).stop.End?
    ensures var program := DecodeAll(data, pos).instrs;
            AllPlain(program) && Code(program) == data[pos..]
    decreases |data| - pos
  {
    var (result, next) := ReadAt(data, pos);
    if result.Decoded? {
      var i := result.instr;
      ReadIsExact(data, pos, i);
      DecodeAllStep(data, pos, i);
      DecodedCodeIsCanonical(data, next);
      CanonicalHead(data, pos, next, i, DecodeAll(data, next).instrs);
    }
  }

  /** Decoding lists the instructions whose code comes first, and stops with what read() answers after them. */
  lemma {:induction false} DecodingStops(data: seq<u8>, pos: nat) returns (end: nat)
    requires pos <= |data|
    ensures var all := DecodeAll(data, pos);
      && pos <= end <= |data| && AllPlain(all.instrs)
      && Code(all.instrs) == data[pos..end] && ReadAt(data, end).0 == Stopped(all.stop)
    decreases |data| - pos
  {
    var (result, next) := ReadAt(data, pos);
    if result.Decoded? {
      var i := result.instr;
      ReadIsExact(data, pos, i);
      DecodeAllStep(data, pos, i);
      end := DecodingStops(data, next);
      HeadStands(data, pos, next, end, i, DecodeAll(data, next).instrs);
    } else {
      end := pos;
      assert Code([]) == [] == data[pos..pos];
    }
  }

  lemma HeadStands(data: seq<u8>, pos: nat, next: nat, end: nat, i: Instr, rest: seq<Instr>)
    requires pos <= next <= end <= |data| && Plain(i) && AllPlain(rest)
    requires data[pos..next] == Encode(i.Tokens()) && Code(rest) == data[next..end]
    ensures AllPlain([i] + rest) && Code([i] + rest) == data[pos..end]
  {
    var program := [i] + rest;
    assert program[0] == i && program[1..] == rest;
    CodeCons(program);
    SplitBetween(data, pos, next, end);
  }

  lemma SplitBetween(data: seq<u8>, pos: nat, next: nat, end: nat)
    requires pos <= next <= end <= |data|
    ensures data[pos..end] == data[pos..next] + data[next..end]
  {
  }

  lemma CanonicalHead(data: seq<u8>, pos: nat, next: nat, i: Instr, rest: seq<Instr>)
    requires pos <= next <= |data| && Plain(i) && AllPlain(rest)
    requires data[pos..next] == Encode(i.Tokens()) && Code(rest) == data[next..]
    ensures AllPlain([i] + rest) && Code([i] + rest) == data[pos..]
  {
    var program := [i] + rest;
    assert program[0] == i && program[1..] == rest;
    CodeCons(program);
    SplitAt(data, pos, next);
  }

  lemma SplitAt(data: seq<u8>, pos: nat, next: nat)
    requires pos <= next <= |data|
    ensures data[pos..] == data[pos..next] + data[next..]
  {
  }

  /** A byte string decodes to a program, and then ends, exactly when it is that program's code. */
  lemma DecodingInvertsEncoding(data: seq<u8>, program: seq<Instr>)
    ensures DecodeAll(data, 0) == Listing(program, End) <==> AllPlain(program) && data == Code(program)
  {
    assert data[0..] == data;
    if AllPlain(program) && data == Code(program) {
      CodeDecodes(data, 0, program);
    }
    if DecodeAll(data, 0) == Listing(program, End) {
      DecodedCodeIsCanonical(data, 0);
    }
  }
}
