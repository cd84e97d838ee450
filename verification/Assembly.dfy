/** What the assembler and the decoder guarantee together, for every sequence of writer calls. */
module Assembly {
  import opened Common
  import opened Binary
  import opened InstructionSet
  import opened Encoding
  import opened HandlerTable
  import opened BytecodeReader
  import opened BytecodeWriter

  /** `c` was reached by making further calls after `p`. */
  ghost predicate Extends(c: Calls, p: Calls) {
    c == p || (!c.NoCalls? && Extends(c.prev, p))
  }

  lemma {:induction false} ExtensionKeeps(c: Calls, p: Calls)
    requires Extends(c, p) && Legal(c)
    ensures Legal(p)
    ensures Program(p) <= Program(c) && Cover(p) <= Cover(c)
    ensures Defs(p).Keys <= Defs(c).Keys && forall id :: id in Defs(p) ==> Defs(c)[id] == Defs(p)[id]
  {
    if c != p {
      ExtensionKeeps(c.prev, p);
    }
  }

  lemma {:induction false} ResolvedTokensFit(ts: seq<Token>, kinds: seq<ParamKind>, defs: map<u32, u32>)
    requires ArgsFit(ts, kinds) && LabelsDefined(ts, defs)
    ensures ArgsFit(Resolve(ts, defs), kinds) && LabelFree(Resolve(ts, defs))
  {
    var rs := Resolve(ts, defs);
    forall k | 0 <= k < |ts| ensures Fits(rs[k], kinds[k]) && !rs[k].Label? {
      assert Fits(ts[k], kinds[k]) && rs[k] == ResolveToken(ts[k], defs);
    }
  }

  ghost predicate AllWellFormed(program: seq<Instr>) {
    program == [] || (WellFormed(program[0]) && AllWellFormed(program[1..]))
  }

  lemma {:induction false} AllWellFormedAppend(program: seq<Instr>, i: Instr)
    requires AllWellFormed(program) && WellFormed(i)
    ensures AllWellFormed(program + [i])
  {
    if program == [] {
      assert (program + [i])[1..] == [];
    } else {
      assert (program + [i])[1..] == program[1..] + [i];
      AllWellFormedAppend(program[1..], i);
    }
  }

  lemma {:induction false} LegalProgram(c: Calls)
    requires Legal(c)
    ensures AllWellFormed(Program(c))
  {
    match c
    case NoCalls =>
    case Emit(prev, i) => LegalProgram(prev); AllWellFormedAppend(Program(prev), i);
    case DefineLabel(prev, _) => LegalProgram(prev);
    case StartHandler(prev, _) => LegalProgram(prev);
  }

  lemma {:induction false} LinkedIsPlain(program: seq<Instr>, defs: map<u32, u32>)
    requires AllWellFormed(program) && LabelsDefined(Flatten(program), defs)
    ensures AllPlain(ResolveProgram(program, defs))
  {
    if program != [] {
      var i, rest := program[0], program[1..];
      SplitDefined(i, rest, defs);
      ResolvedTokensFit(i.args, Params(i.op), defs);
      LinkedIsPlain(rest, defs);
      var linked := ResolveProgram(program, defs);
      assert linked[0] == ResolveInstr(i, defs);
      assert linked[1..] == ResolveProgram(rest, defs);
    }
  }

  lemma SplitDefined(i: Instr, rest: seq<Instr>, defs: map<u32, u32>)
    requires LabelsDefined(i.Tokens() + Flatten(rest), defs)
    ensures LabelsDefined(i.args, defs) && LabelsDefined(Flatten(rest), defs)
  {
    var all := i.Tokens() + Flatten(rest);
    assert forall k :: 0 <= k < |i.args| ==> i.args[k] == all[k + 1];
    assert forall k :: 0 <= k < |Flatten(rest)| ==> Flatten(rest)[k] == all[k + |i.Tokens()|];
  }

  /** Reading the finished code gives the emitted instructions, labels replaced by offsets, then End. */
  lemma AssembledCodeDecodes(c: Calls)
    requires Legal(c) && Complete(c)
    ensures DecodeAll(Code(Linked(c)), 0) == Listing(Linked(c), End)
  {
    LegalProgram(c);
    LinkedIsPlain(Program(c), Defs(c));
    DecodingInvertsEncoding(Code(Linked(c)), Linked(c));
  }

  lemma LinkedSize(program: seq<Instr>, defs: map<u32, u32>)
    ensures |Code(ResolveProgram(program, defs))| == |Code(program)|
  {
    ResolveFlatten(program, defs);
    ResolveKeepsSize(Flatten(program), defs);
  }

  lemma {:induction false} AllPlainSuffix(program: seq<Instr>, n: nat)
    requires AllPlain(program) && n <= |program|
    ensures AllPlain(program[n..])
  {
    if n == 0 {
      assert program[0..] == program;
    } else {
      AllPlainSuffix(program[1..], n - 1);
      assert program[1..][n - 1..] == program[n..];
    }
  }

  lemma CodeSplit(program: seq<Instr>, n: nat)
    requires n <= |program|
    ensures Code(program) == Code(program[..n]) + Code(program[n..])
  {
    assert program == program[..n] + program[n..];
    FlattenAppend(program[..n], program[n..]);
    EncodeAppend(Flatten(program[..n]), Flatten(program[n..]));
  }

  /** A label's offset is an instruction boundary: decoding there gives what was emitted after its definition. */
  lemma LabelsAreBoundaries(c: Calls, prev: Calls, id: u32)
    requires Legal(c) && Complete(c) && Extends(c, DefineLabel(prev, id))
    ensures |Program(prev)| <= |Linked(c)| && id in Defs(c)
    ensures Defs(c)[id] == Position(prev) == |Code(Linked(c)[..|Program(prev)|])| <= |Code(Linked(c))|
    ensures DecodeAll(Code(Linked(c)), Defs(c)[id]) == Listing(Linked(c)[|Program(prev)|..], End)
  {
    ExtensionKeeps(c, DefineLabel(prev, id));
    var n := |Program(prev)|;
    PrefixIsLinked(Program(prev), Program(c), Defs(c));
    LinkedSize(Program(prev), Defs(c));
    LegalProgram(c);
    LinkedIsPlain(Program(c), Defs(c));
    DecodesFromBoundary(Linked(c), n);
  }

  lemma PrefixIsLinked(prefix: seq<Instr>, program: seq<Instr>, defs: map<u32, u32>)
    requires prefix <= program
    ensures ResolveProgram(program, defs)[..|prefix|] == ResolveProgram(prefix, defs)
  {
    assert forall k :: 0 <= k < |prefix| ==> program[k] == prefix[k];
  }

  lemma DecodesFromBoundary(program: seq<Instr>, n: nat)
    requires AllPlain(program) && n <= |program|
    ensures |Code(program[..n])| <= |Code(program)|
    ensures DecodeAll(Code(program), |Code(program[..n])|) == Listing(program[n..], End)
  {
    CodeSplit(program, n);
    AllPlainSuffix(program, n);
    assert Code(program)[|Code(program[..n])|..] == Code(program[n..]);
    CodeDecodes(Code(program), |Code(program[..n])|, program[n..]);
  }

  /** Only label operands change in linking, and they become the offset at which the label was defined. */
  lemma JumpsLandOnLabels(c: Calls, k: nat, j: nat, prev: Calls, id: u32)
    requires Legal(c) && Complete(c)
    requires k < |Program(c)| && j < |Program(c)[k].args|
    ensures |Linked(c)| == |Program(c)| && Linked(c)[k].op == Program(c)[k].op
    ensures |Linked(c)[k].args| == |Program(c)[k].args|
    ensures !Program(c)[k].args[j].Label? ==> Linked(c)[k].args[j] == Program(c)[k].args[j]
    ensures Program(c)[k].args[j] == Label(id) && Extends(c, DefineLabel(prev, id)) ==>
              Linked(c)[k].args[j].Target? && Linked(c)[k].args[j].value == |Code(Program(prev))|
  {
    if Extends(c, DefineLabel(prev, id)) {
      LabelsAreBoundaries(c, prev, id);
    }
  }

  /** No handler was started since. */
  ghost predicate SameHandler(c: Calls, p: Calls) {
    c == p || (!c.NoCalls? && !c.StartHandler? && SameHandler(c.prev, p))
  }

  /** A handler stays current for everything emitted until the next one is started. */
  lemma {:induction false} HandlerUntilTheNext(c: Calls, p: Calls, id: u32, i: Instr)
    requires SameHandler(c, StartHandler(p, id))
    ensures Handler(c) == id
    ensures var cover, from := Cover(Emit(c, i)), Position(c);
      && |cover| == Position(Emit(c, i)) && forall b :: from <= b < |cover| ==> cover[b] == id
  {
    CoverLength(c);
    CoverLength(Emit(c, i));
    if c != StartHandler(p, id) {
      HandlerUntilTheNext(c.prev, p, id, i);
    }
  }

  /** A throwing instruction goes to the handler that was current when it was emitted, or to none. */
  lemma ThrowsReachTheirHandler(c: Calls, prev: Calls, i: Instr, table: seq<Region>, pc: nat)
    requires Legal(c) && DispatchesAs(table, c) && Extends(c, Emit(prev, i))
    requires Position(prev) < pc <= Position(Emit(prev, i))
    ensures Handler(prev) != INVALID ==> Handler(prev) in Defs(c)
    ensures Lookup(table, pc - 1) == if Handler(prev) == INVALID then None else Some(Defs(c)[Handler(prev)])
  {
    ExtensionKeeps(c, Emit(prev, i));
    CoverLength(prev);
    CodeAppend(Program(prev), i);
    assert Cover(Emit(prev, i))[pc - 1] == Handler(prev);
    assert Cover(c)[pc - 1] == Handler(prev);
  }

  /** finish() changes no byte outside the label operands. */
  lemma OnlyLabelsArePatched(c: Calls, b: nat)
    requires Complete(c) && b < Position(c)
    requires forall r :: r in LabelRefs(Flatten(Program(c)), 0) ==> !(r.pos <= b < r.pos + 4)
    ensures |Code(Linked(c))| == Position(c) && Code(Linked(c))[b] == Code(Program(c))[b]
  {
    var ts, defs := Flatten(Program(c)), Defs(c);
    ResolveFlatten(Program(c), defs);
    PatchingYieldsResolved(ts, defs);
    PatchingIsLocal(Encode(ts), LabelRefs(ts, 0), defs, b);
  }

  // ----- references

  /** Token t stands at byte pos of the code of ts. */
  ghost predicate StandsAt(ts: seq<Token>, pos: nat, t: Token) {
    exists k :: 0 <= k < |ts| && ts[k] == t && |Encode(ts[..k])| == pos
  }

  lemma StandsInTail(ts: seq<Token>, pos: nat, t: Token)
    requires ts != []
    ensures StandsAt(ts, pos, t) <==>
              (pos == 0 && ts[0] == t) || (pos >= Width(ts[0]) && StandsAt(ts[1..], pos - Width(ts[0]), t))
  {
    var rest := ts[1..];
    assert ts[..0] == [];
    forall k: nat | k < |rest|
      ensures ts[k + 1] == rest[k] && |Encode(ts[..k + 1])| == Width(ts[0]) + |Encode(rest[..k])|
    {
      assert ts[..k + 1][1..] == rest[..k];
    }
    if StandsAt(ts, pos, t) {
      var k :| 0 <= k < |ts| && ts[k] == t && |Encode(ts[..k])| == pos;
      if k > 0 {
        assert rest[k - 1] == t && |Encode(rest[..k - 1])| == pos - Width(ts[0]);
      }
    }
  }

  /** The recorded module references are exactly the module operands, with the offsets they start at. */
  lemma {:induction false} MemberRefsAreExact(ts: seq<Token>, base: nat, r: Ref)
    ensures r in MemberRefs(ts, base) <==> r.pos >= base && StandsAt(ts, r.pos - base, Member(r.id))
  {
    if ts != [] {
      MemberRefsAreExact(ts[1..], base + Width(ts[0]), r);
      if r.pos >= base {
        StandsInTail(ts, r.pos - base, Member(r.id));
      }
    }
  }

  /** The recorded label references are exactly the label operands, with the offsets they start at. */
  lemma {:induction false} LabelRefsAreExact(ts: seq<Token>, base: nat, r: Ref)
    ensures r in LabelRefs(ts, base) <==> r.pos >= base && StandsAt(ts, r.pos - base, Label(r.id))
  {
    if ts != [] {
      LabelRefsAreExact(ts[1..], base + Width(ts[0]), r);
      if r.pos >= base {
        StandsInTail(ts, r.pos - base, Label(r.id));
      }
    }
  }

  /** Decoded bytes are rebuilt by emitting what was decoded. */
  lemma ReassemblyIsIdentity(data: seq<u8>, c: Calls)
    requires Legal(c) && DecodeAll(data, 0) == Listing(Program(c), End)
    ensures Linked(c) == Program(c) && Code(Linked(c)) == data
  {
    DecodingInvertsEncoding(data, Program(c));
    PlainIsResolved(Program(c), Defs(c));
  }

  lemma {:induction false} PlainIsResolved(program: seq<Instr>, defs: map<u32, u32>)
    requires AllPlain(program)
    ensures ResolveProgram(program, defs) == program
  {
    if program != [] {
      PlainIsResolved(program[1..], defs);
      assert Resolve(program[0].args, defs) == program[0].args;
      assert ResolveProgram(program, defs) == [ResolveInstr(program[0], defs)] + ResolveProgram(program[1..], defs);
    }
  }
}
