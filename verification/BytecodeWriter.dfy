/** The assembler: src/bytecode/writer.hpp and src/bytecode/writer.cpp. */
module BytecodeWriter {
  import opened Common
  import opened Binary
  import opened InstructionSet
  import opened Encoding
  import opened HandlerTable

  // ----- the calls made on a writer, and what they mean

  /** The calls that were made and did not throw, most recent last. */
  datatype Calls =
    | NoCalls
    | Emit(prev: Calls, instr: Instr)
    | DefineLabel(prev: Calls, id: u32)
    | StartHandler(prev: Calls, id: u32)

  function Program(c: Calls): seq<Instr> {
    match c
    case NoCalls => []
    case Emit(prev, i) => Program(prev) + [i]
    case DefineLabel(prev, _) => Program(prev)
    case StartHandler(prev, _) => Program(prev)
  }

  /** The byte offset reached. */
  function Position(c: Calls): nat {
    |Code(Program(c))|
  }

  /** The offset of every label defined so far. */
  function Defs(c: Calls): map<u32, u32> {
    match c
    case NoCalls => map[]
    case Emit(prev, _) => Defs(prev)
    case DefineLabel(prev, id) => if Position(prev) <= U32_MAX then Defs(prev)[id := Position(prev)] else Defs(prev)
    case StartHandler(prev, _) => Defs(prev)
  }

  /** The current handler label; INVALID stands for "no handler". */
  function Handler(c: Calls): u32 {
    match c
    case NoCalls => INVALID
    case Emit(prev, _) => Handler(prev)
    case DefineLabel(prev, _) => Handler(prev)
    case StartHandler(_, id) => id
  }

  /** For every byte of the code, the handler that was current when it was written. */
  function Cover(c: Calls): (labels: seq<u32>) {
    match c
    case NoCalls => []
    case Emit(prev, i) => Cover(prev) + seq(|Encode(i.Tokens())|, _ => Handler(prev))
    case DefineLabel(prev, _) => Cover(prev)
    case StartHandler(prev, _) => Cover(prev)
  }

  lemma {:induction false} CoverLength(c: Calls)
    ensures |Cover(c)| == Position(c)
  {
    match c
    case NoCalls =>
    case Emit(prev, i) => CoverLength(prev); CodeAppend(Program(prev), i);
    case DefineLabel(prev, _) => CoverLength(prev);
    case StartHandler(prev, _) => CoverLength(prev);
  }

  /** No label was defined twice. */
  ghost predicate Legal(c: Calls) {
    match c
    case NoCalls => true
    case Emit(prev, i) => WellFormed(i) && Legal(prev)
    case DefineLabel(prev, id) => id !in Defs(prev) && Position(prev) <= U32_MAX && Legal(prev)
    case StartHandler(prev, _) => Legal(prev)
  }

  ghost predicate LabelsDefined(ts: seq<Token>, defs: map<u32, u32>) {
    forall k :: 0 <= k < |ts| && ts[k].Label? ==> ts[k].id in defs
  }

  ghost predicate HandlersDefined(labels: seq<u32>, defs: map<u32, u32>) {
    forall b :: 0 <= b < |labels| && labels[b] != INVALID ==> labels[b] in defs
  }

  /** What finish() demands: every label that is used was defined, and offsets fit 32 bits. */
  ghost predicate Complete(c: Calls) {
    && Position(c) <= U32_MAX
    && LabelsDefined(Flatten(Program(c)), Defs(c))
    && HandlersDefined(Cover(c), Defs(c))
  }

  /** The instructions that were emitted, with every label replaced by its offset. */
  function Linked(c: Calls): seq<Instr> {
    ResolveProgram(Program(c), Defs(c))
  }

  // ----- patching label references

  function PatchRef(code: seq<u8>, r: Ref, defs: map<u32, u32>): (p: seq<u8>)
    ensures |p| == |code|
  {
    if r.id in defs && r.pos + 4 <= |code| then Patch(code, r.pos, BigEndian(defs[r.id], 4)) else code
  }

  function PatchAll(code: seq<u8>, refs: seq<Ref>, defs: map<u32, u32>): (p: seq<u8>)
    ensures |p| == |code|
  {
    if refs == [] then code
    else PatchRef(PatchAll(code, refs[..|refs| - 1], defs), refs[|refs| - 1], defs)
  }

  lemma PatchAllStep(code: seq<u8>, refs: seq<Ref>, k: nat, defs: map<u32, u32>)
    requires k < |refs| && refs[k].id in defs && refs[k].pos + 4 <= |code|
    ensures PatchAll(code, refs[..k + 1], defs) ==
            Patch(PatchAll(code, refs[..k], defs), refs[k].pos, BigEndian(defs[refs[k].id], 4))
  {
    assert refs[..k + 1][..k] == refs[..k];
  }

  /** Patching every label reference of a token sequence yields the code of the resolved sequence. */
  lemma {:induction false} PatchingResolves(ts: seq<Token>, defs: map<u32, u32>, suffix: seq<u8>)
    requires LabelsDefined(ts, defs)
    ensures PatchAll(Encode(ts) + suffix, LabelRefs(ts, 0), defs) == Encode(Resolve(ts, defs)) + suffix
    decreases |ts|
  {
    if ts == [] {
      assert Resolve(ts, defs) == [];
    } else {
      var init, t := ts[..|ts| - 1], ts[|ts| - 1];
      assert ts == init + [t];
      EncodeAppend(init, [t]);
      EncodeOne(t);
      LabelRefsAppend(init, [t], 0);
      RefsOne(t, |Encode(init)|);
      PatchingResolves(init, defs, EncodeToken(t) + suffix);
      var done := Encode(Resolve(init, defs));
      assert Encode(ts) + suffix == Encode(init) + (EncodeToken(t) + suffix);
      ResolveLast(init, t, defs);
      PatchLast(done, t, defs, suffix, LabelRefs(init, 0), Encode(ts) + suffix, |Encode(init)|);
    }
  }

  lemma PatchingYieldsResolved(ts: seq<Token>, defs: map<u32, u32>)
    requires LabelsDefined(ts, defs)
    ensures PatchAll(Encode(ts), LabelRefs(ts, 0), defs) == Encode(Resolve(ts, defs))
  {
    PatchingResolves(ts, defs, []);
    assert Encode(ts) + [] == Encode(ts);
    assert Encode(Resolve(ts, defs)) + [] == Encode(Resolve(ts, defs));
  }

  lemma ResolveLast(init: seq<Token>, t: Token, defs: map<u32, u32>)
    ensures Encode(Resolve(init + [t], defs)) == Encode(Resolve(init, defs)) + EncodeToken(ResolveToken(t, defs))
    ensures |Encode(Resolve(init, defs))| == |Encode(init)|
  {
    assert Resolve(init + [t], defs) == Resolve(init, defs) + [ResolveToken(t, defs)];
    EncodeAppend(Resolve(init, defs), [ResolveToken(t, defs)]);
    EncodeOne(ResolveToken(t, defs));
    ResolveKeepsSize(init, defs);
  }

  lemma {:induction false} ResolveKeepsSize(ts: seq<Token>, defs: map<u32, u32>)
    ensures |Encode(Resolve(ts, defs))| == |Encode(ts)|
  {
    if ts != [] {
      ResolveKeepsSize(ts[1..], defs);
      assert Resolve(ts, defs)[1..] == Resolve(ts[1..], defs);
    }
  }

  lemma PatchLast(done: seq<u8>, t: Token, defs: map<u32, u32>, suffix: seq<u8>, refs: seq<Ref>, code: seq<u8>, at: nat)
    requires PatchAll(code, refs, defs) == done + (EncodeToken(t) + suffix) && |done| == at
    requires t.Label? ==> t.id in defs
    ensures PatchAll(code, refs + (if t.Label? then [Ref(at, t.id)] else []), defs)
         == done + EncodeToken(ResolveToken(t, defs)) + suffix
  {
    if t.Label? {
      var all := refs + [Ref(at, t.id)];
      assert all[..|all| - 1] == refs;
      var p := done + (EncodeToken(t) + suffix);
      assert p[..at] == done;
      assert p[at + 4..] == suffix;
    } else {
      assert refs + [] == refs;
    }
  }

  /** Patching changes no byte outside the fields of the label references. */
  lemma {:induction false} PatchingIsLocal(code: seq<u8>, refs: seq<Ref>, defs: map<u32, u32>, b: nat)
    requires b < |code|
    requires forall k :: 0 <= k < |refs| ==> !(refs[k].pos <= b < refs[k].pos + 4)
    ensures PatchAll(code, refs, defs)[b] == code[b]
  {
    if refs != [] {
      PatchingIsLocal(code, refs[..|refs| - 1], defs, b);
    }
  }

  /** Label references lie inside the code and name exactly the labels used. */
  lemma {:induction false} RefsMatchLabels(ts: seq<Token>, base: nat)
    ensures forall r :: r in LabelRefs(ts, base) ==> base <= r.pos && r.pos + 4 <= base + |Encode(ts)|
    ensures forall id :: (exists r :: r in LabelRefs(ts, base) && r.id == id) <==> Label(id) in ts
  {
    if ts != [] {
      RefsMatchLabels(ts[1..], base + Width(ts[0]));
      assert ts == [ts[0]] + ts[1..];
    }
  }

  lemma RefsDefined(ts: seq<Token>, refs: seq<Ref>, defs: map<u32, u32>)
    requires refs == LabelRefs(ts, 0)
    ensures forall j :: 0 <= j < |refs| ==> refs[j].pos + 4 <= |Encode(ts)|
    ensures LabelsDefined(ts, defs) <==> forall j :: 0 <= j < |refs| ==> refs[j].id in defs
  {
    RefsMatchLabels(ts, 0);
    forall j | 0 <= j < |refs|
      ensures refs[j].pos + 4 <= |Encode(ts)|
      ensures LabelsDefined(ts, defs) ==> refs[j].id in defs
    {
      assert refs[j] in refs;
      assert Label(refs[j].id) in ts;
    }
    if forall j :: 0 <= j < |refs| ==> refs[j].id in defs {
      forall k | 0 <= k < |ts| && ts[k].Label? ensures ts[k].id in defs {
        assert Label(ts[k].id) in ts;
      }
    }
  }

  lemma EncodedPrefix(ts: seq<Token>, k: nat)
    requires k <= |ts|
    ensures |Encode(ts[..k])| <= |Encode(ts)|
  {
    assert ts == ts[..k] + ts[k..];
    EncodeAppend(ts[..k], ts[k..]);
  }

  // ----- the regions recorded for exception handlers

  function AsTarget(id: u32): Option<nat> {
    if id == INVALID then None else Some(id)
  }

  /** The closed regions describe the code before `start`; the open one has `handler` throughout. */
  ghost predicate Describes(hs: seq<Region>, start: nat, handler: u32, cover: seq<u32>) {
    && Sorted(hs) && start <= |cover|
    && (forall k :: 0 <= k < |hs| ==> hs[k].to <= start && hs[k].target < INVALID)
    && (forall b :: 0 <= b < start ==> Lookup(hs, b) == AsTarget(cover[b]))
    && (forall b :: start <= b < |cover| ==> cover[b] == handler)
  }

  function Close(hs: seq<Region>, start: nat, handler: u32, pos: nat): seq<Region> {
    if handler != INVALID && start != pos then hs + [Region(start, pos, handler)] else hs
  }

  lemma ClosingDescribes(hs: seq<Region>, start: nat, handler: u32, cover: seq<u32>, next: u32)
    requires Describes(hs, start, handler, cover)
    ensures Describes(Close(hs, start, handler, |cover|), |cover|, next, cover)
  {
    var r := Close(hs, start, handler, |cover|);
    forall b: nat | b < |cover| ensures Lookup(r, b) == AsTarget(cover[b]) {
      if b >= start {
        LookupMeaning(hs, b);
      }
      if r != hs {
        assert r[..|r| - 1] == hs;
      }
    }
  }

  /** The entries finish() writes to the function: labels replaced by offsets. */
  ghost predicate Converted(entries: seq<Region>, hs: seq<Region>, defs: map<u32, u32>) {
    && |entries| == |hs|
    && forall k :: 0 <= k < |hs| ==> hs[k].target in defs && entries[k] == hs[k].(target := defs[hs[k].target])
  }

  lemma {:induction false} ConvertedLookup(entries: seq<Region>, hs: seq<Region>, defs: map<u32, u32>, b: nat)
    requires Converted(entries, hs, defs)
    ensures var h := Lookup(hs, b);
            && (h.Some? ==> h.value in defs)
            && Lookup(entries, b) == if h.Some? then Some(defs[h.value]) else None
  {
    if hs != [] {
      ConvertedLookup(entries[..|hs| - 1], hs[..|hs| - 1], defs, b);
    }
  }

  /** Some byte is covered by each region, with that region's handler. */
  lemma RegionIsCovered(hs: seq<Region>, cover: seq<u32>, handler: u32, k: nat)
    requires Describes(hs, |cover|, handler, cover) && k < |hs|
    ensures hs[k].from < |cover| && cover[hs[k].from] == hs[k].target
  {
    LookupInSorted(hs, k, hs[k].from);
  }

  /** The labels that handler regions refer to are those of the bytes they cover. */
  lemma RegionsNameCover(hs: seq<Region>, cover: seq<u32>, defs: map<u32, u32>)
    requires Describes(hs, |cover|, INVALID, cover)
    ensures (forall k :: 0 <= k < |hs| ==> hs[k].target in defs) <==> HandlersDefined(cover, defs)
  {
    if HandlersDefined(cover, defs) {
      forall k | 0 <= k < |hs| ensures hs[k].target in defs {
        RegionIsCovered(hs, cover, INVALID, k);
      }
    } else {
      var b :| 0 <= b < |cover| && cover[b] != INVALID && cover[b] !in defs;
      LookupMeaning(hs, b);
    }
  }

  /** Where control goes when the instruction that wrote byte b throws. */
  ghost function Dispatch(c: Calls, b: nat): Option<nat>
    requires b < |Cover(c)| && HandlersDefined(Cover(c), Defs(c))
  {
    var id := Cover(c)[b];
    if id == INVALID then None else Some(Defs(c)[id])
  }

  ghost predicate DispatchesAs(table: seq<Region>, c: Calls) {
    && |Cover(c)| == Position(c) && HandlersDefined(Cover(c), Defs(c))
    && (forall b: nat :: b < |Cover(c)| ==> Lookup(table, b) == Dispatch(c, b))
    && (forall b: nat :: b >= |Cover(c)| ==> Lookup(table, b) == None)
  }

  lemma FinishedTable(entries: seq<Region>, hs: seq<Region>, c: Calls)
    requires Describes(hs, |Cover(c)|, INVALID, Cover(c)) && Converted(entries, hs, Defs(c))
    ensures DispatchesAs(Merged(entries), c)
    ensures Sorted(Merged(entries)) && Compact(Merged(entries))
  {
    var cover, defs := Cover(c), Defs(c);
    CoverLength(c);
    assert Sorted(entries);
    MergeKeepsShape(entries);
    MergePreservesLookup(entries);
    forall b: nat
      ensures b < |cover| && cover[b] != INVALID ==> cover[b] in defs
      ensures Lookup(Merged(entries), b) ==
              if b < |cover| && cover[b] in defs && cover[b] != INVALID then Some(defs[cover[b]]) else None
    {
      assert Lookup(Merged(entries), b) == Lookup(entries, b);
      ConvertedLookup(entries, hs, defs, b);
      if b >= |cover| {
        LookupMeaning(hs, b);
      }
    }
  }

  // ----- the writer

  datatype WriterError = OffsetOverflow | UndefinedLabel

  class BytecodeFunction {
    const code: ByteVector
    var handlers: seq<Region>

    constructor ()
      ensures fresh(code) && code.bytes == [] && handlers == []
    {
      code := new ByteVector();
      handlers := [];
    }
  }

  /** The ids that the emitters assert to be valid. */
  predicate ValidToken(t: Token) {
    match t
    case Label(id) => id != INVALID
    case Member(id) => id != INVALID
    case Target(offset) => offset != INVALID
    case Op(_) => true
    case Register(_) => true
    case Parameter(_) => true
    case Word(_) => true
    case Int64(_) => true
    case Float64(_) => true
  }

  class BytecodeWriter {
    const output: BytecodeFunction
    const wr: BinaryWriter
    var handlers: seq<Region>
    var labelDefs: map<u32, u32>
    var labelRefs: seq<Ref>
    var moduleRefs: seq<Ref>
    var handler: u32
    var handlerStart: nat

    ghost var calls: Calls
    ghost var tokens: seq<Token>

    /** The code written so far, and the references into it. */
    ghost predicate StreamValid()
      reads this, output, output.code
    {
      && wr.out == output.code
      && output.code.bytes == Encode(tokens)
      && labelRefs == LabelRefs(tokens, 0)
      && moduleRefs == MemberRefs(tokens, 0)
    }

    ghost predicate Valid()
      reads this, output, output.code
    {
      && StreamValid()
      && Legal(calls)
      && output.handlers == []
      && tokens == Flatten(Program(calls))
      && labelDefs == Defs(calls)
      && handler == Handler(calls)
      && Describes(handlers, handlerStart, handler, Cover(calls))
    }

    constructor (output: BytecodeFunction)
      requires output.code.bytes == [] && output.handlers == []
      ensures this.output == output && Valid() && calls == NoCalls
    {
      this.output := output;
      wr := new BinaryWriter(output.code);
      handlers, labelDefs, labelRefs, moduleRefs := [], map[], [], [];
      handler, handlerStart := INVALID, 0;
      calls, tokens := NoCalls, [];
    }

    /** The current offset; throws when it does not fit 32 bits. */
    method Pos() returns (r: Result<u32, WriterError>)
      ensures r == if |wr.out.bytes| <= U32_MAX then Success(|wr.out.bytes|) else Failure(OffsetOverflow)
    {
      var pos := |wr.out.bytes|;
      r := if pos <= U32_MAX then Success(pos) else Failure(OffsetOverflow);
    }

    method WriteImpl(t: Token) returns (o: Result<(), WriterError>)
      requires StreamValid() && ValidToken(t)
      modifies this`labelRefs, this`moduleRefs, this`tokens, output.code
      ensures o.Failure? ==> o.error == OffsetOverflow && |old(output.code.bytes)| > U32_MAX
      ensures o.Success? ==> StreamValid() && tokens == old(tokens) + [t]
      ensures o.Success? ==> output.code.bytes == old(output.code.bytes) + EncodeToken(t)
    {
      Pow256Values();
      LabelRefsAppend(tokens, [t], 0);
      MemberRefsAppend(tokens, [t], 0);
      RefsOne(t, |Encode(tokens)|);
      EncodeAppend(tokens, [t]);
      EncodeOne(t);
      if t.Label? {
        var pos :- Pos();
        labelRefs := labelRefs + [Ref(pos, t.id)];
      } else if t.Member? {
        var pos :- Pos();
        moduleRefs := moduleRefs + [Ref(pos, t.value)];
      }
      wr.EmitRaw(Raw(t), Width(t));
      tokens := tokens + [t];
      o := Success(());
    }

    /** Writes one argument after the other. */
    method WriteAll(args: seq<Token>) returns (o: Result<(), WriterError>)
      requires StreamValid() && forall k :: 0 <= k < |args| ==> ValidToken(args[k])
      modifies this`labelRefs, this`moduleRefs, this`tokens, output.code
      ensures o.Success? ==> StreamValid() && tokens == old(tokens) + args
      ensures o.Failure? ==> o.error == OffsetOverflow && |Encode(old(tokens) + args)| > U32_MAX
    {
      ghost var before := tokens;
      assert before == before + args[..0];
      for k := 0 to |args|
        invariant StreamValid() && tokens == before + args[..k]
      {
        assert before + args[..k + 1] == (before + args[..k]) + [args[k]];
        o := WriteImpl(args[k]);
        if o.Failure? {
          assert (before + args)[..|before| + k] == before + args[..k];
          EncodedPrefix(before + args, |before| + k);
          return;
        }
      }
      assert args[..|args|] == args;
      o := Success(());
    }

    /** All emitters: the opcode, then the operands. */
    method Write(i: Instr) returns (o: Result<(), WriterError>)
      requires Valid() && WellFormed(i) && forall k :: 0 <= k < |i.args| ==> ValidToken(i.args[k])
      modifies this`labelRefs, this`moduleRefs, this`tokens, this`calls, output.code
      ensures o.Success? ==> Valid() && calls == Emit(old(calls), i)
      ensures o.Failure? ==> o.error == OffsetOverflow && Position(Emit(old(calls), i)) > U32_MAX
    {
      FlattenAppend(Program(calls), [i]);
      FlattenOne(i);
      CoverLength(calls);
      o := WriteAll(i.Tokens());
      calls := Emit(calls, i);
    }

    method MarkLabel(id: u32) returns (o: Result<(), WriterError>)
      requires Valid() && id != INVALID && id !in labelDefs
      modifies this`labelDefs, this`calls
      ensures o.Success? ==> Valid() && calls == DefineLabel(old(calls), id)
      ensures o.Failure? ==> o.error == OffsetOverflow && Position(old(calls)) > U32_MAX
    {
      var pos :- Pos();
      labelDefs := labelDefs[id := pos];
      calls := DefineLabel(calls, id);
      o := Success(());
    }

    method FinishHandler() returns (o: Result<(), WriterError>)
      requires Valid()
      modifies this`handlers, this`handler, this`handlerStart
      ensures o.Success? <==> |output.code.bytes| <= U32_MAX
      ensures o.Success? ==> handler == INVALID && handlerStart == 0
      ensures o.Success? ==> handlers == Close(old(handlers), old(handlerStart), old(handler), |output.code.bytes|)
      ensures o.Failure? ==> o.error == OffsetOverflow
    {
      var pos :- Pos();
      if handler != INVALID && handlerStart != pos {
        handlers := handlers + [Region(handlerStart, pos, handler)];
      }
      handler := INVALID;
      handlerStart := 0;
      o := Success(());
    }

    method BeginHandler(id: u32) returns (o: Result<(), WriterError>)
      requires Valid()
      modifies this`handlers, this`handler, this`handlerStart, this`calls
      ensures o.Success? ==> Valid() && calls == StartHandler(old(calls), id)
      ensures o.Failure? ==> o.error == OffsetOverflow && Position(old(calls)) > U32_MAX
    {
      if id != handler {
        CoverLength(calls);
        ClosingDescribes(handlers, handlerStart, handler, Cover(calls), id);
        var _ :- FinishHandler();
        handler := id;
        var pos := Pos();
        handlerStart := pos.value;
      }
      calls := StartHandler(calls, id);
      o := Success(());
    }

    method PatchLabels() returns (o: Result<(), WriterError>)
      requires wr.out == output.code
      requires forall j :: 0 <= j < |labelRefs| ==> labelRefs[j].pos + 4 <= |output.code.bytes|
      modifies output.code
      ensures o.Success? <==> forall j :: 0 <= j < |labelRefs| ==> labelRefs[j].id in labelDefs
      ensures o.Success? ==> output.code.bytes == PatchAll(old(output.code.bytes), labelRefs, labelDefs)
      ensures o.Failure? ==> o.error == UndefinedLabel
    {
      ghost var before := output.code.bytes;
      Pow256Values();
      for k := 0 to |labelRefs|
        invariant forall j :: 0 <= j < k ==> labelRefs[j].id in labelDefs
        invariant output.code.bytes == PatchAll(before, labelRefs[..k], labelDefs)
      {
        var r := labelRefs[k];
        if r.id !in labelDefs {
          return Failure(UndefinedLabel);
        }
        PatchAllStep(before, labelRefs, k, labelDefs);
        wr.OverwriteRaw(r.pos, labelDefs[r.id], 4);
      }
      assert labelRefs[..|labelRefs|] == labelRefs;
      o := Success(());
    }

    method ConvertHandlers() returns (o: Result<array<Region>, WriterError>)
      requires forall k :: 0 <= k < |handlers| ==> handlers[k].target < INVALID
      ensures o.Success? <==> forall k :: 0 <= k < |handlers| ==> handlers[k].target in labelDefs
      ensures o.Success? ==> fresh(o.value) && Converted(o.value[..], handlers, labelDefs)
      ensures o.Failure? ==> o.error == UndefinedLabel
    {
      var complete := new Region[|handlers|](_ => Region(0, 0, 0));
      for k := 0 to |handlers|
        invariant forall j :: 0 <= j < k ==> handlers[j].target in labelDefs
        invariant forall j :: 0 <= j < k ==> complete[j] == handlers[j].(target := labelDefs[handlers[j].target])
      {
        var entry := handlers[k];
        if entry.target !in labelDefs {
          return Failure(UndefinedLabel);
        }
        complete[k] := entry.(target := labelDefs[entry.target]);
      }
      o := Success(complete);
    }

    /** Closes the last region, patches the code and writes the merged handler table. */
    method Finish() returns (o: Result<(), WriterError>)
      requires Valid()
      modifies this`handlers, this`handler, this`handlerStart, output, output.code
      ensures calls == old(calls)
      ensures o.Success? <==> Complete(calls)
      ensures o.Failure? ==> o.error == if Position(calls) > U32_MAX then OffsetOverflow else UndefinedLabel
      ensures o.Success? ==> output.code.bytes == Code(Linked(calls))
      ensures o.Success? ==> DispatchesAs(output.handlers, calls) && Sorted(output.handlers) && Compact(output.handlers)
    {
      CoverLength(calls);
      ClosingDescribes(handlers, handlerStart, handler, Cover(calls), INVALID);
      ResolveFlatten(Program(calls), labelDefs);
      var _ :- FinishHandler();
      RegionsNameCover(handlers, Cover(calls), labelDefs);
      RefsDefined(tokens, labelRefs, labelDefs);
      var _ :- PatchLabels();
      PatchingYieldsResolved(tokens, labelDefs);
      var complete :- ConvertHandlers();
      ghost var entries := complete[..];
      var size := SimplifyHandlers(complete);
      output.handlers := complete[..size];
      FinishedTable(entries, handlers, calls);
      o := Success(());
    }
  }
}
