/**
 The instruction table the code generator works from (support/codegen/bytecode.py:166-555), and
 the range of valid opcodes that follows from it (src/bytecode/op.cpp:167-169).
 */
module InstructionSet {
  import opened Common

  /** The kinds of instruction parameters. */
  datatype ParamKind = Local | Param | Module | Offset | U32 | I64 | F64

  const FIRST_OPCODE: u8 := 1
  const LAST_OPCODE: u8 := 67

  /** Moving values. */
  const LOADS_AND_STORES: seq<seq<ParamKind>> := [
    [Local], // LoadNull
    [Local], // LoadFalse
    [Local], // LoadTrue
    [I64, Local], // LoadInt
    [F64, Local], // LoadFloat
    [Param, Local], // LoadParam
    [Local, Param], // StoreParam
    [Module, Local], // LoadModule
    [Local, Module], // StoreModule
    [Local, Module, Local], // LoadMember
    [Local, Local, Module], // StoreMember
    [Local, U32, Local], // LoadTupleMember
    [Local, Local, U32], // StoreTupleMember
    [Local, Local, Local], // LoadIndex
    [Local, Local, Local], // StoreIndex
    [Local], // LoadClosure
    [Local, U32, U32, Local], // LoadEnv
    [Local, Local, U32, U32] // StoreEnv
  ]

  const OPERATORS: seq<seq<ParamKind>> := [
    [Local, Local, Local], // Add
    [Local, Local, Local], // Sub
    [Local, Local, Local], // Mul
    [Local, Local, Local], // Div
    [Local, Local, Local], // Mod
    [Local, Local, Local], // Pow
    [Local, Local], // UAdd
    [Local, Local], // UNeg
    [Local, Local, Local], // LSh
    [Local, Local, Local], // RSh
    [Local, Local, Local], // BAnd
    [Local, Local, Local], // BOr
    [Local, Local, Local], // BXor
    [Local, Local], // BNot
    [Local, Local, Local], // Gt
    [Local, Local, Local], // Gte
    [Local, Local, Local], // Lt
    [Local, Local, Local], // Lte
    [Local, Local, Local], // Eq
    [Local, Local, Local], // NEq
    [Local, Local] // LNot
  ]

  /** Objects, the value stack and control flow. */
  const OTHER_INSTRUCTIONS: seq<seq<ParamKind>> := [
    [U32, Local], // Array
    [U32, Local], // Tuple
    [U32, Local], // Set
    [U32, Local], // Map
    [Local, U32, Local], // Env
    [Module, Local, Local], // Closure
    [Module, Local], // Record
    [Local, Local], // Iterator
    [Local, Local, Local], // IteratorNext
    [Local], // Formatter
    [Local, Local], // AppendFormat
    [Local, Local], // FormatResult
    [Local, Local], // Copy
    [Local, Local], // Swap
    [Local], // Push
    [], // Pop
    [Local], // PopTo
    [Offset], // Jmp
    [Local, Offset], // JmpTrue
    [Local, Offset], // JmpFalse
    [Local, Offset], // JmpNull
    [Local, Offset], // JmpNotNull
    [Local, U32], // Call
    [Local, Module, Local, Local], // LoadMethod
    [Local, U32], // CallMethod
    [Local], // Return
    [], // Rethrow
    [Local, Local] // AssertFail
  ]

  /** The parameters of all instructions; the opcode of entry i is FIRST_OPCODE + i. */
  const INSTRUCTION_LIST: seq<seq<ParamKind>> := LOADS_AND_STORES + OPERATORS + OTHER_INSTRUCTIONS

  predicate ValidOpcode(op: u8) {
    FIRST_OPCODE <= op <= LAST_OPCODE
  }

  lemma TableCoversOpcodes()
    ensures |INSTRUCTION_LIST| == LAST_OPCODE - FIRST_OPCODE + 1
  {
  }

  function Params(op: u8): seq<ParamKind>
    requires ValidOpcode(op)
  {
    TableCoversOpcodes();
    INSTRUCTION_LIST[op - FIRST_OPCODE]
  }

  /** The switches of src/bytecode/op.cpp:171-226, by the values of src/bytecode/op.hpp:16-541. */
  predicate ReferencesOffset(op: u8) {
    match op
    case 57 => true // Jmp
    case 58 => true // JmpTrue
    case 59 => true // JmpFalse
    case 60 => true // JmpNull
    case 61 => true // JmpNotNull
    case _ => false
  }

  predicate ReferencesModule(op: u8) {
    match op
    case 8 => true // LoadModule
    case 9 => true // StoreModule
    case 10 => true // LoadMember
    case 11 => true // StoreMember
    case 45 => true // Closure
    case 46 => true // Record
    case 63 => true // LoadMethod
    case _ => false
  }

  predicate MatchesSwitches(op: u8, kinds: seq<ParamKind>) {
    (ReferencesOffset(op) <==> Offset in kinds) && (ReferencesModule(op) <==> Module in kinds)
  }

  lemma LoadsAndStoresMatch(i: nat)
    requires i < |LOADS_AND_STORES| == 18
    ensures MatchesSwitches(1 + i, LOADS_AND_STORES[i])
  {
    match i
    case 0 | 1 | 2 | 3 | 4 | 5 | 6 | 7 | 8 | 9 | 10 | 11 | 12 | 13 | 14 =>
    case 15 | 16 | 17 =>
  }

  lemma OperatorsMatch(i: nat)
    requires i < |OPERATORS| == 21
    ensures MatchesSwitches(19 + i, OPERATORS[i])
  {
    match i
    case 0 | 1 | 2 | 3 | 4 | 5 | 6 | 7 | 8 | 9 | 10 | 11 | 12 | 13 | 14 =>
    case 15 | 16 | 17 | 18 | 19 | 20 =>
  }

  lemma OthersMatch(i: nat)
    requires i < |OTHER_INSTRUCTIONS| == 28
    ensures MatchesSwitches(40 + i, OTHER_INSTRUCTIONS[i])
  {
    match i
    case 0 | 1 | 2 | 3 | 4 | 5 | 6 | 7 | 8 | 9 | 10 | 11 | 12 | 13 | 14 =>
    case 15 | 16 | 17 | 18 | 19 | 20 | 21 | 22 | 23 | 24 | 25 | 26 | 27 =>
  }

  /** The switches name exactly the instructions that have such a parameter. */
  lemma SwitchesMatchTheTable(op: u8)
    requires ValidOpcode(op)
    ensures ReferencesOffset(op) <==> Offset in Params(op)
    ensures ReferencesModule(op) <==> Module in Params(op)
  {
    if op < 19 {
      LoadsAndStoresMatch(op - 1);
    } else if op < 40 {
      OperatorsMatch(op - 19);
    } else {
      OthersMatch(op - 40);
    }
  }
}
