/** The binary layout of a SPIR-V module: length-prefixed instructions over
    32-bit words (SPIR-V specification, section 2.3), which operands of an
    instruction name ids, and which id an instruction defines. */
module SpirvModule {

  import opened Common

  const TWO_32 := 0x1_0000_0000

  type Word = w: int | 0 <= w < TWO_32

  const OpExtInstImport: Word := 11
  const OpExtInst: Word := 12
  const OpMemoryModel: Word := 14
  const OpEntryPoint: Word := 15
  const OpExecutionMode: Word := 16
  const OpCapability: Word := 17
  const OpTypeVoid: Word := 19
  const OpTypeBool: Word := 20
  const OpTypeInt: Word := 21
  const OpTypeFloat: Word := 22
  const OpTypeVector: Word := 23
  const OpTypeImage: Word := 25
  const OpTypeArray: Word := 28
  const OpTypeStruct: Word := 30
  const OpTypePointer: Word := 32
  const OpTypeFunction: Word := 33
  const OpConstant: Word := 43
  const OpFunction: Word := 54
  const OpFunctionEnd: Word := 56
  const OpVariable: Word := 59
  const OpLoad: Word := 61
  const OpStore: Word := 62
  const OpAccessChain: Word := 65
  const OpDecorate: Word := 71
  const OpMemberDecorate: Word := 72
  const OpCompositeConstruct: Word := 80
  const OpCompositeExtract: Word := 81
  const OpCopyObject: Word := 83
  const OpTypeSampledImage: Word := 86
  const OpImageSampleImplicitLod: Word := 87
  const OpConvertFToU: Word := 109
  const OpConvertFToS: Word := 110
  const OpConvertUToF: Word := 114
  const OpConvertSToF: Word := 115
  const OpIAdd: Word := 128
  const OpFAdd: Word := 129
  const OpISub: Word := 130
  const OpFSub: Word := 131
  const OpIMul: Word := 132
  const OpFMul: Word := 133
  const OpFDiv: Word := 136
  const OpFOrdGreaterThan: Word := 170
  const OpShiftRightLogical: Word := 194
  const OpShiftRightArithmetic: Word := 195
  const OpShiftLeftLogical: Word := 196
  const OpBitwiseOr: Word := 197
  const OpBitwiseXor: Word := 198
  const OpBitwiseAnd: Word := 199
  const OpLabel: Word := 248
  const OpReturn: Word := 253

  datatype Ins = Ins(op: Word, operands: seq<Word>)

  // Instructions in emission order; the newest one is outermost.
  datatype Code = Empty | Snoc(rest: Code, last: Ins)

  // Whether the word count and the opcode each fit their 16-bit half.
  predicate Encodable(i: Ins) {
    i.op < 0x10000 && |i.operands| + 1 < 0x10000
  }

  predicate AllEncodable(c: Code) {
    c.Snoc? ==> Encodable(c.last) && AllEncodable(c.rest)
  }

  function Encode(i: Ins): seq<Word>
    requires Encodable(i)
  {
    [(|i.operands| + 1) * 0x10000 + i.op] + i.operands
  }

  function Flatten(c: Code): seq<Word>
    requires AllEncodable(c)
  {
    if c.Empty? then [] else Flatten(c.rest) + Encode(c.last)
  }

  /** Reads a word stream front to back by its own length fields. None when a
      length is zero or runs past the end. */
  function ParseOnto(c: Code, words: seq<Word>): Option<Code>
    decreases |words|
  {
    if words == [] then Some(c)
    else
      var length := words[0] / 0x10000;
      if length == 0 || length > |words| then None
      else ParseOnto(Snoc(c, Ins(words[0] % 0x10000, words[1..length])), words[length..])
  }

  // What a reader of the stream sees is what was written.
  lemma {:induction false} ParseFlatten(c: Code, rest: seq<Word>)
    requires AllEncodable(c)
    ensures ParseOnto(Empty, Flatten(c) + rest) == ParseOnto(c, rest)
    decreases c
  {
    if c.Empty? {
      assert Flatten(c) + rest == rest;
    } else {
      var e := Encode(c.last);
      assert Flatten(c) + rest == Flatten(c.rest) + (e + rest);
      ParseFlatten(c.rest, e + rest);
      var words := e + rest;
      assert words[0] / 0x10000 == |e| && words[0] % 0x10000 == c.last.op;
      assert words[1..|e|] == c.last.operands;
      assert words[|e|..] == rest;
    }
  }

  lemma ParseRoundTrip(c: Code)
    requires AllEncodable(c)
    ensures ParseOnto(Empty, Flatten(c)) == Some(c)
  {
    assert Flatten(c) + [] == Flatten(c);
    ParseFlatten(c, []);
  }

  // The operand that holds the result id, where the opcode has one.
  function ResultAt(op: Word): Option<nat> {
    if op in {OpExtInstImport, OpTypeVoid, OpTypeBool, OpTypeInt, OpTypeFloat, OpTypeVector, OpTypeImage,
              OpTypeArray, OpTypeStruct, OpTypePointer, OpTypeFunction, OpTypeSampledImage, OpLabel} then Some(0)
    else if op in {OpCapability, OpMemoryModel, OpEntryPoint, OpExecutionMode, OpDecorate, OpMemberDecorate,
                   OpStore, OpReturn, OpFunctionEnd} then None
    else Some(1)
  }

  function Result(i: Ins): Option<Word> {
    match ResultAt(i.op)
    case Some(k) => if k < |i.operands| then Some(i.operands[k]) else None
    case None => None
  }

  function Results(i: Ins): set<Word> {
    match Result(i) case Some(id) => {id} case None => {}
  }

  function FromOperand(i: Ins, k: nat): set<Word> {
    set j: nat | k <= j < |i.operands| :: i.operands[j]
  }

  function AtOperand(i: Ins, k: nat): set<Word> {
    if k < |i.operands| then {i.operands[k]} else {}
  }

  /** The ids an instruction consumes. OpEntryPoint and OpExecutionMode name the
      entry function ahead of its definition, as the standard allows (section
      2.4), so they consume nothing here. */
  function Uses(i: Ins): set<Word> {
    if i.op in {OpTypeVoid, OpTypeBool, OpTypeInt, OpTypeFloat, OpExtInstImport, OpLabel, OpCapability,
                OpMemoryModel, OpEntryPoint, OpExecutionMode, OpReturn, OpFunctionEnd} then {}
    else if i.op in {OpTypeVector, OpTypeImage} then AtOperand(i, 1)
    else if i.op == OpTypePointer then AtOperand(i, 2)
    else if i.op in {OpTypeArray, OpTypeStruct, OpTypeFunction, OpTypeSampledImage} then FromOperand(i, 1)
    else if i.op in {OpConstant, OpVariable, OpDecorate, OpMemberDecorate} then AtOperand(i, 0)
    else if i.op == OpFunction then AtOperand(i, 0) + AtOperand(i, 3)
    else if i.op == OpStore then FromOperand(i, 0)
    else if i.op == OpExtInst then AtOperand(i, 0) + AtOperand(i, 2) + FromOperand(i, 4)
    else if i.op == OpCompositeExtract then AtOperand(i, 0) + AtOperand(i, 2)
    else AtOperand(i, 0) + FromOperand(i, 2)
  }

  function Defs(c: Code): set<Word> {
    if c.Empty? then {} else Defs(c.rest) + Results(c.last)
  }

  // No result id is defined twice.
  predicate Unique(c: Code) {
    c.Snoc? ==> Unique(c.rest) && Results(c.last) !! Defs(c.rest)
  }

  // Every id is defined before it is consumed.
  predicate Closed(c: Code) {
    c.Snoc? ==> Closed(c.rest) && Uses(c.last) <= Defs(c.rest)
  }
}
