/** The smallest translation word by word: what the module for a lone s_endpgm is, in
    the numbers of the SPIR-V specification. */
module ShaderExample {
  import opened Common
  import opened GcnShader
  import opened ShaderEmission
  import opened ShaderReader
  import opened ShaderTheorems
  import opened SpirvModule

  // The words of a unit so far.
  predicate Says(u: Unit, words: seq<Word>) {
    AllEncodable(u.code) && Flatten(u.code) == words
  }

  lemma Add(u: Unit, words: seq<Word>, op: Word, operands: seq<Word>, ins: seq<Word>)
    requires Says(u, words) && op < 0x1_0000 && |operands| < 100
    requires ins == [(|operands| + 1) * 0x1_0000 + op] + operands
    ensures Says(Put(u, op, operands), words + ins)
  {
  }

  lemma SameWords(u: Unit, u': Unit, words: seq<Word>)
    requires Says(u, words) && u'.code == u.code
    ensures Says(u', words)
  {
  }

  // Capability, memory model and the scalar types.
  const TYPES: seq<Word> :=
    [0x2_0011, 1] + [0x3_000E, 0, 1] + [0x2_0013, 1] + [0x2_0014, 2] + [0x4_0015, 3, 32, 1] + [0x3_0016, 4, 32] + [0x4_0017, 5, 4, 4]

  // Pointers, the function type and the constants 0 and 1.
  const POINTERS: seq<Word> :=
    [0x4_0020, 6, 7, 3] + [0x4_0020, 7, 7, 4] + [0x4_0020, 8, 3, 5] + [0x3_0021, 9, 1] + [0x4_002B, 4, 10, 0] +
    [0x4_002B, 4, 11, 0x3F80_0000]

  // "GLSL.std.450" and the types of the uniform buffer.
  const BUFFER_TYPES: seq<Word> :=
    [0x6_000B, 20, 0x4C53_4C47, 0x6474_732E, 0x3035_342E, 0] + [0x4_002B, 3, 21, 256] + [0x4_001C, 22, 4, 21] +
    [0x3_001E, 23, 22] + [0x4_0020, 24, 2, 23]

  const BUFFER_VARIABLE: seq<Word> :=
    [0x4_003B, 24, 25, 2] + [0x4_0047, 25, 34, 0] + [0x4_0047, 25, 33, 0] + [0x3_0047, 23, 2] +
    [0x5_0048, 23, 0, 35, 0] + [0x4_0020, 26, 2, 4]

  // The entry point, "main", the function and its end.
  const FRAME: seq<Word> :=
    [0x6_0010, 13, 17, 1, 1, 1] + [0x5_000F, 5, 13, 0x6E69_616D, 0] + [0x5_0036, 1, 13, 0, 9] + [0x2_00F8, 14] +
    [0x1_00FD] + [0x1_0038]

  lemma TypesSaid()
    ensures Says(HeaderScalarTypes(Start), TYPES)
  {
    assert Says(Start, []);
    hide Says;
    var u1 := Put(Start, OpCapability, [1]);
    Add(Start, [], OpCapability, [1], [0x2_0011, 1]);
    var u2 := Put(u1, OpMemoryModel, [0, 1]);
    var w1 := [] + [0x2_0011, 1];
    Add(u1, w1, OpMemoryModel, [0, 1], [0x3_000E, 0, 1]);
    var u3, w2 := Put(u2, OpTypeVoid, [1]), w1 + [0x3_000E, 0, 1];
    Add(u2, w2, OpTypeVoid, [1], [0x2_0013, 1]);
    var u4, w3 := Put(u3, OpTypeBool, [2]), w2 + [0x2_0013, 1];
    Add(u3, w3, OpTypeBool, [2], [0x2_0014, 2]);
    var u5, w4 := Put(u4, OpTypeInt, [3, 32, 1]), w3 + [0x2_0014, 2];
    Add(u4, w4, OpTypeInt, [3, 32, 1], [0x4_0015, 3, 32, 1]);
    var u6, w5 := Put(u5, OpTypeFloat, [4, 32]), w4 + [0x4_0015, 3, 32, 1];
    Add(u5, w5, OpTypeFloat, [4, 32], [0x3_0016, 4, 32]);
    Add(u6, w5 + [0x3_0016, 4, 32], OpTypeVector, [5, 4, 4], [0x4_0017, 5, 4, 4]);
    assert [] + [0x2_0011, 1] == [0x2_0011, 1];
    assert w5 + [0x3_0016, 4, 32] + [0x4_0017, 5, 4, 4] == TYPES;
  }

  lemma PointersSaid()
    ensures Says(HeaderTypes(Start), TYPES + POINTERS)
  {
    TypesSaid();
    hide Says, HeaderScalarTypes, TYPES;
    var u0, w0 := HeaderScalarTypes(Start), TYPES;
    var u1, w1 := Put(u0, OpTypePointer, [6, 7, 3]), w0 + [0x4_0020, 6, 7, 3];
    Add(u0, w0, OpTypePointer, [6, 7, 3], [0x4_0020, 6, 7, 3]);
    var u2, w2 := Put(u1, OpTypePointer, [7, 7, 4]), w1 + [0x4_0020, 7, 7, 4];
    Add(u1, w1, OpTypePointer, [7, 7, 4], [0x4_0020, 7, 7, 4]);
    var u3, w3 := Put(u2, OpTypePointer, [8, 3, 5]), w2 + [0x4_0020, 8, 3, 5];
    Add(u2, w2, OpTypePointer, [8, 3, 5], [0x4_0020, 8, 3, 5]);
    var u4, w4 := Put(u3, OpTypeFunction, [9, 1]), w3 + [0x3_0021, 9, 1];
    Add(u3, w3, OpTypeFunction, [9, 1], [0x3_0021, 9, 1]);
    var u5, w5 := Put(u4, OpConstant, [4, 10, 0]), w4 + [0x4_002B, 4, 10, 0];
    Add(u4, w4, OpConstant, [4, 10, 0], [0x4_002B, 4, 10, 0]);
    Add(u5, w5, OpConstant, [4, 11, 0x3F80_0000], [0x4_002B, 4, 11, 0x3F80_0000]);
    assert w5 + [0x4_002B, 4, 11, 0x3F80_0000] == w0 + POINTERS;
  }

  // A fresh id, then one instruction.
  lemma AddFresh(u: Unit, words: seq<Word>, op: Word, operands: seq<Word>, ins: seq<Word>)
    requires Says(u, words) && op < 0x1_0000 && |operands| < 100
    requires ins == [(|operands| + 1) * 0x1_0000 + op] + operands
    ensures Says(Put(Fresh(u).unit, op, operands), words + ins)
  {
    SameWords(u, Fresh(u).unit, words);
    Add(Fresh(u).unit, words, op, operands, ins);
  }

  lemma NameWords()
    ensures PackString("GLSL.std.450") == [0x4C53_4C47, 0x6474_732E, 0x3035_342E, 0]
  {
    assert "GLSL.std.450"[4..] == ".std.450" && ".std.450"[4..] == ".450" && ".450"[4..] == "";
    assert PackString("") == [0];
    assert PackString(".450") == [0x3035_342E] + PackString("");
    assert PackString(".std.450") == [0x6474_732E] + PackString(".450");
    assert PackString("GLSL.std.450") == [0x4C53_4C47] + PackString(".std.450");
  }

  lemma BufferTypesSaid(u: Unit, words: seq<Word>)
    requires Says(u, words) && u.nextId == 20
    ensures var t := HeaderBufferTypes(u);
            Says(t.unit, words + BUFFER_TYPES) && t.unit.nextId == 25 && t.ubo == 23 && t.pointer == 24
  {
    NameWords();
    hide Says, PackString;
    var name: seq<Word> := [20] + [0x4C53_4C47, 0x6474_732E, 0x3035_342E, 0];
    AddFresh(u, words, OpExtInstImport, name, [0x6_000B, 20, 0x4C53_4C47, 0x6474_732E, 0x3035_342E, 0]);
    var u1, w1 := Put(Fresh(u).unit, OpExtInstImport, name), words + [0x6_000B, 20, 0x4C53_4C47, 0x6474_732E, 0x3035_342E, 0];
    AddFresh(u1, w1, OpConstant, [3, 21, 256], [0x4_002B, 3, 21, 256]);
    var u2, w2 := Put(Fresh(u1).unit, OpConstant, [3, 21, 256]), w1 + [0x4_002B, 3, 21, 256];
    AddFresh(u2, w2, OpTypeArray, [22, 4, 21], [0x4_001C, 22, 4, 21]);
    var u3, w3 := Put(Fresh(u2).unit, OpTypeArray, [22, 4, 21]), w2 + [0x4_001C, 22, 4, 21];
    AddFresh(u3, w3, OpTypeStruct, [23, 22], [0x3_001E, 23, 22]);
    var u4, w4 := Put(Fresh(u3).unit, OpTypeStruct, [23, 22]), w3 + [0x3_001E, 23, 22];
    AddFresh(u4, w4, OpTypePointer, [24, 2, 23], [0x4_0020, 24, 2, 23]);
    assert w4 + [0x4_0020, 24, 2, 23] == words + BUFFER_TYPES;
  }

  lemma BufferVariableSaid(u: Unit, words: seq<Word>)
    requires Says(u, words) && u.nextId == 25
    ensures var v := HeaderBufferVariable(u, 23, 24); Says(v.unit, words + BUFFER_VARIABLE) && v.unit.nextId == 27
  {
    hide Says;
    AddFresh(u, words, OpVariable, [24, 25, 2], [0x4_003B, 24, 25, 2]);
    var u1, w1 := Put(Fresh(u).unit, OpVariable, [24, 25, 2]), words + [0x4_003B, 24, 25, 2];
    Add(u1, w1, OpDecorate, [25, 34, 0], [0x4_0047, 25, 34, 0]);
    var u2, w2 := Put(u1, OpDecorate, [25, 34, 0]), w1 + [0x4_0047, 25, 34, 0];
    Add(u2, w2, OpDecorate, [25, 33, 0], [0x4_0047, 25, 33, 0]);
    var u3, w3 := Put(u2, OpDecorate, [25, 33, 0]), w2 + [0x4_0047, 25, 33, 0];
    Add(u3, w3, OpDecorate, [23, 2], [0x3_0047, 23, 2]);
    var u4, w4 := Put(u3, OpDecorate, [23, 2]), w3 + [0x3_0047, 23, 2];
    Add(u4, w4, OpMemberDecorate, [23, 0, 35, 0], [0x5_0048, 23, 0, 35, 0]);
    var u5, w5 := Put(u4, OpMemberDecorate, [23, 0, 35, 0]), w4 + [0x5_0048, 23, 0, 35, 0];
    AddFresh(u5, w5, OpTypePointer, [26, 2, 4], [0x4_0020, 26, 2, 4]);
    assert w5 + [0x4_0020, 26, 2, 4] == words + BUFFER_VARIABLE;
  }

  lemma FrameSaid(u: Unit, words: seq<Word>)
    requires Says(u, words) && !u.ended
    ensures Says(Close(Open(HeaderEntry(u, Compute))), words + FRAME)
  {
    MainPacked();
    hide Says, PackString;
    var main: seq<Word> := [5, 13] + MAIN;
    Add(u, words, OpExecutionMode, [13, 17, 1, 1, 1], [0x6_0010, 13, 17, 1, 1, 1]);
    var u1, w1 := Put(u, OpExecutionMode, [13, 17, 1, 1, 1]), words + [0x6_0010, 13, 17, 1, 1, 1];
    Add(u1, w1, OpEntryPoint, main, [0x5_000F, 5, 13, 0x6E69_616D, 0]);
    var u2, w2 := Put(u1, OpEntryPoint, main), w1 + [0x5_000F, 5, 13, 0x6E69_616D, 0];
    Add(u2, w2, OpFunction, [1, 13, 0, 9], [0x5_0036, 1, 13, 0, 9]);
    var u3, w3 := Put(u2, OpFunction, [1, 13, 0, 9]), w2 + [0x5_0036, 1, 13, 0, 9];
    Add(u3, w3, OpLabel, [14], [0x2_00F8, 14]);
    var u4, w4 := Put(u3, OpLabel, [14]), w3 + [0x2_00F8, 14];
    Add(u4, w4, OpReturn, [], [0x1_00FD]);
    Add(Put(u4, OpReturn, []), w4 + [0x1_00FD], OpFunctionEnd, [], [0x1_0038]);
    assert w4 + [0x1_00FD] + [0x1_0038] == words + FRAME;
  }

  lemma HeaderStart()
    ensures HeaderTypes(Start).nextId == 20 && !HeaderTypes(Start).ended
  {
  }

  lemma BufferEnded(u: Unit)
    ensures HeaderBuffer(u).ended == u.ended
  {
    hide PackString;
  }

  lemma HeaderSaid()
    ensures var u := Close(Open(Header(Compute, false)));
            Says(u, TYPES + POINTERS + BUFFER_TYPES + BUFFER_VARIABLE + FRAME) && u.nextId == 27
  {
    hide Says, TYPES, POINTERS, BUFFER_TYPES, BUFFER_VARIABLE, FRAME, HeaderTypes, HeaderBufferTypes, HeaderBufferVariable;
    PointersSaid();
    HeaderStart();
    var u := HeaderTypes(Start);
    BufferTypesSaid(u, TYPES + POINTERS);
    var t := HeaderBufferTypes(u).unit;
    BufferVariableSaid(t, TYPES + POINTERS + BUFFER_TYPES);
    var v := HeaderBufferVariable(t, 23, 24).unit;
    SameWords(v, HeaderBuffer(u), TYPES + POINTERS + BUFFER_TYPES + BUFFER_VARIABLE);
    BufferEnded(u);
    FrameSaid(HeaderBuffer(u), TYPES + POINTERS + BUFFER_TYPES + BUFFER_VARIABLE);
  }

  /** The module of the bytecode [0xBF810000] for a compute shader, word by word. */
  lemma SmallestModule()
    ensures var u := Translate([0xBF81_0000], Fixed(Compute));
            AllEncodable(u.code) &&
            Module(u) == [0x0723_0203, 0x0001_0500, 0, 27, 0] + (TYPES + POINTERS + BUFFER_TYPES + BUFFER_VARIABLE + FRAME)
  {
    hide TYPES, POINTERS, BUFFER_TYPES, BUFFER_VARIABLE, FRAME, Header, Open, Close, Decode, EndsProgram;
    HeaderSaid();
    EndDecodes();
    EndEmitsNothing(Open(Header(Compute, false)));
  }

  lemma EndDecodes()
    ensures var code := DecodeAll([0xBF81_0000]); |code| == 1 && code[0].format == Sopp && !EndsProgram(code[0])
  {
    BehindTheEndDecodes();
    NoEnd([0xBF81_0000]);
    hide DecodeAll, EndsProgram;
    var code := DecodeAll(BEHIND_THE_END[..1]);
    assert BEHIND_THE_END[..1] == [0xBF81_0000];
    assert code[0] in code;
  }

  lemma EndEmitsNothing(u: Unit)
    ensures EmitInstructions(u, DecodeAll([0xBF81_0000])) == u
  {
    EndDecodes();
    hide DecodeAll, EndsProgram;
    var code := DecodeAll([0xBF81_0000]);
    assert code[..0] == [] && EmitInstructions(u, []) == u;
  }

  // The numbers of the instructions that only a body contains (SPIR-V specification,
  // section 3).
  lemma BodyNumbers()
    ensures [OpExtInst, OpTypeImage, OpLoad, OpStore, OpAccessChain, OpCompositeConstruct, OpCompositeExtract, OpCopyObject] ==
            [12, 25, 61, 62, 65, 80, 81, 83]
    ensures [OpTypeSampledImage, OpImageSampleImplicitLod, OpConvertFToU, OpConvertFToS, OpConvertUToF, OpConvertSToF] ==
            [86, 87, 109, 110, 114, 115]
    ensures [OpIAdd, OpFAdd, OpISub, OpFSub, OpIMul, OpFMul, OpFDiv, OpFOrdGreaterThan] ==
            [128, 129, 130, 131, 132, 133, 136, 170]
    ensures [OpShiftRightLogical, OpShiftRightArithmetic, OpShiftLeftLogical, OpBitwiseOr, OpBitwiseXor, OpBitwiseAnd] ==
            [194, 195, 196, 197, 198, 199]
  {
  }
}
