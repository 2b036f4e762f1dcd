/** The translation as a function on values: what each emitter routine appends,
    which ids it takes, and which register variables it creates. */
module ShaderEmission {
  import opened Common
  import opened GcnShader
  import opened SpirvModule

  // Ids that the header allocates; zero where it allocates none.
  datatype HeaderIds = HeaderIds(glsl: Word, uboVar: Word, ptrUboFloat: Word, typeSampledImage: Word,
                                 sampledImageVar: Word, typeVec2: Word, image: bool)

  datatype Unit = Unit(code: Code, nextId: Word, sgprs: map<Word, Word>, vgprs: map<Word, Word>,
                       ended: bool, ids: HeaderIds)

  datatype Named = Named(unit: Unit, id: Word)

  function Put(u: Unit, op: Word, operands: seq<Word>): Unit {
    u.(code := Snoc(u.code, Ins(op, operands)))
  }

  // The id counter is 32 bits wide and wraps.
  function Fresh(u: Unit): Named {
    Named(u.(nextId := (u.nextId + 1) % TWO_32), u.nextId)
  }

  function Sgpr(u: Unit, index: Word): Named {
    var i: Word := index % 104;
    if i in u.sgprs then Named(u, u.sgprs[i])
    else var f := Fresh(u); Named(Put(f.unit, OpVariable, [6, f.id, 7]).(sgprs := u.sgprs[i := f.id]), f.id)
  }

  function Vgpr(u: Unit, index: Word): Named {
    var i: Word := index % 256;
    if i in u.vgprs then Named(u, u.vgprs[i])
    else var f := Fresh(u); Named(Put(f.unit, OpVariable, [7, f.id, 7]).(vgprs := u.vgprs[i := f.id]), f.id)
  }

  function Load(u: Unit, typeId: Word, variable: Word): Named {
    var f := Fresh(u);
    Named(Put(f.unit, OpLoad, [typeId, f.id, variable]), f.id)
  }

  function ReadS(u: Unit, typeId: Word, index: Word): Named {
    var v := Sgpr(u, index);
    Load(v.unit, typeId, v.id)
  }

  function ReadV(u: Unit, typeId: Word, index: Word): Named {
    var v := Vgpr(u, index);
    Load(v.unit, typeId, v.id)
  }

  function WriteS(u: Unit, index: Word, value: Word): Unit {
    var v := Sgpr(u, index);
    Put(v.unit, OpStore, [v.id, value])
  }

  function WriteV(u: Unit, index: Word, value: Word): Unit {
    var v := Vgpr(u, index);
    Put(v.unit, OpStore, [v.id, value])
  }

  // A value-producing instruction: type, result, arguments.
  function Value(u: Unit, op: Word, typeId: Word, result: Word, args: seq<Word>): Unit {
    Put(u, op, [typeId, result] + args)
  }

  // A GLSL.std.450 instruction.
  function Glsl(u: Unit, result: Word, number: Word, args: seq<Word>): Unit {
    Put(u, OpExtInst, [4, result, u.ids.glsl, number] + args)
  }

  function Sop2Op(opcode: Word): Option<Word> {
    match opcode
    case 0x00 => Some(OpIAdd)
    case 0x01 => Some(OpISub)
    case 0x02 => Some(OpBitwiseAnd)
    case 0x03 => Some(OpBitwiseOr)
    case 0x04 => Some(OpIMul)
    case 0x08 => Some(OpBitwiseXor)
    case 0x0A => Some(OpShiftRightLogical)
    case 0x0E => Some(OpShiftLeftLogical)
    case 0x0F => Some(OpShiftRightLogical)
    case 0x10 => Some(OpShiftRightArithmetic)
    case _ => None
  }

  function EmitSop2(u: Unit, i: Instruction): Unit {
    var left := ReadS(u, 3, i.source0);
    var right := ReadS(left.unit, 3, i.source1);
    var result := Fresh(right.unit);
    match Sop2Op(i.opcode)
    case Some(op) => WriteS(Value(result.unit, op, 3, result.id, [left.id, right.id]), i.destination, result.id)
    case None => result.unit
  }

  function EmitVop2(u: Unit, i: Instruction): Unit {
    var left := ReadV(u, 4, i.source0);
    var right := ReadV(left.unit, 4, i.source1);
    var result := Fresh(right.unit);
    var t := result.unit;
    var x := result.id;
    match i.opcode
    case 0x00 => WriteV(Value(t, OpFAdd, 4, x, [left.id, right.id]), i.destination, x)
    case 0x01 => WriteV(Value(t, OpFSub, 4, x, [left.id, right.id]), i.destination, x)
    case 0x02 => WriteV(Value(t, OpFMul, 4, x, [left.id, right.id]), i.destination, x)
    case 0x10 => EmitMac(t, i, left.id, right.id, x)
    case 0x11 => EmitShift(t, i, x)
    case 0x14 => WriteV(Glsl(t, x, 37, [left.id, right.id]), i.destination, x)
    case 0x15 => WriteV(Glsl(t, x, 40, [left.id, right.id]), i.destination, x)
    case 0x1B => EmitBitwise(t, i, x, OpBitwiseAnd)
    case 0x1C => EmitBitwise(t, i, x, OpBitwiseOr)
    case 0x1D => EmitBitwise(t, i, x, OpBitwiseXor)
    case _ => t
  }

  // The destination is also the addend.
  function EmitMac(u: Unit, i: Instruction, left: Word, right: Word, x: Word): Unit {
    var previous := ReadV(u, 4, i.destination);
    var mul := Fresh(previous.unit);
    var product := Value(mul.unit, OpFMul, 4, mul.id, [left, right]);
    WriteV(Value(product, OpFAdd, 4, x, [mul.id, previous.id]), i.destination, x)
  }

  function EmitShift(u: Unit, i: Instruction, x: Word): Unit {
    var li := ReadS(u, 3, i.source0);
    var ri := ReadV(li.unit, 3, i.source1);
    WriteV(Value(ri.unit, OpShiftLeftLogical, 3, x, [ri.id, li.id]), i.destination, x)
  }

  function EmitBitwise(u: Unit, i: Instruction, x: Word, op: Word): Unit {
    var li := ReadS(u, 3, i.source0);
    var ri := ReadS(li.unit, 3, i.source1);
    WriteS(Value(ri.unit, op, 3, x, [li.id, ri.id]), i.destination, x)
  }

  function Vop3Read(u: Unit, source: Word): Named {
    if source >= 256 then ReadS(u, 3, source - 256) else ReadV(u, 4, source)
  }

  function EmitVop3Chain(u: Unit, i: Instruction, a: Word, b: Word, c: Word): Unit {
    var first := Fresh(u);
    if i.opcode == 0x15 then
      var second := Fresh(Value(first.unit, OpFMul, 4, first.id, [a, b]));
      WriteV(Value(second.unit, OpFAdd, 4, second.id, [first.id, c]), i.destination, second.id)
    else
      var number := if i.opcode == 0x1D then 37 else 40;
      var second := Fresh(Glsl(first.unit, first.id, number, [a, b]));
      WriteV(Glsl(second.unit, second.id, number, [first.id, c]), i.destination, second.id)
  }

  function EmitVop3(u: Unit, i: Instruction): Unit {
    if i.opcode !in {0x14, 0x15, 0x1D, 0x1E} then u
    else
      var a := Vop3Read(u, i.source0);
      var b := Vop3Read(a.unit, i.source1);
      var c := Vop3Read(b.unit, i.vsrc2);
      if i.opcode == 0x14 then
        var result := Fresh(c.unit);
        WriteV(Glsl(result.unit, result.id, 50, [a.id, b.id, c.id]), i.destination, result.id)
      else EmitVop3Chain(c.unit, i, a.id, b.id, c.id)
  }

  function Vop1Glsl(opcode: Word): Option<Word> {
    match opcode
    case 0x05 => Some(32)
    case 0x20 => Some(29)
    case 0x21 => Some(10)
    case 0x22 => Some(9)
    case 0x24 => Some(8)
    case 0x27 => Some(30)
    case 0x33 => Some(31)
    case 0x35 => Some(13)
    case 0x36 => Some(14)
    case _ => None
  }

  function EmitVop1(u: Unit, i: Instruction): Unit {
    var source := ReadV(u, 4, i.source0);
    var result := Fresh(source.unit);
    var t := result.unit;
    var x := result.id;
    match i.opcode
    case 0x00 => WriteV(Value(t, OpCopyObject, 4, x, [source.id]), i.destination, x)
    case 0x01 =>
      var s := ReadS(t, 3, i.source0);
      WriteV(Value(s.unit, OpConvertSToF, 4, x, [s.id]), i.destination, x)
    case 0x04 => WriteV(Value(t, OpFDiv, 4, x, [11, source.id]), i.destination, x)
    case 0x0C =>
      var s := ReadV(t, 3, i.source0);
      WriteV(Value(s.unit, OpConvertUToF, 4, x, [s.id]), i.destination, x)
    case 0x0D => WriteS(Value(t, OpConvertFToU, 3, x, [source.id]), i.destination, x)
    case 0x0E => WriteS(Value(t, OpConvertFToS, 3, x, [source.id]), i.destination, x)
    case _ =>
      match Vop1Glsl(i.opcode)
      case Some(number) => WriteV(Glsl(t, x, number, [source.id]), i.destination, x)
      case None => t
  }

  function EmitVopc(u: Unit, i: Instruction): Unit {
    var left := ReadV(u, 4, i.source0);
    var right := ReadV(left.unit, 4, i.source1);
    var result := Fresh(right.unit);
    Value(result.unit, OpFOrdGreaterThan, 2, result.id, [left.id, right.id])
  }

  function EmitReturn(u: Unit): Unit {
    Put(u, OpReturn, []).(ended := true)
  }

  function Lane(i: Instruction, n: nat, id: Word): Word
    requires n < 4
  {
    if i.expEn / Pow2(n) % 2 == 1 then id else if n == 3 then 11 else 10
  }

  function EmitExport(u: Unit, i: Instruction): Unit {
    if i.expTarget != 12 && i.expTarget > 7 then u
    else
      var x := ReadV(u, 4, i.source0);
      var y := ReadV(x.unit, 4, i.source1);
      var z := ReadV(y.unit, 4, i.vsrc2);
      var w := ReadV(z.unit, 4, i.vsrc3);
      var vector := Fresh(w.unit);
      var built := Value(vector.unit, OpCompositeConstruct, 5, vector.id,
                         [Lane(i, 0, x.id), Lane(i, 1, y.id), Lane(i, 2, z.id), Lane(i, 3, w.id)]);
      Put(built, OpStore, [if i.expTarget == 12 then 15 else 12, vector.id])
  }

  // One of the four dwords a scalar memory read fetches.
  function EmitSmemWord(u: Unit, i: Instruction, n: Word): Unit
    requires n < 4
  {
    var index := Fresh(u);
    var constant := Put(index.unit, OpConstant, [3, index.id, i.source0 % 64 + n]);
    var chain := Fresh(constant);
    var access := Put(chain.unit, OpAccessChain, [u.ids.ptrUboFloat, chain.id, u.ids.uboVar, 0, index.id]);
    var value := Load(access, 4, chain.id);
    WriteS(value.unit, (i.destination + n) % TWO_32, value.id)
  }

  function EmitSmem(u: Unit, i: Instruction, count: Word): Unit
    requires count <= 4
  {
    if count == 0 then u else EmitSmemWord(EmitSmem(u, i, count - 1), i, count - 1)
  }

  function EmitChannel(u: Unit, i: Instruction, texel: Word, n: Word): Unit
    requires n < 4
  {
    var component := Fresh(u);
    WriteV(Put(component.unit, OpCompositeExtract, [4, component.id, texel, n]),
           (i.destination + n) % 256, component.id)
  }

  function EmitChannels(u: Unit, i: Instruction, texel: Word, count: Word): Unit
    requires count <= 4
  {
    if count == 0 then u else EmitChannel(EmitChannels(u, i, texel, count - 1), i, texel, count - 1)
  }

  // Samples the image at uv and spreads the texel over four registers.
  function EmitTexel(u: Unit, i: Instruction, uv: Word): Unit {
    var image := Load(u, u.ids.typeSampledImage, u.ids.sampledImageVar);
    var texel := Fresh(image.unit);
    var sampled := Value(texel.unit, OpImageSampleImplicitLod, 5, texel.id, [image.id, uv]);
    EmitChannels(sampled, i, texel.id, 4)
  }

  function EmitSample(u: Unit, i: Instruction): Unit {
    if !u.ids.image then u
    else
      var first := ReadV(u, 4, i.source0);
      var second := ReadV(first.unit, 4, (i.source0 + 1) % 256);
      var uv := Fresh(second.unit);
      EmitTexel(Value(uv.unit, OpCompositeConstruct, u.ids.typeVec2, uv.id, [first.id, second.id]), i, uv.id)
  }

  function EmitVmem(u: Unit, i: Instruction): Unit {
    if Samples(i) then EmitSample(u, i)
    else
      var source := ReadV(u, 4, i.source0);
      WriteV(source.unit, i.destination, source.id)
  }

  function EmitInstruction(u: Unit, i: Instruction): Unit {
    match i.format
    case Sop2 => EmitSop2(u, i)
    case Vop1 => EmitVop1(u, i)
    case Vop2 => EmitVop2(u, i)
    case Vop3 => EmitVop3(u, i)
    case Vopc => EmitVopc(u, i)
    case Sopp => if EndsProgram(i) then EmitReturn(u) else u
    case Export => EmitExport(u, i)
    case Smem => EmitSmem(u, i, 4)
    case Vmem => EmitVmem(u, i)
    case _ => u
  }

  function EmitInstructions(u: Unit, code: seq<Instruction>): Unit {
    if code == [] then u else EmitInstruction(EmitInstructions(u, code[..|code| - 1]), code[|code| - 1])
  }

  function Byte(text: string, k: nat): (r: int)
    ensures 0 <= r < 256
  {
    if k < |text| then text[k] as int % 256 else 0
  }

  // Four characters to a word, first character lowest, zero terminated and padded.
  function PackString(text: string): (r: seq<Word>)
    ensures |r| == (|text| + 4) / 4
  {
    [Byte(text, 0) + Byte(text, 1) * 0x100 + Byte(text, 2) * 0x1_0000 + Byte(text, 3) * 0x100_0000] +
    if |text| < 4 then [] else PackString(text[4..])
  }

  function HeaderScalarTypes(u: Unit): Unit {
    var a := Put(Put(Put(Put(u, OpCapability, [1]), OpMemoryModel, [0, 1]), OpTypeVoid, [1]), OpTypeBool, [2]);
    Put(Put(Put(a, OpTypeInt, [3, 32, 1]), OpTypeFloat, [4, 32]), OpTypeVector, [5, 4, 4])
  }

  // Ids 1 to 11 are fixed.
  function HeaderTypes(u: Unit): Unit {
    var a := HeaderScalarTypes(u);
    var b := Put(Put(Put(a, OpTypePointer, [6, 7, 3]), OpTypePointer, [7, 7, 4]), OpTypePointer, [8, 3, 5]);
    Put(Put(Put(b, OpTypeFunction, [9, 1]), OpConstant, [4, 10, 0]), OpConstant, [4, 11, 0x3F80_0000])
  }

  function HeaderOutput(u: Unit, stage: Stage): Unit {
    match stage
    case Fragment => Put(Put(u, OpVariable, [8, 12, 3]), OpDecorate, [12, 30, 0])
    case Vertex => Put(Put(u, OpVariable, [8, 15, 3]), OpDecorate, [15, 11, 0])
    case Compute => u
  }

  datatype BufferTypes = BufferTypes(unit: Unit, glsl: Word, ubo: Word, pointer: Word)

  function HeaderBufferTypes(u: Unit): BufferTypes {
    var glsl := Fresh(u);
    var length := Fresh(Put(glsl.unit, OpExtInstImport, [glsl.id] + PackString("GLSL.std.450")));
    var array_ := Fresh(Put(length.unit, OpConstant, [3, length.id, 256]));
    var ubo := Fresh(Put(array_.unit, OpTypeArray, [array_.id, 4, length.id]));
    var pointer := Fresh(Put(ubo.unit, OpTypeStruct, [ubo.id, array_.id]));
    BufferTypes(Put(pointer.unit, OpTypePointer, [pointer.id, 2, ubo.id]), glsl.id, ubo.id, pointer.id)
  }

  datatype BufferVariable = BufferVariable(unit: Unit, variable: Word, element: Word)

  function HeaderBufferVariable(u: Unit, ubo: Word, pointer: Word): BufferVariable {
    var variable := Fresh(u);
    var a := Put(variable.unit, OpVariable, [pointer, variable.id, 2]);
    var b := Put(Put(a, OpDecorate, [variable.id, 34, 0]), OpDecorate, [variable.id, 33, 0]);
    var element := Fresh(Put(Put(b, OpDecorate, [ubo, 2]), OpMemberDecorate, [ubo, 0, 35, 0]));
    BufferVariable(Put(element.unit, OpTypePointer, [element.id, 2, 4]), variable.id, element.id)
  }

  function HeaderBuffer(u: Unit): Unit {
    var t := HeaderBufferTypes(u);
    var v := HeaderBufferVariable(t.unit, t.ubo, t.pointer);
    v.unit.(ids := u.ids.(glsl := t.glsl, uboVar := v.variable, ptrUboFloat := v.element))
  }

  function HeaderImage(u: Unit): Unit {
    var image := Fresh(u);
    var sampled := Fresh(image.unit);
    var a := Put(Put(sampled.unit, OpTypeImage, [image.id, 4, 1, 0, 0, 0, 1, 0]), OpTypeSampledImage, [sampled.id, image.id]);
    var pointer := Fresh(a);
    var variable := Fresh(Put(pointer.unit, OpTypePointer, [pointer.id, 0, sampled.id]));
    var b := Put(variable.unit, OpVariable, [pointer.id, variable.id, 0]);
    var vec2 := Fresh(Put(Put(b, OpDecorate, [variable.id, 34, 1]), OpDecorate, [variable.id, 33, 1]));
    Put(vec2.unit, OpTypeVector, [vec2.id, 4, 2])
      .(ids := u.ids.(typeSampledImage := sampled.id, sampledImageVar := variable.id, typeVec2 := vec2.id, image := true))
  }

  function HeaderEntry(u: Unit, stage: Stage): Unit {
    match stage
    case Vertex => Put(u, OpEntryPoint, [0, 13, 15] + PackString("main"))
    case Fragment => Put(Put(u, OpExecutionMode, [13, 7]), OpEntryPoint, [4, 13, 12] + PackString("main"))
    case Compute => Put(Put(u, OpExecutionMode, [13, 17, 1, 1, 1]), OpEntryPoint, [5, 13] + PackString("main"))
  }

  const Start := Unit(Empty, 20, map[], map[], false, HeaderIds(0, 0, 0, 0, 0, 0, false))

  function Header(stage: Stage, sample: bool): Unit {
    var u := HeaderBuffer(HeaderOutput(HeaderTypes(Start), stage));
    HeaderEntry(if sample then HeaderImage(u) else u, stage)
  }

  function Open(u: Unit): Unit {
    Put(Put(u, OpFunction, [1, 13, 0, 9]), OpLabel, [14])
  }

  function Close(u: Unit): Unit {
    Put(if u.ended then u else Put(u, OpReturn, []), OpFunctionEnd, [])
  }

  predicate NeedsSample(code: seq<Instruction>) {
    exists k :: 0 <= k < |code| && Samples(code[k])
  }

  // The unit before Close, for which the register allocation is final.
  function Body(bytecode: seq<Word>, hint: Hint): Unit {
    var code := DecodeAll(bytecode);
    EmitInstructions(Open(Header(StageOf(code, hint), NeedsSample(code))), code)
  }

  function Translate(bytecode: seq<Word>, hint: Hint): Unit {
    Close(Body(bytecode, hint))
  }

  const MAGIC: Word := 0x0723_0203
  const VERSION: Word := 0x0001_0500

  function Module(u: Unit): seq<Word>
    requires AllEncodable(u.code)
  {
    [MAGIC, VERSION, 0, u.nextId, 0] + Flatten(u.code)
  }
}
