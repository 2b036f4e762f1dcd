/** The translator object: it appends words in place, fills its register tables
    and bumps its id counter, and what it leaves behind is the translation that
    ShaderEmission defines and ShaderTheorems is about. */
module ShaderTranslator {
  import opened Common
  import opened GcnShader
  import opened ShaderEmission
  import opened SpirvModule

  class Emitter {
    const bytecode: seq<Word>
    const hint: Hint
    var stage: Stage
    var instructions: seq<Instruction>
    var words: seq<Word>
    var sgprs: map<Word, Word>
    var vgprs: map<Word, Word>
    var nextId: Word
    var hasMrt: bool
    var hasPosition: bool
    var ended: bool
    var imageDeclared: bool
    var vec2Declared: bool
    var sampleNeeded: bool
    var typeSampledImage: Word
    var sampledImageVar: Word
    var typeVec2: Word
    var idGlsl: Word
    var uboVar: Word
    var ptrUboFloat: Word
    ghost var code: Code  // the instructions that `words` holds behind its preamble

    constructor (bytecode: seq<Word>, hint: Hint)
      ensures this.bytecode == bytecode && this.hint == hint
      ensures words == [] && instructions == [] && State() == Start
      ensures !hasMrt && !hasPosition && !vec2Declared && !sampleNeeded
    {
      this.bytecode, this.hint := bytecode, hint;
      stage, instructions, words, sgprs, vgprs, nextId := Compute, [], [], map[], map[], 20;
      hasMrt, hasPosition, ended, imageDeclared, vec2Declared, sampleNeeded := false, false, false, false, false, false;
      typeSampledImage, sampledImageVar, typeVec2, idGlsl, uboVar, ptrUboFloat := 0, 0, 0, 0, 0, 0;
      code := Empty;
    }

    ghost function State(): Unit
      reads this
    {
      Unit(code, nextId, sgprs, vgprs, ended,
           HeaderIds(idGlsl, uboVar, ptrUboFloat, typeSampledImage, sampledImageVar, typeVec2, imageDeclared))
    }

    ghost predicate Valid()
      reads `words, `code, `imageDeclared, `vec2Declared
    {
      && AllEncodable(code) && |words| >= 5 && words[5..] == Flatten(code)
      && (imageDeclared ==> vec2Declared)
    }

    // Emission leaves the preamble and the results of the decode pass alone.
    twostate predicate Framed()
      reads this
    {
      && |words| >= 5 && |old(words)| >= 5 && words[..5] == old(words[..5])
      && instructions == old(instructions) && stage == old(stage) && sampleNeeded == old(sampleNeeded)
    }

    method Id() returns (id: Word)
      requires Valid()
      modifies `nextId
      ensures Valid() && Framed()
      ensures Named(State(), id) == Fresh(old(State()))
    {
      id := nextId;
      nextId := (nextId + 1) % TWO_32;
    }

    method Emit(op: Word, operands: seq<Word>)
      requires Valid() && Encodable(Ins(op, operands))
      modifies `words, `code
      ensures Valid() && Framed()
      ensures State() == Put(old(State()), op, operands)
    {
      words := words + [(|operands| + 1) * 0x10000 + op] + operands;
      code := Snoc(code, Ins(op, operands));
      assert words[5..] == old(words)[5..] + Encode(Ins(op, operands));
    }

    method EmitString(op: Word, operands: seq<Word>, text: string)
      requires Valid() && op < 0x10000 && |operands| <= 8 && |text| <= 16
      modifies `words, `code
      ensures Valid() && Framed()
      ensures State() == Put(old(State()), op, operands + PackString(text))
    {
      Emit(op, operands + PackString(text));
    }

    method SgprOf(index: Word) returns (id: Word)
      requires Valid()
      modifies `nextId, `words, `code, `sgprs
      ensures Valid() && Framed()
      ensures Named(State(), id) == Sgpr(old(State()), index)
    {
      var i: Word := index % 104;
      if i in sgprs {
        return sgprs[i];
      }
      id := Id();
      Emit(OpVariable, [6, id, 7]);
      sgprs := sgprs[i := id];
    }

    method VgprOf(index: Word) returns (id: Word)
      requires Valid()
      modifies `nextId, `words, `code, `vgprs
      ensures Valid() && Framed()
      ensures Named(State(), id) == Vgpr(old(State()), index)
    {
      var i: Word := index % 256;
      if i in vgprs {
        return vgprs[i];
      }
      id := Id();
      Emit(OpVariable, [7, id, 7]);
      vgprs := vgprs[i := id];
    }

    method LoadOf(typeId: Word, variable: Word) returns (id: Word)
      requires Valid()
      modifies `nextId, `words, `code
      ensures Valid() && Framed()
      ensures Named(State(), id) == Load(old(State()), typeId, variable)
    {
      id := Id();
      Emit(OpLoad, [typeId, id, variable]);
    }

    method LoadS(typeId: Word, index: Word) returns (id: Word)
      requires Valid()
      modifies `nextId, `words, `code, `sgprs
      ensures Valid() && Framed()
      ensures Named(State(), id) == ReadS(old(State()), typeId, index)
    {
      var variable := SgprOf(index);
      id := LoadOf(typeId, variable);
    }

    method LoadV(typeId: Word, index: Word) returns (id: Word)
      requires Valid()
      modifies `nextId, `words, `code, `vgprs
      ensures Valid() && Framed()
      ensures Named(State(), id) == ReadV(old(State()), typeId, index)
    {
      var variable := VgprOf(index);
      id := LoadOf(typeId, variable);
    }

    method StoreS(index: Word, value: Word)
      requires Valid()
      modifies `nextId, `words, `code, `sgprs
      ensures Valid() && Framed()
      ensures State() == WriteS(old(State()), index, value)
    {
      var variable := SgprOf(index);
      Emit(OpStore, [variable, value]);
    }

    method StoreV(index: Word, value: Word)
      requires Valid()
      modifies `nextId, `words, `code, `vgprs
      ensures Valid() && Framed()
      ensures State() == WriteV(old(State()), index, value)
    {
      var variable := VgprOf(index);
      Emit(OpStore, [variable, value]);
    }

    method Sop2Of(i: Instruction)
      requires Valid()
      modifies this
      ensures Valid() && Framed()
      ensures State() == EmitSop2(old(State()), i)
    {
      hide Valid, AllEncodable, Put, ReadS, WriteS;
      var left := LoadS(3, i.source0);
      var right := LoadS(3, i.source1);
      var result := Id();
      match Sop2Op(i.opcode) {
        case Some(op) =>
          Emit(op, [3, result] + [left, right]);
          StoreS(i.destination, result);
        case None =>
      }
    }

    method MacOf(i: Instruction, left: Word, right: Word, result: Word)
      requires Valid()
      modifies this
      ensures Valid() && Framed()
      ensures State() == EmitMac(old(State()), i, left, right, result)
    {
      var previous := LoadV(4, i.destination);
      var mul := Id();
      Emit(OpFMul, [4, mul] + [left, right]);
      Emit(OpFAdd, [4, result] + [mul, previous]);
      StoreV(i.destination, result);
    }

    method ShiftOf(i: Instruction, result: Word)
      requires Valid()
      modifies this
      ensures Valid() && Framed()
      ensures State() == EmitShift(old(State()), i, result)
    {
      var li := LoadS(3, i.source0);
      var ri := LoadV(3, i.source1);
      Emit(OpShiftLeftLogical, [3, result] + [ri, li]);
      StoreV(i.destination, result);
    }

    method BitwiseOf(i: Instruction, result: Word, op: Word)
      requires Valid() && op < 0x10000
      modifies this
      ensures Valid() && Framed()
      ensures State() == EmitBitwise(old(State()), i, result, op)
    {
      var li := LoadS(3, i.source0);
      var ri := LoadS(3, i.source1);
      Emit(op, [3, result] + [li, ri]);
      StoreS(i.destination, result);
    }

    method Vop2Of(i: Instruction)
      requires Valid()
      modifies this
      ensures Valid() && Framed()
      ensures State() == EmitVop2(old(State()), i)
    {
      hide Valid, AllEncodable, Put, ReadV, ReadS, WriteV, EmitMac, EmitShift, EmitBitwise;
      var left := LoadV(4, i.source0);
      var right := LoadV(4, i.source1);
      var result := Id();
      match i.opcode {
        case 0x00 => Emit(OpFAdd, [4, result] + [left, right]); StoreV(i.destination, result);
        case 0x01 => Emit(OpFSub, [4, result] + [left, right]); StoreV(i.destination, result);
        case 0x02 => Emit(OpFMul, [4, result] + [left, right]); StoreV(i.destination, result);
        case 0x10 => MacOf(i, left, right, result);
        case 0x11 => ShiftOf(i, result);
        case 0x14 => Emit(OpExtInst, [4, result, idGlsl, 37] + [left, right]); StoreV(i.destination, result);
        case 0x15 => Emit(OpExtInst, [4, result, idGlsl, 40] + [left, right]); StoreV(i.destination, result);
        case 0x1B => BitwiseOf(i, result, OpBitwiseAnd);
        case 0x1C => BitwiseOf(i, result, OpBitwiseOr);
        case 0x1D => BitwiseOf(i, result, OpBitwiseXor);
        case _ =>
      }
    }

    method LoadVop3(source: Word) returns (id: Word)
      requires Valid()
      modifies this
      ensures Valid() && Framed()
      ensures Named(State(), id) == Vop3Read(old(State()), source)
    {
      if source >= 256 {
        id := LoadS(3, source - 256);
      } else {
        id := LoadV(4, source);
      }
    }

    method Vop3Of(i: Instruction)
      requires Valid()
      modifies this
      ensures Valid() && Framed()
      ensures State() == EmitVop3(old(State()), i)
    {
      hide AllEncodable, Flatten, Put, Vop3Read, WriteV;
      if i.opcode == 0x14 {
        var a := LoadVop3(i.source0);
        var b := LoadVop3(i.source1);
        var c := LoadVop3(i.vsrc2);
        var result := Id();
        Emit(OpExtInst, [4, result, idGlsl, 50] + [a, b, c]);
        StoreV(i.destination, result);
      } else if i.opcode == 0x15 {
        var a := LoadVop3(i.source0);
        var b := LoadVop3(i.source1);
        var c := LoadVop3(i.vsrc2);
        var mul := Id();
        Emit(OpFMul, [4, mul] + [a, b]);
        var result := Id();
        Emit(OpFAdd, [4, result] + [mul, c]);
        StoreV(i.destination, result);
      } else if i.opcode == 0x1D || i.opcode == 0x1E {
        var a := LoadVop3(i.source0);
        var b := LoadVop3(i.source1);
        var c := LoadVop3(i.vsrc2);
        var ab := Id();
        var number: Word := if i.opcode == 0x1D then 37 else 40;
        Emit(OpExtInst, [4, ab, idGlsl, number] + [a, b]);
        var result := Id();
        Emit(OpExtInst, [4, result, idGlsl, number] + [ab, c]);
        StoreV(i.destination, result);
      }
    }

    method Vop1Of(i: Instruction)
      requires Valid()
      modifies this
      ensures Valid() && Framed()
      ensures State() == EmitVop1(old(State()), i)
    {
      hide Valid, AllEncodable, Put, ReadV, ReadS, WriteV, WriteS;
      var source := LoadV(4, i.source0);
      var result := Id();
      match i.opcode {
        case 0x00 => Emit(OpCopyObject, [4, result] + [source]);
        case 0x01 =>
          var s := LoadS(3, i.source0);
          Emit(OpConvertSToF, [4, result] + [s]);
        case 0x04 => Emit(OpFDiv, [4, result] + [11, source]);
        case 0x0C =>
          var s := LoadV(3, i.source0);
          Emit(OpConvertUToF, [4, result] + [s]);
        case 0x0D =>
          Emit(OpConvertFToU, [3, result] + [source]);
          StoreS(i.destination, result);
          return;
        case 0x0E =>
          Emit(OpConvertFToS, [3, result] + [source]);
          StoreS(i.destination, result);
          return;
        case _ =>
          match Vop1Glsl(i.opcode) {
            case Some(number) => Emit(OpExtInst, [4, result, idGlsl, number] + [source]);
            case None => return;
          }
      }
      StoreV(i.destination, result);
    }

    method VopcOf(i: Instruction)
      requires Valid()
      modifies this
      ensures Valid() && Framed()
      ensures State() == EmitVopc(old(State()), i)
    {
      var left := LoadV(4, i.source0);
      var right := LoadV(4, i.source1);
      var result := Id();
      Emit(OpFOrdGreaterThan, [2, result] + [left, right]);
    }

    method ReturnOf()
      requires Valid()
      modifies this
      ensures Valid() && Framed()
      ensures State() == EmitReturn(old(State()))
    {
      Emit(OpReturn, []);
      ended := true;
    }

    method ExportOf(i: Instruction)
      requires Valid()
      modifies this
      ensures Valid() && Framed()
      ensures State() == EmitExport(old(State()), i)
    {
      hide AllEncodable, Flatten, ReadV, Lane;
      var isPosition, isColour := i.expTarget == 12, i.expTarget <= 7;
      if !isPosition && !isColour {
        return;
      }
      var x := LoadV(4, i.source0);
      var y := LoadV(4, i.source1);
      var z := LoadV(4, i.vsrc2);
      var w := LoadV(4, i.vsrc3);
      var vector := Id();
      Emit(OpCompositeConstruct, [5, vector] + [Lane(i, 0, x), Lane(i, 1, y), Lane(i, 2, z), Lane(i, 3, w)]);
      Emit(OpStore, [if isPosition then 15 else 12, vector]);
    }

    method SmemWordOf(i: Instruction, n: Word)
      requires Valid() && n < 4
      modifies this
      ensures Valid() && Framed()
      ensures State() == EmitSmemWord(old(State()), i, n)
    {
      hide WriteS, Load, Flatten, AllEncodable;
      var index := Id();
      Emit(OpConstant, [3, index, i.source0 % 64 + n]);
      var chain := Id();
      Emit(OpAccessChain, [ptrUboFloat, chain, uboVar, 0, index]);
      var value := LoadOf(4, chain);
      StoreS((i.destination + n) % TWO_32, value);
    }

    method SmemOf(i: Instruction)
      requires Valid()
      modifies this
      ensures Valid() && Framed()
      ensures State() == EmitSmem(old(State()), i, 4)
    {
      var n: Word := 0;
      while n < 4
        invariant n <= 4 && Valid() && Framed()
        invariant State() == EmitSmem(old(State()), i, n)
      {
        SmemWordOf(i, n);
        n := n + 1;
      }
    }

    method ChannelOf(i: Instruction, texel: Word, n: Word)
      requires Valid() && n < 4
      modifies this
      ensures Valid() && Framed()
      ensures State() == EmitChannel(old(State()), i, texel, n)
    {
      var component := Id();
      Emit(OpCompositeExtract, [4, component, texel, n]);
      StoreV((i.destination + n) % 256, component);
    }

    method TexelOf(i: Instruction, uv: Word)
      requires Valid()
      modifies this
      ensures Valid() && Framed()
      ensures State() == EmitTexel(old(State()), i, uv)
    {
      hide AllEncodable, Flatten, EmitChannel;
      var sampledImage := LoadOf(typeSampledImage, sampledImageVar);
      var texel := Id();
      Emit(OpImageSampleImplicitLod, [5, texel] + [sampledImage, uv]);
      ghost var before := State();
      var channel: Word := 0;
      while channel < 4
        invariant channel <= 4 && Valid() && Framed()
        invariant State() == EmitChannels(before, i, texel, channel)
      {
        ChannelOf(i, texel, channel);
        channel := channel + 1;
      }
    }

    method SampleOf(i: Instruction)
      requires Valid()
      modifies this
      ensures Valid() && Framed()
      ensures State() == EmitSample(old(State()), i)
    {
      hide AllEncodable, Flatten, ReadV, EmitTexel;
      if !imageDeclared {
        return;
      }
      assert vec2Declared;  // the header declares both together
      var u := LoadV(4, i.source0);
      var v := LoadV(4, (i.source0 + 1) % 256);
      var uv := Id();
      Emit(OpCompositeConstruct, [typeVec2, uv] + [u, v]);
      TexelOf(i, uv);
    }

    method VmemOf(i: Instruction)
      requires Valid()
      modifies this
      ensures Valid() && Framed()
      ensures State() == EmitVmem(old(State()), i)
    {
      if Samples(i) {
        SampleOf(i);
      } else {
        var source := LoadV(4, i.source0);
        StoreV(i.destination, source);
      }
    }

    method InstructionOf(i: Instruction)
      requires Valid()
      modifies this
      ensures Valid() && Framed()
      ensures State() == EmitInstruction(old(State()), i)
    {
      hide AllEncodable, Flatten, EmitSop2, EmitVop1, EmitVop2, EmitVop3, EmitVopc, EmitExport, EmitSmem, EmitVmem;
      match i.format {
        case Sop2 => Sop2Of(i);
        case Vop1 => Vop1Of(i);
        case Vop2 => Vop2Of(i);
        case Vop3 => Vop3Of(i);
        case Vopc => VopcOf(i);
        case Sopp =>
          if EndsProgram(i) {
            ReturnOf();
          }
        case Export => ExportOf(i);
        case Smem => SmemOf(i);
        case Vmem => VmemOf(i);
        case _ =>
      }
    }

    method BuildTypes()
      requires Valid()
      modifies this
      ensures Valid() && Framed()
      ensures State() == HeaderTypes(old(State()))
    {
      hide AllEncodable;
      Emit(OpCapability, [1]);
      Emit(OpMemoryModel, [0, 1]);
      Emit(OpTypeVoid, [1]);
      Emit(OpTypeBool, [2]);
      Emit(OpTypeInt, [3, 32, 1]);
      Emit(OpTypeFloat, [4, 32]);
      Emit(OpTypeVector, [5, 4, 4]);
      Emit(OpTypePointer, [6, 7, 3]);
      Emit(OpTypePointer, [7, 7, 4]);
      Emit(OpTypePointer, [8, 3, 5]);
      Emit(OpTypeFunction, [9, 1]);
      Emit(OpConstant, [4, 10, 0]);
      Emit(OpConstant, [4, 11, 0x3F80_0000]);
    }

    method BuildOutput()
      requires Valid()
      modifies this
      ensures Valid() && Framed()
      ensures State() == HeaderOutput(old(State()), stage)
    {
      if stage == Fragment {
        Emit(OpVariable, [8, 12, 3]);
        Emit(OpDecorate, [12, 30, 0]);
      } else if stage == Vertex {
        Emit(OpVariable, [8, 15, 3]);
        Emit(OpDecorate, [15, 11, 0]);
      }
    }

    method BuildBufferTypes() returns (glsl: Word, typeUbo: Word, ptrUbo: Word)
      requires Valid()
      modifies `nextId, `words, `code
      ensures Valid() && Framed()
      ensures BufferTypes(State(), glsl, typeUbo, ptrUbo) == HeaderBufferTypes(old(State()))
    {
      hide Valid, AllEncodable, Flatten, PackString, Put, Fresh;
      glsl := Id();
      EmitString(OpExtInstImport, [glsl], "GLSL.std.450");
      var uboLength := Id();
      Emit(OpConstant, [3, uboLength, 256]);
      var typeUboArray := Id();
      Emit(OpTypeArray, [typeUboArray, 4, uboLength]);
      typeUbo := Id();
      Emit(OpTypeStruct, [typeUbo, typeUboArray]);
      ptrUbo := Id();
      Emit(OpTypePointer, [ptrUbo, 2, typeUbo]);
    }

    method BuildBufferVariable(typeUbo: Word, ptrUbo: Word) returns (variable: Word, element: Word)
      requires Valid()
      modifies `nextId, `words, `code
      ensures Valid() && Framed()
      ensures BufferVariable(State(), variable, element) == HeaderBufferVariable(old(State()), typeUbo, ptrUbo)
    {
      hide Valid, AllEncodable, Flatten, Put, Fresh;
      variable := Id();
      Emit(OpVariable, [ptrUbo, variable, 2]);
      Emit(OpDecorate, [variable, 34, 0]);
      Emit(OpDecorate, [variable, 33, 0]);
      Emit(OpDecorate, [typeUbo, 2]);
      Emit(OpMemberDecorate, [typeUbo, 0, 35, 0]);
      element := Id();
      Emit(OpTypePointer, [element, 2, 4]);
    }

    method BuildBuffer()
      requires Valid()
      modifies this
      ensures Valid() && Framed()
      ensures State() == HeaderBuffer(old(State()))
    {
      hide Valid, AllEncodable, Flatten, HeaderBufferTypes, HeaderBufferVariable;
      var glsl, typeUbo, ptrUbo := BuildBufferTypes();
      var variable, element := BuildBufferVariable(typeUbo, ptrUbo);
      idGlsl, uboVar, ptrUboFloat := glsl, variable, element;
    }

    method RememberImage(sampled: Word, variable: Word, vec2: Word)
      requires Valid()
      modifies `typeSampledImage, `sampledImageVar, `typeVec2, `imageDeclared, `vec2Declared
      ensures Valid() && Framed()
      ensures State() == old(State()).(ids := old(State()).ids.(typeSampledImage := sampled, sampledImageVar := variable,
                                                                typeVec2 := vec2, image := true))
    {
      typeSampledImage, sampledImageVar, typeVec2 := sampled, variable, vec2;
      imageDeclared, vec2Declared := true, true;
    }

    method BuildImage()
      requires Valid()
      modifies this
      ensures Valid() && Framed()
      ensures State() == HeaderImage(old(State()))
    {
      hide Valid, AllEncodable, Flatten, Put;
      var typeImage := Id();
      var sampled := Id();
      Emit(OpTypeImage, [typeImage, 4, 1, 0, 0, 0, 1, 0]);
      Emit(OpTypeSampledImage, [sampled, typeImage]);
      var ptrSampledImage := Id();
      Emit(OpTypePointer, [ptrSampledImage, 0, sampled]);
      var variable := Id();
      Emit(OpVariable, [ptrSampledImage, variable, 0]);
      Emit(OpDecorate, [variable, 34, 1]);
      Emit(OpDecorate, [variable, 33, 1]);
      var vec2 := Id();
      Emit(OpTypeVector, [vec2, 4, 2]);
      RememberImage(sampled, variable, vec2);
    }

    method BuildEntry()
      requires Valid()
      modifies this
      ensures Valid() && Framed()
      ensures State() == HeaderEntry(old(State()), stage)
    {
      hide AllEncodable, PackString;
      var model: Word := if stage == Vertex then 0 else if stage == Fragment then 4 else 5;
      if stage == Fragment {
        Emit(OpExecutionMode, [13, 7]);
      }
      if stage == Compute {
        Emit(OpExecutionMode, [13, 17, 1, 1, 1]);
      }
      if stage == Vertex {
        EmitString(OpEntryPoint, [model, 13, 15], "main");
      } else if stage == Fragment {
        EmitString(OpEntryPoint, [model, 13, 12], "main");
      } else {
        EmitString(OpEntryPoint, [model, 13], "main");
      }
    }

    method BuildHeader()
      requires State() == Start
      modifies this
      ensures Valid() && words[..5] == [MAGIC, VERSION, 0, 0, 0]
      ensures instructions == old(instructions) && stage == old(stage) && sampleNeeded == old(sampleNeeded)
      ensures State() == Header(stage, sampleNeeded)
    {
      hide HeaderTypes, HeaderOutput, HeaderBuffer, HeaderImage, HeaderEntry;
      words := [MAGIC, VERSION, 0, 0, 0];
      BuildTypes();
      BuildOutput();
      BuildBuffer();
      if sampleNeeded {
        BuildImage();
      }
      BuildEntry();
    }

    method EmitBody()
      requires Valid()
      modifies this
      ensures Valid() && words[..5] == old(words[..5])[3 := nextId]
      ensures State() == Close(EmitInstructions(Open(old(State())), old(instructions)))
    {
      Emit(OpFunction, [1, 13, 0, 9]);
      Emit(OpLabel, [14]);
      assert State() == Open(old(State()));
      var index := 0;
      while index < |instructions|
        invariant index <= |instructions| && Valid() && Framed()
        invariant State() == EmitInstructions(Open(old(State())), old(instructions)[..index])
      {
        InstructionOf(instructions[index]);
        index := index + 1;
        assert old(instructions)[..index][..index - 1] == old(instructions)[..index - 1];
      }
      assert old(instructions)[..index] == old(instructions);
      if !ended {
        Emit(OpReturn, []);
      }
      Emit(OpFunctionEnd, []);
      words := words[3 := nextId];
    }

    // Reads the instruction at index, with its second word where it has one.
    method NextInstruction(index: nat) returns (instruction: Instruction, next: nat)
      requires index < |bytecode|
      ensures (instruction, next - index) == First(bytecode[index..])
      ensures index < next <= |bytecode|
    {
      instruction := Decode(bytecode[index]);
      var second: Option<Word> := None;
      next := index + 1;
      if IsWide(instruction.format) && next < |bytecode| {
        second := Some(bytecode[next]);
        next := next + 1;
      }
      instruction := Complete(instruction, second);
    }

    ghost predicate FactsHold()
      reads `instructions, `hasMrt, `hasPosition, `sampleNeeded
    {
      && hasMrt == ExportsColour(instructions) && hasPosition == ExportsPosition(instructions)
      && sampleNeeded == NeedsSample(instructions)
    }

    method Collect(instruction: Instruction)
      requires FactsHold()
      modifies `instructions, `hasMrt, `hasPosition, `sampleNeeded
      ensures FactsHold() && instructions == old(instructions) + [instruction]
    {
      hide Samples, NeedsSample, ExportsColour, ExportsPosition;
      FactsMore(instructions, instruction);
      if instruction.format == Export {
        hasMrt := hasMrt || instruction.expTarget <= 7;
        hasPosition := hasPosition || instruction.expTarget == 12;
      } else if Samples(instruction) {
        sampleNeeded := true;
      }
      instructions := instructions + [instruction];
    }

    /** The decode pass: instructions and the facts collected about them. */
    method DecodePass()
      requires instructions == [] && !hasMrt && !hasPosition && !sampleNeeded
      modifies `instructions, `hasMrt, `hasPosition, `sampleNeeded, `stage
      ensures instructions == DecodeAll(bytecode)
      ensures stage == StageOf(DecodeAll(bytecode), hint)
      ensures sampleNeeded == NeedsSample(DecodeAll(bytecode))
    {
      hide First, Samples;
      var index := 0;
      while index < |bytecode|
        invariant index <= |bytecode| && FactsHold()
        invariant DecodeAll(bytecode) == instructions + DecodeAll(bytecode[index..])
      {
        ghost var rest := bytecode[index..];
        var instruction, next := NextInstruction(index);
        assert rest[next - index..] == bytecode[next..];
        Collect(instruction);
        index := next;
      }
      stage := match hint
        case Fixed(s) => s
        case Auto => if hasPosition then Vertex else if hasMrt then Fragment else Compute;
    }

    /** Fails exactly on empty bytecode; otherwise the output is the module of
        the translation. */
    method Run() returns (ok: bool, output: seq<Word>, error: string)
      requires State() == Start && words == [] && instructions == []
      requires !hasMrt && !hasPosition && !vec2Declared && !sampleNeeded
      modifies this
      ensures ok <==> bytecode != []
      ensures ok ==> AllEncodable(Translate(bytecode, hint).code) && output == Module(Translate(bytecode, hint)) && error == ""
      ensures !ok ==> output == [] && error == "GCN shader bytecode is empty"
    {
      hide DecodeAll, StageOf, NeedsSample, Header, EmitInstructions, Open, Close;
      if bytecode == [] {
        return false, [], "GCN shader bytecode is empty";
      }
      DecodePass();
      BuildHeader();
      EmitBody();
      assert words == words[..5] + words[5..];
      return true, words, "";
    }
  }

  /** The public entry point. */
  method TranslateShader(bytecode: seq<Word>, hint: Hint) returns (ok: bool, output: seq<Word>, error: string)
    ensures ok <==> bytecode != []
    ensures ok ==> AllEncodable(Translate(bytecode, hint).code) && output == Module(Translate(bytecode, hint)) && error == ""
    ensures !ok ==> output == [] && error == "GCN shader bytecode is empty"
  {
    var emitter := new Emitter(bytecode, hint);
    ok, output, error := emitter.Run();
  }

  // What one more instruction adds to the facts about the ones before it.
  lemma FactsMore(before: seq<Instruction>, i: Instruction)
    ensures ExportsColour(before + [i]) <==> ExportsColour(before) || (i.format == Export && i.expTarget <= 7)
    ensures ExportsPosition(before + [i]) <==> ExportsPosition(before) || (i.format == Export && i.expTarget == 12)
    ensures NeedsSample(before + [i]) <==> NeedsSample(before) || Samples(i)
    ensures Samples(i) ==> i.format != Export
  {
    var more := before + [i];
    assert i.format == Vmem || !Samples(i);
    hide Samples;
    assert more[|before|] == i;
    assert forall k :: 0 <= k < |before| ==> more[k] == before[k];
  }
}
