/** What the emitted instructions are, without interpreting them: where a module
    returns, what its entry point instruction says, and which ids occur in it. */
module ShaderStructure {
  import opened Common
  import opened GcnShader
  import opened ShaderEmission
  import opened SpirvModule

  // ---- Mode and control instructions ---------------------------------------------------------

  const Framing := {OpEntryPoint, OpExecutionMode, OpReturn, OpFunctionEnd}

  // The mode and control instructions of a module, in order.
  function Frame(c: Code): seq<Ins> {
    if c.Empty? then [] else Frame(c.rest) + if c.last.op in Framing then [c.last] else []
  }

  lemma PutFrame()
    ensures forall u: Unit, op: Word, operands: seq<Word> {:trigger Put(u, op, operands)} ::
              && Put(u, op, operands).ended == u.ended
              && Frame(Put(u, op, operands).code) ==
                   if op in Framing then Frame(u.code) + [Ins(op, operands)] else Frame(u.code)
  {
  }

  function EntryMode(stage: Stage): seq<Ins> {
    match stage
    case Vertex => [Ins(OpEntryPoint, [0, 13, 15] + PackString("main"))]
    case Fragment => [Ins(OpExecutionMode, [13, 7]), Ins(OpEntryPoint, [4, 13, 12] + PackString("main"))]
    case Compute => [Ins(OpExecutionMode, [13, 17, 1, 1, 1]), Ins(OpEntryPoint, [5, 13] + PackString("main"))]
  }

  lemma TypesFrame(stage: Stage)
    ensures var u := HeaderOutput(HeaderTypes(Start), stage); Frame(u.code) == [] && !u.ended
  {
    var u1 := HeaderScalarTypes(Start);
    var u2 := HeaderTypes(Start);
    assert Frame(Start.code) == [];
    hide Frame, Put;
    PutFrame();
    assert Frame(u1.code) == [] && !u1.ended;
    assert Frame(u2.code) == [] && !u2.ended;
  }

  lemma BufferFrame(u: Unit)
    ensures Frame(HeaderBuffer(u).code) == Frame(u.code) && HeaderBuffer(u).ended == u.ended
  {
    hide Frame, Put, PackString, Fresh;
    PutFrame();
    FreshFrame();
    var t := HeaderBufferTypes(u);
    assert Frame(t.unit.code) == Frame(u.code) && t.unit.ended == u.ended;
    var v := HeaderBufferVariable(t.unit, t.ubo, t.pointer);
    assert Frame(v.unit.code) == Frame(t.unit.code) && v.unit.ended == t.unit.ended;
  }

  lemma ImageFrame(u: Unit)
    ensures Frame(HeaderImage(u).code) == Frame(u.code) && HeaderImage(u).ended == u.ended
  {
    hide Frame, Put, Fresh;
    PutFrame();
    FreshFrame();
  }

  lemma EntryFrame(u: Unit, stage: Stage)
    requires Frame(u.code) == [] && !u.ended
    ensures var u' := Open(HeaderEntry(u, stage)); Frame(u'.code) == EntryMode(stage) && !u'.ended
  {
    hide Frame, Put, PackString;
    PutFrame();
  }

  lemma HeaderFrame(stage: Stage, sample: bool)
    ensures var u := Open(Header(stage, sample)); Frame(u.code) == EntryMode(stage) && !u.ended
  {
    hide Frame, Open, HeaderOutput, HeaderTypes, HeaderBuffer, HeaderImage, HeaderEntry, EntryMode;
    var u := HeaderOutput(HeaderTypes(Start), stage);
    TypesFrame(stage);
    BufferFrame(u);
    ImageFrame(HeaderBuffer(u));
    EntryFrame(if sample then HeaderImage(HeaderBuffer(u)) else HeaderBuffer(u), stage);
  }

  lemma FreshFrame()
    ensures forall u: Unit {:trigger Fresh(u)} :: Fresh(u).unit.code == u.code && Fresh(u).unit.ended == u.ended
  {
  }

  // ---- Ids --------------------------------------------------------------------------------------

  function Occurring(i: Ins): set<Word> {
    Results(i) + Uses(i)
  }

  // The ids that the instructions of a module define or consume.
  function Ids(c: Code): set<Word> {
    if c.Empty? then {} else Ids(c.rest) + Occurring(c.last)
  }

  predicate Named(u: Unit, id: Word) {
    0 < id < u.nextId
  }

  // Every id that the unit remembers or has emitted is below its counter.
  ghost predicate Fits(u: Unit) {
    && 20 <= u.nextId && !u.ended
    && (forall i :: i in u.sgprs ==> Named(u, u.sgprs[i])) && (forall i :: i in u.vgprs ==> Named(u, u.vgprs[i]))
    && Named(u, u.ids.glsl) && Named(u, u.ids.uboVar) && Named(u, u.ids.ptrUboFloat)
    && (u.ids.image ==> Named(u, u.ids.typeSampledImage) && Named(u, u.ids.sampledImageVar) && Named(u, u.ids.typeVec2))
    && (forall id :: id in Ids(u.code) ==> id < u.nextId)
  }

  predicate Clean(u: Unit) {
    0 !in Ids(u.code)
  }

  // Growth by at most n ids that neither emits framing nor mentions id 0.
  ghost predicate Keeps(u: Unit, u': Unit, n: nat) {
    && Fits(u') && Frame(u'.code) == Frame(u.code) && (Clean(u') <==> Clean(u))
    && u.nextId <= u'.nextId <= u.nextId + n && u'.ids == u.ids
  }

  ghost predicate Gives(u: Unit, r: Named, n: nat) {
    Keeps(u, r.unit, n) && Named(r.unit, r.id)
  }

  lemma PutKeeps(u: Unit, op: Word, operands: seq<Word>)
    requires Fits(u) && op !in Framing && forall id :: id in Occurring(Ins(op, operands)) ==> Named(u, id)
    ensures Keeps(u, Put(u, op, operands), 0)
  {
    hide Occurring;
    PutIds(u, op, operands);
    PutFrame();
    hide Ids, Frame;
  }

  lemma PutIds(u: Unit, op: Word, operands: seq<Word>)
    ensures Ids(Put(u, op, operands).code) == Ids(u.code) + Occurring(Ins(op, operands))
  {
  }

  lemma FreshGives(u: Unit)
    requires Fits(u) && u.nextId + 1 < TWO_32
    ensures Gives(u, Fresh(u), 1)
  {
  }

  lemma SgprGives(u: Unit, index: Word)
    requires Fits(u) && u.nextId + 1 < TWO_32
    ensures Gives(u, Sgpr(u, index), 1)
  {
    if index % 104 !in u.sgprs {
      var f := Fresh(u);
      assert Occurring(Ins(OpVariable, [6, f.id, 7])) == {6, f.id};
      PutKeeps(f.unit, OpVariable, [6, f.id, 7]);
    }
  }

  lemma VgprGives(u: Unit, index: Word)
    requires Fits(u) && u.nextId + 1 < TWO_32
    ensures Gives(u, Vgpr(u, index), 1)
  {
    if index % 256 !in u.vgprs {
      var f := Fresh(u);
      assert Occurring(Ins(OpVariable, [7, f.id, 7])) == {7, f.id};
      PutKeeps(f.unit, OpVariable, [7, f.id, 7]);
    }
  }

  // Operations whose operands are a type, the result and then ids.
  const Plain := {OpLoad, OpAccessChain, OpCompositeConstruct, OpCopyObject, OpImageSampleImplicitLod, OpConvertFToU,
                  OpConvertFToS, OpConvertUToF, OpConvertSToF, OpIAdd, OpFAdd, OpISub, OpFSub, OpIMul, OpFMul, OpFDiv,
                  OpFOrdGreaterThan, OpShiftRightLogical, OpShiftRightArithmetic, OpShiftLeftLogical, OpBitwiseOr,
                  OpBitwiseXor, OpBitwiseAnd}

  lemma ValueKeeps(u: Unit, op: Word, typeId: Word, x: Word, args: seq<Word>)
    requires Fits(u) && op in Plain && Named(u, typeId) && Named(u, x) && forall a :: a in args ==> Named(u, a)
    ensures Keeps(u, Value(u, op, typeId, x, args), 0)
  {
    var ins := Ins(op, [typeId, x] + args);
    assert forall j: nat :: 2 <= j < |ins.operands| ==> ins.operands[j] == args[j - 2];
    PutKeeps(u, op, [typeId, x] + args);
  }

  lemma GlslKeeps(u: Unit, x: Word, number: Word, args: seq<Word>)
    requires Fits(u) && Named(u, x) && forall a :: a in args ==> Named(u, a)
    ensures Keeps(u, Glsl(u, x, number, args), 0)
  {
    var ins := Ins(OpExtInst, [4, x, u.ids.glsl, number] + args);
    assert forall j: nat :: 4 <= j < |ins.operands| ==> ins.operands[j] == args[j - 4];
    PutKeeps(u, OpExtInst, [4, x, u.ids.glsl, number] + args);
  }

  lemma StoreKeeps(u: Unit, variable: Word, x: Word)
    requires Fits(u) && Named(u, variable) && Named(u, x)
    ensures Keeps(u, Put(u, OpStore, [variable, x]), 0)
  {
    PutKeeps(u, OpStore, [variable, x]);
  }

  lemma LoadGives(u: Unit, typeId: Word, variable: Word)
    requires Fits(u) && Named(u, typeId) && Named(u, variable) && u.nextId + 1 < TWO_32
    ensures Gives(u, Load(u, typeId, variable), 1)
  {
    FreshGives(u);
    var f := Fresh(u);
    ValueKeeps(f.unit, OpLoad, typeId, f.id, [variable]);
    assert [typeId, f.id] + [variable] == [typeId, f.id, variable];
    hide Fits;
  }

  lemma ReadSGives(u: Unit, typeId: Word, index: Word)
    requires Fits(u) && Named(u, typeId) && u.nextId + 2 < TWO_32
    ensures Gives(u, ReadS(u, typeId, index), 2)
  {
    hide Fits, Sgpr, Load, Clean, Frame;
    SgprGives(u, index);
    LoadGives(Sgpr(u, index).unit, typeId, Sgpr(u, index).id);
  }

  lemma ReadVGives(u: Unit, typeId: Word, index: Word)
    requires Fits(u) && Named(u, typeId) && u.nextId + 2 < TWO_32
    ensures Gives(u, ReadV(u, typeId, index), 2)
  {
    hide Fits, Vgpr, Load, Clean, Frame;
    VgprGives(u, index);
    LoadGives(Vgpr(u, index).unit, typeId, Vgpr(u, index).id);
  }

  lemma WriteSKeeps(u: Unit, index: Word, x: Word)
    requires Fits(u) && Named(u, x) && u.nextId + 1 < TWO_32
    ensures Keeps(u, WriteS(u, index, x), 1)
  {
    hide Fits, Sgpr, Clean, Put, Frame;
    SgprGives(u, index);
    StoreKeeps(Sgpr(u, index).unit, Sgpr(u, index).id, x);
  }

  lemma WriteVKeeps(u: Unit, index: Word, x: Word)
    requires Fits(u) && Named(u, x) && u.nextId + 1 < TWO_32
    ensures Keeps(u, WriteV(u, index, x), 1)
  {
    hide Fits, Vgpr, Clean, Put, Frame;
    VgprGives(u, index);
    StoreKeeps(Vgpr(u, index).unit, Vgpr(u, index).id, x);
  }

  lemma ValueWritten(u: Unit, op: Word, t: Word, x: Word, args: seq<Word>, index: Word)
    requires Fits(u) && u.nextId + 1 < TWO_32
    requires op in Plain && Named(u, t) && Named(u, x) && forall a :: a in args ==> Named(u, a)
    ensures Keeps(u, WriteV(Value(u, op, t, x, args), index, x), 1)
    ensures Keeps(u, WriteS(Value(u, op, t, x, args), index, x), 1)
  {
    hide Fits, Clean, Frame, WriteS, WriteV, Value, Plain;
    ValueKeeps(u, op, t, x, args);
    WriteVKeeps(Value(u, op, t, x, args), index, x);
    WriteSKeeps(Value(u, op, t, x, args), index, x);
  }

  lemma GlslWritten(u: Unit, x: Word, number: Word, args: seq<Word>, index: Word)
    requires Fits(u) && u.nextId + 1 < TWO_32 && Named(u, x) && forall a :: a in args ==> Named(u, a)
    ensures Keeps(u, WriteV(Glsl(u, x, number, args), index, x), 1)
  {
    hide Fits, Clean, Frame, WriteV, Glsl;
    GlslKeeps(u, x, number, args);
    WriteVKeeps(Glsl(u, x, number, args), index, x);
  }

  lemma Sop2Keeps(u: Unit, i: Instruction)
    requires Fits(u) && u.nextId + 16 < TWO_32
    ensures Keeps(u, EmitSop2(u, i), 16)
  {
    assert 20 <= u.nextId;
    hide Fits, Clean, Frame, Fresh, ReadS, WriteS, WriteV, Value, Sop2Op;
    ReadSGives(u, 3, i.source0);
    var left := ReadS(u, 3, i.source0);
    ReadSGives(left.unit, 3, i.source1);
    var right := ReadS(left.unit, 3, i.source1);
    FreshGives(right.unit);
    var result := Fresh(right.unit);
    Sop2Plain(i.opcode);
    if Sop2Op(i.opcode).Some? {
      hide Plain;
      ValueWritten(result.unit, Sop2Op(i.opcode).value, 3, result.id, [left.id, right.id], i.destination);
    }
  }

  lemma Sop2Plain(opcode: Word)
    ensures Sop2Op(opcode).Some? ==> Sop2Op(opcode).value in Plain
  {
  }

  lemma MacKeeps(u: Unit, i: Instruction, left: Word, right: Word, x: Word)
    requires Fits(u) && u.nextId + 8 < TWO_32 && Named(u, left) && Named(u, right) && Named(u, x)
    ensures Keeps(u, EmitMac(u, i, left, right, x), 8)
  {
    assert 20 <= u.nextId;
    hide Fits, Clean, Frame, Fresh, ReadV, WriteV, WriteS, Value;
    ReadVGives(u, 4, i.destination);
    var previous := ReadV(u, 4, i.destination);
    FreshGives(previous.unit);
    var mul := Fresh(previous.unit);
    ValueKeeps(mul.unit, OpFMul, 4, mul.id, [left, right]);
    ValueWritten(Value(mul.unit, OpFMul, 4, mul.id, [left, right]), OpFAdd, 4, x, [mul.id, previous.id], i.destination);
  }

  lemma ShiftKeeps(u: Unit, i: Instruction, x: Word)
    requires Fits(u) && u.nextId + 8 < TWO_32 && Named(u, x)
    ensures Keeps(u, EmitShift(u, i, x), 8)
  {
    assert 20 <= u.nextId;
    hide Fits, Clean, Frame, ReadS, ReadV, WriteV, WriteS, Value;
    ReadSGives(u, 3, i.source0);
    var li := ReadS(u, 3, i.source0);
    ReadVGives(li.unit, 3, i.source1);
    var ri := ReadV(li.unit, 3, i.source1);
    ValueWritten(ri.unit, OpShiftLeftLogical, 3, x, [ri.id, li.id], i.destination);
  }

  lemma BitwiseKeeps(u: Unit, i: Instruction, x: Word, op: Word)
    requires Fits(u) && u.nextId + 8 < TWO_32 && Named(u, x) && op in Plain
    ensures Keeps(u, EmitBitwise(u, i, x, op), 8)
  {
    assert 20 <= u.nextId;
    hide Fits, Clean, Frame, ReadS, WriteV, WriteS, Value, Plain;
    ReadSGives(u, 3, i.source0);
    var li := ReadS(u, 3, i.source0);
    ReadSGives(li.unit, 3, i.source1);
    var ri := ReadS(li.unit, 3, i.source1);
    ValueWritten(ri.unit, op, 3, x, [li.id, ri.id], i.destination);
  }

  // Two vector reads and a result id.
  lemma TwoReads(u: Unit, a: Word, b: Word)
    requires Fits(u) && u.nextId + 5 < TWO_32
    ensures var left := ReadV(u, 4, a);
            var right := ReadV(left.unit, 4, b);
            var result := Fresh(right.unit);
            Gives(u, result, 5) && Named(result.unit, left.id) && Named(result.unit, right.id)
  {
    assert 20 <= u.nextId;
    hide Fits, Clean, Frame, Fresh, ReadV;
    ReadVGives(u, 4, a);
    var left := ReadV(u, 4, a);
    ReadVGives(left.unit, 4, b);
    FreshGives(ReadV(left.unit, 4, b).unit);
  }

  lemma Vop2Keeps(u: Unit, i: Instruction)
    requires Fits(u) && u.nextId + 16 < TWO_32
    ensures Keeps(u, EmitVop2(u, i), 16)
  {
    assert 20 <= u.nextId;
    hide Fits, Clean, Frame, Fresh, ReadV, WriteS, WriteV, Value, Glsl, EmitMac, EmitShift, EmitBitwise;
    TwoReads(u, i.source0, i.source1);
    var left := ReadV(u, 4, i.source0);
    var right := ReadV(left.unit, 4, i.source1);
    var result := Fresh(right.unit);
    var t, x, args := result.unit, result.id, [left.id, right.id];
    match i.opcode
    case 0x00 => ValueWritten(t, OpFAdd, 4, x, args, i.destination);
    case 0x01 => ValueWritten(t, OpFSub, 4, x, args, i.destination);
    case 0x02 => ValueWritten(t, OpFMul, 4, x, args, i.destination);
    case 0x10 => MacKeeps(t, i, left.id, right.id, x);
    case 0x11 => ShiftKeeps(t, i, x);
    case 0x14 => GlslWritten(t, x, 37, args, i.destination);
    case 0x15 => GlslWritten(t, x, 40, args, i.destination);
    case 0x1B => BitwiseKeeps(t, i, x, OpBitwiseAnd);
    case 0x1C => BitwiseKeeps(t, i, x, OpBitwiseOr);
    case 0x1D => BitwiseKeeps(t, i, x, OpBitwiseXor);
    case _ =>
  }

  lemma VopcKeeps(u: Unit, i: Instruction)
    requires Fits(u) && u.nextId + 16 < TWO_32
    ensures Keeps(u, EmitVopc(u, i), 16)
  {
    assert 20 <= u.nextId;
    hide Fits, Clean, Frame, Fresh, ReadV, Value;
    TwoReads(u, i.source0, i.source1);
    var left := ReadV(u, 4, i.source0);
    var right := ReadV(left.unit, 4, i.source1);
    var result := Fresh(right.unit);
    ValueKeeps(result.unit, OpFOrdGreaterThan, 2, result.id, [left.id, right.id]);
  }

  lemma Vop3ReadGives(u: Unit, source: Word)
    requires Fits(u) && u.nextId + 2 < TWO_32
    ensures Gives(u, Vop3Read(u, source), 2)
  {
    assert 20 <= u.nextId;
    hide Fits, Clean, Frame, ReadS, ReadV;
    if source >= 256 { ReadSGives(u, 3, source - 256); } else { ReadVGives(u, 4, source); }
  }

  lemma ChainKeeps(u: Unit, i: Instruction, a: Word, b: Word, c: Word)
    requires Fits(u) && u.nextId + 3 < TWO_32 && Named(u, a) && Named(u, b) && Named(u, c)
    ensures Keeps(u, EmitVop3Chain(u, i, a, b, c), 3)
  {
    assert 20 <= u.nextId;
    hide Fits, Clean, Frame, Fresh, WriteV, WriteS, Value, Glsl;
    FreshGives(u);
    var first := Fresh(u);
    if i.opcode == 0x15 {
      var v := Value(first.unit, OpFMul, 4, first.id, [a, b]);
      ValueKeeps(first.unit, OpFMul, 4, first.id, [a, b]);
      FreshGives(v);
      ValueWritten(Fresh(v).unit, OpFAdd, 4, Fresh(v).id, [first.id, c], i.destination);
    } else {
      var number := if i.opcode == 0x1D then 37 else 40;
      var v := Glsl(first.unit, first.id, number, [a, b]);
      GlslKeeps(first.unit, first.id, number, [a, b]);
      FreshGives(v);
      GlslWritten(Fresh(v).unit, Fresh(v).id, number, [first.id, c], i.destination);
    }
  }

  lemma Vop3Keeps(u: Unit, i: Instruction)
    requires Fits(u) && u.nextId + 16 < TWO_32
    ensures Keeps(u, EmitVop3(u, i), 16)
  {
    hide Fits, Clean, Frame, Fresh, Vop3Read, WriteV, Glsl, EmitVop3Chain;
    if i.opcode in {0x14, 0x15, 0x1D, 0x1E} {
      Vop3ReadGives(u, i.source0);
      var a := Vop3Read(u, i.source0);
      Vop3ReadGives(a.unit, i.source1);
      var b := Vop3Read(a.unit, i.source1);
      Vop3ReadGives(b.unit, i.vsrc2);
      var c := Vop3Read(b.unit, i.vsrc2);
      if i.opcode == 0x14 {
        FreshGives(c.unit);
        var result := Fresh(c.unit);
        GlslWritten(result.unit, result.id, 50, [a.id, b.id, c.id], i.destination);
      } else {
        ChainKeeps(c.unit, i, a.id, b.id, c.id);
      }
    }
  }

  lemma Vop1Keeps(u: Unit, i: Instruction)
    requires Fits(u) && u.nextId + 16 < TWO_32
    ensures Keeps(u, EmitVop1(u, i), 16)
  {
    assert 20 <= u.nextId;
    hide Fits, Clean, Frame, Fresh, ReadS, ReadV, WriteS, WriteV, Value, Glsl, Vop1Glsl;
    ReadVGives(u, 4, i.source0);
    var source := ReadV(u, 4, i.source0);
    FreshGives(source.unit);
    var result := Fresh(source.unit);
    var t, x := result.unit, result.id;
    match i.opcode
    case 0x00 => ValueWritten(t, OpCopyObject, 4, x, [source.id], i.destination);
    case 0x01 =>
      ReadSGives(t, 3, i.source0);
      var s := ReadS(t, 3, i.source0);
      ValueWritten(s.unit, OpConvertSToF, 4, x, [s.id], i.destination);
    case 0x04 => ValueWritten(t, OpFDiv, 4, x, [11, source.id], i.destination);
    case 0x0C =>
      ReadVGives(t, 3, i.source0);
      var s := ReadV(t, 3, i.source0);
      ValueWritten(s.unit, OpConvertUToF, 4, x, [s.id], i.destination);
    case 0x0D => ValueWritten(t, OpConvertFToU, 3, x, [source.id], i.destination);
    case 0x0E => ValueWritten(t, OpConvertFToS, 3, x, [source.id], i.destination);
    case _ =>
      if Vop1Glsl(i.opcode).Some? { GlslWritten(t, x, Vop1Glsl(i.opcode).value, [source.id], i.destination); }
  }

  lemma FourReads(u: Unit, i: Instruction)
    requires Fits(u) && u.nextId + 9 < TWO_32
    ensures var x := ReadV(u, 4, i.source0);
            var y := ReadV(x.unit, 4, i.source1);
            var z := ReadV(y.unit, 4, i.vsrc2);
            var w := ReadV(z.unit, 4, i.vsrc3);
            var v := Fresh(w.unit);
            Gives(u, v, 9) && Named(v.unit, x.id) && Named(v.unit, y.id) && Named(v.unit, z.id) && Named(v.unit, w.id)
  {
    assert 20 <= u.nextId;
    hide Fits, Clean, Frame, Fresh, ReadV;
    var x := ReadV(u, 4, i.source0);
    var y := ReadV(x.unit, 4, i.source1);
    var z := ReadV(y.unit, 4, i.vsrc2);
    ReadVGives(u, 4, i.source0);
    ReadVGives(x.unit, 4, i.source1);
    ReadVGives(y.unit, 4, i.vsrc2);
    ReadVGives(z.unit, 4, i.vsrc3);
    FreshGives(ReadV(z.unit, 4, i.vsrc3).unit);
  }

  lemma VectorKeeps(u: Unit, x: Word, a: Word, b: Word, c: Word, d: Word, variable: Word)
    requires Fits(u) && Named(u, x) && Named(u, a) && Named(u, b) && Named(u, c) && Named(u, d) && Named(u, variable)
    ensures Keeps(u, Put(Value(u, OpCompositeConstruct, 5, x, [a, b, c, d]), OpStore, [variable, x]), 0)
  {
    assert 20 <= u.nextId;
    hide Fits, Clean, Frame, Value, Put;
    ValueKeeps(u, OpCompositeConstruct, 5, x, [a, b, c, d]);
    StoreKeeps(Value(u, OpCompositeConstruct, 5, x, [a, b, c, d]), variable, x);
  }

  lemma ExportKeeps(u: Unit, i: Instruction)
    requires Fits(u) && u.nextId + 16 < TWO_32
    ensures Keeps(u, EmitExport(u, i), 16)
  {
    assert 20 <= u.nextId;
    hide Fits, Clean, Frame, Fresh, ReadV, Value, Put, Pow2;
    if i.expTarget == 12 || i.expTarget <= 7 {
      FourReads(u, i);
      var x := ReadV(u, 4, i.source0);
      var y := ReadV(x.unit, 4, i.source1);
      var z := ReadV(y.unit, 4, i.vsrc2);
      var w := ReadV(z.unit, 4, i.vsrc3);
      var vector := Fresh(w.unit);
      var a, b, c, d := Lane(i, 0, x.id), Lane(i, 1, y.id), Lane(i, 2, z.id), Lane(i, 3, w.id);
      assert Named(vector.unit, 10) && Named(vector.unit, 11);
      VectorKeeps(vector.unit, vector.id, a, b, c, d, if i.expTarget == 12 then 15 else 12);
    }
  }

  lemma ConstantKeeps(u: Unit, t: Word, x: Word, w: Word)
    requires Fits(u) && Named(u, t) && Named(u, x)
    ensures Keeps(u, Put(u, OpConstant, [t, x, w]), 0)
  {
    PutKeeps(u, OpConstant, [t, x, w]);
  }

  lemma ExtractKeeps(u: Unit, t: Word, x: Word, from: Word, n: Word)
    requires Fits(u) && Named(u, t) && Named(u, x) && Named(u, from)
    ensures Keeps(u, Put(u, OpCompositeExtract, [t, x, from, n]), 0)
  {
    PutKeeps(u, OpCompositeExtract, [t, x, from, n]);
  }

  lemma ChannelKeeps(u: Unit, i: Instruction, texel: Word, n: Word)
    requires n < 4 && Fits(u) && u.nextId + 2 < TWO_32 && Named(u, texel)
    ensures Keeps(u, EmitChannel(u, i, texel, n), 2)
  {
    assert 20 <= u.nextId;
    hide Fits, Clean, Frame, Fresh, WriteV, Put;
    var c, at: Word := Fresh(u), (i.destination + n) % 256;
    var extracted := Put(c.unit, OpCompositeExtract, [4, c.id, texel, n]);
    assert EmitChannel(u, i, texel, n) == WriteV(extracted, at, c.id);
    hide EmitChannel;
    FreshGives(u);
    ExtractKeeps(c.unit, 4, c.id, texel, n);
    WriteVKeeps(extracted, at, c.id);
  }

  lemma {:induction false} ChannelsKeep(u: Unit, i: Instruction, texel: Word, count: Word)
    requires count <= 4 && Fits(u) && u.nextId + 2 * count < TWO_32 && Named(u, texel)
    ensures Keeps(u, EmitChannels(u, i, texel, count), 2 * count)
  {
    hide Fits, Clean, Frame, EmitChannel;
    if count > 0 {
      ChannelsKeep(u, i, texel, count - 1);
      ChannelKeeps(EmitChannels(u, i, texel, count - 1), i, texel, count - 1);
    }
  }

  lemma TexelKeeps(u: Unit, i: Instruction, uv: Word)
    requires Fits(u) && u.nextId + 10 < TWO_32 && Named(u, uv) && u.ids.image
    ensures Keeps(u, EmitTexel(u, i, uv), 10)
  {
    assert 20 <= u.nextId && Named(u, u.ids.typeSampledImage) && Named(u, u.ids.sampledImageVar);
    hide Fits, Clean, Frame, Fresh, Load, Value, EmitChannels;
    LoadGives(u, u.ids.typeSampledImage, u.ids.sampledImageVar);
    var image := Load(u, u.ids.typeSampledImage, u.ids.sampledImageVar);
    FreshGives(image.unit);
    var texel := Fresh(image.unit);
    ValueKeeps(texel.unit, OpImageSampleImplicitLod, 5, texel.id, [image.id, uv]);
    ChannelsKeep(Value(texel.unit, OpImageSampleImplicitLod, 5, texel.id, [image.id, uv]), i, texel.id, 4);
  }

  lemma SampleKeeps(u: Unit, i: Instruction)
    requires Fits(u) && u.nextId + 16 < TWO_32 && u.ids.image
    ensures Keeps(u, EmitSample(u, i), 16)
  {
    assert 20 <= u.nextId && Named(u, u.ids.typeVec2);
    hide Fits, Clean, Frame, Fresh, ReadV, Value, EmitTexel;
    var next: Word := (i.source0 + 1) % 256;
    var first := ReadV(u, 4, i.source0);
    var second := ReadV(first.unit, 4, next);
    var uv := Fresh(second.unit);
    var built := Value(uv.unit, OpCompositeConstruct, u.ids.typeVec2, uv.id, [first.id, second.id]);
    assert EmitSample(u, i) == EmitTexel(built, i, uv.id);
    hide EmitSample;
    TwoReads(u, i.source0, next);
    ValueKeeps(uv.unit, OpCompositeConstruct, u.ids.typeVec2, uv.id, [first.id, second.id]);
    TexelKeeps(built, i, uv.id);
  }

  lemma VmemKeeps(u: Unit, i: Instruction)
    requires Fits(u) && u.nextId + 16 < TWO_32
    ensures Keeps(u, EmitVmem(u, i), 16)
  {
    assert 20 <= u.nextId;
    hide Fits, Clean, Frame, ReadV, WriteV, EmitTexel, Samples, Fresh, Value;
    if !Samples(i) {
      ReadVGives(u, 4, i.source0);
      WriteVKeeps(ReadV(u, 4, i.source0).unit, i.destination, ReadV(u, 4, i.source0).id);
    } else if u.ids.image {
      SampleKeeps(u, i);
    }
  }

  // The access of a scalar memory read passes the literal 0 where an id is due.
  lemma AccessSpoils(u: Unit, t: Word, x: Word, base: Word, index: Word)
    requires Fits(u) && Named(u, t) && Named(u, x) && Named(u, base) && Named(u, index)
    ensures var u' := Put(u, OpAccessChain, [t, x, base, 0, index]);
            Fits(u') && Frame(u'.code) == Frame(u.code) && !Clean(u') && u'.nextId == u.nextId && u'.ids == u.ids
  {
    var operands := [t, x, base, 0, index];
    var ins := Ins(OpAccessChain, operands);
    assert forall j: nat :: 2 <= j < 5 ==> operands[j] in {base, 0, index};
    assert operands[3] in Occurring(ins) && forall id :: id in Occurring(ins) ==> id < u.nextId;
    hide Occurring;
    PutIds(u, OpAccessChain, operands);
    PutFrame();
    hide Ids, Frame;
  }

  ghost predicate Spoils(u: Unit, u': Unit, n: nat) {
    Fits(u') && Frame(u'.code) == Frame(u.code) && !Clean(u') && u.nextId <= u'.nextId <= u.nextId + n && u'.ids == u.ids
  }

  lemma SmemWordSpoils(u: Unit, i: Instruction, n: Word)
    requires n < 4 && Fits(u) && u.nextId + 4 < TWO_32
    ensures Spoils(u, EmitSmemWord(u, i, n), 4)
  {
    assert 20 <= u.nextId && Named(u, u.ids.uboVar) && Named(u, u.ids.ptrUboFloat);
    hide Fits, Clean, Frame, Fresh, Load, WriteS, Put;
    var index, w, at: Word := Fresh(u), i.source0 % 64 + n, (i.destination + n) % TWO_32;
    var constant := Put(index.unit, OpConstant, [3, index.id, w]);
    var chain := Fresh(constant);
    var access := Put(chain.unit, OpAccessChain, [u.ids.ptrUboFloat, chain.id, u.ids.uboVar, 0, index.id]);
    var value := Load(access, 4, chain.id);
    assert EmitSmemWord(u, i, n) == WriteS(value.unit, at, value.id);
    hide EmitSmemWord;
    FreshGives(u);
    ConstantKeeps(index.unit, 3, index.id, w);
    FreshGives(constant);
    AccessSpoils(chain.unit, u.ids.ptrUboFloat, chain.id, u.ids.uboVar, index.id);
    LoadGives(access, 4, chain.id);
    WriteSKeeps(value.unit, at, value.id);
  }

  lemma {:induction false} SmemSpoils(u: Unit, i: Instruction, count: Word)
    requires 1 <= count <= 4 && Fits(u) && u.nextId + 4 * count < TWO_32
    ensures Spoils(u, EmitSmem(u, i, count), 4 * count)
  {
    hide Fits, Clean, Frame, EmitSmemWord;
    if count > 1 {
      SmemSpoils(u, i, count - 1);
    } else {
      assert EmitSmem(u, i, 0) == u;
    }
    SmemWordSpoils(EmitSmem(u, i, count - 1), i, count - 1);
  }

  // Growth by one instruction: only a scalar memory read mentions id 0.
  lemma InstructionGrows(u: Unit, i: Instruction)
    requires Fits(u) && u.nextId + 16 < TWO_32 && !EndsProgram(i)
    ensures if i.format == Smem then Spoils(u, EmitInstruction(u, i), 16) else Keeps(u, EmitInstruction(u, i), 16)
  {
    hide Fits, Clean, Frame, EmitSop2, EmitVop1, EmitVop2, EmitVop3, EmitVopc, EmitExport, EmitSmem, EmitVmem, EndsProgram;
    match i.format
    case Sop2 => Sop2Keeps(u, i);
    case Vop1 => Vop1Keeps(u, i);
    case Vop2 => Vop2Keeps(u, i);
    case Vop3 => Vop3Keeps(u, i);
    case Vopc => VopcKeeps(u, i);
    case Export => ExportKeeps(u, i);
    case Smem => SmemSpoils(u, i, 4);
    case Vmem => VmemKeeps(u, i);
    case _ =>
  }

  predicate ReadsMemory(code: seq<Instruction>) {
    exists k :: 0 <= k < |code| && code[k].format == Smem
  }

  lemma {:induction false} InstructionsGrow(u: Unit, code: seq<Instruction>)
    requires Fits(u) && u.nextId + 16 * |code| < TWO_32 && forall k :: 0 <= k < |code| ==> !EndsProgram(code[k])
    ensures var u' := EmitInstructions(u, code);
            && Fits(u') && Frame(u'.code) == Frame(u.code) && u'.nextId <= u.nextId + 16 * |code|
            && (Clean(u') <==> Clean(u) && !ReadsMemory(code))
    decreases |code|
  {
    hide Fits, Clean, Frame, EmitInstruction, EndsProgram;
    if code != [] {
      var n := |code| - 1;
      var before := code[..n];
      InstructionsGrow(u, before);
      InstructionGrows(EmitInstructions(u, before), code[n]);
      assert forall k :: 0 <= k < n ==> before[k] == code[k];
      assert ReadsMemory(code) <==> ReadsMemory(before) || code[n].format == Smem;
    }
  }
}
