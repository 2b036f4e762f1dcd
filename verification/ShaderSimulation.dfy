/** One decoded instruction: the code emitted for it does to the register
    variables what the reference step does to the registers. */
module ShaderSimulation {
  import opened Common
  import opened GcnShader
  import opened ShaderEmission
  import opened ShaderSteps
  import opened SpirvMachine
  import opened SpirvModule

  // u' translates the instruction on top of u.
  ghost predicate Translates(env: Env, u: Unit, u': Unit, i: Instruction, r: Registers)
    requires r.Valid()
  {
    && Sim(env, u', Execute(env.alu, env.stage, i, r))
    && u'.ids == u.ids && u.nextId <= u'.nextId <= u.nextId + 16
    && Closed(u'.code) == (Closed(u.code) && Supported(env.stage, i))
  }

  // A unit with room for the ids of one instruction.
  ghost predicate Ready(env: Env, u: Unit, r: Registers) {
    Sim(env, u, r) && r.Valid() && u.nextId + 16 < TWO_32
  }

  lemma Two(env: Env, u: Unit, a: Word, b: Word, x: Word, y: Word)
    requires Holds(env, u, a, Scalar(x)) && Holds(env, u, b, Scalar(y))
    ensures AllHold(env, u, [a, b], [x, y])
  {
  }

  lemma One(env: Env, u: Unit, a: Word, x: Word)
    requires Holds(env, u, a, Scalar(x))
    ensures AllHold(env, u, [a], [x])
  {
  }

  // Compute a core operation into the pending id x and store it.
  lemma ValueWriteV(env: Env, u: Unit, r: Registers, op: Word, t: Word, x: Word, args: seq<Word>, ws: seq<Word>, dst: Word)
    requires Sim(env, u, r) && u.nextId + 1 < TWO_32 && Pending(u, x) && 1 <= t <= 5
    requires Arithmetic(op) && |args| <= 8 && AllHold(env, u, args, ws)
    ensures var u' := WriteV(Value(u, op, t, x, args), dst, x);
            CoreOp(op).Some? && Sim(env, u', SetVIfRunning(r, dst, env.alu.op(CoreOp(op).value, ws))) &&
            u'.ids == u.ids && u.nextId <= u'.nextId <= u.nextId + 1 && Closed(u'.code) == Closed(u.code)
  {
    hide Sim, Holds, AllHold;
    ValueStep(env, u, r, op, t, x, args, ws);
    WriteVStep(env, Value(u, op, t, x, args), r, dst, x, env.alu.op(CoreOp(op).value, ws));
  }

  lemma ValueWriteS(env: Env, u: Unit, r: Registers, op: Word, t: Word, x: Word, args: seq<Word>, ws: seq<Word>, dst: Word)
    requires Sim(env, u, r) && u.nextId + 1 < TWO_32 && Pending(u, x) && 1 <= t <= 5
    requires Arithmetic(op) && |args| <= 8 && AllHold(env, u, args, ws)
    ensures var u' := WriteS(Value(u, op, t, x, args), dst, x);
            CoreOp(op).Some? && Sim(env, u', SetSIfRunning(r, dst, env.alu.op(CoreOp(op).value, ws))) &&
            u'.ids == u.ids && u.nextId <= u'.nextId <= u.nextId + 1 && Closed(u'.code) == Closed(u.code)
  {
    hide Sim, Holds, AllHold;
    ValueStep(env, u, r, op, t, x, args, ws);
    WriteSStep(env, Value(u, op, t, x, args), r, dst, x, env.alu.op(CoreOp(op).value, ws));
  }

  lemma GlslWriteV(env: Env, u: Unit, r: Registers, x: Word, number: Word, args: seq<Word>, ws: seq<Word>, dst: Word)
    requires Sim(env, u, r) && u.nextId + 1 < TWO_32 && Pending(u, x)
    requires GlslOp(number).Some? && |args| <= 8 && AllHold(env, u, args, ws)
    ensures var u' := WriteV(Glsl(u, x, number, args), dst, x);
            Sim(env, u', SetVIfRunning(r, dst, env.alu.op(GlslOp(number).value, ws))) &&
            u'.ids == u.ids && u.nextId <= u'.nextId <= u.nextId + 1 && Closed(u'.code) == Closed(u.code)
  {
    hide Sim, Holds, AllHold;
    GlslStep(env, u, r, x, number, args, ws);
    WriteVStep(env, Glsl(u, x, number, args), r, dst, x, env.alu.op(GlslOp(number).value, ws));
  }

  lemma Sop2Translates(env: Env, u: Unit, i: Instruction, r: Registers)
    requires Ready(env, u, r) && i.format == Sop2
    ensures Translates(env, u, EmitSop2(u, i), i, r)
  {
    hide Sim, Holds, WellFormed;
    ReadSStep(env, u, r, i.source0);
    var left := ReadS(u, 3, i.source0);
    ReadSStep(env, left.unit, r, i.source1);
    var right := ReadS(left.unit, 3, i.source1);
    FreshStep(env, right.unit, r);
    var result := Fresh(right.unit);
    if Sop2Op(i.opcode).Some? {
      var op := Sop2Op(i.opcode).value;
      assert CoreOp(op) == Sop2Meaning(i.opcode);
      Two(env, result.unit, left.id, right.id, r.S(i.source0), r.S(i.source1));
      ValueWriteS(env, result.unit, r, op, 3, result.id, [left.id, right.id], [r.S(i.source0), r.S(i.source1)], i.destination);
    } else {
      assert Sop2Meaning(i.opcode).None?;
    }
  }

  // The common start of a two-source vector instruction.
  lemma TwoSources(env: Env, u: Unit, i: Instruction, r: Registers)
    requires Ready(env, u, r)
    ensures var left := ReadV(u, 4, i.source0);
            var right := ReadV(left.unit, 4, i.source1);
            var f := Fresh(right.unit);
            Sim(env, f.unit, r) && f.unit.ids == u.ids && u.nextId <= f.unit.nextId <= u.nextId + 5 &&
            Closed(f.unit.code) == Closed(u.code) && Pending(f.unit, f.id) &&
            Holds(env, f.unit, left.id, Scalar(r.V(i.source0))) && Holds(env, f.unit, right.id, Scalar(r.V(i.source1))) &&
            AllHold(env, f.unit, [left.id, right.id], [r.V(i.source0), r.V(i.source1)]) &&
            left.id != f.id && right.id != f.id && left.id != 0 && right.id != 0
  {
    hide Sim, Holds, WellFormed;
    ReadVStep(env, u, r, 4, i.source0);
    var left := ReadV(u, 4, i.source0);
    ReadVStep(env, left.unit, r, 4, i.source1);
    var right := ReadV(left.unit, 4, i.source1);
    FreshStep(env, right.unit, r);
    var f := Fresh(right.unit);
    Two(env, f.unit, left.id, right.id, r.V(i.source0), r.V(i.source1));
  }

  // v_mac: the destination register is also a source.
  lemma MacStep(env: Env, u: Unit, i: Instruction, r: Registers, left: Word, right: Word, x: Word, a: Word, b: Word)
    requires Sim(env, u, r) && r.Valid() && u.nextId + 6 < TWO_32 && Pending(u, x)
    requires Holds(env, u, left, Scalar(a)) && Holds(env, u, right, Scalar(b)) && left != 0 && right != 0
    ensures var u' := EmitMac(u, i, left, right, x);
            Sim(env, u', SetVIfRunning(r, i.destination, env.alu.op(FAdd, [env.alu.op(FMul, [a, b]), r.V(i.destination)]))) &&
            u'.ids == u.ids && u.nextId <= u'.nextId <= u.nextId + 5 && Closed(u'.code) == Closed(u.code)
  {
    hide Sim, Holds, WellFormed, AllHold;
    ReadVStep(env, u, r, 4, i.destination);
    var previous := ReadV(u, 4, i.destination);
    FreshStep(env, previous.unit, r);
    var mul := Fresh(previous.unit);
    Two(env, mul.unit, left, right, a, b);
    ValueStep(env, mul.unit, r, OpFMul, 4, mul.id, [left, right], [a, b]);
    var product := Value(mul.unit, OpFMul, 4, mul.id, [left, right]);
    Two(env, product, mul.id, previous.id, env.alu.op(FMul, [a, b]), r.V(i.destination));
    ValueWriteV(env, product, r, OpFAdd, 4, x, [mul.id, previous.id],
                [env.alu.op(FMul, [a, b]), r.V(i.destination)], i.destination);
  }

  // v_lshlrev: one scalar and one vector source.
  lemma ShiftStep(env: Env, u: Unit, i: Instruction, r: Registers, x: Word)
    requires Sim(env, u, r) && r.Valid() && u.nextId + 6 < TWO_32 && Pending(u, x)
    ensures var u' := EmitShift(u, i, x);
            Sim(env, u', SetVIfRunning(r, i.destination, env.alu.op(ShiftLeft, [r.V(i.source1), r.S(i.source0)]))) &&
            u'.ids == u.ids && u.nextId <= u'.nextId <= u.nextId + 5 && Closed(u'.code) == Closed(u.code)
  {
    hide Sim, Holds, WellFormed, AllHold;
    ReadSStep(env, u, r, i.source0);
    var li := ReadS(u, 3, i.source0);
    ReadVStep(env, li.unit, r, 3, i.source1);
    var ri := ReadV(li.unit, 3, i.source1);
    Two(env, ri.unit, ri.id, li.id, r.V(i.source1), r.S(i.source0));
    ValueWriteV(env, ri.unit, r, OpShiftLeftLogical, 3, x, [ri.id, li.id], [r.V(i.source1), r.S(i.source0)], i.destination);
  }

  lemma BitwiseStep(env: Env, u: Unit, i: Instruction, r: Registers, x: Word, op: Word)
    requires Sim(env, u, r) && r.Valid() && u.nextId + 6 < TWO_32 && Pending(u, x)
    requires op in {OpBitwiseAnd, OpBitwiseOr, OpBitwiseXor}
    ensures var u' := EmitBitwise(u, i, x, op);
            CoreOp(op).Some? &&
            Sim(env, u', SetSIfRunning(r, i.destination, env.alu.op(CoreOp(op).value, [r.S(i.source0), r.S(i.source1)]))) &&
            u'.ids == u.ids && u.nextId <= u'.nextId <= u.nextId + 5 && Closed(u'.code) == Closed(u.code)
  {
    hide Sim, Holds, WellFormed, AllHold;
    ReadSStep(env, u, r, i.source0);
    var li := ReadS(u, 3, i.source0);
    ReadSStep(env, li.unit, r, i.source1);
    var ri := ReadS(li.unit, 3, i.source1);
    Two(env, ri.unit, li.id, ri.id, r.S(i.source0), r.S(i.source1));
    ValueWriteS(env, ri.unit, r, op, 3, x, [li.id, ri.id], [r.S(i.source0), r.S(i.source1)], i.destination);
  }

  lemma Vop2Translates(env: Env, u: Unit, i: Instruction, r: Registers)
    requires Ready(env, u, r) && i.format == Vop2
    ensures Translates(env, u, EmitVop2(u, i), i, r)
  {
    hide Sim, Holds, WellFormed, AllHold, ReadV, WriteV, WriteS, Value, Glsl, Fresh, EmitMac, EmitShift, EmitBitwise, Closed, Agrees;
    TwoSources(env, u, i, r);
    var left := ReadV(u, 4, i.source0);
    var right := ReadV(left.unit, 4, i.source1);
    var f := Fresh(right.unit);
    var args, ws := [left.id, right.id], [r.V(i.source0), r.V(i.source1)];
    match i.opcode {
      case 0x00 => ValueWriteV(env, f.unit, r, OpFAdd, 4, f.id, args, ws, i.destination);
      case 0x01 => ValueWriteV(env, f.unit, r, OpFSub, 4, f.id, args, ws, i.destination);
      case 0x02 => ValueWriteV(env, f.unit, r, OpFMul, 4, f.id, args, ws, i.destination);
      case 0x10 => MacStep(env, f.unit, i, r, left.id, right.id, f.id, ws[0], ws[1]);
      case 0x11 => ShiftStep(env, f.unit, i, r, f.id);
      case 0x14 => GlslWriteV(env, f.unit, r, f.id, 37, args, ws, i.destination);
      case 0x15 => GlslWriteV(env, f.unit, r, f.id, 40, args, ws, i.destination);
      case 0x1B => BitwiseStep(env, f.unit, i, r, f.id, OpBitwiseAnd);
      case 0x1C => BitwiseStep(env, f.unit, i, r, f.id, OpBitwiseOr);
      case 0x1D => BitwiseStep(env, f.unit, i, r, f.id, OpBitwiseXor);
      case _ =>
    }
  }

  lemma Vop3ReadStep(env: Env, u: Unit, r: Registers, source: Word)
    requires Sim(env, u, r) && r.Valid() && u.nextId + 2 < TWO_32
    ensures var l := Vop3Read(u, source);
            Sim(env, l.unit, r) && Continues(env, u, l.unit, 0, 2) && Closed(l.unit.code) == Closed(u.code) &&
            Holds(env, l.unit, l.id, Scalar(Vop3Source(r, source))) && l.id >= u.nextId
  {
    hide Sim, Holds, Continues, Closed, Agrees;
    if source >= 256 {
      ReadSStep(env, u, r, source - 256);
    } else {
      ReadVStep(env, u, r, 4, source);
    }
  }

  lemma Three(env: Env, u: Unit, a: Word, b: Word, c: Word, x: Word, y: Word, z: Word)
    requires Holds(env, u, a, Scalar(x)) && Holds(env, u, b, Scalar(y)) && Holds(env, u, c, Scalar(z))
    ensures AllHold(env, u, [a, b, c], [x, y, z])
  {
  }

  lemma HoldsBounded(env: Env, u: Unit, r: Registers, id: Word, v: Val)
    requires Sim(env, u, r) && Holds(env, u, id, v)
    ensures 1 <= id < u.nextId && 20 <= u.nextId
  {
  }

  // Two chained instructions over three operands: (a op b) op' c.
  lemma ChainStep(env: Env, u: Unit, i: Instruction, r: Registers, a: Word, b: Word, c: Word, x: Word, y: Word, z: Word)
    requires Sim(env, u, r) && r.Valid() && u.nextId + 3 < TWO_32
    requires Holds(env, u, a, Scalar(x)) && Holds(env, u, b, Scalar(y)) && Holds(env, u, c, Scalar(z))
    requires a != 0 && b != 0 && c != 0 && i.opcode in {0x15, 0x1D, 0x1E}
    ensures var u' := EmitVop3Chain(u, i, a, b, c);
            var f, g := Vop3Ops(i.opcode).0, Vop3Ops(i.opcode).1;
            Sim(env, u', SetVIfRunning(r, i.destination, env.alu.op(g, [env.alu.op(f, [x, y]), z]))) &&
            u'.ids == u.ids && u.nextId <= u'.nextId <= u.nextId + 3 && Closed(u'.code) == Closed(u.code)
  {
    hide Sim, Holds, WellFormed, AllHold, Closed, WriteV, Agrees;
    HoldsBounded(env, u, r, c, Scalar(z));
    FreshStep(env, u, r);
    var first := Fresh(u);
    Two(env, first.unit, a, b, x, y);
    if i.opcode == 0x15 {
      ValueStep(env, first.unit, r, OpFMul, 4, first.id, [a, b], [x, y]);
      var t := Value(first.unit, OpFMul, 4, first.id, [a, b]);
      FreshStep(env, t, r);
      var second := Fresh(t);
      Two(env, second.unit, first.id, c, env.alu.op(FMul, [x, y]), z);
      ValueWriteV(env, second.unit, r, OpFAdd, 4, second.id, [first.id, c], [env.alu.op(FMul, [x, y]), z], i.destination);
    } else {
      var number := if i.opcode == 0x1D then 37 else 40;
      GlslStep(env, first.unit, r, first.id, number, [a, b], [x, y]);
      var t := Glsl(first.unit, first.id, number, [a, b]);
      FreshStep(env, t, r);
      var second := Fresh(t);
      var w := env.alu.op(GlslOp(number).value, [x, y]);
      Two(env, second.unit, first.id, c, w, z);
      GlslWriteV(env, second.unit, r, second.id, number, [first.id, c], [w, z], i.destination);
    }
  }

  function Vop3Ops(opcode: Word): (AluOp, AluOp) {
    if opcode == 0x15 then (FMul, FAdd) else if opcode == 0x1D then (FMin, FMin) else (FMax, FMax)
  }

  lemma Vop3Translates(env: Env, u: Unit, i: Instruction, r: Registers)
    requires Ready(env, u, r) && i.format == Vop3
    ensures Translates(env, u, EmitVop3(u, i), i, r)
  {
    hide Sim, Holds, WellFormed, AllHold, Closed, WriteV, Agrees, Vop3Read, EmitVop3Chain, Glsl, Pending;
    if i.opcode in {0x14, 0x15, 0x1D, 0x1E} {
      Vop3ReadStep(env, u, r, i.source0);
      var a := Vop3Read(u, i.source0);
      HoldsBounded(env, a.unit, r, a.id, Scalar(Vop3Source(r, i.source0)));
      Vop3ReadStep(env, a.unit, r, i.source1);
      var b := Vop3Read(a.unit, i.source1);
      Vop3ReadStep(env, b.unit, r, i.vsrc2);
      var c := Vop3Read(b.unit, i.vsrc2);
      var x, y, z := Vop3Source(r, i.source0), Vop3Source(r, i.source1), Vop3Source(r, i.vsrc2);
      if i.opcode == 0x14 {
        FreshStep(env, c.unit, r);
        var f := Fresh(c.unit);
        Three(env, f.unit, a.id, b.id, c.id, x, y, z);
        GlslWriteV(env, f.unit, r, f.id, 50, [a.id, b.id, c.id], [x, y, z], i.destination);
      } else {
        ChainStep(env, c.unit, i, r, a.id, b.id, c.id, x, y, z);
      }
    }
  }

  lemma Vop1Translates(env: Env, u: Unit, i: Instruction, r: Registers)
    requires Ready(env, u, r) && i.format == Vop1
    ensures Translates(env, u, EmitVop1(u, i), i, r)
  {
    hide Sim, Holds, WellFormed, AllHold, Closed, WriteV, WriteS, Agrees, ReadV, ReadS, Glsl, Value;
    ReadVStep(env, u, r, 4, i.source0);
    var source := ReadV(u, 4, i.source0);
    FreshStep(env, source.unit, r);
    var f := Fresh(source.unit);
    var x := r.V(i.source0);
    One(env, f.unit, source.id, x);
    match i.opcode {
      case 0x00 => ValueWriteV(env, f.unit, r, OpCopyObject, 4, f.id, [source.id], [x], i.destination);
      case 0x01 =>
        ReadSStep(env, f.unit, r, i.source0);
        var s := ReadS(f.unit, 3, i.source0);
        One(env, s.unit, s.id, r.S(i.source0));
        ValueWriteV(env, s.unit, r, OpConvertSToF, 4, f.id, [s.id], [r.S(i.source0)], i.destination);
      case 0x04 =>
        ConstantsHold(env, f.unit, r);
        Two(env, f.unit, 11, source.id, ONE, x);
        ValueWriteV(env, f.unit, r, OpFDiv, 4, f.id, [11, source.id], [ONE, x], i.destination);
      case 0x0C =>
        ReadVStep(env, f.unit, r, 3, i.source0);
        var s := ReadV(f.unit, 3, i.source0);
        One(env, s.unit, s.id, x);
        ValueWriteV(env, s.unit, r, OpConvertUToF, 4, f.id, [s.id], [x], i.destination);
      case 0x0D => ValueWriteS(env, f.unit, r, OpConvertFToU, 3, f.id, [source.id], [x], i.destination);
      case 0x0E => ValueWriteS(env, f.unit, r, OpConvertFToS, 3, f.id, [source.id], [x], i.destination);
      case _ =>
        if Vop1Glsl(i.opcode).Some? {
          GlslWriteV(env, f.unit, r, f.id, Vop1Glsl(i.opcode).value, [source.id], [x], i.destination);
        }
    }
  }

  // A comparison writes no register.
  lemma VopcTranslates(env: Env, u: Unit, i: Instruction, r: Registers)
    requires Ready(env, u, r) && i.format == Vopc
    ensures Translates(env, u, EmitVopc(u, i), i, r)
  {
    hide Sim, Holds, WellFormed, AllHold, Closed, ReadV, Value, Agrees;
    TwoSources(env, u, i, r);
    var left := ReadV(u, 4, i.source0);
    var right := ReadV(left.unit, 4, i.source1);
    var f := Fresh(right.unit);
    ValueStep(env, f.unit, r, OpFOrdGreaterThan, 2, f.id, [left.id, right.id], [r.V(i.source0), r.V(i.source1)]);
  }

  lemma ReturnStep(env: Env, u: Unit, r: Registers)
    requires Sim(env, u, r) && r.Valid()
    ensures var u' := EmitReturn(u);
            Sim(env, u', if r.status.Running? then r.(status := Returned) else r) &&
            u'.ids == u.ids && u'.nextId == u.nextId && Closed(u'.code) == Closed(u.code)
  {
    var ins := Ins(OpReturn, []);
    var u' := EmitReturn(u);
    assert Results(ins) == {} && Uses(ins) == {};
    AppendWellFormed(u, u'.(ended := u.ended), env.stage, ins, 0);
    assert WellFormed(u', env.stage);
    if Agrees(env, u') {
      assert Agrees(env, u);
      var m, m' := Interpret(env, u), Interpret(env, u');
      BankKeeps(env.init, m, m', u.sgprs, r.s, env.start.s, 0);
      BankKeeps(env.init, m, m', u.vgprs, r.v, env.start.v, 0);
    }
  }

  lemma SoppTranslates(env: Env, u: Unit, i: Instruction, r: Registers)
    requires Ready(env, u, r) && i.format == Sopp
    ensures Translates(env, u, EmitInstruction(u, i), i, r)
  {
    hide Sim, Closed, EmitReturn, EndsProgram;
    if EndsProgram(i) {
      ReturnStep(env, u, r);
    }
  }

  lemma Four(env: Env, u: Unit, ids: seq<Word>, ws: seq<Word>)
    requires |ids| == |ws| == 4
    requires Holds(env, u, ids[0], Scalar(ws[0])) && Holds(env, u, ids[1], Scalar(ws[1]))
    requires Holds(env, u, ids[2], Scalar(ws[2])) && Holds(env, u, ids[3], Scalar(ws[3]))
    ensures AllHold(env, u, ids, ws)
  {
  }

  lemma CompositeShape(t: Word, x: Word, args: seq<Word>)
    ensures var ins := Ins(OpCompositeConstruct, [t, x] + args);
            Results(ins) == {x} && forall y :: y in Uses(ins) ==> y == t || y in args
  {
    var ins := Ins(OpCompositeConstruct, [t, x] + args);
    assert Uses(ins) == AtOperand(ins, 0) + FromOperand(ins, 2);
  }

  lemma CompositeEffect(alu: Alu, init: Word -> Word, t: Word, x: Word, args: seq<Word>, m: Machine)
    requires m.status.Running? && Scalars(m, args)
    ensures Step(alu, init, Ins(OpCompositeConstruct, [t, x] + args), m) == Define(m, x, Vector(Words(m, args)))
  {
    assert ([t, x] + args)[2..] == args;
  }

  // Building a vector from known words.
  lemma VectorStep(env: Env, u: Unit, r: Registers, t: Word, x: Word, args: seq<Word>, ws: seq<Word>)
    requires Sim(env, u, r) && Pending(u, x) && t in Defs(u.code)
    requires |args| <= 8 && AllHold(env, u, args, ws)
    ensures var u' := Value(u, OpCompositeConstruct, t, x, args);
            Sim(env, u', r) && Continues(env, u, u', x, 0) && Closed(u'.code) == Closed(u.code) &&
            Holds(env, u', x, Vector(ws))
  {
    var u' := Value(u, OpCompositeConstruct, t, x, args);
    var ins := Ins(OpCompositeConstruct, [t, x] + args);
    CompositeShape(t, x, args);
    assert Uses(ins) <= Defs(u.code) by { AllHoldDefined(env, u, args, ws); }
    assert Agrees(env, u) && r.status.Running? ==> Interpret(env, u') == Define(Interpret(env, u), x, Vector(ws)) by {
      if Agrees(env, u) && r.status.Running? {
        AllHoldWords(env, u, args, ws);
        CompositeEffect(env.alu, env.init, t, x, args, Interpret(env, u));
      }
    }
    DefineStep(env, u, u', r, ins, x, Vector(ws));
  }

  lemma OutputMatches(env: Env, u: Unit, u': Unit, r: Registers, variable: Word, id: Word, ws: seq<Word>)
    requires Sim(env, u, r) && r.Valid() && Holds(env, u, id, Vector(ws)) && Agrees(env, u) && r.status.Running?
    requires (variable == 12 || variable == 15) && u' == Put(u, OpStore, [variable, id])
    ensures Matches(env, u', if Output(env.stage) == Some(variable) then r.(output := Vector(ws)) else r.(status := Stuck))
  {
    var m, m' := Interpret(env, u), Interpret(env, u');
    BankKeeps(env.init, m, m', u.sgprs, r.s, env.start.s, variable);
    BankKeeps(env.init, m, m', u.vgprs, r.v, env.start.v, variable);
  }

  // Storing to the stage's output variable.
  lemma OutputStep(env: Env, u: Unit, r: Registers, target: Word, id: Word, ws: seq<Word>)
    requires Sim(env, u, r) && r.Valid() && Holds(env, u, id, Vector(ws))
    requires target == 12 || target <= 7
    ensures var u' := Put(u, OpStore, [if target == 12 then 15 else 12, id]);
            var ok := ExportMatches(env.stage, target);
            Sim(env, u', if !r.status.Running? then r else if ok then r.(output := Vector(ws)) else r.(status := Stuck)) &&
            u'.ids == u.ids && u'.nextId == u.nextId && Closed(u'.code) == (Closed(u.code) && ok)
  {
    hide Matches, Closed, Interpret;
    var variable: Word := if target == 12 then 15 else 12;
    StoreStep(env, u, r, variable, id);
    var u' := Put(u, OpStore, [variable, id]);
    if Agrees(env, u) && r.status.Running? {
      OutputMatches(env, u, u', r, variable, id, ws);
    }
  }

  lemma LaneHolds(env: Env, u: Unit, i: Instruction, r: Registers, n: nat, id: Word, source: Word)
    requires Sim(env, u, r) && r.Valid() && n < 4 && Holds(env, u, id, Scalar(r.V(source)))
    ensures Holds(env, u, Lane(i, n, id), Scalar(Exported(r, i, n, source)))
  {
    ConstantsHold(env, u, r);
  }

  lemma ExportTranslates(env: Env, u: Unit, i: Instruction, r: Registers)
    requires Ready(env, u, r) && i.format == Export
    ensures Translates(env, u, EmitExport(u, i), i, r)
  {
    hide Sim, Holds, WellFormed, AllHold, Closed, ReadV, Value, Agrees, Lane, Exported;
    if i.expTarget == 12 || i.expTarget <= 7 {
      ReadVStep(env, u, r, 4, i.source0);
      var x := ReadV(u, 4, i.source0);
      ReadVStep(env, x.unit, r, 4, i.source1);
      var y := ReadV(x.unit, 4, i.source1);
      ReadVStep(env, y.unit, r, 4, i.vsrc2);
      var z := ReadV(y.unit, 4, i.vsrc2);
      ReadVStep(env, z.unit, r, 4, i.vsrc3);
      var w := ReadV(z.unit, 4, i.vsrc3);
      FreshStep(env, w.unit, r);
      var f := Fresh(w.unit);
      LaneHolds(env, f.unit, i, r, 0, x.id, i.source0);
      LaneHolds(env, f.unit, i, r, 1, y.id, i.source1);
      LaneHolds(env, f.unit, i, r, 2, z.id, i.vsrc2);
      LaneHolds(env, f.unit, i, r, 3, w.id, i.vsrc3);
      var ids := [Lane(i, 0, x.id), Lane(i, 1, y.id), Lane(i, 2, z.id), Lane(i, 3, w.id)];
      var ws := [Exported(r, i, 0, i.source0), Exported(r, i, 1, i.source1), Exported(r, i, 2, i.vsrc2),
                 Exported(r, i, 3, i.vsrc3)];
      Four(env, f.unit, ids, ws);
      FixedDefined(env, f.unit, r, 5);
      VectorStep(env, f.unit, r, 5, f.id, ids, ws);
      OutputStep(env, Value(f.unit, OpCompositeConstruct, 5, f.id, ids), r, i.expTarget, f.id, ws);
    }
  }

  lemma FixedDefined(env: Env, u: Unit, r: Registers, id: Word)
    requires Sim(env, u, r) && (1 <= id <= 11 || id == u.ids.ptrUboFloat || id == u.ids.uboVar ||
                                (u.ids.image && id in {u.ids.typeSampledImage, u.ids.sampledImageVar, u.ids.typeVec2}))
    ensures id in Defs(u.code) && 20 <= u.nextId
  {
  }

  // One dword of a scalar memory read: the access chain consumes id 0, which
  // nothing defines.
  lemma SmemWordStep(env: Env, u: Unit, i: Instruction, r: Registers, n: Word)
    requires Sim(env, u, r) && r.Valid() && u.nextId + 4 < TWO_32 && n < 4
    ensures var u' := EmitSmemWord(u, i, n);
            Sim(env, u', Fault(r)) && u'.ids == u.ids && u.nextId <= u'.nextId <= u.nextId + 4 && !Closed(u'.code)
  {
    hide Sim, Holds, WellFormed, Agrees, WriteS, Load, Matches;
    FreshStep(env, u, r);
    var index := Fresh(u);
    ConstantStep(env, index.unit, r, index.id, i.source0 % 64 + n);
    var constant := Put(index.unit, OpConstant, [3, index.id, i.source0 % 64 + n]);
    FreshStep(env, constant, r);
    var chain := Fresh(constant);
    ChainFaults(env, chain.unit, r, chain.id, index.id);
    var access := Put(chain.unit, OpAccessChain, [u.ids.ptrUboFloat, chain.id, u.ids.uboVar, 0, index.id]);
    FixedDefined(env, access, Fault(r), 4);
    LoadStep(env, access, Fault(r), 4, chain.id, Scalar(0));
    var value := Load(access, 4, chain.id);
    HoldsBounded(env, value.unit, Fault(r), value.id, Scalar(0));
    WriteSStep(env, value.unit, Fault(r), (i.destination + n) % TWO_32, value.id, 0);
  }

  lemma ConstantStep(env: Env, u: Unit, r: Registers, x: Word, w: Word)
    requires Sim(env, u, r) && r.Valid() && Pending(u, x)
    ensures var u' := Put(u, OpConstant, [3, x, w]);
            Sim(env, u', r) && u'.ids == u.ids && u'.nextId == u.nextId && x in Defs(u'.code)
  {
    hide Agrees;
    var ins := Ins(OpConstant, [3, x, w]);
    assert Results(ins) == {x};
    DefineStep(env, u, Put(u, OpConstant, [3, x, w]), r, ins, x, Scalar(w));
  }

  lemma ChainFaults(env: Env, u: Unit, r: Registers, x: Word, index: Word)
    requires Sim(env, u, r) && r.Valid() && Pending(u, x)
    ensures var u' := Put(u, OpAccessChain, [u.ids.ptrUboFloat, x, u.ids.uboVar, 0, index]);
            Sim(env, u', Fault(r)) && !Closed(u'.code) && x in Defs(u'.code) && u'.ids == u.ids && u'.nextId == u.nextId
  {
    var u' := Put(u, OpAccessChain, [u.ids.ptrUboFloat, x, u.ids.uboVar, 0, index]);
    var ins := Ins(OpAccessChain, [u.ids.ptrUboFloat, x, u.ids.uboVar, 0, index]);
    assert Results(ins) == {x};
    assert ins.operands[3] == 0;
    assert 0 in Uses(ins);
    assert 0 !in Defs(u.code);
    AppendWellFormed(u, u', env.stage, ins, x);
    if Agrees(env, u) {
      var m := Interpret(env, u);
      assert ins.operands[3..][0] == 0;
      assert !Scalars(m, ins.operands[3..]);
      AppendMatches(env, u, u', r, Fault(r), ins);
    }
  }

  lemma {:induction false} SmemStep(env: Env, u: Unit, i: Instruction, r: Registers, count: Word)
    requires Sim(env, u, r) && r.Valid() && u.nextId + 16 < TWO_32 && 1 <= count <= 4
    ensures var u' := EmitSmem(u, i, count);
            Sim(env, u', Fault(r)) && u'.ids == u.ids && u.nextId <= u'.nextId <= u.nextId + 4 * count && !Closed(u'.code)
  {
    hide Sim, Closed, EmitSmemWord;
    if count == 1 {
      SmemWordStep(env, EmitSmem(u, i, 0), i, r, 0);
    } else {
      SmemStep(env, u, i, r, count - 1);
      SmemWordStep(env, EmitSmem(u, i, count - 1), i, Fault(r), count - 1);
    }
  }

  lemma SmemTranslates(env: Env, u: Unit, i: Instruction, r: Registers)
    requires Ready(env, u, r) && i.format == Smem
    ensures Translates(env, u, EmitInstruction(u, i), i, r)
  {
    hide Sim, Closed, EmitSmem;
    SmemStep(env, u, i, r, 4);
  }

  // A component of the texel goes to its own register.
  lemma ChannelStep(env: Env, u: Unit, i: Instruction, r: Registers, texel: Word, lanes: seq<Word>, n: Word)
    requires Sim(env, u, r) && r.Valid() && u.nextId + 2 < TWO_32
    requires n < 4 && |lanes| == 4 && Holds(env, u, texel, Vector(lanes))
    ensures var u' := EmitChannel(u, i, texel, n);
            Sim(env, u', SetVIfRunning(r, (i.destination + n) % 256, lanes[n])) && u'.ids == u.ids &&
            u.nextId <= u'.nextId <= u.nextId + 2 && Closed(u'.code) == Closed(u.code) && Holds(env, u', texel, Vector(lanes))
  {
    hide Sim, WellFormed, Agrees, WriteV, Matches;
    FreshStep(env, u, r);
    var component := Fresh(u);
    HoldsBounded(env, u, r, texel, Vector(lanes));
    ExtractStep(env, component.unit, r, component.id, texel, lanes, n);
    var t := Put(component.unit, OpCompositeExtract, [4, component.id, texel, n]);
    WriteVStep(env, t, r, (i.destination + n) % 256, component.id, lanes[n]);
  }

  lemma ExtractStep(env: Env, u: Unit, r: Registers, x: Word, vector: Word, lanes: seq<Word>, n: Word)
    requires Sim(env, u, r) && r.Valid() && Pending(u, x)
    requires n < |lanes| && Holds(env, u, vector, Vector(lanes))
    ensures var u' := Put(u, OpCompositeExtract, [4, x, vector, n]);
            Sim(env, u', r) && Continues(env, u, u', x, 0) && Closed(u'.code) == Closed(u.code) &&
            Holds(env, u', x, Scalar(lanes[n]))
  {
    var ins := Ins(OpCompositeExtract, [4, x, vector, n]);
    assert Results(ins) == {x};
    assert Uses(ins) == {4, vector};
    DefineStep(env, u, Put(u, OpCompositeExtract, [4, x, vector, n]), r, ins, x, Scalar(lanes[n]));
  }

  lemma {:induction false} ChannelsStep(env: Env, u: Unit, i: Instruction, r: Registers, texel: Word, lanes: seq<Word>, count: Word)
    requires Sim(env, u, r) && r.Valid() && u.nextId + 8 < TWO_32
    requires count <= 4 && |lanes| == 4 && Holds(env, u, texel, Vector(lanes))
    ensures var u' := EmitChannels(u, i, texel, count);
            Sim(env, u', if r.status.Running? then SetLanes(r, i.destination, lanes, count) else r) && u'.ids == u.ids &&
            u.nextId <= u'.nextId <= u.nextId + 2 * count && Closed(u'.code) == Closed(u.code) &&
            Holds(env, u', texel, Vector(lanes))
  {
    hide Sim, Closed, EmitChannel, Holds;
    if count > 0 {
      ChannelsStep(env, u, i, r, texel, lanes, count - 1);
      var r' := if r.status.Running? then SetLanes(r, i.destination, lanes, count - 1) else r;
      ChannelStep(env, EmitChannels(u, i, texel, count - 1), i, r', texel, lanes, count - 1);
    }
  }

  lemma FetchStep(env: Env, u: Unit, r: Registers, image: Word, uv: Word, x: Word, lanes: seq<Word>)
    requires Sim(env, u, r) && r.Valid() && Pending(u, x)
    requires Holds(env, u, uv, Vector(lanes)) && exists v :: Holds(env, u, image, v)
    ensures var u' := Value(u, OpImageSampleImplicitLod, 5, x, [image, uv]);
            Sim(env, u', r) && Continues(env, u, u', x, 0) && Closed(u'.code) == Closed(u.code) &&
            Holds(env, u', x, Vector(Texel(env.alu, lanes)))
  {
    var v :| Holds(env, u, image, v);
    var u' := Value(u, OpImageSampleImplicitLod, 5, x, [image, uv]);
    var ins := Ins(OpImageSampleImplicitLod, [5, x] + [image, uv]);
    assert Results(ins) == {x};
    assert Uses(ins) <= {5, image, uv};
    assert {5, image, uv} <= Uses(ins) by {
      assert ins.operands[2] == image && ins.operands[3] == uv;
    }
    DefineStep(env, u, u', r, ins, x, Vector(Texel(env.alu, lanes)));
  }

  // The image variable is loaded and sampled at uv.
  lemma ImageLoadStep(env: Env, u: Unit, r: Registers)
    requires Sim(env, u, r) && r.Valid() && u.nextId + 1 < TWO_32 && u.ids.image
    ensures var l := Load(u, u.ids.typeSampledImage, u.ids.sampledImageVar);
            Sim(env, l.unit, r) && Continues(env, u, l.unit, 0, 1) && Closed(l.unit.code) == Closed(u.code) &&
            l.id == u.nextId && exists v :: Holds(env, l.unit, l.id, v)
  {
    var v := Content(env.init, Interpret(env, u), u.ids.sampledImageVar);
    LoadStep(env, u, r, u.ids.typeSampledImage, u.ids.sampledImageVar, v);
    var l := Load(u, u.ids.typeSampledImage, u.ids.sampledImageVar);
    assert Holds(env, l.unit, l.id, v);
  }

  lemma TexelStep(env: Env, u: Unit, i: Instruction, r: Registers, uv: Word, lanes: seq<Word>)
    requires Sim(env, u, r) && r.Valid() && u.nextId + 10 < TWO_32 && u.ids.image && Holds(env, u, uv, Vector(lanes))
    ensures var u' := EmitTexel(u, i, uv);
            Sim(env, u', if r.status.Running? then SetLanes(r, i.destination, Texel(env.alu, lanes), 4) else r) &&
            u'.ids == u.ids && u.nextId <= u'.nextId <= u.nextId + 10 && Closed(u'.code) == Closed(u.code)
  {
    hide Sim, Holds, WellFormed, Agrees, Value, EmitChannels, Matches, SetLanes, Closed;
    HoldsBounded(env, u, r, uv, Vector(lanes));
    ImageLoadStep(env, u, r);
    var loaded := Load(u, u.ids.typeSampledImage, u.ids.sampledImageVar);
    FreshStep(env, loaded.unit, r);
    var texel := Fresh(loaded.unit);
    var v :| Holds(env, loaded.unit, loaded.id, v);
    assert Holds(env, texel.unit, loaded.id, v);
    FetchStep(env, texel.unit, r, loaded.id, uv, texel.id, lanes);
    var sampled := Value(texel.unit, OpImageSampleImplicitLod, 5, texel.id, [loaded.id, uv]);
    ChannelsStep(env, sampled, i, r, texel.id, Texel(env.alu, lanes), 4);
  }

  lemma SampleStep(env: Env, u: Unit, i: Instruction, r: Registers)
    requires Sim(env, u, r) && r.Valid() && u.nextId + 16 < TWO_32 && u.ids.image
    ensures var u' := EmitSample(u, i);
            var uv := [r.V(i.source0), r.V((i.source0 + 1) % 256)];
            Sim(env, u', if r.status.Running? then SetLanes(r, i.destination, Texel(env.alu, uv), 4) else r) &&
            u'.ids == u.ids && u.nextId <= u'.nextId <= u.nextId + 15 && Closed(u'.code) == Closed(u.code)
  {
    hide Sim, Holds, WellFormed, Agrees, ReadV, AllHold, Value, EmitTexel, Matches, SetLanes, Closed;
    ReadVStep(env, u, r, 4, i.source0);
    var first := ReadV(u, 4, i.source0);
    ReadVStep(env, first.unit, r, 4, (i.source0 + 1) % 256);
    var second := ReadV(first.unit, 4, (i.source0 + 1) % 256);
    FreshStep(env, second.unit, r);
    var uv := Fresh(second.unit);
    var lanes := [r.V(i.source0), r.V((i.source0 + 1) % 256)];
    Two(env, uv.unit, first.id, second.id, lanes[0], lanes[1]);
    FixedDefined(env, uv.unit, r, u.ids.typeVec2);
    VectorStep(env, uv.unit, r, u.ids.typeVec2, uv.id, [first.id, second.id], lanes);
    TexelStep(env, Value(uv.unit, OpCompositeConstruct, u.ids.typeVec2, uv.id, [first.id, second.id]), i, r, uv.id, lanes);
  }

  lemma VmemTranslates(env: Env, u: Unit, i: Instruction, r: Registers)
    requires Ready(env, u, r) && i.format == Vmem && (Samples(i) ==> u.ids.image)
    ensures Translates(env, u, EmitVmem(u, i), i, r)
  {
    hide Sim, Holds, Closed, Agrees, ReadV, WriteV, EmitSample, SetLanes, Samples;
    if Samples(i) {
      SampleStep(env, u, i, r);
    } else {
      ReadVStep(env, u, r, 4, i.source0);
      var source := ReadV(u, 4, i.source0);
      HoldsBounded(env, source.unit, r, source.id, Scalar(r.V(i.source0)));
      WriteVStep(env, source.unit, r, i.destination, source.id, r.V(i.source0));
    }
  }

  /** Every instruction. */
  lemma InstructionTranslates(env: Env, u: Unit, i: Instruction, r: Registers)
    requires Ready(env, u, r) && (Samples(i) ==> u.ids.image)
    ensures Translates(env, u, EmitInstruction(u, i), i, r)
  {
    hide Sim, Closed, EmitSop2, EmitVop1, EmitVop2, EmitVop3, EmitVopc, EmitExport, EmitVmem, EmitSmem;
    match i.format {
      case Sop2 => Sop2Translates(env, u, i, r);
      case Vop1 => Vop1Translates(env, u, i, r);
      case Vop2 => Vop2Translates(env, u, i, r);
      case Vop3 => Vop3Translates(env, u, i, r);
      case Vopc => VopcTranslates(env, u, i, r);
      case Sopp => SoppTranslates(env, u, i, r);
      case Export => ExportTranslates(env, u, i, r);
      case Smem => SmemTranslates(env, u, i, r);
      case Vmem => VmemTranslates(env, u, i, r);
      case _ =>
    }
  }
}
