/** A small interpreter for the instruction subset the translator emits. Every
    scalar is a 32-bit word, types are ignored, and arithmetic is a parameter,
    so a result about this machine holds for every choice of operations. */
module SpirvMachine {
  import opened Common
  import opened SpirvModule

  datatype AluOp =
    | IAdd | ISub | IMul | And | Or | Xor | ShiftRight | ShiftRightSigned | ShiftLeft
    | FAdd | FSub | FMul | FDiv | FMin | FMax | Fma
    | Copy | SignedToFloat | UnsignedToFloat | FloatToUnsigned | FloatToSigned | Greater
    | Floor | Ceil | Fract | Sin | Cos | Exp2 | Log2 | Sqrt | InverseSqrt

  datatype Alu = Alu(op: (AluOp, seq<Word>) -> Word, texel: (seq<Word>, nat) -> Word)

  // The single bound image is known only by being an image.
  datatype Val = Scalar(w: Word) | Vector(lanes: seq<Word>)

  datatype Status = Running | Returned | Stuck

  datatype Machine = Machine(vals: map<Word, Val>, vars: map<Word, Val>, status: Status)

  // GLSL.std.450 instruction numbers.
  function GlslOp(number: Word): Option<AluOp> {
    match number
    case 8 => Some(Floor)
    case 9 => Some(Ceil)
    case 10 => Some(Fract)
    case 13 => Some(Sin)
    case 14 => Some(Cos)
    case 29 => Some(Exp2)
    case 30 => Some(Log2)
    case 31 => Some(Sqrt)
    case 32 => Some(InverseSqrt)
    case 37 => Some(FMin)
    case 40 => Some(FMax)
    case 50 => Some(Fma)
    case _ => None
  }

  function CoreOp(op: Word): Option<AluOp> {
    match op
    case 83 => Some(Copy)
    case 109 => Some(FloatToUnsigned)
    case 110 => Some(FloatToSigned)
    case 114 => Some(UnsignedToFloat)
    case 115 => Some(SignedToFloat)
    case 128 => Some(IAdd)
    case 129 => Some(FAdd)
    case 130 => Some(ISub)
    case 131 => Some(FSub)
    case 132 => Some(IMul)
    case 133 => Some(FMul)
    case 136 => Some(FDiv)
    case 170 => Some(Greater)
    case 194 => Some(ShiftRight)
    case 195 => Some(ShiftRightSigned)
    case 196 => Some(ShiftLeft)
    case 197 => Some(Or)
    case 198 => Some(Xor)
    case 199 => Some(And)
    case _ => None
  }

  predicate Scalars(m: Machine, ids: seq<Word>) {
    forall k :: 0 <= k < |ids| ==> ids[k] in m.vals && m.vals[ids[k]].Scalar?
  }

  function Words(m: Machine, ids: seq<Word>): seq<Word>
    requires Scalars(m, ids)
  {
    seq(|ids|, k requires 0 <= k < |ids| => m.vals[ids[k]].w)
  }

  function Define(m: Machine, id: Word, v: Val): Machine {
    m.(vals := m.vals[id := v])
  }

  function Fail(m: Machine): Machine {
    m.(status := Stuck)
  }

  function Compute(alu: Alu, op: Option<AluOp>, id: Word, args: seq<Word>, m: Machine): Machine {
    if op.Some? && Scalars(m, args) then Define(m, id, Scalar(alu.op(op.value, Words(m, args)))) else Fail(m)
  }

  function Texel(alu: Alu, uv: seq<Word>): seq<Word> {
    [alu.texel(uv, 0), alu.texel(uv, 1), alu.texel(uv, 2), alu.texel(uv, 3)]
  }

  /** One instruction. A variable starts with the content `init` gives its id.
      Consuming an id that holds nothing of the right kind is Stuck; a machine
      that is not Running does not move. */
  function Step(alu: Alu, init: Word -> Word, i: Ins, m: Machine): Machine {
    var o := i.operands;
    if !m.status.Running? then m
    else if i.op == OpReturn then m.(status := Returned)
    else if i.op == OpVariable && |o| == 3 then m.(vars := m.vars[o[1] := Scalar(init(o[1]))])
    else if i.op == OpConstant && |o| == 3 then Define(m, o[1], Scalar(o[2]))
    else if i.op == OpLoad && |o| == 3 then if o[2] in m.vars then Define(m, o[1], m.vars[o[2]]) else Fail(m)
    else if i.op == OpStore && |o| == 2 then
      if o[0] in m.vars && o[1] in m.vals then m.(vars := m.vars[o[0] := m.vals[o[1]]]) else Fail(m)
    else if i.op == OpAccessChain then
      // Buffer memory is not part of this machine: a chain is only checked for
      // the ids it consumes.
      if |o| >= 3 && o[2] in m.vars && Scalars(m, o[3..]) then Define(m, o[1], Scalar(0)) else Fail(m)
    else if i.op == OpCompositeConstruct && |o| >= 2 then
      if Scalars(m, o[2..]) then Define(m, o[1], Vector(Words(m, o[2..]))) else Fail(m)
    else if i.op == OpCompositeExtract && |o| == 4 then
      if o[2] in m.vals && m.vals[o[2]].Vector? && o[3] < |m.vals[o[2]].lanes|
      then Define(m, o[1], Scalar(m.vals[o[2]].lanes[o[3]])) else Fail(m)
    else if i.op == OpImageSampleImplicitLod && |o| == 4 then
      if o[2] in m.vals && o[3] in m.vals && m.vals[o[3]].Vector?
      then Define(m, o[1], Vector(Texel(alu, m.vals[o[3]].lanes))) else Fail(m)
    else if i.op == OpExtInst && |o| >= 4 then Compute(alu, GlslOp(o[3]), o[1], o[4..], m)
    else if i.op in {OpExtInstImport, OpTypeVoid, OpTypeBool, OpTypeInt, OpTypeFloat, OpTypeVector, OpTypeImage,
                     OpTypeArray, OpTypeStruct, OpTypePointer, OpTypeFunction, OpTypeSampledImage, OpLabel,
                     OpCapability, OpMemoryModel, OpEntryPoint, OpExecutionMode, OpDecorate, OpMemberDecorate,
                     OpFunction, OpFunctionEnd} then m
    else if |o| >= 2 then Compute(alu, CoreOp(i.op), o[1], o[2..], m)
    else Fail(m)
  }

  function Run(alu: Alu, init: Word -> Word, c: Code): Machine {
    if c.Empty? then Machine(map[], map[], Running) else Step(alu, init, c.last, Run(alu, init, c.rest))
  }

  // What a variable holds, whether or not execution reached its declaration.
  function Content(init: Word -> Word, m: Machine, id: Word): Val {
    if id in m.vars then m.vars[id] else Scalar(init(id))
  }
}
