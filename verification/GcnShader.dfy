/** The GCN side of the translator: decoding bytecode and the meaning of the
    decoded instructions on a register file. Which opcodes exist and which
    operand fields they read are the translator's own. */
module GcnShader {
  import opened Common
  import opened SpirvMachine
  import opened SpirvModule

  datatype Format = Unknown | Sop2 | Sopc | Sopp | Vop1 | Vop2 | Vop3 | Vopc | Smem | Vmem | Export

  datatype Instruction = Instruction(
    format: Format, word: Word, wideWord: int, opcode: Word, destination: Word,
    source0: Word, source1: Word, vsrc2: Word, vsrc3: Word, expTarget: Word, expEn: Word)

  // word >> shift, masked to the given number of bits.
  function Field(word: int, shift: nat, bits: nat): (r: Word)
    requires 0 <= word && bits <= 16
    ensures r < Pow2(bits)
  {
    var r := word / Pow2(shift) % Pow2(bits);
    Pow2Small(bits);
    r
  }

  function Pow2(n: nat): (r: nat)
    ensures r >= 1
  {
    if n == 0 then 1 else 2 * Pow2(n - 1)
  }

  lemma {:induction false} Pow2Small(n: nat)
    requires n <= 16
    ensures Pow2(n) <= 0x10000
  {
    assert Pow2(4) == 16 && Pow2(8) == 16 * Pow2(4) && Pow2(12) == 16 * Pow2(8) && Pow2(16) == 16 * Pow2(12);
    Pow2Monotone(n, 16);
  }

  lemma {:induction false} Pow2Monotone(a: nat, b: nat)
    requires a <= b
    ensures Pow2(a) <= Pow2(b)
    decreases b
  {
    if a < b { Pow2Monotone(a, b - 1); }
  }

  function FormatOf(word: Word): Format {
    var top9 := Field(word, 23, 9);
    var top6 := Field(word, 26, 6);
    if top9 == 0x17E then Sopc
    else if top9 == 0x17F then Sopp
    else if Field(word, 27, 5) == 0x18 then Smem
    else if top6 == 0x38 then Vmem
    else if top6 == 0x3E then Export
    else if top9 == 0x0FE then Vop1
    else if top6 == 0x34 then Vop3
    else if Field(word, 30, 2) == 2 then Sop2
    else if word < 0x8000_0000 then Vop2
    else Unknown
  }

  function Decode(word: Word): Instruction {
    var format := FormatOf(word);
    var plain := Instruction(format, word, word, Field(word, 16, 8), Field(word, 18, 8),
                             Field(word, 0, 9), Field(word, 9, 9), 0, 0, 0, 0);
    if format == Export then
      plain.(source0 := Field(word, 8, 4), source1 := Field(word, 12, 4), vsrc2 := Field(word, 16, 4),
             vsrc3 := Field(word, 20, 4), expEn := Field(word, 0, 7))
    else if format == Vop3 then plain.(destination := Field(word, 17, 8))
    else plain
  }

  predicate IsWide(format: Format) {
    format in {Smem, Vmem, Export, Vop3}
  }

  // Completes a decoded word with the word behind it, if there is one.
  function Complete(i: Instruction, next: Option<Word>): Instruction
    requires 0 <= i.word
  {
    var wide := i.word + (match next case Some(n) => n * TWO_32 case None => 0);
    var j := i.(wideWord := wide);
    if i.format == Vop3 then j.(vsrc2 := Field(wide, 32, 9))
    else if i.format == Export then j.(expTarget := Field(wide, 40, 6))
    else j
  }

  function First(words: seq<Word>): (r: (Instruction, nat))
    requires words != []
    ensures 1 <= r.1 <= |words|
  {
    var i := Decode(words[0]);
    if IsWide(i.format) && |words| > 1 then (Complete(i, Some(words[1])), 2) else (Complete(i, None), 1)
  }

  function DecodeAll(words: seq<Word>): (r: seq<Instruction>)
    ensures |r| <= |words|
  {
    if words == [] then [] else var f := First(words); [f.0] + DecodeAll(words[f.1..])
  }

  predicate Samples(i: Instruction) {
    i.format == Vmem && 0 <= i.wideWord && Field(i.wideWord, 54, 1) != 0
  }

  datatype Stage = Vertex | Fragment | Compute

  datatype Hint = Auto | Fixed(stage: Stage)

  predicate ExportsPosition(code: seq<Instruction>) {
    exists k :: 0 <= k < |code| && code[k].format == Export && code[k].expTarget == 12
  }

  predicate ExportsColour(code: seq<Instruction>) {
    exists k :: 0 <= k < |code| && code[k].format == Export && code[k].expTarget <= 7
  }

  function StageOf(code: seq<Instruction>, hint: Hint): Stage {
    match hint
    case Fixed(stage) => stage
    case Auto =>
      if ExportsPosition(code) then Vertex else if ExportsColour(code) then Fragment else Compute
  }

  function Sop2Meaning(opcode: Word): Option<AluOp> {
    match opcode
    case 0x00 => Some(IAdd)
    case 0x01 => Some(ISub)
    case 0x02 => Some(And)
    case 0x03 => Some(Or)
    case 0x04 => Some(IMul)
    case 0x08 => Some(Xor)
    case 0x0A => Some(ShiftRight)
    case 0x0E => Some(ShiftLeft)
    case 0x0F => Some(ShiftRight)
    case 0x10 => Some(ShiftRightSigned)
    case _ => None
  }

  const ONE: Word := 0x3F80_0000

  /** The register file. `output` is the one output variable the stage has. */
  datatype Registers = Registers(s: seq<Word>, v: seq<Word>, output: Val, status: Status) {
    predicate Valid() { |s| == 104 && |v| == 256 }
    function S(i: Word): Word requires Valid() { s[i % 104] }
    function V(i: Word): Word requires Valid() { v[i % 256] }
    function SetS(i: Word, w: Word): Registers requires Valid() { this.(s := s[i % 104 := w]) }
    function SetV(i: Word, w: Word): Registers requires Valid() { this.(v := v[i % 256 := w]) }
  }

  predicate EndsProgram(i: Instruction) {
    i.format == Sopp &&
    (i.opcode == 1 || (i.opcode == 2 && 0 <= i.word && (Field(i.word, 0, 16) == 0 || Field(i.word, 15, 1) == 1)))
  }

  lemma Powers()
    ensures Pow2(5) == 32 && Pow2(7) == 128 && Pow2(8) == 256 && Pow2(9) == 512
    ensures Pow2(16) == 0x1_0000 && Pow2(23) == 0x80_0000 && Pow2(27) == 0x800_0000
  {
    assert Pow2(4) == 16 && Pow2(12) == 4096 && Pow2(20) == 0x10_0000;
  }

  // A word is Sopp only if bit 23 is set, and bit 23 is the top bit of the opcode
  // field. Nothing decodes as Vopc.
  lemma SoppOpcodes(word: Word)
    ensures Decode(word).format == Sopp ==> Decode(word).opcode >= 0x80
    ensures Decode(word).format != Vopc
  {
    Powers();
    var high, low := word / Pow2(23), word / Pow2(16);
    assert high == low / 128;
    if FormatOf(word) == Sopp {
      assert high % 512 == 0x17F && low % 256 >= 128;
    }
  }

  /** No decoded program contains an instruction that the translator takes for a
      program end, and none contains a vector comparison. */
  lemma {:induction false} NoEnd(words: seq<Word>)
    ensures forall i :: i in DecodeAll(words) ==> !EndsProgram(i) && i.format != Vopc
  {
    if words != [] {
      SoppOpcodes(words[0]);
      NoEnd(words[First(words).1..]);
    }
  }

  /** The word of s_endpgm is an Sopp instruction, but its opcode reads as 0x81. */
  lemma EndWordIsNotRecognised()
    ensures var i := Decode(0xBF81_0000); i.format == Sopp && i.opcode == 0x81 && !EndsProgram(i)
  {
    Powers();
  }

  predicate ExportMatches(stage: Stage, target: Word) {
    (target == 12 ==> stage == Vertex) && (target <= 7 ==> stage == Fragment)
  }

  // What the translator can express in a module of this stage.
  predicate Supported(stage: Stage, i: Instruction) {
    i.format != Smem && (i.format == Export ==> ExportMatches(stage, i.expTarget))
  }

  function Vop1Step(alu: Alu, i: Instruction, r: Registers): Registers
    requires r.Valid()
  {
    var x := r.V(i.source0);
    match i.opcode
    case 0x00 => r.SetV(i.destination, alu.op(Copy, [x]))
    case 0x01 => r.SetV(i.destination, alu.op(SignedToFloat, [r.S(i.source0)]))
    case 0x04 => r.SetV(i.destination, alu.op(FDiv, [ONE, x]))
    case 0x05 => r.SetV(i.destination, alu.op(InverseSqrt, [x]))
    case 0x0C => r.SetV(i.destination, alu.op(UnsignedToFloat, [x]))
    case 0x0D => r.SetS(i.destination, alu.op(FloatToUnsigned, [x]))
    case 0x0E => r.SetS(i.destination, alu.op(FloatToSigned, [x]))
    case 0x20 => r.SetV(i.destination, alu.op(Exp2, [x]))
    case 0x21 => r.SetV(i.destination, alu.op(Fract, [x]))
    case 0x22 => r.SetV(i.destination, alu.op(Ceil, [x]))
    case 0x24 => r.SetV(i.destination, alu.op(Floor, [x]))
    case 0x27 => r.SetV(i.destination, alu.op(Log2, [x]))
    case 0x33 => r.SetV(i.destination, alu.op(Sqrt, [x]))
    case 0x35 => r.SetV(i.destination, alu.op(Sin, [x]))
    case 0x36 => r.SetV(i.destination, alu.op(Cos, [x]))
    case _ => r
  }

  function Vop2Step(alu: Alu, i: Instruction, r: Registers): Registers
    requires r.Valid()
  {
    var x := r.V(i.source0);
    var y := r.V(i.source1);
    match i.opcode
    case 0x00 => r.SetV(i.destination, alu.op(FAdd, [x, y]))
    case 0x01 => r.SetV(i.destination, alu.op(FSub, [x, y]))
    case 0x02 => r.SetV(i.destination, alu.op(FMul, [x, y]))
    case 0x10 => r.SetV(i.destination, alu.op(FAdd, [alu.op(FMul, [x, y]), r.V(i.destination)]))
    case 0x11 => r.SetV(i.destination, alu.op(ShiftLeft, [y, r.S(i.source0)]))
    case 0x14 => r.SetV(i.destination, alu.op(FMin, [x, y]))
    case 0x15 => r.SetV(i.destination, alu.op(FMax, [x, y]))
    case 0x1B => r.SetS(i.destination, alu.op(And, [r.S(i.source0), r.S(i.source1)]))
    case 0x1C => r.SetS(i.destination, alu.op(Or, [r.S(i.source0), r.S(i.source1)]))
    case 0x1D => r.SetS(i.destination, alu.op(Xor, [r.S(i.source0), r.S(i.source1)]))
    case _ => r
  }

  function Vop3Source(r: Registers, source: Word): Word
    requires r.Valid()
  {
    if source >= 256 then r.S(source - 256) else r.V(source)
  }

  function Vop3Step(alu: Alu, i: Instruction, r: Registers): Registers
    requires r.Valid()
  {
    var x := Vop3Source(r, i.source0);
    var y := Vop3Source(r, i.source1);
    var z := Vop3Source(r, i.vsrc2);
    match i.opcode
    case 0x14 => r.SetV(i.destination, alu.op(Fma, [x, y, z]))
    case 0x15 => r.SetV(i.destination, alu.op(FAdd, [alu.op(FMul, [x, y]), z]))
    case 0x1D => r.SetV(i.destination, alu.op(FMin, [alu.op(FMin, [x, y]), z]))
    case 0x1E => r.SetV(i.destination, alu.op(FMax, [alu.op(FMax, [x, y]), z]))
    case _ => r
  }

  // Component n of an export: the register, or the default when it is off.
  function Exported(r: Registers, i: Instruction, n: nat, source: Word): Word
    requires r.Valid() && n < 4
  {
    if i.expEn / Pow2(n) % 2 == 1 then r.V(source) else if n == 3 then ONE else 0
  }

  function Fault(r: Registers): Registers {
    if r.status.Running? then r.(status := Stuck) else r
  }

  function ExportStep(i: Instruction, stage: Stage, r: Registers): Registers
    requires r.Valid()
  {
    if i.expTarget != 12 && i.expTarget > 7 then r
    else if !ExportMatches(stage, i.expTarget) then Fault(r)
    else r.(output := Vector([Exported(r, i, 0, i.source0), Exported(r, i, 1, i.source1),
                              Exported(r, i, 2, i.vsrc2), Exported(r, i, 3, i.vsrc3)]))
  }

  // The first lanes go to consecutive registers, wrapping at the end of the file.
  function SetLanes(r: Registers, destination: Word, lanes: seq<Word>, count: Word): (r': Registers)
    requires r.Valid() && count <= |lanes| <= 4
    ensures r'.Valid() && r'.status == r.status
  {
    if count == 0 then r
    else SetLanes(r, destination, lanes, count - 1).SetV((destination + (count - 1)) % 256, lanes[count - 1])
  }

  function VmemStep(alu: Alu, i: Instruction, r: Registers): Registers
    requires r.Valid()
  {
    if Samples(i) then SetLanes(r, i.destination, Texel(alu, [r.V(i.source0), r.V((i.source0 + 1) % 256)]), 4)
    else r.SetV(i.destination, r.V(i.source0))
  }

  /** One reference step. An unsupported instruction faults; after a fault or
      the end of the program nothing changes. */
  function Execute(alu: Alu, stage: Stage, i: Instruction, r: Registers): (r': Registers)
    requires r.Valid()
    ensures r'.Valid()
  {
    if !r.status.Running? then r
    else match i.format
      case Sop2 =>
        (match Sop2Meaning(i.opcode)
         case Some(op) => r.SetS(i.destination, alu.op(op, [r.S(i.source0), r.S(i.source1)]))
         case None => r)
      case Vop1 => Vop1Step(alu, i, r)
      case Vop2 => Vop2Step(alu, i, r)
      case Vop3 => Vop3Step(alu, i, r)
      case Sopp => if EndsProgram(i) then r.(status := Returned) else r
      case Export => ExportStep(i, stage, r)
      case Vmem => VmemStep(alu, i, r)
      case Smem => Fault(r)
      case _ => r
  }

  function ExecuteAll(alu: Alu, stage: Stage, code: seq<Instruction>, r: Registers): (r': Registers)
    requires r.Valid()
    ensures r'.Valid()
  {
    if code == [] then r
    else Execute(alu, stage, code[|code| - 1], ExecuteAll(alu, stage, code[..|code| - 1], r))
  }
}
