/** The bytecode from the encoder's side: words put together from bit fields, and
    what the decoder makes of them. */
module GcnEncoding {
  import opened Arithmetic
  import opened Common
  import opened GcnShader
  import opened SpirvModule

  // A field is what stands between the bits below it and the bits above it.
  lemma FieldIs(word: int, shift: nat, bits: nat, p: int, q: int, low: int, field: int, high: int)
    requires bits <= 16 && Pow2(shift) == p && Pow2(bits) == q
    requires 0 <= low < p && 0 <= field < q && 0 <= high && word == (high * q + field) * p + low && 0 <= word
    ensures Field(word, shift, bits) == field
  {
    QuotientIs(word, high * q + field, low, p);
    QuotientIs(high * q + field, high, field, q);
  }

  lemma AllPowers()
    ensures Pow2(0) == 1 && Pow2(1) == 2 && Pow2(2) == 4 && Pow2(4) == 0x10 && Pow2(5) == 0x20 && Pow2(6) == 0x40
    ensures Pow2(7) == 0x80 && Pow2(8) == 0x100 && Pow2(9) == 0x200 && Pow2(12) == 0x1000 && Pow2(16) == 0x1_0000
    ensures Pow2(17) == 0x2_0000 && Pow2(18) == 0x4_0000 && Pow2(20) == 0x10_0000 && Pow2(23) == 0x80_0000
    ensures Pow2(26) == 0x400_0000 && Pow2(27) == 0x800_0000 && Pow2(30) == 0x4000_0000
  {
    assert Pow2(3) == 8 && Pow2(10) == 0x400 && Pow2(14) == 0x4000 && Pow2(22) == 0x40_0000;
  }

  // ---- One word --------------------------------------------------------------------------------

  /** A word cut where fields begin: bits 0 to 8, 9 to 15, 16 and 17, 18 to 23, 24 and
      25, and the six bits of the format. */
  datatype Cut = Cut(a: int, b: int, c: int, d: int, e: int, top: int) {
    predicate Valid() {
      0 <= a < 0x200 && 0 <= b < 0x80 && 0 <= c < 4 && 0 <= d < 0x40 && 0 <= e < 4 && 0 <= top < 0x40
    }

    function Word(): (w: Word)
      requires Valid()
    {
      a + 0x200 * b + 0x1_0000 * c + 0x4_0000 * d + 0x100_0000 * e + 0x400_0000 * top
    }

    // Which format the top nine bits stand for.
    function Kind(): Format {
      if top == 0x2F && e == 3 then (if d < 32 then Sopc else Sopp)
      else if top == 0x30 || top == 0x31 then Smem
      else if top == 0x38 then Vmem
      else if top == 0x3E then Format.Export
      else if top == 0x1F && e == 3 && d < 32 then Vop1
      else if top == 0x34 then Vop3
      else if 0x20 <= top < 0x30 then Sop2
      else if top < 0x20 then Vop2
      else Unknown
    }
  }

  // Every word can be cut.
  function CutOf(w: Word): (cut: Cut)
    ensures cut.Valid() && cut.Word() == w
  {
    var from9 := w / 0x200;
    var from16 := from9 / 0x80;
    var from18 := from16 / 4;
    var from24 := from18 / 0x40;
    Cut(w % 0x200, from9 % 0x80, from16 % 4, from18 % 0x40, from24 % 4, from24 / 4)
  }

  lemma LowFields(cut: Cut)
    requires cut.Valid()
    ensures Field(cut.Word(), 0, 9) == cut.a && Field(cut.Word(), 9, 9) == cut.b + 0x80 * cut.c
    ensures Field(cut.Word(), 16, 8) == cut.c + 4 * cut.d && Field(cut.Word(), 18, 8) == cut.d + 0x40 * cut.e
  {
    AllPowers();
    var w := cut.Word();
    var d, e, top := cut.d, cut.e, cut.top;
    var low := cut.a + 0x200 * cut.b;
    hide Field, Pow2;
    FieldIs(w, 0, 9, 1, 0x200, 0, cut.a, cut.b + 0x80 * (cut.c + 4 * (d + 0x40 * (e + 4 * top))));
    FieldIs(w, 9, 9, 0x200, 0x200, cut.a, cut.b + 0x80 * cut.c, d + 0x40 * (e + 4 * top));
    FieldIs(w, 16, 8, 0x1_0000, 0x100, low, cut.c + 4 * d, e + 4 * top);
    FieldIs(w, 18, 8, 0x4_0000, 0x100, low + 0x1_0000 * cut.c, d + 0x40 * e, top);
  }

  lemma HighFields(cut: Cut)
    requires cut.Valid()
    ensures Field(cut.Word(), 23, 9) == cut.d / 32 + 2 * cut.e + 8 * cut.top
    ensures Field(cut.Word(), 26, 6) == cut.top && Field(cut.Word(), 27, 5) == cut.top / 2
    ensures Field(cut.Word(), 30, 2) == cut.top / 16 && (cut.Word() < 0x8000_0000 <==> cut.top < 32)
  {
    AllPowers();
    var w, top := cut.Word(), cut.top;
    var to18 := cut.a + 0x200 * cut.b + 0x1_0000 * cut.c;
    var to26 := to18 + 0x4_0000 * cut.d + 0x100_0000 * cut.e;
    hide Field, Pow2;
    FieldIs(w, 23, 9, 0x80_0000, 0x200, to18 + 0x4_0000 * (cut.d % 32), cut.d / 32 + 2 * cut.e + 8 * top, 0);
    FieldIs(w, 26, 6, 0x400_0000, 0x40, to26, top, 0);
    FieldIs(w, 27, 5, 0x800_0000, 0x20, to26 + 0x400_0000 * (top % 2), top / 2, 0);
    FieldIs(w, 30, 2, 0x4000_0000, 4, to26 + 0x400_0000 * (top % 16), top / 16, 0);
  }

  lemma TopParts(d: int, top: int)
    requires 0 <= d < 0x40 && 0 <= top < 0x40
    ensures d / 32 == (if d < 32 then 0 else 1)
    ensures (top / 2 == 0x18 <==> top == 0x30 || top == 0x31) && (top / 16 == 2 <==> 0x20 <= top < 0x30)
  {
  }

  lemma FormatDecodes(cut: Cut)
    requires cut.Valid()
    ensures FormatOf(cut.Word()) == cut.Kind()
  {
    hide Field, Cut.Word, Pow2;
    HighFields(cut);
    TopParts(cut.d, cut.top);
    FormatFrom(cut.Word(), cut, cut.d / 32, cut.top / 2, cut.top / 16);
  }

  lemma FormatFrom(w: Word, cut: Cut, half: int, fifth: int, fourth: int)
    requires cut.Valid() && half == (if cut.d < 32 then 0 else 1)
    requires (fifth == 0x18 <==> cut.top == 0x30 || cut.top == 0x31) && (fourth == 2 <==> 0x20 <= cut.top < 0x30)
    requires Field(w, 23, 9) == half + 2 * cut.e + 8 * cut.top && Field(w, 26, 6) == cut.top
    requires Field(w, 27, 5) == fifth && Field(w, 30, 2) == fourth && (w < 0x8000_0000 <==> cut.top < 32)
    ensures FormatOf(w) == cut.Kind()
  {
    hide Field, Pow2;
  }

  // The instruction a word stands for, but for exports.
  function Read(cut: Cut): (i: Instruction)
    requires cut.Valid()
  {
    Instruction(cut.Kind(), cut.Word(), cut.Word(), cut.c + 4 * cut.d,
                if cut.Kind() == Vop3 then cut.c / 2 + 2 * cut.d + 0x80 * (cut.e % 2) else cut.d + 0x40 * cut.e,
                cut.a, cut.b + 0x80 * cut.c, 0, 0, 0, 0)
  }

  lemma Vop3Destination(cut: Cut)
    requires cut.Valid()
    ensures Field(cut.Word(), 17, 8) == cut.c / 2 + 2 * cut.d + 0x80 * (cut.e % 2)
  {
    AllPowers();
    var low := cut.a + 0x200 * cut.b + 0x1_0000 * (cut.c % 2);
    FieldIs(cut.Word(), 17, 8, 0x2_0000, 0x100, low, cut.c / 2 + 2 * cut.d + 0x80 * (cut.e % 2), cut.e / 2 + 2 * cut.top);
  }

  /** Every word of every format but export decodes to the fields it was put together
      from: source 0 in bits 0 to 8, source 1 in bits 9 to 17, the opcode in bits 16 to
      23, the destination in bits 18 to 25, or 17 to 24 for three operands. */
  lemma WordDecodes(cut: Cut)
    requires cut.Valid() && cut.Kind() != Format.Export
    ensures Decode(cut.Word()) == Read(cut)
  {
    FormatDecodes(cut);
    LowFields(cut);
    Vop3Destination(cut);
    hide Field, FormatOf, Cut.Word, Cut.Kind;
  }

  // ---- Exports -----------------------------------------------------------------------------------

  /** An export word: the enabled components in bits 0 to 6, then one bit, the sources
      in four bits each, two bits, and the format. */
  datatype ExportCut = ExportCut(enabled: int, x: int, s0: int, s1: int, s2: int, s3: int, y: int) {
    predicate Valid() {
      && 0 <= enabled < 0x80 && 0 <= x < 2 && 0 <= y < 4
      && 0 <= s0 < 0x10 && 0 <= s1 < 0x10 && 0 <= s2 < 0x10 && 0 <= s3 < 0x10
    }

    function Word(): (w: Word)
      requires Valid()
    {
      enabled + 0x80 * x + 0x100 * s0 + 0x1000 * s1 + 0x1_0000 * s2 + 0x10_0000 * s3 + 0x100_0000 * y + 0x400_0000 * 0x3E
    }
  }

  function ReadExport(cut: ExportCut): Instruction
    requires cut.Valid()
  {
    Instruction(Format.Export, cut.Word(), cut.Word(), cut.s2 + 0x10 * cut.s3, cut.s2 / 4 + 4 * cut.s3 + 0x40 * cut.y,
                cut.s0, cut.s1, cut.s2, cut.s3, 0, cut.enabled)
  }

  lemma ExportFields(cut: ExportCut)
    requires cut.Valid()
    ensures Field(cut.Word(), 0, 7) == cut.enabled && Field(cut.Word(), 8, 4) == cut.s0
    ensures Field(cut.Word(), 12, 4) == cut.s1 && Field(cut.Word(), 16, 4) == cut.s2 && Field(cut.Word(), 20, 4) == cut.s3
  {
    AllPowers();
    var w, high := cut.Word(), cut.y + 4 * 0x3E;
    var from20 := cut.s3 + 0x10 * high;
    var from16 := cut.s2 + 0x10 * from20;
    var from12 := cut.s1 + 0x10 * from16;
    var to8 := cut.enabled + 0x80 * cut.x;
    hide Field, Pow2;
    FieldIs(w, 0, 7, 1, 0x80, 0, cut.enabled, cut.x + 2 * (cut.s0 + 0x10 * from12));
    FieldIs(w, 8, 4, 0x100, 0x10, to8, cut.s0, from12);
    FieldIs(w, 12, 4, 0x1000, 0x10, to8 + 0x100 * cut.s0, cut.s1, from16);
    FieldIs(w, 16, 4, 0x1_0000, 0x10, to8 + 0x100 * cut.s0 + 0x1000 * cut.s1, cut.s2, from20);
    FieldIs(w, 20, 4, 0x10_0000, 0x10, to8 + 0x100 * cut.s0 + 0x1000 * cut.s1 + 0x1_0000 * cut.s2, cut.s3, high);
  }

  // The same word, cut like the others.
  lemma ExportIsCut(cut: ExportCut)
    requires cut.Valid()
    ensures var other := Cut(cut.enabled + 0x80 * cut.x + 0x100 * (cut.s0 % 2), cut.s0 / 2 + 8 * cut.s1,
                             cut.s2 % 4, cut.s2 / 4 + 4 * cut.s3, cut.y, 0x3E);
            other.Valid() && other.Word() == cut.Word()
  {
  }

  /** An export word decodes to its enabled components and its four sources. */
  lemma ExportDecodes(cut: ExportCut)
    requires cut.Valid()
    ensures Decode(cut.Word()) == ReadExport(cut)
  {
    ExportFields(cut);
    ExportIsCut(cut);
    var other := Cut(cut.enabled + 0x80 * cut.x + 0x100 * (cut.s0 % 2), cut.s0 / 2 + 8 * cut.s1,
                     cut.s2 % 4, cut.s2 / 4 + 4 * cut.s3, cut.y, 0x3E);
    FormatDecodes(other);
    LowFields(other);
    hide Field, FormatOf, Cut.Word, ExportCut.Word;
  }

  // ---- The second word ---------------------------------------------------------------------------

  /** The word behind a wide one: bits 0 to 7, bit 8, bits 9 to 13, 14 to 21, bit 22 and
      the rest. */
  datatype Second = Second(low: int, eighth: int, middle: int, next: int, sample: int, high: int) {
    predicate Valid() {
      0 <= low < 0x100 && 0 <= eighth < 2 && 0 <= middle < 0x20 && 0 <= next < 0x100 && 0 <= sample < 2 && 0 <= high < 0x200
    }

    function Word(): (w: Word)
      requires Valid()
    {
      low + 0x100 * eighth + 0x200 * middle + 0x4000 * next + 0x40_0000 * sample + 0x80_0000 * high
    }
  }

  lemma WideFields(word: Word, second: Second)
    requires second.Valid()
    ensures var wide := word + second.Word() * 0x1_0000_0000;
            && Field(wide, 32, 9) == second.low + 0x100 * second.eighth
            && Field(wide, 40, 6) == second.eighth + 2 * second.middle
            && Field(wide, 54, 1) == second.sample
  {
    AllPowers();
    assert Pow2(32) == 0x1_0000_0000 && Pow2(40) == 0x100_0000_0000 && Pow2(54) == 0x40_0000_0000_0000 by { WidePowers(); }
    var wide := word + second.Word() * 0x1_0000_0000;
    var from14 := second.next + 0x100 * (second.sample + 2 * second.high);
    var to14 := second.low + 0x100 * second.eighth + 0x200 * second.middle;
    hide Field, Pow2;
    FieldIs(wide, 32, 9, 0x1_0000_0000, 0x200, word, second.low + 0x100 * second.eighth, second.middle + 0x20 * from14);
    FieldIs(wide, 40, 6, 0x100_0000_0000, 0x40, word + 0x1_0000_0000 * second.low, second.eighth + 2 * second.middle, from14);
    FieldIs(wide, 54, 1, 0x40_0000_0000_0000, 2, word + 0x1_0000_0000 * (to14 + 0x4000 * second.next), second.sample, second.high);
  }

  lemma WidePowers()
    ensures Pow2(32) == 0x1_0000_0000 && Pow2(40) == 0x100_0000_0000 && Pow2(54) == 0x40_0000_0000_0000
  {
    AllPowers();
    assert Pow2(35) == 8 * Pow2(32) && Pow2(38) == 8 * Pow2(35) && Pow2(41) == 8 * Pow2(38);
    assert Pow2(44) == 8 * Pow2(41) && Pow2(47) == 8 * Pow2(44) && Pow2(50) == 8 * Pow2(47) && Pow2(53) == 8 * Pow2(50);
  }

  // ---- Programs -----------------------------------------------------------------------------------

  // An instruction as an encoder writes it.
  datatype Assembly =
    | Short(cut: Cut)
    | Long(cut: Cut, second: Second)
    | ExportCode(export_: ExportCut, second: Second)

  predicate Assembles(p: Assembly) {
    match p
    case Short(cut) => cut.Valid() && cut.Kind() !in {Smem, Vmem, Vop3, Format.Export}
    case Long(cut, second) => cut.Valid() && second.Valid() && cut.Kind() in {Smem, Vmem, Vop3}
    case ExportCode(cut, second) => cut.Valid() && second.Valid()
  }

  function WordsOf(p: Assembly): (words: seq<Word>)
    requires Assembles(p)
  {
    match p
    case Short(cut) => [cut.Word()]
    case Long(cut, second) => [cut.Word(), second.Word()]
    case ExportCode(cut, second) => [cut.Word(), second.Word()]
  }

  function InstructionOf(p: Assembly): Instruction
    requires Assembles(p)
  {
    match p
    case Short(cut) => Read(cut)
    case Long(cut, second) =>
      Read(cut).(wideWord := cut.Word() + second.Word() * 0x1_0000_0000,
                 vsrc2 := if cut.Kind() == Vop3 then second.low + 0x100 * second.eighth else 0)
    case ExportCode(cut, second) =>
      ReadExport(cut).(wideWord := cut.Word() + second.Word() * 0x1_0000_0000,
                       expTarget := second.eighth + 2 * second.middle)
  }

  predicate AllAssemble(program: seq<Assembly>) {
    forall p :: p in program ==> Assembles(p)
  }

  function Assembled(program: seq<Assembly>): seq<Word>
    requires AllAssemble(program)
  {
    if program == [] then [] else WordsOf(program[0]) + Assembled(program[1..])
  }

  function Instructions(program: seq<Assembly>): seq<Instruction>
    requires AllAssemble(program)
  {
    if program == [] then [] else [InstructionOf(program[0])] + Instructions(program[1..])
  }

  // Completing a decoded word, in terms of the fields of the second one.
  lemma Completed(i: Instruction, second: Second)
    requires second.Valid()
    ensures Complete(i, Some(second.Word())) ==
              i.(wideWord := i.word + second.Word() * 0x1_0000_0000,
                 vsrc2 := if i.format == Vop3 then second.low + 0x100 * second.eighth else i.vsrc2,
                 expTarget := if i.format == Format.Export then second.eighth + 2 * second.middle else i.expTarget)
  {
    hide Field, Second.Word, Pow2;
    WideFields(i.word, second);
  }

  lemma FirstDecodes(p: Assembly, rest: seq<Word>)
    requires Assembles(p)
    ensures var words := WordsOf(p) + rest;
            First(words) == (InstructionOf(p), |WordsOf(p)|) && words[|WordsOf(p)|..] == rest
  {
    hide Decode, Complete, Field, Cut.Word, Cut.Kind, ExportCut.Word, Second.Word;
    var words := WordsOf(p) + rest;
    assert words[0] == WordsOf(p)[0] && words[|WordsOf(p)|..] == rest;
    match p
    case Short(cut) =>
      WordDecodes(cut);
      NarrowWord(Read(cut));
    case Long(cut, second) =>
      WordDecodes(cut);
      Completed(Read(cut), second);
    case ExportCode(cut, second) =>
      ExportDecodes(cut);
      Completed(ReadExport(cut), second);
  }

  lemma NarrowWord(i: Instruction)
    requires !IsWide(i.format) && i.word == i.wideWord >= 0
    ensures Complete(i, None) == i
  {
  }

  /** Decoding inverts encoding: a program put together instruction by instruction from
      bit fields decodes to those instructions, every field as it was written, in front
      of whatever follows. */
  lemma {:induction false} ProgramDecodes(program: seq<Assembly>, rest: seq<Word>)
    requires AllAssemble(program)
    ensures DecodeAll(Assembled(program) + rest) == Instructions(program) + DecodeAll(rest)
    decreases |program|
  {
    hide First, InstructionOf, WordsOf, Assembles;
    if program == [] {
      assert Assembled(program) + rest == rest;
    } else {
      var tail := Assembled(program[1..]) + rest;
      assert Assembled(program) + rest == WordsOf(program[0]) + tail;
      FirstDecodes(program[0], tail);
      ProgramDecodes(program[1..], rest);
    }
  }

  /** A wide instruction that the bytecode ends in is decoded without its second word. */
  lemma TruncatedDecodes(cut: Cut, export_: ExportCut)
    requires cut.Valid() && cut.Kind() in {Smem, Vmem, Vop3} && export_.Valid()
    ensures DecodeAll([cut.Word()]) == [Read(cut)] && DecodeAll([export_.Word()]) == [ReadExport(export_)]
  {
    WordDecodes(cut);
    ExportDecodes(export_);
    TruncatedWord(cut.Word());
    TruncatedWord(export_.Word());
    hide Decode, Field, Cut.Word, Cut.Kind, ExportCut.Word, Complete;
    assert DecodeAll([]) == [];
  }

  lemma TruncatedWord(w: Word)
    ensures Complete(Decode(w), None) == Decode(w)
  {
    WidePowers();
    AllPowers();
    hide Field, Pow2;
    FieldIs(w, 32, 9, 0x1_0000_0000, 0x200, w, 0, 0);
    FieldIs(w, 40, 6, 0x100_0000_0000, 0x40, w, 0, 0);
    hide FormatOf;
  }

  /** A memory instruction samples exactly if bit 22 of its second word is set. */
  lemma SamplesIff(cut: Cut, second: Second)
    requires Assembles(Long(cut, second))
    ensures Samples(InstructionOf(Long(cut, second))) <==> cut.Kind() == Vmem && second.sample == 1
  {
    hide Field, Cut.Word, Second.Word, Cut.Kind, Samples;
    WideFields(cut.Word(), second);
    SamplesMeans(InstructionOf(Long(cut, second)));
  }

  lemma SamplesMeans(i: Instruction)
    requires i.wideWord >= 0
    ensures Samples(i) <==> i.format == Vmem && Field(i.wideWord, 54, 1) != 0
  {
  }

  // An export alone, in terms of its fields.
  lemma ExportRead(cut: ExportCut, second: Second)
    requires cut.Valid() && second.Valid()
    ensures var code := DecodeAll([cut.Word(), second.Word()]);
            |code| == 1 && code[0].format == Format.Export && code[0].expTarget == second.eighth + 2 * second.middle &&
            code[0].expEn == cut.enabled && code[0].source0 == cut.s0 && code[0].source1 == cut.s1 &&
            code[0].vsrc2 == cut.s2 && code[0].vsrc3 == cut.s3
  {
    var p := ExportCode(cut, second);
    var i := InstructionOf(p);
    assert WordsOf(p) == [cut.Word(), second.Word()];
    hide First, InstructionOf, WordsOf, ExportCut.Word, Second.Word;
    FirstDecodes(p, []);
    var words := WordsOf(p);
    assert words + [] == words && First(words) == (i, 2) && words[2..] == [];
    assert DecodeAll([]) == [];
    assert DecodeAll(words) == [i];
  }

  lemma ColourWords()
    ensures ExportCut(15, 0, 0, 1, 2, 3, 0).Valid() && ExportCut(15, 0, 0, 1, 2, 3, 0).Word() == 0xF832_100F
    ensures Second(0, 0, 0, 0, 0, 0).Valid() && Second(0, 0, 0, 0, 0, 0).Word() == 0
  {
  }

  /** v0 to v3 exported to the first colour, all components on. */
  lemma ColourExport()
    ensures var code := DecodeAll([0xF832_100F, 0]);
            |code| == 1 && code[0].format == Format.Export && code[0].expTarget == 0 && code[0].expEn == 15 &&
            code[0].source0 == 0 && code[0].source1 == 1 && code[0].vsrc2 == 2 && code[0].vsrc3 == 3
  {
    hide DecodeAll, ExportCut.Word, Second.Word;
    ColourWords();
    ExportRead(ExportCut(15, 0, 0, 1, 2, 3, 0), Second(0, 0, 0, 0, 0, 0));
  }

  /** What would be taken for a program end, whether or not a word decodes to it: opcode
      1, or opcode 2 with a 16-bit offset that is zero or negative. */
  lemma ProgramEnds(i: Instruction, offset: nat, above: nat)
    requires offset < 0x1_0000 && i.word == offset + 0x1_0000 * above
    ensures EndsProgram(i) <==> i.format == Sopp && (i.opcode == 1 || (i.opcode == 2 && (offset == 0 || offset >= 0x8000)))
  {
    AllPowers();
    assert Pow2(15) == 0x8000;
    hide Field, Pow2;
    FieldIs(i.word, 0, 16, 1, 0x1_0000, 0, offset, above);
    FieldIs(i.word, 15, 1, 0x8000, 2, offset % 0x8000, offset / 0x8000, above);
  }

  // ---- Fields that overlap --------------------------------------------------------------------------

  predicate HasScalarWord(opcode: Word, source0: Word, source1: Word, destination: Word) {
    exists w: Word :: Decode(w).format == Sop2 && Decode(w).opcode == opcode && Decode(w).source0 == source0 &&
                      Decode(w).source1 == source1 && Decode(w).destination == destination
  }

  /** The opcode of a scalar instruction shares two bits with source 1 and six with the
      destination, so a word for given fields exists only when they agree there. */
  lemma ScalarWordIff(opcode: Word, source0: Word, source1: Word, destination: Word)
    requires opcode < 0x100 && source0 < 0x200 && source1 < 0x200 && destination < 0x100
    ensures HasScalarWord(opcode, source0, source1, destination) <==>
              opcode % 4 == source1 / 0x80 && opcode / 4 == destination % 0x40
  {
    hide Decode, Cut.Word;
    if HasScalarWord(opcode, source0, source1, destination) {
      var w: Word :| Decode(w).format == Sop2 && Decode(w).opcode == opcode && Decode(w).source0 == source0 &&
                     Decode(w).source1 == source1 && Decode(w).destination == destination;
      var cut := CutOf(w);
      if cut.Kind() == Format.Export { ExportKind(cut); } else { WordDecodes(cut); }
      hide Cut.Kind;
      OverlapParts(cut.b, cut.c, cut.d, cut.e);
    }
    if opcode % 4 == source1 / 0x80 && opcode / 4 == destination % 0x40 {
      ScalarWord(opcode, source0, source1, destination);
    }
  }

  lemma OverlapParts(b: int, c: int, d: int, e: int)
    requires 0 <= b < 0x80 && 0 <= c < 4 && 0 <= d < 0x40 && 0 <= e
    ensures (c + 4 * d) % 4 == c == (b + 0x80 * c) / 0x80 && (c + 4 * d) / 4 == d == (d + 0x40 * e) % 0x40
  {
    QuotientIs(d + 0x40 * e, e, d, 0x40);
  }

  lemma ScalarWord(opcode: Word, source0: Word, source1: Word, destination: Word)
    requires opcode < 0x100 && source0 < 0x200 && source1 < 0x200 && destination < 0x100
    requires opcode % 4 == source1 / 0x80 && opcode / 4 == destination % 0x40
    ensures HasScalarWord(opcode, source0, source1, destination)
  {
    hide Decode, Cut.Word;
    var cut := Cut(source0, source1 % 0x80, opcode % 4, opcode / 4, destination / 0x40, 0x20);
    WordDecodes(cut);
    var i := Decode(cut.Word());
    assert i.format == Sop2 && i.opcode == opcode && i.source0 == source0 && i.source1 == source1;
    assert i.destination == destination;
  }

  lemma ExportKind(cut: Cut)
    requires cut.Valid() && cut.Kind() == Format.Export
    ensures Decode(cut.Word()).format == Format.Export
  {
    FormatDecodes(cut);
    hide Field, FormatOf, Cut.Word;
  }
}
