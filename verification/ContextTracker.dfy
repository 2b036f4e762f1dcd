/** Decoding of context registers: each write decodes the unit it belongs to, and
    the result is what decoding the whole register file at once would give. */
module ContextTracker {

  import opened Arithmetic

  type Word = w: int | 0 <= w < 0x1_0000_0000

  const REGISTERS := 0xB000
  const COLOR_BASE := 0xA318
  const COLOR_PITCH := 0xA319
  const COLOR_SIZE := 0xA31B
  const COLOR_INFO := 0xA31C
  const DEPTH_INFO := 0xA010
  const STENCIL_INFO := 0xA011
  const DEPTH_READ_BASE := 0xA012
  const BLEND_BASE := 0xA340
  const VIEWPORT_BASE := 0xA2A1
  const SCREEN_SCISSOR := 0xA200

  // A float given by its bits, or as the exact value of a small integer.
  datatype Float = Bits(bits: Word) | Exact(value: nat)

  datatype Format = Rgba8Unorm | Bgra8Unorm | Bgra8Srgb | Bc1 | Bc2 | Bc3 | Rgba8Uint | Rgba16Float | Rgba32Float |
    Depth32Float | Depth24Stencil8

  datatype BlendFactor = Zero | One | SrcColor | OneMinusSrcColor | SrcAlpha | OneMinusSrcAlpha |
    DstAlpha | OneMinusDstAlpha | DstColor | OneMinusDstColor

  datatype Target = Target(base: nat, pitch: Word, width: nat, height: nat, format: Format)

  datatype Depth = Depth(base: nat, format: Format, test: bool, write: bool, compare: nat, stencil: bool)

  datatype Blend = Blend(enable: bool, srcColor: BlendFactor, dstColor: BlendFactor, colorOp: nat,
                         srcAlpha: BlendFactor, dstAlpha: BlendFactor, alphaOp: nat)

  datatype Viewport = Viewport(x: Float, y: Float, width: Float, height: Float, minDepth: Float, maxDepth: Float)

  type Registers = s: seq<Word> | |s| == REGISTERS witness seq(REGISTERS, _ => 0)
  type Blends = s: seq<Blend> | |s| == 8 witness seq(8, _ => DEFAULT_BLEND)
  type Viewports = s: seq<Viewport> | |s| == 16 witness seq(16, _ => DEFAULT_VIEWPORT)

  const DEFAULT_TARGET := Target(0, 0, 0, 0, Rgba8Unorm)
  const DEFAULT_DEPTH := Depth(0, Depth32Float, false, false, 3, false)
  const DEFAULT_BLEND := Blend(false, One, Zero, 0, One, Zero, 0)
  const DEFAULT_VIEWPORT := Viewport(Bits(0), Bits(0), Bits(0), Bits(0), Bits(0), ONE)
  const ONE := Bits(0x3F80_0000)

  datatype Tracker = Tracker(regs: Registers, shRegs: Registers, color: Target, depth: Depth,
                             blends: Blends, viewports: Viewports, dirty: bool)

  function Cleared(): Registers {
    seq(REGISTERS, _ => 0)
  }

  function Fresh(): Tracker {
    Tracker(Cleared(), Cleared(), DEFAULT_TARGET, DEFAULT_DEPTH,
            seq(8, _ => DEFAULT_BLEND), seq(16, _ => DEFAULT_VIEWPORT), true)
  }

  // The field of `width` bits from bit `low` on, as a power of two and a modulus.
  function Field(w: Word, low: nat, width: nat): nat
    requires low > 0 && width > 0
  {
    w / low % width
  }

  // ---- Decoders ----------------------------------------------------------------------------

  function ColorFormat(data: nat, num: nat): Format {
    if data == 0x08 then (if num == 0 then Bgra8Unorm else Bgra8Srgb)
    else if data == 0x0A then Bc1
    else if data == 0x0B then Bc2
    else if data == 0x0C then Bc3
    else if data == 0x1A then (if num == 4 then Rgba8Uint else Rgba8Unorm)
    else if data == 0x35 then Rgba16Float
    else if data == 0x39 then Rgba32Float
    else Rgba8Unorm
  }

  function Factor(value: nat): BlendFactor {
    match value % 32
    case 0 => Zero
    case 1 => One
    case 2 => SrcColor
    case 3 => OneMinusSrcColor
    case 4 => SrcAlpha
    case 5 => OneMinusSrcAlpha
    case 6 => DstAlpha
    case 7 => OneMinusDstAlpha
    case 8 => DstColor
    case 9 => OneMinusDstColor
    case _ => One
  }

  // All bits above the field take part, as in the code.
  function BlendOp(value: nat): nat {
    if value <= 4 then value else 0
  }

  function DecodeColor(r: Registers): Target {
    Target((r[COLOR_BASE] as int) * 256, ((r[COLOR_PITCH] as int) + 1) * 256 % 0x1_0000_0000,
           Field(r[COLOR_SIZE], 0x1_0000, 0x4000) + 1, Field(r[COLOR_SIZE], 1, 0x4000) + 1,
           ColorFormat(Field(r[COLOR_INFO], 4, 64), Field(r[COLOR_INFO], 256, 4)))
  }

  function DecodeDepth(r: Registers): Depth {
    var info := r[DEPTH_INFO];
    Depth((r[DEPTH_READ_BASE] as int) * 256, if Field(info, 1, 16) == 0 then Depth32Float else Depth24Stencil8,
          Field(info, 1, 2) != 0, Field(info, 2, 2) != 0, Field(info, 16, 8), Field(r[STENCIL_INFO], 1, 16) != 0)
  }

  function DecodeBlend(r: Registers, i: nat): Blend
    requires i < 8
  {
    var control := r[BLEND_BASE + i * 2];
    Blend(control % 2 != 0, Factor(control / 16), Factor(control / 256), BlendOp(control / 4096),
          Factor(control / 0x1_0000), Factor(control / 0x10_0000), BlendOp(control / 0x100_0000))
  }

  // Both zeros of the format compare equal to zero.
  predicate IsZero(w: Word) {
    w == 0 || w == 0x8000_0000
  }

  function DecodeViewport(r: Registers, i: nat): Viewport
    requires i < 16
  {
    var base := VIEWPORT_BASE + i * 6;
    Viewport(Bits(r[base + 2]), Bits(r[base + 3]), Bits(r[base]), Bits(r[base + 1]), Bits(r[base + 4]),
             if IsZero(r[base + 5]) then ONE else Bits(r[base + 5]))
  }

  // ---- What the decoders find, from the encoder's side -----------------------------------------

  lemma FieldBack(low: nat, width: nat, below: nat, field: nat, above: nat, w: Word)
    requires 0 < low && 0 < width && below < low && field < width && w == below + low * (field + width * above)
    ensures Field(w, low, width) == field
  {
    QuotientIs(w, field + width * above, below, low);
    QuotientIs(field + width * above, above, field, width);
  }

  // The format of each pair of codes, as a list: 0x1A is an integer format for number
  // format 4 only, and what is not listed is the default.
  predicate IsFormat(data: nat, num: nat, format: Format) {
    format == if (data, num) == (0x08, 0) then Bgra8Unorm
              else if (data, num) in {(0x08, 1), (0x08, 2), (0x08, 3)} then Bgra8Srgb
              else if data in {0x0A, 0x0B, 0x0C} then [Bc1, Bc2, Bc3][data - 0x0A]
              else if data == 0x35 then Rgba16Float
              else if data == 0x39 then Rgba32Float
              else Rgba8Unorm
  }

  /** A colour target packed into its registers, with any bits around the fields, is
      decoded to its own address, pitch, extent and format; the integer format is never
      found, as the number format has two bits. */
  lemma ColorUnpacks(r: Registers, width: nat, height: nat, data: nat, num: nat, a: nat, b: nat, c: nat)
    requires 1 <= width <= 0x4000 && 1 <= height <= 0x4000 && data < 64 && num < 4 && a < 4 && b < 4
    requires r[0xA31B] == height - 1 + 0x4000 * a + 0x1_0000 * (width - 1 + 0x4000 * b)
    requires r[0xA31C] == b + 4 * data + 256 * (num + 4 * c)
    ensures var t := DecodeColor(r);
            && t.base == (r[0xA318] as int) * 256
            && (r[0xA319] < 0xFF_FFFF ==> t.pitch == (r[0xA319] as int) * 256 + 256)
            && t.width == width && t.height == height && IsFormat(data, num, t.format) && t.format != Rgba8Uint
  {
    FieldBack(0x1_0000, 0x4000, height - 1 + 0x4000 * a, width - 1, b, r[COLOR_SIZE]);
    FieldBack(1, 0x4000, 0, height - 1, a + 4 * (width - 1 + 0x4000 * b), r[COLOR_SIZE]);
    FieldBack(4, 64, b, data, num + 4 * c, r[COLOR_INFO]);
    FieldBack(256, 4, b + 4 * data, num, c, r[COLOR_INFO]);
  }

  /** Depth and stencil state packed into their registers is decoded bit by bit. */
  lemma DepthUnpacks(r: Registers, test: bool, write: bool, high: nat, compare: nat, above: nat, stencil: nat, rest: nat)
    requires compare < 8 && high < 4 && stencil < 16 && r[0xA011] == stencil + 16 * rest
    requires r[0xA010] == (if test then 1 else 0) + 2 * ((if write then 1 else 0) + 2 * high) + 16 * (compare + 8 * above)
    ensures var d := DecodeDepth(r);
            && d.base == (r[0xA012] as int) * 256 && d.test == test && d.write == write && d.compare == compare
            && (d.stencil <==> stencil != 0)
            && d.format == (if !test && !write && high == 0 then Depth32Float else Depth24Stencil8)
  {
    var t, w := if test then 1 else 0, if write then 1 else 0;
    var low := t + 2 * (w + 2 * high);
    FieldBack(16, 8, low, compare, above, r[DEPTH_INFO]);
    FieldBack(2, 2, t, w, high + 4 * (compare + 8 * above), r[DEPTH_INFO]);
    FieldBack(1, 2, 0, t, w + 2 * high + 8 * (compare + 8 * above), r[DEPTH_INFO]);
    FieldBack(1, 16, 0, low, compare + 8 * above, r[DEPTH_INFO]);
    FieldBack(1, 16, 0, stencil, rest, r[STENCIL_INFO]);
  }

  /** A blend control, cut into an enable bit, three bits and four-bit codes: its
      operations are masked by nothing, and its factors by five bits, so a code whose
      right neighbour is odd is lost. */
  datatype Control = Control(enable: bool, low: nat, src: nat, dst: nat, op: nat, srcAlpha: nat, dstAlpha: nat, alphaOp: nat) {
    predicate Valid() {
      && low < 8 && src < 16 && dst < 16 && op < 16 && srcAlpha < 16 && dstAlpha < 16 && alphaOp < 256
    }

    function Word(): Word
      requires Valid()
    {
      (if enable then 1 else 0) + 2 * low + 16 * src + 256 * dst + 4096 * op +
      0x1_0000 * srcAlpha + 0x10_0000 * dstAlpha + 0x100_0000 * alphaOp
    }
  }

  const FACTORS := [Zero, One, SrcColor, OneMinusSrcColor, SrcAlpha, OneMinusSrcAlpha,
                    DstAlpha, OneMinusDstAlpha, DstColor, OneMinusDstColor]

  // The factor a code stands for, beside the field to its left.
  function FactorBeside(code: nat, left: nat): BlendFactor {
    if left % 2 == 0 && code < |FACTORS| then FACTORS[code] else One
  }

  lemma FactorIs(code: nat, left: nat, value: nat)
    requires code < 16 && value % 32 == code + 16 * (left % 2)
    ensures Factor(value) == FactorBeside(code, left)
  {
  }

  lemma LowBits(value: nat, code: nat, left: nat)
    requires code < 16 && value == code + 16 * left
    ensures value % 32 == code + 16 * (left % 2)
  {
    QuotientIs(value, left / 2, code + 16 * (left % 2), 32);
  }

  // What stands from each code on, as the quotients that decoding takes.
  lemma ControlParts(c: Control)
    requires c.Valid()
    ensures var w, from16 := c.Word(), c.srcAlpha + 16 * (c.dstAlpha + 16 * c.alphaOp);
            && w % 2 == (if c.enable then 1 else 0)
            && w / 16 == c.src + 16 * (c.dst + 16 * (c.op + 16 * from16)) && w / 256 == c.dst + 16 * (c.op + 16 * from16)
            && w / 4096 == c.op + 16 * from16 && w / 0x1_0000 == from16
            && w / 0x10_0000 == c.dstAlpha + 16 * c.alphaOp && w / 0x100_0000 == c.alphaOp
  {
    var w: int := c.Word();
    var from16 := c.srcAlpha + 16 * (c.dstAlpha + 16 * c.alphaOp);
    var from8 := c.dst + 16 * (c.op + 16 * from16);
    var bit: nat := if c.enable then 1 else 0;
    var to4 := bit + 2 * c.low;
    var to8 := to4 + 16 * c.src;
    var to12 := to8 + 256 * c.dst;
    var to16 := to12 + 4096 * c.op;
    QuotientIs(w, c.low + 8 * (c.src + 16 * from8), bit, 2);
    QuotientIs(w, c.src + 16 * from8, to4, 16);
    QuotientIs(w, from8, to8, 256);
    QuotientIs(w, c.op + 16 * from16, to12, 4096);
    QuotientIs(w, from16, to16, 0x1_0000);
    QuotientIs(w, c.dstAlpha + 16 * c.alphaOp, to16 + 0x1_0000 * c.srcAlpha, 0x10_0000);
    QuotientIs(w, c.alphaOp, to16 + 0x1_0000 * (c.srcAlpha + 16 * c.dstAlpha), 0x100_0000);
  }

  lemma FactorDecodes(value: nat, code: nat, left: nat, more: nat)
    requires code < 16 && value == code + 16 * (left + 16 * more)
    ensures Factor(value) == FactorBeside(code, left)
  {
    LowBits(value, code, left + 16 * more);
    assert (left + 16 * more) % 2 == left % 2;
    FactorIs(code, left, value);
  }

  /** What is decoded from a packed blend control: each factor exactly when the field to
      its left is even, and otherwise the factor One; the operations exactly when nothing
      is set to their left. */
  lemma BlendUnpacks(r: Registers, i: nat, c: Control)
    requires i < 8 && c.Valid() && r[0xA340 + 2 * i] == c.Word()
    ensures DecodeBlend(r, i) ==
            Blend(c.enable, FactorBeside(c.src, c.dst), FactorBeside(c.dst, c.op),
                  if c.srcAlpha == c.dstAlpha == c.alphaOp == 0 && c.op <= 4 then c.op else 0,
                  FactorBeside(c.srcAlpha, c.dstAlpha), FactorBeside(c.dstAlpha, c.alphaOp),
                  if c.alphaOp <= 4 then c.alphaOp else 0)
  {
    hide Factor, FactorBeside, BlendOp, Control.Word;
    ControlParts(c);
    var from16 := c.srcAlpha + 16 * (c.dstAlpha + 16 * c.alphaOp);
    var w: int := c.Word();
    FactorDecodes(w / 16, c.src, c.dst, c.op + 16 * from16);
    FactorDecodes(w / 256, c.dst, c.op, from16);
    FactorDecodes(w / 0x1_0000, c.srcAlpha, c.dstAlpha, c.alphaOp);
    DirectFactor(w / 0x10_0000, c.dstAlpha, c.alphaOp);
    OpDecodes(w / 4096, c.op, from16);
    OpDecodes(w / 0x100_0000, c.alphaOp, 0);
    assert from16 == 0 <==> c.srcAlpha == c.dstAlpha == c.alphaOp == 0;
  }

  lemma OpDecodes(value: nat, op: nat, left: nat)
    requires value == op + 16 * left
    ensures BlendOp(value) == if left == 0 && op <= 4 then op else 0
  {
  }

  lemma DirectFactor(value: nat, code: nat, left: nat)
    requires code < 16 && value == code + 16 * left
    ensures Factor(value) == FactorBeside(code, left)
  {
    LowBits(value, code, left);
    FactorIs(code, left, value);
  }

  /** The usual transparency, source alpha and one minus source alpha, is decoded with
      source factor One. */
  lemma TransparencyIsLost(r: Registers)
    requires r[0xA340] == 0x541
    ensures DecodeBlend(r, 0).srcColor == One && DecodeBlend(r, 0).dstColor == OneMinusSrcAlpha
  {
    BlendUnpacks(r, 0, Control(true, 0, 4, 5, 0, 0, 0, 0));
  }

  /** Viewport i is made of six registers: its size, its corner and its depth range, in
      which a far end that is zero of either sign becomes 1. */
  lemma ViewportUnpacks(r: Registers, i: nat)
    requires i < 16
    ensures var v, base := DecodeViewport(r, i), 0xA2A1 + 6 * i;
            && v.width == Bits(r[base]) && v.height == Bits(r[base + 1])
            && v.x == Bits(r[base + 2]) && v.y == Bits(r[base + 3]) && v.minDepth == Bits(r[base + 4])
            && v.maxDepth == Bits(if r[base + 5] % 0x8000_0000 == 0 then 0x3F80_0000 else r[base + 5])
  {
  }

  /** The colour operation of a blend control is found exactly when nothing is set
      above its four bits; any alpha field set makes it an addition. */
  lemma ColorOpExact(r: Registers, i: nat, low: nat, op: nat, alpha: nat)
    requires i < 8 && low < 4096 && op < 16 && r[BLEND_BASE + i * 2] == low + 4096 * (op + 16 * alpha)
    ensures DecodeBlend(r, i).colorOp == if alpha == 0 && op <= 4 then op else 0
  {
    var control: int := r[BLEND_BASE + i * 2];
    QuotientIs(control, op + 16 * alpha, low, 4096);
  }

  // ---- Which unit a register belongs to -------------------------------------------------------

  predicate TouchesColor(offset: int) {
    offset == COLOR_BASE || offset == COLOR_PITCH || offset == COLOR_SIZE || offset == COLOR_INFO
  }

  predicate TouchesDepth(offset: int) {
    offset == DEPTH_INFO || offset == STENCIL_INFO || offset == DEPTH_READ_BASE
  }

  predicate TouchesBlend(offset: int, i: int) {
    BLEND_BASE + i * 2 <= offset < BLEND_BASE + i * 2 + 2
  }

  predicate TouchesViewport(offset: int, i: int) {
    VIEWPORT_BASE + i * 6 <= offset < VIEWPORT_BASE + i * 6 + 6
  }

  // ---- One write ------------------------------------------------------------------------------

  // The size of a viewport replaced, each part unless the new one is zero.
  function Resized(v: Viewport, width: nat, height: nat): Viewport {
    v.(width := if width != 0 then Exact(width) else v.width, height := if height != 0 then Exact(height) else v.height)
  }

  // What a scissor write does to viewport 0.
  function Scissored(v: Viewport, value: Word): Viewport {
    Resized(v, Field(value, 0x1_0000, 0x1_0000), Field(value, 1, 0x1_0000))
  }

  function SetContextReg(t: Tracker, offset: Word, value: Word): Tracker {
    if offset >= REGISTERS then t
    else
      var regs := t.regs[offset := value];
      var viewports := if VIEWPORT_BASE <= offset < VIEWPORT_BASE + 96
                       then t.viewports[(offset - VIEWPORT_BASE) / 6 := DecodeViewport(regs, (offset - VIEWPORT_BASE) / 6)]
                       else t.viewports;
      t.(regs := regs, dirty := true,
         color := if TouchesColor(offset) then DecodeColor(regs) else t.color,
         depth := if TouchesDepth(offset) then DecodeDepth(regs) else t.depth,
         blends := if BLEND_BASE <= offset < BLEND_BASE + 16
                   then t.blends[(offset - BLEND_BASE) / 2 := DecodeBlend(regs, (offset - BLEND_BASE) / 2)]
                   else t.blends,
         viewports := if offset == SCREEN_SCISSOR then viewports[0 := Scissored(viewports[0], value)] else viewports)
  }

  function SetShReg(t: Tracker, offset: Word, value: Word): Tracker {
    if offset >= REGISTERS then t else t.(shRegs := t.shRegs[offset := value], dirty := true)
  }

  /** A scissor write of a packed size replaces the size of viewport 0, each part unless
      it is zero, and touches no other unit. */
  lemma ScissorActs(t: Tracker, width: nat, height: nat)
    requires width < 0x1_0000 && height < 0x1_0000
    ensures var t', v := SetContextReg(t, 0xA200, 0x1_0000 * width + height), t.viewports[0];
            && t'.viewports == t.viewports[0 := Viewport(v.x, v.y, if width == 0 then v.width else Exact(width),
                                                         if height == 0 then v.height else Exact(height), v.minDepth, v.maxDepth)]
            && t'.color == t.color && t'.depth == t.depth && t'.blends == t.blends
  {
    FieldBack(0x1_0000, 0x1_0000, height, width, 0, 0x1_0000 * width + height);
    FieldBack(1, 0x1_0000, 0, height, width, 0x1_0000 * width + height);
    hide Field, DecodeColor, DecodeDepth, DecodeBlend, DecodeViewport;
  }

  /** Registers from 0xB000 on do not exist: writing one changes nothing. */
  lemma BeyondTheFile(t: Tracker, offset: Word, value: Word)
    ensures offset >= 0xB000 ==> SetContextReg(t, offset, value) == t && SetShReg(t, offset, value) == t
    ensures offset < 0xB000 ==> SetContextReg(t, offset, value).regs == t.regs[offset := value] &&
                                SetShReg(t, offset, value).shRegs == t.shRegs[offset := value]
  {
  }

  datatype Write = Write(offset: Word, value: Word)

  function After(writes: seq<Write>): Tracker {
    if writes == [] then Fresh()
    else SetContextReg(After(writes[..|writes| - 1]), writes[|writes| - 1].offset, writes[|writes| - 1].value)
  }

  // ---- Incremental and batch decoding agree ----------------------------------------------------

  predicate WroteColor(writes: seq<Write>) {
    exists k :: 0 <= k < |writes| && TouchesColor(writes[k].offset)
  }

  predicate WroteDepth(writes: seq<Write>) {
    exists k :: 0 <= k < |writes| && TouchesDepth(writes[k].offset)
  }

  predicate WroteBlend(writes: seq<Write>, i: int) {
    exists k :: 0 <= k < |writes| && TouchesBlend(writes[k].offset, i)
  }

  predicate WroteViewport(writes: seq<Write>, i: int) {
    exists k :: 0 <= k < |writes| && TouchesViewport(writes[k].offset, i)
  }

  // The last scissor size that no later write to viewport 0 has overwritten.
  function ScissorSize(writes: seq<Write>, low: nat): nat
    requires low > 0
  {
    if writes == [] then 0
    else
      var w := writes[|writes| - 1];
      var earlier := ScissorSize(writes[..|writes| - 1], low);
      if TouchesViewport(w.offset, 0) then 0
      else if w.offset == SCREEN_SCISSOR && Field(w.value, low, 0x1_0000) != 0 then Field(w.value, low, 0x1_0000)
      else earlier
  }

  // Each unit from the final registers, when it was written at all.
  function BatchColor(writes: seq<Write>, regs: Registers): Target {
    if WroteColor(writes) then DecodeColor(regs) else DEFAULT_TARGET
  }

  function BatchDepth(writes: seq<Write>, regs: Registers): Depth {
    if WroteDepth(writes) then DecodeDepth(regs) else DEFAULT_DEPTH
  }

  function BatchBlend(writes: seq<Write>, regs: Registers, i: nat): Blend
    requires i < 8
  {
    if WroteBlend(writes, i) then DecodeBlend(regs, i) else DEFAULT_BLEND
  }

  function BatchViewport(writes: seq<Write>, regs: Registers, i: nat): Viewport
    requires i < 16
  {
    if i == 0
    then Resized(PlainViewport(writes, regs, 0), ScissorSize(writes, 0x1_0000), ScissorSize(writes, 1))
    else PlainViewport(writes, regs, i)
  }

  function PlainViewport(writes: seq<Write>, regs: Registers, i: nat): Viewport
    requires i < 16
  {
    if WroteViewport(writes, i) then DecodeViewport(regs, i) else DEFAULT_VIEWPORT
  }

  lemma ColorMore(writes: seq<Write>, w: Write)
    ensures WroteColor(writes + [w]) <==> WroteColor(writes) || TouchesColor(w.offset)
  {
    var more := writes + [w];
    assert more[|writes|] == w;
    assert forall k :: 0 <= k < |writes| ==> more[k] == writes[k];
  }

  lemma DepthMore(writes: seq<Write>, w: Write)
    ensures WroteDepth(writes + [w]) <==> WroteDepth(writes) || TouchesDepth(w.offset)
  {
    var more := writes + [w];
    assert more[|writes|] == w;
    assert forall k :: 0 <= k < |writes| ==> more[k] == writes[k];
  }

  lemma BlendMore(writes: seq<Write>, w: Write, i: int)
    ensures WroteBlend(writes + [w], i) <==> WroteBlend(writes, i) || TouchesBlend(w.offset, i)
  {
    var more := writes + [w];
    assert more[|writes|] == w;
    assert forall k :: 0 <= k < |writes| ==> more[k] == writes[k];
  }

  lemma ViewportMore(writes: seq<Write>, w: Write, i: int)
    ensures WroteViewport(writes + [w], i) <==> WroteViewport(writes, i) || TouchesViewport(w.offset, i)
  {
    var more := writes + [w];
    assert more[|writes|] == w;
    assert forall k :: 0 <= k < |writes| ==> more[k] == writes[k];
  }

  // What one write does to one unit; a write elsewhere changes none of its registers.
  lemma StepTargets(t: Tracker, w: Write)
    ensures var t' := SetContextReg(t, w.offset, w.value);
            && t'.color == (if TouchesColor(w.offset) then DecodeColor(t'.regs) else t.color)
            && t'.depth == (if TouchesDepth(w.offset) then DecodeDepth(t'.regs) else t.depth)
            && (!TouchesColor(w.offset) ==> DecodeColor(t'.regs) == DecodeColor(t.regs))
            && (!TouchesDepth(w.offset) ==> DecodeDepth(t'.regs) == DecodeDepth(t.regs))
  {
    hide ColorFormat, Field;
  }

  lemma StepBlend(t: Tracker, w: Write, i: nat)
    requires i < 8
    ensures var t' := SetContextReg(t, w.offset, w.value);
            && t'.blends[i] == (if TouchesBlend(w.offset, i) then DecodeBlend(t'.regs, i) else t.blends[i])
            && (!TouchesBlend(w.offset, i) ==> DecodeBlend(t'.regs, i) == DecodeBlend(t.regs, i))
  {
    hide Factor, BlendOp, DecodeViewport, DecodeColor, DecodeDepth;
  }

  lemma StepViewport(t: Tracker, w: Write, i: nat)
    requires i < 16
    ensures var t' := SetContextReg(t, w.offset, w.value);
            && t'.viewports[i] == (if TouchesViewport(w.offset, i) then DecodeViewport(t'.regs, i)
                                   else if i == 0 && w.offset == SCREEN_SCISSOR then Scissored(t.viewports[0], w.value)
                                   else t.viewports[i])
            && (!TouchesViewport(w.offset, i) ==> DecodeViewport(t'.regs, i) == DecodeViewport(t.regs, i))
  {
    hide DecodeBlend, DecodeColor, DecodeDepth, Scissored;
  }

  lemma {:induction false} TargetsBatch(writes: seq<Write>)
    ensures var t := After(writes);
            && t.color == BatchColor(writes, t.regs) && t.depth == BatchDepth(writes, t.regs)
            && t.dirty && t.shRegs == Cleared()
  {
    hide DecodeColor, DecodeDepth, WroteColor, WroteDepth, TouchesColor, TouchesDepth;
    if writes != [] {
      var before, w := writes[..|writes| - 1], writes[|writes| - 1];
      TargetsBatch(before);
      ColorMore(before, w);
      DepthMore(before, w);
      assert writes == before + [w];
      StepTargets(After(before), w);
    } else {
      NothingWritten();
    }
  }

  lemma NothingWritten()
    ensures !WroteColor([]) && !WroteDepth([])
    ensures After([]).color == Target(0, 0, 0, 0, Rgba8Unorm) && After([]).depth == Depth(0, Depth32Float, false, false, 3, false)
    ensures forall i :: 0 <= i < 8 ==> After([]).blends[i] == Blend(false, One, Zero, 0, One, Zero, 0)
    ensures forall i :: 0 <= i < 16 ==>
              After([]).viewports[i] == Viewport(Bits(0), Bits(0), Bits(0), Bits(0), Bits(0), Bits(0x3F80_0000))
  {
  }

  lemma {:induction false} BlendBatch(writes: seq<Write>, i: nat)
    requires i < 8
    ensures After(writes).blends[i] == BatchBlend(writes, After(writes).regs, i)
  {
    hide DecodeBlend, TouchesBlend, SetContextReg;
    if writes != [] {
      var before, w := writes[..|writes| - 1], writes[|writes| - 1];
      BlendBatch(before, i);
      BlendMore(before, w, i);
      assert writes == before + [w];
      StepBlend(After(before), w, i);
    }
  }

  lemma {:induction false} ViewportBatch(writes: seq<Write>, i: nat)
    requires i < 16
    ensures After(writes).viewports[i] == BatchViewport(writes, After(writes).regs, i)
  {
    hide DecodeViewport, SetContextReg, Field;
    if writes != [] {
      var before, w := writes[..|writes| - 1], writes[|writes| - 1];
      ViewportBatch(before, i);
      ViewportMore(before, w, i);
      assert writes == before + [w];
      StepViewport(After(before), w, i);
      hide WroteViewport;
    }
  }

  /** Decoding register by register gives what decoding the final registers at once
      gives: each unit is untouched, or decoded from them; only the size of
      viewport 0 also remembers the last scissor written after it. */
  lemma IncrementalIsBatch(writes: seq<Write>)
    ensures var t := After(writes);
            && t.color == BatchColor(writes, t.regs) && t.depth == BatchDepth(writes, t.regs)
            && (forall i: nat :: i < 8 ==> t.blends[i] == BatchBlend(writes, t.regs, i))
            && (forall i: nat :: i < 16 ==> t.viewports[i] == BatchViewport(writes, t.regs, i))
  {
    TargetsBatch(writes);
    forall i: nat | i < 8 ensures After(writes).blends[i] == BatchBlend(writes, After(writes).regs, i) {
      BlendBatch(writes, i);
    }
    forall i: nat | i < 16 ensures After(writes).viewports[i] == BatchViewport(writes, After(writes).regs, i) {
      ViewportBatch(writes, i);
    }
  }

  predicate NoScissor(writes: seq<Write>) {
    forall k :: 0 <= k < |writes| ==> writes[k].offset != SCREEN_SCISSOR
  }

  // The same units have been written.
  ghost predicate SameUnits(a: seq<Write>, b: seq<Write>) {
    && WroteColor(a) == WroteColor(b) && WroteDepth(a) == WroteDepth(b)
    && (forall i: nat :: i < 8 ==> WroteBlend(a, i) == WroteBlend(b, i))
    && (forall i: nat :: i < 16 ==> WroteViewport(a, i) == WroteViewport(b, i))
  }

  lemma {:induction false} NoScissorSize(writes: seq<Write>, low: nat)
    requires NoScissor(writes) && low > 0
    ensures ScissorSize(writes, low) == 0
  {
    if writes != [] { NoScissorSize(writes[..|writes| - 1], low); }
  }

  /** Without scissor writes the order and the history do not matter: two
      sequences that touch the same units and end with the same registers end
      with the same decoded state. */
  lemma HistoryIsIrrelevant(a: seq<Write>, b: seq<Write>)
    requires NoScissor(a) && NoScissor(b) && SameUnits(a, b) && After(a).regs == After(b).regs
    ensures After(a) == After(b)
  {
    IncrementalIsBatch(a);
    IncrementalIsBatch(b);
    NoScissorSize(a, 1);
    NoScissorSize(a, 0x1_0000);
    NoScissorSize(b, 1);
    NoScissorSize(b, 0x1_0000);
    TargetsBatch(a);
    TargetsBatch(b);
    hide After, DecodeBlend, DecodeColor, DecodeDepth, DecodeViewport, WroteBlend, WroteViewport, WroteColor, WroteDepth, ScissorSize;
    var s, t := After(a), After(b);
    assert s.blends == t.blends;
    assert s.viewports == t.viewports;
  }

  lemma {:induction false} RegistersAfter(writes: seq<Write>, offset: nat)
    requires offset < REGISTERS
    ensures After(writes).regs[offset] == LastValue(writes, offset)
  {
    if writes != [] { RegistersAfter(writes[..|writes| - 1], offset); }
  }

  // The value last written to a register.
  function LastValue(writes: seq<Write>, offset: nat): Word {
    if writes == [] then 0
    else if writes[|writes| - 1].offset == offset then writes[|writes| - 1].value
    else LastValue(writes[..|writes| - 1], offset)
  }

  // ---- The tracker object -------------------------------------------------------------------

  class RegisterTracker {
    const contextRegs: array<Word>
    const shRegs: array<Word>
    var color: Target
    var depth: Depth
    const blends: array<Blend>
    const viewports: array<Viewport>
    var dirty: bool

    ghost predicate Valid() {
      && contextRegs.Length == shRegs.Length == REGISTERS && blends.Length == 8 && viewports.Length == 16
      && contextRegs != shRegs
    }

    ghost function View(): Tracker
      requires Valid()
      reads this, contextRegs, shRegs, blends, viewports
    {
      Tracker(contextRegs[..], shRegs[..], color, depth, blends[..], viewports[..], dirty)
    }

    constructor ()
      ensures Valid() && View() == Fresh()
      ensures fresh(contextRegs) && fresh(shRegs) && fresh(blends) && fresh(viewports)
    {
      contextRegs := new Word[REGISTERS](_ => 0);
      shRegs := new Word[REGISTERS](_ => 0);
      blends := new Blend[8](_ => DEFAULT_BLEND);
      viewports := new Viewport[16](_ => DEFAULT_VIEWPORT);
      color, depth, dirty := DEFAULT_TARGET, DEFAULT_DEPTH, true;
      new;
      assert contextRegs[..] == Cleared() && shRegs[..] == Cleared();
      assert blends[..] == Fresh().blends && viewports[..] == Fresh().viewports;
    }

    /** Writes one register and decodes the unit it belongs to, in place. */
    method SetContext(offset: Word, value: Word)
      requires Valid()
      modifies this, contextRegs, blends, viewports
      ensures View() == SetContextReg(old(View()), offset, value)
    {
      hide DecodeColor, DecodeDepth, DecodeBlend, DecodeViewport, Field;
      if offset >= REGISTERS {
        return;
      }
      contextRegs[offset] := value;
      dirty := true;
      if TouchesColor(offset) {
        color := DecodeColor(contextRegs[..]);
      }
      if VIEWPORT_BASE <= offset < VIEWPORT_BASE + 96 {
        var index := (offset - VIEWPORT_BASE) / 6;
        viewports[index] := DecodeViewport(contextRegs[..], index);
      }
      if TouchesDepth(offset) {
        depth := DecodeDepth(contextRegs[..]);
      }
      if BLEND_BASE <= offset < BLEND_BASE + 16 {
        var index := (offset - BLEND_BASE) / 2;
        blends[index] := DecodeBlend(contextRegs[..], index);
      }
      if offset == SCREEN_SCISSOR {
        viewports[0] := Scissored(viewports[0], value);
      }
    }

    method SetShader(offset: Word, value: Word)
      requires Valid()
      modifies `dirty, shRegs
      ensures View() == SetShReg(old(View()), offset, value)
    {
      if offset >= REGISTERS {
        return;
      }
      shRegs[offset] := value;
      dirty := true;
    }
  }
}
