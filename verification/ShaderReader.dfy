/** What a reader of the SPIR-V standard finds in a translated module: where it
    returns, what its entry point is called, and which ids occur in it. */
module ShaderReader {
  import opened Common
  import opened GcnShader
  import opened ShaderEmission
  import opened ShaderSteps
  import opened ShaderStructure
  import opened ShaderTheorems
  import opened ShaderTranslation
  import opened SpirvMachine
  import opened SpirvModule

  // ---- Entry points --------------------------------------------------------------------------

  // A literal string ends in the word that holds its zero octet (SPIR-V
  // specification, section 2.2.1).
  predicate EndsLiteral(w: Word) {
    w % 0x100 == 0 || w / 0x100 % 0x100 == 0 || w / 0x1_0000 % 0x100 == 0 || w / 0x100_0000 == 0
  }

  function LiteralWords(words: seq<Word>): (r: nat)
    ensures r <= |words|
  {
    if words == [] then 0 else if EndsLiteral(words[0]) then 1 else 1 + LiteralWords(words[1..])
  }

  // The standard orders the operands of an entry point: execution model, function,
  // name, interface.
  function EntryTail(i: Ins): seq<Word> {
    if |i.operands| < 2 then [] else i.operands[2..]
  }

  function EntryName(i: Ins): seq<Word> {
    EntryTail(i)[..LiteralWords(EntryTail(i))]
  }

  function EntryInterface(i: Ins): seq<Word> {
    EntryTail(i)[LiteralWords(EntryTail(i))..]
  }

  const MAIN: seq<Word> := [0x6E69_616D, 0]

  function EntryPointOf(stage: Stage): Ins {
    EntryMode(stage)[|EntryMode(stage)| - 1]
  }

  lemma MainPacked()
    ensures PackString("main") == MAIN
  {
    assert "main"[4..] == "" && PackString("") == [0];
  }

  lemma EntryRead(stage: Stage)
    ensures var e := EntryPointOf(stage);
            match stage
            case Compute => EntryName(e) == MAIN && EntryInterface(e) == []
            case Vertex => EntryName(e) == [15] && EntryInterface(e) == MAIN
            case Fragment => EntryName(e) == [12] && EntryInterface(e) == MAIN
  {
    MainPacked();
    var e := EntryPointOf(stage);
    if stage == Compute {
      assert EntryTail(e) == MAIN && MAIN[1..] == [0];
      assert !EndsLiteral(0x6E69_616D) && LiteralWords([0]) == 1;
    } else {
      var variable: Word := if stage == Vertex then 15 else 12;
      assert EntryTail(e) == [variable] + MAIN;
    }
  }

  // ---- Where a module returns -------------------------------------------------------------------

  lemma {:induction false} ClosedIds(c: Code)
    requires Closed(c)
    ensures Ids(c) == Defs(c)
  {
    if c.Snoc? { ClosedIds(c.rest); }
  }

  function AnyEnv(stage: Stage): Env {
    Env(Alu((_, _) => 0, (_, _) => 0), _ => 0, stage, Registers(seq(104, _ => 0), seq(256, _ => 0), Scalar(0), Running))
  }

  lemma HeaderFits(stage: Stage, sample: bool)
    ensures var u := Open(Header(stage, sample)); Fits(u) && Clean(u) && u.nextId <= 32
  {
    hide Header, Open, Closed, Unique, AllEncodable, Matches, Agrees, Frame;
    HeaderReady(AnyEnv(stage), sample);
    HeaderFrame(stage, sample);
    var u := Open(Header(stage, sample));
    ClosedIds(u.code);
  }

  lemma BodyGrows(bytecode: seq<Word>, hint: Hint)
    requires |bytecode| < MAX_WORDS
    ensures var u := Body(bytecode, hint);
            && Fits(u) && Frame(u.code) == EntryMode(StageFor(bytecode, hint)) && u.nextId <= 32 + 16 * |bytecode|
            && (Clean(u) <==> !ReadsMemory(DecodeAll(bytecode)))
  {
    hide Fits, Clean, Frame, Header, Open, EmitInstructions, NeedsSample, EntryMode, DecodeAll, EndsProgram, ReadsMemory;
    var code := DecodeAll(bytecode);
    var stage := StageFor(bytecode, hint);
    NoEnd(bytecode);
    HeaderFits(stage, NeedsSample(code));
    HeaderFrame(stage, NeedsSample(code));
    InstructionsGrow(Open(Header(stage, NeedsSample(code))), code);
  }

  /** Every module, whatever its program, holds one entry point, one return and one
      function end; the return comes behind the code of the last instruction. */
  lemma ReturnsOnlyAtTheEnd(bytecode: seq<Word>, hint: Hint)
    requires |bytecode| < MAX_WORDS
    ensures var ret, end := Ins(OpReturn, []), Ins(OpFunctionEnd, []);
            && Translate(bytecode, hint).code == Snoc(Snoc(Body(bytecode, hint).code, ret), end)
            && Frame(Translate(bytecode, hint).code) == EntryMode(StageFor(bytecode, hint)) + [ret, end]
  {
    hide Body, EntryMode, StageFor, Clean;
    BodyGrows(bytecode, hint);
  }

  /** Read by the standard, the entry point is called main exactly in compute
      modules; in the others the output variable's id stands in front of the name. */
  lemma EntryPointIsMainIff(bytecode: seq<Word>, hint: Hint)
    requires |bytecode| < MAX_WORDS
    ensures var stage := StageFor(bytecode, hint);
            && EntryPointOf(stage) in Frame(Translate(bytecode, hint).code)
            && (forall i :: i in Frame(Translate(bytecode, hint).code) && i.op == OpEntryPoint ==> i == EntryPointOf(stage))
            && (EntryName(EntryPointOf(stage)) == PackString("main") <==> stage == Compute)
            && (stage != Compute ==> EntryInterface(EntryPointOf(stage)) == PackString("main"))
  {
    hide StageFor, Translate, Frame, Body, EntryName, EntryInterface, PackString;
    ReturnsOnlyAtTheEnd(bytecode, hint);
    EntryRead(StageFor(bytecode, hint));
    MainPacked();
  }

  // ---- The bound ----------------------------------------------------------------------------------

  // The ids that an entry point or an execution mode mentions.
  function ModeIds(i: Ins): set<Word> {
    if i.op == OpEntryPoint then AtOperand(i, 1) + (set id | id in EntryInterface(i))
    else if i.op == OpExecutionMode then AtOperand(i, 0)
    else {}
  }

  // Every id a module mentions, ahead of its definition or not, is in range.
  predicate IdsInRange(c: Code, bound: Word) {
    (forall id :: id in Ids(c) ==> 0 < id < bound) && ModesInRange(Frame(c), bound)
  }

  predicate ModesInRange(frame: seq<Ins>, bound: Word) {
    forall i, id :: i in frame && id in ModeIds(i) ==> 0 < id < bound
  }

  lemma ModesInRangeIff(stage: Stage, bound: Word)
    requires 20 <= bound
    ensures ModesInRange(EntryMode(stage) + [Ins(OpReturn, []), Ins(OpFunctionEnd, [])], bound) <==> stage == Compute
  {
    hide EntryInterface, PackString;
    EntryRead(stage);
    var e := EntryPointOf(stage);
    assert e in EntryMode(stage);
    if stage != Compute {
      assert MAIN[1] == 0 && 0 in ModeIds(e);
    }
  }

  lemma TranslateIds(bytecode: seq<Word>, hint: Hint)
    requires |bytecode| < MAX_WORDS
    ensures Ids(Translate(bytecode, hint).code) == Ids(Body(bytecode, hint).code)
    ensures Translate(bytecode, hint).nextId == Body(bytecode, hint).nextId
  {
    hide Body, Frame;
    ReturnsOnlyAtTheEnd(bytecode, hint);
    assert Occurring(Ins(OpReturn, [])) == {} && Occurring(Ins(OpFunctionEnd, [])) == {};
  }

  /** Every id that an instruction of a module defines or consumes is below the
      bound word, for all programs; all ids that occur are valid, entry points read
      by the standard included, exactly for compute programs without a scalar
      memory read. */
  lemma IdsInRangeIff(bytecode: seq<Word>, hint: Hint)
    requires |bytecode| < MAX_WORDS
    ensures var u := Translate(bytecode, hint);
            && (forall id :: id in Ids(u.code) ==> id < u.nextId)
            && (IdsInRange(u.code, u.nextId) <==>
                  StageFor(bytecode, hint) == Compute && !ReadsMemory(DecodeAll(bytecode)))
  {
    hide Body, Translate, Frame, StageFor, DecodeAll, ReadsMemory, EntryMode, ModesInRange;
    BodyGrows(bytecode, hint);
    TranslateIds(bytecode, hint);
    ReturnsOnlyAtTheEnd(bytecode, hint);
    ModesInRangeIff(StageFor(bytecode, hint), Body(bytecode, hint).nextId);
  }
}
