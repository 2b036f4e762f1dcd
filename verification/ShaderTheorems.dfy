/** The translator's two promises: the module means what the program means, and
    the module is well formed. */
module ShaderTheorems {
  import opened Common
  import opened GcnShader
  import opened ShaderEmission
  import opened ShaderSimulation
  import opened ShaderSteps
  import opened ShaderTranslation
  import opened SpirvMachine
  import opened SpirvModule

  // Below this many input words the 32-bit id counter cannot wrap.
  const MAX_WORDS := 0x1000_0000 - 2

  predicate AllSupported(stage: Stage, code: seq<Instruction>) {
    forall k :: 0 <= k < |code| ==> Supported(stage, code[k])
  }

  lemma {:induction false} BodyTranslates(env: Env, u: Unit, code: seq<Instruction>, r: Registers)
    requires Sim(env, u, r) && r.Valid() && u.nextId + 16 * |code| < TWO_32
    requires forall k :: 0 <= k < |code| ==> Samples(code[k]) ==> u.ids.image
    ensures var u' := EmitInstructions(u, code);
            Sim(env, u', ExecuteAll(env.alu, env.stage, code, r)) && u'.ids == u.ids &&
            u'.nextId <= u.nextId + 16 * |code| &&
            Closed(u'.code) == (Closed(u.code) && AllSupported(env.stage, code))
    decreases |code|
  {
    hide Sim, Closed, EmitInstruction, Execute, Samples, Supported;
    if code != [] {
      var n := |code| - 1;
      BodyTranslates(env, u, code[..n], r);
      var v, q := EmitInstructions(u, code[..n]), ExecuteAll(env.alu, env.stage, code[..n], r);
      InstructionTranslates(env, v, code[n], q);
      assert AllSupported(env.stage, code) <==> AllSupported(env.stage, code[..n]) && Supported(env.stage, code[n]);
    }
  }

  function StageFor(bytecode: seq<Word>, hint: Hint): Stage {
    StageOf(DecodeAll(bytecode), hint)
  }

  // The reference run of a program; running off its end returns.
  function Reference(alu: Alu, bytecode: seq<Word>, hint: Hint, start: Registers): (r: Registers)
    requires start.Valid()
    ensures r.Valid()
  {
    var r := ExecuteAll(alu, StageFor(bytecode, hint), DecodeAll(bytecode), start);
    if r.status.Running? then r.(status := Returned) else r
  }

  lemma CloseStep(env: Env, u: Unit, r: Registers)
    requires Sim(env, u, r) && r.Valid()
    ensures var u' := Close(u);
            AllEncodable(u'.code) && Unique(u'.code) && Defs(u'.code) == Defs(u.code) && u'.nextId == u.nextId &&
            Closed(u'.code) == Closed(u.code)
    ensures Agrees(env, u) ==>
              var m := Interpret(env, Close(u));
              && m.status == (if r.status.Running? then Returned else r.status)
              && m.vars == Interpret(env, u).vars
  {
    var ret, end := Ins(OpReturn, []), Ins(OpFunctionEnd, []);
    assert Results(ret) == {} && Results(end) == {} && Uses(ret) == {} && Uses(end) == {};
    if Agrees(env, u) {
      var m := Interpret(env, u);
      assert Matches(env, u, r);
      var t := if u.ended then u else Put(u, OpReturn, []);
      assert Interpret(env, t) == if u.ended then m else Step(env.alu, env.init, ret, m);
      assert Interpret(env, Close(u)) == Step(env.alu, env.init, end, Interpret(env, t));
      assert !Interpret(env, t).status.Running?;
    }
  }

  lemma ContentFollowsVars(init: Word -> Word, m: Machine, m': Machine, bank: Bank, now: seq<Word>, start: seq<Word>)
    requires m.vars == m'.vars && |now| == |start| && BankMatches(init, m, bank, now, start)
    ensures BankMatches(init, m', bank, now, start)
  {
  }

  lemma SamplesDeclared(code: seq<Instruction>)
    ensures forall k :: 0 <= k < |code| ==> Samples(code[k]) ==> NeedsSample(code)
  {
  }

  lemma BodyReady(env: Env, bytecode: seq<Word>, hint: Hint)
    requires |bytecode| < MAX_WORDS && env.stage == StageFor(bytecode, hint)
    requires env.start.Valid() && env.start.status.Running?
    ensures var u := Body(bytecode, hint);
            var code := DecodeAll(bytecode);
            Sim(env, u, ExecuteAll(env.alu, env.stage, code, env.start)) && u.nextId <= 32 + 16 * |bytecode| &&
            Closed(u.code) == AllSupported(env.stage, code)
  {
    hide Sim, Closed, EmitInstructions, Samples, NeedsSample, Supported, Header, Open, ExecuteAll, DecodeAll, StageOf,
         AllSupported;
    var code := DecodeAll(bytecode);
    SamplesDeclared(code);
    HeaderReady(env, NeedsSample(code));
    BodyTranslates(env, Open(Header(env.stage, NeedsSample(code))), code, env.start);
  }

  /** Meaning is preserved: for every program, every arithmetic and all initial
      contents, interpreting the module that a reader parses back leaves every
      register variable and the output variable equal to the reference run. */
  lemma TranslationPreservesMeaning(alu: Alu, init: Word -> Word, bytecode: seq<Word>, hint: Hint, start: Registers)
    requires |bytecode| < MAX_WORDS && start.Valid() && start.status.Running?
    requires Agrees(Env(alu, init, StageFor(bytecode, hint), start), Body(bytecode, hint))
    ensures var u := Translate(bytecode, hint);
            AllEncodable(u.code) && ParseOnto(Empty, Module(u)[5..]) == Some(u.code)
    ensures var u := Body(bytecode, hint);
            var m := Run(alu, init, Translate(bytecode, hint).code);
            var r := Reference(alu, bytecode, hint, start);
            && m.status == r.status
            && BankMatches(init, m, u.sgprs, r.s, start.s)
            && BankMatches(init, m, u.vgprs, r.v, start.v)
            && (match Output(StageFor(bytecode, hint))
                case Some(id) => Content(init, m, id) == r.output
                case None => r.output == start.output)
  {
    hide Closed, ExecuteAll, Body, Agrees, Defs, Unique, Live, BankMatches, Close, ParseOnto;
    var env := Env(alu, init, StageFor(bytecode, hint), start);
    BodyReady(env, bytecode, hint);
    var u, r := Body(bytecode, hint), ExecuteAll(alu, env.stage, DecodeAll(bytecode), start);
    CloseStep(env, u, r);
    var u' := Close(u);
    assert Module(u')[5..] == Flatten(u'.code);
    ParseRoundTrip(u'.code);
    var m, m' := Interpret(env, u), Interpret(env, u');
    ContentFollowsVars(init, m, m', u.sgprs, r.s, start.s);
    ContentFollowsVars(init, m, m', u.vgprs, r.v, start.v);
  }

  ghost predicate Realises(u: Unit, start: Registers, id: Word, w: Word)
    requires start.Valid()
  {
    && (forall i :: i in u.sgprs && u.sgprs[i] == id ==> i < 104 && w == start.s[i])
    && (forall i :: i in u.vgprs && u.vgprs[i] == id ==> i < 256 && w == start.v[i])
    && (id == 12 || id == 15 ==> start.output == Scalar(w))
  }

  // No two registers share a variable, so every id can be given a content.
  lemma ContentExists(u: Unit, stage: Stage, start: Registers, id: Word)
    requires WellFormed(u, stage) && start.Valid() && start.output.Scalar?
    ensures exists w :: Realises(u, start, id, w)
  {
    var w: Word :=
      if id in u.sgprs.Values then (var i :| i in u.sgprs && u.sgprs[i] == id; start.s[i])
      else if id in u.vgprs.Values then (var i :| i in u.vgprs && u.vgprs[i] == id; start.v[i])
      else start.output.w;
    assert Realises(u, start, id, w);
  }

  ghost function InitialContents(u: Unit, stage: Stage, start: Registers): Word -> Word
    requires WellFormed(u, stage) && start.Valid() && start.output.Scalar?
  {
    (id: Word) => (ContentExists(u, stage, start, id); var w :| Realises(u, start, id, w); w)
  }

  lemma InitialContentsAgree(alu: Alu, stage: Stage, start: Registers, u: Unit)
    requires WellFormed(u, stage) && start.Valid() && start.output.Scalar?
    ensures Agrees(Env(alu, InitialContents(u, stage, start), stage, start), u)
  {
    hide WellFormed;
    var init := InitialContents(u, stage, start);
    forall i | i in u.sgprs ensures i < 104 && init(u.sgprs[i]) == start.s[i] {
      ContentExists(u, stage, start, u.sgprs[i]);
      assert Realises(u, start, u.sgprs[i], init(u.sgprs[i]));
    }
    forall i | i in u.vgprs ensures i < 256 && init(u.vgprs[i]) == start.v[i] {
      ContentExists(u, stage, start, u.vgprs[i]);
      assert Realises(u, start, u.vgprs[i], init(u.vgprs[i]));
    }
    forall id: Word | id == 12 || id == 15 ensures start.output == Scalar(init(id)) {
      ContentExists(u, stage, start, id);
      assert Realises(u, start, id, init(id));
    }
  }

  /** Every register file is realised by some initial contents, so the premise
      of TranslationPreservesMeaning excludes no program and no register file. */
  lemma EveryRegisterFileIsRealised(alu: Alu, bytecode: seq<Word>, hint: Hint, start: Registers)
    requires |bytecode| < MAX_WORDS && start.Valid() && start.status.Running? && start.output.Scalar?
    ensures exists init: Word -> Word :: Agrees(Env(alu, init, StageFor(bytecode, hint), start), Body(bytecode, hint))
  {
    hide Body, StageFor, Agrees, WellFormed, InitialContents, ExecuteAll;
    var stage := StageFor(bytecode, hint);
    BodyReady(Env(alu, _ => 0, stage, start), bytecode, hint);
    InitialContentsAgree(alu, stage, start, Body(bytecode, hint));
  }

  predicate Interrupted(stage: Stage, code: seq<Instruction>, k: nat)
    requires k < |code|
  {
    !Supported(stage, code[k]) && forall j :: 0 <= j < k ==> !EndsProgram(code[j])
  }

  // An unsupported instruction comes before the first program end.
  predicate ReachesUnsupported(stage: Stage, code: seq<Instruction>) {
    exists k :: 0 <= k < |code| && Interrupted(stage, code, k)
  }

  lemma DefsBounded(env: Env, u: Unit, r: Registers)
    requires Sim(env, u, r)
    ensures forall d :: d in Defs(u.code) ==> 1 <= d < u.nextId
  {
  }

  lemma TranslationIsWellFormed(env: Env, bytecode: seq<Word>, hint: Hint)
    requires |bytecode| < MAX_WORDS && env.stage == StageFor(bytecode, hint)
    requires env.start.Valid() && env.start.status.Running?
    ensures var u := Translate(bytecode, hint);
            && AllEncodable(u.code) && Unique(u.code)
            && (forall d :: d in Defs(u.code) ==> 1 <= d < u.nextId)
            && u.nextId <= 32 + 16 * |bytecode|
            && (Closed(u.code) <==> AllSupported(env.stage, DecodeAll(bytecode)))
  {
    hide Body, StageFor, Closed, AllSupported, Unique, Close, Sim, Agrees, Matches, First, Execute;
    BodyReady(env, bytecode, hint);
    var r := ExecuteAll(env.alu, env.stage, DecodeAll(bytecode), env.start);
    CloseStep(env, Body(bytecode, hint), r);
    DefsBounded(env, Body(bytecode, hint), r);
  }

  // What a reader finds in the words of any encodable unit.
  lemma ModuleLayout(u: Unit)
    requires AllEncodable(u.code)
    ensures Module(u)[..5] == [MAGIC, VERSION, 0, u.nextId, 0] && Module(u)[3] == u.nextId
    ensures ParseOnto(Empty, Module(u)[5..]) == Some(u.code)
  {
    assert Module(u)[5..] == Flatten(u.code);
    ParseRoundTrip(u.code);
  }

  /** Well-formedness: the words after the preamble tile into instructions, no
      id is defined twice, the bound word is above every defined id, and every
      consumed id is already defined exactly when the program has no scalar memory read
      and no export that the stage lacks an output for. */
  lemma ModuleIsWellFormed(bytecode: seq<Word>, hint: Hint)
    requires |bytecode| < MAX_WORDS
    ensures var u := Translate(bytecode, hint);
            && AllEncodable(u.code)
            && Module(u)[..5] == [MAGIC, VERSION, 0, u.nextId, 0]
            && ParseOnto(Empty, Module(u)[5..]) == Some(u.code)
            && Unique(u.code)
            && (forall d :: d in Defs(u.code) ==> 1 <= d < Module(u)[3])
            && Module(u)[3] <= 32 + 16 * |bytecode|
            && (Closed(u.code) <==> AllSupported(StageFor(bytecode, hint), DecodeAll(bytecode)))
  {
    hide Translate, StageFor, AllSupported, Module, First;
    var start := Registers(seq(104, _ => 0), seq(256, _ => 0), Scalar(0), Running);
    var env := Env(Alu((_, _) => 0, (_, _) => 0), _ => 0, StageFor(bytecode, hint), start);
    TranslationIsWellFormed(env, bytecode, hint);
    ModuleLayout(Translate(bytecode, hint));
  }

  lemma {:induction false} ReferenceFaults(alu: Alu, stage: Stage, code: seq<Instruction>, start: Registers)
    requires start.Valid() && start.status.Running?
    ensures var r := ExecuteAll(alu, stage, code, start);
            && (r.status.Stuck? <==> ReachesUnsupported(stage, code))
            && (r.status.Running? <==> forall k :: 0 <= k < |code| ==> Supported(stage, code[k]) && !EndsProgram(code[k]))
    decreases |code|
  {
    hide Supported, EndsProgram, Execute;
    if code != [] {
      var n := |code| - 1;
      var before := code[..n];
      ReferenceFaults(alu, stage, before, start);
      assert forall k :: 0 <= k < n ==> before[k] == code[k] && (Interrupted(stage, code, k) <==> Interrupted(stage, before, k));
      var r := ExecuteAll(alu, stage, before, start);
      StatusAfter(alu, stage, code[n], r);
      if r.status.Running? {
        assert Interrupted(stage, code, n) <==> !Supported(stage, code[n]);
      } else if r.status.Returned? {
        assert forall k :: 0 <= k < n ==> !Interrupted(stage, code, k);
        EndsBefore(stage, before);
      }
    }
  }

  lemma StatusAfter(alu: Alu, stage: Stage, i: Instruction, r: Registers)
    requires r.Valid()
    ensures var q := Execute(alu, stage, i, r).status;
            q == if !r.status.Running? then r.status
                 else if !Supported(stage, i) then Stuck else if EndsProgram(i) then Returned else Running
  {
  }

  lemma EndsBefore(stage: Stage, code: seq<Instruction>)
    requires forall k :: 0 <= k < |code| ==> !Interrupted(stage, code, k)
    requires exists k :: 0 <= k < |code| && (!Supported(stage, code[k]) || EndsProgram(code[k]))
    ensures exists k :: 0 <= k < |code| && EndsProgram(code[k])
  {
    var k :| 0 <= k < |code| && (!Supported(stage, code[k]) || EndsProgram(code[k]));
    assert !Interrupted(stage, code, k);
  }

  // How interpreting the translated module ends.
  function Outcome(alu: Alu, init: Word -> Word, bytecode: seq<Word>, hint: Hint): Status {
    Run(alu, init, Translate(bytecode, hint).code).status
  }

  lemma OutcomeIsReference(alu: Alu, init: Word -> Word, bytecode: seq<Word>, hint: Hint, start: Registers)
    requires |bytecode| < MAX_WORDS && start.Valid() && start.status.Running?
    requires Agrees(Env(alu, init, StageFor(bytecode, hint), start), Body(bytecode, hint))
    ensures Outcome(alu, init, bytecode, hint) == Reference(alu, bytecode, hint, start).status
  {
    hide StageFor, Body, Agrees, BankMatches, AllEncodable, Step, Translate, Reference;
    TranslationPreservesMeaning(alu, init, bytecode, hint, start);
  }

  lemma ReferenceStuck(alu: Alu, bytecode: seq<Word>, hint: Hint, start: Registers)
    requires start.Valid() && start.status.Running?
    ensures Reference(alu, bytecode, hint, start).status.Stuck? <==>
              ReachesUnsupported(StageFor(bytecode, hint), DecodeAll(bytecode))
  {
    hide StageFor, Execute, ReachesUnsupported, First;
    ReferenceFaults(alu, StageFor(bytecode, hint), DecodeAll(bytecode), start);
  }

  lemma UnsupportedIsReached(stage: Stage, code: seq<Instruction>)
    requires forall i :: i in code ==> !EndsProgram(i)
    ensures ReachesUnsupported(stage, code) <==> !AllSupported(stage, code)
  {
    hide Supported, EndsProgram;
    if k :| 0 <= k < |code| && !Supported(stage, code[k]) {
      assert Interrupted(stage, code, k);
    }
  }

  /** Interpreting a module consumes an undefined id exactly when an unsupported
      instruction comes before the first program end, and as no decoded word is a
      program end, exactly when there is an unsupported instruction anywhere. */
  lemma StuckExactlyWhenUnsupported(alu: Alu, init: Word -> Word, bytecode: seq<Word>, hint: Hint, start: Registers)
    requires |bytecode| < MAX_WORDS && start.Valid() && start.status.Running?
    requires Agrees(Env(alu, init, StageFor(bytecode, hint), start), Body(bytecode, hint))
    ensures Outcome(alu, init, bytecode, hint).Stuck? <==>
              ReachesUnsupported(StageFor(bytecode, hint), DecodeAll(bytecode))
    ensures Outcome(alu, init, bytecode, hint) ==
              if AllSupported(StageFor(bytecode, hint), DecodeAll(bytecode)) then Returned else Stuck
  {
    hide StageFor, Body, Agrees, Outcome, ExecuteAll, ReachesUnsupported, AllSupported, EndsProgram;
    OutcomeIsReference(alu, init, bytecode, hint, start);
    ReferenceStuck(alu, bytecode, hint, start);
    NoEnd(bytecode);
    UnsupportedIsReached(StageFor(bytecode, hint), DecodeAll(bytecode));
  }

  // The register file that some initial contents stand for.
  function ContentOf(init: Word -> Word, bank: Bank, i: Word): Word {
    if i in bank then init(bank[i]) else 0
  }

  function StartOf(init: Word -> Word, u: Unit, stage: Stage): Registers {
    Registers(seq(104, i requires 0 <= i < 104 => ContentOf(init, u.sgprs, i)),
              seq(256, i requires 0 <= i < 256 => ContentOf(init, u.vgprs, i)),
              match Output(stage) case Some(id) => Scalar(init(id)) case None => Scalar(0), Running)
  }

  lemma StartAgrees(alu: Alu, init: Word -> Word, u: Unit, stage: Stage)
    requires WellFormed(u, stage)
    ensures Agrees(Env(alu, init, stage, StartOf(init, u, stage)), u)
  {
  }

  /** How every module ends, whatever its variables hold at first: it returns if all
      instructions are supported, and gets stuck otherwise. */
  lemma OutcomeOf(alu: Alu, init: Word -> Word, bytecode: seq<Word>, hint: Hint)
    requires |bytecode| < MAX_WORDS
    ensures Outcome(alu, init, bytecode, hint) ==
              if AllSupported(StageFor(bytecode, hint), DecodeAll(bytecode)) then Returned else Stuck
  {
    hide Body, StageFor, Agrees, WellFormed, ExecuteAll, Outcome, AllSupported;
    var stage := StageFor(bytecode, hint);
    var u := Body(bytecode, hint);
    var start := StartOf(init, u, stage);
    BodyReady(Env(alu, init, stage, start), bytecode, hint);
    StartAgrees(alu, init, u, stage);
    StuckExactlyWhenUnsupported(alu, init, bytecode, hint, start);
  }

  // s_endpgm, and a scalar memory read behind it.
  const BEHIND_THE_END: seq<Word> := [0xBF81_0000, 0xC000_0000]

  lemma BehindTheEndDecodes()
    ensures var code := DecodeAll(BEHIND_THE_END);
            |code| == 2 && code[0].format == Sopp && code[1].format == Smem && DecodeAll(BEHIND_THE_END[..1]) == code[..1]
  {
    var words := BEHIND_THE_END;
    FormatsOfTheEnd();
    hide FormatOf;
    assert First(words).1 == 1 && words[1..] == [0xC000_0000] && First(words[1..]).1 == 1;
    assert DecodeAll(words[1..]) == [First(words[1..]).0] + DecodeAll([]);
    assert First(words[..1]) == First(words) && DecodeAll(words[..1]) == [First(words).0] + DecodeAll([]);
  }

  lemma FormatsOfTheEnd()
    ensures FormatOf(0xBF81_0000) == Sopp && FormatOf(0xC000_0000) == Smem
  {
    Powers();
  }

  /** What stands behind the end of a program is translated and executed: the scalar
      memory read that s_endpgm should have kept from running gets the module stuck. */
  lemma EndIsRunThrough(alu: Alu, init: Word -> Word, hint: Hint)
    ensures Outcome(alu, init, BEHIND_THE_END, hint).Stuck?
    ensures Outcome(alu, init, BEHIND_THE_END[..1], hint).Returned?
  {
    hide Outcome, DecodeAll, StageFor;
    BehindTheEndDecodes();
    OutcomeOf(alu, init, BEHIND_THE_END, hint);
    OutcomeOf(alu, init, BEHIND_THE_END[..1], hint);
  }
}
