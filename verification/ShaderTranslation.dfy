/** Whole programs: the header, the body and the binary module. */
module ShaderTranslation {
  import opened Common
  import opened GcnShader
  import opened ShaderEmission
  import opened ShaderSimulation
  import opened ShaderSteps
  import opened SpirvMachine
  import opened SpirvModule

  // Declarations so far: what is defined and what the machine holds.
  ghost predicate Prelude(env: Env, u: Unit, d: set<Word>, m: Machine) {
    && Unique(u.code) && Closed(u.code) && AllEncodable(u.code)
    && Defs(u.code) == d && Interpret(env, u) == m
    && u.sgprs == map[] && u.vgprs == map[] && !u.ended
  }

  // Declarations the machine ignores: no ids, a fresh id, a fresh id on top of
  // another, or a note about an existing id.
  lemma DeclareNote(env: Env, u: Unit, d: set<Word>, m: Machine, op: Word, operands: seq<Word>)
    requires Prelude(env, u, d, m) && |operands| <= 8
    requires op in {OpCapability, OpMemoryModel, OpEntryPoint, OpExecutionMode}
    ensures Prelude(env, Put(u, op, operands), d, m)
  {
    var ins := Ins(op, operands);
    assert Uses(ins) == {} && Results(ins) == {};
  }

  lemma DeclareBase(env: Env, u: Unit, d: set<Word>, m: Machine, op: Word, operands: seq<Word>)
    requires Prelude(env, u, d, m) && 1 <= |operands| <= 8 && operands[0] !in d
    requires op in {OpTypeVoid, OpTypeBool, OpTypeInt, OpTypeFloat, OpExtInstImport, OpLabel}
    ensures Prelude(env, Put(u, op, operands), d + {operands[0]}, m)
  {
    var ins := Ins(op, operands);
    assert Uses(ins) == {} && Results(ins) == {operands[0]};
  }

  lemma DeclareOver(env: Env, u: Unit, d: set<Word>, m: Machine, op: Word, operands: seq<Word>)
    requires Prelude(env, u, d, m) && 2 <= |operands| <= 8 && operands[0] !in d
    requires (op in {OpTypeVector, OpTypeImage} && operands[1] in d) ||
             (op == OpTypePointer && |operands| == 3 && operands[2] in d)
    ensures Prelude(env, Put(u, op, operands), d + {operands[0]}, m)
  {
    var ins := Ins(op, operands);
    assert Uses(ins) <= d && Results(ins) == {operands[0]};
  }

  lemma DeclareFrom(env: Env, u: Unit, d: set<Word>, m: Machine, op: Word, operands: seq<Word>)
    requires Prelude(env, u, d, m) && 2 <= |operands| <= 8 && operands[0] !in d
    requires op in {OpTypeArray, OpTypeStruct, OpTypeFunction, OpTypeSampledImage}
    requires forall k :: 1 <= k < |operands| ==> operands[k] in d
    ensures Prelude(env, Put(u, op, operands), d + {operands[0]}, m)
  {
    var ins := Ins(op, operands);
    assert Uses(ins) <= d && Results(ins) == {operands[0]};
  }

  lemma DeclareDecoration(env: Env, u: Unit, d: set<Word>, m: Machine, op: Word, operands: seq<Word>)
    requires Prelude(env, u, d, m) && 1 <= |operands| <= 8 && operands[0] in d
    requires op in {OpDecorate, OpMemberDecorate}
    ensures Prelude(env, Put(u, op, operands), d, m)
  {
    var ins := Ins(op, operands);
    assert Uses(ins) <= d && Results(ins) == {};
  }

  lemma DeclareConstant(env: Env, u: Unit, d: set<Word>, m: Machine, t: Word, x: Word, w: Word)
    requires Prelude(env, u, d, m) && t in d && x !in d && m.status.Running?
    ensures Prelude(env, Put(u, OpConstant, [t, x, w]), d + {x}, Define(m, x, Scalar(w)))
  {
    var ins := Ins(OpConstant, [t, x, w]);
    assert Uses(ins) == {t} && Results(ins) == {x};
  }

  lemma DeclareVariable(env: Env, u: Unit, d: set<Word>, m: Machine, t: Word, x: Word, storage: Word)
    requires Prelude(env, u, d, m) && t in d && x !in d && m.status.Running?
    ensures Prelude(env, Put(u, OpVariable, [t, x, storage]), d + {x}, m.(vars := m.vars[x := Scalar(env.init(x))]))
  {
    var ins := Ins(OpVariable, [t, x, storage]);
    assert Uses(ins) == {t} && Results(ins) == {x};
  }

  const Fixed: set<Word> := {1, 2, 3, 4, 5, 6, 7, 8, 9, 10, 11}

  function FixedMachine(): Machine {
    Machine(map[10 := Scalar(0), 11 := Scalar(ONE)], map[], Running)
  }

  lemma FirstTypesPrelude(env: Env)
    ensures var u := Put(Put(Put(Put(Start, OpCapability, [1]), OpMemoryModel, [0, 1]), OpTypeVoid, [1]), OpTypeBool, [2]);
            Prelude(env, u, {1, 2}, Machine(map[], map[], Running)) && u.ids == Start.ids && u.nextId == 20
  {
    var m := Machine(map[], map[], Running);
    assert Prelude(env, Start, {}, m);
    hide Prelude;
    DeclareNote(env, Start, {}, m, OpCapability, [1]);
    var u1 := Put(Start, OpCapability, [1]);
    DeclareNote(env, u1, {}, m, OpMemoryModel, [0, 1]);
    var u2 := Put(u1, OpMemoryModel, [0, 1]);
    DeclareBase(env, u2, {}, m, OpTypeVoid, [1]);
    var u3, d3: set<Word> := Put(u2, OpTypeVoid, [1]), {} + {1};
    DeclareBase(env, u3, d3, m, OpTypeBool, [2]);
    assert d3 + {2} == {1, 2};
  }

  lemma ScalarTypesPrelude(env: Env)
    ensures var u := HeaderScalarTypes(Start);
            Prelude(env, u, {1, 2, 3, 4, 5}, Machine(map[], map[], Running)) && u.ids == Start.ids && u.nextId == 20
  {
    hide Prelude;
    FirstTypesPrelude(env);
    var m := Machine(map[], map[], Running);
    var u4 := Put(Put(Put(Put(Start, OpCapability, [1]), OpMemoryModel, [0, 1]), OpTypeVoid, [1]), OpTypeBool, [2]);
    var d4: set<Word> := {1, 2};
    DeclareBase(env, u4, d4, m, OpTypeInt, [3, 32, 1]);
    var u5, d5 := Put(u4, OpTypeInt, [3, 32, 1]), d4 + {3};
    DeclareBase(env, u5, d5, m, OpTypeFloat, [4, 32]);
    var u6, d6 := Put(u5, OpTypeFloat, [4, 32]), d5 + {4};
    DeclareOver(env, u6, d6, m, OpTypeVector, [5, 4, 4]);
    assert d6 + {5} == {1, 2, 3, 4, 5};
  }

  lemma TypesPrelude(env: Env)
    ensures var u := HeaderTypes(Start);
            Prelude(env, u, Fixed, FixedMachine()) && u.ids == Start.ids && u.nextId == 20
  {
    hide Prelude, HeaderScalarTypes;
    ScalarTypesPrelude(env);
    var m := Machine(map[], map[], Running);
    var u7, d7: set<Word> := HeaderScalarTypes(Start), {1, 2, 3, 4, 5};
    DeclareOver(env, u7, d7, m, OpTypePointer, [6, 7, 3]);
    var u8, d8 := Put(u7, OpTypePointer, [6, 7, 3]), d7 + {6};
    DeclareOver(env, u8, d8, m, OpTypePointer, [7, 7, 4]);
    var u9, d9 := Put(u8, OpTypePointer, [7, 7, 4]), d8 + {7};
    DeclareOver(env, u9, d9, m, OpTypePointer, [8, 3, 5]);
    var u10, d10 := Put(u9, OpTypePointer, [8, 3, 5]), d9 + {8};
    DeclareFrom(env, u10, d10, m, OpTypeFunction, [9, 1]);
    var u11, d11 := Put(u10, OpTypeFunction, [9, 1]), d10 + {9};
    DeclareConstant(env, u11, d11, m, 4, 10, 0);
    var u12, d12, m12 := Put(u11, OpConstant, [4, 10, 0]), d11 + {10}, Define(m, 10, Scalar(0));
    DeclareConstant(env, u12, d12, m12, 4, 11, ONE);
    assert d12 + {11} == Fixed;
    assert Define(m12, 11, Scalar(ONE)) == FixedMachine();
  }

  function OutputIds(stage: Stage): set<Word> {
    match stage case Vertex => {15} case Fragment => {12} case Compute => {}
  }

  function OutputMachine(env: Env, m: Machine): Machine {
    match Output(env.stage)
    case Some(id) => m.(vars := m.vars[id := Scalar(env.init(id))])
    case None => m
  }

  lemma OutputPrelude(env: Env, u: Unit, d: set<Word>, m: Machine)
    requires Prelude(env, u, d, m) && 8 in d && 12 !in d && 15 !in d && m.status.Running?
    ensures var u' := HeaderOutput(u, env.stage);
            Prelude(env, u', d + OutputIds(env.stage), OutputMachine(env, m)) && u'.ids == u.ids && u'.nextId == u.nextId
  {
    hide Prelude;
    match env.stage {
      case Fragment =>
        DeclareVariable(env, u, d, m, 8, 12, 3);
        var v := Put(u, OpVariable, [8, 12, 3]);
        DeclareDecoration(env, v, d + {12}, OutputMachine(env, m), OpDecorate, [12, 30, 0]);
      case Vertex =>
        DeclareVariable(env, u, d, m, 8, 15, 3);
        var v := Put(u, OpVariable, [8, 15, 3]);
        DeclareDecoration(env, v, d + {15}, OutputMachine(env, m), OpDecorate, [15, 11, 0]);
      case Compute =>
        assert d + {} == d;
    }
  }

  lemma SetNext(env: Env, u: Unit, u': Unit, d: set<Word>, m: Machine)
    requires Prelude(env, u, d, m) && u' == u.(nextId := u'.nextId, ids := u'.ids)
    ensures Prelude(env, u', d, m)
  {
  }

  const BufferIds: set<Word> := {20, 21, 22, 23, 24, 25, 26}

  function BufferMachine(env: Env, m: Machine): Machine {
    m.(vals := m.vals[21 := Scalar(256)], vars := m.vars[25 := Scalar(env.init(25))])
  }

  lemma BufferTypesPrelude(env: Env, u: Unit, d: set<Word>, m: Machine)
    requires Prelude(env, u, d, m) && u.nextId == 20 && {3, 4} <= d && d !! {20, 21, 22, 23, 24} && m.status.Running?
    ensures var t := HeaderBufferTypes(u);
            Prelude(env, t.unit, d + {20, 21, 22, 23, 24}, m.(vals := m.vals[21 := Scalar(256)])) &&
            t.unit.nextId == 25 && t.unit.ids == u.ids && t.glsl == 20 && t.ubo == 23 && t.pointer == 24
  {
    hide Prelude, PackString;
    var a0 := u.(nextId := 21);
    SetNext(env, u, a0, d, m);
    var name := PackString("GLSL.std.450");
    DeclareBase(env, a0, d, m, OpExtInstImport, [20] + name);
    var a1, d1 := Put(a0, OpExtInstImport, [20] + name), d + {20};
    var b0 := a1.(nextId := 22);
    SetNext(env, a1, b0, d1, m);
    DeclareConstant(env, b0, d1, m, 3, 21, 256);
    var b1, d2, m1 := Put(b0, OpConstant, [3, 21, 256]), d1 + {21}, Define(m, 21, Scalar(256));
    var c0 := b1.(nextId := 23);
    SetNext(env, b1, c0, d2, m1);
    DeclareFrom(env, c0, d2, m1, OpTypeArray, [22, 4, 21]);
    var c1, d3 := Put(c0, OpTypeArray, [22, 4, 21]), d2 + {22};
    var e0 := c1.(nextId := 24);
    SetNext(env, c1, e0, d3, m1);
    DeclareFrom(env, e0, d3, m1, OpTypeStruct, [23, 22]);
    var e1, d4 := Put(e0, OpTypeStruct, [23, 22]), d3 + {23};
    var f0 := e1.(nextId := 25);
    SetNext(env, e1, f0, d4, m1);
    DeclareOver(env, f0, d4, m1, OpTypePointer, [24, 2, 23]);
    assert d4 + {24} == d + {20, 21, 22, 23, 24};
  }

  lemma BufferVariablePrelude(env: Env, u: Unit, d: set<Word>, m: Machine)
    requires Prelude(env, u, d, m) && u.nextId == 25 && {4, 23, 24} <= d && d !! {25, 26} && m.status.Running?
    ensures var v := HeaderBufferVariable(u, 23, 24);
            Prelude(env, v.unit, d + {25, 26}, m.(vars := m.vars[25 := Scalar(env.init(25))])) &&
            v.unit.nextId == 27 && v.unit.ids == u.ids && v.variable == 25 && v.element == 26
  {
    hide Prelude;
    var g0 := u.(nextId := 26);
    SetNext(env, u, g0, d, m);
    DeclareVariable(env, g0, d, m, 24, 25, 2);
    var g1, d6, m2 := Put(g0, OpVariable, [24, 25, 2]), d + {25}, m.(vars := m.vars[25 := Scalar(env.init(25))]);
    DeclareDecoration(env, g1, d6, m2, OpDecorate, [25, 34, 0]);
    var g2 := Put(g1, OpDecorate, [25, 34, 0]);
    DeclareDecoration(env, g2, d6, m2, OpDecorate, [25, 33, 0]);
    var g3 := Put(g2, OpDecorate, [25, 33, 0]);
    DeclareDecoration(env, g3, d6, m2, OpDecorate, [23, 2]);
    var g4 := Put(g3, OpDecorate, [23, 2]);
    DeclareDecoration(env, g4, d6, m2, OpMemberDecorate, [23, 0, 35, 0]);
    var g5 := Put(g4, OpMemberDecorate, [23, 0, 35, 0]);
    var h0 := g5.(nextId := 27);
    SetNext(env, g5, h0, d6, m2);
    DeclareOver(env, h0, d6, m2, OpTypePointer, [26, 2, 4]);
    assert d6 + {26} == d + {25, 26};
  }

  lemma BufferPrelude(env: Env, u: Unit, d: set<Word>, m: Machine)
    requires Prelude(env, u, d, m) && u.nextId == 20 && {3, 4} <= d && d !! BufferIds && m.status.Running?
    ensures var u' := HeaderBuffer(u);
            Prelude(env, u', d + BufferIds, BufferMachine(env, m)) && u'.nextId == 27 &&
            u'.ids == u.ids.(glsl := 20, uboVar := 25, ptrUboFloat := 26)
  {
    hide Prelude, HeaderBufferTypes, HeaderBufferVariable;
    BufferTypesPrelude(env, u, d, m);
    var t := HeaderBufferTypes(u).unit;
    var d1, m1 := d + {20, 21, 22, 23, 24}, m.(vals := m.vals[21 := Scalar(256)]);
    BufferVariablePrelude(env, t, d1, m1);
    assert d1 + {25, 26} == d + BufferIds;
    SetNext(env, HeaderBufferVariable(t, 23, 24).unit, HeaderBuffer(u), d + BufferIds, BufferMachine(env, m));
  }

  const ImageIds: set<Word> := {27, 28, 29, 30, 31}

  lemma ImagePrelude(env: Env, u: Unit, d: set<Word>, m: Machine)
    requires Prelude(env, u, d, m) && u.nextId == 27 && 4 in d && d !! ImageIds && m.status.Running?
    ensures var u' := HeaderImage(u);
            Prelude(env, u', d + ImageIds, m.(vars := m.vars[30 := Scalar(env.init(30))])) && u'.nextId == 32 &&
            u'.ids == u.ids.(typeSampledImage := 28, sampledImageVar := 30, typeVec2 := 31, image := true)
  {
    hide Prelude;
    var a0 := u.(nextId := 29);
    SetNext(env, u, a0, d, m);
    DeclareOver(env, a0, d, m, OpTypeImage, [27, 4, 1, 0, 0, 0, 1, 0]);
    var a1, d1 := Put(a0, OpTypeImage, [27, 4, 1, 0, 0, 0, 1, 0]), d + {27};
    DeclareFrom(env, a1, d1, m, OpTypeSampledImage, [28, 27]);
    var a2, d2 := Put(a1, OpTypeSampledImage, [28, 27]), d1 + {28};
    var b0 := a2.(nextId := 30);
    SetNext(env, a2, b0, d2, m);
    DeclareOver(env, b0, d2, m, OpTypePointer, [29, 0, 28]);
    var b1, d3 := Put(b0, OpTypePointer, [29, 0, 28]), d2 + {29};
    var c0 := b1.(nextId := 31);
    SetNext(env, b1, c0, d3, m);
    DeclareVariable(env, c0, d3, m, 29, 30, 0);
    var c1, d4, m1 := Put(c0, OpVariable, [29, 30, 0]), d3 + {30}, m.(vars := m.vars[30 := Scalar(env.init(30))]);
    DeclareDecoration(env, c1, d4, m1, OpDecorate, [30, 34, 1]);
    var c2 := Put(c1, OpDecorate, [30, 34, 1]);
    DeclareDecoration(env, c2, d4, m1, OpDecorate, [30, 33, 1]);
    var c3 := Put(c2, OpDecorate, [30, 33, 1]);
    var e0 := c3.(nextId := 32);
    SetNext(env, c3, e0, d4, m1);
    DeclareOver(env, e0, d4, m1, OpTypeVector, [31, 4, 2]);
    var e1 := Put(e0, OpTypeVector, [31, 4, 2]);
    assert d4 + {31} == d + ImageIds;
    SetNext(env, e1, HeaderImage(u), d + ImageIds, m1);
  }

  lemma EntryPrelude(env: Env, u: Unit, d: set<Word>, m: Machine)
    requires Prelude(env, u, d, m)
    ensures var u' := HeaderEntry(u, env.stage);
            Prelude(env, u', d, m) && u'.nextId == u.nextId && u'.ids == u.ids
  {
    hide Prelude, PackString;
    var name := PackString("main");
    match env.stage {
      case Vertex => DeclareNote(env, u, d, m, OpEntryPoint, [0, 13, 15] + name);
      case Fragment =>
        DeclareNote(env, u, d, m, OpExecutionMode, [13, 7]);
        DeclareNote(env, Put(u, OpExecutionMode, [13, 7]), d, m, OpEntryPoint, [4, 13, 12] + name);
      case Compute =>
        DeclareNote(env, u, d, m, OpExecutionMode, [13, 17, 1, 1, 1]);
        DeclareNote(env, Put(u, OpExecutionMode, [13, 17, 1, 1, 1]), d, m, OpEntryPoint, [5, 13] + name);
    }
  }

  lemma OpenPrelude(env: Env, u: Unit, d: set<Word>, m: Machine)
    requires Prelude(env, u, d, m) && {1, 9} <= d && 13 !in d && 14 !in d
    ensures var u' := Open(u);
            Prelude(env, u', d + {13, 14}, m) && u'.nextId == u.nextId && u'.ids == u.ids
  {
    var f := Put(u, OpFunction, [1, 13, 0, 9]);
    var ins := Ins(OpFunction, [1, 13, 0, 9]);
    assert Uses(ins) == {1, 9} && Results(ins) == {13};
    assert Prelude(env, f, d + {13}, m);
    DeclareBase(env, f, d + {13}, m, OpLabel, [14]);
    assert d + {13} + {14} == d + {13, 14};
  }

  // What the machine holds when the header has been interpreted.
  ghost predicate HeaderMachine(env: Env, m: Machine, sample: bool) {
    && m.vals == map[10 := Scalar(0), 11 := Scalar(ONE), 21 := Scalar(256)] && m.status.Running?
    && m.vars.Keys == OutputIds(env.stage) + {25} + (if sample then {30} else {})
    && (forall id :: id in m.vars ==> m.vars[id] == Scalar(env.init(id)))
  }

  function FinalIds(sample: bool): HeaderIds {
    if sample then HeaderIds(20, 25, 26, 28, 30, 31, true) else HeaderIds(20, 25, 26, 0, 0, 0, false)
  }

  function HeaderDefs(stage: Stage, sample: bool): set<Word> {
    Fixed + OutputIds(stage) + BufferIds + (if sample then ImageIds else {})
  }

  lemma FixedMembers(x: Word)
    ensures x in Fixed <==> 1 <= x <= 11
    ensures x in BufferIds <==> 20 <= x <= 26
    ensures x in ImageIds <==> 27 <= x <= 31
  {
  }

  lemma HeaderMembers(stage: Stage, sample: bool, x: Word)
    ensures x in HeaderDefs(stage, sample) + {13, 14} <==>
              (1 <= x <= 11 || (x == 12 && stage == Fragment) || 13 <= x <= 14 || (x == 15 && stage == Vertex) ||
               20 <= x <= 26 || (sample && 27 <= x <= 31))
  {
    FixedMembers(x);
    var fixed, buffer, image := Fixed, BufferIds, ImageIds;
    var d := fixed + OutputIds(stage) + buffer + (if sample then image else {});
    assert x in d + {13, 14} <==>
             (x in fixed || x in OutputIds(stage) || x in buffer || (sample && x in image) || x == 13 || x == 14);
  }

  lemma PreludeWellFormed(env: Env, u: Unit, d: set<Word>, m: Machine, sample: bool)
    requires Prelude(env, u, d + {13, 14}, m) && d == HeaderDefs(env.stage, sample)
    requires u.nextId == (if sample then 32 else 27) && u.ids == FinalIds(sample)
    ensures WellFormed(u, env.stage) && Closed(u.code)
  {
    hide Unique, AllEncodable, Closed, Interpret, HeaderDefs;
    forall x: Word
      ensures x in Defs(u.code) <==>
                (1 <= x <= 11 || (x == 12 && env.stage == Fragment) || 13 <= x <= 14 || (x == 15 && env.stage == Vertex) ||
                 20 <= x <= 26 || (sample && 27 <= x <= 31))
    {
      HeaderMembers(env.stage, sample, x);
    }
  }

  lemma PreludeMatches(env: Env, u: Unit, d: set<Word>, m: Machine, sample: bool)
    requires Prelude(env, u, d + {13, 14}, m) && d == HeaderDefs(env.stage, sample) && HeaderMachine(env, m, sample)
    requires env.start.Valid() && env.start.status.Running? && u.ids == FinalIds(sample)
    ensures Agrees(env, u) ==> Matches(env, u, env.start)
  {
  }

  lemma HeaderEnd(env: Env, u: Unit, d: set<Word>, m: Machine, sample: bool)
    requires Prelude(env, u, d, m) && env.start.Valid() && env.start.status.Running?
    requires d == HeaderDefs(env.stage, sample) && HeaderMachine(env, m, sample)
    requires u.nextId == (if sample then 32 else 27) && u.ids == FinalIds(sample)
    ensures var u' := Open(HeaderEntry(u, env.stage));
            Sim(env, u', env.start) && Closed(u'.code) && u'.nextId <= 32 && u'.ids.image == sample
  {
    hide Prelude, HeaderEntry, Open, WellFormed, Matches, Agrees, HeaderMachine, Closed, HeaderDefs;
    DefsForBody(env.stage, sample);
    EntryPrelude(env, u, d, m);
    OpenPrelude(env, HeaderEntry(u, env.stage), d, m);
    var u' := Open(HeaderEntry(u, env.stage));
    PreludeWellFormed(env, u', d, m, sample);
    PreludeMatches(env, u', d, m, sample);
  }

  lemma DefsForBody(stage: Stage, sample: bool)
    ensures var d := HeaderDefs(stage, sample); {1, 9} <= d && 13 !in d && 14 !in d
  {
  }

  lemma MachineAfterHeader(env: Env)
    ensures var m := BufferMachine(env, OutputMachine(env, FixedMachine()));
            HeaderMachine(env, m, false) &&
            HeaderMachine(env, m.(vars := m.vars[30 := Scalar(env.init(30))]), true)
  {
  }

  lemma FixedApart(stage: Stage)
    ensures {3, 4, 8} <= Fixed && 12 !in Fixed && 15 !in Fixed
    ensures Fixed + OutputIds(stage) !! BufferIds && Fixed + OutputIds(stage) + BufferIds !! ImageIds
    ensures Fixed + OutputIds(stage) + BufferIds == HeaderDefs(stage, false)
    ensures Fixed + OutputIds(stage) + BufferIds + ImageIds == HeaderDefs(stage, true)
  {
  }

  // The header up to the stage-specific part.
  lemma BufferReady(env: Env)
    ensures var u := HeaderBuffer(HeaderOutput(HeaderTypes(Start), env.stage));
            Prelude(env, u, HeaderDefs(env.stage, false), BufferMachine(env, OutputMachine(env, FixedMachine()))) &&
            u.nextId == 27 && u.ids == FinalIds(false)
  {
    hide Prelude, HeaderTypes, HeaderOutput, HeaderBuffer, HeaderDefs, BufferMachine, OutputIds;
    TypesPrelude(env);
    FixedApart(env.stage);
    var u1 := HeaderTypes(Start);
    OutputPrelude(env, u1, Fixed, FixedMachine());
    var u2, d2, m2 := HeaderOutput(u1, env.stage), Fixed + OutputIds(env.stage), OutputMachine(env, FixedMachine());
    BufferPrelude(env, u2, d2, m2);
  }

  // The unit the body starts from.
  lemma HeaderReady(env: Env, sample: bool)
    requires env.start.Valid() && env.start.status.Running?
    ensures var u := Open(Header(env.stage, sample));
            Sim(env, u, env.start) && Closed(u.code) && u.nextId <= 32 && u.ids.image == sample
  {
    hide Prelude, Sim, Closed, HeaderTypes, HeaderOutput, HeaderBuffer, HeaderImage, HeaderEntry, Open, HeaderMachine,
         HeaderDefs, BufferMachine, OutputMachine, OutputIds;
    BufferReady(env);
    FixedApart(env.stage);
    MachineAfterHeader(env);
    var u := HeaderBuffer(HeaderOutput(HeaderTypes(Start), env.stage));
    var m := BufferMachine(env, OutputMachine(env, FixedMachine()));
    if sample {
      HeaderRunning(env);
      ImagePrelude(env, u, HeaderDefs(env.stage, false), m);
      HeaderEnd(env, HeaderImage(u), HeaderDefs(env.stage, true), m.(vars := m.vars[30 := Scalar(env.init(30))]), true);
    } else {
      HeaderEnd(env, u, HeaderDefs(env.stage, false), m, false);
    }
  }

  lemma HeaderRunning(env: Env)
    ensures BufferMachine(env, OutputMachine(env, FixedMachine())).status.Running?
  {
  }
}
