/** What the emitter routines keep: the ids of the unit under construction stay
    well defined, and interpreting the code emitted so far leaves every register
    variable equal to the reference register file. */
module ShaderSteps {
  import opened Common
  import opened GcnShader
  import opened ShaderEmission
  import opened SpirvMachine
  import opened SpirvModule

  /** One interpretation: the arithmetic, the initial content of every variable
      id, the shader stage, and the initial register file. */
  datatype Env = Env(alu: Alu, init: Word -> Word, stage: Stage, start: Registers)

  function Interpret(env: Env, u: Unit): Machine {
    Run(env.alu, env.init, u.code)
  }

  function Output(stage: Stage): Option<Word> {
    match stage case Vertex => Some(15) case Fragment => Some(12) case Compute => None
  }

  // A register bank: which variable stands for which register.
  type Bank = map<Word, Word>

  ghost predicate BankAgrees(init: Word -> Word, bank: Bank, start: seq<Word>) {
    forall i :: i in bank ==> i < |start| && init(bank[i]) == start[i]
  }

  /** The initial contents fit the register file under the unit's allocation. */
  ghost predicate Agrees(env: Env, u: Unit) {
    && env.start.Valid()
    && BankAgrees(env.init, u.sgprs, env.start.s)
    && BankAgrees(env.init, u.vgprs, env.start.v)
    && (Output(env.stage).Some? ==> env.start.output == Scalar(env.init(Output(env.stage).value)))
  }

  ghost predicate BankMatches(init: Word -> Word, m: Machine, bank: Bank, now: seq<Word>, start: seq<Word>)
    requires |now| == |start|
  {
    forall i: Word :: i < |now| ==>
      if i in bank then Content(init, m, bank[i]) == Scalar(now[i]) else now[i] == start[i]
  }

  ghost predicate BankLive(m: Machine, bank: Bank) {
    forall i :: i in bank ==> bank[i] in m.vars
  }

  ghost predicate IsVariable(u: Unit, id: Word) {
    20 <= id < u.nextId && id in Defs(u.code) && id != u.ids.sampledImageVar
  }

  ghost predicate BankAllocated(u: Unit, bank: Bank, size: nat) {
    && (forall i :: i in bank ==> i < size && IsVariable(u, bank[i]))
    && (forall i, j :: i in bank && j in bank && bank[i] == bank[j] ==> i == j)
  }

  ghost predicate Apart(a: Bank, b: Bank) {
    forall i, j :: i in a && j in b ==> a[i] != b[j]
  }

  ghost predicate Allocated(u: Unit) {
    BankAllocated(u, u.sgprs, 104) && BankAllocated(u, u.vgprs, 256) && Apart(u.sgprs, u.vgprs)
  }

  ghost predicate HeaderDefined(u: Unit, stage: Stage) {
    var d := Defs(u.code);
    && {1, 2, 3, 4, 5, 6, 7, 8, 9, 10, 11, 13, 14} <= d
    && (12 in d <==> stage == Fragment) && (15 in d <==> stage == Vertex)
    && {u.ids.glsl, u.ids.uboVar, u.ids.ptrUboFloat} <= d
    && u.ids.sampledImageVar < u.nextId
    && (u.ids.sampledImageVar == 0 || u.ids.sampledImageVar > 15)
    && (u.ids.image ==> {u.ids.typeSampledImage, u.ids.sampledImageVar, u.ids.typeVec2} <= d)
  }

  ghost predicate Bounded(u: Unit) {
    20 <= u.nextId && forall d :: d in Defs(u.code) ==> 1 <= d < u.nextId
  }

  ghost predicate WellFormed(u: Unit, stage: Stage) {
    Unique(u.code) && AllEncodable(u.code) && Bounded(u) && HeaderDefined(u, stage) && Allocated(u)
  }

  ghost predicate Matches(env: Env, u: Unit, r: Registers)
    requires r.Valid() && env.start.Valid()
  {
    var m := Interpret(env, u);
    && m.status == r.status
    && (u.ended ==> !r.status.Running?)
    && m.vals.Keys <= Defs(u.code) && m.vars.Keys <= Defs(u.code)
    && BankMatches(env.init, m, u.sgprs, r.s, env.start.s)
    && BankMatches(env.init, m, u.vgprs, r.v, env.start.v)
    && (Output(env.stage).Some? ==> Content(env.init, m, Output(env.stage).value) == r.output)
    && (Output(env.stage).None? ==> env.start.output == r.output)
    && (r.status.Running? ==> Live(env, u, m))
  }

  ghost predicate Live(env: Env, u: Unit, m: Machine) {
    && 10 in m.vals && m.vals[10] == Scalar(0)
    && 11 in m.vals && m.vals[11] == Scalar(ONE)
    && BankLive(m, u.sgprs) && BankLive(m, u.vgprs)
    && (12 in m.vars <==> env.stage == Fragment) && (15 in m.vars <==> env.stage == Vertex)
    && (u.ids.image ==> u.ids.sampledImageVar in m.vars)
    && u.ids.uboVar in m.vars
  }

  ghost predicate Sim(env: Env, u: Unit, r: Registers) {
    WellFormed(u, env.stage) && r.Valid() && (Agrees(env, u) ==> Matches(env, u, r))
  }

  // The id is defined, and holds the value if execution is still going.
  ghost predicate Holds(env: Env, u: Unit, id: Word, v: Val) {
    id in Defs(u.code) &&
    (Agrees(env, u) && Interpret(env, u).status.Running? ==>
       id in Interpret(env, u).vals && Interpret(env, u).vals[id] == v)
  }

  // Taken from the counter but not yet defined.
  ghost predicate Pending(u: Unit, id: Word) {
    20 <= id < u.nextId && id !in Defs(u.code)
  }

  /** u' continues u, using at most `ids` fresh ids and defining no id of u but
      possibly x. */
  ghost predicate Continues(env: Env, u: Unit, u': Unit, x: Word, ids: nat) {
    && u'.ids == u.ids && u'.ended == u.ended
    && u.nextId <= u'.nextId <= u.nextId + ids
    && Defs(u.code) <= Defs(u'.code)
    && (forall y :: Pending(u, y) && y != x ==> Pending(u', y))
    && (forall y, v :: y != x && Holds(env, u, y, v) ==> Holds(env, u', y, v))
  }

  lemma FreshStep(env: Env, u: Unit, r: Registers)
    requires Sim(env, u, r) && u.nextId + 1 < TWO_32
    ensures var f := Fresh(u);
            Sim(env, f.unit, r) && Pending(f.unit, f.id) && Continues(env, u, f.unit, 0, 1) && f.id == u.nextId
  {
    var f := Fresh(u);
    assert Interpret(env, f.unit) == Interpret(env, u);
    assert Agrees(env, f.unit) <==> Agrees(env, u);
  }

  // A step touches only the id its instruction defines.
  lemma StepFrame(alu: Alu, init: Word -> Word, i: Ins, m: Machine)
    ensures var m' := Step(alu, init, i, m);
            && (forall y :: y in m.vals && y !in Results(i) ==> y in m'.vals && m'.vals[y] == m.vals[y])
            && m'.vals.Keys <= m.vals.Keys + Results(i) && m'.vars.Keys <= m.vars.Keys + Results(i)
            && (m'.status.Running? ==> m.status.Running?)
            && (!m.status.Running? ==> m' == m)
  {
  }

  // Appending one instruction continues the unit.
  lemma AppendContinues(env: Env, u: Unit, u': Unit, i: Ins, x: Word)
    requires u'.code == Snoc(u.code, i) && u'.ids == u.ids && u'.ended == u.ended
    requires u.nextId <= u'.nextId <= u.nextId + 1
    requires Results(i) <= {x} && Bounded(u)
    requires Agrees(env, u') ==> Agrees(env, u)
    ensures Continues(env, u, u', x, 1)
    ensures x >= u.nextId ==> Continues(env, u, u', 0, 1)
    ensures u'.nextId == u.nextId ==> Continues(env, u, u', x, 0)
  {
    StepFrame(env.alu, env.init, i, Interpret(env, u));
  }

  lemma AppendWellFormed(u: Unit, u': Unit, stage: Stage, i: Ins, x: Word)
    requires WellFormed(u, stage) && u' == u.(code := Snoc(u.code, i))
    requires Results(i) == {} || (Results(i) == {x} && Pending(u, x))
    requires Encodable(i)
    ensures WellFormed(u', stage)
  {
  }

  // The static half of creating a register variable.
  lemma VariableWellFormed(u: Unit, u': Unit, stage: Stage, i: Ins, bank: bool, index: Word)
    requires WellFormed(u, stage) && u.nextId + 1 < TWO_32
    requires Results(i) == {u.nextId} && Encodable(i)
    requires u' == u.(code := Snoc(u.code, i), nextId := u.nextId + 1,
                      sgprs := if bank then u.sgprs[index := u.nextId] else u.sgprs,
                      vgprs := if bank then u.vgprs else u.vgprs[index := u.nextId])
    requires index < (if bank then 104 else 256)
    ensures WellFormed(u', stage)
  {
  }

  // A variable that is created now starts with its register's initial word.
  lemma BankGrows(init: Word -> Word, m: Machine, m': Machine, bank: Bank, now: seq<Word>, start: seq<Word>,
                  index: Word, id: Word)
    requires |now| == |start| && index < |now| && index !in bank
    requires BankMatches(init, m, bank, now, start)
    requires init(id) == start[index] && id !in bank.Values
    requires m'.vars == m.vars || m'.vars == m.vars[id := Scalar(init(id))]
    requires id !in m.vars
    ensures BankMatches(init, m', bank[index := id], now, start)
    ensures BankLive(m, bank) && id in m'.vars ==> BankLive(m', bank[index := id])
  {
  }

  lemma BankKeeps(init: Word -> Word, m: Machine, m': Machine, bank: Bank, now: seq<Word>, start: seq<Word>, id: Word)
    requires |now| == |start|
    requires BankMatches(init, m, bank, now, start)
    requires forall i :: i in bank ==> bank[i] != id
    requires forall y: Word :: y != id ==> (y in m'.vars <==> y in m.vars) && (y in m.vars ==> m'.vars[y] == m.vars[y])
    requires id in m.vars ==> id in m'.vars
    ensures BankMatches(init, m', bank, now, start)
    ensures BankLive(m, bank) ==> BankLive(m', bank)
  {
  }

  // Declaring a variable gives it its initial content, if execution gets there.
  lemma VariableEffect(alu: Alu, init: Word -> Word, i: Ins, m: Machine)
    requires i.op == OpVariable && |i.operands| == 3
    ensures Step(alu, init, i, m) ==
            if m.status.Running? then m.(vars := m.vars[i.operands[1] := Scalar(init(i.operands[1]))]) else m
  {
  }

  // The rest of what matches when only a new variable appears.
  lemma NewVariableKeeps(env: Env, u: Unit, u': Unit, r: Registers, m: Machine, m': Machine, id: Word)
    requires u'.ids == u.ids && id >= 20 && u.ids.sampledImageVar != id && u.ids.uboVar != id
    requires m' == m || (m.status.Running? && m' == m.(vars := m.vars[id := Scalar(env.init(id))]))
    ensures Output(env.stage).Some? ==>
              Content(env.init, m', Output(env.stage).value) == Content(env.init, m, Output(env.stage).value)
    ensures Live(env, u, m) && BankLive(m', u'.sgprs) && BankLive(m', u'.vgprs) ==> Live(env, u', m')
  {
    hide BankLive;
  }

  lemma StoreEffect(alu: Alu, init: Word -> Word, variable: Word, id: Word, m: Machine)
    requires m.status.Running? && variable in m.vars && id in m.vals
    ensures Step(alu, init, Ins(OpStore, [variable, id]), m) == m.(vars := m.vars[variable := m.vals[id]])
  {
  }

  lemma FixedBelow(u: Unit, stage: Stage)
    requires HeaderDefined(u, stage) && Bounded(u)
    ensures u.ids.sampledImageVar != u.nextId && u.ids.uboVar != u.nextId
  {
  }

  lemma VariableResult(t: Word, x: Word)
    ensures Results(Ins(OpVariable, [t, x, 7])) == {x}
  {
  }

  lemma SgprMatches(env: Env, u: Unit, u': Unit, r: Registers, i: Word, ins: Ins)
    requires Sim(env, u, r) && u.nextId + 1 < TWO_32 && Agrees(env, u) && Agrees(env, u')
    requires i < 104 && i !in u.sgprs && ins == Ins(OpVariable, [6, u.nextId, 7])
    requires u' == u.(code := Snoc(u.code, ins), nextId := u.nextId + 1, sgprs := u.sgprs[i := u.nextId])
    ensures Matches(env, u', r)
  {
    var m, m' := Interpret(env, u), Interpret(env, u');
    hide Step, Unique, AllEncodable, Results, HeaderDefined;
    VariableEffect(env.alu, env.init, ins, m);
    VariableResult(6, u.nextId);
    assert u'.sgprs[i] == u.nextId;
    BankGrows(env.init, m, m', u.sgprs, r.s, env.start.s, i, u.nextId);
    BankKeeps(env.init, m, m', u.vgprs, r.v, env.start.v, u.nextId);
    FixedBelow(u, env.stage);
    NewVariableKeeps(env, u, u', r, m, m', u.nextId);
    hide BankMatches, BankLive, BankAgrees, Allocated, Live, Content, HeaderDefined, Interpret;
  }

  lemma Unchanged(env: Env, u: Unit)
    ensures Continues(env, u, u, 0, 1)
  {
  }

  lemma SgprAgrees(env: Env, u: Unit, u': Unit, i: Word)
    requires i !in u.sgprs && u' == u.(code := u'.code, nextId := u'.nextId, sgprs := u.sgprs[i := u.nextId])
    ensures Agrees(env, u') ==> Agrees(env, u)
  {
    assert forall k :: k in u.sgprs ==> k in u'.sgprs && u'.sgprs[k] == u.sgprs[k];
  }

  lemma SgprStep(env: Env, u: Unit, r: Registers, index: Word)
    requires Sim(env, u, r) && u.nextId + 1 < TWO_32
    ensures var v := Sgpr(u, index);
            var i: Word := index % 104;
            Sim(env, v.unit, r) && Continues(env, u, v.unit, 0, 1) && Closed(v.unit.code) == Closed(u.code) &&
            i in v.unit.sgprs && v.unit.sgprs[i] == v.id
  {
    hide Agrees, Matches, Interpret, Unique, AllEncodable, Allocated;
    var i: Word := index % 104;
    if i !in u.sgprs {
      var v := Sgpr(u, index).unit;
      var ins := Ins(OpVariable, [6, u.nextId, 7]);
      assert Results(ins) == {u.nextId} && Uses(ins) == {6};
      VariableWellFormed(u, v, env.stage, ins, true, i);
      SgprAgrees(env, u, v, i);
      AppendContinues(env, u, v, ins, u.nextId);
      hide Continues;
      if Agrees(env, v) {
        SgprMatches(env, u, v, r, i, ins);
      }
    } else {
      Unchanged(env, u);
    }
  }

  lemma VgprMatches(env: Env, u: Unit, u': Unit, r: Registers, i: Word, ins: Ins)
    requires Sim(env, u, r) && u.nextId + 1 < TWO_32 && Agrees(env, u) && Agrees(env, u')
    requires i < 256 && i !in u.vgprs && ins == Ins(OpVariable, [7, u.nextId, 7])
    requires u' == u.(code := Snoc(u.code, ins), nextId := u.nextId + 1, vgprs := u.vgprs[i := u.nextId])
    ensures Matches(env, u', r)
  {
    var m, m' := Interpret(env, u), Interpret(env, u');
    hide Step, Unique, AllEncodable, Results, HeaderDefined;
    VariableEffect(env.alu, env.init, ins, m);
    VariableResult(7, u.nextId);
    assert u'.vgprs[i] == u.nextId;
    BankGrows(env.init, m, m', u.vgprs, r.v, env.start.v, i, u.nextId);
    BankKeeps(env.init, m, m', u.sgprs, r.s, env.start.s, u.nextId);
    FixedBelow(u, env.stage);
    NewVariableKeeps(env, u, u', r, m, m', u.nextId);
    hide BankMatches, BankLive, BankAgrees, Allocated, Live, Content, HeaderDefined, Interpret;
  }

  lemma VgprAgrees(env: Env, u: Unit, u': Unit, i: Word)
    requires i !in u.vgprs && u' == u.(code := u'.code, nextId := u'.nextId, vgprs := u.vgprs[i := u.nextId])
    ensures Agrees(env, u') ==> Agrees(env, u)
  {
    assert forall k :: k in u.vgprs ==> k in u'.vgprs && u'.vgprs[k] == u.vgprs[k];
  }

  lemma VgprStep(env: Env, u: Unit, r: Registers, index: Word)
    requires Sim(env, u, r) && u.nextId + 1 < TWO_32
    ensures var v := Vgpr(u, index);
            var i: Word := index % 256;
            Sim(env, v.unit, r) && Continues(env, u, v.unit, 0, 1) && Closed(v.unit.code) == Closed(u.code) &&
            i in v.unit.vgprs && v.unit.vgprs[i] == v.id
  {
    hide Agrees, Matches, Interpret, Unique, AllEncodable, Allocated;
    var i: Word := index % 256;
    if i !in u.vgprs {
      var v := Vgpr(u, index).unit;
      var ins := Ins(OpVariable, [7, u.nextId, 7]);
      assert Results(ins) == {u.nextId} && Uses(ins) == {7};
      VariableWellFormed(u, v, env.stage, ins, false, i);
      VgprAgrees(env, u, v, i);
      AppendContinues(env, u, v, ins, u.nextId);
      hide Continues;
      if Agrees(env, v) {
        VgprMatches(env, u, v, r, i, ins);
      }
    } else {
      Unchanged(env, u);
    }
  }

  // Appending an instruction that leaves the variables alone.
  lemma AppendMatches(env: Env, u: Unit, u': Unit, r: Registers, r': Registers, i: Ins)
    requires WellFormed(u, env.stage) && r.Valid() && Agrees(env, u) && Matches(env, u, r)
    requires u' == u.(code := Snoc(u.code, i))
    requires Interpret(env, u').vars == Interpret(env, u).vars
    requires Results(i) !! Defs(u.code)
    requires r' == r.(status := Interpret(env, u').status)
    requires Interpret(env, u').status.Returned? ==> !Interpret(env, u).status.Running?
    ensures Matches(env, u', r')
  {
    var m, m' := Interpret(env, u), Interpret(env, u');
    StepFrame(env.alu, env.init, i, m);
    BankKeeps(env.init, m, m', u.sgprs, r.s, env.start.s, 0);
    BankKeeps(env.init, m, m', u.vgprs, r.v, env.start.v, 0);
  }

  // A load of a variable whose content is known.
  lemma LoadStep(env: Env, u: Unit, r: Registers, typeId: Word, variable: Word, v: Val)
    requires Sim(env, u, r) && u.nextId + 1 < TWO_32
    requires typeId in Defs(u.code) && variable in Defs(u.code)
    requires Agrees(env, u) && r.status.Running? ==>
               variable in Interpret(env, u).vars && Interpret(env, u).vars[variable] == v
    ensures var l := Load(u, typeId, variable);
            Sim(env, l.unit, r) && Continues(env, u, l.unit, 0, 1) && Closed(l.unit.code) == Closed(u.code) &&
            Holds(env, l.unit, l.id, v) && l.id == u.nextId
  {
    FreshStep(env, u, r);
    var f := Fresh(u);
    var l := Load(u, typeId, variable).unit;
    var ins := Ins(OpLoad, [typeId, f.id, variable]);
    assert Results(ins) == {f.id};
    assert Uses(ins) <= {typeId, variable};
    AppendWellFormed(f.unit, l, env.stage, ins, f.id);
    AppendContinues(env, u, l, ins, f.id);
    if Agrees(env, l) {
      AppendMatches(env, f.unit, l, r, r, ins);
    }
  }

  lemma ReadSStep(env: Env, u: Unit, r: Registers, index: Word)
    requires Sim(env, u, r) && u.nextId + 2 < TWO_32
    ensures var l := ReadS(u, 3, index);
            Sim(env, l.unit, r) && Continues(env, u, l.unit, 0, 2) && Closed(l.unit.code) == Closed(u.code) &&
            Holds(env, l.unit, l.id, Scalar(r.S(index))) && l.id >= u.nextId
  {
    SgprStep(env, u, r, index);
    var v := Sgpr(u, index);
    LoadStep(env, v.unit, r, 3, v.id, Scalar(r.S(index)));
  }

  lemma ReadVStep(env: Env, u: Unit, r: Registers, typeId: Word, index: Word)
    requires Sim(env, u, r) && u.nextId + 2 < TWO_32 && 3 <= typeId <= 4
    ensures var l := ReadV(u, typeId, index);
            Sim(env, l.unit, r) && Continues(env, u, l.unit, 0, 2) && Closed(l.unit.code) == Closed(u.code) &&
            Holds(env, l.unit, l.id, Scalar(r.V(index))) && l.id >= u.nextId
  {
    VgprStep(env, u, r, index);
    var v := Vgpr(u, index);
    LoadStep(env, v.unit, r, typeId, v.id, Scalar(r.V(index)));
  }

  // Ids known to hold the given words.
  ghost predicate AllHold(env: Env, u: Unit, ids: seq<Word>, ws: seq<Word>) {
    |ids| == |ws| && forall k :: 0 <= k < |ids| ==> Holds(env, u, ids[k], Scalar(ws[k]))
  }

  lemma AllHoldWords(env: Env, u: Unit, ids: seq<Word>, ws: seq<Word>)
    requires AllHold(env, u, ids, ws) && Agrees(env, u) && Interpret(env, u).status.Running?
    ensures Scalars(Interpret(env, u), ids) && Words(Interpret(env, u), ids) == ws
  {
    forall k | 0 <= k < |ids|
      ensures ids[k] in Interpret(env, u).vals && Interpret(env, u).vals[ids[k]] == Scalar(ws[k])
    {
      assert Holds(env, u, ids[k], Scalar(ws[k]));
    }
  }

  // Any instruction that gives the pending id x the value v and does nothing else.
  lemma DefineStep(env: Env, u: Unit, u': Unit, r: Registers, ins: Ins, x: Word, v: Val)
    requires Sim(env, u, r) && Pending(u, x) && u' == u.(code := Snoc(u.code, ins))
    requires Results(ins) == {x} && Encodable(ins)
    requires Agrees(env, u) && r.status.Running? ==> Interpret(env, u') == Define(Interpret(env, u), x, v)
    ensures Sim(env, u', r) && Continues(env, u, u', x, 0) && Holds(env, u', x, v)
  {
    AppendWellFormed(u, u', env.stage, ins, x);
    AppendContinues(env, u, u', ins, x);
    if Agrees(env, u) {
      AppendMatches(env, u, u', r, r, ins);
    }
  }

  // The opcodes of plain arithmetic instructions.
  predicate Arithmetic(op: Word) {
    op in {OpCopyObject, OpConvertFToU, OpConvertFToS, OpConvertUToF, OpConvertSToF, OpIAdd, OpFAdd, OpISub, OpFSub,
           OpIMul, OpFMul, OpFDiv, OpFOrdGreaterThan, OpShiftRightLogical, OpShiftRightArithmetic,
           OpShiftLeftLogical, OpBitwiseOr, OpBitwiseXor, OpBitwiseAnd}
  }

  lemma ArithmeticShape(op: Word, t: Word, x: Word, args: seq<Word>)
    requires Arithmetic(op)
    ensures var ins := Ins(op, [t, x] + args);
            Results(ins) == {x} && op < 0x10000 &&
            forall y :: y in Uses(ins) ==> y == t || y in args
  {
    var ins := Ins(op, [t, x] + args);
    assert ResultAt(op) == Some(1);
    assert Uses(ins) == AtOperand(ins, 0) + FromOperand(ins, 2);
  }

  lemma ArithmeticEffect(alu: Alu, init: Word -> Word, op: Word, t: Word, x: Word, args: seq<Word>, m: Machine)
    requires Arithmetic(op) && m.status.Running? && Scalars(m, args)
    ensures CoreOp(op).Some?
    ensures Step(alu, init, Ins(op, [t, x] + args), m) ==
            Define(m, x, Scalar(alu.op(CoreOp(op).value, Words(m, args))))
  {
    assert ([t, x] + args)[2..] == args;
  }

  lemma GlslShape(t: Word, x: Word, set_: Word, number: Word, args: seq<Word>)
    ensures var ins := Ins(OpExtInst, [t, x, set_, number] + args);
            Results(ins) == {x} && forall y :: y in Uses(ins) ==> y == t || y == set_ || y in args
  {
    var ins := Ins(OpExtInst, [t, x, set_, number] + args);
    assert Uses(ins) == AtOperand(ins, 0) + AtOperand(ins, 2) + FromOperand(ins, 4);
    assert forall j :: 4 <= j < |ins.operands| ==> ins.operands[j] in args;
  }

  lemma GlslEffect(alu: Alu, init: Word -> Word, t: Word, x: Word, set_: Word, number: Word, args: seq<Word>, m: Machine)
    requires GlslOp(number).Some? && m.status.Running? && Scalars(m, args)
    ensures Step(alu, init, Ins(OpExtInst, [t, x, set_, number] + args), m) ==
            Define(m, x, Scalar(alu.op(GlslOp(number).value, Words(m, args))))
  {
    assert ([t, x, set_, number] + args)[4..] == args;
  }

  lemma AllHoldDefined(env: Env, u: Unit, ids: seq<Word>, ws: seq<Word>)
    requires AllHold(env, u, ids, ws)
    ensures forall y :: y in ids ==> y in Defs(u.code)
  {
    assert forall k :: 0 <= k < |ids| ==> Holds(env, u, ids[k], Scalar(ws[k]));
  }

  lemma ValueStep(env: Env, u: Unit, r: Registers, op: Word, t: Word, x: Word, args: seq<Word>, ws: seq<Word>)
    requires Sim(env, u, r) && Pending(u, x) && 1 <= t <= 5
    requires Arithmetic(op) && |args| <= 8 && AllHold(env, u, args, ws)
    ensures var u' := Value(u, op, t, x, args);
            Sim(env, u', r) && Continues(env, u, u', x, 0) && Closed(u'.code) == Closed(u.code) &&
            CoreOp(op).Some? && Holds(env, u', x, Scalar(env.alu.op(CoreOp(op).value, ws)))
  {
    var u' := Value(u, op, t, x, args);
    var ins := Ins(op, [t, x] + args);
    ArithmeticShape(op, t, x, args);
    assert CoreOp(op).Some?;
    assert Uses(ins) <= Defs(u.code) by { AllHoldDefined(env, u, args, ws); }
    assert Agrees(env, u) && r.status.Running? ==>
             Interpret(env, u') == Define(Interpret(env, u), x, Scalar(env.alu.op(CoreOp(op).value, ws))) by {
      if Agrees(env, u) && r.status.Running? {
        AllHoldWords(env, u, args, ws);
        ArithmeticEffect(env.alu, env.init, op, t, x, args, Interpret(env, u));
      }
    }
    DefineStep(env, u, u', r, ins, x, Scalar(env.alu.op(CoreOp(op).value, ws)));
  }

  lemma GlslStep(env: Env, u: Unit, r: Registers, x: Word, number: Word, args: seq<Word>, ws: seq<Word>)
    requires Sim(env, u, r) && Pending(u, x)
    requires GlslOp(number).Some? && |args| <= 8 && AllHold(env, u, args, ws)
    ensures var u' := Glsl(u, x, number, args);
            Sim(env, u', r) && Continues(env, u, u', x, 0) && Closed(u'.code) == Closed(u.code) &&
            Holds(env, u', x, Scalar(env.alu.op(GlslOp(number).value, ws)))
  {
    var u' := Glsl(u, x, number, args);
    var ins := Ins(OpExtInst, [4, x, u.ids.glsl, number] + args);
    GlslShape(4, x, u.ids.glsl, number, args);
    assert Uses(ins) <= Defs(u.code) by { AllHoldDefined(env, u, args, ws); }
    assert Agrees(env, u) && r.status.Running? ==>
             Interpret(env, u') == Define(Interpret(env, u), x, Scalar(env.alu.op(GlslOp(number).value, ws))) by {
      if Agrees(env, u) && r.status.Running? {
        AllHoldWords(env, u, args, ws);
        GlslEffect(env.alu, env.init, 4, x, u.ids.glsl, number, args, Interpret(env, u));
      }
    }
    DefineStep(env, u, u', r, ins, x, Scalar(env.alu.op(GlslOp(number).value, ws)));
  }

  // The fixed constants 0.0 and 1.0.
  lemma ConstantsHold(env: Env, u: Unit, r: Registers)
    requires Sim(env, u, r)
    ensures Holds(env, u, 10, Scalar(0)) && Holds(env, u, 11, Scalar(ONE))
  {
  }

  // A store into a bank's variable is a write to its register.
  lemma BankStores(init: Word -> Word, m: Machine, m': Machine, bank: Bank, now: seq<Word>, start: seq<Word>,
                   index: Word, w: Word)
    requires |now| == |start| && index < |now| && index in bank
    requires BankMatches(init, m, bank, now, start) && BankLive(m, bank)
    requires forall i, j :: i in bank && j in bank && bank[i] == bank[j] ==> i == j
    requires m'.vars == m.vars[bank[index] := Scalar(w)]
    ensures BankMatches(init, m', bank, now[index := w], start) && BankLive(m', bank)
  {
  }

  function SetSIfRunning(r: Registers, i: Word, w: Word): Registers
    requires r.Valid()
  {
    if r.status.Running? then r.SetS(i, w) else r
  }

  function SetVIfRunning(r: Registers, i: Word, w: Word): Registers
    requires r.Valid()
  {
    if r.status.Running? then r.SetV(i, w) else r
  }

  lemma StoreMatches(env: Env, u: Unit, u': Unit, r: Registers, scalar: bool, index: Word, id: Word, w: Word)
    requires Sim(env, u, r) && Agrees(env, u) && r.status.Running? && Holds(env, u, id, Scalar(w))
    requires if scalar then (index % 104) in u.sgprs else (index % 256) in u.vgprs
    requires var variable := if scalar then u.sgprs[index % 104] else u.vgprs[index % 256];
             u' == Put(u, OpStore, [variable, id])
    ensures Matches(env, u', if scalar then r.SetS(index, w) else r.SetV(index, w))
  {
    var m, m' := Interpret(env, u), Interpret(env, u');
    var variable := if scalar then u.sgprs[index % 104] else u.vgprs[index % 256];
    StoreEffect(env.alu, env.init, variable, id, m);
    hide Step, Unique, AllEncodable;
    if scalar {
      BankStores(env.init, m, m', u.sgprs, r.s, env.start.s, index % 104, w);
      BankKeeps(env.init, m, m', u.vgprs, r.v, env.start.v, u.sgprs[index % 104]);
    } else {
      BankStores(env.init, m, m', u.vgprs, r.v, env.start.v, index % 256, w);
      BankKeeps(env.init, m, m', u.sgprs, r.s, env.start.s, u.vgprs[index % 256]);
    }
    hide BankMatches, BankAgrees;
  }

  // A store is well formed, and leaves a stopped machine alone.
  lemma StoreStep(env: Env, u: Unit, r: Registers, variable: Word, id: Word)
    requires Sim(env, u, r)
    ensures var u' := Put(u, OpStore, [variable, id]);
            WellFormed(u', env.stage) && Continues(env, u, u', 0, 0) &&
            Closed(u'.code) == (Closed(u.code) && variable in Defs(u.code) && id in Defs(u.code)) &&
            (!r.status.Running? ==> Sim(env, u', r))
  {
    var u' := Put(u, OpStore, [variable, id]);
    var ins := Ins(OpStore, [variable, id]);
    assert Results(ins) == {};
    assert ins.operands[0] == variable && ins.operands[1] == id;
    assert Uses(ins) == {variable, id};
    AppendWellFormed(u, u', env.stage, ins, 0);
    AppendContinues(env, u, u', ins, 0);
    if Agrees(env, u) && !r.status.Running? {
      AppendMatches(env, u, u', r, r, ins);
    }
  }

  lemma WriteSStep(env: Env, u: Unit, r: Registers, index: Word, id: Word, w: Word)
    requires Sim(env, u, r) && u.nextId + 1 < TWO_32 && Holds(env, u, id, Scalar(w)) && id != 0
    ensures var u' := WriteS(u, index, id);
            Sim(env, u', SetSIfRunning(r, index, w)) && Continues(env, u, u', 0, 1) && Closed(u'.code) == Closed(u.code)
  {
    SgprStep(env, u, r, index);
    var v := Sgpr(u, index);
    StoreStep(env, v.unit, r, v.id, id);
    if Agrees(env, v.unit) && r.status.Running? {
      StoreMatches(env, v.unit, WriteS(u, index, id), r, true, index, id, w);
    }
  }

  lemma WriteVStep(env: Env, u: Unit, r: Registers, index: Word, id: Word, w: Word)
    requires Sim(env, u, r) && u.nextId + 1 < TWO_32 && Holds(env, u, id, Scalar(w)) && id != 0
    ensures var u' := WriteV(u, index, id);
            Sim(env, u', SetVIfRunning(r, index, w)) && Continues(env, u, u', 0, 1) && Closed(u'.code) == Closed(u.code)
  {
    VgprStep(env, u, r, index);
    var v := Vgpr(u, index);
    StoreStep(env, v.unit, r, v.id, id);
    if Agrees(env, v.unit) && r.status.Running? {
      StoreMatches(env, v.unit, WriteV(u, index, id), r, false, index, id, w);
    }
  }
}
