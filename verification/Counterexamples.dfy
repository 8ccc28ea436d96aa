/** Modules that the validator accepts and that go wrong, one for each place where it lets
    through what it should refuse. */
module Counterexamples {
  import opened Syntax
  import opened Runtime
  import opened Machine
  import opened Typing
  import opened Invariants
  import opened Instances
  import Deviations
  import StackLemmas
  import TypeSystem

  /** A module of functions and nothing else. */
  function FuncsOnly(types: seq<FuncType>, fs: seq<Func>): Module {
    Module(types, Imports([], [], [], []), fs, [], [], [], [], [], None, [])
  }

  /** Function `i` of that module sits at address `i` of the store. */
  ghost predicate Loaded(S: Store, types: seq<FuncType>, fs: seq<Func>, i: nat) {
    && i < |fs| && fs[i].typeidx < |types| && i < |S.funcs|
    && S.funcs[i].ftype == types[fs[i].typeidx] && S.funcs[i].code == fs[i] && S.funcs[i].inst.types == types
  }

  lemma ModuleChecks(types: seq<FuncType>, fs: seq<Func>)
    requires forall i :: 0 <= i < |fs| ==> fs[i].typeidx < |types|
    ensures TypesKnown(FuncsOnly(types, fs))
    ensures CheckModule(FuncsOnly(types, fs)).Ok? <==> CheckFuncs(ModuleContext(FuncsOnly(types, fs)), fs).Ok?
    ensures ModuleContext(FuncsOnly(types, fs)).types == types && ModuleContext(FuncsOnly(types, fs)).labels == []
  {
    hide CheckFuncs;
    var mod := FuncsOnly(types, fs);
    assert TypesKnown(mod);
    assert CheckStart(FuncTypes(mod), None) == Ok(());
    PartsCheck(types, fs);
  }

  lemma PartsCheck(types: seq<FuncType>, fs: seq<Func>)
    requires TypesKnown(FuncsOnly(types, fs))
    ensures var mod := FuncsOnly(types, fs);
            CheckParts(mod).Ok? <==> CheckFuncs(ModuleContext(mod), fs).Ok?
  {
    hide CheckFuncs, InitContext, ModuleContext;
  }

  lemma OneFunc(types: seq<FuncType>, f: Func)
    requires f.typeidx < |types|
    requires CheckFunc(ModuleContext(FuncsOnly(types, [f])), f).Ok?
    ensures CheckModule(FuncsOnly(types, [f])).Ok?
  {
    hide CheckFunc, ModuleContext, CheckModule;
    ModuleChecks(types, [f]);
    var C := ModuleContext(FuncsOnly(types, [f]));
    var r := CheckFunc(C, f);
    assert [f][1..] == [] && r.value == ();
    assert CheckFuncs(FuncContext(C, types[f.typeidx], f), []) == Ok(());
  }

  lemma Accepts(C: Context, ins: Instr, next: Code, ts: TypeStack, ts': TypeStack)
    requires Check(C, ins, ts) == Ok(ts')
    ensures CheckSeq(C, Cons(ins, next), ts) == CheckSeq(C, next, ts')
  {
  }

  lemma AcceptsConst(C: Context, t: ValType, bits: U64, next: Code, ts: seq<ValType>)
    ensures CheckSeq(C, Cons(Plain(Const(t, bits)), next), TypeStack(ts, false)) == CheckSeq(C, next, TypeStack(ts + [t], false))
  {
    Pushes1(ts, t);
  }

  lemma Pushes1(ts: seq<ValType>, t: ValType)
    ensures Retype(TypeStack(ts, false), [], [t]) == Ok(TypeStack(ts + [t], false))
  {
  }

  lemma Pops1(ts: seq<ValType>, t: ValType, poly: bool)
    ensures TryPop(TypeStack(ts + [t], poly), t) == Ok(TypeStack(ts, poly))
  {
    assert (ts + [t])[..|ts|] == ts;
  }

  /** A list of its end only, once the types of the results are left. */
  lemma AcceptsEnd(C: Context, rt: seq<ValType>)
    ensures CheckSeq(C, END_CODE, TypeStack(rt, false)) == Ok(TypeStack(rt, false))
    ensures CheckEnd(TypeStack(rt, false), rt).Ok?
    ensures CheckBody(C, END_CODE, rt, rt).Ok?
  {
    PopsItself(rt);
  }

  lemma {:induction false} PopsItself(rt: seq<ValType>)
    ensures PopAll(TypeStack(rt, false), rt) == Ok(TypeStack([], false))
    decreases |rt|
  {
    if rt != [] {
      PopsItself(rt[..|rt| - 1]);
    }
  }

  /** A call without arguments that finds room for its activation. */
  lemma Enter(fuel: nat, i: U32, S: Store)
    requires i < |S.funcs| && S.funcs[i].ftype.rt1 == [] && S.funcs[i].code.locals == []
    ensures var f := S.funcs[i];
            var arity := |f.ftype.rt2|;
            Invoke(fuel, i, [], S) ==
            match Exec(fuel, f.code.body, 0, [OFrame(arity, [], f.inst), OLabel(arity, Nil, END_CODE)], S)
            case Done(s', S', fuel') => LeaveFrame(arity, s', S', fuel')
            case r => r
  {
    var f := S.funcs[i];
    var arity := |f.ftype.rt2|;
    assert [] + [OFrame(arity, [], f.inst)] + [OLabel(arity, Nil, END_CODE)] == [OFrame(arity, [], f.inst), OLabel(arity, Nil, END_CODE)];
    assert Below([], 0) == [] && Top([], 0) == [];
    assert FrameSlots([], []) == Some([]) by { assert [] + ZeroVals([]) == []; }
  }

  lemma Continue(fuel: nat, ip: Code, s: Stk, S: Store, ip': Code, s': Stk)
    requires fuel > 0 && ip.Cons? && StepInstr(ip, 0, s, S) == Next(ip', s', S)
    ensures Exec(fuel, ip, 0, s, S) == Exec(fuel - 1, ip', 0, s', S)
  {
  }

  lemma Stop(fuel: nat, s: Stk, S: Store)
    ensures Exec(fuel, Nil, 0, s, S) == Done(s, S, fuel)
  {
  }

  // ---------------------------------------------------------------- a stray ELSE

  const INT_TYPE: seq<FuncType> := [FuncType([], [I32])]
  const STRAY_ELSE: Code := Cons(Else, Cons(Plain(Const(I32, 1)), END_CODE))

  lemma StrayElseAccepted(C: Context)
    requires C.types == INT_TYPE
    ensures CheckFunc(C, Func(0, [], STRAY_ELSE)).Ok?
  {
    var C1 := FuncContext(C, C.types[0], Func(0, [], STRAY_ELSE));
    Accepts(C1, Else, STRAY_ELSE.next, TypeStack([], false), TypeStack([], false));
    AcceptsConst(C1, I32, 1, END_CODE, []);
    AcceptsEnd(C1, [I32]);
  }

  /** The validator passes over ELSE, the machine leaves the function there, and its result
      is missing. */
  lemma StrayElse(fuel: nat, S: Store)
    requires fuel > 0 && Loaded(S, INT_TYPE, [Func(0, [], STRAY_ELSE)], 0)
    ensures CheckModule(FuncsOnly(INT_TYPE, [Func(0, [], STRAY_ELSE)])).Ok?
    ensures Invoke(fuel, 0, [], S) == Stuck
  {
    hide CheckFunc, ModuleContext, CheckModule, Invoke, Exec, StepInstr, LeaveFrame;
    var types, f := INT_TYPE, Func(0, [], STRAY_ELSE);
    ModuleChecks(types, [f]);
    StrayElseAccepted(ModuleContext(FuncsOnly(types, [f])));
    OneFunc(types, f);
    Enter(fuel, 0, S);
    var frame, lab := OFrame(1, [], S.funcs[0].inst), OLabel(1, Nil, END_CODE);
    assert [frame, lab] == [frame] + [lab] + OVals([]);
    assert [frame] == [frame] + OVals([]);
    EndsList(STRAY_ELSE, [frame], lab, [], S);
    Continue(fuel, STRAY_ELSE, [frame, lab], S, Nil, [frame]);
    Stop(fuel - 1, [frame], S);
    assert LeaveFrame(1, [frame], S, fuel - 1) == Stuck by { NoResult(frame, S, fuel - 1); }
  }

  lemma NoResult(frame: Obj, S: Store, fuel: nat)
    requires frame.OFrame?
    ensures LeaveFrame(1, [frame], S, fuel) == Stuck
  {
    var s := [frame][0..];
    assert !s[0].OVal?;
  }

  // ---------------------------------------------------------------- a funcref block

  const REF_TYPE: seq<FuncType> := [FuncType([], [FUNCREF])]
  const FUNCREF_BLOCK: Code := Cons(Block(FUNCREF, Cons(Plain(RefNull(FUNCREF)), END_CODE), Nil), END_CODE)

  lemma FuncrefBlockAccepted(C: Context)
    requires C.types == REF_TYPE
    ensures CheckFunc(C, Func(0, [], FUNCREF_BLOCK)).Ok?
  {
    hide CheckBody;
    var C1 := FuncContext(C, C.types[0], Func(0, [], FUNCREF_BLOCK));
    FuncChecks(C, Func(0, [], FUNCREF_BLOCK));
    var C2 := WithLabel(C1, [FUNCREF]);
    Pushes1([], FUNCREF);
    assert [] + [FUNCREF] == [FUNCREF];
    Accepts(C2, Plain(RefNull(FUNCREF)), END_CODE, TypeStack([], false), TypeStack([FUNCREF], false));
    AcceptsEnd(C2, [FUNCREF]);
    assert BlockTypeOf(C1, FUNCREF) == Ok(FuncType([], [FUNCREF]));
    BodyOf(C2, FUNCREF_BLOCK.ins.in1, [FUNCREF]);
    Accepts(C1, FUNCREF_BLOCK.ins, END_CODE, TypeStack([], false), TypeStack([FUNCREF], false));
    AcceptsEnd(C1, [FUNCREF]);
    BodyOf(C1, FUNCREF_BLOCK, [FUNCREF]);
  }

  /** The machine has no expansion for the block type. */
  lemma FuncrefBlock(fuel: nat, S: Store)
    requires fuel > 0 && Loaded(S, REF_TYPE, [Func(0, [], FUNCREF_BLOCK)], 0)
    ensures CheckModule(FuncsOnly(REF_TYPE, [Func(0, [], FUNCREF_BLOCK)])).Ok?
    ensures Invoke(fuel, 0, [], S) == Stuck
  {
    hide CheckFunc, ModuleContext, CheckModule, Invoke, StepInstr, LeaveFrame;
    var types, f := REF_TYPE, Func(0, [], FUNCREF_BLOCK);
    ModuleChecks(types, [f]);
    FuncrefBlockAccepted(ModuleContext(FuncsOnly(types, [f])));
    OneFunc(types, f);
    Enter(fuel, 0, S);
    NoExpansion(OFrame(1, [], S.funcs[0].inst), OLabel(1, Nil, END_CODE), S);
  }

  lemma NoExpansion(frame: Obj, lab: Obj, S: Store)
    requires frame.OFrame? && frame.inst.types == REF_TYPE
    ensures StepInstr(FUNCREF_BLOCK, 0, [frame, lab], S) == Fails
  {
    hide PushLabel, StepLoop, StepIf, StepEnd, StepBr, StepPlain, StepCallIndirect, TopVals;
    assert Expand(FUNCREF, frame.inst) == None;
    assert StepBlock(FUNCREF_BLOCK, [frame, lab], S, frame.inst) == Fails;
  }

  // ---------------------------------------------------------------- labels of a br_table

  const LONG_TYPE: seq<FuncType> := [FuncType([], [I64])]
  const MIXED_TARGETS: Code := Cons(Plain(Const(I32, 7)), Cons(Plain(Const(I32, 1)), Cons(BrTable([0], 1), END_CODE)))
  const MIXED_TABLE: Code :=
    Cons(Block(I32, MIXED_TARGETS, Nil), Cons(Plain(Drop), Cons(Plain(Const(I64, 0)), END_CODE)))

  lemma MixedTargetsAccepted(C: Context)
    requires |C.labels| >= 2 && C.labels[|C.labels| - 1] == [I32] && C.labels[|C.labels| - 2] == [I64]
    ensures CheckBody(C, MIXED_TARGETS, [], [I32]).Ok?
  {
    hide CheckTargets, Check;
    var table := MIXED_TARGETS.next.next;
    AcceptsConst(C, I32, 7, MIXED_TARGETS.next, []);
    AcceptsConst(C, I32, 1, table, [I32]);
    assert [] + [I32] == [I32] && [I32] + [I32] == [I32, I32];
    TargetsAccepted(C);
    Accepts(C, table.ins, END_CODE, TypeStack([I32, I32], false), UNREACHABLE);
    Accepts(C, End, Nil, UNREACHABLE, UNREACHABLE) by { assert Check(C, End, UNREACHABLE) == Ok(UNREACHABLE) by { EndChecks(C, UNREACHABLE); } }
    Deviations.UnreachablePops([I32]);
  }

  lemma EndChecks(C: Context, ts: TypeStack)
    ensures Check(C, End, ts) == Ok(ts)
  {
  }

  lemma TargetsAccepted(C: Context)
    requires |C.labels| >= 2 && C.labels[|C.labels| - 1] == [I32] && C.labels[|C.labels| - 2] == [I64]
    ensures Check(C, BrTable([0], 1), TypeStack([I32, I32], false)) == Ok(UNREACHABLE)
  {
    hide PopAll, TryPop;
    assert [I32, I32] == [I32] + [I32];
    Pops1([I32], I32, false);
    PopsItself([I32]);
    assert TryPop(UNREACHABLE, I32) == Ok(UNREACHABLE) by { UnreachablePop(I32); }
    Deviations.UnreachablePops([I64]);
    var ls: seq<U32> := [0];
    assert ls[1..] == [];
    assert CheckTargets(C, [], [I64], UNREACHABLE) == Ok(UNREACHABLE);
    assert CheckTargets(C, ls, [I64], TypeStack([I32, I32], false)) == Ok(UNREACHABLE);
  }

  lemma UnreachablePop(t: ValType)
    ensures TryPop(UNREACHABLE, t) == Ok(UNREACHABLE)
  {
  }

  lemma MixedTableAccepted(C: Context)
    requires C.types == LONG_TYPE
    ensures CheckFunc(C, Func(0, [], MIXED_TABLE)).Ok?
  {
    hide CheckBody;
    var C1 := FuncContext(C, C.types[0], Func(0, [], MIXED_TABLE));
    FuncChecks(C, Func(0, [], MIXED_TABLE));
    MixedTargetsAccepted(WithLabel(C1, [I32]));
    Pushes1([], I32);
    assert [] + [I32] == [I32];
    Accepts(C1, MIXED_TABLE.ins, MIXED_TABLE.next, TypeStack([], false), TypeStack([I32], false));
    Accepts(C1, Plain(Drop), MIXED_TABLE.next.next, TypeStack([I32], false), TypeStack([], false));
    AcceptsConst(C1, I64, 0, END_CODE, []);
    assert [] + [I64] == [I64];
    AcceptsEnd(C1, [I64]);
    BodyOf(C1, MIXED_TABLE, [I64]);
  }

  lemma BodyOf(C: Context, code: Code, rt: seq<ValType>)
    requires CheckSeq(C, code, TypeStack([], false)) == Ok(TypeStack(rt, false))
    ensures CheckBody(C, code, [], rt).Ok?
  {
    PopsItself(rt);
  }

  /** A branch to the second label carries an i32 to where an i64 is declared. */
  lemma MixedTable(fuel: nat, S: Store)
    requires fuel > 3 && Loaded(S, LONG_TYPE, [Func(0, [], MIXED_TABLE)], 0)
    ensures CheckModule(FuncsOnly(LONG_TYPE, [Func(0, [], MIXED_TABLE)])).Ok?
    ensures Invoke(fuel, 0, [], S) == Done(OVals([Val(I32, 7)]), S, fuel - 4)
    ensures !Matches(true, |S.funcs|, [Val(I32, 7)], [I64])
  {
    hide CheckFunc, ModuleContext, CheckModule, Invoke;
    var types, f := LONG_TYPE, Func(0, [], MIXED_TABLE);
    ModuleChecks(types, [f]);
    MixedTableAccepted(ModuleContext(FuncsOnly(types, [f])));
    OneFunc(types, f);
    MixedTableRuns(fuel, S);
    assert !Fits(true, |S.funcs|, [Val(I32, 7)][0], [I64][0]);
  }

  lemma MixedTableRuns(fuel: nat, S: Store)
    requires fuel > 3 && Loaded(S, LONG_TYPE, [Func(0, [], MIXED_TABLE)], 0)
    ensures Invoke(fuel, 0, [], S) == Done(OVals([Val(I32, 7)]), S, fuel - 4)
  {
    hide Invoke, Exec, StepInstr, LeaveFrame;
    Enter(fuel, 0, S);
    var frame, lab, inner := OFrame(1, [], S.funcs[0].inst), OLabel(1, Nil, END_CODE), OLabel(1, MIXED_TABLE, END_CODE);
    var s1: Stk := [frame, lab, inner];
    var s2, s3 := s1 + [OVal(Val(I32, 7))], s1 + [OVal(Val(I32, 7)), OVal(Val(I32, 1))];
    EnterBlock(MIXED_TABLE, [frame, lab], S);
    Continue(fuel, MIXED_TABLE, [frame, lab], S, MIXED_TARGETS, s1);
    PushesConst(MIXED_TARGETS, s1, S);
    Continue(fuel - 1, MIXED_TARGETS, s1, S, MIXED_TARGETS.next, s2);
    PushesConst(MIXED_TARGETS.next, s2, S);
    assert s2 + [OVal(Val(I32, 1))] == s3;
    Continue(fuel - 2, MIXED_TARGETS.next, s2, S, MIXED_TARGETS.next.next, s3);
    TableJumps(MIXED_TARGETS.next.next, frame, lab, inner, S);
    assert s3 == [frame, lab, inner, OVal(Val(I32, 7)), OVal(Val(I32, 1))];
    Continue(fuel - 3, MIXED_TARGETS.next.next, s3, S, Nil, [frame, OVal(Val(I32, 7))]);
    assert [frame] + OVals([Val(I32, 7)]) == [frame, OVal(Val(I32, 7))];
    Stop(fuel - 4, [frame, OVal(Val(I32, 7))], S);
    LeavesWith(frame, [Val(I32, 7)], S, fuel - 4);
  }

  lemma EnterBlock(ip: Code, s: Stk, S: Store)
    requires ip.Cons? && ip.ins.Block? && ip.ins.bt == I32 && 0 < |s| < 10 && s[0].OFrame?
    ensures StepInstr(ip, 0, s, S) == Next(ip.ins.in1, s + [OLabel(1, ip, END_CODE)], S)
  {
    assert Below(s, 0) + [OLabel(1, ip, END_CODE)] + OVals(Top(s, 0)) == s + [OLabel(1, ip, END_CODE)];
  }

  lemma PushesConst(ip: Code, s: Stk, S: Store)
    requires ip.Cons? && ip.ins.Plain? && ip.ins.op.Const? && 0 < |s| < 10 && s[0].OFrame?
    ensures StepInstr(ip, 0, s, S) == Next(ip.next, s + [OVal(Val(ip.ins.op.t, ip.ins.op.bits))], S)
  {
    var s1 := Below(s, 0);
    assert s1 == s && s[0 := s[0].(locals := s[0].locals)] == s;
    assert OVals([Val(ip.ins.op.t, ip.ins.op.bits)]) == [OVal(Val(ip.ins.op.t, ip.ins.op.bits))];
  }

  lemma TableJumps(ip: Code, frame: Obj, lab: Obj, inner: Obj, S: Store)
    requires ip.Cons? && ip.ins == BrTable([0], 1) && frame.OFrame? && lab == OLabel(1, Nil, END_CODE) && inner.OLabel?
    ensures StepInstr(ip, 0, [frame, lab, inner, OVal(Val(I32, 7)), OVal(Val(I32, 1))], S) == Next(Nil, [frame, OVal(Val(I32, 7))], S)
  {
    var s: Stk := [frame, lab, inner, OVal(Val(I32, 7)), OVal(Val(I32, 1))];
    var s1: Stk := [frame, lab, inner, OVal(Val(I32, 7))];
    var s2: Stk := [frame, lab, inner];
    assert Below(s, 1) == s1 && Below(s1, 1) == s2;
    hide LabelAt, Unwind;
    SecondLabel(frame, lab, inner);
    assert Top(s1, 1) == [Val(I32, 7)] && [frame] + OVals(Top(s1, 1)) == [frame, OVal(Val(I32, 7))];
  }

  lemma SecondLabel(frame: Obj, lab: Obj, inner: Obj)
    requires frame.OFrame? && lab.OLabel? && inner.OLabel?
    ensures LabelAt([frame, lab, inner, OVal(Val(I32, 7))], 1) == Some(1)
    ensures Unwind([frame, lab, inner], 2) == Some(([frame], lab))
  {
    var s: Stk := [frame, lab, inner];
    StackLemmas.LabelAtVals(s, [Val(I32, 7)], 1);
    assert s + OVals([Val(I32, 7)]) == [frame, lab, inner, OVal(Val(I32, 7))];
    assert s[..2] == [frame, lab] && LabelAt([frame, lab], 0) == Some(1);
    assert TopVals(s) == 0 && Below(s, 0) == s;
    assert TopVals([frame, lab]) == 0 && Below([frame, lab], 0) == [frame, lab] && [frame, lab][..1] == [frame];
    assert Unwind([frame, lab], 1) == Some(([frame], lab));
  }

  lemma LeavesWith(frame: Obj, vals: seq<Val>, S: Store, fuel: nat)
    requires frame.OFrame? && |vals| < 10
    ensures LeaveFrame(|vals|, [frame] + OVals(vals), S, fuel) == Done(OVals(vals), S, fuel)
  {
    var s: Stk := [frame] + OVals(vals);
    assert Below(s, |vals|) == [frame] && s[1..] == OVals(vals) && Top(s, |vals|) == vals;
    assert DropToFrame([frame]) == [frame] && [frame][..0] + OVals(vals) == OVals(vals);
  }

  // ---------------------------------------------------------------- parameters of an if

  const REVERSED_TYPES: seq<FuncType> := [FuncType([I32, I64], [I32, I64]), FuncType([], [I32, I64])]
  const REVERSED_IF: Code :=
    Cons(Plain(Const(I64, 5)), Cons(Plain(Const(I32, 6)), Cons(Plain(Const(I32, 1)), Cons(If(0, END_CODE, Nil), END_CODE))))

  lemma ReversedIfAccepted(C: Context)
    requires C.types == REVERSED_TYPES
    ensures CheckFunc(C, Func(1, [], REVERSED_IF)).Ok?
  {
    hide CheckBody, CheckFunc;
    var C1 := FuncContext(C, C.types[1], Func(1, [], REVERSED_IF));
    var if_ := REVERSED_IF.next.next.next;
    AcceptsConst(C1, I64, 5, REVERSED_IF.next, []);
    AcceptsConst(C1, I32, 6, REVERSED_IF.next.next, [I64]);
    AcceptsConst(C1, I32, 1, if_, [I64, I32]);
    assert [] + [I64] == [I64] && [I64] + [I32] == [I64, I32] && [I64, I32] + [I32] == [I64, I32, I32];
    IfChecks(C1, if_.ins);
    Accepts(C1, if_.ins, END_CODE, TypeStack([I64, I32, I32], false), TypeStack([I32, I64], false));
    AcceptsEnd(C1, [I32, I64]);
    BodyOf(C1, REVERSED_IF, [I32, I64]);
    assert CheckFunc(C, Func(1, [], REVERSED_IF)) == CheckBody(C1, REVERSED_IF, [], [I32, I64]) by { FuncChecks(C, Func(1, [], REVERSED_IF)); }
  }

  lemma FuncChecks(C: Context, f: Func)
    requires f.typeidx < |C.types|
    ensures CheckFunc(C, f) == CheckBody(FuncContext(C, C.types[f.typeidx], f), f.body, [], C.types[f.typeidx].rt2)
  {
  }

  lemma IfChecks(C: Context, ins: Instr)
    requires C.types == REVERSED_TYPES && ins == If(0, END_CODE, Nil)
    ensures Check(C, ins, TypeStack([I64, I32, I32], false)) == Ok(TypeStack([I32, I64], false))
  {
    var inner := WithLabel(C, [I32, I64]);
    AcceptsEnd(inner, [I32, I64]);
    assert CheckBody(inner, Nil, [I32, I64], [I32, I64]).Ok? by { PopsItself([I32, I64]); }
    var ts: TypeStack := TypeStack([I64, I32], false);
    assert [I64, I32, I32] == [I64, I32] + [I32];
    Pops1([I64, I32], I32, false);
    assert PopForward(ts, [I32, I64]) == Ok(TypeStack([], false)) by { ForwardPops(); }
    assert PushAll(TypeStack([], false), [I32, I64]) == TypeStack([I32, I64], false);
    hide CheckBody, PopForward, TryPop, PushAll;
  }

  lemma ForwardPops()
    ensures PopForward(TypeStack([I64, I32], false), [I32, I64]) == Ok(TypeStack([], false))
  {
    assert [I64, I32] == [I64] + [I32] && [I64] == [] + [I64] && [I32, I64][1..] == [I64] && [I64][1..] == [];
    Pops1([I64], I32, false);
    Pops1([], I64, false);
    hide TryPop;
    assert PopForward(TypeStack([], false), []) == Ok(TypeStack([], false));
    assert PopForward(TypeStack([I64], false), [I64]) == Ok(TypeStack([], false));
  }

  /** The operands pass through in the wrong order. */
  lemma ReversedIf(fuel: nat, S: Store)
    requires fuel > 5 && Loaded(S, REVERSED_TYPES, [Func(1, [], REVERSED_IF)], 0)
    ensures CheckModule(FuncsOnly(REVERSED_TYPES, [Func(1, [], REVERSED_IF)])).Ok?
    ensures Invoke(fuel, 0, [], S) == Done(OVals([Val(I64, 5), Val(I32, 6)]), S, fuel - 6)
    ensures !Matches(true, |S.funcs|, [Val(I64, 5), Val(I32, 6)], [I32, I64])
  {
    hide CheckFunc, ModuleContext, CheckModule, Invoke;
    var types, f := REVERSED_TYPES, Func(1, [], REVERSED_IF);
    ModuleChecks(types, [f]);
    ReversedIfAccepted(ModuleContext(FuncsOnly(types, [f])));
    OneFunc(types, f);
    ReversedIfRuns(fuel, S);
    assert !Fits(true, |S.funcs|, [Val(I64, 5), Val(I32, 6)][0], [I32, I64][0]);
  }

  lemma ReversedIfRuns(fuel: nat, S: Store)
    requires fuel > 5 && Loaded(S, REVERSED_TYPES, [Func(1, [], REVERSED_IF)], 0)
    ensures Invoke(fuel, 0, [], S) == Done(OVals([Val(I64, 5), Val(I32, 6)]), S, fuel - 6)
  {
    hide Invoke, Exec, StepInstr, LeaveFrame;
    Enter(fuel, 0, S);
    var frame, lab := OFrame(2, [], S.funcs[0].inst), OLabel(2, Nil, END_CODE);
    var a, b, c := OVal(Val(I64, 5)), OVal(Val(I32, 6)), OVal(Val(I32, 1));
    var s0: Stk := [frame, lab];
    var if_ := REVERSED_IF.next.next.next;
    PushesConst(REVERSED_IF, s0, S);
    Continue(fuel, REVERSED_IF, s0, S, REVERSED_IF.next, s0 + [a]);
    PushesConst(REVERSED_IF.next, s0 + [a], S);
    assert s0 + [a] + [b] == s0 + [a, b];
    Continue(fuel - 1, REVERSED_IF.next, s0 + [a], S, REVERSED_IF.next.next, s0 + [a, b]);
    PushesConst(REVERSED_IF.next.next, s0 + [a, b], S);
    assert s0 + [a, b] + [c] == s0 + [a, b, c];
    Continue(fuel - 2, REVERSED_IF.next.next, s0 + [a, b], S, if_, s0 + [a, b, c]);
    EnterIf(if_, s0, a, b, S);
    var inner := OLabel(2, if_, END_CODE);
    Continue(fuel - 3, if_, s0 + [a, b, c], S, END_CODE, s0 + [inner] + [a, b]);
    assert OVals([Val(I64, 5), Val(I32, 6)]) == [a, b];
    EndsList(END_CODE, s0, inner, [Val(I64, 5), Val(I32, 6)], S);
    Continue(fuel - 4, END_CODE, s0 + [inner] + [a, b], S, END_CODE, s0 + [a, b]);
    assert s0 + [a, b] == [frame] + [lab] + [a, b];
    EndsList(END_CODE, [frame], lab, [Val(I64, 5), Val(I32, 6)], S);
    Continue(fuel - 5, END_CODE, s0 + [a, b], S, Nil, [frame] + [a, b]);
    LeavesWith(frame, [Val(I64, 5), Val(I32, 6)], S, fuel - 6);
    Stop(fuel - 6, [frame] + [a, b], S);
  }

  lemma EnterIf(ip: Code, s0: Stk, a: Obj, b: Obj, S: Store)
    requires ip.Cons? && ip.ins == If(0, END_CODE, Nil) && |s0| == 2 && s0[0].OFrame? && a.OVal? && b.OVal?
    requires s0[0].inst.types == REVERSED_TYPES
    ensures StepInstr(ip, 0, s0 + [a, b, OVal(Val(I32, 1))], S) == Next(END_CODE, s0 + [OLabel(2, ip, END_CODE)] + [a, b], S)
  {
    var s := s0 + [a, b, OVal(Val(I32, 1))];
    var s1 := s0 + [a, b];
    hide StepLoop, StepEnd, StepBr, StepPlain, StepCallIndirect, TopVals, LabelAt;
    assert Below(s, 1) == s1;
    assert Below(s1, 2) == s0;
    assert s1[2..] == [a, b];
    var vals := Top(s1, 2);
    assert vals[0] == a.v && vals[1] == b.v;
    assert OVals(vals) == [a, b];
  }

  lemma EndsList(ip: Code, below: Stk, lab: Obj, vals: seq<Val>, S: Store)
    requires ip.Cons? && (ip.ins.End? || ip.ins.Else?) && below != [] && below[0].OFrame? && lab.OLabel?
    ensures StepInstr(ip, 0, below + [lab] + OVals(vals), S) == Next(AfterLabel(lab), below + OVals(vals), S)
  {
    var s := below + [lab] + OVals(vals);
    StackLemmas.TopValsOf(below + [lab], vals);
    assert Below(s, |vals|) == below + [lab] && Top(s, |vals|) == vals;
    assert (below + [lab])[..|below|] == below;
  }

  // ---------------------------------------------------------------- a label left behind

  const LEFT_TYPES: seq<FuncType> := [FuncType([], [])]
  const LEFT_FUNCS: seq<Func> := [Func(0, [], END_CODE), Func(0, [], Cons(Br(1), END_CODE))]

  lemma LeftAccepted(C: Context)
    requires C.types == LEFT_TYPES && C.labels == []
    ensures CheckFuncs(C, LEFT_FUNCS).Ok?
    ensures CheckFunc(C, LEFT_FUNCS[1]) == Err(UnknownLabel)
  {
    hide CheckBody, CheckFunc;
    var f, g := LEFT_FUNCS[0], LEFT_FUNCS[1];
    var C1 := FuncContext(C, C.types[0], f);
    FuncChecks(C, f);
    AcceptsEnd(C1, []);
    var C2 := FuncContext(C1, C.types[0], g);
    FuncChecks(C1, g);
    assert Leave(TypeStack([], false), []) == Ok(UNREACHABLE);
    Accepts(C2, Br(1), END_CODE, TypeStack([], false), UNREACHABLE);
    assert CheckSeq(C2, END_CODE, UNREACHABLE) == Ok(UNREACHABLE);
    assert CheckBody(C2, g.body, [], []).Ok? by { OpenBody(C2, g.body); }
    assert LEFT_FUNCS[1..] == [g] && [g][1..] == [];
    assert CheckFuncs(FuncContext(C1, C.types[0], g), []) == Ok(());
    var D := FuncContext(C, C.types[0], g);
    FuncChecks(C, g);
    assert CheckBody(D, g.body, [], []) == Err(UnknownLabel) by { OutsideBody(D, g.body); }
  }

  lemma OpenBody(C: Context, code: Code)
    requires CheckSeq(C, code, TypeStack([], false)) == Ok(UNREACHABLE)
    ensures CheckBody(C, code, [], []).Ok?
  {
  }

  lemma OutsideBody(C: Context, code: Code)
    requires code == Cons(Br(1), END_CODE) && |C.labels| == 1
    ensures CheckBody(C, code, [], []) == Err(UnknownLabel)
  {
  }

  /** The second function jumps to the label of the first. On its own it is refused; in the
      module it is accepted, and the machine finds no such label. */
  lemma LeftoverLabel(fuel: nat, S: Store)
    requires fuel > 0 && Loaded(S, LEFT_TYPES, LEFT_FUNCS, 1)
    ensures CheckModule(FuncsOnly(LEFT_TYPES, LEFT_FUNCS)).Ok?
    ensures CheckFunc(ModuleContext(FuncsOnly(LEFT_TYPES, LEFT_FUNCS)), LEFT_FUNCS[1]) == Err(UnknownLabel)
    ensures Invoke(fuel, 1, [], S) == Stuck
  {
    hide CheckFunc, CheckFuncs, ModuleContext, CheckModule;
    ModuleChecks(LEFT_TYPES, LEFT_FUNCS);
    LeftAccepted(ModuleContext(FuncsOnly(LEFT_TYPES, LEFT_FUNCS)));
    Enter(fuel, 1, S);
    var s: Stk := [OFrame(0, [], S.funcs[1].inst), OLabel(0, Nil, END_CODE)];
    assert s[..1] == [s[0]] && LabelAt([s[0]], 0) == None && LabelAt(s, 1) == None;
    hide LabelAt;
    assert StepInstr(LEFT_FUNCS[1].body, 0, s, S) == Fails;
  }

  // ---------------------------------------------------------------- ref.is_null on a number

  const NULL_TEST: Code := Cons(Plain(Const(I32, 0)), Cons(Plain(RefIsNull), Cons(Plain(Drop), END_CODE)))

  lemma NullTestChecks(C: Context)
    ensures CheckBody(C, NULL_TEST, [], []).Ok?
    ensures Check(C, NULL_TEST.ins, TypeStack([], false)) == Ok(TypeStack([I32], false))
  {
    hide CheckBody, Check, CheckPlain, TryPop, PopAll;
    var ts0, ts1: TypeStack := TypeStack([], false), TypeStack([I32], false);
    PlainIs(C, NULL_TEST.ins.op, ts0);
    PlainIs(C, RefIsNull, ts1);
    PlainIs(C, Drop, ts1);
    NullTestTypes(C);
    AcceptsConst(C, I32, 0, NULL_TEST.next, []);
    assert [] + [I32] == [I32];
    Pops1([], I32, false);
    assert TryPop(ts1, ANY) == Ok(ts0) by { PopsAny(); }
    TypeSystem.NullPops(C, ts1);
    Accepts(C, Plain(RefIsNull), NULL_TEST.next.next, ts1, ts1);
    Accepts(C, Plain(Drop), END_CODE, ts1, ts0);
    AcceptsEnd(C, []);
    BodyOf(C, NULL_TEST, []);
  }

  lemma PlainIs(C: Context, op: Plain, ts: TypeStack)
    ensures Check(C, Plain(op), ts) == CheckPlain(C, op, ts)
  {
  }

  lemma PopsAny()
    ensures TryPop(TypeStack([I32], false), ANY) == Ok(TypeStack([], false))
  {
  }

  /** The first and the last instruction before END. */
  lemma NullTestTypes(C: Context)
    ensures CheckPlain(C, Const(I32, 0), TypeStack([], false)) == Ok(TypeStack([I32], false))
    ensures CheckPlain(C, Drop, TypeStack([I32], false)) == Ok(TypeStack([], false))
  {
    Pushes1([], I32);
    assert [] + [I32] == [I32];
    PopsAny();
  }

  lemma NullTestIrregular(C: Context)
    requires Check(C, NULL_TEST.ins, TypeStack([], false)) == Ok(TypeStack([I32], false))
    ensures !TypeSystem.Regular(C, NULL_TEST, TypeStack([], false))
  {
    hide Check;
    assert !TypeSystem.RegularInstr(C, NULL_TEST.next.ins, TypeStack([I32], false));
  }

  /** Accepted, and no typing exists: the validator is looser than the type system. */
  lemma NullOnNumber(C: Context)
    requires TypeSystem.ProperContext(C)
    ensures CheckBody(C, NULL_TEST, [], []).Ok?
    ensures !TypeSystem.TypedBody(C, NULL_TEST, [], [])
  {
    hide TypeSystem.TypedBody, TypeSystem.ProperContext, TypeSystem.Regular, CheckBody, Check;
    NullTestChecks(C);
    NullTestIrregular(C);
    TypeSystem.BodyDecided(C, NULL_TEST, [], []);
  }
}
