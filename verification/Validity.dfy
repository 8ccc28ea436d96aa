/** Modules that are valid by the standard and accepted by the validator: from well-typedness in
    the standard's type system to safety of the machine, with no further premise on types. */
module Validity {
  import opened Syntax
  import opened Runtime
  import opened Machine
  import opened Typing
  import opened Invariants
  import opened Deviations
  import opened TypeSystem
  import opened Decoding
  import opened Instances
  import I = InstanceProofs
  import P = Pipeline
  import Preservation

  // ---------------------------------------------------------------- code

  /** No block type is the funcref byte, which the machine cannot expand. */
  predicate NoFuncref(code: Code)
    decreases code
  {
    code.Cons? ==> NoFuncrefInstr(code.ins) && NoFuncref(code.next)
  }

  predicate NoFuncrefInstr(ins: Instr)
    decreases ins
  {
    match ins
    case Block(bt, in1, _) => bt % 0x100 != FUNCREF && NoFuncref(in1)
    case Loop(bt, in1, _) => bt % 0x100 != FUNCREF && NoFuncref(in1)
    case If(bt, in1, in2) => bt % 0x100 != FUNCREF && NoFuncref(in1) && NoFuncref(in2)
    case _ => true
  }

  /** What is regular meets the premises of soundness and preservation. */
  lemma {:induction false} RegularPremise(C: Context, code: Code, ts: TypeStack)
    requires Regular(C, code, ts) && NoFuncref(code)
    ensures Premise(true, C, code, ts)
    decreases code
  {
    hide Check, RegularInstr, PremiseInstr, NoFuncrefInstr;
    if code.Cons? && !ts.poly {
      InstrPremise(C, code.ins, ts);
      if Check(C, code.ins, ts).Ok? {
        RegularPremise(C, code.next, Check(C, code.ins, ts).value);
      }
    }
  }

  lemma {:induction false} InstrPremise(C: Context, ins: Instr, ts: TypeStack)
    requires RegularInstr(C, ins, ts) && NoFuncrefInstr(ins)
    ensures PremiseInstr(true, C, ins, ts)
    decreases ins
  {
    hide Regular, Premise, RegularIf, RegularTable, BlockTypeOf, NoFuncref;
    match ins
    case Block(bt, in1, _) =>
      if BlockTypeOf(C, bt).Ok? {
        var ft := BlockTypeOf(C, bt).value;
        RegularPremise(WithLabel(C, ft.rt2), in1, TypeStack(ft.rt1, false));
      }
    case Loop(bt, in1, _) =>
      if BlockTypeOf(C, bt).Ok? {
        var ft := BlockTypeOf(C, bt).value;
        RegularPremise(WithLabel(C, ft.rt1), in1, TypeStack(ft.rt1, false));
      }
    case If(bt, in1, in2) =>
      if BlockTypeOf(C, bt).Ok? {
        var ft := BlockTypeOf(C, bt).value;
        RegularPremise(WithLabel(C, ft.rt2), in1, TypeStack(ft.rt1, false));
        RegularPremise(WithLabel(C, ft.rt2), in2, TypeStack(ft.rt1, false));
      }
    case _ =>
  }

  /** Well typed code names no label that is not there. */
  lemma {:induction false} SeqWithin(C: Context, code: Code, s: seq<ValType>, s': seq<ValType>)
    requires Typed(C, code, s, s')
    ensures Within(code, |C.labels|)
    decreases code, 0
  {
    hide TypedInstr, WithinInstr;
    if code.Cons? {
      var mid :| TypedInstr(C, code.ins, s, mid) && Typed(C, code.next, mid, s');
      InstrWithin(C, code.ins, s, mid);
      SeqWithin(C, code.next, mid, s');
    }
  }

  lemma {:induction false} BodyWithin(C: Context, code: Code, rt1: seq<ValType>, rt2: seq<ValType>)
    requires TypedBody(C, code, rt1, rt2)
    ensures Within(code, |C.labels|)
    decreases code, 1
  {
    hide Typed;
    var s' :| Typed(C, code, rt1, s') && SubAll(s', rt2);
    SeqWithin(C, code, rt1, s');
  }

  lemma {:induction false} InstrWithin(C: Context, ins: Instr, s: seq<ValType>, s': seq<ValType>)
    requires TypedInstr(C, ins, s, s')
    ensures WithinInstr(ins, |C.labels|)
    decreases ins, 2
  {
    hide TypedBody, Within, BlockTypeOf, EndsWithin, Rewrites, TypedPlain;
    match ins
    case Block(bt, in1, _) =>
      var ft := BlockTypeOf(C, bt).value;
      BodyWithin(WithLabel(C, ft.rt2), in1, ft.rt1, ft.rt2);
    case Loop(bt, in1, _) =>
      var ft := BlockTypeOf(C, bt).value;
      BodyWithin(WithLabel(C, ft.rt1), in1, ft.rt1, ft.rt2);
    case If(bt, in1, in2) =>
      var ft := BlockTypeOf(C, bt).value;
      BodyWithin(WithLabel(C, ft.rt2), in1, ft.rt1, ft.rt2);
      BodyWithin(WithLabel(C, ft.rt2), in2, ft.rt1, ft.rt2);
    case _ =>
  }

  // ---------------------------------------------------------------- modules

  /** Well typed in the standard's type system, without a stray ELSE, which is no instruction
      of the standard, and without funcref blocks. */
  ghost predicate ValidFunc(mod: Module, f: Func)
    requires TypesKnown(mod) && f.typeidx < |mod.types|
  {
    var C := FuncContext(ModuleContext(mod), mod.types[f.typeidx], f);
    && ProperContext(C) && TypedBody(C, f.body, [], mod.types[f.typeidx].rt2)
    && NoStrayElse(f.body, false) && NoFuncref(f.body)
  }

  ghost predicate ValidInit(mod: Module, code: Code, t: ValType)
    requires TypesKnown(mod)
  {
    IsValTypeCode(t) && TypedBody(InitContext(mod), code, [], [t])
  }

  ghost predicate ValidMode(mod: Module, mode: Mode)
    requires TypesKnown(mod)
  {
    mode.Active? ==> ValidInit(mod, mode.offset, I32)
  }

  ghost predicate ValidModule(mod: Module)
    requires TypesKnown(mod)
  {
    && ProperContext(ModuleContext(mod))
    && (forall i :: 0 <= i < |mod.funcs| ==> ValidFunc(mod, mod.funcs[i]))
    && (forall i :: 0 <= i < |mod.globals| ==> ValidInit(mod, mod.globals[i].init, mod.globals[i].gt.t))
    && (forall i, j :: 0 <= i < |mod.elems| && 0 <= j < |mod.elems[i].init| ==>
          ValidInit(mod, mod.elems[i].init[j], mod.elems[i].reftype))
    && (forall i :: 0 <= i < |mod.elems| ==> ValidMode(mod, mod.elems[i].mode))
    && (forall i :: 0 <= i < |mod.datas| ==> ValidMode(mod, mod.datas[i].mode))
  }

  lemma ProperIsClean(C: Context)
    requires ProperContext(C)
    ensures CleanContext(C)
  {
  }

  lemma FirstTyped(C: Context, code: Code, rt1: seq<ValType>, rt2: seq<ValType>) returns (mid: seq<ValType>)
    requires TypedBody(C, code, rt1, rt2) && code.Cons?
    ensures TypedInstr(C, code.ins, rt1, mid)
  {
    hide Typed;
    var s' :| Typed(C, code, rt1, s') && SubAll(s', rt2);
    mid := FirstStep(C, code, rt1, s');
  }

  lemma FirstStep(C: Context, code: Code, s: seq<ValType>, s': seq<ValType>) returns (mid: seq<ValType>)
    requires Typed(C, code, s, s') && code.Cons?
    ensures TypedInstr(C, code.ins, s, mid)
  {
    hide TypedInstr;
    mid :| TypedInstr(C, code.ins, s, mid) && Typed(C, code.next, mid, s');
  }

  /** An initialiser's first instruction carries only types of the right kind. */
  lemma InitAdmissible(mod: Module, code: Code, t: ValType)
    requires TypesKnown(mod) && ValidInit(mod, code, t)
    ensures P.AdmissibleInit(true, code, t)
  {
    hide InitContext, TypedBody;
    if code.Cons? && code.ins.Plain? {
      var mid := FirstTyped(InitContext(mod), code, [], [t]);
      assert TypedPlain(InitContext(mod), code.ins.op, [], mid);
    }
  }

  lemma FuncAdmissible(mod: Module, i: nat)
    requires TypesKnown(mod) && CheckFuncs(ModuleContext(mod), mod.funcs).Ok? && i < |mod.funcs| && ValidFunc(mod, mod.funcs[i])
    ensures P.AdmissibleFunc(true, mod, mod.funcs[i])
  {
    hide CheckFuncs, CheckFunc, TypedBody, Regular, Premise, Within, ProperContext, CleanContext;
    var f, C0 := mod.funcs[i], ModuleContext(mod);
    var ft := mod.types[f.typeidx];
    var C := FuncContext(C0, ft, f);
    assert C0.labels == [] && C.labels == [ft.rt2];
    BodyWithin(C, f.body, [], ft.rt2);
    I.FuncAccepted(C0, mod.funcs, i);
    FuncDecided(C0, f);
    RegularPremise(C, f.body, TypeStack([], false));
    ProperIsClean(C);
  }

  lemma ValidIsAdmissible(mod: Module)
    requires CheckModule(mod).Ok? && ValidModule(mod)
    ensures P.Admissible(true, mod)
  {
    hide ValidInit, ValidFunc, P.AdmissibleInit, P.AdmissibleFunc, CheckFuncs, CheckGlobals, CheckElems, CheckDatas, CheckStart, ProperContext,
         CleanContext;
    forall i | 0 <= i < |mod.funcs| ensures P.AdmissibleFunc(true, mod, mod.funcs[i]) {
      FuncAdmissible(mod, i);
    }
    forall i | 0 <= i < |mod.globals| ensures P.AdmissibleInit(true, mod.globals[i].init, mod.globals[i].gt.t) {
      InitAdmissible(mod, mod.globals[i].init, mod.globals[i].gt.t);
    }
    forall i, j | 0 <= i < |mod.elems| && 0 <= j < |mod.elems[i].init|
      ensures P.AdmissibleInit(true, mod.elems[i].init[j], mod.elems[i].reftype)
    {
      InitAdmissible(mod, mod.elems[i].init[j], mod.elems[i].reftype);
    }
    forall i | 0 <= i < |mod.elems| ensures P.AdmissibleMode(true, mod.elems[i].mode) {
      assert ValidMode(mod, mod.elems[i].mode);
      if mod.elems[i].mode.Active? {
        InitAdmissible(mod, mod.elems[i].mode.offset, I32);
      }
    }
    forall i | 0 <= i < |mod.datas| ensures P.AdmissibleMode(true, mod.datas[i].mode) {
      assert ValidMode(mod, mod.datas[i].mode);
      if mod.datas[i].mode.Active? {
        InitAdmissible(mod, mod.datas[i].mode.offset, I32);
      }
    }
    ProperIsClean(ModuleContext(mod));
  }

  /** A call of function `x` with arguments of its parameter types passes only typed states. */
  ghost predicate TypedCall(fuel: nat, inst: Option<ModInst>, x: nat, args: seq<Val>, ft: FuncType, S: Store) {
    && inst.Some? && x < |inst.value.funcaddrs|
    && (Matches(true, |S.funcs|, args, ft.rt1) && |args| <= CAPACITY ==>
          Preservation.ThroughoutCall(fuel, inst.value.funcaddrs[x], OVals(args), S))
  }

  /** What valid modules are promised: a module decoded from bytes, valid by the standard's type
      system, accepted by the validator and linked with what it imports instantiates without
      going wrong. From then on every call of every one of its functions, for any fuel, returns
      results of the declared types, traps, runs on or comes to a place that C leaves open, and
      at every instruction on the way, in all functions called, the values on the stack have
      the types of the validator's check at that point. */
  lemma ValidModuleIsSafe(S: Store, mod: Module, ext: Externs, hasData: bool, startFuel: nat, fuel: nat, x: nat, args: seq<Val>)
    requires CheckModule(mod).Ok? && P.Decoded(mod, hasData) && ValidModule(mod)
    requires StoreOk(true, S) && Room(S, mod) && I.Resolves(true, S, mod, ext)
    ensures var (r, inst) := Instantiate(startFuel, S, mod, ext, []);
            && P.Instantiated(true, r, inst, mod, fuel, x, args)
            && (r.Going? && x < |FuncTypes(mod)| ==> TypedCall(fuel, inst, x, args, FuncTypes(mod)[x], r.store))
  {
    hide CheckModule, P.Decoded, ValidModule, I.Resolves, Instantiate, StoreOk, Linked, FuncTypes, Preservation.ThroughoutCall, P.Admissible,
         Matches;
    assert TypesKnown(mod) by { I.KnownTypes(mod); }
    ValidIsAdmissible(mod);
    P.DecodedModuleIsSafe(true, S, mod, ext, hasData, startFuel, fuel, x, args);
    var (r, inst) := Instantiate(startFuel, S, mod, ext, []);
    if r.Going? && x < |FuncTypes(mod)| && Matches(true, |r.store.funcs|, args, FuncTypes(mod)[x].rt1) && |args| <= CAPACITY {
      var addr := inst.value.funcaddrs[x];
      Preservation.EveryStateTyped(fuel, addr, [], args, r.store);
      assert [] + OVals(args) == OVals(args);
    }
  }
}
