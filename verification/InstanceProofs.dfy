/** Instantiating an accepted module succeeds, and the store then has every property that the
    theorems about runs require. */
module InstanceProofs {
  import opened Syntax
  import opened Runtime
  import opened Machine
  import opened Typing
  import opened Invariants
  import opened Instances
  import Deviations

  // ---------------------------------------------------------------- one initialiser

  /** What the theorems ask of an initialiser beyond validation: decoded shape; with types,
      no pushed type is 0 and constants are numbers. */
  ghost predicate InitPremise(strict: bool, code: Code, t: ValType) {
    && WellFormed(code, false)
    && (strict ==> t != ANY && (code.ins.Plain? ==>
          (code.ins.op.RefNull? ==> code.ins.op.t != ANY) && (code.ins.op.Const? ==> code.ins.op.t in {I32, I64, F32, F64})))
  }

  /** The instance filled in so far covers the context: its functions, and the imported
      globals, whose slots hold values of the declared types. */
  ghost predicate Covers(strict: bool, S: Store, m: ModInst, C: Context) {
    && |C.funcs| <= |m.funcaddrs|
    && (forall i :: 0 <= i < |C.funcs| ==> m.funcaddrs[i] < |S.funcs|)
    && |C.globals| <= |m.globaladdrs|
    && (forall i :: 0 <= i < |C.globals| ==> Slot(strict, S, m.globaladdrs[i], C.globals[i].t))
  }

  ghost predicate Slot(strict: bool, S: Store, a: nat, t: ValType) {
    a < |S.globals| && S.globals[a].t == t && (strict ==> t != ANY) && Fits(strict, |S.funcs|, S.globals[a].val, t)
  }

  /** The type a constant instruction pushes. */
  ghost function ConstType(C: Context, ins: Instr): Option<ValType>
  {
    if !ins.Plain? then None else
    match ins.op
    case Const(t, _) => Some(t)
    case RefNull(t) => Some(t)
    case RefFunc(_) => Some(FUNCREF)
    case GlobalGet(x) => if x < |C.globals| then Some(C.globals[x].t) else None
    case _ => None
  }

  lemma ConstChecks(C: Context, ins: Instr, ts: seq<ValType>)
    requires ConstantInstr(C, ins) && Check(C, ins, TypeStack(ts, false)).Ok?
    ensures ConstType(C, ins).Some? && Check(C, ins, TypeStack(ts, false)) == Ok(TypeStack(ts + [ConstType(C, ins).value], false))
    ensures ins.op.RefFunc? ==> ins.op.x < |C.funcs|
  {
    assert PopAll(TypeStack(ts, false), []) == Ok(TypeStack(ts, false));
  }

  /** A constant list never gets shorter stacks, and END alone pushes nothing. */
  lemma {:induction false} ConstGrows(C: Context, code: Code, ts: seq<ValType>)
    requires IsConstant(C, code) && WellFormed(code, false) && CheckSeq(C, code, TypeStack(ts, false)).Ok?
    ensures var r := CheckSeq(C, code, TypeStack(ts, false)).value;
            !r.poly && |r.types| >= |ts| + (if code.ins.End? then 0 else 1)
    ensures code.ins.End? ==> CheckSeq(C, code, TypeStack(ts, false)).value.types == ts
    decreases code
  {
    if !code.ins.End? {
      ConstChecks(C, code.ins, ts);
      ConstGrows(C, code.next, ts + [ConstType(C, code.ins).value]);
    } else {
      assert CheckSeq(C, Nil, TypeStack(ts, false)) == Ok(TypeStack(ts, false));
    }
  }

  /** An accepted initialiser is one constant instruction and END. */
  lemma InitShape(C: Context, code: Code, t: ValType)
    requires CheckInit(C, code, t).Ok? && WellFormed(code, false)
    ensures code.Cons? && ConstantInstr(C, code.ins) && code.next == END_CODE && ConstType(C, code.ins).Some?
    ensures var u := ConstType(C, code.ins).value; u == t || u == ANY || t == ANY
    ensures code.ins.op.RefFunc? ==> code.ins.op.x < |C.funcs|
  {
    ConstGrows(C, code, []);
    var r := CheckSeq(C, code, TypeStack([], false)).value;
    PopAllExact(r.types, [t]);
    assert !code.ins.End?;
    ConstChecks(C, code.ins, []);
    var u := ConstType(C, code.ins).value;
    assert [] + [u] == [u];
    ConstGrows(C, code.next, [u]);
    assert code.next.ins.End?;
  }

  /** The value a constant instruction gives in an instance: its own number, the null
      reference, the address of a function, or what an imported global holds. */
  ghost function ConstValue(S: Store, m: ModInst, op: Plain): Val {
    match op
    case Const(t, bits) => Val(t, bits)
    case RefNull(t) => Val(t, 0xFFFF_FFFF)
    case RefFunc(x) => if x < |m.funcaddrs| then Val(FUNCREF, m.funcaddrs[x]) else Val(ANY, 0)
    case GlobalGet(x) => if x < |m.globaladdrs| && m.globaladdrs[x] < |S.globals| then S.globals[m.globaladdrs[x]].val else Val(ANY, 0)
    case _ => Val(ANY, 0)
  }

  lemma InitPerforms(strict: bool, S: Store, m: ModInst, C: Context, ins: Instr)
    requires ConstantInstr(C, ins) && ConstType(C, ins).Some? && Covers(strict, S, m, C)
    requires ins.op.RefFunc? ==> ins.op.x < |C.funcs|
    requires strict && ins.op.Const? ==> ins.op.t in {I32, I64, F32, F64}
    ensures var r := Perform(ins.op, [], [], S, m);
            && r.Did? && |r.results| == 1 && r.locals == [] && r.store == S
            && Fits(strict, |S.funcs|, r.results[0], ConstType(C, ins).value) && r.results[0] == ConstValue(S, m, ins.op)
  {
    match ins.op
    case GlobalGet(x) => assert Slot(strict, S, m.globaladdrs[x], C.globals[x].t);
    case _ =>
  }

  /** Two instructions: push the constant, and END at the frame. */
  lemma RunConstant(S: Store, m: ModInst, base: Stk, op: Plain, v: Val)
    requires |base| + 2 <= CAPACITY && Pops(op) == 0 && Pushes(op) == 1 && Perform(op, [], [], S, m) == Did([v], [], S)
    ensures InitValue(S, m, base, Cons(Instr.Plain(op), END_CODE)) == Some(v)
  {
    hide Perform, Exec;
    var code := Cons(Instr.Plain(op), END_CODE);
    assert Length(code) == 2 by { assert Length(END_CODE) == 1 + Length(Nil); }
    var s := base + [OFrame(0, [], m)];
    var s' := s + [OVal(v)];
    assert Top(s, 0) == [] && Below(s, 0) == s;
    assert s[|base| := s[|base|].(locals := [])] == s;
    assert OVals([v]) == [OVal(v)];
    assert StepInstr(code, |base|, s, S) == Next(END_CODE, s', S);
    OneStep(2, code, |base|, s, S, END_CODE, s', S);
    EndAtFrame(base, OFrame(0, [], m), v, S);
    OneStep(1, END_CODE, |base|, s', S, Nil, s', S);
    assert Exec(0, Nil, |base|, s', S) == Done(s', S, 0) by { StopsAtNil(0, |base|, s', S); }
    assert s'[|s'| - 1..] == [OVal(v)];
  }

  lemma StopsAtNil(fuel: nat, fi: nat, s: Stk, S: Store)
    ensures Exec(fuel, Nil, fi, s, S) == Done(s, S, fuel)
  {
  }

  lemma OneStep(fuel: nat, code: Code, fi: nat, s: Stk, S: Store, code': Code, s': Stk, S': Store)
    requires fuel > 0 && code.Cons? && StepInstr(code, fi, s, S) == Next(code', s', S')
    ensures Exec(fuel, code, fi, s, S) == Exec(fuel - 1, code', fi, s', S')
  {
    hide StepInstr;
  }

  lemma EndAtFrame(base: Stk, frame: Obj, v: Val, S: Store)
    requires frame.OFrame?
    ensures StepInstr(END_CODE, |base|, base + [frame] + [OVal(v)], S) == Next(Nil, base + [frame] + [OVal(v)], S)
  {
    var s := base + [frame] + [OVal(v)];
    assert s[..|s| - 1] == base + [frame];
    assert TopVals(base + [frame]) == 0;
    assert TopVals(s) == 1;
  }

  /** Running an accepted initialiser reads only slots that are filled, and gives a value of
      the declared type. */
  lemma InitRuns(strict: bool, S: Store, m: ModInst, base: Stk, C: Context, code: Code, t: ValType)
    requires CheckInit(C, code, t).Ok? && InitPremise(strict, code, t) && Covers(strict, S, m, C) && |base| + 2 <= CAPACITY
    ensures code.Cons? && code.ins.Plain? && (code.ins.op.GlobalGet? ==> code.ins.op.x < |C.globals|)
    ensures InitValue(S, m, base, code).Some? && Fits(strict, |S.funcs|, InitValue(S, m, base, code).value, t)
    ensures InitValue(S, m, base, code).value == ConstValue(S, m, code.ins.op)
  {
    hide InitValue, Perform, CheckInit, Covers, Fits, WellFormed;
    InitShape(C, code, t);
    InitPerforms(strict, S, m, C, code.ins);
    NoAnyConst(strict, S, m, C, code, t);
    var v := Perform(code.ins.op, [], [], S, m).results[0];
    RunConstant(S, m, base, code.ins.op, v);
    FitsSame(strict, |S.funcs|, v, ConstType(C, code.ins).value, t);
  }

  lemma NoAnyConst(strict: bool, S: Store, m: ModInst, C: Context, code: Code, t: ValType)
    requires InitPremise(strict, code, t) && Covers(strict, S, m, C) && ConstantInstr(C, code.ins) && ConstType(C, code.ins).Some?
    ensures strict ==> ConstType(C, code.ins).value != ANY
  {
    if code.ins.op.GlobalGet? {
      assert Slot(strict, S, m.globaladdrs[code.ins.op.x], C.globals[code.ins.op.x].t);
    }
  }

  lemma FitsSame(strict: bool, nf: nat, v: Val, u: ValType, t: ValType)
    requires Fits(strict, nf, v, u) && (strict ==> u == t)
    ensures Fits(strict, nf, v, t)
  {
  }

  // ---------------------------------------------------------------- globals

  ghost predicate GlobalsPremise(strict: bool, gs: seq<GlobalDef>) {
    forall i :: 0 <= i < |gs| ==> InitPremise(strict, gs[i].init, gs[i].gt.t)
  }

  /** `gis` are instances of `gs`. */
  ghost predicate GlobalsOf(strict: bool, nf: nat, gis: seq<GlobalInst>, gs: seq<GlobalDef>) {
    && |gis| == |gs|
    && forall i :: 0 <= i < |gs| ==> gis[i].t == gs[i].gt.t && gis[i].mutable == gs[i].gt.mutable && Fits(strict, nf, gis[i].val, gis[i].t)
  }

  /** The result of allocating `gs`. */
  ghost predicate GlobalsMade(strict: bool, S: Store, m: ModInst, gs: seq<GlobalDef>, S': Store, m': ModInst)
    requires |S.globals| + |gs| <= ADDRESSES
  {
    && |S'.globals| == |S.globals| + |gs| && S'.globals[..|S.globals|] == S.globals
    && GlobalsOf(strict, |S.funcs|, S'.globals[|S.globals|..], gs)
    && S' == S.(globals := S'.globals) && m' == m.(globaladdrs := m.globaladdrs + Fresh(|S.globals|, |gs|))
  }

  lemma {:induction false} GlobalsRun(strict: bool, S: Store, m: ModInst, base: Stk, C: Context, gs: seq<GlobalDef>)
    requires CheckGlobals(C, gs).Ok? && GlobalsPremise(strict, gs) && Covers(strict, S, m, C) && |base| + 2 <= CAPACITY
    requires |S.globals| + |gs| <= ADDRESSES
    ensures var r := AllocGlobals(S, m, base, gs);
            r.Some? && GlobalsMade(strict, S, m, gs, r.value.0, r.value.1)
    decreases |gs|
  {
    hide InitValue, InitPremise;
    if gs == [] {
      assert S.globals[|S.globals|..] == [];
      assert m.globaladdrs + Fresh(|S.globals|, 0) == m.globaladdrs;
    } else {
      var g := gs[0];
      InitRuns(strict, S, m, base, C, g.init, g.gt.t);
      var v := InitValue(S, m, base, g.init).value;
      var S1 := S.(globals := S.globals + [GlobalInst(g.gt.t, g.gt.mutable, v)]);
      var m1 := m.(globaladdrs := m.globaladdrs + [|S.globals|]);
      CoversMore(strict, S, m, C, GlobalInst(g.gt.t, g.gt.mutable, v));
      GlobalsRun(strict, S1, m1, base, C, gs[1..]);
      var (S', m') := AllocGlobals(S1, m1, base, gs[1..]).value;
      GlobalsStep(strict, S, m, gs, v, S', m');
    }
  }

  lemma CoversMore(strict: bool, S: Store, m: ModInst, C: Context, g: GlobalInst)
    requires Covers(strict, S, m, C) && |S.globals| < ADDRESSES
    ensures Covers(strict, S.(globals := S.globals + [g]), m.(globaladdrs := m.globaladdrs + [|S.globals|]), C)
  {
    var S1, m1 := S.(globals := S.globals + [g]), m.(globaladdrs := m.globaladdrs + [|S.globals|]);
    forall i | 0 <= i < |C.globals|
      ensures Slot(strict, S1, m1.globaladdrs[i], C.globals[i].t)
    {
      assert Slot(strict, S, m.globaladdrs[i], C.globals[i].t);
    }
  }

  lemma GlobalsStep(strict: bool, S: Store, m: ModInst, gs: seq<GlobalDef>, v: Val, S': Store, m': ModInst)
    requires gs != [] && |S.globals| + |gs| <= ADDRESSES && Fits(strict, |S.funcs|, v, gs[0].gt.t)
    requires GlobalsMade(strict, S.(globals := S.globals + [GlobalInst(gs[0].gt.t, gs[0].gt.mutable, v)]),
                         m.(globaladdrs := m.globaladdrs + [|S.globals|]), gs[1..], S', m')
    ensures GlobalsMade(strict, S, m, gs, S', m')
  {
    var n := |S.globals|;
    var tail := S'.globals[n + 1..];
    assert S'.globals[..n] == S'.globals[..n + 1][..n];
    assert S'.globals[n] == S'.globals[..n + 1][n];
    forall i | 0 <= i < |gs|
      ensures var gi := S'.globals[n..][i]; gi.t == gs[i].gt.t && gi.mutable == gs[i].gt.mutable && Fits(strict, |S.funcs|, gi.val, gi.t)
    {
      if i > 0 {
        assert gs[i] == gs[1..][i - 1] && S'.globals[n..][i] == tail[i - 1];
      }
    }
    assert m.globaladdrs + [n] + Fresh(n + 1, |gs| - 1) == m.globaladdrs + Fresh(n, |gs|);
  }

  // ---------------------------------------------------------------- element segments

  ghost predicate ElemsPremise(strict: bool, es: seq<ElemDef>) {
    forall i, j :: 0 <= i < |es| && 0 <= j < |es[i].init| ==> InitPremise(strict, es[i].init[j], es[i].reftype)
  }

  lemma {:induction false} InitsRun(strict: bool, S: Store, m: ModInst, base: Stk, C: Context, inits: seq<Code>, t: ValType)
    requires CheckInits(C, inits, t).Ok? && Covers(strict, S, m, C) && |base| + 2 <= CAPACITY
    requires forall i :: 0 <= i < |inits| ==> InitPremise(strict, inits[i], t)
    ensures var r := InitRefsOf(S, m, base, inits); r.Some? && |r.value| == |inits| && (strict ==> RefsOk(|S.funcs|, t, r.value))
    decreases |inits|
  {
    hide InitValue, InitPremise, Covers, CheckInit;
    if inits != [] {
      InitRuns(strict, S, m, base, C, inits[0], t);
      InitsRun(strict, S, m, base, C, inits[1..], t);
      var v, rs := InitValue(S, m, base, inits[0]).value, InitRefsOf(S, m, base, inits[1..]).value;
      assert forall i :: 0 < i < |[AsU32(v)] + rs| ==> ([AsU32(v)] + rs)[i] == rs[i - 1];
    }
  }

  ghost predicate ElemsMade(strict: bool, S: Store, m: ModInst, es: seq<ElemDef>, S': Store, m': ModInst)
    requires |S.elems| + |es| <= ADDRESSES
  {
    && |S'.elems| == |S.elems| + |es| && S'.elems[..|S.elems|] == S.elems
    && (forall i :: 0 <= i < |es| ==> ElemOf(strict, |S.funcs|, S'.elems[|S.elems|..][i], es[i]))
    && S' == S.(elems := S'.elems) && m' == m.(elemaddrs := m.elemaddrs + Fresh(|S.elems|, |es|))
  }

  ghost predicate ElemOf(strict: bool, nf: nat, ei: ElemInst, e: ElemDef) {
    ei.reftype == e.reftype && |ei.elems| == |e.init| && (strict ==> RefsOk(nf, ei.reftype, ei.elems))
  }

  lemma CoversElems(strict: bool, S: Store, m: ModInst, C: Context, e: ElemInst, a: U32, t: ValType)
    requires Covers(strict, S, m, C)
    ensures Covers(strict, S.(elems := S.elems + [e]), m.(elemaddrs := m.elemaddrs + [a]), C.(elems := C.elems + [t]))
  {
    var S1 := S.(elems := S.elems + [e]);
    forall i | 0 <= i < |C.globals|
      ensures Slot(strict, S1, m.globaladdrs[i], C.globals[i].t)
    {
      assert Slot(strict, S, m.globaladdrs[i], C.globals[i].t);
    }
  }

  lemma {:induction false} ElemsRun(strict: bool, S: Store, m: ModInst, base: Stk, C: Context, es: seq<ElemDef>)
    requires CheckElems(C, es).Ok? && ElemsPremise(strict, es) && Covers(strict, S, m, C) && |base| + 2 <= CAPACITY
    requires |S.elems| + |es| <= ADDRESSES
    ensures var r := AllocElems(S, m, base, es);
            r.Some? && ElemsMade(strict, S, m, es, r.value.0, r.value.1)
    decreases |es|
  {
    hide InitRefsOf, InitPremise, Covers, CheckInits, CheckElemMode;
    if es == [] {
      assert S.elems[|S.elems|..] == [];
      assert m.elemaddrs + Fresh(|S.elems|, 0) == m.elemaddrs;
    } else {
      var e := es[0];
      InitsRun(strict, S, m, base, C, e.init, e.reftype);
      var ei := ElemInst(e.reftype, InitRefsOf(S, m, base, e.init).value);
      CoversElems(strict, S, m, C, ei, |S.elems|, e.reftype);
      var S1, m1 := S.(elems := S.elems + [ei]), m.(elemaddrs := m.elemaddrs + [|S.elems|]);
      ElemsRun(strict, S1, m1, base, C.(elems := C.elems + [e.reftype]), es[1..]);
      var (S', m') := AllocElems(S1, m1, base, es[1..]).value;
      ElemsStep(strict, S, m, es, ei, S', m');
    }
  }

  lemma ElemsStep(strict: bool, S: Store, m: ModInst, es: seq<ElemDef>, ei: ElemInst, S': Store, m': ModInst)
    requires es != [] && |S.elems| + |es| <= ADDRESSES && ElemOf(strict, |S.funcs|, ei, es[0])
    requires ElemsMade(strict, S.(elems := S.elems + [ei]), m.(elemaddrs := m.elemaddrs + [|S.elems|]), es[1..], S', m')
    ensures ElemsMade(strict, S, m, es, S', m')
  {
    hide ElemOf;
    var n := |S.elems|;
    var tail := S'.elems[n + 1..];
    assert S'.elems[..n] == S'.elems[..n + 1][..n];
    assert S'.elems[n] == S'.elems[..n + 1][n];
    forall i | 0 <= i < |es|
      ensures ElemOf(strict, |S.funcs|, S'.elems[n..][i], es[i])
    {
      if i > 0 {
        assert es[i] == es[1..][i - 1] && S'.elems[n..][i] == tail[i - 1];
      }
    }
    assert m.elemaddrs + [n] + Fresh(n + 1, |es| - 1) == m.elemaddrs + Fresh(n, |es|);
  }

  // ---------------------------------------------------------------- the whole module

  /** The host links each import with an instance of the declared type. */
  ghost predicate Resolves(strict: bool, S: Store, mod: Module, ext: Externs)
    requires TypesKnown(mod)
  {
    && |ext.funcs| == |mod.imports.funcs|
    && (forall i :: 0 <= i < |ext.funcs| ==>
          ext.funcs[i] < |S.funcs| && S.funcs[ext.funcs[i]].ftype == mod.types[mod.imports.funcs[i]])
    && |ext.tables| == |mod.imports.tables|
    && (forall i :: 0 <= i < |ext.tables| ==>
          ext.tables[i] < |S.tables| && S.tables[ext.tables[i]].reftype == mod.imports.tables[i])
    && |ext.mems| == |mod.imports.mems| && (forall i :: 0 <= i < |ext.mems| ==> ext.mems[i] < |S.mems|)
    && |ext.globals| == |mod.imports.globals|
    && (forall i :: 0 <= i < |ext.globals| ==>
          Slot(strict, S, ext.globals[i], mod.imports.globals[i].t) && S.globals[ext.globals[i]].mutable == mod.imports.globals[i].mutable)
  }

  ghost predicate ModulePremise(strict: bool, mod: Module)
    requires TypesKnown(mod)
  {
    && GlobalsPremise(strict, mod.globals) && ElemsPremise(strict, mod.elems)
    && forall i :: 0 <= i < |mod.funcs| ==> FuncPremise(strict, mod, mod.funcs[i])
  }

  ghost predicate FuncPremise(strict: bool, mod: Module, f: Func)
    requires TypesKnown(mod) && f.typeidx < |mod.types|
  {
    var C := FuncContext(ModuleContext(mod), mod.types[f.typeidx], f);
    && WellFormed(f.body, false) && Premise(strict, C, f.body, TypeStack([], false)) && (strict ==> CleanContext(C))
    && |f.locals| < 0x1_0000_0000 && Deviations.Within(f.body, 1)
  }

  /** The store only grew: every instance of `S` is where it was. */
  ghost predicate Grew(S: Store, S': Store) {
    && |S.funcs| <= |S'.funcs| && S'.funcs[..|S.funcs|] == S.funcs
    && |S.tables| <= |S'.tables| && S'.tables[..|S.tables|] == S.tables
    && |S.mems| <= |S'.mems| && S'.mems[..|S.mems|] == S.mems
    && |S.globals| <= |S'.globals| && S'.globals[..|S.globals|] == S.globals
    && |S.elems| <= |S'.elems| && S'.elems[..|S.elems|] == S.elems
    && |S.datas| <= |S'.datas| && S'.datas[..|S.datas|] == S.datas
  }

  lemma LinkedGrew(S: Store, S': Store, m: ModInst, C: Context)
    requires Linked(S, m, C) && Grew(S, S')
    ensures Linked(S', m, C)
  {
    assert forall i :: 0 <= i < |S.funcs| ==> S'.funcs[i] == S'.funcs[..|S.funcs|][i];
    assert forall i :: 0 <= i < |S.tables| ==> S'.tables[i] == S'.tables[..|S.tables|][i];
    assert forall i :: 0 <= i < |S.globals| ==> S'.globals[i] == S'.globals[..|S.globals|][i];
    assert forall i :: 0 <= i < |S.elems| ==> S'.elems[i] == S'.elems[..|S.elems|][i];
  }

  // ---------------------------------------------------------------- the steps of instantiation

  lemma FitsMore(strict: bool, nf: nat, nf': nat, v: Val, t: ValType)
    requires Fits(strict, nf, v, t) && nf <= nf'
    ensures Fits(strict, nf', v, t)
  {
  }

  lemma CoversImports(strict: bool, S: Store, mod: Module, ext: Externs)
    requires TypesKnown(mod) && Room(S, mod) && Resolves(strict, S, mod, ext)
    ensures var m := FinalInst(S, mod, ext);
            Covers(strict, AllocParts(S, mod, m), m.(globaladdrs := ext.globals, elemaddrs := []), InitContext(mod))
  {
    hide Fits;
    var m := FinalInst(S, mod, ext);
    var S1 := AllocParts(S, mod, m);
    forall i | 0 <= i < |ext.globals|
      ensures Slot(strict, S1, ext.globals[i], mod.imports.globals[i].t)
    {
      assert Slot(strict, S, ext.globals[i], mod.imports.globals[i].t);
      FitsMore(strict, |S.funcs|, |S1.funcs|, S.globals[ext.globals[i]].val, mod.imports.globals[i].t);
    }
  }

  lemma CoversAfterGlobals(strict: bool, S: Store, m: ModInst, C: Context, gs: seq<GlobalDef>, S': Store, m': ModInst)
    requires Covers(strict, S, m, C) && |S.globals| + |gs| <= ADDRESSES && GlobalsMade(strict, S, m, gs, S', m')
    ensures Covers(strict, S', m', C)
  {
    hide Fits;
    forall i | 0 <= i < |C.globals|
      ensures Slot(strict, S', m'.globaladdrs[i], C.globals[i].t)
    {
      var a := m.globaladdrs[i];
      assert Slot(strict, S, a, C.globals[i].t);
      assert S'.globals[a] == S'.globals[..|S.globals|][a];
    }
  }

  /** Everything `Allocate` makes, in one relation. */
  ghost predicate Made(strict: bool, S: Store, mod: Module, m: ModInst, S': Store)
    requires TypesKnown(mod)
  {
    var S1 := AllocParts(S, mod, m);
    && S' == S1.(globals := S'.globals, elems := S'.elems)
    && |S'.globals| == |S.globals| + |mod.globals| && S'.globals[..|S.globals|] == S.globals
    && GlobalsOf(strict, |S1.funcs|, S'.globals[|S.globals|..], mod.globals)
    && |S'.elems| == |S.elems| + |mod.elems| && S'.elems[..|S.elems|] == S.elems
    && (forall i :: 0 <= i < |mod.elems| ==> ElemOf(strict, |S1.funcs|, S'.elems[|S.elems|..][i], mod.elems[i]))
  }

  lemma AllocateMakes(strict: bool, S: Store, mod: Module, ext: Externs, base: Stk)
    requires CheckModule(mod).Ok? && ModulePremise(strict, mod) && Room(S, mod) && Resolves(strict, S, mod, ext)
    requires |base| + 2 <= CAPACITY
    ensures var r := Allocate(S, mod, ext, base);
            r.Some? && r.value.1 == FinalInst(S, mod, ext) && Made(strict, S, mod, r.value.1, r.value.0)
  {
    hide AllocGlobals, AllocElems, Covers, CheckGlobals, CheckElems, CheckDatas, CheckFuncs, CheckStart, InitContext, ModuleContext, GlobalsOf, ElemOf, Resolves,
         FuncPremise, GlobalsPremise, ElemsPremise;
    var m := FinalInst(S, mod, ext);
    var S1, m1, C := AllocParts(S, mod, m), m.(globaladdrs := ext.globals, elemaddrs := []), InitContext(mod);
    CoversImports(strict, S, mod, ext);
    GlobalsRun(strict, S1, m1, base, C, mod.globals);
    var (S2, m2) := AllocGlobals(S1, m1, base, mod.globals).value;
    CoversAfterGlobals(strict, S1, m1, C, mod.globals, S2, m2);
    ElemsRun(strict, S2, m2, base, C, mod.elems);
    var (S3, m3) := AllocElems(S2, m2, base, mod.elems).value;
    assert m3.elemaddrs == Fresh(|S.elems|, |mod.elems|);
    assert m3 == m;
  }

  lemma MadeGrew(strict: bool, S: Store, mod: Module, m: ModInst, S': Store)
    requires TypesKnown(mod) && Made(strict, S, mod, m, S')
    ensures Grew(S, S')
  {
    hide GlobalsOf, ElemOf;
  }

  lemma GlobalsLinked(strict: bool, S: Store, mod: Module, ext: Externs, S': Store, i: nat)
    requires TypesKnown(mod) && Room(S, mod) && Resolves(strict, S, mod, ext)
    requires Made(strict, S, mod, FinalInst(S, mod, ext), S') && i < |ModuleContext(mod).globals|
    ensures var m, C := FinalInst(S, mod, ext), ModuleContext(mod);
            && i < |m.globaladdrs| && m.globaladdrs[i] < |S'.globals| && S'.globals[m.globaladdrs[i]].t == C.globals[i].t
            && S'.globals[m.globaladdrs[i]].mutable == C.globals[i].mutable
  {
    hide Fits, ElemOf;
    if i < |ext.globals| {
      assert Slot(strict, S, ext.globals[i], mod.imports.globals[i].t);
      assert S'.globals[ext.globals[i]] == S'.globals[..|S.globals|][ext.globals[i]];
    } else {
      var j := i - |ext.globals|;
      assert S'.globals[|S.globals| + j] == S'.globals[|S.globals|..][j];
    }
  }

  lemma MadeLinked(strict: bool, S: Store, mod: Module, ext: Externs, S': Store)
    requires TypesKnown(mod) && Room(S, mod) && Resolves(strict, S, mod, ext)
    requires Made(strict, S, mod, FinalInst(S, mod, ext), S')
    ensures Linked(S', FinalInst(S, mod, ext), ModuleContext(mod))
  {
    hide Fits, GlobalsOf, Slot;
    var m, C := FinalInst(S, mod, ext), ModuleContext(mod);
    forall i | 0 <= i < |mod.elems|
      ensures S'.elems[|S.elems| + i].reftype == mod.elems[i].reftype
    {
      assert ElemOf(strict, |AllocParts(S, mod, m).funcs|, S'.elems[|S.elems|..][i], mod.elems[i]);
    }
    forall i | 0 <= i < |C.globals|
      ensures m.globaladdrs[i] < |S'.globals| && S'.globals[m.globaladdrs[i]].t == C.globals[i].t
      ensures S'.globals[m.globaladdrs[i]].mutable == C.globals[i].mutable
    {
      GlobalsLinked(strict, S, mod, ext, S', i);
    }
  }

  /** `C1` is `C` with what checking other functions left in it. */
  ghost predicate LeftFrom(C: Context, C1: Context) {
    C.labels == [] && C1 == C.(locals := C1.locals, labels := C1.labels, ret := C1.ret)
  }

  /** Each function was accepted in the context with some labels left over. */
  lemma {:induction false} FuncsChecked(C: Context, C1: Context, fs: seq<Func>, i: nat) returns (left: seq<seq<ValType>>)
    requires forall j :: 0 <= j < |fs| ==> fs[j].typeidx < |C.types|
    requires LeftFrom(C, C1) && CheckFuncs(C1, fs).Ok? && i < |fs|
    ensures CheckFunc(Deviations.Stale(C, left), fs[i]).Ok?
    decreases |fs|
  {
    hide CheckBody;
    if i > 0 {
      left := FuncsChecked(C, FuncContext(C1, C.types[fs[0].typeidx], fs[0]), fs[1..], i - 1);
    } else {
      left := C1.labels;
      var ft := C.types[fs[0].typeidx];
      assert Deviations.Stale(C, left).labels == left + [] == left;
      assert FuncContext(C1, ft, fs[0]) == FuncContext(Deviations.Stale(C, left), ft, fs[0]);
    }
  }

  /** A function whose label indices stay inside it is accepted on its own as well. */
  lemma {:induction false} FuncAccepted(C: Context, fs: seq<Func>, i: nat)
    requires forall j :: 0 <= j < |fs| ==> fs[j].typeidx < |C.types|
    requires C.labels == [] && CheckFuncs(C, fs).Ok? && i < |fs| && Deviations.Within(fs[i].body, 1)
    ensures CheckFunc(C, fs[i]).Ok?
  {
    hide CheckFunc;
    var left := FuncsChecked(C, C, fs, i);
    Deviations.LeftoverLabels(C, left, fs[i]);
  }

  lemma OldFuncOk(strict: bool, S: Store, S': Store, f: FuncInst)
    requires FuncOk(strict, S, f) && Grew(S, S')
    ensures FuncOk(strict, S', f)
  {
    hide Linked, Grew;
    var C :| Accepted(strict, S, f, C);
    LinkedGrew(S, S', f.inst, C);
    assert Accepted(strict, S', f, C);
  }

  lemma NewFuncOk(strict: bool, S': Store, mod: Module, m: ModInst, i: nat)
    requires CheckModule(mod).Ok? && ModulePremise(strict, mod) && i < |mod.funcs| && Linked(S', m, ModuleContext(mod))
    ensures FuncOk(strict, S', FuncInst(mod.types[mod.funcs[i].typeidx], m, mod.funcs[i]))
  {
    hide CheckGlobals, CheckElems, CheckDatas, CheckFuncs, CheckStart, CheckFunc, Linked, GlobalsPremise, ElemsPremise;
    var f, C := mod.funcs[i], ModuleContext(mod);
    assert FuncPremise(strict, mod, f);
    FuncAccepted(C, mod.funcs, i);
    assert Accepted(strict, S', FuncInst(mod.types[f.typeidx], m, f), C);
  }

  lemma MadeCodeOk(strict: bool, S: Store, mod: Module, ext: Externs, S': Store)
    requires CheckModule(mod).Ok? && ModulePremise(strict, mod) && Room(S, mod) && Resolves(strict, S, mod, ext) && CodeOk(strict, S)
    requires Made(strict, S, mod, FinalInst(S, mod, ext), S')
    ensures CodeOk(strict, S')
  {
    hide CheckModule, ModulePremise, GlobalsOf, ElemOf, Linked, Resolves, FuncOk, Grew, FinalInst;
    KnownTypes(mod);
    var m := FinalInst(S, mod, ext);
    MadeGrew(strict, S, mod, m, S');
    MadeLinked(strict, S, mod, ext, S');
    forall i | 0 <= i < |S'.funcs|
      ensures FuncOk(strict, S', S'.funcs[i])
    {
      if i < |S.funcs| {
        OldFuncOk(strict, S, S', S.funcs[i]);
      } else {
        NewFuncOk(strict, S', mod, m, i - |S.funcs|);
      }
    }
  }

  lemma MadeDataOk(strict: bool, S: Store, mod: Module, m: ModInst, S': Store)
    requires TypesKnown(mod) && DataOk(strict, S) && Made(strict, S, mod, m, S')
    ensures DataOk(strict, S')
  {
    if strict {
      var nf, nf' := |S.funcs|, |S'.funcs|;
      forall i | 0 <= i < |S'.globals|
        ensures Fits(true, nf', S'.globals[i].val, S'.globals[i].t)
      {
        if i < |S.globals| {
          assert S'.globals[i] == S'.globals[..|S.globals|][i];
          FitsMore(true, nf, nf', S.globals[i].val, S.globals[i].t);
        } else {
          assert S'.globals[i] == S'.globals[|S.globals|..][i - |S.globals|];
        }
      }
      forall i | 0 <= i < |S'.tables|
        ensures RefsOk(nf', S'.tables[i].reftype, S'.tables[i].elems)
      {
        if i < |S.tables| {
          assert RefsOk(nf, S.tables[i].reftype, S.tables[i].elems);
        }
      }
      forall i | 0 <= i < |S'.elems|
        ensures RefsOk(nf', S'.elems[i].reftype, S'.elems[i].elems)
      {
        if i < |S.elems| {
          assert S'.elems[i] == S'.elems[..|S.elems|][i];
          assert RefsOk(nf, S.elems[i].reftype, S.elems[i].elems);
        } else {
          assert S'.elems[i] == S'.elems[|S.elems|..][i - |S.elems|];
          assert ElemOf(strict, nf', S'.elems[i], mod.elems[i - |S.elems|]);
        }
      }
    }
  }

  /** Allocating an accepted module whose imports the host resolves succeeds: initialisers
      read only filled slots, addresses are the imports' followed by consecutive fresh ones,
      nothing that was in the store moves, the instance is what the module's context
      declares, and the store is one from which every call is safe. */
  lemma AllocationIsSafe(strict: bool, S: Store, mod: Module, ext: Externs, base: Stk)
    requires CheckModule(mod).Ok? && ModulePremise(strict, mod) && Room(S, mod) && Resolves(strict, S, mod, ext)
    requires StoreOk(strict, S) && |base| + 2 <= CAPACITY
    ensures Allocate(S, mod, ext, base).Some?
    ensures var (S', m) := Allocate(S, mod, ext, base).value;
            m == FinalInst(S, mod, ext) && Grew(S, S') && Linked(S', m, ModuleContext(mod)) && StoreOk(strict, S')
  {
    hide Allocate, Made, CheckModule, Resolves, ModulePremise, Room, FinalInst, Linked, CodeOk, DataOk, Grew;
    KnownTypes(mod);
    AllocateMakes(strict, S, mod, ext, base);
    var (S', m) := Allocate(S, mod, ext, base).value;
    MadeGrew(strict, S, mod, m, S');
    MadeLinked(strict, S, mod, ext, S');
    MadeCodeOk(strict, S, mod, ext, S');
    MadeDataOk(strict, S, mod, m, S');
  }

  lemma KnownTypes(mod: Module)
    requires CheckModule(mod).Ok?
    ensures TypesKnown(mod)
  {
  }
}
