/** Active segments and the start function: starting up an allocated module goes on, traps or
    runs out of fuel, and never goes wrong. */
module StartupProofs {
  import opened Syntax
  import opened Runtime
  import opened Machine
  import opened Semantics
  import opened StackLemmas
  import opened Typing
  import opened Invariants
  import opened Soundness
  import opened Theorems
  import opened Reentry
  import opened Instances
  import opened InstanceProofs

  // ---------------------------------------------------------------- premises

  ghost predicate ModesPremise(strict: bool, mod: Module) {
    && (forall i :: 0 <= i < |mod.elems| ==> ModePremise(strict, mod.elems[i].mode))
    && (forall i :: 0 <= i < |mod.datas| ==> ModePremise(strict, mod.datas[i].mode))
  }

  ghost predicate ModePremise(strict: bool, mode: Mode) { mode.Active? ==> InitPremise(strict, mode.offset, I32) }

  /** The running instance and its store, between two steps of starting up. */
  ghost predicate Running(strict: bool, S: Store, m: ModInst, C: Context) {
    Linked(S, m, C) && StoreOk(strict, S) && C.locals == [] && (strict ==> CleanContext(C))
  }

  lemma RunningLater(strict: bool, S: Store, S': Store, m: ModInst, C: Context)
    requires Running(strict, S, m, C) && Extends(S, S') && DataOk(strict, S')
    ensures Running(strict, S', m, C)
  {
    hide CodeOk, DataOk, Extends, Linked, CleanContext;
    LinkedExtends(S, S', m, C);
    CodeOkExtends(strict, S, S');
  }

  /** Going on from `S`, or an end other than going wrong. */
  ghost predicate StartOk(strict: bool, S: Store, r: Startup) {
    match r
    case Going(S') => Extends(S, S') && StoreOk(strict, S')
    case Broken => false
    case _ => true
  }

  /** `C` but with other segments. */
  ghost predicate SameButSegments(C: Context, C': Context) {
    C' == C.(elems := C'.elems, datas := C'.datas)
  }

  /** The initialised instance covers the context of initialisers. */
  lemma RunningCovers(strict: bool, S: Store, mod: Module, m: ModInst, C: Context)
    requires TypesKnown(mod) && Running(strict, S, m, ModuleContext(mod)) && SameButSegments(InitContext(mod), C)
    ensures Covers(strict, S, m, C)
  {
    hide CodeOk;
    var C1 := ModuleContext(mod);
    forall i | 0 <= i < |C.globals|
      ensures Slot(strict, S, m.globaladdrs[i], C.globals[i].t)
    {
      assert C1.globals[i] == C.globals[i];
    }
  }

  // ---------------------------------------------------------------- one instruction of starting up

  /** A plain instruction without results, on the operands of its declared types. */
  lemma PlainStarts(strict: bool, fuel: nat, S: Store, m: ModInst, C: Context, base: Stk, op: Plain, next: Code, args: seq<Val>)
    requires Running(strict, S, m, C) && |base| + 1 <= CAPACITY && fuel > 0 && Pushes(op) == 0
    requires !op.Drop? && !op.Select? && PlainSig(C, op).Ok? && PlainSig(C, op).value.1 == []
    requires ArgsFit(strict, |S.funcs|, args, PlainSig(C, op).value.0) && PremisePlain(strict, op)
    ensures var s := base + [ModuleFrame(m)];
            var r := Exec(fuel, Cons(Instr.Plain(op), next), |base|, s + OVals(args), S);
            r.Trapped? || r.RunUB? || exists S' :: r == Exec(fuel - 1, next, |base|, s, S') && Extends(S, S') && StoreOk(strict, S') && Running(strict, S', m, C)
  {
    hide PlainSig, Perform, Pops, Pushes, ArgsFit, Exec, Linked, CodeOk, DataOk, CleanContext, Extends, PremiseInstr, StepPlain;
    PerformSound(strict, op, C, m, args, [], S);
    var s := base + [ModuleFrame(m)];
    var e := Perform(op, args, [], S, m);
    match e
    case Did(results, locals, S') =>
      assert results == [] && locals == [];
      assert s + OVals([]) == s;
      ExecPlain(fuel, op, next, |base|, s, args, S, [], S');
      RunningLater(strict, S, S', m, C);
    case Traps(err) =>
      TrapsOnTop(op, next, |base|, s, args, S, err);
      ExecThrows(fuel, op, next, |base|, s + OVals(args), S, err);
    case EffectUB =>
      UndefinedOnTop(op, next, |base|, s, args, S);
      ExecUndefined(fuel, op, next, |base|, s + OVals(args), S);
  }

  lemma ExecUndefined(fuel: nat, op: Plain, next: Code, fi: nat, s: Stk, S: Store)
    requires fuel > 0 && fi < |s| && s[fi].OFrame? && StepPlain(op, next, fi, s, S) == StepUB
    ensures Exec(fuel, Cons(Instr.Plain(op), next), fi, s, S) == RunUB
  {
    hide StepPlain;
  }

  lemma ExecThrows(fuel: nat, op: Plain, next: Code, fi: nat, s: Stk, S: Store, e: Error)
    requires fuel > 0 && fi < |s| && s[fi].OFrame? && StepPlain(op, next, fi, s, S) == Throws(e)
    ensures Exec(fuel, Cons(Instr.Plain(op), next), fi, s, S) == Trapped(e, S)
  {
    hide StepPlain;
  }

  // ---------------------------------------------------------------- element segments

  lemma {:induction false} ElemChecked(C: Context, es: seq<ElemDef>, i: nat) returns (C': Context)
    requires CheckElems(C, es).Ok? && i < |es|
    ensures SameButSegments(C, C') && CheckElemMode(C', es[i].mode, es[i].reftype).Ok?
    decreases |es|
  {
    hide CheckInits, CheckElemMode;
    if i > 0 {
      C' := ElemChecked(C.(elems := C.elems + [es[0].reftype]), es[1..], i - 1);
    } else {
      C' := C;
    }
  }

  lemma {:induction false} DataChecked(C: Context, ds: seq<DataDef>, i: nat) returns (C': Context)
    requires CheckDatas(C, ds).Ok? && i < |ds|
    ensures SameButSegments(C, C') && CheckDataMode(C', ds[i].mode).Ok?
    decreases |ds|
  {
    hide CheckDataMode;
    if i > 0 {
      C' := DataChecked(C.(datas := C.datas + 1), ds[1..], i - 1);
    } else {
      C' := C;
    }
  }

  /** elem.drop as the last instruction. */
  lemma DropStarts(strict: bool, S: Store, m: ModInst, C: Context, base: Stk, i: U32)
    requires Running(strict, S, m, C) && |base| + 1 <= CAPACITY && i < |C.elems|
    ensures StartOk(strict, S, AfterRun(Exec(1, DropCode(i), |base|, base + [ModuleFrame(m)], S)))
  {
    hide Exec, Linked, CodeOk, DataOk, CleanContext, Extends;
    var s := base + [ModuleFrame(m)];
    PlainStarts(strict, 1, S, m, C, base, ElemDrop(i), Nil, []);
    assert s + OVals([]) == s;
    var r := Exec(1, DropCode(i), |base|, s, S);
    if !r.Trapped? && !r.RunUB? {
      var S' :| r == Exec(0, Nil, |base|, s, S') && Extends(S, S') && StoreOk(strict, S');
      ExecNil(0, |base|, s, S');
    }
  }

  lemma I32Args(strict: bool, nf: nat, v: Val, n: int)
    requires Fits(strict, nf, v, I32)
    ensures ArgsFit(strict, nf, [v, ValI32(0), ValI32(n)], [I32, I32, I32])
  {
  }

  lemma ExtendsTwice(S: Store, S1: Store, S2: Store)
    requires Extends(S, S1) && Extends(S1, S2)
    ensures Extends(S, S2)
  {
  }

  lemma ElemStarts(strict: bool, S: Store, m: ModInst, C: Context, C0: Context, base: Stk, i: U32, e: ElemDef)
    requires Running(strict, S, m, C) && |base| + 3 <= CAPACITY && i < |C.elems| && C.elems[i] == e.reftype
    requires Covers(strict, S, m, C0) && C0.tables == C.tables && CheckElemMode(C0, e.mode, e.reftype).Ok? && ModePremise(strict, e.mode)
    ensures StartOk(strict, S, StartElem(S, m, base, i, e))
  {
    hide Exec, Linked, CodeOk, DataOk, CleanContext, Extends, InitValue, CheckInit, Covers, InitPremise, DropCode, Running, Fits, ArgsFit;
    match e.mode
    case Passive =>
      assert Extends(S, S) && StoreOk(strict, S) by { ExtendsItself(strict, S, m, C); }
    case Declarative => DropStarts(strict, S, m, C, base, i);
    case Active(x, offset) =>
      InitRuns(strict, S, m, base, C0, offset, I32);
      var v := InitValue(S, m, base, offset).value;
      var args := [v, ValI32(0), ValI32(|e.init|)];
      I32Args(strict, |S.funcs|, v, |e.init|);
      var s := base + [ModuleFrame(m)];
      PlainStarts(strict, 2, S, m, C, base, TableInit(x, i), DropCode(i), args);
      var r := Exec(2, InitDropCode(x, i), |base|, s + OVals(args), S);
      if !r.Trapped? && !r.RunUB? {
        var S' :| r == Exec(1, DropCode(i), |base|, s, S') && Extends(S, S') && StoreOk(strict, S') && Running(strict, S', m, C);
        DropStarts(strict, S', m, C, base, i);
        StartLater(strict, S, S', AfterRun(r));
      }
  }

  lemma ExtendsItself(strict: bool, S: Store, m: ModInst, C: Context)
    requires Running(strict, S, m, C)
    ensures Extends(S, S) && StoreOk(strict, S)
  {
  }

  lemma StartLater(strict: bool, S: Store, S1: Store, r: Startup)
    requires Extends(S, S1) && StartOk(strict, S1, r)
    ensures StartOk(strict, S, r)
  {
    hide Extends, StoreOk;
    if r.Going? {
      ExtendsTwice(S, S1, r.store);
    }
  }

  lemma {:induction false} ElemsStart(strict: bool, S: Store, mod: Module, m: ModInst, base: Stk, i: nat)
    requires TypesKnown(mod) && CheckElems(InitContext(mod), mod.elems).Ok? && ModesPremise(strict, mod)
    requires Running(strict, S, m, ModuleContext(mod)) && |base| + 3 <= CAPACITY && i <= |mod.elems| <= ADDRESSES
    ensures StartOk(strict, S, StartElems(S, m, base, mod.elems, i))
    decreases |mod.elems| - i
  {
    hide StartElem, Running, CheckElems, CheckElemMode, Covers, ModePremise, Extends, StoreOk;
    var C := ModuleContext(mod);
    if i == |mod.elems| {
      ExtendsItself(strict, S, m, C);
    } else {
      var C0 := ElemChecked(InitContext(mod), mod.elems, i);
      RunningCovers(strict, S, mod, m, C0);
      ElemStarts(strict, S, m, C, C0, base, i, mod.elems[i]);
      var r := StartElem(S, m, base, i, mod.elems[i]);
      if r.Going? {
        RunningOn(strict, S, r.store, m, C);
        ElemsStart(strict, r.store, mod, m, base, i + 1);
        StartLater(strict, S, r.store, StartElems(r.store, m, base, mod.elems, i + 1));
      }
    }
  }

  lemma RunningOn(strict: bool, S: Store, S': Store, m: ModInst, C: Context)
    requires Running(strict, S, m, C) && Extends(S, S') && StoreOk(strict, S')
    ensures Running(strict, S', m, C)
  {
    hide CodeOk, DataOk, Extends, CleanContext;
    LinkedExtends(S, S', m, C);
  }

  // ---------------------------------------------------------------- data segments

  lemma DataStarts(strict: bool, S: Store, m: ModInst, C: Context, C0: Context, base: Stk, i: U32, d: DataDef)
    requires Running(strict, S, m, C) && |base| + 3 <= CAPACITY && i < C.datas
    requires Covers(strict, S, m, C0) && C0.mems == C.mems && CheckDataMode(C0, d.mode).Ok? && ModePremise(strict, d.mode)
    ensures StartOk(strict, S, StartData(S, m, base, i, d))
  {
    hide Exec, Linked, CodeOk, DataOk, CleanContext, Extends, InitValue, CheckInit, Covers, InitPremise, Running, Fits, ArgsFit;
    ExtendsItself(strict, S, m, C);
    if d.mode.Active? && d.mode.target == 0 {
      InitRuns(strict, S, m, base, C0, d.mode.offset, I32);
      var v := InitValue(S, m, base, d.mode.offset).value;
      var args := [v, ValI32(0), ValI32(|d.bytes|)];
      I32Args(strict, |S.funcs|, v, |d.bytes|);
      var s := base + [ModuleFrame(m)];
      PlainStarts(strict, 1, S, m, C, base, MemoryInit(i), Nil, args);
      var r := Exec(1, InitDataCode(i), |base|, s + OVals(args), S);
      if !r.Trapped? && !r.RunUB? {
        var S' :| r == Exec(0, Nil, |base|, s, S') && Extends(S, S') && StoreOk(strict, S');
        ExecNil(0, |base|, s, S');
      }
    }
  }

  lemma {:induction false} DatasStart(strict: bool, S: Store, mod: Module, m: ModInst, base: Stk, i: nat)
    requires TypesKnown(mod) && CheckDatas(InitContext(mod).(elems := ElemTypes(mod.elems)), mod.datas).Ok? && ModesPremise(strict, mod)
    requires Running(strict, S, m, ModuleContext(mod)) && |base| + 3 <= CAPACITY && i <= |mod.datas| <= ADDRESSES
    ensures StartOk(strict, S, StartDatas(S, m, base, mod.datas, i))
    decreases |mod.datas| - i
  {
    hide StartData, Running, CheckDatas, CheckDataMode, Covers, ModePremise, Extends, StoreOk;
    var C := ModuleContext(mod);
    if i == |mod.datas| {
      ExtendsItself(strict, S, m, C);
    } else {
      var C0 := DataChecked(InitContext(mod).(elems := ElemTypes(mod.elems)), mod.datas, i);
      RunningCovers(strict, S, mod, m, C0);
      DataStarts(strict, S, m, C, C0, base, i, mod.datas[i]);
      var r := StartData(S, m, base, i, mod.datas[i]);
      if r.Going? {
        RunningOn(strict, S, r.store, m, C);
        DatasStart(strict, r.store, mod, m, base, i + 1);
        StartLater(strict, S, r.store, StartDatas(r.store, m, base, mod.datas, i + 1));
      }
    }
  }

  /** Starting up leaves every data segment as it was, active ones included, where the standard
      drops those: memory.init can still read them. */
  lemma {:induction false} DatasKept(S: Store, m: ModInst, base: Stk, ds: seq<DataDef>, i: nat)
    requires i <= |ds| <= ADDRESSES
    ensures var r := StartDatas(S, m, base, ds, i); r.Going? ==> r.store.datas == S.datas
    decreases |ds| - i
  {
    hide StartData;
    if i < |ds| {
      DataKept(S, m, base, i, ds[i]);
      var r := StartData(S, m, base, i, ds[i]);
      if r.Going? {
        DatasKept(r.store, m, base, ds, i + 1);
      }
    }
  }

  lemma DataKept(S: Store, m: ModInst, base: Stk, i: U32, d: DataDef)
    ensures var r := StartData(S, m, base, i, d); r.Going? ==> r.store.datas == S.datas
  {
    hide Exec, StepInstr, InitValue;
    if d.mode.Active? && d.mode.target == 0 && InitValue(S, m, base, d.mode.offset).Some? {
      var v := InitValue(S, m, base, d.mode.offset).value;
      InitKeeps(S, |base|, base + [ModuleFrame(m)] + OVals([v, ValI32(0), ValI32(|d.bytes|)]), i);
    }
  }

  lemma InitKeeps(S: Store, fi: nat, s: Stk, i: U32)
    ensures var r := Exec(1, InitDataCode(i), fi, s, S); r.Done? ==> r.store.datas == S.datas
  {
    hide StepInstr;
    var ip := InitDataCode(i);
    InitStepKeeps(S, fi, s, i);
    var r := StepInstr(ip, fi, s, S);
    if r.Next? {
      assert Exec(0, Nil, fi, r.stk, r.store) == Done(r.stk, r.store, 0);
    }
  }

  lemma InitStepKeeps(S: Store, fi: nat, s: Stk, i: U32)
    ensures var r := StepInstr(InitDataCode(i), fi, s, S);
            !r.Invokes? && (r.Next? ==> r.ip == Nil && r.store.datas == S.datas)
  {
    hide InitBytes;
  }

  // ---------------------------------------------------------------- the start function

  lemma StartRuns(strict: bool, fuel: nat, S: Store, mod: Module, m: ModInst, base: Stk)
    requires TypesKnown(mod) && CheckStart(FuncTypes(mod), mod.start).Ok?
    requires Running(strict, S, m, ModuleContext(mod)) && |base| + 3 <= CAPACITY
    ensures StartOk(strict, S, RunStart(fuel, S, m, base, mod.start))
  {
    hide Invoke, Extends, CodeOk, DataOk, CleanContext;
    var C := ModuleContext(mod);
    ExtendsItself(strict, S, m, C);
    if mod.start.Some? {
      var a, s := m.funcaddrs[mod.start.value], base + [ModuleFrame(m)];
      assert S.funcs[a].ftype == C.funcs[mod.start.value];
      assert s + OVals([]) == s;
      CallContract(strict, fuel, a, s, [], S);
    }
  }

  /** Starting up never goes wrong; if it gets through, the store is again one from which
      every call is safe, and the instance is still what the module declares. */
  lemma StartIsSafe(strict: bool, fuel: nat, S: Store, mod: Module, m: ModInst, base: Stk)
    requires CheckModule(mod).Ok? && ModesPremise(strict, mod) && Running(strict, S, m, ModuleContext(mod))
    requires |base| + 3 <= CAPACITY && |mod.elems| <= ADDRESSES && |mod.datas| <= ADDRESSES
    ensures StartOk(strict, S, Start(fuel, S, mod, m, base))
  {
    hide StartElems, StartDatas, RunStart, CheckElems, CheckDatas, CheckGlobals, CheckFuncs, CheckStart, ModesPremise, Running, Extends,
         StoreOk, InitContext, ModuleContext, ElemTypes;
    var C := ModuleContext(mod);
    ElemsStart(strict, S, mod, m, base, 0);
    var r1 := StartElems(S, m, base, mod.elems, 0);
    if r1.Going? {
      RunningOn(strict, S, r1.store, m, C);
      DatasStart(strict, r1.store, mod, m, base, 0);
      var r2 := StartDatas(r1.store, m, base, mod.datas, 0);
      if r2.Going? {
        RunningOn(strict, r1.store, r2.store, m, C);
        StartRuns(strict, fuel, r2.store, mod, m, base);
        StartLater(strict, r1.store, r2.store, RunStart(fuel, r2.store, m, base, mod.start));
      }
      StartLater(strict, S, r1.store, Start(fuel, S, mod, m, base));
    }
  }
}
