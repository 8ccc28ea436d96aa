/** From bytes to runs: what decoding, validating and instantiating a module together
    guarantee for every call into it. */
module Pipeline {
  import opened Syntax
  import opened Runtime
  import opened Machine
  import opened Typing
  import opened Invariants
  import opened Decoding
  import opened Locals
  import opened Instances
  import opened InstanceProofs
  import opened StartupProofs
  import opened Theorems
  import Deviations
  import opened MemoryLaws
  import opened Runs

  /** The decoder made this expression from some bytes. */
  ghost predicate FromBytes(code: Code, hasData: bool) {
    exists data, p: nat, q :: p <= |data| && DecodeExpr(data, p, hasData) == Ok((code, q))
  }

  lemma FromBytesShaped(code: Code, hasData: bool)
    requires FromBytes(code, hasData)
    ensures Shaped(code, false)
  {
    hide DecodeExpr;
    var data, p: nat, q :| p <= |data| && DecodeExpr(data, p, hasData) == Ok((code, q));
    ExprShape(data, p, hasData);
  }

  /** A decoded constant expression is well formed. */
  lemma {:induction false} ConstantWellFormed(C: Context, code: Code)
    requires Shaped(code, false) && IsConstant(C, code)
    ensures WellFormed(code, false)
    decreases code
  {
    if !code.ins.End? {
      ConstantWellFormed(C, code.next);
    }
  }

  /** What is asked of a module beyond being decoded and validated, for its functions and for
      its initialisers: the premises on types, and no stray ELSE. */
  ghost predicate Admissible(strict: bool, mod: Module)
    requires TypesKnown(mod)
  {
    && (forall i :: 0 <= i < |mod.funcs| ==> AdmissibleFunc(strict, mod, mod.funcs[i]))
    && (forall i :: 0 <= i < |mod.globals| ==> AdmissibleInit(strict, mod.globals[i].init, mod.globals[i].gt.t))
    && (forall i, j :: 0 <= i < |mod.elems| && 0 <= j < |mod.elems[i].init| ==>
          AdmissibleInit(strict, mod.elems[i].init[j], mod.elems[i].reftype))
    && (forall i :: 0 <= i < |mod.elems| ==> AdmissibleMode(strict, mod.elems[i].mode))
    && (forall i :: 0 <= i < |mod.datas| ==> AdmissibleMode(strict, mod.datas[i].mode))
    && (strict ==> CleanContext(ModuleContext(mod)))
  }

  ghost predicate AdmissibleMode(strict: bool, mode: Mode) { mode.Active? ==> AdmissibleInit(strict, mode.offset, I32) }

  ghost predicate AdmissibleFunc(strict: bool, mod: Module, f: Func)
    requires TypesKnown(mod) && f.typeidx < |mod.types|
  {
    var C := FuncContext(ModuleContext(mod), mod.types[f.typeidx], f);
    && NoStrayElse(f.body, false) && Deviations.Within(f.body, 1)
    && Premise(strict, C, f.body, TypeStack([], false)) && (strict ==> CleanContext(C))
  }

  ghost predicate AdmissibleInit(strict: bool, code: Code, t: ValType) {
    strict ==> t != ANY && (code.Cons? && code.ins.Plain? ==>
      (code.ins.op.RefNull? ==> code.ins.op.t != ANY) && (code.ins.op.Const? ==> code.ins.op.t in {I32, I64, F32, F64}))
  }

  /** Every function and initialiser of the module came out of the decoder. */
  ghost predicate Decoded(mod: Module, hasData: bool) {
    && (forall i :: 0 <= i < |mod.funcs| ==>
          exists bytes :: DecodeCode(bytes, mod.funcs[i].typeidx, hasData) == Ok(mod.funcs[i]))
    && (forall i :: 0 <= i < |mod.globals| ==> FromBytes(mod.globals[i].init, hasData))
    && (forall i, j :: 0 <= i < |mod.elems| && 0 <= j < |mod.elems[i].init| ==> FromBytes(mod.elems[i].init[j], hasData))
    && (forall i :: 0 <= i < |mod.elems| ==> mod.elems[i].mode.Active? ==> FromBytes(mod.elems[i].mode.offset, hasData))
    && (forall i :: 0 <= i < |mod.datas| ==> mod.datas[i].mode.Active? ==> FromBytes(mod.datas[i].mode.offset, hasData))
  }

  lemma BodyFromBytes(bytes: seq<Byte>, f: Func, hasData: bool)
    requires DecodeCode(bytes, f.typeidx, hasData) == Ok(f)
    ensures FromBytes(f.body, hasData) && |f.locals| < 0x1_0000_0000
  {
    hide DecodeExpr, ReadLocals;
    DecodedLocals(bytes, f.typeidx, hasData);
    var q := ReadLocals(bytes, 0).value.1;
    assert DecodeExpr(bytes, q, hasData) == Ok((f.body, DecodeExpr(bytes, q, hasData).value.1));
  }

  lemma {:induction false} GlobalsConstant(C: Context, gs: seq<GlobalDef>, i: nat)
    requires CheckGlobals(C, gs).Ok? && i < |gs|
    ensures IsConstant(C, gs[i].init)
    decreases |gs|
  {
    hide CheckBody, IsConstant;
    if i > 0 {
      GlobalsConstant(C, gs[1..], i - 1);
    }
  }

  lemma {:induction false} InitsConstant(C: Context, inits: seq<Code>, t: ValType, j: nat)
    requires CheckInits(C, inits, t).Ok? && j < |inits|
    ensures IsConstant(C, inits[j])
    decreases |inits|
  {
    hide CheckBody, IsConstant;
    if j > 0 {
      InitsConstant(C, inits[1..], t, j - 1);
    }
  }

  lemma {:induction false} ElemsConstant(C: Context, es: seq<ElemDef>, i: nat, j: nat) returns (C': Context)
    requires CheckElems(C, es).Ok? && i < |es| && j < |es[i].init|
    ensures IsConstant(C', es[i].init[j])
    decreases |es|
  {
    hide CheckInits, IsConstant, CheckElemMode;
    if i > 0 {
      C' := ElemsConstant(C.(elems := C.elems + [es[0].reftype]), es[1..], i - 1, j);
    } else {
      InitsConstant(C, es[0].init, es[0].reftype, j);
      C' := C;
    }
  }

  lemma AdmissibleModule(strict: bool, mod: Module, hasData: bool)
    requires CheckModule(mod).Ok? && Decoded(mod, hasData) && Admissible(strict, mod)
    ensures ModulePremise(strict, mod)
  {
    hide CheckGlobals, CheckElems, CheckDatas, CheckFuncs, CheckStart, Premise, CleanContext, DecodeCode, FromBytes, IsConstant, InitContext, ModuleContext;
    forall i | 0 <= i < |mod.funcs|
      ensures FuncPremise(strict, mod, mod.funcs[i])
    {
      var f := mod.funcs[i];
      assert AdmissibleFunc(strict, mod, f);
      var bytes :| DecodeCode(bytes, f.typeidx, hasData) == Ok(f);
      BodyFromBytes(bytes, f, hasData);
      FromBytesShaped(f.body, hasData);
      ShapedIsWellFormed(f.body, false);
    }
    forall i | 0 <= i < |mod.globals|
      ensures InitPremise(strict, mod.globals[i].init, mod.globals[i].gt.t)
    {
      assert AdmissibleInit(strict, mod.globals[i].init, mod.globals[i].gt.t);
      GlobalsConstant(InitContext(mod), mod.globals, i);
      FromBytesShaped(mod.globals[i].init, hasData);
      ConstantWellFormed(InitContext(mod), mod.globals[i].init);
    }
    forall i, j | 0 <= i < |mod.elems| && 0 <= j < |mod.elems[i].init|
      ensures InitPremise(strict, mod.elems[i].init[j], mod.elems[i].reftype)
    {
      assert AdmissibleInit(strict, mod.elems[i].init[j], mod.elems[i].reftype);
      var C := ElemsConstant(InitContext(mod), mod.elems, i, j);
      FromBytesShaped(mod.elems[i].init[j], hasData);
      ConstantWellFormed(C, mod.elems[i].init[j]);
    }
  }

  /** The same for the offsets of active segments. */
  lemma AdmissibleModes(strict: bool, mod: Module, hasData: bool)
    requires CheckModule(mod).Ok? && Decoded(mod, hasData) && Admissible(strict, mod)
    ensures ModesPremise(strict, mod)
  {
    hide CheckGlobals, CheckElems, CheckDatas, CheckFuncs, CheckStart, DecodeCode, FromBytes, IsConstant, InitContext, ModuleContext, CleanContext,
         AdmissibleFunc, CheckBody;
    forall i | 0 <= i < |mod.elems|
      ensures ModePremise(strict, mod.elems[i].mode)
    {
      assert AdmissibleMode(strict, mod.elems[i].mode);
      if mod.elems[i].mode.Active? {
        var C := ElemChecked(InitContext(mod), mod.elems, i);
        OffsetPremise(strict, C, mod.elems[i].mode.offset, hasData);
      }
    }
    forall i | 0 <= i < |mod.datas|
      ensures ModePremise(strict, mod.datas[i].mode)
    {
      assert AdmissibleMode(strict, mod.datas[i].mode);
      if mod.datas[i].mode.Active? {
        var C := DataChecked(InitContext(mod).(elems := ElemTypes(mod.elems)), mod.datas, i);
        OffsetPremise(strict, C, mod.datas[i].mode.offset, hasData);
      }
    }
  }

  lemma OffsetPremise(strict: bool, C: Context, offset: Code, hasData: bool)
    requires CheckInit(C, offset, I32).Ok? && FromBytes(offset, hasData) && AdmissibleInit(strict, offset, I32)
    ensures InitPremise(strict, offset, I32)
  {
    hide CheckBody, FromBytes;
    FromBytesShaped(offset, hasData);
    ConstantWellFormed(C, offset);
  }

  /** Calling function `x` of instance `m` with arguments of its parameter types. */
  ghost predicate CallSafe(strict: bool, fuel: nat, m: ModInst, x: nat, args: seq<Val>, ft: FuncType, S: Store) {
    && x < |m.funcaddrs| && m.funcaddrs[x] < |S.funcs| && S.funcs[m.funcaddrs[x]].ftype == ft
    && (Matches(strict, |S.funcs|, args, ft.rt1) && |args| <= CAPACITY ==>
          CallResult(strict, Invoke(fuel, m.funcaddrs[x], OVals(args), S), ft, [], S))
  }

  lemma LinkedCallSafe(strict: bool, fuel: nat, m: ModInst, x: nat, args: seq<Val>, C: Context, S: Store)
    requires StoreOk(strict, S) && Linked(S, m, C) && x < |C.funcs|
    ensures CallSafe(strict, fuel, m, x, args, C.funcs[x], S)
  {
    hide StoreOk, Invoke, CallResult, Matches;
    if Matches(strict, |S.funcs|, args, C.funcs[x].rt1) && |args| <= CAPACITY {
      CallContract(strict, fuel, m.funcaddrs[x], [], args, S);
      assert [] + OVals(args) == OVals(args);
    }
  }

  /** What instantiating gives the host: it did not go wrong, and if it went through, the
      store is safe, the instance is what the module declares, and calls are safe. */
  ghost predicate Instantiated(strict: bool, r: Startup, inst: Option<ModInst>, mod: Module, fuel: nat, x: nat, args: seq<Val>)
    requires TypesKnown(mod)
  {
    && !r.Broken?
    && (r.Going? ==>
          && inst.Some? && StoreOk(strict, r.store) && Linked(r.store, inst.value, ModuleContext(mod))
          && (x < |FuncTypes(mod)| ==> CallSafe(strict, fuel, inst.value, x, args, FuncTypes(mod)[x], r.store)))
  }

  /** End to end. A module that was decoded from bytes and accepted by the validator, linked
      with instances of the types it imports, instantiates without going wrong: initialisers,
      active segments and the start function trap, run on, or get through. Once through,
      every call of every one of its functions, for any fuel, returns results of the declared
      types, traps or runs on. It never gets stuck. */
  lemma DecodedModuleIsSafe(strict: bool, S: Store, mod: Module, ext: Externs, hasData: bool,
                            startFuel: nat, fuel: nat, x: nat, args: seq<Val>)
    requires CheckModule(mod).Ok? && Decoded(mod, hasData) && Admissible(strict, mod)
    requires StoreOk(strict, S) && Room(S, mod) && Resolves(strict, S, mod, ext)
    ensures var (r, inst) := Instantiate(startFuel, S, mod, ext, []);
            Instantiated(strict, r, inst, mod, fuel, x, args)
  {
    hide Allocate, CheckModule, Decoded, Resolves, FinalInst, Grew, ModulePremise, ModesPremise, CallSafe, Start, StoreOk, FuncTypes,
         CleanContext, Linked;
    KnownTypes(mod);
    AdmissibleModule(strict, mod, hasData);
    AdmissibleModes(strict, mod, hasData);
    AllocationIsSafe(strict, S, mod, ext, []);
    var (S', m) := Allocate(S, mod, ext, []).value;
    var C := ModuleContext(mod);
    assert C.funcs == FuncTypes(mod) && C.locals == [];
    StartIsSafe(strict, startFuel, S', mod, m, []);
    var r := Start(startFuel, S', mod, m, []);
    if r.Going? {
      LinkedExtends(S', r.store, m, C);
      if x < |FuncTypes(mod)| {
        LinkedCallSafe(strict, fuel, m, x, args, C, r.store);
      }
    }
  }

  /** The new memories start within their limits, and all memories stay so through
      allocation; see MemoryLaws for what follows in every run. */
  lemma AllocatedMemories(strict: bool, S: Store, mod: Module, ext: Externs, base: Stk)
    requires CheckModule(mod).Ok? && ModulePremise(strict, mod) && Room(S, mod) && Resolves(strict, S, mod, ext)
    requires |base| + 2 <= CAPACITY && MemsOk(S) && AllClean(S)
    ensures Allocate(S, mod, ext, base).Some?
    ensures var S' := Allocate(S, mod, ext, base).value.0; MemsOk(S') && AllClean(S')
  {
    hide Allocate, ModulePremise, Resolves, CheckGlobals, CheckElems, CheckDatas, CheckFuncs, CheckStart, InitContext, ModuleContext, GlobalsOf, ElemOf;
    AllocateMakes(strict, S, mod, ext, base);
    var S' := Allocate(S, mod, ext, base).value.0;
    forall i | 0 <= i < |S'.mems|
      ensures MemOk(S'.mems[i]) && Clean(S'.mems[i])
    {
      if i < |S.mems| {
        assert S'.mems[i] == S.mems[i] && MemOk(S.mems[i]) && Clean(S.mems[i]);
      } else {
        assert MemLimitsOk(mod.mems[i - |S.mems|]);
      }
    }
  }

  lemma {:induction false} StartElemsMems(S: Store, m: ModInst, base: Stk, es: seq<ElemDef>, i: nat)
    requires MemsOk(S) && i <= |es| <= ADDRESSES
    ensures var r := StartElems(S, m, base, es, i); r.Going? ==> MemsOk(r.store)
    decreases |es| - i
  {
    hide Exec, MemsOk, InitValue, KeptByAll;
    if i < |es| {
      MemsKept(S);
      var s := base + [ModuleFrame(m)];
      if es[i].mode.Declarative? {
        ExecKeeps(MemsFrom(S), 1, DropCode(i), |base|, s, S);
      } else if es[i].mode.Active? && InitValue(S, m, base, es[i].mode.offset).Some? {
        var v := InitValue(S, m, base, es[i].mode.offset).value;
        ExecKeeps(MemsFrom(S), 2, InitDropCode(es[i].mode.target, i), |base|, s + OVals([v, ValI32(0), ValI32(|es[i].init|)]), S);
      }
      var r := StartElem(S, m, base, i, es[i]);
      if r.Going? {
        StartElemsMems(r.store, m, base, es, i + 1);
      }
    }
  }

  lemma {:induction false} StartDatasMems(S: Store, m: ModInst, base: Stk, ds: seq<DataDef>, i: nat)
    requires MemsOk(S) && i <= |ds| <= ADDRESSES
    ensures var r := StartDatas(S, m, base, ds, i); r.Going? ==> MemsOk(r.store)
    decreases |ds| - i
  {
    hide Exec, MemsOk, InitValue, KeptByAll;
    if i < |ds| {
      MemsKept(S);
      if ds[i].mode.Active? && InitValue(S, m, base, ds[i].mode.offset).Some? {
        var v := InitValue(S, m, base, ds[i].mode.offset).value;
        ExecKeeps(MemsFrom(S), 1, InitDataCode(i), |base|, base + [ModuleFrame(m)] + OVals([v, ValI32(0), ValI32(|ds[i].bytes|)]), S);
      }
      var r := StartData(S, m, base, i, ds[i]);
      if r.Going? {
        StartDatasMems(r.store, m, base, ds, i + 1);
      }
    }
  }

  /** The limits of all memories, old and new, hold again once instantiation gets through. */
  lemma InstantiatedMemories(strict: bool, fuel: nat, S: Store, mod: Module, ext: Externs, base: Stk)
    requires CheckModule(mod).Ok? && ModulePremise(strict, mod) && Room(S, mod) && Resolves(strict, S, mod, ext)
    requires |base| + 2 <= CAPACITY && MemsOk(S) && AllClean(S)
    ensures var r := Instantiate(fuel, S, mod, ext, base).0; r.Going? ==> MemsOk(r.store)
  {
    hide Allocate, CheckModule, ModulePremise, Resolves, MemsOk, SameMems, AllClean, StartElems, StartDatas, Invoke;
    KnownTypes(mod);
    AllocatedMemories(strict, S, mod, ext, base);
    var (S', m) := Allocate(S, mod, ext, base).value;
    StartElemsMems(S', m, base, mod.elems, 0);
    var r1 := StartElems(S', m, base, mod.elems, 0);
    if r1.Going? {
      StartDatasMems(r1.store, m, base, mod.datas, 0);
      var r2 := StartDatas(r1.store, m, base, mod.datas, 0);
      if r2.Going? && mod.start.Some? && mod.start.value < |m.funcaddrs| {
        InvokeKeepsMems(fuel, m.funcaddrs[mod.start.value], base + [ModuleFrame(m)], r2.store);
      }
    }
  }
}
