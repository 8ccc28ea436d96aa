/** What the validator accepts of a module, said without its loops: limits, type indices,
    initialisers and segments, each by the standard's rule. Sections 3.3.10 and 3.4 of the
    WebAssembly Core Specification 2.0. */
module ModuleLaws {
  import opened Syntax
  import opened Typing
  import opened Instances
  import opened TypeSystem
  import I = InstanceProofs

  /** A constant instruction of type `t`. */
  predicate ConstRule(C: Context, op: Plain, t: ValType) {
    match op
    case Const(u, _) => u == t
    case RefNull(u) => u == t
    case RefFunc(x) => x < |C.funcs| && x < |C.refs| && C.refs[x] && t == FUNCREF
    case GlobalGet(x) => x < |C.globals| && C.globals[x] == GlobalType(t, false)
    case _ => false
  }

  /** One constant instruction and END. */
  predicate ConstExpr(C: Context, code: Code, t: ValType) {
    code.Cons? && code.ins.Plain? && ConstRule(C, code.ins.op, t) && code.next == Cons(End, Nil)
  }

  /** A list as the decoder makes it, whose first instruction carries types of the right kind. */
  ghost predicate Expression(code: Code) {
    WellFormed(code, false) && (code.ins.Plain? ==> Written(code.ins.op))
  }

  ghost predicate KnownGlobals(C: Context) { forall i :: 0 <= i < |C.globals| ==> IsValTypeCode(C.globals[i].t) }

  /** An initialiser is accepted exactly when it is a constant expression of its type. */
  lemma InitExactly(C: Context, code: Code, t: ValType)
    requires Expression(code) && IsValTypeCode(t) && KnownGlobals(C)
    ensures CheckInit(C, code, t).Ok? <==> ConstExpr(C, code, t)
  {
    if CheckInit(C, code, t).Ok? {
      I.InitShape(C, code, t);
      FirstChecks(C, code, t);
      RefFuncChecks(C, code.ins, TypeStack([], false));
    }
    if ConstExpr(C, code, t) {
      ConstIsAccepted(C, code, t);
    }
  }

  lemma FirstChecks(C: Context, code: Code, t: ValType)
    requires CheckInit(C, code, t).Ok? && code.Cons?
    ensures Check(C, code.ins, TypeStack([], false)).Ok?
  {
    hide Check, IsConstant;
    assert CheckSeq(C, code, TypeStack([], false)).Ok?;
  }

  lemma RefFuncChecks(C: Context, ins: Instr, ts: TypeStack)
    requires Check(C, ins, ts).Ok?
    ensures ins.Plain? && ins.op.RefFunc? ==> ins.op.x < |C.funcs| && ins.op.x < |C.refs| && C.refs[ins.op.x]
  {
    hide CheckBody, CheckTargets, Retype;
  }

  lemma ConstIsAccepted(C: Context, code: Code, t: ValType)
    requires ConstExpr(C, code, t)
    ensures CheckInit(C, code, t).Ok?
  {
    hide CheckSeq;
    var op := code.ins.op;
    assert IsConstant(C, code) by { assert IsConstant(C, code.next); }
    RuleIsChecked(C, op, [], [t]);
    var ts0, ts1: TypeStack := TypeStack([], false), TypeStack([t], false);
    assert PopAll(ts0, []) == Ok(ts0) && [] + [t] == [t];
    OneInstr(C, code.ins, code.next, ts0, ts1);
    EndOnly(C, ts1);
    assert TryPop(ts1, t) == Ok(ts0) && [t][..0] == [];
    assert PopAll(ts1, [t]) == Ok(ts0);
  }

  lemma OneInstr(C: Context, ins: Instr, next: Code, ts: TypeStack, ts': TypeStack)
    requires Check(C, ins, ts) == Ok(ts')
    ensures CheckSeq(C, Cons(ins, next), ts) == CheckSeq(C, next, ts')
  {
  }

  lemma EndOnly(C: Context, ts: TypeStack)
    ensures CheckSeq(C, Cons(End, Nil), ts) == Ok(ts)
  {
  }

  // ---------------------------------------------------------------- modules

  /** At most 65536 pages, and a maximum not below the minimum. */
  predicate Limits(def: MemDef) {
    def.min <= 65536 && (def.max.Some? ==> def.max.value <= 65536 && def.min <= def.max.value)
  }

  predicate ModeExactly(C: Context, mode: Mode, ts: seq<ValType>, t: ValType) {
    mode.Active? ==> mode.target < |ts| && ts[mode.target] == t && ConstExpr(C, mode.offset, I32)
  }

  /** `all` is the entries of `first` and then those of `own`. */
  ghost predicate ImportsThenOwn<T>(all: seq<T>, first: seq<T>, own: seq<T>) {
    && |all| == |first| + |own|
    && (forall i :: 0 <= i < |first| ==> all[i] == first[i])
    && (forall i :: 0 <= i < |own| ==> all[|first| + i] == own[i])
  }

  /** What initialisers and function bodies can name: of each kind the imports and then the
      module's own, except that an initialiser sees no global but the imported ones. */
  lemma Scopes(mod: Module)
    requires TypesKnown(mod)
    ensures var C, D := InitContext(mod), ModuleContext(mod);
            && C.types == D.types == mod.types && C.refs == D.refs == mod.refs
            && |C.funcs| == |mod.imports.funcs| + |mod.funcs| && D.funcs == C.funcs
            && (forall i :: 0 <= i < |mod.imports.funcs| ==> C.funcs[i] == mod.types[mod.imports.funcs[i]])
            && (forall i :: 0 <= i < |mod.funcs| ==> C.funcs[|mod.imports.funcs| + i] == mod.types[mod.funcs[i].typeidx])
            && ImportsThenOwn(C.tables, mod.imports.tables, OwnTables(mod)) && D.tables == C.tables
            && C.mems == D.mems == |mod.imports.mems| + |mod.mems|
            && C.globals == mod.imports.globals && ImportsThenOwn(D.globals, mod.imports.globals, OwnGlobals(mod.globals))
            && |D.elems| == |mod.elems| && (forall i :: 0 <= i < |mod.elems| ==> D.elems[i] == mod.elems[i].reftype)
            && D.datas == |mod.datas| && C.locals == D.locals == [] && C.labels == D.labels == [] && C.ret == D.ret == None
  {
  }

  ghost function OwnTables(mod: Module): seq<ValType> { seq(|mod.tables|, i requires 0 <= i < |mod.tables| => mod.tables[i].reftype) }

  /** Everything `validate_module` asks but for function bodies. */
  ghost predicate PartsValid(mod: Module)
    requires TypesKnown(mod)
  {
    var C := InitContext(mod);
    && (forall i :: 0 <= i < |mod.globals| ==> ConstExpr(C, mod.globals[i].init, mod.globals[i].gt.t))
    && (forall i, j :: 0 <= i < |mod.elems| && 0 <= j < |mod.elems[i].init| ==>
          ConstExpr(C, mod.elems[i].init[j], mod.elems[i].reftype))
    && (forall i :: 0 <= i < |mod.elems| ==> ModeExactly(C, mod.elems[i].mode, TableTypes(mod), mod.elems[i].reftype))
    && (forall i :: 0 <= i < |mod.datas| ==>
          mod.datas[i].mode.Active? ==>
            mod.datas[i].mode.target < |mod.imports.mems| + |mod.mems| && ConstExpr(C, mod.datas[i].mode.offset, I32))
  }

  ghost predicate Valid(mod: Module) {
    && (forall i :: 0 <= i < |mod.imports.mems| ==> Limits(mod.imports.mems[i]))
    && (forall i :: 0 <= i < |mod.mems| ==> Limits(mod.mems[i]))
    && |mod.imports.mems| + |mod.mems| <= 1
    && (forall i :: 0 <= i < |mod.imports.funcs| ==> mod.imports.funcs[i] < |mod.types|)
    && (forall i :: 0 <= i < |mod.funcs| ==> mod.funcs[i].typeidx < |mod.types|)
    && (mod.start.Some? ==> mod.start.value < |FuncTypes(mod)| && FuncTypes(mod)[mod.start.value] == FuncType([], []))
    && PartsValid(mod)
    && FuncsValid(ModuleContext(mod), mod.funcs)
  }

  /** Each function is accepted by itself, among the result types of the functions before it as
      outermost labels. */
  ghost predicate FuncsValid(C: Context, fs: seq<Func>)
    requires forall i :: 0 <= i < |fs| ==> fs[i].typeidx < |C.types|
  {
    forall i :: 0 <= i < |fs| ==> FuncValid(C, fs, i)
  }

  ghost predicate FuncValid(C: Context, fs: seq<Func>, i: nat)
    requires i < |fs| && forall k :: 0 <= k < |fs| ==> fs[k].typeidx < |C.types|
  {
    CheckFunc(C.(labels := C.labels + ResultsBefore(C, fs, i)), fs[i]).Ok?
  }

  ghost function ResultsBefore(C: Context, fs: seq<Func>, n: nat): seq<seq<ValType>>
    requires n <= |fs| && forall i :: 0 <= i < |fs| ==> fs[i].typeidx < |C.types|
  {
    seq(n, i requires 0 <= i < n => C.types[fs[i].typeidx].rt2)
  }

  lemma {:induction false} FuncsExactly(C: Context, fs: seq<Func>)
    requires forall i :: 0 <= i < |fs| ==> fs[i].typeidx < |C.types|
    ensures CheckFuncs(C, fs).Ok? <==> FuncsValid(C, fs)
    decreases |fs|
  {
    hide CheckBody;
    if fs != [] {
      assert FuncValid(C, fs, 0) <==> CheckFunc(C, fs[0]).Ok? by {
        assert ResultsBefore(C, fs, 0) == [] && C.labels + [] == C.labels;
        assert C.(labels := C.labels) == C;
      }
      var C1 := FuncContext(C, C.types[fs[0].typeidx], fs[0]);
      assert forall i :: 0 <= i < |fs[1..]| ==> fs[1..][i] == fs[i + 1];
      FuncsExactly(C1, fs[1..]);
      forall i | 0 <= i < |fs[1..]| ensures FuncValid(C1, fs[1..], i) <==> FuncValid(C, fs, i + 1) {
        assert C1.labels + ResultsBefore(C1, fs[1..], i) == C.labels + ResultsBefore(C, fs, i + 1);
      }
      if FuncsValid(C1, fs[1..]) && FuncValid(C, fs, 0) {
        forall i | 0 <= i < |fs| ensures FuncValid(C, fs, i) {
          assert i > 0 ==> FuncValid(C1, fs[1..], i - 1);
        }
      }
    }
  }

  /** The initialisers of the module are expressions of the decoder, for value types. */
  ghost predicate Decodable(mod: Module) {
    && (forall i :: 0 <= i < |mod.imports.globals| ==> IsValTypeCode(mod.imports.globals[i].t))
    && (forall i :: 0 <= i < |mod.globals| ==> Expression(mod.globals[i].init) && IsValTypeCode(mod.globals[i].gt.t))
    && (forall i :: 0 <= i < |mod.elems| ==> IsValTypeCode(mod.elems[i].reftype) && ModeDecodable(mod.elems[i].mode))
    && (forall i, j :: 0 <= i < |mod.elems| && 0 <= j < |mod.elems[i].init| ==> Expression(mod.elems[i].init[j]))
    && (forall i :: 0 <= i < |mod.datas| ==> ModeDecodable(mod.datas[i].mode))
  }

  ghost predicate ModeDecodable(mode: Mode) { mode.Active? ==> Expression(mode.offset) }

  lemma {:induction false} GlobalsExactly(C: Context, gs: seq<GlobalDef>)
    requires KnownGlobals(C) && forall i :: 0 <= i < |gs| ==> Expression(gs[i].init) && IsValTypeCode(gs[i].gt.t)
    ensures CheckGlobals(C, gs).Ok? <==> forall i :: 0 <= i < |gs| ==> ConstExpr(C, gs[i].init, gs[i].gt.t)
    decreases |gs|
  {
    hide CheckInit, ConstExpr, Expression;
    if gs != [] {
      InitExactly(C, gs[0].init, gs[0].gt.t);
      GlobalsExactly(C, gs[1..]);
      assert forall i :: 0 < i < |gs| ==> gs[i] == gs[1..][i - 1];
      assert forall i :: 0 <= i < |gs[1..]| ==> gs[1..][i] == gs[i + 1];
    }
  }

  lemma {:induction false} InitsExactly(C: Context, inits: seq<Code>, t: ValType)
    requires KnownGlobals(C) && IsValTypeCode(t) && forall i :: 0 <= i < |inits| ==> Expression(inits[i])
    ensures CheckInits(C, inits, t).Ok? <==> forall i :: 0 <= i < |inits| ==> ConstExpr(C, inits[i], t)
    decreases |inits|
  {
    hide CheckInit, ConstExpr, Expression;
    if inits != [] {
      InitExactly(C, inits[0], t);
      InitsExactly(C, inits[1..], t);
      assert forall i :: 0 < i < |inits| ==> inits[i] == inits[1..][i - 1];
      assert forall i :: 0 <= i < |inits[1..]| ==> inits[1..][i] == inits[i + 1];
    }
  }

  /** Segments seen before make no difference to a constant expression. */
  ghost predicate SameBut(C: Context, C': Context) { C' == C.(elems := C'.elems, datas := C'.datas) }

  ghost predicate ElemExactly(C: Context, e: ElemDef) {
    && (forall j :: 0 <= j < |e.init| ==> ConstExpr(C, e.init[j], e.reftype))
    && ModeExactly(C, e.mode, C.tables, e.reftype)
  }

  lemma ElemAccepted(C: Context, C': Context, e: ElemDef)
    requires SameBut(C, C') && KnownGlobals(C) && IsValTypeCode(e.reftype) && ModeDecodable(e.mode)
    requires forall j :: 0 <= j < |e.init| ==> Expression(e.init[j])
    ensures CheckInits(C', e.init, e.reftype).Ok? && CheckElemMode(C', e.mode, e.reftype).Ok? <==> ElemExactly(C, e)
  {
    hide CheckInit, ConstRule, Expression, CheckInits;
    InitsExactly(C', e.init, e.reftype);
    if e.mode.Active? {
      InitExactly(C', e.mode.offset, I32);
    }
    SameRules(C, C');
  }

  lemma SameRules(C: Context, C': Context)
    requires SameBut(C, C')
    ensures forall op, t: ValType :: ConstRule(C', op, t) == ConstRule(C, op, t)
  {
  }

  lemma {:induction false} ElemsExactly(C: Context, C': Context, es: seq<ElemDef>)
    requires SameBut(C, C') && KnownGlobals(C)
    requires forall i :: 0 <= i < |es| ==> IsValTypeCode(es[i].reftype) && ModeDecodable(es[i].mode)
    requires forall i, j :: 0 <= i < |es| && 0 <= j < |es[i].init| ==> Expression(es[i].init[j])
    ensures CheckElems(C', es).Ok? <==> forall i :: 0 <= i < |es| ==> ElemExactly(C, es[i])
    decreases |es|
  {
    hide CheckInits, CheckElemMode, ElemExactly, Expression, ModeDecodable;
    if es != [] {
      ElemAccepted(C, C', es[0]);
      assert forall i :: 0 <= i < |es[1..]| ==> es[1..][i] == es[i + 1];
      ElemsExactly(C, C'.(elems := C'.elems + [es[0].reftype]), es[1..]);
      assert forall i :: 0 < i < |es| ==> es[i] == es[1..][i - 1];
    }
  }

  ghost predicate DataExactly(C: Context, d: DataDef) {
    d.mode.Active? ==> d.mode.target < C.mems && ConstExpr(C, d.mode.offset, I32)
  }

  lemma {:induction false} DatasExactly(C: Context, C': Context, ds: seq<DataDef>)
    requires SameBut(C, C') && KnownGlobals(C) && forall i :: 0 <= i < |ds| ==> ModeDecodable(ds[i].mode)
    ensures CheckDatas(C', ds).Ok? <==> forall i :: 0 <= i < |ds| ==> DataExactly(C, ds[i])
    decreases |ds|
  {
    hide CheckInit, ConstRule, Expression;
    if ds != [] {
      SameRules(C, C');
      if ds[0].mode.Active? {
        assert ModeDecodable(ds[0].mode);
        InitExactly(C', ds[0].mode.offset, I32);
      }
      assert CheckDataMode(C', ds[0].mode).Ok? <==> DataExactly(C, ds[0]);
      assert forall i :: 0 <= i < |ds[1..]| ==> ds[1..][i] == ds[i + 1];
      DatasExactly(C, C'.(datas := C'.datas + 1), ds[1..]);
      assert forall i :: 0 < i < |ds| ==> ds[i] == ds[1..][i - 1];
    }
  }

  lemma PartsExactly(mod: Module)
    requires TypesKnown(mod) && Decodable(mod)
    ensures CheckParts(mod).Ok? <==>
            PartsValid(mod) && CheckFuncs(ModuleContext(mod), mod.funcs).Ok? && |mod.imports.mems| + |mod.mems| <= 1
  {
    hide CheckGlobals, CheckElems, CheckDatas, CheckFuncs, ConstExpr, Expression, ModeDecodable, ModuleContext, FuncTypes;
    var C := InitContext(mod);
    GlobalsExactly(C, mod.globals);
    ElemsExactly(C, C, mod.elems);
    DatasExactly(C, C.(elems := ElemTypes(mod.elems)), mod.datas);
    if forall i :: 0 <= i < |mod.elems| ==> ElemExactly(C, mod.elems[i]) {
      forall i | 0 <= i < |mod.elems|
        ensures ModeExactly(C, mod.elems[i].mode, TableTypes(mod), mod.elems[i].reftype)
        ensures forall j :: 0 <= j < |mod.elems[i].init| ==> ConstExpr(C, mod.elems[i].init[j], mod.elems[i].reftype)
      {
        assert ElemExactly(C, mod.elems[i]);
      }
    }
    if forall i :: 0 <= i < |mod.datas| ==> DataExactly(C, mod.datas[i]) {
      forall i | 0 <= i < |mod.datas| && mod.datas[i].mode.Active?
        ensures mod.datas[i].mode.target < |mod.imports.mems| + |mod.mems| && ConstExpr(C, mod.datas[i].mode.offset, I32)
      {
        assert DataExactly(C, mod.datas[i]);
      }
    }
  }

  /** validate_module, exports and table limits aside, accepts a module exactly when its parts
      are valid by these rules and its functions are accepted one after the other. */
  lemma ModuleExactly(mod: Module)
    requires Decodable(mod)
    ensures CheckModule(mod).Ok? <==> TypesKnown(mod) && Valid(mod)
  {
    hide CheckParts, PartsValid, CheckFuncs, FuncsValid, Decodable, ModuleContext;
    if TypesKnown(mod) {
      PartsExactly(mod);
      Scopes(mod);
      FuncsExactly(ModuleContext(mod), mod.funcs);
      StartExactly(FuncTypes(mod), mod.start);
    }
  }

  lemma StartExactly(fts: seq<FuncType>, start: Option<U32>)
    ensures CheckStart(fts, start).Ok? <==> (start.Some? ==> start.value < |fts| && fts[start.value] == FuncType([], []))
  {
  }
}
