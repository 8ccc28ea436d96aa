/** `validate_module` as it runs: loops over the parts of a module, with the vector of all
    globals growing in the buffer of the context's vector. */
module ModuleValidator {
  import opened Syntax
  import opened Runtime
  import opened Typing
  import opened Instances
  import opened Vectors
  import V = Validator

  method IsConstantExpr(C: Context, code: Code) returns (yes: bool)
    ensures yes == IsConstant(C, code)
  {
    var ip := code;
    while ip.Cons? && !ip.ins.End?
      invariant IsConstant(C, ip) == IsConstant(C, code)
      decreases ip
    {
      if !ConstantInstr(C, ip.ins) {
        return false;
      }
      ip := ip.next;
    }
    yes := ip.Cons?;
  }

  /** A constant expression of type `t`. */
  method ValidateInit(C: Context, code: Code, t: ValType) returns (r: Result<()>)
    ensures r == CheckInit(C, code, t)
  {
    hide CheckBody, IsConstant;
    var constant := IsConstantExpr(C, code);
    if !constant {
      return Err(ConstantExpressionRequired);
    }
    var checker := new V.Checker(C);
    var e := checker.ValidateInstrs(code, [], [t]);
    r := if e.Some? then Err(e.value) else Ok(());
    OneUnit(CheckBody(C, code, [], [t]));
  }

  lemma OneUnit(r: Result<()>)
    ensures r.Ok? ==> r == Ok(())
  {
    if r.Ok? {
      assert r.value == ();
    }
  }

  /** The loop over the module's globals. `globals` is the context's vector, holding the
      imports; `all` becomes the vector of all globals, in the same buffer. */
  method ValidateGlobals(C: Context, gs: seq<GlobalDef>, globals: Vec<GlobalType>, all: Vec<GlobalType>) returns (r: Result<()>)
    requires globals.Valid() && globals.View() == C.globals && globals != all && globals.cap == globals.len + |gs|
    modifies all, globals.elem
    ensures r == CheckGlobals(C, gs)
    ensures r.Ok? ==> globals.Valid() && globals.elem == old(globals.elem) && globals.View() == C.globals
    ensures r.Ok? ==> all.Valid() && all.elem == globals.elem && all.View() == C.globals + OwnGlobals(gs)
  {
    hide CheckInit, OwnGlobals;
    OwnNone(gs);
    all.CopyFrom(globals);
    assert all.View() == C.globals + OwnGlobals(gs[..0]) && gs[0..] == gs;
    var i := 0;
    while i < |gs|
      invariant i <= |gs| && globals.Valid() && globals.View() == C.globals && globals.elem == old(globals.elem)
      invariant all.Valid() && all.elem == globals.elem && all.cap == globals.cap == |C.globals| + |gs|
      invariant all.View() == C.globals + OwnGlobals(gs[..i])
      invariant CheckGlobals(C, gs) == CheckGlobals(C, gs[i..])
    {
      var seen := globals.Contents();
      var g := gs[i];
      var ok := ValidateInit(C.(globals := seen), g.init, g.gt.t);
      assert C.(globals := seen) == C && gs[i..][1..] == gs[i + 1..];
      if ok.Err? {
        return Err(ok.error);
      }
      all.Append(g.gt);
      OwnNext(gs, i);
      i := i + 1;
    }
    assert gs[..|gs|] == gs;
    r := Ok(());
  }

  lemma OwnNone(gs: seq<GlobalDef>)
    ensures OwnGlobals(gs[..0]) == []
  {
  }

  lemma OwnNext(gs: seq<GlobalDef>, i: nat)
    requires i < |gs|
    ensures OwnGlobals(gs[..i + 1]) == OwnGlobals(gs[..i]) + [gs[i].gt]
  {
  }

  method ValidateInits(C: Context, inits: seq<Code>, t: ValType) returns (r: Result<()>)
    ensures r == CheckInits(C, inits, t)
  {
    hide CheckInit;
    var i := 0;
    while i < |inits|
      invariant i <= |inits| && CheckInits(C, inits, t) == CheckInits(C, inits[i..], t)
    {
      assert inits[i..][1..] == inits[i + 1..];
      var ok := ValidateInit(C, inits[i], t);
      if ok.Err? {
        return Err(ok.error);
      }
      i := i + 1;
    }
    r := Ok(());
  }

  /** Mode of an element segment whose references have type `t`. */
  method ValidateElemMode(C: Context, mode: Mode, t: ValType) returns (r: Result<()>)
    ensures r == CheckElemMode(C, mode, t)
  {
    hide CheckInit;
    if !mode.Active? {
      return Ok(());
    }
    if mode.target >= |C.tables| {
      return Err(UnknownTable);
    }
    r := ValidateInit(C, mode.offset, I32);
    if r.Ok? {
      r := if C.tables[mode.target] != t then Err(TypeMismatch) else Ok(());
    }
  }

  method ValidateElems(C: Context, es: seq<ElemDef>) returns (r: Result<()>)
    ensures r == CheckElems(C, es)
  {
    hide CheckInits, CheckElemMode;
    var c := C;
    var i := 0;
    while i < |es|
      invariant i <= |es| && CheckElems(C, es) == CheckElems(c, es[i..])
    {
      assert es[i..][1..] == es[i + 1..];
      var ok := ValidateInits(c, es[i].init, es[i].reftype);
      if ok.Err? {
        return Err(ok.error);
      }
      ok := ValidateElemMode(c, es[i].mode, es[i].reftype);
      if ok.Err? {
        return Err(ok.error);
      }
      c := c.(elems := c.elems + [es[i].reftype]);
      i := i + 1;
    }
    r := Ok(());
  }

  method ValidateDatas(C: Context, ds: seq<DataDef>) returns (r: Result<()>)
    ensures r == CheckDatas(C, ds)
  {
    hide CheckInit;
    var c := C;
    var i := 0;
    while i < |ds|
      invariant i <= |ds| && CheckDatas(C, ds) == CheckDatas(c, ds[i..])
    {
      assert ds[i..][1..] == ds[i + 1..];
      if ds[i].mode.Active? {
        if ds[i].mode.target >= c.mems {
          return Err(UnknownMemory);
        }
        var ok := ValidateInit(c, ds[i].mode.offset, I32);
        if ok.Err? {
          return Err(ok.error);
        }
      }
      c := c.(datas := c.datas + 1);
      i := i + 1;
    }
    r := Ok(());
  }

  /** Every function in the one context, which keeps the label of each function checked. */
  method ValidateFuncs(C: Context, fs: seq<Func>) returns (r: Result<()>)
    requires forall i :: 0 <= i < |fs| ==> fs[i].typeidx < |C.types|
    ensures r == CheckFuncs(C, fs)
  {
    hide CheckFunc;
    var checker := new V.Checker(C);
    var i := 0;
    while i < |fs|
      invariant i <= |fs| && checker.C.types == C.types && fresh(checker)
      invariant CheckFuncs(C, fs) == CheckFuncs(checker.C, fs[i..])
    {
      assert fs[i..][1..] == fs[i + 1..];
      var e := checker.ValidateFunc(fs[i]);
      if e.Some? {
        return Err(e.value);
      }
      i := i + 1;
    }
    r := Ok(());
  }

  /** `validate_memtype` on each memory. */
  method ValidateMems(defs: seq<MemDef>) returns (ok: bool)
    ensures ok <==> !exists i :: 0 <= i < |defs| && !MemLimitsOk(defs[i])
  {
    var i := 0;
    while i < |defs|
      invariant i <= |defs| && forall j :: 0 <= j < i ==> MemLimitsOk(defs[j])
    {
      if defs[i].min > NUM_PAGE_MAX || (defs[i].max.Some? && !(defs[i].min <= defs[i].max.value <= NUM_PAGE_MAX)) {
        assert !MemLimitsOk(defs[i]);
        return false;
      }
      i := i + 1;
    }
    ok := true;
  }

  predicate AllKnown(types: seq<FuncType>, indices: seq<U32>) { forall j :: 0 <= j < |indices| ==> indices[j] < |types| }

  function TypesAt(types: seq<FuncType>, indices: seq<U32>): (r: seq<FuncType>)
    requires AllKnown(types, indices)
    ensures |r| == |indices|
  {
    seq(|indices|, j requires 0 <= j < |indices| => types[indices[j]])
  }

  /** The loop that looks up type indices and appends the types; false stands for an unknown
      index. */
  method AppendTypes(types: Vec<FuncType>, indices: seq<U32>, funcs: Vec<FuncType>) returns (ok: bool)
    requires types.Valid() && funcs.Valid() && types != funcs && types.elem != funcs.elem
    requires funcs.elem != null && funcs.len + |indices| <= funcs.cap
    modifies funcs, funcs.elem
    ensures ok <==> AllKnown(types.View(), indices)
    ensures funcs.Valid() && funcs.elem == old(funcs.elem) && funcs.cap == old(funcs.cap)
    ensures ok ==> funcs.View() == old(funcs.View()) + TypesAt(types.View(), indices)
  {
    var i := 0;
    ghost var seen, known := funcs.View(), types.View();
    while i < |indices|
      invariant i <= |indices| && types.Valid() && types.View() == known
      invariant funcs.Valid() && funcs.elem == old(funcs.elem) && funcs.cap == old(funcs.cap) && funcs.len == |seen| + i
      invariant AllKnown(known, indices[..i]) && funcs.View() == seen + TypesAt(known, indices[..i])
    {
      var ft := types.Elem(indices[i]);
      if ft.None? {
        return false;
      }
      funcs.Append(ft.value);
      OneMore(known, indices, i);
      i := i + 1;
    }
    assert indices[..i] == indices;
    ok := true;
  }

  lemma OneMore(types: seq<FuncType>, indices: seq<U32>, i: nat)
    requires i < |indices| && AllKnown(types, indices[..i]) && indices[i] < |types|
    ensures AllKnown(types, indices[..i + 1])
    ensures TypesAt(types, indices[..i + 1]) == TypesAt(types, indices[..i]) + [types[indices[i]]]
  {
  }

  function TypeIndices(fs: seq<Func>): (r: seq<U32>)
    ensures |r| == |fs|
  {
    seq(|fs|, i requires 0 <= i < |fs| => fs[i].typeidx)
  }

  /** The context's vector of function types: imports, then the module's own functions. None
      stands for an unknown type index. */
  method CollectFuncs(mod: Module) returns (r: Option<seq<FuncType>>)
    ensures r.Some? <==> TypesKnown(mod)
    ensures r.Some? ==> r.value == FuncTypes(mod)
  {
    hide TypesKnown, FuncTypes, TypeIndices, AllKnown, TypesAt;
    var own: seq<U32> := TypeIndices(mod.funcs);
    Collected(mod);
    var types := Full(mod.types);
    var funcs := new Vec<FuncType>();
    funcs.New(0, |mod.imports.funcs| + |own|);
    assert funcs.View() == [];
    var ok := AppendTypes(types, mod.imports.funcs, funcs);
    if !ok {
      return None;
    }
    ok := AppendTypes(types, own, funcs);
    if !ok {
      return None;
    }
    var all := funcs.Contents();
    r := Some(all);
  }

  lemma Collected(mod: Module)
    ensures TypesKnown(mod) <==> AllKnown(mod.types, mod.imports.funcs) && AllKnown(mod.types, TypeIndices(mod.funcs))
    ensures TypesKnown(mod) ==> FuncTypes(mod) == [] + TypesAt(mod.types, mod.imports.funcs) + TypesAt(mod.types, TypeIndices(mod.funcs))
  {
    if AllKnown(mod.types, TypeIndices(mod.funcs)) {
      forall i | 0 <= i < |mod.funcs| ensures mod.funcs[i].typeidx < |mod.types| {
        assert TypeIndices(mod.funcs)[i] == mod.funcs[i].typeidx;
      }
    }
  }

  /** The same for tables, whose types need no check here. */
  method CollectTables(mod: Module) returns (ts: seq<ValType>)
    ensures ts == TableTypes(mod)
  {
    var tables := new Vec<ValType>();
    tables.New(0, |mod.imports.tables| + |mod.tables|);
    var i := 0;
    while i < |mod.imports.tables|
      invariant i <= |mod.imports.tables| && fresh(tables) && tables.Valid() && tables.len == i
      invariant tables.cap == |mod.imports.tables| + |mod.tables| && tables.elem != null && fresh(tables.elem)
      invariant forall j :: 0 <= j < i ==> tables.View()[j] == mod.imports.tables[j]
    {
      tables.Append(mod.imports.tables[i]);
      i := i + 1;
    }
    i := 0;
    while i < |mod.tables|
      invariant i <= |mod.tables| && fresh(tables) && tables.Valid() && tables.len == |mod.imports.tables| + i
      invariant tables.cap == |mod.imports.tables| + |mod.tables| && tables.elem != null && fresh(tables.elem)
      invariant forall j :: 0 <= j < |mod.imports.tables| ==> tables.View()[j] == mod.imports.tables[j]
      invariant forall j :: 0 <= j < i ==> tables.View()[|mod.imports.tables| + j] == mod.tables[j].reftype
    {
      tables.Append(mod.tables[i].reftype);
      i := i + 1;
    }
    ts := tables.Contents();
    assert ts == TableTypes(mod);
  }

  method ValidateModule(mod: Module) returns (r: Result<()>)
    ensures r == CheckModule(mod)
  {
    hide CheckParts, FuncTypes, TableTypes, TypesKnown;
    var ok := ValidateMems(mod.imports.mems);
    if !ok {
      return Err(Failed);
    }
    var funcs := CollectFuncs(mod);
    if funcs.None? {
      return Err(UnknownType);
    }
    if mod.start.Some? {
      if mod.start.value >= |funcs.value| {
        return Err(UnknownFunc);
      }
      var ft := funcs.value[mod.start.value];
      if |ft.rt1| != 0 || |ft.rt2| != 0 {
        return Err(Failed);
      }
    }
    OneUnit(CheckStart(funcs.value, mod.start));
    ok := ValidateMems(mod.mems);
    if !ok {
      return Err(Failed);
    }
    var tables := CollectTables(mod);
    assert funcs.value == FuncTypes(mod);
    r := ValidateParts(mod, funcs.value, tables);
  }

  method ValidateParts(mod: Module, funcs: seq<FuncType>, tables: seq<ValType>) returns (r: Result<()>)
    requires TypesKnown(mod) && funcs == FuncTypes(mod) && tables == TableTypes(mod)
    ensures r == CheckParts(mod)
  {
    hide CheckGlobals, CheckElems, CheckDatas, CheckFuncs, InitContext, ModuleContext, FuncTypes, TableTypes;
    var C := Context(mod.types, funcs, tables, |mod.imports.mems| + |mod.mems|, mod.imports.globals, [], 0, [], [], None, mod.refs);
    assert C == InitContext(mod) by { BuiltContext(mod); }
    var globals := ImportedGlobals(mod);
    var all := new Vec();
    InitGlobals(mod);
    r := ValidateGlobals(C, mod.globals, globals, all);
    if r.Err? {
      return;
    }
    r := ValidateElems(C, mod.elems);
    if r.Err? {
      return;
    }
    r := ValidateDatas(C.(elems := ElemTypes(mod.elems)), mod.datas);
    if r.Err? {
      return;
    }
    var seen := all.Contents();
    FullContext(mod);
    r := ValidateFuncs(C.(globals := seen, elems := ElemTypes(mod.elems), datas := |mod.datas|), mod.funcs);
    OneUnit(r);
    if r.Ok? && |mod.imports.mems| + |mod.mems| > 1 {
      r := Err(Failed);
    }
  }

  lemma BuiltContext(mod: Module)
    requires TypesKnown(mod)
    ensures Context(mod.types, FuncTypes(mod), TableTypes(mod), |mod.imports.mems| + |mod.mems|, mod.imports.globals, [], 0, [], [], None,
                    mod.refs) == InitContext(mod)
  {
    hide FuncTypes, TableTypes;
  }

  lemma InitGlobals(mod: Module)
    requires TypesKnown(mod)
    ensures InitContext(mod).globals == mod.imports.globals && InitContext(mod).types == mod.types
  {
  }

  lemma FullContext(mod: Module)
    requires TypesKnown(mod)
    ensures InitContext(mod).(globals := InitContext(mod).globals + OwnGlobals(mod.globals), elems := ElemTypes(mod.elems), datas := |mod.datas|)
            == ModuleContext(mod)
  {
  }

  /** The context's vector of globals: imports, and room for the module's own. */
  method ImportedGlobals(mod: Module) returns (globals: Vec<GlobalType>)
    ensures fresh(globals) && (globals.elem != null ==> fresh(globals.elem))
    ensures globals.Valid() && globals.View() == mod.imports.globals && globals.cap == globals.len + |mod.globals|
  {
    var imports := mod.imports.globals;
    globals := new Vec();
    globals.New(0, |imports| + |mod.globals|);
    var i := 0;
    assert imports[..0] == [];
    while i < |imports|
      invariant i <= |imports| && globals.Valid() && globals.View() == imports[..i]
      invariant globals.cap == |imports| + |mod.globals| && globals.elem != null && fresh(globals.elem)
    {
      globals.Append(imports[i]);
      assert imports[..i + 1] == imports[..i] + [imports[i]];
      i := i + 1;
    }
    assert imports[..|imports|] == imports;
  }
}
