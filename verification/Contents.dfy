/** What the globals, tables, memories and segments of a module hold once it is instantiated. */
module Contents {
  import opened Syntax
  import opened Runtime
  import opened Machine
  import opened Typing
  import opened Instances
  import I = InstanceProofs

  // ---------------------------------------------------------------- initial values

  /** The constants of context `C` have the same values in a store that only grew. */
  ghost predicate SameConstants(C: Context, S: Store, m: ModInst, S': Store, m': ModInst) {
    && m'.funcaddrs == m.funcaddrs && |C.globals| <= |m.globaladdrs| && |C.globals| <= |m'.globaladdrs|
    && forall x :: 0 <= x < |C.globals| ==>
         && m'.globaladdrs[x] == m.globaladdrs[x] && m.globaladdrs[x] < |S.globals| && m.globaladdrs[x] < |S'.globals|
         && S'.globals[m.globaladdrs[x]].val == S.globals[m.globaladdrs[x]].val
  }

  lemma ConstKept(C: Context, S: Store, m: ModInst, S': Store, m': ModInst, op: Plain)
    requires SameConstants(C, S, m, S', m') && (op.GlobalGet? ==> op.x < |C.globals|)
    ensures I.ConstValue(S', m', op) == I.ConstValue(S, m, op)
  {
  }

  /** Every global of the module is allocated at its address with its type, its mutability and
      the value of its constant. */
  lemma {:induction false} GlobalValues(strict: bool, S: Store, m: ModInst, base: Stk, C: Context, gs: seq<GlobalDef>, i: nat)
    requires CheckGlobals(C, gs).Ok? && I.GlobalsPremise(strict, gs) && I.Covers(strict, S, m, C) && |base| + 2 <= CAPACITY
    requires |S.globals| + |gs| <= ADDRESSES && i < |gs|
    ensures AllocGlobals(S, m, base, gs).Some? && gs[i].init.Cons? && gs[i].init.ins.Plain?
    ensures var S' := AllocGlobals(S, m, base, gs).value.0;
            && |S.globals| + i < |S'.globals|
            && S'.globals[|S.globals| + i] == GlobalInst(gs[i].gt.t, gs[i].gt.mutable, I.ConstValue(S, m, gs[i].init.ins.op))
    decreases |gs|
  {
    hide InitValue, I.InitPremise, CheckInit, I.ConstValue;
    var g := gs[0];
    I.InitRuns(strict, S, m, base, C, g.init, g.gt.t);
    var v := InitValue(S, m, base, g.init).value;
    var gi := GlobalInst(g.gt.t, g.gt.mutable, v);
    var S1, m1 := S.(globals := S.globals + [gi]), m.(globaladdrs := m.globaladdrs + [|S.globals|]);
    I.CoversMore(strict, S, m, C, gi);
    I.GlobalsRun(strict, S1, m1, base, C, gs[1..]);
    var S' := AllocGlobals(S1, m1, base, gs[1..]).value.0;
    if i == 0 {
      assert S'.globals[|S.globals|] == S'.globals[..|S1.globals|][|S.globals|];
    } else {
      GlobalValues(strict, S1, m1, base, C, gs[1..], i - 1);
      assert gs[1..][i - 1] == gs[i];
      GlobalIsImported(strict, S, m, base, C, gs, i);
      SlotsThere(strict, S, m, C);
      ConstKept(C, S, m, S1, m1, gs[i].init.ins.op);
    }
  }

  lemma SlotsThere(strict: bool, S: Store, m: ModInst, C: Context)
    requires I.Covers(strict, S, m, C)
    ensures forall x :: 0 <= x < |C.globals| ==> x < |m.globaladdrs| && m.globaladdrs[x] < |S.globals|
  {
    forall x | 0 <= x < |C.globals| ensures m.globaladdrs[x] < |S.globals| {
      assert I.Slot(strict, S, m.globaladdrs[x], C.globals[x].t);
    }
  }

  lemma {:induction false} GlobalIsImported(strict: bool, S: Store, m: ModInst, base: Stk, C: Context, gs: seq<GlobalDef>, i: nat)
    requires CheckGlobals(C, gs).Ok? && I.GlobalsPremise(strict, gs) && I.Covers(strict, S, m, C) && |base| + 2 <= CAPACITY && i < |gs|
    ensures gs[i].init.Cons? && gs[i].init.ins.Plain?
    ensures gs[i].init.ins.op.GlobalGet? ==> gs[i].init.ins.op.x < |C.globals|
    decreases |gs|
  {
    hide InitValue, I.InitPremise, CheckInit, I.Covers;
    if i == 0 {
      I.InitRuns(strict, S, m, base, C, gs[0].init, gs[0].gt.t);
    } else {
      GlobalIsImported(strict, S, m, base, C, gs[1..], i - 1);
    }
  }

  lemma {:induction false} RefsAre(strict: bool, S: Store, m: ModInst, base: Stk, C: Context, inits: seq<Code>, t: ValType, j: nat)
    requires CheckInits(C, inits, t).Ok? && I.Covers(strict, S, m, C) && |base| + 2 <= CAPACITY && j < |inits|
    requires forall i :: 0 <= i < |inits| ==> I.InitPremise(strict, inits[i], t)
    ensures InitRefsOf(S, m, base, inits).Some? && |InitRefsOf(S, m, base, inits).value| == |inits|
    ensures inits[j].Cons? && inits[j].ins.Plain? && (inits[j].ins.op.GlobalGet? ==> inits[j].ins.op.x < |C.globals|)
    ensures InitRefsOf(S, m, base, inits).value[j] == AsU32(I.ConstValue(S, m, inits[j].ins.op))
    decreases |inits|
  {
    hide InitValue, I.InitPremise, CheckInit, I.Covers, I.ConstValue;
    I.InitRuns(strict, S, m, base, C, inits[0], t);
    I.InitsRun(strict, S, m, base, C, inits[1..], t);
    if j > 0 {
      RefsAre(strict, S, m, base, C, inits[1..], t, j - 1);
    }
  }

  /** Every reference of an allocated element segment is the value of its constant. */
  lemma {:induction false} ElemValues(strict: bool, S: Store, m: ModInst, base: Stk, C: Context, es: seq<ElemDef>, i: nat, j: nat)
    requires CheckElems(C, es).Ok? && I.ElemsPremise(strict, es) && I.Covers(strict, S, m, C) && |base| + 2 <= CAPACITY
    requires |S.elems| + |es| <= ADDRESSES && i < |es| && j < |es[i].init|
    ensures AllocElems(S, m, base, es).Some? && es[i].init[j].Cons? && es[i].init[j].ins.Plain?
    ensures var S' := AllocElems(S, m, base, es).value.0;
            && |S.elems| + i < |S'.elems| && |S'.elems[|S.elems| + i].elems| == |es[i].init|
            && S'.elems[|S.elems| + i].elems[j] == AsU32(I.ConstValue(S, m, es[i].init[j].ins.op))
    decreases |es|
  {
    hide InitRefsOf, I.InitPremise, CheckInits, CheckElemMode, I.ConstValue;
    var e := es[0];
    I.InitsRun(strict, S, m, base, C, e.init, e.reftype);
    var ei := ElemInst(e.reftype, InitRefsOf(S, m, base, e.init).value);
    I.CoversElems(strict, S, m, C, ei, |S.elems|, e.reftype);
    var S1, m1, C1 := S.(elems := S.elems + [ei]), m.(elemaddrs := m.elemaddrs + [|S.elems|]), C.(elems := C.elems + [e.reftype]);
    I.ElemsRun(strict, S1, m1, base, C1, es[1..]);
    var S' := AllocElems(S1, m1, base, es[1..]).value.0;
    if i == 0 {
      RefsAre(strict, S, m, base, C, e.init, e.reftype, j);
      assert S'.elems[|S.elems|] == S'.elems[..|S1.elems|][|S.elems|];
    } else {
      assert es[1..][i - 1] == es[i];
      ElemValues(strict, S1, m1, base, C1, es[1..], i - 1, j);
      ConstOfElems(S, m, S1, m1, es[i].init[j].ins.op);
    }
  }

  lemma ConstOfElems(S: Store, m: ModInst, S1: Store, m1: ModInst, op: Plain)
    requires S1 == S.(elems := S1.elems) && m1 == m.(elemaddrs := m1.elemaddrs)
    ensures I.ConstValue(S1, m1, op) == I.ConstValue(S, m, op)
  {
  }

  /** The parts of the instance that need no initialiser: each of the module's own functions,
      tables, memories and data segments stands after the imports, as the module declares it. */
  ghost predicate PartsAre(mod: Module, m: ModInst, S: Store)
    requires TypesKnown(mod)
  {
    && (forall i :: 0 <= i < |mod.funcs| ==>
          var x := |mod.imports.funcs| + i;
          && x < |m.funcaddrs| && m.funcaddrs[x] < |S.funcs|
          && S.funcs[m.funcaddrs[x]] == FuncInst(mod.types[mod.funcs[i].typeidx], m, mod.funcs[i]))
    && (forall i :: 0 <= i < |mod.tables| ==>
          var x := |mod.imports.tables| + i;
          && x < |m.tableaddrs| && m.tableaddrs[x] < |S.tables| && NewTable(mod.tables[i], S.tables[m.tableaddrs[x]]))
    && (forall i :: 0 <= i < |mod.mems| ==>
          var x := |mod.imports.mems| + i;
          && x < |m.memaddrs| && m.memaddrs[x] < |S.mems| && NewMemory(mod.mems[i], S.mems[m.memaddrs[x]]))
    && (forall i :: 0 <= i < |mod.datas| ==>
          i < |m.dataaddrs| && m.dataaddrs[i] < |S.datas| && S.datas[m.dataaddrs[i]] == mod.datas[i].bytes)
  }

  /** As many null references as the minimum says. */
  ghost predicate NewTable(def: TableDef, tab: TableInst) {
    && tab.reftype == def.reftype && tab.max == def.max && |tab.elems| == def.min
    && forall k :: 0 <= k < |tab.elems| ==> tab.elems[k] == 0xFFFF_FFFF
  }

  /** The minimum of pages, every byte zero; no maximum is stored as 0. */
  ghost predicate NewMemory(def: MemDef, mem: MemInst) {
    && mem.pages == def.min && mem.max == (match def.max case Some(max) => max case None => 0)
    && forall a: int {:trigger Get(mem.data, a)} :: Get(mem.data, a) == 0
  }

  /** The parts that have initialisers: globals and element segments hold their constants. */
  ghost predicate ConstantsAre(mod: Module, m: ModInst, S: Store) {
    && (forall i :: 0 <= i < |mod.globals| ==> GlobalAt(mod, m, S, i))
    && (forall i, j :: 0 <= i < |mod.elems| && 0 <= j < |mod.elems[i].init| ==> RefAt(mod, m, S, i, j))
  }

  ghost predicate GlobalAt(mod: Module, m: ModInst, S: Store, i: nat)
    requires i < |mod.globals|
  {
    var x, g := |mod.imports.globals| + i, mod.globals[i];
    && x < |m.globaladdrs| && m.globaladdrs[x] < |S.globals| && g.init.Cons? && g.init.ins.Plain?
    && S.globals[m.globaladdrs[x]] == GlobalInst(g.gt.t, g.gt.mutable, I.ConstValue(S, m, g.init.ins.op))
  }

  ghost predicate RefAt(mod: Module, m: ModInst, S: Store, i: nat, j: nat)
    requires i < |mod.elems| && j < |mod.elems[i].init|
  {
    var init := mod.elems[i].init[j];
    && i < |m.elemaddrs| && m.elemaddrs[i] < |S.elems| && |S.elems[m.elemaddrs[i]].elems| == |mod.elems[i].init|
    && init.Cons? && init.ins.Plain?
    && S.elems[m.elemaddrs[i]].elems[j] == AsU32(I.ConstValue(S, m, init.ins.op))
  }

  lemma AllocatedParts(strict: bool, S: Store, mod: Module, ext: Externs, S': Store)
    requires TypesKnown(mod) && Room(S, mod) && I.Resolves(strict, S, mod, ext)
    requires I.Made(strict, S, mod, FinalInst(S, mod, ext), S')
    ensures PartsAre(mod, FinalInst(S, mod, ext), S')
  {
    hide I.GlobalsOf, I.ElemOf, I.Slot;
    var m := FinalInst(S, mod, ext);
    assert |ext.funcs| == |mod.imports.funcs| && |ext.tables| == |mod.imports.tables| && |ext.mems| == |mod.imports.mems|;
    forall i | 0 <= i < |mod.funcs|
      ensures var x := |mod.imports.funcs| + i;
              x < |m.funcaddrs| && m.funcaddrs[x] == |S.funcs| + i && S'.funcs[|S.funcs| + i] == FuncInst(mod.types[mod.funcs[i].typeidx], m, mod.funcs[i])
    {
    }
    forall i | 0 <= i < |mod.datas|
      ensures i < |m.dataaddrs| && m.dataaddrs[i] == |S.datas| + i && S'.datas[|S.datas| + i] == mod.datas[i].bytes
    {
    }
    forall i | 0 <= i < |mod.tables|
      ensures NewTable(mod.tables[i], S'.tables[m.tableaddrs[|mod.imports.tables| + i]])
    {
      assert m.tableaddrs[|mod.imports.tables| + i] == |S.tables| + i;
    }
    forall i | 0 <= i < |mod.mems|
      ensures NewMemory(mod.mems[i], S'.mems[m.memaddrs[|mod.imports.mems| + i]])
    {
      assert m.memaddrs[|mod.imports.mems| + i] == |S.mems| + i;
    }
  }

  /** Allocating a module: all its parts at their addresses, as declared, with their constants. */
  lemma AllocatedContents(strict: bool, S: Store, mod: Module, ext: Externs, base: Stk)
    requires CheckModule(mod).Ok? && I.ModulePremise(strict, mod) && Room(S, mod) && I.Resolves(strict, S, mod, ext)
    requires |base| + 2 <= CAPACITY
    ensures Allocate(S, mod, ext, base).Some? && TypesKnown(mod)
    ensures var (S', m) := Allocate(S, mod, ext, base).value; PartsAre(mod, m, S') && ConstantsAre(mod, m, S')
  {
    hide AllocGlobals, AllocElems, I.Covers, CheckGlobals, CheckElems, CheckDatas, CheckFuncs, CheckStart, InitContext, ModuleContext, I.Resolves,
         I.FuncPremise, I.GlobalsPremise, I.ElemsPremise, I.Made, PartsAre, RefAt, GlobalAt, AllocParts, FinalInst;
    I.KnownTypes(mod);
    I.AllocateMakes(strict, S, mod, ext, base);
    var (S', m) := Allocate(S, mod, ext, base).value;
    AllocatedParts(strict, S, mod, ext, S');
    forall i | 0 <= i < |mod.globals| ensures GlobalAt(mod, m, S', i) {
      AllocatedGlobal(strict, S, mod, ext, base, i);
    }
    forall i, j | 0 <= i < |mod.elems| && 0 <= j < |mod.elems[i].init| ensures RefAt(mod, m, S', i, j) {
      AllocatedRef(strict, S, mod, ext, base, i, j);
    }
  }

  /** The steps of allocation, with what each makes. */
  lemma AllocateSteps(strict: bool, S: Store, mod: Module, ext: Externs, base: Stk)
    returns (S1: Store, m1: ModInst, S2: Store, m2: ModInst, S': Store, m: ModInst)
    requires CheckModule(mod).Ok? && I.ModulePremise(strict, mod) && Room(S, mod) && I.Resolves(strict, S, mod, ext)
    requires |base| + 2 <= CAPACITY
    ensures TypesKnown(mod) && m == FinalInst(S, mod, ext) && S1 == AllocParts(S, mod, m) && m1 == m.(globaladdrs := ext.globals, elemaddrs := [])
    ensures Allocate(S, mod, ext, base) == Some((S', m))
    ensures I.Covers(strict, S1, m1, InitContext(mod)) && CheckGlobals(InitContext(mod), mod.globals).Ok? && I.GlobalsPremise(strict, mod.globals)
    ensures AllocGlobals(S1, m1, base, mod.globals) == Some((S2, m2)) && I.GlobalsMade(strict, S1, m1, mod.globals, S2, m2)
    ensures I.Covers(strict, S2, m2, InitContext(mod)) && CheckElems(InitContext(mod), mod.elems).Ok? && I.ElemsPremise(strict, mod.elems)
    ensures |S2.elems| + |mod.elems| <= ADDRESSES && S2.elems == S1.elems
    ensures AllocElems(S2, m2, base, mod.elems) == Some((S', m)) && I.ElemsMade(strict, S2, m2, mod.elems, S', m)
  {
    hide AllocGlobals, AllocElems, I.Covers, CheckGlobals, CheckElems, CheckDatas, CheckFuncs, CheckStart, InitContext, ModuleContext, I.GlobalsOf,
         I.ElemOf, I.Resolves, I.FuncPremise, I.GlobalsPremise, I.ElemsPremise;
    I.KnownTypes(mod);
    I.AllocateMakes(strict, S, mod, ext, base);
    m := FinalInst(S, mod, ext);
    S1, m1 := AllocParts(S, mod, m), m.(globaladdrs := ext.globals, elemaddrs := []);
    I.CoversImports(strict, S, mod, ext);
    I.GlobalsRun(strict, S1, m1, base, InitContext(mod), mod.globals);
    var g := AllocGlobals(S1, m1, base, mod.globals).value;
    S2, m2 := g.0, g.1;
    I.CoversAfterGlobals(strict, S1, m1, InitContext(mod), mod.globals, S2, m2);
    I.ElemsRun(strict, S2, m2, base, InitContext(mod), mod.elems);
    S' := Allocate(S, mod, ext, base).value.0;
  }

  lemma AllocatedGlobal(strict: bool, S: Store, mod: Module, ext: Externs, base: Stk, i: nat)
    requires CheckModule(mod).Ok? && I.ModulePremise(strict, mod) && Room(S, mod) && I.Resolves(strict, S, mod, ext)
    requires |base| + 2 <= CAPACITY && i < |mod.globals|
    ensures Allocate(S, mod, ext, base).Some? && GlobalAt(mod, Allocate(S, mod, ext, base).value.1, Allocate(S, mod, ext, base).value.0, i)
  {
    hide AllocGlobals, AllocElems, I.Covers, CheckGlobals, CheckElems, I.GlobalsOf, I.ElemOf, I.Resolves, I.ModulePremise, I.GlobalsPremise,
         I.ElemsPremise, Allocate, CheckModule, AllocParts, I.ConstValue;
    var S1, m1, S2, m2, S', m := AllocateSteps(strict, S, mod, ext, base);
    var C := InitContext(mod);
    PartsKeepGlobals(S, mod, m);
    GlobalValues(strict, S1, m1, base, C, mod.globals, i);
    GlobalIsImported(strict, S1, m1, base, C, mod.globals, i);
    SlotsThere(strict, S1, m1, C);
    SameAfterGlobals(strict, C, S1, m1, mod.globals, S2, m2);
    SameAfterElems(C, S1, m1, S2, m2, S', m);
    ConstKept(C, S1, m1, S', m, mod.globals[i].init.ins.op);
    ResolvesGlobals(strict, S, mod, ext);
    assert m.globaladdrs[|mod.imports.globals| + i] == |S.globals| + i;
  }

  lemma ResolvesGlobals(strict: bool, S: Store, mod: Module, ext: Externs)
    requires TypesKnown(mod) && I.Resolves(strict, S, mod, ext)
    ensures |ext.globals| == |mod.imports.globals|
  {
  }

  lemma PartsKeepGlobals(S: Store, mod: Module, m: ModInst)
    requires TypesKnown(mod)
    ensures AllocParts(S, mod, m).globals == S.globals && AllocParts(S, mod, m).elems == S.elems
  {
  }

  lemma SameAfterGlobals(strict: bool, C: Context, S: Store, m: ModInst, gs: seq<GlobalDef>, S': Store, m': ModInst)
    requires I.Covers(strict, S, m, C) && |S.globals| + |gs| <= ADDRESSES && I.GlobalsMade(strict, S, m, gs, S', m')
    ensures SameConstants(C, S, m, S', m')
  {
    hide I.GlobalsOf;
    SlotsThere(strict, S, m, C);
    forall x | 0 <= x < |C.globals| ensures S'.globals[m.globaladdrs[x]] == S.globals[m.globaladdrs[x]] {
      assert S'.globals[m.globaladdrs[x]] == S'.globals[..|S.globals|][m.globaladdrs[x]];
    }
  }

  lemma SameAfterElems(C: Context, S: Store, m: ModInst, S2: Store, m2: ModInst, S': Store, m': ModInst)
    requires SameConstants(C, S, m, S2, m2) && S' == S2.(elems := S'.elems) && m' == m2.(elemaddrs := m'.elemaddrs)
    ensures SameConstants(C, S, m, S', m')
  {
  }

  lemma AllocatedRef(strict: bool, S: Store, mod: Module, ext: Externs, base: Stk, i: nat, j: nat)
    requires CheckModule(mod).Ok? && I.ModulePremise(strict, mod) && Room(S, mod) && I.Resolves(strict, S, mod, ext)
    requires |base| + 2 <= CAPACITY && i < |mod.elems| && j < |mod.elems[i].init|
    ensures Allocate(S, mod, ext, base).Some? && RefAt(mod, Allocate(S, mod, ext, base).value.1, Allocate(S, mod, ext, base).value.0, i, j)
  {
    hide AllocGlobals, AllocElems, I.Covers, CheckGlobals, CheckElems, I.GlobalsOf, I.ElemOf, I.Resolves, I.ModulePremise, I.GlobalsPremise,
         I.ElemsPremise, Allocate, CheckModule, AllocParts, I.ConstValue;
    var S1, m1, S2, m2, S', m := AllocateSteps(strict, S, mod, ext, base);
    ElemValues(strict, S2, m2, base, InitContext(mod), mod.elems, i, j);
    ConstOfElems(S2, m2, S', m, mod.elems[i].init[j].ins.op);
    PartsKeepGlobals(S, mod, m);
    assert m.elemaddrs[i] == |S.elems| + i;
  }
}
