/** From a module to a running instance: validating the module, allocating its parts, running
    its initialisers. Instantiation establishes what the theorems about runs start from. */
module Instances {
  import opened Syntax
  import opened Runtime
  import opened Machine
  import opened Typing
  import opened Invariants

  // ---------------------------------------------------------------- modules

  datatype GlobalDef = GlobalDef(gt: GlobalType, init: Code)
  datatype TableDef = TableDef(reftype: ValType, min: U32, max: U32)
  datatype MemDef = MemDef(min: U32, max: Option<U32>)

  /** An active segment is copied into its table or memory at instantiation. */
  datatype Mode = Active(target: U32, offset: Code) | Passive | Declarative

  datatype ElemDef = ElemDef(reftype: ValType, init: seq<Code>, mode: Mode)
  datatype DataDef = DataDef(bytes: seq<Byte>, mode: Mode)

  /** What a module imports, one list per kind; functions by type index. */
  datatype Imports = Imports(funcs: seq<U32>, tables: seq<ValType>, mems: seq<MemDef>, globals: seq<GlobalType>)

  datatype Module = Module(
    types: seq<FuncType>,
    imports: Imports,
    funcs: seq<Func>,
    tables: seq<TableDef>,
    mems: seq<MemDef>,
    globals: seq<GlobalDef>,
    elems: seq<ElemDef>,
    datas: seq<DataDef>,
    start: Option<U32>,
    refs: seq<bool>)

  // ---------------------------------------------------------------- validation

  predicate TypesKnown(mod: Module) {
    && (forall i :: 0 <= i < |mod.imports.funcs| ==> mod.imports.funcs[i] < |mod.types|)
    && (forall i :: 0 <= i < |mod.funcs| ==> mod.funcs[i].typeidx < |mod.types|)
  }

  function FuncTypes(mod: Module): (fts: seq<FuncType>)
    requires TypesKnown(mod)
    ensures |fts| == |mod.imports.funcs| + |mod.funcs|
  {
    seq(|mod.imports.funcs|, i requires 0 <= i < |mod.imports.funcs| => mod.types[mod.imports.funcs[i]]) +
    seq(|mod.funcs|, i requires 0 <= i < |mod.funcs| => mod.types[mod.funcs[i].typeidx])
  }

  function TableTypes(mod: Module): (ts: seq<ValType>)
    ensures |ts| == |mod.imports.tables| + |mod.tables|
  {
    mod.imports.tables + seq(|mod.tables|, i requires 0 <= i < |mod.tables| => mod.tables[i].reftype)
  }

  function OwnGlobals(gs: seq<GlobalDef>): (gts: seq<GlobalType>)
    ensures |gts| == |gs|
  {
    seq(|gs|, i requires 0 <= i < |gs| => gs[i].gt)
  }

  function ElemTypes(es: seq<ElemDef>): (ts: seq<ValType>)
    ensures |ts| == |es|
  {
    seq(|es|, i requires 0 <= i < |es| => es[i].reftype)
  }

  /** The context in which initialisers are checked: only imported globals are in it. */
  function InitContext(mod: Module): Context
    requires TypesKnown(mod)
  {
    Context(mod.types, FuncTypes(mod), TableTypes(mod), |mod.imports.mems| + |mod.mems|, mod.imports.globals, [], 0, [], [], None, mod.refs)
  }

  /** The context in which functions are checked. */
  function ModuleContext(mod: Module): Context
    requires TypesKnown(mod)
  {
    InitContext(mod).(globals := mod.imports.globals + OwnGlobals(mod.globals), elems := ElemTypes(mod.elems), datas := |mod.datas|)
  }

  predicate ConstantInstr(C: Context, ins: Instr) {
    ins.Plain? &&
    (ins.op.Const? || ins.op.RefFunc? || ins.op.RefNull?
     || (ins.op.GlobalGet? && (ins.op.x < |C.globals| ==> !C.globals[ins.op.x].mutable)))
  }

  /** `is_constant_expr`: nothing but constants up to END. */
  predicate IsConstant(C: Context, code: Code) {
    code.Cons? && (code.ins.End? || (ConstantInstr(C, code.ins) && IsConstant(C, code.next)))
  }

  function CheckInit(C: Context, code: Code, t: ValType): Result<()> {
    if !IsConstant(C, code) then Err(ConstantExpressionRequired) else CheckBody(C, code, [], [t])
  }

  function CheckGlobals(C: Context, gs: seq<GlobalDef>): Result<()> {
    if gs == [] then Ok(()) else
    match CheckInit(C, gs[0].init, gs[0].gt.t)
    case Err(e) => Err(e)
    case Ok(_) => CheckGlobals(C, gs[1..])
  }

  function CheckInits(C: Context, inits: seq<Code>, t: ValType): Result<()> {
    if inits == [] then Ok(()) else
    match CheckInit(C, inits[0], t)
    case Err(e) => Err(e)
    case Ok(_) => CheckInits(C, inits[1..], t)
  }

  function CheckElemMode(C: Context, mode: Mode, t: ValType): Result<()> {
    if !mode.Active? then Ok(())
    else if mode.target >= |C.tables| then Err(UnknownTable)
    else
      match CheckInit(C, mode.offset, I32)
      case Err(e) => Err(e)
      case Ok(_) => if C.tables[mode.target] != t then Err(TypeMismatch) else Ok(())
  }

  /** Each segment sees the types of the segments before it. */
  function CheckElems(C: Context, es: seq<ElemDef>): Result<()>
    decreases |es|
  {
    if es == [] then Ok(()) else
    match CheckInits(C, es[0].init, es[0].reftype)
    case Err(e) => Err(e)
    case Ok(_) =>
      match CheckElemMode(C, es[0].mode, es[0].reftype)
      case Err(e) => Err(e)
      case Ok(_) => CheckElems(C.(elems := C.elems + [es[0].reftype]), es[1..])
  }

  function CheckDataMode(C: Context, mode: Mode): Result<()> {
    if !mode.Active? then Ok(())
    else if mode.target >= C.mems then Err(UnknownMemory)
    else CheckInit(C, mode.offset, I32)
  }

  /** Each segment sees how many segments stand before it. */
  function CheckDatas(C: Context, ds: seq<DataDef>): Result<()>
    decreases |ds|
  {
    if ds == [] then Ok(()) else
    match CheckDataMode(C, ds[0].mode)
    case Err(e) => Err(e)
    case Ok(_) => CheckDatas(C.(datas := C.datas + 1), ds[1..])
  }

  function CheckStart(fts: seq<FuncType>, start: Option<U32>): Result<()> {
    if start.None? then Ok(())
    else if start.value >= |fts| then Err(UnknownFunc)
    else if |fts[start.value].rt1| != 0 || |fts[start.value].rt2| != 0 then Err(Failed)
    else Ok(())
  }

  /** All functions are checked in one context: `validate_func` never takes its label out of
      the list again, so every function after the first also sees the labels left behind. */
  function CheckFuncs(C: Context, fs: seq<Func>): Result<()>
    requires forall i :: 0 <= i < |fs| ==> fs[i].typeidx < |C.types|
    decreases |fs|
  {
    if fs == [] then Ok(()) else
    match CheckFunc(C, fs[0])
    case Err(e) => Err(e)
    case Ok(_) => CheckFuncs(FuncContext(C, C.types[fs[0].typeidx], fs[0]), fs[1..])
  }

  predicate MemLimitsOk(def: MemDef) {
    def.min <= NUM_PAGE_MAX && (def.max.Some? ==> def.min <= def.max.value <= NUM_PAGE_MAX)
  }

  /** `validate_module`, without exports. */
  function CheckModule(mod: Module): Result<()> {
    if exists i :: 0 <= i < |mod.imports.mems| && !MemLimitsOk(mod.imports.mems[i]) then Err(Failed)
    else if !TypesKnown(mod) then Err(UnknownType)
    else
      match CheckStart(FuncTypes(mod), mod.start)
      case Err(e) => Err(e)
      case Ok(_) =>
        if exists i :: 0 <= i < |mod.mems| && !MemLimitsOk(mod.mems[i]) then Err(Failed)
        else CheckParts(mod)
  }

  function CheckParts(mod: Module): Result<()>
    requires TypesKnown(mod)
  {
    match CheckGlobals(InitContext(mod), mod.globals)
    case Err(e) => Err(e)
    case Ok(_) =>
      match CheckElems(InitContext(mod), mod.elems)
      case Err(e) => Err(e)
      case Ok(_) =>
        match CheckDatas(InitContext(mod).(elems := ElemTypes(mod.elems)), mod.datas)
        case Err(e) => Err(e)
        case Ok(_) =>
          match CheckFuncs(ModuleContext(mod), mod.funcs)
          case Err(e) => Err(e)
          case Ok(_) => if |mod.imports.mems| + |mod.mems| > 1 then Err(Failed) else Ok(())
  }

  // ---------------------------------------------------------------- instantiation

  /** The host's values for the imports: addresses in the store. */
  datatype Externs = Externs(funcs: seq<U32>, tables: seq<U32>, mems: seq<U32>, globals: seq<U32>)

  const ADDRESSES: nat := 0x1_0000_0000

  /** `n` consecutive addresses from `from` on. */
  function Fresh(from: nat, n: nat): (r: seq<U32>)
    requires from + n <= ADDRESSES
    ensures |r| == n && forall i :: 0 <= i < n ==> r[i] == from + i
  {
    seq(n, i requires 0 <= i < n => (from + i) as U32)
  }

  /** Addresses do not run out. */
  predicate Room(S: Store, mod: Module) {
    && |S.funcs| + |mod.funcs| <= ADDRESSES && |S.tables| + |mod.tables| <= ADDRESSES
    && |S.mems| + |mod.mems| <= ADDRESSES && |S.globals| + |mod.globals| <= ADDRESSES
    && |S.elems| + |mod.elems| <= ADDRESSES && |S.datas| + |mod.datas| <= ADDRESSES
  }

  /** The instance in the end: imports, then consecutive fresh addresses. */
  function FinalInst(S: Store, mod: Module, ext: Externs): ModInst
    requires Room(S, mod)
  {
    ModInst(
      mod.types,
      ext.funcs + Fresh(|S.funcs|, |mod.funcs|),
      ext.tables + Fresh(|S.tables|, |mod.tables|),
      ext.mems + Fresh(|S.mems|, |mod.mems|),
      ext.globals + Fresh(|S.globals|, |mod.globals|),
      Fresh(|S.elems|, |mod.elems|),
      Fresh(|S.datas|, |mod.datas|))
  }

  /** After the functions, tables, memories and data segments are allocated. */
  function AllocParts(S: Store, mod: Module, m: ModInst): Store
    requires TypesKnown(mod)
  {
    S.(funcs := S.funcs + seq(|mod.funcs|, i requires 0 <= i < |mod.funcs| => FuncInst(mod.types[mod.funcs[i].typeidx], m, mod.funcs[i])),
       tables := S.tables + seq(|mod.tables|, i requires 0 <= i < |mod.tables| =>
         TableInst(mod.tables[i].reftype, mod.tables[i].max, seq(mod.tables[i].min, _ => NULL_REF))),
       mems := S.mems + seq(|mod.mems|, i requires 0 <= i < |mod.mems| =>
         MemInst(mod.mems[i].min, if mod.mems[i].max.Some? then mod.mems[i].max.value else 0, map[])),
       datas := S.datas + seq(|mod.datas|, i requires 0 <= i < |mod.datas| => mod.datas[i].bytes))
  }

  function Length(code: Code): nat { if code.Nil? then 0 else 1 + Length(code.next) }

  /** Runs an initialiser on top of the module's frame and pops its value. None: it traps,
      gets stuck, or leaves no value. */
  ghost function InitValue(S: Store, m: ModInst, base: Stk, code: Code): Option<Val> {
    match Exec(Length(code), code, |base|, base + [OFrame(0, [], m)], S)
    case Done(s, S', _) => if CanPop(s, 1) && S' == S then Some(Top(s, 1)[0]) else None
    case _ => None
  }

  /** Allocates globals one after the other; `m` holds the addresses filled in so far, so an
      initialiser that reads any other slot gets stuck. */
  ghost function AllocGlobals(S: Store, m: ModInst, base: Stk, gs: seq<GlobalDef>): Option<(Store, ModInst)>
    requires |S.globals| + |gs| <= ADDRESSES
    decreases |gs|
  {
    if gs == [] then Some((S, m)) else
    match InitValue(S, m, base, gs[0].init)
    case None => None
    case Some(v) =>
      AllocGlobals(S.(globals := S.globals + [GlobalInst(gs[0].gt.t, gs[0].gt.mutable, v)]),
                   m.(globaladdrs := m.globaladdrs + [|S.globals|]), base, gs[1..])
  }

  ghost function InitRefsOf(S: Store, m: ModInst, base: Stk, inits: seq<Code>): Option<seq<U32>>
    decreases |inits|
  {
    if inits == [] then Some([]) else
    match InitValue(S, m, base, inits[0])
    case None => None
    case Some(v) =>
      match InitRefsOf(S, m, base, inits[1..])
      case None => None
      case Some(rs) => Some([AsU32(v)] + rs)
  }

  ghost function AllocElems(S: Store, m: ModInst, base: Stk, es: seq<ElemDef>): Option<(Store, ModInst)>
    requires |S.elems| + |es| <= ADDRESSES
    decreases |es|
  {
    if es == [] then Some((S, m)) else
    match InitRefsOf(S, m, base, es[0].init)
    case None => None
    case Some(rs) =>
      AllocElems(S.(elems := S.elems + [ElemInst(es[0].reftype, rs)]),
                 m.(elemaddrs := m.elemaddrs + [|S.elems|]), base, es[1..])
  }

  lemma {:induction false} GlobalsKeepElems(S: Store, m: ModInst, base: Stk, gs: seq<GlobalDef>)
    requires |S.globals| + |gs| <= ADDRESSES
    ensures var r := AllocGlobals(S, m, base, gs); r.Some? ==> r.value.0.elems == S.elems
    decreases |gs|
  {
    hide InitValue;
    if gs != [] && InitValue(S, m, base, gs[0].init).Some? {
      var v := InitValue(S, m, base, gs[0].init).value;
      GlobalsKeepElems(S.(globals := S.globals + [GlobalInst(gs[0].gt.t, gs[0].gt.mutable, v)]),
                       m.(globaladdrs := m.globaladdrs + [|S.globals|]), base, gs[1..]);
    }
  }

  /** `instantiate` up to the exports, on a stack `base`. */
  ghost function Allocate(S: Store, mod: Module, ext: Externs, base: Stk): Option<(Store, ModInst)>
    requires TypesKnown(mod) && Room(S, mod)
  {
    var m := FinalInst(S, mod, ext);
    match AllocGlobals(AllocParts(S, mod, m), m.(globaladdrs := ext.globals, elemaddrs := []), base, mod.globals)
    case None => None
    case Some((S', m')) =>
      GlobalsKeepElems(AllocParts(S, mod, m), m.(globaladdrs := ext.globals, elemaddrs := []), base, mod.globals);
      AllocElems(S', m', base, mod.elems)
  }

  // ---------------------------------------------------------------- active segments and the start function

  /** How starting up stands: going on, ended by a trap or error, out of fuel, at undefined
      behaviour of the C program, or gone wrong. */
  datatype Startup = Going(store: Store) | Aborted(err: Error) | Starved | StartupUB | Broken

  function AfterRun(r: Run): Startup {
    match r
    case Done(_, S, _) => Going(S)
    case Trapped(e, _) => Aborted(e)
    case OutOfFuel => Starved
    case RunUB => StartupUB
    case Stuck => Broken
  }

  function DropCode(i: U32): Code { Cons(Instr.Plain(ElemDrop(i)), Nil) }

  function InitDropCode(x: U32, i: U32): Code { Cons(Instr.Plain(TableInit(x, i)), DropCode(i)) }

  function InitDataCode(i: U32): Code { Cons(Instr.Plain(MemoryInit(i)), Nil) }

  function ModuleFrame(m: ModInst): Obj { OFrame(0, [], m) }

  /** An active segment is copied and dropped, a declarative one is dropped. */
  ghost function StartElem(S: Store, m: ModInst, base: Stk, i: U32, e: ElemDef): Startup {
    match e.mode
    case Passive => Going(S)
    case Declarative => AfterRun(Exec(1, DropCode(i), |base|, base + [ModuleFrame(m)], S))
    case Active(x, offset) =>
      match InitValue(S, m, base, offset)
      case None => Broken
      case Some(v) =>
        if |base| + 4 > CAPACITY then Aborted(TrapCallStackExhausted) else
        AfterRun(Exec(2, InitDropCode(x, i), |base|, base + [ModuleFrame(m)] + OVals([v, ValI32(0), ValI32(|e.init|)]), S))
  }

  ghost function StartElems(S: Store, m: ModInst, base: Stk, es: seq<ElemDef>, i: nat): Startup
    requires i <= |es| <= ADDRESSES
    decreases |es| - i
  {
    if i == |es| then Going(S) else
    match StartElem(S, m, base, i, es[i])
    case Going(S') => StartElems(S', m, base, es, i + 1)
    case other => other
  }

  /** An active data segment is copied and, unlike the standard's, kept. */
  ghost function StartData(S: Store, m: ModInst, base: Stk, i: U32, d: DataDef): Startup {
    if !d.mode.Active? then Going(S)
    else if d.mode.target != 0 then Aborted(Failed)
    else
      match InitValue(S, m, base, d.mode.offset)
      case None => Broken
      case Some(v) =>
        if |base| + 4 > CAPACITY then Aborted(TrapCallStackExhausted) else
        AfterRun(Exec(1, InitDataCode(i), |base|, base + [ModuleFrame(m)] + OVals([v, ValI32(0), ValI32(|d.bytes|)]), S))
  }

  ghost function StartDatas(S: Store, m: ModInst, base: Stk, ds: seq<DataDef>, i: nat): Startup
    requires i <= |ds| <= ADDRESSES
    decreases |ds| - i
  {
    if i == |ds| then Going(S) else
    match StartData(S, m, base, i, ds[i])
    case Going(S') => StartDatas(S', m, base, ds, i + 1)
    case other => other
  }

  ghost function RunStart(fuel: nat, S: Store, m: ModInst, base: Stk, start: Option<U32>): Startup {
    if start.None? then Going(S)
    else if start.value >= |m.funcaddrs| then Broken
    else AfterRun(Invoke(fuel, m.funcaddrs[start.value], base + [ModuleFrame(m)], S))
  }

  ghost function Start(fuel: nat, S: Store, mod: Module, m: ModInst, base: Stk): Startup
    requires |mod.elems| <= ADDRESSES && |mod.datas| <= ADDRESSES
  {
    match StartElems(S, m, base, mod.elems, 0)
    case Going(S1) =>
      (match StartDatas(S1, m, base, mod.datas, 0)
       case Going(S2) => RunStart(fuel, S2, m, base, mod.start)
       case other => other)
    case other => other
  }

  /** `instantiate`: the store and the instance, if nothing stops it. */
  ghost function Instantiate(fuel: nat, S: Store, mod: Module, ext: Externs, base: Stk): (Startup, Option<ModInst>)
    requires TypesKnown(mod) && Room(S, mod)
  {
    match Allocate(S, mod, ext, base)
    case None => (Broken, None)
    case Some((S', m)) => (Start(fuel, S', mod, m, base), Some(m))
  }
}
