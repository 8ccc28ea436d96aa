/** How starting up ends: exactly which active segments let it go on, with what trap it stops
    otherwise, and what the start function is. */
module StartOutcome {
  import opened Syntax
  import opened Runtime
  import opened Machine
  import opened Semantics
  import opened Typing
  import opened Invariants
  import opened Bulk
  import opened Reentry
  import opened MemoryLaws
  import opened Instances
  import I = InstanceProofs
  import opened StartupProofs
  import opened Theorems
  import opened Contents
  import opened Segments
  import Pipeline

  /** What becomes of a range of `n` entries to be copied to `off`. */
  datatype Fate = Goes | OutOfRange | LeftOpen

  // ---------------------------------------------------------------- one segment

  /** A data segment has to lie within the memory; it is left open when it runs up to or over the
      middle of the address space or is at least that long. */
  ghost function DataFate(S: Store, m: ModInst, d: DataDef): Fate {
    var off, n := Offset(S, m, d.mode), |d.bytes|;
    if !d.mode.Active? then Goes
    else if ValidAddr(m.memaddrs, 0, |S.mems|) && off + n > S.mems[m.memaddrs[0]].pages * 0x1_0000 then OutOfRange
    else if n > 0 && (off < HALF <= off + n || n >= HALF) then LeftOpen
    else Goes
  }

  /** An element segment has to lie within its table; it is left open when it ends at slot 2^31 or beyond. */
  ghost function ElemFate(S: Store, m: ModInst, e: ElemDef): Fate {
    var off, n := Offset(S, m, e.mode), |e.init|;
    if !e.mode.Active? then Goes
    else if ValidAddr(m.tableaddrs, e.mode.target, |S.tables|) && off + n > |S.tables[m.tableaddrs[e.mode.target]].elems| then OutOfRange
    else if n > 0 && off + n >= HALF then LeftOpen
    else Goes
  }

  ghost predicate Meets(r: Startup, fate: Fate, trap: Error) {
    match fate
    case Goes => r.Going?
    case OutOfRange => r == Aborted(trap)
    case LeftOpen => r == StartupUB
  }

  lemma DataMeets(S: Store, m: ModInst, base: Stk, i: U32, d: DataDef, v: Val)
    requires d.mode.Active? && d.mode.target == 0 && InitValue(S, m, base, d.mode.offset) == Some(v) && AsU32(v) == Offset(S, m, d.mode)
    requires MemsOk(S) && |base| + 4 <= CAPACITY && ValidAddr(m.memaddrs, 0, |S.mems|) && ValidAddr(m.dataaddrs, i, |S.datas|)
    requires S.datas[m.dataaddrs[i]] == d.bytes && |d.bytes| < SPACE
    ensures Meets(StartData(S, m, base, i, d), DataFate(S, m, d), TrapOutOfBoundsMemoryAccess)
  {
    hide Exec, InitValue, Perform, Offset;
    var s, args := base + [ModuleFrame(m)], [v, ValI32(0), ValI32(|d.bytes|)];
    assert AsU32(ValI32(0)) == 0 && AsU32(ValI32(|d.bytes|)) == |d.bytes|;
    PlainRuns(1, MemoryInit(i), Nil, |base|, s, args, S);
    MemoryInitLaw(i, args, [], S, m);
    var e := Perform(MemoryInit(i), args, [], S, m);
    if e.Did? {
      ExecNil(0, |base|, s, e.store);
    }
  }

  lemma ElemMeets(S: Store, m: ModInst, base: Stk, i: U32, e: ElemDef, v: Val)
    requires e.mode.Active? && InitValue(S, m, base, e.mode.offset) == Some(v) && AsU32(v) == Offset(S, m, e.mode)
    requires |base| + 4 <= CAPACITY && ValidAddr(m.tableaddrs, e.mode.target, |S.tables|) && ValidAddr(m.elemaddrs, i, |S.elems|)
    requires |S.elems[m.elemaddrs[i]].elems| == |e.init| < SPACE
    ensures Meets(StartElem(S, m, base, i, e), ElemFate(S, m, e), TrapOutOfBoundsTableAccess)
  {
    hide Exec, InitValue, Perform, Offset, Spliced;
    var s, args := base + [ModuleFrame(m)], [v, ValI32(0), ValI32(|e.init|)];
    assert AsU32(ValI32(0)) == 0 && AsU32(ValI32(|e.init|)) == |e.init|;
    var x := e.mode.target;
    PlainRuns(2, TableInit(x, i), DropCode(i), |base|, s, args, S);
    TableInitLaw(x, i, args, [], S, m);
    var r := Perform(TableInit(x, i), args, [], S, m);
    if r.Did? {
      DropRuns(r.store, m, base, i);
    }
  }

  // ---------------------------------------------------------------- all segments

  /** The segments before the n-th go on, and it does not, unless it is behind the last. */
  ghost predicate FirstData(S: Store, m: ModInst, ds: seq<DataDef>, i: nat, n: nat) {
    i <= n <= |ds| && (forall k :: i <= k < n ==> DataFate(S, m, ds[k]).Goes?) && (n < |ds| ==> !DataFate(S, m, ds[n]).Goes?)
  }

  ghost predicate FirstElem(S: Store, m: ModInst, es: seq<ElemDef>, i: nat, n: nat) {
    i <= n <= |es| && (forall k :: i <= k < n ==> ElemFate(S, m, es[k]).Goes?) && (n < |es| ==> !ElemFate(S, m, es[n]).Goes?)
  }

  lemma PassiveGoes(S: Store, m: ModInst, d: DataDef)
    requires !d.mode.Active?
    ensures DataFate(S, m, d).Goes?
  {
  }

  lemma OneDataMeets(strict: bool, S: Store, mod: Module, m: ModInst, base: Stk, C0: Context, i: nat)
    requires i < |mod.datas| <= ADDRESSES && MemsOk(S) && DataThere(S, m, mod.datas) && |base| + 4 <= CAPACITY
    requires TypesKnown(mod) && Running(strict, S, m, ModuleContext(mod)) && ModesPremise(strict, mod)
    requires I.Covers(strict, S, m, C0) && C0.mems == ModuleContext(mod).mems <= 1 && CheckDataMode(C0, mod.datas[i].mode).Ok?
    ensures Meets(StartData(S, m, base, i, mod.datas[i]), DataFate(S, m, mod.datas[i]), TrapOutOfBoundsMemoryAccess)
  {
    hide InitValue, CheckInit, I.Covers, I.InitPremise, MemsOk, Exec, CodeOk, DataOk, CleanContext, I.ConstValue, InitContext, DataFate;
    var d := mod.datas[i];
    if d.mode.Active? {
      assert ModePremise(strict, d.mode);
      I.InitRuns(strict, S, m, base, C0, d.mode.offset, I32);
      DataMeets(S, m, base, i, d, InitValue(S, m, base, d.mode.offset).value);
    } else {
      PassiveGoes(S, m, d);
    }
  }

  lemma OneElemMeets(strict: bool, S: Store, mod: Module, m: ModInst, base: Stk, C0: Context, i: nat)
    requires i < |mod.elems| <= ADDRESSES && ElemsThere(S, m, mod.elems, i) && |base| + 4 <= CAPACITY
    requires TypesKnown(mod) && Running(strict, S, m, ModuleContext(mod)) && ModesPremise(strict, mod)
    requires I.Covers(strict, S, m, C0) && C0.tables == ModuleContext(mod).tables
    requires CheckElemMode(C0, mod.elems[i].mode, mod.elems[i].reftype).Ok?
    ensures Meets(StartElem(S, m, base, i, mod.elems[i]), ElemFate(S, m, mod.elems[i]), TrapOutOfBoundsTableAccess)
  {
    hide InitValue, CheckInit, I.Covers, I.InitPremise, Exec, CodeOk, DataOk, CleanContext, I.ConstValue, InitContext, RefOf;
    var e := mod.elems[i];
    assert ElemThere(S, m, mod.elems, i);
    match e.mode
    case Passive =>
    case Declarative => DropRuns(S, m, base, i);
    case Active(x, offset) =>
      assert ModePremise(strict, e.mode);
      I.InitRuns(strict, S, m, base, C0, offset, I32);
      ElemMeets(S, m, base, i, e, InitValue(S, m, base, offset).value);
  }

  lemma FatesSame(S: Store, S1: Store, m: ModInst, ds: seq<DataDef>, k: nat)
    requires k < |ds| && S1.globals == S.globals && |S1.mems| == |S.mems|
    requires forall b :: 0 <= b < |S.mems| ==> S1.mems[b].pages == S.mems[b].pages
    ensures DataFate(S1, m, ds[k]) == DataFate(S, m, ds[k])
  {
  }

  lemma ElemFatesSame(S: Store, S1: Store, m: ModInst, es: seq<ElemDef>, k: nat)
    requires k < |es| && S1.globals == S.globals && |S1.tables| == |S.tables|
    requires forall t :: 0 <= t < |S.tables| ==> |S1.tables[t].elems| == |S.tables[t].elems|
    ensures ElemFate(S1, m, es[k]) == ElemFate(S, m, es[k])
  {
  }

  /** The data segments all go on, or the first that does not stops the start-up, whatever
      stands behind it. */
  lemma {:induction false} DatasMeet(strict: bool, S: Store, mod: Module, m: ModInst, base: Stk, i: nat, n: nat)
    requires TypesKnown(mod) && CheckDatas(InitContext(mod).(elems := ElemTypes(mod.elems)), mod.datas).Ok? && ModesPremise(strict, mod)
    requires Running(strict, S, m, ModuleContext(mod)) && |base| + 4 <= CAPACITY && |mod.datas| <= ADDRESSES
    requires MemsOk(S) && DataThere(S, m, mod.datas) && ModuleContext(mod).mems <= 1 && FirstData(S, m, mod.datas, i, n)
    ensures Meets(StartDatas(S, m, base, mod.datas, i), if n < |mod.datas| then DataFate(S, m, mod.datas[n]) else Goes,
                  TrapOutOfBoundsMemoryAccess)
    decreases n - i
  {
    hide StartData, Running, CheckDatas, CheckDataMode, I.Covers, ModePremise, Extends, StoreOk, MemsOk, DataThere, DataFate;
    if i < |mod.datas| {
      var C0 := DataChecked(InitContext(mod).(elems := ElemTypes(mod.elems)), mod.datas, i);
      RunningCovers(strict, S, mod, m, C0);
      OneDataMeets(strict, S, mod, m, base, C0, i);
      if i < n {
        var S1 := StartData(S, m, base, i, mod.datas[i]).store;
        DataStarts(strict, S, m, ModuleContext(mod), C0, base, i, mod.datas[i]);
        OneData(strict, S, mod, m, base, C0, i);
        RunningOn(strict, S, S1, m, ModuleContext(mod));
        forall k | 0 <= k < |mod.datas| ensures DataFate(S1, m, mod.datas[k]) == DataFate(S, m, mod.datas[k]) {
          FatesSame(S, S1, m, mod.datas, k);
        }
        DatasMeet(strict, S1, mod, m, base, i + 1, n);
      }
    }
  }

  lemma {:induction false} ElemsMeet(strict: bool, S: Store, mod: Module, m: ModInst, base: Stk, i: nat, n: nat)
    requires TypesKnown(mod) && CheckElems(InitContext(mod), mod.elems).Ok? && ModesPremise(strict, mod)
    requires Running(strict, S, m, ModuleContext(mod)) && |base| + 4 <= CAPACITY && |mod.elems| <= ADDRESSES
    requires ElemsThere(S, m, mod.elems, i) && FirstElem(S, m, mod.elems, i, n)
    ensures Meets(StartElems(S, m, base, mod.elems, i), if n < |mod.elems| then ElemFate(S, m, mod.elems[n]) else Goes,
                  TrapOutOfBoundsTableAccess)
    decreases n - i
  {
    hide StartElem, Running, CheckElems, CheckElemMode, I.Covers, ModePremise, Extends, StoreOk, ElemThere, ElemFate;
    if i < |mod.elems| {
      var C0 := ElemChecked(InitContext(mod), mod.elems, i);
      RunningCovers(strict, S, mod, m, C0);
      assert ElemThere(S, m, mod.elems, i);
      SegmentTypes(strict, S, mod, m, i);
      OneElemMeets(strict, S, mod, m, base, C0, i);
      if i < n {
        var S1 := StartElem(S, m, base, i, mod.elems[i]).store;
        ElemStarts(strict, S, m, ModuleContext(mod), C0, base, i, mod.elems[i]);
        OneElem(strict, S, mod, m, base, C0, i);
        ThereLater(S, m, mod.elems, i, S1);
        RunningOn(strict, S, S1, m, ModuleContext(mod));
        forall k | 0 <= k < |mod.elems| ensures ElemFate(S1, m, mod.elems[k]) == ElemFate(S, m, mod.elems[k]) {
          ElemFatesSame(S, S1, m, mod.elems, k);
        }
        ElemsMeet(strict, S1, mod, m, base, i + 1, n);
      }
    }
  }

  // ---------------------------------------------------------------- the whole start-up

  lemma {:induction false} FindData(S: Store, m: ModInst, ds: seq<DataDef>, i: nat) returns (n: nat)
    requires i <= |ds|
    ensures FirstData(S, m, ds, i, n)
    decreases |ds| - i
  {
    hide DataFate;
    if i == |ds| || !DataFate(S, m, ds[i]).Goes? {
      n := i;
    } else {
      n := FindData(S, m, ds, i + 1);
    }
  }

  lemma {:induction false} FindElem(S: Store, m: ModInst, es: seq<ElemDef>, i: nat) returns (n: nat)
    requires i <= |es|
    ensures FirstElem(S, m, es, i, n)
    decreases |es| - i
  {
    hide ElemFate;
    if i == |es| || !ElemFate(S, m, es[i]).Goes? {
      n := i;
    } else {
      n := FindElem(S, m, es, i + 1);
    }
  }

  lemma FirstDataSame(S: Store, S1: Store, m: ModInst, ds: seq<DataDef>, i: nat, n: nat)
    requires FirstData(S, m, ds, i, n) && S1.globals == S.globals && S1.mems == S.mems
    ensures FirstData(S1, m, ds, i, n)
    ensures n < |ds| ==> DataFate(S1, m, ds[n]) == DataFate(S, m, ds[n])
  {
    hide DataFate;
    forall k | 0 <= k < |ds| ensures DataFate(S1, m, ds[k]) == DataFate(S, m, ds[k]) {
      FatesSame(S, S1, m, ds, k);
    }
  }

  /** Without a start function start-up is over; with one, it ends as the structured evaluation
      of that function of the instance does. */
  ghost predicate StartedBy(fuel: nat, S: Store, m: ModInst, start: Option<U32>, r: Startup) {
    match start
    case None => r == Going(S)
    case Some(x) =>
      && x < |m.funcaddrs| && m.funcaddrs[x] < |S.funcs| && S.funcs[m.funcaddrs[x]].ftype == FuncType([], [])
      && match EvalCall(fuel, m.funcaddrs[x], [], S, 1)
         case Returned(_, S', _) => r == Going(S')
         case Trap(e, _) => r == Aborted(e)
         case NoFuel => r == Starved
         case OutcomeUB => r == StartupUB
         case _ => false
  }

  lemma StartIsCall(strict: bool, fuel: nat, S: Store, mod: Module, m: ModInst)
    requires TypesKnown(mod) && CheckStart(FuncTypes(mod), mod.start).Ok? && Running(strict, S, m, ModuleContext(mod))
    ensures StartedBy(fuel, S, m, mod.start, RunStart(fuel, S, m, [], mod.start))
  {
    hide Invoke, EvalCall, Extends, CodeOk, DataOk, CleanContext;
    if mod.start.Some? {
      var C, x := ModuleContext(mod), mod.start.value;
      var a, s: Stk := m.funcaddrs[x], [ModuleFrame(m)];
      assert S.funcs[a].ftype == C.funcs[x];
      assert s + OVals([]) == s && [] + [ModuleFrame(m)] == s;
      CallContract(strict, fuel, a, s, [], S);
      CallIsStructured(strict, fuel, a, s, [], S);
    }
  }

  /** Start-up stops at element segment `ne`, or at data segment `nd`, or gets through to the start function. */
  ghost predicate EndsAs(fuel: nat, mod: Module, m: ModInst, S1: Store, S2: Store, S3: Store, ne: nat, nd: nat, r: Startup) {
    if ne < |mod.elems| then Meets(r, ElemFate(S1, m, mod.elems[ne]), TrapOutOfBoundsTableAccess)
    else if nd < |mod.datas| then Meets(r, DataFate(S1, m, mod.datas[nd]), TrapOutOfBoundsMemoryAccess)
    else StartsFrom(mod, m, S1, S2, S3) && StartedBy(fuel, S3, m, mod.start, r)
  }

  /** Which outcome start-up has is decided by the store after allocation alone: the first
      element segment that does not fit its table stops it with that trap, after these the first
      data segment that does not fit the memory; if all fit, they are all in place and the start
      function runs on them. */
  lemma StartUpExactly(strict: bool, fuel: nat, S: Store, mod: Module, ext: Externs)
      returns (S1: Store, S2: Store, S3: Store, ne: nat, nd: nat)
    requires CheckModule(mod).Ok? && I.ModulePremise(strict, mod) && ModesPremise(strict, mod) && Room(S, mod) && I.Resolves(strict, S, mod, ext)
    requires StoreOk(strict, S) && MemsOk(S) && AllClean(S) && SegmentsFit(mod)
    requires strict ==> CleanContext(ModuleContext(mod))
    ensures TypesKnown(mod)
    ensures var (r, inst) := Instantiate(fuel, S, mod, ext, []);
            && inst.Some? && PartsAre(mod, inst.value, S1) && ConstantsAre(mod, inst.value, S1)
            && FirstElem(S1, inst.value, mod.elems, 0, ne) && FirstData(S1, inst.value, mod.datas, 0, nd)
            && EndsAs(fuel, mod, inst.value, S1, S2, S3, ne, nd, r)
  {
    hide Allocate, CheckModule, I.ModulePremise, ModesPremise, I.Resolves, StoreOk, MemsOk, AllClean, PartsAre, ConstantsAre, I.Made, StartElems,
         StartDatas, RunStart, FinalInst, RefsPlaced, DataPlaced, Linked, I.Grew, ElemsThere, DataThere, Running, StartedBy, ElemFate, DataFate;
    AllocatedContents(strict, S, mod, ext, []);
    I.AllocateMakes(strict, S, mod, ext, []);
    I.AllocationIsSafe(strict, S, mod, ext, []);
    Pipeline.AllocatedMemories(strict, S, mod, ext, []);
    var (S', m) := Allocate(S, mod, ext, []).value;
    S1, S2, S3 := S', S', S';
    ne := FindElem(S', m, mod.elems, 0);
    nd := FindData(S', m, mod.datas, 0);
    GrewElems(strict, S, mod, ext, S');
    ElemsAtFirst(strict, S, mod, ext, S');
    DataAtFirst(S, mod, ext, S');
    ModuleRuns(strict, S', mod, m);
    ModuleParts(mod);
    OneMemory(mod);
    ElemsContents(strict, S', mod, m, [], 0);
    ElemsStart(strict, S', mod, m, [], 0);
    ElemsMeet(strict, S', mod, m, [], 0, ne);
    if ne == |mod.elems| {
      S2 := StartElems(S', m, [], mod.elems, 0).store;
      RunningOn(strict, S', S2, m, ModuleContext(mod));
      DataStillThere(S', m, mod, S2);
      ElemsLeaveMemory(S', m, mod.elems, S2);
      FirstDataSame(S', S2, m, mod.datas, 0, nd);
      DatasContents(strict, S2, mod, m, [], 0);
      DatasStart(strict, S2, mod, m, [], 0);
      DatasMeet(strict, S2, mod, m, [], 0, nd);
      if nd == |mod.datas| {
        S3 := StartDatas(S2, m, [], mod.datas, 0).store;
        RunningOn(strict, S2, S3, m, ModuleContext(mod));
        StartIsCall(strict, fuel, S3, mod, m);
      }
    }
  }

  lemma ElemsLeaveMemory(S: Store, m: ModInst, es: seq<ElemDef>, S2: Store)
    requires RefsPlaced(S, m, es, 0, S2)
    ensures S2.globals == S.globals && S2.mems == S.mems
  {
    hide SlotIs, Left;
  }

  lemma OneMemory(mod: Module)
    requires CheckModule(mod).Ok? && TypesKnown(mod)
    ensures ModuleContext(mod).mems <= 1 && CheckStart(FuncTypes(mod), mod.start).Ok?
  {
    hide CheckGlobals, CheckElems, CheckDatas, CheckFuncs, CheckStart, CheckInit;
  }
}
