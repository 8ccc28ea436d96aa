/** Starting up a module: where its active segments end up, and which functions the references
    in its tables call. */
module Segments {
  import opened Syntax
  import opened Runtime
  import opened Machine
  import opened Semantics
  import opened StackLemmas
  import opened Typing
  import opened Invariants
  import opened Bulk
  import opened MemoryLaws
  import Runs
  import opened Reentry
  import opened Instances
  import I = InstanceProofs
  import opened StartupProofs
  import opened Contents
  import opened Theorems

  // ---------------------------------------------------------------- one segment at start-up

  /** A plain instruction without results on its operands, whatever it performs. */
  lemma PlainRuns(fuel: nat, op: Plain, next: Code, fi: nat, s: Stk, args: seq<Val>, S: Store)
    requires fi < |s| <= CAPACITY && s[fi].OFrame? && s[fi].locals == [] && |args| == Pops(op) && Pushes(op) == 0 && fuel > 0
    ensures var e, r := Perform(op, args, [], S, s[fi].inst), Exec(fuel, Cons(Instr.Plain(op), next), fi, s + OVals(args), S);
            match e
            case Did(results, locals, S') => results == [] && locals == [] ==> r == Exec(fuel - 1, next, fi, s, S')
            case Traps(err) => r == Trapped(err, S)
            case EffectUB => r == RunUB
            case Wrong => r == Stuck
  {
    hide Perform, Pops, Pushes, StepPlain, Exec;
    var e := Perform(op, args, [], S, s[fi].inst);
    match e
    case Did(results, locals, S') =>
      if results == [] && locals == [] {
        ExecPlain(fuel, op, next, fi, s, args, S, [], S');
        assert s + OVals([]) == s;
      }
    case Traps(err) => PlainThrows(fuel, op, next, fi, s, args, S, err);
    case EffectUB =>
      UndefinedOnTop(op, next, fi, s, args, S);
      assert (s + OVals(args))[fi] == s[fi];
      ExecUndefined(fuel, op, next, fi, s + OVals(args), S);
    case Wrong => WrongOnTop(fuel, op, next, fi, s, args, S);
  }

  lemma WrongOnTop(fuel: nat, op: Plain, next: Code, fi: nat, s: Stk, args: seq<Val>, S: Store)
    requires fi < |s| <= CAPACITY && s[fi].OFrame? && |args| == Pops(op) && Pushes(op) == 0 && fuel > 0
    requires Perform(op, args, s[fi].locals, S, s[fi].inst) == Wrong
    ensures Exec(fuel, Cons(Instr.Plain(op), next), fi, s + OVals(args), S) == Stuck
  {
    hide Perform, Pops, CanPop, Top, Machine.Below;
    PopOf(s, args, |args|);
    assert (s + OVals(args))[fi] == s[fi];
    assert Take(args, |args|) == args && Drop'(args, |args|) == [];
    assert s + OVals([]) == s;
  }

  /** An active data segment that goes on: its bytes stand at its offset, and nothing else in the
      store has changed. */
  lemma DataWritten(S: Store, m: ModInst, base: Stk, i: U32, d: DataDef, v: Val)
    requires d.mode.Active? && InitValue(S, m, base, d.mode.offset) == Some(v) && MemsOk(S) && |base| + 1 <= CAPACITY
    requires ValidAddr(m.memaddrs, 0, |S.mems|) && ValidAddr(m.dataaddrs, i, |S.datas|)
    requires S.datas[m.dataaddrs[i]] == d.bytes && |d.bytes| < SPACE
    requires StartData(S, m, base, i, d).Going?
    ensures var a, off, S' := m.memaddrs[0], AsU32(v), StartData(S, m, base, i, d).store;
            && off + |d.bytes| <= S.mems[a].pages * 0x1_0000 && OnlyBytes(S, S', a)
            && forall k: int :: Get(S'.mems[a].data, k) == if off <= k < off + |d.bytes| then d.bytes[k - off] else Get(S.mems[a].data, k)
  {
    hide Exec, InitValue, Perform;
    var s, args := base + [ModuleFrame(m)], [v, ValI32(0), ValI32(|d.bytes|)];
    assert AsU32(ValI32(0)) == 0 && AsU32(ValI32(|d.bytes|)) == |d.bytes|;
    PlainRuns(1, MemoryInit(i), Nil, |base|, s, args, S);
    MemoryInitLaw(i, args, [], S, m);
    var e := Perform(MemoryInit(i), args, [], S, m);
    assert e.Did?;
    ExecNil(0, |base|, s, e.store);
  }

  /** An active element segment that goes on: its references stand at its offset in its table,
      it is emptied, and nothing else has changed. */
  lemma RefsWritten(S: Store, m: ModInst, base: Stk, i: U32, e: ElemDef, v: Val)
    requires e.mode.Active? && InitValue(S, m, base, e.mode.offset) == Some(v) && |base| + 1 <= CAPACITY
    requires ValidAddr(m.tableaddrs, e.mode.target, |S.tables|) && ValidAddr(m.elemaddrs, i, |S.elems|)
    requires |S.elems[m.elemaddrs[i]].elems| == |e.init| < SPACE
    requires StartElem(S, m, base, i, e).Going?
    ensures var t, b, off := m.tableaddrs[e.mode.target], m.elemaddrs[i], AsU32(v);
            && off + |e.init| <= |S.tables[t].elems|
            && StartElem(S, m, base, i, e).store
               == S.(tables := S.tables[t := S.tables[t].(elems := Spliced(S.tables[t].elems, off, S.elems[b].elems, 0, |e.init|))],
                     elems := S.elems[b := S.elems[b].(elems := [])])
  {
    hide Exec, InitValue, Perform, Spliced;
    var s, args := base + [ModuleFrame(m)], [v, ValI32(0), ValI32(|e.init|)];
    assert AsU32(ValI32(0)) == 0 && AsU32(ValI32(|e.init|)) == |e.init|;
    var x := e.mode.target;
    PlainRuns(2, TableInit(x, i), DropCode(i), |base|, s, args, S);
    TableInitLaw(x, i, args, [], S, m);
    var r := Perform(TableInit(x, i), args, [], S, m);
    assert r.Did?;
    DropRuns(r.store, m, base, i);
  }

  lemma DropRuns(S: Store, m: ModInst, base: Stk, i: U32)
    requires ValidAddr(m.elemaddrs, i, |S.elems|) && |base| + 1 <= CAPACITY
    ensures Exec(1, DropCode(i), |base|, base + [ModuleFrame(m)], S)
            == Done(base + [ModuleFrame(m)], S.(elems := S.elems[m.elemaddrs[i] := S.elems[m.elemaddrs[i]].(elems := [])]), 0)
  {
    hide Exec;
    var s := base + [ModuleFrame(m)];
    PlainRuns(1, ElemDrop(i), Nil, |base|, s, [], S);
    assert s + OVals([]) == s;
    ExecNil(0, |base|, s, Perform(ElemDrop(i), [], [], S, m).store);
  }

  // ---------------------------------------------------------------- all data segments

  /** Where an active segment goes: the value of its offset. */
  ghost function Offset(S: Store, m: ModInst, mode: Mode): nat {
    if mode.Active? && mode.offset.Cons? && mode.offset.ins.Plain? then AsU32(I.ConstValue(S, m, mode.offset.ins.op)) else 0
  }

  ghost predicate DataCovers(S: Store, m: ModInst, d: DataDef, a: int) {
    d.mode.Active? && Offset(S, m, d.mode) <= a < Offset(S, m, d.mode) + |d.bytes|
  }

  /** The byte at `a` once the segments from the i-th on are copied, later ones over earlier ones. */
  ghost function DataFrom(S: Store, m: ModInst, ds: seq<DataDef>, i: nat, a: int, before: Byte): Byte
    requires i <= |ds|
    decreases |ds| - i
  {
    if i == |ds| then before
    else DataFrom(S, m, ds, i + 1, a, if DataCovers(S, m, ds[i], a) then ds[i].bytes[a - Offset(S, m, ds[i].mode)] else before)
  }

  lemma {:induction false} NoDataFrom(S: Store, m: ModInst, ds: seq<DataDef>, i: nat, a: int, before: Byte)
    requires i <= |ds| && forall k :: i <= k < |ds| ==> !DataCovers(S, m, ds[k], a)
    ensures DataFrom(S, m, ds, i, a, before) == before
    decreases |ds| - i
  {
    if i < |ds| {
      NoDataFrom(S, m, ds, i + 1, a, before);
    }
  }

  /** The last segment over an address decides. */
  lemma {:induction false} LastDataWins(S: Store, m: ModInst, ds: seq<DataDef>, i: nat, n: nat, a: int, before: Byte)
    requires i <= n < |ds| && DataCovers(S, m, ds[n], a) && forall k :: n < k < |ds| ==> !DataCovers(S, m, ds[k], a)
    ensures DataFrom(S, m, ds, i, a, before) == ds[n].bytes[a - Offset(S, m, ds[n].mode)]
    decreases n - i
  {
    if i == n {
      NoDataFrom(S, m, ds, n + 1, a, ds[n].bytes[a - Offset(S, m, ds[n].mode)]);
    } else {
      LastDataWins(S, m, ds, i + 1, n, a, if DataCovers(S, m, ds[i], a) then ds[i].bytes[a - Offset(S, m, ds[i].mode)] else before);
    }
  }

  ghost predicate ByteIs(S: Store, m: ModInst, ds: seq<DataDef>, i: nat, S': Store, b: nat, a: int)
    requires i <= |ds| && b < |S.mems| && b < |S'.mems|
  {
    Get(S'.mems[b].data, a) ==
    if |m.memaddrs| > 0 && b == m.memaddrs[0] then DataFrom(S, m, ds, i, a, Get(S.mems[b].data, a)) else Get(S.mems[b].data, a)
  }

  /** `S'` is `S` with the data segments from the i-th on in the module's first memory. */
  ghost predicate DataPlaced(S: Store, m: ModInst, ds: seq<DataDef>, i: nat, S': Store)
    requires i <= |ds|
  {
    && |S'.mems| == |S.mems| && S' == S.(mems := S'.mems)
    && (forall b :: 0 <= b < |S.mems| ==> S'.mems[b].pages == S.mems[b].pages && S'.mems[b].max == S.mems[b].max)
    && (forall b, a: int :: 0 <= b < |S.mems| ==> ByteIs(S, m, ds, i, S', b, a))
  }

  /** The data segments of the instance are those of the module. */
  ghost predicate DataThere(S: Store, m: ModInst, ds: seq<DataDef>) {
    forall k :: 0 <= k < |ds| ==>
      ValidAddr(m.dataaddrs, k, |S.datas|) && S.datas[m.dataaddrs[k]] == ds[k].bytes && |ds[k].bytes| < SPACE
  }

  lemma {:induction false} DataFromSame(S: Store, S1: Store, m: ModInst, ds: seq<DataDef>, i: nat, a: int, before: Byte)
    requires i <= |ds| && S1.globals == S.globals
    ensures DataFrom(S1, m, ds, i, a, before) == DataFrom(S, m, ds, i, a, before)
    decreases |ds| - i
  {
    if i < |ds| {
      OffsetSame(S, S1, m, ds[i].mode);
      DataFromSame(S, S1, m, ds, i + 1, a, if DataCovers(S, m, ds[i], a) then ds[i].bytes[a - Offset(S, m, ds[i].mode)] else before);
    }
  }

  lemma OffsetSame(S: Store, S1: Store, m: ModInst, mode: Mode)
    requires S1.globals == S.globals
    ensures Offset(S1, m, mode) == Offset(S, m, mode)
  {
  }

  /** One segment, and the rest. */
  lemma DataStep(S: Store, S1: Store, m: ModInst, ds: seq<DataDef>, i: nat, S': Store)
    requires i < |ds| && DataPlaced(S1, m, ds, i + 1, S')
    requires |S1.mems| == |S.mems| && S1 == S.(mems := S1.mems)
    requires forall b :: 0 <= b < |S.mems| ==> S1.mems[b].pages == S.mems[b].pages && S1.mems[b].max == S.mems[b].max
    requires forall b, a: int {:trigger Get(S1.mems[b].data, a)} :: 0 <= b < |S.mems| ==>
               Get(S1.mems[b].data, a) ==
               if |m.memaddrs| > 0 && b == m.memaddrs[0] && DataCovers(S, m, ds[i], a) then ds[i].bytes[a - Offset(S, m, ds[i].mode)]
               else Get(S.mems[b].data, a)
    ensures DataPlaced(S, m, ds, i, S')
  {
    hide DataCovers, Offset, Get;
    forall b, a: int | 0 <= b < |S.mems| ensures ByteIs(S, m, ds, i, S', b, a) {
      assert ByteIs(S1, m, ds, i + 1, S', b, a);
      DataFromSame(S, S1, m, ds, i + 1, a, Get(S1.mems[b].data, a));
    }
  }

  lemma DataNone(S: Store, m: ModInst, ds: seq<DataDef>)
    ensures DataPlaced(S, m, ds, |ds|, S)
  {
  }

  /** Starting up copies every active data segment to the value of its offset, in order, and
      changes nothing else. */
  lemma {:induction false} DatasContents(strict: bool, S: Store, mod: Module, m: ModInst, base: Stk, i: nat)
    requires TypesKnown(mod) && CheckDatas(InitContext(mod).(elems := ElemTypes(mod.elems)), mod.datas).Ok? && ModesPremise(strict, mod)
    requires Running(strict, S, m, ModuleContext(mod)) && |base| + 3 <= CAPACITY && i <= |mod.datas| <= ADDRESSES
    requires MemsOk(S) && DataThere(S, m, mod.datas)
    ensures var r := StartDatas(S, m, base, mod.datas, i); r.Going? ==> DataPlaced(S, m, mod.datas, i, r.store)
    decreases |mod.datas| - i
  {
    hide StartData, Running, CheckDatas, CheckDataMode, I.Covers, ModePremise, Extends, StoreOk, MemsOk, DataPlaced, DataThere;
    if i == |mod.datas| {
      DataNone(S, m, mod.datas);
    } else {
      var C0 := DataChecked(InitContext(mod).(elems := ElemTypes(mod.elems)), mod.datas, i);
      RunningCovers(strict, S, mod, m, C0);
      DataStarts(strict, S, m, ModuleContext(mod), C0, base, i, mod.datas[i]);
      var r := StartData(S, m, base, i, mod.datas[i]);
      if r.Going? {
        OneData(strict, S, mod, m, base, C0, i);
        RunningOn(strict, S, r.store, m, ModuleContext(mod));
        DatasContents(strict, r.store, mod, m, base, i + 1);
        var r' := StartDatas(r.store, m, base, mod.datas, i + 1);
        if r'.Going? {
          DataStep(S, r.store, m, mod.datas, i, r'.store);
        }
      }
    }
  }

  lemma OneData(strict: bool, S: Store, mod: Module, m: ModInst, base: Stk, C0: Context, i: nat)
    requires i < |mod.datas| <= ADDRESSES && MemsOk(S) && DataThere(S, m, mod.datas) && |base| + 3 <= CAPACITY
    requires TypesKnown(mod) && Running(strict, S, m, ModuleContext(mod)) && ModesPremise(strict, mod)
    requires I.Covers(strict, S, m, C0) && C0.mems == ModuleContext(mod).mems && CheckDataMode(C0, mod.datas[i].mode).Ok?
    requires StartData(S, m, base, i, mod.datas[i]).Going?
    ensures var d, S1 := mod.datas[i], StartData(S, m, base, i, mod.datas[i]).store;
            && |S1.mems| == |S.mems| && S1 == S.(mems := S1.mems) && MemsOk(S1) && DataThere(S1, m, mod.datas)
            && (forall b :: 0 <= b < |S.mems| ==> S1.mems[b].pages == S.mems[b].pages && S1.mems[b].max == S.mems[b].max)
            && (forall b, a: int {:trigger Get(S1.mems[b].data, a)} :: 0 <= b < |S.mems| ==>
                  Get(S1.mems[b].data, a) ==
                  if |m.memaddrs| > 0 && b == m.memaddrs[0] && DataCovers(S, m, d, a) then d.bytes[a - Offset(S, m, d.mode)]
                  else Get(S.mems[b].data, a))
  {
    hide InitValue, CheckInit, I.Covers, I.InitPremise, MemsOk, Exec, CodeOk, DataOk, CleanContext, I.ConstValue, Get, InitContext;
    var d := mod.datas[i];
    if d.mode.Active? {
      assert ModePremise(strict, d.mode);
      I.InitRuns(strict, S, m, base, C0, d.mode.offset, I32);
      var v := InitValue(S, m, base, d.mode.offset).value;
      assert AsU32(v) == Offset(S, m, d.mode);
      DataWritten(S, m, base, i, d, v);
      var S1 := StartData(S, m, base, i, d).store;
      OneStepMems(S, m, base, i, d);
    }
  }

  lemma OneStepMems(S: Store, m: ModInst, base: Stk, i: U32, d: DataDef)
    requires MemsOk(S) && d.mode.Active? && StartData(S, m, base, i, d).Going?
    ensures MemsOk(StartData(S, m, base, i, d).store)
  {
    hide Exec, MemsOk, InitValue, Runs.KeptByAll;
    MemsKept(S);
    if InitValue(S, m, base, d.mode.offset).Some? {
      var v := InitValue(S, m, base, d.mode.offset).value;
      Runs.ExecKeeps(MemsFrom(S), 1, InitDataCode(i), |base|, base + [ModuleFrame(m)] + OVals([v, ValI32(0), ValI32(|d.bytes|)]), S);
    }
  }

  // ---------------------------------------------------------------- all element segments

  ghost predicate RefCovers(S: Store, m: ModInst, e: ElemDef, t: nat, k: nat) {
    && e.mode.Active? && e.mode.target < |m.tableaddrs| && m.tableaddrs[e.mode.target] == t
    && Offset(S, m, e.mode) <= k < Offset(S, m, e.mode) + |e.init|
  }

  /** The j-th reference of a segment: the value of its constant. */
  ghost function RefOf(S: Store, m: ModInst, e: ElemDef, j: nat): U32
    requires j < |e.init|
  {
    if e.init[j].Cons? && e.init[j].ins.Plain? then AsU32(I.ConstValue(S, m, e.init[j].ins.op)) else 0
  }

  /** Slot `k` of table `t` once the segments from the i-th on are copied. */
  ghost function RefFrom(S: Store, m: ModInst, es: seq<ElemDef>, i: nat, t: nat, k: nat, before: U32): U32
    requires i <= |es|
    decreases |es| - i
  {
    if i == |es| then before
    else RefFrom(S, m, es, i + 1, t, k, if RefCovers(S, m, es[i], t, k) then RefOf(S, m, es[i], k - Offset(S, m, es[i].mode)) else before)
  }

  lemma {:induction false} NoRefFrom(S: Store, m: ModInst, es: seq<ElemDef>, i: nat, t: nat, k: nat, before: U32)
    requires i <= |es| && forall n :: i <= n < |es| ==> !RefCovers(S, m, es[n], t, k)
    ensures RefFrom(S, m, es, i, t, k, before) == before
    decreases |es| - i
  {
    if i < |es| {
      NoRefFrom(S, m, es, i + 1, t, k, before);
    }
  }

  /** The last segment over a slot decides. */
  lemma {:induction false} LastRefWins(S: Store, m: ModInst, es: seq<ElemDef>, i: nat, n: nat, t: nat, k: nat, before: U32)
    requires i <= n < |es| && RefCovers(S, m, es[n], t, k) && forall l :: n < l < |es| ==> !RefCovers(S, m, es[l], t, k)
    ensures RefFrom(S, m, es, i, t, k, before) == RefOf(S, m, es[n], k - Offset(S, m, es[n].mode))
    decreases n - i
  {
    if i == n {
      NoRefFrom(S, m, es, n + 1, t, k, RefOf(S, m, es[n], k - Offset(S, m, es[n].mode)));
    } else {
      LastRefWins(S, m, es, i + 1, n, t, k, if RefCovers(S, m, es[i], t, k) then RefOf(S, m, es[i], k - Offset(S, m, es[i].mode)) else before);
    }
  }

  /** The element segments of the instance from the i-th on are those of the module, each at an
      address of its own. */
  ghost predicate ElemsThere(S: Store, m: ModInst, es: seq<ElemDef>, i: nat) {
    && |es| <= |m.elemaddrs| && (forall k, l :: 0 <= k < l < |es| ==> m.elemaddrs[k] != m.elemaddrs[l])
    && (forall k :: 0 <= k < |es| ==> m.elemaddrs[k] < |S.elems|)
    && (forall k :: i <= k < |es| ==> ElemThere(S, m, es, k))
  }

  ghost predicate ElemThere(S: Store, m: ModInst, es: seq<ElemDef>, k: nat)
    requires k < |es|
  {
    && k < |m.elemaddrs| && m.elemaddrs[k] < |S.elems| && |S.elems[m.elemaddrs[k]].elems| == |es[k].init| < SPACE
    && forall j :: 0 <= j < |es[k].init| ==> S.elems[m.elemaddrs[k]].elems[j] == RefOf(S, m, es[k], j)
  }

  ghost predicate SlotIs(S: Store, m: ModInst, es: seq<ElemDef>, i: nat, S': Store, t: nat, k: nat)
    requires i <= |es| && t < |S.tables| && t < |S'.tables| && k < |S.tables[t].elems| && k < |S'.tables[t].elems|
  {
    S'.tables[t].elems[k] == RefFrom(S, m, es, i, t, k, S.tables[t].elems[k])
  }

  /** `S'` is `S` with the active segments from the i-th on in their tables; they and the
      declarative ones are emptied. */
  ghost predicate RefsPlaced(S: Store, m: ModInst, es: seq<ElemDef>, i: nat, S': Store)
    requires i <= |es|
  {
    && S' == S.(tables := S'.tables, elems := S'.elems) && |S'.tables| == |S.tables| && |S'.elems| == |S.elems|
    && (forall t :: 0 <= t < |S.tables| ==>
          && S'.tables[t].reftype == S.tables[t].reftype && S'.tables[t].max == S.tables[t].max
          && |S'.tables[t].elems| == |S.tables[t].elems|)
    && (forall t, k :: 0 <= t < |S.tables| && 0 <= k < |S.tables[t].elems| ==> SlotIs(S, m, es, i, S', t, k))
    && (forall k :: i <= k < |es| && k < |m.elemaddrs| && m.elemaddrs[k] < |S.elems| ==> Left(S, m, es, S', k))
  }

  /** What is left of segment `k`: all of a passive one, nothing of any other. */
  ghost predicate Left(S: Store, m: ModInst, es: seq<ElemDef>, S': Store, k: nat)
    requires k < |es| && k < |m.elemaddrs| && m.elemaddrs[k] < |S.elems|
  {
    m.elemaddrs[k] < |S'.elems| &&
    S'.elems[m.elemaddrs[k]].elems == if es[k].mode.Passive? then S.elems[m.elemaddrs[k]].elems else []
  }

  lemma {:induction false} RefFromSame(S: Store, S1: Store, m: ModInst, es: seq<ElemDef>, i: nat, t: nat, k: nat, before: U32)
    requires i <= |es| && S1.globals == S.globals
    ensures RefFrom(S1, m, es, i, t, k, before) == RefFrom(S, m, es, i, t, k, before)
    decreases |es| - i
  {
    if i < |es| {
      OffsetSame(S, S1, m, es[i].mode);
      RefFromSame(S, S1, m, es, i + 1, t, k, if RefCovers(S, m, es[i], t, k) then RefOf(S, m, es[i], k - Offset(S, m, es[i].mode)) else before);
    }
  }

  /** What one segment does. */
  ghost predicate OneRefs(S: Store, m: ModInst, es: seq<ElemDef>, i: nat, S1: Store)
    requires i < |es|
  {
    && S1 == S.(tables := S1.tables, elems := S1.elems) && |S1.tables| == |S.tables| && |S1.elems| == |S.elems|
    && (forall t :: 0 <= t < |S.tables| ==>
          && S1.tables[t].reftype == S.tables[t].reftype && S1.tables[t].max == S.tables[t].max
          && |S1.tables[t].elems| == |S.tables[t].elems|)
    && (forall t, k :: 0 <= t < |S.tables| && 0 <= k < |S.tables[t].elems| ==>
          S1.tables[t].elems[k] ==
          if RefCovers(S, m, es[i], t, k) then RefOf(S, m, es[i], k - Offset(S, m, es[i].mode)) else S.tables[t].elems[k])
    && i < |m.elemaddrs| && m.elemaddrs[i] < |S.elems|
    && (forall b :: 0 <= b < |S.elems| ==>
          S1.elems[b] == if b == m.elemaddrs[i] && !es[i].mode.Passive? then S.elems[b].(elems := []) else S.elems[b])
  }

  lemma RefsStep(S: Store, S1: Store, m: ModInst, es: seq<ElemDef>, i: nat, S': Store)
    requires i < |es| && OneRefs(S, m, es, i, S1) && RefsPlaced(S1, m, es, i + 1, S') && ElemsThere(S, m, es, i)
    requires forall k :: 0 <= k < |es| && k != i ==> m.elemaddrs[k] != m.elemaddrs[i]
    requires S'.elems[m.elemaddrs[i]] == S1.elems[m.elemaddrs[i]]
    ensures RefsPlaced(S, m, es, i, S')
  {
    hide RefCovers, RefOf, Offset, RefFrom;
    forall t, k | 0 <= t < |S.tables| && 0 <= k < |S.tables[t].elems| ensures SlotIs(S, m, es, i, S', t, k) {
      assert SlotIs(S1, m, es, i + 1, S', t, k);
      RefFromSame(S, S1, m, es, i + 1, t, k, S1.tables[t].elems[k]);
      RefFromNext(S, m, es, i, t, k, S.tables[t].elems[k]);
    }
    forall k | i <= k < |es| && k < |m.elemaddrs| && m.elemaddrs[k] < |S.elems| ensures Left(S, m, es, S', k) {
      if k > i {
        assert Left(S1, m, es, S', k);
      }
    }
  }

  lemma RefFromNext(S: Store, m: ModInst, es: seq<ElemDef>, i: nat, t: nat, k: nat, before: U32)
    requires i < |es|
    ensures RefFrom(S, m, es, i, t, k, before) ==
            RefFrom(S, m, es, i + 1, t, k, if RefCovers(S, m, es[i], t, k) then RefOf(S, m, es[i], k - Offset(S, m, es[i].mode)) else before)
  {
  }

  lemma RefsNone(S: Store, m: ModInst, es: seq<ElemDef>)
    ensures RefsPlaced(S, m, es, |es|, S)
  {
  }

  lemma ThereLater(S: Store, m: ModInst, es: seq<ElemDef>, i: nat, S1: Store)
    requires i < |es| && OneRefs(S, m, es, i, S1) && ElemsThere(S, m, es, i)
    ensures ElemsThere(S1, m, es, i + 1)
  {
    hide RefCovers, Offset;
    forall k | i + 1 <= k < |es| ensures ElemThere(S1, m, es, k) {
      assert ElemThere(S, m, es, k);
      assert m.elemaddrs[i] != m.elemaddrs[k];
    }
  }

  lemma OneElem(strict: bool, S: Store, mod: Module, m: ModInst, base: Stk, C0: Context, i: nat)
    requires i < |mod.elems| <= ADDRESSES && ElemsThere(S, m, mod.elems, i) && |base| + 3 <= CAPACITY
    requires TypesKnown(mod) && Running(strict, S, m, ModuleContext(mod)) && ModesPremise(strict, mod)
    requires I.Covers(strict, S, m, C0) && C0.tables == ModuleContext(mod).tables
    requires CheckElemMode(C0, mod.elems[i].mode, mod.elems[i].reftype).Ok?
    requires StartElem(S, m, base, i, mod.elems[i]).Going?
    ensures OneRefs(S, m, mod.elems, i, StartElem(S, m, base, i, mod.elems[i]).store)
  {
    hide InitValue, CheckInit, I.Covers, I.InitPremise, Exec, CodeOk, DataOk, CleanContext, I.ConstValue, InitContext, RefOf;
    var e := mod.elems[i];
    assert ElemThere(S, m, mod.elems, i);
    match e.mode
    case Passive =>
      NothingCovered(S, m, e);
    case Declarative =>
      DropRuns(S, m, base, i);
    case Active(x, offset) =>
      assert ModePremise(strict, e.mode);
      I.InitRuns(strict, S, m, base, C0, offset, I32);
      var v := InitValue(S, m, base, offset).value;
      assert AsU32(v) == Offset(S, m, e.mode);
      RefsWritten(S, m, base, i, e, v);
      SplicedRefs(S, m, e, m.elemaddrs[i], AsU32(v));
  }

  lemma NothingCovered(S: Store, m: ModInst, e: ElemDef)
    requires !e.mode.Active?
    ensures forall t: nat, k: nat :: !RefCovers(S, m, e, t, k)
  {
  }

  /** The splice, slot by slot. */
  lemma SplicedRefs(S: Store, m: ModInst, e: ElemDef, b: nat, off: nat)
    requires e.mode.Active? && ValidAddr(m.tableaddrs, e.mode.target, |S.tables|) && b < |S.elems| && off == Offset(S, m, e.mode)
    requires |S.elems[b].elems| == |e.init| && off + |e.init| <= |S.tables[m.tableaddrs[e.mode.target]].elems|
    requires forall j :: 0 <= j < |e.init| ==> S.elems[b].elems[j] == RefOf(S, m, e, j)
    ensures var t := m.tableaddrs[e.mode.target];
            var after := Spliced(S.tables[t].elems, off, S.elems[b].elems, 0, |e.init|);
            && |after| == |S.tables[t].elems|
            && forall k :: 0 <= k < |after| ==>
                 after[k] == if RefCovers(S, m, e, t, k) then RefOf(S, m, e, k - off) else S.tables[t].elems[k]
  {
    hide RefOf, Offset;
  }

  /** Starting up copies every active element segment to the value of its offset, in order,
      empties it and the declarative ones, and changes nothing else. */
  lemma {:induction false} ElemsContents(strict: bool, S: Store, mod: Module, m: ModInst, base: Stk, i: nat)
    requires TypesKnown(mod) && CheckElems(InitContext(mod), mod.elems).Ok? && ModesPremise(strict, mod)
    requires Running(strict, S, m, ModuleContext(mod)) && |base| + 3 <= CAPACITY && i <= |mod.elems| <= ADDRESSES
    requires ElemsThere(S, m, mod.elems, i)
    ensures var r := StartElems(S, m, base, mod.elems, i);
            r.Going? ==>
              && RefsPlaced(S, m, mod.elems, i, r.store)
              && forall k :: 0 <= k < i ==> r.store.elems[m.elemaddrs[k]] == S.elems[m.elemaddrs[k]]
    decreases |mod.elems| - i
  {
    hide StartElem, Running, CheckElems, CheckElemMode, I.Covers, ModePremise, Extends, StoreOk, OneRefs, ElemThere;
    if i == |mod.elems| {
      RefsNone(S, m, mod.elems);
    } else {
      var C0 := ElemChecked(InitContext(mod), mod.elems, i);
      RunningCovers(strict, S, mod, m, C0);
      assert ElemThere(S, m, mod.elems, i);
      SegmentTypes(strict, S, mod, m, i);
      ElemStarts(strict, S, m, ModuleContext(mod), C0, base, i, mod.elems[i]);
      var r := StartElem(S, m, base, i, mod.elems[i]);
      if r.Going? {
        OneElem(strict, S, mod, m, base, C0, i);
        ThereLater(S, m, mod.elems, i, r.store);
        RunningOn(strict, S, r.store, m, ModuleContext(mod));
        ElemsContents(strict, r.store, mod, m, base, i + 1);
        var r' := StartElems(r.store, m, base, mod.elems, i + 1);
        if r'.Going? {
          RefsStep(S, r.store, m, mod.elems, i, r'.store);
          EarlierKept(S, m, mod.elems, i, r.store);
        }
      }
    }
  }

  lemma EarlierKept(S: Store, m: ModInst, es: seq<ElemDef>, i: nat, S1: Store)
    requires i < |es| && OneRefs(S, m, es, i, S1) && ElemsThere(S, m, es, i)
    ensures forall k :: 0 <= k < i ==> S1.elems[m.elemaddrs[k]] == S.elems[m.elemaddrs[k]]
  {
    hide RefCovers, RefOf, Offset, ElemThere;
    forall k | 0 <= k < i ensures m.elemaddrs[k] != m.elemaddrs[i] {
    }
  }

  lemma SegmentTypes(strict: bool, S: Store, mod: Module, m: ModInst, i: nat)
    requires TypesKnown(mod) && Running(strict, S, m, ModuleContext(mod)) && i < |mod.elems|
    ensures i < |ModuleContext(mod).elems| && ModuleContext(mod).elems[i] == mod.elems[i].reftype
    ensures ModuleContext(mod).tables == InitContext(mod).tables
  {
  }

  // ---------------------------------------------------------------- the whole start-up

  lemma ElemsAtFirst(strict: bool, S: Store, mod: Module, ext: Externs, S': Store)
    requires TypesKnown(mod) && Room(S, mod) && ConstantsAre(mod, FinalInst(S, mod, ext), S')
    requires |S.elems| + |mod.elems| <= |S'.elems|
    requires I.Made(strict, S, mod, FinalInst(S, mod, ext), S')
    requires forall i :: 0 <= i < |mod.elems| ==> |mod.elems[i].init| < SPACE
    ensures ElemsThere(S', FinalInst(S, mod, ext), mod.elems, 0)
  {
    hide I.ConstValue, I.GlobalsOf;
    var m := FinalInst(S, mod, ext);
    forall k | 0 <= k < |mod.elems| ensures ElemThere(S', m, mod.elems, k) {
      assert m.elemaddrs[k] == |S.elems| + k;
      assert I.ElemOf(strict, |AllocParts(S, mod, m).funcs|, S'.elems[|S.elems|..][k], mod.elems[k]);
      forall j | 0 <= j < |mod.elems[k].init|
        ensures S'.elems[m.elemaddrs[k]].elems[j] == RefOf(S', m, mod.elems[k], j)
      {
        assert RefAt(mod, m, S', k, j);
      }
    }
  }

  lemma DataAtFirst(S: Store, mod: Module, ext: Externs, S': Store)
    requires TypesKnown(mod) && Room(S, mod) && PartsAre(mod, FinalInst(S, mod, ext), S')
    requires forall i :: 0 <= i < |mod.datas| ==> |mod.datas[i].bytes| < SPACE
    ensures DataThere(S', FinalInst(S, mod, ext), mod.datas)
  {
    hide NewTable, NewMemory;
  }

  /** Sizes that fit the 32-bit counts of the binary format. */
  predicate SegmentsFit(mod: Module) {
    && |mod.elems| <= ADDRESSES && |mod.datas| <= ADDRESSES
    && (forall i :: 0 <= i < |mod.elems| ==> |mod.elems[i].init| < SPACE)
    && (forall i :: 0 <= i < |mod.datas| ==> |mod.datas[i].bytes| < SPACE)
  }

  /** What stands in the store when the start function is called, or, without one, when
      instantiation is over: from `S1`, the store after allocation, the references of the active
      element segments in their tables (`S2`) and then the bytes of the active data segments in
      the memory (`S3`). */
  ghost predicate StartsFrom(mod: Module, m: ModInst, S1: Store, S2: Store, S3: Store) {
    RefsPlaced(S1, m, mod.elems, 0, S2) && DataPlaced(S2, m, mod.datas, 0, S3)
  }

  /** An immutable global of the module holds the value of its initialiser, which reads at most
      an immutable import, for ever: through start-up and every run of calls after it. */
  lemma ImmutableForever(fuel: nat, S: Store, mod: Module, ext: Externs, i: nat, calls: seq<HostCall>)
    requires CheckModule(mod).Ok? && I.ModulePremise(true, mod) && ModesPremise(true, mod) && Room(S, mod) && I.Resolves(true, S, mod, ext)
    requires StoreOk(true, S) && CleanContext(ModuleContext(mod)) && |mod.elems| <= ADDRESSES && |mod.datas| <= ADDRESSES
    requires i < |mod.globals| && !mod.globals[i].gt.mutable
    ensures var (r, inst) := Instantiate(fuel, S, mod, ext, []);
            r.Going? ==>
              && inst.Some?
              && var after := RunCalls(calls, r.store);
                 after.Idle? ==> GlobalAt(mod, inst.value, after.store, i)
  {
    hide Allocate, CheckModule, I.ModulePremise, ModesPremise, I.Resolves, StoreOk, PartsAre, I.Made, Start, FinalInst, Linked, I.Grew,
         Running, RunCalls, I.ConstValue;
    AllocatedContents(true, S, mod, ext, []);
    I.AllocationIsSafe(true, S, mod, ext, []);
    var (S', m) := Allocate(S, mod, ext, []).value;
    ModuleRuns(true, S', mod, m);
    StartIsSafe(true, fuel, S', mod, m, []);
    var r := Start(fuel, S', mod, m, []);
    if r.Going? && RunCalls(calls, r.store).Idle? {
      RunsStaySafe(calls, r.store);
      ExtendsTwice(S', r.store, RunCalls(calls, r.store).store);
      ConstantKept(S', RunCalls(calls, r.store).store, mod, m, i);
    }
  }

  lemma ConstantKept(S: Store, S': Store, mod: Module, m: ModInst, i: nat)
    requires CheckModule(mod).Ok? && I.ModulePremise(true, mod) && Linked(S, m, ModuleContext(mod)) && Extends(S, S')
    requires TypesKnown(mod) && i < |mod.globals| && !mod.globals[i].gt.mutable && GlobalAt(mod, m, S, i)
    ensures GlobalAt(mod, m, S', i)
  {
    hide CheckGlobals, CheckElems, CheckDatas, CheckFuncs, CheckStart, CheckInit, I.FuncPremise, I.ElemsPremise;
    var C, init := InitContext(mod), mod.globals[i].init;
    assert CheckGlobals(C, mod.globals).Ok?;
    GlobalChecked(C, mod.globals, i);
    assert I.InitPremise(true, init, mod.globals[i].gt.t);
    I.InitShape(C, init, mod.globals[i].gt.t);
    if init.ins.op.GlobalGet? {
      var x := init.ins.op.x;
      assert ModuleContext(mod).globals[x] == C.globals[x] && !C.globals[x].mutable;
      assert SameGlobal(S.globals[m.globaladdrs[x]], S'.globals[m.globaladdrs[x]]);
    }
    assert SameGlobal(S.globals[m.globaladdrs[|mod.imports.globals| + i]], S'.globals[m.globaladdrs[|mod.imports.globals| + i]]);
  }

  lemma {:induction false} GlobalChecked(C: Context, gs: seq<GlobalDef>, i: nat)
    requires CheckGlobals(C, gs).Ok? && i < |gs|
    ensures CheckInit(C, gs[i].init, gs[i].gt.t).Ok?
    decreases |gs|
  {
    hide CheckInit;
    if i > 0 {
      GlobalChecked(C, gs[1..], i - 1);
    }
  }

  lemma GrewElems(strict: bool, S: Store, mod: Module, ext: Externs, S': Store)
    requires TypesKnown(mod) && Room(S, mod) && I.Made(strict, S, mod, FinalInst(S, mod, ext), S')
    ensures |S.elems| + |mod.elems| <= |S'.elems|
  {
    hide I.GlobalsOf, I.ElemOf;
  }

  lemma ModuleRuns(strict: bool, S': Store, mod: Module, m: ModInst)
    requires TypesKnown(mod) && Linked(S', m, ModuleContext(mod)) && StoreOk(strict, S') && I.ModulePremise(strict, mod)
    requires strict ==> CleanContext(ModuleContext(mod))
    ensures Running(strict, S', m, ModuleContext(mod))
  {
    hide Linked, StoreOk, CleanContext, I.ModulePremise;
  }

  lemma ModuleParts(mod: Module)
    requires CheckModule(mod).Ok? && TypesKnown(mod)
    ensures CheckElems(InitContext(mod), mod.elems).Ok?
    ensures CheckDatas(InitContext(mod).(elems := ElemTypes(mod.elems)), mod.datas).Ok?
  {
    hide CheckGlobals, CheckElems, CheckDatas, CheckFuncs, CheckStart, InitContext, ModuleContext;
  }

  lemma DataStillThere(S: Store, m: ModInst, mod: Module, S2: Store)
    requires DataThere(S, m, mod.datas) && MemsOk(S) && RefsPlaced(S, m, mod.elems, 0, S2)
    ensures DataThere(S2, m, mod.datas) && MemsOk(S2)
  {
    hide SlotIs, Left;
  }

  // ---------------------------------------------------------------- references and calls

  /** call_indirect at a slot that holds the address of function `f` of the instance does what
      `call f` does, given the type that it names. */
  lemma IndirectCallsSlot(f: U32, y: U32, x: U32, next: Code, index: Val, below: Stk, fi: nat, S: Store)
    requires fi < |below| && below[fi].OFrame?
    requires var m := below[fi].inst;
             && f < |m.funcaddrs| && m.funcaddrs[f] < |S.funcs| && m.funcaddrs[f] != 0xFFFF_FFFF
             && ValidAddr(m.tableaddrs, x, |S.tables|) && 0 <= AsI32(index) < |S.tables[m.tableaddrs[x]].elems|
             && S.tables[m.tableaddrs[x]].elems[AsI32(index)] == m.funcaddrs[f]
             && y < |m.types| && m.types[y] == S.funcs[m.funcaddrs[f]].ftype
    ensures StepInstr(Cons(CallIndirect(y, x), next), fi, below + OVals([index]), S)
            == StepInstr(Cons(Call(f), next), fi, below, S) == Invokes(below[fi].inst.funcaddrs[f], below)
  {
    hide CanPop, Top, Machine.Below;
    PopOf(below, [index], 1);
    assert (below + OVals([index]))[fi] == below[fi];
    assert Take([index], 1) == [index] && Drop'([index], 1) == [] && below + OVals([]) == below;
  }

  /** ref.func f, put into a table by table.set, is the function that call_indirect then calls. */
  lemma FuncRefIsCalled(f: U32, y: U32, x: U32, next: Code, index: Val, below: Stk, fi: nat, S: Store)
    requires fi < |below| && below[fi].OFrame?
    requires var m := below[fi].inst;
             && f < |m.funcaddrs| && m.funcaddrs[f] < |S.funcs| && m.funcaddrs[f] != 0xFFFF_FFFF
             && ValidAddr(m.tableaddrs, x, |S.tables|) && 0 <= AsI32(index) < |S.tables[m.tableaddrs[x]].elems|
             && y < |m.types| && m.types[y] == S.funcs[m.funcaddrs[f]].ftype
    ensures var m, locals := below[fi].inst, below[fi].locals;
            var ref := Perform(RefFunc(f), [], locals, S, m);
            && ref.Did? && |ref.results| == 1 && ref == Did(ref.results, locals, S)
            && var put := Perform(TableSet(x), [index, ref.results[0]], locals, S, m);
               && put.Did? && put.results == [] && put.locals == locals
               && StepInstr(Cons(CallIndirect(y, x), next), fi, below + OVals([index]), put.store)
                  == StepInstr(Cons(Call(f), next), fi, below, S)
  {
    hide StepInstr;
    var m, locals := below[fi].inst, below[fi].locals;
    var ref := Perform(RefFunc(f), [], locals, S, m).results[0];
    var S' := Perform(TableSet(x), [index, ref], locals, S, m).store;
    IndirectCallsSlot(f, y, x, next, index, below, fi, S');
    CallIs(f, next, below, fi, S);
  }

  lemma CallIs(f: U32, next: Code, below: Stk, fi: nat, S: Store)
    requires fi < |below| && below[fi].OFrame? && f < |below[fi].inst.funcaddrs|
    ensures StepInstr(Cons(Call(f), next), fi, below, S) == Invokes(below[fi].inst.funcaddrs[f], below)
  {
  }

  /** An active element segment whose j-th initialiser is `ref.func f` and over whose slot no
      later segment goes makes call_indirect there call function `f` of the instance, from the
      time start-up has placed the segments. */
  lemma SegmentIsCalled(mod: Module, m: ModInst, S1: Store, S2: Store, n: nat, j: nat, f: U32, y: U32, x: U32, next: Code, index: Val,
                        below: Stk, fi: nat)
    requires RefsPlaced(S1, m, mod.elems, 0, S2) && n < |mod.elems| && j < |mod.elems[n].init|
    requires mod.elems[n].init[j] == Cons(Instr.Plain(RefFunc(f)), END_CODE)
    requires fi < |below| && below[fi].OFrame? && below[fi].inst == m
    requires f < |m.funcaddrs| && m.funcaddrs[f] < |S1.funcs| && m.funcaddrs[f] != 0xFFFF_FFFF
    requires y < |m.types| && m.types[y] == S1.funcs[m.funcaddrs[f]].ftype && ValidAddr(m.tableaddrs, x, |S1.tables|)
    requires AsI32(index) == Offset(S1, m, mod.elems[n].mode) + j && RefCovers(S1, m, mod.elems[n], m.tableaddrs[x], AsI32(index))
    requires AsI32(index) < |S1.tables[m.tableaddrs[x]].elems|
    requires forall l :: n < l < |mod.elems| ==> !RefCovers(S1, m, mod.elems[l], m.tableaddrs[x], AsI32(index))
    ensures StepInstr(Cons(CallIndirect(y, x), next), fi, below + OVals([index]), S2) == Invokes(m.funcaddrs[f], below)
  {
    hide StepInstr, RefCovers, Offset;
    var t, k := m.tableaddrs[x], AsI32(index);
    assert SlotIs(S1, m, mod.elems, 0, S2, t, k);
    LastRefWins(S1, m, mod.elems, 0, n, t, k, S1.tables[t].elems[k]);
    IndirectCallsSlot(f, y, x, next, index, below, fi, S2);
  }
}
