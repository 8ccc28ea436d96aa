/** Validated code never goes wrong: every evaluation of accepted code finds its operands,
    its labels and its instances, and leaves values of the announced types. */
module Soundness {
  import opened Syntax
  import opened Runtime
  import opened Machine
  import opened Semantics
  import opened Typing
  import opened Invariants
  import TypeSystem

  function Lengths(labels: seq<seq<ValType>>): seq<nat> {
    seq(|labels|, i requires 0 <= i < |labels| => |labels[i]|)
  }

  /** A body of context `C` may run in environment `env` over store `S`. */
  ghost predicate Ready(strict: bool, C: Context, env: Env, S: Store) {
    && Linked(S, env.inst, C) && StoreOk(strict, S)
    && env.arities == Lengths(C.labels)
    && C.ret.Some? && env.ret == |C.ret.value|
    && (strict ==> CleanContext(C))
  }

  /** Locals, store and values after an evaluation that started in `S`. */
  ghost predicate Keeps(strict: bool, C: Context, locals: seq<Val>, S: Store, S': Store) {
    Matches(strict, |S.funcs|, locals, C.locals) && Extends(S, S') && DataOk(strict, S')
  }

  ghost predicate OutcomeOk(strict: bool, o: Outcome, C: Context, rt2: seq<ValType>, S: Store) {
    match o
    case Normal(vs, locals, S', _) => Matches(strict, |S.funcs|, vs, rt2) && Keeps(strict, C, locals, S, S')
    case Branch(k, vs, locals, S', _) =>
      LabelType(C, k).Ok? && Matches(strict, |S.funcs|, vs, LabelType(C, k).value) && Keeps(strict, C, locals, S, S')
    case Returned(vs, S', _) =>
      C.ret.Some? && Matches(strict, |S.funcs|, vs, C.ret.value) && Extends(S, S') && DataOk(strict, S')
    case Trap(_, S') => Extends(S, S') && DataOk(strict, S')
    case Wedged => false
    case _ => true
  }

  /** The rest of a list checks out from types `ts` and ends with `rt2`. */
  ghost predicate Checks(strict: bool, C: Context, code: Code, ts: seq<ValType>, rt2: seq<ValType>) {
    var r := CheckSeq(C, code, TypeStack(ts, false));
    && r.Ok? && CheckEnd(r.value, rt2).Ok?
    && (strict ==> NoAny(ts) && NoAny(rt2))
    && Premise(strict, C, code, TypeStack(ts, false))
  }

  lemma ReadyAgain(strict: bool, C: Context, env: Env, S: Store, S': Store)
    requires Ready(strict, C, env, S) && Extends(S, S') && DataOk(strict, S')
    ensures Ready(strict, C, env, S')
  {
    LinkedExtends(S, S', env.inst, C);
    CodeOkExtends(strict, S, S');
  }

  lemma ReadyInner(strict: bool, C: Context, env: Env, S: Store, l: seq<ValType>)
    requires Ready(strict, C, env, S) && (strict ==> NoAny(l))
    ensures Ready(strict, WithLabel(C, l), env.(arities := env.arities + [|l|]), S)
  {
    assert Lengths(C.labels + [l]) == Lengths(C.labels) + [|l|];
  }

  lemma OutcomeLater(strict: bool, o: Outcome, C: Context, rt2: seq<ValType>, S: Store, S0: Store)
    requires Extends(S0, S) && OutcomeOk(strict, o, C, rt2, S)
    ensures OutcomeOk(strict, o, C, rt2, S0)
  {
  }

  // ---------------------------------------------------------------- plain instructions

  /** Operands fit a signature; the byte 0 wants nothing. */
  ghost predicate ArgsFit(strict: bool, nf: nat, args: seq<Val>, sig: seq<ValType>) {
    && |args| == |sig|
    && (strict ==> forall i :: 0 <= i < |args| ==> sig[i] == ANY || Fits(true, nf, args[i], sig[i]))
  }

  ghost predicate EffectOk(strict: bool, e: Effect, C: Context, rt: seq<ValType>, S: Store) {
    match e
    case Did(results, locals, S') => Matches(strict, |S.funcs|, results, rt) && Keeps(strict, C, locals, S, S')
    case Traps(_) => true
    case EffectUB => true
    case Wrong => false
  }

  /** The part of `Ready` a plain instruction relies on. */
  ghost predicate PlainReady(strict: bool, C: Context, m: ModInst, locals: seq<Val>, S: Store) {
    && Linked(S, m, C) && DataOk(strict, S)
    && Matches(strict, |S.funcs|, locals, C.locals)
    && (strict ==> CleanContext(C))
  }

  predicate TouchesMemory(op: Plain) {
    op.Access? || op.MemoryGrow? || op.MemoryInit? || op.MemoryCopy? || op.MemoryFill?
  }

  predicate TouchesTables(op: Plain) {
    op.TableSet? || op.TableGrow? || op.TableFill? || op.TableInit? || op.TableCopy?
  }

  predicate IsNumeric(op: Plain) { op.Num? || op.TruncSat? || op.Const? }

  predicate IsLocal(op: Plain) {
    op.SelectT? || op.LocalGet? || op.LocalSet? || op.LocalTee? || op.RefNull? || op.RefIsNull?
  }

  predicate IsLookup(op: Plain) {
    op.GlobalGet? || op.GlobalSet? || op.TableGet? || op.RefFunc? || op.MemorySize? || op.TableSize?
  }

  /** Numeric operators deliver a value of their result type, whatever they compute. */
  lemma PerformNumeric(strict: bool, op: Plain, C: Context, m: ModInst, args: seq<Val>, locals: seq<Val>, S: Store)
    requires PlainReady(strict, C, m, locals, S) && IsNumeric(op)
    requires PlainSig(C, op).Ok? && ArgsFit(strict, |S.funcs|, args, PlainSig(C, op).value.0)
    requires PremisePlain(strict, op)
    ensures |args| == Pops(op)
    ensures EffectOk(strict, Perform(op, args, locals, S, m), C, PlainSig(C, op).value.1, S)
  {
    hide PerformMemoryInit, PerformMemoryCopy, PerformMemoryFill, PerformAccess, PerformGrow, PerformTable, Linked;
  }

  /** Instructions on operands and locals. */
  lemma PerformLocal(strict: bool, op: Plain, C: Context, m: ModInst, args: seq<Val>, locals: seq<Val>, S: Store)
    requires PlainReady(strict, C, m, locals, S) && IsLocal(op)
    requires PlainSig(C, op).Ok? && ArgsFit(strict, |S.funcs|, args, PlainSig(C, op).value.0)
    requires PremisePlain(strict, op)
    ensures |args| == Pops(op)
    ensures EffectOk(strict, Perform(op, args, locals, S, m), C, PlainSig(C, op).value.1, S)
  {
    hide PerformMemoryInit, PerformMemoryCopy, PerformMemoryFill, PerformAccess, PerformGrow, PerformTable, PerformNum, PerformTruncSat, NumSig, TruncSatSig, Linked;
  }

  /** Instructions that read an instance, or set a global. */
  lemma PerformLookup(strict: bool, op: Plain, C: Context, m: ModInst, args: seq<Val>, locals: seq<Val>, S: Store)
    requires PlainReady(strict, C, m, locals, S) && IsLookup(op)
    requires PlainSig(C, op).Ok? && ArgsFit(strict, |S.funcs|, args, PlainSig(C, op).value.0)
    requires PremisePlain(strict, op)
    ensures |args| == Pops(op)
    ensures EffectOk(strict, Perform(op, args, locals, S, m), C, PlainSig(C, op).value.1, S)
  {
    hide PerformMemoryInit, PerformMemoryCopy, PerformMemoryFill, PerformAccess, PerformGrow, PerformNum, PerformTruncSat, NumSig, TruncSatSig;
  }

  /** Dropping a segment. */
  lemma PerformDropSegment(strict: bool, op: Plain, C: Context, m: ModInst, args: seq<Val>, locals: seq<Val>, S: Store)
    requires PlainReady(strict, C, m, locals, S) && (op.ElemDrop? || op.DataDrop?)
    requires PlainSig(C, op).Ok? && ArgsFit(strict, |S.funcs|, args, PlainSig(C, op).value.0)
    requires PremisePlain(strict, op)
    ensures |args| == Pops(op)
    ensures EffectOk(strict, Perform(op, args, locals, S, m), C, PlainSig(C, op).value.1, S)
  {
    hide PerformMemoryInit, PerformMemoryCopy, PerformMemoryFill, PerformAccess, PerformGrow, PerformTable, PerformNum, PerformTruncSat, NumSig, TruncSatSig;
  }

  lemma PerformMemory(strict: bool, op: Plain, C: Context, m: ModInst, args: seq<Val>, locals: seq<Val>, S: Store)
    requires PlainReady(strict, C, m, locals, S) && TouchesMemory(op)
    requires PlainSig(C, op).Ok? && ArgsFit(strict, |S.funcs|, args, PlainSig(C, op).value.0)
    ensures |args| == Pops(op)
    ensures EffectOk(strict, Perform(op, args, locals, S, m), C, PlainSig(C, op).value.1, S)
  {
    hide PerformTable, PerformNum, PerformTruncSat, NumSig, TruncSatSig, ReadLE, WriteLE, ExtendLoaded, CopyBytes, FillBytes, InitBytes;
  }

  lemma {:induction false} InitRefsOk(nf: nat, t: ValType, elems: seq<U32>, d: nat, src: seq<U32>, s: nat, n: nat)
    requires d + n <= |elems| && s + n <= |src| && RefsOk(nf, t, elems) && RefsOk(nf, t, src)
    ensures RefsOk(nf, t, InitRefs(elems, d, src, s, n))
    decreases n
  {
    if n > 0 {
      InitRefsOk(nf, t, elems[d := src[s]], d + 1, src, s + 1, n - 1);
    }
  }

  lemma FillRefsOk(nf: nat, t: ValType, elems: seq<U32>, i: int, n: int, r: U32)
    requires InI32(i) && InI32(n) && RefsOk(nf, t, elems) && (t == FUNCREF ==> RefOk(nf, r))
    ensures var f := FillRefs(elems, i, n, r); f.Filled? ==> RefsOk(nf, t, f.elems)
  {
    hide FillRefs;
  }

  ghost predicate TablesOk(nf: nat, tables: seq<TableInst>) {
    forall i :: 0 <= i < |tables| ==> RefsOk(nf, tables[i].reftype, tables[i].elems)
  }

  lemma {:induction false} CopyRefsOk(nf: nat, tables: seq<TableInst>, x: nat, y: nat, d: nat, s: nat, n: nat)
    requires x < |tables| && y < |tables| && tables[x].reftype == tables[y].reftype
    requires d + n <= |tables[x].elems| && s + n <= |tables[y].elems|
    requires TablesOk(nf, tables)
    ensures TablesOk(nf, CopyRefs(tables, x, y, d, s, n))
    decreases n
  {
    if n > 0 {
      if d <= s {
        CopyRefsOk(nf, SetRef(tables, x, d, tables[y].elems[s]), x, y, d + 1, s + 1, n - 1);
      } else {
        CopyRefsOk(nf, SetRef(tables, x, d + n - 1, tables[y].elems[s + n - 1]), x, y, d, s, n - 1);
      }
    }
  }

  lemma PerformTableSet(strict: bool, op: Plain, C: Context, m: ModInst, args: seq<Val>, locals: seq<Val>, S: Store)
    requires PlainReady(strict, C, m, locals, S) && (op.TableSet? || op.TableGrow?)
    requires PlainSig(C, op).Ok? && ArgsFit(strict, |S.funcs|, args, PlainSig(C, op).value.0)
    ensures |args| == Pops(op)
    ensures EffectOk(strict, Perform(op, args, locals, S, m), C, PlainSig(C, op).value.1, S)
  {
    hide PerformMemoryInit, PerformMemoryCopy, PerformMemoryFill, PerformAccess, PerformGrow, PerformNum, PerformTruncSat,
         NumSig, TruncSatSig;
  }

  lemma PerformTableFill(strict: bool, op: Plain, C: Context, m: ModInst, args: seq<Val>, locals: seq<Val>, S: Store)
    requires PlainReady(strict, C, m, locals, S) && op.TableFill?
    requires PlainSig(C, op).Ok? && ArgsFit(strict, |S.funcs|, args, PlainSig(C, op).value.0)
    ensures |args| == Pops(op)
    ensures EffectOk(strict, Perform(op, args, locals, S, m), C, PlainSig(C, op).value.1, S)
  {
    hide PerformMemoryInit, PerformMemoryCopy, PerformMemoryFill, PerformAccess, PerformGrow, PerformNum, PerformTruncSat,
         NumSig, TruncSatSig;
    if strict {
      var tab := S.tables[m.tableaddrs[op.x]];
      FillRefsOk(|S.funcs|, tab.reftype, tab.elems, AsI32(args[0]), AsI32(args[2]), AsU32(args[1]));
    }
  }

  lemma PerformTableInit(strict: bool, op: Plain, C: Context, m: ModInst, args: seq<Val>, locals: seq<Val>, S: Store)
    requires PlainReady(strict, C, m, locals, S) && op.TableInit?
    requires PlainSig(C, op).Ok? && ArgsFit(strict, |S.funcs|, args, PlainSig(C, op).value.0)
    ensures |args| == Pops(op)
    ensures EffectOk(strict, Perform(op, args, locals, S, m), C, PlainSig(C, op).value.1, S)
  {
    hide PerformMemoryInit, PerformMemoryCopy, PerformMemoryFill, PerformAccess, PerformGrow, PerformNum, PerformTruncSat,
         NumSig, TruncSatSig;
    if strict {
      var tab := S.tables[m.tableaddrs[op.x]];
      var src := S.elems[m.elemaddrs[op.y]].elems;
      var d, s, n := AsU32(args[0]), AsU32(args[1]), AsU32(args[2]);
      if s + n <= |src| && d + n <= |tab.elems| {
        InitRefsOk(|S.funcs|, tab.reftype, tab.elems, d, src, s, n);
      }
    }
  }

  lemma PerformTableCopy(strict: bool, op: Plain, C: Context, m: ModInst, args: seq<Val>, locals: seq<Val>, S: Store)
    requires PlainReady(strict, C, m, locals, S) && op.TableCopy?
    requires PlainSig(C, op).Ok? && ArgsFit(strict, |S.funcs|, args, PlainSig(C, op).value.0)
    ensures |args| == Pops(op)
    ensures EffectOk(strict, Perform(op, args, locals, S, m), C, PlainSig(C, op).value.1, S)
  {
    hide PerformMemoryInit, PerformMemoryCopy, PerformMemoryFill, PerformAccess, PerformGrow, PerformNum, PerformTruncSat,
         NumSig, TruncSatSig;
    if strict {
      var ax, ay := m.tableaddrs[op.x], m.tableaddrs[op.y];
      var d, s, n := AsU32(args[0]), AsU32(args[1]), AsU32(args[2]);
      if s + n <= |S.tables[ay].elems| && d + n <= |S.tables[ax].elems| {
        CopyRefsOk(|S.funcs|, S.tables, ax, ay, d, s, n);
      }
    }
  }

  /** With operands of its declared types a plain instruction traps or delivers its results. */
  lemma PerformSound(strict: bool, op: Plain, C: Context, m: ModInst, args: seq<Val>, locals: seq<Val>, S: Store)
    requires PlainReady(strict, C, m, locals, S) && !op.Drop? && !op.Select?
    requires PlainSig(C, op).Ok? && ArgsFit(strict, |S.funcs|, args, PlainSig(C, op).value.0)
    requires PremisePlain(strict, op)
    ensures |args| == Pops(op)
    ensures EffectOk(strict, Perform(op, args, locals, S, m), C, PlainSig(C, op).value.1, S)
  {
    hide PlainSig, Perform, EffectOk, PlainReady, PremiseInstr;
    if TouchesMemory(op) {
      PerformMemory(strict, op, C, m, args, locals, S);
    } else if TouchesTables(op) {
      match op {
        case TableFill(_) => PerformTableFill(strict, op, C, m, args, locals, S);
        case TableInit(_, _) => PerformTableInit(strict, op, C, m, args, locals, S);
        case TableCopy(_, _) => PerformTableCopy(strict, op, C, m, args, locals, S);
        case _ => PerformTableSet(strict, op, C, m, args, locals, S);
      }
    } else if IsNumeric(op) {
      PerformNumeric(strict, op, C, m, args, locals, S);
    } else if IsLocal(op) {
      PerformLocal(strict, op, C, m, args, locals, S);
    } else if IsLookup(op) {
      PerformLookup(strict, op, C, m, args, locals, S);
    } else {
      PerformDropSegment(strict, op, C, m, args, locals, S);
    }
  }

  // ---------------------------------------------------------------- pieces of a check

  /** Popping what was just pushed. */
  lemma {:induction false} PopAllPushed(ts: seq<ValType>, rt: seq<ValType>)
    ensures PopAll(TypeStack(ts + rt, false), rt) == Ok(TypeStack(ts, false))
    decreases |rt|
  {
    if rt == [] {
      assert ts + rt == ts;
    } else {
      var n := |rt| - 1;
      assert (ts + rt)[..|ts| + n] == ts + rt[..n];
      PopAllPushed(ts, rt[..n]);
    }
  }

  /** Values matching `ts`, split where `rt` was popped. */
  lemma PopTyped(strict: bool, nf: nat, vals: seq<Val>, ts: seq<ValType>, rt: seq<ValType>)
    requires Matches(strict, nf, vals, ts) && PopAll(TypeStack(ts, false), rt).Ok?
    requires strict ==> NoAny(ts) && NoAny(rt)
    ensures |vals| == |ts| && |rt| <= |ts| && PopAll(TypeStack(ts, false), rt) == Ok(TypeStack(ts[..|ts| - |rt|], false))
    ensures Matches(strict, nf, Take(vals, |rt|), rt)
    ensures Matches(strict, nf, Drop'(vals, |rt|), ts[..|ts| - |rt|])
    ensures strict ==> NoAny(ts[..|ts| - |rt|])
  {
    PopAllExact(ts, rt);
    MatchesSplit(strict, nf, vals, ts, |rt|);
    MatchesCompatible(strict, nf, Take(vals, |rt|), ts[|ts| - |rt|..], rt);
  }

  lemma PopI32(strict: bool, nf: nat, vals: seq<Val>, ts: seq<ValType>)
    requires Matches(strict, nf, vals, ts) && TryPop(TypeStack(ts, false), I32).Ok?
    requires strict ==> NoAny(ts)
    ensures |vals| == |ts| && |ts| > 0 && TryPop(TypeStack(ts, false), I32) == Ok(TypeStack(ts[..|ts| - 1], false))
    ensures Matches(strict, nf, Drop'(vals, 1), ts[..|ts| - 1])
    ensures strict ==> NoAny(ts[..|ts| - 1])
  {
  }

  /** The first instruction checked, the rest of the list checks from its result types. */
  lemma ChecksNext(strict: bool, C: Context, code: Code, ts: seq<ValType>, ts': seq<ValType>, rt2: seq<ValType>)
    requires code.Cons? && Checks(strict, C, code, ts, rt2)
    requires Check(C, code.ins, TypeStack(ts, false)) == Ok(TypeStack(ts', false))
    requires strict ==> NoAny(ts')
    ensures Checks(strict, C, code.next, ts', rt2)
  {
    hide Check, CheckEnd, PremiseInstr;
  }

  lemma CheckOk(strict: bool, C: Context, code: Code, ts: seq<ValType>, rt2: seq<ValType>)
    requires code.Cons? && Checks(strict, C, code, ts, rt2)
    ensures Check(C, code.ins, TypeStack(ts, false)).Ok? && PremiseInstr(strict, C, code.ins, TypeStack(ts, false))
    ensures strict ==> NoAny(ts) && NoAny(rt2)
  {
    hide Check, CheckEnd, PremiseInstr;
  }

  lemma LabelTypes(strict: bool, C: Context, env: Env, S: Store, k: nat)
    requires Ready(strict, C, env, S) && LabelType(C, k).Ok?
    ensures k < |env.arities| && env.arities[|env.arities| - 1 - k] == |LabelType(C, k).value|
    ensures strict ==> NoAny(LabelType(C, k).value)
  {
    hide StoreOk, Linked;
  }

  lemma ExpandAgrees(C: Context, m: ModInst, bt: BlockType)
    requires C.types == m.types && bt % 0x100 != FUNCREF && BlockTypeOf(C, bt).Ok?
    ensures Expand(bt, m) == Some(BlockTypeOf(C, bt).value)
  {
  }

  lemma BlockTypeClean(C: Context, bt: BlockType)
    requires CleanContext(C) && BlockTypeOf(C, bt).Ok?
    ensures CleanType(BlockTypeOf(C, bt).value)
  {
  }

  // ---------------------------------------------------------------- calls

  ghost predicate CallOk(strict: bool, o: Outcome, ft: FuncType, S: Store) {
    match o
    case Returned(rs, S', _) => Matches(strict, |S.funcs|, rs, ft.rt2) && Extends(S, S') && DataOk(strict, S')
    case Trap(_, S') => Extends(S, S') && DataOk(strict, S')
    case Wedged => false
    case _ => true
  }

  lemma ZeroLocals(strict: bool, nf: nat, args: seq<Val>, rt1: seq<ValType>, types: seq<ValType>)
    requires nf > 0 && Matches(strict, nf, args, rt1)
    ensures Matches(strict, nf, args + ZeroVals(types), rt1 + types)
  {
  }

  lemma SoundCall(strict: bool, fuel: nat, addr: U32, args: seq<Val>, S: Store, h: nat)
    requires StoreOk(strict, S) && addr < |S.funcs| && Matches(strict, |S.funcs|, args, S.funcs[addr].ftype.rt1)
    ensures CallOk(strict, EvalCall(fuel, addr, args, S, h), S.funcs[addr].ftype, S)
    decreases fuel, 3
  {
    hide Eval, Extends, DataOk, CheckSeq, Premise, CleanContext, CheckEnd;
    var f := S.funcs[addr];
    assert FuncOk(strict, S, f);
    var C0 :| Accepted(strict, S, f, C0);
    var C := FuncContext(C0, f.ftype, f.code);
    var arity := |f.ftype.rt2|;
    var env := Env(f.inst, [arity], arity);
    FunctionReady(strict, S, f, C0);
    ZeroLocals(strict, |S.funcs|, args, f.ftype.rt1, f.code.locals);
    Unchanged(strict, C, env, S);
    SlotsExact(args, f.code.locals);
    if h + 2 <= CAPACITY && FrameSlots(args, f.code.locals).Some? {
      SoundSeq(strict, fuel, f.code.body, false, C, env, [], f.ftype.rt2, [], args + ZeroVals(f.code.locals), S, h + 2);
    }
  }

  /** A frame has a slot for every argument and local, or cannot be made: it cannot exactly
      when there are 2^32 or more of them. */
  lemma SlotsExact(args: seq<Val>, types: seq<ValType>)
    requires |types| < 0x1_0000_0000
    ensures FrameSlots(args, types)
            == if |args| + |types| < 0x1_0000_0000 then Some(args + ZeroVals(types)) else None
  {
  }

  lemma FunctionReady(strict: bool, S: Store, f: FuncInst, C0: Context)
    requires StoreOk(strict, S) && Accepted(strict, S, f, C0)
    ensures var C := FuncContext(C0, f.ftype, f.code);
            && Ready(strict, C, Env(f.inst, [|f.ftype.rt2|], |f.ftype.rt2|), S)
            && Checks(strict, C, f.code.body, [], f.ftype.rt2)
  {
    hide StoreOk, CheckSeq, Premise, CheckEnd;
    var C := FuncContext(C0, f.ftype, f.code);
    assert C.labels == [f.ftype.rt2];
    assert Lengths(C.labels) == [|f.ftype.rt2|];
    LinkedLocals(S, f, C0);
  }

  lemma LinkedLocals(S: Store, f: FuncInst, C0: Context)
    requires Linked(S, f.inst, C0)
    ensures Linked(S, f.inst, FuncContext(C0, f.ftype, f.code))
  {
  }

  lemma SoundCallThen(strict: bool, fuel: nat, addr: U32, next: Code, tb: bool, C: Context, env: Env, ts: seq<ValType>,
                      rt2: seq<ValType>, vals: seq<Val>, locals: seq<Val>, S: Store, h: nat)
    requires Ready(strict, C, env, S) && addr < |S.funcs| && WellFormed(next, tb)
    requires Matches(strict, |S.funcs|, vals, ts) && Matches(strict, |S.funcs|, locals, C.locals)
    requires PopAll(TypeStack(ts, false), S.funcs[addr].ftype.rt1).Ok?
    requires strict ==> NoAny(ts) && CleanType(S.funcs[addr].ftype)
    requires |S.funcs[addr].ftype.rt1| <= |ts|
    requires Checks(strict, C, next, ts[..|ts| - |S.funcs[addr].ftype.rt1|] + S.funcs[addr].ftype.rt2, rt2)
    ensures OutcomeOk(strict, EvalCallThen(fuel, addr, next, env, vals, locals, S, h), C, rt2, S)
    decreases fuel, 4
  {
    hide Eval, EvalCall, Extends, DataOk, Linked, CodeOk, Checks, CleanContext, WellFormed;
    var ft := S.funcs[addr].ftype;
    var n := |ft.rt1|;
    PopTyped(strict, |S.funcs|, vals, ts, ft.rt1);
    SoundCall(strict, fuel, addr, Take(vals, n), S, h + |vals| - n);
    var o := EvalCall(fuel, addr, Take(vals, n), S, h + |vals| - n);
    if o.Returned? {
      MatchesConcat(strict, |S.funcs|, Drop'(vals, n), ts[..|ts| - n], o.vals, ft.rt2);
      SoundLater(strict, o.fuel, next, tb, C, env, ts[..|ts| - n] + ft.rt2, rt2, Drop'(vals, n) + o.vals, locals, o.store, S, h);
    }
  }

  // ---------------------------------------------------------------- lists

  /** Main theorem on instruction lists: a checked list never goes wrong. */
  lemma SoundSeq(strict: bool, fuel: nat, code: Code, tb: bool, C: Context, env: Env, ts: seq<ValType>,
                 rt2: seq<ValType>, vals: seq<Val>, locals: seq<Val>, S: Store, h: nat)
    requires Ready(strict, C, env, S) && WellFormed(code, tb) && Checks(strict, C, code, ts, rt2)
    requires Matches(strict, |S.funcs|, vals, ts) && Matches(strict, |S.funcs|, locals, C.locals)
    ensures OutcomeOk(strict, Eval(fuel, code, env, vals, locals, S, h), C, rt2, S)
    decreases fuel, 0
  {
    hide EvalInstr, Ready, Checks, Matches, OutcomeOk;
    if fuel == 0 {
      NoFuelOk(strict, C, rt2, S);
    } else {
      SoundInstr(strict, fuel - 1, code, tb, C, env, ts, rt2, vals, locals, S, h);
    }
  }

  lemma NoFuelOk(strict: bool, C: Context, rt2: seq<ValType>, S: Store)
    ensures OutcomeOk(strict, NoFuel, C, rt2, S) && OutcomeOk(strict, OutcomeUB, C, rt2, S)
  {
  }

  /** The rest of a list, reached in a later store. */
  lemma SoundLater(strict: bool, fuel: nat, code: Code, tb: bool, C: Context, env: Env, ts: seq<ValType>,
                   rt2: seq<ValType>, vals: seq<Val>, locals: seq<Val>, S: Store, S0: Store, h: nat)
    requires Ready(strict, C, env, S0) && Extends(S0, S) && DataOk(strict, S)
    requires WellFormed(code, tb) && Checks(strict, C, code, ts, rt2)
    requires Matches(strict, |S0.funcs|, vals, ts) && Matches(strict, |S0.funcs|, locals, C.locals)
    ensures OutcomeOk(strict, Eval(fuel, code, env, vals, locals, S, h), C, rt2, S0)
    decreases fuel, 1
  {
    hide Eval, Ready, Checks, Matches, OutcomeOk, WellFormed, DataOk;
    ReadyAgain(strict, C, env, S0, S);
    SoundSeq(strict, fuel, code, tb, C, env, ts, rt2, vals, locals, S, h);
    OutcomeLater(strict, Eval(fuel, code, env, vals, locals, S, h), C, rt2, S, S0);
  }

  lemma Unchanged(strict: bool, C: Context, env: Env, S: Store)
    requires Ready(strict, C, env, S)
    ensures Extends(S, S) && DataOk(strict, S)
  {
  }

  lemma SoundInstr(strict: bool, fuel: nat, code: Code, tb: bool, C: Context, env: Env, ts: seq<ValType>,
                   rt2: seq<ValType>, vals: seq<Val>, locals: seq<Val>, S: Store, h: nat)
    requires Ready(strict, C, env, S) && WellFormed(code, tb) && Checks(strict, C, code, ts, rt2)
    requires Matches(strict, |S.funcs|, vals, ts) && Matches(strict, |S.funcs|, locals, C.locals)
    ensures OutcomeOk(strict, EvalInstr(fuel, code, env, vals, locals, S, h), C, rt2, S)
    decreases fuel, 6
  {
    hide Eval, EvalBlock, EvalCallThen, PlainEffect, Ready, Checks, Matches, CheckBody, CheckPlain, PremiseInstr, Extends, DataOk,
         CheckTargets, Leave, EvalBr, ResolveIndirect;
    Unchanged(strict, C, env, S);
    CheckOk(strict, C, code, ts, rt2);
    match code.ins {
      case Unreachable =>
      case Nop =>
        ChecksNext(strict, C, code, ts, ts, rt2);
        SoundLater(strict, fuel, code.next, tb, C, env, ts, rt2, vals, locals, S, S, h);
      case Else => SoundEnd(strict, code, tb, C, ts, rt2, vals, S);
      case End => SoundEnd(strict, code, tb, C, ts, rt2, vals, S);
      case Block(_, _, _) => SoundEnter(strict, fuel, code, tb, C, env, ts, rt2, vals, locals, S, h);
      case Loop(_, _, _) => SoundEnter(strict, fuel, code, tb, C, env, ts, rt2, vals, locals, S, h);
      case If(_, _, _) => SoundIf(strict, fuel, code, tb, C, env, ts, rt2, vals, locals, S, h);
      case Br(k) => SoundBr(strict, fuel, k, C, env, ts, vals, locals, S, rt2);
      case BrIf(k) => SoundBrIf(strict, fuel, code, tb, C, env, ts, rt2, vals, locals, S, h);
      case BrTable(ls, d) =>
        SoundBrTable(strict, fuel, d, code, C, env, ts, rt2, vals, locals, S);
        SoundBrTable(strict, fuel, TableTarget(ls, d, AsI32(Take(vals, 1)[0])), code, C, env, ts, rt2, vals, locals, S);
      case Return => SoundReturn(strict, fuel, C, env, ts, vals, S, rt2);
      case Call(_) => SoundDirectCall(strict, fuel, code, tb, C, env, ts, rt2, vals, locals, S, h);
      case CallIndirect(_, _) => SoundCallIndirect(strict, fuel, code, tb, C, env, ts, rt2, vals, locals, S, h);
      case Plain(_) => SoundPlain(strict, fuel, code, tb, C, env, ts, rt2, vals, locals, S, h);
    }
  }

  lemma SoundEnd(strict: bool, code: Code, tb: bool, C: Context, ts: seq<ValType>, rt2: seq<ValType>, vals: seq<Val>, S: Store)
    requires WellFormed(code, tb) && (code.ins.End? || code.ins.Else?) && Checks(strict, C, code, ts, rt2)
    requires Matches(strict, |S.funcs|, vals, ts)
    ensures Matches(strict, |S.funcs|, vals, rt2)
  {
    assert CheckSeq(C, code, TypeStack(ts, false)) == Ok(TypeStack(ts, false));
    PopTyped(strict, |S.funcs|, vals, ts, rt2);
    assert Take(vals, |rt2|) == vals;
  }

  // ---------------------------------------------------------------- jumps

  lemma SoundBr(strict: bool, fuel: nat, k: nat, C: Context, env: Env, ts: seq<ValType>, vals: seq<Val>, locals: seq<Val>,
                S: Store, rt2: seq<ValType>)
    requires Ready(strict, C, env, S) && LabelType(C, k).Ok? && Leave(TypeStack(ts, false), LabelType(C, k).value).Ok?
    requires strict ==> NoAny(ts)
    requires Matches(strict, |S.funcs|, vals, ts) && Matches(strict, |S.funcs|, locals, C.locals)
    ensures OutcomeOk(strict, EvalBr(fuel, k, env, vals, locals, S), C, rt2, S)
  {
    hide Linked, CodeOk, CleanContext;
    LabelTypes(strict, C, env, S, k);
    PopTyped(strict, |S.funcs|, vals, ts, LabelType(C, k).value);
  }

  lemma SoundBrIf(strict: bool, fuel: nat, code: Code, tb: bool, C: Context, env: Env, ts: seq<ValType>,
                  rt2: seq<ValType>, vals: seq<Val>, locals: seq<Val>, S: Store, h: nat)
    requires Ready(strict, C, env, S) && WellFormed(code, tb) && code.ins.BrIf? && Checks(strict, C, code, ts, rt2)
    requires Matches(strict, |S.funcs|, vals, ts) && Matches(strict, |S.funcs|, locals, C.locals)
    ensures OutcomeOk(strict, EvalInstr(fuel, code, env, vals, locals, S, h), C, rt2, S)
    decreases fuel, 5
  {
    hide Eval, Ready, Checks, EvalBr, OutcomeOk, EvalBlock, EvalCallThen, PlainEffect, CheckPlain, CheckIf, CheckTargets, CheckBody;
    Unchanged(strict, C, env, S);
    CheckOk(strict, C, code, ts, rt2);
    var k := code.ins.labelidx;
    var rt := LabelType(C, k).value;
    LabelTypes(strict, C, env, S, k);
    PopI32(strict, |S.funcs|, vals, ts);
    var ts1, vals1 := ts[..|ts| - 1], Drop'(vals, 1);
    PopTyped(strict, |S.funcs|, vals1, ts1, rt);
    if AsI32(Take(vals, 1)[0]) == 0 {
      var ts2 := ts1[..|ts1| - |rt|] + rt;
      ChecksNext(strict, C, code, ts, ts2, rt2);
      MatchesConcat(strict, |S.funcs|, Drop'(vals1, |rt|), ts1[..|ts1| - |rt|], Take(vals1, |rt|), rt);
      assert vals1 == Drop'(vals1, |rt|) + Take(vals1, |rt|);
      SoundLater(strict, fuel, code.next, tb, C, env, ts2, rt2, vals1, locals, S, S, h);
    } else {
      SoundBr(strict, fuel, k, C, env, ts1, vals1, locals, S, rt2);
    }
  }

  /** Every label a br_table can jump to exists and has the arity of the default. */
  lemma {:induction false} TargetsOk(C: Context, ls: seq<U32>, rt: seq<ValType>, ts: TypeStack)
    requires CheckTargets(C, ls, rt, ts).Ok?
    ensures forall i :: 0 <= i < |ls| ==> LabelType(C, ls[i]).Ok? && |LabelType(C, ls[i]).value| == |rt|
    decreases |ls|
  {
    if ls != [] {
      TargetsOk(C, ls[1..], rt, UNREACHABLE);
      forall i | 0 < i < |ls|
        ensures LabelType(C, ls[i]).Ok? && |LabelType(C, ls[i]).value| == |rt|
      {
        assert ls[i] == ls[1..][i - 1];
      }
    }
  }

  /** br_table: there is an index, and every label it may select, listed or default, can be
      jumped to. */
  lemma SoundBrTable(strict: bool, fuel: nat, k: U32, code: Code, C: Context, env: Env, ts: seq<ValType>,
                     rt2: seq<ValType>, vals: seq<Val>, locals: seq<Val>, S: Store)
    requires Ready(strict, C, env, S) && code.Cons? && code.ins.BrTable? && Checks(strict, C, code, ts, rt2)
    requires Matches(strict, |S.funcs|, vals, ts) && Matches(strict, |S.funcs|, locals, C.locals)
    requires k == code.ins.defaultLabel || k in code.ins.labels
    ensures |vals| > 0 && OutcomeOk(strict, EvalBr(fuel, k, env, Drop'(vals, 1), locals, S), C, rt2, S)
  {
    hide Ready, Checks, EvalBr, OutcomeOk, PopAll;
    CheckOk(strict, C, code, ts, rt2);
    var ls, d := code.ins.labels, code.ins.defaultLabel;
    var rt := LabelType(C, d).value;
    TargetsOk(C, ls, rt, TypeStack(ts, false));
    PopI32(strict, |S.funcs|, vals, ts);
    var ts1, vals1 := ts[..|ts| - 1], Drop'(vals, 1);
    var first := if ls == [] then rt else LabelType(C, ls[0]).value;
    assert PopAll(TypeStack(ts1, false), first).Ok?;
    LabelTypes(strict, C, env, S, k);
    if strict {
      var own := LabelType(C, k).value;
      TypeSystem.PopLast(TypeStack(ts, false), own, I32);
      SoundTarget(strict, fuel, k, C, env, ts1, own, vals1, locals, S, rt2);
    } else {
      SoundTarget(strict, fuel, k, C, env, ts1, first, vals1, locals, S, rt2);
    }
  }

  /** A jump to a label of the arity, and with types of the type, that was popped. */
  lemma SoundTarget(strict: bool, fuel: nat, k: nat, C: Context, env: Env, ts: seq<ValType>, popped: seq<ValType>,
                    vals: seq<Val>, locals: seq<Val>, S: Store, rt2: seq<ValType>)
    requires Ready(strict, C, env, S) && LabelType(C, k).Ok? && PopAll(TypeStack(ts, false), popped).Ok?
    requires |LabelType(C, k).value| == |popped| && (strict ==> LabelType(C, k).value == popped)
    requires strict ==> NoAny(ts)
    requires Matches(strict, |S.funcs|, vals, ts) && Matches(strict, |S.funcs|, locals, C.locals)
    ensures OutcomeOk(strict, EvalBr(fuel, k, env, vals, locals, S), C, rt2, S)
  {
    hide Linked, CodeOk, CleanContext;
    LabelTypes(strict, C, env, S, k);
    PopTyped(strict, |S.funcs|, vals, ts, popped);
  }

  lemma SoundReturn(strict: bool, fuel: nat, C: Context, env: Env, ts: seq<ValType>, vals: seq<Val>, S: Store, rt2: seq<ValType>)
    requires Ready(strict, C, env, S) && Leave(TypeStack(ts, false), C.ret.value).Ok?
    requires strict ==> NoAny(ts)
    requires Matches(strict, |S.funcs|, vals, ts)
    ensures |vals| >= env.ret
    ensures OutcomeOk(strict, Returned(Take(vals, env.ret), S, fuel), C, rt2, S)
  {
    hide Linked, CodeOk;
    PopTyped(strict, |S.funcs|, vals, ts, C.ret.value);
  }

  // ---------------------------------------------------------------- blocks

  lemma SoundBlock(strict: bool, fuel: nat, code: Code, tb: bool, body: Code, ft: FuncType, C: Context, env: Env,
                   ts: seq<ValType>, rt2: seq<ValType>, vals: seq<Val>, locals: seq<Val>, S: Store, h: nat)
    requires Ready(strict, C, env, S) && code.Cons? && WellFormed(code, tb) && WellFormed(code.next, tb) && WellFormed(body, true)
    requires strict ==> CleanType(ft)
    requires var l := if code.ins.Loop? then ft.rt1 else ft.rt2;
             Checks(strict, WithLabel(C, l), body, ft.rt1, ft.rt2)
    requires Checks(strict, C, code.next, ts + ft.rt2, rt2)
    requires code.ins.Loop? ==> Checks(strict, C, code, ts + ft.rt1, rt2)
    requires |vals| >= |ft.rt1| && Matches(strict, |S.funcs|, Take(vals, |ft.rt1|), ft.rt1)
    requires Matches(strict, |S.funcs|, Drop'(vals, |ft.rt1|), ts) && Matches(strict, |S.funcs|, locals, C.locals)
    ensures OutcomeOk(strict, EvalBlock(fuel, code, body, ft.rt1, if code.ins.Loop? then |ft.rt1| else |ft.rt2|,
                                        env, vals, locals, S, h), C, rt2, S)
    decreases fuel, 2
  {
    hide Eval, Checks, Ready, WellFormed, Matches, Extends, DataOk, CleanContext;
    var l := if code.ins.Loop? then ft.rt1 else ft.rt2;
    var n := |ft.rt1|;
    var rest := Drop'(vals, n);
    var inner := env.(arities := env.arities + [|l|]);
    Unchanged(strict, C, env, S);
    if h + |vals| + 1 <= CAPACITY {
      ReadyInner(strict, C, env, S, l);
      SoundSeq(strict, fuel, body, true, WithLabel(C, l), inner, ft.rt1, ft.rt2, Take(vals, n), locals, S, h + |rest| + 1);
      var o := Eval(fuel, body, inner, Take(vals, n), locals, S, h + |rest| + 1);
      match o {
        case Normal(vs, locals', S', fuel') =>
          MatchesConcat(strict, |S.funcs|, rest, ts, vs, ft.rt2);
          SoundLater(strict, fuel', code.next, tb, C, env, ts + ft.rt2, rt2, rest + vs, locals', S', S, h);
        case Branch(k, vs, locals', S', fuel') =>
          if k == 0 {
            MatchesConcat(strict, |S.funcs|, rest, ts, vs, l);
            SoundLater(strict, fuel', if code.ins.Loop? then code else code.next, tb, C, env, ts + l, rt2, rest + vs,
                       locals', S', S, h);
          } else {
            assert LabelType(WithLabel(C, l), k) == LabelType(C, k - 1);
          }
        case _ =>
      }
    }
  }

  /** A nested list that the validator accepted checks under its own label. */
  lemma BodyChecks(strict: bool, C: Context, l: seq<ValType>, body: Code, ft: FuncType)
    requires CheckBody(WithLabel(C, l), body, ft.rt1, ft.rt2).Ok? && Premise(strict, WithLabel(C, l), body, TypeStack(ft.rt1, false))
    requires strict ==> CleanType(ft)
    ensures Checks(strict, WithLabel(C, l), body, ft.rt1, ft.rt2)
  {
    hide CheckSeq, Premise, CheckEnd;
  }

  lemma SoundEnter(strict: bool, fuel: nat, code: Code, tb: bool, C: Context, env: Env, ts: seq<ValType>,
                   rt2: seq<ValType>, vals: seq<Val>, locals: seq<Val>, S: Store, h: nat)
    requires Ready(strict, C, env, S) && WellFormed(code, tb) && Checks(strict, C, code, ts, rt2)
    requires code.ins.Block? || code.ins.Loop?
    requires Matches(strict, |S.funcs|, vals, ts) && Matches(strict, |S.funcs|, locals, C.locals)
    ensures OutcomeOk(strict, EvalInstr(fuel, code, env, vals, locals, S, h), C, rt2, S)
    decreases fuel, 5
  {
    hide Eval, EvalBlock, Checks, StoreOk, CleanContext, Matches, CheckBody, Expand, BlockTypeOf, OutcomeOk, Premise, PopAll,
         EvalCallThen, PlainEffect, CheckPlain, CheckIf, CheckTargets, Linked;
    CheckOk(strict, C, code, ts, rt2);
    var bt := code.ins.bt;
    var ft := BlockTypeOf(C, bt).value;
    LinkedTypes(S, env.inst, C);
    ExpandAgrees(C, env.inst, bt);
    if strict {
      BlockTypeClean(C, bt);
    }
    PopTyped(strict, |S.funcs|, vals, ts, ft.rt1);
    var ts0 := ts[..|ts| - |ft.rt1|];
    ChecksNext(strict, C, code, ts, ts0 + ft.rt2, rt2);
    BodyChecks(strict, C, if code.ins.Loop? then ft.rt1 else ft.rt2, code.ins.in1, ft);
    if code.ins.Loop? {
      LoopChecksAgain(strict, C, code, ts, ts0, rt2, ft);
    }
    SoundBlock(strict, fuel, code, tb, code.ins.in1, ft, C, env, ts0, rt2, vals, locals, S, h);
  }

  lemma LinkedTypes(S: Store, m: ModInst, C: Context)
    requires Linked(S, m, C)
    ensures C.types == m.types
  {
  }

  /** Re-entering a loop with its parameters on the stack checks as the first time. */
  lemma LoopChecksAgain(strict: bool, C: Context, code: Code, ts: seq<ValType>, ts0: seq<ValType>, rt2: seq<ValType>, ft: FuncType)
    requires code.Cons? && code.ins.Loop? && Checks(strict, C, code, ts, rt2)
    requires BlockTypeOf(C, code.ins.bt) == Ok(ft) && (strict ==> CleanType(ft) && NoAny(ts0))
    requires PopAll(TypeStack(ts, false), ft.rt1) == Ok(TypeStack(ts0, false))
    ensures Checks(strict, C, code, ts0 + ft.rt1, rt2)
  {
    hide CheckBody, BlockTypeOf, PopAll, CheckEnd, PremiseInstr;
    PopAllPushed(ts0, ft.rt1);
    LoopPremise(strict, C, code.ins, TypeStack(ts, false), TypeStack(ts0 + ft.rt1, false));
    assert Check(C, code.ins, TypeStack(ts0 + ft.rt1, false)) == Check(C, code.ins, TypeStack(ts, false));
  }

  lemma LoopPremise(strict: bool, C: Context, ins: Instr, ts: TypeStack, ts': TypeStack)
    requires ins.Loop? && PremiseInstr(strict, C, ins, ts)
    ensures PremiseInstr(strict, C, ins, ts')
  {
  }

  /** `if` pops its parameters in the reverse order, but finds them in their order as well. */
  lemma PopIfParams(strict: bool, nf: nat, vals: seq<Val>, ts: seq<ValType>, rt: seq<ValType>)
    requires Matches(strict, nf, vals, ts) && PopForward(TypeStack(ts, false), rt).Ok?
    requires strict ==> NoAny(ts) && NoAny(rt) && PopAll(TypeStack(ts, false), rt).Ok?
    ensures |vals| == |ts| && |rt| <= |ts| && PopForward(TypeStack(ts, false), rt) == Ok(TypeStack(ts[..|ts| - |rt|], false))
    ensures Matches(strict, nf, Take(vals, |rt|), rt)
    ensures Matches(strict, nf, Drop'(vals, |rt|), ts[..|ts| - |rt|])
    ensures strict ==> NoAny(ts[..|ts| - |rt|])
  {
    hide PopForward, PopAll;
    PopForwardExact(ts, rt);
    MatchesSplit(strict, nf, vals, ts, |rt|);
    if strict {
      PopAllExact(ts, rt);
      MatchesCompatible(strict, nf, Take(vals, |rt|), ts[|ts| - |rt|..], rt);
    }
  }

  lemma SoundIf(strict: bool, fuel: nat, code: Code, tb: bool, C: Context, env: Env, ts: seq<ValType>,
                rt2: seq<ValType>, vals: seq<Val>, locals: seq<Val>, S: Store, h: nat)
    requires Ready(strict, C, env, S) && WellFormed(code, tb) && code.ins.If? && Checks(strict, C, code, ts, rt2)
    requires Matches(strict, |S.funcs|, vals, ts) && Matches(strict, |S.funcs|, locals, C.locals)
    ensures OutcomeOk(strict, EvalInstr(fuel, code, env, vals, locals, S, h), C, rt2, S)
    decreases fuel, 5
  {
    hide Eval, EvalBlock, Checks, StoreOk, CleanContext, Matches, CheckBody, Expand, BlockTypeOf, OutcomeOk, Premise, PopAll,
         EvalCallThen, PlainEffect, CheckPlain, CheckTargets, Linked, PopForward, TryPop, Taken;
    CheckOk(strict, C, code, ts, rt2);
    var bt := code.ins.bt;
    var ft := BlockTypeOf(C, bt).value;
    LinkedTypes(S, env.inst, C);
    ExpandAgrees(C, env.inst, bt);
    if strict {
      BlockTypeClean(C, bt);
    }
    PopI32(strict, |S.funcs|, vals, ts);
    var ts1, vals1 := ts[..|ts| - 1], Drop'(vals, 1);
    PopIfParams(strict, |S.funcs|, vals1, ts1, ft.rt1);
    var ts0 := ts1[..|ts1| - |ft.rt1|];
    ChecksNext(strict, C, code, ts, ts0 + ft.rt2, rt2);
    var taken := Taken(code.ins.in1, code.ins.in2, Take(vals, 1)[0]);
    TakenChecks(strict, C, code, tb, ft, Take(vals, 1)[0]);
    SoundBlock(strict, fuel, code, tb, taken, ft, C, env, ts0, rt2, vals1, locals, S, h);
  }

  /** Whichever list an `if` runs, also the implicit `end` of a missing else, checks. */
  lemma TakenChecks(strict: bool, C: Context, code: Code, tb: bool, ft: FuncType, c: Val)
    requires WellFormed(code, tb) && code.ins.If? && (strict ==> CleanType(ft))
    requires CheckBody(WithLabel(C, ft.rt2), code.ins.in1, ft.rt1, ft.rt2).Ok?
    requires CheckBody(WithLabel(C, ft.rt2), code.ins.in2, ft.rt1, ft.rt2).Ok?
    requires Premise(strict, WithLabel(C, ft.rt2), code.ins.in1, TypeStack(ft.rt1, false))
    requires Premise(strict, WithLabel(C, ft.rt2), code.ins.in2, TypeStack(ft.rt1, false))
    ensures var taken := Taken(code.ins.in1, code.ins.in2, c);
            Checks(strict, WithLabel(C, ft.rt2), taken, ft.rt1, ft.rt2) && WellFormed(taken, true) && WellFormed(code.next, tb)
  {
    hide CheckEnd;
    var taken := Taken(code.ins.in1, code.ins.in2, c);
    BodyChecks(strict, C, ft.rt2, code.ins.in1, ft);
    BodyChecks(strict, C, ft.rt2, code.ins.in2, ft);
    if AsI32(c) != 0 {
    } else if code.ins.in2.Cons? {
      ElseBranchToo(taken);
    } else {
      assert CheckSeq(WithLabel(C, ft.rt2), END_CODE, TypeStack(ft.rt1, false)) == Ok(TypeStack(ft.rt1, false));
      assert Premise(strict, WithLabel(C, ft.rt2), END_CODE, TypeStack(ft.rt1, false));
    }
  }

  lemma {:induction false} ElseBranchToo(code: Code)
    requires WellFormed(code, false)
    ensures WellFormed(code, true)
    decreases code
  {
    if code.next.Cons? {
      ElseBranchToo(code.next);
    }
  }

  // ---------------------------------------------------------------- call instructions

  lemma SoundDirectCall(strict: bool, fuel: nat, code: Code, tb: bool, C: Context, env: Env, ts: seq<ValType>,
                        rt2: seq<ValType>, vals: seq<Val>, locals: seq<Val>, S: Store, h: nat)
    requires Ready(strict, C, env, S) && WellFormed(code, tb) && code.ins.Call? && Checks(strict, C, code, ts, rt2)
    requires Matches(strict, |S.funcs|, vals, ts) && Matches(strict, |S.funcs|, locals, C.locals)
    ensures OutcomeOk(strict, EvalInstr(fuel, code, env, vals, locals, S, h), C, rt2, S)
    decreases fuel, 5
  {
    hide Eval, EvalBlock, Checks, StoreOk, Matches, OutcomeOk, Premise, PopAll,
         EvalCallThen, PlainEffect, CheckPlain, CheckTargets, CheckIf, CheckBody;
    CheckOk(strict, C, code, ts, rt2);
    var x := code.ins.funcidx;
    var ft := C.funcs[x];
    assert S.funcs[env.inst.funcaddrs[x]].ftype == ft;
    PopTyped(strict, |S.funcs|, vals, ts, ft.rt1);
    var ts' := ts[..|ts| - |ft.rt1|] + ft.rt2;
    ChecksNext(strict, C, code, ts, ts', rt2);
    SoundCallThen(strict, fuel, env.inst.funcaddrs[x], code.next, tb, C, env, ts, rt2, vals, locals, S, h);
  }

  lemma SoundCallIndirect(strict: bool, fuel: nat, code: Code, tb: bool, C: Context, env: Env, ts: seq<ValType>,
                          rt2: seq<ValType>, vals: seq<Val>, locals: seq<Val>, S: Store, h: nat)
    requires Ready(strict, C, env, S) && WellFormed(code, tb) && code.ins.CallIndirect? && Checks(strict, C, code, ts, rt2)
    requires Matches(strict, |S.funcs|, vals, ts) && Matches(strict, |S.funcs|, locals, C.locals)
    ensures OutcomeOk(strict, EvalInstr(fuel, code, env, vals, locals, S, h), C, rt2, S)
    decreases fuel, 5
  {
    hide Eval, EvalBlock, Checks, CodeOk, Matches, OutcomeOk, Premise, PopAll,
         EvalCallThen, PlainEffect, CheckPlain, CheckTargets, CheckIf, CheckBody;
    CheckOk(strict, C, code, ts, rt2);
    var y, x := code.ins.y, code.ins.x;
    var ft := C.types[y];
    PopI32(strict, |S.funcs|, vals, ts);
    var ts1, vals1 := ts[..|ts| - 1], Drop'(vals, 1);
    PopTyped(strict, |S.funcs|, vals1, ts1, ft.rt1);
    ChecksNext(strict, C, code, ts, ts1[..|ts1| - |ft.rt1|] + ft.rt2, rt2);
    IndirectResolves(C, env.inst, y, x, Take(vals, 1)[0], S);
    var r := ResolveIndirect(y, x, Take(vals, 1)[0], S, env.inst);
    if r.value.Ok? {
      SoundCallThen(strict, fuel, r.value.value, code.next, tb, C, env, ts1, rt2, vals1, locals, S, h);
    } else {
      Unchanged(strict, C, env, S);
      TrapOk(strict, r.value.error, C, rt2, S);
    }
  }

  lemma TrapOk(strict: bool, e: Error, C: Context, rt2: seq<ValType>, S: Store)
    requires Extends(S, S) && DataOk(strict, S)
    ensures OutcomeOk(strict, Trap(e, S), C, rt2, S)
  {
  }

  /** With typed references an indirect call traps or reaches a function of the declared
      type: the element-wise comparison is what establishes the type. */
  lemma IndirectResolves(C: Context, m: ModInst, y: U32, x: U32, index: Val, S: Store)
    requires Linked(S, m, C) && DataOk(true, S)
    requires x < |C.tables| && C.tables[x] == FUNCREF && y < |C.types|
    ensures var r := ResolveIndirect(y, x, index, S, m);
            && r.Some?
            && (r.value.Ok? ==> r.value.value < |S.funcs| && S.funcs[r.value.value].ftype == C.types[y])
  {
    var t := S.tables[m.tableaddrs[x]];
    assert RefsOk(|S.funcs|, t.reftype, t.elems);
  }

  // ---------------------------------------------------------------- plain instructions in a list

  lemma SoundPlain(strict: bool, fuel: nat, code: Code, tb: bool, C: Context, env: Env, ts: seq<ValType>,
                   rt2: seq<ValType>, vals: seq<Val>, locals: seq<Val>, S: Store, h: nat)
    requires Ready(strict, C, env, S) && WellFormed(code, tb) && code.ins.Plain? && Checks(strict, C, code, ts, rt2)
    requires Matches(strict, |S.funcs|, vals, ts) && Matches(strict, |S.funcs|, locals, C.locals)
    ensures OutcomeOk(strict, EvalInstr(fuel, code, env, vals, locals, S, h), C, rt2, S)
    decreases fuel, 5
  {
    hide Eval, EvalBlock, Checks, StoreOk, Matches, OutcomeOk, Premise, PopAll, PlainEffect, Extends, DataOk,
         EvalCallThen, CheckPlain, CheckTargets, CheckIf, CheckBody, Linked;
    CheckOk(strict, C, code, ts, rt2);
    var op := code.ins.op;
    var ts' := PlainTypes(strict, C, env, op, ts, vals, locals, S, h);
    var e := PlainEffect(op, vals, locals, S, env.inst, h);
    match e {
      case Did(vals', locals', S') =>
        ChecksNext(strict, C, code, ts, ts', rt2);
        SoundLater(strict, fuel, code.next, tb, C, env, ts', rt2, vals', locals', S', S, h);
      case Traps(err) =>
        Unchanged(strict, C, env, S);
        TrapOk(strict, err, C, rt2, S);
      case EffectUB => NoFuelOk(strict, C, rt2, S);
    }
  }

  /** One plain instruction keeps the operands at the types the validator computed. */
  lemma PlainTypes(strict: bool, C: Context, env: Env, op: Plain, ts: seq<ValType>, vals: seq<Val>, locals: seq<Val>,
                   S: Store, h: nat) returns (ts': seq<ValType>)
    requires Ready(strict, C, env, S) && (strict ==> NoAny(ts)) && PremisePlain(strict, op)
    requires CheckPlain(C, op, TypeStack(ts, false)).Ok?
    requires Matches(strict, |S.funcs|, vals, ts) && Matches(strict, |S.funcs|, locals, C.locals)
    ensures CheckPlain(C, op, TypeStack(ts, false)) == Ok(TypeStack(ts', false)) && (strict ==> NoAny(ts'))
    ensures var e := PlainEffect(op, vals, locals, S, env.inst, h);
            && !e.Wrong?
            && (e.Did? ==> Matches(strict, |S.funcs|, e.results, ts') && Keeps(strict, C, e.locals, S, e.store))
  {
    hide Perform, PlainSig, Linked, CodeOk, CleanContext, PopAll;
    if op.Drop? {
      ts' := ts[..|ts| - 1];
      DropTypes(strict, C, op, ts, vals, locals, S, env.inst, h);
    } else if op.Select? {
      ts' := SelectTypes(strict, C, ts, vals, locals, S, env.inst, h);
    } else {
      var sig := PlainSig(C, op).value;
      PopAllExact(ts, sig.0);
      var n := |sig.0|;
      ts' := ts[..|ts| - n] + sig.1;
      MatchesSplit(strict, |S.funcs|, vals, ts, n);
      var args := Take(vals, n);
      assert ArgsFit(strict, |S.funcs|, args, sig.0);
      PerformSound(strict, op, C, env.inst, args, locals, S);
      var e := Perform(op, args, locals, S, env.inst);
      if e.Did? {
        MatchesConcat(strict, |S.funcs|, Drop'(vals, n), ts[..|ts| - n], e.results, sig.1);
      }
      if strict {
        ResultsClean(C, op);
      }
    }
  }

  lemma DropTypes(strict: bool, C: Context, op: Plain, ts: seq<ValType>, vals: seq<Val>, locals: seq<Val>, S: Store,
                  m: ModInst, h: nat)
    requires op.Drop? && CheckPlain(C, op, TypeStack(ts, false)).Ok? && Matches(strict, |S.funcs|, vals, ts)
    ensures |ts| > 0 && CheckPlain(C, op, TypeStack(ts, false)) == Ok(TypeStack(ts[..|ts| - 1], false))
    ensures PlainEffect(op, vals, locals, S, m, h).Traps? ||
            PlainEffect(op, vals, locals, S, m, h) == Did(Drop'(vals, 1), locals, S)
    ensures Matches(strict, |S.funcs|, Drop'(vals, 1), ts[..|ts| - 1])
  {
    assert Drop'(vals, 1) + [] == Drop'(vals, 1);
  }

  /** select: both operands have the type found on top, and so has the result. */
  lemma SelectTypes(strict: bool, C: Context, ts: seq<ValType>, vals: seq<Val>, locals: seq<Val>, S: Store,
                    m: ModInst, h: nat) returns (ts': seq<ValType>)
    requires CheckPlain(C, Select, TypeStack(ts, false)).Ok? && Matches(strict, |S.funcs|, vals, ts)
    requires strict ==> NoAny(ts)
    ensures CheckPlain(C, Select, TypeStack(ts, false)) == Ok(TypeStack(ts', false)) && (strict ==> NoAny(ts'))
    ensures var e := PlainEffect(Select, vals, locals, S, m, h);
            && !e.Wrong?
            && (e.Did? ==> Matches(strict, |S.funcs|, e.results, ts') && e.locals == locals && e.store == S)
  {
    var ts1 := ts[..|ts| - 1];
    var t := ts1[|ts1| - 1];
    assert TryPop(TypeStack(ts, false), I32) == Ok(TypeStack(ts1, false));
    PopAllExact(ts1, [t, t]);
    var ts0 := ts1[..|ts1| - 2];
    ts' := ts0 + [t];
    MatchesSplit(strict, |S.funcs|, vals, ts, 3);
    assert ts[..|ts| - 3] == ts0;
    var top := Take(vals, 3);
    var v := if AsI32(top[2]) != 0 then top[0] else top[1];
    assert ts1[|ts1| - 2..] == [ts[|ts| - 3], t];
    MatchesConcat(strict, |S.funcs|, Drop'(vals, 3), ts0, [v], [t]);
  }

  lemma ResultsClean(C: Context, op: Plain)
    requires !op.Drop? && !op.Select? && CleanContext(C) && PlainSig(C, op).Ok?
    requires PremisePlain(true, op)
    ensures NoAny(PlainSig(C, op).value.1)
  {
  }
}
