/** What validation guarantees about a running program: how types, contexts and stores fit
    together, with types (`strict`) or with stack heights only. */
module Invariants {
  import opened Syntax
  import opened Runtime
  import opened Typing

  /** A function reference is null or names a function of the store. */
  ghost predicate RefOk(nf: nat, r: U32) { r == NULL_REF || r < nf }

  ghost predicate Fits(strict: bool, nf: nat, v: Val, t: ValType) {
    strict ==> v.tag == t && (t == FUNCREF ==> RefOk(nf, AsU32(v)))
  }

  ghost predicate Matches(strict: bool, nf: nat, vs: seq<Val>, ts: seq<ValType>) {
    && |vs| == |ts|
    && forall i :: 0 <= i < |vs| ==> Fits(strict, nf, vs[i], ts[i])
  }

  ghost predicate NoAny(ts: seq<ValType>) { forall i :: 0 <= i < |ts| ==> ts[i] != ANY }

  ghost predicate CleanType(ft: FuncType) { NoAny(ft.rt1) && NoAny(ft.rt2) }

  /** No declared type is the byte 0, which the validator reads as "any type". */
  ghost predicate CleanContext(C: Context) {
    && (forall i :: 0 <= i < |C.types| ==> CleanType(C.types[i]))
    && (forall i :: 0 <= i < |C.funcs| ==> CleanType(C.funcs[i]))
    && NoAny(C.tables)
    && (forall i :: 0 <= i < |C.globals| ==> C.globals[i].t != ANY)
    && NoAny(C.locals)
    && (forall i :: 0 <= i < |C.labels| ==> NoAny(C.labels[i]))
    && (C.ret.Some? ==> NoAny(C.ret.value))
  }

  // ---------------------------------------------------------------- premises on code

  /** What the theorems ask of a list beyond validation, along its check from type stack `ts`
      and as long as control can get there. Always: no block type is the funcref byte, which the
      machine cannot expand. With types: the type stack offers the parameters of an `if` in
      their order as well, and operands for every label of a br_table; no pushed type is 0, and
      constants are numbers, as the decoder makes them. With heights only: no call_indirect,
      since it trusts references to be typed. */
  ghost predicate Premise(strict: bool, C: Context, code: Code, ts: TypeStack)
    decreases code
  {
    code.Cons? && !ts.poly ==>
      && PremiseInstr(strict, C, code.ins, ts)
      && (Check(C, code.ins, ts).Ok? ==> Premise(strict, C, code.next, Check(C, code.ins, ts).value))
  }

  ghost predicate PremiseInstr(strict: bool, C: Context, ins: Instr, ts: TypeStack)
    decreases ins
  {
    match ins
    case Block(bt, in1, _) =>
      bt % 0x100 != FUNCREF &&
      (match BlockTypeOf(C, bt)
       case Ok(ft) => Premise(strict, WithLabel(C, ft.rt2), in1, TypeStack(ft.rt1, false))
       case Err(_) => true)
    case Loop(bt, in1, _) =>
      bt % 0x100 != FUNCREF &&
      (match BlockTypeOf(C, bt)
       case Ok(ft) => Premise(strict, WithLabel(C, ft.rt1), in1, TypeStack(ft.rt1, false))
       case Err(_) => true)
    case If(bt, in1, in2) =>
      bt % 0x100 != FUNCREF &&
      (match BlockTypeOf(C, bt)
       case Ok(ft) =>
         && (strict ==> RegularIf(ts, ft.rt1))
         && Premise(strict, WithLabel(C, ft.rt2), in1, TypeStack(ft.rt1, false))
         && Premise(strict, WithLabel(C, ft.rt2), in2, TypeStack(ft.rt1, false))
       case Err(_) => true)
    case BrTable(ls, d) => strict ==> RegularTable(C, ls, d, ts)
    case CallIndirect(_, _) => strict
    case Plain(op) => PremisePlain(strict, op)
    case _ => true
  }

  ghost predicate PremisePlain(strict: bool, op: Plain) {
    strict ==>
      && (op.RefNull? ==> op.t != ANY)
      && (op.Const? ==> op.t in {I32, I64, F32, F64})
      && (op.SelectT? ==> NoAny(op.types))
  }

  // ---------------------------------------------------------------- stores

  /** The addresses of module instance `m` denote what context `C` declares. */
  ghost predicate Linked(S: Store, m: ModInst, C: Context) {
    && C.types == m.types
    && |C.funcs| == |m.funcaddrs|
    && (forall i :: 0 <= i < |C.funcs| ==> m.funcaddrs[i] < |S.funcs| && S.funcs[m.funcaddrs[i]].ftype == C.funcs[i])
    && |C.tables| == |m.tableaddrs|
    && (forall i :: 0 <= i < |C.tables| ==>
          m.tableaddrs[i] < |S.tables| && S.tables[m.tableaddrs[i]].reftype == C.tables[i])
    && C.mems == |m.memaddrs|
    && (forall i :: 0 <= i < C.mems ==> m.memaddrs[i] < |S.mems|)
    && |C.globals| == |m.globaladdrs|
    && (forall i :: 0 <= i < |C.globals| ==>
          && m.globaladdrs[i] < |S.globals| && S.globals[m.globaladdrs[i]].t == C.globals[i].t
          && S.globals[m.globaladdrs[i]].mutable == C.globals[i].mutable)
    && |C.elems| == |m.elemaddrs|
    && (forall i :: 0 <= i < |C.elems| ==> m.elemaddrs[i] < |S.elems| && S.elems[m.elemaddrs[i]].reftype == C.elems[i])
    && C.datas == |m.dataaddrs|
    && (forall i :: 0 <= i < C.datas ==> m.dataaddrs[i] < |S.datas|)
  }

  /** `validate_func` accepts `f` in a module context that describes its instance. */
  ghost predicate Accepted(strict: bool, S: Store, f: FuncInst, C: Context) {
    && Linked(S, f.inst, C) && C.labels == []
    && f.code.typeidx < |C.types| && f.ftype == C.types[f.code.typeidx]
    && |f.code.locals| < 0x1_0000_0000
    && CheckFunc(C, f.code).Ok?
    && Premise(strict, FuncContext(C, f.ftype, f.code), f.code.body, TypeStack([], false))
    && (strict ==> CleanContext(FuncContext(C, f.ftype, f.code)))
  }

  ghost predicate FuncOk(strict: bool, S: Store, f: FuncInst) {
    WellFormed(f.code.body, false) && exists C :: Accepted(strict, S, f, C)
  }

  ghost predicate CodeOk(strict: bool, S: Store) {
    forall i :: 0 <= i < |S.funcs| ==> FuncOk(strict, S, S.funcs[i])
  }

  ghost predicate RefsOk(nf: nat, t: ValType, refs: seq<U32>) {
    t == FUNCREF ==> forall i :: 0 <= i < |refs| ==> RefOk(nf, refs[i])
  }

  /** Globals, tables and element segments hold values of their declared types. */
  ghost predicate DataOk(strict: bool, S: Store) {
    strict ==>
      && (forall i :: 0 <= i < |S.globals| ==> Fits(true, |S.funcs|, S.globals[i].val, S.globals[i].t))
      && (forall i :: 0 <= i < |S.tables| ==> RefsOk(|S.funcs|, S.tables[i].reftype, S.tables[i].elems))
      && (forall i :: 0 <= i < |S.elems| ==> RefsOk(|S.funcs|, S.elems[i].reftype, S.elems[i].elems))
  }

  ghost predicate StoreOk(strict: bool, S: Store) { CodeOk(strict, S) && DataOk(strict, S) }

  /** A global after execution: the declared type is the same, and so is the value, unless the
      global is mutable. */
  ghost predicate SameGlobal(g: GlobalInst, g': GlobalInst) {
    g'.t == g.t && g'.mutable == g.mutable && (!g.mutable ==> g'.val == g.val)
  }

  /** What execution never changes: functions, numbers of instances, declared types, and the
      values of immutable globals. */
  ghost predicate Extends(S: Store, S': Store) {
    && S'.funcs == S.funcs
    && |S'.tables| == |S.tables| && (forall i :: 0 <= i < |S.tables| ==> S'.tables[i].reftype == S.tables[i].reftype)
    && |S'.mems| == |S.mems|
    && |S'.globals| == |S.globals| && (forall i :: 0 <= i < |S.globals| ==> SameGlobal(S.globals[i], S'.globals[i]))
    && |S'.elems| == |S.elems| && (forall i :: 0 <= i < |S.elems| ==> S'.elems[i].reftype == S.elems[i].reftype)
    && |S'.datas| == |S.datas|
  }

  lemma LinkedExtends(S: Store, S': Store, m: ModInst, C: Context)
    requires Extends(S, S') && Linked(S, m, C)
    ensures Linked(S', m, C)
  {
  }

  lemma CodeOkExtends(strict: bool, S: Store, S': Store)
    requires Extends(S, S') && CodeOk(strict, S)
    ensures CodeOk(strict, S')
  {
    forall i | 0 <= i < |S'.funcs| ensures FuncOk(strict, S', S'.funcs[i]) {
      var f := S.funcs[i];
      assert FuncOk(strict, S, f);
      var C :| Accepted(strict, S, f, C);
      LinkedExtends(S, S', f.inst, C);
      assert Accepted(strict, S', f, C);
    }
  }

  // ---------------------------------------------------------------- popping types

  /** `top` can stand where `rt` is wanted. */
  ghost predicate Compatible(top: seq<ValType>, rt: seq<ValType>) {
    && |top| == |rt|
    && forall i :: 0 <= i < |rt| ==> top[i] == rt[i] || rt[i] == ANY || top[i] == ANY
  }

  /** Off the polymorphic case, popping finds exactly the wanted types on top. */
  lemma {:induction false} PopAllExact(ts: seq<ValType>, rt: seq<ValType>)
    requires PopAll(TypeStack(ts, false), rt).Ok?
    ensures |rt| <= |ts|
    ensures PopAll(TypeStack(ts, false), rt) == Ok(TypeStack(ts[..|ts| - |rt|], false))
    ensures Compatible(ts[|ts| - |rt|..], rt)
    decreases |rt|
  {
    if rt == [] {
      assert ts[..|ts|] == ts;
    } else {
      var n, m := |rt| - 1, |ts| - 1;
      var ts' := ts[..m];
      assert TryPop(TypeStack(ts, false), rt[n]) == Ok(TypeStack(ts', false));
      PopAllExact(ts', rt[..n]);
      assert ts'[..|ts'| - n] == ts[..|ts| - |rt|];
      assert ts[|ts| - |rt|..][..n] == ts'[|ts'| - n..];
    }
  }

  /** The `if` order: the same types come off in reverse. */
  lemma {:induction false} PopForwardExact(ts: seq<ValType>, rt: seq<ValType>)
    requires PopForward(TypeStack(ts, false), rt).Ok?
    ensures |rt| <= |ts|
    ensures PopForward(TypeStack(ts, false), rt) == Ok(TypeStack(ts[..|ts| - |rt|], false))
    ensures forall i :: 0 <= i < |rt| ==>
              var t := ts[|ts| - 1 - i]; t == rt[i] || rt[i] == ANY || t == ANY
    decreases |rt|
  {
    if rt == [] {
      assert ts[..|ts|] == ts;
    } else {
      var m := |ts| - 1;
      var ts' := ts[..m];
      assert TryPop(TypeStack(ts, false), rt[0]) == Ok(TypeStack(ts', false));
      PopForwardExact(ts', rt[1..]);
      assert ts'[..|ts'| - |rt[1..]|] == ts[..|ts| - |rt|];
      forall i | 0 <= i < |rt|
        ensures var t := ts[|ts| - 1 - i]; t == rt[i] || rt[i] == ANY || t == ANY
      {
        if i > 0 {
          assert rt[i] == rt[1..][i - 1] && ts'[|ts'| - 1 - (i - 1)] == ts[m - i];
        }
      }
    }
  }

  lemma MatchesSplit(strict: bool, nf: nat, vs: seq<Val>, ts: seq<ValType>, n: nat)
    requires Matches(strict, nf, vs, ts) && n <= |ts|
    ensures Matches(strict, nf, vs[..|vs| - n], ts[..|ts| - n])
    ensures Matches(strict, nf, vs[|vs| - n..], ts[|ts| - n..])
  {
  }

  lemma MatchesConcat(strict: bool, nf: nat, vs: seq<Val>, ts: seq<ValType>, vs': seq<Val>, ts': seq<ValType>)
    requires Matches(strict, nf, vs, ts) && Matches(strict, nf, vs', ts')
    ensures Matches(strict, nf, vs + vs', ts + ts')
  {
  }

  lemma MatchesCompatible(strict: bool, nf: nat, vs: seq<Val>, top: seq<ValType>, rt: seq<ValType>)
    requires Matches(strict, nf, vs, top) && Compatible(top, rt)
    requires strict ==> NoAny(top) && NoAny(rt)
    ensures Matches(strict, nf, vs, rt)
  {
  }
}
