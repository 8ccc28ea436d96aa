/** Laws of linear memories and tables over single instructions and over runs. */
module MemoryLaws {
  import opened Syntax
  import opened Runtime
  import opened Machine
  import opened Runs
  import opened Bulk

  // ---------------------------------------------------------------- sizes, over every run

  /** No more pages than the declared maximum (0 stands for none) or the address space hold,
      and no byte written outside the 32-bit address space. */
  ghost predicate MemOk(mem: MemInst) {
    && mem.pages <= NUM_PAGE_MAX && (mem.max != 0 ==> mem.pages <= mem.max)
    && forall k :: k in mem.data ==> 0 <= k < SPACE
  }

  ghost predicate MemsOk(S: Store) { forall i :: 0 <= i < |S.mems| ==> MemOk(S.mems[i]) }

  /** No memory is added, removed or given another maximum. */
  ghost predicate SameMems(S: Store, S': Store) {
    && |S'.mems| == |S.mems|
    && forall i :: 0 <= i < |S.mems| ==> S'.mems[i].max == S.mems[i].max
  }

  /** `data` has no keys but those of `before` and the addresses from `lo` up to `hi`. */
  ghost predicate KeysWithin(before: map<int, Byte>, data: map<int, Byte>, lo: int, hi: int) {
    forall k :: k in data ==> k in before || lo <= k < hi
  }

  lemma {:induction false} WriteKeys(data: map<int, Byte>, ea: int, n: nat, v: nat)
    ensures KeysWithin(data, WriteLE(data, ea, n, v), ea, ea + n)
    decreases n
  {
    if n > 0 {
      WriteKeys(data[ea := v % 0x100], ea + 1, n - 1, v / 0x100);
    }
  }

  lemma {:induction false} CopyKeys(data: map<int, Byte>, d: U32, s: U32, n: nat)
    requires d + n <= SPACE && s + n <= SPACE
    ensures KeysWithin(data, CopyBytes(data, d, s, n), d, d + n)
    decreases n
  {
    hide CopyBytes;
    if n == 0 {
      CopyNone(data, d, s);
    } else if n == 1 {
      CopyOne(data, d, s);
    } else if ToI32(d) <= ToI32(s) {
      CopyUp(data, d, s, n);
      CopyKeys(data[d as int := Get(data, s)], d + 1, s + 1, n - 1);
    } else {
      CopyDown(data, d, s, n);
      CopyKeys(data[d + n - 1 := Get(data, s + n - 1)], d, s, n - 1);
    }
  }

  lemma {:induction false} FillKeys(data: map<int, Byte>, d: U32, b: Byte, n: nat)
    requires d + n <= SPACE
    ensures KeysWithin(data, FillBytes(data, d, b, n), d, d + n)
    decreases n
  {
    if n > 1 {
      FillKeys(data[d as int := b], d + 1, b, n - 1);
    }
  }

  lemma {:induction false} InitKeys(data: map<int, Byte>, d: U32, src: seq<Byte>, s: nat, n: nat)
    requires d + n <= SPACE && s + n <= |src|
    ensures KeysWithin(data, InitBytes(data, d, src, s, n), d, d + n)
    decreases n
  {
    if n > 1 {
      InitKeys(data[d as int := src[s]], d + 1, src, s + 1, n - 1);
    }
  }

  /** What one instruction may do to a memory: grow or shrink it, or write inside its bounds. */
  ghost predicate MemStep(mem: MemInst, mem': MemInst) {
    && mem'.max == mem.max
    && (mem'.pages == mem.pages || (mem'.pages <= NUM_PAGE_MAX && (mem.max != 0 ==> mem'.pages <= mem.max) && mem'.data == mem.data))
    && KeysWithin(mem.data, mem'.data, 0, mem.pages * WASM_PAGE_SIZE)
  }

  ghost predicate MemsStep(S: Store, S': Store) {
    && |S'.mems| == |S.mems|
    && forall i :: 0 <= i < |S.mems| ==> MemStep(S.mems[i], S'.mems[i])
  }

  /** `memory.grow` with a negative operand, which shrinks the memory if it can. */
  predicate Shrinks(op: Plain, args: seq<Val>)
    requires |args| == Pops(op)
  {
    op.MemoryGrow? && AsI32(args[0]) < 0
  }

  lemma PerformSteps(op: Plain, args: seq<Val>, locals: seq<Val>, S: Store, m: ModInst)
    requires |args| == Pops(op) && MemsOk(S)
    ensures var r := Perform(op, args, locals, S, m); r.Did? ==> MemsStep(S, r.store)
    ensures var r := Perform(op, args, locals, S, m);
            r.Did? && !Shrinks(op, args) ==> forall i :: 0 <= i < |S.mems| ==> S.mems[i].pages <= r.store.mems[i].pages
  {
    hide PerformTable, PerformGrow, PerformAccess, PerformMemoryCopy, PerformMemoryFill, PerformMemoryInit, PerformNum, PerformTruncSat;
    match op
    case Access(opcode, _, offset) => AccessSteps(opcode, offset, args, locals, S, m);
    case MemoryGrow => GrowSteps(args, locals, S, m);
    case MemoryInit(x) => InitSteps(x, args, locals, S, m);
    case MemoryCopy => CopySteps(args, locals, S, m);
    case MemoryFill => FillSteps(args, locals, S, m);
    case Num(opcode) => NumSteps(opcode, args, locals, S);
    case TruncSat(op2) => TruncSteps(op2, args, locals, S);
    case _ =>
      if !(op.Drop? || op.Select? || op.SelectT? || op.LocalGet? || op.LocalSet? || op.LocalTee? || op.Const? || op.RefNull? || op.RefIsNull? || op.RefFunc?
           || op.GlobalGet? || op.GlobalSet? || op.MemorySize? || op.DataDrop? || op.ElemDrop?) {
        TableSteps(op, args, locals, S, m);
      }
  }

  lemma NumSteps(opcode: Byte, args: seq<Val>, locals: seq<Val>, S: Store)
    ensures var r := PerformNum(opcode, args, locals, S); r.Did? ==> r.store == S
  {
  }

  lemma TruncSteps(op2: U32, args: seq<Val>, locals: seq<Val>, S: Store)
    ensures var r := PerformTruncSat(op2, args, locals, S); r.Did? ==> r.store == S
  {
  }

  lemma TableSteps(op: Plain, args: seq<Val>, locals: seq<Val>, S: Store, m: ModInst)
    requires |args| == Pops(op)
    ensures var r := PerformTable(op, args, locals, S, m); r.Did? ==> r.store.mems == S.mems
  {
    hide CopyRefs, SetRef, InitRefs, FillRefs;
  }

  lemma AccessSteps(opcode: Byte, offset: U32, args: seq<Val>, locals: seq<Val>, S: Store, m: ModInst)
    requires MemsOk(S) && |args| == if IsLoad(opcode) then 1 else 2
    ensures var r := PerformAccess(opcode, offset, args, locals, S, m);
            r.Did? ==> MemsStep(S, r.store) && forall i :: 0 <= i < |S.mems| ==> S.mems[i].pages <= r.store.mems[i].pages
  {
    hide ReadLE, WriteLE, ExtendLoaded;
    if IsStore(opcode) && ValidAddr(m.memaddrs, 0, |S.mems|) {
      WriteKeys(S.mems[m.memaddrs[0]].data, AsU32(args[0]) + offset, Width(opcode), args[1].bits);
    }
  }

  lemma GrowSteps(args: seq<Val>, locals: seq<Val>, S: Store, m: ModInst)
    requires MemsOk(S) && |args| == 1
    ensures var r := PerformGrow(args, locals, S, m); r.Did? ==> MemsStep(S, r.store)
    ensures var r := PerformGrow(args, locals, S, m);
            r.Did? && AsI32(args[0]) >= 0 ==> forall i :: 0 <= i < |S.mems| ==> S.mems[i].pages <= r.store.mems[i].pages
  {
  }

  lemma CopySteps(args: seq<Val>, locals: seq<Val>, S: Store, m: ModInst)
    requires MemsOk(S) && |args| == 3
    ensures var r := PerformMemoryCopy(args, locals, S, m);
            r.Did? ==> MemsStep(S, r.store) && forall i :: 0 <= i < |S.mems| ==> S.mems[i].pages <= r.store.mems[i].pages
  {
    hide CopyBytes;
    var d, s, n := AsU32(args[0]), AsU32(args[1]), AsU32(args[2]);
    if d + n <= SPACE && s + n <= SPACE && ValidAddr(m.memaddrs, 0, |S.mems|) {
      CopyKeys(S.mems[m.memaddrs[0]].data, d, s, n);
    }
  }

  lemma FillSteps(args: seq<Val>, locals: seq<Val>, S: Store, m: ModInst)
    requires MemsOk(S) && |args| == 3
    ensures var r := PerformMemoryFill(args, locals, S, m);
            r.Did? ==> MemsStep(S, r.store) && forall i :: 0 <= i < |S.mems| ==> S.mems[i].pages <= r.store.mems[i].pages
  {
    hide FillBytes;
    var d, b, n := AsU32(args[0]), AsU32(args[1]) % 0x100, AsU32(args[2]);
    if d + n <= SPACE && ValidAddr(m.memaddrs, 0, |S.mems|) {
      FillKeys(S.mems[m.memaddrs[0]].data, d, b, n);
    }
  }

  lemma InitSteps(x: U32, args: seq<Val>, locals: seq<Val>, S: Store, m: ModInst)
    requires MemsOk(S) && |args| == 3
    ensures var r := PerformMemoryInit(x, args, locals, S, m);
            r.Did? ==> MemsStep(S, r.store) && forall i :: 0 <= i < |S.mems| ==> S.mems[i].pages <= r.store.mems[i].pages
  {
    hide InitBytes;
    var d, s, n := AsU32(args[0]), AsU32(args[1]), AsU32(args[2]);
    if d + n <= SPACE && ValidAddr(m.memaddrs, 0, |S.mems|) && ValidAddr(m.dataaddrs, x, |S.datas|) {
      var src := S.datas[m.dataaddrs[x]];
      if s + n <= |src| {
        InitKeys(S.mems[m.memaddrs[0]].data, d, src, s, n);
      }
    }
  }

  lemma StepKeepsMems(S: Store, S': Store)
    requires MemsOk(S) && MemsStep(S, S')
    ensures MemsOk(S') && SameMems(S, S')
  {
    forall i | 0 <= i < |S'.mems|
      ensures MemOk(S'.mems[i])
    {
      assert MemStep(S.mems[i], S'.mems[i]) && MemOk(S.mems[i]);
    }
  }

  /** The memories of `S0`, within their limits. */
  ghost function MemsFrom(S0: Store): Store -> bool { (S: Store) => MemsOk(S) && SameMems(S0, S) }

  lemma MemsKept(S0: Store)
    ensures KeptByAll(MemsFrom(S0))
  {
    hide Perform, MemsOk, MemsStep;
    forall op: Plain, args: seq<Val>, locals: seq<Val>, S: Store, m: ModInst
      | |args| == Pops(op) && MemsFrom(S0)(S) && Perform(op, args, locals, S, m).Did?
      ensures MemsFrom(S0)(Perform(op, args, locals, S, m).store)
    {
      PerformSteps(op, args, locals, S, m);
      StepKeepsMems(S, Perform(op, args, locals, S, m).store);
    }
  }

  /** Memory safety over runs: in every call, validated or not, returning or trapping, no memory
      comes to exceed its maximum or 65536 pages, and no byte is written outside the address
      space. */
  lemma InvokeKeepsMems(fuel: nat, addr: U32, s: Stk, S: Store)
    requires MemsOk(S)
    ensures var r := Invoke(fuel, addr, s, S); r.Done? || r.Trapped? ==> MemsOk(r.store) && SameMems(S, r.store)
  {
    hide Invoke, MemsOk, KeptWhere;
    MemsKept(S);
    InvokeKeeps(MemsFrom(S), fuel, addr, s, S);
  }

  // ---------------------------------------------------------------- growing

  /** Nothing was ever written past the end. */
  ghost predicate Clean(mem: MemInst) { forall k :: k in mem.data ==> k < mem.pages * WASM_PAGE_SIZE }

  ghost predicate AllClean(S: Store) { forall i :: 0 <= i < |S.mems| ==> Clean(S.mems[i]) }

  /** Memories that grew from those of `S0`, within their limits, nothing written past the end. */
  ghost predicate GrewFrom(S0: Store, S: Store) {
    && MemsOk(S) && AllClean(S) && SameMems(S0, S)
    && forall i :: 0 <= i < |S0.mems| ==> S0.mems[i].pages <= S.mems[i].pages
  }

  ghost function GrownFrom(S0: Store): Store -> bool { (S: Store) => GrewFrom(S0, S) }

  /** No memory.grow with a negative operand. */
  function NoShrinking(): Condition {
    (op: Plain, args: seq<Val>, S: Store, m: ModInst) => |args| == Pops(op) && !Shrinks(op, args)
  }

  lemma GrowthKept(S0: Store)
    ensures KeptWhere(GrownFrom(S0), NoShrinking())
  {
    hide Perform, MemsOk, MemsStep;
    forall op: Plain, args: seq<Val>, locals: seq<Val>, S: Store, m: ModInst
      | |args| == Pops(op) && NoShrinking()(op, args, S, m) && GrownFrom(S0)(S) && Perform(op, args, locals, S, m).Did?
      ensures GrownFrom(S0)(Perform(op, args, locals, S, m).store)
    {
      PerformSteps(op, args, locals, S, m);
      StepKeepsMems(S, Perform(op, args, locals, S, m).store);
      StepKeepsClean(S, Perform(op, args, locals, S, m).store);
    }
  }

  /** Over every run in which memory.grow gets no negative operand, calls included, sizes never
      decrease, no bound is passed, and nothing is ever written past the end of a memory. */
  lemma GrowthOnly(fuel: nat, addr: U32, s: Stk, S: Store)
    requires MemsOk(S) && AllClean(S) && AlongCall(NoShrinking(), fuel, addr, s, S)
    ensures EndsIn(GrownFrom(S), Invoke(fuel, addr, s, S))
  {
    hide Invoke, MemsOk, KeptWhere, AlongCall, AllClean;
    GrowthKept(S);
    InvokeKeepsWhere(GrownFrom(S), NoShrinking(), fuel, addr, s, S);
  }

  lemma StepKeepsClean(S: Store, S': Store)
    requires AllClean(S) && MemsStep(S, S') && forall i :: 0 <= i < |S.mems| ==> S.mems[i].pages <= S'.mems[i].pages
    ensures AllClean(S')
  {
    forall i | 0 <= i < |S'.mems|
      ensures Clean(S'.mems[i])
    {
      assert MemStep(S.mems[i], S'.mems[i]) && Clean(S.mems[i]);
      assert S.mems[i].pages * WASM_PAGE_SIZE <= S'.mems[i].pages * WASM_PAGE_SIZE;
    }
  }

  /** memory.grow of a clean memory by a non-negative count: either nothing changes and -1 is
      pushed, exactly when the bound would be passed; or the old size is pushed, every old
      byte survives, and every new byte reads as zero. */
  lemma GrowLaw(args: seq<Val>, locals: seq<Val>, S: Store, m: ModInst)
    requires |args| == 1 && AsI32(args[0]) >= 0 && MemsOk(S) && AllClean(S) && ValidAddr(m.memaddrs, 0, |S.mems|)
    ensures var mem, n := S.mems[m.memaddrs[0]], AsI32(args[0]);
            var bound := if mem.max == 0 || mem.max > NUM_PAGE_MAX then NUM_PAGE_MAX else mem.max as nat;
            var r := Perform(MemoryGrow, args, locals, S, m);
            if mem.pages + n > bound then r == Did([ValI32(-1)], locals, S)
            else r.Did? && r.results == [ValI32(mem.pages)] && r.locals == locals && Grown(S, r.store, m.memaddrs[0], n)
  {
    assert MemOk(S.mems[m.memaddrs[0]]) && Clean(S.mems[m.memaddrs[0]]);
  }

  ghost predicate Grown(S: Store, S': Store, a: nat, n: nat)
    requires a < |S.mems|
  {
    var mem := S.mems[a];
    && |S'.mems| == |S.mems| && S' == S.(mems := S.mems[a := S'.mems[a]])
    && S'.mems[a].pages == mem.pages + n && S'.mems[a].max == mem.max
    && forall k: nat {:trigger Get(S'.mems[a].data, k)} ::
         Get(S'.mems[a].data, k) == if k < mem.pages * WASM_PAGE_SIZE then Get(mem.data, k) else 0
  }

  /** The size after memory.grow by the standard, where the operand is unsigned; None: -1. */
  function StandardGrow(pages: nat, declared: Option<U32>, n: U32): Option<nat> {
    var bound := if declared.Some? && declared.value < NUM_PAGE_MAX then declared.value as nat else NUM_PAGE_MAX;
    if pages + n > bound then None else Some(pages + n)
  }

  function MachineGrow(pages: nat, declared: Option<U32>, n: U32): Option<nat> {
    var mem := MemInst(pages, if declared.Some? then declared.value else 0, map[]);
    if GrowFails(mem, ToI32(n)) then None else Some(GrownPages(pages, ToI32(n)))
  }

  /** The machine's memory.grow is the standard's exactly when the operand, read as signed,
      does not shrink the memory, and no declared maximum of 0 has to stop it. */
  lemma GrowIsStandard(pages: nat, declared: Option<U32>, n: U32)
    requires pages <= NUM_PAGE_MAX && (declared.Some? && declared.value != 0 ==> pages <= declared.value)
    ensures MachineGrow(pages, declared, n) == StandardGrow(pages, declared, n)
            <==> !(ToI32(n) < 0 && pages + ToI32(n) >= 0) && !(declared == Some(0) && 0 < pages + n <= NUM_PAGE_MAX)
  {
  }

  /** Shrinking a memory and growing it again shows the old byte where the standard wants 0. */
  lemma ShrinkReveals(S: Store, m: ModInst, b: Byte)
    requires m.memaddrs == [0] && S.mems == [MemInst(1, 0, map[5 := b])] && b != 0
    ensures var shrunk := Perform(MemoryGrow, [ValI32(-1)], [], S, m);
            && shrunk.Did? && shrunk.store.mems[0].pages == 0
            && var grown := Perform(MemoryGrow, [ValI32(1)], [], shrunk.store, m);
               grown.Did? && grown.store.mems[0].pages == 1 && Get(grown.store.mems[0].data, 5) == b != 0
  {
    var shrunk := Perform(MemoryGrow, [ValI32(-1)], [], S, m);
    assert shrunk.store.mems[0] == MemInst(0, 0, map[5 := b]);
  }

  // ---------------------------------------------------------------- table.grow

  /** What the standard lets table.grow do with its operand, which is unsigned: push -1 and
      change nothing, or push the old size and add slots within the declared maximum. */
  predicate AllowedGrow(tab: TableInst, declared: Option<U32>, n: U32, r: U32, pushed: Val, after: seq<U32>) {
    || (pushed == ValI32(-1) && after == tab.elems)
    || (&& pushed == ValI32(|tab.elems|) && |tab.elems| + n <= (if declared.Some? then declared.value else 0xFFFF_FFFF)
        && after == tab.elems + seq(n, _ => r))
  }

  /** Where the C language settles it, the machine's table.grow is one the standard allows
      exactly when the operand, read as signed, does not shrink the table, and no declared
      maximum of 0 has to stop it. */
  lemma TableGrowIsStandard(x: U32, declared: Option<U32>, r: Val, n: Val, locals: seq<Val>, S: Store, m: ModInst)
    requires ValidAddr(m.tableaddrs, x, |S.tables|)
    requires var tab := S.tables[m.tableaddrs[x]];
             && tab.max == (if declared.Some? then declared.value else 0)
             && |tab.elems| <= (if declared.Some? then declared.value else 0xFFFF_FFFF)
    ensures var a := m.tableaddrs[x];
            var size, g := |S.tables[a].elems|, Perform(TableGrow(x), [r, n], locals, S, m);
            g.Did? ==>
              && |g.results| == 1 && |g.store.tables| == |S.tables|
              && g.store == S.(tables := S.tables[a := S.tables[a].(elems := g.store.tables[a].elems)])
              && (AllowedGrow(S.tables[a], declared, AsU32(n), AsU32(r), g.results[0], g.store.tables[a].elems)
                  <==> !(AsI32(n) < 0 < size + AsI32(n)) && !(declared == Some(0) && AsI32(n) > 0))
  {
    var a := m.tableaddrs[x];
    var tab, k := S.tables[a], AsI32(n);
    var g := Perform(TableGrow(x), [r, n], locals, S, m);
    if g.Did? {
      var after := g.store.tables[a].elems;
      assert k == 0 ==> tab.elems + seq(0, _ => AsU32(r)) == tab.elems;
      assert k > 0 && after != tab.elems ==> |after| == |tab.elems| + k;
      assert k < 0 && after != tab.elems ==> |after| == |tab.elems| + k;
      assert |tab.elems + seq(AsU32(n), _ => AsU32(r))| == |tab.elems| + AsU32(n);
    }
  }

  /** A table of three slots grown by -1 has two, and 3 is pushed. */
  lemma TableShrinks(S: Store, m: ModInst, r: Val, a: U32, b: U32, c: U32)
    requires m.tableaddrs == [0] && S.tables == [TableInst(FUNCREF, 0, [a, b, c])]
    ensures Perform(TableGrow(0), [r, ValI32(-1)], [], S, m)
            == Did([ValI32(3)], [], S.(tables := [TableInst(FUNCREF, 0, [a, b])]))
  {
    var tab := S.tables[0];
    assert [a, b, c][..2] == [a, b];
    assert RegrowRefs(tab, -1, AsU32(r)) == Regrown([a, b]);
    assert S.tables[0 := TableInst(FUNCREF, 0, [a, b])] == [TableInst(FUNCREF, 0, [a, b])];
  }

  // ---------------------------------------------------------------- the bulk operations as single steps

  /** Nothing but the bytes of memory `a` differs. */
  ghost predicate OnlyBytes(S: Store, S': Store, a: nat)
    requires a < |S.mems|
  {
    |S'.mems| == |S.mems| && S' == S.(mems := S.mems[a := S.mems[a].(data := S'.mems[a].data)])
  }

  /** memory.copy traps before any write when a range is out of bounds. Otherwise it moves the
      bytes at once, unless one of its ranges runs up to or over the middle of the address space,
      where a signed variable overflows. */
  lemma MemoryCopyLaw(args: seq<Val>, locals: seq<Val>, S: Store, m: ModInst)
    requires |args| == 3 && MemsOk(S) && ValidAddr(m.memaddrs, 0, |S.mems|)
    ensures var a := m.memaddrs[0];
            var d, s, n := AsU32(args[0]), AsU32(args[1]), AsU32(args[2]);
            var r := Perform(MemoryCopy, args, locals, S, m);
            if d + n > S.mems[a].pages * WASM_PAGE_SIZE || s + n > S.mems[a].pages * WASM_PAGE_SIZE then
              r == Traps(TrapOutOfBoundsMemoryAccess)
            else if n > 0 && (Crosses(d, n) || Crosses(s, n) || n >= HALF) then r == EffectUB
            else
              && r.Did? && r.results == [] && r.locals == locals && OnlyBytes(S, r.store, a)
              && Moved(S.mems[a].data, r.store.mems[a].data, d, s, n)
  {
    hide CopyBytes, CopyOverflows, Moved;
    var a := m.memaddrs[0];
    var d, s, n := AsU32(args[0]), AsU32(args[1]), AsU32(args[2]);
    assert MemOk(S.mems[a]);
    CopyOverflowsIff(d, s, n);
    if d + n <= SPACE && s + n <= SPACE && !CopyOverflows(d, s, n) {
      DefinedCopyMoves(S.mems[a].data, d, s, n);
    }
  }

  lemma MemoryFillLaw(args: seq<Val>, locals: seq<Val>, S: Store, m: ModInst)
    requires |args| == 3 && MemsOk(S) && ValidAddr(m.memaddrs, 0, |S.mems|)
    ensures var a := m.memaddrs[0];
            var d, b, n := AsU32(args[0]), AsU32(args[1]) % 0x100, AsU32(args[2]);
            var r := Perform(MemoryFill, args, locals, S, m);
            if d + n > S.mems[a].pages * WASM_PAGE_SIZE then r == Traps(TrapOutOfBoundsMemoryAccess)
            else if n > 0 && (Crosses(d, n) || n >= HALF) then r == EffectUB
            else
              && r.Did? && r.results == [] && r.locals == locals && OnlyBytes(S, r.store, a)
              && forall k: int :: Get(r.store.mems[a].data, k) == if d <= k < d + n then b else Get(S.mems[a].data, k)
  {
    hide FillBytes, FillOverflows;
    var a := m.memaddrs[0];
    var d, b, n := AsU32(args[0]), AsU32(args[1]) % 0x100, AsU32(args[2]);
    assert MemOk(S.mems[a]);
    FillOverflowsIff(d, n);
    if d + n <= SPACE {
      FillIs(S.mems[a].data, d, b, n);
    }
  }

  lemma MemoryInitLaw(x: U32, args: seq<Val>, locals: seq<Val>, S: Store, m: ModInst)
    requires |args| == 3 && MemsOk(S) && ValidAddr(m.memaddrs, 0, |S.mems|) && ValidAddr(m.dataaddrs, x, |S.datas|)
    ensures var a, src := m.memaddrs[0], S.datas[m.dataaddrs[x]];
            var d, s, n := AsU32(args[0]), AsU32(args[1]), AsU32(args[2]);
            var r := Perform(MemoryInit(x), args, locals, S, m);
            if s + n > |src| || d + n > S.mems[a].pages * WASM_PAGE_SIZE then r == Traps(TrapOutOfBoundsMemoryAccess)
            else if n > 0 && (Crosses(d, n) || s + n >= HALF) then r == EffectUB
            else
              && r.Did? && r.results == [] && r.locals == locals && OnlyBytes(S, r.store, a)
              && forall k: int :: Get(r.store.mems[a].data, k) == if d <= k < d + n then src[s + (k - d)] else Get(S.mems[a].data, k)
  {
    hide InitBytes, InitOverflows;
    var a, src := m.memaddrs[0], S.datas[m.dataaddrs[x]];
    var d, s, n := AsU32(args[0]), AsU32(args[1]), AsU32(args[2]);
    assert MemOk(S.mems[a]);
    InitOverflowsIff(d, s, n);
    if s + n <= |src| && d + n <= SPACE {
      InitIs(S.mems[a].data, d, src, s, n);
    }
  }

  /** table.init and table.copy, also within one table, trap before any write, or put the old
      source range in place at once, as long as no index, nor the one after the last, is beyond
      the range of an int. */
  lemma TableInitLaw(x: U32, y: U32, args: seq<Val>, locals: seq<Val>, S: Store, m: ModInst)
    requires |args| == 3 && ValidAddr(m.tableaddrs, x, |S.tables|) && ValidAddr(m.elemaddrs, y, |S.elems|)
    ensures var a, src := m.tableaddrs[x], S.elems[m.elemaddrs[y]].elems;
            var tab := S.tables[a];
            var d, s, n := AsU32(args[0]), AsU32(args[1]), AsU32(args[2]);
            Perform(TableInit(x, y), args, locals, S, m) ==
            if s + n > |src| || d + n > |tab.elems| then Traps(TrapOutOfBoundsTableAccess)
            else if n > 0 && (d + n >= HALF || s + n >= HALF) then EffectUB
            else Did([], locals, S.(tables := S.tables[a := tab.(elems := Spliced(tab.elems, d, src, s, n))]))
  {
    hide InitRefs, Spliced, InitOverflows;
    var a, src := m.tableaddrs[x], S.elems[m.elemaddrs[y]].elems;
    var d, s, n := AsU32(args[0]), AsU32(args[1]), AsU32(args[2]);
    InitOverflowsIff(d, s, n);
    if s + n <= |src| && d + n <= |S.tables[a].elems| {
      InitRefsIs(S.tables[a].elems, d, src, s, n);
    }
  }

  lemma TableCopyLaw(x: U32, y: U32, args: seq<Val>, locals: seq<Val>, S: Store, m: ModInst)
    requires |args| == 3 && ValidAddr(m.tableaddrs, x, |S.tables|) && ValidAddr(m.tableaddrs, y, |S.tables|)
    ensures var ax, ay := m.tableaddrs[x], m.tableaddrs[y];
            var to, from := S.tables[ax], S.tables[ay].elems;
            var d, s, n := AsU32(args[0]), AsU32(args[1]), AsU32(args[2]);
            Perform(TableCopy(x, y), args, locals, S, m) ==
            if s + n > |from| || d + n > |to.elems| then Traps(TrapOutOfBoundsTableAccess)
            else if n > 0 && (d + n >= HALF || s + n >= HALF) then EffectUB
            else Did([], locals, S.(tables := S.tables[ax := to.(elems := Spliced(to.elems, d, from, s, n))]))
  {
    hide CopyRefs, Spliced, CopyOverflows;
    var ax, ay := m.tableaddrs[x], m.tableaddrs[y];
    var d, s, n := AsU32(args[0]), AsU32(args[1]), AsU32(args[2]);
    CopyOverflowsIff(d, s, n);
    if s + n <= |S.tables[ay].elems| && d + n <= |S.tables[ax].elems| {
      CopyRefsIs(S.tables, ax, ay, d, s, n);
    }
  }
}
