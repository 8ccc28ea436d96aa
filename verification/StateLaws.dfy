/** What single instructions do to locals, globals, tables and memory bytes, said by what later
    instructions see. */
module StateLaws {
  import opened Syntax
  import opened Runtime
  import opened Machine
  import opened Bulk
  import opened Runs
  import T = Truncation

  // ---------------------------------------------------------------- numbers as instructions read them

  /** Two's complement value of `x < m`. */
  function Signed(x: nat, m: nat): int { if 2 * x >= m then x - m else x }

  /** The signed loads keep the number, the unsigned ones the bits. */
  lemma LoadedNumber(opcode: Byte, raw: nat)
    requires IsLoad(opcode) && raw < Pow256(Width(opcode))
    ensures var v := ExtendLoaded(opcode, raw);
            if opcode in {0x2C, 0x2E} then v < SPACE && Signed(v, SPACE) == Signed(raw, Pow256(Width(opcode)))
            else if opcode in {0x30, 0x32, 0x34} then Signed(v, SPACE * SPACE) == Signed(raw, Pow256(Width(opcode)))
            else v == raw
  {
    Pow256Values();
  }

  /** Signed indices into lists of at most 2^31 entries select what the unsigned index says:
      br_table falls back to its default from the end of the list on. */
  lemma UnsignedTarget(labels: seq<U32>, d: U32, index: Val)
    requires |labels| <= HALF
    ensures TableTarget(labels, d, AsI32(index)) == if AsU32(index) < |labels| then labels[AsU32(index)] else d
  {
  }

  // ---------------------------------------------------------------- bytes

  lemma {:induction false} WriteOutside(data: map<int, Byte>, ea: int, n: nat, v: nat, a: int)
    requires !(ea <= a < ea + n)
    ensures Get(WriteLE(data, ea, n, v), a) == Get(data, a)
    decreases n
  {
    if n > 0 {
      WriteOutside(data[ea := v % 0x100], ea + 1, n - 1, v / 0x100, a);
    }
  }

  lemma {:induction false} ReadSame(data: map<int, Byte>, data': map<int, Byte>, ea: int, n: nat)
    requires forall a :: ea <= a < ea + n ==> Get(data, a) == Get(data', a)
    ensures ReadLE(data, ea, n) == ReadLE(data', ea, n)
    decreases n
  {
    if n > 0 {
      ReadSame(data, data', ea + 1, n - 1);
    }
  }

  lemma {:induction false} ReadWrite(data: map<int, Byte>, ea: int, n: nat, v: nat)
    ensures ReadLE(WriteLE(data, ea, n, v), ea, n) == v % Pow256(n)
    decreases n
  {
    if n > 0 {
      var data' := data[ea := v % 0x100];
      ReadWrite(data', ea + 1, n - 1, v / 0x100);
      WriteOutside(data', ea + 1, n - 1, v / 0x100, ea);
      ModStep(v, Pow256(n - 1));
    }
  }

  lemma ModStep(v: nat, p: nat)
    requires p > 0
    ensures v % 0x100 + 0x100 * (v / 0x100 % p) == v % (0x100 * p)
  {
    var b, q := v % 0x100, v / 0x100;
    var k, r := q / p, q % p;
    assert v == b + 0x100 * q && q == k * p + r;
    assert v == k * (0x100 * p) + (b + 0x100 * r);
    ModOf(k, b + 0x100 * r, 0x100 * p);
  }

  lemma ModOf(k: nat, r: nat, m: nat)
    requires r < m
    ensures (k * m + r) % m == r
  {
    var q, s := (k * m + r) / m, (k * m + r) % m;
    assert k * m + r == q * m + s;
    OneQuotient(k, r, q, s, m);
  }

  lemma OneQuotient(k: nat, r: nat, q: nat, s: nat, m: nat)
    requires r < m && s < m && k * m + r == q * m + s
    ensures r == s
  {
    if q < k {
      Multiples(q + 1, k, m);
    } else if q > k {
      Multiples(k + 1, q, m);
    }
  }

  lemma Multiples(a: nat, b: nat, m: nat)
    requires 0 < a <= b
    ensures (a - 1) * m + m <= b * m
  {
    assert (b - a) * m >= 0;
  }

  // ---------------------------------------------------------------- loads and stores

  /** Address of a load or store. */
  function Place(base: Val, offset: U32): nat { AsU32(base) + offset }

  ghost predicate Accessible(S: Store, m: ModInst, ea: nat, n: nat) {
    ValidAddr(m.memaddrs, 0, |S.mems|) && !OutOfBounds(ea, n, S.mems[m.memaddrs[0]]) && !CrossesPage(ea, n)
  }

  /** A load sees what a store of the same width put there, cut to that width. */
  lemma StoreThenLoad(s: Byte, l: Byte, offset: U32, base: Val, c: Val, locals: seq<Val>, S: Store, m: ModInst)
    requires IsStore(s) && IsLoad(l) && Width(s) == Width(l) && Accessible(S, m, Place(base, offset), Width(s))
    ensures var r := Perform(Access(s, 0, offset), [base, c], locals, S, m);
            && r.Did? && c.bits % Pow256(Width(l)) < Pow256(Width(l))
            && Perform(Access(l, 0, offset), [base], locals, r.store, m)
               == Did([Val(AccessType(l), ExtendLoaded(l, c.bits % Pow256(Width(l))))], locals, r.store)
  {
    hide ReadLE, WriteLE, ExtendLoaded, Pow256;
    ReadWrite(S.mems[m.memaddrs[0]].data, Place(base, offset), Width(s), c.bits);
    assert c.bits % Pow256(Width(l)) < Pow256(Width(l));
  }

  /** A load of bytes that the store does not touch sees the same as before. */
  lemma StoreElsewhere(s: Byte, l: Byte, offset: U32, offset': U32, base: Val, base': Val, c: Val, locals: seq<Val>, S: Store, m: ModInst)
    requires IsStore(s) && IsLoad(l) && Accessible(S, m, Place(base, offset), Width(s))
    requires Place(base', offset') + Width(l) <= Place(base, offset) || Place(base, offset) + Width(s) <= Place(base', offset')
    ensures var r := Perform(Access(s, 0, offset), [base, c], locals, S, m);
            var before := Perform(Access(l, 0, offset'), [base'], locals, S, m);
            var after := Perform(Access(l, 0, offset'), [base'], locals, r.store, m);
            r.Did? && after == if before.Did? then Did(before.results, locals, r.store) else before
  {
    hide ReadLE, WriteLE, ExtendLoaded;
    var data, ea, n := S.mems[m.memaddrs[0]].data, Place(base, offset), Width(s);
    var data' := WriteLE(data, ea, n, c.bits);
    forall a | Place(base', offset') <= a < Place(base', offset') + Width(l)
      ensures Get(data, a) == Get(data', a)
    {
      WriteOutside(data, ea, n, c.bits, a);
    }
    ReadSame(data, data', Place(base', offset'), Width(l));
  }

  // ---------------------------------------------------------------- locals, globals, tables

  /** The instruction that reads slot `x`, and the one that writes it. */
  datatype Cell = LocalCell(x: U32) | GlobalCell(x: U32)

  function Reading(c: Cell): Plain { if c.LocalCell? then LocalGet(c.x) else GlobalGet(c.x) }

  function Writing(c: Cell): Plain { if c.LocalCell? then LocalSet(c.x) else GlobalSet(c.x) }

  /** Two cells are one slot: globals may share an address under two indices. */
  predicate SameCell(c: Cell, c': Cell, m: ModInst) {
    || (c.LocalCell? && c'.LocalCell? && c.x == c'.x)
    || (c.GlobalCell? && c'.GlobalCell? && c.x < |m.globaladdrs| && c'.x < |m.globaladdrs| && m.globaladdrs[c.x] == m.globaladdrs[c'.x])
  }

  /** Reading a cell after writing one: the written value in the same slot, the old value in
      any other, and the same failure on a missing slot. */
  lemma WriteThenRead(c: Cell, c': Cell, v: Val, locals: seq<Val>, S: Store, m: ModInst)
    ensures var w := Perform(Writing(c), [v], locals, S, m);
            w.Did? ==>
              && w.results == []
              && var before := Perform(Reading(c'), [], locals, S, m);
                 var after := Perform(Reading(c'), [], w.locals, w.store, m);
                 if SameCell(c, c', m) then after == Did([v], w.locals, w.store)
                 else if before.Did? then after == Did(before.results, w.locals, w.store)
                 else after == before
  {
  }

  lemma TableWriteThenRead(x: U32, y: U32, i: Val, j: Val, r: Val, locals: seq<Val>, S: Store, m: ModInst)
    requires ValidAddr(m.tableaddrs, x, |S.tables|) && ValidAddr(m.tableaddrs, y, |S.tables|)
    ensures var w := Perform(TableSet(x), [i, r], locals, S, m);
            w.Did? ==>
              var before := Perform(TableGet(y), [j], locals, S, m);
              var after := Perform(TableGet(y), [j], locals, w.store, m);
              if m.tableaddrs[x] == m.tableaddrs[y] && AsI32(i) == AsI32(j) then
                after == Did([ValRef(S.tables[m.tableaddrs[y]].reftype, AsU32(r))], locals, w.store)
              else if before.Did? then after == Did(before.results, locals, w.store)
              else after == before
  {
  }

  /** table.fill, for all operands: a trap before any write when the sum, if it fits an int, is
      negative or beyond the table; its range filled; or else left open by the C language. */
  lemma TableFillLaw(x: U32, i: Val, r: Val, n: Val, locals: seq<Val>, S: Store, m: ModInst)
    requires ValidAddr(m.tableaddrs, x, |S.tables|)
    ensures var a, f := m.tableaddrs[x], Perform(TableFill(x), [i, r, n], locals, S, m);
            var tab, end := S.tables[a], AsI32(i) + AsI32(n);
            if InI32(end) && !(0 <= end <= |tab.elems|) then f == Traps(TrapOutOfBoundsTableAccess)
            else if InI32(end) && (AsI32(n) == 0 || (AsI32(i) >= 0 && AsI32(n) > 0)) then
              f == Did([], locals, S.(tables := S.tables[a := tab.(elems := Painted(tab.elems, AsI32(i), AsI32(n), AsU32(r)))]))
            else f == EffectUB
  {
    hide FillRefs, Painted;
    FillRefsIs(S.tables[m.tableaddrs[x]].elems, AsI32(i), AsI32(n), AsU32(r));
  }

  // ---------------------------------------------------------------- floats to integers

  /** The trapping and the saturating operators: from f32 or f64, to i64 or i32. */
  function TruncInstr(single: bool, wide: bool, signed: bool): Plain {
    Num((if wide then 0xAE else 0xA8) + (if single then 0 else 2) + (if signed then 0 else 1))
  }

  function TruncSatInstr(single: bool, wide: bool, signed: bool): Plain {
    TruncSat((if wide then 4 else 0) + (if single then 0 else 2) + (if signed then 0 else 1))
  }

  function IntType(wide: bool): ValType { if wide then I64 else I32 }

  /** The operand cut toward zero, as a number of the result type; a trap exactly when there is
      no such number in the type, by its own name for NaN. */
  lemma TruncPerformed(single: bool, wide: bool, signed: bool, v: Val, locals: seq<Val>, S: Store, m: ModInst)
    ensures var c, x := T.ConvOf(single, wide, signed), T.FloatOf(single, v.bits);
            var r := Perform(TruncInstr(single, wide, signed), [v], locals, S, m);
            if x.Finite? && c.imin <= T.Trunc(x.m, x.e) <= c.imax then
              && r.Did? && |r.results| == 1 && r == Did(r.results, locals, S)
              && r.results[0].tag == IntType(wide) && r.results[0].bits < T.Modulus(wide)
              && T.Denotes(wide, signed, r.results[0].bits) == T.Trunc(x.m, x.e)
            else r.Traps? && (r.err == TrapInvalidConversion <==> x.NaN?)
  {
    hide T.Trunc, T.TruncBits, T.FloatOf;
    T.TruncBitsExact(single, wide, signed, v.bits);
    assert BitsOf([v]) == [v.bits];
  }

  /** The saturating operators never trap: the number nearest to the truncated operand, 0 for NaN. */
  lemma TruncSatPerformed(single: bool, wide: bool, signed: bool, v: Val, locals: seq<Val>, S: Store, m: ModInst)
    ensures var c, x := T.ConvOf(single, wide, signed), T.FloatOf(single, v.bits);
            var r := Perform(TruncSatInstr(single, wide, signed), [v], locals, S, m);
            && r.Did? && |r.results| == 1 && r == Did(r.results, locals, S) && r.results[0].tag == IntType(wide)
            && var y := T.Denotes(wide, signed, r.results[0].bits);
               match x
               case NaN => y == 0
               case Infinite(negative) => y == if negative then c.imin else c.imax
               case Finite(mant, e) =>
                 var t := T.Trunc(mant, e);
                 y == if t < c.imin then c.imin else if t > c.imax then c.imax else t
  {
    hide T.Trunc, T.TruncSatBits, T.FloatOf;
    T.TruncSatBitsExact(single, wide, signed, v.bits);
    assert BitsOf([v]) == [v.bits];
  }

  // ---------------------------------------------------------------- what C leaves open

  /** A multi-byte access inside the memory reaches over the end of a 4096-byte page. */
  predicate Straddling(opcode: Byte, ea: nat, mem: MemInst) {
    (IsLoad(opcode) || IsStore(opcode)) && !OutOfBounds(ea, Width(opcode), mem) && ea % 0x1000 + Width(opcode) > 0x1000
  }

  /** table.grow that is not refused frees the whole table, or reaches 2^31 slots. */
  predicate OpenGrow(tab: TableInst, n: int) {
    var size := |tab.elems| + n;
    n != 0 && size >= 0 && (tab.max == 0 || size <= tab.max) && (size == 0 || (n > 0 && size >= HALF))
  }

  /** table.fill whose sum overflows, or whose range seems to lie in the table only because one
      of the two operands is negative. */
  predicate OpenFill(size: nat, i: int, n: int) {
    !InI32(i + n) || (0 <= i + n <= size && (n < 0 || (i < 0 && n > 0)))
  }

  /** When the C language leaves open what an instruction does, as far as the model follows it:
      accesses over a page end, signed overflow in the bulk loops, null pointers. */
  predicate Hazard(op: Plain, args: seq<Val>, S: Store, m: ModInst)
    requires |args| == Pops(op)
  {
    match op
    case Access(opcode, _, offset) =>
      ValidAddr(m.memaddrs, 0, |S.mems|) && Straddling(opcode, AsU32(args[0]) + offset, S.mems[m.memaddrs[0]])
    case MemoryInit(x) =>
      && ValidAddr(m.memaddrs, 0, |S.mems|) && ValidAddr(m.dataaddrs, x, |S.datas|)
      && var d, s, n := AsU32(args[0]), AsU32(args[1]), AsU32(args[2]);
         && s + n <= |S.datas[m.dataaddrs[x]]| && !OutOfBounds(d, n, S.mems[m.memaddrs[0]])
         && n > 0 && (Crosses(d, n) || s + n >= HALF)
    case MemoryCopy =>
      && ValidAddr(m.memaddrs, 0, |S.mems|)
      && var d, s, n := AsU32(args[0]), AsU32(args[1]), AsU32(args[2]);
         && !OutOfBounds(s, n, S.mems[m.memaddrs[0]]) && !OutOfBounds(d, n, S.mems[m.memaddrs[0]])
         && n > 0 && (Crosses(d, n) || Crosses(s, n) || n >= HALF)
    case MemoryFill =>
      && ValidAddr(m.memaddrs, 0, |S.mems|)
      && var d, n := AsU32(args[0]), AsU32(args[2]);
         !OutOfBounds(d, n, S.mems[m.memaddrs[0]]) && n > 0 && (Crosses(d, n) || n >= HALF)
    case TableGrow(x) => ValidAddr(m.tableaddrs, x, |S.tables|) && OpenGrow(S.tables[m.tableaddrs[x]], AsI32(args[1]))
    case TableFill(x) =>
      ValidAddr(m.tableaddrs, x, |S.tables|) && OpenFill(|S.tables[m.tableaddrs[x]].elems|, AsI32(args[0]), AsI32(args[2]))
    case TableInit(x, y) =>
      && ValidAddr(m.tableaddrs, x, |S.tables|) && ValidAddr(m.elemaddrs, y, |S.elems|)
      && var d, s, n := AsU32(args[0]), AsU32(args[1]), AsU32(args[2]);
         && s + n <= |S.elems[m.elemaddrs[y]].elems| && d + n <= |S.tables[m.tableaddrs[x]].elems|
         && n > 0 && (d + n >= HALF || s + n >= HALF)
    case TableCopy(x, y) =>
      && ValidAddr(m.tableaddrs, x, |S.tables|) && ValidAddr(m.tableaddrs, y, |S.tables|)
      && var d, s, n := AsU32(args[0]), AsU32(args[1]), AsU32(args[2]);
         && s + n <= |S.tables[m.tableaddrs[y]].elems| && d + n <= |S.tables[m.tableaddrs[x]].elems|
         && n > 0 && (d + n >= HALF || s + n >= HALF)
    case _ => false
  }

  lemma PageEnd(ea: nat, n: nat)
    requires 0 < n <= 0x1000
    ensures CrossesPage(ea, n) <==> ea % 0x1000 + n > 0x1000
  {
  }

  lemma OpenAccess(opcode: Byte, align: U32, offset: U32, args: seq<Val>, locals: seq<Val>, S: Store, m: ModInst)
    requires |args| == Pops(Access(opcode, align, offset))
    ensures PerformAccess(opcode, offset, args, locals, S, m).EffectUB? <==> Hazard(Access(opcode, align, offset), args, S, m)
  {
    hide ReadLE, WriteLE, ExtendLoaded, CrossesPage;
    PageEnd(AsU32(args[0]) + offset, Width(opcode));
  }

  lemma OpenMemory(op: Plain, args: seq<Val>, locals: seq<Val>, S: Store, m: ModInst)
    requires |args| == Pops(op) && (op.MemoryInit? || op.MemoryCopy? || op.MemoryFill?)
    ensures Perform(op, args, locals, S, m).EffectUB? <==> Hazard(op, args, S, m)
  {
    hide CopyBytes, FillBytes, InitBytes, CopyOverflows, FillOverflows, InitOverflows;
    var d, s, n := AsU32(args[0]), AsU32(args[1]), AsU32(args[2]);
    CopyOverflowsIff(d, s, n);
    FillOverflowsIff(d, n);
    InitOverflowsIff(d, s, n);
  }

  lemma OpenTable(op: Plain, args: seq<Val>, locals: seq<Val>, S: Store, m: ModInst)
    requires |args| == Pops(op) && (op.TableInit? || op.TableCopy? || op.TableGrow? || op.TableFill?)
    ensures PerformTable(op, args, locals, S, m).EffectUB? <==> Hazard(op, args, S, m)
  {
    hide CopyRefs, SetRef, InitRefs, FillRefs, CopyOverflows, InitOverflows, Painted;
    if op.TableFill? && ValidAddr(m.tableaddrs, op.x, |S.tables|) {
      FillRefsIs(S.tables[m.tableaddrs[op.x]].elems, AsI32(args[0]), AsI32(args[2]), AsU32(args[1]));
    } else if op.TableInit? || op.TableCopy? {
      var d, s, n := AsU32(args[0]), AsU32(args[1]), AsU32(args[2]);
      CopyOverflowsIff(d, s, n);
      InitOverflowsIff(d, s, n);
    }
  }

  lemma TableClosed(op: Plain, args: seq<Val>, locals: seq<Val>, S: Store, m: ModInst)
    requires |args| == Pops(op) && !(op.TableInit? || op.TableCopy? || op.TableGrow? || op.TableFill?)
    ensures !PerformTable(op, args, locals, S, m).EffectUB?
  {
  }

  /** For each instruction, when some round of its loop, however late, or its access ends in
      what the C language leaves open, said of its operands before the first round. */
  lemma UndefinedExactly(op: Plain, args: seq<Val>, locals: seq<Val>, S: Store, m: ModInst)
    requires |args| == Pops(op)
    ensures Perform(op, args, locals, S, m).EffectUB? <==> Hazard(op, args, S, m)
  {
    hide PerformTable, PerformAccess, PerformMemoryInit, PerformMemoryCopy, PerformMemoryFill, Numeric;
    match op
    case Access(opcode, align, offset) => OpenAccess(opcode, align, offset, args, locals, S, m);
    case MemoryInit(_) => OpenMemory(op, args, locals, S, m);
    case MemoryCopy => OpenMemory(op, args, locals, S, m);
    case MemoryFill => OpenMemory(op, args, locals, S, m);
    case TableGrow(_) => OpenTable(op, args, locals, S, m);
    case TableFill(_) => OpenTable(op, args, locals, S, m);
    case TableInit(_, _) => OpenTable(op, args, locals, S, m);
    case TableCopy(_, _) => OpenTable(op, args, locals, S, m);
    case _ => TableClosed(op, args, locals, S, m);
  }

  function NoHazard(): Condition {
    (op: Plain, args: seq<Val>, S: Store, m: ModInst) => |args| == Pops(op) && !Hazard(op, args, S, m)
  }

  /** A call along which none of these conditions arises, of functions with fewer than 2^32
      parameters and locals, comes to none of the places that the C language leaves open. */
  lemma NoHazardNoUB(fuel: nat, addr: U32, s: Stk, S: Store)
    requires FramesFit(S) && AlongCall(NoHazard(), fuel, addr, s, S)
    ensures !Invoke(fuel, addr, s, S).RunUB?
  {
    hide Invoke, AlongCall, FramesFit;
    assert Defined(NoHazard()) by {
      hide Perform, Hazard;
      forall op: Plain, args: seq<Val>, locals: seq<Val>, S: Store, m: ModInst
        | |args| == Pops(op) && NoHazard()(op, args, S, m)
        ensures !Perform(op, args, locals, S, m).EffectUB?
      {
        UndefinedExactly(op, args, locals, S, m);
      }
    }
    hide Defined;
    InvokeDefined(NoHazard(), fuel, addr, s, S);
  }
}
