/** Values, instances, the store, and what one non-control instruction does to them. */
module Runtime {
  import opened Syntax
  import Truncation

  /** A runtime value is 64 untyped bits. The tag names the type under which the bits were
      produced; no instruction ever looks at it, it exists for the typing theorems only. */
  datatype Val = Val(tag: ValType, bits: U64)

  const NULL_REF: U32 := 0xFFFF_FFFF

  function AsU32(v: Val): U32 { v.bits % 0x1_0000_0000 }

  function ToI32(x: U32): int { if x < 0x8000_0000 then x else x - 0x1_0000_0000 }

  function AsI32(v: Val): int { ToI32(AsU32(v)) }

  function ValI32(x: int): Val { Val(I32, x % 0x1_0000_0000) }

  function ValRef(t: ValType, r: U32): Val { Val(t, r) }

  datatype ModInst = ModInst(
    types: seq<FuncType>,
    funcaddrs: seq<U32>,
    tableaddrs: seq<U32>,
    memaddrs: seq<U32>,
    globaladdrs: seq<U32>,
    elemaddrs: seq<U32>,
    dataaddrs: seq<U32>)

  datatype FuncInst = FuncInst(ftype: FuncType, inst: ModInst, code: Func)

  /** `max == 0` stands for "no maximum", as the machine reads it. */
  datatype TableInst = TableInst(reftype: ValType, max: U32, elems: seq<U32>)

  /** `data` holds the bytes ever written; every other byte reads as zero. */
  datatype MemInst = MemInst(pages: nat, max: U32, data: map<int, Byte>)

  datatype GlobalInst = GlobalInst(t: ValType, mutable: bool, val: Val)

  datatype ElemInst = ElemInst(reftype: ValType, elems: seq<U32>)

  /** The interpretation of the numeric operators other than float-to-integer truncation:
      result bits, or the trap raised, looked up by opcode. */
  type Numerics = (int, seq<U64>) -> Result<U64>

  datatype Store = Store(
    funcs: seq<FuncInst>,
    tables: seq<TableInst>,
    mems: seq<MemInst>,
    globals: seq<GlobalInst>,
    elems: seq<ElemInst>,
    datas: seq<seq<Byte>>,
    num: Numerics)

  const WASM_PAGE_SIZE: nat := 0x1_0000
  const NUM_PAGE_MAX: nat := 0x1_0000

  // ---------------------------------------------------------------- linear memory

  function Get(data: map<int, Byte>, a: int): Byte { if a in data then data[a] else 0 }

  function ReadLE(data: map<int, Byte>, ea: int, n: nat): (v: nat)
    ensures v < Pow256(n)
    decreases n
  {
    if n == 0 then 0 else Get(data, ea) + 0x100 * ReadLE(data, ea + 1, n - 1)
  }

  function WriteLE(data: map<int, Byte>, ea: int, n: nat, v: nat): map<int, Byte>
    decreases n
  {
    if n == 0 then data else WriteLE(data[ea := v % 0x100], ea + 1, n - 1, v / 0x100)
  }

  function Pow256(n: nat): (p: nat)
    ensures p > 0
  {
    if n == 0 then 1 else 0x100 * Pow256(n - 1)
  }

  lemma Pow256Values()
    ensures Pow256(1) == 0x100 && Pow256(2) == 0x1_0000 && Pow256(4) == 0x1_0000_0000
    ensures Pow256(8) == 0x1_0000_0000_0000_0000
  {
    assert Pow256(4) == 0x100 * (0x100 * Pow256(2));
    assert Pow256(8) == 0x100 * (0x100 * (0x100 * (0x100 * Pow256(4))));
  }

  /** Two's complement widening of a `from`-bounded unsigned number to a `to`-bounded one. */
  function SignExtend(raw: nat, from: nat, to: nat): nat
    requires raw < from <= to
  {
    if raw < from / 2 then raw else raw + (to - from)
  }

  function ExtendLoaded(opcode: Byte, raw: nat): U64
    requires raw < Pow256(Width(opcode))
  {
    Pow256Values();
    if opcode == 0x2C then SignExtend(raw, 0x100, 0x1_0000_0000)
    else if opcode == 0x2E then SignExtend(raw, 0x1_0000, 0x1_0000_0000)
    else if opcode == 0x30 then SignExtend(raw, 0x100, 0x1_0000_0000_0000_0000)
    else if opcode == 0x32 then SignExtend(raw, 0x1_0000, 0x1_0000_0000_0000_0000)
    else if opcode == 0x34 then SignExtend(raw, 0x1_0000_0000, 0x1_0000_0000_0000_0000)
    else raw
  }

  predicate CrossesPage(ea: nat, n: nat) { n > 0 && ea / 0x1000 != (ea + n - 1) / 0x1000 }

  predicate OutOfBounds(ea: nat, n: nat, mem: MemInst) { ea + n > mem.pages * WASM_PAGE_SIZE }

  /** The number of pages after adding the signed delta in unsigned 64-bit arithmetic. */
  function GrownPages(pages: nat, delta: int): U64 { (pages + delta) % 0x1_0000_0000_0000_0000 }

  predicate GrowFails(mem: MemInst, delta: int) {
    (mem.max != 0 && GrownPages(mem.pages, delta) > mem.max) || GrownPages(mem.pages, delta) > NUM_PAGE_MAX
  }

  // Counts, addresses and indices of the loops below travel through signed 32-bit variables.
  const INT_MAX: int := 0x7FFF_FFFF
  const INT_MIN: int := -0x8000_0000

  predicate InI32(x: int) { INT_MIN <= x <= INT_MAX }

  // ---------------------------------------------------------------- bulk loops

  /** The byte loop of memory.copy; the direction is decided anew in every round. */
  function CopyBytes(data: map<int, Byte>, d: U32, s: U32, n: nat): map<int, Byte>
    decreases n
  {
    if n == 0 then data
    else if ToI32(d) <= ToI32(s) then
      CopyBytes(data[d as int := Get(data, s)], (d + 1) % 0x1_0000_0000, (s + 1) % 0x1_0000_0000, n - 1)
    else
      CopyBytes(data[(d + n - 1) % 0x1_0000_0000 := Get(data, (s + n - 1) % 0x1_0000_0000)], d, s, n - 1)
  }

  function FillBytes(data: map<int, Byte>, d: U32, b: Byte, n: nat): map<int, Byte>
    decreases n
  {
    if n == 0 then data else FillBytes(data[d as int := b], (d + 1) % 0x1_0000_0000, b, n - 1)
  }

  function InitBytes(data: map<int, Byte>, d: U32, src: seq<Byte>, s: nat, n: nat): map<int, Byte>
    requires s + n <= |src|
    decreases n
  {
    if n == 0 then data else InitBytes(data[d as int := src[s]], (d + 1) % 0x1_0000_0000, src, s + 1, n - 1)
  }

  /** The round-by-round loop of table.copy over all tables: `x` is written, `y` is read. */
  function CopyRefs(tables: seq<TableInst>, x: nat, y: nat, d: nat, s: nat, n: nat): (r: seq<TableInst>)
    requires x < |tables| && y < |tables|
    requires d + n <= |tables[x].elems| && s + n <= |tables[y].elems|
    ensures |r| == |tables|
    ensures forall i :: 0 <= i < |r| ==>
      r[i].reftype == tables[i].reftype && r[i].max == tables[i].max && |r[i].elems| == |tables[i].elems|
    decreases n
  {
    if n == 0 then tables
    else if d <= s then
      CopyRefs(SetRef(tables, x, d, tables[y].elems[s]), x, y, d + 1, s + 1, n - 1)
    else
      CopyRefs(SetRef(tables, x, d + n - 1, tables[y].elems[s + n - 1]), x, y, d, s, n - 1)
  }

  function SetRef(tables: seq<TableInst>, x: nat, i: nat, r: U32): seq<TableInst>
    requires x < |tables| && i < |tables[x].elems|
  {
    tables[x := tables[x].(elems := tables[x].elems[i := r])]
  }

  function InitRefs(elems: seq<U32>, d: nat, src: seq<U32>, s: nat, n: nat): (r: seq<U32>)
    requires d + n <= |elems| && s + n <= |src|
    ensures |r| == |elems|
    decreases n
  {
    if n == 0 then elems else InitRefs(elems[d := src[s]], d + 1, src, s + 1, n - 1)
  }

  // ---------------------------------------------------------------- where the loops overflow

  /** `a + n - 1`, as the C code adds it up. */
  predicate EndFits(a: U32, n: U32) { InI32(ToI32(a) + ToI32(n)) && InI32(ToI32(a) + ToI32(n) - 1) }

  /** Some round of the loop of memory.copy or table.copy overflows a signed variable. */
  predicate CopyOverflows(d: U32, s: U32, n: U32)
    decreases n
  {
    n != 0 &&
    (|| ToI32(n) == INT_MIN
     || if ToI32(d) <= ToI32(s) then
          ToI32(d) == INT_MAX || ToI32(s) == INT_MAX || CopyOverflows((d + 1) % 0x1_0000_0000, (s + 1) % 0x1_0000_0000, n - 1)
        else
          !EndFits(d, n) || !EndFits(s, n) || CopyOverflows(d, s, n - 1))
  }

  predicate FillOverflows(d: U32, n: U32)
    decreases n
  {
    n != 0 && (ToI32(n) == INT_MIN || ToI32(d) == INT_MAX || FillOverflows((d + 1) % 0x1_0000_0000, n - 1))
  }

  /** The same for memory.init and table.init, or `s` is negative and finds no entry of the segment. */
  predicate InitOverflows(d: U32, s: U32, n: U32)
    decreases n
  {
    n != 0 &&
    (|| ToI32(n) == INT_MIN || ToI32(s) < 0 || ToI32(s) == INT_MAX || ToI32(d) == INT_MAX
     || InitOverflows((d + 1) % 0x1_0000_0000, (s + 1) % 0x1_0000_0000, n - 1))
  }

  datatype Filled = Filled(elems: seq<U32>) | FillTraps | FillUB

  /** The loop of table.fill: the sum is checked in every round as an unsigned number, and a
      negative index finds no slot to write to. */
  function FillRefs(elems: seq<U32>, i: int, n: int, r: U32): (f: Filled)
    requires InI32(i) && InI32(n)
    ensures f.Filled? ==> |f.elems| == |elems| && forall k :: 0 <= k < |elems| ==> f.elems[k] == elems[k] || f.elems[k] == r
    decreases n - INT_MIN
  {
    if !InI32(i + n) then FillUB
    else if i + n < 0 || i + n > |elems| then FillTraps
    else if n == 0 then Filled(elems)
    else if !(0 <= i < |elems|) || i == INT_MAX || n == INT_MIN then FillUB
    else FillRefs(elems[i := r], i + 1, n - 1, r)
  }

  datatype Regrown = Regrown(elems: seq<U32>) | GrowRefused | GrowUB

  /** table.grow by `n`: the new size is computed in unsigned 64-bit arithmetic. A size that
      wraps around is more than can be allocated, and a negative count that does not shrinks
      the table. Allocating zero bytes, and counting new slots beyond the signed range, is left
      open. */
  function RegrowRefs(tab: TableInst, n: int, r: U32): Regrown
    requires InI32(n)
  {
    var size := |tab.elems| + n;
    if tab.max != 0 && (size < 0 || size > tab.max) then GrowRefused
    else if size < 0 then GrowRefused
    else if n == 0 then Regrown(tab.elems)
    else if size == 0 || (n > 0 && size > INT_MAX) then GrowUB
    else if n < 0 then Regrown(tab.elems[..size])
    else Regrown(tab.elems + seq(n, _ => r))
  }

  // ---------------------------------------------------------------- one plain instruction

  datatype Effect =
    | Did(results: seq<Val>, locals: seq<Val>, store: Store)
    | Traps(err: Error)
    | EffectUB // from here on the C language leaves open what happens
    | Wrong // a null or out-of-range pointer is followed

  function Pops(op: Plain): nat {
    match op
    case Drop => 1
    case Select => 3
    case SelectT(_) => 3
    case LocalSet(_) => 1
    case LocalTee(_) => 1
    case GlobalSet(_) => 1
    case TableGet(_) => 1
    case TableSet(_) => 2
    case Access(opcode, _, _) => if IsLoad(opcode) then 1 else 2
    case MemoryGrow => 1
    case Num(opcode) => (match NumSig(opcode) case Some(sig) => |sig.0| case None => 0)
    case RefIsNull => 1
    case TruncSat(_) => 1
    case MemoryInit(_) => 3
    case MemoryCopy => 3
    case MemoryFill => 3
    case TableInit(_, _) => 3
    case TableCopy(_, _) => 3
    case TableGrow(_) => 2
    case TableFill(_) => 3
    case _ => 0
  }

  /** Pushes performed after the operands are popped: local.tee pushes its operand twice
      and then falls through into local.set. */
  function Pushes(op: Plain): nat {
    match op
    case LocalTee(_) => 2
    case Drop => 0
    case LocalSet(_) => 0
    case GlobalSet(_) => 0
    case TableSet(_) => 0
    case Access(opcode, _, _) => if IsLoad(opcode) then 1 else 0
    case MemoryInit(_) => 0
    case DataDrop(_) => 0
    case MemoryCopy => 0
    case MemoryFill => 0
    case TableInit(_, _) => 0
    case ElemDrop(_) => 0
    case TableCopy(_, _) => 0
    case TableFill(_) => 0
    case _ => 1
  }

  /** What `op` does given its operands (deepest first), the locals of the current frame,
      the store and the current module instance. */
  function Perform(op: Plain, args: seq<Val>, locals: seq<Val>, S: Store, m: ModInst): Effect
    requires |args| == Pops(op)
  {
    match op
    case Drop => Did([], locals, S)
    case Select => Did([if AsI32(args[2]) != 0 then args[0] else args[1]], locals, S)
    case SelectT(_) => Did([if AsI32(args[2]) != 0 then args[0] else args[1]], locals, S)
    case LocalGet(x) => if x < |locals| then Did([locals[x]], locals, S) else Wrong
    case LocalSet(x) => if x < |locals| then Did([], locals[x := args[0]], S) else Wrong
    case LocalTee(x) => if x < |locals| then Did(args, locals[x := args[0]], S) else Wrong
    case Const(t, bits) => Did([Val(t, bits)], locals, S)
    case Num(opcode) => PerformNum(opcode, args, locals, S)
    case TruncSat(op2) => PerformTruncSat(op2, args, locals, S)
    case RefNull(t) => Did([ValRef(t, NULL_REF)], locals, S)
    case RefIsNull => Did([ValI32(if AsU32(args[0]) == NULL_REF then 1 else 0)], locals, S)
    case RefFunc(x) => if x < |m.funcaddrs| then Did([ValRef(FUNCREF, m.funcaddrs[x])], locals, S) else Wrong
    case GlobalGet(x) =>
      if ValidAddr(m.globaladdrs, x, |S.globals|) then
        Did([S.globals[m.globaladdrs[x]].val], locals, S)
      else Wrong
    case GlobalSet(x) =>
      if ValidAddr(m.globaladdrs, x, |S.globals|) then
        var a := m.globaladdrs[x];
        Did([], locals, S.(globals := S.globals[a := S.globals[a].(val := args[0])]))
      else Wrong
    case Access(opcode, _, offset) => PerformAccess(opcode, offset, args, locals, S, m)
    case MemorySize =>
      if ValidAddr(m.memaddrs, 0, |S.mems|) then Did([ValI32(S.mems[m.memaddrs[0]].pages)], locals, S) else Wrong
    case MemoryGrow => PerformGrow(args, locals, S, m)
    case MemoryInit(x) => PerformMemoryInit(x, args, locals, S, m)
    case DataDrop(x) =>
      if ValidAddr(m.dataaddrs, x, |S.datas|) then
        Did([], locals, S.(datas := S.datas[m.dataaddrs[x] := []]))
      else Wrong
    case MemoryCopy => PerformMemoryCopy(args, locals, S, m)
    case MemoryFill => PerformMemoryFill(args, locals, S, m)
    case ElemDrop(x) =>
      if ValidAddr(m.elemaddrs, x, |S.elems|) then
        var a := m.elemaddrs[x];
        Did([], locals, S.(elems := S.elems[a := S.elems[a].(elems := [])]))
      else Wrong
    case _ => PerformTable(op, args, locals, S, m)
  }

  predicate ValidAddr(addrs: seq<U32>, x: nat, bound: nat) { x < |addrs| && addrs[x] < bound }

  /** An operator on bit patterns; `0xFC op2` is numbered `0xFC00 + op2`. */
  function Numeric(S: Store, opcode: int, bits: seq<U64>): Result<U64> {
    if Truncation.Truncates(opcode) && |bits| == 1 then Truncation.TruncOp(opcode, bits[0]) else S.num(opcode, bits)
  }

  function PerformNum(opcode: Byte, args: seq<Val>, locals: seq<Val>, S: Store): Effect {
    match NumSig(opcode)
    case None => Wrong
    case Some((_, t)) =>
      match Numeric(S, opcode, BitsOf(args))
      case Ok(r) => Did([Val(t, r)], locals, S)
      case Err(e) => Traps(e)
  }

  function PerformTruncSat(op2: U32, args: seq<Val>, locals: seq<Val>, S: Store): Effect {
    match TruncSatSig(op2)
    case None => Wrong
    case Some((_, t)) =>
      match Numeric(S, 0xFC00 + op2, BitsOf(args))
      case Ok(r) => Did([Val(t, r)], locals, S)
      case Err(e) => Traps(e)
  }

  function BitsOf(vs: seq<Val>): seq<U64> { seq(|vs|, i requires 0 <= i < |vs| => vs[i].bits) }

  function PerformAccess(opcode: Byte, offset: U32, args: seq<Val>, locals: seq<Val>, S: Store, m: ModInst): Effect
    requires |args| == if IsLoad(opcode) then 1 else 2
  {
    if !(IsLoad(opcode) || IsStore(opcode)) || !ValidAddr(m.memaddrs, 0, |S.mems|) then Wrong else
    var a := m.memaddrs[0];
    var mem := S.mems[a];
    var ea := AsU32(args[0]) + offset;
    var n := Width(opcode);
    if OutOfBounds(ea, n, mem) then Traps(TrapOutOfBoundsMemoryAccess)
    else if CrossesPage(ea, n) then EffectUB
    else if IsLoad(opcode) then
      Did([Val(AccessType(opcode), ExtendLoaded(opcode, ReadLE(mem.data, ea, n)))], locals, S)
    else
      Did([], locals, S.(mems := S.mems[a := mem.(data := WriteLE(mem.data, ea, n, args[1].bits))]))
  }

  function PerformGrow(args: seq<Val>, locals: seq<Val>, S: Store, m: ModInst): Effect
    requires |args| == 1
  {
    if !ValidAddr(m.memaddrs, 0, |S.mems|) then Wrong else
    var a := m.memaddrs[0];
    var mem := S.mems[a];
    var n := AsI32(args[0]);
    if GrowFails(mem, n) then Did([ValI32(-1)], locals, S)
    else Did([ValI32(mem.pages)], locals, S.(mems := S.mems[a := mem.(pages := GrownPages(mem.pages, n))]))
  }

  function PerformMemoryInit(x: U32, args: seq<Val>, locals: seq<Val>, S: Store, m: ModInst): Effect
    requires |args| == 3
  {
    if !ValidAddr(m.memaddrs, 0, |S.mems|) || !ValidAddr(m.dataaddrs, x, |S.datas|) then Wrong else
    var a := m.memaddrs[0];
    var mem := S.mems[a];
    var src := S.datas[m.dataaddrs[x]];
    var d, s, n := AsU32(args[0]), AsU32(args[1]), AsU32(args[2]);
    if s + n > |src| || OutOfBounds(d, n, mem) then Traps(TrapOutOfBoundsMemoryAccess)
    else if InitOverflows(d, s, n) then EffectUB
    else Did([], locals, S.(mems := S.mems[a := mem.(data := InitBytes(mem.data, d, src, s, n))]))
  }

  function PerformMemoryCopy(args: seq<Val>, locals: seq<Val>, S: Store, m: ModInst): Effect
    requires |args| == 3
  {
    if !ValidAddr(m.memaddrs, 0, |S.mems|) then Wrong else
    var a := m.memaddrs[0];
    var mem := S.mems[a];
    var d, s, n := AsU32(args[0]), AsU32(args[1]), AsU32(args[2]);
    if OutOfBounds(s, n, mem) || OutOfBounds(d, n, mem) then Traps(TrapOutOfBoundsMemoryAccess)
    else if CopyOverflows(d, s, n) then EffectUB
    else Did([], locals, S.(mems := S.mems[a := mem.(data := CopyBytes(mem.data, d, s, n))]))
  }

  function PerformMemoryFill(args: seq<Val>, locals: seq<Val>, S: Store, m: ModInst): Effect
    requires |args| == 3
  {
    if !ValidAddr(m.memaddrs, 0, |S.mems|) then Wrong else
    var a := m.memaddrs[0];
    var mem := S.mems[a];
    var d, b, n := AsU32(args[0]), AsU32(args[1]) % 0x100, AsU32(args[2]);
    if OutOfBounds(d, n, mem) then Traps(TrapOutOfBoundsMemoryAccess)
    else if FillOverflows(d, n) then EffectUB
    else Did([], locals, S.(mems := S.mems[a := mem.(data := FillBytes(mem.data, d, b, n))]))
  }

  function PerformTable(op: Plain, args: seq<Val>, locals: seq<Val>, S: Store, m: ModInst): Effect
    requires |args| == Pops(op)
  {
    match op
    case TableGet(x) =>
      if !ValidAddr(m.tableaddrs, x, |S.tables|) then Wrong else
      var tab := S.tables[m.tableaddrs[x]];
      var i := AsI32(args[0]);
      if !(0 <= i < |tab.elems|) then Traps(TrapOutOfBoundsTableAccess)
      else Did([ValRef(tab.reftype, tab.elems[i])], locals, S)
    case TableSet(x) =>
      if !ValidAddr(m.tableaddrs, x, |S.tables|) then Wrong else
      var a := m.tableaddrs[x];
      var i := AsI32(args[0]);
      if !(0 <= i < |S.tables[a].elems|) then Traps(TrapOutOfBoundsTableAccess)
      else Did([], locals, S.(tables := SetRef(S.tables, a, i, AsU32(args[1]))))
    case TableSize(x) =>
      if !ValidAddr(m.tableaddrs, x, |S.tables|) then Wrong
      else Did([ValI32(|S.tables[m.tableaddrs[x]].elems|)], locals, S)
    case TableGrow(x) =>
      if !ValidAddr(m.tableaddrs, x, |S.tables|) then Wrong else
      var a := m.tableaddrs[x];
      var tab := S.tables[a];
      (match RegrowRefs(tab, AsI32(args[1]), AsU32(args[0]))
       case GrowRefused => Did([ValI32(-1)], locals, S)
       case GrowUB => EffectUB
       case Regrown(elems) => Did([ValI32(|tab.elems|)], locals, S.(tables := S.tables[a := tab.(elems := elems)])))
    case TableFill(x) =>
      if !ValidAddr(m.tableaddrs, x, |S.tables|) then Wrong else
      var a := m.tableaddrs[x];
      var tab := S.tables[a];
      (match FillRefs(tab.elems, AsI32(args[0]), AsI32(args[2]), AsU32(args[1]))
       case FillTraps => Traps(TrapOutOfBoundsTableAccess)
       case FillUB => EffectUB
       case Filled(elems) => Did([], locals, S.(tables := S.tables[a := tab.(elems := elems)])))
    case TableInit(x, y) =>
      if !ValidAddr(m.tableaddrs, x, |S.tables|) || !ValidAddr(m.elemaddrs, y, |S.elems|) then Wrong else
      var a := m.tableaddrs[x];
      var tab := S.tables[a];
      var src := S.elems[m.elemaddrs[y]].elems;
      var d, s, n := AsU32(args[0]), AsU32(args[1]), AsU32(args[2]);
      if s + n > |src| || d + n > |tab.elems| then Traps(TrapOutOfBoundsTableAccess)
      else if InitOverflows(d, s, n) || (n != 0 && ToI32(d) < 0) then EffectUB
      else Did([], locals, S.(tables := S.tables[a := tab.(elems := InitRefs(tab.elems, d, src, s, n))]))
    case TableCopy(x, y) =>
      if !ValidAddr(m.tableaddrs, x, |S.tables|) || !ValidAddr(m.tableaddrs, y, |S.tables|) then Wrong else
      var ax, ay := m.tableaddrs[x], m.tableaddrs[y];
      var d, s, n := AsU32(args[0]), AsU32(args[1]), AsU32(args[2]);
      if s + n > |S.tables[ay].elems| || d + n > |S.tables[ax].elems| then Traps(TrapOutOfBoundsTableAccess)
      else if CopyOverflows(d, s, n) || (n != 0 && (ToI32(d) < 0 || ToI32(s) < 0)) then EffectUB
      else Did([], locals, S.(tables := CopyRefs(S.tables, ax, ay, d, s, n)))
    case _ => Wrong
  }
}
