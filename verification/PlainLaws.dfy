/** What plain instructions do to their operands and to the store, said by other instructions:
    what a null test tells, what a size bounds, what is gone after a drop. */
module PlainLaws {
  import opened Syntax
  import opened Runtime
  import opened Machine
  import opened Typing
  import opened MemoryLaws
  import opened AccessLaws
  import opened TypeSystem

  // ---------------------------------------------------------------- operands and locals

  /** select keeps its first operand when the condition is not zero, else its second. */
  lemma SelectChooses(types: seq<ValType>, a: Val, b: Val, c: Val, locals: seq<Val>, S: Store, m: ModInst)
    ensures Perform(Select, [a, b, c], locals, S, m) == Perform(SelectT(types), [a, b, c], locals, S, m)
    ensures c.bits % 0x1_0000_0000 != 0 ==> Perform(Select, [a, b, c], locals, S, m) == Did([a], locals, S)
    ensures c.bits % 0x1_0000_0000 == 0 ==> Perform(Select, [a, b, c], locals, S, m) == Did([b], locals, S)
  {
  }

  /** local.tee leaves its operand, and local.get then finds it, as after local.set. */
  lemma TeeThenRead(x: U32, v: Val, locals: seq<Val>, S: Store, m: ModInst)
    requires x < |locals|
    ensures var t, set_ := Perform(LocalTee(x), [v], locals, S, m), Perform(LocalSet(x), [v], locals, S, m);
            && t.Did? && t.results == [v] && t.store == S && set_ == Did([], t.locals, S)
            && Perform(LocalGet(x), [], t.locals, S, m) == Did([v], t.locals, S)
            && forall y: U32 :: y < |locals| && y != x ==> Perform(LocalGet(y), [], t.locals, S, m) == Did([locals[y]], t.locals, S)
  {
  }

  // ---------------------------------------------------------------- references

  /** ref.is_null says 1 of exactly the references with the bits of ref.null, and 0 of all others. */
  lemma NullTest(t: ValType, r: Val, locals: seq<Val>, S: Store, m: ModInst)
    ensures var null_ := Perform(RefNull(t), [], locals, S, m);
            && null_.Did? && |null_.results| == 1 && null_ == Did(null_.results, locals, S) && null_.results[0].tag == t
            && Perform(RefIsNull, null_.results, locals, S, m) == Did([Val(I32, 1)], locals, S)
            && Perform(RefIsNull, [r], locals, S, m)
               == Did([Val(I32, if AsU32(r) == AsU32(null_.results[0]) then 1 else 0)], locals, S)
  {
  }

  /** A function that is there is not null. */
  lemma FuncIsNotNull(x: U32, locals: seq<Val>, S: Store, m: ModInst)
    requires x < |m.funcaddrs| && m.funcaddrs[x] < |S.funcs| < 0x1_0000_0000
    ensures var r := Perform(RefFunc(x), [], locals, S, m);
            && r.Did? && |r.results| == 1 && AsU32(r.results[0]) == m.funcaddrs[x]
            && Perform(RefIsNull, r.results, locals, S, m) == Did([Val(I32, 0)], locals, S)
  {
  }

  // ---------------------------------------------------------------- sizes

  /** memory.size is what bounds the addresses: the byte at an address can be loaded exactly when
      the address is below the size in pages of 65536 bytes. */
  lemma MemorySizeBounds(base: Val, locals: seq<Val>, S: Store, m: ModInst)
    requires ValidAddr(m.memaddrs, 0, |S.mems|) && S.mems[m.memaddrs[0]].pages <= 0x1_0000
    ensures var size, byte := Perform(MemorySize, [], locals, S, m), Perform(Access(0x2D, 0, 0), [base], locals, S, m);
            && size.Did? && |size.results| == 1 && size == Did(size.results, locals, S) && size.results[0].tag == I32
            && (byte == Traps(TrapOutOfBoundsMemoryAccess) <==> AsU32(base) >= size.results[0].bits * 0x1_0000)
            && (byte.Did? <==> AsU32(base) < size.results[0].bits * 0x1_0000)
  {
    LoadIs(0x2D, 1, I32, 0, 0, base, locals, S, m);
  }

  /** memory.grow pushes the size before; after it memory.size pushes the size it was given. */
  lemma GrowThenSize(n: Val, locals: seq<Val>, S: Store, m: ModInst)
    requires ValidAddr(m.memaddrs, 0, |S.mems|) && MemsOk(S) && AsI32(n) >= 0
    ensures var g := Perform(MemoryGrow, [n], locals, S, m);
            && g.Did? && |g.results| == 1
            && (g.results != [ValI32(-1)] ==>
                  && g.results == Perform(MemorySize, [], locals, S, m).results
                  && Perform(MemorySize, [], locals, g.store, m) == Did([Val(I32, g.results[0].bits + AsI32(n))], locals, g.store))
  {
    assert MemOk(S.mems[m.memaddrs[0]]);
  }

  /** table.size bounds the indices of table.get and table.set. */
  lemma TableSizeBounds(x: U32, i: Val, r: Val, locals: seq<Val>, S: Store, m: ModInst)
    requires ValidAddr(m.tableaddrs, x, |S.tables|) && |S.tables[m.tableaddrs[x]].elems| <= INT_MAX
    ensures var size := Perform(TableSize(x), [], locals, S, m);
            var get, put := Perform(TableGet(x), [i], locals, S, m), Perform(TableSet(x), [i, r], locals, S, m);
            && size.Did? && |size.results| == 1 && size == Did(size.results, locals, S) && size.results[0].tag == I32
            && (get.Did? <==> AsU32(i) < size.results[0].bits) && (put.Did? <==> AsU32(i) < size.results[0].bits)
            && (!get.Did? ==> get == put == Traps(TrapOutOfBoundsTableAccess))
  {
  }

  // ---------------------------------------------------------------- dropped segments

  /** After data.drop, memory.init from that segment traps unless it copies nothing from its
      start; memory.init from a segment at another address does what it did. */
  lemma DropEmptiesData(x: U32, y: U32, d: Val, s: Val, n: Val, locals: seq<Val>, S: Store, m: ModInst)
    requires ValidAddr(m.dataaddrs, x, |S.datas|) && ValidAddr(m.dataaddrs, y, |S.datas|) && ValidAddr(m.memaddrs, 0, |S.mems|)
    ensures var drop := Perform(DataDrop(x), [], locals, S, m);
            && drop.Did? && drop.results == [] && drop.locals == locals && drop.store == S.(datas := drop.store.datas)
            && var before, after := Perform(MemoryInit(y), [d, s, n], locals, S, m), Perform(MemoryInit(y), [d, s, n], locals, drop.store, m);
               && (m.dataaddrs[x] == m.dataaddrs[y] && AsU32(s) + AsU32(n) > 0 ==> after == Traps(TrapOutOfBoundsMemoryAccess))
               && (m.dataaddrs[x] != m.dataaddrs[y] ==>
                     after == if before.Did? then Did(before.results, locals, before.store.(datas := drop.store.datas)) else before)
  {
    hide InitBytes, InitOverflows;
  }

  /** The same for elem.drop and table.init. */
  lemma DropEmptiesElem(x: U32, y: U32, t: U32, d: Val, s: Val, n: Val, locals: seq<Val>, S: Store, m: ModInst)
    requires ValidAddr(m.elemaddrs, x, |S.elems|) && ValidAddr(m.elemaddrs, y, |S.elems|) && ValidAddr(m.tableaddrs, t, |S.tables|)
    ensures var drop := Perform(ElemDrop(x), [], locals, S, m);
            && drop.Did? && drop.results == [] && drop.locals == locals && drop.store == S.(elems := drop.store.elems)
            && var before, after := Perform(TableInit(t, y), [d, s, n], locals, S, m), Perform(TableInit(t, y), [d, s, n], locals, drop.store, m);
               && (m.elemaddrs[x] == m.elemaddrs[y] && AsU32(s) + AsU32(n) > 0 ==> after == Traps(TrapOutOfBoundsTableAccess))
               && (m.elemaddrs[x] != m.elemaddrs[y] ==>
                     after == if before.Did? then Did(before.results, locals, before.store.(elems := drop.store.elems)) else before)
  {
    hide InitRefs, InitOverflows;
  }

  // ---------------------------------------------------------------- operators

  /** A numeric instruction other than a truncation applies its operator to the bits of its
      operands, in their order, and gives the result the type of the standard's rule. */
  lemma OperatorApplied(opcode: Byte, args: seq<Val>, a: seq<ValType>, t: ValType, locals: seq<Val>, S: Store, m: ModInst)
    requires NumRule(opcode, a, t) && |args| == |a| && !(0xA8 <= opcode <= 0xAB) && !(0xAE <= opcode <= 0xB1)
    ensures Pops(Num(opcode)) == |a| && 1 <= |a| <= 2
    ensures Perform(Num(opcode), args, locals, S, m) ==
            match S.num(opcode, if |a| == 1 then [args[0].bits] else [args[0].bits, args[1].bits])
            case Ok(bits) => Did([Val(t, bits)], locals, S)
            case Err(e) => Traps(e)
  {
    NumIsSig(opcode, a, t);
    assert BitsOf(args) == if |a| == 1 then [args[0].bits] else [args[0].bits, args[1].bits];
  }

  // ---------------------------------------------------------------- room

  /** An accepted instruction needs room for exactly the results it pushes; local.tee, which
      pushes its operand twice, for one more. */
  lemma RoomIsResults(C: Context, op: Plain, a: seq<ValType>, r: seq<ValType>)
    requires Rule(C, op, a, r)
    ensures Pops(op) == |a| && Pushes(op) == |r| + if op.LocalTee? then 1 else 0
  {
    RuleIsChecked(C, op, a, r);
  }

  /** The stack holds as many 48-byte entries as fit into 65536 bytes. */
  lemma RoomOfStack()
    ensures CAPACITY * 48 <= 65536 < (CAPACITY + 1) * 48
  {
  }
}
