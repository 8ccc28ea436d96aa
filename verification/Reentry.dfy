/** The bulk operations as the machine runs them: a loop over signed 32-bit variables that
    pushes operands and re-enters the machine with a one- or two-instruction list for every
    byte or element. */
module Reentry {
  import opened Syntax
  import opened Runtime
  import opened Machine
  import opened Semantics
  import opened StackLemmas
  import opened Bulk

  const STORE8: Code := Cons(Instr.Plain(Access(0x3A, 0, 0)), Nil)
  const LOAD_STORE: Code := Cons(Instr.Plain(Access(0x2D, 0, 0)), STORE8)

  function SetRefCode(x: U32): Code { Cons(Instr.Plain(TableSet(x)), Nil) }

  function GetSetCode(x: U32, y: U32): Code { Cons(Instr.Plain(TableGet(y)), SetRefCode(x)) }

  function Push2(s: Stk, a: Val, b: Val): Stk { s + OVals([a, b]) }

  // ---------------------------------------------------------------- the loops

  /** memory.copy after its bounds check, with `s` the stack below the three operands. RunUB
      where a signed variable overflows. */
  function CopyRounds(s: Stk, S: Store, fi: nat, d: U32, src: U32, n: U32): Run
    decreases n
  {
    if n == 0 then Done(s, S, 0)
    else if |s| + 2 > CAPACITY then Trapped(TrapCallStackExhausted, S)
    else if ToI32(d) <= ToI32(src) then
      match Exec(2, LOAD_STORE, fi, Push2(s, ValI32(d), ValI32(src)), S)
      case Done(s', S', _) =>
        if ToI32(d) == INT_MAX || ToI32(src) == INT_MAX || ToI32(n) == INT_MIN then RunUB
        else CopyRounds(s', S', fi, (d + 1) % SPACE, (src + 1) % SPACE, n - 1)
      case r => r
    else if !EndFits(d, n) || !EndFits(src, n) then RunUB
    else
      match Exec(2, LOAD_STORE, fi, Push2(s, ValI32(d + n - 1), ValI32(src + n - 1)), S)
      case Done(s', S', _) => if ToI32(n) == INT_MIN then RunUB else CopyRounds(s', S', fi, d, src, n - 1)
      case r => r
  }

  function FillRounds(s: Stk, S: Store, fi: nat, d: U32, val: U32, n: U32): Run
    decreases n
  {
    if n == 0 then Done(s, S, 0)
    else if ToI32(n) == INT_MIN then RunUB
    else if |s| + 2 > CAPACITY then Trapped(TrapCallStackExhausted, S)
    else
      match Exec(1, STORE8, fi, Push2(s, ValI32(d), ValI32(val)), S)
      case Done(s', S', _) => if ToI32(d) == INT_MAX then RunUB else FillRounds(s', S', fi, (d + 1) % SPACE, val, n - 1)
      case r => r
  }

  /** memory.init; a negative `src` finds no byte, and the null pointer is followed. */
  function InitRounds(s: Stk, S: Store, fi: nat, d: U32, bytes: seq<Byte>, src: U32, n: U32): Run
    requires src + n <= |bytes|
    decreases n
  {
    if n == 0 then Done(s, S, 0)
    else if ToI32(n) == INT_MIN || ToI32(src) < 0 then RunUB
    else if |s| + 2 > CAPACITY then Trapped(TrapCallStackExhausted, S)
    else
      match Exec(1, STORE8, fi, Push2(s, ValI32(d), ValI32(bytes[src])), S)
      case Done(s', S', _) =>
        if ToI32(src) == INT_MAX || ToI32(d) == INT_MAX then RunUB
        else InitRounds(s', S', fi, (d + 1) % SPACE, bytes, src + 1, n - 1)
      case r => r
  }

  /** table.copy: every round pops `d`, `src` and `n`, checks the bounds again, and pushes
      the operands of the next round; `s` is the stack once they are popped. A trap of the
      inner instructions, on an index that is negative as an int, is ignored by the C code,
      which goes on with an operand left over; it is not followed further here. */
  function TableCopyRounds(s: Stk, S: Store, fi: nat, m: ModInst, x: U32, y: U32, d: U32, src: U32, n: U32): Run
    decreases n
  {
    if !ValidAddr(m.tableaddrs, x, |S.tables|) || !ValidAddr(m.tableaddrs, y, |S.tables|) then Stuck
    else if src + n > |S.tables[m.tableaddrs[y]].elems| || d + n > |S.tables[m.tableaddrs[x]].elems| then
      Trapped(TrapOutOfBoundsTableAccess, S)
    else if n == 0 then Done(s, S, 0)
    else if |s| + 3 > CAPACITY then Trapped(TrapCallStackExhausted, S)
    else if ToI32(d) <= ToI32(src) then
      match Exec(2, GetSetCode(x, y), fi, Push2(s, ValI32(d), ValI32(src)), S)
      case Done(s', S', _) =>
        if ToI32(d) == INT_MAX || ToI32(src) == INT_MAX || ToI32(n) == INT_MIN then RunUB
        else TableCopyRounds(s', S', fi, m, x, y, (d + 1) % SPACE, (src + 1) % SPACE, n - 1)
      case _ => RunUB
    else if !EndFits(d, n) || !EndFits(src, n) then RunUB
    else
      match Exec(2, GetSetCode(x, y), fi, Push2(s, ValI32(d + n - 1), ValI32(src + n - 1)), S)
      case Done(s', S', _) =>
        if ToI32(n) == INT_MIN then RunUB else TableCopyRounds(s', S', fi, m, x, y, d, src, n - 1)
      case _ => RunUB
  }

  function TableInitRounds(s: Stk, S: Store, fi: nat, m: ModInst, x: U32, y: U32, d: U32, src: U32, n: U32): Run
    decreases n
  {
    if !ValidAddr(m.tableaddrs, x, |S.tables|) || !ValidAddr(m.elemaddrs, y, |S.elems|) then Stuck else
    var elem := S.elems[m.elemaddrs[y]];
    if src + n > |elem.elems| || d + n > |S.tables[m.tableaddrs[x]].elems| then
      Trapped(TrapOutOfBoundsTableAccess, S)
    else if n == 0 then Done(s, S, 0)
    else if ToI32(src) < 0 then RunUB
    else if |s| + 3 > CAPACITY then Trapped(TrapCallStackExhausted, S)
    else
      match Exec(1, SetRefCode(x), fi, Push2(s, ValI32(d), ValRef(elem.reftype, elem.elems[src])), S)
      case Done(s', S', _) =>
        if ToI32(d) == INT_MAX || ToI32(src) == INT_MAX || ToI32(n) == INT_MIN then RunUB
        else TableInitRounds(s', S', fi, m, x, y, (d + 1) % SPACE, (src + 1) % SPACE, n - 1)
      case _ => RunUB
  }

  // ---------------------------------------------------------------- one instruction on top of a stack

  lemma PlainOnTop(op: Plain, next: Code, fi: nat, s: Stk, args: seq<Val>, S: Store, results: seq<Val>, S': Store)
    requires fi < |s| && s[fi].OFrame? && |args| == Pops(op) && |s| + Pushes(op) <= CAPACITY
    requires Perform(op, args, s[fi].locals, S, s[fi].inst) == Did(results, s[fi].locals, S')
    ensures StepPlain(op, next, fi, s + OVals(args), S) == Next(next, s + OVals(results), S')
  {
    hide Perform, Pushes, CanPop, Top, Below;
    PopOf(s, args, |args|);
    assert (s + OVals(args))[fi] == s[fi];
    assert Take(args, |args|) == args && Drop'(args, |args|) == [];
    assert s + OVals([]) == s;
    assert s[fi := s[fi].(locals := s[fi].locals)] == s;
  }

  lemma ExecPlain(fuel: nat, op: Plain, next: Code, fi: nat, s: Stk, args: seq<Val>, S: Store, results: seq<Val>, S': Store)
    requires fi < |s| && s[fi].OFrame? && |args| == Pops(op) && |s| + Pushes(op) <= CAPACITY && fuel > 0
    requires Perform(op, args, s[fi].locals, S, s[fi].inst) == Did(results, s[fi].locals, S')
    ensures Exec(fuel, Cons(Instr.Plain(op), next), fi, s + OVals(args), S) == Exec(fuel - 1, next, fi, s + OVals(results), S')
  {
    hide Perform, StepPlain, Pops, Pushes;
    PlainOnTop(op, next, fi, s, args, S, results, S');
    assert (s + OVals(args))[fi] == s[fi];
  }

  function WithData(S: Store, a: nat, data: map<int, Byte>): Store
    requires a < |S.mems|
  {
    S.(mems := S.mems[a := S.mems[a].(data := data)])
  }

  /** The byte written at `d`: below the bounds, no trap, and the stack is as before. */
  lemma StoreByte(fuel: nat, fi: nat, s: Stk, d: U32, v: Val, S: Store)
    requires fi < |s| <= CAPACITY && s[fi].OFrame? && ValidAddr(s[fi].inst.memaddrs, 0, |S.mems|) && fuel > 0
    requires d < S.mems[s[fi].inst.memaddrs[0]].pages * WASM_PAGE_SIZE
    ensures var a := s[fi].inst.memaddrs[0];
            Exec(fuel, STORE8, fi, Push2(s, ValI32(d), v), S) ==
            Done(s, WithData(S, a, S.mems[a].data[d as int := v.bits % 0x100]), fuel - 1)
  {
    hide Exec;
    var a := s[fi].inst.memaddrs[0];
    var data := S.mems[a].data;
    assert WriteLE(data, d, 1, v.bits) == data[d as int := v.bits % 0x100] by { WriteOne(data, d, v.bits); }
    var S' := WithData(S, a, data[d as int := v.bits % 0x100]);
    assert AsU32(ValI32(d)) == d;
    ExecPlain(fuel, Access(0x3A, 0, 0), Nil, fi, s, [ValI32(d), v], S, [], S');
    assert s + OVals([]) == s;
    ExecNil(fuel - 1, fi, s, S');
  }

  lemma ExecNil(fuel: nat, fi: nat, s: Stk, S: Store)
    ensures Exec(fuel, Nil, fi, s, S) == Done(s, S, fuel)
  {
  }

  lemma LoadStoreByte(fi: nat, s: Stk, d: U32, src: U32, S: Store)
    requires fi < |s| && s[fi].OFrame? && |s| + 2 <= CAPACITY && ValidAddr(s[fi].inst.memaddrs, 0, |S.mems|)
    requires d < S.mems[s[fi].inst.memaddrs[0]].pages * WASM_PAGE_SIZE
    requires src < S.mems[s[fi].inst.memaddrs[0]].pages * WASM_PAGE_SIZE
    ensures var a := s[fi].inst.memaddrs[0];
            Exec(2, LOAD_STORE, fi, Push2(s, ValI32(d), ValI32(src)), S) ==
            Done(s, WithData(S, a, S.mems[a].data[d as int := Get(S.mems[a].data, src)]), 0)
  {
    hide Exec, StepPlain, ReadLE, WriteLE;
    var a := s[fi].inst.memaddrs[0];
    ReadOne(S.mems[a].data, src);
    var v := Val(I32, Get(S.mems[a].data, src));
    var s1 := s + OVals([ValI32(d)]);
    assert Push2(s, ValI32(d), ValI32(src)) == s1 + OVals([ValI32(src)]);
    assert s1 + OVals([v]) == Push2(s, ValI32(d), v);
    assert AsU32(ValI32(src)) == src && s1[fi] == s[fi];
    ExecPlain(2, Access(0x2D, 0, 0), STORE8, fi, s1, [ValI32(src)], S, [v], S);
    StoreByte(1, fi, s, d, v, S);
  }

  // ---------------------------------------------------------------- the loops are the bulk functions

  ghost predicate ReadyMem(fi: nat, s: Stk, S: Store) {
    fi < |s| && s[fi].OFrame? && |s| + 2 <= CAPACITY && ValidAddr(s[fi].inst.memaddrs, 0, |S.mems|)
  }

  ghost function MemAt(fi: nat, s: Stk, S: Store): MemInst
    requires ReadyMem(fi, s, S)
  {
    S.mems[s[fi].inst.memaddrs[0]]
  }

  lemma CopyRoundUp(s: Stk, S: Store, fi: nat, d: U32, src: U32, n: U32)
    requires ReadyMem(fi, s, S) && n > 0 && ToI32(d) <= ToI32(src)
    requires !OutOfBounds(d, n, MemAt(fi, s, S)) && !OutOfBounds(src, n, MemAt(fi, s, S))
    ensures var data := MemAt(fi, s, S).data;
            CopyRounds(s, S, fi, d, src, n) ==
            if ToI32(d) == INT_MAX || ToI32(src) == INT_MAX || ToI32(n) == INT_MIN then RunUB
            else CopyRounds(s, WithData(S, s[fi].inst.memaddrs[0], data[d as int := Get(data, src)]), fi, (d + 1) % SPACE, (src + 1) % SPACE, n - 1)
  {
    hide Exec, ToI32;
    LoadStoreByte(fi, s, d, src, S);
  }

  lemma CopyRoundDown(s: Stk, S: Store, fi: nat, d: U32, src: U32, n: U32)
    requires ReadyMem(fi, s, S) && n > 0 && ToI32(d) > ToI32(src) && MemAt(fi, s, S).pages <= NUM_PAGE_MAX
    requires !OutOfBounds(d, n, MemAt(fi, s, S)) && !OutOfBounds(src, n, MemAt(fi, s, S))
    ensures var data := MemAt(fi, s, S).data;
            CopyRounds(s, S, fi, d, src, n) ==
            if !EndFits(d, n) || !EndFits(src, n) || ToI32(n) == INT_MIN then RunUB
            else CopyRounds(s, WithData(S, s[fi].inst.memaddrs[0], data[d + n - 1 := Get(data, src + n - 1)]), fi, d, src, n - 1)
  {
    hide Exec, ToI32, EndFits;
    LoadStoreByte(fi, s, d + n - 1, src + n - 1, S);
  }

  /** memory.copy by re-entry: no round traps, the stack is as it was below the operands, and
      the bytes are those of CopyBytes, unless an overflow comes first. */
  lemma {:induction false} CopyRoundsAre(s: Stk, S: Store, fi: nat, d: U32, src: U32, n: U32)
    requires ReadyMem(fi, s, S) && MemAt(fi, s, S).pages <= NUM_PAGE_MAX
    requires !OutOfBounds(d, n, MemAt(fi, s, S)) && !OutOfBounds(src, n, MemAt(fi, s, S))
    ensures CopyRounds(s, S, fi, d, src, n) ==
            if CopyOverflows(d, src, n) then RunUB
            else Done(s, WithData(S, s[fi].inst.memaddrs[0], CopyBytes(MemAt(fi, s, S).data, d, src, n)), 0)
    decreases n
  {
    hide Exec, CopyBytes, CopyRounds, CopyOverflows, EndFits;
    var a := s[fi].inst.memaddrs[0];
    var data := S.mems[a].data;
    if n == 0 {
      CopyRoundsNone(s, S, fi, d, src);
      CopyNone(data, d, src);
      CopyOverflowsStep(d, src, n);
    } else if ToI32(d) <= ToI32(src) {
      CopyRoundUp(s, S, fi, d, src, n);
      var data' := data[d as int := Get(data, src)];
      if n == 1 {
        CopyOne(data, d, src);
        CopyOverflowsStep(d, src, n);
        CopyOverflowsNone((d + 1) % SPACE, (src + 1) % SPACE);
        CopyRoundsNone(s, WithData(S, a, data'), fi, (d + 1) % SPACE, (src + 1) % SPACE);
      } else {
        CopyUp(data, d, src, n);
        CopyOverflowsStep(d, src, n);
        Small(d + 1);
        Small(src + 1);
        CopyRoundsAre(s, WithData(S, a, data'), fi, d + 1, src + 1, n - 1);
      }
    } else {
      CopyRoundDown(s, S, fi, d, src, n);
      var data' := data[d + n - 1 := Get(data, src + n - 1)];
      if n == 1 {
        CopyOne(data, d, src);
        CopyOverflowsStep(d, src, n);
        CopyOverflowsNone(d, src);
        CopyRoundsNone(s, WithData(S, a, data'), fi, d, src);
      } else {
        CopyDown(data, d, src, n);
        CopyOverflowsStep(d, src, n);
        CopyRoundsAre(s, WithData(S, a, data'), fi, d, src, n - 1);
      }
    }
  }

  lemma InitOverflowsNone(d: U32, src: U32)
    ensures src < HALF - 1 ==> !InitOverflows((d + 1) % SPACE, src + 1, 0)
  {
  }

  lemma CopyOverflowsNone(d: U32, src: U32)
    ensures !CopyOverflows(d, src, 0)
  {
  }

  lemma CopyRoundsNone(s: Stk, S: Store, fi: nat, d: U32, src: U32)
    ensures CopyRounds(s, S, fi, d, src, 0) == Done(s, S, 0)
  {
  }

  lemma FillRound(s: Stk, S: Store, fi: nat, d: U32, val: U32, n: U32)
    requires ReadyMem(fi, s, S) && n > 0 && !OutOfBounds(d, n, MemAt(fi, s, S))
    ensures FillRounds(s, S, fi, d, val, n) ==
            if ToI32(n) == INT_MIN || ToI32(d) == INT_MAX then RunUB
            else FillRounds(s, WithData(S, s[fi].inst.memaddrs[0], MemAt(fi, s, S).data[d as int := val % 0x100]), fi, (d + 1) % SPACE, val, n - 1)
  {
    hide Exec;
    StoreByte(1, fi, s, d, ValI32(val), S);
  }

  lemma {:induction false} FillRoundsAre(s: Stk, S: Store, fi: nat, d: U32, val: U32, n: U32)
    requires ReadyMem(fi, s, S) && MemAt(fi, s, S).pages <= NUM_PAGE_MAX && !OutOfBounds(d, n, MemAt(fi, s, S))
    ensures FillRounds(s, S, fi, d, val, n) ==
            if FillOverflows(d, n) then RunUB
            else Done(s, WithData(S, s[fi].inst.memaddrs[0], FillBytes(MemAt(fi, s, S).data, d, val % 0x100, n)), 0)
    decreases n
  {
    hide Exec;
    var a := s[fi].inst.memaddrs[0];
    if n > 0 {
      FillRound(s, S, fi, d, val, n);
      if n > 1 {
        FillRoundsAre(s, WithData(S, a, S.mems[a].data[d as int := val % 0x100]), fi, d + 1, val, n - 1);
      }
    }
  }

  lemma InitRound(s: Stk, S: Store, fi: nat, d: U32, bytes: seq<Byte>, src: U32, n: U32)
    requires ReadyMem(fi, s, S) && n > 0 && !OutOfBounds(d, n, MemAt(fi, s, S)) && src + n <= |bytes|
    ensures InitRounds(s, S, fi, d, bytes, src, n) ==
            if ToI32(n) == INT_MIN || ToI32(src) < 0 || ToI32(src) == INT_MAX || ToI32(d) == INT_MAX then RunUB
            else InitRounds(s, WithData(S, s[fi].inst.memaddrs[0], MemAt(fi, s, S).data[d as int := bytes[src]]), fi, (d + 1) % SPACE, bytes, src + 1, n - 1)
  {
    hide Exec;
    StoreByte(1, fi, s, d, ValI32(bytes[src]), S);
  }

  lemma {:induction false} InitRoundsAre(s: Stk, S: Store, fi: nat, d: U32, bytes: seq<Byte>, src: U32, n: U32)
    requires ReadyMem(fi, s, S) && MemAt(fi, s, S).pages <= NUM_PAGE_MAX && !OutOfBounds(d, n, MemAt(fi, s, S))
    requires src + n <= |bytes|
    ensures InitRounds(s, S, fi, d, bytes, src, n) ==
            if InitOverflows(d, src, n) then RunUB
            else Done(s, WithData(S, s[fi].inst.memaddrs[0], InitBytes(MemAt(fi, s, S).data, d, bytes, src, n)), 0)
    decreases n
  {
    hide Exec, InitRounds, InitBytes, InitOverflows;
    var a := s[fi].inst.memaddrs[0];
    var data := S.mems[a].data;
    if n <= 1 {
      InitOverflowsStep(d, src, n);
      InitOverflowsNone(d, src);
      InitOnce(data, d, bytes, src, n);
      if n == 1 {
        InitRound(s, S, fi, d, bytes, src, n);
        var S' := WithData(S, a, data[d as int := bytes[src]]);
        if src != 0xFFFF_FFFF {
          InitRoundsNone(s, S', fi, (d + 1) % SPACE, bytes, src + 1);
        }
      } else {
        InitRoundsNone(s, S, fi, d, bytes, src);
      }
    } else {
      InitRound(s, S, fi, d, bytes, src, n);
      InitOverflowsStep(d, src, n);
      Small(d + 1);
      InitMore(data, d, bytes, src, n);
      if src < HALF - 1 && d != HALF - 1 && n != HALF {
        InitRoundsAre(s, WithData(S, a, data[d as int := bytes[src]]), fi, d + 1, bytes, src + 1, n - 1);
      }
    }
  }

  lemma InitRoundsNone(s: Stk, S: Store, fi: nat, d: U32, bytes: seq<Byte>, src: U32)
    requires src <= |bytes|
    ensures InitRounds(s, S, fi, d, bytes, src, 0) == Done(s, S, 0)
  {
  }

  lemma InitOnce(data: map<int, Byte>, d: U32, bytes: seq<Byte>, src: nat, n: nat)
    requires n <= 1 && src + n <= |bytes|
    ensures InitBytes(data, d, bytes, src, n) == if n == 0 then data else data[d as int := bytes[src]]
  {
    if n == 1 {
      var data' := data[d as int := bytes[src]];
      assert InitBytes(data', (d + 1) % SPACE, bytes, src + 1, 0) == data';
    }
  }

  lemma InitMore(data: map<int, Byte>, d: U32, bytes: seq<Byte>, src: nat, n: nat)
    requires n > 1 && src + n <= |bytes| && d + n <= SPACE
    ensures InitBytes(data, d, bytes, src, n) == InitBytes(data[d as int := bytes[src]], d + 1, bytes, src + 1, n - 1)
  {
    Small(d + 1);
  }

  // ---------------------------------------------------------------- tables

  lemma SetOneRef(fuel: nat, fi: nat, s: Stk, x: U32, d: U32, v: Val, S: Store)
    requires fi < |s| <= CAPACITY && s[fi].OFrame? && ValidAddr(s[fi].inst.tableaddrs, x, |S.tables|) && fuel > 0
    requires d < HALF && d < |S.tables[s[fi].inst.tableaddrs[x]].elems|
    ensures Exec(fuel, SetRefCode(x), fi, Push2(s, ValI32(d), v), S) ==
            Done(s, S.(tables := SetRef(S.tables, s[fi].inst.tableaddrs[x], d, AsU32(v))), fuel - 1)
  {
    hide Exec;
    var S' := S.(tables := SetRef(S.tables, s[fi].inst.tableaddrs[x], d, AsU32(v)));
    assert AsI32(ValI32(d)) == d;
    ExecPlain(fuel, TableSet(x), Nil, fi, s, [ValI32(d), v], S, [], S');
    assert s + OVals([]) == s;
    ExecNil(fuel - 1, fi, s, S');
  }

  lemma GetSetRef(fi: nat, s: Stk, x: U32, y: U32, d: U32, src: U32, S: Store)
    requires fi < |s| && s[fi].OFrame? && |s| + 3 <= CAPACITY
    requires ValidAddr(s[fi].inst.tableaddrs, x, |S.tables|) && ValidAddr(s[fi].inst.tableaddrs, y, |S.tables|)
    requires d < HALF && d < |S.tables[s[fi].inst.tableaddrs[x]].elems|
    requires src < HALF && src < |S.tables[s[fi].inst.tableaddrs[y]].elems|
    ensures var ax, ay := s[fi].inst.tableaddrs[x], s[fi].inst.tableaddrs[y];
            Exec(2, GetSetCode(x, y), fi, Push2(s, ValI32(d), ValI32(src)), S) ==
            Done(s, S.(tables := SetRef(S.tables, ax, d, S.tables[ay].elems[src])), 0)
  {
    hide Exec, StepPlain, SetRef;
    var tab := S.tables[s[fi].inst.tableaddrs[y]];
    var v := ValRef(tab.reftype, tab.elems[src]);
    var s1 := s + OVals([ValI32(d)]);
    assert Push2(s, ValI32(d), ValI32(src)) == s1 + OVals([ValI32(src)]);
    assert s1 + OVals([v]) == Push2(s, ValI32(d), v);
    assert AsI32(ValI32(src)) == src && s1[fi] == s[fi] && AsU32(v) == tab.elems[src];
    ExecPlain(2, TableGet(y), SetRefCode(x), fi, s1, [ValI32(src)], S, [v], S);
    SetOneRef(1, fi, s, x, d, v, S);
  }

  ghost predicate ReadyTables(fi: nat, s: Stk, S: Store, x: U32, y: U32) {
    && fi < |s| && s[fi].OFrame? && |s| + 3 <= CAPACITY
    && ValidAddr(s[fi].inst.tableaddrs, x, |S.tables|) && ValidAddr(s[fi].inst.tableaddrs, y, |S.tables|)
    && |S.tables[s[fi].inst.tableaddrs[x]].elems| <= SPACE && |S.tables[s[fi].inst.tableaddrs[y]].elems| <= SPACE
  }

  lemma SignedOrder(d: U32, src: U32)
    requires d < HALF && src < HALF
    ensures ToI32(d) <= ToI32(src) <==> d <= src
  {
  }

  /** An index that is negative as an int finds no entry, in either table. */
  lemma NegativeIndex(fi: nat, s: Stk, x: U32, y: U32, d: U32, src: U32, S: Store)
    requires ReadyTables(fi, s, S, x, y) && (d >= HALF || src >= HALF)
    requires src < |S.tables[s[fi].inst.tableaddrs[y]].elems| && d < |S.tables[s[fi].inst.tableaddrs[x]].elems|
    ensures Exec(2, GetSetCode(x, y), fi, Push2(s, ValI32(d), ValI32(src)), S).Trapped?
  {
    hide Exec, StepPlain, SetRef;
    var tab := S.tables[s[fi].inst.tableaddrs[y]];
    var v := ValRef(tab.reftype, tab.elems[src]);
    var s1 := s + OVals([ValI32(d)]);
    assert Push2(s, ValI32(d), ValI32(src)) == s1 + OVals([ValI32(src)]);
    assert s1 + OVals([v]) == Push2(s, ValI32(d), v);
    assert s1[fi] == s[fi];
    if src >= HALF {
      PlainThrows(2, TableGet(y), SetRefCode(x), fi, s1, [ValI32(src)], S, TrapOutOfBoundsTableAccess);
    } else {
      assert AsI32(ValI32(src)) == src;
      ExecPlain(2, TableGet(y), SetRefCode(x), fi, s1, [ValI32(src)], S, [v], S);
      PlainThrows(1, TableSet(x), Nil, fi, s, [ValI32(d), v], S, TrapOutOfBoundsTableAccess);
    }
  }

  lemma PlainThrows(fuel: nat, op: Plain, next: Code, fi: nat, s: Stk, args: seq<Val>, S: Store, e: Error)
    requires fi < |s| && s[fi].OFrame? && |args| == Pops(op) && |s| + Pushes(op) <= CAPACITY && fuel > 0
    requires Perform(op, args, s[fi].locals, S, s[fi].inst) == Traps(e)
    ensures Exec(fuel, Cons(Instr.Plain(op), next), fi, s + OVals(args), S) == Trapped(e, S)
  {
    hide Perform, StepPlain, Pops, Pushes;
    TrapsOnTop(op, next, fi, s, args, S, e);
    assert (s + OVals(args))[fi] == s[fi];
  }

  /** Some index of table.copy is negative as an int, or a variable overflows. */
  ghost predicate RefsOverflow(d: U32, src: U32, n: U32) {
    CopyOverflows(d, src, n) || (n != 0 && (ToI32(d) < 0 || ToI32(src) < 0))
  }

  lemma TableCopyUp(s: Stk, S: Store, fi: nat, x: U32, y: U32, d: U32, src: U32, n: U32)
    requires ReadyTables(fi, s, S, x, y) && n > 0 && d <= src < HALF
    requires src + n <= |S.tables[s[fi].inst.tableaddrs[y]].elems| && d + n <= |S.tables[s[fi].inst.tableaddrs[x]].elems|
    ensures var m := s[fi].inst;
            var S' := S.(tables := SetRef(S.tables, m.tableaddrs[x], d, S.tables[m.tableaddrs[y]].elems[src]));
            TableCopyRounds(s, S, fi, m, x, y, d, src, n) ==
            if src == HALF - 1 || n == HALF then RunUB
            else TableCopyRounds(s, S', fi, m, x, y, d + 1, src + 1, n - 1)
  {
    hide Exec, SetRef, EndFits, ToI32;
    SignedOrder(d, src);
    IntEnds(d, src, n);
    if src != HALF - 1 {
      Small(d + 1);
      Small(src + 1);
    }
    GetSetRef(fi, s, x, y, d, src, S);
  }

  lemma IntEnds(d: U32, src: U32, n: U32)
    requires d <= src
    ensures ToI32(src) == INT_MAX <==> src == HALF - 1
    ensures ToI32(src) < 0 <==> src >= HALF
    ensures ToI32(d) == INT_MAX && src < HALF ==> src == HALF - 1
    ensures ToI32(n) == INT_MIN <==> n == HALF
  {
  }

  lemma TableCopyDown(s: Stk, S: Store, fi: nat, x: U32, y: U32, d: U32, src: U32, n: U32)
    requires ReadyTables(fi, s, S, x, y) && n > 0 && src < d < HALF
    requires src + n <= |S.tables[s[fi].inst.tableaddrs[y]].elems| && d + n <= |S.tables[s[fi].inst.tableaddrs[x]].elems|
    ensures var m := s[fi].inst;
            d + n <= HALF ==>
            var S' := S.(tables := SetRef(S.tables, m.tableaddrs[x], d + n - 1, S.tables[m.tableaddrs[y]].elems[src + n - 1]));
            TableCopyRounds(s, S, fi, m, x, y, d, src, n) ==
            if d + n == HALF then RunUB else TableCopyRounds(s, S', fi, m, x, y, d, src, n - 1)
    ensures d + n > HALF ==> TableCopyRounds(s, S, fi, s[fi].inst, x, y, d, src, n) == RunUB
  {
    hide Exec, SetRef;
    if n < HALF {
      if d + n < HALF {
        GetSetRef(fi, s, x, y, d + n - 1, src + n - 1, S);
      }
    } else {
      NegativeIndex(fi, s, x, y, d + n - 1, src + n - 1, S);
    }
  }

  lemma TableCopyNegative(s: Stk, S: Store, fi: nat, x: U32, y: U32, d: U32, src: U32, n: U32)
    requires ReadyTables(fi, s, S, x, y) && n > 0 && (d >= HALF || src >= HALF)
    requires src + n <= |S.tables[s[fi].inst.tableaddrs[y]].elems| && d + n <= |S.tables[s[fi].inst.tableaddrs[x]].elems|
    ensures TableCopyRounds(s, S, fi, s[fi].inst, x, y, d, src, n) == RunUB
  {
    hide Exec, EndFits;
    if ToI32(d) <= ToI32(src) {
      NegativeIndex(fi, s, x, y, d, src, S);
    } else {
      NegativeIndex(fi, s, x, y, d + n - 1, src + n - 1, S);
    }
  }

  /** Once the first bounds check of table.copy passed, no later one fails, the stack never
      runs out, three operands are gone in the end, and the table is that of CopyRefs, unless
      an index leaves the range of an int. */
  lemma {:induction false} TableCopyRoundsAre(s: Stk, S: Store, fi: nat, x: U32, y: U32, d: U32, src: U32, n: U32)
    requires ReadyTables(fi, s, S, x, y)
    requires src + n <= |S.tables[s[fi].inst.tableaddrs[y]].elems| && d + n <= |S.tables[s[fi].inst.tableaddrs[x]].elems|
    ensures TableCopyRounds(s, S, fi, s[fi].inst, x, y, d, src, n) ==
            if RefsOverflow(d, src, n) then RunUB
            else Done(s, S.(tables := CopyRefs(S.tables, s[fi].inst.tableaddrs[x], s[fi].inst.tableaddrs[y], d, src, n)), 0)
    decreases n
  {
    hide Exec, TableCopyRounds, CopyOverflows;
    var m := s[fi].inst;
    var ax, ay := m.tableaddrs[x], m.tableaddrs[y];
    CopyOverflowsIff(d, src, n);
    if n == 0 {
      TableCopyNone(s, S, fi, m, x, y, d, src);
    } else if d >= HALF || src >= HALF {
      TableCopyNegative(s, S, fi, x, y, d, src, n);
    } else if d <= src {
      TableCopyUp(s, S, fi, x, y, d, src, n);
      if src != HALF - 1 && n != HALF {
        var S' := S.(tables := SetRef(S.tables, ax, d, S.tables[ay].elems[src]));
        CopyOverflowsIff(d + 1, src + 1, n - 1);
        TableCopyRoundsAre(s, S', fi, x, y, d + 1, src + 1, n - 1);
      }
    } else {
      TableCopyDown(s, S, fi, x, y, d, src, n);
      if d + n < HALF {
        var S' := S.(tables := SetRef(S.tables, ax, d + n - 1, S.tables[ay].elems[src + n - 1]));
        CopyOverflowsIff(d, src, n - 1);
        TableCopyRoundsAre(s, S', fi, x, y, d, src, n - 1);
      }
    }
  }

  lemma TableCopyNone(s: Stk, S: Store, fi: nat, m: ModInst, x: U32, y: U32, d: U32, src: U32)
    requires ValidAddr(m.tableaddrs, x, |S.tables|) && ValidAddr(m.tableaddrs, y, |S.tables|)
    requires src <= |S.tables[m.tableaddrs[y]].elems| && d <= |S.tables[m.tableaddrs[x]].elems|
    ensures TableCopyRounds(s, S, fi, m, x, y, d, src, 0) == Done(s, S, 0)
  {
  }

  lemma TableInitUp(s: Stk, S: Store, fi: nat, x: U32, y: U32, d: U32, src: U32, n: U32)
    requires ReadyTables(fi, s, S, x, x) && ValidAddr(s[fi].inst.elemaddrs, y, |S.elems|) && n > 0
    requires src + n <= |S.elems[s[fi].inst.elemaddrs[y]].elems| && d + n <= |S.tables[s[fi].inst.tableaddrs[x]].elems|
    ensures var m := s[fi].inst;
            var S' := S.(tables := SetRef(S.tables, m.tableaddrs[x], d, S.elems[m.elemaddrs[y]].elems[src]));
            TableInitRounds(s, S, fi, m, x, y, d, src, n) ==
            if src >= HALF - 1 || d >= HALF - 1 || n == HALF then RunUB
            else TableInitRounds(s, S', fi, m, x, y, d + 1, src + 1, n - 1)
  {
    hide Exec, SetRef, ToI32;
    var elem := S.elems[s[fi].inst.elemaddrs[y]];
    var v := ValRef(elem.reftype, elem.elems[src]);
    assert AsU32(v) == elem.elems[src];
    IntEnds(0, src, n);
    IntEnds(0, d, n);
    if src < HALF - 1 && d < HALF - 1 {
      Small(d + 1);
      Small(src + 1);
    }
    if src < HALF {
      if d < HALF {
        SetOneRef(1, fi, s, x, d, v, S);
      } else {
        assert AsI32(ValI32(d)) < 0;
        PlainThrows(1, TableSet(x), Nil, fi, s, [ValI32(d), v], S, TrapOutOfBoundsTableAccess);
      }
    }
  }

  lemma TableInitNone(s: Stk, S: Store, fi: nat, m: ModInst, x: U32, y: U32, d: U32, src: U32)
    requires ValidAddr(m.tableaddrs, x, |S.tables|) && ValidAddr(m.elemaddrs, y, |S.elems|)
    requires src <= |S.elems[m.elemaddrs[y]].elems| && d <= |S.tables[m.tableaddrs[x]].elems|
    ensures TableInitRounds(s, S, fi, m, x, y, d, src, 0) == Done(s, S, 0)
  {
  }

  lemma {:induction false} TableInitRoundsAre(s: Stk, S: Store, fi: nat, x: U32, y: U32, d: U32, src: U32, n: U32)
    requires ReadyTables(fi, s, S, x, x) && ValidAddr(s[fi].inst.elemaddrs, y, |S.elems|)
    requires |S.elems[s[fi].inst.elemaddrs[y]].elems| <= SPACE
    requires src + n <= |S.elems[s[fi].inst.elemaddrs[y]].elems| && d + n <= |S.tables[s[fi].inst.tableaddrs[x]].elems|
    ensures TableInitRounds(s, S, fi, s[fi].inst, x, y, d, src, n) ==
            if InitOverflows(d, src, n) || (n != 0 && ToI32(d) < 0) then RunUB
            else Done(s, WithRefs(S, s[fi].inst.tableaddrs[x],
              InitRefs(S.tables[s[fi].inst.tableaddrs[x]].elems, d, S.elems[s[fi].inst.elemaddrs[y]].elems, src, n)), 0)
    decreases n
  {
    hide Exec, TableInitRounds, InitOverflows;
    var m := s[fi].inst;
    var ax, elem := m.tableaddrs[x], S.elems[m.elemaddrs[y]].elems;
    InitOverflowsIff(d, src, n);
    if n == 0 {
      TableInitNone(s, S, fi, m, x, y, d, src);
    } else {
      TableInitUp(s, S, fi, x, y, d, src, n);
      if src < HALF - 1 && d < HALF - 1 && n != HALF {
        var S' := S.(tables := SetRef(S.tables, ax, d, elem[src]));
        InitOverflowsIff(d + 1, src + 1, n - 1);
        TableInitRoundsAre(s, S', fi, x, y, d + 1, src + 1, n - 1);
      }
    }
  }

  function WithRefs(S: Store, a: nat, elems: seq<U32>): Store
    requires a < |S.tables|
  {
    S.(tables := S.tables[a := S.tables[a].(elems := elems)])
  }

  // ---------------------------------------------------------------- the instructions are their loops

  /** What the rest of the machine sees when the loop of a bulk instruction ends in `r`. */
  ghost function AfterRounds(r: Run, next: Code): Step {
    match r
    case Done(s, S, _) => Next(next, s, S)
    case Trapped(e, _) => Throws(e)
    case RunUB => StepUB
    case _ => Fails
  }

  lemma TrapsOnTop(op: Plain, next: Code, fi: nat, s: Stk, args: seq<Val>, S: Store, e: Error)
    requires fi < |s| && s[fi].OFrame? && |args| == Pops(op) && |s| + Pushes(op) <= CAPACITY
    requires Perform(op, args, s[fi].locals, S, s[fi].inst) == Traps(e)
    ensures StepPlain(op, next, fi, s + OVals(args), S) == Throws(e)
  {
    hide Perform, Pushes, CanPop, Top, Below;
    PopOf(s, args, |args|);
    assert (s + OVals(args))[fi] == s[fi];
    assert Take(args, |args|) == args && Drop'(args, |args|) == [];
    assert s + OVals([]) == s;
  }

  lemma UndefinedOnTop(op: Plain, next: Code, fi: nat, s: Stk, args: seq<Val>, S: Store)
    requires fi < |s| && s[fi].OFrame? && |args| == Pops(op) && |s| + Pushes(op) <= CAPACITY
    requires Perform(op, args, s[fi].locals, S, s[fi].inst) == EffectUB
    ensures StepPlain(op, next, fi, s + OVals(args), S) == StepUB
  {
    hide Perform, Pushes, Pops, CanPop, Top, Below;
    PopOf(s, args, |args|);
    assert (s + OVals(args))[fi] == s[fi];
    assert Take(args, |args|) == args && Drop'(args, |args|) == [];
    assert s + OVals([]) == s;
  }

  function Args3(a: U32, b: U32, c: U32): (args: seq<Val>)
    ensures |args| == 3
  {
    [ValI32(a), ValI32(b), ValI32(c)]
  }

  lemma ArgsBack(a: U32, b: U32, c: U32)
    ensures AsU32(Args3(a, b, c)[0]) == a && AsU32(Args3(a, b, c)[1]) == b && AsU32(Args3(a, b, c)[2]) == c
  {
  }

  /** An instruction with three operands and no results, on top of `s`. */
  ghost predicate StepsTo(op: Plain, next: Code, fi: nat, s: Stk, args: seq<Val>, S: Store, wanted: Step)
    requires fi < |s| && s[fi].OFrame?
  {
    StepPlain(op, next, fi, s + OVals(args), S) == wanted
  }

  /** Its step, given what it performs: a trap, or the result of its loop. */
  lemma FromPerform(op: Plain, next: Code, fi: nat, s: Stk, args: seq<Val>, S: Store, r: Run)
    requires fi < |s| && s[fi].OFrame? && |args| == Pops(op) && |s| <= CAPACITY && Pushes(op) == 0
    requires var e := Perform(op, args, s[fi].locals, S, s[fi].inst);
             (r.RunUB? && e == EffectUB) || (r.Trapped? && e == Traps(r.err)) || (r.Done? && r.stk == s && e == Did([], s[fi].locals, r.store))
    ensures StepsTo(op, next, fi, s, args, S, AfterRounds(r, next))
  {
    hide Perform, Pops, Pushes, StepPlain;
    if r.Trapped? {
      TrapsOnTop(op, next, fi, s, args, S, r.err);
    } else if r.RunUB? {
      UndefinedOnTop(op, next, fi, s, args, S);
    } else {
      PlainOnTop(op, next, fi, s, args, S, [], r.store);
      assert s + OVals([]) == s;
    }
  }

  /** memory.copy: its bounds check and then its loop. */
  ghost function CopyRun(s: Stk, S: Store, fi: nat, d: U32, src: U32, n: U32): Run
    requires ReadyMem(fi, s, S)
  {
    if OutOfBounds(src, n, MemAt(fi, s, S)) || OutOfBounds(d, n, MemAt(fi, s, S)) then Trapped(TrapOutOfBoundsMemoryAccess, S)
    else CopyRounds(s, S, fi, d, src, n)
  }

  ghost function FillRun(s: Stk, S: Store, fi: nat, d: U32, val: U32, n: U32): Run
    requires ReadyMem(fi, s, S)
  {
    if OutOfBounds(d, n, MemAt(fi, s, S)) then Trapped(TrapOutOfBoundsMemoryAccess, S)
    else FillRounds(s, S, fi, d, val, n)
  }

  ghost function InitRun(s: Stk, S: Store, fi: nat, x: U32, d: U32, src: U32, n: U32): Run
    requires ReadyMem(fi, s, S) && ValidAddr(s[fi].inst.dataaddrs, x, |S.datas|)
  {
    var bytes := S.datas[s[fi].inst.dataaddrs[x]];
    if src + n > |bytes| || OutOfBounds(d, n, MemAt(fi, s, S)) then Trapped(TrapOutOfBoundsMemoryAccess, S)
    else InitRounds(s, S, fi, d, bytes, src, n)
  }

  /** One machine step for memory.copy is its bounds check and then its loop. */
  lemma MemoryCopyIsRounds(next: Code, fi: nat, s: Stk, S: Store, d: U32, src: U32, n: U32)
    requires ReadyMem(fi, s, S) && MemAt(fi, s, S).pages <= NUM_PAGE_MAX
    ensures StepsTo(MemoryCopy, next, fi, s, Args3(d, src, n), S, AfterRounds(CopyRun(s, S, fi, d, src, n), next))
  {
    hide CopyBytes, CopyRounds, StepsTo, Args3;
    ArgsBack(d, src, n);
    if !OutOfBounds(src, n, MemAt(fi, s, S)) && !OutOfBounds(d, n, MemAt(fi, s, S)) {
      CopyRoundsAre(s, S, fi, d, src, n);
    }
    FromPerform(MemoryCopy, next, fi, s, Args3(d, src, n), S, CopyRun(s, S, fi, d, src, n));
  }

  lemma MemoryFillIsRounds(next: Code, fi: nat, s: Stk, S: Store, d: U32, val: U32, n: U32)
    requires ReadyMem(fi, s, S) && MemAt(fi, s, S).pages <= NUM_PAGE_MAX
    ensures StepsTo(MemoryFill, next, fi, s, Args3(d, val, n), S, AfterRounds(FillRun(s, S, fi, d, val, n), next))
  {
    hide FillBytes, FillRounds, StepsTo, Args3;
    ArgsBack(d, val, n);
    if !OutOfBounds(d, n, MemAt(fi, s, S)) {
      FillRoundsAre(s, S, fi, d, val, n);
    }
    FromPerform(MemoryFill, next, fi, s, Args3(d, val, n), S, FillRun(s, S, fi, d, val, n));
  }

  lemma MemoryInitIsRounds(next: Code, fi: nat, s: Stk, S: Store, x: U32, d: U32, src: U32, n: U32)
    requires ReadyMem(fi, s, S) && MemAt(fi, s, S).pages <= NUM_PAGE_MAX
    requires ValidAddr(s[fi].inst.dataaddrs, x, |S.datas|)
    ensures StepsTo(MemoryInit(x), next, fi, s, Args3(d, src, n), S, AfterRounds(InitRun(s, S, fi, x, d, src, n), next))
  {
    hide InitBytes, InitRounds, StepsTo, Args3;
    ArgsBack(d, src, n);
    var bytes := S.datas[s[fi].inst.dataaddrs[x]];
    if src + n <= |bytes| && !OutOfBounds(d, n, MemAt(fi, s, S)) {
      InitRoundsAre(s, S, fi, d, bytes, src, n);
    }
    FromPerform(MemoryInit(x), next, fi, s, Args3(d, src, n), S, InitRun(s, S, fi, x, d, src, n));
  }

  /** One machine step for table.copy is its loop, which checks the bounds in every round. */
  lemma TableCopyIsRounds(next: Code, fi: nat, s: Stk, S: Store, x: U32, y: U32, d: U32, src: U32, n: U32)
    requires ReadyTables(fi, s, S, x, y)
    ensures StepsTo(TableCopy(x, y), next, fi, s, Args3(d, src, n), S,
                    AfterRounds(TableCopyRounds(s, S, fi, s[fi].inst, x, y, d, src, n), next))
  {
    hide CopyRefs, TableCopyRounds, StepsTo, Args3;
    ArgsBack(d, src, n);
    var m := s[fi].inst;
    if src + n <= |S.tables[m.tableaddrs[y]].elems| && d + n <= |S.tables[m.tableaddrs[x]].elems| {
      TableCopyRoundsAre(s, S, fi, x, y, d, src, n);
    } else {
      TableCopyTraps(s, S, fi, m, x, y, d, src, n);
    }
    FromPerform(TableCopy(x, y), next, fi, s, Args3(d, src, n), S, TableCopyRounds(s, S, fi, m, x, y, d, src, n));
  }

  lemma TableCopyTraps(s: Stk, S: Store, fi: nat, m: ModInst, x: U32, y: U32, d: U32, src: U32, n: U32)
    requires ValidAddr(m.tableaddrs, x, |S.tables|) && ValidAddr(m.tableaddrs, y, |S.tables|)
    requires src + n > |S.tables[m.tableaddrs[y]].elems| || d + n > |S.tables[m.tableaddrs[x]].elems|
    ensures TableCopyRounds(s, S, fi, m, x, y, d, src, n) == Trapped(TrapOutOfBoundsTableAccess, S)
  {
    hide Exec;
  }

  lemma TableInitIsRounds(next: Code, fi: nat, s: Stk, S: Store, x: U32, y: U32, d: U32, src: U32, n: U32)
    requires ReadyTables(fi, s, S, x, x)
    requires ValidAddr(s[fi].inst.elemaddrs, y, |S.elems|) && |S.elems[s[fi].inst.elemaddrs[y]].elems| <= SPACE
    ensures StepsTo(TableInit(x, y), next, fi, s, Args3(d, src, n), S,
                    AfterRounds(TableInitRounds(s, S, fi, s[fi].inst, x, y, d, src, n), next))
  {
    hide InitRefs, TableInitRounds, StepsTo, Args3;
    ArgsBack(d, src, n);
    var m := s[fi].inst;
    if src + n <= |S.elems[m.elemaddrs[y]].elems| && d + n <= |S.tables[m.tableaddrs[x]].elems| {
      TableInitRoundsAre(s, S, fi, x, y, d, src, n);
    } else {
      TableInitTraps(s, S, fi, m, x, y, d, src, n);
    }
    FromPerform(TableInit(x, y), next, fi, s, Args3(d, src, n), S, TableInitRounds(s, S, fi, m, x, y, d, src, n));
  }

  lemma TableInitTraps(s: Stk, S: Store, fi: nat, m: ModInst, x: U32, y: U32, d: U32, src: U32, n: U32)
    requires ValidAddr(m.tableaddrs, x, |S.tables|) && ValidAddr(m.elemaddrs, y, |S.elems|)
    requires src + n > |S.elems[m.elemaddrs[y]].elems| || d + n > |S.tables[m.tableaddrs[x]].elems|
    ensures TableInitRounds(s, S, fi, m, x, y, d, src, n) == Trapped(TrapOutOfBoundsTableAccess, S)
  {
    hide Exec;
  }
}
