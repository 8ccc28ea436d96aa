/** The standard's type system for instruction lists, as a relation between stacks of operand
    types, without type stacks, polymorphic flags or an order of checking; and how the
    validator decides it. Section 3.3 of the WebAssembly Core Specification 2.0.

    An operand type is a value type or, in unreachable code, the unknown type, for which the
    byte ANY stands here as in the validator. Block types mean what the validator expands
    them to. */
module TypeSystem {
  import opened Syntax
  import opened Typing

  // ---------------------------------------------------------------- the type system

  /** An operand of type `t` can stand where `u` is wanted. */
  predicate Sub(t: ValType, u: ValType) { t == u || t == ANY }

  predicate SubAll(a: seq<ValType>, b: seq<ValType>) {
    |a| == |b| && forall i :: 0 <= i < |a| ==> Sub(a[i], b[i])
  }

  /** The top of `s` can stand where `a` is wanted. */
  ghost predicate EndsWithin(s: seq<ValType>, a: seq<ValType>) { |a| <= |s| && SubAll(s[|s| - |a|..], a) }

  /** Replacing that top by `r` gives `s'`. */
  ghost predicate Rewrites(s: seq<ValType>, s': seq<ValType>, a: seq<ValType>, r: seq<ValType>) {
    EndsWithin(s, a) && s' == s[..|s| - |a|] + r
  }

  predicate IsNumType(t: ValType) { t in {I32, I64, F32, F64} }

  predicate IsRefType(t: ValType) { t in {FUNCREF, EXTERNREF} }

  predicate Known(a: seq<ValType>) { forall i :: 0 <= i < |a| ==> IsValTypeCode(a[i]) }

  /** A type written in the instruction is of the kind that belongs there. */
  predicate Written(op: Plain) {
    match op
    case RefNull(t) => IsRefType(t)
    case Const(t, _) => IsNumType(t)
    case SelectT(types) => Known(types)
    case _ => true
  }

  /** The loads, with the bytes each reads and the type it gives; section 3.3.7. */
  predicate LoadRule(opcode: Byte, bytes: nat, t: ValType) {
    || (opcode == 0x28 && bytes == 4 && t == I32) || (opcode == 0x29 && bytes == 8 && t == I64)
    || (opcode == 0x2A && bytes == 4 && t == F32) || (opcode == 0x2B && bytes == 8 && t == F64)
    || (opcode in {0x2C, 0x2D} && bytes == 1 && t == I32) || (opcode in {0x2E, 0x2F} && bytes == 2 && t == I32)
    || (opcode in {0x30, 0x31} && bytes == 1 && t == I64) || (opcode in {0x32, 0x33} && bytes == 2 && t == I64)
    || (opcode in {0x34, 0x35} && bytes == 4 && t == I64)
  }

  predicate StoreRule(opcode: Byte, bytes: nat, t: ValType) {
    || (opcode == 0x36 && bytes == 4 && t == I32) || (opcode == 0x37 && bytes == 8 && t == I64)
    || (opcode == 0x38 && bytes == 4 && t == F32) || (opcode == 0x39 && bytes == 8 && t == F64)
    || (opcode == 0x3A && bytes == 1 && t == I32) || (opcode == 0x3B && bytes == 2 && t == I32)
    || (opcode == 0x3C && bytes == 1 && t == I64) || (opcode == 0x3D && bytes == 2 && t == I64)
    || (opcode == 0x3E && bytes == 4 && t == I64)
  }

  /** An access may be aligned to at most its own number of bytes. */
  predicate Aligned(align: U32, bytes: nat) {
    (align == 0 && bytes >= 1) || (align == 1 && bytes >= 2) || (align == 2 && bytes >= 4) || (align == 3 && bytes >= 8)
  }

  /** Unary operators of a type, sign extensions included. */
  predicate UnOp(opcode: Byte, t: ValType) {
    || (t == I32 && (0x67 <= opcode <= 0x69 || opcode in {0xC0, 0xC1}))
    || (t == I64 && (0x79 <= opcode <= 0x7B || opcode in {0xC2, 0xC3, 0xC4}))
    || (t == F32 && 0x8B <= opcode <= 0x91) || (t == F64 && 0x99 <= opcode <= 0x9F)
  }

  predicate BinOp(opcode: Byte, t: ValType) {
    || (t == I32 && 0x6A <= opcode <= 0x78) || (t == I64 && 0x7C <= opcode <= 0x8A)
    || (t == F32 && 0x92 <= opcode <= 0x98) || (t == F64 && 0xA0 <= opcode <= 0xA6)
  }

  predicate TestOp(opcode: Byte, t: ValType) { (t == I32 && opcode == 0x45) || (t == I64 && opcode == 0x50) }

  predicate RelOp(opcode: Byte, t: ValType) {
    || (t == I32 && 0x46 <= opcode <= 0x4F) || (t == I64 && 0x51 <= opcode <= 0x5A)
    || (t == F32 && 0x5B <= opcode <= 0x60) || (t == F64 && 0x61 <= opcode <= 0x66)
  }

  /** Conversions, in the order of their opcodes from 0xA7 to 0xBF. */
  const CONVERSIONS: seq<(ValType, ValType)> := [
    (I64, I32), (F32, I32), (F32, I32), (F64, I32), (F64, I32), (I32, I64), (I32, I64), (F32, I64), (F32, I64), (F64, I64), (F64, I64),
    (I32, F32), (I32, F32), (I64, F32), (I64, F32), (F64, F32), (I32, F64), (I32, F64), (I64, F64), (I64, F64), (F32, F64),
    (F32, I32), (F64, I64), (I32, F32), (I64, F64)]

  /** Operand types and result type of a numeric instruction; section 3.3.1. */
  predicate NumRule(opcode: Byte, a: seq<ValType>, t: ValType) {
    || (UnOp(opcode, t) && a == [t]) || (BinOp(opcode, t) && a == [t, t])
    || (t == I32 && |a| == 1 && TestOp(opcode, a[0]))
    || (t == I32 && |a| == 2 && a[0] == a[1] && RelOp(opcode, a[0]))
    || (0xA7 <= opcode <= 0xBF && a == [CONVERSIONS[opcode - 0xA7].0] && t == CONVERSIONS[opcode - 0xA7].1)
  }

  /** The saturating truncations, in the order of their second opcodes. */
  const SATURATING: seq<(ValType, ValType)> := [
    (F32, I32), (F32, I32), (F64, I32), (F64, I32), (F32, I64), (F32, I64), (F64, I64), (F64, I64)]

  /** The instructions with one fixed type in a context: operand types `a`, result types `r`. */
  ghost predicate Rule(C: Context, op: Plain, a: seq<ValType>, r: seq<ValType>) {
    match op
    case Drop => false
    case Select => false
    case RefIsNull => false
    case SelectT(types) => |types| == 1 && a == [types[0], types[0], I32] && r == [types[0]]
    case LocalGet(x) => x < |C.locals| && a == [] && r == [C.locals[x]]
    case LocalSet(x) => x < |C.locals| && a == [C.locals[x]] && r == []
    case LocalTee(x) => x < |C.locals| && a == [C.locals[x]] && r == [C.locals[x]]
    case GlobalGet(x) => x < |C.globals| && a == [] && r == [C.globals[x].t]
    case GlobalSet(x) => x < |C.globals| && C.globals[x] == GlobalType(C.globals[x].t, true) && a == [C.globals[x].t] && r == []
    case TableGet(x) => x < |C.tables| && a == [I32] && r == [C.tables[x]]
    case TableSet(x) => x < |C.tables| && a == [I32, C.tables[x]] && r == []
    case TableSize(x) => x < |C.tables| && a == [] && r == [I32]
    case TableGrow(x) => x < |C.tables| && a == [C.tables[x], I32] && r == [I32]
    case TableFill(x) => x < |C.tables| && a == [I32, C.tables[x], I32] && r == []
    case TableCopy(x, y) => x < |C.tables| && y < |C.tables| && C.tables[x] == C.tables[y] && a == [I32, I32, I32] && r == []
    case TableInit(x, y) => x < |C.tables| && y < |C.elems| && C.tables[x] == C.elems[y] && a == [I32, I32, I32] && r == []
    case ElemDrop(x) => x < |C.elems| && a == [] && r == []
    case Access(opcode, align, _) =>
      && C.mems > 0
      && exists bytes: nat, t: ValType :: Aligned(align, bytes) &&
           ((LoadRule(opcode, bytes, t) && a == [I32] && r == [t]) || (StoreRule(opcode, bytes, t) && a == [I32, t] && r == []))
    case MemorySize => C.mems > 0 && a == [] && r == [I32]
    case MemoryGrow => C.mems > 0 && a == [I32] && r == [I32]
    case MemoryFill => C.mems > 0 && a == [I32, I32, I32] && r == []
    case MemoryCopy => C.mems > 0 && a == [I32, I32, I32] && r == []
    case MemoryInit(x) => C.mems > 0 && x < C.datas && a == [I32, I32, I32] && r == []
    case DataDrop(x) => x < C.datas && a == [] && r == []
    case Const(t, _) => a == [] && r == [t]
    case Num(opcode) => |r| == 1 && NumRule(opcode, a, r[0])
    case TruncSat(op2) => op2 < 8 && a == [SATURATING[op2].0] && r == [SATURATING[op2].1]
    case RefNull(t) => a == [] && r == [t]
    case RefFunc(x) => x < |C.funcs| && x < |C.refs| && C.refs[x] && a == [] && r == [FUNCREF]
  }

  ghost predicate TypedPlain(C: Context, op: Plain, s: seq<ValType>, s': seq<ValType>) {
    match op
    case Drop => |s| > 0 && s' == s[..|s| - 1]
    case Select => exists t :: (IsNumType(t) || t == ANY) && Rewrites(s, s', [t, t, I32], [t])
    case RefIsNull => exists t :: IsRefType(t) && Rewrites(s, s', [t], [I32])
    case _ => Written(op) && exists a, r :: Rule(C, op, a, r) && Rewrites(s, s', a, r)
  }

  /** What the validator pops and pushes for each of them is its rule; without one it refuses. */
  lemma RuleIsChecked(C: Context, op: Plain, a: seq<ValType>, r: seq<ValType>)
    requires !op.Drop? && !op.Select? && !op.RefIsNull?
    ensures Rule(C, op, a, r) <==> PlainSig(C, op) == Ok((a, r))
  {
    match op
    case Access(opcode, align, _) => AccessIsChecked(C, op, a, r);
    case Num(opcode) => NumIsChecked(C, opcode, a, r);
    case TruncSat(op2) =>
      if op2 < 8 {
        assert TruncSatSig(op2) == Some(SATURATING[op2]);
      }
    case _ =>
  }

  lemma AccessIsChecked(C: Context, op: Plain, a: seq<ValType>, r: seq<ValType>)
    requires op.Access?
    ensures Rule(C, op, a, r) <==> PlainSig(C, op) == Ok((a, r))
  {
    var opcode, align := op.opcode, op.align;
    assert Pow2(0) == 1 && Pow2(1) == 2 && Pow2(2) == 4 && Pow2(3) == 8 by { SmallPowers(); }
    if PlainSig(C, op) == Ok((a, r)) {
      assert Aligned(align, Width(opcode));
      if IsLoad(opcode) {
        assert LoadRule(opcode, Width(opcode), AccessType(opcode));
      } else {
        assert StoreRule(opcode, Width(opcode), AccessType(opcode));
      }
    }
  }

  lemma SmallPowers()
    ensures Pow2(0) == 1 && Pow2(1) == 2 && Pow2(2) == 4 && Pow2(3) == 8
  {
    assert Pow2(3) == 2 * Pow2(2);
  }

  lemma NumIsChecked(C: Context, opcode: Byte, a: seq<ValType>, r: seq<ValType>)
    ensures Rule(C, Num(opcode), a, r) <==> PlainSig(C, Num(opcode)) == Ok((a, r))
  {
    if |r| == 1 {
      NumIsSig(opcode, a, r[0]);
      assert r == [r[0]];
    }
  }

  lemma NumIsSig(opcode: Byte, a: seq<ValType>, t: ValType)
    ensures NumRule(opcode, a, t) <==> NumSig(opcode) == Some((a, t))
  {
    if 0xA7 <= opcode <= 0xBF {
      var c := CONVERSIONS[opcode - 0xA7];
      assert NumSig(opcode) == Some(([c.0], c.1));
    } else if |a| == 1 {
      assert a == [a[0]];
    } else if |a| == 2 {
      assert a == [a[0], a[1]];
    }
  }

  /** Instruction `ins` may take a stack of types `s` to `s'`. */
  ghost predicate TypedInstr(C: Context, ins: Instr, s: seq<ValType>, s': seq<ValType>)
    decreases ins, 2
  {
    match ins
    case Unreachable => true
    case Nop => s == s'
    case Else => s == s'
    case End => s == s'
    case Block(bt, in1, _) =>
      BlockTypeOf(C, bt).Ok? &&
      (var ft := BlockTypeOf(C, bt).value;
       TypedBody(WithLabel(C, ft.rt2), in1, ft.rt1, ft.rt2) && Rewrites(s, s', ft.rt1, ft.rt2))
    case Loop(bt, in1, _) =>
      BlockTypeOf(C, bt).Ok? &&
      (var ft := BlockTypeOf(C, bt).value;
       TypedBody(WithLabel(C, ft.rt1), in1, ft.rt1, ft.rt2) && Rewrites(s, s', ft.rt1, ft.rt2))
    case If(bt, in1, in2) =>
      BlockTypeOf(C, bt).Ok? &&
      (var ft := BlockTypeOf(C, bt).value;
       && TypedBody(WithLabel(C, ft.rt2), in1, ft.rt1, ft.rt2)
       && TypedBody(WithLabel(C, ft.rt2), in2, ft.rt1, ft.rt2)
       && Rewrites(s, s', ft.rt1 + [I32], ft.rt2))
    case Br(k) => LabelType(C, k).Ok? && EndsWithin(s, LabelType(C, k).value)
    case BrIf(k) => LabelType(C, k).Ok? && Rewrites(s, s', LabelType(C, k).value + [I32], LabelType(C, k).value)
    case BrTable(ls, d) => TypedTable(C, ls, d, s)
    case Return => C.ret.Some? && EndsWithin(s, C.ret.value)
    case Call(x) => x < |C.funcs| && Rewrites(s, s', C.funcs[x].rt1, C.funcs[x].rt2)
    case CallIndirect(y, x) =>
      && x < |C.tables| && C.tables[x] == FUNCREF && y < |C.types|
      && Rewrites(s, s', C.types[y].rt1 + [I32], C.types[y].rt2)
    case Plain(op) => TypedPlain(C, op, s, s')
  }

  /** br_table: one list of operands can stand for every label, listed or default. */
  ghost predicate TypedTable(C: Context, ls: seq<U32>, d: U32, s: seq<ValType>) {
    && LabelType(C, d).Ok? && EndsWithin(s, LabelType(C, d).value + [I32])
    && forall i :: 0 <= i < |ls| ==>
         && LabelType(C, ls[i]).Ok? && |LabelType(C, ls[i]).value| == |LabelType(C, d).value|
         && EndsWithin(s, LabelType(C, ls[i]).value + [I32])
  }

  /** A list takes `s` to `s'` through some stack after each instruction. */
  ghost predicate Typed(C: Context, code: Code, s: seq<ValType>, s': seq<ValType>)
    decreases code, 0
  {
    match code
    case Nil => s == s'
    case Cons(ins, next) => exists mid :: TypedInstr(C, ins, s, mid) && Typed(C, next, mid, s')
  }

  /** A nested list or function body: it ends with operands that can stand for its results. */
  ghost predicate TypedBody(C: Context, code: Code, rt1: seq<ValType>, rt2: seq<ValType>)
    decreases code, 1
  {
    exists s' :: Typed(C, code, rt1, s') && SubAll(s', rt2)
  }

  // ---------------------------------------------------------------- where the validator agrees

  /** Along its check, the list never meets one of the places where the validator and the
      type system part:
      - an `if` whose parameters the type stack offers in one direction only,
      - a br_table with a label that the operands on the type stack do not fit,
      - ref.is_null on a number,
      - a type written in an instruction where it does not belong. */
  ghost predicate Regular(C: Context, code: Code, ts: TypeStack)
    decreases code
  {
    code.Cons? ==>
      && RegularInstr(C, code.ins, ts)
      && (Check(C, code.ins, ts).Ok? ==> Regular(C, code.next, Check(C, code.ins, ts).value))
  }

  ghost predicate RegularInstr(C: Context, ins: Instr, ts: TypeStack)
    decreases ins
  {
    match ins
    case Block(bt, in1, _) =>
      BlockTypeOf(C, bt).Ok? ==>
        var ft := BlockTypeOf(C, bt).value;
        Regular(WithLabel(C, ft.rt2), in1, TypeStack(ft.rt1, false))
    case Loop(bt, in1, _) =>
      BlockTypeOf(C, bt).Ok? ==>
        var ft := BlockTypeOf(C, bt).value;
        Regular(WithLabel(C, ft.rt1), in1, TypeStack(ft.rt1, false))
    case If(bt, in1, in2) =>
      BlockTypeOf(C, bt).Ok? ==>
        var ft := BlockTypeOf(C, bt).value;
        && Regular(WithLabel(C, ft.rt2), in1, TypeStack(ft.rt1, false))
        && Regular(WithLabel(C, ft.rt2), in2, TypeStack(ft.rt1, false))
        && RegularIf(ts, ft.rt1)
    case BrTable(ls, d) => RegularTable(C, ls, d, ts)
    case Plain(op) => RegularPlain(op, ts)
    case _ => true
  }

  predicate RegularPlain(op: Plain, ts: TypeStack) {
    Written(op) && (op.RefIsNull? && Peek(ts).Ok? ==> !IsNumType(Peek(ts).value))
  }

  // ---------------------------------------------------------------- popping

  /** The type stack below the `n` topmost types. */
  function Below(ts: TypeStack, n: nat): TypeStack {
    TypeStack(ts.types[..if n <= |ts.types| then |ts.types| - n else 0], ts.poly)
  }

  lemma {:induction false} PopAllBelow(ts: TypeStack, a: seq<ValType>)
    requires PopAll(ts, a).Ok?
    ensures PopAll(ts, a).value == Below(ts, |a|) && (ts.poly || |a| <= |ts.types|)
    decreases |a|
  {
    if a != [] {
      var n := |a| - 1;
      PopAllBelow(TryPop(ts, a[n]).value, a[..n]);
    }
  }

  lemma {:induction false} PopForwardBelow(ts: TypeStack, a: seq<ValType>)
    requires PopForward(ts, a).Ok?
    ensures PopForward(ts, a).value == Below(ts, |a|) && (ts.poly || |a| <= |ts.types|)
    decreases |a|
  {
    if a != [] {
      PopForwardBelow(TryPop(ts, a[0]).value, a[1..]);
    }
  }

  /** An operand popped before the others is the last of them. */
  lemma PopLast(ts: TypeStack, a: seq<ValType>, t: ValType)
    ensures TryPop(ts, t).Ok? ==> PopAll(ts, a + [t]) == PopAll(TryPop(ts, t).value, a)
    ensures TryPop(ts, t).Err? ==> PopAll(ts, a + [t]) == Err(TryPop(ts, t).error)
  {
    assert (a + [t])[..|a|] == a;
  }

  lemma RetypeLast(ts: TypeStack, a: seq<ValType>, t: ValType, r: seq<ValType>)
    requires TryPop(ts, t).Ok?
    ensures Retype(ts, a + [t], r) == Retype(TryPop(ts, t).value, a, r)
  {
    PopLast(ts, a, t);
  }

  // ---------------------------------------------------------------- completeness

  /** A type stack that knows no more than `s`. */
  ghost predicate Covers(ts: TypeStack, s: seq<ValType>) {
    && |ts.types| <= |s| && (!ts.poly ==> |ts.types| == |s|)
    && forall i :: 0 <= i < |ts.types| ==> Sub(ts.types[i], s[|s| - |ts.types| + i])
  }

  lemma PopCovers(ts: TypeStack, s: seq<ValType>, t: ValType, wanted: ValType)
    requires Covers(ts, s + [t]) && (Sub(t, wanted) || wanted == ANY)
    ensures TryPop(ts, wanted).Ok? && Covers(TryPop(ts, wanted).value, s)
  {
    if ts.types != [] {
      var n := |ts.types| - 1;
      assert Sub(ts.types[n], (s + [t])[|s|]);
      forall i | 0 <= i < n
        ensures Sub(ts.types[i], s[|s| - n + i])
      {
        assert (s + [t])[|s + [t]| - |ts.types| + i] == s[|s| - n + i];
      }
    }
  }

  lemma {:induction false} PopAllCovers(ts: TypeStack, s: seq<ValType>, b: seq<ValType>, a: seq<ValType>)
    requires Covers(ts, s + b) && SubAll(b, a)
    ensures PopAll(ts, a).Ok? && Covers(PopAll(ts, a).value, s)
    decreases |a|
  {
    hide Covers, TryPop;
    if a == [] {
      assert s + b == s;
    } else {
      var n := |a| - 1;
      assert s + b == (s + b[..n]) + [b[n]];
      PopCovers(ts, s + b[..n], b[n], a[n]);
      PopAllCovers(TryPop(ts, a[n]).value, s, b[..n], a[..n]);
    }
  }

  lemma PopTopCovers(ts: TypeStack, s: seq<ValType>, a: seq<ValType>)
    requires Covers(ts, s) && EndsWithin(s, a)
    ensures PopAll(ts, a).Ok? && Covers(PopAll(ts, a).value, s[..|s| - |a|])
  {
    hide Covers, PopAll;
    var rest, b := s[..|s| - |a|], s[|s| - |a|..];
    assert s == rest + b;
    PopAllCovers(ts, rest, b, a);
  }

  lemma PushAllCovers(ts: TypeStack, s: seq<ValType>, r: seq<ValType>)
    requires Covers(ts, s)
    ensures Covers(PushAll(ts, r), s + r)
  {
  }

  lemma RetypeCovers(ts: TypeStack, s: seq<ValType>, s': seq<ValType>, a: seq<ValType>, r: seq<ValType>)
    requires Covers(ts, s) && Rewrites(s, s', a, r)
    ensures Retype(ts, a, r).Ok? && Covers(Retype(ts, a, r).value, s')
  {
    hide Covers, PopAll, PushAll;
    PopTopCovers(ts, s, a);
    PushAllCovers(PopAll(ts, a).value, s[..|s| - |a|], r);
  }

  lemma RetypeLastCovers(ts: TypeStack, s: seq<ValType>, s': seq<ValType>, a: seq<ValType>, r: seq<ValType>)
    requires Covers(ts, s) && Rewrites(s, s', a + [I32], r)
    ensures TryPop(ts, I32).Ok? && Retype(TryPop(ts, I32).value, a, r).Ok?
    ensures Covers(Retype(TryPop(ts, I32).value, a, r).value, s')
  {
    hide Covers, TryPop, Rewrites, PopAll;
    RetypeCovers(ts, s, s', a + [I32], r);
    PopLast(ts, a, I32);
  }

  lemma LeaveCovers(ts: TypeStack, s: seq<ValType>, a: seq<ValType>)
    requires Covers(ts, s) && EndsWithin(s, a)
    ensures Leave(ts, a) == Ok(UNREACHABLE)
  {
    hide PopAll;
    PopTopCovers(ts, s, a);
  }

  lemma AllCovered(s: seq<ValType>)
    ensures Covers(UNREACHABLE, s)
  {
  }

  lemma EndCovers(ts: TypeStack, s: seq<ValType>, rt2: seq<ValType>)
    requires Covers(ts, s) && SubAll(s, rt2)
    ensures CheckEnd(ts, rt2).Ok?
  {
    hide PopAll;
    assert [] + s == s;
    PopAllCovers(ts, [], s, rt2);
  }

  lemma TopCovers(ts: TypeStack, s: seq<ValType>)
    requires Covers(ts, s) && s != []
    ensures Peek(ts).Ok? && Sub(Peek(ts).value, s[|s| - 1])
  {
    if ts.types != [] {
      assert Sub(ts.types[|ts.types| - 1], s[|s| - 1]);
    }
  }

  lemma PushCovers(ts: TypeStack, s: seq<ValType>, u: ValType, t: ValType)
    requires Covers(ts, s) && Sub(u, t)
    ensures Covers(PushAll(ts, [u]), s + [t])
  {
  }

  lemma SelectPops(ts: TypeStack, rest: seq<ValType>, b: seq<ValType>, t: ValType, u: ValType)
    requires Covers(ts, rest + b) && SubAll(b, [t, t]) && Sub(u, b[1])
    ensures Retype(ts, [u, u], [u]).Ok? && Covers(Retype(ts, [u, u], [u]).value, rest + [t])
  {
    hide Covers, TryPop;
    assert rest + b == (rest + [b[0]]) + [b[1]];
    PopCovers(ts, rest + [b[0]], b[1], u);
    var ts1 := TryPop(ts, u).value;
    PopCovers(ts1, rest, b[0], u);
    var ts2 := TryPop(ts1, u).value;
    assert [u] + [u] == [u, u] && [] + [u] == [u];
    PopLast(ts1, [], u);
    PopLast(ts, [u], u);
    assert PopAll(ts2, []) == Ok(ts2);
    PushCovers(ts2, rest, u, t);
  }

  lemma SelectCovers(ts: TypeStack, s: seq<ValType>, s': seq<ValType>, t: ValType)
    requires Covers(ts, s) && (IsNumType(t) || t == ANY) && Rewrites(s, s', [t, t, I32], [t])
    ensures CheckSelect(ts).Ok? && Covers(CheckSelect(ts).value, s')
  {
    hide Retype, TryPop, Covers;
    var n := |s| - 3;
    var rest, b, i := s[..n], s[n..n + 2], s[n + 2];
    assert s == (rest + b) + [i] && s[n..] == b + [i];
    assert Sub(s[n..][0], t) && Sub(s[n..][1], t) && Sub(s[n..][2], I32);
    PopCovers(ts, rest + b, i, I32);
    var ts1 := TryPop(ts, I32).value;
    TopCovers(ts1, rest + b);
    SelectPops(ts1, rest, b, t, Peek(ts1).value);
  }

  lemma NullCovers(C: Context, ts: TypeStack, s: seq<ValType>, s': seq<ValType>, t: ValType)
    requires Covers(ts, s) && Rewrites(s, s', [t], [I32]) && IsRefType(t)
    ensures CheckPlain(C, RefIsNull, ts).Ok? && Covers(CheckPlain(C, RefIsNull, ts).value, s')
    ensures RegularPlain(RefIsNull, ts)
  {
    hide Covers;
    var rest, top := s[..|s| - 1], s[|s| - 1];
    assert s == rest + [top] && s[|s| - 1..][0] == top;
    TopCovers(ts, s);
    PopCovers(ts, rest, top, ANY);
    NullPops(C, ts);
    PushAllCovers(TryPop(ts, ANY).value, rest, [I32]);
  }

  lemma PlainComplete(C: Context, op: Plain, ts: TypeStack, s: seq<ValType>, s': seq<ValType>)
    requires TypedPlain(C, op, s, s') && Covers(ts, s)
    ensures CheckPlain(C, op, ts).Ok? && Covers(CheckPlain(C, op, ts).value, s') && RegularPlain(op, ts)
  {
    hide Covers, PlainSig, Retype, CheckSelect, TryPop, Rewrites, Rule;
    match op
    case Drop =>
      assert s == s' + [s[|s| - 1]];
      PopCovers(ts, s', s[|s| - 1], ANY);
    case Select =>
      var t :| (IsNumType(t) || t == ANY) && Rewrites(s, s', [t, t, I32], [t]);
      SelectCovers(ts, s, s', t);
    case RefIsNull =>
      var t :| IsRefType(t) && Rewrites(s, s', [t], [I32]);
      NullCovers(C, ts, s, s', t);
    case _ =>
      var a, r :| Rule(C, op, a, r) && Rewrites(s, s', a, r);
      RuleIsChecked(C, op, a, r);
      RetypeCovers(ts, s, s', a, r);
  }

  lemma {:induction false} TargetsComplete(C: Context, ls: seq<U32>, d: U32, ts: TypeStack, s: seq<ValType>)
    requires Covers(ts, s) && TypedTable(C, ls, d, s)
    ensures CheckTargets(C, ls, LabelType(C, d).value, ts) == Ok(UNREACHABLE)
    decreases |ls|
  {
    hide Leave, TryPop, Covers, EndsWithin, PopAll;
    var l := LabelType(C, if ls == [] then d else ls[0]).value;
    assert EndsWithin(s, l + [I32]);
    PopTopCovers(ts, s, l + [I32]);
    PopLast(ts, l, I32);
    assert Leave(TryPop(ts, I32).value, l) == Ok(UNREACHABLE) by { LeaveIs(TryPop(ts, I32).value, l); }
    if ls != [] {
      AllCovered(s);
      forall i | 0 <= i < |ls[1..]| ensures ls[1..][i] == ls[i + 1] {
      }
      TargetsComplete(C, ls[1..], d, UNREACHABLE, s);
    }
  }

  lemma LeaveIs(ts: TypeStack, a: seq<ValType>)
    ensures Leave(ts, a).Ok? <==> PopAll(ts, a).Ok?
    ensures Leave(ts, a).Ok? ==> Leave(ts, a) == Ok(UNREACHABLE)
  {
  }

  lemma TableComplete(C: Context, ls: seq<U32>, d: U32, ts: TypeStack, s: seq<ValType>)
    requires Covers(ts, s) && TypedTable(C, ls, d, s)
    ensures LabelType(C, d).Ok? && CheckTargets(C, ls, LabelType(C, d).value, ts) == Ok(UNREACHABLE)
    ensures RegularTable(C, ls, d, ts)
  {
    hide Covers, PopAll, EndsWithin, CheckTargets;
    TargetsComplete(C, ls, d, ts, s);
    PopTopCovers(ts, s, LabelType(C, d).value + [I32]);
    forall i | 0 <= i < |ls|
      ensures PopAll(ts, LabelType(C, ls[i]).value + [I32]).Ok?
    {
      PopTopCovers(ts, s, LabelType(C, ls[i]).value + [I32]);
    }
  }

  /** An `if` that finds its operands: the two orders of popping agree once both succeed. */
  lemma IfCovers(ts: TypeStack, s: seq<ValType>, s': seq<ValType>, ft: FuncType)
    requires Covers(ts, s) && Rewrites(s, s', ft.rt1 + [I32], ft.rt2)
    ensures TryPop(ts, I32).Ok? && PopAll(TryPop(ts, I32).value, ft.rt1).Ok?
    ensures var forward := PopForward(TryPop(ts, I32).value, ft.rt1);
            forward.Ok? ==> Covers(PushAll(forward.value, ft.rt2), s')
  {
    hide Covers, TryPop, PopForward, PushAll, PopAll;
    PopTopCovers(ts, s, ft.rt1 + [I32]);
    PopLast(ts, ft.rt1, I32);
    var ts1 := TryPop(ts, I32).value;
    PopAllBelow(ts1, ft.rt1);
    PushAllCovers(Below(ts1, |ft.rt1|), s[..|s| - |ft.rt1 + [I32]|], ft.rt2);
    if PopForward(ts1, ft.rt1).Ok? {
      PopForwardBelow(ts1, ft.rt1);
    }
  }

  /** Completeness: whatever the type system allows on a stack, the validator accepts, unless
      it parts from the type system there, on every type stack that knows no more; and its
      result knows no more than the stack after. What both accept is regular. */
  lemma {:induction false} InstrComplete(C: Context, ins: Instr, ts: TypeStack, s: seq<ValType>, s': seq<ValType>)
    requires TypedInstr(C, ins, s, s') && Covers(ts, s)
    requires RegularInstr(C, ins, ts) || Check(C, ins, ts).Ok?
    ensures Check(C, ins, ts).Ok? && Covers(Check(C, ins, ts).value, s')
    ensures RegularInstr(C, ins, ts)
    decreases ins, 1
  {
    hide Covers, Typed, TypedBody, CheckBody, CheckTargets, CheckPlain, Retype, Leave, TryPop, BlockTypeOf, LabelType, Regular,
         TypedPlain, TypedTable, Rewrites, EndsWithin, PopAll, PopForward, RegularTable, RegularPlain;
    AllCovered(s');
    match ins
    case Unreachable =>
    case Nop =>
    case Else =>
    case End =>
    case Block(bt, in1, _) =>
      var ft := BlockTypeOf(C, bt).value;
      BodyComplete(WithLabel(C, ft.rt2), in1, ft.rt1, ft.rt2);
      RetypeCovers(ts, s, s', ft.rt1, ft.rt2);
    case Loop(bt, in1, _) =>
      var ft := BlockTypeOf(C, bt).value;
      BodyComplete(WithLabel(C, ft.rt1), in1, ft.rt1, ft.rt2);
      RetypeCovers(ts, s, s', ft.rt1, ft.rt2);
    case If(bt, in1, in2) =>
      var ft := BlockTypeOf(C, bt).value;
      BodyComplete(WithLabel(C, ft.rt2), in1, ft.rt1, ft.rt2);
      BodyComplete(WithLabel(C, ft.rt2), in2, ft.rt1, ft.rt2);
      IfCovers(ts, s, s', ft);
    case Br(k) => LeaveCovers(ts, s, LabelType(C, k).value);
    case BrIf(k) => RetypeLastCovers(ts, s, s', LabelType(C, k).value, LabelType(C, k).value);
    case BrTable(ls, d) => TableComplete(C, ls, d, ts, s);
    case Return => LeaveCovers(ts, s, C.ret.value);
    case Call(x) => RetypeCovers(ts, s, s', C.funcs[x].rt1, C.funcs[x].rt2);
    case CallIndirect(y, x) => RetypeLastCovers(ts, s, s', C.types[y].rt1, C.types[y].rt2);
    case Plain(op) => PlainComplete(C, op, ts, s, s');
  }

  lemma {:induction false} SeqComplete(C: Context, code: Code, ts: TypeStack, s: seq<ValType>, s': seq<ValType>)
    requires Typed(C, code, s, s') && Covers(ts, s)
    requires Regular(C, code, ts) || CheckSeq(C, code, ts).Ok?
    ensures CheckSeq(C, code, ts).Ok? && Covers(CheckSeq(C, code, ts).value, s')
    ensures Regular(C, code, ts)
    decreases code, 0
  {
    hide Covers, Check, TypedInstr, RegularInstr;
    if code.Cons? {
      var mid :| TypedInstr(C, code.ins, s, mid) && Typed(C, code.next, mid, s');
      InstrComplete(C, code.ins, ts, s, mid);
      SeqComplete(C, code.next, Check(C, code.ins, ts).value, mid, s');
    }
  }

  lemma {:induction false} BodyComplete(C: Context, code: Code, rt1: seq<ValType>, rt2: seq<ValType>)
    requires TypedBody(C, code, rt1, rt2)
    requires Regular(C, code, TypeStack(rt1, false)) || CheckBody(C, code, rt1, rt2).Ok?
    ensures CheckBody(C, code, rt1, rt2).Ok? && Regular(C, code, TypeStack(rt1, false))
    decreases code, 1
  {
    hide CheckSeq, CheckEnd, Typed, Regular;
    var s' :| Typed(C, code, rt1, s') && SubAll(s', rt2);
    assert Covers(TypeStack(rt1, false), rt1);
    SeqComplete(C, code, TypeStack(rt1, false), rt1, s');
    EndCovers(CheckSeq(C, code, TypeStack(rt1, false)).value, s', rt2);
  }

  // ---------------------------------------------------------------- soundness

  /** The stacks of operand types that a type stack stands for: below its own types, the
      polymorphic one has any number of unknown operands. */
  ghost predicate Stands(ts: TypeStack, s: seq<ValType>) {
    && |ts.types| <= |s| && (!ts.poly ==> |ts.types| == |s|)
    && s[|s| - |ts.types|..] == ts.types
    && forall i :: 0 <= i < |s| - |ts.types| ==> s[i] == ANY
  }

  /** No declared type but value types: the language the type system is about. */
  ghost predicate ProperContext(C: Context) {
    && (forall i :: 0 <= i < |C.types| ==> Known(C.types[i].rt1) && Known(C.types[i].rt2))
    && (forall i :: 0 <= i < |C.funcs| ==> Known(C.funcs[i].rt1) && Known(C.funcs[i].rt2))
    && Known(C.tables) && Known(C.locals)
    && (forall i :: 0 <= i < |C.globals| ==> IsValTypeCode(C.globals[i].t))
    && (forall i :: 0 <= i < |C.labels| ==> Known(C.labels[i]))
    && (C.ret.Some? ==> Known(C.ret.value))
  }

  /** A type stack as it arises in such a context: unknown types lie below all others, and
      only in unreachable code. */
  ghost predicate Proper(ts: TypeStack) {
    && (forall i :: 0 <= i < |ts.types| ==> IsValTypeCode(ts.types[i]) || (ts.types[i] == ANY && ts.poly))
    && (forall i, j :: 0 <= j < i < |ts.types| && ts.types[i] == ANY ==> ts.types[j] == ANY)
  }

  lemma StandsCovers(ts: TypeStack, s: seq<ValType>)
    requires Stands(ts, s)
    ensures Covers(ts, s)
  {
    forall i | 0 <= i < |ts.types|
      ensures ts.types[i] == s[|s| - |ts.types| + i]
    {
      assert s[|s| - |ts.types|..][i] == ts.types[i];
    }
  }

  /** The operand on top, as the type stack knows it. */
  function TopType(ts: TypeStack): ValType { if ts.types == [] then ANY else ts.types[|ts.types| - 1] }

  lemma Unpop(ts: TypeStack, s: seq<ValType>, wanted: ValType)
    requires TryPop(ts, wanted).Ok? && Stands(TryPop(ts, wanted).value, s)
    ensures Stands(ts, s + [TopType(ts)]) && (wanted != ANY ==> Sub(TopType(ts), wanted))
  {
    var s1 := s + [TopType(ts)];
    if ts.types != [] {
      var n := |ts.types| - 1;
      var below := TryPop(ts, wanted).value.types;
      assert ts.types == below + [ts.types[n]];
      assert s1[|s1| - |ts.types|..] == s[|s| - n..] + [ts.types[n]];
    }
  }

  /** Every stack below popped operands arises from one with operands that fit. */
  lemma {:induction false} UnpopAll(ts: TypeStack, s: seq<ValType>, a: seq<ValType>) returns (b: seq<ValType>)
    requires PopAll(ts, a).Ok? && Stands(PopAll(ts, a).value, s) && Known(a)
    ensures Stands(ts, s + b) && SubAll(b, a)
    decreases |a|
  {
    hide Stands, TryPop;
    if a == [] {
      b := [];
      assert s + b == s;
    } else {
      var n := |a| - 1;
      var b1 := UnpopAll(TryPop(ts, a[n]).value, s, a[..n]);
      Unpop(ts, s + b1, a[n]);
      b := b1 + [TopType(ts)];
      assert s + b == (s + b1) + [TopType(ts)];
    }
  }

  lemma Unpush(ts: TypeStack, s': seq<ValType>, r: seq<ValType>) returns (s: seq<ValType>)
    requires Stands(PushAll(ts, r), s')
    ensures Stands(ts, s) && s' == s + r
  {
    var types := ts.types + r;
    var n := |s'| - |types|;
    s := s'[..|s'| - |r|];
    assert s' == s'[..n] + types;
    assert s == s'[..n] + ts.types;
  }

  lemma JoinEnd(rest: seq<ValType>, b: seq<ValType>, a: seq<ValType>, r: seq<ValType>)
    requires SubAll(b, a)
    ensures EndsWithin(rest + b, a) && Rewrites(rest + b, rest + r, a, r)
  {
    assert (rest + b)[|rest|..] == b && (rest + b)[..|rest|] == rest;
  }

  lemma Unretype(ts: TypeStack, s': seq<ValType>, a: seq<ValType>, r: seq<ValType>) returns (s: seq<ValType>)
    requires Retype(ts, a, r).Ok? && Stands(Retype(ts, a, r).value, s') && Known(a)
    ensures Stands(ts, s) && Rewrites(s, s', a, r)
  {
    hide Stands, PopAll, PushAll, Rewrites;
    var rest := Unpush(PopAll(ts, a).value, s', r);
    var b := UnpopAll(ts, rest, a);
    s := rest + b;
    JoinEnd(rest, b, a, r);
  }

  lemma UnretypeLast(ts: TypeStack, s': seq<ValType>, a: seq<ValType>, r: seq<ValType>) returns (s: seq<ValType>)
    requires TryPop(ts, I32).Ok? && Retype(TryPop(ts, I32).value, a, r).Ok?
    requires Stands(Retype(TryPop(ts, I32).value, a, r).value, s') && Known(a)
    ensures Stands(ts, s) && Rewrites(s, s', a + [I32], r)
  {
    hide Stands, Retype, Rewrites, TryPop;
    RetypeLast(ts, a, I32, r);
    s := Unretype(ts, s', a + [I32], r);
  }

  lemma Unleave(ts: TypeStack, a: seq<ValType>) returns (s: seq<ValType>)
    requires PopAll(ts, a).Ok? && Known(a)
    ensures Stands(ts, s) && EndsWithin(s, a)
  {
    hide PopAll;
    var rest := PopAll(ts, a).value.types;
    var b := UnpopAll(ts, rest, a);
    s := rest + b;
    JoinEnd(rest, b, a, []);
  }

  lemma EndExact(ts: TypeStack, rt2: seq<ValType>) returns (s: seq<ValType>)
    requires CheckEnd(ts, rt2).Ok? && Known(rt2)
    ensures Stands(ts, s) && SubAll(s, rt2)
  {
    hide *;
    EndPops(ts, rt2);
    EmptyStands(PopAll(ts, rt2).value);
    var none: seq<ValType> := [];
    var b := UnpopAll(ts, none, rt2);
    s := b;
    NonePlus(none, b);
  }

  lemma NonePlus(none: seq<ValType>, b: seq<ValType>)
    requires none == []
    ensures none + b == b
  {
  }

  lemma EndPops(ts: TypeStack, rt2: seq<ValType>)
    requires CheckEnd(ts, rt2).Ok?
    ensures PopAll(ts, rt2).Ok? && PopAll(ts, rt2).value.types == []
  {
    hide PopAll;
  }

  lemma EmptyStands(ts: TypeStack)
    requires ts.types == []
    ensures Stands(ts, [])
  {
  }

  /** Whatever fits the type stack fits every stack that it stands for and that is high enough. */
  lemma {:induction false} PopAllWithin(ts: TypeStack, s: seq<ValType>, a: seq<ValType>)
    requires PopAll(ts, a).Ok? && Stands(ts, s) && |a| <= |s| && Known(a)
    ensures EndsWithin(s, a)
    decreases |a|
  {
    hide Stands, TryPop;
    if a != [] {
      var n, m := |a| - 1, |s| - 1;
      PopStands(ts, s, a[n]);
      PopAllWithin(TryPop(ts, a[n]).value, s[..m], a[..n]);
      forall i | 0 <= i < |a|
        ensures Sub(s[|s| - |a|..][i], a[i])
      {
        if i < n {
          assert s[|s| - |a|..][i] == s[..m][m - n..][i] && a[i] == a[..n][i];
        }
      }
    }
  }

  lemma PopStands(ts: TypeStack, s: seq<ValType>, wanted: ValType)
    requires TryPop(ts, wanted).Ok? && Stands(ts, s) && s != [] && wanted != ANY
    ensures Stands(TryPop(ts, wanted).value, s[..|s| - 1]) && Sub(s[|s| - 1], wanted)
  {
    if ts.types != [] {
      var n, m := |ts.types| - 1, |s| - 1;
      assert s[|s| - |ts.types|..][n] == s[m];
      assert s[..m][m - n..] == s[|s| - |ts.types|..][..n];
    }
  }

  lemma {:induction false} TargetsExist(C: Context, ls: seq<U32>, rt: seq<ValType>, ts: TypeStack)
    requires CheckTargets(C, ls, rt, ts).Ok?
    ensures forall i :: 0 <= i < |ls| ==> LabelType(C, ls[i]).Ok? && |LabelType(C, ls[i]).value| == |rt|
    decreases |ls|
  {
    hide Leave, TryPop, LabelType;
    if ls != [] {
      TargetsExist(C, ls[1..], rt, Leave(TryPop(ts, I32).value, LabelType(C, ls[0]).value).value);
      forall i | 0 < i < |ls| ensures ls[i] == ls[1..][i - 1] {
      }
    }
  }

  lemma TableSound(C: Context, ls: seq<U32>, d: U32, ts: TypeStack) returns (s: seq<ValType>)
    requires LabelType(C, d).Ok? && CheckTargets(C, ls, LabelType(C, d).value, ts).Ok?
    requires RegularTable(C, ls, d, ts) && ProperContext(C)
    ensures Stands(ts, s) && TypedTable(C, ls, d, s)
  {
    hide Stands, PopAll, CheckTargets, LabelType, EndsWithin, ProperContext;
    var l := LabelType(C, d).value;
    TargetsExist(C, ls, l, ts);
    LabelKnown(C, d);
    s := Unleave(ts, l + [I32]);
    assert |l + [I32]| <= |s| by { EndsHigh(s, l + [I32]); }
    forall i | 0 <= i < |ls|
      ensures EndsWithin(s, LabelType(C, ls[i]).value + [I32])
    {
      LabelKnown(C, ls[i]);
      PopAllWithin(ts, s, LabelType(C, ls[i]).value + [I32]);
    }
  }

  lemma EndsHigh(s: seq<ValType>, a: seq<ValType>)
    requires EndsWithin(s, a)
    ensures |a| <= |s|
  {
  }

  lemma SelectSound(ts: TypeStack, s': seq<ValType>) returns (s: seq<ValType>)
    requires CheckSelect(ts).Ok? && Stands(CheckSelect(ts).value, s') && Proper(ts)
    ensures Stands(ts, s) && exists t :: (IsNumType(t) || t == ANY) && Rewrites(s, s', [t, t, I32], [t])
  {
    hide Retype;
    var ts1 := TryPop(ts, I32).value;
    var t := Peek(ts1).value;
    if t == ANY {
      s := OpenSelect(ts, s');
    } else {
      assert t == ts1.types[|ts1.types| - 1] == ts.types[|ts1.types| - 1];
      assert [t, t] + [I32] == [t, t, I32];
      s := UnretypeLast(ts, s', [t, t], [t]);
    }
  }

  /** A select whose operand is unknown has unknown operands throughout. */
  lemma OpenSelect(ts: TypeStack, s': seq<ValType>) returns (s: seq<ValType>)
    requires Proper(ts) && TryPop(ts, I32).Ok? && Peek(TryPop(ts, I32).value) == Ok(ANY)
    requires var r := Retype(TryPop(ts, I32).value, [ANY, ANY], [ANY]); r.Ok? && Stands(r.value, s')
    ensures Stands(ts, s) && Rewrites(s, s', [ANY, ANY, I32], [ANY])
  {
    var ts1 := TryPop(ts, I32).value;
    PopAllBelow(ts1, [ANY, ANY]);
    assert ts1.poly && forall i :: 0 <= i < |ts1.types| ==> ts1.types[i] == ANY;
    var rest := Unpush(Below(ts1, 2), s', [ANY]);
    OpenStands(ts1, rest + [ANY, ANY]);
    Unpop(ts, rest + [ANY, ANY], I32);
    var b := [ANY, ANY, TopType(ts)];
    s := rest + b;
    assert s == (rest + [ANY, ANY]) + [TopType(ts)];
    JoinEnd(rest, b, [ANY, ANY, I32], [ANY]);
  }

  lemma OpenStands(ts: TypeStack, s: seq<ValType>)
    requires ts.poly && |ts.types| <= |s|
    requires forall i :: 0 <= i < |ts.types| ==> ts.types[i] == ANY
    requires forall i :: 0 <= i < |s| ==> s[i] == ANY
    ensures Stands(ts, s)
  {
  }

  lemma NullPops(C: Context, ts: TypeStack)
    ensures CheckPlain(C, RefIsNull, ts).Ok? <==> TryPop(ts, ANY).Ok?
    ensures TryPop(ts, ANY).Ok? <==> Peek(ts).Ok?
    ensures CheckPlain(C, RefIsNull, ts).Ok? ==> CheckPlain(C, RefIsNull, ts).value == PushAll(TryPop(ts, ANY).value, [I32])
  {
    assert [] + [ANY] == [ANY];
    PopLast(ts, [], ANY);
  }

  lemma NullSound(C: Context, ts: TypeStack, s': seq<ValType>) returns (s: seq<ValType>)
    requires CheckPlain(C, RefIsNull, ts).Ok? && Stands(CheckPlain(C, RefIsNull, ts).value, s')
    requires Proper(ts) && RegularPlain(RefIsNull, ts)
    ensures Stands(ts, s) && TypedPlain(C, RefIsNull, s, s')
  {
    hide Stands;
    NullPops(C, ts);
    var rest := Unpush(TryPop(ts, ANY).value, s', [I32]);
    Unpop(ts, rest, ANY);
    var t := TopType(ts);
    s := rest + [t];
    JoinEnd(rest, [t], [if t == ANY then FUNCREF else t], [I32]);
  }

  lemma SigKnown(C: Context, op: Plain)
    requires ProperContext(C) && Written(op) && !op.Drop? && !op.Select? && !op.RefIsNull? && PlainSig(C, op).Ok?
    ensures Known(PlainSig(C, op).value.0) && Known(PlainSig(C, op).value.1)
  {
  }

  lemma PlainSound(C: Context, op: Plain, ts: TypeStack, s': seq<ValType>) returns (s: seq<ValType>)
    requires CheckPlain(C, op, ts).Ok? && Stands(CheckPlain(C, op, ts).value, s')
    requires ProperContext(C) && Proper(ts) && RegularPlain(op, ts)
    ensures Stands(ts, s) && TypedPlain(C, op, s, s')
  {
    hide Stands, PlainSig, Retype, TryPop, Rewrites, CheckSelect, ProperContext, Proper, Rule;
    match op
    case Drop =>
      Unpop(ts, s', ANY);
      s := s' + [TopType(ts)];
    case Select => s := SelectSound(ts, s');
    case RefIsNull => s := NullSound(C, ts, s');
    case _ => s := FixedSound(C, op, ts, s');
  }

  lemma FixedSound(C: Context, op: Plain, ts: TypeStack, s': seq<ValType>) returns (s: seq<ValType>)
    requires !op.Drop? && !op.Select? && !op.RefIsNull? && CheckPlain(C, op, ts).Ok? && Stands(CheckPlain(C, op, ts).value, s')
    requires ProperContext(C) && Written(op)
    ensures Stands(ts, s) && TypedPlain(C, op, s, s')
  {
    hide Stands, PlainSig, Retype, TryPop, Rewrites, CheckSelect, ProperContext, Rule;
    SigKnown(C, op);
    var (a, r) := PlainSig(C, op).value;
    RuleIsChecked(C, op, a, r);
    s := Unretype(ts, s', a, r);
  }

  lemma IfSound(ts: TypeStack, s': seq<ValType>, ft: FuncType) returns (s: seq<ValType>)
    requires TryPop(ts, I32).Ok? && PopForward(TryPop(ts, I32).value, ft.rt1).Ok?
    requires Stands(PushAll(PopForward(TryPop(ts, I32).value, ft.rt1).value, ft.rt2), s')
    requires RegularIf(ts, ft.rt1) && Known(ft.rt1)
    ensures Stands(ts, s) && Rewrites(s, s', ft.rt1 + [I32], ft.rt2)
  {
    hide Stands, PopForward, PopAll, PushAll, Rewrites, TryPop;
    var ts1 := TryPop(ts, I32).value;
    PopForwardBelow(ts1, ft.rt1);
    PopAllBelow(ts1, ft.rt1);
    s := UnretypeLast(ts, s', ft.rt1, ft.rt2);
  }

  lemma LabelKnown(C: Context, k: nat)
    requires ProperContext(C) && LabelType(C, k).Ok?
    ensures Known(LabelType(C, k).value)
  {
  }

  lemma BlockKnown(C: Context, bt: BlockType)
    requires ProperContext(C) && BlockTypeOf(C, bt).Ok?
    ensures Known(BlockTypeOf(C, bt).value.rt1) && Known(BlockTypeOf(C, bt).value.rt2)
    ensures ProperContext(WithLabel(C, BlockTypeOf(C, bt).value.rt1))
    ensures ProperContext(WithLabel(C, BlockTypeOf(C, bt).value.rt2))
  {
  }

  lemma ContextKnown(C: Context)
    requires ProperContext(C)
    ensures C.ret.Some? ==> Known(C.ret.value)
    ensures forall i :: 0 <= i < |C.types| ==> Known(C.types[i].rt1) && Known(C.types[i].rt2)
    ensures forall i :: 0 <= i < |C.funcs| ==> Known(C.funcs[i].rt1) && Known(C.funcs[i].rt2)
  {
  }

  /** Soundness: for every stack that the result stands for there is one that the type stack
      before stands for, and the type system leads from the one to the other. */
  lemma {:induction false} InstrSound(C: Context, ins: Instr, ts: TypeStack, s': seq<ValType>) returns (s: seq<ValType>)
    requires Check(C, ins, ts).Ok? && Stands(Check(C, ins, ts).value, s')
    requires ProperContext(C) && Proper(ts) && RegularInstr(C, ins, ts)
    ensures Stands(ts, s) && TypedInstr(C, ins, s, s')
    decreases ins, 1
  {
    hide Stands, Typed, TypedBody, CheckBody, CheckTargets, CheckPlain, Retype, Leave, TryPop, BlockTypeOf, LabelType, Regular,
         TypedPlain, TypedTable, Rewrites, EndsWithin, PopAll, PopForward, RegularTable, RegularPlain, ProperContext, Proper;
    match ins
    case Unreachable => s := OwnTypes(ts);
    case Nop => s := s';
    case Else => s := s';
    case End => s := s';
    case Block(bt, in1, _) =>
      var ft := BlockTypeOf(C, bt).value;
      BlockKnown(C, bt);
      BodySound(WithLabel(C, ft.rt2), in1, ft.rt1, ft.rt2);
      s := Unretype(ts, s', ft.rt1, ft.rt2);
    case Loop(bt, in1, _) =>
      var ft := BlockTypeOf(C, bt).value;
      BlockKnown(C, bt);
      BodySound(WithLabel(C, ft.rt1), in1, ft.rt1, ft.rt2);
      s := Unretype(ts, s', ft.rt1, ft.rt2);
    case If(bt, in1, in2) =>
      var ft := BlockTypeOf(C, bt).value;
      BlockKnown(C, bt);
      BodySound(WithLabel(C, ft.rt2), in1, ft.rt1, ft.rt2);
      BodySound(WithLabel(C, ft.rt2), in2, ft.rt1, ft.rt2);
      s := IfSound(ts, s', ft);
    case Br(k) =>
      LabelKnown(C, k);
      LeaveIs(ts, LabelType(C, k).value);
      s := Unleave(ts, LabelType(C, k).value);
    case BrIf(k) =>
      LabelKnown(C, k);
      s := UnretypeLast(ts, s', LabelType(C, k).value, LabelType(C, k).value);
    case BrTable(ls, d) => s := TableSound(C, ls, d, ts);
    case Return =>
      ContextKnown(C);
      LeaveIs(ts, C.ret.value);
      s := Unleave(ts, C.ret.value);
    case Call(x) =>
      ContextKnown(C);
      s := Unretype(ts, s', C.funcs[x].rt1, C.funcs[x].rt2);
    case CallIndirect(y, x) =>
      ContextKnown(C);
      s := UnretypeLast(ts, s', C.types[y].rt1, C.types[y].rt2);
    case Plain(op) => s := PlainSound(C, op, ts, s');
  }

  lemma OwnTypes(ts: TypeStack) returns (s: seq<ValType>)
    ensures Stands(ts, s)
  {
    s := ts.types;
  }

  // ---------------------------------------------------------------- type stacks stay proper

  lemma RetypeProper(ts: TypeStack, a: seq<ValType>, r: seq<ValType>)
    requires Retype(ts, a, r).Ok? && Proper(ts) && Known(r)
    ensures Proper(Retype(ts, a, r).value)
  {
    PopAllBelow(ts, a);
  }

  lemma RetypeLastProper(ts: TypeStack, a: seq<ValType>, r: seq<ValType>)
    requires TryPop(ts, I32).Ok? && Retype(TryPop(ts, I32).value, a, r).Ok? && Proper(ts) && Known(r)
    ensures Proper(Retype(TryPop(ts, I32).value, a, r).value)
  {
    hide Retype, Proper, TryPop;
    RetypeLast(ts, a, I32, r);
    RetypeProper(ts, a + [I32], r);
  }

  lemma SelectProper(ts: TypeStack)
    requires CheckSelect(ts).Ok? && Proper(ts)
    ensures Proper(CheckSelect(ts).value)
  {
    var ts1 := TryPop(ts, I32).value;
    var t := Peek(ts1).value;
    PopAllBelow(ts1, [t, t]);
  }

  lemma PlainProper(C: Context, op: Plain, ts: TypeStack)
    requires CheckPlain(C, op, ts).Ok? && ProperContext(C) && Proper(ts) && Written(op)
    ensures Proper(CheckPlain(C, op, ts).value)
  {
    hide PlainSig, Retype, CheckSelect, ProperContext;
    match op
    case Drop =>
    case Select => SelectProper(ts);
    case RefIsNull =>
      assert PlainSig(C, RefIsNull) == Ok(([ANY], [I32])) by { NullSig(C); }
      RetypeProper(ts, [ANY], [I32]);
    case _ =>
      SigKnown(C, op);
      RetypeProper(ts, PlainSig(C, op).value.0, PlainSig(C, op).value.1);
  }

  lemma NullSig(C: Context)
    ensures PlainSig(C, RefIsNull) == Ok(([ANY], [I32]))
  {
  }

  lemma {:induction false} TargetsLeave(C: Context, ls: seq<U32>, rt: seq<ValType>, ts: TypeStack)
    requires CheckTargets(C, ls, rt, ts).Ok?
    ensures CheckTargets(C, ls, rt, ts).value == UNREACHABLE
    decreases |ls|
  {
    hide TryPop, LabelType, PopAll;
    if ls != [] {
      TargetsLeave(C, ls[1..], rt, Leave(TryPop(ts, I32).value, LabelType(C, ls[0]).value).value);
    }
  }

  lemma CheckProper(C: Context, ins: Instr, ts: TypeStack)
    requires Check(C, ins, ts).Ok? && ProperContext(C) && Proper(ts) && RegularInstr(C, ins, ts)
    ensures Proper(Check(C, ins, ts).value)
  {
    hide CheckBody, CheckTargets, CheckPlain, Retype, TryPop, BlockTypeOf, LabelType, Regular, RegularTable,
         RegularIf, PopAll, PopForward, ProperContext, Proper;
    assert Proper(UNREACHABLE) by { UnreachableProper(); }
    match ins
    case Unreachable =>
    case Nop =>
    case Else =>
    case End =>
    case Block(bt, _, _) =>
      BlockKnown(C, bt);
      RetypeProper(ts, BlockTypeOf(C, bt).value.rt1, BlockTypeOf(C, bt).value.rt2);
    case Loop(bt, _, _) =>
      BlockKnown(C, bt);
      RetypeProper(ts, BlockTypeOf(C, bt).value.rt1, BlockTypeOf(C, bt).value.rt2);
    case If(bt, _, _) =>
      BlockKnown(C, bt);
      IfProper(ts, BlockTypeOf(C, bt).value);
    case Br(k) =>
    case BrIf(k) =>
      LabelKnown(C, k);
      RetypeLastProper(ts, LabelType(C, k).value, LabelType(C, k).value);
    case BrTable(ls, d) => TargetsLeave(C, ls, LabelType(C, d).value, ts);
    case Return =>
    case Call(x) =>
      ContextKnown(C);
      RetypeProper(ts, C.funcs[x].rt1, C.funcs[x].rt2);
    case CallIndirect(y, x) =>
      ContextKnown(C);
      RetypeLastProper(ts, C.types[y].rt1, C.types[y].rt2);
    case Plain(op) => PlainProper(C, op, ts);
  }

  lemma UnreachableProper()
    ensures Proper(UNREACHABLE)
  {
  }

  lemma IfProper(ts: TypeStack, ft: FuncType)
    requires TryPop(ts, I32).Ok? && PopForward(TryPop(ts, I32).value, ft.rt1).Ok? && Proper(ts) && Known(ft.rt2)
    ensures Proper(PushAll(PopForward(TryPop(ts, I32).value, ft.rt1).value, ft.rt2))
  {
    PopForwardBelow(TryPop(ts, I32).value, ft.rt1);
  }

  lemma {:induction false} SeqSound(C: Context, code: Code, ts: TypeStack, s': seq<ValType>) returns (s: seq<ValType>)
    requires CheckSeq(C, code, ts).Ok? && Stands(CheckSeq(C, code, ts).value, s')
    requires ProperContext(C) && Proper(ts) && Regular(C, code, ts)
    ensures Stands(ts, s) && Typed(C, code, s, s')
    decreases code, 0
  {
    hide Stands, Check, TypedInstr, RegularInstr, ProperContext, Proper;
    if code.Nil? {
      s := s';
    } else {
      var ts1 := Check(C, code.ins, ts).value;
      CheckProper(C, code.ins, ts);
      var mid := SeqSound(C, code.next, ts1, s');
      s := InstrSound(C, code.ins, ts, mid);
    }
  }

  lemma {:induction false} BodySound(C: Context, code: Code, rt1: seq<ValType>, rt2: seq<ValType>)
    requires CheckBody(C, code, rt1, rt2).Ok? && Known(rt1) && Known(rt2)
    requires ProperContext(C) && Regular(C, code, TypeStack(rt1, false))
    ensures TypedBody(C, code, rt1, rt2)
    decreases code, 1
  {
    hide CheckSeq, CheckEnd, Typed, Regular, ProperContext;
    var s' := EndExact(CheckSeq(C, code, TypeStack(rt1, false)).value, rt2);
    var s := SeqSound(C, code, TypeStack(rt1, false), s');
    assert s == rt1;
  }

  // ---------------------------------------------------------------- the decision

  /** Acceptance, the type system and regularity: any two of them give the third. On regular
      lists the validator decides the type system; an accepted list is well typed exactly when
      it is regular; a well typed list is accepted exactly when it is regular. */
  lemma BodyDecided(C: Context, code: Code, rt1: seq<ValType>, rt2: seq<ValType>)
    requires Known(rt1) && Known(rt2) && ProperContext(C)
    ensures Regular(C, code, TypeStack(rt1, false)) ==> (CheckBody(C, code, rt1, rt2).Ok? <==> TypedBody(C, code, rt1, rt2))
    ensures CheckBody(C, code, rt1, rt2).Ok? ==> (TypedBody(C, code, rt1, rt2) <==> Regular(C, code, TypeStack(rt1, false)))
    ensures TypedBody(C, code, rt1, rt2) ==> (CheckBody(C, code, rt1, rt2).Ok? <==> Regular(C, code, TypeStack(rt1, false)))
  {
    hide CheckBody, TypedBody, ProperContext, Regular;
    if CheckBody(C, code, rt1, rt2).Ok? && Regular(C, code, TypeStack(rt1, false)) {
      BodySound(C, code, rt1, rt2);
    }
    if TypedBody(C, code, rt1, rt2) && (CheckBody(C, code, rt1, rt2).Ok? || Regular(C, code, TypeStack(rt1, false))) {
      BodyComplete(C, code, rt1, rt2);
    }
  }

  lemma FuncDecided(C: Context, f: Func)
    requires f.typeidx < |C.types| && ProperContext(FuncContext(C, C.types[f.typeidx], f))
    ensures var C1, rt2 := FuncContext(C, C.types[f.typeidx], f), C.types[f.typeidx].rt2;
            && (Regular(C1, f.body, TypeStack([], false)) ==> (CheckFunc(C, f).Ok? <==> TypedBody(C1, f.body, [], rt2)))
            && (CheckFunc(C, f).Ok? ==> (TypedBody(C1, f.body, [], rt2) <==> Regular(C1, f.body, TypeStack([], false))))
            && (TypedBody(C1, f.body, [], rt2) ==> (CheckFunc(C, f).Ok? <==> Regular(C1, f.body, TypeStack([], false))))
  {
    hide CheckBody, TypedBody, Regular;
    var C1 := FuncContext(C, C.types[f.typeidx], f);
    ContextKnown(C1);
    BodyDecided(C1, f.body, [], C.types[f.typeidx].rt2);
  }

  /** One accepted instruction is well typed on some stack that the type stack stands for
      exactly when it is regular there. For select the two always agree. */
  lemma InstrDecided(C: Context, ins: Instr, ts: TypeStack)
    requires ProperContext(C) && Proper(ts) && Check(C, ins, ts).Ok?
    ensures RegularInstr(C, ins, ts) <==> exists s, s' :: Stands(ts, s) && TypedInstr(C, ins, s, s')
  {
    hide Check, TypedInstr, ProperContext, Proper, RegularInstr, Stands;
    if RegularInstr(C, ins, ts) {
      var s' := OwnTypes(Check(C, ins, ts).value);
      var s := InstrSound(C, ins, ts, s');
    }
    if s, s' :| Stands(ts, s) && TypedInstr(C, ins, s, s') {
      StandsCovers(ts, s);
      InstrComplete(C, ins, ts, s, s');
    }
  }

  lemma SelectDecided(C: Context, ts: TypeStack)
    requires ProperContext(C) && Proper(ts)
    ensures CheckSelect(ts).Ok? <==> exists s, s' :: Stands(ts, s) && TypedPlain(C, Select, s, s')
  {
    hide CheckSelect, TypedPlain, ProperContext, Proper, Stands;
    if CheckSelect(ts).Ok? {
      var s' := OwnTypes(CheckSelect(ts).value);
      var s := PlainSound(C, Select, ts, s');
    }
    if s, s' :| Stands(ts, s) && TypedPlain(C, Select, s, s') {
      StandsCovers(ts, s);
      PlainComplete(C, Select, ts, s, s');
    }
  }

  /** ref.is_null: accepted wherever there is an operand, well typed wherever that is no number. */
  lemma NullDecided(C: Context, ts: TypeStack)
    requires ProperContext(C) && Proper(ts)
    ensures CheckPlain(C, RefIsNull, ts).Ok? <==> Peek(ts).Ok?
    ensures (exists s, s' :: Stands(ts, s) && TypedPlain(C, RefIsNull, s, s')) <==> Peek(ts).Ok? && !IsNumType(Peek(ts).value)
  {
    NullPops(C, ts);
    hide CheckPlain, TypedPlain, ProperContext, Proper, Stands;
    if Peek(ts).Ok? && !IsNumType(Peek(ts).value) {
      var s' := OwnTypes(CheckPlain(C, RefIsNull, ts).value);
      var s := NullSound(C, ts, s');
    }
    if s, s' :| Stands(ts, s) && TypedPlain(C, RefIsNull, s, s') {
      StandsCovers(ts, s);
      PlainComplete(C, RefIsNull, ts, s, s');
    }
  }
}
