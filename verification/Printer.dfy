/** The binary form of instruction trees, and that decoding inverts it. */
module Printer {
  import opened Syntax
  import opened Leb128
  import opened Encoding
  import opened Decoding

  function Bytes32(v: U32): (b: seq<Byte>)
    ensures |b| == 4
  {
    [v % 0x100, v / 0x100 % 0x100, v / 0x1_0000 % 0x100, v / 0x100_0000]
  }

  function Bytes64(v: U64): (b: seq<Byte>)
    ensures |b| == 8
  {
    Bytes32(v % 0x1_0000_0000) + Bytes32(v / 0x1_0000_0000)
  }

  lemma WordBytes32(v: U32)
    ensures Word32(Bytes32(v)) == v
  {
    var a := v / 0x100;
    var b := a / 0x100;
    assert v / 0x1_0000 == b && v / 0x100_0000 == b / 0x100;
    assert v == v % 0x100 + 0x100 * a && a == a % 0x100 + 0x100 * b && b == b % 0x100 + 0x100 * (b / 0x100);
  }

  lemma WordBytes64(v: U64)
    ensures Word64(Bytes64(v)) == v
  {
    assert Bytes64(v)[..4] == Bytes32(v % 0x1_0000_0000);
    assert Bytes64(v)[4..] == Bytes32(v / 0x1_0000_0000);
    WordBytes32(v % 0x1_0000_0000);
    WordBytes32(v / 0x1_0000_0000);
  }

  function WriteUs(vs: seq<U32>): seq<Byte> {
    if vs == [] then [] else WriteU(vs[0]) + WriteUs(vs[1..])
  }

  /** Signed value of an N-bit pattern. */
  function Signed32(bits: nat): int { if bits < TWO31 then bits else bits - TWO32 }

  function Signed64(bits: U64): int { if bits < TWO63 then bits else bits - TWO64 }

  // ---------------------------------------------------------------- printing

  /** The operators, accesses and constants that have a binary form. */
  predicate PrintablePlain(op: Plain, hasData: bool) {
    match op
    case Num(opcode) => 0x45 <= opcode <= 0xC4
    case Access(opcode, _, _) => 0x28 <= opcode <= 0x3E
    case Const(t, bits) => t in {I32, I64, F32, F64} && (t in {I32, F32} ==> bits < TWO32)
    case TruncSat(op2) => op2 <= 7
    case SelectT(types) => |types| < TWO32
    case MemoryInit(_) => hasData
    case DataDrop(_) => hasData
    case _ => true
  }

  function PrintPlain(op: Plain): seq<Byte>
    requires PrintablePlain(op, true)
  {
    match op
    case Drop => [0x1A]
    case Select => [0x1B]
    case SelectT(types) => [0x1C] + (WriteU(|types|) + types)
    case LocalGet(x) => [0x20] + WriteU(x)
    case LocalSet(x) => [0x21] + WriteU(x)
    case LocalTee(x) => [0x22] + WriteU(x)
    case GlobalGet(x) => [0x23] + WriteU(x)
    case GlobalSet(x) => [0x24] + WriteU(x)
    case TableGet(x) => [0x25] + WriteU(x)
    case TableSet(x) => [0x26] + WriteU(x)
    case Access(opcode, align, offset) => [opcode] + (WriteU(align) + WriteU(offset))
    case MemorySize => [0x3F] + [0x00]
    case MemoryGrow => [0x40] + [0x00]
    case Const(t, bits) =>
      if t == I32 then [0x41] + WriteS(Signed32(bits))
      else if t == I64 then [0x42] + WriteS(Signed64(bits))
      else if t == F32 then [0x43] + Bytes32(bits)
      else [0x44] + Bytes64(bits)
    case Num(opcode) => [opcode]
    case RefNull(t) => [0xD0] + [t]
    case RefIsNull => [0xD1]
    case RefFunc(x) => [0xD2] + WriteU(x)
    case TruncSat(op2) => [0xFC] + WriteU(op2)
    case MemoryInit(x) => [0xFC] + (WriteU(0x08) + (WriteU(x) + WriteU(0)))
    case DataDrop(x) => [0xFC] + (WriteU(0x09) + WriteU(x))
    case MemoryCopy => [0xFC] + (WriteU(0x0A) + (WriteU(0) + WriteU(0)))
    case MemoryFill => [0xFC] + (WriteU(0x0B) + WriteU(0))
    case TableInit(x, y) => [0xFC] + (WriteU(0x0C) + (WriteU(y) + WriteU(x)))
    case ElemDrop(x) => [0xFC] + (WriteU(0x0D) + WriteU(x))
    case TableCopy(x, y) => [0xFC] + (WriteU(0x0E) + (WriteU(x) + WriteU(y)))
    case TableGrow(x) => [0xFC] + (WriteU(0x0F) + WriteU(x))
    case TableSize(x) => [0xFC] + (WriteU(0x10) + WriteU(x))
    case TableFill(x) => [0xFC] + (WriteU(0x11) + WriteU(x))
  }

  function PrintBlockType(bt: BlockType): seq<Byte> {
    if bt < 0x100 && IsBlockCode(bt) then [bt] else WriteU(bt)
  }

  /** A tree the printer can write: shaped as decoded code is, with operands that have a
      binary form. */
  ghost predicate Printable(code: Code, thenBranch: bool, hasData: bool)
    decreases code
  {
    && code.Cons? && PrintableInstr(code.ins, hasData)
    && (if code.next.Nil? then Ends(code.ins, thenBranch)
        else !Ends(code.ins, thenBranch) && Printable(code.next, thenBranch, hasData))
  }

  ghost predicate PrintableInstr(ins: Instr, hasData: bool)
    decreases ins
  {
    if ins.Plain? then PrintablePlain(ins.op, hasData)
    else if ins.BrTable? then |ins.labels| < TWO32
    else if ins.Block? || ins.Loop? || ins.If? then
      && Printable(ins.in1, true, hasData)
      && (Last(ins.in1).Else? <==> ins.in2.Cons?)
      && (ins.in2.Cons? ==> Printable(ins.in2, false, hasData))
    else true
  }

  ghost function PrintInstr(ins: Instr, hasData: bool): (bytes: seq<Byte>)
    requires PrintableInstr(ins, hasData)
    ensures bytes != []
    decreases ins, 1
  {
    match ins
    case Unreachable => [0x00]
    case Nop => [0x01]
    case Else => [0x05]
    case End => [0x0B]
    case Return => [0x0F]
    case Br(k) => [0x0C] + WriteU(k)
    case BrIf(k) => [0x0D] + WriteU(k)
    case BrTable(ls, d) => [0x0E] + (WriteU(|ls|) + (WriteUs(ls) + WriteU(d)))
    case Call(x) => [0x10] + WriteU(x)
    case CallIndirect(y, x) => [0x11] + (WriteU(y) + WriteU(x))
    case Plain(op) => PrintPlain(op)
    case Block(bt, in1, in2) => [0x02] + (PrintBlockType(bt) + PrintNest(ins, hasData))
    case Loop(bt, in1, in2) => [0x03] + (PrintBlockType(bt) + PrintNest(ins, hasData))
    case If(bt, in1, in2) => [0x04] + (PrintBlockType(bt) + PrintNest(ins, hasData))
  }

  /** The nested lists; ELSE, where there is a second list, ends the first. */
  ghost function PrintNest(ins: Instr, hasData: bool): seq<Byte>
    requires PrintableInstr(ins, hasData) && (ins.Block? || ins.Loop? || ins.If?)
    decreases ins, 0
  {
    PrintList(ins.in1, true, hasData) + if ins.in2.Cons? then PrintList(ins.in2, false, hasData) else []
  }

  ghost function PrintList(code: Code, thenBranch: bool, hasData: bool): (bytes: seq<Byte>)
    requires Printable(code, thenBranch, hasData)
    ensures bytes != []
    decreases code, 0
  {
    PrintInstr(code.ins, hasData) + if code.next.Cons? then PrintList(code.next, thenBranch, hasData) else []
  }

  // ---------------------------------------------------------------- reading back operands

  lemma {:induction false} ReadBackUs(data: seq<Byte>, p: nat, vs: seq<U32>)
    requires p <= |data| && At(data, p, WriteUs(vs))
    ensures ReadU32s(data, p, |vs|) == Ok((vs, p + |WriteUs(vs)|))
    decreases |vs|
  {
    hide ReadU32, WriteU;
    if vs != [] {
      AtSplit(data, p, WriteU(vs[0]), WriteUs(vs[1..]));
      RoundTripU32(data, p, vs[0]);
      ReadBackUs(data, p + |WriteU(vs[0])|, vs[1..]);
      assert vs == [vs[0]] + vs[1..];
    }
  }

  lemma ReadBackBlockType(data: seq<Byte>, p: nat, bt: BlockType)
    requires At(data, p, PrintBlockType(bt))
    ensures ReadBlockType(data, p) == Ok((bt, p + |PrintBlockType(bt)|))
  {
    hide ReadU32;
    var bytes := PrintBlockType(bt);
    assert data[p] == data[p..p + |bytes|][0] == bytes[0];
    if !(bt < 0x100 && IsBlockCode(bt)) {
      assert bytes[0] == if bt < 0x80 then bt else 0x80 + bt % 0x80;
      RoundTripU32(data, p, bt);
    }
  }

  lemma ReadBackByte(data: seq<Byte>, p: nat, b: Byte)
    requires At(data, p, [b])
    ensures p < |data| && data[p] == b
  {
    assert data[p] == data[p..p + 1][0];
  }

  // ---------------------------------------------------------------- reading back flat instructions

  /** Two numbers after an opcode. */
  lemma ReadBackPair(data: seq<Byte>, p: nat, x: U32, y: U32)
    requires At(data, p, WriteU(x) + WriteU(y))
    ensures ReadU32(data, p) == Ok((x, p + |WriteU(x)|))
    ensures ReadU32(data, p + |WriteU(x)|) == Ok((y, p + |WriteU(x) + WriteU(y)|))
  {
    hide ReadU32, WriteU, At;
    AtSplit(data, p, WriteU(x), WriteU(y));
    RoundTripU32(data, p, x);
    RoundTripU32(data, p + |WriteU(x)|, y);
  }

  lemma ReadBackTriple(data: seq<Byte>, p: nat, x: U32, y: U32, z: U32)
    requires At(data, p, WriteU(x) + (WriteU(y) + WriteU(z)))
    ensures ReadU32(data, p) == Ok((x, p + |WriteU(x)|))
    ensures ReadU32(data, p + |WriteU(x)|) == Ok((y, p + |WriteU(x)| + |WriteU(y)|))
    ensures ReadU32(data, p + |WriteU(x)| + |WriteU(y)|) == Ok((z, p + |WriteU(x) + (WriteU(y) + WriteU(z))|))
  {
    hide ReadU32, WriteU, At;
    var first, rest := WriteU(x), WriteU(y) + WriteU(z);
    AtSplit(data, p, first, rest);
    RoundTripU32(data, p, x);
    var q := p + |first|;
    ReadBackPair(data, q, y, z);
    assert q + |rest| == p + |first + rest|;
  }

  /** The operands `rest` of opcode `op`, at `p`. */
  ghost predicate Flat(data: seq<Byte>, p: nat, op: Byte, rest: seq<Byte>, ins: Instr, hasData: bool)
    requires !IsNesting(op)
  {
    p <= |data| && At(data, p, rest) ==> DecodeFlat(data, p, op, hasData) == Ok((ins, p + |rest|))
  }

  lemma FlatIndexed(data: seq<Byte>, p: nat, op: Byte, x: U32, hasData: bool)
    requires Indexed(op, x).Some?
    ensures !IsNesting(op) && Flat(data, p, op, WriteU(x), Indexed(op, x).value, hasData)
  {
    hide ReadU32, WriteU;
    if At(data, p, WriteU(x)) {
      RoundTripU32(data, p, x);
    }
  }

  lemma FlatPaired(data: seq<Byte>, p: nat, op: Byte, x: U32, y: U32, hasData: bool)
    requires Paired(op, x, y).Some?
    ensures !IsNesting(op) && Flat(data, p, op, WriteU(x) + WriteU(y), Paired(op, x, y).value, hasData)
  {
    hide ReadU32, WriteU;
    if At(data, p, WriteU(x) + WriteU(y)) {
      ReadBackPair(data, p, x, y);
    }
  }

  lemma FlatBrTable(data: seq<Byte>, p: nat, ls: seq<U32>, d: U32, hasData: bool)
    requires |ls| < TWO32
    ensures Flat(data, p, 0x0E, WriteU(|ls|) + (WriteUs(ls) + WriteU(d)), BrTable(ls, d), hasData)
  {
    hide ReadU32, WriteU, WriteUs, ReadU32s;
    if p <= |data| && At(data, p, WriteU(|ls|) + (WriteUs(ls) + WriteU(d))) {
      var n := WriteU(|ls|);
      AtSplit(data, p, n, WriteUs(ls) + WriteU(d));
      RoundTripU32(data, p, |ls|);
      AtSplit(data, p + |n|, WriteUs(ls), WriteU(d));
      ReadBackUs(data, p + |n|, ls);
      RoundTripU32(data, p + |n| + |WriteUs(ls)|, d);
    }
  }

  lemma FlatSelectT(data: seq<Byte>, p: nat, types: seq<ValType>, hasData: bool)
    requires |types| < TWO32
    ensures Flat(data, p, 0x1C, WriteU(|types|) + types, Instr.Plain(SelectT(types)), hasData)
  {
    hide ReadU32, WriteU, DecodeFlat, DecodeSelectT, At;
    if p <= |data| && At(data, p, WriteU(|types|) + types) {
      AtSplit(data, p, WriteU(|types|), types);
      RoundTripU32(data, p, |types|);
      SelectTIs(data, p, types);
      assert DecodeFlat(data, p, 0x1C, hasData) == DecodeSelectT(data, p) by { DispatchSelectT(data, p, hasData); }
    }
  }

  lemma DispatchSelectT(data: seq<Byte>, p: nat, hasData: bool)
    requires p <= |data|
    ensures DecodeFlat(data, p, 0x1C, hasData) == DecodeSelectT(data, p)
  {
    hide DecodeSelectT;
  }

  lemma SelectTIs(data: seq<Byte>, p: nat, types: seq<ValType>)
    requires |types| < TWO32
    requires ReadU32(data, p) == Ok((|types|, p + |WriteU(|types|)|)) && At(data, p + |WriteU(|types|)|, types)
    ensures DecodeSelectT(data, p) == Ok((Instr.Plain(SelectT(types)), p + |WriteU(|types|) + types|))
  {
    hide ReadU32, WriteU;
  }

  lemma FlatConst(data: seq<Byte>, p: nat, t: ValType, bits: U64, hasData: bool)
    requires PrintablePlain(Const(t, bits), hasData)
    ensures var (op: Byte, rest) :=
              if t == I32 then (0x41, WriteS(Signed32(bits)))
              else if t == I64 then (0x42, WriteS(Signed64(bits)))
              else if t == F32 then (0x43, Bytes32(bits))
              else (0x44, Bytes64(bits));
            Flat(data, p, op, rest, Instr.Plain(Const(t, bits)), hasData)
  {
    hide ReadI32, ReadI64, WriteS, Bytes32, Bytes64, Word32, Word64;
    if t == I32 && At(data, p, WriteS(Signed32(bits))) {
      RoundTripI32(data, p, Signed32(bits));
      assert Signed32(bits) % TWO32 == bits;
    } else if t == I64 && At(data, p, WriteS(Signed64(bits))) {
      RoundTripI64(data, p, Signed64(bits));
      assert Signed64(bits) % TWO64 == bits;
    } else if t == F32 {
      WordBytes32(bits);
    } else if t == F64 {
      WordBytes64(bits);
    }
  }

  lemma DispatchFc(data: seq<Byte>, p: nat, hasData: bool)
    requires p <= |data|
    ensures DecodeFlat(data, p, 0xFC, hasData) == DecodeFc(data, p, hasData)
  {
    hide DecodeFc;
  }

  lemma FlatFcIndexed(data: seq<Byte>, p: nat, op2: U32, x: U32, hasData: bool)
    requires FcIndexed(op2, x).Some? && (op2 == 0x09 ==> hasData)
    ensures Flat(data, p, 0xFC, WriteU(op2) + WriteU(x), Instr.Plain(FcIndexed(op2, x).value), hasData)
  {
    hide ReadU32, WriteU, DecodeFlat, At, WriteUs;
    if p <= |data| && At(data, p, WriteU(op2) + WriteU(x)) {
      ReadBackPair(data, p, op2, x);
      DispatchFc(data, p, hasData);
    }
  }

  lemma FcPairedIs(data: seq<Byte>, p: nat, q: nat, q': nat, q'': nat, op2: U32, x: U32, y: U32, hasData: bool)
    requires FcPaired(op2, x, y).Some? && (op2 == 0x08 ==> hasData)
    requires ReadU32(data, p) == Ok((op2, q)) && ReadU32(data, q) == Ok((x, q')) && ReadU32(data, q') == Ok((y, q''))
    ensures DecodeFc(data, p, hasData) == Ok((Instr.Plain(FcPaired(op2, x, y).value), q''))
  {
    hide ReadU32;
  }

  lemma FlatFcPaired(data: seq<Byte>, p: nat, op2: U32, x: U32, y: U32, hasData: bool)
    requires FcPaired(op2, x, y).Some? && (op2 == 0x08 ==> hasData)
    ensures Flat(data, p, 0xFC, WriteU(op2) + (WriteU(x) + WriteU(y)), Instr.Plain(FcPaired(op2, x, y).value), hasData)
  {
    hide ReadU32, WriteU, DecodeFlat, At, WriteUs, DecodeFc, FcPaired;
    var rest := WriteU(op2) + (WriteU(x) + WriteU(y));
    if p <= |data| && At(data, p, rest) {
      ReadBackTriple(data, p, op2, x, y);
      DispatchFc(data, p, hasData);
      FcPairedIs(data, p, p + |WriteU(op2)|, p + |WriteU(op2)| + |WriteU(x)|, p + |rest|, op2, x, y, hasData);
    }
  }

  lemma FlatTruncSat(data: seq<Byte>, p: nat, op2: U32, hasData: bool)
    requires op2 <= 7
    ensures Flat(data, p, 0xFC, WriteU(op2), Instr.Plain(TruncSat(op2)), hasData)
  {
    hide ReadU32, WriteU, DecodeFlat, At, WriteUs;
    if p <= |data| && At(data, p, WriteU(op2)) {
      RoundTripU32(data, p, op2);
      DispatchFc(data, p, hasData);
    }
  }

  lemma FlatByte(data: seq<Byte>, p: nat, hasData: bool)
    ensures Flat(data, p, 0x3F, [0x00], Instr.Plain(MemorySize), hasData)
    ensures Flat(data, p, 0x40, [0x00], Instr.Plain(MemoryGrow), hasData)
    ensures forall t: ValType {:trigger RefNull(t)} :: Flat(data, p, 0xD0, [t], Instr.Plain(RefNull(t)), hasData)
  {
    hide ReadU7;
    if At(data, p, [0x00]) {
      ReadBackByte(data, p, 0x00);
      ReadU7Exact(data, p);
    }
    forall t: ValType
      ensures Flat(data, p, 0xD0, [t], Instr.Plain(RefNull(t)), hasData)
    {
      if At(data, p, [t]) {
        ReadBackByte(data, p, t);
      }
    }
  }

  // ---------------------------------------------------------------- reading back one flat instruction

  /** Decoding at `p` gives `ins` and consumes `bytes`. */
  ghost predicate Gives(data: seq<Byte>, p: nat, bytes: seq<Byte>, ins: Instr, hasData: bool)
    requires p <= |data|
  {
    At(data, p, bytes) ==> DecodeInstr(data, p, hasData) == Ok((ins, p + |bytes|))
  }

  lemma GivesFlat(data: seq<Byte>, p: nat, op: Byte, rest: seq<Byte>, ins: Instr, hasData: bool)
    requires p <= |data| && !IsNesting(op) && (At(data, p, [op]) ==> Flat(data, p + 1, op, rest, ins, hasData))
    ensures Gives(data, p, [op] + rest, ins, hasData)
  {
    hide DecodeFlat, At;
    if At(data, p, [op] + rest) {
      AtSplit(data, p, [op], rest);
      ReadBackByte(data, p, op);
    }
  }

  lemma GivesBare(data: seq<Byte>, p: nat, op: Byte, hasData: bool)
    requires p <= |data| && Bare(op).Some?
    ensures Gives(data, p, [op], Bare(op).value, hasData)
  {
    assert [op] + [] == [op];
    GivesFlat(data, p, op, [], Bare(op).value, hasData);
  }

  lemma GivesIndexed(data: seq<Byte>, p: nat, op: Byte, x: U32, hasData: bool)
    requires p <= |data| && Indexed(op, x).Some?
    ensures Gives(data, p, [op] + WriteU(x), Indexed(op, x).value, hasData)
  {
    hide Flat, Gives, Indexed, WriteU;
    FlatIndexed(data, p + 1, op, x, hasData);
    GivesFlat(data, p, op, WriteU(x), Indexed(op, x).value, hasData);
  }

  lemma GivesPaired(data: seq<Byte>, p: nat, op: Byte, x: U32, y: U32, hasData: bool)
    requires p <= |data| && Paired(op, x, y).Some?
    ensures Gives(data, p, [op] + (WriteU(x) + WriteU(y)), Paired(op, x, y).value, hasData)
  {
    hide Flat, Gives, Paired, WriteU;
    FlatPaired(data, p + 1, op, x, y, hasData);
    GivesFlat(data, p, op, WriteU(x) + WriteU(y), Paired(op, x, y).value, hasData);
  }

  lemma GivesFcIndexed(data: seq<Byte>, p: nat, op2: U32, x: U32, hasData: bool)
    requires p <= |data| && FcIndexed(op2, x).Some? && (op2 == 0x09 ==> hasData)
    ensures Gives(data, p, [0xFC] + (WriteU(op2) + WriteU(x)), Instr.Plain(FcIndexed(op2, x).value), hasData)
  {
    hide Flat, Gives, FcIndexed, WriteU;
    FlatFcIndexed(data, p + 1, op2, x, hasData);
    GivesFlat(data, p, 0xFC, WriteU(op2) + WriteU(x), Instr.Plain(FcIndexed(op2, x).value), hasData);
  }

  lemma GivesFcPaired(data: seq<Byte>, p: nat, op2: U32, x: U32, y: U32, hasData: bool)
    requires p <= |data| && FcPaired(op2, x, y).Some? && (op2 == 0x08 ==> hasData)
    ensures Gives(data, p, [0xFC] + (WriteU(op2) + (WriteU(x) + WriteU(y))), Instr.Plain(FcPaired(op2, x, y).value), hasData)
  {
    hide Flat, Gives, FcPaired, WriteU;
    FlatFcPaired(data, p + 1, op2, x, y, hasData);
    GivesFlat(data, p, 0xFC, WriteU(op2) + (WriteU(x) + WriteU(y)), Instr.Plain(FcPaired(op2, x, y).value), hasData);
  }

  lemma GivesConst(data: seq<Byte>, p: nat, t: ValType, bits: U64, hasData: bool)
    requires p <= |data| && PrintablePlain(Const(t, bits), hasData)
    ensures Gives(data, p, PrintPlain(Const(t, bits)), Instr.Plain(Const(t, bits)), hasData)
  {
    hide Flat, Gives, WriteS, Bytes32, Bytes64, Signed32, Signed64;
    FlatConst(data, p + 1, t, bits, hasData);
    var ins := Instr.Plain(Const(t, bits));
    if t == I32 {
      GivesFlat(data, p, 0x41, WriteS(Signed32(bits)), ins, hasData);
    } else if t == I64 {
      GivesFlat(data, p, 0x42, WriteS(Signed64(bits)), ins, hasData);
    } else if t == F32 {
      GivesFlat(data, p, 0x43, Bytes32(bits), ins, hasData);
    } else {
      GivesFlat(data, p, 0x44, Bytes64(bits), ins, hasData);
    }
  }

  lemma GivesPlainFc(data: seq<Byte>, p: nat, op: Plain, hasData: bool)
    requires p <= |data| && PrintablePlain(op, hasData)
    requires op.TruncSat? || op.MemoryInit? || op.DataDrop? || op.MemoryCopy? || op.MemoryFill? || op.TableInit?
             || op.ElemDrop? || op.TableCopy? || op.TableGrow? || op.TableSize? || op.TableFill?
    ensures Gives(data, p, PrintPlain(op), Instr.Plain(op), hasData)
  {
    hide Gives, WriteU, Flat;
    match op
    case TruncSat(op2) =>
      FlatTruncSat(data, p + 1, op2, hasData);
      GivesFlat(data, p, 0xFC, WriteU(op2), Instr.Plain(op), hasData);
    case MemoryInit(x) => GivesFcPaired(data, p, 0x08, x, 0, hasData);
    case DataDrop(x) => GivesFcIndexed(data, p, 0x09, x, hasData);
    case MemoryCopy => GivesFcPaired(data, p, 0x0A, 0, 0, hasData);
    case MemoryFill => GivesFcIndexed(data, p, 0x0B, 0, hasData);
    case TableInit(x, y) => GivesFcPaired(data, p, 0x0C, y, x, hasData);
    case ElemDrop(x) => GivesFcIndexed(data, p, 0x0D, x, hasData);
    case TableCopy(x, y) => GivesFcPaired(data, p, 0x0E, x, y, hasData);
    case TableGrow(x) => GivesFcIndexed(data, p, 0x0F, x, hasData);
    case TableSize(x) => GivesFcIndexed(data, p, 0x10, x, hasData);
    case TableFill(x) => GivesFcIndexed(data, p, 0x11, x, hasData);
    case _ =>
  }

  lemma GivesPlain(data: seq<Byte>, p: nat, op: Plain, hasData: bool)
    requires p <= |data| && PrintablePlain(op, hasData)
    ensures Gives(data, p, PrintPlain(op), Instr.Plain(op), hasData)
  {
    hide Gives, WriteU, Flat, WriteS, Bytes32, Bytes64;
    match op
    case Drop => GivesBare(data, p, 0x1A, hasData);
    case Select => GivesBare(data, p, 0x1B, hasData);
    case SelectT(types) =>
      FlatSelectT(data, p + 1, types, hasData);
      GivesFlat(data, p, 0x1C, WriteU(|types|) + types, Instr.Plain(op), hasData);
    case LocalGet(x) => GivesIndexed(data, p, 0x20, x, hasData);
    case LocalSet(x) => GivesIndexed(data, p, 0x21, x, hasData);
    case LocalTee(x) => GivesIndexed(data, p, 0x22, x, hasData);
    case GlobalGet(x) => GivesIndexed(data, p, 0x23, x, hasData);
    case GlobalSet(x) => GivesIndexed(data, p, 0x24, x, hasData);
    case TableGet(x) => GivesIndexed(data, p, 0x25, x, hasData);
    case TableSet(x) => GivesIndexed(data, p, 0x26, x, hasData);
    case Access(opcode, align, offset) => GivesPaired(data, p, opcode, align, offset, hasData);
    case MemorySize =>
      FlatByte(data, p + 1, hasData);
      GivesFlat(data, p, 0x3F, [0x00], Instr.Plain(op), hasData);
    case MemoryGrow =>
      FlatByte(data, p + 1, hasData);
      GivesFlat(data, p, 0x40, [0x00], Instr.Plain(op), hasData);
    case Const(t, bits) => GivesConst(data, p, t, bits, hasData);
    case Num(opcode) => GivesBare(data, p, opcode, hasData);
    case RefNull(t) =>
      FlatByte(data, p + 1, hasData);
      assert Instr.Plain(op) == Instr.Plain(RefNull(t));
      GivesFlat(data, p, 0xD0, [t], Instr.Plain(RefNull(t)), hasData);
    case RefIsNull => GivesBare(data, p, 0xD1, hasData);
    case RefFunc(x) => GivesIndexed(data, p, 0xD2, x, hasData);
    case _ => GivesPlainFc(data, p, op, hasData);
  }

  predicate Nests(ins: Instr) { ins.Block? || ins.Loop? || ins.If? }

  lemma GivesUnnested(data: seq<Byte>, p: nat, ins: Instr, hasData: bool)
    requires p <= |data| && !Nests(ins) && PrintableInstr(ins, hasData)
    ensures Gives(data, p, PrintInstr(ins, hasData), ins, hasData)
  {
    hide Gives, WriteU, WriteUs, PrintPlain, Flat;
    match ins
    case Unreachable => GivesBare(data, p, 0x00, hasData);
    case Nop => GivesBare(data, p, 0x01, hasData);
    case Else => GivesBare(data, p, 0x05, hasData);
    case End => GivesBare(data, p, 0x0B, hasData);
    case Return => GivesBare(data, p, 0x0F, hasData);
    case Br(k) => GivesIndexed(data, p, 0x0C, k, hasData);
    case BrIf(k) => GivesIndexed(data, p, 0x0D, k, hasData);
    case BrTable(ls, d) =>
      FlatBrTable(data, p + 1, ls, d, hasData);
      GivesFlat(data, p, 0x0E, WriteU(|ls|) + (WriteUs(ls) + WriteU(d)), ins, hasData);
    case Call(x) => GivesIndexed(data, p, 0x10, x, hasData);
    case CallIndirect(y, x) => GivesPaired(data, p, 0x11, y, x, hasData);
    case Plain(op) => GivesPlain(data, p, op, hasData);
    case _ =>
  }

  // ---------------------------------------------------------------- reading back trees

  function NestOpcode(ins: Instr): (op: Byte)
    requires Nests(ins)
    ensures IsNesting(op)
  {
    if ins.Block? then 0x02 else if ins.Loop? then 0x03 else 0x04
  }

  lemma {:induction false} PrintableIsShaped(code: Code, thenBranch: bool, hasData: bool)
    requires Printable(code, thenBranch, hasData)
    ensures Shaped(code, thenBranch)
    decreases code
  {
    if code.next.Cons? {
      PrintableIsShaped(code.next, thenBranch, hasData);
    }
    var ins := code.ins;
    if Nests(ins) {
      PrintableIsShaped(ins.in1, true, hasData);
      LastEnds(ins.in1, true);
      if ins.in2.Cons? {
        PrintableIsShaped(ins.in2, false, hasData);
      }
    }
  }

  /** What DecodeInstr does at a nesting opcode, given what its lists decode to. */
  lemma NestStep(data: seq<Byte>, p: nat, ins: Instr, q1: nat, q2: nat, q3: nat, hasData: bool)
    requires Nests(ins) && ins.in1.Cons? && (Last(ins.in1).Else? <==> ins.in2.Cons?)
    requires p < |data| && data[p] == NestOpcode(ins) && ReadBlockType(data, p + 1) == Ok((ins.bt, q1))
    requires p < q1 <= |data| && DecodeList(data, q1, true, hasData) == Ok((ins.in1, q2))
    requires if ins.in2.Cons? then DecodeList(data, q2, false, hasData) == Ok((ins.in2, q3)) else q3 == q2
    ensures DecodeInstr(data, p, hasData) == Ok((ins, q3))
  {
    hide DecodeList, ReadBlockType, Last, DecodeFlat;
  }

  lemma {:induction false} RoundTripInstr(data: seq<Byte>, p: nat, ins: Instr, hasData: bool)
    requires p <= |data| && PrintableInstr(ins, hasData) && At(data, p, PrintInstr(ins, hasData))
    ensures DecodeInstr(data, p, hasData) == Ok((ins, p + |PrintInstr(ins, hasData)|))
    decreases ins
  {
    hide DecodeInstr, DecodeList, ReadBlockType, Last, At, PrintBlockType, PrintList;
    if !Nests(ins) {
      GivesUnnested(data, p, ins, hasData);
    } else {
      var op, bt := [NestOpcode(ins)], PrintBlockType(ins.bt);
      var l1 := PrintList(ins.in1, true, hasData);
      var l2 := if ins.in2.Cons? then PrintList(ins.in2, false, hasData) else [];
      AtSplit(data, p, op, bt + (l1 + l2));
      ReadBackByte(data, p, NestOpcode(ins));
      AtSplit(data, p + 1, bt, l1 + l2);
      ReadBackBlockType(data, p + 1, ins.bt);
      var q1 := p + 1 + |bt|;
      AtSplit(data, q1, l1, l2);
      RoundTripList(data, q1, ins.in1, true, hasData);
      if ins.in2.Cons? {
        RoundTripList(data, q1 + |l1|, ins.in2, false, hasData);
      }
      NestStep(data, p, ins, q1, q1 + |l1|, q1 + |l1| + |l2|, hasData);
    }
  }

  lemma {:induction false} RoundTripList(data: seq<Byte>, p: nat, code: Code, thenBranch: bool, hasData: bool)
    requires p <= |data| && Printable(code, thenBranch, hasData) && At(data, p, PrintList(code, thenBranch, hasData))
    ensures DecodeList(data, p, thenBranch, hasData) == Ok((code, p + |PrintList(code, thenBranch, hasData)|))
    decreases code
  {
    hide DecodeInstr, PrintInstr, PrintableInstr, At;
    var first := PrintInstr(code.ins, hasData);
    var rest := if code.next.Cons? then PrintList(code.next, thenBranch, hasData) else [];
    AtSplit(data, p, first, rest);
    RoundTripInstr(data, p, code.ins, hasData);
    if code.next.Cons? {
      RoundTripList(data, p + |first|, code.next, thenBranch, hasData);
    }
  }

  /** Decoding a printed body, whatever stands before and after it, gives the body back and
      consumes exactly its bytes. */
  lemma {:induction false} RoundTripExpr(data: seq<Byte>, p: nat, code: Code, hasData: bool)
    requires p <= |data| && Printable(code, false, hasData) && At(data, p, PrintList(code, false, hasData))
    ensures DecodeExpr(data, p, hasData) == Ok((code, p + |PrintList(code, false, hasData)|))
    decreases code
  {
    hide DecodeInstr, PrintInstr, PrintableInstr, At;
    var first := PrintInstr(code.ins, hasData);
    var rest := if code.next.Cons? then PrintList(code.next, false, hasData) else [];
    AtSplit(data, p, first, rest);
    RoundTripInstr(data, p, code.ins, hasData);
    if code.next.Cons? {
      assert At(data, p + |first|, rest) && rest != [];
      AtWithin(data, p + |first|, rest);
      RoundTripExpr(data, p + |first|, code.next, hasData);
    }
  }

  lemma AtWithin(data: seq<Byte>, p: nat, bytes: seq<Byte>)
    requires At(data, p, bytes)
    ensures p + |bytes| <= |data|
  {
  }

  // ---------------------------------------------------------------- every decoded tree can be printed

  lemma FlatIsPrintable(data: seq<Byte>, p: nat, op: Byte, hasData: bool)
    requires p <= |data| && !IsNesting(op)
    ensures var r := DecodeFlat(data, p, op, hasData); r.Ok? ==> PrintableInstr(r.value.0, hasData)
  {
    hide ReadU32, ReadU7, ReadI32, ReadI64, ReadU32s, Word32, Word64, DecodeFc;
    if op == 0xFC {
      FcIsPrintable(data, p, hasData);
    }
  }

  lemma FcIsPrintable(data: seq<Byte>, p: nat, hasData: bool)
    ensures var r := DecodeFc(data, p, hasData);
            r.Ok? ==> r.value.0.Plain? && PrintablePlain(r.value.0.op, hasData)
  {
    hide ReadU32;
  }

  lemma {:induction false} InstrIsPrintable(data: seq<Byte>, p: nat, hasData: bool)
    requires p <= |data|
    ensures DecodeInstr(data, p, hasData).Ok? ==> PrintableInstr(DecodeInstr(data, p, hasData).value.0, hasData)
    decreases |data| - p, 0
  {
    hide DecodeFlat, ReadBlockType, Last, PrintablePlain;
    if p < |data| && DecodeInstr(data, p, hasData).Ok? {
      var op := data[p];
      if !IsNesting(op) {
        FlatIsPrintable(data, p + 1, op, hasData);
      } else {
        var q1 := ReadBlockType(data, p + 1).value.1;
        ListIsPrintable(data, q1, true, hasData);
        var (in1, q2) := DecodeList(data, q1, true, hasData).value;
        if Last(in1).Else? {
          ListIsPrintable(data, q2, false, hasData);
        }
      }
    }
  }

  lemma {:induction false} ListIsPrintable(data: seq<Byte>, p: nat, thenBranch: bool, hasData: bool)
    requires p <= |data|
    ensures var r := DecodeList(data, p, thenBranch, hasData); r.Ok? ==> Printable(r.value.0, thenBranch, hasData)
    decreases |data| - p, 1
  {
    hide DecodeInstr, PrintableInstr;
    InstrIsPrintable(data, p, hasData);
    if DecodeInstr(data, p, hasData).Ok? {
      var (ins, q) := DecodeInstr(data, p, hasData).value;
      if !Ends(ins, thenBranch) {
        ListIsPrintable(data, q, thenBranch, hasData);
      }
    }
  }

  lemma {:induction false} ExprIsPrintable(data: seq<Byte>, p: nat, hasData: bool)
    requires p <= |data|
    ensures var r := DecodeExpr(data, p, hasData); r.Ok? ==> Printable(r.value.0, false, hasData)
    decreases |data| - p
  {
    hide DecodeInstr, PrintableInstr;
    InstrIsPrintable(data, p, hasData);
    if DecodeInstr(data, p, hasData).Ok? {
      var (ins, q) := DecodeInstr(data, p, hasData).value;
      if !ins.End? && q < |data| {
        ExprIsPrintable(data, q, hasData);
      }
    }
  }

  /** The printable bodies are exactly the decoder's results. */
  lemma DecoderRange(code: Code, hasData: bool)
    ensures Printable(code, false, hasData) <==>
            exists data, p: nat, q :: p <= |data| && DecodeExpr(data, p, hasData) == Ok((code, q))
  {
    hide DecodeExpr, Printable, PrintList;
    if Printable(code, false, hasData) {
      var data := PrintList(code, false, hasData);
      assert At(data, 0, data) by { assert data[0..0 + |data|] == data; }
      RoundTripExpr(data, 0, code, hasData);
    }
    forall data, p: nat, q | p <= |data| && DecodeExpr(data, p, hasData) == Ok((code, q))
      ensures Printable(code, false, hasData)
    {
      ExprIsPrintable(data, p, hasData);
    }
  }
}
