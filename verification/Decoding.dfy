/** What the decoder makes of a byte string, as functions of the bytes and a position. */
module Decoding {
  import opened Syntax
  import opened Leb128

  // ---------------------------------------------------------------- operands

  /** `n` unsigned numbers in a row. */
  function ReadU32s(data: seq<Byte>, p: nat, n: nat): (r: Result<(seq<U32>, nat)>)
    requires p <= |data|
    ensures r.Ok? ==> p <= r.value.1 <= |data| && |r.value.0| == n
    decreases n
  {
    if n == 0 then Ok(([], p)) else
    match ReadU32(data, p)
    case Err(e) => Err(e)
    case Ok((v, q)) =>
      match ReadU32s(data, q, n - 1)
      case Err(e) => Err(e)
      case Ok((vs, q')) => Ok(([v] + vs, q'))
  }

  function ReadByteSeq(data: seq<Byte>, p: nat, n: nat): (r: Result<(seq<Byte>, nat)>)
    requires p <= |data|
    ensures r.Ok? ==> p <= r.value.1 <= |data| && |r.value.0| == n
  {
    if p + n <= |data| then Ok((data[p..p + n], p + n)) else Err(UnexpectedEnd)
  }

  function Word32(b: seq<Byte>): (v: U32)
    requires |b| == 4
  {
    b[0] as int + 0x100 * b[1] as int + 0x1_0000 * b[2] as int + 0x100_0000 * b[3] as int
  }

  function Word64(b: seq<Byte>): (v: U64)
    requires |b| == 8
  {
    Word32(b[..4]) + 0x1_0000_0000 * Word32(b[4..])
  }

  /** read_bt: a value-type byte, or else a type index. */
  function ReadBlockType(data: seq<Byte>, p: nat): (r: Result<(BlockType, nat)>)
    ensures r.Ok? ==> p < r.value.1 <= |data|
  {
    if p < |data| && IsBlockCode(data[p]) then Ok((data[p], p + 1)) else ReadU32(data, p)
  }

  predicate IsBlockCode(b: Byte) { b in {EMPTY_BLOCK, I32, I64, F32, F64, EXTERNREF, FUNCREF} }

  // ---------------------------------------------------------------- instructions without nesting

  /** Instructions that are a lone opcode. */
  function Bare(op: Byte): Option<Instr> {
    if op == 0x00 then Some(Unreachable)
    else if op == 0x01 then Some(Nop)
    else if op == 0x05 then Some(Else)
    else if op == 0x0B then Some(End)
    else if op == 0x0F then Some(Return)
    else if op == 0x1A then Some(Instr.Plain(Drop))
    else if op == 0x1B then Some(Instr.Plain(Select))
    else if op == 0xD1 then Some(Instr.Plain(RefIsNull))
    else if 0x45 <= op <= 0xC4 then Some(Instr.Plain(Num(op)))
    else None
  }

  /** Instructions that are an opcode and one index. */
  function Indexed(op: Byte, x: U32): Option<Instr> {
    if op == 0x0C then Some(Br(x))
    else if op == 0x0D then Some(BrIf(x))
    else if op == 0x10 then Some(Call(x))
    else if op == 0x20 then Some(Instr.Plain(LocalGet(x)))
    else if op == 0x21 then Some(Instr.Plain(LocalSet(x)))
    else if op == 0x22 then Some(Instr.Plain(LocalTee(x)))
    else if op == 0x23 then Some(Instr.Plain(GlobalGet(x)))
    else if op == 0x24 then Some(Instr.Plain(GlobalSet(x)))
    else if op == 0x25 then Some(Instr.Plain(TableGet(x)))
    else if op == 0x26 then Some(Instr.Plain(TableSet(x)))
    else if op == 0xD2 then Some(Instr.Plain(RefFunc(x)))
    else None
  }

  /** Instructions that are an opcode and two numbers. */
  function Paired(op: Byte, x: U32, y: U32): Option<Instr> {
    if op == 0x11 then Some(CallIndirect(x, y))
    else if 0x28 <= op <= 0x3E then Some(Instr.Plain(Access(op, x, y)))
    else None
  }

  function DecodeIndexed(data: seq<Byte>, p: nat, op: Byte): (r: Result<(Instr, nat)>)
    requires Indexed(op, 0).Some?
    ensures r.Ok? ==> p <= r.value.1 <= |data|
  {
    match ReadU32(data, p)
    case Err(e) => Err(e)
    case Ok((x, q)) => Ok((Indexed(op, x).value, q))
  }

  function DecodePaired(data: seq<Byte>, p: nat, op: Byte): (r: Result<(Instr, nat)>)
    requires Paired(op, 0, 0).Some?
    ensures r.Ok? ==> p <= r.value.1 <= |data|
  {
    match ReadU32(data, p)
    case Err(e) => Err(e)
    case Ok((x, q)) =>
      match ReadU32(data, q)
      case Err(e) => Err(e)
      case Ok((y, q')) => Ok((Paired(op, x, y).value, q'))
  }

  function DecodeBrTable(data: seq<Byte>, p: nat): (r: Result<(Instr, nat)>)
    ensures r.Ok? ==> p <= r.value.1 <= |data|
  {
    match ReadU32(data, p)
    case Err(e) => Err(e)
    case Ok((n, q)) =>
      match ReadU32s(data, q, n)
      case Err(e) => Err(e)
      case Ok((ls, q')) =>
        match ReadU32(data, q')
        case Err(e) => Err(e)
        case Ok((d, q'')) => Ok((BrTable(ls, d), q''))
  }

  function DecodeSelectT(data: seq<Byte>, p: nat): (r: Result<(Instr, nat)>)
    ensures r.Ok? ==> p <= r.value.1 <= |data|
  {
    match ReadU32(data, p)
    case Err(e) => Err(e)
    case Ok((n, q)) =>
      match ReadByteSeq(data, q, n)
      case Err(e) => Err(e)
      case Ok((ts, q')) => Ok((Instr.Plain(SelectT(ts)), q'))
  }

  /** memory.size and memory.grow carry a zero byte, never a longer zero. */
  function DecodeZeroByte(data: seq<Byte>, p: nat, ins: Instr): (r: Result<(Instr, nat)>)
    ensures r.Ok? ==> p <= r.value.1 <= |data|
  {
    match ReadU7(data, p)
    case Err(_) => Err(ZeroByteExpected)
    case Ok((z, q)) => if z != 0 then Err(ZeroByteExpected) else Ok((ins, q))
  }

  function DecodeConst(data: seq<Byte>, p: nat, op: Byte): (r: Result<(Instr, nat)>)
    requires p <= |data| && 0x41 <= op <= 0x44
    ensures r.Ok? ==> p <= r.value.1 <= |data|
  {
    if op == 0x41 then
      match ReadI32(data, p)
      case Err(e) => Err(e)
      case Ok((v, q)) => Ok((Instr.Plain(Const(I32, v % TWO32)), q))
    else if op == 0x42 then
      match ReadI64(data, p)
      case Err(e) => Err(e)
      case Ok((v, q)) => Ok((Instr.Plain(Const(I64, v % TWO64)), q))
    else if op == 0x43 then
      match ReadByteSeq(data, p, 4)
      case Err(e) => Err(e)
      case Ok((b, q)) => Ok((Instr.Plain(Const(F32, Word32(b))), q))
    else
      match ReadByteSeq(data, p, 8)
      case Err(e) => Err(e)
      case Ok((b, q)) => Ok((Instr.Plain(Const(F64, Word64(b))), q))
  }

  /** Operations after 0xFC with one index, with two, and memory.copy and memory.fill with
      ignored memory indices. */
  function FcIndexed(op2: U32, x: U32): Option<Plain> {
    if op2 == 0x09 then Some(DataDrop(x))
    else if op2 == 0x0D then Some(ElemDrop(x))
    else if op2 == 0x0F then Some(TableGrow(x))
    else if op2 == 0x10 then Some(TableSize(x))
    else if op2 == 0x11 then Some(TableFill(x))
    else if op2 == 0x0B then Some(MemoryFill)
    else None
  }

  function FcPaired(op2: U32, x: U32, y: U32): Option<Plain> {
    if op2 == 0x08 then Some(MemoryInit(x))
    else if op2 == 0x0A then Some(MemoryCopy)
    else if op2 == 0x0C then Some(TableInit(y, x))
    else if op2 == 0x0E then Some(TableCopy(x, y))
    else None
  }

  /** `hasData`: the module has announced data segments. */
  function DecodeFc(data: seq<Byte>, p: nat, hasData: bool): (r: Result<(Instr, nat)>)
    ensures r.Ok? ==> p <= r.value.1 <= |data|
  {
    match ReadU32(data, p)
    case Err(e) => Err(e)
    case Ok((op2, q)) =>
      if op2 <= 7 then Ok((Instr.Plain(TruncSat(op2)), q))
      else if (op2 == 0x08 || op2 == 0x09) && !hasData then Err(DataCountSectionRequired)
      else if FcIndexed(op2, 0).Some? then
        match ReadU32(data, q)
        case Err(e) => Err(e)
        case Ok((x, q')) => Ok((Instr.Plain(FcIndexed(op2, x).value), q'))
      else if FcPaired(op2, 0, 0).Some? then
        match ReadU32(data, q)
        case Err(e) => Err(e)
        case Ok((x, q')) =>
          match ReadU32(data, q')
          case Err(e) => Err(e)
          case Ok((y, q'')) => Ok((Instr.Plain(FcPaired(op2, x, y).value), q''))
      else Err(IllegalOpcode)
  }

  predicate IsNesting(op: Byte) { 0x02 <= op <= 0x04 }

  /** An instruction other than block, loop and if, whose opcode `op` stands before `p`. */
  function DecodeFlat(data: seq<Byte>, p: nat, op: Byte, hasData: bool): (r: Result<(Instr, nat)>)
    requires p <= |data| && !IsNesting(op)
    ensures r.Ok? ==> p <= r.value.1 <= |data|
  {
    if Bare(op).Some? then Ok((Bare(op).value, p))
    else if Indexed(op, 0).Some? then DecodeIndexed(data, p, op)
    else if Paired(op, 0, 0).Some? then DecodePaired(data, p, op)
    else if op == 0x0E then DecodeBrTable(data, p)
    else if op == 0x1C then DecodeSelectT(data, p)
    else if op == 0x3F then DecodeZeroByte(data, p, Instr.Plain(MemorySize))
    else if op == 0x40 then DecodeZeroByte(data, p, Instr.Plain(MemoryGrow))
    else if 0x41 <= op <= 0x44 then DecodeConst(data, p, op)
    else if op == 0xD0 then
      match ReadByte(data, p)
      case Err(e) => Err(e)
      case Ok((t, q)) => Ok((Instr.Plain(RefNull(t)), q))
    else if op == 0xFC then DecodeFc(data, p, hasData)
    else Err(IllegalOpcode)
  }

  // ---------------------------------------------------------------- nesting

  function MakeNesting(op: Byte, bt: BlockType, in1: Code, in2: Code): Instr
    requires IsNesting(op)
  {
    if op == 0x02 then Block(bt, in1, in2) else if op == 0x03 then Loop(bt, in1, in2) else If(bt, in1, in2)
  }

  predicate Ends(ins: Instr, thenBranch: bool) { ins.End? || (thenBranch && ins.Else?) }

  /** The last instruction of a list. */
  function Last(code: Code): Instr
    requires code.Cons?
  {
    if code.next.Nil? then code.ins else Last(code.next)
  }

  /** `decode_instr`. */
  function DecodeInstr(data: seq<Byte>, p: nat, hasData: bool): (r: Result<(Instr, nat)>)
    requires p <= |data|
    ensures r.Ok? ==> p < r.value.1 <= |data|
    decreases |data| - p, 0
  {
    match ReadByte(data, p)
    case Err(e) => Err(e)
    case Ok((op, q)) =>
      if !IsNesting(op) then DecodeFlat(data, q, op, hasData) else
      match ReadBlockType(data, q)
      case Err(e) => Err(e)
      case Ok((bt, q1)) =>
        match DecodeList(data, q1, true, hasData)
        case Err(e) => Err(e)
        case Ok((in1, q2)) =>
          if !Last(in1).Else? then Ok((MakeNesting(op, bt, in1, Nil), q2)) else
          match DecodeList(data, q2, false, hasData)
          case Err(e) => Err(e)
          case Ok((in2, q3)) => Ok((MakeNesting(op, bt, in1, in2), q3))
  }

  /** The loops of `decode_instr` that link a nested list up to its terminator. */
  function DecodeList(data: seq<Byte>, p: nat, thenBranch: bool, hasData: bool): (r: Result<(Code, nat)>)
    requires p <= |data|
    ensures r.Ok? ==> p < r.value.1 <= |data| && r.value.0.Cons?
    decreases |data| - p, 1
  {
    match DecodeInstr(data, p, hasData)
    case Err(e) => Err(e)
    case Ok((ins, q)) =>
      if Ends(ins, thenBranch) then Ok((Cons(ins, Nil), q)) else
      match DecodeList(data, q, thenBranch, hasData)
      case Err(e) => Err(e)
      case Ok((rest, q')) => Ok((Cons(ins, rest), q'))
  }

  /** `decode_expr`: a body, which the end of the bytes may cut short. */
  function DecodeExpr(data: seq<Byte>, p: nat, hasData: bool): (r: Result<(Code, nat)>)
    requires p <= |data|
    ensures r.Ok? ==> p < r.value.1 <= |data| && r.value.0.Cons?
    decreases |data| - p
  {
    match DecodeInstr(data, p, hasData)
    case Err(e) => Err(e)
    case Ok((ins, q)) =>
      if ins.End? then Ok((Cons(ins, Nil), q))
      else if q == |data| then Err(EndOpcodeExpected)
      else
        match DecodeExpr(data, q, hasData)
        case Err(e) => Err(e)
        case Ok((rest, q')) => Ok((Cons(ins, rest), q'))
  }

  // ---------------------------------------------------------------- shape of the result

  /** A list that stops at its first terminator; nested lists likewise; a second list is
      present exactly when the first one stops at ELSE. */
  ghost predicate Shaped(code: Code, thenBranch: bool)
    decreases code
  {
    && code.Cons? && ShapedInstr(code.ins)
    && (if code.next.Nil? then Ends(code.ins, thenBranch)
        else !Ends(code.ins, thenBranch) && Shaped(code.next, thenBranch))
  }

  ghost predicate ShapedInstr(ins: Instr)
    decreases ins
  {
    (ins.Block? || ins.Loop? || ins.If?) ==>
      && Shaped(ins.in1, true)
      && (Last(ins.in1).End? <==> ins.in2.Nil?)
      && (ins.in2.Cons? ==> Shaped(ins.in2, false))
  }

  lemma {:induction false} LastEnds(code: Code, thenBranch: bool)
    requires Shaped(code, thenBranch)
    ensures Ends(Last(code), thenBranch)
    decreases code
  {
    if code.next.Cons? {
      LastEnds(code.next, thenBranch);
    }
  }

  lemma FlatIsShaped(data: seq<Byte>, p: nat, op: Byte, hasData: bool)
    requires p <= |data| && !IsNesting(op)
    ensures var r := DecodeFlat(data, p, op, hasData);
            r.Ok? ==> !r.value.0.Block? && !r.value.0.Loop? && !r.value.0.If?
  {
  }

  /** Whatever the bytes, a decoded instruction has the shape above. */
  lemma {:induction false} InstrShape(data: seq<Byte>, p: nat, hasData: bool)
    requires p <= |data|
    ensures DecodeInstr(data, p, hasData).Ok? ==> ShapedInstr(DecodeInstr(data, p, hasData).value.0)
    decreases |data| - p, 0
  {
    hide DecodeFlat, ReadBlockType;
    if p < |data| && DecodeInstr(data, p, hasData).Ok? {
      var op := data[p];
      if !IsNesting(op) {
        FlatIsShaped(data, p + 1, op, hasData);
      } else {
        var q1 := ReadBlockType(data, p + 1).value.1;
        ListShape(data, q1, true, hasData);
        var (in1, q2) := DecodeList(data, q1, true, hasData).value;
        LastEnds(in1, true);
        if Last(in1).Else? {
          ListShape(data, q2, false, hasData);
        }
      }
    }
  }

  lemma {:induction false} ListShape(data: seq<Byte>, p: nat, thenBranch: bool, hasData: bool)
    requires p <= |data|
    ensures DecodeList(data, p, thenBranch, hasData).Ok? ==> Shaped(DecodeList(data, p, thenBranch, hasData).value.0, thenBranch)
    decreases |data| - p, 1
  {
    hide DecodeInstr, ShapedInstr;
    InstrShape(data, p, hasData);
    if DecodeInstr(data, p, hasData).Ok? {
      var (ins, q) := DecodeInstr(data, p, hasData).value;
      if !Ends(ins, thenBranch) {
        ListShape(data, q, thenBranch, hasData);
      }
    }
  }

  lemma {:induction false} ExprShape(data: seq<Byte>, p: nat, hasData: bool)
    requires p <= |data|
    ensures DecodeExpr(data, p, hasData).Ok? ==> Shaped(DecodeExpr(data, p, hasData).value.0, false)
    decreases |data| - p
  {
    hide DecodeInstr, ShapedInstr;
    InstrShape(data, p, hasData);
    if DecodeInstr(data, p, hasData).Ok? {
      var (ins, q) := DecodeInstr(data, p, hasData).value;
      if !ins.End? && q < |data| {
        ExprShape(data, q, hasData);
      }
    }
  }

  /** No ELSE except as the terminator of a then-branch, in the lists that can run. */
  ghost predicate NoStrayElse(code: Code, thenBranch: bool)
    decreases code
  {
    code.Cons? ==>
      && (code.ins.Else? ==> thenBranch && code.next.Nil?)
      && NoStrayElse(code.next, thenBranch)
      && ((code.ins.Block? || code.ins.Loop? || code.ins.If?) ==>
            NoStrayElse(code.ins.in1, true) && (code.ins.If? ==> NoStrayElse(code.ins.in2, false)))
  }

  /** Decoded code without stray ELSE is the well-formed code the machine theorems ask for. */
  lemma {:induction false} ShapedIsWellFormed(code: Code, thenBranch: bool)
    requires Shaped(code, thenBranch) && NoStrayElse(code, thenBranch)
    ensures WellFormed(code, thenBranch)
    decreases code
  {
    if code.next.Cons? {
      ShapedIsWellFormed(code.next, thenBranch);
    }
    var ins := code.ins;
    if ins.Block? || ins.Loop? || ins.If? {
      ShapedIsWellFormed(ins.in1, true);
      if ins.If? && ins.in2.Cons? {
        ShapedIsWellFormed(ins.in2, false);
      }
    }
  }

  /** From bytes to the machine: an accepted body is well formed unless it holds a stray ELSE. */
  lemma DecodedBodyWellFormed(data: seq<Byte>, p: nat, hasData: bool)
    requires p <= |data| && DecodeExpr(data, p, hasData).Ok?
    ensures var body := DecodeExpr(data, p, hasData).value.0;
            WellFormed(body, false) <==> NoStrayElse(body, false)
  {
    ExprShape(data, p, hasData);
    var body := DecodeExpr(data, p, hasData).value.0;
    if NoStrayElse(body, false) {
      ShapedIsWellFormed(body, false);
    }
    if WellFormed(body, false) {
      WellFormedNoStray(body, false);
    }
  }

  lemma {:induction false} WellFormedNoStray(code: Code, thenBranch: bool)
    requires WellFormed(code, thenBranch) && Shaped(code, thenBranch)
    ensures NoStrayElse(code, thenBranch)
    decreases code
  {
    if code.next.Cons? {
      WellFormedNoStray(code.next, thenBranch);
    }
    var ins := code.ins;
    if ins.Block? || ins.Loop? || ins.If? {
      WellFormedNoStray(ins.in1, true);
      if ins.If? && ins.in2.Cons? {
        WellFormedNoStray(ins.in2, false);
      }
    }
  }
}
