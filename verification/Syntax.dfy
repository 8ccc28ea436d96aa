/** The abstract syntax shared by the decoder, the validator and the machine.

    An instruction list is the singly linked list the decoder builds: a `Code` value is
    what an `instr_t *` points at, so `code.next` is `ip->next` and `Nil` is NULL.
 */
module Syntax {

  type Byte = x: int | 0 <= x < 0x100
  type U32 = x: int | 0 <= x < 0x1_0000_0000
  type U64 = x: int | 0 <= x < 0x1_0000_0000_0000_0000

  datatype Option<+T> = None | Some(value: T)

  datatype Result<+T> = Ok(value: T) | Err(error: Error)

  datatype Error =
    | Failed
    // decoding
    | UnexpectedEnd
    | EndOpcodeExpected
    | ZeroByteExpected
    | IntegerTooLarge
    | IntegerRepresentationTooLong
    | TooManyLocals
    | DataCountSectionRequired
    | IllegalOpcode
    // validation
    | TypeMismatch
    | UnknownLocal
    | UnknownLabel
    | UnknownFunc
    | UnknownTable
    | UnknownType
    | UnknownGlobal
    | UnknownMemory
    | UnknownDataSegment
    | UnknownElemSegment
    | InvalidResultArity
    | AlignmentTooLarge
    | UndeclaredFunctionReference
    | GlobalIsImmutable
    | ConstantExpressionRequired
    // traps
    | TrapIntegerOverflow
    | TrapInvalidConversion
    | TrapUndefinedElement
    | TrapUnreachable
    | TrapIndirectCallTypeMismatch
    | TrapUninitializedElement
    | TrapOutOfBoundsMemoryAccess
    | TrapOutOfBoundsTableAccess
    | TrapCallStackExhausted
    | TrapNumeric

  // Value types are the bytes of the binary format. Nothing in the decoder checks them.
  type ValType = Byte
  const ANY: ValType := 0x00
  const EXTERNREF: ValType := 0x6F
  const FUNCREF: ValType := 0x70
  const F64: ValType := 0x7C
  const F32: ValType := 0x7D
  const I64: ValType := 0x7E
  const I32: ValType := 0x7F
  const EMPTY_BLOCK: Byte := 0x40

  datatype FuncType = FuncType(rt1: seq<ValType>, rt2: seq<ValType>)

  /** A block type is a union of a type index and a value type: the value type is the low
      byte of the same word. */
  type BlockType = U32

  datatype Code = Nil | Cons(ins: Instr, next: Code)

  datatype Instr =
    | Unreachable
    | Nop
    | Block(bt: BlockType, in1: Code, in2: Code)
    | Loop(bt: BlockType, in1: Code, in2: Code)
    | If(bt: BlockType, in1: Code, in2: Code)
    | Else
    | End
    | Br(labelidx: U32)
    | BrIf(labelidx: U32)
    | BrTable(labels: seq<U32>, defaultLabel: U32)
    | Return
    | Call(funcidx: U32)
    | CallIndirect(y: U32, x: U32)
    | Plain(op: Plain)

  /** The instructions that neither move `ip` elsewhere than to `ip->next` nor push labels. */
  datatype Plain =
    | Drop
    | Select
    | SelectT(types: seq<ValType>)
    | LocalGet(x: U32)
    | LocalSet(x: U32)
    | LocalTee(x: U32)
    | GlobalGet(x: U32)
    | GlobalSet(x: U32)
    | TableGet(x: U32)
    | TableSet(x: U32)
    | Access(opcode: Byte, align: U32, offset: U32) // the loads and stores 0x28 .. 0x3E
    | MemorySize
    | MemoryGrow
    | Const(t: ValType, bits: U64)
    | Num(opcode: Byte) // the operators 0x45 .. 0xC4
    | RefNull(t: ValType)
    | RefIsNull
    | RefFunc(x: U32)
    | TruncSat(op2: U32) // 0xFC 0 .. 0xFC 7
    | MemoryInit(x: U32)
    | DataDrop(x: U32)
    | MemoryCopy
    | MemoryFill
    | TableInit(x: U32, y: U32)
    | ElemDrop(x: U32)
    | TableCopy(x: U32, y: U32)
    | TableGrow(x: U32)
    | TableSize(x: U32)
    | TableFill(x: U32)

  datatype Func = Func(typeidx: U32, locals: seq<ValType>, body: Code)

  function Pow2(n: nat): (p: nat)
    ensures p > 0
  {
    if n == 0 then 1 else 2 * Pow2(n - 1)
  }

  // ---------------------------------------------------------------- shape of decoded code

  /** An instruction list that stops at its only terminator; a then-branch may stop at
      ELSE, every other list stops at END. */
  ghost predicate WellFormed(code: Code, thenBranch: bool)
    decreases code
  {
    && code.Cons?
    && if code.next.Nil? then
         code.ins.End? || (thenBranch && code.ins.Else?)
       else
         !code.ins.End? && !code.ins.Else? && WellFormedInstr(code.ins) && WellFormed(code.next, thenBranch)
  }

  ghost predicate WellFormedInstr(ins: Instr)
    decreases ins
  {
    match ins
    case Block(_, in1, _) => WellFormed(in1, true)
    case Loop(_, in1, _) => WellFormed(in1, true)
    case If(_, in1, in2) => WellFormed(in1, true) && (in2.Nil? || WellFormed(in2, false))
    case _ => true
  }

  // ---------------------------------------------------------------- fixed signatures

  /** Operand types (deepest first) and result type of the numeric operator `op`. */
  function NumSig(op: Byte): Option<(seq<ValType>, ValType)> {
    if op == 0x45 || 0x67 <= op <= 0x69 || 0xC0 <= op <= 0xC1 then Some(([I32], I32))
    else if op == 0x50 then Some(([I64], I32))
    else if 0x79 <= op <= 0x7B || 0xC2 <= op <= 0xC4 then Some(([I64], I64))
    else if 0x46 <= op <= 0x4F || 0x6A <= op <= 0x78 then Some(([I32, I32], I32))
    else if 0x51 <= op <= 0x5A then Some(([I64, I64], I32))
    else if 0x5B <= op <= 0x60 then Some(([F32, F32], I32))
    else if 0x61 <= op <= 0x66 then Some(([F64, F64], I32))
    else if 0x7C <= op <= 0x8A then Some(([I64, I64], I64))
    else if 0x8B <= op <= 0x91 then Some(([F32], F32))
    else if 0x92 <= op <= 0x98 then Some(([F32, F32], F32))
    else if 0x99 <= op <= 0x9F then Some(([F64], F64))
    else if 0xA0 <= op <= 0xA6 then Some(([F64, F64], F64))
    else if op == 0xA7 then Some(([I64], I32))
    else if op == 0xA8 || op == 0xA9 || op == 0xBC then Some(([F32], I32))
    else if op == 0xAA || op == 0xAB then Some(([F64], I32))
    else if op == 0xAC || op == 0xAD then Some(([I32], I64))
    else if op == 0xAE || op == 0xAF then Some(([F32], I64))
    else if op == 0xB0 || op == 0xB1 || op == 0xBD then Some(([F64], I64))
    else if op == 0xB2 || op == 0xB3 || op == 0xBE then Some(([I32], F32))
    else if op == 0xB4 || op == 0xB5 then Some(([I64], F32))
    else if op == 0xB6 then Some(([F64], F32))
    else if op == 0xB7 || op == 0xB8 then Some(([I32], F64))
    else if op == 0xB9 || op == 0xBA || op == 0xBF then Some(([I64], F64))
    else if op == 0xBB then Some(([F32], F64))
    else None
  }

  /** Operand and result type of `0xFC op2` for the saturating truncations. */
  function TruncSatSig(op2: U32): Option<(ValType, ValType)> {
    if op2 <= 1 then Some((F32, I32))
    else if op2 <= 3 then Some((F64, I32))
    else if op2 <= 5 then Some((F32, I64))
    else if op2 <= 7 then Some((F64, I64))
    else None
  }

  predicate IsLoad(opcode: Byte) { 0x28 <= opcode <= 0x35 }

  predicate IsStore(opcode: Byte) { 0x36 <= opcode <= 0x3E }

  /** Number of bytes a load or store touches. */
  function Width(opcode: Byte): (n: nat)
    ensures n == 1 || n == 2 || n == 4 || n == 8
  {
    if opcode in {0x28, 0x2A, 0x34, 0x35, 0x36, 0x38, 0x3E} then 4
    else if opcode in {0x29, 0x2B, 0x37, 0x39} then 8
    else if opcode in {0x2C, 0x2D, 0x30, 0x31, 0x3A, 0x3C} then 1
    else 2
  }

  /** The type a load pushes, or a store pops above its address. */
  function AccessType(opcode: Byte): ValType {
    if opcode in {0x28, 0x2C, 0x2D, 0x2E, 0x2F, 0x36, 0x3A, 0x3B} then I32
    else if opcode in {0x2A, 0x38} then F32
    else if opcode in {0x2B, 0x39} then F64
    else I64
  }
}
