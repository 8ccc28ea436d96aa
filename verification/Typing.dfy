/** What the validator computes, as functions: the abstract type stack with its polymorphic
    flag, one fresh stack per nested instruction list. */
module Typing {
  import opened Syntax

  datatype GlobalType = GlobalType(t: ValType, mutable: bool)

  /** `labels` lists label types innermost last. `refs[x]` says that function x may be
      referenced by ref.func. */
  datatype Context = Context(
    types: seq<FuncType>,
    funcs: seq<FuncType>,
    tables: seq<ValType>,
    mems: nat,
    globals: seq<GlobalType>,
    elems: seq<ValType>,
    datas: nat,
    locals: seq<ValType>,
    labels: seq<seq<ValType>>,
    ret: Option<seq<ValType>>,
    refs: seq<bool>)

  /** The operand types, top last. `poly` is set once control cannot reach this point. */
  datatype TypeStack = TypeStack(types: seq<ValType>, poly: bool)

  const UNREACHABLE := TypeStack([], true)

  function Push(ts: TypeStack, t: ValType): TypeStack { TypeStack(ts.types + [t], ts.poly) }

  function PushAll(ts: TypeStack, rt: seq<ValType>): TypeStack { TypeStack(ts.types + rt, ts.poly) }

  function TryPop(ts: TypeStack, wanted: ValType): Result<TypeStack> {
    if ts.types == [] then
      if ts.poly then Ok(ts) else Err(TypeMismatch)
    else
      var last := |ts.types| - 1;
      var t := ts.types[last];
      if wanted != ANY && t != wanted && t != ANY then Err(TypeMismatch)
      else Ok(TypeStack(ts.types[..last], ts.poly))
  }

  /** Pops `rt`, last type first. */
  function PopAll(ts: TypeStack, rt: seq<ValType>): Result<TypeStack>
    decreases |rt|
  {
    if rt == [] then Ok(ts) else
    match TryPop(ts, rt[|rt| - 1])
    case Err(e) => Err(e)
    case Ok(ts') => PopAll(ts', rt[..|rt| - 1])
  }

  /** Pops `rt`, first type first: the order in which an `if` pops its parameters. */
  function PopForward(ts: TypeStack, rt: seq<ValType>): Result<TypeStack>
    decreases |rt|
  {
    if rt == [] then Ok(ts) else
    match TryPop(ts, rt[0])
    case Err(e) => Err(e)
    case Ok(ts') => PopForward(ts', rt[1..])
  }

  function Peek(ts: TypeStack): Result<ValType> {
    if ts.types == [] then
      if ts.poly then Ok(ANY) else Err(TypeMismatch)
    else Ok(ts.types[|ts.types| - 1])
  }

  predicate IsValTypeCode(b: Byte) { b in {I32, I64, F32, F64, EXTERNREF, FUNCREF} }

  function BlockTypeOf(C: Context, bt: BlockType): Result<FuncType> {
    if bt % 0x100 == EMPTY_BLOCK then Ok(FuncType([], []))
    else if IsValTypeCode(bt % 0x100) then Ok(FuncType([], [bt % 0x100]))
    else if bt < |C.types| then Ok(C.types[bt])
    else Err(Failed)
  }

  /** The k-th innermost label type. */
  function LabelType(C: Context, k: nat): Result<seq<ValType>> {
    if k < |C.labels| then Ok(C.labels[|C.labels| - 1 - k]) else Err(UnknownLabel)
  }

  function WithLabel(C: Context, rt: seq<ValType>): Context { C.(labels := C.labels + [rt]) }

  /** Operand and result types of every plain instruction but drop and select. */
  function PlainSig(C: Context, op: Plain): Result<(seq<ValType>, seq<ValType>)>
    requires !op.Drop? && !op.Select?
  {
    match op
    case SelectT(types) =>
      if |types| != 1 then Err(InvalidResultArity) else Ok(([types[0], types[0], I32], [types[0]]))
    case LocalGet(x) => if x < |C.locals| then Ok(([], [C.locals[x]])) else Err(UnknownLocal)
    case LocalSet(x) => if x < |C.locals| then Ok(([C.locals[x]], [])) else Err(UnknownLocal)
    case LocalTee(x) => if x < |C.locals| then Ok(([C.locals[x]], [C.locals[x]])) else Err(UnknownLocal)
    case GlobalGet(x) => if x < |C.globals| then Ok(([], [C.globals[x].t])) else Err(UnknownGlobal)
    case GlobalSet(x) =>
      if x >= |C.globals| then Err(UnknownGlobal)
      else if !C.globals[x].mutable then Err(GlobalIsImmutable)
      else Ok(([C.globals[x].t], []))
    case TableGet(x) => if x < |C.tables| then Ok(([I32], [C.tables[x]])) else Err(UnknownTable)
    case TableSet(x) => if x < |C.tables| then Ok(([I32, C.tables[x]], [])) else Err(UnknownTable)
    case Access(opcode, align, _) =>
      if !IsLoad(opcode) && !IsStore(opcode) then Err(Failed)
      else if C.mems == 0 then Err(UnknownMemory)
      else if align > 3 || Pow2(align) > Width(opcode) then Err(AlignmentTooLarge)
      else if IsLoad(opcode) then Ok(([I32], [AccessType(opcode)]))
      else Ok(([I32, AccessType(opcode)], []))
    case MemorySize => if C.mems == 0 then Err(UnknownMemory) else Ok(([], [I32]))
    case MemoryGrow => if C.mems == 0 then Err(UnknownMemory) else Ok(([I32], [I32]))
    case Const(t, _) => Ok(([], [t]))
    case Num(opcode) =>
      (match NumSig(opcode)
       case Some((args, t)) => Ok((args, [t]))
       case None => Err(Failed))
    case RefNull(t) => Ok(([], [t]))
    case RefIsNull => Ok(([ANY], [I32]))
    case RefFunc(x) =>
      if x >= |C.funcs| then Err(UnknownFunc)
      else if x < |C.refs| && C.refs[x] then Ok(([], [FUNCREF]))
      else Err(UndeclaredFunctionReference)
    case TruncSat(op2) =>
      (match TruncSatSig(op2)
       case Some((arg, t)) => Ok(([arg], [t]))
       case None => Err(Failed))
    case MemoryInit(x) =>
      if C.mems == 0 then Err(UnknownMemory)
      else if x >= C.datas then Err(UnknownDataSegment)
      else Ok(([I32, I32, I32], []))
    case DataDrop(x) => if x < C.datas then Ok(([], [])) else Err(UnknownDataSegment)
    case MemoryCopy => if C.mems == 0 then Err(UnknownMemory) else Ok(([I32, I32, I32], []))
    case MemoryFill => if C.mems == 0 then Err(UnknownMemory) else Ok(([I32, I32, I32], []))
    case TableInit(x, y) =>
      if x >= |C.tables| then Err(UnknownTable)
      else if y >= |C.elems| then Err(UnknownElemSegment)
      else if C.tables[x] != C.elems[y] then Err(TypeMismatch)
      else Ok(([I32, I32, I32], []))
    case ElemDrop(x) => if x < |C.elems| then Ok(([], [])) else Err(UnknownElemSegment)
    case TableCopy(x, y) =>
      if x >= |C.tables| || y >= |C.tables| then Err(UnknownTable)
      else if C.tables[x] != C.tables[y] then Err(TypeMismatch)
      else Ok(([I32, I32, I32], []))
    case TableGrow(x) => if x < |C.tables| then Ok(([C.tables[x], I32], [I32])) else Err(UnknownTable)
    case TableSize(x) => if x < |C.tables| then Ok(([], [I32])) else Err(UnknownTable)
    case TableFill(x) => if x < |C.tables| then Ok(([I32, C.tables[x], I32], [])) else Err(UnknownTable)
  }

  function CheckPlain(C: Context, op: Plain, ts: TypeStack): Result<TypeStack> {
    match op
    case Drop => TryPop(ts, ANY)
    case Select => CheckSelect(ts)
    case _ =>
      match PlainSig(C, op)
      case Err(e) => Err(e)
      case Ok(sig) => Retype(ts, sig.0, sig.1)
  }

  function CheckSelect(ts: TypeStack): Result<TypeStack> {
    match TryPop(ts, I32)
    case Err(e) => Err(e)
    case Ok(ts1) =>
      match Peek(ts1)
      case Err(e) => Err(e)
      case Ok(t) => if t == EXTERNREF || t == FUNCREF then Err(TypeMismatch) else Retype(ts1, [t, t], [t])
  }

  function Retype(ts: TypeStack, pops: seq<ValType>, pushes: seq<ValType>): Result<TypeStack> {
    match PopAll(ts, pops)
    case Err(e) => Err(e)
    case Ok(ts') => Ok(PushAll(ts', pushes))
  }

  /** One instruction of a list, `validate_instr`. */
  function Check(C: Context, ins: Instr, ts: TypeStack): Result<TypeStack>
    decreases ins, 1
  {
    match ins
    case Unreachable => Ok(UNREACHABLE)
    case Nop => Ok(ts)
    case Else => Ok(ts)
    case End => Ok(ts)
    case Block(bt, in1, _) =>
      (match BlockTypeOf(C, bt)
       case Err(e) => Err(e)
       case Ok(ft) =>
         match CheckBody(WithLabel(C, ft.rt2), in1, ft.rt1, ft.rt2)
         case Err(e) => Err(e)
         case Ok(_) => Retype(ts, ft.rt1, ft.rt2))
    case Loop(bt, in1, _) =>
      (match BlockTypeOf(C, bt)
       case Err(e) => Err(e)
       case Ok(ft) =>
         match CheckBody(WithLabel(C, ft.rt1), in1, ft.rt1, ft.rt2)
         case Err(e) => Err(e)
         case Ok(_) => Retype(ts, ft.rt1, ft.rt2))
    case If(_, _, _) => CheckIf(C, ins, ts)
    case Br(k) =>
      (match LabelType(C, k)
       case Err(e) => Err(e)
       case Ok(rt) => Leave(ts, rt))
    case BrIf(k) =>
      (match LabelType(C, k)
       case Err(e) => Err(e)
       case Ok(rt) =>
         match TryPop(ts, I32)
         case Err(e) => Err(e)
         case Ok(ts') => Retype(ts', rt, rt))
    case BrTable(ls, d) =>
      (match LabelType(C, d)
       case Err(e) => Err(e)
       case Ok(rt) => CheckTargets(C, ls, rt, ts))
    case Return => if C.ret.None? then Err(Failed) else Leave(ts, C.ret.value)
    case Call(x) =>
      if x < |C.funcs| then Retype(ts, C.funcs[x].rt1, C.funcs[x].rt2) else Err(UnknownFunc)
    case CallIndirect(y, x) =>
      if x >= |C.tables| then Err(UnknownTable)
      else if C.tables[x] != FUNCREF then Err(Failed)
      else if y >= |C.types| then Err(UnknownType)
      else (match TryPop(ts, I32)
            case Err(e) => Err(e)
            case Ok(ts') => Retype(ts', C.types[y].rt1, C.types[y].rt2))
    case Plain(op) => CheckPlain(C, op, ts)
  }

  function CheckIf(C: Context, ins: Instr, ts: TypeStack): Result<TypeStack>
    requires ins.If?
    decreases ins, 0
  {
    match BlockTypeOf(C, ins.bt)
    case Err(_) => Err(Failed)
    case Ok(ft) =>
      match CheckBody(WithLabel(C, ft.rt2), ins.in1, ft.rt1, ft.rt2)
      case Err(e) => Err(e)
      case Ok(_) =>
        match CheckBody(WithLabel(C, ft.rt2), ins.in2, ft.rt1, ft.rt2)
        case Err(e) => Err(e)
        case Ok(_) =>
          match TryPop(ts, I32)
          case Err(e) => Err(e)
          case Ok(ts1) =>
            match PopForward(ts1, ft.rt1)
            case Err(e) => Err(e)
            case Ok(ts2) => Ok(PushAll(ts2, ft.rt2))
  }

  /** Pops the operands of a jump and forgets the rest of the stack. */
  function Leave(ts: TypeStack, rt: seq<ValType>): Result<TypeStack> {
    match PopAll(ts, rt)
    case Err(e) => Err(e)
    case Ok(_) => Ok(UNREACHABLE)
  }

  /** The label loop of br_table, followed by the default label. After the first label the
      type stack is polymorphic, so later labels are compared by arity only. */
  function CheckTargets(C: Context, ls: seq<U32>, rt: seq<ValType>, ts: TypeStack): Result<TypeStack>
    decreases |ls|
  {
    if ls == [] then
      match TryPop(ts, I32)
      case Err(e) => Err(e)
      case Ok(ts') => Leave(ts', rt)
    else
      match LabelType(C, ls[0])
      case Err(e) => Err(e)
      case Ok(l) =>
        if |l| != |rt| then Err(TypeMismatch) else
        match TryPop(ts, I32)
        case Err(e) => Err(e)
        case Ok(ts') =>
          match Leave(ts', l)
          case Err(e) => Err(e)
          case Ok(ts'') => CheckTargets(C, ls[1..], rt, ts'')
  }

  /** A whole list from a given type stack, the loop of `validate_instrs`. */
  function CheckSeq(C: Context, code: Code, ts: TypeStack): Result<TypeStack>
    decreases code, 0
  {
    match code
    case Nil => Ok(ts)
    case Cons(ins, next) =>
      match Check(C, ins, ts)
      case Err(e) => Err(e)
      case Ok(ts') => CheckSeq(C, next, ts')
  }

  /** The end of a list: exactly the result types are left. */
  function CheckEnd(ts: TypeStack, rt2: seq<ValType>): Result<()> {
    match PopAll(ts, rt2)
    case Err(e) => Err(e)
    case Ok(ts') => if ts'.types == [] then Ok(()) else Err(TypeMismatch)
  }

  /** `validate_instrs`: a list checked on its own fresh stack. */
  function CheckBody(C: Context, code: Code, rt1: seq<ValType>, rt2: seq<ValType>): Result<()>
    decreases code, 1
  {
    match CheckSeq(C, code, TypeStack(rt1, false))
    case Err(e) => Err(e)
    case Ok(ts) => CheckEnd(ts, rt2)
  }

  /** The context of a function body, built from a module context without labels. */
  function FuncContext(C: Context, ft: FuncType, func: Func): Context {
    C.(locals := ft.rt1 + func.locals, labels := C.labels + [ft.rt2], ret := Some(ft.rt2))
  }

  function CheckFunc(C: Context, func: Func): Result<()>
    requires func.typeidx < |C.types|
  {
    var ft := C.types[func.typeidx];
    CheckBody(FuncContext(C, ft, func), func.body, [], ft.rt2)
  }

  // ---------------------------------------------------------------- what a validator should ask

  /** An `if` finds its parameters in their order on the type stack exactly when it finds them in
      the order in which they are popped. */
  predicate RegularIf(ts: TypeStack, rt: seq<ValType>) {
    TryPop(ts, I32).Ok? ==> (PopForward(TryPop(ts, I32).value, rt).Ok? <==> PopAll(TryPop(ts, I32).value, rt).Ok?)
  }

  /** A br_table finds operands for every label that exists. */
  predicate RegularTable(C: Context, ls: seq<U32>, d: U32, ts: TypeStack) {
    && (LabelType(C, d).Ok? ==> PopAll(ts, LabelType(C, d).value + [I32]).Ok?)
    && forall i :: 0 <= i < |ls| && LabelType(C, ls[i]).Ok? ==> PopAll(ts, LabelType(C, ls[i]).value + [I32]).Ok?
  }
}
