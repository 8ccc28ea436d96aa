/** The flat stack machine: values, labels and frames share one bounded stack, `ip` is the
    rest of an instruction list, and a block exit continues at `label.parent->next`.

    `fuel` bounds the number of instructions executed, since WebAssembly code may diverge. */
module Machine {
  import opened Syntax
  import opened Runtime

  datatype Obj =
    | OVal(v: Val)
    | OLabel(arity: nat, parent: Code, continuation: Code)
    | OFrame(arity: nat, locals: seq<Val>, inst: ModInst)

  /** The stack, bottom first. */
  type Stk = seq<Obj>

  /** 65536 bytes of 48-byte entries; `idx` runs from -1 to 1364. */
  const CAPACITY: nat := 1365

  datatype Run =
    | Done(stk: Stk, store: Store, fuel: nat)
    | Trapped(err: Error, store: Store)
    | OutOfFuel
    | RunUB // from here on the C language leaves open what happens
    | Stuck // an operation on an entry of the wrong kind, or a null pointer

  function OVals(vs: seq<Val>): (s: Stk)
    ensures |s| == |vs|
  {
    seq(|vs|, i requires 0 <= i < |vs| => OVal(vs[i]))
  }

  predicate AllVals(s: Stk) { forall i :: 0 <= i < |s| ==> s[i].OVal? }

  function ValsOf(s: Stk): (vs: seq<Val>)
    requires AllVals(s)
    ensures |vs| == |s|
  {
    seq(|s|, i requires 0 <= i < |s| => s[i].v)
  }

  /** The number of values above the topmost label or frame. */
  function TopVals(s: Stk): (n: nat)
    ensures n <= |s| && forall i :: |s| - n <= i < |s| ==> s[i].OVal?
    ensures n < |s| ==> !s[|s| - 1 - n].OVal?
  {
    if s == [] || !s[|s| - 1].OVal? then 0 else TopVals(s[..|s| - 1]) + 1
  }

  predicate CanPop(s: Stk, n: nat) { n <= |s| && AllVals(s[|s| - n..]) }

  /** The top `n` values, deepest first. */
  function Top(s: Stk, n: nat): (vs: seq<Val>)
    requires CanPop(s, n)
    ensures |vs| == n
  {
    ValsOf(s[|s| - n..])
  }

  function Below(s: Stk, n: nat): Stk
    requires n <= |s|
  {
    s[..|s| - n]
  }

  /** Position of the k-th label entry from the top. */
  function LabelAt(s: Stk, k: nat): (p: Option<nat>)
    ensures p.Some? ==> p.value < |s| && s[p.value].OLabel?
    decreases |s|
  {
    if s == [] then None else
    var n := |s| - 1;
    if !s[n].OLabel? then LabelAt(s[..n], k)
    else if k == 0 then Some(n)
    else LabelAt(s[..n], k - 1)
  }

  /** `count` rounds of "pop all values, pop a label"; the last label popped is returned. */
  function Unwind(s: Stk, count: nat): (r: Option<(Stk, Obj)>)
    requires count > 0
    ensures r.Some? ==> r.value.1.OLabel? && |r.value.0| < |s|
    decreases count
  {
    var s1 := Below(s, TopVals(s));
    if s1 == [] || !s1[|s1| - 1].OLabel? then None
    else
      var s2 := s1[..|s1| - 1];
      if count == 1 then Some((s2, s1[|s1| - 1])) else Unwind(s2, count - 1)
  }

  /** The stack with everything above the topmost frame dropped. */
  function DropToFrame(s: Stk): (r: Stk)
    ensures |r| <= |s| && (r != [] ==> r[|r| - 1].OFrame?)
  {
    if s == [] || s[|s| - 1].OFrame? then s else DropToFrame(s[..|s| - 1])
  }

  const END_CODE: Code := Cons(End, Nil)

  /** `expand_F`: unlike the validator it has no case for a funcref block. */
  function Expand(bt: BlockType, m: ModInst): Option<FuncType> {
    var b := bt % 0x100;
    if b == EMPTY_BLOCK then Some(FuncType([], []))
    else if b in {I32, I64, F32, F64, EXTERNREF} then Some(FuncType([], [b]))
    else if bt < |m.types| then Some(m.types[bt])
    else None
  }

  /** What one instruction does. */
  datatype Step =
    | Next(ip: Code, stk: Stk, store: Store)
    | Invokes(addr: U32, stk: Stk) // then continue at ip->next
    | Throws(err: Error)
    | StepUB
    | Fails

  function PushLabel(s: Stk, n: nat, lab: Obj, ip: Code, S: Store): Step
    requires CanPop(s, n)
  {
    if |s| + 1 > CAPACITY then Throws(TrapCallStackExhausted)
    else Next(ip, Below(s, n) + [lab] + OVals(Top(s, n)), S)
  }

  function StepBlock(ip: Code, s: Stk, S: Store, m: ModInst): Step
    requires ip.Cons? && ip.ins.Block?
  {
    match Expand(ip.ins.bt, m)
    case None => Fails
    case Some(ft) =>
      if !CanPop(s, |ft.rt1|) then Fails
      else PushLabel(s, |ft.rt1|, OLabel(|ft.rt2|, ip, END_CODE), ip.ins.in1, S)
  }

  function StepLoop(ip: Code, s: Stk, S: Store, m: ModInst): Step
    requires ip.Cons? && ip.ins.Loop?
  {
    match Expand(ip.ins.bt, m)
    case None => Fails
    case Some(ft) =>
      if !CanPop(s, |ft.rt1|) then Fails
      else PushLabel(s, |ft.rt1|, OLabel(|ft.rt1|, ip, ip), ip.ins.in1, S)
  }

  function StepIf(ip: Code, s: Stk, S: Store, m: ModInst): Step
    requires ip.Cons? && ip.ins.If?
  {
    if !CanPop(s, 1) then Fails else
    var c := AsI32(Top(s, 1)[0]);
    var s1 := Below(s, 1);
    match Expand(ip.ins.bt, m)
    case None => Fails
    case Some(ft) =>
      if !CanPop(s1, |ft.rt1|) then Fails
      else
        var target := if c != 0 then ip.ins.in1 else if ip.ins.in2.Cons? then ip.ins.in2 else END_CODE;
        PushLabel(s1, |ft.rt1|, OLabel(|ft.rt2|, ip, END_CODE), target, S)
  }

  /** `end` and `else`: leave the innermost list, keeping all its values. */
  function StepEnd(s: Stk, S: Store): Step {
    var n := TopVals(s);
    var s1 := Below(s, n);
    if s1 == [] then Fails
    else
      var top := s1[|s1| - 1];
      if top.OLabel? then
        Next(AfterLabel(top), s1[..|s1| - 1] + OVals(Top(s, n)), S)
      else
        Next(Nil, s, S)
  }

  function AfterLabel(lab: Obj): Code
    requires lab.OLabel?
  {
    if lab.parent.Cons? then lab.parent.next else Nil
  }

  function StepBr(k: nat, ip: Code, s: Stk, S: Store): Step
    requires ip.Cons?
  {
    match LabelAt(s, k)
    case None => Fails
    case Some(p) =>
      var l := s[p];
      if !CanPop(s, l.arity) then Fails else
      match Unwind(Below(s, l.arity), k + 1)
      case None => Fails
      case Some((s', lab)) => Next(BrTarget(lab, ip), s' + OVals(Top(s, l.arity)), S)
  }

  function BrTarget(lab: Obj, ip: Code): Code
    requires lab.OLabel? && ip.Cons?
  {
    if lab.parent.Nil? then Nil
    else
      match lab.parent.ins
      case Block(_, _, _) => lab.parent.next
      case If(_, _, _) => lab.parent.next
      case Loop(_, _, _) => lab.continuation
      case _ => ip.next
  }

  function TableTarget(labels: seq<U32>, d: U32, c: int): U32 {
    if 0 <= c < |labels| then labels[c] else d
  }

  function StepCallIndirect(y: U32, x: U32, s: Stk, S: Store, m: ModInst): Step {
    if !ValidAddr(m.tableaddrs, x, |S.tables|) || y >= |m.types| || !CanPop(s, 1) then Fails else
    var elems := S.tables[m.tableaddrs[x]].elems;
    var i := AsI32(Top(s, 1)[0]);
    if !(0 <= i < |elems|) then Throws(TrapUndefinedElement)
    else if elems[i] == NULL_REF then Throws(TrapUninitializedElement)
    else if elems[i] >= |S.funcs| then Fails
    else if !SameTypes(m.types[y], S.funcs[elems[i]].ftype) then Throws(TrapIndirectCallTypeMismatch)
    else Invokes(elems[i], Below(s, 1))
  }

  /** The element-by-element comparison of call_indirect. */
  predicate SameTypes(a: FuncType, b: FuncType) {
    && |a.rt1| == |b.rt1| && |a.rt2| == |b.rt2|
    && (forall i :: 0 <= i < |a.rt1| ==> a.rt1[i] == b.rt1[i])
    && (forall i :: 0 <= i < |a.rt2| ==> a.rt2[i] == b.rt2[i])
  }

  function StepPlain(op: Plain, next: Code, fi: nat, s: Stk, S: Store): Step
    requires fi < |s| && s[fi].OFrame?
  {
    var n := Pops(op);
    if !CanPop(s, n) then Fails else
    var s1 := Below(s, n);
    if |s1| + Pushes(op) > CAPACITY then Throws(TrapCallStackExhausted) else
    if fi >= |s1| then Fails else
    match Perform(op, Top(s, n), s[fi].locals, S, s[fi].inst)
    case Wrong => Fails
    case Traps(e) => Throws(e)
    case EffectUB => StepUB
    case Did(results, locals, S') => Next(next, s1[fi := s1[fi].(locals := locals)] + OVals(results), S')
  }

  /** One round of the machine's loop. `fi` is the position of the frame that was current
      when the instruction list was entered. */
  function StepInstr(ip: Code, fi: nat, s: Stk, S: Store): Step
    requires ip.Cons?
  {
    if fi >= |s| || !s[fi].OFrame? then Fails else
    var m := s[fi].inst;
    match ip.ins
    case Unreachable => Throws(TrapUnreachable)
    case Nop => Next(ip.next, s, S)
    case Block(_, _, _) => StepBlock(ip, s, S, m)
    case Loop(_, _, _) => StepLoop(ip, s, S, m)
    case If(_, _, _) => StepIf(ip, s, S, m)
    case Else => StepEnd(s, S)
    case End => StepEnd(s, S)
    case Br(k) => StepBr(k, ip, s, S)
    case BrIf(k) =>
      if !CanPop(s, 1) then Fails
      else if AsI32(Top(s, 1)[0]) == 0 then Next(ip.next, Below(s, 1), S)
      else StepBr(k, ip, Below(s, 1), S)
    case BrTable(ls, d) =>
      if !CanPop(s, 1) then Fails
      else StepBr(TableTarget(ls, d, AsI32(Top(s, 1)[0])), ip, Below(s, 1), S)
    case Return => Next(Nil, s, S)
    case Call(x) => if x < |m.funcaddrs| then Invokes(m.funcaddrs[x], s) else Fails
    case CallIndirect(y, x) => StepCallIndirect(y, x, s, S, m)
    case Plain(op) => StepPlain(op, ip.next, fi, s, S)
  }

  /** `exec_expr`. */
  function Exec(fuel: nat, ip: Code, fi: nat, s: Stk, S: Store): (r: Run)
    ensures r.Done? ==> r.fuel <= fuel
    decreases fuel, 1
  {
    if ip.Nil? then Done(s, S, fuel)
    else if fuel == 0 then OutOfFuel
    else
      match StepInstr(ip, fi, s, S)
      case Fails => Stuck
      case Throws(e) => Trapped(e, S)
      case StepUB => RunUB
      case Next(ip', s', S') => Exec(fuel - 1, ip', fi, s', S')
      case Invokes(addr, s') =>
        match Invoke(fuel - 1, addr, s', S)
        case Done(s'', S'', fuel'') => Exec(fuel'', ip.next, fi, s'', S'')
        case r => r
  }

  function ZeroVals(types: seq<ValType>): seq<Val> {
    seq(|types|, i requires 0 <= i < |types| => Val(types[i], 0))
  }

  /** The slots of a new frame. Their number is a 32-bit sum; None when it wraps around to
      less than the number of arguments, which are then written past the slots. */
  function FrameSlots(args: seq<Val>, types: seq<ValType>): Option<seq<Val>> {
    var count := (|args| + |types|) % 0x1_0000_0000;
    if count < |args| then None
    else Some(args + ZeroVals(if count - |args| < |types| then types[..count - |args|] else types))
  }

  /** `invoke_func`. */
  function Invoke(fuel: nat, addr: U32, s: Stk, S: Store): (r: Run)
    ensures r.Done? ==> r.fuel <= fuel
    decreases fuel, 2
  {
    if addr >= |S.funcs| then Stuck else
    var f := S.funcs[addr];
    var n, arity := |f.ftype.rt1|, |f.ftype.rt2|;
    if !CanPop(s, n) then Stuck else
    var base := Below(s, n);
    var slots := FrameSlots(Top(s, n), f.code.locals);
    if slots.None? then RunUB else
    if |base| + 2 > CAPACITY then Trapped(TrapCallStackExhausted, S) else
    var frame := OFrame(arity, slots.value, f.inst);
    match Exec(fuel, f.code.body, |base|, base + [frame] + [OLabel(arity, Nil, END_CODE)], S)
    case Done(s', S', fuel') => LeaveFrame(arity, s', S', fuel')
    case r => r
  }

  /** The end of `invoke_func`: keep the top `arity` values and drop the activation. */
  function LeaveFrame(arity: nat, s: Stk, S: Store, fuel: nat): (r: Run)
    ensures r.Done? ==> r.fuel == fuel
  {
    if !CanPop(s, arity) then Stuck else
    var s1 := DropToFrame(Below(s, arity));
    if s1 == [] then Stuck
    else if |s1| - 1 + arity > CAPACITY then Trapped(TrapCallStackExhausted, S)
    else Done(s1[..|s1| - 1] + OVals(Top(s, arity)), S, fuel)
  }
}
