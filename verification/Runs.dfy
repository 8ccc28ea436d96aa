/** What plain instructions keep, every run of the machine keeps; and runs whose instructions
    meet a condition. */
module Runs {
  import opened Syntax
  import opened Runtime
  import opened Machine
  import Simulation

  /** A condition on a plain instruction, its operands, the store and the current instance. */
  type Condition = (Plain, seq<Val>, Store, ModInst) -> bool

  /** Every plain instruction that meets `Q` keeps property `P` of stores. */
  ghost predicate KeptWhere(P: Store -> bool, Q: Condition) {
    forall op: Plain, args: seq<Val>, locals: seq<Val>, S: Store, m: ModInst {:trigger Perform(op, args, locals, S, m)} ::
      |args| == Pops(op) && Q(op, args, S, m) && P(S) && Perform(op, args, locals, S, m).Did? ==>
        P(Perform(op, args, locals, S, m).store)
  }

  ghost predicate KeptByAll(P: Store -> bool) { KeptWhere(P, Always()) }

  function Always(): Condition { (op: Plain, args: seq<Val>, S: Store, m: ModInst) => true }

  // ---------------------------------------------------------------- conditions along a run

  /** The instruction at `ip`, if it is plain, meets `Q` on the operands it finds. */
  ghost predicate Meets(Q: Condition, ip: Code, fi: nat, s: Stk, S: Store)
    requires ip.Cons?
  {
    ip.ins.Plain? && fi < |s| && s[fi].OFrame? && CanPop(s, Pops(ip.ins.op)) ==>
      Q(ip.ins.op, Top(s, Pops(ip.ins.op)), S, s[fi].inst)
  }

  /** Every plain instruction of the run, in this activation and in those it calls, meets `Q`. */
  ghost predicate Along(Q: Condition, fuel: nat, ip: Code, fi: nat, s: Stk, S: Store)
    decreases fuel, 1
  {
    ip.Cons? && fuel > 0 ==>
      && Meets(Q, ip, fi, s, S)
      && match StepInstr(ip, fi, s, S)
         case Next(ip', s', S') => Along(Q, fuel - 1, ip', fi, s', S')
         case Invokes(addr, s') =>
           var r := Invoke(fuel - 1, addr, s', S);
           AlongCall(Q, fuel - 1, addr, s', S) && (r.Done? ==> Along(Q, r.fuel, ip.next, fi, r.stk, r.store))
         case _ => true
  }

  ghost predicate AlongCall(Q: Condition, fuel: nat, addr: U32, s: Stk, S: Store)
    decreases fuel, 2
  {
    addr < |S.funcs| && CanPop(s, |S.funcs[addr].ftype.rt1|) ==>
      var f := S.funcs[addr];
      var n, arity := |f.ftype.rt1|, |f.ftype.rt2|;
      var base, slots := Below(s, n), FrameSlots(Top(s, n), f.code.locals);
      slots.Some? ==>
        Along(Q, fuel, f.code.body, |base|, base + [OFrame(arity, slots.value, f.inst)] + [OLabel(arity, Nil, END_CODE)], S)
  }

  lemma {:induction false} AlwaysAlong(fuel: nat, ip: Code, fi: nat, s: Stk, S: Store)
    ensures Along(Always(), fuel, ip, fi, s, S)
    decreases fuel, 1
  {
    hide StepInstr, Invoke, AlongCall;
    if ip.Cons? && fuel > 0 {
      match StepInstr(ip, fi, s, S)
      case Next(ip', s', S') => AlwaysAlong(fuel - 1, ip', fi, s', S');
      case Invokes(addr, s') =>
        AlwaysAlongCall(fuel - 1, addr, s', S);
        var r := Invoke(fuel - 1, addr, s', S);
        if r.Done? {
          AlwaysAlong(r.fuel, ip.next, fi, r.stk, r.store);
        }
      case _ =>
    }
  }

  lemma {:induction false} AlwaysAlongCall(fuel: nat, addr: U32, s: Stk, S: Store)
    ensures AlongCall(Always(), fuel, addr, s, S)
    decreases fuel, 2
  {
    hide Along;
    if addr < |S.funcs| && CanPop(s, |S.funcs[addr].ftype.rt1|) {
      var f := S.funcs[addr];
      var n, arity := |f.ftype.rt1|, |f.ftype.rt2|;
      var base, slots := Below(s, n), FrameSlots(Top(s, n), f.code.locals);
      if slots.Some? {
        AlwaysAlong(fuel, f.code.body, |base|, base + [OFrame(arity, slots.value, f.inst)] + [OLabel(arity, Nil, END_CODE)], S);
      }
    }
  }

  // ---------------------------------------------------------------- what is kept

  /** A run that is done or trapped ends in a store with property `P`. */
  ghost predicate EndsIn(P: Store -> bool, r: Run) { r.Done? || r.Trapped? ==> P(r.store) }

  lemma ControlKeepsStore(ip: Code, fi: nat, s: Stk, S: Store)
    requires ip.Cons? && !ip.ins.Plain?
    ensures var r := StepInstr(ip, fi, s, S); !r.StepUB? && (r.Next? ==> r.store == S)
  {
    hide TopVals, LabelAt, Unwind, Expand, BrTarget;
  }

  lemma StepKeeps(P: Store -> bool, Q: Condition, ip: Code, fi: nat, s: Stk, S: Store)
    requires KeptWhere(P, Q) && P(S) && ip.Cons? && Meets(Q, ip, fi, s, S)
    ensures var r := StepInstr(ip, fi, s, S); r.Next? ==> P(r.store)
  {
    hide StepBlock, StepLoop, StepIf, StepEnd, StepBr, StepCallIndirect, Perform, Pushes, Top, CanPop;
    match ip.ins
    case Plain(op) =>
    case _ => ControlKeepsStore(ip, fi, s, S);
  }

  /** What the plain instructions that meet `Q` keep, every run along which `Q` is met keeps,
      validated or not. */
  lemma {:induction false} ExecKeepsWhere(P: Store -> bool, Q: Condition, fuel: nat, ip: Code, fi: nat, s: Stk, S: Store)
    requires KeptWhere(P, Q) && P(S) && Along(Q, fuel, ip, fi, s, S)
    ensures EndsIn(P, Exec(fuel, ip, fi, s, S))
    decreases fuel, 1
  {
    hide StepInstr, KeptWhere, Invoke, AlongCall, Meets;
    if ip.Cons? && fuel > 0 {
      StepKeeps(P, Q, ip, fi, s, S);
      match StepInstr(ip, fi, s, S)
      case Next(ip', s', S') => ExecKeepsWhere(P, Q, fuel - 1, ip', fi, s', S');
      case Invokes(addr, s') =>
        InvokeKeepsWhere(P, Q, fuel - 1, addr, s', S);
        var r := Invoke(fuel - 1, addr, s', S);
        if r.Done? {
          ExecKeepsWhere(P, Q, r.fuel, ip.next, fi, r.stk, r.store);
        }
      case _ =>
    }
  }

  lemma {:induction false} InvokeKeepsWhere(P: Store -> bool, Q: Condition, fuel: nat, addr: U32, s: Stk, S: Store)
    requires KeptWhere(P, Q) && P(S) && AlongCall(Q, fuel, addr, s, S)
    ensures EndsIn(P, Invoke(fuel, addr, s, S))
    decreases fuel, 2
  {
    hide Exec, KeptWhere, DropToFrame, Along;
    if addr < |S.funcs| {
      var f := S.funcs[addr];
      var n, arity := |f.ftype.rt1|, |f.ftype.rt2|;
      if CanPop(s, n) {
        var base := Below(s, n);
        var slots := FrameSlots(Top(s, n), f.code.locals);
        if slots.Some? {
          var frame := OFrame(arity, slots.value, f.inst);
          ExecKeepsWhere(P, Q, fuel, f.code.body, |base|, base + [frame] + [OLabel(arity, Nil, END_CODE)], S);
        }
      }
    }
  }

  lemma ExecKeeps(P: Store -> bool, fuel: nat, ip: Code, fi: nat, s: Stk, S: Store)
    requires KeptByAll(P) && P(S)
    ensures EndsIn(P, Exec(fuel, ip, fi, s, S))
  {
    hide Exec, KeptWhere, Along;
    AlwaysAlong(fuel, ip, fi, s, S);
    ExecKeepsWhere(P, Always(), fuel, ip, fi, s, S);
  }

  lemma InvokeKeeps(P: Store -> bool, fuel: nat, addr: U32, s: Stk, S: Store)
    requires KeptByAll(P) && P(S)
    ensures EndsIn(P, Invoke(fuel, addr, s, S))
  {
    hide Invoke, KeptWhere, AlongCall;
    AlwaysAlongCall(fuel, addr, s, S);
    InvokeKeepsWhere(P, Always(), fuel, addr, s, S);
  }

  // ---------------------------------------------------------------- defined behaviour

  /** No plain instruction that meets `Q` is undefined in C. */
  ghost predicate Defined(Q: Condition) {
    forall op: Plain, args: seq<Val>, locals: seq<Val>, S: Store, m: ModInst {:trigger Perform(op, args, locals, S, m)} ::
      |args| == Pops(op) && Q(op, args, S, m) ==> !Perform(op, args, locals, S, m).EffectUB?
  }

  /** Parameters and locals of every function are few enough for the 32-bit count of slots. */
  ghost predicate FramesFit(S: Store) {
    forall i :: 0 <= i < |S.funcs| ==> |S.funcs[i].ftype.rt1| + |S.funcs[i].code.locals| < 0x1_0000_0000
  }

  ghost function FramesFitting(): Store -> bool { (S: Store) => FramesFit(S) }

  lemma FramesFitKept()
    ensures KeptByAll(FramesFitting())
  {
    hide Perform;
    forall op: Plain, args: seq<Val>, locals: seq<Val>, S: Store, m: ModInst
      | |args| == Pops(op) && FramesFitting()(S) && Perform(op, args, locals, S, m).Did?
      ensures FramesFitting()(Perform(op, args, locals, S, m).store)
    {
      Simulation.PerformKeepsFuncs(op, args, locals, S, m);
    }
  }

  lemma StepDefined(Q: Condition, ip: Code, fi: nat, s: Stk, S: Store)
    requires Defined(Q) && ip.Cons? && Meets(Q, ip, fi, s, S)
    ensures !StepInstr(ip, fi, s, S).StepUB?
  {
    hide StepBlock, StepLoop, StepIf, StepEnd, StepBr, StepCallIndirect, Perform, Pushes, Top, CanPop;
    match ip.ins
    case Plain(op) =>
    case _ => ControlKeepsStore(ip, fi, s, S);
  }

  /** A run along which no instruction is undefined in C, of functions whose frames can be made,
      never meets undefined behaviour. */
  lemma {:induction false} ExecDefined(Q: Condition, fuel: nat, ip: Code, fi: nat, s: Stk, S: Store)
    requires Defined(Q) && FramesFit(S) && Along(Q, fuel, ip, fi, s, S)
    ensures !Exec(fuel, ip, fi, s, S).RunUB?
    decreases fuel, 1
  {
    hide StepInstr, Defined, Invoke, AlongCall, Meets, FramesFit, KeptWhere;
    FramesFitKept();
    if ip.Cons? && fuel > 0 {
      StepDefined(Q, ip, fi, s, S);
      WeakerKept(FramesFitting(), Q);
      StepKeeps(FramesFitting(), Q, ip, fi, s, S);
      match StepInstr(ip, fi, s, S)
      case Next(ip', s', S') => ExecDefined(Q, fuel - 1, ip', fi, s', S');
      case Invokes(addr, s') =>
        InvokeDefined(Q, fuel - 1, addr, s', S);
        InvokeKeeps(FramesFitting(), fuel - 1, addr, s', S);
        var r := Invoke(fuel - 1, addr, s', S);
        if r.Done? {
          ExecDefined(Q, r.fuel, ip.next, fi, r.stk, r.store);
        }
      case _ =>
    }
  }

  lemma WeakerKept(P: Store -> bool, Q: Condition)
    requires KeptByAll(P)
    ensures KeptWhere(P, Q)
  {
    hide Perform;
  }

  lemma {:induction false} InvokeDefined(Q: Condition, fuel: nat, addr: U32, s: Stk, S: Store)
    requires Defined(Q) && FramesFit(S) && AlongCall(Q, fuel, addr, s, S)
    ensures !Invoke(fuel, addr, s, S).RunUB?
    decreases fuel, 2
  {
    hide Exec, Defined, DropToFrame, Along, Top;
    if addr < |S.funcs| {
      var f := S.funcs[addr];
      var n, arity := |f.ftype.rt1|, |f.ftype.rt2|;
      if CanPop(s, n) {
        var base := Below(s, n);
        var slots := FrameSlots(Top(s, n), f.code.locals);
        assert slots.Some?;
        var frame := OFrame(arity, slots.value, f.inst);
        ExecDefined(Q, fuel, f.code.body, |base|, base + [frame] + [OLabel(arity, Nil, END_CODE)], S);
      }
    }
  }
}
