/** Control instructions said by each other, as section 4.4.8 of the WebAssembly Core
    Specification 2.0 reduces them: a conditional branch to a branch, an `if` to a block, an
    indirect call to a call. */
module ControlLaws {
  import opened Syntax
  import opened Runtime
  import opened Machine
  import opened Semantics
  import opened StackLemmas
  import opened StateLaws
  import opened Bulk

  predicate IsZero(c: Val) { c.bits % 0x1_0000_0000 == 0 }

  /** br_if is br when its operand is not zero, and otherwise nothing. */
  lemma BrIfIsBr(k: U32, next: Code, s: Stk, c: Val, fi: nat, S: Store)
    requires fi < |s| && s[fi].OFrame?
    ensures StepInstr(Cons(BrIf(k), next), fi, s + OVals([c]), S)
            == if IsZero(c) then Next(next, s, S) else StepInstr(Cons(Br(k), next), fi, s, S)
  {
    hide StepBr, CanPop, Top, Below;
    OneOperand(s, c, fi);
    SameBr(k, Cons(BrIf(k), next), Cons(Br(k), next), s, S);
  }

  lemma OneOperand(s: Stk, c: Val, fi: nat)
    requires fi < |s|
    ensures CanPop(s + OVals([c]), 1) && Top(s + OVals([c]), 1) == [c] && Below(s + OVals([c]), 1) == s
    ensures (s + OVals([c]))[fi] == s[fi]
  {
    PopOf(s, [c], 1);
    assert Take([c], 1) == [c] && Drop'([c], 1) == [] && s + OVals([]) == s;
  }

  /** Which instruction branches does not matter, only what follows it. */
  lemma SameBr(k: nat, ip: Code, ip': Code, s: Stk, S: Store)
    requires ip.Cons? && ip'.Cons? && ip.next == ip'.next
    ensures StepBr(k, ip, s, S) == StepBr(k, ip', s, S)
  {
    hide LabelAt, Unwind, CanPop, Top;
  }

  /** br_table is a branch to the label its unsigned operand selects, or else to the default. */
  lemma BrTableIsBr(ls: seq<U32>, d: U32, next: Code, s: Stk, c: Val, fi: nat, S: Store)
    requires fi < |s| && s[fi].OFrame? && |ls| <= HALF
    ensures var i := c.bits % 0x1_0000_0000;
            StepInstr(Cons(BrTable(ls, d), next), fi, s + OVals([c]), S)
            == StepInstr(Cons(Br(if i < |ls| then ls[i] else d), next), fi, s, S)
  {
    hide StepBr, CanPop, Top, Below, TableTarget;
    OneOperand(s, c, fi);
    UnsignedTarget(ls, d, c);
    var k := TableTarget(ls, d, AsI32(c));
    SameBr(k, Cons(BrTable(ls, d), next), Cons(Br(k), next), s, S);
  }

  /** `if` is a block with its first list when its operand is not zero, and with its second, or
      an empty one, when it is. */
  lemma IfIsBlock(fuel: nat, bt: BlockType, in1: Code, in2: Code, next: Code, env: Env, vals: seq<Val>, c: Val, locals: seq<Val>, S: Store, h: nat)
    ensures EvalInstr(fuel, Cons(If(bt, in1, in2), next), env, vals + [c], locals, S, h) ==
            var body := if !IsZero(c) then in1 else if in2 == Nil then END_CODE else in2;
            EvalInstr(fuel, Cons(Block(bt, body, Nil), next), env, vals, locals, S, h)
  {
    hide Eval, Expand;
    assert Take(vals + [c], 1)[0] == c && Drop'(vals + [c], 1) == vals;
  }

  /** A loop whose body is not left by a branch to it is a block with the same parameters. */
  lemma LoopIsBlock(fuel: nat, bt: BlockType, body: Code, next: Code, env: Env, vals: seq<Val>, locals: seq<Val>, S: Store, h: nat)
    requires Expand(bt, env.inst).Some? && |Expand(bt, env.inst).value.rt1| == |Expand(bt, env.inst).value.rt2|
    requires var ft := Expand(bt, env.inst).value;
             |vals| >= |ft.rt1| ==>
               var o := Eval(fuel, body, env.(arities := env.arities + [|ft.rt1|]), Take(vals, |ft.rt1|), locals, S, h + |vals| - |ft.rt1| + 1);
               !(o.Branch? && o.k == 0)
    ensures EvalInstr(fuel, Cons(Loop(bt, body, Nil), next), env, vals, locals, S, h)
            == EvalInstr(fuel, Cons(Block(bt, body, Nil), next), env, vals, locals, S, h)
  {
    hide Eval, Expand;
  }

  /** unreachable stops a run with the trap of its name. */
  lemma UnreachableTraps(fuel: nat, next: Code, fi: nat, s: Stk, S: Store)
    requires fi < |s| && s[fi].OFrame? && fuel > 0
    ensures Exec(fuel, Cons(Unreachable, next), fi, s, S) == Trapped(TrapUnreachable, S)
  {
  }

  /** An indirect call traps on an index outside the table, a null slot and a function of
      another type, each by its own name. */
  lemma IndirectTraps(y: U32, x: U32, next: Code, s: Stk, c: Val, fi: nat, S: Store)
    requires fi < |s| && s[fi].OFrame? && ValidAddr(s[fi].inst.tableaddrs, x, |S.tables|) && y < |s[fi].inst.types|
    requires |S.tables[s[fi].inst.tableaddrs[x]].elems| <= HALF
    ensures var elems, i := S.tables[s[fi].inst.tableaddrs[x]].elems, c.bits % 0x1_0000_0000;
            var r := StepInstr(Cons(CallIndirect(y, x), next), fi, s + OVals([c]), S);
            && (i >= |elems| ==> r == Throws(TrapUndefinedElement))
            && (i < |elems| && elems[i] == 0xFFFF_FFFF ==> r == Throws(TrapUninitializedElement))
            && (i < |elems| && elems[i] < |S.funcs| && elems[i] != 0xFFFF_FFFF && S.funcs[elems[i]].ftype != s[fi].inst.types[y] ==>
                  r == Throws(TrapIndirectCallTypeMismatch))
  {
    hide CanPop, Top, Below, SameTypes;
    OneOperand(s, c, fi);
    var elems, i := S.tables[s[fi].inst.tableaddrs[x]].elems, AsI32(c);
    if 0 <= i < |elems| && elems[i] < |S.funcs| {
      SameTypesIsEquality(s[fi].inst.types[y], S.funcs[elems[i]].ftype);
    }
  }
}
