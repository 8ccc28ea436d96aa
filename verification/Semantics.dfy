/** A structured big-step semantics: nested evaluation of instruction lists, with branches
    and returns as outcomes. There are no labels, no frames and no continuation pointers.
    The only trace of the machine is `h`, the number of stack entries below the operands,
    which decides when the bounded stack is exhausted. */
module Semantics {
  import opened Syntax
  import opened Runtime
  import opened Machine

  /** `arities` lists the branch arities of the enclosing blocks, innermost last. */
  datatype Env = Env(inst: ModInst, arities: seq<nat>, ret: nat)

  datatype Outcome =
    | Normal(vals: seq<Val>, locals: seq<Val>, store: Store, fuel: nat)
    | Branch(k: nat, vals: seq<Val>, locals: seq<Val>, store: Store, fuel: nat)
    | Returned(vals: seq<Val>, store: Store, fuel: nat)
    | Trap(err: Error, store: Store)
    | NoFuel
    | OutcomeUB
    | Wedged

  predicate Runs(o: Outcome, fuel: nat) {
    (o.Normal? || o.Branch? || o.Returned?) ==> o.fuel <= fuel
  }

  function Take(vals: seq<Val>, n: nat): seq<Val>
    requires n <= |vals|
  {
    vals[|vals| - n..]
  }

  function Drop'(vals: seq<Val>, n: nat): seq<Val>
    requires n <= |vals|
  {
    vals[..|vals| - n]
  }

  function Eval(fuel: nat, code: Code, env: Env, vals: seq<Val>, locals: seq<Val>, S: Store, h: nat): (o: Outcome)
    ensures Runs(o, fuel)
    decreases fuel, 1
  {
    if code.Nil? then Normal(vals, locals, S, fuel)
    else if fuel == 0 then NoFuel
    else EvalInstr(fuel - 1, code, env, vals, locals, S, h)
  }

  /** The instruction at the head of `code`, then the rest of the list. */
  function EvalInstr(fuel: nat, code: Code, env: Env, vals: seq<Val>, locals: seq<Val>, S: Store, h: nat): (o: Outcome)
    requires code.Cons?
    ensures Runs(o, fuel)
    decreases fuel, 5
  {
    match code.ins
    case Unreachable => Trap(TrapUnreachable, S)
    case Nop => Eval(fuel, code.next, env, vals, locals, S, h)
    case Else => Normal(vals, locals, S, fuel)
    case End => Normal(vals, locals, S, fuel)
    case Block(bt, in1, _) =>
      (match Expand(bt, env.inst)
       case None => Wedged
       case Some(ft) => EvalBlock(fuel, code, in1, ft.rt1, |ft.rt2|, env, vals, locals, S, h))
    case Loop(bt, in1, _) =>
      (match Expand(bt, env.inst)
       case None => Wedged
       case Some(ft) => EvalBlock(fuel, code, in1, ft.rt1, |ft.rt1|, env, vals, locals, S, h))
    case If(bt, in1, in2) =>
      (match Expand(bt, env.inst)
       case None => Wedged
       case Some(ft) =>
         if |vals| < 1 then Wedged
         else EvalBlock(fuel, code, Taken(in1, in2, Take(vals, 1)[0]), ft.rt1, |ft.rt2|, env, Drop'(vals, 1), locals, S, h))
    case Br(k) => EvalBr(fuel, k, env, vals, locals, S)
    case BrIf(k) =>
      if |vals| < 1 then Wedged
      else if AsI32(Take(vals, 1)[0]) == 0 then Eval(fuel, code.next, env, Drop'(vals, 1), locals, S, h)
      else EvalBr(fuel, k, env, Drop'(vals, 1), locals, S)
    case BrTable(ls, d) =>
      if |vals| < 1 then Wedged
      else EvalBr(fuel, TableTarget(ls, d, AsI32(Take(vals, 1)[0])), env, Drop'(vals, 1), locals, S)
    case Return => if |vals| < env.ret then Wedged else Returned(Take(vals, env.ret), S, fuel)
    case Call(x) =>
      if x >= |env.inst.funcaddrs| then Wedged
      else EvalCallThen(fuel, env.inst.funcaddrs[x], code.next, env, vals, locals, S, h)
    case CallIndirect(y, x) =>
      if |vals| < 1 then Wedged else
      (match ResolveIndirect(y, x, Take(vals, 1)[0], S, env.inst)
       case None => Wedged
       case Some(Err(e)) => Trap(e, S)
       case Some(Ok(a)) => EvalCallThen(fuel, a, code.next, env, Drop'(vals, 1), locals, S, h))
    case Plain(op) =>
      (match PlainEffect(op, vals, locals, S, env.inst, h)
       case Wrong => Wedged
       case Traps(e) => Trap(e, S)
       case EffectUB => OutcomeUB
       case Did(vals', locals', S') => Eval(fuel, code.next, env, vals', locals', S', h))
  }

  /** The list an `if` runs. */
  function Taken(in1: Code, in2: Code, c: Val): Code {
    if AsI32(c) != 0 then in1 else if in2.Cons? then in2 else END_CODE
  }

  /** A plain instruction on the operand stack `vals`, of which `h` entries lie below. */
  function PlainEffect(op: Plain, vals: seq<Val>, locals: seq<Val>, S: Store, m: ModInst, h: nat): Effect {
    var n := Pops(op);
    if |vals| < n then Wrong
    else if h + |vals| - n + Pushes(op) > CAPACITY then Traps(TrapCallStackExhausted)
    else
      match Perform(op, Take(vals, n), locals, S, m)
      case Did(results, locals', S') => Did(Drop'(vals, n) + results, locals', S')
      case e => e
  }

  /** Runs `body` on the parameters `rt1` of the block instruction at the head of `code`,
      then carries on after the block, or at a loop again when the loop itself is the target
      of a branch. */
  function EvalBlock(fuel: nat, code: Code, body: Code, rt1: seq<ValType>, arity: nat, env: Env,
                     vals: seq<Val>, locals: seq<Val>, S: Store, h: nat): (o: Outcome)
    requires code.Cons?
    ensures Runs(o, fuel)
    decreases fuel, 2
  {
    var n := |rt1|;
    if |vals| < n then Wedged
    else if h + |vals| + 1 > CAPACITY then Trap(TrapCallStackExhausted, S)
    else
      var rest := Drop'(vals, n);
      var inner := env.(arities := env.arities + [arity]);
      match Eval(fuel, body, inner, Take(vals, n), locals, S, h + |rest| + 1)
      case Normal(vs, locals', S', fuel') => Eval(fuel', code.next, env, rest + vs, locals', S', h)
      case Branch(k, vs, locals', S', fuel') =>
        if k == 0 then
          Eval(fuel', if code.ins.Loop? then code else code.next, env, rest + vs, locals', S', h)
        else
          Branch(k - 1, vs, locals', S', fuel')
      case o => o
  }

  function EvalBr(fuel: nat, k: nat, env: Env, vals: seq<Val>, locals: seq<Val>, S: Store): Outcome {
    if k >= |env.arities| || |vals| < env.arities[|env.arities| - 1 - k] then Wedged
    else Branch(k, Take(vals, env.arities[|env.arities| - 1 - k]), locals, S, fuel)
  }

  /** The function called by call_indirect: None when no such table, type or function exists,
      an error when the call traps. */
  function ResolveIndirect(y: U32, x: U32, index: Val, S: Store, m: ModInst): Option<Result<U32>> {
    if !ValidAddr(m.tableaddrs, x, |S.tables|) || y >= |m.types| then None else
    var elems := S.tables[m.tableaddrs[x]].elems;
    var i := AsI32(index);
    if !(0 <= i < |elems|) then Some(Err(TrapUndefinedElement))
    else if elems[i] == NULL_REF then Some(Err(TrapUninitializedElement))
    else if elems[i] >= |S.funcs| then None
    else if m.types[y] != S.funcs[elems[i]].ftype then Some(Err(TrapIndirectCallTypeMismatch))
    else Some(Ok(elems[i]))
  }

  function EvalCallThen(fuel: nat, addr: U32, next: Code, env: Env, vals: seq<Val>, locals: seq<Val>,
                        S: Store, h: nat): (o: Outcome)
    ensures Runs(o, fuel)
    decreases fuel, 4
  {
    if addr >= |S.funcs| || |vals| < |S.funcs[addr].ftype.rt1| then Wedged else
    var n := |S.funcs[addr].ftype.rt1|;
    match EvalCall(fuel, addr, Take(vals, n), S, h + |vals| - n)
    case Returned(results, S', fuel') => Eval(fuel', next, env, Drop'(vals, n) + results, locals, S', h)
    case o => o
  }

  /** A function call: `Returned` with the results, or a trap. `h` is the height of the stack
      below the arguments. */
  function EvalCall(fuel: nat, addr: U32, args: seq<Val>, S: Store, h: nat): (o: Outcome)
    requires addr < |S.funcs|
    ensures Runs(o, fuel) && !o.Normal? && !o.Branch?
    decreases fuel, 3
  {
    var f := S.funcs[addr];
    var arity := |f.ftype.rt2|;
    var slots := FrameSlots(args, f.code.locals);
    if slots.None? then OutcomeUB else
    if h + 2 > CAPACITY then Trap(TrapCallStackExhausted, S) else
    match Eval(fuel, f.code.body, Env(f.inst, [arity], arity), [], slots.value, S, h + 2)
    case Normal(vs, _, S', fuel') => if |vs| == arity then Returned(vs, S', fuel') else Wedged
    case Branch(k, vs, _, S', fuel') => if k == 0 then Returned(vs, S', fuel') else Wedged
    case o => o
  }
}
