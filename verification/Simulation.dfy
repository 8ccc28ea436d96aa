/** The flat machine computes the structured semantics: instruction by instruction, with the
    same fuel, for every fuel. */
module Simulation {
  import opened Syntax
  import opened Runtime
  import opened Machine
  import opened Semantics
  import opened StackLemmas

  ghost predicate WellFormedStore(S: Store) {
    forall i :: 0 <= i < |S.funcs| ==> WellFormed(S.funcs[i].code.body, false)
  }

  /** A label is null-parented, or belongs to a block whose `continuation` fits its kind. */
  ghost predicate GoodLabel(l: Obj) {
    && l.OLabel?
    && (l.parent.Cons? ==>
          && (l.parent.ins.Block? || l.parent.ins.Loop? || l.parent.ins.If?)
          && (l.parent.ins.Loop? ==> l.continuation == l.parent))
  }

  /** Where a branch to `l` continues: at a loop again, after any other block. */
  function Target(l: Obj): Code
    requires GoodLabel(l)
  {
    if l.parent.Cons? && l.parent.ins.Loop? then l.parent else AfterLabel(l)
  }

  /** Branch index `k` finds a good label above the frame, of the arity `env` tells. */
  ghost predicate LabelFits(below: Stk, fi: nat, env: Env, k: nat)
    requires k < |env.arities|
  {
    var p := LabelAt(below, k);
    && p.Some? && fi < p.value && GoodLabel(below[p.value])
    && below[p.value].arity == env.arities[|env.arities| - 1 - k]
  }

  function Frame(env: Env, locals: seq<Val>): Obj { OFrame(env.ret, locals, env.inst) }

  /** `below` ends in the labels of `env`, innermost on top, over the current frame at `fi`. */
  ghost predicate Placed(below: Stk, fi: nat, env: Env) {
    && fi < |below| && below[fi].OFrame?
    && (forall i :: fi < i < |below| ==> !below[i].OFrame?)
    && |env.arities| > 0
    && below[|below| - 1].OLabel?
    && (forall k: nat :: k < |env.arities| ==> LabelFits(below, fi, env, k))
  }

  ghost predicate Shape(below: Stk, fi: nat, env: Env, locals: seq<Val>) {
    Placed(below, fi, env) && below[fi] == Frame(env, locals)
  }

  function SetFrame(below: Stk, fi: nat, env: Env, locals: seq<Val>): Stk
    requires fi < |below|
  {
    below[fi := Frame(env, locals)]
  }

  /** What the machine's run must be, given the outcome of the structured evaluation. */
  ghost predicate Agrees(r: Run, o: Outcome, below: Stk, fi: nat, env: Env, S: Store)
    requires Placed(below, fi, env)
  {
    var cap := CAPACITY;
    match o
    case Normal(vs, locals, S', fuel) =>
      && S'.funcs == S.funcs && |below| + |vs| <= cap
      && r == Exec(fuel, AfterLabel(below[|below| - 1]), fi,
                   SetFrame(below, fi, env, locals)[..|below| - 1] + OVals(vs), S')
    case Branch(k, vs, locals, S', fuel) =>
      && k < |env.arities| && |vs| == env.arities[|env.arities| - 1 - k]
      && LabelFits(below, fi, env, k)
      && var p := LabelAt(below, k).value;
      && S'.funcs == S.funcs && p + |vs| < cap
      && r == Exec(fuel, Target(below[p]), fi, SetFrame(below, fi, env, locals)[..p] + OVals(vs), S')
    case Returned(vs, S', fuel) =>
      && S'.funcs == S.funcs && |vs| == env.ret && fi + |vs| < cap
      && r.Done? && r.store == S' && r.fuel == fuel
      && CanPop(r.stk, |vs|) && Top(r.stk, |vs|) == vs
      && var d := DropToFrame(Below(r.stk, |vs|)); |d| == fi + 1 && d[..fi] == below[..fi]
    case Trap(e, S') => r == Trapped(e, S')
    case NoFuel => r == OutOfFuel
    case OutcomeUB => r == RunUB
    case Wedged => true
  }

  // ---------------------------------------------------------------- one step of the machine

  /** The machine's run after one step, `Exec` unfolded once. */
  function ExecAfter(fuel: nat, step: Step, next: Code, fi: nat, S: Store): Run {
    match step
    case Fails => Stuck
    case Throws(e) => Trapped(e, S)
    case StepUB => RunUB
    case Next(ip, s, S') => Exec(fuel, ip, fi, s, S')
    case Invokes(addr, s) => AfterCall(Invoke(fuel, addr, s, S), next, fi)
  }

  function AfterCall(r: Run, next: Code, fi: nat): Run {
    if r.Done? then Exec(r.fuel, next, fi, r.stk, r.store) else r
  }

  lemma ExecUnfold(fuel: nat, ip: Code, fi: nat, s: Stk, S: Store)
    requires ip.Cons?
    ensures Exec(fuel, ip, fi, s, S) ==
            if fuel == 0 then OutOfFuel else ExecAfter(fuel - 1, StepInstr(ip, fi, s, S), ip.next, fi, S)
  {
  }

  lemma ExecStops(fuel: nat, fi: nat, s: Stk, S: Store)
    ensures Exec(fuel, Nil, fi, s, S) == Done(s, S, fuel)
  {
  }

  lemma EvalUnfold(fuel: nat, code: Code, env: Env, vals: seq<Val>, locals: seq<Val>, S: Store, h: nat)
    requires code.Cons?
    ensures Eval(fuel, code, env, vals, locals, S, h) ==
            if fuel == 0 then NoFuel else EvalInstr(fuel - 1, code, env, vals, locals, S, h)
  {
  }

  // ---------------------------------------------------------------- shapes

  lemma FitsAfterUpdate(below: Stk, fi: nat, env: Env, k: nat, frame: Obj)
    requires k < |env.arities| && LabelFits(below, fi, env, k)
    requires fi < |below| && below[fi].OFrame? && frame.OFrame?
    ensures LabelFits(below[fi := frame], fi, env, k)
    ensures LabelAt(below[fi := frame], k) == LabelAt(below, k)
  {
    hide LabelAt, GoodLabel;
    LabelAtUpdate(below, fi, frame, k);
  }

  lemma ShapeSetFrame(below: Stk, fi: nat, env: Env, locals: seq<Val>, locals': seq<Val>)
    requires Shape(below, fi, env, locals)
    ensures Shape(SetFrame(below, fi, env, locals'), fi, env, locals')
  {
    hide LabelFits;
    var b := SetFrame(below, fi, env, locals');
    forall k: nat | k < |env.arities|
      ensures LabelFits(b, fi, env, k)
    {
      assert LabelFits(below, fi, env, k);
      FitsAfterUpdate(below, fi, env, k, Frame(env, locals'));
    }
  }

  /** Agreement does not depend on the locals the frame held at the start. */
  lemma AgreesFromUpdated(r: Run, o: Outcome, below: Stk, fi: nat, env: Env, S: Store, S0: Store,
                          locals: seq<Val>, locals': seq<Val>)
    requires Shape(below, fi, env, locals) && S.funcs == S0.funcs
    requires Shape(SetFrame(below, fi, env, locals'), fi, env, locals')
    requires Agrees(r, o, SetFrame(below, fi, env, locals'), fi, env, S)
    ensures Agrees(r, o, below, fi, env, S0)
  {
    hide Exec, Invoke, LabelAt, GoodLabel, Target;
    var b' := SetFrame(below, fi, env, locals');
    if o.Normal? {
      assert SetFrame(b', fi, env, o.locals) == SetFrame(below, fi, env, o.locals);
    } else if o.Branch? {
      assert SetFrame(b', fi, env, o.locals) == SetFrame(below, fi, env, o.locals);
      LabelAtUpdate(below, fi, Frame(env, locals'), o.k);
      assert LabelFits(below, fi, env, o.k);
    } else if o.Returned? {
      assert b'[..fi] == below[..fi];
    }
  }

  function Inner(env: Env, arity: nat): Env { env.(arities := env.arities + [arity]) }

  /** Entering a block adds one label and keeps the others, one index further out. */
  lemma InnerLabel(below: Stk, rest: seq<Val>, l: Obj, k: nat)
    requires l.OLabel?
    ensures var b := below + OVals(rest) + [l];
            LabelAt(b, k) == if k == 0 then Some(|below| + |rest|) else LabelAt(below, k - 1)
  {
    hide LabelAt;
    LabelAtSnoc(below + OVals(rest), l, k);
    if k > 0 {
      LabelAtVals(below, rest, k - 1);
    }
  }

  lemma ShapeInner(below: Stk, fi: nat, env: Env, locals: seq<Val>, rest: seq<Val>, l: Obj)
    requires Shape(below, fi, env, locals) && l.OLabel? && GoodLabel(l)
    ensures Shape(below + OVals(rest) + [l], fi, Inner(env, l.arity), locals)
  {
    hide LabelAt, GoodLabel;
    var b, e := below + OVals(rest) + [l], Inner(env, l.arity);
    assert b[fi] == below[fi];
    forall k: nat | k < |e.arities|
      ensures LabelFits(b, fi, e, k)
    {
      InnerLabel(below, rest, l, k);
      if k > 0 {
        assert LabelFits(below, fi, env, k - 1);
        assert b[LabelAt(below, k - 1).value] == below[LabelAt(below, k - 1).value];
      }
    }
  }

  // ---------------------------------------------------------------- branches

  /** Branch unwinding: `br k` leaves the stack below the k-th innermost label followed by
      the top `arity` values in their old order, and continues at that label's target. */
  lemma BrUnwinds(k: nat, ip: Code, below: Stk, vals: seq<Val>, S: Store)
    requires ip.Cons? && LabelAt(below, k).Some?
    requires forall i :: LabelAt(below, k).value < i < |below| ==> !below[i].OFrame?
    requires GoodLabel(below[LabelAt(below, k).value]) && below[LabelAt(below, k).value].arity <= |vals|
    ensures var p := LabelAt(below, k).value;
            StepBr(k, ip, below + OVals(vals), S)
            == Next(Target(below[p]), below[..p] + OVals(Take(vals, below[p].arity)), S)
  {
    hide LabelAt, Unwind;
    var s := below + OVals(vals);
    LabelAtVals(below, vals, k);
    var p := LabelAt(below, k).value;
    var l := below[p];
    assert s[p] == l;
    PopOf(below, vals, l.arity);
    var rest := Drop'(vals, l.arity);
    var s' := below + OVals(rest);
    LabelAtVals(below, rest, k);
    UnwindTo(s', k);
    assert s'[..p] == below[..p] && s'[p] == l;
  }

  /** br: the machine's label lookup and unwinding land where the outcome says. */
  lemma SimBr(fuel: nat, k: nat, ip: Code, fi: nat, below: Stk, env: Env, vals: seq<Val>, locals: seq<Val>, S: Store)
    requires ip.Cons? && Shape(below, fi, env, locals) && |below| + |vals| <= CAPACITY
    requires EvalBr(fuel, k, env, vals, locals, S).Branch?
    ensures Agrees(ExecAfter(fuel, StepBr(k, ip, below + OVals(vals), S), ip.next, fi, S),
                   EvalBr(fuel, k, env, vals, locals, S), below, fi, env, S)
  {
    hide Exec, Invoke, StepBr, LabelAt;
    assert LabelFits(below, fi, env, k);
    BrUnwinds(k, ip, below, vals, S);
    assert SetFrame(below, fi, env, locals) == below;
  }

  // ---------------------------------------------------------------- calls

  /** `Invoke` on a stack with the arguments on top: base ++ args becomes base ++ results. */
  ghost predicate CallAgrees(r: Run, o: Outcome, base: Stk, S: Store) {
    match o
    case Returned(rs, S', fuel) =>
      r == Done(base + OVals(rs), S', fuel) && S'.funcs == S.funcs && |base| + |rs| <= CAPACITY
    case Trap(e, S') => r == Trapped(e, S')
    case NoFuel => r == OutOfFuel
    case OutcomeUB => r == RunUB
    case _ => true
  }

  /** Leaving the activation with the results directly above its frame. */
  lemma LeaveExact(base: Stk, frame: Obj, vs: seq<Val>, S: Store, fuel: nat)
    requires frame.OFrame? && |base| + |vs| <= CAPACITY
    ensures LeaveFrame(|vs|, base + [frame] + OVals(vs), S, fuel) == Done(base + OVals(vs), S, fuel)
  {
    hide Exec, Invoke, Eval, EvalInstr, StepInstr, StepPlain, PlainEffect, Perform;
    PopOf(base + [frame], vs, |vs|);
    assert Drop'(vs, |vs|) == [];
    assert base + [frame] + OVals([]) == base + [frame];
    assert (base + [frame])[..|base|] == base;
  }

  function CallEnv(f: FuncInst): Env { Env(f.inst, [|f.ftype.rt2|], |f.ftype.rt2|) }

  /** The stack `invoke_func` enters a body with. */
  function Activation(base: Stk, env: Env, locals: seq<Val>): Stk {
    base + [Frame(env, locals)] + [OLabel(env.ret, Nil, END_CODE)]
  }

  lemma ActivationShape(base: Stk, env: Env, locals: seq<Val>)
    requires env.arities == [env.ret]
    ensures Shape(Activation(base, env, locals), |base|, env, locals)
    ensures LabelAt(Activation(base, env, locals), 0) == Some(|base| + 1)
  {
    LabelAtSnoc(base + [Frame(env, locals)], OLabel(env.ret, Nil, END_CODE), 0);
    var below := Activation(base, env, locals);
    assert LabelFits(below, |base|, env, 0);
  }

  lemma SimCall(fuel: nat, addr: U32, base: Stk, args: seq<Val>, S: Store)
    requires WellFormedStore(S) && addr < |S.funcs| && |args| == |S.funcs[addr].ftype.rt1|
    requires |base| + |args| <= CAPACITY
    ensures CallAgrees(Invoke(fuel, addr, base + OVals(args), S), EvalCall(fuel, addr, args, S, |base|), base, S)
    decreases fuel, 1
  {
    hide Exec, Eval, LabelAt, LeaveFrame, Shape;
    var f := S.funcs[addr];
    PopOf(base, args, |args|);
    assert Drop'(args, |args|) == [] && base + OVals([]) == base && Take(args, |args|) == args;
    if |base| + 2 <= CAPACITY && FrameSlots(args, f.code.locals).Some? {
      var env, locals := CallEnv(f), FrameSlots(args, f.code.locals).value;
      var below := Activation(base, env, locals);
      ActivationShape(base, env, locals);
      assert below + OVals([]) == below;
      Sim(fuel, f.code.body, false, |base|, below, env, [], locals, S);
      CallOutcome(Eval(fuel, f.code.body, env, [], locals, S, |below|), Exec(fuel, f.code.body, |base|, below, S),
                  base, env, locals, S);
    }
  }

  /** From agreement inside the body to the result of the call, for each way of leaving:
      at the end, by a branch to the outermost label, by a return. */
  lemma CallOutcome(o: Outcome, r: Run, base: Stk, env: Env, locals: seq<Val>, S: Store)
    requires env.arities == [env.ret] && Placed(Activation(base, env, locals), |base|, env)
    requires Agrees(r, o, Activation(base, env, locals), |base|, env, S)
    ensures (o.Normal? && |o.vals| == env.ret) || (o.Branch? && o.k == 0) || o.Returned? ==>
              && r.Done? && LeaveFrame(env.ret, r.stk, r.store, r.fuel) == Done(base + OVals(o.vals), o.store, o.fuel)
              && |base| + |o.vals| <= CAPACITY && o.store.funcs == S.funcs
    ensures o.Trap? ==> r == Trapped(o.err, o.store)
    ensures o.NoFuel? ==> r == OutOfFuel
    ensures o.OutcomeUB? ==> r == RunUB
  {
    hide Exec, Invoke, LabelAt;
    var below := Activation(base, env, locals);
    ActivationShape(base, env, locals);
    if o.Normal? || o.Branch? {
      assert SetFrame(below, |base|, env, o.locals)[..|base| + 1] == base + [Frame(env, o.locals)];
      var s := base + [Frame(env, o.locals)] + OVals(o.vals);
      ExecStops(o.fuel, |base|, s, o.store);
      if (o.Normal? && |o.vals| == env.ret) || (o.Branch? && o.k == 0) {
        LeaveExact(base, Frame(env, o.locals), o.vals, o.store, o.fuel);
      }
    } else if o.Returned? {
      LeaveReturned(base, env.ret, r.stk, o.vals, o.store, o.fuel);
      assert below[..|base|] == base;
    }
  }

  /** Leaving from inside nested blocks: labels and values above the frame are dropped. */
  lemma LeaveReturned(base: Stk, arity: nat, s: Stk, vs: seq<Val>, S: Store, fuel: nat)
    requires |vs| == arity && CanPop(s, arity) && Top(s, arity) == vs && |base| + arity < CAPACITY
    requires var d := DropToFrame(Below(s, arity)); |d| == |base| + 1
    ensures LeaveFrame(arity, s, S, fuel) == Done(DropToFrame(Below(s, arity))[..|base|] + OVals(vs), S, fuel)
  {
  }

  lemma SimCallThen(fuel: nat, addr: U32, code: Code, tb: bool, fi: nat, below: Stk, env: Env,
                    vals: seq<Val>, locals: seq<Val>, S: Store)
    requires WellFormedStore(S) && code.Cons? && WellFormed(code.next, tb)
    requires Shape(below, fi, env, locals) && |below| + |vals| <= CAPACITY
    requires !EvalCallThen(fuel, addr, code.next, env, vals, locals, S, |below|).Wedged?
    ensures Agrees(AfterCall(Invoke(fuel, addr, below + OVals(vals), S), code.next, fi),
                   EvalCallThen(fuel, addr, code.next, env, vals, locals, S, |below|), below, fi, env, S)
    decreases fuel, 2
  {
    hide Exec, Invoke, Eval, EvalCall, Shape, WellFormed;
    var n := |S.funcs[addr].ftype.rt1|;
    var args, rest := Take(vals, n), Drop'(vals, n);
    assert vals == rest + args;
    OValsConcat(rest, args);
    var base := below + OVals(rest);
    assert below + OVals(vals) == base + OVals(args);
    SimCall(fuel, addr, base, args, S);
    var o := EvalCall(fuel, addr, args, S, |base|);
    if o.Returned? {
      OValsConcat(rest, o.vals);
      assert base + OVals(o.vals) == below + OVals(rest + o.vals);
      SimResume(o.fuel, code.next, tb, fi, below, env, rest + o.vals, locals, locals, o.store, S);
      SameFrame(below, fi, env, locals);
    }
  }

  lemma SameFrame(below: Stk, fi: nat, env: Env, locals: seq<Val>)
    requires Shape(below, fi, env, locals)
    ensures Placed(below, fi, env) && SetFrame(below, fi, env, locals) == below
  {
  }

  // ---------------------------------------------------------------- blocks

  lemma SimBlock(fuel: nat, code: Code, tb: bool, body: Code, rt1: seq<ValType>, l: Obj, fi: nat, below: Stk, env: Env,
                 vals: seq<Val>, locals: seq<Val>, S: Store)
    requires WellFormedStore(S) && code.Cons?
    requires WellFormed(code, tb) && WellFormed(body, true) && WellFormed(code.next, tb)
    requires code.ins.Block? || code.ins.Loop? || code.ins.If?
    requires l.OLabel? && GoodLabel(l) && l.parent == code
    requires Shape(below, fi, env, locals) && |below| + |vals| < CAPACITY && |rt1| <= |vals|
    requires !EvalBlock(fuel, code, body, rt1, l.arity, env, vals, locals, S, |below|).Wedged?
    ensures Agrees(Exec(fuel, body, fi, below + OVals(Drop'(vals, |rt1|)) + [l] + OVals(Take(vals, |rt1|)), S),
                   EvalBlock(fuel, code, body, rt1, l.arity, env, vals, locals, S, |below|), below, fi, env, S)
    decreases fuel, 3
  {
    hide Exec, Eval, LabelAt, GoodLabel, WellFormed, Placed, Target, AfterLabel, LabelFits, Agrees;
    var rest, params := Drop'(vals, |rt1|), Take(vals, |rt1|);
    var below1 := below + OVals(rest) + [l];
    var inner := Inner(env, l.arity);
    ShapeInner(below, fi, env, locals, rest, l);
    Sim(fuel, body, true, fi, below1, inner, params, locals, S);
    var r := Exec(fuel, body, fi, below1 + OVals(params), S);
    var o := Eval(fuel, body, inner, params, locals, S, |below1|);
    if o.Normal? || (o.Branch? && o.k == 0) {
      var target := if o.Branch? && code.ins.Loop? then code else code.next;
      AfterBody(r, o, below, fi, env, rest, l, locals, S);
      SimResume(o.fuel, target, tb, fi, below, env, rest + o.vals, locals, o.locals, o.store, S);
    } else {
      PassOutward(r, o, below, fi, env, rest, l, locals, S);
    }
  }

  /** Leaving a block at its end or by a branch to it restores the outer stack. */
  lemma AfterBody(r: Run, o: Outcome, below: Stk, fi: nat, env: Env, rest: seq<Val>, l: Obj, locals: seq<Val>, S: Store)
    requires o.Normal? || (o.Branch? && o.k == 0)
    requires Shape(below, fi, env, locals) && l.OLabel? && GoodLabel(l) && l.parent.Cons?
    requires var below1 := below + OVals(rest) + [l];
             Placed(below1, fi, Inner(env, l.arity)) && Agrees(r, o, below1, fi, Inner(env, l.arity), S)
    ensures var target := if o.Branch? && l.parent.ins.Loop? then l.parent else l.parent.next;
            r == Exec(o.fuel, target, fi, SetFrame(below, fi, env, o.locals) + OVals(rest + o.vals), o.store)
    ensures |below| + |rest + o.vals| <= CAPACITY && o.store.funcs == S.funcs
  {
    hide Exec, LabelAt;
    OValsConcat(rest, o.vals);
    var below1, inner := below + OVals(rest) + [l], Inner(env, l.arity);
    var s := SetFrame(below1, fi, inner, o.locals);
    assert s[..|below1| - 1] == SetFrame(below, fi, env, o.locals) + OVals(rest);
    assert s[..|below1| - 1] + OVals(o.vals) == SetFrame(below, fi, env, o.locals) + OVals(rest + o.vals);
    if o.Branch? {
      InnerLabel(below, rest, l, 0);
    }
  }

  /** Outcomes that leave a block for an outer one, renumbered. */
  lemma PassOutward(r: Run, o: Outcome, below: Stk, fi: nat, env: Env, rest: seq<Val>, l: Obj, locals: seq<Val>, S: Store)
    requires !o.Normal? && (o.Branch? ==> o.k > 0)
    requires Shape(below, fi, env, locals) && l.OLabel? && GoodLabel(l)
    requires var below1 := below + OVals(rest) + [l];
             Placed(below1, fi, Inner(env, l.arity)) && Agrees(r, o, below1, fi, Inner(env, l.arity), S)
    ensures var o' := if o.Branch? then Branch(o.k - 1, o.vals, o.locals, o.store, o.fuel) else o;
            Agrees(r, o', below, fi, env, S)
  {
    hide Exec, LabelAt, GoodLabel, Target;
    var below1, inner := below + OVals(rest) + [l], Inner(env, l.arity);
    if o.Branch? {
      InnerLabel(below, rest, l, o.k);
      var p := LabelAt(below, o.k - 1).value;
      assert LabelFits(below, fi, env, o.k - 1);
      assert below1[p] == below[p];
      assert SetFrame(below1, fi, inner, o.locals)[..p] == SetFrame(below, fi, env, o.locals)[..p];
    } else if o.Returned? {
      assert below1[..fi] == below[..fi];
    }
  }

  /** Carrying on in the same list after the locals changed. */
  lemma SimResume(fuel: nat, code: Code, tb: bool, fi: nat, below: Stk, env: Env, vals: seq<Val>,
                  locals0: seq<Val>, locals: seq<Val>, S: Store, S0: Store)
    requires WellFormedStore(S0) && S.funcs == S0.funcs && WellFormed(code, tb)
    requires Shape(below, fi, env, locals0) && |below| + |vals| <= CAPACITY
    ensures Agrees(Exec(fuel, code, fi, SetFrame(below, fi, env, locals) + OVals(vals), S),
                   Eval(fuel, code, env, vals, locals, S, |below|), below, fi, env, S0)
    decreases fuel, 1
  {
    hide Exec, Eval, WellFormed, LabelFits;
    ShapeSetFrame(below, fi, env, locals0, locals);
    var below' := SetFrame(below, fi, env, locals);
    Sim(fuel, code, tb, fi, below', env, vals, locals, S);
    AgreesFromUpdated(Exec(fuel, code, fi, below' + OVals(vals), S), Eval(fuel, code, env, vals, locals, S, |below|),
                      below, fi, env, S, S0, locals0, locals);
  }

  // ---------------------------------------------------------------- the simulation

  /** Main theorem on instruction lists: the machine's run agrees with the evaluation. */
  lemma Sim(fuel: nat, code: Code, tb: bool, fi: nat, below: Stk, env: Env, vals: seq<Val>, locals: seq<Val>, S: Store)
    requires WellFormedStore(S) && WellFormed(code, tb)
    requires Shape(below, fi, env, locals) && |below| + |vals| <= CAPACITY
    ensures Agrees(Exec(fuel, code, fi, below + OVals(vals), S),
                   Eval(fuel, code, env, vals, locals, S, |below|), below, fi, env, S)
    decreases fuel, 0
  {
    hide Exec, Invoke, Eval, EvalInstr, StepInstr, Shape, WellFormedStore, LabelFits;
    SameFrame(below, fi, env, locals);
    ExecUnfold(fuel, code, fi, below + OVals(vals), S);
    EvalUnfold(fuel, code, env, vals, locals, S, |below|);
    if fuel > 0 && !EvalInstr(fuel - 1, code, env, vals, locals, S, |below|).Wedged? {
      SimInstr(fuel - 1, code, tb, fi, below, env, vals, locals, S);
    }
  }

  lemma SimInstr(fuel: nat, code: Code, tb: bool, fi: nat, below: Stk, env: Env, vals: seq<Val>, locals: seq<Val>, S: Store)
    requires WellFormedStore(S) && WellFormed(code, tb)
    requires Shape(below, fi, env, locals) && |below| + |vals| <= CAPACITY
    requires !EvalInstr(fuel, code, env, vals, locals, S, |below|).Wedged?
    ensures Agrees(ExecAfter(fuel, StepInstr(code, fi, below + OVals(vals), S), code.next, fi, S),
                   EvalInstr(fuel, code, env, vals, locals, S, |below|), below, fi, env, S)
    decreases fuel, 6
  {
    hide Exec, Invoke, Eval, EvalBlock, EvalCallThen, PlainEffect, StepPlain, StepBlock, StepLoop, StepIf, StepBr, StepEnd,
         StepCallIndirect, LabelFits;
    SameFrame(below, fi, env, locals);
    match code.ins {
      case Unreachable =>
      case Nop => SimResume(fuel, code.next, tb, fi, below, env, vals, locals, locals, S, S);
      case Else => SimEnd(fuel, code.next, fi, below, env, vals, locals, S);
      case End => SimEnd(fuel, code.next, fi, below, env, vals, locals, S);
      case Block(_, _, _) => SimEnter(fuel, code, tb, fi, below, env, vals, locals, S);
      case Loop(_, _, _) => SimEnter(fuel, code, tb, fi, below, env, vals, locals, S);
      case If(_, _, _) => SimEnter(fuel, code, tb, fi, below, env, vals, locals, S);
      case Br(k) => SimBr(fuel, k, code, fi, below, env, vals, locals, S);
      case BrIf(k) =>
        PopOf(below, vals, 1);
        if AsI32(Take(vals, 1)[0]) == 0 {
          SimResume(fuel, code.next, tb, fi, below, env, Drop'(vals, 1), locals, locals, S, S);
        } else {
          SimBr(fuel, k, code, fi, below, env, Drop'(vals, 1), locals, S);
        }
      case BrTable(ls, d) =>
        PopOf(below, vals, 1);
        SimBr(fuel, TableTarget(ls, d, AsI32(Take(vals, 1)[0])), code, fi, below, env, Drop'(vals, 1), locals, S);
      case Return => SimReturn(fuel, fi, below, env, vals, locals, S);
      case Call(x) => SimCallThen(fuel, env.inst.funcaddrs[x], code, tb, fi, below, env, vals, locals, S);
      case CallIndirect(y, x) => SimCallIndirect(fuel, code, tb, fi, below, env, vals, locals, S);
      case Plain(op) => SimPlain(fuel, code, tb, fi, below, env, vals, locals, S);
    }
  }

  lemma SimEnd(fuel: nat, next: Code, fi: nat, below: Stk, env: Env, vals: seq<Val>, locals: seq<Val>, S: Store)
    requires Shape(below, fi, env, locals) && |below| + |vals| <= CAPACITY
    ensures Agrees(ExecAfter(fuel, StepEnd(below + OVals(vals), S), next, fi, S),
                   Normal(vals, locals, S, fuel), below, fi, env, S)
  {
    hide Exec, Invoke, LabelFits, TopVals;
    SameFrame(below, fi, env, locals);
    TopValsOf(below, vals);
    PopOf(below, vals, |vals|);
    assert Drop'(vals, |vals|) == [] && below + OVals([]) == below && Take(vals, |vals|) == vals;
  }

  lemma SimReturn(fuel: nat, fi: nat, below: Stk, env: Env, vals: seq<Val>, locals: seq<Val>, S: Store)
    requires |vals| >= env.ret
    requires Shape(below, fi, env, locals) && |below| + |vals| <= CAPACITY
    ensures Agrees(ExecAfter(fuel, Next(Nil, below + OVals(vals), S), Nil, fi, S),
                   Returned(Take(vals, env.ret), S, fuel), below, fi, env, S)
  {
    hide Exec, Invoke, LabelFits;
    PopOf(below, vals, env.ret);
    var s := below + OVals(Drop'(vals, env.ret));
    assert s[fi] == below[fi];
    DropToFrameAt(s, fi);
    assert s[..fi + 1][..fi] == below[..fi];
    ExecStops(fuel, fi, below + OVals(vals), S);
  }

  lemma SimEnter(fuel: nat, code: Code, tb: bool, fi: nat, below: Stk, env: Env, vals: seq<Val>, locals: seq<Val>, S: Store)
    requires WellFormedStore(S) && WellFormed(code, tb)
    requires code.ins.Block? || code.ins.Loop? || code.ins.If?
    requires Shape(below, fi, env, locals) && |below| + |vals| <= CAPACITY
    requires !EvalInstr(fuel, code, env, vals, locals, S, |below|).Wedged?
    ensures Agrees(ExecAfter(fuel, StepInstr(code, fi, below + OVals(vals), S), code.next, fi, S),
                   EvalInstr(fuel, code, env, vals, locals, S, |below|), below, fi, env, S)
    decreases fuel, 4
  {
    hide Exec, Invoke, Eval, LabelFits, Expand, EvalCallThen, PlainEffect;
    SameFrame(below, fi, env, locals);
    assert (below + OVals(vals))[fi] == Frame(env, locals);
    var ft := Expand(code.ins.bt, env.inst).value;
    var n := |ft.rt1|;
    var operands := if code.ins.If? then Drop'(vals, 1) else vals;
    if code.ins.If? {
      PopOf(below, vals, 1);
    }
    PopOf(below, operands, n);
    var arity := if code.ins.Loop? then n else |ft.rt2|;
    var l := OLabel(arity, code, if code.ins.Loop? then code else END_CODE);
    var body := if code.ins.If? then Taken(code.ins.in1, code.ins.in2, Take(vals, 1)[0]) else code.ins.in1;
    if |below| + |operands| < CAPACITY {
      BodyWellFormed(body, code, tb);
      SimBlock(fuel, code, tb, body, ft.rt1, l, fi, below, env, operands, locals, S);
    }
  }

  lemma {:induction false} WellFormedWeaken(code: Code)
    requires WellFormed(code, false)
    ensures WellFormed(code, true)
    decreases code
  {
    if code.next.Cons? {
      WellFormedWeaken(code.next);
    }
  }

  lemma BodyWellFormed(body: Code, code: Code, tb: bool)
    requires WellFormed(code, tb) && (code.ins.Block? || code.ins.Loop? || code.ins.If?)
    requires body == code.ins.in1 || (code.ins.If? && (body == END_CODE || (body == code.ins.in2 && body.Cons?)))
    ensures WellFormed(body, true) && WellFormed(code.next, tb)
  {
    if body != code.ins.in1 && body != END_CODE {
      WellFormedWeaken(body);
    }
  }

  lemma SimCallIndirect(fuel: nat, code: Code, tb: bool, fi: nat, below: Stk, env: Env, vals: seq<Val>, locals: seq<Val>, S: Store)
    requires WellFormedStore(S) && WellFormed(code, tb) && code.ins.CallIndirect?
    requires Shape(below, fi, env, locals) && |below| + |vals| <= CAPACITY
    requires !EvalInstr(fuel, code, env, vals, locals, S, |below|).Wedged?
    ensures Agrees(ExecAfter(fuel, StepCallIndirect(code.ins.y, code.ins.x, below + OVals(vals), S, env.inst), code.next, fi, S),
                   EvalInstr(fuel, code, env, vals, locals, S, |below|), below, fi, env, S)
    decreases fuel, 4
  {
    hide Exec, Invoke, Eval, LabelFits, EvalBlock, EvalCallThen, PlainEffect;
    SameFrame(below, fi, env, locals);
    PopOf(below, vals, 1);
    var y, x := code.ins.y, code.ins.x;
    var r := ResolveIndirect(y, x, Take(vals, 1)[0], S, env.inst);
    var elems := S.tables[env.inst.tableaddrs[x]].elems;
    var i := AsI32(Take(vals, 1)[0]);
    if 0 <= i < |elems| && elems[i] < |S.funcs| {
      SameTypesIsEquality(env.inst.types[y], S.funcs[elems[i]].ftype);
    }
    if r.value.Ok? {
      SimCallThen(fuel, r.value.value, code, tb, fi, below, env, Drop'(vals, 1), locals, S);
    }
  }

  lemma PerformKeepsFuncs(op: Plain, args: seq<Val>, locals: seq<Val>, S: Store, m: ModInst)
    requires |args| == Pops(op)
    ensures var e := Perform(op, args, locals, S, m);
            e.Did? ==> e.store.funcs == S.funcs && e.store.num == S.num && |e.results| <= Pushes(op)
  {
  }

  lemma SimPlain(fuel: nat, code: Code, tb: bool, fi: nat, below: Stk, env: Env, vals: seq<Val>, locals: seq<Val>, S: Store)
    requires WellFormedStore(S) && WellFormed(code, tb) && code.ins.Plain?
    requires Shape(below, fi, env, locals) && |below| + |vals| <= CAPACITY
    requires !EvalInstr(fuel, code, env, vals, locals, S, |below|).Wedged?
    ensures Agrees(ExecAfter(fuel, StepPlain(code.ins.op, code.next, fi, below + OVals(vals), S), code.next, fi, S),
                   EvalInstr(fuel, code, env, vals, locals, S, |below|), below, fi, env, S)
    decreases fuel, 4
  {
    hide Exec, Invoke, Eval, LabelFits, EvalBlock, EvalCallThen, Perform;
    SameFrame(below, fi, env, locals);
    var op := code.ins.op;
    var n := Pops(op);
    PopOf(below, vals, n);
    var rest := Drop'(vals, n);
    var s1 := below + OVals(rest);
    assert s1[fi] == below[fi] && (below + OVals(vals))[fi] == below[fi];
    if |s1| + Pushes(op) <= CAPACITY {
      PerformKeepsFuncs(op, Take(vals, n), locals, S, env.inst);
      var e := Perform(op, Take(vals, n), locals, S, env.inst);
      if e.Did? {
        OValsConcat(rest, e.results);
        assert s1[fi := Frame(env, e.locals)] + OVals(e.results)
            == SetFrame(below, fi, env, e.locals) + OVals(rest + e.results);
        SimResume(fuel, code.next, tb, fi, below, env, rest + e.results, locals, e.locals, e.store, S);
      }
    }
  }
}
