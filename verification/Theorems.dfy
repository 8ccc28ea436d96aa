/** The results about whole programs, from the simulation and from soundness. */
module Theorems {
  import opened Syntax
  import opened Runtime
  import opened Machine
  import opened Semantics
  import opened Typing
  import opened Invariants
  import opened Simulation
  import opened Soundness

  lemma BodiesWellFormed(strict: bool, S: Store)
    requires StoreOk(strict, S)
    ensures WellFormedStore(S)
  {
    forall i | 0 <= i < |S.funcs| ensures WellFormed(S.funcs[i].code.body, false) {
      assert FuncOk(strict, S, S.funcs[i]);
    }
  }

  /** What `Invoke` may do on `base` with arguments on top. */
  ghost predicate CallResult(strict: bool, r: Run, ft: FuncType, base: Stk, S: Store) {
    match r
    case Done(s, S', _) =>
      && |s| == |base| + |ft.rt2| <= CAPACITY && s[..|base|] == base
      && AllVals(s[|base|..]) && Matches(strict, |S.funcs|, ValsOf(s[|base|..]), ft.rt2)
      && Extends(S, S') && StoreOk(strict, S')
    case Trapped(_, S') => Extends(S, S') && StoreOk(strict, S')
    case OutOfFuel => true
    case RunUB => true
    case Stuck => false
  }

  /** Safety and call contract. Calling an accepted function with arguments of its parameter
      types never gets stuck, for any fuel: no pop meets the wrong kind of entry, no branch
      looks for a missing label, no instance is missing. A call that returns replaces the
      arguments by results of the result types, in order, and leaves every entry of `base`,
      hence every label and frame below, as it was; the store stays acceptable, also when the
      call traps. Outcomes where the C program's behaviour is undefined are told apart. */
  lemma CallContract(strict: bool, fuel: nat, addr: U32, base: Stk, args: seq<Val>, S: Store)
    requires StoreOk(strict, S) && addr < |S.funcs| && Matches(strict, |S.funcs|, args, S.funcs[addr].ftype.rt1)
    requires |base| + |args| <= CAPACITY
    ensures CallResult(strict, Invoke(fuel, addr, base + OVals(args), S), S.funcs[addr].ftype, base, S)
  {
    hide Invoke, EvalCall, CodeOk, DataOk, Extends, WellFormedStore;
    BodiesWellFormed(strict, S);
    SimCall(fuel, addr, base, args, S);
    SoundCall(strict, fuel, addr, args, S, |base|);
    var o := EvalCall(fuel, addr, args, S, |base|);
    if o.Trap? {
      CodeOkExtends(strict, S, o.store);
    }
    if o.Returned? {
      CodeOkExtends(strict, S, o.store);
      var s := base + OVals(o.vals);
      assert s[|base|..] == OVals(o.vals);
      assert ValsOf(OVals(o.vals)) == o.vals;
    }
  }

  /** Simulation. For accepted functions the machine computes the structured semantics: same
      results, same store, same trap, same remaining fuel. */
  lemma CallIsStructured(strict: bool, fuel: nat, addr: U32, base: Stk, args: seq<Val>, S: Store)
    requires StoreOk(strict, S) && addr < |S.funcs| && Matches(strict, |S.funcs|, args, S.funcs[addr].ftype.rt1)
    requires |base| + |args| <= CAPACITY
    ensures Invoke(fuel, addr, base + OVals(args), S) ==
            (match EvalCall(fuel, addr, args, S, |base|)
             case Returned(results, S', fuel') => Done(base + OVals(results), S', fuel')
             case Trap(e, S') => Trapped(e, S')
             case NoFuel => OutOfFuel
             case OutcomeUB => RunUB
             case _ => Stuck)
  {
    hide Invoke, EvalCall, CodeOk, DataOk, Extends, WellFormedStore;
    BodiesWellFormed(strict, S);
    SimCall(fuel, addr, base, args, S);
    SoundCall(strict, fuel, addr, args, S, |base|);
  }

  // ---------------------------------------------------------------- runs of calls

  /** A host that calls functions one after the other on one store; arguments that are not of
      the parameter types are refused, as by `invoke`. `base` is what earlier calls that
      trapped have left on the stack. */
  datatype HostCall = HostCall(fuel: nat, addr: U32, args: seq<Val>, base: Stk)

  /** Where the calls lead: the host is back with a store, a call runs on or reaches undefined
      behaviour of the C program, or a call got stuck. */
  datatype HostRun = Idle(store: Store) | Endless | HostUB | Broken

  ghost predicate Refused(c: HostCall, S: Store) {
    || c.addr >= |S.funcs| || !Matches(true, |S.funcs|, c.args, S.funcs[c.addr].ftype.rt1)
    || |c.base| + |c.args| > CAPACITY
  }

  ghost function RunCalls(calls: seq<HostCall>, S: Store): HostRun
    decreases |calls|
  {
    if calls == [] then Idle(S) else
    var c := calls[0];
    if Refused(c, S) then RunCalls(calls[1..], S)
    else
      match Invoke(c.fuel, c.addr, c.base + OVals(c.args), S)
      case Done(_, S', _) => RunCalls(calls[1..], S')
      case Trapped(_, S') => RunCalls(calls[1..], S')
      case OutOfFuel => Endless
      case RunUB => HostUB
      case Stuck => Broken
  }

  /** Over every run of calls, through traps, none gets stuck and the store stays acceptable,
      so each next call is safe again. */
  lemma {:induction false} RunsStaySafe(calls: seq<HostCall>, S: Store)
    requires StoreOk(true, S)
    ensures var r := RunCalls(calls, S); !r.Broken? && (r.Idle? ==> StoreOk(true, r.store) && Extends(S, r.store))
    decreases |calls|
  {
    hide Invoke, StoreOk, Matches;
    if calls == [] {
      ExtendsItself(S);
    } else {
      var c := calls[0];
      if !Refused(c, S) {
        CallContract(true, c.fuel, c.addr, c.base, c.args, S);
        var r := Invoke(c.fuel, c.addr, c.base + OVals(c.args), S);
        if r.Done? || r.Trapped? {
          RunsStaySafe(calls[1..], r.store);
        }
      } else {
        RunsStaySafe(calls[1..], S);
      }
    }
  }

  /** A global that the module's types declare immutable keeps its value over every run of
      calls, whatever the calls execute and whether they return or trap. */
  lemma ImmutableGlobals(calls: seq<HostCall>, S: Store, m: ModInst, C: Context, x: nat)
    requires StoreOk(true, S) && Linked(S, m, C) && x < |C.globals| && !C.globals[x].mutable
    ensures var r := RunCalls(calls, S);
            r.Idle? ==> |r.store.globals| == |S.globals| && r.store.globals[m.globaladdrs[x]] == S.globals[m.globaladdrs[x]]
  {
    hide StoreOk, RunCalls;
    RunsStaySafe(calls, S);
  }

  lemma ExtendsItself(S: Store)
    ensures Extends(S, S)
  {
  }
}
