/** Calling an exported function from outside: `invoke`. */
module Host {
  import opened Syntax
  import opened Runtime
  import opened Machine
  import opened Semantics
  import opened Typing
  import opened Invariants
  import opened StackClass
  import opened Interpreter
  import opened Soundness
  import Simulation
  import Theorems

  /** The argument types name the parameters, and references are ones the store handed out. */
  ghost predicate Passable(S: Store, args: seq<Val>) {
    forall i :: 0 <= i < |args| ==> args[i].tag == FUNCREF ==> RefOk(|S.funcs|, AsU32(args[i]))
  }

  predicate TypesAgree(args: seq<Val>, types: seq<ValType>) {
    |args| == |types| && forall i :: 0 <= i < |args| ==> args[i].tag == types[i]
  }

  method CheckTypes(args: seq<Val>, types: seq<ValType>) returns (ok: bool)
    ensures ok == TypesAgree(args, types)
  {
    if |args| != |types| {
      return false;
    }
    for i := 0 to |args|
      invariant forall j :: 0 <= j < i ==> args[j].tag == types[j]
    {
      if args[i].tag != types[i] {
        return false;
      }
    }
    return true;
  }

  /** On a store of accepted functions a call ends as the structured semantics says, returns
      results of the result types, and leaves the stack as it found it; a call that does not
      fit is refused and changes nothing. No state makes it touch a wrong entry. */
  method Invoke(p: Interpreter, addr: U32, args: seq<Val>, fuel: nat) returns (status: Status, results: seq<Val>)
    requires p.Valid() && StoreOk(true, p.store) && Passable(p.store, args)
    modifies p`store, p.stack.Repr(), p.stack.pool
    ensures p.Valid()
    ensures var S, s := old(p.store), old(p.stack.view);
            if addr >= |S.funcs| || !TypesAgree(args, S.funcs[addr].ftype.rt1) then
              status == Raised(Failed) && p.stack.view == s && p.store == S
            else if |s| + |args| > CAPACITY then
              status == Raised(TrapCallStackExhausted) && p.store == S
            else
              var o := EvalCall(fuel, addr, args, S, |s|);
              && (status == Finished <==> o.Returned?)
              && (status == FuelOut <==> o.NoFuel?)
              && (status.Raised? <==> o.Trap?)
              && (status == StatusUB <==> o.OutcomeUB?)
              && (o.Trap? ==> status.err == o.err && p.store == o.store && StoreOk(true, p.store))
              && (o.Returned? ==>
                    && results == o.vals && p.store == o.store && p.stack.view == s
                    && Matches(true, |S.funcs|, results, S.funcs[addr].ftype.rt2)
                    && StoreOk(true, p.store))
  {
    hide Stack.Valid, EvalCall, Machine.Invoke, StoreOk, CanPop, Top;
    results := [];
    if addr >= |p.store.funcs| {
      return Raised(Failed), [];
    }
    var ft := p.store.funcs[addr].ftype;
    var fits := CheckTypes(args, ft.rt1);
    if !fits {
      return Raised(Failed), [];
    }
    ghost var S, base := p.store, p.stack.view;
    var ok := PushArgs(p.stack, args);
    if !ok {
      return Raised(TrapCallStackExhausted), [];
    }
    assert Matches(true, |S.funcs|, args, ft.rt1);
    Theorems.CallIsStructured(true, fuel, addr, base, args, S);
    Theorems.CallContract(true, fuel, addr, base, args, S);
    SoundCall(true, fuel, addr, args, S, |base|);
    ghost var o := EvalCall(fuel, addr, args, S, |base|);
    var left;
    status, left := p.InvokeFunc(addr, fuel);
    if status != Finished {
      return;
    }
    results := PopResults(p.stack, base, o.vals, |ft.rt2|);
  }

  /** Pushes the arguments, first argument first. */
  method PushArgs(stack: Stack, args: seq<Val>) returns (ok: bool)
    requires stack.Valid()
    modifies stack`idx, stack`view, stack.pool`data
    ensures stack.Valid()
    ensures ok <==> |old(stack.view)| + |args| <= CAPACITY
    ensures ok ==> stack.view == old(stack.view) + OVals(args)
  {
    hide Stack.Valid;
    for i := 0 to |args|
      invariant stack.Valid() && stack.view == old(stack.view) + OVals(args[..i])
    {
      var pushed := stack.PushVal(args[i]);
      if !pushed {
        return false;
      }
      assert OVals(args[..i + 1]) == OVals(args[..i]) + [OVal(args[i])];
    }
    assert args[..|args|] == args;
    ok := true;
  }

  /** Fills the result vector from its end. */
  method PopResults(stack: Stack, ghost base: Stk, ghost vs: seq<Val>, n: nat) returns (results: seq<Val>)
    requires stack.Valid() && |vs| == n && stack.view == base + OVals(vs)
    modifies stack`idx, stack`view
    ensures stack.Valid() && results == vs && stack.view == base
  {
    hide Stack.Valid;
    results := [];
    while |results| < n
      invariant stack.Valid() && |results| <= n
      invariant stack.view == base + OVals(vs[..n - |results|]) && results == vs[n - |results|..]
    {
      ghost var k := n - |results| - 1;
      assert OVals(vs[..k + 1]) == OVals(vs[..k]) + [OVal(vs[k])];
      ghost var below := base + OVals(vs[..k]);
      assert stack.view == below + [OVal(vs[k])];
      var v := stack.PopVal();
      assert stack.view == (stack.view + [OVal(v)])[..|below|] == below;
      assert OVal(v) == (stack.view + [OVal(v)])[|below|];
      results := [v] + results;
    }
    assert vs[0..] == vs && base + OVals(vs[..0]) == base;
  }
}
