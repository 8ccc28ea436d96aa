/** The interpreter loop over the real stack. It pops without checking; every pop is justified
    by the machine not being stuck, which validation guarantees. */
module Interpreter {
  import opened Syntax
  import opened Runtime
  import opened Machine
  import opened LinkedList
  import opened StackClass

  /** How a run ended. */
  datatype Status = Finished | Raised(err: Error) | FuelOut | StatusUB

  /** Where the loop goes after one instruction. */
  datatype Move = Goto(ip: Code) | Calls(addr: U32) | Throw(err: Error) | MoveUB

  lemma OValsReverse(s: Stk, n: nat, vals: seq<Val>)
    requires CanPop(s, n) && Reverse(vals) == Top(s, n)
    ensures |vals| == n
    ensures OVals(Reverse(vals)) == OVals(Top(s, n))
  {
  }

  class Interpreter {
    const stack: Stack
    var store: Store

    constructor (S: Store)
      ensures stack.Valid() && stack.view == [] && store == S
      ensures fresh(stack) && fresh(stack.Repr())
    {
      store := S;
      stack := new Stack();
    }

    ghost predicate Valid()
      reads stack, stack.pool, stack.labels, stack.frames
    {
      stack.Valid()
    }

    /** What the stack and the store must be after the step. */
    twostate predicate Follows(step: Step, move: Move)
      reads this, stack
    {
      match step
      case Next(ip, s, S) => move == Goto(ip) && stack.view == s && store == S
      case Invokes(addr, s) => move == Calls(addr) && stack.view == s && store == old(store)
      case Throws(e) => move == Throw(e) && store == old(store)
      case StepUB => move == MoveUB
      case Fails => true
    }

    /** Pops `n` values, pushes a label, pushes the values again. */
    method Enter(n: nat, arity: nat, parent: Code, continuation: Code, target: Code) returns (move: Move)
      requires Valid() && CanPop(stack.view, n)
      modifies stack.Repr()
      ensures Valid()
      ensures Follows(PushLabel(old(stack.view), n, OLabel(arity, parent, continuation), target, store), move)
    {
      hide Stack.Valid;
      var vals := stack.PopValsN(n);
      OValsReverse(old(stack.view), n, vals);
      var ok := stack.PushLabel(arity, parent, continuation);
      if !ok {
        return Throw(TrapCallStackExhausted);
      }
      ok := stack.PushVals(vals);
      if !ok {
        return Throw(TrapCallStackExhausted);
      }
      move := Goto(target);
    }

    method ExecBlock(ip: Code, m: ModInst) returns (move: Move)
      requires Valid() && ip.Cons? && ip.ins.Block? && !StepBlock(ip, stack.view, store, m).Fails?
      modifies stack.Repr()
      ensures Valid() && Follows(StepBlock(ip, old(stack.view), old(store), m), move)
    {
      hide Stack.Valid, CanPop;
      var ft := Expand(ip.ins.bt, m).value;
      move := Enter(|ft.rt1|, |ft.rt2|, ip, END_CODE, ip.ins.in1);
    }

    method ExecLoop(ip: Code, m: ModInst) returns (move: Move)
      requires Valid() && ip.Cons? && ip.ins.Loop? && !StepLoop(ip, stack.view, store, m).Fails?
      modifies stack.Repr()
      ensures Valid() && Follows(StepLoop(ip, old(stack.view), old(store), m), move)
    {
      hide Stack.Valid, CanPop;
      var ft := Expand(ip.ins.bt, m).value;
      move := Enter(|ft.rt1|, |ft.rt1|, ip, ip, ip.ins.in1);
    }

    method PopI32() returns (c: int)
      requires Valid() && CanPop(stack.view, 1)
      modifies stack`idx, stack`view
      ensures Valid() && stack.view == Below(old(stack.view), 1) && c == AsI32(Top(old(stack.view), 1)[0])
    {
      hide Stack.Valid;
      assert stack.view[|stack.view| - 1] == stack.view[|stack.view| - 1..][0];
      var v := stack.PopVal();
      c := AsI32(v);
    }

    method ExecIf(ip: Code, m: ModInst) returns (move: Move)
      requires Valid() && ip.Cons? && ip.ins.If? && !StepIf(ip, stack.view, store, m).Fails?
      modifies stack.Repr()
      ensures Valid() && Follows(StepIf(ip, old(stack.view), old(store), m), move)
    {
      hide Stack.Valid, CanPop, Top;
      var c := PopI32();
      var ft := Expand(ip.ins.bt, m).value;
      var target := if c != 0 then ip.ins.in1 else if ip.ins.in2.Cons? then ip.ins.in2 else END_CODE;
      move := Enter(|ft.rt1|, |ft.rt2|, ip, END_CODE, target);
    }

    /** `end` and `else`. */
    method ExecEnd() returns (move: Move)
      requires Valid() && !StepEnd(stack.view, store).Fails?
      modifies stack.Repr()
      ensures Valid() && Follows(StepEnd(old(stack.view), old(store)), move)
    {
      hide Stack.Valid, TopVals;
      var vals := stack.PopVals();
      var n := TopVals(old(stack.view));
      OValsReverse(old(stack.view), n, vals);
      var next := Nil;
      var l := stack.TryPopLabel();
      if l.Some? {
        next := if l.value.parent.Cons? then l.value.parent.next else Nil;
      } else {
        assert old(stack.view) == Below(old(stack.view), n) + OVals(Top(old(stack.view), n));
      }
      var ok := stack.PushVals(vals);
      assert ok;
      move := Goto(next);
    }

    /** The branch shared by br, br_if and br_table. */
    method Jump(k: nat, ip: Code) returns (move: Move)
      requires Valid() && ip.Cons? && !StepBr(k, ip, stack.view, store).Fails?
      modifies stack.Repr()
      ensures Valid() && Follows(StepBr(k, ip, old(stack.view), old(store)), move)
    {
      hide Stack.Valid, TopVals, LabelAt, Unwind, BrTarget;
      var l := stack.GetLabel(k);
      var arity := l.data.arity;
      var vals := stack.PopValsN(arity);
      OValsReverse(old(stack.view), arity, vals);
      ghost var s := stack.view;
      var label' := UnwindLabels(k + 1);
      var ok := stack.PushVals(vals);
      assert ok;
      move := Goto(AfterBranch(label', ip));
    }

    function AfterBranch(l: Obj, ip: Code): (c: Code)
      requires l.OLabel? && ip.Cons?
      ensures c == BrTarget(l, ip)
    {
      if l.parent.Nil? then Nil
      else if l.parent.ins.Block? || l.parent.ins.If? then l.parent.next
      else if l.parent.ins.Loop? then l.continuation
      else ip.next
    }

    /** The loop that discards labels with the values above them. */
    method UnwindLabels(count: nat) returns (l: Obj)
      requires Valid() && count > 0 && Unwind(stack.view, count).Some?
      modifies stack.Repr()
      ensures Valid() && Unwind(old(stack.view), count) == Some((stack.view, l))
    {
      hide Stack.Valid, TopVals;
      var left := count;
      l := OVal(Val(ANY, 0));
      while left > 0
        invariant 0 <= left <= count && Valid()
        invariant left > 0 ==> Unwind(stack.view, left) == Unwind(old(stack.view), count)
        invariant left == 0 ==> Unwind(old(stack.view), count) == Some((stack.view, l))
      {
        ghost var s := stack.view;
        var _ := stack.PopVals();
        ghost var s1 := stack.view;
        l := stack.PopLabel();
        assert stack.view == s1[..|s1| - 1];
        left := left - 1;
      }
    }

    method ExecCallIndirect(y: U32, x: U32, m: ModInst) returns (move: Move)
      requires Valid() && !StepCallIndirect(y, x, stack.view, store, m).Fails?
      modifies stack`idx, stack`view
      ensures Valid() && Follows(StepCallIndirect(y, x, old(stack.view), old(store), m), move)
    {
      hide Stack.Valid, CanPop, Top;
      var elems := store.tables[m.tableaddrs[x]].elems;
      var expected := m.types[y];
      var i := PopI32();
      if !(0 <= i < |elems|) {
        return Throw(TrapUndefinedElement);
      }
      var r := elems[i];
      if r == NULL_REF {
        return Throw(TrapUninitializedElement);
      }
      var actual := store.funcs[r].ftype;
      var same := CompareTypes(expected, actual);
      move := if same then Calls(r) else Throw(TrapIndirectCallTypeMismatch);
    }

    /** The two comparison loops of call_indirect. */
    method CompareTypes(a: FuncType, b: FuncType) returns (same: bool)
      ensures same == SameTypes(a, b)
    {
      if |a.rt1| != |b.rt1| || |a.rt2| != |b.rt2| {
        return false;
      }
      for i := 0 to |a.rt1|
        invariant forall j :: 0 <= j < i ==> a.rt1[j] == b.rt1[j]
      {
        if a.rt1[i] != b.rt1[i] {
          return false;
        }
      }
      for i := 0 to |a.rt2|
        invariant forall j :: 0 <= j < i ==> a.rt2[j] == b.rt2[j]
      {
        if a.rt2[i] != b.rt2[i] {
          return false;
        }
      }
      return true;
    }

    /** local.set: from the top of the stack into the frame. */
    method SetLocal(x: U32, frame: Elem<Obj>, ghost fi: nat)
      requires Valid() && fi + 1 < |stack.view| <= |stack.pool| && frame == stack.pool[fi] && stack.view[fi].OFrame?
      requires CanPop(stack.view, 1) && x < |stack.view[fi].locals|
      modifies this`store, stack.Repr(), stack.pool
      ensures Valid() && store == old(store)
      ensures var s := old(stack.view);
              stack.view == Below(s, 1)[fi := s[fi].(locals := s[fi].locals[x := Top(s, 1)[0]])]
    {
      hide Stack.Valid;
      stack.FrameData(frame, fi);
      assert stack.view[|stack.view| - 1] == stack.view[|stack.view| - 1..][0];
      var v := stack.PopVal();
      stack.SetLocals(frame, frame.data.locals[x := v], fi);
    }

    /** local.get, local.set and local.tee. A tee pops its operand, pushes it twice and falls
        through into set. */
    method ExecLocal(op: Plain, next: Code, frame: Elem<Obj>, ghost fi: nat) returns (move: Move)
      requires op.LocalGet? || op.LocalSet? || op.LocalTee?
      requires Valid() && fi < |stack.view| <= |stack.pool| && frame == stack.pool[fi] && stack.view[fi].OFrame?
      requires !StepPlain(op, next, fi, stack.view, store).Fails?
      modifies this`store, stack.Repr(), stack.pool
      ensures Valid() && Follows(StepPlain(op, next, fi, old(stack.view), old(store)), move)
    {
      hide Stack.Valid, StepPlain;
      stack.FrameData(frame, fi);
      ghost var s := stack.view;
      LocalSteps(op, next, fi, s, store);
      if op.LocalGet? {
        var room := stack.HasRoom(1);
        if !room {
          return Throw(TrapCallStackExhausted);
        }
        var ok := stack.PushVal(frame.data.locals[op.x]);
        return Goto(next);
      }
      if op.LocalTee? {
        assert s[|s| - 1..] == [s[|s| - 1]];
        var v := stack.PopVal();
        var ok := stack.PushVal(v);
        ok := stack.PushVal(v);
        if !ok {
          return Throw(TrapCallStackExhausted);
        }
        assert stack.view == s + [OVal(v)];
        assert Top(stack.view, 1) == [v] && Below(stack.view, 1) == s;
      }
      SetLocal(op.x, frame, fi);
      move := Goto(next);
    }

    /** The condition and the two operands of select. */
    method PopChoice(ghost below: Stk, ghost args: seq<Val>) returns (c: int, val1: Val, val2: Val)
      requires Valid() && |args| == 3 && stack.view == below + [OVal(args[0])] + [OVal(args[1])] + [OVal(args[2])]
      modifies stack`idx, stack`view
      ensures Valid() && stack.view == below && c == AsI32(args[2]) && val1 == args[0] && val2 == args[1]
    {
      hide Stack.Valid;
      ghost var s1 := below + [OVal(args[0])];
      ghost var s2 := s1 + [OVal(args[1])];
      var v := stack.PopVal();
      SameSnoc(stack.view, OVal(v), s2, OVal(args[2]));
      val2 := stack.PopVal();
      SameSnoc(stack.view, OVal(val2), s1, OVal(args[1]));
      val1 := stack.PopVal();
      SameSnoc(stack.view, OVal(val1), below, OVal(args[0]));
      c := AsI32(v);
    }

    static lemma SameSnoc(s: Stk, x: Obj, t: Stk, y: Obj)
      requires s + [x] == t + [y]
      ensures s == t && x == y
    {
      assert (s + [x])[|s|] == x && (t + [y])[|t|] == y;
      assert (s + [x])[..|s|] == s && (t + [y])[..|t|] == t;
    }

    static lemma ThreeOperands(below: Stk, args: seq<Val>)
      requires |args| == 3
      ensures below + OVals(args) == below + [OVal(args[0])] + [OVal(args[1])] + [OVal(args[2])]
    {
    }

    /** drop and select. */
    method ExecParametric(op: Plain, next: Code, frame: Elem<Obj>, ghost fi: nat) returns (move: Move)
      requires op.Drop? || op.Select? || op.SelectT?
      requires Valid() && fi < |stack.view| <= |stack.pool| && frame == stack.pool[fi] && stack.view[fi].OFrame?
      requires !StepPlain(op, next, fi, stack.view, store).Fails?
      modifies this`store, stack.Repr(), stack.pool
      ensures Valid() && Follows(StepPlain(op, next, fi, old(stack.view), old(store)), move)
    {
      hide Stack.Valid, StepPlain;
      ghost var s := stack.view;
      ParametricSteps(op, next, fi, s, store);
      if op.Drop? {
        assert s[|s| - 1..] == [s[|s| - 1]];
        var _ := stack.PopVal();
        return Goto(next);
      }
      ghost var args, below := Top(s, 3), Below(s, 3);
      assert s == below + OVals(args);
      ThreeOperands(below, args);
      var c, val1, val2 := PopChoice(below, args);
      var ok := stack.PushVal(if c != 0 then val1 else val2);
      move := Goto(next);
    }

    /** global.get and global.set. */
    method ExecGlobal(op: Plain, next: Code, frame: Elem<Obj>, ghost fi: nat) returns (move: Move)
      requires op.GlobalGet? || op.GlobalSet?
      requires Valid() && fi < |stack.view| <= |stack.pool| && frame == stack.pool[fi] && stack.view[fi].OFrame?
      requires !StepPlain(op, next, fi, stack.view, store).Fails?
      modifies this`store, stack.Repr(), stack.pool
      ensures Valid() && Follows(StepPlain(op, next, fi, old(stack.view), old(store)), move)
    {
      hide Stack.Valid, StepPlain;
      stack.FrameData(frame, fi);
      GlobalSteps(op, next, fi, stack.view, store);
      if op.GlobalGet? {
        var room := stack.HasRoom(1);
        if !room {
          return Throw(TrapCallStackExhausted);
        }
        var ok := stack.PushVal(store.globals[frame.data.inst.globaladdrs[op.x]].val);
        return Goto(next);
      }
      var a := frame.data.inst.globaladdrs[op.x];
      ghost var s := stack.view;
      assert s[|s| - 1..] == [s[|s| - 1]];
      var v := stack.PopVal();
      store := store.(globals := store.globals[a := store.globals[a].(val := v)]);
      move := Goto(next);
    }

    /** Constants, references and sizes: what they push, read from the instruction, the instance or
        the store. */
    method ExecSource(op: Plain, next: Code, frame: Elem<Obj>, ghost fi: nat) returns (move: Move)
      requires IsSource(op)
      requires Valid() && fi < |stack.view| <= |stack.pool| && frame == stack.pool[fi] && stack.view[fi].OFrame?
      requires !StepPlain(op, next, fi, stack.view, store).Fails?
      modifies this`store, stack.Repr(), stack.pool
      ensures Valid() && Follows(StepPlain(op, next, fi, old(stack.view), old(store)), move)
    {
      hide Stack.Valid, StepPlain;
      stack.FrameData(frame, fi);
      var m := frame.data.inst;
      SourceSteps(op, next, fi, stack.view, store);
      var room := stack.HasRoom(1);
      if !room {
        return Throw(TrapCallStackExhausted);
      }
      var v;
      match op {
        case Const(t, bits) => v := Val(t, bits);
        case RefNull(t) => v := Val(t, 0xFFFF_FFFF);
        case RefFunc(x) => v := Val(FUNCREF, m.funcaddrs[x]);
        case MemorySize => v := ValI32(store.mems[m.memaddrs[0]].pages);
        case TableSize(x) => v := ValI32(|store.tables[m.tableaddrs[x]].elems|);
      }
      var ok := stack.PushVal(v);
      move := Goto(next);
    }

    /** ref.is_null: 1 for the null reference, 0 for any other. */
    method ExecIsNull(next: Code, frame: Elem<Obj>, ghost fi: nat) returns (move: Move)
      requires Valid() && fi < |stack.view| <= |stack.pool| && frame == stack.pool[fi] && stack.view[fi].OFrame?
      requires !StepPlain(RefIsNull, next, fi, stack.view, store).Fails?
      modifies this`store, stack.Repr(), stack.pool
      ensures Valid() && Follows(StepPlain(RefIsNull, next, fi, old(stack.view), old(store)), move)
    {
      hide Stack.Valid, StepPlain;
      IsNullSteps(next, fi, stack.view, store);
      ghost var s := stack.view;
      assert s[|s| - 1..] == [s[|s| - 1]];
      var v := stack.PopVal();
      var ok := stack.PushVal(ValI32(if AsU32(v) == 0xFFFF_FFFF then 1 else 0));
      move := Goto(next);
    }

    method ExecPlain(op: Plain, next: Code, frame: Elem<Obj>, ghost fi: nat) returns (move: Move)
      requires Valid() && fi < |stack.view| <= |stack.pool| && frame == stack.pool[fi] && stack.view[fi].OFrame?
      requires !StepPlain(op, next, fi, stack.view, store).Fails?
      modifies this`store, stack.Repr(), stack.pool
      ensures Valid() && Follows(StepPlain(op, next, fi, old(stack.view), old(store)), move)
    {
      hide Stack.Valid, Perform, Pops, Pushes;
      if op.LocalGet? || op.LocalSet? || op.LocalTee? {
        move := ExecLocal(op, next, frame, fi);
        return;
      }
      if op.Drop? || op.Select? || op.SelectT? {
        move := ExecParametric(op, next, frame, fi);
        return;
      }
      if op.GlobalGet? || op.GlobalSet? {
        move := ExecGlobal(op, next, frame, fi);
        return;
      }
      if IsSource(op) {
        move := ExecSource(op, next, frame, fi);
        return;
      }
      if op.RefIsNull? {
        move := ExecIsNull(next, frame, fi);
        return;
      }
      stack.FrameData(frame, fi);
      var n := Pops(op);
      ghost var s := stack.view;
      var vals := stack.PopValsN(n);
      var room := stack.HasRoom(Pushes(op));
      if !room {
        return Throw(TrapCallStackExhausted);
      }
      match Perform(op, Reverse(vals), frame.data.locals, store, frame.data.inst) {
        case Traps(e) => return Throw(e);
        case EffectUB => return MoveUB;
        case Did(results, locals, S) =>
          store := S;
          assert stack.view == s[..|s| - n] && stack.view[fi] == s[fi];
          stack.SetLocals(frame, locals, fi);
          PushesEnough(op, Reverse(vals), s[fi].locals, old(store), s[fi].inst);
          var ok := stack.PushVals(Reverse(results));
          assert Reverse(Reverse(results)) == results;
          assert ok;
          move := Goto(next);
      }
    }

    /** One round of the loop. `frame` is the frame that was current on entry. */
    method ExecInstr(ip: Code, frame: Elem<Obj>, ghost fi: nat) returns (move: Move)
      requires Valid() && ip.Cons? && fi < |stack.pool| && frame == stack.pool[fi]
      requires !StepInstr(ip, fi, stack.view, store).Fails?
      modifies this`store, stack.Repr(), stack.pool
      ensures Valid() && Follows(StepInstr(ip, fi, old(stack.view), old(store)), move)
    {
      hide Stack.Valid, StepBlock, StepLoop, StepIf, StepEnd, StepBr, StepCallIndirect, StepPlain, CanPop, Top;
      stack.FrameData(frame, fi);
      var m := frame.data.inst;
      match ip.ins {
        case Unreachable => move := Throw(TrapUnreachable);
        case Nop => move := Goto(ip.next);
        case Block(_, _, _) => move := ExecBlock(ip, m);
        case Loop(_, _, _) => move := ExecLoop(ip, m);
        case If(_, _, _) => move := ExecIf(ip, m);
        case Else => move := ExecEnd();
        case End => move := ExecEnd();
        case Br(k) => move := Jump(k, ip);
        case BrIf(k) =>
          var c := PopI32();
          if c == 0 {
            move := Goto(ip.next);
          } else {
            move := Jump(k, ip);
          }
        case BrTable(ls, d) =>
          var c := PopI32();
          move := Jump(if 0 <= c < |ls| then ls[c] else d, ip);
        case Return => move := Goto(Nil);
        case Call(x) => move := Calls(m.funcaddrs[x]);
        case CallIndirect(y, x) => move := ExecCallIndirect(y, x, m);
        case Plain(op) => move := ExecPlain(op, ip.next, frame, fi);
      }
    }

    /** How a finished run shows in status, fuel, stack and store. */
    ghost predicate Shows(r: Run, status: Status, left: nat)
      reads this, stack
    {
      match r
      case Done(s, S, fuel) => status == Finished && left == fuel && stack.view == s && store == S
      case Trapped(e, S) => status == Raised(e) && store == S
      case OutOfFuel => status == FuelOut
      case RunUB => status == StatusUB
      case Stuck => true
    }

    /** exec_expr: runs a list to its end and is the machine's `Exec`. */
    method ExecExpr(code: Code, fuel: nat) returns (status: Status, left: nat)
      requires Valid() && CurrentFrame(stack.view).Some?
      requires !Exec(fuel, code, CurrentFrame(stack.view).value, stack.view, store).Stuck?
      modifies this`store, stack.Repr(), stack.pool
      ensures Valid() && left <= fuel
      ensures Shows(Exec(fuel, code, CurrentFrame(old(stack.view)).value, old(stack.view), old(store)), status, left)
      decreases fuel, 1
    {
      hide Stack.Valid, StepInstr, Exec, Invoke, CurrentFrame;
      ghost var fi := CurrentFrame(stack.view).value;
      var frame := stack.GetFrame();
      var ip := code;
      left := fuel;
      ghost var run := Exec(fuel, code, fi, stack.view, store);
      while ip != Nil
        invariant Valid() && left <= fuel && fi < |stack.pool| && frame == stack.pool[fi]
        invariant run == Exec(left, ip, fi, stack.view, store)
        decreases left
      {
        ExecOnce(left, ip, fi, stack.view, store);
        if left == 0 {
          return FuelOut, 0;
        }
        ghost var s, S := stack.view, store;
        left := left - 1;
        var move := ExecInstr(ip, frame, fi);
        match move {
          case Throw(e) => return Raised(e), left;
          case MoveUB => return StatusUB, left;
          case Goto(next) => ip := next;
          case Calls(addr) =>
            var ended;
            ended, left := InvokeFunc(addr, left);
            if ended != Finished {
              return ended, left;
            }
            ip := ip.next;
        }
      }
      ExecEnds(left, fi, stack.view, store);
      status := Finished;
    }

    /** invoke_func. */
    method InvokeFunc(addr: U32, fuel: nat) returns (status: Status, left: nat)
      requires Valid() && !Invoke(fuel, addr, stack.view, store).Stuck?
      modifies this`store, stack.Repr(), stack.pool
      ensures Valid() && left <= fuel
      ensures Shows(Invoke(fuel, addr, old(stack.view), old(store)), status, left)
      decreases fuel, 2
    {
      hide Stack.Valid, Exec, CanPop, DropToFrame;
      var f := store.funcs[addr];
      var n, arity := |f.ftype.rt1|, |f.ftype.rt2|;
      var args := stack.PopValsN(n);
      ghost var base := stack.view;
      var slots := FrameSlots(Reverse(args), f.code.locals);
      if slots.None? {
        return StatusUB, fuel;
      }
      var ok := stack.PushFrame(arity, slots.value, f.inst);
      if !ok {
        return Raised(TrapCallStackExhausted), fuel;
      }
      ok := stack.PushLabel(arity, Nil, END_CODE);
      if !ok {
        return Raised(TrapCallStackExhausted), fuel;
      }
      FrameBelowLabel(base, stack.view);
      status, left := ExecExpr(f.code.body, fuel);
      if status != Finished {
        return;
      }
      status := Leave(arity, left);
    }

    /** The end of invoke_func. */
    method Leave(arity: nat, ghost fuel: nat) returns (status: Status)
      requires Valid() && !LeaveFrame(arity, stack.view, store, fuel).Stuck?
      modifies stack.Repr(), stack.pool
      ensures Valid() && Shows(LeaveFrame(arity, old(stack.view), store, fuel), status, fuel)
    {
      hide Stack.Valid, CanPop, Top, DropToFrame;
      var vals := stack.PopValsN(arity);
      stack.PopWhileNotFrame();
      ghost var s := stack.view;
      var _ := stack.PopFrame();
      assert stack.view == s[..|s| - 1];
      var ok := stack.PushVals(vals);
      status := if ok then Finished else Raised(TrapCallStackExhausted);
    }
  }

  /** Entry `fi` of `s` with `v` in slot `x` of its locals. */
  function WithLocal(s: Stk, fi: nat, x: nat, v: Val): Stk
    requires fi < |s| && s[fi].OFrame? && x < |s[fi].locals|
  {
    s[fi := s[fi].(locals := s[fi].locals[x := v])]
  }

  /** What the machine's step is for the instructions on locals. */
  lemma LocalSteps(op: Plain, next: Code, fi: nat, s: Stk, S: Store)
    requires op.LocalGet? || op.LocalSet? || op.LocalTee?
    requires fi < |s| && s[fi].OFrame? && !StepPlain(op, next, fi, s, S).Fails?
    ensures |s| < CAPACITY || (op.LocalSet? && |s| <= CAPACITY + 1) ==> op.x < |s[fi].locals|
    ensures op.LocalGet? || (CanPop(s, 1) && (|s| < CAPACITY || (op.LocalSet? && |s| <= CAPACITY + 1) ==> fi + 1 < |s|))
    ensures op.LocalGet? ==>
              StepPlain(op, next, fi, s, S) ==
              if |s| < CAPACITY then Next(next, s + [OVal(s[fi].locals[op.x])], S) else Throws(TrapCallStackExhausted)
    ensures op.LocalSet? && |s| <= CAPACITY + 1 ==>
              StepPlain(op, next, fi, s, S) == Next(next, WithLocal(Below(s, 1), fi, op.x, Top(s, 1)[0]), S)
    ensures op.LocalTee? ==>
              StepPlain(op, next, fi, s, S) ==
              if |s| < CAPACITY then Next(next, WithLocal(s, fi, op.x, Top(s, 1)[0]), S) else Throws(TrapCallStackExhausted)
  {
    hide StepPlain, Perform, WithLocal;
    match op
    case LocalGet(x) => GetSteps(x, next, fi, s, S);
    case LocalSet(x) => SetSteps(x, next, fi, s, S);
    case LocalTee(x) => TeeSteps(x, next, fi, s, S);
  }

  lemma GetSteps(x: U32, next: Code, fi: nat, s: Stk, S: Store)
    requires fi < |s| && s[fi].OFrame? && !StepPlain(LocalGet(x), next, fi, s, S).Fails?
    ensures |s| < CAPACITY ==> x < |s[fi].locals|
    ensures StepPlain(LocalGet(x), next, fi, s, S) ==
            if |s| < CAPACITY then Next(next, s + [OVal(s[fi].locals[x])], S) else Throws(TrapCallStackExhausted)
  {
    assert s[fi := s[fi].(locals := s[fi].locals)] == s && Below(s, 0) == s && Top(s, 0) == [];
  }

  lemma SetSteps(x: U32, next: Code, fi: nat, s: Stk, S: Store)
    requires fi < |s| && s[fi].OFrame? && !StepPlain(LocalSet(x), next, fi, s, S).Fails?
    ensures CanPop(s, 1)
    ensures |s| <= CAPACITY + 1 ==>
              && x < |s[fi].locals| && fi + 1 < |s|
              && StepPlain(LocalSet(x), next, fi, s, S) == Next(next, WithLocal(Below(s, 1), fi, x, Top(s, 1)[0]), S)
  {
    if |s| <= CAPACITY + 1 {
      assert s[|s| - 1..] == [s[|s| - 1]] && fi < |s| - 1;
      assert Below(s, 1) + OVals([]) == Below(s, 1);
      var below := WithLocal(Below(s, 1), fi, x, Top(s, 1)[0]);
      assert below + OVals([]) == below;
    }
  }

  lemma TeeSteps(x: U32, next: Code, fi: nat, s: Stk, S: Store)
    requires fi < |s| && s[fi].OFrame? && !StepPlain(LocalTee(x), next, fi, s, S).Fails?
    ensures CanPop(s, 1)
    ensures |s| < CAPACITY ==> x < |s[fi].locals| && fi + 1 < |s|
    ensures StepPlain(LocalTee(x), next, fi, s, S) ==
            if |s| < CAPACITY then Next(next, WithLocal(s, fi, x, Top(s, 1)[0]), S) else Throws(TrapCallStackExhausted)
  {
    if |s| < CAPACITY {
      var v := Top(s, 1)[0];
      assert s[|s| - 1..] == [s[|s| - 1]] && fi < |s| - 1;
      var below := WithLocal(Below(s, 1), fi, x, v);
      assert OVals([v]) == [OVal(v)];
      assert below + OVals([v]) == WithLocal(s, fi, x, v);
    }
  }

  lemma ParametricSteps(op: Plain, next: Code, fi: nat, s: Stk, S: Store)
    requires op.Drop? || op.Select? || op.SelectT?
    requires fi < |s| <= CAPACITY && s[fi].OFrame? && !StepPlain(op, next, fi, s, S).Fails?
    ensures op.Drop? ==> CanPop(s, 1) && StepPlain(op, next, fi, s, S) == Next(next, Below(s, 1), S)
    ensures !op.Drop? ==>
              && CanPop(s, 3)
              && var args := Top(s, 3);
                 StepPlain(op, next, fi, s, S) ==
                 Next(next, Below(s, 3) + [OVal(if AsI32(args[2]) != 0 then args[0] else args[1])], S)
  {
    var below := Below(s, Pops(op));
    assert below[fi := below[fi].(locals := below[fi].locals)] == below && below + OVals([]) == below;
  }

  lemma GlobalSteps(op: Plain, next: Code, fi: nat, s: Stk, S: Store)
    requires op.GlobalGet? || op.GlobalSet?
    requires fi < |s| <= CAPACITY + 1 && s[fi].OFrame? && !StepPlain(op, next, fi, s, S).Fails?
    ensures op.GlobalSet? ==> CanPop(s, 1)
    ensures |s| < CAPACITY || op.GlobalSet? ==> ValidAddr(s[fi].inst.globaladdrs, op.x, |S.globals|)
    ensures op.GlobalGet? ==>
              StepPlain(op, next, fi, s, S) ==
              if |s| < CAPACITY then Next(next, s + [OVal(S.globals[s[fi].inst.globaladdrs[op.x]].val)], S)
              else Throws(TrapCallStackExhausted)
    ensures op.GlobalSet? ==>
              var a := s[fi].inst.globaladdrs[op.x];
              StepPlain(op, next, fi, s, S) ==
              Next(next, Below(s, 1), S.(globals := S.globals[a := S.globals[a].(val := Top(s, 1)[0])]))
  {
    if op.GlobalGet? {
      assert s[fi := s[fi].(locals := s[fi].locals)] == s && Below(s, 0) == s && Top(s, 0) == [];
    } else {
      var below := Below(s, 1);
      assert s[|s| - 1..] == [s[|s| - 1]] && fi < |s| - 1;
      assert below[fi := below[fi].(locals := below[fi].locals)] == below && below + OVals([]) == below;
    }
  }

  predicate IsSource(op: Plain) { op.Const? || op.RefNull? || op.RefFunc? || op.MemorySize? || op.TableSize? }

  lemma SourceSteps(op: Plain, next: Code, fi: nat, s: Stk, S: Store)
    requires IsSource(op) && fi < |s| <= CAPACITY && s[fi].OFrame? && !StepPlain(op, next, fi, s, S).Fails?
    ensures |s| == CAPACITY ==> StepPlain(op, next, fi, s, S) == Throws(TrapCallStackExhausted)
    ensures |s| < CAPACITY ==>
              var m := s[fi].inst;
              match op
              case Const(t, bits) => StepPlain(op, next, fi, s, S) == Next(next, s + [OVal(Val(t, bits))], S)
              case RefNull(t) => StepPlain(op, next, fi, s, S) == Next(next, s + [OVal(Val(t, 0xFFFF_FFFF))], S)
              case RefFunc(x) =>
                && x < |m.funcaddrs|
                && StepPlain(op, next, fi, s, S) == Next(next, s + [OVal(Val(FUNCREF, m.funcaddrs[x]))], S)
              case MemorySize =>
                && ValidAddr(m.memaddrs, 0, |S.mems|)
                && StepPlain(op, next, fi, s, S) == Next(next, s + [OVal(ValI32(S.mems[m.memaddrs[0]].pages))], S)
              case TableSize(x) =>
                && ValidAddr(m.tableaddrs, x, |S.tables|)
                && StepPlain(op, next, fi, s, S) == Next(next, s + [OVal(ValI32(|S.tables[m.tableaddrs[x]].elems|))], S)
              case _ => false
  {
    assert s[fi := s[fi].(locals := s[fi].locals)] == s && Below(s, 0) == s && Top(s, 0) == [];
  }

  lemma IsNullSteps(next: Code, fi: nat, s: Stk, S: Store)
    requires fi < |s| <= CAPACITY && s[fi].OFrame? && !StepPlain(RefIsNull, next, fi, s, S).Fails?
    ensures CanPop(s, 1)
    ensures StepPlain(RefIsNull, next, fi, s, S) ==
            Next(next, Below(s, 1) + [OVal(ValI32(if AsU32(Top(s, 1)[0]) == 0xFFFF_FFFF then 1 else 0))], S)
  {
    var below := Below(s, 1);
    assert s[|s| - 1..] == [s[|s| - 1]] && fi < |s| - 1;
    assert below[fi := below[fi].(locals := below[fi].locals)] == below;
  }

  lemma PushesEnough(op: Plain, args: seq<Val>, locals: seq<Val>, S: Store, m: ModInst)
    requires |args| == Pops(op) && Perform(op, args, locals, S, m).Did?
    ensures |Perform(op, args, locals, S, m).results| <= Pushes(op)
  {
  }

  lemma ExecOnce(fuel: nat, ip: Code, fi: nat, s: Stk, S: Store)
    requires ip.Cons?
    ensures Exec(fuel, ip, fi, s, S) ==
            if fuel == 0 then OutOfFuel
            else
              match StepInstr(ip, fi, s, S)
              case Fails => Stuck
              case Throws(e) => Trapped(e, S)
              case StepUB => RunUB
              case Next(ip', s', S') => Exec(fuel - 1, ip', fi, s', S')
              case Invokes(addr, s') =>
                var r := Invoke(fuel - 1, addr, s', S);
                if r.Done? then Exec(r.fuel, ip.next, fi, r.stk, r.store) else r
  {
  }

  lemma ExecEnds(fuel: nat, fi: nat, s: Stk, S: Store)
    ensures Exec(fuel, Nil, fi, s, S) == Done(s, S, fuel)
  {
  }

  lemma FrameBelowLabel(base: Stk, s: Stk)
    requires |s| == |base| + 2 && s[..|base|] == base && s[|base|].OFrame? && s[|base| + 1].OLabel?
    ensures CurrentFrame(s) == Some(|base|)
  {
    assert s[..|s| - 1][|base|] == s[|base|];
  }
}
