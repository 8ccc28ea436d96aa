/** The validator as it runs: a type stack updated in place, a context whose label list grows
    and shrinks with the nesting, loops over instruction lists. Each procedure is the function
    of the same purpose in `Typing`. */
module Validator {
  import opened Syntax
  import opened Typing
  import opened Vectors

  /** Success is None. */
  type Outcome = Option<Error>

  class Operands {
    var types: seq<ValType>
    var poly: bool

    constructor ()
      ensures View() == TypeStack([], false)
    {
      types := [];
      poly := false;
    }

    ghost function View(): TypeStack
      reads this
    {
      TypeStack(types, poly)
    }

    method Push(t: ValType)
      modifies this
      ensures View() == Typing.Push(old(View()), t)
    {
      types := types + [t];
    }

    method TryPop(wanted: ValType) returns (r: Outcome)
      modifies this
      ensures match Typing.TryPop(old(View()), wanted)
              case Ok(ts) => r == None && View() == ts
              case Err(e) => r == Some(e)
    {
      if |types| == 0 {
        if !poly {
          return Some(TypeMismatch);
        }
      } else {
        var t := types[|types| - 1];
        types := types[..|types| - 1];
        if wanted != ANY && t != wanted && t != ANY {
          return Some(TypeMismatch);
        }
      }
      return None;
    }

    method Peek() returns (r: Result<ValType>)
      ensures r == Typing.Peek(View())
    {
      if |types| == 0 {
        if !poly {
          return Err(TypeMismatch);
        }
        return Ok(ANY);
      }
      return Ok(types[|types| - 1]);
    }

    /** Code after this point cannot be reached. */
    method SetUnreachable()
      modifies this
      ensures View() == UNREACHABLE
    {
      types := [];
      poly := true;
    }

    method PopAll(rt: seq<ValType>) returns (r: Outcome)
      modifies this
      ensures match Typing.PopAll(old(View()), rt)
              case Ok(ts) => r == None && View() == ts
              case Err(e) => r == Some(e)
    {
      var i := |rt|;
      assert rt[..i] == rt;
      while i > 0
        invariant 0 <= i <= |rt|
        invariant Typing.PopAll(View(), rt[..i]) == Typing.PopAll(old(View()), rt)
      {
        assert rt[..i][..i - 1] == rt[..i - 1];
        i := i - 1;
        r := TryPop(rt[i]);
        if r.Some? {
          return;
        }
      }
      return None;
    }

    method PopForward(rt: seq<ValType>) returns (r: Outcome)
      modifies this
      ensures match Typing.PopForward(old(View()), rt)
              case Ok(ts) => r == None && View() == ts
              case Err(e) => r == Some(e)
    {
      var i := 0;
      while i < |rt|
        invariant 0 <= i <= |rt|
        invariant Typing.PopForward(View(), rt[i..]) == Typing.PopForward(old(View()), rt)
      {
        assert rt[i..][1..] == rt[i + 1..];
        r := TryPop(rt[i]);
        if r.Some? {
          return;
        }
        i := i + 1;
      }
      return None;
    }

    method PushAll(rt: seq<ValType>)
      modifies this
      ensures View() == Typing.PushAll(old(View()), rt)
    {
      for i := 0 to |rt|
        invariant View() == Typing.PushAll(old(View()), rt[..i])
      {
        Push(rt[i]);
        assert rt[..i + 1] == rt[..i] + [rt[i]];
      }
      assert rt[..|rt|] == rt;
    }

    method Retype(pops: seq<ValType>, pushes: seq<ValType>) returns (r: Outcome)
      modifies this
      ensures match Typing.Retype(old(View()), pops, pushes)
              case Ok(ts) => r == None && View() == ts
              case Err(e) => r == Some(e)
    {
      r := PopAll(pops);
      if r == None {
        PushAll(pushes);
      }
    }

    method Leave(rt: seq<ValType>) returns (r: Outcome)
      modifies this
      ensures match Typing.Leave(old(View()), rt)
              case Ok(ts) => r == None && View() == ts
              case Err(e) => r == Some(e)
    {
      r := PopAll(rt);
      if r == None {
        SetUnreachable();
      }
    }
  }

  class Checker {
    /** `C.labels` is the linked list of label types, pushed and popped in place. */
    var C: Context

    constructor (C: Context)
      ensures this.C == C
    {
      this.C := C;
    }

    method PushLabel(rt: seq<ValType>)
      modifies this
      ensures C == WithLabel(old(C), rt)
    {
      C := C.(labels := C.labels + [rt]);
    }

    method PopLabel()
      requires |C.labels| > 0
      modifies this
      ensures C == old(C).(labels := old(C).labels[..|old(C).labels| - 1])
    {
      C := C.(labels := C.labels[..|C.labels| - 1]);
    }

    /** The label type for branch index `k`, looked up from the tail of the list. */
    method GetLabel(k: nat) returns (r: Result<seq<ValType>>)
      ensures r == LabelType(C, k)
    {
      if k >= |C.labels| {
        return Err(UnknownLabel);
      }
      return Ok(C.labels[|C.labels| - 1 - k]);
    }

    /** validate_instrs: a list on a type stack of its own. */
    method ValidateInstrs(code: Code, rt1: seq<ValType>, rt2: seq<ValType>) returns (r: Outcome)
      modifies this
      ensures match CheckBody(old(C), code, rt1, rt2)
              case Ok(_) => r == None && C == old(C)
              case Err(e) => r == Some(e)
      decreases code, 1
    {
      hide Check;
      var stack := new Operands();
      stack.PushAll(rt1);
      assert stack.View() == TypeStack(rt1, false);
      var ip := code;
      while ip.Cons?
        invariant fresh(stack) && C == old(C)
        invariant ip == code || ip < code
        invariant CheckSeq(C, ip, stack.View()) == CheckSeq(C, code, TypeStack(rt1, false))
        decreases ip
      {
        assert ip.ins < code;
        r := ValidateInstr(ip.ins, stack);
        if r.Some? {
          return;
        }
        ip := ip.next;
      }
      r := stack.PopAll(rt2);
      if r.Some? {
        return;
      }
      return if |stack.types| == 0 then None else Some(TypeMismatch);
    }

    /** validate_instr. */
    method ValidateInstr(ins: Instr, stack: Operands) returns (r: Outcome)
      modifies this, stack
      ensures match Check(old(C), ins, old(stack.View()))
              case Ok(ts) => r == None && stack.View() == ts && C == old(C)
              case Err(e) => r == Some(e)
      decreases ins, 1
    {
      hide CheckBody, CheckIf, CheckTargets, CheckPlain, Typing.Retype, Typing.Leave, BlockTypeOf, LabelType;
      match ins {
        case Unreachable => stack.SetUnreachable(); return None;
        case Nop => return None;
        case Else => return None;
        case End => return None;
        case Block(_, _, _) => r := ValidateNested(ins, stack);
        case Loop(_, _, _) => r := ValidateNested(ins, stack);
        case If(_, _, _) => r := ValidateIf(ins, stack);
        case Br(k) =>
          var l := GetLabel(k);
          if l.Err? {
            return Some(l.error);
          }
          r := stack.Leave(l.value);
        case BrIf(k) =>
          var l := GetLabel(k);
          if l.Err? {
            return Some(l.error);
          }
          r := stack.TryPop(I32);
          if r.Some? {
            return;
          }
          r := stack.Retype(l.value, l.value);
        case BrTable(ls, d) =>
          var l := GetLabel(d);
          if l.Err? {
            return Some(l.error);
          }
          r := ValidateTargets(ls, l.value, stack);
        case Return =>
          if C.ret.None? {
            return Some(Failed);
          }
          r := stack.Leave(C.ret.value);
        case Call(x) =>
          if x >= |C.funcs| {
            return Some(UnknownFunc);
          }
          r := stack.Retype(C.funcs[x].rt1, C.funcs[x].rt2);
        case CallIndirect(y, x) =>
          if x >= |C.tables| {
            return Some(UnknownTable);
          }
          if C.tables[x] != FUNCREF {
            return Some(Failed);
          }
          if y >= |C.types| {
            return Some(UnknownType);
          }
          r := stack.TryPop(I32);
          if r.Some? {
            return;
          }
          r := stack.Retype(C.types[y].rt1, C.types[y].rt2);
        case Plain(op) => r := ValidatePlain(op, stack);
      }
    }

    /** block and loop: the body under its own label, then the effect on the outer stack. */
    method ValidateNested(ins: Instr, stack: Operands) returns (r: Outcome)
      requires ins.Block? || ins.Loop?
      modifies this, stack
      ensures match Check(old(C), ins, old(stack.View()))
              case Ok(ts) => r == None && stack.View() == ts && C == old(C)
              case Err(e) => r == Some(e)
      decreases ins, 0
    {
      hide CheckBody, Typing.Retype, CheckIf, CheckTargets, CheckPlain, LabelType, Typing.Leave;
      var ft := BlockTypeOf(C, ins.bt);
      if ft.Err? {
        return Some(ft.error);
      }
      PushLabel(if ins.Block? then ft.value.rt2 else ft.value.rt1);
      r := ValidateInstrs(ins.in1, ft.value.rt1, ft.value.rt2);
      if r.Some? {
        return;
      }
      r := stack.Retype(ft.value.rt1, ft.value.rt2);
      if r.Some? {
        return;
      }
      PopLabel();
    }

    method ValidateIf(ins: Instr, stack: Operands) returns (r: Outcome)
      requires ins.If?
      modifies this, stack
      ensures match CheckIf(old(C), ins, old(stack.View()))
              case Ok(ts) => r == None && stack.View() == ts && C == old(C)
              case Err(e) => r == Some(e)
      decreases ins, 0
    {
      hide CheckBody;
      var ft := BlockTypeOf(C, ins.bt);
      if ft.Err? {
        return Some(Failed);
      }
      PushLabel(ft.value.rt2);
      r := ValidateInstrs(ins.in1, ft.value.rt1, ft.value.rt2);
      if r.Some? {
        return;
      }
      r := ValidateInstrs(ins.in2, ft.value.rt1, ft.value.rt2);
      if r.Some? {
        return;
      }
      r := stack.TryPop(I32);
      if r.Some? {
        return;
      }
      r := stack.PopForward(ft.value.rt1);
      if r.Some? {
        return;
      }
      stack.PushAll(ft.value.rt2);
      PopLabel();
    }

    /** The label loop of br_table, then the default label. */
    method ValidateTargets(ls: seq<U32>, rt: seq<ValType>, stack: Operands) returns (r: Outcome)
      modifies stack
      ensures match CheckTargets(C, ls, rt, old(stack.View()))
              case Ok(ts) => r == None && stack.View() == ts
              case Err(e) => r == Some(e)
    {
      hide Typing.Leave;
      var i := 0;
      assert ls[0..] == ls;
      while i < |ls|
        invariant 0 <= i <= |ls|
        invariant CheckTargets(C, ls[i..], rt, stack.View()) == CheckTargets(C, ls, rt, old(stack.View()))
      {
        assert ls[i..][0] == ls[i] && ls[i..][1..] == ls[i + 1..];
        var l := GetLabel(ls[i]);
        if l.Err? {
          return Some(l.error);
        }
        if |l.value| != |rt| {
          return Some(TypeMismatch);
        }
        r := stack.TryPop(I32);
        if r.Some? {
          return;
        }
        r := stack.Leave(l.value);
        if r.Some? {
          return;
        }
        i := i + 1;
      }
      r := stack.TryPop(I32);
      if r.Some? {
        return;
      }
      r := stack.Leave(rt);
    }

    method ValidatePlain(op: Plain, stack: Operands) returns (r: Outcome)
      modifies stack
      ensures match CheckPlain(C, op, old(stack.View()))
              case Ok(ts) => r == None && stack.View() == ts
              case Err(e) => r == Some(e)
    {
      hide PlainSig, Typing.Retype;
      if op.Drop? {
        r := stack.TryPop(ANY);
      } else if op.Select? {
        r := stack.TryPop(I32);
        if r.Some? {
          return;
        }
        var t := stack.Peek();
        if t.Err? {
          return Some(t.error);
        }
        if t.value == EXTERNREF || t.value == FUNCREF {
          return Some(TypeMismatch);
        }
        r := stack.Retype([t.value, t.value], [t.value]);
      } else {
        var sig := PlainSig(C, op);
        if sig.Err? {
          return Some(sig.error);
        }
        r := stack.Retype(sig.value.0, sig.value.1);
      }
    }

    /** validate_func. The locals are joined by `vector_concat`, whose result is right because
        both vectors are full; the label is pushed and not popped again. */
    method ValidateFunc(func: Func) returns (r: Outcome)
      requires func.typeidx < |C.types|
      modifies this
      ensures match CheckFunc(old(C), func)
              case Ok(_) => r == None && C == FuncContext(old(C), old(C).types[func.typeidx], func)
              case Err(e) => r == Some(e)
    {
      var ft := C.types[func.typeidx];
      var params := Full(ft.rt1);
      var own := Full(func.locals);
      var joined := new Vec<ValType>();
      joined.Concat(params, own);
      var locals := joined.Contents();
      C := C.(locals := locals);
      PushLabel(ft.rt2);
      C := C.(ret := Some(ft.rt2));
      r := ValidateInstrs(func.body, [], ft.rt2);
    }
  }
}
