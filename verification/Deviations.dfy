/** Where the validator does not give what a validator should, and exactly when it does. */
module Deviations {
  import opened Syntax
  import opened Runtime
  import opened Machine
  import opened Semantics
  import opened Typing
  import opened Leb128
  import opened Decoding
  import opened Invariants

  // ---------------------------------------------------------------- block types

  /** The machine expands an accepted block type as the validator did, except for a funcref
      block that is not by accident also the index of the type [] -> [funcref]. */
  lemma BlockTypesAgree(C: Context, m: ModInst, bt: BlockType)
    requires C.types == m.types
    ensures (BlockTypeOf(C, bt).Ok? ==> Expand(bt, m) == Some(BlockTypeOf(C, bt).value))
            <==> (bt % 0x100 != FUNCREF || (bt < |C.types| && C.types[bt] == FuncType([], [FUNCREF])))
  {
    if bt % 0x100 == FUNCREF && bt < |C.types| && C.types[bt] != FuncType([], [FUNCREF]) {
      assert BlockTypeOf(C, bt) == Ok(FuncType([], [FUNCREF]));
    }
  }

  /** The block types of the standard, section 5.4.1: nothing, one result, or the type of an index. */
  function StandardBlockType(C: Context, first: Byte, index: U32): Option<FuncType> {
    if first == 0x40 then Some(FuncType([], []))
    else if first in {0x7F, 0x7E, 0x7D, 0x7C, 0x70, 0x6F} then Some(FuncType([], [first]))
    else if index < |C.types| then Some(C.types[index])
    else None
  }

  /** Refused, or accepted with that meaning. */
  predicate Agrees(r: Result<FuncType>, standard: Option<FuncType>) {
    match r
    case Ok(ft) => standard == Some(ft)
    case Err(_) => standard == None
  }

  /** What is read as a block type means what the standard says exactly when it is no index, or
      one whose low byte is no code of a block type, or it names the very type of that code: index
      and code share a word, and the code is looked at first. */
  lemma BlockTypeMeaning(C: Context, data: seq<Byte>, p: nat)
    requires ReadBlockType(data, p).Ok?
    ensures p < |data|
    ensures var (bt, _) := ReadBlockType(data, p).value;
            var standard := StandardBlockType(C, data[p], bt);
            Agrees(BlockTypeOf(C, bt), standard) <==>
            (|| data[p] in {0x40, 0x7F, 0x7E, 0x7D, 0x7C, 0x70, 0x6F}
             || bt % 0x100 !in {0x40, 0x7F, 0x7E, 0x7D, 0x7C, 0x70, 0x6F}
             || standard == StandardBlockType(C, bt % 0x100, bt))
  {
    hide ReadU32;
  }

  lemma SevenBits()
    ensures Pow2(7) == 0x80
  {
    assert Pow2(4) == 2 * (2 * (2 * (2 * Pow2(0))));
    assert Pow2(7) == 2 * (2 * (2 * Pow2(4)));
  }

  /** Type index 64, written C0 00, is read as the empty block type whatever type 64 is. */
  lemma BlockTypeMisread(C: Context)
    requires |C.types| > 64
    ensures ReadBlockType([0xC0, 0x00], 0) == Ok((64, 2)) && BlockTypeOf(C, 64) == Ok(FuncType([], []))
    ensures StandardBlockType(C, 0xC0, 64) == Some(C.types[64])
  {
    var data: seq<Byte> := [0xC0, 0x00];
    assert ReadUnsigned(data, 1, 7, 64, 32) == Ok((64, 2)) by { assert Pow2(7) == 0x80 by { SevenBits(); } }
    assert Pow2(0) == 1;
    assert ReadUnsigned(data, 0, 0, 0, 32) == Ok((64, 2));
  }

  // ---------------------------------------------------------------- parameters of if

  ghost predicate Palindrome(rt: seq<ValType>) {
    forall i :: 0 <= i < |rt| ==> rt[i] == rt[|rt| - 1 - i]
  }

  /** An `if` finds its declared parameters on the stack exactly when they read the same in
      both directions: the validator pops them first to last. */
  lemma {:induction false} IfAcceptsItsParameters(ts: seq<ValType>, rt: seq<ValType>)
    requires NoAny(rt)
    ensures PopForward(TypeStack(ts + rt, false), rt).Ok? <==> Palindrome(rt)
  {
    var s := ts + rt;
    PopForwardIff(s, rt);
    if Palindrome(rt) {
      forall i | 0 <= i < |rt| ensures s[|s| - 1 - i] == rt[i] {
        assert s[|s| - 1 - i] == rt[|rt| - 1 - i];
      }
    }
    if PopForward(TypeStack(s, false), rt).Ok? {
      forall i | 0 <= i < |rt| ensures rt[i] == rt[|rt| - 1 - i] {
        var t := s[|s| - 1 - i];
        assert t == rt[|rt| - 1 - i];
      }
    }
  }

  /** Popping first to last is popping the reverse last to first. */
  lemma {:induction false} ForwardIsReversed(ts: TypeStack, rt: seq<ValType>, reversed: seq<ValType>)
    requires |reversed| == |rt| && forall i :: 0 <= i < |rt| ==> reversed[i] == rt[|rt| - 1 - i]
    ensures PopForward(ts, rt) == PopAll(ts, reversed)
    decreases |rt|
  {
    hide TryPop;
    if rt != [] && TryPop(ts, rt[0]).Ok? {
      var n := |rt| - 1;
      assert reversed[n] == rt[0];
      ForwardIsReversed(TryPop(ts, rt[0]).value, rt[1..], reversed[..n]);
    }
  }

  /** An `if` whose parameters read the same in both directions is regular everywhere. */
  lemma PalindromeIsRegular(ts: TypeStack, rt: seq<ValType>)
    requires Palindrome(rt)
    ensures RegularIf(ts, rt)
  {
    hide PopForward, PopAll;
    if TryPop(ts, I32).Ok? {
      ForwardIsReversed(TryPop(ts, I32).value, rt, rt);
    }
  }

  lemma {:induction false} PopForwardIff(ts: seq<ValType>, rt: seq<ValType>)
    requires |rt| <= |ts|
    ensures PopForward(TypeStack(ts, false), rt).Ok? <==>
            forall i :: 0 <= i < |rt| ==> var t := ts[|ts| - 1 - i]; t == rt[i] || rt[i] == ANY || t == ANY
    decreases |rt|
  {
    if rt != [] {
      var ts', rest := ts[..|ts| - 1], rt[1..];
      PopForwardIff(ts', rest);
      var t := ts[|ts| - 1];
      if t == rt[0] || rt[0] == ANY || t == ANY {
        assert TryPop(TypeStack(ts, false), rt[0]) == Ok(TypeStack(ts', false));
        forall i | 0 <= i < |rt|
          ensures i > 0 ==> ts[|ts| - 1 - i] == ts'[|ts'| - 1 - (i - 1)] && rt[i] == rest[i - 1]
        {
        }
      } else {
        assert ts[|ts| - 1 - 0] == t;
      }
    }
  }

  /** Declared parameters that are no palindrome are refused; a stack that carries them in
      reverse order is accepted in their place. */
  lemma IfAcceptsReversed(ts: seq<ValType>, rt: seq<ValType>, reversed: seq<ValType>)
    requires |reversed| == |rt| && forall i :: 0 <= i < |rt| ==> reversed[i] == rt[|rt| - 1 - i]
    ensures PopForward(TypeStack(ts + reversed, false), rt).Ok?
  {
    var s := ts + reversed;
    PopForwardIff(s, rt);
    forall i | 0 <= i < |rt| ensures s[|s| - 1 - i] == rt[i] {
      assert s[|s| - 1 - i] == reversed[|rt| - 1 - i];
    }
  }

  // ---------------------------------------------------------------- br_table

  /** br_table compares only the first listed label (or a lone default) with the stack; every
      further label needs the arity of the default and nothing else. */
  lemma {:induction false} BrTableAccepts(C: Context, ls: seq<U32>, rt: seq<ValType>, ts: seq<ValType>)
    requires ls != []
    ensures CheckTargets(C, ls, rt, TypeStack(ts, false)).Ok? <==>
            && (forall i :: 0 <= i < |ls| ==> LabelType(C, ls[i]).Ok? && |LabelType(C, ls[i]).value| == |rt|)
            && TryPop(TypeStack(ts, false), I32).Ok?
            && PopAll(TryPop(TypeStack(ts, false), I32).value, LabelType(C, ls[0]).value).Ok?
  {
    UnreachableTargets(C, ls[1..], rt);
    forall i | 0 < i < |ls| ensures ls[i] == ls[1..][i - 1] {
    }
  }

  lemma {:induction false} UnreachableTargets(C: Context, ls: seq<U32>, rt: seq<ValType>)
    ensures CheckTargets(C, ls, rt, UNREACHABLE).Ok? <==>
            forall i :: 0 <= i < |ls| ==> LabelType(C, ls[i]).Ok? && |LabelType(C, ls[i]).value| == |rt|
    decreases |ls|
  {
    if ls == [] {
      UnreachablePops(rt);
    } else {
      UnreachableTargets(C, ls[1..], rt);
      if LabelType(C, ls[0]).Ok? {
        UnreachablePops(LabelType(C, ls[0]).value);
      }
      forall i | 0 < i < |ls| ensures ls[i] == ls[1..][i - 1] {
      }
    }
  }

  lemma {:induction false} UnreachablePops(rt: seq<ValType>)
    ensures PopAll(UNREACHABLE, rt) == Ok(UNREACHABLE)
    decreases |rt|
  {
    if rt != [] {
      UnreachablePops(rt[..|rt| - 1]);
    }
  }

  // ---------------------------------------------------------------- the label left behind

  /** Every label index stays within `depth` enclosing labels. */
  predicate Within(code: Code, depth: nat)
    decreases code
  {
    code.Cons? ==> WithinInstr(code.ins, depth) && Within(code.next, depth)
  }

  predicate WithinInstr(ins: Instr, depth: nat)
    decreases ins
  {
    match ins
    case Block(_, in1, _) => Within(in1, depth + 1)
    case Loop(_, in1, _) => Within(in1, depth + 1)
    case If(_, in1, in2) => Within(in1, depth + 1) && Within(in2, depth + 1)
    case Br(k) => k < depth
    case BrIf(k) => k < depth
    case BrTable(ls, d) => d < depth && forall i :: 0 <= i < |ls| ==> ls[i] < depth
    case _ => true
  }

  function Stale(C: Context, old_: seq<seq<ValType>>): Context { C.(labels := old_ + C.labels) }

  /** Two results of the same check, once the label indices are known to be in range. */
  predicate SameIf<T(==)>(fresh_: Result<T>, stale: Result<T>, inRange: bool) {
    (fresh_.Ok? <==> stale.Ok? && inRange) && (fresh_.Ok? ==> fresh_ == stale)
  }

  lemma StaleLabel(C: Context, old_: seq<seq<ValType>>, k: nat)
    ensures SameIf(LabelType(C, k), LabelType(Stale(C, old_), k), k < |C.labels|)
  {
  }

  lemma StaleInner(C: Context, old_: seq<seq<ValType>>, l: seq<ValType>)
    ensures WithLabel(Stale(C, old_), l) == Stale(WithLabel(C, l), old_)
  {
    assert (old_ + C.labels) + [l] == old_ + (C.labels + [l]);
  }

  lemma {:induction false} StaleCheck(C: Context, old_: seq<seq<ValType>>, ins: Instr, ts: TypeStack)
    ensures SameIf(Check(C, ins, ts), Check(Stale(C, old_), ins, ts), WithinInstr(ins, |C.labels|))
    decreases ins, 1
  {
    hide Retype, Leave, CheckBody, CheckTargets, CheckPlain;
    match ins {
      case Block(bt, in1, _) =>
        if BlockTypeOf(C, bt).Ok? {
          var ft := BlockTypeOf(C, bt).value;
          StaleInner(C, old_, ft.rt2);
          StaleBody(WithLabel(C, ft.rt2), old_, in1, ft.rt1, ft.rt2);
        }
      case Loop(bt, in1, _) =>
        if BlockTypeOf(C, bt).Ok? {
          var ft := BlockTypeOf(C, bt).value;
          StaleInner(C, old_, ft.rt1);
          StaleBody(WithLabel(C, ft.rt1), old_, in1, ft.rt1, ft.rt2);
        }
      case If(bt, in1, in2) =>
        if BlockTypeOf(C, bt).Ok? {
          var ft := BlockTypeOf(C, bt).value;
          StaleInner(C, old_, ft.rt2);
          StaleBody(WithLabel(C, ft.rt2), old_, in1, ft.rt1, ft.rt2);
          StaleBody(WithLabel(C, ft.rt2), old_, in2, ft.rt1, ft.rt2);
        }
      case Br(k) => StaleLabel(C, old_, k);
      case BrIf(k) => StaleLabel(C, old_, k);
      case BrTable(ls, d) =>
        StaleLabel(C, old_, d);
        if LabelType(C, d).Ok? {
          StaleTargets(C, old_, ls, LabelType(C, d).value, ts);
        }
      case Plain(op) => StalePlain(C, old_, op, ts);
      case _ =>
    }
  }

  lemma StalePlain(C: Context, old_: seq<seq<ValType>>, op: Plain, ts: TypeStack)
    ensures CheckPlain(Stale(C, old_), op, ts) == CheckPlain(C, op, ts)
  {
  }

  lemma {:induction false} StaleTargets(C: Context, old_: seq<seq<ValType>>, ls: seq<U32>, rt: seq<ValType>, ts: TypeStack)
    ensures SameIf(CheckTargets(C, ls, rt, ts), CheckTargets(Stale(C, old_), ls, rt, ts),
                   forall i :: 0 <= i < |ls| ==> ls[i] < |C.labels|)
    decreases |ls|
  {
    hide Leave, TryPop;
    if ls != [] {
      StaleLabel(C, old_, ls[0]);
      forall i | 0 < i < |ls| ensures ls[i] == ls[1..][i - 1] {
      }
      forall i | 0 <= i < |ls[1..]| ensures ls[1..][i] == ls[i + 1] {
      }
      if LabelType(C, ls[0]).Ok? && TryPop(ts, I32).Ok? {
        var l := Leave(TryPop(ts, I32).value, LabelType(C, ls[0]).value);
        if l.Ok? {
          StaleTargets(C, old_, ls[1..], rt, l.value);
        }
      }
    }
  }

  lemma {:induction false} StaleSeq(C: Context, old_: seq<seq<ValType>>, code: Code, ts: TypeStack)
    ensures SameIf(CheckSeq(C, code, ts), CheckSeq(Stale(C, old_), code, ts), Within(code, |C.labels|))
    decreases code, 0
  {
    hide Check, WithinInstr;
    if code.Cons? {
      StaleCheck(C, old_, code.ins, ts);
      if Check(C, code.ins, ts).Ok? {
        StaleSeq(C, old_, code.next, Check(C, code.ins, ts).value);
      }
    }
  }

  lemma {:induction false} StaleBody(C: Context, old_: seq<seq<ValType>>, code: Code, rt1: seq<ValType>, rt2: seq<ValType>)
    ensures SameIf(CheckBody(C, code, rt1, rt2), CheckBody(Stale(C, old_), code, rt1, rt2), Within(code, |C.labels|))
    decreases code, 1
  {
    hide CheckSeq, CheckEnd, Within;
    StaleSeq(C, old_, code, TypeStack(rt1, false));
  }

  /** validate_func leaves its label in the list. A later function is judged as in a fresh
      context exactly when none of its label indices leaves the function. */
  lemma LeftoverLabels(C: Context, old_: seq<seq<ValType>>, func: Func)
    requires C.labels == [] && func.typeidx < |C.types|
    ensures CheckFunc(C, func).Ok? <==> CheckFunc(Stale(C, old_), func).Ok? && Within(func.body, 1)
  {
    var ft := C.types[func.typeidx];
    var C1 := FuncContext(C, ft, func);
    assert C1.labels == [ft.rt2];
    assert FuncContext(Stale(C, old_), ft, func) == Stale(C1, old_) by {
      assert (old_ + []) + [ft.rt2] == old_ + [ft.rt2];
      assert old_ + C1.labels == old_ + [ft.rt2];
    }
    StaleBody(C1, old_, func.body, [], ft.rt2);
  }

  // ---------------------------------------------------------------- zeroed locals

  /** Locals start as zero bits. That is the default value of every declared type exactly when
      no local is a reference, whose default is null. */
  lemma ZeroIsDefault(types: seq<ValType>)
    ensures (forall i :: 0 <= i < |types| ==> ZeroVals(types)[i] == DefaultVal(types[i]))
            <==> (forall i :: 0 <= i < |types| ==> types[i] != FUNCREF && types[i] != EXTERNREF)
  {
    if exists i :: 0 <= i < |types| && (types[i] == FUNCREF || types[i] == EXTERNREF) {
      var i :| 0 <= i < |types| && (types[i] == FUNCREF || types[i] == EXTERNREF);
      assert ZeroVals(types)[i] != DefaultVal(types[i]);
    }
  }

  /** The default value of a type, section 4.2.1 of the WebAssembly Core Specification 2.0. */
  function DefaultVal(t: ValType): Val {
    if t == FUNCREF || t == EXTERNREF then ValRef(t, NULL_REF) else Val(t, 0)
  }
}
