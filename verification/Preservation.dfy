/** Step by step: in every state that the machine reaches in accepted code, the values above
    each label have the types that the validator computed for that point of the program, and
    every label, frame and instance is where the next instruction looks for it. */
module Preservation {
  import opened Syntax
  import opened Runtime
  import opened Machine
  import opened Semantics
  import opened StackLemmas
  import opened Simulation
  import opened Typing
  import opened Invariants
  import opened Soundness
  import opened Theorems

  // ---------------------------------------------------------------- typed states

  /** One label and what stands above it. The validator checks `list` from `ft.rt1` to `ft.rt2`;
      the machine is at `at` in it, where the check has types `ts`. On top, `vals` have these
      types. Further down, `at` is the block that was entered, and its operands are gone. */
  datatype Level = Level(lab: Obj, list: Code, ft: FuncType, at: Code, ts: seq<ValType>, vals: seq<Val>)

  /** The check of `code` from types `ts0` comes to `at` with types `ts`. */
  ghost predicate Arrives(C: Context, code: Code, ts0: seq<ValType>, at: Code, ts: seq<ValType>)
    decreases code
  {
    || (code == at && ts0 == ts)
    || (code.Cons? && Check(C, code.ins, TypeStack(ts0, false)).Ok? &&
        var r := Check(C, code.ins, TypeStack(ts0, false)).value;
        !r.poly && NoAny(r.types) && Arrives(C, code.next, r.types, at, ts))
  }

  ghost predicate LevelOk(C: Context, l: Level) {
    && Checks(true, C, l.list, l.ft.rt1, l.ft.rt2) && WellFormed(l.list, true)
    && Arrives(C, l.list, l.ft.rt1, l.at, l.ts) && l.at.Cons?
    && C.labels != [] && l.lab.OLabel? && l.lab.arity == |C.labels[|C.labels| - 1]|
  }

  /** The operands of a block instruction: its parameters, and the condition of an `if`. */
  function Operands(ins: Instr, ft: FuncType): nat { |ft.rt1| + if ins.If? then 1 else 0 }

  /** `vals` are left of operands of types `ts` once the block `ins` of type `ft` is entered, and
      its results will go on top of them. */
  ghost predicate Waiting(nf: nat, C: Context, ins: Instr, ft: FuncType, ts: seq<ValType>, vals: seq<Val>) {
    var n := Operands(ins, ft);
    && n <= |ts| && Matches(true, nf, vals, ts[..|ts| - n])
    && Check(C, ins, TypeStack(ts, false)) == Ok(TypeStack(ts[..|ts| - n] + ft.rt2, false))
    && (ins.Loop? ==> ts == ts[..|ts| - n] + ft.rt1)
  }

  /** Level `i` was entered from level `o`; `l` is the type of its label. */
  ghost predicate Entered(nf: nat, C: Context, o: Level, i: Level, l: seq<ValType>) {
    && o.at.Cons? && (o.at.ins.Block? || o.at.ins.Loop? || o.at.ins.If?)
    && BlockTypeOf(C, o.at.ins.bt) == Ok(i.ft)
    && i.lab == OLabel(|l|, o.at, if o.at.ins.Loop? then o.at else END_CODE)
    && l == (if o.at.ins.Loop? then i.ft.rt1 else i.ft.rt2)
    && (i.list == o.at.ins.in1 || (o.at.ins.If? && (i.list == o.at.ins.in2 || i.list == END_CODE)))
    && Waiting(nf, C, o.at.ins, i.ft, o.ts, o.vals) && NoAny(o.ts) && NoAny(i.ft.rt2)
  }

  /** The context of level `i`: the labels up to its own. */
  function Outer(C: Context, i: nat): Context
    requires i < |C.labels|
  {
    C.(labels := C.labels[..i + 1])
  }

  ghost predicate LevelsOk(nf: nat, C: Context, ls: seq<Level>) {
    && |C.labels| == |ls| > 0 && C.ret.Some?
    && (forall i :: 0 <= i < |ls| ==> LevelOk(Outer(C, i), ls[i]))
    && ls[0].lab == OLabel(|C.ret.value|, Nil, END_CODE) && ls[0].ft.rt2 == C.ret.value == C.labels[0]
    && (forall i :: 0 <= i < |ls| - 1 ==> Entered(nf, Outer(C, i), ls[i], ls[i + 1], C.labels[i + 1]))
  }

  ghost predicate FrameOk(C: Context, frame: Obj, S: Store) {
    && frame.OFrame? && C.ret.Some? && frame.arity == |C.ret.value|
    && Linked(S, frame.inst, C) && StoreOk(true, S) && CleanContext(C)
    && Matches(true, |S.funcs|, frame.locals, C.locals)
  }

  ghost predicate StateOk(C: Context, body: Code, base: Stk, frame: Obj, ls: seq<Level>, S: Store) {
    && FrameOk(C, frame, S) && LevelsOk(|S.funcs|, C, ls)
    && Matches(true, |S.funcs|, ls[|ls| - 1].vals, ls[|ls| - 1].ts)
    && ls[0].list == body && |Whole(base, frame, ls)| <= CAPACITY
  }

  function Flat(ls: seq<Level>): Stk {
    if ls == [] then [] else
    var n := |ls| - 1;
    Flat(ls[..n]) + [ls[n].lab] + OVals(ls[n].vals)
  }

  function Whole(base: Stk, frame: Obj, ls: seq<Level>): Stk { base + [frame] + Flat(ls) }

  /** The stack up to and with the label of level `j`. */
  function Upto(base: Stk, frame: Obj, ls: seq<Level>, j: nat): Stk
    requires j < |ls|
  {
    base + [frame] + Flat(ls[..j]) + [ls[j].lab]
  }

  /** A typed state of this activation, whatever its labels. */
  ghost predicate Reached(C: Context, body: Code, base: Stk, ip: Code, s: Stk, S: Store) {
    exists C': Context, frame: Obj, ls: seq<Level> ::
      C' == C.(labels := C'.labels) && ls != [] && StateOk(C', body, base, frame, ls, S) && s == Whole(base, frame, ls) && ls[|ls| - 1].at == ip
  }

  /** The activation is over, with its results on top. */
  ghost predicate Finished(C: Context, body: Code, base: Stk, s: Stk, S: Store) {
    && C.ret.Some? && StoreOk(true, S)
    && CanPop(s, |C.ret.value|) && Matches(true, |S.funcs|, Top(s, |C.ret.value|), C.ret.value)
    && |base| + |C.ret.value| < |s| <= CAPACITY && s[..|base|] == base && s[|base|].OFrame?
    && forall i :: |base| < i < |s| ==> !s[i].OFrame?
  }

  // ---------------------------------------------------------------- where a level stands

  lemma {:induction false} ArrivesNext(C: Context, code: Code, ts0: seq<ValType>, at: Code, ts: seq<ValType>, ts': seq<ValType>)
    requires Arrives(C, code, ts0, at, ts) && at.Cons?
    requires Check(C, at.ins, TypeStack(ts, false)) == Ok(TypeStack(ts', false)) && NoAny(ts')
    ensures Arrives(C, code, ts0, at.next, ts')
    decreases code
  {
    hide Check, NoAny;
    if !(code == at && ts0 == ts) {
      ArrivesNext(C, code.next, Check(C, code.ins, TypeStack(ts0, false)).value.types, at, ts, ts');
    }
  }

  lemma {:induction false} ArrivesChecks(C: Context, code: Code, ts0: seq<ValType>, at: Code, ts: seq<ValType>, rt2: seq<ValType>)
    requires Arrives(C, code, ts0, at, ts) && at.Cons? && WellFormed(code, true) && Checks(true, C, code, ts0, rt2)
    ensures Checks(true, C, at, ts, rt2) && WellFormed(at, true)
    decreases code
  {
    hide Check, Checks, NoAny;
    if !(code == at && ts0 == ts) {
      var r := Check(C, code.ins, TypeStack(ts0, false)).value;
      assert r == TypeStack(r.types, false);
      ChecksNext(true, C, code, ts0, r.types, rt2);
      ArrivesChecks(C, code.next, r.types, at, ts, rt2);
    }
  }

  lemma LevelHere(C: Context, l: Level)
    requires LevelOk(C, l)
    ensures Checks(true, C, l.at, l.ts, l.ft.rt2) && WellFormed(l.at, true)
    ensures Check(C, l.at.ins, TypeStack(l.ts, false)).Ok? && PremiseInstr(true, C, l.at.ins, TypeStack(l.ts, false)) && NoAny(l.ts) && NoAny(l.ft.rt2)
    ensures !l.at.ins.End? && !l.at.ins.Else? ==> l.at.next.Cons?
  {
    hide Check, Checks, Arrives, PremiseInstr, NoAny;
    ArrivesChecks(C, l.list, l.ft.rt1, l.at, l.ts, l.ft.rt2);
    CheckOk(true, C, l.at, l.ts, l.ft.rt2);
  }

  // ---------------------------------------------------------------- the stack of a state

  lemma WholeUpto(base: Stk, frame: Obj, ls: seq<Level>)
    requires ls != []
    ensures Whole(base, frame, ls) == Upto(base, frame, ls, |ls| - 1) + OVals(ls[|ls| - 1].vals)
  {
  }

  lemma FlatOver(ls: seq<Level>, j: nat, l: Level)
    requires j <= |ls|
    ensures Flat(ls[..j] + [l]) == Flat(ls[..j]) + [l.lab] + OVals(l.vals)
  {
    assert (ls[..j] + [l])[..j] == ls[..j];
  }

  lemma UptoNext(base: Stk, frame: Obj, ls: seq<Level>, j: nat)
    requires j + 1 < |ls|
    ensures Upto(base, frame, ls, j + 1) == Upto(base, frame, ls, j) + OVals(ls[j].vals) + [ls[j + 1].lab]
  {
    assert ls[..j + 1] == ls[..j] + [ls[j]];
    FlatOver(ls, j, ls[j]);
  }

  /** In `s` the k-th innermost label is that of level `i`, on top of the levels below. */
  ghost predicate LabelPlace(s: Stk, k: nat, base: Stk, frame: Obj, ls: seq<Level>, i: nat)
    requires i < |ls|
  {
    var p := |base| + 1 + |Flat(ls[..i])|;
    LabelAt(s, k) == Some(p) && p < |s| && s[..p] == base + [frame] + Flat(ls[..i]) && s[p] == ls[i].lab
  }

  /** No frame but the activation's own. */
  ghost predicate OneFrame(s: Stk, base: Stk) { forall i :: |base| < i < |s| ==> !s[i].OFrame? }

  /** The labels of a state, and no frame above its own. */
  lemma {:induction false} LabelsOf(base: Stk, frame: Obj, ls: seq<Level>, j: nat, k: nat)
    requires k <= j < |ls| && frame.OFrame? && forall i :: 0 <= i < |ls| ==> ls[i].lab.OLabel?
    ensures var s := Upto(base, frame, ls, j); LabelPlace(s, k, base, frame, ls, j - k) && OneFrame(s, base)
    decreases j
  {
    hide LabelAt, Flat, LabelPlace, OneFrame, Upto;
    if j == 0 {
      BottomLabel(base, frame, ls);
    } else {
      LabelsOf(base, frame, ls, j - 1, if k == 0 then 0 else k - 1);
      if k == 0 {
        TopLabelPlace(base, frame, ls, j);
      } else {
        LowerLabelPlace(base, frame, ls, j, k);
      }
      FramesNext(base, frame, ls, j);
    }
  }

  lemma BottomLabel(base: Stk, frame: Obj, ls: seq<Level>)
    requires ls != [] && frame.OFrame? && ls[0].lab.OLabel?
    ensures var s := Upto(base, frame, ls, 0); LabelPlace(s, 0, base, frame, ls, 0) && OneFrame(s, base)
  {
    hide LabelAt;
    assert ls[..0] == [];
    LabelAtSnoc(base + [frame], ls[0].lab, 0);
    var s := Upto(base, frame, ls, 0);
    assert s == base + [frame] + [ls[0].lab];
    assert s[..|base| + 1] == base + [frame];
  }

  lemma TopLabelPlace(base: Stk, frame: Obj, ls: seq<Level>, j: nat)
    requires j < |ls| && ls[j].lab.OLabel?
    ensures LabelPlace(Upto(base, frame, ls, j), 0, base, frame, ls, j)
  {
    hide LabelAt, Flat;
    var below, s := base + [frame] + Flat(ls[..j]), Upto(base, frame, ls, j);
    LabelAtSnoc(below, ls[j].lab, 0);
    assert s == below + [ls[j].lab] && s[..|below|] == below;
  }

  lemma LowerLabelPlace(base: Stk, frame: Obj, ls: seq<Level>, j: nat, k: nat)
    requires 0 < k <= j < |ls| && ls[j].lab.OLabel? && LabelPlace(Upto(base, frame, ls, j - 1), k - 1, base, frame, ls, j - k)
    ensures LabelPlace(Upto(base, frame, ls, j), k, base, frame, ls, j - k)
  {
    hide LabelAt, Flat, Upto;
    UptoNext(base, frame, ls, j - 1);
    var below, s := Upto(base, frame, ls, j - 1), Upto(base, frame, ls, j);
    InnerLabel(below, ls[j - 1].vals, ls[j].lab, k);
    var p := |base| + 1 + |Flat(ls[..j - k])|;
    assert s[..p] == below[..p];
  }

  lemma FramesNext(base: Stk, frame: Obj, ls: seq<Level>, j: nat)
    requires 0 < j < |ls| && ls[j].lab.OLabel? && OneFrame(Upto(base, frame, ls, j - 1), base)
    ensures OneFrame(Upto(base, frame, ls, j), base)
  {
    hide Upto;
    UptoNext(base, frame, ls, j - 1);
  }

  lemma EmptyFlat()
    ensures Flat([]) == []
  {
  }

  // ---------------------------------------------------------------- moving within a level

  lemma OuterTwice(C: Context, j: nat, i: nat)
    requires i <= j < |C.labels|
    ensures Outer(Outer(C, j), i) == Outer(C, i)
  {
    assert C.labels[..j + 1][..i + 1] == C.labels[..i + 1];
  }

  /** Level `j` with new values, types and place, and all levels above it gone. */
  function Cut(ls: seq<Level>, j: nat, at: Code, ts: seq<ValType>, vals: seq<Val>): seq<Level>
    requires j < |ls|
  {
    ls[..j] + [ls[j].(at := at, ts := ts, vals := vals)]
  }

  lemma CutOk(nf: nat, C: Context, ls: seq<Level>, j: nat, at: Code, ts: seq<ValType>, vals: seq<Val>)
    requires LevelsOk(nf, C, ls) && j < |ls|
    requires at.Cons? && Arrives(Outer(C, j), ls[j].list, ls[j].ft.rt1, at, ts)
    ensures LevelsOk(nf, Outer(C, j), Cut(ls, j, at, ts, vals))
  {
    hide Arrives, Checks, Check, NoAny;
    var ls', C' := Cut(ls, j, at, ts, vals), Outer(C, j);
    forall i | 0 <= i < |ls'|
      ensures LevelOk(Outer(C', i), ls'[i])
      ensures i < |ls'| - 1 ==> Entered(nf, Outer(C', i), ls'[i], ls'[i + 1], C'.labels[i + 1])
    {
      OuterTwice(C, j, i);
      assert LevelOk(Outer(C, i), ls[i]);
      if i < |ls'| - 1 {
        assert Entered(nf, Outer(C, i), ls[i], ls[i + 1], C.labels[i + 1]);
      }
    }
  }

  lemma FrameLater(C: Context, C': Context, frame: Obj, frame': Obj, S: Store, S': Store)
    requires FrameOk(C, frame, S) && frame'.OFrame? && frame' == frame.(locals := frame'.locals)
    requires C' == C.(labels := C'.labels) && forall i :: 0 <= i < |C'.labels| ==> NoAny(C'.labels[i])
    requires Matches(true, |S.funcs|, frame'.locals, C.locals) && Extends(S, S') && StoreOk(true, S')
    ensures FrameOk(C', frame', S')
  {
    hide StoreOk, NoAny;
  }

  lemma LabelsClean(C: Context, j: nat)
    requires CleanContext(C) && j < |C.labels|
    ensures CleanContext(Outer(C, j)) && forall i :: 0 <= i < |Outer(C, j).labels| ==> NoAny(Outer(C, j).labels[i])
  {
  }

  lemma Resume(C: Context, body: Code, base: Stk, frame: Obj, ls: seq<Level>, S: Store, j: nat, at: Code, ts: seq<ValType>, vals: seq<Val>,
               frame': Obj, S': Store)
    requires StateOk(C, body, base, frame, ls, S) && j < |ls|
    requires frame'.OFrame? && frame' == frame.(locals := frame'.locals) && Matches(true, |S.funcs|, frame'.locals, C.locals)
    requires Extends(S, S') && StoreOk(true, S')
    requires at.Cons? && Arrives(Outer(C, j), ls[j].list, ls[j].ft.rt1, at, ts) && Matches(true, |S.funcs|, vals, ts)
    requires |Upto(base, frame', ls, j)| + |vals| <= CAPACITY
    ensures Reached(C, body, base, at, Upto(base, frame', ls, j) + OVals(vals), S')
  {
    hide Arrives, LevelsOk, FrameOk, StoreOk, Linked, NoAny, Flat;
    assert |C.labels| == |ls| && CleanContext(C) by { Sizes(C, frame, ls, S); }
    var ls', C' := Cut(ls, j, at, ts, vals), Outer(C, j);
    CutOk(|S.funcs|, C, ls, j, at, ts, vals);
    LabelsClean(C, j);
    FrameLater(C, C', frame, frame', S, S');
    FlatOver(ls, j, ls'[j]);
    assert Whole(base, frame', ls') == Upto(base, frame', ls, j) + OVals(vals);
    assert StateOk(C', body, base, frame', ls', S');
  }

  lemma Sizes(C: Context, frame: Obj, ls: seq<Level>, S: Store)
    requires FrameOk(C, frame, S) && LevelsOk(|S.funcs|, C, ls)
    ensures |C.labels| == |ls| > 0 && CleanContext(C) && frame.OFrame? && forall i :: 0 <= i < |ls| ==> ls[i].lab.OLabel?
  {
    assert |C.labels| == |ls|;
    forall i | 0 <= i < |ls| ensures ls[i].lab.OLabel? {
      assert LevelOk(Outer(C, i), ls[i]);
    }
  }

  // ---------------------------------------------------------------- leaving a level

  /** What is left when level `j` ends or is jumped out of, with `vs` in its place. */
  lemma LeaveLevel(C: Context, body: Code, base: Stk, frame: Obj, ls: seq<Level>, S: Store, j: nat, vs: seq<Val>)
    requires StateOk(C, body, base, frame, ls, S) && j < |ls| && Matches(true, |S.funcs|, vs, ls[j].ft.rt2)
    requires |Upto(base, frame, ls, j)| + |vs| <= CAPACITY + 1
    ensures var s := base + [frame] + Flat(ls[..j]) + OVals(vs);
            if j == 0 then AfterLabel(ls[j].lab) == Nil && Finished(C, body, base, s, S)
            else AfterLabel(ls[j].lab).Cons? && Reached(C, body, base, AfterLabel(ls[j].lab), s, S)
  {
    hide Arrives, Checks, Check, NoAny, StoreOk, Linked, WellFormed, CleanContext, AllVals;
    Sizes(C, frame, ls, S);
    if j == 0 {
      assert ls[..0] == [];
      EndsFinished(C, body, base, frame, vs, S);
      assert base + [frame] + [] == base + [frame];
    } else {
      var o, i := ls[j - 1], ls[j];
      assert Entered(|S.funcs|, Outer(C, j - 1), o, i, C.labels[j]);
      assert LevelOk(Outer(C, j - 1), o);
      LevelHere(Outer(C, j - 1), o);
      var n := Operands(o.at.ins, i.ft);
      var ts0 := o.ts[..|o.ts| - n];
      JoinClean(o.ts, n, i.ft.rt2);
      ArrivesNext(Outer(C, j - 1), o.list, o.ft.rt1, o.at, o.ts, ts0 + i.ft.rt2);
      MatchesConcat(true, |S.funcs|, o.vals, ts0, vs, i.ft.rt2);
      BelowLabel(base, frame, ls, j, vs);
      Same(S);
      Resume(C, body, base, frame, ls, S, j - 1, o.at.next, ts0 + i.ft.rt2, o.vals + vs, frame, S);
    }
  }

  /** A stack cut at the label of level `j` is the stack of level `j - 1`. */
  lemma BelowLabel(base: Stk, frame: Obj, ls: seq<Level>, j: nat, vs: seq<Val>)
    requires 0 < j < |ls|
    ensures base + [frame] + Flat(ls[..j]) + OVals(vs) == Upto(base, frame, ls, j - 1) + OVals(ls[j - 1].vals + vs)
    ensures |Upto(base, frame, ls, j)| == |Upto(base, frame, ls, j - 1)| + |ls[j - 1].vals| + 1
  {
    hide Flat;
    UptoNext(base, frame, ls, j - 1);
    assert ls[..j] == ls[..j - 1] + [ls[j - 1]];
    FlatOver(ls, j - 1, ls[j - 1]);
    OValsConcat(ls[j - 1].vals, vs);
  }

  lemma Same(S: Store)
    ensures Extends(S, S)
  {
  }

  lemma EndsFinished(C: Context, body: Code, base: Stk, frame: Obj, vs: seq<Val>, S: Store)
    requires FrameOk(C, frame, S) && Matches(true, |S.funcs|, vs, C.ret.value) && |base| + 1 + |vs| <= CAPACITY
    ensures Finished(C, body, base, base + [frame] + OVals(vs), S)
  {
    hide StoreOk, Linked, CleanContext;
    PopOf(base + [frame], vs, |vs|);
    assert Take(vs, |vs|) == vs;
  }

  // ---------------------------------------------------------------- end and br

  lemma EndSteps(ip: Code, below: Stk, lab: Obj, vals: seq<Val>, S: Store)
    requires lab.OLabel?
    ensures StepEnd(below + [lab] + OVals(vals), S) == Next(AfterLabel(lab), below + OVals(vals), S)
  {
    hide TopVals;
    var s := below + [lab];
    TopValsOf(s, vals);
    PopOf(s, vals, |vals|);
    assert Drop'(vals, |vals|) == [] && s + OVals([]) == s && Take(vals, |vals|) == vals && s[..|below|] == below;
  }

  /** What a step leads to: another typed state of the activation, or its end. */
  ghost predicate Continues(C: Context, body: Code, base: Stk, ip: Code, s: Stk, S: Store) {
    if ip.Nil? then Finished(C, body, base, s, S) else Reached(C, body, base, ip, s, S)
  }

  ghost predicate StepOk(C: Context, body: Code, base: Stk, next: Code, r: Step, S: Store) {
    match r
    case Next(ip, s, S') => Extends(S, S') && Continues(C, body, base, ip, s, S')
    case Invokes(addr, s) => Calls(C, body, base, next, addr, s, S)
    case Throws(_) => true
    case StepUB => true
    case Fails => false
  }

  /** A call finds arguments of the parameter types, and any results of the result types
      bring the activation into a typed state after the call. */
  ghost predicate Calls(C: Context, body: Code, base: Stk, next: Code, addr: U32, s: Stk, S: Store) {
    && addr < |S.funcs| && |s| <= CAPACITY
    && exists rest: Stk, args: seq<Val> ::
         && s == rest + OVals(args) && Matches(true, |S.funcs|, args, S.funcs[addr].ftype.rt1)
         && AnyReturn(C, body, base, next, rest, S.funcs[addr].ftype, S)
  }

  ghost predicate AnyReturn(C: Context, body: Code, base: Stk, next: Code, rest: Stk, ft: FuncType, S: Store) {
    forall rs: seq<Val>, S': Store ::
      Matches(true, |S.funcs|, rs, ft.rt2) && Extends(S, S') && StoreOk(true, S') && |rest| + |rs| <= CAPACITY ==>
        Continues(C, body, base, next, rest + OVals(rs), S')
  }

  /** The state whose next step is at issue. */
  ghost predicate Here(C: Context, body: Code, base: Stk, frame: Obj, ls: seq<Level>, S: Store, l: Level, below: Stk) {
    StateOk(C, body, base, frame, ls, S) && l == ls[|ls| - 1] && below == Upto(base, frame, ls, |ls| - 1)
  }

  lemma HereIs(C: Context, body: Code, base: Stk, frame: Obj, ls: seq<Level>, S: Store, l: Level, below: Stk)
    requires Here(C, body, base, frame, ls, S, l, below)
    ensures Whole(base, frame, ls) == below + OVals(l.vals) && |below| + |l.vals| <= CAPACITY
    ensures |base| < |below| && below[|base|] == frame && frame.OFrame?
    ensures |C.labels| == |ls| > 0 && Outer(C, |ls| - 1) == C && LevelOk(C, l) && Matches(true, |S.funcs|, l.vals, l.ts)
    ensures Checks(true, C, l.at, l.ts, l.ft.rt2) && WellFormed(l.at, true)
    ensures Check(C, l.at.ins, TypeStack(l.ts, false)).Ok? && PremiseInstr(true, C, l.at.ins, TypeStack(l.ts, false)) && NoAny(l.ts) && NoAny(l.ft.rt2)
    ensures !l.at.ins.End? && !l.at.ins.Else? ==> l.at.next.Cons?
  {
    hide Arrives, Checks, Check, NoAny, StoreOk, Linked, WellFormed, CleanContext, Flat, PremiseInstr;
    WholeUpto(base, frame, ls);
    assert C.labels[..|ls|] == C.labels;
    LevelHere(C, l);
  }

  lemma ReadyHere(C: Context, frame: Obj, S: Store)
    requires FrameOk(C, frame, S)
    ensures Ready(true, C, Env(frame.inst, Lengths(C.labels), |C.ret.value|), S)
  {
    hide StoreOk, Linked, CleanContext;
  }

  lemma StepEndOk(C: Context, body: Code, base: Stk, frame: Obj, ls: seq<Level>, S: Store, l: Level, below: Stk)
    requires Here(C, body, base, frame, ls, S, l, below) && (l.at.ins.End? || l.at.ins.Else?)
    ensures StepOk(C, body, base, l.at.next, StepEnd(below + OVals(l.vals), S), S)
  {
    hide Checks, Check, NoAny, Flat, LevelsOk, Arrives, AfterLabel, StateOk, Finished, Reached, StepEnd;
    HereIs(C, body, base, frame, ls, S, l, below);
    SoundEnd(true, l.at, true, C, l.ts, l.ft.rt2, l.vals, S);
    EndSteps(l.at, base + [frame] + Flat(ls[..|ls| - 1]), l.lab, l.vals, S);
    LeaveLevel(C, body, base, frame, ls, S, |ls| - 1, l.vals);
    Same(S);
  }

  /** A branch to the k-th label with operands of that label's types. */
  lemma StepBrOk(C: Context, body: Code, base: Stk, frame: Obj, ls: seq<Level>, S: Store, l: Level, below: Stk, k: nat, vals: seq<Val>)
    requires Here(C, body, base, frame, ls, S, l, below) && LabelType(C, k).Ok? && |vals| <= |l.vals|
    requires |LabelType(C, k).value| <= |vals| && Matches(true, |S.funcs|, Take(vals, |LabelType(C, k).value|), LabelType(C, k).value)
    ensures StepOk(C, body, base, l.at.next, StepBr(k, l.at, below + OVals(vals), S), S)
  {
    hide Checks, Check, NoAny, Flat, Arrives, AfterLabel, Finished, Reached, StepBr, LabelAt, StoreOk, Linked, CleanContext, Whole;
    HereIs(C, body, base, frame, ls, S, l, below);
    Sizes(C, frame, ls, S);
    var n := |ls| - 1;
    var j := n - k;
    var top := Take(vals, |LabelType(C, k).value|);
    LabelsOf(base, frame, ls, n, k);
    var p := |base| + 1 + |Flat(ls[..j])|;
    assert LevelOk(Outer(C, j), ls[j]);
    assert C.labels[..j + 1][j] == C.labels[j] == LabelType(C, k).value;
    GoodLevel(C, ls, j, S);
    BrUnwinds(k, l.at, below, vals, S);
    assert StepBr(k, l.at, below + OVals(vals), S) == Next(Target(ls[j].lab), base + [frame] + Flat(ls[..j]) + OVals(top), S);
    Same(S);
    assert |Upto(base, frame, ls, j)| <= |below| by { UptoGrows(base, frame, ls, j, n); }
    BrArrives(C, body, base, frame, ls, S, j, top);
  }

  lemma {:induction false} UptoGrows(base: Stk, frame: Obj, ls: seq<Level>, j: nat, n: nat)
    requires j <= n < |ls|
    ensures |Upto(base, frame, ls, j)| <= |Upto(base, frame, ls, n)|
    decreases n
  {
    hide Upto;
    if j < n {
      UptoNext(base, frame, ls, n - 1);
      UptoGrows(base, frame, ls, j, n - 1);
    }
  }

  lemma GoodLevel(C: Context, ls: seq<Level>, j: nat, S: Store)
    requires LevelsOk(|S.funcs|, C, ls) && j < |ls|
    ensures GoodLabel(ls[j].lab) && (j == 0 ==> Target(ls[j].lab) == Nil)
  {
    hide LevelOk, Check, NoAny;
    if j > 0 {
      assert Entered(|S.funcs|, Outer(C, j - 1), ls[j - 1], ls[j], C.labels[j]);
    }
  }

  /** Where a branch to level `j` continues: at its loop with the parameters back in place, or
      after its block. */
  lemma BrArrives(C: Context, body: Code, base: Stk, frame: Obj, ls: seq<Level>, S: Store, j: nat, vs: seq<Val>)
    requires StateOk(C, body, base, frame, ls, S) && j < |ls| && |C.labels| == |ls| && Matches(true, |S.funcs|, vs, C.labels[j])
    requires |Upto(base, frame, ls, j)| + |vs| <= CAPACITY && GoodLabel(ls[j].lab)
    ensures Continues(C, body, base, Target(ls[j].lab), base + [frame] + Flat(ls[..j]) + OVals(vs), S)
  {
    hide StateOk, LevelOk, NoAny, Flat, Finished, Reached, Waiting, Matches, Upto;
    BottomLevel(C, body, base, frame, ls, S);
    if j > 0 {
      EnteredFrom(C, body, base, frame, ls, S, j);
      if ls[j - 1].at.ins.Loop? {
        LoopResumes(C, body, base, frame, ls, S, j, vs);
        return;
      }
    }
    LeaveLevel(C, body, base, frame, ls, S, j, vs);
  }

  lemma BottomLevel(C: Context, body: Code, base: Stk, frame: Obj, ls: seq<Level>, S: Store)
    requires StateOk(C, body, base, frame, ls, S)
    ensures |C.labels| == |ls| > 0 && ls[0].ft.rt2 == C.labels[0] && ls[0].lab.OLabel? && ls[0].lab.parent.Nil?
  {
  }

  lemma EnteredFrom(C: Context, body: Code, base: Stk, frame: Obj, ls: seq<Level>, S: Store, j: nat)
    requires StateOk(C, body, base, frame, ls, S) && 0 < j < |ls|
    ensures |C.labels| == |ls| && frame.OFrame? && LevelOk(Outer(C, j - 1), ls[j - 1]) && StoreOk(true, S)
    ensures Entered(|S.funcs|, Outer(C, j - 1), ls[j - 1], ls[j], C.labels[j]) && Matches(true, |S.funcs|, frame.locals, C.locals)
  {
    hide LevelOk, Entered, Matches, StoreOk;
  }

  lemma LoopResumes(C: Context, body: Code, base: Stk, frame: Obj, ls: seq<Level>, S: Store, j: nat, vs: seq<Val>)
    requires StateOk(C, body, base, frame, ls, S) && 0 < j < |ls| && |C.labels| == |ls| && Matches(true, |S.funcs|, vs, C.labels[j])
    requires |Upto(base, frame, ls, j)| + |vs| <= CAPACITY && ls[j - 1].at.Cons? && ls[j - 1].at.ins.Loop?
    ensures Reached(C, body, base, ls[j - 1].at, base + [frame] + Flat(ls[..j]) + OVals(vs), S)
  {
    hide StateOk, Checks, Check, NoAny, Flat, Arrives, Reached, Matches, StoreOk, WellFormed, Upto, Extends;
    EnteredFrom(C, body, base, frame, ls, S, j);
    var o, i := ls[j - 1], ls[j];
    var ts0 := o.ts[..|o.ts| - Operands(o.at.ins, i.ft)];
    MatchesConcat(true, |S.funcs|, o.vals, ts0, vs, i.ft.rt1);
    BelowLabel(base, frame, ls, j, vs);
    Same(S);
    Resume(C, body, base, frame, ls, S, j - 1, o.at, o.ts, o.vals + vs, frame, S);
  }

  // ---------------------------------------------------------------- block, loop and if

  lemma PushLevel(nf: nat, C: Context, ls: seq<Level>, i: Level, l: seq<ValType>)
    requires LevelsOk(nf, C, ls) && LevelOk(WithLabel(C, l), i) && Entered(nf, C, ls[|ls| - 1], i, l)
    ensures LevelsOk(nf, WithLabel(C, l), ls + [i])
  {
    hide LevelOk, Entered;
    var C', ls' := WithLabel(C, l), ls + [i];
    assert C'.labels[..|ls'|] == C'.labels && C.labels[..|ls|] == C.labels;
    forall j | 0 <= j < |ls'|
      ensures LevelOk(Outer(C', j), ls'[j])
      ensures j < |ls'| - 1 ==> Entered(nf, Outer(C', j), ls'[j], ls'[j + 1], C'.labels[j + 1])
    {
      if j < |ls| {
        assert C'.labels[..j + 1] == C.labels[..j + 1];
        assert LevelOk(Outer(C, j), ls[j]);
        assert j < |ls| - 1 ==> Entered(nf, Outer(C, j), ls[j], ls[j + 1], C.labels[j + 1]);
      }
    }
  }

  /** A block entered: its operands taken from the level below, its parameters on its label. */
  lemma Enter(C: Context, body: Code, base: Stk, frame: Obj, ls: seq<Level>, S: Store, l: Level, below: Stk, i: Level, lt: seq<ValType>,
              rest: seq<Val>)
    requires Here(C, body, base, frame, ls, S, l, below) && |C.labels| == |ls|
    requires LevelOk(WithLabel(C, lt), i) && Entered(|S.funcs|, C, l.(vals := rest), i, lt) && NoAny(lt)
    requires i.at == i.list && Matches(true, |S.funcs|, i.vals, i.ts) && |below| + |rest| + 1 + |i.vals| <= CAPACITY
    ensures Reached(C, body, base, i.list, below + OVals(rest) + [i.lab] + OVals(i.vals), S)
  {
    hide LevelOk, Entered, LevelsOk, FrameOk, StoreOk, Linked, NoAny, Flat;
    HereIs(C, body, base, frame, ls, S, l, below);
    Sizes(C, frame, ls, S);
    var n := |ls| - 1;
    var ls1, C' := Cut(ls, n, l.at, l.ts, rest), WithLabel(C, lt);
    assert LevelOk(C, l);
    assert l.at.Cons? && Arrives(C, l.list, l.ft.rt1, l.at, l.ts) by { StandsThere(C, l); }
    CutOk(|S.funcs|, C, ls, n, l.at, l.ts, rest);
    PushLevel(|S.funcs|, C, ls1, i, lt);
    Same(S);
    FrameSame(C, frame, S, lt);
    FlatOver(ls, n, ls1[n]);
    assert (ls1 + [i])[..|ls1|] == ls1;
    FlatOver(ls1 + [i], |ls1|, i);
    assert ls1 + [i] == (ls1 + [i])[..|ls1|] + [i];
    assert Whole(base, frame, ls1 + [i]) == below + OVals(rest) + [i.lab] + OVals(i.vals);
    assert C' == C.(labels := C'.labels) && StateOk(C', body, base, frame, ls1 + [i], S);
  }

  lemma StandsThere(C: Context, l: Level)
    requires LevelOk(C, l)
    ensures l.at.Cons? && Arrives(C, l.list, l.ft.rt1, l.at, l.ts) && l.lab.OLabel?
  {
  }

  lemma FrameSame(C: Context, frame: Obj, S: Store, lt: seq<ValType>)
    requires FrameOk(C, frame, S) && NoAny(lt)
    ensures FrameOk(WithLabel(C, lt), frame, S)
  {
    hide StoreOk, NoAny;
  }

  function BranchType(ins: Instr, ft: FuncType): seq<ValType> { if ins.Loop? then ft.rt1 else ft.rt2 }

  /** The label of the block instruction at `at`. */
  function BlockLabel(at: Code, ft: FuncType): Obj
    requires at.Cons?
  {
    OLabel(|BranchType(at.ins, ft)|, at, if at.ins.Loop? then at else END_CODE)
  }

  /** A block instruction of type `ft` at level `l` with its parameters `params` on top of
      `rest`, about to run `inner`. */
  ghost predicate Entering(nf: nat, C: Context, l: Level, ft: FuncType, inner: Code, rest: seq<Val>, params: seq<Val>) {
    && l.at.Cons? && (l.at.ins.Block? || l.at.ins.Loop? || l.at.ins.If?) && BlockTypeOf(C, l.at.ins.bt) == Ok(ft) && CleanType(ft)
    && (inner == l.at.ins.in1 || (l.at.ins.If? && (inner == l.at.ins.in2 || inner == END_CODE)))
    && Checks(true, WithLabel(C, BranchType(l.at.ins, ft)), inner, ft.rt1, ft.rt2) && WellFormed(inner, true)
    && Waiting(nf, C, l.at.ins, ft, l.ts, rest) && Matches(true, nf, params, ft.rt1)
  }

  lemma EnteredLevel(nf: nat, C: Context, l: Level, ft: FuncType, inner: Code, rest: seq<Val>, params: seq<Val>)
    requires Entering(nf, C, l, ft, inner, rest, params) && NoAny(l.ts)
    ensures var i, lt := Level(BlockLabel(l.at, ft), inner, ft, inner, ft.rt1, params), BranchType(l.at.ins, ft);
            LevelOk(WithLabel(C, lt), i) && Entered(nf, C, l.(vals := rest), i, lt) && NoAny(lt)
  {
    hide Checks, WellFormed, Waiting, NoAny, Matches;
    ShapeCons(inner);
  }

  lemma EnterOk(C: Context, body: Code, base: Stk, frame: Obj, ls: seq<Level>, S: Store, l: Level, below: Stk, ft: FuncType, inner: Code,
                rest: seq<Val>, params: seq<Val>)
    requires Here(C, body, base, frame, ls, S, l, below) && Entering(|S.funcs|, C, l, ft, inner, rest, params)
    requires CanPop(below + OVals(rest + params), |params|)
    ensures StepOk(C, body, base, l.at.next, PushLabel(below + OVals(rest + params), |params|, BlockLabel(l.at, ft), inner, S), S)
  {
    hide Here, Checks, Check, NoAny, Linked, Reached, WellFormed, CanPop, Top, Machine.Below, LevelOk, Entered, Whole, Extends;
    HereIs(C, body, base, frame, ls, S, l, below);
    PopOf(below, rest + params, |params|);
    assert Take(rest + params, |params|) == params && Drop'(rest + params, |params|) == rest;
    if |below| + |rest + params| + 1 <= CAPACITY {
      var i := Level(BlockLabel(l.at, ft), inner, ft, inner, ft.rt1, params);
      EnteredLevel(|S.funcs|, C, l, ft, inner, rest, params);
      Enter(C, body, base, frame, ls, S, l, below, i, BranchType(l.at.ins, ft), rest);
      assert inner.Cons? by { ShapeCons(inner); }
      Same(S);
    }
  }

  lemma ShapeCons(code: Code)
    requires WellFormed(code, true)
    ensures code.Cons?
  {
  }

  lemma JoinClean(ts: seq<ValType>, n: nat, rt: seq<ValType>)
    requires n <= |ts| && NoAny(ts) && NoAny(rt)
    ensures NoAny(ts[..|ts| - n] + rt)
  {
  }

  /** What the check of a block or loop says. */
  lemma BlockChecks(C: Context, ins: Instr, ts: seq<ValType>)
    requires (ins.Block? || ins.Loop?) && Check(C, ins, TypeStack(ts, false)).Ok? && PremiseInstr(true, C, ins, TypeStack(ts, false))
    ensures ins.bt % 0x100 != FUNCREF && BlockTypeOf(C, ins.bt).Ok?
    ensures var ft := BlockTypeOf(C, ins.bt).value;
            var lt := if ins.Loop? then ft.rt1 else ft.rt2;
            && CheckBody(WithLabel(C, lt), ins.in1, ft.rt1, ft.rt2).Ok? && Premise(true, WithLabel(C, lt), ins.in1, TypeStack(ft.rt1, false))
            && PopAll(TypeStack(ts, false), ft.rt1).Ok?
            && Check(C, ins, TypeStack(ts, false)) == Ok(PushAll(PopAll(TypeStack(ts, false), ft.rt1).value, ft.rt2))
  {
    hide CheckBody, BlockTypeOf, Premise, PopAll;
  }

  lemma BlockSteps(ip: Code, fi: nat, s: Stk, S: Store, ft: FuncType)
    requires ip.Cons? && (ip.ins.Block? || ip.ins.Loop?) && fi < |s| && s[fi].OFrame?
    requires Expand(ip.ins.bt, s[fi].inst) == Some(ft) && CanPop(s, |ft.rt1|)
    ensures StepInstr(ip, fi, s, S) ==
            PushLabel(s, |ft.rt1|, OLabel(if ip.ins.Loop? then |ft.rt1| else |ft.rt2|, ip, if ip.ins.Loop? then ip else END_CODE), ip.ins.in1, S)
  {
    hide Expand, CanPop, PushLabel;
  }

  lemma StepEnterOk(C: Context, body: Code, base: Stk, frame: Obj, ls: seq<Level>, S: Store, l: Level, below: Stk)
    requires Here(C, body, base, frame, ls, S, l, below) && l.at.Cons? && (l.at.ins.Block? || l.at.ins.Loop?)
    ensures StepOk(C, body, base, l.at.next, StepInstr(l.at, |base|, below + OVals(l.vals), S), S)
  {
    hide Checks, Check, CheckBody, NoAny, Flat, LevelsOk, StoreOk, CleanContext, WellFormed, CanPop, Top, Machine.Below, PushLabel,
         Expand, BlockTypeOf, Premise, PremiseInstr, PopAll, Linked, StepOk, StepInstr, Matches, LevelOk;
    HereIs(C, body, base, frame, ls, S, l, below);
    var vals, ts, ins := l.vals, l.ts, l.at.ins;
    BlockChecks(C, ins, ts);
    var ft := BlockTypeOf(C, ins.bt).value;
    LinkedTypes(S, frame.inst, C);
    ExpandAgrees(C, frame.inst, ins.bt);
    BlockTypeClean(C, ins.bt);
    PopTyped(true, |S.funcs|, vals, ts, ft.rt1);
    var n := |ft.rt1|;
    var rest, params := Drop'(vals, n), Take(vals, n);
    BodyChecks(true, C, if ins.Loop? then ft.rt1 else ft.rt2, ins.in1, ft);
    InnerShape(l.at);
    if ins.Loop? {
      PoppedAreThere(ts, ft.rt1);
    }
    assert rest + params == vals;
    PopOf(below, vals, n);
    assert |params| == n && (below + OVals(vals))[|base|] == frame;
    BlockSteps(l.at, |base|, below + OVals(vals), S, ft);
    EnterOk(C, body, base, frame, ls, S, l, below, ft, ins.in1, rest, params);
  }

  lemma InnerShape(code: Code)
    requires WellFormed(code, true) && (code.ins.Block? || code.ins.Loop? || code.ins.If?)
    ensures WellFormed(code.ins.in1, true)
  {
  }

  /** Off unreachable code, what was popped was there. */
  lemma PoppedAreThere(ts: seq<ValType>, rt: seq<ValType>)
    requires PopAll(TypeStack(ts, false), rt).Ok? && NoAny(ts) && NoAny(rt)
    ensures |rt| <= |ts| && ts == ts[..|ts| - |rt|] + rt
  {
    PopAllExact(ts, rt);
  }

  lemma StepIfOk(C: Context, body: Code, base: Stk, frame: Obj, ls: seq<Level>, S: Store, l: Level, below: Stk)
    requires Here(C, body, base, frame, ls, S, l, below) && l.at.Cons? && l.at.ins.If?
    ensures StepOk(C, body, base, l.at.next, StepInstr(l.at, |base|, below + OVals(l.vals), S), S)
  {
    hide Checks, CheckBody, NoAny, Flat, LevelsOk, StoreOk, CleanContext, Reached, WellFormed, CanPop, Top, Machine.Below, PushLabel,
         Expand, BlockTypeOf, Premise, PopForward, Linked, StepOk, TryPop, Taken;
    HereIs(C, body, base, frame, ls, S, l, below);
    var vals, ts, ins := l.vals, l.ts, l.at.ins;
    var ft := BlockTypeOf(C, ins.bt).value;
    LinkedTypes(S, frame.inst, C);
    ExpandAgrees(C, frame.inst, ins.bt);
    BlockTypeClean(C, ins.bt);
    PopI32(true, |S.funcs|, vals, ts);
    var ts1, vals1, c := ts[..|ts| - 1], Drop'(vals, 1), Take(vals, 1)[0];
    PopIfParams(true, |S.funcs|, vals1, ts1, ft.rt1);
    var n := |ft.rt1|;
    var rest, params := Drop'(vals1, n), Take(vals1, n);
    assert ts1[..|ts1| - n] == ts[..|ts| - Operands(ins, ft)];
    var taken := Taken(ins.in1, ins.in2, c);
    TakenChecks(true, C, l.at, true, ft, c);
    assert rest + params == vals1;
    PopOf(below, vals, 1);
    PopOf(below, vals1, n);
    TakenIs(ins.in1, ins.in2, c);
    EnterOk(C, body, base, frame, ls, S, l, below, ft, taken, rest, params);
  }

  lemma TakenIs(in1: Code, in2: Code, c: Val)
    ensures Taken(in1, in2, c) == if AsI32(c) != 0 then in1 else if in2.Cons? then in2 else END_CODE
  {
  }

  // ---------------------------------------------------------------- within a list

  /** The next instruction of the same list, with the types of the check. */
  lemma Advance(C: Context, body: Code, base: Stk, frame: Obj, ls: seq<Level>, S: Store, l: Level, below: Stk, ts: seq<ValType>,
                vals: seq<Val>, locals: seq<Val>, S': Store)
    requires Here(C, body, base, frame, ls, S, l, below) && !l.at.ins.End? && !l.at.ins.Else?
    requires Check(C, l.at.ins, TypeStack(l.ts, false)) == Ok(TypeStack(ts, false)) && NoAny(ts)
    requires Matches(true, |S.funcs|, vals, ts) && Matches(true, |S.funcs|, locals, C.locals)
    requires Extends(S, S') && StoreOk(true, S') && |below| + |vals| <= CAPACITY
    ensures |base| < |below| && frame.OFrame? && l.at.next.Cons?
    ensures Continues(C, body, base, l.at.next, below[|base| := frame.(locals := locals)] + OVals(vals), S')
  {
    hide Checks, Check, NoAny, Flat, StoreOk, CleanContext, Reached, WellFormed, Linked, Arrives, LevelsOk;
    HereIs(C, body, base, frame, ls, S, l, below);
    var n, frame' := |ls| - 1, frame.(locals := locals);
    StandsThere(C, l);
    ArrivesNext(C, l.list, l.ft.rt1, l.at, l.ts, ts);
    assert below[|base| := frame'] == Upto(base, frame', ls, n);
    Resume(C, body, base, frame, ls, S, n, l.at.next, ts, vals, frame', S');
  }

  lemma AdvanceSame(C: Context, body: Code, base: Stk, frame: Obj, ls: seq<Level>, S: Store, l: Level, below: Stk, ts: seq<ValType>, vals: seq<Val>, S': Store)
    requires Here(C, body, base, frame, ls, S, l, below) && !l.at.ins.End? && !l.at.ins.Else?
    requires Check(C, l.at.ins, TypeStack(l.ts, false)) == Ok(TypeStack(ts, false)) && NoAny(ts)
    requires Matches(true, |S.funcs|, vals, ts) && Extends(S, S') && StoreOk(true, S') && |below| + |vals| <= CAPACITY
    ensures l.at.next.Cons? && Continues(C, body, base, l.at.next, below + OVals(vals), S')
  {
    hide Checks, Check, NoAny, Flat, StoreOk, CleanContext, Continues, WellFormed, Linked, Arrives, LevelsOk;
    HereIs(C, body, base, frame, ls, S, l, below);
    Advance(C, body, base, frame, ls, S, l, below, ts, vals, frame.locals, S');
    assert below[|base| := frame] == below;
  }

  /** A plain instruction on the machine's stack is its effect on the values above the label. */
  lemma PlainSteps(op: Plain, next: Code, fi: nat, below: Stk, vals: seq<Val>, S: Store)
    requires fi < |below| && below[fi].OFrame? && !PlainEffect(op, vals, below[fi].locals, S, below[fi].inst, |below|).Wrong?
    ensures StepPlain(op, next, fi, below + OVals(vals), S) ==
            match PlainEffect(op, vals, below[fi].locals, S, below[fi].inst, |below|)
            case Traps(e) => Throws(e)
            case EffectUB => StepUB
            case Did(vals', locals, S') => Next(next, below[fi := below[fi].(locals := locals)] + OVals(vals'), S')
    ensures var e := PlainEffect(op, vals, below[fi].locals, S, below[fi].inst, |below|);
            e.Did? ==> |below| + |e.results| <= CAPACITY
  {
    hide Perform, CanPop, Top, Machine.Below;
    var n := Pops(op);
    if n <= |vals| {
      PopOf(below, vals, n);
      var rest := Drop'(vals, n);
      var s1 := below + OVals(rest);
      assert s1[fi] == below[fi] && (below + OVals(vals))[fi] == below[fi];
      if |s1| + Pushes(op) <= CAPACITY {
        PerformKeepsFuncs(op, Take(vals, n), below[fi].locals, S, below[fi].inst);
        var e := Perform(op, Take(vals, n), below[fi].locals, S, below[fi].inst);
        if e.Did? {
          OValsConcat(rest, e.results);
          assert s1[fi := below[fi].(locals := e.locals)] + OVals(e.results)
              == below[fi := below[fi].(locals := e.locals)] + OVals(rest + e.results);
        }
      }
    }
  }

  lemma StepPlainOk(C: Context, body: Code, base: Stk, frame: Obj, ls: seq<Level>, S: Store, l: Level, below: Stk)
    requires Here(C, body, base, frame, ls, S, l, below) && l.at.Cons? && l.at.ins.Plain?
    ensures StepOk(C, body, base, l.at.next, StepPlain(l.at.ins.op, l.at.next, |base|, below + OVals(l.vals), S), S)
  {
    hide Checks, NoAny, Flat, LevelsOk, CleanContext, Reached, WellFormed, PlainEffect, CheckPlain, Linked, Extends, CodeOk, DataOk,
         StepPlain, Finished, Ready;
    HereIs(C, body, base, frame, ls, S, l, below);
    ReadyHere(C, frame, S);
    var env := Env(frame.inst, Lengths(C.labels), |C.ret.value|);
    var op := l.at.ins.op;
    var ts := PlainTypes(true, C, env, op, l.ts, l.vals, frame.locals, S, |below|);
    PlainSteps(op, l.at.next, |base|, below, l.vals, S);
    var e := PlainEffect(op, l.vals, frame.locals, S, frame.inst, |below|);
    if e.Did? {
      CodeOkExtends(true, S, e.store);
      Advance(C, body, base, frame, ls, S, l, below, ts, e.results, e.locals, e.store);
    }
  }

  // ---------------------------------------------------------------- jumps

  lemma BrIfChecks(C: Context, k: U32, ts: seq<ValType>)
    requires Check(C, BrIf(k), TypeStack(ts, false)).Ok?
    ensures LabelType(C, k).Ok? && TryPop(TypeStack(ts, false), I32).Ok? && |ts| > 0
    ensures var rt, ts1 := LabelType(C, k).value, ts[..|ts| - 1];
            && PopAll(TypeStack(ts1, false), rt).Ok? && |rt| <= |ts1|
            && Check(C, BrIf(k), TypeStack(ts, false)) == Ok(TypeStack(ts1[..|ts1| - |rt|] + rt, false))
  {
    hide LabelType, PopAll;
    PopAllExact(ts[..|ts| - 1], LabelType(C, k).value);
  }

  lemma StepBrIfOk(C: Context, body: Code, base: Stk, frame: Obj, ls: seq<Level>, S: Store, l: Level, below: Stk)
    requires Here(C, body, base, frame, ls, S, l, below) && l.at.Cons? && l.at.ins.BrIf?
    ensures StepOk(C, body, base, l.at.next, StepInstr(l.at, |base|, below + OVals(l.vals), S), S)
  {
    hide Checks, NoAny, Flat, LevelsOk, StoreOk, CleanContext, Reached, WellFormed, CanPop, Top, Machine.Below, Linked, StepOk,
         StepBr, Continues, LabelType, Ready, Check, TryPop, PopAll, PremiseInstr;
    HereIs(C, body, base, frame, ls, S, l, below);
    ReadyHere(C, frame, S);
    var k := l.at.ins.labelidx;
    BrIfChecks(C, k, l.ts);
    var rt := LabelType(C, k).value;
    LabelTypes(true, C, Env(frame.inst, Lengths(C.labels), |C.ret.value|), S, k);
    PopI32(true, |S.funcs|, l.vals, l.ts);
    var ts1, vals1 := l.ts[..|l.ts| - 1], Drop'(l.vals, 1);
    PopTyped(true, |S.funcs|, vals1, ts1, rt);
    PopOf(below, l.vals, 1);
    if AsI32(Take(l.vals, 1)[0]) == 0 {
      var ts2 := ts1[..|ts1| - |rt|] + rt;
      JoinClean(ts1, |rt|, rt);
      MatchesConcat(true, |S.funcs|, Drop'(vals1, |rt|), ts1[..|ts1| - |rt|], Take(vals1, |rt|), rt);
      assert vals1 == Drop'(vals1, |rt|) + Take(vals1, |rt|);
      Same(S);
      AdvanceSame(C, body, base, frame, ls, S, l, below, ts2, vals1, S);
      NextOk(C, body, base, l.at.next, l.at.next, below + OVals(vals1), S);
    } else {
      StepBrOk(C, body, base, frame, ls, S, l, below, k, vals1);
    }
  }

  lemma NextOk(C: Context, body: Code, base: Stk, next: Code, ip: Code, s: Stk, S: Store)
    requires Continues(C, body, base, ip, s, S)
    ensures StepOk(C, body, base, next, Next(ip, s, S), S)
  {
    hide Continues;
    Same(S);
  }

  lemma StepBrTableOk(C: Context, body: Code, base: Stk, frame: Obj, ls: seq<Level>, S: Store, l: Level, below: Stk)
    requires Here(C, body, base, frame, ls, S, l, below) && l.at.Cons? && l.at.ins.BrTable?
    ensures StepOk(C, body, base, l.at.next, StepInstr(l.at, |base|, below + OVals(l.vals), S), S)
  {
    hide Checks, NoAny, Flat, LevelsOk, StoreOk, CleanContext, Reached, WellFormed, CanPop, Top, Machine.Below, Linked, StepOk,
         StepBr, Continues, Ready, Check;
    HereIs(C, body, base, frame, ls, S, l, below);
    ReadyHere(C, frame, S);
    var env := Env(frame.inst, Lengths(C.labels), |C.ret.value|);
    SoundBrTable(true, 0, l.at.ins.defaultLabel, l.at, C, env, l.ts, l.ft.rt2, l.vals, frame.locals, S);
    var k := TableTarget(l.at.ins.labels, l.at.ins.defaultLabel, AsI32(Take(l.vals, 1)[0]));
    SoundBrTable(true, 0, k, l.at, C, env, l.ts, l.ft.rt2, l.vals, frame.locals, S);
    PopOf(below, l.vals, 1);
    var vals1 := Drop'(l.vals, 1);
    LabelTypes(true, C, env, S, k) by { assert LabelType(C, k).Ok?; }
    StepBrOk(C, body, base, frame, ls, S, l, below, k, vals1);
  }

  lemma StepBranchOk(C: Context, body: Code, base: Stk, frame: Obj, ls: seq<Level>, S: Store, l: Level, below: Stk)
    requires Here(C, body, base, frame, ls, S, l, below) && l.at.Cons? && l.at.ins.Br?
    ensures StepOk(C, body, base, l.at.next, StepBr(l.at.ins.labelidx, l.at, below + OVals(l.vals), S), S)
  {
    hide Checks, NoAny, Flat, LevelsOk, StoreOk, CleanContext, Reached, WellFormed, Linked, StepOk, StepBr, LabelType, Ready;
    HereIs(C, body, base, frame, ls, S, l, below);
    ReadyHere(C, frame, S);
    var k := l.at.ins.labelidx;
    LabelTypes(true, C, Env(frame.inst, Lengths(C.labels), |C.ret.value|), S, k);
    PopTyped(true, |S.funcs|, l.vals, l.ts, LabelType(C, k).value);
    StepBrOk(C, body, base, frame, ls, S, l, below, k, l.vals);
  }

  lemma StepReturnOk(C: Context, body: Code, base: Stk, frame: Obj, ls: seq<Level>, S: Store, l: Level, below: Stk)
    requires Here(C, body, base, frame, ls, S, l, below) && l.at.Cons? && l.at.ins.Return?
    ensures Finished(C, body, base, below + OVals(l.vals), S)
  {
    hide Checks, NoAny, Flat, LevelsOk, StoreOk, CleanContext, WellFormed, Linked, LabelAt;
    HereIs(C, body, base, frame, ls, S, l, below);
    Sizes(C, frame, ls, S);
    assert NoAny(C.ret.value) by { RetClean(C); }
    PopTyped(true, |S.funcs|, l.vals, l.ts, C.ret.value);
    PopOf(below, l.vals, |C.ret.value|);
    LabelsOf(base, frame, ls, |ls| - 1, 0);
    assert (below + OVals(l.vals))[..|base|] == base;
  }

  lemma RetClean(C: Context)
    requires CleanContext(C) && C.ret.Some?
    ensures NoAny(C.ret.value)
  {
  }

  // ---------------------------------------------------------------- calls

  lemma CallOkHere(C: Context, body: Code, base: Stk, frame: Obj, ls: seq<Level>, S: Store, l: Level, below: Stk, ts: seq<ValType>, vals: seq<Val>, addr: U32)
    requires Here(C, body, base, frame, ls, S, l, below) && l.at.Cons? && (l.at.ins.Call? || l.at.ins.CallIndirect?)
    requires addr < |S.funcs| && Matches(true, |S.funcs|, vals, ts) && NoAny(ts) && |vals| <= |l.vals|
    requires var ft := S.funcs[addr].ftype;
             && CleanType(ft) && PopAll(TypeStack(ts, false), ft.rt1).Ok? && |ft.rt1| <= |ts|
             && Check(C, l.at.ins, TypeStack(l.ts, false)) == Ok(TypeStack(ts[..|ts| - |ft.rt1|] + ft.rt2, false))
    ensures Calls(C, body, base, l.at.next, addr, below + OVals(vals), S)
  {
    hide Checks, Check, NoAny, Here, StoreOk, Extends, Continues, PopAll, Matches, LevelOk, PremiseInstr, WellFormed, Whole;
    HereIs(C, body, base, frame, ls, S, l, below);
    var ft := S.funcs[addr].ftype;
    var n := |ft.rt1|;
    SameCount(|S.funcs|, vals, ts);
    PopTyped(true, |S.funcs|, vals, ts, ft.rt1);
    var rest, args := Drop'(vals, n), Take(vals, n);
    OValsConcat(rest, args);
    assert vals == rest + args;
    JoinClean(ts, n, ft.rt2);
    forall rs: seq<Val>, S': Store
      | Matches(true, |S.funcs|, rs, ft.rt2) && Extends(S, S') && StoreOk(true, S') && |below + OVals(rest)| + |rs| <= CAPACITY
      ensures Continues(C, body, base, l.at.next, below + OVals(rest) + OVals(rs), S')
    {
      ReturnOkHere(C, body, base, frame, ls, S, l, below, ts[..|ts| - n], ft.rt2, rest, rs, S');
    }
    assert AnyReturn(C, body, base, l.at.next, below + OVals(rest), ft, S);
    assert below + OVals(vals) == below + OVals(rest) + OVals(args);
  }

  /** Results of a call on the values `rest` that its arguments stood on. */
  lemma ReturnOkHere(C: Context, body: Code, base: Stk, frame: Obj, ls: seq<Level>, S: Store, l: Level, below: Stk, ts: seq<ValType>,
                     rt2: seq<ValType>, rest: seq<Val>, rs: seq<Val>, S': Store)
    requires Here(C, body, base, frame, ls, S, l, below) && l.at.Cons? && (l.at.ins.Call? || l.at.ins.CallIndirect?)
    requires Check(C, l.at.ins, TypeStack(l.ts, false)) == Ok(TypeStack(ts + rt2, false)) && NoAny(ts + rt2)
    requires Matches(true, |S.funcs|, rest, ts) && Matches(true, |S.funcs|, rs, rt2)
    requires Extends(S, S') && StoreOk(true, S') && |below| + |rest| + |rs| <= CAPACITY
    ensures Continues(C, body, base, l.at.next, below + OVals(rest) + OVals(rs), S')
  {
    hide Check, NoAny, Here, StoreOk, Extends, Continues, Matches;
    MatchesConcat(true, |S.funcs|, rest, ts, rs, rt2);
    OValsConcat(rest, rs);
    assert below + OVals(rest) + OVals(rs) == below + OVals(rest + rs);
    AdvanceSame(C, body, base, frame, ls, S, l, below, ts + rt2, rest + rs, S');
  }

  lemma StepCallOk(C: Context, body: Code, base: Stk, frame: Obj, ls: seq<Level>, S: Store, l: Level, below: Stk)
    requires Here(C, body, base, frame, ls, S, l, below) && l.at.Cons? && l.at.ins.Call?
    ensures StepOk(C, body, base, l.at.next, StepInstr(l.at, |base|, below + OVals(l.vals), S), S)
  {
    hide Checks, NoAny, Flat, LevelsOk, StoreOk, WellFormed, PopAll, Calls;
    HereIs(C, body, base, frame, ls, S, l, below);
    var x := l.at.ins.funcidx;
    var ft := C.funcs[x];
    assert S.funcs[frame.inst.funcaddrs[x]].ftype == ft;
    PopTyped(true, |S.funcs|, l.vals, l.ts, ft.rt1);
    CallOkHere(C, body, base, frame, ls, S, l, below, l.ts, l.vals, frame.inst.funcaddrs[x]);
  }

  lemma StepIndirectOk(C: Context, body: Code, base: Stk, frame: Obj, ls: seq<Level>, S: Store, l: Level, below: Stk)
    requires Here(C, body, base, frame, ls, S, l, below) && l.at.Cons? && l.at.ins.CallIndirect?
    ensures StepOk(C, body, base, l.at.next, StepInstr(l.at, |base|, below + OVals(l.vals), S), S)
  {
    hide Checks, NoAny, Flat, LevelsOk, CodeOk, WellFormed, PopAll, Calls, CanPop, Top, Machine.Below, SameTypes;
    HereIs(C, body, base, frame, ls, S, l, below);
    var y, x := l.at.ins.y, l.at.ins.x;
    var ft := C.types[y];
    PopI32(true, |S.funcs|, l.vals, l.ts);
    var ts1, vals1, c := l.ts[..|l.ts| - 1], Drop'(l.vals, 1), Take(l.vals, 1)[0];
    PopTyped(true, |S.funcs|, vals1, ts1, ft.rt1);
    IndirectResolves(C, frame.inst, y, x, c, S);
    PopOf(below, l.vals, 1);
    IndirectSteps(y, x, below, l.vals, S, frame.inst);
    var r := ResolveIndirect(y, x, c, S, frame.inst).value;
    if r.Ok? {
      CallOkHere(C, body, base, frame, ls, S, l, below, ts1, vals1, r.value);
    }
  }

  /** call_indirect on the machine's stack finds what the structured semantics resolves. */
  lemma IndirectSteps(y: U32, x: U32, below: Stk, vals: seq<Val>, S: Store, m: ModInst)
    requires vals != [] && ResolveIndirect(y, x, Take(vals, 1)[0], S, m).Some?
    ensures StepCallIndirect(y, x, below + OVals(vals), S, m) ==
            match ResolveIndirect(y, x, Take(vals, 1)[0], S, m).value
            case Err(e) => Throws(e)
            case Ok(a) => Invokes(a, below + OVals(Drop'(vals, 1)))
  {
    hide CanPop, Top, Machine.Below, SameTypes;
    PopOf(below, vals, 1);
    var elems := S.tables[m.tableaddrs[x]].elems;
    var i := AsI32(Take(vals, 1)[0]);
    if 0 <= i < |elems| && elems[i] < |S.funcs| {
      SameTypesIsEquality(m.types[y], S.funcs[elems[i]].ftype);
    }
  }

  // ---------------------------------------------------------------- one step

  /** Progress and preservation, for every instruction. In a typed state the machine is never
      stuck, and each step leads to a typed state, to the end of the activation with results of
      its types on top, or to a call with arguments of the callee's types. */
  lemma StepKeepsTypes(C: Context, body: Code, base: Stk, frame: Obj, ls: seq<Level>, S: Store)
    requires StateOk(C, body, base, frame, ls, S)
    ensures var at := ls[|ls| - 1].at;
            at.Cons? && StepOk(C, body, base, at.next, StepInstr(at, |base|, Whole(base, frame, ls), S), S)
  {
    hide Checks, Check, NoAny, Flat, LevelsOk, StoreOk, CleanContext, WellFormed, Linked, Calls, Reached, StepEnd, StepBr, StepBlock,
         StepLoop, StepIf, StepPlain, StepCallIndirect, Finished, Whole, Upto, Matches, PremiseInstr, LevelOk, FrameOk;
    Sizes(C, frame, ls, S);
    var l, below := ls[|ls| - 1], Upto(base, frame, ls, |ls| - 1);
    HereIs(C, body, base, frame, ls, S, l, below);
    StandsThere(C, l);
    Same(S);
    assert (below + OVals(l.vals))[|base|] == frame;
    match l.at.ins
    case Unreachable =>
    case Nop =>
      assert Check(C, Nop, TypeStack(l.ts, false)) == Ok(TypeStack(l.ts, false)) by { NopChecks(C, l.ts); }
      AdvanceSame(C, body, base, frame, ls, S, l, below, l.ts, l.vals, S) by { StoreHere(C, frame, S); }
    case Else => StepEndOk(C, body, base, frame, ls, S, l, below);
    case End => StepEndOk(C, body, base, frame, ls, S, l, below);
    case Block(_, _, _) => StepEnterOk(C, body, base, frame, ls, S, l, below);
    case Loop(_, _, _) => StepEnterOk(C, body, base, frame, ls, S, l, below);
    case If(_, _, _) => StepIfOk(C, body, base, frame, ls, S, l, below);
    case Br(_) => StepBranchOk(C, body, base, frame, ls, S, l, below);
    case BrIf(_) => StepBrIfOk(C, body, base, frame, ls, S, l, below);
    case BrTable(_, _) => StepBrTableOk(C, body, base, frame, ls, S, l, below);
    case Return => StepReturnOk(C, body, base, frame, ls, S, l, below);
    case Call(_) => StepCallOk(C, body, base, frame, ls, S, l, below);
    case CallIndirect(_, _) => StepIndirectOk(C, body, base, frame, ls, S, l, below);
    case Plain(_) => StepPlainOk(C, body, base, frame, ls, S, l, below);
  }

  lemma NopChecks(C: Context, ts: seq<ValType>)
    ensures Check(C, Nop, TypeStack(ts, false)) == Ok(TypeStack(ts, false))
  {
  }

  lemma StoreHere(C: Context, frame: Obj, S: Store)
    requires FrameOk(C, frame, S)
    ensures StoreOk(true, S)
  {
  }

  // ---------------------------------------------------------------- every state of a run

  /** Every state of a run, those of the functions it calls included, is typed in the context
      in which its function was accepted. */
  ghost predicate Throughout(C: Context, body: Code, base: Stk, fuel: nat, ip: Code, s: Stk, S: Store)
    decreases fuel, 1
  {
    && Continues(C, body, base, ip, s, S)
    && (ip.Cons? && fuel > 0 ==>
          match StepInstr(ip, |base|, s, S)
          case Next(ip', s', S') => Throughout(C, body, base, fuel - 1, ip', s', S')
          case Invokes(addr, s') =>
            && ThroughoutCall(fuel - 1, addr, s', S)
            && var r := Invoke(fuel - 1, addr, s', S);
               (r.Done? ==> Throughout(C, body, base, r.fuel, ip.next, r.stk, r.store))
          case Throws(_) => true
          case StepUB => true
          case Fails => false)
  }

  ghost predicate ThroughoutCall(fuel: nat, addr: U32, s: Stk, S: Store)
    decreases fuel, 2
  {
    && addr < |S.funcs| && CanPop(s, |S.funcs[addr].ftype.rt1|)
    && var f := S.funcs[addr];
       var base, slots := Machine.Below(s, |f.ftype.rt1|), FrameSlots(Top(s, |f.ftype.rt1|), f.code.locals);
       (slots.Some? && |base| + 2 <= CAPACITY ==>
          exists C: Context :: Accepted(true, S, f, C) &&
            Throughout(FuncContext(C, f.ftype, f.code), f.code.body, base, fuel, f.code.body, Entry(f, base, slots.value), S))
  }

  /** The stack on which a function body starts. */
  function Entry(f: FuncInst, base: Stk, slots: seq<Val>): Stk {
    base + [OFrame(|f.ftype.rt2|, slots, f.inst)] + [OLabel(|f.ftype.rt2|, Nil, END_CODE)]
  }

  lemma EntryTyped(C0: Context, f: FuncInst, base: Stk, args: seq<Val>, S: Store)
    requires StoreOk(true, S) && |S.funcs| > 0 && WellFormed(f.code.body, false) && Accepted(true, S, f, C0)
    requires Matches(true, |S.funcs|, args, f.ftype.rt1) && |base| + 2 <= CAPACITY
    ensures var C, slots := FuncContext(C0, f.ftype, f.code), args + ZeroVals(f.code.locals);
            Continues(C, f.code.body, base, f.code.body, Entry(f, base, slots), S)
  {
    hide StoreOk, Checks, WellFormed, CheckSeq;
    var C, rt2 := FuncContext(C0, f.ftype, f.code), f.ftype.rt2;
    var frame, lab := OFrame(|rt2|, args + ZeroVals(f.code.locals), f.inst), OLabel(|rt2|, Nil, END_CODE);
    var l := Level(lab, f.code.body, FuncType([], rt2), f.code.body, [], []);
    FunctionReady(true, S, f, C0);
    ZeroLocals(true, |S.funcs|, args, f.ftype.rt1, f.code.locals);
    WellFormedWeaken(f.code.body);
    ShapeCons(f.code.body);
    assert C.labels == [rt2] && Outer(C, 0) == C;
    assert LevelsOk(|S.funcs|, C, [l]);
    assert FrameOk(C, frame, S);
    FlatOver([l], 0, l);
    assert [l][..0] == [] && [] + [l] == [l] && OVals([]) == [];
    assert Whole(base, frame, [l]) == Entry(f, base, args + ZeroVals(f.code.locals));
    assert StateOk(C, f.code.body, base, frame, [l], S);
  }

  /** In every call of an accepted function with typed arguments, for any fuel: at every
      instruction the machine reaches, in that function and in all it calls, the values above
      each label have exactly the types of the validator's type stack at that point, and the
      machine is not stuck there. */
  lemma {:induction false} EveryStateTyped(fuel: nat, addr: U32, base: Stk, args: seq<Val>, S: Store)
    requires StoreOk(true, S) && addr < |S.funcs| && Matches(true, |S.funcs|, args, S.funcs[addr].ftype.rt1)
    requires |base| + |args| <= CAPACITY
    ensures ThroughoutCall(fuel, addr, base + OVals(args), S)
    decreases fuel, 2
  {
    hide Throughout, Continues, CodeOk, DataOk, Matches, WellFormed, Accepted, CanPop, Top, Machine.Below;
    var f := S.funcs[addr];
    assert FuncOk(true, S, f) by { FuncHere(S, addr); }
    var C :| Accepted(true, S, f, C);
    assert |args| == |f.ftype.rt1| by { SameCount(|S.funcs|, args, f.ftype.rt1); }
    PopOf(base, args, |args|);
    assert Drop'(args, |args|) == [] && base + OVals([]) == base && Take(args, |args|) == args;
    if FrameSlots(args, f.code.locals).Some? && |base| + 2 <= CAPACITY {
      assert |f.code.locals| < 0x1_0000_0000 by { FewLocals(S, f, C); }
      SlotsExact(args, f.code.locals);
      EntryTyped(C, f, base, args, S);
      RunTyped(FuncContext(C, f.ftype, f.code), f.code.body, base, fuel, f.code.body, Entry(f, base, args + ZeroVals(f.code.locals)), S);
    }
  }

  lemma FuncHere(S: Store, addr: U32)
    requires CodeOk(true, S) && addr < |S.funcs|
    ensures FuncOk(true, S, S.funcs[addr])
  {
  }

  lemma SameCount(nf: nat, vs: seq<Val>, ts: seq<ValType>)
    requires Matches(true, nf, vs, ts)
    ensures |vs| == |ts|
  {
  }

  lemma FewLocals(S: Store, f: FuncInst, C: Context)
    requires Accepted(true, S, f, C)
    ensures |f.code.locals| < 0x1_0000_0000
  {
  }

  lemma {:induction false} RunTyped(C: Context, body: Code, base: Stk, fuel: nat, ip: Code, s: Stk, S: Store)
    requires Continues(C, body, base, ip, s, S)
    ensures Throughout(C, body, base, fuel, ip, s, S)
    decreases fuel, 1
  {
    hide FrameOk, LevelsOk, StepInstr, Invoke, Finished, ThroughoutCall, Extends, StoreOk, Matches, AnyReturn, Whole, Calls;
    if ip.Cons? && fuel > 0 {
      var C': Context, frame: Obj, ls: seq<Level> :|
        C' == C.(labels := C'.labels) && ls != [] && StateOk(C', body, base, frame, ls, S) && s == Whole(base, frame, ls) && ls[|ls| - 1].at == ip;
      StepKeepsTypes(C', body, base, frame, ls, S);
      StoreHere(C', frame, S);
      match StepInstr(ip, |base|, s, S)
      case Next(ip', s', S') =>
        SameActivation(C, C', body, base, ip', s', S');
        RunTyped(C, body, base, fuel - 1, ip', s', S');
      case Invokes(addr, s') =>
        CallTyped(C', body, base, fuel - 1, ip.next, addr, s', S);
        var r := Invoke(fuel - 1, addr, s', S);
        if r.Done? {
          SameActivation(C, C', body, base, ip.next, r.stk, r.store);
          RunTyped(C, body, base, r.fuel, ip.next, r.stk, r.store);
        }
      case _ =>
    }
  }

  lemma SameActivation(C: Context, C': Context, body: Code, base: Stk, ip: Code, s: Stk, S: Store)
    requires C' == C.(labels := C'.labels) && Continues(C', body, base, ip, s, S)
    ensures Continues(C, body, base, ip, s, S)
  {
    hide FrameOk, LevelsOk, StoreOk, Matches, Whole;
  }

  /** A call from a typed state, and the state it comes back to. */
  lemma CallTyped(C: Context, body: Code, base: Stk, fuel: nat, next: Code, addr: U32, s: Stk, S: Store)
    requires Calls(C, body, base, next, addr, s, S) && StoreOk(true, S)
    ensures ThroughoutCall(fuel, addr, s, S)
    ensures var r := Invoke(fuel, addr, s, S); r.Done? ==> Continues(C, body, base, next, r.stk, r.store)
    decreases fuel, 3
  {
    hide Invoke, Continues, ThroughoutCall, Extends, StoreOk, Matches;
    var ft := S.funcs[addr].ftype;
    var rest: Stk, args: seq<Val> :|
      s == rest + OVals(args) && Matches(true, |S.funcs|, args, ft.rt1) && AnyReturn(C, body, base, next, rest, ft, S);
    EveryStateTyped(fuel, addr, rest, args, S);
    CallContract(true, fuel, addr, rest, args, S);
    var r := Invoke(fuel, addr, s, S);
    if r.Done? {
      var rs := ValsOf(r.stk[|rest|..]);
      assert OVals(rs) == r.stk[|rest|..];
      assert r.stk == rest + OVals(rs);
    }
  }
}
