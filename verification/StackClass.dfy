/** The machine's stack as the interpreter stores it: a fixed pool of entries, the index of
    the top entry, and two linked lists threading the label entries and the frame entries.
    `view` is the sequence of entries it stands for. */
module StackClass {
  import opened Syntax
  import opened Runtime
  import opened Machine
  import opened LinkedList

  /** Positions of the label entries (or of the frame entries), bottom first. */
  function Positions(s: Stk, labels: bool): (ps: seq<nat>) {
    if s == [] then [] else
    var n := |s| - 1;
    Positions(s[..n], labels) + if (if labels then s[n].OLabel? else s[n].OFrame?) then [n] else []
  }

  lemma {:induction false} PositionsValid(s: Stk, labels: bool)
    ensures var ps := Positions(s, labels);
            && |ps| <= |s|
            && (forall i :: 0 <= i < |ps| ==> ps[i] < |s| && if labels then s[ps[i]].OLabel? else s[ps[i]].OFrame?)
            && (forall i, j :: 0 <= i < j < |ps| ==> ps[i] < ps[j])
    decreases |s|
  {
    if s != [] {
      PositionsValid(s[..|s| - 1], labels);
    }
  }

  lemma PositionsSnoc(s: Stk, o: Obj, labels: bool)
    ensures Positions(s + [o], labels) ==
            Positions(s, labels) + if (if labels then o.OLabel? else o.OFrame?) then [|s|] else []
  {
    assert (s + [o])[..|s|] == s;
  }

  /** The k-th label from the tail of the list is the machine's k-th label from the top. */
  lemma {:induction false} LabelAtIsNth(s: Stk, k: nat)
    ensures var ps := Positions(s, true);
            LabelAt(s, k) == if k < |ps| then Some(ps[|ps| - 1 - k]) else None
    decreases |s|
  {
    if s != [] {
      var n := |s| - 1;
      LabelAtIsNth(s[..n], k);
      if k > 0 {
        LabelAtIsNth(s[..n], k - 1);
      }
    }
  }

  function Nodes(pool: seq<Elem<Obj>>, ps: seq<nat>): (es: seq<Elem<Obj>>)
    requires forall i :: 0 <= i < |ps| ==> ps[i] < |pool|
    ensures |es| == |ps|
  {
    seq(|ps|, i requires 0 <= i < |ps| => pool[ps[i]])
  }

  /** The entries of one kind, as list elements. */
  ghost function Threaded(pool: seq<Elem<Obj>>, s: Stk, labels: bool): (es: seq<Elem<Obj>>)
    requires |s| <= |pool|
    ensures forall i :: 0 <= i < |es| ==> es[i] in pool
  {
    PositionsValid(s, labels);
    Nodes(pool, Positions(s, labels))
  }

  /** Label entries and frame entries are different entries, and neither is a free one. */
  lemma ThreadedApart(pool: seq<Elem<Obj>>, s: Stk, labels: bool)
    requires |s| <= |pool| && Distinct(pool)
    ensures forall e :: e in Threaded(pool, s, labels) ==> e !in Threaded(pool, s, !labels)
    ensures forall e, k :: e in Threaded(pool, s, labels) && |s| <= k < |pool| ==> e != pool[k]
  {
    PositionsValid(s, labels);
    PositionsValid(s, !labels);
  }

  lemma ThreadedSnoc(pool: seq<Elem<Obj>>, s: Stk, o: Obj, labels: bool)
    requires |s| < |pool|
    ensures Threaded(pool, s + [o], labels) ==
            if (if labels then o.OLabel? else o.OFrame?) then Threaded(pool, s, labels) + [pool[|s|]]
            else Threaded(pool, s, labels)
  {
    PositionsSnoc(s, o, labels);
  }

  /** Removing a topmost label (or frame) entry removes the tail of its list only. */
  lemma Unthread(pool: seq<Elem<Obj>>, below: Stk, o: Obj, labels: bool)
    requires |below| < |pool| && Distinct(pool) && if labels then o.OLabel? else o.OFrame?
    ensures var es := Threaded(pool, below + [o], labels);
            && es != [] && es[..|es| - 1] == Threaded(pool, below, labels)
            && Threaded(pool, below + [o], !labels) == Threaded(pool, below, !labels)
            && forall e :: e in es ==> e !in Threaded(pool, below, !labels)
  {
    hide Threaded, Distinct;
    ThreadedSnoc(pool, below, o, labels);
    ThreadedSnoc(pool, below, o, !labels);
    ThreadedApart(pool, below + [o], labels);
  }

  lemma TopValsPeel(s: Stk)
    requires s != [] && s[|s| - 1].OVal?
    ensures TopVals(s) == TopVals(s[..|s| - 1]) + 1
  {
  }

  method NewPool(nothing: Obj) returns (cells: seq<Elem<Obj>>)
    ensures |cells| == CAPACITY && Distinct(cells)
    ensures forall e :: e in cells ==> fresh(e)
  {
    cells := [];
    while |cells| < CAPACITY
      invariant |cells| <= CAPACITY && Distinct(cells)
      invariant forall e :: e in cells ==> fresh(e)
    {
      var cell := new Elem(nothing);
      cells := cells + [cell];
    }
  }

  class Stack {
    const pool: seq<Elem<Obj>>
    const labels: Elem<Obj>
    const frames: Elem<Obj>
    var idx: int
    ghost var view: Stk

    ghost predicate Cells()
      reads this`idx, this`view, pool`data
    {
      && |pool| == CAPACITY && Distinct(pool)
      && labels != frames && labels !in pool && frames !in pool
      && -1 <= idx < CAPACITY && |view| == idx + 1
      && (forall i :: 0 <= i <= idx ==> pool[i].data == view[i])
    }

    /** Both lists thread exactly the entries of `s`. */
    ghost predicate Threads(s: Stk)
      requires |s| <= |pool|
      reads labels`next, labels`prev, frames`next, frames`prev, pool`next, pool`prev
    {
      Ring(labels, Threaded(pool, s, true)) && Ring(frames, Threaded(pool, s, false))
    }

    ghost predicate Valid()
      reads this, pool, labels, frames
      ensures Valid() ==> |view| <= CAPACITY <= |pool|
    {
      Cells() && Threads(view)
    }

    /** Everything an operation on the stack may write. */
    ghost function Repr(): set<object>
    {
      {this, labels, frames} + (set e | e in pool)
    }

    constructor ()
      ensures Valid() && view == []
      ensures fresh(Repr())
    {
      var nothing := OVal(Val(ANY, 0));
      var cells := NewPool(nothing);
      pool := cells;
      labels := new Elem(nothing);
      frames := new Elem(nothing);
      idx := -1;
      view := [];
      new;
      hide Distinct;
      Init(labels);
      Init(frames);
      assert Ring(labels, []);
      assert Threaded(pool, [], true) == [] && Threaded(pool, [], false) == [];
    }

    method HasRoom(n: nat) returns (room: bool)
      requires Valid()
      ensures room <==> |view| + n <= CAPACITY
    {
      room := idx + 1 + n <= CAPACITY;
    }

    /** Writes the next free entry without linking it. */
    method Put(o: Obj)
      requires Valid() && |view| < CAPACITY
      modifies this`idx, this`view, pool`data
      ensures Cells() && view == old(view) + [o] && Threads(old(view))
    {
      hide Threaded, Positions;
      idx := idx + 1;
      pool[idx].data := o;
      view := view + [o];
    }

    /** Forgets the top entry without unlinking it. */
    method Forget()
      requires Valid() && view != []
      modifies this`idx, this`view
      ensures Cells() && view == old(view)[..|old(view)| - 1] && Threads(old(view))
    {
      hide Threaded, Positions;
      idx := idx - 1;
      view := view[..|view| - 1];
    }

    /** push_val. */
    method PushVal(v: Val) returns (ok: bool)
      requires Valid()
      modifies this`idx, this`view, pool`data
      ensures Valid()
      ensures ok <==> |old(view)| < CAPACITY
      ensures view == if ok then old(view) + [OVal(v)] else old(view)
    {
      hide Ring, Threaded, Positions, Distinct;
      ok := idx != CAPACITY - 1;
      if ok {
        ThreadedSnoc(pool, view, OVal(v), true);
        ThreadedSnoc(pool, view, OVal(v), false);
        Put(OVal(v));
      }
    }

    /** push_label. */
    method PushLabel(arity: nat, parent: Code, continuation: Code) returns (ok: bool)
      requires Valid()
      modifies Repr()
      ensures Valid()
      ensures ok <==> |old(view)| < CAPACITY
      ensures view == if ok then old(view) + [OLabel(arity, parent, continuation)] else old(view)
    {
      hide Ring, Threaded, Positions, Distinct;
      ok := idx != CAPACITY - 1;
      if ok {
        var l := OLabel(arity, parent, continuation);
        ghost var ls, fs := Threaded(pool, view, true), Threaded(pool, view, false);
        ThreadedSnoc(pool, view, l, true);
        ThreadedSnoc(pool, view, l, false);
        ThreadedApart(pool, view, true);
        ThreadedApart(pool, view, false);
        Put(l);
        PushBackApart(labels, pool[idx], ls, frames, fs);
      }
    }

    /** push_frame. */
    method PushFrame(arity: nat, locals: seq<Val>, inst: ModInst) returns (ok: bool)
      requires Valid()
      modifies Repr()
      ensures Valid()
      ensures ok <==> |old(view)| < CAPACITY
      ensures view == if ok then old(view) + [OFrame(arity, locals, inst)] else old(view)
    {
      hide Ring, Threaded, Positions, Distinct;
      ok := idx != CAPACITY - 1;
      if ok {
        var f := OFrame(arity, locals, inst);
        ghost var ls, fs := Threaded(pool, view, true), Threaded(pool, view, false);
        ThreadedSnoc(pool, view, f, true);
        ThreadedSnoc(pool, view, f, false);
        ThreadedApart(pool, view, true);
        ThreadedApart(pool, view, false);
        Put(f);
        PushBackApart(frames, pool[idx], fs, labels, ls);
      }
    }

    /** pop_val. */
    method PopVal() returns (v: Val)
      requires Valid() && view != [] && view[|view| - 1].OVal?
      modifies this`idx, this`view
      ensures Valid()
      ensures old(view) == view + [OVal(v)]
    {
      hide Ring, Threaded, Positions, Distinct;
      v := pool[idx].data.v;
      ghost var below := view[..|view| - 1];
      assert view == below + [OVal(v)];
      ThreadedSnoc(pool, below, OVal(v), true);
      ThreadedSnoc(pool, below, OVal(v), false);
      Forget();
    }

    /** pop_label. */
    method PopLabel() returns (l: Obj)
      requires Valid() && view != [] && view[|view| - 1].OLabel?
      modifies Repr()
      ensures Valid()
      ensures l.OLabel? && old(view) == view + [l]
    {
      hide Ring, Threaded, Positions, Distinct;
      l := pool[idx].data;
      ghost var below := view[..|view| - 1];
      assert view == below + [l];
      Unthread(pool, below, l, true);
      ghost var ls, fs := Threaded(pool, view, true), Threaded(pool, view, false);
      Forget();
      var _ := PopTailApart(labels, ls, frames, fs);
    }

    /** try_pop_label: pops a label if one is on top. */
    method TryPopLabel() returns (l: Option<Obj>)
      requires Valid() && view != []
      modifies Repr()
      ensures Valid()
      ensures old(view[|view| - 1].OLabel?) ==> l == Some(old(view[|view| - 1])) && view == old(view)[..|old(view)| - 1]
      ensures !old(view[|view| - 1].OLabel?) ==> l == None && view == old(view)
    {
      hide Ring, Threaded, Positions, Distinct;
      l := None;
      if pool[idx].data.OLabel? {
        var o := PopLabel();
        l := Some(o);
      }
    }

    /** pop_frame. */
    method PopFrame() returns (f: Obj)
      requires Valid() && view != [] && view[|view| - 1].OFrame?
      modifies Repr()
      ensures Valid()
      ensures f.OFrame? && old(view) == view + [f]
    {
      hide Ring, Threaded, Positions, Distinct;
      f := pool[idx].data;
      ghost var below := view[..|view| - 1];
      assert view == below + [f];
      Unthread(pool, below, f, false);
      ghost var ls, fs := Threaded(pool, view, true), Threaded(pool, view, false);
      Forget();
      var _ := PopTailApart(frames, fs, labels, ls);
    }

    /** pop_vals_n: the popped values, topmost first. */
    method PopValsN(n: nat) returns (vals: seq<Val>)
      requires Valid() && CanPop(view, n)
      modifies this`idx, this`view
      ensures Valid()
      ensures |vals| == n && Reverse(vals) == Top(old(view), n) && view == Below(old(view), n)
    {
      hide Ring, Threaded, Positions, Distinct, TopVals;
      vals := [];
      while |vals| < n
        invariant Valid() && |vals| <= n
        invariant view == old(view)[..|old(view)| - |vals|]
        invariant forall i :: 0 <= i < |vals| ==> old(view)[|old(view)| - 1 - i] == OVal(vals[i])
      {
        assert view[|view| - 1] == old(view)[|old(view)| - n..][n - 1 - |vals|];
        var v := PopVal();
        vals := vals + [v];
      }
      assert Reverse(vals) == Top(old(view), n);
    }

    /** The counting loop of pop_vals. */
    method CountVals() returns (count: nat)
      requires Valid() && TopVals(view) < |view|
      ensures count == TopVals(view)
    {
      hide Ring, Threaded, Positions, Distinct, TopVals;
      count := 0;
      assert view[..|view|] == view;
      while pool[idx - count].data.OVal?
        invariant 0 <= count <= idx
        invariant TopVals(view) == count + TopVals(view[..|view| - count])
        decreases idx - count
      {
        ghost var s := view[..|view| - count];
        TopValsPeel(s);
        assert s[..|s| - 1] == view[..|view| - (count + 1)];
        count := count + 1;
      }
    }

    /** pop_vals: everything above the topmost label or frame. */
    method PopVals() returns (vals: seq<Val>)
      requires Valid() && TopVals(view) < |view|
      modifies this`idx, this`view
      ensures Valid()
      ensures var n := TopVals(old(view));
              CanPop(old(view), n) && Reverse(vals) == Top(old(view), n) && view == Below(old(view), n)
    {
      hide Ring, Threaded, Positions, Distinct, TopVals;
      var count := CountVals();
      vals := PopValsN(count);
    }

    /** push_vals: pushes the last element first, until the stack is full. */
    method PushVals(vals: seq<Val>) returns (ok: bool)
      requires Valid()
      modifies this`idx, this`view, pool`data
      ensures Valid()
      ensures ok <==> |old(view)| + |vals| <= CAPACITY
      ensures ok ==> view == old(view) + OVals(Reverse(vals))
      ensures !ok ==> view == (old(view) + OVals(Reverse(vals)))[..CAPACITY]
    {
      hide Ring, Threaded, Positions, Distinct;
      ghost var goal := old(view) + OVals(Reverse(vals));
      var i := |vals|;
      while i > 0
        invariant 0 <= i <= |vals| && Valid()
        invariant |view| == |old(view)| + |vals| - i && view == goal[..|view|]
      {
        var pushed := PushVal(vals[i - 1]);
        if !pushed {
          return false;
        }
        assert goal[|view| - 1] == OVal(vals[i - 1]);
        i := i - 1;
      }
      ok := true;
    }

    /** The k-th label entry from the top, or null. */
    method GetLabel(k: nat) returns (l: Elem?<Obj>)
      requires Valid()
      ensures LabelAt(view, k).None? ==> l == null
      ensures LabelAt(view, k).Some? ==> l != null && l.data == view[LabelAt(view, k).value]
    {
      l := GetElem(labels, k, Threaded(pool, view, true));
      LabelAtIsNth(view, k);
      PositionsValid(view, true);
    }

    /** The innermost frame entry, or null. */
    method GetFrame() returns (f: Elem?<Obj>)
      requires Valid()
      ensures CurrentFrame(view).None? ==> f == null
      ensures var p := CurrentFrame(view);
              p.Some? ==> f == pool[p.value] && f.data == view[p.value]
    {
      f := Tail(frames, Threaded(pool, view, false));
      CurrentFrameIsLast(view);
      PositionsValid(view, false);
    }

    lemma FrameData(frame: Elem<Obj>, fi: nat)
      requires Valid() && fi < |view| && frame == pool[fi]
      ensures frame.data == view[fi]
    {
    }

    /** Assigns to the locals of the frame in entry `fi`. */
    method SetLocals(frame: Elem<Obj>, locals: seq<Val>, ghost fi: nat)
      requires Valid() && fi < |view| <= |pool| && frame == pool[fi] && view[fi].OFrame?
      modifies frame`data, this`view
      ensures Valid() && view == old(view)[fi := old(view)[fi].(locals := locals)]
    {
      frame.data := frame.data.(locals := locals);
      view := view[fi := view[fi].(locals := locals)];
      PositionsUpdate(old(view), fi, view[fi], true);
      PositionsUpdate(old(view), fi, view[fi], false);
    }

    /** pop_while_not_frame. */
    method PopWhileNotFrame()
      requires Valid() && DropToFrame(view) != []
      modifies Repr()
      ensures Valid() && view == DropToFrame(old(view))
    {
      hide Ring, Threaded, Positions, Distinct;
      while !pool[idx].data.OFrame?
        invariant Valid() && view != [] && DropToFrame(view) == DropToFrame(old(view))
        decreases |view|
      {
        if pool[idx].data.OVal? {
          var v := PopVal();
        } else {
          var _ := PopLabel();
        }
      }
    }
  }

  function Reverse(vs: seq<Val>): (r: seq<Val>)
    ensures |r| == |vs|
  {
    seq(|vs|, i requires 0 <= i < |vs| => vs[|vs| - 1 - i])
  }

  /** Position of the topmost frame entry. */
  function CurrentFrame(s: Stk): (p: Option<nat>)
    ensures p.Some? ==> p.value < |s| && s[p.value].OFrame?
    decreases |s|
  {
    if s == [] then None
    else if s[|s| - 1].OFrame? then Some(|s| - 1)
    else CurrentFrame(s[..|s| - 1])
  }

  lemma {:induction false} CurrentFrameIsLast(s: Stk)
    ensures var ps := Positions(s, false);
            CurrentFrame(s) == if ps == [] then None else Some(ps[|ps| - 1])
    decreases |s|
  {
    if s != [] {
      CurrentFrameIsLast(s[..|s| - 1]);
    }
  }

  /** Replacing a frame entry by a frame entry moves nothing. */
  lemma {:induction false} PositionsUpdate(s: Stk, i: nat, o: Obj, labels: bool)
    requires i < |s| && s[i].OFrame? && o.OFrame?
    ensures Positions(s[i := o], labels) == Positions(s, labels)
    decreases |s|
  {
    var n := |s| - 1;
    if i == n {
      assert s[i := o][..n] == s[..n];
    } else {
      assert s[i := o][..n] == s[..n][i := o];
      PositionsUpdate(s[..n], i, o, labels);
    }
  }
}
