/** How the machine's stack scans read a stack of the form `below + OVals(vals)`. */
module StackLemmas {
  import opened Syntax
  import opened Runtime
  import opened Machine
  import opened Semantics

  lemma OValsConcat(a: seq<Val>, b: seq<Val>)
    ensures OVals(a) + OVals(b) == OVals(a + b)
  {
  }

  /** The values on top of a label or frame are exactly `vals`. */
  lemma {:induction false} TopValsOf(below: Stk, vals: seq<Val>)
    requires below == [] || !below[|below| - 1].OVal?
    ensures TopVals(below + OVals(vals)) == |vals|
    decreases |vals|
  {
    if vals == [] {
      assert below + OVals(vals) == below;
    } else {
      var n := |vals| - 1;
      assert (below + OVals(vals))[..|below| + n] == below + OVals(vals[..n]);
      TopValsOf(below, vals[..n]);
    }
  }

  lemma PopOf(below: Stk, vals: seq<Val>, n: nat)
    requires n <= |vals|
    ensures CanPop(below + OVals(vals), n)
    ensures Top(below + OVals(vals), n) == Take(vals, n)
    ensures Below(below + OVals(vals), n) == below + OVals(Drop'(vals, n))
  {
    var s := below + OVals(vals);
    assert s[|s| - n..] == OVals(Take(vals, n));
  }

  lemma {:induction false} LabelAtVals(s: Stk, vals: seq<Val>, k: nat)
    ensures LabelAt(s + OVals(vals), k) == LabelAt(s, k)
    decreases |vals|
  {
    if vals == [] {
      assert s + OVals(vals) == s;
    } else {
      var n := |vals| - 1;
      assert (s + OVals(vals))[..|s| + n] == s + OVals(vals[..n]);
      LabelAtVals(s, vals[..n], k);
    }
  }

  lemma LabelAtSnoc(s: Stk, o: Obj, k: nat)
    ensures LabelAt(s + [o], k) ==
            if !o.OLabel? then LabelAt(s, k) else if k == 0 then Some(|s|) else LabelAt(s, k - 1)
  {
    assert (s + [o])[..|s|] == s;
  }

  lemma {:induction false} LabelAtUpdate(s: Stk, i: nat, o: Obj, k: nat)
    requires i < |s| && s[i].OFrame? && o.OFrame?
    ensures LabelAt(s[i := o], k) == LabelAt(s, k)
    decreases |s|
  {
    var n := |s| - 1;
    if i == n {
      assert s[i := o][..n] == s[..n];
    } else {
      assert s[i := o][..n] == s[..n][i := o];
      LabelAtUpdate(s[..n], i, o, k);
      if k > 0 {
        LabelAtUpdate(s[..n], i, o, k - 1);
      }
    }
  }

  /** Cutting the stack below its topmost label removes one label. */
  lemma {:induction false} LabelAtCut(s: Stk, k: nat)
    requires LabelAt(s, 0).Some?
    ensures LabelAt(s, k + 1) == LabelAt(s[..LabelAt(s, 0).value], k)
    decreases |s|
  {
    var n := |s| - 1;
    if !s[n].OLabel? {
      LabelAtCut(s[..n], k);
      assert s[..n][..LabelAt(s, 0).value] == s[..LabelAt(s, 0).value];
    }
  }

  /** The labels are found from the top down. */
  lemma {:induction false} LabelAtOrder(s: Stk, k: nat)
    requires LabelAt(s, k + 1).Some?
    ensures LabelAt(s, k).Some? && LabelAt(s, k + 1).value < LabelAt(s, k).value
    decreases |s|
  {
    var n := |s| - 1;
    if !s[n].OLabel? {
      LabelAtOrder(s[..n], k);
    } else if k > 0 {
      LabelAtOrder(s[..n], k - 1);
    }
  }

  lemma {:induction false} LabelAtBelowTop(s: Stk, k: nat)
    requires LabelAt(s, k).Some?
    ensures LabelAt(s, 0).Some? && LabelAt(s, k).value <= LabelAt(s, 0).value
    decreases k
  {
    if k > 0 {
      LabelAtOrder(s, k - 1);
      LabelAtBelowTop(s, k - 1);
    }
  }

  /** The topmost label is the topmost entry that is not a value, unless a frame is. */
  lemma {:induction false} TopLabel(s: Stk, p: nat)
    requires p < |s| && s[p].OLabel?
    requires forall i :: p < i < |s| ==> s[i].OVal?
    ensures LabelAt(s, 0) == Some(p)
    decreases |s|
  {
    if p < |s| - 1 {
      TopLabel(s[..|s| - 1], p);
    }
  }

  lemma UnwindRound(s: Stk, count: nat)
    requires count > 0 && LabelAt(s, 0).Some?
    requires forall i :: LabelAt(s, 0).value < i < |s| ==> !s[i].OFrame?
    ensures var p := LabelAt(s, 0).value;
            Unwind(s, count) == if count == 1 then Some((s[..p], s[p])) else Unwind(s[..p], count - 1)
  {
    var p := LabelAt(s, 0).value;
    var t := |s| - TopVals(s);
    assert p < t;
    TopLabel(s, t - 1);
    assert Below(s, TopVals(s)) == s[..p + 1];
    assert s[..p + 1][..p] == s[..p];
  }

  /** Unwinding `k + 1` labels stops exactly below the k-th innermost one. */
  lemma {:induction false} UnwindTo(s: Stk, k: nat)
    requires LabelAt(s, k).Some?
    requires forall i :: LabelAt(s, k).value < i < |s| ==> !s[i].OFrame?
    ensures var p := LabelAt(s, k).value;
            Unwind(s, k + 1) == Some((s[..p], s[p]))
    decreases k
  {
    LabelAtBelowTop(s, k);
    UnwindRound(s, k + 1);
    if k > 0 {
      var p, top := LabelAt(s, k).value, LabelAt(s, 0).value;
      LabelAtCut(s, k - 1);
      var below := s[..top];
      assert p < |below|;
      assert forall i :: p < i < |below| ==> below[i] == s[i];
      UnwindTo(below, k - 1);
      assert below[..p] == s[..p] && below[p] == s[p];
    }
  }

  lemma {:induction false} DropToFrameAt(s: Stk, fi: nat)
    requires fi < |s| && s[fi].OFrame?
    requires forall i :: fi < i < |s| ==> !s[i].OFrame?
    ensures DropToFrame(s) == s[..fi + 1]
    decreases |s|
  {
    if fi < |s| - 1 {
      DropToFrameAt(s[..|s| - 1], fi);
      assert s[..|s| - 1][..fi + 1] == s[..fi + 1];
    } else {
      assert s[..fi + 1] == s;
    }
  }

  lemma SameTypesIsEquality(a: FuncType, b: FuncType)
    ensures SameTypes(a, b) <==> a == b
  {
    if SameTypes(a, b) {
      assert a.rt1 == b.rt1 && a.rt2 == b.rt2;
    }
  }
}
