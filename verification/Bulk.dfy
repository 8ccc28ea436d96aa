/** What the byte-by-byte and element-by-element loops of the bulk operations amount to. */
module Bulk {
  import opened Syntax
  import opened Runtime

  const SPACE: nat := 0x1_0000_0000
  const HALF: nat := 0x8000_0000

  // ---------------------------------------------------------------- memory.copy

  /** `after` is `before` with the `n` bytes at `s` moved to `d`, all at once. */
  ghost predicate Moved(before: map<int, Byte>, after: map<int, Byte>, d: int, s: int, n: int) {
    forall a: int {:trigger Get(after, a)} :: Get(after, a) == if d <= a < d + n then Get(before, s + (a - d)) else Get(before, a)
  }

  /** The source lies above an overlapping destination that straddles the middle of the
      address space: at some round `s` is negative as a signed number and `d` is not. */
  predicate TurnsDownward(d: U32, s: U32, n: nat) { d < s < d + n && d < HALF < d + n }

  /** The source lies below an overlapping destination in the other half. */
  predicate StartsUpward(d: U32, s: U32, n: nat) { s < d < s + n && s < HALF <= d }

  /** The direction chosen by the signed comparison never spoils an overlapping move. */
  predicate DirectionOk(d: U32, s: U32, n: nat) { !TurnsDownward(d, s, n) && !StartsUpward(d, s, n) }

  lemma CopyOne(data: map<int, Byte>, d: U32, s: U32)
    ensures CopyBytes(data, d, s, 1) == data[d as int := Get(data, s)]
  {
    var data' := data[d as int := Get(data, s)];
    assert CopyBytes(data', (d + 1) % SPACE, (s + 1) % SPACE, 0) == data';
  }

  lemma WriteOne(data: map<int, Byte>, d: int, v: nat)
    ensures WriteLE(data, d, 1, v) == data[d := v % 0x100]
  {
    assert WriteLE(data[d := v % 0x100], d + 1, 0, v / 0x100) == data[d := v % 0x100];
  }

  lemma ReadOne(data: map<int, Byte>, d: int)
    ensures ReadLE(data, d, 1) == Get(data, d)
  {
    assert ReadLE(data, d + 1, 0) == 0;
  }

  /** One round of the loop of memory.copy. */
  lemma CopyRound(data: map<int, Byte>, d: U32, s: U32, n: nat)
    requires n > 0 && d + n <= SPACE && s + n <= SPACE
    ensures CopyBytes(data, d, s, n) ==
            if ToI32(d) <= ToI32(s) then CopyBytes(data[d as int := Get(data, s)], (d + 1) % SPACE, (s + 1) % SPACE, n - 1)
            else CopyBytes(data[d + n - 1 := Get(data, s + n - 1)], d, s, n - 1)
  {
    hide Get, ToI32;
    Small(d + n - 1);
    Small(s + n - 1);
  }

  lemma CopyUp(data: map<int, Byte>, d: U32, s: U32, n: nat)
    requires n > 1 && d + n <= SPACE && s + n <= SPACE && ToI32(d) <= ToI32(s)
    ensures CopyBytes(data, d, s, n) == CopyBytes(data[d as int := Get(data, s)], d + 1, s + 1, n - 1)
  {
    hide Get, ToI32;
    Small(d + 1);
    Small(s + 1);
  }

  lemma CopyDown(data: map<int, Byte>, d: U32, s: U32, n: nat)
    requires n > 1 && d + n <= SPACE && s + n <= SPACE && ToI32(d) > ToI32(s)
    ensures CopyBytes(data, d, s, n) == CopyBytes(data[d + n - 1 := Get(data, s + n - 1)], d, s, n - 1)
  {
    hide Get, ToI32;
    Small(d + n - 1);
    Small(s + n - 1);
  }

  lemma Small(x: int)
    requires 0 <= x < SPACE
    ensures x % SPACE == x
  {
  }

  lemma {:induction false} CopyMoves(data: map<int, Byte>, d: U32, s: U32, n: nat)
    requires d + n <= SPACE && s + n <= SPACE && DirectionOk(d, s, n)
    ensures Moved(data, CopyBytes(data, d, s, n), d, s, n)
    decreases n
  {
    hide CopyBytes;
    if n == 0 {
      assert CopyBytes(data, d, s, 0) == data by { CopyNone(data, d, s); }
    } else if n == 1 {
      CopyOne(data, d, s);
    } else if ToI32(d) <= ToI32(s) {
      CopyUp(data, d, s, n);
      var data' := data[d as int := Get(data, s)];
      CopyMoves(data', d + 1, s + 1, n - 1);
      MovedUp(data, data', CopyBytes(data', d + 1, s + 1, n - 1), d, s, n);
    } else {
      CopyDown(data, d, s, n);
      var data' := data[d + n - 1 := Get(data, s + n - 1)];
      CopyMoves(data', d, s, n - 1);
      MovedDown(data, data', CopyBytes(data', d, s, n - 1), d, s, n);
    }
  }

  /** Going up, no later round reads the byte written now. */
  lemma NotOverwritten(d: U32, s: U32, n: nat, a: int)
    requires d + n <= SPACE && s + n <= SPACE && DirectionOk(d, s, n) && ToI32(d) <= ToI32(s) && d < a < d + n
    ensures s + (a - d) != d
  {
  }

  /** Going down likewise. */
  lemma NotOverwrittenDown(d: U32, s: U32, n: nat, a: int)
    requires d + n <= SPACE && s + n <= SPACE && DirectionOk(d, s, n) && ToI32(d) > ToI32(s) && d <= a < d + n - 1
    ensures s + (a - d) != d + n - 1
  {
  }

  lemma GetOther(data: map<int, Byte>, x: int, b: Byte, a: int)
    requires a != x
    ensures Get(data[x := b], a) == Get(data, a)
  {
  }

  lemma MovedUp(data: map<int, Byte>, data': map<int, Byte>, after: map<int, Byte>, d: U32, s: U32, n: nat)
    requires n > 1 && d + n <= SPACE && s + n <= SPACE && DirectionOk(d, s, n) && ToI32(d) <= ToI32(s)
    requires data' == data[d as int := Get(data, s)] && Moved(data', after, d + 1, s + 1, n - 1)
    ensures Moved(data, after, d, s, n)
  {
    forall a: int
      ensures Get(after, a) == if d <= a < d + n then Get(data, s + (a - d)) else Get(data, a)
    {
      if d < a < d + n {
        NotOverwritten(d, s, n, a);
        assert Get(after, a) == Get(data', s + 1 + (a - (d + 1)));
        assert s + 1 + (a - (d + 1)) == s + (a - d);
        GetOther(data, d, Get(data, s), s + (a - d));
      } else {
        assert Get(after, a) == Get(data', a);
      }
    }
  }

  lemma MovedDown(data: map<int, Byte>, data': map<int, Byte>, after: map<int, Byte>, d: U32, s: U32, n: nat)
    requires n > 1 && d + n <= SPACE && s + n <= SPACE && DirectionOk(d, s, n) && ToI32(d) > ToI32(s)
    requires data' == data[d + n - 1 := Get(data, s + n - 1)] && Moved(data', after, d, s, n - 1)
    ensures Moved(data, after, d, s, n)
  {
    forall a: int
      ensures Get(after, a) == if d <= a < d + n then Get(data, s + (a - d)) else Get(data, a)
    {
      if d <= a < d + n - 1 {
        NotOverwrittenDown(d, s, n, a);
        assert Get(after, a) == Get(data', s + (a - d));
        GetOther(data, d + n - 1, Get(data, s + n - 1), s + (a - d));
      } else {
        assert Get(after, a) == Get(data', a);
      }
    }
  }

  lemma CopyNone(data: map<int, Byte>, d: U32, s: U32)
    ensures CopyBytes(data, d, s, 0) == data
  {
  }

  /** Whatever the direction, bytes outside the destination keep their value, and so does
      the copy of a byte that stands outside the destination. */
  ghost predicate Kept(before: map<int, Byte>, after: map<int, Byte>, d: int, s: int, n: int) {
    forall a: int {:trigger Get(after, a)} ::
      && (!(d <= a < d + n) ==> Get(after, a) == Get(before, a))
      && (d <= a < d + n && !(d <= s + (a - d) < d + n) ==> Get(after, a) == Get(before, s + (a - d)))
  }

  lemma {:induction false} CopyKeeps(data: map<int, Byte>, d: U32, s: U32, n: nat)
    requires d + n <= SPACE && s + n <= SPACE
    ensures Kept(data, CopyBytes(data, d, s, n), d, s, n)
    decreases n
  {
    hide CopyBytes;
    if n == 0 {
      CopyNone(data, d, s);
    } else if n == 1 {
      CopyOne(data, d, s);
    } else if ToI32(d) <= ToI32(s) {
      CopyUp(data, d, s, n);
      var data' := data[d as int := Get(data, s)];
      CopyKeeps(data', d + 1, s + 1, n - 1);
      KeptUp(data, data', CopyBytes(data', d + 1, s + 1, n - 1), d, s, n);
    } else {
      CopyDown(data, d, s, n);
      var data' := data[d + n - 1 := Get(data, s + n - 1)];
      CopyKeeps(data', d, s, n - 1);
      KeptDown(data, data', CopyBytes(data', d, s, n - 1), d, s, n);
    }
  }

  lemma KeptUp(data: map<int, Byte>, data': map<int, Byte>, after: map<int, Byte>, d: U32, s: U32, n: nat)
    requires n > 1 && data' == data[d as int := Get(data, s)] && Kept(data', after, d + 1, s + 1, n - 1)
    ensures Kept(data, after, d, s, n)
  {
    forall a: int
      ensures !(d <= a < d + n) ==> Get(after, a) == Get(data, a)
      ensures d <= a < d + n && !(d <= s + (a - d) < d + n) ==> Get(after, a) == Get(data, s + (a - d))
    {
      if d < a < d + n {
        if !(d <= s + (a - d) < d + n) {
          assert s + 1 + (a - (d + 1)) == s + (a - d);
          assert Get(after, a) == Get(data', s + (a - d));
        }
      } else {
        assert Get(after, a) == Get(data', a);
      }
    }
  }

  lemma KeptDown(data: map<int, Byte>, data': map<int, Byte>, after: map<int, Byte>, d: U32, s: U32, n: nat)
    requires n > 1 && data' == data[d + n - 1 := Get(data, s + n - 1)] && Kept(data', after, d, s, n - 1)
    ensures Kept(data, after, d, s, n)
  {
    forall a: int
      ensures !(d <= a < d + n) ==> Get(after, a) == Get(data, a)
      ensures d <= a < d + n && !(d <= s + (a - d) < d + n) ==> Get(after, a) == Get(data, s + (a - d))
    {
      if d <= a < d + n - 1 {
        if !(d <= s + (a - d) < d + n) {
          assert Get(after, a) == Get(data', s + (a - d));
        }
      } else {
        assert Get(after, a) == Get(data', a);
      }
    }
  }

  /** The last source byte, a 1, is overtaken: the loop turns downward while the ranges
      still overlap, and the 1 arrives twice. */
  lemma {:induction false} DownwardSpoils(data: map<int, Byte>, d: U32, s: U32, n: nat)
    requires d + n <= SPACE && s + n <= SPACE && TurnsDownward(d, s, n)
    requires Get(data, s + n - 1) == 1
    ensures Get(CopyBytes(data, d, s, n), 2 * d + n - 1 - s) == 1
    decreases n
  {
    hide CopyBytes;
    if ToI32(d) <= ToI32(s) {
      CopyUp(data, d, s, n);
      DownwardSpoils(data[d as int := Get(data, s)], d + 1, s + 1, n - 1);
    } else {
      CopyDown(data, d, s, n);
      var data' := data[d + n - 1 := Get(data, s + n - 1)];
      CopyKeeps(data', d, s, n - 1);
      var a := 2 * d + n - 1 - s;
      assert Get(CopyBytes(data', d, s, n - 1), a) == Get(data', s + (a - d));
    }
  }

  lemma UpwardSpoils(data: map<int, Byte>, d: U32, s: U32, n: nat)
    requires d + n <= SPACE && s + n <= SPACE && StartsUpward(d, s, n)
    requires Get(data, s) == 1
    ensures Get(CopyBytes(data, d, s, n), 2 * d - s) == 1
  {
    hide CopyBytes;
    CopyUp(data, d, s, n);
    var data' := data[d as int := Get(data, s)];
    CopyKeeps(data', d + 1, s + 1, n - 1);
    var a := 2 * d - s;
    assert Get(CopyBytes(data', d + 1, s + 1, n - 1), a) == Get(data', s + 1 + (a - (d + 1)));
  }

  /** memory.copy moves every byte string correctly exactly when the signed comparison does
      not mislead it, given that signed addresses wrap around when they are incremented. */
  lemma CopyIsMove(d: U32, s: U32, n: nat)
    requires d + n <= SPACE && s + n <= SPACE
    ensures (forall data :: Moved(data, CopyBytes(data, d, s, n), d, s, n)) <==> DirectionOk(d, s, n)
    ensures d + n <= HALF && s + n <= HALF ==> DirectionOk(d, s, n)
  {
    hide CopyBytes;
    if DirectionOk(d, s, n) {
      forall data
        ensures Moved(data, CopyBytes(data, d, s, n), d, s, n)
      {
        CopyMoves(data, d, s, n);
      }
    } else if TurnsDownward(d, s, n) {
      var data: map<int, Byte> := map[s + n - 1 := 1];
      DownwardSpoils(data, d, s, n);
      assert Get(data, d + n - 1) == 0;
      assert !Moved(data, CopyBytes(data, d, s, n), d, s, n);
    } else {
      var data: map<int, Byte> := map[s as int := 1];
      UpwardSpoils(data, d, s, n);
      assert Get(data, d) == 0;
      assert !Moved(data, CopyBytes(data, d, s, n), d, s, n);
    }
  }

  // ---------------------------------------------------------------- signed overflow

  /** The `n` addresses from `a` on, and the one after them, lie on both sides of the middle. */
  predicate Crosses(a: nat, n: nat) { a < HALF <= a + n }

  /** The loop of memory.copy overflows in some round exactly when one of its two ranges runs
      up to or over the middle of the address space, or the count is negative as an int. */
  lemma {:induction false} CopyOverflowsIff(d: U32, s: U32, n: U32)
    ensures CopyOverflows(d, s, n) <==> n > 0 && (Crosses(d, n) || Crosses(s, n) || n >= HALF)
    decreases n
  {
    hide CopyOverflows, EndFits;
    CopyOverflowsStep(d, s, n);
    if n > 0 && ToI32(d) <= ToI32(s) {
      CopyOverflowsIff((d + 1) % SPACE, (s + 1) % SPACE, n - 1);
      CrossesNext(d, n);
      CrossesNext(s, n);
    } else if n > 0 {
      CopyOverflowsIff(d, s, n - 1);
      FitsIff(d, n);
      FitsIff(s, n);
    }
  }

  lemma CopyOverflowsStep(d: U32, s: U32, n: U32)
    ensures CopyOverflows(d, s, n) <==>
            && n != 0
            && (|| n == HALF
                || (ToI32(d) <= ToI32(s) && (d == HALF - 1 || s == HALF - 1 || CopyOverflows((d + 1) % SPACE, (s + 1) % SPACE, n - 1)))
                || (ToI32(d) > ToI32(s) && (!EndFits(d, n) || !EndFits(s, n) || CopyOverflows(d, s, n - 1))))
  {
    hide EndFits;
  }

  lemma CrossesNext(a: U32, n: U32)
    requires n > 0
    ensures n < HALF ==> (Crosses(a, n) <==> a == HALF - 1 || (n > 1 && Crosses((a + 1) % SPACE, n - 1)))
    ensures n > HALF ==> n - 1 >= HALF
  {
  }

  lemma FitsIff(a: U32, n: U32)
    requires n > 0
    ensures n < HALF ==> (EndFits(a, n) <==> !Crosses(a, n))
  {
  }

  lemma {:induction false} FillOverflowsIff(d: U32, n: U32)
    ensures FillOverflows(d, n) <==> n > 0 && (Crosses(d, n) || n >= HALF)
    decreases n
  {
    hide FillOverflows;
    FillOverflowsStep(d, n);
    if n > 0 {
      FillOverflowsIff((d + 1) % SPACE, n - 1);
      CrossesNext(d, n);
    }
  }

  lemma FillOverflowsStep(d: U32, n: U32)
    ensures FillOverflows(d, n) <==> n != 0 && (n == HALF || d == HALF - 1 || FillOverflows((d + 1) % SPACE, n - 1))
  {
  }

  lemma {:induction false} InitOverflowsIff(d: U32, s: U32, n: U32)
    ensures InitOverflows(d, s, n) <==> n > 0 && (Crosses(d, n) || s + n >= HALF)
    decreases n
  {
    hide InitOverflows;
    InitOverflowsStep(d, s, n);
    if n > 0 && s < HALF - 1 {
      InitOverflowsIff((d + 1) % SPACE, s + 1, n - 1);
      CrossesNext(d, n);
    }
  }

  lemma InitOverflowsStep(d: U32, s: U32, n: U32)
    ensures InitOverflows(d, s, n) <==> n != 0 && (n == HALF || d == HALF - 1 || s >= HALF - 1 || InitOverflows((d + 1) % SPACE, s + 1, n - 1))
  {
    if s < HALF {
      Small(s + 1);
    }
  }

  /** Every memory.copy that overflows nowhere is a move: the overlaps on which the direction
      is chosen wrongly all overflow. */
  lemma DefinedCopyMoves(data: map<int, Byte>, d: U32, s: U32, n: U32)
    requires d + n <= SPACE && s + n <= SPACE && !CopyOverflows(d, s, n)
    ensures Moved(data, CopyBytes(data, d, s, n), d, s, n)
  {
    hide CopyBytes, CopyOverflows, Moved;
    CopyOverflowsIff(d, s, n);
    CopyMoves(data, d, s, n);
  }

  // ---------------------------------------------------------------- memory.fill and memory.init

  lemma {:induction false} FillIs(data: map<int, Byte>, d: U32, b: Byte, n: nat)
    requires d + n <= SPACE
    ensures forall a: int :: Get(FillBytes(data, d, b, n), a) == if d <= a < d + n then b else Get(data, a)
    decreases n
  {
    if n > 1 {
      FillIs(data[d as int := b], d + 1, b, n - 1);
    }
  }

  lemma {:induction false} InitIs(data: map<int, Byte>, d: U32, src: seq<Byte>, s: nat, n: nat)
    requires d + n <= SPACE && s + n <= |src|
    ensures forall a: int ::
      Get(InitBytes(data, d, src, s, n), a) == if d <= a < d + n then src[s + (a - d)] else Get(data, a)
    decreases n
  {
    if n > 1 {
      InitIs(data[d as int := src[s]], d + 1, src, s + 1, n - 1);
    }
  }

  // ---------------------------------------------------------------- tables

  /** `elems` with the `n` references at `s` of `src` put at `d`, all at once. */
  function Spliced(elems: seq<U32>, d: nat, src: seq<U32>, s: nat, n: nat): (r: seq<U32>)
    requires d + n <= |elems| && s + n <= |src|
  {
    elems[..d] + src[s..s + n] + elems[d + n..]
  }

  lemma {:induction false} InitRefsIs(elems: seq<U32>, d: nat, src: seq<U32>, s: nat, n: nat)
    requires d + n <= |elems| && s + n <= |src|
    ensures InitRefs(elems, d, src, s, n) == Spliced(elems, d, src, s, n)
    decreases n
  {
    if n > 0 {
      InitRefsIs(elems[d := src[s]], d + 1, src, s + 1, n - 1);
    }
  }

  /** `elems` with `r` in the `n` slots from `i` on. */
  function Painted(elems: seq<U32>, i: nat, n: nat, r: U32): seq<U32>
    requires i + n <= |elems|
  {
    elems[..i] + seq(n, _ => r) + elems[i + n..]
  }

  /** What the loop of table.fill comes to, for all signed operands: the range painted; a trap
      when the sum is negative or beyond the table; otherwise an overflow or a null pointer. */
  lemma {:induction false} FillRefsIs(elems: seq<U32>, i: int, n: int, r: U32)
    requires InI32(i) && InI32(n)
    ensures FillRefs(elems, i, n, r) ==
            if InI32(i + n) && !(0 <= i + n <= |elems|) then FillTraps
            else if InI32(i + n) && (n == 0 || (i >= 0 && n > 0)) then Filled(Painted(elems, i, n, r))
            else FillUB
    decreases n - INT_MIN
  {
    if InI32(i + n) && 0 <= i + n <= |elems| && n != 0 && 0 <= i < |elems| && i != INT_MAX && n != INT_MIN {
      FillRefsIs(elems[i := r], i + 1, n - 1, r);
    }
  }

  /** table.copy, including within one table, is a simultaneous copy. */
  lemma {:induction false} CopyRefsIs(tables: seq<TableInst>, x: nat, y: nat, d: nat, s: nat, n: nat)
    requires x < |tables| && y < |tables|
    requires d + n <= |tables[x].elems| && s + n <= |tables[y].elems|
    ensures CopyRefs(tables, x, y, d, s, n)
            == tables[x := tables[x].(elems := Spliced(tables[x].elems, d, tables[y].elems, s, n))]
    decreases n
  {
    if n == 0 {
      assert Spliced(tables[x].elems, d, tables[y].elems, s, 0) == tables[x].elems;
    } else if d <= s {
      var tables' := SetRef(tables, x, d, tables[y].elems[s]);
      CopyRefsIs(tables', x, y, d + 1, s + 1, n - 1);
      SplicedUp(tables, x, y, d, s, n);
    } else {
      var tables' := SetRef(tables, x, d + n - 1, tables[y].elems[s + n - 1]);
      CopyRefsIs(tables', x, y, d, s, n - 1);
      SplicedDown(tables, x, y, d, s, n);
    }
  }

  lemma SplicedUp(tables: seq<TableInst>, x: nat, y: nat, d: nat, s: nat, n: nat)
    requires x < |tables| && y < |tables| && n > 0 && d <= s
    requires d + n <= |tables[x].elems| && s + n <= |tables[y].elems|
    ensures var t := SetRef(tables, x, d, tables[y].elems[s]);
            Spliced(t[x].elems, d + 1, t[y].elems, s + 1, n - 1) == Spliced(tables[x].elems, d, tables[y].elems, s, n)
  {
  }

  lemma SplicedDown(tables: seq<TableInst>, x: nat, y: nat, d: nat, s: nat, n: nat)
    requires x < |tables| && y < |tables| && n > 0 && d > s
    requires d + n <= |tables[x].elems| && s + n <= |tables[y].elems|
    ensures var t := SetRef(tables, x, d + n - 1, tables[y].elems[s + n - 1]);
            Spliced(t[x].elems, d, t[y].elems, s, n - 1) == Spliced(tables[x].elems, d, tables[y].elems, s, n)
  {
  }
}
