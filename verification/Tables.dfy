/** A table as it is stored: a growable vector of references, changed in place. */
module Tables {
  import opened Syntax
  import opened Runtime
  import opened Vectors

  /** How a table instruction ends: with a value or none, in a trap, or left open by C. */
  datatype Answer = Pushes(x: int) | NoValue | Trapping | Open

  class Table {
    const elem: Vec<U32>
    const reftype: ValType
    const max: U32

    ghost predicate Valid()
      reads this, elem
    {
      elem.Valid() && elem.len == elem.cap
    }

    /** This object stands for `tab`. */
    ghost predicate Represents(tab: TableInst)
      reads this, elem, elem.elem
    {
      Valid() && elem.View() == tab.elems && reftype == tab.reftype && max == tab.max
    }

    /** alloc_table: as many null references as the type's minimum. */
    constructor (min: U32, reftype: ValType, max: U32)
      ensures fresh(elem) && Represents(TableInst(reftype, max, seq(min, _ => NULL_REF)))
    {
      var nulls := Full<U32>(seq(min, _ => NULL_REF));
      elem := nulls;
      this.reftype := reftype;
      this.max := max;
    }

    /** table.get: None is the trap. */
    method Get(i: int, ghost tab: TableInst) returns (r: Option<U32>)
      requires Represents(tab)
      ensures r == if 0 <= i < |tab.elems| then Some(tab.elems[i]) else None
    {
      if i < 0 || i >= elem.len {
        return None;
      }
      r := elem.Elem(i);
    }

    /** table.set: false is the trap. */
    method Set(i: int, r: U32, ghost tab: TableInst) returns (ok: bool)
      requires Represents(tab)
      modifies elem, elem.elem
      ensures ok == (0 <= i < |tab.elems|)
      ensures Represents(if ok then tab.(elems := tab.elems[i := r]) else tab)
    {
      if i < 0 || i >= elem.len {
        return false;
      }
      elem.elem[i] := r;
      ok := true;
    }

    /** table.grow: the old size, or -1. The vector changes its capacity and its length, and a
        loop with a signed counter puts the reference into every new slot. */
    method Grow(r: U32, n: int, ghost tab: TableInst) returns (a: Answer)
      requires Represents(tab) && InI32(n) && |tab.elems| <= 0xFFFF_FFFF
      modifies elem, elem.elem
      ensures match RegrowRefs(tab, n, r)
              case GrowRefused => a == Pushes(-1) && Represents(tab)
              case GrowUB => a == Open
              case Regrown(elems) => a == Pushes(|tab.elems|) && Represents(tab.(elems := elems))
    {
      var size := elem.len;
      if max != 0 && (n + elem.len < 0 || n + elem.len > max) {
        return Pushes(-1);
      }
      if n != 0 && n + elem.cap == 0 {
        return Open;
      }
      var ok := elem.Grow(n);
      if !ok {
        return Pushes(-1);
      }
      elem.len := elem.len + n;
      var i := ToI32(size);
      if i < 0 && n > 0 {
        return Open; // the loop ends at once and leaves the new slots as they are
      }
      ghost var start := i;
      assert n <= 0 ==> elem.View() == tab.elems[..size + n];
      while 0 <= i < elem.len
        invariant start <= i <= INT_MAX && (n > 0 ==> i <= elem.len) && elem.Valid() && elem.len == elem.cap == size + n
        invariant n > 0 ==> start == size && elem.elem != null && fresh(elem.elem)
        invariant n > 0 ==> elem.elem[..i] == tab.elems + seq(i - size, _ => r)
        invariant n <= 0 ==> elem.View() == tab.elems[..size + n] && (i < 0 || i >= elem.len)
        invariant elem.elem == null || elem.elem == old(elem.elem) || fresh(elem.elem)
        decreases elem.len - i
      {
        elem.elem[i] := r;
        if i == INT_MAX {
          return Open;
        }
        i := i + 1;
      }
      assert n > 0 ==> elem.View() == tab.elems + seq(n, _ => r);
      assert n == 0 ==> elem.View() == tab.elems;
      a := Pushes(size);
    }

    /** table.fill: the bound is checked in every round. */
    method Fill(from: int, r: U32, count: int, ghost tab: TableInst) returns (a: Answer)
      requires Represents(tab) && InI32(from) && InI32(count)
      modifies elem.elem
      ensures match FillRefs(tab.elems, from, count, r)
              case FillTraps => a == Trapping && Represents(tab)
              case FillUB => a == Open
              case Filled(elems) => a == NoValue && Represents(tab.(elems := elems))
    {
      var i, n := from, count;
      ghost var elems: seq<U32> := tab.elems;
      while true
        invariant InI32(i) && InI32(n) && Represents(tab.(elems := elems)) && i + n == from + count
        invariant |elems| == |tab.elems| && (elems == tab.elems || 0 <= i + n <= |elems|)
        invariant FillRefs(elems, i, n, r) == FillRefs(tab.elems, from, count, r)
        decreases n - INT_MIN
      {
        if !InI32(i + n) {
          return Open;
        }
        if i + n < 0 || i + n > elem.len {
          return Trapping;
        }
        if n == 0 {
          break;
        }
        var slot := i >= 0 && i < elem.len;
        if !slot || i == INT_MAX || n == INT_MIN {
          return Open;
        }
        elem.elem[i] := r;
        elems := elems[i := r];
        assert elem.View() == elems;
        i, n := i + 1, n - 1;
      }
      a := NoValue;
    }
  }

  /** The machine's table.grow and table.fill are these, on the table of the current module. */
  lemma GrowIsPerformed(x: U32, r: Val, n: Val, locals: seq<Val>, S: Store, m: ModInst)
    requires ValidAddr(m.tableaddrs, x, |S.tables|)
    ensures var a := m.tableaddrs[x];
            Perform(TableGrow(x), [r, n], locals, S, m) ==
            match RegrowRefs(S.tables[a], AsI32(n), AsU32(r))
            case GrowRefused => Did([ValI32(-1)], locals, S)
            case GrowUB => EffectUB
            case Regrown(elems) => Did([ValI32(|S.tables[a].elems|)], locals, S.(tables := S.tables[a := S.tables[a].(elems := elems)]))
  {
  }
}
