/** The growable vector: length, capacity, and a buffer that copies of the vector share. */
module Vectors {
  import opened Syntax

  class Vec<T(0)> {
    var cap: nat
    var len: nat
    var elem: array?<T>

    /** The buffer has room for `cap` elements. */
    ghost predicate Allocated()
      reads this
    {
      if elem == null then cap == 0 else elem.Length == cap
    }

    ghost predicate Valid()
      reads this
    {
      Allocated() && len <= cap
    }

    ghost function View(): (s: seq<T>)
      requires Valid()
      reads this, elem
      ensures |s| == len
    {
      if elem == null then [] else elem[..len]
    }

    /** `vector_init`. */
    constructor ()
      ensures Valid() && View() == [] && cap == 0
    {
      cap, len, elem := 0, 0, null;
    }

    /** `vector_new`; a length above the capacity is not rejected. */
    method New(length: nat, capacity: nat)
      modifies this
      ensures Allocated() && len == length && cap == capacity && fresh(elem)
    {
      elem := new T[capacity];
      cap := capacity;
      len := length;
    }

    /** `vector_copy`: shallow, both vectors then share one buffer. */
    method CopyFrom(src: Vec<T>)
      modifies this
      ensures cap == src.cap && len == src.len && elem == src.elem
    {
      cap, len, elem := src.cap, src.len, src.elem;
    }

    /** `vector_grow`: the capacity changes by `n`, in a buffer of its own. A negative count
        wraps around as an unsigned one: it gives a smaller buffer, which `len` is not adjusted
        to, or asks for more than can be allocated and is refused. Zero bytes are never asked for. */
    method Grow(n: int) returns (ok: bool)
      requires Valid() && (n == 0 || cap + n != 0)
      modifies this
      ensures ok == (old(cap) + n >= 0) && len == old(len)
      ensures ok ==> Allocated() && cap == old(cap) + n
      ensures ok ==> cap >= len ==> View() == old(View())
      ensures ok && cap < len ==> elem != null && elem[..] == old(View())[..cap]
      ensures if n == 0 || !ok then elem == old(elem) && cap == old(cap) else fresh(elem)
    {
      if n == 0 {
        return true;
      }
      if cap + n < 0 {
        return false;
      }
      var moved := new T[cap + n];
      var i := 0;
      while i < len && i < cap + n
        invariant i <= len && i <= cap + n && len == old(len) && cap == old(cap) && elem == old(elem)
        invariant forall k :: 0 <= k < i ==> moved[k] == elem[k]
        modifies moved
      {
        moved[i] := elem[i];
        i := i + 1;
      }
      elem := moved;
      cap := cap + n;
      ok := true;
    }

    /** `VECTOR_APPEND`: a full vector doubles first. With capacity 0 there is no slot to
        write to, so callers reserve one before. */
    method Append(v: T)
      requires Valid() && cap > 0
      modifies this, elem
      ensures Valid() && View() == old(View()) + [v] && len == old(len) + 1
      ensures if old(len) < old(cap) then elem == old(elem) && cap == old(cap) else fresh(elem) && cap == 2 * old(cap)
      ensures old(len) < old(cap) ==> forall k :: 0 <= k < cap && k != old(len) ==> elem[k] == old(elem[k])
    {
      if len == cap {
        var _ := Grow(cap);
      }
      elem[len] := v;
      len := len + 1;
      assert elem[..len - 1] == old(View());
    }

    method Contents() returns (s: seq<T>)
      requires Valid()
      ensures s == View()
    {
      s := if elem == null then [] else elem[..len];
    }

    /** `VECTOR_ELEM`: None stands for NULL. */
    method Elem(idx: nat) returns (r: Option<T>)
      requires Valid()
      ensures r == if idx < |View()| then Some(View()[idx]) else None
    {
      if len != 0 && idx < len {
        r := Some(elem[idx]);
      } else {
        r := None;
      }
    }

    /** `vector_concat`: the sums of capacities and lengths go to the wrong places, so the
        length is the sum of the sources' capacities. */
    method Concat(src1: Vec<T>, src2: Vec<T>)
      requires src1.Valid() && src2.Valid() && this != src1 && this != src2
      modifies this
      ensures Allocated() && elem != null && elem[..] == src1.View() + src2.View()
      ensures len == src1.cap + src2.cap && cap == src1.len + src2.len
      ensures Valid() <==> src1.len == src1.cap && src2.len == src2.cap
      ensures Valid() ==> View() == src1.View() + src2.View()
    {
      New(src1.cap + src2.cap, src1.len + src2.len);
      var i := 0;
      while i < src1.len
        invariant i <= src1.len
        invariant forall k :: 0 <= k < i ==> elem[k] == src1.View()[k]
        modifies elem
      {
        elem[i] := src1.elem[i];
        i := i + 1;
      }
      var j := 0;
      while j < src2.len
        invariant j <= src2.len
        invariant forall k :: 0 <= k < src1.len ==> elem[k] == src1.View()[k]
        invariant forall k :: 0 <= k < j ==> elem[src1.len + k] == src2.View()[k]
        modifies elem
      {
        elem[src1.len + j] := src2.elem[j];
        j := j + 1;
      }
      assert elem[..] == src1.View() + src2.View();
    }
  }

  /** A full vector of the elements of `s`, as the decoder makes vectors. */
  method Full<T(0)>(s: seq<T>) returns (v: Vec<T>)
    ensures fresh(v) && v.Valid() && v.View() == s && v.len == v.cap
  {
    v := new Vec();
    v.New(|s|, |s|);
    var i := 0;
    while i < |s|
      invariant i <= |s| && v.Valid() && v.len == v.cap == |s| && v.elem != null && fresh(v.elem)
      invariant v.elem[..i] == s[..i]
    {
      v.elem[i] := s[i];
      i := i + 1;
    }
    assert v.View() == s;
  }

  /** How the validator builds the list of all globals behind the back of the context: `all`
      starts as a copy of the context's vector, which holds the imported globals and has room
      for the module's own. Appending never moves the buffer and never changes what the
      context sees, so initialisers are checked against the imports alone. */
  method AppendShared<T(0)>(context: Vec<T>, own: seq<T>, all: Vec<T>)
    requires context.Valid() && context.cap == context.len + |own| && context != all
    modifies all, context.elem
    ensures context.Valid() && context.View() == old(context.View()) && context.elem == old(context.elem)
    ensures all.Valid() && all.elem == context.elem && all.View() == old(context.View()) + own
  {
    all.CopyFrom(context);
    ghost var imports := context.View();
    assert all.View() == imports + own[..0];
    var i := 0;
    while i < |own|
      invariant i <= |own|
      invariant context.Valid() && context.View() == imports && context.elem == old(context.elem) && context.cap == old(context.cap)
      invariant all.Valid() && all.elem == context.elem && all.cap == context.cap && all.len == |imports| + i
      invariant all.View() == imports + own[..i]
    {
      all.Append(own[i]);
      assert own[..i + 1] == own[..i] + [own[i]];
      i := i + 1;
    }
    assert own[..|own|] == own;
  }
}
