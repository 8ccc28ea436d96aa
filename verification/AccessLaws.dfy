/** Loads and stores instruction by instruction: which bytes each one reads or writes, and what
    number it makes of them. Sections 4.4.7 and 4.3.1 of the WebAssembly Core Specification 2.0. */
module AccessLaws {
  import opened Syntax
  import opened Runtime
  import opened StateLaws
  import opened TypeSystem

  // ---------------------------------------------------------------- numbers and bytes

  /** How many numbers `n` bytes make. */
  function Span(n: nat): (m: nat)
    ensures m > 0
  {
    if n == 1 then 0x100 else if n == 2 then 0x1_0000 else if n == 4 then 0x1_0000_0000 else 0x1_0000_0000_0000_0000
  }

  function TypeSpan(t: ValType): nat { if t in {I32, F32} then 0x1_0000_0000 else 0x1_0000_0000_0000_0000 }

  /** The number of `n` bytes at `ea`, the first byte least. */
  function Joined(data: map<int, Byte>, ea: int, n: nat): nat {
    var low := Get(data, ea);
    if n == 1 then low
    else if n == 2 then low + 0x100 * Get(data, ea + 1)
    else if n == 4 then Half(data, ea)
    else Half(data, ea) + 0x1_0000_0000 * Half(data, ea + 4)
  }

  function Half(data: map<int, Byte>, ea: int): nat {
    Get(data, ea) + 0x100 * Get(data, ea + 1) + 0x1_0000 * Get(data, ea + 2) + 0x100_0000 * Get(data, ea + 3)
  }

  /** Byte `k` of a number. */
  function Digit(v: nat, k: nat): Byte { v / Pow256(k) % 0x100 }

  lemma ReadHalf(data: map<int, Byte>, ea: int, n: nat)
    requires n >= 4
    ensures ReadLE(data, ea, n) == Half(data, ea) + 0x1_0000_0000 * ReadLE(data, ea + 4, n - 4)
  {
    assert ReadLE(data, ea + 1, n - 1) == Get(data, ea + 1) + 0x100 * ReadLE(data, ea + 2, n - 2);
    assert ReadLE(data, ea + 2, n - 2) == Get(data, ea + 2) + 0x100 * ReadLE(data, ea + 3, n - 3);
    assert ReadLE(data, ea + 3, n - 3) == Get(data, ea + 3) + 0x100 * ReadLE(data, ea + 4, n - 4);
  }

  lemma ReadJoins(data: map<int, Byte>, ea: int, n: nat)
    requires n in {1, 2, 4, 8}
    ensures ReadLE(data, ea, n) == Joined(data, ea, n) < Span(n) == Pow256(n)
  {
    Pow256Values();
    assert ReadLE(data, ea + n, 0) == 0;
    if n == 2 {
      assert ReadLE(data, ea + 1, 1) == Get(data, ea + 1) + 0x100 * ReadLE(data, ea + 2, 0);
    } else if n >= 4 {
      ReadHalf(data, ea, n);
      if n == 8 {
        ReadHalf(data, ea + 4, 4);
      }
    }
  }

  /** What a store leaves at every address. */
  lemma {:induction false} WriteDigits(data: map<int, Byte>, ea: int, n: nat, v: nat, a: int)
    ensures Get(WriteLE(data, ea, n, v), a) == if ea <= a < ea + n then Digit(v, a - ea) else Get(data, a)
    decreases n
  {
    if n > 0 {
      var data' := data[ea := v % 0x100];
      WriteDigits(data', ea + 1, n - 1, v / 0x100, a);
      if ea < a < ea + n {
        DigitNext(v, a - ea);
      } else {
        assert Pow256(0) == 1;
      }
    }
  }

  lemma DigitNext(v: nat, k: nat)
    requires k > 0
    ensures Digit(v / 0x100, k - 1) == Digit(v, k)
  {
    var p := Pow256(k - 1);
    assert Pow256(k) == 0x100 * p;
    DivDiv(v, 0x100, p);
  }

  lemma DivDiv(v: nat, a: nat, b: nat)
    requires a > 0 && b > 0
    ensures a * b > 0 && v / a / b == v / (a * b)
  {
    var q, r := v / a, v % a;
    var t, u := q / b, q % b;
    assert v == a * q + r && q == b * t + u;
    assert a * q == a * (b * t) + a * u;
    assert a * (b * t) == (a * b) * t by { Assoc(a, b, t); }
    assert a * u + r < a * b by { Mono(a, u, b); }
    assert v == (a * b) * t + (a * u + r);
    Unique(v, a * b, t, a * u + r);
  }

  lemma Assoc(a: nat, b: nat, t: nat)
    ensures a * (b * t) == (a * b) * t
  {
  }

  lemma Mono(a: nat, u: nat, b: nat)
    requires u < b
    ensures a * u + a <= a * b
  {
    Multiples(u + 1, b, a);
  }

  lemma Unique(v: nat, m: nat, t: nat, r: nat)
    requires m > 0 && v == m * t + r && r < m
    ensures v / m == t
  {
    var q, s := v / m, v % m;
    assert v == m * q + s;
    if q < t {
      Mono(m, q, t);
    } else if t < q {
      Mono(m, t, q);
    }
  }

  // ---------------------------------------------------------------- what each instruction does

  predicate SignedLoad(opcode: Byte) { opcode in {0x2C, 0x2E, 0x30, 0x32, 0x34} }

  /** The bits of type `t` that a load makes of the number `x` of its `n` bytes: a signed load
      the same signed number, any other the same number. */
  predicate Extended(opcode: Byte, n: nat, t: ValType, x: nat, bits: nat) {
    if SignedLoad(opcode) then bits < TypeSpan(t) && Signed(bits, TypeSpan(t)) == Signed(x, Span(n)) else bits == x
  }

  /** An access of `n` bytes at `ea`: out of the memory, over the end of a page, or neither. */
  predicate Outside(S: Store, m: ModInst, ea: nat, n: nat)
    requires ValidAddr(m.memaddrs, 0, |S.mems|)
  {
    ea + n > S.mems[m.memaddrs[0]].pages * 0x1_0000
  }

  predicate OverPage(ea: nat, n: nat) { ea % 0x1000 + n > 0x1000 }

  lemma LoadExtends(opcode: Byte, n: nat, t: ValType, data: map<int, Byte>, ea: nat)
    requires LoadRule(opcode, n, t)
    ensures Width(opcode) == n && AccessType(opcode) == t && IsLoad(opcode)
    ensures Extended(opcode, n, t, Joined(data, ea, n), ExtendLoaded(opcode, ReadLE(data, ea, n)))
  {
    hide ReadLE, Joined;
    ReadJoins(data, ea, n);
    Pow256Values();
  }

  /** Every load, by opcode: it traps exactly outside the memory, and pushes a value of its type
      made of exactly its own bytes. */
  lemma LoadIs(opcode: Byte, n: nat, t: ValType, align: U32, offset: U32, base: Val, locals: seq<Val>, S: Store, m: ModInst)
    requires LoadRule(opcode, n, t) && ValidAddr(m.memaddrs, 0, |S.mems|)
    ensures var ea, r := AsU32(base) + offset, Perform(Access(opcode, align, offset), [base], locals, S, m);
            if Outside(S, m, ea, n) then r == Traps(TrapOutOfBoundsMemoryAccess)
            else if OverPage(ea, n) then r == EffectUB
            else
              && r.Did? && |r.results| == 1 && r == Did(r.results, locals, S) && r.results[0].tag == t
              && Extended(opcode, n, t, Joined(S.mems[m.memaddrs[0]].data, ea, n), r.results[0].bits)
  {
    hide ReadLE, ExtendLoaded, Joined, Extended, CrossesPage, Width, AccessType;
    var ea := AsU32(base) + offset;
    LoadExtends(opcode, n, t, S.mems[m.memaddrs[0]].data, ea);
    PageEnd(ea, n);
  }

  /** Every store, by opcode: it traps exactly outside the memory, and changes exactly its own
      bytes, to those of the value. */
  lemma StoreIs(opcode: Byte, n: nat, t: ValType, align: U32, offset: U32, base: Val, c: Val, locals: seq<Val>, S: Store, m: ModInst)
    requires StoreRule(opcode, n, t) && ValidAddr(m.memaddrs, 0, |S.mems|)
    ensures var a := m.memaddrs[0];
            var ea, r := AsU32(base) + offset, Perform(Access(opcode, align, offset), [base, c], locals, S, m);
            if Outside(S, m, ea, n) then r == Traps(TrapOutOfBoundsMemoryAccess)
            else if OverPage(ea, n) then r == EffectUB
            else
              && r.Did? && r.results == [] && r.locals == locals && |r.store.mems| == |S.mems|
              && r.store == S.(mems := S.mems[a := S.mems[a].(data := r.store.mems[a].data)])
              && forall k :: Get(r.store.mems[a].data, k) == if ea <= k < ea + n then Digit(c.bits, k - ea) else Get(S.mems[a].data, k)
  {
    hide WriteLE, CrossesPage, Digit;
    var data, ea := S.mems[m.memaddrs[0]].data, AsU32(base) + offset;
    assert Width(opcode) == n && IsStore(opcode) && !IsLoad(opcode);
    PageEnd(ea, n);
    forall k
      ensures Get(WriteLE(data, ea, n, c.bits), k) == if ea <= k < ea + n then Digit(c.bits, k - ea) else Get(data, k)
    {
      WriteDigits(data, ea, n, c.bits, k);
    }
  }

  lemma {:induction false} ReadPrefix(data: map<int, Byte>, ea: int, n: nat, k: nat, v: nat)
    requires k <= n
    ensures ReadLE(WriteLE(data, ea, n, v), ea, k) == v % Pow256(k)
    decreases k
  {
    if k > 0 {
      var data' := data[ea := v % 0x100];
      ReadPrefix(data', ea + 1, n - 1, k - 1, v / 0x100);
      WriteOutside(data', ea + 1, n - 1, v / 0x100, ea);
      ModStep(v, Pow256(k - 1));
    }
  }

  /** A load at the address of a store of at least as many bytes gives the stored value cut to
      the bits that the load reads, and extended as the load extends. */
  lemma LoadAfterStore(store: Byte, stored: nat, u: ValType, load: Byte, n: nat, t: ValType, offset: U32, base: Val, c: Val,
                       locals: seq<Val>, S: Store, m: ModInst)
    requires StoreRule(store, stored, u) && LoadRule(load, n, t) && n <= stored && ValidAddr(m.memaddrs, 0, |S.mems|)
    requires var ea := AsU32(base) + offset; !Outside(S, m, ea, stored) && !OverPage(ea, stored)
    ensures var r := Perform(Access(store, 0, offset), [base, c], locals, S, m);
            && r.Did?
            && var after := Perform(Access(load, 0, offset), [base], locals, r.store, m);
               && after.Did? && |after.results| == 1 && after.results[0].tag == t
               && Extended(load, n, t, c.bits % Span(n), after.results[0].bits)
  {
    hide ReadLE, WriteLE, ExtendLoaded, Joined, Extended, CrossesPage;
    var data, ea := S.mems[m.memaddrs[0]].data, AsU32(base) + offset;
    StoreIs(store, stored, u, 0, offset, base, c, locals, S, m);
    var S' := Perform(Access(store, 0, offset), [base, c], locals, S, m).store;
    assert Width(store) == stored;
    assert S'.mems[m.memaddrs[0]].data == WriteLE(data, ea, stored, c.bits);
    LoadIs(load, n, t, 0, offset, base, locals, S', m);
    ReadPrefix(data, ea, stored, n, c.bits);
    ReadJoins(S'.mems[m.memaddrs[0]].data, ea, n);
  }
}
