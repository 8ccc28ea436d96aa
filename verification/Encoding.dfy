/** Writing LEB128 numbers, and reading back every encoding of a number. */
module Encoding {
  import opened Syntax
  import opened Leb128

  /** `bytes` stands at position `p` of `data`. */
  ghost predicate At(data: seq<Byte>, p: nat, bytes: seq<Byte>) {
    p + |bytes| <= |data| && data[p..p + |bytes|] == bytes
  }

  lemma AtSplit(data: seq<Byte>, p: nat, a: seq<Byte>, b: seq<Byte>)
    ensures At(data, p, a + b) <==> At(data, p, a) && At(data, p + |a|, b)
  {
    if At(data, p, a + b) {
      assert data[p..p + |a|] == (a + b)[..|a|];
      assert data[p + |a|..p + |a| + |b|] == (a + b)[|a|..];
    }
    if At(data, p, a) && At(data, p + |a|, b) {
      assert data[p..p + |a| + |b|] == data[p..p + |a|] + data[p + |a|..p + |a| + |b|];
    }
  }

  /** The form of every encoding: only the last byte lacks the continuation bit. */
  ghost predicate Encoded(bytes: seq<Byte>) {
    bytes != [] && bytes[|bytes| - 1] < 0x80 && forall i :: 0 <= i < |bytes| - 1 ==> bytes[i] >= 0x80
  }

  lemma {:induction false} SpanOf(s: seq<Byte>, n: nat, max: nat)
    requires 0 < n <= |s| && Encoded(s[..n])
    ensures Span(s, max) == if n <= max then Some(n) else None
    decreases max
  {
    assert forall i :: 0 <= i < n ==> s[i] == s[..n][i];
    if max > 0 && n > 1 {
      assert s[1..][..n - 1] == s[..n][1..];
      SpanOf(s[1..], n - 1, max - 1);
    }
  }

  lemma SpanAt(data: seq<Byte>, p: nat, bytes: seq<Byte>, max: nat)
    requires At(data, p, bytes) && Encoded(bytes)
    ensures Span(data[p..], max) == if |bytes| <= max then Some(|bytes|) else None
    ensures data[p..][..|bytes|] == bytes
  {
    assert data[p..][..|bytes|] == data[p..p + |bytes|];
    SpanOf(data[p..], |bytes|, max);
  }

  lemma GrammarUAt(data: seq<Byte>, p: nat, bytes: seq<Byte>)
    requires p <= |data| && At(data, p, bytes) && Encoded(bytes) && |bytes| <= 5 && UVal(bytes) < TWO32
    ensures p <= |data| && GrammarU(data[p..], 32) == Some((UVal(bytes), |bytes|))
  {
    hide GrammarU, UVal, Span, Pow2, Encoded;
    var s := data[p..];
    SpanAt(data, p, bytes, 5);
    assert s[..|bytes|] == bytes;
    GrammarUIs(s, 32, 5);
    PowerValues();
  }

  /** Every encoding of a u32 in at most five bytes reads back, padded or not. */
  lemma ReadsU32(data: seq<Byte>, p: nat, bytes: seq<Byte>)
    requires p <= |data| && At(data, p, bytes) && Encoded(bytes) && |bytes| <= 5 && UVal(bytes) < TWO32
    ensures ReadU32(data, p) == Ok((UVal(bytes), p + |bytes|))
  {
    hide ReadU32, GrammarU, UVal, At, Encoded, Span;
    GrammarUAt(data, p, bytes);
    ReadU32Exact(data, p);
  }

  lemma ReadsI32(data: seq<Byte>, p: nat, bytes: seq<Byte>)
    requires At(data, p, bytes) && Encoded(bytes) && |bytes| <= 5 && -TWO31 <= SVal(bytes) < TWO31
    ensures ReadI32(data, p) == Ok((SVal(bytes), p + |bytes|))
  {
    hide ReadI32, GrammarS, SVal, Span, Pow2;
    SpanAt(data, p, bytes, 5);
    GrammarSIs(data[p..], 32, 5);
    PowerValues();
    ReadI32Exact(data, p);
  }

  lemma ReadsI64(data: seq<Byte>, p: nat, bytes: seq<Byte>)
    requires At(data, p, bytes) && Encoded(bytes) && |bytes| <= 10 && -TWO63 <= SVal(bytes) < TWO63
    ensures ReadI64(data, p) == Ok((SVal(bytes), p + |bytes|))
  {
    hide ReadI64, GrammarS, SVal, Span, Pow2;
    SpanAt(data, p, bytes, 10);
    GrammarSIs(data[p..], 64, 10);
    PowerValues();
    ReadI64Exact(data, p);
  }

  // ---------------------------------------------------------------- shortest encodings

  function WriteU(v: nat): (bytes: seq<Byte>)
    ensures Encoded(bytes) && UVal(bytes) == v
  {
    if v < 0x80 then
      assert UVal([v]) == v by { assert [v][1..] == []; }
      [v]
    else
      var rest := WriteU(v / 0x80);
      assert ([0x80 + v % 0x80] + rest)[1..] == rest;
      [0x80 + v % 0x80] + rest
  }

  lemma {:induction false} WriteULength(v: nat, k: nat)
    requires k > 0 && v < Pow2(7 * k)
    ensures |WriteU(v)| <= k
    decreases k
  {
    if v >= 0x80 {
      if k == 1 {
        PowerValues();
        assert false;
      }
      Pow2Seven(7 * (k - 1));
      assert 7 * k == 7 * (k - 1) + 7;
      WriteULength(v / 0x80, k - 1);
    }
  }

  function WriteS(v: int): (bytes: seq<Byte>)
    ensures bytes != []
    decreases if v < 0 then -v else v
  {
    if -0x40 <= v < 0x40 then [v % 0x80] else [0x80 + v % 0x80] + WriteS(v / 0x80)
  }

  lemma {:induction false} WriteSIs(v: int)
    ensures Encoded(WriteS(v)) && SVal(WriteS(v)) == v
    decreases if v < 0 then -v else v
  {
    hide SVal;
    if -0x40 <= v < 0x40 {
      OneByteS(v);
    } else {
      var bytes := WriteS(v);
      WriteSIs(v / 0x80);
      assert bytes[1..] == WriteS(v / 0x80);
      SValCons(bytes);
    }
  }

  lemma OneByteS(v: int)
    requires -0x40 <= v < 0x40
    ensures SVal([v % 0x80]) == v
  {
    var b: Byte := v % 0x80;
    assert [b][1..] == [];
    assert UVal([b]) == b;
    PowerValues();
  }

  lemma {:induction false} WriteSLength(v: int, k: nat)
    requires k > 0 && InRange(v, 7 * k)
    ensures |WriteS(v)| <= k
    decreases k
  {
    if !(-0x40 <= v < 0x40) {
      if k == 1 {
        assert Pow2(6) == 0x40 by { PowerValues(); }
        assert false;
      }
      assert v == v % 0x80 + 0x80 * (v / 0x80);
      InRangeStep(v / 0x80, v % 0x80, 7 * k);
      assert 7 * k - 7 == 7 * (k - 1);
      WriteSLength(v / 0x80, k - 1);
    }
  }

  /** Reading back what was written. */
  lemma RoundTripU32(data: seq<Byte>, p: nat, v: U32)
    requires At(data, p, WriteU(v))
    ensures ReadU32(data, p) == Ok((v, p + |WriteU(v)|))
  {
    hide Pow2, UVal;
    PowerValues();
    Pow2Mono(32, 35);
    WriteULength(v, 5);
    ReadsU32(data, p, WriteU(v));
  }

  lemma RoundTripI32(data: seq<Byte>, p: nat, v: int)
    requires -TWO31 <= v < TWO31 && At(data, p, WriteS(v))
    ensures ReadI32(data, p) == Ok((v, p + |WriteS(v)|))
  {
    hide Pow2, SVal, WriteS;
    PowerValues();
    Pow2Mono(31, 34);
    WriteSIs(v);
    WriteSLength(v, 5);
    ReadsI32(data, p, WriteS(v));
  }

  lemma RoundTripI64(data: seq<Byte>, p: nat, v: int)
    requires -TWO63 <= v < TWO63 && At(data, p, WriteS(v))
    ensures ReadI64(data, p) == Ok((v, p + |WriteS(v)|))
  {
    hide Pow2, SVal, WriteS;
    PowerValues();
    Pow2Mono(63, 69);
    WriteSIs(v);
    WriteSLength(v, 10);
    ReadsI64(data, p, WriteS(v));
  }
}
