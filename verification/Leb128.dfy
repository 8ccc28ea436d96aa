/** The LEB128 readers, against the integer grammar of section 5.2.2 of the WebAssembly Core
    Specification 2.0. Readers take the bytes and a position and return a value and the
    position after it. */
module Leb128 {
  import opened Syntax

  const TWO64 := 0x1_0000_0000_0000_0000
  const TWO63 := 0x8000_0000_0000_0000
  const TWO32 := 0x1_0000_0000
  const TWO31 := 0x8000_0000

  function ReadByte(data: seq<Byte>, p: nat): (r: Result<(Byte, nat)>)
    ensures r.Ok? ==> p < r.value.1 <= |data|
  {
    if p < |data| then Ok((data[p], p + 1)) else Err(UnexpectedEnd)
  }

  /** The loop of the unsigned reader. */
  function ReadUnsigned(data: seq<Byte>, p: nat, shift: nat, acc: nat, maxBits: nat): (r: Result<(nat, nat)>)
    ensures r.Ok? ==> p < r.value.1 <= |data|
    decreases |data| - p
  {
    if p >= |data| then Err(UnexpectedEnd) else
    var b := data[p];
    var acc' := acc + b % 0x80 * Pow2(shift);
    if b < 0x80 then Ok((acc', p + 1))
    else if shift + 7 >= maxBits then Err(IntegerRepresentationTooLong)
    else ReadUnsigned(data, p + 1, shift + 7, acc', maxBits)
  }

  /** The 64-bit pattern of a signed number. */
  function ToI64(x: nat): int { if x < TWO63 then x else x - TWO64 }

  /** The loop of the signed reader, on 64-bit patterns. */
  function ReadSigned(data: seq<Byte>, p: nat, shift: nat, acc: nat, maxBits: nat): (r: Result<(int, nat)>)
    ensures r.Ok? ==> p < r.value.1 <= |data|
    decreases |data| - p
  {
    if p >= |data| then Err(UnexpectedEnd) else
    var b := data[p];
    var acc' := (acc + b % 0x80 * Pow2(shift)) % TWO64;
    if b < 0x80 then
      if shift + 7 == 70 && b != 0x7F && b != 0x00 then Err(IntegerTooLarge)
      else if b >= 0x40 && shift + 7 < 64 then Ok((ToI64((acc' + (TWO64 - Pow2(shift + 7))) % TWO64), p + 1))
      else Ok((ToI64(acc'), p + 1))
    else if shift + 7 >= maxBits then Err(IntegerRepresentationTooLong)
    else ReadSigned(data, p + 1, shift + 7, acc', maxBits)
  }

  function ReadU32(data: seq<Byte>, p: nat): (r: Result<(U32, nat)>)
    ensures r.Ok? ==> p < r.value.1 <= |data|
  {
    match ReadUnsigned(data, p, 0, 0, 32)
    case Err(e) => Err(e)
    case Ok((v, q)) => if v >= TWO32 then Err(IntegerTooLarge) else Ok((v, q))
  }

  function ReadU7(data: seq<Byte>, p: nat): (r: Result<(Byte, nat)>)
    ensures r.Ok? ==> p < r.value.1 <= |data|
  {
    match ReadUnsigned(data, p, 0, 0, 7)
    case Err(e) => Err(e)
    case Ok((v, q)) => Ok((v % 0x100, q))
  }

  function ReadI32(data: seq<Byte>, p: nat): (r: Result<(int, nat)>)
    ensures r.Ok? ==> p < r.value.1 <= |data|
  {
    match ReadSigned(data, p, 0, 0, 32)
    case Err(e) => Err(e)
    case Ok((v, q)) => if v >= TWO31 || v < -TWO31 then Err(IntegerTooLarge) else Ok((v, q))
  }

  function ReadI64(data: seq<Byte>, p: nat): (r: Result<(int, nat)>)
    ensures r.Ok? ==> p < r.value.1 <= |data|
  { ReadSigned(data, p, 0, 0, 64) }

  // ---------------------------------------------------------------- the grammar

  /** uN: value and length of the encoding at the start of `s`, if there is one. */
  ghost function GrammarU(s: seq<Byte>, N: nat): Option<(nat, nat)>
    decreases |s|
  {
    if s == [] then None
    else if s[0] < 0x80 then (if s[0] < Pow2(N) then Some((s[0], 1)) else None)
    else if N > 7 then
      match GrammarU(s[1..], N - 7)
      case Some((m, k)) => Some((0x80 * m + (s[0] - 0x80), k + 1))
      case None => None
    else None
  }

  /** sN, for N > 0. */
  ghost function GrammarS(s: seq<Byte>, N: nat): Option<(int, nat)>
    requires N > 0
    decreases |s|
  {
    if s == [] then None
    else if s[0] < 0x40 then (if s[0] < Pow2(N - 1) then Some((s[0], 1)) else None)
    else if s[0] < 0x80 then (if s[0] >= 0x80 - Pow2(N - 1) then Some((s[0] as int - 0x80, 1)) else None)
    else if N > 7 then
      match GrammarS(s[1..], N - 7)
      case Some((m, k)) => Some((0x80 * m + (s[0] - 0x80), k + 1))
      case None => None
    else None
  }

  // ---------------------------------------------------------------- values of encodings

  /** Length of the byte string up to the first byte without continuation bit, if at most `max`. */
  ghost function Span(s: seq<Byte>, max: nat): (k: Option<nat>)
    ensures k.Some? ==> 0 < k.value <= max && k.value <= |s| && s[k.value - 1] < 0x80
    decreases max
  {
    if s == [] || max == 0 then None
    else if s[0] < 0x80 then Some(1)
    else
      match Span(s[1..], max - 1)
      case Some(k) => Some(k + 1)
      case None => None
  }

  /** The number made of the low seven bits of each byte. */
  ghost function UVal(s: seq<Byte>): nat
    decreases |s|
  {
    if s == [] then 0 else s[0] % 0x80 + 0x80 * UVal(s[1..])
  }

  ghost function SVal(s: seq<Byte>): int
    requires s != []
  {
    if s[|s| - 1] % 0x80 < 0x40 then UVal(s) else UVal(s) - Pow2(7 * |s|)
  }

  lemma {:induction false} Pow2Add(a: nat, b: nat)
    ensures Pow2(a + b) == Pow2(a) * Pow2(b)
    decreases a
  {
    if a > 0 {
      Pow2Add(a - 1, b);
    }
  }

  lemma Pow2Seven(n: nat)
    ensures Pow2(n + 7) == 0x80 * Pow2(n)
  {
    assert Pow2(n + 7) == 2 * Pow2(n + 6) == 4 * Pow2(n + 5) == 8 * Pow2(n + 4);
    assert Pow2(n + 4) == 2 * Pow2(n + 3) == 4 * Pow2(n + 2) == 8 * Pow2(n + 1) == 16 * Pow2(n);
  }

  lemma {:induction false} UValSnoc(s: seq<Byte>, b: Byte)
    ensures UVal(s + [b]) == UVal(s) + b % 0x80 * Pow2(7 * |s|)
    decreases |s|
  {
    if s == [] {
      assert s + [b] == [b];
    } else {
      assert (s + [b])[1..] == s[1..] + [b];
      UValSnoc(s[1..], b);
      Pow2Seven(7 * |s[1..]|);
      assert 7 * |s| == 7 * |s[1..]| + 7;
      assert 0x80 * (b % 0x80 * Pow2(7 * |s[1..]|)) == b % 0x80 * Pow2(7 * |s|);
    }
  }

  lemma {:induction false} UValBound(s: seq<Byte>)
    ensures UVal(s) < Pow2(7 * |s|)
    decreases |s|
  {
    if s != [] {
      UValBound(s[1..]);
      Pow2Seven(7 * |s[1..]|);
      assert 7 * |s| == 7 * |s[1..]| + 7;
    }
  }

  lemma SValCons(s: seq<Byte>)
    requires |s| > 1
    ensures SVal(s) == s[0] % 0x80 + 0x80 * SVal(s[1..])
  {
    assert s[1..][|s[1..]| - 1] == s[|s| - 1];
    Pow2Seven(7 * |s[1..]|);
    assert 7 * |s| == 7 * |s[1..]| + 7;
  }

  /** The numbers of N bits in two's complement. */
  ghost predicate InRange(v: int, N: nat)
    requires N > 0
  {
    0 <= v + Pow2(N - 1) < 2 * Pow2(N - 1)
  }

  lemma InRangeStep(m: int, r: nat, N: nat)
    requires N > 7 && r < 0x80
    ensures InRange(r + 0x80 * m, N) <==> InRange(m, N - 7)
  {
    Pow2Seven(N - 8);
  }

  /** The grammar accepts exactly the encodings of at most m = ceil(N/7) bytes whose value is
      in range, padded ones included. */
  lemma {:induction false} GrammarUIs(s: seq<Byte>, N: nat, m: nat)
    requires N > 0 && 7 * m - 7 < N <= 7 * m
    ensures GrammarU(s, N) ==
            var k := Span(s, m);
            if k.Some? && UVal(s[..k.value]) < Pow2(N) then Some((UVal(s[..k.value]), k.value)) else None
    decreases |s|
  {
    hide UVal, Pow2;
    if s == [] {
    } else if s[0] < 0x80 {
      UValOne(s);
    } else if N > 7 {
      GrammarUIs(s[1..], N - 7, m - 1);
      Pow2Seven(N - 7);
      var k := Span(s[1..], m - 1);
      if k.Some? {
        UValCons(s, k.value);
      }
    }
  }

  lemma UValOne(s: seq<Byte>)
    requires s != [] && s[0] < 0x80
    ensures UVal(s[..1]) == s[0]
  {
    assert s[..1][1..] == [];
  }

  lemma UValCons(s: seq<Byte>, k: nat)
    requires s != [] && k <= |s[1..]|
    ensures UVal(s[..k + 1]) == s[0] % 0x80 + 0x80 * UVal(s[1..][..k])
  {
    assert s[..k + 1][1..] == s[1..][..k];
  }

  lemma {:induction false} GrammarSIs(s: seq<Byte>, N: nat, m: nat)
    requires N > 0 && 7 * m - 7 < N <= 7 * m
    ensures GrammarS(s, N) ==
            var k := Span(s, m);
            if k.Some? && InRange(SVal(s[..k.value]), N) then Some((SVal(s[..k.value]), k.value)) else None
    decreases |s|
  {
    hide UVal, InRange, Pow2;
    if s == [] {
    } else if s[0] < 0x80 {
      GrammarSLast(s, N);
    } else if N > 7 {
      GrammarSIs(s[1..], N - 7, m - 1);
      var k := Span(s[1..], m - 1);
      if k.Some? {
        assert s[..k.value + 1][1..] == s[1..][..k.value];
        SValCons(s[..k.value + 1]);
        InRangeStep(SVal(s[1..][..k.value]), s[0] - 0x80, N);
      }
    }
  }

  lemma GrammarSLast(s: seq<Byte>, N: nat)
    requires N > 0 && s != [] && s[0] < 0x80
    ensures SVal(s[..1]) == if s[0] < 0x40 then s[0] else s[0] as int - 0x80
    ensures GrammarS(s, N) == if InRange(SVal(s[..1]), N) then Some((SVal(s[..1]), 1)) else None
  {
    assert s[..1][1..] == [];
    assert UVal(s[..1]) == s[0];
    assert Pow2(7) == 0x80 by { Pow2Seven(0); }
  }

  // ---------------------------------------------------------------- the readers' results

  /** The error of a reader that finds no last byte within `max` bytes. */
  function SpanError(available: nat, max: nat): Error {
    if available < max then UnexpectedEnd else IntegerRepresentationTooLong
  }

  lemma {:induction false} ReadUnsignedIs(data: seq<Byte>, p: nat, n: nat, acc: nat, maxBits: nat, m: nat)
    requires p <= |data| && m > 0 && 7 * (n + m) - 7 < maxBits <= 7 * (n + m)
    ensures var k := Span(data[p..], m);
            ReadUnsigned(data, p, 7 * n, acc, maxBits) ==
            if k.Some? then Ok((acc + Pow2(7 * n) * UVal(data[p..][..k.value]), p + k.value))
            else Err(SpanError(|data| - p, m))
    decreases |data| - p
  {
    hide Pow2, UVal;
    if p < |data| {
      var b, s := data[p], data[p..];
      assert s[1..] == data[p + 1..];
      if b < 0x80 {
        assert s[..1] == [b];
        assert UVal(s[..1]) == b by { UValSingle(b); }
      } else if 7 * n + 7 < maxBits {
        assert 7 * n + 7 == 7 * (n + 1);
        ReadUnsignedIs(data, p + 1, n + 1, acc + b % 0x80 * Pow2(7 * n), maxBits, m - 1);
        var k := Span(s[1..], m - 1);
        if k.Some? {
          UnsignedStep(s, k.value, n, acc);
        }
      }
    }
  }

  lemma UValSingle(b: Byte)
    requires b < 0x80
    ensures UVal([b]) == b
  {
    assert [b][1..] == [];
  }

  lemma UnsignedStep(s: seq<Byte>, k: nat, n: nat, acc: nat)
    requires s != [] && k <= |s[1..]|
    ensures acc + s[0] % 0x80 * Pow2(7 * n) + Pow2(7 * (n + 1)) * UVal(s[1..][..k]) == acc + Pow2(7 * n) * UVal(s[..k + 1])
  {
    var u := UVal(s[1..][..k]);
    assert s[..k + 1][1..] == s[1..][..k];
    Pow2Seven(7 * n);
    assert 7 * (n + 1) == 7 * n + 7;
    assert Pow2(7 * (n + 1)) * u == Pow2(7 * n) * (0x80 * u);
    assert Pow2(7 * n) * (s[0] % 0x80 + 0x80 * u) == Pow2(7 * n) * (s[0] % 0x80) + Pow2(7 * n) * (0x80 * u);
  }

  /** read_u32_leb128 accepts exactly what the grammar accepts as u32, with its value, and
      stops behind it; every other input gives one of three errors. */
  lemma ReadU32Exact(data: seq<Byte>, p: nat)
    requires p <= |data|
    ensures ReadU32(data, p).Ok? <==> GrammarU(data[p..], 32).Some?
    ensures ReadU32(data, p).Ok? ==>
              var (v, k) := GrammarU(data[p..], 32).value;
              ReadU32(data, p) == Ok((v, p + k)) && 0 < k <= 5 && p + k <= |data|
    ensures ReadU32(data, p).Err? ==> ReadU32(data, p).error in {UnexpectedEnd, IntegerRepresentationTooLong, IntegerTooLarge}
  {
    ReadUnsignedIs(data, p, 0, 0, 32, 5);
    GrammarUIs(data[p..], 32, 5);
    PowerValues();
  }

  lemma PowerValues()
    ensures Pow2(31) == TWO31 && Pow2(32) == TWO32 && Pow2(63) == TWO63 && Pow2(64) == TWO64
    ensures Pow2(7) == 0x80 && Pow2(0) == 1
  {
    Pow2Seven(0);
    Pow2Seven(7);
    Pow2Seven(14);
    Pow2Seven(21);
    assert Pow2(31) == 8 * Pow2(28) && Pow2(32) == 16 * Pow2(28);
    Pow2Add(32, 31);
    assert Pow2(64) == 2 * Pow2(63);
  }

  /** A seven-bit reader takes exactly one byte without continuation bit. */
  lemma ReadU7Exact(data: seq<Byte>, p: nat)
    requires p <= |data|
    ensures ReadU7(data, p) ==
            if p == |data| then Err(UnexpectedEnd)
            else if data[p] < 0x80 then Ok((data[p], p + 1))
            else Err(IntegerRepresentationTooLong)
  {
  }

  // ---------------------------------------------------------------- the signed reader

  /** What the signed reader makes of a complete byte string. */
  ghost function SignedResult(bytes: seq<Byte>): Result<int>
    requires bytes != []
  {
    if |bytes| == 10 && bytes[9] != 0x7F && bytes[9] != 0x00 then Err(IntegerTooLarge) else Ok(SVal(bytes))
  }

  /** Patterns of at most nine bytes: sign extension by adding the high bits. */
  lemma ShortPattern(u: nat, b: Byte, h: nat)
    requires b < 0x80 && u < h && 0x80 * h <= TWO63
    ensures var acc := (u % TWO64 + b * h) % TWO64;
            && (b >= 0x40 ==> ToI64((acc + (TWO64 - 0x80 * h)) % TWO64) == u + b * h - 0x80 * h)
            && (b < 0x40 ==> ToI64(acc) == u + b * h)
  {
    NinthByte(u, b, h);
    ShortAt(u, b, b * h, h);
  }

  lemma ShortAt(u: nat, b: Byte, x: nat, h: nat)
    requires u + x < 0x80 * h <= TWO63 && (b >= 0x40 ==> 2 * (u + x) >= 0x80 * h)
    ensures var acc := (u % TWO64 + x) % TWO64;
            && (b >= 0x40 ==> ToI64((acc + (TWO64 - 0x80 * h)) % TWO64) == u + x - 0x80 * h)
            && (b < 0x40 ==> ToI64(acc) == u + x)
  {
    hide ToI64;
    ShortMod(u, x, 0x80 * h);
  }

  lemma ShortMod(u: nat, x: nat, H: nat)
    requires u + x < H <= TWO63
    ensures var acc := (u % TWO64 + x) % TWO64;
            && (2 * (u + x) >= H ==> ToI64((acc + (TWO64 - H)) % TWO64) == u + x - H)
            && ToI64(acc) == u + x
  {
    assert u % TWO64 == u;
    assert (u + x) % TWO64 == u + x;
  }

  lemma NinthByte(u: nat, b: Byte, h: nat)
    requires b < 0x80 && u < h && 0x80 * h <= TWO63
    ensures u + b * h < 0x80 * h
    ensures b < 0x40 ==> 0 <= u + b * h < TWO63
    ensures b >= 0x40 ==> 2 * (u + b * h) >= 0x80 * h && -TWO63 <= u + b * h - 0x80 * h < 0
  {
    MulLe(b, 0x7F, h);
    if b >= 0x40 {
      MulLe(0x40, b, h);
    }
    NinthAt(u, b, b * h, h);
  }

  lemma NinthAt(u: nat, b: Byte, x: nat, h: nat)
    requires u < h && 0x80 * h <= TWO63 && x <= 0x7F * h && (b >= 0x40 ==> x >= 0x40 * h)
    ensures u + x < 0x80 * h
    ensures b < 0x40 ==> 0 <= u + x < TWO63
    ensures b >= 0x40 ==> 2 * (u + x) >= 0x80 * h && -TWO63 <= u + x - 0x80 * h < 0
  {
  }

  lemma MulLe(a: nat, b: nat, h: nat)
    requires a <= b
    ensures a * h <= b * h
  {
  }

  /** Patterns of ten bytes: only the lowest bit of the last byte counts. */
  lemma LongPattern(u: nat, b: Byte)
    requires u < TWO63 && (b == 0x7F || b == 0x00)
    ensures ToI64((u % TWO64 + b * TWO63) % TWO64) == if b == 0 then u else u + 0x7F * TWO63 - 0x80 * TWO63
  {
    if b == 0x7F {
      assert u + 0x7F * TWO63 == (u + TWO63) + 63 * TWO64;
    }
  }

  lemma SignedLast(pre: seq<Byte>, b: Byte)
    requires |pre| <= 9 && b < 0x80
    ensures var acc := (UVal(pre) % TWO64 + b % 0x80 * Pow2(7 * |pre|)) % TWO64;
            |pre| <= 8 ==>
              && (b >= 0x40 ==> ToI64((acc + (TWO64 - Pow2(7 * |pre| + 7))) % TWO64) == SVal(pre + [b]))
              && (b < 0x40 ==> ToI64(acc) == SVal(pre + [b]))
    ensures |pre| == 9 && (b == 0x7F || b == 0x00) ==>
              ToI64((UVal(pre) % TWO64 + b % 0x80 * Pow2(7 * |pre|)) % TWO64) == SVal(pre + [b])
    ensures |pre| <= 8 ==> Pow2(7 * |pre| + 7) <= TWO63
  {
    hide ToI64, UVal, Pow2;
    var u, h := UVal(pre), Pow2(7 * |pre|);
    UValSnoc(pre, b);
    UValBound(pre);
    PowerValues();
    Pow2Seven(7 * |pre|);
    assert 7 * |pre + [b]| == 7 * |pre| + 7;
    if |pre| <= 8 {
      Pow2Mono(7 * |pre| + 7, 63);
      ShortPattern(u, b, h);
    } else if b == 0x7F || b == 0x00 {
      LongPattern(u, b);
    }
  }

  lemma {:induction false} Pow2Mono(a: nat, b: nat)
    requires a <= b
    ensures Pow2(a) <= Pow2(b)
    decreases b
  {
    if a < b {
      Pow2Mono(a, b - 1);
    }
  }

  /** The signed reader's result for `bytes` ending before position `q`. */
  ghost function SignedAt(bytes: seq<Byte>, q: nat): Result<(int, nat)>
    requires bytes != []
  {
    match SignedResult(bytes)
    case Ok(v) => Ok((v, q))
    case Err(e) => Err(e)
  }

  lemma ReadSignedLast(data: seq<Byte>, p: nat, pre: seq<Byte>, maxBits: nat)
    requires p < |data| && data[p] < 0x80 && |pre| <= 9
    ensures ReadSigned(data, p, 7 * |pre|, UVal(pre) % TWO64, maxBits) == SignedAt(pre + [data[p]], p + 1)
  {
    hide UVal, SVal, Pow2, ToI64;
    SignedLast(pre, data[p]);
  }

  lemma ModAdd(u: nat, x: nat)
    ensures (u % TWO64 + x) % TWO64 == (u + x) % TWO64
  {
  }

  lemma ReadSignedMore(data: seq<Byte>, p: nat, pre: seq<Byte>, maxBits: nat)
    requires p < |data| && data[p] >= 0x80 && 7 * |pre| + 7 < maxBits
    ensures ReadSigned(data, p, 7 * |pre|, UVal(pre) % TWO64, maxBits)
            == ReadSigned(data, p + 1, 7 * |pre + [data[p]]|, UVal(pre + [data[p]]) % TWO64, maxBits)
  {
    hide UVal, Pow2, ToI64;
    var b := data[p];
    UValSnoc(pre, b);
    ModAdd(UVal(pre), b % 0x80 * Pow2(7 * |pre|));
    assert 7 * |pre + [b]| == 7 * |pre| + 7;
  }

  lemma ReadSignedFails(data: seq<Byte>, p: nat, n: nat, acc: nat, maxBits: nat)
    requires p <= |data| && (p == |data| || (data[p] >= 0x80 && 7 * n + 7 >= maxBits))
    ensures ReadSigned(data, p, 7 * n, acc, maxBits) == Err(if p == |data| then UnexpectedEnd else IntegerRepresentationTooLong)
  {
  }

  lemma {:induction false} ReadSignedIs(data: seq<Byte>, p: nat, pre: seq<Byte>, maxBits: nat, m: nat)
    requires p <= |data| && m > 0 && 7 * (|pre| + m) - 7 < maxBits <= 64 && maxBits <= 7 * (|pre| + m)
    ensures var k := Span(data[p..], m);
            ReadSigned(data, p, 7 * |pre|, UVal(pre) % TWO64, maxBits) ==
            if k.None? then Err(SpanError(|data| - p, m))
            else SignedAt(pre + data[p..][..k.value], p + k.value)
    decreases |data| - p
  {
    hide UVal, SignedAt, ReadSigned, Span;
    SpanStep(data, p, m);
    if p == |data| || (data[p] >= 0x80 && m == 1) {
      ReadSignedFails(data, p, |pre|, UVal(pre) % TWO64, maxBits);
    } else if data[p] < 0x80 {
      assert data[p..][..1] == [data[p]];
      ReadSignedLast(data, p, pre, maxBits);
    } else {
      var pre' := pre + [data[p]];
      ReadSignedMore(data, p, pre, maxBits);
      ReadSignedIs(data, p + 1, pre', maxBits, m - 1);
      var k := Span(data[p + 1..], m - 1);
      if k.Some? {
        assert pre' + data[p + 1..][..k.value] == pre + data[p..][..k.value + 1];
      }
    }
  }

  lemma SpanStep(data: seq<Byte>, p: nat, m: nat)
    requires p <= |data| && m > 0
    ensures Span(data[p..], m) ==
            if p == |data| then None
            else if data[p] < 0x80 then Some(1)
            else
              var k := Span(data[p + 1..], m - 1);
              if k.Some? then Some(k.value + 1) else None
    ensures p < |data| && m == 1 && data[p] >= 0x80 ==> Span(data[p..], m).None?
  {
    if p < |data| {
      assert data[p..][1..] == data[p + 1..];
    }
  }

  /** read_i32_leb128 against the grammar of s32. */
  lemma ReadI32Exact(data: seq<Byte>, p: nat)
    requires p <= |data|
    ensures ReadI32(data, p).Ok? <==> GrammarS(data[p..], 32).Some?
    ensures ReadI32(data, p).Ok? ==>
              var (v, k) := GrammarS(data[p..], 32).value;
              ReadI32(data, p) == Ok((v, p + k)) && 0 < k <= 5 && p + k <= |data|
    ensures ReadI32(data, p).Err? ==> ReadI32(data, p).error in {UnexpectedEnd, IntegerRepresentationTooLong, IntegerTooLarge}
  {
    hide SVal, Pow2, GrammarS, ReadSigned, Span;
    assert UVal([]) == 0;
    ReadSignedIs(data, p, [], 32, 5);
    GrammarSIs(data[p..], 32, 5);
    PowerValues();
    var k := Span(data[p..], 5);
    if k.Some? {
      assert [] + data[p..][..k.value] == data[p..][..k.value];
    }
  }

  /** read_i64_leb128 against the grammar of s64. */
  lemma ReadI64Exact(data: seq<Byte>, p: nat)
    requires p <= |data|
    ensures ReadI64(data, p).Ok? <==> GrammarS(data[p..], 64).Some?
    ensures ReadI64(data, p).Ok? ==>
              var (v, k) := GrammarS(data[p..], 64).value;
              ReadI64(data, p) == Ok((v, p + k)) && 0 < k <= 10 && p + k <= |data|
    ensures ReadI64(data, p).Err? ==> ReadI64(data, p).error in {UnexpectedEnd, IntegerRepresentationTooLong, IntegerTooLarge}
  {
    hide SVal, Pow2, GrammarS, ReadSigned, Span, UVal, InRange, ToI64;
    assert UVal([]) % TWO64 == 0 by { UValNone(); }
    ReadSignedIs(data, p, [], 64, 10);
    GrammarSIs(data[p..], 64, 10);
    PowerValues();
    var k := Span(data[p..], 10);
    if k.Some? {
      var bytes := data[p..][..k.value];
      assert [] + bytes == bytes;
      TenBytes(bytes);
    }
  }

  lemma UValNone()
    ensures UVal([]) == 0
  {
  }

  /** A ten-byte number is a 64-bit number exactly when its last byte is 0x00 or 0x7F. */
  lemma TenBytes(bytes: seq<Byte>)
    requires 0 < |bytes| <= 10 && bytes[|bytes| - 1] < 0x80
    ensures SignedResult(bytes).Ok? <==> InRange(SVal(bytes), 64)
  {
    hide UVal, Pow2;
    var n := |bytes| - 1;
    var pre, b := bytes[..n], bytes[n];
    assert bytes == pre + [b];
    UValSnoc(pre, b);
    UValBound(pre);
    PowerValues();
    var h := Pow2(7 * n);
    Pow2Seven(7 * n);
    assert 7 * |bytes| == 7 * n + 7;
    if n < 9 {
      Pow2Mono(7 * n + 7, 63);
      NinthByte(UVal(pre), b, h);
    }
  }
}
