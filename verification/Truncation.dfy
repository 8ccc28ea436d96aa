/** The float-to-integer truncations: the bounds written in the source are exact. */
module Truncation {
  import opened Syntax
  import opened Leb128

  /** A float; a finite one is `m * 2^e`. */
  datatype Float = NaN | Infinite(negative: bool) | Finite(m: int, e: int)

  /** A float with a significand of `p` bits. */
  ghost predicate HasBits(v: Float, p: nat) { v.Finite? ==> Below(v.m, p) }

  /** Less than 2^p in absolute value. */
  ghost predicate Below(m: int, p: nat) { m < Pow2(p) && -m < Pow2(p) }

  /** Comparison of `m * 2^e` with an integer. */
  function AtMost(m: int, e: int, bound: int): bool {
    if e >= 0 then m * Pow2(e) <= bound else m <= bound * Pow2(-e)
  }

  function AtLeast(m: int, e: int, bound: int): bool {
    if e >= 0 then m * Pow2(e) >= bound else m >= bound * Pow2(-e)
  }

  /** `m * 2^e` without its fraction. */
  function Trunc(m: int, e: int): int {
    if e >= 0 then m * Pow2(e)
    else if m >= 0 then m / Pow2(-e)
    else -(-m / Pow2(-e))
  }

  /** Trunc is rounding toward zero: the one integer of the same sign whose distance to the
      number is less than one and which is not farther from zero. */
  lemma TruncTowardZero(m: int, e: int)
    ensures e < 0 ==>
              var t, d := Trunc(m, e), Pow2(-e);
              if m >= 0 then t * d <= m < (t + 1) * d else (t - 1) * d < m <= t * d
  {
  }

  // ---------------------------------------------------------------- the conversions

  /** One instance of the TRUNC macros: significand bits of the operand, the two bounds the
      operand is compared with, and the least and greatest integer of the type. */
  datatype Conv = Conv(p: nat, rmin: int, rmax: int, imin: int, imax: int)

  function ConvOf(single: bool, wide: bool, signed: bool): Conv {
    if single && !wide then
      if signed then Conv(24, -2147483904, 2147483648, -2147483648, 2147483647)
      else Conv(24, -1, 4294967296, 0, 4294967295)
    else if !wide then
      if signed then Conv(53, -2147483649, 2147483648, -2147483648, 2147483647)
      else Conv(53, -1, 4294967296, 0, 4294967295)
    else if single then
      if signed then Conv(24, -9223373136366403584, 9223372036854775808, -9223372036854775808, 9223372036854775807)
      else Conv(24, -1, 18446744073709551616, 0, 18446744073709551615)
    else if signed then Conv(53, -9223372036854777856, 9223372036854775808, -9223372036854775808, 9223372036854775807)
    else Conv(53, -1, 18446744073709551616, 0, 18446744073709551615)
  }

  /** TRUNC. */
  function Checked(c: Conv, v: Float): Result<int> {
    match v
    case NaN => Err(TrapInvalidConversion)
    case Infinite(_) => Err(TrapIntegerOverflow)
    case Finite(m, e) => if AtMost(m, e, c.rmin) || AtLeast(m, e, c.rmax) then Err(TrapIntegerOverflow) else Ok(Trunc(m, e))
  }

  /** TRUNC_SAT. */
  function Saturating(c: Conv, v: Float): int {
    match v
    case NaN => 0
    case Infinite(negative) => if negative then c.imin else c.imax
    case Finite(m, e) => if AtMost(m, e, c.rmin) then c.imin else if AtLeast(m, e, c.rmax) then c.imax else Trunc(m, e)
  }

  // ---------------------------------------------------------------- why the bounds are right

  lemma AtMostIs(m: int, e: int, bound: int)
    requires bound < 0
    ensures AtMost(m, e, bound) <==> Trunc(m, e) <= bound
  {
    hide Pow2;
    if e < 0 {
      var d := Pow2(-e);
      TimesSign(bound, d);
      if m < 0 {
        QuotientAtLeast(-m, d, -bound);
      } else {
        QuotientSign(m, d);
      }
    }
  }

  lemma AtLeastIs(m: int, e: int, bound: int)
    requires bound > 0
    ensures AtLeast(m, e, bound) <==> Trunc(m, e) >= bound
  {
    hide Pow2;
    if e < 0 {
      var d := Pow2(-e);
      TimesSign(-bound, d);
      if m >= 0 {
        QuotientAtLeast(m, d, bound);
      } else {
        QuotientSign(-m, d);
      }
    }
  }

  lemma TimesSign(x: int, d: nat)
    requires x < 0 && d > 0
    ensures x * d < 0 && -x * d == -(x * d)
  {
  }

  lemma QuotientSign(x: nat, d: nat)
    requires d > 0
    ensures 0 <= x / d <= x
  {
    QuotientAtLeast(x, d, 0);
    QuotientAtLeast(x, d, x + 1);
    TimesAtLeast(x + 1, d);
  }

  lemma TimesAtLeast(a: nat, d: nat)
    requires d > 0
    ensures a * d >= a
  {
  }

  lemma QuotientAtLeast(x: nat, d: nat, bound: nat)
    requires d > 0
    ensures x / d >= bound <==> x >= bound * d
  {
    var q, r := x / d, x % d;
    assert x == q * d + r;
    if q >= bound {
      assert q * d >= bound * d;
    } else {
      assert (q + 1) * d <= bound * d;
    }
  }

  /** The lower bound is one below the type, or one step of the float grid below it. */
  ghost predicate OnGrid(c: Conv) {
    && c.rmin < c.imin <= 0 && c.rmin < 0 && c.rmax == c.imax + 1 && c.imax >= 0
    && (c.rmin == c.imin - 1 || (c.p > 0 && exists g: nat :: GridStep(c, g)))
  }

  /** At the least integer of the type, floats are 2^g apart below and half that above. */
  ghost predicate GridStep(c: Conv, g: nat) {
    c.p + g > 1 && g > 0 && c.imin - c.rmin == Pow2(g) && -c.imin == Pow2(c.p + g - 1)
  }

  lemma InstancesOnGrid(single: bool, wide: bool, signed: bool)
    ensures OnGrid(ConvOf(single, wide, signed))
  {
    var c := ConvOf(single, wide, signed);
    PowerValues();
    if signed && single && !wide {
      Pow2Seven(1);
      assert GridStep(c, 8);
    } else if signed && single {
      Pow2Add(8, 32);
      Pow2Seven(1);
      assert GridStep(c, 40);
    } else if signed && wide {
      Pow2Seven(4);
      assert GridStep(c, 11);
    }
  }

  /** No float has its truncation strictly between the lower bound and the type. */
  lemma GridGap(c: Conv, m: int, e: int)
    requires OnGrid(c) && Below(m, c.p)
    ensures !(c.rmin < Trunc(m, e) < c.imin)
  {
    hide Pow2, Below;
    if c.rmin < Trunc(m, e) < c.imin {
      var g: nat :| GridStep(c, g);
      if e < g {
        SmallFloat(c.p, g, m, e);
      } else {
        LargeFloat(c.p, g, m, e);
      }
    }
  }

  /** From 2^g on, floats are multiples of 2^g. */
  lemma LargeFloat(p: nat, g: nat, m: int, e: int)
    requires p > 0 && e >= g && Trunc(m, e) < -(Pow2(p + g - 1) as int)
    ensures Trunc(m, e) <= -(Pow2(p + g - 1) as int) - Pow2(g)
  {
    hide Pow2;
    Pow2Add(e - g, g);
    Pow2Add(p - 1, g);
    var x, y, d := m * Pow2(e - g), -(Pow2(p - 1) as int), Pow2(g);
    Regroup(m, Pow2(e - g), d);
    TimesNeg(Pow2(p - 1), d);
    BetweenMultiples(x, y, d);
  }

  lemma TimesNeg(a: int, b: int)
    ensures -a * b == -(a * b)
  {
  }

  lemma Regroup(m: int, a: int, b: int)
    ensures m * (a * b) == m * a * b
  {
  }

  lemma BetweenMultiples(x: int, y: int, d: nat)
    requires d > 0 && x * d < y * d
    ensures x * d <= y * d - d
  {
    if x < y {
      LessTimes(x + 1, y, d);
      NextTimes(x, d);
    } else {
      LessTimes(y, x, d);
    }
  }

  lemma NextTimes(x: int, d: nat)
    ensures (x + 1) * d == x * d + d
  {
  }

  lemma LessTimes(a: int, b: int, d: nat)
    requires a <= b
    ensures a * d <= b * d
  {
    assert (b - a) * d >= 0;
  }

  lemma SmallFloat(p: nat, g: nat, m: int, e: int)
    requires p > 0 && g > 0 && e < g && Below(m, p)
    ensures Trunc(m, e) > -(Pow2(p + g - 1) as int)
  {
    hide Pow2;
    Pow2Mono(p, p + g - 1);
    if e >= 0 {
      Pow2Mono(e, g - 1);
      Pow2Add(p, g - 1);
      if m < 0 {
        TimesLess(-m, Pow2(p), Pow2(e), Pow2(g - 1));
        TimesNeg(m, Pow2(e));
      } else {
        LessTimes(0, m, Pow2(e));
      }
    } else {
      QuotientSign(if m < 0 then -m else m, Pow2(-e));
    }
  }

  lemma TimesLess(a: nat, b: nat, c: nat, d: nat)
    requires a < b && 0 < c <= d
    ensures a * c < b * d
  {
    assert a * c < b * c;
    assert b * c <= b * d;
  }

  // ---------------------------------------------------------------- the main results

  /** A truncation traps exactly for NaN, for an infinity, and when the truncated number is
      not in the type; otherwise it gives the truncated number. */
  lemma CheckedExact(single: bool, wide: bool, signed: bool, v: Float)
    requires HasBits(v, ConvOf(single, wide, signed).p)
    ensures var c := ConvOf(single, wide, signed);
            Checked(c, v) ==
            (match v
             case NaN => Err(TrapInvalidConversion)
             case Infinite(_) => Err(TrapIntegerOverflow)
             case Finite(m, e) => if c.imin <= Trunc(m, e) <= c.imax then Ok(Trunc(m, e)) else Err(TrapIntegerOverflow))
  {
    hide Trunc, AtMost, AtLeast, Pow2;
    var c := ConvOf(single, wide, signed);
    InstancesOnGrid(single, wide, signed);
    if v.Finite? {
      AtMostIs(v.m, v.e, c.rmin);
      AtLeastIs(v.m, v.e, c.rmax);
      GridGap(c, v.m, v.e);
    }
  }

  /** A saturating truncation is the truncated number clamped to the type; 0 for NaN. */
  lemma SaturatingExact(single: bool, wide: bool, signed: bool, v: Float)
    requires HasBits(v, ConvOf(single, wide, signed).p)
    ensures var c := ConvOf(single, wide, signed);
            Saturating(c, v) ==
            (match v
             case NaN => 0
             case Infinite(negative) => if negative then c.imin else c.imax
             case Finite(m, e) =>
               if Trunc(m, e) < c.imin then c.imin else if Trunc(m, e) > c.imax then c.imax else Trunc(m, e))
  {
    hide Trunc, AtMost, AtLeast, Pow2;
    var c := ConvOf(single, wide, signed);
    InstancesOnGrid(single, wide, signed);
    if v.Finite? {
      AtMostIs(v.m, v.e, c.rmin);
      AtLeastIs(v.m, v.e, c.rmax);
      GridGap(c, v.m, v.e);
    }
  }

  // ---------------------------------------------------------------- bit patterns

  /** The float of a 32-bit or 64-bit pattern. */
  function FloatOf32(bits: U32): (v: Float)
  {
    var sign, exp, frac := bits / 0x8000_0000, bits / 0x80_0000 % 0x100, bits % 0x80_0000;
    if exp == 0xFF then (if frac == 0 then Infinite(sign == 1) else NaN)
    else
      var m := if exp == 0 then frac else 0x80_0000 + frac;
      Finite(if sign == 1 then -m else m, (if exp == 0 then 1 else exp) - 150)
  }

  function FloatOf64(bits: U64): (v: Float)
  {
    var sign, exp, frac := bits / TWO63, bits / 0x10_0000_0000_0000 % 0x800, bits % 0x10_0000_0000_0000;
    if exp == 0x7FF then (if frac == 0 then Infinite(sign == 1) else NaN)
    else
      var m := if exp == 0 then frac else 0x10_0000_0000_0000 + frac;
      Finite(if sign == 1 then -m else m, (if exp == 0 then 1 else exp) - 1075)
  }

  lemma PatternBits()
    ensures forall bits: U32 :: HasBits(FloatOf32(bits), 24)
    ensures forall bits: U64 :: HasBits(FloatOf64(bits), 53)
  {
    hide Pow2;
    PowerValues();
    Pow2Add(24, 7);
    Pow2Add(53, 11);
    Pow2Seven(4);
    assert Pow2(4) == 16 by { SmallPower(); }
  }

  lemma SmallPower()
    ensures Pow2(4) == 16
  {
  }

  function FloatOf(single: bool, bits: U64): Float {
    if single then FloatOf32(bits % TWO32) else FloatOf64(bits)
  }

  function Modulus(wide: bool): nat { if wide then TWO64 else TWO32 }

  /** The operators as the machine has them, on bit patterns. */
  function TruncBits(single: bool, wide: bool, signed: bool, bits: U64): Result<U64> {
    match Checked(ConvOf(single, wide, signed), FloatOf(single, bits))
    case Ok(x) => Ok(x % Modulus(wide))
    case Err(e) => Err(e)
  }

  function TruncSatBits(single: bool, wide: bool, signed: bool, bits: U64): U64 {
    Saturating(ConvOf(single, wide, signed), FloatOf(single, bits)) % Modulus(wide)
  }

  /** Number that a pattern of the result type denotes. */
  function Denotes(wide: bool, signed: bool, r: nat): int {
    if signed && 2 * r >= Modulus(wide) then r - Modulus(wide) else r
  }

  /** For every operand pattern: the result denotes the truncated operand, and there is no
      result exactly when the operand is not a number or its truncation is not in the type. */
  lemma TruncBitsExact(single: bool, wide: bool, signed: bool, bits: U64)
    ensures var c, v, r := ConvOf(single, wide, signed), FloatOf(single, bits), TruncBits(single, wide, signed, bits);
            && (r.Ok? <==> v.Finite? && c.imin <= Trunc(v.m, v.e) <= c.imax)
            && (r.Ok? ==> r.value < Modulus(wide) && Denotes(wide, signed, r.value) == Trunc(v.m, v.e))
            && (r == Err(TrapInvalidConversion) <==> v.NaN?)
  {
    hide Trunc, AtMost, AtLeast, Pow2, FloatOf32, FloatOf64;
    PatternBits();
    var c, v := ConvOf(single, wide, signed), FloatOf(single, bits);
    assert HasBits(v, c.p);
    CheckedExact(single, wide, signed, v);
    if v.Finite? && c.imin <= Trunc(v.m, v.e) <= c.imax {
      Wrapped(wide, signed, Trunc(v.m, v.e));
    }
  }

  lemma Wrapped(wide: bool, signed: bool, x: int)
    requires var c := ConvOf(true, wide, signed); c.imin <= x <= c.imax
    ensures x % Modulus(wide) < Modulus(wide) && Denotes(wide, signed, x % Modulus(wide)) == x
  {
    if x < 0 {
      assert x % Modulus(wide) == x + Modulus(wide);
    } else {
      assert x % Modulus(wide) == x;
    }
  }

  lemma TruncSatBitsExact(single: bool, wide: bool, signed: bool, bits: U64)
    ensures var c, v := ConvOf(single, wide, signed), FloatOf(single, bits);
            var x := Denotes(wide, signed, TruncSatBits(single, wide, signed, bits));
            match v
            case NaN => x == 0
            case Infinite(negative) => x == if negative then c.imin else c.imax
            case Finite(m, e) =>
              var t := Trunc(m, e);
              x == if t < c.imin then c.imin else if t > c.imax then c.imax else t
  {
    hide Trunc, AtMost, AtLeast, Pow2, FloatOf32, FloatOf64;
    PatternBits();
    var c, v := ConvOf(single, wide, signed), FloatOf(single, bits);
    assert HasBits(v, c.p);
    SaturatingExact(single, wide, signed, v);
    Wrapped(wide, signed, Saturating(c, v));
  }

  // ---------------------------------------------------------------- opcodes

  /** The float-to-integer operators; 0xFC op2 is numbered 0xFC00 + op2. */
  predicate Truncates(opcode: int) { 0xA8 <= opcode <= 0xAB || 0xAE <= opcode <= 0xB1 || 0xFC00 <= opcode <= 0xFC07 }

  predicate IsSaturating(opcode: int) { opcode >= 0xFC00 }

  /** The results come in the order i32 then i64, operands f32 then f64, signed first. */
  predicate IsWide(opcode: int) { 0xAE <= opcode <= 0xB1 || opcode >= 0xFC04 }

  /** Position among the four operators of the same result type. */
  function Position(opcode: int): int {
    if opcode >= 0xFC04 then opcode - 0xFC04 else if opcode >= 0xFC00 then opcode - 0xFC00
    else if opcode >= 0xAE then opcode - 0xAE else opcode - 0xA8
  }

  predicate FromSingle(opcode: int) { Position(opcode) < 2 }

  predicate IsSigned(opcode: int) { Position(opcode) % 2 == 0 }

  function TruncOp(opcode: int, bits: U64): Result<U64>
    requires Truncates(opcode)
  {
    if IsSaturating(opcode) then Ok(TruncSatBits(FromSingle(opcode), IsWide(opcode), IsSigned(opcode), bits))
    else TruncBits(FromSingle(opcode), IsWide(opcode), IsSigned(opcode), bits)
  }
}
