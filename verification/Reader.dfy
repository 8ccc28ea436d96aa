/** The decoder as it runs: a cursor over the bytes that every read moves forward. */
module Reader {
  import opened Syntax
  import opened Leb128
  import opened Decoding

  // ---------------------------------------------------------------- bitwise or

  /** Bitwise or of two naturals. */
  function Or(x: nat, y: nat): nat {
    if x == 0 then y else if y == 0 then x
    else (if x % 2 == 1 || y % 2 == 1 then 1 else 0) + 2 * Or(x / 2, y / 2)
  }

  /** Or of numbers without a common bit is their sum. */
  lemma {:induction false} OrDisjoint(x: nat, y: nat, shift: nat)
    requires x < Pow2(shift)
    ensures Or(x, y * Pow2(shift)) == x + y * Pow2(shift)
  {
    if x != 0 && y * Pow2(shift) != 0 {
      assert shift > 0;
      var h := Pow2(shift - 1);
      assert y * Pow2(shift) == 2 * (y * h);
      assert y * Pow2(shift) / 2 == y * h && y * Pow2(shift) % 2 == 0;
      OrDisjoint(x / 2, y, shift - 1);
    }
  }

  /** In 64 bits, shifting left drops the high bits. */
  lemma ShiftedOr(acc: nat, x: nat, shift: nat)
    requires acc < Pow2(shift) && shift < 64
    ensures Or(acc, x * Pow2(shift) % TWO64) == (acc + x * Pow2(shift)) % TWO64
  {
    hide Or;
    var h, g := Pow2(shift), Pow2(64 - shift);
    Pow2Add(shift, 64 - shift);
    PowerValues();
    assert h * g == TWO64;
    var y := x % g;
    ShiftMod(x, h, g);
    OrDisjoint(acc, y, shift);
    SumBelow(acc, y, h, g);
    SumMod(acc, x * h, y * h);
  }

  lemma ShiftMod(x: nat, h: nat, g: nat)
    requires h > 0 && g > 0 && h * g == TWO64
    ensures x * h % TWO64 == x % g * h && 0 <= x % g * h < TWO64
  {
    var q, r := x / g, x % g;
    assert x == q * g + r;
    assert x * h == q * (h * g) + r * h;
    SumBelow(0, r, h, g);
    ModOf(q, r * h);
  }

  lemma ModOf(q: nat, r: nat)
    requires r < TWO64
    ensures (q * TWO64 + r) % TWO64 == r
  {
  }

  lemma SumBelow(acc: nat, y: nat, h: nat, g: nat)
    requires acc < h && y < g
    ensures acc + y * h < h * g
  {
    assert (y + 1) * h <= g * h;
  }

  lemma SumMod(acc: nat, a: nat, b: nat)
    requires a % TWO64 == b && acc + b < TWO64
    ensures (acc + a) % TWO64 == acc + b
  {
  }

  /** Setting every bit from `shift` up. */
  lemma SignFill(acc: nat, shift: nat)
    requires acc < Pow2(shift) && shift < 64
    ensures Pow2(shift) < TWO64
    ensures Or(acc, TWO64 - Pow2(shift)) == (acc + (TWO64 - Pow2(shift))) % TWO64
  {
    hide Or, Pow2;
    var h, g := Pow2(shift), Pow2(64 - shift);
    Pow2Add(shift, 64 - shift);
    PowerValues();
    Pow2Mono(1, 64 - shift);
    assert Pow2(1) == 2 by { Pow2One(); }
    OneLess(h, g);
    OrDisjoint(acc, g - 1, shift);
  }

  lemma Pow2One()
    ensures Pow2(1) == 2
  {
    assert Pow2(1) == 2 * Pow2(0);
  }

  lemma OneLess(h: nat, g: nat)
    requires h > 0 && g >= 2 && h * g == TWO64
    ensures TWO64 - h == (g - 1) * h && h < TWO64
  {
  }

  lemma AccBound(acc: nat, x: nat, shift: nat)
    requires acc < Pow2(shift) && x < 0x80
    ensures acc + x * Pow2(shift) < Pow2(shift + 7)
  {
    Pow2Seven(shift);
    SumBelow(acc, x, Pow2(shift), 0x80);
  }

  lemma AccFits(shift: nat)
    requires shift <= 64
    ensures Pow2(shift) <= TWO64
  {
    Pow2Mono(shift, 64);
    PowerValues();
  }

  /** One round of the signed reader, in the operations of the loop. */
  lemma SignedRound(data: seq<Byte>, p: nat, shift: nat, acc: nat, maxBits: nat)
    requires p < |data| && acc < Pow2(shift) && shift < 64
    ensures var b, acc', shift' := data[p], Or(acc, data[p] % 0x80 * Pow2(shift) % TWO64), shift + 7;
            && acc' < TWO64 && (shift' < 64 ==> acc' < Pow2(shift') < TWO64)
            && ReadSigned(data, p, shift, acc, maxBits) ==
               if b < 0x80 then
                 if shift' == 70 && b != 0x7F && b != 0x00 then Err(IntegerTooLarge)
                 else if b >= 0x40 && shift' < 64 then Ok((ToI64(Or(acc', TWO64 - Pow2(shift'))), p + 1))
                 else Ok((ToI64(acc'), p + 1))
               else if shift' >= maxBits then Err(IntegerRepresentationTooLong)
               else ReadSigned(data, p + 1, shift', acc', maxBits)
  {
    hide Or, Pow2, ToI64;
    var x := data[p] % 0x80;
    ShiftedOr(acc, x, shift);
    if shift + 7 < 64 {
      AccBound(acc, x, shift);
      AccFits(shift + 7);
      NoWrap(acc + x * Pow2(shift));
      SignFill(acc + x * Pow2(shift), shift + 7);
    }
  }

  lemma SignedEnd(data: seq<Byte>, p: nat, shift: nat, acc: nat, maxBits: nat)
    requires p >= |data|
    ensures ReadSigned(data, p, shift, acc, maxBits) == Err(UnexpectedEnd)
  {
  }

  lemma NoWrap(x: nat)
    requires x < TWO64
    ensures x % TWO64 == x
  {
  }

  // ---------------------------------------------------------------- lists built front to back

  /** `done` followed by `rest`. */
  function Link(done: seq<Instr>, rest: Code): Code {
    if done == [] then rest else Cons(done[0], Link(done[1..], rest))
  }

  lemma {:induction false} LinkSnoc(done: seq<Instr>, ins: Instr, rest: Code)
    ensures Link(done + [ins], rest) == Link(done, Cons(ins, rest))
  {
    if done != [] {
      assert (done + [ins])[1..] == done[1..] + [ins];
      LinkSnoc(done[1..], ins, rest);
    } else {
      assert Link([ins], rest) == Cons(ins, Link([ins][1..], rest));
    }
  }

  /** The list result that remains when `done` was read already. */
  ghost function Prepend(done: seq<Instr>, r: Result<(Code, nat)>): Result<(Code, nat)> {
    match r
    case Ok((rest, q)) => Ok((Link(done, rest), q))
    case Err(e) => Err(e)
  }

  lemma PrependSnoc(done: seq<Instr>, ins: Instr, r: Result<(Code, nat)>)
    ensures Prepend(done + [ins], r)
            == Prepend(done, match r case Ok((rest, q)) => Ok((Cons(ins, rest), q)) case Err(e) => Err(e))
  {
    if r.Ok? {
      LinkSnoc(done, ins, r.value.0);
    }
  }

  /** A method's answer `r` and final position `p` are what the reading function promised. */
  ghost predicate Reads<T>(r: Result<T>, p: nat, wanted: Result<(T, nat)>) {
    match wanted
    case Ok((v, q)) => r == Ok(v) && p == q
    case Err(e) => r == Err(e)
  }

  // ---------------------------------------------------------------- the cursor

  class Buffer {
    const data: seq<Byte>
    var p: nat

    ghost predicate Valid()
      reads this
    {
      p <= |data|
    }

    constructor (data: seq<Byte>)
      ensures Valid() && this.data == data && p == 0
    {
      this.data := data;
      p := 0;
    }

    method NextByte() returns (r: Result<Byte>)
      requires Valid()
      modifies this`p
      ensures Valid() && p >= old(p)
      ensures Reads(r, p, ReadByte(data, old(p)))
    {
      if p + 1 > |data| {
        return Err(UnexpectedEnd);
      }
      r := Ok(data[p]);
      p := p + 1;
    }

    method LebUnsigned(maxBits: nat) returns (r: Result<U64>)
      requires Valid() && maxBits <= 57
      modifies this`p
      ensures Valid() && p >= old(p)
      ensures Reads(r, p, ReadUnsigned(data, old(p), 0, 0, maxBits))
    {
      hide Or, Pow2;
      PowerValues();
      var result: nat, shift: nat := 0, 0;
      while true
        invariant Valid() && p >= old(p)
        invariant shift == 0 || shift < maxBits
        invariant result < Pow2(shift)
        invariant ReadUnsigned(data, old(p), 0, 0, maxBits) == ReadUnsigned(data, p, shift, result, maxBits)
        decreases |data| - p
      {
        var next := NextByte();
        if next.Err? {
          return Err(next.error);
        }
        var b := next.value;
        OrDisjoint(result, b % 0x80, shift);
        AccBound(result, b % 0x80, shift);
        AccFits(shift + 7);
        result := Or(result, b % 0x80 * Pow2(shift));
        shift := shift + 7;
        if b < 0x80 {
          break;
        }
        if shift >= maxBits {
          return Err(IntegerRepresentationTooLong);
        }
      }
      return Ok(result);
    }

    method LebSigned(maxBits: nat) returns (r: Result<int>)
      requires Valid() && maxBits <= 64
      modifies this`p
      ensures Valid() && p >= old(p)
      ensures Reads(r, p, ReadSigned(data, old(p), 0, 0, maxBits))
    {
      hide Or, Pow2, ReadSigned, ToI64;
      PowerValues();
      var result: nat, shift: nat := 0, 0;
      while true
        invariant Valid() && p >= old(p)
        invariant shift % 7 == 0 && (shift == 0 || shift < maxBits)
        invariant result < Pow2(shift)
        invariant ReadSigned(data, old(p), 0, 0, maxBits) == ReadSigned(data, p, shift, result, maxBits)
        decreases |data| - p
      {
        var next := NextByte();
        if next.Err? {
          SignedEnd(data, p, shift, result, maxBits);
          return Err(next.error);
        }
        var b := next.value;
        SignedRound(data, p - 1, shift, result, maxBits);
        result := Or(result, b % 0x80 * Pow2(shift) % TWO64);
        shift := shift + 7;
        if b < 0x80 {
          if shift == 70 && b != 0x7F && b != 0x00 {
            return Err(IntegerTooLarge);
          }
          if b >= 0x40 && shift < 64 {
            result := Or(result, TWO64 - Pow2(shift));
          }
          break;
        }
        if shift >= maxBits {
          return Err(IntegerRepresentationTooLong);
        }
      }
      return Ok(ToI64(result));
    }

    method NextU32() returns (r: Result<U32>)
      requires Valid()
      modifies this`p
      ensures Valid() && p >= old(p)
      ensures Reads(r, p, ReadU32(data, old(p)))
    {
      hide ReadUnsigned;
      var v := LebUnsigned(32);
      if v.Err? {
        return Err(v.error);
      }
      if v.value >= TWO32 {
        return Err(IntegerTooLarge);
      }
      return Ok(v.value);
    }

    method NextU7() returns (r: Result<Byte>)
      requires Valid()
      modifies this`p
      ensures Valid() && p >= old(p)
      ensures Reads(r, p, ReadU7(data, old(p)))
    {
      hide ReadUnsigned;
      var v := LebUnsigned(7);
      if v.Err? {
        return Err(v.error);
      }
      return Ok(v.value % 0x100);
    }

    method NextI32() returns (r: Result<int>)
      requires Valid()
      modifies this`p
      ensures Valid() && p >= old(p)
      ensures Reads(r, p, ReadI32(data, old(p)))
    {
      hide ReadSigned;
      var v := LebSigned(32);
      if v.Err? {
        return Err(v.error);
      }
      if v.value >= TWO31 || v.value < -TWO31 {
        return Err(IntegerTooLarge);
      }
      return Ok(v.value);
    }

    method NextI64() returns (r: Result<int>)
      requires Valid()
      modifies this`p
      ensures Valid() && p >= old(p)
      ensures Reads(r, p, ReadI64(data, old(p)))
    {
      hide ReadSigned;
      r := LebSigned(64);
    }

    /** Four or eight raw bytes. */
    method NextRaw(n: nat) returns (r: Result<seq<Byte>>)
      requires Valid()
      modifies this`p
      ensures Valid() && p >= old(p)
      ensures Reads(r, p, ReadByteSeq(data, old(p), n))
    {
      if p + n > |data| {
        return Err(UnexpectedEnd);
      }
      r := Ok(data[p..p + n]);
      p := p + n;
    }

    method NextBlockType() returns (r: Result<BlockType>)
      requires Valid()
      modifies this`p
      ensures Valid() && p >= old(p)
      ensures Reads(r, p, ReadBlockType(data, old(p)))
    {
      hide ReadUnsigned;
      if p < |data| && IsBlockCode(data[p]) {
        r := NextByte();
      } else {
        r := NextU32();
      }
    }

    /** The loop over the labels of br_table. */
    method NextU32s(n: nat) returns (r: Result<seq<U32>>)
      requires Valid()
      modifies this`p
      ensures Valid() && p >= old(p)
      ensures Reads(r, p, ReadU32s(data, old(p), n))
    {
      hide ReadU32;
      var vs: seq<U32> := [];
      assert PrependU32s([], ReadU32s(data, p, n)) == ReadU32s(data, p, n) by { PrependNone(ReadU32s(data, p, n)); }
      var i := 0;
      while i < n
        invariant Valid() && p >= old(p) && i <= n && |vs| == i
        invariant ReadU32s(data, old(p), n) == PrependU32s(vs, ReadU32s(data, p, n - i))
      {
        var v := NextU32();
        if v.Err? {
          return Err(v.error);
        }
        PrependU32sSnoc(vs, v.value, ReadU32s(data, p, n - i - 1));
        vs := vs + [v.value];
        i := i + 1;
      }
      assert ReadU32s(data, p, 0) == Ok(([], p)) && vs + [] == vs;
      return Ok(vs);
    }

    /** The loop over the types of select: bytes, one at a time. */
    method NextTypes(n: nat) returns (r: Result<seq<Byte>>)
      requires Valid()
      modifies this`p
      ensures Valid() && p >= old(p)
      ensures Reads(r, p, ReadByteSeq(data, old(p), n))
    {
      var ts: seq<Byte> := [];
      var i := 0;
      while i < n
        invariant Valid() && i <= n && p == old(p) + i && ts == data[old(p)..p]
      {
        var b := NextByte();
        if b.Err? {
          return Err(b.error);
        }
        ts := ts + [b.value];
        i := i + 1;
      }
      return Ok(ts);
    }

    // -------------------------------------------------------------- instructions

    method IndexedInstr(op: Byte) returns (r: Result<Instr>)
      requires Valid() && Indexed(op, 0).Some?
      modifies this`p
      ensures Valid() && p >= old(p)
      ensures Reads(r, p, DecodeIndexed(data, old(p), op))
    {
      hide ReadU32;
      var x := NextU32();
      r := if x.Err? then Err(x.error) else Ok(Indexed(op, x.value).value);
    }

    method PairedInstr(op: Byte) returns (r: Result<Instr>)
      requires Valid() && Paired(op, 0, 0).Some?
      modifies this`p
      ensures Valid() && p >= old(p)
      ensures Reads(r, p, DecodePaired(data, old(p), op))
    {
      hide ReadU32;
      var x := NextU32();
      if x.Err? {
        return Err(x.error);
      }
      var y := NextU32();
      r := if y.Err? then Err(y.error) else Ok(Paired(op, x.value, y.value).value);
    }

    method BrTableInstr() returns (r: Result<Instr>)
      requires Valid()
      modifies this`p
      ensures Valid() && p >= old(p)
      ensures Reads(r, p, DecodeBrTable(data, old(p)))
    {
      hide ReadU32, ReadU32s;
      var n := NextU32();
      if n.Err? {
        return Err(n.error);
      }
      var ls := NextU32s(n.value);
      if ls.Err? {
        return Err(ls.error);
      }
      var d := NextU32();
      r := if d.Err? then Err(d.error) else Ok(BrTable(ls.value, d.value));
    }

    method SelectTInstr() returns (r: Result<Instr>)
      requires Valid()
      modifies this`p
      ensures Valid() && p >= old(p)
      ensures Reads(r, p, DecodeSelectT(data, old(p)))
    {
      hide ReadU32;
      var n := NextU32();
      if n.Err? {
        return Err(n.error);
      }
      var ts := NextTypes(n.value);
      r := if ts.Err? then Err(ts.error) else Ok(Instr.Plain(SelectT(ts.value)));
    }

    method ZeroByteInstr(ins: Instr) returns (r: Result<Instr>)
      requires Valid()
      modifies this`p
      ensures Valid() && p >= old(p)
      ensures Reads(r, p, DecodeZeroByte(data, old(p), ins))
    {
      hide ReadU7;
      var zero := NextU7();
      r := if zero.Err? || zero.value != 0 then Err(ZeroByteExpected) else Ok(ins);
    }

    method ConstInstr(op: Byte) returns (r: Result<Instr>)
      requires Valid() && 0x41 <= op <= 0x44
      modifies this`p
      ensures Valid() && p >= old(p)
      ensures Reads(r, p, DecodeConst(data, old(p), op))
    {
      hide ReadI32, ReadI64, Word32, Word64;
      if op == 0x41 {
        var c := NextI32();
        r := if c.Err? then Err(c.error) else Ok(Instr.Plain(Const(I32, c.value % TWO32)));
      } else if op == 0x42 {
        var c := NextI64();
        r := if c.Err? then Err(c.error) else Ok(Instr.Plain(Const(I64, c.value % TWO64)));
      } else if op == 0x43 {
        var c := NextRaw(4);
        r := if c.Err? then Err(c.error) else Ok(Instr.Plain(Const(F32, Word32(c.value))));
      } else {
        var c := NextRaw(8);
        r := if c.Err? then Err(c.error) else Ok(Instr.Plain(Const(F64, Word64(c.value))));
      }
    }

    method FcInstr(hasData: bool) returns (r: Result<Instr>)
      requires Valid()
      modifies this`p
      ensures Valid() && p >= old(p)
      ensures Reads(r, p, DecodeFc(data, old(p), hasData))
    {
      hide ReadU32;
      var op2 := NextU32();
      if op2.Err? {
        return Err(op2.error);
      }
      if op2.value <= 7 {
        return Ok(Instr.Plain(TruncSat(op2.value)));
      }
      if (op2.value == 0x08 || op2.value == 0x09) && !hasData {
        return Err(DataCountSectionRequired);
      }
      if FcIndexed(op2.value, 0).None? && FcPaired(op2.value, 0, 0).None? {
        return Err(IllegalOpcode);
      }
      var x := NextU32();
      if x.Err? {
        return Err(x.error);
      }
      if FcIndexed(op2.value, 0).Some? {
        return Ok(Instr.Plain(FcIndexed(op2.value, x.value).value));
      }
      var y := NextU32();
      r := if y.Err? then Err(y.error) else Ok(Instr.Plain(FcPaired(op2.value, x.value, y.value).value));
    }

    /** The cases of `decode_instr` without nested lists. */
    method FlatInstr(op: Byte, hasData: bool) returns (r: Result<Instr>)
      requires Valid() && !IsNesting(op)
      modifies this`p
      ensures Valid() && p >= old(p)
      ensures Reads(r, p, DecodeFlat(data, old(p), op, hasData))
    {
      hide Bare, DecodeIndexed, DecodePaired, DecodeBrTable, DecodeSelectT, DecodeZeroByte, DecodeConst, DecodeFc;
      if Bare(op).Some? {
        r := Ok(Bare(op).value);
      } else if Indexed(op, 0).Some? {
        r := IndexedInstr(op);
      } else if Paired(op, 0, 0).Some? {
        r := PairedInstr(op);
      } else if op == 0x0E {
        r := BrTableInstr();
      } else if op == 0x1C {
        r := SelectTInstr();
      } else if op == 0x3F {
        r := ZeroByteInstr(Instr.Plain(MemorySize));
      } else if op == 0x40 {
        r := ZeroByteInstr(Instr.Plain(MemoryGrow));
      } else if 0x41 <= op <= 0x44 {
        r := ConstInstr(op);
      } else if op == 0xD0 {
        var t := NextByte();
        r := if t.Err? then Err(t.error) else Ok(Instr.Plain(RefNull(t.value)));
      } else if op == 0xFC {
        r := FcInstr(hasData);
      } else {
        r := Err(IllegalOpcode);
      }
    }

    /** `decode_instr`. */
    method NextInstr(hasData: bool) returns (r: Result<Instr>)
      requires Valid()
      modifies this`p
      ensures Valid() && p >= old(p)
      ensures Reads(r, p, DecodeInstr(data, old(p), hasData))
      decreases |data| - p, 0
    {
      hide DecodeFlat, ReadBlockType, DecodeList;
      var op := NextByte();
      if op.Err? {
        return Err(op.error);
      }
      if !IsNesting(op.value) {
        r := FlatInstr(op.value, hasData);
        return;
      }
      var bt := NextBlockType();
      if bt.Err? {
        return Err(bt.error);
      }
      var in1 := NextList(true, hasData);
      if in1.Err? {
        return Err(in1.error);
      }
      if !Last(in1.value).Else? {
        return Ok(MakeNesting(op.value, bt.value, in1.value, Nil));
      }
      var in2 := NextList(false, hasData);
      r := if in2.Err? then Err(in2.error) else Ok(MakeNesting(op.value, bt.value, in1.value, in2.value));
    }

    /** A nested list: instructions are linked on until the terminator. */
    method NextList(thenBranch: bool, hasData: bool) returns (r: Result<Code>)
      requires Valid()
      modifies this`p
      ensures Valid() && p >= old(p)
      ensures Reads(r, p, DecodeList(data, old(p), thenBranch, hasData))
      decreases |data| - p, 1
    {
      hide DecodeInstr;
      ghost var whole := DecodeList(data, p, thenBranch, hasData);
      var done: seq<Instr> := [];
      var j := NextInstr(hasData);
      if j.Err? {
        return Err(j.error);
      }
      while !Ends(j.value, thenBranch)
        invariant Valid() && p > old(p) && j.Ok?
        invariant whole == Prepend(done, ListAfter(data, p, j.value, thenBranch, hasData))
        decreases |data| - p
      {
        PrependSnoc(done, j.value, DecodeList(data, p, thenBranch, hasData));
        done := done + [j.value];
        j := NextInstr(hasData);
        if j.Err? {
          return Err(j.error);
        }
      }
      r := Ok(Link(done, Cons(j.value, Nil)));
    }

    /** `decode_expr`. */
    method NextExpr(hasData: bool) returns (r: Result<Code>)
      requires Valid()
      modifies this`p
      ensures Valid() && p >= old(p)
      ensures Reads(r, p, DecodeExpr(data, old(p), hasData))
    {
      hide DecodeInstr;
      ghost var whole := DecodeExpr(data, p, hasData);
      var done: seq<Instr> := [];
      var j := NextInstr(hasData);
      if j.Err? {
        return Err(j.error);
      }
      while p < |data|
        invariant Valid() && p > old(p) && j.Ok?
        invariant whole == Prepend(done, ExprAfter(data, p, j.value, hasData))
        decreases |data| - p
      {
        if j.value.End? {
          break;
        }
        PrependSnoc(done, j.value, DecodeExpr(data, p, hasData));
        done := done + [j.value];
        j := NextInstr(hasData);
        if j.Err? {
          return Err(j.error);
        }
      }
      r := if j.value.End? then Ok(Link(done, Cons(j.value, Nil))) else Err(EndOpcodeExpected);
    }
  }

  /** The rest of a list once its instruction `ins` has been read. */
  ghost function ListAfter(data: seq<Byte>, p: nat, ins: Instr, thenBranch: bool, hasData: bool): Result<(Code, nat)>
    requires p <= |data|
  {
    if Ends(ins, thenBranch) then Ok((Cons(ins, Nil), p)) else
    match DecodeList(data, p, thenBranch, hasData)
    case Err(e) => Err(e)
    case Ok((rest, q)) => Ok((Cons(ins, rest), q))
  }

  ghost function ExprAfter(data: seq<Byte>, p: nat, ins: Instr, hasData: bool): Result<(Code, nat)>
    requires p <= |data|
  {
    if ins.End? then Ok((Cons(ins, Nil), p))
    else if p == |data| then Err(EndOpcodeExpected)
    else
      match DecodeExpr(data, p, hasData)
      case Err(e) => Err(e)
      case Ok((rest, q)) => Ok((Cons(ins, rest), q))
  }

  ghost function PrependU32s(vs: seq<U32>, r: Result<(seq<U32>, nat)>): Result<(seq<U32>, nat)> {
    match r
    case Ok((rest, q)) => Ok((vs + rest, q))
    case Err(e) => Err(e)
  }

  lemma PrependNone(r: Result<(seq<U32>, nat)>)
    ensures PrependU32s([], r) == r
  {
    if r.Ok? {
      assert [] + r.value.0 == r.value.0;
    }
  }

  lemma PrependU32sSnoc(vs: seq<U32>, v: U32, r: Result<(seq<U32>, nat)>)
    ensures PrependU32s(vs + [v], r)
            == PrependU32s(vs, match r case Ok((rest, q)) => Ok(([v] + rest, q)) case Err(e) => Err(e))
  {
    if r.Ok? {
      assert vs + [v] + r.value.0 == vs + ([v] + r.value.0);
    }
  }
}
