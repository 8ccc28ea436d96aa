/** The local declarations of a function body: run-length encoded in the binary, expanded by
    the decoder, addressed by index in the validator and in the machine. */
module Locals {
  import opened Syntax
  import opened Leb128
  import opened Decoding
  import opened Reader
  import opened Runtime
  import opened Typing
  import opened Machine
  import opened Soundness

  /** `count` locals of one type. */
  datatype LocalRun = LocalRun(count: U32, t: ValType)

  const MOST_LOCALS: nat := 0xFFFF_FFFF

  /** `n` runs; the running total must stay below 2^32 - 1. */
  function ReadRuns(data: seq<Byte>, p: nat, n: nat, total: nat): (r: Result<(seq<LocalRun>, nat)>)
    requires p <= |data|
    ensures r.Ok? ==> p <= r.value.1 <= |data|
    decreases n
  {
    if n == 0 then Ok(([], p)) else
    match ReadU32(data, p)
    case Err(e) => Err(e)
    case Ok((count, q)) =>
      match ReadByte(data, q)
      case Err(e) => Err(e)
      case Ok((t, q')) =>
        if total + count >= MOST_LOCALS then Err(TooManyLocals) else
        match ReadRuns(data, q', n - 1, total + count)
        case Err(e) => Err(e)
        case Ok((runs, q'')) => Ok(([LocalRun(count, t)] + runs, q''))
  }

  function ExpandRuns(runs: seq<LocalRun>): seq<ValType> {
    if runs == [] then [] else seq(runs[0].count, _ => runs[0].t) + ExpandRuns(runs[1..])
  }

  function ReadLocals(data: seq<Byte>, p: nat): (r: Result<(seq<ValType>, nat)>)
    requires p <= |data|
    ensures r.Ok? ==> p <= r.value.1 <= |data|
  {
    match ReadU32(data, p)
    case Err(e) => Err(e)
    case Ok((n, q)) =>
      match ReadRuns(data, q, n, 0)
      case Err(e) => Err(e)
      case Ok((runs, q')) => Ok((ExpandRuns(runs), q'))
  }

  // ---------------------------------------------------------------- what the expansion is

  function Total(runs: seq<LocalRun>): nat {
    if runs == [] then 0 else runs[0].count + Total(runs[1..])
  }

  lemma {:induction false} TotalSnoc(runs: seq<LocalRun>, k: nat)
    requires k < |runs|
    ensures Total(runs[..k + 1]) == Total(runs[..k]) + runs[k].count
    decreases k
  {
    if k > 0 {
      assert runs[..k + 1][1..] == runs[1..][..k] && runs[..k][1..] == runs[1..][..k - 1];
      TotalSnoc(runs[1..], k - 1);
    }
  }

  /** As many locals as the counts add up to. */
  lemma {:induction false} ExpandedLength(runs: seq<LocalRun>)
    ensures |ExpandRuns(runs)| == Total(runs)
    decreases |runs|
  {
    if runs != [] {
      ExpandedLength(runs[1..]);
    }
  }

  /** The locals of run `k` stand after those of the earlier runs and have its type. */
  lemma {:induction false} ExpandedAt(runs: seq<LocalRun>, k: nat, j: nat)
    requires k < |runs| && j < runs[k].count
    ensures Total(runs[..k]) + j < |ExpandRuns(runs)|
    ensures ExpandRuns(runs)[Total(runs[..k]) + j] == runs[k].t
    decreases k
  {
    ExpandedLength(runs);
    ExpandedLength(runs[1..]);
    if k > 0 {
      assert runs[..k][1..] == runs[1..][..k - 1] && runs[..k][0] == runs[0];
      ExpandedAt(runs[1..], k - 1, j);
    }
  }

  /** Accepted declarations have fewer than 2^32 - 1 locals; the standard allows one more. */
  lemma {:induction false} RunsBounded(data: seq<Byte>, p: nat, n: nat, total: nat)
    requires p <= |data| && total < MOST_LOCALS
    ensures var r := ReadRuns(data, p, n, total); r.Ok? ==> |r.value.0| == n && total + Total(r.value.0) < 0xFFFF_FFFF
    decreases n
  {
    hide ReadU32;
    if n > 0 && ReadRuns(data, p, n, total).Ok? {
      var (count, q) := ReadU32(data, p).value;
      RunsBounded(data, q + 1, n - 1, total + count);
      var runs := ReadRuns(data, q + 1, n - 1, total + count).value.0;
      assert ([LocalRun(count, data[q])] + runs)[1..] == runs;
    }
  }

  // ---------------------------------------------------------------- the decoder's loops

  ghost function PrependRuns(done: seq<LocalRun>, r: Result<(seq<LocalRun>, nat)>): Result<(seq<LocalRun>, nat)> {
    match r
    case Ok((rest, q)) => Ok((done + rest, q))
    case Err(e) => Err(e)
  }

  lemma PrependRunsSnoc(done: seq<LocalRun>, run: LocalRun, r: Result<(seq<LocalRun>, nat)>)
    ensures PrependRuns(done + [run], r)
            == PrependRuns(done, match r case Ok((rest, q)) => Ok(([run] + rest, q)) case Err(e) => Err(e))
    ensures PrependRuns([], r) == r
  {
    if r.Ok? {
      assert done + [run] + r.value.0 == done + ([run] + r.value.0);
      assert [] + r.value.0 == r.value.0;
    }
  }

  /** Reads the runs and counts the locals. */
  method NextRuns(buf: Buffer, n: nat) returns (r: Result<seq<LocalRun>>, total: nat)
    requires buf.Valid()
    modifies buf`p
    ensures buf.Valid() && buf.p >= old(buf.p)
    ensures Reads(r, buf.p, ReadRuns(buf.data, old(buf.p), n, 0))
    ensures r.Ok? ==> total == Total(r.value)
  {
    hide ReadU32;
    var runs: seq<LocalRun> := [];
    total := 0;
    var i := 0;
    PrependRunsSnoc([], LocalRun(0, 0), ReadRuns(buf.data, buf.p, n, 0));
    while i < n
      invariant buf.Valid() && buf.p >= old(buf.p) && i <= n && total == Total(runs)
      invariant ReadRuns(buf.data, old(buf.p), n, 0) == PrependRuns(runs, ReadRuns(buf.data, buf.p, n - i, total))
    {
      var count := buf.NextU32();
      if count.Err? {
        return Err(count.error), 0;
      }
      var t := buf.NextByte();
      if t.Err? {
        return Err(t.error), 0;
      }
      var total' := total + count.value;
      if total' >= MOST_LOCALS {
        return Err(TooManyLocals), 0;
      }
      var run := LocalRun(count.value, t.value);
      PrependRunsSnoc(runs, run, ReadRuns(buf.data, buf.p, n - i - 1, total'));
      TotalSnoc(runs + [run], |runs|);
      assert (runs + [run])[..|runs|] == runs && (runs + [run])[..|runs| + 1] == runs + [run];
      runs, total, i := runs + [run], total', i + 1;
    }
    assert runs + [] == runs;
    r := Ok(runs);
  }

  lemma {:induction false} ExpandSnoc(runs: seq<LocalRun>, k: nat)
    requires k < |runs|
    ensures ExpandRuns(runs[..k + 1]) == ExpandRuns(runs[..k]) + seq(runs[k].count, _ => runs[k].t)
    decreases k
  {
    if k == 0 {
      assert runs[..1][1..] == [] && runs[..1][0] == runs[0];
    } else {
      assert runs[..k + 1][1..] == runs[1..][..k] && runs[..k][1..] == runs[1..][..k - 1];
      ExpandSnoc(runs[1..], k - 1);
    }
  }

  /** Fills the vector of locals, run by run. */
  method Expand(runs: seq<LocalRun>, total: nat) returns (locals: array<ValType>)
    requires total == Total(runs)
    ensures fresh(locals) && locals[..] == ExpandRuns(runs)
  {
    locals := new ValType[total](_ => 0);
    var i, k := 0, 0;
    while k < |runs|
      invariant k <= |runs| && i == Total(runs[..k]) <= total
      invariant locals[..i] == ExpandRuns(runs[..k])
    {
      RunFits(runs, k);
      var j := 0;
      while j < runs[k].count
        invariant j <= runs[k].count && i == Total(runs[..k]) + j
        invariant locals[..i] == ExpandRuns(runs[..k]) + seq(j, _ => runs[k].t)
      {
        locals[i] := runs[k].t;
        i, j := i + 1, j + 1;
      }
      TotalSnoc(runs, k);
      ExpandSnoc(runs, k);
      k := k + 1;
    }
    assert runs[..|runs|] == runs;
    ExpandedLength(runs);
  }

  lemma {:induction false} RunFits(runs: seq<LocalRun>, k: nat)
    requires k < |runs|
    ensures Total(runs[..k]) + runs[k].count <= Total(runs)
    decreases k
  {
    if k > 0 {
      assert runs[..k][1..] == runs[1..][..k - 1] && runs[..k][0] == runs[0];
      RunFits(runs[1..], k - 1);
    }
  }

  method NextLocals(buf: Buffer) returns (r: Result<seq<ValType>>)
    requires buf.Valid()
    modifies buf`p
    ensures buf.Valid() && buf.p >= old(buf.p)
    ensures Reads(r, buf.p, ReadLocals(buf.data, old(buf.p)))
  {
    hide ReadU32, ReadRuns, ExpandRuns;
    var n := buf.NextU32();
    if n.Err? {
      return Err(n.error);
    }
    var runs, total := NextRuns(buf, n.value);
    if runs.Err? {
      return Err(runs.error);
    }
    var locals := Expand(runs.value, total);
    r := Ok(locals[..]);
  }

  // ---------------------------------------------------------------- a code entry

  /** One entry of the code section, from its own bytes; bytes after END are ignored. */
  function DecodeCode(code: seq<Byte>, typeidx: U32, hasData: bool): Result<Func> {
    match ReadLocals(code, 0)
    case Err(e) => Err(e)
    case Ok((locals, q)) =>
      match DecodeExpr(code, q, hasData)
      case Err(e) => Err(e)
      case Ok((body, _)) => Ok(Func(typeidx, locals, body))
  }

  method ReadCode(code: seq<Byte>, typeidx: U32, hasData: bool) returns (r: Result<Func>)
    ensures r == DecodeCode(code, typeidx, hasData)
  {
    hide ReadLocals, DecodeExpr;
    var buf := new Buffer(code);
    var locals := NextLocals(buf);
    if locals.Err? {
      return Err(locals.error);
    }
    var body := buf.NextExpr(hasData);
    r := if body.Err? then Err(body.error) else Ok(Func(typeidx, locals.value, body.value));
  }

  /** A decoded function has fewer than 2^32 - 1 locals. */
  lemma DecodedLocals(code: seq<Byte>, typeidx: U32, hasData: bool)
    requires DecodeCode(code, typeidx, hasData).Ok?
    ensures |DecodeCode(code, typeidx, hasData).value.locals| < 0xFFFF_FFFF
  {
    hide ReadU32, ReadRuns, DecodeExpr;
    var (n, q) := ReadU32(code, 0).value;
    RunsBounded(code, q, n, 0);
    ExpandedLength(ReadRuns(code, q, n, 0).value.0);
  }

  // ---------------------------------------------------------------- indices

  predicate IsLocal(op: Plain) { op.LocalGet? || op.LocalSet? || op.LocalTee? }

  /** Decoder, validator and machine agree on local indices. For a decoded function the machine
      can make a frame exactly when parameters and locals are fewer than 2^32, its count being
      32 bits wide; and an index the validator accepts then addresses a slot of that frame. The
      first slots are the arguments in order; every other slot is zero and of the type that
      the validator reads there. */
  lemma LocalIndexAgrees(code: seq<Byte>, hasData: bool, C: Context, ft: FuncType, f: Func, op: Plain, ts: TypeStack, args: seq<Val>)
    requires DecodeCode(code, f.typeidx, hasData) == Ok(f) && |args| == |ft.rt1|
    requires IsLocal(op) && CheckPlain(FuncContext(C, ft, f), op, ts).Ok?
    ensures FrameSlots(args, f.locals).Some? <==> |ft.rt1| + |f.locals| < TWO32
    ensures FrameSlots(args, f.locals).Some? ==>
              var slots := FrameSlots(args, f.locals).value;
              && op.x < |slots| == |ft.rt1| + |f.locals|
              && (op.x < |args| ==> slots[op.x] == args[op.x] && FuncContext(C, ft, f).locals[op.x] == ft.rt1[op.x])
              && (op.x >= |args| ==> slots[op.x] == Val(FuncContext(C, ft, f).locals[op.x], 0))
  {
    hide DecodeCode, Retype;
    DecodedLocals(code, f.typeidx, hasData);
    SlotsExact(args, f.locals);
  }
}
