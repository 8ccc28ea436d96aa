/** Code entries as bytes: local declarations and body, and that the decoder reads back what
    was written. Section 5.5.13 of the WebAssembly Core Specification 2.0. */
module CodePrinter {
  import opened Syntax
  import opened Leb128
  import opened Encoding
  import opened Decoding
  import opened Printer
  import opened Locals

  ghost function PrintRun(run: LocalRun): seq<Byte> { WriteU(run.count) + [run.t] }

  ghost function PrintRuns(runs: seq<LocalRun>): seq<Byte> {
    if runs == [] then [] else PrintRun(runs[0]) + PrintRuns(runs[1..])
  }

  ghost function PrintLocals(runs: seq<LocalRun>): seq<Byte>
    requires |runs| < TWO32
  {
    WriteU(|runs|) + PrintRuns(runs)
  }

  ghost function PrintCode(runs: seq<LocalRun>, body: Code, hasData: bool): seq<Byte>
    requires |runs| < TWO32 && Printable(body, false, hasData)
  {
    PrintLocals(runs) + PrintList(body, false, hasData)
  }

  lemma RunReadBack(data: seq<Byte>, p: nat, run: LocalRun)
    requires At(data, p, PrintRun(run))
    ensures ReadU32(data, p) == Ok((run.count, p + |WriteU(run.count)|))
    ensures ReadByte(data, p + |WriteU(run.count)|) == Ok((run.t, p + |PrintRun(run)|))
  {
    hide ReadU32, WriteU;
    var q := p + |WriteU(run.count)|;
    AtSplit(data, p, WriteU(run.count), [run.t]);
    RoundTripU32(data, p, run.count);
    assert data[q] == data[q..q + 1][0];
  }

  /** Reading runs gives back what was written, unless the counts add up to too many locals. */
  lemma {:induction false} RunsReadBack(data: seq<Byte>, p: nat, runs: seq<LocalRun>, total: nat)
    requires p <= |data| && At(data, p, PrintRuns(runs)) && total < 0xFFFF_FFFF
    ensures ReadRuns(data, p, |runs|, total) ==
            if total + Total(runs) < 0xFFFF_FFFF then Ok((runs, p + |PrintRuns(runs)|)) else Err(TooManyLocals)
    decreases |runs|
  {
    hide ReadU32, PrintRun, At;
    if runs != [] {
      var run := PrintRun(runs[0]);
      AtSplit(data, p, run, PrintRuns(runs[1..]));
      RunReadBack(data, p, runs[0]);
      if total + runs[0].count < 0xFFFF_FFFF {
        RunsReadBack(data, p + |run|, runs[1..], total + runs[0].count);
        assert runs == [LocalRun(runs[0].count, runs[0].t)] + runs[1..];
      }
    }
  }

  /** Whatever surrounds them, written declarations read back as that many locals of each
      type, in order, or are refused when there are 2^32 - 1 or more. */
  lemma RoundTripLocals(data: seq<Byte>, p: nat, runs: seq<LocalRun>)
    requires p <= |data| && |runs| < TWO32 && At(data, p, PrintLocals(runs))
    ensures ReadLocals(data, p) ==
            if Total(runs) < 0xFFFF_FFFF then Ok((ExpandRuns(runs), p + |PrintLocals(runs)|)) else Err(TooManyLocals)
  {
    hide ReadU32, WriteU, PrintRuns, ReadRuns, ExpandRuns, At;
    AtSplit(data, p, WriteU(|runs|), PrintRuns(runs));
    RoundTripU32(data, p, |runs|);
    assert p + |WriteU(|runs|)| <= |data| by { AtInside(data, p + |WriteU(|runs|)|, PrintRuns(runs)); }
    RunsReadBack(data, p + |WriteU(|runs|)|, runs, 0);
  }

  lemma AtInside(data: seq<Byte>, p: nat, bytes: seq<Byte>)
    requires At(data, p, bytes)
    ensures p + |bytes| <= |data|
  {
  }

  /** A written code entry, whatever follows it, decodes to the function that was written: the
      type index it is given, the expanded locals and the body. */
  lemma RoundTripCode(code: seq<Byte>, typeidx: U32, runs: seq<LocalRun>, body: Code, hasData: bool)
    requires |runs| < TWO32 && Total(runs) < 0xFFFF_FFFF && Printable(body, false, hasData)
    requires At(code, 0, PrintCode(runs, body, hasData))
    ensures DecodeCode(code, typeidx, hasData) == Ok(Func(typeidx, ExpandRuns(runs), body))
  {
    hide PrintLocals, PrintList, ReadLocals, DecodeExpr, ExpandRuns, Printable, At;
    AtSplit(code, 0, PrintLocals(runs), PrintList(body, false, hasData));
    RoundTripLocals(code, 0, runs);
    assert |PrintLocals(runs)| <= |code| by { AtInside(code, 0, PrintLocals(runs)); }
    RoundTripExpr(code, |PrintLocals(runs)|, body, hasData);
  }

  /** Two i64 locals and an empty body, as bytes. */
  lemma CodeExample()
    ensures ReadLocals([0x01, 0x02, 0x7E, 0x0B], 0) == Ok(([I64, I64], 3))
  {
    var data: seq<Byte> := [0x01, 0x02, 0x7E, 0x0B];
    var run := LocalRun(2, I64);
    assert WriteU(1) == [0x01] && WriteU(2) == [0x02];
    assert [run][1..] == [] && PrintRuns([]) == [] && PrintRuns([run]) == [0x02, 0x7E];
    assert PrintLocals([run]) == [0x01, 0x02, 0x7E] && data[0..3] == [0x01, 0x02, 0x7E];
    assert Total([run]) == 2 by { assert Total([]) == 0; }
    RoundTripLocals(data, 0, [run]);
    assert ExpandRuns([run]) == [I64, I64] by { assert ExpandRuns([]) == []; }
  }
}
