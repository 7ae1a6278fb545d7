/**
  PSP and SMU command sequences do not interfere: their register writes may be
  interleaved in any way.
 */
module Interference {
  import opened Regs
  import opened NpuState
  import D = Device

  /** The SMU's registers: command, response, argument and doorbell. */
  predicate SmuReg(off: Word) {
    off in {REG_SCRATCH5, REG_SCRATCH6, REG_SCRATCH7, REG_PWRMGMT_INTR}
  }

  function JoinScratch(a: seq<Word>, b: seq<Word>): (c: seq<Word>)
    requires |a| == |b| == 10
    ensures |c| == 10
    ensures forall i :: 0 <= i < 10 ==> c[i] == if 5 <= i <= 7 then b[i] else a[i]
  {
    a[5 := b[5]][6 := b[6]][7 := b[7]]
  }

  /** State `s` with the SMU's registers, clocks and counter taken from `u`. */
  function Join(s: State, u: State): (r: State)
    requires Shape(s) && Sized(u)
    ensures Shape(r)
  {
    s.(scratch := JoinScratch(s.scratch, u.scratch),
       pwrmgmtIntr := u.pwrmgmtIntr,
       powerOn := u.powerOn,
       npuclk := u.npuclk,
       hclk := u.hclk,
       dpmLevel := u.dpmLevel,
       stats := s.stats.(smuCmds := u.stats.smuCmds))
  }

  /** The writes that go to the SMU (`smu`) or to everything else, in order. */
  function Select(ws: seq<D.Write>, smu: bool): seq<D.Write> {
    if ws == [] then []
    else if SmuReg(ws[0].off) == smu then [ws[0]] + Select(ws[1..], smu)
    else Select(ws[1..], smu)
  }

  lemma JoinSelf(s: State)
    requires Shape(s)
    ensures Join(s, s) == s
  {
    assert JoinScratch(s.scratch, s.scratch) == s.scratch;
  }

  lemma JoinSmuCommand(s: State, u: State)
    requires Shape(s) && Shape(u)
    ensures D.SmuCommand(Join(s, u)).resp == D.SmuCommand(u).resp
    ensures D.SmuCommand(Join(s, u)).out == D.SmuCommand(u).out
    ensures D.SmuCommand(Join(s, u)).state == Join(s, D.SmuCommand(u).state)
  {
    hide Shape, JoinScratch;
  }

  lemma JoinKick(s: State, u: State)
    requires Shape(s) && Shape(u)
    ensures D.SmuKick(Join(s, u)) == Join(s, D.SmuKick(u))
  {
    hide D.SmuCommand, JoinScratch;
    var u1 := u.(stats := u.stats.(smuCmds := u.stats.smuCmds + 1));
    var p := D.SmuCommand(u1);
    JoinSmuCommand(s, u1);
    assert D.SmuComplete(Join(s, p.state), p.resp, p.out).scratch ==
        Join(s, D.SmuComplete(p.state, p.resp, p.out)).scratch;
  }

  /** An SMU write changes and reads the SMU's part only. */
  lemma SmuWriteLocal(h: Host, s: State, u: State, w: D.Write)
    requires Shape(s) && Shape(u) && SmuReg(w.off)
    ensures D.RegWrite(h, Join(s, u), w.off, w.val) == Join(s, D.RegWrite(h, u, w.off, w.val))
  {
    hide D.SmuKick, D.PspKick;
    if w.off == REG_PWRMGMT_INTR && w.val == 1 {
      JoinKick(s, u.(pwrmgmtIntr := 1));
    }
    var k := D.ScratchAt(w.off);
    if k.Some? {
      assert Join(s, u).scratch[k.value := w.val] == Join(s, u.(scratch := u.scratch[k.value := w.val])).scratch;
    }
  }

  lemma JoinBoot(s: State, u: State)
    requires Shape(s) && Shape(u)
    ensures D.Boot(Join(s, u)) == Join(D.Boot(s), u)
  {
    hide D.BootSram, JoinScratch;
  }

  lemma JoinStart(s: State, u: State)
    requires Shape(s) && Shape(u)
    ensures D.Start(Join(s, u)).resp == D.Start(s).resp
    ensures D.Start(Join(s, u)).state == Join(D.Start(s).state, u)
  {
    hide D.Boot, JoinScratch;
    JoinBoot(s, u);
  }

  lemma JoinShutdown(s: State, u: State)
    requires Shape(s) && Shape(u)
    ensures D.Shutdown(Join(s, u)) == Join(D.Shutdown(s), u)
  {
    hide D.Invalidated, JoinScratch;
    assert D.Shutdown(Join(s, u)).chan == D.Shutdown(s).chan;
  }

  lemma JoinValidate(h: Host, s: State, u: State)
    requires Shape(s) && Shape(u)
    ensures D.Validate(h, Join(s, u)).resp == D.Validate(h, s).resp
    ensures D.Validate(h, Join(s, u)).state == Join(D.Validate(h, s).state, u)
    ensures D.ValidateCert(h, Join(s, u)).resp == D.ValidateCert(h, s).resp
    ensures D.ValidateCert(h, Join(s, u)).state == Join(D.ValidateCert(h, s).state, u)
  {
    hide D.FetchImage, JoinScratch;
  }

  lemma JoinCommand(h: Host, s: State, u: State)
    requires Shape(s) && Shape(u)
    ensures D.PspCommand(h, Join(s, u)).resp == D.PspCommand(h, s).resp
    ensures D.PspCommand(h, Join(s, u)).state == Join(D.PspCommand(h, s).state, u)
  {
    hide D.Start, D.Shutdown, D.Validate, D.ValidateCert, JoinScratch;
    JoinStart(s, u);
    JoinShutdown(s, u);
    JoinValidate(h, s, u);
  }

  lemma JoinPspKick(h: Host, s: State, u: State)
    requires Shape(s) && Shape(u)
    ensures D.PspKick(h, Join(s, u)) == Join(D.PspKick(h, s), u)
  {
    hide D.PspCommand;
    var s1 := s.(stats := s.stats.(pspCmds := s.stats.pspCmds + 1));
    var p := D.PspCommand(h, s1);
    JoinCommand(h, s1, u);
    assert D.PspComplete(Join(p.state, u), p.resp).scratch == Join(D.PspComplete(p.state, p.resp), u).scratch;
  }

  /** Any other register write neither changes nor reads the SMU's part. */
  lemma OtherWriteLocal(h: Host, s: State, u: State, w: D.Write)
    requires Shape(s) && Shape(u) && !SmuReg(w.off)
    ensures D.RegWrite(h, Join(s, u), w.off, w.val) == Join(D.RegWrite(h, s, w.off, w.val), u)
  {
    hide D.SmuKick, D.PspKick, ChanOk, JoinScratch;
    if w.off == REG_SEC_INTR && w.val == PSP_NOTIFY_VAL {
      JoinPspKick(h, s.(secIntr := w.val), u);
    }
    var k := D.ScratchAt(w.off);
    if k.Some? {
      assert Join(s, u).scratch[k.value := w.val] == Join(s.(scratch := s.scratch[k.value := w.val]), u).scratch;
    }
  }

  /** Any interleaving ends in the state the two sequences reach on their own, put together. */
  lemma {:induction false} WritesProject(h: Host, s: State, u: State, ws: seq<D.Write>)
    requires Shape(s) && Shape(u)
    ensures D.Writes(h, Join(s, u), ws) == Join(D.Writes(h, s, Select(ws, false)), D.Writes(h, u, Select(ws, true)))
    decreases |ws|
  {
    hide Join, D.RegWrite;
    if ws == [] {
    } else {
      var w := ws[0];
      if SmuReg(w.off) {
        SmuWriteLocal(h, s, u, w);
        var rest := Select(ws[1..], true);
        assert ([w] + rest)[1..] == rest;
        WritesProject(h, s, D.RegWrite(h, u, w.off, w.val), ws[1..]);
      } else {
        OtherWriteLocal(h, s, u, w);
        var rest := Select(ws[1..], false);
        assert ([w] + rest)[1..] == rest;
        WritesProject(h, D.RegWrite(h, s, w.off, w.val), u, ws[1..]);
      }
    }
  }

  /**
    Two interleavings of the same PSP and SMU sequences end in the same state;
    and each side reads back what it would have read running alone.
   */
  lemma InterleavingIrrelevant(h: Host, s: State, ws: seq<D.Write>, ws': seq<D.Write>, off: Word)
    requires Shape(s)
    requires Select(ws, false) == Select(ws', false) && Select(ws, true) == Select(ws', true)
    ensures D.Writes(h, s, ws) == D.Writes(h, s, ws')
    ensures D.RegRead(D.Writes(h, s, ws), off) == D.RegRead(D.Writes(h, s, Select(ws, SmuReg(off))), off)
  {
    hide D.Writes;
    JoinSelf(s);
    WritesProject(h, s, s, ws);
    WritesProject(h, s, s, ws');
  }
}
