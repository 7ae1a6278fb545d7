/**
  What the driver's PSP and SMU commands answer and change, alone and at the
  same time.
 */
module Commands {
  import opened Regs
  import opened NpuState
  import opened DriverModel
  import opened Discovery
  import opened Interference
  import D = Device

  // --- PSP ---

  /** The first bytes of the image at the 64-bit address lo, hi can be read from the host. */
  predicate Readable(h: Host, s: State, lo: Word, hi: Word, size: Word) {
    h.hasDmaRead && h.readOk(s.log, lo + hi * TWO32, if size < 64 then size else 64)
  }

  /** When a PSP command succeeds. */
  predicate PspGrants(h: Host, s: State, cmd: Word, lo: Word, hi: Word, size: Word) {
    || (cmd in {PSP_VALIDATE, PSP_VALIDATE_CERT} && size % 0x100_0000 != 0 && Readable(h, s, lo, hi, size % 0x100_0000))
    || (cmd == PSP_START && s.pspState == Validated)
    || cmd == PSP_RELEASE_TMR
  }

  /**
    A PSP command answers 0 exactly when it is granted; one that is not changes
    nothing but its registers, the counter and the record of the image read.
   */
  lemma PspAnswers(h: Host, s: State, cmd: Word, lo: Word, hi: Word, size: Word)
    requires Shape(s)
    ensures var t := PspExec(h, s, cmd, lo, hi, size);
            && t.scratch[2] == PSP_STATUS_READY
            && (t.scratch[3] == 0 <==> PspGrants(h, s, cmd, lo, hi, size))
            && (t.scratch[3] != 0 ==> t == s.(scratch := t.scratch, secIntr := PSP_NOTIFY_VAL, log := t.log,
                                             stats := s.stats.(pspCmds := s.stats.pspCmds + 1)))
            && (t.scratch[3] == 0 && cmd == PSP_VALIDATE ==>
                  t.fwPaddr == lo + hi * TWO32 && t.fwSize == size % 0x100_0000 && t.pspState == Validated)
            && (t.scratch[3] == 0 && cmd == PSP_VALIDATE_CERT ==> t.pspState == s.pspState && t.fwPaddr == s.fwPaddr)
  {
    hide D.Boot, D.Shutdown, D.Writes;
    PspExecKicks(h, s, cmd, lo, hi, size);
  }

  /** When the VALIDATE step of a bring-up succeeds, in terms of the host alone. */
  lemma ImageAcceptedIff(h: Host, s: State, lo: Word, hi: Word, size: Word)
    requires Shape(s)
    ensures ImageAccepted(h, s, lo, hi, size) <==> size % 0x100_0000 != 0 && Readable(h, s, lo, hi, size % 0x100_0000)
  {
    hide PspExec;
    PspAnswers(h, s, PSP_VALIDATE, lo, hi, size);
  }

  // --- SMU ---

  /** The five register writes of an SMU command amount to one kick on the new argument. */
  lemma SmuExecKicks(h: Host, s: State, cmd: Word, arg: Word)
    requires Shape(s)
    ensures SmuExec(h, s, cmd, arg) ==
            D.SmuKick(s.(scratch := s.scratch[6 := 0][7 := arg][5 := cmd], pwrmgmtIntr := 1))
  {
    hide D.SmuKick, D.PspKick, D.RegWrite, D.Writes;
    var w4, w5 := D.Write(REG_PWRMGMT_INTR, 0), D.Write(REG_PWRMGMT_INTR, 1);
    var s1 := s.(scratch := s.scratch[6 := 0]);
    var s2 := s1.(scratch := s1.scratch[7 := arg]);
    var s3 := s2.(scratch := s2.scratch[5 := cmd]);
    ScratchWrite(h, s, D.Write(REG_SCRATCH6, 0), 6, [D.Write(REG_SCRATCH7, arg), D.Write(REG_SCRATCH5, cmd), w4, w5]);
    ScratchWrite(h, s1, D.Write(REG_SCRATCH7, arg), 7, [D.Write(REG_SCRATCH5, cmd), w4, w5]);
    ScratchWrite(h, s2, D.Write(REG_SCRATCH5, cmd), 5, [w4, w5]);
    PowerDoorbell(h, s3);
    assert [D.Write(REG_SCRATCH6, 0)] + [D.Write(REG_SCRATCH7, arg), D.Write(REG_SCRATCH5, cmd), w4, w5] ==
        SmuSequence(cmd, arg);
    assert [D.Write(REG_SCRATCH7, arg)] + [D.Write(REG_SCRATCH5, cmd), w4, w5] ==
        [D.Write(REG_SCRATCH7, arg), D.Write(REG_SCRATCH5, cmd), w4, w5];
    assert [D.Write(REG_SCRATCH5, cmd)] + [w4, w5] == [D.Write(REG_SCRATCH5, cmd), w4, w5];
  }

  /** Five register writes, one after the other. */
  lemma FiveWrites(h: Host, s: State, w1: D.Write, w2: D.Write, w3: D.Write, w4: D.Write, w5: D.Write)
    requires Shape(s)
    ensures var s1 := D.RegWrite(h, s, w1.off, w1.val);
            var s2 := D.RegWrite(h, s1, w2.off, w2.val);
            var s3 := D.RegWrite(h, s2, w3.off, w3.val);
            var s4 := D.RegWrite(h, s3, w4.off, w4.val);
            D.Writes(h, s, [w1, w2, w3, w4, w5]) == D.RegWrite(h, s4, w5.off, w5.val)
  {
    hide D.RegWrite;
    FirstWrite(h, s, w1, [w2, w3, w4, w5]);
    var s1 := D.RegWrite(h, s, w1.off, w1.val);
    FirstWrite(h, s1, w2, [w3, w4, w5]);
    var s2 := D.RegWrite(h, s1, w2.off, w2.val);
    FirstWrite(h, s2, w3, [w4, w5]);
    var s3 := D.RegWrite(h, s2, w3.off, w3.val);
    FirstWrite(h, s3, w4, [w5]);
    FirstWrite(h, D.RegWrite(h, s3, w4.off, w4.val), w5, []);
    assert [w1] + [w2, w3, w4, w5] == [w1, w2, w3, w4, w5] && [w2] + [w3, w4, w5] == [w2, w3, w4, w5];
    assert [w3] + [w4, w5] == [w3, w4, w5] && [w4] + [w5] == [w4, w5] && [w5] + [] == [w5];
  }

  lemma PowerDoorbell(h: Host, s: State)
    requires Shape(s)
    ensures D.Writes(h, s, [D.Write(REG_PWRMGMT_INTR, 0), D.Write(REG_PWRMGMT_INTR, 1)]) ==
            D.SmuKick(s.(pwrmgmtIntr := 1))
  {
    hide D.SmuKick, D.PspKick;
    var w4, w5 := D.Write(REG_PWRMGMT_INTR, 0), D.Write(REG_PWRMGMT_INTR, 1);
    var s1 := s.(pwrmgmtIntr := 0);
    FirstWrite(h, s, w4, [w5]);
    FirstWrite(h, s1, w5, []);
    assert [w4] + [w5] == [w4, w5] && [w5] + [] == [w5];
    assert D.RegWrite(h, s, REG_PWRMGMT_INTR, 0) == s1;
    assert D.RegWrite(h, s1, REG_PWRMGMT_INTR, 1) == D.SmuKick(s.(pwrmgmtIntr := 1));
  }

  predicate SmuGrants(cmd: Word, arg: Word) {
    SMU_POWER_ON <= cmd <= SMU_SET_HCLK || (SMU_SET_SOFT_DPM <= cmd <= SMU_SET_HARD_DPM && arg <= 7)
  }

  /**
    An SMU command always answers, with OK exactly for a known command whose DPM
    level is at most 7; it changes only the setting it names, echoes the value
    it set, and a failed one changes no setting.
   */
  lemma SmuAnswers(h: Host, s: State, cmd: Word, arg: Word)
    requires Shape(s)
    ensures var t := SmuExec(h, s, cmd, arg);
            var ok := SmuGrants(cmd, arg);
            && t.scratch[6] == (if ok then SMU_RESULT_OK else SMU_RESULT_FAIL)
            && t.scratch[7] == (if ok && cmd > SMU_POWER_OFF then arg else 0)
            && t == s.(scratch := t.scratch, pwrmgmtIntr := 1, stats := s.stats.(smuCmds := s.stats.smuCmds + 1),
                       powerOn := if cmd == SMU_POWER_ON then true
                                  else if cmd == SMU_POWER_OFF then false else s.powerOn,
                       npuclk := if cmd == SMU_SET_MPNPUCLK then arg else s.npuclk,
                       hclk := if cmd == SMU_SET_HCLK then arg else s.hclk,
                       dpmLevel := if ok && cmd >= SMU_SET_SOFT_DPM then arg else s.dpmLevel)
  {
    hide D.Writes;
    SmuExecKicks(h, s, cmd, arg);
  }

  // --- Both at once ---

  lemma SelectPsp(cmd: Word, a0: Word, a1: Word, a2: Word)
    ensures Select(PspSequence(cmd, a0, a1, a2), false) == PspSequence(cmd, a0, a1, a2)
    ensures Select(PspSequence(cmd, a0, a1, a2), true) == []
  {
    SelectAll(PspSequence(cmd, a0, a1, a2), false);
  }

  lemma SelectSmu(cmd: Word, arg: Word)
    ensures Select(SmuSequence(cmd, arg), true) == SmuSequence(cmd, arg)
    ensures Select(SmuSequence(cmd, arg), false) == []
  {
    SelectAll(SmuSequence(cmd, arg), true);
  }

  lemma {:induction false} SelectAll(ws: seq<D.Write>, smu: bool)
    requires forall i :: 0 <= i < |ws| ==> SmuReg(ws[i].off) == smu
    ensures Select(ws, smu) == ws && Select(ws, !smu) == []
    decreases |ws|
  {
    if ws == [] {
    } else {
      SelectAll(ws[1..], smu);
    }
  }

  lemma {:induction false} SelectConcat(a: seq<D.Write>, b: seq<D.Write>, smu: bool)
    ensures Select(a + b, smu) == Select(a, smu) + Select(b, smu)
    decreases |a|
  {
    if a == [] {
      assert a + b == b;
    } else {
      SelectConcat(a[1..], b, smu);
      assert (a + b)[1..] == a[1..] + b && (a + b)[0] == a[0];
    }
  }

  lemma {:induction false} WritesConcat(h: Host, s: State, a: seq<D.Write>, b: seq<D.Write>)
    requires Shape(s)
    ensures D.Writes(h, s, a + b) == D.Writes(h, D.Writes(h, s, a), b)
    decreases |a|
  {
    hide D.RegWrite;
    if a == [] {
      assert a + b == b;
    } else {
      WritesConcat(h, D.RegWrite(h, s, a[0].off, a[0].val), a[1..], b);
      assert (a + b)[1..] == a[1..] + b && (a + b)[0] == a[0];
    }
  }

  /**
    However the writes of a PSP command and of an SMU command are interleaved,
    the device ends as if they had run one after the other, in either order, and
    each side reads the response it would have got alone.
   */
  lemma ConcurrentCommands(h: Host, s: State, ws: seq<D.Write>,
                           cmd: Word, a0: Word, a1: Word, a2: Word, smuCmd: Word, arg: Word)
    requires Shape(s)
    requires Select(ws, false) == PspSequence(cmd, a0, a1, a2) && Select(ws, true) == SmuSequence(smuCmd, arg)
    ensures var t := D.Writes(h, s, ws);
            && t == SmuExec(h, PspExec(h, s, cmd, a0, a1, a2), smuCmd, arg)
            && t == PspExec(h, SmuExec(h, s, smuCmd, arg), cmd, a0, a1, a2)
            && D.RegRead(t, REG_SCRATCH3) == D.RegRead(PspExec(h, s, cmd, a0, a1, a2), REG_SCRATCH3)
            && D.RegRead(t, REG_SCRATCH6) == D.RegRead(SmuExec(h, s, smuCmd, arg), REG_SCRATCH6)
            && D.RegRead(t, REG_SCRATCH7) == D.RegRead(SmuExec(h, s, smuCmd, arg), REG_SCRATCH7)
  {
    hide D.Writes, PspSequence, SmuSequence, Select, D.RegRead;
    var p, q := PspSequence(cmd, a0, a1, a2), SmuSequence(smuCmd, arg);
    SelectPsp(cmd, a0, a1, a2);
    SelectSmu(smuCmd, arg);
    SelectConcat(p, q, false);
    SelectConcat(p, q, true);
    SelectConcat(q, p, false);
    SelectConcat(q, p, true);
    assert p + [] == p && [] + p == p && q + [] == q && [] + q == q;
    InterleavingIrrelevant(h, s, ws, p + q, REG_SCRATCH3);
    InterleavingIrrelevant(h, s, ws, q + p, REG_SCRATCH6);
    InterleavingIrrelevant(h, s, ws, q + p, REG_SCRATCH7);
    WritesConcat(h, s, p, q);
    WritesConcat(h, s, q, p);
  }
}
