/** From a closed device, through bring-up, to a session of any length on the management channel. */
module Sessions {
  import opened Regs
  import opened Ring
  import opened NpuState
  import opened Mert
  import opened DriverModel
  import opened LockstepModel
  import opened Soundness
  import opened Discovery
  import L = Lockstep
  import I = Invariant
  import D = Device

  lemma {:induction false} WritesKeep(h: Host, s: State, ws: seq<D.Write>)
    requires Sound(h, s)
    ensures Sound(h, D.Writes(h, s, ws))
    decreases |ws|
  {
    hide D.RegWrite, Books, Agree;
    if ws == [] {
    } else {
      I.RegWriteKeeps(h, s, ws[0].off, ws[0].val);
      WritesKeep(h, D.RegWrite(h, s, ws[0].off, ws[0].val), ws[1..]);
    }
  }

  lemma PspExecKeeps(h: Host, s: State, cmd: Word, a0: Word, a1: Word, a2: Word)
    requires Sound(h, s)
    ensures Sound(h, PspExec(h, s, cmd, a0, a1, a2))
  {
    hide D.Writes, Books, Agree;
    WritesKeep(h, s, [D.Write(REG_SCRATCH2, cmd), D.Write(REG_SCRATCH3, a0), D.Write(REG_SCRATCH4, a1),
                      D.Write(REG_SCRATCH9, a2 % 0x100_0000), D.Write(REG_SEC_INTR, 0),
                      D.Write(REG_SEC_INTR, PSP_NOTIFY_VAL)]);
  }

  /**
    After bringing up a closed device, fresh from reset or released, the driver
    finds the management channel and is in step with it.
   */
  lemma BringUpInStep(h: Host, s: State, lo: Word, hi: Word, size: Word, n: Word)
    requires Sound(h, s) && AllClosed(s) && ImageAccepted(h, s, lo, hi, size)
    ensures var t := BringUp(h, s, lo, hi, size);
            FreshlyBooted(t) && Discover(t) == Some(Belonging(0)) && InStep(h, t, Drv(0, 0, n), 0)
  {
    hide PspExec, Books, Agree, D.BootSram;
    var u := PspExec(h, s, PSP_VALIDATE, lo, hi, size);
    ValidateExec(h, s, lo, hi, size);
    PspExecKeeps(h, s, PSP_VALIDATE, lo, hi, size);
    StartExec(h, u);
    PspExecKeeps(h, u, PSP_START, 1, 0, 0);
    BootIsDiscovered(u);
    L.OpenedInStep(h, BringUp(h, s, lo, hi, size), 0, n);
  }

  /** A device released after any reachable history can be brought up again, in step. */
  lemma ReleaseThenBringUp(h: Host, s: State, lo: Word, hi: Word, size: Word, n: Word)
    requires Sound(h, s) && ImageAccepted(h, PspExec(h, s, PSP_RELEASE_TMR, 0, 0, 0), lo, hi, size)
    ensures InStep(h, BringUp(h, PspExec(h, s, PSP_RELEASE_TMR, 0, 0, 0), lo, hi, size), Drv(0, 0, n), 0)
  {
    hide PspExec, BringUp, Books, Agree;
    ReleaseCloses(h, s);
    PspExecKeeps(h, s, PSP_RELEASE_TMR, 0, 0, 0);
    BringUpInStep(h, PspExec(h, s, PSP_RELEASE_TMR, 0, 0, 0), lo, hi, size, n);
  }

  /** Each reply of a session carries the status its request earned in the state the earlier ones left. */
  lemma EarnedInTurn(h: Host, s: State, d: Drv, calls: seq<L.Call>, i: nat)
    requires InStep(h, s, d, 0) && L.AllAskable(0, 0, calls) && i < |calls|
    ensures L.AllAskable(0, 0, calls[..i])
    ensures var t, u := L.Talk(h, s, d, 0, calls), L.Talk(h, s, d, 0, calls[..i]);
            var f := RequestFrame(u.drv, calls[i].op, calls[i].req);
            && i < |t.replies| && StatusOff(f.opcode) / 4 < |t.replies[i].payload| && Sized(u.state)
            && exists at :: 0 <= at && t.replies[i].payload[StatusOff(f.opcode) / 4] == L.Earned(h, u.state, 0, at, f)
  {
    hide L.Talk, L.Exchange, L.Earned, InStep, Askable;
    L.StepSynced(h, s, d, 0);
    L.EveryReplyEarned(h, s, d, 0, calls, i);
    var u := L.Talk(h, s, d, 0, calls[..i]);
    var e := L.Exchange(h, u.state, u.drv, 0, calls[i].op, calls[i].req);
    var f := RequestFrame(u.drv, calls[i].op, calls[i].req);
    L.StepSynced(h, u.state, u.drv, 0);
    var at: nat := e.drv.x2iTail - 4 * Len(f);
    assert e.reply.frame.payload[StatusOff(f.opcode) / 4] == L.Earned(h, u.state, 0, at, f);
  }

  /**
    What a session makes of its i-th call: one reply in its place, under its own
    id, with its opcode's size and the status it earned when its turn came.
   */
  ghost predicate Answered(h: Host, s: State, d: Drv, calls: seq<L.Call>, i: nat)
    requires InStep(h, s, d, 0) && L.AllAskable(0, 0, calls) && i < |calls|
  {
    var t := L.Talk(h, s, d, 0, calls);
    && i < |t.replies|
    && t.replies[i].id == (d.nextId + i) % 0x100 + MBOX_MAGIC_VAL
    && t.replies[i].opcode == calls[i].op
    && 4 * |t.replies[i].payload| == RespSize(calls[i].op)
    && L.AllAskable(0, 0, calls[..i])
    && var u := L.Talk(h, s, d, 0, calls[..i]);
       var f := RequestFrame(u.drv, calls[i].op, calls[i].req);
       exists at :: 0 <= at && t.replies[i].payload[StatusOff(f.opcode) / 4] == L.Earned(h, u.state, 0, at, f)
  }

  /** A session of any length, from any state in which driver and device are in step. */
  lemma SessionInFull(h: Host, s: State, d: Drv, calls: seq<L.Call>, i: nat)
    requires InStep(h, s, d, 0) && L.AllAskable(0, 0, calls)
    ensures var t := L.Talk(h, s, d, 0, calls); |t.replies| == |calls| && InStep(h, t.state, t.drv, 0)
    ensures i < |calls| ==> Answered(h, s, d, calls, i)
  {
    hide L.Talk, L.Exchange, L.Earned, InStep, Askable;
    L.StepSynced(h, s, d, 0);
    L.EveryCallAnswered(h, s, d, 0, calls, i);
    if i < |calls| {
      EarnedInTurn(h, s, d, calls, i);
    }
  }

  /**
    End to end from a cold reset: once the image is accepted, any sequence of
    askable requests on the management channel is answered one for one.
   */
  lemma ResetToSession(h: Host, lo: Word, hi: Word, size: Word, n: Word, calls: seq<L.Call>, i: nat)
    requires ImageAccepted(h, D.ResetState([]), lo, hi, size) && L.AllAskable(0, 0, calls)
    ensures var s, d := BringUp(h, D.ResetState([]), lo, hi, size), Drv(0, 0, n);
            && InStep(h, s, d, 0)
            && var t := L.Talk(h, s, d, 0, calls);
               && |t.replies| == |calls| && InStep(h, t.state, t.drv, 0)
               && (i < |calls| ==> Answered(h, s, d, calls, i))
  {
    hide PspExec, BringUp, D.ResetState, L.Talk, L.AllAskable, InStep, Answered;
    I.ResetSound(h, []);
    ResetCloses([]);
    BringUpInStep(h, D.ResetState([]), lo, hi, size, n);
    SessionInFull(h, BringUp(h, D.ResetState([]), lo, hi, size), Drv(0, 0, n), calls, i);
  }
}
