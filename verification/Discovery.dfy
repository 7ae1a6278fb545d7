/**
  What the firmware publishes is what the register decoder understands: at boot,
  in every create reply, and again after a restart.
 */
module Discovery {
  import opened Regs
  import opened Ring
  import opened NpuState
  import opened Mailbox
  import opened Mert
  import opened DriverModel
  import opened Footprint
  import Consumer
  import Bytes
  import D = Device

  /** The registers and rings that belong to channel `c`. */
  function Belonging(c: nat): Found
    requires c < MAX_CHANNELS
  {
    Found(ChannRes(c * CHAN_STRIDE, c * CHAN_STRIDE + X2I_TAIL_OFF, X2iBase(c), RingSize(c)),
          ChannRes(c * CHAN_STRIDE + I2X_HEAD_OFF, c * CHAN_STRIDE + I2X_TAIL_OFF, I2xBase(c), RingSize(c)),
          c * CHAN_STRIDE + INTR_OFF, c)
  }

  /** The driver finds the management channel after every boot. */
  lemma BootIsDiscovered(s: State)
    requires Shape(s)
    ensures Discover(D.Boot(s)) == Some(Belonging(0))
  {
    hide Bytes.WordsAt;
    var sram := D.BootSram(s.sram);
    assert sram[FW_ALIVE_OFF / 4] == SramDevAddr(MGMT_INFO_OFF);
    assert sram[MGMT_INFO_OFF / 4..MGMT_INFO_OFF / 4 + 16] == D.MgmtInfo();
    Bytes.WordsAtAligned(sram, MGMT_INFO_OFF / 4, 16);
  }

  /** A create reply describes exactly the channel of the slot that was taken. */
  lemma CreateIsDiscovered(s: State, req: seq<Word>)
    requires Shape(s)
    requires CreateContext(s, req).reply.value[0] == STATUS_SUCCESS
    ensures var o := CreateContext(s, req);
            var d := FromReply(o.reply.value);
            && 1 <= d.vector < MAX_CHANNELS
            && d == Belonging(d.vector)
            && o.state.chan[d.vector] == OpenChannel(d.vector) && !s.ctx[d.vector - 1].valid
            && o.state.ctx[d.vector - 1].valid && o.state.ctx[d.vector - 1].id == o.reply.value[1]
  {
    hide OpenContext;
    var k := FirstFree(s.ctx, 0);
    OpenedSlot(s, k, req);
  }

  lemma OpenedSlot(s: State, k: nat, req: seq<Word>)
    requires Shape(s)
    ensures k < MAX_CONTEXTS && |req| >= 7 ==>
              var t := OpenContext(s, k, req);
              t.chan[k + 1] == OpenChannel(k + 1) && t.ctx[k].valid && t.ctx[k].id == s.nextCtxId
  {
  }

  /** New entries of the log from `from` on concern channel `c` alone. */
  predicate OnlyOn(log: seq<Obs>, from: nat, c: nat) {
    forall i :: from <= i < |log| ==>
      && (log[i].Irq? ==> log[i].vector == c)
      && (log[i].Replied? || log[i].Dispatched? || log[i].AsyncRegistered? ==> log[i].chan == c)
  }

  /** The log grew by entries on channel `c` alone. */
  predicate Grew(a: seq<Obs>, b: seq<Obs>, c: nat) {
    a <= b && OnlyOn(b, |a|, c)
  }

  lemma GrewTrans(a: seq<Obs>, b: seq<Obs>, d: seq<Obs>, c: nat)
    requires Grew(a, b, c) && Grew(b, d, c)
    ensures Grew(a, d, c)
  {
    forall i | |a| <= i < |d|
      ensures (d[i].Irq? ==> d[i].vector == c)
              && (d[i].Replied? || d[i].Dispatched? || d[i].AsyncRegistered? ==> d[i].chan == c)
    {
      if i < |b| {
        assert d[i] == b[i];
      }
    }
  }

  lemma {:induction false} FillGrew(h: Host, log: seq<Obs>, addr: nat, size: nat, done: nat, c: nat)
    requires done <= size
    ensures Grew(log, FillZeros(h, log, addr, size, done).log, c)
    decreases size - done
  {
    hide Grew;
    GrewSame(log, c);
    if done == size {
    } else {
      var n := if size - done > 256 then 256 else size - done;
      var at := (addr + done) % TWO64;
      var log' := log + [DmaWrite(at, n, h.writeOk(log, at, n))];
      GrewDma(log, DmaWrite(at, n, h.writeOk(log, at, n)), c);
      if h.writeOk(log, at, n) {
        FillGrew(h, log', addr, size, done + n, c);
        GrewTrans(log, log', FillZeros(h, log', addr, size, done + n).log, c);
      }
    }
  }

  lemma GrewSame(log: seq<Obs>, c: nat)
    ensures Grew(log, log, c)
  {
  }

  lemma GrewDma(log: seq<Obs>, o: Obs, c: nat)
    requires o.DmaWrite? || o.Created? || (o.Dispatched? && o.chan == c) || (o.AsyncRegistered? && o.chan == c)
    ensures Grew(log, log + [o], c)
  {
  }

  lemma EffectGrew(h: Host, s: State, c: nat, f: Frame)
    requires Shape(s)
    ensures Grew(s.log, Effect(h, s, c, f).state.log, c)
  {
    hide Grew, StatusReply, FillZeros, FirstFree, Splice, DestroyContext, MapHostBuffer, CreateReply, Shape;
    GrewSame(s.log, c);
    GrewDma(s.log, AsyncRegistered(c), c);
    if f.opcode == OP_QUERY_COL_STATUS && |f.payload| >= 5 {
      FillGrew(h, s.log, U64(f.payload[0], f.payload[1]), f.payload[2], 0, c);
    } else if f.opcode == OP_CREATE_CONTEXT {
      CreateGrew(s, f.payload, c);
    } else if f.opcode == OP_DESTROY_CONTEXT || f.opcode == OP_MAP_HOST_BUFFER || f.opcode == OP_ADD_HOST_BUFFER {
      PoolSpares(s, f.opcode, f.payload);
    }
  }

  lemma CreateGrew(s: State, req: seq<Word>, c: nat)
    requires Shape(s)
    ensures Grew(s.log, CreateContext(s, req).state.log, c)
  {
    hide Grew;
    GrewSame(s.log, c);
    GrewDma(s.log, Created(FirstFree(s.ctx, 0), s.nextCtxId), c);
  }

  lemma HandleGrew(h: Host, s: State, c: nat, f: Frame)
    requires Shape(s)
    ensures Grew(s.log, Handle(h, s, c, f).log, c)
  {
    hide Effect, Send;
    var o := Effect(h, s, c, f);
    EffectGrew(h, s, c, f);
    if s.fwAlive && o.reply.Some? {
      var g := MakeFrame(f.id, f.opcode, o.reply.value);
      SendFields(h, o.state, c, g);
      GrewTrans(s.log, o.state.log, Send(h, o.state, c, g).state.log, c);
    }
  }

  lemma {:induction false} DrainGrew(h: Host, s: State, c: nat, fuel: nat)
    requires Shape(s) && c < MAX_CHANNELS
    ensures Grew(s.log, Consumer.Drain(h, s, c, fuel).log, c)
    decreases fuel
  {
    hide Grew, Handle, Peek;
    GrewSame(s.log, c);
    if s.chan[c].x2iHead == s.chan[c].x2iTail || fuel == 0 {
    } else {
      match Peek(s, c) {
        case Rewind => DrainGrew(h, Consumer.Rewound(s, c), c, fuel - 1);
        case Malformed =>
        case Message(f) =>
          var t := Consumer.Taken(s, c, f);
          var u := Handle(h, t, c, f);
          GrewDma(s.log, Dispatched(c, s.chan[c].x2iHead, f), c);
          HandleGrew(h, t, c, f);
          GrewTrans(s.log, t.log, u.log, c);
          DrainGrew(h, u, c, fuel - 1);
          GrewTrans(s.log, u.log, Consumer.Drain(h, u, c, fuel - 1).log, c);
      }
    }
  }

  /**
    The advertised offsets reach, through the register decoder, exactly channel
    `c`'s positions, with the interrupt register one word after the reader
    position.
   */
  lemma BelongingReads(s: State, c: nat)
    requires Shape(s) && c < MAX_CHANNELS
    ensures var d := Belonging(c);
            && RegRead(s, d.x2i.headReg) == s.chan[c].x2iHead
            && RegRead(s, d.x2i.tailReg) == s.chan[c].x2iTail
            && RegRead(s, d.i2x.headReg) == s.chan[c].i2xHead
            && RegRead(s, d.i2x.tailReg) == s.chan[c].i2xTail
            && RegRead(s, d.intrReg) == s.chan[c].intr
            && d.intrReg == d.i2x.headReg + 4
  {
  }

  /** The advertised ring blocks are the channel's own rings. */
  lemma BelongingRings(s: State, c: nat)
    requires Shape(s) && c < MAX_CHANNELS
    ensures var d := Belonging(c);
            && X2i(s, c).mem == RingMem(s.sram, d.x2i.rbStart, d.x2i.rbSize)
            && I2x(s, c).mem == RingMem(s.sram, d.i2x.rbStart, d.i2x.rbSize)
  {
  }

  /**
    A write of the advertised tail register processes channel `c`, and every
    message, reply and interrupt that follows is on the advertised vector.
   */
  lemma BelongingKicks(h: Host, s: State, c: nat, val: Word)
    requires Shape(s) && c < MAX_CHANNELS
    ensures var d := Belonging(c);
            var t := Consumer.RegWrite(h, s, d.x2i.tailReg, val);
            && t == Consumer.Process(h, SetChan(s, c, s.chan[c].(x2iTail := val)), c)
            && s.log <= t.log && OnlyOn(t.log, |s.log|, d.vector)
  {
    hide Consumer.Drain;
    var off: Word := c * CHAN_STRIDE + X2I_TAIL_OFF;
    assert off / CHAN_STRIDE == c && off % CHAN_STRIDE == 4;
    var t := SetChan(s, c, s.chan[c].(x2iTail := val));
    GrewSame(s.log, c);
    DrainGrew(h, t, c, MAX_MSG_PER_KICK);
  }

  // --- Restart ---

  /** The six register writes of a PSP command amount to one kick on the new arguments. */
  lemma PspExecKicks(h: Host, s: State, cmd: Word, a0: Word, a1: Word, a2: Word)
    requires Shape(s)
    ensures PspExec(h, s, cmd, a0, a1, a2) ==
            D.PspKick(h, s.(scratch := s.scratch[2 := cmd][3 := a0][4 := a1][9 := a2 % 0x100_0000],
                secIntr := PSP_NOTIFY_VAL))
  {
    hide D.PspKick, D.RegWrite, D.Writes;
    var arg2 := a2 % 0x100_0000;
    var w5, w6 := D.Write(REG_SEC_INTR, 0), D.Write(REG_SEC_INTR, PSP_NOTIFY_VAL);
    var w3, w4 := D.Write(REG_SCRATCH4, a1), D.Write(REG_SCRATCH9, arg2);
    var s1 := s.(scratch := s.scratch[2 := cmd]);
    var s2 := s1.(scratch := s1.scratch[3 := a0]);
    var s3 := s2.(scratch := s2.scratch[4 := a1]);
    var s4 := s3.(scratch := s3.scratch[9 := arg2]);
    var w1, w2 := D.Write(REG_SCRATCH2, cmd), D.Write(REG_SCRATCH3, a0);
    ScratchWrite(h, s, w1, 2, [w2, w3, w4, w5, w6]);
    ScratchWrite(h, s1, w2, 3, [w3, w4, w5, w6]);
    ScratchWrite(h, s2, w3, 4, [w4, w5, w6]);
    ScratchWrite(h, s3, w4, 9, [w5, w6]);
    Doorbell(h, s4);
    assert [w1] + [w2, w3, w4, w5, w6] == [w1, w2, w3, w4, w5, w6];
    assert [w2] + [w3, w4, w5, w6] == [w2, w3, w4, w5, w6];
    assert [w3] + [w4, w5, w6] == [w3, w4, w5, w6] && [w4] + [w5, w6] == [w4, w5, w6];
  }

  lemma ScratchWrite(h: Host, s: State, w: D.Write, k: nat, rest: seq<D.Write>)
    requires Shape(s) && D.ScratchAt(w.off) == Some(k)
    ensures D.Writes(h, s, [w] + rest) == D.Writes(h, s.(scratch := s.scratch[k := w.val]), rest)
  {
    hide D.PspKick, D.SmuKick;
    assert ([w] + rest)[1..] == rest;
  }

  lemma Doorbell(h: Host, s: State)
    requires Shape(s)
    ensures D.Writes(h, s, [D.Write(REG_SEC_INTR, 0), D.Write(REG_SEC_INTR, PSP_NOTIFY_VAL)])
            == D.PspKick(h, s.(secIntr := PSP_NOTIFY_VAL))
  {
    hide D.PspKick, D.SmuKick;
    var w5, w6 := D.Write(REG_SEC_INTR, 0), D.Write(REG_SEC_INTR, PSP_NOTIFY_VAL);
    assert [w5, w6][1..] == [w6] && [w6][1..] == [];
    var s1 := s.(secIntr := 0);
    assert D.RegWrite(h, s, REG_SEC_INTR, 0) == s1;
    assert D.RegWrite(h, s1, REG_SEC_INTR, PSP_NOTIFY_VAL) == D.PspKick(h, s.(secIntr := PSP_NOTIFY_VAL));
    assert D.Writes(h, s1, [w6]) == D.Writes(h, D.RegWrite(h, s1, REG_SEC_INTR, PSP_NOTIFY_VAL), []);
  }

  /** Six register writes, one after the other. */
  lemma SixWrites(h: Host, s: State, w1: D.Write, w2: D.Write, w3: D.Write, w4: D.Write, w5: D.Write, w6: D.Write)
    requires Shape(s)
    ensures var s1 := D.RegWrite(h, s, w1.off, w1.val);
            var s2 := D.RegWrite(h, s1, w2.off, w2.val);
            var s3 := D.RegWrite(h, s2, w3.off, w3.val);
            var s4 := D.RegWrite(h, s3, w4.off, w4.val);
            var s5 := D.RegWrite(h, s4, w5.off, w5.val);
            D.Writes(h, s, [w1, w2, w3, w4, w5, w6]) == D.RegWrite(h, s5, w6.off, w6.val)
  {
    hide D.RegWrite;
    FirstWrite(h, s, w1, [w2, w3, w4, w5, w6]);
    var s1 := D.RegWrite(h, s, w1.off, w1.val);
    FirstWrite(h, s1, w2, [w3, w4, w5, w6]);
    var s2 := D.RegWrite(h, s1, w2.off, w2.val);
    FirstWrite(h, s2, w3, [w4, w5, w6]);
    var s3 := D.RegWrite(h, s2, w3.off, w3.val);
    FirstWrite(h, s3, w4, [w5, w6]);
    var s4 := D.RegWrite(h, s3, w4.off, w4.val);
    FirstWrite(h, s4, w5, [w6]);
    FirstWrite(h, D.RegWrite(h, s4, w5.off, w5.val), w6, []);
    assert [w1] + [w2, w3, w4, w5, w6] == [w1, w2, w3, w4, w5, w6] && [w2] + [w3, w4, w5, w6] == [w2, w3, w4, w5, w6];
    assert [w3] + [w4, w5, w6] == [w3, w4, w5, w6] && [w4] + [w5, w6] == [w4, w5, w6];
    assert [w5] + [w6] == [w5, w6] && [w6] + [] == [w6];
  }

  lemma FirstWrite(h: Host, s: State, w: D.Write, rest: seq<D.Write>)
    requires Shape(s)
    ensures D.Writes(h, s, [w] + rest) == D.Writes(h, D.RegWrite(h, s, w.off, w.val), rest)
  {
    hide D.RegWrite;
    assert ([w] + rest)[1..] == rest;
  }

  /** Nothing but the management channel is open and no context is valid. */
  predicate FreshlyBooted(s: State)
    requires Sized(s)
  {
    && s.chan[0] == OpenChannel(0)
    && (forall i :: 1 <= i < MAX_CHANNELS ==> s.chan[i] == BlankChannel(i))
    && (forall i :: 0 <= i < MAX_CONTEXTS ==> !s.ctx[i].valid)
    && s.fwAlive && s.pspState == Running && !s.fwSuspended && s.pwaitmode % 2 == 1
    && s.stats.activeContexts == 0
  }

  predicate AllClosed(s: State)
    requires Sized(s)
  {
    && (forall i :: 0 <= i < MAX_CHANNELS ==> s.chan[i] == BlankChannel(i))
    && (forall i :: 0 <= i < MAX_CONTEXTS ==> !s.ctx[i].valid)
    && s.stats.activeContexts == 0
  }

  lemma ReleaseCloses(h: Host, s: State)
    requires Shape(s)
    ensures AllClosed(PspExec(h, s, PSP_RELEASE_TMR, 0, 0, 0))
  {
    hide PspExec, D.Validate, D.ValidateCert, D.Start;
    PspExecKicks(h, s, PSP_RELEASE_TMR, 0, 0, 0);
  }

  lemma ValidateExec(h: Host, s: State, lo: Word, hi: Word, size: Word)
    requires Shape(s) && ImageAccepted(h, s, lo, hi, size)
    ensures var t := PspExec(h, s, PSP_VALIDATE, lo, hi, size);
            && t.pspState == Validated && t.chan == s.chan && t.ctx == s.ctx && t.sram == s.sram
            && t.stats.activeContexts == s.stats.activeContexts
  {
    hide PspExec, D.ValidateCert, D.Start, D.Shutdown;
    PspExecKicks(h, s, PSP_VALIDATE, lo, hi, size);
  }

  /** START on a validated image opens the management channel anew and leaves contexts and other channels alone. */
  lemma StartBoots(h: Host, s: State)
    requires Shape(s) && s.pspState == Validated
    ensures var t := PspExec(h, s, PSP_START, 1, 0, 0);
            && t.chan == s.chan[0 := OpenChannel(0)] && t.ctx == s.ctx && t.sram == D.BootSram(s.sram)
            && t.fwAlive && t.pspState == Running && !t.fwSuspended && t.pwaitmode % 2 == 1
            && t.stats.activeContexts == s.stats.activeContexts
  {
    hide PspExec, D.ValidateCert, D.Validate, D.Shutdown, D.BootSram;
    PspExecKicks(h, s, PSP_START, 1, 0, 0);
  }

  lemma StartExec(h: Host, s: State)
    requires Shape(s) && s.pspState == Validated && AllClosed(s)
    ensures var t := PspExec(h, s, PSP_START, 1, 0, 0);
            FreshlyBooted(t) && t.sram == D.BootSram(s.sram)
  {
    hide PspExec, D.BootSram;
    StartBoots(h, s);
  }

  /** Discovery depends on SRAM alone. */
  lemma DiscoverReads(s: State, t: State)
    requires Shape(s) && Sized(t) && t.sram == D.BootSram(s.sram)
    ensures Discover(t) == Some(Belonging(0))
  {
    hide D.BootSram, Bytes.WordsAt;
    BootIsDiscovered(s);
    assert D.Boot(s).sram == t.sram;
  }

  lemma BootSramFixed(a: seq<Word>, b: seq<Word>, w: nat)
    requires |a| == |b| == SRAM_WORDS
    requires || Within(w, MGMT_INFO_OFF, 64) || Within(w, FW_ALIVE_OFF, 4)
             || Within(w, X2iBase(0), RingSize(0)) || Within(w, I2xBase(0), RingSize(0))
    ensures w < SRAM_WORDS && D.BootSram(a)[w] == D.BootSram(b)[w]
  {
  }

  /**
    Whatever ran before, releasing the firmware and bringing it up again gives
    the channel table, channel description, FW_ALIVE word, management rings and
    empty context table of a first boot after reset.
   */
  lemma RestartLikeFirstBoot(h: Host, s: State, h0: Host, log: seq<Obs>, lo: Word, hi: Word, size: Word, w: nat)
    requires Shape(s)
    requires ImageAccepted(h, PspExec(h, s, PSP_RELEASE_TMR, 0, 0, 0), lo, hi, size)
    requires ImageAccepted(h0, D.ResetState(log), lo, hi, size)
    requires || Within(w, MGMT_INFO_OFF, 64) || Within(w, FW_ALIVE_OFF, 4)
             || Within(w, X2iBase(0), RingSize(0)) || Within(w, I2xBase(0), RingSize(0))
    ensures var again := BringUp(h, PspExec(h, s, PSP_RELEASE_TMR, 0, 0, 0), lo, hi, size);
            var first := BringUp(h0, D.ResetState(log), lo, hi, size);
            && FreshlyBooted(again) && FreshlyBooted(first)
            && again.chan == first.chan
            && w < SRAM_WORDS && again.sram[w] == first.sram[w]
            && Discover(again) == Some(Belonging(0))
  {
    hide PspExec, D.BootSram, D.ResetState, D.Boot, Discover, ChanOk;
    var s1 := PspExec(h, s, PSP_RELEASE_TMR, 0, 0, 0);
    var r1 := D.ResetState(log);
    ReleaseCloses(h, s);
    ResetCloses(log);
    ValidateExec(h, s1, lo, hi, size);
    ValidateExec(h0, r1, lo, hi, size);
    var s2, r2 := PspExec(h, s1, PSP_VALIDATE, lo, hi, size), PspExec(h0, r1, PSP_VALIDATE, lo, hi, size);
    StartExec(h, s2);
    StartExec(h0, r2);
    BootSramFixed(s2.sram, r2.sram, w);
    DiscoverReads(s2, PspExec(h, s2, PSP_START, 1, 0, 0));
  }

  lemma ResetCloses(log: seq<Obs>)
    ensures AllClosed(D.ResetState(log))
  {
  }
}
