/** Reachable states: what some run of register and memory writes from a cold reset leads to. */
module Reach {
  import opened Regs
  import opened Ring
  import opened NpuState
  import opened DriverModel
  import opened LockstepModel
  import opened Lockstep
  import opened Soundness
  import opened Traffic
  import Consumer
  import D = Device
  import I = Invariant

  ghost predicate Reachable(h: Host, s: State) {
    exists evs :: D.AllDisciplined(h, D.ResetState([]), evs) && D.Run(h, D.ResetState([]), evs) == s
  }

  lemma {:induction false} RunSnoc(h: Host, s: State, evs: seq<D.Event>, e: D.Event)
    requires Shape(s) && D.AllDisciplined(h, s, evs) && D.Disciplined(D.Run(h, s, evs), e)
    ensures D.AllDisciplined(h, s, evs + [e]) && D.Run(h, s, evs + [e]) == D.Step(h, D.Run(h, s, evs), e)
    decreases |evs|
  {
    hide D.Step, D.Disciplined;
    if evs == [] {
      assert evs + [e] == [e] && [e][1..] == [];
    } else {
      RunSnoc(h, D.Step(h, s, evs[0]), evs[1..], e);
      assert (evs + [e])[1..] == evs[1..] + [e] && (evs + [e])[0] == evs[0];
    }
  }

  lemma ReachReset(h: Host)
    ensures Reachable(h, D.ResetState([]))
  {
    assert D.AllDisciplined(h, D.ResetState([]), []) && D.Run(h, D.ResetState([]), []) == D.ResetState([]);
  }

  lemma ReachStep(h: Host, s: State, e: D.Event)
    requires Reachable(h, s) && Shape(s) && D.Disciplined(s, e)
    ensures Reachable(h, D.Step(h, s, e))
  {
    hide D.Step, D.Disciplined, D.ResetState;
    var evs :| D.AllDisciplined(h, D.ResetState([]), evs) && D.Run(h, D.ResetState([]), evs) == s;
    RunSnoc(h, D.ResetState([]), evs, e);
  }

  /** A reachable state is sound. */
  lemma ReachSound(h: Host, s: State)
    requires Reachable(h, s)
    ensures Sound(h, s)
  {
    hide D.Run, D.ResetState, Sound;
    var evs :| D.AllDisciplined(h, D.ResetState([]), evs) && D.Run(h, D.ResetState([]), evs) == s;
    I.ResetSound(h, []);
    I.RunKeeps(h, D.ResetState([]), evs);
  }

  lemma {:induction false} ReachWrites(h: Host, s: State, ws: seq<D.Write>)
    requires Reachable(h, s) && Shape(s)
    ensures Reachable(h, D.Writes(h, s, ws))
    decreases |ws|
  {
    hide D.RegWrite, Reachable;
    if ws == [] {
    } else {
      ReachStep(h, s, D.RegBar(ws[0].off, ws[0].val));
      ReachWrites(h, D.RegWrite(h, s, ws[0].off, ws[0].val), ws[1..]);
    }
  }

  lemma ReachPspExec(h: Host, s: State, cmd: Word, a0: Word, a1: Word, a2: Word)
    requires Reachable(h, s) && Shape(s)
    ensures Reachable(h, PspExec(h, s, cmd, a0, a1, a2))
  {
    hide D.Writes, Reachable, PspSequence;
    ReachWrites(h, s, PspSequence(cmd, a0, a1, a2));
  }

  lemma ReachBringUp(h: Host, s: State, lo: Word, hi: Word, size: Word)
    requires Reachable(h, s) && Shape(s)
    ensures Reachable(h, BringUp(h, s, lo, hi, size))
  {
    hide PspExec, Reachable;
    ReachPspExec(h, s, PSP_VALIDATE, lo, hi, size);
    ReachPspExec(h, PspExec(h, s, PSP_VALIDATE, lo, hi, size), PSP_START, 1, 0, 0);
  }

  /** A block of words written to SRAM, and a mailbox register. */
  lemma ReachSram(h: Host, s: State, at: nat, ws: seq<Word>)
    requires Reachable(h, s) && Shape(s) && at + |ws| <= SRAM_WORDS
    ensures Reachable(h, s.(sram := Splice(s.sram, at, ws)))
  {
    hide Reachable;
    ReachStep(h, s, D.SramBar(4 * at, ws));
  }

  lemma ReachMbox(h: Host, s: State, off: Word, val: Word)
    requires Reachable(h, s) && Shape(s) && Consumer.HeadInRange(s, off, val)
    ensures Reachable(h, Consumer.RegWrite(h, s, off, val))
  {
    hide Reachable, Consumer.RegWrite;
    ReachStep(h, s, D.MboxBar(off, val));
  }

  /** The driver's submission and collection are made of such writes. */
  lemma ReachSubmit(h: Host, s: State, d: Drv, c: nat, f: Frame)
    requires Reachable(h, s) && Shape(s) && c < MAX_CHANNELS
    requires Ready(RequestRing(s, d, c)) && Len(f) <= Usable(RequestRing(s, d, c))
    ensures Reachable(h, Submit(h, s, d, c, f).state)
  {
    hide Reachable, Consumer.RegWrite, Put, Splice;
    var p := Put(RequestRing(s, d, c), f);
    ReachSram(h, s, X2iBase(c) / 4, p.ring.mem);
    var off: Word := c * CHAN_STRIDE + X2I_TAIL_OFF;
    assert off / CHAN_STRIDE == c && off % CHAN_STRIDE == X2I_TAIL_OFF;
    if p.accepted {
      ReachMbox(h, s.(sram := Splice(s.sram, X2iBase(c) / 4, p.ring.mem)), off, 4 * p.ring.tail);
    }
  }

  lemma ReachCollect(h: Host, s: State, d: Drv, c: nat)
    requires Reachable(h, s) && Shape(s) && c < MAX_CHANNELS && s.chan[c].active
    requires Ready(ReplyRing(s, d, c)) && Ready(Get(ReplyRing(s, d, c), 64).ring)
    ensures Reachable(h, Collect(s, d, c).state)
  {
    hide Reachable, Get;
    var head := 4 * Get(ReplyRing(s, d, c), 64).ring.head;
    var off1: Word := c * CHAN_STRIDE + INTR_OFF;
    var off2: Word := c * CHAN_STRIDE + I2X_HEAD_OFF;
    assert off1 / CHAN_STRIDE == c && off1 % CHAN_STRIDE == INTR_OFF;
    assert off2 / CHAN_STRIDE == c && off2 % CHAN_STRIDE == I2X_HEAD_OFF;
    ReachMbox(h, s, off1, 0);
    var s1 := Consumer.RegWrite(h, s, off1, 0);
    ReachMbox(h, s1, off2, head);
    assert s.chan[c := s1.chan[c]][c := s.chan[c].(intr := 0, i2xHead := head)] ==
        s.chan[c := s.chan[c].(intr := 0, i2xHead := head)];
  }

  lemma ReachExchange(h: Host, s: State, d: Drv, c: nat, op: Word, req: seq<Word>)
    requires Reachable(h, s) && InStep(h, s, d, c) && Askable(c, Owner(s, c), RequestFrame(d, op, req))
    ensures Reachable(h, Exchange(h, s, d, c, op, req).state)
  {
    hide Reachable, Submit, Collect, Get, RequestRing, ReplyRing, Earned, Sound;
    var f := RequestFrame(d, op, req);
    StepSynced(h, s, d, c);
    ExchangeWorks(h, s, d, c, f);
    var b := Submit(h, s, d, c, f);
    ReachSubmit(h, s, d, c, f);
    ReachCollect(h, b.state, b.drv, c);
  }

  /** Every state a session leads to is reachable. */
  lemma {:induction false} ReachTalk(h: Host, s: State, d: Drv, c: nat, calls: seq<Call>)
    requires Reachable(h, s) && InStep(h, s, d, c) && AllAskable(c, Owner(s, c), calls)
    ensures Reachable(h, Talk(h, s, d, c, calls).state)
    decreases |calls|
  {
    hide Exchange, InStep, Askable, Reachable, Earned;
    StepSynced(h, s, d, c);
    if calls == [] {
    } else {
      var e := Exchange(h, s, d, c, calls[0].op, calls[0].req);
      ReachExchange(h, s, d, c, calls[0].op, calls[0].req);
      ReachTalk(h, e.state, e.drv, c, calls[1..]);
    }
  }
}
