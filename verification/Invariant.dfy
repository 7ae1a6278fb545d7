/**
  The whole-device invariant, kept by every register write, SRAM write, PSP and
  SMU command, mailbox message and reset.
 */
module Invariant {
  import opened Regs
  import opened Ring
  import opened NpuState
  import opened Mailbox
  import opened Mert
  import opened Ledger
  import opened Soundness
  import Consumer
  import D = Device

  lemma {:induction false} CountUpdate(ctx: seq<Context>, k: nat, c: Context)
    requires k < |ctx|
    ensures CountValid(ctx[k := c]) - (if c.valid then 1 else 0) == CountValid(ctx) - (if ctx[k].valid then 1 else 0)
    decreases |ctx|
  {
    if k == 0 {
      assert ctx[0 := c][1..] == ctx[1..];
    } else {
      assert ctx[k := c][1..] == ctx[1..][k - 1 := c];
      CountUpdate(ctx[1..], k - 1, c);
    }
  }

  lemma {:induction false} CountNone(ctx: seq<Context>)
    requires forall i :: 0 <= i < |ctx| ==> !ctx[i].valid
    ensures CountValid(ctx) == 0
    decreases |ctx|
  {
    if ctx == [] {
    } else {
      CountNone(ctx[1..]);
    }
  }

  // --- The books ---

  lemma BooksReply(h: Host, st: Stats, id: Word, log: seq<Obs>, c: nat, g: Frame, ok: bool)
    requires Books(h, st, id, log)
    ensures var irq := ok && h.hasIrq;
            var log' := log + [Replied(c, g, ok)] + if irq then [Irq(c)] else [];
            var st' := if ok then st.(msgsOut := st.msgsOut + 1, irqs := st.irqs + if irq then 1 else 0) else st;
            Books(h, st', id, log') && Pairs(log') == Pair(Pairs(log), Replied(c, g, ok))
  {
    var log1 := log + [Replied(c, g, ok)];
    Append(log, Replied(c, g, ok));
    AppendNumbered(log, Replied(c, g, ok));
    if ok && h.hasIrq {
      Append(log1, Irq(c));
      AppendNumbered(log1, Irq(c));
    } else {
      assert log1 + [] == log1;
    }
  }

  lemma BooksCreated(h: Host, st: Stats, id: Word, log: seq<Obs>, k: nat)
    requires Books(h, st, id, log)
    ensures var log' := log + [Created(k, id)];
            && Books(h, st.(activeContexts := st.activeContexts + 1), Add32(id, 1), log')
            && Pairs(log') == Pairs(log)
  {
    Append(log, Created(k, id));
    AppendNumbered(log, Created(k, id));
  }

  lemma BooksDispatched(h: Host, st: Stats, id: Word, log: seq<Obs>, c: nat, at: nat, f: Frame)
    requires Books(h, st, id, log)
    ensures var log' := log + [Dispatched(c, at, f)];
            Books(h, st.(msgsIn := st.msgsIn + 1), id, log') && Pairs(log') == Pair(Pairs(log), Dispatched(c, at, f))
  {
    Append(log, Dispatched(c, at, f));
    AppendNumbered(log, Dispatched(c, at, f));
  }

  lemma BooksAsync(h: Host, st: Stats, id: Word, log: seq<Obs>, c: nat)
    requires Books(h, st, id, log)
    ensures var log' := log + [AsyncRegistered(c)];
            Books(h, st, id, log') && Pairs(log') == Pair(Pairs(log), AsyncRegistered(c))
  {
    Append(log, AsyncRegistered(c));
    AppendNumbered(log, AsyncRegistered(c));
  }

  // --- Sending ---

  lemma SendKeeps(h: Host, s: State, c: nat, f: Frame, g: Frame)
    requires Midway(h, s, c, f) && Answers(f, g)
    ensures Sound(h, Send(h, s, c, g).state)
  {
    hide Send, Books, Tally, Numbered, Pairs;
    SendFields(h, s, c, g);
    BooksReply(h, s.stats, s.nextCtxId, s.log, c, g, Send(h, s, c, g).ok);
  }

  // --- Effects ---

  lemma OpenKeeps(h: Host, s: State, c: nat, f: Frame, k: nat, req: seq<Word>)
    requires Midway(h, s, c, f)
    requires k < MAX_CONTEXTS && !s.ctx[k].valid && |req| >= 7
    ensures Midway(h, OpenContext(s, k, req), c, f)
  {
    hide Books, Tally, Numbered, Pairs, Splice, CountValid;
    CountUpdate(s.ctx, k, OpenContext(s, k, req).ctx[k]);
    BooksCreated(h, s.stats, s.nextCtxId, s.log, k);
  }

  lemma CloseKeeps(h: Host, s: State, c: nat, f: Frame, k: nat)
    requires Midway(h, s, c, f) && k < MAX_CONTEXTS && s.ctx[k].valid
    ensures Midway(h, CloseContext(s, k), c, f)
  {
    hide Tally, Numbered, Pairs, CountValid;
    CountUpdate(s.ctx, k, s.ctx[k].(valid := false));
  }

  lemma MapKeeps(h: Host, s: State, c: nat, f: Frame, op: Word, req: seq<Word>)
    requires Midway(h, s, c, f)
    ensures Midway(h, MapHostBuffer(s, op, req).state, c, f)
  {
    hide Books, Tally, Numbered, Pairs, CountValid;
    if |req| >= 5 && FindContext(s.ctx, req[0], 0) < MAX_CONTEXTS {
      var k := FindContext(s.ctx, req[0], 0);
      CountUpdate(s.ctx, k, MapHostBuffer(s, op, req).state.ctx[k]);
    }
  }

  lemma QueryKeeps(h: Host, s: State, c: nat, f: Frame, req: seq<Word>)
    requires Midway(h, s, c, f)
    ensures Midway(h, QueryColStatus(h, s, req).state, c, f)
  {
    hide Tally, Numbered, Pairs, FillZeros;
    if |req| >= 5 {
      FillQuiet(h, s.log, U64(req[0], req[1]), req[2], 0);
    }
  }

  lemma CreateKeeps(h: Host, s: State, c: nat, f: Frame, req: seq<Word>)
    requires Midway(h, s, c, f)
    ensures Midway(h, CreateContext(s, req).state, c, f)
  {
    hide OpenContext, Books, Tally, Numbered, Pairs, Agree;
    if |req| >= 7 && FirstFree(s.ctx, 0) < MAX_CONTEXTS {
      OpenKeeps(h, s, c, f, FirstFree(s.ctx, 0), req);
    }
  }

  lemma DestroyKeeps(h: Host, s: State, c: nat, f: Frame, req: seq<Word>)
    requires Midway(h, s, c, f)
    ensures Midway(h, DestroyContext(s, req).state, c, f)
  {
    hide CloseContext, Books, Tally, Numbered, Pairs, Agree;
    if |req| >= 1 && FindContext(s.ctx, req[0], 0) < MAX_CONTEXTS {
      CloseKeeps(h, s, c, f, FindContext(s.ctx, req[0], 0));
    }
  }

  lemma ConfigKeeps(h: Host, s: State, c: nat, f: Frame, req: seq<Word>)
    requires Midway(h, s, c, f)
    ensures Midway(h, SetRuntimeConfig(s, req).state, c, f)
    ensures forall v: nat :: Midway(h, s.(mgmtPasid := v), c, f)
    ensures forall b: bool :: Midway(h, s.(fwSuspended := b), c, f)
  {
    hide Books, Tally, Numbered, Pairs;
  }

  lemma AsyncKeeps(h: Host, s: State, c: nat, f: Frame, o: Outcome)
    requires Midway(h, s, c, f) && AsyncAccepted(f) && o == Effect(h, s, c, f)
    ensures o.reply == None && Sound(h, o.state)
  {
    hide Books, Tally, Numbered, Pairs;
    BooksAsync(h, s.stats, s.nextCtxId, s.log, c);
  }

  /** Applying a message's effect keeps the invariant; the answer is still owed unless none is due. */
  lemma EffectKeeps(h: Host, s: State, c: nat, f: Frame, o: Outcome)
    requires Midway(h, s, c, f) && o == Effect(h, s, c, f) && !AsyncAccepted(f)
    ensures Midway(h, o.state, c, f)
  {
    hide Books, Tally, Numbered, Pairs, Agree, CreateContext, DestroyContext, MapHostBuffer, QueryColStatus;
    hide SetRuntimeConfig, GetRuntimeConfig, StatusReply;
    var op, req := f.opcode, f.payload;
    if op == OP_CREATE_CONTEXT {
      CreateKeeps(h, s, c, f, req);
    } else if op == OP_DESTROY_CONTEXT {
      DestroyKeeps(h, s, c, f, req);
    } else if op == OP_MAP_HOST_BUFFER || op == OP_ADD_HOST_BUFFER {
      MapKeeps(h, s, c, f, op, req);
    } else if op == OP_QUERY_COL_STATUS {
      QueryKeeps(h, s, c, f, req);
    } else if op == OP_GET_RUNTIME_CONFIG {
      assert GetRuntimeConfig(s, req).state == s by {
        GetConfigPure(s, req);
      }
    } else {
      ConfigKeeps(h, s, c, f, req);
    }
  }

  lemma GetConfigPure(s: State, req: seq<Word>)
    requires Shape(s)
    ensures GetRuntimeConfig(s, req).state == s
  {
  }

  lemma HandleKeeps(h: Host, s: State, c: nat, f: Frame)
    requires Midway(h, s, c, f)
    ensures Sound(h, Handle(h, s, c, f))
  {
    hide Effect, Send, Sound, Books, Tally, Numbered, Pairs, Agree;
    var o := Effect(h, s, c, f);
    ReplyIsExact(h, s, c, f);
    if AsyncAccepted(f) {
      AsyncKeeps(h, s, c, f, o);
    } else {
      EffectKeeps(h, s, c, f, o);
      SendKeeps(h, o.state, c, f, MakeFrame(f.id, f.opcode, o.reply.value));
    }
  }

  // --- The consume loop ---

  lemma SetChanKeeps(h: Host, s: State, c: nat, ch: Channel)
    requires Sound(h, s) && c < MAX_CHANNELS && ChanOk(c, ch) && ch.active == s.chan[c].active
    ensures Sound(h, SetChan(s, c, ch))
  {
    hide Books, Tally, Numbered, Pairs;
  }

  lemma TakenKeeps(h: Host, s: State, c: nat, f: Frame)
    requires Sound(h, s) && c < MAX_CHANNELS && Peek(s, c) == Message(f)
    ensures Midway(h, Consumer.Taken(s, c, f), c, f)
  {
    hide Books, Tally, Numbered, Pairs, Peek;
    Consumer.PeekInside(s, c);
    BooksDispatched(h, s.stats, s.nextCtxId, s.log, c, s.chan[c].x2iHead, f);
    assert c > 0 ==> s.ctx[c - 1].valid;
  }

  lemma {:induction false} DrainKeeps(h: Host, s: State, c: nat, fuel: nat)
    requires Sound(h, s) && c < MAX_CHANNELS
    ensures Sound(h, Consumer.Drain(h, s, c, fuel))
    decreases fuel
  {
    hide Handle, Consumer.Taken, Peek, Books, Tally, Numbered, Pairs, Agree;
    if s.chan[c].x2iHead == s.chan[c].x2iTail || fuel == 0 {
    } else {
      match Peek(s, c) {
        case Rewind =>
          SetChanKeeps(h, s, c, s.chan[c].(x2iHead := 0));
          DrainKeeps(h, Consumer.Rewound(s, c), c, fuel - 1);
        case Malformed =>
        case Message(f) =>
          TakenKeeps(h, s, c, f);
          HandleKeeps(h, Consumer.Taken(s, c, f), c, f);
          DrainKeeps(h, Handle(h, Consumer.Taken(s, c, f), c, f), c, fuel - 1);
      }
    }
  }

  lemma MboxWriteKeeps(h: Host, s: State, off: Word, val: Word)
    requires Sound(h, s) && Consumer.HeadInRange(s, off, val)
    ensures Sound(h, Consumer.RegWrite(h, s, off, val))
  {
    hide Consumer.Drain, Books, Tally, Numbered, Pairs, Agree;
    var c := off / CHAN_STRIDE;
    if c < MAX_CHANNELS {
      match off % CHAN_STRIDE {
        case X2I_TAIL_OFF =>
          var s1 := SetChan(s, c, s.chan[c].(x2iTail := val));
          SetChanKeeps(h, s, c, s.chan[c].(x2iTail := val));
          DrainKeeps(h, s1, c, MAX_MSG_PER_KICK);
        case I2X_HEAD_OFF => SetChanKeeps(h, s, c, s.chan[c].(i2xHead := val));
        case INTR_OFF => SetChanKeeps(h, s, c, s.chan[c].(intr := val));
        case _ =>
      }
    }
  }

  // --- PSP, firmware, SMU, reset ---

  lemma BootKeeps(h: Host, s: State)
    requires Sound(h, s) && s.pspState == Validated
    ensures Sound(h, D.Boot(s).(pspState := Running))
  {
    hide Books, Tally, Numbered, Pairs, D.BootSram;
  }

  lemma ShutdownKeeps(h: Host, s: State)
    requires Sound(h, s)
    ensures Sound(h, D.Shutdown(s).(pspState := Cold))
  {
    hide Tally, Numbered, Pairs, CountValid;
    CountNone(D.Shutdown(s).ctx);
  }

  lemma FetchQuiet(h: Host, log: seq<Obs>, paddr: nat, size: Word)
    ensures Quiet(log, D.FetchImage(h, log, paddr, size).log)
  {
    if size != 0 && h.hasDmaRead {
      var n := if size < PSP_PEEK_BYTES then size else PSP_PEEK_BYTES;
      QuietDma(log, DmaRead(paddr, n, h.readOk(log, paddr, n)));
    }
  }

  lemma ValidateKeeps(h: Host, s: State)
    requires Sound(h, s)
    ensures Sound(h, D.Validate(h, s).state) && Sound(h, D.ValidateCert(h, s).state)
  {
    hide Tally, Numbered, Pairs, D.FetchImage;
    FetchQuiet(h, s.log, D.PspPaddr(s), D.PspSize(s));
  }

  lemma PspKickKeeps(h: Host, s: State)
    requires Sound(h, s)
    ensures Sound(h, D.PspKick(h, s))
  {
    hide Tally, Numbered, Pairs, Agree, D.Validate, D.ValidateCert, D.Boot, D.Shutdown;
    var s1 := s.(stats := s.stats.(pspCmds := s.stats.pspCmds + 1));
    assert Sound(h, s1);
    ValidateKeeps(h, s1);
    ShutdownKeeps(h, s1);
    if s1.pspState == Validated {
      BootKeeps(h, s1);
    }
    assert Sound(h, D.PspCommand(h, s1).state);
  }

  lemma SmuKickKeeps(h: Host, s: State)
    requires Sound(h, s)
    ensures Sound(h, D.SmuKick(s))
  {
    hide Books, Tally, Numbered, Pairs, Agree;
    var s1 := s.(stats := s.stats.(smuCmds := s.stats.smuCmds + 1));
    BooksIgnoreSmu(h, s.stats, s1.stats, s.nextCtxId, s.log);
  }

  lemma BooksIgnoreSmu(h: Host, st: Stats, st': Stats, id: Word, log: seq<Obs>)
    requires Books(h, st, id, log) && st' == st.(smuCmds := st'.smuCmds)
    ensures Books(h, st', id, log)
  {
  }

  lemma RegWriteKeeps(h: Host, s: State, off: Word, val: Word)
    requires Sound(h, s)
    ensures Sound(h, D.RegWrite(h, s, off, val))
  {
    hide Books, Tally, Numbered, Pairs, Agree, D.PspKick, D.SmuKick;
    if off == REG_SEC_INTR && val == PSP_NOTIFY_VAL {
      PspKickKeeps(h, s.(secIntr := val));
    } else if off == REG_PWRMGMT_INTR && val == 1 {
      SmuKickKeeps(h, s.(pwrmgmtIntr := val));
    }
  }

  lemma ResetSound(h: Host, log: seq<Obs>)
    requires Pairs(log) == Idle && Numbered(log)
    ensures Sound(h, D.ResetState(log))
  {
    hide CountValid;
    Append(log, WasReset);
    AppendNumbered(log, WasReset);
    CountNone(D.ResetState(log).ctx);
  }

  /** Every event keeps the invariant. */
  lemma StepKeeps(h: Host, s: State, e: D.Event)
    requires Sound(h, s) && D.Disciplined(s, e)
    ensures Sound(h, D.Step(h, s, e))
  {
    hide Books, Tally, Numbered, Pairs, Agree, D.RegWrite, Consumer.RegWrite, D.ResetState;
    match e
    case RegBar(off, val) => RegWriteKeeps(h, s, off, val);
    case MboxBar(off, val) => MboxWriteKeeps(h, s, off, val);
    case SramBar(_, _) =>
    case SramBytes(_, _) =>
    case Reset => SoundNumbered(h, s); ResetSound(h, s.log);
  }

  lemma SoundNumbered(h: Host, s: State)
    requires Sound(h, s)
    ensures Numbered(s.log)
  {
  }

  /** Every run keeps the invariant. */
  lemma {:induction false} RunKeeps(h: Host, s: State, evs: seq<D.Event>)
    requires Sound(h, s) && D.AllDisciplined(h, s, evs)
    ensures Sound(h, D.Run(h, s, evs))
    decreases |evs|
  {
    hide Books, Tally, Numbered, Pairs, Agree, D.Step;
    if evs == [] {
    } else {
      StepKeeps(h, s, evs[0]);
      RunKeeps(h, D.Step(h, s, evs[0]), evs[1..]);
    }
  }

  /** From cold reset, in every reachable state: messages in = replies sent + replies refused + async registrations. */
  lemma RunConserves(h: Host, evs: seq<D.Event>)
    requires D.AllDisciplined(h, D.ResetState([]), evs)
    ensures var s := D.Run(h, D.ResetState([]), evs);
            && Sound(h, s)
            && s.stats.msgsIn == s.stats.msgsOut + Tally(s.log).refused + Tally(s.log).asyncs
            && s.stats.irqs == if h.hasIrq then s.stats.msgsOut else 0
  {
    hide D.Run, D.ResetState;
    ResetSound(h, []);
    RunKeeps(h, D.ResetState([]), evs);
    PairedIsConserved(D.Run(h, D.ResetState([]), evs).log);
  }
}
