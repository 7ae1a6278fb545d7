/**
  The context pool as an allocator: when creation succeeds and which slot it
  takes, ids that are distinct and non-zero, and ids that never come back.
 */
module ContextPool {
  import opened Regs
  import opened Ring
  import opened NpuState
  import opened Mailbox
  import opened Mert
  import opened Ledger
  import opened Soundness
  import opened Pool
  import I = Invariant
  import Consumer
  import D = Device

  // --- Allocation ---

  /**
    Creation succeeds exactly for a long enough request with 1..5 columns while a
    slot is free; it takes the lowest free slot and leaves the others alone, and
    on refusal nothing changes.
   */
  lemma CreateTakesLowestFree(s: State, req: seq<Word>)
    requires Shape(s)
    ensures var o := CreateContext(s, req);
            var ok := && |req| >= 7 && 1 <= req[1] / 0x100 % 0x100 <= AIE_COLS
                      && exists k :: 0 <= k < MAX_CONTEXTS && !s.ctx[k].valid;
            && o.reply.Some?
            && (o.reply.value[0] == STATUS_SUCCESS <==> ok)
            && (!ok ==> o.state == s)
            && (ok ==> exists k ::
                  0 <= k < MAX_CONTEXTS && TookSlot(s, o.state, k) && 1 <= o.state.ctx[k].numCol <= AIE_COLS)
  {
    hide TookSlot, OpenContext, StatusReply;
    var k := FirstFree(s.ctx, 0);
    if k < MAX_CONTEXTS {
      assert !s.ctx[k].valid;
      OpenTakesSlot(s, k, req);
      if |req| >= 7 && 1 <= req[1] / 0x100 % 0x100 <= AIE_COLS {
        assert TookSlot(s, CreateContext(s, req).state, k) && 1 <= CreateContext(s, req).state.ctx[k].numCol;
      }
    }
  }

  lemma OpenTakesSlot(s: State, k: nat, req: seq<Word>)
    requires Shape(s) && k < MAX_CONTEXTS && !s.ctx[k].valid && (forall i :: 0 <= i < k ==> s.ctx[i].valid)
    ensures |req| >= 7 ==> TookSlot(s, OpenContext(s, k, req), k)
    ensures |req| >= 7 ==> OpenContext(s, k, req).ctx[k].numCol == req[1] / 0x100 % 0x100
  {
    hide Splice;
  }

  /** Slot `k`, the lowest free one, now holds a context with the next id on an empty channel of its own. */
  ghost predicate TookSlot(s: State, t: State, k: nat)
    requires Shape(s) && Shape(t)
  {
    && k < MAX_CONTEXTS
    && !s.ctx[k].valid && (forall i :: 0 <= i < k ==> s.ctx[i].valid)
    && t.ctx[k].valid && t.ctx[k].id == s.nextCtxId && t.ctx[k].chan == k + 1
    && t.chan[k + 1].active
    && X2i(t, k + 1) == Ring(Zeros(CTX_RB_SIZE / 4), 0, 0) && I2x(t, k + 1) == Ring(Zeros(CTX_RB_SIZE / 4), 0, 0)
    && (forall i :: 0 <= i < MAX_CONTEXTS && i != k ==> t.ctx[i] == s.ctx[i] && t.chan[i + 1] == s.chan[i + 1])
    && t.chan[0] == s.chan[0]
  }

  /**
    Destruction succeeds exactly if the id resolves; it closes one channel and
    frees its slot, and on refusal nothing changes.
   */
  lemma DestroyFreesSlot(s: State, req: seq<Word>)
    requires Shape(s) && req != []
    ensures var o := DestroyContext(s, req);
            && o.reply.Some?
            && (o.reply.value[0] == STATUS_SUCCESS <==> Resolves(s, req[0]))
            && (!Resolves(s, req[0]) ==> o.state == s)
            && (Resolves(s, req[0]) ==> exists k :: 0 <= k < MAX_CONTEXTS && FreedSlot(s, o.state, k, req[0]))
  {
    hide StatusReply;
    var k := FindContext(s.ctx, req[0], 0);
    if k < MAX_CONTEXTS {
      assert FreedSlot(s, DestroyContext(s, req).state, k, req[0]);
    }
  }

  /** Slot `k` held `id` and is free now, its channel closed; memory, ids and the other slots are as before. */
  ghost predicate FreedSlot(s: State, t: State, k: nat, id: Word)
    requires Shape(s) && Shape(t)
  {
    && k < MAX_CONTEXTS
    && s.ctx[k].valid && s.ctx[k].id == id
    && t.ctx == s.ctx[k := s.ctx[k].(valid := false)]
    && t.chan == s.chan[k + 1 := BlankChannel(k + 1)]
    && t.sram == s.sram && t.nextCtxId == s.nextCtxId && t.log == s.log
  }

  // --- Steps of the pool ---

  lemma EvolvesTrans(a: seq<Context>, na: nat, b: seq<Context>, nb: nat, c: seq<Context>, nc: nat)
    requires Evolves(a, na, b, nb) && Evolves(b, nb, c, nc)
    ensures Evolves(a, na, c, nc)
  {
  }

  lemma PoolTrans(s: State, t: State, u: State)
    requires PoolStep(s, t) && PoolStep(t, u)
    ensures PoolStep(s, u)
  {
    hide Evolves, IdsOk, Tally;
    EvolvesTrans(s.ctx, CreatedCount(s), t.ctx, CreatedCount(t), u.ctx, CreatedCount(u));
  }

  /** Nothing created; contexts only kept or invalidated. */
  lemma PoolKept(s: State, t: State)
    requires Tally(t.log).created == Tally(s.log).created && |t.ctx| == |s.ctx|
    requires forall i :: 0 <= i < |s.ctx| && t.ctx[i].valid ==> s.ctx[i].valid && t.ctx[i].id == s.ctx[i].id
    ensures PoolStep(s, t)
  {
    hide Tally;
  }

  lemma OpenPool(h: Host, s: State, k: nat, req: seq<Word>)
    requires Shape(s) && k < MAX_CONTEXTS && !s.ctx[k].valid && |req| >= 7
    requires s.nextCtxId == NthId(CreatedCount(s))
    ensures PoolStep(s, OpenContext(s, k, req))
  {
    hide Tally, Splice;
    Append(s.log, Created(k, s.nextCtxId));
    var n := CreatedCount(s);
    assert n <= n < n + 1 && OpenContext(s, k, req).ctx[k].id == NthId(n);
  }

  lemma QueryPool(h: Host, s: State, req: seq<Word>)
    requires Shape(s)
    ensures PoolStep(s, QueryColStatus(h, s, req).state)
  {
    hide Tally, FillZeros, PoolStep;
    if |req| >= 5 {
      FillQuiet(h, s.log, U64(req[0], req[1]), req[2], 0);
    }
    PoolKept(s, QueryColStatus(h, s, req).state);
  }

  lemma DestroyPool(s: State, req: seq<Word>)
    requires Shape(s)
    ensures PoolStep(s, DestroyContext(s, req).state)
  {
    hide Tally, PoolStep, StatusReply;
    PoolKept(s, DestroyContext(s, req).state);
  }

  lemma MapPool(s: State, op: Word, req: seq<Word>)
    requires Shape(s)
    ensures PoolStep(s, MapHostBuffer(s, op, req).state)
  {
    hide Tally, PoolStep, StatusReply;
    PoolKept(s, MapHostBuffer(s, op, req).state);
  }

  lemma EffectPool(h: Host, s: State, c: nat, f: Frame)
    requires Shape(s) && s.nextCtxId == NthId(CreatedCount(s))
    ensures PoolStep(s, Effect(h, s, c, f).state)
  {
    hide Tally, PoolStep, OpenContext, QueryColStatus, DestroyContext, MapHostBuffer, StatusReply;
    if f.opcode == OP_DESTROY_CONTEXT {
      DestroyPool(s, f.payload);
    } else if f.opcode == OP_MAP_HOST_BUFFER || f.opcode == OP_ADD_HOST_BUFFER {
      MapPool(s, f.opcode, f.payload);
    } else if f.opcode == OP_CREATE_CONTEXT {
      PoolKept(s, s);
      var k := FirstFree(s.ctx, 0);
      if |f.payload| >= 7 && k < MAX_CONTEXTS {
        OpenPool(h, s, k, f.payload);
      }
    } else if f.opcode == OP_QUERY_COL_STATUS {
      QueryPool(h, s, f.payload);
    } else {
      Append(s.log, AsyncRegistered(c));
      PoolKept(s, Effect(h, s, c, f).state);
    }
  }

  lemma ReplyCreatesNothing(log: seq<Obs>, c: nat, g: Frame, ok: bool, irq: bool)
    ensures Tally(log + [Replied(c, g, ok)] + if irq then [Irq(c)] else []).created == Tally(log).created
  {
    var log1 := log + [Replied(c, g, ok)];
    Append(log, Replied(c, g, ok));
    Append(log1, Irq(c));
    assert log1 + [] == log1;
  }

  lemma SendPool(h: Host, s: State, c: nat, f: Frame)
    requires Shape(s)
    ensures PoolStep(s, Send(h, s, c, f).state)
  {
    hide Tally, PoolStep, Send, Put, Splice, Sends;
    SendFields(h, s, c, f);
    var ok := Send(h, s, c, f).ok;
    ReplyCreatesNothing(s.log, c, f, ok, ok && h.hasIrq);
    PoolKept(s, Send(h, s, c, f).state);
  }

  lemma HandlePool(h: Host, s: State, c: nat, f: Frame)
    requires Shape(s) && s.nextCtxId == NthId(CreatedCount(s))
    ensures PoolStep(s, Handle(h, s, c, f))
  {
    hide Tally, PoolStep, Send, Effect;
    PoolKept(s, s);
    if s.fwAlive {
      var o := Effect(h, s, c, f);
      EffectPool(h, s, c, f);
      if o.reply.Some? {
        var g := MakeFrame(f.id, f.opcode, o.reply.value);
        SendPool(h, o.state, c, g);
        PoolTrans(s, o.state, Send(h, o.state, c, g).state);
      }
    }
  }

  lemma MidwayNumbered(h: Host, s: State, c: nat, f: Frame)
    requires Midway(h, s, c, f)
    ensures s.nextCtxId == NthId(CreatedCount(s))
  {
    hide Tally, Numbered, Pairs, Agree;
  }

  lemma {:induction false} DrainPool(h: Host, s: State, c: nat, fuel: nat)
    requires Sound(h, s) && c < MAX_CHANNELS
    ensures PoolStep(s, Consumer.Drain(h, s, c, fuel))
    decreases fuel
  {
    hide Tally, PoolStep, Handle, Peek, Books, Numbered, Pairs, Agree;
    PoolKept(s, s);
    if s.chan[c].x2iHead == s.chan[c].x2iTail || fuel == 0 {
    } else {
      match Peek(s, c) {
        case Rewind =>
          var t := Consumer.Rewound(s, c);
          I.SetChanKeeps(h, s, c, s.chan[c].(x2iHead := 0));
          PoolKept(s, t);
          DrainPool(h, t, c, fuel - 1);
          PoolTrans(s, t, Consumer.Drain(h, t, c, fuel - 1));
        case Malformed =>
        case Message(f) =>
          var t := Consumer.Taken(s, c, f);
          var u := Handle(h, t, c, f);
          I.TakenKeeps(h, s, c, f);
          MidwayNumbered(h, t, c, f);
          Append(s.log, Dispatched(c, s.chan[c].x2iHead, f));
          PoolKept(s, t);
          HandlePool(h, t, c, f);
          PoolTrans(s, t, u);
          I.HandleKeeps(h, t, c, f);
          DrainPool(h, u, c, fuel - 1);
          PoolTrans(s, u, Consumer.Drain(h, u, c, fuel - 1));
      }
    }
  }

  lemma MboxWritePool(h: Host, s: State, off: Word, val: Word)
    requires Sound(h, s) && Consumer.HeadInRange(s, off, val)
    ensures PoolStep(s, Consumer.RegWrite(h, s, off, val))
  {
    hide Tally, PoolStep, Consumer.Drain, Books, Numbered, Pairs, Agree;
    var c := off / CHAN_STRIDE;
    PoolKept(s, s);
    if c < MAX_CHANNELS {
      if off % CHAN_STRIDE == X2I_TAIL_OFF {
        var t := SetChan(s, c, s.chan[c].(x2iTail := val));
        I.SetChanKeeps(h, s, c, s.chan[c].(x2iTail := val));
        PoolKept(s, t);
        DrainPool(h, t, c, MAX_MSG_PER_KICK);
        PoolTrans(s, t, Consumer.Drain(h, t, c, MAX_MSG_PER_KICK));
      } else {
        PoolKept(s, Consumer.RegWrite(h, s, off, val));
      }
    }
  }

  lemma PspCommandPool(h: Host, s: State)
    requires Shape(s)
    ensures PoolStep(s, D.PspCommand(h, s).state)
  {
    hide Tally, PoolStep, D.FetchImage, D.BootSram;
    I.FetchQuiet(h, s.log, D.PspPaddr(s), D.PspSize(s));
    PoolKept(s, D.PspCommand(h, s).state);
  }

  lemma PspKickPool(h: Host, s: State)
    requires Shape(s)
    ensures PoolStep(s, D.PspKick(h, s))
  {
    hide Tally, PoolStep, D.PspCommand;
    var t := s.(stats := s.stats.(pspCmds := s.stats.pspCmds + 1));
    var u := D.PspCommand(h, t).state;
    PoolKept(s, t);
    PspCommandPool(h, t);
    PoolTrans(s, t, u);
    PoolKept(u, D.PspKick(h, s));
    PoolTrans(s, u, D.PspKick(h, s));
  }

  lemma StepPool(h: Host, s: State, e: D.Event)
    requires Sound(h, s) && D.Disciplined(s, e) && !e.Reset?
    ensures PoolStep(s, D.Step(h, s, e))
  {
    hide Tally, PoolStep, D.PspKick, Consumer.RegWrite, Books, Numbered, Pairs, Agree, Splice;
    match e
    case RegBar(off, val) =>
      if off == REG_SEC_INTR && val == PSP_NOTIFY_VAL {
        var t := s.(secIntr := val);
        PoolKept(s, t);
        PspKickPool(h, t);
        PoolTrans(s, t, D.PspKick(h, t));
      } else {
        PoolKept(s, D.Step(h, s, e));
      }
    case MboxBar(off, val) => MboxWritePool(h, s, off, val);
    case SramBar(_, _) => PoolKept(s, D.Step(h, s, e));
    case SramBytes(_, _) => PoolKept(s, D.Step(h, s, e));
  }

  predicate NoReset(evs: seq<D.Event>) {
    forall i :: 0 <= i < |evs| ==> !evs[i].Reset?
  }

  lemma {:induction false} RunPool(h: Host, s: State, evs: seq<D.Event>)
    requires Sound(h, s) && D.AllDisciplined(h, s, evs) && NoReset(evs)
    ensures PoolStep(s, D.Run(h, s, evs))
    decreases |evs|
  {
    hide Tally, PoolStep, D.Step, Books, Numbered, Pairs, Agree;
    PoolKept(s, s);
    if evs == [] {
    } else {
      var t := D.Step(h, s, evs[0]);
      StepPool(h, s, evs[0]);
      I.StepKeeps(h, s, evs[0]);
      RunPool(h, t, evs[1..]);
      PoolTrans(s, t, D.Run(h, t, evs[1..]));
    }
  }

  // --- Ids over whole runs ---

  /**
    Until 2^32 contexts have been created since reset, valid contexts hold
    pairwise distinct non-zero ids, whatever the host did.
   */
  lemma IdsDistinct(h: Host, log: seq<Obs>, evs: seq<D.Event>, i: nat, j: nat)
    requires Pairs(log) == Idle && Numbered(log)
    requires D.AllDisciplined(h, D.ResetState(log), evs) && NoReset(evs)
    requires CreatedCount(D.Run(h, D.ResetState(log), evs)) < TWO32
    requires i < j < MAX_CONTEXTS
    ensures var t := D.Run(h, D.ResetState(log), evs);
            && (t.ctx[i].valid ==> t.ctx[i].id != 0)
            && (t.ctx[i].valid && t.ctx[j].valid ==> t.ctx[i].id != t.ctx[j].id && t.ctx[i].chan != t.ctx[j].chan)
  {
    hide D.Run, Tally;
    I.ResetSound(h, log);
    RunPool(h, D.ResetState(log), evs);
    assert IdsOk(D.ResetState(log).ctx, CreatedCount(D.ResetState(log)));
  }

  /**
    An id that was handed out and no longer resolves, be it destroyed or wiped
    by a firmware shutdown, never resolves again until reset.
   */
  lemma DeadIdStaysDead(h: Host, s: State, evs: seq<D.Event>, id: Word)
    requires Sound(h, s) && D.AllDisciplined(h, s, evs) && NoReset(evs)
    requires Issued(s.log, id) && !Resolves(s, id)
    requires CreatedCount(D.Run(h, s, evs)) < TWO32
    ensures !Resolves(D.Run(h, s, evs), id)
  {
    var t := D.Run(h, s, evs);
    RunPool(h, s, evs);
    I.SoundNumbered(h, s);
    IssuedIff(s.log, id);
    DeadIn(s, t, id);
  }

  lemma DeadIn(s: State, t: State, id: Word)
    requires Shape(s) && Shape(t) && PoolStep(s, t) && CreatedCount(t) < TWO32
    requires exists j: nat :: j < CreatedCount(s) && NthId(j) == id
    requires !Resolves(s, id)
    ensures !Resolves(t, id)
  {
    hide Tally;
    var j: nat :| j < CreatedCount(s) && NthId(j) == id;
    forall k | 0 <= k < MAX_CONTEXTS && t.ctx[k].valid
      ensures t.ctx[k].id != id
    {
      assert forall m: nat :: CreatedCount(s) <= m < CreatedCount(t) ==> NthId(m) != NthId(j);
    }
  }

  /**
    Once a destroy request for a live context has been handled, its id never
    resolves again: not in the rest of that kick, nor in any later run until
    reset, so long as ids have not wrapped.
   */
  lemma DestroyedNeverResolves(h: Host, s: State, c: nat, f: Frame, fuel: nat, evs: seq<D.Event>)
    requires Sound(h, s) && IdsOk(s.ctx, CreatedCount(s))
    requires c < MAX_CHANNELS && Peek(s, c) == Message(f) && f.opcode == OP_DESTROY_CONTEXT
    requires f.payload != [] && Resolves(s, f.payload[0])
    requires var t := Consumer.Drain(h, Handle(h, Consumer.Taken(s, c, f), c, f), c, fuel);
             D.AllDisciplined(h, t, evs) && NoReset(evs) && CreatedCount(D.Run(h, t, evs)) < TWO32
    ensures var t := Consumer.Drain(h, Handle(h, Consumer.Taken(s, c, f), c, f), c, fuel);
            !Resolves(D.Run(h, t, evs), f.payload[0])
  {
    hide Tally, PoolStep, IdsOk, D.Run, Consumer.Drain, Handle, D.AllDisciplined, Books, Pairs, Numbered, Agree;
    var u := Handle(h, Consumer.Taken(s, c, f), c, f);
    var t := Consumer.Drain(h, u, c, fuel);
    var v := D.Run(h, t, evs);
    I.TakenKeeps(h, s, c, f);
    I.HandleKeeps(h, Consumer.Taken(s, c, f), c, f);
    I.DrainKeeps(h, u, c, fuel);
    DrainPool(h, u, c, fuel);
    RunPool(h, t, evs);
    PoolTrans(u, t, v);
    CountMonotone(u, v);
    var k := DestroyHandled(h, s, c, f);
    FreedIdIsDead(s, u, k);
    DeadIn(u, v, f.payload[0]);
  }

  lemma CountMonotone(s: State, t: State)
    requires PoolStep(s, t)
    ensures CreatedCount(s) <= CreatedCount(t)
  {
  }

  /** Handling the message frees one slot that held the id, and creates nothing. */
  lemma DestroyHandled(h: Host, s: State, c: nat, f: Frame) returns (k: nat)
    requires Sound(h, s)
    requires c < MAX_CHANNELS && Peek(s, c) == Message(f) && f.opcode == OP_DESTROY_CONTEXT
    requires f.payload != [] && Resolves(s, f.payload[0])
    ensures var u := Handle(h, Consumer.Taken(s, c, f), c, f);
            && k < MAX_CONTEXTS && s.ctx[k].valid && s.ctx[k].id == f.payload[0]
            && u.ctx == s.ctx[k := s.ctx[k].(valid := false)]
            && CreatedCount(u) == CreatedCount(s)
  {
    hide Tally, Books, Pairs, Numbered, Agree, Send, DestroyContext, Pool.CreatedCount;
    var t := Consumer.Taken(s, c, f);
    I.TakenKeeps(h, s, c, f);
    var o := Effect(h, t, c, f);
    assert o == DestroyContext(t, f.payload);
    DestroyFreesSlot(t, f.payload);
    k :| k < MAX_CONTEXTS && FreedSlot(t, o.state, k, f.payload[0]);
    var g := MakeFrame(f.id, f.opcode, o.reply.value);
    SendFields(h, o.state, c, g);
    DestroyCounts(s, t, o.state, Handle(h, t, c, f), c, f, g, Send(h, o.state, c, g).ok, h.hasIrq);
  }

  lemma DestroyCounts(s: State, t: State, o: State, u: State, c: nat, f: Frame, g: Frame, ok: bool, hasIrq: bool)
    requires c < |s.chan|
    requires t.log == s.log + [Dispatched(c, s.chan[c].x2iHead, f)] && o.log == t.log
    requires u.log == o.log + [Replied(c, g, ok)] + if ok && hasIrq then [Irq(c)] else []
    ensures CreatedCount(u) == CreatedCount(s)
  {
    hide Tally;
    Append(s.log, Dispatched(c, s.chan[c].x2iHead, f));
    ReplyCreatesNothing(o.log, c, g, ok, ok && hasIrq);
  }

  /** While ids have not wrapped, a freed slot was the only one with its id, and the id was handed out. */
  lemma FreedIdIsDead(s: State, u: State, k: nat)
    requires Shape(s) && IdsOk(s.ctx, CreatedCount(s)) && CreatedCount(s) < TWO32
    requires k < MAX_CONTEXTS && s.ctx[k].valid && Shape(u) && u.ctx == s.ctx[k := s.ctx[k].(valid := false)]
    ensures !Resolves(u, s.ctx[k].id)
    ensures exists j: nat :: j < CreatedCount(s) && NthId(j) == s.ctx[k].id
  {
    hide Tally;
    assert NthId(s.ctx[k].id - 1) == s.ctx[k].id;
  }

  /** The id a creation hands out is non-zero and new exactly while fewer than 2^32 - 1 contexts were created. */
  lemma CreateIdFreshIff(h: Host, s: State)
    requires Sound(h, s)
    ensures s.nextCtxId != 0 && !Issued(s.log, s.nextCtxId) <==> CreatedCount(s) < TWO32 - 1
  {
    I.SoundNumbered(h, s);
    NextIdFreshIff(s.log);
  }
}
