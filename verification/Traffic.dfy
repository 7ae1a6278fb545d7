/** Handling a message leaves the request ring it came from as it was. */
module Traffic {
  import opened Regs
  import opened Ring
  import opened NpuState
  import opened Mailbox
  import opened Mert
  import opened Ledger
  import opened Soundness

  /** The id of the context behind channel `c`; there is none behind the management channel. */
  function Owner(s: State, c: nat): Word
    requires Sized(s) && c < MAX_CHANNELS
  {
    if c == 0 then 0 else s.ctx[c - 1].id
  }

  /** Message `f` does not ask to destroy the context `own` behind channel `c`. */
  predicate Stays(c: nat, own: Word, f: Frame) {
    c == 0 || f.opcode != OP_DESTROY_CONTEXT || f.payload == [] || f.payload[0] != own
  }

  /** Message `f` is no destroy request whose id resolves to channel `c`'s own slot. */
  predicate Spares(s: State, c: nat, f: Frame)
    requires Sized(s)
  {
    c == 0 || f.opcode != OP_DESTROY_CONTEXT || f.payload == [] || FindContext(s.ctx, f.payload[0], 0) != c - 1
  }

  /** A message that does not name the context behind a channel spares it. */
  lemma StaysSpares(s: State, c: nat, f: Frame)
    requires Sized(s) && c < MAX_CHANNELS && Stays(c, Owner(s, c), f)
    ensures Spares(s, c, f)
  {
  }

  /** Channel `c`, both its rings and its owner are the same in `s` and `t`. */
  predicate SameChannel(s: State, t: State, c: nat)
    requires Shape(s) && Shape(t) && c < MAX_CHANNELS
  {
    t.chan[c] == s.chan[c] && X2i(t, c) == X2i(s, c) && I2x(t, c) == I2x(s, c) && Owner(t, c) == Owner(s, c)
  }

  lemma SpliceElsewhere(sram: seq<Word>, at: nat, ws: seq<Word>, base: nat, size: nat)
    requires at + |ws| <= |sram| && base % 4 == 0 && size % 4 == 0 && base + size <= 4 * |sram|
    requires 4 * (at + |ws|) <= base || base + size <= 4 * at
    ensures RingMem(Splice(sram, at, ws), base, size) == RingMem(sram, base, size)
  {
  }

  lemma SpliceHere(sram: seq<Word>, mem: seq<Word>, base: nat, size: nat)
    requires base % 4 == 0 && size % 4 == 0 && base + size <= 4 * |sram| && |mem| == size / 4
    ensures RingMem(Splice(sram, base / 4, mem), base, size) == mem
  {
  }

  /** Rings of distinct channels, and the two rings of one, do not overlap. */
  lemma Apart(c: nat, d: nat)
    requires c < MAX_CHANNELS && d < MAX_CHANNELS
    ensures X2iBase(c) + RingSize(c) <= I2xBase(d) || I2xBase(d) + RingSize(d) <= X2iBase(c)
    ensures c != d && d > 0 ==> X2iBase(c) + RingSize(c) <= X2iBase(d) || X2iBase(d) + CTX_RB_STRIDE <= X2iBase(c)
    ensures c != d && d > 0 ==> I2xBase(c) + RingSize(c) <= X2iBase(d) || X2iBase(d) + CTX_RB_STRIDE <= I2xBase(c)
    ensures d > 0 ==> X2iBase(d) + CTX_RB_STRIDE <= SRAM_BYTES && X2iBase(d) % 4 == 0
    ensures X2iBase(c) % 4 == 0 && I2xBase(c) % 4 == 0 && RingSize(c) % 4 == 0
    ensures X2iBase(c) + RingSize(c) <= SRAM_BYTES && I2xBase(c) + RingSize(c) <= SRAM_BYTES
  {
  }

  lemma OpenSpares(s: State, k: nat, req: seq<Word>, c: nat)
    requires Shape(s) && k < MAX_CONTEXTS && |req| >= 7 && c < MAX_CHANNELS && c != k + 1
    ensures SameChannel(s, OpenContext(s, k, req), c)
  {
    hide Splice, X2iBase, I2xBase, RingSize, ChanOk, NewContext;
    Apart(c, k + 1);
    SpliceElsewhere(s.sram, X2iBase(k + 1) / 4, Zeros(CTX_RB_STRIDE / 4), X2iBase(c), RingSize(c));
    SpliceElsewhere(s.sram, X2iBase(k + 1) / 4, Zeros(CTX_RB_STRIDE / 4), I2xBase(c), RingSize(c));
  }

  lemma SameFields(s: State, t: State, c: nat)
    requires Shape(s) && Shape(t) && c < MAX_CHANNELS && t.chan[c] == s.chan[c] && t.sram == s.sram
    requires Owner(t, c) == Owner(s, c)
    ensures SameChannel(s, t, c)
  {
  }

  lemma DestroySpares(s: State, req: seq<Word>, c: nat)
    requires Shape(s) && c < MAX_CHANNELS
    requires c == 0 || req == [] || FindContext(s.ctx, req[0], 0) != c - 1
    ensures SameChannel(s, DestroyContext(s, req).state, c)
  {
    hide StatusReply, SameChannel;
    SameFields(s, DestroyContext(s, req).state, c);
  }

  lemma QuietSpares(h: Host, s: State, op: Word, req: seq<Word>, c: nat)
    requires Shape(s) && c < MAX_CHANNELS
    ensures SameChannel(s, MapHostBuffer(s, op, req).state, c)
    ensures SameChannel(s, SetRuntimeConfig(s, req).state, c)
    ensures SameChannel(s, GetRuntimeConfig(s, req).state, c)
    ensures SameChannel(s, QueryColStatus(h, s, req).state, c)
  {
    hide StatusReply, FillZeros, SameChannel, ChanOk;
    MapSpares(s, op, req, c);
    SameFields(s, SetRuntimeConfig(s, req).state, c);
    SameFields(s, GetRuntimeConfig(s, req).state, c);
    SameFields(s, QueryColStatus(h, s, req).state, c);
  }

  lemma MapSpares(s: State, op: Word, req: seq<Word>, c: nat)
    requires Shape(s) && c < MAX_CHANNELS
    ensures SameChannel(s, MapHostBuffer(s, op, req).state, c)
  {
    hide StatusReply, SameChannel, ChanOk;
    SameFields(s, MapHostBuffer(s, op, req).state, c);
  }

  lemma CreateSpares(s: State, req: seq<Word>, c: nat)
    requires Inv(s) && c < MAX_CHANNELS && s.chan[c].active
    ensures SameChannel(s, CreateContext(s, req).state, c)
  {
    hide OpenContext, CreateReply, StatusReply, SameChannel;
    SameFields(s, s, c);
    var k := FirstFree(s.ctx, 0);
    if |req| >= 7 && k < MAX_CONTEXTS {
      OpenSpares(s, k, req, c);
    }
  }

  /** A message's effect spares every open channel it does not destroy. */
  lemma EffectSpares(h: Host, s: State, c: nat, f: Frame)
    requires Inv(s) && c < MAX_CHANNELS && s.chan[c].active && Spares(s, c, f)
    ensures SameChannel(s, Effect(h, s, c, f).state, c)
  {
    hide CreateContext, DestroyContext, MapHostBuffer, SetRuntimeConfig, GetRuntimeConfig, QueryColStatus;
    hide StatusReply, SameChannel, Agree;
    var op, req := f.opcode, f.payload;
    if op == OP_CREATE_CONTEXT {
      CreateSpares(s, req, c);
    } else if op == OP_DESTROY_CONTEXT {
      DestroySpares(s, req, c);
    } else if op in {OP_MAP_HOST_BUFFER, OP_ADD_HOST_BUFFER, OP_SET_RUNTIME_CONFIG, OP_GET_RUNTIME_CONFIG,
                     OP_QUERY_COL_STATUS} {
      QuietSpares(h, s, op, req, c);
    } else {
      SameFields(s, Effect(h, s, c, f).state, c);
    }
  }

  /**
    An open channel is closed by a message exactly if that is a destroy request
    whose id resolves to the channel's own slot.
   */
  lemma EffectClosesIff(h: Host, s: State, c: nat, f: Frame)
    requires Inv(s) && c < MAX_CHANNELS && s.chan[c].active
    ensures !Effect(h, s, c, f).state.chan[c].active <==> !Spares(s, c, f)
  {
    hide CreateContext, MapHostBuffer, SetRuntimeConfig, GetRuntimeConfig, QueryColStatus, StatusReply, Agree;
    if f.opcode == OP_DESTROY_CONTEXT {
      DestroyCloses(s, f.payload, c);
    } else {
      EffectSpares(h, s, c, f);
    }
  }

  lemma DestroyCloses(s: State, req: seq<Word>, c: nat)
    requires Inv(s) && c < MAX_CHANNELS && s.chan[c].active
    ensures DestroyContext(s, req).state.chan[c] ==
            if c > 0 && req != [] && FindContext(s.ctx, req[0], 0) == c - 1 then BlankChannel(c) else s.chan[c]
  {
    hide StatusReply;
  }

  /** A send leaves the channel's request side as it was. */
  lemma SendSparesX2i(h: Host, s: State, c: nat, f: Frame)
    requires Shape(s) && c < MAX_CHANNELS
    ensures var t := Send(h, s, c, f).state;
            && X2i(t, c) == X2i(s, c) && t.chan[c].active == s.chan[c].active
            && t.chan[c].x2iTail == s.chan[c].x2iTail && t.chan[c].x2iHead == s.chan[c].x2iHead
            && t.ctx == s.ctx
  {
    hide Send, Put, Splice, X2iBase, I2xBase, RingSize;
    SendFields(h, s, c, f);
    Apart(c, c);
    if Sends(s, c, f) {
      SpliceElsewhere(s.sram, I2xBase(c) / 4, Put(I2x(s, c), f).ring.mem, X2iBase(c), RingSize(c));
    }
  }

  lemma HandleSparesX2i(h: Host, s: State, c: nat, f: Frame)
    requires Inv(s) && c < MAX_CHANNELS && s.chan[c].active && Stays(c, Owner(s, c), f)
    ensures var t := Handle(h, s, c, f);
            && X2i(t, c) == X2i(s, c) && t.chan[c].active && Owner(t, c) == Owner(s, c)
            && t.chan[c].x2iTail == s.chan[c].x2iTail && t.chan[c].x2iHead == s.chan[c].x2iHead
  {
    hide Send, Effect, X2i, Agree;
    StaysSpares(s, c, f);
    EffectSpares(h, s, c, f);
    var o := Effect(h, s, c, f);
    if o.reply.Some? {
      SendSparesX2i(h, o.state, c, MakeFrame(f.id, f.opcode, o.reply.value));
    }
  }

  /** A send on an open channel offers the frame to its reply ring, accepted or not. */
  lemma SendPuts(h: Host, s: State, c: nat, f: Frame)
    requires Shape(s) && c < MAX_CHANNELS && s.chan[c].active
    ensures var t, p := Send(h, s, c, f), Offer(I2x(s, c), f);
            && t.ok == p.accepted
            && I2x(t.state, c) == p.ring
            && t.state.chan[c].i2xHead == s.chan[c].i2xHead
            && t.state.chan[c].i2xTail == 4 * p.ring.tail
  {
    hide Splice;
    if Len(f) <= Usable(I2x(s, c)) {
      SpliceHere(s.sram, Put(I2x(s, c), f).ring.mem, I2xBase(c), RingSize(c));
    }
  }

  // --- Answering ---

  /** Handling a message that is due an answer offers that answer to the reply ring of its channel. */
  lemma HandleOffers(h: Host, t: State, c: nat, f: Frame) returns (g: Frame)
    requires Midway(h, t, c, f) && c < MAX_CHANNELS && t.chan[c].active
    requires Stays(c, Owner(t, c), f) && !AsyncAccepted(f)
    ensures Ready(I2x(t, c))
    ensures var o, r := Effect(h, t, c, f), Handle(h, t, c, f);
            var p := Offer(I2x(t, c), g);
            && o.reply.Some? && g == MakeFrame(f.id, f.opcode, o.reply.value)
            && Answers(f, g) && g.payload[StatusOff(f.opcode) / 4] == Verdict(h, t, f)
            && r.chan[c].active && I2x(r, c) == p.ring && r.chan[c].i2xHead == t.chan[c].i2xHead
            && r.log == o.state.log + [Replied(c, g, p.accepted)] + (if p.accepted && h.hasIrq then [Irq(c)] else [])
            && r.stats.msgsOut == o.state.stats.msgsOut + if p.accepted then 1 else 0
  {
    hide Effect, Send, Offer, Books, Tally, Pairs, Numbered, Agree, Verdict;
    var o := Effect(h, t, c, f);
    ReplyIsExact(h, t, c, f);
    StaysSpares(t, c, f);
    EffectSpares(h, t, c, f);
    g := MakeFrame(f.id, f.opcode, o.reply.value);
    SendPuts(h, o.state, c, g);
    SendFields(h, o.state, c, g);
  }

  /** An accepted async registration is answered by nothing. */
  lemma HandleDefers(h: Host, t: State, c: nat, f: Frame)
    requires Shape(t) && t.fwAlive && c < MAX_CHANNELS && AsyncAccepted(f)
    ensures var r := Handle(h, t, c, f);
            r.log == t.log + [AsyncRegistered(c)] && r.chan == t.chan && I2x(r, c) == I2x(t, c) && r.stats == t.stats
  {
    hide CreateContext, DestroyContext, MapHostBuffer, SetRuntimeConfig, GetRuntimeConfig, QueryColStatus, StatusReply;
  }

  /** What a message did to contexts, ids and configuration stands whether or not its answer found room. */
  lemma EffectStands(h: Host, s: State, c: nat, f: Frame)
    requires Shape(s) && s.fwAlive
    ensures var o, r := Effect(h, s, c, f), Handle(h, s, c, f);
            r.ctx == o.state.ctx && r.nextCtxId == o.state.nextCtxId && r.rtCfg == o.state.rtCfg
  {
    hide Effect, Send;
    var o := Effect(h, s, c, f);
    if o.reply.Some? {
      SendFields(h, o.state, c, MakeFrame(f.id, f.opcode, o.reply.value));
    }
  }
}
