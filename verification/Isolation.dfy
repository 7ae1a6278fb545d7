/** Ring isolation: mailbox traffic writes only the rings its replies and creations name. */
module Isolation {
  import opened Regs
  import opened Ring
  import opened NpuState
  import opened Mailbox
  import opened Mert
  import opened Footprint
  import opened Ledger
  import Consumer
  import D = Device

  lemma ConfinedTrans(s: State, t: State, u: State)
    requires Confined(s, t) && Confined(t, u)
    ensures Confined(s, u)
  {
    forall w | 0 <= w < |s.sram|
      ensures u.sram[w] == s.sram[w] || Named(u.log, |s.log|, w)
    {
      if t.sram[w] != s.sram[w] {
        var i :| |s.log| <= i < |t.log| && Touches(t.log[i], w);
        assert u.log[i] == t.log[i];
      } else if u.sram[w] != t.sram[w] {
        var i :| |t.log| <= i < |u.log| && Touches(u.log[i], w);
        assert |s.log| <= i;
      }
    }
  }

  /** Same memory, longer log. */
  lemma ConfinedLog(s: State, t: State)
    requires s.log <= t.log && t.sram == s.sram
    ensures Confined(s, t)
  {
  }

  /** One block written, and its entry appended. */
  lemma ConfinedBlock(s: State, t: State, at: nat, ws: seq<Word>, i: nat)
    requires s.log <= t.log && |s.log| <= i < |t.log|
    requires at + |ws| <= |s.sram| && t.sram == Splice(s.sram, at, ws)
    requires forall w :: at <= w < at + |ws| ==> Touches(t.log[i], w)
    ensures Confined(s, t)
  {
    forall w | 0 <= w < |s.sram|
      ensures t.sram[w] == s.sram[w] || Named(t.log, |s.log|, w)
    {
      if at <= w < at + |ws| {
        assert Touches(t.log[i], w);
      }
    }
  }

  lemma SendConfined(h: Host, s: State, c: nat, f: Frame)
    requires Shape(s)
    ensures Confined(s, Send(h, s, c, f).state)
  {
    hide Put, Splice, Confined, Send;
    var r := Send(h, s, c, f);
    SendFields(h, s, c, f);
    if !Sends(s, c, f) {
      ConfinedLog(s, r.state);
    } else {
      var mem := Put(I2x(s, c), f).ring.mem;
      ConfinedBlock(s, r.state, I2xBase(c) / 4, mem, |s.log|);
    }
  }

  lemma OpenConfined(s: State, k: nat, req: seq<Word>)
    requires Shape(s) && k < MAX_CONTEXTS && |req| >= 7
    ensures Confined(s, OpenContext(s, k, req))
  {
    hide Splice, Confined, Zeros;
    ConfinedBlock(s, OpenContext(s, k, req), X2iBase(k + 1) / 4, Zeros(CTX_RB_STRIDE / 4), |s.log|);
  }

  lemma QueryConfined(h: Host, s: State, req: seq<Word>)
    requires Shape(s)
    ensures Confined(s, QueryColStatus(h, s, req).state)
  {
    hide Confined, FillZeros;
    if |req| >= 5 {
      FillQuiet(h, s.log, U64(req[0], req[1]), req[2], 0);
    }
    ConfinedLog(s, QueryColStatus(h, s, req).state);
  }

  lemma EffectConfined(h: Host, s: State, c: nat, f: Frame)
    requires Shape(s)
    ensures Confined(s, Effect(h, s, c, f).state)
  {
    hide Confined, OpenContext, QueryColStatus, DestroyContext, MapHostBuffer, StatusReply;
    if f.opcode == OP_CREATE_CONTEXT {
      var k := FirstFree(s.ctx, 0);
      if |f.payload| >= 7 && k < MAX_CONTEXTS {
        OpenConfined(s, k, f.payload);
      }
      ConfinedLog(s, s);
    } else if f.opcode == OP_QUERY_COL_STATUS {
      QueryConfined(h, s, f.payload);
    } else {
      PoolSpares(s, f.opcode, f.payload);
      ConfinedLog(s, Effect(h, s, c, f).state);
    }
  }

  lemma HandleConfined(h: Host, s: State, c: nat, f: Frame)
    requires Shape(s)
    ensures Confined(s, Handle(h, s, c, f))
  {
    hide Confined, Effect, Send;
    if s.fwAlive {
      var o := Effect(h, s, c, f);
      EffectConfined(h, s, c, f);
      if o.reply.Some? {
        var g := MakeFrame(f.id, f.opcode, o.reply.value);
        SendConfined(h, o.state, c, g);
        ConfinedTrans(s, o.state, Send(h, o.state, c, g).state);
      }
    } else {
      ConfinedLog(s, s);
    }
  }

  lemma {:induction false} DrainConfined(h: Host, s: State, c: nat, fuel: nat)
    requires Shape(s) && c < MAX_CHANNELS
    ensures Confined(s, Consumer.Drain(h, s, c, fuel))
    decreases fuel
  {
    hide Confined, Handle, Peek;
    ConfinedLog(s, s);
    if s.chan[c].x2iHead == s.chan[c].x2iTail || fuel == 0 {
    } else {
      match Peek(s, c) {
        case Rewind =>
          var t := Consumer.Rewound(s, c);
          ConfinedLog(s, t);
          DrainConfined(h, t, c, fuel - 1);
          ConfinedTrans(s, t, Consumer.Drain(h, t, c, fuel - 1));
        case Malformed =>
        case Message(f) =>
          var t := Consumer.Taken(s, c, f);
          var u := Handle(h, t, c, f);
          ConfinedLog(s, t);
          HandleConfined(h, t, c, f);
          ConfinedTrans(s, t, u);
          DrainConfined(h, u, c, fuel - 1);
          ConfinedTrans(s, u, Consumer.Drain(h, u, c, fuel - 1));
      }
    }
  }

  lemma MboxWriteConfined(h: Host, s: State, off: Word, val: Word)
    requires Shape(s) && Consumer.HeadInRange(s, off, val)
    ensures Confined(s, Consumer.RegWrite(h, s, off, val))
  {
    hide Confined, Consumer.Drain;
    var c := off / CHAN_STRIDE;
    ConfinedLog(s, s);
    if c < MAX_CHANNELS {
      if off % CHAN_STRIDE == X2I_TAIL_OFF {
        var t := SetChan(s, c, s.chan[c].(x2iTail := val));
        ConfinedLog(s, t);
        DrainConfined(h, t, c, MAX_MSG_PER_KICK);
        ConfinedTrans(s, t, Consumer.Drain(h, t, c, MAX_MSG_PER_KICK));
      } else {
        ConfinedLog(s, Consumer.RegWrite(h, s, off, val));
      }
    }
  }

  predicate OnlyMailbox(evs: seq<D.Event>) {
    forall i :: 0 <= i < |evs| ==> evs[i].MboxBar?
  }

  lemma {:induction false} MboxRunConfined(h: Host, s: State, evs: seq<D.Event>)
    requires Shape(s) && D.AllDisciplined(h, s, evs) && OnlyMailbox(evs)
    ensures Confined(s, D.Run(h, s, evs))
    decreases |evs|
  {
    hide Confined, Consumer.RegWrite;
    if evs == [] {
      ConfinedLog(s, s);
    } else {
      var t := D.Step(h, s, evs[0]);
      MboxWriteConfined(h, s, evs[0].off, evs[0].val);
      MboxRunConfined(h, t, evs[1..]);
      ConfinedTrans(s, t, D.Run(h, t, evs[1..]));
    }
  }

  /** The fourteen rings, the channel description and the FW_ALIVE word are pairwise disjoint. */
  lemma RegionsDisjoint(w: nat, c: nat, d: nat)
    requires c < MAX_CHANNELS && d < MAX_CHANNELS
    ensures Within(w, X2iBase(c), RingSize(c)) ==> !Within(w, I2xBase(d), RingSize(d))
    ensures c != d && Within(w, X2iBase(c), RingSize(c)) ==> !Within(w, X2iBase(d), RingSize(d))
    ensures c != d && Within(w, I2xBase(c), RingSize(c)) ==> !Within(w, I2xBase(d), RingSize(d))
    ensures Within(w, X2iBase(c), RingSize(c)) || Within(w, I2xBase(c), RingSize(c)) ==>
              !Within(w, MGMT_INFO_OFF, 64) && !Within(w, FW_ALIVE_OFF, 4) && w < SRAM_WORDS
  {
  }

  /**
    Whatever mailbox registers are written, the channel description, the FW_ALIVE
    word and the management request ring keep their contents, and so does any
    word of a channel's rings that no reply on that channel and no reopening of
    its slot accounts for.
   */
  lemma MailboxRunIsolated(h: Host, s: State, evs: seq<D.Event>, w: nat)
    requires Shape(s) && D.AllDisciplined(h, s, evs) && OnlyMailbox(evs) && w < SRAM_WORDS
    ensures var t := D.Run(h, s, evs);
            && (Within(w, MGMT_INFO_OFF, 64) || Within(w, FW_ALIVE_OFF, 4) || Within(w, X2iBase(0), RingSize(0)) ==>
                  t.sram[w] == s.sram[w])
            && (forall c {:trigger NotReopened(t.log, |s.log|, c)} ::
                  0 <= c < MAX_CHANNELS && NotReopened(t.log, |s.log|, c) ==>
                  && (Within(w, X2iBase(c), RingSize(c)) ==> t.sram[w] == s.sram[w])
                  && (Within(w, I2xBase(c), RingSize(c)) && NoReplyOn(t.log, |s.log|, c) ==> t.sram[w] == s.sram[w]))
  {
    var t := D.Run(h, s, evs);
    MboxRunConfined(h, s, evs);
    if t.sram[w] != s.sram[w] {
      var i :| |s.log| <= i < |t.log| && Touches(t.log[i], w);
      var d := if t.log[i].Replied? then t.log[i].chan else t.log[i].slot + 1;
      forall c: nat | c < MAX_CHANNELS
        ensures c != d ==> !Within(w, X2iBase(c), RingSize(c)) && !Within(w, I2xBase(c), RingSize(c))
        ensures t.log[i].Replied? ==> !Within(w, X2iBase(c), RingSize(c))
        ensures !Within(w, MGMT_INFO_OFF, 64) && !Within(w, FW_ALIVE_OFF, 4)
      {
        RegionsDisjoint(w, c, d);
        RegionsDisjoint(w, d, c);
      }
      RegionsDisjoint(w, 0, d);
    }
  }
}
