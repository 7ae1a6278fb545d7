/**
  Bounds of the two rings at device level: for arbitrary ring contents on the
  consumer side, and for every reachable state on the producer side; and when
  the reply ring is a FIFO queue.
 */
module Bounds {
  import opened Regs
  import opened Ring
  import opened RingFifo
  import opened NpuState
  import opened Mailbox
  import opened Mert
  import opened Ledger
  import opened Soundness
  import opened Traffic
  import opened BatchDrain
  import I = Invariant
  import Consumer
  import D = Device

  // --- Consumer ---

  /** A dispatched message lay wholly inside channel `c`'s request ring. */
  predicate InRing(o: Obs, c: nat) {
    o.Dispatched? ==> o.chan == c && o.at % 4 == 0 && o.at + 4 * Len(o.frame) <= RingSize(c) && o.frame.payload != []
  }

  /** `b` extends `a`, and every new dispatch lay inside the ring of `c`. */
  predicate Bounded(a: seq<Obs>, b: seq<Obs>, c: nat) {
    a <= b && forall i :: |a| <= i < |b| ==> InRing(b[i], c)
  }

  lemma BoundedTrans(a: seq<Obs>, b: seq<Obs>, d: seq<Obs>, c: nat)
    requires Bounded(a, b, c) && Bounded(b, d, c)
    ensures Bounded(a, d, c)
  {
    forall i | |a| <= i < |d|
      ensures InRing(d[i], c)
    {
      if i < |b| {
        assert d[i] == b[i];
      }
    }
  }

  lemma BoundedOne(a: seq<Obs>, o: Obs, c: nat)
    requires InRing(o, c)
    ensures Bounded(a, a + [o], c) && Bounded(a, a, c)
  {
  }

  lemma {:induction false} FillBounded(h: Host, log: seq<Obs>, addr: nat, size: nat, done: nat, c: nat)
    requires done <= size
    ensures Bounded(log, FillZeros(h, log, addr, size, done).log, c)
    decreases size - done
  {
    hide Bounded;
    BoundedOne(log, WasReset, c);
    if done == size {
    } else {
      var n := if size - done > 256 then 256 else size - done;
      var at := (addr + done) % TWO64;
      var o := DmaWrite(at, n, h.writeOk(log, at, n));
      BoundedOne(log, o, c);
      if h.writeOk(log, at, n) {
        FillBounded(h, log + [o], addr, size, done + n, c);
        BoundedTrans(log, log + [o], FillZeros(h, log + [o], addr, size, done + n).log, c);
      }
    }
  }

  lemma CreateBounded(s: State, req: seq<Word>, c: nat)
    requires Shape(s)
    ensures Bounded(s.log, CreateContext(s, req).state.log, c)
  {
    hide Bounded;
    BoundedOne(s.log, Created(FirstFree(s.ctx, 0), s.nextCtxId), c);
  }

  lemma EffectBounded(h: Host, s: State, c: nat, f: Frame)
    requires Shape(s)
    ensures Bounded(s.log, Effect(h, s, c, f).state.log, c)
  {
    hide Bounded, CreateContext, DestroyContext, MapHostBuffer, StatusReply, FillZeros;
    BoundedOne(s.log, AsyncRegistered(c), c);
    CreateBounded(s, f.payload, c);
    PoolSpares(s, f.opcode, f.payload);
    if f.opcode == OP_QUERY_COL_STATUS && |f.payload| >= 5 {
      FillBounded(h, s.log, U64(f.payload[0], f.payload[1]), f.payload[2], 0, c);
    }
  }

  lemma HandleBounded(h: Host, s: State, c: nat, f: Frame)
    requires Shape(s)
    ensures Bounded(s.log, Handle(h, s, c, f).log, c)
  {
    hide Effect, Send;
    EffectBounded(h, s, c, f);
    var o := Effect(h, s, c, f);
    if s.fwAlive && o.reply.Some? {
      var g := MakeFrame(f.id, f.opcode, o.reply.value);
      SendFields(h, o.state, c, g);
      BoundedTrans(s.log, o.state.log, Send(h, o.state, c, g).state.log, c);
    }
  }

  /**
    Whatever the ring contains and wherever the tail points: a kick looks at most
    `fuel` times, dispatches at most that many messages, each lying wholly inside
    the ring although header plus payload is a wrapping 32-bit sum.
   */
  lemma {:induction false} KickBounded(h: Host, s: State, c: nat, fuel: nat)
    requires Shape(s) && c < MAX_CHANNELS
    ensures var t := Consumer.Drain(h, s, c, fuel);
            && Bounded(s.log, t.log, c)
            && |Dispatches(s.log)| <= |Dispatches(t.log)| <= |Dispatches(s.log)| + fuel
            && t.chan[c].x2iHead % 4 == 0 && t.chan[c].x2iHead <= RingSize(c)
    decreases fuel
  {
    hide Bounded, Dispatches, Handle, Peek;
    BoundedOne(s.log, WasReset, c);
    HeadAligned(Consumer.Drain(h, s, c, fuel), c);
    if s.chan[c].x2iHead == s.chan[c].x2iTail || fuel == 0 {
    } else {
      match Peek(s, c) {
        case Rewind => KickBounded(h, Consumer.Rewound(s, c), c, fuel - 1);
        case Malformed =>
        case Message(f) =>
          var t := Consumer.Taken(s, c, f);
          var u := Handle(h, t, c, f);
          TakenBounded(s, c, f);
          HandleBounded(h, t, c, f);
          HandleDispatches(h, t, c, f);
          BoundedTrans(s.log, t.log, u.log, c);
          KickBounded(h, u, c, fuel - 1);
          BoundedTrans(s.log, u.log, Consumer.Drain(h, u, c, fuel - 1).log, c);
      }
    }
  }

  lemma HeadAligned(s: State, c: nat)
    requires Shape(s) && c < MAX_CHANNELS
    ensures |s.chan| == MAX_CHANNELS && s.chan[c].x2iHead % 4 == 0 && s.chan[c].x2iHead <= RingSize(c)
  {
  }

  lemma TakenBounded(s: State, c: nat, f: Frame)
    requires Shape(s) && c < MAX_CHANNELS && Peek(s, c) == Message(f)
    ensures var t := Consumer.Taken(s, c, f);
            Bounded(s.log, t.log, c) && |Dispatches(t.log)| == |Dispatches(s.log)| + 1
  {
    hide Dispatches;
    Consumer.PeekInside(s, c);
    LookInside(X2i(s, c).mem, X2i(s, c).head);
    var o := Dispatched(c, s.chan[c].x2iHead, f);
    BoundedOne(s.log, o, c);
    DispatchesAppend(s.log, o);
  }

  /** A message can only be found on an open channel of live firmware: MERT's not-alive branch is dead. */
  lemma MessageMeansAlive(h: Host, s: State, c: nat, f: Frame)
    requires Sound(h, s) && c < MAX_CHANNELS && Peek(s, c) == Message(f)
    ensures s.fwAlive && s.chan[c].active && (c > 0 ==> s.ctx[c - 1].valid)
  {
    hide Books, Pairs;
    Consumer.PeekInside(s, c);
    assert c > 0 ==> s.ctx[c - 1].valid;
  }

  // --- Producer ---

  /** In every reachable state each open channel's tail leaves room for a tombstone, and both positions are aligned. */
  lemma ReachableBounds(h: Host, evs: seq<D.Event>, c: nat)
    requires D.AllDisciplined(h, D.ResetState([]), evs) && c < MAX_CHANNELS
    ensures var s := D.Run(h, D.ResetState([]), evs);
            && |s.chan| == MAX_CHANNELS
            && s.chan[c].i2xTail % 4 == 0 && s.chan[c].i2xTail <= RingSize(c) - 4
            && s.chan[c].x2iHead % 4 == 0 && s.chan[c].x2iHead <= RingSize(c)
            && (s.chan[c].active ==> (s.fwAlive && s.chan[c].i2xHead <= RingSize(c) - 4))
            && (s.chan[c].active <==> if c == 0 then s.fwAlive else s.ctx[c - 1].valid)
            && s.stats.activeContexts == CountValid(s.ctx)
  {
    hide D.Run, D.ResetState, Books, Pairs, CountValid;
    I.RunConserves(h, evs);
    assert c > 0 ==> var s := D.Run(h, D.ResetState([]), evs); (s.chan[c - 1 + 1].active <==> s.ctx[c - 1].valid);
  }

  /** A successful send never leaves the ring looking empty. */
  lemma SendLeavesData(h: Host, s: State, c: nat, f: Frame)
    requires Shape(s) && c < MAX_CHANNELS && Send(h, s, c, f).ok
    ensures var t := Send(h, s, c, f).state; t.chan[c].i2xHead != t.chan[c].i2xTail
  {
    hide Splice, Encode;
    SendPuts(h, s, c, f);
  }

  /**
    A send keeps the reply queue first-in first-out, be it accepted or refused,
    exactly unless the driver's head register is 0 while the frame fits in an
    empty ring but not behind the tail: then every unread reply is lost.
   */
  lemma SendIsFifoIff(h: Host, s: State, c: nat, q: seq<Frame>, f: Frame)
    requires Shape(s) && c < MAX_CHANNELS && s.chan[c].active && Holds(I2x(s, c), q)
    ensures var r := Send(h, s, c, f);
            var max := s.chan[c].i2xSize - 4;
            var lost := s.chan[c].i2xHead == 0 && 4 * Len(f) <= max && s.chan[c].i2xTail + 4 * Len(f) > max;
            && (Holds(I2x(r.state, c), if r.ok then q + [f] else q) <==> !lost)
            && (lost ==> q != [] && r.ok && Holds(I2x(r.state, c), [f]))
  {
    hide Holds, Put, Send;
    SendPuts(h, s, c, f);
    OverrunsInBytes(s, c, f);
    if Len(f) <= Usable(I2x(s, c)) {
      PutIsFifoIff(I2x(s, c), q, f);
    }
    if Overruns(I2x(s, c), f) {
      PutOverruns(I2x(s, c), q, f);
    }
  }

  lemma OverrunsInBytes(s: State, c: nat, f: Frame)
    requires Shape(s) && c < MAX_CHANNELS && s.chan[c].active
    ensures Overruns(I2x(s, c), f) <==>
            && s.chan[c].i2xHead == 0 && 4 * Len(f) <= s.chan[c].i2xSize - 4
            && s.chan[c].i2xTail + 4 * Len(f) > s.chan[c].i2xSize - 4
  {
  }
}
