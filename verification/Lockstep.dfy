/** End to end: the driver's send-then-receive always gets its one reply, through any number of wraps. */
module Lockstep {
  import opened Regs
  import opened Ring
  import opened RingFifo
  import opened NpuState
  import opened Mailbox
  import opened Mert
  import opened Ledger
  import opened Soundness
  import opened Traffic
  import opened BatchDrain
  import opened LockstepModel
  import I = Invariant
  import Consumer

  lemma EmptyHolds(r: Ring)
    requires Ready(r) && r.head == r.tail
    ensures Holds(r, [])
  {
  }

  /** On an empty ring a frame of at most half the ring is always accepted, wherever the positions are. */
  lemma PutOnEmpty(r: Ring, f: Frame)
    requires Ready(r) && r.head == r.tail && 2 * Len(f) <= Usable(r)
    ensures Put(r, f).accepted && Holds(Put(r, f).ring, [f])
  {
    EmptyHolds(r);
    PutAppends(r, [], f);
    assert [] + [f] == [f];
  }

  /** A channel that has just been opened, by boot or by context creation, is in step with a fresh driver. */
  lemma OpenedInStep(h: Host, s: State, c: nat, n: Word)
    requires Sound(h, s) && c < MAX_CHANNELS && s.chan[c] == OpenChannel(c)
    ensures InStep(h, s, Drv(0, 0, n), c)
  {
    hide Books, Tally, Pairs, Numbered, Agree;
  }

  // --- Submitting ---

  lemma SubmitQueues(h: Host, s: State, d: Drv, c: nat, f: Frame) returns (u: State)
    requires Sound(h, s) && c < MAX_CHANNELS && Linked(s, d, c) && 2 * Len(f) <= RingSize(c) / 4 - 1
    ensures Ready(RequestRing(s, d, c)) && Len(f) <= Usable(RequestRing(s, d, c))
    ensures Sound(h, u) && Aligned(u, c) && Holds(X2i(u, c), [f]) && I2x(u, c) == I2x(s, c)
    ensures u == s.(sram := u.sram, chan := s.chan[c := s.chan[c].(x2iTail := u.chan[c].x2iTail)])
    ensures u.chan[c].x2iTail <= RingSize(c) - 4
    ensures var b := Submit(h, s, d, c, f);
            b.ok && b.state == Consumer.Drain(h, u, c, 256)
            && b.drv == d.(x2iTail := u.chan[c].x2iTail, nextId := Add32(d.nextId, 1))
  {
    hide Splice, Holds, Consumer.Drain, Books, Tally, Pairs, Numbered, Agree, Put, X2i, I2x, ChanOk;
    var r := RequestRing(s, d, c);
    LinkedRing(s, d, c);
    PutOnEmpty(r, f);
    var p := Put(r, f);
    var s1 := s.(sram := Splice(s.sram, X2iBase(c) / 4, p.ring.mem));
    assert Sound(h, s1);
    var ch := s1.chan[c].(x2iTail := 4 * p.ring.tail);
    QueuedRing(s, c, p.ring);
    u := SetChan(s1, c, ch);
    I.SetChanKeeps(h, s1, c, ch);
    var off: Word := c * CHAN_STRIDE + X2I_TAIL_OFF;
    assert off / CHAN_STRIDE == c && off % CHAN_STRIDE == X2I_TAIL_OFF;
  }

  lemma LinkedRing(s: State, d: Drv, c: nat)
    requires Shape(s) && c < MAX_CHANNELS && Linked(s, d, c)
    ensures var r := RequestRing(s, d, c);
            Ready(r) && r.head == r.tail && |r.mem| == RingSize(c) / 4 && r == X2i(s, c)
  {
  }

  /** The request ring replaced by `r`, with the device's head where it was. */
  lemma QueuedRing(s: State, c: nat, r: Ring)
    requires Shape(s) && c < MAX_CHANNELS && s.chan[c].active && Ready(r)
    requires |r.mem| == RingSize(c) / 4 && r.head == X2i(s, c).head
    ensures X2iBase(c) / 4 + |r.mem| <= |s.sram| && 4 * r.tail <= RingSize(c) - 4
    ensures |s.chan| == MAX_CHANNELS && ChanOk(c, s.chan[c].(x2iTail := 4 * r.tail))
    ensures var u := SetChan(s.(sram := Splice(s.sram, X2iBase(c) / 4, r.mem)), c, s.chan[c].(x2iTail := 4 * r.tail));
            X2i(u, c) == r && I2x(u, c) == I2x(s, c)
  {
    hide Splice;
    Apart(c, c);
    SpliceHere(s.sram, r.mem, X2iBase(c), RingSize(c));
    SpliceElsewhere(s.sram, X2iBase(c) / 4, r.mem, I2xBase(c), RingSize(c));
  }

  /** The consume loop on one queued request: perhaps a rewind, then exactly that request, then done. */
  lemma DrainOne(h: Host, u: State, c: nat, f: Frame) returns (v: State)
    requires Sound(h, u) && c < MAX_CHANNELS && Aligned(u, c) && Holds(X2i(u, c), [f])
    requires f.payload != [] && Stays(c, Owner(u, c), f)
    ensures Sound(h, v) && Aligned(v, c) && I2x(v, c) == I2x(u, c) && Peek(v, c) == Message(f)
    ensures v == SetChan(u, c, u.chan[c].(x2iHead := v.chan[c].x2iHead))
    ensures v.chan[c].x2iHead + 4 * Len(f) == u.chan[c].x2iTail
    ensures Consumer.Drain(h, u, c, 256) == Handle(h, Consumer.Taken(v, c, f), c, f)
  {
    hide Holds, Handle, Peek, Books, Tally, Pairs, Numbered, Agree, X2i, I2x, ChanOk;
    RingReady(u, c, [f]);
    SetChanSame(u, c);
    v := u;
    if X2i(u, c).mem[X2i(u, c).head] == TOMBSTONE {
      v := Consumer.Rewound(u, c);
      RewoundRing(u, c, [f]);
      RewoundI2x(u, c);
      I.SetChanKeeps(h, u, c, u.chan[c].(x2iHead := 0));
      LinearStart(v, c, f);
    }
    TakeLast(h, v, c, f, 255);
    TakeLast(h, v, c, f, 256);
  }

  lemma SetChanSame(u: State, c: nat)
    requires Shape(u) && c < MAX_CHANNELS
    ensures |u.chan| == MAX_CHANNELS && ChanOk(c, u.chan[c])
            && u == SetChan(u, c, u.chan[c].(x2iHead := u.chan[c].x2iHead))
  {
    assert u.chan[c := u.chan[c]] == u.chan;
  }

  lemma RewoundI2x(u: State, c: nat)
    requires Shape(u) && c < MAX_CHANNELS
    ensures |u.chan| == MAX_CHANNELS && ChanOk(c, u.chan[c].(x2iHead := 0))
    ensures I2x(Consumer.Rewound(u, c), c) == I2x(u, c)
    ensures Consumer.Rewound(u, c) == SetChan(u, c, u.chan[c].(x2iHead := 0))
            && Consumer.Rewound(u, c).chan[c].x2iHead == 0
    ensures Consumer.Rewound(u, c).chan[c].x2iTail == u.chan[c].x2iTail
  {
  }

  /** After a rewind there is no second tombstone. */
  lemma LinearStart(v: State, c: nat, f: Frame)
    requires Shape(v) && c < MAX_CHANNELS && Holds(X2i(v, c), [f]) && Laps(X2i(v, c)) == 0
    ensures X2i(v, c).mem[X2i(v, c).head] != TOMBSTONE
  {
    FrameAtWords(X2i(v, c).mem, X2i(v, c).head, f);
  }

  lemma TakeLast(h: Host, v: State, c: nat, f: Frame, fuel: nat)
    requires Sound(h, v) && c < MAX_CHANNELS && Aligned(v, c) && Holds(X2i(v, c), [f]) && fuel >= 2
    requires X2i(v, c).mem[X2i(v, c).head] != TOMBSTONE && f.payload != [] && Stays(c, Owner(v, c), f)
    ensures Peek(v, c) == Message(f) && v.chan[c].x2iHead + 4 * Len(f) == v.chan[c].x2iTail
    ensures Consumer.Drain(h, v, c, fuel) == Handle(h, Consumer.Taken(v, c, f), c, f)
  {
    hide Holds, Handle, Peek, Books, Tally, Pairs, Numbered, Agree, X2i;
    TakenRing(v, c, [f]);
    var t := Consumer.Taken(v, c, f);
    assert [f][1..] == [];
    RingDrained(t, c);
    I.TakenKeeps(h, v, c, f);
    HandleSparesX2i(h, t, c, f);
  }

  // --- Answering ---

  /** On an empty reply ring a MERT reply is never refused: it is the one frame the ring then holds. */
  lemma HandleReplies(h: Host, t: State, c: nat, f: Frame) returns (g: Frame)
    requires Midway(h, t, c, f) && c < MAX_CHANNELS && t.chan[c].active
    requires Stays(c, Owner(t, c), f) && !AsyncAccepted(f)
    requires I2x(t, c).head == I2x(t, c).tail
    ensures var o := Effect(h, t, c, f);
            var r := Handle(h, t, c, f);
            && o.reply.Some? && g == MakeFrame(f.id, f.opcode, o.reply.value)
            && Answers(f, g) && g.payload[StatusOff(f.opcode) / 4] == Verdict(h, t, f)
            && r.chan[c].active && Holds(I2x(r, c), [g]) && r.chan[c].i2xHead == t.chan[c].i2xHead
            && r.chan[c].x2iHead == t.chan[c].x2iHead && r.chan[c].x2iTail == t.chan[c].x2iTail
            && r.stats.msgsOut == o.state.stats.msgsOut + 1 && Owner(r, c) == Owner(t, c)
  {
    hide Holds, Effect, Handle, Put, Books, Tally, Pairs, Numbered, Agree, Verdict;
    g := HandleOffers(h, t, c, f);
    PutOnEmpty(I2x(t, c), g);
    HandleSparesX2i(h, t, c, f);
  }

  // --- Collecting ---

  /** Collecting takes the oldest waiting reply, if there is one, and leaves driver and device linked. */
  lemma CollectTakes(h: Host, s: State, d: Drv, c: nat, q: seq<Frame>)
    requires Carrying(h, s, d, c, q)
    ensures Ready(ReplyRing(s, d, c)) && Ready(Get(ReplyRing(s, d, c), 64).ring)
    ensures var e := Collect(s, d, c);
            && (q == [] ==> e.got.Empty?) && (q != [] ==> e.got.Got? && e.got.frame == q[0])
            && Carrying(h, e.state, e.drv, c, if q == [] then [] else q[1..])
            && (q == [] || q[1..] == [] ==> InStep(h, e.state, e.drv, c))
            && I2x(e.state, c) == Get(I2x(s, c), 64).ring
            && e.state.log == s.log && e.state.stats == s.stats && e.state.ctx == s.ctx
            && e.drv == d.(i2xHead := e.drv.i2xHead)
  {
    hide Holds, Get, Books, Tally, Pairs, Numbered, Agree;
    HoldsReady(I2x(s, c), q);
    assert ReplyRing(s, d, c) == I2x(s, c);
    GetPops(I2x(s, c), q, 64);
    var r := Get(I2x(s, c), 64).ring;
    var rest := if q == [] then [] else q[1..];
    assert Holds(r, rest);
    HoldsReady(r, rest);
    if rest == [] {
      HoldsNothing(r);
    }
    var ch := s.chan[c].(intr := 0, i2xHead := 4 * r.head);
    CollectedRing(s, c, r, ch);
    I.SetChanKeeps(h, s, c, ch);
  }

  /** The reply ring once the driver has published a new head. */
  lemma CollectedRing(s: State, c: nat, r: Ring, ch: Channel)
    requires Shape(s) && c < MAX_CHANNELS && s.chan[c].active && Ready(r)
    requires r == I2x(s, c).(head := r.head) && ch == s.chan[c].(intr := 0, i2xHead := 4 * r.head)
    ensures |s.chan| == MAX_CHANNELS && ChanOk(c, ch) && I2x(SetChan(s, c, ch), c) == r
  {
  }

  // --- One exchange ---

  datatype Exchanged = Exchanged(state: State, drv: Drv, reply: GetResult)

  /** The driver's send-then-receive. */
  ghost function Exchange(h: Host, s: State, d: Drv, c: nat, op: Word, req: seq<Word>): (e: Exchanged)
    requires InStep(h, s, d, c) && Askable(c, Owner(s, c), RequestFrame(d, op, req))
    ensures InStep(h, e.state, e.drv, c) && e.drv.nextId == Add32(d.nextId, 1) && Owner(e.state, c) == Owner(s, c)
    ensures e.reply.Got? && Answers(RequestFrame(d, op, req), e.reply.frame)
    ensures e.state.stats.msgsIn == s.stats.msgsIn + 1 && e.state.stats.msgsOut == s.stats.msgsOut + 1
    ensures Dispatches(e.state.log) == Dispatches(s.log) + [RequestFrame(d, op, req)]
    ensures var f := RequestFrame(d, op, req);
            && e.drv.x2iTail >= 4 * Len(f)
            && e.reply.frame.payload[StatusOff(op) / 4] == Earned(h, s, c, e.drv.x2iTail - 4 * Len(f), f)
  {
    ExchangeWorks(h, s, d, c, RequestFrame(d, op, req));
    var b := Submit(h, s, d, c, RequestFrame(d, op, req));
    var e := Collect(b.state, b.drv, c);
    Exchanged(e.state, e.drv, e.got)
  }

  lemma EffectCounts(h: Host, s: State, c: nat, f: Frame)
    requires Shape(s)
    ensures Effect(h, s, c, f).state.stats == s.stats.(activeContexts := Effect(h, s, c, f).state.stats.activeContexts)
  {
    hide CreateContext, DestroyContext, MapHostBuffer, SetRuntimeConfig, GetRuntimeConfig, QueryColStatus, StatusReply;
    PoolCounts(s, f.opcode, f.payload);
    ConfigCounts(h, s, f.payload);
  }

  lemma ConfigCounts(h: Host, s: State, req: seq<Word>)
    requires Shape(s)
    ensures SetRuntimeConfig(s, req).state.stats == s.stats && GetRuntimeConfig(s, req).state.stats == s.stats
    ensures QueryColStatus(h, s, req).state.stats == s.stats
  {
    hide StatusReply, FillZeros, ChanOk;
  }

  lemma PoolCounts(s: State, op: Word, req: seq<Word>)
    requires Shape(s)
    ensures CreateContext(s, req).state.stats ==
            s.stats.(activeContexts := CreateContext(s, req).state.stats.activeContexts)
    ensures DestroyContext(s, req).state.stats ==
            s.stats.(activeContexts := DestroyContext(s, req).state.stats.activeContexts)
    ensures MapHostBuffer(s, op, req).state.stats == s.stats
  {
    hide Splice, StatusReply, CreateReply;
  }

  /** The status request `f` earns when it is taken off channel `c` at byte `at` in state `s`. */
  function Earned(h: Host, s: State, c: nat, at: nat, f: Frame): Word
    requires Sized(s)
  {
    Verdict(h, s.(log := s.log + [Dispatched(c, at, f)]), f)
  }

  lemma VerdictReads(h: Host, s: State, t: State, f: Frame)
    requires Sized(s) && Sized(t) && s.ctx == t.ctx && s.log == t.log
    ensures Verdict(h, s, f) == Verdict(h, t, f)
  {
    hide FillZeros;
    if |f.payload| > 0 {
      assert Resolves(s, f.payload[0]) == Resolves(t, f.payload[0]);
    }
  }

  /**
    One exchange in step: the request is accepted and dispatched, exactly one
    reply of its opcode's size, carrying the status it earned, comes back under
    its id, and both rings are empty
    and agreed on again.
   */
  lemma ExchangeWorks(h: Host, s: State, d: Drv, c: nat, f: Frame)
    requires InStep(h, s, d, c) && Askable(c, Owner(s, c), f)
    ensures Ready(RequestRing(s, d, c)) && Len(f) <= Usable(RequestRing(s, d, c))
    ensures var b := Submit(h, s, d, c, f);
            && b.ok && b.state.chan[c].active
            && Ready(ReplyRing(b.state, b.drv, c)) && Ready(Get(ReplyRing(b.state, b.drv, c), 64).ring)
            && var e := Collect(b.state, b.drv, c);
               && e.got.Got? && Answers(f, e.got.frame)
               && InStep(h, e.state, e.drv, c) && e.drv.nextId == Add32(d.nextId, 1)
               && Owner(e.state, c) == Owner(s, c)
               && e.state.stats.msgsIn == s.stats.msgsIn + 1 && e.state.stats.msgsOut == s.stats.msgsOut + 1
               && Dispatches(e.state.log) == Dispatches(s.log) + [f]
               && e.drv.x2iTail >= 4 * Len(f)
               && e.got.frame.payload[StatusOff(f.opcode) / 4] == Earned(h, s, c, e.drv.x2iTail - 4 * Len(f), f)
  {
    hide Holds, Handle, Effect, Send, Get, Peek, Submit, Collect, Consumer.Drain, Books, Tally, Pairs, Numbered;
    hide Agree, Dispatches, X2i, Verdict;
    var u := SubmitQueues(h, s, d, c, f);
    var v := DrainOne(h, u, c, f);
    var t := Consumer.Taken(v, c, f);
    I.TakenKeeps(h, v, c, f);
    TakenSpares(v, c, f);
    var g := HandleReplies(h, t, c, f);
    EffectCounts(h, t, c, f);
    I.HandleKeeps(h, t, c, f);
    HandleCounts(h, t, c, f);
    DispatchesAppend(v.log, Dispatched(c, v.chan[c].x2iHead, f));
    HandleDispatches(h, t, c, f);
    var b := Submit(h, s, d, c, f);
    assert [g][1..] == [];
    CollectTakes(h, b.state, b.drv, c, [g]);
    VerdictReads(h, t, s.(log := s.log + [Dispatched(c, v.chan[c].x2iHead, f)]), f);
  }

  lemma HandleCounts(h: Host, s: State, c: nat, f: Frame)
    requires Shape(s)
    ensures Handle(h, s, c, f).stats.msgsIn == s.stats.msgsIn
  {
    hide Effect, Send;
    EffectCounts(h, s, c, f);
    var o := Effect(h, s, c, f);
    if o.reply.Some? {
      SendFields(h, o.state, c, MakeFrame(f.id, f.opcode, o.reply.value));
    }
  }

  /** Submitting in step leaves the reading position where it was. */
  lemma SubmitKeepsHead(h: Host, s: State, d: Drv, c: nat, f: Frame)
    requires InStep(h, s, d, c) && Askable(c, Owner(s, c), f)
    ensures Ready(RequestRing(s, d, c)) && Len(f) <= Usable(RequestRing(s, d, c))
    ensures var b := Submit(h, s, d, c, f);
            b.state.chan[c].active && b.drv.i2xHead == d.i2xHead == b.state.chan[c].i2xHead && d.i2xHead % 4 == 0
  {
    hide Holds, Handle, Effect, Send, Get, Peek, Submit, Consumer.Drain, Books, Tally, Pairs, Numbered, Agree;
    hide Dispatches, X2i, Verdict;
    var u := SubmitQueues(h, s, d, c, f);
    var v := DrainOne(h, u, c, f);
    var t := Consumer.Taken(v, c, f);
    I.TakenKeeps(h, v, c, f);
    TakenSpares(v, c, f);
    var g := HandleReplies(h, t, c, f);
  }

  // --- Unbounded runs ---

  datatype Call = Call(op: Word, req: seq<Word>)

  ghost predicate AllAskable(c: nat, own: Word, calls: seq<Call>) {
    forall i, id: Word :: 0 <= i < |calls| ==> Askable(c, own, MakeFrame(id, calls[i].op, calls[i].req))
  }

  datatype Session = Session(state: State, drv: Drv, replies: seq<Frame>)

  ghost function Talk(h: Host, s: State, d: Drv, c: nat, calls: seq<Call>): (t: Session)
    requires InStep(h, s, d, c) && AllAskable(c, Owner(s, c), calls)
    ensures InStep(h, t.state, t.drv, c) && Owner(t.state, c) == Owner(s, c)
    decreases |calls|
  {
    if calls == [] then Session(s, d, [])
    else
      var e := Exchange(h, s, d, c, calls[0].op, calls[0].req);
      var t := Talk(h, e.state, e.drv, c, calls[1..]);
      Session(t.state, t.drv, [e.reply.frame] + t.replies)
  }

  /**
    For every sequence of requests, however long: each gets exactly one reply,
    in order, with its own id and opcode and exactly the opcode's size; nothing
    is refused or lost, and both rings are empty again at the end.
   */
  lemma {:induction false} EveryCallAnswered(h: Host, s: State, d: Drv, c: nat, calls: seq<Call>, i: nat)
    requires InStep(h, s, d, c) && AllAskable(c, Owner(s, c), calls)
    ensures var t := Talk(h, s, d, c, calls);
            && |t.replies| == |calls|
            && (i < |calls| ==>
                  && t.replies[i].id == (d.nextId + i) % 0x100 + MBOX_MAGIC_VAL
                  && t.replies[i].opcode == calls[i].op
                  && 4 * |t.replies[i].payload| == RespSize(calls[i].op))
            && Synced(t.state, t.drv, c)
            && t.state.stats.msgsIn == s.stats.msgsIn + |calls|
            && t.state.stats.msgsOut == s.stats.msgsOut + |calls|
    decreases |calls|
  {
    hide Exchange, InStep, Askable, AllAskable, Synced, Dispatches, Earned, StatusOff, RespSize, Answers;
    hide RequestFrame, Owner, Shape;
    StepSynced(h, s, d, c);
    if calls == [] {
    } else {
      FirstCall(h, s, d, c, calls);
      var e := Exchange(h, s, d, c, calls[0].op, calls[0].req);
      StepSynced(h, e.state, e.drv, c);
      EveryCallAnswered(h, e.state, e.drv, c, calls[1..], if i > 0 then i - 1 else 0);
      if i > 0 {
        NextId(d.nextId, i);
      }
    }
  }

  /** The first call may be made, its reply carries its id, opcode and size, and the others may be made after it. */
  lemma FirstCall(h: Host, s: State, d: Drv, c: nat, calls: seq<Call>)
    requires InStep(h, s, d, c) && AllAskable(c, Owner(s, c), calls) && calls != []
    ensures AllAskable(c, Owner(s, c), calls[1..])
    ensures Askable(c, Owner(s, c), RequestFrame(d, calls[0].op, calls[0].req))
    ensures var e := Exchange(h, s, d, c, calls[0].op, calls[0].req);
            && e.reply.frame.id == d.nextId % 0x100 + MBOX_MAGIC_VAL
            && e.reply.frame.opcode == calls[0].op
            && 4 * |e.reply.frame.payload| == RespSize(calls[0].op)
  {
    hide Exchange, InStep, Askable, Dispatches, Earned, StatusOff, RespSize;
    StepSynced(h, s, d, c);
    forall i, id: Word | 0 <= i < |calls[1..]|
      ensures Askable(c, Owner(s, c), MakeFrame(id, calls[1..][i].op, calls[1..][i].req))
    {
      assert Askable(c, Owner(s, c), MakeFrame(id, calls[i + 1].op, calls[i + 1].req));
    }
  }

  /**
    The i-th reply is the one the i-th exchange gets in the state the first i
    exchanges left; so it carries the status that call earned there.
   */
  lemma {:induction false} EveryReplyEarned(h: Host, s: State, d: Drv, c: nat, calls: seq<Call>, i: nat)
    requires InStep(h, s, d, c) && AllAskable(c, Owner(s, c), calls) && i < |calls|
    ensures AllAskable(c, Owner(s, c), calls[..i])
    ensures var t, u := Talk(h, s, d, c, calls), Talk(h, s, d, c, calls[..i]);
            && Askable(c, Owner(u.state, c), RequestFrame(u.drv, calls[i].op, calls[i].req))
            && i < |t.replies|
            && t.replies[i] == Exchange(h, u.state, u.drv, c, calls[i].op, calls[i].req).reply.frame
    decreases i
  {
    hide Exchange, InStep, Askable, Dispatches, Earned, StatusOff, RespSize;
    StepSynced(h, s, d, c);
    if i == 0 {
      assert calls[..0] == [];
    } else {
      var e := Exchange(h, s, d, c, calls[0].op, calls[0].req);
      EveryReplyEarned(h, e.state, e.drv, c, calls[1..], i - 1);
      assert calls[..i][1..] == calls[1..][..i - 1];
    }
  }

  lemma StepSynced(h: Host, s: State, d: Drv, c: nat)
    requires InStep(h, s, d, c)
    ensures c < MAX_CHANNELS && Shape(s) && Synced(s, d, c)
  {
  }

  lemma NextId(n: Word, i: nat)
    requires i > 0
    ensures (Add32(n, 1) + (i - 1)) % 0x100 == (n + i) % 0x100
  {
  }
}
