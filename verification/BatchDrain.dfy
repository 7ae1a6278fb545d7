/** One tail write drains a whole batch of requests, in order, as far as the iteration guard allows. */
module BatchDrain {
  import opened Regs
  import opened Ring
  import opened RingFifo
  import opened NpuState
  import opened Mailbox
  import opened Mert
  import opened Ledger
  import opened Soundness
  import opened Traffic
  import opened RingOffers
  import I = Invariant
  import Consumer

  /** The messages taken off the rings, in order. */
  function Dispatches(log: seq<Obs>): seq<Frame> {
    if log == [] then []
    else
      var o := log[|log| - 1];
      Dispatches(log[..|log| - 1]) + if o.Dispatched? then [o.frame] else []
  }

  lemma DispatchesAppend(log: seq<Obs>, o: Obs)
    ensures Dispatches(log + [o]) == Dispatches(log) + if o.Dispatched? then [o.frame] else []
  {
    assert (log + [o])[..|log|] == log;
  }

  lemma {:induction false} FillDispatches(h: Host, log: seq<Obs>, addr: nat, size: nat, done: nat)
    requires done <= size
    ensures Dispatches(FillZeros(h, log, addr, size, done).log) == Dispatches(log)
    decreases size - done
  {
    if done == size {
    } else {
      var n := if size - done > 256 then 256 else size - done;
      var at := (addr + done) % TWO64;
      var o := DmaWrite(at, n, h.writeOk(log, at, n));
      DispatchesAppend(log, o);
      if h.writeOk(log, at, n) {
        FillDispatches(h, log + [o], addr, size, done + n);
      }
    }
  }

  lemma CreateDispatches(s: State, req: seq<Word>)
    requires Shape(s)
    ensures Dispatches(CreateContext(s, req).state.log) == Dispatches(s.log)
  {
    hide Splice, StatusReply, CreateReply, Dispatches;
    DispatchesAppend(s.log, Created(FirstFree(s.ctx, 0), s.nextCtxId));
  }

  lemma EffectDispatches(h: Host, s: State, c: nat, f: Frame)
    requires Shape(s)
    ensures Dispatches(Effect(h, s, c, f).state.log) == Dispatches(s.log)
  {
    hide CreateContext, DestroyContext, MapHostBuffer, StatusReply, FillZeros, Dispatches;
    CreateDispatches(s, f.payload);
    PoolSpares(s, f.opcode, f.payload);
    DispatchesAppend(s.log, AsyncRegistered(c));
    if f.opcode == OP_QUERY_COL_STATUS && |f.payload| >= 5 {
      FillDispatches(h, s.log, U64(f.payload[0], f.payload[1]), f.payload[2], 0);
    }
  }

  lemma HandleDispatches(h: Host, s: State, c: nat, f: Frame)
    requires Shape(s)
    ensures Dispatches(Handle(h, s, c, f).log) == Dispatches(s.log)
  {
    hide Effect, Send, Dispatches;
    EffectDispatches(h, s, c, f);
    var o := Effect(h, s, c, f);
    if s.fwAlive && o.reply.Some? {
      var g := MakeFrame(f.id, f.opcode, o.reply.value);
      var r := Send(h, o.state, c, g);
      SendFields(h, o.state, c, g);
      var log1 := o.state.log + [Replied(c, g, r.ok)];
      DispatchesAppend(o.state.log, Replied(c, g, r.ok));
      DispatchesAppend(log1, Irq(c));
      assert log1 + [] == log1;
    }
  }

  // --- One look ---

  /** 1 if the reader still has a tombstone to pass. */
  function Laps(r: Ring): nat {
    if r.tail < r.head then 1 else 0
  }

  /** How many of the frames `q` lie before the tombstone the reader still has to pass; all of them if there is none. */
  ghost function Before(mem: seq<Word>, h: nat, t: nat, q: seq<Frame>): (k: nat)
    ensures k <= |q|
    decreases |q|
  {
    if h <= t || q == [] then |q|
    else if h < |mem| && mem[h] == TOMBSTONE then 0
    else 1 + Before(mem, h + Len(q[0]), t, q[1..])
  }

  /** How many frames `fuel` iterations dispatch: passing the tombstone takes one of them. */
  ghost function Reached(r: Ring, q: seq<Frame>, fuel: nat): (n: nat)
    ensures n <= |q|
  {
    if fuel <= Before(r.mem, r.head, r.tail, q) then fuel
    else if fuel - 1 < |q| then fuel - 1
    else |q|
  }

  lemma ReachedRewinds(r: Ring, q: seq<Frame>, fuel: nat)
    requires Holds(r, q) && q != [] && r.mem[r.head] == TOMBSTONE && r.tail < r.head && fuel > 0
    ensures Reached(r, q, fuel) == Reached(r.(head := 0), q, fuel - 1)
  {
  }

  lemma ReachedTakes(r: Ring, q: seq<Frame>, fuel: nat)
    requires Holds(r, q) && q != [] && r.mem[r.head] != TOMBSTONE && fuel > 0
    ensures Reached(r, q, fuel) == 1 + Reached(r.(head := r.head + Len(q[0])), q[1..], fuel - 1)
  {
    if r.head <= r.tail {
      SegBound(r.mem, r.head + Len(q[0]), r.tail, q[1..]);
    }
  }

  /** All of them exactly if the frames and the tombstone fit the iterations. */
  lemma {:induction false} BeforeTombstone(mem: seq<Word>, h: nat, t: nat, q: seq<Frame>)
    requires Chain(mem, h, t, q)
    ensures Before(mem, h, t, q) < |q| <==> t < h
    decreases |q|
  {
    hide FrameAt;
    if h <= t || mem[h] == TOMBSTONE {
    } else {
      ChainStays(mem, h, t, q);
      BeforeTombstone(mem, h + Len(q[0]), t, q[1..]);
    }
  }

  lemma ChainStays(mem: seq<Word>, h: nat, t: nat, q: seq<Frame>)
    requires Chain(mem, h, t, q) && t < h && mem[h] != TOMBSTONE
    ensures q != [] && t < h + Len(q[0]) && Chain(mem, h + Len(q[0]), t, q[1..])
  {
  }

  lemma ReachedAllIff(r: Ring, q: seq<Frame>, fuel: nat)
    requires Holds(r, q)
    ensures Reached(r, q, fuel) == |q| <==> |q| + Laps(r) <= fuel
  {
    BeforeTombstone(r.mem, r.head, r.tail, q);
  }

  /** At a tombstone the consumer rewinds to a ring that holds the same queue with no lap left. */
  lemma LookRewinds(r: Ring, q: seq<Frame>)
    requires Holds(r, q) && q != [] && r.mem[r.head] == TOMBSTONE
    ensures LookAt(r.mem, r.head) == Rewind
    ensures Holds(r.(head := 0), q) && Laps(r) == 1 && Laps(r.(head := 0)) == 0
  {
    if r.head <= r.tail {
      FrameAtWords(r.mem, r.head, q[0]);
    }
  }

  /** Otherwise it finds the oldest frame, and the rest of the queue behind it. */
  lemma LookTakes(r: Ring, q: seq<Frame>)
    requires Holds(r, q) && q != [] && r.mem[r.head] != TOMBSTONE
    requires q[0].payload != [] && 4 * |r.mem| <= CTX_RB_SIZE
    ensures LookAt(r.mem, r.head) == Message(q[0])
    ensures Holds(r.(head := r.head + Len(q[0])), q[1..]) && Laps(r.(head := r.head + Len(q[0]))) == Laps(r)
  {
    LookFindsFrame(r.mem, r.head, q[0]);
    if r.head <= r.tail {
      SegBound(r.mem, r.head + Len(q[0]), r.tail, q[1..]);
    }
  }

  lemma HoldsNothing(r: Ring)
    requires Holds(r, [])
    ensures r.head == r.tail
  {
  }

  lemma HoldsSomething(r: Ring, q: seq<Frame>)
    requires Holds(r, q) && q != []
    ensures r.head != r.tail
  {
  }

  /** Requests the driver may batch on channel `c`: payloads are not empty and none names the channel's own context. */
  predicate Batch(c: nat, own: Word, q: seq<Frame>) {
    forall i :: 0 <= i < |q| ==> q[i].payload != [] && Stays(c, own, q[i])
  }

  /** `rs` are the answers to `q`, in order; an accepted async registration has none. */
  predicate AnsweredBy(q: seq<Frame>, rs: seq<Frame>)
    decreases |q|
  {
    if q == [] then rs == []
    else if AsyncAccepted(q[0]) then AnsweredBy(q[1..], rs)
    else rs != [] && Answers(q[0], rs[0]) && AnsweredBy(q[1..], rs[1..])
  }

  /** Channel `c` is open and the driver's tail is a word position. */
  predicate Aligned(s: State, c: nat)
    requires Sized(s) && c < MAX_CHANNELS
  {
    s.chan[c].active && s.chan[c].x2iTail % 4 == 0
  }

  lemma RewoundRing(s: State, c: nat, q: seq<Frame>)
    requires Shape(s) && c < MAX_CHANNELS && Aligned(s, c) && Holds(X2i(s, c), q) && q != []
    requires X2i(s, c).mem[X2i(s, c).head] == TOMBSTONE
    ensures s.chan[c].x2iHead != s.chan[c].x2iTail && Peek(s, c) == Rewind
    ensures var t := Consumer.Rewound(s, c);
            Aligned(t, c) && X2i(t, c) == X2i(s, c).(head := 0)
            && Holds(X2i(t, c), q) && Laps(X2i(s, c)) == 1 && Laps(X2i(t, c)) == 0
  {
    LookRewinds(X2i(s, c), q);
    HoldsSomething(X2i(s, c), q);
  }

  lemma TakenRing(s: State, c: nat, q: seq<Frame>)
    requires Shape(s) && c < MAX_CHANNELS && Aligned(s, c) && Holds(X2i(s, c), q) && q != []
    requires X2i(s, c).mem[X2i(s, c).head] != TOMBSTONE && q[0].payload != []
    ensures s.chan[c].x2iHead != s.chan[c].x2iTail && Peek(s, c) == Message(q[0])
    ensures var t := Consumer.Taken(s, c, q[0]);
            Aligned(t, c) && X2i(t, c) == X2i(s, c).(head := X2i(s, c).head + Len(q[0]))
            && Holds(X2i(t, c), q[1..]) && Laps(X2i(t, c)) == Laps(X2i(s, c))
  {
    hide LookAt;
    LookTakes(X2i(s, c), q);
    HoldsSomething(X2i(s, c), q);
  }

  // --- The batch ---

  /** `t` is `s` after the first `n` frames of `q` were dispatched, the others still queued. */
  ghost predicate Drained(s: State, t: State, c: nat, q: seq<Frame>, n: nat)
    requires Shape(t) && c < MAX_CHANNELS && n <= |q|
  {
    && Aligned(t, c) && Holds(X2i(t, c), q[n..])
    && Dispatches(t.log) == Dispatches(s.log) + q[..n]
    && (n == |q| ==> t.chan[c].x2iHead == t.chan[c].x2iTail)
  }

  /**
    The consume loop dispatches the first n frames of the batch and offers their
    answers, in order, to the reply ring; n is as large as the iterations allow.
   */
  lemma {:induction false} DrainBatch(h: Host, s: State, c: nat, q: seq<Frame>, fuel: nat)
    returns (n: nat, rs: seq<Frame>)
    requires Sound(h, s) && c < MAX_CHANNELS && Aligned(s, c)
    requires Holds(X2i(s, c), q) && Batch(c, Owner(s, c), q)
    ensures n <= |q| && Drained(s, Consumer.Drain(h, s, c, fuel), c, q, n)
    ensures n == Reached(X2i(s, c), q, fuel)
    ensures n == |q| <==> |q| + Laps(X2i(s, c)) <= fuel
    ensures AnsweredBy(q[..n], rs) && Offered(s, Consumer.Drain(h, s, c, fuel), c, rs)
    decreases fuel
  {
    hide Holds, Handle, Peek, Dispatches, X2i, I2x, Books, Tally, Pairs, Numbered, Agree, Consumer.Taken, Reached;
    var r := X2i(s, c);
    ReachedAllIff(r, q, fuel);
    if q == [] || fuel == 0 {
      n, rs := 0, [];
      ReachedNone(r, q, fuel);
      DrainedNone(h, s, c, q, fuel);
    } else {
      RingReady(s, c, q);
      if r.mem[r.head] == TOMBSTONE {
        var t := Consumer.Rewound(s, c);
        RewoundRing(s, c, q);
        ReachedRewinds(r, q, fuel);
        RewoundReplies(s, c);
        I.SetChanKeeps(h, s, c, s.chan[c].(x2iHead := 0));
        n, rs := DrainBatch(h, t, c, q, fuel - 1);
      } else {
        n, rs := DrainMessage(h, s, c, q, fuel);
      }
    }
  }

  lemma ReachedNone(r: Ring, q: seq<Frame>, fuel: nat)
    requires q == [] || fuel == 0
    ensures Reached(r, q, fuel) == 0
  {
  }

  /** With nothing queued, or no iteration left, nothing happens. */
  lemma DrainedNone(h: Host, s: State, c: nat, q: seq<Frame>, fuel: nat)
    requires Shape(s) && c < MAX_CHANNELS && Aligned(s, c) && Holds(X2i(s, c), q) && (q == [] || fuel == 0)
    ensures Consumer.Drain(h, s, c, fuel) == s && Drained(s, s, c, q, 0)
    ensures AnsweredBy(q[..0], []) && Offered(s, s, c, [])
  {
    hide Holds, Dispatches, X2i, I2x;
    assert q[..0] == [] && Dispatches(s.log) + [] == Dispatches(s.log) && q[0..] == q;
    if q == [] {
      RingDrained(s, c);
    }
  }

  lemma {:induction false} DrainMessage(h: Host, s: State, c: nat, q: seq<Frame>, fuel: nat)
    returns (n: nat, rs: seq<Frame>)
    requires Sound(h, s) && c < MAX_CHANNELS && Aligned(s, c) && q != [] && fuel > 0
    requires Holds(X2i(s, c), q) && Batch(c, Owner(s, c), q) && X2i(s, c).mem[X2i(s, c).head] != TOMBSTONE
    ensures n <= |q| && Drained(s, Consumer.Drain(h, s, c, fuel), c, q, n)
    ensures n == Reached(X2i(s, c), q, fuel)
    ensures AnsweredBy(q[..n], rs) && Offered(s, Consumer.Drain(h, s, c, fuel), c, rs)
    decreases fuel, 0
  {
    hide Holds, Handle, Peek, Dispatches, X2i, I2x, Books, Pairs, Agree, OfferAll, AnsweredBy, Reached;
    var f, rest := q[0], q[1..];
    var first := TakeAndAnswer(h, s, c, q, fuel);
    var u := Handle(h, Consumer.Taken(s, c, f), c, f);
    var m, rest' := DrainBatch(h, u, c, rest, fuel - 1);
    n, rs := m + 1, first + rest';
    DrainedJoin(s, u, Consumer.Drain(h, u, c, fuel - 1), c, q, m);
    OfferedTrans(s, u, Consumer.Drain(h, u, c, fuel - 1), c, first, rest');
    assert [f] + rest[..m] == q[..n];
    AnswersJoin(f, rest[..m], first, rest');
  }

  /** One frame dispatched, then `m` more. */
  lemma DrainedJoin(s: State, u: State, t: State, c: nat, q: seq<Frame>, m: nat)
    requires Shape(t) && c < MAX_CHANNELS && q != [] && m < |q|
    requires Dispatches(u.log) == Dispatches(s.log) + [q[0]] && Drained(u, t, c, q[1..], m)
    ensures Drained(s, t, c, q, m + 1)
  {
    hide Holds, Dispatches, X2i;
    assert q[1..][m..] == q[m + 1..] && [q[0]] + q[1..][..m] == q[..m + 1];
    assert Dispatches(s.log) + [q[0]] + q[1..][..m] == Dispatches(s.log) + ([q[0]] + q[1..][..m]);
  }

  /** The oldest frame is taken and answered; the others stay queued. */
  lemma TakeAndAnswer(h: Host, s: State, c: nat, q: seq<Frame>, fuel: nat) returns (first: seq<Frame>)
    requires Sound(h, s) && c < MAX_CHANNELS && Aligned(s, c) && q != [] && fuel > 0
    requires Holds(X2i(s, c), q) && X2i(s, c).mem[X2i(s, c).head] != TOMBSTONE
    requires q[0].payload != [] && Stays(c, Owner(s, c), q[0])
    ensures s.chan[c].x2iHead != s.chan[c].x2iTail && Peek(s, c) == Message(q[0])
    ensures var u := Handle(h, Consumer.Taken(s, c, q[0]), c, q[0]);
            && Sound(h, u) && Aligned(u, c) && Holds(X2i(u, c), q[1..])
            && Reached(X2i(s, c), q, fuel) == 1 + Reached(X2i(u, c), q[1..], fuel - 1)
            && Owner(u, c) == Owner(s, c) && Dispatches(u.log) == Dispatches(s.log) + [q[0]]
            && AnsweredBy([q[0]], first) && Offered(s, u, c, first)
  {
    hide Holds, Handle, Peek, Dispatches, X2i, I2x, Books, Tally, Pairs, Numbered, Agree, OfferAll, AnsweredBy, Reached;
    var f := q[0];
    TakenRing(s, c, q);
    ReachedTakes(X2i(s, c), q, fuel);
    TakenSpares(s, c, f);
    var t := Consumer.Taken(s, c, f);
    I.TakenKeeps(h, s, c, f);
    HandleSparesX2i(h, t, c, f);
    I.HandleKeeps(h, t, c, f);
    DispatchesAppend(s.log, Dispatched(c, s.chan[c].x2iHead, f));
    HandleDispatches(h, t, c, f);
    first := OfferAnswer(h, s, c, f);
  }

  /** From `s` to `t`, channel `c` stayed open and its reply ring was offered `rs`. */
  predicate Offered(s: State, t: State, c: nat, rs: seq<Frame>)
    requires Shape(s) && Shape(t) && c < MAX_CHANNELS && s.chan[c].active
  {
    && t.chan[c].active && Owner(t, c) == Owner(s, c) && t.chan[c].i2xHead == s.chan[c].i2xHead
    && I2x(t, c) == OfferAll(I2x(s, c), rs)
  }

  lemma OfferedTrans(s: State, t: State, u: State, c: nat, a: seq<Frame>, b: seq<Frame>)
    requires Shape(s) && Shape(t) && Shape(u) && c < MAX_CHANNELS && s.chan[c].active
    requires Offered(s, t, c, a) && Offered(t, u, c, b)
    ensures Offered(s, u, c, a + b)
  {
    OfferAllConcat(I2x(s, c), a, b);
  }

  lemma AnswersJoin(f: Frame, q: seq<Frame>, first: seq<Frame>, rest: seq<Frame>)
    requires AnsweredBy([f], first) && AnsweredBy(q, rest)
    ensures AnsweredBy([f] + q, first + rest)
  {
    assert ([f] + q)[1..] == q && [f][1..] == [];
    if AsyncAccepted(f) {
      assert first + rest == rest;
    } else {
      assert first[1..] == [] && (first + rest)[1..] == rest;
    }
  }

  /** The answer to the one message just taken, if it is due one. */
  lemma OfferAnswer(h: Host, s: State, c: nat, f: Frame) returns (rs: seq<Frame>)
    requires Sound(h, s) && c < MAX_CHANNELS && Peek(s, c) == Message(f) && Stays(c, Owner(s, c), f)
    ensures s.chan[c].active
    ensures AnsweredBy([f], rs) && Offered(s, Handle(h, Consumer.Taken(s, c, f), c, f), c, rs)
  {
    hide Holds, Handle, Peek, X2i, I2x, Books, Tally, Pairs, Numbered, Agree, Offer;
    var t := Consumer.Taken(s, c, f);
    TakenSpares(s, c, f);
    I.TakenKeeps(h, s, c, f);
    assert [f][1..] == [];
    if AsyncAccepted(f) {
      rs := [];
      HandleDefers(h, t, c, f);
      HandleSparesX2i(h, t, c, f);
      assert Offered(s, Handle(h, t, c, f), c, rs);
    } else {
      var g := HandleOffers(h, t, c, f);
      HandleSparesX2i(h, t, c, f);
      rs := [g];
      assert rs[1..] == [];
      assert I2x(t, c) == I2x(s, c);
      assert OfferAll(I2x(s, c), rs) == Offer(I2x(s, c), g).ring;
      assert Offered(s, Handle(h, t, c, f), c, rs);
    }
  }

  /**
    A message that destroys the context behind its own channel closes it: the
    answer is refused, the loop stops, and nothing is written to any ring.
   */
  lemma OwnDestroyStops(h: Host, s: State, c: nat, f: Frame, fuel: nat)
    requires Sound(h, s) && 0 < c < MAX_CHANNELS && Peek(s, c) == Message(f)
    requires f.opcode == OP_DESTROY_CONTEXT && FindContext(s.ctx, f.payload[0], 0) == c - 1
    ensures var u := Handle(h, Consumer.Taken(s, c, f), c, f);
            && u.chan[c] == BlankChannel(c) && u.sram == s.sram
            && (exists g :: u.log == s.log + [Dispatched(c, s.chan[c].x2iHead, f)] + [Replied(c, g, false)])
            && Consumer.Drain(h, u, c, fuel) == u
  {
    hide Books, Tally, Pairs, Numbered, Agree, Peek, DestroyContext, Effect, Consumer.Taken;
    var t := Consumer.Taken(s, c, f);
    TakenSpares(s, c, f);
    I.TakenKeeps(h, s, c, f);
    TakenMemory(s, c, f);
    OwnDestroyEffect(h, t, c, f);
    var o := Effect(h, t, c, f);
    var g := MakeFrame(f.id, f.opcode, o.reply.value);
    assert Handle(h, t, c, f) == Send(h, o.state, c, g).state;
    assert t.log + [Replied(c, g, false)] == s.log + [Dispatched(c, s.chan[c].x2iHead, f)] + [Replied(c, g, false)];
  }

  lemma TakenMemory(s: State, c: nat, f: Frame)
    requires Shape(s) && c < MAX_CHANNELS && Peek(s, c) == Message(f)
    ensures Consumer.Taken(s, c, f).sram == s.sram && f.payload != []
  {
    LookInside(X2i(s, c).mem, X2i(s, c).head);
  }

  lemma OwnDestroyEffect(h: Host, t: State, c: nat, f: Frame)
    requires Inv(t) && 0 < c < MAX_CHANNELS && t.chan[c].active
    requires f.opcode == OP_DESTROY_CONTEXT && f.payload != [] && FindContext(t.ctx, f.payload[0], 0) == c - 1
    ensures var o := Effect(h, t, c, f);
            o.reply.Some? && o.state.chan[c] == BlankChannel(c) && o.state.sram == t.sram && o.state.log == t.log
  {
    hide Agree, StatusReply, DestroyContext;
    assert Effect(h, t, c, f) == DestroyContext(t, f.payload);
    DestroyCloses(t, f.payload, c);
    PoolSpares(t, f.opcode, f.payload);
    ReplyIsExact(h, t, c, f);
  }

  lemma TakenSpares(v: State, c: nat, f: Frame)
    requires Shape(v) && c < MAX_CHANNELS && Peek(v, c) == Message(f)
    ensures v.chan[c].active
    ensures var t := Consumer.Taken(v, c, f);
            && I2x(t, c) == I2x(v, c) && t.stats == v.stats.(msgsIn := v.stats.msgsIn + 1)
            && t.chan[c] == v.chan[c].(x2iHead := v.chan[c].x2iHead + 4 * Len(f))
            && t.log == v.log + [Dispatched(c, v.chan[c].x2iHead, f)] && t.ctx == v.ctx
  {
    Consumer.PeekInside(v, c);
  }

  lemma RewoundReplies(s: State, c: nat)
    requires Shape(s) && c < MAX_CHANNELS
    ensures var t := Consumer.Rewound(s, c);
            && I2x(t, c) == I2x(s, c) && Owner(t, c) == Owner(s, c) && t.chan[c].active == s.chan[c].active
            && t.chan[c].i2xHead == s.chan[c].i2xHead && t.log == s.log
  {
  }

  lemma RingDrained(s: State, c: nat)
    requires Shape(s) && c < MAX_CHANNELS && Aligned(s, c) && Holds(X2i(s, c), [])
    ensures s.chan[c].x2iHead == s.chan[c].x2iTail && Laps(X2i(s, c)) == 0
  {
    HoldsNothing(X2i(s, c));
  }

  lemma RingReady(s: State, c: nat, q: seq<Frame>)
    requires Shape(s) && c < MAX_CHANNELS && Holds(X2i(s, c), q)
    ensures X2i(s, c).head < |X2i(s, c).mem|
  {
  }

  /**
    A tail write on channel `c` dispatches a well-formed batch in FIFO order and
    leaves head equal to tail exactly when the batch and its tombstone take at
    most 256 looks; otherwise it stops inside the batch, with the rest queued.
    The answers go to the reply ring in order.
   */
  lemma TailWriteDrains(h: Host, s: State, c: nat, q: seq<Frame>, val: Word) returns (n: nat, rs: seq<Frame>)
    requires Sound(h, s) && c < MAX_CHANNELS && s.chan[c].active && val % 4 == 0
    requires Holds(X2i(SetChan(s, c, s.chan[c].(x2iTail := val)), c), q) && Batch(c, Owner(s, c), q)
    ensures var t := Consumer.RegWrite(h, s, c * CHAN_STRIDE + X2I_TAIL_OFF, val);
            var laps := Laps(X2i(SetChan(s, c, s.chan[c].(x2iTail := val)), c));
            && n <= |q| && Drained(s, t, c, q, n)
            && n == Reached(X2i(SetChan(s, c, s.chan[c].(x2iTail := val)), c), q, 256)
            && (n == |q| <==> |q| + laps <= 256)
            && AnsweredBy(q[..n], rs) && Offered(s, t, c, rs)
  {
    hide Consumer.Drain, Holds, X2i, Books, Tally, Pairs, Numbered, Agree, Dispatches;
    var t := SetChan(s, c, s.chan[c].(x2iTail := val));
    I.SetChanKeeps(h, s, c, s.chan[c].(x2iTail := val));
    n, rs := DrainBatch(h, t, c, q, MAX_MSG_PER_KICK);
    var off: Word := c * CHAN_STRIDE + X2I_TAIL_OFF;
    assert off / CHAN_STRIDE == c && off % CHAN_STRIDE == X2I_TAIL_OFF;
  }

  /** On the management ring a tail write always dispatches and answers the whole batch. */
  lemma MgmtTailWriteDrains(h: Host, s: State, q: seq<Frame>, val: Word) returns (rs: seq<Frame>)
    requires Sound(h, s) && s.chan[0].active && val % 4 == 0
    requires Holds(X2i(SetChan(s, 0, s.chan[0].(x2iTail := val)), 0), q)
    requires forall i :: 0 <= i < |q| ==> q[i].payload != []
    ensures var t := Consumer.RegWrite(h, s, X2I_TAIL_OFF, val);
            && t.chan[0].x2iHead == t.chan[0].x2iTail && Dispatches(t.log) == Dispatches(s.log) + q
            && AnsweredBy(q, rs) && Offered(s, t, 0, rs)
  {
    hide Holds, X2i, I2x, Books, Pairs, Agree, Dispatches, Consumer.RegWrite;
    MgmtBatchFits(SetChan(s, 0, s.chan[0].(x2iTail := val)), q);
    var n;
    n, rs := TailWriteDrains(h, s, 0, q, val);
    assert q[..n] == q;
  }

  /** The words the answers to `q` take. */
  function AnswerWords(q: seq<Frame>): nat {
    if q == [] then 0
    else (if AsyncAccepted(q[0]) then 0 else 4 + RespSize(q[0].opcode) / 4) + AnswerWords(q[1..])
  }

  lemma {:induction false} AnswerLengths(q: seq<Frame>, rs: seq<Frame>)
    requires AnsweredBy(q, rs)
    ensures Words(rs) == AnswerWords(q)
    decreases |q|
  {
    if q == [] {
    } else {
      AnswerLengths(q[1..], if AsyncAccepted(q[0]) then rs else rs[1..]);
    }
  }

  /**
    What the reply queue of a channel is after a batch. While the driver's head
    is 0 it gains all the answers exactly if they fit behind the tail; once the
    head has moved it gains those that were accepted.
   */
  lemma BatchRepliesIff(h: Host, s: State, c: nat, q: seq<Frame>, p: seq<Frame>, fuel: nat)
    returns (n: nat, rs: seq<Frame>)
    requires Sound(h, s) && c < MAX_CHANNELS && Aligned(s, c)
    requires Holds(X2i(s, c), q) && Batch(c, Owner(s, c), q) && Holds(I2x(s, c), p)
    ensures var t := Consumer.Drain(h, s, c, fuel);
            && n <= |q| && Drained(s, t, c, q, n) && (n == |q| <==> |q| + Laps(X2i(s, c)) <= fuel)
            && AnsweredBy(q[..n], rs)
            && (s.chan[c].i2xHead == 0 ==>
                  (Holds(I2x(t, c), p + rs) <==> s.chan[c].i2xTail / 4 + AnswerWords(q[..n]) <= RingSize(c) / 4 - 1))
            && (s.chan[c].i2xHead > 0 ==> Holds(I2x(t, c), p + Kept(I2x(s, c), rs)))
  {
    hide Holds, X2i, Books, Pairs, Agree, Consumer.Drain, Drained, OfferAll, Kept;
    n, rs := DrainBatch(h, s, c, q, fuel);
    AnswerLengths(q[..n], rs);
    var r := I2x(s, c);
    if r.head == 0 {
      OfferAllFromZero(r, p, rs);
    } else {
      OfferAllKeepsFifo(r, p, rs);
    }
  }

  /** On the 4 KiB management ring no batch is too long: the guard never trips. */
  lemma MgmtBatchFits(s: State, q: seq<Frame>)
    requires Shape(s) && Holds(X2i(s, 0), q)
    requires forall i :: 0 <= i < |q| ==> q[i].payload != []
    ensures |q| <= 204 && |q| + Laps(X2i(s, 0)) <= 256
  {
    ChainBound(X2i(s, 0).mem, X2i(s, 0).head, X2i(s, 0).tail, q);
  }

  /** Frames with a payload take at least five words each. */
  lemma {:induction false} ChainBound(mem: seq<Word>, h: nat, t: nat, q: seq<Frame>)
    requires Chain(mem, h, t, q) && h < |mem| && t < |mem|
    requires forall i :: 0 <= i < |q| ==> q[i].payload != []
    ensures h <= t ==> h + 5 * |q| <= t
    ensures t < h ==> 5 * |q| <= |mem| - 1 - h + t
    decreases |q|
  {
    if h <= t {
      SegBound(mem, h, t, q);
    } else if mem[h] == TOMBSTONE {
      SegBound(mem, 0, t, q);
    } else {
      ChainBound(mem, h + Len(q[0]), t, q[1..]);
    }
  }

  /** `n` copies of a frame, packed. */
  function Pack(f: Frame, n: nat): (ws: seq<Word>)
    requires Encodable(f)
    ensures |ws| == n * Len(f)
  {
    if n == 0 then [] else Encode(f) + Pack(f, n - 1)
  }

  lemma PackSlices(mem: seq<Word>, lo: nat, m: nat, rest: nat, a: seq<Word>, b: seq<Word>)
    requires lo + m + rest <= |mem| && |a| == m && |b| == rest && mem[lo..lo + (m + rest)] == a + b
    ensures mem[lo..lo + m] == a && mem[lo + m..lo + m + rest] == b
  {
    var all := mem[lo..lo + (m + rest)];
    assert mem[lo..lo + m] == all[..m] && mem[lo + m..lo + m + rest] == all[m..];
  }

  lemma {:induction false} PackHolds(mem: seq<Word>, lo: nat, f: Frame, n: nat)
    requires Encodable(f) && lo + n * Len(f) <= |mem| && mem[lo..lo + n * Len(f)] == Pack(f, n)
    ensures Seg(mem, lo, lo + n * Len(f), seq(n, _ => f))
    decreases n
  {
    hide Encode;
    if n == 0 {
    } else {
      var q := seq(n, _ => f);
      var m := Len(f);
      var rest := (n - 1) * m;
      assert n * m == m + rest;
      PackSlices(mem, lo, m, rest, Encode(f), Pack(f, n - 1));
      PackHolds(mem, lo + m, f, n - 1);
      assert q[1..] == seq(n - 1, _ => f) && q[0] == f;
    }
  }
}
