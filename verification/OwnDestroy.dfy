/**
  Batches that destroy the context behind their own channel: what is dispatched,
  what is answered, and that the channel is closed in the middle of its drain.
 */
module OwnDestroy {
  import opened Regs
  import opened Ring
  import opened RingOffers
  import opened NpuState
  import opened Mailbox
  import opened Mert
  import opened Ledger
  import opened Soundness
  import opened Pool
  import opened Traffic
  import opened BatchDrain
  import ContextPool
  import Consumer
  import I = Invariant

  /** The first frame of `q` that asks to destroy the context `own` behind channel `c`. */
  function FirstOwn(c: nat, own: Word, q: seq<Frame>): (k: nat)
    ensures k <= |q|
    ensures forall i :: 0 <= i < k ==> Stays(c, own, q[i])
    ensures k < |q| ==> !Stays(c, own, q[k])
  {
    if q == [] || !Stays(c, own, q[0]) then 0 else 1 + FirstOwn(c, own, q[1..])
  }

  /** From `s` to `t` the frames up to the k-th were dispatched, those before it answered, and it closed the channel. */
  ghost predicate Closed(s: State, t: State, c: nat, q: seq<Frame>, k: nat, rs: seq<Frame>)
    requires Shape(s) && Shape(t) && c < MAX_CHANNELS && s.chan[c].active && k < |q|
  {
    && t.chan[c] == BlankChannel(c)
    && Dispatches(t.log) == Dispatches(s.log) + q[..k + 1]
    && AnsweredBy(q[..k], rs)
    && RingMem(t.sram, I2xBase(c), RingSize(c)) == OfferAll(I2x(s, c), rs).mem
    && t.log != [] && t.log[|t.log| - 1].Replied? && !t.log[|t.log| - 1].accepted
  }

  /** While ids have not wrapped, a request that names the channel's own context resolves to its slot. */
  lemma OwnResolves(s: State, c: nat, f: Frame)
    requires Inv(s) && c < MAX_CHANNELS && s.chan[c].active && !Stays(c, Owner(s, c), f)
    requires IdsOk(s.ctx, CreatedCount(s)) && CreatedCount(s) < TWO32
    ensures c > 0 && f.opcode == OP_DESTROY_CONTEXT && f.payload != [] && FindContext(s.ctx, f.payload[0], 0) == c - 1
  {
    hide Tally;
    assert s.chan[c - 1 + 1].active <==> s.ctx[c - 1].valid;
  }

  lemma OwnCloses(h: Host, s: State, c: nat, q: seq<Frame>, fuel: nat)
    requires Sound(h, s) && c < MAX_CHANNELS && Aligned(s, c) && q != [] && fuel > 0
    requires s.chan[c].x2iHead != s.chan[c].x2iTail && Peek(s, c) == Message(q[0])
    requires !Stays(c, Owner(s, c), q[0]) && IdsOk(s.ctx, CreatedCount(s)) && CreatedCount(s) < TWO32
    ensures Closed(s, Consumer.Drain(h, s, c, fuel), c, q, 0, [])
  {
    hide Handle, Peek, Dispatches, Books, Tally, Pairs, Numbered, Agree, FindContext, IdsOk;
    var f := q[0];
    OwnResolves(s, c, f);
    OwnDestroyStops(h, s, c, f, fuel - 1);
    var u := Handle(h, Consumer.Taken(s, c, f), c, f);
    var o := Dispatched(c, s.chan[c].x2iHead, f);
    var g :| u.log == s.log + [o] + [Replied(c, g, false)];
    DispatchesAppend(s.log, o);
    DispatchesAppend(s.log + [o], Replied(c, g, false));
    assert Dispatches(s.log) + [f] + [] == Dispatches(s.log) + [f] && q[..1] == [f] && q[..0] == [];
    assert Consumer.Drain(h, s, c, fuel) == u;
  }

  lemma ClosedJoin(s: State, u: State, t: State, c: nat, q: seq<Frame>, k: nat, first: seq<Frame>, rs: seq<Frame>)
    requires Shape(s) && Shape(u) && Shape(t) && c < MAX_CHANNELS && s.chan[c].active && q != [] && k + 1 < |q|
    requires Offered(s, u, c, first) && AnsweredBy([q[0]], first)
    requires Dispatches(u.log) == Dispatches(s.log) + [q[0]] && Closed(u, t, c, q[1..], k, rs)
    ensures Closed(s, t, c, q, k + 1, first + rs)
  {
    hide Dispatches, I2x, I2xBase, RingSize, AnsweredBy, OfferAll, ChanOk;
    OfferAllConcat(I2x(s, c), first, rs);
    AnswersJoin(q[0], q[1..][..k], first, rs);
    assert [q[0]] + q[1..][..k] == q[..k + 1] && [q[0]] + q[1..][..k + 1] == q[..k + 2];
    assert Dispatches(s.log) + [q[0]] + q[1..][..k + 1] == Dispatches(s.log) + ([q[0]] + q[1..][..k + 1]);
  }

  /** What the consume loop makes of the batch: it ends inside, behind, or at the frame that closes the channel. */
  ghost predicate Outcome(s: State, t: State, c: nat, q: seq<Frame>, fuel: nat, rs: seq<Frame>)
    requires Shape(s) && Shape(t) && c < MAX_CHANNELS && s.chan[c].active
  {
    var n, k := Reached(X2i(s, c), q, fuel), FirstOwn(c, Owner(s, c), q);
    if k < n then Closed(s, t, c, q, k, rs)
    else Drained(s, t, c, q, n) && AnsweredBy(q[..n], rs) && Offered(s, t, c, rs)
  }

  /**
    Any batch of frames with payloads, on any channel: if the k-th frame is the
    first to name the channel's own context and the iterations reach it, exactly
    the first k + 1 frames are dispatched, the first k answered, and the channel
    is closed with the last answer refused; otherwise as many frames are
    dispatched and answered as the iterations reach.
   */
  lemma {:induction false} DrainAnyBatch(h: Host, s: State, c: nat, q: seq<Frame>, fuel: nat) returns (rs: seq<Frame>)
    requires Sound(h, s) && c < MAX_CHANNELS && Aligned(s, c) && Holds(X2i(s, c), q)
    requires forall i :: 0 <= i < |q| ==> q[i].payload != []
    requires IdsOk(s.ctx, CreatedCount(s)) && CreatedCount(Consumer.Drain(h, s, c, fuel)) < TWO32
    ensures Outcome(s, Consumer.Drain(h, s, c, fuel), c, q, fuel, rs)
    decreases fuel
  {
    hide Holds, Handle, Peek, Dispatches, X2i, I2x, Books, Tally, Pairs, Numbered, Agree, Consumer.Taken, Reached;
    hide IdsOk, Closed, Stays, Drained, AnsweredBy, Offered;
    var r := X2i(s, c);
    if q == [] || fuel == 0 {
      rs := [];
      ReachedNone(r, q, fuel);
      DrainedNone(h, s, c, q, fuel);
    } else {
      RingReady(s, c, q);
      if r.mem[r.head] == TOMBSTONE {
        RewoundRing(s, c, q);
        ReachedRewinds(r, q, fuel);
        RewoundReplies(s, c);
        I.SetChanKeeps(h, s, c, s.chan[c].(x2iHead := 0));
        rs := DrainAnyBatch(h, Consumer.Rewound(s, c), c, q, fuel - 1);
        RewoundOutcome(s, Consumer.Drain(h, s, c, fuel), c, q, fuel, rs);
      } else {
        rs := DrainAnyMessage(h, s, c, q, fuel);
      }
    }
  }

  lemma RewoundOutcome(s: State, t: State, c: nat, q: seq<Frame>, fuel: nat, rs: seq<Frame>)
    requires Shape(s) && Shape(t) && c < MAX_CHANNELS && s.chan[c].active && fuel > 0
    requires Outcome(Consumer.Rewound(s, c), t, c, q, fuel - 1, rs)
    requires Reached(X2i(s, c), q, fuel) == Reached(X2i(Consumer.Rewound(s, c), c), q, fuel - 1)
    ensures Outcome(s, t, c, q, fuel, rs)
  {
    hide Reached, X2i, I2x, Holds, Dispatches;
    RewoundReplies(s, c);
  }

  lemma {:induction false} DrainAnyMessage(h: Host, s: State, c: nat, q: seq<Frame>, fuel: nat) returns (rs: seq<Frame>)
    requires Sound(h, s) && c < MAX_CHANNELS && Aligned(s, c) && q != [] && fuel > 0
    requires Holds(X2i(s, c), q) && X2i(s, c).mem[X2i(s, c).head] != TOMBSTONE
    requires forall i :: 0 <= i < |q| ==> q[i].payload != []
    requires IdsOk(s.ctx, CreatedCount(s)) && CreatedCount(Consumer.Drain(h, s, c, fuel)) < TWO32
    ensures Outcome(s, Consumer.Drain(h, s, c, fuel), c, q, fuel, rs)
    decreases fuel, 0
  {
    hide Holds, Handle, Peek, Dispatches, X2i, I2x, Books, Tally, Pairs, Numbered, Agree, Consumer.Taken, Reached;
    hide IdsOk, PoolStep, Closed, Stays, Drained, AnsweredBy, Offered, OfferAll;
    TakenRing(s, c, q);
    ReachedTakes(X2i(s, c), q, fuel);
    ContextPool.DrainPool(h, s, c, fuel);
    ContextPool.CountMonotone(s, Consumer.Drain(h, s, c, fuel));
    if !Stays(c, Owner(s, c), q[0]) {
      rs := [];
      OwnCloses(h, s, c, q, fuel);
    } else {
      var first := TakeAndAnswer(h, s, c, q, fuel);
      var u := Handle(h, Consumer.Taken(s, c, q[0]), c, q[0]);
      OneStepPool(h, s, u, c, q[0]);
      var rest := DrainAnyBatch(h, u, c, q[1..], fuel - 1);
      rs := first + rest;
      JoinOutcome(s, u, Consumer.Drain(h, u, c, fuel - 1), c, q, fuel, first, rest);
    }
  }

  lemma OneStepPool(h: Host, s: State, u: State, c: nat, f: Frame)
    requires Sound(h, s) && c < MAX_CHANNELS && s.chan[c].x2iHead != s.chan[c].x2iTail && Peek(s, c) == Message(f)
    requires u == Handle(h, Consumer.Taken(s, c, f), c, f) && IdsOk(s.ctx, CreatedCount(s))
    ensures IdsOk(u.ctx, CreatedCount(u))
  {
    hide Handle, Peek, Tally, IdsOk, Evolves, Consumer.Taken;
    ContextPool.DrainPool(h, s, c, 1);
    assert Consumer.Drain(h, s, c, 1) == u;
  }

  lemma JoinOutcome(s: State, u: State, t: State, c: nat, q: seq<Frame>, fuel: nat, first: seq<Frame>, rest: seq<Frame>)
    requires Shape(s) && Shape(u) && Shape(t) && c < MAX_CHANNELS && s.chan[c].active && q != [] && fuel > 0
    requires Stays(c, Owner(s, c), q[0]) && Offered(s, u, c, first) && AnsweredBy([q[0]], first)
    requires Dispatches(u.log) == Dispatches(s.log) + [q[0]]
    requires Reached(X2i(s, c), q, fuel) == 1 + Reached(X2i(u, c), q[1..], fuel - 1)
    requires Outcome(u, t, c, q[1..], fuel - 1, rest)
    ensures Outcome(s, t, c, q, fuel, first + rest)
  {
    hide Reached, X2i, I2x, Dispatches, Drained, Closed, AnsweredBy, OfferAll, Stays;
    var n, k := Reached(X2i(u, c), q[1..], fuel - 1), FirstOwn(c, Owner(u, c), q[1..]);
    if k < n {
      ClosedJoin(s, u, t, c, q, k, first, rest);
    } else {
      DrainedJoin(s, u, t, c, q, n);
      OfferedTrans(s, u, t, c, first, rest);
      assert [q[0]] + q[1..][..n] == q[..n + 1];
      AnswersJoin(q[0], q[1..][..n], first, rest);
    }
  }
}
