/**
  A driver that pipelines: it submits requests and collects replies in any
  order, leaving replies in the ring. When that is first-in first-out.
 */
module Pipeline {
  import opened Regs
  import opened Ring
  import opened RingFifo
  import opened RingOffers
  import opened NpuState
  import opened Mailbox
  import opened Mert
  import opened Ledger
  import opened Soundness
  import opened Traffic
  import opened BatchDrain
  import opened LockstepModel
  import L = Lockstep
  import I = Invariant
  import Consumer

  datatype Act = Ask(op: Word, req: seq<Word>) | Take

  /** The last thing observed other than an interrupt. */
  function LastSeen(log: seq<Obs>): Option<Obs> {
    if log == [] then None
    else if log[|log| - 1].Irq? then LastSeen(log[..|log| - 1])
    else Some(log[|log| - 1])
  }

  lemma LastSeenAppend(log: seq<Obs>, o: Obs, irq: bool, c: nat)
    requires !o.Irq?
    ensures LastSeen(log + [o] + if irq then [Irq(c)] else []) == Some(o)
  {
    assert (log + [o] + [Irq(c)])[..|log| + 1] == log + [o];
  }

  datatype Answer = Deferred | Queued(g: Frame) | Refused(g: Frame)

  /** How the message just handled was answered. */
  function Seen(log: seq<Obs>): Answer {
    var o := LastSeen(log);
    if o.None? || !o.value.Replied? then Deferred
    else if o.value.accepted then Queued(o.value.frame)
    else Refused(o.value.frame)
  }

  /** The abstract reply queue after an answer. */
  function After(q: seq<Frame>, a: Answer): seq<Frame> {
    if a.Queued? then q + [a.g] else q
  }

  // --- One submission ---

  /**
    A submission by a linked driver is always accepted and dispatched; its
    answer, if it is due one, is offered to the reply ring.
   */
  lemma AskStep(h: Host, s: State, d: Drv, c: nat, f: Frame)
    requires Sound(h, s) && c < MAX_CHANNELS && Linked(s, d, c) && Sendable(c, Owner(s, c), f)
    ensures Ready(RequestRing(s, d, c)) && Len(f) <= Usable(RequestRing(s, d, c)) && Ready(I2x(s, c))
    ensures var b := Submit(h, s, d, c, f);
            && b.ok && Sound(h, b.state) && Linked(b.state, b.drv, c) && Owner(b.state, c) == Owner(s, c)
            && Dispatches(b.state.log) == Dispatches(s.log) + [f]
            && b.drv.i2xHead == d.i2xHead && b.drv.nextId == Add32(d.nextId, 1)
            && var a := Seen(b.state.log);
               && (a.Deferred? <==> AsyncAccepted(f))
               && (a.Deferred? ==> I2x(b.state, c) == I2x(s, c))
               && (!a.Deferred? ==>
                     && Answers(f, a.g) && a.Queued? == Offer(I2x(s, c), a.g).accepted
                     && I2x(b.state, c) == Offer(I2x(s, c), a.g).ring)
  {
    hide Holds, Handle, Effect, Send, Offer, Peek, Submit, Consumer.Drain, Consumer.Taken;
    hide Books, Tally, Pairs, Numbered, Agree, Dispatches, X2i, Verdict, LastSeen;
    var u := L.SubmitQueues(h, s, d, c, f);
    var v := L.DrainOne(h, u, c, f);
    var t := Consumer.Taken(v, c, f);
    I.TakenKeeps(h, v, c, f);
    TakenSpares(v, c, f);
    I.HandleKeeps(h, t, c, f);
    DispatchesAppend(v.log, Dispatched(c, v.chan[c].x2iHead, f));
    HandleDispatches(h, t, c, f);
    HandleSparesX2i(h, t, c, f);
    if AsyncAccepted(f) {
      HandleDefers(h, t, c, f);
      LastSeenAppend(t.log, AsyncRegistered(c), false, c);
      assert t.log + [AsyncRegistered(c)] + [] == t.log + [AsyncRegistered(c)];
    } else {
      var g := HandleOffers(h, t, c, f);
      var ok := Offer(I2x(t, c), g).accepted;
      LastSeenAppend(Effect(h, t, c, f).state.log, Replied(c, g, ok), ok && h.hasIrq, c);
    }
  }

  /** Requests the driver may place in any state of the run. */
  ghost predicate MayAct(c: nat, own: Word, acts: seq<Act>) {
    forall i, id: Word :: 0 <= i < |acts| && acts[i].Ask? ==> Sendable(c, own, MakeFrame(id, acts[i].op, acts[i].req))
  }

  lemma MayActFirst(c: nat, own: Word, acts: seq<Act>, d: Drv)
    requires MayAct(c, own, acts) && acts != []
    ensures acts[0].Ask? ==> Sendable(c, own, RequestFrame(d, acts[0].op, acts[0].req))
    ensures MayAct(c, own, acts[1..])
  {
    hide Sendable;
    forall i, id: Word | 0 <= i < |acts[1..]| && acts[1..][i].Ask?
      ensures Sendable(c, own, MakeFrame(id, acts[1..][i].op, acts[1..][i].req))
    {
      assert Sendable(c, own, MakeFrame(id, acts[i + 1].op, acts[i + 1].req));
    }
  }

  // --- Runs ---

  /** A request submitted by a linked driver. */
  ghost function Asked(h: Host, s: State, d: Drv, c: nat, op: Word, req: seq<Word>): (b: Submitted)
    requires Sound(h, s) && c < MAX_CHANNELS && Linked(s, d, c)
    requires Sendable(c, Owner(s, c), RequestFrame(d, op, req))
    ensures Sound(h, b.state) && Linked(b.state, b.drv, c) && Owner(b.state, c) == Owner(s, c)
  {
    AskStep(h, s, d, c, RequestFrame(d, op, req));
    Submit(h, s, d, c, RequestFrame(d, op, req))
  }

  /** The oldest of the waiting replies `q` collected. */
  ghost function Took(h: Host, s: State, d: Drv, c: nat, q: seq<Frame>): (e: Collected)
    requires Carrying(h, s, d, c, q)
    ensures Carrying(h, e.state, e.drv, c, Rest(q)) && Owner(e.state, c) == Owner(s, c)
  {
    L.CollectTakes(h, s, d, c, q);
    Collect(s, d, c)
  }

  function Rest(q: seq<Frame>): seq<Frame> {
    if q == [] then [] else q[1..]
  }

  /**
    Every step of the run is a step of the abstract reply queue: a submission is
    accepted, dispatched and answered at the back of the queue (or its answer is
    refused, or it is due none), a collection gets the oldest reply or nothing.
   */
  ghost predicate Fifo(h: Host, s: State, d: Drv, c: nat, q: seq<Frame>, acts: seq<Act>)
    requires c < MAX_CHANNELS && Sound(h, s) && MayAct(c, Owner(s, c), acts)
    decreases |acts|
  {
    && Carrying(h, s, d, c, q)
    && (acts != [] ==>
          && MayAct(c, Owner(s, c), acts[1..])
          && match acts[0]
             case Ask(op, req) =>
               && Sendable(c, Owner(s, c), RequestFrame(d, op, req))
               && var b, f := Asked(h, s, d, c, op, req), RequestFrame(d, op, req);
                  && FifoAsk(s, b, f)
                  && Fifo(h, b.state, b.drv, c, After(q, Seen(b.state.log)), acts[1..])
             case Take =>
               var e := Took(h, s, d, c, q);
               && (e.got.Got? <==> q != []) && (q != [] ==> e.got.frame == q[0])
               && Fifo(h, e.state, e.drv, c, Rest(q), acts[1..]))
  }

  /** The submission was accepted, its request dispatched, and what was seen of an answer answers it. */
  predicate FifoAsk(s: State, b: Submitted, f: Frame) {
    && b.ok
    && Dispatches(b.state.log) == Dispatches(s.log) + [f]
    && var a := Seen(b.state.log);
       (a.Deferred? <==> AsyncAccepted(f)) && (!a.Deferred? ==> Answers(f, a.g))
  }

  /** Words of answers asked for before the first collection that finds something, given `sent` so far. */
  function Burst(acts: seq<Act>, sent: nat): nat {
    if acts == [] then sent
    else match acts[0]
      case Ask(op, req) => Burst(acts[1..], sent + AnswerLen(op, req))
      case Take => if sent > 0 then sent else Burst(acts[1..], 0)
  }

  function AnswerLen(op: Word, req: seq<Word>): nat {
    if op == OP_REGISTER_ASYNC_EVENT && |req| >= 3 then 0 else 4 + RespSize(op) / 4
  }

  lemma {:induction false} BurstGrows(acts: seq<Act>, sent: nat)
    ensures Burst(acts, sent) >= sent
    decreases |acts|
  {
    if acts == [] {
    } else {
      match acts[0]
      case Ask(op, req) => BurstGrows(acts[1..], sent + AnswerLen(op, req));
      case Take => if sent == 0 { BurstGrows(acts[1..], 0); }
    }
  }

  /** An answer that does not overrun is queued or refused. */
  lemma AskQueues(h: Host, s: State, d: Drv, c: nat, q: seq<Frame>, op: Word, req: seq<Word>)
    requires Carrying(h, s, d, c, q) && Sendable(c, Owner(s, c), RequestFrame(d, op, req))
    requires !(s.chan[c].i2xHead == 0 && s.chan[c].i2xTail / 4 + AnswerLen(op, req) > RingSize(c) / 4 - 1)
    ensures var b := Asked(h, s, d, c, op, req);
            && FifoAsk(s, b, RequestFrame(d, op, req)) && b.state.chan[c].i2xHead == s.chan[c].i2xHead
            && (s.chan[c].i2xHead == 0 ==> b.state.chan[c].i2xTail / 4 == s.chan[c].i2xTail / 4 + AnswerLen(op, req))
            && Carrying(h, b.state, b.drv, c, After(q, Seen(b.state.log)))
  {
    hide Holds, Submit, Offer, Books, Tally, Pairs, Numbered, Agree, Dispatches, Seen;
    var f := RequestFrame(d, op, req);
    AskStep(h, s, d, c, f);
    var a := Seen(Submit(h, s, d, c, f).state.log);
    if !a.Deferred? {
      OfferAppends(I2x(s, c), q, a.g);
      if s.chan[c].i2xHead == 0 {
        SendFromZero(I2x(s, c), q, a.g);
      }
    }
  }

  /** An answer that overruns destroys what was waiting. */
  lemma AskOverruns(h: Host, s: State, d: Drv, c: nat, q: seq<Frame>, op: Word, req: seq<Word>)
    requires Carrying(h, s, d, c, q) && Sendable(c, Owner(s, c), RequestFrame(d, op, req))
    requires s.chan[c].i2xHead == 0 && s.chan[c].i2xTail / 4 + AnswerLen(op, req) > RingSize(c) / 4 - 1
    ensures var b := Asked(h, s, d, c, op, req);
            && q != [] && Seen(b.state.log).Queued?
            && Carrying(h, b.state, b.drv, c, [Seen(b.state.log).g])
            && !Carrying(h, b.state, b.drv, c, After(q, Seen(b.state.log)))
  {
    hide Holds, Submit, Books, Tally, Pairs, Numbered, Agree, Dispatches, Seen;
    var f := RequestFrame(d, op, req);
    AskStep(h, s, d, c, f);
    var g := Seen(Submit(h, s, d, c, f).state.log).g;
    PutOverruns(I2x(s, c), q, g);
    PutIsFifoIff(I2x(s, c), q, g);
  }

  /**
    A collection gets exactly the oldest reply; one that finds something moves
    the head off 0, and one that does not leaves both positions at 0 there.
   */
  lemma TookMoves(h: Host, s: State, d: Drv, c: nat, q: seq<Frame>)
    requires Carrying(h, s, d, c, q)
    ensures var e := Took(h, s, d, c, q);
            && (e.got.Got? <==> q != []) && (q != [] ==> e.got.frame == q[0])
            && (q != [] || s.chan[c].i2xHead > 0 ==> e.state.chan[c].i2xHead > 0)
            && (q == [] && s.chan[c].i2xHead == 0 ==>
                  s.chan[c].i2xTail == 0 && e.state.chan[c].i2xHead == 0 && e.state.chan[c].i2xTail == 0)
            && (q != [] && s.chan[c].i2xHead == 0 ==> s.chan[c].i2xTail >= 4)
  {
    hide Holds, Get, Books, Tally, Pairs, Numbered, Agree;
    L.CollectTakes(h, s, d, c, q);
    assert ReplyRing(s, d, c) == I2x(s, c);
    GetPops(I2x(s, c), q, 64);
    if q == [] {
      HoldsNothing(I2x(s, c));
    } else {
      HoldsSomething(I2x(s, c), q);
    }
  }

  lemma CarryingShape(h: Host, s: State, d: Drv, c: nat, q: seq<Frame>)
    requires Carrying(h, s, d, c, q)
    ensures Sound(h, s) && Shape(s) && c < MAX_CHANNELS == |s.chan| && Linked(s, d, c)
  {
  }

  /** Once the driver's head has moved, every run is first-in first-out. */
  lemma {:induction false} FifoOnceMoved(h: Host, s: State, d: Drv, c: nat, q: seq<Frame>, acts: seq<Act>)
    requires Carrying(h, s, d, c, q) && MayAct(c, Owner(s, c), acts) && s.chan[c].i2xHead > 0
    ensures Fifo(h, s, d, c, q, acts)
    decreases |acts|
  {
    hide Carrying, Asked, Took, Sound, Shape, Linked, FifoAsk, Seen, MayAct, Sendable, Owner;
    CarryingShape(h, s, d, c, q);
    if acts == [] {
    } else {
      MayActFirst(c, Owner(s, c), acts, d);
      match acts[0]
      case Ask(op, req) =>
        AskQueues(h, s, d, c, q, op, req);
        var b := Asked(h, s, d, c, op, req);
        FifoOnceMoved(h, b.state, b.drv, c, After(q, Seen(b.state.log)), acts[1..]);
      case Take =>
        TookMoves(h, s, d, c, q);
        var e := Took(h, s, d, c, q);
        CarryingShape(h, e.state, e.drv, c, Rest(q));
        FifoOnceMoved(h, e.state, e.drv, c, Rest(q), acts[1..]);
    }
  }

  /**
    While the driver's head is 0, a run is first-in first-out exactly if the answers before the first
    collection fit.
   */
  lemma {:induction false} FifoFromZeroIff(h: Host, s: State, d: Drv, c: nat, q: seq<Frame>, acts: seq<Act>)
    requires Carrying(h, s, d, c, q) && MayAct(c, Owner(s, c), acts) && s.chan[c].i2xHead == 0
    requires s.chan[c].i2xTail / 4 <= RingSize(c) / 4 - 1
    ensures Fifo(h, s, d, c, q, acts) <==> Burst(acts, s.chan[c].i2xTail / 4) <= RingSize(c) / 4 - 1
    decreases |acts|
  {
    hide Carrying, Asked, Took, Sound, Shape, Linked, FifoAsk, Seen, After, MayAct, Sendable, Owner, AnswerLen;
    CarryingShape(h, s, d, c, q);
    if acts == [] {
    } else {
      MayActFirst(c, Owner(s, c), acts, d);
      match acts[0]
      case Ask(op, req) =>
        var b := Asked(h, s, d, c, op, req);
        if s.chan[c].i2xTail / 4 + AnswerLen(op, req) > RingSize(c) / 4 - 1 {
          BurstGrows(acts[1..], s.chan[c].i2xTail / 4 + AnswerLen(op, req));
          AskOverruns(h, s, d, c, q, op, req);
        } else {
          AskQueues(h, s, d, c, q, op, req);
          FifoFromZeroIff(h, b.state, b.drv, c, After(q, Seen(b.state.log)), acts[1..]);
        }
      case Take =>
        TookMoves(h, s, d, c, q);
        var e := Took(h, s, d, c, q);
        CarryingShape(h, e.state, e.drv, c, Rest(q));
        if q == [] {
          FifoFromZeroIff(h, e.state, e.drv, c, [], acts[1..]);
        } else {
          FifoOnceMoved(h, e.state, e.drv, c, q[1..], acts[1..]);
        }
    }
  }

  /**
    On a freshly opened channel, any interleaving of submissions and collections
    is first-in first-out through all its wraps exactly if the answers asked for
    before the first collection that finds something fit in the reply ring.
   */
  lemma FreshChannelIsFifoIff(h: Host, s: State, c: nat, n: Word, acts: seq<Act>)
    requires Sound(h, s) && c < MAX_CHANNELS && s.chan[c] == OpenChannel(c) && MayAct(c, Owner(s, c), acts)
    ensures Fifo(h, s, Drv(0, 0, n), c, [], acts) <==> Burst(acts, 0) <= RingSize(c) / 4 - 1
  {
    hide Books, Pairs, Agree, MayAct, Fifo;
    L.OpenedInStep(h, s, c, n);
    assert Carrying(h, s, Drv(0, 0, n), c, []);
    FifoFromZeroIff(h, s, Drv(0, 0, n), c, [], acts);
  }

  // --- When no answer is refused ---

  /** The longest answer, in words. */
  const MAX_ANSWER: nat := 23

  function Lens(q: seq<Frame>): (ls: seq<nat>)
    ensures |ls| == |q|
  {
    seq(|q|, i requires 0 <= i < |q| => Len(q[i]))
  }

  function Sum(ls: seq<nat>): nat {
    if ls == [] then 0 else ls[0] + Sum(ls[1..])
  }

  lemma {:induction false} SumIsWords(q: seq<Frame>)
    ensures Sum(Lens(q)) == Words(q)
    decreases |q|
  {
    if q == [] {
    } else {
      assert Lens(q)[1..] == Lens(q[1..]);
      SumIsWords(q[1..]);
    }
  }

  /**
    A driver that asks for an answer only while the uncollected ones, of lengths
    `ls`, leave room for two of the longest.
   */
  predicate Patient(c: nat, ls: seq<nat>, acts: seq<Act>)
    decreases |acts|
  {
    acts == [] ||
    match acts[0]
    case Ask(op, req) =>
      var n := AnswerLen(op, req);
      if n == 0 then Patient(c, ls, acts[1..])
      else Sum(ls) + 2 * MAX_ANSWER <= RingSize(c) / 4 - 1 && Patient(c, ls + [n], acts[1..])
    case Take => Patient(c, if ls == [] then [] else ls[1..], acts[1..])
  }

  /** A first-in first-out run in which every answer that is due is queued: none is refused, so none is lost. */
  ghost predicate InOrder(h: Host, s: State, d: Drv, c: nat, q: seq<Frame>, acts: seq<Act>)
    requires c < MAX_CHANNELS && Sound(h, s) && MayAct(c, Owner(s, c), acts)
    decreases |acts|
  {
    && Carrying(h, s, d, c, q)
    && (acts != [] ==>
          && MayAct(c, Owner(s, c), acts[1..])
          && match acts[0]
             case Ask(op, req) =>
               && Sendable(c, Owner(s, c), RequestFrame(d, op, req))
               && var b, f := Asked(h, s, d, c, op, req), RequestFrame(d, op, req);
                  && FifoAsk(s, b, f) && !Seen(b.state.log).Refused?
                  && InOrder(h, b.state, b.drv, c, After(q, Seen(b.state.log)), acts[1..])
             case Take =>
               var e := Took(h, s, d, c, q);
               && (e.got.Got? <==> q != []) && (q != [] ==> e.got.frame == q[0])
               && InOrder(h, e.state, e.drv, c, Rest(q), acts[1..]))
  }

  /** Driver and device are linked, and the waiting replies lie in a ring with its tombstone near the end. */
  ghost predicate Packed(h: Host, s: State, d: Drv, c: nat, q: seq<Frame>) {
    Carrying(h, s, d, c, q) && Tight(I2x(s, c), q, MAX_ANSWER)
  }

  lemma AskWithRoom(h: Host, s: State, d: Drv, c: nat, q: seq<Frame>, op: Word, req: seq<Word>)
    requires Packed(h, s, d, c, q) && Sendable(c, Owner(s, c), RequestFrame(d, op, req))
    requires AnswerLen(op, req) > 0 ==> Words(q) + 2 * MAX_ANSWER <= RingSize(c) / 4 - 1
    ensures var b := Asked(h, s, d, c, op, req);
            var a := Seen(b.state.log);
            && FifoAsk(s, b, RequestFrame(d, op, req)) && !a.Refused?
            && Packed(h, b.state, b.drv, c, After(q, a))
            && Lens(After(q, a)) == if AnswerLen(op, req) == 0 then Lens(q) else Lens(q) + [AnswerLen(op, req)]
  {
    hide Holds, Submit, Offer, Books, Tally, Pairs, Numbered, Agree, Dispatches, Seen, Words;
    var f := RequestFrame(d, op, req);
    AskStep(h, s, d, c, f);
    var a := Seen(Submit(h, s, d, c, f).state.log);
    if !a.Deferred? {
      AcceptedWhileRoom(I2x(s, c), q, a.g, MAX_ANSWER);
    }
  }

  lemma TookPacked(h: Host, s: State, d: Drv, c: nat, q: seq<Frame>)
    requires Packed(h, s, d, c, q)
    ensures var e := Took(h, s, d, c, q);
            && (e.got.Got? <==> q != []) && (q != [] ==> e.got.frame == q[0])
            && Packed(h, e.state, e.drv, c, Rest(q))
            && Lens(Rest(q)) == if Lens(q) == [] then [] else Lens(q)[1..]
  {
    hide Holds, Get, Books, Tally, Pairs, Numbered, Agree, Words;
    L.CollectTakes(h, s, d, c, q);
    GetKeepsTight(I2x(s, c), q, MAX_ANSWER, 64);
  }

  /**
    A patient driver gets an answer to every request that is due one, in order:
    none is refused or overrun, however its submissions and collections
    interleave and through any number of wraps.
   */
  lemma {:induction false} PatientIsAnswered(h: Host, s: State, d: Drv, c: nat, q: seq<Frame>, acts: seq<Act>)
    requires Packed(h, s, d, c, q) && MayAct(c, Owner(s, c), acts) && Patient(c, Lens(q), acts)
    ensures InOrder(h, s, d, c, q, acts)
    decreases |acts|
  {
    hide Carrying, Tight, Asked, Took, Sound, Shape, Linked, FifoAsk, Seen, After, MayAct, Sendable, Owner, AnswerLen;
    hide Lens, Sum, Words;
    PackedShape(h, s, d, c, q);
    if acts == [] {
    } else {
      MayActFirst(c, Owner(s, c), acts, d);
      match acts[0]
      case Ask(op, req) =>
        SumIsWords(q);
        AskWithRoom(h, s, d, c, q, op, req);
        var b := Asked(h, s, d, c, op, req);
        PatientIsAnswered(h, b.state, b.drv, c, After(q, Seen(b.state.log)), acts[1..]);
      case Take =>
        TookPacked(h, s, d, c, q);
        var e := Took(h, s, d, c, q);
        PackedShape(h, e.state, e.drv, c, Rest(q));
        PatientIsAnswered(h, e.state, e.drv, c, Rest(q), acts[1..]);
    }
  }

  lemma PackedShape(h: Host, s: State, d: Drv, c: nat, q: seq<Frame>)
    requires Packed(h, s, d, c, q)
    ensures Carrying(h, s, d, c, q) && Sound(h, s) && Shape(s) && c < MAX_CHANNELS == |s.chan| && Linked(s, d, c)
  {
  }

  /** In particular from any state in which driver and device are in step. */
  lemma PatientFromStep(h: Host, s: State, d: Drv, c: nat, acts: seq<Act>)
    requires InStep(h, s, d, c) && MayAct(c, Owner(s, c), acts) && Patient(c, [], acts)
    ensures InOrder(h, s, d, c, [], acts)
  {
    hide Books, Pairs, Agree, MayAct, InOrder;
    EmptyTight(I2x(s, c), MAX_ANSWER);
    assert Lens([]) == [];
    PatientIsAnswered(h, s, d, c, [], acts);
  }
}
