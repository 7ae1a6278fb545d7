/**
  Runs of a ring: any interleaving of sends and receives against an abstract
  FIFO queue.
 */
module RingRuns {
  import opened Regs
  import opened Ring
  import opened RingFifo
  import opened RingOffers

  datatype Event = Send(f: Frame) | Recv

  datatype Outcome = Accepted | Refused | Received(f: Frame) | NothingThere

  /** Looks the driver allows itself per receive. */
  const RECV_GUARD: nat := 64

  function Step(r: Ring, e: Event): (s: (Ring, Outcome))
    requires Ready(r)
    ensures |s.0.mem| == |r.mem|
  {
    match e
    case Send(f) =>
      var p := Offer(r, f);
      (p.ring, if p.accepted then Accepted else Refused)
    case Recv =>
      var g := Get(r, RECV_GUARD);
      (g.ring, if g.Got? then Received(g.frame) else NothingThere)
  }

  /** The abstract queue: which outcomes it allows for an event. */
  predicate Allows(q: seq<Frame>, e: Event, o: Outcome) {
    match e
    case Send(_) => o == Accepted || o == Refused
    case Recv => o == if q == [] then NothingThere else Received(q[0])
  }

  function After(q: seq<Frame>, e: Event, o: Outcome): seq<Frame>
    requires Allows(q, e, o)
  {
    match e
    case Send(f) => if o == Accepted then q + [f] else q
    case Recv => if q == [] then q else q[1..]
  }

  /** Every step of the run is a step of the abstract queue, and the ring holds the queue throughout. */
  ghost predicate Fifo(r: Ring, q: seq<Frame>, evs: seq<Event>)
    decreases |evs|
  {
    && Holds(r, q)
    && (evs != [] ==>
          var (r', o) := Step(r, evs[0]);
          Allows(q, evs[0], o) && Fifo(r', After(q, evs[0], o), evs[1..]))
  }

  /** No send of the run overruns unread frames. */
  ghost predicate Safe(r: Ring, q: seq<Frame>, evs: seq<Event>)
    requires Holds(r, q)
    decreases |evs|
  {
    evs != [] ==>
      && !(evs[0].Send? && Overruns(r, evs[0].f))
      && (StepRefines(r, q, evs[0]);
          var (r', o) := Step(r, evs[0]);
          Safe(r', After(q, evs[0], o), evs[1..]))
  }

  /** One step refines the queue unless it is an overrunning send. */
  lemma StepRefines(r: Ring, q: seq<Frame>, e: Event)
    requires Holds(r, q)
    requires !(e.Send? && Overruns(r, e.f))
    ensures Allows(q, e, Step(r, e).1)
    ensures Holds(Step(r, e).0, After(q, e, Step(r, e).1))
  {
    match e
    case Send(f) => OfferAppends(r, q, f);
    case Recv => GetPops(r, q, RECV_GUARD);
  }

  /** A run is FIFO at every step exactly when none of its sends overruns. */
  lemma {:induction false} RunIsFifoIff(r: Ring, q: seq<Frame>, evs: seq<Event>)
    requires Holds(r, q)
    ensures Fifo(r, q, evs) <==> Safe(r, q, evs)
    decreases |evs|
  {
    if evs == [] {
    } else {
      var e := evs[0];
      if e.Send? && Overruns(r, e.f) {
        PutIsFifoIff(r, q, e.f);
      } else {
        StepRefines(r, q, e);
        var (r', o) := Step(r, e);
        RunIsFifoIff(r', After(q, e, o), evs[1..]);
      }
    }
  }

  /** Once something has been received the head is never 0 again, so no later send can overrun. */
  lemma {:induction false} SafeAfterReceive(r: Ring, q: seq<Frame>, evs: seq<Event>)
    requires Holds(r, q) && r.head > 0
    ensures Safe(r, q, evs)
    decreases |evs|
  {
    hide Holds, Get;
    if evs == [] {
    } else {
      HoldsReady(r, q);
      StepRefines(r, q, evs[0]);
      StepStaysPositive(r, q, evs[0]);
      var (r', o) := Step(r, evs[0]);
      SafeAfterReceive(r', After(q, evs[0], o), evs[1..]);
    }
  }

  lemma StepStaysPositive(r: Ring, q: seq<Frame>, e: Event)
    requires Holds(r, q) && r.head > 0
    ensures Step(r, e).0.head > 0
  {
    if e.Recv? {
      GetPops(r, q, RECV_GUARD);
    }
  }

  /** Words sent before the first receive that finds something, given `sent` so far; a frame over `max` is refused. */
  function Burst(evs: seq<Event>, sent: nat, max: int): nat {
    if evs == [] then sent
    else match evs[0]
      case Send(f) => Burst(evs[1..], if Len(f) <= max then sent + Len(f) else sent, max)
      case Recv => if sent > 0 then sent else Burst(evs[1..], 0, max)
  }

  lemma {:induction false} BurstGrows(evs: seq<Event>, sent: nat, max: int)
    ensures Burst(evs, sent, max) >= sent
    decreases |evs|
  {
    if evs == [] {
    } else {
      match evs[0]
      case Send(f) => BurstGrows(evs[1..], if Len(f) <= max then sent + Len(f) else sent, max);
      case Recv => if sent == 0 { BurstGrows(evs[1..], 0, max); }
    }
  }

  lemma {:induction false} BurstSafeIff(r: Ring, q: seq<Frame>, evs: seq<Event>)
    requires Holds(r, q) && r.head == 0
    ensures Safe(r, q, evs) <==> Burst(evs, r.tail, Usable(r)) <= Usable(r)
    decreases |evs|, 1
  {
    if evs == [] {
    } else {
      match evs[0]
      case Send(f) => BurstSend(r, q, evs);
      case Recv => BurstRecv(r, q, evs);
    }
  }

  lemma {:induction false} BurstSend(r: Ring, q: seq<Frame>, evs: seq<Event>)
    requires Holds(r, q) && r.head == 0 && evs != [] && evs[0].Send?
    ensures Safe(r, q, evs) <==> Burst(evs, r.tail, Usable(r)) <= Usable(r)
    decreases |evs|, 0
  {
    hide Holds;
    var f := evs[0].f;
    if Overruns(r, f) {
      BurstGrows(evs[1..], r.tail + Len(f), Usable(r));
    } else {
      StepRefines(r, q, evs[0]);
      SendFromZero(r, q, f);
      var (r', o) := Step(r, evs[0]);
      BurstSafeIff(r', After(q, evs[0], o), evs[1..]);
    }
  }

  lemma {:induction false} BurstRecv(r: Ring, q: seq<Frame>, evs: seq<Event>)
    requires Holds(r, q) && r.head == 0 && evs != [] && evs[0].Recv?
    ensures Safe(r, q, evs) <==> Burst(evs, r.tail, Usable(r)) <= Usable(r)
    decreases |evs|, 0
  {
    hide Get;
    StepRefines(r, q, evs[0]);
    GetPops(r, q, RECV_GUARD);
    var (r', o) := Step(r, evs[0]);
    if q == [] {
      BurstSafeIff(r', q, evs[1..]);
    } else {
      SegBound(r.mem, 0, r.tail, q);
      SafeAfterReceive(r', q[1..], evs[1..]);
    }
  }

  /**
    From an empty ring, any interleaving of sends and receives behaves as a FIFO
    queue through all its wraps exactly when the words sent before the first
    receive fit in the ring.
   */
  lemma FreshRingIsFifoIff(mem: seq<Word>, evs: seq<Event>)
    requires 1 <= |mem| && 4 * |mem| < TWO32
    ensures Fifo(Ring(mem, 0, 0), [], evs) <==> Burst(evs, 0, |mem| - 1) <= |mem| - 1
  {
    RunIsFifoIff(Ring(mem, 0, 0), [], evs);
    BurstSafeIff(Ring(mem, 0, 0), [], evs);
  }
}
