/**
  Reachable states in which the device does what one might not expect: each is
  the outcome of register and memory writes from a cold reset.
 */
module Witnesses {
  import opened Regs
  import opened Ring
  import opened RingFifo
  import opened RingOffers
  import opened NpuState
  import opened Mailbox
  import opened Mert
  import opened Ledger
  import opened Soundness
  import opened Pool
  import opened Traffic
  import opened BatchDrain
  import opened DriverModel
  import opened LockstepModel
  import opened Lockstep
  import opened Conversations
  import opened Reach
  import ContextPool
  import Discovery
  import Commands
  import Sessions
  import Restart
  import Consumer
  import D = Device
  import I = Invariant

  /** The device brought up from a cold reset. */
  ghost function Booted(h: Host, lo: Word, hi: Word, size: Word): (s: State)
    requires ImageAccepted(h, D.ResetState([]), lo, hi, size)
    ensures Reachable(h, s) && Sound(h, s) && InStep(h, s, Drv(0, 0, 1), 0)
    ensures s.chan[0] == OpenChannel(0) && s.pspState == Running && s.fwAlive
    ensures forall i :: 0 <= i < MAX_CONTEXTS ==> !s.ctx[i].valid
  {
    BootedFacts(h, lo, hi, size);
    BringUp(h, D.ResetState([]), lo, hi, size)
  }

  lemma BootedFacts(h: Host, lo: Word, hi: Word, size: Word)
    requires ImageAccepted(h, D.ResetState([]), lo, hi, size)
    ensures var s := BringUp(h, D.ResetState([]), lo, hi, size);
            && Reachable(h, s) && Sound(h, s) && InStep(h, s, Drv(0, 0, 1), 0) && Discovery.FreshlyBooted(s)
  {
    hide PspExec, BringUp, Reachable, InStep, D.ResetState, Books, Agree;
    I.ResetSound(h, []);
    Discovery.ResetCloses([]);
    ReachReset(h);
    ReachBringUp(h, D.ResetState([]), lo, hi, size);
    ReachSound(h, BringUp(h, D.ResetState([]), lo, hi, size));
    Sessions.BringUpInStep(h, D.ResetState([]), lo, hi, size, 1);
  }

  // --- Alive but not RUNNING ---

  /** A second VALIDATE of the same image leaves the firmware alive and the PSP VALIDATED. */
  lemma AliveNotRunning(h: Host, lo: Word, hi: Word, size: Word) returns (t: State)
    requires ImageAccepted(h, D.ResetState([]), lo, hi, size)
    requires ImageAccepted(h, Booted(h, lo, hi, size), lo, hi, size)
    ensures Reachable(h, t) && t.fwAlive && t.pspState == Validated
  {
    hide PspExec, Reachable, Books;
    var s := Booted(h, lo, hi, size);
    t := PspExec(h, s, PSP_VALIDATE, lo, hi, size);
    ReachPspExec(h, s, PSP_VALIDATE, lo, hi, size);
    ReachSound(h, t);
    Discovery.ValidateExec(h, s, lo, hi, size);
  }

  /** The premises of this module hold of every host that always lets the driver's image be read. */
  lemma WillingHost(h: Host, s: State, lo: Word, hi: Word, size: Word)
    requires Shape(s) && h.hasDmaRead && (forall log, a, n :: h.readOk(log, a, n)) && size % 0x100_0000 != 0
    ensures ImageAccepted(h, s, lo, hi, size)
  {
    hide ImageAccepted;
    Commands.ImageAcceptedIff(h, s, lo, hi, size);
  }

  // --- A restart the driver does not account for ---

  /**
    One version request answered, then a restart: the driver, which was in step,
    sends the request again from where it left off, and it is never dispatched.
   */
  lemma RestartMissed(h: Host, lo: Word, hi: Word, size: Word) returns (t: State, d: Drv)
    requires ImageAccepted(h, D.ResetState([]), lo, hi, size)
    requires var s := Exchange(h, Booted(h, lo, hi, size), Drv(0, 0, 1), 0, OP_GET_PROTOCOL_VERSION, [0]).state;
             ImageAccepted(h, PspExec(h, s, PSP_RELEASE_TMR, 0, 0, 0), lo, hi, size)
    ensures var e := Exchange(h, Booted(h, lo, hi, size), Drv(0, 0, 1), 0, OP_GET_PROTOCOL_VERSION, [0]);
            d == e.drv && t == BringUp(h, PspExec(h, e.state, PSP_RELEASE_TMR, 0, 0, 0), lo, hi, size)
    ensures Reachable(h, t) && Shape(t) && Ready(RequestRing(t, d, 0))
    ensures Submit(h, t, d, 0, RequestFrame(d, OP_GET_PROTOCOL_VERSION, [0])).ok
    ensures Submit(h, t, d, 0, RequestFrame(d, OP_GET_PROTOCOL_VERSION, [0])).state.log == t.log
  {
    hide Reachable, Exchange, Submit, PspExec, BringUp, InStep, Sound, D.ResetState, RequestRing;
    var s := Booted(h, lo, hi, size);
    var e := Exchange(h, s, Drv(0, 0, 1), 0, OP_GET_PROTOCOL_VERSION, [0]);
    StepSynced(h, e.state, e.drv, 0);
    t, d := BringUp(h, PspExec(h, e.state, PSP_RELEASE_TMR, 0, 0, 0), lo, hi, size), e.drv;
    ReachExchange(h, s, Drv(0, 0, 1), 0, OP_GET_PROTOCOL_VERSION, [0]);
    ReachSound(h, e.state);
    SoundShape(h, e.state);
    ReachPspExec(h, e.state, PSP_RELEASE_TMR, 0, 0, 0);
    ReachBringUp(h, PspExec(h, e.state, PSP_RELEASE_TMR, 0, 0, 0), lo, hi, size);
    Restart.RestartIsFresh(h, e.state, lo, hi, size);
    FirstTail(h, lo, hi, size);
    Restart.MissedRequest(h, t, d, RequestFrame(d, OP_GET_PROTOCOL_VERSION, [0]));
    ReachSound(h, t);
    SoundShape(h, t);
  }

  lemma SoundShape(h: Host, s: State)
    requires Sound(h, s)
    ensures Shape(s)
  {
  }

  /** The first exchange leaves the driver's request position behind its five words. */
  lemma FirstTail(h: Host, lo: Word, hi: Word, size: Word)
    requires ImageAccepted(h, D.ResetState([]), lo, hi, size)
    ensures var s := Booted(h, lo, hi, size);
            var e := Exchange(h, s, Drv(0, 0, 1), 0, OP_GET_PROTOCOL_VERSION, [0]);
            e.drv.x2iTail == 20 && e.drv.i2xHead % 4 == 0 && e.drv.i2xHead <= RingSize(0) - 4
  {
    hide PspExec, BringUp, D.ResetState, Submit, Collect, Get, Books, Agree, RequestRing, ReplyRing, Earned, Dispatches;
    var s := Booted(h, lo, hi, size);
    I.ResetSound(h, []);
    Discovery.ResetCloses([]);
    Restart.BringUpIsFresh(h, D.ResetState([]), lo, hi, size);
    var f := RequestFrame(Drv(0, 0, 1), OP_GET_PROTOCOL_VERSION, [0]);
    var t := Restart.LandedHandled(h, s, Drv(0, 0, 1), f);
    ExchangeWorks(h, s, Drv(0, 0, 1), 0, f);
    var b := Submit(h, s, Drv(0, 0, 1), 0, f);
    CollectKeepsTail(b.state, b.drv, 0);
  }

  lemma CollectKeepsTail(s: State, d: Drv, c: nat)
    requires Shape(s) && c < MAX_CHANNELS && s.chan[c].active
    requires Ready(ReplyRing(s, d, c)) && Ready(Get(ReplyRing(s, d, c), 64).ring)
    ensures Collect(s, d, c).drv.x2iTail == d.x2iTail
  {
  }

  // --- A batch placed in a freshly opened channel ---

  /** The driver writes `n` copies of `f` to the start of channel `c`'s request ring. */
  function Loaded(s: State, c: nat, f: Frame, n: nat): (t: State)
    requires Shape(s) && c < MAX_CHANNELS && Encodable(f) && n * Len(f) <= RingSize(c) / 4 - 1
    ensures Shape(t)
  {
    s.(sram := Splice(s.sram, X2iBase(c) / 4, Pack(f, n)))
  }

  lemma LoadedHolds(h: Host, s: State, c: nat, f: Frame, n: nat)
    requires Sound(h, s) && c < MAX_CHANNELS && s.chan[c] == OpenChannel(c)
    requires Encodable(f) && n * Len(f) <= RingSize(c) / 4 - 1
    ensures var t := Loaded(s, c, f, n);
            && Sound(h, t) && |t.chan| == MAX_CHANNELS && t.chan == s.chan && t.ctx == s.ctx && t.log == s.log
            && I2x(t, c) == I2x(s, c)
            && ChanOk(c, t.chan[c].(x2iTail := 4 * (n * Len(f))))
            && var r := X2i(SetChan(t, c, t.chan[c].(x2iTail := 4 * (n * Len(f)))), c);
               Holds(r, seq(n, _ => f)) && Laps(r) == 0
  {
    hide Splice, Books, Agree, Pairs, Pack, Holds, X2i, I2x;
    LoadedRings(s, c, f, n);
  }

  lemma OpenTailOk(c: nat, val: Word)
    requires c < MAX_CHANNELS
    ensures ChanOk(c, OpenChannel(c).(x2iTail := val)) && OpenChannel(c).x2iHead == 0
    ensures RingSize(c) <= CTX_RB_SIZE && RingSize(c) % 4 == 0
  {
  }

  lemma LoadedRings(s: State, c: nat, f: Frame, n: nat)
    requires Shape(s) && c < MAX_CHANNELS && s.chan[c] == OpenChannel(c)
    requires Encodable(f) && n * Len(f) <= RingSize(c) / 4 - 1
    ensures var t := Loaded(s, c, f, n);
            && |t.chan| == MAX_CHANNELS && I2x(t, c) == I2x(s, c)
            && ChanOk(c, t.chan[c].(x2iTail := 4 * (n * Len(f))))
            && var r := X2i(SetChan(t, c, t.chan[c].(x2iTail := 4 * (n * Len(f)))), c);
               Holds(r, seq(n, _ => f)) && Laps(r) == 0
  {
    hide Splice, Pack, Len, Holds, ChanOk, X2iBase, I2xBase, RingSize;
    var m, b := n * Len(f), X2iBase(c);
    Apart(c, c);
    OpenTailOk(c, 4 * m);
    SpliceElsewhere(s.sram, b / 4, Pack(f, n), I2xBase(c), RingSize(c));
    PackedRing(s.sram, b, RingSize(c), f, n, m);
  }

  lemma PackedRing(sram: seq<Word>, base: nat, size: nat, f: Frame, n: nat, m: nat)
    requires Encodable(f) && m == n * Len(f) && m < size / 4 && 4 * (size / 4) < TWO32
    requires base % 4 == 0 && size % 4 == 0 && base + size <= 4 * |sram|
    ensures Holds(Ring(RingMem(Splice(sram, base / 4, Pack(f, n)), base, size), 0, m), seq(n, _ => f))
  {
    hide Splice, Pack;
    var mem := RingMem(Splice(sram, base / 4, Pack(f, n)), base, size);
    SplicedSlice(sram, base / 4, Pack(f, n));
    assert mem[0..m] == Splice(sram, base / 4, Pack(f, n))[base / 4..base / 4 + m];
    PackHolds(mem, 0, f, n);
  }

  lemma SplicedSlice(mem: seq<Word>, at: nat, ws: seq<Word>)
    requires at + |ws| <= |mem|
    ensures Splice(mem, at, ws)[at..at + |ws|] == ws
  {
  }

  lemma ReachLoaded(h: Host, s: State, c: nat, f: Frame, n: nat)
    requires Reachable(h, s) && Shape(s) && c < MAX_CHANNELS
    requires Encodable(f) && n * Len(f) <= RingSize(c) / 4 - 1
    ensures Reachable(h, Loaded(s, c, f, n))
  {
    hide Reachable, Splice;
    Apart(c, c);
    ReachSram(h, s, X2iBase(c) / 4, Pack(f, n));
  }

  /** The state after the tail write that starts the batch. */
  ghost function Kicked(h: Host, s: State, c: nat, f: Frame, n: nat): State
    requires Shape(s) && c < MAX_CHANNELS && Encodable(f) && n * Len(f) <= RingSize(c) / 4 - 1
  {
    Consumer.RegWrite(h, Loaded(s, c, f, n), c * CHAN_STRIDE + X2I_TAIL_OFF, 4 * (n * Len(f)))
  }

  lemma ReachKicked(h: Host, s: State, c: nat, f: Frame, n: nat)
    requires Reachable(h, s) && Shape(s) && c < MAX_CHANNELS
    requires Encodable(f) && n * Len(f) <= RingSize(c) / 4 - 1
    ensures Reachable(h, Kicked(h, s, c, f, n))
  {
    hide Reachable, Loaded, Consumer.RegWrite;
    ReachLoaded(h, s, c, f, n);
    var off: Word := c * CHAN_STRIDE + X2I_TAIL_OFF;
    assert off / CHAN_STRIDE == c && off % CHAN_STRIDE == X2I_TAIL_OFF;
    ReachMbox(h, Loaded(s, c, f, n), off, 4 * (n * Len(f)));
  }

  /** A request of one payload word for the protocol version; its reply takes seven words. */
  const QUERY: Frame := MakeFrame(MBOX_MAGIC_VAL, OP_GET_PROTOCOL_VERSION, [0])

  // --- Replies overrun ---

  lemma {:induction false} CopiesAnswered(n: nat, rs: seq<Frame>)
    requires AnsweredBy(seq(n, _ => QUERY), rs)
    ensures |rs| == n && forall i :: 0 <= i < n ==> Len(rs[i]) == 7 && Answers(QUERY, rs[i])
    decreases n
  {
    if n == 0 {
    } else {
      assert seq(n, _ => QUERY)[1..] == seq(n - 1, _ => QUERY);
      CopiesAnswered(n - 1, rs[1..]);
    }
  }

  lemma {:induction false} SevenEach(rs: seq<Frame>)
    requires forall i :: 0 <= i < |rs| ==> Len(rs[i]) == 7
    ensures Words(rs) == 7 * |rs|
    decreases |rs|
  {
    if rs == [] {
    } else {
      SevenEach(rs[1..]);
    }
  }

  /** From an empty 1024-word ring, 146 frames of seven words fit; the 147th is accepted and destroys them all. */
  lemma OneTooMany(r: Ring, rs: seq<Frame>)
    requires Holds(r, []) && r.head == 0 && |r.mem| == 1024 && |rs| == 147
    requires forall i :: 0 <= i < |rs| ==> Len(rs[i]) == 7
    ensures Ready(r) && Holds(OfferAll(r, rs[..146]), rs[..146])
    ensures Offer(OfferAll(r, rs[..146]), rs[146]).accepted && Holds(OfferAll(r, rs), [rs[146]])
  {
    hide Offer;
    HoldsReady(r, []);
    HoldsNothing(r);
    SevenEach(rs[..146]);
    OfferAllFromZero(r, [], rs[..146]);
    assert [] + rs[..146] == rs[..146];
    var r1 := OfferAll(r, rs[..146]);
    OfferOverruns(r1, rs[..146], rs[146]);
    OfferAllConcat(r, rs[..146], [rs[146]]);
    assert rs[..146] + [rs[146]] == rs && [rs[146]][1..] == [];
  }

  lemma OfferOverruns(r: Ring, q: seq<Frame>, f: Frame)
    requires Holds(r, q) && Overruns(r, f)
    ensures Offer(r, f).accepted && Holds(Offer(r, f).ring, [f])
  {
    PutOverruns(r, q, f);
  }

  /**
    On the management channel, 147 version requests placed as one batch are all
    dispatched and answered; the last reply is accepted like the others, and
    destroys the 146 before it, which nobody has read.
   */
  lemma RepliesOverrun(h: Host, lo: Word, hi: Word, size: Word) returns (t: State, rs: seq<Frame>)
    requires ImageAccepted(h, D.ResetState([]), lo, hi, size)
    ensures Reachable(h, t) && Shape(t)
    ensures Dispatches(t.log) == Dispatches(Booted(h, lo, hi, size).log) + seq(147, _ => QUERY)
    ensures |rs| == 147 && forall i :: 0 <= i < 147 ==> Answers(QUERY, rs[i])
    ensures Offered(Booted(h, lo, hi, size), t, 0, rs) && Holds(I2x(t, 0), [rs[146]])
    ensures var r := OfferAll(I2x(Booted(h, lo, hi, size), 0), rs[..146]);
            Holds(r, rs[..146]) && Offer(r, rs[146]).accepted
  {
    hide Booted, Reachable, Holds, Consumer.RegWrite, Loaded, Books, Pairs, Agree, Dispatches, X2i, I2x, AnsweredBy;
    var s := Booted(h, lo, hi, size);
    var q := seq(147, _ => QUERY);
    LoadedHolds(h, s, 0, QUERY, 147);
    var s1 := Loaded(s, 0, QUERY, 147);
    rs := MgmtTailWriteDrains(h, s1, q, 2940);
    t := Kicked(h, s, 0, QUERY, 147);
    ReachKicked(h, s, 0, QUERY, 147);
    CopiesAnswered(147, rs);
    OpenedHoldsNothing(s);
    OneTooMany(I2x(s, 0), rs);
  }

  lemma OpenedHoldsNothing(s: State)
    requires Shape(s) && s.chan[0] == OpenChannel(0)
    ensures Holds(I2x(s, 0), []) && I2x(s, 0).head == 0 && |I2x(s, 0).mem| == 1024
  {
  }

  // --- A batch outlasts the guard ---

  /** A create request for one column. */
  const CREATE: seq<Word> := [0, 0x100, 0, 0, 0, 0, 0]

  lemma CreateAskable(d: Drv)
    ensures Askable(0, 0, RequestFrame(d, OP_CREATE_CONTEXT, CREATE))
  {
  }

  /** With a slot free, it is granted. */
  lemma CreateGranted(h: Host, s: State, d: Drv)
    requires InStep(h, s, d, 0) && Askable(0, 0, RequestFrame(d, OP_CREATE_CONTEXT, CREATE)) && Sized(s)
    requires !s.ctx[0].valid
    ensures Exchange(h, s, d, 0, OP_CREATE_CONTEXT, CREATE).reply.frame.payload[0] == STATUS_SUCCESS
  {
    hide Exchange, InStep;
  }

  /**
    On a context channel, 257 version requests placed as one batch are not all
    dispatched by the tail write: the guard stops the loop after 256.
   */
  lemma BatchOutlastsGuard(h: Host, lo: Word, hi: Word, size: Word) returns (s: State, t: State, c: nat)
    requires ImageAccepted(h, D.ResetState([]), lo, hi, size)
    ensures Reachable(h, s) && Reachable(h, t) && Sound(h, t) && 1 <= c < MAX_CHANNELS
    ensures t == Kicked(h, s, c, QUERY, 257)
    ensures Dispatches(t.log) == Dispatches(s.log) + seq(256, _ => QUERY)
    ensures Holds(X2i(t, c), [QUERY]) && t.chan[c].x2iHead != t.chan[c].x2iTail
  {
    hide Booted, Exchange, Reachable, Holds, Consumer.RegWrite, Loaded, Books, Pairs, Agree, Dispatches, X2i, I2x;
    hide AnsweredBy;
    hide Offered, Discovery.Belonging;
    var b := Booted(h, lo, hi, size);
    CreateAskable(Drv(0, 0, 1));
    CreateGranted(h, b, Drv(0, 0, 1));
    CreateThenInStep(h, b, Drv(0, 0, 1), 0, CREATE, 1);
    ReachExchange(h, b, Drv(0, 0, 1), 0, OP_CREATE_CONTEXT, CREATE);
    var e := Exchange(h, b, Drv(0, 0, 1), 0, OP_CREATE_CONTEXT, CREATE);
    s, c := e.state, FromReply(e.reply.frame.payload).vector;
    var q := seq(257, _ => QUERY);
    LoadedHolds(h, s, c, QUERY, 257);
    var n, rs := TailWriteDrains(h, Loaded(s, c, QUERY, 257), c, q, 5140);
    t := Kicked(h, s, c, QUERY, 257);
    ReachKicked(h, s, c, QUERY, 257);
    ReachSound(h, t);
    assert q[..256] == seq(256, _ => QUERY) && q[256..] == [QUERY];
    HoldsSomething(X2i(t, c), [QUERY]);
    PositionsDiffer(t, c);
  }

  lemma PositionsDiffer(t: State, c: nat)
    requires Shape(t) && c < MAX_CHANNELS && X2i(t, c).head != X2i(t, c).tail
    ensures |t.chan| == MAX_CHANNELS && t.chan[c].x2iHead != t.chan[c].x2iTail
  {
  }

  // --- Any number of creations ---

  ghost predicate NoneValid(s: State) {
    |s.ctx| == MAX_CONTEXTS && forall i :: 0 <= i < MAX_CONTEXTS ==> !s.ctx[i].valid
  }

  /** One context created and destroyed again leaves none behind, and one more creation counted. */
  lemma CreateDestroy(h: Host, s: State, d: Drv) returns (t: State, d': Drv)
    requires Reachable(h, s) && InStep(h, s, d, 0) && NoneValid(s)
    ensures Reachable(h, t) && InStep(h, t, d', 0) && NoneValid(t) && CreatedCount(t) == CreatedCount(s) + 1
  {
    hide Exchange, Reachable, InStep, CreateContext, DestroyContext, CreatedCount, Agree;
    StepSynced(h, s, d, 0);
    CreateAskable(d);
    var a := ExchangeIsCall(h, s, d, 0, OP_CREATE_CONTEXT, CREATE);
    ReachExchange(h, s, d, 0, OP_CREATE_CONTEXT, CREATE);
    var e := Exchange(h, s, d, 0, OP_CREATE_CONTEXT, CREATE);
    CreateInEmpty(a);
    StepSynced(h, e.state, e.drv, 0);
    var id := s.nextCtxId;
    assert Askable(0, 0, RequestFrame(e.drv, OP_DESTROY_CONTEXT, [id]));
    var b := ExchangeIsCall(h, e.state, e.drv, 0, OP_DESTROY_CONTEXT, [id]);
    ReachExchange(h, e.state, e.drv, 0, OP_DESTROY_CONTEXT, [id]);
    DestroyOnly(b, id);
    var e2 := Exchange(h, e.state, e.drv, 0, OP_DESTROY_CONTEXT, [id]);
    t, d' := e2.state, e2.drv;
  }

  lemma CreateInEmpty(a: State)
    requires Shape(a) && NoneValid(a)
    ensures var o := CreateContext(a, CREATE).state;
            && CreatedCount(o) == CreatedCount(a) + 1
            && |o.ctx| == MAX_CONTEXTS && o.ctx[0].valid && o.ctx[0].id == a.nextCtxId
            && forall i :: 1 <= i < MAX_CONTEXTS ==> !o.ctx[i].valid
  {
    hide Tally, Splice;
    Append(a.log, Created(0, a.nextCtxId));
  }

  lemma DestroyOnly(b: State, id: Word)
    requires Shape(b) && b.ctx[0].valid && b.ctx[0].id == id
    requires forall i :: 1 <= i < MAX_CONTEXTS ==> !b.ctx[i].valid
    ensures var o := DestroyContext(b, [id]).state; NoneValid(o) && CreatedCount(o) == CreatedCount(b)
  {
    hide Tally, StatusReply;
  }

  lemma KickCounts(h: Host, s: State)
    requires Shape(s)
    ensures CreatedCount(D.PspKick(h, s)) == CreatedCount(s)
  {
    hide Tally, D.FetchImage, D.BootSram;
    I.FetchQuiet(h, s.log, D.PspPaddr(s), D.PspSize(s));
  }

  lemma PspExecCounts(h: Host, s: State, cmd: Word, a0: Word, a1: Word, a2: Word)
    requires Shape(s)
    ensures CreatedCount(PspExec(h, s, cmd, a0, a1, a2)) == CreatedCount(s)
  {
    hide PspExec, Tally, D.PspKick;
    Discovery.PspExecKicks(h, s, cmd, a0, a1, a2);
    KickCounts(h, s.(scratch := s.scratch[2 := cmd][3 := a0][4 := a1][9 := a2 % 0x100_0000],
        secIntr := PSP_NOTIFY_VAL));
  }

  lemma BootedCounts(h: Host, lo: Word, hi: Word, size: Word)
    requires ImageAccepted(h, D.ResetState([]), lo, hi, size)
    ensures CreatedCount(Booted(h, lo, hi, size)) == 0
  {
    hide PspExec, D.ResetState;
    Append([], WasReset);
    assert D.ResetState([]).log == [] + [WasReset] by {
      ResetLog();
    }
    PspExecCounts(h, D.ResetState([]), PSP_VALIDATE, lo, hi, size);
    PspExecCounts(h, PspExec(h, D.ResetState([]), PSP_VALIDATE, lo, hi, size), PSP_START, 1, 0, 0);
  }

  lemma ResetLog()
    ensures D.ResetState([]).log == [WasReset]
  {
  }

  /** For every n a state is reachable in which n contexts have been created since reset, and none is left. */
  lemma {:induction false} CreationsReachable(h: Host, lo: Word, hi: Word, size: Word, n: nat)
    returns (t: State, d: Drv)
    requires ImageAccepted(h, D.ResetState([]), lo, hi, size)
    ensures Reachable(h, t) && InStep(h, t, d, 0) && NoneValid(t) && CreatedCount(t) == n
    decreases n
  {
    hide Reachable, InStep;
    if n == 0 {
      t, d := Booted(h, lo, hi, size), Drv(0, 0, 1);
      BootedCounts(h, lo, hi, size);
    } else {
      t, d := CreationsReachable(h, lo, hi, size, n - 1);
      t, d := CreateDestroy(h, t, d);
    }
  }

  /** So the ids do wrap: a state is reachable in which the next id is 0, and one in which it was handed out before. */
  lemma IdsWrap(h: Host, lo: Word, hi: Word, size: Word) returns (t: State, u: State)
    requires ImageAccepted(h, D.ResetState([]), lo, hi, size)
    ensures Reachable(h, t) && t.nextCtxId == 0
    ensures Reachable(h, u) && u.nextCtxId == 1 && Issued(u.log, 1)
  {
    hide Reachable, InStep, Issued;
    var d;
    t, d := CreationsReachable(h, lo, hi, size, TWO32 - 1);
    u, d := CreationsReachable(h, lo, hi, size, TWO32);
    ReachSound(h, t);
    ReachSound(h, u);
    ContextPool.CreateIdFreshIff(h, u);
  }
}
