/**
  A driver that restarts the device but keeps its own copies of the two ring
  positions it moves: exactly when its first send-then-receive still works.
 */
module Restart {
  import opened Regs
  import opened Ring
  import opened RingFifo
  import opened NpuState
  import opened Mailbox
  import opened Mert
  import opened Ledger
  import opened Soundness
  import opened Traffic
  import opened BatchDrain
  import opened DriverModel
  import opened LockstepModel
  import opened Lockstep
  import opened Discovery
  import I = Invariant
  import Sessions
  import Consumer
  import D = Device

  const MGMT_WORDS: nat := 1024

  /** The management channel was just opened on cleared rings. */
  ghost predicate Fresh(h: Host, s: State) {
    && Sound(h, s)
    && s.chan[0] == OpenChannel(0)
    && X2i(s, 0).mem == Zeros(MGMT_WORDS) && I2x(s, 0).mem == Zeros(MGMT_WORDS)
  }

  /** Positions a driver can have kept: word-aligned, and below the last word's end. */
  predicate Kept(d: Drv) {
    && d.x2iTail % 4 == 0 && d.x2iTail <= RingSize(0) - 4
    && d.i2xHead % 4 == 0 && d.i2xHead <= RingSize(0) - 4
  }

  // --- After a restart ---

  lemma BootClears(s: State)
    requires Shape(s)
    ensures X2i(D.Boot(s), 0).mem == Zeros(MGMT_WORDS) && I2x(D.Boot(s), 0).mem == Zeros(MGMT_WORDS)
  {
  }

  lemma RingsOf(s: State, t: State)
    requires Shape(s) && Shape(t) && s.sram == t.sram
    ensures X2i(s, 0).mem == X2i(t, 0).mem && I2x(s, 0).mem == I2x(t, 0).mem
  {
  }

  /** Bringing up a device, closed or running, leaves its management channel fresh. */
  lemma BringUpIsFresh(h: Host, s: State, lo: Word, hi: Word, size: Word)
    requires Sound(h, s) && ImageAccepted(h, s, lo, hi, size)
    ensures Fresh(h, BringUp(h, s, lo, hi, size))
  {
    hide PspExec, Books, Agree, D.BootSram, X2i, I2x;
    ValidateExec(h, s, lo, hi, size);
    Sessions.PspExecKeeps(h, s, PSP_VALIDATE, lo, hi, size);
    var s2 := PspExec(h, s, PSP_VALIDATE, lo, hi, size);
    StartBoots(h, s2);
    Sessions.PspExecKeeps(h, s2, PSP_START, 1, 0, 0);
    BootClears(s2);
    RingsOf(D.Boot(s2), BringUp(h, s, lo, hi, size));
  }

  /** So after any history RELEASE_TMR, VALIDATE and START leave it fresh. */
  lemma RestartIsFresh(h: Host, s: State, lo: Word, hi: Word, size: Word)
    requires Sound(h, s) && ImageAccepted(h, PspExec(h, s, PSP_RELEASE_TMR, 0, 0, 0), lo, hi, size)
    ensures Fresh(h, BringUp(h, PspExec(h, s, PSP_RELEASE_TMR, 0, 0, 0), lo, hi, size))
  {
    hide PspExec, BringUp, Books, Agree, Fresh;
    ReleaseCloses(h, s);
    Sessions.PspExecKeeps(h, s, PSP_RELEASE_TMR, 0, 0, 0);
    BringUpIsFresh(h, PspExec(h, s, PSP_RELEASE_TMR, 0, 0, 0), lo, hi, size);
  }

  // --- A second start without a release ---

  /** Booting writes no context channel's rings. */
  lemma BootSparesContexts(a: seq<Word>, c: nat)
    requires |a| == SRAM_WORDS && 1 <= c < MAX_CHANNELS
    ensures X2iBase(c) + RingSize(c) <= SRAM_BYTES && I2xBase(c) + RingSize(c) <= SRAM_BYTES
    ensures RingMem(D.BootSram(a), X2iBase(c), RingSize(c)) == RingMem(a, X2iBase(c), RingSize(c))
    ensures RingMem(D.BootSram(a), I2xBase(c), RingSize(c)) == RingMem(a, I2xBase(c), RingSize(c))
  {
    hide D.BootSram;
    assert forall w :: CTX_RB_BASE / 4 <= w < FW_ALIVE_OFF / 4 ==> D.BootSram(a)[w] == a[w] by {
      BootWords(a);
    }
  }

  lemma BootWords(a: seq<Word>)
    requires |a| == SRAM_WORDS
    ensures forall w :: CTX_RB_BASE / 4 <= w < FW_ALIVE_OFF / 4 ==> D.BootSram(a)[w] == a[w]
  {
  }

  /**
    VALIDATE and START on a device that was never released: the management
    channel is opened anew on cleared rings, while every context survives with
    its channel, rings and registers as they were.
   */
  lemma WarmStart(h: Host, s: State, lo: Word, hi: Word, size: Word, n: Word)
    requires Sound(h, s) && ImageAccepted(h, s, lo, hi, size)
    ensures var t := BringUp(h, s, lo, hi, size);
            && Fresh(h, t) && Discover(t) == Some(Belonging(0)) && InStep(h, t, Drv(0, 0, n), 0)
            && t.ctx == s.ctx
            && forall c :: 1 <= c < MAX_CHANNELS ==> SameChannel(s, t, c)
  {
    hide PspExec, Books, Agree, D.BootSram, X2iBase, I2xBase, RingSize, ChanOk, Discover;
    var t := BringUp(h, s, lo, hi, size);
    BringUpIsFresh(h, s, lo, hi, size);
    ValidateExec(h, s, lo, hi, size);
    var s2 := PspExec(h, s, PSP_VALIDATE, lo, hi, size);
    StartBoots(h, s2);
    DiscoverReads(s2, t);
    OpenedInStep(h, t, 0, n);
    forall c | 1 <= c < MAX_CHANNELS
      ensures SameChannel(s, t, c)
    {
      BootSparesContexts(s.sram, c);
    }
  }

  /** So a session on a context channel goes on across it, with the replies that were waiting there. */
  lemma WarmStartKeepsSessions(h: Host, s: State, lo: Word, hi: Word, size: Word, d: Drv, c: nat, q: seq<Frame>)
    requires Carrying(h, s, d, c, q) && c > 0 && ImageAccepted(h, s, lo, hi, size)
    ensures Carrying(h, BringUp(h, s, lo, hi, size), d, c, q)
    ensures InStep(h, s, d, c) ==> InStep(h, BringUp(h, s, lo, hi, size), d, c)
  {
    hide PspExec, BringUp, ImageAccepted, Books, Agree, X2i, I2x, Holds;
    WarmStart(h, s, lo, hi, size, 0);
    var t := BringUp(h, s, lo, hi, size);
    assert SameChannel(s, t, c);
  }

  // --- The request ---

  /** The driver writes its request where the device looks: at word 0, directly or by wrapping. */
  predicate Lands(d: Drv, f: Frame) {
    d.x2iTail == 0 || d.x2iTail + 4 * Len(f) > RingSize(0) - 4
  }

  /** Written into a cleared ring whose reader is at 0. */
  lemma PutIntoZeros(r: Ring, f: Frame)
    requires r.mem == Zeros(MGMT_WORDS) && r.head == 0 && r.tail < MGMT_WORDS && Len(f) <= Usable(r)
    ensures var p := Put(r, f);
            && p.accepted
            && (r.tail == 0 || r.tail + Len(f) > Usable(r) ==> p.ring.tail == Len(f) && Holds(p.ring, [f]))
            && (!(r.tail == 0 || r.tail + Len(f) > Usable(r)) ==> p.ring.tail == r.tail + Len(f) && p.ring.mem[0] == 0)
  {
    hide Put, Holds;
    if r.tail == 0 || r.tail + Len(f) > Usable(r) {
      PutLands(r, f);
    } else {
      PutMisses(r, f);
    }
  }

  lemma PutLands(r: Ring, f: Frame)
    requires r.head == 0 && |r.mem| == MGMT_WORDS && r.tail < MGMT_WORDS && Len(f) <= Usable(r)
    requires r.tail == 0 || r.tail + Len(f) > Usable(r)
    ensures Put(r, f).accepted && Put(r, f).ring.tail == Len(f) && Holds(Put(r, f).ring, [f])
  {
    hide Encode, FrameAt;
    var mem := if r.tail == 0 then r.mem else r.mem[r.tail := TOMBSTONE];
    SpliceFrameAt(mem, 0, f);
    SegAppend(Splice(mem, 0, Encode(f)), 0, 0, [], f);
    assert [] + [f] == [f];
  }

  lemma PutMisses(r: Ring, f: Frame)
    requires r.head == 0 && |r.mem| == MGMT_WORDS && r.mem[0] == 0
    requires 0 < r.tail && r.tail + Len(f) <= Usable(r)
    ensures Put(r, f).accepted && Put(r, f).ring.tail == r.tail + Len(f) && Put(r, f).ring.mem[0] == 0
  {
    hide Encode;
  }

  /** The device once the request is written and the tail register set, before it looks. */
  ghost function Poked(s: State, d: Drv, f: Frame): (u: State)
    requires Shape(s) && s.chan[0] == OpenChannel(0) && Kept(d) && Len(f) < MGMT_WORDS
    ensures Shape(u)
  {
    var p := Put(Ring(X2i(s, 0).mem, 0, d.x2iTail / 4), f).ring;
    s.(sram := Splice(s.sram, X2iBase(0) / 4, p.mem), chan := s.chan[0 := s.chan[0].(x2iTail := 4 * p.tail)])
  }

  lemma SubmitPokes(h: Host, s: State, d: Drv, f: Frame)
    requires Fresh(h, s) && Kept(d) && Sendable(0, 0, f)
    ensures Ready(RequestRing(s, d, 0)) && Len(f) <= Usable(RequestRing(s, d, 0))
    ensures var u, b := Poked(s, d, f), Submit(h, s, d, 0, f);
            var r := Put(Ring(X2i(s, 0).mem, 0, d.x2iTail / 4), f).ring;
            && Sound(h, u) && Aligned(u, 0) && X2i(u, 0) == r && I2x(u, 0) == I2x(s, 0)
            && b.ok && b.state == Consumer.Drain(h, u, 0, 256)
            && b.drv == d.(x2iTail := 4 * r.tail, nextId := Add32(d.nextId, 1))
  {
    hide Splice, Consumer.Drain, Books, Tally, Pairs, Numbered, Agree, Put, X2i, I2x, ChanOk;
    var r := RequestRing(s, d, 0);
    PutIntoZeros(Ring(X2i(s, 0).mem, 0, d.x2iTail / 4), f);
    FreshPositions(h, s, d);
    var p := Put(r, f);
    QueuedRing(s, 0, p.ring);
    var s1 := s.(sram := Splice(s.sram, X2iBase(0) / 4, p.ring.mem));
    assert Sound(h, s1);
    I.SetChanKeeps(h, s1, 0, s1.chan[0].(x2iTail := 4 * p.ring.tail));
    assert Submit(h, s, d, 0, f).state == Consumer.RegWrite(h, s1, X2I_TAIL_OFF, 4 * p.ring.tail);
  }

  lemma FreshPositions(h: Host, s: State, d: Drv)
    requires Fresh(h, s) && Kept(d)
    ensures RequestRing(s, d, 0) == Ring(X2i(s, 0).mem, 0, d.x2iTail / 4) && X2i(s, 0).head == 0
    ensures I2x(s, 0) == Ring(Zeros(MGMT_WORDS), 0, 0)
  {
  }

  /**
    A request that does not land is not seen: the device finds a zero word, dispatches nothing and
    stays stuck there.
   */
  lemma MissedRequest(h: Host, s: State, d: Drv, f: Frame)
    requires Fresh(h, s) && Kept(d) && Sendable(0, 0, f) && !Lands(d, f)
    ensures Ready(RequestRing(s, d, 0)) && Len(f) <= Usable(RequestRing(s, d, 0))
    ensures var b := Submit(h, s, d, 0, f);
            && b.ok && b.state.log == s.log && I2x(b.state, 0) == I2x(s, 0) && b.drv.i2xHead == d.i2xHead
            && b.state.chan[0].active
            && b.state.chan[0].x2iHead == 0 != b.state.chan[0].x2iTail && Peek(b.state, 0) == Malformed
  {
    hide Splice, Books, Tally, Pairs, Numbered, Agree, Put, I2x, Submit, Handle;
    SubmitPokes(h, s, d, f);
    PutIntoZeros(Ring(X2i(s, 0).mem, 0, d.x2iTail / 4), f);
    var u := Poked(s, d, f);
    assert Peek(u, 0) == Malformed;
    assert Consumer.Drain(h, u, 0, 256) == u;
  }

  // --- The reply ---

  /** What the driver checks of a reply: its id, and that its size is the opcode's. */
  predicate Matches(f: Frame, g: GetResult) {
    g.Got? && g.frame.id == f.id && 4 * |g.frame.payload| == RespSize(f.opcode)
  }

  /** Word `k` of reply `g` is a tombstone. */
  predicate TombstoneIn(g: Frame, k: nat) {
    k < Len(g) && (if k == 0 then 4 * |g.payload| else if k == 1 then g.szVer else if k == 2 then g.id
                   else if k == 3 then g.opcode else g.payload[k - 4]) == TOMBSTONE
  }

  /** No payload word that reads as the size of the reply is followed, two words on, by the id of a request. */
  predicate NoEcho(p: seq<Word>) {
    forall j :: 0 <= j && j + 2 < |p| && p[j] == 4 * |p| ==> p[j + 2] < MBOX_MAGIC_VAL
  }

  /**
    A driver that looks at word k of a ring holding only the reply `g`, at word
    0, takes it for an answer exactly if it starts at 0 or meets a tombstone.
   */
  lemma StaleGet(r: Ring, f: Frame, g: Frame, k: nat)
    requires Holds(r, [g]) && r.head == 0 && |r.mem| == MGMT_WORDS && k < MGMT_WORDS
    requires forall i :: Len(g) <= i < MGMT_WORDS ==> r.mem[i] == 0
    requires Answers(f, g) && f.id >= MBOX_MAGIC_VAL && NoEcho(g.payload)
    requires g.szVer >= 0x10000 && g.opcode != RespSize(g.opcode)
    ensures Matches(f, Get(r.(head := k), 64)) <==> k == 0 || TombstoneIn(g, k)
    ensures k == 0 || TombstoneIn(g, k) ==> Get(r.(head := k), 64) == Got(r.(head := Len(g)), g)
  {
    hide Encode;
    FrameAtWords(r.mem, 0, g);
    assert [g][1..] == [];
    assert Seg(r.mem, 0, r.tail, [g]) && Seg(r.mem, 0 + Len(g), r.tail, [g][1..]);
    assert r.tail == Len(g);
    assert forall i :: 4 <= i < Len(g) ==> r.mem[i] == g.payload[i - 4];
    if k == 0 || TombstoneIn(g, k) {
      GetFrame(r, g, 64);
      GetFrame(r, g, 63);
      assert k > 0 ==> r.mem[k] == TOMBSTONE && r.(head := k).(head := 0) == r;
    } else if k < Len(g) {
      assert r.mem[k] != TOMBSTONE;
    }
  }

  lemma OpcodeIsNoSize(op: Word)
    ensures op != RespSize(op)
  {
  }

  lemma StatusDoesNotEcho(op: Word, status: Word)
    requires op != OP_GET_TELEMETRY
    ensures NoEcho(StatusReply(op, status))
  {
  }

  lemma CreateDoesNotEcho(t: State, req: seq<Word>)
    requires Shape(t)
    ensures CreateContext(t, req).reply.Some? && NoEcho(CreateContext(t, req).reply.value)
  {
    hide OpenContext, StatusReply;
    StatusDoesNotEcho(OP_CREATE_CONTEXT, STATUS_INVALID_INPUT_BUFFER);
    StatusDoesNotEcho(OP_CREATE_CONTEXT, STATUS_ERT_NOAVAIL);
    StatusDoesNotEcho(OP_CREATE_CONTEXT, STATUS_ERT_INVALID_PARAM);
  }

  lemma OthersDoNotEcho(h: Host, t: State, op: Word, req: seq<Word>)
    requires Shape(t) && op != OP_GET_TELEMETRY
    ensures NoEcho(DestroyContext(t, req).reply.value)
    ensures NoEcho(MapHostBuffer(t, op, req).reply.value)
    ensures NoEcho(SetRuntimeConfig(t, req).reply.value)
    ensures NoEcho(GetRuntimeConfig(t, req).reply.value)
    ensures NoEcho(QueryColStatus(h, t, req).reply.value)
  {
    hide CloseContext, FindContext, FillZeros, StatusReply, NoEcho;
    forall o: Word, st: Word | o != OP_GET_TELEMETRY
      ensures NoEcho(StatusReply(o, st))
    {
      StatusDoesNotEcho(o, st);
    }
    ShortDoNotEcho();
  }

  lemma ShortDoNotEcho()
    ensures forall a: Word, b: Word :: NoEcho([a, b])
    ensures forall a: Word, b: Word, c: Word :: a != 12 ==> NoEcho([a, b, c])
  {
  }

  /** No MERT reply echoes. */
  lemma RepliesDoNotEcho(h: Host, t: State, c: nat, f: Frame)
    requires Shape(t) && Effect(h, t, c, f).reply.Some?
    ensures NoEcho(Effect(h, t, c, f).reply.value)
  {
    hide CreateContext, DestroyContext, MapHostBuffer, SetRuntimeConfig, GetRuntimeConfig, QueryColStatus, StatusReply;
    var op, req := f.opcode, f.payload;
    CreateDoesNotEcho(t, req);
    forall st: Word | op != OP_GET_TELEMETRY
      ensures NoEcho(StatusReply(op, st))
    {
      StatusDoesNotEcho(op, st);
    }
    if op != OP_GET_TELEMETRY {
      OthersDoNotEcho(h, t, op, req);
    }
  }

  /** The reply to request `f` has a tombstone as its word `k`: a value the caller asked to have echoed there. */
  predicate Echoes(h: Host, t: State, f: Frame, k: nat)
    requires Sized(t)
  {
    || (k == 3 && f.opcode == TOMBSTONE)
    || (k == 5 && f.opcode == OP_CREATE_CONTEXT && Verdict(h, t, f) == STATUS_SUCCESS && t.nextCtxId == TOMBSTONE)
    || (k == 5 && f.opcode == OP_QUERY_COL_STATUS && Verdict(h, t, f) == STATUS_SUCCESS && f.payload[2] == TOMBSTONE)
    || (f.opcode == OP_GET_RUNTIME_CONFIG && f.payload != [] && f.payload[0] < 64
        && ((k == 5 && t.rtCfg[f.payload[0]] % TWO32 == TOMBSTONE)
            || (k == 6 && t.rtCfg[f.payload[0]] / TWO32 % TWO32 == TOMBSTONE)))
  }

  /** Word `j` of the payload `p` is a tombstone. */
  predicate TombAt(p: seq<Word>, j: nat) {
    j < |p| && p[j] == TOMBSTONE
  }

  lemma StatusHasNoTomb(op: Word, status: Word, j: nat)
    requires status != TOMBSTONE
    ensures !TombAt(StatusReply(op, status), j)
  {
  }

  lemma CreateTombIff(h: Host, t: State, f: Frame, j: nat)
    requires Shape(t) && f.opcode == OP_CREATE_CONTEXT
    ensures CreateContext(t, f.payload).reply.Some?
    ensures TombAt(CreateContext(t, f.payload).reply.value, j) <==> Echoes(h, t, f, j + 4)
  {
    hide OpenContext, StatusReply;
    StatusHasNoTomb(OP_CREATE_CONTEXT, STATUS_INVALID_INPUT_BUFFER, j);
    StatusHasNoTomb(OP_CREATE_CONTEXT, STATUS_ERT_NOAVAIL, j);
    StatusHasNoTomb(OP_CREATE_CONTEXT, STATUS_ERT_INVALID_PARAM, j);
  }

  lemma {:induction false} PrefixInChunks(h: Host, log: seq<Obs>, addr: nat, size: nat, done: nat)
    requires done <= size && done % 256 == 0
    ensures var r := FillZeros(h, log, addr, size, done); r.done == size || r.done % 256 == 0
    decreases size - done
  {
    if done == size {
    } else {
      var n := if size - done > 256 then 256 else size - done;
      var at := (addr + done) % TWO64;
      var ok := h.writeOk(log, at, n);
      if ok && n == 256 {
        PrefixInChunks(h, log + [DmaWrite(at, n, ok)], addr, size, done + n);
      }
    }
  }

  lemma QueryTombIff(h: Host, t: State, f: Frame, j: nat)
    requires Shape(t) && f.opcode == OP_QUERY_COL_STATUS
    ensures TombAt(QueryColStatus(h, t, f.payload).reply.value, j) <==> Echoes(h, t, f, j + 4)
  {
    hide FillZeros, StatusReply;
    StatusHasNoTomb(OP_QUERY_COL_STATUS, STATUS_INVALID_INPUT_BUFFER, j);
    if |f.payload| >= 5 {
      PrefixInChunks(h, t.log, U64(f.payload[0], f.payload[1]), f.payload[2], 0);
    }
  }

  lemma ConfigTombIff(h: Host, t: State, f: Frame, j: nat)
    requires Shape(t) && f.opcode == OP_GET_RUNTIME_CONFIG
    ensures TombAt(GetRuntimeConfig(t, f.payload).reply.value, j) <==> Echoes(h, t, f, j + 4)
  {
    hide StatusReply;
    StatusHasNoTomb(OP_GET_RUNTIME_CONFIG, STATUS_INVALID_INPUT_BUFFER, j);
  }

  lemma OthersHaveNoTomb(t: State, op: Word, req: seq<Word>, j: nat)
    requires Shape(t)
    ensures !TombAt(DestroyContext(t, req).reply.value, j)
    ensures !TombAt(MapHostBuffer(t, op, req).reply.value, j)
    ensures !TombAt(SetRuntimeConfig(t, req).reply.value, j)
  {
    hide CloseContext, FindContext, StatusReply, TombAt;
    forall o: Word, st: Word | st != TOMBSTONE
      ensures !TombAt(StatusReply(o, st), j)
    {
      StatusHasNoTomb(o, st, j);
    }
  }

  /** Which payload words of a reply are tombstones. */
  lemma PayloadTombIff(h: Host, t: State, f: Frame, j: nat)
    requires Shape(t) && Effect(h, t, 0, f).reply.Some?
    ensures TombAt(Effect(h, t, 0, f).reply.value, j) <==> Echoes(h, t, f, j + 4)
  {
    hide CreateContext, DestroyContext, MapHostBuffer, SetRuntimeConfig, GetRuntimeConfig, QueryColStatus;
    hide StatusReply, Verdict;
    var op, req := f.opcode, f.payload;
    forall st: Word | st != TOMBSTONE
      ensures !TombAt(StatusReply(op, st), j)
    {
      StatusHasNoTomb(op, st, j);
    }
    OthersHaveNoTomb(t, op, req, j);
    if op == OP_CREATE_CONTEXT {
      CreateTombIff(h, t, f, j);
    } else if op == OP_QUERY_COL_STATUS {
      QueryTombIff(h, t, f, j);
    } else if op == OP_GET_RUNTIME_CONFIG {
      ConfigTombIff(h, t, f, j);
    }
  }

  lemma TombstoneIff(h: Host, t: State, f: Frame, k: nat)
    requires Shape(t) && Effect(h, t, 0, f).reply.Some? && 0 < k && f.id / 0x100 == MBOX_MAGIC_VAL / 0x100
    requires |Effect(h, t, 0, f).reply.value| <= 32
    ensures TombstoneIn(MakeFrame(f.id, f.opcode, Effect(h, t, 0, f).reply.value), k) <==> Echoes(h, t, f, k)
  {
    hide Effect, Verdict;
    if k >= 4 {
      PayloadTombIff(h, t, f, k - 4);
    }
  }

  // --- The exchange ---

  /** The state as the device judges the request in it. */
  function Judged(s: State, f: Frame): State {
    s.(log := s.log + [Dispatched(0, 0, f)])
  }

  /** A request that landed is the one frame in the request ring when the device looks. */
  lemma LandedPoked(h: Host, s: State, d: Drv, f: Frame) returns (u: State)
    requires Fresh(h, s) && Kept(d) && Askable(0, 0, f) && Lands(d, f)
    ensures Ready(RequestRing(s, d, 0)) && Len(f) <= Usable(RequestRing(s, d, 0))
    ensures Sound(h, u) && Aligned(u, 0) && Holds(X2i(u, 0), [f]) && I2x(u, 0) == Ring(Zeros(MGMT_WORDS), 0, 0)
    ensures u.chan[0].i2xHead == 0 && u.chan[0].x2iTail == 4 * Len(f)
    ensures u.log == s.log && u.ctx == s.ctx && u.rtCfg == s.rtCfg && u.nextCtxId == s.nextCtxId
    ensures var b := Submit(h, s, d, 0, f);
            && b.ok && b.state == Consumer.Drain(h, u, 0, 256)
            && b.drv.i2xHead == d.i2xHead && b.drv.x2iTail == 4 * Len(f)
  {
    hide Holds, Submit, Consumer.Drain, Books, Tally, Pairs, Numbered, Agree, X2i, I2x, Poked, Put;
    SubmitPokes(h, s, d, f);
    FreshPositions(h, s, d);
    PutIntoZeros(Ring(X2i(s, 0).mem, 0, d.x2iTail / 4), f);
    u := Poked(s, d, f);
    PokedFields(s, d, f);
  }

  /** It is taken from word 0 and handled, with the reply ring still cleared. */
  lemma LandedHandled(h: Host, s: State, d: Drv, f: Frame) returns (t: State)
    requires Fresh(h, s) && Kept(d) && Askable(0, 0, f) && Lands(d, f)
    ensures Ready(RequestRing(s, d, 0)) && Len(f) <= Usable(RequestRing(s, d, 0))
    ensures Midway(h, t, 0, f) && t.chan[0].active && I2x(t, 0) == Ring(Zeros(MGMT_WORDS), 0, 0)
    ensures t.chan[0].i2xHead == 0 && t.chan[0].x2iHead == t.chan[0].x2iTail == 4 * Len(f)
    ensures t.log == s.log + [Dispatched(0, 0, f)]
    ensures t.ctx == s.ctx && t.rtCfg == s.rtCfg && t.nextCtxId == s.nextCtxId
    ensures var b := Submit(h, s, d, 0, f);
            b.ok && b.state == Handle(h, t, 0, f) && b.drv.i2xHead == d.i2xHead && b.drv.x2iTail == 4 * Len(f)
  {
    hide Fresh, Kept, Lands, Holds, Handle, Peek, Submit, Consumer.Drain, Consumer.Taken, RequestRing;
    hide Books, Tally, Pairs, Numbered, Agree, X2i, I2x, Zeros;
    var u := LandedPoked(h, s, d, f);
    var v := DrainOne(h, u, 0, f);
    t := Consumer.Taken(v, 0, f);
    I.TakenKeeps(h, v, 0, f);
    TakenSpares(v, 0, f);
    TakenKeepsConfig(v, 0, f);
    FreshShape(h, s);
  }

  lemma FreshShape(h: Host, s: State)
    requires Fresh(h, s)
    ensures Shape(s)
  {
  }

  lemma TakenKeepsConfig(v: State, c: nat, f: Frame)
    requires Shape(v) && c < MAX_CHANNELS && Peek(v, c) == Message(f)
    ensures var t := Consumer.Taken(v, c, f); t.rtCfg == v.rtCfg && t.nextCtxId == v.nextCtxId && t.fwAlive == v.fwAlive
  {
    hide Peek;
  }

  /** It is dispatched, and its reply is all the reply ring then holds. */
  lemma LandedRequest(h: Host, s: State, d: Drv, f: Frame) returns (g: Frame)
    requires Fresh(h, s) && Kept(d) && Askable(0, 0, f) && Lands(d, f) && f.id / 0x100 == MBOX_MAGIC_VAL / 0x100
    ensures Ready(RequestRing(s, d, 0)) && Len(f) <= Usable(RequestRing(s, d, 0))
    ensures var b := Submit(h, s, d, 0, f);
            var r := I2x(b.state, 0);
            && b.ok && Dispatches(b.state.log) == Dispatches(s.log) + [f] && b.drv.i2xHead == d.i2xHead
            && Carrying(h, b.state, b.drv.(i2xHead := 0), 0, [g])
            && r.head == 0 && (forall i :: Len(g) <= i < MGMT_WORDS ==> r.mem[i] == 0)
            && Answers(f, g) && NoEcho(g.payload) && g.szVer >= 0x10000
            && (forall k :: 0 < k ==> (TombstoneIn(g, k) <==> Echoes(h, Judged(s, f), f, k)))
  {
    hide Holds, Handle, Effect, Offer, Submit, Books, Tally, Pairs, Numbered, Agree, Dispatches, X2i, I2x;
    hide Verdict, NoEcho, TombstoneIn, Echoes;
    var t := LandedHandled(h, s, d, f);
    g := HandleOffers(h, t, 0, f);
    I.HandleKeeps(h, t, 0, f);
    HandleSparesX2i(h, t, 0, f);
    DispatchesAppend(s.log, Dispatched(0, 0, f));
    HandleDispatches(h, t, 0, f);
    OfferToZeros(g);
    RepliesDoNotEcho(h, t, 0, f);
    ReplyTombs(h, t, s, f, g);
  }

  lemma ReplyTombs(h: Host, t: State, s: State, f: Frame, g: Frame)
    requires Shape(t) && Sized(s) && f.id / 0x100 == MBOX_MAGIC_VAL / 0x100
    requires Effect(h, t, 0, f).reply.Some? && |Effect(h, t, 0, f).reply.value| <= 32
    requires g == MakeFrame(f.id, f.opcode, Effect(h, t, 0, f).reply.value)
    requires t.log == s.log + [Dispatched(0, 0, f)] && t.ctx == s.ctx && t.rtCfg == s.rtCfg
            && t.nextCtxId == s.nextCtxId
    ensures forall k :: 0 < k ==> (TombstoneIn(g, k) <==> Echoes(h, Judged(s, f), f, k))
  {
    hide Effect, Verdict, TombstoneIn, Echoes;
    SameVerdict(h, t, s, f);
    forall k | 0 < k
      ensures TombstoneIn(g, k) <==> Echoes(h, Judged(s, f), f, k)
    {
      TombstoneIff(h, t, f, k);
      SameEchoes(h, t, Judged(s, f), f, k);
    }
  }

  lemma PokedFields(s: State, d: Drv, f: Frame)
    requires Shape(s) && s.chan[0] == OpenChannel(0) && Kept(d) && Len(f) < MGMT_WORDS
    ensures var u := Poked(s, d, f);
            && u == s.(sram := u.sram, chan := u.chan)
            && u.chan[0] == s.chan[0].(x2iTail := 4 * Put(Ring(X2i(s, 0).mem, 0, d.x2iTail / 4), f).ring.tail)
  {
    hide Put, Splice;
  }

  lemma OfferToZeros(g: Frame)
    requires Len(g) <= 23
    ensures var p := Offer(Ring(Zeros(MGMT_WORDS), 0, 0), g);
            && p.accepted && p.ring.head == 0 && p.ring.tail == Len(g) && Holds(p.ring, [g])
            && forall i :: Len(g) <= i < MGMT_WORDS ==> p.ring.mem[i] == 0
  {
    PutOnEmpty(Ring(Zeros(MGMT_WORDS), 0, 0), g);
  }

  lemma SameVerdict(h: Host, t: State, s: State, f: Frame)
    requires Sized(t) && Sized(s) && t.ctx == s.ctx && t.log == s.log + [Dispatched(0, 0, f)]
    ensures Verdict(h, t, f) == Verdict(h, Judged(s, f), f)
  {
    VerdictReads(h, t, Judged(s, f), f);
  }

  lemma SameEchoes(h: Host, t: State, s: State, f: Frame, k: nat)
    requires Sized(t) && Sized(s) && Verdict(h, t, f) == Verdict(h, s, f)
    requires t.rtCfg == s.rtCfg && t.nextCtxId == s.nextCtxId
    ensures Echoes(h, t, f, k) <==> Echoes(h, s, f, k)
  {
  }

  /**
    The first send-then-receive after a restart, by a driver that kept its ring
    positions: the request is always accepted; it is dispatched exactly if it
    lands at word 0; and the driver gets an answer exactly if, besides, it reads
    the reply ring from word 0, or from a word of the reply that is a tombstone.
    Then the answer is the right one, and driver and device are in step again.
   */
  lemma RestartedExchangeIff(h: Host, s: State, d: Drv, op: Word, req: seq<Word>)
    requires Fresh(h, s) && Kept(d) && Askable(0, 0, RequestFrame(d, op, req))
    ensures Ready(RequestRing(s, d, 0)) && Len(RequestFrame(d, op, req)) <= Usable(RequestRing(s, d, 0))
    ensures var f := RequestFrame(d, op, req);
            var b := Submit(h, s, d, 0, f);
            && b.ok && b.state.chan[0].active && Ready(ReplyRing(b.state, b.drv, 0))
            && var g := Get(ReplyRing(b.state, b.drv, 0), 64);
               && (Dispatches(b.state.log) == Dispatches(s.log) + [f] <==> Lands(d, f))
               && (Matches(f, g) <==>
                     Lands(d, f) && (d.i2xHead == 0 || Echoes(h, Judged(s, f), f, d.i2xHead / 4)))
               && (Matches(f, g) ==>
                     && Answers(f, g.frame) && Ready(g.ring)
                     && var e := Collect(b.state, b.drv, 0);
                        e.got == g && InStep(h, e.state, e.drv, 0))
  {
    hide Holds, Get, Submit, Books, Tally, Pairs, Numbered, Agree, Dispatches, Echoes, NoEcho, TombstoneIn, Matches;
    var f := RequestFrame(d, op, req);
    if Lands(d, f) {
      var g := LandedRequest(h, s, d, f);
      var b := Submit(h, s, d, 0, f);
      var k := d.i2xHead / 4;
      OpcodeIsNoSize(op);
      StaleGet(I2x(b.state, 0), f, g, k);
      StaleRing(b.state, b.drv);
      if k == 0 || TombstoneIn(g, k) {
        CaughtUp(h, b.state, b.drv, g);
      }
    } else {
      MissedRequest(h, s, d, f);
      FreshPositions(h, s, d);
      var b := Submit(h, s, d, 0, f);
      StaleRing(b.state, b.drv);
      ZerosDoNotMatch(f, d.i2xHead / 4);
      assert |Dispatches(s.log) + [f]| > |Dispatches(s.log)|;
    }
  }

  lemma StaleRing(s: State, d: Drv)
    requires Shape(s) && s.chan[0].active && d.i2xHead % 4 == 0 && d.i2xHead <= RingSize(0) - 4
    ensures ReplyRing(s, d, 0) == I2x(s, 0).(head := d.i2xHead / 4) && Ready(ReplyRing(s, d, 0))
    ensures |I2x(s, 0).mem| == MGMT_WORDS
  {
  }

  lemma ZerosDoNotMatch(f: Frame, k: nat)
    requires k < MGMT_WORDS
    ensures !Matches(f, Get(Ring(Zeros(MGMT_WORDS), k, 0), 64))
  {
  }

  /** A driver that found the reply collects it like one that read from word 0. */
  lemma CaughtUp(h: Host, s: State, d: Drv, g: Frame)
    requires Carrying(h, s, d.(i2xHead := 0), 0, [g]) && d.i2xHead % 4 == 0 && d.i2xHead <= RingSize(0) - 4
    requires I2x(s, 0).head == 0
    requires Get(ReplyRing(s, d, 0), 64) == Got(I2x(s, 0).(head := Len(g)), g)
    ensures s.chan[0].active && Ready(ReplyRing(s, d, 0)) && Ready(Get(ReplyRing(s, d, 0), 64).ring)
    ensures var e := Collect(s, d, 0); e.got == Get(ReplyRing(s, d, 0), 64) && InStep(h, e.state, e.drv, 0)
  {
    hide Holds, Get, Books, Tally, Pairs, Numbered, Agree;
    var d0 := d.(i2xHead := 0);
    assert [g][1..] == [];
    CollectTakes(h, s, d0, 0, [g]);
    assert ReplyRing(s, d0, 0) == I2x(s, 0);
    GetFromZero(I2x(s, 0), g);
  }

  lemma GetFromZero(r: Ring, g: Frame)
    requires Holds(r, [g]) && r.head == 0
    ensures Get(r, 64) == Got(r.(head := Len(g)), g)
  {
    GetFrame(r, g, 64);
  }
}
