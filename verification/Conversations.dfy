/**
  What exchanges mean for each other: a reply is the answer of MERT to the state
  the other exchanges left behind, a channel that a create reply describes is
  ready for use, and sessions on several channels do not disturb one another.
 */
module Conversations {
  import opened Regs
  import opened Ring
  import opened NpuState
  import opened Mailbox
  import opened Mert
  import opened Ledger
  import opened Pool
  import opened Soundness
  import opened Traffic
  import opened BatchDrain
  import opened DriverModel
  import opened LockstepModel
  import opened Lockstep
  import ContextPool
  import OwnDestroy
  import Discovery
  import I = Invariant
  import Consumer

  /** `s` and `t` differ at most in SRAM, in channel `c`, and in the counters and the log. */
  predicate SameButChannel(s: State, t: State, c: nat)
    requires Sized(s) && Sized(t) && c < MAX_CHANNELS
  {
    t == s.(sram := t.sram, chan := s.chan[c := t.chan[c]], stats := t.stats, log := t.log)
  }

  lemma SameButTrans(s: State, t: State, u: State, c: nat)
    requires Sized(s) && Sized(t) && Sized(u) && c < MAX_CHANNELS
    requires SameButChannel(s, t, c) && SameButChannel(t, u, c)
    ensures SameButChannel(s, u, c)
  {
    assert s.chan[c := t.chan[c]][c := u.chan[c]] == s.chan[c := u.chan[c]];
  }

  lemma SameButSet(s: State, c: nat, ch: Channel)
    requires Shape(s) && c < MAX_CHANNELS && ChanOk(c, ch)
    ensures SameButChannel(s, SetChan(s, c, ch), c)
  {
  }

  lemma SameButQueued(s: State, u: State, c: nat)
    requires Sized(s) && Sized(u) && c < MAX_CHANNELS
    requires u == s.(sram := u.sram, chan := s.chan[c := u.chan[c]])
    ensures SameButChannel(s, u, c)
  {
  }

  lemma SameButTaken(v: State, c: nat, f: Frame)
    requires Shape(v) && c < MAX_CHANNELS && Peek(v, c) == Message(f)
    ensures SameButChannel(v, Consumer.Taken(v, c, f), c)
  {
    Consumer.PeekInside(v, c);
  }

  lemma SameButSent(h: Host, s: State, c: nat, g: Frame)
    requires Shape(s) && c < MAX_CHANNELS
    ensures SameButChannel(s, Send(h, s, c, g).state, c)
  {
    hide Send;
    SendFields(h, s, c, g);
  }

  /**
    An exchange is a remote call: its reply is what MERT answers in a state that
    differs from the caller's only in the channel's own rings, counters and log,
    and it leaves behind what that message left behind.
   */
  lemma ExchangeIsCall(h: Host, s: State, d: Drv, c: nat, op: Word, req: seq<Word>) returns (t: State)
    requires InStep(h, s, d, c) && Askable(c, Owner(s, c), RequestFrame(d, op, req))
    ensures Inv(t) && SameButChannel(s, t, c) && t.chan[c].active && CreatedCount(t) == CreatedCount(s)
    ensures var f, e := RequestFrame(d, op, req), Exchange(h, s, d, c, op, req);
            var o := Effect(h, t, c, f);
            && o.reply.Some? && e.reply.frame == MakeFrame(f.id, op, o.reply.value)
            && SameButChannel(o.state, e.state, c) && CreatedCount(e.state) == CreatedCount(o.state)
  {
    hide Holds, Handle, Effect, Send, Get, Peek, Submit, Consumer.Drain, Consumer.Taken, Books, Tally, Pairs;
    hide Numbered, Agree, Dispatches, X2i, Verdict, SameButChannel, Earned;
    var f := RequestFrame(d, op, req);
    var u := SubmitQueues(h, s, d, c, f);
    var v := DrainOne(h, u, c, f);
    t := Consumer.Taken(v, c, f);
    I.TakenKeeps(h, v, c, f);
    TakenSpares(v, c, f);
    var g := HandleReplies(h, t, c, f);
    I.HandleKeeps(h, t, c, f);
    var b := Submit(h, s, d, c, f);
    assert [g][1..] == [];
    CollectTakes(h, b.state, b.drv, c, [g]);
    CallBefore(h, s, u, v, c, f);
    CallCounts(h, s, v, c, f, b.state, Collect(b.state, b.drv, c).state);
    CallAfter(h, t, c, f, b.state, Collect(b.state, b.drv, c).state);
  }

  /** Neither taking the message nor sending its reply creates a context. */
  lemma CallCounts(h: Host, s: State, v: State, c: nat, f: Frame, r: State, e: State)
    requires Shape(v) && c < MAX_CHANNELS && Peek(v, c) == Message(f) && v.log == s.log
    requires var t := Consumer.Taken(v, c, f);
             && t.fwAlive && Effect(h, t, c, f).reply.Some? && r == Handle(h, t, c, f) && e.log == r.log
    ensures CreatedCount(Consumer.Taken(v, c, f)) == CreatedCount(s)
    ensures CreatedCount(e) == CreatedCount(Effect(h, Consumer.Taken(v, c, f), c, f).state)
  {
    hide Effect, Send, Peek, Tally;
    var t := Consumer.Taken(v, c, f);
    var o := Effect(h, t, c, f);
    var g := MakeFrame(f.id, f.opcode, o.reply.value);
    TakenSpares(v, c, f);
    Append(s.log, Dispatched(c, v.chan[c].x2iHead, f));
    SendFields(h, o.state, c, g);
    var ok := Send(h, o.state, c, g).ok;
    ContextPool.ReplyCreatesNothing(o.state.log, c, g, ok, ok && h.hasIrq);
  }

  lemma CallBefore(h: Host, s: State, u: State, v: State, c: nat, f: Frame)
    requires Shape(s) && Shape(u) && Shape(v) && c < MAX_CHANNELS && Peek(v, c) == Message(f)
    requires u == s.(sram := u.sram, chan := s.chan[c := u.chan[c]])
    requires ChanOk(c, u.chan[c].(x2iHead := v.chan[c].x2iHead))
            && v == SetChan(u, c, u.chan[c].(x2iHead := v.chan[c].x2iHead))
    ensures SameButChannel(s, Consumer.Taken(v, c, f), c)
  {
    hide Peek, SameButChannel, Consumer.Taken, ChanOk;
    SameButQueued(s, u, c);
    SameButSet(u, c, u.chan[c].(x2iHead := v.chan[c].x2iHead));
    SameButTrans(s, u, v, c);
    SameButTaken(v, c, f);
    SameButTrans(s, v, Consumer.Taken(v, c, f), c);
  }

  lemma CallAfter(h: Host, t: State, c: nat, f: Frame, r: State, e: State)
    requires Shape(t) && t.fwAlive && c < MAX_CHANNELS && Effect(h, t, c, f).reply.Some? && r == Handle(h, t, c, f)
    requires Shape(e) && e == r.(chan := r.chan[c := e.chan[c]])
    ensures SameButChannel(Effect(h, t, c, f).state, e, c)
  {
    hide Effect, Send;
    var o := Effect(h, t, c, f);
    SameButSent(h, o.state, c, MakeFrame(f.id, f.opcode, o.reply.value));
    SameButTrans(o.state, r, e, c);
  }

  // --- What an exchange leaves behind ---

  /** A value set through any channel is what a later request through any channel reads back. */
  lemma SetThenGet(h: Host, s: State, d: Drv, c: nat, d2: Drv, c2: nat, i: Word, lo: Word, hi: Word)
    requires InStep(h, s, d, c) && i < 64
    requires Askable(c, Owner(s, c), RequestFrame(d, OP_SET_RUNTIME_CONFIG, [i, lo, hi]))
    requires var e := Exchange(h, s, d, c, OP_SET_RUNTIME_CONFIG, [i, lo, hi]);
             && InStep(h, e.state, d2, c2)
             && Askable(c2, Owner(e.state, c2), RequestFrame(d2, OP_GET_RUNTIME_CONFIG, [i]))
    ensures var e := Exchange(h, s, d, c, OP_SET_RUNTIME_CONFIG, [i, lo, hi]);
            var g := Exchange(h, e.state, d2, c2, OP_GET_RUNTIME_CONFIG, [i]);
            e.reply.frame.payload == [STATUS_SUCCESS] && g.reply.frame.payload == [STATUS_SUCCESS, lo, hi]
  {
    hide Exchange, InStep, Askable, SetRuntimeConfig, GetRuntimeConfig, Agree;
    var t := ExchangeIsCall(h, s, d, c, OP_SET_RUNTIME_CONFIG, [i, lo, hi]);
    var e := Exchange(h, s, d, c, OP_SET_RUNTIME_CONFIG, [i, lo, hi]);
    ConfigRoundTrip(t, i, lo, hi, i);
    var t2 := ExchangeIsCall(h, e.state, d2, c2, OP_GET_RUNTIME_CONFIG, [i]);
    ConfigDepends(t2, SetRuntimeConfig(t, [i, lo, hi]).state, i);
  }

  lemma ConfigDepends(s: State, t: State, i: Word)
    requires Shape(s) && Shape(t) && s.rtCfg == t.rtCfg
    ensures GetRuntimeConfig(s, [i]).reply == GetRuntimeConfig(t, [i]).reply
  {
  }

  /**
    After a successful create request on any channel, the reply leads the driver
    to the new context's own channel, which is ready for a session.
   */
  lemma CreateThenInStep(h: Host, s: State, d: Drv, c: nat, req: seq<Word>, n: Word)
    requires InStep(h, s, d, c) && Askable(c, Owner(s, c), RequestFrame(d, OP_CREATE_CONTEXT, req))
    requires Exchange(h, s, d, c, OP_CREATE_CONTEXT, req).reply.frame.payload[0] == STATUS_SUCCESS
    ensures var e := Exchange(h, s, d, c, OP_CREATE_CONTEXT, req);
            && |e.reply.frame.payload| == 19
            && var d2 := FromReply(e.reply.frame.payload);
               && 1 <= d2.vector < MAX_CHANNELS && d2 == Discovery.Belonging(d2.vector)
               && !s.chan[d2.vector].active && e.state.chan[d2.vector] == OpenChannel(d2.vector)
               && e.state.ctx[d2.vector - 1].valid && e.state.ctx[d2.vector - 1].id == e.reply.frame.payload[1]
               && InStep(h, e.state, Drv(0, 0, n), d2.vector)
  {
    hide Exchange, CreateContext;
    var t := ExchangeIsCall(h, s, d, c, OP_CREATE_CONTEXT, req);
    var e := Exchange(h, s, d, c, OP_CREATE_CONTEXT, req);
    assert Effect(h, t, c, RequestFrame(d, OP_CREATE_CONTEXT, req)) == CreateContext(t, req);
    Discovery.CreateIsDiscovered(t, req);
    var k := FromReply(e.reply.frame.payload).vector;
    assert t.chan[k - 1 + 1].active <==> t.ctx[k - 1].valid;
    OpenedInStep(h, e.state, k, n);
  }

  // --- Several channels at once ---

  /** Only an accepted async registration mentions the channel it came in on. */
  lemma EffectAnywhere(h: Host, t: State, c: nat, c2: nat, f: Frame)
    requires Shape(t) && !AsyncAccepted(f)
    ensures Effect(h, t, c, f) == Effect(h, t, c2, f)
  {
    hide CreateContext, DestroyContext, MapHostBuffer, SetRuntimeConfig, GetRuntimeConfig, QueryColStatus, StatusReply;
  }

  /**
    An exchange on one channel leaves the session on another in step exactly
    unless it is a destroy request whose id resolves to that channel's own slot.
   */
  lemma OthersStayInStepIff(h: Host, s: State, d: Drv, c: nat, op: Word, req: seq<Word>, d2: Drv, c2: nat)
    requires InStep(h, s, d, c) && Askable(c, Owner(s, c), RequestFrame(d, op, req))
    requires InStep(h, s, d2, c2) && c2 != c
    ensures var e := Exchange(h, s, d, c, op, req);
            && (InStep(h, e.state, d2, c2) <==> Spares(s, c2, RequestFrame(d, op, req)))
            && (InStep(h, e.state, d2, c2) ==> Owner(e.state, c2) == Owner(s, c2))
            && |e.state.chan| == MAX_CHANNELS
            && (!InStep(h, e.state, d2, c2) ==> !e.state.chan[c2].active)
  {
    hide Exchange, Effect, Books, Tally, Pairs, Numbered, Agree, X2i, I2x;
    var t := ExchangeIsCall(h, s, d, c, op, req);
    var f := RequestFrame(d, op, req);
    EffectAnywhere(h, t, c, c2, f);
    EffectClosesIff(h, t, c2, f);
    if Spares(s, c2, f) {
      EffectSpares(h, t, c2, f);
    }
  }

  datatype MultiCall = On(c: nat, call: Call)

  /** The device, a driver per channel, and what the drivers know: the channels in use and the context behind each. */
  datatype World = World(state: State, ds: seq<Drv>, own: seq<Word>, open: set<nat>)

  /** The driver of every open channel is in step with it and knows the context behind it. */
  ghost predicate AllInStep(h: Host, w: World) {
    && |w.ds| == |w.own| == MAX_CHANNELS
    && forall c :: c in w.open ==> c < MAX_CHANNELS && InStep(h, w.state, w.ds[c], c) && Owner(w.state, c) == w.own[c]
  }

  /** A call on an open channel, askable there: so it does not name that channel's own context for destruction. */
  predicate MayAsk(w: World, m: MultiCall) {
    && m.c in w.open && m.c < |w.ds| == |w.own|
    && Askable(m.c, w.own[m.c], RequestFrame(w.ds[m.c], m.call.op, m.call.req))
  }

  /**
    What the drivers make of a reply. A successful create adds a session on the
    channel it describes, with a fresh driver; a successful destroy ends the
    session on the channel of the context it named.
   */
  function Noted(w: World, m: MultiCall, e: Exchanged): World
    requires m.c < |w.ds| && e.reply.Got?
  {
    var p, ds := e.reply.frame.payload, w.ds[m.c := e.drv];
    if m.call.op == OP_CREATE_CONTEXT && |p| == 19 && p[0] == STATUS_SUCCESS then
      var k := FromReply(p).vector;
      if k < 0 || k >= |ds| || k >= |w.own| then World(e.state, ds, w.own, w.open)
      else World(e.state, ds[k := Drv(0, 0, 1)], w.own[k := p[1]], w.open + {k})
    else if m.call.op == OP_DESTROY_CONTEXT && |p| == 1 && p[0] == STATUS_SUCCESS && m.call.req != [] then
      World(e.state, ds, w.own, set c | c in w.open && (c == 0 || c >= |w.own| || w.own[c] != m.call.req[0]))
    else World(e.state, ds, w.own, w.open)
  }

  /** One call, and what is noted of its reply. */
  ghost function Turn(h: Host, w: World, m: MultiCall): (t: World)
    requires AllInStep(h, w) && MayAsk(w, m)
    ensures AllInStep(h, t)
  {
    TurnKeepsStep(h, w, m);
    Noted(w, m, Asked(h, w, m))
  }

  ghost function Asked(h: Host, w: World, m: MultiCall): (e: Exchanged)
    requires AllInStep(h, w) && MayAsk(w, m)
    ensures e.reply.Got?
  {
    Exchange(h, w.state, w.ds[m.c], m.c, m.call.op, m.call.req)
  }

  lemma TurnKeepsStep(h: Host, w: World, m: MultiCall)
    requires AllInStep(h, w) && MayAsk(w, m)
    ensures AllInStep(h, Noted(w, m, Asked(h, w, m)))
  {
    hide Exchange, InStep, Askable, Owner, Stays, RequestFrame;
    var c, op, req := m.c, m.call.op, m.call.req;
    assert InStep(h, w.state, w.ds[c], c);
    StepSynced(h, w.state, w.ds[c], c);
    assert Owner(w.state, c) == w.own[c];
    var e := Asked(h, w, m);
    StepSynced(h, e.state, e.drv, c);
    var t := Noted(w, m, e);
    forall k | k in t.open && k in w.open && k != c
      ensures k < MAX_CHANNELS && InStep(h, e.state, w.ds[k], k) && Owner(e.state, k) == w.own[k]
    {
      assert InStep(h, w.state, w.ds[k], k);
      OtherSpared(h, w, m, k);
      OthersStayInStepIff(h, w.state, w.ds[c], c, op, req, w.ds[k], k);
    }
    if op == OP_CREATE_CONTEXT && e.reply.frame.payload[0] == STATUS_SUCCESS {
      CreateThenInStep(h, w.state, w.ds[c], c, req, 1);
      NewChannel(h, w, m);
    }
  }

  /** The channel a create reply leads to was not in use. */
  lemma NewChannel(h: Host, w: World, m: MultiCall)
    requires AllInStep(h, w) && MayAsk(w, m) && m.call.op == OP_CREATE_CONTEXT
    requires Asked(h, w, m).reply.frame.payload[0] == STATUS_SUCCESS
    ensures var e := Asked(h, w, m);
            && |e.reply.frame.payload| == 19
            && var k := FromReply(e.reply.frame.payload).vector;
               1 <= k < MAX_CHANNELS && k !in w.open && Sized(e.state) && Owner(e.state, k) == e.reply.frame.payload[1]
  {
    hide Exchange, Askable, Books, Pairs, Agree, Discovery.Belonging;
    CreateThenInStep(h, w.state, w.ds[m.c], m.c, m.call.req, 1);
  }

  /** A channel that stays in use is not the one a destroy request resolves to. */
  lemma OtherSpared(h: Host, w: World, m: MultiCall, k: nat)
    requires AllInStep(h, w) && MayAsk(w, m)
    requires k in w.open && k != m.c && k in Noted(w, m, Asked(h, w, m)).open
    ensures Sized(w.state) && k < MAX_CHANNELS
    ensures Spares(w.state, k, RequestFrame(w.ds[m.c], m.call.op, m.call.req))
  {
    hide Exchange, InStep;
    assert InStep(h, w.state, w.ds[k], k);
    StepSynced(h, w.state, w.ds[k], k);
    assert Owner(w.state, k) == w.own[k];
    StepSynced(h, w.state, w.ds[m.c], m.c);
    var f := RequestFrame(w.ds[m.c], m.call.op, m.call.req);
    if k > 0 && f.opcode == OP_DESTROY_CONTEXT && f.payload != [] && w.own[k] == f.payload[0] {
      var e := Asked(h, w, m);
      assert e.reply.frame.payload[0] != STATUS_SUCCESS;
      Unresolved(h, w.state, w.ds[m.c], m.c, f, e);
    }
  }

  /** A destroy request that was not granted resolved to no slot. */
  lemma Unresolved(h: Host, s: State, d: Drv, c: nat, f: Frame, e: Exchanged)
    requires InStep(h, s, d, c) && f.opcode == OP_DESTROY_CONTEXT && f.payload != []
    requires Askable(c, Owner(s, c), f) && f == RequestFrame(d, f.opcode, f.payload)
    requires e == Exchange(h, s, d, c, f.opcode, f.payload) && e.reply.frame.payload[0] != STATUS_SUCCESS
    ensures FindContext(s.ctx, f.payload[0], 0) == MAX_CONTEXTS
  {
    hide Exchange, Sound, FindContext;
    StepSynced(h, s, d, c);
  }

  /** While ids have not wrapped, only the session on the channel that a destroy request closed is ended. */
  lemma EndedIsClosed(h: Host, w: World, m: MultiCall, k: nat)
    requires AllInStep(h, w) && MayAsk(w, m) && k in w.open && k !in Turn(h, w, m).open
    requires Pool.IdsOk(w.state.ctx, CreatedCount(w.state)) && CreatedCount(w.state) < TWO32
    ensures k < |Turn(h, w, m).state.chan| && !Turn(h, w, m).state.chan[k].active
  {
    hide Exchange, Pool.IdsOk, Books, Pairs;
    var c, op, req := m.c, m.call.op, m.call.req;
    assert InStep(h, w.state, w.ds[k], k) && InStep(h, w.state, w.ds[c], c);
    assert w.own[k] == Owner(w.state, k) && w.own[c] == Owner(w.state, c);
    OwnDestroy.OwnResolves(w.state, k, RequestFrame(w.ds[c], op, req));
    OthersStayInStepIff(h, w.state, w.ds[c], c, op, req, w.ds[k], k);
  }

  // --- Runs ---

  /** Each call of the run may be asked when its turn comes. */
  ghost predicate MayConverse(h: Host, w: World, calls: seq<MultiCall>)
    decreases |calls|
  {
    AllInStep(h, w) && (calls != [] ==> MayAsk(w, calls[0]) && MayConverse(h, Turn(h, w, calls[0]), calls[1..]))
  }

  datatype Conversed = Conversed(world: World, replies: seq<Frame>)

  /** Sessions on several channels, their calls in any order, the set of sessions changing as contexts come and go. */
  ghost function Converse(h: Host, w: World, calls: seq<MultiCall>): (t: Conversed)
    requires MayConverse(h, w, calls)
    ensures AllInStep(h, t.world)
    decreases |calls|
  {
    if calls == [] then Conversed(w, [])
    else
      var t := Converse(h, Turn(h, w, calls[0]), calls[1..]);
      Conversed(t.world, [Asked(h, w, calls[0]).reply.frame] + t.replies)
  }

  /**
    Sessions that begin with a create reply and end with a destroy reply, on any
    number of channels and interleaved in any way: each call gets exactly one
    reply, the one MERT gives in the state the calls before it left, under the
    id its channel's driver gave it and of the opcode's size; and in the end
    every session that is still open is in step.
   */
  lemma {:induction false} EveryChannelAnswered(h: Host, w: World, calls: seq<MultiCall>, i: nat)
    requires MayConverse(h, w, calls)
    ensures var t := Converse(h, w, calls);
            && |t.replies| == |calls|
            && AllInStep(h, t.world)
            && t.world.state.stats.msgsIn == w.state.stats.msgsIn + |calls|
            && t.world.state.stats.msgsOut == w.state.stats.msgsOut + |calls|
    ensures i < |calls| ==>
              && MayConverse(h, w, calls[..i])
              && var u, t := Converse(h, w, calls[..i]).world, Converse(h, w, calls);
                 && MayAsk(u, calls[i])
                 && t.replies[i] == Asked(h, u, calls[i]).reply.frame
                 && t.replies[i].id == u.ds[calls[i].c].nextId % 0x100 + MBOX_MAGIC_VAL
                 && t.replies[i].opcode == calls[i].call.op
                 && 4 * |t.replies[i].payload| == RespSize(calls[i].call.op)
    decreases |calls|
  {
    hide Asked, Noted, AllInStep, MayAsk, RespSize;
    if calls == [] {
    } else {
      OneTurn(h, w, calls[0]);
      if i == 0 {
        assert calls[..0] == [];
        EveryChannelAnswered(h, Turn(h, w, calls[0]), calls[1..], 0);
      } else {
        EveryChannelAnswered(h, Turn(h, w, calls[0]), calls[1..], i - 1);
        if i < |calls| {
          assert calls[..i][1..] == calls[1..][..i - 1] && calls[..i][0] == calls[0];
        }
      }
    }
  }

  lemma OneTurn(h: Host, w: World, m: MultiCall)
    requires AllInStep(h, w) && MayAsk(w, m)
    ensures var g, t := Asked(h, w, m).reply.frame, Turn(h, w, m);
            && m.c < |w.ds| && g.id == w.ds[m.c].nextId % 0x100 + MBOX_MAGIC_VAL && g.opcode == m.call.op
            && 4 * |g.payload| == RespSize(m.call.op)
            && t.state.stats.msgsIn == w.state.stats.msgsIn + 1 && t.state.stats.msgsOut == w.state.stats.msgsOut + 1
  {
    hide Exchange, InStep, RespSize, Askable;
  }

  /** Calls on channel `c` among the first `i`. */
  function Earlier(calls: seq<MultiCall>, i: nat, c: nat): nat
    requires i <= |calls|
  {
    if i == 0 then 0 else Earlier(calls[1..], i - 1, c) + if calls[0].c == c then 1 else 0
  }

  /** Channel `c` is in use before each of the first `i` calls. */
  ghost predicate StaysOpen(h: Host, w: World, calls: seq<MultiCall>, i: nat, c: nat)
    requires MayConverse(h, w, calls) && i <= |calls|
    decreases |calls|
  {
    c in w.open && (i > 0 ==> StaysOpen(h, Turn(h, w, calls[0]), calls[1..], i - 1, c))
  }

  /** While a session lasts, its driver numbers its own calls one by one, whatever the others do. */
  lemma {:induction false} OwnNumbering(h: Host, w: World, calls: seq<MultiCall>, i: nat, c: nat)
    requires MayConverse(h, w, calls) && i <= |calls| && StaysOpen(h, w, calls, i, c)
    ensures MayConverse(h, w, calls[..i])
    ensures var u := Converse(h, w, calls[..i]).world;
            && c < |w.ds| && c < |u.ds|
            && u.ds[c].nextId == (w.ds[c].nextId + Earlier(calls, i, c)) % 0x1_0000_0000
    decreases i
  {
    hide Asked, Noted, AllInStep, MayAsk;
    InUse(h, w, c);
    if i == 0 {
      assert calls[..0] == [];
    } else {
      TurnNumbers(h, w, calls[0], c);
      OwnNumbering(h, Turn(h, w, calls[0]), calls[1..], i - 1, c);
      assert calls[..i][1..] == calls[1..][..i - 1] && calls[..i][0] == calls[0];
    }
  }

  lemma InUse(h: Host, w: World, c: nat)
    requires AllInStep(h, w) && c in w.open
    ensures c < |w.ds|
  {
  }

  lemma TurnNumbers(h: Host, w: World, m: MultiCall, c: nat)
    requires AllInStep(h, w) && MayAsk(w, m) && c in w.open
    ensures var t := Turn(h, w, m);
            && c < |w.ds| && c < |t.ds|
            && t.ds[c].nextId == if m.c == c then Add32(w.ds[c].nextId, 1) else w.ds[c].nextId
  {
    hide Exchange, InStep, Askable;
    if m.call.op == OP_CREATE_CONTEXT && Asked(h, w, m).reply.frame.payload[0] == STATUS_SUCCESS {
      NewChannel(h, w, m);
    }
  }
}
