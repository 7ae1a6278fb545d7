/** What holds in every reachable state of the device. */
module Soundness {
  import opened Regs
  import opened Ring
  import opened NpuState
  import opened Ledger

  function CountValid(ctx: seq<Context>): nat {
    if ctx == [] then 0 else (if ctx[0].valid then 1 else 0) + CountValid(ctx[1..])
  }

  /**
    Channels, contexts, firmware and PSP agree: the management channel is open
    exactly while the firmware is alive, a context channel exactly while its
    slot is valid, and `n` counts the valid slots.
   */
  ghost predicate Agree(chan: seq<Channel>, ctx: seq<Context>, alive: bool, psp: PspState, n: nat)
    requires |chan| == MAX_CHANNELS && |ctx| == MAX_CONTEXTS
  {
    && (chan[0].active <==> alive)
    && (forall i :: 0 <= i < MAX_CONTEXTS ==> (chan[i + 1].active <==> ctx[i].valid))
    && (forall i :: 0 <= i < MAX_CONTEXTS && ctx[i].valid ==> alive)
    && n == CountValid(ctx)
    && (psp == Cold ==> !alive)
    && (psp == Running ==> alive)
  }

  ghost predicate Inv(s: State) {
    Shape(s) && Agree(s.chan, s.ctx, s.fwAlive, s.pspState, s.stats.activeContexts)
  }

  /** The counters agree with the log, and context ids are numbered through. */
  ghost predicate Books(h: Host, st: Stats, nextId: Word, log: seq<Obs>) {
    var t := Tally(log);
    && st.msgsIn == t.dispatched
    && st.msgsOut == t.sent
    && st.irqs == t.irqs
    && t.irqs == (if h.hasIrq then t.sent else 0)
    && nextId == NthId(t.created)
    && Numbered(log)
  }

  /** Everything that holds in every reachable state. */
  ghost predicate Sound(h: Host, s: State) {
    Inv(s) && Books(h, s.stats, s.nextCtxId, s.log) && Pairs(s.log) == Idle
  }

  /** Between taking a message off channel `c` and answering it. */
  ghost predicate Midway(h: Host, s: State, c: nat, f: Frame) {
    Inv(s) && s.fwAlive && Books(h, s.stats, s.nextCtxId, s.log) && Pairs(s.log) == Waiting(c, f)
  }
}
