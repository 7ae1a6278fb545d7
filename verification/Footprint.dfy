/** Which SRAM words an observation accounts for. */
module Footprint {
  import opened Regs
  import opened NpuState

  predicate Within(w: nat, base: nat, size: nat) {
    base <= 4 * w < base + size
  }

  /** A reply may write its channel's firmware-to-host ring, a creation its slot's ring pair. */
  predicate Touches(o: Obs, w: nat) {
    match o
    case Replied(c, _, _) => c < MAX_CHANNELS && Within(w, I2xBase(c), RingSize(c))
    case Created(k, _) => k < MAX_CONTEXTS && Within(w, X2iBase(k + 1), CTX_RB_STRIDE)
    case _ => false
  }

  predicate Named(log: seq<Obs>, from: nat, w: nat) {
    exists i :: from <= i < |log| && Touches(log[i], w)
  }

  /** From `s` to `t` the log grew, and every SRAM word that changed is accounted for by a new entry. */
  predicate Confined(s: State, t: State) {
    && s.log <= t.log
    && |t.sram| == |s.sram|
    && forall w :: 0 <= w < |s.sram| ==> t.sram[w] == s.sram[w] || Named(t.log, |s.log|, w)
  }

  /** No new entry of `log` from index `from` on is a reply on `c`. */
  predicate NoReplyOn(log: seq<Obs>, from: nat, c: nat) {
    forall i :: from <= i < |log| && log[i].Replied? ==> log[i].chan != c
  }

  /** No new entry of `log` from index `from` on opens slot `c - 1`. */
  predicate NotReopened(log: seq<Obs>, from: nat, c: nat) {
    forall i :: from <= i < |log| && log[i].Created? ==> log[i].slot + 1 != c
  }
}
