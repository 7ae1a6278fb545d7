/** What a trace of the device says about booting. */
module BootSpec {
  import opened Regs
  import opened NpuState
  import D = Device

  /** Registers, boot state and clocks are the same. */
  predicate SameCore(s: State, t: State) {
    t == s.(sram := t.sram, chan := t.chan, fwSuspended := t.fwSuspended, mgmtPasid := t.mgmtPasid, rtCfg := t.rtCfg,
            ctx := t.ctx, nextCtxId := t.nextCtxId, asyncBufAddr := t.asyncBufAddr, asyncBufSize := t.asyncBufSize,
            asyncRegistered := t.asyncRegistered, stats := t.stats, log := t.log)
  }

  predicate IsKick(e: D.Event) {
    e == D.RegBar(REG_SEC_INTR, PSP_NOTIFY_VAL)
  }

  /** A VALIDATE command whose image, of 1 to 2^24-1 bytes, can be read from the host. */
  predicate ValidateOk(h: Host, s: State, e: D.Event)
    requires Sized(s)
  {
    && IsKick(e) && s.scratch[2] == PSP_VALIDATE
    && h.hasDmaRead
    && 1 <= D.PspSize(s) < 0x100_0000
    && h.readOk(s.log, D.PspPaddr(s), if D.PspSize(s) < 64 then D.PspSize(s) else 64)
  }

  /** A START command on a validated image. */
  predicate StartOk(s: State, e: D.Event)
    requires Sized(s)
  {
    IsKick(e) && s.scratch[2] == PSP_START && s.pspState == Validated
  }

  predicate Releases(s: State, e: D.Event)
    requires Sized(s)
  {
    e.Reset? || (IsKick(e) && s.scratch[2] == PSP_RELEASE_TMR)
  }

  /** `states` is the run of the device over `evs` from a cold reset. */
  ghost predicate IsTrace(h: Host, log: seq<Obs>, states: seq<State>, evs: seq<D.Event>) {
    && |states| == |evs| + 1
    && states[0] == D.ResetState(log)
    && (forall i :: 0 <= i < |states| ==> Shape(states[i]))
    && (forall i :: 0 <= i < |evs| ==>
          D.Disciplined(states[i], evs[i]) && states[i + 1] == D.Step(h, states[i], evs[i]))
  }

  ghost predicate ValidatedSince(h: Host, states: seq<State>, evs: seq<D.Event>, i: nat, n: nat)
    requires n <= |evs| <= |states| && forall k :: 0 <= k < |states| ==> Sized(states[k])
  {
    i < n && ValidateOk(h, states[i], evs[i]) && forall m :: i < m < n ==> !Releases(states[m], evs[m])
  }

  /** The firmware came up by the VALIDATE at `i` and the START at `j`, with no release since `i`. */
  ghost predicate BootedBy(h: Host, states: seq<State>, evs: seq<D.Event>, i: nat, j: nat, n: nat)
    requires n <= |evs| <= |states| && forall k :: 0 <= k < |states| ==> Sized(states[k])
  {
    ValidatedSince(h, states, evs, i, n) && i < j < n && StartOk(states[j], evs[j])
  }

  /** An accepted START at `j` with neither a release nor a new successful VALIDATE since. */
  ghost predicate StartedSince(h: Host, states: seq<State>, evs: seq<D.Event>, j: nat, n: nat)
    requires n <= |evs| <= |states| && forall k :: 0 <= k < |states| ==> Sized(states[k])
  {
    && j < n && StartOk(states[j], evs[j])
    && forall m :: j < m < n ==> !Releases(states[m], evs[m]) && !ValidateOk(h, states[m], evs[m])
  }

  /** A successful VALIDATE at `v`, while the firmware was alive, with neither a release nor an accepted START since. */
  ghost predicate RevalidatedSince(h: Host, states: seq<State>, evs: seq<D.Event>, v: nat, n: nat)
    requires n <= |evs| <= |states| && forall k :: 0 <= k < |states| ==> Sized(states[k])
  {
    && v < n && states[v].fwAlive && ValidateOk(h, states[v], evs[v])
    && forall m :: v < m < n ==> !Releases(states[m], evs[m]) && !StartOk(states[m], evs[m])
  }

  /** No event of the run writes the command register or resets the device. */
  predicate NoCommand(evs: seq<D.Event>) {
    forall i :: 0 <= i < |evs| ==> !evs[i].Reset? && !(evs[i].RegBar? && evs[i].off == REG_SCRATCH2)
  }
}
