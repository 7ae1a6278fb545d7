/** When the firmware can be alive: properties of every trace from a cold reset. */
module BootTrace {
  import opened Regs
  import opened Ring
  import opened NpuState
  import opened Mailbox
  import opened Mert
  import opened BootSpec
  import Consumer
  import D = Device

  // --- Mailbox traffic leaves the boot state alone ---

  lemma CreateSameCore(s: State, req: seq<Word>)
    requires Shape(s)
    ensures SameCore(s, CreateContext(s, req).state)
  {
    hide OpenContext, FirstFree, StatusReply, CreateReply, SameCore;
    FieldsSameCore(s, 0, []);
    var k := FirstFree(s.ctx, 0);
    assert k <= MAX_CONTEXTS;
    if |req| >= 7 && k < MAX_CONTEXTS {
      OpenSameCore(s, k, req);
    }
  }

  lemma OpenSameCore(s: State, k: nat, req: seq<Word>)
    requires Shape(s) && k < MAX_CONTEXTS && |req| >= 7
    ensures SameCore(s, OpenContext(s, k, req))
  {
    hide Splice, NewContext, Shape;
  }

  lemma DestroySameCore(s: State, req: seq<Word>)
    requires Shape(s)
    ensures SameCore(s, DestroyContext(s, req).state)
  {
    hide StatusReply;
  }

  lemma ConfigSameCore(h: Host, s: State, op: Word, req: seq<Word>)
    requires Shape(s)
    ensures SameCore(s, MapHostBuffer(s, op, req).state)
    ensures SameCore(s, SetRuntimeConfig(s, req).state)
    ensures SameCore(s, GetRuntimeConfig(s, req).state)
    ensures SameCore(s, QueryColStatus(h, s, req).state)
  {
    hide StatusReply, FillZeros;
  }

  lemma FieldsSameCore(s: State, c: nat, req: seq<Word>)
    ensures SameCore(s, s)
    ensures forall v: nat :: SameCore(s, s.(mgmtPasid := v))
    ensures forall b: bool :: SameCore(s, s.(fwSuspended := b))
    ensures |req| >= 3 ==>
              SameCore(s, s.(asyncBufAddr := U64(req[0], req[1]), asyncBufSize := req[2], asyncRegistered := true,
                             log := s.log + [AsyncRegistered(c)]))
  {
  }

  lemma EffectSameCore(h: Host, s: State, c: nat, f: Frame)
    requires Shape(s)
    ensures SameCore(s, Effect(h, s, c, f).state)
  {
    hide CreateContext, DestroyContext, MapHostBuffer, SetRuntimeConfig, GetRuntimeConfig, QueryColStatus;
    hide StatusReply, SameCore;
    FieldsSameCore(s, c, f.payload);
    CreateSameCore(s, f.payload);
    DestroySameCore(s, f.payload);
    ConfigSameCore(h, s, f.opcode, f.payload);
  }

  lemma HandleSameCore(h: Host, s: State, c: nat, f: Frame)
    requires Shape(s)
    ensures SameCore(s, Handle(h, s, c, f))
  {
    hide Send, Effect;
    var o := Effect(h, s, c, f);
    EffectSameCore(h, s, c, f);
    if o.reply.Some? {
      SendFields(h, o.state, c, MakeFrame(f.id, f.opcode, o.reply.value));
    }
  }

  lemma {:induction false} DrainSameCore(h: Host, s: State, c: nat, fuel: nat)
    requires Shape(s) && c < MAX_CHANNELS
    ensures SameCore(s, Consumer.Drain(h, s, c, fuel))
    decreases fuel
  {
    hide Handle, Peek;
    if s.chan[c].x2iHead == s.chan[c].x2iTail || fuel == 0 {
    } else {
      match Peek(s, c) {
        case Rewind => DrainSameCore(h, Consumer.Rewound(s, c), c, fuel - 1);
        case Malformed =>
        case Message(f) =>
          HandleSameCore(h, Consumer.Taken(s, c, f), c, f);
          DrainSameCore(h, Handle(h, Consumer.Taken(s, c, f), c, f), c, fuel - 1);
      }
    }
  }

  lemma MboxSameCore(h: Host, s: State, off: Word, val: Word)
    requires Shape(s) && Consumer.HeadInRange(s, off, val)
    ensures SameCore(s, Consumer.RegWrite(h, s, off, val))
  {
    hide Consumer.Drain, SameCore, ChanOk;
    var c := off / CHAN_STRIDE;
    FieldsSameCore(s, c, []);
    if c < MAX_CHANNELS {
      ChanSameCore(s, c, val);
      if off % CHAN_STRIDE == X2I_TAIL_OFF && s.chan[c].active {
        var t := SetChan(s, c, s.chan[c].(x2iTail := val));
        DrainSameCore(h, t, c, MAX_MSG_PER_KICK);
        SameCoreTrans(s, t, Consumer.Drain(h, t, c, MAX_MSG_PER_KICK));
      }
    }
  }

  /** Setting a register of a channel leaves the boot state alone. */
  lemma ChanSameCore(s: State, c: nat, val: Word)
    requires Shape(s) && c < MAX_CHANNELS
    ensures SameCore(s, s.(chan := s.chan[c := s.chan[c].(x2iTail := val)]))
    ensures SameCore(s, s.(chan := s.chan[c := s.chan[c].(i2xHead := val)]))
    ensures SameCore(s, s.(chan := s.chan[c := s.chan[c].(intr := val)]))
    ensures ChanOk(c, s.chan[c].(x2iTail := val)) && ChanOk(c, s.chan[c].(intr := val))
  {
  }

  lemma SameCoreTrans(s: State, t: State, u: State)
    requires SameCore(s, t) && SameCore(t, u)
    ensures SameCore(s, u)
  {
  }

  // --- Traces ---

  /** What the commands that move the boot state do to it. */
  lemma CommandsMove(h: Host, s: State)
    requires Shape(s)
    ensures D.Start(s).state.fwAlive <==> s.fwAlive || s.pspState == Validated
    ensures D.Start(s).state.pspState == if s.pspState == Validated then Running else s.pspState
    ensures !D.Shutdown(s).fwAlive
    ensures D.Validate(h, s).state.fwAlive == s.fwAlive && D.ValidateCert(h, s).state.fwAlive == s.fwAlive
    ensures D.ValidateCert(h, s).state.pspState == s.pspState
  {
    hide D.BootSram, D.FetchImage;
  }

  lemma ValidateMoves(h: Host, s: State)
    requires Shape(s)
    ensures D.Validate(h, s).state.pspState ==
            if && h.hasDmaRead && D.PspSize(s) != 0
               && h.readOk(s.log, D.PspPaddr(s), if D.PspSize(s) < 64 then D.PspSize(s) else 64)
            then Validated else s.pspState
  {
  }

  /** How a PSP command moves the boot state. */
  lemma KickBoots(h: Host, s: State, e: D.Event)
    requires Shape(s) && IsKick(e)
    ensures var t := D.PspKick(h, s.(secIntr := PSP_NOTIFY_VAL));
            && (t.fwAlive <==> !Releases(s, e) && (s.fwAlive || StartOk(s, e)))
            && (t.pspState != Cold <==> !Releases(s, e) && (s.pspState != Cold || ValidateOk(h, s, e)))
  {
    hide D.Start, D.Shutdown, D.Validate, D.ValidateCert;
    var s1 := s.(secIntr := PSP_NOTIFY_VAL).(stats := s.stats.(pspCmds := s.stats.pspCmds + 1));
    CommandsMove(h, s1);
    ValidateMoves(h, s1);
  }

  lemma SmuSparesPsp(s: State)
    requires Shape(s)
    ensures var t := D.SmuKick(s);
            && t.pspState == s.pspState && t.fwAlive == s.fwAlive && t.fwPaddr == s.fwPaddr && t.fwSize == s.fwSize
            && t.scratch[2] == s.scratch[2]
  {
  }

  /** A register write that is not a PSP kick leaves the boot state alone. */
  lemma PlainWrite(h: Host, s: State, off: Word, val: Word)
    requires Shape(s) && !IsKick(D.RegBar(off, val))
    ensures var t := D.RegWrite(h, s, off, val);
            && t.pspState == s.pspState && t.fwAlive == s.fwAlive && t.fwPaddr == s.fwPaddr && t.fwSize == s.fwSize
            && (off != REG_SCRATCH2 ==> t.scratch[2] == s.scratch[2])
  {
    hide D.PspKick, D.SmuKick;
    SmuSparesPsp(s.(pwrmgmtIntr := val));
  }

  /** How any event moves the boot state. */
  lemma StepBoots(h: Host, s: State, e: D.Event)
    requires Shape(s) && D.Disciplined(s, e)
    ensures var t := D.Step(h, s, e);
            && (t.fwAlive <==> !Releases(s, e) && (s.fwAlive || StartOk(s, e)))
            && (t.pspState != Cold <==> !Releases(s, e) && (s.pspState != Cold || ValidateOk(h, s, e)))
  {
    hide Consumer.RegWrite, Splice, D.PspKick, D.SmuKick;
    if e.MboxBar? {
      MboxSameCore(h, s, e.off, e.val);
    } else if IsKick(e) {
      KickBoots(h, s, e);
    } else if e.RegBar? {
      PlainWrite(h, s, e.off, e.val);
    }
  }

  /** The image stays validated exactly since a successful VALIDATE with no release or reset after it. */
  lemma {:induction false} NotColdIff(h: Host, log: seq<Obs>, states: seq<State>, evs: seq<D.Event>, n: nat)
    requires IsTrace(h, log, states, evs) && n <= |evs|
    ensures states[n].pspState != Cold <==> exists i: nat :: ValidatedSince(h, states, evs, i, n)
    decreases n
  {
    hide D.Step, ValidateOk;
    if n == 0 {
    } else {
      var s, e := states[n - 1], evs[n - 1];
      NotColdIff(h, log, states, evs, n - 1);
      StepBoots(h, s, e);
      if states[n].pspState != Cold {
        if s.pspState != Cold {
          var i: nat :| ValidatedSince(h, states, evs, i, n - 1);
          assert ValidatedSince(h, states, evs, i, n);
        } else {
          assert ValidatedSince(h, states, evs, n - 1, n);
        }
      }
      if i: nat :| ValidatedSince(h, states, evs, i, n) {
        if i < n - 1 {
          assert ValidatedSince(h, states, evs, i, n - 1);
        } else {
          ValidateReleasesNothing(h, s, e);
        }
      }
    }
  }

  lemma ValidateReleasesNothing(h: Host, s: State, e: D.Event)
    requires Sized(s) && ValidateOk(h, s, e)
    ensures !Releases(s, e)
  {
  }

  /** How the condition for live firmware moves with one more event. */
  lemma BootedStep(h: Host, states: seq<State>, evs: seq<D.Event>, m: nat, n: nat)
    requires n == m + 1 <= |evs| <= |states| && forall k :: 0 <= k < |states| ==> Sized(states[k])
    ensures (exists i: nat, j: nat :: BootedBy(h, states, evs, i, j, n)) <==>
            && !Releases(states[m], evs[m])
            && ((exists i: nat, j: nat :: BootedBy(h, states, evs, i, j, m))
                || (StartOk(states[m], evs[m]) && exists i: nat :: ValidatedSince(h, states, evs, i, m)))
  {
    hide ValidateOk, Releases, StartOk, Sized;
    if i: nat, j: nat :| BootedBy(h, states, evs, i, j, n) {
      assert i < m && ValidatedSince(h, states, evs, i, m);
      assert j < m ==> BootedBy(h, states, evs, i, j, m);
    }
    if !Releases(states[m], evs[m]) {
      if i: nat, j: nat :| BootedBy(h, states, evs, i, j, m) {
        assert BootedBy(h, states, evs, i, j, n);
      }
      if StartOk(states[m], evs[m]) {
        if i: nat :| ValidatedSince(h, states, evs, i, m) {
          assert BootedBy(h, states, evs, i, m, n);
        }
      }
    }
  }

  lemma StartNeedsImage(s: State, e: D.Event)
    requires Sized(s)
    ensures StartOk(s, e) ==> s.pspState != Cold
  {
  }

  /**
    Boot safety and liveness in every trace from reset: the firmware is alive
    after n events exactly when a successful VALIDATE was followed by an accepted
    START, with no RELEASE_TMR or reset since that VALIDATE.
   */
  lemma {:induction false} AliveIff(h: Host, log: seq<Obs>, states: seq<State>, evs: seq<D.Event>, n: nat)
    requires IsTrace(h, log, states, evs) && n <= |evs|
    ensures states[n].fwAlive <==> exists i: nat, j: nat :: BootedBy(h, states, evs, i, j, n)
    decreases n
  {
    hide D.Step, D.Disciplined, ValidateOk, StartOk, Releases, ChanOk, ValidatedSince;
    if n == 0 {
    } else {
      var s, e := states[n - 1], evs[n - 1];
      AliveIff(h, log, states, evs, n - 1);
      NotColdIff(h, log, states, evs, n - 1);
      StepBoots(h, s, e);
      StartNeedsImage(s, e);
      BootedStep(h, states, evs, n - 1, n);
    }
  }

  // --- RUNNING, and when it is the same as alive ---

  lemma KickRuns(h: Host, s: State, e: D.Event)
    requires Shape(s) && IsKick(e)
    ensures D.PspKick(h, s.(secIntr := PSP_NOTIFY_VAL)).pspState == Running <==>
            StartOk(s, e) || (s.pspState == Running && !Releases(s, e) && !ValidateOk(h, s, e))
  {
    hide D.Start, D.Shutdown, D.Validate, D.ValidateCert;
    var s1 := s.(secIntr := PSP_NOTIFY_VAL).(stats := s.stats.(pspCmds := s.stats.pspCmds + 1));
    CommandsMove(h, s1);
    ValidateMoves(h, s1);
  }

  /** How any event moves the RUNNING state. */
  lemma StepRuns(h: Host, s: State, e: D.Event)
    requires Shape(s) && D.Disciplined(s, e)
    ensures D.Step(h, s, e).pspState == Running <==>
            StartOk(s, e) || (s.pspState == Running && !Releases(s, e) && !ValidateOk(h, s, e))
  {
    hide Consumer.RegWrite, Splice, D.PspKick, D.SmuKick, ValidateOk;
    if e.MboxBar? {
      MboxSameCore(h, s, e.off, e.val);
    } else if IsKick(e) {
      KickRuns(h, s, e);
    } else if e.RegBar? {
      PlainWrite(h, s, e.off, e.val);
    }
    NoKickNoValidate(h, s, e);
  }

  lemma NoKickNoValidate(h: Host, s: State, e: D.Event)
    requires Sized(s)
    ensures ValidateOk(h, s, e) ==> IsKick(e) && !StartOk(s, e) && !Releases(s, e)
    ensures StartOk(s, e) ==> !Releases(s, e)
  {
  }

  /**
    The PSP is RUNNING after n events exactly when a START was accepted with no
    RELEASE_TMR, reset or successful VALIDATE since.
   */
  lemma {:induction false} RunningIff(h: Host, log: seq<Obs>, states: seq<State>, evs: seq<D.Event>, n: nat)
    requires IsTrace(h, log, states, evs) && n <= |evs|
    ensures states[n].pspState == Running <==> exists j: nat :: StartedSince(h, states, evs, j, n)
    decreases n
  {
    hide D.Step, ValidateOk, Releases;
    if n == 0 {
    } else {
      var s, e := states[n - 1], evs[n - 1];
      RunningIff(h, log, states, evs, n - 1);
      StepRuns(h, s, e);
      if states[n].pspState == Running {
        if StartOk(s, e) {
          assert StartedSince(h, states, evs, n - 1, n);
        } else {
          var j: nat :| StartedSince(h, states, evs, j, n - 1);
          assert StartedSince(h, states, evs, j, n);
        }
      }
      if j: nat :| StartedSince(h, states, evs, j, n) {
        assert j < n - 1 ==> StartedSince(h, states, evs, j, n - 1);
      }
    }
  }

  /**
    Alive and RUNNING are the same after n events exactly unless a VALIDATE
    succeeded while the firmware was alive, with neither a release nor an
    accepted START since; then the firmware is alive and the PSP is not RUNNING.
   */
  lemma {:induction false} AliveIsRunningIff(h: Host, log: seq<Obs>, states: seq<State>, evs: seq<D.Event>, n: nat)
    requires IsTrace(h, log, states, evs) && n <= |evs|
    ensures (states[n].fwAlive <==> states[n].pspState == Running) <==>
            !exists v: nat :: RevalidatedSince(h, states, evs, v, n)
    ensures states[n].pspState == Running ==> states[n].fwAlive
    decreases n
  {
    hide D.Step, ValidateOk, Releases;
    if n == 0 {
    } else {
      var s, e := states[n - 1], evs[n - 1];
      AliveIsRunningIff(h, log, states, evs, n - 1);
      StepRuns(h, s, e);
      StepBoots(h, s, e);
      NoKickNoValidate(h, s, e);
      if states[n].fwAlive && states[n].pspState != Running {
        if ValidateOk(h, s, e) {
          assert RevalidatedSince(h, states, evs, n - 1, n);
        } else {
          var v: nat :| RevalidatedSince(h, states, evs, v, n - 1);
          assert RevalidatedSince(h, states, evs, v, n);
        }
      }
      if v: nat :| RevalidatedSince(h, states, evs, v, n) {
        assert v < n - 1 ==> RevalidatedSince(h, states, evs, v, n - 1);
      }
    }
  }

  // --- CMD and STATUS share a register ---

  lemma UnknownCommandInert(h: Host, s: State)
    requires Shape(s) && s.scratch[2] == PSP_STATUS_READY
    ensures D.PspKick(h, s) ==
            s.(scratch := s.scratch[3 := PSP_ERROR_BAD_STATE], stats := s.stats.(pspCmds := s.stats.pspCmds + 1))
  {
    hide D.Validate, D.ValidateCert, D.Start, D.Shutdown;
  }

  lemma StepInert(h: Host, s: State, e: D.Event)
    requires Shape(s) && D.Disciplined(s, e) && s.scratch[2] == PSP_STATUS_READY
    requires !e.Reset? && !(e.RegBar? && e.off == REG_SCRATCH2)
    ensures var t := D.Step(h, s, e);
            && t.scratch[2] == PSP_STATUS_READY
            && t.pspState == s.pspState && t.fwAlive == s.fwAlive && t.fwPaddr == s.fwPaddr && t.fwSize == s.fwSize
  {
    hide Consumer.RegWrite, Splice, D.PspKick, D.SmuKick;
    if e.MboxBar? {
      MboxSameCore(h, s, e.off, e.val);
    } else if IsKick(e) {
      UnknownCommandInert(h, s.(secIntr := PSP_NOTIFY_VAL));
    } else if e.RegBar? {
      PlainWrite(h, s, e.off, e.val);
    }
  }

  /**
    After a PSP command the command register reads READY, so until it is written
    again no amount of kicking or other traffic changes PSP or firmware state.
   */
  lemma {:induction false} RekickIsInert(h: Host, s: State, evs: seq<D.Event>)
    requires Shape(s) && s.scratch[2] == PSP_STATUS_READY
    requires D.AllDisciplined(h, s, evs) && NoCommand(evs)
    ensures var t := D.Run(h, s, evs);
            && t.scratch[2] == PSP_STATUS_READY
            && t.pspState == s.pspState && t.fwAlive == s.fwAlive && t.fwPaddr == s.fwPaddr && t.fwSize == s.fwSize
    decreases |evs|
  {
    hide D.Step;
    if evs == [] {
    } else {
      StepInert(h, s, evs[0]);
      RekickIsInert(h, D.Step(h, s, evs[0]), evs[1..]);
    }
  }

  /** Every kick and every reset leaves the command register reading READY. */
  lemma KickLeavesReady(h: Host, s: State, log: seq<Obs>)
    requires Shape(s)
    ensures D.PspKick(h, s).scratch[2] == PSP_STATUS_READY
    ensures D.ResetState(log).scratch[2] == PSP_STATUS_READY
  {
  }
}
