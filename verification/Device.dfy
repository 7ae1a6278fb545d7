/** Firmware boot and shutdown, the PSP and SMU command engines, reset, and the MMIO entry. */
module Device {
  import opened Regs
  import opened Ring
  import opened NpuState
  import opened Mailbox
  import opened Mert
  import opened Bytes
  import Consumer

  // --- Firmware ---

  /** The management channel description the firmware publishes in SRAM. */
  function MgmtInfo(): (w: seq<Word>)
    ensures |w| == 16
  {
    [MboxDevAddr(X2I_TAIL_OFF), MboxDevAddr(X2I_HEAD_OFF), SramDevAddr(X2iBase(0)), RingSize(0),
     MboxDevAddr(I2X_TAIL_OFF), MboxDevAddr(I2X_HEAD_OFF), SramDevAddr(I2xBase(0)), RingSize(0),
     MGMT_MBOX_MAGIC, MGMT_VECTOR, PROT_MAJOR, PROT_MINOR]
    + Zeros(4)
  }

  function BootSram(sram: seq<Word>): (r: seq<Word>)
    requires |sram| == SRAM_WORDS
    ensures |r| == SRAM_WORDS
  {
    var s1 := Splice(sram, MGMT_X2I_OFF / 4, Zeros(MGMT_RB_SIZE / 4));
    var s2 := Splice(s1, MGMT_I2X_OFF / 4, Zeros(MGMT_RB_SIZE / 4));
    var s3 := Splice(s2, MGMT_INFO_OFF / 4, MgmtInfo());
    s3[FW_ALIVE_OFF / 4 := SramDevAddr(MGMT_INFO_OFF)]
  }

  function Boot(s: State): (r: State)
    requires Shape(s)
    ensures Shape(r)
  {
    s.(chan := s.chan[0 := OpenChannel(0)],
       sram := BootSram(s.sram),
       fwAlive := true,
       fwSuspended := false,
       pwaitmode := if s.pwaitmode % 2 == 1 then s.pwaitmode else s.pwaitmode + 1)
  }

  function Invalidated(ctx: seq<Context>): (r: seq<Context>)
    ensures |r| == |ctx| && forall i :: 0 <= i < |r| ==> r[i] == ctx[i].(valid := false)
  {
    seq(|ctx|, i requires 0 <= i < |ctx| => ctx[i].(valid := false))
  }

  function Shutdown(s: State): (r: State)
    requires Shape(s)
    ensures Shape(r)
  {
    ResetChannels(s).(
      ctx := Invalidated(s.ctx),
      colUsed := 0,
      stats := s.stats.(activeContexts := 0),
      asyncRegistered := false,
      sram := s.sram[FW_ALIVE_OFF / 4 := 0],
      fwAlive := false,
      pwaitmode := s.pwaitmode - s.pwaitmode % 2)
  }

  // --- PSP ---

  datatype Fetched = Fetched(resp: Word, log: seq<Obs>)

  function FetchImage(h: Host, log: seq<Obs>, paddr: nat, size: Word): Fetched {
    var n := if size < PSP_PEEK_BYTES then size else PSP_PEEK_BYTES;
    if size == 0 then Fetched(PSP_ERROR_BAD_STATE, log)
    else if !h.hasDmaRead then Fetched(PSP_ERROR_CANCEL, log)
    else
      var ok := h.readOk(log, paddr, n);
      Fetched(if ok then 0 else PSP_ERROR_CANCEL, log + [DmaRead(paddr, n, ok)])
  }

  function PspComplete(s: State, resp: Word): (r: State)
    requires Shape(s)
    ensures Shape(r)
  {
    s.(scratch := s.scratch[3 := resp][2 := PSP_STATUS_READY])
  }

  function PspPaddr(s: State): nat
    requires Sized(s)
  {
    U64(s.scratch[3], s.scratch[4])
  }

  /** The image size: the low 24 bits of ARG2. */
  function PspSize(s: State): Word
    requires Sized(s)
  {
    s.scratch[9] % 0x100_0000
  }

  datatype PspResult = PspResult(state: State, resp: Word)

  /** Accept the image if its first bytes can be read from the host. */
  function Validate(h: Host, s: State): (r: PspResult)
    requires Shape(s)
    ensures Shape(r.state)
  {
    var g := FetchImage(h, s.log, PspPaddr(s), PspSize(s));
    if g.resp == 0 then
      PspResult(s.(log := g.log, fwPaddr := PspPaddr(s), fwSize := PspSize(s), pspState := Validated), 0)
    else PspResult(s.(log := g.log), g.resp)
  }

  function ValidateCert(h: Host, s: State): (r: PspResult)
    requires Shape(s)
    ensures Shape(r.state)
  {
    var g := FetchImage(h, s.log, PspPaddr(s), PspSize(s));
    PspResult(s.(log := g.log), g.resp)
  }

  function Start(s: State): (r: PspResult)
    requires Shape(s)
    ensures Shape(r.state)
  {
    if s.pspState != Validated then PspResult(s, PSP_ERROR_BAD_STATE)
    else PspResult(Boot(s).(pspState := Running), 0)
  }

  function PspCommand(h: Host, s: State): (r: PspResult)
    requires Shape(s)
    ensures Shape(r.state)
  {
    var cmd := s.scratch[2];
    if cmd == PSP_VALIDATE then Validate(h, s)
    else if cmd == PSP_VALIDATE_CERT then ValidateCert(h, s)
    else if cmd == PSP_START then Start(s)
    else if cmd == PSP_RELEASE_TMR then PspResult(Shutdown(s).(pspState := Cold), 0)
    else PspResult(s, PSP_ERROR_BAD_STATE)
  }

  function PspKick(h: Host, s: State): (r: State)
    requires Shape(s)
    ensures Shape(r)
  {
    var p := PspCommand(h, s.(stats := s.stats.(pspCmds := s.stats.pspCmds + 1)));
    PspComplete(p.state, p.resp)
  }

  // --- SMU ---

  function SmuComplete(s: State, resp: Word, out: Word): (r: State)
    requires Shape(s)
    ensures Shape(r)
  {
    s.(scratch := s.scratch[7 := out][6 := resp])
  }

  datatype SmuResult = SmuResult(state: State, resp: Word, out: Word)

  function SetDpmLevel(s: State, level: Word): (r: SmuResult)
    requires Shape(s)
    ensures Shape(r.state)
  {
    if level > MAX_DPM_LEVEL then SmuResult(s, SMU_RESULT_FAIL, 0)
    else SmuResult(s.(dpmLevel := level), SMU_RESULT_OK, level)
  }

  function SmuCommand(s: State): (r: SmuResult)
    requires Shape(s)
    ensures Shape(r.state)
  {
    var cmd, arg := s.scratch[5], s.scratch[7];
    if cmd == SMU_POWER_ON then SmuResult(s.(powerOn := true), SMU_RESULT_OK, 0)
    else if cmd == SMU_POWER_OFF then SmuResult(s.(powerOn := false), SMU_RESULT_OK, 0)
    else if cmd == SMU_SET_MPNPUCLK then SmuResult(s.(npuclk := arg), SMU_RESULT_OK, arg)
    else if cmd == SMU_SET_HCLK then SmuResult(s.(hclk := arg), SMU_RESULT_OK, arg)
    else if cmd == SMU_SET_SOFT_DPM || cmd == SMU_SET_HARD_DPM then SetDpmLevel(s, arg)
    else SmuResult(s, SMU_RESULT_FAIL, 0)
  }

  function SmuKick(s: State): (r: State)
    requires Shape(s)
    ensures Shape(r)
  {
    var p := SmuCommand(s.(stats := s.stats.(smuCmds := s.stats.smuCmds + 1)));
    SmuComplete(p.state, p.resp, p.out)
  }

  // --- REG BAR ---

  /** Index of the scratch register behind a REG BAR offset, if there is one. */
  function ScratchAt(off: Word): (k: Option<nat>)
    ensures k.Some? ==> k.value < 10
  {
    if off == REG_SCRATCH2 then Some(2)
    else if off == REG_SCRATCH3 then Some(3)
    else if off == REG_SCRATCH4 then Some(4)
    else if off == REG_SCRATCH5 then Some(5)
    else if off == REG_SCRATCH6 then Some(6)
    else if off == REG_SCRATCH7 then Some(7)
    else if off == REG_SCRATCH9 then Some(9)
    else None
  }

  function RegRead(s: State, off: Word): Word
    requires Sized(s)
  {
    if off == REG_PWAITMODE then s.pwaitmode
    else if off == REG_SEC_INTR then s.secIntr
    else if off == REG_PWRMGMT_INTR then s.pwrmgmtIntr
    else match ScratchAt(off)
      case Some(k) => s.scratch[k]
      case None => 0
  }

  function RegWrite(h: Host, s: State, off: Word, val: Word): (r: State)
    requires Shape(s)
    ensures Shape(r)
  {
    if off == REG_PWAITMODE then s.(pwaitmode := val)
    else if off == REG_SEC_INTR then
      var s1 := s.(secIntr := val);
      if val == PSP_NOTIFY_VAL then PspKick(h, s1) else s1
    else if off == REG_PWRMGMT_INTR then
      var s1 := s.(pwrmgmtIntr := val);
      if val == 1 then SmuKick(s1) else s1
    else match ScratchAt(off)
      case Some(k) => s.(scratch := s.scratch[k := val])
      case None => s
  }

  datatype Write = Write(off: Word, val: Word)

  /** A sequence of REG BAR writes. */
  function Writes(h: Host, s: State, ws: seq<Write>): (r: State)
    requires Shape(s)
    ensures Shape(r)
    decreases |ws|
  {
    if ws == [] then s else Writes(h, RegWrite(h, s, ws[0].off, ws[0].val), ws[1..])
  }

  // --- Reset ---

  function ResetScratch(): (r: seq<Word>)
    ensures |r| == 10
  {
    Zeros(10)[2 := PSP_STATUS_READY]
  }

  function NoContexts(): (ctx: seq<Context>)
    ensures |ctx| == MAX_CONTEXTS && forall i :: 0 <= i < MAX_CONTEXTS ==> ctx[i] == BLANK_CONTEXT
  {
    seq(MAX_CONTEXTS, _ => BLANK_CONTEXT)
  }

  /** The state after a cold reset; `log` is what was observed before it. */
  function ResetState(log: seq<Obs>): (s: State)
    ensures Shape(s)
  {
    State(ResetScratch(), 0, 0, 0, Zeros(SRAM_WORDS), ClosedChannels(),
          Cold, false, false, false, 0, 0, 0, 0, 0, 0, Zeros(64),
          NoContexts(), 1, 0, 0, 0, false,
          Stats(0, 0, 0, 0, 0, 0), log + [WasReset])
  }

  // --- MMIO events and runs ---

  datatype Event =
    | RegBar(off: Word, val: Word)
    | MboxBar(off: Word, val: Word)
    | SramBar(off: Word, words: seq<Word>)
    | SramBytes(off: Word, bytes: seq<Byte>)
    | Reset

  /**
    What the driver must respect: reader positions inside their ring. A block of
    words goes to a word offset; at any other it is a block of bytes.
   */
  predicate Disciplined(s: State, e: Event)
    requires Sized(s)
  {
    && (e.SramBar? ==> e.off % 4 == 0)
    && (e.MboxBar? ==> Consumer.HeadInRange(s, e.off, e.val))
  }

  function Step(h: Host, s: State, e: Event): (r: State)
    requires Shape(s) && Disciplined(s, e)
    ensures Shape(r)
  {
    match e
    case RegBar(off, val) => RegWrite(h, s, off, val)
    case MboxBar(off, val) => Consumer.RegWrite(h, s, off, val)
    case SramBar(off, words) =>
      if off + 4 * |words| > SRAM_BYTES then s else s.(sram := Splice(s.sram, off / 4, words))
    case SramBytes(off, bytes) =>
      if off + |bytes| > SRAM_BYTES then s else s.(sram := PutBytes(s.sram, off, bytes))
    case Reset => ResetState(s.log)
  }

  const BAR_REG: int := 0
  const BAR_SRAM: int := 2
  const BAR_MBOX: int := 4

  /** The word writes a block write to a register BAR amounts to; other BARs ignore them. */
  function WordWrites(bar: int, off: Word, ws: seq<Word>): (evs: seq<Event>)
    decreases |ws|
  {
    if ws == [] then []
    else
      var rest := WordWrites(bar, Add32(off, 4), ws[1..]);
      if bar == BAR_REG then [RegBar(off, ws[0])] + rest
      else if bar == BAR_MBOX then [MboxBar(off, ws[0])] + rest
      else rest
  }

  /** A block write, as events: SRAM takes the block whole, a register BAR word by word. */
  function BlockWrite(bar: int, off: Word, ws: seq<Word>): seq<Event> {
    if bar == BAR_SRAM then [SramBar(off, ws)] else WordWrites(bar, off, ws)
  }

  /** A byte block write, as an event or events. */
  function ByteWrite(bar: int, off: Word, bs: seq<Byte>): seq<Event> {
    if bar == BAR_SRAM then [SramBytes(off, bs)] else WordWrites(bar, off, ChunkWords(bs))
  }

  /** At a word offset, the bytes of words written are the words written. */
  lemma BytesAreWords(h: Host, s: State, off: Word, ws: seq<Word>)
    requires Shape(s) && off % 4 == 0
    ensures Step(h, s, SramBytes(off, BytesOf(ws))) == Step(h, s, SramBar(off, ws))
  {
    hide BytesOf, PutBytes, Splice;
    if off + 4 * |ws| <= SRAM_BYTES {
      WholeWords(s.sram, off / 4, ws);
    }
  }

  /** One word read from a register BAR. */
  function ReadWord(s: State, bar: int, off: Word): Word
    requires Sized(s)
  {
    if bar == BAR_REG then RegRead(s, off)
    else if bar == BAR_MBOX then Mailbox.RegRead(s, off)
    else 0
  }

  predicate AllDisciplined(h: Host, s: State, evs: seq<Event>)
    requires Shape(s)
    decreases |evs|
  {
    evs == [] || (Disciplined(s, evs[0]) && AllDisciplined(h, Step(h, s, evs[0]), evs[1..]))
  }

  function Run(h: Host, s: State, evs: seq<Event>): (r: State)
    requires Shape(s) && AllDisciplined(h, s, evs)
    ensures Shape(r)
    decreases |evs|
  {
    if evs == [] then s else Run(h, Step(h, s, evs[0]), evs[1..])
  }
}
