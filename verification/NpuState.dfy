/** The device state, the host it talks to, and the shape every reachable state has. */
module NpuState {
  import opened Regs
  import opened Ring

  datatype Option<T> = None | Some(value: T)

  /** One mailbox channel, as the device keeps it. Register values are byte offsets. */
  datatype Channel = Channel(
    active: bool,
    index: nat,
    x2iHead: Word,
    x2iTail: Word,
    i2xHead: Word,
    i2xTail: Word,
    intr: Word,
    x2iBuf: Word,
    x2iSize: Word,
    i2xBuf: Word,
    i2xSize: Word)

  /** One hardware context slot. */
  datatype Context = Context(
    valid: bool,
    id: Word,
    pasid: nat,
    startCol: nat,
    numCol: nat,
    priority: Word,
    chan: nat,
    heapAddr: nat,
    heapSize: nat)

  datatype PspState = Cold | Validated | Running

  /** The device's counters; the 64-bit ones are unbounded here. */
  datatype Stats = Stats(pspCmds: nat, smuCmds: nat, msgsIn: nat, msgsOut: nat, irqs: nat, activeContexts: nat)

  /** What an observer of the device sees, in order: messages, replies, interrupts, DMA. */
  datatype Obs =
    | Dispatched(chan: nat, at: nat, frame: Frame)
    | Replied(chan: nat, frame: Frame, accepted: bool)
    | AsyncRegistered(chan: nat)
    | Irq(vector: nat)
    | DmaWrite(addr: nat, len: nat, ok: bool)
    | DmaRead(addr: nat, len: nat, ok: bool)
    | Created(slot: nat, id: Word)
    | WasReset

  /**
    The host callbacks. Each DMA outcome may depend on everything observed before
    it, so any host behaviour over a run is one value of this type.
   */
  datatype Host = Host(
    hasIrq: bool,
    hasDmaWrite: bool,
    hasDmaRead: bool,
    writeOk: (seq<Obs>, nat, nat) -> bool,
    readOk: (seq<Obs>, nat, nat) -> bool)

  datatype State = State(
    scratch: seq<Word>,
    pwaitmode: Word,
    secIntr: Word,
    pwrmgmtIntr: Word,
    sram: seq<Word>,
    chan: seq<Channel>,
    pspState: PspState,
    powerOn: bool,
    fwAlive: bool,
    fwSuspended: bool,
    fwPaddr: nat,
    fwSize: Word,
    npuclk: Word,
    hclk: Word,
    dpmLevel: Word,
    mgmtPasid: nat,
    rtCfg: seq<nat>,
    ctx: seq<Context>,
    nextCtxId: Word,
    colUsed: Word,
    asyncBufAddr: nat,
    asyncBufSize: Word,
    asyncRegistered: bool,
    stats: Stats,
    log: seq<Obs>)

  function BlankChannel(i: nat): Channel {
    Channel(false, i, 0, 0, 0, 0, 0, 0, 0, 0, 0)
  }

  /** Channel `i` when it has just been set up on its own rings. */
  function OpenChannel(i: nat): Channel
    requires i < MAX_CHANNELS
  {
    Channel(true, i, 0, 0, 0, 0, 0, X2iBase(i), RingSize(i), I2xBase(i), RingSize(i))
  }

  const BLANK_CONTEXT: Context := Context(false, 0, 0, 0, 0, 0, 0, 0, 0)

  /**
    Channel `i` is either closed, or runs on its own two rings with its consumer
    position inside the one and its producer position inside the other.
   */
  predicate ChanOk(i: nat, ch: Channel)
    requires i < MAX_CHANNELS
  {
    && ch.index == i
    && if ch.active then
         && ch.x2iBuf == X2iBase(i) && ch.x2iSize == RingSize(i)
         && ch.i2xBuf == I2xBase(i) && ch.i2xSize == RingSize(i)
         && ch.x2iHead % 4 == 0 && ch.x2iHead <= ch.x2iSize
         && ch.i2xTail % 4 == 0 && ch.i2xTail <= ch.i2xSize - 4
         && ch.i2xHead <= ch.i2xSize - 4
       else
         ch.x2iBuf == ch.x2iSize == ch.i2xBuf == ch.i2xSize == ch.x2iHead == ch.i2xTail == 0
  }

  /** The producer position moved to word `t`, and the interrupt status raised. */
  function Produced(i: nat, ch: Channel, t: nat): (r: Channel)
    requires i < MAX_CHANNELS && ChanOk(i, ch) && ch.active && t < RingSize(i) / 4
    ensures ChanOk(i, r) && r.active
  {
    ch.(i2xTail := 4 * t, intr := 1)
  }

  predicate Sized(s: State) {
    && |s.scratch| == 10
    && |s.sram| == SRAM_WORDS
    && |s.chan| == MAX_CHANNELS
    && |s.rtCfg| == 64
    && |s.ctx| == MAX_CONTEXTS
  }

  predicate Shape(s: State) {
    && Sized(s)
    && (forall i :: 0 <= i < MAX_CHANNELS ==> ChanOk(i, s.chan[i]))
    && (forall i :: 0 <= i < MAX_CONTEXTS && s.ctx[i].valid ==> s.ctx[i].chan == i + 1)
  }

  /** Replace one channel's state by another that fits it. */
  function SetChan(s: State, c: nat, ch: Channel): (r: State)
    requires Shape(s) && c < MAX_CHANNELS && ChanOk(c, ch)
    ensures Shape(r)
  {
    s.(chan := s.chan[c := ch])
  }

  function RingMem(sram: seq<Word>, base: nat, size: nat): (m: seq<Word>)
    requires base % 4 == 0 && size % 4 == 0 && base + size <= 4 * |sram|
    ensures |m| == size / 4
  {
    sram[base / 4..(base + size) / 4]
  }

  /** Channel `c`'s host-to-firmware ring: written by the driver, drained by the device. */
  function X2i(s: State, c: nat): (r: Ring)
    requires Shape(s) && c < MAX_CHANNELS
    ensures |r.mem| == RingSize(c) / 4
  {
    Ring(RingMem(s.sram, X2iBase(c), RingSize(c)), s.chan[c].x2iHead / 4, s.chan[c].x2iTail / 4)
  }

  /**
    Channel `c`'s firmware-to-host ring. The driver's head is rounded up to a
    word, which leaves every comparison with a word-aligned tail as it was.
   */
  function I2x(s: State, c: nat): (r: Ring)
    requires Shape(s) && c < MAX_CHANNELS
    ensures |r.mem| == RingSize(c) / 4
    ensures s.chan[c].active ==> Ready(r)
  {
    Ring(RingMem(s.sram, I2xBase(c), RingSize(c)), (s.chan[c].i2xHead + 3) / 4, s.chan[c].i2xTail / 4)
  }
}
