/** Device side of the mailbox: channel reset, sending, and looking at the next incoming message. */
module Mailbox {
  import opened Regs
  import opened Ring
  import opened RingFifo
  import opened NpuState

  datatype SendResult = SendResult(state: State, ok: bool)

  function ChannelReset(s: State, i: nat): State
    requires Sized(s)
  {
    if i >= MAX_CHANNELS then s else s.(chan := s.chan[i := BlankChannel(i)])
  }

  function ClosedChannels(): (chan: seq<Channel>)
    ensures |chan| == MAX_CHANNELS && forall i :: 0 <= i < MAX_CHANNELS ==> chan[i] == BlankChannel(i)
  {
    seq(MAX_CHANNELS, i requires 0 <= i => BlankChannel(i))
  }

  /** Every channel closed. */
  function ResetChannels(s: State): (r: State)
    requires Shape(s)
    ensures Shape(r)
  {
    s.(chan := ClosedChannels())
  }

  /** A reply frame: body size in bits 10..0 of sz_ver, protocol version 1 in bits 23..16. */
  function MakeFrame(id: Word, opcode: Word, payload: seq<Word>): Frame {
    Frame(4 * |payload| % 0x800 + 0x10000, id, opcode, payload)
  }

  /** The device after ring `r` has taken a frame: new memory and tail, interrupt raised, counted. */
  function Deliver(h: Host, s: State, c: nat, f: Frame, r: Ring): (s': State)
    requires Shape(s) && c < MAX_CHANNELS && s.chan[c].active
    requires |r.mem| == RingSize(c) / 4 && r.tail < |r.mem|
    ensures Shape(s')
  {
    s.(sram := Splice(s.sram, I2xBase(c) / 4, r.mem),
       chan := s.chan[c := Produced(c, s.chan[c], r.tail)],
       stats := s.stats.(msgsOut := s.stats.msgsOut + 1, irqs := s.stats.irqs + if h.hasIrq then 1 else 0),
       log := s.log + [Replied(c, f, true)] + if h.hasIrq then [Irq(s.chan[c].index)] else [])
  }

  /** The send reaches the ring: the channel is open and the frame fits in an empty ring. */
  predicate Sends(s: State, c: nat, f: Frame)
    requires Shape(s)
  {
    c < MAX_CHANNELS && s.chan[c].active && Len(f) <= Usable(I2x(s, c))
  }

  /** Send a frame to the driver; a closed channel, an oversized frame or a full ring refuses it. */
  function Send(h: Host, s: State, c: nat, f: Frame): (r: SendResult)
    requires Shape(s)
    ensures Shape(r.state)
  {
    var refused := s.(log := s.log + [Replied(c, f, false)]);
    if !Sends(s, c, f) then SendResult(refused, false)
    else
      var p := Put(I2x(s, c), f);
      if p.accepted then SendResult(Deliver(h, s, c, f, p.ring), true)
      else SendResult(refused.(sram := Splice(s.sram, I2xBase(c) / 4, p.ring.mem)), false)
  }

  /** A send touches only the channel's producer side, its ring memory, the counters and the log. */
  lemma SendFields(h: Host, s: State, c: nat, g: Frame)
    requires Shape(s)
    ensures var r := Send(h, s, c, g);
            var irq := r.ok && h.hasIrq;
            && r.state.log == s.log + [Replied(c, g, r.ok)] + (if irq then [Irq(c)] else [])
            && r.state.stats == (if !r.ok then s.stats
                                 else s.stats.(msgsOut := s.stats.msgsOut + 1,
                                               irqs := s.stats.irqs + if irq then 1 else 0))
            && r.state.chan == (if !r.ok then s.chan
                                else s.chan[c := s.chan[c].(i2xTail := r.state.chan[c].i2xTail, intr := 1)])
            && r.state == s.(sram := r.state.sram, chan := r.state.chan, stats := r.state.stats, log := r.state.log)
    ensures Sends(s, c, g) ==> Send(h, s, c, g).state.sram == Splice(s.sram, I2xBase(c) / 4, Put(I2x(s, c), g).ring.mem)
    ensures !Sends(s, c, g) ==> Send(h, s, c, g).state.sram == s.sram
    ensures Send(h, s, c, g).ok ==> c < MAX_CHANNELS && s.chan[c].active
  {
    hide Put, Splice;
  }

  /** What the consumer finds at a channel's head. */
  datatype Look = Rewind | Malformed | Message(frame: Frame)

  /**
    The consumer's checks on the word at position `at` of a ring. The sum of
    header and payload size is a 32-bit sum, so it can wrap.
   */
  function LookAt(mem: seq<Word>, at: nat): (l: Look)
    requires at < |mem|
  {
    var peek := mem[at];
    if peek == TOMBSTONE then Rewind
    else if peek == 0 || peek % 4 != 0 then Malformed
    else if Add32(16, peek) > 4 * (|mem| - at) then Malformed
    else if peek > CTX_RB_SIZE then Malformed
    else Message(Frame(mem[at + 1], mem[at + 2], mem[at + 3], mem[at + 4..at + 4 + peek / 4]))
  }

  function Peek(s: State, c: nat): (l: Look)
    requires Shape(s) && c < MAX_CHANNELS
  {
    if s.chan[c].x2iHead >= s.chan[c].x2iSize then Rewind
    else LookAt(X2i(s, c).mem, X2i(s, c).head)
  }

  /** Whatever the ring contains, a message lies wholly inside it and is what it holds there. */
  lemma LookInside(mem: seq<Word>, at: nat)
    requires at < |mem| && LookAt(mem, at).Message?
    ensures FrameAt(mem, at, LookAt(mem, at).frame)
    ensures LookAt(mem, at).frame.payload != []
  {
    var f := LookAt(mem, at).frame;
    assert mem[at] == 4 * |f.payload|;
    assert Encode(f) == mem[at..at + Len(f)];
  }

  /** Conversely a well-formed frame is recognised, and a frame start is never a tombstone. */
  lemma LookFindsFrame(mem: seq<Word>, at: nat, f: Frame)
    requires FrameAt(mem, at, f) && f.payload != [] && 4 * |f.payload| <= CTX_RB_SIZE
    ensures LookAt(mem, at) == Message(f)
  {
    FrameAtWords(mem, at, f);
  }

  function RegRead(s: State, off: Word): Word
    requires Sized(s)
  {
    var c := off / CHAN_STRIDE;
    if c >= MAX_CHANNELS then 0
    else match off % CHAN_STRIDE
      case X2I_HEAD_OFF => s.chan[c].x2iHead
      case X2I_TAIL_OFF => s.chan[c].x2iTail
      case I2X_HEAD_OFF => s.chan[c].i2xHead
      case INTR_OFF => s.chan[c].intr
      case I2X_TAIL_OFF => s.chan[c].i2xTail
      case _ => 0
  }
}
