/** The consume loop of the mailbox: one tail write drains the channel, at most 256 looks per kick. */
module Consumer {
  import opened Regs
  import opened Ring
  import opened NpuState
  import opened Mailbox
  import opened Mert

  function Rewound(s: State, c: nat): (r: State)
    requires Shape(s) && c < MAX_CHANNELS
    ensures Shape(r)
  {
    SetChan(s, c, s.chan[c].(x2iHead := 0))
  }

  /** Position 0 is a position of every channel. */
  lemma RewindOk(s: State, c: nat)
    requires Shape(s) && c < MAX_CHANNELS
    ensures ChanOk(c, s.chan[c].(x2iHead := 0))
  {
  }

  /** The consumer position moved past a frame of `n` words. */
  function Consumed(i: nat, ch: Channel, n: nat): (r: Channel)
    requires i < MAX_CHANNELS && ChanOk(i, ch) && ch.active && ch.x2iHead + 4 * n <= ch.x2iSize
    ensures ChanOk(i, r) && r.active
  {
    ch.(x2iHead := ch.x2iHead + 4 * n)
  }

  /** A message taken off the ring and counted, not yet handled. */
  function Taken(s: State, c: nat, f: Frame): (r: State)
    requires Shape(s) && c < MAX_CHANNELS && Peek(s, c) == Message(f)
    ensures Shape(r)
  {
    PeekInside(s, c);
    s.(chan := s.chan[c := Consumed(c, s.chan[c], Len(f))],
       stats := s.stats.(msgsIn := s.stats.msgsIn + 1),
       log := s.log + [Dispatched(c, s.chan[c].x2iHead, f)])
  }

  /** Whatever the ring contains, a message found at the head lies wholly inside the ring. */
  lemma PeekInside(s: State, c: nat)
    requires Shape(s) && c < MAX_CHANNELS && Peek(s, c).Message?
    ensures s.chan[c].active
    ensures s.chan[c].x2iHead + 4 * Len(Peek(s, c).frame) <= s.chan[c].x2iSize
    ensures FrameAt(X2i(s, c).mem, X2i(s, c).head, Peek(s, c).frame)
  {
    LookInside(X2i(s, c).mem, X2i(s, c).head);
  }

  /** The consume loop with `fuel` iterations left. */
  function Drain(h: Host, s: State, c: nat, fuel: nat): (r: State)
    requires Shape(s) && c < MAX_CHANNELS
    ensures Shape(r)
    decreases fuel
  {
    if s.chan[c].x2iHead == s.chan[c].x2iTail || fuel == 0 then s
    else match Peek(s, c)
      case Rewind => Drain(h, Rewound(s, c), c, fuel - 1)
      case Malformed => s
      case Message(f) => Drain(h, Handle(h, Taken(s, c, f), c, f), c, fuel - 1)
  }

  function Process(h: Host, s: State, c: nat): (r: State)
    requires Shape(s)
    ensures Shape(r)
  {
    if c >= MAX_CHANNELS || !s.chan[c].active then s else Drain(h, s, c, MAX_MSG_PER_KICK)
  }

  /** The driver keeps the reader position of an open channel inside its ring. */
  predicate HeadInRange(s: State, off: Word, val: Word)
    requires Sized(s)
  {
    var c := off / CHAN_STRIDE;
    c < MAX_CHANNELS && s.chan[c].active && off % CHAN_STRIDE == I2X_HEAD_OFF ==> val <= RingSize(c) - 4
  }

  function RegWrite(h: Host, s: State, off: Word, val: Word): (r: State)
    requires Shape(s) && HeadInRange(s, off, val)
    ensures Shape(r)
  {
    var c := off / CHAN_STRIDE;
    if c >= MAX_CHANNELS then s
    else match off % CHAN_STRIDE
      case X2I_TAIL_OFF => Process(h, SetChan(s, c, s.chan[c].(x2iTail := val)), c)
      case I2X_HEAD_OFF => SetChan(s, c, s.chan[c].(i2xHead := val))
      case INTR_OFF => SetChan(s, c, s.chan[c].(intr := val))
      case _ => s
  }
}
