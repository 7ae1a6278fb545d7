/** The driver's mailbox code: submit one request, collect one reply. */
module LockstepModel {
  import opened Regs
  import opened Ring
  import opened NpuState
  import opened Mailbox
  import opened Mert
  import opened Traffic
  import opened Soundness
  import Consumer

  /** The driver's own copies of its two ring positions, and its id counter. */
  datatype Drv = Drv(x2iTail: Word, i2xHead: Word, nextId: Word)

  datatype Submitted = Submitted(state: State, drv: Drv, ok: bool)

  datatype Collected = Collected(state: State, drv: Drv, got: GetResult)

  function RequestFrame(d: Drv, op: Word, req: seq<Word>): Frame {
    MakeFrame(d.nextId % 0x100 + MBOX_MAGIC_VAL, op, req)
  }

  /** The request ring as the driver computes it: the device's head, its own tail. */
  function RequestRing(s: State, d: Drv, c: nat): (r: Ring)
    requires Shape(s) && c < MAX_CHANNELS
    ensures |r.mem| == RingSize(c) / 4
  {
    Ring(X2i(s, c).mem, s.chan[c].x2iHead / 4, d.x2iTail / 4)
  }

  /** The reply ring as the driver reads it: its own head, the device's tail. */
  function ReplyRing(s: State, d: Drv, c: nat): (r: Ring)
    requires Shape(s) && c < MAX_CHANNELS
    ensures |r.mem| == RingSize(c) / 4
  {
    Ring(I2x(s, c).mem, d.i2xHead / 4, s.chan[c].i2xTail / 4)
  }

  /** Write a request into ring memory and ring the tail register; refused if the ring is full. */
  function Submit(h: Host, s: State, d: Drv, c: nat, f: Frame): (r: Submitted)
    requires Shape(s) && c < MAX_CHANNELS
    requires Ready(RequestRing(s, d, c)) && Len(f) <= Usable(RequestRing(s, d, c))
    ensures Shape(r.state)
  {
    var p := Put(RequestRing(s, d, c), f);
    var s1 := s.(sram := Splice(s.sram, X2iBase(c) / 4, p.ring.mem));
    if !p.accepted then Submitted(s1, d, false)
    else
      Submitted(Consumer.RegWrite(h, s1, c * CHAN_STRIDE + X2I_TAIL_OFF, 4 * p.ring.tail),
                d.(x2iTail := 4 * p.ring.tail, nextId := Add32(d.nextId, 1)), true)
  }

  /** Acknowledge the interrupt, skip tombstones, take the reply and publish the new head. */
  function Collect(s: State, d: Drv, c: nat): (r: Collected)
    requires Shape(s) && c < MAX_CHANNELS && s.chan[c].active
    requires Ready(ReplyRing(s, d, c)) && Ready(Get(ReplyRing(s, d, c), 64).ring)
    ensures Shape(r.state)
  {
    var g := Get(ReplyRing(s, d, c), 64);
    var head := 4 * g.ring.head;
    Collected(SetChan(s, c, s.chan[c].(intr := 0, i2xHead := head)), d.(i2xHead := head), g)
  }

  /** Driver and device agree on the positions each of them moves, and the request ring is empty. */
  predicate Linked(s: State, d: Drv, c: nat)
    requires Sized(s) && c < MAX_CHANNELS
  {
    && s.chan[c].active
    && s.chan[c].x2iHead == s.chan[c].x2iTail == d.x2iTail
    && d.x2iTail % 4 == 0 && d.x2iTail <= RingSize(c) - 4
    && s.chan[c].i2xHead == d.i2xHead && d.i2xHead % 4 == 0
  }

  /** The same, with nothing in the reply ring either. */
  predicate Synced(s: State, d: Drv, c: nat)
    requires Sized(s) && c < MAX_CHANNELS
  {
    Linked(s, d, c) && s.chan[c].i2xHead == s.chan[c].i2xTail
  }

  /** Driver and device are linked, and the replies `q` are waiting. */
  ghost predicate Carrying(h: Host, s: State, d: Drv, c: nat, q: seq<Frame>) {
    c < MAX_CHANNELS && Sound(h, s) && Linked(s, d, c) && Holds(I2x(s, c), q)
  }

  ghost predicate InStep(h: Host, s: State, d: Drv, c: nat) {
    c < MAX_CHANNELS && Sound(h, s) && Synced(s, d, c)
  }

  /** A request the driver can place: some payload, at most half the ring, not closing the channel of context `own`. */
  predicate Sendable(c: nat, own: Word, f: Frame) {
    && f.payload != []
    && 2 * Len(f) <= RingSize(c) / 4 - 1
    && Stays(c, own, f)
  }

  /** A request that gets a reply. */
  predicate Askable(c: nat, own: Word, f: Frame) {
    Sendable(c, own, f) && !AsyncAccepted(f)
  }
}
