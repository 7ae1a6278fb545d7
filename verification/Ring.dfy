/**
  One single-producer/single-consumer mailbox ring: frames are written head to
  tail, a frame that does not fit before the reserved last word is preceded by a
  tombstone and written from offset 0. The same writer arithmetic is used by the
  device (firmware to host) and by the driver (host to firmware).

  Positions here are word positions; the byte registers are four times as large.
 */
module Ring {
  import opened Regs

  /** A message: header words after the length, and the payload. */
  datatype Frame = Frame(szVer: Word, id: Word, opcode: Word, payload: seq<Word>)

  datatype Ring = Ring(mem: seq<Word>, head: nat, tail: nat)

  datatype PutResult = PutResult(ring: Ring, accepted: bool)

  datatype GetResult = Empty(ring: Ring) | Stuck(ring: Ring) | Garbled(ring: Ring) | Got(ring: Ring, frame: Frame)

  /** Header and payload, in words. */
  function Len(f: Frame): nat {
    4 + |f.payload|
  }

  /** The payload length in bytes fits the 32-bit total_size field. */
  predicate Encodable(f: Frame) {
    4 * |f.payload| < TWO32
  }

  /** The image of a frame in ring memory: total_size, sz_ver, id, opcode, payload. */
  function Encode(f: Frame): (ws: seq<Word>)
    requires Encodable(f)
    ensures |ws| == Len(f)
  {
    [4 * |f.payload|, f.szVer, f.id, f.opcode] + f.payload
  }

  function Splice<T>(mem: seq<T>, at: nat, ws: seq<T>): (r: seq<T>)
    requires at + |ws| <= |mem|
    ensures |r| == |mem|
    ensures forall i :: 0 <= i < |mem| ==> r[i] == if at <= i < at + |ws| then ws[i - at] else mem[i]
  {
    mem[..at] + ws + mem[at + |ws|..]
  }

  /** Words a frame may use: the last word is reserved for a tombstone. */
  function Usable(r: Ring): int {
    |r.mem| - 1
  }

  predicate Ready(r: Ring) {
    && 4 * |r.mem| < TWO32
    && r.tail < |r.mem|
    && r.head < |r.mem|
  }

  /** The writer: tombstone and wrap if the frame does not fit, refuse if it would reach `head`. */
  function Put(r: Ring, f: Frame): (p: PutResult)
    requires Ready(r) && Len(f) <= Usable(r)
    ensures Ready(p.ring)
    ensures |p.ring.mem| == |r.mem| && p.ring.head == r.head
  {
    var wrap := r.tail >= r.head && r.tail + Len(f) > Usable(r);
    var mem := if wrap then r.mem[r.tail := TOMBSTONE] else r.mem;
    var tail := if wrap then 0 else r.tail;
    if tail < r.head && tail + Len(f) >= r.head then
      PutResult(r.(mem := mem), false)
    else
      PutResult(Ring(Splice(mem, tail, Encode(f)), r.head, tail + Len(f)), true)
  }

  /** The writer, called with any frame: one that is too large for an empty ring is refused outright. */
  function Offer(r: Ring, f: Frame): (p: PutResult)
    requires Ready(r)
    ensures Ready(p.ring)
    ensures |p.ring.mem| == |r.mem| && p.ring.head == r.head
  {
    if Len(f) > Usable(r) then PutResult(r, false) else Put(r, f)
  }

  /** The reader: skip a tombstone, then take the frame at `head`; at most `fuel` looks. */
  function Get(r: Ring, fuel: nat): (g: GetResult)
    requires Ready(r)
    ensures g.ring.mem == r.mem && g.ring.tail == r.tail
    decreases fuel
  {
    if fuel == 0 then Stuck(r)
    else if r.head == r.tail then Empty(r)
    else if r.mem[r.head] == TOMBSTONE then Get(r.(head := 0), fuel - 1)
    else
      var n := r.mem[r.head] / 4;
      if r.mem[r.head] % 4 != 0 || r.head + 4 + n > |r.mem| then Garbled(r)
      else
        Got(r.(head := r.head + 4 + n),
            Frame(r.mem[r.head + 1], r.mem[r.head + 2], r.mem[r.head + 3], r.mem[r.head + 4..r.head + 4 + n]))
  }

  // --- What a ring holds ---

  predicate FrameAt(mem: seq<Word>, at: nat, f: Frame) {
    && Encodable(f)
    && at + Len(f) <= |mem|
    && mem[at..at + Len(f)] == Encode(f)
  }

  /** Words [lo, hi) of `mem` are exactly the frames `q`, back to back. */
  ghost predicate Seg(mem: seq<Word>, lo: nat, hi: nat, q: seq<Frame>)
    decreases |q|
  {
    if q == [] then lo == hi
    else lo + Len(q[0]) <= hi && FrameAt(mem, lo, q[0]) && Seg(mem, lo + Len(q[0]), hi, q[1..])
  }

  /**
    Read from word `h` up to word `t`, the memory holds the frames `q`: directly
    while h <= t, otherwise through a tombstone and on from word 0.
   */
  ghost predicate Chain(mem: seq<Word>, h: nat, t: nat, q: seq<Frame>)
    decreases |q|
  {
    if h <= t then Seg(mem, h, t, q)
    else
      && q != []
      && h < |mem|
      && if mem[h] == TOMBSTONE then Seg(mem, 0, t, q)
         else h + Len(q[0]) < |mem| && FrameAt(mem, h, q[0]) && Chain(mem, h + Len(q[0]), t, q[1..])
  }

  ghost predicate Holds(r: Ring, q: seq<Frame>) {
    Ready(r) && Chain(r.mem, r.head, r.tail, q)
  }

  /** The one case in which the writer overruns unread frames. */
  predicate Overruns(r: Ring, f: Frame) {
    r.head == 0 && Len(f) <= Usable(r) && r.tail + Len(f) > Usable(r)
  }
}
