/** Byte-wise in-place ring writes amount to writes on the ring's own memory. */
module NpuMemory {
  import opened Regs
  import opened Ring
  import opened NpuState
  import opened Mailbox

  /** Writing inside the block at word `b` is replacing the block by its updated copy. */
  lemma SpliceInside(sram: seq<Word>, b: nat, n: nat, at: nat, ws: seq<Word>)
    requires b + n <= |sram| && at + |ws| <= n
    ensures Splice(sram, b + at, ws) == Splice(sram, b, Splice(sram[b..b + n], at, ws))
  {
  }

  lemma SpliceTwice(sram: seq<Word>, at: nat, a: seq<Word>, c: seq<Word>)
    requires at + |a| + |c| <= |sram|
    ensures Splice(Splice(sram, at, a), at + |a|, c) == Splice(sram, at, a + c)
  {
  }

  /** A tombstone at word `t` of the block, then a frame at word `at`. */
  lemma SpliceAfterMark(sram: seq<Word>, b: nat, n: nat, t: nat, w: Word, at: nat, ws: seq<Word>)
    requires b + n <= |sram| && at + |ws| <= n && t < n
    ensures Splice(sram[b + t := w], b + at, ws) == Splice(sram, b, Splice(sram[b..b + n][t := w], at, ws))
  {
  }

  lemma MarkInside(sram: seq<Word>, b: nat, n: nat, t: nat, w: Word)
    requires b + n <= |sram| && t < n
    ensures sram[b + t := w] == Splice(sram, b, sram[b..b + n][t := w])
  {
  }

  lemma SpliceSame(sram: seq<Word>, b: nat, n: nat)
    requires b + n <= |sram|
    ensures Splice(sram, b, sram[b..b + n]) == sram
  {
  }

  /** Reading SRAM in place at channel `c`'s head is reading its request ring. */
  lemma PeekInPlace(s: State, c: nat)
    requires Shape(s) && c < MAX_CHANNELS && s.chan[c].x2iHead < s.chan[c].x2iSize
    ensures var ch, r := s.chan[c], X2i(s, c);
            var at := (ch.x2iBuf + ch.x2iHead) / 4;
            && r.head < |r.mem| && ch.x2iSize - ch.x2iHead == 4 * (|r.mem| - r.head)
            && at + |r.mem| - r.head <= |s.sram|
            && s.sram[at..at + |r.mem| - r.head] == r.mem[r.head..]
  {
    var b := X2iBase(c) / 4;
    assert (s.chan[c].x2iBuf + s.chan[c].x2iHead) / 4 == b + X2i(s, c).head;
    assert X2i(s, c).mem == s.sram[b..b + |X2i(s, c).mem|];
  }

  lemma SpliceOne(sram: seq<Word>, at: nat, w: Word)
    requires at < |sram|
    ensures Splice(sram, at, [w]) == sram[at := w]
  {
  }

  /** Where a `Put` writes its frame, and memory once its tombstone, if any, is in place. */
  predicate PutWraps(r: Ring, f: Frame) {
    r.tail >= r.head && r.tail + Len(f) > Usable(r)
  }

  function PutStart(r: Ring, f: Frame): nat {
    if PutWraps(r, f) then 0 else r.tail
  }

  function PutMarked(sram: seq<Word>, b: nat, r: Ring, f: Frame): (m: seq<Word>)
    requires Ready(r) && b + |r.mem| <= |sram|
    ensures |m| == |sram|
  {
    if PutWraps(r, f) then sram[b + r.tail := TOMBSTONE] else sram
  }

  lemma PutRefusedInPlace(sram: seq<Word>, b: nat, r: Ring, f: Frame)
    requires Ready(r) && Len(f) <= Usable(r) && !Put(r, f).accepted
    requires b + |r.mem| <= |sram| && r.mem == sram[b..b + |r.mem|]
    ensures PutStart(r, f) < r.head && PutStart(r, f) + Len(f) >= r.head
    ensures PutMarked(sram, b, r, f) == Splice(sram, b, Put(r, f).ring.mem)
  {
    SpliceSame(sram, b, |r.mem|);
    MarkInside(sram, b, |r.mem|, r.tail, TOMBSTONE);
  }

  lemma PutValue(r: Ring, f: Frame)
    requires Ready(r) && Len(f) <= Usable(r) && Put(r, f).accepted
    ensures !(PutStart(r, f) < r.head && PutStart(r, f) + Len(f) >= r.head)
    ensures PutStart(r, f) + Len(f) <= Usable(r) && Put(r, f).ring.tail == PutStart(r, f) + Len(f)
    ensures Put(r, f).ring.mem ==
            Splice(if PutWraps(r, f) then r.mem[r.tail := TOMBSTONE] else r.mem, PutStart(r, f), Encode(f))
  {
    hide Splice, Encode;
  }

  lemma PutAcceptedInPlace(sram: seq<Word>, b: nat, r: Ring, f: Frame)
    requires Ready(r) && Len(f) <= Usable(r) && Put(r, f).accepted
    requires b + |r.mem| <= |sram| && r.mem == sram[b..b + |r.mem|]
    ensures !(PutStart(r, f) < r.head && PutStart(r, f) + Len(f) >= r.head)
    ensures PutStart(r, f) + Len(f) <= Usable(r) && Put(r, f).ring.tail == PutStart(r, f) + Len(f)
    ensures Splice(PutMarked(sram, b, r, f), b + PutStart(r, f), Encode(f)) == Splice(sram, b, Put(r, f).ring.mem)
  {
    hide Encode, Splice, Put;
    PutValue(r, f);
    if PutWraps(r, f) {
      SpliceAfterMark(sram, b, |r.mem|, r.tail, TOMBSTONE, 0, Encode(f));
    } else {
      SpliceInside(sram, b, |r.mem|, r.tail, Encode(f));
    }
  }

  /** A `Put` on the ring at word `b`, done in place: perhaps a tombstone at the tail, then the frame. */
  lemma PutInPlace(sram: seq<Word>, b: nat, r: Ring, f: Frame)
    requires Ready(r) && Len(f) <= Usable(r)
    requires b + |r.mem| <= |sram| && r.mem == sram[b..b + |r.mem|]
    ensures var p, start := Put(r, f), PutStart(r, f);
            && (p.accepted <==> !(start < r.head && start + Len(f) >= r.head))
            && (!p.accepted ==> PutMarked(sram, b, r, f) == Splice(sram, b, p.ring.mem))
            && (p.accepted ==>
                  && start + Len(f) <= Usable(r) && p.ring.tail == start + Len(f)
                  && Splice(PutMarked(sram, b, r, f), b + start, Encode(f)) == Splice(sram, b, p.ring.mem))
  {
    hide Splice, Encode, Put, PutMarked, PutStart, Ready;
    if Put(r, f).accepted {
      PutAcceptedInPlace(sram, b, r, f);
    } else {
      PutRefusedInPlace(sram, b, r, f);
    }
  }

  lemma SliceOfSlice(s: seq<Word>, a: nat, b: nat, c: nat, d: nat)
    requires a <= b <= |s| && c <= d <= b - a
    ensures s[a..b][c..d] == s[a + c..a + d]
  {
    var u, v := s[a..b], s[a + c..a + d];
    assert |u[c..d]| == |v|;
    forall i | 0 <= i < |v|
      ensures u[c..d][i] == v[i]
    {
      assert u[c..d][i] == u[c + i];
    }
  }

  /** The consumer's checks only read from the head on. */
  lemma LookFrom(mem: seq<Word>, at: nat, sram: seq<Word>, k: nat)
    requires at < |mem| && k + |mem| - at <= |sram| && sram[k..k + |mem| - at] == mem[at..]
    ensures sram[k] == mem[at]
    ensures LookAt(mem, at).Message? ==>
              var n := mem[at] / 4;
              && at + 4 + n <= |mem| && sram[k + 1] == mem[at + 1] && sram[k + 2] == mem[at + 2]
                  && sram[k + 3] == mem[at + 3]
              && sram[k + 4..k + 4 + n] == mem[at + 4..at + 4 + n]
  {
    var t := mem[at..];
    var u := sram[k..k + |mem| - at];
    assert u == t && sram[k] == u[0];
    if LookAt(mem, at).Message? {
      var n := mem[at] / 4;
      assert sram[k + 1] == u[1] && sram[k + 2] == u[2] && sram[k + 3] == u[3];
      SliceOfSlice(sram, k, k + |mem| - at, 4, 4 + n);
      SliceOfSlice(mem, at, |mem|, 4, 4 + n);
      assert mem[at..|mem|] == t;
    }
  }

  /** A send's decisions in byte arithmetic: does it wrap, where does the frame go, is it refused. */
  predicate Wraps(ch: Channel, pkg: nat) {
    ch.i2xTail >= ch.i2xHead && ch.i2xTail + pkg > ch.i2xSize - 4
  }

  function StartAt(ch: Channel, pkg: nat): nat {
    if Wraps(ch, pkg) then 0 else ch.i2xTail
  }

  predicate Refuses(ch: Channel, pkg: nat) {
    StartAt(ch, pkg) < ch.i2xHead && StartAt(ch, pkg) + pkg >= ch.i2xHead
  }

  /** They agree with the word arithmetic of `Put`. */
  lemma SendDecides(s: State, c: nat, f: Frame)
    requires Shape(s) && Sends(s, c, f)
    ensures var ch, pkg, r := s.chan[c], 4 * Len(f), I2x(s, c);
            && Ready(r) && Len(f) <= Usable(r)
            && (Wraps(ch, pkg) <==> r.tail >= r.head && r.tail + Len(f) > Usable(r))
            && StartAt(ch, pkg) == 4 * (if Wraps(ch, pkg) then 0 else r.tail)
            && (Refuses(ch, pkg) <==> !Put(r, f).accepted)
            && (!Refuses(ch, pkg) ==> Put(r, f).ring.tail == StartAt(ch, pkg) / 4 + Len(f))
            && ch.i2xTail == 4 * r.tail && ch.i2xBuf == I2xBase(c) && I2xBase(c) % 4 == 0
            && I2xBase(c) / 4 + |r.mem| <= |s.sram| && r.mem == s.sram[I2xBase(c) / 4..I2xBase(c) / 4 + |r.mem|]
  {
  }

  /** SRAM once the tombstone of a wrapping send is in place. */
  function Marked(s: State, c: nat, pkg: nat): (sram: seq<Word>)
    requires Shape(s) && c < MAX_CHANNELS && s.chan[c].active
    ensures |sram| == |s.sram|
  {
    var ch := s.chan[c];
    if Wraps(ch, pkg) then s.sram[(ch.i2xBuf + ch.i2xTail) / 4 := TOMBSTONE] else s.sram
  }

  lemma MarkedRefused(s: State, c: nat, f: Frame)
    requires Shape(s) && Sends(s, c, f) && Refuses(s.chan[c], 4 * Len(f))
    ensures Marked(s, c, 4 * Len(f)) == Splice(s.sram, I2xBase(c) / 4, Put(I2x(s, c), f).ring.mem)
  {
    hide Splice, I2xBase, X2iBase, I2x, Put;
    SendDecides(s, c, f);
    PutInPlace(s.sram, I2xBase(c) / 4, I2x(s, c), f);
  }

  lemma MarkedAccepted(s: State, c: nat, f: Frame)
    requires Shape(s) && Sends(s, c, f) && !Refuses(s.chan[c], 4 * Len(f))
    ensures var start := StartAt(s.chan[c], 4 * Len(f));
            && start % 4 == 0 && start + 4 * Len(f) <= RingSize(c) - 4
            && I2xBase(c) / 4 + start / 4 + Len(f) <= |s.sram|
            && Splice(Marked(s, c, 4 * Len(f)), I2xBase(c) / 4 + start / 4, Encode(f))
               == Splice(s.sram, I2xBase(c) / 4, Put(I2x(s, c), f).ring.mem)
            && 4 * Put(I2x(s, c), f).ring.tail == start + 4 * Len(f)
  {
    hide Splice, Encode, I2xBase, X2iBase, I2x, Put;
    SendDecides(s, c, f);
    PutInPlace(s.sram, I2xBase(c) / 4, I2x(s, c), f);
  }

  /** The bookkeeping of a delivered frame. */
  function Published(h: Host, s: State, c: nat, f: Frame, tail: Word): State
    requires Sized(s) && c < MAX_CHANNELS
  {
    s.(chan := s.chan[c := s.chan[c].(i2xTail := tail, intr := 1)],
       stats := s.stats.(msgsOut := s.stats.msgsOut + 1, irqs := s.stats.irqs + if h.hasIrq then 1 else 0),
       log := s.log + [Replied(c, f, true)] + if h.hasIrq then [Irq(c)] else [])
  }

  /** A send that reaches the ring, spelled out. */
  lemma SendUnfolds(h: Host, s: State, c: nat, f: Frame)
    requires Shape(s) && Sends(s, c, f)
    ensures var p := Put(I2x(s, c), f);
            var t := s.(sram := Splice(s.sram, I2xBase(c) / 4, p.ring.mem));
            && c < MAX_CHANNELS
            && Send(h, s, c, f).ok == p.accepted
            && (p.accepted ==> Send(h, s, c, f).state == Published(h, t, c, f, 4 * p.ring.tail))
            && (!p.accepted ==> Send(h, s, c, f).state == t.(log := t.log + [Replied(c, f, false)]))
  {
    hide Put, Splice;
  }

  /** A refused send: perhaps a tombstone, and the refusal logged. */
  lemma SendRefused(h: Host, s: State, c: nat, f: Frame)
    requires Shape(s) && Sends(s, c, f) && Refuses(s.chan[c], 4 * Len(f))
    ensures Send(h, s, c, f) ==
            SendResult(s.(sram := Marked(s, c, 4 * Len(f)), log := s.log + [Replied(c, f, false)]), false)
  {
    hide Put, Splice, Send, Marked, Refuses, I2x, I2xBase;
    SendDecides(s, c, f);
    SendUnfolds(h, s, c, f);
    MarkedRefused(s, c, f);
  }

  /** An accepted send: perhaps a tombstone, then the frame at the start position, then the bookkeeping. */
  lemma SendAccepted(h: Host, s: State, c: nat, f: Frame)
    requires Shape(s) && Sends(s, c, f) && !Refuses(s.chan[c], 4 * Len(f))
    ensures var start := s.chan[c].i2xBuf + StartAt(s.chan[c], 4 * Len(f));
            var tail := StartAt(s.chan[c], 4 * Len(f)) + 4 * Len(f);
            && start % 4 == 0 && start + 4 * Len(f) <= SRAM_BYTES && tail % 4 == 0 && tail <= RingSize(c) - 4
            && Send(h, s, c, f) ==
               SendResult(Published(h, s.(sram := Splice(Marked(s, c, 4 * Len(f)), start / 4, Encode(f))), c, f,
                   tail), true)
  {
    hide Put, Splice, Encode, Send, Marked, StartAt, Refuses, I2x, I2xBase, Published;
    SendDecides(s, c, f);
    SendUnfolds(h, s, c, f);
    MarkedAccepted(s, c, f);
  }
}
