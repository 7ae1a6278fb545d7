/**
  The writer and the reader of a ring undo each other: `Put` appends to the queue
  a ring holds, `Get` pops it, through any number of wraps.
 */
module RingFifo {
  import opened Regs
  import opened Ring

  // --- Segments ---

  /** A frame survives in any memory that agrees on its words, and does not start like a tombstone. */
  lemma FrameCopied(mem: seq<Word>, mem': seq<Word>, at: nat, f: Frame)
    requires FrameAt(mem, at, f) && |mem'| == |mem|
    requires forall i :: at <= i < at + Len(f) && i < |mem| ==> mem'[i] == mem[i]
    ensures FrameAt(mem', at, f) && mem'[at] != TOMBSTONE && mem[at] != TOMBSTONE
  {
    assert mem'[at..at + Len(f)] == mem[at..at + Len(f)];
    FrameAtWords(mem, at, f);
  }

  lemma {:induction false} SegFrame(mem: seq<Word>, mem': seq<Word>, lo: nat, hi: nat, q: seq<Frame>)
    requires Seg(mem, lo, hi, q)
    requires |mem'| == |mem|
    requires forall i :: lo <= i < hi && i < |mem| ==> mem'[i] == mem[i]
    ensures Seg(mem', lo, hi, q)
    decreases |q|
  {
    hide FrameAt;
    if q == [] {
    } else {
      FrameCopied(mem, mem', lo, q[0]);
      SegFrame(mem, mem', lo + Len(q[0]), hi, q[1..]);
    }
  }

  lemma {:induction false} SegAppend(mem: seq<Word>, lo: nat, hi: nat, q: seq<Frame>, f: Frame)
    requires Seg(mem, lo, hi, q) && FrameAt(mem, hi, f)
    ensures Seg(mem, lo, hi + Len(f), q + [f])
    decreases |q|
  {
    hide FrameAt;
    if q == [] {
      assert q + [f] == [f];
    } else {
      SegAppend(mem, lo + Len(q[0]), hi, q[1..], f);
      assert (q + [f])[1..] == q[1..] + [f];
    }
  }

  /** A segment has room for its frames: four header words each, and the payloads. */
  lemma {:induction false} SegBound(mem: seq<Word>, lo: nat, hi: nat, q: seq<Frame>)
    requires Seg(mem, lo, hi, q)
    ensures lo + 4 * |q| <= hi
    ensures (forall f :: f in q ==> f.payload != []) ==> lo + 5 * |q| <= hi
    decreases |q|
  {
    if q == [] {
    } else {
      SegBound(mem, lo + Len(q[0]), hi, q[1..]);
    }
  }

  lemma FrameAtWords(mem: seq<Word>, at: nat, f: Frame)
    requires FrameAt(mem, at, f)
    ensures mem[at] == 4 * |f.payload| && mem[at + 1] == f.szVer && mem[at + 2] == f.id && mem[at + 3] == f.opcode
    ensures mem[at + 4..at + 4 + |f.payload|] == f.payload
    ensures mem[at] != TOMBSTONE
  {
    var s := mem[at..at + Len(f)];
    assert s[0] == mem[at] && s[1] == mem[at + 1] && s[2] == mem[at + 2] && s[3] == mem[at + 3];
    assert mem[at + 4..at + 4 + |f.payload|] == s[4..];
    assert Encode(f)[4..] == f.payload;
  }

  lemma SpliceFrameAt(mem: seq<Word>, at: nat, f: Frame)
    requires Encodable(f) && at + Len(f) <= |mem|
    ensures FrameAt(Splice(mem, at, Encode(f)), at, f)
  {
    assert Splice(mem, at, Encode(f))[at..at + Len(f)] == Encode(f);
  }

  // --- The writer appends, or changes nothing ---

  /** Appending behind a wrapped queue: the reader's path up to the old tail is untouched. */
  lemma {:induction false} ChainAppend(mem: seq<Word>, mem': seq<Word>, h: nat, t: nat, q: seq<Frame>, f: Frame)
    requires Chain(mem, h, t, q) && |mem'| == |mem|
    requires t + Len(f) < h && FrameAt(mem', t, f)
    requires forall i :: 0 <= i < t || h <= i < |mem| ==> mem'[i] == mem[i]
    ensures Chain(mem', h, t + Len(f), q + [f])
    decreases |q|
  {
    hide FrameAt;
    if mem[h] == TOMBSTONE {
      SegFrame(mem, mem', 0, t, q);
      SegAppend(mem', 0, t, q, f);
    } else {
      var n := Len(q[0]);
      FrameCopied(mem, mem', h, q[0]);
      ChainAppend(mem, mem', h + n, t, q[1..], f);
      assert (q + [f])[1..] == q[1..] + [f];
    }
  }

  /** Wrapping: a tombstone after the live frames and the new frame at word 0. */
  lemma {:induction false} ChainWrap(mem: seq<Word>, mem': seq<Word>, h: nat, t: nat, q: seq<Frame>, f: Frame)
    requires Seg(mem, h, t, q) && |mem'| == |mem| && t < |mem|
    requires Len(f) < h && FrameAt(mem', 0, f) && mem'[t] == TOMBSTONE
    requires forall i :: h <= i < t ==> mem'[i] == mem[i]
    ensures Chain(mem', h, Len(f), q + [f])
    decreases |q|
  {
    hide FrameAt;
    if q == [] {
      SegAppend(mem', 0, 0, q, f);
    } else {
      var n := Len(q[0]);
      FrameCopied(mem, mem', h, q[0]);
      SegBound(mem, h + n, t, q[1..]);
      ChainWrap(mem, mem', h + n, t, q[1..], f);
      assert (q + [f])[1..] == q[1..] + [f] && (q + [f])[0] == q[0];
    }
  }

  lemma PutFits(r: Ring, q: seq<Frame>, f: Frame)
    requires Holds(r, q) && r.head <= r.tail && r.tail + Len(f) <= Usable(r)
    ensures Put(r, f).accepted && Holds(Put(r, f).ring, q + [f])
  {
    hide FrameAt, Encode;
    var mem := Splice(r.mem, r.tail, Encode(f));
    SpliceFrameAt(r.mem, r.tail, f);
    SegFrame(r.mem, mem, r.head, r.tail, q);
    SegAppend(mem, r.head, r.tail, q, f);
  }

  lemma PutWraps(r: Ring, q: seq<Frame>, f: Frame)
    requires Holds(r, q) && r.head <= r.tail && r.tail + Len(f) > Usable(r) && Len(f) < r.head
    ensures Put(r, f).accepted && Holds(Put(r, f).ring, q + [f])
  {
    hide FrameAt, Encode;
    var mem0 := r.mem[r.tail := TOMBSTONE];
    SpliceFrameAt(mem0, 0, f);
    ChainWrap(r.mem, Splice(mem0, 0, Encode(f)), r.head, r.tail, q, f);
  }

  lemma PutBehindHead(r: Ring, q: seq<Frame>, f: Frame)
    requires Holds(r, q) && r.tail + Len(f) < r.head
    ensures Put(r, f).accepted && Holds(Put(r, f).ring, q + [f])
  {
    hide FrameAt, Encode, Seg;
    SpliceFrameAt(r.mem, r.tail, f);
    ChainAppend(r.mem, Splice(r.mem, r.tail, Encode(f)), r.head, r.tail, q, f);
  }

  /** A refused send may already have written a tombstone; it lies outside the live frames. */
  lemma PutRefused(r: Ring, q: seq<Frame>, f: Frame)
    requires Holds(r, q) && Len(f) <= Usable(r) && !Put(r, f).accepted
    ensures Holds(Put(r, f).ring, q)
  {
    if r.head <= r.tail {
      SegFrame(r.mem, r.mem[r.tail := TOMBSTONE], r.head, r.tail, q);
    }
  }

  /** FIFO, writer side: an accepted frame goes to the back, a refused one leaves the queue as it was. */
  lemma PutAppends(r: Ring, q: seq<Frame>, f: Frame)
    requires Holds(r, q) && Len(f) <= Usable(r) && !Overruns(r, f)
    ensures Holds(Put(r, f).ring, if Put(r, f).accepted then q + [f] else q)
    ensures Put(r, f).accepted ==> Put(r, f).ring.head != Put(r, f).ring.tail
  {
    if !Put(r, f).accepted {
      PutRefused(r, q, f);
    } else if r.tail < r.head {
      PutBehindHead(r, q, f);
    } else if r.tail + Len(f) <= Usable(r) {
      PutFits(r, q, f);
    } else {
      PutWraps(r, q, f);
    }
  }

  // --- The reader pops the oldest frame ---

  lemma GetFrame(r: Ring, f: Frame, fuel: nat)
    requires Ready(r) && r.head != r.tail && fuel >= 1
    requires FrameAt(r.mem, r.head, f)
    ensures Get(r, fuel) == Got(r.(head := r.head + Len(f)), f)
  {
    FrameAtWords(r.mem, r.head, f);
  }

  /** FIFO, reader side: the oldest frame comes out with its contents, and the rest stays. */
  lemma GetPops(r: Ring, q: seq<Frame>, fuel: nat)
    requires Holds(r, q) && fuel >= 2
    ensures q == [] ==> Get(r, fuel) == Empty(r)
    ensures q != [] ==> Get(r, fuel).Got? && Get(r, fuel).frame == q[0] && Get(r, fuel).ring.head > 0
    ensures q != [] ==> Holds(Get(r, fuel).ring, q[1..])
  {
    if q == [] {
    } else if r.tail < r.head && r.mem[r.head] == TOMBSTONE {
      GetFrame(r.(head := 0), q[0], fuel - 1);
    } else {
      GetFrame(r, q[0], fuel);
    }
  }

  lemma HoldsReady(r: Ring, q: seq<Frame>)
    requires Holds(r, q)
    ensures Ready(r)
  {
  }

  /** A ring holds at most one queue. */
  lemma {:induction false} HoldsUnique(r: Ring, q1: seq<Frame>, q2: seq<Frame>)
    requires Holds(r, q1) && Holds(r, q2)
    ensures q1 == q2
    decreases |q1|
  {
    GetPops(r, q1, 2);
    GetPops(r, q2, 2);
    if q1 == [] || q2 == [] {
    } else {
      HoldsUnique(Get(r, 2).ring, q1[1..], q2[1..]);
      assert q1 == [q1[0]] + q1[1..] && q2 == [q2[0]] + q2[1..];
    }
  }

  /** In the overrun case every unread frame is lost: the ring then holds the new frame alone. */
  lemma PutOverruns(r: Ring, q: seq<Frame>, f: Frame)
    requires Holds(r, q) && Len(f) <= Usable(r) && Overruns(r, f)
    ensures q != [] && Put(r, f).accepted && Holds(Put(r, f).ring, [f])
  {
    var p := Put(r, f);
    SpliceFrameAt(r.mem[r.tail := TOMBSTONE], 0, f);
    SegAppend(p.ring.mem, 0, 0, [], f);
    assert [] + [f] == [f];
  }

  /** Exactly when a send keeps the FIFO discipline. */
  lemma PutIsFifoIff(r: Ring, q: seq<Frame>, f: Frame)
    requires Holds(r, q) && Len(f) <= Usable(r)
    ensures Holds(Put(r, f).ring, if Put(r, f).accepted then q + [f] else q) <==> !Overruns(r, f)
  {
    if Overruns(r, f) {
      PutOverruns(r, q, f);
      if Holds(Put(r, f).ring, q + [f]) {
        HoldsUnique(Put(r, f).ring, q + [f], [f]);
      }
    } else {
      PutAppends(r, q, f);
    }
  }

  /** A drained ring accepts a frame at every position exactly when two such frames fit. */
  lemma DrainedAcceptsIff(mem: seq<Word>, f: Frame)
    requires 1 <= |mem| && 4 * |mem| < TWO32 && Len(f) <= |mem| - 1
    ensures (forall p: nat :: p < |mem| ==> Put(Ring(mem, p, p), f).accepted) <==> 2 * Len(f) <= |mem| - 1
  {
    if 2 * Len(f) > |mem| - 1 {
      assert !Put(Ring(mem, Len(f), Len(f)), f).accepted;
    }
  }
}
