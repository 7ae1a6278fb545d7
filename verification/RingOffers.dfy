/** Frames offered to a ring one after the other, with no receive in between. */
module RingOffers {
  import opened Regs
  import opened Ring
  import opened RingFifo

  /** An offered frame goes to the back if it is accepted, unless it overruns. */
  lemma OfferAppends(r: Ring, q: seq<Frame>, f: Frame)
    requires Holds(r, q) && !Overruns(r, f)
    ensures Holds(Offer(r, f).ring, if Offer(r, f).accepted then q + [f] else q)
  {
    if Len(f) <= Usable(r) {
      PutAppends(r, q, f);
    }
  }

  /** While the head is 0, what fits in an empty ring is accepted, and moves the tail by its length. */
  lemma SendFromZero(r: Ring, q: seq<Frame>, f: Frame)
    requires Holds(r, q) && r.head == 0 && !Overruns(r, f)
    ensures Offer(r, f).accepted <==> Len(f) <= Usable(r)
    ensures Offer(r, f).ring.tail == if Len(f) <= Usable(r) then r.tail + Len(f) else r.tail
    ensures Offer(r, f).ring.head == 0 && Usable(Offer(r, f).ring) == Usable(r)
  {
  }

  /** The ring after the frames `fs` were offered one after the other. */
  function OfferAll(r: Ring, fs: seq<Frame>): (r': Ring)
    requires Ready(r)
    ensures Ready(r') && |r'.mem| == |r.mem| && r'.head == r.head
    decreases |fs|
  {
    if fs == [] then r else OfferAll(Offer(r, fs[0]).ring, fs[1..])
  }

  /** Those of the frames that were accepted. */
  function Kept(r: Ring, fs: seq<Frame>): (ks: seq<Frame>)
    requires Ready(r)
    decreases |fs|
  {
    if fs == [] then []
    else
      var p := Offer(r, fs[0]);
      (if p.accepted then [fs[0]] else []) + Kept(p.ring, fs[1..])
  }

  function Words(fs: seq<Frame>): nat {
    if fs == [] then 0 else Len(fs[0]) + Words(fs[1..])
  }

  lemma {:induction false} WordsConcat(a: seq<Frame>, b: seq<Frame>)
    ensures Words(a + b) == Words(a) + Words(b)
    decreases |a|
  {
    if a == [] {
      assert a + b == b;
    } else {
      WordsConcat(a[1..], b);
      assert (a + b)[1..] == a[1..] + b;
    }
  }

  lemma {:induction false} OfferAllConcat(r: Ring, a: seq<Frame>, b: seq<Frame>)
    requires Ready(r)
    ensures OfferAll(r, a + b) == OfferAll(OfferAll(r, a), b)
    decreases |a|
  {
    hide Offer;
    if a == [] {
      assert a + b == b;
    } else {
      OfferAllConcat(Offer(r, a[0]).ring, a[1..], b);
      assert (a + b)[1..] == a[1..] + b;
    }
  }

  /** A queue read from word 0 fills the ring exactly up to the tail. */
  lemma {:induction false} SegWords(mem: seq<Word>, lo: nat, hi: nat, q: seq<Frame>)
    requires Seg(mem, lo, hi, q)
    ensures lo + Words(q) == hi
    decreases |q|
  {
    if q == [] {
    } else {
      SegWords(mem, lo + Len(q[0]), hi, q[1..]);
    }
  }

  /** Behind a head that has moved, the queue gains exactly the accepted frames. */
  lemma {:induction false} OfferAllKeepsFifo(r: Ring, q: seq<Frame>, fs: seq<Frame>)
    requires Holds(r, q) && r.head > 0
    ensures Holds(OfferAll(r, fs), q + Kept(r, fs))
    decreases |fs|
  {
    hide Holds, Offer;
    if fs == [] {
      assert q + [] == q;
    } else {
      HoldsReady(r, q);
      var p := Offer(r, fs[0]);
      OfferAppends(r, q, fs[0]);
      var q' := if p.accepted then q + [fs[0]] else q;
      OfferAllKeepsFifo(p.ring, q', fs[1..]);
      assert q + Kept(r, fs) == q' + Kept(p.ring, fs[1..]);
    }
  }

  /** While the head is 0, the queue gains all frames exactly if they fit behind the tail. */
  lemma {:induction false} OfferAllFromZero(r: Ring, q: seq<Frame>, fs: seq<Frame>)
    requires Holds(r, q) && r.head == 0
    ensures Holds(OfferAll(r, fs), q + fs) <==> r.tail + Words(fs) <= Usable(r)
    ensures r.tail + Words(fs) <= Usable(r) ==> OfferAll(r, fs).tail == r.tail + Words(fs)
  {
    hide Offer;
    SegWords(r.mem, 0, r.tail, q);
    if r.tail + Words(fs) <= Usable(r) {
      AllFit(r, q, fs);
    } else if Holds(OfferAll(r, fs), q + fs) {
      SegWords(OfferAll(r, fs).mem, 0, OfferAll(r, fs).tail, q + fs);
      WordsConcat(q, fs);
    }
  }

  lemma {:induction false} AllFit(r: Ring, q: seq<Frame>, fs: seq<Frame>)
    requires Holds(r, q) && r.head == 0 && r.tail + Words(fs) <= Usable(r)
    ensures Holds(OfferAll(r, fs), q + fs) && OfferAll(r, fs).tail == r.tail + Words(fs)
    decreases |fs|
  {
    hide Holds, Offer;
    if fs == [] {
      assert q + [] == q;
    } else {
      OfferAppends(r, q, fs[0]);
      SendFromZero(r, q, fs[0]);
      AllFit(Offer(r, fs[0]).ring, q + [fs[0]], fs[1..]);
      assert q + fs == q + [fs[0]] + fs[1..];
    }
  }

  // --- When nothing is refused ---

  /**
    The ring holds `q`, and if the reader still has a tombstone to pass, that
    lies within `m` words of the end: so at most `m` words are lost to it.
   */
  ghost predicate Tight(r: Ring, q: seq<Frame>, m: nat) {
    Holds(r, q) && (r.tail < r.head ==> Words(q) + r.head - r.tail + m > Usable(r))
  }

  /** An empty ring is tight, wherever its positions are. */
  lemma EmptyTight(r: Ring, m: nat)
    requires Ready(r) && r.head == r.tail
    ensures Tight(r, [], m)
  {
  }

  /** With all frames at most `m` words, offering one keeps a ring tight unless it overruns. */
  lemma OfferKeepsTight(r: Ring, q: seq<Frame>, f: Frame, m: nat)
    requires Tight(r, q, m) && Len(f) <= m && !Overruns(r, f)
    ensures Tight(Offer(r, f).ring, if Offer(r, f).accepted then q + [f] else q, m)
  {
    hide Holds;
    HoldsReady(r, q);
    OfferAppends(r, q, f);
    WordsConcat(q, [f]);
    assert [f][1..] == [];
    if r.head <= r.tail {
      LinearWords(r, q);
    }
  }

  lemma LinearWords(r: Ring, q: seq<Frame>)
    requires Holds(r, q) && r.head <= r.tail
    ensures r.head + Words(q) == r.tail
  {
    SegWords(r.mem, r.head, r.tail, q);
  }

  /** So does taking the oldest. */
  lemma GetKeepsTight(r: Ring, q: seq<Frame>, m: nat, fuel: nat)
    requires Tight(r, q, m) && fuel >= 2
    ensures q == [] ==> Get(r, fuel).ring == r
    ensures q != [] ==> Tight(Get(r, fuel).ring, q[1..], m)
  {
    GetPops(r, q, fuel);
    if q == [] {
    } else if r.tail < r.head && r.mem[r.head] == TOMBSTONE {
      GetFrame(r.(head := 0), q[0], fuel - 1);
      assert Get(r, fuel) == Get(r.(head := 0), fuel - 1);
    } else {
      GetFrame(r, q[0], fuel);
    }
  }

  /**
    While the unread words and twice `m` fit in the usable part, a frame of at
    most `m` words is neither refused nor overruns, whatever the positions.
   */
  lemma AcceptedWhileRoom(r: Ring, q: seq<Frame>, f: Frame, m: nat)
    requires Tight(r, q, m) && Len(f) <= m && Words(q) + 2 * m <= Usable(r)
    ensures Offer(r, f).accepted && !Overruns(r, f) && Tight(Offer(r, f).ring, q + [f], m)
  {
    hide Holds;
    HoldsReady(r, q);
    if r.head <= r.tail {
      LinearWords(r, q);
    }
    OfferKeepsTight(r, q, f, m);
  }

  predicate AllEncodable(q: seq<Frame>) {
    forall i :: 0 <= i < |q| ==> Encodable(q[i])
  }

  /** The images of frames, back to back. */
  function Image(q: seq<Frame>): (ws: seq<Word>)
    requires AllEncodable(q)
    ensures |ws| == Words(q)
  {
    if q == [] then [] else Encode(q[0]) + Image(q[1..])
  }

  lemma {:induction false} ImageHolds(mem: seq<Word>, lo: nat, q: seq<Frame>)
    requires AllEncodable(q) && lo + Words(q) <= |mem| && mem[lo..lo + Words(q)] == Image(q)
    ensures Seg(mem, lo, lo + Words(q), q)
    decreases |q|
  {
    hide Encode;
    if q == [] {
    } else {
      var n, all := Len(q[0]), mem[lo..lo + Words(q)];
      assert mem[lo..lo + n] == all[..n] == Encode(q[0]);
      assert mem[lo + n..lo + n + Words(q[1..])] == all[n..] == Image(q[1..]);
      ImageHolds(mem, lo + n, q[1..]);
    }
  }

  /** No ring of `n` words that holds `q`, with its tombstone near the end, refuses `f` or is overrun by it. */
  ghost predicate AlwaysRoom(n: nat, q: seq<Frame>, f: Frame) {
    forall r :: Tight(r, q, Len(f)) && |r.mem| == n ==> Offer(r, f).accepted && !Overruns(r, f)
  }

  /** `q` packed so that `f` fits neither behind it nor, after a wrap, before it. */
  lemma CrowdedRing(n: nat, q: seq<Frame>, f: Frame) returns (r: Ring)
    requires AllEncodable(q) && 4 * n < TWO32 && Words(q) + Len(f) <= n < Words(q) + 2 * Len(f) + 1
    ensures |r.mem| == n && Tight(r, q, Len(f)) && r.head <= Len(f) && r.tail == n - Len(f) && r.head <= r.tail
  {
    hide Encode, Image;
    var m, w := Len(f), Words(q);
    var t := n - m;
    var h := t - w;
    var ws := Image(q);
    var mem := seq(h, _ => 0) + ws + seq(m, _ => 0);
    assert mem[h..h + w] == ws;
    ImageHolds(mem, h, q);
    r := Ring(mem, h, t);
  }

  lemma CrowdedRefuses(r: Ring, f: Frame)
    requires Ready(r) && Len(f) < |r.mem| && r.head <= Len(f) && r.tail == |r.mem| - Len(f) && r.head <= r.tail
    ensures !(Offer(r, f).accepted && !Overruns(r, f))
  {
    hide Splice, Encode;
  }

  /** The bound is exact: with one word less there is such a ring that refuses the frame or is overrun by it. */
  lemma AlwaysRoomIff(n: nat, q: seq<Frame>, f: Frame)
    requires AllEncodable(q) && 4 * n < TWO32 && Words(q) + Len(f) <= n
    ensures AlwaysRoom(n, q, f) <==> Words(q) + 2 * Len(f) <= n - 1
  {
    hide Holds, Put, Words;
    if Words(q) + 2 * Len(f) <= n - 1 {
      forall r | Tight(r, q, Len(f)) && |r.mem| == n
        ensures Ready(r) && Offer(r, f).accepted && !Overruns(r, f)
      {
        HoldsReady(r, q);
        AcceptedWhileRoom(r, q, f, Len(f));
      }
    } else {
      var r := CrowdedRing(n, q, f);
      HoldsReady(r, q);
      if Len(f) < n {
        CrowdedRefuses(r, f);
      }
      assert !(Offer(r, f).accepted && !Overruns(r, f));
    }
  }
}
