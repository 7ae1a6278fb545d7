/**
  Reading the observation log: counts since the last reset, the pairing of each
  dispatched message with its one answer, and the context ids handed out.
 */
module Ledger {
  import opened Regs
  import opened Ring
  import opened NpuState
  import opened Mert

  datatype Counts = Counts(dispatched: nat, sent: nat, refused: nat, asyncs: nat, irqs: nat, created: nat)

  function Bump(t: Counts, o: Obs): Counts {
    match o
    case Dispatched(_, _, _) => t.(dispatched := t.dispatched + 1)
    case Replied(_, _, ok) => if ok then t.(sent := t.sent + 1) else t.(refused := t.refused + 1)
    case AsyncRegistered(_) => t.(asyncs := t.asyncs + 1)
    case Irq(_) => t.(irqs := t.irqs + 1)
    case DmaWrite(_, _, _) => t
    case DmaRead(_, _, _) => t
    case Created(_, _) => t.(created := t.created + 1)
    case WasReset => Counts(0, 0, 0, 0, 0, 0)
  }

  /** Counts of the observations since the last reset. */
  function Tally(log: seq<Obs>): Counts {
    if log == [] then Counts(0, 0, 0, 0, 0, 0)
    else Bump(Tally(log[..|log| - 1]), log[|log| - 1])
  }

  datatype Pairing = Idle | Waiting(chan: nat, frame: Frame) | Broken

  /** `g` answers `f`: same id, same opcode, exactly the opcode's reply size. */
  predicate Answers(f: Frame, g: Frame) {
    && g.id == f.id
    && g.opcode == f.opcode
    && 4 * |g.payload| == RespSize(f.opcode)
    && !AsyncAccepted(f)
  }

  function Pair(p: Pairing, o: Obs): Pairing {
    match o
    case Dispatched(c, _, f) => if p == Idle then Waiting(c, f) else Broken
    case Replied(c, g, _) => if p.Waiting? && p.chan == c && Answers(p.frame, g) then Idle else Broken
    case AsyncRegistered(c) => if p.Waiting? && p.chan == c && AsyncAccepted(p.frame) then Idle else Broken
    case WasReset => if p == Idle then Idle else Broken
    case _ => p
  }

  /**
    The log read as a conversation: each dispatched message is followed, before
    the next one, by exactly one answer on its channel.
   */
  function Pairs(log: seq<Obs>): Pairing {
    if log == [] then Idle
    else Pair(Pairs(log[..|log| - 1]), log[|log| - 1])
  }

  lemma Append(log: seq<Obs>, o: Obs)
    ensures Tally(log + [o]) == Bump(Tally(log), o)
    ensures Pairs(log + [o]) == Pair(Pairs(log), o)
  {
    assert (log + [o])[..|log|] == log;
  }

  /** Messages in = messages out + refused replies + async registrations, in every paired log. */
  lemma {:induction false} PairedIsConserved(log: seq<Obs>)
    requires Pairs(log) != Broken
    ensures var t := Tally(log);
            t.dispatched == t.sent + t.refused + t.asyncs + if Pairs(log) == Idle then 0 else 1
    decreases |log|
  {
    if log == [] {
    } else {
      PairedIsConserved(log[..|log| - 1]);
    }
  }

  /** The id was handed out since the last reset. */
  predicate Issued(log: seq<Obs>, id: Word) {
    log != [] && match log[|log| - 1]
      case WasReset => false
      case Created(_, id') => id' == id || Issued(log[..|log| - 1], id)
      case _ => Issued(log[..|log| - 1], id)
  }

  /** The id of the creation after `n` others: counting from 1, modulo 2^32. */
  function NthId(n: nat): Word {
    (1 + n) % 0x1_0000_0000
  }

  /** The i-th creation since the last reset got id i, counting modulo 2^32. */
  predicate Numbered(log: seq<Obs>) {
    log != [] ==>
      var init := log[..|log| - 1];
      Numbered(init) && (log[|log| - 1].Created? ==> log[|log| - 1].id == NthId(Tally(init).created))
  }

  lemma AppendNumbered(log: seq<Obs>, o: Obs)
    requires Numbered(log)
    requires o.Created? ==> o.id == NthId(Tally(log).created)
    ensures Numbered(log + [o])
  {
    assert (log + [o])[..|log|] == log;
  }

  /** Handed-out ids are exactly 1, 2, ... modulo 2^32. */
  lemma {:induction false} IssuedIff(log: seq<Obs>, id: Word)
    requires Numbered(log)
    ensures Issued(log, id) <==> exists j: nat :: j < Tally(log).created && NthId(j) == id
    decreases |log|
  {
    if log == [] {
    } else {
      var init, o := log[..|log| - 1], log[|log| - 1];
      IssuedIff(init, id);
      if o.Created? {
        var n := Tally(init).created;
        assert Tally(log).created == n + 1;
        if Issued(log, id) && o.id == id {
          assert n < Tally(log).created && NthId(n) == id;
        }
        if j: nat :| j < Tally(log).created && NthId(j) == id {
          assert j == n || j < n;
        }
      }
    }
  }

  /** The next id is non-zero and never handed out before exactly while fewer than 2^32 - 1 were. */
  lemma NextIdFreshIff(log: seq<Obs>)
    requires Numbered(log)
    ensures var id := NthId(Tally(log).created);
            (id != 0 && !Issued(log, id)) <==> Tally(log).created < TWO32 - 1
  {
    var n := Tally(log).created;
    var id := NthId(n);
    IssuedIff(log, id);
    if n < TWO32 - 1 {
      assert forall j: nat :: j < n ==> NthId(j) == 1 + j;
    } else if id != 0 {
      var j: nat := id - 1;
      assert j < n && NthId(j) == id;
    }
  }

  // --- DMA leaves counts and pairing alone ---

  /** `b` extends `a` by observations that neither count nor pair. */
  predicate Quiet(a: seq<Obs>, b: seq<Obs>) {
    a <= b && Tally(b) == Tally(a) && Pairs(b) == Pairs(a) && (Numbered(a) ==> Numbered(b))
  }

  lemma QuietDma(log: seq<Obs>, o: Obs)
    requires o.DmaWrite? || o.DmaRead?
    ensures Quiet(log, log + [o])
  {
    Append(log, o);
    if Numbered(log) {
      AppendNumbered(log, o);
    }
  }

  lemma {:induction false} FillQuiet(h: Host, log: seq<Obs>, addr: nat, size: nat, done: nat)
    requires done <= size
    ensures Quiet(log, FillZeros(h, log, addr, size, done).log)
    decreases size - done
  {
    if done == size {
    } else {
      var n := if size - done > 256 then 256 else size - done;
      var at := (addr + done) % TWO64;
      var o := DmaWrite(at, n, h.writeOk(log, at, n));
      QuietDma(log, o);
      if h.writeOk(log, at, n) {
        FillQuiet(h, log + [o], addr, size, done + n);
      }
    }
  }
}
