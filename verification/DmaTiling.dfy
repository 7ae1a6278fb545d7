/** The column-status dump: chunk writes tile the requested host range. */
module DmaTiling {
  import opened Regs
  import opened NpuState
  import opened Mert

  function ChunkLen(left: int): int {
    if left > 256 then 256 else left
  }

  /** `o` wrote host byte `b`. */
  predicate Covers(o: Obs, b: int) {
    o.DmaWrite? && o.ok && o.addr <= b < o.addr + o.len
  }

  /** Some call of `log` from index `from` on wrote host byte `b`. */
  predicate Covered(log: seq<Obs>, from: nat, b: int) {
    exists i :: from <= i < |log| && Covers(log[i], b)
  }

  /** The calls are consecutive 256-byte chunks, all successful but perhaps the last. */
  lemma {:induction false} FillChunks(h: Host, log: seq<Obs>, addr: nat, size: nat, done: nat)
    requires done <= size && addr + size <= TWO64
    ensures var r := FillZeros(h, log, addr, size, done);
            && log <= r.log
            && (forall i :: |log| <= i < |r.log| ==>
                  r.log[i].DmaWrite? && r.log[i].addr == addr + done + 256 * (i - |log|)
                  && r.log[i].len == ChunkLen(size - done - 256 * (i - |log|)) && r.log[i].len > 0)
            && (forall i :: |log| <= i < |r.log| - 1 ==> r.log[i].ok)
            && (r.done == size ==>
                  && size - done <= 256 * (|r.log| - |log|)
                  && (done < size ==> |r.log| > |log| && r.log[|r.log| - 1].ok))
            && (r.done < size ==>
                  && |r.log| > |log| && !r.log[|r.log| - 1].ok
                  && r.done == done + 256 * (|r.log| - |log| - 1))
    decreases size - done
  {
    if done == size {
    } else {
      var n := if size - done > 256 then 256 else size - done;
      var at := (addr + done) % TWO64;
      assert at == addr + done;
      var o := DmaWrite(at, n, h.writeOk(log, at, n));
      var log' := log + [o];
      if o.ok {
        FillChunks(h, log', addr, size, done + n);
      }
    }
  }

  /**
    With no 64-bit wrap, the successful writes are disjoint chunks of at most 256
    bytes that cover exactly [addr, addr + done); success means the whole range,
    failure that the last call failed and `done` bytes precede it.
   */
  lemma FillTiles(h: Host, log: seq<Obs>, addr: nat, size: nat)
    requires addr + size <= TWO64
    ensures var r := FillZeros(h, log, addr, size, 0);
            && (forall b :: Covered(r.log, |log|, b) <==> addr <= b < addr + r.done)
            && (forall i, j, b :: |log| <= i < j < |r.log| && Covers(r.log[i], b) ==> !Covers(r.log[j], b))
            && (forall i :: |log| <= i < |r.log| ==> r.log[i].DmaWrite? && r.log[i].len <= 256)
            && (r.done < size <==> |r.log| > |log| && !r.log[|r.log| - 1].ok)
  {
    var r := FillZeros(h, log, addr, size, 0);
    FillChunks(h, log, addr, size, 0);
    forall b
      ensures Covered(r.log, |log|, b) <==> addr <= b < addr + r.done
    {
      if addr <= b < addr + r.done {
        var i := |log| + (b - addr) / 256;
        assert Covers(r.log[i], b);
      }
    }
  }

  /** The reply reports success and the full size exactly when every chunk was written. */
  lemma QueryReportsTiling(h: Host, s: State, req: seq<Word>)
    requires Shape(s) && |req| >= 5 && h.hasDmaWrite
    requires U64(req[0], req[1]) != 0 && req[2] != 0
    ensures var o := QueryColStatus(h, s, req);
            && o.reply.Some? && |o.reply.value| == 2
            && s.log <= o.state.log
            && (o.reply.value[0] == STATUS_SUCCESS || o.reply.value[0] == STATUS_AIE_DMA_ERROR)
            && (U64(req[0], req[1]) + req[2] <= TWO64 ==>
                  && (o.reply.value[0] == STATUS_SUCCESS <==>
                        forall i :: |s.log| <= i < |o.state.log| ==> o.state.log[i].DmaWrite? && o.state.log[i].ok)
                  && (o.reply.value[0] == STATUS_SUCCESS ==> o.reply.value[1] == req[2])
                  && (forall b :: Covered(o.state.log, |s.log|, b) <==>
                                 U64(req[0], req[1]) <= b < U64(req[0], req[1]) + o.reply.value[1]))
  {
    var addr, size := U64(req[0], req[1]), req[2];
    FillLog(h, s.log, addr, size, 0);
    if addr + size <= TWO64 {
      FillChunks(h, s.log, addr, size, 0);
      FillTiles(h, s.log, addr, size);
    }
  }

  lemma {:induction false} FillLog(h: Host, log: seq<Obs>, addr: nat, size: nat, done: nat)
    requires done <= size
    ensures log <= FillZeros(h, log, addr, size, done).log
    decreases size - done
  {
    if done == size {
    } else {
      var n := if size - done > 256 then 256 else size - done;
      var at := (addr + done) % TWO64;
      var ok := h.writeOk(log, at, n);
      if ok {
        FillLog(h, log + [DmaWrite(at, n, ok)], addr, size, done + n);
      }
    }
  }
}
