/** The driver's mailbox code over the device's MMIO interface: submit a request, collect its reply. */
module DriverDevice {
  import opened Regs
  import opened Ring
  import opened NpuState
  import opened NpuMemory
  import opened NpuDevice
  import opened DriverModel
  import opened LockstepModel
  import opened Traffic
  import opened Bytes
  import opened Lockstep
  import opened Soundness
  import Mailbox
  import Consumer
  import Discovery
  import Commands
  import BatchDrain
  import Ledger
  import D = Device

  /** Byte comparisons of the driver's writer decide like `Put` on the request ring. */
  lemma SubmitDecides(s: State, d: Drv, c: nat, f: Frame)
    requires Shape(s) && c < MAX_CHANNELS && s.chan[c].active && d.x2iTail % 4 == 0
    requires Ready(RequestRing(s, d, c)) && Len(f) <= Usable(RequestRing(s, d, c))
    ensures var r, head, tail, pkg, b := RequestRing(s, d, c), s.chan[c].x2iHead, d.x2iTail, 4 * Len(f), X2iBase(c) / 4;
            && head == 4 * r.head && tail == 4 * r.tail && |r.mem| == RingSize(c) / 4 && RingSize(c) % 4 == 0
            && Encodable(f) && X2iBase(c) % 4 == 0 && b + |r.mem| <= |s.sram| && r.mem == s.sram[b..b + |r.mem|]
  {
  }

  class Driver {
    const npu: Npu
    var found: Found
    var x2iTail: Word
    var i2xHead: Word
    var nextId: Word

    /** The driver's own state as a value. */
    ghost function Drv(): LockstepModel.Drv
      reads this
    {
      LockstepModel.Drv(x2iTail, i2xHead, nextId)
    }

    constructor (npu: Npu)
      ensures this.npu == npu && Drv() == LockstepModel.Drv(0, 0, 1)
    {
      this.npu := npu;
      found := Found(ChannRes(0, 0, 0, 0), ChannRes(0, 0, 0, 0), 0, 0);
      x2iTail, i2xHead, nextId := 0, 0, 1;
    }

    // --- Register and memory access ---

    method WriteSram(off: nat, ws: seq<Word>)
      requires npu.Valid() && off % 4 == 0 && off + 4 * |ws| <= SRAM_BYTES
      modifies npu, npu.sram
      ensures npu.Valid() && npu.View() == old(npu.View()).(sram := Splice(old(npu.View()).sram, off / 4, ws))
    {
      hide Splice, Shape;
      ghost var e := D.SramBar(off, ws);
      assert [e][1..] == [];
      npu.MmioWriteBuf(D.BAR_SRAM, off, ws);
    }

    method WriteMbox(off: Word, val: Word)
      requires npu.Valid() && Consumer.HeadInRange(npu.View(), off, val)
      modifies npu, npu.sram
      ensures npu.Valid() && npu.View() == Consumer.RegWrite(npu.host, old(npu.View()), off, val)
    {
      hide Consumer.RegWrite, Shape;
      ghost var e := D.MboxBar(off, val);
      assert [e][1..] == [];
      assert [val][1..] == [];
      assert D.WordWrites(D.BAR_MBOX, off, [val]) == [e];
      npu.MmioWriteBuf(D.BAR_MBOX, off, [val]);
    }

    method ReadMbox(off: Word) returns (v: Word)
      requires npu.Valid()
      ensures v == Mailbox.RegRead(npu.View(), off)
    {
      hide Shape, Mailbox.RegRead;
      var ws := npu.MmioReadBuf(D.BAR_MBOX, off, 1);
      v := ws[0];
    }

    // --- Submitting ---

    /** Write a request, header then payload, into ring memory. */
    method WriteRequest(off: nat, f: Frame)
      requires npu.Valid() && Encodable(f) && off % 4 == 0 && off + 4 * Len(f) <= SRAM_BYTES
      modifies npu, npu.sram
      ensures npu.Valid() && npu.View() == old(npu.View()).(sram := Splice(old(npu.View()).sram, off / 4, Encode(f)))
    {
      hide Splice, Shape;
      var hdr: seq<Word> := [4 * |f.payload|, f.szVer, f.id, f.opcode];
      ghost var before := npu.View().sram;
      assert |before| == SRAM_WORDS by {
        Words(npu.View());
      }
      WriteSram(off, hdr);
      if f.payload != [] {
        WriteSram(off + 16, f.payload);
        SpliceTwice(before, off / 4, hdr, f.payload);
      } else {
        assert hdr + f.payload == hdr;
      }
    }

    /** Where the request goes; one that does not fit before the last word leaves a tombstone. */
    method FindRoom(ghost c: nat, f: Frame, head: Word) returns (tail: nat)
      requires npu.Valid() && c < MAX_CHANNELS && npu.chan[c].active && found == Discovery.Belonging(c)
              && head == npu.chan[c].x2iHead
      requires x2iTail % 4 == 0 && Ready(RequestRing(npu.View(), Drv(), c))
              && Len(f) <= Usable(RequestRing(npu.View(), Drv(), c))
      modifies npu, npu.sram
      ensures npu.Valid()
      ensures var s, r := old(npu.View()), RequestRing(old(npu.View()), Drv(), c);
              && X2iBase(c) / 4 + |r.mem| <= |s.sram|
              && npu.View() == s.(sram := PutMarked(s.sram, X2iBase(c) / 4, r, f)) && tail == 4 * PutStart(r, f)
    {
      hide Splice, X2iBase, RequestRing;
      ghost var s := npu.View();
      ghost var r := RequestRing(s, Drv(), c);
      SubmitDecides(s, Drv(), c, f);
      tail := x2iTail;
      if tail >= head && tail + 4 * Len(f) > found.x2i.rbSize - 4 {
        SpliceOne(s.sram, X2iBase(c) / 4 + r.tail, TOMBSTONE);
        WriteSram(found.x2i.rbStart + tail, [TOMBSTONE]);
        tail := 0;
      }
    }

    /** Publish a new tail for channel `c`. */
    method RingTail(ghost c: nat, tail: Word)
      requires npu.Valid() && c < MAX_CHANNELS && found == Discovery.Belonging(c)
      modifies this`x2iTail, this`nextId, npu, npu.sram
      ensures npu.Valid()
      ensures npu.View() == Consumer.RegWrite(npu.host, old(npu.View()), c * CHAN_STRIDE + X2I_TAIL_OFF, tail)
      ensures Drv() == old(Drv()).(x2iTail := tail, nextId := Add32(old(nextId), 1))
    {
      hide Consumer.RegWrite, Shape;
      x2iTail, nextId := tail, Add32(nextId, 1);
      TailRegister(npu.View(), c, tail);
      WriteMbox(found.x2i.tailReg, tail);
    }

    /** Queue request `f` on channel `c` and ring its tail register. */
    method Submit(ghost c: nat, f: Frame) returns (ok: bool)
      requires npu.Valid() && c < MAX_CHANNELS && npu.chan[c].active && found == Discovery.Belonging(c)
      requires x2iTail % 4 == 0 && Ready(RequestRing(npu.View(), Drv(), c))
              && Len(f) <= Usable(RequestRing(npu.View(), Drv(), c))
      modifies this`x2iTail, this`nextId, npu, npu.sram
      ensures npu.Valid() && found == old(found)
      ensures var b := LockstepModel.Submit(npu.host, old(npu.View()), old(Drv()), c, f);
              npu.View() == b.state && Drv() == b.drv && ok == b.ok
    {
      hide Splice, Encode, Put, PutMarked, PutStart, Ready, X2iBase, Shape, Consumer.RegWrite, RequestRing;
      hide Mailbox.RegRead, LockstepModel.Submit;
      ghost var s, d := npu.View(), Drv();
      SubmitPlan(npu.host, s, d, c, f);
      HeadRegister(s, c);
      var head := ReadMbox(found.x2i.headReg);
      var tail := FindRoom(c, f, head);
      if tail < head && tail + 4 * Len(f) >= head {
        return false;
      }
      WriteRequest(found.x2i.rbStart + tail, f);
      RingTail(c, tail + 4 * Len(f));
      ok := true;
    }

    // --- Collecting ---

    method ReadSram(off: nat, n: nat) returns (ws: seq<Word>)
      requires npu.Valid() && off % 4 == 0 && off + 4 * n <= SRAM_BYTES
      ensures off / 4 + n <= |npu.View().sram| && ws == npu.View().sram[off / 4..off / 4 + n]
    {
      Words(npu.View());
      ws := npu.MmioReadBuf(D.BAR_SRAM, off, n);
    }

    /** Read words at any byte offset. */
    method ReadAnywhere(off: nat, n: nat) returns (ws: seq<Word>)
      requires npu.Valid() && off + 4 * n <= SRAM_BYTES && off < SRAM_BYTES
      ensures |npu.View().sram| == SRAM_WORDS && ws == WordsAt(npu.View().sram, off, n)
    {
      hide Shape, Join, ByteOf;
      Words(npu.View());
      var bs := npu.MmioReadBytes(D.BAR_SRAM, off, 4 * n);
      ws := [];
      while |ws| < n
        invariant |ws| <= n
        invariant forall i :: 0 <= i < |ws| ==> ws[i] == WordAt(npu.View().sram, off + 4 * i)
      {
        var k := 4 * |ws|;
        ws := ws + [Join(bs[k], bs[k + 1], bs[k + 2], bs[k + 3])];
      }
    }

    /** Move the driver's reading position and publish it. */
    method PublishHead(ghost c: nat, head: Word)
      requires npu.Valid() && c < MAX_CHANNELS && found == Discovery.Belonging(c) && head <= RingSize(c) - 4
      modifies this`i2xHead, npu, npu.sram
      ensures npu.Valid() && npu.View() == SetHead(old(npu.View()), c, head)
      ensures Drv() == old(Drv()).(i2xHead := head)
    {
      hide Consumer.RegWrite, Shape, SetHead;
      HeadWrite(npu.host, npu.View(), c, head);
      i2xHead := head;
      WriteMbox(found.i2x.headReg, head);
    }

    /** Acknowledge the interrupt of channel `c`. */
    method Acknowledge(ghost c: nat)
      requires npu.Valid() && c < MAX_CHANNELS && found == Discovery.Belonging(c)
      modifies npu, npu.sram
      ensures npu.Valid() && npu.View() == Acked(old(npu.View()), c)
    {
      hide Consumer.RegWrite, Shape, Acked;
      IntrWrite(npu.host, npu.View(), c);
      WriteMbox(found.intrReg, 0);
    }

    /** What is at the head of channel `c`'s reply ring: nothing, a tombstone, or a frame. */
    method Glance(ghost c: nat) returns (empty: bool, tomb: bool)
      requires npu.Valid() && c < MAX_CHANNELS && npu.chan[c].active && found == Discovery.Belonging(c)
      requires i2xHead % 4 == 0 && i2xHead <= RingSize(c) - 4
      ensures var r := ReplyRing(npu.View(), Drv(), c);
              && r.head < |r.mem|
              && (empty <==> r.head == r.tail)
              && (!empty ==> (tomb <==> r.mem[r.head] == TOMBSTONE))
    {
      hide Shape, ReplyRing, Mailbox.RegRead;
      ReplyWords(npu.View(), Drv(), c);
      ReplyRegisters(npu.View(), c);
      var tail := ReadMbox(found.i2x.tailReg);
      empty := i2xHead == tail;
      var peek := ReadSram(found.i2x.rbStart + i2xHead, 1);
      tomb := peek[0] == TOMBSTONE;
    }

    /** Skip tombstones, at most 64 looks; true if a frame is waiting at the head. */
    method SkipTombstones(ghost c: nat) returns (waiting: bool, ghost fuel: nat)
      requires npu.Valid() && c < MAX_CHANNELS && npu.chan[c].active && found == Discovery.Belonging(c)
      requires i2xHead % 4 == 0 && npu.chan[c].i2xHead == i2xHead && Ready(ReplyRing(npu.View(), Drv(), c))
      modifies this`i2xHead, npu, npu.sram
      ensures npu.Valid() && Drv() == old(Drv()).(i2xHead := i2xHead) && i2xHead % 4 == 0 && i2xHead <= RingSize(c) - 4
      ensures npu.View() == SetHead(old(npu.View()), c, i2xHead) && Ready(ReplyRing(npu.View(), Drv(), c))
      ensures var r, r' := ReplyRing(old(npu.View()), old(Drv()), c), ReplyRing(npu.View(), Drv(), c);
              && r'.mem == r.mem && Get(r, 64) == Get(r', fuel)
              && (waiting <==> fuel > 0 && r'.head != r'.tail)
              && (waiting ==> r'.mem[r'.head] != TOMBSTONE)
    {
      hide Shape, Get, ReplyRing, SetHead;
      ghost var s, d := npu.View(), Drv();
      ghost var r := ReplyRing(s, d, c);
      var guard := 0;
      fuel := 64;
      SetHeadSame(s, c);
      MovedHead(s, d, c, i2xHead);
      while guard < 64
        invariant 0 <= guard <= 64 && fuel == 64 - guard && npu.Valid()
        invariant Drv() == d.(i2xHead := i2xHead) && i2xHead % 4 == 0 && i2xHead <= RingSize(c) - 4
        invariant npu.View() == SetHead(s, c, i2xHead)
        invariant ReplyRing(npu.View(), Drv(), c) == r.(head := i2xHead / 4) && Ready(r.(head := i2xHead / 4))
        invariant Get(r, 64) == Get(r.(head := i2xHead / 4), fuel)
        decreases 64 - guard
      {
        MovedHead(s, d, c, i2xHead);
        guard := guard + 1;
        var empty, tomb := Glance(c);
        if empty {
          return false, fuel;
        }
        if !tomb {
          return true, fuel;
        }
        GetSkips(r.(head := i2xHead / 4), fuel);
        PublishHead(c, 0);
        fuel := fuel - 1;
        MovedHead(s, d, c, 0);
      }
      waiting := false;
    }

    /** Read the frame waiting at the head of channel `c`'s reply ring. */
    method ReadFrame(ghost c: nat, ghost fuel: nat) returns (f: Frame)
      requires npu.Valid() && c < MAX_CHANNELS && npu.chan[c].active && found == Discovery.Belonging(c)
      requires i2xHead % 4 == 0 && i2xHead <= RingSize(c) - 4 && Ready(ReplyRing(npu.View(), Drv(), c)) && fuel > 0
      requires var r := ReplyRing(npu.View(), Drv(), c);
               r.head != r.tail && r.mem[r.head] != TOMBSTONE && !Get(r, fuel).Garbled? && Ready(Get(r, fuel).ring)
      ensures var g := Get(ReplyRing(npu.View(), Drv(), c), fuel);
              && g.Got? && g.frame == f
              && 4 * g.ring.head == i2xHead + 4 * Len(f) && 4 * g.ring.head <= RingSize(c) - 4
    {
      hide Shape, Get, ReplyRing, Ready;
      ReplyFrameAt(npu.View(), Drv(), c, fuel);
      var hdr := ReadSram(found.i2x.rbStart + i2xHead, 4);
      var payload := ReadSram(found.i2x.rbStart + i2xHead + 16, hdr[0] / 4);
      f := Frame(hdr[1], hdr[2], hdr[3], payload);
    }

    /** Take the frame waiting at the head of channel `c`'s reply ring. */
    method TakeReply(ghost c: nat, ghost fuel: nat) returns (f: Frame)
      requires npu.Valid() && c < MAX_CHANNELS && npu.chan[c].active && found == Discovery.Belonging(c)
      requires i2xHead % 4 == 0 && i2xHead <= RingSize(c) - 4 && Ready(ReplyRing(npu.View(), Drv(), c)) && fuel > 0
      requires var r := ReplyRing(npu.View(), Drv(), c);
               r.head != r.tail && r.mem[r.head] != TOMBSTONE && !Get(r, fuel).Garbled? && Ready(Get(r, fuel).ring)
      modifies this`i2xHead, npu, npu.sram
      ensures npu.Valid()
      ensures var g := Get(ReplyRing(old(npu.View()), old(Drv()), c), fuel);
              && g.Got? && g.frame == f && 4 * g.ring.head <= RingSize(c) - 4
              && npu.View() == SetHead(old(npu.View()), c, 4 * g.ring.head)
              && Drv() == old(Drv()).(i2xHead := 4 * g.ring.head)
    {
      hide Shape, Get, ReplyRing, SetHead, Ready;
      f := ReadFrame(c, fuel);
      PublishHead(c, i2xHead + 4 * Len(f));
    }

    /** Receive: acknowledge, skip tombstones, take the frame at the head. */
    method Recv(ghost c: nat) returns (got: Option<Frame>)
      requires npu.Valid() && c < MAX_CHANNELS && npu.chan[c].active && found == Discovery.Belonging(c)
      requires i2xHead % 4 == 0 && npu.chan[c].i2xHead == i2xHead && Ready(ReplyRing(npu.View(), Drv(), c))
      requires var g := Get(ReplyRing(npu.View(), Drv(), c), 64); Ready(g.ring) && !g.Garbled?
      modifies this`i2xHead, npu, npu.sram
      ensures npu.Valid()
      ensures var e := Collect(old(npu.View()), old(Drv()), c);
              && npu.View() == e.state && Drv() == e.drv
              && got == if e.got.Got? then Some(e.got.frame) else None
    {
      hide Shape, Get, ReplyRing, SetHead, Acked, Collect;
      ghost var s, d := npu.View(), Drv();
      CollectIs(s, d, c);
      Acknowledge(c);
      ghost var t := npu.View();
      ghost var fuel;
      var waiting;
      waiting, fuel := SkipTombstones(c);
      ghost var r := ReplyRing(npu.View(), Drv(), c);
      HeadMoves(t, c, i2xHead);
      if !waiting {
        GetNothing(r, fuel);
        HeadWord(npu.View(), Drv(), c);
        return None;
      }
      var f := TakeReply(c, fuel);
      got := Some(f);
    }

    // --- Whole exchanges ---

    /**
      Send a request and collect its reply. In step with the device this always
      yields the one reply of the specified exchange, and stays in step.
     */
    method SendRecv(ghost c: nat, op: Word, req: seq<Word>) returns (got: Option<Frame>)
      requires InStep(npu.host, npu.View(), Drv(), c) && Askable(c, Owner(npu.View(), c), RequestFrame(Drv(), op, req))
      requires found == Discovery.Belonging(c)
      modifies this, npu, npu.sram
      ensures InStep(npu.host, npu.View(), Drv(), c) && found == old(found)
      ensures var e := Exchange(npu.host, old(npu.View()), old(Drv()), c, op, req);
              npu.View() == e.state && Drv() == e.drv && got == Some(e.reply.frame)
    {
      hide Shape, Sound, Get, ReplyRing, RequestRing, Ready, LockstepModel.Submit, Ledger.Answers, Earned;
      hide BatchDrain.Dispatches;
      ghost var s, d := npu.View(), Drv();
      var f := Mailbox.MakeFrame(nextId % 0x100 + MBOX_MAGIC_VAL, op, req);
      ExchangeWorks(npu.host, s, d, c, f);
      InStepShape(npu.host, s, d, c);
      var ok := Submit(c, f);
      SubmittedPositions(npu.host, s, d, c, f);
      got := Recv(c);
    }

    /** Load or control the firmware through the PSP; true if it answered 0. */
    method PspExec(cmd: Word, arg0: Word, arg1: Word, arg2: Word) returns (ok: bool)
      requires npu.Valid()
      modifies npu, npu.sram
      ensures npu.Valid()
      ensures old(npu.scratch)[2] < PSP_STATUS_READY ==> !ok && npu.View() == old(npu.View())
      ensures old(npu.scratch)[2] >= PSP_STATUS_READY ==>
                && npu.View() == DriverModel.PspExec(npu.host, old(npu.View()), cmd, arg0, arg1, arg2)
                && (ok <==> Commands.PspGrants(npu.host, old(npu.View()), cmd, arg0, arg1, arg2))
    {
      ghost var s := npu.View();
      var status := npu.RegBarRead(REG_SCRATCH2);
      if status < PSP_STATUS_READY {
        return false;
      }
      WritePspRegisters(cmd, arg0, arg1, arg2 % 0x100_0000);
      Commands.PspAnswers(npu.host, s, cmd, arg0, arg1, arg2);
      var resp := npu.RegBarRead(REG_SCRATCH3);
      ok := resp == 0;
    }

    method WritePspRegisters(cmd: Word, arg0: Word, arg1: Word, arg2: Word)
      requires npu.Valid() && arg2 < 0x100_0000
      modifies npu, npu.sram
      ensures npu.Valid() && npu.View() == DriverModel.PspExec(npu.host, old(npu.View()), cmd, arg0, arg1, arg2)
    {
      hide D.RegWrite, Shape;
      ghost var s, h := npu.View(), npu.host;
      Discovery.SixWrites(h, s, D.Write(REG_SCRATCH2, cmd), D.Write(REG_SCRATCH3, arg0), D.Write(REG_SCRATCH4, arg1),
                          D.Write(REG_SCRATCH9, arg2), D.Write(REG_SEC_INTR, 0), D.Write(REG_SEC_INTR, PSP_NOTIFY_VAL));
      npu.RegBarWrite(REG_SCRATCH2, cmd);
      npu.RegBarWrite(REG_SCRATCH3, arg0);
      npu.RegBarWrite(REG_SCRATCH4, arg1);
      npu.RegBarWrite(REG_SCRATCH9, arg2);
      npu.RegBarWrite(REG_SEC_INTR, 0);
      npu.RegBarWrite(REG_SEC_INTR, PSP_NOTIFY_VAL);
    }

    /** Run one SMU command; the response and the value it returns. */
    method SmuExec(cmd: Word, arg: Word) returns (ok: bool, out: Word)
      requires npu.Valid()
      modifies npu, npu.sram
      ensures npu.Valid() && npu.View() == DriverModel.SmuExec(npu.host, old(npu.View()), cmd, arg)
      ensures ok <==> Commands.SmuGrants(cmd, arg)
      ensures out == npu.scratch[7]
    {
      ghost var s, h := npu.View(), npu.host;
      Commands.SmuAnswers(h, s, cmd, arg);
      WriteSmuRegisters(cmd, arg);
      var resp := npu.RegBarRead(REG_SCRATCH6);
      out := npu.RegBarRead(REG_SCRATCH7);
      ok := resp == SMU_RESULT_OK;
    }

    method WriteSmuRegisters(cmd: Word, arg: Word)
      requires npu.Valid()
      modifies npu, npu.sram
      ensures npu.Valid() && npu.View() == DriverModel.SmuExec(npu.host, old(npu.View()), cmd, arg)
    {
      hide D.RegWrite, Shape;
      Commands.FiveWrites(npu.host, npu.View(), D.Write(REG_SCRATCH6, 0), D.Write(REG_SCRATCH7, arg),
                          D.Write(REG_SCRATCH5, cmd), D.Write(REG_PWRMGMT_INTR, 0), D.Write(REG_PWRMGMT_INTR, 1));
      npu.RegBarWrite(REG_SCRATCH6, 0);
      npu.RegBarWrite(REG_SCRATCH7, arg);
      npu.RegBarWrite(REG_SCRATCH5, cmd);
      npu.RegBarWrite(REG_PWRMGMT_INTR, 0);
      npu.RegBarWrite(REG_PWRMGMT_INTR, 1);
    }

    /** Find the management channel through the FW_ALIVE pointer, then clear the pointer. */
    method GetMgmtChannel() returns (ok: bool)
      requires npu.Valid()
      modifies this`found, npu, npu.sram
      ensures npu.Valid() && ok == Discover(old(npu.View())).Some?
      ensures ok ==> Some(found) == Discover(old(npu.View()))
      ensures var s := old(npu.View());
              npu.View() == if ok then s.(sram := Splice(s.sram, FW_ALIVE_OFF / 4, [0])) else s
    {
      hide Shape, Splice, FromInfo, WordsAt;
      Words(npu.View());
      var alive := ReadSram(FW_ALIVE_OFF, 1);
      var addr := alive[0];
      var off := addr - APERTURE1_BASE;
      if addr == 0 || off < 0 || off + 64 > SRAM_BYTES {
        return false;
      }
      var w := ReadAnywhere(off, 16);
      if w[8] != MGMT_MBOX_MAGIC {
        return false;
      }
      found := FromInfo(w);
      WriteSram(FW_ALIVE_OFF, [0]);
      ok := true;
    }
  }

  /** The waiting frame, read in SRAM words. */
  lemma ReplyFrameAt(s: State, d: Drv, c: nat, fuel: nat)
    requires Shape(s) && c < MAX_CHANNELS && s.chan[c].active
    requires d.i2xHead % 4 == 0 && d.i2xHead <= RingSize(c) - 4 && Ready(ReplyRing(s, d, c)) && fuel > 0
    requires var r := ReplyRing(s, d, c);
             r.head != r.tail && r.mem[r.head] != TOMBSTONE && !Get(r, fuel).Garbled? && Ready(Get(r, fuel).ring)
    ensures |s.sram| == SRAM_WORDS
    ensures var g, a := Get(ReplyRing(s, d, c), fuel), (I2xBase(c) + d.i2xHead) / 4;
            && (I2xBase(c) + d.i2xHead) % 4 == 0 && a + 4 <= SRAM_WORDS
            && var n := s.sram[a] / 4;
               && s.sram[a] == 4 * n && a + 4 + n <= SRAM_WORDS
               && g.Got? && 4 * g.ring.head == d.i2xHead + 16 + 4 * n && 4 * g.ring.head <= RingSize(c) - 4
               && g.frame == Frame(s.sram[a + 1], s.sram[a + 2], s.sram[a + 3], s.sram[a + 4..a + 4 + n])
  {
    hide Get, ReplyRing, X2iBase, I2xBase;
    var r, b := ReplyRing(s, d, c), I2xBase(c) / 4;
    ReplyWords(s, d, c);
    GetHere(r, fuel);
    SliceOfSlice(s.sram, b, b + |r.mem|, r.head + 4, r.head + 4 + r.mem[r.head] / 4);
    assert (I2xBase(c) + d.i2xHead) / 4 == b + r.head;
  }

  lemma InStepShape(h: Host, s: State, d: Drv, c: nat)
    requires InStep(h, s, d, c)
    ensures Shape(s) && |s.chan| == MAX_CHANNELS && c < MAX_CHANNELS && s.chan[c].active && d.x2iTail % 4 == 0
  {
  }

  /** After submitting in step, the reply side is where it was. */
  lemma SubmittedPositions(h: Host, s: State, d: Drv, c: nat, f: Frame)
    requires InStep(h, s, d, c) && Askable(c, Owner(s, c), f)
    requires Ready(RequestRing(s, d, c)) && Len(f) <= Usable(RequestRing(s, d, c))
    ensures var b := LockstepModel.Submit(h, s, d, c, f);
            && |b.state.chan| == MAX_CHANNELS && b.state.chan[c].active
            && b.drv.i2xHead % 4 == 0 && b.state.chan[c].i2xHead == b.drv.i2xHead
  {
    SubmitKeepsHead(h, s, d, c, f);
  }

  lemma HeadWord(s: State, d: Drv, c: nat)
    requires Shape(s) && c < MAX_CHANNELS && d.i2xHead % 4 == 0
    ensures 4 * ReplyRing(s, d, c).head == d.i2xHead
  {
  }

  /** Collecting is acknowledging and then moving the head past what was taken. */
  lemma CollectIs(s: State, d: Drv, c: nat)
    requires Shape(s) && c < MAX_CHANNELS && s.chan[c].active
    requires Ready(ReplyRing(s, d, c)) && Ready(Get(ReplyRing(s, d, c), 64).ring)
    ensures |s.chan| == MAX_CHANNELS == |Acked(s, c).chan|
    ensures Acked(s, c).chan[c].active && Acked(s, c).chan[c].i2xHead == s.chan[c].i2xHead
    ensures ReplyRing(Acked(s, c), d, c) == ReplyRing(s, d, c)
    ensures var g := Get(ReplyRing(s, d, c), 64);
            && 4 * g.ring.head <= RingSize(c) - 4
            && Collect(s, d, c) == Collected(SetHead(Acked(s, c), c, 4 * g.ring.head),
                d.(i2xHead := 4 * g.ring.head), g)
  {
    hide Get;
  }

  lemma HeadMoves(s: State, c: nat, head: Word)
    requires Shape(s) && c < MAX_CHANNELS && head <= RingSize(c) - 4
    ensures |s.chan| == MAX_CHANNELS == |SetHead(s, c, head).chan|
            && SetHead(s, c, head).chan[c].active == s.chan[c].active
    ensures |SetHead(s, c, head).sram| == |s.sram| == SRAM_WORDS
    ensures forall h2: Word :: h2 <= RingSize(c) - 4 ==> SetHead(SetHead(s, c, head), c, h2) == SetHead(s, c, h2)
  {
  }

  lemma GetNothing(r: Ring, fuel: nat)
    requires Ready(r) && (fuel == 0 || r.head == r.tail)
    ensures !Get(r, fuel).Got? && Get(r, fuel).ring == r
  {
  }

  lemma GetHere(r: Ring, fuel: nat)
    requires Ready(r) && fuel > 0 && r.head != r.tail && r.mem[r.head] != TOMBSTONE && !Get(r, fuel).Garbled?
    ensures var n := r.mem[r.head] / 4;
            && r.mem[r.head] == 4 * n && r.head + 4 + n <= |r.mem|
            && Get(r, fuel) == Got(r.(head := r.head + 4 + n),
                                   Frame(r.mem[r.head + 1], r.mem[r.head + 2], r.mem[r.head + 3],
                                       r.mem[r.head + 4..r.head + 4 + n]))
  {
  }

  function SetHead(s: State, c: nat, head: Word): (r: State)
    requires Shape(s) && c < MAX_CHANNELS && head <= RingSize(c) - 4
    ensures Shape(r)
  {
    SetChan(s, c, s.chan[c].(i2xHead := head))
  }

  function Acked(s: State, c: nat): (r: State)
    requires Shape(s) && c < MAX_CHANNELS
    ensures Shape(r)
  {
    SetChan(s, c, s.chan[c].(intr := 0))
  }

  lemma SetHeadSame(s: State, c: nat)
    requires Shape(s) && c < MAX_CHANNELS && s.chan[c].active
    ensures s.chan[c].i2xHead <= RingSize(c) - 4 && SetHead(s, c, s.chan[c].i2xHead) == s
    ensures |s.chan| == MAX_CHANNELS
  {
    assert s.chan[c := s.chan[c]] == s.chan;
  }

  lemma HeadWrite(h: Host, s: State, c: nat, head: Word)
    requires Shape(s) && c < MAX_CHANNELS && head <= RingSize(c) - 4
    ensures Consumer.HeadInRange(s, c * CHAN_STRIDE + I2X_HEAD_OFF, head)
            && Consumer.RegWrite(h, s, c * CHAN_STRIDE + I2X_HEAD_OFF, head) == SetHead(s, c, head)
  {
    hide Consumer.Process;
    var off: Word := c * CHAN_STRIDE + I2X_HEAD_OFF;
    assert off / CHAN_STRIDE == c && off % CHAN_STRIDE == 8;
  }

  lemma IntrWrite(h: Host, s: State, c: nat)
    requires Shape(s) && c < MAX_CHANNELS
    ensures |s.chan| == MAX_CHANNELS && Consumer.HeadInRange(s, c * CHAN_STRIDE + INTR_OFF, 0)
    ensures Consumer.RegWrite(h, s, c * CHAN_STRIDE + INTR_OFF, 0) == Acked(s, c)
  {
    hide Consumer.Process;
    var off: Word := c * CHAN_STRIDE + INTR_OFF;
    assert off / CHAN_STRIDE == c && off % CHAN_STRIDE == 0xC;
  }

  lemma ReplyRegisters(s: State, c: nat)
    requires Shape(s) && c < MAX_CHANNELS
    ensures |s.chan| == MAX_CHANNELS && Mailbox.RegRead(s, c * CHAN_STRIDE + I2X_TAIL_OFF) == s.chan[c].i2xTail
  {
    Discovery.BelongingReads(s, c);
  }

  /** The reply ring in SRAM words. */
  lemma ReplyWords(s: State, d: Drv, c: nat)
    requires Shape(s) && c < MAX_CHANNELS && d.i2xHead % 4 == 0 && d.i2xHead <= RingSize(c) - 4 && s.chan[c].active
    ensures var r, b := ReplyRing(s, d, c), I2xBase(c) / 4;
            && I2xBase(c) % 4 == 0 && I2xBase(c) + RingSize(c) <= SRAM_BYTES && |r.mem| == RingSize(c) / 4
                && RingSize(c) % 4 == 0
            && d.i2xHead == 4 * r.head && s.chan[c].i2xTail == 4 * r.tail
            && b + |r.mem| <= |s.sram| && r.mem == s.sram[b..b + |r.mem|]
  {
  }

  lemma GetSkips(r: Ring, fuel: nat)
    requires Ready(r) && fuel > 0 && r.head != r.tail && r.mem[r.head] == TOMBSTONE
    ensures Get(r, fuel) == Get(r.(head := 0), fuel - 1)
  {
  }

  lemma MovedHead(s: State, d: Drv, c: nat, head: Word)
    requires Shape(s) && c < MAX_CHANNELS && head <= RingSize(c) - 4
    ensures ReplyRing(SetHead(s, c, head), d.(i2xHead := head), c) == ReplyRing(s, d, c).(head := head / 4)
    ensures |s.chan| == MAX_CHANNELS && SetHead(s, c, head).chan[c].active == s.chan[c].active
    ensures RingSize(c) >= 8 ==> SetHead(SetHead(s, c, head), c, 0) == SetHead(s, c, 0)
  {
  }

  /** What submitting does, step by step in memory. */
  lemma SubmitPlan(h: Host, s: State, d: Drv, c: nat, f: Frame)
    requires Shape(s) && c < MAX_CHANNELS && s.chan[c].active && d.x2iTail % 4 == 0
    requires Ready(RequestRing(s, d, c)) && Len(f) <= Usable(RequestRing(s, d, c))
    ensures var r, head := RequestRing(s, d, c), s.chan[c].x2iHead;
            var b, start := X2iBase(c) / 4, 4 * PutStart(r, f);
            var full := start < head && start + 4 * Len(f) >= head;
            && Encodable(f) && X2iBase(c) % 4 == 0 && b + |r.mem| <= |s.sram|
            && (!full ==> X2iBase(c) + start + 4 * Len(f) <= SRAM_BYTES && start + 4 * Len(f) < TWO32)
            && LockstepModel.Submit(h, s, d, c, f) ==
               if full then
                 Submitted(s.(sram := PutMarked(s.sram, b, r, f)), d, false)
               else Planned(h, s, d, c, f, PutMarked(s.sram, b, r, f), start)
  {
    hide Splice, Encode, Put, PutMarked, PutStart, X2iBase, Consumer.RegWrite, RequestRing;
    SubmitDecides(s, d, c, f);
    PutInPlace(s.sram, X2iBase(c) / 4, RequestRing(s, d, c), f);
  }

  /** The frame written at byte `start` of the request ring in memory `sram`, and the tail register behind it. */
  function Planned(h: Host, s: State, d: Drv, c: nat, f: Frame, sram: seq<Word>, start: nat): Submitted
    requires Shape(s) && c < MAX_CHANNELS && Encodable(f) && |sram| == |s.sram|
    requires X2iBase(c) + start + 4 * Len(f) <= SRAM_BYTES && start + 4 * Len(f) < TWO32
  {
    var t := s.(sram := Splice(sram, (X2iBase(c) + start) / 4, Encode(f)));
    Submitted(Consumer.RegWrite(h, t, c * CHAN_STRIDE + X2I_TAIL_OFF, start + 4 * Len(f)),
              d.(x2iTail := start + 4 * Len(f), nextId := Add32(d.nextId, 1)), true)
  }

  lemma Words(s: State)
    requires Shape(s)
    ensures |s.sram| == SRAM_WORDS
  {
  }

  lemma HeadRegister(s: State, c: nat)
    requires Shape(s) && c < MAX_CHANNELS
    ensures Mailbox.RegRead(s, c * CHAN_STRIDE) == s.chan[c].x2iHead
  {
    Discovery.BelongingReads(s, c);
  }

  lemma TailRegister(s: State, c: nat, val: Word)
    requires Shape(s) && c < MAX_CHANNELS
    ensures Consumer.HeadInRange(s, c * CHAN_STRIDE + X2I_TAIL_OFF, val)
  {
    var off: Word := c * CHAN_STRIDE + X2I_TAIL_OFF;
    assert off % CHAN_STRIDE == 4;
  }
}
