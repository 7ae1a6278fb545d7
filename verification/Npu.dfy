/**
  The device as the program keeps it: one object whose methods update registers,
  channel and context tables and SRAM in place. Each method is tied to the
  specification function of its effect on the device state.
 */
module NpuDevice {
  import opened Regs
  import opened Ring
  import opened NpuState
  import opened NpuMemory
  import opened Soundness
  import opened Bytes
  import Mailbox
  import Mert
  import Consumer
  import D = Device
  import I = Invariant

  class Npu {
    const host: Host
    const sram: array<Word>

    // REG BAR
    var scratch: seq<Word>
    var pwaitmode: Word
    var secIntr: Word
    var pwrmgmtIntr: Word

    // MBOX BAR
    var chan: seq<Channel>

    // Firmware and power
    var pspState: PspState
    var powerOn: bool
    var fwAlive: bool
    var fwSuspended: bool
    var fwPaddr: nat
    var fwSize: Word
    var npuclk: Word
    var hclk: Word
    var dpmLevel: Word
    var mgmtPasid: nat
    var rtCfg: seq<nat>

    // Contexts
    var ctx: seq<Context>
    var nextCtxId: Word
    var colUsed: Word

    // Async event registration
    var asyncBufAddr: nat
    var asyncBufSize: Word
    var asyncRegistered: bool

    var stats: Stats
    var log: seq<Obs>

    /** The device state as one value. */
    ghost function View(): State
      reads this, sram
    {
      State(scratch, pwaitmode, secIntr, pwrmgmtIntr, sram[..], chan, pspState, powerOn, fwAlive, fwSuspended,
            fwPaddr, fwSize, npuclk, hclk, dpmLevel, mgmtPasid, rtCfg, ctx, nextCtxId, colUsed,
            asyncBufAddr, asyncBufSize, asyncRegistered, stats, log)
    }

    ghost predicate Valid()
      reads this, sram
    {
      Shape(View())
    }

    // --- SRAM ---

    /** Store one word; an offset outside SRAM is ignored. */
    method SramWrite32(off: nat, v: Word)
      requires Valid() && off % 4 == 0
      modifies sram
      ensures Valid()
      ensures var s := old(View());
              View() == s.(sram := if off + 4 > SRAM_BYTES then s.sram else s.sram[off / 4 := v])
    {
      if off + 4 > SRAM_BYTES {
        return;
      }
      sram[off / 4] := v;
    }

    /** Copy words into SRAM at a byte offset. */
    method CopyToSram(off: nat, ws: seq<Word>)
      requires Valid() && off % 4 == 0 && off + 4 * |ws| <= SRAM_BYTES
      modifies sram
      ensures Valid() && View() == old(View()).(sram := Splice(old(sram[..]), off / 4, ws))
    {
      hide ChanOk;
      var at := off / 4;
      var i := 0;
      while i < |ws|
        invariant 0 <= i <= |ws|
        invariant sram[..] == Splice(old(sram[..]), at, ws[..i])
      {
        sram[at + i] := ws[i];
        i := i + 1;
      }
      assert ws[..i] == ws;
    }

    /** Zero `n` words of SRAM. */
    method ZeroSram(off: nat, n: nat)
      requires Valid() && off % 4 == 0 && off + 4 * n <= SRAM_BYTES
      modifies sram
      ensures Valid() && View() == old(View()).(sram := Splice(old(sram[..]), off / 4, Mert.Zeros(n)))
    {
      CopyToSram(off, Mert.Zeros(n));
    }

    // --- Mailbox ---

    method ChannelReset(i: nat)
      requires Valid()
      modifies this`chan
      ensures Valid() && View() == Mailbox.ChannelReset(old(View()), i)
    {
      if i >= MAX_CHANNELS {
        return;
      }
      chan := chan[i := BlankChannel(i)];
    }

    method MboxReset()
      requires Valid()
      modifies this`chan
      ensures Valid() && View() == Mailbox.ResetChannels(old(View()))
    {
      ghost var s := View();
      var i := 0;
      while i < MAX_CHANNELS
        invariant 0 <= i <= MAX_CHANNELS && Valid()
        invariant View() == s.(chan := chan)
        invariant forall k :: 0 <= k < i ==> chan[k] == BlankChannel(k)
      {
        ChannelReset(i);
        i := i + 1;
      }
      assert chan == Mailbox.ResetChannels(s).chan;
    }

    method MboxRegRead(off: Word) returns (v: Word)
      requires Valid()
      ensures v == Mailbox.RegRead(View(), off)
    {
      var idx := off / CHAN_STRIDE;
      if idx >= MAX_CHANNELS {
        return 0;
      }
      var ch := chan[idx];
      match off % CHAN_STRIDE {
        case X2I_HEAD_OFF => v := ch.x2iHead;
        case X2I_TAIL_OFF => v := ch.x2iTail;
        case I2X_HEAD_OFF => v := ch.i2xHead;
        case INTR_OFF => v := ch.intr;
        case I2X_TAIL_OFF => v := ch.i2xTail;
        case _ => v := 0;
      }
    }

    /** Write a frame, header then payload, at a byte offset. */
    method WriteFrame(off: nat, f: Frame)
      requires Valid() && Encodable(f) && off % 4 == 0 && off + 4 * Len(f) <= SRAM_BYTES
      modifies sram
      ensures Valid() && View() == old(View()).(sram := Splice(old(sram[..]), off / 4, Encode(f)))
    {
      hide Splice;
      var hdr: seq<Word> := [4 * |f.payload|, f.szVer, f.id, f.opcode];
      ghost var before := sram[..];
      CopyToSram(off, hdr);
      if f.payload != [] {
        CopyToSram(off + 16, f.payload);
        SpliceTwice(before, off / 4, hdr, f.payload);
      } else {
        assert hdr + f.payload == hdr;
      }
    }

    /** A frame is in the ring: move the tail, raise the interrupt, count it. */
    method Publish(c: nat, f: Frame, tail: Word)
      requires Valid() && c < MAX_CHANNELS && chan[c].active && tail % 4 == 0 && tail <= RingSize(c) - 4
      modifies this`chan, this`stats, this`log
      ensures Valid() && View() == Published(host, old(View()), c, f, tail)
    {
      chan := chan[c := chan[c].(i2xTail := tail, intr := 1)];
      stats := stats.(msgsOut := stats.msgsOut + 1);
      log := log + [Replied(c, f, true)];
      if host.hasIrq {
        log := log + [Irq(chan[c].index)];
        stats := stats.(irqs := stats.irqs + 1);
      }
    }

    method LogRefused(c: nat, f: Frame)
      requires Valid()
      modifies this`log
      ensures Valid() && View() == old(View()).(log := old(log) + [Replied(c, f, false)])
    {
      log := log + [Replied(c, f, false)];
    }

    /** Where the next frame goes; a frame that does not fit before the last word leaves a tombstone. */
    method FindRoom(c: nat, pkg: nat) returns (tail: nat)
      requires Valid() && c < MAX_CHANNELS && chan[c].active
      modifies sram
      ensures Valid() && View() == old(View()).(sram := Marked(old(View()), c, pkg))
      ensures tail == StartAt(chan[c], pkg)
    {
      var ch := chan[c];
      tail := ch.i2xTail;
      if tail >= ch.i2xHead && tail + pkg > ch.i2xSize - 4 {
        SramWrite32(ch.i2xBuf + tail, TOMBSTONE);
        tail := 0;
      }
    }

    /** The ring part of a send: tombstone, full test, frame, in byte positions. */
    method SendOnRing(c: nat, f: Frame) returns (ok: bool)
      requires Valid() && Mailbox.Sends(View(), c, f)
      modifies this`chan, this`stats, this`log, sram
      ensures Valid()
      ensures View() == Mailbox.Send(host, old(View()), c, f).state
      ensures ok == Mailbox.Send(host, old(View()), c, f).ok
    {
      hide Splice, Encode, Mailbox.Send, Marked, StartAt, Published, I2x;
      ghost var s := View();
      var ch := chan[c];
      var pkg := 4 * Len(f);
      var tail := FindRoom(c, pkg);
      if tail < ch.i2xHead && tail + pkg >= ch.i2xHead {
        SendRefused(host, s, c, f);
        LogRefused(c, f);
        ok := false;
      } else {
        SendAccepted(host, s, c, f);
        WriteFrame(ch.i2xBuf + tail, f);
        Publish(c, f, tail + pkg);
        ok := true;
      }
    }

    /** Send a message to the driver; refused on a closed channel or when it cannot fit. */
    method Send(c: nat, id: Word, opcode: Word, payload: seq<Word>) returns (ok: bool)
      requires Valid() && 16 + 4 * |payload| < TWO32
      modifies this`chan, this`stats, this`log, sram
      ensures Valid()
      ensures View() == Mailbox.Send(host, old(View()), c, Mailbox.MakeFrame(id, opcode, payload)).state
      ensures ok == Mailbox.Send(host, old(View()), c, Mailbox.MakeFrame(id, opcode, payload)).ok
    {
      hide Splice, Put;
      var f := Mailbox.MakeFrame(id, opcode, payload);
      if c >= MAX_CHANNELS || !chan[c].active {
        LogRefused(c, f);
        return false;
      }
      var pkg := 16 + 4 * |payload|;
      var usable := chan[c].i2xSize - 4;
      if pkg > usable {
        LogRefused(c, f);
        return false;
      }
      ok := SendOnRing(c, f);
    }

    // --- MERT ---

    method Reply(c: nat, f: Frame, payload: seq<Word>)
      requires Valid() && |payload| <= 32
      modifies this`chan, this`stats, this`log, sram
      ensures Valid()
      ensures View() == Mert.Answer(host, Mert.Outcome(old(View()), Some(payload)), c, f)
    {
      var _ := Send(c, f.id, f.opcode, payload);
    }

    /** A reply of the opcode's size, all zero but for the status. */
    method ReplyStatus(c: nat, f: Frame, status: Word)
      requires Valid()
      modifies this`chan, this`stats, this`log, sram
      ensures Valid()
      ensures View() == Mert.Answer(host, Mert.Status(old(View()), f.opcode, status), c, f)
    {
      hide Mert.Answer, Mert.StatusReply;
      Reply(c, f, Mert.StatusReply(f.opcode, status));
    }

    /** First slot whose valid context has this id, or the table size. */
    method CtxById(id: Word) returns (k: nat)
      requires Valid()
      ensures k == Mert.FindContext(ctx, id, 0) && k <= MAX_CONTEXTS == |ctx|
    {
      k := 0;
      while k < MAX_CONTEXTS && !(ctx[k].valid && ctx[k].id == id)
        invariant 0 <= k <= MAX_CONTEXTS
        invariant forall j :: 0 <= j < k ==> !(ctx[j].valid && ctx[j].id == id)
      {
        k := k + 1;
      }
    }

    method FreeSlot() returns (k: nat)
      requires Valid()
      ensures k == Mert.FirstFree(ctx, 0) && k <= MAX_CONTEXTS == |ctx|
    {
      k := 0;
      while k < MAX_CONTEXTS && ctx[k].valid
        invariant 0 <= k <= MAX_CONTEXTS
        invariant forall j :: 0 <= j < k ==> ctx[j].valid
      {
        k := k + 1;
      }
    }

    /** Set up context channel `i` on its own ring pair. */
    method OpenChannelAt(i: nat)
      requires Valid() && 1 <= i < MAX_CHANNELS
      modifies this`chan
      ensures Valid() && View() == SetChan(old(View()), i, OpenChannel(i))
    {
      ghost var s := View();
      var rbBase := CTX_RB_BASE + (i - 1) * 0x4000;
      ChannelReset(i);
      chan := chan[i := chan[i].(active := true, index := i, x2iBuf := rbBase, x2iSize := CTX_RB_SIZE,
                                 i2xBuf := rbBase + CTX_RB_SIZE, i2xSize := CTX_RB_SIZE)];
      assert chan == s.chan[i := OpenChannel(i)];
    }

    /** Enter a context with the next id into slot `k`. */
    method EnterContext(k: nat, req: seq<Word>)
      requires Valid() && k < MAX_CONTEXTS && |req| >= 7
      modifies this`ctx, this`nextCtxId, this`stats, this`log
      ensures Valid()
      ensures View() == Mert.Entered(old(View()), k, req)
    {
      hide ChanOk, Mert.NewContext;
      PutContext(k, Mert.NewContext(nextCtxId, k, req));
      CountCreation(k);
    }

    method PutContext(k: nat, cx: Context)
      requires Valid() && k < MAX_CONTEXTS && cx.chan == k + 1
      modifies this`ctx
      ensures Valid() && View() == old(View()).(ctx := old(ctx)[k := cx])
    {
      hide ChanOk;
      ctx := ctx[k := cx];
    }

    method CountCreation(k: nat)
      requires Valid()
      modifies this`nextCtxId, this`stats, this`log
      ensures Valid()
      ensures var s := old(View());
              View() == s.(nextCtxId := Add32(s.nextCtxId, 1), log := s.log + [Created(k, s.nextCtxId)],
                           stats := s.stats.(activeContexts := s.stats.activeContexts + 1))
    {
      hide ChanOk;
      log := log + [Created(k, nextCtxId)];
      nextCtxId := Add32(nextCtxId, 1);
      stats := stats.(activeContexts := stats.activeContexts + 1);
    }

    method OpenContext(k: nat, req: seq<Word>)
      requires Valid() && k < MAX_CONTEXTS && |req| >= 7
      modifies this`chan, this`ctx, this`nextCtxId, this`stats, this`log, sram
      ensures Valid() && View() == Mert.OpenContext(old(View()), k, req)
    {
      hide Splice, Shape, Mert.Entered;
      OpenChannelAt(k + 1);
      ZeroSram(X2iBase(k + 1), CTX_RB_STRIDE / 4);
      EnterContext(k, req);
    }

    method CloseContext(k: nat)
      requires Valid() && k < MAX_CONTEXTS && ctx[k].valid
      modifies this`chan, this`ctx, this`stats
      ensures Valid() && View() == Mert.CloseContext(old(View()), k)
    {
      ChannelReset(ctx[k].chan);
      ctx := ctx[k := ctx[k].(valid := false)];
      if stats.activeContexts > 0 {
        stats := stats.(activeContexts := stats.activeContexts - 1);
      }
    }

    method HandleCreateContext(c: nat, f: Frame)
      requires Valid() && f.opcode == OP_CREATE_CONTEXT
      modifies this`chan, this`ctx, this`nextCtxId, this`stats, this`log, sram
      ensures Valid()
      ensures View() == Mert.Answer(host, Mert.CreateContext(old(View()), f.payload), c, f)
    {
      hide Mert.Answer, Mert.OpenContext, Mert.CreateReply, Mert.StatusReply, Shape;
      var req := f.payload;
      if |req| < 7 {
        ReplyStatus(c, f, STATUS_INVALID_INPUT_BUFFER);
        return;
      }
      var slot := FreeSlot();
      if slot == MAX_CONTEXTS {
        ReplyStatus(c, f, STATUS_ERT_NOAVAIL);
        return;
      }
      var numCol := req[1] / 0x100 % 0x100;
      if numCol == 0 || numCol > AIE_COLS {
        ReplyStatus(c, f, STATUS_ERT_INVALID_PARAM);
        return;
      }
      var id := nextCtxId;
      OpenContext(slot, req);
      Reply(c, f, Mert.CreateReply(slot + 1, id));
    }

    method HandleDestroyContext(c: nat, f: Frame)
      requires Valid() && f.opcode == OP_DESTROY_CONTEXT
      modifies this`chan, this`ctx, this`stats, this`log, sram
      ensures Valid()
      ensures View() == Mert.Answer(host, Mert.DestroyContext(old(View()), f.payload), c, f)
    {
      hide Mert.Answer, Mert.StatusReply, Mert.CloseContext, Shape;
      if |f.payload| < 1 {
        ReplyStatus(c, f, STATUS_INVALID_INPUT_BUFFER);
        return;
      }
      var k := CtxById(f.payload[0]);
      if k == MAX_CONTEXTS {
        ReplyStatus(c, f, STATUS_ERT_INVALID_PARAM);
        return;
      }
      CloseContext(k);
      ReplyStatus(c, f, STATUS_SUCCESS);
    }

    method HandleMapHostBuffer(c: nat, f: Frame)
      requires Valid()
      modifies this`chan, this`ctx, this`stats, this`log, sram
      ensures Valid()
      ensures View() == Mert.Answer(host, Mert.MapHostBuffer(old(View()), f.opcode, f.payload), c, f)
    {
      hide Mert.Answer, Mert.StatusReply;
      var req := f.payload;
      if |req| < 5 {
        ReplyStatus(c, f, STATUS_INVALID_INPUT_BUFFER);
        return;
      }
      var k := CtxById(req[0]);
      if k == MAX_CONTEXTS {
        ReplyStatus(c, f, STATUS_ERT_INVALID_PARAM);
        return;
      }
      SetHeap(k, Mert.U64(req[1], req[2]), Mert.U64(req[3], req[4]));
      ReplyStatus(c, f, STATUS_SUCCESS);
    }

    method SetHeap(k: nat, addr: nat, size: nat)
      requires Valid() && k < MAX_CONTEXTS
      modifies this`ctx
      ensures Valid() && View() == old(View()).(ctx := old(ctx)[k := old(ctx)[k].(heapAddr := addr, heapSize := size)])
    {
      hide ChanOk;
      ctx := ctx[k := ctx[k].(heapAddr := addr, heapSize := size)];
    }

    method HandleSetRuntimeConfig(c: nat, f: Frame)
      requires Valid() && f.opcode == OP_SET_RUNTIME_CONFIG
      modifies this`chan, this`rtCfg, this`stats, this`log, sram
      ensures Valid()
      ensures View() == Mert.Answer(host, Mert.SetRuntimeConfig(old(View()), f.payload), c, f)
    {
      hide Mert.Answer, Mert.StatusReply, ChanOk;
      var req := f.payload;
      if |req| < 3 {
        ReplyStatus(c, f, STATUS_INVALID_INPUT_BUFFER);
        return;
      }
      if req[0] >= 64 {
        ReplyStatus(c, f, STATUS_INVALID_PARAM);
        return;
      }
      StoreConfig(req[0], Mert.U64(req[1], req[2]));
      ReplyStatus(c, f, STATUS_SUCCESS);
    }

    method StoreConfig(i: nat, v: nat)
      requires Valid() && i < 64
      modifies this`rtCfg
      ensures Valid() && View() == old(View()).(rtCfg := old(rtCfg)[i := v])
    {
      rtCfg := rtCfg[i := v];
    }

    method HandleGetRuntimeConfig(c: nat, f: Frame)
      requires Valid() && f.opcode == OP_GET_RUNTIME_CONFIG
      modifies this`chan, this`stats, this`log, sram
      ensures Valid()
      ensures View() == Mert.Answer(host, Mert.GetRuntimeConfig(old(View()), f.payload), c, f)
    {
      hide Mert.Answer, Mert.StatusReply;
      var req := f.payload;
      if |req| < 1 {
        ReplyStatus(c, f, STATUS_INVALID_INPUT_BUFFER);
        return;
      }
      if req[0] >= 64 {
        Reply(c, f, [STATUS_INVALID_PARAM, 0, 0]);
      } else {
        var v := rtCfg[req[0]];
        Reply(c, f, [STATUS_SUCCESS, v % 0x1_0000_0000, v / 0x1_0000_0000 % 0x1_0000_0000]);
      }
    }

    /** The dump loop: zero chunks of at most 256 bytes until done or a write fails. */
    method FillHost(addr: nat, size: Word) returns (done: nat)
      requires Valid()
      modifies this`log
      ensures Valid() && View() == old(View()).(log := Mert.FillZeros(host, old(log), addr, size, 0).log)
      ensures done == Mert.FillZeros(host, old(log), addr, size, 0).done
    {
      done := 0;
      var seen := log;
      while done < size
        invariant done <= size
        invariant Mert.FillZeros(host, seen, addr, size, done) == Mert.FillZeros(host, log, addr, size, 0)
        decreases size - done
      {
        var n := size - done;
        if n > 256 {
          n := 256;
        }
        var at := (addr + done) % TWO64;
        var ok := host.writeOk(seen, at, n);
        seen := seen + [DmaWrite(at, n, ok)];
        if !ok {
          break;
        }
        done := done + n;
      }
      log := seen;
    }

    method HandleQueryColStatus(c: nat, f: Frame)
      requires Valid() && f.opcode == OP_QUERY_COL_STATUS
      modifies this`chan, this`stats, this`log, sram
      ensures Valid()
      ensures View() == Mert.Answer(host, Mert.QueryColStatus(host, old(View()), f.payload), c, f)
    {
      hide Mert.Answer, Mert.StatusReply, Mert.FillZeros;
      var req := f.payload;
      if |req| < 5 {
        ReplyStatus(c, f, STATUS_INVALID_INPUT_BUFFER);
        return;
      }
      var addr := Mert.U64(req[0], req[1]);
      var status, size := STATUS_SUCCESS, 0;
      if addr == 0 || req[2] == 0 {
        status := STATUS_INVALID_PARAM;
      } else if !host.hasDmaWrite {
        status := STATUS_AIE_DMA_ERROR;
      } else {
        size := FillHost(addr, req[2]);
        status := if size == req[2] then STATUS_SUCCESS else STATUS_AIE_DMA_ERROR;
      }
      Reply(c, f, [status, size]);
    }

    /** Dispatch one message by opcode. */
    method MertHandle(c: nat, f: Frame)
      requires Valid()
      modifies this, sram
      ensures Valid() && View() == Mert.Handle(host, old(View()), c, f)
    {
      hide Mert.Answer, Mert.StatusReply, Mert.CreateContext, Mert.DestroyContext, Mert.MapHostBuffer;
      hide Mert.SetRuntimeConfig, Mert.GetRuntimeConfig, Mert.QueryColStatus, Shape;
      if !fwAlive {
        return;
      }
      var op, req := f.opcode, f.payload;
      if op == OP_GET_PROTOCOL_VERSION {
        Reply(c, f, [STATUS_SUCCESS, PROT_MAJOR, PROT_MINOR]);
      } else if op == OP_GET_FIRMWARE_VERSION {
        Reply(c, f, [STATUS_SUCCESS, 5, 7, 0, 0]);
      } else if op == OP_QUERY_AIE_VERSION {
        Reply(c, f, [STATUS_SUCCESS, 2]);
      } else if op == OP_QUERY_AIE_TILE_INFO {
        Reply(c, f, Mert.TILE_INFO);
      } else if op == OP_SET_RUNTIME_CONFIG {
        HandleSetRuntimeConfig(c, f);
      } else if op == OP_GET_RUNTIME_CONFIG {
        HandleGetRuntimeConfig(c, f);
      } else if op == OP_ASSIGN_MGMT_PASID {
        AssignPasid(c, f);
      } else if op == OP_SUSPEND || op == OP_RESUME {
        SetSuspended(c, f);
      } else if op == OP_INVOKE_SELF_TEST {
        ReplyStatus(c, f, STATUS_SUCCESS);
      } else if op == OP_CREATE_CONTEXT {
        HandleCreateContext(c, f);
      } else if op == OP_DESTROY_CONTEXT {
        HandleDestroyContext(c, f);
      } else if op == OP_MAP_HOST_BUFFER || op == OP_ADD_HOST_BUFFER {
        HandleMapHostBuffer(c, f);
      } else if op == OP_REGISTER_ASYNC_EVENT {
        RegisterAsync(c, f);
      } else if op == OP_QUERY_COL_STATUS {
        HandleQueryColStatus(c, f);
      } else if op == OP_GET_TELEMETRY {
        Reply(c, f, [1, 0, 0, STATUS_SUCCESS]);
      } else if Mert.Unsupported(op) {
        ReplyStatus(c, f, STATUS_INVALID_OPERATION);
      } else {
        ReplyStatus(c, f, STATUS_INVALID_COMMAND);
      }
    }

    method AssignPasid(c: nat, f: Frame)
      requires Valid() && f.opcode == OP_ASSIGN_MGMT_PASID
      modifies this`chan, this`mgmtPasid, this`stats, this`log, sram
      ensures Valid() && View() == Mert.Answer(host, Mert.Effect(host, old(View()), c, f), c, f)
    {
      hide Mert.Answer, Mert.StatusReply;
      if |f.payload| < 1 {
        ReplyStatus(c, f, STATUS_INVALID_INPUT_BUFFER);
        return;
      }
      mgmtPasid := f.payload[0] % 0x10000;
      ReplyStatus(c, f, STATUS_SUCCESS);
    }

    method SetSuspended(c: nat, f: Frame)
      requires Valid() && (f.opcode == OP_SUSPEND || f.opcode == OP_RESUME)
      modifies this`chan, this`fwSuspended, this`stats, this`log, sram
      ensures Valid() && View() == Mert.Answer(host, Mert.Effect(host, old(View()), c, f), c, f)
    {
      hide Mert.Answer, Mert.StatusReply;
      fwSuspended := f.opcode == OP_SUSPEND;
      ReplyStatus(c, f, STATUS_SUCCESS);
    }

    /** A registration is answered only later, by an event; here it is only recorded. */
    method RegisterAsync(c: nat, f: Frame)
      requires Valid() && f.opcode == OP_REGISTER_ASYNC_EVENT
      modifies this`chan, this`asyncBufAddr, this`asyncBufSize, this`asyncRegistered, this`stats, this`log, sram
      ensures Valid() && View() == Mert.Answer(host, Mert.Effect(host, old(View()), c, f), c, f)
    {
      hide Mailbox.Send, Mert.StatusReply;
      var req := f.payload;
      if |req| < 3 {
        ReplyStatus(c, f, STATUS_INVALID_INPUT_BUFFER);
        return;
      }
      asyncBufAddr := Mert.U64(req[0], req[1]);
      asyncBufSize := req[2];
      asyncRegistered := true;
      log := log + [AsyncRegistered(c)];
    }

    // --- The consume loop ---

    /** Move the consumer position of channel `c`. */
    method SetX2iHead(c: nat, head: Word)
      requires Valid() && c < MAX_CHANNELS && ChanOk(c, chan[c].(x2iHead := head))
      modifies this`chan
      ensures Valid() && View() == SetChan(old(View()), c, old(chan)[c].(x2iHead := head))
    {
      chan := chan[c := chan[c].(x2iHead := head)];
    }

    /** Take the message at the head of channel `c` off its ring. */
    method Take(c: nat, f: Frame)
      requires Valid() && c < MAX_CHANNELS && Mailbox.Peek(View(), c) == Mailbox.Message(f)
      modifies this`chan, this`stats, this`log
      ensures Valid() && View() == Consumer.Taken(old(View()), c, f)
    {
      hide Mailbox.Peek;
      Consumer.PeekInside(View(), c);
      var at := chan[c].x2iHead;
      SetX2iHead(c, at + 4 * Len(f));
      CountMessage(c, at, f);
    }

    method CountMessage(c: nat, at: nat, f: Frame)
      requires Valid()
      modifies this`stats, this`log
      ensures Valid()
      ensures var s := old(View());
              View() == s.(stats := s.stats.(msgsIn := s.stats.msgsIn + 1), log := s.log + [Dispatched(c, at, f)])
    {
      hide ChanOk;
      log := log + [Dispatched(c, at, f)];
      stats := stats.(msgsIn := stats.msgsIn + 1);
    }

    /** The checks on the message at the head, reading SRAM in place. */
    method Look(c: nat) returns (l: Mailbox.Look)
      requires Valid() && c < MAX_CHANNELS
      ensures l == Mailbox.Peek(View(), c)
    {
      hide X2i, ChanOk;
      var ch := chan[c];
      if ch.x2iHead >= ch.x2iSize {
        return Mailbox.Rewind;
      }
      var at := (ch.x2iBuf + ch.x2iHead) / 4;
      ghost var r := X2i(View(), c);
      PeekInPlace(View(), c);
      LookFrom(r.mem, r.head, sram[..], at);
      var peek := sram[at];
      if peek == TOMBSTONE {
        return Mailbox.Rewind;
      }
      if peek == 0 || peek % 4 != 0 {
        return Mailbox.Malformed;
      }
      var msgSize := Add32(16, peek);
      if msgSize > ch.x2iSize - ch.x2iHead {
        return Mailbox.Malformed;
      }
      if peek > CTX_RB_SIZE {
        return Mailbox.Malformed;
      }
      l := Mailbox.Message(Frame(sram[at + 1], sram[at + 2], sram[at + 3], sram[at + 4..at + 4 + peek / 4]));
    }

    /** Drain channel `c`: at most 256 looks, stopping at the tail or at a malformed message. */
    method Process(c: nat)
      requires Valid()
      modifies this, sram
      ensures Valid() && View() == Consumer.Process(host, old(View()), c)
    {
      hide Mailbox.Peek, Mert.Handle, Consumer.Taken, ChanOk;
      if c >= MAX_CHANNELS || !chan[c].active {
        return;
      }
      var guard := 0;
      while chan[c].x2iHead != chan[c].x2iTail
        invariant Valid() && 0 <= guard <= MAX_MSG_PER_KICK
        invariant Consumer.Drain(host, View(), c, MAX_MSG_PER_KICK - guard) ==
                Consumer.Drain(host, old(View()), c, MAX_MSG_PER_KICK)
        decreases MAX_MSG_PER_KICK - guard
      {
        if guard == MAX_MSG_PER_KICK {
          return;
        }
        guard := guard + 1;
        var l := Look(c);
        match l {
          case Rewind =>
            Consumer.RewindOk(View(), c);
            SetX2iHead(c, 0);
          case Malformed => return;
          case Message(f) =>
            Take(c, f);
            MertHandle(c, f);
        }
      }
    }

    /** The x2i tail triggers processing; the device's own registers ignore writes. */
    method MboxRegWrite(off: Word, val: Word)
      requires Valid() && Consumer.HeadInRange(View(), off, val)
      modifies this, sram
      ensures Valid() && View() == Consumer.RegWrite(host, old(View()), off, val)
    {
      hide Consumer.Process;
      var c := off / CHAN_STRIDE;
      if c >= MAX_CHANNELS {
        return;
      }
      match off % CHAN_STRIDE {
        case X2I_TAIL_OFF =>
          chan := chan[c := chan[c].(x2iTail := val)];
          Process(c);
        case I2X_HEAD_OFF => chan := chan[c := chan[c].(i2xHead := val)];
        case INTR_OFF => chan := chan[c := chan[c].(intr := val)];
        case _ =>
      }
    }

    // --- Firmware ---

    method OpenMgmtChannel()
      requires Valid()
      modifies this`chan
      ensures Valid() && View() == SetChan(old(View()), 0, OpenChannel(0))
    {
      ghost var s := View();
      ChannelReset(0);
      chan := chan[0 := chan[0].(active := true, index := MGMT_VECTOR, x2iBuf := MGMT_X2I_OFF, x2iSize := MGMT_RB_SIZE,
                                 i2xBuf := MGMT_I2X_OFF, i2xSize := MGMT_RB_SIZE)];
      assert chan == s.chan[0 := OpenChannel(0)];
    }

    /** Clear the management rings and publish the channel description. */
    method BootMemory()
      requires Valid()
      modifies sram
      ensures Valid() && View() == old(View()).(sram := D.BootSram(old(sram[..])))
    {
      hide Splice, Mert.Zeros, D.MgmtInfo, Shape;
      ZeroSram(MGMT_X2I_OFF, MGMT_RB_SIZE / 4);
      ZeroSram(MGMT_I2X_OFF, MGMT_RB_SIZE / 4);
      CopyToSram(MGMT_INFO_OFF, D.MgmtInfo());
      SramWrite32(FW_ALIVE_OFF, Mert.SramDevAddr(MGMT_INFO_OFF));
    }

    method MarkAlive()
      requires Valid()
      modifies this`fwAlive, this`fwSuspended, this`pwaitmode
      ensures Valid()
      ensures View() == old(View()).(fwAlive := true, fwSuspended := false,
                                     pwaitmode := if old(pwaitmode) % 2 == 1 then old(pwaitmode)
                                                  else old(pwaitmode) + 1)
    {
      hide ChanOk;
      fwAlive, fwSuspended, pwaitmode := true, false, if pwaitmode % 2 == 1 then pwaitmode else pwaitmode + 1;
    }

    /** Bring the firmware up: management channel, cleared rings, channel description, FW_ALIVE. */
    method FwBoot()
      requires Valid()
      modifies this`chan, this`fwAlive, this`fwSuspended, this`pwaitmode, sram
      ensures Valid() && View() == D.Boot(old(View()))
    {
      hide D.BootSram, Shape;
      ghost var s := View();
      OpenMgmtChannel();
      BootMemory();
      MarkAlive();
      assert View() == D.Boot(s);
    }

    /** Take the firmware down: no valid context, every channel closed. */
    method FwShutdown()
      requires Valid()
      modifies this`ctx, this`colUsed, this`stats, this`asyncRegistered, this`chan, this`fwAlive, this`pwaitmode, sram
      ensures Valid() && View() == D.Shutdown(old(View()))
    {
      hide D.Invalidated, Mailbox.ClosedChannels, Shape;
      ghost var s := View();
      InvalidateContexts();
      ShutdownWiring();
      colUsed, stats, asyncRegistered := 0, stats.(activeContexts := 0), false;
      assert View() == D.Shutdown(s);
    }

    method ShutdownWiring()
      requires Valid()
      modifies this`chan, this`fwAlive, this`pwaitmode, sram
      ensures Valid()
      ensures View() == old(View()).(chan := Mailbox.ClosedChannels(), sram := old(sram[..])[FW_ALIVE_OFF / 4 := 0],
                                     fwAlive := false, pwaitmode := old(pwaitmode) - old(pwaitmode) % 2)
    {
      hide Mailbox.ClosedChannels, ChanOk;
      MboxReset();
      SramWrite32(FW_ALIVE_OFF, 0);
      fwAlive, pwaitmode := false, pwaitmode - pwaitmode % 2;
    }

    method InvalidateContexts()
      requires Valid()
      modifies this`ctx
      ensures Valid() && View() == old(View()).(ctx := D.Invalidated(old(ctx)))
    {
      hide ChanOk;
      var i := 0;
      while i < MAX_CONTEXTS
        invariant 0 <= i <= MAX_CONTEXTS == |ctx| && Valid()
        invariant forall k :: 0 <= k < i ==> ctx[k] == old(ctx)[k].(valid := false)
        invariant forall k :: i <= k < MAX_CONTEXTS ==> ctx[k] == old(ctx)[k]
      {
        ctx := ctx[i := ctx[i].(valid := false)];
        i := i + 1;
      }
      assert ctx == D.Invalidated(old(ctx));
    }

    // --- PSP ---

    /** Read the first bytes of the image; 0 if that worked. */
    method FetchImage(paddr: nat, size: Word) returns (resp: Word)
      requires Valid()
      modifies this`log
      ensures Valid() && View() == old(View()).(log := D.FetchImage(host, old(log), paddr, size).log)
      ensures resp == D.FetchImage(host, old(log), paddr, size).resp
    {
      var n := if size < PSP_PEEK_BYTES then size else PSP_PEEK_BYTES;
      if size == 0 {
        return PSP_ERROR_BAD_STATE;
      }
      if !host.hasDmaRead {
        return PSP_ERROR_CANCEL;
      }
      var ok := host.readOk(log, paddr, n);
      log := log + [DmaRead(paddr, n, ok)];
      resp := if ok then 0 else PSP_ERROR_CANCEL;
    }

    method PspComplete(resp: Word)
      requires Valid()
      modifies this`scratch
      ensures Valid() && View() == D.PspComplete(old(View()), resp)
    {
      scratch := scratch[3 := resp];
      scratch := scratch[2 := PSP_STATUS_READY];
    }

    /** Accept the image at `paddr` if it can be read. */
    method ValidateImage(paddr: nat, size: Word) returns (resp: Word)
      requires Valid() && paddr == D.PspPaddr(View()) && size == D.PspSize(View())
      modifies this`log, this`fwPaddr, this`fwSize, this`pspState
      ensures Valid() && View() == D.Validate(host, old(View())).state && resp == D.Validate(host, old(View())).resp
    {
      hide D.FetchImage, ChanOk;
      resp := FetchImage(paddr, size);
      if resp == 0 {
        fwPaddr, fwSize, pspState := paddr, size, Validated;
      }
    }

    method PspCommand() returns (resp: Word)
      requires Valid()
      modifies this, sram
      ensures Valid() && View() == D.PspCommand(host, old(View())).state && resp == D.PspCommand(host, old(View())).resp
    {
      hide D.Boot, D.Shutdown, D.FetchImage, D.Validate, D.Start, ChanOk;
      var cmd := scratch[2];
      var paddr, size := Mert.U64(scratch[3], scratch[4]), scratch[9] % 0x100_0000;
      if cmd == PSP_VALIDATE {
        resp := ValidateImage(paddr, size);
      } else if cmd == PSP_VALIDATE_CERT {
        resp := FetchImage(paddr, size);
      } else if cmd == PSP_START {
        resp := StartFirmware();
      } else if cmd == PSP_RELEASE_TMR {
        FwShutdown();
        pspState := Cold;
        resp := 0;
      } else {
        resp := PSP_ERROR_BAD_STATE;
      }
    }

    /** Execute the command in the command register; CMD doubles as STATUS, ARG0 as RESP. */
    method PspKick()
      requires Valid()
      modifies this, sram
      ensures Valid() && View() == D.PspKick(host, old(View()))
    {
      hide D.PspCommand, D.PspComplete, ChanOk;
      stats := stats.(pspCmds := stats.pspCmds + 1);
      var resp := PspCommand();
      PspComplete(resp);
    }

    method StartFirmware() returns (resp: Word)
      requires Valid()
      modifies this`pspState, this`chan, this`fwAlive, this`fwSuspended, this`pwaitmode, sram
      ensures Valid() && View() == D.Start(old(View())).state && resp == D.Start(old(View())).resp
    {
      hide D.BootSram, ChanOk;
      if pspState != Validated {
        return PSP_ERROR_BAD_STATE;
      }
      pspState := Running;
      FwBoot();
      resp := 0;
    }

    // --- SMU ---

    method SmuCommand() returns (resp: Word, out: Word)
      requires Valid()
      modifies this`powerOn, this`npuclk, this`hclk, this`dpmLevel
      ensures Valid() && View() == D.SmuCommand(old(View())).state
      ensures resp == D.SmuCommand(old(View())).resp && out == D.SmuCommand(old(View())).out
    {
      hide ChanOk;
      var cmd, arg := scratch[5], scratch[7];
      resp, out := SMU_RESULT_OK, 0;
      if cmd == SMU_POWER_ON {
        powerOn := true;
      } else if cmd == SMU_POWER_OFF {
        powerOn := false;
      } else if cmd == SMU_SET_MPNPUCLK {
        npuclk := arg;
        out := arg;
      } else if cmd == SMU_SET_HCLK {
        hclk := arg;
        out := arg;
      } else if (cmd == SMU_SET_SOFT_DPM || cmd == SMU_SET_HARD_DPM) && arg <= MAX_DPM_LEVEL {
        dpmLevel := arg;
        out := arg;
      } else {
        resp := SMU_RESULT_FAIL;
      }
    }

    /** Execute the SMU command; the argument register doubles as the output. */
    method SmuKick()
      requires Valid()
      modifies this`stats, this`powerOn, this`npuclk, this`hclk, this`dpmLevel, this`scratch
      ensures Valid() && View() == D.SmuKick(old(View()))
    {
      hide ChanOk, D.SmuCommand;
      stats := stats.(smuCmds := stats.smuCmds + 1);
      var resp, out := SmuCommand();
      scratch := scratch[7 := out][6 := resp];
    }

    // --- REG BAR ---

    method RegBarRead(off: Word) returns (v: Word)
      requires Valid()
      ensures v == D.RegRead(View(), off)
    {
      if off == REG_PWAITMODE {
        v := pwaitmode;
      } else if off == REG_SEC_INTR {
        v := secIntr;
      } else if off == REG_PWRMGMT_INTR {
        v := pwrmgmtIntr;
      } else {
        match D.ScratchAt(off) {
          case Some(k) => v := scratch[k];
          case None => v := 0;
        }
      }
    }

    /** Writing 1 to a doorbell runs the PSP or SMU command. */
    method RegBarWrite(off: Word, val: Word)
      requires Valid()
      modifies this, sram
      ensures Valid() && View() == D.RegWrite(host, old(View()), off, val)
    {
      hide D.PspKick, D.SmuKick, ChanOk;
      if off == REG_PWAITMODE {
        pwaitmode := val;
      } else if off == REG_SEC_INTR {
        secIntr := val;
        if val == PSP_NOTIFY_VAL {
          PspKick();
        }
      } else if off == REG_PWRMGMT_INTR {
        pwrmgmtIntr := val;
        if val == 1 {
          SmuKick();
        }
      } else {
        match D.ScratchAt(off) {
          case Some(k) => scratch := scratch[k := val];
          case None =>
        }
      }
    }

    // --- MMIO ---

    /** Write a block: SRAM is plain memory, a register BAR takes the words one by one. */
    method MmioWriteBuf(bar: int, off: Word, ws: seq<Word>)
      requires Valid() && D.AllDisciplined(host, View(), D.BlockWrite(bar, off, ws))
      modifies this, sram
      ensures Valid() && View() == D.Run(host, old(View()), D.BlockWrite(bar, off, ws))
      ensures old(Sound(host, View())) ==> Sound(host, View())
    {
      hide Sound, D.RegWrite, Consumer.RegWrite, Splice, ChanOk;
      ghost var s := View();
      ghost var evs := D.BlockWrite(bar, off, ws);
      if Sound(host, s) {
        I.RunKeeps(host, s, evs);
      }
      if bar == D.BAR_SRAM {
        WriteSramBlock(off, ws);
        return;
      }
      var i, at := 0, off;
      assert ws[0..] == ws;
      while i < |ws|
        invariant 0 <= i <= |ws| && Valid()
        invariant D.AllDisciplined(host, View(), D.WordWrites(bar, at, ws[i..]))
        invariant D.Run(host, View(), D.WordWrites(bar, at, ws[i..])) == D.Run(host, s, evs)
      {
        assert ws[i..][1..] == ws[i + 1..];
        WriteWord(bar, at, ws[i], ws[i + 1..]);
        i, at := i + 1, Add32(at, 4);
      }
    }

    method WriteSramBlock(off: Word, ws: seq<Word>)
      requires Valid() && off % 4 == 0
      modifies this, sram
      ensures Valid() && View() == D.Run(host, old(View()), [D.SramBar(off, ws)])
    {
      hide Splice, ChanOk;
      ghost var e := D.SramBar(off, ws);
      assert [e][1..] == [];
      if off + 4 * |ws| <= SRAM_BYTES {
        CopyToSram(off, ws);
      }
    }

    /** One word of a block write to a register BAR, with the words still to come. */
    method WriteWord(bar: int, off: Word, w: Word, ghost rest: seq<Word>)
      requires Valid() && bar != D.BAR_SRAM
      requires D.AllDisciplined(host, View(), D.WordWrites(bar, off, [w] + rest))
      modifies this, sram
      ensures Valid() && D.AllDisciplined(host, View(), D.WordWrites(bar, Add32(off, 4), rest))
      ensures D.Run(host, View(), D.WordWrites(bar, Add32(off, 4), rest))
              == D.Run(host, old(View()), D.WordWrites(bar, off, [w] + rest))
    {
      hide D.RegWrite, Consumer.RegWrite, ChanOk;
      assert ([w] + rest)[1..] == rest;
      ghost var more := D.WordWrites(bar, Add32(off, 4), rest);
      assert forall e: D.Event :: ([e] + more)[1..] == more;
      if bar == D.BAR_REG {
        RegBarWrite(off, w);
      } else if bar == D.BAR_MBOX {
        MboxRegWrite(off, w);
      }
    }

    /** Read a block; out of range SRAM and unknown BARs read as zero. */
    method MmioReadBuf(bar: int, off: Word, n: nat) returns (ws: seq<Word>)
      requires Valid() && (bar == D.BAR_SRAM ==> off % 4 == 0)
      ensures |ws| == n
      ensures bar == D.BAR_SRAM && off + 4 * n <= SRAM_BYTES ==> ws == sram[off / 4..off / 4 + n]
      ensures bar == D.BAR_SRAM && off + 4 * n > SRAM_BYTES ==> forall i :: 0 <= i < n ==> ws[i] == 0
      ensures bar != D.BAR_SRAM ==> forall i :: 0 <= i < n ==>
              ws[i] == D.ReadWord(View(), bar, (off + 4 * i) % 0x1_0000_0000)
    {
      hide D.RegRead, Mailbox.RegRead, ChanOk;
      if bar == D.BAR_SRAM {
        if off + 4 * n > SRAM_BYTES {
          return Mert.Zeros(n);
        }
        return sram[off / 4..off / 4 + n];
      }
      ws := [];
      while |ws| < n
        invariant |ws| <= n
        invariant forall i :: 0 <= i < |ws| ==> ws[i] == D.ReadWord(View(), bar, (off + 4 * i) % 0x1_0000_0000)
      {
        var at: Word := (off + 4 * |ws|) % 0x1_0000_0000;
        var v: Word := 0;
        if bar == D.BAR_REG {
          v := RegBarRead(at);
        } else if bar == D.BAR_MBOX {
          v := MboxRegRead(at);
        }
        ws := ws + [v];
      }
    }

    /** Write a block of bytes, whatever its offset and length. */
    method MmioWriteBytes(bar: int, off: Word, bs: seq<Byte>)
      requires Valid() && D.AllDisciplined(host, View(), D.ByteWrite(bar, off, bs))
      modifies this, sram
      ensures Valid() && View() == D.Run(host, old(View()), D.ByteWrite(bar, off, bs))
      ensures old(Sound(host, View())) ==> Sound(host, View())
    {
      hide Sound, D.Step, ChanOk, ChunkWords, D.WordWrites;
      if bar == D.BAR_SRAM {
        WriteSramBytes(off, bs);
      } else {
        MmioWriteBuf(bar, off, ChunkWords(bs));
      }
    }

    method WriteSramBytes(off: Word, bs: seq<Byte>)
      requires Valid()
      modifies this, sram
      ensures Valid() && View() == D.Run(host, old(View()), [D.SramBytes(off, bs)])
      ensures old(Sound(host, View())) ==> Sound(host, View())
    {
      hide PutBytes, WithByte, ChanOk, Sound;
      ghost var s := View();
      ghost var e := D.SramBytes(off, bs);
      assert [e][1..] == [];
      if Sound(host, s) {
        I.StepKeeps(host, s, e);
      }
      if off + |bs| <= SRAM_BYTES {
        CopyBytes(off, bs);
      }
    }

    /** Copy bytes into SRAM. */
    method CopyBytes(off: nat, bs: seq<Byte>)
      requires Valid() && off + |bs| <= SRAM_BYTES
      modifies sram
      ensures Valid() && View() == old(View()).(sram := PutBytes(old(sram[..]), off, bs))
    {
      hide WithByte, ChanOk;
      ghost var m := sram[..];
      var i := 0;
      assert bs[0..] == bs;
      while i < |bs|
        invariant 0 <= i <= |bs|
        invariant PutBytes(sram[..], off + i, bs[i..]) == PutBytes(m, off, bs)
      {
        var k := (off + i) / 4;
        assert bs[i..][1..] == bs[i + 1..];
        sram[k] := WithByte(sram[k], (off + i) % 4, bs[i]);
        i := i + 1;
      }
    }

    /** Read a block of bytes, whatever its offset and length. */
    method MmioReadBytes(bar: int, off: Word, n: nat) returns (bs: seq<Byte>)
      requires Valid()
      ensures |bs| == n
      ensures bar == D.BAR_SRAM && off + n <= SRAM_BYTES ==> forall i :: 0 <= i < n ==>
              bs[i] == ByteAt(sram[..], off + i)
      ensures bar == D.BAR_SRAM && off + n > SRAM_BYTES ==> forall i :: 0 <= i < n ==> bs[i] == 0
      ensures bar != D.BAR_SRAM ==>
                forall i :: 0 <= i < n ==>
                  bs[i] == ByteOf(D.ReadWord(View(), bar, (off + 4 * (i / 4)) % 0x1_0000_0000), i % 4)
    {
      hide D.RegRead, Mailbox.RegRead, ChanOk, ByteOf;
      if bar != D.BAR_SRAM {
        var ws := MmioReadBuf(bar, off, (n + 3) / 4);
        return BytesOf(ws)[..n];
      }
      if off + n > SRAM_BYTES {
        return seq(n, _ => 0);
      }
      bs := [];
      while |bs| < n
        invariant |bs| <= n
        invariant forall i :: 0 <= i < |bs| ==> bs[i] == ByteAt(sram[..], off + i)
      {
        var o := off + |bs|;
        bs := bs + [ByteOf(sram[o / 4], o % 4)];
      }
    }

    // --- Reset ---

    constructor (host: Host)
      ensures Valid() && fresh(sram) && this.host == host
      ensures View() == D.ResetState([]) && Sound(host, View())
    {
      this.host := host;
      sram := new Word[SRAM_WORDS](_ => 0);
      new;
      assert sram[..] == Mert.Zeros(SRAM_WORDS);
      ClearState([]);
      I.ResetSound(host, []);
    }

    method ClearBars()
      modifies this`scratch, this`pwaitmode, this`secIntr, this`pwrmgmtIntr, this`chan
      ensures scratch == D.ResetScratch() && pwaitmode == secIntr == pwrmgmtIntr == 0
              && chan == Mailbox.ClosedChannels()
    {
      scratch, pwaitmode, secIntr, pwrmgmtIntr, chan := D.ResetScratch(), 0, 0, 0, Mailbox.ClosedChannels();
    }

    method ClearPower()
      modifies this`pspState, this`powerOn, this`fwAlive, this`fwSuspended, this`fwPaddr, this`fwSize, this`npuclk,
          this`hclk, this`dpmLevel
      ensures pspState == Cold && !powerOn && !fwAlive && !fwSuspended
      ensures fwPaddr == 0 && fwSize == npuclk == hclk == dpmLevel == 0
    {
      pspState, powerOn, fwAlive, fwSuspended, fwPaddr, fwSize, npuclk, hclk, dpmLevel := Cold, false, false, false,
          0, 0, 0, 0, 0;
    }

    method ClearResources(seen: seq<Obs>)
      modifies this`mgmtPasid, this`rtCfg, this`ctx, this`nextCtxId, this`colUsed, this`asyncBufAddr,
          this`asyncBufSize, this`asyncRegistered, this`stats, this`log
      ensures mgmtPasid == 0 && rtCfg == Mert.Zeros(64) && ctx == D.NoContexts() && nextCtxId == 1 && colUsed == 0
      ensures asyncBufAddr == 0 && asyncBufSize == 0 && !asyncRegistered
      ensures stats == Stats(0, 0, 0, 0, 0, 0) && log == seen + [WasReset]
    {
      mgmtPasid, rtCfg, ctx, nextCtxId, colUsed := 0, Mert.Zeros(64), D.NoContexts(), 1, 0;
      asyncBufAddr, asyncBufSize, asyncRegistered, stats, log := 0, 0, false, Stats(0, 0, 0, 0, 0, 0),
          seen + [WasReset];
    }

    /** Every register, table and counter at its reset value, over a cleared SRAM. */
    method ClearState(seen: seq<Obs>)
      requires sram.Length == SRAM_WORDS && sram[..] == Mert.Zeros(SRAM_WORDS)
      modifies this
      ensures Valid() && View() == D.ResetState(seen)
    {
      hide Shape, Mert.Zeros, Mailbox.ClosedChannels, D.NoContexts, D.ResetScratch;
      ClearBars();
      ClearPower();
      ClearResources(seen);
      assert View() == D.ResetState(seen);
    }

    /** Cold reset: everything back to its initial value, SRAM cleared. */
    method Reset()
      requires Valid()
      modifies this, sram
      ensures Valid() && View() == D.ResetState(old(log))
      ensures old(Sound(host, View())) ==> Sound(host, View())
    {
      hide Sound, D.ResetState;
      ghost var s := View();
      if Sound(host, s) {
        I.StepKeeps(host, s, D.Reset);
      }
      ZeroSram(0, SRAM_WORDS);
      assert sram[..] == Mert.Zeros(SRAM_WORDS);
      ClearState(log);
    }
  }
}
