/**
  MERT, the management firmware: the reply table, the context pool and the
  message dispatcher. Each message has an effect on the device and yields the
  payload of one reply, except a successful async registration, which yields none.
 */
module Mert {
  import opened Regs
  import opened Ring
  import opened NpuState
  import opened Mailbox

  datatype Outcome = Outcome(state: State, reply: Option<seq<Word>>)

  function Zeros(n: nat): (z: seq<Word>)
    ensures |z| == n && forall i :: 0 <= i < n ==> z[i] == 0
  {
    seq(n, _ => 0)
  }

  // --- Reply table ---

  /** Reply payload size in bytes; the same on success and on every error. */
  function RespSize(op: Word): (n: nat)
    ensures 4 <= n <= 76 && n % 4 == 0
  {
    if op == OP_GET_PROTOCOL_VERSION then 12
    else if op == OP_GET_FIRMWARE_VERSION then 20
    else if op == OP_QUERY_AIE_VERSION then 8
    else if op == OP_QUERY_AIE_TILE_INFO then 48
    else if op == OP_QUERY_COL_STATUS then 8
    else if op == OP_GET_RUNTIME_CONFIG then 12
    else if op == OP_GET_TELEMETRY then 16
    else if op == OP_CREATE_CONTEXT then 76
    else if op == OP_REGISTER_ASYNC_EVENT then 8
    else if op == OP_GET_APP_HEALTH then 36
    else if op == OP_GET_DEV_REVISION then 12
    else if op in {OP_CHAIN_EXEC_BUFFER_CF, OP_CHAIN_EXEC_DPU, OP_CHAIN_EXEC_NPU} then 12
    else 4
  }

  /** Byte offset of the status word in the reply. */
  function StatusOff(op: Word): (n: nat)
    ensures n + 4 <= RespSize(op) && n % 4 == 0
  {
    if op == OP_GET_TELEMETRY then 12 else 0
  }

  /** An all-zero reply of the right size, with only the status filled in. */
  function StatusReply(op: Word, status: Word): (p: seq<Word>)
    ensures 4 * |p| == RespSize(op) && p[StatusOff(op) / 4] == status
  {
    Zeros(RespSize(op) / 4)[StatusOff(op) / 4 := status]
  }

  function Status(s: State, op: Word, status: Word): Outcome {
    Outcome(s, Some(StatusReply(op, status)))
  }

  function U64(lo: Word, hi: Word): nat {
    lo + hi * 0x1_0000_0000
  }

  // --- Context pool ---

  /** First slot at or after `i` that is free. */
  function FirstFree(ctx: seq<Context>, i: nat): (k: nat)
    requires i <= |ctx|
    ensures i <= k <= |ctx|
    ensures forall j :: i <= j < k ==> ctx[j].valid
    ensures k < |ctx| ==> !ctx[k].valid
    decreases |ctx| - i
  {
    if i == |ctx| || !ctx[i].valid then i else FirstFree(ctx, i + 1)
  }

  /** First slot at or after `i` holding a valid context with this id. */
  function FindContext(ctx: seq<Context>, id: Word, i: nat): (k: nat)
    requires i <= |ctx|
    ensures i <= k <= |ctx|
    ensures forall j :: i <= j < k ==> !(ctx[j].valid && ctx[j].id == id)
    ensures k < |ctx| ==> ctx[k].valid && ctx[k].id == id
    decreases |ctx| - i
  {
    if i == |ctx| || (ctx[i].valid && ctx[i].id == id) then i else FindContext(ctx, id, i + 1)
  }

  /** The context a create request asks for, in slot `k`. */
  function NewContext(id: Word, k: nat, req: seq<Word>): (c: Context)
    requires |req| >= 7
    ensures c.valid && c.id == id && c.chan == k + 1
  {
    Context(true, id, req[2] / 0x10000, req[1] % 0x100, req[1] / 0x100 % 0x100, req[6], k + 1, 0, 0)
  }

  /** Slot `k` taken by a context with the next id. */
  function Entered(s: State, k: nat, req: seq<Word>): (r: State)
    requires Shape(s) && k < MAX_CONTEXTS && |req| >= 7
    ensures Shape(r)
  {
    s.(ctx := s.ctx[k := NewContext(s.nextCtxId, k, req)],
       nextCtxId := Add32(s.nextCtxId, 1),
       stats := s.stats.(activeContexts := s.stats.activeContexts + 1),
       log := s.log + [Created(k, s.nextCtxId)])
  }

  /** Open slot `k`: its channel on cleared rings, and a context with the next id. */
  function OpenContext(s: State, k: nat, req: seq<Word>): (r: State)
    requires Shape(s) && k < MAX_CONTEXTS && |req| >= 7
    ensures Shape(r)
  {
    var t := SetChan(s, k + 1, OpenChannel(k + 1));
    Entered(t.(sram := Splice(t.sram, X2iBase(k + 1) / 4, Zeros(CTX_RB_STRIDE / 4))), k, req)
  }

  /** Close slot `k`: its channel reset, its context no longer valid. */
  function CloseContext(s: State, k: nat): (r: State)
    requires Shape(s) && k < MAX_CONTEXTS && s.ctx[k].valid
    ensures Shape(r)
  {
    ChannelReset(s, s.ctx[k].chan).(
      ctx := s.ctx[k := s.ctx[k].(valid := false)],
      stats := s.stats.(activeContexts := if s.stats.activeContexts > 0 then s.stats.activeContexts - 1 else 0))
  }

  function SramDevAddr(off: nat): Word
    requires off < SRAM_BYTES
  {
    APERTURE1_BASE + off
  }

  function MboxDevAddr(off: nat): Word
    requires off < 0x10000
  {
    APERTURE2_BASE + off
  }

  /** The reply that tells the driver where context channel `c` lives. */
  function CreateReply(c: nat, id: Word): (p: seq<Word>)
    requires c < MAX_CHANNELS
    ensures 4 * |p| == RespSize(OP_CREATE_CONTEXT)
  {
    [STATUS_SUCCESS, id, c + 0x10000,
     MboxDevAddr(c * CHAN_STRIDE + X2I_HEAD_OFF), MboxDevAddr(c * CHAN_STRIDE + X2I_TAIL_OFF),
     SramDevAddr(X2iBase(c)), RingSize(c),
     MboxDevAddr(c * CHAN_STRIDE + I2X_HEAD_OFF), MboxDevAddr(c * CHAN_STRIDE + I2X_TAIL_OFF),
     SramDevAddr(I2xBase(c)), RingSize(c)]
    + Zeros(8)
  }

  function CreateContext(s: State, req: seq<Word>): (o: Outcome)
    requires Shape(s)
    ensures Shape(o.state)
  {
    if |req| < 7 then Status(s, OP_CREATE_CONTEXT, STATUS_INVALID_INPUT_BUFFER)
    else
      var k := FirstFree(s.ctx, 0);
      var numCol := req[1] / 0x100 % 0x100;
      if k == MAX_CONTEXTS then Status(s, OP_CREATE_CONTEXT, STATUS_ERT_NOAVAIL)
      else if numCol == 0 || numCol > AIE_COLS then Status(s, OP_CREATE_CONTEXT, STATUS_ERT_INVALID_PARAM)
      else Outcome(OpenContext(s, k, req), Some(CreateReply(k + 1, s.nextCtxId)))
  }

  function DestroyContext(s: State, req: seq<Word>): (o: Outcome)
    requires Shape(s)
    ensures Shape(o.state)
  {
    if |req| < 1 then Status(s, OP_DESTROY_CONTEXT, STATUS_INVALID_INPUT_BUFFER)
    else
      var k := FindContext(s.ctx, req[0], 0);
      if k == MAX_CONTEXTS then Status(s, OP_DESTROY_CONTEXT, STATUS_ERT_INVALID_PARAM)
      else Status(CloseContext(s, k), OP_DESTROY_CONTEXT, STATUS_SUCCESS)
  }

  function MapHostBuffer(s: State, op: Word, req: seq<Word>): (o: Outcome)
    requires Shape(s)
    ensures Shape(o.state)
  {
    if |req| < 5 then Status(s, op, STATUS_INVALID_INPUT_BUFFER)
    else
      var k := FindContext(s.ctx, req[0], 0);
      if k == MAX_CONTEXTS then Status(s, op, STATUS_ERT_INVALID_PARAM)
      else
        var ctx := s.ctx[k].(heapAddr := U64(req[1], req[2]), heapSize := U64(req[3], req[4]));
        Status(s.(ctx := s.ctx[k := ctx]), op, STATUS_SUCCESS)
  }

  // --- Runtime configuration ---

  function SetRuntimeConfig(s: State, req: seq<Word>): (o: Outcome)
    requires Shape(s)
    ensures Shape(o.state)
  {
    if |req| < 3 then Status(s, OP_SET_RUNTIME_CONFIG, STATUS_INVALID_INPUT_BUFFER)
    else if req[0] >= 64 then Status(s, OP_SET_RUNTIME_CONFIG, STATUS_INVALID_PARAM)
    else Status(s.(rtCfg := s.rtCfg[req[0] := U64(req[1], req[2])]), OP_SET_RUNTIME_CONFIG, STATUS_SUCCESS)
  }

  function GetRuntimeConfig(s: State, req: seq<Word>): (o: Outcome)
    requires Shape(s)
    ensures Shape(o.state)
  {
    if |req| < 1 then Status(s, OP_GET_RUNTIME_CONFIG, STATUS_INVALID_INPUT_BUFFER)
    else if req[0] >= 64 then Outcome(s, Some([STATUS_INVALID_PARAM, 0, 0]))
    else
      var v := s.rtCfg[req[0]];
      Outcome(s, Some([STATUS_SUCCESS, v % 0x1_0000_0000, v / 0x1_0000_0000 % 0x1_0000_0000]))
  }

  /** What was set is what is read back, and other entries are unaffected. */
  lemma ConfigRoundTrip(s: State, i: Word, lo: Word, hi: Word, j: Word)
    requires Shape(s) && i < 64 && j < 64
    ensures var t := SetRuntimeConfig(s, [i, lo, hi]);
            && t.reply == Some([STATUS_SUCCESS])
            && GetRuntimeConfig(t.state, [j]).reply ==
               if i == j then Some([STATUS_SUCCESS, lo, hi]) else GetRuntimeConfig(s, [j]).reply
  {
    assert SetRuntimeConfig(s, [i, lo, hi]).reply.value == [STATUS_SUCCESS];
  }

  // --- Column status dump ---

  datatype Filled = Filled(log: seq<Obs>, done: nat)

  /**
    Zero-fill [addr + done, addr + size) of host memory in chunks of at most 256 bytes, stopping at
    the first failure.
   */
  function FillZeros(h: Host, log: seq<Obs>, addr: nat, size: nat, done: nat): (r: Filled)
    requires done <= size
    ensures done <= r.done <= size
    decreases size - done
  {
    if done == size then Filled(log, done)
    else
      var n := if size - done > 256 then 256 else size - done;
      var at := (addr + done) % TWO64;
      var ok := h.writeOk(log, at, n);
      var log' := log + [DmaWrite(at, n, ok)];
      if ok then FillZeros(h, log', addr, size, done + n) else Filled(log', done)
  }

  function QueryColStatus(h: Host, s: State, req: seq<Word>): (o: Outcome)
    requires Shape(s)
    ensures Shape(o.state)
  {
    if |req| < 5 then Status(s, OP_QUERY_COL_STATUS, STATUS_INVALID_INPUT_BUFFER)
    else
      var addr, size := U64(req[0], req[1]), req[2];
      if addr == 0 || size == 0 then Outcome(s, Some([STATUS_INVALID_PARAM, 0]))
      else if !h.hasDmaWrite then Outcome(s, Some([STATUS_AIE_DMA_ERROR, 0]))
      else
        var r := FillZeros(h, s.log, addr, size, 0);
        Outcome(s.(log := r.log), Some([if r.done == size then STATUS_SUCCESS else STATUS_AIE_DMA_ERROR, r.done]))
  }

  // --- Dispatcher ---

  /** The tile description: 22 half-words packed into 11 words, after the status. */
  const TILE_INFO: seq<Word> :=
    [STATUS_SUCCESS, 0x2000, 2, 0x6_0005, 0x1_0004, 0x2_0001, 1, 0x6_0002, 0x10_0002, 0x10_0040, 0x80_0080, 0x80]

  predicate Unsupported(op: Word) {
    op in {OP_CONFIG_CU, OP_EXECUTE_BUFFER_CF, OP_EXEC_DPU, OP_CHAIN_EXEC_BUFFER_CF, OP_CHAIN_EXEC_DPU,
           OP_CHAIN_EXEC_NPU, OP_SYNC_BO, OP_CONFIG_DEBUG_BO}
  }

  /** What a message does to the device, and the payload of its reply. */
  function Effect(h: Host, s: State, c: nat, f: Frame): (o: Outcome)
    requires Shape(s)
    ensures Shape(o.state)
  {
    var op, req := f.opcode, f.payload;
    if op == OP_GET_PROTOCOL_VERSION then Outcome(s, Some([STATUS_SUCCESS, PROT_MAJOR, PROT_MINOR]))
    else if op == OP_GET_FIRMWARE_VERSION then Outcome(s, Some([STATUS_SUCCESS, 5, 7, 0, 0]))
    else if op == OP_QUERY_AIE_VERSION then Outcome(s, Some([STATUS_SUCCESS, 2]))
    else if op == OP_QUERY_AIE_TILE_INFO then Outcome(s, Some(TILE_INFO))
    else if op == OP_SET_RUNTIME_CONFIG then SetRuntimeConfig(s, req)
    else if op == OP_GET_RUNTIME_CONFIG then GetRuntimeConfig(s, req)
    else if op == OP_ASSIGN_MGMT_PASID then
      if |req| < 1 then Status(s, op, STATUS_INVALID_INPUT_BUFFER)
      else Status(s.(mgmtPasid := req[0] % 0x10000), op, STATUS_SUCCESS)
    else if op == OP_SUSPEND then Status(s.(fwSuspended := true), op, STATUS_SUCCESS)
    else if op == OP_RESUME then Status(s.(fwSuspended := false), op, STATUS_SUCCESS)
    else if op == OP_INVOKE_SELF_TEST then Status(s, op, STATUS_SUCCESS)
    else if op == OP_CREATE_CONTEXT then CreateContext(s, req)
    else if op == OP_DESTROY_CONTEXT then DestroyContext(s, req)
    else if op == OP_MAP_HOST_BUFFER || op == OP_ADD_HOST_BUFFER then MapHostBuffer(s, op, req)
    else if op == OP_REGISTER_ASYNC_EVENT then
      if |req| < 3 then Status(s, op, STATUS_INVALID_INPUT_BUFFER)
      else
        Outcome(s.(asyncBufAddr := U64(req[0], req[1]), asyncBufSize := req[2], asyncRegistered := true,
                   log := s.log + [AsyncRegistered(c)]),
                None)
    else if op == OP_QUERY_COL_STATUS then QueryColStatus(h, s, req)
    else if op == OP_GET_TELEMETRY then Outcome(s, Some([1, 0, 0, STATUS_SUCCESS]))
    else if Unsupported(op) then Status(s, op, STATUS_INVALID_OPERATION)
    else Status(s, op, STATUS_INVALID_COMMAND)
  }

  /** Send the reply an outcome calls for, if any, on the channel the message came from. */
  function Answer(h: Host, o: Outcome, c: nat, f: Frame): (r: State)
    requires Shape(o.state)
    ensures Shape(r)
  {
    match o.reply
    case None => o.state
    case Some(p) => Send(h, o.state, c, MakeFrame(f.id, f.opcode, p)).state
  }

  /** Handle one message: apply its effect, then answer it. */
  function Handle(h: Host, s: State, c: nat, f: Frame): (r: State)
    requires Shape(s)
    ensures Shape(r)
  {
    if !s.fwAlive then s else Answer(h, Effect(h, s, c, f), c, f)
  }

  // --- Exact reply size, status at the table's offset ---

  /** The status a request earns, read off the request and the state. */
  function Verdict(h: Host, s: State, f: Frame): Word
    requires Sized(s)
  {
    var op, req := f.opcode, f.payload;
    if op in {OP_GET_PROTOCOL_VERSION, OP_GET_FIRMWARE_VERSION, OP_QUERY_AIE_VERSION, OP_QUERY_AIE_TILE_INFO,
              OP_SUSPEND, OP_RESUME, OP_INVOKE_SELF_TEST, OP_GET_TELEMETRY} then STATUS_SUCCESS
    else if Unsupported(op) then STATUS_INVALID_OPERATION
    else if RequestWords(op) == 0 then STATUS_INVALID_COMMAND
    else if |req| < RequestWords(op) then STATUS_INVALID_INPUT_BUFFER
    else if op == OP_CREATE_CONTEXT then
      if forall k :: 0 <= k < MAX_CONTEXTS ==> s.ctx[k].valid then STATUS_ERT_NOAVAIL
      else if 1 <= req[1] / 0x100 % 0x100 <= AIE_COLS then STATUS_SUCCESS
      else STATUS_ERT_INVALID_PARAM
    else if op in {OP_DESTROY_CONTEXT, OP_MAP_HOST_BUFFER, OP_ADD_HOST_BUFFER} then
      if Resolves(s, req[0]) then STATUS_SUCCESS else STATUS_ERT_INVALID_PARAM
    else if op in {OP_SET_RUNTIME_CONFIG, OP_GET_RUNTIME_CONFIG} then
      if req[0] < 64 then STATUS_SUCCESS else STATUS_INVALID_PARAM
    else if op == OP_QUERY_COL_STATUS then
      if U64(req[0], req[1]) == 0 || req[2] == 0 then STATUS_INVALID_PARAM
      else if h.hasDmaWrite && FillZeros(h, s.log, U64(req[0], req[1]), req[2], 0).done == req[2] then STATUS_SUCCESS
      else STATUS_AIE_DMA_ERROR
    else STATUS_SUCCESS
  }

  /** Shortest request, in words, of the opcodes that carry one; 0 for unknown opcodes. */
  function RequestWords(op: Word): nat {
    if op == OP_CREATE_CONTEXT then 7
    else if op in {OP_MAP_HOST_BUFFER, OP_ADD_HOST_BUFFER, OP_QUERY_COL_STATUS} then 5
    else if op in {OP_SET_RUNTIME_CONFIG, OP_REGISTER_ASYNC_EVENT} then 3
    else if op in {OP_DESTROY_CONTEXT, OP_GET_RUNTIME_CONFIG, OP_ASSIGN_MGMT_PASID} then 1
    else 0
  }

  /** Some valid context answers to this id. */
  predicate Resolves(s: State, id: Word)
    requires Sized(s)
  {
    exists k :: 0 <= k < MAX_CONTEXTS && s.ctx[k].valid && s.ctx[k].id == id
  }

  predicate AsyncAccepted(f: Frame) {
    f.opcode == OP_REGISTER_ASYNC_EVENT && |f.payload| >= 3
  }

  /**
    Every message yields exactly one reply of its opcode's size with the earned
    status at the table's offset, on every success and error path; a successful
    async registration yields none.
   */
  lemma ReplyIsExact(h: Host, s: State, c: nat, f: Frame)
    requires Shape(s)
    ensures AsyncAccepted(f) <==> Effect(h, s, c, f).reply == None
    ensures !AsyncAccepted(f) ==> 4 * |Effect(h, s, c, f).reply.value| == RespSize(f.opcode)
    ensures !AsyncAccepted(f) ==> Effect(h, s, c, f).reply.value[StatusOff(f.opcode) / 4] == Verdict(h, s, f)
  {
    hide OpenContext, CloseContext, FillZeros, ChanOk;
    if f.opcode in {OP_DESTROY_CONTEXT, OP_MAP_HOST_BUFFER, OP_ADD_HOST_BUFFER}
        && |f.payload| >= RequestWords(f.opcode) {
      var k := FindContext(s.ctx, f.payload[0], 0);
      assert Resolves(s, f.payload[0]) <==> k < MAX_CONTEXTS;
    }
  }

  /** Destroying and mapping touch neither SRAM nor the log. */
  lemma PoolSpares(s: State, op: Word, req: seq<Word>)
    requires Shape(s)
    ensures DestroyContext(s, req).state.log == s.log && DestroyContext(s, req).state.sram == s.sram
    ensures MapHostBuffer(s, op, req).state.log == s.log && MapHostBuffer(s, op, req).state.sram == s.sram
  {
  }
}
