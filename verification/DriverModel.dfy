/**
  The driver's side of the protocol: PSP commands, finding the management
  channel, and what it knows about a channel.
 */
module DriverModel {
  import opened Regs
  import opened NpuState
  import opened Bytes
  import D = Device

  /** A ring as the driver sees it: BAR offsets of its registers and memory. */
  datatype ChannRes = ChannRes(headReg: int, tailReg: int, rbStart: int, rbSize: int)

  datatype Found = Found(x2i: ChannRes, i2x: ChannRes, intrReg: int, vector: int)

  /** One PSP command: fill the command and argument registers, then ring the doorbell. */
  function PspExec(h: Host, s: State, cmd: Word, arg0: Word, arg1: Word, arg2: Word): (r: State)
    requires Shape(s)
    ensures Shape(r)
  {
    D.Writes(h, s, PspSequence(cmd, arg0, arg1, arg2))
  }

  function PspSequence(cmd: Word, arg0: Word, arg1: Word, arg2: Word): seq<D.Write> {
    [D.Write(REG_SCRATCH2, cmd), D.Write(REG_SCRATCH3, arg0), D.Write(REG_SCRATCH4, arg1),
     D.Write(REG_SCRATCH9, arg2 % 0x100_0000), D.Write(REG_SEC_INTR, 0), D.Write(REG_SEC_INTR, PSP_NOTIFY_VAL)]
  }

  /** One SMU command: clear the response, fill argument and command, then ring the doorbell. */
  function SmuExec(h: Host, s: State, cmd: Word, arg: Word): (r: State)
    requires Shape(s)
    ensures Shape(r)
  {
    D.Writes(h, s, SmuSequence(cmd, arg))
  }

  function SmuSequence(cmd: Word, arg: Word): seq<D.Write> {
    [D.Write(REG_SCRATCH6, 0), D.Write(REG_SCRATCH7, arg), D.Write(REG_SCRATCH5, cmd),
     D.Write(REG_PWRMGMT_INTR, 0), D.Write(REG_PWRMGMT_INTR, 1)]
  }

  /** Load a firmware image and start it. */
  function BringUp(h: Host, s: State, lo: Word, hi: Word, size: Word): (r: State)
    requires Shape(s)
    ensures Shape(r)
  {
    PspExec(h, PspExec(h, s, PSP_VALIDATE, lo, hi, size), PSP_START, 1, 0, 0)
  }

  /** The VALIDATE step of a bring-up answered 0. */
  predicate ImageAccepted(h: Host, s: State, lo: Word, hi: Word, size: Word)
    requires Shape(s)
  {
    PspExec(h, s, PSP_VALIDATE, lo, hi, size).scratch[3] == 0
  }

  function RingAt(head: int, tail: int, buf: int, size: int): ChannRes {
    ChannRes(head - APERTURE2_BASE, tail - APERTURE2_BASE, buf - APERTURE1_BASE, size)
  }

  /** What the channel description says: the interrupt register follows the reply ring's head. */
  function FromInfo(w: seq<Word>): Found
    requires |w| == 16
  {
    var i2x := RingAt(w[5], w[4], w[6], w[7]);
    Found(RingAt(w[1], w[0], w[2], w[3]), i2x, i2x.headReg + 4, w[9])
  }

  /** Follow the FW_ALIVE pointer to the channel description and check its magic. */
  function Discover(s: State): Option<Found>
    requires Sized(s)
  {
    var addr := s.sram[FW_ALIVE_OFF / 4];
    var off := addr - APERTURE1_BASE;
    if addr == 0 || off < 0 || off + 64 > SRAM_BYTES then None
    else
      var w := WordsAt(s.sram, off, 16);
      if w[8] != MGMT_MBOX_MAGIC then None
      else Some(FromInfo(w))
  }

  /** What a create reply says about the new channel. */
  function FromReply(p: seq<Word>): Found
    requires |p| == 19
  {
    var i2x := RingAt(p[7], p[8], p[9], p[10]);
    Found(RingAt(p[3], p[4], p[5], p[6]), i2x, i2x.headReg + 4, p[2] % 0x10000)
  }
}
