/** Register map, SRAM layout, message opcodes and status codes of the XDNA1 NPU. */
module Regs {

  const TWO32: int := 0x1_0000_0000
  const TWO64: int := 0x1_0000_0000_0000_0000

  /** A 32-bit register or memory word. */
  type Word = w: int | 0 <= w < 0x1_0000_0000

  /** 32-bit addition as the C code performs it. */
  function Add32(a: Word, b: Word): Word {
    (a + b) % 0x1_0000_0000
  }

  // Apertures and BARs
  const APERTURE1_BASE: Word := 0x3080000
  const APERTURE2_BASE: Word := 0x30C0000
  const SRAM_BYTES: nat := 0x40000
  const SRAM_WORDS: nat := 0x10000

  // REG BAR offsets
  const REG_PWAITMODE: Word := 0x10034
  const REG_SEC_INTR: Word := 0x10090
  const REG_PWRMGMT_INTR: Word := 0x10094
  const REG_SCRATCH2: Word := 0x100A0
  const REG_SCRATCH3: Word := 0x100A4
  const REG_SCRATCH4: Word := 0x100A8
  const REG_SCRATCH5: Word := 0x100AC
  const REG_SCRATCH6: Word := 0x100B0
  const REG_SCRATCH7: Word := 0x100B4
  const REG_SCRATCH9: Word := 0x100BC

  // PSP protocol
  const PSP_STATUS_READY: Word := 0x8000_0000
  const PSP_VALIDATE: Word := 1
  const PSP_START: Word := 2
  const PSP_RELEASE_TMR: Word := 3
  const PSP_VALIDATE_CERT: Word := 4
  const PSP_ERROR_CANCEL: Word := 0xFFFF_0002
  const PSP_ERROR_BAD_STATE: Word := 0xFFFF_0007
  const PSP_NOTIFY_VAL: Word := 1
  const PSP_PEEK_BYTES: Word := 64

  // SMU protocol
  const SMU_RESULT_OK: Word := 1
  const SMU_RESULT_FAIL: Word := 2
  const SMU_POWER_ON: Word := 3
  const SMU_POWER_OFF: Word := 4
  const SMU_SET_MPNPUCLK: Word := 5
  const SMU_SET_HCLK: Word := 6
  const SMU_SET_SOFT_DPM: Word := 7
  const SMU_SET_HARD_DPM: Word := 8
  const MAX_DPM_LEVEL: Word := 7

  // SRAM layout
  const MGMT_INFO_OFF: Word := 0x20000
  const MGMT_X2I_OFF: Word := 0x21000
  const MGMT_I2X_OFF: Word := 0x22000
  const MGMT_RB_SIZE: Word := 0x1000
  const CTX_RB_BASE: Word := 0x24000
  const CTX_RB_SIZE: Word := 0x2000
  const CTX_RB_STRIDE: Word := 0x4000
  const FW_ALIVE_OFF: Word := 0x3F000

  // MBOX BAR layout
  const CHAN_STRIDE: Word := 0x20
  const X2I_HEAD_OFF: Word := 0x00
  const X2I_TAIL_OFF: Word := 0x04
  const I2X_HEAD_OFF: Word := 0x08
  const INTR_OFF: Word := 0x0C
  const I2X_TAIL_OFF: Word := 0x10

  // Mailbox framing
  const TOMBSTONE: Word := 0xDEAD_FACE
  const MBOX_MAGIC_VAL: Word := 0x1D00_0000
  const MGMT_MBOX_MAGIC: Word := 0x5550_4E5F
  const MAX_MSG_PER_KICK: nat := 256
  const PROT_MAJOR: Word := 5
  const PROT_MINOR: Word := 7

  // Limits
  const MAX_CONTEXTS: nat := 6
  const MAX_CHANNELS: nat := 7
  const MGMT_VECTOR: nat := 0
  const AIE_COLS: nat := 5

  // MERT opcodes
  const OP_CREATE_CONTEXT: Word := 0x2
  const OP_DESTROY_CONTEXT: Word := 0x3
  const OP_GET_TELEMETRY: Word := 0x4
  const OP_SYNC_BO: Word := 0x7
  const OP_EXECUTE_BUFFER_CF: Word := 0xC
  const OP_QUERY_COL_STATUS: Word := 0xD
  const OP_QUERY_AIE_TILE_INFO: Word := 0xE
  const OP_QUERY_AIE_VERSION: Word := 0xF
  const OP_EXEC_DPU: Word := 0x10
  const OP_CONFIG_CU: Word := 0x11
  const OP_CHAIN_EXEC_BUFFER_CF: Word := 0x12
  const OP_CHAIN_EXEC_DPU: Word := 0x13
  const OP_CONFIG_DEBUG_BO: Word := 0x14
  const OP_CHAIN_EXEC_NPU: Word := 0x18
  const OP_SUSPEND: Word := 0x101
  const OP_RESUME: Word := 0x102
  const OP_ASSIGN_MGMT_PASID: Word := 0x103
  const OP_INVOKE_SELF_TEST: Word := 0x104
  const OP_MAP_HOST_BUFFER: Word := 0x106
  const OP_GET_FIRMWARE_VERSION: Word := 0x108
  const OP_SET_RUNTIME_CONFIG: Word := 0x10A
  const OP_GET_RUNTIME_CONFIG: Word := 0x10B
  const OP_REGISTER_ASYNC_EVENT: Word := 0x10C
  const OP_GET_APP_HEALTH: Word := 0x114
  const OP_ADD_HOST_BUFFER: Word := 0x115
  const OP_GET_DEV_REVISION: Word := 0x117
  const OP_GET_PROTOCOL_VERSION: Word := 0x301

  // MERT status codes
  const STATUS_SUCCESS: Word := 0
  const STATUS_AIE_DMA_ERROR: Word := 0x100_0009
  const STATUS_ERT_NOAVAIL: Word := 0x200_0003
  const STATUS_ERT_INVALID_PARAM: Word := 0x200_0004
  const STATUS_INVALID_INPUT_BUFFER: Word := 0x400_0001
  const STATUS_INVALID_COMMAND: Word := 0x400_0002
  const STATUS_INVALID_PARAM: Word := 0x400_0003
  const STATUS_INVALID_OPERATION: Word := 0x400_0006

  /** SRAM byte offset of channel `i`'s host-to-firmware ring. */
  function X2iBase(i: nat): nat {
    if i == 0 then MGMT_X2I_OFF else CTX_RB_BASE + (i - 1) * 0x4000
  }

  /** SRAM byte offset of channel `i`'s firmware-to-host ring. */
  function I2xBase(i: nat): nat {
    if i == 0 then MGMT_I2X_OFF else X2iBase(i) + CTX_RB_SIZE
  }

  /** Byte size of each of channel `i`'s two rings. */
  function RingSize(i: nat): nat {
    if i == 0 then MGMT_RB_SIZE else CTX_RB_SIZE
  }
}
