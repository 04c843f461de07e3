/**
 * The TRF7960 reader's SPI vocabulary: the address/command word that opens every exchange,
 * the register addresses and direct-command codes the inventory round uses, the fixed
 * frames it sends, and the TX length encoding.
 */
module Trf7960 {
  import opened Bytes
  import Iso15693

  /** The first byte of every exchange. Bit 7 chooses a direct command (set) or a register
      access (clear), bit 6 a read (set) or a write (clear), bit 5 continuous-address mode,
      and bits 4..0 hold the register address or the command code. */
  datatype Word = Word(command: bool, read: bool, continuous: bool, code: nat)

  predicate ValidWord(w: Word) {
    w.code < 32
  }

  function EncodeWord(w: Word): (b: byte)
    requires ValidWord(w)
    ensures b as int % 32 == w.code
  {
    ((if w.command then 128 else 0) + (if w.read then 64 else 0)
     + (if w.continuous then 32 else 0) + w.code) as byte
  }

  function DecodeWord(b: byte): (w: Word)
    ensures ValidWord(w)
  {
    Word(b >= 128, b % 128 >= 64, b % 64 >= 32, b as int % 32)
  }

  lemma DecodeEncodeWord(w: Word)
    requires ValidWord(w)
    ensures DecodeWord(EncodeWord(w)) == w
  {
  }

  lemma EncodeDecodeWord(b: byte)
    ensures EncodeWord(DecodeWord(b)) == b
  {
  }

  // Direct-command codes
  const Idle: nat := 0x00
  const SoftInit: nat := 0x03
  const ResetFifo: nat := 0x0F
  const TransmitWithCrc: nat := 0x11
  const BlockReceiver: nat := 0x16

  // Register addresses
  const ChipStatusControl: nat := 0x00
  const IsoControl: nat := 0x01
  const RxNoResponseWaitTime: nat := 0x07
  const ModulatorSysClkControl: nat := 0x09
  const IrqStatus: nat := 0x0C
  const RssiLevels: nat := 0x0F
  const FifoStatus: nat := 0x1C
  const TxLengthByte1: nat := 0x1D
  const Fifo: nat := 0x1F

  function Command(code: nat): Word { Word(true, false, false, code) }
  function WriteSingle(addr: nat): Word { Word(false, false, false, addr) }
  function WriteContinuous(addr: nat): Word { Word(false, false, true, addr) }
  function ReadSingle(addr: nat): Word { Word(false, true, false, addr) }
  function ReadContinuous(addr: nat): Word { Word(false, true, true, addr) }

  /** The frames the inventory round sends, by purpose. */
  datatype Frame =
    | SoftInitFrame
    | IdleFrame
    | ChipSetupFrame
    | SysClkFrame
    | NoResponseWaitFrame
    | ReadIrqStatusFrame
    | InventoryFrame
    | ResetFifoFrame
    | ReadFifoStatusFrame
    | ReadFifoFrame
    | ReadRssiFrame
    | BlockReceiverFrame
    | ReadIrqStatusSingleFrame
    | TransmitterOffFrame

  /** The bytes of each frame, as they go out on MOSI. */
  function Wire(f: Frame): (r: seq<byte>)
    ensures 0 < |r| < 256
  {
    match f
    case SoftInitFrame => [0x83]
    case IdleFrame => [0x80]
    // Chip Status Control := 0x21, ISO Control := 0x02, then four more registers.
    case ChipSetupFrame => [0x20, 0x21, 0x02, 0x00, 0x00, 0xC1, 0xBB]
    // Modulator and SYS_CLK Control := 0x21 (SYS_CLK 6.78 MHz).
    case SysClkFrame => [0x09, 0x21]
    // RX No Response Wait Time := 0x13.
    case NoResponseWaitFrame => [0x07, 0x13]
    // Continuous read from IRQ Status; reply byte 1 is the IRQ status.
    case ReadIrqStatusFrame => [0x6C, 0x00, 0x00]
    // Reset FIFO, transmit with CRC, then a continuous write from TX Length Byte 1:
    // the two TX length bytes and the three request bytes for the FIFO.
    case InventoryFrame => [0x8F, 0x91, 0x3D, 0x00, 0x30, 0x26, 0x01, 0x00]
    case ResetFifoFrame => [0x8F]
    // Single read of FIFO Status; reply byte 1 is the number of bytes in the FIFO.
    case ReadFifoStatusFrame => [0x5C, 0x00]
    // Continuous read of the FIFO: the address word and ten clocks for ten bytes.
    case ReadFifoFrame => [0x7F, 0x00, 0x00, 0x00, 0x00, 0x00, 0x00, 0x00, 0x00, 0x00, 0x00]
    // Single read of the RSSI levels; reply byte 1 is the level.
    case ReadRssiFrame => [0x4F, 0x00]
    case BlockReceiverFrame => [0x96]
    // Single read of IRQ Status, which also clears it.
    case ReadIrqStatusSingleFrame => [0x4C, 0x00]
    // Chip Status Control := 0x01: RF output off.
    case TransmitterOffFrame => [0x00, 0x01]
  }

  /** Software initialisation, idle and the chip set-up write: a round pauses 1 ms after
      them. */
  const StartFrames: seq<Frame> := [SoftInitFrame, IdleFrame, ChipSetupFrame]

  /** `usleep(1000)`, the pause both programs make after `StartFrames`, in microseconds. */
  const SetupPauseUs: nat := 1000

  /** The clock and wait-time writes, an IRQ-status read and the Inventory request. */
  const RequestFrames: seq<Frame> := [SysClkFrame, NoResponseWaitFrame, ReadIrqStatusFrame, InventoryFrame]

  /** What every round sends first, in order, before waiting for the IRQ line. */
  const InitFrames: seq<Frame> := StartFrames + RequestFrames

  /** The clock and wait-time writes, the Inventory request and the IRQ-status read that
      follows the wait for the IRQ line. */
  const QueryFrames: seq<Frame> := RequestFrames + [ReadIrqStatusFrame]

  /** The IRQ-status and FIFO-status reads once the response has come in. */
  const ProbeFrames: seq<Frame> := [ReadIrqStatusFrame, ReadFifoStatusFrame]

  /** What a round that got past the bounded wait sends last, in order. */
  const CleanupFrames: seq<Frame> := [ResetFifoFrame, ReadRssiFrame, ResetFifoFrame,
                                      BlockReceiverFrame, ReadIrqStatusSingleFrame, TransmitterOffFrame]

  /** Each frame's first byte is the command or register access its purpose names. */
  lemma FrameHeaders()
    ensures DecodeWord(Wire(SoftInitFrame)[0]) == Command(SoftInit)
    ensures DecodeWord(Wire(IdleFrame)[0]) == Command(Idle)
    ensures DecodeWord(Wire(ChipSetupFrame)[0]) == WriteContinuous(ChipStatusControl)
    ensures DecodeWord(Wire(SysClkFrame)[0]) == WriteSingle(ModulatorSysClkControl)
    ensures DecodeWord(Wire(NoResponseWaitFrame)[0]) == WriteSingle(RxNoResponseWaitTime)
    ensures DecodeWord(Wire(ReadIrqStatusFrame)[0]) == ReadContinuous(IrqStatus)
    ensures DecodeWord(Wire(InventoryFrame)[0]) == Command(ResetFifo)
    ensures DecodeWord(Wire(InventoryFrame)[1]) == Command(TransmitWithCrc)
    ensures DecodeWord(Wire(InventoryFrame)[2]) == WriteContinuous(TxLengthByte1)
    ensures DecodeWord(Wire(ResetFifoFrame)[0]) == Command(ResetFifo)
    ensures DecodeWord(Wire(ReadFifoStatusFrame)[0]) == ReadSingle(FifoStatus)
    ensures DecodeWord(Wire(ReadFifoFrame)[0]) == ReadContinuous(Fifo)
    ensures DecodeWord(Wire(ReadRssiFrame)[0]) == ReadSingle(RssiLevels)
    ensures DecodeWord(Wire(BlockReceiverFrame)[0]) == Command(BlockReceiver)
    ensures DecodeWord(Wire(ReadIrqStatusSingleFrame)[0]) == ReadSingle(IrqStatus)
    ensures DecodeWord(Wire(TransmitterOffFrame)[0]) == WriteSingle(ChipStatusControl)
  {
  }

  /** The number of complete bytes to transmit that the two TX length registers hold:
      byte 1 carries bits 11..4 of the count, the high nibble of byte 2 bits 3..0 (its low
      nibble describes a broken last byte). */
  function TxLengthOf(byte1: byte, byte2: byte): nat {
    byte1 as nat * 16 + byte2 as nat / 16
  }

  /** The two TX length register values for `n` complete bytes and no broken byte. */
  function TxLengthBytes(n: nat): (r: seq<byte>)
    requires n < 4096
    ensures |r| == 2 && r[1] % 16 == 0
    ensures TxLengthOf(r[0], r[1]) == n
  {
    [(n / 16) as byte, (n % 16 * 16) as byte]
  }

  /** TX length values without a broken byte are exactly the encodings of their count. */
  lemma TxLengthRoundTrip(byte1: byte, byte2: byte)
    requires byte2 % 16 == 0
    ensures TxLengthOf(byte1, byte2) < 4096
    ensures TxLengthBytes(TxLengthOf(byte1, byte2)) == [byte1, byte2]
  {
  }

  /** The Inventory frame is: reset the FIFO, transmit with CRC, write from TX Length Byte 1
      the length of the single-slot Inventory request, then the request itself. */
  lemma InventoryFrameLayout()
    ensures Wire(InventoryFrame) == [EncodeWord(Command(ResetFifo)), EncodeWord(Command(TransmitWithCrc)),
                               EncodeWord(WriteContinuous(TxLengthByte1))]
                              + TxLengthBytes(|Iso15693.InventoryRequest(Iso15693.SingleSlotInventory)|)
                              + Iso15693.InventoryRequest(Iso15693.SingleSlotInventory)
    ensures TxLengthOf(Wire(InventoryFrame)[3], Wire(InventoryFrame)[4]) == |Wire(InventoryFrame)[5..]| == 3
  {
    Iso15693.InventoryRequestBytes();
    assert EncodeWord(Command(ResetFifo)) == 0x8F;
    assert EncodeWord(Command(TransmitWithCrc)) == 0x91;
    assert EncodeWord(WriteContinuous(TxLengthByte1)) == 0x3D;
    assert TxLengthBytes(3) == [0x00, 0x30];
  }
}
