/**
  The USB transport as the driver sees it.

  The libusb calls are foreign I/O: each one becomes an input value holding
  what libusb reported (return code, byte count) and, for receives, the
  content of the receive buffer after the call. Every transfer the driver
  attempts is recorded as an `Event`, so that the wire traffic of an
  operation can be stated exactly.
 */
module Transport {

  type Byte = x: int | 0 <= x < 256

  /** Length of an outbound command frame. */
  const FRAME_SIZE: nat := 10
  /** Capacity of every bulk receive buffer (`unsigned char buffer[256]`). */
  const RX_SIZE: nat := 256
  /** Capacity of the interrupt receive buffer (`unsigned char buffer[8]`). */
  const IRQ_SIZE: nat := 8

  const EP_COMMAND_OUT: Byte := 0x01
  const EP_RESPONSE_IN: Byte := 0x82
  const EP_INTERRUPT_IN: Byte := 0x83

  /** Timeout of both bulk transfers, in milliseconds. */
  const BULK_TIMEOUT: nat := 1000
  /** Timeout of the presence poll, in milliseconds. */
  const IRQ_TIMEOUT: nat := 1

  /** `EAGAIN` of Linux's errno.h, returned for a short or long send. */
  const EAGAIN: int := 11
  /** libusb's `LIBUSB_ERROR_TIMEOUT`. */
  const LIBUSB_ERROR_TIMEOUT: int := -7

  /** A bulk receive buffer: all 256 bytes, including those the device did not write. */
  type RxBuffer = s: seq<Byte> | |s| == RX_SIZE witness seq(RX_SIZE, _ => 0)

  /** The interrupt receive buffer: all 8 bytes. */
  type IrqBuffer = s: seq<Byte> | |s| == IRQ_SIZE witness seq(IRQ_SIZE, _ => 0)

  /** What libusb reports for the outbound bulk transfer of a command frame. */
  datatype Sent = Sent(ret: int, transferred: int)

  /** What libusb reports for the inbound bulk transfer, and the buffer afterwards. */
  datatype Received = Received(ret: int, transferred: int, buffer: RxBuffer)

  /** The transport's side of one command/response exchange. The receive part
      is consumed only when the driver actually performs the inbound transfer. */
  datatype Exchange = Exchange(sent: Sent, received: Received)

  /** What libusb reports for the interrupt transfer, and the buffer afterwards. */
  datatype Interrupt = Interrupt(ret: int, transferred: int, buffer: IrqBuffer)

  /** A transfer the driver attempted, with its endpoint and timeout. */
  datatype Event =
    | BulkOut(endpoint: Byte, frame: seq<Byte>, timeout: nat)
    | BulkIn(endpoint: Byte, capacity: nat, timeout: nat)
    | InterruptIn(endpoint: Byte, capacity: nat, timeout: nat)
}
