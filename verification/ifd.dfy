/**
  The PC/SC IFD-handler vocabulary the driver speaks: response codes, power
  actions, capability tags and the ATR size bound. Their numeric values are
  defined by pcsc-lite's headers, which are not part of this model; only
  their distinctness matters here.
 */
module Ifd {

  /** The `RESPONSECODE`s the driver returns. */
  datatype ResponseCode =
    | Success                  // IFD_SUCCESS
    | ErrorTag                 // IFD_ERROR_TAG
    | ErrorNotSupported        // IFD_ERROR_NOT_SUPPORTED
    | ProtocolNotSupported     // IFD_PROTOCOL_NOT_SUPPORTED
    | ErrorPowerAction         // IFD_ERROR_POWER_ACTION
    | CommunicationError       // IFD_COMMUNICATION_ERROR
    | NotSupported             // IFD_NOT_SUPPORTED
    | IccPresent               // IFD_ICC_PRESENT
    | IccNotPresent            // IFD_ICC_NOT_PRESENT
    | ErrorInsufficientBuffer  // IFD_ERROR_INSUFFICIENT_BUFFER

  /** The `Action` argument of the power call; any other value is `OtherAction`. */
  datatype Action = PowerUp | PowerDown | Reset | OtherAction(code: int)

  /** The `Tag` argument of the capability query; any other value is `OtherTag`. */
  datatype Tag = PollingThreadWithTimeout | SlotsNumber | OtherTag(code: int)

  /** Offset of the first ATR byte in a power-up reply. */
  const ATR_OFFSET: nat := 11

  /** ATR capacities that C can declare as an array (at least 1) and for which
      a read of that many bytes from offset 11 stays inside a 256-byte reply
      buffer. */
  type AtrBound = n: nat | 1 <= n && ATR_OFFSET + n <= 256 witness 1

  /** `MAX_ATR_SIZE`: fixed by a pcsc-lite header, left abstract here. */
  const MAX_ATR_SIZE: AtrBound
}
