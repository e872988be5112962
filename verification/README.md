# ifdhandler: a Dafny model of a PC/SC driver for one USB smart-card reader

This project models the protocol logic of `ifdhandler.c`. That file is the
PC/SC IFD-handler driver for a single-slot USB smart-card reader, vendor
0x0ca6, product 0x0010. The driver keeps a little process-wide state:

- whether a device handle is open;
- the 8-bit sequence counter `seq`;
- the `present` flag;
- the ATR cache `atr` and its length `atrlen`.

Each PC/SC entry point is modelled as a pure transition. It takes the state
and the transport's outcomes and returns the new state, the response code,
and the list of transfers the driver attempted (the "wire").

Every libusb transfer becomes an input value:

- For a send: the return code and the byte count.
- For a receive: the return code, the byte count and the whole receive buffer
  after the call. This includes bytes the device did not write. The status
  exchange of the open checks the count (ifdhandler.c:116) before it reads the
  presence byte, but the power-up path (ifdhandler.c:343-358) reads the header
  and ATR without checking it.

Modules, one per part of the driver:

- `Transport`: bytes, buffers, endpoints, timeouts, transport outcomes, wire events.
- `Framing`: the 10-byte command frame, the 8-bit counter, `icc_bulk_transfer`,
  and sequence numbering of the frames on the wire.
- `Ifd`: the PC/SC response codes, power actions, capability tags, `MAX_ATR_SIZE`.
- `State`: the session record and the `Step` result of every entry point.
- `Channel`: `IFDHCreateChannelByName`, `IFDHCloseChannel`, and the constant-return
  entry points.
- `Power`: `IFDHPowerICC`, including header validation, the ATR cache and the
  capacity check.
- `Presence`: `IFDHICCPresence`, which decodes the interrupt notification.
- `Capabilities`: `IFDHGetCapabilities`.
- `Driver`: a sequence of calls on one session (`Run`), with the counter and
  bound invariants across calls.

`MAX_ATR_SIZE` comes from a pcsc-lite header that is not part of this model.
It is an abstract constant constrained by `1 <= MAX_ATR_SIZE` (C declares the
cache as `atr[MAX_ATR_SIZE]`, ifdhandler.c:42) and `11 + MAX_ATR_SIZE <= 256`, so every
proof holds for every such value. The power-up reply with length byte 0 makes
the C code copy `(size_t)-1` bytes. That case is undefined behaviour, and the
model returns the distinguished outcome `AtrLengthUndefined` for it rather
than a result.

Where the code departs from the IFD-handler interface comment it carries, the
model follows the code. The comment of `IFDHPowerICC` (ifdhandler.c:308-309)
says that on power-down `Atr` and `AtrLength` "should be zero'd". The
power-down branch (ifdhandler.c:370-376) does not zero them, and it leaves the
driver's own ATR cache and `atrlen` unchanged too; the model does the same.

Two further facts about the code that the model keeps:

- A power-up whose ATR does not fit the caller's buffer still refreshes the
  cache (ifdhandler.c:357-362).
- The byte count of the power-up reply is never checked (ifdhandler.c:343-346),
  so the header and ATR are read from whatever the receive buffer holds.

## Model

| member | source | states |
|---|---|---|
| Framing.NextSeq | ifdhandler.c:75 | the counter post-increment wraps: +1 below 255, and 255 becomes 0 |
| Framing.CommandFrame | ifdhandler.c:72-76 | a command frame is exactly 10 bytes: byte 0 is the command, byte 6 the counter, and bytes 1-5 and 7-9 are zero |
| Framing.FrameRoundTrip | ifdhandler.c:72-76 | the device's reading of a built frame recovers its command code and sequence number |
| Framing.ParsedFrameIsBuilt | ifdhandler.c:72-76 | any byte string read as a command frame is exactly the frame built from its code and number, the converse of the round trip: the parser accepts nothing but built frames |
| Framing.BulkTransfer | ifdhandler.c:67-92 | every exchange advances the counter by one modulo 256, failed or not. A nonzero send code is returned unchanged. A send of other than 10 bytes returns EAGAIN. In both failure cases no receive is attempted. Otherwise the receive code is returned with the reply. The result is 0 exactly when the send delivered 10 bytes and the receive returned 0 |
| Framing.BulkSendsOneFrame | ifdhandler.c:78-87 | one exchange puts exactly one frame on the command endpoint, numbered with the counter's value before the call |
| State.Initial | ifdhandler.c:38-43 | at load time the handle is closed, presence is false, the counter and `atrlen` are 0, every ATR cache byte is 0, and the ATR bound holds |
| Channel.CreateChannelByName | ifdhandler.c:94-129 | no device gives a communication error with no transfer. Otherwise the counter restarts at 0 and `atrlen` becomes -1. A failed or short (<10 bytes) status reply gives a communication error and keeps `present`. Otherwise `present` becomes byte 7 == 0x01 and frames 0x60#0 and 0x63#1 are sent. The result is success exactly when the power-down exchange succeeds |
| Channel.CloseChannel | ifdhandler.c:172-193 | close always succeeds, attempts no transfer, and leaves the handle closed with all other state untouched |
| Channel.CloseIdempotent | ifdhandler.c:187-192 | closing an already closed channel gives the same result as closing once |
| Channel.CreateChannel | ifdhandler.c:131-169 | opening by channel number is a communication error with no transfer and no state change |
| Channel.SetCapabilities | ifdhandler.c:240-262 | setting any capability is a tag error with no transfer and no state change |
| Channel.SetProtocolParameters | ifdhandler.c:265-289 | PTS negotiation is a communication error with no transfer and no state change |
| Channel.TransmitToIcc | ifdhandler.c:385-425 | APDU transmission reports protocol-not-supported with no transfer and no state change |
| Channel.Control | ifdhandler.c:428-450 | reader control reports error-not-supported with no transfer and no state change |
| Power.CacheAtr | ifdhandler.c:356-358 | for an accepted reply with length byte L >= 1, `atrlen` becomes L-1. The first L-1 cache bytes are reply bytes [11, 11+L-1) and the rest of the cache keeps its old bytes |
| Power.AcceptReply | ifdhandler.c:346-368 | the reply is rejected (communication error, nothing cached, caller untouched) unless byte 0 is 0x80, bytes 1-3 are 0 and byte 4 <= MAX_ATR_SIZE. Length byte 0 is the undefined case. Otherwise the cache is refreshed in every case. If the ATR exceeds the caller's `*AtrLength`, the result is ERROR_POWER_ACTION and the caller's buffer and length are unchanged. If not, the caller gets exactly the cached bytes and `*AtrLength` = L-1 |
| Power.PowerUpIcc | ifdhandler.c:336-369 | power-up sends 0x63 then 0x62 with consecutive numbers. The 0x62 frame is sent only if the 0x63 exchange succeeded. Either exchange failing gives a communication error and keeps the cache, `atrlen` and the caller's buffer. The counter advances once per frame. When both exchanges succeed, the reply alone decides the outcome |
| Power.PowerDownIcc | ifdhandler.c:370-376 | power-down sends exactly one 0x63 frame. It succeeds exactly when that exchange succeeds, otherwise returns a communication error, and it never changes the cache or `atrlen` |
| Power.PowerIcc | ifdhandler.c:335-381 | reset and every unrecognised action return NOT_SUPPORTED with no transfer and no state change. Only power-up can write to the caller's buffer |
| Power.AtrReply | ifdhandler.c:346-358 | the reply built for an ATR passes header validation, declares length (ATR length + 1), and carries the ATR at offset 11 |
| Power.PowerUpIgnoresReplyCount | ifdhandler.c:343-358 | the byte count reported for the 0x62 reply never changes the power-up outcome: any count gives the same state, code and caller output |
| Power.PowerUpAcceptsEmptyReply | ifdhandler.c:343-368 | a 0x62 reply of zero bytes over a buffer that still holds a well-formed reply powers the card up with success and hands that ATR to the caller |
| Power.PowerUpReturnsAtr | ifdhandler.c:340-368 | round trip: when both exchanges succeed and the reader answers with the reply for `atr`, a caller with room gets exactly `atr`, and the cache holds `atr` |
| Presence.IccPresence | ifdhandler.c:467-490 | one interrupt poll is attempted and only `present` can change. A timeout keeps the state and reports it. A 2-byte [0x50,0x02] or [0x50,0x03] sets `present` to what it announces. The result is a communication error exactly when the poll neither timed out nor delivered such a notification, and then nothing changes. Every other result is IccPresent exactly when `present` is set |
| Presence.NotificationRoundTrip | ifdhandler.c:474-485 | decoding the notification for "inserted" or "removed" sets and reports exactly that presence |
| Capabilities.GetCapabilities | ifdhandler.c:218-236 | the polling-thread tag succeeds with `*Length` = 0. The slot-count tag with `*Length` >= 1 succeeds with `*Length` = 1 and `*Value` = 1. With `*Length` = 0 it is INSUFFICIENT_BUFFER and nothing is written. Every other tag is a tag error. Success never reports more than the caller's room |
| Capabilities.GetCapabilitiesAsWritten | ifdhandler.c:218-233 | as written, the polling-thread and slot-count tags have the defined answers of the switch, and an unrecognised tag has no defined answer, exactly because of the mismatched logging call before its return |
| Capabilities.UnknownTagIsUndefined | ifdhandler.c:231-233 | every unknown tag, with any `*Length`, reaches the undefined logging call as written, while the corrected switch answers it with a tag error and writes nothing |
| Capabilities.CorrectedAgreesWhereDefined | ifdhandler.c:218-236 | wherever the code as written has a defined answer, the corrected switch gives the same answer, and it gives a tag error everywhere else |
| Driver.ApplyKeepsValid | ifdhandler.c:351-358 | no call takes `atrlen` outside [-1, MAX_ATR_SIZE] |
| Driver.ApplyNumbersFrames | ifdhandler.c:75 | apart from open, a call numbers its frames on from the counter, and the counter ends one past the last frame sent |
| Driver.OpenNumbersFromZero | ifdhandler.c:112-124 | a successful open numbers its frames from 0 |
| Driver.RunNumbersFrames | ifdhandler.c:75 | across any sequence of calls within one session, consecutive frames carry consecutive sequence numbers modulo 256, and the counter ends one past the last frame |
| Driver.RunAfterOpenNumbersFromZero | ifdhandler.c:112 | after a successful open, the frames of the open and of every later call of the session are numbered from 0 |
| Driver.RunKeepsValid | ifdhandler.c:351-358 | no sequence of calls breaks the ATR length bound, and each call returns one code |
| Driver.OpenPollPowerCycle | ifdhandler.c:94-491 | the following scenario ends with the card present, the counter at 5 and the cache holding exactly the ATR: open with the presence bit set, a poll that times out, a power-down, then a power-up answered with an ATR reply. The codes returned are success, present, success, success |

## Left out

- libusb itself is foreign I/O: `libusb_init`, open by vendor and product id, `libusb_close`, and the bulk and interrupt transfers. Each outcome is an input value; a timeout is the return value `LIBUSB_ERROR_TIMEOUT` (-7), not elapsed time.
- The `inited` flag and `init()` only start libusb; they have no protocol effect.
- Logging (`hexdump` and the `fprintf(stderr, ...)` tracing) has no protocol effect and is not modelled, except for the call at ifdhandler.c:232, which is recorded under "## Findings", and the transfer trace in the next line.
- Framing.BulkTransfer: returns the send code for every byte count in the outcome. In the code, `transferred` (ifdhandler.c:70) and the callers' counts (ifdhandler.c:97, 297) are not initialised. The trace prints the count and runs `hexdump` over that many bytes before the return code is checked (ifdhandler.c:79-80 for the send, 88-89 for the receive). libusb fills in the count only on success or timeout. After any other error, such as an unplugged reader, the trace reads an indeterminate count and may read past the 256-byte buffer. The model treats that trace as harmless; `IFDHICCPresence` avoids the case by setting its count to 0 first (ifdhandler.c:464).
- Several tracing calls pass `DWORD` values to `%d` or `%x` (ifdhandler.c:99, 216). That type mismatch is formally undefined in C but prints a converted value on common platforms; the model treats these calls as harmless.
- The numeric values of the PC/SC response codes, actions and tags are defined in pcsc-lite's `pcsclite.h` and `ifdhandler.h`, which are not part of this model. They are distinct datatype constructors here.
- `EAGAIN` is taken as 11, its value on Linux. Callers only compare the result with 0.
- Calls on a closed handle are modelled like any other: the transfers they make still take libusb's outcome as an unconstrained input. What libusb does with a NULL handle is not shown, so the run lemmas (Driver.RunNumbersFrames and the others) assume only that each transfer returns some outcome.
- The device name and the Lun are ignored by the code, and so by the model. So is choosing among several readers.
- APDU transmission, PTS negotiation and reader control are unimplemented in the source; only their constant return codes are modelled.
- Concurrency is not modelled: the driver is called single-threaded. The missing guard against a second open (the old handle leaks) is an I/O-layer resource leak. The model just overwrites the open flag.
- Power.AcceptReply: a power-up reply with length byte 0 makes the code call `memcpy` with `(size_t)-1`. That is undefined behaviour, so no resulting state or code is modelled; the outcome is `AtrLengthUndefined`.
- Driver.Apply: the content of the caller's `Atr` buffer in a run is zero bytes. It does not influence the state, and the bytes returned to the caller are stated by Power.AcceptReply and Power.PowerUpReturnsAtr.
- Capabilities.GetCapabilities: it answers an unrecognised tag with `IFD_ERROR_TAG`, the value the default branch returns. As written, that branch first calls `fprintf` with a format whose arguments do not match (ifdhandler.c:232), which C leaves undefined. Capabilities.GetCapabilitiesAsWritten records that case.

## Findings

| source | as written | input that shows it | evidently intended | confidence | as-written member | corrected member |
|---|---|---|---|---|---|---|
| ifdhandler.c:232 | the default branch logs with `fprintf(stderr, "%s Unknown tag %04x\n", Tag)`: an integer is passed for `%s` and nothing for `%04x`, which is undefined behaviour before `IFD_ERROR_TAG` is returned | any unrecognised tag, e.g. `OtherTag(0)` with `*Length` = 0 | log the function name and the tag, then return `IFD_ERROR_TAG` with `*Length` and `*Value` untouched | high (not executed) | Capabilities.GetCapabilitiesAsWritten | Capabilities.GetCapabilities |
