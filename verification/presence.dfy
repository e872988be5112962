/**
  `IFDHICCPresence`: one near-zero-timeout poll of the interrupt endpoint,
  decoded into the presence flag.
 */
module Presence {

  import opened Transport
  import opened Ifd
  import opened State

  /** First byte of a slot-change notification. */
  const NOTIFY_MARKER: Byte := 0x50
  const CARD_REMOVED: Byte := 0x02
  const CARD_INSERTED: Byte := 0x03

  /** The single interrupt transfer every poll attempts. */
  const POLL: Event := InterruptIn(EP_INTERRUPT_IN, IRQ_SIZE, IRQ_TIMEOUT)

  /** The two-byte notification the reader sends when a card is inserted or removed. */
  function Notification(inserted: bool): (m: seq<Byte>)
    ensures |m| == 2 && m[0] == NOTIFY_MARKER
  {
    [NOTIFY_MARKER, if inserted then CARD_INSERTED else CARD_REMOVED]
  }

  /** The interrupt transfer delivered a notification (of either kind). */
  predicate IsNotification(irq: Interrupt)
  {
    && irq.ret == 0 && irq.transferred == 2 && irq.buffer[0] == NOTIFY_MARKER
    && (irq.buffer[1] == CARD_REMOVED || irq.buffer[1] == CARD_INSERTED)
  }

  /** The code that reports the flag `present`. */
  function Report(present: bool): ResponseCode
  {
    if present then IccPresent else IccNotPresent
  }

  /** `IFDHICCPresence`. */
  function IccPresence(s: Session, irq: Interrupt): (r: Step)
    ensures r.wire == [POLL]
    // only the presence flag can change
    ensures r.session.(present := s.present) == s
    // a timeout is "no event"
    ensures irq.ret == LIBUSB_ERROR_TIMEOUT ==> r.session == s && r.code == Report(s.present)
    // a notification sets the flag to what it announces
    ensures IsNotification(irq) ==>
              irq.buffer[..2] == Notification(r.session.present) && r.code == Report(r.session.present)
    // everything else is an error that leaves the flag alone
    ensures r.code == CommunicationError <==> irq.ret != LIBUSB_ERROR_TIMEOUT && !IsNotification(irq)
    ensures r.code == CommunicationError ==> r.session == s
    ensures r.code != CommunicationError ==> r.code == Report(r.session.present)
  {
    assert irq.buffer[..2] == [irq.buffer[0], irq.buffer[1]];
    if irq.ret == 0 then
      if irq.transferred != 2 then
        Step(s, CommunicationError, [POLL])
      else if irq.buffer[0] != NOTIFY_MARKER then
        Step(s, CommunicationError, [POLL])
      else if irq.buffer[1] == CARD_REMOVED then
        Step(s.(present := false), IccNotPresent, [POLL])
      else if irq.buffer[1] == CARD_INSERTED then
        Step(s.(present := true), IccPresent, [POLL])
      else
        Step(s, CommunicationError, [POLL])
    else if irq.ret != LIBUSB_ERROR_TIMEOUT then
      Step(s, CommunicationError, [POLL])
    else
      Step(s, Report(s.present), [POLL])
  }

  /** Decoding a notification gives back the presence it encodes. */
  lemma NotificationRoundTrip(s: Session, inserted: bool, irq: Interrupt)
    requires irq.ret == 0 && irq.transferred == 2 && irq.buffer[..2] == Notification(inserted)
    ensures IccPresence(s, irq).session.present == inserted
    ensures IccPresence(s, irq).code == Report(inserted)
  {
  }
}
