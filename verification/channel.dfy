/**
  Opening and closing the channel (`IFDHCreateChannelByName`,
  `IFDHCloseChannel`) and the entry points that only return a fixed code.
 */
module Channel {

  import opened Transport
  import opened Framing
  import opened Ifd
  import opened State

  /** Byte of the status reply whose value 0x01 means a card is inserted. */
  const PRESENCE_OFFSET: nat := 7

  /** The status exchange succeeded and its reply is at least a frame long. */
  predicate StatusOk(x: Exchange)
  {
    ExchangeOk(x) && x.received.transferred >= FRAME_SIZE
  }

  /**
    `IFDHCreateChannelByName`. `found` is whether libusb opened a device with
    the reader's vendor and product id; `status` and `powerDown` are the
    transport's side of the 0x60 status exchange and of the 0x63 power-down
    exchange that follows it.
   */
  function CreateChannelByName(s: Session, found: bool, status: Exchange, powerDown: Exchange): (r: Step)
    // no device: nothing sent, nothing but the handle changes
    ensures !found ==> r.code == CommunicationError && r.wire == [] && r.session == s.(open := false)
    // a device: counter restarted, ATR unset, cache bytes kept
    ensures found ==> r.session.open && r.session.atrLen == -1 && r.session.atr == s.atr
    ensures found && !StatusOk(status) ==>
              && r.code == CommunicationError
              && r.session.present == s.present
              && OutFrames(r.wire) == [CommandFrame(CMD_STATUS, 0)]
              && r.session.counter == 1
    ensures found && StatusOk(status) ==>
              && r.session.present == (status.received.buffer[PRESENCE_OFFSET] == 0x01)
              && OutFrames(r.wire) == [CommandFrame(CMD_STATUS, 0), CommandFrame(CMD_POWER_DOWN, 1)]
              && r.session.counter == 2
              && (r.code == Success <==> ExchangeOk(powerDown))
    ensures r.code == Success || r.code == CommunicationError
  {
    if !found then
      Step(s.(open := false), CommunicationError, [])
    else
      var s1 := s.(open := true, counter := 0, atrLen := -1);
      var st := BulkTransfer(s1.counter, CMD_STATUS, status);
      BulkSendsOneFrame(s1.counter, CMD_STATUS, status);
      if st.ret != 0 || status.received.transferred < FRAME_SIZE then
        Step(s1.(counter := st.counter), CommunicationError, st.wire)
      else
        var s2 := s1.(counter := st.counter, present := status.received.buffer[PRESENCE_OFFSET] == 0x01);
        var pd := BulkTransfer(s2.counter, CMD_POWER_DOWN, powerDown);
        BulkSendsOneFrame(s2.counter, CMD_POWER_DOWN, powerDown);
        OutFramesAppend(st.wire, pd.wire);
        Step(s2.(counter := pd.counter), if pd.ret != 0 then CommunicationError else Success, st.wire + pd.wire)
  }

  /** `IFDHCloseChannel`: drops the handle if there is one, always succeeds,
      and touches nothing else. */
  function CloseChannel(s: Session): (r: Step)
    ensures !r.session.open && r.code == Success && r.wire == []
    ensures r.session.(open := s.open) == s
  {
    Step(s.(open := false), Success, [])
  }

  /** Closing twice is closing once. */
  lemma CloseIdempotent(s: Session)
    ensures CloseChannel(CloseChannel(s).session) == CloseChannel(s)
  {
  }

  /** Every entry point below is a stub: it attempts no transfer, leaves the
      state alone, and reports a fixed failure. */
  predicate Inert(s: Session, r: Step)
  {
    r.session == s && r.wire == [] && r.code != Success
  }

  /** `IFDHCreateChannel`: opening by channel number is not supported. */
  function CreateChannel(s: Session, channel: int): (r: Step)
    ensures Inert(s, r) && r.code == CommunicationError
  {
    Step(s, CommunicationError, [])
  }

  /** `IFDHSetCapabilities`: no tag can be set. */
  function SetCapabilities(s: Session, tag: Tag): (r: Step)
    ensures Inert(s, r) && r.code == ErrorTag
  {
    Step(s, ErrorTag, [])
  }

  /** `IFDHSetProtocolParameters`: PTS negotiation is not implemented. */
  function SetProtocolParameters(s: Session): (r: Step)
    ensures Inert(s, r) && r.code == CommunicationError
  {
    Step(s, CommunicationError, [])
  }

  /** `IFDHTransmitToICC`: APDU exchange is not implemented. */
  function TransmitToIcc(s: Session, tx: seq<Byte>): (r: Step)
    ensures Inert(s, r) && r.code == ProtocolNotSupported
  {
    Step(s, ProtocolNotSupported, [])
  }

  /** `IFDHControl`: reader control is not implemented. */
  function Control(s: Session, controlCode: int, tx: seq<Byte>): (r: Step)
    ensures Inert(s, r) && r.code == ErrorNotSupported
  {
    Step(s, ErrorNotSupported, [])
  }
}
