/**
  `IFDHPowerICC`: power-up (a power-down/power-up exchange pair, header
  validation and ATR extraction into the cache), power-down, and the
  unsupported actions.
 */
module Power {

  import opened Transport
  import opened Framing
  import opened Ifd
  import opened State

  /** Marker byte that opens a power-up reply. */
  const REPLY_MARKER: Byte := 0x80
  /** Offset of the length byte of a power-up reply. */
  const LENGTH_OFFSET: nat := 4

  /**
    The outcome of a power call: the step together with the caller's `Atr`
    buffer and `*AtrLength` afterwards; or, when a power-up reply declares
    length 0, the undefined case in which the code computes `atrlen = -1`
    and copies `(size_t)-1` bytes.
   */
  datatype PowerStep =
    | Powered(step: Step, atrOut: seq<Byte>, atrLengthOut: nat)
    | AtrLengthUndefined(wire: seq<Event>)
  {
    /** The transfers attempted, whichever way the call ended. */
    function Wire(): seq<Event>
    {
      if Powered? then step.wire else wire
    }
  }

  /** The power-up reply header passes validation: marker, three zero bytes,
      and a declared length the cache can hold. */
  predicate HeaderAccepted(buf: RxBuffer)
  {
    && buf[0] == REPLY_MARKER && buf[1] == 0 && buf[2] == 0 && buf[3] == 0
    && buf[LENGTH_OFFSET] <= MAX_ATR_SIZE
  }

  /** Cache, `atrlen`, handle and presence all as in `s`. */
  predicate AtrKept(s: Session, t: Session)
  {
    t.atr == s.atr && t.atrLen == s.atrLen && t.open == s.open && t.present == s.present
  }

  /** Copies the ATR of an accepted power-up reply into the cache: its first
      `n` bytes come from the reply at offset 11, the rest keep their old value. */
  function CacheAtr(s: Session, buf: RxBuffer): (t: Session)
    requires HeaderAccepted(buf) && buf[LENGTH_OFFSET] >= 1
    ensures t.atrLen == buf[LENGTH_OFFSET] - 1
    ensures forall i | 0 <= i < MAX_ATR_SIZE ::
              t.atr[i] == (if i < t.atrLen then buf[ATR_OFFSET + i] else s.atr[i])
    ensures t.open == s.open && t.present == s.present && t.counter == s.counter
  {
    var n := buf[LENGTH_OFFSET] - 1;
    var cache: AtrCache := buf[ATR_OFFSET..ATR_OFFSET + n] + s.atr[n..];
    s.(atr := cache, atrLen := n)
  }

  /**
    Lines after a successful 0x63/0x62 exchange pair: validate the header of
    the power-up reply `buf`, cache the ATR, and hand it to the caller if the
    caller's `*AtrLength` (`atrLength`) is large enough. `s` is the state with
    the counter already advanced and `wire` the transfers made so far.
   */
  function AcceptReply(s: Session, buf: RxBuffer, atrOut: seq<Byte>, atrLength: nat, wire: seq<Event>): (r: PowerStep)
    requires atrLength <= |atrOut|
    ensures r.Wire() == wire
    ensures r.Powered? ==> |r.atrOut| == |atrOut| && r.step.session.counter == s.counter
    // a rejected header: nothing cached, nothing returned
    ensures !HeaderAccepted(buf) ==>
              && r.Powered? && r.step.code == CommunicationError
              && r.step.session == s && r.atrOut == atrOut && r.atrLengthOut == atrLength
    // declared length 0 is the undefined case
    ensures r.AtrLengthUndefined? <==> HeaderAccepted(buf) && buf[LENGTH_OFFSET] == 0
    // an accepted reply refreshes the cache whatever the caller's capacity
    ensures HeaderAccepted(buf) && buf[LENGTH_OFFSET] >= 1 ==>
              var n := buf[LENGTH_OFFSET] - 1;
              && r.Powered?
              && r.step.session.atrLen == n
              && r.step.session.atr[..n] == buf[ATR_OFFSET..ATR_OFFSET + n]
              && r.step.session.atr[n..] == s.atr[n..]
              && r.step.session.open == s.open && r.step.session.present == s.present
              && (n > atrLength ==>
                    r.step.code == ErrorPowerAction && r.atrOut == atrOut && r.atrLengthOut == atrLength)
              && (n <= atrLength ==>
                    && r.step.code == Success && r.atrLengthOut == n
                    && r.atrOut[..n] == buf[ATR_OFFSET..ATR_OFFSET + n]
                    && r.atrOut[n..] == atrOut[n..])
  {
    if buf[0] != REPLY_MARKER || buf[1] != 0 || buf[2] != 0 || buf[3] != 0 then
      Powered(Step(s, CommunicationError, wire), atrOut, atrLength)
    else if buf[LENGTH_OFFSET] > MAX_ATR_SIZE then
      Powered(Step(s, CommunicationError, wire), atrOut, atrLength)
    else if buf[LENGTH_OFFSET] == 0 then
      AtrLengthUndefined(wire)
    else
      var t := CacheAtr(s, buf);
      var n := t.atrLen;
      if n > atrLength then
        Powered(Step(t, ErrorPowerAction, wire), atrOut, atrLength)
      else
        Powered(Step(t, Success, wire), t.atr[..n] + atrOut[n..], n)
  }

  /**
    The `IFD_POWER_UP` branch of `IFDHPowerICC`. `atrOut` is the caller's
    `Atr` buffer and `atrLength` the value of `*AtrLength` on entry; `down`
    and `up` are the transport's side of the 0x63 and 0x62 exchanges.
   */
  function PowerUpIcc(s: Session, atrOut: seq<Byte>, atrLength: nat, down: Exchange, up: Exchange): (r: PowerStep)
    requires atrLength <= |atrOut|
    // a failed exchange: nothing cached, nothing returned
    ensures !ExchangeOk(down) || !ExchangeOk(up) ==>
              && r.Powered? && r.step.code == CommunicationError
              && AtrKept(s, r.step.session)
              && r.atrOut == atrOut && r.atrLengthOut == atrLength
    // the 0x62 exchange is attempted only after a successful 0x63 exchange
    ensures !ExchangeOk(down) ==> OutFrames(r.Wire()) == [CommandFrame(CMD_POWER_DOWN, s.counter)]
    ensures ExchangeOk(down) ==>
              OutFrames(r.Wire()) == [CommandFrame(CMD_POWER_DOWN, s.counter), CommandFrame(CMD_POWER_UP, NextSeq(s.counter))]
    // the counter advances once per frame sent
    ensures r.Powered? && !ExchangeOk(down) ==> r.step.session.counter == NextSeq(s.counter)
    ensures r.Powered? && ExchangeOk(down) ==> r.step.session.counter == NextSeq(NextSeq(s.counter))
    // both exchanges succeeded: the reply decides
    ensures ExchangeOk(down) && ExchangeOk(up) ==>
              r == AcceptReply(s.(counter := NextSeq(NextSeq(s.counter))), up.received.buffer, atrOut, atrLength, r.Wire())
  {
    var d := BulkTransfer(s.counter, CMD_POWER_DOWN, down);
    BulkSendsOneFrame(s.counter, CMD_POWER_DOWN, down);
    if d.ret != 0 then
      Powered(Step(s.(counter := d.counter), CommunicationError, d.wire), atrOut, atrLength)
    else
      var u := BulkTransfer(d.counter, CMD_POWER_UP, up);
      BulkSendsOneFrame(d.counter, CMD_POWER_UP, up);
      OutFramesAppend(d.wire, u.wire);
      var s1 := s.(counter := u.counter);
      if u.ret != 0 then
        Powered(Step(s1, CommunicationError, d.wire + u.wire), atrOut, atrLength)
      else
        AcceptReply(s1, up.received.buffer, atrOut, atrLength, d.wire + u.wire)
  }

  /** The `IFD_POWER_DOWN` branch of `IFDHPowerICC`: one 0x63 exchange; the
      cached ATR and `atrlen` stay as they are. */
  function PowerDownIcc(s: Session, down: Exchange): (r: Step)
    ensures OutFrames(r.wire) == [CommandFrame(CMD_POWER_DOWN, s.counter)]
    ensures r.code == Success <==> ExchangeOk(down)
    ensures r.code == Success || r.code == CommunicationError
    ensures AtrKept(s, r.session)
    ensures r.session.counter == NextSeq(s.counter)
  {
    var d := BulkTransfer(s.counter, CMD_POWER_DOWN, down);
    BulkSendsOneFrame(s.counter, CMD_POWER_DOWN, down);
    Step(s.(counter := d.counter), if d.ret != 0 then CommunicationError else Success, d.wire)
  }

  /**
    `IFDHPowerICC`: dispatch on the action. `IFD_RESET` and any unknown
    action are not supported and do nothing at all.
   */
  function PowerIcc(s: Session, action: Action, atrOut: seq<Byte>, atrLength: nat,
                    down: Exchange, up: Exchange): (r: PowerStep)
    requires atrLength <= |atrOut|
    ensures (action == Reset || action.OtherAction?) ==>
              r == Powered(Step(s, NotSupported, []), atrOut, atrLength)
    ensures action != PowerUp ==> r.Powered? && r.atrOut == atrOut && r.atrLengthOut == atrLength
    ensures action == PowerDown ==> r.step.code != NotSupported
  {
    match action
    case PowerUp => PowerUpIcc(s, atrOut, atrLength, down, up)
    case PowerDown => Powered(PowerDownIcc(s, down), atrOut, atrLength)
    case Reset | OtherAction(_) => Powered(Step(s, NotSupported, []), atrOut, atrLength)
  }

  /** A well-formed power-up reply carrying `atr`: marker, zero bytes,
      declared length `|atr| + 1`, and the ATR from offset 11. */
  function AtrReply(atr: seq<Byte>): (buf: RxBuffer)
    requires |atr| < MAX_ATR_SIZE
    ensures HeaderAccepted(buf) && buf[LENGTH_OFFSET] == |atr| + 1
    ensures buf[ATR_OFFSET..ATR_OFFSET + |atr|] == atr
  {
    var head: seq<Byte> := [REPLY_MARKER, 0, 0, 0, |atr| + 1, 0, 0, 0, 0, 0, 0];
    var buf := head + atr + seq(RX_SIZE - ATR_OFFSET - |atr|, _ => 0);
    assert buf[ATR_OFFSET..ATR_OFFSET + |atr|] == atr;
    buf
  }

  /** Power-up round trip: when both exchanges succeed and the device replies
      with `AtrReply(atr)`, a caller with room for it gets exactly `atr`, and
      the cache holds `atr`. */
  lemma PowerUpReturnsAtr(s: Session, atr: seq<Byte>, atrOut: seq<Byte>, atrLength: nat, down: Exchange, up: Exchange)
    requires |atr| < MAX_ATR_SIZE && |atr| <= atrLength <= |atrOut|
    requires ExchangeOk(down) && ExchangeOk(up) && up.received.buffer == AtrReply(atr)
    ensures var r := PowerIcc(s, PowerUp, atrOut, atrLength, down, up);
            && r.Powered? && r.step.code == Success
            && r.atrLengthOut == |atr| && r.atrOut[..|atr|] == atr
            && r.step.session.atrLen == |atr| && r.step.session.atr[..|atr|] == atr
  {
  }

  /** The byte count of the 0x62 reply never influences power-up: header
      validation and ATR extraction read the receive buffer whatever the
      device actually wrote into it. */
  lemma PowerUpIgnoresReplyCount(s: Session, atrOut: seq<Byte>, atrLength: nat,
                                 down: Exchange, up: Exchange, count: int)
    requires atrLength <= |atrOut|
    ensures var up' := up.(received := up.received.(transferred := count));
            PowerIcc(s, PowerUp, atrOut, atrLength, down, up) == PowerIcc(s, PowerUp, atrOut, atrLength, down, up')
  {
  }

  /** In particular a reply of zero bytes, over a buffer still holding a
      well-formed reply, powers the card up and hands back that ATR. */
  lemma PowerUpAcceptsEmptyReply(s: Session, atr: seq<Byte>, atrOut: seq<Byte>, atrLength: nat,
                                 down: Exchange, up: Exchange)
    requires |atr| < MAX_ATR_SIZE && |atr| <= atrLength <= |atrOut|
    requires ExchangeOk(down) && ExchangeOk(up)
    requires up.received.transferred == 0 && up.received.buffer == AtrReply(atr)
    ensures var r := PowerIcc(s, PowerUp, atrOut, atrLength, down, up);
            r.Powered? && r.step.code == Success && r.atrOut[..|atr|] == atr
  {
    PowerUpReturnsAtr(s, atr, atrOut, atrLength, down, up);
  }
}
