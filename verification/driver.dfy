/**
  The driver as the middleware drives it: one call after another on the
  single session. `Run` threads the state through a sequence of calls and
  concatenates what each one put on the wire.
 */
module Driver {

  import opened Transport
  import opened Framing
  import opened Ifd
  import opened State
  import Channel
  import Power
  import Presence

  /** One call into the driver, with the transport's side of it. */
  datatype Op =
    | Open(found: bool, status: Exchange, powerDown: Exchange)
    | Close
    | PowerCall(action: Action, atrLength: nat, down: Exchange, up: Exchange)
    | Poll(irq: Interrupt)

  /** The codes returned and transfers attempted by a sequence of calls, and
      the state after it; or the transfers up to a call whose behaviour the C
      language leaves undefined. */
  datatype Trace =
    | Ran(session: Session, codes: seq<ResponseCode>, wire: seq<Event>)
    | Undefined(wire: seq<Event>)

  /** One call. The caller's `Atr` buffer is `atrLength` zero bytes; it does
      not influence the state. */
  function Apply(s: Session, op: Op): (r: Trace)
    ensures r.Ran? ==> |r.codes| == 1
    // presence is only learnt at open or from a poll
    ensures r.Ran? && (op.Close? || op.PowerCall?) ==> r.session.present == s.present
  {
    match op
    case Open(found, status, powerDown) =>
      var t := Channel.CreateChannelByName(s, found, status, powerDown);
      Ran(t.session, [t.code], t.wire)
    case Close =>
      var t := Channel.CloseChannel(s);
      Ran(t.session, [t.code], t.wire)
    case PowerCall(action, atrLength, down, up) =>
      (match Power.PowerIcc(s, action, seq(atrLength, _ => 0), atrLength, down, up)
       case Powered(t, _, _) => Ran(t.session, [t.code], t.wire)
       case AtrLengthUndefined(wire) => Undefined(wire))
    case Poll(irq) =>
      var t := Presence.IccPresence(s, irq);
      assert OutFrames(t.wire) == [];
      Ran(t.session, [t.code], t.wire)
  }

  /** One call keeps the ATR bound. */
  lemma ApplyKeepsValid(s: Session, op: Op)
    requires Valid(s)
    ensures Apply(s, op).Ran? ==> Valid(Apply(s, op).session)
  {
  }

  /** Outside open, one call numbers its frames on from the counter, and the
      counter ends one past the last of them. */
  lemma ApplyNumbersFrames(s: Session, op: Op)
    requires !op.Open?
    ensures Apply(s, op).Ran? ==>
              CounterFollows(s.counter, OutFrames(Apply(s, op).wire), Apply(s, op).session.counter)
  {
    match op
    case Close =>
    case Poll(irq) =>
    case PowerCall(action, atrLength, down, up) =>
      var r := Power.PowerIcc(s, action, seq(atrLength, _ => 0), atrLength, down, up);
      if action == PowerDown || (action == PowerUp && r.Powered? && !ExchangeOk(down)) {
        OneFrameFollows(CMD_POWER_DOWN, s.counter);
      } else if action == PowerUp && r.Powered? {
        TwoFramesFollow(CMD_POWER_DOWN, CMD_POWER_UP, s.counter);
      }
  }

  /** A successful open numbers its frames from zero. */
  lemma OpenNumbersFromZero(s: Session, op: Op)
    requires op.Open? && op.found
    ensures Apply(s, op).Ran?
    ensures CounterFollows(0, OutFrames(Apply(s, op).wire), Apply(s, op).session.counter)
  {
  }

  /** The calls `ops`, one after another, from state `s`. */
  function Run(s: Session, ops: seq<Op>): Trace
    decreases |ops|
  {
    if |ops| == 0 then Ran(s, [], [])
    else
      match Apply(s, ops[0])
      case Undefined(w) => Undefined(w)
      case Ran(s1, c1, w1) =>
        match Run(s1, ops[1..])
        case Undefined(w2) => Undefined(w1 + w2)
        case Ran(s2, c2, w2) => Ran(s2, c1 + c2, w1 + w2)
  }

  /** A run that completes is its first call followed by the run of the rest. */
  lemma RunCons(s: Session, ops: seq<Op>)
    requires |ops| > 0 && Run(s, ops).Ran?
    ensures Apply(s, ops[0]).Ran? && Run(Apply(s, ops[0]).session, ops[1..]).Ran?
    ensures Run(s, ops).session == Run(Apply(s, ops[0]).session, ops[1..]).session
    ensures Run(s, ops).wire == Apply(s, ops[0]).wire + Run(Apply(s, ops[0]).session, ops[1..]).wire
    ensures Run(s, ops).codes == Apply(s, ops[0]).codes + Run(Apply(s, ops[0]).session, ops[1..]).codes
  {
  }

  /** No call in `ops` opens the channel. */
  predicate NoOpen(ops: seq<Op>)
  {
    forall i | 0 <= i < |ops| :: !ops[i].Open?
  }

  /** Within one session, every frame sent carries the next sequence number
      modulo 256, and the counter ends one past the last frame. */
  lemma {:induction false} RunNumbersFrames(s: Session, ops: seq<Op>)
    requires NoOpen(ops)
    ensures Run(s, ops).Ran? ==>
              CounterFollows(s.counter, OutFrames(Run(s, ops).wire), Run(s, ops).session.counter)
    decreases |ops|
  {
    if |ops| > 0 && Run(s, ops).Ran? {
      RunCons(s, ops);
      var a := Apply(s, ops[0]);
      var rest := Run(a.session, ops[1..]);
      ApplyNumbersFrames(s, ops[0]);
      RunNumbersFrames(a.session, ops[1..]);
      OutFramesAppend(a.wire, rest.wire);
      CounterChain(OutFrames(a.wire), OutFrames(rest.wire), s.counter, a.session.counter, rest.session.counter);
    }
  }

  /** Opening restarts the numbering: after a successful open, the frames of
      the open and of every later call of the session count up from zero. */
  lemma RunAfterOpenNumbersFromZero(s: Session, open: Op, ops: seq<Op>)
    requires open.Open? && open.found && NoOpen(ops)
    ensures Run(s, [open] + ops).Ran? ==>
              CounterFollows(0, OutFrames(Run(s, [open] + ops).wire), Run(s, [open] + ops).session.counter)
  {
    var all := [open] + ops;
    assert all[0] == open && all[1..] == ops;
    if Run(s, all).Ran? {
      RunCons(s, all);
      var a := Apply(s, open);
      var rest := Run(a.session, ops);
      OpenNumbersFromZero(s, open);
      RunNumbersFrames(a.session, ops);
      OutFramesAppend(a.wire, rest.wire);
      CounterChain(OutFrames(a.wire), OutFrames(rest.wire), 0, a.session.counter, rest.session.counter);
    }
  }

  /** No sequence of calls breaks the ATR bound, and each call returns one code. */
  lemma {:induction false} RunKeepsValid(s: Session, ops: seq<Op>)
    requires Valid(s)
    ensures Run(s, ops).Ran? ==> Valid(Run(s, ops).session) && |Run(s, ops).codes| == |ops|
    decreases |ops|
  {
    if |ops| > 0 && Run(s, ops).Ran? {
      RunCons(s, ops);
      ApplyKeepsValid(s, ops[0]);
      RunKeepsValid(Apply(s, ops[0]).session, ops[1..]);
    }
  }

  /** A run is its first call followed by the run of the rest, when both complete. */
  lemma RunStep(s: Session, ops: seq<Op>)
    requires |ops| > 0 && Apply(s, ops[0]).Ran? && Run(Apply(s, ops[0]).session, ops[1..]).Ran?
    ensures var a := Apply(s, ops[0]);
            var rest := Run(a.session, ops[1..]);
            Run(s, ops) == Ran(rest.session, a.codes + rest.codes, a.wire + rest.wire)
  {
  }

  /** An open whose status reply has the presence bit set and whose power-down succeeds. */
  lemma OpenWithCard(s: Session, status: Exchange, pd: Exchange)
    requires StatusPresent(status) && ExchangeOk(pd)
    ensures var a := Apply(s, Open(true, status, pd));
            a.Ran? && a.codes == [Success] && a.session.open && a.session.present && a.session.counter == 2
  {
  }

  /** A poll that times out reports the flag and changes nothing. */
  lemma PollTimesOut(s: Session, irq: Interrupt)
    requires irq.ret == LIBUSB_ERROR_TIMEOUT
    ensures Apply(s, Poll(irq)) == Ran(s, [Presence.Report(s.present)], [Presence.POLL])
  {
  }

  /** A successful explicit power-down. */
  lemma PowerDownSucceeds(s: Session, atrLength: nat, off: Exchange)
    requires ExchangeOk(off)
    ensures var a := Apply(s, PowerCall(PowerDown, atrLength, off, off));
            && a.Ran? && a.codes == [Success]
            && a.session.open == s.open && a.session.present == s.present
            && a.session.counter == NextSeq(s.counter)
  {
  }

  /** A power-up answered with the reply for `atr`, inside a run. */
  lemma PowerUpSucceeds(s: Session, atr: seq<Byte>, atrLength: nat, down: Exchange, up: Exchange)
    requires |atr| < MAX_ATR_SIZE && |atr| <= atrLength
    requires ExchangeOk(down) && ExchangeOk(up) && up.received.buffer == Power.AtrReply(atr)
    ensures var a := Apply(s, PowerCall(PowerUp, atrLength, down, up));
            && a.Ran? && a.codes == [Success]
            && a.session.open == s.open && a.session.present == s.present
            && a.session.counter == NextSeq(NextSeq(s.counter))
            && a.session.atrLen == |atr| && a.session.atr[..|atr|] == atr
  {
  }

  /**
    Open with the presence bit set (and its automatic power-down), a poll that
    times out, an explicit power-down, then a power-up answered with the reply
    for `atr`: every call succeeds, the card is reported present, and the
    cache ends up holding exactly `atr`.
   */
  lemma OpenPollPowerCycle(s: Session, status: Exchange, pd: Exchange, irq: Interrupt,
                           off: Exchange, down: Exchange, up: Exchange, atr: seq<Byte>, atrLength: nat)
    requires StatusPresent(status) && ExchangeOk(pd)
    requires irq.ret == LIBUSB_ERROR_TIMEOUT
    requires ExchangeOk(off) && ExchangeOk(down) && ExchangeOk(up)
    requires |atr| < MAX_ATR_SIZE && |atr| <= atrLength
    requires up.received.buffer == Power.AtrReply(atr)
    ensures var r := Run(s, [Open(true, status, pd), Poll(irq),
                             PowerCall(PowerDown, atrLength, off, off),
                             PowerCall(PowerUp, atrLength, down, up)]);
            && r.Ran?
            && r.codes == [Success, IccPresent, Success, Success]
            && r.session.open && r.session.present
            && r.session.atrLen == |atr| && r.session.atr[..|atr|] == atr
            && r.session.counter == 5
  {
    var ops := [Open(true, status, pd), Poll(irq),
                PowerCall(PowerDown, atrLength, off, off), PowerCall(PowerUp, atrLength, down, up)];
    var s1 := Apply(s, ops[0]).session;
    OpenWithCard(s, status, pd);
    PollTimesOut(s1, irq);
    PowerDownSucceeds(s1, atrLength, off);
    var s3 := Apply(s1, ops[2]).session;
    PowerUpSucceeds(s3, atr, atrLength, down, up);
    var s4 := Apply(s3, ops[3]).session;
    assert ops[3..][1..] == [] && ops[2..][1..] == ops[3..] && ops[1..][1..] == ops[2..];
    RunStep(s3, ops[3..]);
    RunStep(s1, ops[2..]);
    RunStep(s1, ops[1..]);
    RunStep(s, ops);
  }

  /** The status reply arrived whole and has the presence bit set. */
  predicate StatusPresent(x: Exchange)
  {
    Channel.StatusOk(x) && x.received.buffer[Channel.PRESENCE_OFFSET] == 0x01
  }
}
