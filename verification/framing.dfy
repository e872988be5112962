/**
  Command framing: the 10-byte command frame, the 8-bit sequence counter and
  the send-then-receive exchange of `icc_bulk_transfer`.
 */
module Framing {

  import opened Wrappers
  import opened Transport

  const CMD_STATUS: Byte := 0x60
  const CMD_POWER_UP: Byte := 0x62
  const CMD_POWER_DOWN: Byte := 0x63

  /** Offset of the sequence number inside a command frame. */
  const SEQ_OFFSET: nat := 6

  /** The sequence counter after one exchange: an 8-bit post-increment. */
  function NextSeq(q: Byte): (r: Byte)
    ensures q < 255 ==> r == q + 1
    ensures q == 255 ==> r == 0
  {
    (q + 1) % 256
  }

  /** The outbound frame for command `cmd` carrying sequence number `q`. */
  function CommandFrame(cmd: Byte, q: Byte): (f: seq<Byte>)
    ensures |f| == FRAME_SIZE
    ensures f[0] == cmd && f[SEQ_OFFSET] == q
    ensures forall i | 1 <= i < FRAME_SIZE && i != SEQ_OFFSET :: f[i] == 0
  {
    [cmd, 0, 0, 0, 0, 0, q, 0, 0, 0]
  }

  /** The device's reading of a command frame: its command code and sequence
      number, or None when the bytes are not a well-formed command frame. */
  function ParseFrame(f: seq<Byte>): (r: Option<(Byte, Byte)>)
    ensures r.Some? ==> |f| == FRAME_SIZE
  {
    if |f| == FRAME_SIZE
       && f[1] == 0 && f[2] == 0 && f[3] == 0 && f[4] == 0 && f[5] == 0
       && f[7] == 0 && f[8] == 0 && f[9] == 0
    then Some((f[0], f[SEQ_OFFSET]))
    else None
  }

  /** Parsing a built frame gives back its command code and sequence number. */
  lemma FrameRoundTrip(cmd: Byte, q: Byte)
    ensures ParseFrame(CommandFrame(cmd, q)) == Some((cmd, q))
  {
  }

  /** A well-formed command frame is exactly the frame built from what it parses to. */
  lemma ParsedFrameIsBuilt(f: seq<Byte>)
    requires ParseFrame(f).Some?
    ensures f == CommandFrame(ParseFrame(f).value.0, ParseFrame(f).value.1)
  {
    var g := CommandFrame(f[0], f[SEQ_OFFSET]);
    assert forall i | 0 <= i < FRAME_SIZE :: f[i] == g[i];
  }

  /** The outbound transfer of the frame `f`. */
  function Send(f: seq<Byte>): Event
  {
    BulkOut(EP_COMMAND_OUT, f, BULK_TIMEOUT)
  }

  /** The inbound transfer of a reply into a 256-byte buffer. */
  const RECEIVE: Event := BulkIn(EP_RESPONSE_IN, RX_SIZE, BULK_TIMEOUT)

  /** The outbound transfer went through and moved exactly one frame. */
  predicate Delivered(x: Sent)
  {
    x.ret == 0 && x.transferred == FRAME_SIZE
  }

  /** The whole exchange succeeded: frame delivered and reply received without error. */
  predicate ExchangeOk(x: Exchange)
  {
    Delivered(x.sent) && x.received.ret == 0
  }

  /** Result of one exchange: the return code, the advanced counter, the reply
      (present exactly when the inbound transfer was performed) and the wire. */
  datatype Bulk = Bulk(ret: int, counter: Byte, reply: Option<Received>, wire: seq<Event>)

  /** `icc_bulk_transfer`: frame `cmd` with the current counter `q`, advance the
      counter, send the frame and, only if the send moved exactly 10 bytes,
      receive the reply. */
  function BulkTransfer(q: Byte, cmd: Byte, x: Exchange): (r: Bulk)
    ensures r.counter == NextSeq(q)
    ensures |r.wire| >= 1 && r.wire[0] == Send(CommandFrame(cmd, q))
    ensures x.sent.ret != 0 ==> r.ret == x.sent.ret && r.reply == None && |r.wire| == 1
    ensures x.sent.ret == 0 && x.sent.transferred != FRAME_SIZE ==>
              r.ret == EAGAIN && r.reply == None && |r.wire| == 1
    ensures Delivered(x.sent) ==>
              r.ret == x.received.ret && r.reply == Some(x.received) && r.wire == [r.wire[0], RECEIVE]
    ensures r.ret == 0 <==> ExchangeOk(x)
  {
    var out := Send(CommandFrame(cmd, q));
    if x.sent.ret != 0 then
      Bulk(x.sent.ret, NextSeq(q), None, [out])
    else if x.sent.transferred != FRAME_SIZE then
      Bulk(EAGAIN, NextSeq(q), None, [out])
    else
      Bulk(x.received.ret, NextSeq(q), Some(x.received), [out, RECEIVE])
  }

  /** The frames sent on the command endpoint, in order. */
  function OutFrames(wire: seq<Event>): seq<seq<Byte>>
  {
    if |wire| == 0 then []
    else (if wire[0].BulkOut? then [wire[0].frame] else []) + OutFrames(wire[1..])
  }

  lemma {:induction false} OutFramesAppend(a: seq<Event>, b: seq<Event>)
    ensures OutFrames(a + b) == OutFrames(a) + OutFrames(b)
    decreases |a|
  {
    if |a| == 0 {
      assert a + b == b;
    } else {
      assert (a + b)[1..] == a[1..] + b;
      OutFramesAppend(a[1..], b);
    }
  }

  /** Every exchange sends exactly one frame, carrying the counter's value before the call. */
  lemma BulkSendsOneFrame(q: Byte, cmd: Byte, x: Exchange)
    ensures OutFrames(BulkTransfer(q, cmd, x).wire) == [CommandFrame(cmd, q)]
  {
    var r := BulkTransfer(q, cmd, x);
    assert OutFrames([RECEIVE]) == [];
    if |r.wire| == 2 {
      assert r.wire[1..] == [RECEIVE];
    } else {
      assert r.wire[1..] == [];
    }
  }

  /** The frames are well formed and their sequence numbers count up from `base`, modulo 256. */
  ghost predicate Numbered(frames: seq<seq<Byte>>, base: Byte)
  {
    forall i | 0 <= i < |frames| ::
      |frames[i]| == FRAME_SIZE && frames[i][SEQ_OFFSET] == (base + i) % 256
  }

  lemma {:induction false} NumberedAppend(a: seq<seq<Byte>>, b: seq<seq<Byte>>, base: Byte)
    requires Numbered(a, base)
    requires Numbered(b, (base + |a|) % 256)
    ensures Numbered(a + b, base)
  {
    forall i | 0 <= i < |a + b|
      ensures |(a + b)[i]| == FRAME_SIZE && (a + b)[i][SEQ_OFFSET] == (base + i) % 256
    {
      if i >= |a| {
        var j := i - |a|;
        assert (a + b)[i] == b[j];
        assert b[j][SEQ_OFFSET] == ((base + |a|) % 256 + j) % 256;
        ModShift(base + |a|, j);
      }
    }
  }

  /** The frames are numbered from counter value `before`, and `after` is the
      counter value once they have all been sent. */
  ghost predicate CounterFollows(before: Byte, frames: seq<seq<Byte>>, after: Byte)
  {
    Numbered(frames, before) && after == (before + |frames|) % 256
  }

  /** Two numbered runs of frames, the second starting where the first left
      the counter, form one numbered run. */
  lemma CounterChain(a: seq<seq<Byte>>, b: seq<seq<Byte>>, base: Byte, mid: Byte, end: Byte)
    requires CounterFollows(base, a, mid) && CounterFollows(mid, b, end)
    ensures CounterFollows(base, a + b, end)
  {
    NumberedAppend(a, b, base);
    ModShift(base + |a|, |b|);
  }

  /** One exchange numbers its frame with the counter and advances it once. */
  lemma OneFrameFollows(cmd: Byte, q: Byte)
    ensures CounterFollows(q, [CommandFrame(cmd, q)], NextSeq(q))
  {
  }

  /** Two exchanges in a row number their frames consecutively. */
  lemma TwoFramesFollow(first: Byte, second: Byte, q: Byte)
    ensures CounterFollows(q, [CommandFrame(first, q), CommandFrame(second, NextSeq(q))], NextSeq(NextSeq(q)))
  {
  }

  lemma ModShift(x: nat, j: nat)
    ensures (x % 256 + j) % 256 == (x + j) % 256
  {
  }
}
