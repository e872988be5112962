/**
  The driver's process-wide state as one immutable record, and the shape of
  every operation's result.
 */
module State {

  import opened Transport
  import opened Ifd

  /** The static `atr[MAX_ATR_SIZE]` array, all of it. */
  type AtrCache = s: seq<Byte> | |s| == MAX_ATR_SIZE witness seq(MAX_ATR_SIZE, _ => 0)

  /** `dev != NULL`, `seq`, `present`, `atr` and `atrlen`. */
  datatype Session = Session(open: bool, counter: Byte, present: bool, atr: AtrCache, atrLen: int)

  /** The state at load time: C zero-initialises every static. */
  function Initial(): (s: Session)
    ensures !s.open && !s.present && s.counter == 0 && s.atrLen == 0
    ensures forall i | 0 <= i < MAX_ATR_SIZE :: s.atr[i] == 0
    ensures Valid(s)
  {
    Session(false, 0, false, seq(MAX_ATR_SIZE, _ => 0), 0)
  }

  /** `atrlen` is -1 ("unset") or a length the cache can hold. */
  ghost predicate Valid(s: Session)
  {
    -1 <= s.atrLen <= MAX_ATR_SIZE
  }

  /** The state after an operation, the code it returns and the transfers it attempted. */
  datatype Step = Step(session: Session, code: ResponseCode, wire: seq<Event>)
}
