/**
  `IFDHGetCapabilities`: a switch over the two tags the driver answers.

  `GetCapabilities` answers every unrecognised tag with a tag error, which is
  what the default branch returns. `GetCapabilitiesAsWritten` records that the
  default branch first makes a logging call whose arguments do not match its
  format, so as written that branch has no defined behaviour.
 */
module Capabilities {

  import opened Wrappers
  import opened Transport
  import opened Ifd

  /** The code, `*Length` afterwards, and the byte written to `*Value`, if any. */
  datatype Answer = Answer(code: ResponseCode, length: nat, value: Option<Byte>)

  /** `IFDHGetCapabilities` with `*Length == length` on entry. */
  function GetCapabilities(tag: Tag, length: nat): (r: Answer)
    // the polling-thread tag: not supported, answered with zero length
    ensures tag == PollingThreadWithTimeout ==> r == Answer(Success, 0, None)
    // the slot count: one slot, if there is room for one byte
    ensures tag == SlotsNumber && length >= 1 ==> r == Answer(Success, 1, Some(1))
    ensures tag == SlotsNumber && length == 0 ==> r == Answer(ErrorInsufficientBuffer, length, None)
    ensures tag.OtherTag? ==> r == Answer(ErrorTag, length, None)
    // success never reports more than the caller's room, and failure writes nothing
    ensures r.code == Success ==> r.length <= length
    ensures r.code != Success ==> r.length == length && r.value == None
    ensures r.value.Some? ==> r.length >= 1
  {
    match tag
    case PollingThreadWithTimeout => Answer(Success, 0, None)
    case SlotsNumber =>
      if length >= 1 then Answer(Success, 1, Some(1))
      else Answer(ErrorInsufficientBuffer, length, None)
    case OtherTag(_) => Answer(ErrorTag, length, None)
  }

  /**
    `IFDHGetCapabilities` as written. Before returning the tag error, the
    default branch calls `fprintf(stderr, "%s Unknown tag %04x\n", Tag)`:
    the integer `Tag` is passed where `%s` needs a string, and no argument is
    passed for `%04x`. C defines no behaviour for that call, so this version
    has no answer (None) for an unrecognised tag.
   */
  function GetCapabilitiesAsWritten(tag: Tag, length: nat): (r: Option<Answer>)
    ensures r.None? <==> tag.OtherTag?
    ensures r.Some? ==> r.value.code == Success || r.value.code == ErrorInsufficientBuffer
  {
    match tag
    case PollingThreadWithTimeout => Some(Answer(Success, 0, None))
    case SlotsNumber =>
      if length >= 1 then Some(Answer(Success, 1, Some(1)))
      else Some(Answer(ErrorInsufficientBuffer, length, None))
    case OtherTag(_) => None
  }

  /** An unknown tag, with any `*Length`, reaches the undefined logging call. */
  lemma UnknownTagIsUndefined(code: int, length: nat)
    ensures GetCapabilitiesAsWritten(OtherTag(code), length) == None
    ensures GetCapabilities(OtherTag(code), length) == Answer(ErrorTag, length, None)
  {
  }

  /** Wherever the code as written has a defined answer, the corrected switch
      gives the same answer; on the rest it gives the tag error. */
  lemma CorrectedAgreesWhereDefined(tag: Tag, length: nat)
    ensures GetCapabilitiesAsWritten(tag, length).Some? ==>
              GetCapabilitiesAsWritten(tag, length).value == GetCapabilities(tag, length)
    ensures GetCapabilitiesAsWritten(tag, length).None? ==>
              GetCapabilities(tag, length).code == ErrorTag
  {
  }
}
