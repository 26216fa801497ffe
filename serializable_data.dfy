/**
 * The message envelope: the base class of every network message, carrying only the
 * message-type tag, and the fast path that reads the tag straight out of a frame.
 */
module Protocol {
  import opened Wrappers
  import opened MsgPackFormat

  /** A tag is valid when it lies in 0..255; anything else is logged as an error. */
  predicate IsValidMsgType(msgType: int32)
  {
    !(msgType < 0 || msgType > 255)
  }

  /** The tag a constructed envelope ends up with: the argument if valid, else C#'s default 0. */
  function ConstructedMsgType(msgType: int32): (r: int32)
    ensures 0 <= r <= 255
    ensures IsValidMsgType(msgType) ==> r == msgType
    ensures !IsValidMsgType(msgType) ==> r == 0
  {
    if IsValidMsgType(msgType) then msgType else 0
  }

  lemma ValidMsgTypeRange(msgType: int32)
    ensures IsValidMsgType(msgType) <==> 0 <= msgType <= 255
  {
  }

  class SerializableData {
    /** `MsgType`, key 0 of the MessagePack object; its setter is public. */
    var msgType: int32

    /** An out-of-range tag is not rejected: the constructor returns early and MsgType stays 0. */
    constructor (msgType: int32)
      ensures this.msgType == ConstructedMsgType(msgType)
    {
      if !IsValidMsgType(msgType) {
        this.msgType := 0;
      } else {
        this.msgType := msgType;
      }
    }
  }

  /**
   * The tag of a frame read at the fixed offset 1; `None` when the frame is shorter than two
   * bytes, where the array index throws.
   */
  function ReadMsgTypeFromBytes(bytes: Bytes): (r: Option<int>)
    ensures r.Some? <==> |bytes| >= 2
    ensures r.Some? ==> r.value == bytes[1] && 0 <= r.value <= 255
  {
    if |bytes| >= 2 then Some(bytes[1]) else None
  }
}
