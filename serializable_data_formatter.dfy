/**
 * The generated MessagePack formatter for SerializableData: null is written as nil, any
 * other envelope as a one-element array holding MsgType. Reading accepts arrays of any
 * length: element 0 is the tag, later elements are skipped, a missing element 0 leaves 0.
 */
module Formatter {
  import opened Wrappers
  import opened MsgPackFormat
  import opened MsgPackIO
  import opened Protocol

  /** The bytes Serialize writes for a null (`None`) or non-null envelope with tag `t`. */
  function EncodeEnvelope(value: Option<int32>): Bytes
  {
    match value
    case None => [NilCode]
    case Some(t) => ArrayHeaderBytes(1) + IntBytes(t)
  }

  /** What Deserialize produces: the tag of a non-null envelope, the reader's new position and depth. */
  datatype Decoded = Decoded(msgType: Option<int32>, pos: nat, depth: int)

  /**
   * The `for` loop of Deserialize from iteration `i` on, with the tag read so far:
   * element 0 is read as an int, every later element is skipped.
   */
  function ReadFields(data: Bytes, pos: nat, i: nat, length: nat, msgType: int32): (r: Result<(int32, nat), Failure>)
    requires pos <= |data|
    ensures r.Ok? ==> pos <= r.value.1 <= |data|
    decreases length - i
  {
    if i >= length then Ok((msgType, pos))
    else if i == 0 then
      var field :- ParseInt32(data, pos);
      ReadFields(data, field.1, 1, length, field.0)
    else
      var next :- SkipObject(data, pos);
      ReadFields(data, next, i + 1, length, msgType)
  }

  /**
   * What the loop amounts to: element 0 read as the tag and the other `length - 1` elements
   * skipped, or the default tag 0 for an empty array.
   */
  function ReadTag(data: Bytes, pos: nat, length: nat): (r: Result<(int32, nat), Failure>)
    requires pos <= |data|
    ensures r.Ok? ==> pos <= r.value.1 <= |data|
  {
    if length == 0 then Ok((0, pos))
    else
      var field :- ParseInt32(data, pos);
      var end :- SkipObjects(data, field.1, length - 1);
      Ok((field.0, end))
  }

  /** Deserialize as a function of the input bytes, the reader's position and depth, and the limit. */
  function DecodeEnvelope(data: Bytes, pos: nat, depth: int, security: Security): (r: Result<Decoded, Failure>)
    requires pos <= |data|
    ensures r.Ok? ==> pos < r.value.pos <= |data| && r.value.depth == depth
  {
    if pos == |data| then Err(EndOfStream)
    else if data[pos] == NilCode then Ok(Decoded(None, pos + 1, depth))
    else if depth >= security.maximumObjectGraphDepth then Err(DepthLimit)
    else
      var header :- ParseArrayHeader(data, pos);
      var fields :- ReadTag(data, header.1, header.0);
      Ok(Decoded(Some(fields.0), fields.1, depth))
  }

  method Serialize(writer: Writer, value: SerializableData?)
    modifies writer
    ensures writer.written == old(writer.written) + EncodeEnvelope(if value == null then None else Some(value.msgType))
  {
    if value == null {
      writer.WriteNil();
      return;
    }
    ghost var before := writer.written;
    writer.WriteArrayHeader(1);
    writer.Write(value.msgType);
    AppendAssoc(before, ArrayHeaderBytes(1), IntBytes(value.msgType));
  }

  method Deserialize(reader: Reader, security: Security) returns (r: Result<SerializableData?, Failure>)
    requires reader.Valid()
    modifies reader
    ensures reader.Valid()
    ensures match DecodeEnvelope(reader.data, old(reader.pos), old(reader.depth), security)
            case Err(e) => r == Err(e)
            case Ok(d) =>
              && r.Ok? && reader.pos == d.pos && reader.depth == d.depth
              && (d.msgType.None? ==> r.value == null)
              && (d.msgType.Some? ==> r.value != null && fresh(r.value) && r.value.msgType == d.msgType.value)
  {
    var isNil :- reader.TryReadNil();
    if isNil {
      return Ok(null);
    }

    :- DepthStep(security, reader);
    var length :- reader.ReadArrayHeader();
    ghost var fieldsStart := reader.pos;
    var elements := ReadElements(reader, length);
    ReadFieldsIsReadTag(reader.data, fieldsStart, length);
    var msgType :- elements;

    var result := new SerializableData(msgType);
    result.msgType := msgType;
    reader.depth := reader.depth - 1;
    return Ok(result);
  }

  /** The `for` loop of Deserialize over the `length` array elements. */
  method ReadElements(reader: Reader, length: nat) returns (r: Result<int32, Failure>)
    requires reader.Valid()
    modifies reader
    ensures reader.Valid() && reader.depth == old(reader.depth)
    ensures match ReadFields(reader.data, old(reader.pos), 0, length, 0)
            case Ok(f) => r == Ok(f.0) && reader.pos == f.1
            case Err(e) => r == Err(e)
  {
    ghost var fieldsStart := reader.pos;
    var msgType: int32 := 0;
    for i := 0 to length
      invariant reader.Valid() && reader.depth == old(reader.depth)
      invariant ReadFields(reader.data, fieldsStart, 0, length, 0) == ReadFields(reader.data, reader.pos, i, length, msgType)
    {
      if i == 0 {
        msgType :- reader.ReadInt32();
      } else {
        :- reader.Skip();
      }
    }
    return Ok(msgType);
  }

  // ---------------------------------------------------------------------------------------
  // Properties of the encoding

  /** Null round-trips: one nil byte, read back as null without touching the depth. */
  lemma NilRoundTrip(data: Bytes, pos: nat, depth: int, security: Security)
    requires IsAt(data, pos, EncodeEnvelope(None))
    ensures EncodeEnvelope(None) == [NilCode]
    ensures DecodeEnvelope(data, pos, depth, security) == Ok(Decoded(None, pos + 1, depth))
  {
    assert data[pos] == EncodeEnvelope(None)[0];
  }

  /** One skipped element of the loop. */
  lemma ReadFieldsSkip(data: Bytes, pos: nat, i: nat, length: nat, msgType: int32, next: nat)
    requires pos <= |data| && 1 <= i < length
    requires SkipObject(data, pos) == Ok(next)
    ensures ReadFields(data, pos, i, length, msgType) == ReadFields(data, next, i + 1, length, msgType)
  {
  }

  /** The first element of the loop, read as the tag. */
  lemma ReadFieldsFirst(data: Bytes, pos: nat, length: nat, t: int32, next: nat)
    requires pos <= |data| && 0 < length
    requires ParseInt32(data, pos) == Ok((t, next))
    ensures ReadFields(data, pos, 0, length, 0) == ReadFields(data, next, 1, length, t)
  {
  }

  /** After element 0 the loop is Skip repeated: the tag is kept and the elements are passed over. */
  lemma {:induction false} ReadFieldsSkipsRest(data: Bytes, pos: nat, i: nat, length: nat, msgType: int32)
    requires pos <= |data| && 1 <= i <= length
    ensures ReadFields(data, pos, i, length, msgType) ==
            match SkipObjects(data, pos, length - i)
            case Ok(p) => Ok((msgType, p))
            case Err(e) => Err(e)
    decreases length - i
  {
    if i < length {
      match SkipObject(data, pos)
      case Ok(next) =>
        ReadFieldsSkip(data, pos, i, length, msgType, next);
        ReadFieldsSkipsRest(data, next, i + 1, length, msgType);
      case Err(_) =>
    }
  }

  /** The loop computes ReadTag: Skip passes over every element after the tag. */
  lemma ReadFieldsIsReadTag(data: Bytes, pos: nat, length: nat)
    requires pos <= |data|
    ensures ReadFields(data, pos, 0, length, 0) == ReadTag(data, pos, length)
  {
    if length > 0 {
      match ParseInt32(data, pos)
      case Ok(field) =>
        ReadFieldsFirst(data, pos, length, field.0, field.1);
        ReadFieldsSkipsRest(data, field.1, 1, length, field.0);
      case Err(_) =>
    }
  }

  /** A non-null envelope below the depth limit whose header, tag and `n` further elements all read. */
  lemma DecodeFromParts(data: Bytes, pos: nat, depth: int, security: Security, n: nat, fieldsStart: nat, t: int32, extrasStart: nat, end: nat)
    requires ParseArrayHeader(data, pos) == Ok((1 + n, fieldsStart))
    requires depth < security.maximumObjectGraphDepth
    requires ParseInt32(data, fieldsStart) == Ok((t, extrasStart))
    requires SkipObjects(data, extrasStart, n) == Ok(end)
    ensures DecodeEnvelope(data, pos, depth, security) == Ok(Decoded(Some(t), end, depth))
  {
  }

  /** The forward-compatible envelope is its header, then the tag, then the further elements. */
  lemma EnvelopeLayout(t: int32, extras: seq<Value>, data: Bytes, pos: nat)
    requires |extras| < MaxInt32 && forall k :: 0 <= k < |extras| ==> Encodable(extras[k])
    requires IsAt(data, pos, ArrayHeaderBytes(1 + |extras|) + IntBytes(t) + EncodeAll(extras))
    ensures IsAt(data, pos, ArrayHeaderBytes(1 + |extras|))
    ensures IsAt(data, pos + |ArrayHeaderBytes(1 + |extras|)|, IntBytes(t))
    ensures IsAt(data, pos + |ArrayHeaderBytes(1 + |extras|)| + |IntBytes(t)|, EncodeAll(extras))
  {
    IsAtPrefix(data, pos, ArrayHeaderBytes(1 + |extras|) + IntBytes(t), EncodeAll(extras));
    IsAtSuffix(data, pos, ArrayHeaderBytes(1 + |extras|) + IntBytes(t), EncodeAll(extras));
    IsAtPrefix(data, pos, ArrayHeaderBytes(1 + |extras|), IntBytes(t));
    IsAtSuffix(data, pos, ArrayHeaderBytes(1 + |extras|), IntBytes(t));
  }

  /** The header of the forward-compatible envelope reads as its element count. */
  lemma HeaderPart(t: int32, extras: seq<Value>, data: Bytes, pos: nat)
    requires |extras| < MaxInt32 && forall k :: 0 <= k < |extras| ==> Encodable(extras[k])
    requires IsAt(data, pos, ArrayHeaderBytes(1 + |extras|) + IntBytes(t) + EncodeAll(extras))
    ensures ParseArrayHeader(data, pos) == Ok((1 + |extras|, pos + |ArrayHeaderBytes(1 + |extras|)|))
  {
    EnvelopeLayout(t, extras, data, pos);
    ParseArrayHeaderBytes(1 + |extras|, data, pos);
  }

  /** Element 0 of the forward-compatible envelope reads as the tag. */
  lemma TagPart(t: int32, extras: seq<Value>, data: Bytes, pos: nat)
    requires |extras| < MaxInt32 && forall k :: 0 <= k < |extras| ==> Encodable(extras[k])
    requires IsAt(data, pos, ArrayHeaderBytes(1 + |extras|) + IntBytes(t) + EncodeAll(extras))
    ensures ParseInt32(data, pos + |ArrayHeaderBytes(1 + |extras|)|) ==
            Ok((t, pos + |ArrayHeaderBytes(1 + |extras|)| + |IntBytes(t)|))
  {
    EnvelopeLayout(t, extras, data, pos);
    ParseIntBytes(t, data, pos + |ArrayHeaderBytes(1 + |extras|)|);
  }

  /** The further elements of the forward-compatible envelope are skipped exactly. */
  lemma ExtrasPart(t: int32, extras: seq<Value>, data: Bytes, pos: nat)
    requires |extras| < MaxInt32 && forall k :: 0 <= k < |extras| ==> Encodable(extras[k])
    requires IsAt(data, pos, ArrayHeaderBytes(1 + |extras|) + IntBytes(t) + EncodeAll(extras))
    ensures pos + |ArrayHeaderBytes(1 + |extras|)| + |IntBytes(t)| <= |data|
    ensures SkipObjects(data, pos + |ArrayHeaderBytes(1 + |extras|)| + |IntBytes(t)|, |extras|) ==
            Ok(pos + |ArrayHeaderBytes(1 + |extras|) + IntBytes(t) + EncodeAll(extras)|)
  {
    EnvelopeLayout(t, extras, data, pos);
    SkipEncodedAll(extras, data, pos + |ArrayHeaderBytes(1 + |extras|)| + |IntBytes(t)|);
  }

  /**
   * Round trip, forward compatible: an array whose element 0 is the tag `t`, followed by any
   * further encoded elements, decodes to `t` and ends right after the last element, leaving
   * the depth as it was.
   */
  lemma DecodeWithExtraFields(t: int32, extras: seq<Value>, data: Bytes, pos: nat, depth: int, security: Security)
    requires |extras| < MaxInt32 && forall k :: 0 <= k < |extras| ==> Encodable(extras[k])
    requires depth < security.maximumObjectGraphDepth
    requires IsAt(data, pos, ArrayHeaderBytes(1 + |extras|) + IntBytes(t) + EncodeAll(extras))
    ensures DecodeEnvelope(data, pos, depth, security) ==
            Ok(Decoded(Some(t), pos + |ArrayHeaderBytes(1 + |extras|) + IntBytes(t) + EncodeAll(extras)|, depth))
  {
    HeaderPart(t, extras, data, pos);
    TagPart(t, extras, data, pos);
    ExtrasPart(t, extras, data, pos);
    DecodeFromParts(data, pos, depth, security, |extras|,
                    pos + |ArrayHeaderBytes(1 + |extras|)|, t,
                    pos + |ArrayHeaderBytes(1 + |extras|)| + |IntBytes(t)|,
                    pos + |ArrayHeaderBytes(1 + |extras|) + IntBytes(t) + EncodeAll(extras)|);
  }

  /** Round trip of what Serialize writes, for null and for every `int` tag. */
  lemma RoundTrip(value: Option<int32>, data: Bytes, pos: nat, depth: int, security: Security)
    requires value.Some? ==> depth < security.maximumObjectGraphDepth
    requires IsAt(data, pos, EncodeEnvelope(value))
    ensures DecodeEnvelope(data, pos, depth, security) == Ok(Decoded(value, pos + |EncodeEnvelope(value)|, depth))
  {
    match value
    case None => NilRoundTrip(data, pos, depth, security);
    case Some(t) =>
      IsAtPrefix(data, pos, ArrayHeaderBytes(1), IntBytes(t));
      IsAtSuffix(data, pos, ArrayHeaderBytes(1), IntBytes(t));
      ParseArrayHeaderBytes(1, data, pos);
      ParseIntBytes(t, data, pos + 1);
      DecodeFromParts(data, pos, depth, security, 0, pos + 1, t, pos + 1 + |IntBytes(t)|, pos + 1 + |IntBytes(t)|);
  }

  /** Beyond the depth limit a non-null envelope is refused before its header is read. */
  lemma DepthLimitRefuses(data: Bytes, pos: nat, depth: int, security: Security)
    requires pos < |data| && data[pos] != NilCode
    requires depth >= security.maximumObjectGraphDepth
    ensures DecodeEnvelope(data, pos, depth, security) == Err(DepthLimit)
  {
  }

  /** An empty array decodes to an envelope with the default tag 0. */
  lemma EmptyArrayDecodesToZero(data: Bytes, pos: nat, depth: int, security: Security)
    requires pos < |data| && data[pos] == MinFixArray
    requires depth < security.maximumObjectGraphDepth
    ensures DecodeEnvelope(data, pos, depth, security) == Ok(Decoded(Some(0), pos + 1, depth))
  {
  }

  /** Tags 0..127 take two bytes, tags 128..255 three. */
  lemma EnvelopeLength(t: int32)
    ensures 0 <= t <= 127 ==> EncodeEnvelope(Some(t)) == [0x91, t]
    ensures 128 <= t <= 255 ==> EncodeEnvelope(Some(t)) == [0x91, UInt8, t]
  {
  }

  /**
   * The fixed-offset read is right for the tags 0..127 and, by coincidence, for 204 (whose
   * uint8 marker equals the tag); for every other tag it returns something else.
   */
  lemma FixedOffsetExact(t: int32)
    ensures ReadMsgTypeFromBytes(EncodeEnvelope(Some(t))) == Some(t) <==> 0 <= t <= 127 || t == 204
  {
    Pow256Values();
    var e := EncodeEnvelope(Some(t));
    assert e[1] == IntBytes(t)[0];
  }

  /** For the tags 128..255 the fixed-offset read returns the uint8 marker 0xcc (204). */
  lemma FixedOffsetMisreads(t: int32)
    requires 128 <= t <= 255
    ensures ReadMsgTypeFromBytes(EncodeEnvelope(Some(t))) == Some(204)
  {
  }

  /** A null envelope is one byte long, so the fixed-offset read throws on it. */
  lemma FixedOffsetOnNil()
    ensures ReadMsgTypeFromBytes(EncodeEnvelope(None)).None?
  {
  }
}
