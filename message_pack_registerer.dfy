/**
 * Start-up registration of the MessagePack resolvers: once per run, the resolver chain is
 * installed in the static composite resolver, the default serializer options are pointed at
 * it, and a serialize/deserialize self-test decides whether registration counts as done.
 */
module Registration {
  import opened Wrappers
  import opened MsgPackFormat
  import opened MsgPackIO
  import opened Protocol
  import opened Formatter

  /** The resolvers the composite consults, by the class each one stands for. */
  datatype Resolver = Standard | Generated | Unity | UnityBlitWithPrimitiveArray

  /** The chain as registered: the first resolver that knows a type wins. */
  const ResolverChain: seq<Resolver> := [Standard, Generated, Unity, UnityBlitWithPrimitiveArray]

  /** The tag the self-test constructs its envelope with. */
  const SelfTestMsgType: int32 := 59114

  /**
   * The bytes the self-test writes. 59114 is not a valid tag, so the envelope keeps the
   * default 0 and is written as a one-element array holding 0.
   */
  function SelfTestBytes(): (r: Bytes)
    ensures r == [0x91, 0x00]
  {
    EncodeEnvelope(Some(ConstructedMsgType(SelfTestMsgType)))
  }

  /**
   * The self-test with any tag in place of 59114 reads back the tag it wrote, so the
   * comparison it makes holds whatever constant is used, once the depth limit allows one level.
   */
  lemma SelfTestRoundTrip(msgType: int32, security: Security)
    requires 0 < security.maximumObjectGraphDepth
    ensures var sent := ConstructedMsgType(msgType);
            var bytes := EncodeEnvelope(Some(sent));
            DecodeEnvelope(bytes, 0, 0, security) == Ok(Decoded(Some(sent), |bytes|, 0))
  {
    var bytes := EncodeEnvelope(Some(ConstructedMsgType(msgType)));
    IsAtSlice(bytes, 0, bytes);
    RoundTrip(Some(ConstructedMsgType(msgType)), bytes, 0, 0, security);
  }

  /**
   * CheckRegisterSuccess: serialize an envelope, deserialize the bytes with the default
   * options, and compare the tags. An exception from the codec is passed on as `Err`.
   */
  method CheckRegisterSuccess(security: Security) returns (r: Result<bool, Failure>)
    ensures 0 < security.maximumObjectGraphDepth ==> r == Ok(true)
    ensures security.maximumObjectGraphDepth <= 0 ==> r == Err(DepthLimit)
  {
    var serializingData := new SerializableData(SelfTestMsgType);
    var writer := new Writer();
    Serialize(writer, serializingData);
    var bytes := writer.written;
    assert bytes == SelfTestBytes();
    var reader := new Reader(bytes);
    var deserializedData :- Deserialize(reader, security);
    assert deserializedData != null;
    return Ok(serializingData.msgType == deserializedData.msgType);
  }

  /** The static state Initialize works on. */
  class Registerer {
    /** `_isSerializerRegistered`. */
    var isSerializerRegistered: bool
    /** The chain held by StaticCompositeResolver.Instance; empty before registration. */
    var resolvers: seq<Resolver>
    /** Whether MessagePackSerializer.DefaultOptions resolve through the composite. */
    var defaultOptionsSet: bool

    constructor ()
      ensures !isSerializerRegistered && resolvers == [] && !defaultOptionsSet
    {
      isSerializerRegistered := false;
      resolvers := [];
      defaultOptionsSet := false;
    }

    /**
     * Nothing happens once registration has succeeded. Otherwise the chain and the default
     * options are installed and the flag is set exactly when the self-test passes; an
     * exception from the self-test leaves the flag as it was and is passed on.
     */
    method Initialize(security: Security) returns (r: Outcome<Failure>)
      modifies this
      ensures old(isSerializerRegistered) ==> unchanged(this) && r == Pass
      ensures !old(isSerializerRegistered) ==> resolvers == ResolverChain && defaultOptionsSet
      ensures isSerializerRegistered <==> old(isSerializerRegistered) || 0 < security.maximumObjectGraphDepth
      ensures r.Fail? <==> !old(isSerializerRegistered) && security.maximumObjectGraphDepth <= 0
    {
      if isSerializerRegistered {
        return Pass;
      }
      resolvers := ResolverChain;
      defaultOptionsSet := true;
      var success := CheckRegisterSuccess(security);
      if success.Err? {
        return Fail(success.error);
      }
      if success.value {
        isSerializerRegistered := true;
      }
      return Pass;
    }
  }
}
