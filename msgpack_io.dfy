/**
 * MessagePackWriter and MessagePackReader as the generated formatters see them: a writer
 * that appends bytes to its output, and a reader that advances a position through an input
 * buffer and keeps the nesting `Depth` counter that the security options guard.
 */
module MsgPackIO {
  import opened Wrappers
  import opened MsgPackFormat

  class Writer {
    var written: Bytes

    constructor ()
      ensures written == []
    {
      written := [];
    }

    method WriteNil()
      modifies this
      ensures written == old(written) + [NilCode]
    {
      written := written + [NilCode];
    }

    method WriteArrayHeader(count: nat)
      requires count <= MaxInt32
      modifies this
      ensures written == old(written) + ArrayHeaderBytes(count)
    {
      written := written + ArrayHeaderBytes(count);
    }

    method Write(value: int32)
      modifies this
      ensures written == old(written) + IntBytes(value)
    {
      written := written + IntBytes(value);
    }
  }

  /**
   * A reader over `data`. Each read either yields its value and advances `pos`, or reports
   * the exception it throws and leaves `pos` where it was.
   */
  class Reader {
    const data: Bytes
    var pos: nat
    var depth: int

    ghost predicate Valid()
      reads this
    {
      pos <= |data|
    }

    constructor (data: Bytes)
      ensures Valid() && this.data == data && pos == 0 && depth == 0
    {
      this.data := data;
      pos := 0;
      depth := 0;
    }

    /** TryReadNil: consumes a nil and says so; any other object is left unread. */
    method TryReadNil() returns (r: Result<bool, Failure>)
      requires Valid()
      modifies this
      ensures Valid() && depth == old(depth)
      ensures old(pos) == |data| ==> r == Err(EndOfStream) && pos == old(pos)
      ensures old(pos) < |data| ==>
                r == Ok(data[old(pos)] == NilCode) &&
                pos == (if data[old(pos)] == NilCode then old(pos) + 1 else old(pos))
    {
      if pos == |data| {
        return Err(EndOfStream);
      }
      if data[pos] == NilCode {
        pos := pos + 1;
        return Ok(true);
      }
      return Ok(false);
    }

    method ReadArrayHeader() returns (r: Result<nat, Failure>)
      requires Valid()
      modifies this
      ensures Valid() && depth == old(depth)
      ensures match ParseArrayHeader(data, old(pos))
              case Ok(h) => r == Ok(h.0) && pos == h.1
              case Err(e) => r == Err(e) && pos == old(pos)
    {
      var h := ParseArrayHeader(data, pos);
      if h.Err? {
        return Err(h.error);
      }
      pos := h.value.1;
      return Ok(h.value.0);
    }

    method ReadInt32() returns (r: Result<int32, Failure>)
      requires Valid()
      modifies this
      ensures Valid() && depth == old(depth)
      ensures match ParseInt32(data, old(pos))
              case Ok(v) => r == Ok(v.0) && pos == v.1
              case Err(e) => r == Err(e) && pos == old(pos)
    {
      var v := ParseInt32(data, pos);
      if v.Err? {
        return Err(v.error);
      }
      pos := v.value.1;
      return Ok(v.value.0);
    }

    method Skip() returns (r: Outcome<Failure>)
      requires Valid()
      modifies this
      ensures Valid() && depth == old(depth)
      ensures match SkipObject(data, old(pos))
              case Ok(next) => r == Pass && pos == next
              case Err(e) => r == Fail(e) && pos == old(pos)
    {
      var next := SkipObject(data, pos);
      if next.Err? {
        return Fail(next.error);
      }
      pos := next.value;
      return Pass;
    }
  }

  /** MessagePackSecurity, reduced to the limit on object-graph depth. */
  datatype Security = Security(maximumObjectGraphDepth: int)

  /** MessagePackSecurity.DepthStep: refuses to go deeper than the limit, else goes one deeper. */
  method DepthStep(security: Security, reader: Reader) returns (r: Outcome<Failure>)
    modifies reader
    ensures reader.pos == old(reader.pos)
    ensures old(reader.depth) >= security.maximumObjectGraphDepth ==>
              r == Fail(DepthLimit) && reader.depth == old(reader.depth)
    ensures old(reader.depth) < security.maximumObjectGraphDepth ==>
              r == Pass && reader.depth == old(reader.depth) + 1
  {
    if reader.depth >= security.maximumObjectGraphDepth {
      return Fail(DepthLimit);
    }
    reader.depth := reader.depth + 1;
    return Pass;
  }
}
