/**
 * The part of the MessagePack binary format that the generated SerializableData formatter
 * touches: nil, the array header family, the int family (as MessagePackWriter.Write(int)
 * emits it and MessagePackReader.ReadInt32 accepts it), and skipping one whole object of
 * any kind. Everything here is pure: bytes in, values and positions out.
 */
module MsgPackFormat {
  import opened Wrappers

  type uint8 = x: int | 0 <= x < 0x100
  type Bytes = seq<uint8>

  const MinInt32: int := -0x8000_0000
  const MaxInt32: int := 0x7fff_ffff

  /** C#'s `int`. */
  type int32 = x: int | MinInt32 <= x <= MaxInt32

  /** The exceptions MessagePackReader throws on input it cannot read. */
  datatype Failure =
    | EndOfStream               // the buffer ends inside an object
    | InvalidCode(code: uint8)  // a type code the operation does not accept
    | Overflow                  // an integer or a count that does not fit in `int`
    | DepthLimit                // the object graph is nested deeper than the security options allow

  // First bytes ("type codes") of the format.
  const MaxFixPositiveInt: uint8 := 0x7f
  const MinFixMap: uint8 := 0x80
  const MinFixArray: uint8 := 0x90
  const MaxFixArray: uint8 := 0x9f
  const MinFixStr: uint8 := 0xa0
  const NilCode: uint8 := 0xc0
  const NeverUsed: uint8 := 0xc1
  const FalseCode: uint8 := 0xc2
  const TrueCode: uint8 := 0xc3
  const Bin8: uint8 := 0xc4
  const Bin16: uint8 := 0xc5
  const Bin32: uint8 := 0xc6
  const Ext8: uint8 := 0xc7
  const Ext16: uint8 := 0xc8
  const Ext32: uint8 := 0xc9
  const Float32: uint8 := 0xca
  const Float64: uint8 := 0xcb
  const UInt8: uint8 := 0xcc
  const UInt16: uint8 := 0xcd
  const UInt32: uint8 := 0xce
  const UInt64: uint8 := 0xcf
  const Int8: uint8 := 0xd0
  const Int16: uint8 := 0xd1
  const Int32: uint8 := 0xd2
  const Int64: uint8 := 0xd3
  const FixExt1: uint8 := 0xd4
  const FixExt2: uint8 := 0xd5
  const FixExt4: uint8 := 0xd6
  const FixExt8: uint8 := 0xd7
  const FixExt16: uint8 := 0xd8
  const Str8: uint8 := 0xd9
  const Str16: uint8 := 0xda
  const Str32: uint8 := 0xdb
  const Array16: uint8 := 0xdc
  const Array32: uint8 := 0xdd
  const Map16: uint8 := 0xde
  const Map32: uint8 := 0xdf
  const MinFixNegativeInt: uint8 := 0xe0

  /** `e` occurs in `data` starting at `pos`, byte by byte. */
  predicate IsAt(data: Bytes, pos: nat, e: Bytes)
    decreases |e|
  {
    if e == [] then pos <= |data|
    else pos < |data| && data[pos] == e[0] && IsAt(data, pos + 1, e[1..])
  }

  lemma {:induction false} IsAtSlice(data: Bytes, pos: nat, e: Bytes)
    ensures IsAt(data, pos, e) <==> pos + |e| <= |data| && data[pos..pos + |e|] == e
    decreases |e|
  {
    if e != [] {
      IsAtSlice(data, pos + 1, e[1..]);
      assert e == [e[0]] + e[1..];
      if pos + |e| <= |data| {
        assert data[pos..pos + |e|] == [data[pos]] + data[pos + 1..pos + |e|];
      }
    }
  }

  lemma IsAtSplit(data: Bytes, pos: nat, a: Bytes, b: Bytes)
    requires IsAt(data, pos, a + b)
    ensures IsAt(data, pos, a) && IsAt(data, pos + |a|, b)
  {
    IsAtSlice(data, pos, a + b);
    IsAtSlice(data, pos, a);
    IsAtSlice(data, pos + |a|, b);
    assert data[pos..pos + |a|] == (a + b)[..|a|];
    assert data[pos + |a|..pos + |a| + |b|] == (a + b)[|a|..];
  }

  lemma IsAtPrefix(data: Bytes, pos: nat, a: Bytes, b: Bytes)
    requires IsAt(data, pos, a + b)
    ensures IsAt(data, pos, a)
  {
    IsAtSplit(data, pos, a, b);
  }

  lemma IsAtSuffix(data: Bytes, pos: nat, a: Bytes, b: Bytes)
    requires IsAt(data, pos, a + b)
    ensures IsAt(data, pos + |a|, b)
  {
    IsAtSplit(data, pos, a, b);
  }

  lemma AppendAssoc(a: Bytes, b: Bytes, c: Bytes)
    ensures a + b + c == a + (b + c)
  {
  }

  // ---------------------------------------------------------------------------------------
  // Big-endian unsigned integers

  function Pow256(n: nat): (r: nat)
    ensures r >= 1
  {
    if n == 0 then 1 else 256 * Pow256(n - 1)
  }

  lemma Pow256Values()
    ensures Pow256(1) == 0x100 && Pow256(2) == 0x1_0000 && Pow256(4) == 0x1_0000_0000
    ensures Pow256(8) == 0x1_0000_0000_0000_0000
  {
  }

  /** The `n`-byte big-endian representation of `v`. */
  function BigEndian(v: nat, n: nat): (r: Bytes)
    requires v < Pow256(n)
    ensures |r| == n
  {
    if n == 0 then [] else BigEndian(v / 256, n - 1) + [v % 256]
  }

  /** The unsigned value of big-endian bytes. */
  function FromBigEndian(s: Bytes): (v: nat)
    ensures v < Pow256(|s|)
  {
    if s == [] then 0
    else
      var high := FromBigEndian(s[..|s| - 1]);
      assert high * 256 <= (Pow256(|s| - 1) - 1) * 256;
      high * 256 + s[|s| - 1]
  }

  lemma {:induction false} FromBigEndianOf(v: nat, n: nat)
    requires v < Pow256(n)
    ensures FromBigEndian(BigEndian(v, n)) == v
  {
    if n > 0 {
      var r := BigEndian(v, n);
      assert r[..n - 1] == BigEndian(v / 256, n - 1);
      FromBigEndianOf(v / 256, n - 1);
    }
  }

  // ---------------------------------------------------------------------------------------
  // Writing (MessagePackWriter)

  /** WriteArrayHeader(count): fixarray, array16 or array32, whichever is shortest. */
  function ArrayHeaderBytes(count: nat): (r: Bytes)
    requires count <= MaxInt32
    ensures 1 <= |r| <= 5
  {
    if count <= 15 then [MinFixArray + count]
    else if count <= 0xffff then [Array16] + BigEndian(count, 2)
    else Pow256Values(); [Array32] + BigEndian(count, 4)
  }

  /** Write(int): the shortest member of the int family that holds `v`. */
  function IntBytes(v: int32): (r: Bytes)
    ensures 1 <= |r| <= 5
  {
    Pow256Values();
    if 0 <= v <= MaxFixPositiveInt then [v]
    else if 0 <= v <= 0xff then [UInt8, v]
    else if 0 <= v <= 0xffff then [UInt16] + BigEndian(v, 2)
    else if 0 <= v then [UInt32] + BigEndian(v, 4)
    else if -32 <= v then [v + 0x100]
    else if -0x80 <= v then [Int8, v + 0x100]
    else if -0x8000 <= v then [Int16] + BigEndian(v + 0x1_0000, 2)
    else [Int32] + BigEndian(v + 0x1_0000_0000, 4)
  }

  /** The header WriteString puts before `count` UTF-8 bytes. */
  function StrHeaderBytes(count: nat): (r: Bytes)
    requires count <= MaxInt32
    ensures 1 <= |r| <= 5
  {
    Pow256Values();
    if count <= 31 then [MinFixStr + count]
    else if count <= 0xff then [Str8, count]
    else if count <= 0xffff then [Str16] + BigEndian(count, 2)
    else [Str32] + BigEndian(count, 4)
  }

  // ---------------------------------------------------------------------------------------
  // Reading (MessagePackReader)

  /** The `n`-byte big-endian payload that follows the type code at `pos`. */
  function Payload(data: Bytes, pos: nat, n: nat): (r: Result<nat, Failure>)
    ensures r.Ok? ==> pos + 1 + n <= |data| && r.value < Pow256(n)
    ensures r.Err? ==> r.error == EndOfStream
  {
    if pos + 1 + n <= |data| then Ok(FromBigEndian(data[pos + 1..pos + 1 + n])) else Err(EndOfStream)
  }

  function UnsignedAt(data: Bytes, pos: nat, n: nat): (r: Result<(int32, nat), Failure>)
    ensures r.Ok? ==> r.value.1 == pos + 1 + n <= |data|
  {
    var u :- Payload(data, pos, n);
    if u <= MaxInt32 then Ok((u, pos + 1 + n)) else Err(Overflow)
  }

  function SignedAt(data: Bytes, pos: nat, n: nat): (r: Result<(int32, nat), Failure>)
    ensures r.Ok? ==> r.value.1 == pos + 1 + n <= |data|
  {
    var u :- Payload(data, pos, n);
    var s := if u >= Pow256(n) / 2 then u - Pow256(n) else u;
    if MinInt32 <= s <= MaxInt32 then Ok((s, pos + 1 + n)) else Err(Overflow)
  }

  /** ReadInt32: the integer at `pos` and the position after it. */
  function ParseInt32(data: Bytes, pos: nat): (r: Result<(int32, nat), Failure>)
    ensures r.Ok? ==> pos < r.value.1 <= |data|
  {
    if pos >= |data| then Err(EndOfStream)
    else
      var c := data[pos];
      if c <= MaxFixPositiveInt then Ok((c, pos + 1))
      else if c >= MinFixNegativeInt then Ok((c - 0x100, pos + 1))
      else if c == UInt8 then UnsignedAt(data, pos, 1)
      else if c == UInt16 then UnsignedAt(data, pos, 2)
      else if c == UInt32 then UnsignedAt(data, pos, 4)
      else if c == UInt64 then UnsignedAt(data, pos, 8)
      else if c == Int8 then SignedAt(data, pos, 1)
      else if c == Int16 then SignedAt(data, pos, 2)
      else if c == Int32 then SignedAt(data, pos, 4)
      else if c == Int64 then SignedAt(data, pos, 8)
      else Err(InvalidCode(c))
  }

  /** ReadArrayHeader: the element count at `pos` and the position of the first element. */
  function ParseArrayHeader(data: Bytes, pos: nat): (r: Result<(nat, nat), Failure>)
    ensures r.Ok? ==> pos < r.value.1 <= |data| && r.value.0 <= MaxInt32
  {
    if pos >= |data| then Err(EndOfStream)
    else
      var c := data[pos];
      if MinFixArray <= c <= MaxFixArray then Ok((c - MinFixArray, pos + 1))
      else if c == Array16 then
        var n :- Payload(data, pos, 2);
        Pow256Values();
        Ok((n, pos + 3))
      else if c == Array32 then
        var n :- Payload(data, pos, 4);
        if n <= MaxInt32 then Ok((n, pos + 5)) else Err(Overflow)
      else Err(InvalidCode(c))
  }

  // ---------------------------------------------------------------------------------------
  // Skipping (MessagePackReader.Skip)

  /**
   * What the first byte of an object says about it: `size` bytes of header and payload,
   * then `children` nested objects (array elements, or map keys and values).
   */
  datatype Head = Head(size: nat, children: nat)

  function Fixed(data: Bytes, pos: nat, size: nat, children: nat): (r: Result<Head, Failure>)
    requires size >= 1
    ensures r.Ok? ==> r.value.size >= 1 && pos + r.value.size <= |data|
  {
    if pos + size <= |data| then Ok(Head(size, children)) else Err(EndOfStream)
  }

  /** A str, bin or ext: a `width`-byte length, `extra` header bytes, then that many bytes. */
  function Sized(data: Bytes, pos: nat, width: nat, extra: nat): (r: Result<Head, Failure>)
    ensures r.Ok? ==> r.value.size >= 1 && pos + r.value.size <= |data|
  {
    var len :- Payload(data, pos, width);
    Fixed(data, pos, 1 + width + extra + len, 0)
  }

  /** An array (`perEntry` 1) or map (`perEntry` 2) with a `width`-byte count. */
  function Counted(data: Bytes, pos: nat, width: nat, perEntry: nat): (r: Result<Head, Failure>)
    ensures r.Ok? ==> r.value.size >= 1 && pos + r.value.size <= |data|
  {
    var count :- Payload(data, pos, width);
    Fixed(data, pos, 1 + width, perEntry * count)
  }

  function HeadAt(data: Bytes, pos: nat): (r: Result<Head, Failure>)
    ensures r.Ok? ==> r.value.size >= 1 && pos + r.value.size <= |data|
  {
    if pos >= |data| then Err(EndOfStream)
    else
      var c := data[pos];
      if c <= MaxFixPositiveInt || c >= MinFixNegativeInt then Fixed(data, pos, 1, 0)
      else if c < MinFixArray then Fixed(data, pos, 1, 2 * (c - MinFixMap))
      else if c <= MaxFixArray then Fixed(data, pos, 1, c - MinFixArray)
      else if c < NilCode then Fixed(data, pos, 1 + (c - MinFixStr), 0)
      else if c == NilCode || c == FalseCode || c == TrueCode then Fixed(data, pos, 1, 0)
      else if c == Bin8 || c == Str8 then Sized(data, pos, 1, 0)
      else if c == Bin16 || c == Str16 then Sized(data, pos, 2, 0)
      else if c == Bin32 || c == Str32 then Sized(data, pos, 4, 0)
      else if c == Ext8 then Sized(data, pos, 1, 1)
      else if c == Ext16 then Sized(data, pos, 2, 1)
      else if c == Ext32 then Sized(data, pos, 4, 1)
      else if c == UInt8 || c == Int8 then Fixed(data, pos, 2, 0)
      else if c == UInt16 || c == Int16 then Fixed(data, pos, 3, 0)
      else if c == Float32 || c == UInt32 || c == Int32 then Fixed(data, pos, 5, 0)
      else if c == Float64 || c == UInt64 || c == Int64 then Fixed(data, pos, 9, 0)
      else if c == FixExt1 then Fixed(data, pos, 3, 0)
      else if c == FixExt2 then Fixed(data, pos, 4, 0)
      else if c == FixExt4 then Fixed(data, pos, 6, 0)
      else if c == FixExt8 then Fixed(data, pos, 10, 0)
      else if c == FixExt16 then Fixed(data, pos, 18, 0)
      else if c == Array16 then Counted(data, pos, 2, 1)
      else if c == Array32 then Counted(data, pos, 4, 1)
      else if c == Map16 then Counted(data, pos, 2, 2)
      else if c == Map32 then Counted(data, pos, 4, 2)
      else Err(InvalidCode(c))  // NeverUsed
  }

  /** Skip: the position just after the whole object (nested ones included) at `pos`. */
  function SkipObject(data: Bytes, pos: nat): (r: Result<nat, Failure>)
    requires pos <= |data|
    ensures r.Ok? ==> pos < r.value <= |data|
    decreases |data| - pos, 0
  {
    var h :- HeadAt(data, pos);
    SkipObjects(data, pos + h.size, h.children)
  }

  /** Skips `n` consecutive objects starting at `pos`. */
  function SkipObjects(data: Bytes, pos: nat, n: nat): (r: Result<nat, Failure>)
    requires pos <= |data|
    ensures r.Ok? ==> pos <= r.value <= |data|
    ensures r.Ok? && n > 0 ==> pos < r.value
    decreases |data| - pos, 1, n
  {
    if n == 0 then Ok(pos)
    else
      var next :- SkipObject(data, pos);
      SkipObjects(data, next, n - 1)
  }

  // ---------------------------------------------------------------------------------------
  // Round trips

  /** A big-endian payload after the type code reads back as the number it encodes. */
  lemma PayloadOf(data: Bytes, pos: nat, u: nat, n: nat)
    requires u < Pow256(n)
    requires IsAt(data, pos + 1, BigEndian(u, n))
    ensures Payload(data, pos, n) == Ok(u)
  {
    IsAtSlice(data, pos + 1, BigEndian(u, n));
    FromBigEndianOf(u, n);
  }

  /** The payload width Write(int) uses for `v` when it needs one. */
  function IntWidth(v: int32): nat
  {
    if 0 <= v then (if v <= 0xff then 1 else if v <= 0xffff then 2 else 4)
    else (if -0x80 <= v then 1 else if -0x8000 <= v then 2 else 4)
  }

  lemma ParseIntBytes(v: int32, data: Bytes, pos: nat)
    requires IsAt(data, pos, IntBytes(v))
    ensures ParseInt32(data, pos) == Ok((v, pos + |IntBytes(v)|))
  {
    Pow256Values();
    var e := IntBytes(v);
    if !(0 <= v <= MaxFixPositiveInt || -32 <= v < 0) {
      var n := IntWidth(v);
      var u := if v >= 0 then v else v + Pow256(n);
      assert e == [e[0]] + BigEndian(u, n);
      IsAtSuffix(data, pos, [e[0]], BigEndian(u, n));
      PayloadOf(data, pos, u, n);
    }
  }

  lemma ParseArrayHeaderBytes(count: nat, data: Bytes, pos: nat)
    requires count <= MaxInt32
    requires IsAt(data, pos, ArrayHeaderBytes(count))
    ensures ParseArrayHeader(data, pos) == Ok((count, pos + |ArrayHeaderBytes(count)|))
  {
    Pow256Values();
    var e := ArrayHeaderBytes(count);
    if count > 15 {
      var n := if count <= 0xffff then 2 else 4;
      assert e == [e[0]] + BigEndian(count, n);
      IsAtSuffix(data, pos, [e[0]], BigEndian(count, n));
      PayloadOf(data, pos, count, n);
    }
  }

  // ---------------------------------------------------------------------------------------
  // Values Skip passes over

  /** A MessagePack object of the kinds the writer produces for plain C# data. */
  datatype Value = Nil | Bool(b: bool) | Int(i: int32) | Str(utf8: Bytes) | Arr(items: seq<Value>)

  /** Values small enough for the writer's headers. */
  predicate Encodable(v: Value)
    decreases v
  {
    match v
    case Str(s) => |s| <= MaxInt32
    case Arr(items) => |items| <= MaxInt32 && forall i :: 0 <= i < |items| ==> Encodable(items[i])
    case _ => true
  }

  function Encode(v: Value): (r: Bytes)
    requires Encodable(v)
    ensures |r| >= 1
    decreases v
  {
    match v
    case Nil => [NilCode]
    case Bool(b) => [if b then TrueCode else FalseCode]
    case Int(i) => IntBytes(i)
    case Str(s) => StrHeaderBytes(|s|) + s
    case Arr(items) => ArrayHeaderBytes(|items|) + EncodeAll(items)
  }

  function EncodeAll(items: seq<Value>): Bytes
    requires forall i :: 0 <= i < |items| ==> Encodable(items[i])
    decreases items
  {
    if items == [] then [] else Encode(items[0]) + EncodeAll(items[1..])
  }

  lemma HeadOfStr(s: Bytes, data: Bytes, pos: nat)
    requires |s| <= MaxInt32
    requires IsAt(data, pos, StrHeaderBytes(|s|) + s)
    ensures HeadAt(data, pos) == Ok(Head(|StrHeaderBytes(|s|)| + |s|, 0))
  {
    Pow256Values();
    var n := |s|;
    var h := StrHeaderBytes(n);
    IsAtSplit(data, pos, h, s);
    IsAtSlice(data, pos + |h|, s);
    if n > 31 {
      var w := if n <= 0xff then 1 else if n <= 0xffff then 2 else 4;
      assert h == [h[0]] + BigEndian(n, w);
      IsAtSuffix(data, pos, [h[0]], BigEndian(n, w));
      PayloadOf(data, pos, n, w);
    }
  }

  lemma HeadOfInt(i: int32, data: Bytes, pos: nat)
    requires IsAt(data, pos, IntBytes(i))
    ensures HeadAt(data, pos) == Ok(Head(|IntBytes(i)|, 0))
  {
    IsAtSlice(data, pos, IntBytes(i));
  }

  lemma HeadOfEncoded(v: Value, data: Bytes, pos: nat)
    requires Encodable(v) && !v.Arr?
    requires IsAt(data, pos, Encode(v))
    ensures HeadAt(data, pos) == Ok(Head(|Encode(v)|, 0))
  {
    if v.Str? {
      HeadOfStr(v.utf8, data, pos);
    } else if v.Int? {
      HeadOfInt(v.i, data, pos);
    }
  }

  lemma HeadOfArray(items: seq<Value>, data: Bytes, pos: nat)
    requires |items| <= MaxInt32
    requires IsAt(data, pos, ArrayHeaderBytes(|items|))
    ensures HeadAt(data, pos) == Ok(Head(|ArrayHeaderBytes(|items|)|, |items|))
  {
    Pow256Values();
    var n := |items|;
    var h := ArrayHeaderBytes(n);
    IsAtSlice(data, pos, h);
    if n > 15 {
      var w := if n <= 0xffff then 2 else 4;
      assert h == [h[0]] + BigEndian(n, w);
      IsAtSuffix(data, pos, [h[0]], BigEndian(n, w));
      PayloadOf(data, pos, n, w);
    }
  }

  lemma SkipFromHead(data: Bytes, pos: nat, h: Head)
    requires pos <= |data| && HeadAt(data, pos) == Ok(h)
    ensures SkipObject(data, pos) == SkipObjects(data, pos + h.size, h.children)
  {
  }

  lemma SkipObjectsStep(data: Bytes, pos: nat, n: nat, next: nat)
    requires pos <= |data| && n > 0
    requires SkipObject(data, pos) == Ok(next)
    ensures SkipObjects(data, pos, n) == SkipObjects(data, next, n - 1)
  {
  }

  /** Skip passes over exactly one encoded value, however deeply it nests. */
  lemma {:induction false} SkipEncoded(v: Value, data: Bytes, pos: nat)
    requires Encodable(v)
    requires IsAt(data, pos, Encode(v))
    ensures SkipObject(data, pos) == Ok(pos + |Encode(v)|)
    decreases v, 1
  {
    if v.Arr? {
      SkipEncodedArray(v, data, pos);
    } else {
      HeadOfEncoded(v, data, pos);
      SkipFromHead(data, pos, Head(|Encode(v)|, 0));
    }
  }

  /** An encoded array is its header followed by its encoded items. */
  lemma ArrayAt(v: Value, data: Bytes, pos: nat)
    requires v.Arr? && Encodable(v)
    requires IsAt(data, pos, Encode(v))
    ensures IsAt(data, pos, ArrayHeaderBytes(|v.items|))
    ensures IsAt(data, pos + |ArrayHeaderBytes(|v.items|)|, EncodeAll(v.items))
    ensures |Encode(v)| == |ArrayHeaderBytes(|v.items|)| + |EncodeAll(v.items)|
  {
    assert Encode(v) == ArrayHeaderBytes(|v.items|) + EncodeAll(v.items);
    IsAtPrefix(data, pos, ArrayHeaderBytes(|v.items|), EncodeAll(v.items));
    IsAtSuffix(data, pos, ArrayHeaderBytes(|v.items|), EncodeAll(v.items));
  }

  lemma {:induction false} SkipEncodedArray(v: Value, data: Bytes, pos: nat)
    requires v.Arr? && Encodable(v)
    requires IsAt(data, pos, Encode(v))
    ensures SkipObject(data, pos) == Ok(pos + |Encode(v)|)
    decreases v, 0
  {
    ArrayAt(v, data, pos);
    HeadOfArray(v.items, data, pos);
    SkipFromHead(data, pos, Head(|ArrayHeaderBytes(|v.items|)|, |v.items|));
    SkipEncodedAll(v.items, data, pos + |ArrayHeaderBytes(|v.items|)|);
  }

  /** A nonempty encoded list is its first encoded item followed by the encoded rest. */
  lemma EncodeAllAt(items: seq<Value>, data: Bytes, pos: nat)
    requires items != [] && forall i :: 0 <= i < |items| ==> Encodable(items[i])
    requires IsAt(data, pos, EncodeAll(items))
    ensures IsAt(data, pos, Encode(items[0]))
    ensures IsAt(data, pos + |Encode(items[0])|, EncodeAll(items[1..]))
    ensures |EncodeAll(items)| == |Encode(items[0])| + |EncodeAll(items[1..])|
  {
    assert EncodeAll(items) == Encode(items[0]) + EncodeAll(items[1..]);
    IsAtPrefix(data, pos, Encode(items[0]), EncodeAll(items[1..]));
    IsAtSuffix(data, pos, Encode(items[0]), EncodeAll(items[1..]));
  }

  lemma {:induction false} SkipEncodedAll(items: seq<Value>, data: Bytes, pos: nat)
    requires forall i :: 0 <= i < |items| ==> Encodable(items[i])
    requires IsAt(data, pos, EncodeAll(items))
    ensures SkipObjects(data, pos, |items|) == Ok(pos + |EncodeAll(items)|)
    decreases items, 2
  {
    if items != [] {
      EncodeAllAt(items, data, pos);
      SkipEncoded(items[0], data, pos);
      SkipObjectsStep(data, pos, |items|, pos + |Encode(items[0])|);
      SkipEncodedAll(items[1..], data, pos + |Encode(items[0])|);
      assert |items[1..]| == |items| - 1;
    }
  }
}