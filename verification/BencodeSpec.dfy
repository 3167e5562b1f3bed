/** Bencode (BEP 3, section "bencoding") as the encoder writes it and the decoder
    reads it: the values of internal/bt/bencode.go and two functions over them. */
module BencodeSpec {
  import opened Bytes
  import opened Decimal
  import opened SortedKeys

  /** What an `interface{}` may hold.  The decoder produces only `Slice`, `Int64`,
      `List` and `Dict`; `Unsupported` stands for every other dynamic type. */
  datatype Value =
    | Text(text: ByteString)
    | Slice(slice: ByteString)
    | Int(int_: int64)
    | Int64(int64_: int64)
    | Uint16(uint16_: uint16)
    | Uint32(uint32_: uint32)
    | List(items: seq<Value>)
    | Dict(entries: map<ByteString, Value>)
    | Unsupported

  datatype Error = UnexpectedEOF | InvalidBencode | BadNumber | NotADict

  /** A decoded value together with the position just after it. */
  datatype Parsed<+T> = Parsed(value: T, end: nat)

  type Outcome<+T> = Result<Parsed<T>, Error>

  const CHAR_I: byte := 'i' as byte
  const CHAR_L: byte := 'l' as byte
  const CHAR_D: byte := 'd' as byte
  const CHAR_E: byte := 'e' as byte
  const COLON: byte := ':' as byte

  // ---------------------------------------------------------------------
  // Encoding
  // ---------------------------------------------------------------------

  predicate Encodable(v: Value) {
    match v
    case Unsupported => false
    case List(items) => forall i | 0 <= i < |items| :: Encodable(items[i])
    case Dict(entries) => forall k | k in entries :: Encodable(entries[k])
    case _ => true
  }

  function EncodingOfString(s: bytes): bytes {
    Digits(|s|) + [COLON] + s
  }

  function EncodingOfInt(n: int): bytes {
    [CHAR_I] + DecimalText(n) + [CHAR_E]
  }

  /** The bytes the encoder writes for `v`: dictionary keys in byte order. */
  ghost function Encoding(v: Value): bytes
    decreases v, 2
  {
    match v
    case Text(s) => EncodingOfString(s)
    case Slice(s) => EncodingOfString(s)
    case Int(n) => EncodingOfInt(n)
    case Int64(n) => EncodingOfInt(n)
    case Uint16(n) => EncodingOfInt(n)
    case Uint32(n) => EncodingOfInt(n)
    case List(items) => [CHAR_L] + EncodingOfItems(items) + [CHAR_E]
    case Dict(entries) => [CHAR_D] + EncodingOfEntries(v, Sorted(entries.Keys)) + [CHAR_E]
    case Unsupported => []
  }

  ghost function EncodingOfItems(items: seq<Value>): bytes
    decreases items
  {
    if items == [] then [] else Encoding(items[0]) + EncodingOfItems(items[1..])
  }

  ghost function EncodingOfEntry(v: Value, key: ByteString): bytes
    requires v.Dict? && key in v.entries
    decreases v, 0
  {
    EncodingOfString(key) + Encoding(v.entries[key])
  }

  ghost function EncodingOfEntries(v: Value, keys: seq<ByteString>): bytes
    requires v.Dict? && forall k | k in keys :: k in v.entries
    decreases v, 1, |keys|
  {
    if keys == [] then [] else EncodingOfEntry(v, keys[0]) + EncodingOfEntries(v, keys[1..])
  }

  /** The value a decoder can hand back: strings as slices, integers as int64. */
  function Normalize(v: Value): Value {
    match v
    case Text(s) => Slice(s)
    case Slice(s) => v
    case Int(n) => Int64(n)
    case Int64(n) => v
    case Uint16(n) => Int64(n)
    case Uint32(n) => Int64(n)
    case List(items) => List(seq(|items|, i requires 0 <= i < |items| => Normalize(items[i])))
    case Dict(entries) => Dict(map k | k in entries :: Normalize(entries[k]))
    case Unsupported => v
  }

  // ---------------------------------------------------------------------
  // Decoding
  // ---------------------------------------------------------------------

  /** Position of the first `b` at or after `pos`. */
  function FindByte(data: bytes, pos: nat, b: byte): (r: Option<nat>)
    requires pos <= |data|
    ensures r.Some? ==> pos <= r.value < |data|
    decreases |data| - pos
  {
    if pos == |data| then None
    else if data[pos] == b then Some(pos)
    else FindByte(data, pos + 1, b)
  }

  /** An integer, `pos` being just after its 'i'. */
  function ParseInteger(data: bytes, pos: nat): (r: Outcome<int64>)
    requires pos <= |data|
    ensures r.Ok? ==> pos < r.value.end <= |data|
  {
    match FindByte(data, pos, CHAR_E)
    case None => Err(UnexpectedEOF)
    case Some(e) =>
      match ParseInt(data[pos..e])
      case None => Err(BadNumber)
      case Some(n) => Ok(Parsed(n, e + 1))
  }

  /** Position of the ':' that ends a run of digits. */
  function LengthEnd(data: bytes, pos: nat): (r: Result<nat, Error>)
    requires pos <= |data|
    ensures r.Ok? ==> pos <= r.value < |data| && data[r.value] == COLON
    ensures r.Ok? ==> AllDigits(data[pos..r.value])
    decreases |data| - pos
  {
    if pos == |data| then Err(UnexpectedEOF)
    else if data[pos] == COLON then Ok(pos)
    else if !IsDigit(data[pos]) then Err(InvalidBencode)
    else
      var r := LengthEnd(data, pos + 1);
      assert r.Ok? ==> data[pos..r.value] == [data[pos]] + data[pos + 1..r.value];
      r
  }

  /** A length-prefixed string.  A length beyond the input is the EOF error. */
  function ParseString(data: bytes, pos: nat): (r: Outcome<ByteString>)
    requires pos <= |data|
    ensures r.Ok? ==> pos < r.value.end <= |data|
  {
    match LengthEnd(data, pos)
    case Err(e) => Err(e)
    case Ok(colon) =>
      match ParseInt(data[pos..colon])
      case None => Err(BadNumber)
      case Some(length) =>
        if colon + 1 + length > |data| then Err(UnexpectedEOF)
        else Ok(Parsed(data[colon + 1..colon + 1 + length], colon + 1 + length))
  }

  function ParseValue(data: bytes, pos: nat): (r: Outcome<Value>)
    requires pos <= |data|
    ensures r.Ok? ==> pos < r.value.end <= |data|
    decreases |data| - pos, 0
  {
    if pos == |data| then Err(UnexpectedEOF)
    else if data[pos] == CHAR_I then
      match ParseInteger(data, pos + 1)
      case Err(e) => Err(e)
      case Ok(p) => Ok(Parsed(Int64(p.value), p.end))
    else if data[pos] == CHAR_L then
      match ParseItems(data, pos + 1)
      case Err(e) => Err(e)
      case Ok(p) => Ok(Parsed(List(p.value), p.end))
    else if data[pos] == CHAR_D then
      match ParseEntries(data, pos + 1, map[])
      case Err(e) => Err(e)
      case Ok(p) => Ok(Parsed(Dict(p.value), p.end))
    else if IsDigit(data[pos]) then
      match ParseString(data, pos)
      case Err(e) => Err(e)
      case Ok(p) => Ok(Parsed(Slice(p.value), p.end))
    else Err(InvalidBencode)
  }

  /** The rest of a list, up to and including its 'e'. */
  function ParseItems(data: bytes, pos: nat): (r: Outcome<seq<Value>>)
    requires pos <= |data|
    ensures r.Ok? ==> pos < r.value.end <= |data|
    decreases |data| - pos, 1
  {
    if pos == |data| then Err(UnexpectedEOF)
    else if data[pos] == CHAR_E then Ok(Parsed([], pos + 1))
    else
      match ParseValue(data, pos)
      case Err(e) => Err(e)
      case Ok(first) =>
        match ParseItems(data, first.end)
        case Err(e) => Err(e)
        case Ok(rest) => Ok(Parsed([first.value] + rest.value, rest.end))
  }

  /** The rest of a dictionary whose entries so far are `dict`.  Keys come in any
      order; a repeated key overwrites. */
  function ParseEntries(data: bytes, pos: nat, dict: map<ByteString, Value>)
    : (r: Outcome<map<ByteString, Value>>)
    requires pos <= |data|
    ensures r.Ok? ==> pos < r.value.end <= |data|
    decreases |data| - pos, 1
  {
    if pos == |data| then Err(UnexpectedEOF)
    else if data[pos] == CHAR_E then Ok(Parsed(dict, pos + 1))
    else
      match ParseString(data, pos)
      case Err(e) => Err(e)
      case Ok(key) =>
        match ParseValue(data, key.end)
        case Err(e) => Err(e)
        case Ok(val) => ParseEntries(data, val.end, dict[key.value := val.value])
  }

  /** Decode: the first value of `data`; anything after it is ignored. */
  function Decoded(data: bytes): Result<Value, Error> {
    match ParseValue(data, 0)
    case Err(e) => Err(e)
    case Ok(p) => Ok(p.value)
  }

  /** DecodeDict: a decoded value that must be a dictionary. */
  function DecodedDict(data: bytes): Result<map<ByteString, Value>, Error> {
    match Decoded(data)
    case Err(e) => Err(e)
    case Ok(v) => if v.Dict? then Ok(v.entries) else Err(NotADict)
  }
}
