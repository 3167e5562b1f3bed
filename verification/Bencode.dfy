/** internal/bt/bencode.go: the encoder that writes a buffer, the decoder that advances
    a reader, and the lookups on decoded dictionaries.  Every operation is proved
    against the functions of BencodeSpec. */
module Bencode {
  import opened Bytes
  import opened Decimal
  import opened SortedKeys
  import opened BencodeSpec

  /** bytes.Reader over a fixed slice. */
  class Reader {
    const data: bytes
    var pos: nat

    constructor (data: bytes)
      ensures this.data == data && pos == 0
    {
      this.data := data;
      pos := 0;
    }

    ghost predicate Valid()
      reads this
    {
      pos <= |data|
    }

    /** Number of unread bytes. */
    function Len(): (n: nat)
      requires Valid()
      reads this
      ensures pos + n == |data|
    {
      |data| - pos
    }

    method ReadByte() returns (r: Option<byte>)
      requires Valid()
      modifies this
      ensures Valid()
      ensures old(pos) == |data| ==> r == None && pos == old(pos)
      ensures old(pos) < |data| ==> r == Some(data[old(pos)]) && pos == old(pos) + 1
    {
      if pos == |data| {
        return None;
      }
      r := Some(data[pos]);
      pos := pos + 1;
    }

    method UnreadByte()
      requires Valid() && pos > 0
      modifies this
      ensures Valid() && pos == old(pos) - 1
    {
      pos := pos - 1;
    }

    /** peekByte: the next byte, without advancing. */
    method PeekByte() returns (r: Option<byte>)
      requires Valid()
      modifies this
      ensures Valid() && pos == old(pos)
      ensures r == if pos == |data| then None else Some(data[pos])
    {
      r := ReadByte();
      if r.Some? {
        UnreadByte();
      }
    }

    /** io.ReadFull: exactly `n` bytes or a failure. */
    method ReadFull(n: nat) returns (r: Option<bytes>)
      requires Valid()
      modifies this
      ensures Valid()
      ensures old(pos) + n <= |data| ==> r == Some(data[old(pos)..old(pos) + n]) && pos == old(pos) + n
      ensures old(pos) + n > |data| ==> r == None
    {
      if pos + n > |data| {
        pos := |data|;
        return None;
      }
      r := Some(data[pos..pos + n]);
      pos := pos + n;
    }
  }

  /** bytes.Buffer. */
  class Buffer {
    var data: bytes

    constructor ()
      ensures data == []
    {
      data := [];
    }

    method Write(part: bytes)
      modifies this
      ensures data == old(data) + part
    {
      data := data + part;
    }
  }

  // ---------------------------------------------------------------------
  // Decoding
  // ---------------------------------------------------------------------

  /** Result and reader position agree with a parse of the specification. */
  ghost predicate Follows<T>(r: Reader, res: Result<T, Error>, spec: Outcome<T>)
    reads r
  {
    && r.Valid()
    && match spec
       case Ok(p) => res == Ok(p.value) && r.pos == p.end
       case Err(e) => res == Err(e)
  }

  method DecodeInt(r: Reader) returns (res: Result<int64, Error>)
    requires r.Valid()
    modifies r
    ensures Follows(r, res, ParseInteger(r.data, old(r.pos)))
  {
    ghost var start := r.pos;
    var text: bytes := [];
    while true
      invariant r.Valid() && start <= r.pos && text == r.data[start..r.pos]
      invariant FindByte(r.data, start, CHAR_E) == FindByte(r.data, r.pos, CHAR_E)
      decreases |r.data| - r.pos
    {
      var b := r.ReadByte();
      if b == None {
        return Err(UnexpectedEOF);
      }
      if b.value == CHAR_E {
        break;
      }
      assert r.data[start..r.pos] == r.data[start..r.pos - 1] + [b.value];
      text := text + [b.value];
    }
    var n := ParseInt(text);
    return if n.None? then Err(BadNumber) else Ok(n.value);
  }

  method DecodeString(r: Reader) returns (res: Result<ByteString, Error>)
    requires r.Valid()
    modifies r
    ensures Follows(r, res, ParseString(r.data, old(r.pos)))
  {
    ghost var start := r.pos;
    var text: bytes := [];
    while true
      invariant r.Valid() && start <= r.pos && text == r.data[start..r.pos]
      invariant AllDigits(text)
      invariant LengthEnd(r.data, start) == LengthEnd(r.data, r.pos)
      decreases |r.data| - r.pos
    {
      var b := r.ReadByte();
      if b == None {
        return Err(UnexpectedEOF);
      }
      if b.value == COLON {
        break;
      }
      if !IsDigit(b.value) {
        return Err(InvalidBencode);
      }
      assert r.data[start..r.pos] == r.data[start..r.pos - 1] + [b.value];
      text := text + [b.value];
    }
    var length := ParseInt(text);
    if length.None? {
      return Err(BadNumber);
    }
    var data := r.ReadFull(length.value);
    return if data.None? then Err(UnexpectedEOF) else Ok(data.value);
  }

  /** A list parse whose first items are already in hand. */
  ghost function Prepend(list: seq<Value>, rest: Outcome<seq<Value>>): Outcome<seq<Value>> {
    match rest
    case Err(e) => Err(e)
    case Ok(p) => Ok(Parsed(list + p.value, p.end))
  }

  lemma PrependEmpty(rest: Outcome<seq<Value>>)
    ensures Prepend([], rest) == rest
  {
    assert rest.Ok? ==> [] + rest.value.value == rest.value.value;
  }

  lemma PrependItem(list: seq<Value>, item: Value, rest: Outcome<seq<Value>>)
    ensures Prepend(list, Prepend([item], rest)) == Prepend(list + [item], rest)
  {
    assert rest.Ok? ==> list + ([item] + rest.value.value) == list + [item] + rest.value.value;
  }

  method DecodeList(r: Reader) returns (res: Result<seq<Value>, Error>)
    requires r.Valid()
    modifies r
    ensures Follows(r, res, ParseItems(r.data, old(r.pos)))
    decreases |r.data| - r.pos, 1
  {
    ghost var start := r.pos;
    var list: seq<Value> := [];
    PrependEmpty(ParseItems(r.data, r.pos));
    while true
      invariant r.Valid() && start <= r.pos
      invariant ParseItems(r.data, start) == Prepend(list, ParseItems(r.data, r.pos))
      decreases |r.data| - r.pos
    {
      var b := r.PeekByte();
      if b == None {
        return Err(UnexpectedEOF);
      }
      if b.value == CHAR_E {
        var _ := r.ReadByte();
        assert list + [] == list;
        return Ok(list);
      }
      var item := DecodeFrom(r);
      if item.Err? {
        return Err(item.error);
      }
      PrependItem(list, item.value, ParseItems(r.data, r.pos));
      list := list + [item.value];
    }
  }

  method DecodeDictEntries(r: Reader) returns (res: Result<map<ByteString, Value>, Error>)
    requires r.Valid()
    modifies r
    ensures Follows(r, res, ParseEntries(r.data, old(r.pos), map[]))
    decreases |r.data| - r.pos, 1
  {
    ghost var start := r.pos;
    var dict: map<ByteString, Value> := map[];
    while true
      invariant r.Valid() && start <= r.pos
      invariant ParseEntries(r.data, start, map[]) == ParseEntries(r.data, r.pos, dict)
      decreases |r.data| - r.pos
    {
      var b := r.PeekByte();
      if b == None {
        return Err(UnexpectedEOF);
      }
      if b.value == CHAR_E {
        var _ := r.ReadByte();
        return Ok(dict);
      }
      var key := DecodeString(r);
      if key.Err? {
        return Err(key.error);
      }
      var val := DecodeFrom(r);
      if val.Err? {
        return Err(val.error);
      }
      dict := dict[key.value := val.value];
    }
  }

  /** decode: one value from the reader. */
  method DecodeFrom(r: Reader) returns (res: Result<Value, Error>)
    requires r.Valid()
    modifies r
    ensures Follows(r, res, ParseValue(r.data, old(r.pos)))
    decreases |r.data| - r.pos, 0
  {
    var b := r.ReadByte();
    if b == None {
      return Err(UnexpectedEOF);
    }
    if b.value == CHAR_I {
      var n := DecodeInt(r);
      return if n.Err? then Err(n.error) else Ok(Int64(n.value));
    } else if b.value == CHAR_L {
      var list := DecodeList(r);
      return if list.Err? then Err(list.error) else Ok(List(list.value));
    } else if b.value == CHAR_D {
      var dict := DecodeDictEntries(r);
      return if dict.Err? then Err(dict.error) else Ok(Dict(dict.value));
    } else if IsDigit(b.value) {
      r.UnreadByte();
      var s := DecodeString(r);
      return if s.Err? then Err(s.error) else Ok(Slice(s.value));
    } else {
      return Err(InvalidBencode);
    }
  }

  method Decode(data: bytes) returns (res: Result<Value, Error>)
    ensures res == Decoded(data)
  {
    var r := new Reader(data);
    res := DecodeFrom(r);
  }

  method DecodeDict(data: bytes) returns (res: Result<map<ByteString, Value>, Error>)
    ensures res == DecodedDict(data)
  {
    var val := Decode(data);
    if val.Err? {
      return Err(val.error);
    }
    return if val.value.Dict? then Ok(val.value.entries) else Err(NotADict);
  }

  // ---------------------------------------------------------------------
  // Encoding
  // ---------------------------------------------------------------------

  /** sort.Strings on distinct keys. */
  method SortStrings(keys: seq<ByteString>) returns (sorted: seq<ByteString>)
    requires forall i, j | 0 <= i < j < |keys| :: keys[i] != keys[j]
    ensures StrictlySorted(sorted)
    ensures forall i, j | 0 <= i < j < |sorted| :: Precedes(sorted[i], sorted[j])
    ensures forall k :: k in sorted <==> k in keys
  {
    sorted := [];
    for n := 0 to |keys|
      invariant StrictlySorted(sorted)
      invariant forall k :: k in sorted <==> k in keys[..n]
    {
      assert keys[n] !in keys[..n];
      ghost var before := sorted;
      sorted := InsertSorted(sorted, keys[n]);
      assert keys[..n + 1] == keys[..n] + [keys[n]];
    }
    assert keys[..|keys|] == keys;
    SortedPrecedes(sorted);
  }

  method InsertSorted(keys: seq<ByteString>, key: ByteString) returns (sorted: seq<ByteString>)
    requires StrictlySorted(keys) && key !in keys
    ensures StrictlySorted(sorted)
    ensures forall k :: k in sorted <==> k == key || k in keys
  {
    var i := 0;
    while i < |keys| && Less(keys[i], key)
      invariant i <= |keys|
      invariant forall j | 0 <= j < i :: Less(keys[j], key)
    {
      i := i + 1;
    }
    sorted := keys[..i] + [key] + keys[i..];
    assert keys == keys[..i] + keys[i..];
    forall j | i <= j < |keys| ensures Less(key, keys[j]) {
      LessTotal(key, keys[i]);
      if j > i {
        LessTransitive(key, keys[i], keys[j]);
      }
    }
  }

  /** The keys of a map, in whatever order the map yields them. */
  method MapKeys(entries: map<ByteString, Value>) returns (keys: seq<ByteString>)
    ensures forall k :: k in keys <==> k in entries
    ensures forall i, j | 0 <= i < j < |keys| :: keys[i] != keys[j]
  {
    keys := [];
    var left := entries.Keys;
    while left != {}
      invariant left <= entries.Keys
      invariant forall k :: k in keys <==> k in entries.Keys - left
      invariant forall i, j | 0 <= i < j < |keys| :: keys[i] != keys[j]
      decreases left
    {
      var k: ByteString :| k in left;
      assert k !in keys;
      keys := keys + [k];
      left := left - {k};
    }
  }

  /** The keys of a map in the order the encoder writes them. */
  method KeysInOrder(entries: map<ByteString, Value>) returns (keys: seq<ByteString>)
    ensures keys == Sorted(entries.Keys)
    ensures forall i, j | 0 <= i < j < |keys| :: Precedes(keys[i], keys[j])
  {
    keys := MapKeys(entries);
    keys := SortStrings(keys);
    SortedUnique(keys, entries.Keys);
  }

  /** encode: appends the encoding of `v`, or reports an unsupported type. */
  method EncodeTo(w: Buffer, v: Value) returns (ok: bool)
    modifies w
    ensures ok <==> Encodable(v)
    ensures ok ==> w.data == old(w.data) + Encoding(v)
    decreases v, 1
  {
    match v
    case Text(s) =>
      w.Write(EncodingOfString(s));
      return true;
    case Slice(s) =>
      w.Write(Digits(|s|) + [COLON]);
      w.Write(s);
      return true;
    case Int(n) =>
      w.Write(EncodingOfInt(n));
      return true;
    case Int64(n) =>
      w.Write(EncodingOfInt(n));
      return true;
    case Uint16(n) =>
      w.Write(EncodingOfInt(n));
      return true;
    case Uint32(n) =>
      w.Write(EncodingOfInt(n));
      return true;
    case List(items) =>
      ok := EncodeListTo(w, items);
    case Dict(entries) =>
      ok := EncodeDictTo(w, v);
    case Unsupported =>
      return false;
  }

  /** `written` followed by the encoding of the items from `n` on is `whole`. */
  ghost predicate ItemsLeft(written: bytes, items: seq<Value>, n: nat, whole: bytes) {
    n <= |items| && written + EncodingOfItems(items[n..]) == whole
  }

  lemma ItemsAdvance(written: bytes, items: seq<Value>, n: nat, whole: bytes)
    requires ItemsLeft(written, items, n, whole)
    ensures n < |items| ==> ItemsLeft(written + Encoding(items[n]), items, n + 1, whole)
    ensures n == |items| ==> written == whole
  {
    hide Encoding;
    if n < |items| {
      assert items[n..][1..] == items[n + 1..];
      assert written + (Encoding(items[n]) + EncodingOfItems(items[n + 1..]))
          == written + Encoding(items[n]) + EncodingOfItems(items[n + 1..]);
    }
  }

  method EncodeListTo(w: Buffer, items: seq<Value>) returns (ok: bool)
    modifies w
    ensures ok <==> Encodable(List(items))
    ensures ok ==> w.data == old(w.data) + Encoding(List(items))
    decreases items
  {
    hide EncodingOfItems;
    w.Write([CHAR_L]);
    ghost var whole := w.data + EncodingOfItems(items);
    assert items[0..] == items;
    var n := 0;
    while n < |items|
      invariant n <= |items|
      invariant forall i | 0 <= i < n :: Encodable(items[i])
      invariant ItemsLeft(w.data, items, n, whole)
    {
      ItemsAdvance(w.data, items, n, whole);
      ok := EncodeTo(w, items[n]);
      if !ok {
        return false;
      }
      n := n + 1;
    }
    ItemsAdvance(w.data, items, n, whole);
    w.Write([CHAR_E]);
    return true;
  }

  /** `written` followed by the entries of `v` from the `n`-th key on is `whole`. */
  ghost predicate EntriesLeft(written: bytes, v: Value, keys: seq<ByteString>, n: nat, whole: bytes)
    requires v.Dict? && forall k | k in keys :: k in v.entries
  {
    n <= |keys| && written + EncodingOfEntries(v, keys[n..]) == whole
  }

  lemma EntriesAdvance(written: bytes, v: Value, keys: seq<ByteString>, n: nat, whole: bytes)
    requires v.Dict? && forall k | k in keys :: k in v.entries
    requires EntriesLeft(written, v, keys, n, whole)
    ensures n < |keys| ==>
      EntriesLeft(written + EncodingOfString(keys[n]) + Encoding(v.entries[keys[n]]), v, keys, n + 1, whole)
    ensures n == |keys| ==> written == whole
  {
    hide Encoding, EncodingOfString;
    if n < |keys| {
      assert keys[n..][1..] == keys[n + 1..];
      assert EncodingOfEntries(v, keys[n..])
          == EncodingOfEntry(v, keys[n]) + EncodingOfEntries(v, keys[n + 1..]);
      var key, val, rest := EncodingOfString(keys[n]), Encoding(v.entries[keys[n]]),
                            EncodingOfEntries(v, keys[n + 1..]);
      assert written + ((key + val) + rest) == written + key + val + rest;
    }
  }

  lemma AllEntriesLeft(written: bytes, v: Value, keys: seq<ByteString>)
    requires v.Dict? && forall k | k in keys :: k in v.entries
    ensures EntriesLeft(written, v, keys, 0, written + EncodingOfEntries(v, keys))
  {
    assert keys[0..] == keys;
  }

  lemma DictEncoding(v: Value)
    requires v.Dict?
    ensures Encoding(v) == [CHAR_D] + EncodingOfEntries(v, Sorted(v.entries.Keys)) + [CHAR_E]
  {
  }

  method EncodeDictTo(w: Buffer, v: Value) returns (ok: bool)
    requires v.Dict?
    modifies w
    ensures ok <==> Encodable(v)
    ensures ok ==> w.data == old(w.data) + Encoding(v)
    decreases v, 0
  {
    hide EncodingOfEntries, EncodingOfString, Sorted, StrictlySorted, Precedes, EntriesLeft, Encoding;
    w.Write([CHAR_D]);
    var keys := KeysInOrder(v.entries);
    ghost var whole := w.data + EncodingOfEntries(v, keys);
    AllEntriesLeft(w.data, v, keys);
    DictEncoding(v);
    var n := 0;
    while n < |keys|
      invariant n <= |keys|
      invariant forall i | 0 <= i < n :: Encodable(v.entries[keys[i]])
      invariant EntriesLeft(w.data, v, keys, n, whole)
    {
      EntriesAdvance(w.data, v, keys, n, whole);
      w.Write(EncodingOfString(keys[n]));
      ok := EncodeTo(w, v.entries[keys[n]]);
      if !ok {
        return false;
      }
      n := n + 1;
    }
    EntriesAdvance(w.data, v, keys, n, whole);
    w.Write([CHAR_E]);
    return true;
  }

  method Encode(v: Value) returns (res: Option<bytes>)
    ensures res.Some? <==> Encodable(v)
    ensures res.Some? ==> res.value == Encoding(v)
  {
    var buf := new Buffer();
    var ok := EncodeTo(buf, v);
    return if ok then Some(buf.data) else None;
  }

  // ---------------------------------------------------------------------
  // Lookups
  // ---------------------------------------------------------------------

  /** GetBytes and GetString: a string value under `key`. */
  function GetBytes(dict: map<ByteString, Value>, key: ByteString): Option<ByteString> {
    if key !in dict then None
    else
      match dict[key]
      case Slice(s) => Some(s)
      case Text(s) => Some(s)
      case _ => None
  }

  function GetInt(dict: map<ByteString, Value>, key: ByteString): Option<int64> {
    if key !in dict then None
    else
      match dict[key]
      case Int64(n) => Some(n)
      case Int(n) => Some(n)
      case _ => None
  }

  function GetDict(dict: map<ByteString, Value>, key: ByteString): Option<map<ByteString, Value>> {
    if key in dict && dict[key].Dict? then Some(dict[key].entries) else None
  }

  function GetList(dict: map<ByteString, Value>, key: ByteString): Option<seq<Value>> {
    if key in dict && dict[key].List? then Some(dict[key].items) else None
  }
}
