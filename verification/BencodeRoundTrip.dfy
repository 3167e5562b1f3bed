/** Decoding what the encoder wrote gives the value back and stops at its end. */
module BencodeRoundTrip {
  import opened Bytes
  import opened Decimal
  import opened SortedKeys
  import opened BencodeSpec

  /** `part` occurs in `data` at `pos`. */
  predicate At(data: bytes, pos: nat, part: bytes) {
    pos + |part| <= |data| && forall i | 0 <= i < |part| :: data[pos + i] == part[i]
  }

  lemma AtSplit(data: bytes, pos: nat, a: bytes, b: bytes)
    requires At(data, pos, a + b)
    ensures At(data, pos, a) && At(data, pos + |a|, b)
  {
    forall i | 0 <= i < |a| ensures data[pos + i] == a[i] {
      assert (a + b)[i] == a[i];
    }
    forall i | 0 <= i < |b| ensures data[pos + |a| + i] == b[i] {
      assert (a + b)[|a| + i] == b[i];
    }
  }

  lemma AtFirstByte(data: bytes, pos: nat, part: bytes)
    requires At(data, pos, part) && |part| > 0
    ensures pos < |data| && data[pos] == part[0]
  {
    assert data[pos + 0] == part[0];
  }

  /** A leading tag byte, a body and the closing 'e'. */
  lemma AtTagged(data: bytes, pos: nat, tag: byte, body: bytes)
    requires At(data, pos, [tag] + body + [CHAR_E])
    ensures pos < |data| && data[pos] == tag
    ensures At(data, pos + 1, body + [CHAR_E])
    ensures At(data, pos + 1, body)
    ensures pos + 1 + |body| < |data| && data[pos + 1 + |body|] == CHAR_E
  {
    var rest := body + [CHAR_E];
    assert [tag] + body + [CHAR_E] == [tag] + rest;
    AtSplit(data, pos, [tag], rest);
    AtSplit(data, pos + 1, body, [CHAR_E]);
    assert data[pos + 0] == [tag][0];
    assert data[pos + 1 + |body| + 0] == [CHAR_E][0];
  }

  lemma {:induction false} FindByteSkips(data: bytes, pos: nat, e: nat, b: byte)
    requires pos <= e < |data| && data[e] == b
    requires forall i | pos <= i < e :: data[i] != b
    ensures FindByte(data, pos, b) == Some(e)
    decreases e - pos
  {
    if pos < e {
      FindByteSkips(data, pos + 1, e, b);
    }
  }

  lemma {:induction false} LengthEndSkips(data: bytes, pos: nat, e: nat)
    requires pos <= e < |data| && data[e] == COLON
    requires forall i | pos <= i < e :: IsDigit(data[i])
    ensures LengthEnd(data, pos) == Ok(e)
    decreases e - pos
  {
    if pos < e {
      LengthEndSkips(data, pos + 1, e);
    }
  }

  lemma NoTagInDecimal(n: int)
    ensures forall i | 0 <= i < |DecimalText(n)| :: DecimalText(n)[i] != CHAR_E
  {
  }

  lemma IntegerRoundTrip(n: int64, data: bytes, pos: nat)
    requires At(data, pos, EncodingOfInt(n))
    ensures ParseValue(data, pos) == Ok(Parsed(Int64(n), pos + |EncodingOfInt(n)|))
  {
    hide ParseInt, DecimalText, FindByte;
    var text := DecimalText(n);
    NoTagInDecimal(n);
    AtTagged(data, pos, CHAR_I, text);
    var e := pos + 1 + |text|;
    assert data[pos + 1..e] == text;
    forall i | pos + 1 <= i < e ensures data[i] != CHAR_E {
      assert data[pos + 1 + (i - pos - 1)] == text[i - pos - 1];
    }
    FindByteSkips(data, pos + 1, e, CHAR_E);
    ParseIntOfDecimal(n);
  }

  lemma AtSlice(data: bytes, pos: nat, part: bytes)
    requires At(data, pos, part)
    ensures data[pos..pos + |part|] == part
  {
  }

  lemma LengthRoundTrip(digits: bytes, data: bytes, pos: nat)
    requires AllDigits(digits) && At(data, pos, digits + [COLON])
    ensures LengthEnd(data, pos) == Ok(pos + |digits|)
    ensures data[pos..pos + |digits|] == digits
  {
    AtSplit(data, pos, digits, [COLON]);
    AtSlice(data, pos, digits);
    var colon := pos + |digits|;
    assert data[colon + 0] == [COLON][0];
    forall i | pos <= i < colon ensures IsDigit(data[i]) {
      assert data[pos + (i - pos)] == digits[i - pos];
    }
    LengthEndSkips(data, pos, colon);
  }

  lemma StringRoundTrip(s: ByteString, data: bytes, pos: nat)
    requires At(data, pos, EncodingOfString(s))
    ensures ParseString(data, pos) == Ok(Parsed(s, pos + |EncodingOfString(s)|))
  {
    hide Digits, ParseInt, LengthEnd, At;
    var digits := Digits(|s|);
    AtSplit(data, pos, digits + [COLON], s);
    LengthRoundTrip(digits, data, pos);
    AtSlice(data, pos + |digits| + 1, s);
    ParseIntOfDigits(|s|);
  }

  lemma SliceRoundTrip(s: ByteString, data: bytes, pos: nat)
    requires At(data, pos, EncodingOfString(s))
    ensures ParseValue(data, pos) == Ok(Parsed(Slice(s), pos + |EncodingOfString(s)|))
  {
    StringRoundTrip(s, data, pos);
    AtFirstByte(data, pos, EncodingOfString(s));
    assert IsDigit(Digits(|s|)[0]);
  }

  lemma EncodingStart(v: Value)
    requires Encodable(v)
    ensures |Encoding(v)| > 0 && Encoding(v)[0] != CHAR_E
  {
    if v.Text? {
      assert IsDigit(Digits(|v.text|)[0]);
    } else if v.Slice? {
      assert IsDigit(Digits(|v.slice|)[0]);
    }
  }

  lemma ScalarRoundTrip(v: Value, data: bytes, pos: nat)
    requires Encodable(v) && !v.List? && !v.Dict? && At(data, pos, Encoding(v))
    ensures ParseValue(data, pos) == Ok(Parsed(Normalize(v), pos + |Encoding(v)|))
  {
    hide ParseValue;
    match v
    case Text(s) => SliceRoundTrip(s, data, pos);
    case Slice(s) => SliceRoundTrip(s, data, pos);
    case Int(n) => IntegerRoundTrip(n, data, pos);
    case Int64(n) => IntegerRoundTrip(n, data, pos);
    case Uint16(n) => IntegerRoundTrip(n, data, pos);
    case Uint32(n) => IntegerRoundTrip(n, data, pos);
  }

  // One unfolding of the parser each, so that the proofs by induction stay small.

  lemma ListFrame(data: bytes, pos: nat, items: seq<Value>, end: nat)
    requires pos < |data| && data[pos] == CHAR_L
    requires ParseItems(data, pos + 1) == Ok(Parsed(items, end))
    ensures ParseValue(data, pos) == Ok(Parsed(List(items), end))
  {
  }

  lemma DictFrame(data: bytes, pos: nat, dict: map<ByteString, Value>, end: nat)
    requires pos < |data| && data[pos] == CHAR_D
    requires ParseEntries(data, pos + 1, map[]) == Ok(Parsed(dict, end))
    ensures ParseValue(data, pos) == Ok(Parsed(Dict(dict), end))
  {
  }

  lemma ItemsStep(data: bytes, pos: nat, first: Value, mid: nat)
    requires pos < |data| && data[pos] != CHAR_E
    requires ParseValue(data, pos) == Ok(Parsed(first, mid))
    ensures ParseItems(data, pos) ==
            match ParseItems(data, mid)
            case Err(e) => Err(e)
            case Ok(rest) => Ok(Parsed([first] + rest.value, rest.end))
  {
  }

  lemma EntriesStep(data: bytes, pos: nat, dict: map<ByteString, Value>, key: ByteString,
                    mid: nat, val: Value, next: nat)
    requires pos < |data| && data[pos] != CHAR_E
    requires ParseString(data, pos) == Ok(Parsed(key, mid))
    requires ParseValue(data, mid) == Ok(Parsed(val, next))
    ensures ParseEntries(data, pos, dict) == ParseEntries(data, next, dict[key := val])
  {
  }

  /** Decoding at an encoded value returns that value, strings as slices and
      integers as int64, and stops exactly at its end, whatever follows. */
  lemma {:induction false} ValueRoundTrip(v: Value, data: bytes, pos: nat)
    requires Encodable(v) && At(data, pos, Encoding(v))
    ensures ParseValue(data, pos) == Ok(Parsed(Normalize(v), pos + |Encoding(v)|))
    decreases v, 3
  {
    hide ParseValue, Encoding;
    match v
    case List(items) => ListRoundTrip(v, data, pos);
    case Dict(entries) => DictRoundTrip(v, data, pos);
    case _ => ScalarRoundTrip(v, data, pos);
  }

  lemma {:induction false} ListRoundTrip(v: Value, data: bytes, pos: nat)
    requires v.List? && Encodable(v) && At(data, pos, Encoding(v))
    ensures ParseValue(data, pos) == Ok(Parsed(Normalize(v), pos + |Encoding(v)|))
    decreases v, 2
  {
    hide ParseValue, ParseItems, At, EncodingOfItems;
    AtTagged(data, pos, CHAR_L, EncodingOfItems(v.items));
    ItemsRoundTrip(v.items, data, pos + 1);
    ListFrame(data, pos, Normalize(v).items, pos + |Encoding(v)|);
  }

  lemma {:induction false} DictRoundTrip(v: Value, data: bytes, pos: nat)
    requires v.Dict? && Encodable(v) && At(data, pos, Encoding(v))
    ensures ParseValue(data, pos) == Ok(Parsed(Normalize(v), pos + |Encoding(v)|))
    decreases v, 2
  {
    hide ParseValue, ParseEntries, At, EncodingOfEntries, Sorted;
    var keys := Sorted(v.entries.Keys);
    AtTagged(data, pos, CHAR_D, EncodingOfEntries(v, keys));
    EntriesRoundTrip(v, keys, data, pos + 1, map[]);
    assert Normalize(v).entries == map[] + NormalizedOn(v, keys);
    DictFrame(data, pos, Normalize(v).entries, pos + |Encoding(v)|);
  }

  lemma {:induction false} ItemsRoundTrip(items: seq<Value>, data: bytes, pos: nat)
    requires forall i | 0 <= i < |items| :: Encodable(items[i])
    requires At(data, pos, EncodingOfItems(items) + [CHAR_E])
    ensures ParseItems(data, pos)
         == Ok(Parsed(Normalize(List(items)).items, pos + |EncodingOfItems(items)| + 1))
    decreases items
  {
    hide ParseValue, ParseString, Encoding, Encodable, At;
    if items == [] {
      AtFirstByte(data, pos, EncodingOfItems(items) + [CHAR_E]);
    } else {
      var first, rest := Encoding(items[0]), EncodingOfItems(items[1..]);
      assert EncodingOfItems(items) + [CHAR_E] == first + (rest + [CHAR_E]);
      AtSplit(data, pos, first, rest + [CHAR_E]);
      EncodingStart(items[0]);
      AtFirstByte(data, pos, first);
      ValueRoundTrip(items[0], data, pos);
      ItemsStep(data, pos, Normalize(items[0]), pos + |first|);
      ItemsRoundTrip(items[1..], data, pos + |first|);
      assert Normalize(List(items)).items
          == [Normalize(items[0])] + Normalize(List(items[1..])).items;
    }
  }

  ghost function NormalizedOn(v: Value, keys: seq<ByteString>): map<ByteString, Value>
    requires v.Dict? && forall k | k in keys :: k in v.entries
  {
    map k | k in keys :: Normalize(v.entries[k])
  }

  /** The key of the first entry is read back, and the rest lies behind it. */
  lemma EntryRoundTrip(v: Value, keys: seq<ByteString>, data: bytes, pos: nat)
    requires v.Dict? && keys != [] && forall k | k in keys :: k in v.entries
    requires At(data, pos, EncodingOfEntries(v, keys) + [CHAR_E])
    ensures var mid := pos + |EncodingOfString(keys[0])|;
            var next := mid + |Encoding(v.entries[keys[0]])|;
            && data[pos] != CHAR_E
            && ParseString(data, pos) == Ok(Parsed(keys[0], mid))
            && At(data, mid, Encoding(v.entries[keys[0]]))
            && At(data, next, EncodingOfEntries(v, keys[1..]) + [CHAR_E])
  {
    hide ParseString, Encoding;
    var key, val := EncodingOfString(keys[0]), Encoding(v.entries[keys[0]]);
    var rest := EncodingOfEntries(v, keys[1..]);
    assert EncodingOfEntries(v, keys) + [CHAR_E] == key + (val + (rest + [CHAR_E]));
    AtSplit(data, pos, key, val + (rest + [CHAR_E]));
    AtSplit(data, pos + |key|, val, rest + [CHAR_E]);
    StringRoundTrip(keys[0], data, pos);
    AtFirstByte(data, pos, key);
    assert IsDigit(Digits(|keys[0]|)[0]);
  }

  lemma NormalizedFirst(v: Value, keys: seq<ByteString>, dict: map<ByteString, Value>)
    requires v.Dict? && keys != [] && forall k | k in keys :: k in v.entries
    ensures dict[keys[0] := Normalize(v.entries[keys[0]])] + NormalizedOn(v, keys[1..]) == dict + NormalizedOn(v, keys)
    ensures |EncodingOfEntries(v, keys)| == |EncodingOfString(keys[0])| + |Encoding(v.entries[keys[0]])|
                                            + |EncodingOfEntries(v, keys[1..])|
  {
    hide Normalize, Encoding, EncodingOfString;
  }

  lemma {:induction false} EntriesRoundTrip(v: Value, keys: seq<ByteString>, data: bytes,
                                            pos: nat, dict: map<ByteString, Value>)
    requires v.Dict? && Encodable(v) && forall k | k in keys :: k in v.entries
    requires At(data, pos, EncodingOfEntries(v, keys) + [CHAR_E])
    ensures ParseEntries(data, pos, dict)
         == Ok(Parsed(dict + NormalizedOn(v, keys), pos + |EncodingOfEntries(v, keys)| + 1))
    decreases v, 1, |keys|
  {
    hide ParseValue, ParseString, Normalize, Encoding, EncodingOfString, At;
    if keys == [] {
      AtFirstByte(data, pos, EncodingOfEntries(v, keys) + [CHAR_E]);
      assert dict + NormalizedOn(v, keys) == dict;
    } else {
      var key, val := keys[0], v.entries[keys[0]];
      EntryRoundTrip(v, keys, data, pos);
      var mid := pos + |EncodingOfString(key)|;
      var next := mid + |Encoding(val)|;
      ValueRoundTrip(val, data, mid);
      EntriesStep(data, pos, dict, key, mid, Normalize(val), next);
      EntriesRoundTrip(v, keys[1..], data, next, dict[key := Normalize(val)]);
      NormalizedFirst(v, keys, dict);
    }
  }
}
