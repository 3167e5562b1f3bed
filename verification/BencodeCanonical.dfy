/** One canonical form per value: re-encoding whatever the decoder accepted. */
module BencodeCanonical {
  import opened Bytes
  import opened Decimal
  import opened SortedKeys
  import opened BencodeSpec
  import opened BencodeRoundTrip

  /** `v` is a value the decoder can produce. */
  predicate IsDecoded(v: Value) {
    Encodable(v) && Normalize(v) == v
  }

  predicate AllDecoded(dict: map<ByteString, Value>) {
    forall k | k in dict :: IsDecoded(dict[k])
  }

  /** Length of the canonical body of a dictionary. */
  ghost function BodyLength(dict: map<ByteString, Value>, keys: set<ByteString>): nat
    requires keys <= dict.Keys
  {
    |EncodingOfEntries(Dict(dict), Sorted(keys))|
  }

  lemma {:induction false} EntriesAgree(v: Value, w: Value, keys: seq<ByteString>)
    requires v.Dict? && w.Dict?
    requires forall k | k in keys :: k in v.entries && k in w.entries && v.entries[k] == w.entries[k]
    ensures EncodingOfEntries(v, keys) == EncodingOfEntries(w, keys)
  {
    hide Encoding;
    if keys != [] {
      EntriesAgree(v, w, keys[1..]);
    }
  }

  lemma BodyLengthLeast(dict: map<ByteString, Value>, keys: set<ByteString>, least: ByteString)
    requires keys <= dict.Keys && IsLeast(least, keys)
    ensures BodyLength(dict, keys)
         == |EncodingOfEntry(Dict(dict), least)| + BodyLength(dict, keys - {least})
  {
    hide EncodingOfEntry;
    LeastUnique(least, keys);
    assert Sorted(keys) == [least] + Sorted(keys - {least});
  }

  /** Storing one entry lengthens the body by at most that entry. */
  lemma {:induction false} PutLength(dict: map<ByteString, Value>, k: ByteString, v: Value,
                                     keys: set<ByteString>)
    requires keys <= dict.Keys
    ensures BodyLength(dict[k := v], keys + {k})
         <= BodyLength(dict, keys) + |EncodingOfString(k)| + |Encoding(v)|
    decreases |keys|
  {
    hide Encoding, Sorted, EncodingOfEntries, BodyLength;
    var dict' := dict[k := v];
    LeastExists(keys + {k});
    var least :| IsLeast(least, keys + {k});
    BodyLengthLeast(dict', keys + {k}, least);
    if least == k {
      assert keys + {k} - {k} == keys - {k};
      BodyLengthAgree(dict, dict', keys - {k});
      if k in keys {
        BodyLengthLeast(dict, keys, k);
      } else {
        assert keys - {k} == keys;
      }
    } else {
      assert IsLeast(least, keys);
      BodyLengthLeast(dict, keys, least);
      assert keys + {k} - {least} == keys - {least} + {k};
      PutLength(dict, k, v, keys - {least});
    }
  }

  lemma BodyLengthAgree(dict: map<ByteString, Value>, dict': map<ByteString, Value>,
                        keys: set<ByteString>)
    requires keys <= dict.Keys && keys <= dict'.Keys
    requires forall k | k in keys :: dict[k] == dict'[k]
    ensures BodyLength(dict, keys) == BodyLength(dict', keys)
  {
    EntriesAgree(Dict(dict), Dict(dict'), Sorted(keys));
  }

  lemma IntegerCanonical(data: bytes, pos: nat)
    requires pos < |data| && data[pos] == CHAR_I && ParseValue(data, pos).Ok?
    ensures var p := ParseValue(data, pos).value;
            IsDecoded(p.value) && pos + |Encoding(p.value)| <= p.end
  {
    hide ParseInt;
    var e := FindByte(data, pos + 1, CHAR_E).value;
    DecimalShortest(data[pos + 1..e]);
  }

  lemma StringCanonical(data: bytes, pos: nat)
    requires pos <= |data| && ParseString(data, pos).Ok?
    ensures var p := ParseString(data, pos).value;
            pos + |EncodingOfString(p.value)| <= p.end
  {
    hide ParseInt;
    var colon := LengthEnd(data, pos).value;
    DecimalShortest(data[pos..colon]);
  }

  /** Whatever the decoder accepts, re-encoding succeeds and is never longer than the
      bytes consumed. */
  lemma {:induction false} ValueCanonical(data: bytes, pos: nat)
    requires pos <= |data| && ParseValue(data, pos).Ok?
    ensures var p := ParseValue(data, pos).value;
            IsDecoded(p.value) && pos + |Encoding(p.value)| <= p.end
    decreases |data| - pos, 0
  {
    hide ParseString, ParseItems, ParseEntries;
    if data[pos] == CHAR_I {
      IntegerCanonical(data, pos);
    } else if data[pos] == CHAR_L {
      ItemsCanonical(data, pos + 1);
    } else if data[pos] == CHAR_D {
      EntriesCanonical(data, pos + 1, map[]);
      DictDecoded(ParseEntries(data, pos + 1, map[]).value.value);
    } else {
      StringCanonical(data, pos);
    }
  }

  lemma DictDecoded(dict: map<ByteString, Value>)
    requires AllDecoded(dict)
    ensures IsDecoded(Dict(dict)) && |Encoding(Dict(dict))| == BodyLength(dict, dict.Keys) + 2
    ensures BodyLength(map[], {}) == 0
  {
    assert Normalize(Dict(dict)).entries == dict;
    assert Sorted({}) == [];
  }

  lemma {:induction false} ItemsCanonical(data: bytes, pos: nat)
    requires pos <= |data| && ParseItems(data, pos).Ok?
    ensures var p := ParseItems(data, pos).value;
            IsDecoded(List(p.value)) && pos + |EncodingOfItems(p.value)| + 1 <= p.end
    decreases |data| - pos, 1
  {
    hide ParseValue, Encoding;
    if data[pos] == CHAR_E {
      assert Normalize(List([])).items == [];
    } else {
      ValueCanonical(data, pos);
      var first := ParseValue(data, pos).value;
      ItemsCanonical(data, first.end);
      var rest := ParseItems(data, first.end).value.value;
      ListDecoded(first.value, rest);
    }
  }

  lemma ListDecoded(first: Value, rest: seq<Value>)
    requires IsDecoded(first) && IsDecoded(List(rest))
    ensures IsDecoded(List([first] + rest))
    ensures EncodingOfItems([first] + rest) == Encoding(first) + EncodingOfItems(rest)
  {
    hide Encoding;
    var items := [first] + rest;
    assert items[1..] == rest;
    assert Normalize(List(items)).items == [Normalize(first)] + Normalize(List(rest)).items;
  }

  lemma {:induction false} EntriesCanonical(data: bytes, pos: nat, dict: map<ByteString, Value>)
    requires pos <= |data| && ParseEntries(data, pos, dict).Ok?
    requires AllDecoded(dict)
    ensures var p := ParseEntries(data, pos, dict).value;
            && AllDecoded(p.value)
            && pos + BodyLength(p.value, p.value.Keys) + 1 <= BodyLength(dict, dict.Keys) + p.end
    decreases |data| - pos, 1
  {
    hide ParseValue, ParseString, Encoding, BodyLength, IsDecoded, EncodingOfString;
    if data[pos] != CHAR_E {
      var key := ParseString(data, pos).value;
      var val := ParseValue(data, key.end).value;
      var dict' := dict[key.value := val.value];
      StringCanonical(data, pos);
      ValueCanonical(data, key.end);
      PutLength(dict, key.value, val.value, dict.Keys);
      assert dict.Keys + {key.value} == dict'.Keys;
      EntriesCanonical(data, val.end, dict');
    }
  }

  // ---------------------------------------------------------------------
  // The codec as a whole
  // ---------------------------------------------------------------------

  /** Decode is a left inverse of Encode, with any bytes behind the value. */
  lemma DecodeAfterEncode(v: Value, tail: bytes)
    requires Encodable(v)
    ensures ParseValue(Encoding(v) + tail, 0) == Ok(Parsed(Normalize(v), |Encoding(v)|))
    ensures Decoded(Encoding(v) + tail) == Ok(Normalize(v))
  {
    ValueRoundTrip(v, Encoding(v) + tail, 0);
  }

  /** Encode after Decode is idempotent and never lengthens the input; its result is
      accepted again as the same value. */
  lemma EncodeAfterDecode(data: bytes, tail: bytes)
    requires Decoded(data).Ok?
    ensures var v := Decoded(data).value;
            && Encodable(v)
            && |Encoding(v)| <= ParseValue(data, 0).value.end <= |data|
            && Decoded(Encoding(v) + tail) == Ok(v)
  {
    ValueCanonical(data, 0);
    DecodeAfterEncode(Decoded(data).value, tail);
  }

  /** Two values have the same encoding exactly when they decode alike: the encoding
      is a canonical form. */
  lemma EncodingCanonical(v: Value, w: Value)
    requires Encodable(v) && Encodable(w)
    ensures Encoding(v) == Encoding(w) <==> Normalize(v) == Normalize(w)
  {
    DecodeAfterEncode(v, []);
    DecodeAfterEncode(w, []);
    NormalizeKeepsEncoding(v);
    NormalizeKeepsEncoding(w);
  }

  /** The entries of an encoded dictionary, each key once, stand in the order of the keys'
      bytes; a key that another one continues comes first. */
  lemma DictEncodedInOrder(v: Value) returns (keys: seq<ByteString>)
    requires v.Dict?
    ensures forall k :: k in keys <==> k in v.entries
    ensures forall i, j | 0 <= i < j < |keys| :: Precedes(keys[i], keys[j])
    ensures Encoding(v) == [CHAR_D] + EncodingOfEntries(v, keys) + [CHAR_E]
  {
    keys := Sorted(v.entries.Keys);
    SortedPrecedes(keys);
  }

  /** No encoding is a proper prefix of another. */
  lemma EncodingPrefixFree(v: Value, w: Value, tail: bytes)
    requires Encodable(v) && Encodable(w) && Encoding(w) == Encoding(v) + tail
    ensures tail == []
  {
    DecodeAfterEncode(v, tail);
    DecodeAfterEncode(w, []);
    assert Encoding(w) + [] == Encoding(v) + tail;
  }

  /** What a decoded dictionary holds under the keys of the encoded one. */
  lemma NormalizedDict(v: Value)
    requires v.Dict?
    ensures Normalize(v).Dict? && Normalize(v).entries.Keys == v.entries.Keys
    ensures forall k | k in v.entries :: Normalize(v).entries[k] == Normalize(v.entries[k])
  {
  }

  lemma {:induction false} NormalizeKeepsEncoding(v: Value)
    ensures Encoding(Normalize(v)) == Encoding(v)
    decreases v, 1
  {
    match v
    case List(items) => NormalizeKeepsItems(items);
    case Dict(entries) =>
      assert Normalize(v).entries.Keys == entries.Keys;
      NormalizeKeepsEntries(v, Sorted(entries.Keys));
    case _ =>
  }

  lemma {:induction false} NormalizeKeepsItems(items: seq<Value>)
    ensures EncodingOfItems(Normalize(List(items)).items) == EncodingOfItems(items)
    decreases items
  {
    if items != [] {
      NormalizeKeepsEncoding(items[0]);
      NormalizeKeepsItems(items[1..]);
      assert Normalize(List(items)).items[1..] == Normalize(List(items[1..])).items;
    }
  }

  lemma {:induction false} NormalizeKeepsEntries(v: Value, keys: seq<ByteString>)
    requires v.Dict? && forall k | k in keys :: k in v.entries
    ensures EncodingOfEntries(Normalize(v), keys) == EncodingOfEntries(v, keys)
    decreases v, 0, |keys|
  {
    hide Encoding;
    if keys != [] {
      NormalizeKeepsEncoding(v.entries[keys[0]]);
      NormalizeKeepsEntries(v, keys[1..]);
    }
  }
}
