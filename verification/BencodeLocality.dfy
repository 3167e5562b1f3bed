/** A decode depends on the bytes it consumes and on nothing else. */
module BencodeLocality {
  import opened Bytes
  import opened Decimal
  import opened BencodeSpec

  /** The two inputs agree on their first `n` bytes. */
  predicate Agree(data: bytes, other: bytes, n: nat) {
    n <= |data| && n <= |other| && forall i | 0 <= i < n :: data[i] == other[i]
  }

  lemma {:induction false} FindByteLocal(data: bytes, other: bytes, pos: nat, b: byte)
    requires pos <= |data|
    requires FindByte(data, pos, b).Some? && Agree(data, other, FindByte(data, pos, b).value + 1)
    ensures FindByte(other, pos, b) == FindByte(data, pos, b)
    decreases |data| - pos
  {
    if data[pos] != b {
      FindByteLocal(data, other, pos + 1, b);
    }
  }

  lemma {:induction false} LengthEndLocal(data: bytes, other: bytes, pos: nat)
    requires pos <= |data|
    requires LengthEnd(data, pos).Ok? && Agree(data, other, LengthEnd(data, pos).value + 1)
    ensures LengthEnd(other, pos) == LengthEnd(data, pos)
    decreases |data| - pos
  {
    if data[pos] != COLON {
      LengthEndLocal(data, other, pos + 1);
    }
  }

  lemma IntegerLocal(data: bytes, other: bytes, pos: nat)
    requires pos <= |data|
    requires ParseInteger(data, pos).Ok? && Agree(data, other, ParseInteger(data, pos).value.end)
    ensures ParseInteger(other, pos) == ParseInteger(data, pos)
  {
    hide ParseInt;
    FindByteLocal(data, other, pos, CHAR_E);
    var e := FindByte(data, pos, CHAR_E).value;
    assert data[pos..e] == other[pos..e];
  }

  lemma StringLocal(data: bytes, other: bytes, pos: nat)
    requires pos <= |data|
    requires ParseString(data, pos).Ok? && Agree(data, other, ParseString(data, pos).value.end)
    ensures ParseString(other, pos) == ParseString(data, pos)
  {
    hide ParseInt;
    LengthEndLocal(data, other, pos);
    var colon, end := LengthEnd(data, pos).value, ParseString(data, pos).value.end;
    assert data[pos..colon] == other[pos..colon];
    assert data[colon + 1..end] == other[colon + 1..end];
  }

  /** A successful decode looks at nothing beyond the bytes it consumes. */
  lemma {:induction false} ValueLocal(data: bytes, other: bytes, pos: nat)
    requires pos <= |data|
    requires ParseValue(data, pos).Ok? && Agree(data, other, ParseValue(data, pos).value.end)
    ensures ParseValue(other, pos) == ParseValue(data, pos)
    decreases |data| - pos, 0
  {
    hide ParseInteger, ParseString, ParseItems, ParseEntries;
    if data[pos] == CHAR_I {
      IntegerLocal(data, other, pos + 1);
    } else if data[pos] == CHAR_L {
      ItemsLocal(data, other, pos + 1);
    } else if data[pos] == CHAR_D {
      EntriesLocal(data, other, pos + 1, map[]);
    } else {
      StringLocal(data, other, pos);
    }
  }

  lemma {:induction false} ItemsLocal(data: bytes, other: bytes, pos: nat)
    requires pos <= |data|
    requires ParseItems(data, pos).Ok? && Agree(data, other, ParseItems(data, pos).value.end)
    ensures ParseItems(other, pos) == ParseItems(data, pos)
    decreases |data| - pos, 1
  {
    hide ParseValue;
    if data[pos] != CHAR_E {
      ValueLocal(data, other, pos);
      ItemsLocal(data, other, ParseValue(data, pos).value.end);
    }
  }

  lemma {:induction false} EntriesLocal(data: bytes, other: bytes, pos: nat,
                                        dict: map<ByteString, Value>)
    requires pos <= |data|
    requires ParseEntries(data, pos, dict).Ok?
          && Agree(data, other, ParseEntries(data, pos, dict).value.end)
    ensures ParseEntries(other, pos, dict) == ParseEntries(data, pos, dict)
    decreases |data| - pos, 1
  {
    hide ParseValue, ParseString;
    if data[pos] != CHAR_E {
      var key := ParseString(data, pos).value;
      var val := ParseValue(data, key.end).value;
      var dict' := dict[key.value := val.value];
      assert val.end < ParseEntries(data, val.end, dict').value.end;
      StringLocal(data, other, pos);
      ValueLocal(data, other, key.end);
      EntriesLocal(data, other, val.end, dict');
    }
  }

  // ---------------------------------------------------------------------
  // Prefix-freeness: a truncated value is always the EOF error
  // ---------------------------------------------------------------------

  lemma {:induction false} FindByteTruncated(data: bytes, pos: nat, b: byte, cut: nat)
    requires pos <= cut <= |data|
    requires FindByte(data, pos, b).Some? && cut <= FindByte(data, pos, b).value
    ensures FindByte(data[..cut], pos, b) == None
    decreases |data| - pos
  {
    if pos < cut {
      FindByteTruncated(data, pos + 1, b, cut);
    }
  }

  lemma {:induction false} LengthEndTruncated(data: bytes, pos: nat, cut: nat)
    requires pos <= cut <= |data|
    requires LengthEnd(data, pos).Ok? && cut <= LengthEnd(data, pos).value
    ensures LengthEnd(data[..cut], pos) == Err(UnexpectedEOF)
    decreases |data| - pos
  {
    if pos < cut {
      LengthEndTruncated(data, pos + 1, cut);
    }
  }

  lemma StringTruncated(data: bytes, pos: nat, cut: nat)
    requires pos <= cut <= |data|
    requires ParseString(data, pos).Ok? && cut < ParseString(data, pos).value.end
    ensures ParseString(data[..cut], pos) == Err(UnexpectedEOF)
  {
    hide ParseInt;
    var colon := LengthEnd(data, pos).value;
    if cut <= colon {
      LengthEndTruncated(data, pos, cut);
    } else {
      LengthEndLocal(data, data[..cut], pos);
      assert data[..cut][pos..colon] == data[pos..colon];
    }
  }

  /** Every proper prefix of what a decode consumed fails with UnexpectedEOF. */
  lemma {:induction false} ValueTruncated(data: bytes, pos: nat, cut: nat)
    requires pos <= cut <= |data|
    requires ParseValue(data, pos).Ok? && cut < ParseValue(data, pos).value.end
    ensures ParseValue(data[..cut], pos) == Err(UnexpectedEOF)
    decreases |data| - pos, 0
  {
    hide ParseString, ParseItems, ParseEntries;
    if pos < cut {
      assert data[..cut][pos] == data[pos];
      if data[pos] == CHAR_I {
        FindByteTruncated(data, pos + 1, CHAR_E, cut);
      } else if data[pos] == CHAR_L {
        ItemsTruncated(data, pos + 1, cut);
      } else if data[pos] == CHAR_D {
        EntriesTruncated(data, pos + 1, map[], cut);
      } else {
        StringTruncated(data, pos, cut);
      }
    }
  }

  lemma {:induction false} ItemsTruncated(data: bytes, pos: nat, cut: nat)
    requires pos <= cut <= |data|
    requires ParseItems(data, pos).Ok? && cut < ParseItems(data, pos).value.end
    ensures ParseItems(data[..cut], pos) == Err(UnexpectedEOF)
    decreases |data| - pos, 1
  {
    hide ParseValue;
    if pos < cut {
      assert data[..cut][pos] == data[pos];
      var end := ParseValue(data, pos).value.end;
      if cut < end {
        ValueTruncated(data, pos, cut);
      } else {
        ValueLocal(data, data[..cut], pos);
        ItemsTruncated(data, end, cut);
      }
    }
  }

  lemma {:induction false} EntriesTruncated(data: bytes, pos: nat, dict: map<ByteString, Value>,
                                            cut: nat)
    requires pos <= cut <= |data|
    requires ParseEntries(data, pos, dict).Ok? && cut < ParseEntries(data, pos, dict).value.end
    ensures ParseEntries(data[..cut], pos, dict) == Err(UnexpectedEOF)
    decreases |data| - pos, 1
  {
    hide ParseValue, ParseString;
    if pos < cut {
      assert data[..cut][pos] == data[pos];
      var key := ParseString(data, pos).value;
      var val := ParseValue(data, key.end).value;
      if cut < key.end {
        StringTruncated(data, pos, cut);
      } else if cut < val.end {
        StringLocal(data, data[..cut], pos);
        ValueTruncated(data, key.end, cut);
      } else {
        StringLocal(data, data[..cut], pos);
        ValueLocal(data, data[..cut], key.end);
        EntriesTruncated(data, val.end, dict[key.value := val.value], cut);
      }
    }
  }

  /** Locality of Decode: the bytes consumed decode alone, and with anything behind
      them, to the same value; no shorter prefix decodes at all. */
  lemma DecodeLocal(data: bytes, tail: bytes)
    requires ParseValue(data, 0).Ok?
    ensures var p := ParseValue(data, 0).value;
            && ParseValue(data[..p.end] + tail, 0) == Ok(p)
            && Decoded(data[..p.end]) == Decoded(data)
            && forall cut | 0 <= cut < p.end :: Decoded(data[..cut]) == Err(UnexpectedEOF)
  {
    var end := ParseValue(data, 0).value.end;
    ValueLocal(data, data[..end] + tail, 0);
    ValueLocal(data, data[..end], 0);
    forall cut | 0 <= cut < end ensures Decoded(data[..cut]) == Err(UnexpectedEOF) {
      ValueTruncated(data, 0, cut);
    }
  }
}
