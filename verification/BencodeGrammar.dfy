/** What the decoder accepts, as a grammar: BEP 3, section "bencoding", with keys in any
    order and any number of times, and numbers with leading zeros and signs. */
module BencodeGrammar {
  import opened Bytes
  import opened Decimal
  import opened BencodeSpec
  import opened BencodeRoundTrip

  /** A decimal length, a colon and so many bytes. */
  ghost predicate SpellsString(text: bytes, s: ByteString) {
    exists colon: nat :: ColonAt(text, s, colon)
  }

  predicate ColonAt(text: bytes, s: ByteString, colon: nat) {
    && colon < |text| && text[colon] == COLON
    && AllDigits(text[..colon]) && ParseInt(text[..colon]) == Some(|s|)
    && text[colon + 1..] == s
  }

  predicate Framed(text: bytes, open: byte) {
    |text| >= 2 && text[0] == open && text[|text| - 1] == CHAR_E
  }

  function Inside(text: bytes): bytes
    requires |text| >= 2
  {
    text[1..|text| - 1]
  }

  /** `text` is a spelling of the decoded value `v`. */
  ghost predicate Spells(text: bytes, v: Value)
    decreases |text|, 0
  {
    match v
    case Int64(n) => Framed(text, CHAR_I) && ParseInt(Inside(text)) == Some(n)
    case Slice(s) => SpellsString(text, s)
    case List(items) => Framed(text, CHAR_L) && SpellsItems(Inside(text), items)
    case Dict(entries) => Framed(text, CHAR_D) && SpellsEntries(Inside(text), map[], entries)
    case _ => false
  }

  /** The spellings of the items one after the other. */
  ghost predicate SpellsItems(text: bytes, items: seq<Value>)
    decreases |text|, 1
  {
    if items == [] then text == []
    else exists k :: 0 < k <= |text| && Spells(text[..k], items[0]) && SpellsItems(text[k..], items[1..])
  }

  /** Key and value spellings one after the other, which turn `dict` into `entries`: a later
      entry overwrites an earlier one with the same key. */
  ghost predicate SpellsEntries(text: bytes, dict: map<ByteString, Value>, entries: map<ByteString, Value>)
    decreases |text|, 1
  {
    || (text == [] && dict == entries)
    || exists k, l, key: ByteString, val ::
         && 0 < k < l <= |text| && SpellsString(text[..k], key) && Spells(text[k..l], val)
         && SpellsEntries(text[l..], dict[key := val], entries)
  }

  // ---------------------------------------------------------------------
  // Accepted texts are spellings
  // ---------------------------------------------------------------------

  lemma StringSpelled(data: bytes, pos: nat)
    requires pos <= |data| && ParseString(data, pos).Ok?
    ensures var p := ParseString(data, pos).value; SpellsString(data[pos..p.end], p.value)
  {
    var p := ParseString(data, pos).value;
    var text, colon := data[pos..p.end], LengthEnd(data, pos).value - pos;
    assert text[..colon] == data[pos..pos + colon];
    assert ColonAt(text, p.value, colon);
  }

  lemma {:induction false} FindByteAt(data: bytes, pos: nat, b: byte)
    requires pos <= |data| && FindByte(data, pos, b).Some?
    ensures data[FindByte(data, pos, b).value] == b
    decreases |data| - pos
  {
    if data[pos] != b {
      FindByteAt(data, pos + 1, b);
    }
  }

  lemma SubSlice(data: bytes, pos: nat, end: nat, i: nat, j: nat)
    requires pos <= end <= |data| && i <= j <= end - pos
    ensures data[pos..end][i..j] == data[pos + i..pos + j]
  {
    var a, b := data[pos..end][i..j], data[pos + i..pos + j];
    forall k | 0 <= k < |a| ensures a[k] == b[k] {
      assert a[k] == data[pos..end][i + k];
    }
    assert a == b;
  }

  lemma FramedInside(data: bytes, pos: nat, end: nat)
    requires pos + 1 < end <= |data| && data[end - 1] == CHAR_E
    ensures Framed(data[pos..end], data[pos]) && Inside(data[pos..end]) == data[pos + 1..end - 1]
  {
    SubSlice(data, pos, end, 1, end - pos - 1);
  }

  lemma {:induction false} ValueSpelled(data: bytes, pos: nat)
    requires pos <= |data| && ParseValue(data, pos).Ok?
    ensures var p := ParseValue(data, pos).value; Spells(data[pos..p.end], p.value)
    decreases |data| - pos, 0
  {
    hide SpellsString, SpellsItems, SpellsEntries, ParseString, ParseInt;
    var p := ParseValue(data, pos).value;
    if data[pos] == CHAR_I {
      FindByteAt(data, pos + 1, CHAR_E);
      FramedInside(data, pos, p.end);
    } else if data[pos] == CHAR_L {
      ItemsSpelled(data, pos + 1);
      FramedInside(data, pos, p.end);
    } else if data[pos] == CHAR_D {
      EntriesSpelled(data, pos + 1, map[]);
      FramedInside(data, pos, p.end);
    } else {
      StringSpelled(data, pos);
    }
  }

  lemma {:induction false} ItemsSpelled(data: bytes, pos: nat)
    requires pos <= |data| && ParseItems(data, pos).Ok?
    ensures var p := ParseItems(data, pos).value;
            data[p.end - 1] == CHAR_E && SpellsItems(data[pos..p.end - 1], p.value)
    decreases |data| - pos, 1
  {
    hide Spells, ParseValue;
    if data[pos] != CHAR_E {
      var first, p := ParseValue(data, pos).value, ParseItems(data, pos).value;
      ValueSpelled(data, pos);
      ItemsSpelled(data, first.end);
      var text, k := data[pos..p.end - 1], first.end - pos;
      assert text[..k] == data[pos..first.end] && text[k..] == data[first.end..p.end - 1];
      assert p.value[1..] == ParseItems(data, first.end).value.value;
    }
  }

  lemma {:induction false} EntriesSpelled(data: bytes, pos: nat, dict: map<ByteString, Value>)
    requires pos <= |data| && ParseEntries(data, pos, dict).Ok?
    ensures var p := ParseEntries(data, pos, dict).value;
            data[p.end - 1] == CHAR_E && SpellsEntries(data[pos..p.end - 1], dict, p.value)
    decreases |data| - pos, 1
  {
    hide Spells, ParseValue, ParseString, SpellsString;
    var p := ParseEntries(data, pos, dict).value;
    if data[pos] == CHAR_E {
      assert data[pos..p.end - 1] == [];
    } else {
      var key := ParseString(data, pos).value;
      var val := ParseValue(data, key.end).value;
      StringSpelled(data, pos);
      ValueSpelled(data, key.end);
      EntriesSpelled(data, val.end, dict[key.value := val.value]);
      EntryFirst(data, pos, key.end, val.end, p.end - 1, dict, key.value, val.value, p.value);
    }
  }

  lemma EntryFirst(data: bytes, pos: nat, mid: nat, next: nat, end: nat, dict: map<ByteString, Value>,
                   key: ByteString, val: Value, entries: map<ByteString, Value>)
    requires pos < mid < next <= end <= |data|
    requires SpellsString(data[pos..mid], key) && Spells(data[mid..next], val)
    requires SpellsEntries(data[next..end], dict[key := val], entries)
    ensures SpellsEntries(data[pos..end], dict, entries)
  {
    hide SpellsString, Spells;
    var text, k, l := data[pos..end], mid - pos, next - pos;
    SubSlice(data, pos, end, 0, k);
    SubSlice(data, pos, end, k, l);
    SubSlice(data, pos, end, l, end - pos);
    assert text[..k] == text[0..k] && text[l..] == text[l..end - pos];
    assert 0 < k < l <= |text| && SpellsString(text[..k], key) && Spells(text[k..l], val)
        && SpellsEntries(text[l..], dict[key := val], entries);
  }

  // ---------------------------------------------------------------------
  // Spellings are accepted
  // ---------------------------------------------------------------------

  lemma ColonBehindDigits(text: bytes, s: ByteString, colon: nat)
    requires ColonAt(text, s, colon)
    ensures colon > 0
  {
    hide ParseInt;
    NoEmptyNumber();
    assert text[..0] == [];
  }

  lemma SpelledString(data: bytes, pos: nat, end: nat, s: ByteString)
    requires pos <= end <= |data| && SpellsString(data[pos..end], s)
    ensures ParseString(data, pos) == Ok(Parsed(s, end))
    ensures pos < end && IsDigit(data[pos])
  {
    hide ParseInt;
    var text := data[pos..end];
    var colon: nat :| ColonAt(text, s, colon);
    ColonBehindDigits(text, s, colon);
    assert forall i | pos <= i < pos + colon :: data[i] == text[..colon][i - pos];
    LengthEndSkips(data, pos, pos + colon);
    hide LengthEnd;
    SubSlice(data, pos, end, 0, colon);
    SubSlice(data, pos, end, colon + 1, end - pos);
    assert text[..colon] == text[0..colon] && text[colon + 1..] == text[colon + 1..end - pos];
  }

  lemma SpellingStart(text: bytes, v: Value)
    requires Spells(text, v)
    ensures |text| > 0 && text[0] != CHAR_E
  {
    if v.Slice? {
      SpelledString(text, 0, |text|, v.slice) by {
        assert text[0..|text|] == text;
      }
    }
  }

  lemma SpelledInteger(data: bytes, pos: nat, end: nat, n: int64)
    requires pos <= end <= |data| && Spells(data[pos..end], Int64(n))
    ensures ParseValue(data, pos) == Ok(Parsed(Int64(n), end))
  {
    hide ParseInt, ParseInteger;
    SubSlice(data, pos, end, 1, end - pos - 1);
    IntegerParses(data, pos + 1, end - 1, n);
  }

  lemma IntegerParses(data: bytes, pos: nat, end: nat, n: int64)
    requires pos <= end < |data| && data[end] == CHAR_E && ParseInt(data[pos..end]) == Some(n)
    ensures ParseInteger(data, pos) == Ok(Parsed(n, end + 1))
  {
    NoMarkInNumber(data[pos..end]);
    assert forall i | pos <= i < end :: data[i] == data[pos..end][i - pos];
    hide ParseInt;
    FindByteSkips(data, pos, end, CHAR_E);
    hide FindByte;
  }

  lemma NoMarkInNumber(s: bytes)
    requires ParseInt(s).Some?
    ensures forall i | 0 <= i < |s| :: s[i] != CHAR_E
  {
    var digits := if |s| > 0 && (s[0] == PLUS || s[0] == MINUS) then s[1..] else s;
    forall i | 0 <= i < |s| ensures s[i] != CHAR_E {
      if i > 0 {
        assert s[i] == s[1..][i - 1];
      }
    }
  }

  lemma {:induction false} SpelledValue(data: bytes, pos: nat, end: nat, v: Value)
    requires pos <= end <= |data| && Spells(data[pos..end], v)
    ensures ParseValue(data, pos) == Ok(Parsed(v, end))
    decreases end - pos, 0
  {
    hide SpellsString, SpellsItems, SpellsEntries, ParseString, ParseItems, ParseEntries, ParseInteger, ParseInt;
    var text := data[pos..end];
    match v
    case Int64(n) => SpelledInteger(data, pos, end, n);
    case Slice(s) =>
      SpelledString(data, pos, end, s);
    case List(items) =>
      SubSlice(data, pos, end, 1, end - pos - 1);
      SpelledItems(data, pos + 1, end - 1, items);
    case Dict(entries) =>
      SubSlice(data, pos, end, 1, end - pos - 1);
      SpelledEntries(data, pos + 1, end - 1, map[], entries);
    case _ =>
  }

  lemma NoEmptyNumber()
    ensures ParseInt([]) == None
  {
  }

  lemma {:induction false} SpelledItems(data: bytes, pos: nat, end: nat, items: seq<Value>)
    requires pos <= end < |data| && data[end] == CHAR_E && SpellsItems(data[pos..end], items)
    ensures ParseItems(data, pos) == Ok(Parsed(items, end + 1))
    decreases end - pos, 1
  {
    hide Spells, ParseValue;
    var text := data[pos..end];
    if items != [] {
      var k :| 0 < k <= |text| && Spells(text[..k], items[0]) && SpellsItems(text[k..], items[1..]);
      SubSlice(data, pos, end, 0, k);
      SubSlice(data, pos, end, k, end - pos);
      assert text[..k] == text[0..k] && text[k..] == text[k..end - pos];
      SpellingStart(data[pos..pos + k], items[0]);
      SpelledValue(data, pos, pos + k, items[0]);
      SpelledItems(data, pos + k, end, items[1..]);
      hide ParseItems, SpellsItems;
      ItemsStep(data, pos, items[0], pos + k);
      assert items == [items[0]] + items[1..];
    }
  }

  lemma {:induction false} SpelledEntries(data: bytes, pos: nat, end: nat, dict: map<ByteString, Value>,
                                          entries: map<ByteString, Value>)
    requires pos <= end < |data| && data[end] == CHAR_E && SpellsEntries(data[pos..end], dict, entries)
    ensures ParseEntries(data, pos, dict) == Ok(Parsed(entries, end + 1))
    decreases end - pos, 1
  {
    hide Spells, SpellsString, ParseValue, ParseString, ParseInt;
    var text := data[pos..end];
    if text == [] && dict == entries {
      assert pos == end;
    } else {
      var k, l, key: ByteString, val :|
        && 0 < k < l <= |text| && SpellsString(text[..k], key) && Spells(text[k..l], val)
        && SpellsEntries(text[l..], dict[key := val], entries);
      SubSlice(data, pos, end, 0, k);
      SubSlice(data, pos, end, k, l);
      SubSlice(data, pos, end, l, end - pos);
      assert text[..k] == text[0..k] && text[l..] == text[l..end - pos];
      SpelledString(data, pos, pos + k, key);
      SpelledValue(data, pos + k, pos + l, val);
      SpelledEntries(data, pos + l, end, dict[key := val], entries);
      hide ParseEntries, SpellsEntries;
      EntriesStep(data, pos, dict, key, pos + k, val, pos + l);
    }
  }

  // ---------------------------------------------------------------------
  // The decoder accepts exactly the grammar
  // ---------------------------------------------------------------------

  /** Decoding at a position gives a value and stops at `end` exactly when the bytes between
      are a spelling of the value. */
  lemma AcceptsIff(data: bytes, pos: nat, end: nat, v: Value)
    requires pos <= |data|
    ensures ParseValue(data, pos) == Ok(Parsed(v, end)) <==> pos <= end <= |data| && Spells(data[pos..end], v)
  {
    hide Spells, ParseValue;
    if ParseValue(data, pos) == Ok(Parsed(v, end)) {
      ValueSpelled(data, pos);
    }
    if pos <= end <= |data| && Spells(data[pos..end], v) {
      SpelledValue(data, pos, end, v);
    }
  }

  /** The same for strings, as dictionary keys are read. */
  lemma AcceptsStringIff(data: bytes, pos: nat, end: nat, s: ByteString)
    requires pos <= |data|
    ensures ParseString(data, pos) == Ok(Parsed(s, end))
       <==> pos <= end <= |data| && SpellsString(data[pos..end], s)
  {
    hide SpellsString, ParseString;
    if ParseString(data, pos) == Ok(Parsed(s, end)) {
      StringSpelled(data, pos);
    }
    if pos <= end <= |data| && SpellsString(data[pos..end], s) {
      SpelledString(data, pos, end, s);
    }
  }

  /** Decode gives the value of the one prefix that is a spelling, whatever follows it, and
      an error if there is none. */
  lemma DecodesIff(data: bytes, v: Value)
    ensures Decoded(data) == Ok(v) <==> exists end :: 0 <= end <= |data| && Spells(data[..end], v)
  {
    hide Spells, ParseValue;
    if Decoded(data) == Ok(v) {
      AcceptsIff(data, 0, ParseValue(data, 0).value.end, v);
      assert data[..ParseValue(data, 0).value.end] == data[0..ParseValue(data, 0).value.end];
    }
    if end :| 0 <= end <= |data| && Spells(data[..end], v) {
      assert data[..end] == data[0..end];
      AcceptsIff(data, 0, end, v);
    }
  }

  /** Integers are read from every spelling of theirs, anywhere. */
  lemma IntegerSpellings(data: bytes, pos: nat, text: bytes, n: int64, zeros: nat)
    requires SpellsNumber(text, n, zeros) && At(data, pos, [CHAR_I] + text + [CHAR_E])
    ensures ParseValue(data, pos) == Ok(Parsed(Int64(n), pos + |text| + 2))
  {
    hide ParseValue, SpellsNumber;
    ParseIntIff(text, n);
    hide ParseInt;
    AtSlice(data, pos, [CHAR_I] + text + [CHAR_E]);
    var whole := [CHAR_I] + text + [CHAR_E];
    assert Inside(whole) == text;
    AcceptsIff(data, pos, pos + |text| + 2, Int64(n));
  }

  /** Strings are read behind lengths with leading zeros, anywhere. */
  lemma StringSpellings(data: bytes, pos: nat, s: ByteString, zeros: nat)
    requires At(data, pos, Zeros(zeros) + Digits(|s|) + [COLON] + s)
    ensures ParseString(data, pos) == Ok(Parsed(s, pos + zeros + |Digits(|s|)| + 1 + |s|))
    ensures ParseValue(data, pos) == Ok(Parsed(Slice(s), pos + zeros + |Digits(|s|)| + 1 + |s|))
  {
    hide ParseValue, ParseString, ColonAt;
    var length := Zeros(zeros) + Digits(|s|);
    var whole := length + [COLON] + s;
    assert |Zeros(zeros)| == zeros;
    hide Zeros, Digits;
    PaddedLength(s, zeros);
    AtSlice(data, pos, whole);
    AcceptsStringIff(data, pos, pos + |whole|, s);
    AcceptsIff(data, pos, pos + |whole|, Slice(s));
  }

  lemma PaddedLength(s: ByteString, zeros: nat)
    ensures ColonAt(Zeros(zeros) + Digits(|s|) + [COLON] + s, s, |Zeros(zeros) + Digits(|s|)|)
  {
    LiberalSpellings(|s|, zeros);
    hide ParseInt, Digits, Zeros;
    var length := Zeros(zeros) + Digits(|s|);
    var whole := length + [COLON] + s;
    assert AllDigits(length) && whole[..|length|] == length && whole[|length| + 1..] == s;
  }
}
