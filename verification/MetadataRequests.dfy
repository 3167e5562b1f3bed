/** The requests of internal/bt/metadata.go (BEP 9, section "extension message"), and what
    their reader sees. */
module MetadataRequests {
  import opened Bytes
  import opened Decimal
  import opened SortedKeys
  import opened BencodeSpec
  import opened BencodeCanonical
  import opened BencodeRoundTrip
  import opened Framing
  import Bencode

  const KEY_MSG_TYPE: ByteString :=
    ['m' as byte, 's' as byte, 'g' as byte, '_' as byte, 't' as byte, 'y' as byte, 'p' as byte, 'e' as byte]
  const KEY_PIECE: ByteString := ['p' as byte, 'i' as byte, 'e' as byte, 'c' as byte, 'e' as byte]

  /** The request for a piece; the peer's id for the extension is cut to a byte. */
  ghost function Request(msgID: int, piece: int64): Message {
    ExtMessage((msgID % 256) as byte, Encoding(RequestDict(piece)))
  }

  function RequestDict(piece: int64): Value {
    Dict(map[KEY_MSG_TYPE := Int64(0), KEY_PIECE := Int64(piece)])
  }

  /** The frames of the requests for the first n pieces. */
  ghost function Requests(msgID: int, n: nat): bytes
    requires n <= MAX_INT
  {
    if n == 0 then [] else Requests(msgID, n - 1) + Frame(Request(msgID, n - 1))
  }

  // ---------------------------------------------------------------------
  // What the reader sees
  // ---------------------------------------------------------------------

  /** A dictionary, with nothing behind it, in an extension message for `msgID` cut to a
      byte: a request for piece i. */
  ghost predicate Asks(m: Message, msgID: int, i: nat) {
    && m.kind == 20 && |m.payload| > 0 && m.payload[0] as int == msgID % 256
    && AsksFor(m.payload[1..], i)
  }

  ghost predicate AsksFor(data: bytes, i: nat) {
    match ParseValue(data, 0)
    case Err(_) => false
    case Ok(p) =>
      && p.end == |data| && p.value.Dict?
      && Bencode.GetInt(p.value.entries, Ascii("msg_type")) == Some(0)
      && Bencode.GetInt(p.value.entries, Ascii("piece")) == Some(i)
  }

  /** Reading from `pos` on gives the requests for the pieces from the first up to the n-th,
      one each, in turn, and then nothing. */
  ghost predicate AskedInTurn(written: bytes, pos: nat, msgID: int, first: nat, n: nat)
    decreases n - first
  {
    if first >= n then pos == |written|
    else
      && pos <= |written| && MessageAt(written, pos).Ok?
      && Asks(MessageAt(written, pos).value.value, msgID, first)
      && AskedInTurn(written, MessageAt(written, pos).value.end, msgID, first + 1, n)
  }

  function Pow10(n: nat): nat {
    if n == 0 then 1 else 10 * Pow10(n - 1)
  }

  lemma {:induction false} DigitsLength(n: nat, k: nat)
    requires n < Pow10(k) && k > 0
    ensures |Digits(n)| <= k
  {
    if n >= 10 {
      DigitsLength(n / 10, k - 1);
    }
  }

  lemma PieceLength(i: int64)
    requires i >= 0
    ensures |DecimalText(i)| <= 19
  {
    assert Pow10(4) == 10000;
    assert Pow10(8) == 10000 * 10000;
    assert Pow10(12) == 10000 * 10000 * 10000;
    assert Pow10(16) == 10000 * 10000 * 10000 * 10000;
    assert Pow10(19) == 10000 * 10000 * 10000 * 10000 * 1000;
    DigitsLength(i, 19);
  }

  lemma RequestKeys()
    ensures KEY_MSG_TYPE == Ascii("msg_type") && KEY_PIECE == Ascii("piece")
    ensures StrictlySorted([KEY_MSG_TYPE, KEY_PIECE])
  {
  }

  lemma KeyLengths()
    ensures |EncodingOfString(KEY_MSG_TYPE)| == 10 && |EncodingOfString(KEY_PIECE)| == 7
  {
    assert |Digits(8)| == 1 && |Digits(5)| == 1;
  }

  lemma RequestLength(i: int64)
    requires i >= 0
    ensures |Encoding(RequestDict(i))| <= 43
  {
    var v := RequestDict(i);
    var keys := [KEY_MSG_TYPE, KEY_PIECE];
    RequestKeys();
    SortedUnique(keys, v.entries.Keys);
    KeyLengths();
    PieceLength(0);
    PieceLength(i);
    assert |DecimalText(0)| == 1;
    hide EncodingOfString, DecimalText, StrictlySorted, Sorted;
    EntryLength(v, KEY_MSG_TYPE, 0);
    EntryLength(v, KEY_PIECE, i);
    hide EncodingOfEntry;
    assert Sorted(v.entries.Keys) == keys;
    assert EncodingOfEntries(v, [KEY_PIECE]) == EncodingOfEntry(v, KEY_PIECE) + EncodingOfEntries(v, []);
    assert keys[0] == KEY_MSG_TYPE && keys[1..] == [KEY_PIECE];
    assert EncodingOfEntries(v, keys) == EncodingOfEntry(v, KEY_MSG_TYPE) + EncodingOfEntries(v, [KEY_PIECE]);
    assert Encoding(v) == [CHAR_D] + EncodingOfEntries(v, keys) + [CHAR_E];
  }

  lemma EntryLength(v: Value, k: ByteString, n: int64)
    requires v.Dict? && k in v.entries && v.entries[k] == Int64(n)
    ensures |EncodingOfEntry(v, k)| == |EncodingOfString(k)| + |DecimalText(n)| + 2
  {
    hide EncodingOfString, DecimalText;
  }

  lemma RequestRead(msgID: int, i: int64)
    requires i >= 0
    ensures Asks(Request(msgID, i), msgID, i)
  {
    hide ParseValue, Encoding, Ascii, AsksFor;
    var data := Encoding(RequestDict(i));
    RequestDecoded(i);
    assert Request(msgID, i).payload[1..] == data;
  }

  lemma RequestNormal(i: int64)
    ensures Encodable(RequestDict(i)) && Normalize(RequestDict(i)) == RequestDict(i)
  {
    assert Normalize(RequestDict(i)).entries == RequestDict(i).entries;
  }

  lemma RequestDecoded(i: int64)
    requires i >= 0
    ensures AsksFor(Encoding(RequestDict(i)), i)
  {
    RequestKeys();
    RequestNormal(i);
    hide ParseValue, Encoding, Ascii, Normalize, Encodable, StrictlySorted;
    var data := Encoding(RequestDict(i));
    DecodeAfterEncode(RequestDict(i), []);
    assert data + [] == data;
  }

  /** What has been read stays the same when more is written. */
  lemma ReadBefore(written: bytes, more: bytes, pos: nat)
    requires pos <= |written| && MessageAt(written, pos).Ok?
    ensures MessageAt(written + more, pos) == MessageAt(written, pos)
  {
    var end := MessageAt(written, pos).value.end;
    assert (written + more)[pos..pos + 4] == written[pos..pos + 4];
    if end > pos + 4 {
      assert (written + more)[pos + 5..end] == written[pos + 5..end];
    }
  }

  lemma NothingAsked(written: bytes, msgID: int)
    ensures AskedInTurn(written, |written|, msgID, 0, 0)
  {
  }

  /** One more request. */
  lemma {:induction false} AskedNext(written: bytes, pos: nat, msgID: int, first: nat, n: int64)
    requires first <= n && AskedInTurn(written, pos, msgID, first, n)
    ensures AskedInTurn(written + Frame(Request(msgID, n)), pos, msgID, first, n + 1)
    decreases n - first
  {
    hide MessageAt, Asks, Frame, Request;
    var frame := Frame(Request(msgID, n));
    if first == n {
      RequestFrame(written, msgID, n);
    } else {
      ReadBefore(written, frame, pos);
      AskedNext(written, MessageAt(written, pos).value.end, msgID, first + 1, n);
    }
  }

  lemma RequestFrame(written: bytes, msgID: int, n: int64)
    requires n >= 0
    ensures var m, after := Request(msgID, n), written + Frame(Request(msgID, n));
            MessageAt(after, |written|) == Ok(Received(m, |after|)) && Asks(m, msgID, n)
  {
    hide MessageAt, Asks, Encoding, Frame;
    var m := Request(msgID, n);
    RequestLength(n);
    RequestRead(msgID, n);
    assert At(written + Frame(m), |written|, Frame(m));
    FrameRoundTrip(m, written + Frame(m), |written|);
  }
}
