/** Reassembly is right whatever the order, repetition and noise of the messages. */
module MetadataLaws {
  import opened Bytes
  import opened BencodeSpec
  import opened BencodeRoundTrip
  import opened BencodeGrammar
  import opened Framing
  import opened MetadataRequests
  import opened Metadata
  import Bencode

  // ---------------------------------------------------------------------
  // What one message does
  // ---------------------------------------------------------------------

  /** So many pieces of 16 KiB, the last of which may be shorter, make up the metadata. */
  lemma PieceCount(size: nat, n: nat)
    ensures n == NumPieces(size) <==> 16384 * (n - 1) < size <= 16384 * n
  {
  }

  /** Behind a spelling of a dictionary with "msg_type" 1 and this "piece" stands the data. */
  ghost predicate IsData(text: bytes, piece: int64, data: bytes) {
    exists end: nat, dict :: IsDataAt(text, piece, data, end, dict)
  }

  ghost predicate IsDataAt(text: bytes, piece: int64, data: bytes, end: nat, dict: map<ByteString, Value>) {
    && end <= |text| && Spells(text[..end], Dict(dict)) && text[end..] == data
    && Bencode.GetInt(dict, Ascii("msg_type")) == Some(1) && Bencode.GetInt(dict, Ascii("piece")) == Some(piece)
  }

  /** A message delivers a piece exactly when it is an extension message with this id whose
      payload is a data message, and the piece is in range; all others are ignored. */
  lemma DeliveredIff(m: Message, msgID: int, numPieces: nat, piece: int64, data: bytes)
    ensures Delivered(m, msgID, numPieces) == Some(PieceData(piece, data)) <==>
            && m.kind == 20 && |m.payload| > 0 && m.payload[0] as int == msgID
            && IsData(m.payload[1..], piece, data) && 0 <= piece < numPieces
  {
    if |m.payload| > 0 {
      hide PieceOf, IsData;
      DataIff(m.payload[1..], piece, data);
    }
  }

  lemma DataIff(text: bytes, piece: int64, data: bytes)
    ensures PieceOf(text) == Ok(PieceData(piece, data)) <==> IsData(text, piece, data)
  {
    RequestKeys();
    hide ParseValue, Spells, Ascii;
    if PieceOf(text) == Ok(PieceData(piece, data)) {
      var p := ParseValue(text, 0).value;
      AcceptsIff(text, 0, p.end, p.value);
      assert text[0..p.end] == text[..p.end];
      assert IsDataAt(text, piece, data, p.end, p.value.entries);
    }
    if end: nat, dict :| IsDataAt(text, piece, data, end, dict) {
      assert text[0..end] == text[..end];
      AcceptsIff(text, 0, end, Dict(dict));
    }
  }

  /** A delivered piece that is new is written from 16384 times its index on, as far as data
      and buffer reach, and its flag is set; nothing else changes. */
  lemma AbsorbEffect(p: Progress, m: Message, msgID: int)
    requires p.Valid()
    ensures var (d, p') := (Delivered(m, msgID, |p.received|), Absorb(p, m, msgID));
            if d == None || p.received[d.value.piece] then p' == p
            else
              && (forall k | 0 <= k < |p.received| :: p'.received[k] == (p.received[k] || k == d.value.piece))
              && forall j | 0 <= j < |p.metadata| ::
                   p'.metadata[j] == var i := j - 16384 * d.value.piece;
                                     if 0 <= i < |d.value.data| then d.value.data[i] else p.metadata[j]
  {
    var d := Delivered(m, msgID, |p.received|);
    assert d.Some? ==> 0 <= d.value.piece < |p.received|;
    hide Delivered, Overlay;
    if d.Some? && !p.received[d.value.piece] {
      PieceStarts(|p.metadata|, d.value.piece);
      forall j | 0 <= j < |p.metadata|
        ensures Absorb(p, m, msgID).metadata[j]
             == var i := j - 16384 * d.value.piece;
                if 0 <= i < |d.value.data| then d.value.data[i] else p.metadata[j]
      {
        OverlayBytes(p.metadata, d.value.piece * PIECE_SIZE, d.value.data, j);
      }
    }
  }

  /** First byte behind piece k. */
  function PieceEnd(size: nat, k: nat): int {
    Min((k + 1) * PIECE_SIZE, size)
  }

  /** `d` brings its whole piece, and whatever it writes into the buffer is right. */
  predicate Faithful(original: bytes, d: PieceData) {
    && 0 <= d.piece < NumPieces(|original|)
    && var start := d.piece * PIECE_SIZE;
    && start + |d.data| >= PieceEnd(|original|, d.piece)
    && forall i | 0 <= i < |d.data| && start + i < |original| :: d.data[i] == original[start + i]
  }

  predicate FaithfulMessage(original: bytes, m: Message, msgID: int) {
    var d := Delivered(m, msgID, NumPieces(|original|));
    d.Some? ==> Faithful(original, d.value)
  }

  /** Received pieces hold their part of the original. */
  predicate Consistent(p: Progress, original: bytes) {
    && p.Valid() && |p.metadata| == |original|
    && forall k, j | 0 <= k < |p.received| && p.received[k]
                     && k * PIECE_SIZE <= j < PieceEnd(|original|, k) :: p.metadata[j] == original[j]
  }

  lemma OverlayBytes(metadata: bytes, start: nat, data: bytes, j: nat)
    requires start <= |metadata| && j < |metadata|
    ensures Overlay(metadata, start, data)[j] ==
            if start <= j < start + |data| then data[j - start] else metadata[j]
  {
  }

  lemma AbsorbConsistent(p: Progress, original: bytes, m: Message, msgID: int)
    requires Consistent(p, original) && FaithfulMessage(original, m, msgID)
    ensures Consistent(Absorb(p, m, msgID), original)
  {
    hide Delivered, Overlay;
    var d := Delivered(m, msgID, |p.received|);
    if d.Some? && !p.received[d.value.piece] {
      var piece := d.value.piece;
      var start := piece * PIECE_SIZE;
      var p' := Absorb(p, m, msgID);
      PieceStarts(|original|, piece);
      forall k, j | 0 <= k < |p'.received| && p'.received[k]
                    && k * PIECE_SIZE <= j < PieceEnd(|original|, k)
        ensures p'.metadata[j] == original[j]
      {
        OverlayBytes(p.metadata, start, d.value.data, j);
        if start <= j < start + |d.value.data| {
          assert d.value.data[j - start] == original[start + (j - start)];
        } else {
          assert k != piece;
          assert p.received[k];
        }
      }
    }
  }

  /** When all pieces are there the buffer is the original. */
  lemma CompleteIsOriginal(p: Progress, original: bytes)
    requires Consistent(p, original) && Complete(p)
    ensures p.metadata == original
  {
    forall j | 0 <= j < |original| ensures p.metadata[j] == original[j] {
      var k := j / PIECE_SIZE;
      assert k < |p.received| && p.received[k];
      assert k * PIECE_SIZE <= j < PieceEnd(|original|, k);
    }
  }

  // ---------------------------------------------------------------------
  // Whatever comes back is the original
  // ---------------------------------------------------------------------

  /** Every message that can be read from `pos` on is faithful. */
  predicate FaithfulStream(original: bytes, input: bytes, pos: nat, msgID: int)
    requires pos <= |input|
    decreases |input| - pos
  {
    match MessageAt(input, pos)
    case Err(_) => true
    case Ok(m) => FaithfulMessage(original, m.value, msgID) && FaithfulStream(original, input, m.end, msgID)
  }

  lemma {:induction false} CollectedIsOriginal(original: bytes, input: bytes, pos: nat, msgID: int, p: Progress)
    requires pos <= |input| && Consistent(p, original) && FaithfulStream(original, input, pos, msgID)
    ensures var r := Collected(input, pos, msgID, p); r.Ok? ==> r.value == original
    decreases |input| - pos
  {
    hide Consistent, Absorb, MessageAt, FaithfulMessage;
    ConsistentValid(p, original);
    if Complete(p) {
      CompleteIsOriginal(p, original);
    } else if MessageAt(input, pos).Ok? {
      var m := MessageAt(input, pos).value;
      AbsorbConsistent(p, original, m.value, msgID);
      CollectedIsOriginal(original, input, m.end, msgID, Absorb(p, m.value, msgID));
    }
  }

  lemma ConsistentValid(p: Progress, original: bytes)
    requires Consistent(p, original)
    ensures p.Valid()
  {
  }

  lemma BlankConsistent(original: bytes)
    ensures Consistent(Blank(|original|), original)
  {
  }

  // ---------------------------------------------------------------------
  // And it does come back once every piece was sent
  // ---------------------------------------------------------------------

  /** A keep-alive or a message, as the peer sends it and as it is read. */
  function Wire(x: Option<Message>): bytes {
    match x
    case None => [0, 0, 0, 0]
    case Some(m) => Frame(m)
  }

  function ReadAs(x: Option<Message>): Message {
    match x
    case None => Message(0, [])
    case Some(m) => m
  }

  function Stream(xs: seq<Option<Message>>): bytes {
    if xs == [] then [] else Wire(xs[0]) + Stream(xs[1..])
  }

  /** Within the size limit, and faithful. */
  predicate Acceptable(original: bytes, x: Option<Message>, msgID: int) {
    && |ReadAs(x).payload| < MAX_MESSAGE
    && FaithfulMessage(original, ReadAs(x), msgID)
  }

  predicate Delivers(x: Option<Message>, msgID: int, numPieces: nat, k: nat) {
    var d := Delivered(ReadAs(x), msgID, numPieces);
    d.Some? && d.value.piece == k
  }

  predicate DeliveredBy(xs: seq<Option<Message>>, msgID: int, numPieces: nat, k: nat) {
    exists i | 0 <= i < |xs| :: Delivers(xs[i], msgID, numPieces, k)
  }

  lemma WireRead(x: Option<Message>, input: bytes, pos: nat)
    requires |ReadAs(x).payload| < MAX_MESSAGE && At(input, pos, Wire(x))
    ensures MessageAt(input, pos) == Ok(Received(ReadAs(x), pos + |Wire(x)|))
  {
    hide MessageAt, Frame;
    if x.None? {
      KeepAlive(input, pos);
    } else {
      FrameRoundTrip(x.value, input, pos);
    }
  }

  /** A message that delivers piece k leaves it received. */
  lemma AbsorbReceives(p: Progress, m: Message, msgID: int, k: nat)
    requires p.Valid() && k < |p.received|
    ensures var p' := Absorb(p, m, msgID);
            p'.received[k] <==> p.received[k] || (var d := Delivered(m, msgID, |p.received|);
                                                   d.Some? && d.value.piece == k)
  {
    hide Delivered, Overlay;
  }

  /** For every size and every stream of keep-alives, foreign messages, rejects, junk and
      faithful pieces, in any order and repeated at will, the original comes back as soon
      as each piece has been delivered at least once. */
  lemma {:induction false} Reassembled(original: bytes, msgID: int, xs: seq<Option<Message>>,
                                       input: bytes, pos: nat, p: Progress)
    requires At(input, pos, Stream(xs)) && Consistent(p, original)
    requires forall i | 0 <= i < |xs| :: Acceptable(original, xs[i], msgID)
    requires forall k | 0 <= k < |p.received| ::
               p.received[k] || DeliveredBy(xs, msgID, |p.received|, k)
    ensures p.Valid() && Collected(input, pos, msgID, p) == Ok(original)
    decreases |xs|
  {
    hide Consistent, Absorb, MessageAt, FaithfulMessage, Wire, DeliveredBy;
    ConsistentValid(p, original);
    if Complete(p) {
      CompleteIsOriginal(p, original);
    } else {
      var missing :| 0 <= missing < |p.received| && !p.received[missing];
      SomethingDelivered(xs, msgID, |p.received|, missing);
      var p' := Absorb(p, ReadAs(xs[0]), msgID);
      AtSplit(input, pos, Wire(xs[0]), Stream(xs[1..]));
      WireRead(xs[0], input, pos);
      assert Acceptable(original, xs[0], msgID);
      AbsorbConsistent(p, original, ReadAs(xs[0]), msgID);
      ConsistentValid(p', original);
      SameCount(p, p', original);
      forall k | 0 <= k < |p'.received|
        ensures p'.received[k] || DeliveredBy(xs[1..], msgID, |p'.received|, k)
      {
        StillDelivered(p, xs, msgID, k);
      }
      Reassembled(original, msgID, xs[1..], input, pos + |Wire(xs[0])|, p');
    }
  }

  lemma SomethingDelivered(xs: seq<Option<Message>>, msgID: int, numPieces: nat, k: nat)
    requires DeliveredBy(xs, msgID, numPieces, k)
    ensures xs != []
  {
  }

  lemma SameCount(p: Progress, p': Progress, original: bytes)
    requires Consistent(p, original) && Consistent(p', original)
    ensures |p.received| == |p'.received|
  {
  }

  lemma StillDelivered(p: Progress, xs: seq<Option<Message>>, msgID: int, k: nat)
    requires p.Valid() && k < |p.received| && xs != []
    requires p.received[k] || DeliveredBy(xs, msgID, |p.received|, k)
    ensures var p' := Absorb(p, ReadAs(xs[0]), msgID);
            |p'.received| == |p.received| && (p'.received[k] || DeliveredBy(xs[1..], msgID, |p.received|, k))
  {
    hide Absorb, Delivered;
    var p' := Absorb(p, ReadAs(xs[0]), msgID);
    AbsorbReceives(p, ReadAs(xs[0]), msgID, k);
    if !p'.received[k] {
      var i :| 0 <= i < |xs| && Delivers(xs[i], msgID, |p.received|, k);
      assert Delivers(xs[1..][i - 1], msgID, |p.received|, k);
    }
  }

  /** The download as a whole, from a fresh buffer. */
  lemma DownloadReassembles(original: bytes, msgID: int, xs: seq<Option<Message>>, tail: bytes)
    requires forall i | 0 <= i < |xs| :: Acceptable(original, xs[i], msgID)
    requires forall k | 0 <= k < NumPieces(|original|) ::
               DeliveredBy(xs, msgID, NumPieces(|original|), k)
    ensures Collected(Stream(xs) + tail, 0, msgID, Blank(|original|)) == Ok(original)
  {
    hide DeliveredBy, Acceptable, Stream, Collected, Consistent;
    BlankConsistent(original);
    Reassembled(original, msgID, xs, Stream(xs) + tail, 0, Blank(|original|));
  }

  function PieceSlice(original: bytes, k: nat): bytes
    requires k < NumPieces(|original|)
  {
    PieceStarts(|original|, k);
    original[k * PIECE_SIZE..PieceEnd(|original|, k)]
  }

  /** A peer that answers with the exact slice is faithful, and delivers its piece. */
  lemma HonestPeer(original: bytes, extMsgID: byte, k: nat)
    requires |original| <= MAX_INT && k < NumPieces(|original|)
    ensures var m := DataMessage(extMsgID, k, |original|, PieceSlice(original, k));
            && FaithfulMessage(original, m, extMsgID as int)
            && Delivers(Some(m), extMsgID as int, NumPieces(|original|), k)
  {
    hide PieceOf, Encoding;
    var data := PieceSlice(original, k);
    var m := DataMessage(extMsgID, k, |original|, data);
    DataMessageParsed(k, |original|, data);
    assert m.payload[1..] == Encoding(DataDict(k, |original|)) + data;
    assert Delivered(m, extMsgID as int, NumPieces(|original|)) == Some(PieceData(k, data));
  }

  // ---------------------------------------------------------------------
  // Where it goes wrong
  // ---------------------------------------------------------------------

  /** Bytes outside piece k are left alone, whatever the buffer held. */
  ghost predicate StaysInPiece(size: nat, k: nat, data: bytes)
    requires k * PIECE_SIZE <= size
  {
    forall m: bytes, j: nat | |m| == size && j < size && !(k * PIECE_SIZE <= j < (k + 1) * PIECE_SIZE) ::
      Overlay(m, k * PIECE_SIZE, data)[j] == m[j]
  }

  /** Storing piece data can damage another piece exactly when it is longer than a piece
      and the piece is not the last: the length of the data is not checked. */
  lemma OverlongDataSpills(size: nat, k: nat, data: bytes)
    requires k < NumPieces(size) && k * PIECE_SIZE <= size
    ensures StaysInPiece(size, k, data) <==> |data| <= PIECE_SIZE || k == NumPieces(size) - 1
  {
    hide Overlay;
    var start, next := k * PIECE_SIZE, (k + 1) * PIECE_SIZE;
    forall m: bytes, j: nat | |m| == size && j < size && !(start <= j < next)
      ensures Overlay(m, start, data)[j] == m[j] || (|data| > PIECE_SIZE && k < NumPieces(size) - 1)
    {
      OverlayBytes(m, start, data, j);
    }
    if |data| > PIECE_SIZE && k < NumPieces(size) - 1 {
      PieceStarts(size, k + 1);
      var other: byte := if data[PIECE_SIZE] == 0 then 1 else 0;
      var m: bytes := seq(size, _ => other);
      OverlayBytes(m, start, data, next);
      assert Overlay(m, start, data)[next] != m[next];
    }
  }
}
