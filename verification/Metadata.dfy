/** Metadata transfer of internal/bt/metadata.go (BEP 9, section "extension message"):
    parsing data messages and assembling pieces that arrive in any order, repeated and
    mixed with anything else. */
module Metadata {
  import opened Bytes
  import opened BencodeSpec
  import opened BencodeLocality
  import opened BencodeCanonical
  import opened Framing
  import opened MetadataRequests
  import Bencode

  const PIECE_SIZE := 16384

  const KEY_TOTAL_SIZE: ByteString :=
    ['t' as byte, 'o' as byte, 't' as byte, 'a' as byte, 'l' as byte, '_' as byte, 's' as byte,
     'i' as byte, 'z' as byte, 'e' as byte]

  datatype Failure = Network(error: NetError) | WriteFailed | NotData | Undecodable(error_: Error) | Panic

  /** A data message: piece index and the raw bytes behind the dictionary. */
  datatype PieceData = PieceData(piece: int64, data: bytes)

  // ---------------------------------------------------------------------
  // Data messages
  // ---------------------------------------------------------------------

  /** One pass over the message: dictionary, then raw data to the end. */
  function PieceOf(data: bytes): Result<PieceData, Failure> {
    match ParseValue(data, 0)
    case Err(e) => Err(Undecodable(e))
    case Ok(p) =>
      if !p.value.Dict? then Err(Undecodable(NotADict))
      else
        var dict := p.value.entries;
        if Bencode.GetInt(dict, KEY_MSG_TYPE) != Some(1) then Err(NotData)
        else
          match Bencode.GetInt(dict, KEY_PIECE)
          case None => Err(NotData)
          case Some(piece) => Ok(PieceData(piece, data[p.end..]))
  }

  /** parseMetadataPiece: decodes once to find the end of the dictionary, and the
      dictionary alone once more. */
  method ParseMetadataPiece(data: bytes) returns (r: Result<PieceData, Failure>)
    ensures r == PieceOf(data)
  {
    hide ParseValue;
    var reader := new Bencode.Reader(data);
    var first := Bencode.DecodeFrom(reader);
    if first.Err? {
      return Err(Undecodable(first.error));
    }
    var dictEnd := |data| - reader.Len();
    DecodeLocal(data, []);
    var dict := Bencode.DecodeDict(data[..dictEnd]);
    if dict.Err? {
      return Err(Undecodable(dict.error));
    }
    var msgType := Bencode.GetInt(dict.value, KEY_MSG_TYPE);
    if msgType.None? || msgType.value != 1 {
      return Err(NotData);
    }
    var piece := Bencode.GetInt(dict.value, KEY_PIECE);
    if piece.None? {
      return Err(NotData);
    }
    return Ok(PieceData(piece.value, data[dictEnd..]));
  }

  /** What a peer sends for a piece. */
  ghost function DataMessage(extMsgID: byte, piece: int64, totalSize: int64, data: bytes): Message {
    ExtMessage(extMsgID, Encoding(DataDict(piece, totalSize)) + data)
  }

  function DataDict(piece: int64, totalSize: int64): Value {
    Dict(map[KEY_MSG_TYPE := Int64(1), KEY_PIECE := Int64(piece), KEY_TOTAL_SIZE := Int64(totalSize)])
  }

  /** The parser finds index and raw data again, even if the data looks like bencode. */
  lemma DataMessageParsed(piece: int64, totalSize: int64, data: bytes)
    ensures PieceOf(Encoding(DataDict(piece, totalSize)) + data) == Ok(PieceData(piece, data))
  {
    hide ParseValue, Encoding;
    var v := DataDict(piece, totalSize);
    DecodeAfterEncode(v, data);
    var whole := Encoding(v) + data;
    assert whole[|Encoding(v)|..] == data;
    assert Normalize(v) == v by {
      assert Normalize(v).entries == v.entries;
    }
  }

  // ---------------------------------------------------------------------
  // Assembly
  // ---------------------------------------------------------------------

  function NumPieces(totalSize: nat): nat {
    (totalSize + PIECE_SIZE - 1) / PIECE_SIZE
  }

  /** copy(metadata[start:], data). */
  function Overlay(metadata: bytes, start: nat, data: bytes): (r: bytes)
    requires start <= |metadata|
    ensures |r| == |metadata|
  {
    var n := Min(|data|, |metadata| - start);
    metadata[..start] + data[..n] + metadata[start + n..]
  }

  /** The buffer and the flags of the pieces received so far. */
  datatype Progress = Progress(metadata: bytes, received: seq<bool>) {
    predicate Valid() { |received| == NumPieces(|metadata|) }
  }

  /** The piece a message delivers, if it is a data message of this extension for a
      piece that is in range. */
  function Delivered(m: Message, msgID: int, numPieces: nat): Option<PieceData> {
    if m.kind != EXTENDED || |m.payload| < 1 || m.payload[0] as int != msgID then None
    else
      match PieceOf(m.payload[1..])
      case Err(_) => None
      case Ok(p) => if 0 <= p.piece < numPieces then Some(p) else None
  }

  /** One turn of the receive loop. */
  function Absorb(p: Progress, m: Message, msgID: int): (p': Progress)
    requires p.Valid()
    ensures p'.Valid() && |p'.metadata| == |p.metadata|
  {
    match Delivered(m, msgID, |p.received|)
    case None => p
    case Some(d) =>
      if p.received[d.piece] then p
      else
        PieceStarts(|p.metadata|, d.piece);
        Progress(Overlay(p.metadata, d.piece * PIECE_SIZE, d.data), p.received[d.piece := true])
  }

  /** Every piece in range starts inside the buffer. */
  lemma PieceStarts(size: nat, piece: nat)
    requires piece < NumPieces(size)
    ensures piece * PIECE_SIZE < size
  {
  }

  predicate Complete(p: Progress) {
    forall i | 0 <= i < |p.received| :: p.received[i]
  }

  /** The receive loop: reads until every piece is there or reading fails. */
  function Collected(input: bytes, pos: nat, msgID: int, p: Progress): Result<bytes, NetError>
    requires pos <= |input| && p.Valid()
    decreases |input| - pos
  {
    if Complete(p) then Ok(p.metadata)
    else
      match MessageAt(input, pos)
      case Err(e) => Err(e)
      case Ok(m) => Collected(input, m.end, msgID, Absorb(p, m.value, msgID))
  }

  function Blank(totalSize: nat): (p: Progress)
    ensures p.Valid() && |p.metadata| == totalSize
  {
    Progress(seq(totalSize, _ => 0), seq(NumPieces(totalSize), _ => false))
  }

  function CountTrue(flags: seq<bool>): (n: nat)
    ensures n <= |flags|
    ensures n == |flags| <==> forall i | 0 <= i < |flags| :: flags[i]
  {
    if flags == [] then 0
    else CountTrue(flags[..|flags| - 1]) + (if flags[|flags| - 1] then 1 else 0)
  }

  lemma {:induction false} CountTrueSet(flags: seq<bool>, i: nat)
    requires i < |flags| && !flags[i]
    ensures CountTrue(flags[i := true]) == CountTrue(flags) + 1
  {
    var n := |flags| - 1;
    if i == n {
      assert flags[i := true][..n] == flags[..n];
      assert CountTrue(flags[i := true]) == CountTrue(flags[..n]) + 1;
    } else {
      CountTrueSet(flags[..n], i);
      assert flags[i := true][..n] == flags[..n][i := true];
    }
  }

  lemma {:induction false} CountTrueBlank(n: nat)
    ensures CountTrue(seq(n, _ => false)) == 0
  {
    if n > 0 {
      CountTrueBlank(n - 1);
      assert seq(n, _ => false)[..n - 1] == seq(n - 1, _ => false);
    }
  }

  /** copy(metadata[start:], data) */
  method CopyInto(metadata: array<byte>, start: nat, data: bytes)
    requires start <= metadata.Length
    modifies metadata
    ensures metadata[..] == Overlay(old(metadata[..]), start, data)
  {
    var n := Min(|data|, metadata.Length - start);
    forall i | 0 <= i < n {
      metadata[start + i] := data[i];
    }
  }

  /** requestMetadataPiece for every piece. */
  method RequestAll(conn: Conn, msgID: int, numPieces: int64) returns (ok: bool)
    requires numPieces >= 0
    modifies conn`output, conn`writesLeft
    ensures ok <==> old(conn.writesLeft) >= numPieces
    ensures conn.output == old(conn.output) + Requests(msgID, Min(numPieces, old(conn.writesLeft)))
    ensures AskedInTurn(conn.output, old(|conn.output|), msgID, 0, Min(numPieces, old(conn.writesLeft)))
  {
    hide Frame, Encoding, AskedInTurn, Request;
    assert conn.output + [] == conn.output;
    NothingAsked(conn.output, msgID);
    for i := 0 to numPieces
      invariant conn.writesLeft + i == old(conn.writesLeft)
      invariant conn.output == old(conn.output) + Requests(msgID, i)
      invariant AskedInTurn(conn.output, old(|conn.output|), msgID, 0, i)
    {
      var before := conn.output;
      ok := SendRequest(conn, msgID, i);
      if !ok {
        return false;
      }
      AskedNext(before, old(|conn.output|), msgID, 0, i);
      assert old(conn.output) + Requests(msgID, i) + Frame(Request(msgID, i))
          == old(conn.output) + (Requests(msgID, i) + Frame(Request(msgID, i)));
    }
    return true;
  }

  /** requestMetadataPiece. */
  method SendRequest(conn: Conn, msgID: int, piece: int64) returns (ok: bool)
    modifies conn`output, conn`writesLeft
    ensures ok <==> old(conn.writesLeft) > 0
    ensures conn.output == if ok then old(conn.output) + Frame(Request(msgID, piece)) else old(conn.output)
    ensures conn.writesLeft == if ok then old(conn.writesLeft) - 1 else 0
  {
    hide Frame, Encoding;
    var payload := Bencode.Encode(RequestDict(piece));
    ok := SendExtMessage(conn, (msgID % 256) as byte, payload.value);
  }

  /** The receive loop, on the buffer and the flags themselves. */
  method ReceivePieces(conn: Conn, msgID: int, metadata: array<byte>, received: array<bool>)
    returns (r: Result<(), NetError>)
    requires conn.Valid() && metadata as object != received
    requires received.Length == NumPieces(metadata.Length)
    requires received[..] == seq(received.Length, _ => false)
    modifies conn`pos, metadata, received
    ensures match Collected(conn.input, old(conn.pos), msgID,
                            Progress(old(metadata[..]), old(received[..])))
            case Ok(m) => r == Ok(()) && metadata[..] == m
            case Err(e) => r == Err(e)
  {
    hide PieceOf;
    var numPieces := received.Length;
    var piecesReceived := 0;
    CountTrueBlank(numPieces);
    while piecesReceived < numPieces
      invariant conn.Valid() && piecesReceived == CountTrue(received[..]) <= numPieces
      invariant Collected(conn.input, conn.pos, msgID, Progress(metadata[..], received[..]))
             == Collected(conn.input, old(conn.pos), msgID, Progress(old(metadata[..]), old(received[..])))
      decreases |conn.input| - conn.pos
    {
      ghost var p := Progress(metadata[..], received[..]);
      assert !Complete(p);
      var m := ReadMessage(conn);
      if m.Err? {
        return Err(m.error);
      }
      if m.value.kind != EXTENDED || |m.value.payload| < 1 {
        continue;
      }
      var extMsgID := m.value.payload[0];
      if extMsgID as int != msgID {
        continue;
      }
      var d := ParseMetadataPiece(m.value.payload[1..]);
      if d.Err? {
        continue;
      }
      var piece := d.value.piece;
      if piece < 0 || piece >= numPieces || received[piece] {
        continue;
      }
      var start := piece * PIECE_SIZE;
      PieceStarts(metadata.Length, piece);
      CountTrueSet(received[..], piece);
      CopyInto(metadata, start, d.value.data);
      received[piece] := true;
      piecesReceived := piecesReceived + 1;
      assert received[..] == p.received[piece := true];
      assert Progress(metadata[..], received[..]) == Absorb(p, m.value, msgID);
    }
    return Ok(());
  }

  /** downloadMetadata: requests everything, then assembles what arrives.  It panics on a
      negative size, which nothing before it excludes. */
  method DownloadMetadata(conn: Conn, msgID: int, totalSize: int64) returns (r: Result<bytes, Failure>)
    requires conn.Valid()
    modifies conn
    ensures r == Err(Panic) <==> totalSize < 0
    ensures totalSize >= 0 ==>
      (r == Err(WriteFailed) <==> old(conn.writesLeft) < NumPieces(totalSize))
    ensures totalSize >= 0 ==>
      AskedInTurn(conn.output, old(|conn.output|), msgID, 0, Min(NumPieces(totalSize), old(conn.writesLeft)))
    ensures totalSize >= 0 && old(conn.writesLeft) >= NumPieces(totalSize) ==>
      && conn.output == old(conn.output) + Requests(msgID, NumPieces(totalSize))
      && match Collected(conn.input, old(conn.pos), msgID, Blank(totalSize))
         case Ok(m) => r == Ok(m)
         case Err(e) => r == Err(Network(e))
  {
    hide Collected, Requests, AskedInTurn;
    if totalSize < 0 {
      return Err(Panic);
    }
    var numPieces := NumPieces(totalSize);
    var metadata := new byte[totalSize](_ => 0);
    var received := new bool[numPieces](_ => false);
    var ok := RequestAll(conn, msgID, numPieces);
    if !ok {
      return Err(WriteFailed);
    }
    assert Progress(metadata[..], received[..]) == Blank(totalSize);
    var done := ReceivePieces(conn, msgID, metadata, received);
    return if done.Ok? then Ok(metadata[..]) else Err(Network(done.error));
  }
}
