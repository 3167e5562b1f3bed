/** Peer-wire framing of internal/bt/metadata.go over an abstract connection: the bytes
    the peer will send, and the writes it will accept. */
module Framing {
  import opened Bytes
  import opened BencodeRoundTrip

  const EXTENDED: byte := 20
  const MAX_MESSAGE := 10 * 1024 * 1024

  datatype NetError = ConnectionLost | MessageTooLarge

  /** A received message; a keep-alive reads as kind 0 without payload. */
  datatype Message = Message(kind: byte, payload: bytes)

  datatype Received<+T> = Received(value: T, end: nat)

  class Conn {
    const input: bytes
    var pos: nat
    var output: bytes
    var writesLeft: nat

    constructor (input: bytes, writesLeft: nat)
      ensures this.input == input && pos == 0 && output == [] && this.writesLeft == writesLeft
    {
      this.input := input;
      pos, output := 0, [];
      this.writesLeft := writesLeft;
    }

    ghost predicate Valid()
      reads this
    {
      pos <= |input|
    }

    method Write(data: bytes) returns (ok: bool)
      modifies this`output, this`writesLeft
      ensures ok <==> old(writesLeft) > 0
      ensures output == if ok then old(output) + data else old(output)
      ensures writesLeft == if ok then old(writesLeft) - 1 else 0
    {
      ok := writesLeft > 0;
      if ok {
        output := output + data;
        writesLeft := writesLeft - 1;
      }
    }

    method ReadFull(n: nat) returns (r: Option<bytes>)
      requires Valid()
      modifies this`pos
      ensures Valid()
      ensures old(pos) + n <= |input| ==> r == Some(input[old(pos)..old(pos) + n]) && pos == old(pos) + n
      ensures old(pos) + n > |input| ==> r == None
    {
      if pos + n > |input| {
        pos := |input|;
        return None;
      }
      r := Some(input[pos..pos + n]);
      pos := pos + n;
    }
  }

  /** The message that starts at `pos`. */
  function MessageAt(input: bytes, pos: nat): (r: Result<Received<Message>, NetError>)
    requires pos <= |input|
    ensures r.Ok? ==> pos + 4 <= r.value.end <= |input|
  {
    if pos + 4 > |input| then Err(ConnectionLost)
    else
      var msgLen := ToNat(input[pos..pos + 4]);
      var end := pos + 4 + msgLen;
      if msgLen == 0 then Ok(Received(Message(0, []), end))
      else if msgLen > MAX_MESSAGE then Err(MessageTooLarge)
      else if end > |input| then Err(ConnectionLost)
      else Ok(Received(Message(input[pos + 4], input[pos + 5..end]), end))
  }

  /** The number in the four bytes from `pos` on, the first counting most. */
  function LengthAt(input: bytes, pos: nat): int
    requires pos + 4 <= |input|
  {
    0x100_0000 * input[pos] as int + 0x1_0000 * input[pos + 1] as int
    + 0x100 * input[pos + 2] as int + input[pos + 3] as int
  }

  /** What is read: a message whose length is at most 10 MiB and that is all there. */
  lemma MessageAtIs(input: bytes, pos: nat)
    requires pos <= |input|
    ensures pos + 4 > |input| ==> MessageAt(input, pos) == Err(ConnectionLost)
    ensures pos + 4 <= |input| ==>
              var (len, r) := (LengthAt(input, pos), MessageAt(input, pos));
              && (len == 0 ==> r == Ok(Received(Message(0, []), pos + 4)))
              && (len > 10_485_760 <==> r == Err(MessageTooLarge))
              && (0 < len <= 10_485_760 && pos + 4 + len > |input| ==> r == Err(ConnectionLost))
              && (0 < len <= 10_485_760 && pos + 4 + len <= |input| ==>
                    r == Ok(Received(Message(input[pos + 4], input[pos + 5..pos + 4 + len]), pos + 4 + len)))
  {
    if pos + 4 <= |input| {
      FourBytes(input[pos..pos + 4]);
      hide ToNat;
    }
  }

  lemma FourBytes(s: bytes)
    requires |s| == 4
    ensures ToNat(s) == LengthAt(s, 0)
  {
    assert s[..3][..2] == s[..2] && s[..2][..1] == s[..1] && s[..1][..0] == [];
    assert ToNat(s[..1]) == s[0] as int;
    assert ToNat(s[..2]) == 256 * ToNat(s[..1]) + s[1] as int;
    assert ToNat(s[..3]) == 256 * ToNat(s[..2]) + s[2] as int;
    assert ToNat(s) == 256 * ToNat(s[..3]) + s[3] as int;
  }

  method ReadMessage(conn: Conn) returns (r: Result<Message, NetError>)
    requires conn.Valid()
    modifies conn`pos
    ensures conn.Valid()
    ensures match MessageAt(conn.input, old(conn.pos))
            case Ok(m) => r == Ok(m.value) && conn.pos == m.end
            case Err(e) => r == Err(e)
  {
    var lenBuf := conn.ReadFull(4);
    if lenBuf.None? {
      return Err(ConnectionLost);
    }
    var msgLen := ToNat(lenBuf.value);
    if msgLen == 0 {
      return Ok(Message(0, []));
    }
    if msgLen > MAX_MESSAGE {
      return Err(MessageTooLarge);
    }
    var msg := conn.ReadFull(msgLen);
    if msg.None? {
      return Err(ConnectionLost);
    }
    return Ok(Message(msg.value[0], msg.value[1..]));
  }

  /** Length prefix (32 bits), kind and payload. */
  function Frame(m: Message): bytes {
    BigEndian((1 + |m.payload|) % 0x1_0000_0000, 4) + [m.kind] + m.payload
  }

  function ExtMessage(extMsgID: byte, payload: bytes): Message {
    Message(EXTENDED, [extMsgID] + payload)
  }

  /** sendExtMessage: fills one buffer and writes it at once. */
  method SendExtMessage(conn: Conn, extMsgID: byte, payload: bytes) returns (ok: bool)
    modifies conn`output, conn`writesLeft
    ensures ok <==> old(conn.writesLeft) > 0
    ensures conn.output == if ok then old(conn.output) + Frame(ExtMessage(extMsgID, payload)) else old(conn.output)
    ensures conn.writesLeft == if ok then old(conn.writesLeft) - 1 else 0
  {
    var msgLen := 2 + |payload|;
    var header := BigEndian(msgLen % 0x1_0000_0000, 4);
    var buf := new byte[4 + msgLen];
    forall i | 0 <= i < 4 {
      buf[i] := header[i];
    }
    buf[4] := EXTENDED;
    buf[5] := extMsgID;
    forall i | 0 <= i < |payload| {
      buf[6 + i] := payload[i];
    }
    assert buf[..] == header + [EXTENDED] + ([extMsgID] + payload);
    ok := conn.Write(buf[..]);
  }

  /** Any message up to the size limit is read back from its frame, and reading stops
      exactly behind it. */
  lemma FrameRoundTrip(m: Message, input: bytes, pos: nat)
    requires 1 + |m.payload| <= MAX_MESSAGE && At(input, pos, Frame(m))
    ensures MessageAt(input, pos) == Ok(Received(m, pos + |Frame(m)|))
  {
    hide ToNat, BigEndian;
    var len := 1 + |m.payload|;
    var header := BigEndian(len, 4);
    HeaderRoundTrip(len);
    AtSplit(input, pos, header + [m.kind], m.payload);
    AtSplit(input, pos, header, [m.kind]);
    AtSlice(input, pos, header);
    AtFirstByte(input, pos + 4, [m.kind]);
    AtSlice(input, pos + 5, m.payload);
  }

  lemma HeaderRoundTrip(len: nat)
    requires len <= MAX_MESSAGE
    ensures ToNat(BigEndian(len, 4)) == len
  {
    assert Pow256(2) == 0x1_0000;
    assert Pow256(4) == 0x1_0000_0000;
    ToNatOfBigEndian(len, 4);
  }

  /** A keep-alive is four zero bytes. */
  lemma KeepAlive(input: bytes, pos: nat)
    requires At(input, pos, [0, 0, 0, 0])
    ensures MessageAt(input, pos) == Ok(Received(Message(0, []), pos + 4))
  {
    AtSlice(input, pos, [0, 0, 0, 0]);
    assert [0 as byte, 0, 0, 0] == BigEndian(0, 4) by {
      assert BigEndian(0, 2) == BigEndian(0, 0) + [0] + [0];
      assert BigEndian(0, 4) == BigEndian(0, 2) + [0] + [0];
    }
    HeaderRoundTrip(0);
  }
}
