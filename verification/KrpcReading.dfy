/** internal/dht/krpc.go: what the node reads from messages of other implementations, whose
    dictionaries hold any further keys and values of any type (BEP 5, section "KRPC Protocol"). */
module KrpcReading {
  import opened Bytes
  import opened BencodeSpec
  import opened NodeId
  import opened Krpc
  import opened Fields
  import opened BencodeGrammar
  import Bencode

  // ---------------------------------------------------------------------
  // Messages
  // ---------------------------------------------------------------------

  /** `m` holds the parts of `dict` that belong to its kind, and nothing else. */
  ghost predicate Reads(dict: Args, m: Message) {
    && TextOrEmpty(dict, "t", m.transactionID)
    && TextOrEmpty(dict, "y", m.kind)
    && (if m.kind == Ascii("q") then TextOrEmpty(dict, "q", m.query) && DictOrNone(dict, "a", m.args)
        else m.query == [] && m.args == None)
    && (if m.kind == Ascii("r") then DictOrNone(dict, "r", m.response) else m.response == None)
    && (if m.kind == Ascii("e") then ListOrEmpty(dict, "e", m.error) else m.error == [])
  }

  lemma KindsDiffer()
    ensures TYPE_QUERY != TYPE_RESPONSE && TYPE_QUERY != TYPE_ERROR && TYPE_RESPONSE != TYPE_ERROR
  {
  }

  lemma MessageRead(dict: Args)
    ensures Reads(dict, MessageFrom(dict))
  {
    ShortKeys();
    KindsDiffer();
    TextRead(dict, "t", []);
    TextRead(dict, "y", []);
    TextRead(dict, "q", []);
    ContainerRead(dict, "a");
    ContainerRead(dict, "r");
    ContainerRead(dict, "e");
    hide Ascii, TextOrEmpty, DictOrNone, ListOrEmpty;
  }

  /** A packet is accepted exactly when some prefix of it spells a dictionary, which then is
      the one that is read, whatever follows it. */
  lemma PacketRead(data: bytes, dict: Args)
    ensures DecodeMessage(data).Ok? <==> exists end, d: Args :: 0 <= end <= |data| && Spells(data[..end], Dict(d))
    ensures (exists end :: 0 <= end <= |data| && Spells(data[..end], Dict(dict))) ==>
              DecodeMessage(data).Ok? && Reads(dict, DecodeMessage(data).value)
  {
    hide Spells, Reads, MessageFrom;
    DecodesIff(data, Dict(dict));
    MessageRead(dict);
    if end, d: Args :| 0 <= end <= |data| && Spells(data[..end], Dict(d)) {
      DecodesIff(data, Dict(d));
    }
    if DecodeMessage(data).Ok? {
      DecodesIff(data, Decoded(data).value);
    }
  }

  // ---------------------------------------------------------------------
  // Accessors
  // ---------------------------------------------------------------------

  /** A query's contact, target and info hash are those of its arguments that are texts of
      twenty bytes. */
  lemma QueryIdsRead(m: Message, id: NodeID)
    ensures GetQueryNodeID(m) == Some(id) <==> m.args.Some? && HasText(m.args.value, "id", id)
    ensures GetTarget(m) == Some(id) <==> m.args.Some? && HasText(m.args.value, "target", id)
    ensures GetInfoHash(m) == Some(id) <==> m.args.Some? && HasText(m.args.value, "info_hash", id)
  {
    if m.args.Some? {
      ShortKeys();
      LongKeys();
      TextRead(m.args.value, "id", id);
      TextRead(m.args.value, "target", id);
      TextRead(m.args.value, "info_hash", id);
    }
    hide Ascii, HasText, Bencode.GetBytes;
  }

  /** The announced port, unless the source port is asked for; the tokens. */
  lemma AnnounceArgsRead(m: Message, port: int64, token: ByteString)
    ensures GetPort(m) == Some(port) <==>
            m.args.Some? && HasInt(m.args.value, "port", port) && !HasInt(m.args.value, "implied_port", 1)
    ensures GetToken(m) == Some(token) <==> m.args.Some? && HasText(m.args.value, "token", token)
    ensures GetResponseToken(m) == Some(token) <==> m.response.Some? && HasText(m.response.value, "token", token)
  {
    LongKeys();
    if m.args.Some? {
      IntRead(m.args.value, "port", port);
      IntRead(m.args.value, "implied_port", 1);
      TextRead(m.args.value, "token", token);
    }
    if m.response.Some? {
      TextRead(m.response.value, "token", token);
    }
    hide Ascii, HasText, HasInt, Bencode.GetBytes, Bencode.GetInt;
  }

  /** The i-th node is the i-th slice of 26 bytes: id, address and port. */
  predicate IsNodeAt(node: CompactNodeInfo, data: bytes, i: nat)
    requires 26 * i + 26 <= |data|
  {
    && node.id == data[26 * i..26 * i + 20]
    && node.ip == data[26 * i + 20..26 * i + 24]
    && node.port == 256 * data[26 * i + 24] as int + data[26 * i + 25] as int
  }

  /** All nodes of a compact list in order; none if its length is no multiple of 26. */
  predicate NodesListed(nodes: seq<CompactNodeInfo>, data: bytes) {
    if |data| % 26 == 0
    then 26 * |nodes| == |data| && forall i | 0 <= i < |nodes| :: IsNodeAt(nodes[i], data, i)
    else nodes == []
  }

  lemma FirstNodeRead(data: bytes)
    requires |data| >= 26
    ensures IsNodeAt(NodeAt(data[..26]), data, 0)
  {
    var first := data[..26];
    assert first[..20] == data[..20] && first[20..24] == data[20..24];
    PortOfBytes(first[20..]);
    assert first[20..][4..] == first[24..];
  }

  lemma {:induction false} NodesRead(data: bytes)
    requires |data| % 26 == 0
    ensures NodesListed(NodesIn(data), data)
  {
    if data != [] {
      var rest := data[26..];
      NodesRead(rest);
      FirstNodeRead(data);
      hide NodeAt;
      forall i | 0 < i < |NodesIn(data)| ensures IsNodeAt(NodesIn(data)[i], data, i) {
        NodeShifted(NodesIn(rest)[i - 1], data, i);
      }
    }
  }

  lemma NodeShifted(node: CompactNodeInfo, data: bytes, i: nat)
    requires 0 < i && 26 * i + 26 <= |data| && IsNodeAt(node, data[26..], i - 1)
    ensures IsNodeAt(node, data, i)
  {
    var rest, at := data[26..], 26 * (i - 1);
    assert rest[at..at + 20] == data[at + 26..at + 46];
    assert rest[at + 20..at + 24] == data[at + 46..at + 50];
  }

  /** The nodes of a response: those of the text under "nodes", whatever else it holds. */
  lemma ResponseNodesRead(m: Message, data: ByteString)
    ensures m.response.Some? && HasText(m.response.value, "nodes", data) ==> NodesListed(GetResponseNodes(m), data)
    ensures GetResponseNodes(m) != [] ==>
              m.response.Some? && exists s: ByteString :: HasText(m.response.value, "nodes", s)
  {
    hide NodesListed, NodesIn;
    LongKeys();
    if m.response.Some? {
      TextRead(m.response.value, "nodes", data);
      var found := Bencode.GetBytes(m.response.value, KEY_NODES);
      if found.Some? {
        TextRead(m.response.value, "nodes", found.value);
        NodesOfRead(found.value);
      }
    }
    hide Ascii, HasText, Bencode.GetBytes;
  }

  lemma NodesOfRead(data: bytes)
    ensures NodesListed(NodesOf(data), data)
  {
    if |data| % 26 == 0 {
      NodesRead(data);
    }
  }

  // ---------------------------------------------------------------------
  // Addresses on the wire
  // ---------------------------------------------------------------------

  predicate IsMapped(ip: bytes) {
    |ip| == 16 && (forall i | 0 <= i < 10 :: ip[i] == 0) && ip[10] == 255 && ip[11] == 255
  }

  /** Four bytes of an IPv4 address, of whichever length, or zeros; then the port. */
  lemma AddressWritten(ip: bytes, port: int)
    ensures var wire := WireAddress(ip, port);
            && (|ip| == 4 ==> wire[..4] == ip)
            && (IsMapped(ip) ==> wire[..4] == ip[12..])
            && (|ip| != 4 && !IsMapped(ip) ==> wire[..4] == [0, 0, 0, 0])
            && 256 * wire[4] as int + wire[5] as int == port % 65536
  {
    AddressRoundTrip(ip, port);
    var low := port % 0x1_0000;
    assert Pow256(2) == 0x1_0000;
    ToNatOfBigEndian(low, 2);
    PortOfBytes(WireAddress(ip, port));
    assert WireAddress(ip, port)[4..] == BigEndian(low, 2);
    if IsMapped(ip) {
      assert ip[..10] == seq(10, _ => 0);
    } else if |ip| == 16 && ip[..10] == seq(10, _ => 0 as byte) {
      assert forall i | 0 <= i < 10 :: ip[i] == ip[..10][i];
    }
  }
}
