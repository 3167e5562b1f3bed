/** internal/dht/krpc.go: KRPC messages (BEP 5, sections "KRPC Protocol" and "Contact
    Encoding") as bencode values, and the compact node and peer codecs. */
module Krpc {
  import opened Bytes
  import opened BencodeSpec
  import opened BencodeCanonical
  import opened Fields
  import opened NodeId
  import Bencode

  const KEY_T: ByteString := ['t' as byte]
  const KEY_Y: ByteString := ['y' as byte]
  const KEY_Q: ByteString := ['q' as byte]
  const KEY_A: ByteString := ['a' as byte]
  const KEY_R: ByteString := ['r' as byte]
  const KEY_E: ByteString := ['e' as byte]
  const KEY_ID: ByteString := ['i' as byte, 'd' as byte]
  const KEY_PORT: ByteString := ['p' as byte, 'o' as byte, 'r' as byte, 't' as byte]
  const KEY_TOKEN: ByteString := ['t' as byte, 'o' as byte, 'k' as byte, 'e' as byte, 'n' as byte]
  const KEY_NODES: ByteString := ['n' as byte, 'o' as byte, 'd' as byte, 'e' as byte, 's' as byte]
  const KEY_VALUES: ByteString :=
    ['v' as byte, 'a' as byte, 'l' as byte, 'u' as byte, 'e' as byte, 's' as byte]
  const KEY_TARGET: ByteString :=
    ['t' as byte, 'a' as byte, 'r' as byte, 'g' as byte, 'e' as byte, 't' as byte]
  const KEY_INFO_HASH: ByteString :=
    ['i' as byte, 'n' as byte, 'f' as byte, 'o' as byte, '_' as byte, 'h' as byte, 'a' as byte,
     's' as byte, 'h' as byte]
  const KEY_IMPLIED_PORT: ByteString :=
    ['i' as byte, 'm' as byte, 'p' as byte, 'l' as byte, 'i' as byte, 'e' as byte, 'd' as byte,
     '_' as byte, 'p' as byte, 'o' as byte, 'r' as byte, 't' as byte]

  const TYPE_QUERY := KEY_Q
  const TYPE_RESPONSE := KEY_R
  const TYPE_ERROR := KEY_E

  const QUERY_PING: ByteString := ['p' as byte, 'i' as byte, 'n' as byte, 'g' as byte]
  const QUERY_FIND_NODE: ByteString :=
    ['f' as byte, 'i' as byte, 'n' as byte, 'd' as byte, '_' as byte, 'n' as byte, 'o' as byte,
     'd' as byte, 'e' as byte]
  const QUERY_GET_PEERS: ByteString :=
    ['g' as byte, 'e' as byte, 't' as byte, '_' as byte, 'p' as byte, 'e' as byte, 'e' as byte,
     'r' as byte, 's' as byte]
  const QUERY_ANNOUNCE_PEER: ByteString :=
    ['a' as byte, 'n' as byte, 'n' as byte, 'o' as byte, 'u' as byte, 'n' as byte, 'c' as byte,
     'e' as byte, '_' as byte, 'p' as byte, 'e' as byte, 'e' as byte, 'r' as byte]

  // The texts of the keys and names

  lemma ShortKeys()
    ensures KEY_A == Ascii("a") && KEY_E == Ascii("e") && KEY_Q == Ascii("q") && KEY_R == Ascii("r")
    ensures KEY_T == Ascii("t") && KEY_Y == Ascii("y") && KEY_ID == Ascii("id")
  {
  }

  lemma LongKeys()
    ensures KEY_PORT == Ascii("port") && KEY_TOKEN == Ascii("token") && KEY_VALUES == Ascii("values")
    ensures KEY_TARGET == Ascii("target") && KEY_INFO_HASH == Ascii("info_hash")
    ensures KEY_IMPLIED_PORT == Ascii("implied_port") && KEY_NODES == Ascii("nodes")
  {
    PortKeys();
    TargetKeys();
    ImpliedKey();
  }

  lemma PortKeys()
    ensures KEY_PORT == Ascii("port") && KEY_TOKEN == Ascii("token") && KEY_VALUES == Ascii("values")
    ensures KEY_NODES == Ascii("nodes")
  {
  }

  lemma TargetKeys()
    ensures KEY_TARGET == Ascii("target") && KEY_INFO_HASH == Ascii("info_hash")
  {
  }

  lemma ImpliedKey()
    ensures KEY_IMPLIED_PORT == Ascii("implied_port")
  {
  }

  lemma QueryNames()
    ensures QUERY_PING == Ascii("ping") && QUERY_FIND_NODE == Ascii("find_node")
    ensures QUERY_GET_PEERS == Ascii("get_peers")
  {
  }

  lemma AnnounceName()
    ensures QUERY_ANNOUNCE_PEER == Ascii("announce_peer")
  {
  }

  // ---------------------------------------------------------------------
  // Compact contacts
  // ---------------------------------------------------------------------

  const NODE_LENGTH := 26
  const PEER_LENGTH := 6

  datatype CompactPeerInfo = CompactPeerInfo(ip: bytes, port: int)

  datatype CompactNodeInfo = CompactNodeInfo(id: NodeID, ip: bytes, port: int)

  /** Slices whose compact form is still a slice. */
  type NodeList = s: seq<CompactNodeInfo> | NODE_LENGTH * |s| <= MAX_INT
  type PeerList = s: seq<CompactPeerInfo> | |s| <= MAX_INT

  /** net.IP.To4: four bytes, or the tail of an IPv4-mapped address, or nothing. */
  function To4(ip: bytes): (r: bytes)
    ensures r == [] || |r| == 4
  {
    if |ip| == 4 then ip
    else if |ip| == 16 && ip[..10] == seq(10, _ => 0) && ip[10] == 255 && ip[11] == 255 then ip[12..]
    else []
  }

  /** The six bytes of an address; what is no IPv4 address leaves zeros, the port is
      truncated to 16 bits. */
  function WireAddress(ip: bytes, port: int): (r: bytes)
    ensures |r| == PEER_LENGTH
  {
    (if To4(ip) == [] then [0, 0, 0, 0] else To4(ip)) + BigEndian(port % 0x1_0000, 2)
  }

  function EncodeCompactPeer(peer: CompactPeerInfo): ByteString {
    WireAddress(peer.ip, peer.port)
  }

  function DecodeCompactPeer(data: bytes): Option<CompactPeerInfo> {
    if |data| != PEER_LENGTH then None
    else Some(CompactPeerInfo(data[..4], ToNat(data[4..])))
  }

  function WireNode(node: CompactNodeInfo): (r: bytes)
    ensures |r| == NODE_LENGTH
  {
    node.id + WireAddress(node.ip, node.port)
  }

  function NodeAt(data: bytes): CompactNodeInfo
    requires |data| == NODE_LENGTH
  {
    CompactNodeInfo(data[..20], data[20..24], ToNat(data[24..]))
  }

  /** The compact form of a node list: the nodes' 26 bytes one after the other. */
  function CompactNodes(nodes: seq<CompactNodeInfo>): (r: bytes)
    ensures |r| == NODE_LENGTH * |nodes|
  {
    if nodes == [] then [] else WireNode(nodes[0]) + CompactNodes(nodes[1..])
  }

  /** The nodes of a compact list; a length that is no multiple of 26 yields none. */
  function NodesOf(data: bytes): seq<CompactNodeInfo> {
    if |data| % NODE_LENGTH != 0 then [] else NodesIn(data)
  }

  function NodesIn(data: bytes): (r: seq<CompactNodeInfo>)
    requires |data| % NODE_LENGTH == 0
    ensures NODE_LENGTH * |r| == |data|
  {
    if data == [] then [] else [NodeAt(data[..NODE_LENGTH])] + NodesIn(data[NODE_LENGTH..])
  }

  lemma {:induction false} CompactNodesAppend(nodes: seq<CompactNodeInfo>, node: CompactNodeInfo)
    ensures CompactNodes(nodes + [node]) == CompactNodes(nodes) + WireNode(node)
  {
    hide WireNode;
    if nodes != [] {
      CompactNodesAppend(nodes[1..], node);
      assert (nodes + [node])[1..] == nodes[1..] + [node];
    }
  }

  lemma {:induction false} NodesInAppend(data: bytes, tail: bytes)
    requires |data| % NODE_LENGTH == 0 && |tail| == NODE_LENGTH
    ensures NodesIn(data + tail) == NodesIn(data) + [NodeAt(tail)]
  {
    hide NodeAt;
    if data == [] {
      assert (data + tail)[..NODE_LENGTH] == tail && (data + tail)[NODE_LENGTH..] == [];
    } else {
      NodesInAppend(data[NODE_LENGTH..], tail);
      assert (data + tail)[..NODE_LENGTH] == data[..NODE_LENGTH];
      assert (data + tail)[NODE_LENGTH..] == data[NODE_LENGTH..] + tail;
    }
  }

  /** EncodeCompactNodes: fills a buffer slot by slot. */
  method EncodeCompactNodes(nodes: NodeList) returns (data: array<byte>)
    ensures data[..] == CompactNodes(nodes)
  {
    hide CompactNodes, WireNode;
    data := new byte[NODE_LENGTH * |nodes|](_ => 0);
    assert data[..0] == CompactNodes(nodes[..0]) by {
      assert |CompactNodes(nodes[..0])| == 0;
    }
    for n := 0 to |nodes|
      invariant data[..NODE_LENGTH * n] == CompactNodes(nodes[..n])
    {
      var offset := NODE_LENGTH * n;
      var wire := WireNode(nodes[n]);
      for k := 0 to NODE_LENGTH
        invariant data[..offset] == CompactNodes(nodes[..n])
        invariant data[offset..offset + k] == wire[..k]
      {
        data[offset + k] := wire[k];
      }
      CompactNodesAppend(nodes[..n], nodes[n]);
      assert nodes[..n + 1] == nodes[..n] + [nodes[n]];
      assert data[..offset + NODE_LENGTH] == data[..offset] + data[offset..offset + NODE_LENGTH];
    }
    assert nodes[..|nodes|] == nodes;
    assert data[..] == data[..NODE_LENGTH * |nodes|];
  }

  /** DecodeCompactNodes: reads a buffer slot by slot. */
  method DecodeCompactNodes(data: bytes) returns (nodes: seq<CompactNodeInfo>)
    ensures nodes == NodesOf(data)
  {
    hide NodesIn, NodeAt;
    nodes := [];
    if |data| % NODE_LENGTH != 0 {
      return;
    }
    var count := |data| / NODE_LENGTH;
    assert NodesIn(data[..0]) == [] by {
      assert |NodesIn(data[..0])| == 0;
    }
    for n := 0 to count
      invariant nodes == NodesIn(data[..NODE_LENGTH * n])
    {
      var offset := NODE_LENGTH * n;
      nodes := nodes + [NodeAt(data[offset..offset + NODE_LENGTH])];
      NodesInAppend(data[..offset], data[offset..offset + NODE_LENGTH]);
      assert data[..offset] + data[offset..offset + NODE_LENGTH] == data[..offset + NODE_LENGTH];
    }
    assert data[..NODE_LENGTH * count] == data;
  }

  // ---------------------------------------------------------------------
  // Compact round trips
  // ---------------------------------------------------------------------

  /** The address form that survives the wire: four bytes and a 16-bit port. */
  predicate WireForm(ip: bytes, port: int) {
    |ip| == 4 && 0 <= port < 0x1_0000
  }

  /** What a node comes back as. */
  function Canonical(node: CompactNodeInfo): CompactNodeInfo {
    NodeAt(WireNode(node))
  }

  lemma AddressRoundTrip(ip: bytes, port: int)
    ensures var wire := WireAddress(ip, port);
            && WireForm(wire[..4], ToNat(wire[4..]))
            && ((wire[..4] == ip && ToNat(wire[4..]) == port) <==> WireForm(ip, port))
  {
    var wire := WireAddress(ip, port);
    var low := port % 0x1_0000;
    assert wire[4..] == BigEndian(low, 2);
    assert Pow256(2) == 0x1_0000;
    ToNatOfBigEndian(low, 2);
    if |ip| == 4 {
      assert wire[..4] == ip;
    }
  }

  lemma AddressOfWire(wire: bytes)
    requires |wire| == PEER_LENGTH
    ensures WireAddress(wire[..4], ToNat(wire[4..])) == wire
  {
    var port := wire[4..];
    ToNatBound(port);
    assert Pow256(2) == 0x1_0000;
    BigEndianOfToNat(port);
    assert wire == wire[..4] + port;
  }

  lemma PeerRoundTrip(peer: CompactPeerInfo)
    ensures var back := DecodeCompactPeer(EncodeCompactPeer(peer));
            back.Some? && (back.value == peer <==> WireForm(peer.ip, peer.port))
  {
    AddressRoundTrip(peer.ip, peer.port);
  }

  lemma NodeRoundTrip(node: CompactNodeInfo)
    ensures Canonical(node).id == node.id
    ensures Canonical(node) == node <==> WireForm(node.ip, node.port)
  {
    AddressRoundTrip(node.ip, node.port);
    var wire := WireNode(node);
    var address := WireAddress(node.ip, node.port);
    assert wire[..20] == node.id;
    assert wire[20..24] == address[..4] && wire[24..] == address[4..];
  }

  lemma NodeOfWire(data: bytes)
    requires |data| == NODE_LENGTH
    ensures WireNode(NodeAt(data)) == data
  {
    AddressOfWire(data[20..]);
    assert data[20..][..4] == data[20..24] && data[20..][4..] == data[24..];
    assert data == data[..20] + data[20..];
  }

  /** Decoding an encoded node list gives each node's canonical form, so the list
      itself exactly when every node has an IPv4 address and a 16-bit port. */
  lemma {:induction false} CompactNodesRoundTrip(nodes: seq<CompactNodeInfo>)
    ensures NodesOf(CompactNodes(nodes)) == seq(|nodes|, i requires 0 <= i < |nodes| => Canonical(nodes[i]))
    ensures NodesOf(CompactNodes(nodes)) == nodes
       <==> forall i | 0 <= i < |nodes| :: WireForm(nodes[i].ip, nodes[i].port)
  {
    hide WireNode, NodeAt, Canonical;
    CompactNodesDecode(nodes);
    var back := NodesOf(CompactNodes(nodes));
    forall i | 0 <= i < |nodes| ensures back[i] == nodes[i] <==> WireForm(nodes[i].ip, nodes[i].port) {
      NodeRoundTrip(nodes[i]);
    }
  }

  lemma {:induction false} CompactNodesDecode(nodes: seq<CompactNodeInfo>)
    ensures NodesIn(CompactNodes(nodes)) == seq(|nodes|, i requires 0 <= i < |nodes| => Canonical(nodes[i]))
  {
    hide WireNode, NodeAt;
    if nodes != [] {
      CompactNodesDecode(nodes[1..]);
      var data := CompactNodes(nodes);
      assert data[..NODE_LENGTH] == WireNode(nodes[0]);
      assert data[NODE_LENGTH..] == CompactNodes(nodes[1..]);
    }
  }

  /** And every well-sized byte string is the encoding of the list it decodes to. */
  lemma {:induction false} CompactNodesOfDecoded(data: bytes)
    requires |data| % NODE_LENGTH == 0
    ensures CompactNodes(NodesOf(data)) == data
  {
    hide WireNode, NodeAt;
    if data != [] {
      CompactNodesOfDecoded(data[NODE_LENGTH..]);
      NodeOfWire(data[..NODE_LENGTH]);
      var nodes := NodesIn(data);
      assert nodes[1..] == NodesIn(data[NODE_LENGTH..]);
    }
  }

  // ---------------------------------------------------------------------
  // Messages
  // ---------------------------------------------------------------------

  type Args = map<ByteString, Value>

  /** One constructor per Encode* function. */
  datatype Outgoing =
    | Ping(id: NodeID)
    | PingResponse(id: NodeID)
    | FindNode(id: NodeID, target: NodeID)
    | FindNodeResponse(id: NodeID, nodes: NodeList)
    | GetPeers(id: NodeID, infoHash: NodeID)
    | GetPeersResponseNodes(id: NodeID, token: ByteString, nodes: NodeList)
    | GetPeersResponsePeers(id: NodeID, token: ByteString, peers: PeerList)
    | AnnouncePeer(id: NodeID, infoHash: NodeID, port: int64, token: ByteString, impliedPort: bool)
    | AnnouncePeerResponse(id: NodeID)
    | ErrorMessage(code: int64, message: ByteString)

  function Query(tid: ByteString, name: ByteString, args: Args): Value {
    Dict(map[KEY_T := Slice(tid), KEY_Y := Text(TYPE_QUERY), KEY_Q := Text(name), KEY_A := Dict(args)])
  }

  function Response(tid: ByteString, values: Args): Value {
    Dict(map[KEY_T := Slice(tid), KEY_Y := Text(TYPE_RESPONSE), KEY_R := Dict(values)])
  }

  function PeerValues(peers: PeerList): seq<Value> {
    seq(|peers|, i requires 0 <= i < |peers| => Slice(EncodeCompactPeer(peers[i])))
  }

  /** The dictionary each constructor hands to the encoder. */
  function ToValue(tid: ByteString, m: Outgoing): Value {
    match m
    case Ping(id) => Query(tid, QUERY_PING, map[KEY_ID := Slice(id)])
    case PingResponse(id) => Response(tid, map[KEY_ID := Slice(id)])
    case FindNode(id, target) =>
      Query(tid, QUERY_FIND_NODE, map[KEY_ID := Slice(id), KEY_TARGET := Slice(target)])
    case FindNodeResponse(id, nodes) =>
      Response(tid, map[KEY_ID := Slice(id), KEY_NODES := Slice(CompactNodes(nodes))])
    case GetPeers(id, infoHash) =>
      Query(tid, QUERY_GET_PEERS, map[KEY_ID := Slice(id), KEY_INFO_HASH := Slice(infoHash)])
    case GetPeersResponseNodes(id, token, nodes) =>
      Response(tid, map[KEY_ID := Slice(id), KEY_TOKEN := Slice(token),
                        KEY_NODES := Slice(CompactNodes(nodes))])
    case GetPeersResponsePeers(id, token, peers) =>
      Response(tid, map[KEY_ID := Slice(id), KEY_TOKEN := Slice(token),
                        KEY_VALUES := List(PeerValues(peers))])
    case AnnouncePeer(id, infoHash, port, token, impliedPort) =>
      Query(tid, QUERY_ANNOUNCE_PEER,
            map[KEY_ID := Slice(id), KEY_INFO_HASH := Slice(infoHash), KEY_PORT := Int(port),
                KEY_TOKEN := Slice(token), KEY_IMPLIED_PORT := Int(if impliedPort then 1 else 0)])
    case AnnouncePeerResponse(id) => Response(tid, map[KEY_ID := Slice(id)])
    case ErrorMessage(code, message) =>
      Dict(map[KEY_T := Slice(tid), KEY_Y := Text(TYPE_ERROR),
               KEY_E := List([Int64(code), Text(message)])])
  }

  /** Every constructor's message can be encoded. */
  method EncodeMessage(tid: ByteString, m: Outgoing) returns (data: bytes)
    ensures data == Encoding(ToValue(tid, m))
  {
    var res := Bencode.Encode(ToValue(tid, m));
    AllEncodable(tid, m);
    data := res.value;
  }

  lemma AllEncodable(tid: ByteString, m: Outgoing)
    ensures Encodable(ToValue(tid, m))
  {
    hide CompactNodes, EncodeCompactPeer;
    if m.ErrorMessage? {
      assert Encodable(List([Int64(m.code), Text(m.message)]));
    } else {
      var body := if KEY_A in ToValue(tid, m).entries then KEY_A else KEY_R;
      var args := ToValue(tid, m).entries[body].entries;
      forall k | k in args ensures Encodable(args[k]) {
        if m.GetPeersResponsePeers? {
          assert Encodable(List(PeerValues(m.peers)));
        }
      }
      assert Encodable(Dict(args));
    }
  }

  /** A message as the node sees it; a nil slice and an empty one are not told apart. */
  datatype Message = Message(
    transactionID: ByteString, kind: ByteString, query: ByteString,
    args: Option<Args>, response: Option<Args>, error: seq<Value>)

  function MessageFrom(dict: Args): Message {
    var tid := GetOrEmpty(Bencode.GetBytes(dict, KEY_T));
    var kind := GetOrEmpty(Bencode.GetBytes(dict, KEY_Y));
    var empty := Message(tid, kind, [], None, None, []);
    if kind == TYPE_QUERY then
      empty.(query := GetOrEmpty(Bencode.GetBytes(dict, KEY_Q)), args := Bencode.GetDict(dict, KEY_A))
    else if kind == TYPE_RESPONSE then
      empty.(response := Bencode.GetDict(dict, KEY_R))
    else if kind == TYPE_ERROR then
      var e := Bencode.GetList(dict, KEY_E);
      empty.(error := if e.Some? then e.value else [])
    else empty
  }

  function DecodeMessage(data: bytes): Result<Message, Error> {
    match DecodedDict(data)
    case Err(e) => Err(e)
    case Ok(dict) => Ok(MessageFrom(dict))
  }

  // Accessors

  function IdUnder(dict: Option<Args>, key: ByteString): Option<NodeID> {
    if dict.None? then None
    else
      var b := Bencode.GetBytes(dict.value, key);
      if b.Some? && |b.value| == 20 then Some(b.value) else None
  }

  function GetQueryNodeID(m: Message): Option<NodeID> { IdUnder(m.args, KEY_ID) }

  function GetInfoHash(m: Message): Option<NodeID> { IdUnder(m.args, KEY_INFO_HASH) }

  function GetTarget(m: Message): Option<NodeID> { IdUnder(m.args, KEY_TARGET) }

  /** The announced port, or nothing when the source port is to be used. */
  function GetPort(m: Message): Option<int64> {
    if m.args.None? || Bencode.GetInt(m.args.value, KEY_IMPLIED_PORT) == Some(1) then None
    else Bencode.GetInt(m.args.value, KEY_PORT)
  }

  function GetToken(m: Message): Option<ByteString> {
    if m.args.None? then None else Bencode.GetBytes(m.args.value, KEY_TOKEN)
  }

  function GetResponseToken(m: Message): Option<ByteString> {
    if m.response.None? then None else Bencode.GetBytes(m.response.value, KEY_TOKEN)
  }

  function GetResponseNodes(m: Message): seq<CompactNodeInfo> {
    if m.response.None? then []
    else
      var b := Bencode.GetBytes(m.response.value, KEY_NODES);
      if b.None? then [] else NodesOf(b.value)
  }

  /** The peers among `values`; entries that are no six-byte string are skipped. */
  function PeersIn(values: seq<Value>): seq<CompactPeerInfo> {
    if values == [] then []
    else
      var peer := if values[0].Slice? then DecodeCompactPeer(values[0].slice) else None;
      (if peer.Some? then [peer.value] else []) + PeersIn(values[1..])
  }

  /** Entry i of a peer list is a string of six bytes. */
  predicate IsPeerEntry(values: seq<Value>, i: int) {
    0 <= i < |values| && values[i].Slice? && |values[i].slice| == 6
  }

  /** The peers are, in order, those of exactly the entries among the first n that are
      strings of six bytes: four of address and two of port. */
  ghost predicate PeersListed(peers: seq<CompactPeerInfo>, values: seq<Value>, n: nat, places: seq<nat>) {
    && |places| == |peers|
    && (forall k, l | 0 <= k < l < |places| :: places[k] < places[l])
    && (forall i :: i in places <==> i < n && IsPeerEntry(values, i))
    && forall k | 0 <= k < |peers| ::
         && IsPeerEntry(values, places[k])
         && IsPeerOf(peers[k], values[places[k]].slice)
  }

  predicate IsPeerOf(peer: CompactPeerInfo, data: bytes)
    requires |data| == 6
  {
    peer == CompactPeerInfo(data[..4], 256 * data[4] as int + data[5] as int)
  }

  lemma PortOfBytes(data: bytes)
    requires |data| == 6
    ensures ToNat(data[4..]) == 256 * data[4] as int + data[5] as int
  {
    var port := data[4..];
    assert port[..1] == [data[4]] && port[..1][..0] == [];
    assert ToNat(port) == 256 * ToNat(port[..1]) + port[1] as int;
  }

  lemma PeerListedNext(peers: seq<CompactPeerInfo>, values: seq<Value>, n: nat, places: seq<nat>,
                       peer: CompactPeerInfo)
    requires PeersListed(peers, values, n, places) && IsPeerEntry(values, n) && IsPeerOf(peer, values[n].slice)
    ensures PeersListed(peers + [peer], values, n + 1, places + [n])
  {
    hide IsPeerEntry, IsPeerOf;
    forall k | 0 <= k < |places| ensures places[k] < n {
      assert places[k] in places;
    }
  }

  lemma PeerSkipped(peers: seq<CompactPeerInfo>, values: seq<Value>, n: nat, places: seq<nat>)
    requires PeersListed(peers, values, n, places) && !IsPeerEntry(values, n)
    ensures PeersListed(peers, values, n + 1, places)
  {
    hide IsPeerEntry, IsPeerOf;
  }

  /** The peers of a response.  Whatever else the response holds, they are those of its list
      of values, other entries being skipped wherever they stand. */
  method GetResponsePeers(m: Message) returns (peers: seq<CompactPeerInfo>, ghost places: seq<nat>)
    ensures peers == ResponsePeers(m)
    ensures m.response.Some? && KEY_VALUES in m.response.value && m.response.value[KEY_VALUES].List? ==>
              var values := m.response.value[KEY_VALUES].items;
              PeersListed(peers, values, |values|, places)
    ensures !(m.response.Some? && KEY_VALUES in m.response.value && m.response.value[KEY_VALUES].List?) ==>
              peers == []
  {
    peers, places := [], [];
    if m.response.None? {
      return;
    }
    var list := Bencode.GetList(m.response.value, KEY_VALUES);
    if list.None? {
      return;
    }
    var values := list.value;
    hide IsPeerOf, IsPeerEntry, PeersListed, PeersIn, DecodeCompactPeer;
    NoPeersYet(values);
    for n := 0 to |values|
      invariant peers + PeersIn(values[n..]) == PeersIn(values)
      invariant PeersListed(peers, values, n, places)
    {
      var v := values[n];
      PeersInNext(peers, values, n, places);
      if v.Slice? {
        var peer := DecodeCompactPeer(v.slice);
        if peer.Some? {
          peers, places := peers + [peer.value], places + [n];
        }
      }
    }
    PeersInEnd(values);
  }

  lemma NoPeersYet(values: seq<Value>)
    ensures PeersListed([], values, 0, []) && [] + PeersIn(values[0..]) == PeersIn(values)
  {
    assert values[0..] == values;
  }

  lemma PeersInEnd(values: seq<Value>)
    ensures PeersIn(values[|values|..]) == []
  {
  }

  /** One more value. */
  lemma PeersInNext(peers: seq<CompactPeerInfo>, values: seq<Value>, n: nat, places: seq<nat>)
    requires n < |values| && PeersListed(peers, values, n, places)
    ensures var found := if values[n].Slice? then DecodeCompactPeer(values[n].slice) else None;
            if found.Some? then
              && peers + PeersIn(values[n..]) == peers + [found.value] + PeersIn(values[n + 1..])
              && PeersListed(peers + [found.value], values, n + 1, places + [n])
            else
              PeersIn(values[n..]) == PeersIn(values[n + 1..]) && PeersListed(peers, values, n + 1, places)
  {
    hide PeersListed, IsPeerOf, ToNat;
    assert values[n..][1..] == values[n + 1..];
    if IsPeerEntry(values, n) {
      var data := values[n].slice;
      PeerOfBytes(data);
      var peer := DecodeCompactPeer(data).value;
      PeerListedNext(peers, values, n, places, peer);
      ConcatAssociative(peers, [peer], PeersIn(values[n + 1..]));
    } else {
      PeerSkipped(peers, values, n, places);
    }
  }

  lemma PeerOfBytes(data: bytes)
    requires |data| == 6
    ensures DecodeCompactPeer(data).Some? && IsPeerOf(DecodeCompactPeer(data).value, data)
  {
    PortOfBytes(data);
  }

  function ResponsePeers(m: Message): seq<CompactPeerInfo> {
    if m.response.None? then []
    else
      var values := Bencode.GetList(m.response.value, KEY_VALUES);
      if values.None? then [] else PeersIn(values.value)
  }

  // ---------------------------------------------------------------------
  // Message round trips
  // ---------------------------------------------------------------------

  function KindOf(m: Outgoing): ByteString {
    if m.ErrorMessage? then TYPE_ERROR
    else if m.Ping? || m.FindNode? || m.GetPeers? || m.AnnouncePeer? then TYPE_QUERY
    else TYPE_RESPONSE
  }

  function CanonicalPeers(peers: PeerList): seq<CompactPeerInfo> {
    seq(|peers|, i requires 0 <= i < |peers| => DecodeCompactPeer(EncodeCompactPeer(peers[i])).value)
  }

  function CanonicalNodes(nodes: NodeList): seq<CompactNodeInfo> {
    seq(|nodes|, i requires 0 <= i < |nodes| => Canonical(nodes[i]))
  }

  /** What the accessors for queries give. */
  predicate GivesQuery(m: Message, target: Option<NodeID>, infoHash: Option<NodeID>, port: Option<int64>,
                       token: Option<ByteString>)
  {
    GetTarget(m) == target && GetInfoHash(m) == infoHash && GetPort(m) == port && GetToken(m) == token
  }

  /** What the accessors for responses give. */
  predicate GivesResponse(m: Message, token: Option<ByteString>, nodes: seq<CompactNodeInfo>,
                          peers: seq<CompactPeerInfo>)
  {
    GetResponseToken(m) == token && GetResponseNodes(m) == nodes && ResponsePeers(m) == peers
  }

  /** `received` carries everything `sent` was built from, and nothing else: the accessors
      give nothing for what was not sent. */
  predicate Recovers(received: Message, tid: ByteString, sent: Outgoing) {
    && received.transactionID == tid
    && received.kind == KindOf(sent)
    && GetQueryNodeID(received) == (if KindOf(sent) == TYPE_QUERY then Some(sent.id) else None)
    && IdUnder(received.response, KEY_ID) == (if KindOf(sent) == TYPE_RESPONSE then Some(sent.id) else None)
    && (KindOf(sent) != TYPE_QUERY ==> received.args == None)
    && (KindOf(sent) != TYPE_RESPONSE ==> received.response == None)
    && (KindOf(sent) != TYPE_ERROR ==> received.error == [])
    && match sent
       case Ping(_) => received.query == QUERY_PING && GivesQuery(received, None, None, None, None)
       case FindNode(_, target) =>
         received.query == QUERY_FIND_NODE && GivesQuery(received, Some(target), None, None, None)
       case GetPeers(_, infoHash) =>
         received.query == QUERY_GET_PEERS && GivesQuery(received, None, Some(infoHash), None, None)
       case AnnouncePeer(_, infoHash, port, token, impliedPort) =>
         && received.query == QUERY_ANNOUNCE_PEER
         && GivesQuery(received, None, Some(infoHash), if impliedPort then None else Some(port), Some(token))
       case PingResponse(_) => GivesResponse(received, None, [], [])
       case AnnouncePeerResponse(_) => GivesResponse(received, None, [], [])
       case FindNodeResponse(_, nodes) => GivesResponse(received, None, CanonicalNodes(nodes), [])
       case GetPeersResponseNodes(_, token, nodes) =>
         GivesResponse(received, Some(token), CanonicalNodes(nodes), [])
       case GetPeersResponsePeers(_, token, peers) =>
         GivesResponse(received, Some(token), [], CanonicalPeers(peers))
       case ErrorMessage(code, message) => received.error == [Int64(code), Slice(message)]
  }

  lemma {:induction false} PeersInValues(peers: PeerList)
    ensures PeersIn(PeerValues(peers)) == CanonicalPeers(peers)
  {
    hide WireAddress;
    if peers != [] {
      PeersInValues(peers[1..]);
      assert PeerValues(peers)[1..] == PeerValues(peers[1..]);
    }
  }

  lemma MessageOfQuery(tid: ByteString, name: ByteString, args: Args)
    ensures MessageFrom(Normalize(Query(tid, name, args)).entries)
         == Message(tid, TYPE_QUERY, name, Some(Normalize(Dict(args)).entries), None, [])
  {
    hide Normalize;
    NormalizedDict(Query(tid, name, args));
    ScalarNormal(tid, 0);
    ScalarNormal(name, 0);
    ScalarNormal(TYPE_QUERY, 0);
    NormalizedDict(Dict(args));
  }

  lemma MessageOfResponse(tid: ByteString, values: Args)
    ensures MessageFrom(Normalize(Response(tid, values)).entries)
         == Message(tid, TYPE_RESPONSE, [], None, Some(Normalize(Dict(values)).entries), [])
  {
    hide Normalize;
    NormalizedDict(Response(tid, values));
    ScalarNormal(tid, 0);
    ScalarNormal(TYPE_RESPONSE, 0);
    NormalizedDict(Dict(values));
  }

  lemma ScalarNormal(s: ByteString, n: int64)
    ensures Normalize(Slice(s)) == Slice(s) && Normalize(Text(s)) == Slice(s)
    ensures Normalize(Int(n)) == Int64(n)
  {
  }

  lemma MessageOfError(tid: ByteString, code: int64, message: ByteString)
    ensures MessageFrom(Normalize(ToValue(tid, ErrorMessage(code, message))).entries)
         == Message(tid, TYPE_ERROR, [], None, None, [Int64(code), Slice(message)])
  {
    var v := ToValue(tid, ErrorMessage(code, message));
    NormalizedDict(v);
    assert Normalize(v.entries[KEY_E]).items == [Int64(code), Slice(message)];
  }

  lemma PingRecovered(tid: ByteString, m: Outgoing)
    requires m.Ping?
    ensures Recovers(MessageFrom(Normalize(ToValue(tid, m)).entries), tid, m)
  {
    hide Normalize, MessageFrom;
    var args := ToValue(tid, m).entries[KEY_A].entries;
    MessageOfQuery(tid, QUERY_PING, args);
    NormalizedDict(Dict(args));
    ScalarNormal(m.id, 0);
  }

  lemma FindNodeRecovered(tid: ByteString, m: Outgoing)
    requires m.FindNode?
    ensures Recovers(MessageFrom(Normalize(ToValue(tid, m)).entries), tid, m)
  {
    hide Normalize, MessageFrom;
    var args := ToValue(tid, m).entries[KEY_A].entries;
    MessageOfQuery(tid, QUERY_FIND_NODE, args);
    NormalizedDict(Dict(args));
    ScalarNormal(m.id, 0);
    ScalarNormal(m.target, 0);
  }

  lemma GetPeersRecovered(tid: ByteString, m: Outgoing)
    requires m.GetPeers?
    ensures Recovers(MessageFrom(Normalize(ToValue(tid, m)).entries), tid, m)
  {
    hide Normalize, MessageFrom;
    var args := ToValue(tid, m).entries[KEY_A].entries;
    MessageOfQuery(tid, QUERY_GET_PEERS, args);
    NormalizedDict(Dict(args));
    ScalarNormal(m.id, 0);
    ScalarNormal(m.infoHash, 0);
  }

  lemma AnnounceRead(received: Message, args: Args, m: Outgoing)
    requires m.AnnouncePeer? && received.args == Some(args)
    requires args == map[KEY_ID := Slice(m.id), KEY_INFO_HASH := Slice(m.infoHash), KEY_PORT := Int64(m.port),
                         KEY_TOKEN := Slice(m.token), KEY_IMPLIED_PORT := Int64(if m.impliedPort then 1 else 0)]
    ensures GetQueryNodeID(received) == Some(m.id)
    ensures GivesQuery(received, None, Some(m.infoHash), if m.impliedPort then None else Some(m.port), Some(m.token))
  {
    assert KEY_TARGET !in args;
    assert args[KEY_PORT] == Int64(m.port) && args[KEY_TOKEN] == Slice(m.token);
  }

  lemma AnnounceArgs(m: Outgoing, args: Args)
    requires m.AnnouncePeer?
    requires args == map[KEY_ID := Slice(m.id), KEY_INFO_HASH := Slice(m.infoHash), KEY_PORT := Int(m.port),
                         KEY_TOKEN := Slice(m.token), KEY_IMPLIED_PORT := Int(if m.impliedPort then 1 else 0)]
    ensures Normalize(Dict(args)).entries
         == map[KEY_ID := Slice(m.id), KEY_INFO_HASH := Slice(m.infoHash), KEY_PORT := Int64(m.port),
                KEY_TOKEN := Slice(m.token), KEY_IMPLIED_PORT := Int64(if m.impliedPort then 1 else 0)]
  {
    hide Normalize;
    NormalizedDict(Dict(args));
    ScalarNormal(m.id, 0);
    ScalarNormal(m.infoHash, m.port);
    ScalarNormal(m.token, if m.impliedPort then 1 else 0);
  }

  lemma AnnounceRecovered(tid: ByteString, m: Outgoing)
    requires m.AnnouncePeer?
    ensures Recovers(MessageFrom(Normalize(ToValue(tid, m)).entries), tid, m)
  {
    hide Normalize, MessageFrom, GivesQuery, GetQueryNodeID, IdUnder;
    var args := ToValue(tid, m).entries[KEY_A].entries;
    MessageOfQuery(tid, QUERY_ANNOUNCE_PEER, args);
    AnnounceArgs(m, args);
    ToValueIsDict(tid, m);
    NormalizedDict(Dict(args));
    AnnounceRead(MessageFrom(Normalize(ToValue(tid, m)).entries), Normalize(Dict(args)).entries, m);
    NoResponse(MessageFrom(Normalize(ToValue(tid, m)).entries));
  }

  lemma NoResponse(m: Message)
    ensures m.response == None ==> IdUnder(m.response, KEY_ID) == None
    ensures m.args == None ==> GetQueryNodeID(m) == None
  {
  }

  lemma QueryRecovered(tid: ByteString, m: Outgoing)
    requires KindOf(m) == TYPE_QUERY
    ensures Recovers(MessageFrom(Normalize(ToValue(tid, m)).entries), tid, m)
  {
    hide Normalize, MessageFrom, Recovers, ToValue;
    ToValueIsDict(tid, m);
    match m
    case Ping(_) => PingRecovered(tid, m);
    case FindNode(_, _) => FindNodeRecovered(tid, m);
    case GetPeers(_, _) => GetPeersRecovered(tid, m);
    case AnnouncePeer(_, _, _, _, _) => AnnounceRecovered(tid, m);
  }

  lemma BareResponseRecovered(tid: ByteString, m: Outgoing)
    requires m.PingResponse? || m.AnnouncePeerResponse?
    ensures Recovers(MessageFrom(Normalize(ToValue(tid, m)).entries), tid, m)
  {
    hide Normalize, MessageFrom;
    var values := ToValue(tid, m).entries[KEY_R].entries;
    MessageOfResponse(tid, values);
    NormalizedDict(Dict(values));
    ScalarNormal(m.id, 0);
  }

  lemma NodesRead(received: Message, values: Args, id: NodeID, token: Option<ByteString>, nodes: NodeList)
    requires received.response == Some(values)
    requires values == (if token.Some? then map[KEY_TOKEN := Slice(token.value)] else map[])
                       + map[KEY_ID := Slice(id), KEY_NODES := Slice(CompactNodes(nodes))]
    ensures IdUnder(received.response, KEY_ID) == Some(id)
    ensures GivesResponse(received, token, CanonicalNodes(nodes), [])
  {
    hide NodesOf, CompactNodes;
    CompactNodesRoundTrip(nodes);
    assert KEY_VALUES !in values;
    assert values[KEY_ID] == Slice(id) && values[KEY_NODES] == Slice(CompactNodes(nodes));
    assert token.Some? ==> values[KEY_TOKEN] == Slice(token.value);
  }

  lemma NodesRecovered(tid: ByteString, m: Outgoing)
    requires m.FindNodeResponse? || m.GetPeersResponseNodes?
    ensures Recovers(MessageFrom(Normalize(ToValue(tid, m)).entries), tid, m)
  {
    hide Normalize, MessageFrom, GivesResponse, GetQueryNodeID, IdUnder, NodesOf, CompactNodes;
    var values := ToValue(tid, m).entries[KEY_R].entries;
    MessageOfResponse(tid, values);
    NormalizedDict(Dict(values));
    ScalarNormal(m.id, 0);
    ScalarNormal(CompactNodes(m.nodes), 0);
    var token := if m.GetPeersResponseNodes? then Some(m.token) else None;
    if token.Some? {
      ScalarNormal(token.value, 0);
    }
    ToValueIsDict(tid, m);
    assert Normalize(Dict(values)).entries == values;
    NodesRead(MessageFrom(Normalize(ToValue(tid, m)).entries), values, m.id, token, m.nodes);
    NoResponse(MessageFrom(Normalize(ToValue(tid, m)).entries));
  }

  lemma PeersRecovered(tid: ByteString, m: Outgoing)
    requires m.GetPeersResponsePeers?
    ensures Recovers(MessageFrom(Normalize(ToValue(tid, m)).entries), tid, m)
  {
    hide Normalize, MessageFrom, EncodeCompactPeer, PeersIn;
    var values := ToValue(tid, m).entries[KEY_R].entries;
    MessageOfResponse(tid, values);
    NormalizedDict(Dict(values));
    ScalarNormal(m.id, 0);
    ScalarNormal(m.token, 0);
    PeerValuesNormal(m.peers);
    PeersInValues(m.peers);
  }

  lemma ResponseRecovered(tid: ByteString, m: Outgoing)
    requires KindOf(m) == TYPE_RESPONSE
    ensures Recovers(MessageFrom(Normalize(ToValue(tid, m)).entries), tid, m)
  {
    hide Normalize, MessageFrom, Recovers, ToValue;
    ToValueIsDict(tid, m);
    match m
    case FindNodeResponse(_, _) => NodesRecovered(tid, m);
    case GetPeersResponseNodes(_, _, _) => NodesRecovered(tid, m);
    case GetPeersResponsePeers(_, _, _) => PeersRecovered(tid, m);
    case _ => BareResponseRecovered(tid, m);
  }

  lemma PeerValuesNormal(peers: PeerList)
    ensures Normalize(List(PeerValues(peers))) == List(PeerValues(peers))
  {
    hide EncodeCompactPeer;
  }

  /** Decoding the bytes of any constructor, with anything behind them, recovers its
      transaction id, kind and every argument through the accessors. */
  lemma MessageRoundTrip(tid: ByteString, m: Outgoing, tail: bytes)
    ensures var res := DecodeMessage(Encoding(ToValue(tid, m)) + tail);
            res.Ok? && Recovers(res.value, tid, m)
  {
    hide MessageFrom, Normalize, Recovers, ToValue, Encoding;
    var v := ToValue(tid, m);
    ToValueIsDict(tid, m);
    AllEncodable(tid, m);
    DecodeAfterEncode(v, tail);
    NormalizedDict(v);
    if KindOf(m) == TYPE_QUERY {
      QueryRecovered(tid, m);
    } else if KindOf(m) == TYPE_RESPONSE {
      ResponseRecovered(tid, m);
    } else {
      ErrorRecovered(tid, m);
    }
  }

  lemma ToValueIsDict(tid: ByteString, m: Outgoing)
    ensures ToValue(tid, m).Dict? && Normalize(ToValue(tid, m)).Dict?
  {
  }

  lemma ErrorRecovered(tid: ByteString, m: Outgoing)
    requires m.ErrorMessage?
    ensures Recovers(MessageFrom(Normalize(ToValue(tid, m)).entries), tid, m)
  {
    hide MessageFrom, Normalize;
    MessageOfError(tid, m.code, m.message);
  }
}
