# A verified model of the DHT crawler

The crawler joins the BitTorrent distributed hash table, watches which info hashes other
nodes ask for, and downloads and stores the metadata of the torrents behind them. This
project models the parts of it where a mistake would be hard to see from reading one
function, and proves what they keep, in Dafny 4.11. `dafny verify dfyconfig.toml` checks
everything.

How the files are organised:

- **Bencode** (BEP 3, section "bencoding"). `BencodeSpec` says what the encoder writes and
  what the decoder reads; `Bencode` holds the encoder, the decoder and the lookups as they
  run, over a reader that advances and a buffer that grows, proved against it. `Decimal`
  and `SortedKeys` are the integer texts and the key order it rests on.
  `BencodeRoundTrip`, `BencodeLocality` and `BencodeCanonical` are the laws.
  `BencodeGrammar` describes the accepted texts as a grammar and proves that the decoder
  accepts exactly those; `Examples` holds the messages printed in BEP 3, BEP 5 and BEP 9.
- **Getters** in `Fields`: what a decoded dictionary holds under a key, whatever else is in it.
- **KRPC messages** (BEP 5, sections "KRPC Protocol" and "Contact Encoding") in `Krpc`: the
  ten constructors, the message decoder, the accessors and the compact contact codecs;
  `KrpcReading` says what is read from messages of other implementations.
- **Identifiers and the routing table**. `Words` are the bit operations on bytes,
  `ExclusiveOr` is the arithmetic of XOR, `NodeId` the byte loops over 160-bit identifiers,
  `KeySpace` the spreading of several nodes over the key space. `TableSpec` says what each
  table operation does to the buckets,
  `RoutingTable` holds the table and its buckets as objects changed in place, `TableLaws`
  and `Closest` hold what follows for every run and every query. The table has 160 fixed
  buckets, not the splitting buckets of BEP 5, section "Routing Table".
- **Sightings and the crawl pipeline**. `HashCache` counts sightings and flushes them in
  batches. `DownloadQueue` is the queue with its in-flight marks. `Pipeline` is the whole
  pipeline (submitters, queue, feeder, jobs channel, workers, jobs, storage,
  cancellation) as a system of atomic steps: each locked region, atomic operation, channel
  operation or storage call is one step, and every interleaving is a run.
  `PipelineSafety`, `PipelineBounds` and `PipelineJobs` prove what holds in all of them,
  `PipelineProgress` which runs there are;
  `Bags` collects and counts what the parts of a state hold.
- **Metadata transfer** (BEP 9, section "extension message"). `Framing` is the
  length-prefixed stream, `MetadataRequests` the requests and what their reader sees,
  `Metadata` the download and the assembly of pieces in a byte array, `MetadataLaws` what
  the assembled bytes are. `TorrentInfo` is what is read from them, `TorrentReading` what
  that means for any dictionary.
- **Lookups** in `DhtNode`: transaction ids, pending replies and the rounds of `FindPeers`.

Time is a parameter of every operation that reads the clock. The network is the sequence of
bytes or replies that arrive, and may be anything. Randomness is any value of its
range, or a failure.

Where the code does not do what one would expect of it:

- The decoder accepts more than BEP 3 writes: unsorted and repeated keys (the last value
  wins), leading zeros and plus signs. `AcceptsIff`, `IntegerSpellings` and
  `StringSpellings` say exactly how far this goes, `EncodeAfterDecode` that it does no harm.
- `Flush` raises `totalFlushed` before it knows whether the insert succeeds;
  `SightingsConserved` says by how much it exceeds what was inserted. Putting a failed batch
  back can lose the first sighting: `FirstSeenKept` gives the exact condition over runs,
  `FirstSeenLost` a run.
- Piece data longer than a piece overwrites the next one; `OverlongDataSpills` says exactly
  when. A negative `metadata_size` makes the download panic; `DownloadMetadata` says exactly
  when.
- The directories of a file inside a torrent are joined in reverse. `PathRightIff` gives the
  exact condition for the path to be right, for components that hold slashes too;
  `PlainPathRightIff` is the case without slashes, where the directories must read the same
  backwards, and `PathSwapped` an input where the path is wrong.
- A feeder cancelled while it hands over a job, and a worker cancelled while it waits for a
  place in its semaphore, return without removing the mark of the hash in hand. The marks are
  at every moment exactly the held hashes and the ones abandoned so (`MarksAreOwnership`), so
  marks and holders agree exactly when nothing was abandoned; `MarksOutliveCancellation` gives
  a run for each of the two causes.
- `processJob` has a branch that searches for peers when a job names none. The feeder never
  passes such a job on (`JobsWereSubmitted`), so the branch is not reached.

## Model

| member | source | states |
|---|---|---|
| Decimal.ParseIntOfDecimal | internal/bt/bencode.go:38-45 | every 64-bit integer is read back from the decimal text written for it |
| Decimal.LiberalSpellings | internal/bt/bencode.go:129 | for every 64-bit integer, any number of leading zeros, with or without a plus sign, or behind the minus sign, is accepted and does not change the value |
| Decimal.ParseIntIff | internal/bt/bencode.go:129 | an integer text is accepted with a value if and only if it is any number of zeros and the decimal digits, behind a minus, or behind a plus or nothing for values that are not negative |
| Decimal.DecimalShortest | internal/bt/bencode.go:117-130 | no accepted integer text is shorter than the text the encoder writes for its value |
| Bytes.ToNatOfBigEndian | internal/bt/metadata.go:354-358 | a fixed-width big-endian number reads back as the number written |
| Bytes.BigEndianOfToNat | internal/dht/krpc.go:360-392 | writing the number read from some bytes gives those bytes again |
| SortedKeys.LessIff | internal/bt/bencode.go:58 | the key order is: two keys agree up to some place, and there the first has ended, or both go on and the first has the smaller byte |
| SortedKeys.SortedPrecedes | internal/bt/bencode.go:58 | in a sorted list every key is before every later one in that order |
| SortedKeys.SortedUnique | internal/bt/bencode.go:53-58 | a set of keys has one arrangement in which every key is before the next in the order of `LessIff`, so map iteration order cannot show in the output |
| Bencode.Reader.ReadByte | internal/bt/bencode.go:97-100 | takes the next byte, or reports the end without moving |
| Bencode.Reader.PeekByte | internal/bt/bencode.go:211-218 | tells the next byte and leaves the position where it was |
| Bencode.Reader.ReadFull | internal/bt/bencode.go:155-159 | takes exactly the next n bytes or fails |
| Bencode.DecodeInt | internal/bt/bencode.go:117-130 | result, error and final position are those of the specified integer parse |
| Bencode.DecodeString | internal/bt/bencode.go:132-161 | the same for strings, including each way a length prefix can be wrong |
| Bencode.DecodeList | internal/bt/bencode.go:163-180 | the item loop collects exactly the values of the specified recursive parse |
| Bencode.DecodeDictEntries | internal/bt/bencode.go:182-208 | the entry loop builds exactly the dictionary of the specified recursive parse, later keys over earlier ones |
| Bencode.DecodeFrom | internal/bt/bencode.go:96-115 | terminates on every input, with the value, error and position of the specified parse |
| Bencode.Decode | internal/bt/bencode.go:74-81 | the first value of the input, whatever follows it |
| Bencode.DecodeDict | internal/bt/bencode.go:84-94 | the first value if it is a dictionary, an error otherwise |
| Bencode.SortStrings | internal/bt/bencode.go:58 | the same keys, each before all later ones: at the first place where two differ the earlier one has ended or has the smaller byte |
| Bencode.KeysInOrder | internal/bt/bencode.go:53-58 | whatever order the map yields its keys in, the result is the one arrangement in that order |
| Bencode.EncodeTo | internal/bt/bencode.go:28-70 | succeeds exactly on values built from supported types, and then appends exactly the specified encoding to what the buffer held |
| Bencode.EncodeListTo | internal/bt/bencode.go:46-50 | the same for lists |
| Bencode.EncodeDictTo | internal/bt/bencode.go:51-65 | the same for dictionaries, whose entries are written in the order of `LessIff` (`BencodeCanonical.DictEncodedInOrder`) |
| Bencode.Encode | internal/bt/bencode.go:20-26 | gives bytes exactly for supported values, and those bytes are the specified encoding |
| BencodeRoundTrip.ValueRoundTrip | internal/bt/bencode.go:28-115 | wherever an encoding stands in a byte string, decoding there gives the value (strings as bytes, integers as int64) and stops exactly behind it |
| BencodeRoundTrip.ItemsRoundTrip | internal/bt/bencode.go:163-180 | encoded items up to the end mark decode to the items, in order |
| BencodeRoundTrip.EntriesRoundTrip | internal/bt/bencode.go:182-208 | encoded entries in any key order, repeated or not, decode to the dictionary before them updated with each in turn |
| BencodeRoundTrip.StringRoundTrip | internal/bt/bencode.go:132-161 | an encoded string reads back and ends at its last byte, whatever bytes it contains |
| BencodeRoundTrip.IntegerRoundTrip | internal/bt/bencode.go:117-130 | an encoded integer reads back and ends behind its end mark |
| BencodeLocality.ValueLocal | internal/bt/bencode.go:96-208 | a successful decode depends only on the bytes it consumed |
| BencodeLocality.ValueTruncated | internal/bt/bencode.go:96-208 | cutting an accepted input anywhere inside the consumed bytes gives the end-of-input error and nothing else |
| BencodeLocality.DecodeLocal | internal/bt/metadata.go:321-349 | the consumed bytes alone decode to the same value, followed by anything they still do, and no shorter prefix decodes |
| BencodeCanonical.PutLength | internal/bt/bencode.go:196-207 | storing an entry in a dictionary never lengthens its encoding by more than the entry's own encoding |
| BencodeCanonical.ValueCanonical | internal/bt/bencode.go:96-208 | whatever spelling was accepted, the decoded value is in normal form and its encoding is no longer than the bytes consumed |
| BencodeCanonical.EntriesCanonical | internal/bt/bencode.go:182-208 | the same for dictionaries with unsorted or repeated keys, by accounting for every entry read |
| BencodeCanonical.DecodeAfterEncode | internal/bt/bencode.go:20-81 | encoding and decoding any supported value, followed by any bytes, gives its normal form |
| BencodeCanonical.EncodeAfterDecode | internal/bt/bencode.go:20-115 | every accepted input re-encodes, to at most its own length, and that encoding decodes to the same value |
| BencodeCanonical.EncodingCanonical | internal/bt/bencode.go:28-70 | two values have the same encoding if and only if they have the same normal form |
| BencodeCanonical.DictEncodedInOrder | internal/bt/bencode.go:51-65 | an encoded dictionary is its entries between the marks, the keys in increasing byte order, each key of the dictionary once |
| BencodeCanonical.EncodingPrefixFree | internal/bt/bencode.go:28-70 | no encoding is a proper prefix of another |
| BencodeGrammar.AcceptsIff | internal/bt/bencode.go:96-208 | decoding at a position gives a value and an end if and only if the bytes between spell the value in the grammar of accepted texts; nothing else is accepted and each text has one value |
| BencodeGrammar.AcceptsStringIff | internal/bt/bencode.go:132-161 | the same for strings: digits in 64-bit range, a colon and exactly that many bytes |
| BencodeGrammar.DecodesIff | internal/bt/bencode.go:74-81 | Decode gives a value if and only if some prefix of the input spells it |
| BencodeGrammar.IntegerSpellings | internal/bt/bencode.go:117-130 | at any position, an integer with any number of leading zeros, with a plus or a minus, is decoded to its value and left behind its end mark |
| BencodeGrammar.StringSpellings | internal/bt/bencode.go:132-161 | at any position, a string whose length has any number of leading zeros is decoded to its bytes |
| Examples.BencodeStrings | internal/bt/bencode.go:30-33 | the strings of BEP 3: `4:spam` and the empty one |
| Examples.BencodeIntegers | internal/bt/bencode.go:38-45 | the integers of BEP 3: `i3e`, `i-3e`, `i0e` |
| Examples.BencodeList | internal/bt/bencode.go:46-50 | the list of BEP 3: `l4:spam4:eggse` |
| Examples.BencodeDict | internal/bt/bencode.go:51-65 | the dictionary of BEP 3, built in the other order: `d3:cow3:moo4:spam4:eggse` |
| Examples.PingExample | internal/dht/krpc.go:58-68 | the ping query printed in BEP 5, byte for byte |
| Examples.PingResponseExample | internal/dht/krpc.go:71-80 | the ping response printed in BEP 5 |
| Examples.FindNodeExample | internal/dht/krpc.go:83-94 | the find_node query printed in BEP 5 |
| Examples.GetPeersExample | internal/dht/krpc.go:110-121 | the get_peers query printed in BEP 5 |
| Examples.AnnounceExample | internal/dht/krpc.go:156-174 | the announce_peer query printed in BEP 5 |
| Examples.PeersExample | internal/dht/krpc.go:138-153 | the get_peers response with peers printed in BEP 5 |
| Examples.ErrorExample | internal/dht/krpc.go:189-196 | the error message printed in BEP 5 |
| Examples.RequestExample | internal/bt/metadata.go:306-318 | the request printed in BEP 9 |
| Fields.TextRead | internal/bt/bencode.go:223-252 | a string is read under a key if and only if one is stored there, whatever the other keys |
| Fields.IntRead | internal/bt/bencode.go:255-268 | the same for integers |
| Fields.ContainerRead | internal/bt/bencode.go:271-288 | the same for dictionaries and lists |
| Krpc.EncodeCompactNodes | internal/dht/krpc.go:348-357 | the array filled in place holds the wire forms of the nodes, 26 bytes each in order |
| Krpc.DecodeCompactNodes | internal/dht/krpc.go:360-373 | nothing unless the length is a multiple of 26, else one node for each 26 bytes |
| Krpc.PeerRoundTrip | internal/dht/krpc.go:376-392 | a compact peer always decodes, and to the same peer if and only if it has a four-byte address and a 16-bit port |
| Krpc.NodeRoundTrip | internal/dht/krpc.go:348-373 | the identifier always survives, the whole contact exactly for four-byte addresses and 16-bit ports |
| Krpc.CompactNodesRoundTrip | internal/dht/krpc.go:348-373 | a node list of any length comes back node by node, unchanged if and only if every contact is of that form |
| Krpc.CompactNodesOfDecoded | internal/dht/krpc.go:348-373 | re-encoding decoded nodes gives the original bytes |
| Krpc.AllEncodable | internal/dht/krpc.go:58-196 | no constructor can fail |
| Krpc.EncodeMessage | internal/dht/krpc.go:58-196 | every constructor emits exactly the encoding of its message dictionary |
| Krpc.GetResponsePeers | internal/dht/krpc.go:320-336 | for every response with a list under "values" and any other keys, the peers are, one for one and in order, those of exactly the entries that are strings of six bytes, each with the first four as address and 256 times the fifth plus the sixth as port, all other entries skipped wherever they stand; without such a list none |
| Krpc.QueryRecovered | internal/dht/krpc.go:199-306 | a decoded query gives sender, target, info hash, port and token through the accessors where they were sent, and nothing where they were not |
| Krpc.AnnounceRecovered | internal/dht/krpc.go:286-306 | port and token of an announcement come back, and the port is withheld exactly when it is implied by the source |
| Krpc.ResponseRecovered | internal/dht/krpc.go:309-344 | a decoded response gives token, the whole node list and the whole peer list where they were sent, and nothing where they were not |
| Krpc.ErrorRecovered | internal/dht/krpc.go:189-196 | code and text of an error come back |
| Krpc.MessageRoundTrip | internal/dht/krpc.go:58-344 | for every constructor, all arguments and any trailing bytes, decoding the emitted bytes recovers transaction id, type and every argument, and no accessor gives anything that was not sent |
| Krpc.LongKeys | internal/dht/krpc.go:58-345 | the keys of arguments and responses are the texts BEP 5 names |
| KrpcReading.MessageRead | internal/dht/krpc.go:206-237 | from any dictionary: the transaction id and type under "t" and "y", and only what belongs to the type: "q" and "a", or "r", or "e"; nothing where the key is missing or holds another type |
| KrpcReading.PacketRead | internal/dht/krpc.go:199-238 | a packet is accepted if and only if some prefix of it spells a dictionary, and then that dictionary is read, whatever follows |
| KrpcReading.QueryIdsRead | internal/dht/krpc.go:241-283 | whatever else the arguments hold, sender, target and info hash are given if and only if "id", "target", "info_hash" are strings of twenty bytes, and are those |
| KrpcReading.AnnounceArgsRead | internal/dht/krpc.go:286-344 | the port is given if and only if "port" is an integer and "implied_port" is not 1; tokens of queries and responses if and only if "token" is a string |
| KrpcReading.ResponseNodesRead | internal/dht/krpc.go:309-317 | the nodes of a response with any further keys are those of the string under "nodes": none unless its length is a multiple of 26, else one for each 26 bytes, in order, twenty of identifier, four of address, and 256 times the next plus the last as port |
| KrpcReading.AddressWritten | internal/dht/krpc.go:348-381 | an address is written as its four bytes, or the last four of an IPv4-mapped one, or zeros, and the port modulo 65536, high byte first |
| ExclusiveOr.XorIsBitwise | internal/dht/id.go:66-72 | the machine's XOR of two bytes is XOR of the numbers, bit by bit |
| ExclusiveOr.XorConcat | internal/dht/id.go:66-72 | XOR acts on the high and the low part of two numbers separately |
| ExclusiveOr.XorTriangle | internal/dht/id.go:66-72 | XOR satisfies the triangle inequality |
| ExclusiveOr.XorInjective | internal/dht/id.go:66-72 | different numbers have different XOR with a fixed one |
| ExclusiveOr.XorSameTop | internal/dht/id.go:107-114 | numbers with the same top bit have a distance below that bit |
| ExclusiveOr.XorOneTop | internal/dht/id.go:107-114 | if only one has the bit, the distance has it as its top bit |
| NodeId.Distance | internal/dht/id.go:66-72 | the byte loop gives the bytewise XOR |
| NodeId.ToNatOfXorBytes | internal/dht/id.go:66-72 | bytewise XOR of two byte strings is XOR of the big-endian numbers they spell |
| NodeId.Less | internal/dht/id.go:75-85 | the byte comparison is numeric order of the 160-bit numbers |
| NodeId.LeadingZeros | internal/dht/id.go:89-103 | 160 for the zero identifier, otherwise 159 minus the position of the highest set bit |
| NodeId.LeadingBits | internal/dht/id.go:92-98 | the mask loop counts the zero bits above the highest set bit of a byte |
| NodeId.BucketIndex | internal/dht/id.go:107-114 | always a bucket of the table, 0 for the local identifier itself |
| NodeId.BucketIsLog | internal/dht/id.go:107-114 | for distinct identifiers the index is i if and only if the distance is at least 2^i and below 2^(i+1) |
| NodeId.DistZeroIff | internal/dht/id.go:66-72 | distance zero if and only if the identifiers are equal |
| NodeId.DistSymmetric | internal/dht/id.go:66-72 | distance is symmetric |
| NodeId.DistTriangle | internal/dht/id.go:66-72 | distance satisfies the triangle inequality |
| NodeId.DistInjective | internal/dht/id.go:66-72 | two identifiers at the same distance from a target are equal |
| NodeId.HexInjective | internal/dht/id.go:117-119 | different identifiers have different hexadecimal texts |
| NodeId.HexSpells | internal/dht/id.go:117-119 | read to base 16, the two digits of each byte, the first counting sixteenfold, give that byte |
| KeySpace.FixedBytes | internal/dht/id.go:50-59 | a number below 2^160 is stored in 20 bytes without losing anything |
| KeySpace.RandomBelow | internal/dht/id.go:42-46 | an offset below the bound or a failure, as the source of randomness decides |
| KeySpace.GenerateDistributedIDs | internal/dht/id.go:28-63 | rejects exactly the counts that are not positive; otherwise it fails with the source of randomness or gives that many identifiers, the i-th inside the i-th segment whatever the random offsets |
| KeySpace.SegmentsFit | internal/dht/id.go:33-35 | the segments are not empty, lie inside the key space and miss fewer than count keys |
| KeySpace.IdsIncrease | internal/dht/id.go:28-63 | the identifiers strictly increase, neighbours less than two segments apart |
| KeySpace.EveryKeyIsNear | internal/dht/id.go:28-63 | every key is within one segment plus count of some identifier |
| TableSpec.StepKeepsInv | internal/dht/routing.go:64-133 | one operation keeps: at most eight contacts a bucket, each in the bucket its identifier indexes, no identifier twice, the local one never |
| TableSpec.RunKeepsInv | internal/dht/routing.go:64-244 | so does every run of insertions, removals and touches from the empty table, at any times |
| TableSpec.LookupIsMembership | internal/dht/routing.go:161-174 | looking up an identifier finds a contact if and only if some bucket holds that contact |
| TableSpec.IdsUnique | internal/dht/routing.go:64-117 | an identifier has one place in the whole table |
| TableLaws.InsertEffect | internal/dht/routing.go:64-117 | the inserted contact is stored exactly when insertion says so, a refusal changes nothing, and any other contact that changes is gone, was stale and shared the full bucket |
| TableLaws.OneEvicted | internal/dht/routing.go:101-113 | one insertion evicts at most one contact |
| TableLaws.InsertLists | internal/dht/routing.go:64-117 | in the bucket whose contacts are at distances from 2^i up to 2^(i+1): a known contact moves behind the others; a new one goes behind them while there are fewer than eight, or else takes the place of the first one unseen for more than 900,000,000,000 ns, or is refused if there is none; all other buckets stay |
| TableLaws.RemoveTouchLists | internal/dht/routing.go:120-244 | removal closes the gap and keeps the order, a touch changes one time in place; all other buckets stay |
| TableLaws.RemoveEffect | internal/dht/routing.go:120-133 | removal takes out that identifier and leaves every other lookup as it was |
| TableLaws.TouchEffect | internal/dht/routing.go:231-244 | a touch changes the time of one known contact and nothing else |
| TableLaws.SeenRecently | internal/dht/routing.go:64-117 | with a clock that never runs back, a stored contact's time is never older than any event that mentioned it |
| TableLaws.NoFreshEviction | internal/dht/routing.go:101-113 | so no insertion evicts a contact mentioned within the timeout |
| TableLaws.BucketOccupancy | internal/dht/routing.go:64-117 | bucket i holds at most the smaller of 8 and 2^i contacts |
| TableLaws.Occupancy | internal/dht/routing.go:195-204 | a reachable table holds at most 1263 contacts, its first three buckets at most 1, 2 and 4 |
| TableLaws.OccupancyReached | internal/dht/routing.go:64-117 | for every local identifier some run of insertions reaches 1263 |
| Closest.ClosestUnique | internal/dht/routing.go:146-157 | there is one correct answer to a nearest-contacts query, so the instability of the sort cannot show |
| Closest.RankDecides | internal/dht/routing.go:136-158 | a contact of an earlier bucket in the order target bucket, lower buckets, then upwards is strictly nearer to the target |
| Closest.OrderDecides | internal/dht/routing.go:136-158 | the same for every target, including the local identifier, for which the buckets go upwards from 0 |
| Closest.AnswerFollowsBuckets | internal/dht/routing.go:136-158 | an answer lists the target's bucket first, then all lower buckets, then the higher ones in turn (for the local identifier all in turn), and leaves none out that would come before one it holds |
| Closest.WalkIsSorted | internal/dht/routing.go:136-158 | walking the buckets in that order (all buckets below the target's as one group) and sorting each group gives the whole table sorted by distance |
| Closest.AnswerIsWalk | internal/dht/routing.go:136-158 | so the full collect-and-sort gives exactly the first count contacts of the walk |
| Closest.ClosestInTable | internal/dht/routing.go:136-158 | an answer is right if and only if it has min(count, size) contacts of buckets, in strictly increasing distance, and every other contact of any bucket is farther than each of them |
| Closest.BucketStands | internal/dht/routing.go:207-216 | in the list of all contacts each bucket stands whole and in order behind the lower ones, and its length is the size of the table |
| RoutingTable.Bucket.Put | internal/dht/routing.go:76-116 | the bucket's list changes as specified for a known contact, for room, for a stale place and for none |
| RoutingTable.Bucket.Drop | internal/dht/routing.go:127-132 | the first contact with the identifier leaves the list, the order of the others stays |
| RoutingTable.Bucket.Refresh | internal/dht/routing.go:238-243 | the first contact with the identifier gets the new time, in place |
| RoutingTable.RoutingTable.constructor | internal/dht/routing.go:50-60 | 160 empty buckets, none shared |
| RoutingTable.RoutingTable.Insert | internal/dht/routing.go:64-117 | whole table and result are the specified ones and the invariant is kept; other buckets are untouched |
| RoutingTable.RoutingTable.Remove | internal/dht/routing.go:120-133 | whole table is the specified one and the invariant is kept |
| RoutingTable.RoutingTable.Touch | internal/dht/routing.go:231-244 | whole table is the specified one and the invariant is kept |
| RoutingTable.RoutingTable.GetNode | internal/dht/routing.go:161-174 | searching one bucket finds a contact if and only if it is anywhere in the table |
| RoutingTable.RoutingTable.Size | internal/dht/routing.go:195-204 | the number of contacts in all buckets, never above 1263 |
| RoutingTable.RoutingTable.GetAllNodes | internal/dht/routing.go:207-216 | all contacts, bucket by bucket |
| RoutingTable.RoutingTable.FindClosest | internal/dht/routing.go:136-158 | nothing exactly for a negative count, on which the source panics; otherwise min(count, size) contacts of the table in strictly increasing distance, every contact left out farther than every one returned |
| RoutingTable.Nearer | internal/dht/routing.go:147-151 | the comparison of the sort is comparison of numeric distances |
| RoutingTable.SortByDistance | internal/dht/routing.go:147-151 | the same contacts in strictly increasing distance |
| HashCache.Storage.InsertHashes | internal/storage/sqlite.go:253-273 | adds each count of the batch to its row while the database works, and otherwise changes nothing |
| HashCache.HashCache.Sight | internal/crawler/cache.go:44-56 | counts one more sighting, keeps the first time, and asks for a flush exactly when the cache has reached its size |
| HashCache.HashCache.Take | internal/crawler/cache.go:67-76 | hands out the whole cache and leaves an empty one |
| HashCache.HashCache.PutBack | internal/crawler/cache.go:89-97 | whatever order the batch is walked in, counts add up with those that arrived meanwhile |
| HashCache.HashCache.Flush | internal/crawler/cache.go:66-102 | succeeds if and only if the database works or nothing is cached; then the cache has moved into the rows, otherwise cache and rows are as before; `totalFlushed` rises in both cases |
| HashCache.HashCache.Add | internal/crawler/cache.go:43-63 | a flush happens exactly when the cache with the new sighting has reached its size, and whether it succeeds, fails or does not happen, cached plus stored count rises by one for this hash and for no other |
| HashCache.NextConserves | internal/crawler/cache.go:43-102 | one step of adding, taking, counting, committing, putting back or deleting keeps the count of every hash |
| HashCache.SightingsConserved | internal/crawler/cache.go:43-102 | in every interleaving with any number of overlapping flushes, sightings of a hash equal its cached, taken, stored and deleted counts together, and `totalFlushed` exceeds the entries inserted by those put back and those counted but not settled |
| HashCache.CanSettle | internal/crawler/cache.go:66-102 | from every state some run without sightings and deletions empties the cache and settles every batch |
| HashCache.CountsArrive | internal/crawler/cache.go:66-102 | so every reachable state can be followed by one in which the rows hold exactly the sightings less what was deleted |
| HashCache.FailedFlushLosesNothing | internal/crawler/cache.go:86-99 | putting a failed batch back keeps every count and touches no row |
| HashCache.StepRightIff | internal/crawler/cache.go:43-97 | while all recorded first times are those of the earliest sightings counted with them, one step keeps this if and only if it does not put a batch back over a later cached time |
| HashCache.FirstSeenKept | internal/crawler/cache.go:89-97 | with a clock that never runs back, the first time of a hash is right in the cache and in all unsettled batches throughout a run if and only if no step of the run puts a batch back over a later cached time |
| HashCache.FirstSeenLost | internal/crawler/cache.go:89-97 | a run of one failed flush after which the first sighting is too late |
| DownloadQueue.DownloadQueue.Mark | internal/crawler/cache.go:166 | sets the mark and tells whether it was already set |
| DownloadQueue.DownloadQueue.Complete | internal/crawler/cache.go:204-206 | removes the mark of this hash and changes nothing else |
| DownloadQueue.DownloadQueue.Add | internal/crawler/cache.go:164-186 | enqueues at the end if unmarked and there is room, else leaves the queue as it was with no mark of its own left; every queued hash stays marked and queued once |
| DownloadQueue.DownloadQueue.Get | internal/crawler/cache.go:189-201 | takes the first item and keeps its mark |
| DownloadQueue.DownloadQueue.Refill | internal/crawler/cache.go:216-245 | the loop over pending hashes changes queue and marks as specified |
| DownloadQueue.RefillKeeps | internal/crawler/cache.go:216-245 | a refill keeps the size bound and the old items in front, adds only listed hashes that were unmarked, once each and without a peer, marks exactly those, and leaves room only if every listed hash is marked |
| DownloadQueue.RefillInOrder | internal/crawler/cache.go:216-245 | the added hashes stand in the order of the list, and none is preferred to an earlier one that stays unmarked |
| PipelineSafety.StepHandsOver | internal/crawler/worker.go:80-242 | every step passes on a hash, newly acquires one under an unset mark, gives one up together with its mark, or abandons exactly what a returning feeder or worker has in hand |
| PipelineSafety.HandOverKeepsOwned | internal/crawler/cache.go:164-206 | such a change keeps the marks equal to the held and the abandoned hashes, each once, and so removes no mark someone else holds |
| PipelineSafety.StepTreatsRows | internal/crawler/worker.go:101-117 | every step stores only under a hash the feeder found absent, and clears only absent hashes |
| PipelineSafety.TreatmentKeepsRows | internal/crawler/worker.go:232-241 | hashes found absent stay absent until their own job stores them, and no row changes |
| PipelineSafety.ClearedIsHeld | internal/crawler/worker.go:101-117 | everything past the feeder's check is held through its mark |
| PipelineBounds.StepKeepsInv | internal/crawler/worker.go:80-242 | every step keeps ownership, absence, capacities, semaphores and counters together, and every row |
| PipelineBounds.RunKeepsInv | internal/crawler/worker.go:56-242 | so does every run, and no row of any moment is changed or lost later |
| PipelineBounds.MarksAreOwnership | internal/crawler/cache.go:164-206 | in every run the marks are exactly the hashes held by adders, queue, feeder, channel, workers and jobs and those abandoned on return, each once; marks and holders agree if and only if nothing was abandoned, and nothing is before cancellation |
| PipelineBounds.InsertNeverOverwrites | internal/crawler/worker.go:232 | in every interleaving, at the moment a job stores its torrent there is no row for that hash (that jobs do store: `PipelineProgress.FirstItem`) |
| PipelineBounds.RowsAreFinal | internal/crawler/worker.go:232-239 | a row that exists at some moment of a run is there unchanged at every later one, so a hash is stored at most once |
| PipelineBounds.CountersAgree | internal/crawler/worker.go:142-242 | rows added are successes plus jobs between storing and counting, and before cancellation successes plus failures are the finished jobs (that they rise: `PipelineProgress.FirstItem`) |
| PipelineBounds.Capacities | internal/crawler/worker.go:51 | queue at most 2NP, running and downloading at most NP, marks at most 4NP+N+12 even after cancellation, free tokens plus searches always 10, and a finished job can always release its slot |
| PipelineBounds.TokenToGiveBack | internal/crawler/worker.go:123-139 | a job's worker has a semaphore token for it, so giving it back never blocks |
| PipelineBounds.AddAlone | internal/crawler/cache.go:164-186 | the steps of an undisturbed Add have together the effect of the Add method |
| PipelineBounds.MarksOutliveCancellation | internal/crawler/worker.go:112-131 | from every start with room for a job, a run after which the feeder and one after which a worker has left a mark that nobody holds |
| PipelineProgress.FirstItem | internal/crawler/worker.go:80-242 | from every start with room for a job, for every item with a peer and an absent hash and every record, a run without cancellation ends with that row added, one success and everything else as at the start, so nothing held, marked, running or missing a token; and another with one failure and no row |
| PipelineProgress.ItemCanBeStored | internal/crawler/worker.go:80-242 | the same from every state at rest, whatever was crawled before |
| PipelineProgress.ItemCanFail | internal/crawler/worker.go:205-229 | the same for a failed download |
| PipelineProgress.JobsCanMove | internal/crawler/worker.go:142-242 | in every reachable state each running job has an enabled step, and a downloading one can store any record or fail |
| PipelineProgress.SearchRun | internal/crawler/crawler.go:234-240 | a limited search that starts gives its token back |
| PipelineProgress.ComesToRest | internal/crawler/worker.go:80-242 | no reachable state before cancellation is a dead end: some run without cancellation brings back every mark and token, ends every job and touches no row |
| PipelineProgress.AbsentHashCanBeStored | internal/crawler/worker.go:80-242 | so in every such state any absent hash with a peer can still be stored, with any record |
| PipelineProgress.ComesToAHalt | internal/crawler/worker.go:69-131 | after cancellation some run ends every job and lets feeder and workers return |
| PipelineJobs.StepKeepsJobs | internal/crawler/worker.go:88-118 | every step passes items on unchanged and lets none without a peer past the feeder |
| PipelineJobs.JobsWereSubmitted | internal/crawler/worker.go:95-117 | in every run each running job works on an item exactly as submitted, and the item names a peer |
| Framing.ReadMessage | internal/bt/metadata.go:367-390 | message, error and stream position are the specified ones, for keep-alives, over-long and cut messages too |
| Framing.MessageAtIs | internal/bt/metadata.go:367-390 | four bytes of length, the first counting most: zero is a keep-alive, more than 10,485,760 is refused, fewer bytes than promised is a lost connection, and otherwise kind and payload are exactly the bytes promised |
| Framing.SendExtMessage | internal/bt/metadata.go:353-364 | one write of exactly the frame of the extended message, or a failure that writes nothing |
| Framing.FrameRoundTrip | internal/bt/metadata.go:353-390 | a frame within the size limit is read back wherever it stands in the stream, and reading stops behind it |
| Framing.KeepAlive | internal/bt/metadata.go:372-374 | four zero bytes read as the empty message and are consumed |
| Metadata.ParseMetadataPiece | internal/bt/metadata.go:321-350 | decoding the dictionary's bytes alone a second time gives what the first pass found, and the data starts right behind |
| Metadata.DataMessageParsed | internal/bt/metadata.go:321-350 | index and data of any data message are recovered, even if the data looks like bencode |
| Metadata.PieceStarts | internal/bt/metadata.go:291-297 | an accepted piece starts inside the buffer |
| Metadata.CountTrueSet | internal/bt/metadata.go:296-299 | setting a clear flag raises the number of set flags by one |
| Metadata.CopyInto | internal/bt/metadata.go:297 | the buffer is overlaid from the offset with as much data as fits |
| Metadata.RequestAll | internal/bt/metadata.go:261-266 | what is written, read as messages from the end of the old output, is one request for each piece 0, 1, 2 and so on, and nothing behind them: kind 20, the extension id cut to a byte, then exactly a dictionary with "msg_type" 0 and "piece" the index; if the writes run out, for the pieces up to there |
| MetadataRequests.RequestRead | internal/bt/metadata.go:306-318 | the request for any piece is such a message |
| MetadataRequests.RequestLength | internal/bt/metadata.go:306-318 | and at most 43 bytes of dictionary, so no reader refuses it |
| Metadata.ReceivePieces | internal/bt/metadata.go:269-300 | the loop fills buffer and flags as specified, stops exactly when all flags are set, and its counter is the number of set flags |
| Metadata.DownloadMetadata | internal/bt/metadata.go:256-303 | panics if and only if the size is negative, fails to write if and only if the connection takes fewer writes than there are pieces, has written one readable request for each piece in turn and nothing else, and otherwise returns what the stream determines |
| MetadataLaws.PieceCount | internal/bt/metadata.go:257 | the number of pieces is the least n for which n times 16384 reaches the size |
| MetadataLaws.DeliveredIff | internal/bt/metadata.go:276-293 | a message delivers a piece if and only if it has kind 20 and this id, its payload starts with a spelled dictionary with "msg_type" 1 and this "piece", and the piece is in range; the data is everything behind |
| MetadataLaws.AbsorbEffect | internal/bt/metadata.go:271-299 | a new piece is written from 16384 times its index on as far as data and buffer reach and its flag is set; any other message changes nothing |
| MetadataLaws.AbsorbConsistent | internal/bt/metadata.go:269-300 | any message that does not carry wrong data for its piece keeps every received piece equal to the original |
| MetadataLaws.CompleteIsOriginal | internal/bt/metadata.go:296-303 | when all flags are set the buffer is the original |
| MetadataLaws.CollectedIsOriginal | internal/bt/metadata.go:256-303 | over any stream without wrong data, whatever is returned is the original |
| MetadataLaws.Reassembled | internal/bt/metadata.go:269-303 | from any consistent progress, any order, repetition and mixture with junk and keep-alives that brings the missing pieces ends with the original |
| MetadataLaws.DownloadReassembles | internal/bt/metadata.go:256-303 | the same for a whole download |
| MetadataLaws.HonestPeer | internal/bt/metadata.go:321-350 | the data message of BEP 9 for a piece is such a message and delivers it |
| MetadataLaws.OverlongDataSpills | internal/bt/metadata.go:297 | data stays inside its piece for every buffer if and only if it is at most 16384 bytes long or for the last piece |
| TorrentInfo.JoinPath | internal/bt/metadata.go:435-440 | the components before the last are joined in reverse order, the last comes last |
| TorrentInfo.SamePathIff | internal/bt/metadata.go:435-440 | two component lists give the same path if and only if they consist of the same names between slashes |
| TorrentInfo.PathRightIff | internal/bt/metadata.go:435-440 | for any components, the result is the file's path if and only if the directories give the same names in reverse order |
| TorrentInfo.PlainPathRightIff | internal/bt/metadata.go:435-440 | for directories without slashes, if and only if they read the same backwards |
| TorrentInfo.PathSwapped | internal/bt/metadata.go:435-440 | two different directories come out swapped |
| TorrentInfo.ParseFiles | internal/bt/metadata.go:418-446 | one file for each dictionary of the list, the size their sum in 64-bit arithmetic |
| TorrentInfo.ParseMetadata | internal/bt/metadata.go:393-458 | result or error is the specified one for every input |
| TorrentInfo.TorrentRecovered | internal/bt/metadata.go:393-458 | from the bytes of any info dictionary, with any further entries in it and in its file entries, name, piece length and every file with its length are recovered, and the total is the sum if and only if that fits 64 bits |
| TorrentReading.PathSteps | internal/bt/metadata.go:435-440 | each further directory is put, with a slash, in front of the path so far |
| TorrentReading.MetaRead | internal/bt/metadata.go:393-458 | for any dictionary: the name, or else the one in UTF-8, or nothing; the piece length or zero; with a list of files one file for each dictionary in it, in order, with its length or zero and the path of exactly the strings in its list, and their sum modulo 2^64; without such a list the one file of the length, or none |
| TorrentReading.TorrentKeys | internal/bt/metadata.go:404-455 | the keys are the texts BEP 3 names |
| DhtNode.Node.NextTxnID | internal/dht/node.go:496-503 | advances the 16-bit counter with wrap-around and gives its two bytes |
| DhtNode.Node.Register | internal/dht/node.go:547-552 | a new channel waits under the transaction id, in place of any older one |
| DhtNode.Node.TakePending | internal/dht/node.go:349-356 | hands out the waiting channel once and forgets it |
| DhtNode.TxnIDsRepeat | internal/dht/node.go:496-503 | two transaction ids are equal if and only if they are a multiple of 65536 calls apart |
| DhtNode.StepKeepsInv | internal/dht/node.go:349-363 | every step keeps: a channel is in the table, with one handler, or answered, never in two of these places; wherever it is it goes with the id it was registered under; and it is somewhere unless a later channel took its id |
| DhtNode.RunKeepsInv | internal/dht/node.go:349-363 | the same over every interleaving of drawing ids, registrations, replies and receivers |
| DhtNode.AtMostOneReply | internal/dht/node.go:349-363 | in every interleaving a channel gets at most one message, one with the id it was registered under, and the branch that drops a message is never taken |
| DhtNode.ChannelNotLost | internal/dht/node.go:496-552 | a response to a channel's id reaches it, or has, while later registrations were drawn within 65535 draws of its own |
| DhtNode.AnswerArrives | internal/dht/node.go:349-363 | in every reachable state a channel whose id no later query took can still be sent the message with its id, once, and receive it |
| DhtNode.QueryCanBeAnswered | internal/dht/node.go:496-563 | in every reachable state a further query can draw its id, register, be answered with that id and receive the answer |
| DhtNode.PickQueries | internal/dht/node.go:535-541 | a round asks each contact at most once, none asked in an earlier round, nobody else, and afterwards all of them have been asked |
| DhtNode.Collect | internal/dht/node.go:544-583 | however the goroutines of a round interleave, the peers are those of its replies, each reply once, the peers of each whole, in order and next to each other, and every node of every reply is collected |
| DhtNode.PeersCounted | internal/dht/node.go:563-570 | whatever the order of arrival, each peer is there exactly as often as the replies name it |
| DhtNode.LookupInserts | internal/dht/node.go:571-594 | every round before the last inserts every node of every reply it got, with its own identifier, address and port, and the last one too unless some reply named a peer |
| DhtNode.InsertNodes | internal/dht/node.go:591-594 | the nodes of the replies are inserted one after the other among whatever other changes the table undergoes |
| DhtNode.FindPeers | internal/dht/node.go:515-598 | however the table changes at any point and replies arrive in any order, a lookup asks no identifier twice and at most 24, each round asks exactly the nearest contacts of its table not asked before, it goes on for three rounds unless peers came or the table was empty; the peers it returns are, as a multiset, the sum of the peers of all replies, those of each reply whole, in order and next to each other; and every node of every reply is inserted with its own identifier, address and port, except in a last round that found peers |

## Left out

- DownloadQueue.DownloadQueue.Refill: the database query for pending hashes is a parameter.
- RoutingTable.RoutingTable.FindClosest: returned contacts are copies, so changes other goroutines make to a shared contact after the lock is released are not modelled.
- RoutingTable.SortByDistance: an insertion sort stands for the library's sort; only its contract is used.
- Bencode.SortStrings: an insertion sort stands for the library's sort; only its contract is used.
- Bencode.DecodeString: a declared length beyond the input is the end-of-input error; the allocation made before the check is not modelled. Syntax and range errors of integer texts are one error.
- Bencode.DecodeFrom: nesting is unbounded; stack and memory limits are not modelled.
- Metadata.DownloadMetadata: the extension id to filter by is a parameter; the source passes the peer's id where BEP 10 means the advertised one.
- HashCache.HashCache.Flush: whether the database works is a parameter; counters are unbounded where the source has 64-bit ones, sightings per hash are unbounded where the source has machine integers, and the time columns of the table are not modelled.
- DhtNode.FindPeers: timeouts and cancellation are absent replies; the clock read by each insertion is any time.
- DhtNode.Collect: the query bytes and the socket write are not modelled here.
- Pipeline cancellation beyond what the steps show: closing the jobs channel races with the feeder's send (internal/crawler/worker.go:74-75, 113-116).
- The check for a stored torrent and the limit of three submissions in `searchAndDownload`: both only make submissions rarer.
- Sockets, dialling, deadlines, tickers, sleeps and logging.
- SQLite and full-text search beyond the effect of inserting hashes and torrents, testing for a torrent and deleting a hash.
- SHA-1 verification, the BitTorrent handshakes and the extension handshake.
- The web server, templates, configuration and `main`.
- Announce tokens (internal/dht/node.go:444-474).
- `RoutingNode.Addr`, pool statistics, `RandomFromBucket`, `BucketSizes` and `GetStaleNodes`.
