/** GenerateDistributedIDs of internal/dht/id.go: one random id in each of `count`
    equal segments of the 160-bit key space. */
module KeySpace {
  import opened Bytes
  import opened NodeId

  datatype Error = CountNotPositive | RandomFailed

  function KeyCount(): nat {
    Pow256(ID_LENGTH)
  }

  /** Length of a segment. */
  function Piece(count: nat): nat
    requires count > 0
  {
    KeyCount() / count
  }

  /** The i-th id lies in the i-th segment. */
  predicate InSegments(ids: seq<NodeID>) {
    forall i | 0 <= i < |ids| :: InSegment(ids[i], i, Piece(|ids|))
  }

  predicate InSegment(id: NodeID, i: nat, piece: nat) {
    i * piece <= ToNat(id) < (i + 1) * piece
  }

  /** big.Int.Bytes: big-endian without leading zeros. */
  function BigBytes(n: nat): bytes {
    if n == 0 then [] else BigBytes(n / 256) + [(n % 256) as byte]
  }

  lemma {:induction false} BigBytesFit(n: nat, width: nat)
    requires n < Pow256(width)
    ensures |BigBytes(n)| <= width && ToNat(BigBytes(n)) == n
  {
    if n > 0 {
      BigBytesFit(n / 256, width - 1);
      ToNatAppend(BigBytes(n / 256), (n % 256) as byte);
    }
  }

  lemma {:induction false} LeadingZerosKeepValue(zeros: bytes, s: bytes)
    requires forall i | 0 <= i < |zeros| :: zeros[i] == 0
    ensures ToNat(zeros + s) == ToNat(s)
    decreases |zeros| + |s|
  {
    if s != [] {
      LeadingZerosKeepValue(zeros, s[..|s| - 1]);
      assert (zeros + s)[..|zeros + s| - 1] == zeros + s[..|s| - 1];
    } else if zeros != [] {
      LeadingZerosKeepValue(zeros[..|zeros| - 1], []);
      assert zeros + s == zeros;
      assert zeros[..|zeros| - 1] + [] == zeros[..|zeros| - 1];
    }
  }

  /** Twenty bytes of a number below 2^160: padded in front, never truncated. */
  method FixedBytes(n: nat) returns (id: NodeID)
    requires n < KeyCount()
    ensures ToNat(id) == n
  {
    var idBytes := BigBytes(n);
    BigBytesFit(n, ID_LENGTH);
    if |idBytes| < ID_LENGTH {
      var zeros: bytes := seq(ID_LENGTH - |idBytes|, _ => 0);
      LeadingZerosKeepValue(zeros, idBytes);
      id := zeros + idBytes;
    } else {
      assert idBytes[..ID_LENGTH] == idBytes;
      id := idBytes[..ID_LENGTH];
    }
  }

  /** rand.Int: any offset below `bound`, or the error of the source of randomness. */
  method RandomBelow(bound: nat) returns (r: Option<nat>)
    requires bound > 0
    ensures r.Some? ==> r.value < bound
  {
    var works: bool := *;
    if works {
      var offset: nat :| offset < bound;
      return Some(offset);
    }
    return None;
  }

  method GenerateDistributedIDs(count: int64) returns (res: Result<seq<NodeID>, Error>)
    ensures res == Err(CountNotPositive) <==> count <= 0
    ensures res.Ok? ==> |res.value| == count && InSegments(res.value)
  {
    hide KeyCount, ToNat;
    if count <= 0 {
      return Err(CountNotPositive);
    }
    var piece := Piece(count);
    SegmentsFit(count);
    var ids := new NodeID[count];
    for i := 0 to count
      invariant forall j | 0 <= j < i :: InSegment(ids[j], j, piece)
    {
      var randomOffset := RandomBelow(piece);
      if randomOffset.None? {
        return Err(RandomFailed);
      }
      NextSegmentFits(i, count, piece);
      ids[i] := FixedBytes(i * piece + randomOffset.value);
    }
    res := Ok(ids[..]);
  }

  /** There is room for every machine-sized count, and the segments cover all keys but
      fewer than `count`. */
  lemma SegmentsFit(count: nat)
    requires 0 < count <= MAX_INT
    ensures Piece(count) > 0
    ensures count * Piece(count) <= KeyCount() < count * Piece(count) + count
  {
    KeyCountLarge();
    DivisionBounds(KeyCount(), count);
  }

  lemma DivisionBounds(n: nat, d: nat)
    requires d > 0
    ensures d * (n / d) <= n < d * (n / d) + d
    ensures d <= n ==> n / d > 0
  {
  }

  lemma KeyCountLarge()
    ensures KeyCount() > MAX_INT
  {
    assert Pow256(4) == 0x1_0000_0000;
    assert Pow256(8) == 0x1_0000_0000_0000_0000;
    assert Pow256(12) >= Pow256(8);
    assert Pow256(16) >= Pow256(12);
    assert Pow256(20) >= Pow256(16);
  }

  lemma NextSegmentFits(i: nat, count: nat, piece: nat)
    requires i < count && count * piece <= KeyCount()
    ensures i * piece + piece == (i + 1) * piece <= KeyCount()
  {
    assert (i + 1) * piece <= count * piece;
  }

  // ---------------------------------------------------------------------
  // Spreading
  // ---------------------------------------------------------------------

  lemma MulMonotone(a: nat, b: nat, p: nat)
    requires a <= b
    ensures a * p <= b * p
  {
  }

  lemma SegmentOf(ids: seq<NodeID>, i: nat)
    requires InSegments(ids) && i < |ids|
    ensures i * Piece(|ids|) <= ToNat(ids[i]) < i * Piece(|ids|) + Piece(|ids|)
  {
    hide Piece;
  }

  /** The ids come out strictly increasing, neighbours less than two segments apart. */
  lemma IdsIncrease(ids: seq<NodeID>, i: nat, j: nat)
    requires InSegments(ids) && i < j < |ids|
    ensures ToNat(ids[i]) < ToNat(ids[j])
    ensures j == i + 1 ==> ToNat(ids[j]) < ToNat(ids[i]) + 2 * Piece(|ids|)
  {
    hide Piece, InSegments;
    var piece := Piece(|ids|);
    SegmentOf(ids, i);
    SegmentOf(ids, j);
    MulMonotone(i + 1, j, piece);
    assert (i + 1) * piece == i * piece + piece;
  }

  predicate Within(a: nat, b: nat, r: nat) {
    a < b + r && b < a + r
  }

  /** Every key of the whole space is within one segment, plus `count`, of some id. */
  lemma EveryKeyIsNear(ids: seq<NodeID>, key: NodeID)
    requires 0 < |ids| <= MAX_INT && InSegments(ids)
    ensures exists i | 0 <= i < |ids| :: Within(ToNat(key), ToNat(ids[i]), Piece(|ids|) + |ids|)
  {
    hide Piece, InSegments, KeyCount, ToNat;
    KeyBound(key);
    SegmentsFit(|ids|);
    var home := HomeSegment(ToNat(key), Piece(|ids|), |ids|);
    SegmentOf(ids, home);
    assert Within(ToNat(key), ToNat(ids[home]), Piece(|ids|) + |ids|);
  }

  /** The segment a key lies in, or the last one for the few keys beyond it. */
  lemma HomeSegment(n: nat, piece: nat, count: nat) returns (home: nat)
    requires piece > 0 && count > 0 && n < count * piece + count
    ensures home < count && home * piece <= n < home * piece + piece + count
  {
    var i := n / piece;
    assert i * piece <= n < i * piece + piece by {
      DivisionBounds(n, piece);
    }
    if i < count {
      home := i;
    } else {
      home := count - 1;
      MulMonotone(count, i, piece);
      assert count * piece == home * piece + piece;
    }
  }

  lemma KeyBound(key: NodeID)
    ensures ToNat(key) < KeyCount()
  {
    ToNatBound(key);
  }
}
