/** internal/dht/routing.go: the k-buckets, changed in place, proved against TableSpec
    and Closest. */
module RoutingTable {
  import opened Bags
  import opened Bytes
  import opened NodeId
  import opened TableSpec
  import opened TableLaws
  import opened Closest

  class Bucket {
    var nodes: seq<Contact>

    constructor ()
      ensures nodes == []
    {
      nodes := [];
    }

    /** Updates a known contact and moves it to the end, appends a new one, or lets it
        replace the first stale one. */
    method Put(id: NodeID, ip: bytes, port: int, now: int) returns (added: bool)
      modifies this
      ensures (nodes, added) == BucketInsert(old(nodes), Contact(id, ip, port, now))
    {
      var c := Contact(id, ip, port, now);
      for i := 0 to |nodes|
        invariant nodes == old(nodes)
        invariant forall j | 0 <= j < i :: nodes[j].id != id
      {
        if nodes[i].id == id {
          nodes := nodes[i := nodes[i].(ip := ip, port := port, lastSeen := now)];
          var n := nodes[i];
          nodes := nodes[..i] + nodes[i + 1..];
          nodes := nodes + [n];
          assert nodes == Without(old(nodes), i) + [c];
          return true;
        }
      }
      if |nodes| < K {
        nodes := nodes + [c];
        return true;
      }
      for i := 0 to |nodes|
        invariant nodes == old(nodes)
        invariant forall j | 0 <= j < i :: !Stale(nodes[j], now)
      {
        if now - nodes[i].lastSeen > NODE_TIMEOUT {
          nodes := nodes[i := c];
          return true;
        }
      }
      return false;
    }

    method Drop(id: NodeID)
      modifies this
      ensures nodes == BucketRemove(old(nodes), id)
    {
      for i := 0 to |nodes|
        invariant nodes == old(nodes)
        invariant forall j | 0 <= j < i :: nodes[j].id != id
      {
        if nodes[i].id == id {
          nodes := nodes[..i] + nodes[i + 1..];
          return;
        }
      }
    }

    method Refresh(id: NodeID, now: int)
      modifies this
      ensures nodes == BucketTouch(old(nodes), id, now)
    {
      for i := 0 to |nodes|
        invariant nodes == old(nodes)
        invariant forall j | 0 <= j < i :: nodes[j].id != id
      {
        if nodes[i].id == id {
          nodes := nodes[i := nodes[i].(lastSeen := now)];
          return;
        }
      }
    }
  }

  class RoutingTable {
    const localID: NodeID
    const buckets: seq<Bucket>

    ghost predicate Valid()
      reads buckets
    {
      && |buckets| == NUM_BUCKETS
      && (forall i, j | 0 <= i < j < NUM_BUCKETS :: buckets[i] != buckets[j])
      && TableInv(localID, Contents())
    }

    /** The table as a value. */
    ghost function Contents(): (t: Table)
      requires |buckets| == NUM_BUCKETS
      reads buckets
      ensures forall i | 0 <= i < NUM_BUCKETS :: t[i] == buckets[i].nodes
    {
      seq(NUM_BUCKETS, i requires 0 <= i < NUM_BUCKETS reads buckets => buckets[i].nodes)
    }

    constructor (localID: NodeID)
      ensures Valid() && fresh(buckets)
      ensures this.localID == localID && Contents() == Run(localID, [])
    {
      this.localID := localID;
      var fresh_: seq<Bucket> := [];
      while |fresh_| < NUM_BUCKETS
        invariant |fresh_| <= NUM_BUCKETS
        invariant fresh(fresh_)
        invariant forall i, j | 0 <= i < j < |fresh_| :: fresh_[i] != fresh_[j]
        invariant forall i | 0 <= i < |fresh_| :: fresh_[i].nodes == []
      {
        var bucket := new Bucket();
        fresh_ := fresh_ + [bucket];
      }
      this.buckets := fresh_;
      new;
      RunKeepsInv(localID, []);
    }

    method Insert(id: NodeID, ip: bytes, port: int, now: int) returns (added: bool)
      requires Valid()
      modifies buckets
      ensures Valid()
      ensures (Contents(), added) == TableSpec.Insert(localID, old(Contents()), Contact(id, ip, port, now))
    {
      hide TableInv, BucketInsert, BucketOf, Slot;
      StepKeepsInv(localID, Contents(), Event(OpInsert(id, ip, port), now));
      if id == localID {
        return false;
      }
      var bucketIdx := BucketIndex(localID, id);
      SlotIsBucket(localID, id);
      added := buckets[bucketIdx].Put(id, ip, port, now);
      assert Contents() == old(Contents())[bucketIdx := buckets[bucketIdx].nodes];
    }

    method Remove(id: NodeID)
      requires Valid()
      modifies buckets
      ensures Valid()
      ensures Contents() == TableSpec.Remove(localID, old(Contents()), id)
    {
      hide TableInv, BucketRemove, BucketOf, Slot;
      StepKeepsInv(localID, Contents(), Event(OpRemove(id), 0));
      var bucketIdx := BucketIndex(localID, id);
      SlotIsBucket(localID, id);
      buckets[bucketIdx].Drop(id);
      assert Contents() == old(Contents())[bucketIdx := buckets[bucketIdx].nodes];
    }

    method Touch(id: NodeID, now: int)
      requires Valid()
      modifies buckets
      ensures Valid()
      ensures Contents() == TableSpec.Touch(localID, old(Contents()), id, now)
    {
      hide TableInv, BucketTouch, BucketOf, Slot;
      StepKeepsInv(localID, Contents(), Event(OpTouch(id), now));
      var bucketIdx := BucketIndex(localID, id);
      SlotIsBucket(localID, id);
      buckets[bucketIdx].Refresh(id, now);
      assert Contents() == old(Contents())[bucketIdx := buckets[bucketIdx].nodes];
    }

    /** The contact with this id, wherever the table holds it. */
    method GetNode(id: NodeID) returns (r: Option<Contact>)
      requires Valid()
      ensures r.Some? ==> r.value.id == id
      ensures forall c: Contact | c.id == id ::
                r == Some(c) <==> exists i | 0 <= i < NUM_BUCKETS :: c in Contents()[i]
    {
      hide TableInv, BucketOf, Slot;
      var bucketIdx := BucketIndex(localID, id);
      SlotIsBucket(localID, id);
      var nodes := buckets[bucketIdx].nodes;
      r := None;
      for i := 0 to |nodes|
        invariant r == None && forall j | 0 <= j < i :: nodes[j].id != id
      {
        if nodes[i].id == id {
          r := Some(nodes[i]);
          break;
        }
      }
      assert r == Lookup(localID, Contents(), id);
      forall c: Contact | c.id == id
        ensures r == Some(c) <==> exists i | 0 <= i < NUM_BUCKETS :: c in Contents()[i]
      {
        LookupIsMembership(localID, Contents(), c);
      }
    }

    method Size() returns (count: nat)
      requires Valid()
      ensures count == TableLaws.Size(Contents()) && count <= 1263
    {
      hide TableInv;
      count := 0;
      for i := 0 to NUM_BUCKETS
        invariant count == SizeUpTo(Contents(), i)
      {
        count := count + |buckets[i].nodes|;
      }
      SizeBound(localID, Contents(), NUM_BUCKETS);
    }

    method GetAllNodes() returns (nodes: seq<Contact>)
      requires Valid()
      ensures nodes == Flatten(Contents())
    {
      hide TableInv;
      nodes := [];
      for i := 0 to NUM_BUCKETS
        invariant nodes == Flatten(Contents()[..i])
      {
        var t := Contents();
        FlattenSplit(t[..i], [t[i]]);
        assert Flatten([t[i]]) == t[i];
        assert t[..i] + [t[i]] == t[..i + 1];
        nodes := nodes + buckets[i].nodes;
      }
      assert Contents()[..NUM_BUCKETS] == Contents();
    }

    /** The `count` contacts nearest to the target; nothing comes of a negative count, on
        which slicing panics. */
    method FindClosest(target: NodeID, count: int) returns (nodes: Option<seq<Contact>>)
      requires Valid()
      ensures nodes.None? <==> count < 0
      ensures nodes.Some? ==> IsClosest(nodes.value, Flatten(Contents()), target, count)
    {
      hide TableInv, Dist, Flatten, DistinctIds, SortedGroup;
      var allNodes := GetAllNodes();
      FlattenDistinct(localID, Contents(), 0, NUM_BUCKETS);
      assert Contents()[0..NUM_BUCKETS] == Contents();
      var sorted := SortByDistance(allNodes, target);
      SameLength(sorted, allNodes, target);
      if |sorted| > count {
        if count < 0 {
          return None;
        }
        PrefixIsClosest(sorted, allNodes, target, count);
        nodes := Some(sorted[..count]);
      } else {
        PrefixIsClosest(sorted, allNodes, target, count);
        assert sorted[..|sorted|] == sorted;
        nodes := Some(sorted);
      }
    }
  }

  lemma SameLength(r: seq<Contact>, all: seq<Contact>, target: NodeID)
    requires SortedGroup(r, all, target)
    ensures |r| == |all|
  {
  }

  lemma SlotIsBucket(local: NodeID, id: NodeID)
    ensures Slot(local, id) == BucketOf(local, id)
  {
  }

  /** Whether `c` is nearer to the target than `d`, by the byte-wise comparison. */
  method Nearer(c: Contact, d: Contact, target: NodeID) returns (nearer: bool)
    ensures nearer <==> Dist(c.id, target) < Dist(d.id, target)
  {
    var distC := Distance(c.id, target);
    var distD := Distance(d.id, target);
    XorBytesIsDist(c.id, target);
    XorBytesIsDist(d.id, target);
    nearer := Less(distC, distD);
  }

  /** A sort with the comparison of FindClosest. */
  method SortByDistance(nodes: seq<Contact>, target: NodeID) returns (sorted: seq<Contact>)
    requires DistinctIds(nodes)
    ensures SortedGroup(sorted, nodes, target)
  {
    hide Dist, Arrange, SortedGroup, DistinctIds;
    sorted := [];
    var n := |nodes|;
    assert nodes[n..] == [];
    ArrangeEmpty(target);
    while n > 0
      invariant n <= |nodes| && sorted == Arrange(nodes[n..], target)
    {
      n := n - 1;
      sorted := PutInOrder(nodes[n], sorted, target);
      ArrangeStep(nodes, n, target);
    }
    assert nodes[0..] == nodes;
    ArrangeSorts(nodes, target);
  }

  lemma ArrangeEmpty(target: NodeID)
    ensures Arrange([], target) == []
  {
  }

  lemma ArrangeStep(nodes: seq<Contact>, n: nat, target: NodeID)
    requires n < |nodes|
    ensures Arrange(nodes[n..], target) == PutByDistance(nodes[n], Arrange(nodes[n + 1..], target), target)
  {
    assert nodes[n..][1..] == nodes[n + 1..];
  }

  lemma PassOver(c: Contact, nodes: seq<Contact>, i: nat, target: NodeID)
    requires i < |nodes| && Dist(c.id, target) >= Dist(nodes[i].id, target)
    ensures nodes[..i] + PutByDistance(c, nodes[i..], target)
         == nodes[..i + 1] + PutByDistance(c, nodes[i + 1..], target)
  {
    hide Dist;
    assert nodes[i..][1..] == nodes[i + 1..];
    assert nodes[..i] + ([nodes[i]] + PutByDistance(c, nodes[i + 1..], target))
        == nodes[..i + 1] + PutByDistance(c, nodes[i + 1..], target);
  }

  lemma PutHere(c: Contact, nodes: seq<Contact>, target: NodeID)
    requires nodes == [] || Dist(c.id, target) < Dist(nodes[0].id, target)
    ensures PutByDistance(c, nodes, target) == [c] + nodes
  {
  }

  method PutInOrder(c: Contact, nodes: seq<Contact>, target: NodeID) returns (r: seq<Contact>)
    ensures r == PutByDistance(c, nodes, target)
  {
    hide Dist, PutByDistance;
    var i := 0;
    assert nodes[..0] + PutByDistance(c, nodes[0..], target) == PutByDistance(c, nodes, target) by {
      assert nodes[0..] == nodes;
    }
    while i < |nodes|
      invariant i <= |nodes|
      invariant PutByDistance(c, nodes, target) == nodes[..i] + PutByDistance(c, nodes[i..], target)
    {
      var nearer := Nearer(c, nodes[i], target);
      if nearer {
        break;
      }
      PassOver(c, nodes, i, target);
      i := i + 1;
    }
    PutHere(c, nodes[i..], target);
    assert nodes[..i] + ([c] + nodes[i..]) == nodes[..i] + [c] + nodes[i..];
    r := nodes[..i] + [c] + nodes[i..];
  }
}
