/** Selection of the contacts nearest to a target by exclusive-or distance: what
    FindClosest must return, why there is only one such answer, and the bucket order
    it always has. */
module Closest {
  import opened Bytes
  import opened ExclusiveOr
  import opened NodeId
  import opened TableSpec
  import opened TableLaws

  /** The contacts of all buckets, one bucket after the other. */
  function Flatten(buckets: seq<seq<Contact>>): seq<Contact> {
    if buckets == [] then [] else buckets[0] + Flatten(buckets[1..])
  }

  predicate Increasing(nodes: seq<Contact>, target: NodeID) {
    forall i, j | 0 <= i < j < |nodes| :: Dist(nodes[i].id, target) < Dist(nodes[j].id, target)
  }

  /** `r` is the right answer: as many as asked for or as there are, all from the
      table, strictly nearer ones first, and everyone left out is farther. */
  predicate IsClosest(r: seq<Contact>, all: seq<Contact>, target: NodeID, count: nat) {
    && |r| == Min(count, |all|)
    && (forall c | c in r :: c in all)
    && Increasing(r, target)
    && forall c, d | c in all && c !in r && d in r :: Dist(d.id, target) < Dist(c.id, target)
  }

  // ---------------------------------------------------------------------
  // Uniqueness
  // ---------------------------------------------------------------------

  lemma EqualDistEqualContact(all: seq<Contact>, c: Contact, d: Contact, target: NodeID)
    requires DistinctIds(all) && c in all && d in all && Dist(c.id, target) == Dist(d.id, target)
    ensures c == d
  {
    hide Dist;
    DistInjective(c.id, d.id, target);
    var i :| 0 <= i < |all| && all[i] == c;
    var j :| 0 <= j < |all| && all[j] == d;
  }

  /** Position k cannot hold a nearer contact in one answer than in the other. */
  lemma NotNearer(r: seq<Contact>, r': seq<Contact>, all: seq<Contact>, target: NodeID,
                  count: nat, k: nat)
    requires IsClosest(r, all, target, count) && IsClosest(r', all, target, count)
    requires k < |r| && r[..k] == r'[..k]
    ensures Dist(r'[k].id, target) <= Dist(r[k].id, target)
  {
    hide Dist;
    assert forall j | 0 <= j < k :: r'[j] == r'[..k][j] == r[..k][j] == r[j];
    var c := r[k];
    assert c in r && r'[k] in r';
    var nearer := Dist(c.id, target) < Dist(r'[k].id, target);
    assert nearer ==> c !in r';
  }

  /** There is exactly one right answer, however the sort breaks ties. */
  lemma {:induction false} ClosestUnique(r: seq<Contact>, r': seq<Contact>, all: seq<Contact>,
                                         target: NodeID, count: nat)
    requires DistinctIds(all)
    requires IsClosest(r, all, target, count) && IsClosest(r', all, target, count)
    ensures r == r'
  {
    PrefixUnique(r, r', all, target, count, |r|);
    assert r[..|r|] == r && r'[..|r|] == r';
  }

  lemma {:induction false} PrefixUnique(r: seq<Contact>, r': seq<Contact>, all: seq<Contact>,
                                        target: NodeID, count: nat, n: nat)
    requires DistinctIds(all) && n <= |r|
    requires IsClosest(r, all, target, count) && IsClosest(r', all, target, count)
    ensures r[..n] == r'[..n]
  {
    hide Dist;
    if n > 0 {
      var k := n - 1;
      PrefixUnique(r, r', all, target, count, k);
      NotNearer(r, r', all, target, count, k);
      NotNearer(r', r, all, target, count, k);
      assert r[k] in r && r'[k] in r';
      EqualDistEqualContact(all, r[k], r'[k], target);
      assert r[..n] == r[..k] + [r[k]] && r'[..n] == r'[..k] + [r'[k]];
    }
  }

  // ---------------------------------------------------------------------
  // Bucket order
  // ---------------------------------------------------------------------

  /** Order in which buckets appear for a target in bucket `b`: b itself, then all
      lower buckets together, then b+1, b+2 and so on. */
  function Rank(b: nat, i: nat): nat {
    if i == b then 0 else if i < b then 1 else i - b + 1
  }

  /** Distances from a target, from the buckets of the two ids. */
  lemma DistFromBucket(local: NodeID, target: NodeID, id: NodeID, b: nat, i: nat)
    requires local != target && local != id
    requires BucketOf(local, target) == b && BucketOf(local, id) == i
    ensures i == b ==> Dist(id, target) < Pow2(b)
    ensures i < b ==> Pow2(b) <= Dist(id, target) < Pow2(b + 1)
    ensures i > b ==> Pow2(i) <= Dist(id, target) < Pow2(i + 1)
  {
    hide Xor, Pow2, Log2, ToNat;
    BucketIsLog(local, target, b);
    BucketIsLog(local, id, i);
    var x, y := Dist(id, local), Dist(local, target);
    DistSymmetric(local, id);
    XorThrough(ToNat(id), ToNat(local), ToNat(target));
    if i == b {
      XorSameTop(b, x, y);
    } else if i < b {
      Pow2Monotone(i + 1, b);
      XorOneTop(b, x, y);
    } else {
      Pow2Monotone(b + 1, i);
      XorOneTop(i, y, x);
    }
  }

  /** A contact of an earlier-ranked bucket is nearer than one of a later-ranked one. */
  lemma RankDecides(local: NodeID, target: NodeID, c: NodeID, d: NodeID)
    requires local != target && local != c && local != d
    requires var b := BucketOf(local, target);
             Rank(b, BucketOf(local, c)) < Rank(b, BucketOf(local, d))
    ensures Dist(c, target) < Dist(d, target)
  {
    hide Dist, BucketOf, Pow2;
    var b, i, j := BucketOf(local, target), BucketOf(local, c), BucketOf(local, d);
    DistFromBucket(local, target, c, b, i);
    DistFromBucket(local, target, d, b, j);
    if i > b {
      Pow2Monotone(i + 1, j);
    } else {
      Pow2Monotone(b, b + 1);
      if j > b {
        Pow2Monotone(b + 1, j);
      }
    }
  }

  /** For the local id itself, lower buckets are nearer. */
  lemma LowerBucketNearer(local: NodeID, c: NodeID, d: NodeID)
    requires local != c && local != d && BucketOf(local, c) < BucketOf(local, d)
    ensures Dist(c, local) < Dist(d, local)
  {
    hide Dist, BucketOf, Pow2;
    BucketIsLog(local, c, BucketOf(local, c));
    BucketIsLog(local, d, BucketOf(local, d));
    DistSymmetric(local, c);
    DistSymmetric(local, d);
    Pow2Monotone(BucketOf(local, c) + 1, BucketOf(local, d));
  }

  /** Place of an id's bucket in the order that belongs to `target`. */
  function Order(local: NodeID, target: NodeID, id: NodeID): nat {
    if target == local then BucketOf(local, id)
    else Rank(BucketOf(local, target), BucketOf(local, id))
  }

  lemma OrderDecides(local: NodeID, target: NodeID, c: NodeID, d: NodeID)
    requires local != c && local != d && Order(local, target, c) < Order(local, target, d)
    ensures Dist(c, target) < Dist(d, target)
  {
    hide Dist, BucketOf;
    if target == local {
      LowerBucketNearer(local, c, d);
    } else {
      RankDecides(local, target, c, d);
    }
  }

  /** The bucket of the target comes first, then all lower buckets, then the higher ones in
      turn; for the local id all buckets in turn. */
  predicate NotAfter(local: NodeID, target: NodeID, c: NodeID, d: NodeID) {
    var (i, j) := (BucketOf(local, c), BucketOf(local, d));
    if target == local then i <= j
    else
      var b := BucketOf(local, target);
      && (j == b ==> i == b)
      && (j < b ==> i <= b)
      && (j > b ==> i <= j)
  }

  lemma OrderIs(local: NodeID, target: NodeID, c: NodeID, d: NodeID)
    ensures Order(local, target, c) <= Order(local, target, d) <==> NotAfter(local, target, c, d)
  {
    hide BucketOf;
  }

  /** Every answer lists the buckets in their order, and leaves out only contacts of
      buckets not before the last one it reached. */
  lemma AnswerFollowsBuckets(local: NodeID, r: seq<Contact>, all: seq<Contact>, target: NodeID,
                             count: nat)
    requires IsClosest(r, all, target, count) && forall c | c in all :: c.id != local
    ensures forall i, j | 0 <= i < j < |r| :: NotAfter(local, target, r[i].id, r[j].id)
    ensures forall c, d | c in all && c !in r && d in r :: NotAfter(local, target, d.id, c.id)
  {
    hide Dist, Order, NotAfter;
    forall i, j | 0 <= i < j < |r| ensures NotAfter(local, target, r[i].id, r[j].id) {
      assert r[i] in r && r[j] in r;
      OrderIs(local, target, r[i].id, r[j].id);
      if Order(local, target, r[j].id) < Order(local, target, r[i].id) {
        OrderDecides(local, target, r[j].id, r[i].id);
      }
    }
    forall c, d | c in all && c !in r && d in r ensures NotAfter(local, target, d.id, c.id) {
      OrderIs(local, target, d.id, c.id);
      if Order(local, target, c.id) < Order(local, target, d.id) {
        OrderDecides(local, target, c.id, d.id);
      }
    }
  }

  // ---------------------------------------------------------------------
  // Walking the buckets instead of sorting the table
  // ---------------------------------------------------------------------

  /** One bucket, or group of buckets, in order of distance. */
  ghost predicate SortedGroup(r: seq<Contact>, group: seq<Contact>, target: NodeID) {
    IsClosest(r, group, target, |group|) && forall c | c in group :: c in r
  }

  /** Sorting group by group is sorting the whole, when the groups are in order. */
  lemma GroupsConcatenate(r: seq<Contact>, s: seq<Contact>, g: seq<Contact>, h: seq<Contact>,
                          target: NodeID)
    requires SortedGroup(r, g, target) && SortedGroup(s, h, target)
    requires forall c, d | c in g && d in h :: Dist(c.id, target) < Dist(d.id, target)
    ensures SortedGroup(r + s, g + h, target)
  {
    hide Dist;
    var t := r + s;
    forall i, j | 0 <= i < j < |t| ensures Dist(t[i].id, target) < Dist(t[j].id, target) {
      if i < |r| <= j {
        assert t[i] in r && t[j] in s;
      }
    }
  }

  lemma {:induction false} FlattenMember(buckets: seq<seq<Contact>>, c: Contact)
    ensures c in Flatten(buckets) <==> exists i | 0 <= i < |buckets| :: c in buckets[i]
  {
    if buckets != [] {
      FlattenMember(buckets[1..], c);
      if c in Flatten(buckets) && c !in buckets[0] {
        var i :| 0 <= i < |buckets[1..]| && c in buckets[1..][i];
        assert c in buckets[i + 1];
      }
      if i :| 0 <= i < |buckets| && c in buckets[i] {
        assert i > 0 ==> c in buckets[1..][i - 1];
      }
    }
  }

  function PutByDistance(c: Contact, nodes: seq<Contact>, target: NodeID): seq<Contact> {
    if nodes == [] || Dist(c.id, target) < Dist(nodes[0].id, target) then [c] + nodes
    else [nodes[0]] + PutByDistance(c, nodes[1..], target)
  }

  /** The contacts in order of distance. */
  function Arrange(nodes: seq<Contact>, target: NodeID): seq<Contact> {
    if nodes == [] then [] else PutByDistance(nodes[0], Arrange(nodes[1..], target), target)
  }

  lemma {:induction false} PutByDistanceSorted(c: Contact, nodes: seq<Contact>, target: NodeID)
    requires Increasing(nodes, target)
    requires forall d | d in nodes :: Dist(d.id, target) != Dist(c.id, target)
    ensures var r := PutByDistance(c, nodes, target);
            Increasing(r, target) && |r| == |nodes| + 1 && forall d :: d in r <==> d == c || d in nodes
  {
    hide Dist;
    if nodes != [] && Dist(c.id, target) >= Dist(nodes[0].id, target) {
      assert nodes[0] in nodes;
      PutByDistanceSorted(c, nodes[1..], target);
      var rest := PutByDistance(c, nodes[1..], target);
      forall j | 0 <= j < |rest| ensures Dist(nodes[0].id, target) < Dist(rest[j].id, target) {
        assert rest[j] in rest;
      }
    }
  }

  lemma {:induction false} ArrangeSorts(nodes: seq<Contact>, target: NodeID)
    requires DistinctIds(nodes)
    ensures SortedGroup(Arrange(nodes, target), nodes, target)
  {
    if nodes != [] {
      hide Dist, PutByDistance, Increasing;
      var rest := Arrange(nodes[1..], target);
      ArrangeSorts(nodes[1..], target);
      FirstElsewhere(nodes, target);
      PutByDistanceSorted(nodes[0], rest, target);
      var r := Arrange(nodes, target);
      forall c ensures c in r <==> c in nodes {
        FirstOrRest(nodes, c);
      }
    }
  }

  lemma FirstOrRest(nodes: seq<Contact>, c: Contact)
    requires nodes != []
    ensures c in nodes <==> c == nodes[0] || c in nodes[1..]
  {
  }

  /** No other contact is at the distance of the first. */
  lemma FirstElsewhere(nodes: seq<Contact>, target: NodeID)
    requires DistinctIds(nodes) && nodes != []
    ensures forall d | d in nodes[1..] :: Dist(d.id, target) != Dist(nodes[0].id, target)
  {
    hide Dist;
    forall d | d in nodes[1..] ensures Dist(d.id, target) != Dist(nodes[0].id, target) {
      var j :| 1 <= j < |nodes| && nodes[j] == d;
      if Dist(d.id, target) == Dist(nodes[0].id, target) {
        DistInjective(d.id, nodes[0].id, target);
      }
    }
  }

  /** Buckets i, i+1, ... each in order of distance. */
  function WalkUp(t: Table, target: NodeID, i: nat): seq<Contact>
    requires i <= NUM_BUCKETS
    decreases NUM_BUCKETS - i
  {
    if i == NUM_BUCKETS then [] else Arrange(t[i], target) + WalkUp(t, target, i + 1)
  }

  /** The bucket of the target, all lower buckets together, then bucket by bucket up. */
  function Walk(local: NodeID, t: Table, target: NodeID): seq<Contact> {
    if target == local then WalkUp(t, target, 0)
    else
      var b := Slot(local, target);
      Arrange(t[b], target) + Arrange(Flatten(t[..b]), target) + WalkUp(t, target, b + 1)
  }

  lemma InBucket(local: NodeID, t: Table, lo: nat, hi: nat, c: Contact)
    requires TableInv(local, t) && lo <= hi <= NUM_BUCKETS && c in Flatten(t[lo..hi])
    ensures c.id != local && lo <= BucketOf(local, c.id) < hi && c in t[BucketOf(local, c.id)]
  {
    hide BucketOf;
    FlattenMember(t[lo..hi], c);
    var i :| 0 <= i < hi - lo && c in t[lo..hi][i];
    assert BucketInv(local, lo + i, t[lo + i]);
  }

  lemma {:induction false} FlattenDistinct(local: NodeID, t: Table, lo: nat, hi: nat)
    requires TableInv(local, t) && lo <= hi <= NUM_BUCKETS
    ensures DistinctIds(Flatten(t[lo..hi]))
    decreases hi - lo
  {
    hide BucketOf;
    if lo < hi {
      FlattenDistinct(local, t, lo + 1, hi);
      assert t[lo..hi][1..] == t[lo + 1..hi];
      assert BucketInv(local, lo, t[lo]);
      var rest := Flatten(t[lo + 1..hi]);
      forall i, j | 0 <= i < |t[lo]| && 0 <= j < |rest| ensures t[lo][i].id != rest[j].id {
        assert rest[j] in rest;
        InBucket(local, t, lo + 1, hi, rest[j]);
      }
    }
  }

  lemma {:induction false} WalkUpSorted(local: NodeID, t: Table, target: NodeID, i: nat)
    requires TableInv(local, t) && i <= NUM_BUCKETS
    requires target != local ==> i > BucketOf(local, target)
    ensures SortedGroup(WalkUp(t, target, i), Flatten(t[i..NUM_BUCKETS]), target)
    decreases NUM_BUCKETS - i
  {
    hide Dist, BucketOf, Arrange, SortedGroup, DistinctIds;
    if i == NUM_BUCKETS {
      EmptyGroup(target);
    } else {
      WalkUpSorted(local, t, target, i + 1);
      assert BucketInv(local, i, t[i]);
      ArrangeSorts(t[i], target);
      assert t[i..NUM_BUCKETS][1..] == t[i + 1..NUM_BUCKETS];
      var rest := Flatten(t[i + 1..NUM_BUCKETS]);
      forall c, d | c in t[i] && d in rest ensures Dist(c.id, target) < Dist(d.id, target) {
        InBucket(local, t, i + 1, NUM_BUCKETS, d);
        OrderDecides(local, target, c.id, d.id);
      }
      GroupsConcatenate(Arrange(t[i], target), WalkUp(t, target, i + 1), t[i], rest, target);
    }
  }

  lemma EmptyGroup(target: NodeID)
    ensures SortedGroup([], [], target)
  {
  }

  lemma FlattenFirst(a: seq<seq<Contact>>)
    requires a != []
    ensures Flatten(a) == a[0] + Flatten(a[1..])
  {
  }

  lemma {:induction false} FlattenSplit(a: seq<seq<Contact>>, b: seq<seq<Contact>>)
    ensures Flatten(a + b) == Flatten(a) + Flatten(b)
  {
    if a == [] {
      assert a + b == b;
    } else {
      FlattenSplit(a[1..], b);
      FlattenFirst(a);
      assert (a + b)[0] == a[0] && (a + b)[1..] == a[1..] + b;
      FlattenFirst(a + b);
      hide Flatten;
      ConcatAssociative(a[0], Flatten(a[1..]), Flatten(b));
    }
  }

  /** A permutation of a group has the same sorted form. */
  lemma Regroup(r: seq<Contact>, g: seq<Contact>, h: seq<Contact>, target: NodeID)
    requires SortedGroup(r, g, target) && |g| == |h| && forall c :: c in g <==> c in h
    ensures SortedGroup(r, h, target)
  {
    hide Dist;
  }

  lemma FlattenAround(t: Table, b: nat)
    requires b < NUM_BUCKETS
    ensures Flatten(t) == Flatten(t[..b]) + t[b] + Flatten(t[b + 1..NUM_BUCKETS])
  {
    assert t == t[..b] + ([t[b]] + t[b + 1..NUM_BUCKETS]);
    FlattenSplit(t[..b], [t[b]] + t[b + 1..NUM_BUCKETS]);
    FlattenSplit([t[b]], t[b + 1..NUM_BUCKETS]);
    assert Flatten([t[b]]) == t[b];
  }

  /** The walk over the buckets, with a sort inside each group, lists the whole table
      in order of distance. */
  lemma WalkIsSorted(local: NodeID, t: Table, target: NodeID)
    requires TableInv(local, t)
    ensures SortedGroup(Walk(local, t, target), Flatten(t), target)
  {
    hide Dist, BucketOf, Arrange, WalkUp, SortedGroup, Flatten, DistinctIds;
    if target == local {
      WalkUpSorted(local, t, target, 0);
      assert t[0..NUM_BUCKETS] == t;
    } else {
      var b := Slot(local, target);
      assert BucketInv(local, b, t[b]);
      WalkUpSorted(local, t, target, b + 1);
      ArrangeSorts(t[b], target);
      FlattenDistinct(local, t, 0, b);
      assert t[0..b] == t[..b];
      ArrangeSorts(Flatten(t[..b]), target);
      var own, lower, upper := t[b], Flatten(t[..b]), Flatten(t[b + 1..NUM_BUCKETS]);
      forall c, d | c in own && d in lower ensures Dist(c.id, target) < Dist(d.id, target) {
        InBucket(local, t, 0, b, d);
        OrderDecides(local, target, c.id, d.id);
      }
      GroupsConcatenate(Arrange(own, target), Arrange(lower, target), own, lower, target);
      forall c, d | c in own + lower && d in upper ensures Dist(c.id, target) < Dist(d.id, target) {
        InBucket(local, t, b + 1, NUM_BUCKETS, d);
        if c in lower {
          InBucket(local, t, 0, b, c);
        }
        OrderDecides(local, target, c.id, d.id);
      }
      GroupsConcatenate(Arrange(own, target) + Arrange(lower, target), WalkUp(t, target, b + 1),
                        own + lower, upper, target);
      FlattenAround(t, b);
      Regroup(Walk(local, t, target), own + lower + upper, Flatten(t), target);
    }
  }

  lemma PrefixIsClosest(r: seq<Contact>, all: seq<Contact>, target: NodeID, count: nat)
    requires SortedGroup(r, all, target)
    ensures IsClosest(r[..Min(count, |all|)], all, target, count)
  {
    hide Dist;
    var n := Min(count, |all|);
    assert forall i | 0 <= i < n :: r[..n][i] == r[i];
    forall c, d | c in all && c !in r[..n] && d in r[..n]
      ensures Dist(d.id, target) < Dist(c.id, target)
    {
      var i :| 0 <= i < |r| && r[i] == c;
      var j :| 0 <= j < n && r[j] == d;
    }
  }

  /** So any right answer is a prefix of the walk. */
  lemma AnswerIsWalk(local: NodeID, t: Table, target: NodeID, count: nat, r: seq<Contact>)
    requires TableInv(local, t) && IsClosest(r, Flatten(t), target, count)
    ensures count <= |Walk(local, t, target)| ==> r == Walk(local, t, target)[..count]
    ensures count >= |Walk(local, t, target)| ==> r == Walk(local, t, target)
  {
    hide Dist, Flatten, Walk, DistinctIds;
    var walk := Walk(local, t, target);
    WalkIsSorted(local, t, target);
    PrefixIsClosest(walk, Flatten(t), target, count);
    FlattenDistinct(local, t, 0, NUM_BUCKETS);
    assert t[0..NUM_BUCKETS] == t;
    ClosestUnique(r, walk[..Min(count, |Flatten(t)|)], Flatten(t), target, count);
    assert walk[..|walk|] == walk;
  }

  // ---------------------------------------------------------------------
  // The contacts of the table
  // ---------------------------------------------------------------------

  /** The contacts of the i-th bucket stand, in order, behind those of the lower ones. */
  lemma {:induction false} BucketStands(t: Table, i: nat)
    requires i < NUM_BUCKETS
    ensures SizeUpTo(t, i + 1) <= |Flatten(t)| == Size(t)
    ensures Flatten(t)[SizeUpTo(t, i)..SizeUpTo(t, i + 1)] == t[i]
  {
    hide Flatten, SizeUpTo;
    LengthUpTo(t, i);
    LengthUpTo(t, i + 1);
    LengthUpTo(t, NUM_BUCKETS);
    assert t[..NUM_BUCKETS] == t;
    FlattenSplit(t[..i + 1], t[i + 1..]);
    assert t[..i + 1] + t[i + 1..] == t;
    FlattenSplit(t[..i], [t[i]]);
    assert t[..i] + [t[i]] == t[..i + 1];
    FlattenOne(t[i]);
  }

  lemma {:induction false} LengthUpTo(t: Table, n: nat)
    requires n <= NUM_BUCKETS
    ensures |Flatten(t[..n])| == SizeUpTo(t, n)
  {
    if n > 0 {
      LengthUpTo(t, n - 1);
      FlattenSplit(t[..n - 1], [t[n - 1]]);
      assert t[..n - 1] + [t[n - 1]] == t[..n];
      FlattenOne(t[n - 1]);
    }
  }

  lemma FlattenOne(b: seq<Contact>)
    ensures Flatten([b]) == b
  {
  }

  /** Some bucket of the table holds the contact. */
  predicate Holds(t: Table, c: Contact) {
    exists i | 0 <= i < NUM_BUCKETS :: c in t[i]
  }

  /** A right answer in terms of the buckets. */
  lemma ClosestInTable(r: seq<Contact>, t: Table, target: NodeID, count: nat)
    ensures IsClosest(r, Flatten(t), target, count) <==>
            && |r| == Min(count, Size(t))
            && (forall c | c in r :: Holds(t, c))
            && (forall i, j | 0 <= i < j < |r| :: Dist(r[i].id, target) < Dist(r[j].id, target))
            && (forall c, d | Holds(t, c) && c !in r && d in r :: Dist(d.id, target) < Dist(c.id, target))
  {
    hide Dist, Flatten, Size, Holds;
    BucketStands(t, 0);
    forall c ensures c in Flatten(t) <==> Holds(t, c) {
      HoldsIsMember(t, c);
    }
  }

  lemma HoldsIsMember(t: Table, c: Contact)
    ensures c in Flatten(t) <==> Holds(t, c)
  {
    FlattenMember(t, c);
  }
}
