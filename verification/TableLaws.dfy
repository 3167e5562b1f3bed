/** What the routing table promises over all runs: its behaviour as a map from ids to
    contacts, who may be evicted, and how many contacts it can hold. */
module TableLaws {
  import opened Bytes
  import opened ExclusiveOr
  import opened NodeId
  import opened TableSpec

  // ---------------------------------------------------------------------
  // The operations on the map view
  // ---------------------------------------------------------------------

  /** An insertion of `c` throws `other` out: `c` was new, its bucket full, and `other`
      had not been seen for longer than the timeout. */
  predicate Evictable(local: NodeID, t: Table, c: Contact, other: NodeID) {
    && Lookup(local, t, c.id) == None
    && Slot(local, other) == Slot(local, c.id)
    && |t[Slot(local, c.id)]| == K
    && Lookup(local, t, other).Some?
    && Stale(Lookup(local, t, other).value, c.lastSeen)
  }

  /** Insert stores the contact or changes nothing, refuses only the local id and a new
      id whose bucket is full of recently seen contacts, and changes no other entry
      except that it may remove one evictable contact. */
  lemma InsertEffect(local: NodeID, t: Table, c: Contact, other: NodeID)
    requires TableInv(local, t) && other != c.id
    ensures var (t', added) := Insert(local, t, c);
            && (added <==> c.id != local && (|| Lookup(local, t, c.id).Some?
                                             || |t[Slot(local, c.id)]| < K
                                             || exists d | d in t[Slot(local, c.id)] :: Stale(d, c.lastSeen)))
            && (added ==> Lookup(local, t', c.id) == Some(c))
            && (!added ==> t' == t)
            && (Lookup(local, t', other) != Lookup(local, t, other) ==>
                  Lookup(local, t', other) == None && Evictable(local, t, c, other))
  {
    hide Slot, Find, BucketInsert, TableInv;
    var slot := Slot(local, c.id);
    BucketOk(local, t, slot);
    if c.id == local {
      NoLocal(local, t, slot);
    } else {
      BucketInsertFind(t[slot], c, other);
      var first := FirstStale(t[slot], c.lastSeen);
      if first.Some? {
        assert t[slot][first.value] in t[slot];
      }
    }
  }

  // ---------------------------------------------------------------------
  // The operations on the lists
  // ---------------------------------------------------------------------

  /** `k` is the place of the first contact with this id. */
  predicate KnownAt(b: seq<Contact>, id: NodeID, k: nat) {
    k < |b| && b[k].id == id && forall j | 0 <= j < k :: b[j].id != id
  }

  predicate Unknown(b: seq<Contact>, id: NodeID) {
    forall j | 0 <= j < |b| :: b[j].id != id
  }

  /** `k` is the place of the first contact not seen for more than fifteen minutes. */
  predicate OldAt(b: seq<Contact>, now: int, k: nat) {
    && k < |b| && now - b[k].lastSeen > 900_000_000_000
    && forall j | 0 <= j < k :: now - b[j].lastSeen <= 900_000_000_000
  }

  predicate AllRecent(b: seq<Contact>, now: int) {
    forall j | 0 <= j < |b| :: now - b[j].lastSeen <= 900_000_000_000
  }

  /** The buckets agree outside the i-th. */
  predicate OnlyBucket(t: Table, t': Table, i: nat) {
    forall j | 0 <= j < 160 && j != i :: t'[j] == t[j]
  }

  /** The bucket of an id holds the contacts at distances from 2^i up to 2^(i+1). */
  predicate IsBucketOf(local: NodeID, id: NodeID, i: nat) {
    i < 160 && Pow2(i) <= Dist(local, id) < Pow2(i + 1)
  }

  lemma SlotIs(local: NodeID, id: NodeID, i: nat)
    requires id != local && IsBucketOf(local, id, i)
    ensures Slot(local, id) == i
  {
    BucketIsLog(local, id, i);
  }

  /** What an insertion makes of the bucket list, place by place: a known contact moves
      behind the others; a new one is put behind them while there are fewer than eight, or
      else takes the place of the first one not seen for more than fifteen minutes, or is
      refused.  The other buckets stay as they are. */
  lemma InsertLists(local: NodeID, t: Table, c: Contact, i: nat, k: nat)
    requires c.id != local && IsBucketOf(local, c.id, i)
    ensures OnlyBucket(t, Insert(local, t, c).0, i)
    ensures var (t', added) := Insert(local, t, c);
            && (KnownAt(t[i], c.id, k) ==> added && t'[i] == t[i][..k] + t[i][k + 1..] + [c])
            && (Unknown(t[i], c.id) && |t[i]| < 8 ==> added && t'[i] == t[i] + [c])
            && (Unknown(t[i], c.id) && |t[i]| >= 8 && OldAt(t[i], c.lastSeen, k) ==>
                  added && t'[i] == t[i][..k] + [c] + t[i][k + 1..])
            && (Unknown(t[i], c.id) && |t[i]| >= 8 && AllRecent(t[i], c.lastSeen) ==> !added && t' == t)
  {
    SlotIs(local, c.id, i);
    hide Slot, BucketInsert, IsBucketOf;
    BucketInsertLists(t[i], c, k);
    hide KnownAt, Unknown, OldAt, AllRecent;
    assert t[i := t[i]] == t;
  }

  lemma BucketInsertLists(b: seq<Contact>, c: Contact, k: nat)
    ensures var (b', added) := BucketInsert(b, c);
            && (KnownAt(b, c.id, k) ==> added && b' == b[..k] + b[k + 1..] + [c])
            && (Unknown(b, c.id) && |b| < 8 ==> added && b' == b + [c])
            && (Unknown(b, c.id) && |b| >= 8 && OldAt(b, c.lastSeen, k) ==> added && b' == b[..k] + [c] + b[k + 1..])
            && (Unknown(b, c.id) && |b| >= 8 && AllRecent(b, c.lastSeen) ==> !added && b' == b)
  {
    if KnownAt(b, c.id, k) {
      assert IndexOf(b, c.id) == Some(k);
    } else if Unknown(b, c.id) && |b| >= 8 && OldAt(b, c.lastSeen, k) {
      assert FirstStale(b, c.lastSeen) == Some(k);
    }
  }

  /** A removed contact leaves a gap that closes; a touched one stays in its place. */
  lemma RemoveTouchLists(local: NodeID, t: Table, id: NodeID, now: int, i: nat, k: nat)
    requires id != local && IsBucketOf(local, id, i)
    ensures OnlyBucket(t, Remove(local, t, id), i) && OnlyBucket(t, Touch(local, t, id, now), i)
    ensures KnownAt(t[i], id, k) ==>
              && Remove(local, t, id)[i] == t[i][..k] + t[i][k + 1..]
              && Touch(local, t, id, now)[i]
              == t[i][..k] + [Contact(id, t[i][k].ip, t[i][k].port, now)] + t[i][k + 1..]
    ensures Unknown(t[i], id) ==> Remove(local, t, id) == t && Touch(local, t, id, now) == t
  {
    SlotIs(local, id, i);
    hide Slot, IsBucketOf;
    assert t[i := t[i]] == t;
    if KnownAt(t[i], id, k) {
      assert IndexOf(t[i], id) == Some(k);
    }
  }

  lemma BucketOk(local: NodeID, t: Table, i: nat)
    requires TableInv(local, t) && i < NUM_BUCKETS
    ensures DistinctIds(t[i]) && |t[i]| <= K && BucketInv(local, i, t[i])
  {
  }

  lemma NoLocal(local: NodeID, t: Table, i: nat)
    requires TableInv(local, t) && i < NUM_BUCKETS
    ensures Find(t[i], local) == None
  {
    hide BucketOf;
    BucketOk(local, t, i);
  }

  /** At most one contact leaves. */
  lemma OneEvicted(local: NodeID, t: Table, c: Contact, a: NodeID, b: NodeID)
    requires TableInv(local, t) && a != c.id && b != c.id
    requires Lookup(local, Insert(local, t, c).0, a) != Lookup(local, t, a)
    requires Lookup(local, Insert(local, t, c).0, b) != Lookup(local, t, b)
    ensures a == b
  {
    hide Slot, Find, BucketInsert, TableInv;
    var slot := Slot(local, c.id);
    BucketOk(local, t, slot);
    BucketInsertFind(t[slot], c, a);
    BucketInsertFind(t[slot], c, b);
    FindId(t[slot], a);
    FindId(t[slot], b);
  }

  lemma RemoveEffect(local: NodeID, t: Table, id: NodeID, other: NodeID)
    requires TableInv(local, t)
    ensures Lookup(local, Remove(local, t, id), other) ==
            if other == id then None else Lookup(local, t, other)
  {
    hide Slot, Find, BucketRemove, TableInv;
    var slot := Slot(local, id);
    BucketOk(local, t, slot);
    BucketRemoveFind(t[slot], id, other);
  }

  lemma TouchEffect(local: NodeID, t: Table, id: NodeID, now: int, other: NodeID)
    requires TableInv(local, t)
    ensures Lookup(local, Touch(local, t, id, now), other) ==
            if other == id && Lookup(local, t, id).Some?
            then Some(Lookup(local, t, id).value.(lastSeen := now))
            else Lookup(local, t, other)
  {
    hide Slot, Find, BucketTouch, TableInv;
    var slot := Slot(local, id);
    BucketOk(local, t, slot);
    BucketTouchFind(t[slot], id, now, other);
  }

  // ---------------------------------------------------------------------
  // Recently seen contacts are never evicted
  // ---------------------------------------------------------------------

  predicate ClockNeverRunsBack(events: seq<Event>) {
    forall i, j | 0 <= i < j < |events| :: events[i].time <= events[j].time
  }

  /** The table hears from `id` in this event. */
  predicate Mentions(e: Event, id: NodeID) {
    !e.op.OpRemove? && e.op.id == id
  }

  /** What one event leaves under an id. */
  lemma StepLookup(local: NodeID, t: Table, e: Event, id: NodeID)
    requires TableInv(local, t) && Lookup(local, Step(local, t, e), id).Some?
    ensures var c := Lookup(local, Step(local, t, e), id).value;
            if e.op.id == id then c.lastSeen == e.time else Lookup(local, t, id) == Some(c)
  {
    hide Slot, Find, BucketInsert, TableInv, Lookup, Insert, Remove, Touch, BucketOf;
    match e.op
    case OpInsert(x, ip, port) =>
      var c := Contact(x, ip, port, e.time);
      if x != id {
        InsertEffect(local, t, c, id);
      } else {
        InsertSame(local, t, c);
      }
    case OpRemove(x) => RemoveEffect(local, t, x, id);
    case OpTouch(x) => TouchEffect(local, t, x, e.time, id);
  }

  lemma InsertSame(local: NodeID, t: Table, c: Contact)
    requires TableInv(local, t)
    ensures Lookup(local, Insert(local, t, c).0, c.id) in {None, Some(c)}
  {
    hide Slot, Find, BucketInsert, TableInv;
    var slot := Slot(local, c.id);
    BucketOk(local, t, slot);
    if c.id == local {
      NoLocal(local, t, slot);
    } else {
      BucketInsertFind(t[slot], c, c.id);
    }
  }

  /** In every run, a contact in the table is at least as fresh as the last event that
      mentioned it. */
  lemma {:induction false} SeenRecently(local: NodeID, events: seq<Event>, k: nat, id: NodeID)
    requires ClockNeverRunsBack(events) && k < |events| && Mentions(events[k], id)
    requires Lookup(local, Run(local, events), id).Some?
    ensures Lookup(local, Run(local, events), id).value.lastSeen >= events[k].time
  {
    hide Step, Lookup, TableInv;
    var n := |events| - 1;
    var before := events[..n];
    RunKeepsInv(local, before);
    StepLookup(local, Run(local, before), events[n], id);
    if events[n].op.id != id {
      assert before[k] == events[k];
      SeenRecently(local, before, k, id);
    }
  }

  /** With a clock that never runs back, no insertion removes a contact that any event
      of the run mentioned within the timeout. */
  lemma NoFreshEviction(local: NodeID, events: seq<Event>, c: Contact, other: NodeID, k: nat)
    requires ClockNeverRunsBack(events) && other != c.id
    requires k < |events| && Mentions(events[k], other)
    requires c.lastSeen - events[k].time <= NODE_TIMEOUT
    ensures var t := Run(local, events);
            Lookup(local, Insert(local, t, c).0, other) == Lookup(local, t, other)
  {
    hide Lookup, TableInv, Insert, Run;
    var t := Run(local, events);
    RunKeepsInv(local, events);
    InsertEffect(local, t, c, other);
    if Lookup(local, t, other).Some? {
      SeenRecently(local, events, k, other);
    }
  }

  // ---------------------------------------------------------------------
  // Occupancy
  // ---------------------------------------------------------------------

  /** Distinct numbers in a range are no more than the range. */
  lemma {:induction false} DistinctInRange(s: seq<nat>, lo: nat, hi: nat)
    requires lo <= hi
    requires forall i | 0 <= i < |s| :: lo <= s[i] < hi
    requires forall i, j | 0 <= i < j < |s| :: s[i] != s[j]
    ensures |s| <= hi - lo
    decreases hi
  {
    if s == [] {
    } else if i :| 0 <= i < |s| && s[i] == hi - 1 {
      DistinctInRange(s[..i] + s[i + 1..], lo, hi - 1);
    } else {
      assert lo <= s[0] < hi;
      DistinctInRange(s, lo, hi - 1);
    }
  }

  /** Bucket i covers only 2^i distances. */
  lemma BucketOccupancy(local: NodeID, i: nat, nodes: seq<Contact>)
    requires BucketInv(local, i, nodes)
    ensures |nodes| <= K && |nodes| <= Pow2(i)
  {
    hide Pow2, BucketOf, Dist;
    var dists := seq(|nodes|, j requires 0 <= j < |nodes| => Dist(nodes[j].id, local));
    forall j | 0 <= j < |nodes| ensures Pow2(i) <= dists[j] < Pow2(i + 1) {
      BucketIsLog(local, nodes[j].id, i);
      DistSymmetric(local, nodes[j].id);
    }
    forall j, k | 0 <= j < k < |nodes| ensures dists[j] != dists[k] {
      if dists[j] == dists[k] {
        DistInjective(nodes[j].id, nodes[k].id, local);
      }
    }
    TopRange(i);
    DistinctInRange(dists, Pow2(i), Pow2(i + 1));
  }

  lemma TopRange(i: nat)
    ensures Pow2(i + 1) == 2 * Pow2(i)
  {
  }

  /** Size: contacts in the first `n` buckets. */
  function SizeUpTo(t: Table, n: nat): nat
    requires n <= NUM_BUCKETS
  {
    if n == 0 then 0 else SizeUpTo(t, n - 1) + |t[n - 1]|
  }

  function Size(t: Table): nat {
    SizeUpTo(t, NUM_BUCKETS)
  }

  lemma {:induction false} SizeBound(local: NodeID, t: Table, n: nat)
    requires TableInv(local, t) && n <= NUM_BUCKETS
    ensures n <= 3 ==> SizeUpTo(t, n) <= Pow2(n) - 1
    ensures n >= 3 ==> SizeUpTo(t, n) <= 7 + K * (n - 3)
  {
    hide BucketInv;
    if n > 0 {
      SizeBound(local, t, n - 1);
      BucketOccupancy(local, n - 1, t[n - 1]);
      assert Pow2(3) == 8;
    }
  }

  /** A reachable table never holds more than 1263 contacts, although it has room for
      1280; buckets 0, 1 and 2 hold at most 1, 2 and 4. */
  lemma Occupancy(local: NodeID, events: seq<Event>)
    ensures var t := Run(local, events);
            && Size(t) <= 1263
            && |t[0]| <= 1 && |t[1]| <= 2 && |t[2]| <= 4
            && forall i | 0 <= i < NUM_BUCKETS :: |t[i]| <= K
  {
    hide Run, BucketInv, SizeUpTo;
    var t := Run(local, events);
    RunKeepsInv(local, events);
    SizeBound(local, t, NUM_BUCKETS);
    assert Pow2(0) == 1 && Pow2(1) == 2 && Pow2(2) == 4;
    forall i | 0 <= i < NUM_BUCKETS ensures |t[i]| <= K && |t[i]| <= Pow2(i) {
      BucketOccupancy(local, i, t[i]);
    }
  }

  // ---------------------------------------------------------------------
  // The bound is reached
  // ---------------------------------------------------------------------

  /** What bucket i can hold. */
  function Room(i: nat): nat {
    if i < 3 then Pow2(i) else K
  }

  /** The id at a given distance. */
  function IdAt(local: NodeID, d: nat): NodeID {
    XorBytes(BigEndian(d, ID_LENGTH), local)
  }

  lemma IdAtDistance(local: NodeID, d: nat)
    requires d < Pow2(ID_BITS)
    ensures Dist(local, IdAt(local, d)) == d
  {
    hide XorBytes, ToNat, Xor;
    Pow256IsPow2(ID_LENGTH);
    ToNatOfBigEndian(d, ID_LENGTH);
    ToNatOfXorBytes(BigEndian(d, ID_LENGTH), local);
    var own := ToNat(local);
    XorAssociative(d, own, own);
    XorZeroIff(own, own);
    XorWithZero(d);
    DistSymmetric(local, IdAt(local, d));
  }

  /** The m-th contact of bucket i. */
  function Filler(local: NodeID, i: nat, m: nat): Event {
    Event(OpInsert(IdAt(local, Pow2(i) + m), [], 0), 0)
  }

  lemma RoomFits(i: nat)
    ensures Room(i) <= K && Room(i) <= Pow2(i)
  {
    assert Pow2(3) == 8;
    if i < 3 {
      Pow2Monotone(i, 3);
    } else {
      Pow2Monotone(3, i);
    }
  }

  lemma FillerPlace(local: NodeID, i: nat, m: nat)
    requires i < NUM_BUCKETS && m < Room(i)
    ensures var id := IdAt(local, Pow2(i) + m);
            id != local && Slot(local, id) == i && Dist(local, id) == Pow2(i) + m
  {
    hide Pow2, IdAt, Dist, BucketOf;
    var d := Pow2(i) + m;
    RoomFits(i);
    TopRange(i);
    Pow2Monotone(i + 1, ID_BITS);
    IdAtDistance(local, d);
    DistZeroIff(local, IdAt(local, d));
    BucketIsLog(local, IdAt(local, d), i);
  }

  /** Bucket i holds its first m contacts. */
  predicate Holds(local: NodeID, nodes: seq<Contact>, i: nat, m: nat) {
    |nodes| == m && forall j | 0 <= j < m :: nodes[j].id == IdAt(local, Pow2(i) + j)
  }

  /** Filled up to the m-th contact of bucket i, empty from there. */
  predicate FilledTo(local: NodeID, t: Table, i: nat, m: nat) {
    && (forall k | 0 <= k < NUM_BUCKETS && k < i :: |t[k]| == Room(k))
    && (i < NUM_BUCKETS ==> Holds(local, t[i], i, m))
    && (forall k | i < k < NUM_BUCKETS :: t[k] == [])
  }

  lemma FillOne(local: NodeID, t: Table, i: nat, m: nat)
    requires i < NUM_BUCKETS && m < Room(i) && FilledTo(local, t, i, m)
    ensures FilledTo(local, Step(local, t, Filler(local, i, m)), i, m + 1)
  {
    hide Pow2, IdAt, Slot, BucketOf, Dist, Room;
    RoomFits(i);
    FillerPlace(local, i, m);
    var id := IdAt(local, Pow2(i) + m);
    forall j | 0 <= j < m ensures t[i][j].id != id {
      FillerPlaceBefore(local, i, j, m);
    }
    assert IndexOf(t[i], id) == None;
  }

  lemma FillerPlaceBefore(local: NodeID, i: nat, j: nat, m: nat)
    requires i < NUM_BUCKETS && j < m < Room(i)
    ensures IdAt(local, Pow2(i) + j) != IdAt(local, Pow2(i) + m)
  {
    hide Pow2, IdAt, Slot, Dist, Room;
    FillerPlace(local, i, j);
    FillerPlace(local, i, m);
  }

  lemma {:induction false} Fill(local: NodeID, i: nat, m: nat) returns (events: seq<Event>)
    requires i <= NUM_BUCKETS && (if i < NUM_BUCKETS then m <= Room(i) else m == 0)
    ensures FilledTo(local, Run(local, events), i, m)
    decreases i, m
  {
    hide Step, Room, Holds;
    if m > 0 {
      var before := Fill(local, i, m - 1);
      FillOne(local, Run(local, before), i, m - 1);
      events := before + [Filler(local, i, m - 1)];
      assert events[..|events| - 1] == before;
    } else if i > 0 {
      events := Fill(local, i - 1, Room(i - 1));
      NextBucket(local, Run(local, events), i - 1);
    } else {
      events := [];
      NothingHeld(local);
    }
  }

  lemma NextBucket(local: NodeID, t: Table, i: nat)
    requires i < NUM_BUCKETS && FilledTo(local, t, i, Room(i))
    ensures FilledTo(local, t, i + 1, 0)
  {
    hide Room;
  }

  lemma NothingHeld(local: NodeID)
    ensures Holds(local, [], 0, 0)
  {
  }

  lemma {:induction false} FilledSize(local: NodeID, t: Table, n: nat)
    requires n <= NUM_BUCKETS && FilledTo(local, t, NUM_BUCKETS, 0)
    ensures n <= 3 ==> SizeUpTo(t, n) == Pow2(n) - 1
    ensures n >= 3 ==> SizeUpTo(t, n) == 7 + K * (n - 3)
  {
    if n > 0 {
      FilledSize(local, t, n - 1);
      assert |t[n - 1]| == Room(n - 1);
      assert Pow2(3) == 8;
    }
  }

  /** Whatever the local id, some run of insertions fills the table to 1263 contacts. */
  lemma OccupancyReached(local: NodeID)
    ensures exists events :: Size(Run(local, events)) == 1263
  {
    var events := Fill(local, NUM_BUCKETS, 0);
    FilledSize(local, Run(local, events), NUM_BUCKETS);
    assert Size(Run(local, events)) == 1263;
  }
}
