/** The routing table of internal/dht/routing.go as a value: 160 buckets of contacts and
    the functions its operations compute, with what every run of them keeps. */
module TableSpec {
  import opened Bags
  import opened Bytes
  import opened NodeId

  const K := 8
  const NUM_BUCKETS := 160
  /** Fifteen minutes, in nanoseconds. */
  const NODE_TIMEOUT := 15 * 60 * 1_000_000_000

  /** A RoutingNode; times are nanoseconds on a common clock. */
  datatype Contact = Contact(id: NodeID, ip: bytes, port: int, lastSeen: int)

  type Table = t: seq<seq<Contact>> | |t| == NUM_BUCKETS witness seq(NUM_BUCKETS, _ => [])

  function EmptyTable(): Table {
    seq(NUM_BUCKETS, _ => [])
  }

  // ---------------------------------------------------------------------
  // One bucket
  // ---------------------------------------------------------------------

  /** Index of the first contact with this id. */
  function IndexOf(nodes: seq<Contact>, id: NodeID): (r: Option<nat>)
    ensures r.Some? ==> r.value < |nodes| && nodes[r.value].id == id
    ensures r.Some? ==> forall j | 0 <= j < r.value :: nodes[j].id != id
    ensures r.None? ==> forall j | 0 <= j < |nodes| :: nodes[j].id != id
  {
    if nodes == [] then None
    else if nodes[0].id == id then Some(0)
    else
      match IndexOf(nodes[1..], id)
      case None => None
      case Some(i) => Some(i + 1)
  }

  predicate Stale(c: Contact, now: int) {
    now - c.lastSeen > NODE_TIMEOUT
  }

  /** Index of the first contact not seen for too long. */
  function FirstStale(nodes: seq<Contact>, now: int): (r: Option<nat>)
    ensures r.Some? ==> r.value < |nodes| && Stale(nodes[r.value], now)
    ensures r.Some? ==> forall j | 0 <= j < r.value :: !Stale(nodes[j], now)
    ensures r.None? ==> forall j | 0 <= j < |nodes| :: !Stale(nodes[j], now)
  {
    if nodes == [] then None
    else if Stale(nodes[0], now) then Some(0)
    else
      match FirstStale(nodes[1..], now)
      case None => None
      case Some(i) => Some(i + 1)
  }

  /** A known contact moves to the end; a new one is appended while there is room and
      otherwise takes the place of the first stale one. */
  function BucketInsert(nodes: seq<Contact>, c: Contact): (seq<Contact>, bool) {
    match IndexOf(nodes, c.id)
    case Some(i) => (Without(nodes, i) + [c], true)
    case None =>
      if |nodes| < K then (nodes + [c], true)
      else
        match FirstStale(nodes, c.lastSeen)
        case Some(i) => (nodes[i := c], true)
        case None => (nodes, false)
  }

  function BucketRemove(nodes: seq<Contact>, id: NodeID): seq<Contact> {
    match IndexOf(nodes, id)
    case Some(i) => Without(nodes, i)
    case None => nodes
  }

  function BucketTouch(nodes: seq<Contact>, id: NodeID, now: int): seq<Contact> {
    match IndexOf(nodes, id)
    case Some(i) => nodes[i := nodes[i].(lastSeen := now)]
    case None => nodes
  }

  // ---------------------------------------------------------------------
  // The table
  // ---------------------------------------------------------------------

  /** Bucket numbers never leave the table. */
  function Slot(local: NodeID, id: NodeID): (i: nat)
    ensures i < NUM_BUCKETS
  {
    SlotInRange(local, id);
    BucketOf(local, id)
  }

  lemma SlotInRange(local: NodeID, id: NodeID)
    ensures BucketOf(local, id) < NUM_BUCKETS
  {
    if local == id {
      DistZeroIff(local, id);
    } else {
      BucketIsLog(local, id, 0);
    }
  }

  function Insert(local: NodeID, t: Table, c: Contact): (Table, bool) {
    if c.id == local then (t, false)
    else
      var i := Slot(local, c.id);
      var r := BucketInsert(t[i], c);
      (t[i := r.0], r.1)
  }

  function Remove(local: NodeID, t: Table, id: NodeID): Table {
    var i := Slot(local, id);
    t[i := BucketRemove(t[i], id)]
  }

  function Touch(local: NodeID, t: Table, id: NodeID, now: int): Table {
    var i := Slot(local, id);
    t[i := BucketTouch(t[i], id, now)]
  }

  /** The contact found under an id, whatever its place in the bucket. */
  function Find(nodes: seq<Contact>, id: NodeID): Option<Contact> {
    match IndexOf(nodes, id)
    case Some(i) => Some(nodes[i])
    case None => None
  }

  /** GetNode: looks only into the bucket of the id. */
  function Lookup(local: NodeID, t: Table, id: NodeID): Option<Contact> {
    Find(t[Slot(local, id)], id)
  }

  // ---------------------------------------------------------------------
  // The invariant
  // ---------------------------------------------------------------------

  predicate DistinctIds(nodes: seq<Contact>) {
    forall i, j | 0 <= i < j < |nodes| :: nodes[i].id != nodes[j].id
  }

  /** At most K contacts, each filed under its id, none twice, never the local id. */
  predicate BucketInv(local: NodeID, i: nat, nodes: seq<Contact>) {
    && |nodes| <= K
    && DistinctIds(nodes)
    && forall j | 0 <= j < |nodes| :: nodes[j].id != local && BucketOf(local, nodes[j].id) == i
  }

  predicate TableInv(local: NodeID, t: Table) {
    forall i | 0 <= i < NUM_BUCKETS :: BucketInv(local, i, t[i])
  }

  lemma BucketInsertKeeps(local: NodeID, i: nat, nodes: seq<Contact>, c: Contact)
    requires BucketInv(local, i, nodes) && c.id != local && BucketOf(local, c.id) == i
    ensures BucketInv(local, i, BucketInsert(nodes, c).0)
  {
    hide BucketInv;
    BucketRoom(local, i, nodes);
    match IndexOf(nodes, c.id)
    case Some(k) =>
      WithoutKeeps(local, i, nodes, k);
      WithoutId(nodes, k, c.id);
      AppendKeeps(local, i, Without(nodes, k), c);
    case None =>
      if |nodes| < K {
        AppendKeeps(local, i, nodes, c);
      } else if FirstStale(nodes, c.lastSeen).Some? {
        ReplaceKeeps(local, i, nodes, FirstStale(nodes, c.lastSeen).value, c);
      }
  }

  lemma BucketRoom(local: NodeID, i: nat, nodes: seq<Contact>)
    requires BucketInv(local, i, nodes)
    ensures |nodes| <= K && DistinctIds(nodes)
  {
  }

  lemma WithoutId(nodes: seq<Contact>, k: nat, id: NodeID)
    requires DistinctIds(nodes) && k < |nodes| && nodes[k].id == id
    ensures forall j | 0 <= j < |nodes| - 1 :: Without(nodes, k)[j].id != id
  {
    hide Without;
    forall j | 0 <= j < |nodes| - 1 ensures Without(nodes, k)[j].id != id {
      WithoutElement(nodes, k, j);
    }
  }

  lemma AppendKeeps(local: NodeID, i: nat, nodes: seq<Contact>, c: Contact)
    requires BucketInv(local, i, nodes) && |nodes| < K && c.id != local && BucketOf(local, c.id) == i
    requires forall j | 0 <= j < |nodes| :: nodes[j].id != c.id
    ensures BucketInv(local, i, nodes + [c])
  {
    hide BucketOf;
  }

  lemma ReplaceKeeps(local: NodeID, i: nat, nodes: seq<Contact>, k: nat, c: Contact)
    requires BucketInv(local, i, nodes) && k < |nodes| && c.id != local && BucketOf(local, c.id) == i
    requires forall j | 0 <= j < |nodes| :: nodes[j].id != c.id
    ensures BucketInv(local, i, nodes[k := c])
  {
    hide BucketOf;
  }

  lemma BucketRemoveKeeps(local: NodeID, i: nat, nodes: seq<Contact>, id: NodeID)
    requires BucketInv(local, i, nodes)
    ensures BucketInv(local, i, BucketRemove(nodes, id))
  {
    hide BucketInv;
    if IndexOf(nodes, id).Some? {
      WithoutKeeps(local, i, nodes, IndexOf(nodes, id).value);
    }
  }

  lemma WithoutKeeps(local: NodeID, i: nat, nodes: seq<Contact>, k: nat)
    requires BucketInv(local, i, nodes) && k < |nodes|
    ensures BucketInv(local, i, Without(nodes, k))
  {
    hide BucketOf, Without;
    forall j | 0 <= j < |nodes| - 1
      ensures Without(nodes, k)[j] == nodes[if j < k then j else j + 1]
    {
      WithoutElement(nodes, k, j);
    }
  }

  lemma BucketTouchKeeps(local: NodeID, i: nat, nodes: seq<Contact>, id: NodeID, now: int)
    requires BucketInv(local, i, nodes)
    ensures BucketInv(local, i, BucketTouch(nodes, id, now))
  {
    hide BucketOf;
  }

  // ---------------------------------------------------------------------
  // Runs
  // ---------------------------------------------------------------------

  datatype Op =
    | OpInsert(id: NodeID, ip: bytes, port: int)
    | OpRemove(id: NodeID)
    | OpTouch(id: NodeID)

  datatype Event = Event(op: Op, time: int)

  function Step(local: NodeID, t: Table, e: Event): Table {
    match e.op
    case OpInsert(id, ip, port) => Insert(local, t, Contact(id, ip, port, e.time)).0
    case OpRemove(id) => Remove(local, t, id)
    case OpTouch(id) => Touch(local, t, id, e.time)
  }

  /** The table after a run of operations on a new one. */
  function Run(local: NodeID, events: seq<Event>): Table {
    if events == [] then EmptyTable()
    else Step(local, Run(local, events[..|events| - 1]), events[|events| - 1])
  }

  lemma StepKeepsInv(local: NodeID, t: Table, e: Event)
    requires TableInv(local, t)
    ensures TableInv(local, Step(local, t, e))
  {
    hide BucketInv, BucketOf, BucketInsert, BucketRemove, BucketTouch;
    var i := Slot(local, e.op.id);
    match e.op
    case OpInsert(id, ip, port) =>
      if id != local {
        BucketInsertKeeps(local, i, t[i], Contact(id, ip, port, e.time));
      }
    case OpRemove(id) => BucketRemoveKeeps(local, i, t[i], id);
    case OpTouch(id) => BucketTouchKeeps(local, i, t[i], id, e.time);
  }

  /** Every reachable table satisfies the invariant. */
  lemma {:induction false} RunKeepsInv(local: NodeID, events: seq<Event>)
    ensures TableInv(local, Run(local, events))
  {
    hide Step;
    if events == [] {
      hide BucketOf;
    } else {
      var before := events[..|events| - 1];
      RunKeepsInv(local, before);
      StepKeepsInv(local, Run(local, before), events[|events| - 1]);
    }
  }

  // ---------------------------------------------------------------------
  // The table as a map
  // ---------------------------------------------------------------------

  /** GetNode finds a contact exactly when the table holds it, in whatever bucket. */
  lemma LookupIsMembership(local: NodeID, t: Table, c: Contact)
    requires TableInv(local, t)
    ensures Lookup(local, t, c.id) == Some(c) <==> exists i | 0 <= i < NUM_BUCKETS :: c in t[i]
  {
    hide BucketOf;
    var slot := Slot(local, c.id);
    assert BucketInv(local, slot, t[slot]);
    if i :| 0 <= i < NUM_BUCKETS && c in t[i] {
      assert BucketInv(local, i, t[i]);
      var j :| 0 <= j < |t[i]| && t[i][j] == c;
      assert i == slot;
    }
  }

  /** No id occurs in two places of the table. */
  lemma IdsUnique(local: NodeID, t: Table, i: nat, j: nat, k: nat, l: nat)
    requires TableInv(local, t) && i < NUM_BUCKETS && k < NUM_BUCKETS
    requires j < |t[i]| && l < |t[k]| && t[i][j].id == t[k][l].id
    ensures i == k && j == l
  {
    hide BucketOf;
    assert BucketInv(local, i, t[i]) && BucketInv(local, k, t[k]);
  }

  lemma FindUnique(nodes: seq<Contact>, c: Contact)
    requires DistinctIds(nodes)
    ensures Find(nodes, c.id) == Some(c) <==> c in nodes
  {
  }

  lemma FindNone(nodes: seq<Contact>, id: NodeID)
    ensures Find(nodes, id) == None <==> forall c | c in nodes :: c.id != id
  {
  }

  /** Two duplicate-free buckets with the same contacts under an id find the same. */
  lemma FindAgrees(nodes: seq<Contact>, nodes': seq<Contact>, id: NodeID)
    requires DistinctIds(nodes) && DistinctIds(nodes')
    requires forall c: Contact | c.id == id :: c in nodes <==> c in nodes'
    ensures Find(nodes, id) == Find(nodes', id)
  {
    hide DistinctIds, Find;
    FindNone(nodes, id);
    FindNone(nodes', id);
    if Find(nodes, id).Some? {
      var c := Find(nodes, id).value;
      FindId(nodes, id);
      FindUnique(nodes, c);
      FindUnique(nodes', c);
    }
  }

  lemma FindId(nodes: seq<Contact>, id: NodeID)
    ensures Find(nodes, id).Some? ==> Find(nodes, id).value.id == id
  {
  }

  lemma WithoutMembers(nodes: seq<Contact>, i: nat, c: Contact)
    requires DistinctIds(nodes) && i < |nodes|
    ensures DistinctIds(Without(nodes, i))
    ensures c in Without(nodes, i) <==> c in nodes && c.id != nodes[i].id
  {
    var rest := Without(nodes, i);
    if c in nodes && c.id != nodes[i].id {
      var j :| 0 <= j < |nodes| && nodes[j] == c;
      assert rest[if j < i then j else j - 1] == c;
    }
  }

  /** What an insertion does to the contacts found in its bucket. */
  lemma BucketInsertFind(nodes: seq<Contact>, c: Contact, other: NodeID)
    requires DistinctIds(nodes) && |nodes| <= K
    ensures var (nodes', added) := BucketInsert(nodes, c);
            && (added <==> Find(nodes, c.id).Some? || |nodes| < K || FirstStale(nodes, c.lastSeen).Some?)
            && (added ==> Find(nodes', c.id) == Some(c))
            && (!added ==> nodes' == nodes)
            && (other != c.id && Find(nodes', other) != Find(nodes, other) ==>
                && Find(nodes, c.id) == None && |nodes| == K
                && Find(nodes', other) == None
                && FirstStale(nodes, c.lastSeen).Some?
                && Find(nodes, other) == Some(nodes[FirstStale(nodes, c.lastSeen).value]))
  {
    hide Find, DistinctIds, FirstStale;
    var (nodes', added) := BucketInsert(nodes, c);
    FindNone(nodes, c.id);
    match IndexOf(nodes, c.id)
    case Some(i) =>
      MovedToEnd(nodes, i, c);
      FindUnique(nodes', c);
      if other != c.id {
        FindAgrees(nodes, nodes', other);
      }
      assert nodes[i] in nodes;
    case None =>
      if |nodes| < K {
        Appended(nodes, c);
        FindUnique(nodes', c);
        if other != c.id {
          FindAgrees(nodes, nodes', other);
        }
      } else if FirstStale(nodes, c.lastSeen).Some? {
        var i := FirstStale(nodes, c.lastSeen).value;
        Replaced(nodes, i, c);
        FindUnique(nodes', c);
        if other == nodes[i].id {
          FindUnique(nodes, nodes[i]);
          FindNone(nodes', other);
        } else if other != c.id {
          FindAgrees(nodes, nodes', other);
        }
      }
  }

  lemma MovedToEnd(nodes: seq<Contact>, i: nat, c: Contact)
    requires DistinctIds(nodes) && i < |nodes| && nodes[i].id == c.id
    ensures var nodes' := Without(nodes, i) + [c];
            && DistinctIds(nodes')
            && forall d :: d in nodes' <==> d == c || (d in nodes && d.id != c.id)
  {
    forall d: Contact ensures d in Without(nodes, i) <==> d in nodes && d.id != c.id {
      WithoutMembers(nodes, i, d);
    }
    WithoutMembers(nodes, i, c);
  }

  lemma Appended(nodes: seq<Contact>, c: Contact)
    requires DistinctIds(nodes) && IndexOf(nodes, c.id) == None
    ensures DistinctIds(nodes + [c])
    ensures forall d :: d in nodes + [c] <==> d == c || d in nodes
  {
  }

  lemma Replaced(nodes: seq<Contact>, i: nat, c: Contact)
    requires DistinctIds(nodes) && i < |nodes| && IndexOf(nodes, c.id) == None
    ensures var nodes' := nodes[i := c];
            && DistinctIds(nodes')
            && forall d :: d in nodes' <==> d == c || (d in nodes && d.id != nodes[i].id)
  {
    var nodes' := nodes[i := c];
    forall d ensures d in nodes' <==> d == c || (d in nodes && d.id != nodes[i].id) {
      if d == c {
        assert nodes'[i] == c;
      } else if d in nodes && d.id != nodes[i].id {
        var j :| 0 <= j < |nodes| && nodes[j] == d;
        assert nodes'[j] == d;
      }
    }
  }

  lemma BucketTouchFind(nodes: seq<Contact>, id: NodeID, now: int, other: NodeID)
    requires DistinctIds(nodes)
    ensures var nodes' := BucketTouch(nodes, id, now);
            Find(nodes', other) ==
            if other == id && Find(nodes, id).Some? then Some(Find(nodes, id).value.(lastSeen := now))
            else Find(nodes, other)
  {
    if IndexOf(nodes, id).Some? {
      var i := IndexOf(nodes, id).value;
      var nodes' := BucketTouch(nodes, id, now);
      assert IndexOf(nodes', other) == IndexOf(nodes, other) by {
        SameIdsSameIndex(nodes, nodes', other);
      }
    }
  }

  lemma {:induction false} SameIdsSameIndex(nodes: seq<Contact>, nodes': seq<Contact>, id: NodeID)
    requires |nodes| == |nodes'| && forall i | 0 <= i < |nodes| :: nodes[i].id == nodes'[i].id
    ensures IndexOf(nodes, id) == IndexOf(nodes', id)
  {
    if nodes != [] {
      SameIdsSameIndex(nodes[1..], nodes'[1..], id);
    }
  }

  lemma BucketRemoveFind(nodes: seq<Contact>, id: NodeID, other: NodeID)
    requires DistinctIds(nodes)
    ensures Find(BucketRemove(nodes, id), other) == if other == id then None else Find(nodes, other)
  {
    hide Find, DistinctIds;
    var nodes' := BucketRemove(nodes, id);
    FindNone(nodes', id);
    FindNone(nodes, id);
    if IndexOf(nodes, id).Some? {
      var i := IndexOf(nodes, id).value;
      WithoutMembers(nodes, i, nodes[i]);
      forall c ensures c in nodes' <==> c in nodes && c.id != id {
        WithoutMembers(nodes, i, c);
      }
      if other != id {
        FindAgrees(nodes, nodes', other);
      }
    } else {
      assert forall c | c in nodes :: c.id != id;
    }
  }
}
