/** DownloadQueue of internal/crawler/cache.go: a bounded queue of hashes and the marks
    that say which hashes are on their way. */
module DownloadQueue {
  import opened Bytes

  datatype Item = Item(infoHash: Hash, peerAddr: bytes)

  /** The two fields the operations change. */
  datatype Queue = Queue(items: seq<Item>, inFlight: set<Hash>) {

    /** LoadOrStore: sets the mark unless it is set. */
    function Mark(h: Hash): (Queue, bool) {
      (this.(inFlight := inFlight + {h}), h in inFlight)
    }

    function Unmark(h: Hash): Queue {
      this.(inFlight := inFlight - {h})
    }

    function Push(item: Item): Queue {
      this.(items := items + [item])
    }

    function Pop(): Queue
      requires items != []
    {
      this.(items := items[1..])
    }

    /** Add as a whole: marked and enqueued, or nothing changes. */
    function Added(item: Item, maxSize: nat): (Queue, bool) {
      if item.infoHash in inFlight || |items| >= maxSize then (this, false)
      else (Mark(item.infoHash).0.Push(item), true)
    }

    /** Refill as a whole: adds hashes that are not on their way until the queue is full. */
    function Refilled(hashes: seq<Hash>, maxSize: nat): Queue
      decreases |hashes|
    {
      if hashes == [] then this
      else if hashes[0] in inFlight then Refilled(hashes[1..], maxSize)
      else if |items| >= maxSize then this
      else Added(Item(hashes[0], []), maxSize).0.Refilled(hashes[1..], maxSize)
    }
  }

  /** Every queued hash is marked and queued once. */
  predicate WellMarked(q: Queue) {
    && (forall i | 0 <= i < |q.items| :: q.items[i].infoHash in q.inFlight)
    && forall i, j | 0 <= i < j < |q.items| :: q.items[i].infoHash != q.items[j].infoHash
  }

  class DownloadQueue {
    var items: seq<Item>
    const maxSize: nat
    var inFlight: set<Hash>

    ghost function Contents(): Queue
      reads this
    {
      Queue(items, inFlight)
    }

    constructor (maxSize: nat)
      ensures Contents() == Queue([], {}) && this.maxSize == maxSize
    {
      items, inFlight := [], {};
      this.maxSize := maxSize;
    }

    /** sync.Map.LoadOrStore on the marks. */
    method Mark(h: Hash) returns (loaded: bool)
      modifies this`inFlight
      ensures (Contents(), loaded) == old(Contents()).Mark(h)
    {
      loaded := h in inFlight;
      inFlight := inFlight + {h};
    }

    /** Complete, and the delete inside Add: removes the mark. */
    method Complete(h: Hash)
      modifies this`inFlight
      ensures Contents() == old(Contents()).Unmark(h)
    {
      inFlight := inFlight - {h};
    }

    /** Add: the mark first, then the queue; a full queue takes the mark back. */
    method Add(infoHash: Hash, peerAddr: bytes) returns (added: bool)
      modifies this
      ensures (Contents(), added) == old(Contents()).Added(Item(infoHash, peerAddr), maxSize)
      ensures added <==> infoHash !in old(inFlight) && |old(items)| < maxSize
      ensures added ==> items == old(items) + [Item(infoHash, peerAddr)] && inFlight == old(inFlight) + {infoHash}
      ensures !added ==> items == old(items) && inFlight == old(inFlight)
      ensures old(WellMarked(Contents())) ==> WellMarked(Contents())
    {
      var loaded := Mark(infoHash);
      if loaded {
        assert old(inFlight) + {infoHash} == old(inFlight);
        return false;
      }
      if |items| >= maxSize {
        Complete(infoHash);
        assert old(inFlight) + {infoHash} - {infoHash} == old(inFlight);
        return false;
      }
      items := items + [Item(infoHash, peerAddr)];
      return true;
    }

    method Get() returns (item: Option<Item>)
      modifies this`items
      ensures old(items) == [] ==> item == None && Contents() == old(Contents())
      ensures old(items) != [] ==> item == Some(old(items)[0]) && Contents() == old(Contents()).Pop()
      ensures old(items) != [] ==> items == old(items)[1..]
      ensures old(WellMarked(Contents())) ==> WellMarked(Contents())
    {
      if |items| == 0 {
        return None;
      }
      item := Some(items[0]);
      items := items[1..];
    }

    method Refill(hashes: seq<Hash>)
      modifies this
      ensures Contents() == old(Contents()).Refilled(hashes, maxSize)
    {
      for n := 0 to |hashes|
        invariant Contents().Refilled(hashes[n..], maxSize) == old(Contents()).Refilled(hashes, maxSize)
      {
        assert hashes[n..][1..] == hashes[n + 1..];
        ghost var before := inFlight;
        var loaded := Mark(hashes[n]);
        if loaded {
          assert before + {hashes[n]} == before;
          continue;
        }
        if |items| >= maxSize {
          Complete(hashes[n]);
          assert before + {hashes[n]} - {hashes[n]} == before;
          break;
        }
        items := items + [Item(hashes[n], [])];
      }
    }
  }

  /** A refill appends unmarked hashes of the list, without a peer, marks exactly those,
      never exceeds the bound, leaves room only if every hash of the list is marked, and
      keeps queue and marks consistent. */
  lemma {:induction false} RefillKeeps(q: Queue, hashes: seq<Hash>, maxSize: nat)
    requires WellMarked(q) && |q.items| <= maxSize
    ensures var q' := q.Refilled(hashes, maxSize);
            && WellMarked(q') && q.items <= q'.items && |q'.items| <= maxSize
            && (forall i | |q.items| <= i < |q'.items| ::
                  q'.items[i].infoHash in hashes && q'.items[i].infoHash !in q.inFlight && q'.items[i].peerAddr == [])
            && (|q'.items| < maxSize ==> forall h | h in hashes :: h in q'.inFlight)
            && q'.inFlight == q.inFlight + (set i | |q.items| <= i < |q'.items| :: q'.items[i].infoHash)
    decreases |hashes|
  {
    if hashes != [] && hashes[0] in q.inFlight {
      RefillKeeps(q, hashes[1..], maxSize);
    } else if hashes != [] && |q.items| < maxSize {
      var next := q.Added(Item(hashes[0], []), maxSize).0;
      assert next.items[|q.items|].infoHash == hashes[0];
      RefillKeeps(next, hashes[1..], maxSize);
      var q' := q.Refilled(hashes, maxSize);
      assert q'.items[|q.items|] == next.items[|q.items|];
    }
  }

  /** The added hashes stand in the order of the list, and none was preferred to an earlier
      one that is still unmarked. */
  lemma {:induction false} RefillInOrder(q: Queue, hashes: seq<Hash>, maxSize: nat) returns (places: seq<nat>)
    requires |q.items| <= maxSize
    ensures var q' := q.Refilled(hashes, maxSize);
            && |q'.items| == |q.items| + |places|
            && (forall k | 0 <= k < |places| ::
                  places[k] < |hashes| && q'.items[|q.items| + k] == Item(hashes[places[k]], []))
            && (forall k, l | 0 <= k < l < |places| :: places[k] < places[l])
            && forall j, k | 0 <= j < |hashes| && hashes[j] !in q'.inFlight && 0 <= k < |places| :: places[k] < j
    decreases |hashes|
  {
    places := [];
    if hashes != [] && hashes[0] in q.inFlight {
      var rest := RefillInOrder(q, hashes[1..], maxSize);
      StaysMarked(q, hashes[1..], maxSize, hashes[0]);
      places := Shifted(rest);
    } else if hashes != [] && |q.items| < maxSize {
      var next := q.Added(Item(hashes[0], []), maxSize).0;
      var rest := RefillInOrder(next, hashes[1..], maxSize);
      StaysMarked(next, hashes[1..], maxSize, hashes[0]);
      places := [0] + Shifted(rest);
      assert next.items[|q.items|] == Item(hashes[0], []);
    }
  }

  function Shifted(places: seq<nat>): (r: seq<nat>)
    ensures |r| == |places| && forall k | 0 <= k < |r| :: r[k] == places[k] + 1
  {
    seq(|places|, k requires 0 <= k < |places| => places[k] + 1)
  }

  lemma {:induction false} StaysMarked(q: Queue, hashes: seq<Hash>, maxSize: nat, h: Hash)
    requires h in q.inFlight
    ensures var q' := q.Refilled(hashes, maxSize); h in q'.inFlight && q.items <= q'.items
    decreases |hashes|
  {
    if hashes != [] && hashes[0] in q.inFlight {
      StaysMarked(q, hashes[1..], maxSize, h);
    } else if hashes != [] && |q.items| < maxSize {
      StaysMarked(q.Added(Item(hashes[0], []), maxSize).0, hashes[1..], maxSize, h);
    }
  }
}
