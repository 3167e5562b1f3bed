/** HashCache of internal/crawler/cache.go: counting discovered hashes and flushing the
    counts to storage in batches, alone and under every interleaving of adders and
    overlapping flushes. */
module HashCache {
  import opened Bags
  import opened Bytes

  datatype CacheItem = CacheItem(count: nat, firstSeen: int)

  type Items = map<Hash, CacheItem>

  function CountIn(items: Items, h: Hash): nat {
    if h in items then items[h].count else 0
  }

  function RowCount(rows: map<Hash, nat>, h: Hash): nat {
    if h in rows then rows[h] else 0
  }

  /** The cache after one more sighting of `h`. */
  function Sighted(items: Items, h: Hash, now: int): Items {
    items[h := if h in items then items[h].(count := items[h].count + 1) else CacheItem(1, now)]
  }

  /** The cache after a batch is put back: counts add up, a present entry keeps its
      first sighting. */
  function Merged(items: Items, batch: Items): Items {
    map h | h in items.Keys + batch.Keys ::
      if h !in items then batch[h]
      else items[h].(count := items[h].count + CountIn(batch, h))
  }

  function Only(batch: Items, hashes: set<Hash>): Items {
    map h | h in batch && h in hashes :: batch[h]
  }

  /** The upsert of InsertHashes: request counts add up. */
  function Upserted(rows: map<Hash, nat>, batch: Items): map<Hash, nat> {
    map h | h in rows.Keys + batch.Keys :: RowCount(rows, h) + CountIn(batch, h)
  }

  // ---------------------------------------------------------------------
  // The cache
  // ---------------------------------------------------------------------

  /** The `hashes` table.  A batch is one transaction: all of it, or nothing while the
      database fails. */
  class Storage {
    var rows: map<Hash, nat>
    var available: bool

    constructor (available: bool)
      ensures rows == map[] && this.available == available
    {
      rows := map[];
      this.available := available;
    }

    method InsertHashes(batch: Items) returns (ok: bool)
      modifies this`rows
      ensures ok <==> available
      ensures rows == if ok then Upserted(old(rows), batch) else old(rows)
    {
      ok := available;
      if ok {
        rows := Upserted(rows, batch);
      }
    }
  }

  class HashCache {
    var items: Items
    const maxSize: int
    const storage: Storage
    var totalAdded: nat
    var totalFlushed: nat

    constructor (maxSize: int, storage: Storage)
      ensures items == map[] && totalAdded == 0 && totalFlushed == 0
      ensures this.maxSize == maxSize && this.storage == storage
    {
      items, totalAdded, totalFlushed := map[], 0, 0;
      this.maxSize, this.storage := maxSize, storage;
    }

    /** The locked region of Add. */
    method Sight(infoHash: Hash, now: int) returns (shouldFlush: bool)
      modifies this`items
      ensures items == Sighted(old(items), infoHash, now)
      ensures shouldFlush <==> |items| >= maxSize
    {
      if infoHash in items {
        items := items[infoHash := items[infoHash].(count := items[infoHash].count + 1)];
      } else {
        items := items[infoHash := CacheItem(1, now)];
      }
      shouldFlush := |items| >= maxSize;
    }

    /** The first locked region of Flush: takes the batch out. */
    method Take() returns (batch: Items)
      modifies this`items
      ensures batch == old(items) && items == map[]
    {
      batch := items;
      items := map[];
    }

    /** The second locked region of Flush, entered only on an error. */
    method PutBack(batch: Items)
      modifies this`items
      ensures items == Merged(old(items), batch)
    {
      hide Merged, Only;
      var left := batch.Keys;
      MergeNothing(items, batch);
      while left != {}
        invariant left <= batch.Keys
        invariant items == Merged(old(items), Only(batch, batch.Keys - left))
        decreases left
      {
        var hash :| hash in left;
        MergeOne(old(items), batch, batch.Keys - left, hash);
        assert batch.Keys - left + {hash} == batch.Keys - (left - {hash});
        if hash in items {
          items := items[hash := items[hash].(count := items[hash].count + batch[hash].count)];
        } else {
          items := items[hash := batch[hash]];
        }
        left := left - {hash};
      }
      MergeAll(batch, batch.Keys - left);
    }

    /** Flush with nobody else running: on success the counts move to storage, on an
        error nothing is lost; the flush counter rises either way. */
    method Flush() returns (ok: bool)
      requires storage as object != this
      modifies this`items, this`totalFlushed, storage`rows
      ensures ok <==> storage.available || old(items) == map[]
      ensures items == if ok then map[] else old(items)
      ensures storage.rows == if ok then Upserted(old(storage.rows), old(items)) else old(storage.rows)
      ensures totalFlushed == old(totalFlushed) + |old(items)|
    {
      if |items| == 0 {
        assert Upserted(storage.rows, items) == storage.rows by {
          assert items == map[];
        }
        return true;
      }
      var batch := Take();
      totalFlushed := totalFlushed + |batch|;
      ok := storage.InsertHashes(batch);
      if !ok {
        PutBack(batch);
        assert Merged(map[], batch) == batch;
      }
    }

    /** Add with nobody else running: for every hash, the count in the cache plus the
        count in storage grows by its sightings and by nothing else. */
    method Add(infoHash: Hash, now: int)
      requires storage as object != this
      modifies this, storage`rows
      ensures totalAdded == old(totalAdded) + 1
      ensures var sighted := Sighted(old(items), infoHash, now);
              if |sighted| < maxSize then
                items == sighted && storage.rows == old(storage.rows) && totalFlushed == old(totalFlushed)
              else
                && totalFlushed == old(totalFlushed) + |sighted|
                && items == (if storage.available then map[] else sighted)
                && storage.rows == if storage.available then Upserted(old(storage.rows), sighted) else old(storage.rows)
      ensures forall h :: (
        CountIn(items, h) + RowCount(storage.rows, h)
          == old(CountIn(items, h) + RowCount(storage.rows, h)) + (if h == infoHash then 1 else 0))
    {
      var shouldFlush := Sight(infoHash, now);
      totalAdded := totalAdded + 1;
      if shouldFlush {
        var _ := Flush();
      }
    }
  }

  lemma MergeNothing(items: Items, batch: Items)
    ensures Merged(items, Only(batch, batch.Keys - batch.Keys)) == items
  {
  }

  lemma MergeAll(batch: Items, hashes: set<Hash>)
    requires hashes == batch.Keys
    ensures Only(batch, hashes) == batch
  {
  }

  /** Merging hash by hash. */
  lemma MergeOne(items: Items, batch: Items, hashes: set<Hash>, h: Hash)
    requires h in batch && h !in hashes
    ensures var done := Merged(items, Only(batch, hashes));
            Merged(items, Only(batch, hashes + {h})) ==
            done[h := if h in done then done[h].(count := done[h].count + batch[h].count) else batch[h]]
  {
  }

  // ---------------------------------------------------------------------
  // All interleavings
  // ---------------------------------------------------------------------

  /** A batch between being taken and being settled; it is counted as flushed before it is
      inserted. */
  datatype Batch = Batch(items: Items, counted: bool)

  /** Cache, unsettled batches, the table, the flush counter, and the history: sightings,
      deleted counts, and the entries of the batches that were inserted or put back. */
  datatype State = State(
    items: Items, taken: seq<Batch>, rows: map<Hash, nat>, totalFlushed: nat,
    sightings: multiset<Hash>, deleted: multiset<Hash>, committed: nat, failed: nat)

  /** One locked region, atomic operation or transaction each. */
  datatype Step =
    | StepAdd(h: Hash, now: int)
    | StepTake
    | StepCount(i: nat)
    | StepCommit(i: nat)
    | StepFail(i: nat)
    | StepDelete(h: Hash)

  predicate Enabled(s: State, step: Step) {
    match step
    case StepAdd(_, _) => true
    case StepTake => |s.items| > 0
    case StepCount(i) => i < |s.taken| && !s.taken[i].counted
    case StepCommit(i) => i < |s.taken| && s.taken[i].counted
    case StepFail(i) => i < |s.taken| && s.taken[i].counted
    case StepDelete(_) => true
  }

  function Next(s: State, step: Step): State
    requires Enabled(s, step)
  {
    match step
    case StepAdd(h, now) =>
      s.(items := Sighted(s.items, h, now), sightings := s.sightings + multiset{h})
    case StepTake => s.(items := map[], taken := s.taken + [Batch(s.items, false)])
    case StepCount(i) =>
      s.(taken := s.taken[i := s.taken[i].(counted := true)],
         totalFlushed := s.totalFlushed + |s.taken[i].items|)
    case StepCommit(i) =>
      s.(taken := Without(s.taken, i), rows := Upserted(s.rows, s.taken[i].items),
         committed := s.committed + |s.taken[i].items|)
    case StepFail(i) =>
      s.(taken := Without(s.taken, i), items := Merged(s.items, s.taken[i].items),
         failed := s.failed + |s.taken[i].items|)
    case StepDelete(h) =>
      // DeleteHash, after the torrent of `h` was stored.
      s.(rows := s.rows - {h}, deleted := s.deleted[h := s.deleted[h] + RowCount(s.rows, h)])
  }

  const START := State(map[], [], map[], 0, multiset{}, multiset{}, 0, 0)

  /** The steps can be taken one after the other from `s`. */
  predicate CanRun(s: State, steps: seq<Step>)
    decreases |steps|
  {
    steps == [] || (Enabled(s, steps[0]) && CanRun(Next(s, steps[0]), steps[1..]))
  }

  function RunFrom(s: State, steps: seq<Step>): State
    requires CanRun(s, steps)
    decreases |steps|
  {
    if steps == [] then s else RunFrom(Next(s, steps[0]), steps[1..])
  }

  function CountOf(h: Hash): Batch -> nat {
    (b: Batch) => CountIn(b.items, h)
  }

  function CountedEntries(b: Batch): nat {
    if b.counted then |b.items| else 0
  }

  /** Every sighting of `h` is in exactly one place. */
  predicate Conserved(s: State, h: Hash) {
    s.sightings[h] == CountIn(s.items, h) + Sum(s.taken, CountOf(h)) + RowCount(s.rows, h) + s.deleted[h]
  }

  /** What has been counted as flushed was inserted, put back, or is on its way. */
  predicate FlushesCounted(s: State) {
    s.totalFlushed == s.committed + s.failed + Sum(s.taken, CountedEntries)
  }

  lemma CountsAddUp(items: Items, rows: map<Hash, nat>, batch: Items, h: Hash)
    ensures CountIn(Merged(items, batch), h) == CountIn(items, h) + CountIn(batch, h)
    ensures RowCount(Upserted(rows, batch), h) == RowCount(rows, h) + CountIn(batch, h)
  {
  }

  lemma NextConserves(s: State, step: Step, h: Hash)
    requires Enabled(s, step) && Conserved(s, h)
    ensures Conserved(Next(s, step), h)
  {
    hide Sum, Without, Merged, Upserted;
    match step
    case StepAdd(_, _) =>
    case StepTake => SumAppend(s.taken, Batch(s.items, false), CountOf(h));
    case StepCount(i) => SumUpdate(s.taken, i, s.taken[i].(counted := true), CountOf(h));
    case StepCommit(i) =>
      SumWithout(s.taken, i, CountOf(h));
      CountsAddUp(s.items, s.rows, s.taken[i].items, h);
    case StepFail(i) =>
      SumWithout(s.taken, i, CountOf(h));
      CountsAddUp(s.items, s.rows, s.taken[i].items, h);
    case StepDelete(_) =>
  }

  lemma NextCounts(s: State, step: Step)
    requires Enabled(s, step) && FlushesCounted(s)
    ensures FlushesCounted(Next(s, step))
  {
    hide Sum, Without, Merged, Upserted;
    match step
    case StepAdd(_, _) =>
    case StepTake => SumAppend(s.taken, Batch(s.items, false), CountedEntries);
    case StepCount(i) => SumUpdate(s.taken, i, s.taken[i].(counted := true), CountedEntries);
    case StepCommit(i) => SumWithout(s.taken, i, CountedEntries);
    case StepFail(i) => SumWithout(s.taken, i, CountedEntries);
    case StepDelete(_) =>
  }

  lemma {:induction false} RunConserves(s: State, steps: seq<Step>, h: Hash)
    requires CanRun(s, steps) && Conserved(s, h) && FlushesCounted(s)
    ensures Conserved(RunFrom(s, steps), h) && FlushesCounted(RunFrom(s, steps))
    decreases |steps|
  {
    hide Next, Conserved, FlushesCounted;
    if steps != [] {
      NextConserves(s, steps[0], h);
      NextCounts(s, steps[0]);
      RunConserves(Next(s, steps[0]), steps[1..], h);
    }
  }

  /** In every interleaving of adds with any number of overlapping flushes, each of
      which commits or fails, the sightings of every hash are its cached count plus its
      counts in unsettled batches plus its stored count plus what DeleteHash dropped.
      When all is flushed, storage has the exact counts.  The flush counter exceeds the
      entries inserted by those put back and those counted but not settled yet. */
  lemma SightingsConserved(steps: seq<Step>, h: Hash)
    requires CanRun(START, steps)
    ensures var s := RunFrom(START, steps);
            && Conserved(s, h)
            && (s.items == map[] && s.taken == [] && s.deleted[h] == 0 ==>
                  RowCount(s.rows, h) == s.sightings[h])
            && s.totalFlushed == s.committed + s.failed + Sum(s.taken, CountedEntries)
  {
    RunConserves(START, steps, h);
  }

  /** From every state some run without sightings and deletions brings all counts to the
      table. */
  lemma {:induction false} CanSettle(s: State) returns (steps: seq<Step>)
    ensures CanRun(s, steps)
    ensures var s' := RunFrom(s, steps);
            s'.items == map[] && s'.taken == [] && s'.sightings == s.sightings && s'.deleted == s.deleted
    decreases |s.items|, |s.taken|, if s.taken != [] && s.taken[0].counted then 0 else 1
  {
    hide Upserted;
    if |s.items| > 0 {
      steps := CanSettleAfter(s, StepTake);
    } else if s.taken == [] {
      steps := [];
    } else {
      steps := CanSettleAfter(s, if s.taken[0].counted then StepCommit(0) else StepCount(0));
    }
  }

  /** Taking, counting and inserting bring a state nearer to being settled. */
  lemma {:induction false} CanSettleAfter(s: State, step: Step) returns (steps: seq<Step>)
    requires Enabled(s, step) && (|s.items| > 0 || s.taken != [])
    requires step == (if |s.items| > 0 then StepTake
                      else if s.taken[0].counted then StepCommit(0) else StepCount(0))
    ensures CanRun(s, steps)
    ensures var s' := RunFrom(s, steps);
            s'.items == map[] && s'.taken == [] && s'.sightings == s.sightings && s'.deleted == s.deleted
    decreases |s.items|, |s.taken|, if s.taken != [] && s.taken[0].counted then 0 else 1, 0
  {
    hide Upserted;
    var rest := CanSettle(Next(s, step));
    steps := [step] + rest;
    assert steps[1..] == rest;
  }

  /** So every reachable state can be followed by one with the exact counts. */
  lemma CountsArrive(before: seq<Step>) returns (steps: seq<Step>)
    requires CanRun(START, before)
    ensures CanRun(RunFrom(START, before), steps)
    ensures var (s, s') := (RunFrom(START, before), RunFrom(RunFrom(START, before), steps));
            s'.sightings == s.sightings && forall h :: RowCount(s'.rows, h) + s.deleted[h] == s.sightings[h]
  {
    var s := RunFrom(START, before);
    steps := CanSettle(s);
    forall h ensures RowCount(RunFrom(s, steps).rows, h) + s.deleted[h] == s.sightings[h] {
      RunConserves(START, before, h);
      RunConserves(s, steps, h);
    }
  }

  /** A failed flush changes no total: what it held is back in the cache. */
  lemma FailedFlushLosesNothing(s: State, i: nat, h: Hash)
    requires Enabled(s, StepFail(i))
    ensures var s' := Next(s, StepFail(i));
            && CountIn(s'.items, h) + Sum(s'.taken, CountOf(h)) == CountIn(s.items, h) + Sum(s.taken, CountOf(h))
            && s'.rows == s.rows && s'.sightings == s.sightings
  {
    SumWithout(s.taken, i, CountOf(h));
  }

  // ---------------------------------------------------------------------
  // First sightings
  // ---------------------------------------------------------------------

  /** When the sightings of one hash were made that are counted in the cache and in each
      unsettled batch. */
  datatype Times = Times(cache: multiset<int>, taken: seq<multiset<int>>)

  /** How a step moves the sightings of `h`. */
  function Moved(t: Times, step: Step, h: Hash): Times {
    match step
    case StepAdd(g, now) => if g == h then t.(cache := t.cache + multiset{now}) else t
    case StepTake => Times(multiset{}, t.taken + [t.cache])
    case StepCommit(i) => if i < |t.taken| then t.(taken := Without(t.taken, i)) else t
    case StepFail(i) =>
      if i < |t.taken| then Times(t.cache + t.taken[i], Without(t.taken, i)) else t
    case _ => t
  }

  /** The entry of `h` counts these sightings and has the time of the earliest. */
  predicate Right(items: Items, h: Hash, times: multiset<int>) {
    && (h in items <==> times != multiset{})
    && (h in items ==>
          && items[h].count == |times|
          && items[h].firstSeen in times
          && forall x | x in times :: items[h].firstSeen <= x)
  }

  predicate AllRight(s: State, h: Hash, t: Times) {
    && Right(s.items, h, t.cache)
    && |s.taken| == |t.taken|
    && forall i | 0 <= i < |s.taken| :: Right(s.taken[i].items, h, t.taken[i])
  }

  /** No sighting is later than `now`. */
  predicate Until(t: Times, now: int) {
    && (forall x | x in t.cache :: x <= now)
    && forall i, x | 0 <= i < |t.taken| && x in t.taken[i] :: x <= now
  }

  /** A batch is put back although the cache has the hash with a later first time. */
  predicate Loses(s: State, step: Step, h: Hash)
    requires Enabled(s, step)
  {
    && step.StepFail?
    && h in s.items && h in s.taken[step.i].items
    && s.taken[step.i].items[h].firstSeen < s.items[h].firstSeen
  }

  function Clock(step: Step, now: int): int {
    if step.StepAdd? then step.now else now
  }

  predicate ClockNeverRunsBack(steps: seq<Step>, now: int) {
    steps == [] || (now <= Clock(steps[0], now) && ClockNeverRunsBack(steps[1..], Clock(steps[0], now)))
  }

  lemma MovedUntil(t: Times, step: Step, h: Hash, now: int)
    requires Until(t, now) && now <= Clock(step, now)
    ensures Until(Moved(t, step, h), Clock(step, now))
  {
  }

  lemma MergedRightIff(items: Items, batch: Items, h: Hash, times: multiset<int>, times': multiset<int>)
    requires Right(items, h, times) && Right(batch, h, times')
    ensures Right(Merged(items, batch), h, times + times')
       <==> !(h in items && h in batch && batch[h].firstSeen < items[h].firstSeen)
  {
    var merged := Merged(items, batch);
    if h in items && h in batch {
      assert merged[h] == CacheItem(items[h].count + batch[h].count, items[h].firstSeen);
      assert items[h].firstSeen in times + times' && batch[h].firstSeen in times + times';
    } else {
      assert times + times' == if h in items then times else times';
      assert h in items ==> merged[h] == items[h];
    }
  }

  lemma OthersRight(s: State, h: Hash, t: Times, i: nat)
    requires AllRight(s, h, t) && i < |s.taken|
    ensures |Without(s.taken, i)| == |Without(t.taken, i)|
    ensures forall j | 0 <= j < |s.taken| - 1 :: Right(Without(s.taken, i)[j].items, h, Without(t.taken, i)[j])
  {
    hide Right, Without;
    forall j | 0 <= j < |s.taken| - 1
      ensures Right(Without(s.taken, i)[j].items, h, Without(t.taken, i)[j])
    {
      WithoutElement(s.taken, i, j);
      WithoutElement(t.taken, i, j);
    }
  }

  lemma AddRight(items: Items, h: Hash, times: multiset<int>, now: int)
    requires Right(items, h, times) && forall x | x in times :: x <= now
    ensures Right(Sighted(items, h, now), h, times + multiset{now})
  {
  }

  lemma StepAddRight(s: State, g: Hash, time: int, h: Hash, t: Times)
    requires AllRight(s, h, t) && Until(t, time)
    ensures AllRight(Next(s, StepAdd(g, time)), h, Moved(t, StepAdd(g, time), h))
  {
    if g == h {
      AddRight(s.items, h, t.cache, time);
      hide Right, Sighted;
    }
  }

  lemma StepTakeRight(s: State, h: Hash, t: Times)
    requires AllRight(s, h, t) && |s.items| > 0
    ensures AllRight(Next(s, StepTake), h, Moved(t, StepTake, h))
  {
    assert Right(map[], h, multiset{});
    hide Right;
  }

  lemma StepFailRightIff(s: State, i: nat, h: Hash, t: Times)
    requires AllRight(s, h, t) && Enabled(s, StepFail(i))
    ensures AllRight(Next(s, StepFail(i)), h, Moved(t, StepFail(i), h)) <==> !Loses(s, StepFail(i), h)
  {
    hide Right, Merged, Without;
    MergedRightIff(s.items, s.taken[i].items, h, t.cache, t.taken[i]);
    OthersRight(s, h, t, i);
  }

  /** While all times are right, one step keeps them so unless it is a losing one. */
  lemma StepRightIff(s: State, step: Step, h: Hash, t: Times, now: int)
    requires Enabled(s, step) && AllRight(s, h, t) && Until(t, now) && now <= Clock(step, now)
    ensures AllRight(Next(s, step), h, Moved(t, step, h)) <==> !Loses(s, step, h)
  {
    hide Without, Right, Merged, Sighted, Upserted;
    match step
    case StepAdd(g, time) => StepAddRight(s, g, time, h, t);
    case StepTake => StepTakeRight(s, h, t);
    case StepCount(_) =>
    case StepCommit(i) => OthersRight(s, h, t, i);
    case StepFail(i) => StepFailRightIff(s, i, h, t);
    case StepDelete(_) =>
  }

  /** All times of `h` are right at every moment of the run. */
  predicate AlwaysRight(s: State, steps: seq<Step>, h: Hash, t: Times)
    requires CanRun(s, steps)
    decreases |steps|
  {
    && AllRight(s, h, t)
    && (steps != [] ==> AlwaysRight(Next(s, steps[0]), steps[1..], h, Moved(t, steps[0], h)))
  }

  predicate NeverLoses(s: State, steps: seq<Step>, h: Hash)
    requires CanRun(s, steps)
    decreases |steps|
  {
    steps != [] ==> !Loses(s, steps[0], h) && NeverLoses(Next(s, steps[0]), steps[1..], h)
  }

  lemma {:induction false} RunRightIff(s: State, steps: seq<Step>, h: Hash, t: Times, now: int)
    requires CanRun(s, steps) && ClockNeverRunsBack(steps, now) && AllRight(s, h, t) && Until(t, now)
    ensures AlwaysRight(s, steps, h, t) <==> NeverLoses(s, steps, h)
    decreases |steps|
  {
    hide Next, Enabled, AllRight, Moved, Loses, Until;
    if steps != [] {
      var s', t' := Next(s, steps[0]), Moved(t, steps[0], h);
      StepRightIff(s, steps[0], h, t, now);
      MovedUntil(t, steps[0], h, now);
      if !Loses(s, steps[0], h) {
        RunRightIff(s', steps[1..], h, t', Clock(steps[0], now));
      }
    }
  }

  /** With a clock that never runs back, the recorded first time of a hash is, in the cache
      and in every unsettled batch and at every moment of a run, that of the earliest
      sighting counted there, if and only if no failed batch is put back over a later
      cached first time. */
  lemma FirstSeenKept(steps: seq<Step>, h: Hash, now: int)
    requires CanRun(START, steps) && ClockNeverRunsBack(steps, now)
    ensures AlwaysRight(START, steps, h, Times(multiset{}, [])) <==> NeverLoses(START, steps, h)
  {
    RunRightIff(START, steps, h, Times(multiset{}, []), now);
  }

  /** It can be lost: sighted at 1, taken, sighted again at 5, put back. */
  lemma FirstSeenLost(h: Hash)
    ensures var steps := [StepAdd(h, 1), StepTake, StepAdd(h, 5), StepCount(0), StepFail(0)];
            && CanRun(START, steps)
            && RunFrom(START, steps).items == map[h := CacheItem(2, 5)]
  {
    var s1 := Next(START, StepAdd(h, 1));
    assert h in s1.items;
    var s2 := Next(s1, StepTake);
    var s3 := Next(s2, StepAdd(h, 5));
    var s4 := Next(s3, StepCount(0));
    var s5 := Next(s4, StepFail(0));
    assert s5.items == map[h := CacheItem(2, 5)];
    assert RunFrom(s4, [StepFail(0)]) == s5;
    assert RunFrom(s3, [StepCount(0), StepFail(0)]) == s5;
    assert RunFrom(s2, [StepAdd(h, 5), StepCount(0), StepFail(0)]) == s5;
    assert RunFrom(s1, [StepTake, StepAdd(h, 5), StepCount(0), StepFail(0)]) == s5;
  }
}
