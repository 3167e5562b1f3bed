/** Safety of the crawl pipeline in every interleaving: the in-flight marks are
    ownership tokens, and so no stored torrent is ever overwritten. */
module PipelineSafety {
  import opened Bytes
  import opened Bags
  import opened DownloadQueue
  import opened Pipeline

  // ---------------------------------------------------------------------
  // Who holds a hash
  // ---------------------------------------------------------------------

  function OfItem(item: Item): multiset<Hash> { multiset{item.infoHash} }

  function OfAdder(a: Adder): multiset<Hash> {
    if a.Idle? then multiset{} else OfItem(a.item)
  }

  function OfFeeder(f: Feeder): multiset<Hash> {
    if f.Polling? || f.Gone? then multiset{} else OfItem(f.item)
  }

  function OfWorker(w: Worker): multiset<Hash> {
    if w.hand.Holding? then OfItem(w.hand.item) else multiset{}
  }

  function OfJob(j: Job): multiset<Hash> {
    if j.stage == Released then multiset{} else OfItem(j.item)
  }

  /** Every hash held by an adder between mark and enqueue, in the queue, by the feeder,
      in the jobs channel, by a waiting worker or by a job, once for each holder. */
  function Holders(s: State): multiset<Hash> {
    Bag(s.adders, OfAdder) + Bag(s.q.items, OfItem) + OfFeeder(s.feeder)
    + Bag(s.jobs, OfItem) + Bag(s.workers, OfWorker) + Bag(s.running, OfJob)
  }

  /** The hash a step lets go of without removing its mark: the feeder or a worker returns
      with an item in hand. */
  function Abandons(s: State, step: Step): multiset<Hash> {
    match step
    case FeederQuit => OfFeeder(s.feeder)
    case WorkerQuit(w) => if w < |s.workers| then OfWorker(s.workers[w]) else multiset{}
    case _ => multiset{}
  }

  /** What the steps from `s` abandon. */
  function AbandonedIn(c: Config, s: State, steps: seq<Step>): multiset<Hash>
    requires CanRun(c, s, steps)
    decreases |steps|
  {
    if steps == [] then multiset{}
    else Abandons(s, steps[0]) + AbandonedIn(c, Next(c, s, steps[0]), steps[1..])
  }

  /** The marks are the holders and the abandoned hashes `left`, each once. */
  predicate Owned(s: State, left: multiset<Hash>) {
    multiset(s.q.inFlight) == Holders(s) + left
  }

  function ClearedFeeder(f: Feeder): multiset<Hash> {
    if f.Ready? then OfItem(f.item) else multiset{}
  }

  function ClearedJob(j: Job): multiset<Hash> {
    if j.stage == Spawned || j.stage == Downloading then OfItem(j.item) else multiset{}
  }

  /** The hashes found absent from storage whose job has not inserted yet. */
  function Cleared(s: State): multiset<Hash> {
    ClearedFeeder(s.feeder) + Bag(s.jobs, OfItem) + Bag(s.workers, OfWorker) + Bag(s.running, ClearedJob)
  }

  predicate ClearedAbsent(s: State) {
    forall h | h in Cleared(s) :: h !in s.torrents
  }

  // ---------------------------------------------------------------------
  // How a step changes the holders
  // ---------------------------------------------------------------------

  /** A new mark comes with a new holder. */
  ghost predicate Acquires(s: State, s': State, h: Hash) {
    && h !in s.q.inFlight
    && s'.q.inFlight == s.q.inFlight + {h}
    && Holders(s') == Holders(s) + multiset{h}
  }

  /** A mark goes together with its holder. */
  ghost predicate Releases(s: State, s': State, h: Hash) {
    && h in Holders(s)
    && s'.q.inFlight == s.q.inFlight - {h}
    && Holders(s') == Holders(s) - multiset{h}
  }

  /** Marks and holders change together, or a holder merely changes its place or leaves
      `gone` behind. */
  ghost predicate HandsOver(s: State, s': State, gone: multiset<Hash>) {
    || (gone == multiset{} && exists h :: Acquires(s, s', h))
    || (gone == multiset{} && exists h :: Releases(s, s', h))
    || (s'.q.inFlight == s.q.inFlight && Holders(s) == Holders(s') + gone)
  }

  lemma HandOverKeepsOwned(s: State, s': State, left: multiset<Hash>, gone: multiset<Hash>)
    requires Owned(s, left) && HandsOver(s, s', gone)
    ensures Owned(s', left + gone)
  {
    hide Acquires, Releases, Holders;
    if h :| gone == multiset{} && Acquires(s, s', h) {
      AcquiringKeepsOwned(s, s', left, h);
    } else if h :| gone == multiset{} && Releases(s, s', h) {
      ReleasingKeepsOwned(s, s', left, h);
    } else {
      assert Holders(s) + left == Holders(s') + (left + gone);
    }
  }

  lemma AcquiringKeepsOwned(s: State, s': State, left: multiset<Hash>, h: Hash)
    requires Owned(s, left) && Acquires(s, s', h)
    ensures Owned(s', left)
  {
    hide Holders;
    assert multiset(s'.q.inFlight) == multiset(s.q.inFlight) + multiset{h};
  }

  lemma ReleasingKeepsOwned(s: State, s': State, left: multiset<Hash>, h: Hash)
    requires Owned(s, left) && Releases(s, s', h)
    ensures Owned(s', left)
  {
    hide Holders;
    assert multiset(s'.q.inFlight) == multiset(s.q.inFlight) - multiset{h};
  }

  lemma SearchStartHandsOver(c: Config, s: State)
    requires Enabled(c, s, SearchStart)
    ensures HandsOver(s, Next(c, s, SearchStart), multiset{})
  {
    hide Bag;
    BagAppend(s.adders, Idle, OfAdder);
    assert OfAdder(Idle) == multiset{};
  }

  lemma SearchEndHandsOver(c: Config, s: State, a: nat)
    requires Enabled(c, s, SearchEnd(a))
    ensures HandsOver(s, Next(c, s, SearchEnd(a)), multiset{})
  {
    hide Bag;
    BagWithout(s.adders, a, OfAdder);
    assert OfAdder(s.adders[a]) == multiset{};
  }

  lemma AddMarkHandsOver(c: Config, s: State, a: nat, item: Item)
    requires Enabled(c, s, AddMark(a, item))
    ensures HandsOver(s, Next(c, s, AddMark(a, item)), multiset{})
  {
    hide Bag;
    var s' := Next(c, s, AddMark(a, item));
    BagUpdate(s.adders, a, Marked(item), OfAdder);
    assert OfAdder(s.adders[a]) == multiset{};
    if item.infoHash !in s.q.inFlight {
      assert Acquires(s, s', item.infoHash);
    }
  }

  lemma Moves<T>(from: multiset<T>, to: multiset<T>, part: multiset<T>)
    requires part <= from
    ensures from - part + multiset{} + (to + part) == from + to
  {
  }

  lemma AddCheckHandsOver(c: Config, s: State, a: nat)
    requires Enabled(c, s, AddCheck(a))
    ensures HandsOver(s, Next(c, s, AddCheck(a)), multiset{})
  {
    hide Holders, Acquires, Releases;
    var s', item := Next(c, s, AddCheck(a)), s.adders[a].item;
    if |s.q.items| >= c.QueueSize() {
      RefusalHolds(s, s', a, item);
    } else {
      EnqueueHolds(s, s', a, item);
    }
  }

  lemma RefusalHolds(s: State, s': State, a: nat, item: Item)
    requires a < |s.adders| && s.adders[a] == Marked(item)
    requires s' == s.(adders := s.adders[a := Refused(item)])
    ensures Holders(s') == Holders(s)
  {
    hide Bag;
    assert OfAdder(s.adders[a]) == OfItem(item) == OfAdder(Refused(item));
    BagUpdate(s.adders, a, Refused(item), OfAdder);
    assert Bag(s'.adders, OfAdder) == Bag(s.adders, OfAdder);
  }

  lemma EnqueueHolds(s: State, s': State, a: nat, item: Item)
    requires a < |s.adders| && s.adders[a] == Marked(item)
    requires s' == s.(q := s.q.Push(item), adders := s.adders[a := Idle])
    ensures Holders(s') == Holders(s)
  {
    hide Bag;
    assert OfAdder(s.adders[a]) == OfItem(item) && OfAdder(Idle) == multiset{};
    BagUpdate(s.adders, a, Idle, OfAdder);
    BagAppend(s.q.items, item, OfItem);
    Moves(Bag(s.adders, OfAdder), Bag(s.q.items, OfItem), OfItem(item));
  }

  lemma AddUnmarkHandsOver(c: Config, s: State, a: nat)
    requires Enabled(c, s, AddUnmark(a))
    ensures HandsOver(s, Next(c, s, AddUnmark(a)), multiset{})
  {
    hide Bag;
    var item := s.adders[a].item;
    BagUpdate(s.adders, a, Idle, OfAdder);
    BagMember(s.adders, a, OfAdder);
    assert OfAdder(s.adders[a]) == multiset{item.infoHash} && OfAdder(Idle) == multiset{};
    assert item.infoHash in OfAdder(s.adders[a]);
    assert Releases(s, Next(c, s, AddUnmark(a)), item.infoHash);
  }

  lemma FeederGetHandsOver(c: Config, s: State)
    requires Enabled(c, s, FeederGet)
    ensures HandsOver(s, Next(c, s, FeederGet), multiset{})
  {
    hide Bag, Acquires, Releases, OfItem;
    BagHead(s.q.items, OfItem);
    assert OfFeeder(s.feeder) == multiset{};
  }

  lemma FeederDropHandsOver(c: Config, s: State)
    requires Enabled(c, s, FeederDrop)
    ensures HandsOver(s, Next(c, s, FeederDrop), multiset{})
  {
    hide Holders, Acquires;
    FeederHeld(s, Next(c, s, FeederDrop));
    assert Releases(s, Next(c, s, FeederDrop), s.feeder.item.infoHash);
  }

  lemma FeederSendHandsOver(c: Config, s: State)
    requires Enabled(c, s, FeederSend)
    ensures HandsOver(s, Next(c, s, FeederSend), multiset{})
  {
    hide Bag, Acquires, Releases, OfItem;
    var s' := Next(c, s, FeederSend);
    BagAppend(s.jobs, s.feeder.item, OfItem);
    var rest := Bag(s.adders, OfAdder) + Bag(s.q.items, OfItem);
    var hands := Bag(s.workers, OfWorker) + Bag(s.running, OfJob);
    assert Holders(s) == rest + (OfItem(s.feeder.item) + Bag(s.jobs, OfItem)) + hands;
    assert Holders(s') == rest + (Bag(s.jobs, OfItem) + OfItem(s.feeder.item)) + hands;
  }

  lemma FeederHandOverHandsOver(c: Config, s: State, w: nat)
    requires Enabled(c, s, FeederHandOver(w))
    ensures HandsOver(s, Next(c, s, FeederHandOver(w)), multiset{})
  {
    hide Bag, Acquires, Releases;
    HandTakes(s.workers, w, s.feeder.item);
  }

  /** An item comes into the hand of a waiting worker. */
  lemma HandTakes(workers: seq<Worker>, w: nat, item: Item)
    requires w < |workers| && workers[w].hand.Receiving?
    ensures Bag(workers[w := workers[w].(hand := Holding(item))], OfWorker) == Bag(workers, OfWorker) + OfItem(item)
  {
    hide Bag;
    var worker := workers[w].(hand := Holding(item));
    BagUpdate(workers, w, worker, OfWorker);
    assert OfWorker(workers[w]) == multiset{} && OfWorker(worker) == OfItem(item);
  }

  lemma WorkerReceiveHandsOver(c: Config, s: State, w: nat)
    requires Enabled(c, s, WorkerReceive(w))
    ensures HandsOver(s, Next(c, s, WorkerReceive(w)), multiset{})
  {
    hide Bag, Acquires, Releases, OfItem;
    var s' := Next(c, s, WorkerReceive(w));
    ChannelToHand(s, s', w);
    var rest := Bag(s.adders, OfAdder) + Bag(s.q.items, OfItem) + OfFeeder(s.feeder);
    assert Holders(s) == rest + (Bag(s.jobs, OfItem) + Bag(s.workers, OfWorker)) + Bag(s.running, OfJob);
    assert Holders(s') == rest + (Bag(s'.jobs, OfItem) + Bag(s'.workers, OfWorker)) + Bag(s.running, OfJob);
  }

  lemma ChannelToHand(s: State, s': State, w: nat)
    requires w < |s.workers| && s.workers[w].hand.Receiving? && s.jobs != []
    requires s'.workers == s.workers[w := s.workers[w].(hand := Holding(s.jobs[0]))] && s'.jobs == s.jobs[1..]
    ensures Bag(s'.jobs, OfItem) + Bag(s'.workers, OfWorker) == Bag(s.jobs, OfItem) + Bag(s.workers, OfWorker)
  {
    hide Bag, OfItem;
    BagHead(s.jobs, OfItem);
    HandTakes(s.workers, w, s.jobs[0]);
  }

  lemma WorkerSpawnHandsOver(c: Config, s: State, w: nat)
    requires Enabled(c, s, WorkerSpawn(w))
    ensures HandsOver(s, Next(c, s, WorkerSpawn(w)), multiset{})
  {
    hide Bag, Acquires, Releases, OfItem;
    var s' := Next(c, s, WorkerSpawn(w));
    var job := Job(w, s.workers[w].hand.item, Spawned);
    HandEmpties(s.workers, w, Worker(Receiving, s.workers[w].sem + 1));
    BagAppend(s.running, job, OfJob);
    var rest := Bag(s.adders, OfAdder) + Bag(s.q.items, OfItem) + OfFeeder(s.feeder) + Bag(s.jobs, OfItem);
    assert Holders(s') == rest + Bag(s'.workers, OfWorker) + (Bag(s.running, OfJob) + OfJob(job));
    assert Holders(s) == rest + (Bag(s'.workers, OfWorker) + OfJob(job)) + Bag(s.running, OfJob);
  }

  /** The hand of a worker becomes empty. */
  lemma HandEmpties(workers: seq<Worker>, w: nat, worker: Worker)
    requires w < |workers| && !worker.hand.Holding?
    ensures Bag(workers, OfWorker) == Bag(workers[w := worker], OfWorker) + OfWorker(workers[w])
  {
    hide Bag;
    BagUpdate(workers, w, worker, OfWorker);
    assert OfWorker(worker) == multiset{};
  }

  lemma WorkerQuitHandsOver(c: Config, s: State, w: nat)
    requires Enabled(c, s, WorkerQuit(w))
    ensures HandsOver(s, Next(c, s, WorkerQuit(w)), OfWorker(s.workers[w]))
  {
    hide Bag, Acquires, Releases, OfItem;
    HandEmpties(s.workers, w, s.workers[w].(hand := Stopped));
  }

  lemma JobReleaseHandsOver(c: Config, s: State, j: nat)
    requires Enabled(c, s, JobRelease(j))
    ensures HandsOver(s, Next(c, s, JobRelease(j)), multiset{})
  {
    hide Bag;
    var w := s.running[j].worker;
    var worker := s.workers[w].(sem := s.workers[w].sem - 1);
    BagUpdate(s.workers, w, worker, OfWorker);
    BagWithout(s.running, j, OfJob);
    assert OfWorker(worker) == OfWorker(s.workers[w]) && OfJob(s.running[j]) == multiset{};
  }

  /** The stage a job step moves to. */
  function Target(step: Step): Stage {
    match step
    case JobStart(_) => Downloading
    case JobInsert(_, _) => Inserted
    case JobDeleteHash(_) => Unlisted
    case JobLeave(_) => Leaving
    case JobComplete(_) => Released
    case _ => Settled
  }

  predicate MovesJob(step: Step) {
    || step.JobStart? || step.JobFail? || step.JobInsert? || step.JobDeleteHash?
    || step.JobSucceed? || step.JobLeave? || step.JobComplete? || step.JobAbort?
  }

  /** A job step changes the stage of one job, and neither workers, channel, feeder
      nor adders. */
  lemma JobStepShape(c: Config, s: State, step: Step)
    requires Enabled(c, s, step) && MovesJob(step)
    ensures var s' := Next(c, s, step);
            && step.j < |s.running|
            && s'.running == s.running[step.j := s.running[step.j].(stage := Target(step))]
            && s'.adders == s.adders && s'.q.items == s.q.items && s'.feeder == s.feeder
            && s'.jobs == s.jobs && s'.workers == s.workers && s'.cancelled == s.cancelled
            && s'.freeTokens == s.freeTokens && s'.spawned == s.spawned && s'.rowsAtStart == s.rowsAtStart
            && s.running[step.j].stage != Released
            && s'.q.inFlight == (if step.JobComplete? then s.q.inFlight - {s.running[step.j].item.infoHash}
                                 else s.q.inFlight)
  {
  }

  lemma JobHandsOver(c: Config, s: State, step: Step)
    requires Enabled(c, s, step) && MovesJob(step)
    ensures HandsOver(s, Next(c, s, step), multiset{})
  {
    hide Holders, Next, Enabled, Acquires;
    JobStepShape(c, s, step);
    var job := s.running[step.j];
    JobHeld(s, Next(c, s, step), step.j, job.(stage := Target(step)));
    if step.JobComplete? {
      assert Releases(s, Next(c, s, step), job.item.infoHash);
    }
  }

  /** A job that changes its stage holds its hash until it is released. */
  lemma JobHeld(s: State, s': State, j: nat, moved: Job)
    requires j < |s.running| && s'.running == s.running[j := moved]
    requires s'.adders == s.adders && s'.q.items == s.q.items && s'.feeder == s.feeder
          && s'.jobs == s.jobs && s'.workers == s.workers
    requires moved.item == s.running[j].item && s.running[j].stage != Released
    ensures moved.item.infoHash in Holders(s)
    ensures Holders(s') ==
            if moved.stage == Released then Holders(s) - multiset{moved.item.infoHash} else Holders(s)
  {
    hide Bag;
    BagUpdate(s.running, j, moved, OfJob);
    var hash := multiset{moved.item.infoHash};
    assert moved.item.infoHash in hash && OfJob(s.running[j]) == hash;
    var rest := Bag(s.adders, OfAdder) + Bag(s.q.items, OfItem) + OfFeeder(s.feeder)
                + Bag(s.jobs, OfItem) + Bag(s.workers, OfWorker);
    assert Holders(s) == rest + Bag(s.running, OfJob);
    assert Holders(s') == rest + (Bag(s.running, OfJob) - hash + OfJob(moved));
  }

  lemma StepHandsOver(c: Config, s: State, step: Step)
    requires Enabled(c, s, step)
    ensures HandsOver(s, Next(c, s, step), Abandons(s, step))
  {
    hide HandsOver, Next, OfFeeder, OfWorker;
    if MovesJob(step) {
      JobHandsOver(c, s, step);
    } else {
      match step
      case SearchStart => SearchStartHandsOver(c, s);
      case SearchEnd(a) => SearchEndHandsOver(c, s, a);
      case AddMark(a, item) => AddMarkHandsOver(c, s, a, item);
      case AddCheck(a) => AddCheckHandsOver(c, s, a);
      case AddUnmark(a) => AddUnmarkHandsOver(c, s, a);
      case FeederGet => FeederGetHandsOver(c, s);
      case FeederDrop => FeederDropHandsOver(c, s);
      case FeederSend => FeederSendHandsOver(c, s);
      case FeederHandOver(w) => FeederHandOverHandsOver(c, s, w);
      case FeederQuit => FeederQuitHandsOver(c, s);
      case WorkerReceive(w) => WorkerReceiveHandsOver(c, s, w);
      case WorkerSpawn(w) => WorkerSpawnHandsOver(c, s, w);
      case WorkerQuit(w) => WorkerQuitHandsOver(c, s, w);
      case JobRelease(j) => JobReleaseHandsOver(c, s, j);
      case FeederCheck(dbError) => FeederCheckHandsOver(c, s, dbError);
      case Cancel => CancelHandsOver(c, s);
    }
  }

  lemma FeederCheckHandsOver(c: Config, s: State, dbError: bool)
    requires Enabled(c, s, FeederCheck(dbError))
    ensures HandsOver(s, Next(c, s, FeederCheck(dbError)), multiset{})
  {
    hide Holders, Acquires, Releases;
    FeederHeld(s, Next(c, s, FeederCheck(dbError)));
  }

  lemma CancelHandsOver(c: Config, s: State)
    ensures HandsOver(s, Next(c, s, Cancel), multiset{})
  {
    hide Acquires, Releases;
  }

  lemma FeederQuitHandsOver(c: Config, s: State)
    requires Enabled(c, s, FeederQuit)
    ensures HandsOver(s, Next(c, s, FeederQuit), OfFeeder(s.feeder))
  {
    hide Holders, Acquires, Releases;
    FeederHeld(s, Next(c, s, FeederQuit));
  }

  lemma FeederHeld(s: State, s': State)
    requires s'.adders == s.adders && s'.q.items == s.q.items && s'.jobs == s.jobs
          && s'.workers == s.workers && s'.running == s.running
    requires OfFeeder(s'.feeder) <= OfFeeder(s.feeder)
    ensures Holders(s) == Holders(s') + (OfFeeder(s.feeder) - OfFeeder(s'.feeder))
    ensures OfFeeder(s'.feeder) == multiset{} ==> Holders(s) == Holders(s') + OfFeeder(s.feeder)
  {
    hide Bag;
  }

  // ---------------------------------------------------------------------
  // Rows
  // ---------------------------------------------------------------------

  ghost predicate Clears(s: State, s': State, h: Hash) {
    h !in s.torrents && s'.torrents == s.torrents && Cleared(s') == Cleared(s) + multiset{h}
  }

  ghost predicate Stores(s: State, s': State, h: Hash) {
    && h in Cleared(s)
    && h in s'.torrents && s'.torrents == s.torrents[h := s'.torrents[h]]
    && Cleared(s') == Cleared(s) - multiset{h}
  }

  /** A step clears one hash that is absent, stores a row for one cleared hash, or
      touches no row and clears nothing new. */
  ghost predicate TreatsRows(s: State, s': State) {
    || (exists h :: Clears(s, s', h))
    || (exists h :: Stores(s, s', h))
    || (s'.torrents == s.torrents && Cleared(s') <= Cleared(s))
  }

  lemma RowsTreated(s: State, s': State, h: Hash)
    requires Clears(s, s', h) || Stores(s, s', h) || (s'.torrents == s.torrents && Cleared(s') <= Cleared(s))
    ensures TreatsRows(s, s')
  {
  }

  lemma ClearedIsHeld(s: State)
    ensures Cleared(s) <= Holders(s)
  {
    hide Bag;
    BagSubset(s.running, ClearedJob, OfJob);
    var f, g := ClearedFeeder(s.feeder), OfFeeder(s.feeder);
    assert f <= g;
    var rest := Bag(s.jobs, OfItem) + Bag(s.workers, OfWorker);
    assert Cleared(s) == f + rest + Bag(s.running, ClearedJob);
    assert Holders(s) == Bag(s.adders, OfAdder) + Bag(s.q.items, OfItem) + (g + rest + Bag(s.running, OfJob));
  }

  /** No stored row changes or disappears. */
  predicate RowsKept(s: State, s': State) {
    forall h | h in s.torrents :: h in s'.torrents && s'.torrents[h] == s.torrents[h]
  }

  lemma TreatmentKeepsRows(s: State, s': State, left: multiset<Hash>)
    requires Owned(s, left) && ClearedAbsent(s) && TreatsRows(s, s')
    ensures RowsKept(s, s') && ClearedAbsent(s')
    ensures |s'.torrents| == |s.torrents| + (if s'.torrents == s.torrents then 0 else 1)
  {
    hide Cleared, Holders;
    ClearedIsHeld(s);
    if h :| Stores(s, s', h) {
      assert Holders(s)[h] <= multiset(s.q.inFlight)[h] <= 1;
      assert Cleared(s)[h] == 1;
      assert s'.torrents.Keys == s.torrents.Keys + {h};
    } else if h :| Clears(s, s', h) {
    }
  }

  lemma FeederCheckTreatsRows(c: Config, s: State, dbError: bool)
    requires Enabled(c, s, FeederCheck(dbError))
    ensures TreatsRows(s, Next(c, s, FeederCheck(dbError)))
  {
    hide Stores, Cleared;
    var s' := Next(c, s, FeederCheck(dbError));
    if s'.feeder.Ready? {
      ReadyCleared(s, s');
      assert Clears(s, s', s.feeder.item.infoHash);
    } else {
      SameCleared(s, s');
    }
  }

  lemma ReadyCleared(s: State, s': State)
    requires s'.jobs == s.jobs && s'.workers == s.workers && s'.running == s.running
    requires s.feeder.Took? && s'.feeder == Ready(s.feeder.item)
    ensures Cleared(s') == Cleared(s) + multiset{s.feeder.item.infoHash}
  {
    hide Bag;
  }

  lemma FeederSendTreatsRows(c: Config, s: State)
    requires Enabled(c, s, FeederSend)
    ensures TreatsRows(s, Next(c, s, FeederSend))
  {
    hide Bag;
    BagAppend(s.jobs, s.feeder.item, OfItem);
  }

  lemma FeederHandOverTreatsRows(c: Config, s: State, w: nat)
    requires Enabled(c, s, FeederHandOver(w))
    ensures TreatsRows(s, Next(c, s, FeederHandOver(w)))
  {
    hide Bag, Clears, Stores;
    HandTakes(s.workers, w, s.feeder.item);
  }

  lemma WorkerReceiveTreatsRows(c: Config, s: State, w: nat)
    requires Enabled(c, s, WorkerReceive(w))
    ensures TreatsRows(s, Next(c, s, WorkerReceive(w)))
  {
    hide Bag, Clears, Stores, OfItem;
    var s' := Next(c, s, WorkerReceive(w));
    ChannelToHand(s, s', w);
    var rest := ClearedFeeder(s.feeder);
    assert Cleared(s) == rest + (Bag(s.jobs, OfItem) + Bag(s.workers, OfWorker)) + Bag(s.running, ClearedJob);
    assert Cleared(s') == rest + (Bag(s'.jobs, OfItem) + Bag(s'.workers, OfWorker)) + Bag(s.running, ClearedJob);
  }

  lemma WorkerSpawnTreatsRows(c: Config, s: State, w: nat)
    requires Enabled(c, s, WorkerSpawn(w))
    ensures TreatsRows(s, Next(c, s, WorkerSpawn(w)))
  {
    hide Bag, Clears, Stores, OfItem;
    var job := Job(w, s.workers[w].hand.item, Spawned);
    HandEmpties(s.workers, w, Worker(Receiving, s.workers[w].sem + 1));
    BagAppend(s.running, job, ClearedJob);
    assert OfWorker(s.workers[w]) == ClearedJob(job);
  }

  lemma WorkerQuitTreatsRows(c: Config, s: State, w: nat)
    requires Enabled(c, s, WorkerQuit(w))
    ensures TreatsRows(s, Next(c, s, WorkerQuit(w)))
  {
    hide Bag, Clears, Stores, OfItem;
    HandEmpties(s.workers, w, s.workers[w].(hand := Stopped));
  }

  lemma JobReleaseTreatsRows(c: Config, s: State, j: nat)
    requires Enabled(c, s, JobRelease(j))
    ensures TreatsRows(s, Next(c, s, JobRelease(j)))
  {
    hide Bag;
    var w := s.running[j].worker;
    var worker := s.workers[w].(sem := s.workers[w].sem - 1);
    BagUpdate(s.workers, w, worker, OfWorker);
    BagWithout(s.running, j, ClearedJob);
    assert OfWorker(worker) == OfWorker(s.workers[w]) && ClearedJob(s.running[j]) == multiset{};
  }

  /** What the job steps do to rows and counters. */
  lemma JobStepRows(c: Config, s: State, step: Step)
    requires Enabled(c, s, step) && MovesJob(step)
    ensures var s' := Next(c, s, step);
            var h := s.running[step.j].item.infoHash;
            && s'.torrents == (if step.JobInsert? then s.torrents[h := step.record] else s.torrents)
            && (s.running[step.j].stage == Spawned <==> step.JobStart?)
            && (s.running[step.j].stage == Downloading <==>
                  step.JobFail? || step.JobInsert? || step.JobAbort?)
  {
  }

  lemma JobTreatsRows(c: Config, s: State, step: Step)
    requires Enabled(c, s, step) && MovesJob(step)
    ensures TreatsRows(s, Next(c, s, step))
  {
    hide Cleared, Next, Enabled, Clears, TreatsRows;
    JobStepShape(c, s, step);
    JobStepRows(c, s, step);
    var job := s.running[step.j];
    JobMoved(s, Next(c, s, step), step.j, job.(stage := Target(step)));
    if step.JobInsert? {
      assert Stores(s, Next(c, s, step), job.item.infoHash);
    }
    RowsTreated(s, Next(c, s, step), job.item.infoHash);
  }

  /** A job that changes its stage takes its own contribution along. */
  lemma JobMoved(s: State, s': State, j: nat, moved: Job)
    requires j < |s.running| && s'.running == s.running[j := moved]
    requires s'.feeder == s.feeder && s'.jobs == s.jobs && s'.workers == s.workers
    requires moved.item == s.running[j].item
    requires ClearedJob(moved) != multiset{} ==> ClearedJob(s.running[j]) != multiset{}
    ensures ClearedJob(moved) == ClearedJob(s.running[j]) ==> Cleared(s') == Cleared(s)
    ensures ClearedJob(moved) == multiset{} ==> Cleared(s') <= Cleared(s)
    ensures ClearedJob(moved) == multiset{} && ClearedJob(s.running[j]) != multiset{} ==>
              moved.item.infoHash in Cleared(s) && Cleared(s') == Cleared(s) - multiset{moved.item.infoHash}
  {
    hide Bag;
    BagUpdate(s.running, j, moved, ClearedJob);
    BagMember(s.running, j, ClearedJob);
    var before, after := ClearedJob(s.running[j]), ClearedJob(moved);
    var rest := ClearedFeeder(s.feeder) + Bag(s.jobs, OfItem) + Bag(s.workers, OfWorker);
    assert Cleared(s) == rest + Bag(s.running, ClearedJob);
    assert Cleared(s') == rest + (Bag(s.running, ClearedJob) - before + after);
    if before != multiset{} {
      assert before == multiset{moved.item.infoHash};
      assert moved.item.infoHash in before;
    }
  }

  lemma StepTreatsRows(c: Config, s: State, step: Step)
    requires Enabled(c, s, step)
    ensures TreatsRows(s, Next(c, s, step))
  {
    hide TreatsRows, Next, Enabled;
    if MovesJob(step) {
      JobTreatsRows(c, s, step);
    } else {
      match step
      case FeederCheck(dbError) => FeederCheckTreatsRows(c, s, dbError);
      case FeederSend => FeederSendTreatsRows(c, s);
      case FeederHandOver(w) => FeederHandOverTreatsRows(c, s, w);
      case WorkerReceive(w) => WorkerReceiveTreatsRows(c, s, w);
      case WorkerSpawn(w) => WorkerSpawnTreatsRows(c, s, w);
      case WorkerQuit(w) => WorkerQuitTreatsRows(c, s, w);
      case JobRelease(j) => JobReleaseTreatsRows(c, s, j);
      case _ => OtherTreatsRows(c, s, step);
    }
  }

  lemma OtherTreatsRows(c: Config, s: State, step: Step)
    requires Enabled(c, s, step)
    requires step.SearchStart? || step.SearchEnd? || step.AddMark? || step.AddCheck? || step.AddUnmark?
          || step.FeederGet? || step.FeederDrop? || step.FeederQuit? || step.Cancel?
    ensures TreatsRows(s, Next(c, s, step))
  {
    hide Cleared, Clears, Stores;
    SameCleared(s, Next(c, s, step));
  }

  lemma SameCleared(s: State, s': State)
    requires s'.jobs == s.jobs && s'.workers == s.workers && s'.running == s.running
    requires ClearedFeeder(s'.feeder) <= ClearedFeeder(s.feeder)
    ensures Cleared(s') <= Cleared(s)
  {
    hide Bag;
  }
}
