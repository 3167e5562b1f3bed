/** The crawl pipeline as a system of atomic steps: submitters and the queue
    (internal/crawler/cache.go), the feeder, workers and jobs
    (internal/crawler/worker.go) and the event loop with its limited searches
    (internal/crawler/crawler.go).  Each locked region, atomic operation, channel
    operation or storage call is one step, and the steps of all goroutines interleave
    freely. */
module Pipeline {
  import opened Bytes
  import opened DownloadQueue

  /** numWorkers and perWorker. */
  datatype Config = Config(workers: nat, perWorker: nat) {
    function JobSlots(): nat { workers * perWorker }

    /** The queue size chosen in New. */
    function QueueSize(): nat { workers * perWorker * 2 }
  }

  const SEARCH_TOKENS := 10

  /** A stored torrent row. */
  type Record = nat

  /** Stage of an Add call: none, marked but not yet in the queue's locked region, or
      refused by a full queue with the mark still set. */
  datatype Adder = Idle | Marked(item: Item) | Refused(item: Item)

  datatype Feeder =
    | Polling
    | Took(item: Item)      // taken from the queue
    | Dropping(item: Item)  // about to remove the mark
    | Ready(item: Item)     // found absent from storage, about to send
    | Gone                  // returned after cancellation

  datatype Hand = Receiving | Holding(item: Item) | Stopped

  /** A worker's loop and the number of tokens in its semaphore. */
  datatype Worker = Worker(hand: Hand, sem: nat)

  datatype Stage =
    | Spawned      // goroutine started
    | Downloading  // counted in `downloading`
    | Inserted     // row stored
    | Unlisted     // DeleteHash done
    | Settled      // counted as success or failure
    | Leaving      // no longer counted in `downloading`
    | Released     // mark removed, semaphore token still held

  datatype Job = Job(worker: nat, item: Item, stage: Stage)

  /** `adders[0]` is the event loop, the others are running searches.  `spawned` and
      `rowsAtStart` are history. */
  datatype State = State(
    q: Queue, adders: seq<Adder>, freeTokens: nat,
    feeder: Feeder, jobs: seq<Item>, workers: seq<Worker>, running: seq<Job>,
    torrents: map<Hash, Record>,
    downloading: int, successes: nat, failures: nat,
    spawned: nat, rowsAtStart: nat, cancelled: bool)

  datatype Step =
    | SearchStart
    | SearchEnd(a: nat)
    | AddMark(a: nat, item: Item)
    | AddCheck(a: nat)
    | AddUnmark(a: nat)
    | FeederGet
    | FeederCheck(dbError: bool)
    | FeederDrop
    | FeederSend
    | FeederHandOver(w: nat)
    | WorkerReceive(w: nat)
    | WorkerSpawn(w: nat)
    | JobStart(j: nat)
    | JobFail(j: nat)
    | JobInsert(j: nat, record: Record)
    | JobDeleteHash(j: nat)
    | JobSucceed(j: nat)
    | JobLeave(j: nat)
    | JobComplete(j: nat)
    | JobRelease(j: nat)
    | Cancel
    | FeederQuit
    | WorkerQuit(w: nat)
    | JobAbort(j: nat)

  predicate JobAt(s: State, j: nat, stage: Stage) {
    j < |s.running| && s.running[j].stage == stage
  }

  predicate Enabled(c: Config, s: State, step: Step) {
    match step
    case SearchStart => s.freeTokens > 0
    case SearchEnd(a) => 0 < a < |s.adders| && s.adders[a].Idle?
    case AddMark(a, _) => a < |s.adders| && s.adders[a].Idle?
    case AddCheck(a) => a < |s.adders| && s.adders[a].Marked?
    case AddUnmark(a) => a < |s.adders| && s.adders[a].Refused?
    case FeederGet => s.feeder.Polling? && s.q.items != []
    case FeederCheck(_) => s.feeder.Took?
    case FeederDrop => s.feeder.Dropping?
    case FeederSend => s.feeder.Ready? && |s.jobs| < c.JobSlots()
    case FeederHandOver(w) =>
      s.feeder.Ready? && s.jobs == [] && w < |s.workers| && s.workers[w].hand.Receiving?
    case WorkerReceive(w) => w < |s.workers| && s.workers[w].hand.Receiving? && s.jobs != []
    case WorkerSpawn(w) => w < |s.workers| && s.workers[w].hand.Holding? && s.workers[w].sem < c.perWorker
    case JobStart(j) => JobAt(s, j, Spawned)
    case JobFail(j) => JobAt(s, j, Downloading)
    case JobInsert(j, _) => JobAt(s, j, Downloading)
    case JobDeleteHash(j) => JobAt(s, j, Inserted)
    case JobSucceed(j) => JobAt(s, j, Unlisted)
    case JobLeave(j) => JobAt(s, j, Settled)
    case JobComplete(j) => JobAt(s, j, Leaving)
    case JobRelease(j) =>
      JobAt(s, j, Released) && s.running[j].worker < |s.workers| && s.workers[s.running[j].worker].sem > 0
    case Cancel => true
    case FeederQuit => s.cancelled && (s.feeder.Polling? || s.feeder.Ready?)
    case WorkerQuit(w) => s.cancelled && w < |s.workers| && !s.workers[w].hand.Stopped?
    case JobAbort(j) => s.cancelled && JobAt(s, j, Downloading)
  }

  function WithStage(s: State, j: nat, stage: Stage): State
    requires j < |s.running|
  {
    s.(running := s.running[j := s.running[j].(stage := stage)])
  }

  function WithHand(s: State, w: nat, hand: Hand): State
    requires w < |s.workers|
  {
    s.(workers := s.workers[w := s.workers[w].(hand := hand)])
  }

  function Next(c: Config, s: State, step: Step): State
    requires Enabled(c, s, step)
  {
    match step
    case SearchStart => s.(freeTokens := s.freeTokens - 1, adders := s.adders + [Idle])
    case SearchEnd(a) => s.(freeTokens := s.freeTokens + 1, adders := s.adders[..a] + s.adders[a + 1..])
    case AddMark(a, item) =>
      var (q, loaded) := s.q.Mark(item.infoHash);
      if loaded then s else s.(q := q, adders := s.adders[a := Marked(item)])
    case AddCheck(a) =>
      var item := s.adders[a].item;
      if |s.q.items| >= c.QueueSize() then s.(adders := s.adders[a := Refused(item)])
      else s.(q := s.q.Push(item), adders := s.adders[a := Idle])
    case AddUnmark(a) =>
      s.(q := s.q.Unmark(s.adders[a].item.infoHash), adders := s.adders[a := Idle])
    case FeederGet => s.(q := s.q.Pop(), feeder := Took(s.q.items[0]))
    case FeederCheck(dbError) =>
      var item := s.feeder.item;
      if item.peerAddr == [] || dbError || item.infoHash in s.torrents
      then s.(feeder := Dropping(item))
      else s.(feeder := Ready(item))
    case FeederDrop => s.(q := s.q.Unmark(s.feeder.item.infoHash), feeder := Polling)
    case FeederSend => s.(jobs := s.jobs + [s.feeder.item], feeder := Polling)
    case FeederHandOver(w) => WithHand(s, w, Holding(s.feeder.item)).(feeder := Polling)
    case WorkerReceive(w) => WithHand(s, w, Holding(s.jobs[0])).(jobs := s.jobs[1..])
    case WorkerSpawn(w) =>
      s.(workers := s.workers[w := Worker(Receiving, s.workers[w].sem + 1)],
         running := s.running + [Job(w, s.workers[w].hand.item, Spawned)],
         spawned := s.spawned + 1)
    case JobStart(j) => WithStage(s, j, Downloading).(downloading := s.downloading + 1)
    case JobFail(j) => WithStage(s, j, Settled).(failures := s.failures + 1)
    case JobInsert(j, record) =>
      // INSERT OR REPLACE: an existing row would be overwritten.
      WithStage(s, j, Inserted).(torrents := s.torrents[s.running[j].item.infoHash := record])
    case JobDeleteHash(j) => WithStage(s, j, Unlisted)
    case JobSucceed(j) => WithStage(s, j, Settled).(successes := s.successes + 1)
    case JobLeave(j) => WithStage(s, j, Leaving).(downloading := s.downloading - 1)
    case JobComplete(j) =>
      WithStage(s, j, Released).(q := s.q.Unmark(s.running[j].item.infoHash))
    case JobRelease(j) =>
      var w := s.running[j].worker;
      s.(workers := s.workers[w := s.workers[w].(sem := s.workers[w].sem - 1)],
         running := s.running[..j] + s.running[j + 1..])
    case Cancel => s.(cancelled := true)
    case FeederQuit => s.(feeder := Gone)
    case WorkerQuit(w) => WithHand(s, w, Stopped)
    case JobAbort(j) => WithStage(s, j, Settled)
  }

  /** A new crawler over a storage that already holds some rows. */
  predicate Initial(c: Config, s: State) {
    && s.q == Queue([], {})
    && s.adders == [Idle] && s.freeTokens == SEARCH_TOKENS
    && s.feeder == Polling && s.jobs == [] && s.running == []
    && s.workers == seq(c.workers, _ => Worker(Receiving, 0))
    && s.downloading == 0 && s.successes == 0 && s.failures == 0 && s.spawned == 0
    && s.rowsAtStart == |s.torrents| && !s.cancelled
  }

  /** The steps can be taken one after the other from `s`. */
  predicate CanRun(c: Config, s: State, steps: seq<Step>)
    decreases |steps|
  {
    steps == [] || (Enabled(c, s, steps[0]) && CanRun(c, Next(c, s, steps[0]), steps[1..]))
  }

  function RunFrom(c: Config, s: State, steps: seq<Step>): State
    requires CanRun(c, s, steps)
    decreases |steps|
  {
    if steps == [] then s else RunFrom(c, Next(c, s, steps[0]), steps[1..])
  }
}
