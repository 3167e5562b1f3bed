/** What the crawl pipeline can do: no state it reaches is a dead end, every job can be
    stored or fail, and after cancellation everything can come to rest. */
module PipelineProgress {
  import opened Bytes
  import opened Bags
  import opened DownloadQueue
  import opened Pipeline
  import opened PipelineSafety
  import opened PipelineBounds

  // ---------------------------------------------------------------------
  // Single jobs
  // ---------------------------------------------------------------------

  /** Job j has a next step; while it downloads it may store any record or fail. */
  ghost predicate CanMove(c: Config, s: State, j: nat)
    requires j < |s.running|
  {
    match s.running[j].stage
    case Spawned => Enabled(c, s, JobStart(j))
    case Downloading => Enabled(c, s, JobFail(j)) && forall record: Record :: Enabled(c, s, JobInsert(j, record))
    case Inserted => Enabled(c, s, JobDeleteHash(j))
    case Unlisted => Enabled(c, s, JobSucceed(j))
    case Settled => Enabled(c, s, JobLeave(j))
    case Leaving => Enabled(c, s, JobComplete(j))
    case Released => Enabled(c, s, JobRelease(j))
  }

  lemma JobMoves(c: Config, s: State, j: nat)
    requires SlotsUsed(c, s) && j < |s.running|
    ensures CanMove(c, s, j)
  {
    hide SlotsUsed;
    TokenToGiveBack(c, s, j);
  }

  /** No running job of any reachable state is stuck. */
  lemma JobsCanMove(c: Config, s0: State, steps: seq<Step>, j: nat)
    requires Initial(c, s0) && CanRun(c, s0, steps)
    requires j < |RunFrom(c, s0, steps).running|
    ensures CanMove(c, RunFrom(c, s0, steps), j)
  {
    hide CanMove, CanRun, RunFrom, Initial, WithinCapacity, ClearedAbsent, Counted, SlotsUsed, LeftByQuitters, Owned;
    RunInv(c, s0, steps);
    JobMoves(c, RunFrom(c, s0, steps), j);
  }

  /** A limited search starts with a token and gives it back. */
  lemma SearchRun(c: Config, s: State)
    requires s.freeTokens > 0 && s.adders != []
    ensures var steps := [SearchStart, SearchEnd(|s.adders|)];
            CanRun(c, s, steps) && RunFrom(c, s, steps) == s
  {
    var s1 := Next(c, s, SearchStart);
    assert Next(c, s1, SearchEnd(|s.adders|)).adders == s.adders;
    RunStep(c, s1, SearchEnd(|s.adders|), []);
    RunStep(c, s, SearchStart, [SearchEnd(|s.adders|)]);
  }

  // ---------------------------------------------------------------------
  // From rest to rest
  // ---------------------------------------------------------------------

  /** Nothing is on its way. */
  predicate Quiet(c: Config, s: State) {
    && s.q == Queue([], {}) && s.adders != [] && (forall a | 0 <= a < |s.adders| :: s.adders[a].Idle?)
    && s.feeder == Polling && s.jobs == [] && s.running == [] && !s.cancelled
    && |s.workers| == c.workers
    && forall w | 0 <= w < c.workers :: s.workers[w] == Worker(Receiving, 0)
  }

  predicate NoCancel(steps: seq<Step>) {
    Cancel !in steps
  }

  /** A submitted item up to the start of its download. */
  function ToDownload(item: Item): seq<Step> {
    ToFeeder(item) + [FeederHandOver(0), WorkerSpawn(0), JobStart(0)]
  }

  /** `s` with one running job, of the first worker. */
  function WithJob(s: State, item: Item, stage: Stage): State
    requires s.workers != []
  {
    s.(workers := s.workers[0 := Worker(Receiving, 1)], running := [Job(0, item, stage)],
       downloading := s.downloading + (if stage in {Downloading, Inserted, Unlisted, Settled} then 1 else 0),
       q := Queue([], if stage == Released then {} else {item.infoHash}))
  }

  lemma JobSpawns(c: Config, s: State, item: Item)
    requires Quiet(c, s) && c.workers > 0 && c.perWorker > 0
    ensures var s1 := ReadyState(s, item).(feeder := Polling,
                        workers := s.workers[0 := Worker(Holding(item), 0)]);
            && Enabled(c, ReadyState(s, item), FeederHandOver(0))
            && Next(c, ReadyState(s, item), FeederHandOver(0)) == s1
            && Enabled(c, s1, WorkerSpawn(0))
            && Next(c, s1, WorkerSpawn(0)) == WithJob(s.(spawned := s.spawned + 1), item, Spawned)
  {
    var s1 := ReadyState(s, item).(feeder := Polling, workers := s.workers[0 := Worker(Holding(item), 0)]);
    assert s1.workers[0 := Worker(Receiving, 1)] == s.workers[0 := Worker(Receiving, 1)];
  }

  lemma JobStarts(c: Config, s: State, item: Item)
    requires s.workers != []
    ensures var from := WithJob(s, item, Spawned);
            Enabled(c, from, JobStart(0)) && Next(c, from, JobStart(0)) == WithJob(s, item, Downloading)
  {
  }

  lemma JobInserts(c: Config, s: State, item: Item, record: Record)
    requires s.workers != []
    ensures var from := WithJob(s, item, Downloading);
            && Enabled(c, from, JobInsert(0, record))
            && Next(c, from, JobInsert(0, record))
               == WithJob(s.(torrents := s.torrents[item.infoHash := record]), item, Inserted)
  {
  }

  lemma JobDeletesHash(c: Config, s: State, item: Item)
    requires s.workers != []
    ensures var from := WithJob(s, item, Inserted);
            Enabled(c, from, JobDeleteHash(0)) && Next(c, from, JobDeleteHash(0)) == WithJob(s, item, Unlisted)
  {
  }

  lemma JobSucceeds(c: Config, s: State, item: Item)
    requires s.workers != []
    ensures var from := WithJob(s, item, Unlisted);
            && Enabled(c, from, JobSucceed(0))
            && Next(c, from, JobSucceed(0)) == WithJob(s.(successes := s.successes + 1), item, Settled)
  {
  }

  lemma JobFails(c: Config, s: State, item: Item)
    requires s.workers != []
    ensures var from := WithJob(s, item, Downloading);
            && Enabled(c, from, JobFail(0))
            && Next(c, from, JobFail(0)) == WithJob(s.(failures := s.failures + 1), item, Settled)
  {
  }

  lemma JobLeaves(c: Config, s: State, item: Item)
    requires s.workers != []
    ensures var from := WithJob(s, item, Settled);
            Enabled(c, from, JobLeave(0)) && Next(c, from, JobLeave(0)) == WithJob(s, item, Leaving)
  {
  }

  lemma JobCompletes(c: Config, s: State, item: Item)
    requires s.workers != []
    ensures var from := WithJob(s, item, Leaving);
            Enabled(c, from, JobComplete(0)) && Next(c, from, JobComplete(0)) == WithJob(s, item, Released)
  {
  }

  lemma JobReleases(c: Config, s: State, item: Item)
    requires Quiet(c, s) && c.workers > 0
    ensures var from := WithJob(s, item, Released);
            Enabled(c, from, JobRelease(0)) && Next(c, from, JobRelease(0)) == s
  {
    assert s.workers[0 := Worker(Receiving, 1)][0 := Worker(Receiving, 0)] == s.workers;
  }

  /** A submitted item up to its download. */
  lemma ReachesDownload(c: Config, s: State, item: Item)
    requires Quiet(c, s) && c.workers > 0 && c.perWorker > 0
    requires item.peerAddr != [] && item.infoHash !in s.torrents
    ensures CanRun(c, s, ToDownload(item))
    ensures RunFrom(c, s, ToDownload(item)) == WithJob(s.(spawned := s.spawned + 1), item, Downloading)
  {
    hide Next, Enabled, CanRun, RunFrom, AbandonedIn, ToFeeder, WithJob;
    assert c.QueueSize() > 0;
    ReachesFeeder(c, s, item);
    JobSpawns(c, s, item);
    JobStarts(c, s.(spawned := s.spawned + 1), item);
    var ready := ReadyState(s, item);
    RunThree(c, ready, FeederHandOver(0), WorkerSpawn(0), JobStart(0));
    RunConcat(c, s, ToFeeder(item), [FeederHandOver(0), WorkerSpawn(0), JobStart(0)]);
  }

  lemma RunOne(c: Config, s: State, x: Step)
    requires Enabled(c, s, x)
    ensures CanRun(c, s, [x]) && RunFrom(c, s, [x]) == Next(c, s, x)
  {
    hide Enabled, Next;
    assert CanRun(c, Next(c, s, x), []);
    assert [x][1..] == [];
  }

  lemma RunThree(c: Config, s: State, x: Step, y: Step, z: Step)
    requires Enabled(c, s, x) && Enabled(c, Next(c, s, x), y) && Enabled(c, Next(c, Next(c, s, x), y), z)
    ensures CanRun(c, s, [x, y, z]) && RunFrom(c, s, [x, y, z]) == Next(c, Next(c, Next(c, s, x), y), z)
  {
    hide Enabled, Next;
    RunOne(c, Next(c, Next(c, s, x), y), z);
    RunOne(c, Next(c, s, x), y);
    assert [x, y, z][1..] == [y, z] && [y, z][1..] == [z];
  }

  /** From settling to the end. */
  lemma Settles(c: Config, s: State, item: Item)
    requires Quiet(c, s) && c.workers > 0
    ensures var from, steps := WithJob(s, item, Settled), [JobLeave(0), JobComplete(0), JobRelease(0)];
            CanRun(c, from, steps) && RunFrom(c, from, steps) == s
  {
    hide Next, Enabled, CanRun, RunFrom, AbandonedIn, WithJob;
    JobLeaves(c, s, item);
    JobCompletes(c, s, item);
    JobReleases(c, s, item);
    RunThree(c, WithJob(s, item, Settled), JobLeave(0), JobComplete(0), JobRelease(0));
  }

  lemma Stores(c: Config, s: State, item: Item, record: Record)
    requires s.workers != []
    ensures var from := WithJob(s, item, Downloading);
            var end := s.(torrents := s.torrents[item.infoHash := record], successes := s.successes + 1);
            var steps := [JobInsert(0, record), JobDeleteHash(0), JobSucceed(0)];
            CanRun(c, from, steps) && RunFrom(c, from, steps) == WithJob(end, item, Settled)
  {
    hide Next, Enabled, CanRun, RunFrom, AbandonedIn, WithJob;
    var stored := s.(torrents := s.torrents[item.infoHash := record]);
    JobInserts(c, s, item, record);
    JobDeletesHash(c, stored, item);
    JobSucceeds(c, stored, item);
    RunThree(c, WithJob(s, item, Downloading), JobInsert(0, record), JobDeleteHash(0), JobSucceed(0));
  }

  lemma Fails(c: Config, s: State, item: Item)
    requires s.workers != []
    ensures var from := WithJob(s, item, Downloading);
            && CanRun(c, from, [JobFail(0)])
            && RunFrom(c, from, [JobFail(0)]) == WithJob(s.(failures := s.failures + 1), item, Settled)
  {
    hide Next, Enabled, CanRun, RunFrom, AbandonedIn, WithJob;
    JobFails(c, s, item);
    RunOne(c, WithJob(s, item, Downloading), JobFail(0));
  }

  function StoringSteps(item: Item, record: Record): seq<Step> {
    ToDownload(item) + [JobInsert(0, record), JobDeleteHash(0), JobSucceed(0)]
    + [JobLeave(0), JobComplete(0), JobRelease(0)]
  }

  /** From rest, any item with a peer and an absent hash can be stored with any record,
      without cancellation, and nothing else changes but the counters of successes and of
      started jobs. */
  lemma ItemCanBeStored(c: Config, s: State, item: Item, record: Record)
    requires Quiet(c, s) && c.workers > 0 && c.perWorker > 0
    requires item.peerAddr != [] && item.infoHash !in s.torrents
    ensures CanRun(c, s, StoringSteps(item, record)) && NoCancel(StoringSteps(item, record))
    ensures RunFrom(c, s, StoringSteps(item, record))
         == s.(torrents := s.torrents[item.infoHash := record], successes := s.successes + 1,
               spawned := s.spawned + 1)
  {
    hide Next, Enabled, CanRun, RunFrom, AbandonedIn, WithJob, Quiet;
    var download := [JobInsert(0, record), JobDeleteHash(0), JobSucceed(0)];
    var begun := s.(spawned := s.spawned + 1);
    var end := begun.(torrents := s.torrents[item.infoHash := record], successes := s.successes + 1);
    WorkerExists(c, s);
    CountersQuiet(c, s, end);
    ReachesDownload(c, s, item);
    Stores(c, begun, item, record);
    Settles(c, end, item);
    RunConcat(c, s, ToDownload(item), download);
    RunConcat(c, s, ToDownload(item) + download, [JobLeave(0), JobComplete(0), JobRelease(0)]);
  }

  lemma WorkerExists(c: Config, s: State)
    requires Quiet(c, s) && c.workers > 0
    ensures s.workers != []
  {
  }

  lemma CountersQuiet(c: Config, s: State, s': State)
    requires Quiet(c, s)
    requires s' == s.(torrents := s'.torrents, successes := s'.successes, failures := s'.failures,
                      spawned := s'.spawned)
    ensures Quiet(c, s')
  {
  }

  function FailingSteps(item: Item): seq<Step> {
    ToDownload(item) + [JobFail(0)] + [JobLeave(0), JobComplete(0), JobRelease(0)]
  }

  /** Or its download fails, and only the counters of failures and of started jobs
      change. */
  lemma ItemCanFail(c: Config, s: State, item: Item)
    requires Quiet(c, s) && c.workers > 0 && c.perWorker > 0
    requires item.peerAddr != [] && item.infoHash !in s.torrents
    ensures CanRun(c, s, FailingSteps(item)) && NoCancel(FailingSteps(item))
    ensures RunFrom(c, s, FailingSteps(item)) == s.(failures := s.failures + 1, spawned := s.spawned + 1)
  {
    hide Next, Enabled, CanRun, RunFrom, AbandonedIn, WithJob, Quiet;
    var begun := s.(spawned := s.spawned + 1);
    WorkerExists(c, s);
    CountersQuiet(c, s, begun.(failures := s.failures + 1));
    ReachesDownload(c, s, item);
    Fails(c, begun, item);
    Settles(c, begun.(failures := s.failures + 1), item);
    RunConcat(c, s, ToDownload(item), [JobFail(0)]);
    RunConcat(c, s, ToDownload(item) + [JobFail(0)], [JobLeave(0), JobComplete(0), JobRelease(0)]);
  }

  lemma InitialQuiet(c: Config, s: State)
    requires Initial(c, s)
    ensures Quiet(c, s)
  {
  }

  /** The first item of a new crawler: stored, or failed, with everything else as it was at
      the start. */
  lemma FirstItem(c: Config, s0: State, item: Item, record: Record)
    requires Initial(c, s0) && c.workers > 0 && c.perWorker > 0
    requires item.peerAddr != [] && item.infoHash !in s0.torrents
    ensures exists steps :: CanRun(c, s0, steps) && NoCancel(steps)
              && RunFrom(c, s0, steps)
                 == s0.(torrents := s0.torrents[item.infoHash := record], successes := 1, spawned := 1)
    ensures exists steps :: CanRun(c, s0, steps) && NoCancel(steps)
              && RunFrom(c, s0, steps) == s0.(failures := 1, spawned := 1)
  {
    hide CanRun, RunFrom, StoringSteps, FailingSteps, Quiet;
    InitialQuiet(c, s0);
    ItemCanBeStored(c, s0, item, record);
    ItemCanFail(c, s0, item);
    assert CanRun(c, s0, StoringSteps(item, record)) && CanRun(c, s0, FailingSteps(item));
  }

  // ---------------------------------------------------------------------
  // Coming to rest
  // ---------------------------------------------------------------------

  /** Before cancellation nobody returns. */
  predicate NobodyQuit(s: State) {
    !s.feeder.Gone? && forall w | 0 <= w < |s.workers| :: !s.workers[w].hand.Stopped?
  }

  /** A state a run can reach before cancellation. */
  predicate Live(c: Config, s: State) {
    Inv(c, s, multiset{}) && !s.cancelled && NobodyQuit(s)
  }

  lemma StepKeepsLive(c: Config, s: State, step: Step)
    requires Live(c, s) && Enabled(c, s, step) && !step.Cancel?
    ensures Live(c, Next(c, s, step))
  {
    hide Inv, Next, Enabled;
    Uncancelled(c, s, step);
    OthersKeepHands(c, s, step);
    OthersKeepFeeder(c, s, step);
    StepKeepsInv(c, s, step, multiset{});
    assert multiset{} + Abandons(s, step) == multiset{};
  }

  lemma Uncancelled(c: Config, s: State, step: Step)
    requires Enabled(c, s, step) && !s.cancelled && !step.Cancel?
    ensures !Next(c, s, step).cancelled && !step.FeederQuit? && !step.WorkerQuit?
  {
  }

  /** What is still to be done, the earliest stage first. */
  function AdderRank(a: Adder): nat {
    match a
    case Idle => 0
    case Refused(_) => 1
    case Marked(_) => 2
  }

  function FeederRank(f: Feeder): nat {
    match f
    case Took(_) => 2
    case Dropping(_) => 1
    case Ready(_) => 1
    case _ => 0
  }

  function HandRank(w: Worker): nat {
    if w.hand.Holding? then 1 else 0
  }

  function StageRank(stage: Stage): nat {
    match stage
    case Spawned => 6
    case Downloading => 5
    case Inserted => 4
    case Unlisted => 3
    case Settled => 2
    case Leaving => 1
    case Released => 0
  }

  /** A step that finishes something, taking the latest stage first; a download fails. */
  function Finishing(s: State): Option<Step> {
    if s.running != [] then
      match s.running[0].stage
      case Spawned => Some(JobStart(0))
      case Downloading => Some(JobFail(0))
      case Inserted => Some(JobDeleteHash(0))
      case Unlisted => Some(JobSucceed(0))
      case Settled => Some(JobLeave(0))
      case Leaving => Some(JobComplete(0))
      case Released => Some(JobRelease(0))
    else if exists w | 0 <= w < |s.workers| :: s.workers[w].hand.Holding? then
      Some(WorkerSpawn(FirstHolding(s.workers)))
    else if s.jobs != [] then Some(WorkerReceive(0))
    else
      match s.feeder
      case Took(_) => Some(FeederCheck(false))
      case Dropping(_) => Some(FeederDrop)
      case Ready(_) => Some(FeederSend)
      case _ =>
        if s.q.items != [] then Some(FeederGet)
        else if exists a | 0 <= a < |s.adders| :: !s.adders[a].Idle? then
          var a := FirstBusy(s.adders);
          Some(if s.adders[a].Marked? then AddCheck(a) else AddUnmark(a))
        else None
  }

  function FirstHolding(workers: seq<Worker>): (w: nat)
    requires exists w | 0 <= w < |workers| :: workers[w].hand.Holding?
    ensures w < |workers| && workers[w].hand.Holding?
  {
    if workers[0].hand.Holding? then 0
    else
      assert exists w | 0 <= w < |workers[1..]| :: workers[1..][w].hand.Holding? by {
        var w :| 0 <= w < |workers| && workers[w].hand.Holding?;
        assert workers[1..][w - 1].hand.Holding?;
      }
      1 + FirstHolding(workers[1..])
  }

  function FirstBusy(adders: seq<Adder>): (a: nat)
    requires exists a | 0 <= a < |adders| :: !adders[a].Idle?
    ensures a < |adders| && !adders[a].Idle?
  {
    if !adders[0].Idle? then 0
    else
      assert exists a | 0 <= a < |adders[1..]| :: !adders[1..][a].Idle? by {
        var a :| 0 <= a < |adders| && !adders[a].Idle?;
        assert !adders[1..][a - 1].Idle?;
      }
      1 + FirstBusy(adders[1..])
  }

  /** Without running jobs no token is taken. */
  lemma NoTokens(c: Config, s: State)
    requires SlotsUsed(c, s) && s.running == []
    ensures forall w | 0 <= w < |s.workers| :: s.workers[w].sem == 0
  {
    assert Load(s) == multiset{};
  }

  /** In a live state nobody has returned, and the tokens taken are those of the jobs. */
  predicate Workable(c: Config, s: State) {
    && c.workers > 0 && c.perWorker > 0
    && |s.workers| == c.workers && NobodyQuit(s)
    && (s.running == [] ==> forall w | 0 <= w < |s.workers| :: s.workers[w].sem == 0)
    && (s.running != [] ==>
          s.running[0].worker < |s.workers| && s.workers[s.running[0].worker].sem > 0)
  }

  lemma LiveWorkable(c: Config, s: State)
    requires Live(c, s) && c.workers > 0 && c.perWorker > 0
    ensures Workable(c, s)
  {
    hide Owned, LeftByQuitters, ClearedAbsent, Counted, WithinCapacity;
    if s.running != [] {
      TokenToGiveBack(c, s, 0);
    } else {
      NoTokens(c, s);
    }
  }

  lemma FinishingEnabled(c: Config, s: State)
    requires Workable(c, s) && Finishing(s).Some?
    ensures Enabled(c, s, Finishing(s).value)
    ensures !Finishing(s).value.Cancel?
  {
    if s.running == [] && s.feeder.Ready? && s.jobs == [] {
      assert c.JobSlots() > 0;
    }
  }

  lemma FinishingNone(c: Config, s: State)
    requires Live(c, s) && c.workers > 0 && c.perWorker > 0 && Finishing(s).None?
    ensures Quiet(c, s)
  {
    LiveWorkable(c, s);
    NothingLeft(s);
    NothingHeld(s);
    NoMarks(s);
    assert s.adders != [];
  }

  lemma NothingLeft(s: State)
    requires Finishing(s).None? && !s.feeder.Gone?
    ensures s.running == [] && s.jobs == [] && s.feeder == Polling && s.q.items == []
    ensures forall a | 0 <= a < |s.adders| :: s.adders[a].Idle?
    ensures forall w | 0 <= w < |s.workers| :: !s.workers[w].hand.Holding?
  {
  }

  lemma NoMarks(s: State)
    requires Owned(s, multiset{}) && Holders(s) == multiset{}
    ensures s.q.inFlight == {}
  {
    hide Holders;
    SetSize(s.q.inFlight);
  }

  lemma NothingHeld(s: State)
    requires forall a | 0 <= a < |s.adders| :: s.adders[a].Idle?
    requires s.q.items == [] && OfFeeder(s.feeder) == multiset{} && s.jobs == [] && s.running == []
    requires forall w | 0 <= w < |s.workers| :: !s.workers[w].hand.Holding?
    ensures Holders(s) == multiset{}
  {
    EmptyBag(s.adders, OfAdder);
    EmptyBag(s.workers, OfWorker);
  }

  lemma {:induction false} EmptyBag<T>(s: seq<T>, f: T -> multiset<Hash>)
    requires forall i | 0 <= i < |s| :: f(s[i]) == multiset{}
    ensures Bag(s, f) == multiset{}
  {
    if s != [] {
      EmptyBag(s[1..], f);
    }
  }

  function Stage0(s: State): nat {
    if s.running == [] then 0 else StageRank(s.running[0].stage)
  }

  /** Less is left to do: the first of these that changes gets smaller. */
  predicate LessToDo(s': State, s: State) {
    var a', a := Sum(s'.adders, AdderRank), Sum(s.adders, AdderRank);
    || a' < a
    || (a' == a && |s'.q.items| < |s.q.items|)
    || (a' == a && |s'.q.items| == |s.q.items| && LessInHand(s', s))
  }

  predicate LessInHand(s': State, s: State) {
    var f', f := FeederRank(s'.feeder), FeederRank(s.feeder);
    var h', h := Sum(s'.workers, HandRank), Sum(s.workers, HandRank);
    || f' < f
    || (f' == f && |s'.jobs| < |s.jobs|)
    || (f' == f && |s'.jobs| == |s.jobs| && h' < h)
    || (f' == f && |s'.jobs| == |s.jobs| && h' == h && |s'.running| < |s.running|)
    || (f' == f && |s'.jobs| == |s.jobs| && h' == h && |s'.running| == |s.running| && Stage0(s') < Stage0(s))
  }

  /** Moving the first job on leaves less to do. */
  lemma JobMoveFinishes(c: Config, s: State, step: Step)
    requires Enabled(c, s, step) && MovesJob(step) && step.j == 0
    requires s.running != [] && StageRank(Target(step)) < StageRank(s.running[0].stage)
    ensures LessToDo(Next(c, s, step), s)
  {
    hide Next, Enabled;
    JobStepShape(c, s, step);
  }

  lemma ReleaseFinishes(c: Config, s: State)
    requires Enabled(c, s, JobRelease(0))
    ensures LessToDo(Next(c, s, JobRelease(0)), s)
  {
    hide Sum;
    var w := s.running[0].worker;
    SumUpdate(s.workers, w, s.workers[w].(sem := s.workers[w].sem - 1), HandRank);
  }

  lemma SpawnFinishes(c: Config, s: State, w: nat)
    requires Enabled(c, s, WorkerSpawn(w))
    ensures LessToDo(Next(c, s, WorkerSpawn(w)), s)
  {
    hide Sum;
    SumUpdate(s.workers, w, Worker(Receiving, s.workers[w].sem + 1), HandRank);
  }

  lemma FeederFinishes(c: Config, s: State, step: Step)
    requires Enabled(c, s, step) && (step.FeederCheck? || step.FeederDrop? || step.FeederSend? || step.FeederGet?)
    ensures LessToDo(Next(c, s, step), s)
  {
    hide Sum;
  }

  lemma ReceiveFinishes(c: Config, s: State)
    requires Enabled(c, s, WorkerReceive(0))
    ensures LessToDo(Next(c, s, WorkerReceive(0)), s)
  {
    hide Sum;
  }

  lemma AdderFinishes(c: Config, s: State, a: nat)
    requires a < |s.adders| && !s.adders[a].Idle?
    ensures var step := if s.adders[a].Marked? then AddCheck(a) else AddUnmark(a);
            Enabled(c, s, step) && LessToDo(Next(c, s, step), s)
  {
    hide Sum;
    SumUpdate(s.adders, a, Idle, AdderRank);
    SumUpdate(s.adders, a, Refused(s.adders[a].item), AdderRank);
  }

  lemma JobFinishes(c: Config, s: State)
    requires Workable(c, s) && s.running != []
    ensures LessToDo(Next(c, s, Finishing(s).value), s)
  {
    hide Next, LessToDo, Enabled, Workable;
    FinishingEnabled(c, s);
    if s.running[0].stage == Released {
      ReleaseFinishes(c, s);
    } else {
      JobMoveFinishes(c, s, Finishing(s).value);
    }
  }

  lemma OtherFinishes(c: Config, s: State)
    requires Workable(c, s) && s.running == [] && Finishing(s).Some?
    ensures LessToDo(Next(c, s, Finishing(s).value), s)
  {
    hide Next, LessToDo, Enabled, Workable;
    FinishingEnabled(c, s);
    var step := Finishing(s).value;
    if step.WorkerSpawn? {
      SpawnFinishes(c, s, step.w);
    } else if step.WorkerReceive? {
      ReceiveFinishes(c, s);
    } else if step.AddCheck? || step.AddUnmark? {
      AdderFinishes(c, s, step.a);
    } else {
      FeederFinishes(c, s, step);
    }
  }

  lemma FinishingKeepsRows(c: Config, s: State)
    requires Finishing(s).Some? && Enabled(c, s, Finishing(s).value)
    ensures Next(c, s, Finishing(s).value).torrents == s.torrents
  {
    hide Next, Enabled;
    OnlyInsertStores(c, s, Finishing(s).value);
  }

  lemma OnlyInsertStores(c: Config, s: State, step: Step)
    requires Enabled(c, s, step) && !step.JobInsert?
    ensures Next(c, s, step).torrents == s.torrents
  {
    if MovesJob(step) {
      hide Next, Enabled;
      JobStepRows(c, s, step);
    }
  }

  lemma {:induction false} Drain(c: Config, s: State) returns (steps: seq<Step>)
    requires Live(c, s) && c.workers > 0 && c.perWorker > 0
    ensures CanRun(c, s, steps) && NoCancel(steps)
    ensures Quiet(c, RunFrom(c, s, steps)) && RunFrom(c, s, steps).torrents == s.torrents
    decreases Sum(s.adders, AdderRank), |s.q.items|, FeederRank(s.feeder), |s.jobs|, Sum(s.workers, HandRank),
      |s.running|, Stage0(s)
  {
    hide Next, Enabled, Live, Quiet, Workable, Finishing;
    if Finishing(s).None? {
      FinishingNone(c, s);
      steps := [];
    } else {
      LiveWorkable(c, s);
      FinishingEnabled(c, s);
      FinishingKeepsRows(c, s);
      if s.running != [] {
        JobFinishes(c, s);
      } else {
        OtherFinishes(c, s);
      }
      var step := Finishing(s).value;
      StepKeepsLive(c, s, step);
      var rest := Drain(c, Next(c, s, step));
      RunStep(c, s, step, rest);
      steps := [step] + rest;
    }
  }

  lemma InitialLive(c: Config, s: State)
    requires Initial(c, s)
    ensures Live(c, s)
  {
    InitialInv(c, s);
    hide Inv;
  }

  lemma {:induction false} RunKeepsLive(c: Config, s: State, steps: seq<Step>)
    requires Live(c, s) && CanRun(c, s, steps) && !RunFrom(c, s, steps).cancelled
    ensures Live(c, RunFrom(c, s, steps))
    decreases |steps|
  {
    hide Next, Enabled, Live;
    if steps != [] {
      var s' := Next(c, s, steps[0]);
      if steps[0].Cancel? {
        Cancels(c, s);
        StaysCancelled(c, s', steps[1..]);
      } else {
        StepKeepsLive(c, s, steps[0]);
        RunKeepsLive(c, s', steps[1..]);
      }
    }
  }

  lemma Cancels(c: Config, s: State)
    ensures Next(c, s, Cancel).cancelled
  {
  }

  lemma {:induction false} StaysCancelled(c: Config, s: State, steps: seq<Step>)
    requires CanRun(c, s, steps) && s.cancelled
    ensures RunFrom(c, s, steps).cancelled
    decreases |steps|
  {
    hide Next, Enabled;
    if steps != [] {
      CancellationLasts(c, s, steps[0]);
      StaysCancelled(c, Next(c, s, steps[0]), steps[1..]);
    }
  }

  /** No state before cancellation is a dead end: from every one that is reached, some run
      without cancellation brings everything to rest, all marks and tokens back, and no row
      touched. */
  lemma ComesToRest(c: Config, s0: State, steps: seq<Step>)
    requires Initial(c, s0) && CanRun(c, s0, steps) && c.workers > 0 && c.perWorker > 0
    requires !RunFrom(c, s0, steps).cancelled
    ensures var s := RunFrom(c, s0, steps);
            exists more :: CanRun(c, s, more) && NoCancel(more)
              && Quiet(c, RunFrom(c, s, more)) && RunFrom(c, s, more).torrents == s.torrents
  {
    hide CanRun, RunFrom, Quiet, Live;
    InitialLive(c, s0);
    RunKeepsLive(c, s0, steps);
    var more := Drain(c, RunFrom(c, s0, steps));
    assert CanRun(c, RunFrom(c, s0, steps), more);
  }

  /** And so an absent hash with a peer can still be stored, with any record. */
  lemma AbsentHashCanBeStored(c: Config, s0: State, steps: seq<Step>, item: Item, record: Record)
    requires Initial(c, s0) && CanRun(c, s0, steps) && c.workers > 0 && c.perWorker > 0
    requires !RunFrom(c, s0, steps).cancelled
    requires item.peerAddr != [] && item.infoHash !in RunFrom(c, s0, steps).torrents
    ensures var s := RunFrom(c, s0, steps);
            exists more :: CanRun(c, s, more) && NoCancel(more)
              && Quiet(c, RunFrom(c, s, more))
              && RunFrom(c, s, more).torrents == s.torrents[item.infoHash := record]
  {
    hide CanRun, RunFrom, Quiet, Live, StoringSteps, AbandonedIn;
    InitialLive(c, s0);
    RunKeepsLive(c, s0, steps);
    var s := RunFrom(c, s0, steps);
    var more := Drain(c, s);
    var rest := RunFrom(c, s, more);
    ItemCanBeStored(c, rest, item, record);
    RunConcat(c, s, more, StoringSteps(item, record));
    CountersQuiet(c, rest, RunFrom(c, rest, StoringSteps(item, record)));
    assert CanRun(c, s, more + StoringSteps(item, record));
  }

  // ---------------------------------------------------------------------
  // After cancellation
  // ---------------------------------------------------------------------

  /** Feeder and workers have returned and no job runs. */
  predicate Halted(s: State) {
    s.running == [] && s.feeder.Gone? && forall w | 0 <= w < |s.workers| :: s.workers[w].hand.Stopped?
  }

  function QuitRank(w: Worker): nat {
    if w.hand.Stopped? then 0 else 1
  }

  function FeederLeft(f: Feeder): nat {
    match f
    case Took(_) => 3
    case Dropping(_) => 2
    case Gone => 0
    case _ => 1
  }

  /** Downloads are given up, then feeder and workers return. */
  function Halting(s: State): Option<Step> {
    if s.running != [] then
      match s.running[0].stage
      case Spawned => Some(JobStart(0))
      case Downloading => Some(JobAbort(0))
      case Inserted => Some(JobDeleteHash(0))
      case Unlisted => Some(JobSucceed(0))
      case Settled => Some(JobLeave(0))
      case Leaving => Some(JobComplete(0))
      case Released => Some(JobRelease(0))
    else
      match s.feeder
      case Took(_) => Some(FeederCheck(false))
      case Dropping(_) => Some(FeederDrop)
      case Ready(_) => Some(FeederQuit)
      case Polling => Some(FeederQuit)
      case Gone =>
        if exists w | 0 <= w < |s.workers| :: !s.workers[w].hand.Stopped? then
          Some(WorkerQuit(FirstWorking(s.workers)))
        else None
  }

  function FirstWorking(workers: seq<Worker>): (w: nat)
    requires exists w | 0 <= w < |workers| :: !workers[w].hand.Stopped?
    ensures w < |workers| && !workers[w].hand.Stopped?
  {
    if !workers[0].hand.Stopped? then 0
    else
      assert exists w | 0 <= w < |workers[1..]| :: !workers[1..][w].hand.Stopped? by {
        var w :| 0 <= w < |workers| && !workers[w].hand.Stopped?;
        assert !workers[1..][w - 1].hand.Stopped?;
      }
      1 + FirstWorking(workers[1..])
  }

  lemma HaltingEnabled(c: Config, s: State)
    requires SlotsUsed(c, s) && s.cancelled && Halting(s).Some?
    ensures Enabled(c, s, Halting(s).value)
  {
    hide SlotsUsed;
    if s.running != [] {
      TokenToGiveBack(c, s, 0);
    }
  }

  /** Fewer jobs, an earlier stage, or fewer that still have to return. */
  predicate NearerHalt(s': State, s: State) {
    var f', f := FeederLeft(s'.feeder), FeederLeft(s.feeder);
    || |s'.running| < |s.running|
    || (|s'.running| == |s.running| && Stage0(s') < Stage0(s))
    || (|s'.running| == |s.running| && Stage0(s') == Stage0(s) && f' < f)
    || (|s'.running| == |s.running| && Stage0(s') == Stage0(s) && f' == f
          && Sum(s'.workers, QuitRank) < Sum(s.workers, QuitRank))
  }

  lemma HaltingStep(c: Config, s: State)
    requires s.cancelled && Halting(s).Some? && Enabled(c, s, Halting(s).value)
    ensures NearerHalt(Next(c, s, Halting(s).value), s)
  {
    hide Sum, Enabled;
    var step := Halting(s).value;
    if MovesJob(step) {
      hide Next;
      JobStepShape(c, s, step);
    } else if s.running != [] {
      ReleaseShortens(c, s);
    } else if step.WorkerQuit? {
      QuitShortens(c, s, step.w);
    } else {
      FeederNearer(c, s, step);
    }
  }

  lemma ReleaseShortens(c: Config, s: State)
    requires Enabled(c, s, JobRelease(0))
    ensures |Next(c, s, JobRelease(0)).running| < |s.running|
  {
  }

  lemma QuitShortens(c: Config, s: State, w: nat)
    requires Enabled(c, s, WorkerQuit(w))
    ensures var s' := Next(c, s, WorkerQuit(w));
            && s'.running == s.running && s'.feeder == s.feeder
            && Sum(s'.workers, QuitRank) < Sum(s.workers, QuitRank)
  {
    hide Sum;
    SumUpdate(s.workers, w, s.workers[w].(hand := Stopped), QuitRank);
  }

  lemma FeederNearer(c: Config, s: State, step: Step)
    requires Enabled(c, s, step) && (step.FeederCheck? || step.FeederDrop? || step.FeederQuit?)
    ensures var s' := Next(c, s, step);
            s'.running == s.running && FeederLeft(s'.feeder) < FeederLeft(s.feeder)
  {
  }

  lemma HaltingNone(s: State)
    requires Halting(s).None?
    ensures Halted(s)
  {
  }

  lemma InvSlots(c: Config, s: State, left: multiset<Hash>)
    requires Inv(c, s, left)
    ensures SlotsUsed(c, s)
  {
    hide SlotsUsed, Owned, LeftByQuitters, ClearedAbsent, WithinCapacity, Counted;
  }

  lemma {:induction false} Halt(c: Config, s: State, left: multiset<Hash>) returns (steps: seq<Step>)
    requires Inv(c, s, left) && s.cancelled
    ensures CanRun(c, s, steps) && Halted(RunFrom(c, s, steps))
    decreases |s.running|, Stage0(s), FeederLeft(s.feeder), Sum(s.workers, QuitRank)
  {
    hide Next, Enabled, Inv, Halting, Halted, Abandons;
    if Halting(s).None? {
      HaltingNone(s);
      steps := [];
    } else {
      var step := Halting(s).value;
      InvSlots(c, s, left);
      HaltingEnabled(c, s);
      HaltingStep(c, s);
      CancellationLasts(c, s, step);
      StepKeepsInv(c, s, step, left);
      var rest := Halt(c, Next(c, s, step), left + Abandons(s, step));
      RunStep(c, s, step, rest);
      steps := [step] + rest;
    }
  }

  /** After cancellation some run lets every job end and feeder and workers return. */
  lemma ComesToAHalt(c: Config, s0: State, steps: seq<Step>)
    requires Initial(c, s0) && CanRun(c, s0, steps) && RunFrom(c, s0, steps).cancelled
    ensures var s := RunFrom(c, s0, steps);
            exists more :: CanRun(c, s, more) && Halted(RunFrom(c, s, more))
  {
    hide CanRun, RunFrom, Inv, Halted;
    RunInv(c, s0, steps);
    var more := Halt(c, RunFrom(c, s0, steps), AbandonedIn(c, s0, steps));
    assert CanRun(c, RunFrom(c, s0, steps), more);
  }
}
