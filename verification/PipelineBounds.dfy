/** Capacities and counters of the crawl pipeline in every interleaving, and the
    theorems about whole runs. */
module PipelineBounds {
  import opened Bytes
  import opened Bags
  import opened DownloadQueue
  import opened Pipeline
  import opened PipelineSafety

  function StageOf(j: Job): multiset<Stage> { multiset{j.stage} }

  function WorkerOf(j: Job): multiset<nat> { multiset{j.worker} }

  /** Number of jobs per stage. */
  function Stages(s: State): multiset<Stage> { Bag(s.running, StageOf) }

  /** Number of jobs per worker. */
  function Load(s: State): multiset<nat> { Bag(s.running, WorkerOf) }

  /** Queue, channel and search tokens stay within their capacities. */
  predicate WithinCapacity(c: Config, s: State) {
    && |s.q.items| <= c.QueueSize()
    && |s.jobs| <= c.JobSlots()
    && |s.adders| >= 1 && s.freeTokens + (|s.adders| - 1) == SEARCH_TOKENS
  }

  /** Each semaphore holds one token for each job of its worker. */
  predicate SlotsUsed(c: Config, s: State) {
    && |s.workers| == c.workers
    && (forall w | 0 <= w < c.workers :: s.workers[w].sem == Load(s)[w] <= c.perWorker)
    && forall w | w in Load(s) :: w < c.workers
  }

  /** The counters tell where the jobs are. */
  predicate Counted(s: State) {
    var n := Stages(s);
    && s.downloading == n[Downloading] + n[Inserted] + n[Unlisted] + n[Settled]
    && s.rowsAtStart + s.successes + n[Inserted] + n[Unlisted] == |s.torrents|
    && s.successes + s.failures + n[Spawned] + n[Downloading] + n[Inserted] + n[Unlisted] <= s.spawned
    && (!s.cancelled ==>
          s.successes + s.failures + n[Spawned] + n[Downloading] + n[Inserted] + n[Unlisted] == s.spawned)
  }

  function QuitOf(w: Worker): multiset<Hand> {
    if w.hand.Stopped? then multiset{Stopped} else multiset{}
  }

  /** Workers that have returned, and the feeder if it has. */
  function Quitters(s: State): nat {
    |Bag(s.workers, QuitOf)| + if s.feeder.Gone? then 1 else 0
  }

  /** Abandoned hashes were in the hands of those that have returned. */
  predicate LeftByQuitters(s: State, left: multiset<Hash>) {
    |left| <= Quitters(s) && (!s.cancelled ==> left == multiset{})
  }

  predicate Inv(c: Config, s: State, left: multiset<Hash>) {
    && Owned(s, left) && LeftByQuitters(s, left)
    && ClearedAbsent(s) && WithinCapacity(c, s) && SlotsUsed(c, s) && Counted(s)
  }

  // ---------------------------------------------------------------------
  // Steps keep the invariant
  // ---------------------------------------------------------------------

  lemma StepWithinCapacity(c: Config, s: State, step: Step)
    requires Enabled(c, s, step) && WithinCapacity(c, s)
    ensures WithinCapacity(c, Next(c, s, step))
  {
    if MovesJob(step) {
      JobStepShape(c, s, step);
    }
  }

  lemma SpawnUsesSlot(c: Config, s: State, w: nat)
    requires Enabled(c, s, WorkerSpawn(w)) && SlotsUsed(c, s)
    ensures SlotsUsed(c, Next(c, s, WorkerSpawn(w)))
  {
    hide Bag;
    BagAppend(s.running, Job(w, s.workers[w].hand.item, Spawned), WorkerOf);
  }

  lemma ReleaseFreesSlot(c: Config, s: State, j: nat)
    requires Enabled(c, s, JobRelease(j)) && SlotsUsed(c, s)
    ensures SlotsUsed(c, Next(c, s, JobRelease(j)))
  {
    hide Bag;
    BagWithout(s.running, j, WorkerOf);
    var s' := Next(c, s, JobRelease(j));
    assert s'.running == Without(s.running, j);
    var r := s.running[j].worker;
    assert Load(s) == Load(s') + multiset{r};
    forall w | 0 <= w < c.workers ensures s'.workers[w].sem == Load(s')[w] <= c.perWorker {
      assert Load(s)[w] == Load(s')[w] + multiset{r}[w];
    }
    forall w | w in Load(s') ensures w < c.workers {
      assert w in Load(s);
    }
  }

  lemma OthersKeepSlots(c: Config, s: State, step: Step)
    requires Enabled(c, s, step) && !MovesJob(step) && !step.WorkerSpawn? && !step.JobRelease?
    requires SlotsUsed(c, s)
    ensures SlotsUsed(c, Next(c, s, step))
  {
    hide Next, Enabled;
    var s' := Next(c, s, step);
    OthersKeepTokens(c, s, step);
    assert Load(s') == Load(s);
    forall w | 0 <= w < c.workers ensures s'.workers[w].sem == Load(s')[w] <= c.perWorker {
      assert s.workers[w].sem == Load(s)[w];
    }
  }

  lemma OthersKeepTokens(c: Config, s: State, step: Step)
    requires Enabled(c, s, step) && !MovesJob(step) && !step.WorkerSpawn? && !step.JobRelease?
    ensures var s' := Next(c, s, step);
            && s'.running == s.running && |s'.workers| == |s.workers|
            && forall w | 0 <= w < |s.workers| :: s'.workers[w].sem == s.workers[w].sem
  {
  }

  lemma JobStepKeepsSlots(c: Config, s: State, step: Step)
    requires Enabled(c, s, step) && MovesJob(step) && SlotsUsed(c, s)
    ensures SlotsUsed(c, Next(c, s, step))
  {
    hide Bag, Next, Enabled;
    JobStepShape(c, s, step);
    var job := s.running[step.j];
    BagUpdate(s.running, step.j, job.(stage := Target(step)), WorkerOf);
    assert Load(Next(c, s, step)) == Load(s);
  }

  lemma StepKeepsSlots(c: Config, s: State, step: Step)
    requires Enabled(c, s, step) && SlotsUsed(c, s)
    ensures SlotsUsed(c, Next(c, s, step))
  {
    hide SlotsUsed, Next, Enabled;
    if MovesJob(step) {
      JobStepKeepsSlots(c, s, step);
    } else {
      match step
      case WorkerSpawn(w) => SpawnUsesSlot(c, s, w);
      case JobRelease(j) => ReleaseFreesSlot(c, s, j);
      case _ => OthersKeepSlots(c, s, step);
    }
  }

  lemma SpawnCounted(c: Config, s: State, w: nat)
    requires Enabled(c, s, WorkerSpawn(w)) && Counted(s)
    ensures Counted(Next(c, s, WorkerSpawn(w)))
  {
    hide Bag;
    BagAppend(s.running, Job(w, s.workers[w].hand.item, Spawned), StageOf);
  }

  lemma ReleaseCounted(c: Config, s: State, j: nat)
    requires Enabled(c, s, JobRelease(j)) && Counted(s)
    ensures Counted(Next(c, s, JobRelease(j)))
  {
    hide Bag;
    BagWithout(s.running, j, StageOf);
  }

  lemma OthersCounted(c: Config, s: State, step: Step)
    requires Enabled(c, s, step) && !MovesJob(step) && !step.WorkerSpawn? && !step.JobRelease?
    requires Counted(s)
    ensures Counted(Next(c, s, step))
  {
    hide Bag;
    var s' := Next(c, s, step);
    assert s'.running == s.running && s'.torrents == s.torrents;
  }

  /** The row a job inserts is a new one. */
  lemma InsertIsNew(c: Config, s: State, step: Step)
    requires Enabled(c, s, step) && step.JobInsert? && ClearedAbsent(s)
    ensures s.running[step.j].item.infoHash !in s.torrents
  {
    var job := s.running[step.j];
    BagMember(s.running, step.j, ClearedJob);
    assert job.item.infoHash in ClearedJob(job);
  }

  lemma InsertAddsRow(c: Config, s: State, step: Step)
    requires Enabled(c, s, step) && step.JobInsert? && ClearedAbsent(s)
    ensures s.running[step.j].item.infoHash !in s.torrents
    ensures |Next(c, s, step).torrents| == |s.torrents| + 1
  {
    hide Next, ClearedAbsent;
    InsertIsNew(c, s, step);
    JobStepRows(c, s, step);
    assert Next(c, s, step).torrents.Keys == s.torrents.Keys + {s.running[step.j].item.infoHash};
  }

  /** Each job step moves one job from one stage to the next and adjusts one counter. */
  lemma JobStepCounters(c: Config, s: State, step: Step)
    requires Enabled(c, s, step) && MovesJob(step)
    ensures var s' := Next(c, s, step);
            && s'.downloading == s.downloading + (if step.JobStart? then 1 else 0)
                                               - (if step.JobLeave? then 1 else 0)
            && s'.successes == s.successes + (if step.JobSucceed? then 1 else 0)
            && s'.failures == s.failures + (if step.JobFail? then 1 else 0)
            && (step.JobAbort? ==> s.cancelled)
            && s.running[step.j].stage ==
               (match step
                case JobStart(_) => Spawned
                case JobDeleteHash(_) => Inserted
                case JobSucceed(_) => Unlisted
                case JobLeave(_) => Settled
                case JobComplete(_) => Leaving
                case _ => Downloading)
  {
  }

  /** A job step moves one job from its stage to the target stage. */
  lemma JobStepStages(c: Config, s: State, step: Step)
    requires Enabled(c, s, step) && MovesJob(step)
    ensures var old_ := s.running[step.j].stage;
            && Stages(s)[old_] >= 1 && old_ != Target(step)
            && Stages(Next(c, s, step))[old_] == Stages(s)[old_] - 1
            && Stages(Next(c, s, step))[Target(step)] == Stages(s)[Target(step)] + 1
            && forall x | x != old_ && x != Target(step) :: Stages(Next(c, s, step))[x] == Stages(s)[x]
  {
    hide Bag, Next, Enabled;
    JobStepShape(c, s, step);
    JobStepCounters(c, s, step);
    var job := s.running[step.j];
    BagUpdate(s.running, step.j, job.(stage := Target(step)), StageOf);
    assert Stages(Next(c, s, step)) == Stages(s) - multiset{job.stage} + multiset{Target(step)};
    assert multiset{job.stage} <= Stages(s);
  }

  lemma JobStepCounted(c: Config, s: State, step: Step)
    requires Enabled(c, s, step) && MovesJob(step) && Counted(s) && ClearedAbsent(s)
    ensures Counted(Next(c, s, step))
  {
    hide Stages, Next, Enabled, ClearedAbsent;
    JobStepShape(c, s, step);
    JobStepRows(c, s, step);
    JobStepCounters(c, s, step);
    JobStepStages(c, s, step);
    if step.JobInsert? {
      InsertAddsRow(c, s, step);
    }
  }

  lemma StepCounted(c: Config, s: State, step: Step)
    requires Enabled(c, s, step) && Counted(s) && ClearedAbsent(s)
    ensures Counted(Next(c, s, step))
  {
    hide Counted, Next, Enabled, ClearedAbsent;
    if MovesJob(step) {
      JobStepCounted(c, s, step);
    } else {
      match step
      case WorkerSpawn(w) => SpawnCounted(c, s, w);
      case JobRelease(j) => ReleaseCounted(c, s, j);
      case _ => OthersCounted(c, s, step);
    }
  }

  lemma CancellationLasts(c: Config, s: State, step: Step)
    requires Enabled(c, s, step)
    ensures s.cancelled ==> Next(c, s, step).cancelled
    ensures step.FeederQuit? || step.WorkerQuit? ==> s.cancelled
  {
  }

  lemma WorkerQuits(s: State, w: nat)
    requires w < |s.workers| && !s.workers[w].hand.Stopped?
    ensures |Bag(s.workers[w := s.workers[w].(hand := Stopped)], QuitOf)| == |Bag(s.workers, QuitOf)| + 1
  {
    hide Bag;
    var worker := s.workers[w].(hand := Stopped);
    BagUpdate(s.workers, w, worker, QuitOf);
    assert QuitOf(s.workers[w]) == multiset{} && QuitOf(worker) == multiset{Stopped};
  }

  lemma {:induction false} SameQuitters(workers: seq<Worker>, workers': seq<Worker>)
    requires |workers'| == |workers|
    requires forall w | 0 <= w < |workers| :: workers'[w].hand.Stopped? == workers[w].hand.Stopped?
    ensures Bag(workers', QuitOf) == Bag(workers, QuitOf)
  {
    if workers != [] {
      SameQuitters(workers[1..], workers'[1..]);
    }
  }

  lemma OthersKeepHands(c: Config, s: State, step: Step)
    requires Enabled(c, s, step) && !step.WorkerQuit?
    ensures var s' := Next(c, s, step);
            && |s'.workers| == |s.workers|
            && forall w | 0 <= w < |s.workers| :: s'.workers[w].hand.Stopped? == s.workers[w].hand.Stopped?
  {
  }

  lemma OthersKeepFeeder(c: Config, s: State, step: Step)
    requires Enabled(c, s, step) && !step.FeederQuit?
    ensures Next(c, s, step).feeder.Gone? <==> s.feeder.Gone?
  {
  }

  lemma StepLeaves(c: Config, s: State, step: Step, left: multiset<Hash>)
    requires Enabled(c, s, step) && LeftByQuitters(s, left)
    ensures LeftByQuitters(Next(c, s, step), left + Abandons(s, step))
  {
    CancellationLasts(c, s, step);
    if step.FeederQuit? || step.WorkerQuit? {
      hide Next, Enabled, Quitters, Abandons;
      QuitCounts(c, s, step);
    } else {
      hide Next, Enabled;
      OthersKeepHands(c, s, step);
      OthersKeepFeeder(c, s, step);
      SameQuitters(s.workers, Next(c, s, step).workers);
      assert left + Abandons(s, step) == left;
    }
  }

  lemma QuitCounts(c: Config, s: State, step: Step)
    requires Enabled(c, s, step) && (step.FeederQuit? || step.WorkerQuit?)
    ensures Quitters(Next(c, s, step)) == Quitters(s) + 1 && |Abandons(s, step)| <= 1
  {
    hide Bag, QuitOf;
    if step.WorkerQuit? {
      WorkerQuits(s, step.w);
    }
  }

  lemma StepKeepsInv(c: Config, s: State, step: Step, left: multiset<Hash>)
    requires Enabled(c, s, step) && Inv(c, s, left)
    ensures Inv(c, Next(c, s, step), left + Abandons(s, step)) && RowsKept(s, Next(c, s, step))
  {
    hide Next, Enabled, Owned, LeftByQuitters, ClearedAbsent, WithinCapacity, SlotsUsed, Counted, HandsOver,
      TreatsRows, RowsKept, Abandons;
    var s' := Next(c, s, step);
    StepHandsOver(c, s, step);
    HandOverKeepsOwned(s, s', left, Abandons(s, step));
    StepLeaves(c, s, step, left);
    StepTreatsRows(c, s, step);
    TreatmentKeepsRows(s, s', left);
    StepWithinCapacity(c, s, step);
    StepKeepsSlots(c, s, step);
    StepCounted(c, s, step);
  }

  lemma {:induction false} IdleBag(n: nat, w: Worker)
    requires w.hand == Receiving
    ensures Bag(seq(n, _ => w), OfWorker) == multiset{}
  {
    if n > 0 {
      IdleBag(n - 1, w);
      assert seq(n, _ => w)[1..] == seq(n - 1, _ => w);
    }
  }

  lemma InitialInv(c: Config, s: State)
    requires Initial(c, s)
    ensures Inv(c, s, multiset{})
  {
    hide QuitOf;
    IdleBag(c.workers, Worker(Receiving, 0));
    assert Bag([Idle], OfAdder) == multiset{};
  }

  /** Every state of every run satisfies the invariant, and no row that exists at some
      point of the run is changed or removed later. */
  lemma {:induction false} RunKeepsInv(c: Config, s: State, steps: seq<Step>, left: multiset<Hash>)
    requires Inv(c, s, left) && CanRun(c, s, steps)
    ensures Inv(c, RunFrom(c, s, steps), left + AbandonedIn(c, s, steps))
    ensures RowsKept(s, RunFrom(c, s, steps))
    decreases |steps|
  {
    hide Next, Enabled, Inv, Abandons;
    if steps == [] {
      assert left + multiset{} == left;
    } else {
      var s', gone := Next(c, s, steps[0]), Abandons(s, steps[0]);
      StepKeepsInv(c, s, steps[0], left);
      RunKeepsInv(c, s', steps[1..], left + gone);
      assert left + gone + AbandonedIn(c, s', steps[1..]) == left + (gone + AbandonedIn(c, s', steps[1..]));
    }
  }

  lemma RunInv(c: Config, s0: State, steps: seq<Step>)
    requires Initial(c, s0) && CanRun(c, s0, steps)
    ensures Inv(c, RunFrom(c, s0, steps), AbandonedIn(c, s0, steps))
  {
    hide Inv, CanRun, RunFrom, AbandonedIn;
    InitialInv(c, s0);
    RunKeepsInv(c, s0, steps, multiset{});
    assert multiset{} + AbandonedIn(c, s0, steps) == AbandonedIn(c, s0, steps);
  }

  // ---------------------------------------------------------------------
  // Theorems about whole runs
  // ---------------------------------------------------------------------

  /** In every state of every run the marks are the held hashes and the abandoned ones,
      each once.  So marks and holders agree exactly when nothing was abandoned, and
      nothing is before cancellation. */
  lemma MarksAreOwnership(c: Config, s0: State, steps: seq<Step>)
    requires Initial(c, s0) && CanRun(c, s0, steps)
    ensures var s, left := RunFrom(c, s0, steps), AbandonedIn(c, s0, steps);
            && multiset(s.q.inFlight) == Holders(s) + left
            && (Holders(s) == multiset(s.q.inFlight) <==> left == multiset{})
            && (!s.cancelled ==> left == multiset{})
            && (forall h :: Holders(s)[h] + left[h] <= 1)
  {
    hide Holders, AbandonedIn, CanRun, RunFrom, ClearedAbsent, WithinCapacity, SlotsUsed, Counted;
    RunInv(c, s0, steps);
    var s, left := RunFrom(c, s0, steps), AbandonedIn(c, s0, steps);
    forall h ensures Holders(s)[h] + left[h] <= 1 {
      assert multiset(s.q.inFlight)[h] == Holders(s)[h] + left[h];
    }
    if Holders(s) == multiset(s.q.inFlight) {
      assert |left| == 0;
    }
  }

  /** The job in hand can always be inserted without overwriting: the hash found absent
      by the feeder is still absent at the insert, in whatever state the run is. */
  lemma InsertNeverOverwrites(c: Config, s0: State, steps: seq<Step>, step: Step)
    requires Initial(c, s0) && CanRun(c, s0, steps)
    requires step.JobInsert? && Enabled(c, RunFrom(c, s0, steps), step)
    ensures var s := RunFrom(c, s0, steps);
            && s.running[step.j].item.infoHash !in s.torrents
            && |Next(c, s, step).torrents| == |s.torrents| + 1
  {
    hide CanRun, RunFrom, Next, Enabled, Owned, LeftByQuitters, WithinCapacity, SlotsUsed, Counted, ClearedAbsent;
    RunInv(c, s0, steps);
    InsertAddsRow(c, RunFrom(c, s0, steps), step);
  }

  /** A row, once stored, keeps its record for the rest of the run. */
  lemma RowsAreFinal(c: Config, s0: State, before: seq<Step>, after: seq<Step>)
    requires Initial(c, s0) && CanRun(c, s0, before)
    requires CanRun(c, RunFrom(c, s0, before), after)
    ensures RowsKept(RunFrom(c, s0, before), RunFrom(c, RunFrom(c, s0, before), after))
  {
    hide RowsKept, Inv, CanRun, RunFrom, AbandonedIn;
    RunInv(c, s0, before);
    RunKeepsInv(c, RunFrom(c, s0, before), after, AbandonedIn(c, s0, before));
  }

  /** Rows added are the successes plus the jobs between insert and count; finished
      jobs are successes plus failures. */
  lemma CountersAgree(c: Config, s0: State, steps: seq<Step>)
    requires Initial(c, s0) && CanRun(c, s0, steps)
    ensures var s := RunFrom(c, s0, steps);
            var n := Stages(s);
            && |s.torrents| == |s0.torrents| + s.successes + n[Inserted] + n[Unlisted]
            && (!s.cancelled ==>
                  s.successes + s.failures == s.spawned - n[Spawned] - n[Downloading] - n[Inserted] - n[Unlisted])
  {
    hide Owned, LeftByQuitters, ClearedAbsent, WithinCapacity, SlotsUsed;
    RunInv(c, s0, steps);
    RowsAtStartFixed(c, s0, steps);
  }

  lemma {:induction false} RowsAtStartFixed(c: Config, s: State, steps: seq<Step>)
    requires CanRun(c, s, steps)
    ensures RunFrom(c, s, steps).rowsAtStart == s.rowsAtStart
    decreases |steps|
  {
    if steps != [] {
      StepRowsAtStart(c, s, steps[0]);
      RowsAtStartFixed(c, Next(c, s, steps[0]), steps[1..]);
    }
  }

  lemma StepRowsAtStart(c: Config, s: State, step: Step)
    requires Enabled(c, s, step)
    ensures Next(c, s, step).rowsAtStart == s.rowsAtStart
  {
  }

  /** With N workers of P slots: at most NP jobs run or download, a semaphore always has
      a token for a job to give back, and at most 4NP + N + 12 hashes are in flight, even
      after cancellation. */
  lemma Capacities(c: Config, s0: State, steps: seq<Step>)
    requires Initial(c, s0) && CanRun(c, s0, steps)
    ensures var s := RunFrom(c, s0, steps);
            var np := c.workers * c.perWorker;
            && |s.q.items| <= 2 * np
            && |s.running| <= np && s.downloading <= np
            && s.freeTokens + (|s.adders| - 1) == SEARCH_TOKENS
            && |s.q.inFlight| <= 4 * np + c.workers + 12
            && (forall j | 0 <= j < |s.running| :: s.running[j].stage == Released ==> Enabled(c, s, JobRelease(j)))
  {
    hide CanRun, RunFrom, AbandonedIn, Quitters, Holders, ClearedAbsent, Counted, SlotsUsed;
    RunInv(c, s0, steps);
    var s := RunFrom(c, s0, steps);
    RunningBound(c, s);
    DownloadingBound(s);
    HoldersBound(c, s);
    SetSize(s.q.inFlight);
    assert |s.q.inFlight| == |Holders(s)| + |AbandonedIn(c, s0, steps)|;
    forall j | 0 <= j < |s.running| && s.running[j].stage == Released
      ensures Enabled(c, s, JobRelease(j))
    {
      TokenToGiveBack(c, s, j);
    }
  }

  lemma SetSize(marks: set<Hash>)
    ensures |multiset(marks)| == |marks|
  {
  }

  lemma TokenToGiveBack(c: Config, s: State, j: nat)
    requires SlotsUsed(c, s) && j < |s.running|
    ensures s.running[j].worker < |s.workers| && s.workers[s.running[j].worker].sem > 0
  {
    BagMember(s.running, j, WorkerOf);
    var w := s.running[j].worker;
    assert w in WorkerOf(s.running[j]);
    assert w in Load(s);
  }

  lemma RunningBound(c: Config, s: State)
    requires SlotsUsed(c, s)
    ensures |s.running| <= c.workers * c.perWorker
  {
    BagSizeExact(s.running, WorkerOf);
    BoundedMultiset(Load(s), c.workers, c.perWorker);
  }

  lemma DownloadingBound(s: State)
    requires Counted(s)
    ensures s.downloading <= |s.running|
  {
    hide Bag;
    BagSizeExact(s.running, StageOf);
    var n := Stages(s);
    var part := multiset{}[Downloading := n[Downloading]][Inserted := n[Inserted]]
                          [Unlisted := n[Unlisted]][Settled := n[Settled]];
    assert part <= n;
    assert n == part + (n - part);
    assert |part| == n[Downloading] + n[Inserted] + n[Unlisted] + n[Settled];
  }

  /** A worker that has returned has nothing in its hand. */
  lemma {:induction false} HandsBound(workers: seq<Worker>)
    ensures |Bag(workers, OfWorker)| + |Bag(workers, QuitOf)| <= |workers|
  {
    if workers != [] {
      HandsBound(workers[1..]);
    }
  }

  lemma HoldersBound(c: Config, s: State)
    requires WithinCapacity(c, s) && SlotsUsed(c, s)
    ensures |Holders(s)| + Quitters(s) <= 4 * (c.workers * c.perWorker) + c.workers + 12
  {
    hide Bag;
    BagSize(s.adders, OfAdder);
    BagSize(s.q.items, OfItem);
    BagSize(s.jobs, OfItem);
    HandsBound(s.workers);
    BagSize(s.running, OfJob);
    RunningBound(c, s);
  }

  // ---------------------------------------------------------------------
  // Runs that show the edges
  // ---------------------------------------------------------------------

  lemma RunStep(c: Config, s: State, step: Step, rest: seq<Step>)
    requires Enabled(c, s, step) && CanRun(c, Next(c, s, step), rest)
    ensures CanRun(c, s, [step] + rest)
    ensures RunFrom(c, s, [step] + rest) == RunFrom(c, Next(c, s, step), rest)
    ensures AbandonedIn(c, s, [step] + rest) == Abandons(s, step) + AbandonedIn(c, Next(c, s, step), rest)
  {
    assert ([step] + rest)[1..] == rest;
  }

  lemma {:induction false} RunConcat(c: Config, s: State, a: seq<Step>, b: seq<Step>)
    requires CanRun(c, s, a) && CanRun(c, RunFrom(c, s, a), b)
    ensures CanRun(c, s, a + b) && RunFrom(c, s, a + b) == RunFrom(c, RunFrom(c, s, a), b)
    ensures AbandonedIn(c, s, a + b) == AbandonedIn(c, s, a) + AbandonedIn(c, RunFrom(c, s, a), b)
    decreases |a|
  {
    hide Next, Enabled, Abandons;
    if a == [] {
      assert a + b == b;
    } else {
      RunConcat(c, Next(c, s, a[0]), a[1..], b);
      assert (a + b)[1..] == a[1..] + b;
    }
  }

  /** The steps of one Add, run without interruption. */
  function AddSteps(c: Config, s: State, a: nat, item: Item): seq<Step> {
    if item.infoHash in s.q.inFlight then [AddMark(a, item)]
    else if |s.q.items| < c.QueueSize() then [AddMark(a, item), AddCheck(a)]
    else [AddMark(a, item), AddCheck(a), AddUnmark(a)]
  }

  /** They have together the effect of DownloadQueue.Add. */
  lemma AddAlone(c: Config, s: State, a: nat, item: Item)
    requires a < |s.adders| && s.adders[a].Idle?
    ensures CanRun(c, s, AddSteps(c, s, a, item))
    ensures RunFrom(c, s, AddSteps(c, s, a, item)) == s.(q := s.q.Added(item, c.QueueSize()).0)
    ensures AbandonedIn(c, s, AddSteps(c, s, a, item)) == multiset{}
  {
    var s1 := Next(c, s, AddMark(a, item));
    if item.infoHash in s.q.inFlight {
      RunStep(c, s, AddMark(a, item), []);
    } else {
      AddRest(c, s, s1, a, item);
      RunStep(c, s, AddMark(a, item), AddSteps(c, s, a, item)[1..]);
      assert [AddMark(a, item)] + AddSteps(c, s, a, item)[1..] == AddSteps(c, s, a, item);
    }
  }

  lemma AddRest(c: Config, s: State, s1: State, a: nat, item: Item)
    requires a < |s.adders| && s.adders[a].Idle? && item.infoHash !in s.q.inFlight
    requires s1 == s.(q := s.q.Mark(item.infoHash).0, adders := s.adders[a := Marked(item)])
    ensures var rest := AddSteps(c, s, a, item)[1..];
            && CanRun(c, s1, rest) && AbandonedIn(c, s1, rest) == multiset{}
            && RunFrom(c, s1, rest) == s.(q := s.q.Added(item, c.QueueSize()).0)
  {
    var s2 := Next(c, s1, AddCheck(a));
    if |s.q.items| < c.QueueSize() {
      assert s2.adders == s.adders;
      RunStep(c, s1, AddCheck(a), []);
    } else {
      var s3 := Next(c, s2, AddUnmark(a));
      assert s3.adders == s.adders && s3.q.inFlight == s.q.inFlight;
      RunStep(c, s2, AddUnmark(a), []);
      RunStep(c, s1, AddCheck(a), [AddUnmark(a)]);
    }
  }

  /** A submitted item on its way to the jobs channel. */
  function ToFeeder(item: Item): seq<Step> {
    [AddMark(0, item), AddCheck(0)] + [FeederGet, FeederCheck(false)]
  }

  function ReadyState(s0: State, item: Item): State {
    s0.(q := Queue([], {item.infoHash}), feeder := Ready(item))
  }

  lemma FeederTakes(c: Config, s: State, item: Item)
    requires s.feeder == Polling && s.q == Queue([item], {item.infoHash})
    requires item.peerAddr != [] && item.infoHash !in s.torrents
    ensures var steps := [FeederGet, FeederCheck(false)];
            && CanRun(c, s, steps) && AbandonedIn(c, s, steps) == multiset{}
            && RunFrom(c, s, steps) == ReadyState(s, item)
  {
    var s1 := Next(c, s, FeederGet);
    RunStep(c, s1, FeederCheck(false), []);
    RunStep(c, s, FeederGet, [FeederCheck(false)]);
  }

  lemma ReachesFeeder(c: Config, s0: State, item: Item)
    requires s0.q == Queue([], {}) && s0.adders != [] && s0.adders[0].Idle? && s0.feeder == Polling
    requires c.QueueSize() > 0
    requires item.peerAddr != [] && item.infoHash !in s0.torrents
    ensures CanRun(c, s0, ToFeeder(item)) && AbandonedIn(c, s0, ToFeeder(item)) == multiset{}
    ensures RunFrom(c, s0, ToFeeder(item)) == ReadyState(s0, item)
  {
    hide Next, Enabled, CanRun, RunFrom, AbandonedIn;
    AddAlone(c, s0, 0, item);
    assert s0.q.Added(item, c.QueueSize()).0 == Queue([item], {item.infoHash});
    var queued := s0.(q := Queue([item], {item.infoHash}));
    FeederTakes(c, queued, item);
    RunConcat(c, s0, [AddMark(0, item), AddCheck(0)], [FeederGet, FeederCheck(false)]);
  }

  /** The feeder returns with an item it has found absent. */
  lemma FeederAbandons(c: Config, s: State, item: Item)
    requires s.feeder == Ready(item)
    ensures CanRun(c, s, [Cancel, FeederQuit])
    ensures AbandonedIn(c, s, [Cancel, FeederQuit]) == multiset{item.infoHash}
  {
    var s1 := Next(c, s, Cancel);
    RunStep(c, s1, FeederQuit, []);
    RunStep(c, s, Cancel, [FeederQuit]);
  }

  /** A worker returns while it waits for a place in its semaphore. */
  lemma WorkerAbandons(c: Config, s: State, item: Item)
    requires s.feeder == Ready(item) && s.jobs == [] && s.workers != [] && s.workers[0].hand.Receiving?
    ensures var steps := [FeederHandOver(0), Cancel, WorkerQuit(0)];
            CanRun(c, s, steps) && AbandonedIn(c, s, steps) == multiset{item.infoHash}
  {
    var s1 := Next(c, s, FeederHandOver(0));
    assert s1.workers != [] && s1.workers[0].hand == Holding(item);
    hide Next, CanRun, AbandonedIn;
    WorkerLetsGo(c, s1, item);
    RunStep(c, s, FeederHandOver(0), [Cancel, WorkerQuit(0)]);
  }

  lemma WorkerLetsGo(c: Config, s: State, item: Item)
    requires s.workers != [] && s.workers[0].hand == Holding(item)
    ensures CanRun(c, s, [Cancel, WorkerQuit(0)])
    ensures AbandonedIn(c, s, [Cancel, WorkerQuit(0)]) == multiset{item.infoHash}
  {
    var s1 := Next(c, s, Cancel);
    RunStep(c, s1, WorkerQuit(0), []);
    RunStep(c, s, Cancel, [WorkerQuit(0)]);
  }

  /** Both happen: from any start with room for a job there is a run after which the
      feeder, and one after which a worker, has left a mark behind. */
  lemma MarksOutliveCancellation(c: Config, s0: State, item: Item)
    requires Initial(c, s0) && c.workers > 0 && c.perWorker > 0
    requires item.peerAddr != [] && item.infoHash !in s0.torrents
    ensures var steps := ToFeeder(item) + [Cancel, FeederQuit];
            CanRun(c, s0, steps) && AbandonedIn(c, s0, steps) == multiset{item.infoHash}
    ensures var steps := ToFeeder(item) + [FeederHandOver(0), Cancel, WorkerQuit(0)];
            CanRun(c, s0, steps) && AbandonedIn(c, s0, steps) == multiset{item.infoHash}
  {
    hide Next, Enabled, CanRun, RunFrom, AbandonedIn, ToFeeder;
    assert c.QueueSize() > 0;
    ReachesFeeder(c, s0, item);
    FeederAbandons(c, ReadyState(s0, item), item);
    WorkerAbandons(c, ReadyState(s0, item), item);
    RunConcat(c, s0, ToFeeder(item), [Cancel, FeederQuit]);
    RunConcat(c, s0, ToFeeder(item), [FeederHandOver(0), Cancel, WorkerQuit(0)]);
  }
}
