/** What the crawl pipeline carries: every item in it is one that was submitted, and
    every item past the feeder names a peer (internal/crawler/worker.go). */
module PipelineJobs {
  import opened DownloadQueue
  import opened Pipeline
  import opened PipelineSafety

  /** Items handed to Add or Submit in the steps. */
  function Submitted(steps: seq<Step>): set<Item> {
    set i | 0 <= i < |steps| && steps[i].AddMark? :: steps[i].item
  }

  predicate AddersCarry(s: State, items: set<Item>) {
    && (forall a | 0 <= a < |s.adders| && !s.adders[a].Idle? :: s.adders[a].item in items)
    && (forall i | 0 <= i < |s.q.items| :: s.q.items[i] in items)
    && (!s.feeder.Polling? && !s.feeder.Gone? ==> s.feeder.item in items)
  }

  /** The item was submitted with a peer address. */
  predicate Dispatched(item: Item, items: set<Item>) {
    item in items && item.peerAddr != []
  }

  predicate JobsCarry(s: State, items: set<Item>) {
    && (s.feeder.Ready? ==> s.feeder.item.peerAddr != [])
    && (forall i | 0 <= i < |s.jobs| :: Dispatched(s.jobs[i], items))
    && (forall w | 0 <= w < |s.workers| && s.workers[w].hand.Holding? ::
          Dispatched(s.workers[w].hand.item, items))
    && (forall j | 0 <= j < |s.running| :: Dispatched(s.running[j].item, items))
  }

  lemma StepKeepsAdders(c: Config, s: State, step: Step, items: set<Item>)
    requires Enabled(c, s, step) && AddersCarry(s, items)
    requires step.AddMark? ==> step.item in items
    ensures AddersCarry(Next(c, s, step), items)
  {
    if MovesJob(step) {
      JobStepShape(c, s, step);
    }
  }

  lemma StepKeepsJobs(c: Config, s: State, step: Step, items: set<Item>)
    requires Enabled(c, s, step) && AddersCarry(s, items) && JobsCarry(s, items)
    ensures JobsCarry(Next(c, s, step), items)
  {
    if MovesJob(step) {
      hide Next, Enabled;
      JobStepShape(c, s, step);
    }
  }

  lemma {:induction false} RunCarries(c: Config, s: State, steps: seq<Step>, items: set<Item>)
    requires CanRun(c, s, steps) && AddersCarry(s, items) && JobsCarry(s, items)
    requires Submitted(steps) <= items
    ensures JobsCarry(RunFrom(c, s, steps), items)
    decreases |steps|
  {
    hide Next, Enabled, AddersCarry, JobsCarry;
    if steps != [] {
      var s' := Next(c, s, steps[0]);
      assert steps[0].AddMark? ==> steps[0].item in Submitted(steps);
      StepKeepsAdders(c, s, steps[0], items);
      StepKeepsJobs(c, s, steps[0], items);
      SubmittedLater(steps);
      RunCarries(c, s', steps[1..], items);
    }
  }

  lemma SubmittedLater(steps: seq<Step>)
    requires steps != []
    ensures Submitted(steps[1..]) <= Submitted(steps)
  {
    var later := steps[1..];
    forall item | item in Submitted(later)
      ensures item in Submitted(steps)
    {
      var i :| 0 <= i < |later| && later[i].AddMark? && later[i].item == item;
      assert steps[i + 1] == later[i];
    }
  }

  /** In every run each running job works on an item exactly as it was submitted, and the
      item names a peer: the search for peers that `processJob` makes for a job without
      one is never reached. */
  lemma JobsWereSubmitted(c: Config, s0: State, steps: seq<Step>, j: nat)
    requires Initial(c, s0) && CanRun(c, s0, steps)
    requires j < |RunFrom(c, s0, steps).running|
    ensures Dispatched(RunFrom(c, s0, steps).running[j].item, Submitted(steps))
  {
    RunCarries(c, s0, steps, Submitted(steps));
  }
}
