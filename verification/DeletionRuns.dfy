/** Every interleaving of delete requests and deletion jobs, as steps: the
    critical sections of handleDelete, done and the queue
    (internal/api/deletions.go:132-224, internal/jobs/jobs.go:262-391). */
module DeletionRuns {
  import opened Sequences

  datatype Phase = Queued | Deleting(at: nat) | Clearing(at: nat) | Ended

  datatype Job = Job(keys: seq<string>, phase: Phase)

  datatype State = State(active: map<string, nat>, jobs: map<nat, Job>)

  /** Lose: the job's turn comes, but its record or its parameters cannot be read. */
  datatype Step =
    | Request(job: nat, keys: seq<string>)
    | Start(job: nat)
    | Delete(job: nat)
    | Leave(job: nat)
    | Clear(job: nat)
    | End(job: nat)
    | CancelQueued(job: nat)
    | Lose(job: nat)

  const INIT := State(map[], map[])

  ghost predicate Distinct(keys: seq<string>) { forall i, j :: 0 <= i < j < |keys| ==> keys[i] != keys[j] }

  predicate Busy(j: Job) { j.phase.Deleting? || j.phase.Clearing? }

  /** deletions.done. The code removes whatever is there; guarded, a job would
      remove only its own entry. */
  function Done(guarded: bool, active: map<string, nat>, key: string, job: nat): map<string, nat> {
    if guarded && key in active && active[key] != job then active else active - {key}
  }

  /** The map after a job was entered for the keys. */
  function Registered(active: map<string, nat>, keys: set<string>, job: nat): map<string, nat> {
    map k | k in active.Keys + keys :: if k in keys then job else active[k]
  }

  ghost predicate Enabled(s: State, step: Step) {
    match step
    case Request(j, keys) => j !in s.jobs && j > 0 && keys != [] && Distinct(keys) && forall k <- keys :: k !in s.active
    case Start(j) => j in s.jobs && s.jobs[j].phase.Queued? && forall i <- s.jobs :: !Busy(s.jobs[i])
    case Delete(j) => j in s.jobs && s.jobs[j].phase.Deleting? && s.jobs[j].phase.at < |s.jobs[j].keys|
    case Leave(j) => j in s.jobs && s.jobs[j].phase.Deleting?
    case Clear(j) => j in s.jobs && s.jobs[j].phase.Clearing? && s.jobs[j].phase.at < |s.jobs[j].keys|
    case End(j) => j in s.jobs && s.jobs[j].phase.Clearing? && s.jobs[j].phase.at == |s.jobs[j].keys|
    case CancelQueued(j) => j in s.jobs && s.jobs[j].phase.Queued?
    case Lose(j) => j in s.jobs && s.jobs[j].phase.Queued? && forall i <- s.jobs :: !Busy(s.jobs[i])
  }

  function To(s: State, j: nat, phase: Phase): State
    requires j in s.jobs
  {
    s.(jobs := s.jobs[j := s.jobs[j].(phase := phase)])
  }

  function Next(guarded: bool, s: State, step: Step): State
    requires Enabled(s, step)
  {
    match step
    case Request(j, keys) => State(Registered(s.active, Elements(keys), j), s.jobs[j := Job(keys, Queued)])
    case Start(j) => To(s, j, Deleting(0))
    case Delete(j) =>
      var at := s.jobs[j].phase.at;
      To(s, j, Deleting(at + 1)).(active := Done(guarded, s.active, s.jobs[j].keys[at], j))
    case Leave(j) => To(s, j, Clearing(0))
    case Clear(j) =>
      var at := s.jobs[j].phase.at;
      To(s, j, Clearing(at + 1)).(active := Done(guarded, s.active, s.jobs[j].keys[at], j))
    case End(j) => To(s, j, Ended)
    case CancelQueued(j) => To(s, j, Ended)
    case Lose(j) => To(s, j, Ended)
  }

  /** Job j still has to delete k. */
  ghost predicate Owes(s: State, j: nat, k: string) {
    && j in s.jobs
    && match s.jobs[j].phase
       case Queued => k in s.jobs[j].keys
       case Deleting(at) => exists i :: at <= i < |s.jobs[j].keys| && s.jobs[j].keys[i] == k
       case Clearing(_) => false
       case Ended => false
  }

  /** What a job still owes is registered as that job's. */
  ghost predicate Safe(s: State) { forall j, k :: Owes(s, j, k) ==> k in s.active && s.active[k] == j }

  ghost predicate WellFormed(s: State) { forall j <- s.jobs :: Distinct(s.jobs[j].keys) }

  /** The deferred done of a job removes the entry of a later one. */
  ghost predicate Drops(s: State, step: Step) {
    && Enabled(s, step) && step.Clear?
    && var k := s.jobs[step.job].keys[s.jobs[step.job].phase.at];
       k in s.active && s.active[k] != step.job && Owes(s, s.active[k], k)
  }

  ghost predicate Run(guarded: bool, ss: seq<State>, steps: seq<Step>) {
    && |ss| == |steps| + 1 && ss[0] == INIT
    && forall i :: 0 <= i < |steps| ==> Enabled(ss[i], steps[i]) && ss[i + 1] == Next(guarded, ss[i], steps[i])
  }

  /** One step of the code keeps the registry truthful exactly when it is not such
      a deferred done. */
  lemma StepSafeIff(s: State, step: Step)
    requires Safe(s) && WellFormed(s) && Enabled(s, step)
    ensures Safe(Next(false, s, step)) <==> !Drops(s, step)
  {
    var t := Next(false, s, step);
    if Drops(s, step) {
      var k := s.jobs[step.job].keys[s.jobs[step.job].phase.at];
      assert Owes(t, s.active[k], k) && k !in t.active;
    } else {
      forall j, k | Owes(t, j, k) ensures k in t.active && t.active[k] == j {
        StepOwes(false, s, step, j, k);
        if step.Delete? {
          var at := s.jobs[step.job].phase.at;
          assert Owes(s, step.job, s.jobs[step.job].keys[at]);
        }
        assert !step.Request? ==> Owes(s, j, k);
      }
    }
  }

  /** What is owed after a step was owed before, except by a new job. */
  lemma StepOwes(guarded: bool, s: State, step: Step, j: nat, k: string)
    requires WellFormed(s) && Enabled(s, step) && Owes(Next(guarded, s, step), j, k)
    ensures if step.Request? && step.job == j then k in step.keys else Owes(s, j, k)
    ensures step.Delete? && step.job == j ==> k != s.jobs[j].keys[s.jobs[j].phase.at]
  {}

  lemma GuardedStepSafe(s: State, step: Step)
    requires Safe(s) && WellFormed(s) && Enabled(s, step)
    ensures Safe(Next(true, s, step))
  {
    var t := Next(true, s, step);
    forall j, k | Owes(t, j, k) ensures k in t.active && t.active[k] == j {
      StepOwes(true, s, step, j, k);
    }
  }

  /** No object is owed by two jobs. */
  ghost predicate OneJobEach(s: State) { forall i, j, k :: Owes(s, i, k) && Owes(s, j, k) ==> i == j }

  /** If every done removed only its own job's entry, no object would ever be in two
      unfinished jobs; with the code's done that holds until a step drops an entry. */
  lemma {:induction false} RunsSafe(guarded: bool, ss: seq<State>, steps: seq<Step>)
    requires Run(guarded, ss, steps)
    requires guarded || forall i :: 0 <= i < |steps| ==> !Drops(ss[i], steps[i])
    ensures Safe(ss[|steps|]) && WellFormed(ss[|steps|]) && OneJobEach(ss[|steps|])
    decreases |steps|
  {
    if steps != [] {
      var n := |steps| - 1;
      RunsSafe(guarded, ss[..n + 1], steps[..n]);
      if guarded {
        GuardedStepSafe(ss[n], steps[n]);
      } else {
        StepSafeIff(ss[n], steps[n]);
      }
    }
  }

  // ---- what a dropped entry leads to ----

  lemma {:induction false} FreshJob(jobs: set<nat>) returns (j: nat)
    ensures j > 0 && j !in jobs && forall i <- jobs :: i < j
  {
    j := 1;
    if jobs != {} {
      var i :| i in jobs;
      var above := FreshJob(jobs - {i});
      j := if above > i then above else i + 1;
      assert jobs == jobs - {i} + {i};
    }
  }

  /** Two jobs owe an object, or the next request for it makes it so. */
  ghost predicate Exposed(s: State) {
    !OneJobEach(s) || exists j, k :: Enabled(s, Request(j, [k])) && !OneJobEach(Next(false, s, Request(j, [k])))
  }

  lemma SafeIsNotExposed(s: State)
    requires Safe(s) && WellFormed(s)
    ensures !Exposed(s)
  {
    forall j, k | Enabled(s, Request(j, [k])) ensures OneJobEach(Next(false, s, Request(j, [k]))) {
      StepSafeIff(s, Request(j, [k]));
    }
  }

  /** After a drop a request for the object is accepted, and makes a second job for it. */
  lemma DropExposes(s: State, step: Step, j: nat)
    requires Safe(s) && WellFormed(s) && Drops(s, step) && j > 0 && j !in s.jobs
    ensures var k, t := s.jobs[step.job].keys[s.jobs[step.job].phase.at], Next(false, s, step);
      && Enabled(t, Request(j, [k]))
      && Exposed(t)
      && var u := Next(false, t, Request(j, [k])); Owes(u, j, k) && Owes(u, s.active[k], k) && s.active[k] != j
  {
    var k, t := s.jobs[step.job].keys[s.jobs[step.job].phase.at], Next(false, s, step);
    var i := s.active[k];
    assert Owes(t, i, k);
    var u := Next(false, t, Request(j, [k]));
    assert u.jobs[i] == t.jobs[i];
    assert Owes(u, i, k);
    assert k in [k] && Owes(u, j, k);
    assert !OneJobEach(u);
  }

  lemma DropIsExposed(s: State, step: Step)
    requires Safe(s) && WellFormed(s) && Drops(s, step)
    ensures Exposed(Next(false, s, step))
  {
    var j := FreshJob(s.jobs.Keys);
    DropExposes(s, step, j);
  }

  ghost predicate NoDrops(ss: seq<State>, steps: seq<Step>)
    requires |ss| == |steps| + 1
  {
    forall i :: 0 <= i < |steps| ==> !Drops(ss[i], steps[i])
  }

  lemma SafeUpTo(ss: seq<State>, steps: seq<Step>, i: nat)
    requires Run(false, ss, steps) && i <= |steps|
    requires forall m :: 0 <= m < i ==> !Drops(ss[m], steps[m])
    ensures Safe(ss[i]) && WellFormed(ss[i])
  {
    RunsSafe(false, ss[..i + 1], steps[..i]);
  }

  lemma {:induction false} FirstDrop(ss: seq<State>, steps: seq<Step>, i: nat) returns (m: nat)
    requires Run(false, ss, steps) && i < |steps| && Drops(ss[i], steps[i])
    ensures m <= i && Drops(ss[m], steps[m]) && Safe(ss[m]) && WellFormed(ss[m])
  {
    m := i;
    if n: nat :| n < i && Drops(ss[n], steps[n]) {
      m := FirstDrop(ss, steps, n);
    } else {
      SafeUpTo(ss, steps, i);
    }
  }

  /** A run of the code stays safe exactly if no step of it drops an entry. */
  lemma RunSafeIff(ss: seq<State>, steps: seq<Step>)
    requires Run(false, ss, steps)
    ensures (forall i :: 0 <= i <= |steps| ==> Safe(ss[i])) <==> NoDrops(ss, steps)
  {
    if NoDrops(ss, steps) {
      forall i | 0 <= i <= |steps| ensures Safe(ss[i]) {
        SafeUpTo(ss, steps, i);
      }
    } else {
      var i :| 0 <= i < |steps| && Drops(ss[i], steps[i]);
      var m := FirstDrop(ss, steps, i);
      StepSafeIff(ss[m], steps[m]);
      assert ss[m + 1] == Next(false, ss[m], steps[m]) && !Safe(ss[m + 1]);
    }
  }

  /** No object is ever in two unfinished jobs, nor one request away from it, exactly
      if no step drops an entry. */
  lemma RunExposedIff(ss: seq<State>, steps: seq<Step>)
    requires Run(false, ss, steps)
    ensures (forall i :: 0 <= i <= |steps| ==> !Exposed(ss[i])) <==> NoDrops(ss, steps)
  {
    if NoDrops(ss, steps) {
      forall i | 0 <= i <= |steps| ensures !Exposed(ss[i]) {
        SafeUpTo(ss, steps, i);
        SafeIsNotExposed(ss[i]);
      }
    } else {
      var i :| 0 <= i < |steps| && Drops(ss[i], steps[i]);
      var m := FirstDrop(ss, steps, i);
      DropIsExposed(ss[m], steps[m]);
      assert ss[m + 1] == Next(false, ss[m], steps[m]);
    }
  }

  // ---- the code's run that goes wrong ----

  lemma OneStepMore(ss: seq<State>, steps: seq<Step>, step: Step) returns (next: seq<State>, all: seq<Step>)
    requires Run(false, ss, steps) && Enabled(ss[|steps|], step)
    ensures next == ss + [Next(false, ss[|steps|], step)] && all == steps + [step] && Run(false, next, all)
  {
    next, all := ss + [Next(false, ss[|steps|], step)], steps + [step];
  }

  lemma RegisteredTwo(a: string, b: string, job: nat)
    ensures Registered(map[], Elements([a, b]), job) == map[a := job, b := job]
  {
    assert forall k :: k in [a, b] <==> k in {a, b};
  }

  lemma FirstRequest(a: string, b: string)
    requires a != b
    ensures Enabled(INIT, Request(1, [a, b]))
    ensures Next(false, INIT, Request(1, [a, b])) == State(map[a := 1, b := 1], map[1 := Job([a, b], Queued)])
  {
    RegisteredTwo(a, b, 1);
  }

  /** Job 1 is to delete a and then b, and has deleted a. */
  lemma FirstDeleted(a: string, b: string) returns (ss: seq<State>, steps: seq<Step>)
    requires a != b
    ensures Run(false, ss, steps)
    ensures ss[|steps|] == State(map[b := 1], map[1 := Job([a, b], Deleting(1))])
  {
    FirstRequest(a, b);
    ss, steps := [INIT], [];
    ss, steps := OneStepMore(ss, steps, Request(1, [a, b]));
    ss, steps := OneStepMore(ss, steps, Start(1));
    ss, steps := OneStepMore(ss, steps, Delete(1));
    assert map[a := 1, b := 1] - {a} == map[b := 1];
  }

  /** While it deletes b, a is requested again (job 2). */
  lemma RequestedAgain(a: string, b: string) returns (ss: seq<State>, steps: seq<Step>)
    requires a != b
    ensures Run(false, ss, steps)
    ensures ss[|steps|] == State(map[a := 2], map[1 := Job([a, b], Clearing(0)), 2 := Job([a], Queued)])
  {
    ss, steps := FirstDeleted(a, b);
    ss, steps := OneStepMore(ss, steps, Request(2, [a]));
    ss, steps := BothDeleted(a, b, ss, steps);
  }

  lemma BothDeleted(a: string, b: string, ss: seq<State>, steps: seq<Step>) returns (next: seq<State>, all: seq<Step>)
    requires a != b && Run(false, ss, steps)
    requires ss[|steps|] == State(map[b := 1, a := 2], map[1 := Job([a, b], Deleting(1)), 2 := Job([a], Queued)])
    ensures Run(false, next, all)
    ensures next[|all|] == State(map[a := 2], map[1 := Job([a, b], Clearing(0)), 2 := Job([a], Queued)])
  {
    next, all := OneStepMore(ss, steps, Delete(1));
    assert map[b := 1, a := 2] - {b} == map[a := 2];
    next, all := OneStepMore(next, all, Leave(1));
    assert next[|all|].jobs == map[1 := Job([a, b], Clearing(0)), 2 := Job([a], Queued)];
  }

  /** The deferred done of job 1 drops that entry, and a third request makes job 3. */
  lemma TwoJobsForOneObject(a: string, b: string) returns (ss: seq<State>, steps: seq<Step>)
    requires a != b
    ensures Run(false, ss, steps)
    ensures Owes(ss[|steps|], 2, a) && Owes(ss[|steps|], 3, a)
  {
    ss, steps := RequestedAgain(a, b);
    ss, steps := OneStepMore(ss, steps, Clear(1));
    assert ss[|steps|].active == map[];
    ss, steps := OneStepMore(ss, steps, Request(3, [a]));
  }

  // ---- what an ended job leaves behind ----

  /** Job j will still run done on k. */
  ghost predicate WillClear(s: State, j: nat, k: string) {
    && j in s.jobs && k in s.jobs[j].keys
    && match s.jobs[j].phase
       case Queued => true
       case Deleting(_) => true
       case Clearing(at) => exists i :: at <= i < |s.jobs[j].keys| && s.jobs[j].keys[i] == k
       case Ended => false
  }

  /** Every entry belongs to a job that will still take it out. */
  ghost predicate Kept(s: State) { forall k <- s.active :: WillClear(s, s.active[k], k) }

  /** A waiting job that has an entry is cancelled, or its turn is lost. */
  ghost predicate Abandons(s: State, step: Step) {
    (step.CancelQueued? || step.Lose?) && exists k <- s.active :: s.active[k] == step.job
  }

  /** One step keeps that exactly if it does not end a waiting job that has an entry. */
  lemma StepKeptIff(guarded: bool, s: State, step: Step)
    requires Kept(s) && Enabled(s, step)
    ensures Kept(Next(guarded, s, step)) <==> !Abandons(s, step)
  {
    var t := Next(guarded, s, step);
    if Abandons(s, step) {
      var k :| k in s.active && s.active[k] == step.job;
      assert k in t.active && !WillClear(t, t.active[k], k);
    } else {
      forall k | k in t.active ensures WillClear(t, t.active[k], k) {
        if step.Request? && k in step.keys {
          assert t.active[k] == step.job;
        }
      }
    }
  }

  lemma {:induction false} KeptUpTo(guarded: bool, ss: seq<State>, steps: seq<Step>, i: nat)
    requires Run(guarded, ss, steps) && i <= |steps|
    requires forall m :: 0 <= m < i ==> !Abandons(ss[m], steps[m])
    ensures Kept(ss[i])
  {
    if i > 0 {
      KeptUpTo(guarded, ss, steps, i - 1);
      StepKeptIff(guarded, ss[i - 1], steps[i - 1]);
    }
  }

  ghost predicate NothingLeft(s: State) {
    forall k <- s.active :: s.active[k] in s.jobs && !s.jobs[s.active[k]].phase.Ended?
  }

  /** No ended job ever has an entry, exactly if no waiting job with an entry is cancelled or lost. */
  lemma NothingLeftIff(guarded: bool, ss: seq<State>, steps: seq<Step>)
    requires Run(guarded, ss, steps)
    ensures (forall i :: 0 <= i <= |steps| ==> NothingLeft(ss[i])) <==>
      forall i :: 0 <= i < |steps| ==> !Abandons(ss[i], steps[i])
  {
    if i :| 0 <= i < |steps| && Abandons(ss[i], steps[i]) {
      var k :| k in ss[i].active && ss[i].active[k] == steps[i].job;
      assert k in ss[i + 1].active && ss[i + 1].jobs[ss[i + 1].active[k]].phase.Ended?;
      assert !NothingLeft(ss[i + 1]);
    } else {
      forall i | 0 <= i <= |steps| ensures NothingLeft(ss[i]) {
        KeptUpTo(guarded, ss, steps, i);
        forall k | k in ss[i].active
          ensures ss[i].active[k] in ss[i].jobs && !ss[i].jobs[ss[i].active[k]].phase.Ended?
        {
          assert WillClear(ss[i], ss[i].active[k], k);
        }
      }
    }
  }

  // ---- a job cancelled while it waits ----

  /** k is registered to a job that ended, and no other job will take it out. */
  ghost predicate Stuck(s: State, j: nat, k: string) {
    && k in s.active && s.active[k] == j && j in s.jobs && s.jobs[j].phase.Ended?
    && forall i <- s.jobs :: i != j && !s.jobs[i].phase.Ended? ==> k !in s.jobs[i].keys
  }

  lemma StepStuck(guarded: bool, s: State, step: Step, j: nat, k: string)
    requires Stuck(s, j, k) && Enabled(s, step)
    ensures Stuck(Next(guarded, s, step), j, k)
    ensures step.Request? ==> k !in step.keys
  {
  }

  /** Cancelling a queued job leaves its objects registered: from then on no run
      takes them out and no request for them starts a job. */
  lemma {:induction false} CancelledStayRegistered(guarded: bool, s: State, job: nat, k: string, ss: seq<State>,
                                                   steps: seq<Step>)
    requires Enabled(s, CancelQueued(job)) && Safe(s) && k in s.jobs[job].keys
    requires forall i <- s.jobs :: i != job && !s.jobs[i].phase.Ended? ==> k !in s.jobs[i].keys
    requires |ss| == |steps| + 1 && ss[0] == Next(guarded, s, CancelQueued(job))
    requires forall i :: 0 <= i < |steps| ==> Enabled(ss[i], steps[i]) && ss[i + 1] == Next(guarded, ss[i], steps[i])
    ensures Stuck(ss[|steps|], job, k)
    ensures forall i :: 0 <= i < |steps| && steps[i].Request? ==> k !in steps[i].keys
    decreases |steps|
  {
    assert Owes(s, job, k);
    if steps != [] {
      var n := |steps| - 1;
      CancelledStayRegistered(guarded, s, job, k, ss[..n + 1], steps[..n]);
      StepStuck(guarded, ss[n], steps[n], job, k);
      assert forall i :: 0 <= i < n ==> steps[i] == steps[..n][i];
    }
  }

  /** Neither waiting nor ended. */
  predicate UnderWay(s: State, j: nat) { j in s.jobs && s.jobs[j].phase != Queued && s.jobs[j].phase != Ended }

  ghost predicate OneUnderWay(s: State) { forall i, j :: UnderWay(s, i) && UnderWay(s, j) ==> i == j }

  /** The queue runs one deletion job at a time. */
  lemma {:induction false} OneAtATime(guarded: bool, ss: seq<State>, steps: seq<Step>)
    requires Run(guarded, ss, steps)
    ensures OneUnderWay(ss[|steps|])
    decreases |steps|
  {
    if steps != [] {
      var n := |steps| - 1;
      OneAtATime(guarded, ss[..n + 1], steps[..n]);
      StepUnderWay(guarded, ss[n], steps[n]);
    }
  }

  lemma StepUnderWay(guarded: bool, s: State, step: Step)
    requires OneUnderWay(s) && Enabled(s, step)
    ensures OneUnderWay(Next(guarded, s, step))
  {
    var t := Next(guarded, s, step);
    forall i | UnderWay(t, i) ensures UnderWay(s, i) || (step.Start? && step.job == i) {}
    if step.Start? {
      forall i ensures !UnderWay(s, i) {}
    }
  }
}
