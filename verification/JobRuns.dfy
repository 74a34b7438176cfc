/** What holds in every run of the job queue, the tracker and the sound system that waits for them. */
module JobRuns {
  import opened JobSteps

  /** Between the loads nothing is left over: before a theme is unloaded, or jobs are started, no job is tracked. */
  predicate Quiet(phase: Phase) {
    phase == Idle || phase == LoadSoundEffects || phase == UnloadingActiveSoundTheme || phase == LoadActiveSoundTheme
  }

  /** The loader that this phase waits for is to be started, or was started and is not cancelled. */
  ghost predicate LoaderRuns(s: State) {
    || s.starting == [CacheAll]
    || (s.starting == [] && s.loader < |s.jobs| && s.jobs[s.loader].work == CacheAll && !s.jobs[s.loader].cancelled)
  }

  ghost predicate Phases(s: State) {
    && (Quiet(s.sound.phase) ==> s.outstanding == {} && s.starting == [] && s.adding == [])
    && (s.sound.phase != Phase.Cancel && s.sound.phase != Cancelling ==>
      forall id :: id in s.outstanding && id < |s.jobs| ==> !s.jobs[id].cancelled)
    && (s.sound.phase == LoadingSoundEffects ==> LoaderRuns(s))
  }

  ghost predicate Inv(s: State) {
    Placed(s) && Booked(s) && Progress(s) && Phases(s)
  }

  function Initial(resources: seq<Resource>): State {
    State(resources, [], {}, [], [], [], false, [], [], [], Sound(Idle, NoTheme, NoTheme), [], 0)
  }

  lemma {:induction false} InitialInv(resources: seq<Resource>)
    ensures Inv(Initial(resources))
  {
    var s := Initial(resources);
    assert s.jobs == [] && s.notifying + s.completed == [];
    assert Placed(s);
    assert Booked(s);
    assert Progress(s);
  }

  lemma {:induction false} SoundPhases(s: State)
    requires Inv(s) && Enabled(s, SoundUpdate)
    ensures Phases(SoundStep(s))
  {
    hide Booked, Placed, Progress;
  }

  lemma {:induction false} TrackPhases(s: State)
    requires Inv(s) && Enabled(s, Track)
    ensures Phases(TrackStep(s))
  {
  }

  lemma {:induction false} SpawnPhases(s: State, k: nat, i: nat)
    requires Inv(s) && k < |s.executing| && i < |s.resources|
    ensures Phases(SpawnStep(s, k, i))
  {
    var id, t := s.executing[k].id, SpawnStep(s, k, i);
    assert ThreadAt(s.jobs, s.executing[k]) && id in s.outstanding;
    assert forall j :: 0 <= j < |s.jobs| ==>
      t.jobs[j].work == s.jobs[j].work && t.jobs[j].cancelled == s.jobs[j].cancelled;
  }

  lemma {:induction false} WorkPhases(s: State, k: nat)
    requires Inv(s) && Enabled(s, Work(k))
    ensures Phases(WorkStep(s, k))
  {
    var e := s.executing[k];
    if e.at.Checked? {
      SpawnPhases(s, k, e.at.i);
    }
  }

  lemma {:induction false} PhasesKept(s: State, step: Step)
    requires Inv(s) && Enabled(s, step)
    ensures Phases(Next(s, step))
  {
    hide Booked, Placed, Progress, SoundStep, Tracked, WorkStep;
    match step
    case SoundUpdate => SoundPhases(s);
    case Track => TrackPhases(s);
    case Work(k) => WorkPhases(s, k);
    case _ =>
  }

  lemma {:induction false} InvKept(s: State, step: Step)
    requires Inv(s) && Enabled(s, step)
    ensures Inv(Next(s, step))
  {
    PlacedKept(s, step);
    BookedKept(s, step);
    ProgressKept(s, step);
    PhasesKept(s, step);
  }

  // ---------- runs ----------

  predicate IsRun(s: State, steps: seq<Step>)
    decreases |steps|
  {
    steps == [] || (Enabled(s, steps[0]) && IsRun(Next(s, steps[0]), steps[1..]))
  }

  function After(s: State, steps: seq<Step>): State
    requires IsRun(s, steps)
    decreases |steps|
  {
    if steps == [] then s else After(Next(s, steps[0]), steps[1..])
  }

  lemma {:induction false} RunKeeps(s: State, steps: seq<Step>)
    requires Inv(s) && IsRun(s, steps)
    ensures Inv(After(s, steps))
    decreases |steps|
  {
    if steps != [] {
      InvKept(s, steps[0]);
      RunKeeps(Next(s, steps[0]), steps[1..]);
    }
  }

  /** In every run from the start the invariant holds. */
  lemma {:induction false} EveryRun(resources: seq<Resource>, steps: seq<Step>)
    requires IsRun(Initial(resources), steps)
    ensures Inv(After(Initial(resources), steps))
  {
    InitialInv(resources);
    RunKeeps(Initial(resources), steps);
  }

  /** The bounds that steps ask for are always met: a step waits for nothing but its turn. */
  lemma {:induction false} BoundsHold(s: State, k: nat)
    requires Inv(s)
    ensures Enabled(s, Add) <==> s.adding != []
    ensures Enabled(s, Notify) <==> s.notifying != []
    ensures Enabled(s, Take) <==> !s.quit && s.queue != []
    ensures Enabled(s, Step.Work(k)) <==> k < |s.executing| && s.executing[k].at != Returned
    ensures Enabled(s, Complete(k)) <==> k < |s.executing| && s.executing[k].at == Returned
  {
    if s.notifying != [] {
      assert (s.notifying + s.completed)[0] == s.notifying[0];
    }
    if k < |s.executing| {
      assert ThreadAt(s.jobs, s.executing[k]) && ThreadProgress(s, s.executing[k]);
    }
  }

  /** A worker has a job in its hands. */
  predicate WorkerHolds(e: Exec, id: nat) {
    e.id == id || (e.at.Adding? && e.at.child == id)
  }

  /** A job is being started, in the queue, with a worker, completed, or about to be notified. */
  ghost predicate InHand(s: State, id: nat) {
    || id in s.adding || id in s.queue || id in s.notifying + s.completed
    || exists k :: 0 <= k < |s.executing| && WorkerHolds(s.executing[k], id)
  }

  /** A job in hand is tracked: the cache does not look idle while there is one. */
  lemma {:induction false} BusyIsSound(s: State, id: nat)
    requires Inv(s) && InHand(s, id)
    ensures id in s.outstanding && IsBusy(s)
  {
    if id in s.adding {
    } else if id in s.queue {
    } else if id in s.notifying + s.completed {
    } else {
      var k :| 0 <= k < |s.executing| && WorkerHolds(s.executing[k], id);
      assert ThreadAt(s.jobs, s.executing[k]);
    }
  }

  lemma {:induction false} DifferentOnce(ids: seq<nat>, id: nat)
    requires forall i, j :: 0 <= i < j < |ids| ==> ids[i] != ids[j]
    ensures multiset(ids)[id] == if id in ids then 1 else 0
  {
    if ids != [] {
      var n := |ids| - 1;
      assert ids == ids[..n] + [ids[n]];
      DifferentOnce(ids[..n], id);
    }
  }

  /** When the cache looks idle, every job ever tracked has been executed and then notified, once. */
  lemma {:induction false} IdleMeansFinished(s: State, id: nat)
    requires Inv(s) && !IsBusy(s) && id < |s.jobs|
    ensures s.jobs[id].returned && id in s.finished && multiset(s.finished)[id] == 1
  {
    DifferentOnce(s.finished, id);
  }

  /** OnFinished is called only for a job whose OnExecute has returned and that was not notified before. */
  lemma {:induction false} NotifiedOnceAfterExecute(s: State)
    requires Inv(s) && Enabled(s, Notify)
    ensures s.jobs[s.notifying[0]].returned && s.notifying[0] !in s.finished
  {
    assert (s.notifying + s.completed)[0] == s.notifying[0];
  }

  /** A job starts executing once: what a worker takes has not returned, and no worker has it. */
  lemma {:induction false} TakenOnce(s: State)
    requires Inv(s) && Enabled(s, Take)
    ensures !s.jobs[s.queue[0]].returned
    ensures forall k :: 0 <= k < |s.executing| ==> !WorkerHolds(s.executing[k], s.queue[0])
  {
    forall k | 0 <= k < |s.executing|
      ensures !WorkerHolds(s.executing[k], s.queue[0])
    {
      assert ThreadAt(s.jobs, s.executing[k]);
    }
  }

  /**
   Jobs are taken in the order in which they were queued, and notified in the order in which they were completed; a
   stop drops the queue.
   */
  lemma {:induction false} FirstComeFirstServed(s: State, step: Step)
    requires Enabled(s, step)
    ensures var t := Next(s, step); match step
      case Take => s.queue == [s.queue[0]] + t.queue && t.executing == s.executing + [Exec(s.queue[0], Looking(0))]
      case Stop => t.queue == [] && t.quit
      case _ => t.queue == s.queue || (|t.queue| == |s.queue| + 1 && t.queue[..|s.queue|] == s.queue && !s.quit)
    ensures var t := Next(s, step); match step
      case Complete(k) => t.completed == s.completed + [s.executing[k].id] && t.notifying == s.notifying
      case TakeCompleted => t.completed == [] && t.notifying == s.completed
      case Notify => s.notifying == [s.notifying[0]] + t.notifying && t.finished == s.finished + [s.notifying[0]]
      case _ => t.completed == s.completed && t.notifying == s.notifying && t.finished == s.finished
  {
  }

  /**
   The sound system leaves the phase in which it loads the sound effects only when every job, so also every job
   that a job started, is finished; unless the queue was stopped, each resident sound then had its own job.
   */
  lemma {:induction false} LeavesLoadingWhenLoaded(s: State)
    requires Inv(s) && Enabled(s, SoundUpdate) && s.sound.phase == LoadingSoundEffects
    ensures SoundStep(s).sound.phase != LoadingSoundEffects ==>
      && (forall id :: 0 <= id < |s.jobs| ==> s.jobs[id].returned && id in s.finished)
      && (s.quit || forall j :: 0 <= j < |s.resources| && s.resources[j].resident ==>
        HasChild(s, s.loader, s.resources[j].name))
  {
    if !IsBusy(s) {
      forall id | 0 <= id < |s.jobs|
        ensures s.jobs[id].returned && id in s.finished
      {
        IdleMeansFinished(s, id);
      }
      assert Ended(s, s.loader);
    }
  }

  /** A theme is unloaded, and jobs are started, only when all earlier jobs are finished. */
  lemma {:induction false} UnloadsWhenIdle(s: State, id: nat)
    requires Inv(s) && Quiet(s.sound.phase) && id < |s.jobs|
    ensures id in s.finished && s.executing == [] && s.queue == []
  {
    IdleMeansFinished(s, id);
    if s.queue != [] {
      BusyIsSound(s, s.queue[0]);
    }
    if s.executing != [] {
      assert WorkerHolds(s.executing[0], s.executing[0].id);
      BusyIsSound(s, s.executing[0].id);
    }
  }

  /** In every run from the start: while a job is anywhere it is outstanding, and the cache is busy. */
  lemma {:induction false} BusyInEveryRun(resources: seq<Resource>, steps: seq<Step>, id: nat)
    requires IsRun(Initial(resources), steps) && InHand(After(Initial(resources), steps), id)
    ensures var s := After(Initial(resources), steps); id in s.outstanding && IsBusy(s)
  {
    EveryRun(resources, steps);
    BusyIsSound(After(Initial(resources), steps), id);
  }

  /** In every run from the start: when the cache is not busy, every job was executed and then notified, once. */
  lemma {:induction false} IdleInEveryRun(resources: seq<Resource>, steps: seq<Step>, id: nat)
    requires IsRun(Initial(resources), steps)
    requires var s := After(Initial(resources), steps); !IsBusy(s) && id < |s.jobs|
    ensures var s := After(Initial(resources), steps);
      s.jobs[id].returned && id in s.finished && multiset(s.finished)[id] == 1
  {
    EveryRun(resources, steps);
    IdleMeansFinished(After(Initial(resources), steps), id);
  }
}
