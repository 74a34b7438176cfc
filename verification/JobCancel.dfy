/** What cancelling the jobs of the sound cache does, and what it comes too late for. */
module JobCancel {
  import opened JobSteps
  import opened JobRuns

  /** A worker has tested the flags for a job and will start another one for it. */
  predicate AtCheck(s: State, p: nat) {
    exists k :: 0 <= k < |s.executing| && s.executing[k].id == p && s.executing[k].at.Checked?
  }

  /** The jobs that a job has started, and the one that it can no longer be kept from starting. */
  function Starts(s: State, p: nat): nat
    requires p < |s.jobs|
  {
    |s.jobs[p].children| + if AtCheck(s, p) then 1 else 0
  }

  /** The worker that executes a job is the only one. */
  lemma {:induction false} OnlyThread(s: State, k: nat)
    requires Placed(s) && k < |s.executing|
    ensures AtCheck(s, s.executing[k].id) <==> s.executing[k].at.Checked?
  {
  }

  lemma {:induction false} WorkStarts(s: State, k: nat, p: nat)
    requires Placed(s) && Enabled(s, Step.Work(k)) && p < |s.jobs| && (s.jobs[p].cancelled || s.quit)
    ensures p < |WorkStep(s, k).jobs| && Starts(WorkStep(s, k), p) == Starts(s, p)
  {
    hide MainFree, Placed, ThreadAt, ThreadsAt;
    var e, t := s.executing[k], WorkStep(s, k);
    WorkPlaced(s, k);
    assert t.executing[k].id == e.id && |t.executing| == |s.executing|;
    if e.id == p {
      OnlyThread(s, k);
      OnlyThread(t, k);
    } else {
      assert t.jobs[p].children == s.jobs[p].children;
      assert forall l :: 0 <= l < |s.executing| && l != k ==> t.executing[l] == s.executing[l];
      assert AtCheck(t, p) <==> AtCheck(s, p);
    }
  }

  lemma {:induction false} CompleteStarts(s: State, k: nat, p: nat)
    requires Enabled(s, Complete(k)) && p < |s.jobs|
    ensures Starts(CompleteStep(s, k), p) == Starts(s, p)
  {
    var t := CompleteStep(s, k);
    forall l | 0 <= l < |s.executing| && s.executing[l].at.Checked?
      ensures s.executing[l] in t.executing
    {
      assert s.executing[l] == t.executing[if l < k then l else l - 1];
    }
    forall l | 0 <= l < |t.executing|
      ensures t.executing[l] in s.executing
    {
      assert t.executing[l] == s.executing[if l < k then l else l + 1];
    }
  }

  lemma {:induction false} TakeStarts(s: State, p: nat)
    requires Enabled(s, Take) && p < |s.jobs|
    ensures Starts(TakeStep(s), p) == Starts(s, p)
  {
    var t := TakeStep(s);
    assert forall l :: 0 <= l < |s.executing| ==> t.executing[l] == s.executing[l];
  }

  /** No step changes what a cancelled job starts in all, or any job once the queue is stopped. */
  lemma {:induction false} StepStarts(s: State, step: Step, p: nat)
    requires Placed(s) && Enabled(s, step) && p < |s.jobs| && (s.jobs[p].cancelled || s.quit)
    ensures var t := Next(s, step);
      p < |t.jobs| && (t.jobs[p].cancelled || t.quit) && Starts(t, p) == Starts(s, p)
  {
    match step
    case Work(k) => WorkStarts(s, k, p);
    case Complete(k) => CompleteStarts(s, k, p);
    case Take => TakeStarts(s, p);
    case _ =>
  }

  lemma {:induction false} RunStarts(s: State, steps: seq<Step>, p: nat)
    requires Inv(s) && IsRun(s, steps) && p < |s.jobs| && (s.jobs[p].cancelled || s.quit)
    ensures p < |After(s, steps).jobs| && Starts(After(s, steps), p) == Starts(s, p)
    decreases |steps|
  {
    if steps != [] {
      StepStarts(s, steps[0], p);
      InvKept(s, steps[0]);
      RunStarts(Next(s, steps[0]), steps[1..], p);
    }
  }

  /** Cancelling reaches every outstanding job. */
  lemma {:induction false} CancelReaches(s: State, id: nat)
    requires Inv(s) && Enabled(s, SoundUpdate) && s.sound.phase == Phase.Cancel && id in s.outstanding
    ensures var t := SoundStep(s);
      t.sound.phase == Cancelling && id in t.outstanding && id < |t.jobs| && t.jobs[id].cancelled
  {
  }

  /**
   What a job starts after it was cancelled, in every run until it has returned: one more job exactly when a
   worker was past the test of the flags for it, and no other.
   */
  lemma {:induction false} CancelledStarts(s: State, steps: seq<Step>, id: nat)
    requires Inv(s) && Enabled(s, SoundUpdate) && s.sound.phase == Phase.Cancel && id in s.outstanding
    requires IsRun(SoundStep(s), steps)
    ensures var u := After(SoundStep(s), steps);
      && id < |s.jobs| <= |u.jobs|
      && |u.jobs[id].children| <= |s.jobs[id].children| + (if AtCheck(s, id) then 1 else 0)
      && (u.jobs[id].returned ==> |u.jobs[id].children| == |s.jobs[id].children| + if AtCheck(s, id) then 1 else 0)
  {
    var t := SoundStep(s);
    CancelReaches(s, id);
    InvKept(s, SoundUpdate);
    RunStarts(t, steps, id);
    RunKeeps(t, steps);
    JobsStay(t, steps);
    var u := After(t, steps);
    if AtCheck(u, id) {
      var k :| 0 <= k < |u.executing| && u.executing[k].id == id && u.executing[k].at.Checked?;
      assert ThreadAt(u.jobs, u.executing[k]);
    }
  }

  /** What a job starts after the queue was stopped, in every run until it has returned: likewise. */
  lemma {:induction false} StoppedStarts(s: State, steps: seq<Step>, id: nat)
    requires Inv(s) && Enabled(s, Stop) && id < |s.jobs| && IsRun(Next(s, Stop), steps)
    ensures var u := After(Next(s, Stop), steps);
      && |s.jobs| <= |u.jobs|
      && |u.jobs[id].children| <= |s.jobs[id].children| + (if AtCheck(s, id) then 1 else 0)
      && (u.jobs[id].returned ==> |u.jobs[id].children| == |s.jobs[id].children| + if AtCheck(s, id) then 1 else 0)
  {
    var t := Next(s, Stop);
    InvKept(s, Stop);
    RunStarts(t, steps, id);
    RunKeeps(t, steps);
    JobsStay(t, steps);
    var u := After(t, steps);
    assert AtCheck(t, id) <==> AtCheck(s, id);
    if AtCheck(u, id) {
      var k :| 0 <= k < |u.executing| && u.executing[k].id == id && u.executing[k].at.Checked?;
      assert ThreadAt(u.jobs, u.executing[k]);
    }
  }

  /** After the queue was stopped it stays empty, and no worker takes a job, in every run. */
  lemma {:induction false} StoppedTakesNothing(s: State, steps: seq<Step>)
    requires s.quit && s.queue == [] && IsRun(s, steps)
    ensures After(s, steps).queue == [] && Take !in steps
    decreases |steps|
  {
    if steps != [] {
      var t := Next(s, steps[0]);
      assert t.quit && t.queue == [];
      StoppedTakesNothing(t, steps[1..]);
    }
  }

  /** What a stop leaves in the queue: nothing, for ever. */
  lemma {:induction false} StopEmpties(s: State, steps: seq<Step>)
    requires Enabled(s, Stop) && IsRun(Next(s, Stop), steps)
    ensures After(Next(s, Stop), steps).queue == [] && Take !in steps
  {
    StoppedTakesNothing(Next(s, Stop), steps);
  }

  lemma {:induction false} JobsStay(s: State, steps: seq<Step>)
    requires Inv(s) && IsRun(s, steps)
    ensures |s.jobs| <= |After(s, steps).jobs|
    decreases |steps|
  {
    if steps != [] {
      InvKept(s, steps[0]);
      NextGrows(s, steps[0]);
      JobsStay(Next(s, steps[0]), steps[1..]);
    }
  }

  /** A worker starts a job exactly in the step after its test of the flags; the new job is not cancelled. */
  lemma {:induction false} WorkerStartsAfterCheck(s: State, k: nat)
    requires Inv(s) && Enabled(s, Step.Work(k))
    ensures var e, t, n := s.executing[k], WorkStep(s, k), |s.jobs|;
      && (|t.jobs| != n <==> e.at.Checked?)
      && (e.at.Checked? ==> |t.jobs| == n + 1 && s.resources[e.at.i].resident)
      && (e.at.Checked? ==> t.jobs[e.id].children == s.jobs[e.id].children + [n])
      && (e.at.Checked? ==> t.jobs[n].work == CacheSound(s.resources[e.at.i].name) && !t.jobs[n].cancelled)
  {
    assert ThreadAt(s.jobs, s.executing[k]) && ThreadProgress(s, s.executing[k]);
  }

  // ---------- a cancel that comes too late ----------

  lemma {:induction false} RunOn(s: State, step: Step, rest: seq<Step>)
    requires Enabled(s, step) && IsRun(Next(s, step), rest)
    ensures IsRun(s, [step] + rest) && After(s, [step] + rest) == After(Next(s, step), rest)
  {
    assert ([step] + rest)[1..] == rest;
  }

  lemma {:induction false} RunUnfold(s: State, steps: seq<Step>, first: Step, rest: seq<Step>)
    requires steps == [first] + rest && Enabled(s, first) && IsRun(Next(s, first), rest)
    ensures IsRun(s, steps) && After(s, steps) == After(Next(s, first), rest)
  {
    RunOn(s, first, rest);
  }

  /** A new theme is asked for while the loader of all sounds is past its test of the flags for a resource. */
  const BEFORE_CANCEL := State(
    [Resource("a", true)], [Job(CacheAll, false, Executing, false, [])], {0}, [], [Exec(0, Checked(0))], [], false,
    [], [], [], Sound(LoadingSoundEffects, Theme([]), NoTheme), [], 0)

  /** The sound system waits for the loader of all sounds, which is to be started. */
  const LOADING := Initial([Resource("a", true)]).(
    sound := Sound(LoadingSoundEffects, Theme([]), NoTheme), starting := [CacheAll])

  lemma {:induction false} LoadingStarts()
    ensures var s, steps := Initial([Resource("a", true)]), [SetTheme(Theme([]))] + ([SoundUpdate] + [SoundUpdate]);
      IsRun(s, steps) && After(s, steps) == LOADING
  {
    var s0 := Initial([Resource("a", true)]);
    var s1 := Next(s0, SetTheme(Theme([])));
    var s2 := Next(s1, SoundUpdate);
    assert Next(s2, SoundUpdate) == LOADING;
    RunOn(s2, SoundUpdate, []);
    RunOn(s1, SoundUpdate, [SoundUpdate]);
    RunOn(s0, SetTheme(Theme([])), [SoundUpdate] + [SoundUpdate]);
  }

  lemma {:induction false} LoaderStarts()
    ensures var steps := [Track] + ([Add] + ([Take] + [Step.Work(0)]));
      IsRun(LOADING, steps) && After(LOADING, steps) == BEFORE_CANCEL
  {
    var s4 := Next(LOADING, Track);
    var s5 := Next(s4, Add);
    var s6 := Next(s5, Take);
    assert s6 == BEFORE_CANCEL.(executing := [Exec(0, Looking(0))]);
    RunOn(s6, Step.Work(0), []);
    RunOn(s5, Take, [Step.Work(0)]);
    RunOn(s4, Add, [Take] + [Step.Work(0)]);
    RunOn(LOADING, Track, [Add] + ([Take] + [Step.Work(0)]));
  }

  lemma {:induction false} RunConcat(s: State, a: seq<Step>, b: seq<Step>)
    requires IsRun(s, a) && IsRun(After(s, a), b)
    ensures IsRun(s, a + b) && After(s, a + b) == After(After(s, a), b)
    decreases |a|
  {
    hide Enabled, Next;
    if a == [] {
      assert a + b == b;
    } else {
      RunConcat(Next(s, a[0]), a[1..], b);
      RunUnfold(s, a + b, a[0], a[1..] + b);
    }
  }

  /** The state before the cancel is that of a run from the start. */
  lemma {:induction false} BeforeCancelIsReached() returns (steps: seq<Step>)
    ensures IsRun(Initial([Resource("a", true)]), steps)
    ensures After(Initial([Resource("a", true)]), steps) == BEFORE_CANCEL
  {
    var a, b := [SetTheme(Theme([]))] + ([SoundUpdate] + [SoundUpdate]), [Track] + ([Add] + ([Take] + [Step.Work(0)]));
    LoadingStarts();
    LoaderStarts();
    RunConcat(Initial([Resource("a", true)]), a, b);
    steps := a + b;
  }

  /** From there a request and the update that cancels; and still the cancelled loader starts a job, which is not. */
  lemma {:induction false} CancelTooLate()
    ensures var s := BEFORE_CANCEL;
      var steps := [SetTheme(Theme([])), SoundUpdate, Step.Work(0)];
      && IsRun(s, steps)
      && var u := After(s, steps);
         && u.sound.phase == Cancelling && |u.jobs| == 2 && u.jobs[0].cancelled && u.jobs[0].children == [1]
         && u.jobs[1].work == CacheSound("a") && !u.jobs[1].cancelled && 1 in u.outstanding
  {
    var s := BEFORE_CANCEL;
    var s1 := Next(s, SetTheme(Theme([])));
    var s2 := Next(s1, SoundUpdate);
    assert 0 in s1.outstanding && s2.jobs == [s.jobs[0].(cancelled := true)];
    RunOn(s2, Step.Work(0), []);
    RunOn(s1, SoundUpdate, [Step.Work(0)]);
    RunOn(s, SetTheme(Theme([])), [SoundUpdate] + [Step.Work(0)]);
    assert [SetTheme(Theme([]))] + ([SoundUpdate] + [Step.Work(0)]) == [SetTheme(Theme([])), SoundUpdate, Step.Work(0)];
  }
}
