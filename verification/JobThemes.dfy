/** The sounds of a theme: when the sound system is idle again, each has had a job that ran and was notified. */
module JobThemes {
  import opened JobSteps
  import opened JobRuns

  /** The sounds of a theme; no theme has none. */
  function Names(theme: Theme): seq<string> {
    if theme == NoTheme then [] else theme.names
  }

  /**
   The jobs from `base` on, and then those still to be started, cache the sounds of the active theme in order;
   all jobs before them are finished.
   */
  ghost predicate ThemeStarted(s: State, base: nat) {
    var names := Names(s.sound.active);
    && base <= |s.jobs| && |s.jobs| - base + |s.starting| == |names|
    && (forall id :: 0 <= id < base ==> s.jobs[id].place == Finished)
    && (forall j :: base <= j < |s.jobs| ==> s.jobs[j].work == CacheSound(names[j - base]))
    && (forall j :: 0 <= j < |s.starting| ==> s.starting[j] == CacheSound(names[|s.jobs| - base + j]))
  }

  /** A job that cached the sound has returned and was notified. */
  ghost predicate Cached(s: State, name: string) {
    exists id :: id in s.finished && id < |s.jobs| && s.jobs[id].work == CacheSound(name) && s.jobs[id].returned
  }

  ghost predicate Themes(s: State) {
    && (s.sound.phase == LoadingActiveSoundTheme ==> exists base :: ThemeStarted(s, base))
    && (s.sound.phase == Idle ==> forall name :: name in Names(s.sound.active) ==> Cached(s, name))
  }

  /** Before the jobs of the theme are started, every job is finished. */
  lemma {:induction false} ThemeStarts(s: State)
    requires Inv(s) && Enabled(s, SoundUpdate) && s.sound.phase == LoadActiveSoundTheme
    ensures Themes(SoundStep(s))
  {
    assert ThemeStarted(SoundStep(s), |s.jobs|);
  }

  /** When the cache is not busy, the jobs of the theme are finished. */
  lemma {:induction false} ThemeEnds(s: State)
    requires Inv(s) && Themes(s) && Enabled(s, SoundUpdate) && s.sound.phase == LoadingActiveSoundTheme
    ensures Themes(SoundStep(s))
  {
    var t := SoundStep(s);
    var base: nat :| ThemeStarted(s, base);
    if IsBusy(s) {
      assert ThemeStarted(t, base);
    } else {
      forall name | name in Names(s.sound.active)
        ensures Cached(t, name)
      {
        var i :| 0 <= i < |Names(s.sound.active)| && Names(s.sound.active)[i] == name;
        assert t.jobs[base + i].work == CacheSound(name);
        IdleMeansFinished(s, base + i);
      }
    }
  }

  lemma {:induction false} SoundThemes(s: State)
    requires Inv(s) && Themes(s) && Enabled(s, SoundUpdate)
    ensures Themes(SoundStep(s))
  {
    hide Inv;
    if s.sound.phase == LoadActiveSoundTheme {
      ThemeStarts(s);
    } else if s.sound.phase == LoadingActiveSoundTheme {
      ThemeEnds(s);
    } else if s.sound.phase == Idle {
      CachedStays(s, SoundStep(s));
    }
  }

  lemma {:induction false} TrackThemes(s: State, base: nat)
    requires ThemeStarted(s, base) && Enabled(s, Track)
    ensures ThemeStarted(TrackStep(s), base)
  {
  }

  /** No worker starts a job for a theme. */
  lemma {:induction false} WorkThemes(s: State, k: nat, base: nat)
    requires Inv(s) && ThemeStarted(s, base) && Enabled(s, Step.Work(k))
    ensures ThemeStarted(WorkStep(s, k), base)
  {
    hide Booked, Phases;
    var e, t := s.executing[k], WorkStep(s, k);
    assert ThreadAt(s.jobs, e) && ThreadProgress(s, e);
    assert e.id >= base && s.jobs[e.id].work != CacheAll;
    assert forall j :: 0 <= j < base ==> t.jobs[j].place == Finished;
  }

  /** A step that tracks no job leaves the finished ones finished. */
  lemma {:induction false} OtherThemes(s: State, t: State, base: nat)
    requires ThemeStarted(s, base) && Grows(s, t) && |t.jobs| == |s.jobs|
    requires t.starting == s.starting && t.sound.active == s.sound.active
    requires forall id :: 0 <= id < |s.jobs| && s.jobs[id].place == Finished ==> t.jobs[id].place == Finished
    ensures ThemeStarted(t, base)
  {
  }

  lemma {:induction false} FinishedStays(s: State, step: Step)
    requires Inv(s) && Enabled(s, step) && !step.Work? && !step.Track? && !step.SoundUpdate?
    ensures var t := Next(s, step);
      && |t.jobs| == |s.jobs|
      && forall id :: 0 <= id < |s.jobs| && s.jobs[id].place == Finished ==> t.jobs[id].place == Finished
  {
    hide Booked, Phases, Progress, SetMusicTheme;
  }

  lemma {:induction false} CachedStays(s: State, t: State)
    requires Grows(s, t) && s.finished <= t.finished
    requires forall id :: 0 <= id < |s.jobs| && s.jobs[id].returned ==> t.jobs[id].returned
    ensures forall name :: Cached(s, name) ==> Cached(t, name)
  {
    forall name | Cached(s, name)
      ensures Cached(t, name)
    {
      var id :| id in s.finished && id < |s.jobs| && s.jobs[id].work == CacheSound(name) && s.jobs[id].returned;
      assert t.finished[..|s.finished|] == s.finished;
      assert id in t.finished;
    }
  }

  lemma {:induction false} FinishedGrows(s: State, step: Step)
    requires Inv(s) && Enabled(s, step)
    ensures var t := Next(s, step);
      && s.finished <= t.finished && |s.jobs| <= |t.jobs|
      && forall id :: 0 <= id < |s.jobs| && s.jobs[id].returned ==> t.jobs[id].returned
  {
    hide Booked, Phases, Placed, Progress, SetMusicTheme, Update, WorkStep, CompleteStep;
    match step
    case Work(k) => WorkFinished(s, k);
    case Complete(k) => CompleteFinished(s, k);
    case _ =>
  }

  lemma {:induction false} WorkFinished(s: State, k: nat)
    requires Enabled(s, Step.Work(k))
    ensures var t := WorkStep(s, k);
      && t.finished == s.finished && |s.jobs| <= |t.jobs|
      && forall id :: 0 <= id < |s.jobs| ==> t.jobs[id].returned == s.jobs[id].returned
  {
    hide MainFree;
  }

  lemma {:induction false} CompleteFinished(s: State, k: nat)
    requires Enabled(s, Complete(k))
    ensures var t := CompleteStep(s, k);
      && t.finished == s.finished && |t.jobs| == |s.jobs|
      && forall id :: 0 <= id < |s.jobs| && s.jobs[id].returned ==> t.jobs[id].returned
  {
  }

  /** Only an update of the sound system takes it into one of the two phases, or gives it another theme. */
  lemma {:induction false} PhaseStays(s: State, step: Step)
    requires Enabled(s, step) && !step.SoundUpdate?
    ensures var a, b := s.sound, Next(s, step).sound;
      b.active == a.active && (b.phase == a.phase || (b.phase != LoadingActiveSoundTheme && b.phase != Idle))
    ensures !step.Track? && !step.SoundUpdate? ==> Next(s, step).starting == s.starting
  {
  }

  lemma {:induction false} StartedKept(s: State, step: Step, base: nat)
    requires Inv(s) && ThemeStarted(s, base) && Enabled(s, step) && !step.SoundUpdate?
    ensures ThemeStarted(Next(s, step), base)
  {
    hide Booked, Placed, Progress, Phases, Grows, ThemeStarted, SetMusicTheme;
    hide WorkStep, TrackStep, AddStep, TakeStep, NotifyStep, CompleteStep;
    var t := Next(s, step);
    if step.Track? {
      TrackThemes(s, base);
    } else if step.Work? {
      WorkThemes(s, step.k, base);
    } else {
      PhaseStays(s, step);
      NextGrows(s, step);
      FinishedStays(s, step);
      OtherThemes(s, t, base);
    }
  }

  lemma {:induction false} ThemesKept(s: State, step: Step)
    requires Inv(s) && Themes(s) && Enabled(s, step)
    ensures Themes(Next(s, step))
  {
    hide Booked, Placed, Progress, Phases, Grows, ThemeStarted, Cached, Next, Enabled;
    var t := Next(s, step);
    if step.SoundUpdate? {
      SoundIsNext(s);
      SoundThemes(s);
    } else {
      PhaseStays(s, step);
      NextGrows(s, step);
      FinishedGrows(s, step);
      CachedStays(s, t);
      if t.sound.phase == LoadingActiveSoundTheme {
        var base: nat :| ThemeStarted(s, base);
        StartedKept(s, step, base);
      }
    }
  }

  lemma {:induction false} SoundIsNext(s: State)
    requires Enabled(s, SoundUpdate)
    ensures Next(s, SoundUpdate) == SoundStep(s)
  {
  }

  lemma {:induction false} RunThemes(s: State, steps: seq<Step>)
    requires Inv(s) && Themes(s) && IsRun(s, steps)
    ensures Themes(After(s, steps))
    decreases |steps|
  {
    if steps != [] {
      ThemesKept(s, steps[0]);
      InvKept(s, steps[0]);
      RunThemes(Next(s, steps[0]), steps[1..]);
    }
  }

  /**
   In every run from the start: while the sound system is idle, each sound of its theme has had a job that
   returned and was notified.
   */
  lemma {:induction false} IdleMeansThemeCached(resources: seq<Resource>, steps: seq<Step>, name: string)
    requires IsRun(Initial(resources), steps)
    ensures var s := After(Initial(resources), steps);
      s.sound.phase == Idle && name in Names(s.sound.active) ==>
        exists id :: id in s.finished && id < |s.jobs| && s.jobs[id].work == CacheSound(name) && s.jobs[id].returned
  {
    InitialInv(resources);
    RunThemes(Initial(resources), steps);
  }
}
