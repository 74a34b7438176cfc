/**
 The job queue, the tracker of the jobs of the sound cache, and the sound system that waits for them, as steps.
 A step is what one thread does under one lock, or between two shared accesses.
 */
module JobSteps {

  /** What a job of the sound cache does: start a job for every resident sound, or cache one sound. */
  datatype Work = CacheAll | CacheSound(name: string)

  /** How far a job has come; between being tracked and being queued it is in the hands of who starts it. */
  datatype Place = Starting | StartingBy(parent: nat) | Queued | Executing | Completed | Finished

  /**
   A tracked job. Its place, whether its OnExecute has returned, and the jobs that it started are history, for
   the statements below: no step looks at them.
   */
  datatype Job = Job(work: Work, cancelled: bool, place: Place, returned: bool, children: seq<nat>)

  /**
   Where a worker is in OnExecute: in front of a resource; past the test of the cancel flags, with a resident
   resource; between tracking and queueing a job; or at the end.
   */
  datatype At = Looking(i: nat) | Checked(i: nat) | Adding(i: nat, child: nat) | Returned

  datatype Exec = Exec(id: nat, at: At)

  datatype Resource = Resource(name: string, resident: bool)

  datatype Phase =
    | LoadSoundEffects | LoadingSoundEffects | UnloadingActiveSoundTheme | LoadActiveSoundTheme
    | LoadingActiveSoundTheme | Cancel | Cancelling | Idle

  datatype Theme = NoTheme | Theme(names: seq<string>)

  /** The state of the sound system. */
  datatype Sound = Sound(phase: Phase, active: Theme, toLoad: Theme)

  /** The whole state; jobs are known by their place in the list of all jobs ever tracked. */
  datatype State = State(
    resources: seq<Resource>,
    jobs: seq<Job>,
    outstanding: set<nat>,
    queue: seq<nat>,
    executing: seq<Exec>,
    completed: seq<nat>,
    quit: bool,
    // the main thread: jobs still to be started, a job tracked but not queued, and completed jobs to be notified
    starting: seq<Work>,
    adding: seq<nat>,
    notifying: seq<nat>,
    sound: Sound,
    // history: the calls of OnFinished, and the last job that caches all sounds
    finished: seq<nat>,
    loader: nat)

  // ---------- the sound system ----------

  /** SetMusicTheme, with the theme that was looked up. */
  function SetMusicTheme(s: Sound, theme: Theme): Sound {
    var phase :=
      if s.phase == Idle then UnloadingActiveSoundTheme
      else if theme != NoTheme then Cancel
      else s.phase;
    s.(phase := phase, toLoad := theme)
  }

  /** What an update of the sound system asks of the cache: to cancel the jobs, or to start some. */
  datatype Request = Request(cancel: bool, start: seq<Work>)

  function NamesWork(names: seq<string>): (w: seq<Work>)
    ensures |w| == |names| && forall i :: 0 <= i < |w| ==> w[i] == CacheSound(names[i])
  {
    seq(|names|, i requires 0 <= i < |names| => CacheSound(names[i]))
  }

  /** The switch of Sound::Update. */
  function Update(s: Sound, busy: bool): (Sound, Request) {
    var nothing := Request(false, []);
    match s.phase
    case Idle => (s, nothing)
    case LoadSoundEffects => (s.(phase := LoadingSoundEffects), Request(false, [CacheAll]))
    case LoadingSoundEffects => (if busy then s else s.(phase := LoadActiveSoundTheme), nothing)
    case Cancel => (s.(phase := Cancelling), Request(true, []))
    case Cancelling => (if busy then s else s.(phase := UnloadingActiveSoundTheme), nothing)
    case UnloadingActiveSoundTheme => (Sound(LoadSoundEffects, s.toLoad, NoTheme), nothing)
    case LoadActiveSoundTheme =>
      (s.(phase := LoadingActiveSoundTheme),
        Request(false, if s.active == NoTheme then [] else NamesWork(s.active.names)))
    case LoadingActiveSoundTheme => (if busy then s else s.(phase := Idle), nothing)
  }

  // ---------- steps ----------

  datatype Step =
    | SetTheme(theme: Theme) | SoundUpdate | Track | Add | TakeCompleted | Notify | Stop
    | Take | Work(k: nat) | Complete(k: nat)

  predicate IsBusy(s: State) {
    s.outstanding != {}
  }

  /** The main thread is between two calls. */
  predicate MainFree(s: State) {
    s.starting == [] && s.adding == [] && s.notifying == []
  }

  predicate Enabled(s: State, step: Step) {
    match step
    case SetTheme(_) => MainFree(s)
    case SoundUpdate => MainFree(s)
    case Track => s.starting != [] && s.adding == []
    case Add => s.adding != [] && s.adding[0] < |s.jobs|
    case TakeCompleted => MainFree(s)
    case Notify => s.notifying != [] && s.notifying[0] < |s.jobs|
    case Stop => MainFree(s)
    case Take => !s.quit && s.queue != [] && s.queue[0] < |s.jobs|
    case Work(k) =>
      && k < |s.executing| && s.executing[k].at != Returned
      && s.executing[k].id < |s.jobs| && (s.executing[k].at.Adding? ==> s.executing[k].at.child < |s.jobs|)
      && (s.executing[k].at.Checked? ==> s.executing[k].at.i < |s.resources|)
    case Complete(k) => k < |s.executing| && s.executing[k].at == Returned && s.executing[k].id < |s.jobs|
  }

  function CancelJobs(jobs: seq<Job>, which: set<nat>): (r: seq<Job>)
    ensures |r| == |jobs|
    ensures forall i :: 0 <= i < |jobs| ==> r[i] == jobs[i].(cancelled := jobs[i].cancelled || i in which)
  {
    seq(|jobs|, i requires 0 <= i < |jobs| => jobs[i].(cancelled := jobs[i].cancelled || i in which))
  }

  /** JobTracker::StartJob, first half: the job is tracked. */
  function Tracked(s: State, work: Work, place: Place): State {
    s.(jobs := s.jobs + [Job(work, false, place, false, [])], outstanding := s.outstanding + {|s.jobs|})
  }

  /** JobTracker::StartJob, second half: ASyncQueue::Add, which takes nothing any more after Stop. */
  function Added(s: State, id: nat): State
    requires id < |s.jobs|
  {
    s.(queue := if s.quit then s.queue else s.queue + [id], jobs := s.jobs[id := s.jobs[id].(place := Queued)])
  }

  function SoundStep(s: State): State {
    var (sound, request) := Update(s.sound, IsBusy(s));
    s.(sound := sound, starting := request.start,
       jobs := if request.cancel then CancelJobs(s.jobs, s.outstanding) else s.jobs)
  }

  function TrackStep(s: State): State
    requires Enabled(s, Track)
  {
    Tracked(s, s.starting[0], Starting).(
      starting := s.starting[1..], adding := [|s.jobs|],
      loader := if s.starting[0] == CacheAll then |s.jobs| else s.loader)
  }

  function AddStep(s: State): State
    requires Enabled(s, Add)
  {
    Added(s, s.adding[0]).(adding := s.adding[1..])
  }

  function TakeStep(s: State): State
    requires Enabled(s, Take)
  {
    var id := s.queue[0];
    s.(queue := s.queue[1..], executing := s.executing + [Exec(id, Looking(0))],
       jobs := s.jobs[id := s.jobs[id].(place := Executing)])
  }

  /**
   The loop over the resources ends, or this worker runs a job that starts no others. The two flags that the
   code reads one after the other are never taken back, so reading them is one step.
   */
  predicate Ends(s: State, e: Exec)
    requires e.id < |s.jobs| && e.at.Looking?
  {
    s.jobs[e.id].work != CacheAll || s.jobs[e.id].cancelled || s.quit || e.at.i >= |s.resources|
  }

  /** The loader of all sounds tracks a job for resource i. */
  function SpawnStep(s: State, k: nat, i: nat): State
    requires k < |s.executing| && s.executing[k].id < |s.jobs| && i < |s.resources|
  {
    var e, child := s.executing[k], |s.jobs|;
    var t := Tracked(s, CacheSound(s.resources[i].name), StartingBy(e.id));
    t.(jobs := t.jobs[e.id := t.jobs[e.id].(children := t.jobs[e.id].children + [child])],
       executing := s.executing[k := e.(at := Adding(i, child))])
  }

  function WorkStep(s: State, k: nat): State
    requires Enabled(s, Work(k))
  {
    var e := s.executing[k];
    match e.at
    case Adding(i, child) => Added(s, child).(executing := s.executing[k := e.(at := Looking(i + 1))])
    case Checked(i) => SpawnStep(s, k, i)
    case Looking(i) =>
      var at := if Ends(s, e) then Returned else if s.resources[i].resident then Checked(i) else Looking(i + 1);
      s.(executing := s.executing[k := e.(at := at)])
  }

  function CompleteStep(s: State, k: nat): State
    requires Enabled(s, Complete(k))
  {
    var id := s.executing[k].id;
    s.(executing := s.executing[..k] + s.executing[k + 1..], completed := s.completed + [id],
       jobs := s.jobs[id := s.jobs[id].(place := Completed, returned := true)])
  }

  function NotifyStep(s: State): State
    requires Enabled(s, Notify)
  {
    var id := s.notifying[0];
    s.(notifying := s.notifying[1..], outstanding := s.outstanding - {id}, finished := s.finished + [id],
       jobs := s.jobs[id := s.jobs[id].(place := Finished)])
  }

  function Next(s: State, step: Step): State
    requires Enabled(s, step)
  {
    match step
    case SetTheme(theme) => s.(sound := SetMusicTheme(s.sound, theme))
    case SoundUpdate => SoundStep(s)
    case Track => TrackStep(s)
    case Add => AddStep(s)
    case TakeCompleted => s.(notifying := s.completed, completed := [])
    case Notify => NotifyStep(s)
    case Stop => s.(quit := true, queue := [])
    case Take => TakeStep(s)
    case Work(k) => WorkStep(s, k)
    case Complete(k) => CompleteStep(s, k)
  }

  // ---------- where the jobs are ----------

  /** The jobs of a list are all different, and have come this far. */
  ghost predicate AllAt(jobs: seq<Job>, ids: seq<nat>, place: Place) {
    && (forall i :: 0 <= i < |ids| ==> ids[i] < |jobs| && jobs[ids[i]].place == place)
    && (forall i, j :: 0 <= i < j < |ids| ==> ids[i] != ids[j])
  }

  ghost predicate ThreadAt(jobs: seq<Job>, e: Exec) {
    && e.id < |jobs| && jobs[e.id].place == Executing
    && (e.at.Adding? ==> e.at.child < |jobs| && jobs[e.at.child].place == StartingBy(e.id))
  }

  ghost predicate ThreadsAt(jobs: seq<Job>, executing: seq<Exec>) {
    && (forall k :: 0 <= k < |executing| ==> ThreadAt(jobs, executing[k]))
    && (forall k, l :: 0 <= k < l < |executing| ==> executing[k].id != executing[l].id)
  }

  /** Every job is where its place says, and only there. */
  ghost predicate Placed(s: State) {
    && |s.adding| <= 1
    && AllAt(s.jobs, s.adding, Starting)
    && AllAt(s.jobs, s.queue, Queued)
    && ThreadsAt(s.jobs, s.executing)
    && AllAt(s.jobs, s.notifying + s.completed, Completed)
    && AllAt(s.jobs, s.finished, Finished)
  }

  /**
   A job is outstanding exactly until it is notified; the notified jobs are those in the list of calls, each once;
   OnExecute has returned for the completed and the notified jobs, and for no others.
   */
  ghost predicate Booked(s: State) {
    && (forall id :: id in s.outstanding ==> id < |s.jobs|)
    && (forall id :: 0 <= id < |s.jobs| ==> (id in s.outstanding <==> s.jobs[id].place != Finished))
    && (forall id :: 0 <= id < |s.jobs| && s.jobs[id].place == Finished ==> id in s.finished)
    && (forall id :: 0 <= id < |s.jobs| ==>
      (s.jobs[id].returned <==> s.jobs[id].place == Completed || s.jobs[id].place == Finished))
  }

  /** A list that does not hold the job that moves stays where it is. */
  lemma {:induction false} OthersStay(jobs: seq<Job>, ids: seq<nat>, place: Place, id: nat, job: Job)
    requires AllAt(jobs, ids, place) && id < |jobs| && jobs[id].place != place
    ensures AllAt(jobs[id := job], ids, place)
  {
  }

  /** The first job of a list leaves it. */
  lemma {:induction false} FirstLeaves(jobs: seq<Job>, ids: seq<nat>, place: Place, job: Job)
    requires AllAt(jobs, ids, place) && ids != []
    ensures AllAt(jobs[ids[0] := job], ids[1..], place)
  {
  }

  /** A job joins a list. */
  lemma {:induction false} LastJoins(jobs: seq<Job>, ids: seq<nat>, place: Place, id: nat, job: Job)
    requires AllAt(jobs, ids, place) && id < |jobs| && jobs[id].place != place && job.place == place
    ensures AllAt(jobs[id := job], ids + [id], place)
  {
  }

  lemma {:induction false} TrackPlaced(s: State)
    requires Placed(s) && Enabled(s, Track)
    ensures Placed(TrackStep(s))
  {
    assert TrackStep(s).jobs[..|s.jobs|] == s.jobs;
  }

  lemma {:induction false} AddedPlaced(s: State, id: nat)
    requires Placed(s) && id < |s.jobs| && (s.jobs[id].place.StartingBy? || s.jobs[id].place.Starting?)
    ensures var t := Added(s, id);
      && AllAt(t.jobs, t.queue, Queued)
      && AllAt(t.jobs, t.notifying + t.completed, Completed)
      && AllAt(t.jobs, t.finished, Finished)
  {
    var job := s.jobs[id].(place := Queued);
    LastJoins(s.jobs, s.queue, Queued, id, job);
    OthersStay(s.jobs, s.queue, Queued, id, job);
    OthersStay(s.jobs, s.notifying + s.completed, Completed, id, job);
    OthersStay(s.jobs, s.finished, Finished, id, job);
  }

  lemma {:induction false} AddPlaced(s: State)
    requires Placed(s) && Enabled(s, Add)
    ensures Placed(AddStep(s))
  {
    AddedPlaced(s, s.adding[0]);
  }

  lemma {:induction false} TakePlaced(s: State)
    requires Placed(s) && Enabled(s, Take)
    ensures Placed(TakeStep(s))
  {
    var id := s.queue[0];
    var job := s.jobs[id].(place := Executing);
    FirstLeaves(s.jobs, s.queue, Queued, job);
    OthersStay(s.jobs, s.adding, Starting, id, job);
    OthersStay(s.jobs, s.notifying + s.completed, Completed, id, job);
    OthersStay(s.jobs, s.finished, Finished, id, job);
  }

  lemma {:induction false} SpawnPlaced(s: State, k: nat, i: nat)
    requires Placed(s) && k < |s.executing| && i < |s.resources| && s.executing[k].at.Checked?
    ensures Placed(SpawnStep(s, k, i))
  {
    var id, t := s.executing[k].id, SpawnStep(s, k, i);
    assert forall j :: 0 <= j < |s.jobs| ==> t.jobs[j].place == s.jobs[j].place;
  }

  lemma {:induction false} WorkerAddPlaced(s: State, k: nat)
    requires Placed(s) && Enabled(s, Work(k)) && s.executing[k].at.Adding?
    ensures Placed(WorkStep(s, k))
  {
    var e, t := s.executing[k], WorkStep(s, k);
    AddedPlaced(s, e.at.child);
    OthersStay(s.jobs, s.adding, Starting, e.at.child, t.jobs[e.at.child]);
    assert forall j :: 0 <= j < |s.jobs| && j != e.at.child ==> t.jobs[j] == s.jobs[j];
  }

  lemma {:induction false} WorkPlaced(s: State, k: nat)
    requires Placed(s) && Enabled(s, Work(k))
    ensures Placed(WorkStep(s, k))
  {
    var e := s.executing[k];
    if e.at.Adding? {
      WorkerAddPlaced(s, k);
    } else if e.at.Checked? {
      SpawnPlaced(s, k, e.at.i);
    }
  }

  lemma {:induction false} CompletePlaced(s: State, k: nat)
    requires Placed(s) && Enabled(s, Complete(k))
    ensures Placed(CompleteStep(s, k))
  {
    var id, t := s.executing[k].id, CompleteStep(s, k);
    var job := t.jobs[id];
    LastJoins(s.jobs, s.notifying + s.completed, Completed, id, job);
    assert s.notifying + s.completed + [id] == t.notifying + t.completed;
    OthersStay(s.jobs, s.adding, Starting, id, job);
    OthersStay(s.jobs, s.queue, Queued, id, job);
    OthersStay(s.jobs, s.finished, Finished, id, job);
  }

  lemma {:induction false} NotifyPlaced(s: State)
    requires Placed(s) && Enabled(s, Notify)
    ensures Placed(NotifyStep(s))
  {
    var id, t := s.notifying[0], NotifyStep(s);
    var job := t.jobs[id];
    assert (s.notifying + s.completed)[0] == id && (s.notifying + s.completed)[1..] == t.notifying + t.completed;
    FirstLeaves(s.jobs, s.notifying + s.completed, Completed, job);
    LastJoins(s.jobs, s.finished, Finished, id, job);
    OthersStay(s.jobs, s.adding, Starting, id, job);
    OthersStay(s.jobs, s.queue, Queued, id, job);
  }

  lemma {:induction false} PlacedKept(s: State, step: Step)
    requires Placed(s) && Enabled(s, step)
    ensures Placed(Next(s, step))
  {
    hide CompleteStep, NotifyStep, SetMusicTheme, TakeStep, TrackStep, WorkStep;
    match step
    case SetTheme(_) =>
    case SoundUpdate =>
    case Track => TrackPlaced(s);
    case Add => AddPlaced(s);
    case TakeCompleted => assert s.notifying + s.completed == s.completed + [];
    case Notify => NotifyPlaced(s);
    case Stop =>
    case Take => TakePlaced(s);
    case Work(k) => WorkPlaced(s, k);
    case Complete(k) => CompletePlaced(s, k);
  }

  lemma {:induction false} NotifyBooked(s: State)
    requires Placed(s) && Booked(s) && Enabled(s, Notify)
    ensures Booked(NotifyStep(s))
  {
    assert (s.notifying + s.completed)[0] == s.notifying[0];
  }

  lemma {:induction false} SpawnBooked(s: State, k: nat, i: nat)
    requires Placed(s) && Booked(s) && k < |s.executing| && i < |s.resources| && s.executing[k].at.Checked?
    ensures Booked(SpawnStep(s, k, i))
  {
  }

  lemma {:induction false} WorkBooked(s: State, k: nat)
    requires Placed(s) && Booked(s) && Enabled(s, Work(k))
    ensures Booked(WorkStep(s, k))
  {
    var e := s.executing[k];
    if e.at.Checked? {
      SpawnBooked(s, k, e.at.i);
    }
  }

  lemma {:induction false} TrackBooked(s: State)
    requires Booked(s) && Enabled(s, Track)
    ensures Booked(TrackStep(s))
  {
  }

  lemma {:induction false} AddBooked(s: State)
    requires Placed(s) && Booked(s) && Enabled(s, Add)
    ensures Booked(AddStep(s))
  {
  }

  lemma {:induction false} TakeBooked(s: State)
    requires Placed(s) && Booked(s) && Enabled(s, Take)
    ensures Booked(TakeStep(s))
  {
  }

  lemma {:induction false} CompleteBooked(s: State, k: nat)
    requires Placed(s) && Booked(s) && Enabled(s, Complete(k))
    ensures Booked(CompleteStep(s, k))
  {
  }

  lemma {:induction false} BookedKept(s: State, step: Step)
    requires Placed(s) && Booked(s) && Enabled(s, step)
    ensures Booked(Next(s, step))
  {
    hide Placed, TrackStep, AddStep, TakeStep, NotifyStep, WorkStep, CompleteStep;
    match step
    case Track => TrackBooked(s);
    case Add => AddBooked(s);
    case Notify => NotifyBooked(s);
    case Take => TakeBooked(s);
    case Work(k) => WorkBooked(s, k);
    case Complete(k) => CompleteBooked(s, k);
    case _ =>
  }

  // ---------- the jobs that a job starts ----------

  /** A job has started a job that caches the sound. */
  ghost predicate HasChild(s: State, p: nat, name: string)
    requires p < |s.jobs|
  {
    exists c :: c in s.jobs[p].children && c < |s.jobs| && s.jobs[c].work == CacheSound(name)
  }

  /** A job has started a job for every resident sound among the first i resources. */
  ghost predicate Covers(s: State, p: nat, i: nat)
    requires p < |s.jobs|
  {
    i <= |s.resources| && forall j :: 0 <= j < i && s.resources[j].resident ==> HasChild(s, p, s.resources[j].name)
  }

  /** The loader of all sounds ends only when it has started a job for each, or was cancelled. */
  ghost predicate Ended(s: State, p: nat)
    requires p < |s.jobs|
  {
    s.jobs[p].work == CacheAll ==> s.jobs[p].cancelled || s.quit || Covers(s, p, |s.resources|)
  }

  ghost predicate ThreadProgress(s: State, e: Exec)
    requires e.id < |s.jobs|
  {
    match e.at
    case Looking(i) => s.jobs[e.id].work == CacheAll ==> Covers(s, e.id, i)
    case Checked(i) =>
      s.jobs[e.id].work == CacheAll && i < |s.resources| && s.resources[i].resident && Covers(s, e.id, i)
    case Adding(i, child) => Covers(s, e.id, i + 1)
    case Returned => Ended(s, e.id)
  }

  ghost predicate Progress(s: State) {
    && (forall k :: 0 <= k < |s.executing| ==> s.executing[k].id < |s.jobs| && ThreadProgress(s, s.executing[k]))
    && (forall id :: 0 <= id < |s.jobs| && s.jobs[id].returned ==> Ended(s, id))
  }

  /** What jobs only ever gain. */
  ghost predicate Grows(s: State, t: State) {
    && t.resources == s.resources && (s.quit ==> t.quit) && |s.jobs| <= |t.jobs|
    && forall id :: 0 <= id < |s.jobs| ==>
      && t.jobs[id].work == s.jobs[id].work
      && (s.jobs[id].cancelled ==> t.jobs[id].cancelled)
      && s.jobs[id].children <= t.jobs[id].children
  }

  lemma {:induction false} GrowsKeeps(s: State, t: State, p: nat, i: nat)
    requires Grows(s, t) && p < |s.jobs|
    ensures Covers(s, p, i) ==> Covers(t, p, i)
    ensures Ended(s, p) ==> Ended(t, p)
  {
    forall name | HasChild(s, p, name)
      ensures HasChild(t, p, name)
    {
      var c :| c in s.jobs[p].children && c < |s.jobs| && s.jobs[c].work == CacheSound(name);
      assert t.jobs[p].children[..|s.jobs[p].children|] == s.jobs[p].children;
    }
  }

  lemma {:induction false} TakeGrows(s: State)
    requires Enabled(s, Take)
    ensures Grows(s, TakeStep(s))
  {
  }

  lemma {:induction false} WorkGrows(s: State, k: nat)
    requires Enabled(s, Work(k)) && Placed(s)
    ensures Grows(s, WorkStep(s, k))
  {
    hide ThreadsAt;
  }

  lemma {:induction false} CompleteGrows(s: State, k: nat)
    requires Enabled(s, Complete(k))
    ensures Grows(s, CompleteStep(s, k))
  {
  }

  lemma {:induction false} NextGrows(s: State, step: Step)
    requires Placed(s) && Enabled(s, step)
    ensures Grows(s, Next(s, step))
  {
    hide SetMusicTheme, ThreadsAt, Update, WorkStep, TakeStep, CompleteStep;
    match step
    case Take => TakeGrows(s);
    case Work(k) => WorkGrows(s, k);
    case Complete(k) => CompleteGrows(s, k);
    case _ =>
  }

  lemma {:induction false} ThreadKept(s: State, t: State, e: Exec)
    requires Grows(s, t) && e.id < |s.jobs| && ThreadProgress(s, e)
    ensures ThreadProgress(t, e)
  {
    GrowsKeeps(s, t, e.id, if e.at.Returned? then 0 else if e.at.Adding? then e.at.i + 1 else e.at.i);
  }

  /** What no step of the thread itself did stays as it was. */
  lemma {:induction false} ProgressStays(s: State, t: State)
    requires Progress(s) && Grows(s, t)
    requires forall k :: 0 <= k < |t.executing| ==>
      t.executing[k] in s.executing || (t.executing[k].id < |t.jobs| && ThreadProgress(t, t.executing[k]))
    requires forall id :: 0 <= id < |t.jobs| && t.jobs[id].returned ==>
      Ended(t, id) || (id < |s.jobs| && s.jobs[id].returned)
    ensures Progress(t)
  {
    forall k | 0 <= k < |t.executing|
      ensures t.executing[k].id < |t.jobs| && ThreadProgress(t, t.executing[k])
    {
      if t.executing[k] in s.executing {
        ThreadKept(s, t, t.executing[k]);
      }
    }
    forall id | 0 <= id < |t.jobs| && t.jobs[id].returned
      ensures Ended(t, id)
    {
      if id < |s.jobs| {
        GrowsKeeps(s, t, id, 0);
      }
    }
  }

  lemma {:induction false} SpawnGives(s: State, k: nat, i: nat)
    requires k < |s.executing| && s.executing[k].id < |s.jobs| && i < |s.resources|
    ensures HasChild(SpawnStep(s, k, i), s.executing[k].id, s.resources[i].name)
  {
    var p, child, t := s.executing[k].id, |s.jobs|, SpawnStep(s, k, i);
    assert t.jobs[p].children == s.jobs[p].children + [child];
    assert t.jobs[p].children[|s.jobs[p].children|] == child;
    assert t.jobs[child].work == CacheSound(s.resources[i].name);
  }

  lemma {:induction false} LookProgress(s: State, k: nat)
    requires Placed(s) && Progress(s) && Enabled(s, Work(k)) && s.executing[k].at.Looking?
    ensures var t := WorkStep(s, k); t.executing[k].id < |t.jobs| && ThreadProgress(t, t.executing[k])
  {
    var e, t := s.executing[k], WorkStep(s, k);
    assert Grows(s, t) by {
      NextGrows(s, Work(k));
    }
    GrowsKeeps(s, t, e.id, e.at.i);
  }

  lemma {:induction false} SpawnProgress(s: State, k: nat)
    requires Placed(s) && Progress(s) && Enabled(s, Work(k)) && s.executing[k].at.Checked?
    ensures var t := WorkStep(s, k); t.executing[k].id < |t.jobs| && ThreadProgress(t, t.executing[k])
  {
    hide Ended, Grows, HasChild;
    var e, t := s.executing[k], WorkStep(s, k);
    assert Grows(s, t) by {
      NextGrows(s, Work(k));
    }
    GrowsKeeps(s, t, e.id, e.at.i);
    SpawnGives(s, k, e.at.i);
  }

  lemma {:induction false} WorkProgress(s: State, k: nat)
    requires Placed(s) && Progress(s) && Enabled(s, Work(k))
    ensures var t := WorkStep(s, k); t.executing[k].id < |t.jobs| && ThreadProgress(t, t.executing[k])
  {
    var e, t := s.executing[k], WorkStep(s, k);
    if e.at.Looking? {
      LookProgress(s, k);
    } else if e.at.Checked? {
      SpawnProgress(s, k);
    } else {
      NextGrows(s, Work(k));
      GrowsKeeps(s, t, e.id, e.at.i + 1);
    }
  }

  lemma {:induction false} WorkProgressKept(s: State, k: nat)
    requires Placed(s) && Progress(s) && Enabled(s, Work(k))
    ensures Progress(WorkStep(s, k))
  {
    hide Grows, Placed, Progress;
    var t := WorkStep(s, k);
    NextGrows(s, Work(k));
    WorkProgress(s, k);
    forall l | 0 <= l < |t.executing|
      ensures t.executing[l] in s.executing || (t.executing[l].id < |t.jobs| && ThreadProgress(t, t.executing[l]))
    {
      assert l != k ==> t.executing[l] == s.executing[l];
    }
    ProgressStays(s, t);
  }

  lemma {:induction false} CompleteProgressKept(s: State, k: nat)
    requires Placed(s) && Progress(s) && Enabled(s, Complete(k))
    ensures Progress(CompleteStep(s, k))
  {
    var t := CompleteStep(s, k);
    NextGrows(s, Complete(k));
    GrowsKeeps(s, t, s.executing[k].id, 0);
    ProgressStays(s, t);
  }

  lemma {:induction false} ProgressKept(s: State, step: Step)
    requires Placed(s) && Progress(s) && Enabled(s, step)
    ensures Progress(Next(s, step))
  {
    hide Grows, Placed, Progress, ThreadsAt, WorkStep;
    NextGrows(s, step);
    match step
    case Work(k) => WorkProgressKept(s, k);
    case Complete(k) => CompleteProgressKept(s, k);
    case Take =>
      assert ThreadProgress(TakeStep(s), Exec(s.queue[0], Looking(0)));
      ProgressStays(s, TakeStep(s));
    case _ => ProgressStays(s, Next(s, step));
  }
}
