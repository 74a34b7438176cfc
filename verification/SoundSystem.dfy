/** The state machine of the sound system, updated in place. */
module SoundSystem {
  import opened JobSteps

  /** A theme is asked for, with what the look-up found, or the system is updated. */
  datatype Input = Ask(theme: Theme) | Tick(busy: bool)

  function Next(s: Sound, input: Input): Sound {
    if input.Ask? then SetMusicTheme(s, input.theme) else Update(s, input.busy).0
  }

  function After(s: Sound, inputs: seq<Input>): Sound
    decreases |inputs|
  {
    if inputs == [] then s else After(Next(s, inputs[0]), inputs[1..])
  }

  /** The theme that was asked for last. */
  function LastAsked(last: Theme, inputs: seq<Input>): Theme
    decreases |inputs|
  {
    if inputs == [] then last else LastAsked(if inputs[0].Ask? then inputs[0].theme else last, inputs[1..])
  }

  /** Up to the unloading the theme asked for last is to be loaded; from then on it is active, unless it is unknown. */
  predicate Follows(s: Sound, last: Theme) {
    if s.phase == Phase.Cancel || s.phase == Cancelling || s.phase == UnloadingActiveSoundTheme then s.toLoad == last
    else last == NoTheme || s.active == last
  }

  lemma {:induction false} AlwaysFollows(s: Sound, last: Theme, inputs: seq<Input>)
    requires Follows(s, last)
    ensures Follows(After(s, inputs), LastAsked(last, inputs))
    decreases |inputs|
  {
    if inputs != [] {
      AlwaysFollows(Next(s, inputs[0]), if inputs[0].Ask? then inputs[0].theme else last, inputs[1..]);
    }
  }

  /**
   However requests and updates interleave: when the system is idle, the theme asked for last, if it exists, is active.
   */
  lemma {:induction false} IdleWithLastTheme(inputs: seq<Input>)
    ensures var s := After(Sound(Idle, NoTheme, NoTheme), inputs);
      s.phase == Idle && LastAsked(NoTheme, inputs) != NoTheme ==> s.active == LastAsked(NoTheme, inputs)
  {
    AlwaysFollows(Sound(Idle, NoTheme, NoTheme), NoTheme, inputs);
  }

  /**
   A request when the system is idle makes it unload; else a known theme makes the next update cancel the jobs, and an
   unknown one does not disturb what is under way.
   */
  lemma {:induction false} RequestDoes(s: Sound, theme: Theme, busy: bool)
    ensures var t := Next(s, Ask(theme));
      && t.active == s.active && t.toLoad == theme
      && (s.phase == Idle ==> t.phase == UnloadingActiveSoundTheme && Update(t, busy).0.active == theme)
      && (s.phase != Idle && theme != NoTheme ==> Update(t, busy).1.cancel)
      && (s.phase != Idle && theme == NoTheme ==>
        && t.phase == s.phase
        && Update(t, busy).1 == Update(s, busy).1 && Update(t, busy).0.phase == Update(s, busy).0.phase)
  {
  }

  /** The updates that a system with nothing to wait for still takes until it is idle. */
  function ToIdle(phase: Phase): nat {
    match phase
    case Cancel => 7
    case Cancelling => 6
    case UnloadingActiveSoundTheme => 5
    case LoadSoundEffects => 4
    case LoadingSoundEffects => 3
    case LoadActiveSoundTheme => 2
    case LoadingActiveSoundTheme => 1
    case Idle => 0
  }

  function Ticks(n: nat): seq<Input> {
    seq(n, _ => Tick(false))
  }

  /** When the cache is never busy, each update is one step nearer to idle: seven lead there from any phase. */
  lemma {:induction false} TicksLeadToIdle(s: Sound, n: nat)
    ensures ToIdle(After(s, Ticks(n)).phase) == if ToIdle(s.phase) > n then ToIdle(s.phase) - n else 0
    decreases n
  {
    if n > 0 {
      assert Ticks(n)[0] == Tick(false) && Ticks(n)[1..] == Ticks(n - 1);
      TicksLeadToIdle(Next(s, Tick(false)), n - 1);
    }
  }

  class SoundPlayer {
    var phase: Phase
    var activeTheme: Theme
    var themeToLoad: Theme

    ghost function State(): Sound
      reads this
    {
      Sound(phase, activeTheme, themeToLoad)
    }

    constructor ()
      ensures State() == Sound(Idle, NoTheme, NoTheme)
    {
      phase, activeTheme, themeToLoad := Idle, NoTheme, NoTheme;
    }

    method SetMusicTheme(theme: Theme)
      modifies this
      ensures State() == JobSteps.SetMusicTheme(old(State()), theme)
    {
      themeToLoad := theme;
      if themeToLoad != NoTheme {
        if phase != Idle {
          phase := Phase.Cancel;
        } else {
          phase := UnloadingActiveSoundTheme;
        }
      } else if phase == Idle {
        phase := UnloadingActiveSoundTheme;
      }
    }

    /** The jobs that cache the sounds of the active theme. */
    method CacheActiveTheme() returns (start: seq<Work>)
      requires activeTheme != NoTheme
      ensures start == NamesWork(activeTheme.names)
    {
      start := [];
      for i := 0 to |activeTheme.names|
        invariant start == NamesWork(activeTheme.names)[..i]
      {
        start := start + [CacheSound(activeTheme.names[i])];
      }
    }

    method Update(busy: bool) returns (request: Request)
      modifies this
      ensures (State(), request) == JobSteps.Update(old(State()), busy)
    {
      request := Request(false, []);
      match phase
      case Idle =>
      case LoadSoundEffects =>
        phase := LoadingSoundEffects;
        request := Request(false, [CacheAll]);
      case LoadingSoundEffects =>
        if !busy {
          phase := LoadActiveSoundTheme;
        }
      case Cancel =>
        request := Request(true, []);
        phase := Cancelling;
      case Cancelling =>
        if !busy {
          phase := UnloadingActiveSoundTheme;
        }
      case UnloadingActiveSoundTheme =>
        activeTheme := themeToLoad;
        themeToLoad := NoTheme;
        phase := LoadSoundEffects;
      case LoadActiveSoundTheme =>
        if activeTheme != NoTheme {
          var start := CacheActiveTheme();
          request := Request(false, start);
        }
        phase := LoadingActiveSoundTheme;
      case LoadingActiveSoundTheme =>
        if !busy {
          phase := Idle;
        }
    }
  }
}
