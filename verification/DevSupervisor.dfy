/**
 The development supervisor: one Electron child, restarted by the reloader and stopped on shutdown. Every
 await is a step boundary, so builds, timers, child exits, stop timeouts and signals interleave freely.
 */
module DevSupervisor {
  import opened Prelude
  import opened DevReload

  /** The shared promise of a stop in progress, until its `finally` has cleared it. */
  datatype Flight = NoFlight | Waiting(child: int) | Settled(ok: bool)

  /** Where the restart of the drain in flight is. */
  datatype Restart = Idle | AwaitingStop | StopDone(ok: bool) | Done(ok: bool)

  /** `alive` are the processes the operating system still runs; `electron` is the child last spawned. */
  datatype Supervisor = Supervisor(
    reload: Reload, alive: set<int>, spawned: int, electron: Option<int>, expected: Option<int>,
    flight: Flight, restart: Restart, stopping: bool, shutdownWaits: bool, resourcesClosed: bool)

  function Launched(surfaces: seq<string>): Supervisor {
    Supervisor(Fresh(surfaces), {}, 0, None, None, NoFlight, Idle, false, false, false)
  }

  /** Joins the stop in progress or starts one: at once when no child runs, else waiting for its exit. */
  function StopElectron(s: Supervisor): Supervisor {
    if !s.flight.NoFlight? then s
    else if s.electron.None? || s.electron.value !in s.alive then s.(flight := Settled(true))
    else s.(expected := s.electron, flight := Waiting(s.electron.value))
  }

  function Shutdown(s: Supervisor): Supervisor {
    StopElectron(s.(stopping := true, reload := Close(s.reload), shutdownWaits := true))
  }

  function TimerStep(s: Supervisor): Supervisor {
    var t := s.(reload := TimerFires(s.reload));
    if Drains(s.reload) then StopElectron(t.(restart := AwaitingStop)) else t
  }

  /** The exit listener of the spawn, then the one of a stop that waits for this child. */
  function ChildExits(s: Supervisor, child: int, code: int): Supervisor {
    var gone := s.(alive := s.alive - {child});
    var noticed :=
      if gone.electron != Some(child) || gone.expected == Some(child) then gone
      else
        var cleared := gone.(electron := None);
        if code == 0 || cleared.stopping then Shutdown(cleared) else cleared;
    if s.flight == Waiting(child) then
      noticed.(electron := if noticed.electron == Some(child) then None else noticed.electron, flight := Settled(true))
    else noticed
  }

  /** The stop settles for everyone who awaits it. */
  function FlightSettles(s: Supervisor): Supervisor
    requires s.flight.Settled?
  {
    var ok := s.flight.ok;
    s.(flight := NoFlight, expected := None,
       restart := if s.restart.AwaitingStop? then StopDone(ok) else s.restart,
       shutdownWaits := false,
       resourcesClosed := s.resourcesClosed || (s.shutdownWaits && ok))
  }

  /** The restart goes on after its stop: it spawns only if the reloader still wants this generation. */
  function RestartResumes(s: Supervisor, started: bool): Supervisor
    requires s.restart.StopDone? && s.reload.draining.Some?
  {
    if !s.restart.ok then s.(restart := Done(false))
    else if !CanStart(s.reload, s.reload.draining.value) || s.stopping then s.(restart := Done(true))
    else
      s.(restart := Done(true), spawned := s.spawned + 1, electron := Some(s.spawned),
         alive := if started then s.alive + {s.spawned} else s.alive)
  }

  datatype Event =
    | Build(surface: string)
    | Built(surface: string, success: bool)
    | Edit
    | Timer
    | Exit(child: int, code: int)
    | StopTimeout
    | StopSettles
    | RestartGoesOn(started: bool)
    | DrainGoesOn
    | ShutdownRequest

  predicate Enabled(s: Supervisor, e: Event) {
    match e
    case Build(surface) => surface in s.reload.surfaces
    case Built(surface, _) => surface in s.reload.surfaces
    case Timer => s.reload.timer
    case Exit(child, _) => child in s.alive
    case StopTimeout => s.flight.Waiting?
    case StopSettles => s.flight.Settled?
    case RestartGoesOn(_) => s.restart.StopDone? && s.reload.draining.Some?
    case DrainGoesOn => s.restart.Done? && s.reload.draining.Some?
    case _ => true
  }

  function Step(s: Supervisor, e: Event): Supervisor
    requires Enabled(s, e)
  {
    match e
    case Build(surface) => s.(reload := BuildStarted(s.reload, surface))
    case Built(surface, success) => s.(reload := BuildFinished(s.reload, surface, success))
    case Edit => s.(reload := Invalidate(s.reload))
    case Timer => TimerStep(s)
    case Exit(child, code) => ChildExits(s, child, code)
    case StopTimeout => s.(flight := Settled(false))
    case StopSettles => FlightSettles(s)
    case RestartGoesOn(started) => RestartResumes(s, started)
    case DrainGoesOn => s.(reload := DrainEnds(s.reload, s.restart.ok), restart := Idle)
    case ShutdownRequest => Shutdown(s)
  }

  ghost predicate Execution(surfaces: seq<string>, events: seq<Event>, states: seq<Supervisor>) {
    && |states| == |events| + 1 && states[0] == Launched(surfaces)
    && forall i | 0 <= i < |events| :: Enabled(states[i], events[i]) && states[i + 1] == Step(states[i], events[i])
  }

  // ---------------------------------------------------------------- invariant

  ghost predicate OneChild(s: Supervisor) {
    && (forall c | c in s.alive :: s.electron == Some(c))
    && (forall c | c in s.alive :: c < s.spawned)
    && (s.flight.Waiting? ==> s.expected == Some(s.flight.child) && s.electron == Some(s.flight.child)
                              && s.flight.child in s.alive)
    && (s.expected.Some? ==> !s.flight.NoFlight?)
    && (s.flight == Settled(true) ==> s.alive == {})
    && (s.restart == StopDone(true) ==> s.alive == {})
    && (!s.flight.NoFlight? && !s.restart.AwaitingStop? ==> s.stopping)
    && (s.restart.AwaitingStop? ==> !s.flight.NoFlight?)
    && (s.restart.Idle? <==> s.reload.draining.None?)
    && (s.stopping <==> s.reload.closed)
    && (s.shutdownWaits || s.resourcesClosed ==> s.stopping)
    && (s.resourcesClosed ==> s.alive == {})
  }

  ghost predicate Invariant(s: Supervisor) {
    OneChild(s) && NoLostWakeup(s.reload) && Coherent(s.reload)
  }

  lemma ShutdownKeeps(s: Supervisor)
    requires OneChild(s)
    ensures OneChild(Shutdown(s))
  {
  }

  lemma ExitKeeps(s: Supervisor, child: int, code: int)
    requires OneChild(s) && child in s.alive
    ensures OneChild(ChildExits(s, child, code)) && ChildExits(s, child, code).alive == {}
  {
    forall c | c in s.alive ensures c == child { assert s.electron == Some(c) && s.electron == Some(child); }
    assert s.alive - {child} == {};
  }

  lemma StepKeeps(s: Supervisor, e: Event)
    requires Invariant(s) && Enabled(s, e)
    ensures Invariant(Step(s, e)) && Step(s, e).reload.surfaces == s.reload.surfaces
  {
    match e
    case Build(surface) => WakeupKeptUnlessUnknownBuild(s.reload, Started(surface));
    case Built(surface, success) => WakeupKeptUnlessUnknownBuild(s.reload, Finished(surface, success));
    case Edit => WakeupKeptUnlessUnknownBuild(s.reload, Invalidated);
    case Timer => WakeupKeptUnlessUnknownBuild(s.reload, Fired);
    case Exit(child, code) => ExitKeeps(s, child, code);
    case DrainGoesOn => WakeupKeptUnlessUnknownBuild(s.reload, Drained(s.restart.ok));
    case ShutdownRequest => ShutdownKeeps(s);
    case _ =>
  }

  lemma {:induction false} ExecutionInvariant(surfaces: seq<string>, events: seq<Event>, states: seq<Supervisor>,
                                              i: nat)
    requires surfaces != [] && Execution(surfaces, events, states) && i <= |events|
    ensures Invariant(states[i]) && states[i].reload.surfaces == surfaces
  {
    if i == 0 {
      FreshWakeup(surfaces);
    } else {
      ExecutionInvariant(surfaces, events, states, i - 1);
      StepKeeps(states[i - 1], events[i - 1]);
    }
  }

  // ---------------------------------------------------------------- main results

  /** In every interleaving at most one child runs, and the resources it needs are released only when
      none does. */
  lemma AtMostOneChild(surfaces: seq<string>, events: seq<Event>, states: seq<Supervisor>, i: nat)
    requires surfaces != [] && Execution(surfaces, events, states) && i <= |events|
    ensures forall c, d | c in states[i].alive && d in states[i].alive :: c == d
    ensures states[i].resourcesClosed ==> states[i].alive == {} && states[i].stopping
  {
    ExecutionInvariant(surfaces, events, states, i);
  }

  /** A child is spawned only after every earlier one has exited, never once shutdown has begun, and only
      for the current generation with all surfaces built. */
  lemma SpawnOnlyAfterExit(surfaces: seq<string>, events: seq<Event>, states: seq<Supervisor>, i: nat)
    requires surfaces != [] && Execution(surfaces, events, states) && i < |events|
    requires states[i + 1].spawned != states[i].spawned
    ensures states[i].alive == {} && !states[i].stopping && AllReady(states[i].reload)
    ensures states[i].reload.draining == Some(states[i].reload.generation)
  {
    ExecutionInvariant(surfaces, events, states, i);
  }

  /** Once shutdown has begun it stays so, nothing is spawned again and only exits change who runs. */
  lemma {:induction false} NoSpawnAfterShutdown(surfaces: seq<string>, events: seq<Event>, states: seq<Supervisor>,
                                                i: nat, j: nat)
    requires surfaces != [] && Execution(surfaces, events, states) && i <= j <= |events| && states[i].stopping
    ensures states[j].stopping && states[j].spawned == states[i].spawned && states[j].alive <= states[i].alive
    decreases j - i
  {
    if i < j {
      NoSpawnAfterShutdown(surfaces, events, states, i, j - 1);
      ExecutionInvariant(surfaces, events, states, j - 1);
      StoppedStep(states[j - 1], events[j - 1]);
    }
  }

  lemma StoppedStep(s: Supervisor, e: Event)
    requires Enabled(s, e) && s.stopping && (s.restart == StopDone(true) ==> s.alive == {})
    ensures Step(s, e).stopping && Step(s, e).spawned == s.spawned && Step(s, e).alive <= s.alive
  {
  }

  /** No reload is forgotten: while open, with everything built and something new to apply, the timer is
      armed or a drain runs. */
  lemma NoReloadForgotten(surfaces: seq<string>, events: seq<Event>, states: seq<Supervisor>, i: nat)
    requires surfaces != [] && Execution(surfaces, events, states) && i <= |events|
    ensures NoLostWakeup(states[i].reload)
  {
    ExecutionInvariant(surfaces, events, states, i);
  }

  // ---------------------------------------------------------------- the handlers

  /** The module's variables and its handlers, each up to its next await. */
  class Process {
    const reload: DesktopDevReload
    var alive: set<int>
    var spawned: int
    var electron: Option<int>
    var expected: Option<int>
    var flight: Flight
    var restart: Restart
    var stopping: bool
    var shutdownWaits: bool
    var resourcesClosed: bool

    ghost function View(): Supervisor
      reads this, reload
    {
      Supervisor(reload.View(), alive, spawned, electron, expected, flight, restart, stopping, shutdownWaits,
                 resourcesClosed)
    }

    /** At most one child, every spawn over none, and no reload forgotten. */
    ghost predicate Valid()
      reads this, reload
    {
      Invariant(View())
    }

    constructor (reload: DesktopDevReload)
      requires reload.View() == Fresh(reload.surfaces)
      ensures this.reload == reload && View() == Launched(reload.surfaces)
    {
      this.reload := reload;
      alive, spawned, electron, expected := {}, 0, None, None;
      flight, restart, stopping, shutdownWaits, resourcesClosed := NoFlight, Idle, false, false, false;
    }

    method Stop()
      modifies this
      ensures View() == StopElectron(old(View()))
    {
      if !flight.NoFlight? { return; }
      if electron.None? || electron.value !in alive {
        flight := Settled(true);
      } else {
        expected := electron;
        flight := Waiting(electron.value);
      }
    }

    method BeginShutdown()
      modifies this, reload
      ensures View() == Shutdown(old(View()))
      ensures old(Valid()) ==> Valid()
    {
      if Valid() { StepKeeps(View(), ShutdownRequest); }
      stopping := true;
      reload.Shut();
      shutdownWaits := true;
      Stop();
    }

    method OnTimer()
      requires reload.timer
      modifies this, reload
      ensures View() == TimerStep(old(View()))
      ensures old(Valid()) ==> Valid()
    {
      if Valid() { StepKeeps(View(), Timer); }
      var begun := reload.Drain();
      if begun.Some? {
        restart := AwaitingStop;
        Stop();
      }
    }

    method OnExit(child: int, code: int)
      requires child in alive
      modifies this, reload
      ensures View() == ChildExits(old(View()), child, code)
      ensures old(Valid()) ==> Valid()
    {
      if Valid() { StepKeeps(View(), Exit(child, code)); }
      var waited := flight == Waiting(child);
      alive := alive - {child};
      if electron == Some(child) && expected != Some(child) {
        electron := None;
        if code == 0 || stopping { BeginShutdown(); }
      }
      if waited {
        if electron == Some(child) { electron := None; }
        flight := Settled(true);
      }
    }

    method OnStopSettled()
      requires flight.Settled?
      modifies this
      ensures View() == FlightSettles(old(View()))
      ensures old(Valid()) ==> Valid()
    {
      if Valid() { StepKeeps(View(), StopSettles); }
      var ok := flight.ok;
      flight := NoFlight;
      expected := None;
      if restart.AwaitingStop? { restart := StopDone(ok); }
      if shutdownWaits && ok { resourcesClosed := true; }
      shutdownWaits := false;
    }

    method OnStopTimeout()
      requires flight.Waiting?
      modifies this
      ensures View() == Step(old(View()), StopTimeout)
      ensures old(Valid()) ==> Valid()
    {
      if Valid() { StepKeeps(View(), StopTimeout); }
      flight := Settled(false);
    }

    method OnDrainEnd(generation: int)
      requires restart.Done? && reload.draining && reload.drainedGeneration == generation
      modifies this, reload
      ensures View() == Step(old(View()), DrainGoesOn)
      ensures old(Valid()) ==> Valid()
    {
      if Valid() { StepKeeps(View(), DrainGoesOn); }
      reload.FinishDrain(generation, restart.ok);
      restart := Idle;
    }

    method OnRestart(generation: int, started: bool) returns (spawnedNow: bool)
      requires restart.StopDone? && reload.draining && reload.drainedGeneration == generation
      requires OneChild(View())
      modifies this
      ensures View() == RestartResumes(old(View()), started)
      ensures spawnedNow ==> old(alive) == {} && !old(stopping)
      ensures old(Valid()) ==> Valid()
    {
      if Valid() { StepKeeps(View(), RestartGoesOn(started)); }
      spawnedNow := false;
      if !restart.ok { restart := Done(false); return; }
      restart := Done(true);
      if reload.closed || reload.generation != generation
         || !(forall s | s in reload.surfaces :: s in reload.ready) || stopping
      {
        return;
      }
      electron := Some(spawned);
      if started { alive := alive + {spawned}; }
      spawned := spawned + 1;
      spawnedNow := true;
    }
  }
}
