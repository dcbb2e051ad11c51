/**
 The reload scheduler of the development supervisor: watch builds arm a debounce timer, the timer starts
 at most one drain, and a drain restarts the app for the generation it saw.
 */
module DevReload {
  import opened Prelude

  /** `draining` holds the generation the drain in flight was started for. */
  datatype Reload = Reload(
    surfaces: seq<string>, ready: set<string>, generation: int, applied: int,
    timer: bool, draining: Option<int>, closed: bool)

  function Fresh(surfaces: seq<string>): Reload { Reload(surfaces, {}, 0, -1, false, None, false) }

  predicate AllReady(r: Reload) { forall s | s in r.surfaces :: s in r.ready }

  /** Re-arms the timer, unless closed or some surface is not built. */
  function Schedule(r: Reload): Reload { r.(timer := !r.closed && AllReady(r)) }

  function BuildStarted(r: Reload, surface: string): Reload {
    r.(ready := r.ready - {surface}, generation := r.generation + 1, timer := false)
  }

  function BuildFinished(r: Reload, surface: string, success: bool): Reload {
    Schedule(r.(ready := if success then r.ready + {surface} else r.ready - {surface}))
  }

  function Invalidate(r: Reload): Reload { Schedule(r.(generation := r.generation + 1)) }

  function Close(r: Reload): Reload { r.(closed := true, timer := false) }

  predicate Drains(r: Reload) { !r.closed && r.draining.None? && AllReady(r) && r.applied != r.generation }

  function TimerFires(r: Reload): Reload {
    r.(timer := false, draining := if Drains(r) then Some(r.generation) else r.draining)
  }

  /** Asked by a restart right before it would start the app. */
  predicate CanStart(r: Reload, generation: int) { !r.closed && AllReady(r) && generation == r.generation }

  /** A failed restart is retried only after a new edit. */
  function DrainEnds(r: Reload, success: bool): Reload
    requires r.draining.Some?
  {
    var ended := r.(applied := if success then r.draining.value else r.generation, draining := None);
    if ended.applied != ended.generation then Schedule(ended) else ended
  }

  datatype ReloadEvent =
    | Started(surface: string)
    | Finished(surface: string, success: bool)
    | Invalidated
    | Closed
    | Fired
    | Drained(success: bool)

  /** Timers fire only when armed and drains end only when running. */
  function Handle(r: Reload, e: ReloadEvent): Reload {
    match e
    case Started(s) => BuildStarted(r, s)
    case Finished(s, success) => BuildFinished(r, s, success)
    case Invalidated => Invalidate(r)
    case Closed => Close(r)
    case Fired => if r.timer then TimerFires(r) else r
    case Drained(success) => if r.draining.Some? then DrainEnds(r, success) else r
  }

  function HandleAll(r: Reload, events: seq<ReloadEvent>): Reload {
    if events == [] then r else Handle(HandleAll(r, events[..|events| - 1]), events[|events| - 1])
  }

  /** Work that is ready to apply is never forgotten. */
  predicate NoLostWakeup(r: Reload) {
    !r.closed && AllReady(r) && r.applied != r.generation ==> r.timer || r.draining.Some?
  }

  ghost predicate Coherent(r: Reload) {
    && r.applied <= r.generation
    && (r.draining.Some? ==> r.draining.value <= r.generation)
    && (r.timer ==> !r.closed)
  }

  predicate KnownSurface(r: Reload, e: ReloadEvent) {
    (e.Started? || e.Finished?) ==> e.surface in r.surfaces
  }

  /** One event keeps ready work from being forgotten, exactly unless a build of an unknown surface starts
      while all known ones are ready and no drain is running. */
  lemma WakeupKeptUnlessUnknownBuild(r: Reload, e: ReloadEvent)
    requires NoLostWakeup(r) && Coherent(r)
    ensures NoLostWakeup(Handle(r, e))
            <==> !(e.Started? && e.surface !in r.surfaces && !r.closed && AllReady(r) && r.draining.None?)
    ensures Coherent(Handle(r, e)) && Handle(r, e).surfaces == r.surfaces
  {
    if e.Started? {
      var p := BuildStarted(r, e.surface);
      if e.surface in r.surfaces {
        assert e.surface !in p.ready;
      } else {
        assert AllReady(p) <==> AllReady(r) by {
          assert forall s | s in r.surfaces :: s in p.ready <==> s in r.ready;
        }
      }
    }
  }

  /** In every run in which builds name known surfaces, an open reloader with all surfaces ready and
      something new to apply has its timer armed or a drain in flight. */
  lemma {:induction false} ReadyWorkIsScheduled(surfaces: seq<string>, events: seq<ReloadEvent>)
    requires surfaces != [] && forall e | e in events :: KnownSurface(Fresh(surfaces), e)
    ensures var r := HandleAll(Fresh(surfaces), events);
            NoLostWakeup(r) && Coherent(r) && r.surfaces == surfaces
  {
    if events == [] {
      FreshWakeup(surfaces);
    } else {
      var front, e := events[..|events| - 1], events[|events| - 1];
      assert events == front + [e] && e in events;
      assert KnownSurface(Fresh(surfaces), e);
      ReadyWorkIsScheduled(surfaces, front);
      WakeupKeptUnlessUnknownBuild(HandleAll(Fresh(surfaces), front), e);
    }
  }

  /** Only a reloader without surfaces would start out with work nobody scheduled. */
  lemma FreshWakeup(surfaces: seq<string>)
    ensures NoLostWakeup(Fresh(surfaces)) <==> surfaces != []
  {
    assert surfaces != [] ==> surfaces[0] in surfaces;
  }

  /** The reloader object. The restart it awaits is two steps apart: `Drain` says whether and for which
      generation it begins, `FinishDrain` is told how it ended. */
  class DesktopDevReload {
    const surfaces: seq<string>
    var ready: set<string>
    var generation: int
    var applied: int
    var timer: bool
    var draining: bool
    var closed: bool
    ghost var drainedGeneration: int

    ghost function View(): Reload
      reads this
    {
      Reload(surfaces, ready, generation, applied, timer, if draining then Some(drainedGeneration) else None, closed)
    }

    /** Nothing ready to apply is forgotten. */
    ghost predicate Valid()
      reads this
    {
      NoLostWakeup(View()) && Coherent(View())
    }

    constructor (surfaces: seq<string>)
      ensures this.surfaces == surfaces && View() == Fresh(surfaces)
      ensures surfaces != [] ==> Valid()
    {
      FreshWakeup(surfaces);
      this.surfaces := surfaces;
      ready, generation, applied, timer, draining, closed := {}, 0, -1, false, false, false;
    }

    method Start(surface: string)
      modifies this
      ensures View() == BuildStarted(old(View()), surface)
      ensures old(Valid()) && surface in surfaces ==> Valid()
    {
      ready := ready - {surface};
      generation := generation + 1;
      timer := false;
    }

    method Finish(surface: string, success: bool)
      modifies this
      ensures View() == BuildFinished(old(View()), surface, success)
      ensures old(Valid()) ==> Valid()
    {
      if success { ready := ready + {surface}; } else { ready := ready - {surface}; }
      Arm();
    }

    method InvalidateAll()
      modifies this
      ensures View() == Invalidate(old(View()))
      ensures old(Valid()) ==> Valid()
    {
      generation := generation + 1;
      Arm();
    }

    method Shut()
      modifies this
      ensures View() == Close(old(View()))
      ensures old(Valid()) ==> Valid()
    {
      closed := true;
      timer := false;
    }

    method Arm()
      modifies this`timer
      ensures View() == Schedule(old(View()))
    {
      timer := false;
      if closed || !(forall s | s in surfaces :: s in ready) { return; }
      timer := true;
    }

    /** The timer callback up to its await; the restart begins for the returned generation. */
    method Drain() returns (begun: Option<int>)
      modifies this
      ensures View() == TimerFires(old(View()))
      ensures begun == if Drains(old(View())) then Some(old(generation)) else None
      ensures old(Valid()) ==> Valid()
    {
      timer := false;
      if closed || draining || !(forall s | s in surfaces :: s in ready) || applied == generation { return None; }
      draining := true;
      drainedGeneration := generation;
      begun := Some(generation);
    }

    method FinishDrain(generation: int, success: bool)
      requires draining && drainedGeneration == generation
      modifies this
      ensures View() == DrainEnds(old(View()), success)
      ensures old(Valid()) ==> Valid()
    {
      applied := if success then generation else this.generation;
      draining := false;
      if applied != this.generation { Arm(); }
    }
  }
}
