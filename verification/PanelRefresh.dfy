/**
 The coalescing refresh of the terminal panels: requests arm one timer, the timer starts one loop, and the
 loop repeats while requests came in. `promise` is the variable that guards the loop; `running` and `ended`
 count the loop bodies awaiting a refresh and those whose `finally` is still to come. `requested` and `covered`
 count the requests made and those that a refresh begun after them has answered.
 */
module PanelRefresh {

  datatype Panels = Panels(
    queued: bool, timer: bool, promise: bool, running: nat, ended: nat, requested: nat, covered: nat)

  const IDLE := Panels(false, false, false, 0, 0, 0, 0)

  function Request(p: Panels): Panels {
    p.(queued := true, timer := true, requested := p.requested + 1)
  }

  /** The loop's next turn takes the request flag down before it refreshes. */
  function BeginRefresh(p: Panels): Panels {
    p.(queued := false, covered := p.requested)
  }

  datatype Event = Requested | TimerFired | RefreshSettled(ok: bool) | LoopFinally

  predicate Enabled(p: Panels, e: Event) {
    match e
    case Requested => true
    case TimerFired => p.timer
    case RefreshSettled(_) => p.running > 0
    case LoopFinally => p.ended > 0
  }

  function Step(p: Panels, e: Event): Panels
    requires Enabled(p, e)
  {
    match e
    case Requested => Request(p)
    case TimerFired =>
      var fired := p.(timer := false);
      if p.promise then fired else BeginRefresh(fired.(promise := true, running := p.running + 1))
    case RefreshSettled(ok) =>
      if ok && p.queued then BeginRefresh(p) else p.(running := p.running - 1, ended := p.ended + 1)
    case LoopFinally =>
      p.(promise := false, ended := p.ended - 1, timer := p.timer || p.queued)
  }

  ghost predicate Execution(events: seq<Event>, states: seq<Panels>) {
    && |states| == |events| + 1 && states[0] == IDLE
    && forall i | 0 <= i < |events| :: Enabled(states[i], events[i]) && states[i + 1] == Step(states[i], events[i])
  }

  /** The promise stands for exactly one loop. */
  predicate OneLoop(p: Panels) { p.running + p.ended == if p.promise then 1 else 0 }

  predicate Scheduled(p: Panels) {
    && (p.queued <==> p.covered < p.requested) && p.covered <= p.requested
    && (p.queued ==> p.timer || p.promise)
  }

  /** In every interleaving, failed refreshes included, scheduled loops never overlap: there is one loop body
      while the promise is set and none otherwise. */
  lemma {:induction false} LoopsNeverOverlap(events: seq<Event>, states: seq<Panels>, i: nat)
    requires Execution(events, states) && i <= |events|
    ensures OneLoop(states[i])
  {
    if i > 0 {
      LoopsNeverOverlap(events, states, i - 1);
      assert states[i] == Step(states[i - 1], events[i - 1]);
    }
  }

  /** In every interleaving a queued refresh has its timer armed or a loop that has not finished, and when there
      is neither, every request was answered by a refresh that began after it. */
  lemma {:induction false} NoRequestForgotten(events: seq<Event>, states: seq<Panels>, i: nat)
    requires Execution(events, states) && i <= |events|
    ensures Scheduled(states[i])
    ensures states[i].queued ==> states[i].timer || states[i].running + states[i].ended == 1
    ensures !states[i].timer && states[i].running + states[i].ended == 0 ==> states[i].covered == states[i].requested
  {
    LoopsNeverOverlap(events, states, i);
    if i > 0 {
      NoRequestForgotten(events, states, i - 1);
      assert states[i] == Step(states[i - 1], events[i - 1]);
    }
  }

  /** The closure variables. The counts are what the promises of the running loops stand for. */
  class RefreshScheduler {
    var queued: bool
    var timer: bool
    var promise: bool
    ghost var running: nat
    ghost var ended: nat
    ghost var requested: nat
    ghost var covered: nat

    ghost function View(): Panels
      reads this
    {
      Panels(queued, timer, promise, running, ended, requested, covered)
    }

    /** No two loops, and no request without a timer or a loop. */
    ghost predicate Valid()
      reads this
    {
      OneLoop(View()) && Scheduled(View())
    }

    constructor ()
      ensures Valid() && View() == IDLE
    {
      queued, timer, promise, running, ended, requested, covered := false, false, false, 0, 0, 0, 0;
    }

    method Schedule()
      requires Valid()
      modifies this
      ensures Valid() && View() == Request(old(View()))
    {
      requested := requested + 1;
      queued := true;
      if timer { return; }
      timer := true;
    }

    method OnTimer()
      requires Valid() && timer
      modifies this
      ensures Valid() && View() == Step(old(View()), TimerFired)
      ensures running + ended == 1
    {
      timer := false;
      if promise { return; }
      promise := true;
      running := running + 1;
      queued := false;
      covered := requested;
    }

    /** The awaited refresh is over; the loop goes round again while there is a new request. */
    method OnRefreshSettled(ok: bool)
      requires Valid() && running > 0
      modifies this
      ensures Valid() && View() == Step(old(View()), RefreshSettled(ok))
    {
      if ok && queued {
        queued := false;
        covered := requested;
      } else {
        running := running - 1;
        ended := ended + 1;
      }
    }

    /** Frees the promise, and arms the timer again for a request the loop did not see. */
    method OnFinally()
      requires Valid() && ended > 0
      modifies this
      ensures Valid() && View() == Step(old(View()), LoopFinally)
      ensures running + ended == 0 && (timer || covered == requested)
    {
      promise := false;
      ended := ended - 1;
      if queued && !timer { timer := true; }
    }
  }
}
