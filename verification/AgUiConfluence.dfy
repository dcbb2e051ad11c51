/**
 Before a run is accepted its events may arrive in any order: acceptance sorts the backlog, so the
 state it leads to depends only on which events arrived.
 */
module AgUiConfluence {
  import opened Sorting
  import opened AgUi

  /** The events of `events` a stream opened at `after` keeps until its run is accepted. */
  function Backlog(r: Run, after: int, events: seq<HostEvent>): (kept: seq<HostEvent>)
    ensures forall e :: e in kept <==> e in events && Relevant(r, e) && after < e.sequence
  {
    if events == [] then []
    else
      var front, e := events[..|events| - 1], events[|events| - 1];
      assert events == front + [e];
      Backlog(r, after, front) + if Relevant(r, e) && after < e.sequence then [e] else []
  }

  lemma {:induction false} BacklogDistinct(r: Run, after: int, events: seq<HostEvent>)
    requires Distinct(events)
    ensures Distinct(Backlog(r, after, events))
  {
    if events != [] {
      var front, e := events[..|events| - 1], events[|events| - 1];
      BacklogDistinct(r, after, front);
      assert e !in front;
      assert e !in Backlog(r, after, front);
    }
  }

  lemma {:induction false} ReceiveAllAppend(r: Run, s: Observer, a: seq<HostEvent>, e: HostEvent)
    ensures ReceiveAll(r, s, a + [e]) == Receive(r, ReceiveAll(r, s, a), e)
    decreases |a|
  {
    if a == [] {
      assert [e][1..] == [];
      assert a + [e] == [e];
    } else {
      ReceiveAllAppend(r, Receive(r, s, a[0]), a[1..], e);
      assert (a + [e])[1..] == a[1..] + [e];
    }
  }

  ghost predicate Acceptable(r: Run, e: HostEvent) { SafeSequence(e.sequence) && r.eventOk(e) }

  /** Events that pass the checks and fit the limit are simply kept. */
  lemma {:induction false} BacklogKept(r: Run, after: int, events: seq<HostEvent>)
    requires forall e | e in Backlog(r, after, events) :: Acceptable(r, e)
    requires |Backlog(r, after, events)| <= MAX_QUEUE
    ensures ReceiveAll(r, Opened(after), events) == Opened(after).(buffered := Backlog(r, after, events))
  {
    if events != [] {
      var front, e := events[..|events| - 1], events[|events| - 1];
      assert events == front + [e];
      BacklogFront(r, after, events);
      BacklogKept(r, after, front);
      ReceiveAllAppend(r, Opened(after), front, e);
    }
  }

  lemma BacklogFront(r: Run, after: int, events: seq<HostEvent>)
    requires events != []
    ensures var front, e := events[..|events| - 1], events[|events| - 1];
            && |Backlog(r, after, front)| <= |Backlog(r, after, events)|
            && (forall b | b in Backlog(r, after, front) :: b in Backlog(r, after, events))
            && (Relevant(r, e) && after < e.sequence ==> e in Backlog(r, after, events)
                                                         && Backlog(r, after, events) == Backlog(r, after, front) + [e])
  {
  }

  /** Any two arrival orders of the same events with distinct sequences lead, once the run is accepted, to
      the same queue, ids, cursor and open messages, indeed to the same state. */
  lemma ArrivalOrderIrrelevant(r: Run, after: int, events: seq<HostEvent>, events': seq<HostEvent>, source: Raw)
    requires multiset(events) == multiset(events')
    requires forall i, j | 0 <= i < j < |events| :: events[i].sequence != events[j].sequence
    requires forall e | e in Backlog(r, after, events) :: Acceptable(r, e)
    requires |Backlog(r, after, events)| <= MAX_QUEUE
    ensures Start(r, ReceiveAll(r, Opened(after), events), source)
            == Start(r, ReceiveAll(r, Opened(after), events'), source)
  {
    var kept, kept' := Backlog(r, after, events), Backlog(r, after, events');
    SameMembers(events, events');
    DistinctMembers(events);
    DistinctMembers(events');
    BacklogDistinct(r, after, events);
    BacklogDistinct(r, after, events');
    DistinctPermutation(kept, kept');
    SameMembers(kept, kept');
    BacklogKept(r, after, events);
    BacklogKept(r, after, events');
    assert Comparable(EarlierEvent, kept);
    SortCanonical(EarlierEvent, kept, kept');
    SameReplay(r, after, kept, kept', source);
  }

  lemma SameReplay(r: Run, after: int, kept: seq<HostEvent>, kept': seq<HostEvent>, source: Raw)
    requires BySequence(kept) == BySequence(kept')
    ensures Start(r, Opened(after).(buffered := kept), source) == Start(r, Opened(after).(buffered := kept'), source)
  {
    var a := Announce(r, Opened(after).(buffered := kept), source);
    var a' := Announce(r, Opened(after).(buffered := kept'), source);
    assert a.(buffered := []) == a'.(buffered := []);
    assert a.buffered == (if a.closed then [] else kept) && a'.buffered == (if a.closed then [] else kept');
  }
}
