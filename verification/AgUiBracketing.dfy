/**
 Every stream of an observer is well-bracketed, stays within its bounds and treats each source event
 as all or nothing, whatever the steps of the run.
 */
module AgUiBracketing {
  import opened Sorting
  import opened AgUi

  // ---------------------------------------------------------------- one batch of pushes

  /** A batch is queued up to its first failure, which closes the stream; nothing older is touched. */
  lemma {:induction false} PushAllShape(r: Run, s: Observer, xs: seq<Element>) returns (k: nat)
    requires !s.closed && s.error.None?
    ensures k <= |xs|
    ensures var p := PushAll(r, s, xs);
            && p == s.(queue := s.queue + xs[..k], buffered := p.buffered, closed := p.closed,
                       error := p.error, waiting := p.waiting)
            && (k == |xs| ==> !p.closed && p.error.None? && p.buffered == s.buffered
                              && p.waiting == (s.waiting && xs == []))
            && (k < |xs| ==> p.closed && p.error.Some? && p.buffered == [] && !p.waiting)
            && (|s.queue| <= MAX_QUEUE ==> |p.queue| <= MAX_QUEUE)
    decreases |xs|
  {
    if xs == [] {
      k := 0;
      assert s.queue + xs[..0] == s.queue;
    } else {
      var next := Push(r, s, xs[0]);
      if next.closed {
        k := 0;
        PushAllClosed(r, next, xs[1..]);
        assert s.queue + xs[..0] == s.queue;
      } else {
        var rest := PushAllShape(r, next, xs[1..]);
        k := rest + 1;
        assert xs[..k] == [xs[0]] + xs[1..][..rest];
      }
    }
  }

  lemma {:induction false} PushAllClosed(r: Run, s: Observer, xs: seq<Element>)
    requires s.closed
    ensures PushAll(r, s, xs) == s
    decreases |xs|
  {
    if xs != [] { PushAllClosed(r, s, xs[1..]); }
  }

  lemma {:induction false} PushAllJoin(r: Run, s: Observer, xs: seq<Element>, ys: seq<Element>)
    ensures PushAll(r, s, xs + ys) == PushAll(r, PushAll(r, s, xs), ys)
    decreases |xs|
  {
    if xs == [] {
      assert xs + ys == ys;
    } else {
      PushAllJoin(r, Push(r, s, xs[0]), xs[1..], ys);
      assert (xs + ys)[1..] == xs[1..] + ys;
    }
  }

  lemma {:induction false} ReceiveAllClosed(r: Run, s: Observer, events: seq<HostEvent>)
    requires s.closed
    ensures ReceiveAll(r, s, events) == s
    decreases |events|
  {
    if events != [] { ReceiveAllClosed(r, s, events[1..]); }
  }

  /** The error is set only together with closing. */
  predicate Healthy(s: Observer) { s.error.Some? ==> s.closed }

  /** The events a live stream projects. */
  predicate Takes(r: Run, s: Observer, e: HostEvent) {
    !s.closed && s.live && Relevant(r, e) && s.last < e.sequence && SafeSequence(e.sequence) && r.eventOk(e)
  }

  /** Receiving either projects the event as a whole or emits nothing and moves no cursor. */
  lemma ReceiveShape(r: Run, s: Observer, e: HostEvent)
    requires Healthy(s)
    ensures var p := Receive(r, s, e);
            && Healthy(p) && p.live == s.live && p.delivered == s.delivered
            && (s.closed ==> p.closed)
            && (Takes(r, s, e) && p.error.None? ==>
                  && p.accepted == s.accepted + [e] && p.last == e.sequence
                  && p.queue == Commit(s.(queue := s.queue + Stamp(s.last, FromEvent(e), Bodies(r, s.text, e))),
                                       e.sequence).queue)
            && (!(Takes(r, s, e) && p.error.None?) ==>
                  p.accepted == s.accepted && p.last == s.last && p.queue == s.queue
                  && (!p.closed && Relevant(r, e) && s.live ==> e.sequence <= s.last))
  {
    if Takes(r, s, e) {
      var xs := Stamp(s.last, FromEvent(e), Bodies(r, s.text, e));
      var k := PushAllShape(r, s.(text := TextAfter(s.text, e)), xs);
      if k == |xs| { assert xs[..k] == xs; }
    }
  }

  // ---------------------------------------------------------------- what well-bracketed means

  function BodiesOf(xs: seq<Element>): (bodies: seq<Body>)
    ensures |bodies| == |xs|
    ensures forall i | 0 <= i < |xs| :: bodies[i] == xs[i].body
  {
    seq(|xs|, i requires 0 <= i < |xs| => xs[i].body)
  }

  /** Messages started and not yet ended. */
  function Open(bodies: seq<Body>): set<string> {
    if bodies == [] then {}
    else
      var before := Open(bodies[..|bodies| - 1]);
      match bodies[|bodies| - 1]
      case TextStart(m) => before + {m}
      case TextEnd(m) => before - {m}
      case _ => before
  }

  predicate Finishes(b: Body) { b.RunFinished? || b.RunError? }

  /** What may follow `before`: the run is announced first and once, text and ends need an open message,
      a start needs a closed one, the run finishes with no message open, and nothing follows. */
  predicate Allowed(before: seq<Body>, b: Body) {
    && (b.RunStarted? <==> before == [])
    && (forall i | 0 <= i < |before| :: !Finishes(before[i]))
    && match b
       case TextStart(m) => m !in Open(before)
       case TextContent(m, _) => m in Open(before)
       case TextEnd(m) => m in Open(before)
       case RunFinished(_, _) => Open(before) == {}
       case RunError(_, _) => Open(before) == {}
       case _ => true
  }

  ghost predicate WellBracketed(bodies: seq<Body>) {
    forall i {:trigger Allowed(bodies[..i], bodies[i])} | 0 <= i < |bodies| :: Allowed(bodies[..i], bodies[i])
  }

  lemma WellBracketedPrefix(bodies: seq<Body>, k: nat)
    requires WellBracketed(bodies) && k <= |bodies|
    ensures WellBracketed(bodies[..k])
  {
    forall i | 0 <= i < k ensures Allowed(bodies[..k][..i], bodies[..k][i]) {
      assert bodies[..k][..i] == bodies[..i];
    }
  }

  lemma WellBracketedExtend(bodies: seq<Body>, b: Body)
    requires WellBracketed(bodies) && Allowed(bodies, b)
    ensures WellBracketed(bodies + [b])
  {
    var all := bodies + [b];
    forall i | 0 <= i < |all| ensures Allowed(all[..i], all[i]) {
      assert all[..i] == bodies[..i];
    }
  }

  /** An announced, unfinished run in which exactly the messages of `text` are open. */
  ghost predicate InProgress(bodies: seq<Body>, text: seq<string>) {
    && bodies != [] && WellBracketed(bodies) && Distinct(text)
    && (forall i | 0 <= i < |bodies| :: !Finishes(bodies[i]))
    && (forall m :: m in Open(bodies) <==> m in text)
  }

  lemma InProgressExtend(bodies: seq<Body>, text: seq<string>, b: Body, text': seq<string>)
    requires InProgress(bodies, text) && Allowed(bodies, b) && !Finishes(b) && Distinct(text')
    requires forall m :: m in text' <==> (b.TextStart? && m == b.messageId)
                                         || (m in text && !(b.TextEnd? && m == b.messageId))
    ensures InProgress(bodies + [b], text')
  {
    WellBracketedExtend(bodies, b);
    assert (bodies + [b])[..|bodies|] == bodies;
  }

  lemma {:induction false} EndsInProgress(bodies: seq<Body>, text: seq<string>)
    requires InProgress(bodies, text)
    ensures InProgress(bodies + Ends(text), [])
    decreases |text|
  {
    if text == [] {
      assert bodies + Ends(text) == bodies;
    } else {
      assert text[0] in text;
      assert forall m :: m in text[1..] <==> m in text && m != text[0];
      InProgressExtend(bodies, text, TextEnd(text[0]), text[1..]);
      EndsInProgress(bodies + [TextEnd(text[0])], text[1..]);
      assert bodies + Ends(text) == bodies + [TextEnd(text[0])] + Ends(text[1..]);
    }
  }

  lemma ClosingBracketed(r: Run, bodies: seq<Body>, state: RunState)
    requires InProgress(bodies, [])
    ensures WellBracketed(bodies + [Closing(r, state)])
  {
    assert Open(bodies) == {};
    WellBracketedExtend(bodies, Closing(r, state));
  }

  lemma StateBodiesBracketed(r: Run, bodies: seq<Body>, text: seq<string>, state: RunState)
    requires InProgress(bodies, text)
    ensures WellBracketed(bodies + StateBodies(r, text, state))
    ensures !Terminal(state) ==> InProgress(bodies + StateBodies(r, text, state), text)
  {
    var report := Custom("doolittle.run.state", StateReport(state, r.target, r.runId));
    InProgressExtend(bodies, text, report, text);
    if Terminal(state) {
      EndsInProgress(bodies + [report], text);
      var ended := bodies + [report] + Ends(text);
      ClosingBracketed(r, ended, state);
      assert bodies + ([report] + (Ends(text) + [Closing(r, state)])) == ended + [Closing(r, state)];
    } else {
      assert StateBodies(r, text, state) == [report];
    }
  }

  /** The projection of any accepted event continues a run in progress correctly. */
  lemma BodiesBracketed(r: Run, bodies: seq<Body>, text: seq<string>, e: HostEvent)
    requires InProgress(bodies, text) && e.RunEvent?
    ensures WellBracketed(bodies + Bodies(r, text, e))
    ensures !EndsRun(e) ==> InProgress(bodies + Bodies(r, text, e), TextAfter(text, e))
  {
    assert bodies + [] == bodies;
    match e.what
    case Delta(m, delta, _) =>
      if delta != "" {
        var all, text' := bodies, TextAfter(text, e);
        if m !in text {
          InProgressExtend(all, text, TextStart(m), text');
          all := all + [TextStart(m)];
          var source := Custom("doolittle.message.source", MessageSource(m, SourceBot(e)));
          InProgressExtend(all, text', source, text');
          all := all + [source];
        }
        InProgressExtend(all, text', TextContent(m, delta), text');
        assert bodies + Bodies(r, text, e) == all + [TextContent(m, delta)];
      }
    case Completed(m) =>
      if m in text { InProgressExtend(bodies, text, TextEnd(m), Without(text, m)); } else { WithoutAbsent(text, m); }
    case StateChanged(state) => StateBodiesBracketed(r, bodies, text, state);
    case ApprovalRequested(_, _) => InProgressExtend(bodies, text, Bodies(r, text, e)[0], text);
    case Extension(_, _) => InProgressExtend(bodies, text, Bodies(r, text, e)[0], text);
  }

  lemma {:induction false} WithoutAbsent(ids: seq<string>, id: string)
    requires id !in ids
    ensures Without(ids, id) == ids
  {
    if ids != [] { WithoutAbsent(ids[1..], id); }
  }

  // ---------------------------------------------------------------- invariants of every step

  ghost predicate Bounded(s: Observer) {
    && |s.queue| <= MAX_QUEUE && |s.buffered| <= MAX_QUEUE
    && (s.closed || s.live ==> s.buffered == [])
    && (s.error.Some? ==> s.closed)
    && (s.waiting ==> s.queue == [] && !s.closed)
  }

  ghost predicate Bracketed(s: Observer) {
    var bodies := BodiesOf(Emitted(s));
    && WellBracketed(bodies)
    && (!s.closed ==> if s.live then InProgress(bodies, s.text) else bodies == [] && s.text == [])
  }

  ghost predicate Sound(s: Observer) { Bounded(s) && Bracketed(s) }

  /** Queueing some of `xs` after what was emitted shows the same bodies in the same order. */
  lemma EmittedGrows(s: Observer, xs: seq<Element>, p: Observer)
    requires p.delivered == s.delivered && p.queue == s.queue + xs
    ensures Emitted(p) == Emitted(s) + xs
    ensures BodiesOf(Emitted(p)) == BodiesOf(Emitted(s)) + BodiesOf(xs)
  {
  }

  lemma PushSound(r: Run, s: Observer, x: Element)
    requires Sound(s) && !s.closed && s.live
    requires InProgress(BodiesOf(Emitted(s)) + [x.body], s.text)
    ensures Sound(Push(r, s, x))
  {
    var p := Push(r, s, x);
    if !p.closed {
      EmittedGrows(s, [x], p);
      assert BodiesOf([x]) == [x.body];
    }
  }

  /** A batch that continues the stream correctly leaves it well-bracketed even if it is cut short. */
  lemma PushAllSound(r: Run, s: Observer, xs: seq<Element>) returns (k: nat)
    requires Sound(s) && !s.closed && s.live
    requires WellBracketed(BodiesOf(Emitted(s)) + BodiesOf(xs))
    ensures var p := PushAll(r, s, xs);
            && Bounded(p) && WellBracketed(BodiesOf(Emitted(p))) && p.text == s.text
            && p.delivered == s.delivered && p.live && p.last == s.last
            && k <= |xs| && p.queue == s.queue + xs[..k]
            && (p.closed <==> p.error.Some?) && (p.closed <==> k < |xs|)
            && (!p.closed ==> BodiesOf(Emitted(p)) == BodiesOf(Emitted(s)) + BodiesOf(xs))
  {
    k := PushAllShape(r, s, xs);
    var p := PushAll(r, s, xs);
    EmittedGrows(s, xs[..k], p);
    var all := BodiesOf(Emitted(s)) + BodiesOf(xs);
    assert BodiesOf(Emitted(p)) == all[..|Emitted(p)|];
    WellBracketedPrefix(all, |Emitted(p)|);
    if k == |xs| { assert xs[..k] == xs; }
    if xs != [] && k == |xs| { assert !p.waiting; }
  }

  lemma CommitKeepsBodies(s: Observer, sequence: int)
    ensures BodiesOf(Emitted(Commit(s, sequence))) == BodiesOf(Emitted(s))
    ensures |Commit(s, sequence).queue| == |s.queue|
  {
  }

  lemma ProjectSound(r: Run, s: Observer, e: HostEvent)
    requires Sound(s) && !s.closed && s.live && e.RunEvent?
    ensures Sound(Project(r, s, e))
  {
    var bodies := Bodies(r, s.text, e);
    var xs := Stamp(s.last, FromEvent(e), bodies);
    assert BodiesOf(xs) == bodies;
    var t := s.(text := TextAfter(s.text, e));
    var k := PushAllShape(r, t, xs);
    var pushed := PushAll(r, t, xs);
    var p := Project(r, s, e);
    if pushed.error.Some? {
      assert Emitted(p) == Emitted(s);
    } else {
      assert xs[..k] == xs;
      EmittedGrows(s, xs, pushed);
      BodiesBracketed(r, BodiesOf(Emitted(s)), s.text, e);
      CommitKeepsBodies(pushed, e.sequence);
      assert BodiesOf(Emitted(p)) == BodiesOf(Emitted(pushed));
    }
  }

  lemma ReceiveSound(r: Run, s: Observer, e: HostEvent)
    requires Sound(s)
    ensures Sound(Receive(r, s, e))
  {
    if !s.closed && s.live && Relevant(r, e) { ProjectSound(r, s, e); }
  }

  lemma {:induction false} ReceiveAllSound(r: Run, s: Observer, events: seq<HostEvent>)
    requires Sound(s)
    ensures Sound(ReceiveAll(r, s, events))
    decreases |events|
  {
    if events != [] {
      ReceiveSound(r, s, events[0]);
      ReceiveAllSound(r, Receive(r, s, events[0]), events[1..]);
    }
  }

  lemma FirstInProgress(b: Body)
    requires b.RunStarted?
    ensures InProgress([b], [])
  {
    assert [b][..0] == [];
    assert Open([b]) == Open([b][..0]) == {};
    assert Allowed([b][..0], [b][0]);
  }

  lemma AnnounceSound(r: Run, s: Observer, source: Raw)
    requires Sound(s) && !s.closed && !s.live
    ensures Sound(Announce(r, s, source).(buffered := []))
  {
    var x := Element(s.last, source, RunStarted(r.target.sessionId, r.runId));
    var a := Announce(r, s, source).(buffered := []);
    assert |BodiesOf(Emitted(s))| == 0 && Emitted(s) == [];
    if a.closed {
      SameEmittedSound(s, a);
    } else {
      assert Emitted(a) == [x];
      assert BodiesOf([x]) == [x.body];
      FirstInProgress(x.body);
    }
  }

  lemma StartSound(r: Run, s: Observer, source: Raw)
    requires Sound(s)
    ensures Sound(Start(r, s, source))
    ensures var p := Start(r, s, source); p.live || p.closed
  {
    if !s.closed && !s.live {
      AnnounceSound(r, s, source);
      var announced := Announce(r, s, source);
      ReceiveAllSound(r, announced.(buffered := []), BySequence(announced.buffered));
      ReceiveAllLive(r, announced.(buffered := []), BySequence(announced.buffered));
    }
  }

  lemma {:induction false} ReceiveAllLive(r: Run, s: Observer, events: seq<HostEvent>)
    requires Healthy(s) && s.live
    ensures ReceiveAll(r, s, events).live
    decreases |events|
  {
    if events != [] {
      ReceiveShape(r, s, events[0]);
      ReceiveAllLive(r, Receive(r, s, events[0]), events[1..]);
    }
  }

  lemma ReportStateSound(r: Run, s: Observer, receipt: Receipt)
    requires Sound(s) && (s.live || s.closed)
    ensures Sound(ReportState(r, s, receipt))
  {
    if !s.closed && receipt.target == r.target && receipt.runId == r.runId {
      var bodies := StateBodies(r, s.text, receipt.state);
      var xs := Stamp(s.last, FromReceipt(receipt), bodies);
      assert BodiesOf(xs) == bodies;
      StateBodiesBracketed(r, BodiesOf(Emitted(s)), s.text, receipt.state);
      var k := PushAllSound(r, s, xs);
      var pushed := PushAll(r, s, xs);
      CommitKeepsBodies(pushed.(text := []), receipt.sequence);
      assert BodiesOf(Emitted(ReportState(r, s, receipt))) == BodiesOf(Emitted(pushed));
    }
  }

  lemma TerminalSnapshotSound(r: Run, s: Observer, receipt: Receipt, messages: seq<Message>)
    requires Sound(s)
    ensures Sound(TerminalSnapshot(r, s, receipt, messages))
  {
    if !s.closed {
      var cleared := s.(buffered := []);
      assert Emitted(cleared) == Emitted(s);
      StartSound(r, cleared, FromReceipt(receipt));
      var started := Start(r, cleared, FromReceipt(receipt));
      var x := Element(started.last, FromReceipt(receipt), MessagesSnapshot(messages));
      if !started.closed {
        InProgressExtend(BodiesOf(Emitted(started)), started.text, x.body, started.text);
        PushSound(r, started, x);
      }
      ReportStateSound(r, Push(r, started, x), receipt);
    }
  }

  lemma ApplySound(r: Run, s: Observer, step: Step)
    requires Sound(s)
    ensures Sound(Apply(r, s, step))
  {
    match step
    case HostEventArrives(e) => ReceiveSound(r, s, e);
    case RunAccepted(source) => StartSound(r, s, source);
    case TerminalRead(receipt, messages) => TerminalSnapshotSound(r, s, receipt, messages);
    case HostFails(failure) => SameEmittedSound(s, Fail(s, failure));
    case Disposed => SameEmittedSound(s, Dispose(s));
    case ConsumerPulls => NextSound(s);
    case ConsumerReturns => CancelSound(s);
  }

  lemma SameEmittedSound(s: Observer, p: Observer)
    requires Sound(s) && Emitted(p) == Emitted(s) && Bounded(p)
    requires p.closed || (p.live == s.live && p.text == s.text && p.closed == s.closed)
    ensures Sound(p)
  {
  }

  lemma NextSound(s: Observer)
    requires Sound(s)
    ensures Sound(Next(s))
  {
    assert Emitted(Next(s)) == Emitted(s);
    SameEmittedSound(s, Next(s));
  }

  lemma CancelSound(s: Observer)
    requires Sound(s)
    ensures Sound(Cancel(s))
  {
    assert BodiesOf(Emitted(Cancel(s))) == BodiesOf(Emitted(s))[..|s.delivered|];
    WellBracketedPrefix(BodiesOf(Emitted(s)), |s.delivered|);
  }

  lemma {:induction false} ReachedSound(r: Run, after: int, steps: seq<Step>)
    ensures Sound(Reached(r, Opened(after), steps))
  {
    if steps == [] {
      assert BodiesOf(Emitted(Opened(after))) == [];
    } else {
      ReachedSound(r, after, steps[..|steps| - 1]);
      ApplySound(r, Reached(r, Opened(after), steps[..|steps| - 1]), steps[|steps| - 1]);
    }
  }

  // ---------------------------------------------------------------- main results

  /** In every run, what was emitted, and so also what the consumer has read, is well-bracketed. */
  lemma EveryStreamWellBracketed(r: Run, after: int, steps: seq<Step>)
    ensures var s := Reached(r, Opened(after), steps);
            WellBracketed(BodiesOf(Emitted(s))) && WellBracketed(BodiesOf(s.delivered))
  {
    var s := Reached(r, Opened(after), steps);
    ReachedSound(r, after, steps);
    assert BodiesOf(s.delivered) == BodiesOf(Emitted(s))[..|s.delivered|];
    WellBracketedPrefix(BodiesOf(Emitted(s)), |s.delivered|);
  }

  /** In every run the queue and the backlog stay within their limit and no consumer waits on a
      stream that is closed or has something to read. */
  lemma EveryStreamBounded(r: Run, after: int, steps: seq<Step>)
    ensures var s := Reached(r, Opened(after), steps);
            && |s.queue| <= MAX_QUEUE && |s.buffered| <= MAX_QUEUE
            && (s.waiting ==> s.queue == [] && !s.closed)
            && (s.error.Some? ==> s.closed)
  {
    ReachedSound(r, after, steps);
  }

  /** An event that fails closes the stream and leaves queue, ids, cursor and history as they were. */
  lemma ReceiveIsAtomic(r: Run, s: Observer, e: HostEvent)
    requires Sound(s) && s.error.None?
    ensures var p := Receive(r, s, e);
            p.error.Some? ==> p.queue == s.queue && p.last == s.last && p.delivered == s.delivered
                              && p.accepted == s.accepted && p.closed
  {
    ReceiveShape(r, s, e);
  }

  function Pulls(s: Observer, n: nat): Observer { if n == 0 then s else Next(Pulls(s, n - 1)) }

  /** After a failure the consumer still reads every element queued before it, then finds the stream
      closed with that failure. */
  lemma {:induction false} QueueDrainsBeforeError(s: Observer, n: nat)
    requires s.closed && n <= |s.queue|
    ensures Pulls(s, n) == s.(queue := s.queue[n..], delivered := s.delivered + s.queue[..n])
    ensures n == |s.queue| ==> Next(Pulls(s, n)) == Pulls(s, n)
  {
    if n == 0 {
      assert s.delivered + s.queue[..0] == s.delivered;
    } else {
      QueueDrainsBeforeError(s, n - 1);
      assert s.queue[..n] == s.queue[..n - 1] + [s.queue[n - 1]];
    }
  }
}
