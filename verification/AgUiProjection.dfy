/**
 The projection object itself: fields updated push by push, as the adapter does it. Every method is
 proved to take the state exactly where the step functions of `AgUi` say.
 */
module AgUiProjection {
  import Sorting
  import opened Prelude
  import opened AgUi
  import opened AgUiBracketing

  class Projection {
    const run: Run
    var queue: seq<Element>
    var buffered: seq<HostEvent>
    var text: seq<string>
    var last: int
    var live: bool
    var closed: bool
    var error: Option<Failure>
    var waiting: bool
    ghost var delivered: seq<Element>
    ghost var accepted: seq<HostEvent>

    ghost function View(): Observer
      reads this
    {
      Observer(queue, buffered, text, last, live, closed, error, waiting, delivered, accepted)
    }

    constructor (run: Run, after: int)
      ensures this.run == run && View() == Opened(after)
    {
      this.run := run;
      queue, buffered, text, last := [], [], [], after;
      live, closed, error, waiting := false, false, None, false;
      delivered, accepted := [], [];
    }

    /** A projection needs a non-negative replay cursor. */
    static method Open(run: Run, after: int) returns (p: Option<Projection>)
      ensures p.Some? <==> 0 <= after <= MAX_SAFE_INTEGER
      ensures p.Some? ==> fresh(p.value) && p.value.run == run && p.value.View() == Opened(after)
    {
      if 0 <= after <= MAX_SAFE_INTEGER {
        var projection := new Projection(run, after);
        p := Some(projection);
      } else {
        p := None;
      }
    }

    method DisposeStream()
      modifies this
      ensures View() == Dispose(old(View()))
    {
      if closed { return; }
      closed := true;
      buffered := [];
      waiting := false;
    }

    method FailWith(failure: Failure)
      modifies this
      ensures View() == Fail(old(View()), failure)
    {
      if !closed {
        error := Some(failure);
        DisposeStream();
      }
    }

    method PushElement(x: Element)
      modifies this
      ensures View() == Push(run, old(View()), x)
    {
      if closed { return; }
      if |queue| >= MAX_QUEUE {
        FailWith(QueueExceeded);
      } else if !run.elementOk(x) {
        FailWith(NotJsonSafe);
      } else {
        queue := queue + [x];
        waiting := false;
      }
    }

    method EndMessage(messageId: string, source: Raw)
      modifies this
      ensures var s := old(View());
              View() == if messageId in s.text
                        then Push(run, s.(text := Without(s.text, messageId)),
                                  Element(s.last, source, TextEnd(messageId)))
                        else s
    {
      if messageId in text {
        text := Without(text, messageId);
        PushElement(Element(last, source, TextEnd(messageId)));
      }
    }

    method CommitCursor(sequence: int)
      modifies this
      ensures View() == Commit(old(View()), sequence)
    {
      if |queue| > 0 {
        queue := queue[|queue| - 1 := queue[|queue| - 1].(id := sequence)];
      }
      last := sequence;
    }

    /** Ends every open message, in the order they were started. */
    method EndMessages(source: Raw)
      requires Sorting.Distinct(text)
      modifies this
      ensures var s := old(View());
              View() == PushAll(run, s, Stamp(s.last, source, Ends(s.text))).(text := [])
    {
      ghost var s := View();
      var ids := text;
      for i := 0 to |ids|
        invariant ids == s.text && text == ids[i..] && last == s.last
        invariant View() == PushAll(run, s, Stamp(s.last, source, Ends(ids[..i]))).(text := ids[i..])
      {
        ghost var before := PushAll(run, s, Stamp(s.last, source, Ends(ids[..i])));
        ghost var x := Element(s.last, source, TextEnd(ids[i]));
        WithoutHead(ids[i..]);
        EndMessage(ids[i], source);
        EndsSnoc(run, s, source, ids, i);
        PushIgnoresText(run, before, ids[i + 1..], x);
      }
      assert ids[..|ids|] == ids;
    }

    /** Ends every open message and pushes the closing element. */
    method PushClosing(state: RunState, source: Raw)
      requires Sorting.Distinct(text)
      modifies this
      ensures var s := old(View());
              View() == Push(run, PushAll(run, s, Stamp(s.last, source, Ends(s.text))),
                             Element(s.last, source, Closing(run, state))).(text := [])
    {
      ghost var s := View();
      PushAllKeeps(run, s, Stamp(s.last, source, Ends(s.text)));
      EndMessages(source);
      PushElement(Element(last, source, Closing(run, state)));
      PushIgnoresText(run, PushAll(run, s, Stamp(s.last, source, Ends(s.text))), [],
                      Element(s.last, source, Closing(run, state)));
    }

    method FinishRun(sequence: int)
      modifies this
      ensures View() == EndRun(old(View()), sequence)
    {
      if error.None? { CommitCursor(sequence); }
      DisposeStream();
    }

    /** Pushes the state report and, for a finished run, every open message's end and the closing element.
        A terminal state disposes of the stream; the cursor moves to `sequence` unless a push failed. */
    method PushState(state: RunState, sequence: int, source: Raw)
      requires !closed && error.None? && Sorting.Distinct(text)
      modifies this
      ensures View() == StateStep(run, old(View()), source, state, sequence)
    {
      StateInSteps(run, View(), source, state, sequence);
      PushElement(Element(last, source, Custom("doolittle.run.state", StateReport(state, run.target, run.runId))));
      if Terminal(state) {
        PushClosing(state, source);
        FinishRun(sequence);
      }
    }

    method PushDelta(e: HostEvent)
      requires e.RunEvent? && e.what.Delta?
      modifies this
      ensures var s := old(View());
              View() == PushAll(run, s.(text := TextAfter(s.text, e)),
                                Stamp(s.last, FromEvent(e), Bodies(run, s.text, e)))
    {
      ghost var s := View();
      ghost var t := s.(text := TextAfter(s.text, e));
      ghost var xs := Stamp(s.last, FromEvent(e), Bodies(run, s.text, e));
      var m := e.what.messageId;
      if e.what.text == "" { return; }
      if m !in text {
        text := text + [m];
        PushElement(Element(last, FromEvent(e), TextStart(m)));
        PushElement(Element(last, FromEvent(e), Custom("doolittle.message.source", MessageSource(m, SourceBot(e)))));
        ThreePushes(run, t, xs);
      } else {
        assert xs == [xs[0]];
        PushAllOne(run, t, xs[0]);
      }
      PushElement(Element(last, FromEvent(e), TextContent(m, e.what.text)));
    }

    method PushPlain(e: HostEvent)
      requires e.RunEvent? && !e.what.Delta? && !e.what.StateChanged?
      modifies this
      ensures var s := old(View());
              View() == PushAll(run, s.(text := TextAfter(s.text, e)),
                                Stamp(s.last, FromEvent(e), Bodies(run, s.text, e)))
    {
      ghost var s := View();
      ghost var t := s.(text := TextAfter(s.text, e));
      ghost var xs := Stamp(s.last, FromEvent(e), Bodies(run, s.text, e));
      if |xs| == 1 {
        assert xs == [xs[0]];
        PushAllOne(run, t, xs[0]);
      }
      match e.what {
        case Completed(m) =>
          if m !in text { WithoutAbsent(text, m); }
          EndMessage(m, FromEvent(e));
        case ApprovalRequested(id, summary) =>
          PushElement(Element(last, FromEvent(e), Custom("doolittle.approval.requested",
                                                         Approval(id, summary, e.runId, e.target))));
        case Extension(name, value) =>
          PushElement(Element(last, FromEvent(e), Custom(name, Opaque(value))));
        case _ =>
      }
    }

    /** Projects one source event; a failure takes back whatever of it was queued. */
    method ProjectEvent(e: HostEvent)
      requires !closed && live && error.None? && Sorting.Distinct(text) && Relevant(run, e)
      modifies this
      ensures View() == Project(run, old(View()), e)
    {
      ghost var s := View();
      ProjectByCutting(run, s, e);
      var queueStart := |queue|;
      if e.what.Delta? {
        PushDelta(e);
      } else if e.what.StateChanged? {
        PushAllKeeps(run, s, Stamp(s.last, FromEvent(e), Bodies(run, s.text, e)));
        PushAllIgnoresText(run, s, TextAfter(s.text, e), Stamp(s.last, FromEvent(e), Bodies(run, s.text, e)));
        PushState(e.what.state, e.sequence, FromEvent(e));
      } else {
        PushPlain(e);
      }
      if error.Some? {
        queue := queue[..queueStart];
      } else {
        CommitTwice(PushAll(run, s.(text := TextAfter(s.text, e)), Stamp(s.last, FromEvent(e), Bodies(run, s.text, e))),
                    e.sequence);
        CommitCursor(e.sequence);
        accepted := accepted + [e];
      }
    }

    method ReceiveEvent(e: HostEvent)
      requires Sound(View())
      modifies this
      ensures View() == Receive(run, old(View()), e)
    {
      if closed || e.Snapshot? || e.DraftChanged? || e.target != run.target || e.runId != run.runId
         || e.sequence <= last
      {
        return;
      }
      if !SafeSequence(e.sequence) {
        FailWith(InvalidSequence);
      } else if !run.eventOk(e) {
        FailWith(NotJsonSafe);
      } else if !live {
        if |buffered| >= MAX_QUEUE {
          FailWith(BacklogExceeded);
        } else {
          buffered := buffered + [e];
        }
      } else {
        ProjectEvent(e);
      }
    }

    method StartRun(source: Raw)
      requires Sound(View())
      modifies this
      ensures View() == Start(run, old(View()), source)
    {
      if closed || live { return; }
      AnnounceSound(run, View(), source);
      PushElement(Element(last, source, RunStarted(run.target.sessionId, run.runId)));
      live := true;
      var backlog := BySequence(buffered);
      buffered := [];
      ghost var announced := View();
      for i := 0 to |backlog|
        invariant Sound(View())
        invariant ReceiveAll(run, announced, backlog) == ReceiveAll(run, View(), backlog[i..])
      {
        ReceiveSound(run, View(), backlog[i]);
        ReceiveEvent(backlog[i]);
      }
    }

    method SnapshotTerminal(receipt: Receipt, messages: seq<Message>)
      requires Sound(View())
      modifies this
      ensures View() == TerminalSnapshot(run, old(View()), receipt, messages)
    {
      if closed { return; }
      hide Sound, Start, ReportState;
      ClearedStart(run, View(), FromReceipt(receipt));
      buffered := [];
      StartRun(FromReceipt(receipt));
      ShowTranscript(receipt, messages);
    }

    /** The transcript, then the state report that ends the run. */
    method ShowTranscript(receipt: Receipt, messages: seq<Message>)
      requires Healthy(View()) && (!closed ==> Sorting.Distinct(text))
      modifies this
      ensures var shown := Element(old(last), FromReceipt(receipt), MessagesSnapshot(messages));
              View() == ReportState(run, Push(run, old(View()), shown), receipt)
    {
      hide StateStep;
      PushElement(Element(last, FromReceipt(receipt), MessagesSnapshot(messages)));
      if closed || receipt.target != run.target || receipt.runId != run.runId { return; }
      PushState(receipt.state, receipt.sequence, FromReceipt(receipt));
    }

    /** One turn of the consumer's `next`. */
    method Pull() returns (x: Option<Element>)
      modifies this
      ensures View() == Next(old(View()))
      ensures x == if old(queue) == [] then None else Some(old(queue)[0])
    {
      if |queue| > 0 {
        x := Some(queue[0]);
        delivered := delivered + [queue[0]];
        queue := queue[1..];
      } else {
        x := None;
        if !closed { waiting := true; }
      }
    }

    method ReturnConsumer()
      modifies this
      ensures View() == Cancel(old(View()))
    {
      DisposeStream();
      queue := [];
    }
  }

  lemma ClearedStart(r: Run, s: Observer, source: Raw)
    requires Sound(s)
    ensures var cleared := s.(buffered := []);
            var started := Start(r, cleared, source);
            Sound(cleared) && Healthy(started) && (!started.closed ==> Sorting.Distinct(started.text))
  {
    var cleared := s.(buffered := []);
    assert Emitted(cleared) == Emitted(s);
    StartSound(r, cleared, source);
  }

  lemma {:induction false} PushAllKeeps(r: Run, s: Observer, xs: seq<Element>)
    ensures PushAll(r, s, xs).last == s.last && PushAll(r, s, xs).text == s.text
    decreases |xs|
  {
    if xs != [] { PushAllKeeps(r, Push(r, s, xs[0]), xs[1..]); }
  }

  lemma PushAllOne(r: Run, s: Observer, x: Element)
    ensures PushAll(r, s, [x]) == Push(r, s, x)
  {
    assert PushAll(r, s, [x]) == PushAll(r, Push(r, s, x), [x][1..]);
  }

  lemma ThreePushes(r: Run, s: Observer, xs: seq<Element>)
    requires |xs| == 3
    ensures PushAll(r, s, xs) == Push(r, Push(r, Push(r, s, xs[0]), xs[1]), xs[2])
  {
    assert xs[1..][1..] == [xs[2]];
    PushAllOne(r, Push(r, Push(r, s, xs[0]), xs[1]), xs[2]);
  }

  lemma EndsSnoc(r: Run, s: Observer, source: Raw, ids: seq<string>, i: nat)
    requires i < |ids|
    ensures PushAll(r, s, Stamp(s.last, source, Ends(ids[..i + 1])))
            == Push(r, PushAll(r, s, Stamp(s.last, source, Ends(ids[..i]))), Element(s.last, source, TextEnd(ids[i])))
  {
    var x := Element(s.last, source, TextEnd(ids[i]));
    PushAllSnoc(r, s, Stamp(s.last, source, Ends(ids[..i])), x);
    assert Stamp(s.last, source, Ends(ids[..i + 1])) == Stamp(s.last, source, Ends(ids[..i])) + [x];
  }

  /** The state report, the ends and the closing element pushed one after another are one batch. */
  lemma StateBatch(r: Run, s: Observer, source: Raw, state: RunState)
    ensures var reported := Push(r, s, Element(s.last, source,
                                               Custom("doolittle.run.state", StateReport(state, r.target, r.runId))));
            PushAll(r, s, Stamp(s.last, source, StateBodies(r, s.text, state)))
            == if !Terminal(state) then reported
               else Push(r, PushAll(r, reported, Stamp(s.last, source, Ends(s.text))),
                         Element(s.last, source, Closing(r, state)))
  {
    var report := Element(s.last, source, Custom("doolittle.run.state", StateReport(state, r.target, r.runId)));
    PushAllOne(r, s, report);
    if Terminal(state) {
      var ends, x := Stamp(s.last, source, Ends(s.text)), Element(s.last, source, Closing(r, state));
      PushAllJoin(r, s, [report], ends + [x]);
      PushAllSnoc(r, Push(r, s, report), ends, x);
      assert Stamp(s.last, source, StateBodies(r, s.text, state)) == [report] + (ends + [x]);
    } else {
      assert Stamp(s.last, source, StateBodies(r, s.text, state)) == [report];
    }
  }

  lemma CommitTwice(s: Observer, sequence: int)
    ensures Commit(Commit(s, sequence), sequence) == Commit(s, sequence)
    ensures Commit(Dispose(Commit(s, sequence)), sequence) == Dispose(Commit(s, sequence))
  {
    var q, q' := Commit(s, sequence).queue, Commit(Commit(s, sequence), sequence).queue;
    assert |q| == |q'| && forall i | 0 <= i < |q| :: q[i] == q'[i];
  }

  /** Taking back a failed batch is cutting the queue to its former length. */
  lemma ProjectByCutting(r: Run, s: Observer, e: HostEvent)
    requires e.RunEvent? && !s.closed && s.error.None?
    ensures var pushed := PushAll(r, s.(text := TextAfter(s.text, e)),
                                  Stamp(s.last, FromEvent(e), Bodies(r, s.text, e)));
            |s.queue| <= |pushed.queue| && (pushed.error.Some? <==> pushed.closed) && pushed.accepted == s.accepted
            && Project(r, s, e)
               == if pushed.error.Some? then pushed.(queue := pushed.queue[..|s.queue|])
                  else
                    var committed := Commit(pushed, e.sequence).(accepted := s.accepted + [e]);
                    if EndsRun(e) then Dispose(committed) else committed
  {
    var xs := Stamp(s.last, FromEvent(e), Bodies(r, s.text, e));
    var k := PushAllShape(r, s.(text := TextAfter(s.text, e)), xs);
    assert (s.queue + xs[..k])[..|s.queue|] == s.queue;
  }

  lemma StateInSteps(r: Run, s: Observer, source: Raw, state: RunState, sequence: int)
    ensures var reported := Push(r, s, Element(s.last, source,
                                               Custom("doolittle.run.state", StateReport(state, r.target, r.runId))));
            StateStep(r, s, source, state, sequence)
            == if !Terminal(state) then reported
               else EndRun(Push(r, PushAll(r, reported, Stamp(reported.last, source, Ends(reported.text))),
                                Element(reported.last, source, Closing(r, state))).(text := []), sequence)
  {
    var report := Element(s.last, source, Custom("doolittle.run.state", StateReport(state, r.target, r.runId)));
    assert Push(r, s, report).last == s.last && Push(r, s, report).text == s.text;
    hide Push, PushAll, Stamp, Ends, StateBodies, EndRun;
    StateBatch(r, s, source, state);
  }

  lemma PushAllSnoc(r: Run, s: Observer, xs: seq<Element>, x: Element)
    ensures PushAll(r, s, xs + [x]) == Push(r, PushAll(r, s, xs), x)
  {
    PushAllJoin(r, s, xs, [x]);
    PushAllOne(r, PushAll(r, s, xs), x);
  }

  lemma PushIgnoresText(r: Run, s: Observer, text: seq<string>, x: Element)
    ensures Push(r, s.(text := text), x) == Push(r, s, x).(text := text)
  {
  }

  lemma {:induction false} PushAllIgnoresText(r: Run, s: Observer, text: seq<string>, xs: seq<Element>)
    ensures PushAll(r, s.(text := text), xs) == PushAll(r, s, xs).(text := text)
    decreases |xs|
  {
    if xs != [] {
      PushIgnoresText(r, s, text, xs[0]);
      PushAllIgnoresText(r, Push(r, s, xs[0]), text, xs[1..]);
    }
  }

  lemma WithoutHead(ids: seq<string>)
    requires ids != [] && Sorting.Distinct(ids)
    ensures Without(ids, ids[0]) == ids[1..]
  {
    assert ids[0] !in ids[1..];
    WithoutAbsent(ids[1..], ids[0]);
  }
}
