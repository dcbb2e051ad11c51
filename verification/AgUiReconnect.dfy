/**
 How the adapter opens a second stream on an existing run: the host's replies decide the one step the
 observer takes after it subscribed at the caller's cursor.
 */
module AgUiReconnect {
  import opened Prelude
  import opened AgUi
  import opened AgUiBracketing
  import opened AgUiCursor

  datatype RunReply = RunReply(accepted: bool, run: Option<Receipt>, error: Option<string>)

  datatype TranscriptReply = TranscriptReply(
    accepted: bool, messages: Option<seq<Message>>, target: Option<Target>, throughRunId: Option<string>,
    error: Option<string>)

  function Refusal(error: Option<string>, fallback: string): Step {
    HostFails(HostFailed(if error.Some? then error.value else fallback))
  }

  function ReconnectStep(r: Run, after: int, reply: RunReply, transcript: TranscriptReply): Step {
    if !reply.accepted || reply.run.None? || reply.run.value.runId != r.runId || reply.run.value.target != r.target then
      Refusal(reply.error, "Owned run receipt is unavailable.")
    else
      var receipt := reply.run.value;
      if !(0 <= receipt.sequence <= MAX_SAFE_INTEGER) then
        HostFails(HostFailed("Invalid owned run receipt cursor."))
      else if !Terminal(receipt.state) then RunAccepted(FromReceipt(receipt))
      else if after >= receipt.sequence then Disposed
      else if !transcript.accepted || transcript.messages.None? || transcript.target != Some(r.target)
              || transcript.throughRunId != Some(r.runId) then
        Refusal(transcript.error, "Canonical transcript is unavailable.")
      else TerminalRead(receipt, transcript.messages.value)
  }

  /** What can happen to a stream, already handed to its consumer, while the adapter waits for its replies:
      anything but the two steps that only the adapter takes. */
  predicate WhileWaiting(steps: seq<Step>) {
    forall step | step in steps :: !step.RunAccepted? && !step.TerminalRead?
  }

  /** Events only fill the backlog then; the consumer finds nothing to read. */
  lemma {:induction false} WaitingForReply(r: Run, after: int, steps: seq<Step>)
    requires WhileWaiting(steps)
    ensures var s := Reached(r, Opened(after), steps);
            !s.live && s.last == after && s.queue == [] && s.delivered == [] && s.text == [] && s.accepted == []
            && Healthy(s)
  {
    if steps != [] {
      var front := steps[..|steps| - 1];
      assert forall step | step in front :: step in steps;
      WaitingForReply(r, after, front);
      assert steps[|steps| - 1] in steps;
    }
  }

  /** Whatever the host replies and whatever host and consumer do meanwhile, the step the adapter takes is one
      that keeps ids exact cursors. */
  lemma ReconnectDisciplined(r: Run, after: int, steps: seq<Step>, reply: RunReply, transcript: TranscriptReply)
    requires WhileWaiting(steps)
    ensures Disciplined(Reached(r, Opened(after), steps), ReconnectStep(r, after, reply, transcript))
  {
    WaitingForReply(r, after, steps);
  }

  /** So ids are exact cursors in every run of a reconnected stream, whatever came before that step and after. */
  lemma ReconnectedRunDisciplined(r: Run, after: int, before: seq<Step>, reply: RunReply,
                                  transcript: TranscriptReply, later: seq<Step>)
    requires WhileWaiting(before) && WhileWaiting(later)
    ensures DisciplinedRun(r, after, before + [ReconnectStep(r, after, reply, transcript)] + later)
  {
    var all := before + [ReconnectStep(r, after, reply, transcript)] + later;
    forall i | 0 <= i < |all| ensures Disciplined(Reached(r, Opened(after), all[..i]), all[i]) {
      if i < |before| {
        assert all[i] in before;
      } else if i == |before| {
        assert all[..i] == before;
        ReconnectDisciplined(r, after, before, reply, transcript);
      } else {
        assert all[i] == later[i - |before| - 1];
      }
    }
  }

  /** What a finished run is shown as. */
  function TerminalElements(r: Run, after: int, receipt: Receipt, messages: seq<Message>): seq<Element> {
    var source := FromReceipt(receipt);
    [Element(after, source, RunStarted(r.target.sessionId, r.runId)),
     Element(after, source, MessagesSnapshot(messages)),
     Element(after, source, Custom("doolittle.run.state", StateReport(receipt.state, r.target, r.runId))),
     Element(after, source, Closing(r, receipt.state))]
  }

  /** The whole transcript was shown, and only the closing element carries the cursor past the run. */
  ghost predicate AllShown(s: Observer, xs: seq<Element>, sequence: int) {
    && |xs| == 4 && s.error.None?
    && s.queue == xs[..3] + [xs[3].(id := sequence)]
  }

  /** The elements before the first unsafe one were shown, and the cursor stays where it was. */
  ghost predicate CutShort(r: Run, s: Observer, xs: seq<Element>) {
    && s.error == Some(NotJsonSafe) && s.queue < xs
    && (forall i | 0 <= i < |s.queue| :: r.elementOk(xs[i])) && !r.elementOk(xs[|s.queue|])
  }

  /** Reconnecting to a finished run not yet read to its end shows the whole transcript between one start
      and one closing element and moves the cursor past the run, from where a further reconnection ends at
      once; or, exactly when some element is unsafe, it fails there with the cursor unmoved. */
  lemma TerminalReconnect(r: Run, after: int, steps: seq<Step>, receipt: Receipt, messages: seq<Message>,
                          reply: RunReply, transcript: TranscriptReply)
    requires ReconnectStep(r, after, reply, transcript) == TerminalRead(receipt, messages)
    requires WhileWaiting(steps) && !Reached(r, Opened(after), steps).closed
    ensures var s := Apply(r, Reached(r, Opened(after), steps), TerminalRead(receipt, messages));
            var xs := TerminalElements(r, after, receipt, messages);
            && s.closed
            && (if forall x | x in xs :: r.elementOk(x) then AllShown(s, xs, receipt.sequence) else CutShort(r, s, xs))
            && Cursor(after, s.queue) == if s.error.None? then receipt.sequence else after
    ensures ReconnectStep(r, receipt.sequence, reply, transcript) == Disposed
  {
    hide Reached, PushAll, TerminalSnapshot;
    var s0 := Reached(r, Opened(after), steps);
    WaitingForReply(r, after, steps);
    var xs := TerminalElements(r, after, receipt, messages);
    ShownAsOneBatch(r, s0, receipt, messages);
    var begun := s0.(buffered := [], live := true);
    var k := PushedUntilUnsafe(r, begun, xs);
    var pushed := PushAll(r, begun, xs);
    assert pushed.queue == xs[..k];
  }

  /** Pushing onto a queue with room stops at the first unsafe element. */
  lemma {:induction false} PushedUntilUnsafe(r: Run, s: Observer, xs: seq<Element>) returns (k: nat)
    requires !s.closed && s.error.None? && |s.queue| + |xs| <= MAX_QUEUE
    ensures k <= |xs| && (forall i | 0 <= i < k :: r.elementOk(xs[i])) && (k < |xs| ==> !r.elementOk(xs[k]))
    ensures var p := PushAll(r, s, xs);
            && p.queue == s.queue + xs[..k] && p.text == s.text && p.last == s.last
            && p.closed == (k < |xs|) && p.error == if k < |xs| then Some(NotJsonSafe) else None
    decreases |xs|
  {
    if xs == [] {
      k := 0;
    } else if !r.elementOk(xs[0]) {
      k := 0;
      PushAllClosed(r, Push(r, s, xs[0]), xs[1..]);
    } else {
      var rest := PushedUntilUnsafe(r, Push(r, s, xs[0]), xs[1..]);
      k := rest + 1;
      assert xs[..k] == [xs[0]] + xs[1..][..rest];
    }
  }

  /** The start, the transcript and the state report are one batch. */
  lemma ShownAsOneBatch(r: Run, s: Observer, receipt: Receipt, messages: seq<Message>)
    requires !s.closed && !s.live && s.text == [] && receipt.target == r.target && receipt.runId == r.runId
    requires Terminal(receipt.state)
    ensures TerminalSnapshot(r, s, receipt, messages)
            == EndRun(PushAll(r, s.(buffered := [], live := true), TerminalElements(r, s.last, receipt, messages)),
                      receipt.sequence)
  {
    var source, xs := FromReceipt(receipt), TerminalElements(r, s.last, receipt, messages);
    var begun := s.(buffered := [], live := true);
    StartOfNothing(r, s.(buffered := []), source);
    assert Start(r, s.(buffered := []), source) == Push(r, begun, xs[0]);
    var shown := Push(r, Push(r, begun, xs[0]), xs[1]);
    assert xs == [xs[0], xs[1]] + [xs[2], xs[3]];
    PushAllJoin(r, begun, [xs[0], xs[1]], [xs[2], xs[3]]);
    TwoPushes(r, begun, [xs[0], xs[1]]);
    assert StateBodies(r, [], receipt.state) == [xs[2].body, xs[3].body];
    assert Stamp(s.last, source, StateBodies(r, [], receipt.state)) == [xs[2], xs[3]];
    TwoPushes(r, shown, [xs[2], xs[3]]);
  }

  lemma TwoPushes(r: Run, s: Observer, xs: seq<Element>)
    requires |xs| == 2
    ensures PushAll(r, s, xs) == Push(r, Push(r, s, xs[0]), xs[1])
  {
    assert xs[1..] == [xs[1]];
    assert [xs[1]][1..] == [];
    assert PushAll(r, Push(r, s, xs[0]), [xs[1]]) == PushAll(r, Push(r, Push(r, s, xs[0]), xs[1]), []);
  }
}
