/**
 The AG-UI observer of one durable run: the values it exchanges and, step by step, what a projection
 does to its state. `Observer` is the state of one stream, extended by two histories: the elements its
 consumer has read and the host events whose projection was committed.
 */
module AgUi {
  import opened Prelude
  import opened Sorting

  const MAX_QUEUE := 1024
  const MAX_SAFE_INTEGER := 0x1F_FFFF_FFFF_FFFF

  datatype Target = Target(botId: string, sessionId: string, projectId: Option<string>)

  datatype RunState = Running | Waiting | Attention | Complete | Stopped | Errored | Offline

  predicate Terminal(state: RunState) {
    state.Complete? || state.Stopped? || state.Errored?
  }

  datatype Receipt = Receipt(target: Target, runId: string, state: RunState, sequence: int)

  datatype Message = Message(id: string, role: string, text: string)

  /** What a run event of the host says. */
  datatype Happening =
    | Delta(messageId: string, text: string, sourceBotId: Option<string>)
    | Completed(messageId: string)
    | StateChanged(state: RunState)
    | ApprovalRequested(approvalId: string, summary: string)
    | Extension(name: string, value: string)

  datatype HostEvent =
    | Snapshot(sequence: int)
    | DraftChanged(sequence: int, target: Target)
    | RunEvent(sequence: int, target: Target, runId: string, what: Happening)

  datatype CustomValue =
    | MessageSource(messageId: string, botId: string)
    | Approval(approvalId: string, summary: string, runId: string, target: Target)
    | StateReport(state: RunState, target: Target, runId: string)
    | Opaque(value: string)

  datatype Body =
    | RunStarted(threadId: string, runId: string)
    | RunFinished(threadId: string, runId: string)
    | RunError(code: string, message: string)
    | TextStart(messageId: string)
    | TextContent(messageId: string, delta: string)
    | TextEnd(messageId: string)
    | MessagesSnapshot(messages: seq<Message>)
    | Custom(name: string, value: CustomValue)

  /** The source an element was projected from. */
  datatype Raw = FromEvent(event: HostEvent) | FromReceipt(receipt: Receipt) | FromResult(runId: string)

  /** One AG-UI element; `id` is the cursor that becomes the SSE id. */
  datatype Element = Element(id: int, raw: Raw, body: Body)

  datatype Failure =
    | InvalidSequence | NotJsonSafe | BacklogExceeded | QueueExceeded | HostFailed(message: string)

  /** The observed run, and which source events and elements pass the JSON checks. */
  datatype Run = Run(target: Target, runId: string, eventOk: HostEvent -> bool, elementOk: Element -> bool)

  datatype Observer = Observer(
    queue: seq<Element>, buffered: seq<HostEvent>, text: seq<string>, last: int,
    live: bool, closed: bool, error: Option<Failure>, waiting: bool,
    delivered: seq<Element>, accepted: seq<HostEvent>)

  function Opened(after: int): Observer {
    Observer([], [], [], after, false, false, None, false, [], [])
  }

  /** Every element the stream has emitted and not taken back. */
  function Emitted(s: Observer): seq<Element> { s.delivered + s.queue }

  /** Events of the observed run; snapshots, drafts and other runs are ignored. */
  predicate Relevant(r: Run, e: HostEvent) {
    e.RunEvent? && e.target == r.target && e.runId == r.runId
  }

  predicate SafeSequence(n: int) { 1 <= n <= MAX_SAFE_INTEGER }

  predicate EarlierEvent(a: HostEvent, b: HostEvent) { a.sequence < b.sequence }

  function BySequence(events: seq<HostEvent>): (sorted: seq<HostEvent>)
    ensures multiset(sorted) == multiset(events)
  {
    Sort(EarlierEvent, events)
  }

  function Dispose(s: Observer): Observer {
    if s.closed then s else s.(closed := true, buffered := [], waiting := false)
  }

  function Fail(s: Observer, failure: Failure): Observer {
    if s.closed then s else Dispose(s.(error := Some(failure)))
  }

  function Push(r: Run, s: Observer, x: Element): Observer {
    if s.closed then s
    else if |s.queue| >= MAX_QUEUE then Fail(s, QueueExceeded)
    else if !r.elementOk(x) then Fail(s, NotJsonSafe)
    else s.(queue := s.queue + [x], waiting := false)
  }

  function PushAll(r: Run, s: Observer, xs: seq<Element>): Observer
    decreases |xs|
  {
    if xs == [] then s else PushAll(r, Push(r, s, xs[0]), xs[1..])
  }

  function Stamp(id: int, raw: Raw, bodies: seq<Body>): (xs: seq<Element>)
    ensures |xs| == |bodies|
    ensures forall i | 0 <= i < |xs| :: xs[i] == Element(id, raw, bodies[i])
  {
    seq(|bodies|, i requires 0 <= i < |bodies| => Element(id, raw, bodies[i]))
  }

  function Without(ids: seq<string>, id: string): (rest: seq<string>)
    ensures forall x :: x in rest <==> x in ids && x != id
    ensures Distinct(ids) ==> Distinct(rest)
  {
    if ids == [] then []
    else if ids[0] == id then Without(ids[1..], id)
    else
      assert forall x :: x in ids <==> x == ids[0] || x in ids[1..];
      var rest := Without(ids[1..], id);
      assert Distinct(ids) ==> Distinct(ids[1..]) && ids[0] !in ids[1..];
      [ids[0]] + rest
  }

  function Ends(ids: seq<string>): (bodies: seq<Body>)
    ensures |bodies| == |ids|
    ensures forall i | 0 <= i < |ids| :: bodies[i] == TextEnd(ids[i])
  {
    seq(|ids|, i requires 0 <= i < |ids| => TextEnd(ids[i]))
  }

  function Closing(r: Run, state: RunState): Body {
    if state.Complete? then RunFinished(r.target.sessionId, r.runId)
    else if state.Stopped? then RunError("DOOLITTLE_CANCELLED", "The durable run was stopped.")
    else RunError("DOOLITTLE_RUN_ERROR", "The durable run failed.")
  }

  function StateBodies(r: Run, text: seq<string>, state: RunState): seq<Body> {
    [Custom("doolittle.run.state", StateReport(state, r.target, r.runId))]
    + if Terminal(state) then Ends(text) + [Closing(r, state)] else []
  }

  /** The bodies one accepted host event is projected to, given the messages open before it. */
  function Bodies(r: Run, text: seq<string>, e: HostEvent): seq<Body>
    requires e.RunEvent?
  {
    match e.what
    case Delta(m, delta, source) =>
      if delta == "" then []
      else
        (if m in text then []
         else [TextStart(m), Custom("doolittle.message.source", MessageSource(m, SourceBot(e)))])
        + [TextContent(m, delta)]
    case Completed(m) => if m in text then [TextEnd(m)] else []
    case StateChanged(state) => StateBodies(r, text, state)
    case ApprovalRequested(id, summary) =>
      [Custom("doolittle.approval.requested", Approval(id, summary, e.runId, e.target))]
    case Extension(name, value) => [Custom(name, Opaque(value))]
  }

  function SourceBot(e: HostEvent): string
    requires e.RunEvent? && e.what.Delta?
  {
    if e.what.sourceBotId.Some? then e.what.sourceBotId.value else e.target.botId
  }

  /** The messages open after one accepted host event. */
  function TextAfter(text: seq<string>, e: HostEvent): seq<string>
    requires e.RunEvent?
  {
    match e.what
    case Delta(m, delta, _) => if delta == "" || m in text then text else text + [m]
    case Completed(m) => Without(text, m)
    case StateChanged(state) => if Terminal(state) then [] else text
    case _ => text
  }

  /** Acknowledges `sequence` on the last element still queued. */
  function Commit(s: Observer, sequence: int): Observer {
    s.(last := sequence,
       queue := if s.queue == [] then [] else s.queue[|s.queue| - 1 := s.queue[|s.queue| - 1].(id := sequence)])
  }

  predicate EndsRun(e: HostEvent) {
    e.RunEvent? && e.what.StateChanged? && Terminal(e.what.state)
  }

  /** All or nothing: either every body is queued and the cursor committed, or the queue is as before. */
  function Project(r: Run, s: Observer, e: HostEvent): Observer
    requires e.RunEvent?
  {
    var pushed := PushAll(r, s.(text := TextAfter(s.text, e)), Stamp(s.last, FromEvent(e), Bodies(r, s.text, e)));
    if pushed.error.Some? then pushed.(queue := s.queue)
    else
      var committed := Commit(pushed, e.sequence).(accepted := s.accepted + [e]);
      if EndsRun(e) then Dispose(committed) else committed
  }

  function Receive(r: Run, s: Observer, e: HostEvent): Observer {
    if s.closed || !Relevant(r, e) || e.sequence <= s.last then s
    else if !SafeSequence(e.sequence) then Fail(s, InvalidSequence)
    else if !r.eventOk(e) then Fail(s, NotJsonSafe)
    else if s.live then Project(r, s, e)
    else if |s.buffered| >= MAX_QUEUE then Fail(s, BacklogExceeded)
    else s.(buffered := s.buffered + [e])
  }

  function ReceiveAll(r: Run, s: Observer, events: seq<HostEvent>): Observer
    decreases |events|
  {
    if events == [] then s else ReceiveAll(r, Receive(r, s, events[0]), events[1..])
  }

  function Announce(r: Run, s: Observer, source: Raw): Observer {
    Push(r, s, Element(s.last, source, RunStarted(r.target.sessionId, r.runId))).(live := true)
  }

  /** Announces the run, then replays what arrived before it in sequence order. */
  function Start(r: Run, s: Observer, source: Raw): Observer {
    if s.closed || s.live then s
    else
      var announced := Announce(r, s, source);
      ReceiveAll(r, announced.(buffered := []), BySequence(announced.buffered))
  }

  /** Acknowledges a finished run, unless a push failed, and closes the stream. */
  function EndRun(s: Observer, sequence: int): Observer {
    Dispose(if s.error.Some? then s else Commit(s, sequence))
  }

  /** The state report and, for a finished run, the ends of all open messages and the closing element. */
  function StateStep(r: Run, s: Observer, source: Raw, state: RunState, sequence: int): Observer {
    var pushed := PushAll(r, s, Stamp(s.last, source, StateBodies(r, s.text, state)));
    if Terminal(state) then EndRun(pushed.(text := []), sequence) else pushed
  }

  function ReportState(r: Run, s: Observer, receipt: Receipt): Observer {
    if s.closed || receipt.target != r.target || receipt.runId != r.runId then s
    else StateStep(r, s, FromReceipt(receipt), receipt.state, receipt.sequence)
  }

  /** The canonical transcript of a finished run replaces partial replay. */
  function TerminalSnapshot(r: Run, s: Observer, receipt: Receipt, messages: seq<Message>): Observer {
    if s.closed then s
    else
      var started := Start(r, s.(buffered := []), FromReceipt(receipt));
      var shown := Push(r, started, Element(started.last, FromReceipt(receipt), MessagesSnapshot(messages)));
      ReportState(r, shown, receipt)
  }

  /** One turn of the consumer: read the oldest element, or wait while the stream is open. */
  function Next(s: Observer): Observer {
    if s.queue != [] then s.(queue := s.queue[1..], delivered := s.delivered + [s.queue[0]])
    else if s.closed then s
    else s.(waiting := true)
  }

  /** The consumer returns or throws: detach and forget what is still queued. */
  function Cancel(s: Observer): Observer { Dispose(s).(queue := []) }

  datatype Step =
    | HostEventArrives(event: HostEvent)
    | RunAccepted(source: Raw)
    | TerminalRead(receipt: Receipt, messages: seq<Message>)
    | HostFails(failure: Failure)
    | Disposed
    | ConsumerPulls
    | ConsumerReturns

  function Apply(r: Run, s: Observer, step: Step): Observer {
    match step
    case HostEventArrives(e) => Receive(r, s, e)
    case RunAccepted(source) => Start(r, s, source)
    case TerminalRead(receipt, messages) => TerminalSnapshot(r, s, receipt, messages)
    case HostFails(failure) => Fail(s, failure)
    case Disposed => Dispose(s)
    case ConsumerPulls => Next(s)
    case ConsumerReturns => Cancel(s)
  }

  /** The state after any sequence of steps, oldest first. */
  function Reached(r: Run, s: Observer, steps: seq<Step>): Observer {
    if steps == [] then s
    else Apply(r, Reached(r, s, steps[..|steps| - 1]), steps[|steps| - 1])
  }
}
