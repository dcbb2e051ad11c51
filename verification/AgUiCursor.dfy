/**
 Reconnection. A consumer may stop after any element and open a second stream at the last id it read.
 The id of an element is exactly the part of the host log whose text has been read up to it, so text is
 neither lost nor repeated across any number of streams.
 */
module AgUiCursor {
  import opened Sorting
  import opened AgUi
  import opened AgUiBracketing

  datatype Piece = Piece(messageId: string, text: string)

  function PieceOf(b: Body): seq<Piece> {
    if b.TextContent? then [Piece(b.messageId, b.delta)] else []
  }

  /** The text a reader of these elements sees, in order. */
  function Contents(xs: seq<Element>): seq<Piece> {
    if xs == [] then [] else Contents(xs[..|xs| - 1]) + PieceOf(xs[|xs| - 1].body)
  }

  function DeltaOf(e: HostEvent): seq<Piece> {
    if e.RunEvent? && e.what.Delta? && e.what.text != "" then [Piece(e.what.messageId, e.what.text)] else []
  }

  /** The non-empty deltas of a log with sequence in `(lo, hi]`, in order. */
  function DeltasIn(log: seq<HostEvent>, lo: int, hi: int): seq<Piece> {
    if log == [] then []
    else
      var e := log[|log| - 1];
      DeltasIn(log[..|log| - 1], lo, hi) + if lo < e.sequence <= hi then DeltaOf(e) else []
  }

  ghost predicate Increasing(log: seq<HostEvent>) { StrictlySorted(EarlierEvent, log) }

  /** The part of a log with sequence in `(lo, hi]`. */
  function Between(log: seq<HostEvent>, lo: int, hi: int): seq<HostEvent> {
    if log == [] then []
    else
      var e := log[|log| - 1];
      Between(log[..|log| - 1], lo, hi) + if lo < e.sequence <= hi then [e] else []
  }

  // ---------------------------------------------------------------- facts about text

  lemma {:induction false} ContentsAppend(a: seq<Element>, b: seq<Element>)
    ensures Contents(a + b) == Contents(a) + Contents(b)
    decreases |b|
  {
    if b == [] {
      assert a + b == a;
    } else {
      ContentsAppend(a, b[..|b| - 1]);
      assert (a + b)[..|a + b| - 1] == a + b[..|b| - 1];
    }
  }

  lemma {:induction false} ContentsSameBodies(a: seq<Element>, b: seq<Element>)
    requires |a| == |b| && forall i | 0 <= i < |a| :: a[i].body == b[i].body
    ensures Contents(a) == Contents(b)
    decreases |a|
  {
    if a != [] { ContentsSameBodies(a[..|a| - 1], b[..|b| - 1]); }
  }

  lemma {:induction false} NoContents(xs: seq<Element>)
    requires forall i | 0 <= i < |xs| :: !xs[i].body.TextContent?
    ensures Contents(xs) == []
  {
    if xs != [] { NoContents(xs[..|xs| - 1]); }
  }

  lemma {:induction false} DeltasSaturate(log: seq<HostEvent>, lo: int, h1: int, h2: int)
    requires forall i | 0 <= i < |log| :: log[i].sequence <= h1 && log[i].sequence <= h2
    ensures DeltasIn(log, lo, h1) == DeltasIn(log, lo, h2)
  {
    if log != [] { DeltasSaturate(log[..|log| - 1], lo, h1, h2); }
  }

  lemma DeltasExtend(log: seq<HostEvent>, e: HostEvent, lo: int, hi: int)
    ensures DeltasIn(log + [e], lo, hi)
            == DeltasIn(log, lo, hi) + if lo < e.sequence <= hi then DeltaOf(e) else []
  {
    assert (log + [e])[..|log|] == log;
  }

  /** Adjacent windows of an increasing log join without gap or overlap. */
  lemma {:induction false} DeltasJoin(log: seq<HostEvent>, lo: int, mid: int, hi: int)
    requires Increasing(log) && lo <= mid <= hi
    ensures DeltasIn(log, lo, mid) + DeltasIn(log, mid, hi) == DeltasIn(log, lo, hi)
  {
    if log != [] {
      var front, e := log[..|log| - 1], log[|log| - 1];
      DeltasJoin(front, lo, mid, hi);
      if e.sequence <= mid {
        assert forall i | 0 <= i < |front| :: EarlierEvent(log[i], e);
        NoDeltas(front, mid, hi);
      }
    }
  }

  lemma {:induction false} NoDeltas(log: seq<HostEvent>, lo: int, hi: int)
    requires forall i | 0 <= i < |log| :: log[i].sequence <= lo
    ensures DeltasIn(log, lo, hi) == []
  {
    if log != [] { NoDeltas(log[..|log| - 1], lo, hi); }
  }

  lemma {:induction false} DeltasOfPart(log: seq<HostEvent>, lo: int, hi: int, cut: int)
    requires cut <= hi
    ensures DeltasIn(Between(log, lo, hi), lo, cut) == DeltasIn(log, lo, cut)
  {
    if log != [] {
      var front, e := log[..|log| - 1], log[|log| - 1];
      DeltasOfPart(front, lo, hi, cut);
      assert log == front + [e];
      if lo < e.sequence <= hi {
        DeltasExtend(Between(front, lo, hi), e, lo, cut);
      } else {
        assert Between(log, lo, hi) == Between(front, lo, hi);
      }
    }
  }

  /** What one event is projected to shows exactly its delta, and shows it last. */
  lemma BodiesShowDelta(r: Run, text: seq<string>, e: HostEvent, xs: seq<Element>)
    requires e.RunEvent? && BodiesOf(xs) == Bodies(r, text, e)
    ensures forall i | 0 <= i < |xs| - 1 :: !xs[i].body.TextContent?
    ensures xs == [] ==> DeltaOf(e) == []
    ensures xs != [] ==> PieceOf(xs[|xs| - 1].body) == DeltaOf(e)
  {
    var bodies := Bodies(r, text, e);
    forall i | 0 <= i < |xs| ensures xs[i].body == bodies[i] { assert xs[i].body == BodiesOf(xs)[i]; }
  }

  // ---------------------------------------------------------------- ids are exact cursors

  /** Ids never decrease from `after` on, and up to and including each element the reader has seen exactly
      the deltas of the accepted events up to that element's id. */
  ghost predicate Cursored(all: seq<Element>, accepted: seq<HostEvent>, after: int) {
    all == [] ||
    (var front, x := all[..|all| - 1], all[|all| - 1];
     && Cursored(front, accepted, after)
     && Cursor(after, front) <= x.id
     && Contents(all) == DeltasIn(accepted, after, x.id))
  }

  /** The id of the last element, or the opening cursor when there is none. */
  function Cursor(after: int, read: seq<Element>): int {
    if read == [] then after else read[|read| - 1].id
  }

  lemma CursoredExtend(all: seq<Element>, x: Element, accepted: seq<HostEvent>, after: int)
    requires Cursored(all, accepted, after) && Cursor(after, all) <= x.id
    requires Contents(all) + PieceOf(x.body) == DeltasIn(accepted, after, x.id)
    ensures Cursored(all + [x], accepted, after)
    ensures Contents(all + [x]) == DeltasIn(accepted, after, x.id)
  {
    assert (all + [x])[..|all|] == all;
  }

  lemma PlainExtend(all: seq<Element>, x: Element, accepted: seq<HostEvent>, after: int)
    requires Cursored(all, accepted, after) && Cursor(after, all) <= x.id && !x.body.TextContent?
    requires Contents(all) == DeltasIn(accepted, after, x.id)
    ensures Cursored(all + [x], accepted, after) && Cursor(after, all + [x]) == x.id
    ensures Contents(all + [x]) == DeltasIn(accepted, after, x.id)
  {
    CursoredExtend(all, x, accepted, after);
  }

  /** Elements that carry no text may follow under the current cursor. */
  lemma {:induction false} CursoredPlain(all: seq<Element>, xs: seq<Element>, accepted: seq<HostEvent>, after: int,
                                         last: int)
    requires Cursored(all, accepted, after) && Cursor(after, all) <= last
    requires Contents(all) == DeltasIn(accepted, after, last)
    requires forall i | 0 <= i < |xs| :: xs[i].id == last && !xs[i].body.TextContent?
    ensures Cursored(all + xs, accepted, after) && Cursor(after, all + xs) <= last
    ensures Contents(all + xs) == DeltasIn(accepted, after, last)
    decreases |xs|
  {
    hide Contents, DeltasIn, Cursored;
    if xs == [] {
      assert all + xs == all;
    } else {
      PlainExtend(all, xs[0], accepted, after);
      CursoredPlain(all + [xs[0]], xs[1..], accepted, after, last);
      assert all + xs == all + [xs[0]] + xs[1..];
    }
  }

  /** Accepting a later event changes nothing for the elements already out. */
  lemma {:induction false} CursoredAccept(all: seq<Element>, accepted: seq<HostEvent>, e: HostEvent, after: int)
    requires Cursored(all, accepted, after) && Cursor(after, all) < e.sequence
    ensures Cursored(all, accepted + [e], after)
  {
    if all != [] {
      CursoredAccept(all[..|all| - 1], accepted, e, after);
      DeltasExtend(accepted, e, after, all[|all| - 1].id);
    }
  }

  /** The last element may be relabelled when all the text out is the text up to the new id. */
  lemma CursoredRelabel(all: seq<Element>, accepted: seq<HostEvent>, after: int, id: int)
    requires Cursored(all, accepted, after) && all != [] && all[|all| - 1].id <= id
    requires Contents(all) == DeltasIn(accepted, after, id)
    ensures Cursored(all[|all| - 1 := all[|all| - 1].(id := id)], accepted, after)
    ensures Contents(all[|all| - 1 := all[|all| - 1].(id := id)]) == Contents(all)
  {
    var p := all[|all| - 1 := all[|all| - 1].(id := id)];
    assert p[..|p| - 1] == all[..|all| - 1];
  }

  lemma {:induction false} CursoredPrefix(all: seq<Element>, accepted: seq<HostEvent>, after: int, k: nat)
    requires Cursored(all, accepted, after) && k <= |all|
    ensures Cursored(all[..k], accepted, after) && after <= Cursor(after, all[..k]) <= Cursor(after, all)
    decreases |all|
  {
    if k < |all| {
      CursoredPrefix(all[..|all| - 1], accepted, after, k);
      assert all[..|all| - 1][..k] == all[..k];
    } else {
      assert all[..k] == all;
      if k > 0 { CursoredPrefix(all[..k - 1], accepted, after, k - 1); }
    }
  }

  ghost predicate Exact(after: int, s: Observer) {
    && Cursored(Emitted(s), s.accepted, after)
    && Cursor(after, Emitted(s)) <= s.last
    && (!s.closed ==> Contents(Emitted(s)) == DeltasIn(s.accepted, after, s.last))
    && (forall i | 0 <= i < |s.accepted| :: after < s.accepted[i].sequence <= s.last)
    && Increasing(s.accepted)
    && (!s.live ==> Emitted(s) == [] && s.accepted == [])
    && after <= s.last
  }

  /** The adapter reads a terminal receipt only before the run was started, and past the cursor. */
  predicate Disciplined(s: Observer, step: Step) {
    step.TerminalRead? ==> !s.live && s.last <= step.receipt.sequence
  }

  lemma ExactGrows(after: int, s: Observer, xs: seq<Element>, p: Observer)
    requires Exact(after, s) && !s.closed && p.live
    requires forall i | 0 <= i < |xs| :: xs[i].id == s.last && !xs[i].body.TextContent?
    requires p.delivered == s.delivered && p.queue == s.queue + xs && p.last == s.last && p.accepted == s.accepted
    ensures Exact(after, p)
  {
    EmittedGrows(s, xs, p);
    CursoredPlain(Emitted(s), xs, s.accepted, after, s.last);
  }

  /** The elements out after `e` is accepted and its last element, or the last one still queued, is
      labelled with its sequence. */
  lemma CommittedCursored(r: Run, after: int, s: Observer, e: HostEvent, xs: seq<Element>)
    requires Exact(after, s) && !s.closed && e.RunEvent? && s.last < e.sequence
    requires BodiesOf(xs) == Bodies(r, s.text, e) && forall i | 0 <= i < |xs| :: xs[i].id == s.last
    requires xs != []
    ensures var all := Emitted(s) + xs[..|xs| - 1] + [xs[|xs| - 1].(id := e.sequence)];
            && Cursored(all, s.accepted + [e], after)
            && Contents(all) == DeltasIn(s.accepted + [e], after, e.sequence)
  {
    var all, init, z := Emitted(s), xs[..|xs| - 1], xs[|xs| - 1].(id := e.sequence);
    BodiesShowDelta(r, s.text, e, xs);
    DeltasSaturate(s.accepted, after, s.last, e.sequence);
    DeltasExtend(s.accepted, e, after, e.sequence);
    CursoredPlain(all, init, s.accepted, after, s.last);
    CursoredAccept(all + init, s.accepted, e, after);
    CursoredExtend(all + init, z, s.accepted + [e], after);
  }

  lemma SilentCursored(r: Run, after: int, s: Observer, e: HostEvent)
    requires Exact(after, s) && !s.closed && e.RunEvent? && s.last < e.sequence && Bodies(r, s.text, e) == []
    ensures Cursored(Emitted(s), s.accepted + [e], after)
    ensures Contents(Emitted(s)) == DeltasIn(s.accepted + [e], after, e.sequence)
  {
    assert BodiesOf([]) == Bodies(r, s.text, e);
    BodiesShowDelta(r, s.text, e, []);
    DeltasSaturate(s.accepted, after, s.last, e.sequence);
    DeltasExtend(s.accepted, e, after, e.sequence);
    CursoredAccept(Emitted(s), s.accepted, e, after);
  }

  lemma ExactFrom(after: int, s: Observer, e: HostEvent, p: Observer, all: seq<Element>)
    requires Exact(after, s) && s.last < e.sequence
    requires p.live && p.accepted == s.accepted + [e] && p.last == e.sequence && Emitted(p) == all
    requires Cursored(all, s.accepted + [e], after) && Cursor(after, all) <= e.sequence
    requires Contents(all) == DeltasIn(s.accepted + [e], after, e.sequence)
    ensures Exact(after, p)
  {
  }

  lemma ExactCommitted(r: Run, after: int, s: Observer, e: HostEvent, xs: seq<Element>, p: Observer)
    requires Exact(after, s) && !s.closed && s.live && e.RunEvent? && s.last < e.sequence
    requires xs == Stamp(s.last, FromEvent(e), Bodies(r, s.text, e))
    requires p.delivered == s.delivered && p.live && p.accepted == s.accepted + [e]
    requires p.last == e.sequence && p.queue == Commit(s.(queue := s.queue + xs), e.sequence).queue
    ensures Exact(after, p)
  {
    if xs != [] {
      assert BodiesOf(xs) == Bodies(r, s.text, e);
      CommittedCursored(r, after, s, e, xs);
      CommitLast(s, xs, e.sequence);
      CommittedEmitted(s, xs, e.sequence, p);
      ExactFrom(after, s, e, p, Emitted(s) + xs[..|xs| - 1] + [xs[|xs| - 1].(id := e.sequence)]);
    } else {
      assert s.queue + xs == s.queue;
      SilentCursored(r, after, s, e);
      SilentExact(after, s, e, p);
    }
  }

  lemma SilentExact(after: int, s: Observer, e: HostEvent, p: Observer)
    requires Exact(after, s) && s.last < e.sequence
    requires p.delivered == s.delivered && p.live && p.accepted == s.accepted + [e]
    requires p.last == e.sequence && p.queue == Commit(s, e.sequence).queue
    requires Cursored(Emitted(s), s.accepted + [e], after)
    requires Contents(Emitted(s)) == DeltasIn(s.accepted + [e], after, e.sequence)
    ensures Exact(after, p)
  {
    var all := Emitted(s);
    if s.queue == [] {
      ExactFrom(after, s, e, p, all);
    } else {
      var out := all[|all| - 1 := all[|all| - 1].(id := e.sequence)];
      CursoredRelabel(all, s.accepted + [e], after, e.sequence);
      assert Emitted(p) == out;
      ExactFrom(after, s, e, p, out);
    }
  }

  lemma CommittedEmitted(s: Observer, xs: seq<Element>, sequence: int, p: Observer)
    requires xs != [] && p.delivered == s.delivered
    requires p.queue == s.queue + xs[..|xs| - 1] + [xs[|xs| - 1].(id := sequence)]
    ensures Emitted(p) == Emitted(s) + xs[..|xs| - 1] + [xs[|xs| - 1].(id := sequence)]
  {
  }

  lemma CommitLast(s: Observer, xs: seq<Element>, sequence: int)
    requires xs != []
    ensures Commit(s.(queue := s.queue + xs), sequence).queue
            == s.queue + xs[..|xs| - 1] + [xs[|xs| - 1].(id := sequence)]
  {
  }

  lemma ReceiveExact(r: Run, after: int, s: Observer, e: HostEvent)
    requires Exact(after, s) && Healthy(s)
    ensures Exact(after, Receive(r, s, e))
  {
    var p := Receive(r, s, e);
    ReceiveShape(r, s, e);
    if Takes(r, s, e) && p.error.None? {
      ExactCommitted(r, after, s, e, Stamp(s.last, FromEvent(e), Bodies(r, s.text, e)), p);
    } else {
      ExactSame(after, s, p);
    }
  }

  lemma ExactSame(after: int, s: Observer, p: Observer)
    requires Exact(after, s) && Emitted(p) == Emitted(s) && p.accepted == s.accepted && p.last == s.last
    requires p.closed || p.closed == s.closed
    requires p.live || p.live == s.live
    ensures Exact(after, p)
  {
  }

  lemma {:induction false} ReceiveAllExact(r: Run, after: int, s: Observer, events: seq<HostEvent>)
    requires Exact(after, s) && Healthy(s)
    ensures Exact(after, ReceiveAll(r, s, events))
    decreases |events|
  {
    if events != [] {
      ReceiveExact(r, after, s, events[0]);
      ReceiveShape(r, s, events[0]);
      ReceiveAllExact(r, after, Receive(r, s, events[0]), events[1..]);
    }
  }

  lemma AnnounceExact(r: Run, after: int, s: Observer, source: Raw)
    requires Exact(after, s) && Healthy(s) && !s.closed && !s.live
    ensures var a := Announce(r, s, source).(buffered := []);
            Exact(after, a) && Healthy(a) && a.accepted == [] && a.last == s.last
  {
    var x := Element(s.last, source, RunStarted(r.target.sessionId, r.runId));
    var a := Announce(r, s, source).(buffered := []);
    if a.closed { ExactSame(after, s, a); } else { ExactGrows(after, s, [x], a); }
  }

  lemma StartExact(r: Run, after: int, s: Observer, source: Raw)
    requires Exact(after, s) && Healthy(s)
    ensures Exact(after, Start(r, s, source))
  {
    if !s.closed && !s.live {
      AnnounceExact(r, after, s, source);
      var announced := Announce(r, s, source);
      ReceiveAllExact(r, after, announced.(buffered := []), BySequence(announced.buffered));
    }
  }

  lemma ReportStateExact(r: Run, after: int, s: Observer, receipt: Receipt)
    requires Exact(after, s) && Healthy(s) && s.live && s.accepted == [] && s.last <= receipt.sequence
    ensures Exact(after, ReportState(r, s, receipt))
  {
    if !s.closed && receipt.target == r.target && receipt.runId == r.runId {
      var pushed := PushAll(r, s, Stamp(s.last, FromReceipt(receipt), StateBodies(r, s.text, receipt.state)));
      ReportPushedExact(r, after, s, receipt, pushed);
      ReportedExact(r, after, s, receipt, pushed);
    }
  }

  lemma ReportPushedExact(r: Run, after: int, s: Observer, receipt: Receipt, pushed: Observer)
    requires Exact(after, s) && Healthy(s) && s.live && !s.closed
    requires pushed == PushAll(r, s, Stamp(s.last, FromReceipt(receipt), StateBodies(r, s.text, receipt.state)))
    ensures Exact(after, pushed) && Healthy(pushed) && pushed.live && pushed.accepted == s.accepted
    ensures pushed.last == s.last && (pushed.closed <==> pushed.error.Some?) && (pushed.closed || pushed.queue != [])
  {
    var xs := Stamp(s.last, FromReceipt(receipt), StateBodies(r, s.text, receipt.state));
    StateBodiesPlain(r, s.text, receipt.state);
    var k := PushAllShape(r, s, xs);
    ExactGrows(after, s, xs[..k], pushed);
  }

  lemma StateBodiesPlain(r: Run, text: seq<string>, state: RunState)
    ensures forall i | 0 <= i < |StateBodies(r, text, state)| :: !StateBodies(r, text, state)[i].TextContent?
    ensures StateBodies(r, text, state) != []
  {
  }

  lemma ReportedExact(r: Run, after: int, s: Observer, receipt: Receipt, pushed: Observer)
    requires !s.closed && receipt.target == r.target && receipt.runId == r.runId
    requires pushed == PushAll(r, s, Stamp(s.last, FromReceipt(receipt), StateBodies(r, s.text, receipt.state)))
    requires Exact(after, pushed) && Healthy(pushed) && pushed.live && pushed.accepted == []
    requires pushed.last <= receipt.sequence && (pushed.closed <==> pushed.error.Some?)
    requires pushed.closed || pushed.queue != []
    ensures Exact(after, ReportState(r, s, receipt))
  {
    var p := ReportState(r, s, receipt);
    if !Terminal(receipt.state) || pushed.closed {
      ExactSame(after, pushed, p);
    } else {
      ReceiptExact(after, pushed, p, receipt.sequence);
    }
  }

  lemma ReceiptExact(after: int, s: Observer, p: Observer, sequence: int)
    requires Exact(after, s) && s.queue != [] && s.live && s.accepted == [] && s.last <= sequence && !s.closed
    requires p.queue == s.queue[|s.queue| - 1 := s.queue[|s.queue| - 1].(id := sequence)]
    requires p.delivered == s.delivered && p.accepted == [] && p.last == sequence && p.live && p.closed
    ensures Exact(after, p)
  {
    var all := Emitted(s);
    CursoredRelabel(all, [], after, sequence);
    assert Emitted(p) == all[|all| - 1 := all[|all| - 1].(id := sequence)];
  }

  lemma SnapshotShownExact(r: Run, after: int, s: Observer, x: Element)
    requires Exact(after, s) && Healthy(s) && s.live && x.id == s.last && !x.body.TextContent?
    ensures var p := Push(r, s, x);
            Exact(after, p) && Healthy(p) && p.live && p.accepted == s.accepted && p.last == s.last
  {
    hide Cursored, Contents, DeltasIn;
    if Push(r, s, x).closed { ExactSame(after, s, Push(r, s, x)); } else { ExactGrows(after, s, [x], Push(r, s, x)); }
  }

  lemma TerminalSnapshotExact(r: Run, after: int, s: Observer, receipt: Receipt, messages: seq<Message>)
    requires Exact(after, s) && Healthy(s) && !s.live && s.last <= receipt.sequence
    ensures Exact(after, TerminalSnapshot(r, s, receipt, messages))
  {
    if !s.closed {
      var cleared, source := s.(buffered := []), FromReceipt(receipt);
      ExactSame(after, s, cleared);
      AnnounceExact(r, after, cleared, source);
      var started := Start(r, cleared, source);
      StartOfNothing(r, cleared, source);
      var x := Element(started.last, source, MessagesSnapshot(messages));
      SnapshotShownExact(r, after, started, x);
      ReportStateExact(r, after, Push(r, started, x), receipt);
    }
  }

  lemma StartOfNothing(r: Run, s: Observer, source: Raw)
    requires !s.closed && !s.live && s.buffered == []
    ensures Start(r, s, source) == Announce(r, s, source).(buffered := [])
  {
  }

  lemma ApplyExact(r: Run, after: int, s: Observer, step: Step)
    requires Exact(after, s) && Healthy(s) && Disciplined(s, step)
    ensures Exact(after, Apply(r, s, step))
  {
    match step
    case HostEventArrives(e) => ReceiveExact(r, after, s, e);
    case RunAccepted(source) => StartExact(r, after, s, source);
    case TerminalRead(receipt, messages) => TerminalSnapshotExact(r, after, s, receipt, messages);
    case HostFails(failure) => ExactSame(after, s, Fail(s, failure));
    case Disposed => ExactSame(after, s, Dispose(s));
    case ConsumerPulls => NextExact(after, s);
    case ConsumerReturns => CancelExact(after, s);
  }

  lemma NextExact(after: int, s: Observer)
    requires Exact(after, s)
    ensures Exact(after, Next(s))
  {
    assert Emitted(Next(s)) == Emitted(s);
    ExactSame(after, s, Next(s));
  }

  lemma CancelExact(after: int, s: Observer)
    requires Exact(after, s)
    ensures Exact(after, Cancel(s))
  {
    assert Emitted(Cancel(s)) == Emitted(s)[..|s.delivered|];
    CursoredPrefix(Emitted(s), s.accepted, after, |s.delivered|);
  }

  // ---------------------------------------------------------------- following the host log

  ghost predicate Log(r: Run, log: seq<HostEvent>) {
    Increasing(log) && forall e | e in log :: Relevant(r, e)
  }

  /** How a host feeds a stream: once the stream is live, the next unread event of the log (or one at or
      below the cursor, or of another run); before that in any order, but complete up to the latest one
      when the run is accepted. */
  ghost predicate Fed(r: Run, log: seq<HostEvent>, s: Observer, step: Step) {
    match step
    case HostEventArrives(e) =>
      Relevant(r, e) && s.last < e.sequence ==>
        && e in log
        && (s.live ==> forall h | h in log && s.last < h.sequence :: e.sequence <= h.sequence)
    case RunAccepted(_) => Complete(log, s.last, s.buffered)
    case TerminalRead(_, _) => false
    case _ => true
  }

  /** Nothing the log holds beyond `from` is missing below an event of `events`. */
  ghost predicate Complete(log: seq<HostEvent>, from: int, events: seq<HostEvent>) {
    forall b, h | b in events && h in log && from < h.sequence < b.sequence :: h in events
  }

  /** The accepted events are exactly the log up to the cursor. */
  ghost predicate Follows(log: seq<HostEvent>, after: int, s: Observer) {
    && s.accepted == Between(log, after, s.last)
    && (forall e | e in s.buffered :: e in log)
  }

  lemma {:induction false} BetweenNext(log: seq<HostEvent>, lo: int, mid: int, e: HostEvent)
    requires Increasing(log) && e in log && lo <= mid < e.sequence
    requires forall h | h in log && mid < h.sequence :: e.sequence <= h.sequence
    ensures Between(log, lo, e.sequence) == Between(log, lo, mid) + [e]
  {
    var front, l := log[..|log| - 1], log[|log| - 1];
    assert log == front + [l];
    assert forall h | h in front :: h in log && EarlierEvent(h, l);
    if l == e {
      BetweenFrontSame(front, lo, mid, e.sequence);
    } else {
      assert e in front;
      BetweenNext(front, lo, mid, e);
    }
  }

  lemma {:induction false} BetweenFrontSame(log: seq<HostEvent>, lo: int, h1: int, h2: int)
    requires h1 <= h2 && forall h | h in log :: !(h1 < h.sequence <= h2)
    ensures Between(log, lo, h1) == Between(log, lo, h2)
  {
    if log != [] { BetweenFrontSame(log[..|log| - 1], lo, h1, h2); }
  }

  lemma ReceiveFollows(r: Run, log: seq<HostEvent>, after: int, s: Observer, e: HostEvent)
    requires Log(r, log) && Follows(log, after, s) && Healthy(s) && after <= s.last
    requires Fed(r, log, s, HostEventArrives(e))
    ensures Follows(log, after, Receive(r, s, e))
  {
    ReceiveShape(r, s, e);
    var p := Receive(r, s, e);
    if Takes(r, s, e) && p.error.None? { BetweenNext(log, after, s.last, e); }
    forall b | b in p.buffered ensures b in log { ReceiveBuffers(r, s, e, b); }
  }

  lemma ReceiveBuffers(r: Run, s: Observer, e: HostEvent, b: HostEvent)
    requires Healthy(s) && b in Receive(r, s, e).buffered
    ensures b in s.buffered || (b == e && Relevant(r, e) && s.last < e.sequence)
  {
    if Takes(r, s, e) {
      var k := PushAllShape(r, s.(text := TextAfter(s.text, e)), Stamp(s.last, FromEvent(e), Bodies(r, s.text, e)));
    }
  }

  /** In a complete, sorted batch the first event beyond the cursor is the next unread one. */
  lemma FirstIsNext(log: seq<HostEvent>, from: int, events: seq<HostEvent>, h: HostEvent)
    requires events != [] && Sorted(EarlierEvent, events) && Complete(log, from, events)
    requires h in log && from < h.sequence
    ensures events[0].sequence <= h.sequence
  {
    if h.sequence < events[0].sequence {
      assert h in events;
      var i :| 0 <= i < |events| && events[i] == h;
      assert EarlierEvent(events[i], events[0]);
    }
  }

  lemma CompleteTail(log: seq<HostEvent>, from: int, events: seq<HostEvent>, to: int)
    requires events != [] && Complete(log, from, events) && from <= to && events[0].sequence <= to
    ensures Complete(log, to, events[1..])
  {
    forall b, h | b in events[1..] && h in log && to < h.sequence < b.sequence ensures h in events[1..] {
      assert b in events && h in events;
      assert events == [events[0]] + events[1..];
    }
  }

  lemma {:induction false} ReplayFollows(r: Run, log: seq<HostEvent>, after: int, s: Observer, events: seq<HostEvent>)
    requires Log(r, log) && Follows(log, after, s) && Healthy(s) && after <= s.last && s.live
    requires Sorted(EarlierEvent, events) && Complete(log, s.last, events) && forall e | e in events :: e in log
    ensures Follows(log, after, ReceiveAll(r, s, events))
    decreases |events|
  {
    if events != [] {
      var e, p := events[0], Receive(r, s, events[0]);
      assert e in log;
      forall h | h in log && s.last < h.sequence ensures e.sequence <= h.sequence {
        FirstIsNext(log, s.last, events, h);
      }
      ReceiveFollows(r, log, after, s, e);
      ReceiveShape(r, s, e);
      if p.closed {
        ReceiveAllClosed(r, p, events[1..]);
      } else {
        CompleteTail(log, s.last, events, p.last);
        ReplayFollows(r, log, after, p, events[1..]);
      }
    }
  }

  lemma StartFollows(r: Run, log: seq<HostEvent>, after: int, s: Observer, source: Raw)
    requires Log(r, log) && Follows(log, after, s) && Healthy(s) && Exact(after, s)
    requires Complete(log, s.last, s.buffered)
    ensures Follows(log, after, Start(r, s, source))
  {
    if !s.closed && !s.live {
      var announced := Announce(r, s, source);
      var sorted := BySequence(announced.buffered);
      SortedComplete(log, s.last, announced.buffered);
      ReplayFollows(r, log, after, announced.(buffered := []), sorted);
    }
  }

  lemma SortedComplete(log: seq<HostEvent>, from: int, events: seq<HostEvent>)
    requires Complete(log, from, events) && forall e | e in events :: e in log
    ensures Sorted(EarlierEvent, BySequence(events)) && Complete(log, from, BySequence(events))
    ensures forall e | e in BySequence(events) :: e in log
  {
    SameMembers(BySequence(events), events);
    SortSorted(EarlierEvent, events);
  }

  lemma ApplyFollows(r: Run, log: seq<HostEvent>, after: int, s: Observer, step: Step)
    requires Log(r, log) && Follows(log, after, s) && Healthy(s) && Exact(after, s) && Fed(r, log, s, step)
    ensures Follows(log, after, Apply(r, s, step))
  {
    match step
    case HostEventArrives(e) => ReceiveFollows(r, log, after, s, e);
    case RunAccepted(source) => StartFollows(r, log, after, s, source);
    case _ =>
  }

  /** A stream opened at `after` whose every step feeds it from the log. */
  ghost predicate Session(r: Run, log: seq<HostEvent>, after: int, steps: seq<Step>) {
    forall i | 0 <= i < |steps| :: Fed(r, log, Reached(r, Opened(after), steps[..i]), steps[i])
  }

  lemma {:induction false} SessionInvariants(r: Run, log: seq<HostEvent>, after: int, steps: seq<Step>)
    requires Log(r, log) && Session(r, log, after, steps)
    ensures var s := Reached(r, Opened(after), steps);
            Sound(s) && Exact(after, s) && Follows(log, after, s)
  {
    ReachedSound(r, after, steps);
    if steps == [] {
      assert Increasing([]);
      BetweenEmpty(log, after);
    } else {
      var front := steps[..|steps| - 1];
      forall i | 0 <= i < |front| ensures Fed(r, log, Reached(r, Opened(after), front[..i]), front[i]) {
        assert front[..i] == steps[..i] && front[i] == steps[i];
      }
      SessionInvariants(r, log, after, front);
      assert Fed(r, log, Reached(r, Opened(after), front), steps[|front|]);
      ApplyExact(r, after, Reached(r, Opened(after), front), steps[|front|]);
      ApplyFollows(r, log, after, Reached(r, Opened(after), front), steps[|front|]);
    }
  }

  lemma {:induction false} BetweenEmpty(log: seq<HostEvent>, lo: int)
    ensures Between(log, lo, lo) == []
  {
    if log != [] { BetweenEmpty(log[..|log| - 1], lo); }
  }

  // ---------------------------------------------------------------- main results

  ghost predicate DisciplinedRun(r: Run, after: int, steps: seq<Step>) {
    forall i | 0 <= i < |steps| :: Disciplined(Reached(r, Opened(after), steps[..i]), steps[i])
  }

  lemma {:induction false} DisciplinedRunExact(r: Run, after: int, steps: seq<Step>)
    requires DisciplinedRun(r, after, steps)
    ensures Exact(after, Reached(r, Opened(after), steps))
  {
    if steps == [] {
      assert Increasing([]);
    } else {
      var front := steps[..|steps| - 1];
      forall i | 0 <= i < |front| ensures Disciplined(Reached(r, Opened(after), front[..i]), front[i]) {
        assert front[..i] == steps[..i] && front[i] == steps[i];
      }
      DisciplinedRunExact(r, after, front);
      ReachedSound(r, after, front);
      assert Disciplined(Reached(r, Opened(after), front), steps[|front|]);
      ApplyExact(r, after, Reached(r, Opened(after), front), steps[|front|]);
    }
  }

  /** In every run the adapter allows, however events arrive and whatever fails: ids never decrease and are
      never below the opening cursor, and what was read up to any element is the text of the accepted
      events up to its id, no more and no less. */
  lemma IdsAreExactCursors(r: Run, after: int, steps: seq<Step>, i: nat, j: nat)
    requires DisciplinedRun(r, after, steps)
    requires i <= j < |Emitted(Reached(r, Opened(after), steps))|
    ensures var s := Reached(r, Opened(after), steps);
            var all := Emitted(s);
            && after <= all[i].id <= all[j].id <= s.last
            && Contents(all[..i + 1]) == DeltasIn(s.accepted, after, all[i].id)
            && Increasing(s.accepted)
  {
    DisciplinedRunExact(r, after, steps);
    var s := Reached(r, Opened(after), steps);
    CursoredAt(Emitted(s), s.accepted, after, i, j);
  }

  lemma CursoredAt(all: seq<Element>, accepted: seq<HostEvent>, after: int, i: nat, j: nat)
    requires Cursored(all, accepted, after) && i <= j < |all|
    ensures after <= all[i].id <= all[j].id <= Cursor(after, all)
    ensures Contents(all[..i + 1]) == DeltasIn(accepted, after, all[i].id)
  {
    CursoredPrefix(all, accepted, after, j + 1);
    CursoredPrefix(all[..j + 1], accepted, after, i + 1);
    var part := all[..i + 1];
    assert all[..j + 1][..i + 1] == part;
    assert part[|part| - 1] == all[i];
  }

  /** Cut a stream anywhere: what was read is the text of the log between the two cursors. */
  lemma ReadIsLogWindow(r: Run, log: seq<HostEvent>, after: int, steps: seq<Step>)
    requires Log(r, log) && Session(r, log, after, steps)
    ensures var read := Reached(r, Opened(after), steps).delivered;
            && after <= Cursor(after, read)
            && Contents(read) == DeltasIn(log, after, Cursor(after, read))
  {
    SessionInvariants(r, log, after, steps);
    var s := Reached(r, Opened(after), steps);
    var read, all := s.delivered, Emitted(s);
    if read == [] {
      DeltasJoin(log, after, after, after);
    } else {
      assert all[..|read|] == read;
      CursoredPrefix(all, s.accepted, after, |read|);
      DeltasOfPart(log, after, s.last, Cursor(after, read));
    }
  }

  /** The states at the end of consecutive streams, each opened at the last id read from the one before. */
  function Reconnected(r: Run, after: int, sessions: seq<seq<Step>>): (seq<Element>, int) {
    if sessions == [] then ([], after)
    else
      var (read, cursor) := Reconnected(r, after, sessions[..|sessions| - 1]);
      var more := Reached(r, Opened(cursor), sessions[|sessions| - 1]).delivered;
      (read + more, Cursor(cursor, more))
  }

  ghost predicate Sessions(r: Run, log: seq<HostEvent>, after: int, sessions: seq<seq<Step>>) {
    forall i | 0 <= i < |sessions| :: Session(r, log, Reconnected(r, after, sessions[..i]).1, sessions[i])
  }

  /** Exactly once: over any number of streams, failing or cut at any element, the text read is that of
      the log up to the final cursor, each delta once and in order. */
  lemma {:induction false} TextReadExactlyOnce(r: Run, log: seq<HostEvent>, after: int, sessions: seq<seq<Step>>)
    requires Log(r, log) && Sessions(r, log, after, sessions)
    ensures var (read, cursor) := Reconnected(r, after, sessions);
            after <= cursor && Contents(read) == DeltasIn(log, after, cursor)
  {
    if sessions == [] {
      DeltasJoin(log, after, after, after);
    } else {
      var front, steps := sessions[..|sessions| - 1], sessions[|sessions| - 1];
      forall i | 0 <= i < |front| ensures Session(r, log, Reconnected(r, after, front[..i]).1, front[i]) {
        assert front[..i] == sessions[..i] && front[i] == sessions[i];
      }
      TextReadExactlyOnce(r, log, after, front);
      var (read, cursor) := Reconnected(r, after, front);
      assert Session(r, log, cursor, steps);
      ReadIsLogWindow(r, log, cursor, steps);
      var more := Reached(r, Opened(cursor), steps).delivered;
      ContentsAppend(read, more);
      DeltasJoin(log, after, cursor, Cursor(cursor, more));
    }
  }

  /** And when the last stream is open, drained and has been fed the whole log, nothing is missing. */
  lemma CaughtUpReadsWholeLog(r: Run, log: seq<HostEvent>, after: int, sessions: seq<seq<Step>>, steps: seq<Step>)
    requires Log(r, log) && Sessions(r, log, after, sessions)
    requires Session(r, log, Reconnected(r, after, sessions).1, steps)
    requires var s := Reached(r, Opened(Reconnected(r, after, sessions).1), steps);
             !s.closed && s.queue == [] && forall h | h in log :: h.sequence <= s.last
    ensures var (read, cursor) := Reconnected(r, after, sessions);
            var s := Reached(r, Opened(cursor), steps);
            forall hi | s.last <= hi :: Contents(read + s.delivered) == DeltasIn(log, after, hi)
  {
    var (read, cursor) := Reconnected(r, after, sessions);
    var s := Reached(r, Opened(cursor), steps);
    TextReadExactlyOnce(r, log, after, sessions);
    SessionInvariants(r, log, cursor, steps);
    assert Emitted(s) == s.delivered;
    DeltasOfPart(log, cursor, s.last, s.last);
    ContentsAppend(read, s.delivered);
    DeltasJoin(log, after, cursor, s.last);
    forall hi | s.last <= hi ensures DeltasIn(log, after, hi) == DeltasIn(log, after, s.last) {
      DeltasSaturate(log, after, s.last, hi);
    }
  }
}
