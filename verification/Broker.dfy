/** The message broker of the remote adapter. Its real state is a map of endpoint contexts and a
    map of pending outbound queues, both keyed by endpoint; contexts come and go, so one endpoint
    has a succession of connection epochs. */
module Broker {
  import opened Common
  import opened Connection

  datatype State = State(
    contexts: map<Endpoint, Context>,
    pending: map<Endpoint, seq<Item>>,
    logs: seq<EpochLog>)

  const EmptyState := State(map[], map[], [])

  /** The endpoint has a context, and that an epoch. */
  predicate Known(s: State, ep: Endpoint) {
    ep in s.contexts && s.contexts[ep].epoch < |s.logs|
  }

  function CellAt(s: State, ep: Endpoint): Cell
    requires Known(s, ep)
  {
    Cell(s.contexts[ep], if ep in s.pending then Some(s.pending[ep]) else None, s.logs[s.contexts[ep].epoch])
  }

  function PutCell(s: State, ep: Endpoint, c: Cell): State
    requires c.ctx.epoch < |s.logs|
  {
    State(s.contexts[ep := c.ctx],
          if c.queue.Some? then s.pending[ep := c.queue.value] else s.pending,
          s.logs[c.ctx.epoch := c.log])
  }

  // ---------------------------------------------------------------- operations

  function QueueAt(pending: map<Endpoint, seq<Item>>, ep: Endpoint): seq<Item> {
    if ep in pending then pending[ep] else []
  }

  /** The effect of closing on the maps, which it has when the context is erased. The steps that lead
      there, and the callbacks between them, are the subject of `Lifecycle`. */
  function CloseConnection(s: State, ep: Endpoint): State
    requires ep in s.contexts ==> Known(s, ep)
  {
    if ep !in s.contexts then s else
    var ctx := s.contexts[ep];
    var log := s.logs[ctx.epoch];
    State(s.contexts - {ep}, s.pending - {ep},
          s.logs[ctx.epoch := log.(lost := ctx.inbox, dropped := QueueAt(s.pending, ep))])
  }

  function OpenConnection(s: State, ep: Endpoint): State
    requires ep in s.contexts ==> Known(s, ep)
  {
    var c := CloseConnection(s, ep);
    c.(contexts := c.contexts[ep := NewContext(|c.logs|)], logs := c.logs + [NewLog(ep)])
  }

  function Send(s: State, ep: Endpoint, data: string, open: bool, ok: bool): (State, Reply)
    requires ep in s.contexts ==> Known(s, ep)
  {
    if ep !in s.contexts then (s, Reply("", NO_CONNECTION)) else
    StepSame(CellAt(s, ep), Sending(ep, data, open, ok));
    var (c, r) := SendOn(CellAt(s, ep), data, open, ok);
    (PutCell(s, ep, c), r)
  }

  function Receive(s: State, ep: Endpoint, open: bool, oks: seq<bool>): (State, Reply)
    requires ep in s.contexts ==> Known(s, ep)
  {
    if ep !in s.contexts then (s, Reply("", NO_CONNECTION)) else
    StepSame(CellAt(s, ep), Receiving(ep, open, oks));
    var (c, r) := ReceiveOn(CellAt(s, ep), open, oks);
    (PutCell(s, ep, c), r)
  }

  // ---------------------------------------------------------------- invariant

  /** Pending queues belong to existing contexts, contexts to existing epochs of their endpoint. */
  ghost predicate WellFormed(s: State) {
    && s.pending.Keys <= s.contexts.Keys
    && forall ep {:trigger ContextOk(s, ep)} :: ep in s.contexts ==> ContextOk(s, ep)
  }

  ghost predicate ContextOk(s: State, ep: Endpoint)
    requires ep in s.contexts
  {
    Known(s, ep) && s.logs[s.contexts[ep].epoch].endpoint == ep && ContextGood(CellAt(s, ep))
  }

  predicate Live(s: State, e: nat)
    requires e < |s.logs|
  {
    s.logs[e].endpoint in s.contexts && s.contexts[s.logs[e].endpoint].epoch == e
  }

  /** The payloads of epoch `e` that wait for a flush. */
  function PendingOf(s: State, e: nat): seq<Item>
    requires e < |s.logs|
  {
    if Live(s, e) then QueueAt(s.pending, s.logs[e].endpoint) else []
  }

  /** The inbound messages of epoch `e` that were not handed out yet. */
  function InboxOf(s: State, e: nat): seq<string>
    requires e < |s.logs|
  {
    if Live(s, e) then s.contexts[s.logs[e].endpoint].inbox else []
  }

  /** The ledger of epoch `e` balances. */
  ghost predicate EpochOk(s: State, e: nat)
    requires e < |s.logs|
  {
    Balanced(s.logs[e], e, PendingOf(s, e), InboxOf(s, e), Live(s, e))
  }

  ghost predicate Inv(s: State) {
    WellFormed(s) && forall e :: 0 <= e < |s.logs| ==> EpochOk(s, e)
  }

  function Apply(s: State, ev: Event): State
    requires WellFormed(s)
  {
    assert ev.ep in s.contexts ==> ContextOk(s, ev.ep);
    match ev
    case Opening(ep) => OpenConnection(s, ep)
    case Closing(ep) => CloseConnection(s, ep)
    case _ =>
      if ev.ep !in s.contexts then s else
      StepSame(CellAt(s, ev.ep), ev);
      PutCell(s, ev.ep, Step(CellAt(s, ev.ep), ev))
  }

  /** The requests are the events of the same name. */
  lemma RequestsAreEvents(s: State, ep: Endpoint, data: string, open: bool, ok: bool, oks: seq<bool>)
    requires WellFormed(s)
    ensures ep in s.contexts ==> ContextOk(s, ep)
    ensures Apply(s, Sending(ep, data, open, ok)) == Send(s, ep, data, open, ok).0
    ensures Apply(s, Receiving(ep, open, oks)) == Receive(s, ep, open, oks).0
  {
    assert ep in s.contexts ==> ContextOk(s, ep);
  }

  // ---------------------------------------------------------------- events keep the invariant

  /** The connection of a context in good order is good. */
  lemma CellGood(s: State, ep: Endpoint)
    requires Inv(s) && ep in s.contexts
    ensures ContextOk(s, ep) && Good(CellAt(s, ep)) && CellAt(s, ep).log.endpoint == ep
    ensures Live(s, s.contexts[ep].epoch)
  {
    assert ContextOk(s, ep);
    assert EpochOk(s, s.contexts[ep].epoch);
  }

  /** A good connection put back in its place. */
  lemma PutKeepsInv(s: State, ep: Endpoint, c: Cell)
    requires Inv(s) && ep in s.contexts && c.ctx.epoch == s.contexts[ep].epoch < |s.logs|
    requires Good(c) && c.log.endpoint == ep && (c.queue.None? ==> ep !in s.pending)
    ensures Inv(PutCell(s, ep, c))
  {
    var t, e0 := PutCell(s, ep, c), c.ctx.epoch;
    assert ContextOk(s, ep);
    assert CellAt(t, ep) == c;
    forall other | other in t.contexts
      ensures ContextOk(t, other)
    {
      assert ContextOk(s, other);
      if other != ep {
        assert s.contexts[other].epoch != e0;
        assert CellAt(t, other) == CellAt(s, other);
      }
    }
    forall e | 0 <= e < |t.logs|
      ensures EpochOk(t, e)
    {
      assert EpochOk(s, e);
      if e != e0 {
        OtherEpoch(s, ep, c, e);
      }
    }
  }

  lemma OtherEpoch(s: State, ep: Endpoint, c: Cell, e: nat)
    requires ep in s.contexts && c.ctx.epoch == s.contexts[ep].epoch < |s.logs| && e < |s.logs| && e != c.ctx.epoch
    requires s.logs[c.ctx.epoch].endpoint == ep
    ensures var t := PutCell(s, ep, c);
            && t.logs[e] == s.logs[e] && Live(t, e) == Live(s, e)
            && PendingOf(t, e) == PendingOf(s, e) && InboxOf(t, e) == InboxOf(s, e)
  {
  }

  lemma EventKeepsInv(s: State, ev: Event)
    requires Inv(s) && ev.ep in s.contexts && !Ends(ev)
    ensures Inv(Apply(s, ev))
  {
    CellGood(s, ev.ep);
    StepGood(CellAt(s, ev.ep), ev);
    PutKeepsInv(s, ev.ep, Step(CellAt(s, ev.ep), ev));
  }

  lemma SendKeepsInv(s: State, ep: Endpoint, data: string, open: bool, ok: bool)
    requires Inv(s)
    ensures ep in s.contexts ==> ContextOk(s, ep)
    ensures Inv(Send(s, ep, data, open, ok).0)
  {
    RequestsAreEvents(s, ep, data, open, ok, []);
    ApplyKeepsInv(s, Sending(ep, data, open, ok));
  }

  lemma ReceiveKeepsInv(s: State, ep: Endpoint, open: bool, oks: seq<bool>)
    requires Inv(s)
    ensures ep in s.contexts ==> ContextOk(s, ep)
    ensures Inv(Receive(s, ep, open, oks).0)
  {
    RequestsAreEvents(s, ep, "", open, false, oks);
    ApplyKeepsInv(s, Receiving(ep, open, oks));
  }

  lemma CloseKeepsInv(s: State, ep: Endpoint)
    requires Inv(s)
    ensures ep in s.contexts ==> ContextOk(s, ep)
    ensures Inv(CloseConnection(s, ep))
    ensures ep !in CloseConnection(s, ep).contexts
    ensures ep !in CloseConnection(s, ep).pending
  {
    if ep in s.contexts {
      assert ContextOk(s, ep);
      var e0, t := s.contexts[ep].epoch, CloseConnection(s, ep);
      forall other | other in t.contexts
        ensures ContextOk(t, other)
      {
        assert ContextOk(s, other);
        assert CellAt(t, other) == CellAt(s, other);
      }
      assert EpochOk(s, e0);
      CloseBalances(s.logs[e0], e0, QueueAt(s.pending, ep), s.contexts[ep].inbox);
      forall e | 0 <= e < |t.logs| && e != e0
        ensures EpochOk(t, e)
      {
        assert EpochOk(s, e);
        assert t.logs[e] == s.logs[e];
        assert Live(t, e) == Live(s, e);
      }
    }
  }

  lemma NewEpochKeepsInv(c: State, ep: Endpoint)
    requires Inv(c) && ep !in c.contexts && ep !in c.pending
    ensures Inv(OpenConnection(c, ep))
  {
    var t := OpenConnection(c, ep);
    assert forall e :: 0 <= e < |c.logs| ==> t.logs[e] == c.logs[e];
    forall other | other in t.contexts
      ensures ContextOk(t, other)
    {
      if other != ep {
        assert ContextOk(c, other);
        assert CellAt(t, other) == CellAt(c, other);
      }
    }
    forall e | 0 <= e < |t.logs|
      ensures EpochOk(t, e)
    {
      if e < |c.logs| {
        assert EpochOk(c, e);
        assert Live(t, e) == Live(c, e);
      } else {
        assert Balanced(t.logs[e], e, [], [], true);
      }
    }
  }

  lemma OpenKeepsInv(s: State, ep: Endpoint)
    requires Inv(s)
    ensures ep in s.contexts ==> ContextOk(s, ep)
    ensures Inv(OpenConnection(s, ep))
  {
    CloseKeepsInv(s, ep);
    NewEpochKeepsInv(CloseConnection(s, ep), ep);
  }

  /** Every event keeps the invariant. */
  lemma ApplyKeepsInv(s: State, ev: Event)
    requires Inv(s)
    ensures Inv(Apply(s, ev))
  {
    match ev
    case Opening(ep) => OpenKeepsInv(s, ep);
    case Closing(ep) => CloseKeepsInv(s, ep);
    case _ =>
      if ev.ep in s.contexts {
        EventKeepsInv(s, ev);
      }
  }

  // ---------------------------------------------------------------- theorems over all runs

  /** The state after any sequence of calls and callbacks, starting from an empty broker. */
  function Run(events: seq<Event>): (s: State)
    ensures Inv(s)
  {
    if events == [] then EmptyState else
    var before := Run(events[..|events| - 1]);
    ApplyKeepsInv(before, events[|events| - 1]);
    Apply(before, events[|events| - 1])
  }

  lemma RunAppend(events: seq<Event>, ev: Event)
    ensures Run(events + [ev]) == Apply(Run(events), ev)
  {
  }

  lemma {:induction false} PickIsSubsequence(sent: seq<(Item, Fate)>, fate: Fate, k: nat) returns (i: nat)
    requires k < |Pick(sent, fate)|
    ensures i < |sent| && sent[i] == (Pick(sent, fate)[k], fate)
  {
    var last := |sent| - 1;
    if k < |Pick(sent[..last], fate)| {
      i := PickIsSubsequence(sent[..last], fate, k);
    } else {
      i := last;
    }
  }

  lemma {:induction false} PickContains(sent: seq<(Item, Fate)>, fate: Fate, i: nat)
    requires i < |sent| && sent[i].1 == fate
    ensures sent[i].0 in Pick(sent, fate)
  {
    var last := |sent| - 1;
    if i < last {
      PickContains(sent[..last], fate, i);
    } else {
      assert Pick(sent, fate)[|Pick(sent, fate)| - 1] == sent[last].0;
    }
  }

  /** Serial numbers in send order make every picked stream strictly increasing. */
  ghost predicate InOrder(items: seq<Item>) {
    forall j, k :: 0 <= j < k < |items| ==> items[j].serial < items[k].serial
  }

  lemma {:induction false} PickInOrder(sent: seq<(Item, Fate)>, fate: Fate)
    requires forall i :: 0 <= i < |sent| ==> sent[i].0.serial == i
    ensures InOrder(Pick(sent, fate))
    ensures forall k :: 0 <= k < |Pick(sent, fate)| ==> Pick(sent, fate)[k].serial < |sent|
  {
    if sent != [] {
      PickInOrder(sent[..|sent| - 1], fate);
    }
  }

  lemma PickedFate(sent: seq<(Item, Fate)>, fate: Fate, i: nat)
    requires i < |sent| && forall j :: 0 <= j < |sent| ==> sent[j].0.serial == j
    ensures sent[i].0 in Pick(sent, fate) <==> sent[i].1 == fate
  {
    if sent[i].1 == fate {
      PickContains(sent, fate, i);
    } else if sent[i].0 in Pick(sent, fate) {
      var k :| 0 <= k < |Pick(sent, fate)| && Pick(sent, fate)[k] == sent[i].0;
      var j := PickIsSubsequence(sent, fate, k);
      assert false;
    }
  }

  function In(item: Item, items: seq<Item>): nat {
    if item in items then 1 else 0
  }

  /** Nothing sent on an existing connection is lost track of or used twice: in every run, each
      payload of each epoch is in exactly one of five places: written at once, failed at its own
      write, written by a flush, pending, or dropped at the close. What was written at once and
      what was queued keep their send order, and a flush only ever removed a prefix. */
  lemma OutboundConservation(events: seq<Event>, e: nat, i: nat)
    requires e < |Run(events).logs| && i < |Run(events).logs[e].sent|
    ensures var s := Run(events);
            var log, item := s.logs[e], s.logs[e].sent[i].0;
            var direct, flushed := DirectItems(log.written), FlushedItems(log.written);
            && In(item, direct) + In(item, Pick(log.sent, WriteFailed)) + In(item, flushed)
               + In(item, PendingOf(s, e)) + In(item, log.dropped) == 1
            && InOrder(direct) && InOrder(flushed + PendingOf(s, e) + log.dropped)
  {
    assert EpochOk(Run(events), e);
    LedgerPlaces(Run(events).logs[e], e, PendingOf(Run(events), e), InboxOf(Run(events), e), Live(Run(events), e), i);
  }

  lemma LedgerPlaces(log: EpochLog, e: nat, pending: seq<Item>, inbox: seq<string>, live: bool, i: nat)
    requires Balanced(log, e, pending, inbox, live) && i < |log.sent|
    ensures var item := log.sent[i].0;
            In(item, DirectItems(log.written)) + In(item, Pick(log.sent, WriteFailed))
            + In(item, FlushedItems(log.written)) + In(item, pending) + In(item, log.dropped) == 1
    ensures InOrder(DirectItems(log.written)) && InOrder(FlushedItems(log.written) + pending + log.dropped)
  {
    PickedFate(log.sent, WrittenAtOnce, i);
    PickedFate(log.sent, WriteFailed, i);
    PickedFate(log.sent, Queued, i);
    PickInOrder(log.sent, WrittenAtOnce);
    PickInOrder(log.sent, Queued);
    OnePart(FlushedItems(log.written), pending, log.dropped, log.sent[i].0);
  }

  lemma OnePart(a: seq<Item>, b: seq<Item>, c: seq<Item>, item: Item)
    requires InOrder(a + b + c)
    ensures In(item, a) + In(item, b) + In(item, c) == In(item, a + b + c)
  {
    TwoParts(a + b, c, item);
    assert InOrder(a + b) by {
      assert forall k :: 0 <= k < |a + b| ==> (a + b)[k] == (a + b + c)[k];
    }
    TwoParts(a, b, item);
  }

  lemma TwoParts(a: seq<Item>, b: seq<Item>, item: Item)
    requires InOrder(a + b)
    ensures In(item, a) + In(item, b) == In(item, a + b)
  {
    forall j, k | 0 <= j < |a| && 0 <= k < |b|
      ensures a[j] != b[k]
    {
      assert (a + b)[j].serial < (a + b)[|a| + k].serial;
    }
  }

  /** Whatever is written, waiting or dropped in an epoch was sent in that epoch: a pending queue
      never outlives its connection. */
  lemma EpochIsolation(events: seq<Event>, e: nat)
    requires e < |Run(events).logs|
    ensures var s := Run(events);
            && (forall k :: 0 <= k < |s.logs[e].written| ==> s.logs[e].written[k].item.epoch == e)
            && (forall k :: 0 <= k < |PendingOf(s, e)| ==> PendingOf(s, e)[k].epoch == e)
            && (forall k :: 0 <= k < |s.logs[e].dropped| ==> s.logs[e].dropped[k].epoch == e)
  {
    assert EpochOk(Run(events), e);
    LedgerOfOneEpoch(Run(events).logs[e], e, PendingOf(Run(events), e), InboxOf(Run(events), e), Live(Run(events), e));
  }

  lemma LedgerOfOneEpoch(log: EpochLog, e: nat, p: seq<Item>, inbox: seq<string>, live: bool)
    requires Balanced(log, e, p, inbox, live)
    ensures forall k :: 0 <= k < |log.written| ==> log.written[k].item.epoch == e
    ensures forall k :: 0 <= k < |p| ==> p[k].epoch == e
    ensures forall k :: 0 <= k < |log.dropped| ==> log.dropped[k].epoch == e
  {
    var queued, f := Pick(log.sent, Queued), FlushedItems(log.written);
    AllOfEpoch(log.sent, WrittenAtOnce, e);
    AllOfEpoch(log.sent, Queued, e);
    assert forall k :: 0 <= k < |f| ==> f[k] == queued[k];
    assert forall k :: 0 <= k < |p| ==> p[k] == queued[|f| + k];
    assert forall k :: 0 <= k < |log.dropped| ==> log.dropped[k] == queued[|f| + |p| + k];
    forall k | 0 <= k < |log.written|
      ensures log.written[k].item.epoch == e
    {
      OutputIsCounted(log.written, k);
    }
  }

  lemma AllOfEpoch(sent: seq<(Item, Fate)>, fate: Fate, e: nat)
    requires forall i :: 0 <= i < |sent| ==> sent[i].0.epoch == e
    ensures forall k :: 0 <= k < |Pick(sent, fate)| ==> Pick(sent, fate)[k].epoch == e
  {
  }

  lemma {:induction false} OutputIsCounted(written: seq<Output>, k: nat)
    requires k < |written|
    ensures written[k].item in if written[k].Direct? then DirectItems(written) else FlushedItems(written)
  {
    var last := |written| - 1;
    if k < last {
      OutputIsCounted(written[..last], k);
    } else if written[k].Direct? {
      assert DirectItems(written)[|DirectItems(written)| - 1] == written[k].item;
    } else {
      assert FlushedItems(written)[|FlushedItems(written)| - 1] == written[k].item;
    }
  }

  /** In every run each non-empty message that arrived in an epoch was handed out, is held, was in the
      inbox when the connection closed, or was read by a displaced session: exactly once, in order of
      arrival. Live epochs have lost nothing. */
  lemma InboundConservation(events: seq<Event>, e: nat)
    requires e < |Run(events).logs|
    ensures var s := Run(events);
            var log := s.logs[e];
            && log.arrived == log.handed + InboxOf(s, e) + log.lost + log.stranded
            && (Live(s, e) ==> log.lost == [])
            && (!Live(s, e) ==> InboxOf(s, e) == [])
  {
    assert EpochOk(Run(events), e);
  }

  /** From `s` to `t` nothing happened outside endpoint `ep` and its current epoch. */
  ghost predicate OnlyAt(s: State, t: State, ep: Endpoint) {
    && |s.logs| <= |t.logs|
    && s.contexts - {ep} == t.contexts - {ep}
    && s.pending - {ep} == t.pending - {ep}
    && (forall e :: 0 <= e < |s.logs| ==>
          t.logs[e].endpoint == s.logs[e].endpoint
          && (t.logs[e] == s.logs[e] || (ep in s.contexts && s.contexts[ep].epoch == e)))
    && (ep in t.contexts && t.contexts[ep].epoch < |s.logs| ==>
          ep in s.contexts && s.contexts[ep].epoch == t.contexts[ep].epoch)
  }

  /** What an event of an existing connection changes: the connection, and nothing else. */
  ghost predicate Local(s: State, t: State, ep: Endpoint) {
    && Known(s, ep) && Known(t, ep) && s.contexts[ep].epoch == t.contexts[ep].epoch && |s.logs| == |t.logs|
    && t.logs[t.contexts[ep].epoch].endpoint == s.logs[t.contexts[ep].epoch].endpoint
    && t.contexts == s.contexts[ep := t.contexts[ep]]
    && t.pending - {ep} == s.pending - {ep}
    && t.logs == s.logs[t.contexts[ep].epoch := t.logs[t.contexts[ep].epoch]]
  }

  lemma PutIsLocal(s: State, ep: Endpoint, c: Cell)
    requires Known(s, ep) && c.ctx.epoch == s.contexts[ep].epoch && c.log.endpoint == s.logs[c.ctx.epoch].endpoint
    ensures Local(s, PutCell(s, ep, c), ep)
  {
  }

  lemma LocalIsOnlyAt(s: State, t: State, ep: Endpoint)
    requires Local(s, t, ep)
    ensures OnlyAt(s, t, ep)
  {
  }

  lemma OpenIsOnlyAt(s: State, ep: Endpoint)
    requires ep in s.contexts ==> Known(s, ep)
    ensures OnlyAt(s, OpenConnection(s, ep), ep)
  {
  }

  /** Requests and callbacks keep the context they are about, and change it as `Step` says. */
  lemma KeepsContext(s: State, ev: Event)
    requires Inv(s) && !Ends(ev) && ev.ep in s.contexts
    ensures ContextOk(s, ev.ep) && Local(s, Apply(s, ev), ev.ep)
    ensures CellAt(Apply(s, ev), ev.ep) == Step(CellAt(s, ev.ep), ev)
  {
    CellGood(s, ev.ep);
    var c := Step(CellAt(s, ev.ep), ev);
    StepGood(CellAt(s, ev.ep), ev);
    PutIsLocal(s, ev.ep, c);
    assert c.queue.None? ==> ev.ep !in s.pending;
  }

  /** Connections to different endpoints do not disturb each other. */
  lemma EndpointIsolation(s: State, ev: Event)
    requires Inv(s)
    ensures OnlyAt(s, Apply(s, ev), ev.ep)
  {
    if ev.ep in s.contexts {
      assert ContextOk(s, ev.ep);
      match ev
      case Opening(ep) => OpenIsOnlyAt(s, ep);
      case Closing(ep) =>
      case _ =>
        KeepsContext(s, ev);
        LocalIsOnlyAt(s, Apply(s, ev), ev.ep);
    }
  }

  lemma ClosedStaysClosed(s: State, t: State, ep: Endpoint, e: nat)
    requires OnlyAt(s, t, ep) && e < |s.logs| && !Live(s, e)
    requires ep in s.contexts && s.contexts[ep].epoch < |s.logs| ==> s.logs[s.contexts[ep].epoch].endpoint == ep
    ensures t.logs[e] == s.logs[e] && !Live(t, e)
  {
    var at := s.logs[e].endpoint;
    if at != ep {
      assert at in t.contexts <==> at in t.contexts - {ep};
      assert at in t.contexts ==> (t.contexts - {ep})[at] == (s.contexts - {ep})[at];
    }
  }

  /** Once an epoch is closed its record is final: nothing that happens later, in particular on a
      reopened connection to the same endpoint, writes, queues or delivers anything for it. */
  lemma {:induction false} ClosedIsFinal(events: seq<Event>, more: seq<Event>, e: nat)
    requires e < |Run(events).logs| && !Live(Run(events), e)
    ensures var t := Run(events + more);
            e < |t.logs| && t.logs[e] == Run(events).logs[e] && !Live(t, e)
  {
    if more == [] {
      assert events + more == events;
    } else {
      var before := more[..|more| - 1];
      ClosedIsFinal(events, before, e);
      var s, ev := Run(events + before), more[|more| - 1];
      assert Run(events + more) == Apply(s, ev) by {
        assert (events + more)[..|events + more| - 1] == events + before;
      }
      EndpointIsolation(s, ev);
      assert ev.ep in s.contexts ==> ContextOk(s, ev.ep);
      ClosedStaysClosed(s, Apply(s, ev), ev.ep, e);
    }
  }

  /** Nothing changes at other endpoints. */
  lemma OtherContext(s: State, ev: Event, ep: Endpoint)
    requires Inv(s) && ep in s.contexts && ev.ep != ep
    ensures ContextOk(s, ep) && Known(Apply(s, ev), ep) && CellAt(Apply(s, ev), ep) == CellAt(s, ep)
  {
    EndpointIsolation(s, ev);
    var t := Apply(s, ev);
    assert ContextOk(s, ep);
    assert ep in s.contexts - {ev.ep} && (s.contexts - {ev.ep})[ep] == s.contexts[ep];
    assert ep in t.contexts - {ev.ep} && (t.contexts - {ev.ep})[ep] == t.contexts[ep];
    assert ep in s.pending <==> ep in s.pending - {ev.ep};
    assert ep in t.pending <==> ep in t.pending - {ev.ep};
    assert ep in s.pending ==> (s.pending - {ev.ep})[ep] == (t.pending - {ev.ep})[ep];
    assert ev.ep in s.contexts ==> ContextOk(s, ev.ep);
  }

  /** An epoch that lives through an event has its connection changed by that event alone. */
  lemma LiveThrough(s: State, ev: Event, e: nat)
    requires Inv(s) && e < |s.logs| && Live(s, e)
    ensures var ep, t := s.logs[e].endpoint, Apply(s, ev);
            && ContextOk(s, ep) && Good(CellAt(s, ep)) && CellAt(s, ep).ctx.epoch == e
            && e < |t.logs| && t.logs[e].endpoint == ep
            && if ev.ep == ep && Ends(ev) then !Live(t, e)
               else && Live(t, e) && Known(t, ep)
                    && CellAt(t, ep) == if ev.ep == ep then Step(CellAt(s, ep), ev) else CellAt(s, ep)
  {
    var ep := s.logs[e].endpoint;
    CellGood(s, ep);
    EndpointIsolation(s, ev);
    if ev.ep != ep {
      OtherContext(s, ev, ep);
    } else if Ends(ev) {
      CloseKeepsInv(s, ep);
    } else {
      KeepsContext(s, ev);
    }
  }

  /** An epoch that does not live keeps its record. */
  lemma DeadThrough(s: State, ev: Event, e: nat)
    requires Inv(s) && e < |s.logs| && !Live(s, e)
    ensures var t := Apply(s, ev); e < |t.logs| && t.logs[e] == s.logs[e] && !Live(t, e)
  {
    EndpointIsolation(s, ev);
    assert ev.ep in s.contexts ==> ContextOk(s, ev.ep);
    ClosedStaysClosed(s, Apply(s, ev), ev.ep, e);
  }

  /** A new epoch starts with a new context and an empty record. */
  lemma FreshEpoch(s: State, ev: Event, e: nat)
    requires Inv(s) && |s.logs| <= e < |Apply(s, ev).logs|
    ensures var t := Apply(s, ev);
            && ev.Opening? && t.logs[e] == NewLog(ev.ep) && Live(t, e) && Known(t, ev.ep)
            && CellAt(t, ev.ep) == Cell(NewContext(e), None, NewLog(ev.ep))
  {
    assert ev.ep in s.contexts ==> ContextOk(s, ev.ep);
    if ev.Opening? {
      CloseKeepsInv(s, ev.ep);
    } else if ev.ep in s.contexts && !ev.Closing? {
      KeepsContext(s, ev);
    }
  }

  /** What a reply takes from epoch `e`: its message, when the epoch is current at `ep`. */
  function HandedTo(s: State, ep: Endpoint, e: nat, r: Reply): seq<string> {
    if ep in s.contexts && s.contexts[ep].epoch == e then Message(r) else []
  }

  /** `Send` hands out exactly what it returns: the log of the current epoch grows by the returned
      message, if any, and no other log by anything. */
  lemma SendHands(s: State, ep: Endpoint, data: string, open: bool, ok: bool, e: nat)
    requires Inv(s) && e < |s.logs|
    ensures ep in s.contexts ==> ContextOk(s, ep)
    ensures var (t, r) := Send(s, ep, data, open, ok);
            |t.logs| == |s.logs| && t.logs[e].handed == s.logs[e].handed + HandedTo(s, ep, e, r)
  {
    if ep in s.contexts {
      CellGood(s, ep);
      SendHandsOut(CellAt(s, ep), data, open, ok);
    }
  }

  /** So does `Receive`. */
  lemma ReceiveHands(s: State, ep: Endpoint, open: bool, oks: seq<bool>, e: nat)
    requires Inv(s) && e < |s.logs|
    ensures ep in s.contexts ==> ContextOk(s, ep)
    ensures var (t, r) := Receive(s, ep, open, oks);
            |t.logs| == |s.logs| && t.logs[e].handed == s.logs[e].handed + HandedTo(s, ep, e, r)
  {
    if ep in s.contexts {
      CellGood(s, ep);
      ReceiveHandsOut(CellAt(s, ep), open, oks);
    }
  }

  /** No other event hands out anything. */
  lemma OthersHandNothing(s: State, ev: Event, e: nat)
    requires Inv(s) && !ev.Sending? && !ev.Receiving?
    requires e < |Apply(s, ev).logs|
    ensures Apply(s, ev).logs[e].handed == if e < |s.logs| then s.logs[e].handed else []
  {
    if e >= |s.logs| {
      FreshEpoch(s, ev, e);
    } else if !Live(s, e) {
      DeadThrough(s, ev, e);
    } else {
      LiveThrough(s, ev, e);
      if ev.ep == s.logs[e].endpoint && !Ends(ev) {
        OthersHandNothingOut(CellAt(s, ev.ep), ev);
      }
    }
  }
}
