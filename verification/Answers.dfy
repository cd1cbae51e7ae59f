/** What the broker answers to `Send` and `Receive`, and how its records follow from the calls and
    callbacks themselves: stated on the state before the call and on the history of events, with
    nothing taken from the operations. */
module Answers {
  import opened Common
  import opened Connection
  import opened Broker

  // ---------------------------------------------------------------- one call

  /** `Send` on an existing connection. Only an open real session, which no request in progress has
      missed, writes and pops; anything else queues the payload, as it was given. */
  lemma SendTable(c: Cell, data: string, open: bool, ok: bool)
    ensures var (t, r) := SendOn(c, data, open, ok);
            var item := Item(c.ctx.epoch, |c.log.sent|, data);
            var pending := if c.queue.Some? then c.queue.value else [];
            if c.ctx.session.Real? && !c.ctx.seenNone && open then
              && r.code == (if ok then SUCCESS else WRITE_FAILURE)
              && r.msg == (if c.ctx.inbox == [] then "" else c.ctx.inbox[0])
              && t.ctx.inbox == (if c.ctx.inbox == [] then [] else c.ctx.inbox[1..])
              && t.log.sent == c.log.sent + [(item, if ok then WrittenAtOnce else WriteFailed)]
              && t.log.written == c.log.written + (if ok then [Direct(item)] else [])
              && t.queue == c.queue && t.ctx.session == Real
            else
              && r == Reply("", WRITE_FAILURE)
              && t.log.sent == c.log.sent + [(item, Queued)]
              && t.log.written == c.log.written
              && t.queue == Some(pending + [item])
              && t.ctx.session == (if c.ctx.session.Real? && !c.ctx.seenNone then Real else Dummy)
  {
    var m := WithSession(c);
    assert m.log.sent == c.log.sent && m.log.written == c.log.written;
    assert c.log.written + [] == c.log.written;
  }

  /** The longest prefix of the pending payloads whose writes succeed. */
  ghost predicate WritesPrefix(pending: seq<Item>, oks: seq<bool>, k: nat) {
    && k <= |pending| && k <= |oks| && (forall i :: 0 <= i < k ==> oks[i])
    && (k < |pending| ==> k == |oks| || !oks[k])
  }

  /** What moves from the pending to the written payloads. */
  ghost predicate Moves(c: Cell, t: Cell, k: nat) {
    var pending := if c.queue.Some? then c.queue.value else [];
    && k <= |pending| && t.queue == Some(pending[k..])
    && |t.log.written| == |c.log.written| + k && c.log.written <= t.log.written
    && (forall i :: 0 <= i < k ==> t.log.written[|c.log.written| + i] == Flush(pending[i]))
    && t.log.sent == c.log.sent
  }

  lemma FlushTable(c: Cell, open: bool, oks: seq<bool>) returns (k: nat)
    ensures Moves(c, FlushPending(c, open, oks), k)
    ensures if c.ctx.session.Real? && !c.ctx.seenNone && open
            then WritesPrefix(if c.queue.Some? then c.queue.value else [], oks, k) else k == 0
  {
    var m := WithSession(c);
    k := if IsOpen(m.ctx, open) then Successes(QueueOf(c), oks) else 0;
    assert m.log.sent == c.log.sent && m.log.written == c.log.written && m.queue == c.queue;
  }

  lemma TakeTable(f: Cell, t: Cell)
    requires t == NextMessage(f).0
    ensures t.queue == f.queue && t.log.written == f.log.written && t.log.sent == f.log.sent
  {
    var m := WithSession(f);
    assert m.log.sent == f.log.sent && m.log.written == f.log.written && m.queue == f.queue;
  }

  /** `Receive` on an existing connection: the flush writes the longest prefix of the pending payloads
      whose writes succeed, on an open session only; the message is the first of the session's. */
  lemma ReceiveTable(c: Cell, open: bool, oks: seq<bool>) returns (k: nat)
    ensures var (t, r) := ReceiveOn(c, open, oks);
            && r.code == SUCCESS && Moves(c, t, k)
            && t.ctx.session == (if c.ctx.session.Real? && !c.ctx.seenNone then Real else Dummy)
            && (c.ctx.session.Real? && !c.ctx.seenNone ==>
                  && r.msg == (if c.ctx.inbox == [] then "" else c.ctx.inbox[0])
                  && t.ctx.inbox == (if c.ctx.inbox == [] then [] else c.ctx.inbox[1..]))
            && if c.ctx.session.Real? && !c.ctx.seenNone && open
               then WritesPrefix(if c.queue.Some? then c.queue.value else [], oks, k) else k == 0
  {
    k := FlushTable(c, open, oks);
    var f := FlushPending(c, open, oks);
    TakeTable(f, NextMessage(f).0);
    if c.ctx.session.Real? && !c.ctx.seenNone {
      assert WithSession(c) == c && f.ctx == c.ctx && WithSession(f) == f;
    } else {
      assert WithSession(c).ctx.session == Dummy && WithSession(f).ctx.session == Dummy;
    }
  }

  // ---------------------------------------------------------------- in every reachable state

  /** The code tells exactly what happened: NO_CONNECTION when the endpoint has no context, and then
      nothing changes; SUCCESS when an open session wrote; WRITE_FAILURE otherwise. */
  lemma SendCodes(events: seq<Event>, ep: Endpoint, data: string, open: bool, ok: bool)
    ensures var s := Run(events);
            && (ep in s.contexts ==> Known(s, ep))
            && var (t, r) := Send(s, ep, data, open, ok);
               if ep !in s.contexts then t == s && r == Reply("", NO_CONNECTION) else
               var ctx := s.contexts[ep];
               r.code == if ctx.session.Real? && !ctx.seenNone && open && ok then SUCCESS else WRITE_FAILURE
  {
    var s := Run(events);
    if ep in s.contexts {
      assert ContextOk(s, ep);
      SendTable(CellAt(s, ep), data, open, ok);
    }
  }

  lemma ReceiveCodes(events: seq<Event>, ep: Endpoint, open: bool, oks: seq<bool>)
    ensures var s := Run(events);
            && (ep in s.contexts ==> Known(s, ep))
            && var (t, r) := Receive(s, ep, open, oks);
               if ep !in s.contexts then t == s && r == Reply("", NO_CONNECTION) else r.code == SUCCESS
  {
    var s := Run(events);
    assert ep in s.contexts ==> ContextOk(s, ep);
  }

  // ---------------------------------------------------------------- the records and the history

  /** The event reaches epoch `e`: it is current at the endpoint. */
  predicate Meets(s: State, ev: Event, e: nat) {
    e < |s.logs| && Live(s, e) && ev.ep == s.logs[e].endpoint
  }

  /** The payloads of the calls of `Send` that met the epoch, as they were given. */
  function Payloads(events: seq<Event>, e: nat): seq<string> {
    if events == [] then [] else
    var before, ev := events[..|events| - 1], events[|events| - 1];
    Payloads(before, e) + if ev.Sending? && Meets(Run(before), ev, e) then [ev.data] else []
  }

  /** The messages that completed reads brought the epoch. */
  function Brought(events: seq<Event>, e: nat): seq<string> {
    if events == [] then [] else
    var before, ev := events[..|events| - 1], events[|events| - 1];
    Brought(before, e) +
    if && ev.Reading? && ev.read.Data? && ev.read.bytes != "" && Meets(Run(before), ev, e)
       && (Run(before).contexts[ev.ep].reading || Run(before).contexts[ev.ep].orphan)
    then [ev.read.bytes] else []
  }

  function Datas(sent: seq<(Item, Fate)>): (r: seq<string>)
    ensures |r| == |sent| && forall i :: 0 <= i < |r| ==> r[i] == sent[i].0.data
  {
    seq(|sent|, i requires 0 <= i < |sent| => sent[i].0.data)
  }

  predicate BringsData(ctx: Context, ev: Event) {
    ev.Reading? && ev.read.Data? && ev.read.bytes != "" && (ctx.reading || ctx.orphan)
  }

  lemma RequestArrived(c: Cell, ev: Event)
    requires ev.Sending? || ev.Receiving?
    ensures Step(c, ev).log.arrived == c.log.arrived
  {
    var m := WithSession(c);
    assert m.log.arrived == c.log.arrived;
    match ev
    case Sending(_, data, open, ok) => assert Posted(m, data, open, ok).log.arrived == c.log.arrived;
    case Receiving(_, open, oks) =>
      var f := FlushPending(c, open, oks);
      assert f.log.arrived == c.log.arrived;
      assert WithSession(f).log.arrived == c.log.arrived;
  }

  lemma StepRecords(c: Cell, ev: Event)
    ensures var t := Step(c, ev);
            && Datas(t.log.sent) == Datas(c.log.sent) + (if ev.Sending? then [ev.data] else [])
            && t.log.arrived == c.log.arrived + (if BringsData(c.ctx, ev) then [ev.read.bytes] else [])
  {
    var t := Step(c, ev);
    match ev
    case Sending(_, data, open, ok) =>
      SendTable(c, data, open, ok);
      RequestArrived(c, ev);
    case Receiving(_, open, oks) =>
      var k := ReceiveTable(c, open, oks);
      RequestArrived(c, ev);
    case _ => assert t.log.sent == c.log.sent;
  }

  lemma {:induction false} NoneMet(events: seq<Event>, e: nat)
    requires e >= |Run(events).logs|
    ensures Payloads(events, e) == [] && Brought(events, e) == []
  {
    if events != [] {
      EndpointIsolation(Run(events[..|events| - 1]), events[|events| - 1]);
      NoneMet(events[..|events| - 1], e);
    }
  }

  ghost predicate RecordsAre(log: EpochLog, payloads: seq<string>, brought: seq<string>) {
    Datas(log.sent) == payloads && log.arrived == brought
  }

  lemma RecordsStep(s: State, ev: Event, e: nat, payloads: seq<string>, brought: seq<string>)
    requires Inv(s) && e < |s.logs| && RecordsAre(s.logs[e], payloads, brought)
    ensures e < |Apply(s, ev).logs|
    ensures RecordsAre(Apply(s, ev).logs[e],
                       payloads + (if ev.Sending? && Meets(s, ev, e) then [ev.data] else []),
                       brought + (if Meets(s, ev, e) && BringsData(s.contexts[ev.ep], ev) then [ev.read.bytes] else []))
  {
    if !Live(s, e) {
      DeadThrough(s, ev, e);
    } else {
      LiveThrough(s, ev, e);
      if ev.ep == s.logs[e].endpoint && Ends(ev) {
        assert Datas(Apply(s, ev).logs[e].sent) == Datas(s.logs[e].sent);
      } else if ev.ep == s.logs[e].endpoint {
        StepRecords(CellAt(s, ev.ep), ev);
      }
    }
  }

  /** In every run the record of an epoch has the payloads of the calls that met it, whole and in order,
      and the messages of the reads that met it. */
  lemma {:induction false} RecordsAreHistory(events: seq<Event>, e: nat)
    requires e < |Run(events).logs|
    ensures Datas(Run(events).logs[e].sent) == Payloads(events, e)
    ensures Run(events).logs[e].arrived == Brought(events, e)
  {
    var before, ev := events[..|events| - 1], events[|events| - 1];
    var s := Run(before);
    if e >= |s.logs| {
      FreshEpoch(s, ev, e);
      NoneMet(before, e);
    } else {
      RecordsAreHistory(before, e);
      RecordsStep(s, ev, e, Payloads(before, e), Brought(before, e));
    }
  }

  /** So the payload of each call is in exactly one place: written at once, failed at its own write,
      written by a flush, pending, or dropped at the close. */
  lemma PayloadPlaces(events: seq<Event>, e: nat, i: nat)
    requires e < |Run(events).logs| && i < |Payloads(events, e)|
    ensures var s := Run(events);
            var log, item := s.logs[e], Item(e, i, Payloads(events, e)[i]);
            In(item, DirectItems(log.written)) + In(item, Pick(log.sent, WriteFailed))
            + In(item, FlushedItems(log.written)) + In(item, PendingOf(s, e)) + In(item, log.dropped) == 1
  {
    RecordsAreHistory(events, e);
    OutboundConservation(events, e, i);
    assert EpochOk(Run(events), e);
    assert Run(events).logs[e].sent[i].0 == Item(e, i, Payloads(events, e)[i]);
  }

  /** And the messages of the reads are those handed out, held, lost at the close and stranded. */
  lemma BroughtPlaces(events: seq<Event>, e: nat)
    requires e < |Run(events).logs|
    ensures var s := Run(events);
            Brought(events, e) == s.logs[e].handed + InboxOf(s, e) + s.logs[e].lost + s.logs[e].stranded
  {
    RecordsAreHistory(events, e);
    InboundConservation(events, e);
  }
}
