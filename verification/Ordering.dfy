/** The order in which payloads reach the peer of a connection. A direct `Send` does not wait for what
    is pending, so this is not always the order in which they were sent. */
module Ordering {
  import opened Common
  import opened Connection
  import opened Broker

  // ---------------------------------------------------------------- one connection

  function Items(written: seq<Output>): (r: seq<Item>)
    ensures |r| == |written| && forall k :: 0 <= k < |r| ==> r[k] == written[k].item
  {
    seq(|written|, k requires 0 <= k < |written| => written[k].item)
  }

  /** A request on the context finds an open session. */
  predicate Reaches(ctx: Context, open: bool) {
    IsOpen(ctx, open) && !ctx.seenNone
  }

  /** How many pending payloads a `Receive` gets written. */
  function FlushCount(c: Cell, open: bool, oks: seq<bool>): (k: nat)
    ensures k <= |QueueOf(c)|
  {
    if Reaches(c.ctx, open) then Successes(QueueOf(c), oks) else 0
  }

  /** How a `Send` changes the written and the pending payloads. */
  lemma SendMoves(c: Cell, data: string, open: bool, ok: bool)
    ensures var t, item := SendOn(c, data, open, ok).0, NewItem(c, data);
            && t.log.written == (if Reaches(c.ctx, open) && ok then c.log.written + [Direct(item)] else c.log.written)
            && QueueOf(t) == (if Reaches(c.ctx, open) then QueueOf(c) else QueueOf(c) + [item])
            && t.log.dropped == c.log.dropped
  {
    var m := WithSession(c);
    assert m.log.written == c.log.written && m.log.sent == c.log.sent && m.log.dropped == c.log.dropped;
    assert m.queue == c.queue && m.ctx.epoch == c.ctx.epoch;
    assert IsOpen(m.ctx, open) <==> Reaches(c.ctx, open);
  }

  lemma FlushMoves(c: Cell, open: bool, oks: seq<bool>)
    ensures var t, k := FlushPending(c, open, oks), FlushCount(c, open, oks);
            && t.log.written == c.log.written + Flushes(QueueOf(c)[..k])
            && QueueOf(t) == QueueOf(c)[k..] && t.log.dropped == c.log.dropped
  {
    if QueueOf(c) == [] {
      assert c.log.written + Flushes(QueueOf(c)[..0]) == c.log.written;
    } else {
      var m := WithSession(c);
      assert m.log.written == c.log.written && m.log.dropped == c.log.dropped && m.queue == c.queue;
      assert IsOpen(m.ctx, open) <==> Reaches(c.ctx, open);
    }
  }

  /** A `Receive` moves that many payloads from the pending to the written ones. */
  lemma ReceiveMoves(c: Cell, open: bool, oks: seq<bool>)
    ensures var t, k := ReceiveOn(c, open, oks).0, FlushCount(c, open, oks);
            && t.log.written == c.log.written + Flushes(QueueOf(c)[..k])
            && QueueOf(t) == QueueOf(c)[k..] && t.log.dropped == c.log.dropped
  {
    FlushMoves(c, open, oks);
    var f := FlushPending(c, open, oks);
    var m := WithSession(f);
    assert m.log.written == f.log.written && m.log.dropped == f.log.dropped && m.queue == f.queue;
    var t := Take(m);
    assert t.log.written == m.log.written && t.log.dropped == m.log.dropped && t.queue == m.queue;
  }

  lemma OthersMoveNothing(c: Cell, ev: Event)
    requires !ev.Sending? && !ev.Receiving?
    ensures var t := Step(c, ev);
            t.log.written == c.log.written && QueueOf(t) == QueueOf(c) && t.log.dropped == c.log.dropped
  {
  }

  /** What the peer has received, followed by what it will receive if all goes well. */
  function LineOf(c: Cell): seq<Item> {
    Items(c.log.written) + QueueOf(c)
  }

  /** A `Send` that writes at once while earlier payloads are still pending. */
  predicate OvertakenBy(c: Cell, ev: Event) {
    ev.Sending? && Reaches(c.ctx, ev.open) && ev.ok && QueueOf(c) != []
  }

  lemma PartsBelow(a: seq<Item>, b: seq<Item>, c: seq<Item>, bound: nat)
    requires forall k :: 0 <= k < |a + b + c| ==> (a + b + c)[k].serial < bound
    ensures forall k :: 0 <= k < |a| ==> a[k].serial < bound
    ensures forall k :: 0 <= k < |b| ==> b[k].serial < bound
  {
    var all := a + b + c;
    assert forall k :: 0 <= k < |a| ==> a[k] == all[k];
    assert forall k :: 0 <= k < |b| ==> b[k] == all[|a| + k];
  }

  /** The next payload is newer than all of them. */
  lemma LineBelow(c: Cell)
    requires Good(c)
    ensures forall k :: 0 <= k < |c.log.written| ==> c.log.written[k].item.serial < |c.log.sent|
    ensures forall k :: 0 <= k < |QueueOf(c)| ==> QueueOf(c)[k].serial < |c.log.sent|
    ensures InOrder(QueueOf(c))
  {
    var log := c.log;
    PickInOrder(log.sent, WrittenAtOnce);
    PickInOrder(log.sent, Queued);
    PartsBelow(FlushedItems(log.written), QueueOf(c), log.dropped, |log.sent|);
    MiddleInOrder(FlushedItems(log.written), QueueOf(c), log.dropped);
    forall k | 0 <= k < |log.written|
      ensures log.written[k].item.serial < |log.sent|
    {
      OutputIsCounted(log.written, k);
    }
  }

  lemma MiddleInOrder(a: seq<Item>, b: seq<Item>, c: seq<Item>)
    requires InOrder(a + b + c)
    ensures InOrder(b)
  {
    assert forall k :: 0 <= k < |b| ==> b[k] == (a + b + c)[|a| + k];
  }

  lemma Inserted(a: seq<Item>, x: Item, b: seq<Item>)
    requires forall k :: 0 <= k < |a| ==> a[k].serial < x.serial
    requires forall k :: 0 <= k < |b| ==> b[k].serial < x.serial
    ensures InOrder(a + [x] + b) <==> InOrder(a + b) && b == []
  {
    var all := a + [x] + b;
    if b == [] {
      assert all == a + [x] && a + b == a;
      if InOrder(all) {
        assert forall k :: 0 <= k < |a| ==> all[k] == a[k];
      }
    } else {
      assert all[|a|] == x && all[|a| + 1] == b[0];
    }
  }

  lemma Appended(a: seq<Item>, x: Item)
    requires forall k :: 0 <= k < |a| ==> a[k].serial < x.serial
    ensures InOrder(a + [x]) <==> InOrder(a)
  {
    Inserted(a, x, []);
    assert a + [x] + [] == a + [x] && a + [] == a;
  }

  /** A `Send`: the order of the line survives exactly when it does not overtake; what was written stays
      in order. */
  lemma SendOrder(c: Cell, data: string, open: bool, ok: bool, ep: Endpoint)
    requires Good(c)
    ensures var t := SendOn(c, data, open, ok).0;
            && (InOrder(LineOf(t)) <==> InOrder(LineOf(c)) && !OvertakenBy(c, Sending(ep, data, open, ok)))
            && (InOrder(Items(t.log.written)) <==> InOrder(Items(c.log.written)))
  {
    LineBelow(c);
    SendMoves(c, data, open, ok);
    DirectOrder(c.log.written, QueueOf(c), NewItem(c, data));
    QueuedOrder(c.log.written, QueueOf(c), NewItem(c, data));
  }

  ghost predicate Newest(written: seq<Output>, queue: seq<Item>, item: Item) {
    && (forall k :: 0 <= k < |written| ==> written[k].item.serial < item.serial)
    && (forall k :: 0 <= k < |queue| ==> queue[k].serial < item.serial)
  }

  lemma DirectOrder(written: seq<Output>, queue: seq<Item>, item: Item)
    requires Newest(written, queue, item)
    ensures InOrder(Items(written + [Direct(item)]) + queue) <==> InOrder(Items(written) + queue) && queue == []
    ensures InOrder(Items(written + [Direct(item)])) <==> InOrder(Items(written))
  {
    assert Items(written + [Direct(item)]) == Items(written) + [item];
    Inserted(Items(written), item, queue);
    Appended(Items(written), item);
  }

  lemma QueuedOrder(written: seq<Output>, queue: seq<Item>, item: Item)
    requires Newest(written, queue, item)
    ensures InOrder(Items(written) + (queue + [item])) <==> InOrder(Items(written) + queue)
  {
    Appended(Items(written) + queue, item);
    assert Items(written) + (queue + [item]) == Items(written) + queue + [item];
  }

  /** A `Receive` leaves the line as it is; what was written stays in order exactly when nothing is
      flushed or nothing pending has been overtaken. */
  lemma ReceiveOrder(c: Cell, open: bool, oks: seq<bool>)
    requires Good(c)
    ensures var t := ReceiveOn(c, open, oks).0;
            && LineOf(t) == LineOf(c)
            && (InOrder(Items(t.log.written))
                <==> InOrder(Items(c.log.written)) && (FlushCount(c, open, oks) == 0 || InOrder(LineOf(c))))
  {
    LineBelow(c);
    ReceiveMoves(c, open, oks);
    MovedOrder(c.log.written, QueueOf(c), FlushCount(c, open, oks));
  }

  lemma MovedOrder(written: seq<Output>, queue: seq<Item>, k: nat)
    requires InOrder(queue) && k <= |queue|
    ensures Items(written + Flushes(queue[..k])) + queue[k..] == Items(written) + queue
    ensures InOrder(Items(written + Flushes(queue[..k])))
            <==> InOrder(Items(written)) && (k == 0 || InOrder(Items(written) + queue))
  {
    assert Items(written + Flushes(queue[..k])) == Items(written) + queue[..k];
    assert Items(written) + queue[..k] + queue[k..] == Items(written) + queue;
    FlushedOrder(Items(written), queue, k);
  }

  /** The first of the pending payloads is the one that a newer written one has overtaken, if any. */
  lemma FlushedOrder(written: seq<Item>, queue: seq<Item>, k: nat)
    requires InOrder(queue) && k <= |queue|
    ensures InOrder(written + queue[..k]) <==> InOrder(written) && (k == 0 || InOrder(written + queue))
  {
    var part, all := written + queue[..k], written + queue;
    assert forall i :: 0 <= i < |part| ==> part[i] == all[i];
    if InOrder(part) {
      assert forall i :: 0 <= i < |written| ==> written[i] == part[i];
      if k > 0 {
        assert part[|written|] == queue[0];
        AllInOrder(written, queue);
      }
    } else {
      assert k == 0 ==> part == written;
    }
  }

  lemma AllInOrder(written: seq<Item>, queue: seq<Item>)
    requires InOrder(queue) && queue != [] && InOrder(written)
    requires forall i :: 0 <= i < |written| ==> written[i].serial < queue[0].serial
    ensures InOrder(written + queue)
  {
    var all := written + queue;
    forall i, j | 0 <= i < j < |all|
      ensures all[i].serial < all[j].serial
    {
      if i < |written| <= j {
        assert queue[0].serial <= queue[j - |written|].serial;
      }
    }
  }

  // ---------------------------------------------------------------- all runs

  /** What the peer of epoch `e` has received, followed by what it will receive if all goes well, or,
      after the close, by what it would have received. */
  function Line(s: State, e: nat): seq<Item>
    requires e < |s.logs|
  {
    Items(s.logs[e].written) + PendingOf(s, e) + s.logs[e].dropped
  }

  lemma LiveLine(s: State, e: nat)
    requires Inv(s) && e < |s.logs| && Live(s, e)
    ensures Known(s, s.logs[e].endpoint) && Line(s, e) == LineOf(CellAt(s, s.logs[e].endpoint))
  {
    assert EpochOk(s, e);
    assert ContextOk(s, s.logs[e].endpoint);
    var a := Items(s.logs[e].written) + PendingOf(s, e);
    assert a + [] == a;
  }

  predicate Overtakes(s: State, ev: Event, e: nat)
    requires e < |s.logs|
  {
    Live(s, e) && ev.ep == s.logs[e].endpoint && OvertakenBy(CellAt(s, ev.ep), ev)
  }

  /** Closing moves what is pending to what was dropped. */
  lemma CloseOrder(s: State, ev: Event, e: nat)
    requires Inv(s) && e < |s.logs| && Live(s, e) && ev.ep == s.logs[e].endpoint && Ends(ev)
    ensures e < |Apply(s, ev).logs| && Line(Apply(s, ev), e) == Line(s, e)
    ensures Apply(s, ev).logs[e].written == s.logs[e].written
  {
    LiveThrough(s, ev, e);
    assert EpochOk(s, e);
    var t := Apply(s, ev);
    var a, p, d := Items(s.logs[e].written), PendingOf(s, e), t.logs[e].dropped;
    assert t.logs[e].written == s.logs[e].written && d == p && PendingOf(t, e) == [];
    assert a + [] + d == a + p + [];
  }

  /** The line of an epoch stays in send order through an event exactly when the event is not an
      overtaking `Send`. */
  lemma OrderKeptUnlessOvertaken(s: State, ev: Event, e: nat)
    requires Inv(s) && e < |s.logs|
    ensures e < |Apply(s, ev).logs|
    ensures InOrder(Line(Apply(s, ev), e)) <==> InOrder(Line(s, e)) && !Overtakes(s, ev, e)
  {
    if !Live(s, e) {
      DeadThrough(s, ev, e);
    } else if ev.ep == s.logs[e].endpoint && Ends(ev) {
      CloseOrder(s, ev, e);
    } else {
      LiveThrough(s, ev, e);
      LiveLine(s, e);
      ApplyKeepsInv(s, ev);
      LiveLine(Apply(s, ev), e);
      if ev.ep == s.logs[e].endpoint {
        LineStep(CellAt(s, ev.ep), ev);
      }
    }
  }

  lemma LineStep(c: Cell, ev: Event)
    requires Good(c)
    ensures InOrder(LineOf(Step(c, ev))) <==> InOrder(LineOf(c)) && !OvertakenBy(c, ev)
  {
    match ev
    case Sending(ep, data, open, ok) => SendOrder(c, data, open, ok, ep);
    case Receiving(_, open, oks) => ReceiveOrder(c, open, oks);
    case _ => OthersMoveNothing(c, ev);
  }

  /** No `Send` of the run overtook pending payloads of epoch `e`. */
  ghost predicate NeverOvertaken(events: seq<Event>, e: nat) {
    events == [] ||
    (var before := events[..|events| - 1];
     NeverOvertaken(before, e)
     && (e < |Run(before).logs| ==> !Overtakes(Run(before), events[|events| - 1], e)))
  }

  /** In every run, every connection delivers in send order, counting what it still has to deliver or
      dropped at its close, exactly when no `Send` wrote successfully while an older payload was
      waiting. */
  lemma {:induction false} FifoIffNeverOvertaken(events: seq<Event>, e: nat)
    requires e < |Run(events).logs|
    ensures InOrder(Line(Run(events), e)) <==> NeverOvertaken(events, e)
  {
    var before, ev := events[..|events| - 1], events[|events| - 1];
    var s := Run(before);
    if e >= |s.logs| {
      FreshEpoch(s, ev, e);
      assert Line(Run(events), e) == [];
      NothingOvertaken(before, e);
    } else {
      FifoIffNeverOvertaken(before, e);
      OrderKeptUnlessOvertaken(s, ev, e);
    }
  }

  lemma {:induction false} NothingOvertaken(events: seq<Event>, e: nat)
    requires e >= |Run(events).logs|
    ensures NeverOvertaken(events, e) && NeverDeliversLate(events, e)
  {
    if events != [] {
      EndpointIsolation(Run(events[..|events| - 1]), events[|events| - 1]);
      NothingOvertaken(events[..|events| - 1], e);
    }
  }

  /** A `Receive` that gets a pending payload of epoch `e` written. */
  predicate Delivers(s: State, ev: Event, e: nat)
    requires e < |s.logs|
  {
    && ev.Receiving? && Live(s, e) && ev.ep == s.logs[e].endpoint
    && FlushCount(CellAt(s, ev.ep), ev.open, ev.oks) > 0
  }

  /** No `Receive` of the run got a payload of epoch `e` written after one had been overtaken. */
  ghost predicate NeverDeliversLate(events: seq<Event>, e: nat) {
    events == [] ||
    (var before := events[..|events| - 1];
     NeverDeliversLate(before, e)
     && (e < |Run(before).logs| && Delivers(Run(before), events[|events| - 1], e) ==> NeverOvertaken(before, e)))
  }

  /** In every run, what the peer of a connection has received is in send order exactly when no
      `Receive` got a pending payload written after one had been overtaken: one that is dropped at the
      close does no harm. */
  lemma {:induction false} PeerOrderIff(events: seq<Event>, e: nat)
    requires e < |Run(events).logs|
    ensures InOrder(Items(Run(events).logs[e].written)) <==> NeverDeliversLate(events, e)
  {
    var before, ev := events[..|events| - 1], events[|events| - 1];
    var s := Run(before);
    if e >= |s.logs| {
      FreshEpoch(s, ev, e);
      NothingOvertaken(before, e);
    } else {
      PeerOrderIff(before, e);
      FifoIffNeverOvertaken(before, e);
      PeerOrderStep(s, ev, e);
    }
  }

  lemma PeerOrderStep(s: State, ev: Event, e: nat)
    requires Inv(s) && e < |s.logs|
    ensures e < |Apply(s, ev).logs|
    ensures InOrder(Items(Apply(s, ev).logs[e].written))
            <==> InOrder(Items(s.logs[e].written)) && (Delivers(s, ev, e) ==> InOrder(Line(s, e)))
  {
    if !Live(s, e) {
      DeadThrough(s, ev, e);
    } else if ev.ep == s.logs[e].endpoint && Ends(ev) {
      CloseOrder(s, ev, e);
    } else {
      LiveThrough(s, ev, e);
      LiveLine(s, e);
      if ev.ep == s.logs[e].endpoint {
        WrittenStep(CellAt(s, ev.ep), ev);
      }
    }
  }

  lemma WrittenStep(c: Cell, ev: Event)
    requires Good(c)
    ensures InOrder(Items(Step(c, ev).log.written))
            <==> && InOrder(Items(c.log.written))
                 && (ev.Receiving? && FlushCount(c, ev.open, ev.oks) > 0 ==> InOrder(LineOf(c)))
  {
    match ev
    case Sending(ep, data, open, ok) =>
      SendWrites(c, data, open, ok, ep, Step(c, ev));
    case Receiving(_, open, oks) =>
      ReceiveWrites(c, open, oks, Step(c, ev));
    case _ => OthersMoveNothing(c, ev);
  }

  lemma SendWrites(c: Cell, data: string, open: bool, ok: bool, ep: Endpoint, t: Cell)
    requires Good(c) && t == SendOn(c, data, open, ok).0
    ensures InOrder(Items(t.log.written)) <==> InOrder(Items(c.log.written))
  {
    SendOrder(c, data, open, ok, ep);
  }

  lemma ReceiveWrites(c: Cell, open: bool, oks: seq<bool>, t: Cell)
    requires Good(c) && t == ReceiveOn(c, open, oks).0
    ensures InOrder(Items(t.log.written))
            <==> InOrder(Items(c.log.written)) && (FlushCount(c, open, oks) > 0 ==> InOrder(LineOf(c)))
  {
    ReceiveOrder(c, open, oks);
  }

  // ---------------------------------------------------------------- it happens

  /** The order is not kept in general: here the second payload overtakes the first. */
  lemma OvertakingHappens(ep: Endpoint) returns (events: seq<Event>)
    ensures |Run(events).logs| == 1 && Live(Run(events), 0)
    ensures Line(Run(events), 0) == [Item(0, 1, "second"), Item(0, 0, "first")]
  {
    var a := [] + [Opening(ep)];
    RunAppend([], Opening(ep));
    var b := a + [Sending(ep, "first", false, false)];
    RunAppend(a, Sending(ep, "first", false, false));
    var c := b + [Resolving(ep, Connected)];
    RunAppend(b, Resolving(ep, Connected));
    events := c + [Sending(ep, "second", true, true)];
    RunAppend(c, Sending(ep, "second", true, true));
    FreshEpoch(Run([]), Opening(ep), 0);
    LiveThrough(Run(a), Sending(ep, "first", false, false), 0);
    LiveThrough(Run(b), Resolving(ep, Connected), 0);
    LiveThrough(Run(c), Sending(ep, "second", true, true), 0);
    LiveLine(Run(events), 0);
    OvertakingCell(ep);
  }

  lemma OvertakingCell(ep: Endpoint)
    ensures var c := Cell(NewContext(0), None, NewLog(ep));
            var d := Step(Step(c, Sending(ep, "first", false, false)), Resolving(ep, Connected));
            LineOf(Step(d, Sending(ep, "second", true, true))) == [Item(0, 1, "second"), Item(0, 0, "first")]
  {
    var c := Cell(NewContext(0), None, NewLog(ep));
    var a := Step(c, Sending(ep, "first", false, false));
    SendMoves(c, "first", false, false);
    assert QueueOf(a) == [Item(0, 0, "first")] && a.log.written == [] && a.ctx == NewContext(0).(session := Dummy);
    assert a.log.sent == [] + [(Item(0, 0, "first"), Queued)];
    var d := Step(a, Resolving(ep, Connected));
    assert d.ctx == Context(0, Real, false, true, [], false, false);
    SendMoves(d, "second", true, true);
    assert Items([] + [Direct(Item(0, 1, "second"))]) == [Item(0, 1, "second")];
  }
}
