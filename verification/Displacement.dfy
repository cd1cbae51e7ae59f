/** A session that is assigned while a request is between the test and the assignment of `GetSession`
    is displaced by a dummy: when this happens, and what it means for the messages. */
module Displacement {
  import opened Common
  import opened Connection
  import opened Broker

  // ---------------------------------------------------------------- one connection

  /** The request had seen no session, but by now there is one: it is replaced. */
  predicate DisplacedBy(c: Cell, ev: Event) {
    (ev.Sending? || ev.Receiving?) && c.ctx.seenNone && c.ctx.session.Real?
  }

  /** What an event does to the session and to the flag of the record. */
  lemma SessionStep(c: Cell, ev: Event)
    ensures var t := Step(c, ev);
            && t.log.displaced == (c.log.displaced || DisplacedBy(c, ev))
            && (t.ctx.session.Real? <==>
                  (c.ctx.session.Real? && !DisplacedBy(c, ev))
                  || (ev.Resolving? && ev.resolution.Connected? && c.ctx.resolving))
            && (DisplacedBy(c, ev) ==> t.ctx.session.Dummy? && t.ctx.inbox == [])
            && (ev.Sending? || ev.Receiving? ==> !t.ctx.seenNone)
  {
    match ev
    case Sending(_, data, open, ok) => SendSession(c, data, open, ok);
    case Receiving(_, open, oks) => ReceiveSession(c, open, oks);
    case _ =>
  }

  lemma SendSession(c: Cell, data: string, open: bool, ok: bool)
    ensures var t, m := SendOn(c, data, open, ok).0, WithSession(c);
            && t.log.displaced == m.log.displaced
            && t.ctx == if IsOpen(m.ctx, open) then m.ctx.(inbox := RestOf(m.ctx.inbox)) else m.ctx
  {
    PostedSame(WithSession(c), data, open, ok);
  }

  lemma ReceiveSession(c: Cell, open: bool, oks: seq<bool>)
    ensures var t, m := ReceiveOn(c, open, oks).0, WithSession(c);
            t.log.displaced == m.log.displaced && t.ctx == m.ctx.(inbox := RestOf(m.ctx.inbox))
  {
    var f, m := FlushPending(c, open, oks), WithSession(c);
    assert QueueOf(c) != [] ==> f.ctx == m.ctx && f.log.displaced == m.log.displaced;
    assert QueueOf(c) == [] ==> f.ctx == c.ctx && f.log.displaced == c.log.displaced;
    assert WithSession(f).ctx == m.ctx && WithSession(f).log.displaced == m.log.displaced;
  }

  /** While the session stays, its queue loses its front at most. */
  lemma InboxStep(c: Cell, ev: Event)
    requires Good(c) && c.ctx.session.Real? && !DisplacedBy(c, ev)
    ensures var a, b := c.ctx.inbox, Step(c, ev).ctx.inbox; RestOf(a) <= b || a <= b
  {
    match ev
    case Receiving(_, open, oks) => ReceiveSession(c, open, oks);
    case _ =>
  }

  // ---------------------------------------------------------------- all runs

  predicate Displaces(s: State, ev: Event, e: nat)
    requires e < |s.logs|
  {
    Live(s, e) && ev.ep == s.logs[e].endpoint && DisplacedBy(CellAt(s, ev.ep), ev)
  }

  /** A real session is replaced while its context lives, by a dummy, exactly in that case. Otherwise
      it stays, and no message queued in it disappears other than by being handed out. */
  lemma RealSessionStaysIff(s: State, ev: Event, e: nat)
    requires Inv(s) && e < |s.logs| && Live(s, e)
    requires s.contexts[s.logs[e].endpoint].session.Real?
    requires !(Ends(ev) && ev.ep == s.logs[e].endpoint)
    ensures var t, ep := Apply(s, ev), s.logs[e].endpoint;
            && e < |t.logs| && t.logs[e].endpoint == ep && Live(t, e)
            && var before, after := s.contexts[ep], t.contexts[ep];
               if Displaces(s, ev, e) then after.session.Dummy? && after.inbox == []
               else after.session.Real? && (RestOf(before.inbox) <= after.inbox || before.inbox <= after.inbox)
  {
    LiveThrough(s, ev, e);
    var c := CellAt(s, s.logs[e].endpoint);
    if ev.ep == s.logs[e].endpoint {
      SessionStep(c, ev);
      if !DisplacedBy(c, ev) {
        InboxStep(c, ev);
      }
    }
  }

  /** Between the test and the assignment of `GetSession`: nothing, a test that saw no session, or
      after such a test a resolve that connected. */
  datatype Window = Shut | Open | Crossed

  /** The window after an event of the connection, from what the event finds there. */
  function NextWindow(window: Window, c: Cell, ev: Event): Window {
    match ev
    case Checking(_) => if c.ctx.session.NoSession? then Open else window
    case Sending(_, _, _, _) => Shut
    case Receiving(_, _, _) => Shut
    case Resolving(_, r) => if window.Open? && r.Connected? && c.ctx.resolving then Crossed else window
    case _ => window
  }

  function WindowOf(events: seq<Event>, e: nat): Window {
    if events == [] then Shut else
    var before, ev := events[..|events| - 1], events[|events| - 1];
    var s, window := Run(before), WindowOf(before, e);
    if e < |s.logs| && Live(s, e) && ev.ep == s.logs[e].endpoint
    then NextWindow(window, CellAt(s, ev.ep), ev) else window
  }

  /** No request of epoch `e` assigned a dummy after a resolve had connected behind its back. */
  ghost predicate NeverDisplaced(events: seq<Event>, e: nat) {
    events == [] ||
    (var before, ev := events[..|events| - 1], events[|events| - 1];
     NeverDisplaced(before, e)
     && !(&& e < |Run(before).logs| && Live(Run(before), e) && ev.ep == Run(before).logs[e].endpoint
          && (ev.Sending? || ev.Receiving?) && WindowOf(before, e).Crossed?))
  }

  /** What a connection remembers of the window. */
  ghost predicate Remembers(c: Cell, window: Window) {
    && (c.ctx.seenNone <==> !window.Shut?)
    && (c.ctx.seenNone ==> (c.ctx.session.Real? <==> window.Crossed?))
  }

  lemma WindowStep(c: Cell, ev: Event, window: Window)
    requires Good(c) && Remembers(c, window)
    ensures Remembers(Step(c, ev), NextWindow(window, c, ev))
  {
    SessionStep(c, ev);
  }

  lemma {:induction false} WindowIsKept(events: seq<Event>, e: nat)
    requires e < |Run(events).logs| && Live(Run(events), e)
    ensures Known(Run(events), Run(events).logs[e].endpoint)
    ensures Remembers(CellAt(Run(events), Run(events).logs[e].endpoint), WindowOf(events, e))
  {
    var before, ev := events[..|events| - 1], events[|events| - 1];
    var s := Run(before);
    if e >= |s.logs| {
      FreshEpoch(s, ev, e);
      NoWindow(before, e);
    } else if !Live(s, e) {
      DeadThrough(s, ev, e);
    } else {
      WindowIsKept(before, e);
      LiveThrough(s, ev, e);
      if ev.ep == s.logs[e].endpoint {
        WindowStep(CellAt(s, ev.ep), ev, WindowOf(before, e));
      }
    }
  }

  lemma {:induction false} NoWindow(events: seq<Event>, e: nat)
    requires e >= |Run(events).logs|
    ensures WindowOf(events, e).Shut? && NeverDisplaced(events, e) && !HasConnected(events, e)
  {
    if events != [] {
      EndpointIsolation(Run(events[..|events| - 1]), events[|events| - 1]);
      NoWindow(events[..|events| - 1], e);
    }
  }

  /** In every run a session was displaced exactly when a resolve connected between the test and the
      assignment of some request. */
  lemma {:induction false} DisplacedIff(events: seq<Event>, e: nat)
    requires e < |Run(events).logs|
    ensures Run(events).logs[e].displaced <==> !NeverDisplaced(events, e)
  {
    var before, ev := events[..|events| - 1], events[|events| - 1];
    var s := Run(before);
    if e >= |s.logs| {
      FreshEpoch(s, ev, e);
      NoWindow(before, e);
    } else {
      DisplacedIff(before, e);
      DisplacedStep(s, ev, e);
      if Live(s, e) {
        WindowIsKept(before, e);
      }
    }
  }

  lemma DisplacedStep(s: State, ev: Event, e: nat)
    requires Inv(s) && e < |s.logs|
    ensures e < |Apply(s, ev).logs|
    ensures Apply(s, ev).logs[e].displaced <==> s.logs[e].displaced || Displaces(s, ev, e)
  {
    if !Live(s, e) {
      DeadThrough(s, ev, e);
    } else {
      LiveThrough(s, ev, e);
      if ev.ep == s.logs[e].endpoint {
        SessionStep(CellAt(s, ev.ep), ev);
      }
    }
  }

  /** In every run the arrived messages are those handed out, held and lost, and none else, exactly
      when no session was displaced or nothing arrived. In the other case nothing is ever handed out
      or written. */
  lemma NothingStrandedIff(events: seq<Event>, e: nat)
    requires e < |Run(events).logs|
    ensures var s := Run(events);
            var log := s.logs[e];
            && (log.arrived == log.handed + InboxOf(s, e) + log.lost
                <==> NeverDisplaced(events, e) || log.arrived == [])
            && (!NeverDisplaced(events, e) ==>
                  log.arrived == log.stranded && log.handed == [] && log.written == [])
  {
    DisplacedIff(events, e);
    assert EpochOk(Run(events), e);
    Stranded(Run(events).logs[e], e, PendingOf(Run(events), e), InboxOf(Run(events), e), Live(Run(events), e));
  }

  lemma Stranded(log: EpochLog, e: nat, pending: seq<Item>, inbox: seq<string>, live: bool)
    requires Balanced(log, e, pending, inbox, live)
    ensures log.arrived == log.handed + inbox + log.lost <==> !log.displaced || log.arrived == []
    ensures log.displaced ==> log.arrived == log.stranded && Unused(log)
  {
    var kept := log.handed + inbox + log.lost;
    assert kept + log.stranded == log.arrived;
    if log.displaced {
      assert kept == [] && [] + log.stranded == log.stranded;
    } else {
      assert kept + [] == kept;
    }
  }

  /** A resolve of epoch `e` has connected. */
  ghost predicate HasConnected(events: seq<Event>, e: nat) {
    events != [] &&
    (var before, ev := events[..|events| - 1], events[|events| - 1];
     || HasConnected(before, e)
     || (&& e < |Run(before).logs| && Live(Run(before), e) && ev.ep == Run(before).logs[e].endpoint
         && ev.Resolving? && ev.resolution.Connected? && Run(before).contexts[ev.ep].resolving))
  }

  /** In every run a live epoch whose resolve has connected has its real session exactly when no dummy
      was assigned behind its back. */
  lemma {:induction false} RealSessionKeptIff(events: seq<Event>, e: nat)
    requires e < |Run(events).logs| && Live(Run(events), e)
    ensures var s := Run(events);
            var isReal := s.contexts[s.logs[e].endpoint].session.Real?;
            && (HasConnected(events, e) <==> isReal || s.logs[e].displaced)
            && (HasConnected(events, e) ==> (isReal <==> NeverDisplaced(events, e)))
  {
    var before, ev, t := events[..|events| - 1], events[|events| - 1], Run(events);
    var s := Run(before);
    DisplacedIff(events, e);
    assert ContextOk(t, t.logs[e].endpoint);
    if e >= |s.logs| {
      FreshEpoch(s, ev, e);
      NoWindow(before, e);
    } else if !Live(s, e) {
      DeadThrough(s, ev, e);
    } else {
      RealSessionKeptIff(before, e);
      LiveThrough(s, ev, e);
      if ev.ep == s.logs[e].endpoint {
        SessionStep(CellAt(s, ev.ep), ev);
      }
    }
  }

  /** It happens: a request sees no session, the resolve connects, the request assigns its dummy; what
      then arrives reaches nobody and what is sent stays pending. */
  lemma DisplacingHappens(ep: Endpoint) returns (events: seq<Event>)
    ensures var s := Run(events);
            && |s.logs| == 1 && s.logs[0].endpoint == ep && Live(s, 0) && s.logs[0].displaced
            && s.logs[0].arrived == ["message"] == s.logs[0].stranded && s.logs[0].handed == []
            && s.contexts[ep].session.Dummy? && PendingOf(s, 0) == [Item(0, 0, "payload")]
  {
    var check, connect := Checking(ep), Resolving(ep, Connected);
    var send, read := Sending(ep, "payload", true, true), Reading(ep, Data("message"));
    var a := [] + [Opening(ep)];
    RunAppend([], Opening(ep));
    RunAppend(a, check);
    RunAppend(a + [check], connect);
    RunAppend(a + [check] + [connect], send);
    events := a + [check] + [connect] + [send] + [read];
    RunAppend(a + [check] + [connect] + [send], read);
    FreshEpoch(Run([]), Opening(ep), 0);
    LiveThrough(Run(a), check, 0);
    LiveThrough(Run(a + [check]), connect, 0);
    LiveThrough(Run(a + [check] + [connect]), send, 0);
    LiveThrough(Run(a + [check] + [connect] + [send]), read, 0);
    DisplacingCell(ep);
  }

  lemma DisplacingCell(ep: Endpoint)
    ensures var c := Cell(NewContext(0), None, NewLog(ep));
            var d := Step(Step(c, Checking(ep)), Resolving(ep, Connected));
            var f := Step(Step(d, Sending(ep, "payload", true, true)), Reading(ep, Data("message")));
            && f.log.displaced && f.log.arrived == ["message"] == f.log.stranded && f.log.handed == []
            && f.ctx.session.Dummy? && QueueOf(f) == [Item(0, 0, "payload")]
  {
    var c := Cell(NewContext(0), None, NewLog(ep));
    var d := Step(Step(c, Checking(ep)), Resolving(ep, Connected));
    assert d == Cell(Context(0, Real, false, true, [], true, false), None, NewLog(ep));
    var t := Step(d, Sending(ep, "payload", true, true));
    assert t.ctx == Context(0, Dummy, false, false, [], false, true);
    assert QueueOf(t) == [] + [Item(0, 0, "payload")] && t.log.arrived == [] && t.log.stranded == [];
    assert [] + ["message"] == ["message"];
  }
}
