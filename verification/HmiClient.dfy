/** The HMI adapter client: a connection flag, a listener thread that polls for messages, and the
    Qt signals it emits. Calls are atomic; the answer of the server is a parameter. */
module HmiClient {
  import opened Common
  import opened Text

  datatype Signal =
    | Connected
    | Disconnected
    | BytesWritten(n: nat)
    | TextMessageReceived(text: string)

  datatype Call = OpenCall | SendCall | ReceiveCall

  /** `connected` and `listener` are the fields; the rest records what happened: the signals, the
      remote calls, how often the flag was set, and how often the listener thread failed to start. */
  datatype Client = Client(
    connected: bool,
    listener: bool,
    signals: seq<Signal>,
    calls: seq<Call>,
    sessions: nat,
    failedStarts: nat)

  const NewClient := Client(false, false, [], [], 0, 0)

  function Emit(c: Client, s: Signal): Client {
    c.(signals := c.signals + [s])
  }

  /** `connect`, with the code the server answers and whether the thread starts. */
  function Connect(c: Client, code: int, starts: bool): Client {
    var called := c.(calls := c.calls + [OpenCall]);
    if code != SUCCESS then called
    else if c.connected || c.listener then Emit(called, Connected)
    else Emit(called, Connected).(connected := true, sessions := c.sessions + 1, listener := starts,
                                  failedStarts := c.failedStarts + if starts then 0 else 1)
  }

  function ConnectionLost(c: Client): Client {
    if c.connected then Emit(c, Disconnected).(connected := false) else c
  }

  function ShowMessage(c: Client, msg: string): Client {
    if msg != "" then Emit(c, TextMessageReceived(CString(msg))) else c
  }

  /** `send`, with the answer of the server to the call it makes when connected. */
  function Send(c: Client, data: string, r: Reply): (Client, int) {
    if !c.connected then (c, NO_CONNECTION) else
    var called := c.(calls := c.calls + [SendCall]);
    (if r.code == SUCCESS then ShowMessage(Emit(called, BytesWritten(|data|)), r.msg)
     else if r.code == NO_CONNECTION then ConnectionLost(called)
     else called,
     r.code)
  }

  /** `receive`, likewise. */
  function Receive(c: Client, r: Reply): (Client, Reply) {
    if !c.connected then (c, Reply("", NO_CONNECTION)) else
    var called := c.(calls := c.calls + [ReceiveCall]);
    (if r.code == SUCCESS then ShowMessage(called, r.msg)
     else if r.code == NO_CONNECTION then ConnectionLost(called)
     else called,
     r)
  }

  datatype Event =
    | Connecting(code: int, starts: bool)
    | Sending(data: string, reply: Reply)
    | Receiving(reply: Reply)

  function Apply(c: Client, ev: Event): Client {
    match ev
    case Connecting(code, starts) => Connect(c, code, starts)
    case Sending(data, reply) => Send(c, data, reply).0
    case Receiving(reply) => Receive(c, reply).0
  }

  function Run(c: Client, events: seq<Event>): Client {
    if events == [] then c else Apply(Run(c, events[..|events| - 1]), events[|events| - 1])
  }

  // ---------------------------------------------------------------- one session

  function Losses(signals: seq<Signal>): nat {
    if signals == [] then 0
    else Losses(signals[..|signals| - 1]) + if signals[|signals| - 1].Disconnected? then 1 else 0
  }

  lemma EmitLosses(c: Client, s: Signal)
    ensures Losses(Emit(c, s).signals) == Losses(c.signals) + if s.Disconnected? then 1 else 0
  {
  }

  /** Every session that is not the current one was lost once, and only a failed start of the
      listener leaves room for another session. */
  ghost predicate Inv(c: Client) {
    && Losses(c.signals) + (if c.connected then 1 else 0) == c.sessions
    && c.sessions == c.failedStarts + if c.listener then 1 else 0
  }

  lemma ConnectKeepsInv(c: Client, code: int, starts: bool)
    requires Inv(c)
    ensures Inv(Connect(c, code, starts))
  {
  }

  lemma LossKeepsInv(c: Client)
    requires Inv(c)
    ensures Inv(ConnectionLost(c))
  {
  }

  lemma ShowKeepsInv(c: Client, msg: string)
    requires Inv(c)
    ensures Inv(ShowMessage(c, msg))
  {
  }

  lemma SendKeepsInv(c: Client, data: string, r: Reply)
    requires Inv(c)
    ensures Inv(Send(c, data, r).0)
  {
    var called := c.(calls := c.calls + [SendCall]);
    if r.code == SUCCESS {
      EmitLosses(called, BytesWritten(|data|));
      ShowKeepsInv(Emit(called, BytesWritten(|data|)), r.msg);
    } else {
      LossKeepsInv(called);
    }
  }

  lemma ApplyKeepsInv(c: Client, ev: Event)
    requires Inv(c)
    ensures Inv(Apply(c, ev))
  {
    match ev
    case Connecting(code, starts) =>
      ConnectKeepsInv(c, code, starts);
    case Sending(data, reply) =>
      SendKeepsInv(c, data, reply);
    case Receiving(reply) =>
      var called := c.(calls := c.calls + [ReceiveCall]);
      ShowKeepsInv(called, reply.msg);
      LossKeepsInv(called);
  }

  lemma {:induction false} RunKeepsInv(events: seq<Event>)
    ensures Inv(Run(NewClient, events))
  {
    if events != [] {
      RunKeepsInv(events[..|events| - 1]);
      ApplyKeepsInv(Run(NewClient, events[..|events| - 1]), events[|events| - 1]);
    }
  }

  /** In every run the flag was raised once for each failed start of the listener and once more if a
      listener runs, and `disconnected` was emitted once for each time it was raised, except for the
      session that is up. So when every listener starts, both happen at most once. */
  lemma AtMostOneSession(events: seq<Event>)
    ensures var c := Run(NewClient, events);
            && c.sessions == c.failedStarts + (if c.listener then 1 else 0)
            && Losses(c.signals) == c.sessions - (if c.connected then 1 else 0)
            && (c.failedStarts == 0 ==> Losses(c.signals) <= c.sessions <= 1)
  {
    RunKeepsInv(events);
  }

  /** A failed start is what it takes: the client can then connect and be disconnected again. */
  lemma FailedStartAllowsAnother()
    ensures var lost := Receiving(Reply("", NO_CONNECTION));
            var c := Run(NewClient, [Connecting(SUCCESS, false), lost, Connecting(SUCCESS, true), lost]);
            Losses(c.signals) == 2
  {
    var lost := Receiving(Reply("", NO_CONNECTION));
    var es := [Connecting(SUCCESS, false), lost, Connecting(SUCCESS, true), lost];
    var c1 := Apply(NewClient, es[0]);
    var c2 := Apply(c1, es[1]);
    var c3 := Apply(c2, es[2]);
    var c4 := Apply(c3, es[3]);
    assert es[..3][..2] == es[..2] && es[..2][..1] == es[..1] && es[..1][..0] == [];
    assert Run(NewClient, es[..1]) == c1;
    assert Run(NewClient, es[..2]) == c2;
    assert Run(NewClient, es[..3]) == c3;
    assert Run(NewClient, es) == c4;
    assert c4.sessions == 2 && !c4.connected;
    RunKeepsInv(es);
  }

  /** Signals and calls that carry data. */
  predicate IsConnectOnly(c: Client, d: Client) {
    && c.signals <= d.signals && (forall k :: |c.signals| <= k < |d.signals| ==> d.signals[k].Connected?)
    && c.calls <= d.calls && (forall k :: |c.calls| <= k < |d.calls| ==> d.calls[k].OpenCall?)
  }

  /** After the connection is lost nothing brings it back: whatever follows, including calls of
      `connect` that succeed, the flag stays down, no `send` or `receive` reaches the server, and no
      signal other than `connected` is emitted. */
  lemma {:induction false} LostIsFinal(c: Client, events: seq<Event>)
    requires !c.connected && c.listener
    ensures var d := Run(c, events);
            !d.connected && d.listener && IsConnectOnly(c, d)
  {
    if events != [] {
      LostIsFinal(c, events[..|events| - 1]);
    }
  }

  lemma {:induction false} RunConcat(c: Client, a: seq<Event>, b: seq<Event>)
    ensures Run(c, a + b) == Run(Run(c, a), b)
  {
    if b == [] {
      assert a + b == a;
    } else {
      assert (a + b)[..|a + b| - 1] == a + b[..|b| - 1];
      RunConcat(c, a, b[..|b| - 1]);
    }
  }

  lemma {:induction false} LossIsCounted(signals: seq<Signal>, k: nat)
    requires k < |signals| && signals[k].Disconnected?
    ensures Losses(signals) >= 1
  {
    if k < |signals| - 1 {
      LossIsCounted(signals[..|signals| - 1], k);
    }
  }

  /** Over whole runs: when no listener failed to start, nothing follows a `disconnected` but
      `connected`, and no call but those of `connect`, whatever the client is asked to do. */
  lemma NothingAfterDisconnected(events: seq<Event>, more: seq<Event>, k: nat)
    requires Run(NewClient, events).failedStarts == 0
    requires k < |Run(NewClient, events).signals| && Run(NewClient, events).signals[k].Disconnected?
    ensures var c, d := Run(NewClient, events), Run(NewClient, events + more);
            !d.connected && IsConnectOnly(c, d)
  {
    var c := Run(NewClient, events);
    RunKeepsInv(events);
    LossIsCounted(c.signals, k);
    RunConcat(NewClient, events, more);
    LostIsFinal(c, more);
  }

  // ---------------------------------------------------------------- the server's code decides

  /** What one event emits, calls and does to the flag, from the flag and the answer alone. */
  lemma EventTable(c: Client, ev: Event)
    ensures var d := Apply(c, ev);
            match ev
            case Connecting(code, starts) =>
              && d.calls == c.calls + [OpenCall]
              && d.signals == (if code == SUCCESS then c.signals + [Connected] else c.signals)
              && d.connected == (c.connected || (code == SUCCESS && !c.listener))
              && d.listener == (c.listener || (code == SUCCESS && !c.connected && starts))
            case Sending(data, r) =>
              && d.listener == c.listener && d.connected == (c.connected && r.code != NO_CONNECTION)
              && d.calls == (if c.connected then c.calls + [SendCall] else c.calls)
              && Send(c, data, r).1 == (if c.connected then r.code else NO_CONNECTION)
              && d.signals == c.signals +
                 if !c.connected then [] else if r.code == NO_CONNECTION then [Disconnected]
                 else if r.code != SUCCESS then []
                 else if r.msg == "" then [BytesWritten(|data|)]
                 else [BytesWritten(|data|), TextMessageReceived(CString(r.msg))]
            case Receiving(r) =>
              && d.listener == c.listener && d.connected == (c.connected && r.code != NO_CONNECTION)
              && d.calls == (if c.connected then c.calls + [ReceiveCall] else c.calls)
              && Receive(c, r).1 == (if c.connected then r else Reply("", NO_CONNECTION))
              && d.signals == c.signals +
                 if !c.connected then [] else if r.code == NO_CONNECTION then [Disconnected]
                 else if r.code != SUCCESS || r.msg == "" then [] else [TextMessageReceived(CString(r.msg))]
  {
  }

  /** An event raises the flag exactly when it is a `connect` that the server accepts and neither flag
      nor listener was up, and lowers it exactly when the flag was up and the answer is NO_CONNECTION
      to a call that is not `connect`. */
  lemma FlagChangesIff(c: Client, ev: Event)
    ensures var d := Apply(c, ev);
            && (!c.connected && d.connected <==>
                  !c.connected && !c.listener && ev.Connecting? && ev.code == SUCCESS)
            && (c.connected && !d.connected <==>
                  c.connected && !ev.Connecting? && ev.reply.code == NO_CONNECTION)
  {
    EventTable(c, ev);
  }

  function Count(signals: seq<Signal>, s: Signal): nat {
    if signals == [] then 0
    else Count(signals[..|signals| - 1], s) + if signals[|signals| - 1] == s then 1 else 0
  }

  predicate Accepted(ev: Event) {
    ev.Connecting? && ev.code == SUCCESS
  }

  function AcceptedCount(events: seq<Event>): nat {
    if events == [] then 0
    else AcceptedCount(events[..|events| - 1]) + if Accepted(events[|events| - 1]) then 1 else 0
  }

  lemma {:induction false} CountConcat(a: seq<Signal>, b: seq<Signal>, s: Signal)
    ensures Count(a + b, s) == Count(a, s) + Count(b, s)
  {
    if b == [] {
      assert a + b == a;
    } else {
      assert (a + b)[..|a + b| - 1] == a + b[..|b| - 1];
      CountConcat(a, b[..|b| - 1], s);
    }
  }

  /** In every run `connected` was emitted once for each `connect` the server accepted. */
  lemma {:induction false} ConnectedPerAcceptance(events: seq<Event>)
    ensures Count(Run(NewClient, events).signals, Connected) == AcceptedCount(events)
  {
    if events != [] {
      var before, ev := events[..|events| - 1], events[|events| - 1];
      var c := Run(NewClient, before);
      ConnectedPerAcceptance(before);
      EventTable(c, ev);
      var d := Apply(c, ev);
      assert c.signals <= d.signals;
      var more := d.signals[|c.signals|..];
      assert d.signals == c.signals + more;
      CountConcat(c.signals, more, Connected);
      FewSignals(more);
    }
  }

  lemma FewSignals(more: seq<Signal>)
    requires |more| <= 2
    ensures Count(more, Connected)
            == (if |more| > 0 && more[0] == Connected then 1 else 0)
               + (if |more| > 1 && more[1] == Connected then 1 else 0)
  {
  }

  /** Without one the client never gets anywhere: it is not connected, emits nothing, and makes no call
      but those of `connect`. */
  lemma {:induction false} NothingWithoutAcceptance(events: seq<Event>)
    requires forall k :: 0 <= k < |events| ==> !Accepted(events[k])
    ensures var c := Run(NewClient, events);
            && !c.connected && !c.listener && c.signals == []
            && forall k :: 0 <= k < |c.calls| ==> c.calls[k] == OpenCall
  {
    if events != [] {
      NothingWithoutAcceptance(events[..|events| - 1]);
      EventTable(Run(NewClient, events[..|events| - 1]), events[|events| - 1]);
    }
  }

  /** The sizes announced by `bytesWritten`. */
  function Sizes(signals: seq<Signal>): seq<nat> {
    if signals == [] then [] else
    var last := signals[|signals| - 1];
    Sizes(signals[..|signals| - 1]) + if last.BytesWritten? then [last.n] else []
  }

  /** The sizes of the payloads that a connected client sent and the server accepted. */
  function AcceptedSizes(events: seq<Event>): seq<nat> {
    if events == [] then [] else
    var before, ev := events[..|events| - 1], events[|events| - 1];
    AcceptedSizes(before) +
    if ev.Sending? && ev.reply.code == SUCCESS && Run(NewClient, before).connected then [|ev.data|] else []
  }

  lemma SizesAppend(signals: seq<Signal>, s: Signal)
    ensures Sizes(signals + [s]) == Sizes(signals) + if s.BytesWritten? then [s.n] else []
  {
    assert (signals + [s])[..|signals|] == signals;
  }

  lemma SizesStep(c: Client, ev: Event)
    ensures Sizes(Apply(c, ev).signals)
            == Sizes(c.signals) + if ev.Sending? && ev.reply.code == SUCCESS && c.connected then [|ev.data|] else []
  {
    EventTable(c, ev);
    var d := Apply(c, ev);
    assert c.signals + [] == c.signals;
    if |d.signals| == |c.signals| + 1 {
      SizesAppend(c.signals, d.signals[|c.signals|]);
      assert d.signals == c.signals + [d.signals[|c.signals|]];
    } else if |d.signals| == |c.signals| + 2 {
      var mid := c.signals + [d.signals[|c.signals|]];
      SizesAppend(c.signals, d.signals[|c.signals|]);
      SizesAppend(mid, d.signals[|mid|]);
      assert d.signals == mid + [d.signals[|mid|]];
    }
  }

  /** In every run `bytesWritten` announced, in order, the sizes of exactly those payloads. */
  lemma {:induction false} SizesAreAccepted(events: seq<Event>)
    ensures Sizes(Run(NewClient, events).signals) == AcceptedSizes(events)
  {
    if events != [] {
      SizesAreAccepted(events[..|events| - 1]);
      SizesStep(Run(NewClient, events[..|events| - 1]), events[|events| - 1]);
    }
  }
}

/** The client as an object whose methods update its fields in place. */
module HmiObject {
  import opened Common
  import opened Text
  import H = HmiClient

  class HmiAdapterClient {
    var isConnected: bool
    var hasListener: bool
    var signals: seq<H.Signal>
    var calls: seq<H.Call>
    var sessions: nat
    var failedStarts: nat

    ghost function View(): H.Client
      reads this
    {
      H.Client(isConnected, hasListener, signals, calls, sessions, failedStarts)
    }

    ghost predicate Valid()
      reads this
    {
      H.Inv(View())
    }

    constructor ()
      ensures Valid() && View() == H.NewClient
    {
      isConnected, hasListener, signals, calls, sessions, failedStarts := false, false, [], [], 0, 0;
    }

    method Connect(code: int, starts: bool)
      requires Valid()
      modifies this
      ensures Valid() && View() == H.Connect(old(View()), code, starts)
    {
      calls := calls + [H.OpenCall];
      if isConnected || hasListener {
        if code == SUCCESS {
          signals := signals + [H.Connected];
        }
      } else if code == SUCCESS {
        isConnected, sessions := true, sessions + 1;
        signals := signals + [H.Connected];
        hasListener := starts;
        failedStarts := failedStarts + if starts then 0 else 1;
      }
      assert View() == H.Connect(old(View()), code, starts);
      H.ConnectKeepsInv(old(View()), code, starts);
    }

    method ConnectionLost()
      modifies this
      ensures View() == H.ConnectionLost(old(View()))
    {
      if isConnected {
        isConnected := false;
        signals := signals + [H.Disconnected];
      }
    }

    method Send(data: string, reply: Reply) returns (code: int)
      requires Valid()
      modifies this
      ensures Valid() && (View(), code) == H.Send(old(View()), data, reply)
    {
      H.ApplyKeepsInv(View(), H.Sending(data, reply));
      if !isConnected {
        return NO_CONNECTION;
      }
      calls := calls + [H.SendCall];
      if reply.code == SUCCESS {
        signals := signals + [H.BytesWritten(|data|)];
        if reply.msg != "" {
          signals := signals + [H.TextMessageReceived(CString(reply.msg))];
        }
      } else if reply.code == NO_CONNECTION {
        ConnectionLost();
      }
      code := reply.code;
    }

    method Receive(reply: Reply) returns (result: Reply)
      requires Valid()
      modifies this
      ensures Valid() && (View(), result) == H.Receive(old(View()), reply)
    {
      H.ApplyKeepsInv(View(), H.Receiving(reply));
      if !isConnected {
        return Reply("", NO_CONNECTION);
      }
      calls := calls + [H.ReceiveCall];
      if reply.code == SUCCESS {
        if reply.msg != "" {
          signals := signals + [H.TextMessageReceived(CString(reply.msg))];
        }
      } else if reply.code == NO_CONNECTION {
        ConnectionLost();
      }
      result := reply;
    }
  }
}
