/** The broker as an object whose methods update its maps in place. Requests are proved against the
    operations of the same name in `Broker`. The steps of opening and closing are proved to go through
    the phases of `Lifecycle`, where the callbacks that interleave with them and with the requests are
    taken into account. */
module BrokerObject {
  import opened Common
  import opened Connection
  import opened Broker
  import L = Lifecycle

  lemma SentKeepsInv(s: State, ep: Endpoint, data: string, open: bool, ok: bool, t: State)
    requires Inv(s) && Known(s, ep)
    requires t == Broker.Send(s, ep, data, open, ok).0
    ensures Inv(t)
  {
    SendKeepsInv(s, ep, data, open, ok);
  }

  lemma ReceivedKeepsInv(s: State, ep: Endpoint, open: bool, oks: seq<bool>, t: State)
    requires Inv(s) && Known(s, ep)
    requires t == Broker.Receive(s, ep, open, oks).0
    ensures Inv(t)
  {
    ReceiveKeepsInv(s, ep, open, oks);
  }

  lemma OpenedKeepsInv(s: State, ep: Endpoint, t: State)
    requires Inv(s) && (ep in s.contexts ==> Known(s, ep))
    requires t == Broker.OpenConnection(s, ep)
    ensures Inv(t)
  {
    OpenKeepsInv(s, ep);
  }

  lemma ClosedKeepsInv(s: State, ep: Endpoint, t: State)
    requires Inv(s) && Known(s, ep)
    requires t == Broker.CloseConnection(s, ep)
    ensures Inv(t)
  {
    CloseKeepsInv(s, ep);
  }

  /** `lives` holds the exit signal, listener and threads of the context objects in `contexts`; `logs`
      is bookkeeping for the theorems about `Broker`, no branch reads it. */
  class MessageBroker {
    var contexts: map<Endpoint, Context>
    var lives: map<Endpoint, L.Life>
    var pending: map<Endpoint, seq<Item>>
    var logs: seq<EpochLog>

    ghost function View(): State
      reads this
    {
      State(contexts, pending, logs)
    }

    /** What the methods need of each other; `Inv` of `Broker`, which they keep, says the rest. */
    ghost predicate Valid()
      reads this
    {
      && (forall ep {:trigger Ready(ep)} :: ep in contexts ==> Ready(ep))
      && lives.Keys == contexts.Keys && pending.Keys <= contexts.Keys
      && forall ep {:trigger L.Serving(lives[ep])} :: ep in lives ==> L.Serving(lives[ep])
    }

    twostate lemma StillValid(endpoint: Endpoint)
      requires old(Valid()) && OnlyAt(endpoint) && lives == old(lives)
      ensures Valid()
    {
      forall ep | ep in contexts
        ensures Ready(ep)
      {
        assert old(Ready(ep)) && old(L.Serving(lives[ep]));
      }
    }

    twostate lemma StillValidWithout(endpoint: Endpoint)
      requires old(Valid()) && contexts == old(contexts) - {endpoint} && pending == old(pending) - {endpoint}
      requires |logs| == |old(logs)| && lives.Keys == old(lives).Keys - {endpoint}
      requires forall ep :: ep in lives ==> lives[ep] == old(lives)[ep]
      ensures Valid()
    {
      forall ep | ep in contexts
        ensures Ready(ep) && L.Serving(lives[ep])
      {
        assert old(Ready(ep)) && old(L.Serving(lives[ep]));
      }
    }

    twostate lemma StillValidWith(endpoint: Endpoint)
      requires old(Valid()) && endpoint in contexts && contexts == old(contexts)[endpoint := contexts[endpoint]]
      requires pending == old(pending) && |old(logs)| <= |logs| && Ready(endpoint)
      requires lives.Keys == contexts.Keys && L.Serving(lives[endpoint])
      requires forall ep :: ep in lives && ep != endpoint ==> lives[ep] == old(lives)[ep]
      ensures Valid()
    {
      forall ep | ep in contexts
        ensures Ready(ep) && L.Serving(lives[ep])
      {
        assert ep != endpoint ==> old(Ready(ep)) && old(L.Serving(lives[ep]));
      }
    }

    /** Nothing changed but the connection of `endpoint`, which keeps its epoch. */
    twostate predicate OnlyAt(endpoint: Endpoint)
      reads this
    {
      && old(Ready(endpoint)) && Ready(endpoint) && contexts[endpoint].epoch == old(contexts[endpoint].epoch)
      && contexts == old(contexts)[endpoint := contexts[endpoint]]
      && (pending == old(pending) || (endpoint in pending && pending == old(pending)[endpoint := pending[endpoint]]))
      && logs == old(logs)[contexts[endpoint].epoch := logs[contexts[endpoint].epoch]]
    }

    twostate lemma PutBack(endpoint: Endpoint)
      requires OnlyAt(endpoint)
      ensures View() == PutCell(old(View()), endpoint, At(endpoint))
    {
    }

    /** The endpoint has a context, that an epoch, and no request is in progress. */
    ghost predicate Ready(endpoint: Endpoint)
      reads this
    {
      Known(View(), endpoint) && !contexts[endpoint].seenNone
    }

    ghost function At(endpoint: Endpoint): Cell
      reads this
      requires Ready(endpoint)
    {
      CellAt(View(), endpoint)
    }

    constructor ()
      ensures Valid() && View() == EmptyState && Inv(View())
    {
      contexts, lives, pending, logs := map[], map[], map[], [];
    }

    /** `exit_signal_.set_value()`, which throws when the promise was set before. */
    method SetValue(endpoint: Endpoint)
      requires endpoint in lives && lives[endpoint].signals == 0
      modifies this`lives
      ensures lives == old(lives)[endpoint := old(lives)[endpoint].(signals := 1)]
      ensures L.InPhase(old(lives)[endpoint], L.Signal) ==> L.InPhase(lives[endpoint], L.Stop)
    {
      lives := lives[endpoint := lives[endpoint].(signals := lives[endpoint].signals + 1)];
    }

    /** `Stop`, which starts to close a real session. */
    method StopListener(endpoint: Endpoint)
      requires endpoint in lives && endpoint in contexts
      modifies this`lives
      ensures lives == old(lives)[endpoint := L.Stopped(contexts[endpoint], old(lives)[endpoint])]
      ensures L.InPhase(old(lives)[endpoint], L.Stop) ==> L.InPhase(lives[endpoint], L.Join(0))
    {
      var context, life := contexts[endpoint], lives[endpoint];
      var closing := context.session.Real? && L.OpsOf(context, life) != L.NoOps;
      lives := lives[endpoint := life.(stopped := true, closing := closing)];
    }

    /** `thread.join()` waits until the thread has seen the signal and left; a thread can be joined
        once only, and without a signal the wait would never end. When it ends at all is the subject of
        `Lifecycle`. */
    method JoinThread(endpoint: Endpoint, k: nat)
      requires endpoint in lives && lives[endpoint].signals > 0
      requires k < |lives[endpoint].threads| && !lives[endpoint].threads[k].Joined?
      modifies this`lives
      ensures var life := old(lives)[endpoint];
              lives == old(lives)[endpoint := life.(threads := life.threads[k := L.Joined])]
      ensures L.InPhase(old(lives)[endpoint], L.Join(k)) ==> L.InPhase(lives[endpoint], L.Join(k + 1))
    {
      var life := lives[endpoint];
      var threads := life.threads;
      if !threads[k].Left? {
        threads := threads[k := L.Left];
      }
      threads := threads[k := L.Joined];
      assert threads == life.threads[k := L.Joined];
      lives := lives[endpoint := life.(threads := threads)];
    }

    /** Erasing a context destroys its threads; destroying one that was not joined ends the process. */
    method EraseContext(endpoint: Endpoint)
      requires Ready(endpoint) && endpoint in lives && L.InPhase(lives[endpoint], L.Erase)
      modifies this
      ensures View() == Broker.CloseConnection(old(View()), endpoint)
      ensures lives == old(lives) - {endpoint}
    {
      var context := contexts[endpoint];
      var log := logs[context.epoch];
      logs := logs[context.epoch := log.(lost := context.inbox, dropped := QueueAt(pending, endpoint))];
      contexts := contexts - {endpoint};
      lives := lives - {endpoint};
      pending := pending - {endpoint};
    }

    /** A missing connection is reported; an existing one loses its context and its pending queue,
        after the signal was set, the listener stopped and every thread joined. */
    method CloseConnection(address: string, port: int) returns (code: int)
      requires Valid()
      modifies this
      ensures Valid()
      ensures var endpoint := MakeEndpoint(address, port);
              && (endpoint in old(contexts) ==> old(Ready(endpoint)))
              && View() == Broker.CloseConnection(old(View()), endpoint)
              && endpoint !in contexts && endpoint !in pending
      ensures Inv(old(View())) ==> Inv(View())
      ensures code == if MakeEndpoint(address, port) in old(contexts) then SUCCESS else NO_CONNECTION
    {
      var endpoint := MakeEndpoint(address, port);
      if endpoint !in contexts {
        return NO_CONNECTION;
      }
      assert Ready(endpoint) && L.Serving(lives[endpoint]);
      Shut(endpoint);
      StillValidWithout(endpoint);
      if Inv(old(View())) {
        ClosedKeepsInv(old(View()), endpoint, View());
      }
      code := SUCCESS;
    }

    method Shut(endpoint: Endpoint)
      requires Ready(endpoint) && endpoint in lives && L.InPhase(lives[endpoint], L.Signal)
      modifies this
      ensures View() == Broker.CloseConnection(old(View()), endpoint)
      ensures lives.Keys == old(lives).Keys - {endpoint}
      ensures forall ep :: ep in lives ==> lives[ep] == old(lives)[ep]
    {
      SetValue(endpoint);
      StopListener(endpoint);
      JoinThreads(endpoint);
      EraseContext(endpoint);
    }

    /** The loop that joins the threads. */
    method JoinThreads(endpoint: Endpoint)
      requires endpoint in lives && L.InPhase(lives[endpoint], L.Join(0))
      modifies this`lives
      ensures lives.Keys == old(lives).Keys && L.InPhase(lives[endpoint], L.Erase)
      ensures forall ep :: ep in lives && ep != endpoint ==> lives[ep] == old(lives)[ep]
    {
      var k := 0;
      while k < |lives[endpoint].threads|
        invariant lives.Keys == old(lives).Keys
        invariant forall ep :: ep in lives && ep != endpoint ==> lives[ep] == old(lives)[ep]
        invariant L.InPhase(lives[endpoint], L.Join(k))
        decreases |lives[endpoint].threads| - k
      {
        JoinThread(endpoint, k);
        k := k + 1;
      }
    }

    /** `MakeContext`: `std::map::insert`, which refuses an existing key. */
    method MakeContext(endpoint: Endpoint, threads: int) returns (inserted: bool)
      modifies this
      ensures inserted <==> endpoint !in old(contexts)
      ensures !inserted ==> View() == old(View()) && lives == old(lives)
      ensures inserted ==> View() == Broker.OpenConnection(old(View()), endpoint)
      ensures inserted ==> lives == old(lives)[endpoint := L.NewLife(endpoint, threads)]
    {
      inserted := endpoint !in contexts;
      if inserted {
        contexts := contexts[endpoint := NewContext(|logs|)];
        lives := lives[endpoint := L.NewLife(endpoint, threads)];
        logs := logs + [NewLog(endpoint)];
      }
    }

    /** The loop that starts the I/O threads. */
    method StartThreads(endpoint: Endpoint, threads: int)
      requires endpoint in lives && lives[endpoint] == L.NewLife(endpoint, threads)
      modifies this`lives
      ensures lives.Keys == old(lives).Keys && L.Serving(lives[endpoint])
      ensures lives[endpoint].planned == L.ThreadCount(threads)
      ensures forall ep :: ep in lives && ep != endpoint ==> lives[ep] == old(lives)[ep]
    {
      var i := if threads == 0 then 1 else threads;
      while i > 0
        invariant lives.Keys == old(lives).Keys && lives[endpoint].planned == L.ThreadCount(threads)
        invariant forall ep :: ep in lives && ep != endpoint ==> lives[ep] == old(lives)[ep]
        invariant L.InPhase(lives[endpoint], L.Spawn)
        invariant |lives[endpoint].threads| == L.ThreadCount(threads) - if i > 0 then i else 0
        decreases i
      {
        lives := lives[endpoint := lives[endpoint].(threads := lives[endpoint].threads + [L.Testing])];
        i := i - 1;
      }
    }

    /** An existing connection is closed first, so the insertion never fails: the call always
        succeeds and starts a new epoch with its threads. */
    method OpenConnection(address: string, port: int, threads: int) returns (code: int)
      requires Valid()
      modifies this
      ensures Valid() && code == SUCCESS && (Inv(old(View())) ==> Inv(View()))
      ensures var endpoint := MakeEndpoint(address, port);
              && (endpoint in old(contexts) ==> old(Ready(endpoint)))
              && View() == Broker.OpenConnection(old(View()), endpoint)
              && endpoint in lives && |lives[endpoint].threads| == L.ThreadCount(threads)
    {
      var endpoint := MakeEndpoint(address, port);
      if endpoint in contexts {
        var closed := CloseConnection(address, port);
      }
      code := OpenFresh(endpoint, threads);
      if Inv(old(View())) {
        OpenedKeepsInv(old(View()), endpoint, View());
      }
    }

    /** The rest of `OpenConnection`. */
    method OpenFresh(endpoint: Endpoint, threads: int) returns (code: int)
      requires Valid()
      modifies this
      ensures Valid()
      ensures code == if endpoint in old(contexts) then ALREADY_EXISTS else SUCCESS
      ensures endpoint !in old(contexts) ==>
                && View() == Broker.OpenConnection(old(View()), endpoint)
                && endpoint in lives && |lives[endpoint].threads| == L.ThreadCount(threads)
    {
      var inserted := MakeContext(endpoint, threads);
      if !inserted {
        forall ep | ep in contexts
          ensures Ready(ep)
        {
          assert old(Ready(ep));
        }
        return ALREADY_EXISTS;
      }
      StartThreads(endpoint, threads);
      StillValidWith(endpoint);
      code := SUCCESS;
    }

    /** The session of the listener; without one, a dummy. */
    method GetSession(endpoint: Endpoint)
      requires Ready(endpoint)
      modifies this`contexts
      ensures OnlyAt(endpoint) && At(endpoint) == WithSession(old(At(endpoint)))
    {
      var context := contexts[endpoint];
      if context.session.NoSession? {
        contexts := contexts[endpoint := context.(session := Dummy)];
      }
    }

    /** Pops the front of the session's queue, or returns the empty string. */
    method GetMessage(endpoint: Endpoint) returns (msg: string)
      requires Ready(endpoint)
      modifies this`contexts, this`logs
      ensures OnlyAt(endpoint) && At(endpoint) == Take(old(At(endpoint)))
      ensures msg == FrontOf(old(contexts)[endpoint].inbox)
    {
      var context := contexts[endpoint];
      if context.inbox == [] {
        return "";
      }
      msg := context.inbox[0];
      var log := logs[context.epoch];
      contexts := contexts[endpoint := context.(inbox := context.inbox[1..])];
      logs := logs[context.epoch := log.(handed := log.handed + [msg])];
    }

    method Send(address: string, port: int, data: string, open: bool, ok: bool) returns (r: Reply)
      requires Valid()
      modifies this`contexts, this`pending, this`logs
      ensures var endpoint := MakeEndpoint(address, port);
              && (endpoint in old(contexts) ==> old(Ready(endpoint)))
              && (View(), r) == Broker.Send(old(View()), endpoint, data, open, ok)
      ensures Valid() && (Inv(old(View())) ==> Inv(View()))
    {
      var endpoint := MakeEndpoint(address, port);
      if endpoint !in contexts {
        return Reply("", NO_CONNECTION);
      }
      assert Ready(endpoint);
      r := SendTo(endpoint, data, open, ok);
      PutBack(endpoint);
      StillValid(endpoint);
      if Inv(old(View())) {
        SentKeepsInv(old(View()), endpoint, data, open, ok, View());
      }
    }

    method SendTo(endpoint: Endpoint, data: string, open: bool, ok: bool) returns (r: Reply)
      requires Ready(endpoint)
      modifies this`contexts, this`pending, this`logs
      ensures OnlyAt(endpoint) && (At(endpoint), r) == SendOn(old(At(endpoint)), data, open, ok)
    {
      GetSession(endpoint);
      var isOpen := PostTo(endpoint, data, open, ok);
      if isOpen {
        var msg := GetMessage(endpoint);
        r := Reply(msg, if ok then SUCCESS else WRITE_FAILURE);
      } else {
        r := Reply("", WRITE_FAILURE);
      }
    }

    /** `Send` on its session up to the point where it pops a message. */
    method PostTo(endpoint: Endpoint, data: string, open: bool, ok: bool) returns (isOpen: bool)
      requires Ready(endpoint)
      modifies this`pending, this`logs
      ensures OnlyAt(endpoint) && At(endpoint) == Posted(old(At(endpoint)), data, open, ok)
      ensures isOpen == IsOpen(contexts[endpoint], open)
    {
      var context := contexts[endpoint];
      var log := logs[context.epoch];
      var item := Item(context.epoch, |log.sent|, data);
      isOpen := IsOpen(context, open);
      if !isOpen {
        pending := pending[endpoint := QueueAt(pending, endpoint) + [item]];
        logs := logs[context.epoch := log.(sent := log.sent + [(item, Queued)])];
      } else if ok {
        logs := logs[context.epoch := log.(sent := log.sent + [(item, WrittenAtOnce)],
                                           written := log.written + [Direct(item)])];
      } else {
        logs := logs[context.epoch := log.(sent := log.sent + [(item, WriteFailed)])];
      }
    }

    /** Writes queued messages until one fails: exactly the written prefix leaves the queue. */
    method FlushPendingMsg(endpoint: Endpoint, open: bool, oks: seq<bool>)
      requires Ready(endpoint)
      modifies this`contexts, this`pending, this`logs
      ensures OnlyAt(endpoint) && At(endpoint) == FlushPending(old(At(endpoint)), open, oks)
    {
      var queue := QueueAt(pending, endpoint);
      pending := pending[endpoint := queue];
      if queue == [] {
        return;
      }
      GetSession(endpoint);
      WriteAll(endpoint, open, oks);
    }

    method WriteAll(endpoint: Endpoint, open: bool, oks: seq<bool>)
      requires Ready(endpoint) && endpoint in pending
      modifies this`pending, this`logs
      ensures OnlyAt(endpoint) && At(endpoint) == Flushed(old(At(endpoint)), open, oks)
    {
      var epoch := contexts[endpoint].epoch;
      var written := [];
      if IsOpen(contexts[endpoint], open) {
        written := WriteQueue(endpoint, oks);
        logs := logs[epoch := logs[epoch].(written := logs[epoch].written + Flushes(written))];
      }
      assert Flushes([]) == [];
    }

    /** The loop of the flush. */
    method WriteQueue(endpoint: Endpoint, oks: seq<bool>) returns (written: seq<Item>)
      requires endpoint in pending
      modifies this`pending
      ensures var queue := old(pending)[endpoint];
              && written == queue[..Successes(queue, oks)]
              && pending == old(pending)[endpoint := queue[Successes(queue, oks)..]]
    {
      ghost var queue := pending[endpoint];
      written := [];
      while pending[endpoint] != []
        invariant |written| <= |queue| && written == queue[..|written|]
        invariant |written| <= |oks| && forall i :: 0 <= i < |written| ==> oks[i]
        invariant pending == old(pending)[endpoint := queue[|written|..]]
        decreases |queue| - |written|
      {
        if |written| == |oks| || !oks[|written|] {
          break;
        }
        written := written + [pending[endpoint][0]];
        pending := pending[endpoint := pending[endpoint][1..]];
      }
      assert |written| == Successes(queue, oks);
    }

    method Receive(address: string, port: int, open: bool, oks: seq<bool>) returns (r: Reply)
      requires Valid()
      modifies this`contexts, this`pending, this`logs
      ensures var endpoint := MakeEndpoint(address, port);
              && (endpoint in old(contexts) ==> old(Ready(endpoint)))
              && (View(), r) == Broker.Receive(old(View()), endpoint, open, oks)
      ensures Valid() && (Inv(old(View())) ==> Inv(View()))
    {
      var endpoint := MakeEndpoint(address, port);
      if endpoint !in contexts {
        return Reply("", NO_CONNECTION);
      }
      assert Ready(endpoint);
      r := ReceiveFrom(endpoint, open, oks);
      PutBack(endpoint);
      StillValid(endpoint);
      if Inv(old(View())) {
        ReceivedKeepsInv(old(View()), endpoint, open, oks, View());
      }
    }

    method ReceiveFrom(endpoint: Endpoint, open: bool, oks: seq<bool>) returns (r: Reply)
      requires Ready(endpoint)
      modifies this`contexts, this`pending, this`logs
      ensures OnlyAt(endpoint) && (At(endpoint), r) == ReceiveOn(old(At(endpoint)), open, oks)
    {
      FlushPendingMsg(endpoint, open, oks);
      GetSession(endpoint);
      var msg := GetMessage(endpoint);
      r := Reply(msg, SUCCESS);
    }
  }
}
