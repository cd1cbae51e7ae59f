/** The steps of opening, closing and requesting put together: what a call comes to when only the worker
    and the threads move, and which code every call answers, whatever else moves. */
module CallsAlone {
  import opened Common
  import opened Lifecycle
  import B = Broker
  import C = Connection

  predicate Closing(phase: Phase) {
    phase.Signal? || phase.Stop? || phase.Join? || phase.Erase?
  }

  lemma TurnsTouchNoMap(s: System, e: nat, i: nat)
    requires Inv(s)
    ensures var t := Next(s, Turn(e, i)); t.server == s.server && t.worker == s.worker && t.codes == s.codes
  {
  }

  // ---------------------------------------------------------------- closing

  /** Nothing has happened to the maps yet, or all of it and the answer is given. */
  ghost predicate CloseSoFar(s: System, t: System, ep: C.Endpoint)
    requires Inv(s)
  {
    assert ep in s.server.contexts ==> B.ContextOk(s.server, ep);
    if t.worker.Idle? then
      && t.server == B.CloseConnection(s.server, ep)
      && t.codes == s.codes + [if ep in s.server.contexts then SUCCESS else NO_CONNECTION]
    else
      && t.worker.Busy? && t.worker.ep == ep && t.worker.reopen.None? && Closing(t.worker.phase)
      && t.server == s.server && t.codes == s.codes && ep in s.server.contexts
  }

  lemma CloseGoesOn(s: System, t: System, ep: C.Endpoint)
    requires Inv(s) && Inv(t) && CloseSoFar(s, t, ep)
    ensures CloseSoFar(s, Next(t, Work), ep)
  {
    if t.worker.Busy? {
      AtWork(t);
    }
  }

  /** A close while only the worker and the threads move: as long as it lasts nothing is closed, and when
      it is over the connection is gone, as one step of the broker; the answer is SUCCESS if there
      was a connection, and NO_CONNECTION if not. */
  lemma {:induction false} CloseAlone(s: System, ep: C.Endpoint, more: seq<Step>)
    requires Inv(s) && s.worker.Idle? && AllProgress(more)
    ensures Inv(Next(s, Close(ep))) && CloseSoFar(s, Exec(Next(s, Close(ep)), more), ep)
  {
    NextKeepsInv(s, Close(ep));
    var first := Next(s, Close(ep));
    assert ep in s.server.contexts ==> B.ContextOk(s.server, ep);
    if more != [] {
      CloseAlone(s, ep, more[..|more| - 1]);
      var t, step := Exec(first, more[..|more| - 1]), more[|more| - 1];
      assert Progresses(step);
      if step.Work? {
        CloseGoesOn(s, t, ep);
      } else {
        TurnsTouchNoMap(t, step.e, step.i);
      }
    }
  }

  // ---------------------------------------------------------------- opening

  /** The old connection is still there, or gone, or the new one is made, or all is done. */
  ghost predicate OpenSoFar(s: System, t: System, ep: C.Endpoint, threads: int)
    requires Inv(s)
  {
    assert ep in s.server.contexts ==> B.ContextOk(s.server, ep);
    var n := if threads == 0 then 1 else if threads < 0 then 0 else threads;
    if t.worker.Idle? then
      && t.server == B.OpenConnection(s.server, ep) && t.codes == s.codes + [SUCCESS]
      && |t.lives| > 0 && |t.lives[|t.lives| - 1].threads| == n
    else
      && t.worker.Busy? && t.worker.ep == ep && t.worker.reopen == Some(threads) && t.codes == s.codes
      && match t.worker.phase
         case Make => t.server == B.CloseConnection(s.server, ep)
         case Spawn =>
           && t.server == B.OpenConnection(s.server, ep)
           && |t.lives| > 0 && t.lives[|t.lives| - 1].planned == n
           && t.server.contexts[ep].epoch == |t.lives| - 1
         case _ => t.server == s.server && ep in s.server.contexts
  }

  lemma OpenGoesOn(s: System, t: System, ep: C.Endpoint, threads: int)
    requires Inv(s) && Inv(t) && OpenSoFar(s, t, ep, threads)
    ensures OpenSoFar(s, Next(t, Work), ep, threads)
  {
    assert ep in s.server.contexts ==> B.ContextOk(s.server, ep);
    if t.worker.Busy? && t.worker.phase.Make? {
      B.CloseKeepsInv(s.server, ep);
    } else if t.worker.Busy? {
      AtWork(t);
    }
  }

  lemma TurnKeepsOpening(s: System, t: System, ep: C.Endpoint, threads: int, e: nat, i: nat)
    requires Inv(s) && Inv(t) && OpenSoFar(s, t, ep, threads)
    ensures OpenSoFar(s, Next(t, Turn(e, i)), ep, threads)
  {
  }

  /** An open while only the worker and the threads move: when it is over the old connection is closed,
      the new one made with the number of threads asked for, and the answer is SUCCESS. */
  lemma {:induction false} OpenAlone(s: System, ep: C.Endpoint, threads: int, more: seq<Step>)
    requires Inv(s) && s.worker.Idle? && AllProgress(more)
    ensures Inv(Next(s, Open(ep, threads))) && OpenSoFar(s, Exec(Next(s, Open(ep, threads)), more), ep, threads)
  {
    NextKeepsInv(s, Open(ep, threads));
    var first := Next(s, Open(ep, threads));
    assert ep in s.server.contexts ==> B.ContextOk(s.server, ep);
    if more != [] {
      OpenAlone(s, ep, threads, more[..|more| - 1]);
      var t, step := Exec(first, more[..|more| - 1]), more[|more| - 1];
      assert Progresses(step);
      if step.Work? {
        OpenGoesOn(s, t, ep, threads);
      } else {
        TurnKeepsOpening(s, t, ep, threads, step.e, step.i);
      }
    }
  }

  // ---------------------------------------------------------------- requests and codes

  /** A request is its test for a session and then the call itself. */
  lemma RequestAlone(s: System, ev: C.Event)
    requires Inv(s) && s.worker.Idle? && (ev.Sending? || ev.Receiving?)
    ensures var tested := B.Apply(s.server, C.Checking(ev.ep));
            && B.Inv(tested) && Inv(Next(s, Request(ev)))
            && var t := Next(Next(s, Request(ev)), Work);
               t.worker.Idle? && t.server == B.Apply(tested, ev)
  {
    NextKeepsInv(s, Request(ev));
  }

  /** Stopping the listener of a context leaves an asynchronous close outstanding exactly when its session
      is a real one and its event loop has not run out of operations. */
  lemma StopStartsClose(s: System)
    requires Inv(s) && s.worker.Busy? && s.worker.phase.Stop?
    ensures s.worker.ep in s.server.contexts
    ensures var ctx, t := s.server.contexts[s.worker.ep], Next(s, Work);
            && ctx.epoch < |t.lives| && t.lives[ctx.epoch].stopped && t.worker.Busy? && t.worker.phase == Join(0)
            && (t.lives[ctx.epoch].closing <==> ctx.session.Real? && (ctx.resolving || ctx.reading || ctx.orphan))
  {
    AtWork(s);
  }

  /** Every answer, in every state and whatever moves: NO_CONNECTION is given at once to a close without
      a connection, and by nothing else; SUCCESS when the worker finishes a call. */
  lemma CodeGiven(s: System, step: Step)
    requires Inv(s)
    ensures var t := Next(s, step);
            || t.codes == s.codes
            || (t.codes == s.codes + [NO_CONNECTION] && step.Close? && step.ep !in s.server.contexts)
            || (t.codes == s.codes + [SUCCESS] && step.Work? && s.worker.Busy? && t.worker.Idle?)
    ensures step.Close? && s.worker.Idle? && step.ep !in s.server.contexts ==>
              Next(s, step).codes == s.codes + [NO_CONNECTION]
    ensures s.worker.Busy? && Next(s, step).worker.Idle? ==> Next(s, step).codes == s.codes + [SUCCESS]
  {
    if s.worker.Busy? && !s.worker.phase.Make? {
      AtWork(s);
    }
  }
}
