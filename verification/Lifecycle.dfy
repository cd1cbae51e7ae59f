/** Opening and closing connections step by step. One worker runs the remote calls; a context has an
    exit signal, a listener and I/O threads, and the callbacks of a context run on those threads,
    also while the worker is closing it or in the middle of a request. Every step below can be
    followed by any other. */
module Lifecycle {
  import opened Common
  import B = Broker
  import C = Connection

  /** A thread tests the exit signal. While it is not set the thread enters the event loop and runs
      callbacks, until no operation of its context is outstanding, and tests again; once it is set the
      thread leaves and is joined. */
  datatype Thread = Testing | Running | Left | Joined

  /** The context object of one epoch. `signals` counts how often its promise was set, `planned` how
      many threads its opening starts; `closing`: the asynchronous close that stopping the listener
      starts is outstanding; `erased`: it was removed from the map, which destroys it. */
  datatype Life = Life(
    endpoint: C.Endpoint,
    planned: nat,
    signals: nat,
    stopped: bool,
    closing: bool,
    threads: seq<Thread>,
    erased: bool)

  /** Where the worker is inside `OpenConnection` and `CloseConnection`. */
  datatype Phase = Signal | Stop | Join(k: nat) | Erase | Make | Spawn

  /** `reopen`: the call is an `OpenConnection` with that number of threads. `Requesting`: a `Send` or
      `Receive` that has tested for a session. */
  datatype Worker =
    | Idle
    | Busy(ep: C.Endpoint, phase: Phase, reopen: Option<int>)
    | Requesting(ev: C.Event)

  /** `codes`: the answers to the open and close calls; `strays`: how many callbacks ran for a context
      that was already destroyed. */
  datatype System = System(server: B.State, lives: seq<Life>, worker: Worker, codes: seq<int>, strays: nat)

  const Start := System(B.EmptyState, [], Idle, [], 0)

  datatype Callback = Resolved(resolution: C.Resolution) | ReadDone(read: C.Read) | CloseDone

  datatype Step =
    | Open(ep: C.Endpoint, threads: int)
    | Close(ep: C.Endpoint)
    | Request(ev: C.Event)
    | Work
    | Turn(e: nat, i: nat)
    | Run(e: nat, callback: Callback)

  /** The number of rounds of the loop that starts the threads. */
  function ThreadCount(threads: int): nat {
    if threads == 0 then 1 else if threads < 0 then 0 else threads
  }

  /** A context whose threads are still to be started. */
  function NewLife(ep: C.Endpoint, threads: int): Life {
    Life(ep, ThreadCount(threads), 0, false, false, [], false)
  }

  ghost predicate WellFormed(s: System) {
    B.WellFormed(s.server) && |s.lives| == |s.server.logs|
  }

  /** The asynchronous operations of a context that are outstanding. */
  datatype Ops = Ops(resolve: bool, read: bool, close: bool)

  const NoOps := Ops(false, false, false)

  function OpsOf(ctx: C.Context, life: Life): Ops {
    Ops(ctx.resolving, ctx.reading || ctx.orphan, life.closing)
  }

  /** The context of epoch `e`, if it still exists, has nothing outstanding. */
  predicate Quiet(s: System, e: nat)
    requires e < |s.lives| == |s.server.logs|
  {
    B.Live(s.server, e) ==> OpsOf(s.server.contexts[s.server.logs[e].endpoint], s.lives[e]) == NoOps
  }

  // ---------------------------------------------------------------- steps

  function SetLife(s: System, e: nat, life: Life, phase: Phase): System
    requires e < |s.lives| && s.worker.Busy?
  {
    s.(lives := s.lives[e := life], worker := s.worker.(phase := phase))
  }

  function Finish(s: System, code: int): System {
    s.(worker := Idle, codes := s.codes + [code])
  }

  /** The next step of the call in progress. A join waits for its thread to leave the loop. */
  function WorkOn(s: System): System
    requires WellFormed(s) && s.worker.Busy?
  {
    var ep := s.worker.ep;
    if s.worker.phase.Make? then MakeContext(s) else
    if ep !in s.server.contexts then s else
    assert B.ContextOk(s.server, ep);
    var e := s.server.contexts[ep].epoch;
    var life := s.lives[e];
    match s.worker.phase
    case Signal => SetLife(s, e, life.(signals := life.signals + 1), Stop)
    case Stop => SetLife(s, e, Stopped(s.server.contexts[ep], life), Join(0))
    case Join(k) =>
      if k >= |life.threads| then SetLife(s, e, life, Erase)
      else if life.threads[k].Left? then SetLife(s, e, life.(threads := life.threads[k := Joined]), Join(k + 1))
      else s
    case Erase => EraseContext(s, e)
    case Spawn =>
      if |life.threads| < life.planned then SetLife(s, e, life.(threads := life.threads + [Testing]), Spawn)
      else Finish(s, SUCCESS)
  }

  /** `Stop` starts the asynchronous close of a real session. An event loop that has run out of
      operations does not start again. */
  function Stopped(ctx: C.Context, life: Life): Life {
    life.(stopped := true, closing := ctx.session.Real? && OpsOf(ctx, life) != NoOps)
  }

  /** Erasing from the two maps. Only the worker uses the map of queues, so that the two erasures are
      one step is visible to nobody. */
  function EraseContext(s: System, e: nat): System
    requires WellFormed(s) && s.worker.Busy? && e < |s.lives|
  {
    var ep := s.worker.ep;
    assert ep in s.server.contexts ==> B.ContextOk(s.server, ep);
    var t := s.(server := B.CloseConnection(s.server, ep), lives := s.lives[e := s.lives[e].(erased := true)]);
    if s.worker.reopen.Some? then t.(worker := s.worker.(phase := Make)) else Finish(t, SUCCESS)
  }

  function MakeContext(s: System): System
    requires WellFormed(s) && s.worker.Busy?
  {
    var ep := s.worker.ep;
    if ep in s.server.contexts || s.worker.reopen.None? then Finish(s, ALREADY_EXISTS) else
    s.(server := B.OpenConnection(s.server, ep),
       lives := s.lives + [NewLife(ep, s.worker.reopen.value)],
       worker := s.worker.(phase := Spawn))
  }

  /** Some thread of the context of epoch `e` is in the event loop. */
  predicate InLoop(s: System, e: nat) {
    e < |s.lives| && Running in s.lives[e].threads
  }

  function SetThread(s: System, e: nat, i: nat, thread: Thread): System
    requires e < |s.lives| && i < |s.lives[e].threads|
  {
    s.(lives := s.lives[e := s.lives[e].(threads := s.lives[e].threads[i := thread])])
  }

  /** What a thread does by itself. */
  function TurnOf(s: System, e: nat, i: nat): System
    requires e < |s.lives| == |s.server.logs| && i < |s.lives[e].threads|
  {
    match s.lives[e].threads[i]
    case Testing => SetThread(s, e, i, if s.lives[e].signals > 0 then Left else Running)
    case Running => if Quiet(s, e) then SetThread(s, e, i, Testing) else s
    case _ => s
  }

  /** A callback of the context of epoch `e`. */
  function Call(s: System, e: nat, callback: Callback): System
    requires WellFormed(s) && e < |s.lives|
  {
    if !B.Live(s.server, e) then s.(strays := s.strays + 1) else
    match callback
    case Resolved(r) => s.(server := B.Apply(s.server, C.Resolving(s.lives[e].endpoint, r)))
    case ReadDone(r) => s.(server := B.Apply(s.server, C.Reading(s.lives[e].endpoint, r)))
    case CloseDone => s.(lives := s.lives[e := s.lives[e].(closing := false)])
  }

  function Next(s: System, step: Step): System
    requires WellFormed(s)
  {
    match step
    case Open(ep, threads) =>
      if !s.worker.Idle? then s
      else s.(worker := Busy(ep, if ep in s.server.contexts then Signal else Make, Some(threads)))
    case Close(ep) =>
      if !s.worker.Idle? then s
      else if ep !in s.server.contexts then Finish(s, NO_CONNECTION)
      else s.(worker := Busy(ep, Signal, None))
    case Request(ev) =>
      if !s.worker.Idle? || !(ev.Sending? || ev.Receiving?) then s
      else s.(server := B.Apply(s.server, C.Checking(ev.ep)), worker := Requesting(ev))
    case Work =>
      if s.worker.Busy? then WorkOn(s)
      else if s.worker.Requesting? then s.(server := B.Apply(s.server, s.worker.ev), worker := Idle)
      else s
    case Turn(e, i) => if e < |s.lives| && i < |s.lives[e].threads| then TurnOf(s, e, i) else s
    case Run(e, callback) => if InLoop(s, e) then Call(s, e, callback) else s
  }

  // ---------------------------------------------------------------- invariant

  ghost predicate AllJoined(threads: seq<Thread>, to: nat)
    requires to <= |threads|
  {
    forall i :: 0 <= i < to ==> threads[i].Joined?
  }

  ghost predicate NoneJoined(threads: seq<Thread>, from: nat)
    requires from <= |threads|
  {
    forall i :: from <= i < |threads| ==> !threads[i].Joined?
  }

  ghost predicate NoneLeft(threads: seq<Thread>) {
    forall i :: 0 <= i < |threads| ==> threads[i].Testing? || threads[i].Running?
  }

  /** A context nobody is closing. */
  ghost predicate Serving(life: Life) {
    && life.signals == 0 && !life.stopped && !life.closing
    && |life.threads| == life.planned && NoneLeft(life.threads)
  }

  /** The signal was set once, the listener stopped, and every thread joined. */
  ghost predicate Finished(life: Life) {
    && life.signals == 1 && life.stopped && |life.threads| == life.planned
    && AllJoined(life.threads, |life.threads|)
  }

  ghost predicate InPhase(life: Life, phase: Phase) {
    match phase
    case Signal => Serving(life)
    case Stop =>
      && life.signals == 1 && !life.stopped && !life.closing
      && |life.threads| == life.planned && NoneJoined(life.threads, 0)
    case Join(k) =>
      && life.signals == 1 && life.stopped && k <= |life.threads| == life.planned
      && AllJoined(life.threads, k) && NoneJoined(life.threads, k)
    case Erase => Finished(life)
    case Make => false
    case Spawn =>
      && life.signals == 0 && !life.stopped && !life.closing
      && |life.threads| <= life.planned && NoneLeft(life.threads)
  }

  ghost predicate LifeOk(s: System, e: nat)
    requires e < |s.lives| == |s.server.logs|
  {
    var life := s.lives[e];
    && life.endpoint == s.server.logs[e].endpoint
    && (life.erased <==> !B.Live(s.server, e))
    && if life.erased then Finished(life)
       else if s.worker.Busy? && s.worker.ep == life.endpoint then InPhase(life, s.worker.phase)
       else Serving(life)
  }

  ghost predicate WorkerOk(s: System) {
    && (s.worker.Busy? ==>
          && (s.worker.phase.Make? <==> s.worker.ep !in s.server.contexts)
          && (s.worker.phase.Make? ==> s.worker.reopen.Some?))
    && (s.worker.Requesting? ==> s.worker.ev.Sending? || s.worker.ev.Receiving?)
  }

  ghost predicate Inv(s: System) {
    && B.Inv(s.server) && |s.lives| == |s.server.logs|
    && (forall e :: 0 <= e < |s.lives| ==> LifeOk(s, e))
    && WorkerOk(s) && s.strays == 0 && ALREADY_EXISTS !in s.codes
  }

  ghost predicate AtContext(s: System, ep: C.Endpoint) {
    ep in s.server.contexts && s.server.contexts[ep].epoch < |s.lives|
  }

  /** The context the worker is at. */
  lemma AtWork(s: System)
    requires Inv(s) && s.worker.Busy? && !s.worker.phase.Make?
    ensures var ep := s.worker.ep;
            && AtContext(s, ep)
            && var e := s.server.contexts[ep].epoch;
               && B.Live(s.server, e) && s.lives[e].endpoint == ep && !s.lives[e].erased
               && InPhase(s.lives[e], s.worker.phase)
  {
    assert B.ContextOk(s.server, s.worker.ep);
    assert LifeOk(s, s.server.contexts[s.worker.ep].epoch);
  }

  /** A change of the context the worker is at, and of its phase. */
  lemma PhaseKeepsInv(s: System, e: nat, life: Life, phase: Phase)
    requires Inv(s) && s.worker.Busy? && !s.worker.phase.Make? && !phase.Make?
    requires e == s.server.contexts[s.worker.ep].epoch < |s.lives|
    requires life.endpoint == s.worker.ep && !life.erased && InPhase(life, phase)
    ensures Inv(SetLife(s, e, life, phase))
  {
    AtWork(s);
    var t := SetLife(s, e, life, phase);
    forall f | 0 <= f < |t.lives|
      ensures LifeOk(t, f)
    {
      assert LifeOk(s, f);
    }
  }

  lemma WorkKeepsInv(s: System)
    requires Inv(s) && s.worker.Busy?
    ensures Inv(WorkOn(s))
  {
    if s.worker.phase.Make? {
      MakeKeepsInv(s);
    } else {
      AtWork(s);
      var e := s.server.contexts[s.worker.ep].epoch;
      var life := s.lives[e];
      assert LifeOk(s, e);
      match s.worker.phase
      case Signal => PhaseKeepsInv(s, e, life.(signals := 1), Stop);
      case Stop => PhaseKeepsInv(s, e, Stopped(s.server.contexts[s.worker.ep], life), Join(0));
      case Join(k) =>
        if k >= |life.threads| {
          PhaseKeepsInv(s, e, life, Erase);
        } else if life.threads[k].Left? {
          PhaseKeepsInv(s, e, life.(threads := life.threads[k := Joined]), Join(k + 1));
        }
      case Erase => EraseKeepsInv(s, e);
      case Spawn =>
        if |life.threads| < life.planned {
          PhaseKeepsInv(s, e, life.(threads := life.threads + [Testing]), Spawn);
        } else {
          FinishKeepsInv(s, SUCCESS);
        }
    }
  }

  lemma FinishKeepsInv(s: System, code: int)
    requires Inv(s) && code != ALREADY_EXISTS
    requires s.worker.Busy? && !s.worker.phase.Make? ==>
               (var ep := s.worker.ep;
                ep in s.server.contexts && s.server.contexts[ep].epoch < |s.lives|
                && Serving(s.lives[s.server.contexts[ep].epoch]))
    ensures Inv(Finish(s, code))
  {
    var t := Finish(s, code);
    forall f | 0 <= f < |t.lives|
      ensures LifeOk(t, f)
    {
      assert LifeOk(s, f);
    }
  }

  lemma EraseKeepsInv(s: System, e: nat)
    requires Inv(s) && s.worker.Busy? && s.worker.phase.Erase?
    requires s.worker.ep in s.server.contexts && e == s.server.contexts[s.worker.ep].epoch < |s.lives|
    ensures Inv(EraseContext(s, e))
  {
    AtWork(s);
    var ep, t := s.worker.ep, EraseContext(s, e);
    B.CloseKeepsInv(s.server, ep);
    forall f | 0 <= f < |t.lives|
      ensures LifeOk(t, f)
    {
      assert LifeOk(s, f);
      assert t.server.logs[f].endpoint == s.server.logs[f].endpoint;
    }
  }

  lemma MakeKeepsInv(s: System)
    requires Inv(s) && s.worker.Busy? && s.worker.phase.Make?
    ensures Inv(MakeContext(s))
  {
    var ep, t := s.worker.ep, MakeContext(s);
    B.OpenKeepsInv(s.server, ep);
    forall f | 0 <= f < |t.lives|
      ensures LifeOk(t, f)
    {
      if f < |s.lives| {
        assert LifeOk(s, f);
        assert t.server.logs[f] == s.server.logs[f];
      }
    }
  }

  lemma LifeKeepsInv(s: System, e: nat, life: Life)
    requires Inv(s) && e < |s.lives| && LifeOk(s.(lives := s.lives[e := life]), e)
    ensures Inv(s.(lives := s.lives[e := life]))
  {
    var t := s.(lives := s.lives[e := life]);
    forall f | 0 <= f < |t.lives| && f != e
      ensures LifeOk(t, f)
    {
      assert LifeOk(s, f);
    }
  }

  /** A thread leaves only after the signal, when its context is being closed. */
  lemma TurnKeepsInv(s: System, e: nat, i: nat)
    requires Inv(s) && e < |s.lives| && i < |s.lives[e].threads|
    ensures Inv(TurnOf(s, e, i))
  {
    var t := TurnOf(s, e, i);
    assert LifeOk(s, e);
    if t != s {
      LifeKeepsInv(s, e, t.lives[e]);
    }
  }

  lemma CloseDoneKeepsInv(s: System, e: nat)
    requires Inv(s) && e < |s.lives|
    ensures Inv(s.(lives := s.lives[e := s.lives[e].(closing := false)]))
  {
    assert LifeOk(s, e);
    LifeKeepsInv(s, e, s.lives[e].(closing := false));
  }

  /** Erased contexts have no thread in the event loop. */
  lemma InLoopIsLive(s: System, e: nat)
    requires Inv(s) && InLoop(s, e)
    ensures B.Live(s.server, e) && s.lives[e].endpoint == s.server.logs[e].endpoint
  {
    assert LifeOk(s, e);
  }

  /** An event that is no open and no close leaves the epochs what they are. */
  lemma SameEpochs(s: B.State, ev: C.Event)
    requires B.Inv(s) && !ev.Opening? && !ev.Closing?
    ensures var t := B.Apply(s, ev);
            && |t.logs| == |s.logs| && t.contexts.Keys == s.contexts.Keys
            && (forall ep :: ep in s.contexts ==> t.contexts[ep].epoch == s.contexts[ep].epoch)
            && (forall e :: 0 <= e < |s.logs| ==> t.logs[e].endpoint == s.logs[e].endpoint)
  {
    var t := B.Apply(s, ev);
    if ev.ep in s.contexts {
      assert B.ContextOk(s, ev.ep);
      B.KeepsContext(s, ev);
    }
  }

  lemma ServerKeepsInv(s: System, ev: C.Event)
    requires Inv(s) && !C.Ends(ev)
    ensures Inv(s.(server := B.Apply(s.server, ev)))
  {
    B.ApplyKeepsInv(s.server, ev);
    SameEpochs(s.server, ev);
    var t := s.(server := B.Apply(s.server, ev));
    forall f | 0 <= f < |t.lives|
      ensures LifeOk(t, f)
    {
      assert LifeOk(s, f);
    }
  }

  /** Whether the worker is at a request does not matter to the contexts. */
  lemma RequestKeepsInv(s: System, worker: Worker)
    requires Inv(s) && !s.worker.Busy? && !worker.Busy?
    requires worker.Requesting? ==> worker.ev.Sending? || worker.ev.Receiving?
    ensures Inv(s.(worker := worker))
  {
    var t := s.(worker := worker);
    forall f | 0 <= f < |t.lives|
      ensures LifeOk(t, f)
    {
      assert LifeOk(s, f);
    }
  }

  lemma CallKeepsInv(s: System, ep: C.Endpoint, reopen: Option<int>)
    requires Inv(s) && s.worker.Idle? && (ep in s.server.contexts || reopen.Some?)
    ensures Inv(s.(worker := Busy(ep, if ep in s.server.contexts then Signal else Make, reopen)))
  {
    var t := s.(worker := Busy(ep, if ep in s.server.contexts then Signal else Make, reopen));
    forall f | 0 <= f < |t.lives|
      ensures LifeOk(t, f)
    {
      assert LifeOk(s, f);
    }
  }

  lemma NextKeepsInv(s: System, step: Step)
    requires Inv(s)
    ensures Inv(Next(s, step))
  {
    match step
    case Open(ep, threads) =>
      if s.worker.Idle? {
        CallKeepsInv(s, ep, Some(threads));
      }
    case Close(ep) =>
      if s.worker.Idle? && ep in s.server.contexts {
        CallKeepsInv(s, ep, None);
      } else if s.worker.Idle? {
        FinishKeepsInv(s, NO_CONNECTION);
      }
    case Request(ev) =>
      if s.worker.Idle? && (ev.Sending? || ev.Receiving?) {
        ServerKeepsInv(s, C.Checking(ev.ep));
        RequestKeepsInv(s.(server := B.Apply(s.server, C.Checking(ev.ep))), Requesting(ev));
      }
    case Work =>
      if s.worker.Busy? {
        WorkKeepsInv(s);
      } else if s.worker.Requesting? {
        ServerKeepsInv(s, s.worker.ev);
        RequestKeepsInv(s.(server := B.Apply(s.server, s.worker.ev)), Idle);
      }
    case Turn(e, i) =>
      if e < |s.lives| && i < |s.lives[e].threads| {
        TurnKeepsInv(s, e, i);
      }
    case Run(e, callback) =>
      if InLoop(s, e) {
        InLoopIsLive(s, e);
        match callback
        case Resolved(r) => ServerKeepsInv(s, C.Resolving(s.lives[e].endpoint, r));
        case ReadDone(r) => ServerKeepsInv(s, C.Reading(s.lives[e].endpoint, r));
        case CloseDone => CloseDoneKeepsInv(s, e);
      }
  }

  // ---------------------------------------------------------------- theorems over all runs

  function Exec(s: System, steps: seq<Step>): (t: System)
    requires Inv(s)
    ensures Inv(t)
  {
    if steps == [] then s else
    var before := Exec(s, steps[..|steps| - 1]);
    NextKeepsInv(before, steps[|steps| - 1]);
    Next(before, steps[|steps| - 1])
  }

  lemma {:induction false} ExecConcat(s: System, a: seq<Step>, b: seq<Step>)
    requires Inv(s)
    ensures Exec(s, a + b) == Exec(Exec(s, a), b)
  {
    if b == [] {
      assert a + b == a;
    } else {
      assert (a + b)[..|a + b| - 1] == a + b[..|b| - 1];
      ExecConcat(s, a, b[..|b| - 1]);
    }
  }

  /** In every run the exit signal of an epoch is set at most once; setting it a second time would
      throw. */
  lemma SignalAtMostOnce(steps: seq<Step>, e: nat)
    requires e < |Exec(Start, steps).lives|
    ensures Exec(Start, steps).lives[e].signals <= 1
  {
    assert LifeOk(Exec(Start, steps), e);
  }

  /** In every run a context that is gone from the map had its signal set, its listener stopped and
      each of its threads joined; destroying an unjoined thread would end the process. */
  lemma ErasedMeansJoined(steps: seq<Step>, e: nat)
    requires e < |Exec(Start, steps).server.logs| && !B.Live(Exec(Start, steps).server, e)
    ensures var s := Exec(Start, steps);
            && e < |s.lives| && s.lives[e].signals == 1 && s.lives[e].stopped
            && |s.lives[e].threads| == s.lives[e].planned
            && forall i :: 0 <= i < |s.lives[e].threads| ==> s.lives[e].threads[i].Joined?
  {
    assert LifeOk(Exec(Start, steps), e);
  }

  /** In every run no callback runs for a destroyed context, and after the erasure of an epoch no
      callback of it runs at all: whatever its threads are asked to do, nothing happens, for ever. */
  lemma NoCallbackAfterErasure(steps: seq<Step>, more: seq<Step>, e: nat, callback: Callback)
    requires e < |Exec(Start, steps).server.logs| && !B.Live(Exec(Start, steps).server, e)
    ensures var s, t := Exec(Start, steps), Exec(Start, steps + more);
            && t.strays == 0
            && e < |t.lives| == |t.server.logs| && !B.Live(t.server, e)
            && t.lives[e] == s.lives[e] && t.server.logs[e] == s.server.logs[e]
            && Next(t, Run(e, callback)) == t
  {
    ExecConcat(Start, steps, more);
    ErasedForEver(Exec(Start, steps), more, e);
    assert LifeOk(Exec(Start, steps + more), e);
  }

  lemma {:induction false} ErasedForEver(s: System, more: seq<Step>, e: nat)
    requires Inv(s) && e < |s.lives| && !B.Live(s.server, e)
    ensures var t := Exec(s, more);
            && e < |t.lives| == |t.server.logs| && !B.Live(t.server, e)
            && t.lives[e] == s.lives[e] && t.server.logs[e] == s.server.logs[e]
  {
    if more != [] {
      ErasedForEver(s, more[..|more| - 1], e);
      ErasedStays(Exec(s, more[..|more| - 1]), more[|more| - 1], e);
    }
  }

  lemma ErasedStays(s: System, step: Step, e: nat)
    requires Inv(s) && e < |s.lives| && !B.Live(s.server, e)
    ensures var t := Next(s, step);
            && e < |t.lives| == |t.server.logs| && !B.Live(t.server, e)
            && t.lives[e] == s.lives[e] && t.server.logs[e] == s.server.logs[e]
  {
    assert LifeOk(s, e);
    NextRefines(s, step);
    var events := EventsOf(s, step);
    if events != [] {
      B.EndpointIsolation(s.server, events[0]);
      assert events[0].ep in s.server.contexts ==> B.ContextOk(s.server, events[0].ep);
      B.ClosedStaysClosed(s.server, Next(s, step).server, events[0].ep, e);
    }
    if step.Work? && s.worker.Busy? && !s.worker.phase.Make? {
      AtWork(s);
    }
    NextKeepsInv(s, step);
  }

  /** `ALREADY_EXISTS` is never answered: the old context is always gone before the new one is made. */
  lemma OpenNeverRefused(steps: seq<Step>)
    ensures ALREADY_EXISTS !in Exec(Start, steps).codes
  {
  }

  // ---------------------------------------------------------------- the maps see one event at a time

  /** What a step does to the maps: closing happens at the erasure, opening when the new context is
      made, and a callback during the close is an ordinary callback before it. */
  function EventsOf(s: System, step: Step): (events: seq<C.Event>)
    requires WellFormed(s)
    ensures |events| <= 1
  {
    match step
    case Request(ev) => if s.worker.Idle? && (ev.Sending? || ev.Receiving?) then [C.Checking(ev.ep)] else []
    case Work =>
      if s.worker.Requesting? then [s.worker.ev]
      else if s.worker.Busy? && s.worker.phase.Erase? && s.worker.ep in s.server.contexts then [C.Closing(s.worker.ep)]
      else if s.worker.Busy? && s.worker.phase.Make? && s.worker.ep !in s.server.contexts && s.worker.reopen.Some?
      then [C.Opening(s.worker.ep)]
      else []
    case Run(e, Resolved(r)) =>
      if InLoop(s, e) && B.Live(s.server, e) then [C.Resolving(s.lives[e].endpoint, r)] else []
    case Run(e, ReadDone(r)) =>
      if InLoop(s, e) && B.Live(s.server, e) then [C.Reading(s.lives[e].endpoint, r)] else []
    case _ => []
  }

  lemma NextRefines(s: System, step: Step)
    requires Inv(s)
    ensures Next(s, step).server
            == if EventsOf(s, step) == [] then s.server else B.Apply(s.server, EventsOf(s, step)[0])
  {
  }

  function Trace(steps: seq<Step>): seq<C.Event> {
    if steps == [] then [] else
    var before := steps[..|steps| - 1];
    Trace(before) + EventsOf(Exec(Start, before), steps[|steps| - 1])
  }

  /** Every run of steps is, for the maps and logs, a run of whole calls and callbacks; so everything
      proved about `Broker.Run` holds for it, with callbacks in the middle of a close included. */
  lemma {:induction false} StepsRefineCalls(steps: seq<Step>)
    ensures Exec(Start, steps).server == B.Run(Trace(steps))
  {
    if steps != [] {
      var before, step := steps[..|steps| - 1], steps[|steps| - 1];
      StepsRefineCalls(before);
      NextRefines(Exec(Start, before), step);
      var events := EventsOf(Exec(Start, before), step);
      if events == [] {
        assert Trace(before) + events == Trace(before);
      } else {
        assert events == [events[0]];
        B.RunAppend(Trace(before), events[0]);
      }
    }
  }

  /** For example: a message that arrives while its connection is being closed is in the record of
      that epoch, and is handed out, held, lost or stranded with the others. */
  lemma ArrivalsAccountedFor(steps: seq<Step>, e: nat)
    requires e < |Exec(Start, steps).server.logs|
    ensures var s := Exec(Start, steps).server;
            s.logs[e].arrived == s.logs[e].handed + B.InboxOf(s, e) + s.logs[e].lost + s.logs[e].stranded
  {
    StepsRefineCalls(steps);
    B.InboundConservation(Trace(steps), e);
  }

  // ---------------------------------------------------------------- what is outstanding

  /** A resolve ends by failing, or by connecting, which starts a read; after a refused connection it is
      started again. A read ends by failing; otherwise the next one is started. */
  function Completed(ops: Ops, callback: Callback): Ops {
    match callback
    case Resolved(ResolveFailed) => ops.(resolve := false)
    case Resolved(Connected) => if ops.resolve then ops.(resolve := false, read := true) else ops
    case ReadDone(ReadFailed) => ops.(read := false)
    case CloseDone => ops.(close := false)
    case _ => ops
  }

  lemma OpsOfResolve(c: C.Cell, r: C.Resolution, life: Life)
    requires C.Good(c)
    ensures OpsOf(C.OnResolve(c, r).ctx, life) == Completed(OpsOf(c.ctx, life), Resolved(r))
  {
  }

  lemma OpsOfRead(c: C.Cell, r: C.Read, life: Life)
    requires C.Good(c)
    ensures OpsOf(C.OnRead(c, r).ctx, life) == Completed(OpsOf(c.ctx, life), ReadDone(r))
  {
  }

  lemma OpsOfRequest(c: C.Cell, ev: C.Event, life: Life)
    requires C.Good(c) && (ev.Sending? || ev.Receiving? || ev.Checking?)
    ensures OpsOf(C.Step(c, ev).ctx, life) == OpsOf(c.ctx, life)
  {
    var m := C.WithSession(c);
    assert OpsOf(m.ctx, life) == OpsOf(c.ctx, life);
    match ev
    case Sending(_, data, open, ok) =>
      assert C.Posted(m, data, open, ok).ctx == m.ctx;
    case Receiving(_, open, oks) =>
      var f := C.FlushPending(c, open, oks);
      assert f.ctx == c.ctx || f.ctx == m.ctx;
      assert OpsOf(C.WithSession(f).ctx, life) == OpsOf(f.ctx, life);
    case Checking(_) =>
  }

  /** The operations of the context of epoch `e`. */
  function OpsAt(s: System, e: nat): Ops
    requires e < |s.lives| == |s.server.logs| && B.Live(s.server, e)
  {
    OpsOf(s.server.contexts[s.server.logs[e].endpoint], s.lives[e])
  }

  /** What an event does to the operations of a live epoch that it does not end. */
  function OpsAfterEvent(ops: Ops, ev: C.Event): Ops {
    match ev
    case Resolving(_, r) => Completed(ops, Resolved(r))
    case Reading(_, r) => Completed(ops, ReadDone(r))
    case _ => ops
  }

  lemma OpsThrough(s: System, ev: C.Event, e: nat)
    requires Inv(s) && e < |s.lives| && B.Live(s.server, e)
    ensures var t, ep := B.Apply(s.server, ev), s.server.logs[e].endpoint;
            && e < |t.logs| && t.logs[e].endpoint == ep
            && (ev.ep == ep && C.Ends(ev) <==> !B.Live(t, e))
            && (B.Live(t, e) ==>
                  OpsOf(t.contexts[ep], s.lives[e])
                  == if ev.ep == ep then OpsAfterEvent(OpsAt(s, e), ev) else OpsAt(s, e))
  {
    B.LiveThrough(s.server, ev, e);
    var ep := s.server.logs[e].endpoint;
    if ev.ep == ep {
      var c := B.CellAt(s.server, ep);
      match ev
      case Resolving(_, r) => OpsOfResolve(c, r, s.lives[e]);
      case Reading(_, r) => OpsOfRead(c, r, s.lives[e]);
      case Opening(_) =>
      case Closing(_) =>
      case _ => OpsOfRequest(c, ev, s.lives[e]);
    }
  }

  /** A close becomes outstanding only where something else is. */
  lemma ClosingThrough(s: System, step: Step, e: nat)
    requires Inv(s) && e < |s.lives| && B.Live(s.server, e) && OpsAt(s, e) == NoOps
    ensures e < |Next(s, step).lives| && !Next(s, step).lives[e].closing
  {
    if step.Work? && s.worker.Busy? && !s.worker.phase.Make? {
      AtWork(s);
      SameEpoch(s, e, s.server.contexts[s.worker.ep].epoch);
    }
  }

  /** What is quiet stays so. */
  lemma QuietStays(s: System, step: Step, e: nat)
    requires Inv(s) && e < |s.lives| && Quiet(s, e)
    ensures Inv(Next(s, step)) && e < |Next(s, step).lives| && Quiet(Next(s, step), e)
  {
    NextKeepsInv(s, step);
    NextRefines(s, step);
    if !B.Live(s.server, e) {
      ErasedStays(s, step, e);
    } else {
      ClosingThrough(s, step, e);
      var events := EventsOf(s, step);
      if events != [] {
        OpsThrough(s, events[0], e);
      }
    }
  }

  // ---------------------------------------------------------------- when calls come to an end

  predicate InClose(worker: Worker) {
    worker.Busy? && (worker.phase.Signal? || worker.phase.Stop? || worker.phase.Join?)
  }

  /** The worker is closing the context of epoch `e`, which has a thread in the event loop and an
      operation outstanding. */
  ghost predicate BlockedOn(s: System, e: nat)
    requires Inv(s)
  {
    && InClose(s.worker) && InLoop(s, e) && B.Live(s.server, e) && s.worker.ep == s.lives[e].endpoint
    && OpsAt(s, e) != NoOps
  }

  /** Two live epochs have different endpoints. */
  lemma SameEpoch(s: System, e: nat, f: nat)
    requires Inv(s) && e < |s.lives| && f < |s.lives| && B.Live(s.server, e) && B.Live(s.server, f)
    ensures s.lives[e].endpoint == s.lives[f].endpoint ==> e == f
    ensures s.lives[e].endpoint == s.server.logs[e].endpoint
  {
    assert LifeOk(s, e) && LifeOk(s, f);
  }

  lemma StillRunning(threads: seq<Thread>, i: nat, thread: Thread)
    requires Running in threads && i < |threads| && threads[i] != Running
    ensures Running in threads[i := thread]
  {
    var k :| 0 <= k < |threads| && threads[k] == Running;
    assert threads[i := thread][k] == Running;
  }

  /** From `s` to `t` the closing of epoch `e` may have gone on, but has not ended. */
  ghost predicate StillClosing(s: System, t: System, e: nat)
    requires s.worker.Busy?
  {
    && InClose(t.worker) && t.worker.ep == s.worker.ep && t.server.logs == s.server.logs
    && t.server.contexts == s.server.contexts && |t.lives| == |s.lives| && InLoop(t, e)
    && e < |s.lives| && t.lives[e].endpoint == s.lives[e].endpoint
  }

  lemma BlockedWork(s: System, e: nat)
    requires Inv(s) && BlockedOn(s, e)
    ensures var t := WorkOn(s);
            && StillClosing(s, t, e) && (s.worker.phase.Join? ==> t.worker.phase.Join?)
            && (t.lives[e].closing == s.lives[e].closing
                || (s.worker.phase.Stop? && t.lives[e].closing == s.server.contexts[s.worker.ep].session.Real?))
  {
    AtWork(s);
    SameEpoch(s, e, s.server.contexts[s.worker.ep].epoch);
    var life := s.lives[e];
    if s.worker.phase.Join? {
      var k := s.worker.phase.k;
      if k < |life.threads| && life.threads[k].Left? {
        StillRunning(life.threads, k, Joined);
      }
    }
  }

  lemma BlockedTurn(s: System, e: nat, f: nat, i: nat)
    requires Inv(s) && BlockedOn(s, e) && f < |s.lives| && i < |s.lives[f].threads|
    ensures var t := TurnOf(s, f, i);
            StillClosing(s, t, e) && t.worker == s.worker && t.lives[e].closing == s.lives[e].closing
  {
    if e == f && !s.lives[e].threads[i].Running? {
      StillRunning(s.lives[e].threads, i, if s.lives[e].signals > 0 then Left else Running);
    }
  }

  /** The operations of epoch `e` after a callback of epoch `f`. */
  lemma BlockedCall(s: System, e: nat, f: nat, callback: Callback)
    requires Inv(s) && BlockedOn(s, e) && InLoop(s, f)
    ensures var t := Call(s, f, callback);
            && t.worker == s.worker && Inv(t) && InLoop(t, e) && B.Live(t.server, e)
            && t.lives[e].endpoint == s.lives[e].endpoint
            && OpsAt(t, e) == if e == f then Completed(OpsAt(s, e), callback) else OpsAt(s, e)
  {
    InLoopIsLive(s, f);
    SameEpoch(s, e, f);
    NextKeepsInv(s, Run(f, callback));
    match callback
    case Resolved(r) => OpsThrough(s, C.Resolving(s.lives[f].endpoint, r), e);
    case ReadDone(r) => OpsThrough(s, C.Reading(s.lives[f].endpoint, r), e);
    case CloseDone =>
  }

  /** The operations of the blocking epoch `e` after a step of the system, once its listener is stopped. */
  function OpsAfter(ops: Ops, e: nat, step: Step): Ops {
    if step.Run? && step.e == e then Completed(ops, step.callback) else ops
  }

  function OpsAfterAll(ops: Ops, e: nat, steps: seq<Step>): Ops {
    if steps == [] then ops
    else OpsAfter(OpsAfterAll(ops, e, steps[..|steps| - 1]), e, steps[|steps| - 1])
  }

  /** A blocked worker stays so as long as an operation is outstanding. */
  lemma BlockedStep(s: System, step: Step, e: nat)
    requires Inv(s) && BlockedOn(s, e)
    ensures Inv(Next(s, step))
    ensures var t := Next(s, step);
            && e < |t.lives| && B.Live(t.server, e) && (BlockedOn(t, e) <==> OpsAt(t, e) != NoOps)
            && var ops := OpsAfter(OpsAt(s, e), e, step);
               && OpsAt(t, e).resolve == ops.resolve && OpsAt(t, e).read == ops.read
               && (ops.close ==> OpsAt(t, e).close)
               && (s.worker.phase.Join? ==> t.worker.Busy? && t.worker.phase.Join? && OpsAt(t, e) == ops)
  {
    NextKeepsInv(s, step);
    match step
    case Work =>
      BlockedWork(s, e);
      assert LifeOk(s, e);
    case Turn(f, i) =>
      if f < |s.lives| && i < |s.lives[f].threads| {
        BlockedTurn(s, e, f, i);
      }
    case Run(f, callback) =>
      if InLoop(s, f) {
        BlockedCall(s, e, f, callback);
      }
    case _ =>
  }

  /** A closing worker whose listener is stopped stays blocked, whatever happens, exactly as long as an
      operation of the context is outstanding: until a resolve has ended other than by a refused
      connection, a read that was or has become outstanding has failed, and the asynchronous close is
      done. */
  lemma {:induction false} BlockedIff(s: System, e: nat, more: seq<Step>)
    requires Inv(s) && BlockedOn(s, e) && s.worker.phase.Join?
    ensures var t, ops := Exec(s, more), OpsAfterAll(OpsAt(s, e), e, more);
            && (BlockedOn(t, e) <==> ops != NoOps)
            && e < |t.lives|
            && if ops == NoOps then Quiet(t, e) else t.worker.phase.Join? && OpsAt(t, e) == ops
  {
    if more != [] {
      var before, step := more[..|more| - 1], more[|more| - 1];
      BlockedIff(s, e, before);
      var m := Exec(s, before);
      if BlockedOn(m, e) {
        BlockedStep(m, step, e);
      } else {
        QuietStays(m, step, e);
        NoneCompletes(OpsAfterAll(OpsAt(s, e), e, before), e, step);
      }
    }
  }

  lemma NoneCompletes(ops: Ops, e: nat, step: Step)
    requires ops == NoOps
    ensures OpsAfter(ops, e, step) == NoOps
  {
  }

  datatype Op = Resolve | Read | Shutdown

  predicate Has(ops: Ops, op: Op) {
    match op
    case Resolve => ops.resolve
    case Read => ops.read
    case Shutdown => ops.close
  }

  /** The step does not end the operation: the most it does to a resolve is to have the connection
      refused, and to a read to deliver data. */
  predicate Spares(step: Step, op: Op) {
    step.Run? ==>
      match op
      case Resolve => step.callback.Resolved? ==> step.callback.resolution.ConnectFailed?
      case Read => step.callback.ReadDone? ==> step.callback.read.Data?
      case Shutdown => !step.callback.CloseDone?
  }

  lemma {:induction false} StaysOutstanding(s: System, e: nat, more: seq<Step>, op: Op)
    requires Inv(s) && BlockedOn(s, e) && Has(OpsAt(s, e), op)
    requires forall k :: 0 <= k < |more| ==> Spares(more[k], op)
    ensures var t := Exec(s, more); BlockedOn(t, e) && Has(OpsAt(t, e), op)
  {
    if more != [] {
      StaysOutstanding(s, e, more[..|more| - 1], op);
      SparedStep(Exec(s, more[..|more| - 1]), more[|more| - 1], e, op);
    }
  }

  lemma SparedStep(s: System, step: Step, e: nat, op: Op)
    requires Inv(s) && BlockedOn(s, e) && Has(OpsAt(s, e), op) && Spares(step, op)
    ensures Inv(Next(s, step)) && BlockedOn(Next(s, step), e) && Has(OpsAt(Next(s, step), e), op)
  {
    BlockedStep(s, step, e);
    assert Has(OpsAfter(OpsAt(s, e), e, step), op);
  }

  /** A close can hang for ever, also before its listener is stopped. As long as the peer refuses every
      connection, or keeps the connection it has, or does not answer the close, a close that waits for
      the operation concerned has not ended, whatever else happens and however often. */
  lemma CloseHangs(steps: seq<Step>, more: seq<Step>, e: nat, op: Op)
    requires BlockedOn(Exec(Start, steps), e) && Has(OpsAt(Exec(Start, steps), e), op)
    requires forall k :: 0 <= k < |more| ==> Spares(more[k], op)
    ensures BlockedOn(Exec(Start, steps + more), e)
  {
    ExecConcat(Start, steps, more);
    StaysOutstanding(Exec(Start, steps), e, more, op);
  }

  /** The worker is blocked on the context it is closing. */
  ghost predicate Blocked(s: System)
    requires Inv(s)
  {
    s.worker.Busy? && s.worker.ep in s.server.contexts && BlockedOn(s, s.server.contexts[s.worker.ep].epoch)
  }

  /** What the worker, and the threads it waits for, do by themselves. */
  predicate Progresses(step: Step) {
    step.Work? || step.Turn?
  }

  predicate AllProgress(steps: seq<Step>) {
    forall k :: 0 <= k < |steps| ==> Progresses(steps[k])
  }

  function PhaseRank(worker: Worker): nat {
    match worker
    case Idle => 0
    case Requesting(_) => 1
    case Busy(_, phase, _) =>
      match phase
      case Signal => 6
      case Stop => 5
      case Join(_) => 4
      case Erase => 3
      case Make => 2
      case Spawn => 1
  }

  function TurnsLeft(thread: Thread): nat {
    match thread
    case Running => 2
    case Testing => 1
    case _ => 0
  }

  /** How much the loop the worker is in still has to do. */
  ghost function Rounds(s: System): nat
    requires Inv(s)
  {
    if !s.worker.Busy? || s.worker.phase.Make? then 0 else
    AtWork(s);
    var life := s.lives[s.server.contexts[s.worker.ep].epoch];
    match s.worker.phase
    case Join(k) => 3 * (|life.threads| - k) + if k < |life.threads| then TurnsLeft(life.threads[k]) else 0
    case Spawn => life.planned - |life.threads|
    case _ => 0
  }

  /** The worker waits for a thread that has not left yet. */
  predicate AwaitsThread(s: System) {
    && s.worker.Busy? && s.worker.phase.Join? && s.worker.ep in s.server.contexts
    && var e := s.server.contexts[s.worker.ep].epoch;
       e < |s.lives| && s.worker.phase.k < |s.lives[e].threads| && !s.lives[e].threads[s.worker.phase.k].Left?
  }

  /** The next thing that has to happen: the awaited thread goes on, or the worker does. */
  function Onward(s: System): Step {
    if AwaitsThread(s) then Turn(s.server.contexts[s.worker.ep].epoch, s.worker.phase.k) else Work
  }

  lemma RankFalls(s: System)
    requires Inv(s) && !s.worker.Idle? && !Blocked(s) && Inv(Next(s, Onward(s)))
    ensures var t := Next(s, Onward(s));
            PhaseRank(t.worker) < PhaseRank(s.worker)
            || (PhaseRank(t.worker) == PhaseRank(s.worker) && Rounds(t) < Rounds(s))
  {
    if s.worker.Busy? && !s.worker.phase.Make? {
      AtWork(s);
      assert LifeOk(s, s.server.contexts[s.worker.ep].epoch);
    }
  }

  lemma StaysUnblocked(s: System)
    requires Inv(s) && !s.worker.Idle? && !Blocked(s) && Inv(Next(s, Onward(s)))
    ensures !Blocked(Next(s, Onward(s)))
  {
    if InClose(s.worker) {
      AtWork(s);
      var e := s.server.contexts[s.worker.ep].epoch;
      assert LifeOk(s, e);
      if Quiet(s, e) {
        QuietStays(s, Onward(s), e);
      }
    }
  }

  lemma {:induction false} WorkerFinishes(s: System) returns (more: seq<Step>)
    requires Inv(s) && !Blocked(s)
    ensures AllProgress(more) && Exec(s, more).worker.Idle?
    decreases PhaseRank(s.worker), Rounds(s)
  {
    more := [];
    if !s.worker.Idle? {
      var step := Onward(s);
      NextKeepsInv(s, step);
      RankFalls(s);
      StaysUnblocked(s);
      var rest := WorkerFinishes(Next(s, step));
      more := [step] + rest;
      ExecConcat(s, [step], rest);
      assert [step][..0] == [];
    }
  }

  /** In every run, the worker and the threads can bring the call in progress to its end by themselves
      exactly when it is not a close that waits for an outstanding operation. */
  lemma CallsCompleteIff(steps: seq<Step>)
    ensures (exists more :: AllProgress(more) && Exec(Start, steps + more).worker.Idle?)
            <==> !Blocked(Exec(Start, steps))
  {
    var s := Exec(Start, steps);
    if !Blocked(s) {
      var more := WorkerFinishes(s);
      ExecConcat(Start, steps, more);
    } else {
      var e := s.server.contexts[s.worker.ep].epoch;
      var op := if OpsAt(s, e).resolve then Resolve else if OpsAt(s, e).read then Read else Shutdown;
      forall more | AllProgress(more)
        ensures !Exec(Start, steps + more).worker.Idle?
      {
        CloseHangs(steps, more, e, op);
      }
    }
  }

  /** There are such closes: one after the thread has entered the event loop and before it has got
      through the resolve and the connection attempt that follows. */
  lemma ClosedWhileResolving(ep: C.Endpoint)
    ensures var s := Exec(Start, [Open(ep, 1), Work, Work, Work, Turn(0, 0), Close(ep)]);
            BlockedOn(s, 0) && OpsAt(s, 0) == Ops(true, false, false)
  {
    var first := [Open(ep, 1), Work, Work, Work];
    OpenedOnce(ep);
    var s := Exec(Start, first);
    ExecConcat(Start, first, [Turn(0, 0)]);
    assert [Turn(0, 0)][..0] == [];
    var t := Exec(Start, first + [Turn(0, 0)]);
    assert t == SetThread(s, 0, 0, Running) && t.lives[0].threads[0] == Running;
    assert LifeOk(t, 0) && B.ContextOk(t.server, ep);
    var steps := [Open(ep, 1), Work, Work, Work, Turn(0, 0), Close(ep)];
    assert steps[..5] == first + [Turn(0, 0)];
  }

  lemma OpenedOnce(ep: C.Endpoint)
    ensures var s := Exec(Start, [Open(ep, 1), Work, Work, Work]);
            && s.worker == Idle && s.lives == [NewLife(ep, 1).(threads := [Testing])]
            && s.server.contexts == map[ep := C.NewContext(0)]
  {
    var steps := [Open(ep, 1), Work, Work, Work];
    assert steps[..1][..0] == [] && steps[..4] == steps;
    assert forall k {:trigger steps[..k]} :: 0 < k <= 4 ==> steps[..k][..k - 1] == steps[..k - 1];
    assert Exec(Start, steps[..1]) == Next(Exec(Start, steps[..1][..0]), steps[0]);
    var s2 := Exec(Start, steps[..2]);
    assert s2.server.contexts == map[ep := C.NewContext(0)] && s2.lives == [NewLife(ep, 1)];
    Spawned(s2, Exec(Start, steps[..3]));
    assert s2.lives[0].threads + [Testing] == [Testing];
  }

  /** One round of the loop that starts the threads of a first context. */
  lemma Spawned(s: System, t: System)
    requires Inv(s) && t == Next(s, Work) && s.worker.Busy? && s.worker.phase.Spawn?
    requires s.worker.ep in s.server.contexts && s.server.contexts[s.worker.ep].epoch == 0
    requires |s.lives| == 1 && |s.lives[0].threads| < s.lives[0].planned
    ensures t.worker == s.worker && t.server == s.server
    ensures t.lives == [s.lives[0].(threads := s.lives[0].threads + [Testing])]
  {
  }
}
