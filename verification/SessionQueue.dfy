/** The inbound queue of one websocket session, with `GetMessage` taken apart into its unlocked
    emptiness check, lock, front/pop and unlock, and `OnRead` into lock, push and unlock.
    Callers of `GetMessage` and the reader interleave freely. */
module SessionQueue {
  import opened Common
  import C = Connection

  /** The one outstanding read of a session and its completion handler. */
  datatype Reader =
    | Reading                  // async_read is outstanding
    | Completed(data: string)  // OnRead runs with a non-empty buffer
    | Pushing(data: string)    // holds the lock, about to push
    | Pushed                   // pushed, still holds the lock
    | Dead                     // a read failed: OnRead returned without re-arming

  /** One caller of `GetMessage`. */
  datatype Consumer =
    | Idle                 // about to call GetMessage
    | SeenNonEmpty         // the unlocked check found the queue non-empty
    | Popping              // holds the lock, about to take the front
    | Holding(msg: string) // took a message, still holds the lock

  datatype Owner = ByReader | ByConsumer(i: nat)

  /** `pushed` and `replies` record what was enqueued and what the calls returned;
      `emptyChecks` counts the calls that returned at the emptiness check;
      `poppedEmpty` records that front/pop ran on an empty queue. */
  datatype State = State(
    queue: seq<string>,
    lock: Option<Owner>,
    reader: Reader,
    consumers: seq<Consumer>,
    pushed: seq<string>,
    replies: seq<string>,
    emptyChecks: nat,
    poppedEmpty: bool)

  datatype Event =
    | ReadCompletes(data: string)
    | ReadFails
    | ReaderMoves
    | ConsumerMoves(i: nat)

  function Initial(consumers: nat): State {
    State([], None, Reading, seq(consumers, _ => Idle), [], [], 0, false)
  }

  function Step(s: State, e: Event): (t: State)
    ensures |t.consumers| == |s.consumers|
  {
    match e
    case ReadCompletes(data) =>
      if s.reader.Reading? && data != "" then s.(reader := Completed(data)) else s
    case ReadFails =>
      if s.reader.Reading? then s.(reader := Dead) else s
    case ReaderMoves =>
      (match s.reader
       case Completed(data) => if s.lock.None? then s.(lock := Some(ByReader), reader := Pushing(data)) else s
       case Pushing(data) => s.(queue := s.queue + [data], pushed := s.pushed + [data], reader := Pushed)
       case Pushed => s.(lock := None, reader := Reading)
       case Reading => s
       case Dead => s)
    case ConsumerMoves(i) =>
      if i >= |s.consumers| then s else
      match s.consumers[i]
      case Idle =>
        if s.queue == [] then s.(replies := s.replies + [""], emptyChecks := s.emptyChecks + 1)
        else s.(consumers := s.consumers[i := SeenNonEmpty])
      case SeenNonEmpty =>
        if s.lock.None? then s.(lock := Some(ByConsumer(i)), consumers := s.consumers[i := Popping]) else s
      case Popping =>
        if s.queue == [] then s.(poppedEmpty := true, consumers := s.consumers[i := Holding("")])
        else s.(queue := s.queue[1..], consumers := s.consumers[i := Holding(s.queue[0])])
      case Holding(msg) =>
        s.(lock := None, replies := s.replies + [msg], consumers := s.consumers[i := Idle])
  }

  function Run(s: State, events: seq<Event>): (t: State)
    ensures |t.consumers| == |s.consumers|
  {
    if events == [] then s else Step(Run(s, events[..|events| - 1]), events[|events| - 1])
  }

  // ---------------------------------------------------------------- any number of consumers

  /** The mutex is held by whoever is in a locked section. */
  ghost predicate LockInv(s: State) {
    && ((s.reader.Pushing? || s.reader.Pushed?) <==> s.lock == Some(ByReader))
    && forall i :: 0 <= i < |s.consumers| ==>
         ((s.consumers[i].Popping? || s.consumers[i].Holding?) <==> s.lock == Some(ByConsumer(i)))
  }

  lemma StepKeepsLock(s: State, e: Event)
    requires LockInv(s)
    ensures LockInv(Step(s, e))
  {
  }

  // ---------------------------------------------------------------- one consumer

  function NonEmpty(replies: seq<string>): seq<string> {
    if replies == [] then []
    else NonEmpty(replies[..|replies| - 1])
         + if replies[|replies| - 1] == "" then [] else [replies[|replies| - 1]]
  }

  function InHand(c: Consumer): seq<string> {
    if c.Holding? then [c.msg] else []
  }

  ghost predicate Inv(s: State) {
    && |s.consumers| == 1
    && LockInv(s)
    && !s.poppedEmpty
    && (s.reader.Completed? || s.reader.Pushing? ==> s.reader.data != "")
    && (forall k :: 0 <= k < |s.pushed| ==> s.pushed[k] != "")
    && (s.consumers[0].SeenNonEmpty? || s.consumers[0].Popping? ==> s.queue != [])
    && s.pushed == NonEmpty(s.replies) + InHand(s.consumers[0]) + s.queue
    && |s.replies| == |NonEmpty(s.replies)| + s.emptyChecks
  }

  lemma NonEmptyAppend(replies: seq<string>, m: string)
    ensures NonEmpty(replies + [m]) == NonEmpty(replies) + if m == "" then [] else [m]
  {
  }

  lemma ReaderKeepsInv(s: State, e: Event)
    requires Inv(s) && !e.ConsumerMoves?
    ensures Inv(Step(s, e))
  {
  }

  lemma PopKeepsInv(s: State)
    requires Inv(s) && s.consumers[0].Popping?
    ensures Inv(Step(s, ConsumerMoves(0)))
  {
  }

  lemma ReplyKeepsInv(s: State)
    requires Inv(s) && s.consumers[0].Holding?
    ensures Inv(Step(s, ConsumerMoves(0)))
  {
    StepKeepsLock(s, ConsumerMoves(0));
    var msg := s.consumers[0].msg;
    assert msg == s.pushed[|NonEmpty(s.replies)|];
    NonEmptyAppend(s.replies, msg);
    assert NonEmpty(s.replies) + [msg] + s.queue == (NonEmpty(s.replies) + [msg]) + [] + s.queue;
  }

  lemma ConsumerKeepsInv(s: State, i: nat)
    requires Inv(s)
    ensures Inv(Step(s, ConsumerMoves(i)))
  {
    if i == 0 && s.consumers[0].Popping? {
      PopKeepsInv(s);
    } else if i == 0 && s.consumers[0].Holding? {
      ReplyKeepsInv(s);
    } else {
      StepKeepsLock(s, ConsumerMoves(i));
      NonEmptyAppend(s.replies, "");
    }
  }

  lemma StepKeepsInv(s: State, e: Event)
    requires Inv(s)
    ensures Inv(Step(s, e))
  {
    if e.ConsumerMoves? {
      ConsumerKeepsInv(s, e.i);
    } else {
      ReaderKeepsInv(s, e);
    }
  }

  lemma {:induction false} RunKeepsInv(s: State, events: seq<Event>)
    requires Inv(s)
    ensures Inv(Run(s, events))
  {
    if events != [] {
      RunKeepsInv(s, events[..|events| - 1]);
      StepKeepsInv(Run(s, events[..|events| - 1]), events[|events| - 1]);
    }
  }

  /** With one caller of `GetMessage` and one outstanding read, in every interleaving: front/pop
      never runs on an empty queue; the messages returned, the one in hand and those queued are
      exactly the enqueued ones in order; and the calls that return an empty string are exactly
      those that found the queue empty. */
  lemma OneConsumerDeliversInOrder(events: seq<Event>)
    ensures var t := Run(Initial(1), events);
            && !t.poppedEmpty
            && t.pushed == NonEmpty(t.replies) + InHand(t.consumers[0]) + t.queue
            && |t.replies| - |NonEmpty(t.replies)| == t.emptyChecks
  {
    RunKeepsInv(Initial(1), events);
  }

  // ---------------------------------------------------------------- atomic operations

  /** The two operations as single steps, as `Connection` has them. */
  datatype Act = Push(data: string) | Take

  datatype Atomic = Atomic(queue: seq<string>, pushed: seq<string>, replies: seq<string>)

  function Perform(a: Atomic, act: Act): Atomic {
    match act
    case Push(data) => a.(queue := a.queue + [data], pushed := a.pushed + [data])
    case Take => a.(queue := C.RestOf(a.queue), replies := a.replies + [C.FrontOf(a.queue)])
  }

  function PerformAll(acts: seq<Act>): Atomic {
    if acts == [] then Atomic([], [], [])
    else Perform(PerformAll(acts[..|acts| - 1]), acts[|acts| - 1])
  }

  lemma PerformAppend(acts: seq<Act>, act: Act)
    ensures PerformAll(acts + [act]) == Perform(PerformAll(acts), act)
  {
  }

  /** The moment at which a step amounts to a whole operation: the push itself; for a call of
      `GetMessage` the check that finds nothing, or the pop. */
  function ActsOf(s: State, e: Event): (acts: seq<Act>)
    ensures |acts| <= 1
  {
    match e
    case ReaderMoves => if s.reader.Pushing? then [Push(s.reader.data)] else []
    case ConsumerMoves(i) =>
      if i < |s.consumers| && (s.consumers[i].Popping? || (s.consumers[i].Idle? && s.queue == [])) then [Take] else []
    case _ => []
  }

  function ActsOfRun(events: seq<Event>): seq<Act> {
    if events == [] then [] else
    var before := events[..|events| - 1];
    ActsOfRun(before) + ActsOf(Run(Initial(1), before), events[|events| - 1])
  }

  /** The atomic queue that a state of the only consumer stands for. */
  function Abstract(s: State): Atomic
    requires |s.consumers| == 1
  {
    Atomic(s.queue, s.pushed, s.replies + InHand(s.consumers[0]))
  }

  lemma StepIsActs(s: State, e: Event)
    requires Inv(s)
    ensures Abstract(Step(s, e)) == if ActsOf(s, e) == [] then Abstract(s) else Perform(Abstract(s), ActsOf(s, e)[0])
  {
    if e.ConsumerMoves? && e.i == 0 && s.consumers[0].Idle? && s.queue == [] {
      assert s.replies + [""] + [] == s.replies + [] + [""];
    } else if e.ConsumerMoves? && e.i == 0 && s.consumers[0].Popping? {
      assert s.replies + [s.queue[0]] == s.replies + [] + [s.queue[0]];
    } else if e.ConsumerMoves? && e.i == 0 && s.consumers[0].Holding? {
      var msg := s.consumers[0].msg;
      assert s.replies + [msg] + [] == s.replies + [msg];
    }
  }

  /** With one caller the split steps are indistinguishable from atomic ones: in every interleaving the
      queue, what was pushed, and the replies, with that of a call that is about to return, are those
      of a run of whole operations, each performed within the call it belongs to. */
  lemma {:induction false} OneConsumerIsAtomic(events: seq<Event>)
    ensures var t := Run(Initial(1), events);
            PerformAll(ActsOfRun(events)) == Atomic(t.queue, t.pushed, t.replies + InHand(t.consumers[0]))
  {
    if events != [] {
      var before, e := events[..|events| - 1], events[|events| - 1];
      var s := Run(Initial(1), before);
      OneConsumerIsAtomic(before);
      RunKeepsInv(Initial(1), before);
      StepIsActs(s, e);
      var acts := ActsOf(s, e);
      if acts == [] {
        assert ActsOfRun(before) + acts == ActsOfRun(before);
      } else {
        assert acts == [acts[0]];
        PerformAppend(ActsOfRun(before), acts[0]);
      }
    }
  }

  /** These are the operations of a connection on the inbox of its session. */
  lemma ActsOfConnection(c: C.Cell, data: string, a: Atomic)
    requires a.queue == c.ctx.inbox && c.ctx.session.Real? && !c.ctx.seenNone && c.ctx.reading && data != ""
    ensures var (t, msg) := C.NextMessage(c);
            var b := Perform(a, Take);
            t.ctx.inbox == b.queue && b.replies == a.replies + [msg]
    ensures C.OnRead(c, C.Data(data)).ctx.inbox == Perform(a, Push(data)).queue
  {
  }

  /** A second caller can pass the unlocked check before the first one takes the last message. */
  lemma TwoConsumersPopEmpty(n: nat)
    requires n >= 2
    ensures exists events :: Run(Initial(n), events).poppedEmpty
  {
    var s0 := Initial(n);
    var s4 := s0.(queue := ["m"], pushed := ["m"]);
    var es := [ReadCompletes("m"), ReaderMoves, ReaderMoves, ReaderMoves,
               ConsumerMoves(0), ConsumerMoves(1), ConsumerMoves(0), ConsumerMoves(0), ConsumerMoves(0),
               ConsumerMoves(1), ConsumerMoves(1)];
    var s := s0;
    var k := 0;
    while k < 4
      invariant 0 <= k <= 4 && s == Run(s0, es[..k])
      invariant k == 0 ==> s == s0
      invariant k == 1 ==> s == s0.(reader := Completed("m"))
      invariant k == 2 ==> s == s0.(reader := Pushing("m"), lock := Some(ByReader))
      invariant k == 3 ==> s == s4.(reader := Pushed, lock := Some(ByReader))
      invariant k == 4 ==> s == s4
    {
      assert es[..k + 1][..k] == es[..k];
      s, k := Step(s, es[k]), k + 1;
    }
    PassTheCheckTwice(s, n, es);
  }

  lemma PassTheCheckTwice(s: State, n: nat, es: seq<Event>)
    requires n >= 2 && |es| == 11 && s == Run(Initial(n), es[..4])
    requires s == Initial(n).(queue := ["m"], pushed := ["m"])
    requires es[4..] == [ConsumerMoves(0), ConsumerMoves(1), ConsumerMoves(0), ConsumerMoves(0), ConsumerMoves(0),
                         ConsumerMoves(1), ConsumerMoves(1)]
    ensures Run(Initial(n), es).poppedEmpty
  {
    var t, k := s, 4;
    while k < 11
      invariant 4 <= k <= 11 && t == Run(Initial(n), es[..k]) && |t.consumers| == n
      invariant k <= 7 ==> t.queue == ["m"]
      invariant k > 7 ==> t.queue == []
      invariant t.lock == if k == 7 || k == 8 then Some(ByConsumer(0))
                          else if k >= 10 then Some(ByConsumer(1)) else None
      invariant k == 4 ==> t.consumers[0] == Idle
      invariant k == 5 || k == 6 ==> t.consumers[0] == SeenNonEmpty
      invariant k == 7 ==> t.consumers[0] == Popping
      invariant k == 8 ==> t.consumers[0].Holding?
      invariant k <= 5 ==> t.consumers[1] == Idle
      invariant 6 <= k <= 9 ==> t.consumers[1] == SeenNonEmpty
      invariant k == 10 ==> t.consumers[1] == Popping
      invariant k == 11 ==> t.poppedEmpty
    {
      assert es[..k + 1][..k] == es[..k];
      assert es[k] == es[4..][k - 4];
      t, k := Step(t, es[k]), k + 1;
    }
    assert es[..11] == es;
  }

  lemma {:induction false} NoConsumerNoPop(events: seq<Event>)
    ensures !Run(Initial(0), events).poppedEmpty
  {
    if events != [] {
      NoConsumerNoPop(events[..|events| - 1]);
    }
  }

  /** The unlocked check is safe exactly when at most one thread calls `GetMessage`. */
  lemma SafeIffOneConsumer(n: nat)
    ensures (forall events :: !Run(Initial(n), events).poppedEmpty) <==> n <= 1
  {
    if n == 0 {
      forall events
        ensures !Run(Initial(n), events).poppedEmpty
      {
        NoConsumerNoPop(events);
      }
    } else if n == 1 {
      forall events
        ensures !Run(Initial(n), events).poppedEmpty
      {
        OneConsumerDeliversInOrder(events);
      }
    } else {
      TwoConsumersPopEmpty(n);
    }
  }
}
