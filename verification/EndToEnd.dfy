/** One HMI client and the broker together: what arrives on the websocket against what the client
    shows. A remote call may lose its request or its reply, and the I/O threads, other endpoints and
    foreign open and close calls may act at any time between the client's calls. */
module EndToEnd {
  import opened Common
  import opened Text
  import A = Answers
  import B = Broker
  import C = Connection
  import D = Displacement
  import H = HmiClient

  /** How a remote call fares; the code is what the client sees instead of the lost answer. */
  datatype Delivery =
    | Delivered
    | RequestLost(code: int)
    | ReplyLost(code: int)

  datatype Step =
    | Connect(delivery: Delivery, starts: bool)
    | Send(data: string, open: bool, ok: bool, delivery: Delivery)
    | Receive(open: bool, oks: seq<bool>, delivery: Delivery)
    | Elsewhere(event: C.Event)

  /** A message the server popped for the client: in which epoch, and by which step of the run. */
  datatype Pop = Pop(epoch: nat, msg: string, at: nat, step: Step)

  /** `time` counts the steps. */
  datatype System = System(client: H.Client, server: B.State, popped: seq<Pop>, time: nat)

  const Start := System(H.NewClient, B.EmptyState, [], 0)

  /** Failed deliveries carry an error code, and only this client sends and receives at `ep`. */
  predicate Allowed(ep: C.Endpoint, step: Step) {
    match step
    case Elsewhere(event) => !((event.Sending? || event.Receiving?) && event.ep == ep)
    case _ => step.delivery.Delivered? || step.delivery.code != SUCCESS
  }

  function Answer(delivery: Delivery, r: Reply): Reply {
    if delivery.Delivered? then r else Reply("", delivery.code)
  }

  /** The record of a reply with a message. */
  function Popped(s: System, ep: C.Endpoint, step: Step, r: Reply): seq<Pop> {
    if ep in s.server.contexts && r.msg != ""
    then [Pop(s.server.contexts[ep].epoch, r.msg, s.time, step)]
    else []
  }

  function Apply(s: System, ep: C.Endpoint, step: Step): System
    requires B.Inv(s.server)
  {
    assert ep in s.server.contexts ==> B.ContextOk(s.server, ep);
    var now := s.(time := s.time + 1);
    match step
    case Connect(delivery, starts) =>
      now.(client := H.Connect(s.client, Answer(delivery, Reply("", SUCCESS)).code, starts),
           server := if delivery.RequestLost? then s.server else B.OpenConnection(s.server, ep))
    case Send(data, open, ok, delivery) =>
      if !s.client.connected then now
      else if delivery.RequestLost? then
        now.(client := H.Send(s.client, data, Answer(delivery, Reply("", 0))).0)
      else
        var (server, r) := B.Send(s.server, ep, data, open, ok);
        now.(client := H.Send(s.client, data, Answer(delivery, r)).0, server := server,
             popped := s.popped + Popped(s, ep, step, r))
    case Receive(open, oks, delivery) =>
      if !s.client.connected then now
      else if delivery.RequestLost? then
        now.(client := H.Receive(s.client, Answer(delivery, Reply("", 0))).0)
      else
        var (server, r) := B.Receive(s.server, ep, open, oks);
        now.(client := H.Receive(s.client, Answer(delivery, r)).0, server := server,
             popped := s.popped + Popped(s, ep, step, r))
    case Elsewhere(event) =>
      now.(server := B.Apply(s.server, event))
  }

  // ---------------------------------------------------------------- what was shown, what was popped

  function Texts(signals: seq<H.Signal>): seq<string> {
    if signals == [] then []
    else var last := signals[|signals| - 1];
         Texts(signals[..|signals| - 1]) + if last.TextMessageReceived? then [last.text] else []
  }

  /** The step is a `Send` whose write fails. */
  predicate FailsToWrite(step: Step) {
    step.Send? && !step.ok
  }

  /** What a step pops is kept from the client: its write failed, or its reply does not come back. */
  predicate Withholds(step: Step) {
    FailsToWrite(step) || step.Elsewhere? || !step.delivery.Delivered?
  }

  /** The popped messages that are not withheld, and the texts the client makes of them. */
  function ShownMessages(popped: seq<Pop>): seq<string> {
    if popped == [] then []
    else var last := popped[|popped| - 1];
         var front := ShownMessages(popped[..|popped| - 1]);
         if Withholds(last.step) then front else front + [last.msg]
  }

  function ShownTexts(popped: seq<Pop>): seq<string> {
    if popped == [] then []
    else var last := popped[|popped| - 1];
         var front := ShownTexts(popped[..|popped| - 1]);
         if Withholds(last.step) then front else front + [CString(last.msg)]
  }

  function OfEpoch(popped: seq<Pop>, e: nat): seq<string> {
    if popped == [] then []
    else var last := popped[|popped| - 1];
         OfEpoch(popped[..|popped| - 1], e) + if last.epoch == e then [last.msg] else []
  }

  lemma TextsAppend(signals: seq<H.Signal>, s: H.Signal)
    ensures Texts(signals + [s]) == Texts(signals) + if s.TextMessageReceived? then [s.text] else []
  {
  }

  lemma PopAppend(popped: seq<Pop>, p: Pop, e: nat)
    ensures ShownTexts(popped + [p]) == ShownTexts(popped) + if Withholds(p.step) then [] else [CString(p.msg)]
    ensures OfEpoch(popped + [p], e) == OfEpoch(popped, e) + if p.epoch == e then [p.msg] else []
  {
    assert (popped + [p])[..|popped|] == popped;
  }

  // ---------------------------------------------------------------- the client side

  function ShownBy(r: Reply): seq<string> {
    if r.code == SUCCESS && r.msg != "" then [CString(r.msg)] else []
  }

  lemma ConnectShowsNothing(c: H.Client, code: int, starts: bool)
    ensures Texts(H.Connect(c, code, starts).signals) == Texts(c.signals)
  {
  }

  lemma ReceiveShows(c: H.Client, r: Reply)
    requires c.connected
    ensures Texts(H.Receive(c, r).0.signals) == Texts(c.signals) + ShownBy(r)
  {
  }

  lemma SendShows(c: H.Client, data: string, r: Reply)
    requires c.connected
    ensures Texts(H.Send(c, data, r).0.signals) == Texts(c.signals) + ShownBy(r)
  {
    if r.code == SUCCESS {
      TextsAppend(c.signals, H.BytesWritten(|data|));
      TextsAppend(c.signals + [H.BytesWritten(|data|)], H.TextMessageReceived(CString(r.msg)));
    } else {
      TextsAppend(c.signals, H.Disconnected);
    }
  }

  // ---------------------------------------------------------------- invariant

  ghost predicate EpochsKnown(s: System) {
    forall k :: 0 <= k < |s.popped| ==> s.popped[k].epoch < |s.server.logs|
  }

  /** What the server handed out in epoch `e` of the client's endpoint is what it popped for it. */
  ghost predicate HandedIsPopped(s: System, ep: C.Endpoint, e: nat)
    requires e < |s.server.logs|
  {
    s.server.logs[e].endpoint == ep ==> OfEpoch(s.popped, e) == s.server.logs[e].handed
  }

  ghost predicate Inv(s: System, ep: C.Endpoint) {
    && B.Inv(s.server)
    && Texts(s.client.signals) == ShownTexts(s.popped)
    && EpochsKnown(s)
    && forall e :: 0 <= e < |s.server.logs| ==> HandedIsPopped(s, ep, e)
  }

  /** A step that pops comes back as a success exactly when it does not withhold. */
  lemma AnswerShows(s: System, ep: C.Endpoint, step: Step, r: Reply)
    requires step.Send? || step.Receive?
    requires step.delivery.Delivered? || (step.delivery.ReplyLost? && step.delivery.code != SUCCESS)
    requires r.msg != "" ==> (r.code == SUCCESS <==> !FailsToWrite(step)) && ep in s.server.contexts
    ensures ShownTexts(s.popped + Popped(s, ep, step, r)) == ShownTexts(s.popped) + ShownBy(Answer(step.delivery, r))
  {
    var more := Popped(s, ep, step, r);
    if more == [] {
      assert s.popped + more == s.popped;
    } else {
      PopAppend(s.popped, more[0], 0);
    }
  }

  lemma AnswerIsHanded(s: System, ep: C.Endpoint, step: Step, r: Reply, e: nat)
    ensures OfEpoch(s.popped + Popped(s, ep, step, r), e) == OfEpoch(s.popped, e) + B.HandedTo(s.server, ep, e, r)
  {
    var more := Popped(s, ep, step, r);
    if more == [] {
      assert s.popped + more == s.popped;
    } else {
      PopAppend(s.popped, more[0], e);
    }
  }

  /** The answer of the server to a call of the client: what it says about messages. */
  ghost predicate AnswersCall(s: System, ep: C.Endpoint, step: Step, server: B.State, r: Reply) {
    && B.Inv(server) && |server.logs| == |s.server.logs|
    && (r.msg != "" ==> (r.code == SUCCESS <==> !FailsToWrite(step)) && ep in s.server.contexts)
    && forall e :: 0 <= e < |server.logs| ==> HandedBy(s.server, ep, server, r, e)
  }

  ghost predicate HandedBy(before: B.State, ep: C.Endpoint, after: B.State, r: Reply, e: nat)
    requires e < |after.logs| == |before.logs|
  {
    && after.logs[e].endpoint == before.logs[e].endpoint
    && after.logs[e].handed == before.logs[e].handed + B.HandedTo(before, ep, e, r)
  }

  lemma AnswerKeepsInv(s: System, t: System, ep: C.Endpoint, step: Step, r: Reply)
    requires Inv(s, ep) && AnswersCall(s, ep, step, t.server, r)
    requires step.Send? || step.Receive?
    requires step.delivery.Delivered? || (step.delivery.ReplyLost? && step.delivery.code != SUCCESS)
    requires t.popped == s.popped + Popped(s, ep, step, r)
    requires Texts(t.client.signals) == Texts(s.client.signals) + ShownBy(Answer(step.delivery, r))
    ensures Inv(t, ep)
  {
    AnswerShows(s, ep, step, r);
    AnswerEpochs(s, t, ep, step, r);
    forall e | 0 <= e < |t.server.logs|
      ensures HandedIsPopped(t, ep, e)
    {
      assert HandedIsPopped(s, ep, e) && HandedBy(s.server, ep, t.server, r, e);
      AnswerIsHanded(s, ep, step, r, e);
    }
  }

  lemma AnswerEpochs(s: System, t: System, ep: C.Endpoint, step: Step, r: Reply)
    requires B.Inv(s.server) && EpochsKnown(s) && |t.server.logs| == |s.server.logs|
    requires t.popped == s.popped + Popped(s, ep, step, r)
    ensures EpochsKnown(t)
  {
    assert ep in s.server.contexts ==> B.ContextOk(s.server, ep);
  }

  lemma SendAnswers(s: System, ep: C.Endpoint, step: Step)
    requires B.Inv(s.server) && step.Send?
    ensures ep in s.server.contexts ==> B.ContextOk(s.server, ep)
    ensures var (server, r) := B.Send(s.server, ep, step.data, step.open, step.ok);
            AnswersCall(s, ep, step, server, r)
  {
    B.SendKeepsInv(s.server, ep, step.data, step.open, step.ok);
    B.RequestsAreEvents(s.server, ep, step.data, step.open, step.ok, []);
    B.EndpointIsolation(s.server, C.Sending(ep, step.data, step.open, step.ok));
    if ep in s.server.contexts {
      B.CellGood(s.server, ep);
      C.SendHandsOut(B.CellAt(s.server, ep), step.data, step.open, step.ok);
    }
    var (server, r) := B.Send(s.server, ep, step.data, step.open, step.ok);
    forall e | 0 <= e < |s.server.logs|
      ensures |server.logs| == |s.server.logs| && HandedBy(s.server, ep, server, r, e)
    {
      B.SendHands(s.server, ep, step.data, step.open, step.ok, e);
    }
  }

  lemma ReceiveAnswers(s: System, ep: C.Endpoint, step: Step)
    requires B.Inv(s.server) && step.Receive?
    ensures ep in s.server.contexts ==> B.ContextOk(s.server, ep)
    ensures var (server, r) := B.Receive(s.server, ep, step.open, step.oks);
            AnswersCall(s, ep, step, server, r)
  {
    B.ReceiveKeepsInv(s.server, ep, step.open, step.oks);
    B.RequestsAreEvents(s.server, ep, "", step.open, false, step.oks);
    B.EndpointIsolation(s.server, C.Receiving(ep, step.open, step.oks));
    var (server, r) := B.Receive(s.server, ep, step.open, step.oks);
    forall e | 0 <= e < |s.server.logs|
      ensures |server.logs| == |s.server.logs| && HandedBy(s.server, ep, server, r, e)
    {
      B.ReceiveHands(s.server, ep, step.open, step.oks, e);
    }
  }

  /** A call that reaches nobody changes nothing but, perhaps, the client's connection. */
  lemma LostRequestKeepsInv(s: System, t: System, ep: C.Endpoint)
    requires Inv(s, ep) && t.server == s.server && t.popped == s.popped
    requires Texts(t.client.signals) == Texts(s.client.signals)
    ensures Inv(t, ep)
  {
    forall e | 0 <= e < |t.server.logs|
      ensures HandedIsPopped(t, ep, e)
    {
      assert HandedIsPopped(s, ep, e);
    }
  }

  lemma SendKeepsInv(s: System, ep: C.Endpoint, step: Step)
    requires Inv(s, ep) && Allowed(ep, step) && step.Send?
    ensures Inv(Apply(s, ep, step), ep)
  {
    var t := Apply(s, ep, step);
    if !s.client.connected {
      LostRequestKeepsInv(s, t, ep);
    } else if step.delivery.RequestLost? {
      SendShows(s.client, step.data, Answer(step.delivery, Reply("", 0)));
      LostRequestKeepsInv(s, t, ep);
    } else {
      SendAnswers(s, ep, step);
      var (server, r) := B.Send(s.server, ep, step.data, step.open, step.ok);
      SendShows(s.client, step.data, Answer(step.delivery, r));
      AnswerKeepsInv(s, t, ep, step, r);
    }
  }

  lemma ReceiveKeepsInv(s: System, ep: C.Endpoint, step: Step)
    requires Inv(s, ep) && Allowed(ep, step) && step.Receive?
    ensures Inv(Apply(s, ep, step), ep)
  {
    var t := Apply(s, ep, step);
    if !s.client.connected {
      LostRequestKeepsInv(s, t, ep);
    } else if step.delivery.RequestLost? {
      ReceiveShows(s.client, Answer(step.delivery, Reply("", 0)));
      LostRequestKeepsInv(s, t, ep);
    } else {
      ReceiveAnswers(s, ep, step);
      var (server, r) := B.Receive(s.server, ep, step.open, step.oks);
      ReceiveShows(s.client, Answer(step.delivery, r));
      AnswerKeepsInv(s, t, ep, step, r);
    }
  }

  lemma {:induction false} NothingOfNewEpoch(popped: seq<Pop>, e: nat)
    requires forall k :: 0 <= k < |popped| ==> popped[k].epoch < e
    ensures OfEpoch(popped, e) == []
  {
    if popped != [] {
      NothingOfNewEpoch(popped[..|popped| - 1], e);
    }
  }

  /** Events that are not this client's sends and receives hand out nothing at its endpoint. */
  lemma ElsewhereKeepsInv(s: System, t: System, ep: C.Endpoint, event: C.Event)
    requires Inv(s, ep) && Allowed(ep, Elsewhere(event))
    requires t.server == B.Apply(s.server, event) && t.popped == s.popped
    requires Texts(t.client.signals) == Texts(s.client.signals)
    ensures Inv(t, ep)
  {
    B.ApplyKeepsInv(s.server, event);
    B.EndpointIsolation(s.server, event);
    forall e | 0 <= e < |t.server.logs|
      ensures HandedIsPopped(t, ep, e)
    {
      ElsewhereHandsNothing(s, t, ep, event, e);
    }
  }

  lemma ElsewhereHandsNothing(s: System, t: System, ep: C.Endpoint, event: C.Event, e: nat)
    requires Inv(s, ep) && Allowed(ep, Elsewhere(event))
    requires t.server == B.Apply(s.server, event) && t.popped == s.popped && e < |t.server.logs|
    ensures HandedIsPopped(t, ep, e)
  {
    B.EndpointIsolation(s.server, event);
    assert event.ep in s.server.contexts ==> B.ContextOk(s.server, event.ep);
    if e >= |s.server.logs| {
      NothingOfNewEpoch(s.popped, e);
      B.FreshEpoch(s.server, event, e);
    } else {
      assert HandedIsPopped(s, ep, e);
      if event.ep == ep {
        B.OthersHandNothing(s.server, event, e);
      }
    }
  }

  lemma ApplyKeepsInv(s: System, ep: C.Endpoint, step: Step)
    requires Inv(s, ep) && Allowed(ep, step)
    ensures Inv(Apply(s, ep, step), ep)
  {
    match step
    case Send(data, open, ok, delivery) =>
      SendKeepsInv(s, ep, step);
    case Receive(open, oks, delivery) =>
      ReceiveKeepsInv(s, ep, step);
    case Connect(delivery, starts) =>
      ConnectShowsNothing(s.client, Answer(delivery, Reply("", SUCCESS)).code, starts);
      if delivery.RequestLost? {
        LostRequestKeepsInv(s, Apply(s, ep, step), ep);
      } else {
        ElsewhereKeepsInv(s, Apply(s, ep, step), ep, C.Opening(ep));
      }
    case Elsewhere(event) =>
      ElsewhereKeepsInv(s, Apply(s, ep, step), ep, event);
  }

  // ---------------------------------------------------------------- theorems over all runs

  function Run(ep: C.Endpoint, steps: seq<Step>): (s: System)
    requires forall k :: 0 <= k < |steps| ==> Allowed(ep, steps[k])
    ensures Inv(s, ep)
  {
    if steps == [] then Start else
    var before := Run(ep, steps[..|steps| - 1]);
    ApplyKeepsInv(before, ep, steps[|steps| - 1]);
    Apply(before, ep, steps[|steps| - 1])
  }

  /** Every popped message names the step that popped it: the steps are distinct, in order, and
      calls of the client. */
  ghost predicate PoppedInOrder(popped: seq<Pop>, steps: seq<Step>) {
    && (forall k :: 0 <= k < |popped| ==>
          && popped[k].at < |steps| && steps[popped[k].at] == popped[k].step
          && (popped[k].step.Send? || popped[k].step.Receive?))
    && (forall j, k :: 0 <= j < k < |popped| ==> popped[j].at < popped[k].at)
  }

  ghost predicate Recorded(s: System, steps: seq<Step>) {
    s.time == |steps| && PoppedInOrder(s.popped, steps)
  }

  lemma {:induction false} PoppedBySteps(ep: C.Endpoint, steps: seq<Step>)
    requires forall k :: 0 <= k < |steps| ==> Allowed(ep, steps[k])
    ensures Recorded(Run(ep, steps), steps)
  {
    if steps != [] {
      PoppedBySteps(ep, steps[..|steps| - 1]);
      LastRecorded(ep, steps);
    }
  }

  lemma LastRecorded(ep: C.Endpoint, steps: seq<Step>)
    requires steps != [] && forall k :: 0 <= k < |steps| ==> Allowed(ep, steps[k])
    requires var before := steps[..|steps| - 1]; Recorded(Run(ep, before), before)
    ensures Recorded(Run(ep, steps), steps)
  {
    RunEnds(ep, steps, Run(ep, steps), Run(ep, steps[..|steps| - 1]));
    RecordedStep(Run(ep, steps[..|steps| - 1]), ep, steps, Run(ep, steps));
  }

  lemma RunEnds(ep: C.Endpoint, steps: seq<Step>, t: System, s: System)
    requires steps != [] && forall k :: 0 <= k < |steps| ==> Allowed(ep, steps[k])
    requires t == Run(ep, steps) && s == Run(ep, steps[..|steps| - 1])
    ensures B.Inv(s.server) && t == Apply(s, ep, steps[|steps| - 1])
  {
  }

  lemma RecordedStep(s: System, ep: C.Endpoint, steps: seq<Step>, t: System)
    requires steps != [] && B.Inv(s.server) && t == Apply(s, ep, steps[|steps| - 1])
    requires Recorded(s, steps[..|steps| - 1])
    ensures Recorded(t, steps)
  {
    var before, last := steps[..|steps| - 1], steps[|steps| - 1];
    OneMorePopped(s, ep, last, t);
    StillInOrder(s.popped, before, last, t.popped);
    assert before + [last] == steps;
  }

  /** The same popped messages, or one more, by the newest step. */
  ghost predicate AtMostOneMore(popped: seq<Pop>, time: nat, step: Step, more: seq<Pop>) {
    || more == popped
    || (&& (step.Send? || step.Receive?) && |more| == |popped| + 1 && popped == more[..|popped|]
        && more[|popped|].at == time && more[|popped|].step == step)
  }

  lemma StillInOrder(popped: seq<Pop>, steps: seq<Step>, last: Step, more: seq<Pop>)
    requires PoppedInOrder(popped, steps) && AtMostOneMore(popped, |steps|, last, more)
    ensures PoppedInOrder(more, steps + [last])
  {
    assert forall k :: 0 <= k < |popped| ==> more[k] == popped[k];
  }

  lemma OneMorePopped(s: System, ep: C.Endpoint, step: Step, t: System)
    requires B.Inv(s.server) && t == Apply(s, ep, step)
    ensures t.time == s.time + 1 && AtMostOneMore(s.popped, s.time, step, t.popped)
  {
  }

  /** End to end, in every run and every epoch of the client's endpoint: the messages that arrived
      are, in order, those popped for the client, those still held, those lost at the close and those
      read by a displaced session, of which there are some unless no session was displaced or nothing
      arrived. */
  lemma ArrivedIsAccountedFor(ep: C.Endpoint, steps: seq<Step>, e: nat)
    requires forall k :: 0 <= k < |steps| ==> Allowed(ep, steps[k])
    requires e < |Run(ep, steps).server.logs| && Run(ep, steps).server.logs[e].endpoint == ep
    ensures var s := Run(ep, steps);
            var log := s.server.logs[e];
            var reached := OfEpoch(s.popped, e) + B.InboxOf(s.server, e) + log.lost;
            && log.arrived == reached + log.stranded
            && (log.arrived == reached <==> !log.displaced || log.arrived == [])
  {
    var s := Run(ep, steps);
    assert B.EpochOk(s.server, e);
    assert HandedIsPopped(s, ep, e);
    D.Stranded(s.server.logs[e], e, B.PendingOf(s.server, e), B.InboxOf(s.server, e), B.Live(s.server, e));
  }

  /** End to end, in every run: the client has shown, in order, exactly the messages popped by steps
      of the run that do not withhold them, that is, by all but the `Send`s whose write failed and
      the calls whose reply was lost. */
  lemma ShownIsPoppedNotWithheld(ep: C.Endpoint, steps: seq<Step>)
    requires forall k :: 0 <= k < |steps| ==> Allowed(ep, steps[k])
    ensures var s := Run(ep, steps);
            PoppedInOrder(s.popped, steps) && Texts(s.client.signals) == ShownTexts(s.popped)
  {
    PoppedBySteps(ep, steps);
  }

  /** The messages popped by anything but a `Send` whose write failed. */
  function WrittenTexts(popped: seq<Pop>): seq<string> {
    if popped == [] then []
    else var last := popped[|popped| - 1];
         var front := WrittenTexts(popped[..|popped| - 1]);
         if FailsToWrite(last.step) then front else front + [CString(last.msg)]
  }

  /** When every reply comes back, the emissions are the popped messages minus those popped by a `Send`
      whose write failed. */
  lemma OnlyFailedWritesHide(ep: C.Endpoint, steps: seq<Step>)
    requires forall k :: 0 <= k < |steps| ==> Allowed(ep, steps[k])
    requires forall k :: 0 <= k < |steps| ==> steps[k].Elsewhere? || !steps[k].delivery.ReplyLost?
    ensures Texts(Run(ep, steps).client.signals) == WrittenTexts(Run(ep, steps).popped)
  {
    PoppedBySteps(ep, steps);
    PoppedIsReplied(ep, steps);
    SameTexts(Run(ep, steps).popped);
  }

  ghost predicate AllReplied(popped: seq<Pop>) {
    forall k :: 0 <= k < |popped| ==> !popped[k].step.Elsewhere? && popped[k].step.delivery.Delivered?
  }

  /** A request that was lost pops nothing. */
  lemma LostRequestPopsNothing(s: System, ep: C.Endpoint, step: Step)
    requires B.Inv(s.server) && (step.Elsewhere? || step.delivery.RequestLost?)
    ensures Apply(s, ep, step).popped == s.popped
  {
  }

  lemma {:induction false} PoppedIsReplied(ep: C.Endpoint, steps: seq<Step>)
    requires forall k :: 0 <= k < |steps| ==> Allowed(ep, steps[k])
    requires forall k :: 0 <= k < |steps| ==> steps[k].Elsewhere? || !steps[k].delivery.ReplyLost?
    ensures AllReplied(Run(ep, steps).popped)
  {
    if steps != [] {
      var before, last := steps[..|steps| - 1], steps[|steps| - 1];
      PoppedIsReplied(ep, before);
      var s := Run(ep, before);
      OneMorePopped(s, ep, last, Run(ep, steps));
      if last.Elsewhere? || last.delivery.RequestLost? {
        LostRequestPopsNothing(s, ep, last);
      }
      OneMoreReplied(s.popped, s.time, last, Run(ep, steps).popped);
    }
  }

  lemma OneMoreReplied(popped: seq<Pop>, time: nat, last: Step, more: seq<Pop>)
    requires AllReplied(popped) && AtMostOneMore(popped, time, last, more)
    requires more == popped || (!last.Elsewhere? && last.delivery.Delivered?)
    ensures AllReplied(more)
  {
    assert forall k :: 0 <= k < |popped| && k < |more| ==> more[k] == popped[k];
  }

  lemma {:induction false} SameTexts(popped: seq<Pop>)
    requires AllReplied(popped)
    ensures ShownTexts(popped) == WrittenTexts(popped)
  {
    if popped != [] {
      SameTexts(popped[..|popped| - 1]);
    }
  }

  ghost predicate NoNulShown(popped: seq<Pop>) {
    forall k :: 0 <= k < |popped| && !Withholds(popped[k].step) ==> NUL !in popped[k].msg
  }

  lemma SnocEqual(a: seq<string>, x: string, b: seq<string>, y: string)
    ensures a + [x] == b + [y] <==> a == b && x == y
  {
    if a + [x] == b + [y] {
      assert |a| == |b| && a == (a + [x])[..|a|] && b == (b + [y])[..|b|];
      assert (a + [x])[|a|] == x && (b + [y])[|b|] == y;
    }
  }

  lemma NoNulSplits(front: seq<Pop>, last: Pop)
    ensures NoNulShown(front + [last]) <==> NoNulShown(front) && (Withholds(last.step) || NUL !in last.msg)
  {
    var popped := front + [last];
    assert popped[|front|] == last;
    assert forall k :: 0 <= k < |front| ==> popped[k] == front[k];
  }

  lemma {:induction false} TextsAreMessagesIff(popped: seq<Pop>)
    ensures ShownTexts(popped) == ShownMessages(popped) <==> NoNulShown(popped)
  {
    if popped != [] {
      var front, last := popped[..|popped| - 1], popped[|popped| - 1];
      TextsAreMessagesIff(front);
      CStringIsWholeIff(last.msg);
      SnocEqual(ShownTexts(front), CString(last.msg), ShownMessages(front), last.msg);
      NoNulSplits(front, last);
      assert popped == front + [last];
    }
  }

  /** The client shows the popped messages themselves exactly when none of them has a NUL. */
  lemma ShownInFullIff(ep: C.Endpoint, steps: seq<Step>)
    requires forall k :: 0 <= k < |steps| ==> Allowed(ep, steps[k])
    ensures var s := Run(ep, steps);
            Texts(s.client.signals) == ShownMessages(s.popped) <==> NoNulShown(s.popped)
  {
    TextsAreMessagesIff(Run(ep, steps).popped);
  }

  // ---------------------------------------------------------------- losing the connection

  lemma RunStep(ep: C.Endpoint, steps: seq<Step>, step: Step)
    requires (forall k :: 0 <= k < |steps| ==> Allowed(ep, steps[k])) && Allowed(ep, step)
    ensures forall k :: 0 <= k < |steps + [step]| ==> Allowed(ep, (steps + [step])[k])
    ensures Run(ep, steps + [step]) == Apply(Run(ep, steps), ep, step)
  {
    assert (steps + [step])[..|steps|] == steps;
  }

  /** A delivered call, and the code the server answers. */
  lemma CallCode(s: System, ep: C.Endpoint, step: Step)
    requires B.Inv(s.server) && s.client.connected
    requires (step.Send? || step.Receive?) && step.delivery.Delivered?
    ensures var t := Apply(s, ep, step);
            && (t.client.connected <==> ep in s.server.contexts)
            && (ep !in s.server.contexts ==>
                  && t.server == s.server && t.popped == s.popped
                  && t.client.signals == s.client.signals + [H.Disconnected])
  {
    assert ep in s.server.contexts ==> B.ContextOk(s.server, ep);
    if ep in s.server.contexts && step.Send? {
      A.SendTable(B.CellAt(s.server, ep), step.data, step.open, step.ok);
    } else if ep in s.server.contexts {
      var k := A.ReceiveTable(B.CellAt(s.server, ep), step.open, step.oks);
    }
    assert s.popped + [] == s.popped;
  }

  /** End to end, in every run: a delivered `Send` or `Receive` of a connected client leaves it connected
      exactly when the server still has a context for the endpoint. When it has none the client
      emits `disconnected`, once, and the server is as it was. */
  lemma DisconnectedIffNoContext(ep: C.Endpoint, steps: seq<Step>, step: Step)
    requires (forall k :: 0 <= k < |steps| ==> Allowed(ep, steps[k])) && Run(ep, steps).client.connected
    requires (step.Send? || step.Receive?) && step.delivery.Delivered?
    ensures forall k :: 0 <= k < |steps + [step]| ==> Allowed(ep, (steps + [step])[k])
    ensures var s, t := Run(ep, steps), Run(ep, steps + [step]);
            && (t.client.connected <==> ep in s.server.contexts)
            && (ep !in s.server.contexts ==>
                  && t.server == s.server && t.popped == s.popped
                  && t.client.signals == s.client.signals + [H.Disconnected])
  {
    RunStep(ep, steps, step);
    CallCode(Run(ep, steps), ep, step);
  }

  /** End to end, in every run: a delivered `Receive` of a connected client shows the first message the
      session holds, and nothing when it holds none. */
  lemma ReceiveShowsFirstHeld(ep: C.Endpoint, steps: seq<Step>, open: bool, oks: seq<bool>)
    requires (forall k :: 0 <= k < |steps| ==> Allowed(ep, steps[k])) && Run(ep, steps).client.connected
    requires var s := Run(ep, steps).server;
             ep in s.contexts && s.contexts[ep].session.Real? && !s.contexts[ep].seenNone
    ensures var step := Receive(open, oks, Delivered);
            forall k :: 0 <= k < |steps + [step]| ==> Allowed(ep, (steps + [step])[k])
    ensures var s, t := Run(ep, steps), Run(ep, steps + [Receive(open, oks, Delivered)]);
            var inbox := s.server.contexts[ep].inbox;
            t.client.signals == s.client.signals + (if inbox == [] || inbox[0] == "" then []
                                                    else [H.TextMessageReceived(CString(inbox[0]))])
  {
    var s, step := Run(ep, steps), Receive(open, oks, Delivered);
    RunStep(ep, steps, step);
    assert B.ContextOk(s.server, ep);
    var k := A.ReceiveTable(B.CellAt(s.server, ep), open, oks);
    assert s.client.signals + [] == s.client.signals;
  }

  /** End to end, in every run: a `connect` whose request arrives gives the endpoint a context of a new
      epoch, whether or not the answer comes back; the client emits `connected` exactly when it
      does. */
  lemma ConnectOpens(ep: C.Endpoint, steps: seq<Step>, delivery: Delivery, starts: bool)
    requires forall k :: 0 <= k < |steps| ==> Allowed(ep, steps[k])
    requires delivery.Delivered? || delivery.code != SUCCESS
    ensures forall k :: 0 <= k < |steps + [Connect(delivery, starts)]| ==>
              Allowed(ep, (steps + [Connect(delivery, starts)])[k])
    ensures var s, t := Run(ep, steps), Run(ep, steps + [Connect(delivery, starts)]);
            && (if delivery.RequestLost? then t.server == s.server
                else ep in t.server.contexts && t.server.contexts[ep] == C.NewContext(|s.server.logs|))
            && t.client.signals == s.client.signals + (if delivery.Delivered? then [H.Connected] else [])
            && t.popped == s.popped
  {
    RunStep(ep, steps, Connect(delivery, starts));
    var s := Run(ep, steps);
    B.CloseKeepsInv(s.server, ep);
    assert s.client.signals + [] == s.client.signals;
  }
}
