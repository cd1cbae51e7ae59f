/** One connection of the message broker: its listener context, the queue of payloads that wait for a
    flush, and the record of its epoch. Remote calls run one at a time, and the I/O callbacks
    `OnResolve` and `OnRead` interleave with them. */
module Connection {
  import opened Common

  datatype Endpoint = Endpoint(address: string, port: int)

  /** `MakeEndpoint`: the port is cast to unsigned short. */
  function MakeEndpoint(address: string, port: int): (ep: Endpoint)
    ensures 0 <= ep.port < 65536 && (port - ep.port) % 65536 == 0
  {
    Endpoint(address, port % 65536)
  }

  /** Two calls mean the same connection exactly when the addresses agree and the ports do modulo
      65536. */
  lemma SameEndpointIff(a: string, p: int, b: string, q: int)
    ensures MakeEndpoint(a, p) == MakeEndpoint(b, q) <==> a == b && (p - q) % 65536 == 0
  {
    assert p == 65536 * (p / 65536) + p % 65536 && q == 65536 * (q / 65536) + q % 65536;
    if p % 65536 == q % 65536 {
      assert p - q == 65536 * (p / 65536 - q / 65536);
    }
  }

  /** An outbound payload. The broker only looks at `data`; the epoch and the serial number say
      which `Send` it came from. */
  datatype Item = Item(epoch: nat, serial: nat, data: string)

  datatype Session = NoSession | Dummy | Real

  /** A listener context. `resolving` and `reading`: a resolve, or a read of the session, is
      outstanding; `inbox`: the message queue of the session; `seenNone`: the request in progress saw
      no session and is about to assign a dummy; `orphan`: a session that was displaced by a dummy
      still has its read outstanding. */
  datatype Context = Context(
    epoch: nat,
    session: Session,
    resolving: bool,
    reading: bool,
    inbox: seq<string>,
    seenNone: bool,
    orphan: bool)

  function NewContext(epoch: nat): Context {
    Context(epoch, NoSession, true, false, [], false, false)
  }

  /** What became of a payload at its `Send`. */
  datatype Fate = WrittenAtOnce | WriteFailed | Queued

  datatype Output = Direct(item: Item) | Flush(item: Item)

  /** The record of one epoch. No operation reads it.
      sent: every payload with its fate; written: what reached the socket, in order; dropped: what
      was pending at the close; arrived: non-empty inbound messages; handed: messages returned by
      Send and Receive; lost: messages still in the inbox at the close; stranded: messages read by a
      displaced session; displaced: there was one. */
  datatype EpochLog = EpochLog(
    endpoint: Endpoint,
    sent: seq<(Item, Fate)>,
    written: seq<Output>,
    dropped: seq<Item>,
    arrived: seq<string>,
    handed: seq<string>,
    lost: seq<string>,
    stranded: seq<string>,
    displaced: bool)

  function NewLog(ep: Endpoint): EpochLog {
    EpochLog(ep, [], [], [], [], [], [], [], false)
  }

  /** A connection. The queue is `None` while the broker's map of queues has no entry for it. */
  datatype Cell = Cell(ctx: Context, queue: Option<seq<Item>>, log: EpochLog)

  function QueueOf(c: Cell): seq<Item> {
    if c.queue.Some? then c.queue.value else []
  }

  // ---------------------------------------------------------------- operations

  /** The test of `GetSession`, which is the first thing a request does with its context. Callbacks may
      follow before the request goes on. */
  function CheckSession(c: Cell): Cell {
    if c.ctx.session.NoSession? then c.(ctx := c.ctx.(seenNone := true)) else c
  }

  /** The rest of `GetSession`: a request that saw no session assigns a dummy, whatever the listener
      has by now; without an earlier `CheckSession` test and assignment are one step. */
  function WithSession(c: Cell): Cell {
    if c.ctx.seenNone && c.ctx.session.Real? then
      c.(ctx := c.ctx.(session := Dummy, reading := false, inbox := [], seenNone := false, orphan := c.ctx.reading),
         log := c.log.(stranded := c.ctx.inbox, displaced := true))
    else
      c.(ctx := c.ctx.(session := if c.ctx.session.NoSession? then Dummy else c.ctx.session, seenNone := false))
  }

  /** `IsOpen`: a dummy never is; a real one as the network decides. */
  predicate IsOpen(ctx: Context, open: bool) {
    ctx.session.Real? && open
  }

  /** `GetMessage` */
  function FrontOf(inbox: seq<string>): string {
    if inbox == [] then "" else inbox[0]
  }

  function RestOf(inbox: seq<string>): seq<string> {
    if inbox == [] then [] else inbox[1..]
  }

  function Take(c: Cell): Cell {
    if c.ctx.inbox == [] then c
    else c.(ctx := c.ctx.(inbox := c.ctx.inbox[1..]), log := c.log.(handed := c.log.handed + [c.ctx.inbox[0]]))
  }

  function NewItem(c: Cell, data: string): Item {
    Item(c.ctx.epoch, |c.log.sent|, data)
  }

  /** `Send` on its session up to the point where it pops a message. `open` and `ok` are what the socket
      answers to `is_open` and `write`. */
  function Posted(c: Cell, data: string, open: bool, ok: bool): Cell {
    var item := NewItem(c, data);
    if !IsOpen(c.ctx, open) then
      c.(queue := Some(QueueOf(c) + [item]), log := c.log.(sent := c.log.sent + [(item, Queued)]))
    else if ok then
      c.(log := c.log.(sent := c.log.sent + [(item, WrittenAtOnce)], written := c.log.written + [Direct(item)]))
    else
      c.(log := c.log.(sent := c.log.sent + [(item, WriteFailed)]))
  }

  function Post(c: Cell, data: string, open: bool, ok: bool): Cell {
    Posted(WithSession(c), data, open, ok)
  }

  /** `Send` on an existing connection: a closed session queues the payload; an open one writes it,
      ahead of anything that is still pending, and pops a message whether the write succeeded or
      not. */
  function SendOn(c: Cell, data: string, open: bool, ok: bool): (Cell, Reply) {
    var t := Post(c, data, open, ok);
    if IsOpen(t.ctx, open) then (Take(t), Reply(FrontOf(t.ctx.inbox), if ok then SUCCESS else WRITE_FAILURE))
    else (t, Reply("", WRITE_FAILURE))
  }

  /** How many of the queued messages the flush writes: it stops at the first failing write. */
  function Successes(queue: seq<Item>, oks: seq<bool>): (k: nat)
    ensures k <= |queue| && k <= |oks|
    ensures forall i :: 0 <= i < k ==> oks[i]
    ensures k < |queue| ==> k == |oks| || !oks[k]
  {
    if queue == [] || oks == [] || !oks[0] then 0 else
    var k := Successes(queue[1..], oks[1..]);
    assert forall i :: 0 <= i < k ==> oks[1..][i] == oks[i + 1];
    assert k < |oks[1..]| ==> oks[1..][k] == oks[k + 1];
    1 + k
  }

  function Flushes(items: seq<Item>): (r: seq<Output>)
    ensures |r| == |items| && forall i :: 0 <= i < |r| ==> r[i] == Flush(items[i])
  {
    seq(|items|, i requires 0 <= i < |items| => Flush(items[i]))
  }

  /** The loop of `FlushPendingMsg` on a session. `oks` are the results of the successive writes. */
  function Flushed(c: Cell, open: bool, oks: seq<bool>): Cell {
    var queue := QueueOf(c);
    var k := if IsOpen(c.ctx, open) then Successes(queue, oks) else 0;
    c.(queue := Some(queue[k..]), log := c.log.(written := c.log.written + Flushes(queue[..k])))
  }

  /** `FlushPendingMsg` */
  function FlushPending(c: Cell, open: bool, oks: seq<bool>): Cell {
    if QueueOf(c) == [] then c.(queue := Some([])) else Flushed(WithSession(c), open, oks)
  }

  /** `GetSession().GetMessage()` */
  function NextMessage(c: Cell): (Cell, string) {
    var t := WithSession(c);
    (Take(t), FrontOf(t.ctx.inbox))
  }

  /** `Receive` on an existing connection. */
  function ReceiveOn(c: Cell, open: bool, oks: seq<bool>): (Cell, Reply) {
    var (t, msg) := NextMessage(FlushPending(c, open, oks));
    (t, Reply(msg, SUCCESS))
  }

  datatype Resolution = ResolveFailed | ConnectFailed | Connected

  /** `OnResolve` of the outstanding resolve of the context. */
  function OnResolve(c: Cell, r: Resolution): Cell {
    if !c.ctx.resolving || r.ConnectFailed? then c
    else if r.ResolveFailed? then c.(ctx := c.ctx.(resolving := false))
    else c.(ctx := c.ctx.(resolving := false, session := Real, reading := true, inbox := []))
  }

  datatype Read = ReadFailed | Data(bytes: string)

  /** `OnRead` of the outstanding read, of the session or of a displaced one. */
  function OnRead(c: Cell, r: Read): Cell {
    if c.ctx.reading then
      match r
      case ReadFailed => c.(ctx := c.ctx.(reading := false))
      case Data(bytes) =>
        if bytes == "" then c
        else c.(ctx := c.ctx.(inbox := c.ctx.inbox + [bytes]), log := c.log.(arrived := c.log.arrived + [bytes]))
    else if c.ctx.orphan then
      match r
      case ReadFailed => c.(ctx := c.ctx.(orphan := false))
      case Data(bytes) =>
        if bytes == "" then c
        else c.(log := c.log.(arrived := c.log.arrived + [bytes], stranded := c.log.stranded + [bytes]))
    else c
  }

  datatype Event =
    | Opening(ep: Endpoint)
    | Closing(ep: Endpoint)
    | Sending(ep: Endpoint, data: string, open: bool, ok: bool)
    | Receiving(ep: Endpoint, open: bool, oks: seq<bool>)
    | Checking(ep: Endpoint)
    | Resolving(ep: Endpoint, resolution: Resolution)
    | Reading(ep: Endpoint, read: Read)

  predicate Ends(ev: Event) {
    ev.Opening? || ev.Closing?
  }

  /** An event of an existing connection that neither opens nor closes one. */
  function Step(c: Cell, ev: Event): Cell {
    match ev
    case Sending(_, data, open, ok) => SendOn(c, data, open, ok).0
    case Receiving(_, open, oks) => ReceiveOn(c, open, oks).0
    case Checking(_) => CheckSession(c)
    case Resolving(_, r) => OnResolve(c, r)
    case Reading(_, r) => OnRead(c, r)
    case _ => c
  }

  // ---------------------------------------------------------------- invariant

  /** The payloads with a given fate, in the order they were sent. */
  function Pick(sent: seq<(Item, Fate)>, fate: Fate): seq<Item> {
    if sent == [] then []
    else var last := sent[|sent| - 1];
         Pick(sent[..|sent| - 1], fate) + if last.1 == fate then [last.0] else []
  }

  function DirectItems(written: seq<Output>): seq<Item> {
    if written == [] then []
    else var last := written[|written| - 1];
         DirectItems(written[..|written| - 1]) + if last.Direct? then [last.item] else []
  }

  function FlushedItems(written: seq<Output>): seq<Item> {
    if written == [] then []
    else var last := written[|written| - 1];
         FlushedItems(written[..|written| - 1]) + if last.Flush? then [last.item] else []
  }

  predicate Unused(log: EpochLog) {
    log.handed == [] && log.written == []
  }

  /** The ledger of an epoch balances. */
  ghost predicate Balanced(log: EpochLog, e: nat, pending: seq<Item>, inbox: seq<string>, live: bool) {
    && (forall i :: 0 <= i < |log.sent| ==> log.sent[i].0.epoch == e && log.sent[i].0.serial == i)
    && DirectItems(log.written) == Pick(log.sent, WrittenAtOnce)
    && FlushedItems(log.written) + pending + log.dropped == Pick(log.sent, Queued)
    && log.handed + inbox + log.lost + log.stranded == log.arrived
    && "" !in log.arrived
    && (live ==> log.dropped == [] && log.lost == [])
    && (if log.displaced then Unused(log) && inbox == [] && log.lost == [] else log.stranded == [])
  }

  /** Only a real session reads, until a request has used one nothing is written or handed out, and a
      displaced one leaves a dummy for good. */
  ghost predicate ContextGood(c: Cell) {
    var ctx := c.ctx;
    && (!ctx.session.Real? ==> ctx.inbox == [] && !ctx.reading)
    && (ctx.session.Real? ==> !ctx.resolving)
    && (ctx.seenNone ==> !ctx.session.Dummy?)
    && (ctx.seenNone || !ctx.session.Real? ==> Unused(c.log))
    && (c.log.displaced ==> ctx.session.Dummy? && !ctx.resolving)
    && (ctx.orphan ==> c.log.displaced)
  }

  ghost predicate Good(c: Cell) {
    ContextGood(c) && Balanced(c.log, c.ctx.epoch, QueueOf(c), c.ctx.inbox, true)
  }

  /** An operation leaves the identity of the connection. */
  predicate Same(c: Cell, t: Cell) {
    t.ctx.epoch == c.ctx.epoch && t.log.endpoint == c.log.endpoint && (c.queue.Some? ==> t.queue.Some?)
  }

  lemma PostedSame(c: Cell, data: string, open: bool, ok: bool)
    ensures Same(c, Posted(c, data, open, ok)) && Posted(c, data, open, ok).ctx == c.ctx
  {
  }

  lemma FlushedSame(c: Cell, open: bool, oks: seq<bool>)
    ensures Same(c, Flushed(c, open, oks)) && Flushed(c, open, oks).ctx == c.ctx
  {
  }

  lemma SendSame(c: Cell, data: string, open: bool, ok: bool)
    ensures Same(c, SendOn(c, data, open, ok).0)
  {
    PostedSame(WithSession(c), data, open, ok);
  }

  lemma ReceiveSame(c: Cell, open: bool, oks: seq<bool>)
    ensures Same(c, ReceiveOn(c, open, oks).0)
  {
    FlushedSame(WithSession(c), open, oks);
    assert Same(c, FlushPending(c, open, oks));
  }

  lemma StepSame(c: Cell, ev: Event)
    ensures Same(c, Step(c, ev))
  {
    match ev
    case Sending(_, data, open, ok) => SendSame(c, data, open, ok);
    case Receiving(_, open, oks) => ReceiveSame(c, open, oks);
    case _ =>
  }

  // ---------------------------------------------------------------- operations keep the invariant

  lemma OutputAppend(written: seq<Output>, o: Output)
    ensures DirectItems(written + [o]) == DirectItems(written) + if o.Direct? then [o.item] else []
    ensures FlushedItems(written + [o]) == FlushedItems(written) + if o.Flush? then [o.item] else []
  {
  }

  lemma {:induction false} FlushAppend(written: seq<Output>, items: seq<Item>)
    ensures DirectItems(written + Flushes(items)) == DirectItems(written)
    ensures FlushedItems(written + Flushes(items)) == FlushedItems(written) + items
  {
    if items == [] {
      assert written + Flushes(items) == written;
    } else {
      var last := |items| - 1;
      var init, x := items[..last], items[last];
      FlushAppend(written, init);
      OutputAppend(written + Flushes(init), Flush(x));
      assert written + Flushes(items) == (written + Flushes(init)) + [Flush(x)] by {
        assert Flushes(items) == Flushes(init) + [Flush(x)];
      }
      assert (FlushedItems(written) + init) + [x] == FlushedItems(written) + items by {
        assert items == init + [x];
      }
    }
  }

  lemma SessionGood(c: Cell)
    requires Good(c)
    ensures Good(WithSession(c)) && !WithSession(c).ctx.seenNone
  {
    if c.ctx.seenNone && c.ctx.session.Real? {
      assert [] + c.ctx.inbox + [] + [] == [] + [] + [] + c.ctx.inbox;
    }
  }

  lemma TakeGood(c: Cell)
    requires Good(c) && !c.ctx.seenNone
    ensures Good(Take(c))
  {
    var log, inbox := c.log, c.ctx.inbox;
    if inbox != [] {
      assert inbox == [inbox[0]] + inbox[1..];
      assert log.handed + inbox + [] + [] == (log.handed + [inbox[0]]) + inbox[1..] + [] + [];
    }
  }

  lemma PostBalances(log: EpochLog, e: nat, pending: seq<Item>, inbox: seq<string>, data: string, fate: Fate)
    requires Balanced(log, e, pending, inbox, true) && (fate.WrittenAtOnce? ==> !log.displaced)
    ensures var item := Item(e, |log.sent|, data);
            Balanced(log.(sent := log.sent + [(item, fate)],
                          written := if fate.WrittenAtOnce? then log.written + [Direct(item)] else log.written),
                     e, if fate.Queued? then pending + [item] else pending, inbox, true)
  {
  }

  lemma PostedGood(c: Cell, data: string, open: bool, ok: bool)
    requires Good(c) && !c.ctx.seenNone
    ensures var t := Posted(c, data, open, ok); Good(t) && !t.ctx.seenNone
  {
    var fate := if !IsOpen(c.ctx, open) then Queued else if ok then WrittenAtOnce else WriteFailed;
    PostBalances(c.log, c.ctx.epoch, QueueOf(c), c.ctx.inbox, data, fate);
  }

  lemma SendGood(c: Cell, data: string, open: bool, ok: bool)
    requires Good(c)
    ensures Good(SendOn(c, data, open, ok).0)
  {
    SessionGood(c);
    PostedGood(WithSession(c), data, open, ok);
    TakeGood(Post(c, data, open, ok));
  }

  lemma FlushBalances(log: EpochLog, e: nat, pending: seq<Item>, inbox: seq<string>, k: nat)
    requires Balanced(log, e, pending, inbox, true) && k <= |pending| && (k > 0 ==> !log.displaced)
    ensures Balanced(log.(written := log.written + Flushes(pending[..k])), e, pending[k..], inbox, true)
  {
    FlushAppend(log.written, pending[..k]);
    var flushed := FlushedItems(log.written);
    assert pending == pending[..k] + pending[k..];
    assert (flushed + pending[..k]) + pending[k..] + [] == flushed + pending + [];
  }

  lemma FlushedGood(c: Cell, open: bool, oks: seq<bool>)
    requires Good(c) && !c.ctx.seenNone
    ensures Good(Flushed(c, open, oks))
  {
    var queue := QueueOf(c);
    var k := if IsOpen(c.ctx, open) then Successes(queue, oks) else 0;
    FlushBalances(c.log, c.ctx.epoch, queue, c.ctx.inbox, k);
    assert k == 0 ==> c.log.written + Flushes(queue[..k]) == c.log.written;
  }

  lemma FlushGood(c: Cell, open: bool, oks: seq<bool>)
    requires Good(c)
    ensures Good(FlushPending(c, open, oks))
  {
    if QueueOf(c) != [] {
      SessionGood(c);
      FlushedGood(WithSession(c), open, oks);
    }
  }

  lemma ReceiveGood(c: Cell, open: bool, oks: seq<bool>)
    requires Good(c)
    ensures Good(ReceiveOn(c, open, oks).0)
  {
    FlushGood(c, open, oks);
    var f := FlushPending(c, open, oks);
    SessionGood(f);
    TakeGood(WithSession(f));
  }

  lemma ReadGood(c: Cell, r: Read)
    requires Good(c)
    ensures Good(OnRead(c, r))
  {
    if r.Data? {
      var log, inbox, b := c.log, c.ctx.inbox, r.bytes;
      assert log.handed + (inbox + [b]) + [] + [] == (log.handed + inbox + [] + []) + [b];
      assert log.handed + inbox + [] + (log.stranded + [b]) == (log.handed + inbox + [] + log.stranded) + [b];
    }
  }

  /** Every event keeps a good connection good. */
  lemma StepGood(c: Cell, ev: Event)
    requires Good(c)
    ensures Good(Step(c, ev)) && Same(c, Step(c, ev))
  {
    StepSame(c, ev);
    match ev
    case Sending(_, data, open, ok) => SendGood(c, data, open, ok);
    case Receiving(_, open, oks) => ReceiveGood(c, open, oks);
    case Reading(_, r) => ReadGood(c, r);
    case _ =>
  }

  lemma CloseBalances(log: EpochLog, e: nat, pending: seq<Item>, inbox: seq<string>)
    requires Balanced(log, e, pending, inbox, true)
    ensures Balanced(log.(lost := inbox, dropped := pending), e, [], [], false)
  {
    var flushed := FlushedItems(log.written);
    assert flushed + pending + [] == flushed + [] + pending;
    assert log.handed + inbox + [] + log.stranded == log.handed + [] + inbox + log.stranded;
  }

  // ---------------------------------------------------------------- what requests hand out

  /** A reply carries a message or nothing. */
  function Message(r: Reply): seq<string> {
    if r.msg != "" then [r.msg] else []
  }

  lemma TakeHands(c: Cell)
    requires Good(c)
    ensures Take(c).log.handed == c.log.handed + if FrontOf(c.ctx.inbox) != "" then [FrontOf(c.ctx.inbox)] else []
  {
    if c.ctx.inbox != [] {
      assert c.log.arrived[|c.log.handed|] == c.ctx.inbox[0];
    }
  }

  /** `Send` and `Receive` hand out exactly the message they return. */
  lemma SendHandsOut(c: Cell, data: string, open: bool, ok: bool)
    requires Good(c)
    ensures var (t, r) := SendOn(c, data, open, ok);
            && t.log.handed == c.log.handed + Message(r)
            && (r.msg != "" ==> r.code == if ok then SUCCESS else WRITE_FAILURE)
  {
    SessionGood(c);
    PostedGood(WithSession(c), data, open, ok);
    TakeHands(Post(c, data, open, ok));
  }

  lemma ReceiveHandsOut(c: Cell, open: bool, oks: seq<bool>)
    requires Good(c)
    ensures var (t, r) := ReceiveOn(c, open, oks);
            t.log.handed == c.log.handed + Message(r) && r.code == SUCCESS
  {
    FlushGood(c, open, oks);
    var f := FlushPending(c, open, oks);
    SessionGood(f);
    TakeHands(WithSession(f));
  }

  lemma OthersHandNothingOut(c: Cell, ev: Event)
    requires !ev.Sending? && !ev.Receiving?
    ensures Step(c, ev).log.handed == c.log.handed
  {
  }
}
