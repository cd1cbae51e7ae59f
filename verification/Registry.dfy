/** The signal and slot tables of dynamic Qt objects, the connections made through them, and what an
    emission invokes. Qt's own part (argument checks, looking up static methods, whether `connect`
    accepts) is a parameter of each request. */
module Registry {
  import opened Common

  /** A normalized signature. */
  datatype Sig = Sig(text: string)

  /** Identity of a `DynamicSlot` object. */
  type Slot = nat

  /** Identity of a Qt object. */
  type Obj = nat

  /** The tables of one dynamic object. */
  datatype Dyn = Dyn(slotIndices: map<Sig, nat>, slotList: seq<Slot>, signalIndices: map<Sig, nat>)

  const NewDyn := Dyn(map[], [], map[])

  /** A slot signature keeps the index and the slot object of its first registration. */
  function AddSlot(d: Dyn, sig: Sig, slot: Slot): Dyn {
    if sig in d.slotIndices then d
    else d.(slotIndices := d.slotIndices[sig := |d.slotList|], slotList := d.slotList + [slot])
  }

  function AddSignal(d: Dyn, sig: Sig): Dyn {
    if sig in d.signalIndices then d
    else d.(signalIndices := d.signalIndices[sig := |d.signalIndices|])
  }

  /** The signal of a connection: of a dynamic sender by signature, otherwise by method index. */
  datatype Source = DynamicSignal(sig: Sig) | StaticSignal(id: nat)

  /** The slot of a connection, likewise. */
  datatype Target = DynamicSlot(sig: Sig, slot: Slot) | StaticSlot(id: nat)

  /** A connect operation that passed its checks: `connectDynamicSlot`, `connectDynamicSignal` or
      `connectDynamicSignalToDynamicSlot`. `linked` is what `QMetaObject::connect` answered. */
  datatype Request = Request(sender: Obj, source: Source, receiver: Obj, target: Target, linked: bool)

  datatype Link = Link(sender: Obj, signalId: nat, receiver: Obj, slotId: nat)

  /** `methods`: the number of static methods of a dynamic object, which offsets dynamic indices.
      `history` records the requests. */
  datatype World = World(
    methods: nat,
    objs: map<Obj, Dyn>,
    links: seq<Link>,
    history: seq<Request>)

  function DynOf(w: World, o: Obj): Dyn {
    if o in w.objs then w.objs[o] else NewDyn
  }

  /** Dynamic ends belong to dynamic objects, whose static methods have the low indices. */
  predicate Legal(w: World, r: Request) {
    && (r.source.DynamicSignal? ==> r.sender in w.objs)
    && (r.target.DynamicSlot? ==> r.receiver in w.objs)
    && (r.source.StaticSignal? && r.sender in w.objs ==> r.source.id < w.methods)
    && (r.target.StaticSlot? && r.receiver in w.objs ==> r.target.id < w.methods)
  }

  function Registered(w: World, r: Request): World {
    var w1 := if r.source.DynamicSignal?
              then w.(objs := w.objs[r.sender := AddSignal(DynOf(w, r.sender), r.source.sig)]) else w;
    if r.target.DynamicSlot?
    then w1.(objs := w1.objs[r.receiver := AddSlot(DynOf(w1, r.receiver), r.target.sig, r.target.slot)]) else w1
  }

  /** The method indices that the ends of a connection have in the current tables. */
  function SignalId(w: World, o: Obj, source: Source): nat {
    match source
    case StaticSignal(id) => id
    case DynamicSignal(sig) =>
      if sig in DynOf(w, o).signalIndices then DynOf(w, o).signalIndices[sig] + w.methods else 0
  }

  function SlotId(w: World, o: Obj, target: Target): nat {
    match target
    case StaticSlot(id) => id
    case DynamicSlot(sig, _) =>
      if sig in DynOf(w, o).slotIndices then DynOf(w, o).slotIndices[sig] + w.methods else 0
  }

  function LinkOf(w: World, r: Request): Link {
    Link(r.sender, SignalId(w, r.sender, r.source), r.receiver, SlotId(w, r.receiver, r.target))
  }

  /** One connect operation. Sender and receiver may be the same object. */
  function Connect(w: World, r: Request): World {
    var t := Registered(w, r);
    t.(history := w.history + [r],
       links := if r.linked then w.links + [LinkOf(t, r)] else w.links)
  }

  // ---------------------------------------------------------------- emission

  datatype Invocation = CallSlot(slot: Slot) | CallStatic(obj: Obj, slotId: nat)

  /** `qt_metacall`: an index past the static methods of a dynamic object selects its slot list. */
  function Invoke(w: World, l: Link): seq<Invocation> {
    if l.receiver in w.objs && l.slotId >= w.methods then
      (if l.slotId - w.methods < |w.objs[l.receiver].slotList|
       then [CallSlot(w.objs[l.receiver].slotList[l.slotId - w.methods])] else [])
    else [CallStatic(l.receiver, l.slotId)]
  }

  /** Activating a method index invokes the connected slots in connection order. */
  function Activate(w: World, links: seq<Link>, o: Obj, signalId: nat): seq<Invocation> {
    if links == [] then [] else
    var last := links[|links| - 1];
    Activate(w, links[..|links| - 1], o, signalId)
      + if last.sender == o && last.signalId == signalId then Invoke(w, last) else []
  }

  /** What `emitDynamicSignal` does; it returns false when the object has no such signal. */
  datatype Emission = NoSuchSignal | Invoked(calls: seq<Invocation>)

  function Emit(w: World, o: Obj, sig: Sig): Emission {
    if sig in DynOf(w, o).signalIndices
    then Invoked(Activate(w, w.links, o, SignalId(w, o, DynamicSignal(sig)))) else NoSuchSignal
  }

  // ---------------------------------------------------------------- reference: by names and history

  predicate NamesSlot(r: Request, o: Obj, sig: Sig) {
    r.receiver == o && r.target.DynamicSlot? && r.target.sig == sig
  }

  /** The slot object of the first request that named this slot. */
  function FirstSlot(history: seq<Request>, o: Obj, sig: Sig): Option<Slot> {
    if history == [] then None
    else if NamesSlot(history[0], o, sig) then Some(history[0].target.slot)
    else FirstSlot(history[1..], o, sig)
  }

  /** The requests that Qt linked, in order. */
  function Linked(history: seq<Request>): seq<Request> {
    if history == [] then [] else
    var last := history[|history| - 1];
    Linked(history[..|history| - 1]) + if last.linked then [last] else []
  }

  /** What a linked request stands for: its static slot, or the first slot object of that name. */
  function Meaning(history: seq<Request>, r: Request): seq<Invocation> {
    match r.target
    case StaticSlot(id) => [CallStatic(r.receiver, id)]
    case DynamicSlot(sig, _) =>
      var first := FirstSlot(history, r.receiver, sig);
      if first.Some? then [CallSlot(first.value)] else []
  }

  /** Everything connected to a source, by name, in connection order. */
  function Connected(history: seq<Request>, accepted: seq<Request>, o: Obj, source: Source): seq<Invocation> {
    if accepted == [] then [] else
    var last := accepted[|accepted| - 1];
    Connected(history, accepted[..|accepted| - 1], o, source)
      + if last.sender == o && last.source == source then Meaning(history, last) else []
  }

  predicate KnowsSignal(history: seq<Request>, o: Obj, sig: Sig) {
    exists k :: 0 <= k < |history| && history[k].sender == o && history[k].source == DynamicSignal(sig)
  }

  // ---------------------------------------------------------------- invariant

  /** The table is a bijection between its signatures and 0..n-1. */
  ghost predicate Taken(indices: map<Sig, nat>, i: nat) {
    exists s :: s in indices && indices[s] == i
  }

  ghost predicate Bijective(indices: map<Sig, nat>, n: nat) {
    && |indices| == n
    && (forall s :: s in indices ==> indices[s] < n)
    && (forall s, t :: s in indices && t in indices && indices[s] == indices[t] ==> s == t)
    && (forall i :: 0 <= i < n ==> Taken(indices, i))
  }

  lemma BijectiveInsert(indices: map<Sig, nat>, n: nat, sig: Sig)
    requires Bijective(indices, n) && sig !in indices
    ensures Bijective(indices[sig := n], n + 1)
  {
    var m := indices[sig := n];
    assert m.Keys == indices.Keys + {sig};
    forall i | 0 <= i < n + 1
      ensures Taken(m, i)
    {
      if i < n {
        assert Taken(indices, i);
        var s :| s in indices && indices[s] == i;
        assert s in m && m[s] == i;
      } else {
        assert sig in m && m[sig] == i;
      }
    }
  }

  /** Nothing that was assigned changes: tables only grow. */
  ghost predicate Grows(d: Dyn, t: Dyn) {
    && (forall s :: s in d.slotIndices ==> s in t.slotIndices && t.slotIndices[s] == d.slotIndices[s])
    && (forall s :: s in d.signalIndices ==> s in t.signalIndices && t.signalIndices[s] == d.signalIndices[s])
    && d.slotList <= t.slotList
  }

  lemma {:induction false} FirstSlotAppend(history: seq<Request>, r: Request, o: Obj, sig: Sig)
    ensures FirstSlot(history + [r], o, sig) ==
            if FirstSlot(history, o, sig).Some? then FirstSlot(history, o, sig)
            else if NamesSlot(r, o, sig) then Some(r.target.slot) else None
  {
    if history == [] {
      assert (history + [r])[1..] == [];
    } else {
      assert (history + [r])[1..] == history[1..] + [r];
      FirstSlotAppend(history[1..], r, o, sig);
    }
  }

  lemma KnowsSignalAppend(history: seq<Request>, r: Request, o: Obj, sig: Sig)
    ensures KnowsSignal(history + [r], o, sig) <==>
            KnowsSignal(history, o, sig) || (r.sender == o && r.source == DynamicSignal(sig))
  {
    var h := history + [r];
    assert h[|history|] == r;
    assert forall k :: 0 <= k < |history| ==> h[k] == history[k];
  }

  /** Both ends of a request are in the tables of its objects. */
  predicate InTables(w: World, r: Request) {
    && (r.source.DynamicSignal? ==> r.source.sig in DynOf(w, r.sender).signalIndices)
    && (r.target.DynamicSlot? ==> r.target.sig in DynOf(w, r.receiver).slotIndices)
  }

  /** The tables of an object agree with the requests that named it. */
  ghost predicate SlotsOk(d: Dyn, history: seq<Request>, o: Obj) {
    && Bijective(d.slotIndices, |d.slotList|)
    && (forall sig :: sig in d.slotIndices ==> FirstSlot(history, o, sig) == Some(d.slotList[d.slotIndices[sig]]))
    && (forall sig :: sig !in d.slotIndices ==> FirstSlot(history, o, sig).None?)
  }

  ghost predicate SignalsOk(d: Dyn, history: seq<Request>, o: Obj) {
    && Bijective(d.signalIndices, |d.signalIndices|)
    && (forall sig :: sig in d.signalIndices <==> KnowsSignal(history, o, sig))
  }

  ghost predicate TablesInv(w: World) {
    forall o {:trigger TableOk(w, o)} :: o in w.objs ==> TableOk(w, o)
  }

  ghost predicate TableOk(w: World, o: Obj)
    requires o in w.objs
  {
    SlotsOk(w.objs[o], w.history, o) && SignalsOk(w.objs[o], w.history, o)
  }

  ghost predicate LinksInv(w: World) {
    && |w.links| == |Linked(w.history)|
    && forall k :: 0 <= k < |w.links| ==> LinkOk(w, k)
  }

  /** Link `k` was made for the `k`-th accepted request. */
  ghost predicate LinkOk(w: World, k: nat)
    requires k < |w.links| == |Linked(w.history)|
  {
    var r := Linked(w.history)[k];
    Legal(w, r) && InTables(w, r) && w.links[k] == LinkOf(w, r)
  }

  /** A request changes the tables of its two ends only, and only by growth. */
  lemma RegisteredGrows(w: World, r: Request)
    requires Legal(w, r)
    ensures var t := Registered(w, r);
            && t.objs.Keys == w.objs.Keys && t.methods == w.methods
            && (forall o :: o in w.objs ==> Grows(w.objs[o], t.objs[o]))
            && InTables(t, r)
  {
  }

  /** What a request does to the tables of one object. */
  function After(d: Dyn, r: Request, o: Obj): Dyn {
    var d1 := if r.source.DynamicSignal? && r.sender == o then AddSignal(d, r.source.sig) else d;
    if r.target.DynamicSlot? && r.receiver == o then AddSlot(d1, r.target.sig, r.target.slot) else d1
  }

  lemma RegisteredAt(w: World, r: Request, o: Obj)
    requires Legal(w, r) && o in w.objs
    ensures o in Registered(w, r).objs && Registered(w, r).objs[o] == After(w.objs[o], r, o)
  {
  }

  predicate AddsSlot(d: Dyn, r: Request, o: Obj) {
    r.target.DynamicSlot? && r.receiver == o && r.target.sig !in d.slotIndices
  }

  lemma SlotsAfter(d: Dyn, r: Request, o: Obj)
    ensures var t := After(d, r, o);
            if AddsSlot(d, r, o)
            then && t.slotIndices == d.slotIndices[r.target.sig := |d.slotList|]
                 && t.slotList == d.slotList + [r.target.slot]
            else t.slotIndices == d.slotIndices && t.slotList == d.slotList
  {
  }

  lemma SlotsStep(d: Dyn, history: seq<Request>, r: Request, o: Obj)
    requires SlotsOk(d, history, o)
    ensures SlotsOk(After(d, r, o), history + [r], o)
  {
    SlotsAfter(d, r, o);
    var t := After(d, r, o);
    if AddsSlot(d, r, o) {
      BijectiveInsert(d.slotIndices, |d.slotList|, r.target.sig);
      assert |t.slotList| == |d.slotList| + 1;
    }
    forall sig
      ensures sig in t.slotIndices ==> FirstSlot(history + [r], o, sig) == Some(t.slotList[t.slotIndices[sig]])
      ensures sig !in t.slotIndices ==> FirstSlot(history + [r], o, sig).None?
    {
      FirstSlotAppend(history, r, o, sig);
      if sig in d.slotIndices {
        assert t.slotList[d.slotIndices[sig]] == d.slotList[d.slotIndices[sig]];
      }
    }
  }

  predicate AddsSignal(d: Dyn, r: Request, o: Obj) {
    r.source.DynamicSignal? && r.sender == o && r.source.sig !in d.signalIndices
  }

  lemma SignalsAfter(d: Dyn, r: Request, o: Obj)
    ensures After(d, r, o).signalIndices ==
            if AddsSignal(d, r, o) then d.signalIndices[r.source.sig := |d.signalIndices|] else d.signalIndices
  {
  }

  lemma SignalsStep(d: Dyn, history: seq<Request>, r: Request, o: Obj)
    requires SignalsOk(d, history, o)
    ensures SignalsOk(After(d, r, o), history + [r], o)
  {
    SignalsAfter(d, r, o);
    var t := After(d, r, o);
    if AddsSignal(d, r, o) {
      BijectiveInsert(d.signalIndices, |d.signalIndices|, r.source.sig);
      assert |t.signalIndices| == |d.signalIndices| + 1;
    }
    forall sig
      ensures sig in t.signalIndices <==> KnowsSignal(history + [r], o, sig)
    {
      KnowsSignalAppend(history, r, o, sig);
    }
  }

  lemma ConnectKeepsTables(w: World, r: Request)
    requires TablesInv(w) && Legal(w, r)
    ensures TablesInv(Connect(w, r))
  {
    var t := Connect(w, r);
    RegisteredGrows(w, r);
    forall o | o in t.objs
      ensures TableOk(t, o)
    {
      assert TableOk(w, o);
      RegisteredAt(w, r, o);
      SlotsStep(w.objs[o], w.history, r, o);
      SignalsStep(w.objs[o], w.history, r, o);
    }
  }

  /** Growth leaves the meaning of earlier links alone. */
  lemma LinkStays(w: World, t: World, r: Request)
    requires t.methods == w.methods && t.objs.Keys == w.objs.Keys
    requires forall o :: o in w.objs ==> Grows(w.objs[o], t.objs[o])
    requires Legal(w, r) && InTables(w, r)
    ensures Legal(t, r) && InTables(t, r) && LinkOf(t, r) == LinkOf(w, r)
  {
  }

  lemma LinkedAppend(history: seq<Request>, r: Request)
    ensures Linked(history + [r]) == Linked(history) + if r.linked then [r] else []
  {
  }

  lemma ConnectKeepsLinks(w: World, r: Request)
    requires LinksInv(w) && Legal(w, r)
    ensures LinksInv(Connect(w, r))
  {
    var t := Connect(w, r);
    RegisteredGrows(w, r);
    LinkedAppend(w.history, r);
    forall k | 0 <= k < |t.links|
      ensures |t.links| == |Linked(t.history)| && LinkOk(t, k)
    {
      if k < |w.links| {
        assert LinkOk(w, k);
        LinkStays(w, t, Linked(w.history)[k]);
      } else {
        assert LinkOf(t, r) == LinkOf(Registered(w, r), r);
      }
    }
  }

  // ---------------------------------------------------------------- theorems over all runs

  /** Any set of dynamic objects, before the first connection. */
  function Fresh(methods: nat, objs: set<Obj>): World {
    World(methods, map o | o in objs :: NewDyn, [], [])
  }

  predicate AllLegal(methods: nat, objs: set<Obj>, requests: seq<Request>) {
    forall k :: 0 <= k < |requests| ==> Legal(Fresh(methods, objs), requests[k])
  }

  function Run(methods: nat, objs: set<Obj>, requests: seq<Request>): World {
    if requests == [] then Fresh(methods, objs)
    else Connect(Run(methods, objs, requests[..|requests| - 1]), requests[|requests| - 1])
  }

  ghost predicate Good(w: World, methods: nat, objs: set<Obj>) {
    w.methods == methods && w.objs.Keys == objs && TablesInv(w) && LinksInv(w)
  }

  lemma FreshGood(methods: nat, objs: set<Obj>)
    ensures Good(Fresh(methods, objs), methods, objs)
  {
  }

  lemma ConnectGood(w: World, methods: nat, objs: set<Obj>, r: Request)
    requires Good(w, methods, objs) && Legal(Fresh(methods, objs), r)
    ensures Legal(w, r) && Good(Connect(w, r), methods, objs)
    ensures forall o :: o in objs ==> Grows(w.objs[o], Connect(w, r).objs[o])
    ensures Connect(w, r).history == w.history + [r]
  {
    RegisteredGrows(w, r);
    ConnectKeepsTables(w, r);
    ConnectKeepsLinks(w, r);
  }

  lemma {:induction false} RunInv(methods: nat, objs: set<Obj>, requests: seq<Request>)
    requires AllLegal(methods, objs, requests)
    ensures Good(Run(methods, objs, requests), methods, objs)
    ensures Run(methods, objs, requests).history == requests
  {
    if requests == [] {
      FreshGood(methods, objs);
    } else {
      var before, r := requests[..|requests| - 1], requests[|requests| - 1];
      LegalParts(methods, objs, requests);
      RunInv(methods, objs, before);
      StepGood(Run(methods, objs, before), methods, objs, r, Run(methods, objs, requests));
      assert before + [r] == requests;
    }
  }

  lemma LegalParts(methods: nat, objs: set<Obj>, requests: seq<Request>)
    requires AllLegal(methods, objs, requests) && requests != []
    ensures AllLegal(methods, objs, requests[..|requests| - 1])
    ensures Legal(Fresh(methods, objs), requests[|requests| - 1])
  {
  }

  lemma StepGood(w: World, methods: nat, objs: set<Obj>, r: Request, t: World)
    requires Good(w, methods, objs) && Legal(Fresh(methods, objs), r) && t == Connect(w, r)
    ensures Good(t, methods, objs) && t.history == w.history + [r]
  {
    ConnectGood(w, methods, objs, r);
  }

  /** After any run the slot indices of each object are a bijection onto the positions of its slot
      list, and its signal indices a bijection onto 0..n-1. */
  lemma IndicesAreBijections(methods: nat, objs: set<Obj>, requests: seq<Request>, o: Obj)
    requires AllLegal(methods, objs, requests) && o in objs
    ensures var w := Run(methods, objs, requests);
            o in w.objs
            && Bijective(w.objs[o].slotIndices, |w.objs[o].slotList|)
            && Bijective(w.objs[o].signalIndices, |w.objs[o].signalIndices|)
  {
    RunInv(methods, objs, requests);
    assert TableOk(Run(methods, objs, requests), o);
  }

  /** No index that was assigned by the first `n` requests changes, whatever is connected later. */
  lemma {:induction false} IndicesNeverChange(methods: nat, objs: set<Obj>, requests: seq<Request>, n: nat, o: Obj)
    requires AllLegal(methods, objs, requests) && n <= |requests| && o in objs
    ensures o in Run(methods, objs, requests[..n]).objs && o in Run(methods, objs, requests).objs
    ensures Grows(Run(methods, objs, requests[..n]).objs[o], Run(methods, objs, requests).objs[o])
  {
    if n == |requests| {
      assert requests[..n] == requests;
      RunInv(methods, objs, requests);
    } else {
      var before, r := requests[..|requests| - 1], requests[|requests| - 1];
      IndicesNeverChange(methods, objs, before, n, o);
      assert before[..n] == requests[..n];
      RunInv(methods, objs, before);
      ConnectGood(Run(methods, objs, before), methods, objs, r);
      GrowsTrans(Run(methods, objs, requests[..n]).objs[o], Run(methods, objs, before).objs[o],
                 Run(methods, objs, requests).objs[o]);
    }
  }

  lemma GrowsTrans(a: Dyn, b: Dyn, c: Dyn)
    requires Grows(a, b) && Grows(b, c)
    ensures Grows(a, c)
  {
  }

  /** A link leaves the source it was made for and no other. */
  lemma LinkMatchesIff(w: World, r: Request, o: Obj, source: Source)
    requires TablesInv(w) && Legal(w, r) && InTables(w, r)
    requires Legal(w, Request(o, source, r.receiver, r.target, false))
    requires source.DynamicSignal? ==> source.sig in DynOf(w, o).signalIndices
    ensures LinkOf(w, r).sender == o && LinkOf(w, r).signalId == SignalId(w, o, source)
            <==> r.sender == o && r.source == source
  {
    if r.sender == o && o in w.objs {
      assert TableOk(w, o);
    }
  }

  /** A link invokes what its request stands for by name. */
  lemma LinkInvokes(w: World, r: Request)
    requires Legal(w, r) && InTables(w, r)
    requires r.receiver in w.objs ==> SlotsOk(w.objs[r.receiver], w.history, r.receiver)
    ensures Invoke(w, LinkOf(w, r)) == Meaning(w.history, r)
  {
  }

  /** A link stands for a request: it leaves the source if and only if the request does, and invokes
      what the request means. */
  ghost predicate StandsFor(w: World, link: Link, signalId: nat, history: seq<Request>, r: Request, o: Obj,
                            source: Source)
  {
    && (link.sender == o && link.signalId == signalId <==> r.sender == o && r.source == source)
    && Invoke(w, link) == Meaning(history, r)
  }

  lemma {:induction false} ActivateIsConnected(w: World, links: seq<Link>, signalId: nat, history: seq<Request>,
                                               accepted: seq<Request>, o: Obj, source: Source)
    requires |links| == |accepted|
    requires forall k :: 0 <= k < |links| ==> StandsFor(w, links[k], signalId, history, accepted[k], o, source)
    ensures Activate(w, links, o, signalId) == Connected(history, accepted, o, source)
  {
    if links != [] {
      var n := |links| - 1;
      ActivateIsConnected(w, links[..n], signalId, history, accepted[..n], o, source);
      assert StandsFor(w, links[n], signalId, history, accepted[n], o, source);
    }
  }

  /** A link of the table against the request it was made for. */
  lemma LinkAt(w: World, o: Obj, source: Source, k: nat)
    requires TablesInv(w) && LinksInv(w) && k < |w.links|
    requires source.DynamicSignal? ==> o in w.objs && source.sig in DynOf(w, o).signalIndices
    requires source.StaticSignal? && o in w.objs ==> source.id < w.methods
    ensures k < |Linked(w.history)|
    ensures var link, r := w.links[k], Linked(w.history)[k];
            StandsFor(w, link, SignalId(w, o, source), w.history, r, o, source)
  {
    var r := Linked(w.history)[k];
    assert LinkOk(w, k);
    LinkMatchesIff(w, r, o, source);
    assert r.receiver in w.objs ==> TableOk(w, r.receiver);
    LinkInvokes(w, r);
  }

  /** Emitting a dynamic signal succeeds exactly when some connect operation named it, and then it
      invokes exactly the slots connected to it by name, in connection order, each dynamic one being
      the first slot object registered under its signature. */
  lemma EmitInvokesConnected(methods: nat, objs: set<Obj>, requests: seq<Request>, o: Obj, sig: Sig)
    requires AllLegal(methods, objs, requests) && o in objs
    ensures Emit(Run(methods, objs, requests), o, sig) ==
            if KnowsSignal(requests, o, sig)
            then Invoked(Connected(requests, Linked(requests), o, DynamicSignal(sig))) else NoSuchSignal
  {
    RunInv(methods, objs, requests);
    EmitIn(Run(methods, objs, requests), o, sig);
  }

  lemma EmitIn(w: World, o: Obj, sig: Sig)
    requires TablesInv(w) && LinksInv(w) && o in w.objs
    ensures Emit(w, o, sig) == if KnowsSignal(w.history, o, sig)
                               then Invoked(Connected(w.history, Linked(w.history), o, DynamicSignal(sig)))
                               else NoSuchSignal
  {
    assert TableOk(w, o);
    SignalKnown(w.objs[o], w.history, o, sig);
    if sig in w.objs[o].signalIndices {
      EmitKnown(w, o, sig);
    }
  }

  lemma SignalKnown(d: Dyn, history: seq<Request>, o: Obj, sig: Sig)
    requires SignalsOk(d, history, o)
    ensures sig in d.signalIndices <==> KnowsSignal(history, o, sig)
  {
  }

  lemma EmitKnown(w: World, o: Obj, sig: Sig)
    requires TablesInv(w) && LinksInv(w) && o in w.objs && sig in w.objs[o].signalIndices
    ensures Emit(w, o, sig) == Invoked(Connected(w.history, Linked(w.history), o, DynamicSignal(sig)))
  {
    ActivateAll(w, o, DynamicSignal(sig));
  }

  lemma ActivateAll(w: World, o: Obj, source: Source)
    requires TablesInv(w) && LinksInv(w)
    requires source.DynamicSignal? ==> o in w.objs && source.sig in DynOf(w, o).signalIndices
    requires source.StaticSignal? && o in w.objs ==> source.id < w.methods
    ensures Activate(w, w.links, o, SignalId(w, o, source)) == Connected(w.history, Linked(w.history), o, source)
  {
    forall k | 0 <= k < |w.links|
      ensures StandsFor(w, w.links[k], SignalId(w, o, source), w.history, Linked(w.history)[k], o, source)
    {
      LinkAt(w, o, source, k);
    }
    ActivateIsConnected(w, w.links, SignalId(w, o, source), w.history, Linked(w.history), o, source);
  }

  /** The same for a static signal of any object, static or dynamic. */
  lemma StaticSignalInvokesConnected(methods: nat, objs: set<Obj>, requests: seq<Request>, o: Obj, id: nat)
    requires AllLegal(methods, objs, requests) && (o in objs ==> id < methods)
    ensures var w := Run(methods, objs, requests);
            Activate(w, w.links, o, id) == Connected(requests, Linked(requests), o, StaticSignal(id))
  {
    RunInv(methods, objs, requests);
    ActivateAll(Run(methods, objs, requests), o, StaticSignal(id));
  }

  // ---------------------------------------------------------------- delivery

  /** Every connection is queued: an emission puts an event for each matching link in the queue of its
      receiver, and `qt_metacall` looks up the slot when the event is delivered. */
  function Queued(links: seq<Link>, o: Obj, signalId: nat): seq<Link> {
    if links == [] then [] else
    var last := links[|links| - 1];
    Queued(links[..|links| - 1], o, signalId) + if last.sender == o && last.signalId == signalId then [last] else []
  }

  predicate Within(times: seq<nat>, n: nat, m: nat) {
    forall i :: 0 <= i < |times| ==> n <= times[i] <= m
  }

  /** What the events invoke when event number `i` is delivered after `times[i]` requests. */
  function Delivered(methods: nat, objs: set<Obj>, requests: seq<Request>, queue: seq<Link>, times: seq<nat>)
    : seq<Invocation>
    requires |times| == |queue| && Within(times, 0, |requests|)
  {
    if queue == [] then [] else
    var n := |queue| - 1;
    Delivered(methods, objs, requests, queue[..n], times[..n])
      + Invoke(Run(methods, objs, requests[..times[n]]), queue[n])
  }

  /** The slot of a link is there when the link is. */
  ghost predicate Resolves(w: World, l: Link) {
    l.receiver in w.objs && l.slotId >= w.methods ==> l.slotId - w.methods < |w.objs[l.receiver].slotList|
  }

  lemma LinkResolves(w: World, k: nat)
    requires TablesInv(w) && LinksInv(w) && k < |w.links|
    ensures Resolves(w, w.links[k])
  {
    assert LinkOk(w, k);
    var r := Linked(w.history)[k];
    assert r.receiver in w.objs ==> TableOk(w, r.receiver);
  }

  lemma InvokeGrown(w: World, t: World, l: Link)
    requires t.methods == w.methods && t.objs.Keys == w.objs.Keys && Resolves(w, l)
    requires l.receiver in w.objs ==> Grows(w.objs[l.receiver], t.objs[l.receiver])
    ensures Invoke(t, l) == Invoke(w, l)
  {
  }

  /** A link invokes the same in every later world. */
  lemma InvokedLater(methods: nat, objs: set<Obj>, requests: seq<Request>, n: nat, at: nat, l: Link)
    requires AllLegal(methods, objs, requests) && n <= at <= |requests|
    requires Resolves(Run(methods, objs, requests[..n]), l)
    ensures Invoke(Run(methods, objs, requests[..at]), l) == Invoke(Run(methods, objs, requests[..n]), l)
  {
    assert AllLegal(methods, objs, requests[..n]) && AllLegal(methods, objs, requests[..at]);
    RunInv(methods, objs, requests[..at]);
    RunInv(methods, objs, requests[..n]);
    if l.receiver in objs {
      IndicesNeverChange(methods, objs, requests[..at], n, l.receiver);
      assert requests[..at][..n] == requests[..n];
    }
    InvokeGrown(Run(methods, objs, requests[..n]), Run(methods, objs, requests[..at]), l);
  }

  /** What the events invoke in one world. */
  function InvokeAll(w: World, queue: seq<Link>): seq<Invocation> {
    if queue == [] then [] else
    var n := |queue| - 1;
    InvokeAll(w, queue[..n]) + Invoke(w, queue[n])
  }

  lemma {:induction false} QueuedIsActivated(w: World, links: seq<Link>, o: Obj, signalId: nat)
    ensures InvokeAll(w, Queued(links, o, signalId)) == Activate(w, links, o, signalId)
  {
    if links != [] {
      var m := |links| - 1;
      QueuedIsActivated(w, links[..m], o, signalId);
      var queue := Queued(links[..m], o, signalId);
      assert (queue + [links[m]])[..|queue|] == queue && queue + [] == queue;
    }
  }

  lemma {:induction false} QueuedAreLinks(links: seq<Link>, o: Obj, signalId: nat, i: nat) returns (k: nat)
    requires i < |Queued(links, o, signalId)|
    ensures k < |links| && links[k] == Queued(links, o, signalId)[i]
  {
    var m := |links| - 1;
    if i < |Queued(links[..m], o, signalId)| {
      k := QueuedAreLinks(links[..m], o, signalId, i);
    } else {
      k := m;
    }
  }

  ghost predicate InvokesAs(w: World, t: World, l: Link) {
    Invoke(t, l) == Invoke(w, l)
  }

  lemma {:induction false} DeliveredIn(methods: nat, objs: set<Obj>, requests: seq<Request>, w: World, queue: seq<Link>,
                                       times: seq<nat>)
    requires |times| == |queue| && Within(times, 0, |requests|)
    requires forall i :: 0 <= i < |queue| ==> InvokesAs(w, Run(methods, objs, requests[..times[i]]), queue[i])
    ensures Delivered(methods, objs, requests, queue, times) == InvokeAll(w, queue)
  {
    if queue != [] {
      var n := |queue| - 1;
      DeliveredIn(methods, objs, requests, w, queue[..n], times[..n]);
    }
  }

  /** What is emitted after `n` requests invokes the slots connected by then, however many further
      connections are made before each of its events is delivered. */
  lemma DeliveryIsEmission(methods: nat, objs: set<Obj>, requests: seq<Request>, n: nat, o: Obj, sig: Sig,
                           times: seq<nat>)
    requires AllLegal(methods, objs, requests) && n <= |requests| && o in objs && KnowsSignal(requests[..n], o, sig)
    requires var w := Run(methods, objs, requests[..n]);
             |times| == |Queued(w.links, o, SignalId(w, o, DynamicSignal(sig)))|
    requires Within(times, n, |requests|)
    ensures var w := Run(methods, objs, requests[..n]);
            Delivered(methods, objs, requests, Queued(w.links, o, SignalId(w, o, DynamicSignal(sig))), times)
            == Connected(requests[..n], Linked(requests[..n]), o, DynamicSignal(sig))
  {
    var w := Run(methods, objs, requests[..n]);
    var id := SignalId(w, o, DynamicSignal(sig));
    assert AllLegal(methods, objs, requests[..n]);
    RunInv(methods, objs, requests[..n]);
    forall i | 0 <= i < |times|
      ensures InvokesAs(w, Run(methods, objs, requests[..times[i]]), Queued(w.links, o, id)[i])
    {
      var k := QueuedAreLinks(w.links, o, id, i);
      LinkResolves(w, k);
      InvokedLater(methods, objs, requests, n, times[i], w.links[k]);
    }
    DeliveredIn(methods, objs, requests, w, Queued(w.links, o, id), times);
    QueuedIsActivated(w, w.links, o, id);
    EmitInvokesConnected(methods, objs, requests[..n], o, sig);
  }
}
