/** The work queue that the parallel test workers share: a queue file, an id file and a
    lock file created with `noclobber`. Every shell line of `pop` and `main` is one atomic
    step of one worker, and a schedule is any sequence of worker numbers. */
module Dispatcher {
  import opened Common
  import opened Text

  /** The shell line a worker executes next. */
  datatype Pc =
    | TryLock    // create the lock file under noclobber
    | Head       // LINE=$(head -n 1 | awk '{print $1}')
    | Test       // [ -n "$LINE" ]
    | Sed        // sed -i 1d
    | EnsureId   // create the id file when it is missing
    | CatId      // CURRENT_ID=$(cat id file)
    | Increment  // let CURRENT_ID=CURRENT_ID+1
    | WriteId    // echo $CURRENT_ID > id file
    | Echo       // echo $CURRENT_ID $LINE
    | Unlock     // rm -f lock file
    | Return     // main inspects the result of pop
    | Docker     // docker_run with the two fields of the row
    | Stopped

  datatype Worker = Worker(pc: Pc, line: string, id: nat, res: nat, row: string)

  /** The three files, the workers, and three records of what happened: the (id, script)
      pairs printed by `pop`, the container runs, and the number of completed lock sections.
      No step reads the records. */
  datatype State = State(
    queue: seq<string>,
    lock: Option<nat>,
    idFile: Option<nat>,
    workers: seq<Worker>,
    issued: seq<(nat, string)>,
    runs: seq<(string, string)>,
    sections: nat)

  const RES_POPPED: nat := 0
  const RES_EMPTY: nat := 2

  const FreshWorker := Worker(TryLock, "", 0, 1, "")

  /** What `head | awk` prints for the first line of the queue file. */
  function Front(queue: seq<string>): string {
    if queue == [] then "" else FirstField(queue[0])
  }

  function IdValue(f: Option<nat>): nat {
    if f.None? then 0 else f.value
  }

  function Row(id: nat, line: string): string {
    Decimal(id) + " " + line
  }

  /** One step of worker `w`. */
  function Next(s: State, w: nat): (t: State)
    ensures |t.workers| == |s.workers|
  {
    if w >= |s.workers| then s else
    var me := s.workers[w];
    match me.pc
    case TryLock =>
      if s.lock.None? then s.(lock := Some(w), workers := s.workers[w := me.(pc := Head)]) else s
    case Head =>
      s.(workers := s.workers[w := me.(pc := Test, line := Front(s.queue))])
    case Test =>
      s.(workers := s.workers[w := if me.line != "" then me.(pc := Sed) else me.(pc := Unlock, res := RES_EMPTY)])
    case Sed =>
      s.(queue := if s.queue == [] then [] else s.queue[1..],
         workers := s.workers[w := me.(pc := EnsureId, res := RES_POPPED)])
    case EnsureId =>
      s.(idFile := Some(IdValue(s.idFile)), workers := s.workers[w := me.(pc := CatId)])
    case CatId =>
      s.(workers := s.workers[w := me.(pc := Increment, id := IdValue(s.idFile))])
    case Increment =>
      s.(workers := s.workers[w := me.(pc := WriteId, id := me.id + 1)])
    case WriteId =>
      s.(idFile := Some(me.id), workers := s.workers[w := me.(pc := Echo)])
    case Echo =>
      s.(issued := s.issued + [(me.id, me.line)],
         workers := s.workers[w := me.(pc := Unlock, row := Row(me.id, me.line))])
    case Unlock =>
      s.(lock := None, sections := s.sections + 1, workers := s.workers[w := me.(pc := Return)])
    case Return =>
      s.(workers := s.workers[w := me.(pc := if me.res == RES_EMPTY then Stopped else Docker)])
    case Docker =>
      s.(runs := s.runs + [(FirstField(me.row), SecondField(me.row))],
         workers := s.workers[w := me.(pc := TryLock, res := 1)])
    case Stopped => s
  }

  /** The state after the workers take turns as `schedule` says. */
  function Exec(s: State, schedule: seq<nat>): (t: State)
    ensures |t.workers| == |s.workers|
  {
    if schedule == [] then s else Next(Exec(s, schedule[..|schedule| - 1]), schedule[|schedule| - 1])
  }

  /** All files in place, `n` workers about to start. The lock file is normally absent; a lock
      left behind by somebody else is a number that belongs to no worker. */
  ghost predicate Init(s: State, queue: seq<string>, n: nat) {
    && s.queue == queue
    && (s.lock.Some? ==> s.lock.value >= n)
    && s.workers == seq(n, _ => FreshWorker)
    && s.issued == [] && s.runs == [] && s.sections == 0
  }

  // ---------------------------------------------------------------- invariant

  predicate Holding(pc: Pc) {
    pc.Head? || pc.Test? || pc.Sed? || MidPop(pc) || pc.Unlock?
  }

  /** Between removing a line from the queue and printing it. */
  predicate MidPop(pc: Pc) {
    pc.EnsureId? || pc.CatId? || pc.Increment? || pc.WriteId? || pc.Echo?
  }

  function HolderPc(s: State): Pc {
    if s.lock.Some? && s.lock.value < |s.workers| then s.workers[s.lock.value].pc else Stopped
  }

  /** Mutual exclusion: a worker is between taking and removing the lock exactly when the
      lock file is its own. */
  ghost predicate LockInv(s: State) {
    forall w :: 0 <= w < |s.workers| ==> (Holding(s.workers[w].pc) <==> s.lock == Some(w))
  }

  function Popped(s: State): nat {
    |s.issued| + if MidPop(HolderPc(s)) then 1 else 0
  }

  /** The queue file is a suffix of the original, and what was issued is the removed prefix,
      numbered consecutively from `base + 1`. */
  ghost predicate FileInv(s: State, q0: seq<string>, base: nat) {
    && Popped(s) <= |q0|
    && s.queue == q0[Popped(s)..]
    && (forall k :: 0 <= k < |s.issued| ==> s.issued[k] == (base + k + 1, FirstField(q0[k])))
    && (forall k :: 0 <= k < Popped(s) ==> FirstField(q0[k]) != "")
    && IdValue(s.idFile) == base + |s.issued| + (if HolderPc(s) == Echo then 1 else 0)
  }

  ghost predicate WorkerInv(me: Worker, s: State, q0: seq<string>, base: nat) {
    && (me.pc == Test ==> me.line == Front(s.queue))
    && (me.pc == Sed ==> me.line == Front(s.queue) != "")
    && (MidPop(me.pc) ==> |s.issued| < |q0| && me.line == FirstField(q0[|s.issued|]) && me.res == RES_POPPED)
    && (me.pc == Increment ==> me.id == base + |s.issued|)
    && (me.pc.WriteId? || me.pc.Echo? ==> me.id == base + |s.issued| + 1)
    && (me.pc.Unlock? || me.pc.Return? ==> me.res == RES_POPPED || me.res == RES_EMPTY)
    && (me.pc == Docker ==> me.res == RES_POPPED)
    && (HasSeenEnd(me) ==> Front(s.queue) == "" && !MidPop(HolderPc(s)))
  }

  predicate HasSeenEnd(me: Worker) {
    ((me.pc.Unlock? || me.pc.Return?) && me.res == RES_EMPTY) || me.pc == Stopped
  }

  ghost predicate WorkersInv(s: State, q0: seq<string>, base: nat) {
    forall w :: 0 <= w < |s.workers| ==> WorkerInv(s.workers[w], s, q0, base)
  }

  ghost predicate Inv(s: State, q0: seq<string>, base: nat) {
    LockInv(s) && FileInv(s, q0, base) && WorkersInv(s, q0, base)
  }

  lemma InitInv(s: State, q0: seq<string>, n: nat)
    requires Init(s, q0, n)
    ensures Inv(s, q0, IdValue(s.idFile))
  {
  }

  lemma NextKeepsLock(s: State, w: nat)
    requires LockInv(s)
    ensures LockInv(Next(s, w))
  {
  }

  /** Worker `w` holds the lock. */
  ghost predicate HolderAt(s: State, w: nat, q0: seq<string>, base: nat) {
    && w < |s.workers| && s.lock == Some(w)
    && FileInv(s, q0, base) && WorkerInv(s.workers[w], s, q0, base)
  }

  lemma SedKeepsFiles(s: State, w: nat, q0: seq<string>, base: nat)
    requires HolderAt(s, w, q0, base) && s.workers[w].pc == Sed
    ensures FileInv(Next(s, w), q0, base)
  {
    assert s.queue[1..] == q0[Popped(s) + 1..];
  }

  lemma EchoKeepsFiles(s: State, w: nat, q0: seq<string>, base: nat)
    requires HolderAt(s, w, q0, base) && s.workers[w].pc == Echo
    ensures FileInv(Next(s, w), q0, base)
  {
  }

  lemma CountKeepsFiles(s: State, w: nat, q0: seq<string>, base: nat)
    requires HolderAt(s, w, q0, base) && MidPop(s.workers[w].pc) && s.workers[w].pc != Echo
    ensures FileInv(Next(s, w), q0, base)
  {
  }

  lemma HolderKeepsFiles(s: State, w: nat, q0: seq<string>, base: nat)
    requires HolderAt(s, w, q0, base) && Holding(s.workers[w].pc)
    ensures FileInv(Next(s, w), q0, base)
  {
    match s.workers[w].pc
    case Sed => SedKeepsFiles(s, w, q0, base);
    case Echo => EchoKeepsFiles(s, w, q0, base);
    case EnsureId => CountKeepsFiles(s, w, q0, base);
    case CatId => CountKeepsFiles(s, w, q0, base);
    case Increment => CountKeepsFiles(s, w, q0, base);
    case WriteId => CountKeepsFiles(s, w, q0, base);
    case _ => // Head, Test and Unlock leave the files alone
  }

  lemma OthersKeepFiles(s: State, w: nat, q0: seq<string>, base: nat)
    requires FileInv(s, q0, base) && w < |s.workers| && s.lock != Some(w) && !Holding(s.workers[w].pc)
    ensures FileInv(Next(s, w), q0, base)
  {
    var t := Next(s, w);
    assert t.queue == s.queue && t.issued == s.issued && t.idFile == s.idFile;
    assert MidPop(HolderPc(t)) == MidPop(HolderPc(s)) && HolderPc(t).Echo? == HolderPc(s).Echo?;
  }

  lemma NextKeepsFiles(s: State, w: nat, q0: seq<string>, base: nat)
    requires Inv(s, q0, base)
    ensures FileInv(Next(s, w), q0, base)
  {
    if w < |s.workers| {
      assert Holding(s.workers[w].pc) <==> s.lock == Some(w);
      if Holding(s.workers[w].pc) {
        HolderKeepsFiles(s, w, q0, base);
      } else {
        OthersKeepFiles(s, w, q0, base);
      }
    }
  }

  lemma HolderKeepsSelf(s: State, w: nat, q0: seq<string>, base: nat)
    requires HolderAt(s, w, q0, base) && Holding(s.workers[w].pc)
    ensures WorkerInv(Next(s, w).workers[w], Next(s, w), q0, base)
  {
    if s.workers[w].pc.Sed? {
      SedKeepsSelf(s, w, q0, base);
    } else if MidPop(s.workers[w].pc) {
      PopKeepsSelf(s, w, q0, base);
    }
  }

  lemma SedKeepsSelf(s: State, w: nat, q0: seq<string>, base: nat)
    requires HolderAt(s, w, q0, base) && s.workers[w].pc.Sed?
    ensures WorkerInv(Next(s, w).workers[w], Next(s, w), q0, base)
  {
  }

  lemma PopKeepsSelf(s: State, w: nat, q0: seq<string>, base: nat)
    requires HolderAt(s, w, q0, base) && MidPop(s.workers[w].pc)
    ensures WorkerInv(Next(s, w).workers[w], Next(s, w), q0, base)
  {
  }

  lemma OthersKeepSelf(s: State, w: nat, q0: seq<string>, base: nat)
    requires w < |s.workers| && s.lock != Some(w)
    requires WorkerInv(s.workers[w], s, q0, base) && !Holding(s.workers[w].pc)
    ensures WorkerInv(Next(s, w).workers[w], Next(s, w), q0, base)
  {
  }

  lemma NextKeepsOther(s: State, w: nat, v: nat, q0: seq<string>, base: nat)
    requires Inv(s, q0, base) && w < |s.workers| && v < |s.workers| && v != w
    ensures WorkerInv(Next(s, w).workers[v], Next(s, w), q0, base)
  {
    assert WorkerInv(s.workers[v], s, q0, base);
    assert WorkerInv(s.workers[w], s, q0, base);
    assert Holding(s.workers[v].pc) <==> s.lock == Some(v);
    assert Holding(s.workers[w].pc) <==> s.lock == Some(w);
    assert Next(s, w).workers[v] == s.workers[v];
    if Holding(s.workers[w].pc) {
      assert HolderPc(s) == s.workers[w].pc;
    }
  }

  lemma NextKeepsWorkers(s: State, w: nat, q0: seq<string>, base: nat)
    requires Inv(s, q0, base)
    ensures WorkersInv(Next(s, w), q0, base)
  {
    if w < |s.workers| {
      forall v | 0 <= v < |s.workers|
        ensures WorkerInv(Next(s, w).workers[v], Next(s, w), q0, base)
      {
        if v == w {
          assert Holding(s.workers[w].pc) <==> s.lock == Some(w);
          assert WorkerInv(s.workers[w], s, q0, base);
          if Holding(s.workers[w].pc) {
            HolderKeepsSelf(s, w, q0, base);
          } else {
            OthersKeepSelf(s, w, q0, base);
          }
        } else {
          NextKeepsOther(s, w, v, q0, base);
        }
      }
    }
  }

  lemma {:induction false} ExecInv(s: State, schedule: seq<nat>, q0: seq<string>, base: nat)
    requires Inv(s, q0, base)
    ensures Inv(Exec(s, schedule), q0, base)
  {
    if schedule != [] {
      var before := schedule[..|schedule| - 1];
      ExecInv(s, before, q0, base);
      var m, w := Exec(s, before), schedule[|schedule| - 1];
      NextKeepsLock(m, w);
      NextKeepsFiles(m, w, q0, base);
      NextKeepsWorkers(m, w, q0, base);
    }
  }

  // ---------------------------------------------------------------- sums over the workers

  function Sum(f: Worker -> nat, ws: seq<Worker>): nat {
    if ws == [] then 0 else Sum(f, ws[..|ws| - 1]) + f(ws[|ws| - 1])
  }

  lemma {:induction false} SumUpdate(f: Worker -> nat, ws: seq<Worker>, w: nat, me: Worker)
    requires w < |ws|
    ensures Sum(f, ws[w := me]) + f(ws[w]) == Sum(f, ws) + f(me)
  {
    var last := |ws| - 1;
    if w == last {
      assert ws[w := me][..last] == ws[..last];
    } else {
      SumUpdate(f, ws[..last], w, me);
      assert ws[w := me][..last] == ws[..last][w := me];
    }
  }

  lemma {:induction false} SumBound(f: Worker -> nat, ws: seq<Worker>, bound: nat)
    requires forall me :: f(me) <= bound
    ensures Sum(f, ws) <= bound * |ws|
  {
    if ws != [] {
      SumBound(f, ws[..|ws| - 1], bound);
    }
  }

  // ---------------------------------------------------------------- every printed row is run

  function AsText(issued: seq<(nat, string)>): (r: seq<(string, string)>)
    ensures |r| == |issued|
    ensures forall k :: 0 <= k < |r| ==> r[k] == (Decimal(issued[k].0), issued[k].1)
  {
    seq(|issued|, k requires 0 <= k < |issued| => (Decimal(issued[k].0), issued[k].1))
  }

  /** 1 for a worker whose row was printed but not yet turned into a run of `pair`. */
  function Carries(pair: (string, string)): Worker -> nat {
    (me: Worker) =>
      if (me.pc.Unlock? || me.pc.Return? || me.pc.Docker?) && me.res == RES_POPPED
         && pair == (FirstField(me.row), SecondField(me.row)) then 1 else 0
  }

  ghost predicate RunsInvFor(s: State, pair: (string, string)) {
    multiset(AsText(s.issued))[pair] == multiset(s.runs)[pair] + Sum(Carries(pair), s.workers)
  }

  /** Every printed pair was run once or is in the hands of one worker. */
  ghost predicate RunsInv(s: State) {
    forall pair :: RunsInvFor(s, pair)
  }

  /** What a step does to the records and to the row in the worker's hands. */
  lemma StepMovesRow(s: State, w: nat, pair: (string, string))
    requires w < |s.workers|
    requires s.workers[w].pc.Echo? || s.workers[w].pc.Docker? ==> s.workers[w].res == RES_POPPED
    ensures var me, t := s.workers[w], Next(s, w);
            var me' := t.workers[w];
            && t.workers == s.workers[w := me']
            && t.issued == (if me.pc == Echo then s.issued + [(me.id, me.line)] else s.issued)
            && t.runs == (if me.pc == Docker then s.runs + [(FirstField(me.row), SecondField(me.row))] else s.runs)
            && (me.pc == Echo ==>
                  Carries(pair)(me') == if pair == (FirstField(me'.row), SecondField(me'.row)) then 1 else 0)
            && (me.pc == Docker ==> Carries(pair)(me') == 0)
            && (me.pc != Echo && me.pc != Docker ==> Carries(pair)(me') == Carries(pair)(me))
            && (me.pc == Echo ==> me'.row == Row(me.id, me.line))
  {
    StepCarries(s, w, pair);
  }

  lemma StepCarries(s: State, w: nat, pair: (string, string))
    requires w < |s.workers|
    requires s.workers[w].pc.Echo? || s.workers[w].pc.Docker? ==> s.workers[w].res == RES_POPPED
    ensures var me, me' := s.workers[w], Next(s, w).workers[w];
            && (me.pc == Echo ==>
                  Carries(pair)(me') == if pair == (FirstField(me'.row), SecondField(me'.row)) then 1 else 0)
            && (me.pc == Docker ==> Carries(pair)(me') == 0)
            && (me.pc != Echo && me.pc != Docker ==> Carries(pair)(me') == Carries(pair)(me))
  {
  }

  lemma RunsTransfer(s: State, t: State, w: nat, pair: (string, string), printed: nat, run: nat)
    requires RunsInvFor(s, pair)
    requires w < |s.workers| == |t.workers| && t.workers == s.workers[w := t.workers[w]]
    requires multiset(AsText(t.issued))[pair] == multiset(AsText(s.issued))[pair] + printed
    requires multiset(t.runs)[pair] == multiset(s.runs)[pair] + run
    requires Carries(pair)(t.workers[w]) + run == Carries(pair)(s.workers[w]) + printed
    ensures RunsInvFor(t, pair)
  {
    SumUpdate(Carries(pair), s.workers, w, t.workers[w]);
  }

  lemma PrintedOnce(issued: seq<(nat, string)>, id: nat, line: string, pair: (string, string))
    ensures multiset(AsText(issued + [(id, line)]))[pair]
            == multiset(AsText(issued))[pair] + if pair == (Decimal(id), line) then 1 else 0
  {
    assert AsText(issued + [(id, line)]) == AsText(issued) + [(Decimal(id), line)];
  }

  lemma NextKeepsRuns(s: State, w: nat, q0: seq<string>, base: nat, pair: (string, string))
    requires Inv(s, q0, base) && RunsInvFor(s, pair)
    ensures RunsInvFor(Next(s, w), pair)
  {
    if w < |s.workers| {
      var me, t := s.workers[w], Next(s, w);
      assert WorkerInv(me, s, q0, base);
      StepMovesRow(s, w, pair);
      if me.pc == Echo {
        EchoedRowParses(s, w, q0, base);
        PrintedOnce(s.issued, me.id, me.line, pair);
        RunsTransfer(s, t, w, pair, if pair == (Decimal(me.id), me.line) then 1 else 0, 0);
      } else if me.pc == Docker {
        RunsTransfer(s, t, w, pair, 0, if pair == (FirstField(me.row), SecondField(me.row)) then 1 else 0);
      } else {
        RunsTransfer(s, t, w, pair, 0, 0);
      }
    }
  }

  /** The row a worker carries splits back into the id and the script name that `pop` printed. */
  lemma EchoedRowParses(s: State, w: nat, q0: seq<string>, base: nat)
    requires Inv(s, q0, base) && w < |s.workers| && s.workers[w].pc == Echo
    ensures var me := s.workers[w];
            FirstField(Row(me.id, me.line)) == Decimal(me.id) && SecondField(Row(me.id, me.line)) == me.line
  {
    var me := s.workers[w];
    assert WorkerInv(me, s, q0, base);
    assert Holding(me.pc);
    assert HolderPc(s) == Echo && Popped(s) == |s.issued| + 1;
    FirstFieldIsWord(q0[|s.issued|]);
    DecimalIsWord(me.id);
    FieldsOfTwoWords(Decimal(me.id), me.line);
  }

  // ---------------------------------------------------------------- bounded work

  function Finished(me: Worker): nat {
    if (me.pc == Return && me.res == RES_EMPTY) || me.pc == Stopped then 1 else 0
  }

  function PrintedInSection(me: Worker): nat {
    if me.pc == Unlock && me.res == RES_POPPED then 1 else 0
  }

  ghost predicate SectionInv(s: State) {
    s.sections + Sum(PrintedInSection, s.workers) == |s.issued| + Sum(Finished, s.workers)
  }

  /** What one step does to the four counts. */
  lemma StepCounts(s: State, w: nat)
    requires w < |s.workers|
    requires var me := s.workers[w];
             && (MidPop(me.pc) || me.pc.Docker? ==> me.res == RES_POPPED)
             && (me.pc.Unlock? || me.pc.Return? ==> me.res == RES_POPPED || me.res == RES_EMPTY)
    ensures var t := Next(s, w);
            && t.workers == s.workers[w := t.workers[w]]
            && t.sections + PrintedInSection(t.workers[w]) + |s.issued| + Finished(s.workers[w])
               == s.sections + PrintedInSection(s.workers[w]) + |t.issued| + Finished(t.workers[w])
  {
  }

  lemma NextKeepsSections(s: State, w: nat, q0: seq<string>, base: nat)
    requires Inv(s, q0, base) && SectionInv(s)
    ensures SectionInv(Next(s, w))
  {
    if w < |s.workers| {
      var t := Next(s, w);
      assert WorkerInv(s.workers[w], s, q0, base);
      StepCounts(s, w);
      SumUpdate(Finished, s.workers, w, t.workers[w]);
      SumUpdate(PrintedInSection, s.workers, w, t.workers[w]);
    }
  }

  /** Steps a worker can still take without another line being removed from the queue. */
  function Remaining(me: Worker): nat {
    match me.pc
    case EnsureId => 20
    case CatId => 19
    case Increment => 18
    case WriteId => 17
    case Echo => 16
    case Unlock => if me.res == RES_EMPTY then 2 else 15
    case Return => if me.res == RES_EMPTY then 1 else 14
    case Docker => 13
    case TryLock => 12
    case Head => 11
    case Test => 10
    case Sed => 9
    case Stopped => 0
  }

  function Rank(s: State): nat {
    12 * |s.queue| + Sum(Remaining, s.workers)
  }

  /** A worker that is stopped or finds the lock file in place does nothing in its turn. */
  predicate Idles(s: State, w: nat) {
    w >= |s.workers| || s.workers[w].pc == Stopped || (s.workers[w].pc == TryLock && s.lock.Some?)
  }

  lemma StepLowers(s: State, w: nat)
    requires !Idles(s, w) && (s.workers[w].pc == Sed ==> s.queue != [])
    requires s.workers[w].pc.Echo? || s.workers[w].pc.Docker? ==> s.workers[w].res == RES_POPPED
    ensures var t := Next(s, w);
            && t.workers == s.workers[w := t.workers[w]]
            && 12 * |t.queue| + Remaining(t.workers[w]) < 12 * |s.queue| + Remaining(s.workers[w])
  {
  }

  lemma NextLowersRank(s: State, w: nat, q0: seq<string>, base: nat)
    requires Inv(s, q0, base)
    ensures if Idles(s, w) then Next(s, w) == s else Rank(Next(s, w)) < Rank(s)
  {
    if !Idles(s, w) {
      assert WorkerInv(s.workers[w], s, q0, base);
      StepLowers(s, w);
      SumUpdate(Remaining, s.workers, w, Next(s, w).workers[w]);
    }
  }

  /** How many turns of the schedule were not idle. */
  function Work(s: State, schedule: seq<nat>): nat {
    if schedule == [] then 0 else
    var before := schedule[..|schedule| - 1];
    Work(s, before) + if Idles(Exec(s, before), schedule[|schedule| - 1]) then 0 else 1
  }

  lemma {:induction false} WorkBounded(s: State, schedule: seq<nat>, q0: seq<string>, base: nat)
    requires Inv(s, q0, base)
    ensures Work(s, schedule) + Rank(Exec(s, schedule)) <= Rank(s)
  {
    if schedule != [] {
      var before := schedule[..|schedule| - 1];
      WorkBounded(s, before, q0, base);
      ExecInv(s, before, q0, base);
      NextLowersRank(Exec(s, before), schedule[|schedule| - 1], q0, base);
    }
  }

  // ---------------------------------------------------------------- theorems over all schedules

  lemma {:induction false} ExecKeepsRecords(s: State, schedule: seq<nat>, q0: seq<string>, n: nat)
    requires Init(s, q0, n)
    ensures RunsInv(Exec(s, schedule)) && SectionInv(Exec(s, schedule))
  {
    var base := IdValue(s.idFile);
    InitInv(s, q0, n);
    if schedule == [] {
      FreshSums(n);
      assert AsText(s.issued) == [];
      forall pair
        ensures RunsInvFor(s, pair)
      {
        NothingCarried(n, pair);
      }
    } else {
      var before := schedule[..|schedule| - 1];
      ExecKeepsRecords(s, before, q0, n);
      ExecInv(s, before, q0, base);
      forall pair
        ensures RunsInvFor(Exec(s, schedule), pair)
      {
        NextKeepsRuns(Exec(s, before), schedule[|schedule| - 1], q0, base, pair);
      }
      NextKeepsSections(Exec(s, before), schedule[|schedule| - 1], q0, base);
    }
  }

  lemma {:induction false} FreshSums(n: nat)
    ensures Sum(Finished, seq(n, _ => FreshWorker)) == 0
    ensures Sum(PrintedInSection, seq(n, _ => FreshWorker)) == 0
    ensures Sum(Remaining, seq(n, _ => FreshWorker)) == 12 * n
  {
    if n > 0 {
      FreshSums(n - 1);
      assert seq(n, _ => FreshWorker)[..n - 1] == seq(n - 1, _ => FreshWorker);
    }
  }

  lemma {:induction false} NothingCarried(n: nat, pair: (string, string))
    ensures Sum(Carries(pair), seq(n, _ => FreshWorker)) == 0
  {
    if n > 0 {
      NothingCarried(n - 1, pair);
      assert seq(n, _ => FreshWorker)[..n - 1] == seq(n - 1, _ => FreshWorker);
    }
  }

  /** At most one worker is ever inside the locked region. */
  lemma MutualExclusion(s: State, schedule: seq<nat>, q0: seq<string>, n: nat, v: nat, w: nat)
    requires Init(s, q0, n) && v < n && w < n
    requires Holding(Exec(s, schedule).workers[v].pc) && Holding(Exec(s, schedule).workers[w].pc)
    ensures v == w
  {
    InitInv(s, q0, n);
    ExecInv(s, schedule, q0, IdValue(s.idFile));
  }

  /** How many lines stand before the first blank one. */
  function Usable(queue: seq<string>): (n: nat)
    ensures n <= |queue|
    ensures forall k :: 0 <= k < n ==> FirstField(queue[k]) != ""
    ensures n < |queue| ==> FirstField(queue[n]) == ""
  {
    if Front(queue) == "" then 0 else 1 + Usable(queue[1..])
  }

  /** The dispatch list the queue stands for: the lines before the first blank one, in order,
      numbered consecutively. */
  function Expected(queue: seq<string>, base: nat): (r: seq<(nat, string)>) {
    seq(Usable(queue), k requires 0 <= k < Usable(queue) => (base + k + 1, FirstField(queue[k])))
  }

  /** Whatever the interleaving, what has been issued is a prefix of the expected list, and the
      queue file holds exactly the lines that were not taken: nothing is lost, duplicated,
      reordered or misnumbered. */
  lemma IssuedInOrder(s: State, schedule: seq<nat>, q0: seq<string>, n: nat)
    requires Init(s, q0, n)
    ensures var t := Exec(s, schedule);
            && t.issued <= Expected(q0, IdValue(s.idFile))
            && Popped(t) <= |q0| && t.queue == q0[Popped(t)..]
            && (t.lock.None? ==> |t.issued| + |t.queue| == |q0|
                                 && IdValue(t.idFile) == IdValue(s.idFile) + |t.issued|)
  {
    InitInv(s, q0, n);
    ExecInv(s, schedule, q0, IdValue(s.idFile));
    IssuedIsPrefix(Exec(s, schedule), q0, IdValue(s.idFile));
  }

  /** In terms of the files: whatever the interleaving, issue number `k` is the number in the id file, or
      0 without one, plus `k + 1`, with the first word of line `k`, wherever in the line it stands. */
  lemma IssuedIsFirstWord(s: State, schedule: seq<nat>, q0: seq<string>, n: nat, k: nat, pre: string, w: string,
                          post: string)
    requires Init(s, q0, n) && k < |Exec(s, schedule).issued| && k < |q0| && q0[k] == pre + w + post
    requires forall i :: 0 <= i < |pre| ==> pre[i] == ' ' || pre[i] == '\t'
    requires w != "" && ' ' !in w && '\t' !in w && (post == "" || post[0] == ' ' || post[0] == '\t')
    ensures Exec(s, schedule).issued[k] == ((if s.idFile.Some? then s.idFile.value else 0) + k + 1, w)
  {
    IssuedInOrder(s, schedule, q0, n);
    assert Exec(s, schedule).issued[k] == Expected(q0, IdValue(s.idFile))[k];
    FirstFieldIs(pre, w, post);
  }

  predicate OnlyBlanks(line: string) {
    forall i :: 0 <= i < |line| ==> line[i] == ' ' || line[i] == '\t'
  }

  lemma UsableStopsAtBlanks(q0: seq<string>)
    ensures forall k :: 0 <= k < Usable(q0) ==> !OnlyBlanks(q0[k])
    ensures Usable(q0) < |q0| ==> OnlyBlanks(q0[Usable(q0)])
  {
    if Usable(q0) < |q0| {
      NoFieldIff(q0[Usable(q0)]);
    }
    forall k | 0 <= k < Usable(q0)
      ensures !OnlyBlanks(q0[k])
    {
      NoFieldIff(q0[k]);
    }
  }

  /** And a line stops the workers exactly when it has nothing but spaces and tabs: after all have
      stopped the queue is empty or its front is such a line, and none of the lines taken was. */
  lemma StoppedAtBlankLine(s: State, schedule: seq<nat>, q0: seq<string>, n: nat)
    requires Init(s, q0, n) && n > 0 && AllStopped(Exec(s, schedule))
    ensures var t := Exec(s, schedule);
            && |t.issued| <= |q0| && t.queue == q0[|t.issued|..]
            && (t.queue != [] ==> OnlyBlanks(t.queue[0]))
            && forall k :: 0 <= k < |t.issued| ==> !OnlyBlanks(q0[k])
  {
    AllStoppedMeansAllRun(s, schedule, q0, n);
    UsableStopsAtBlanks(q0);
  }

  lemma IssuedIsPrefix(t: State, q0: seq<string>, base: nat)
    requires FileInv(t, q0, base)
    ensures t.issued <= Expected(q0, base)
  {
  }

  /** A worker stops only at the end of the usable lines, and from then on no worker takes
      another line, whatever the continuation. */
  lemma StopsOnlyAtEnd(s: State, schedule: seq<nat>, more: seq<nat>, q0: seq<string>, n: nat, w: nat)
    requires Init(s, q0, n) && w < n
    requires Exec(s, schedule).workers[w].pc == Stopped
    ensures var t := Exec(s, schedule);
            && Front(t.queue) == ""
            && t.issued == Expected(q0, IdValue(s.idFile))
            && Exec(t, more).queue == t.queue && Exec(t, more).issued == t.issued
  {
    InitInv(s, q0, n);
    ExecInv(s, schedule, q0, IdValue(s.idFile));
    EndOfUsable(Exec(s, schedule), q0, IdValue(s.idFile), w);
    StaysAtEnd(Exec(s, schedule), more, q0, IdValue(s.idFile), w);
  }

  lemma EndOfUsable(t: State, q0: seq<string>, base: nat, w: nat)
    requires Inv(t, q0, base) && w < |t.workers| && t.workers[w].pc == Stopped
    ensures Front(t.queue) == "" && t.issued == Expected(q0, base)
  {
  }

  lemma {:induction false} StaysAtEnd(t: State, more: seq<nat>, q0: seq<string>, base: nat, w: nat)
    requires Inv(t, q0, base) && w < |t.workers| && t.workers[w].pc == Stopped
    ensures Exec(t, more).queue == t.queue && Exec(t, more).issued == t.issued
    ensures Exec(t, more).workers[w].pc == Stopped
  {
    if more != [] {
      var before := more[..|more| - 1];
      StaysAtEnd(t, before, q0, base, w);
      ExecInv(t, before, q0, base);
      StepAtEnd(Exec(t, before), more[|more| - 1], q0, base, w);
    }
  }

  lemma StepAtEnd(m: State, v: nat, q0: seq<string>, base: nat, w: nat)
    requires Inv(m, q0, base) && w < |m.workers| && m.workers[w].pc == Stopped
    ensures Next(m, v).queue == m.queue && Next(m, v).issued == m.issued && Next(m, v).workers[w].pc == Stopped
  {
    assert WorkerInv(m.workers[w], m, q0, base);
    if v < |m.workers| {
      assert WorkerInv(m.workers[v], m, q0, base);
      assert Holding(m.workers[v].pc) <==> m.lock == Some(v);
    }
  }

  ghost predicate AllStopped(s: State) {
    forall w :: 0 <= w < |s.workers| ==> s.workers[w].pc == Stopped
  }

  /** Once every worker has stopped, each usable line was run exactly once under its own number,
      and the files are as a single uninterrupted worker would leave them. */
  lemma AllStoppedMeansAllRun(s: State, schedule: seq<nat>, q0: seq<string>, n: nat)
    requires Init(s, q0, n) && n > 0
    requires AllStopped(Exec(s, schedule))
    ensures var t, expected := Exec(s, schedule), Expected(q0, IdValue(s.idFile));
            && t.issued == expected
            && multiset(t.runs) == multiset(AsText(expected))
            && t.queue == q0[Usable(q0)..]
            && t.lock.None?
            && IdValue(t.idFile) == IdValue(s.idFile) + Usable(q0)
  {
    var base := IdValue(s.idFile);
    InitInv(s, q0, n);
    ExecInv(s, schedule, q0, base);
    ExecKeepsRecords(s, schedule, q0, n);
    if s.lock.Some? {
      StaleLockBlocks(s, schedule, q0, n);
      assert false;
    }
    LockIsOurs(s, schedule, q0, n);
    RunsWhenStopped(Exec(s, schedule), q0, base);
  }

  lemma RunsWhenStopped(t: State, q0: seq<string>, base: nat)
    requires Inv(t, q0, base) && RunsInv(t) && AllStopped(t) && |t.workers| > 0
    requires t.lock.Some? ==> t.lock.value < |t.workers|
    ensures t.issued == Expected(q0, base)
    ensures multiset(t.runs) == multiset(AsText(t.issued))
    ensures t.queue == q0[Usable(q0)..] && t.lock.None? && IdValue(t.idFile) == base + Usable(q0)
  {
    EndOfUsable(t, q0, base, 0);
    forall pair
      ensures multiset(t.runs)[pair] == multiset(AsText(t.issued))[pair]
    {
      assert RunsInvFor(t, pair);
      StoppedCarryNothing(t.workers, pair);
    }
  }

  lemma {:induction false} StoppedCarryNothing(ws: seq<Worker>, pair: (string, string))
    requires forall w :: 0 <= w < |ws| ==> ws[w].pc == Stopped
    ensures Sum(Carries(pair), ws) == 0
  {
    if ws != [] {
      StoppedCarryNothing(ws[..|ws| - 1], pair);
    }
  }

  /** No schedule runs the same numbered script twice. */
  lemma EachPairRunOnce(s: State, schedule: seq<nat>, q0: seq<string>, n: nat, pair: (string, string))
    requires Init(s, q0, n)
    ensures multiset(Exec(s, schedule).runs)[pair] <= 1
  {
    InitInv(s, q0, n);
    ExecInv(s, schedule, q0, IdValue(s.idFile));
    ExecKeepsRecords(s, schedule, q0, n);
    assert RunsInvFor(Exec(s, schedule), pair);
    IssuedPairsDiffer(Exec(s, schedule), q0, IdValue(s.idFile));
    OnceInDistinct(AsText(Exec(s, schedule).issued), pair);
  }

  lemma IssuedPairsDiffer(t: State, q0: seq<string>, base: nat)
    requires FileInv(t, q0, base)
    ensures forall j, k :: 0 <= j < k < |t.issued| ==> AsText(t.issued)[j] != AsText(t.issued)[k]
  {
    forall j, k | 0 <= j < k < |t.issued|
      ensures AsText(t.issued)[j] != AsText(t.issued)[k]
    {
      if Decimal(t.issued[j].0) == Decimal(t.issued[k].0) {
        DecimalInjective(t.issued[j].0, t.issued[k].0);
      }
    }
  }

  lemma {:induction false} OnceInDistinct<T>(s: seq<T>, x: T)
    requires forall j, k :: 0 <= j < k < |s| ==> s[j] != s[k]
    ensures multiset(s)[x] <= 1
  {
    if s != [] {
      var last := |s| - 1;
      assert s == s[..last] + [s[last]];
      OnceInDistinct(s[..last], x);
      if x == s[last] {
        assert x !in s[..last];
      }
    }
  }

  /** The workers together run the whole queue file exactly when no line of it is blank: a blank
      line stops every worker and the lines after it are never taken. */
  lemma WholeQueueRunIffNoBlankLine(s: State, schedule: seq<nat>, q0: seq<string>, n: nat)
    requires Init(s, q0, n) && n > 0
    requires AllStopped(Exec(s, schedule))
    ensures |Exec(s, schedule).runs| == |q0| <==> forall k :: 0 <= k < |q0| ==> FirstField(q0[k]) != ""
  {
    AllStoppedMeansAllRun(s, schedule, q0, n);
    var t := Exec(s, schedule);
    assert |t.runs| == |multiset(t.runs)| == |multiset(AsText(t.issued))| == Usable(q0);
  }

  /** No schedule makes the workers complete more lock sections than there are lines and workers,
      or take more than 12 effective steps for each. */
  lemma BoundedWork(s: State, schedule: seq<nat>, q0: seq<string>, n: nat)
    requires Init(s, q0, n)
    ensures Exec(s, schedule).sections <= |q0| + n
    ensures Work(s, schedule) <= 12 * (|q0| + n)
  {
    var base := IdValue(s.idFile);
    InitInv(s, q0, n);
    ExecInv(s, schedule, q0, base);
    ExecKeepsRecords(s, schedule, q0, n);
    SumBound(Finished, Exec(s, schedule).workers, 1);
    FreshSums(n);
    WorkBounded(s, schedule, q0, base);
  }

  /** Without a foreign lock file the lock always belongs to one of the workers. */
  lemma {:induction false} LockIsOurs(s: State, schedule: seq<nat>, q0: seq<string>, n: nat)
    requires Init(s, q0, n) && s.lock.None?
    ensures Exec(s, schedule).lock.Some? ==> Exec(s, schedule).lock.value < n
  {
    if schedule != [] {
      LockIsOurs(s, schedule[..|schedule| - 1], q0, n);
    }
  }

  /** No deadlock: while some worker has not stopped, some worker has an effective step. */
  lemma SomeoneCanMove(s: State, schedule: seq<nat>, q0: seq<string>, n: nat) returns (w: nat)
    requires Init(s, q0, n) && s.lock.None?
    requires !AllStopped(Exec(s, schedule))
    ensures !Idles(Exec(s, schedule), w)
  {
    var t := Exec(s, schedule);
    InitInv(s, q0, n);
    ExecInv(s, schedule, q0, IdValue(s.idFile));
    LockIsOurs(s, schedule, q0, n);
    if t.lock.Some? {
      w := t.lock.value;
      assert Holding(t.workers[w].pc);
    } else {
      w :| 0 <= w < |t.workers| && t.workers[w].pc != Stopped;
    }
  }

  lemma MoveLowersRank(s: State, schedule: seq<nat>, q0: seq<string>, n: nat) returns (w: nat)
    requires Init(s, q0, n) && s.lock.None?
    requires !AllStopped(Exec(s, schedule))
    ensures Rank(Exec(s, schedule + [w])) < Rank(Exec(s, schedule))
  {
    w := SomeoneCanMove(s, schedule, q0, n);
    InitInv(s, q0, n);
    ExecInv(s, schedule, q0, IdValue(s.idFile));
    NextLowersRank(Exec(s, schedule), w, q0, IdValue(s.idFile));
    assert (schedule + [w])[..|schedule|] == schedule;
  }

  /** From every reachable state some continuation stops every worker. */
  lemma {:induction false} CanAlwaysFinish(s: State, schedule: seq<nat>, q0: seq<string>, n: nat)
    returns (more: seq<nat>)
    requires Init(s, q0, n) && s.lock.None?
    ensures AllStopped(Exec(s, schedule + more))
    decreases Rank(Exec(s, schedule))
  {
    if AllStopped(Exec(s, schedule)) {
      more := [];
      assert schedule + [] == schedule;
    } else {
      var w := MoveLowersRank(s, schedule, q0, n);
      var rest := CanAlwaysFinish(s, schedule + [w], q0, n);
      more := [w] + rest;
      assert schedule + more == schedule + [w] + rest;
    }
  }

  /** A lock file left over from an interrupted run blocks every worker for ever: no schedule
      changes anything at all. */
  lemma {:induction false} StaleLockBlocks(s: State, schedule: seq<nat>, q0: seq<string>, n: nat)
    requires Init(s, q0, n) && s.lock.Some?
    ensures Exec(s, schedule) == s
  {
    if schedule != [] {
      StaleLockBlocks(s, schedule[..|schedule| - 1], q0, n);
    }
  }

  // ---------------------------------------------------------------- the shell functions

  ghost predicate RunsSoFar(runs: seq<(string, string)>, q0: seq<string>, base: nat) {
    |runs| <= |q0| && forall k :: 0 <= k < |runs| ==>
      runs[k] == (Decimal(base + k + 1), FirstField(q0[k])) && FirstField(q0[k]) != ""
  }

  lemma RunsComplete(runs: seq<(string, string)>, q0: seq<string>, base: nat)
    requires RunsSoFar(runs, q0, base) && Front(q0[|runs|..]) == ""
    ensures |runs| == Usable(q0) && runs == AsText(Expected(q0, base))
  {
  }

  /** The three files as `pop` works on them. */
  class SharedFiles {
    var queue: seq<string>
    var lockFile: Option<nat>
    var idFile: Option<nat>

    constructor (queue: seq<string>)
      ensures this.queue == queue && lockFile.None? && idFile.None?
    {
      this.queue, lockFile, idFile := queue, None, None;
    }

    /** `pop`: result 1 when the lock is taken, 2 at the end of the queue, 0 with a row. */
    method Pop(pid: nat) returns (res: nat, row: string)
      modifies this
      ensures lockFile == old(lockFile)
      ensures res == 1 || res == RES_EMPTY || res == RES_POPPED
      ensures res == 1 <==> old(lockFile).Some?
      ensures res == RES_EMPTY <==> old(lockFile).None? && Front(old(queue)) == ""
      ensures res != RES_POPPED ==> queue == old(queue) && idFile == old(idFile)
      ensures res == RES_POPPED ==>
                && old(queue) != [] && queue == old(queue)[1..]
                && idFile == Some(IdValue(old(idFile)) + 1)
                && FirstField(row) == Decimal(IdValue(old(idFile)) + 1)
                && SecondField(row) == FirstField(old(queue)[0]) != ""
    {
      res, row := 1, "";
      if lockFile.None? {
        lockFile := Some(pid);
        var line := Front(queue);
        if line != "" {
          FirstFieldIsWord(queue[0]);
          queue := queue[1..];
          res := RES_POPPED;
          if idFile.None? {
            idFile := Some(0);
          }
          var currentId := idFile.value;
          currentId := currentId + 1;
          idFile := Some(currentId);
          row := Row(currentId, line);
          DecimalIsWord(currentId);
          FieldsOfTwoWords(Decimal(currentId), line);
        } else {
          res := RES_EMPTY;
        }
        lockFile := None;
      }
    }

    /** `main` of one worker that nobody disturbs: it runs exactly the expected list, in order,
        so any number of workers together run what this one would. */
    method RunAlone(pid: nat) returns (runs: seq<(string, string)>)
      requires lockFile.None?
      modifies this
      ensures runs == AsText(Expected(old(queue), IdValue(old(idFile))))
      ensures queue == old(queue)[Usable(old(queue))..]
      ensures IdValue(idFile) == IdValue(old(idFile)) + |runs|
      ensures lockFile.None?
    {
      runs := [];
      var res := RES_POPPED;
      ghost var q0, base := queue, IdValue(idFile);
      while res != RES_EMPTY
        invariant lockFile.None?
        invariant |runs| <= |q0| && queue == q0[|runs|..]
        invariant IdValue(idFile) == base + |runs|
        invariant RunsSoFar(runs, q0, base)
        invariant res == RES_EMPTY ==> Front(queue) == ""
        decreases |queue|, res != RES_EMPTY
      {
        var row;
        res, row := Pop(pid);
        if res == RES_POPPED {
          runs := runs + [(FirstField(row), SecondField(row))];
        }
      }
      RunsComplete(runs, q0, base);
    }
  }

  lemma {:induction false} ExecConcat(s: State, a: seq<nat>, b: seq<nat>)
    ensures Exec(s, a + b) == Exec(Exec(s, a), b)
  {
    if b == [] {
      assert a + b == a;
    } else {
      assert (a + b)[..|a + b| - 1] == a + b[..|b| - 1];
      ExecConcat(s, a, b[..|b| - 1]);
    }
  }

  lemma TwoSteps(s: State, w: nat, m: State, t: State)
    requires m == Next(s, w) && t == Next(m, w)
    ensures Exec(s, [w, w]) == t
  {
    assert [w, w][..1] == [w] && [w][..0] == [];
    assert Exec(s, [w]) == m;
  }

  /** Ten undisturbed steps of one worker, from a free lock to its removal, are one `Pop`. */
  lemma UndisturbedStepsArePop(s: State, w: nat)
    requires w < |s.workers| && s.workers[w].pc == TryLock && s.lock.None? && Front(s.queue) != ""
    ensures var t := Exec(s, seq(10, _ => w));
            && t.lock.None? && t.workers[w].pc == Return && t.workers[w].res == RES_POPPED
            && t.queue == s.queue[1..]
            && t.idFile == Some(IdValue(s.idFile) + 1)
            && t.workers[w].row == Row(IdValue(s.idFile) + 1, FirstField(s.queue[0]))
            && t.workers == s.workers[w := t.workers[w]]
  {
    var a, first := TakeLine(s, w);
    var b, second := CountId(a, w);
    var c := SoloPrint(b, w);
    ExecConcat(s, first, second);
    ExecConcat(s, first + second, [w, w]);
    assert seq(10, _ => w) == first + second + [w, w];
    TogetherPop(s, w, a, b, c);
  }

  /** The three parts put together. */
  lemma TogetherPop(s: State, w: nat, a: State, b: State, c: State)
    requires w < |s.workers| && s.queue != []
    requires var me := s.workers[w].(pc := EnsureId, line := Front(s.queue), res := RES_POPPED);
             a == s.(lock := Some(w), queue := s.queue[1..], workers := s.workers[w := me])
    requires var id := IdValue(a.idFile) + 1;
             b == a.(idFile := Some(id), workers := a.workers[w := a.workers[w].(pc := Echo, id := id)])
    requires var me := b.workers[w];
             && c.lock.None? && c.queue == b.queue && c.idFile == b.idFile
             && c.workers == b.workers[w := me.(pc := Return, row := Row(me.id, me.line))]
    ensures && c.workers[w].pc == Return && c.workers[w].res == RES_POPPED
            && c.queue == s.queue[1..] && c.idFile == Some(IdValue(s.idFile) + 1)
            && c.workers[w].row == Row(IdValue(s.idFile) + 1, FirstField(s.queue[0]))
            && c.workers == s.workers[w := c.workers[w]]
  {
  }

  lemma TakeLine(s: State, w: nat) returns (t: State, steps: seq<nat>)
    requires w < |s.workers| && s.workers[w].pc == TryLock && s.lock.None? && Front(s.queue) != ""
    ensures steps == [w, w] + [w, w] && t == Exec(s, steps)
    ensures var me := s.workers[w].(pc := EnsureId, line := Front(s.queue), res := RES_POPPED);
            t == s.(lock := Some(w), queue := s.queue[1..], workers := s.workers[w := me])
  {
    var a := SoloTake(s, w);
    t := SoloRemove(a, w);
    steps := [w, w] + [w, w];
    ExecConcat(s, [w, w], [w, w]);
  }

  lemma CountId(s: State, w: nat) returns (t: State, steps: seq<nat>)
    requires w < |s.workers| && s.workers[w].pc == EnsureId
    ensures steps == [w, w] + [w, w] && t == Exec(s, steps)
    ensures var id := IdValue(s.idFile) + 1;
            t == s.(idFile := Some(id), workers := s.workers[w := s.workers[w].(pc := Echo, id := id)])
  {
    var a := SoloReadId(s, w);
    t := SoloCountId(a, w);
    assert t.workers == s.workers[w := t.workers[w]];
    steps := [w, w] + [w, w];
    ExecConcat(s, [w, w], [w, w]);
  }

  lemma SoloTake(s: State, w: nat) returns (t: State)
    requires w < |s.workers| && s.workers[w].pc == TryLock && s.lock.None?
    ensures t == Exec(s, [w, w])
    ensures t == s.(lock := Some(w), workers := s.workers[w := s.workers[w].(pc := Test, line := Front(s.queue))])
  {
    var m := Next(s, w);
    t := Next(m, w);
    TwoSteps(s, w, m, t);
    assert t.workers == s.workers[w := s.workers[w].(pc := Test, line := Front(s.queue))];
  }

  lemma SoloRemove(s: State, w: nat) returns (t: State)
    requires w < |s.workers| && s.workers[w].pc == Test && s.workers[w].line != "" && s.queue != []
    ensures t == Exec(s, [w, w])
    ensures t == s.(queue := s.queue[1..], workers := s.workers[w := s.workers[w].(pc := EnsureId, res := RES_POPPED)])
  {
    var m := Next(s, w);
    t := Next(m, w);
    TwoSteps(s, w, m, t);
    assert t.workers == s.workers[w := s.workers[w].(pc := EnsureId, res := RES_POPPED)];
  }

  lemma SoloReadId(s: State, w: nat) returns (t: State)
    requires w < |s.workers| && s.workers[w].pc == EnsureId
    ensures t == Exec(s, [w, w])
    ensures var id := IdValue(s.idFile);
            t == s.(idFile := Some(id), workers := s.workers[w := s.workers[w].(pc := Increment, id := id)])
  {
    var m := Next(s, w);
    t := Next(m, w);
    TwoSteps(s, w, m, t);
    assert t.workers == s.workers[w := s.workers[w].(pc := Increment, id := IdValue(s.idFile))];
  }

  lemma SoloCountId(s: State, w: nat) returns (t: State)
    requires w < |s.workers| && s.workers[w].pc == Increment
    ensures t == Exec(s, [w, w])
    ensures var id := s.workers[w].id + 1;
            t == s.(idFile := Some(id), workers := s.workers[w := s.workers[w].(pc := Echo, id := id)])
  {
    var m := Next(s, w);
    t := Next(m, w);
    TwoSteps(s, w, m, t);
    assert t.workers == s.workers[w := s.workers[w].(pc := Echo, id := s.workers[w].id + 1)];
  }

  lemma SoloPrint(s: State, w: nat) returns (t: State)
    requires w < |s.workers| && s.workers[w].pc == Echo
    ensures t == Exec(s, [w, w])
    ensures var me := s.workers[w];
            && t.lock.None? && t.queue == s.queue && t.idFile == s.idFile
            && t.workers == s.workers[w := me.(pc := Return, row := Row(me.id, me.line))]
  {
    var m := Next(s, w);
    t := Next(m, w);
    TwoSteps(s, w, m, t);
  }

  /** Four undisturbed steps from a free lock, with a missing or blank front line, are the `Pop` that
      ends with result 2: nothing but the worker, which is about to stop, has changed. */
  lemma UndisturbedStepsAreEmptyPop(s: State, w: nat)
    requires w < |s.workers| && s.workers[w].pc == TryLock && s.lock.None? && Front(s.queue) == ""
    ensures var t := Exec(s, seq(4, _ => w));
            && t.workers == s.workers[w := s.workers[w].(pc := Return, line := "", res := RES_EMPTY)]
            && t == s.(workers := t.workers, sections := s.sections + 1)
            && Next(t, w).workers[w].pc == Stopped
  {
    var a := SoloTake(s, w);
    var m := Next(a, w);
    var t := Next(m, w);
    TwoSteps(a, w, m, t);
    ExecConcat(s, [w, w], [w, w]);
    assert seq(4, _ => w) == [w, w] + [w, w];
    assert t.workers == s.workers[w := s.workers[w].(pc := Return, line := "", res := RES_EMPTY)];
  }
}
