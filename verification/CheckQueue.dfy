/**
 * The verification queue shared by one master and any number of workers, as a system of atomic steps.
 * A step is either one whole stay in the critical section or one check executed outside it.
 */
module CheckQueue {
  import opened Basics

  /** A verification; running it gives `holds`. */
  datatype Check = Check(id: nat, holds: bool)

  datatype Thread =
    | Outside                                                   // not in Loop
    | Ready(batch: seq<Check>, fOk: bool)                   // about to lock; batch has been executed
    | Waiting(signalled: bool)                                  // blocked on its condition variable
    | Working(batch: seq<Check>, next: nat, fOk: bool)          // executing batch[next..] without the lock
  {
    /** The checks taken but not yet reported. */
    function Held(): seq<Check> {
      if Ready? || Working? then batch else []
    }

    /** Counted in nTotal. */
    predicate Joined() {
      Waiting? || Working? || (Ready? && batch != [])
    }
  }

  /** Thread 0 is the master. The last three fields record history and influence nothing. */
  datatype State = State(
    queue: seq<Check>, nIdle: int, nTotal: int, fAllOk: bool, nTodo: int, nBatchSize: nat,
    threads: seq<Thread>,
    added: multiset<Check>,                                     // added since the last Wait returned
    reported: multiset<Check>,                                  // of those, the ones whose result was reported
    waits: seq<(bool, multiset<Check>)>)                        // what each Wait returned, for which checks

  function Init(nBatchSize: nat, workers: nat): State {
    State([], 0, 0, true, 0, nBatchSize, seq(workers + 1, i => Outside), multiset{}, multiset{}, [])
  }

  // ---------- the steps ----------

  datatype Event =
    | AddEv(checks: seq<Check>)                                 // the master adds a batch
    | StartEv(t: nat)                                           // a thread calls Loop (for the master: Wait)
    | LockEv(t: nat)                                            // takes the mutex at the top of the loop
    | WakeEv(t: nat)                                            // returns from waiting, signalled or not
    | RunEv(t: nat)                                             // executes one check
    | FinishEv(t: nat)                                          // has executed its batch

  predicate Enabled(s: State, e: Event) {
    match e
    case AddEv(_) => |s.threads| > 0 && s.threads[0].Outside?
    case StartEv(t) => t < |s.threads| && s.threads[t].Outside?
    case LockEv(t) => t < |s.threads| && s.threads[t].Ready?
    case WakeEv(t) => t < |s.threads| && s.threads[t].Waiting?
    case RunEv(t) => t < |s.threads| && s.threads[t].Working? && s.threads[t].next < |s.threads[t].batch|
    case FinishEv(t) => t < |s.threads| && s.threads[t].Working? && s.threads[t].next == |s.threads[t].batch|
  }

  /** At least one check and never more than there are. */
  function BatchSize(s: State): (n: int)
    requires s.nTotal + s.nIdle >= 0 && s.queue != []
    ensures 1 <= n <= |s.queue|
  {
    DivShrinks(|s.queue|, s.nTotal + s.nIdle + 1);
    Max(1, Min(s.nBatchSize, |s.queue| / (s.nTotal + s.nIdle + 1)))
  }

  lemma {:induction false} DivShrinks(a: nat, b: nat)
    requires b > 0
    ensures a / b <= a
  {
    if b > 1 {
      MulGrows(a / b, b);
    }
  }

  lemma {:induction false} MulGrows(q: nat, b: nat)
    requires b > 0
    ensures q <= q * b
  {
    if b > 1 {
      MulGrows(q, b - 1);
      assert q * b == q * (b - 1) + q;
    }
  }

  function SetThread(s: State, t: nat, x: Thread): State
    requires t < |s.threads|
  {
    s.(threads := s.threads[t := x])
  }

  /** The inner loop with the lock held: return, wait, or take a batch from the back of the queue. */
  function Proceed(s: State, t: nat): State
    requires t < |s.threads| && s.nTotal + s.nIdle >= 0
  {
    if s.queue == [] then
      if t == 0 && s.nTodo == 0 then
        SetThread(s, t, Outside).(nTotal := s.nTotal - 1, fAllOk := true, added := multiset{}, reported := multiset{},
                                  waits := s.waits + [(s.fAllOk, s.added)])
      else SetThread(s, t, Waiting(false)).(nIdle := s.nIdle + 1)
    else Take(s, t, BatchSize(s))
  }

  /** Moves the last n checks, the last one first, to the thread's own batch. */
  function Take(s: State, t: nat, n: nat): State
    requires t < |s.threads| && n <= |s.queue|
  {
    var rest := |s.queue| - n;
    SetThread(s, t, Working(Reverse(s.queue[rest..]), 0, s.fAllOk)).(queue := s.queue[..rest])
  }

  /** The clean-up of the previous round: the results of the batch are entered. */
  function Deliver(s: State, t: nat): State
    requires t < |s.threads| && s.threads[t].Ready?
  {
    var b := s.threads[t].batch;
    SetThread(s, t, Ready([], true)).(
      fAllOk := s.fAllOk && s.threads[t].fOk, nTodo := s.nTodo - |b|, reported := s.reported + multiset(b))
  }

  /** A worker that has reported the last check signals the master. */
  function Signal(s: State, t: nat): State
    requires s.threads != []
  {
    if s.nTodo == 0 && t != 0 && s.threads[0].Waiting? then SetThread(s, 0, Waiting(true)) else s
  }

  function Report(s: State, t: nat): State
    requires t < |s.threads| && s.threads[t].Ready?
  {
    if s.threads[t].batch != [] then Signal(Deliver(s, t), t) else s.(nTotal := s.nTotal + 1)
  }

  /** A thread that has the lock again after waiting. */
  function Woken(s: State, t: nat): State
    requires t < |s.threads|
  {
    SetThread(s, t, Ready([], true)).(nIdle := s.nIdle - 1)
  }

  function Step(s: State, e: Event): State
    requires Inv(s) && Enabled(s, e)
  {
    match e
    case AddEv(checks) =>
      s.(queue := s.queue + checks, nTodo := s.nTodo + |checks|, added := s.added + multiset(checks))
    case StartEv(t) => SetThread(s, t, Ready([], true))
    case LockEv(t) =>
      ReportInv(s, t);
      Proceed(Report(s, t), t)
    case WakeEv(t) =>
      WakeInv(s, t);
      Proceed(Woken(s, t), t)
    case RunEv(t) =>
      var w := s.threads[t];
      SetThread(s, t, w.(next := w.next + 1, fOk := w.fOk && w.batch[w.next].holds))
    case FinishEv(t) => SetThread(s, t, Ready(s.threads[t].batch, s.threads[t].fOk))
  }

  // ---------- the invariant ----------

  function Sum(ts: seq<Thread>, f: Thread -> nat): nat {
    if ts == [] then 0 else f(ts[0]) + Sum(ts[1..], f)
  }

  function HeldLength(x: Thread): nat { |x.Held()| }
  function JoinedOne(x: Thread): nat { if x.Joined() then 1 else 0 }
  function WaitingOne(x: Thread): nat { if x.Waiting? then 1 else 0 }

  /** How often a check is held by some thread. */
  function HeldTimes(ts: seq<Thread>, c: Check): nat {
    if ts == [] then 0 else multiset(ts[0].Held())[c] + HeldTimes(ts[1..], c)
  }

  ghost predicate AllHold(m: multiset<Check>) { forall c :: c in m ==> c.holds }

  ghost predicate SomeFails(m: multiset<Check>) { exists c :: c in m && !c.holds }

  /** What a thread's local flag says about the checks it has executed. */
  ghost predicate ThreadOk(x: Thread, added: multiset<Check>) {
    match x
    case Ready(b, ok) => if ok then AllHold(multiset(b)) else b != [] && SomeFails(added)
    case Working(b, next, ok) =>
      && b != [] && next <= |b|
      && if ok then forall i :: 0 <= i < next ==> b[i].holds else SomeFails(added)
    case _ => true
  }

  /** Counters are exact; `extra` threads have joined that are momentarily not in a joined state. */
  ghost predicate Exact(s: State, extra: int) {
    && |s.threads| > 0
    && s.nTotal == Sum(s.threads, JoinedOne) + extra
    && s.nIdle == Sum(s.threads, WaitingOne)
    && s.nTodo == |s.queue| + Sum(s.threads, HeldLength)
    && forall c :: s.added[c] == multiset(s.queue)[c] + HeldTimes(s.threads, c) + s.reported[c]
  }

  /** What the flags mean, and what every finished Wait returned. */
  ghost predicate Truthful(s: State) {
    && (if s.fAllOk then AllHold(s.reported) else SomeFails(s.added))
    && (forall i :: 0 <= i < |s.threads| ==> ThreadOk(s.threads[i], s.added))
    && (forall i :: 0 <= i < |s.waits| ==> (s.waits[i].0 <==> AllHold(s.waits[i].1)))
  }

  /** A master blocked without a pending signal has an empty queue and waits for checks not yet reported. */
  ghost predicate NoLostWakeup(s: State) {
    |s.threads| > 0 && s.threads[0] == Waiting(false) ==> s.queue == [] && s.nTodo > 0
  }

  ghost predicate Inv(s: State) {
    Exact(s, 0) && Truthful(s) && NoLostWakeup(s)
  }

  // ---------- sums over the threads ----------

  lemma {:induction false} SumUpdate(ts: seq<Thread>, t: nat, x: Thread, f: Thread -> nat)
    requires t < |ts|
    ensures Sum(ts[t := x], f) == Sum(ts, f) - f(ts[t]) + f(x)
  {
    if t == 0 {
      assert ts[t := x][1..] == ts[1..];
    } else {
      SumUpdate(ts[1..], t - 1, x, f);
      assert ts[t := x][1..] == ts[1..][t - 1 := x];
    }
  }

  lemma {:induction false} HeldTimesUpdate(ts: seq<Thread>, t: nat, x: Thread, c: Check)
    requires t < |ts|
    ensures HeldTimes(ts[t := x], c) == HeldTimes(ts, c) - multiset(ts[t].Held())[c] + multiset(x.Held())[c]
  {
    if t == 0 {
      assert ts[t := x][1..] == ts[1..];
    } else {
      HeldTimesUpdate(ts[1..], t - 1, x, c);
      assert ts[t := x][1..] == ts[1..][t - 1 := x];
    }
  }

  /** How the counters change when one thread changes. */
  lemma SetThreadExact(ts: seq<Thread>, t: nat, x: Thread)
    requires t < |ts|
    ensures var us := ts[t := x];
      && Sum(us, HeldLength) == Sum(ts, HeldLength) - |ts[t].Held()| + |x.Held()|
      && Sum(us, JoinedOne) == Sum(ts, JoinedOne) - JoinedOne(ts[t]) + JoinedOne(x)
      && Sum(us, WaitingOne) == Sum(ts, WaitingOne) - WaitingOne(ts[t]) + WaitingOne(x)
      && forall c :: HeldTimes(us, c) == HeldTimes(ts, c) - multiset(ts[t].Held())[c] + multiset(x.Held())[c]
  {
    SumUpdate(ts, t, x, HeldLength);
    SumUpdate(ts, t, x, JoinedOne);
    SumUpdate(ts, t, x, WaitingOne);
    forall c { HeldTimesUpdate(ts, t, x, c); }
  }

  lemma DeliverExact(s: State, t: nat)
    requires Exact(s, 0) && t < |s.threads| && s.threads[t].Ready? && s.threads[t].batch != []
    ensures Exact(Deliver(s, t), 1) && Deliver(s, t).nTodo >= 0
  {
    SetThreadExact(s.threads, t, Ready([], true));
  }

  lemma HeldIsAdded(s: State, t: nat, c: Check)
    requires Exact(s, 0) && t < |s.threads| && c in s.threads[t].Held()
    ensures c in s.added
  {
    HeldTimesUpdate(s.threads, t, Outside, c);
    assert multiset(s.threads[t].Held())[c] > 0;
  }

  lemma DeliverTruthful(s: State, t: nat)
    requires Truthful(s) && t < |s.threads| && s.threads[t].Ready?
    ensures Truthful(Deliver(s, t))
  {
    var r := Deliver(s, t);
    assert ThreadOk(s.threads[t], s.added);
    forall i | 0 <= i < |r.threads| ensures ThreadOk(r.threads[i], r.added) {
      assert i != t ==> ThreadOk(s.threads[i], s.added);
    }
  }

  lemma SignalInv(s: State, t: nat)
    requires Exact(s, 1) && Truthful(s) && t < |s.threads|
    ensures Exact(Signal(s, t), 1) && Truthful(Signal(s, t))
  {
    SetThreadExact(s.threads, 0, Waiting(true));
    var r := Signal(s, t);
    forall i | 0 <= i < |r.threads| ensures ThreadOk(r.threads[i], r.added) {
      assert r.threads[i] == s.threads[i] || r.threads[i].Waiting?;
    }
  }

  lemma JoinInv(s: State, t: nat)
    requires Exact(s, 0) && Truthful(s) && t < |s.threads| && s.threads[t].Ready? && s.threads[t].batch == []
    ensures Exact(s.(nTotal := s.nTotal + 1), 1) && Truthful(s.(nTotal := s.nTotal + 1))
    ensures s.threads[t] == Ready([], true)
  {
    hide Sum, HeldTimes, AllHold;
    assert ThreadOk(s.threads[t], s.added);
  }

  lemma ReportInv(s: State, t: nat)
    requires Inv(s) && t < |s.threads| && s.threads[t].Ready?
    ensures var r := Report(s, t);
      && Exact(r, 1) && Truthful(r) && |r.threads| == |s.threads| && r.threads[t] == Ready([], true)
      && (t == 0 || NoLostWakeup(r))
  {
    hide Exact, Truthful;
    if s.threads[t].batch != [] {
      DeliverExact(s, t);
      DeliverTruthful(s, t);
      SignalInv(Deliver(s, t), t);
    } else {
      JoinInv(s, t);
    }
  }

  lemma WakeInv(s: State, t: nat)
    requires Inv(s) && t < |s.threads| && s.threads[t].Waiting?
    ensures Exact(Woken(s, t), 1) && Truthful(Woken(s, t)) && (t == 0 || NoLostWakeup(Woken(s, t)))
  {
    SetThreadExact(s.threads, t, Ready([], true));
  }

  lemma {:induction false} NothingHeld(ts: seq<Thread>)
    requires Sum(ts, HeldLength) == 0
    ensures (forall c :: HeldTimes(ts, c) == 0) && forall i :: 0 <= i < |ts| ==> ts[i].Held() == []
  {
    if ts != [] {
      NothingHeld(ts[1..]);
      assert forall i :: 1 <= i < |ts| ==> ts[i] == ts[1..][i - 1];
    }
  }

  /** When Wait returns nothing is outstanding, and the answer is right. */
  lemma ReturnInv(s: State)
    requires Exact(s, 1) && Truthful(s) && s.threads[0] == Ready([], true)
    requires s.queue == [] && s.nTodo == 0
    ensures (forall i :: 0 <= i < |s.threads| ==> s.threads[i].Held() == []) && s.reported == s.added
    ensures s.fAllOk <==> AllHold(s.added)
    ensures Inv(Proceed(s, 0))
  {
    NothingHeld(s.threads);
    SetThreadExact(s.threads, 0, Outside);
    var r := Proceed(s, 0);
    forall i | 0 <= i < |r.threads| ensures ThreadOk(r.threads[i], r.added) {
      assert i > 0 ==> ThreadOk(s.threads[i], s.added) && s.threads[i].Held() == [];
    }
  }

  lemma TakeInv(s: State, t: nat, n: nat)
    requires Exact(s, 1) && Truthful(s) && t < |s.threads| && s.threads[t] == Ready([], true)
    requires 1 <= n <= |s.queue| && (t == 0 || NoLostWakeup(s))
    ensures Inv(Take(s, t, n))
  {
    var rest := |s.queue| - n;
    ReverseMultiset(s.queue[rest..]);
    TakeExact(s, t, s.queue[..rest], Reverse(s.queue[rest..]));
    assert s.queue == s.queue[..rest] + s.queue[rest..];
    TakeTruthful(s, t, s.queue[..rest], Reverse(s.queue[rest..]));
  }

  lemma TakeExact(s: State, t: nat, q: seq<Check>, b: seq<Check>)
    requires Exact(s, 1) && t < |s.threads| && s.threads[t] == Ready([], true)
    requires b != [] && |q| + |b| == |s.queue|
    ensures multiset(s.queue) == multiset(q) + multiset(b) ==>
      Exact(SetThread(s, t, Working(b, 0, s.fAllOk)).(queue := q), 0)
  {
    SetThreadExact(s.threads, t, Working(b, 0, s.fAllOk));
  }

  lemma TakeTruthful(s: State, t: nat, q: seq<Check>, b: seq<Check>)
    requires Truthful(s) && t < |s.threads| && b != []
    ensures Truthful(SetThread(s, t, Working(b, 0, s.fAllOk)).(queue := q))
  {
    var r := SetThread(s, t, Working(b, 0, s.fAllOk)).(queue := q);
    forall i | 0 <= i < |r.threads| ensures ThreadOk(r.threads[i], r.added) {
      assert i != t ==> ThreadOk(s.threads[i], s.added);
    }
  }

  lemma ProceedInv(s: State, t: nat)
    requires Exact(s, 1) && Truthful(s) && t < |s.threads| && s.threads[t] == Ready([], true)
    requires t == 0 || NoLostWakeup(s)
    ensures Inv(Proceed(s, t))
  {
    if s.queue != [] {
      TakeInv(s, t, BatchSize(s));
    } else if t == 0 && s.nTodo == 0 {
      ReturnInv(s);
    } else {
      SetThreadExact(s.threads, t, Waiting(false));
    }
  }

  lemma AddInv(s: State, checks: seq<Check>)
    requires Inv(s) && s.threads[0].Outside?
    ensures Inv(Step(s, AddEv(checks)))
  {
    var r := Step(s, AddEv(checks));
    forall i | 0 <= i < |r.threads| ensures ThreadOk(r.threads[i], r.added) {
      assert ThreadOk(s.threads[i], s.added);
      assert SomeFails(s.added) ==> SomeFails(r.added) by { SomeFailsMore(s.added, multiset(checks)); }
    }
    SomeFailsMore(s.added, multiset(checks));
  }

  lemma SomeFailsMore(a: multiset<Check>, b: multiset<Check>)
    ensures SomeFails(a) ==> SomeFails(a + b)
  {
    if SomeFails(a) {
      var c :| c in a && !c.holds;
      assert c in a + b;
    }
  }

  /** Changes of one thread that leaves counters and shared flags alone. */
  lemma LocalInv(s: State, t: nat, x: Thread)
    requires Inv(s) && t < |s.threads| && ThreadOk(x, s.added) && !s.threads[t].Waiting? && !x.Waiting?
    requires x.Held() == s.threads[t].Held() && x.Joined() == s.threads[t].Joined()
    ensures Inv(SetThread(s, t, x))
  {
    SetThreadExact(s.threads, t, x);
    var r := SetThread(s, t, x);
    forall i | 0 <= i < |r.threads| ensures ThreadOk(r.threads[i], r.added) {
      assert i != t ==> ThreadOk(s.threads[i], s.added);
    }
  }

  lemma RunInv(s: State, t: nat)
    requires Inv(s) && Enabled(s, RunEv(t))
    ensures Inv(Step(s, RunEv(t)))
  {
    var w := s.threads[t];
    assert ThreadOk(w, s.added);
    var c := w.batch[w.next];
    HeldIsAdded(s, t, c);
    LocalInv(s, t, w.(next := w.next + 1, fOk := w.fOk && c.holds));
  }

  lemma FinishInv(s: State, t: nat)
    requires Inv(s) && Enabled(s, FinishEv(t))
    ensures Inv(Step(s, FinishEv(t)))
  {
    var w := s.threads[t];
    assert ThreadOk(w, s.added);
    assert w.fOk ==> AllHold(multiset(w.batch));
    LocalInv(s, t, Ready(w.batch, w.fOk));
  }

  lemma LockInv(s: State, t: nat)
    requires Inv(s) && Enabled(s, LockEv(t))
    ensures Inv(Step(s, LockEv(t)))
  {
    ReportInv(s, t);
    ProceedInv(Report(s, t), t);
  }

  lemma WakeStepInv(s: State, t: nat)
    requires Inv(s) && Enabled(s, WakeEv(t))
    ensures Inv(Step(s, WakeEv(t)))
  {
    WakeInv(s, t);
    ProceedInv(Woken(s, t), t);
  }

  /** Every step of every thread keeps the invariant. */
  lemma StepInv(s: State, e: Event)
    requires Inv(s) && Enabled(s, e)
    ensures Inv(Step(s, e))
  {
    match e
    case AddEv(checks) => AddInv(s, checks);
    case StartEv(t) => LocalInv(s, t, Ready([], true));
    case LockEv(t) => LockInv(s, t);
    case WakeEv(t) => WakeStepInv(s, t);
    case RunEv(t) => RunInv(s, t);
    case FinishEv(t) => FinishInv(s, t);
  }

  // ---------- whole runs ----------

  lemma {:induction false} OutsideSums(n: nat)
    ensures var ts := seq(n, i => Outside);
      Sum(ts, HeldLength) == Sum(ts, JoinedOne) == Sum(ts, WaitingOne) == 0 && forall c :: HeldTimes(ts, c) == 0
  {
    if n > 0 {
      OutsideSums(n - 1);
      assert seq(n, i => Outside)[1..] == seq(n - 1, i => Outside);
    }
  }

  lemma InitInv(nBatchSize: nat, workers: nat)
    ensures Inv(Init(nBatchSize, workers))
  {
    OutsideSums(workers + 1);
  }

  /** A schedule: any interleaving of steps, each enabled when it is made. */
  ghost predicate IsSchedule(s: State, events: seq<Event>)
    requires Inv(s)
    decreases |events|
  {
    events == [] ||
    (Enabled(s, events[0]) && (StepInv(s, events[0]); IsSchedule(Step(s, events[0]), events[1..])))
  }

  ghost function Run(s: State, events: seq<Event>): (r: State)
    requires Inv(s) && IsSchedule(s, events)
    ensures Inv(r)
    decreases |events|
  {
    if events == [] then s
    else
      StepInv(s, events[0]);
      Run(Step(s, events[0]), events[1..])
  }

  /**
   * In every interleaving of the master and any number of workers: nTodo is the queue plus all checks
   * taken but not reported, and every Wait so far answered true exactly when all checks added since the
   * previous Wait hold.
   */
  lemma EveryInterleaving(nBatchSize: nat, workers: nat, events: seq<Event>)
    ensures Inv(Init(nBatchSize, workers))
    ensures IsSchedule(Init(nBatchSize, workers), events) ==>
      var s := Run(Init(nBatchSize, workers), events);
      && s.nTodo == |s.queue| + Sum(s.threads, HeldLength)
      && forall i :: 0 <= i < |s.waits| ==> (s.waits[i].0 <==> AllHold(s.waits[i].1))
  {
    InitInv(nBatchSize, workers);
  }

  /** The master left Loop: nothing is queued or held, and the answer is about all checks added for it. */
  ghost predicate Returned(waits: seq<(bool, multiset<Check>)>, added: multiset<Check>, r: State) {
    && r.queue == [] && (forall i :: 0 <= i < |r.threads| ==> r.threads[i].Held() == [])
    && |r.waits| == |waits| + 1 && r.waits[..|waits|] == waits
    && r.waits[|waits|].1 == added && (r.waits[|waits|].0 <==> AllHold(added))
  }

  lemma ProceedReturns(s: State, t: nat)
    requires Exact(s, 1) && Truthful(s) && t < |s.threads| && s.threads[t] == Ready([], true)
    requires Proceed(s, t).waits != s.waits
    ensures Returned(s.waits, s.added, Proceed(s, t))
  {
    ReturnInv(s);
    NothingHeld(s.threads);
  }

  /** A Wait ends only when nothing is outstanding, and it answers for every check added since the one before. */
  lemma WaitReturns(s: State, e: Event)
    requires Inv(s) && Enabled(s, e) && Step(s, e).waits != s.waits
    ensures Returned(s.waits, s.added, Step(s, e))
  {
    hide Inv, Returned, Proceed, Exact, Truthful, NoLostWakeup;
    match e
    case LockEv(t) =>
      ReportInv(s, t);
      ProceedReturns(Report(s, t), t);
    case WakeEv(t) =>
      WakeInv(s, t);
      ProceedReturns(Woken(s, t), t);
    case _ =>
  }

  lemma {:induction false} SomeoneHolds(ts: seq<Thread>) returns (t: nat)
    requires Sum(ts, HeldLength) > 0
    ensures t < |ts| && ts[t].Held() != []
  {
    if ts[0].Held() != [] {
      t := 0;
    } else {
      t := SomeoneHolds(ts[1..]);
      t := t + 1;
    }
  }

  /** A master blocked without a pending signal is waiting for a worker that has a step to make. */
  lemma BlockedMaster(s: State) returns (t: nat)
    requires Inv(s) && s.threads[0] == Waiting(false)
    ensures 0 < t < |s.threads| && s.threads[t].Held() != []
    ensures Enabled(s, LockEv(t)) || Enabled(s, RunEv(t)) || Enabled(s, FinishEv(t))
  {
    t := SomeoneHolds(s.threads);
    assert ThreadOk(s.threads[t], s.added);
  }
}
