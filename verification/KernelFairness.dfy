/** Bounded waiting: a process that stays ready is dispatched within a bound that its place in
    the ring and the priorities of the processes before it give. */
module KernelFairness {
  import opened KernelSpec
  import opened WaitQueues
  import opened KernelSafety
  import opened KernelSteps
  import opened KernelRuns
  import opened KernelTimer

  /** Scanning from the process after `at`, q comes before p. */
  predicate Between(at: Pid, q: Pid, p: Pid) {
    if at < p then at < q < p else at < q || q < p
  }

  /** The weight of the processes scanned before p. */
  function Ahead(ring: seq<Pid>, at: Pid, p: Pid, w: Pid -> nat): nat {
    if ring == [] then 0 else (if Between(at, ring[0], p) then w(ring[0]) else 0) + Ahead(ring[1..], at, p, w)
  }

  lemma ScanIsBetween(ring: seq<Pid>, at: Pid, j: nat, d: nat)
    requires Ascending(ring) && at in ring && j < d < |ring|
    ensures var order := ScanOrder(ring, at); Between(at, order[j], order[d])
  {
    var i := IndexOf(ring, at);
    var order := ScanOrder(ring, at);
    var n := |ring| - (i + 1);
    assert order[d] == if d < n then ring[i + 1 + d] else ring[d - n];
    assert order[j] == if j < n then ring[i + 1 + j] else ring[j - n];
    if d >= n {
      assert d - n <= i;
    }
  }

  /** Moving on to a process between `at` and p takes at least that one off the weight. */
  lemma {:induction false} AheadShrinks(ring: seq<Pid>, dead: set<Pid>, at: Pid, at': Pid, p: Pid, w: Pid -> nat)
    requires Between(at, at', p) && at' != p && Ascending(ring)
    ensures Ahead(Keep(ring, dead), at', p, w) + (if at' in ring then w(at') else 0) <= Ahead(ring, at, p, w)
    decreases |ring|
  {
    if ring != [] {
      var q, rest := ring[0], ring[1..];
      assert Ascending(rest);
      AheadShrinks(rest, dead, at, at', p, w);
      assert Between(at', q, p) ==> Between(at, q, p) && q != at';
      if q == at' {
        forall i | 0 <= i < |rest|
          ensures rest[i] != at'
        {
          assert rest[i] == ring[i + 1];
        }
        assert at' !in rest;
      }
      assert at' in ring <==> at' == q || at' in rest;
      KeepHead(ring, dead);
    }
  }

  lemma KeepHead(ring: seq<Pid>, dead: set<Pid>)
    requires ring != []
    ensures Keep(ring, dead) == if ring[0] in dead then Keep(ring[1..], dead) else [ring[0]] + Keep(ring[1..], dead)
    ensures forall x: Pid, r: seq<Pid> :: ([x] + r)[1..] == r
  {
  }

  /** While p is ready, a dispatch runs p or something scanned before it. */
  lemma DispatchShrinks(k: Kernel, p: Pid, w: Pid -> nat)
    requires RingOk(k) && IsIn(k.procs, p, Ready)
    ensures var k' := Dispatch(k);
            && !k'.idle && k'.at in k.procs && k'.quantum == k.procs[k'.at].priority - 1
            && ((k'.at == p && IsIn(k'.procs, p, Running))
                || Ahead(k'.ring, k'.at, p, w) + w(k'.at) <= Ahead(k.ring, k.at, p, w))
  {
    hide Keep, ScanOrder, Between, FirstReady;
    var order := ScanOrder(k.ring, k.at);
    ScanVisitsAll(k.ring, k.at);
    var d :| 0 <= d < |order| && order[d] == p;
    var j := FirstReady(k.procs, order);
    assert j <= d;
    if order[j] != p {
      ScanIsBetween(k.ring, k.at, j, d);
      var q := order[j];
      assert q in order;
      AheadShrinks(k.ring, Reaped(k.procs, order, j), k.at, q, p, w);
    }
  }

  /** The first ready process in scan order runs; with none the kernel idles. */
  lemma PicksFirst(k: Kernel, p: Pid)
    requires RingOk(k)
    ensures var s := Dispatch(k);
            && (s.idle <==> forall q :: !IsIn(k.procs, q, Ready))
            && (!s.idle ==> IsIn(k.procs, s.at, Ready) && IsIn(s.procs, s.at, Running) && s.quantum == k.procs[s.at].priority - 1)
            && (!s.idle && IsIn(k.procs, p, Ready) && p != s.at ==> Between(k.at, s.at, p))
            && (s.idle ==> s.at == k.at && s.quantum == k.quantum)
  {
    hide Between, FirstReady, ScanOrder, Keep, Reaped;
    var order := ScanOrder(k.ring, k.at);
    ScanVisitsAll(k.ring, k.at);
    var j := FirstReady(k.procs, order);
    if IsIn(k.procs, p, Ready) {
      var d :| 0 <= d < |order| && order[d] == p;
      assert j <= d;
      if d != j { ScanIsBetween(k.ring, k.at, j, d); }
    }
    if j == |order| {
      forall q
        ensures !IsIn(k.procs, q, Ready)
      {
        assert q in order <==> q in k.procs;
      }
    }
  }

  lemma PassedIsReaped(k: Kernel, p: Pid)
    requires RingOk(k) && IsIn(k.procs, p, Exited) && p != k.at && (Dispatch(k).idle || Between(k.at, p, Dispatch(k).at))
    ensures p !in Dispatch(k).procs
  {
    hide FirstReady, ScanOrder, Keep;
    var order := ScanOrder(k.ring, k.at);
    ScanVisitsAll(k.ring, k.at);
    var j := FirstReady(k.procs, order);
    var d :| 0 <= d < |order| && order[d] == p;
    if j < |order| {
      assert d != j;
      if d > j { ScanIsBetween(k.ring, k.at, j, d); }
      assert order[..j][d] == p;
    } else {
      assert order[..|order| - 1][d] == p;
    }
  }

  /** Exactly the exited processes that the scan passed are freed, and nobody else changes. */
  lemma ReapsPassed(k: Kernel, p: Pid)
    requires RingOk(k)
    ensures var s := Dispatch(k);
            && (p in k.procs && p !in s.procs <==> IsIn(k.procs, p, Exited) && p != k.at && (s.idle || Between(k.at, p, s.at)))
            && (p in s.procs ==> p in k.procs && (s.idle || p != s.at ==> s.procs[p] == k.procs[p]))
            && s.sems == k.sems && s.sleepers == k.sleepers && s.freed == k.freed && s.nextPid == k.nextPid
  {
    hide Between, FirstReady, ScanOrder, Keep;
    if IsIn(k.procs, p, Exited) && p != k.at && (Dispatch(k).idle || Between(k.at, p, Dispatch(k).at)) { PassedIsReaped(k, p); }
    var order := ScanOrder(k.ring, k.at);
    ScanVisitsAll(k.ring, k.at);
    var j := FirstReady(k.procs, order);
    var m := if j < |order| then j else |order| - 1;
    AtNotReaped(k, m);
    if j < |order| { assert order[j] in order; }
    if p in Reaped(k.procs, order, m) && j < |order| {
      var i :| 0 <= i < j && order[..j][i] == p;
      assert order[i] == p;
      ScanIsBetween(k.ring, k.at, i, j);
    }
  }

  /** What schedule does when it looks for another process. It goes idle exactly when nobody is
      ready. Otherwise it runs the first ready process in circular order after the current one,
      the current one last, for as many ticks as its priority. It frees exactly the exited processes
      that it passed, never the one it was called by, and changes nothing else. */
  lemma SchedulePicks(k: Kernel, p: Pid)
    requires Steady(k) && Looks(k)
    ensures var k1, s := Preempted(k), Schedule(k);
            && (s.idle <==> forall q :: !IsIn(k1.procs, q, Ready))
            && (!s.idle ==> IsIn(k1.procs, s.at, Ready) && IsIn(s.procs, s.at, Running) && s.quantum == k1.procs[s.at].priority - 1)
            && (!s.idle && IsIn(k1.procs, p, Ready) && p != s.at ==> Between(k.at, s.at, p))
            && (p in k1.procs && p !in s.procs <==> IsIn(k1.procs, p, Exited) && p != k.at && (s.idle || Between(k.at, p, s.at)))
            && (p in s.procs ==> p in k1.procs && (s.idle || p != s.at ==> s.procs[p] == k1.procs[p]))
            && (s.idle ==> s.at == k.at && s.quantum == k.quantum)
            && s.sems == k.sems && s.sleepers == k.sleepers && s.freed == k.freed && s.nextPid == k.nextPid
  {
    hide Between, Dispatch, WaitInv, SemsOk, SleepersOk, HeapsOk, OneRunning, IsIn, FirstReady;
    PicksFirst(Preempted(k), p);
    ReapsPassed(Preempted(k), p);
  }

  // ---------------------------------------------------------------- one event

  /** schedule looks for another process, rather than spend one more quantum on the current one. */
  predicate Looks(k: Kernel) {
    !(k.quantum > 0 && CurrentIsRunning(k))
  }

  function Dispatches(k: Kernel, e: Event): nat
    requires k.at in k.procs && (k.freed != [] ==> k.freed[|k.freed| - 1] < |k.sems|)
  {
    var called := Call(k, e);
    if e == Tick || Switches(e) then (if Looks(called) then 1 else 0)
    else if called.idle || CurrentRuns(called) then 0
    else 1
  }

  /** What is left of the current process's turn. */
  function TurnLeft(k: Kernel): int {
    if CurrentIsRunning(k) && k.quantum > 0 then k.quantum else 0
  }

  /** No process weighs less than its priority. */
  ghost predicate Weighs(procs: map<Pid, PCB>, w: Pid -> nat) {
    forall q :: q in procs ==> procs[q].priority <= w(q)
  }

  /** A change of priority that the weights allow for; one above 9 is refused. */
  predicate Fits(e: Event, w: Pid -> nat) {
    e.Priority? && e.priority <= 9 ==> e.priority <= w(e.pid)
  }

  /** Apart from creating processes, a call keeps the ring and the turn. */
  lemma CallRing(k: Kernel, e: Event, w: Pid -> nat)
    requires Inv(k) && Allowed(k, e) && e != Create
    requires k.at in k.procs && (k.freed != [] ==> k.freed[|k.freed| - 1] < |k.sems|)
    ensures var c := Call(k, e);
            && c.ring == k.ring && c.at == k.at && c.idle == k.idle && c.quantum == k.quantum
            && (Weighs(k.procs, w) && Fits(e, w) ==> Weighs(c.procs, w))
            && (CurrentIsRunning(c) ==> CurrentIsRunning(k))
  {
    hide WaitInv, SemsOk, SleepersOk, HeapsOk, OneRunning, RingOk, PostLoop, DrainLoop, ReleaseWaiters;
    match e
    case CtrlC(p) => ExitRing(k, p, KILL_EXIT_CODE);
    case KillPid(p) => if p in k.procs { ExitRing(k, p, KILL_EXIT_CODE); }
    case Exit(code) => ExitRing(k, k.at, code);
    case Post(i) => if SemOpen(k, i) { PostLoopFrame(k, i); PostLoopRing(k, i); }
    case Destroy(i) => if SemOpen(k, i) { DrainLoopFrame(k, i); DrainLoopRing(k, i); }
    case _ =>
  }

  /** Priorities are kept, and nobody starts to run. */
  ghost predicate Quiet(k: Kernel, k': Kernel) {
    k'.procs.Keys == k.procs.Keys
    && forall q :: q in k.procs ==>
                     && k'.procs[q].priority == k.procs[q].priority
                     && (k'.procs[q].state == Running ==> k.procs[q].state == Running)
  }

  lemma ExitRing(k: Kernel, p: Pid, code: int)
    requires p in k.procs
    ensures Quiet(k, ExitProcess(k, p, code)) && ExitProcess(k, p, code) == k.(procs := ExitProcess(k, p, code).procs)
  {
    hide ReleaseWaiters;
    ReleaseFrame(SetState(k, p, Exited), Waiters(k.procs[p].waitingForMe, code));
  }

  lemma LetGoRing(k: Kernel, p: Pid)
    ensures Quiet(k, LetGo(k, p))
  {
    hide ExitProcess;
    if IsIn(k.procs, p, WaitingForExit) {
      ExitRing(k, p, KILL_EXIT_CODE);
    }
  }

  lemma {:induction false} PostLoopRing(k: Kernel, id: nat)
    requires id < |k.sems|
    ensures Quiet(k, PostLoop(k, id))
    decreases |k.sems[id].queue|
  {
    hide LetGo;
    if k.sems[id].queue != [] {
      var p := k.sems[id].queue[0];
      LetGoRing(Dequeue(k, id), p);
      if !IsIn(k.procs, p, Blocked) {
        PostLoopRing(LetGo(Dequeue(k, id), p), id);
      }
    }
  }

  lemma {:induction false} DrainLoopRing(k: Kernel, id: nat)
    requires id < |k.sems|
    ensures Quiet(k, DrainLoop(k, id))
    decreases |k.sems[id].queue|
  {
    hide LetGo;
    if k.sems[id].queue != [] {
      var p := k.sems[id].queue[0];
      LetGoRing(Dequeue(k, id), p);
      DrainLoopRing(LetGo(Dequeue(k, id), p), id);
    }
  }

  lemma {:induction false} TickLoopRing(k: Kernel, i: nat)
    requires i <= |k.sleepers|
    ensures Quiet(k, TickLoop(k, i))
    ensures var r := TickLoop(k, i); r.ring == k.ring && r.quantum == k.quantum
    decreases |k.sleepers| - i
  {
    hide LetGo;
    if i < |k.sleepers| {
      var s := k.sleepers[i];
      if IsIn(k.procs, s.pid, Blocked) && s.ticks > 1 {
        TickLoopRing(k.(sleepers := k.sleepers[i := s.(ticks := s.ticks - 1)]), i + 1);
      } else {
        LetGoRing(k, s.pid);
        LetGoFrame(k, s.pid);
        TickLoopRing(AwakenAt(k, i), i);
      }
    }
  }

  ghost predicate Positive(w: Pid -> nat) {
    forall q :: w(q) >= 1
  }

  /** How schedule moves on, for a process p that is ready before and after. */
  lemma ScheduleShrinks(c: Kernel, p: Pid, w: Pid -> nat)
    requires RingOk(c) && IsIn(c.procs, p, Ready) && IsIn(Schedule(c).procs, p, Ready) && Positive(w)
    ensures var k' := Schedule(c);
            && (Looks(c) ==> Ahead(k'.ring, k'.at, p, w) + w(k'.at) <= Ahead(c.ring, c.at, p, w))
            && (!Looks(c) ==> k'.ring == c.ring && k'.at == c.at && TurnLeft(k') < TurnLeft(c))
            && (Weighs(c.procs, w) ==> Weighs(k'.procs, w) && (Looks(c) ==> TurnLeft(k') < w(k'.at)))
  {
    hide Ahead, ScanOrder, Keep, FirstReady;
    var c1 := Preempted(c);
    if Looks(c) {
      DispatchShrinks(c1, p, w);
    }
  }

  /** The weight ahead of p, turn of the current process included. */
  function Load(k: Kernel, p: Pid, w: Pid -> nat): int {
    TurnLeft(k) + Ahead(k.ring, k.at, p, w)
  }

  lemma StepShrinks(k: Kernel, e: Event, p: Pid, w: Pid -> nat)
    requires Inv(k) && Allowed(k, e) && e != Create && Positive(w)
    requires k.at in k.procs && (k.freed != [] ==> k.freed[|k.freed| - 1] < |k.sems|)
    requires IsIn(Call(k, e).procs, p, Ready) && IsIn(Step(k, e).procs, p, Ready)
    ensures var k' := Step(k, e);
            && Ahead(k'.ring, k'.at, p, w) + (if Dispatches(k, e) == 1 then w(k'.at) else 0) <= Ahead(k.ring, k.at, p, w)
            && (Weighs(k.procs, w) && Fits(e, w) ==>
                  Weighs(k'.procs, w) && Load(k', p, w) + (if e == Tick then 1 else 0) <= Load(k, p, w))
  {
    hide WaitInv, SemsOk, SleepersOk, HeapsOk, OneRunning, Schedule, TickLoop, Call, Ahead;
    CallKeeps(k, e);
    CallRing(k, e, w);
    var c := Call(k, e);
    if e == Tick {
      TickIsNoCall(k);
      TickShrinks(k, p, w);
    } else if Switches(e) || !(c.idle || CurrentRuns(c)) {
      ScheduleShrinks(c, p, w);
    }
  }

  lemma TickIsNoCall(k: Kernel)
    requires k.at in k.procs && (k.freed != [] ==> k.freed[|k.freed| - 1] < |k.sems|)
    ensures Call(k, Tick) == k
  {
  }

  lemma TickShrinks(k: Kernel, p: Pid, w: Pid -> nat)
    requires Inv(k) && IsIn(k.procs, p, Ready) && IsIn(Step(k, Tick).procs, p, Ready) && Positive(w)
    ensures var k' := Step(k, Tick);
            && Ahead(k'.ring, k'.at, p, w) + (if Looks(k) then w(k'.at) else 0) <= Ahead(k.ring, k.at, p, w)
            && (Weighs(k.procs, w) ==> Weighs(k'.procs, w) && Load(k', p, w) + 1 <= Load(k, p, w))
  {
    hide WaitInv, SemsOk, SleepersOk, HeapsOk, OneRunning, Schedule, TickLoop, Ahead;
    ScheduleKeeps(k);
    var k1 := Schedule(k);
    TickLoopRing(k1, 0);
    TickLoopFrame(k1, 0);
    StillReady(k, p);
    ScheduleShrinks(k, p, w);
  }

  /** A process ready before the tick and after it was not touched by its schedule. */
  lemma StillReady(k: Kernel, p: Pid)
    requires Inv(k) && IsIn(k.procs, p, Ready) && IsIn(Step(k, Tick).procs, p, Ready)
    ensures IsIn(Schedule(k).procs, p, Ready)
  {
    hide WaitInv, SemsOk, SleepersOk, HeapsOk, OneRunning, TickLoop, ScanOrder, Keep, FirstReady;
    ScheduleKeeps(k);
    var k1 := Schedule(k);
    TickLoopRing(k1, 0);
    TickLoopSettles(k1, 0);
    ScheduleStates(k, p);
  }

  /** schedule leaves a ready process ready or makes it the running one. */
  lemma ScheduleStates(k: Kernel, p: Pid)
    requires k.at in k.ring && IsIn(k.procs, p, Ready)
    ensures p in Schedule(k).procs && (Schedule(k).procs[p].state == Ready || Schedule(k).procs[p].state == Running)
  {
    hide ScanOrder, Keep, FirstReady;
  }

  // ---------------------------------------------------------------- whole runs

  /** p is ready all along: nothing kills or blocks it and it is not dispatched; and meanwhile
      no process is created. */
  ghost predicate StaysReady(k: Kernel, es: seq<Event>, p: Pid)
    requires Inv(k) && AllowedRun(k, es)
    decreases |es|
  {
    es == [] ||
    var e := es[0];
    && e != Create
    && k.at in k.procs && (k.freed != [] ==> k.freed[|k.freed| - 1] < |k.sems|)
    && IsIn(Call(k, e).procs, p, Ready) && IsIn(Step(k, e).procs, p, Ready)
    && StaysReady(Step(k, e), es[1..], p)
  }

  ghost function DispatchesIn(k: Kernel, es: seq<Event>): nat
    requires Inv(k) && AllowedRun(k, es)
    decreases |es|
  {
    if es == [] then 0
    else
      SemInitReady(k);
      Dispatches(k, es[0]) + DispatchesIn(Step(k, es[0]), es[1..])
  }

  /** Every change of priority in the run is one the weights allow for. */
  ghost predicate AllFit(es: seq<Event>, w: Pid -> nat) {
    forall e :: e in es ==> Fits(e, w)
  }

  lemma {:induction false} WeightOfRun(k: Kernel, es: seq<Event>, p: Pid, w: Pid -> nat)
    requires Inv(k) && AllowedRun(k, es) && StaysReady(k, es, p) && Positive(w)
    ensures DispatchesIn(k, es) <= Ahead(k.ring, k.at, p, w)
    ensures Weighs(k.procs, w) && AllFit(es, w) ==> Ticks(es) <= Load(k, p, w)
    decreases |es|
  {
    hide Inv, Allowed, Step, Load, Ahead, Weighs, Dispatches, Call;
    if es == [] {
      LoadNonNegative(k, p, w);
    } else {
      var e := es[0];
      StepShrinks(k, e, p, w);
      AtMostOne(k, e);
      WeightOfRun(Step(k, e), es[1..], p, w);
    }
  }

  lemma LoadNonNegative(k: Kernel, p: Pid, w: Pid -> nat)
    ensures Load(k, p, w) >= 0
  {
  }

  lemma AtMostOne(k: Kernel, e: Event)
    requires k.at in k.procs && (k.freed != [] ==> k.freed[|k.freed| - 1] < |k.sems|)
    ensures Dispatches(k, e) <= 1
  {
    hide Call;
  }

  lemma {:induction false} AheadCount(ring: seq<Pid>, at: Pid, p: Pid, w: Pid -> nat, n: nat)
    requires forall q :: w(q) == n
    ensures Ahead(ring, at, p, w) <= n * |ring|
    ensures p in ring ==> Ahead(ring, at, p, w) <= n * (|ring| - 1)
    decreases |ring|
  {
    if ring != [] {
      AheadCount(ring[1..], at, p, w, n);
      assert p in ring <==> p == ring[0] || p in ring[1..];
    }
  }

  /** The priorities of the processes, as weights. */
  function ByPriority(procs: map<Pid, PCB>): Pid -> nat {
    q => if q in procs && procs[q].priority > 0 then procs[q].priority else 1
  }

  /** Bounded waiting. While p stays ready, other processes are dispatched at most len - 1 times,
      and the ticks that pass are at most what is left of the current turn plus the priorities of
      the processes scanned before p; with priorities changing meanwhile, plus nine for each. */
  lemma BoundedWaiting(k: Kernel, es: seq<Event>, p: Pid)
    requires Inv(k) && AllowedRun(k, es) && StaysReady(k, es, p) && p in k.procs
    ensures DispatchesIn(k, es) <= |k.ring| - 1
    ensures AllFit(es, ByPriority(k.procs)) ==> Ticks(es) <= TurnLeft(k) + Ahead(k.ring, k.at, p, ByPriority(k.procs))
    ensures Ticks(es) <= TurnLeft(k) + 9 * (|k.ring| - 1)
  {
    hide WaitInv, SemsOk, SleepersOk, OneRunning, StaysReady, AllowedRun, DispatchesIn, Ahead;
    WeightOfRun(k, es, p, ByPriority(k.procs));
    WeightOfRun(k, es, p, q => 1);
    WeightOfRun(k, es, p, q => 9);
    AheadCount(k.ring, k.at, p, q => 1, 1);
    AheadCount(k.ring, k.at, p, q => 9, 9);
  }
}
