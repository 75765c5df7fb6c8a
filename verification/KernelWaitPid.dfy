/** waitPid over whole runs: the caller stays blocked on the process it waits for, and is handed
    that process's exit code when it exits. And the queues of semaphores as first-in first-out. */
module KernelWaitPid {
  import opened KernelSpec
  import opened WaitQueues
  import opened KernelSafety
  import opened KernelSteps
  import opened KernelRuns
  import opened KernelExit
  import opened KernelTimer
  import opened KernelSemaphores

  /** w is blocked in a waitPid for t, which has not exited. */
  ghost predicate WaitsOn(k: Kernel, w: Pid, t: Pid) {
    IsIn(k.procs, w, Blocked) && WaitsFor(k, w, t) && k.procs[t].state != Exited
  }

  /** t has exited, and w can go on with that exit code. */
  predicate Handed(k: Kernel, w: Pid, t: Pid, code: int) {
    IsIn(k.procs, t, Exited) && IsIn(k.procs, w, Ready) && k.procs[w].waitedExitCode == code
  }

  /** The wait goes on, or it has ended with that code. */
  ghost predicate WaitsOrHas(k: Kernel, w: Pid, t: Pid, code: int) {
    WaitsOn(k, w, t) || Handed(k, w, t, code)
  }

  /** A process that waits in no queue is not touched. */
  ghost predicate Spared(k: Kernel, k': Kernel) {
    k'.procs.Keys == k.procs.Keys && forall p :: p in k.procs && !Waiting(k.procs[p].state) ==> k'.procs[p] == k.procs[p]
  }

  // ---------------------------------------------------------------- the end of the wait

  /** An exit hands w its code if it takes the awaited process along, and leaves it waiting if not. */
  lemma ExitDelivers(k: Kernel, p: Pid, code: int, hand: seq<Pid>, rest: seq<Pid>, w: Pid, t: Pid)
    requires WaitInv(k, hand) && p in k.procs && p != w && WaitsOn(k, w, t)
    requires hand == if k.procs[p].state == WaitingForExit then [p] + rest else rest
    ensures WaitsOrHas(ExitProcess(k, p, code), w, t, if p == t then code else KILL_EXIT_CODE)
  {
    hide ReleaseWaiters, WaitInv, Exiting, Closed;
    var k' := ExitProcess(k, p, code);
    if k.procs[p].state != Blocked && k.procs[p].state != Exited {
      ReleaseFrame(SetState(k, p, Exited), Waiters(k.procs[p].waitingForMe, code));
      ExitEffect(k, p, code);
      var dying := Exiting(k, k');
      if t in dying {
        ExitCodes(k, p, code, hand, rest, w, t);
      } else {
        forall q | q in dying
          ensures !WaitsFor(k, w, q)
        {
          DyingIsAlive(k, k', q);
          OneTable(k, hand, w, t, q);
        }
        NotDying(k, k', t);
        NotDying(k, k', w);
      }
    }
  }

  lemma DyingIsAlive(k: Kernel, k': Kernel, q: Pid)
    requires q in Exiting(k, k')
    ensures q in k.procs && k.procs[q].state != Exited && IsIn(k'.procs, q, Exited)
  {
  }

  lemma NotDying(k: Kernel, k': Kernel, q: Pid)
    requires q in k.procs && k.procs[q].state != Exited && k'.procs.Keys == k.procs.Keys
    ensures q in Exiting(k, k') <==> k'.procs[q].state == Exited
  {
  }

  lemma LetGoDelivers(k: Kernel, p: Pid, rest: seq<Pid>, w: Pid, t: Pid)
    requires WaitInv(k, [p] + rest) && WaitsOn(k, w, t)
    ensures WaitsOrHas(LetGo(k, p), w, t, KILL_EXIT_CODE)
  {
    hide ExitProcess;
    assert ([p] + rest)[0] == p && p in Queue(k, [p] + rest, InHand);
    assert w in Queue(k, [p] + rest, OnExitOf(t));
    assert p != w;
    if IsIn(k.procs, p, WaitingForExit) {
      ExitDelivers(k, p, KILL_EXIT_CODE, [p] + rest, rest, w, t);
    }
  }

  /** Whoever can go on is left alone by what happens to the queues. */
  lemma LetGoSpares(k: Kernel, p: Pid)
    ensures Spared(k, LetGo(k, p))
  {
    hide ReleaseWaiters;
    if IsIn(k.procs, p, WaitingForExit) {
      ReleaseFrame(SetState(k, p, Exited), Waiters(k.procs[p].waitingForMe, KILL_EXIT_CODE));
    }
  }

  lemma {:induction false} PostLoopSpares(k: Kernel, id: nat)
    requires id < |k.sems|
    ensures Spared(k, PostLoop(k, id))
    decreases |k.sems[id].queue|
  {
    hide LetGo;
    if k.sems[id].queue != [] {
      var p := k.sems[id].queue[0];
      LetGoSpares(Dequeue(k, id), p);
      if !IsIn(k.procs, p, Blocked) {
        PostLoopSpares(LetGo(Dequeue(k, id), p), id);
      }
    }
  }

  lemma {:induction false} DrainLoopSpares(k: Kernel, id: nat)
    requires id < |k.sems|
    ensures Spared(k, DrainLoop(k, id))
    decreases |k.sems[id].queue|
  {
    hide LetGo;
    if k.sems[id].queue != [] {
      var p := k.sems[id].queue[0];
      LetGoSpares(Dequeue(k, id), p);
      DrainLoopSpares(LetGo(Dequeue(k, id), p), id);
    }
  }

  lemma {:induction false} TickLoopSpares(k: Kernel, i: nat)
    requires i <= |k.sleepers|
    ensures Spared(k, TickLoop(k, i))
    decreases |k.sleepers| - i
  {
    hide LetGo;
    if i < |k.sleepers| {
      var s := k.sleepers[i];
      if IsIn(k.procs, s.pid, Blocked) && s.ticks > 1 {
        TickLoopSpares(k.(sleepers := k.sleepers[i := s.(ticks := s.ticks - 1)]), i + 1);
      } else {
        LetGoSpares(k, s.pid);
        TickLoopSpares(AwakenAt(k, i), i);
      }
    }
  }

  lemma {:induction false} PostLoopDelivers(k: Kernel, id: nat, w: Pid, t: Pid)
    requires WaitInv(k, []) && id < |k.sems| && !k.sems[id].destroyed && SemsOk(k) && WaitsOn(k, w, t)
    ensures WaitsOrHas(PostLoop(k, id), w, t, KILL_EXIT_CODE)
    decreases |k.sems[id].queue|
  {
    hide WaitInv, LetGo, SemsOk, SameFrame, WaitsFor;
    if k.sems[id].queue != [] {
      var p := k.sems[id].queue[0];
      var next := LetGo(Dequeue(k, id), p);
      QueueGives(k, id, w, t);
      if !IsIn(k.procs, p, Blocked) {
        if WaitsOn(next, w, t) { PostLoopDelivers(next, id, w, t); } else { PostLoopSpares(next, id); }
      }
    } else {
      SameWait(k, PostLoop(k, id), w, t);
    }
  }

  lemma {:induction false} DrainLoopDelivers(k: Kernel, id: nat, w: Pid, t: Pid)
    requires WaitInv(k, []) && id < |k.sems| && !k.sems[id].destroyed && SemsOk(k) && WaitsOn(k, w, t)
    ensures WaitsOrHas(DrainLoop(k, id), w, t, KILL_EXIT_CODE)
    decreases |k.sems[id].queue|
  {
    hide WaitInv, LetGo, SemsOk, SameFrame, WaitsFor;
    if k.sems[id].queue != [] {
      var next := LetGo(Dequeue(k, id), k.sems[id].queue[0]);
      QueueGives(k, id, w, t);
      if WaitsOn(next, w, t) { DrainLoopDelivers(next, id, w, t); } else { DrainLoopSpares(next, id); }
    }
  }

  /** The head of a queue, let go. */
  lemma QueueGives(k: Kernel, id: nat, w: Pid, t: Pid)
    requires WaitInv(k, []) && id < |k.sems| && !k.sems[id].destroyed && SemsOk(k) && k.sems[id].queue != []
    requires WaitsOn(k, w, t)
    ensures var next := LetGo(Dequeue(k, id), k.sems[id].queue[0]);
            && WaitInv(next, []) && SemsOk(next) && !next.sems[id].destroyed && |next.sems[id].queue| < |k.sems[id].queue|
            && WaitsOrHas(next, w, t, KILL_EXIT_CODE)
  {
    hide WaitInv, LetGo, SemsOk, WaitsOrHas;
    DequeueKeeps(k, id);
    DequeueLetGo(k, id);
    SameWait(k, Dequeue(k, id), w, t);
    LetGoDelivers(Dequeue(k, id), k.sems[id].queue[0], [], w, t);
  }

  lemma SameWait(k: Kernel, k': Kernel, w: Pid, t: Pid)
    requires k'.procs == k.procs
    ensures WaitsOn(k', w, t) <==> WaitsOn(k, w, t)
  {
  }

  lemma {:induction false} TickLoopDelivers(k: Kernel, i: nat, w: Pid, t: Pid)
    requires WaitInv(k, []) && SleepersOk(k) && i <= |k.sleepers| && WaitsOn(k, w, t)
    ensures WaitsOrHas(TickLoop(k, i), w, t, KILL_EXIT_CODE)
    decreases |k.sleepers| - i
  {
    hide WaitInv, LetGo, SameFrame, WaitsFor;
    if i < |k.sleepers| {
      var s := k.sleepers[i];
      if IsIn(k.procs, s.pid, Blocked) && s.ticks > 1 {
        var k1 := k.(sleepers := k.sleepers[i := s.(ticks := s.ticks - 1)]);
        CountedKeeps(k, i);
        SameWait(k, k1, w, t);
        TickLoopDelivers(k1, i + 1, w, t);
      } else {
        var k1 := k.(sleepers := k.sleepers[..i] + k.sleepers[i + 1..]);
        AwakenTaken(k, i);
        AwakenKeeps(k, i);
        AwakenOrder(k, i);
        SameWait(k, k1, w, t);
        LetGoDelivers(k1, s.pid, [], w, t);
        var next := AwakenAt(k, i);
        if WaitsOn(next, w, t) { TickLoopDelivers(next, i, w, t); } else { TickLoopSpares(next, i); }
      }
    }
  }

  // ---------------------------------------------------------------- one event

  /** The code that t's waiters get when e ends it: its own if it exits itself, and else that of a
      kill, whether t is killed now or was killed while it was blocked and is let go now. */
  function CodeOf(k: Kernel, e: Event, t: Pid): int {
    if e.Exit? && k.at == t then e.code else 1
  }

  lemma CallDelivers(k: Kernel, e: Event, w: Pid, t: Pid)
    requires Inv(k) && Allowed(k, e) && !Kills(e, w) && WaitsOn(k, w, t)
    requires k.at in k.procs && (k.freed != [] ==> k.freed[|k.freed| - 1] < |k.sems|)
    ensures WaitsOrHas(Call(k, e), w, t, CodeOf(k, e, t))
  {
    hide WaitInv, SemsOk, SleepersOk, HeapsOk, PostLoop, DrainLoop, ExitProcess;
    match e
    case CtrlC(q) => ExitDelivers(k, q, KILL_EXIT_CODE, [], [], w, t);
    case KillPid(q) => if q in k.procs && k.procs[q].state != WaitingForExit { ExitDelivers(k, q, KILL_EXIT_CODE, [], [], w, t); }
    case Exit(code) => ExitDelivers(k, k.at, code, [], [], w, t);
    case Post(i) => if SemOpen(k, i) { PostLoopDelivers(k, i, w, t); }
    case Destroy(i) =>
      if SemOpen(k, i) {
        DrainLoopDelivers(k, i, w, t);
        SameWait(DrainLoop(k, i), Call(k, e), w, t);
      }
    case _ =>
  }

  lemma ScheduleWaits(k: Kernel, w: Pid, t: Pid)
    requires k.at in k.ring && WaitsOn(k, w, t)
    ensures WaitsOn(Schedule(k), w, t)
  {
    hide ScanOrder, Keep;
  }

  lemma ScheduleHands(k: Kernel, w: Pid, t: Pid, code: int)
    requires k.at in k.ring && Handed(k, w, t, code)
    ensures Delivered(Schedule(k), w, t, code)
  {
    hide ScanOrder, Keep, FirstReady;
  }

  predicate Gone(k: Kernel, t: Pid) {
    t !in k.procs || k.procs[t].state == Exited
  }

  /** t has exited, and w is ready or running again with that exit code. */
  predicate Delivered(k: Kernel, w: Pid, t: Pid, code: int) {
    Gone(k, t) && w in k.procs && (k.procs[w].state == Ready || k.procs[w].state == Running) && k.procs[w].waitedExitCode == code
  }

  /** Every event but a kill of w leaves w waiting for t, or ends t and the wait with t's exit code. */
  lemma StepDelivers(k: Kernel, e: Event, w: Pid, t: Pid)
    requires Inv(k) && Allowed(k, e) && !Kills(e, w) && WaitsOn(k, w, t)
    ensures WaitsOn(Step(k, e), w, t) || Delivered(Step(k, e), w, t, CodeOf(k, e, t))
    ensures WaitsOn(Step(k, e), w, t) <==> !Gone(Step(k, e), t)
  {
    hide WaitInv, SemsOk, SleepersOk, HeapsOk, OneRunning, Call, Schedule, TickLoop;
    CallKeeps(k, e);
    if e == Tick {
      ScheduleKeeps(k);
      ScheduleWaits(k, w, t);
      TickLoopDelivers(Schedule(k), 0, w, t);
    } else {
      var c := Call(k, e);
      CallDelivers(k, e, w, t);
      if WaitsOn(c, w, t) { ScheduleWaits(c, w, t); } else { ScheduleHands(c, w, t, CodeOf(k, e, t)); }
    }
  }

  // ---------------------------------------------------------------- whole runs

  ghost predicate StaysAlive(k: Kernel, es: seq<Event>, t: Pid)
    requires Inv(k) && AllowedRun(k, es)
    decreases |es|
  {
    t in k.procs && k.procs[t].state != Exited && (es == [] || StaysAlive(Step(k, es[0]), es[1..], t))
  }

  /** As long as t has not exited, and w is not killed, w waits for it. */
  lemma {:induction false} WaitsAlong(k: Kernel, es: seq<Event>, w: Pid, t: Pid)
    requires Inv(k) && AllowedRun(k, es) && WaitsOn(k, w, t) && Spares(es, w) && StaysAlive(k, es, t)
    ensures WaitsOn(Run(k, es), w, t)
    decreases |es|
  {
    hide Inv, Allowed, Step, WaitsOn, Kills, Delivered;
    if es != [] {
      var e, rest := es[0], es[1..];
      assert !Kills(es[0], w);
      StepDelivers(k, e, w, t);
      assert forall i :: 0 <= i < |rest| ==> rest[i] == es[i + 1];
      WaitsAlong(Step(k, e), rest, w, t);
    }
  }

  /** waitPid for a living process blocks the caller on it. */
  lemma WaitPidStarts(k: Kernel, t: Pid)
    requires Inv(k) && Allowed(k, WaitFor(t)) && t in k.procs && t != k.at && k.procs[t].state != Exited
    ensures WaitsOn(Step(k, WaitFor(t)), k.at, t)
  {
    hide WaitInv, SemsOk, SleepersOk, HeapsOk, OneRunning, Schedule;
    CallKeeps(k, WaitFor(t));
    var c := Call(k, WaitFor(t));
    var table := c.procs[t].waitingForMe;
    assert table[|table| - 1] == k.at;
    ScheduleWaits(c, k.at, t);
  }

  /** Whatever happened since, the event after which the awaited process has exited, be it its own
      exit, a kill, or the moment a queue lets go of it after a kill, makes every process blocked on
      it go on with its exit code. */
  lemma WaitPidDelivers(k: Kernel, es: seq<Event>, e: Event, w: Pid, t: Pid)
    requires Inv(k) && AllowedRun(k, es) && WaitsOn(k, w, t) && Spares(es, w) && StaysAlive(k, es, t)
    requires Allowed(Run(k, es), e) && !Kills(e, w) && Gone(Step(Run(k, es), e), t)
    ensures Delivered(Step(Run(k, es), e), w, t, CodeOf(Run(k, es), e, t))
  {
    hide Inv, Step, WaitsOn, Delivered;
    WaitsAlong(k, es, w, t);
    StepDelivers(Run(k, es), e, w, t);
  }

  // ---------------------------------------------------------------- first in, first out

  /** How many processes an event takes off the queue: a post all up to the one it serves, or all. */
  function Popped(k: Kernel, e: Event, id: nat): nat
    requires id < |k.sems|
  {
    var n := FirstBlocked(k.procs, k.sems[id].queue);
    if e != Post(id) then 0 else if n < |k.sems[id].queue| then n + 1 else n
  }

  /** Whatever happens, a semaphore's queue only loses processes from its front, and only gains the
      caller of a waitSemaphore that found no token, at its end. */
  lemma QueueIsFifo(k: Kernel, e: Event, id: nat) returns (j: nat)
    requires Inv(k) && Allowed(k, e) && SemOpen(k, id) && e != Destroy(id)
    ensures SemOpen(Step(k, e), id) && j <= |k.sems[id].queue|
    ensures Step(k, e).sems[id].queue ==
            k.sems[id].queue[j..] + (if e == Wait(id) && k.sems[id].value == 0 then [k.at] else [])
    ensures j == Popped(k, e, id)
    ensures e == Post(id) ==> forall i :: 0 <= i < j ==> Waits(k, k.sems[id].queue[i])
                                                         && (IsIn(k.procs, k.sems[id].queue[i], Blocked) ==> i == j - 1)
  {
    hide WaitInv, SleepersOk, HeapsOk, OneRunning, Schedule, TickLoop, PostLoop, DrainLoop, ExitProcess;
    StepConserves(k, e, id);
    CallKeeps(k, e);
    TickLoopFrame(Schedule(k), 0);
    ScheduleSems(k);
    ScheduleSems(Call(k, e));
    j := CallFifo(k, e, id);
  }

  lemma PostFifo(k: Kernel, id: nat) returns (j: nat)
    requires WaitInv(k, []) && SemsOk(k) && SemOpen(k, id)
    ensures j == Popped(k, Post(id), id) <= |k.sems[id].queue| && PostLoop(k, id).sems[id].queue == k.sems[id].queue[j..]
    ensures forall i :: 0 <= i < j ==> Waits(k, k.sems[id].queue[i]) && (IsIn(k.procs, k.sems[id].queue[i], Blocked) ==> i == j - 1)
  {
    hide WaitInv, SemsOk, PostLoop;
    PostEffect(k, id);
    var queue := k.sems[id].queue;
    var n := FirstBlocked(k.procs, queue);
    j := if n < |queue| then n + 1 else n;
  }

  lemma CallFifo(k: Kernel, e: Event, id: nat) returns (j: nat)
    requires Inv(k) && Allowed(k, e) && SemOpen(k, id) && e != Destroy(id)
    requires k.at in k.procs && (k.freed != [] ==> k.freed[|k.freed| - 1] < |k.sems|)
    ensures SemOpen(Call(k, e), id) && j <= |k.sems[id].queue|
    ensures Call(k, e).sems[id].queue ==
            k.sems[id].queue[j..] + (if e == Wait(id) && k.sems[id].value == 0 then [k.at] else [])
    ensures j == Popped(k, e, id)
    ensures e == Post(id) ==> forall i :: 0 <= i < j ==> Waits(k, k.sems[id].queue[i])
                                                         && (IsIn(k.procs, k.sems[id].queue[i], Blocked) ==> i == j - 1)
  {
    hide WaitInv, RingOk, SleepersOk, HeapsOk, OneRunning, PostLoop, DrainLoop, ExitProcess, Waits;
    j := 0;
    match e
    case CtrlC(p) => ExitKeepsSems(k, p, KILL_EXIT_CODE);
    case KillPid(p) => if p in k.procs { ExitKeepsSems(k, p, KILL_EXIT_CODE); }
    case Exit(code) => ExitKeepsSems(k, k.at, code);
    case Post(i) =>
      if SemOpen(k, i) {
        PostLoopFrame(k, i);
        if i == id { j := PostFifo(k, id); }
      }
    case Destroy(i) => if SemOpen(k, i) { DrainLoopFrame(k, i); }
    case Init(value) =>
      if k.freed != [] {
        var last := k.freed[|k.freed| - 1];
        assert last in k.freed;
      }
    case _ =>
  }
}
