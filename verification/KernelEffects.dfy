/** What each kernel call does, stated outright: to the process it names, to its caller and to
    everybody else; and that a killed process never runs again. */
module KernelEffects {
  import opened Common
  import opened KernelSpec
  import opened WaitQueues
  import opened KernelSafety
  import opened KernelSteps
  import opened KernelRuns
  import opened KernelExit
  import opened KernelTimer
  import opened KernelFairness
  import KernelTurns

  /** A call after which the current process still runs makes no context switch. */
  lemma NoSwitch(k: Kernel, e: Event)
    requires Inv(k) && Allowed(k, e) && e != Tick && !Switches(e)
    ensures k.at in k.procs && (k.freed != [] ==> k.freed[|k.freed| - 1] < |k.sems|)
    ensures Call(k, e).idle || CurrentRuns(Call(k, e)) ==> Step(k, e) == Call(k, e)
    ensures !Call(k, e).idle && !CurrentRuns(Call(k, e)) ==> Call(k, e).at in Call(k, e).ring && Step(k, e) == Schedule(Call(k, e))
  {
    hide WaitInv, SemsOk, SleepersOk, HeapsOk, OneRunning, Call, Schedule;
    CallKeeps(k, e);
  }

  // ---------------------------------------------------------------- kill

  /** kill, on every state and pid. Pid 0, unknown, exited and already killed processes are left
      alone. A blocked one is marked, its heap is given back, and it stays in its queue. Any other
      exits, taking along the killed processes that wait for it and readying the blocked ones. */
  lemma KillEffect(k: Kernel, p: Pid)
    ensures var r := Kill(k, p);
            && (p == 0 || p !in k.procs || k.procs[p].state == Exited || k.procs[p].state == WaitingForExit ==> r == k)
            && (p != 0 && IsIn(k.procs, p, Blocked) ==>
                  && r == k.(procs := k.procs[p := k.procs[p].(state := WaitingForExit, heapFreed := true)])
                  && forall l :: Queue(r, [], l) == Queue(k, [], l))
            && (p != 0 && p in k.procs && k.procs[p].state in {Ready, Running, BlockedByUser} ==>
                  var dying := Exiting(k, r);
                  && r == k.(procs := r.procs) && r.procs.Keys == k.procs.Keys
                  && IsIn(r.procs, p, Exited) && p in dying && Closed(k, dying)
                  && (forall s :: p in s && Closed(k, s) ==> dying <= s)
                  && forall q :: q in k.procs ==>
                                   if q in dying then r.procs[q].state == Exited
                                   else if IsIn(k.procs, q, Blocked) && (exists t :: t in dying && WaitsFor(k, q, t))
                                   then r.procs[q].state == Ready
                                   else r.procs[q] == k.procs[q])
  {
    hide Closed, Exiting, ReleaseWaiters;
    if p != 0 && p in k.procs && k.procs[p].state in {Ready, Running, BlockedByUser} {
      hide ExitProcess;
      ExitEffect(k, p, KILL_EXIT_CODE);
      InDying(k, Kill(k, p), p);
    }
  }

  /** Whoever a kill readies is handed exit code 1. */
  lemma KillCodes(k: Kernel, p: Pid, w: Pid, t: Pid)
    requires Inv(k) && p != 0 && p in k.procs && k.procs[p].state in {Ready, Running, BlockedByUser}
    requires IsIn(k.procs, w, Blocked) && WaitsFor(k, w, t) && t in Exiting(k, Kill(k, p))
    ensures IsIn(Kill(k, p).procs, w, Ready) && Kill(k, p).procs[w].waitedExitCode == 1
  {
    hide WaitInv, SemsOk, SleepersOk, HeapsOk, OneRunning, ReleaseWaiters, WaitsFor, Exiting;
    ExitCodes(k, p, KILL_EXIT_CODE, [], [], w, t);
  }

  lemma InDying(k: Kernel, r: Kernel, p: Pid)
    requires p in Exiting(k, r)
    ensures IsIn(r.procs, p, Exited)
  {
  }

  /** p was killed while blocked, or has exited, or has been freed; its pid will not come back. */
  predicate Doomed(k: Kernel, p: Pid) {
    p < k.nextPid && (p in k.procs ==> k.procs[p].state == WaitingForExit || k.procs[p].state == Exited)
  }

  /** Killed processes stay killed, exited ones exited. */
  ghost predicate Sinks(k: Kernel, k': Kernel) {
    && k'.procs.Keys == k.procs.Keys && k'.nextPid == k.nextPid
    && forall q :: q in k.procs ==>
                     && (k.procs[q].state == WaitingForExit ==> k'.procs[q].state in {WaitingForExit, Exited})
                     && (k.procs[q].state == Exited ==> k'.procs[q].state == Exited)
  }

  lemma ExitSinks(k: Kernel, p: Pid, code: int)
    requires p in k.procs
    ensures Sinks(k, ExitProcess(k, p, code))
  {
    hide ReleaseWaiters;
    ReleaseFrame(SetState(k, p, Exited), Waiters(k.procs[p].waitingForMe, code));
  }

  lemma LetGoSinks(k: Kernel, p: Pid)
    ensures Sinks(k, LetGo(k, p))
  {
    hide ExitProcess;
    if IsIn(k.procs, p, WaitingForExit) { ExitSinks(k, p, KILL_EXIT_CODE); }
  }

  lemma {:induction false} PostLoopSinks(k: Kernel, id: nat)
    requires id < |k.sems|
    ensures Sinks(k, PostLoop(k, id))
    decreases |k.sems[id].queue|
  {
    hide LetGo;
    if k.sems[id].queue != [] {
      var p := k.sems[id].queue[0];
      LetGoSinks(Dequeue(k, id), p);
      if !IsIn(k.procs, p, Blocked) {
        PostLoopSinks(LetGo(Dequeue(k, id), p), id);
      }
    }
  }

  lemma {:induction false} DrainLoopSinks(k: Kernel, id: nat)
    requires id < |k.sems|
    ensures Sinks(k, DrainLoop(k, id))
    decreases |k.sems[id].queue|
  {
    hide LetGo;
    if k.sems[id].queue != [] {
      var p := k.sems[id].queue[0];
      LetGoSinks(Dequeue(k, id), p);
      DrainLoopSinks(LetGo(Dequeue(k, id), p), id);
    }
  }

  lemma {:induction false} TickLoopSinks(k: Kernel, i: nat)
    requires i <= |k.sleepers|
    ensures Sinks(k, TickLoop(k, i))
    decreases |k.sleepers| - i
  {
    hide LetGo;
    if i < |k.sleepers| {
      var s := k.sleepers[i];
      if IsIn(k.procs, s.pid, Blocked) && s.ticks > 1 {
        TickLoopSinks(k.(sleepers := k.sleepers[i := s.(ticks := s.ticks - 1)]), i + 1);
      } else {
        LetGoSinks(k, s.pid);
        TickLoopSinks(AwakenAt(k, i), i);
      }
    }
  }

  lemma CallDoomed(k: Kernel, e: Event, p: Pid)
    requires Inv(k) && Allowed(k, e) && Doomed(k, p)
    requires k.at in k.procs && (k.freed != [] ==> k.freed[|k.freed| - 1] < |k.sems|)
    ensures Doomed(Call(k, e), p)
  {
    hide WaitInv, SemsOk, SleepersOk, HeapsOk, OneRunning, PostLoop, DrainLoop, ExitProcess;
    match e
    case CtrlC(q) => ExitSinks(k, q, KILL_EXIT_CODE);
    case KillPid(q) => if q in k.procs { ExitSinks(k, q, KILL_EXIT_CODE); }
    case Exit(code) => ExitSinks(k, k.at, code);
    case Post(i) => if SemOpen(k, i) { PostLoopSinks(k, i); }
    case Destroy(i) => if SemOpen(k, i) { DrainLoopSinks(k, i); }
    case _ =>
  }

  lemma ScheduleDoomed(k: Kernel, p: Pid)
    requires k.at in k.ring && Doomed(k, p)
    ensures Doomed(Schedule(k), p)
  {
    hide ScanOrder, Keep;
  }

  lemma StepDoomed(k: Kernel, e: Event, p: Pid)
    requires Inv(k) && Allowed(k, e) && Doomed(k, p)
    ensures Doomed(Step(k, e), p)
  {
    hide WaitInv, SemsOk, SleepersOk, HeapsOk, OneRunning, Call, Schedule, TickLoop, Doomed;
    CallKeeps(k, e);
    if e == Tick {
      ScheduleDoomed(k, p);
      TickDoomed(Schedule(k), p);
    } else {
      CallDoomed(k, e, p);
      ScheduleDoomed(Call(k, e), p);
    }
  }

  lemma TickDoomed(k: Kernel, p: Pid)
    requires Doomed(k, p)
    ensures Doomed(TickLoop(k, 0), p)
  {
    hide TickLoop;
    TickLoopSinks(k, 0);
  }

  /** A process once killed is never ready, running or blocked by the user again, over every run. */
  lemma {:induction false} NeverRunsAgain(k: Kernel, es: seq<Event>, p: Pid)
    requires Inv(k) && AllowedRun(k, es) && Doomed(k, p)
    ensures Doomed(Run(k, es), p)
    decreases |es|
  {
    hide Inv, Allowed, Step, Doomed;
    if es != [] {
      StepDoomed(k, es[0], p);
      NeverRunsAgain(Step(k, es[0]), es[1..], p);
    }
  }

  /** A kill dooms every process there is but the first, a Ctrl-C likewise, and an exit the caller. */
  lemma KillDooms(k: Kernel, e: Event, p: Pid)
    requires Inv(k) && Allowed(k, e) && p in k.procs
    requires (p != 0 && (e == KillPid(p) || e == CtrlC(p))) || (e.Exit? && p == k.at)
    ensures Doomed(Step(k, e), p)
  {
    hide WaitInv, SemsOk, SleepersOk, HeapsOk, OneRunning, Schedule, ReleaseWaiters;
    CallKeeps(k, e);
    ReleaseFrame(SetState(k, p, Exited), Waiters(k.procs[p].waitingForMe, if e.Exit? then e.code else KILL_EXIT_CODE));
    ScheduleDoomed(Call(k, e), p);
  }

  /** The tick after which a killed sleeper has exited: the next one. */
  lemma {:induction false} TickLoopExits(k: Kernel, i: nat, j: nat)
    requires WaitInv(k, []) && SleepersOk(k) && i <= j < |k.sleepers| && IsIn(k.procs, k.sleepers[j].pid, WaitingForExit)
    ensures IsIn(TickLoop(k, i).procs, k.sleepers[j].pid, Exited)
    decreases |k.sleepers| - i
  {
    hide WaitInv, LetGo, SleepersOk;
    var s, p := k.sleepers[i], k.sleepers[j].pid;
    TickStep(k, i);
    if IsIn(k.procs, s.pid, Blocked) && s.ticks > 1 {
      var k1 := k.(sleepers := k.sleepers[i := s.(ticks := s.ticks - 1)]);
      assert k1.sleepers[j] == k.sleepers[j];
      TickLoopExits(k1, i + 1, j);
    } else {
      var k1 := k.(sleepers := k.sleepers[..i] + k.sleepers[i + 1..]);
      var next := LetGo(k1, s.pid);
      LetGoSinks(k1, s.pid);
      if next.procs[p].state == Exited {
        TickLoopSinks(next, i);
      } else {
        if i == j { ExitsWhenLetGo(k1, p); }
        assert next.sleepers[j - 1] == k.sleepers[j];
        TickLoopExits(next, i, j - 1);
      }
    }
  }

  lemma ExitsWhenLetGo(k: Kernel, p: Pid)
    requires IsIn(k.procs, p, WaitingForExit)
    ensures IsIn(LetGo(k, p).procs, p, Exited)
  {
    hide ReleaseWaiters;
    ReleaseFrame(SetState(k, p, Exited), Waiters(k.procs[p].waitingForMe, KILL_EXIT_CODE));
  }

  lemma KilledSleeperExits(k: Kernel, p: Pid)
    requires Inv(k) && IsIn(k.procs, p, WaitingForExit) && p in Pids(k.sleepers)
    ensures IsIn(Step(k, Tick).procs, p, Exited)
  {
    hide WaitInv, SemsOk, SleepersOk, HeapsOk, OneRunning, TickLoop, Dispatch;
    ScheduleKeeps(k);
    var s := Schedule(k);
    StaysKilled(k, p);
    var j :| 0 <= j < |k.sleepers| && Pids(k.sleepers)[j] == p;
    TickLoopExits(s, 0, j);
  }

  lemma StaysKilled(k: Kernel, p: Pid)
    requires RingOk(k) && IsIn(k.procs, p, WaitingForExit)
    ensures Schedule(k).sleepers == k.sleepers && IsIn(Schedule(k).procs, p, WaitingForExit)
  {
    hide ScanOrder, Keep, FirstReady;
  }

  // ---------------------------------------------------------------- block, unblock, priority, yield

  /** Blocking by the user takes effect exactly on ready and running processes, and on nobody else. */
  lemma BlockEffect(k: Kernel, p: Pid)
    requires Inv(k) && !k.idle
    ensures var r := BlockByUser(k, p);
            && (p in k.procs && k.procs[p].state in {Ready, Running} ==> r == k.(procs := k.procs[p := k.procs[p].(state := BlockedByUser)]))
            && (!(p in k.procs && k.procs[p].state in {Ready, Running}) ==> r == k)
    ensures p != k.at || !(p in k.procs) ==> Step(k, Block(p)) == BlockByUser(k, p)
    ensures p == k.at ==> IsIn(Step(k, Block(p)).procs, p, BlockedByUser) && (Step(k, Block(p)).idle || Step(k, Block(p)).at != p)
  {
    hide WaitInv, SemsOk, SleepersOk, HeapsOk, OneRunning, Schedule;
    NoSwitch(k, Block(p));
    if p == k.at {
      CallKeeps(k, Block(p));
      UserBlocked(Call(k, Block(p)), p);
    }
  }

  lemma UserBlocked(k: Kernel, p: Pid)
    requires RingOk(k) && IsIn(k.procs, p, BlockedByUser)
    ensures IsIn(Schedule(k).procs, p, BlockedByUser) && (k.at == p ==> Schedule(k).idle || Schedule(k).at != p)
  {
    hide ScanOrder, Keep, FirstReady;
  }

  /** Unblocking readies exactly a process blocked by the user, and does nothing else. */
  lemma UnblockEffect(k: Kernel, p: Pid)
    requires Inv(k) && !k.idle
    ensures Step(k, UnblockPid(p)) ==
            if IsIn(k.procs, p, BlockedByUser) then k.(procs := k.procs[p := k.procs[p].(state := Ready)]) else k
  {
    hide WaitInv, SemsOk, SleepersOk, HeapsOk, OneRunning, Schedule;
    NoSwitch(k, UnblockPid(p));
  }

  /** A priority from 1 to 9 is stored for a known process, and nothing else happens. */
  lemma PriorityEffect(k: Kernel, p: Pid, n: int)
    requires Inv(k) && !k.idle
    ensures Step(k, Priority(p, n)) ==
            if p in k.procs && 1 <= n <= 9 then k.(procs := k.procs[p := k.procs[p].(priority := n)]) else k
  {
    hide WaitInv, SemsOk, SleepersOk, HeapsOk, OneRunning, Schedule;
    NoSwitch(k, Priority(p, n));
  }

  /** Yield stays ready, gives the processor to any other ready process, and else starts a new turn. */
  lemma YieldEffect(k: Kernel)
    requires Inv(k) && !k.idle
    ensures var r := Step(k, Event.Yield);
            && !r.idle && CurrentIsRunning(r) && r.quantum == r.procs[r.at].priority - 1
            && (r.at == k.at <==> forall q :: q != k.at ==> !IsIn(k.procs, q, Ready))
            && (r.at != k.at ==> IsIn(k.procs, r.at, Ready) && IsIn(r.procs, k.at, Ready))
  {
    hide WaitInv, SemsOk, SleepersOk, HeapsOk, OneRunning, Schedule, Between;
    CallKeeps(k, Event.Yield);
    var c := SetState(k, k.at, Ready);
    assert Call(k, Event.Yield) == c && IsIn(c.procs, k.at, Ready);
    forall q | q != k.at
      ensures IsIn(c.procs, q, Ready) == IsIn(k.procs, q, Ready)
    {
    }
    var r := Schedule(c);
    assert Step(k, Event.Yield) == r && Preempted(c) == c && Looks(c);
    SchedulePicks(c, k.at);
    SchedulePicks(c, r.at);
    PickedSamePriority(c);
    if r.at == k.at {
      forall q | q != k.at
        ensures !IsIn(k.procs, q, Ready)
      {
        SchedulePicks(c, q);
        NotBetween(k.at, q);
      }
    }
  }

  lemma NotBetween(at: Pid, q: Pid)
    requires q != at
    ensures !Between(at, at, q)
  {
  }

  lemma PickedSamePriority(k: Kernel)
    requires RingOk(k) && !CurrentIsRunning(k)
    ensures var s := Schedule(k); !s.idle ==> s.at in s.procs && s.at in k.procs && s.procs[s.at].priority == k.procs[s.at].priority
  {
    hide ScanOrder, FirstReady, Keep, Reaped;
  }

  // ---------------------------------------------------------------- keys

  /** The F2 key counts like the end of a tick: it takes one off the turn of the running process, and
      only when nothing is left, or nobody runs, does another ready process get the processor. */
  lemma SwitchKeyEffect(k: Kernel)
    requires Inv(k)
    ensures var r := Step(k, SwitchKey);
            if !k.idle && IsIn(k.procs, k.at, Running) && k.quantum > 0 then r == k.(quantum := k.quantum - 1)
            else && r.sleepers == k.sleepers && r.sems == k.sems
                 && (r.idle <==> k.idle && forall q :: !IsIn(k.procs, q, Ready))
                 && (!r.idle ==> CurrentIsRunning(r) && r.quantum == r.procs[r.at].priority - 1)
                 && (!r.idle && !k.idle ==> (r.at == k.at <==> forall q :: q != k.at ==> !IsIn(k.procs, q, Ready)))
  {
    hide WaitInv, SemsOk, SleepersOk, HeapsOk, Schedule, Between;
    SemInitReady(k);
    var r := Schedule(k);
    assert Step(k, SwitchKey) == r;
    if !Looks(k) {
      SpendsOne(k);
    } else {
      SchedulePicks(k, k.at);
      SchedulePicks(k, r.at);
      KernelTurns.PickedPriority(k);
      ReadyBut(k);
      if r.at == k.at && !k.idle {
        forall q | q != k.at
          ensures !IsIn(k.procs, q, Ready)
        {
          SchedulePicks(k, q);
          NotBetween(k.at, q);
        }
      }
    }
  }

  lemma SpendsOne(k: Kernel)
    requires k.at in k.ring && !Looks(k)
    ensures Schedule(k) == k.(quantum := k.quantum - 1)
  {
  }

  /** Who is ready once the current process is preempted: the same as before, and itself. */
  lemma ReadyBut(k: Kernel)
    requires Inv(k)
    ensures forall q :: q != k.at || k.idle ==> IsIn(Preempted(k).procs, q, Ready) == IsIn(k.procs, q, Ready)
    ensures !k.idle ==> IsIn(Preempted(k).procs, k.at, Ready)
  {
    hide WaitInv, SemsOk, SleepersOk, HeapsOk;
  }

  /** Ctrl-C on another process ends it and, like the F2 key, takes one off the turn. */
  lemma CtrlCEffect(k: Kernel, p: Pid)
    requires Inv(k) && Allowed(k, CtrlC(p)) && p != 0 && CurrentIsRunning(k) && p != k.at
    ensures var r := ExitProcess(k, p, 1);
            CurrentIsRunning(r) && (k.quantum > 0 ==> Step(k, CtrlC(p)) == r.(quantum := k.quantum - 1))
  {
    hide WaitInv, SemsOk, SleepersOk, HeapsOk, OneRunning, Schedule, ReleaseWaiters;
    SemInitReady(k);
    CallKeeps(k, CtrlC(p));
    ReleaseFrame(SetState(k, p, Exited), Waiters(k.procs[p].waitingForMe, KILL_EXIT_CODE));
    var r := ExitProcess(k, p, 1);
    if k.quantum > 0 { SpendsOne(r); }
  }

  // ---------------------------------------------------------------- semaphores

  /** A wait with a token left takes one and goes on; without one the caller is blocked at the end
      of the queue, and somebody else or nobody runs; a closed semaphore changes nothing. */
  lemma WaitEffect(k: Kernel, id: int)
    requires Inv(k) && !k.idle
    ensures var r := Step(k, Wait(id));
            && (!SemOpen(k, id) ==> r == k)
            && (SemOpen(k, id) && k.sems[id].value > 0 ==>
                  r == k.(sems := k.sems[id := k.sems[id].(value := k.sems[id].value - 1)]))
            && (SemOpen(k, id) && k.sems[id].value == 0 ==>
                  && IsIn(r.procs, k.at, Blocked) && (r.idle || r.at != k.at)
                  && r.sems == k.sems[id := k.sems[id].(queue := k.sems[id].queue + [k.at])])
  {
    hide WaitInv, SemsOk, SleepersOk, HeapsOk, OneRunning, Schedule;
    NoSwitch(k, Wait(id));
    if SemOpen(k, id) && k.sems[id].value == 0 {
      CallKeeps(k, Wait(id));
      BlockedStays(Call(k, Wait(id)), k.at);
    }
  }

  lemma BlockedStays(k: Kernel, p: Pid)
    requires RingOk(k) && IsIn(k.procs, p, Blocked)
    ensures var s := Schedule(k);
            IsIn(s.procs, p, Blocked) && (k.at == p && !k.idle ==> s.idle || s.at != p) && s.sems == k.sems && s.freed == k.freed
  {
    hide ScanOrder, Keep, FirstReady;
  }

  /** A destroyed semaphore is closed and its position free for the next; the other semaphores stay. */
  lemma DestroyCloses(k: Kernel, id: nat)
    requires Inv(k) && !k.idle && SemOpen(k, id)
    ensures var r := Step(k, Destroy(id));
            && !SemOpen(r, id) && r.freed == k.freed + [id] && |r.sems| == |k.sems|
            && r.sems[id].destroyed && r.sems[id].queue == []
            && forall i :: 0 <= i < |k.sems| && i != id ==> r.sems[i] == k.sems[i]
  {
    hide WaitInv, SleepersOk, HeapsOk, OneRunning, Schedule, DrainLoop;
    CallKeeps(k, Destroy(id));
    DrainLoopKeeps(k, id);
    DrainLoopFrame(k, id);
    ScheduleKeepsSems(Call(k, Destroy(id)));
  }

  lemma ScheduleKeepsSems(k: Kernel)
    requires k.at in k.ring
    ensures Schedule(k).sems == k.sems && Schedule(k).freed == k.freed
  {
    hide ScanOrder, Keep, FirstReady;
  }

  /** A new semaphore takes the position freed last, or a new one; it is open, with its value and
      nobody queued, and no other semaphore changes. */
  lemma InitEffect(k: Kernel, value: nat)
    requires Inv(k) && !k.idle
    ensures k.freed != [] ==> k.freed[|k.freed| - 1] < |k.sems|
    ensures var r, n := Step(k, Init(value)), |k.freed|;
            var id := if n > 0 then k.freed[n - 1] else |k.sems|;
            && SemOpen(r, id) && r.sems[id] == Semaphore(value, [], false) && id == SemInit(k, value).1
            && r.freed == (if n > 0 then k.freed[..n - 1] else [])
            && |r.sems| == (if n > 0 then |k.sems| else |k.sems| + 1)
            && forall i :: 0 <= i < |k.sems| && i != id ==> r.sems[i] == k.sems[i]
  {
    hide WaitInv, SemsOk, SleepersOk, HeapsOk, OneRunning, Schedule;
    NoSwitch(k, Init(value));
  }

  /** So a destroyed semaphore's position is the next to be used. */
  lemma InitReusesDestroyed(k: Kernel, id: nat, value: nat)
    requires Inv(k) && !k.idle && SemOpen(k, id)
    ensures var d := Step(k, Destroy(id));
            && !d.idle && d.freed != [] && d.freed[|d.freed| - 1] < |d.sems|
            && SemInit(d, value).1 == id && id < |Step(d, Init(value)).sems|
            && Step(d, Init(value)).sems[id] == Semaphore(value, [], false)
  {
    hide WaitInv, SemsOk, SleepersOk, HeapsOk, OneRunning, Schedule, DrainLoop;
    DestroyCloses(k, id);
    NoSwitch(k, Destroy(id));
    DrainLoopSettles(k, id);
    DrainLoopFrame(k, id);
    InitEffect(Step(k, Destroy(id)), value);
  }

  // ---------------------------------------------------------------- the rest

  /** A new process is ready, of priority 1, behind all others, with a pid never used before. */
  lemma CreateEffect(k: Kernel)
    requires Inv(k) && !k.idle
    ensures var r := Step(k, Create);
            && k.nextPid !in k.procs && r.nextPid == k.nextPid + 1 && r.ring == k.ring + [k.nextPid]
            && r == k.(procs := k.procs[k.nextPid := PCB(Ready, 1, [], 0, false)], ring := r.ring, nextPid := r.nextPid)
  {
    hide WaitInv, SemsOk, SleepersOk, HeapsOk, OneRunning, Schedule;
    CreateProcessKeeps(k);
    NoSwitch(k, Create);
  }

  /** Calls that change nothing: sleeping no ticks, waiting for itself, for nobody or for a process
      that has exited, and Ctrl-C on the first process. */
  lemma NothingHappens(k: Kernel, p: Pid)
    requires Inv(k)
    ensures !k.idle ==> Step(k, SleepFor(0)) == k
    ensures !k.idle && Allowed(k, WaitFor(p)) && (p == k.at || p !in k.procs || k.procs[p].state == Exited) ==> Step(k, WaitFor(p)) == k
    ensures 0 in k.procs && k.procs[0].state != WaitingForExit ==> Step(k, CtrlC(0)) == k
  {
    hide WaitInv, SemsOk, SleepersOk, HeapsOk, OneRunning, Schedule;
    if !k.idle { NoSwitch(k, SleepFor(0)); }
    if !k.idle && Allowed(k, WaitFor(p)) { NoSwitch(k, WaitFor(p)); }
    if Allowed(k, CtrlC(0)) { NoSwitch(k, CtrlC(0)); }
  }

  /** Sleeping any other number of ticks blocks the caller. */
  lemma SleepStops(k: Kernel, ticks: nat)
    requires Inv(k) && !k.idle && ticks > 0
    ensures var r := Step(k, SleepFor(ticks)); IsIn(r.procs, k.at, Blocked) && (r.idle || r.at != k.at)
  {
    hide WaitInv, SemsOk, SleepersOk, HeapsOk, OneRunning, Schedule;
    NoSwitch(k, SleepFor(ticks));
    CallKeeps(k, SleepFor(ticks));
    BlockedStays(Call(k, SleepFor(ticks)), k.at);
  }
}
