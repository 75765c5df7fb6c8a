/** The sleep list: a process that sleeps t ticks and is not killed becomes ready at exactly the
    t-th tick, whatever other processes do in the meantime. */
module KernelTimer {
  import opened KernelSpec
  import opened WaitQueues
  import opened KernelSafety
  import opened KernelSteps
  import opened KernelRuns

  /** p is blocked on the sleep list with t ticks to go. */
  ghost predicate SleepsFor(k: Kernel, p: Pid, t: nat) {
    Sleeper(p, t) in k.sleepers && IsIn(k.procs, p, Blocked)
  }

  /** Processes keep their states or stop waiting. */
  ghost predicate Settling(k: Kernel, k': Kernel) {
    k'.procs.Keys == k.procs.Keys
    && forall q :: q in k.procs ==>
                     || k'.procs[q].state == k.procs[q].state
                     || (Waiting(k.procs[q].state) && !Waiting(k'.procs[q].state))
  }

  lemma LetGoSettles(k: Kernel, p: Pid)
    ensures Settling(k, LetGo(k, p))
    ensures LetGo(k, p).sleepers == k.sleepers
  {
    if IsIn(k.procs, p, WaitingForExit) {
      ReleaseFrame(SetState(k, p, Exited), Waiters(k.procs[p].waitingForMe, KILL_EXIT_CODE));
    }
  }

  lemma {:induction false} TickLoopSettles(k: Kernel, i: nat)
    requires i <= |k.sleepers|
    ensures Settling(k, TickLoop(k, i))
    ensures i <= |TickLoop(k, i).sleepers| && TickLoop(k, i).sleepers[..i] == k.sleepers[..i]
    decreases |k.sleepers| - i
  {
    hide LetGo;
    if i < |k.sleepers| {
      var s := k.sleepers[i];
      if IsIn(k.procs, s.pid, Blocked) && s.ticks > 1 {
        var k1 := k.(sleepers := k.sleepers[i := s.(ticks := s.ticks - 1)]);
        TickLoopSettles(k1, i + 1);
        var r := TickLoop(k1, i + 1);
        assert r.sleepers[..i] == r.sleepers[..i + 1][..i] == k1.sleepers[..i + 1][..i] == k.sleepers[..i];
      } else {
        LetGoSettles(k, s.pid);
        TickLoopSettles(AwakenAt(k, i), i);
      }
    }
  }

  /** A process that is still on a queue has kept its state. */
  lemma StillWaiting(k: Kernel, k': Kernel, p: Pid)
    requires Settling(k, k') && WaitInv(k', []) && p in k.procs && p in Pids(k'.sleepers)
    ensures k'.procs[p].state == k.procs[p].state
  {
    assert p in Queue(k', [], Asleep);
    assert Queued(k', [], p);
  }

  lemma InPids(sleepers: seq<Sleeper>, i: nat)
    requires i < |sleepers|
    ensures sleepers[i].pid in Pids(sleepers)
  {
    assert Pids(sleepers)[i] == sleepers[i].pid;
  }

  /** The countdown reaches sleeper j. */
  lemma {:induction false} TickReaches(k: Kernel, i: nat, j: nat)
    requires WaitInv(k, []) && SleepersOk(k) && i <= j < |k.sleepers| && IsIn(k.procs, k.sleepers[j].pid, Blocked)
    ensures var s, r := k.sleepers[j], TickLoop(k, i);
            if s.ticks > 1 then SleepsFor(r, s.pid, s.ticks - 1)
            else IsIn(r.procs, s.pid, Ready) && s.pid !in Pids(r.sleepers)
    decreases |k.sleepers| - i
  {
    hide WaitInv, LetGo, Settling, SleepersOk;
    if i == j {
      TickHits(k, i);
    } else {
      var s := k.sleepers[i];
      if IsIn(k.procs, s.pid, Blocked) && s.ticks > 1 {
        var k1 := k.(sleepers := k.sleepers[i := s.(ticks := s.ticks - 1)]);
        CountedKeeps(k, i);
        TickReaches(k1, i + 1, j);
      } else {
        var k1 := AwakenAt(k, i);
        AwakenKeeps(k, i);
        LetGoSettles(k, s.pid);
        assert k1.sleepers[j - 1] == k.sleepers[j];
        InPids(k1.sleepers, j - 1);
        AwakenSettles(k, i);
        StillWaiting(k, k1, k.sleepers[j].pid);
        TickReaches(k1, i, j - 1);
      }
    }
  }

  lemma AwakenSettles(k: Kernel, i: nat)
    requires i < |k.sleepers|
    ensures Settling(k, AwakenAt(k, i))
  {
    hide LetGo;
    LetGoSettles(k, k.sleepers[i].pid);
  }

  lemma CountedKeeps(k: Kernel, i: nat)
    requires WaitInv(k, []) && SleepersOk(k) && i < |k.sleepers| && k.sleepers[i].ticks > 1
    ensures var s := k.sleepers[i];
            var k1 := k.(sleepers := k.sleepers[i := s.(ticks := s.ticks - 1)]);
            WaitInv(k1, []) && SleepersOk(k1)
  {
    hide WaitInv;
    var s := k.sleepers[i];
    var k1 := k.(sleepers := k.sleepers[i := s.(ticks := s.ticks - 1)]);
    assert Pids(k1.sleepers) == Pids(k.sleepers);
    SameQueues(k, k1, []);
  }

  /** The countdown of sleeper i itself. */
  lemma TickHits(k: Kernel, i: nat)
    requires WaitInv(k, []) && SleepersOk(k) && i < |k.sleepers| && IsIn(k.procs, k.sleepers[i].pid, Blocked)
    ensures var s, r := k.sleepers[i], TickLoop(k, i);
            if s.ticks > 1 then SleepsFor(r, s.pid, s.ticks - 1)
            else IsIn(r.procs, s.pid, Ready) && s.pid !in Pids(r.sleepers)
  {
    hide WaitInv, LetGo;
    var s := k.sleepers[i];
    TickLoopKeeps(k, i);
    var r := TickLoop(k, i);
    if s.ticks > 1 {
      var k1 := k.(sleepers := k.sleepers[i := s.(ticks := s.ticks - 1)]);
      TickLoopSettles(k1, i + 1);
      assert r.sleepers[i] == r.sleepers[..i + 1][i] == k1.sleepers[i];
      InPids(r.sleepers, i);
      StillWaiting(k1, r, s.pid);
    } else {
      var k1 := AwakenAt(k, i);
      assert IsIn(k1.procs, s.pid, Ready) by {
        LetGoReadies(k, s.pid);
      }
      TickLoopSettles(k1, i);
      if s.pid in Pids(r.sleepers) {
        assert s.pid in Queue(r, [], Asleep);
        QueuedWaits(r, s.pid, Asleep);
      }
    }
  }

  lemma QueuedWaits(k: Kernel, p: Pid, l: Place)
    requires WaitInv(k, []) && p in Queue(k, [], l)
    ensures Waits(k, p)
  {
    assert Queued(k, [], p);
  }

  lemma LetGoReadies(k: Kernel, p: Pid)
    requires IsIn(k.procs, p, Blocked)
    ensures IsIn(LetGo(k, p).procs, p, Ready)
  {
  }

  /** One round of the countdown. */
  lemma TickStep(k: Kernel, i: nat)
    requires WaitInv(k, []) && SleepersOk(k) && i < |k.sleepers|
    ensures var s := k.sleepers[i];
            && Waits(k, s.pid) && s.ticks > 0
            && (if IsIn(k.procs, s.pid, Blocked) && s.ticks > 1 then
                  var k1 := k.(sleepers := k.sleepers[i := s.(ticks := s.ticks - 1)]);
                  TickLoop(k, i) == TickLoop(k1, i + 1) && WaitInv(k1, []) && SleepersOk(k1)
                else
                  var k1 := k.(sleepers := k.sleepers[..i] + k.sleepers[i + 1..]);
                  && LetGo(k1, s.pid).sleepers == k1.sleepers
                  && TickLoop(k, i) == TickLoop(LetGo(k1, s.pid), i)
                  && WaitInv(k1, [s.pid] + []) && WaitInv(LetGo(k1, s.pid), []) && SleepersOk(LetGo(k1, s.pid))
                  && (IsIn(k.procs, s.pid, Blocked) ==> LetGo(k1, s.pid) == SetState(k1, s.pid, Ready)))
  {
    hide WaitInv, LetGo;
    var s := k.sleepers[i];
    InPids(k.sleepers, i);
    QueuedWaits(k, s.pid, Asleep);
    if IsIn(k.procs, s.pid, Blocked) && s.ticks > 1 {
      CountedKeeps(k, i);
    } else {
      AwakenKeeps(k, i);
      AwakenOrder(k, i);
      AwakenTaken(k, i);
      LetGoIs(k, i);
    }
  }

  lemma LetGoIs(k: Kernel, i: nat)
    requires i < |k.sleepers|
    ensures var k1 := k.(sleepers := k.sleepers[..i] + k.sleepers[i + 1..]);
            && LetGo(k1, k.sleepers[i].pid).sleepers == k1.sleepers
            && (IsIn(k.procs, k.sleepers[i].pid, Blocked) ==>
                  LetGo(k1, k.sleepers[i].pid) == SetState(k1, k.sleepers[i].pid, Ready))
  {
    LetGoSettles(k.(sleepers := k.sleepers[..i] + k.sleepers[i + 1..]), k.sleepers[i].pid);
  }

  // ---------------------------------------------------------------- one event

  predicate Kills(e: Event, p: Pid) {
    e == KillPid(p) || e == CtrlC(p)
  }

  lemma ScheduleKeepsSleeper(k: Kernel, p: Pid, t: nat)
    requires k.at in k.ring && SleepsFor(k, p, t)
    ensures SleepsFor(Schedule(k), p, t)
  {
    var k1 := Preempted(k);
    var order := ScanOrder(k.ring, k.at);
    var j := FirstReady(k1.procs, order);
  }

  /** A kernel call that does not kill p leaves its sleep alone. */
  lemma CallKeepsSleeper(k: Kernel, e: Event, p: Pid, t: nat)
    requires Inv(k) && Allowed(k, e) && SleepsFor(k, p, t) && !Kills(e, p)
    ensures k.at in k.procs && (k.freed != [] ==> k.freed[|k.freed| - 1] < |k.sems|)
    ensures SleepsFor(Call(k, e), p, t)
  {
    hide WaitInv, SemsOk, SleepersOk, HeapsOk, OneRunning, RingOk, PostLoop, DrainLoop, ExitProcess;
    CallKeeps(k, e);
    CallSleepers(k, e, Sleeper(p, t));
    var k' := Call(k, e);
    assert Sleeper(p, t) in k'.sleepers;
    var i :| 0 <= i < |k'.sleepers| && k'.sleepers[i] == Sleeper(p, t);
    InPids(k'.sleepers, i);
    QueuedWaits(k', p, Asleep);
    CallState(k, e, p);
  }

  lemma CallSleepers(k: Kernel, e: Event, s: Sleeper)
    requires Inv(k) && Allowed(k, e) && s in k.sleepers
    requires k.at in k.procs && (k.freed != [] ==> k.freed[|k.freed| - 1] < |k.sems|)
    ensures s in Call(k, e).sleepers
  {
    hide WaitInv, SemsOk, SleepersOk, HeapsOk, OneRunning, RingOk, PostLoop, DrainLoop, ExitProcess;
    match e
    case CtrlC(p) => ExitKeepsSems(k, p, KILL_EXIT_CODE);
    case KillPid(p) => if p in k.procs { ExitKeepsSems(k, p, KILL_EXIT_CODE); }
    case Exit(code) => ExitKeepsSems(k, k.at, code);
    case Post(i) => if SemOpen(k, i) { PostLoopFrame(k, i); }
    case Destroy(i) => if SemOpen(k, i) { DrainLoopFrame(k, i); }
    case _ =>
  }

  /** A blocked process other than the one killed stays blocked or stops waiting. */
  lemma CallState(k: Kernel, e: Event, p: Pid)
    requires Inv(k) && Allowed(k, e) && IsIn(k.procs, p, Blocked) && !Kills(e, p)
    requires k.at in k.procs && (k.freed != [] ==> k.freed[|k.freed| - 1] < |k.sems|)
    ensures p in Call(k, e).procs && (Waiting(Call(k, e).procs[p].state) ==> Call(k, e).procs[p].state == Blocked)
  {
    hide WaitInv, SemsOk, SleepersOk, HeapsOk, OneRunning, PostLoop, DrainLoop, ReleaseWaiters;
    match e
    case CtrlC(q) => ExitSettlesOthers(k, q, KILL_EXIT_CODE, p);
    case KillPid(q) => if q in k.procs { ExitSettlesOthers(k, q, KILL_EXIT_CODE, p); }
    case Exit(code) => ExitSettlesOthers(k, k.at, code, p);
    case Post(i) => if SemOpen(k, i) { PostLoopSettles(k, i); }
    case Destroy(i) => if SemOpen(k, i) { DrainLoopSettles(k, i); }
    case _ =>
  }

  lemma ExitSettlesOthers(k: Kernel, q: Pid, code: int, p: Pid)
    requires q in k.procs && p in k.procs && p != q && k.procs[p].state == Blocked
    ensures var r := ExitProcess(k, q, code);
            p in r.procs && (Waiting(r.procs[p].state) ==> r.procs[p].state == Blocked)
  {
    ReleaseFrame(SetState(k, q, Exited), Waiters(k.procs[q].waitingForMe, code));
  }

  lemma {:induction false} PostLoopSettles(k: Kernel, id: nat)
    requires id < |k.sems|
    ensures Settling(k, PostLoop(k, id))
    decreases |k.sems[id].queue|
  {
    hide LetGo;
    if k.sems[id].queue != [] {
      var p := k.sems[id].queue[0];
      LetGoSettles(Dequeue(k, id), p);
      if !IsIn(k.procs, p, Blocked) {
        PostLoopSettles(LetGo(Dequeue(k, id), p), id);
      }
    }
  }

  lemma {:induction false} DrainLoopSettles(k: Kernel, id: nat)
    requires id < |k.sems|
    ensures Settling(k, DrainLoop(k, id))
    decreases |k.sems[id].queue|
  {
    hide LetGo;
    if k.sems[id].queue != [] {
      var p := k.sems[id].queue[0];
      LetGoSettles(Dequeue(k, id), p);
      DrainLoopSettles(LetGo(Dequeue(k, id), p), id);
    }
  }

  lemma SleeperStep(k: Kernel, e: Event, p: Pid, t: nat)
    requires Inv(k) && Allowed(k, e) && SleepsFor(k, p, t) && !Kills(e, p)
    ensures e != Tick ==> SleepsFor(Step(k, e), p, t)
    ensures e == Tick && t > 1 ==> SleepsFor(Step(k, e), p, t - 1)
    ensures e == Tick && t == 1 ==> IsIn(Step(k, e).procs, p, Ready) && p !in Pids(Step(k, e).sleepers)
    ensures t > 0
  {
    hide WaitInv, SemsOk, HeapsOk, OneRunning, Schedule, TickLoop, Call;
    CallKeepsSleeper(k, e, p, t);
    CallKeeps(k, e);
    if e == Tick {
      ScheduleKeeps(k);
      ScheduleKeepsSleeper(k, p, t);
      var k1 := Schedule(k);
      var j :| 0 <= j < |k1.sleepers| && k1.sleepers[j] == Sleeper(p, t);
      TickReaches(k1, 0, j);
    } else {
      ScheduleKeepsSleeper(Call(k, e), p, t);
    }
  }

  // ---------------------------------------------------------------- whole runs

  function Ticks(es: seq<Event>): nat {
    if es == [] then 0 else (if es[0] == Tick then 1 else 0) + Ticks(es[1..])
  }

  ghost predicate Spares(es: seq<Event>, p: Pid) {
    forall i :: 0 <= i < |es| ==> !Kills(es[i], p)
  }

  /** Not earlier: after fewer than t ticks the process is still asleep, with the rest to go. */
  lemma {:induction false} SleepsOn(k: Kernel, es: seq<Event>, p: Pid, t: nat)
    requires Inv(k) && AllowedRun(k, es) && SleepsFor(k, p, t) && Spares(es, p) && Ticks(es) < t
    ensures SleepsFor(Run(k, es), p, t - Ticks(es))
    decreases |es|
  {
    hide Inv, Allowed, Step, SleepsFor, Kills;
    if es != [] {
      var e, rest := es[0], es[1..];
      SleeperStep(k, e, p, t);
      assert forall i :: 0 <= i < |rest| ==> rest[i] == es[i + 1];
      SleepsOn(Step(k, e), rest, p, if e == Tick then t - 1 else t);
    }
  }

  /** Not later: the t-th tick makes it ready and takes it off the sleep list. */
  lemma WakesAtTick(k: Kernel, es: seq<Event>, p: Pid, t: nat)
    requires Inv(k) && AllowedRun(k, es) && SleepsFor(k, p, t) && Spares(es, p) && Ticks(es) == t - 1
    ensures Inv(Run(k, es)) && Allowed(Run(k, es), Tick)
    ensures var k' := Step(Run(k, es), Tick); IsIn(k'.procs, p, Ready) && p !in Pids(k'.sleepers)
  {
    hide Inv, Step, SleepsFor;
    SleepsOn(k, es, p, t);
    SleeperStep(Run(k, es), Tick, p, 1);
  }

  /** sleep puts the running process on the list with all its ticks to go. */
  lemma SleepStarts(k: Kernel, t: nat)
    requires Inv(k) && !k.idle && t > 0
    ensures SleepsFor(Step(k, SleepFor(t)), k.at, t)
  {
    hide WaitInv, SemsOk, HeapsOk, OneRunning, Schedule, SleepersOk;
    CallKeeps(k, SleepFor(t));
    var k1 := Call(k, SleepFor(t));
    assert k1.sleepers[0] == Sleeper(k.at, t);
    ScheduleKeepsSleeper(k1, k.at, t);
  }
}
