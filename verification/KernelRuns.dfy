/** Whole runs of the kernel: any sequence of ticks, keys and kernel calls. */
module KernelRuns {
  import opened Common
  import opened KernelSpec
  import opened WaitQueues
  import opened KernelSafety
  import opened KernelSteps

  /** What can happen next: a timer tick, a key (a Ctrl-C for process `pid`, the F2 key that only
      switches, or a post to the semaphore of the standard input), or a kernel call of the running
      process. */
  datatype Event =
    | Tick
    | CtrlC(pid: Pid)
    | SwitchKey
    | Wait(id: int)
    | Post(id: int)
    | Destroy(id: int)
    | Init(value: nat)
    | SleepFor(ticks: nat)
    | WaitFor(pid: Pid)
    | KillPid(pid: Pid)
    | Exit(code: int)
    | Block(pid: Pid)
    | UnblockPid(pid: Pid)
    | Yield
    | Create
    | Priority(pid: Pid, priority: int)

  /** The idle process makes no kernel calls, but keys arrive while it runs; a process waited for
      has room in its table; and Ctrl-C does not hit a process that was already killed while it was
      blocked. */
  predicate Allowed(k: Kernel, e: Event) {
    match e
    case Tick => true
    case Post(_) => true
    case SwitchKey => true
    case CtrlC(p) => p in k.procs && k.procs[p].state != WaitingForExit
    case WaitFor(p) => !k.idle && (p in k.procs ==> |k.procs[p].waitingForMe| < MAX_WAITERS)
    case _ => !k.idle
  }

  /** A call that stopped the current process ends in a context switch. */
  function Settle(k: Kernel): Kernel
    requires k.at in k.ring
  {
    if k.idle || CurrentRuns(k) then k else Schedule(k)
  }

  /** The effect of a kernel call before its context switch. */
  function Call(k: Kernel, e: Event): Kernel
    requires k.at in k.procs && (k.freed != [] ==> k.freed[|k.freed| - 1] < |k.sems|)
  {
    match e
    case Tick => k
    case SwitchKey => k
    case CtrlC(p) => if p in k.procs && p != 0 then ExitProcess(k, p, KILL_EXIT_CODE) else k
    case Wait(id) => WaitSemaphore(k, id)
    case Post(id) => PostSemaphore(k, id)
    case Destroy(id) => DestroySemaphore(k, id)
    case Init(value) => SemInit(k, value).0
    case SleepFor(ticks) => Sleep(k, ticks)
    case WaitFor(p) => WaitPid(k, p)
    case KillPid(p) => Kill(k, p)
    case Exit(code) => ExitProcess(k, k.at, code)
    case Block(p) => BlockByUser(k, p)
    case UnblockPid(p) => Unblock(k, p)
    case Yield => SetState(k, k.at, Ready)
    case Create => CreateProcess(k)
    case Priority(p, n) => ChangePriority(k, p, n)
  }

  lemma CallKeeps(k: Kernel, e: Event)
    requires Inv(k) && Allowed(k, e)
    ensures k.at in k.procs && (k.freed != [] ==> k.freed[|k.freed| - 1] < |k.sems|)
    ensures Steady(Call(k, e))
  {
    hide Steady;
    SemInitReady(k);
    match e
    case Tick =>
    case SwitchKey =>
    case CtrlC(p) => ExitKeepsSteady(k, p, KILL_EXIT_CODE);
    case Wait(id) => WaitSemaphoreKeeps(k, id);
    case Post(id) => PostSemaphoreKeeps(k, id);
    case Destroy(id) => DestroySemaphoreKeeps(k, id);
    case Init(value) => SemInitKeeps(k, value);
    case SleepFor(ticks) => SleepKeeps(k, ticks);
    case WaitFor(p) => WaitPidKeeps(k, p);
    case KillPid(p) => KillKeeps(k, p);
    case Exit(code) => ExitKeepsSteady(k, k.at, code);
    case Block(p) => BlockByUserKeeps(k, p);
    case UnblockPid(p) => UnblockKeeps(k, p);
    case Yield => YieldKeeps(k);
    case Create => CreateProcessKeeps(k);
    case Priority(p, n) => ChangePriorityKeeps(k, p, n);
  }

  lemma SemInitReady(k: Kernel)
    requires Steady(k)
    ensures k.at in k.procs && (k.freed != [] ==> k.freed[|k.freed| - 1] < |k.sems|)
  {
    if k.freed != [] {
      var last := k.freed[|k.freed| - 1];
      assert last in k.freed;
    }
  }

  /** The calls that end in a context switch whatever they did. */
  predicate Switches(e: Event) {
    e == Yield || e == SwitchKey || (e.CtrlC? && e.pid != 0)
  }

  /** One event, context switch included: a tick schedules and then counts down the sleepers. */
  ghost function Step(k: Kernel, e: Event): (k': Kernel)
    requires Inv(k) && Allowed(k, e)
    ensures Inv(k')
  {
    hide WaitInv, SemsOk, SleepersOk, HeapsOk, OneRunning, Call, Schedule, TickLoop;
    CallKeeps(k, e);
    var called := Call(k, e);
    ScheduleKeeps(called);
    ScheduleKeeps(k);
    if e == Tick then
      IncTicksKeeps(Schedule(k));
      TickLoop(Schedule(k), 0)
    else if Switches(e) then Schedule(called)
    else Settle(called)
  }

  ghost predicate AllowedRun(k: Kernel, es: seq<Event>)
    requires Inv(k)
    decreases |es|
  {
    es == [] || (Allowed(k, es[0]) && AllowedRun(Step(k, es[0]), es[1..]))
  }

  /** The state after a run; every run keeps the invariant. */
  ghost function Run(k: Kernel, es: seq<Event>): (k': Kernel)
    requires Inv(k) && AllowedRun(k, es)
    ensures Inv(k')
    decreases |es|
  {
    if es == [] then k else Run(Step(k, es[0]), es[1..])
  }

  const FRESH := PCB(Ready, 1, [], 0, false)

  /** Semaphores with these values, as the pipes and other parts of the kernel create them. */
  function Semaphores(values: seq<nat>): (sems: seq<Semaphore>)
    ensures |sems| == |values| && forall i :: 0 <= i < |sems| ==> sems[i] == Semaphore(values[i], [], false)
  {
    seq(|values|, i requires 0 <= i < |values| => Semaphore(values[i], [], false))
  }

  /** The kernel when the first process starts: beside it there is the process of the speaker, which
      has a semaphore of its own; `values` are those of the semaphores created before. */
  function Boot(values: seq<nat>): (k: Kernel)
    ensures Inv(k)
  {
    var k := Kernel(map[0 := FRESH, 1 := FRESH], [0, 1], 0, false, 0, Semaphores(values + [0]), [], [], 2);
    BootInv(k);
    k
  }

  /** Fresh processes and semaphores satisfy the invariant. */
  lemma BootInv(k: Kernel)
    requires RingOk(k) && !k.idle && (forall p :: p in k.procs ==> k.procs[p] == FRESH)
    requires k.freed == [] && k.sleepers == [] && forall i :: 0 <= i < |k.sems| ==> k.sems[i].queue == [] && !k.sems[i].destroyed
    ensures Inv(k)
  {
    forall p
      ensures !Queued(k, [], p) && !Waits(k, p)
    {
    }
  }

  // ---------------------------------------------------------------- wait-queue safety

  /** Wait-queue safety in every state a run can reach: a process is blocked or waiting to exit
      exactly when some queue holds it, and then one queue does, once. */
  lemma WaitQueueSafety(values: seq<nat>, es: seq<Event>, p: Pid)
    requires AllowedRun(Boot(values), es)
    ensures var k := Run(Boot(values), es);
            && (Waits(k, p) <==> exists l :: p in Queue(k, [], l))
            && (forall l, m :: p in Queue(k, [], l) && p in Queue(k, [], m) ==> l == m)
            && (forall l :: NoDuplicates(Queue(k, [], l)))
  {
    hide Step, Boot;
    var k := Run(Boot(values), es);
    assert WaitInv(k, []);
    assert Queued(k, [], p) <==> Waits(k, p);
  }

  /** The scheduler never frees a process that a semaphore, the sleep list or a waiting table
      still points to, also in the switch that ends a call which has just queued its caller. */
  lemma ReferencesSurvive(k: Kernel, l: Place, p: Pid)
    requires Steady(k) && p in Queue(k, [], l)
    ensures p in Schedule(k).procs && p in Queue(Schedule(k), [], l)
    ensures p in Schedule(k).ring
  {
    hide Schedule, Queue, Waiting, SemsOk, SleepersOk, HeapsOk, OneRunning, OnePlace;
    ScheduleKeeps(k);
    ScheduleQueues(k, l);
    var k' := Schedule(k);
    assert WaitInv(k', []) && RingOk(k');
    assert Queued(k', [], p);
    assert Waits(k', p);
  }

  /** Whoever a queue holds is not the running process, so letting a queue's process go never asks
      for a context switch; and a lock that is only held meanwhile is never found taken. */
  lemma QueuedIsNotCurrent(k: Kernel, l: Place, p: Pid)
    requires Inv(k) && !k.idle && p in Queue(k, [], l)
    ensures p != k.at
  {
    hide Queue;
    assert Queued(k, [], p);
  }

  lemma ScheduleQueues(k: Kernel, l: Place)
    requires RingOk(k)
    ensures Queue(Schedule(k), [], l) == Queue(k, [], l)
  {
    hide Dispatch;
    DispatchQueues(Preempted(k), l);
  }

  lemma DispatchQueues(k: Kernel, l: Place)
    requires k.at in k.ring
    ensures Queue(Dispatch(k), [], l) == Queue(k, [], l)
  {
  }
}
