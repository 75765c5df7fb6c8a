/** A run after which a second Ctrl-C breaks the queues, step by step. The first process creates
    process 2 and waits for it, which makes 2 the foreground process; the process of the speaker
    waits for a sound; 2 sleeps; Ctrl-C kills it, and it stays in the foreground until its sleep
    lets go of it. */
module KernelCtrlC {
  import opened KernelSpec
  import opened WaitQueues
  import opened KernelSafety
  import opened KernelSteps
  import opened KernelRuns
  import opened KernelExit

  /** Three processes in these states, process 2 with this table. */
  function Three(s0: State, s1: State, two: PCB): map<Pid, PCB> {
    map[0 := FRESH.(state := s0), 1 := FRESH.(state := s1), 2 := two]
  }

  function AfterCreate(): Kernel {
    Kernel(Three(Ready, Ready, FRESH), [0, 1, 2], 0, false, 0, [Semaphore(0, [], false)], [], [], 3)
  }

  function FirstWaits(): Kernel {
    Kernel(Three(Blocked, Running, FRESH.(waitingForMe := [0])), [0, 1, 2], 1, false, 0, [Semaphore(0, [], false)], [], [], 3)
  }

  function SpeakerWaits(): Kernel {
    Kernel(Three(Blocked, Blocked, FRESH.(waitingForMe := [0], state := Running)), [0, 1, 2], 2, false, 0,
           [Semaphore(0, [1], false)], [], [], 3)
  }

  function AllWait(): Kernel {
    Kernel(Three(Blocked, Blocked, FRESH.(waitingForMe := [0], state := Blocked)), [0, 1, 2], 2, true, 0,
           [Semaphore(0, [1], false)], [], [Sleeper(2, 5)], 3)
  }

  /** Process 2 was killed while it slept. */
  function KilledSleeper(): Kernel {
    AllWait().(procs := Three(Blocked, Blocked, FRESH.(waitingForMe := [0], state := WaitingForExit, heapFreed := true)))
  }

  // ---------------------------------------------------------------- what schedule does

  lemma Orders()
    ensures ScanOrder([0, 1, 2], 0) == [1, 2, 0] && ScanOrder([0, 1, 2], 1) == [2, 0, 1] && ScanOrder([0, 1, 2], 2) == [0, 1, 2]
  {
    assert [0, 1, 2][1..] == [1, 2] && [1, 2][1..] == [2];
    assert IndexOf([2], 2) == 0 && IndexOf([1, 2], 2) == 1 && IndexOf([1, 2], 1) == 0;
    assert IndexOf([0, 1, 2], 0) == 0 && IndexOf([0, 1, 2], 1) == 1 && IndexOf([0, 1, 2], 2) == 2;
  }

  lemma {:induction false} KeepAll(s: seq<Pid>)
    ensures Keep(s, {}) == s
  {
    if s != [] { KeepAll(s[1..]); }
  }

  /** The next process in circular order runs if it is ready. */
  lemma RunsNextInOrder(k: Kernel, p: Pid)
    requires k.at in k.ring && ScanOrder(k.ring, k.at)[0] == p && IsIn(k.procs, p, Ready)
    ensures Dispatch(k) == k.(procs := k.procs[p := k.procs[p].(state := Running)], at := p, idle := false,
                              quantum := k.procs[p].priority - 1)
  {
    var order := ScanOrder(k.ring, k.at);
    assert FirstReady(k.procs, order) == 0;
    assert Reaped(k.procs, order, 0) == {} && k.procs - {} == k.procs;
    KeepAll(k.ring);
  }

  /** With nobody ready or exited the kernel idles. */
  lemma IdlesOnly(k: Kernel)
    requires k.at in k.ring && forall p :: !IsIn(k.procs, p, Ready) && !IsIn(k.procs, p, Exited)
    ensures Dispatch(k) == k.(idle := true)
  {
    var order := ScanOrder(k.ring, k.at);
    assert Reaped(k.procs, order, |order| - 1) == {} && k.procs - {} == k.procs;
    KeepAll(k.ring);
  }

  // ---------------------------------------------------------------- the steps

  lemma Created()
    ensures Allowed(Boot([]), Create) && Step(Boot([]), Create) == AfterCreate()
  {
    hide Inv, Dispatch;
    assert Boot([]).sems == [Semaphore(0, [], false)];
  }

  /** The caller of waitPid, and the speaker, blocked and about to switch. */
  function FirstStopped(): Kernel {
    AfterCreate().(procs := Three(Blocked, Ready, FRESH.(waitingForMe := [0])))
  }

  function SpeakerStopped(): Kernel {
    FirstWaits().(procs := Three(Blocked, Blocked, FRESH.(waitingForMe := [0])), sems := [Semaphore(0, [1], false)])
  }

  lemma FirstCall()
    ensures Call(AfterCreate(), WaitFor(2)) == FirstStopped()
  {
    var k := WaitPid(AfterCreate(), 2);
    var table: seq<Pid> := [];
    assert table + [0] == [0] && k.procs[2].waitingForMe == [0];
    assert k.procs == FirstStopped().procs;
  }

  lemma SpeakerCall()
    ensures Call(FirstWaits(), Wait(0)) == SpeakerStopped()
  {
    var k := WaitSemaphore(FirstWaits(), 0);
    var queue: seq<Pid> := [];
    assert queue + [1] == [1] && k.sems[0] == Semaphore(0, [1], false);
    assert k.sems == SpeakerStopped().sems;
    assert k.procs == SpeakerStopped().procs;
  }

  /** A call that blocked its caller ends in a dispatch. */
  lemma EndsInDispatch(k: Kernel, e: Event)
    requires Inv(k) && Allowed(k, e) && (e.WaitFor? || e.Wait? || e.SleepFor?)
    ensures k.at in k.procs && (k.freed != [] ==> k.freed[|k.freed| - 1] < |k.sems|) && Call(k, e).at in Call(k, e).ring
    ensures IsIn(Call(k, e).procs, Call(k, e).at, Blocked) && !Call(k, e).idle ==> Step(k, e) == Dispatch(Call(k, e))
  {
    hide Call, Dispatch, WaitInv, SemsOk, SleepersOk, HeapsOk, OneRunning;
    CallKeeps(k, e);
  }

  lemma FirstStops()
    requires Inv(AfterCreate())
    ensures Step(AfterCreate(), WaitFor(2)) == FirstWaits()
  {
    hide Inv, Dispatch, Call, Step;
    FirstCall();
    EndsInDispatch(AfterCreate(), WaitFor(2));
    Orders();
    RunsNextInOrder(FirstStopped(), 1);
  }

  lemma SpeakerStops()
    requires Inv(FirstWaits())
    ensures Step(FirstWaits(), Wait(0)) == SpeakerWaits()
  {
    hide Inv, Dispatch, Call, Step;
    SpeakerCall();
    EndsInDispatch(FirstWaits(), Wait(0));
    Orders();
    RunsNextInOrder(SpeakerStopped(), 2);
  }

  lemma FallsAsleep()
    requires Inv(SpeakerWaits())
    ensures Step(SpeakerWaits(), SleepFor(5)) == AllWait()
  {
    hide Inv, Dispatch;
    var k := Call(SpeakerWaits(), SleepFor(5));
    assert k.sleepers == [Sleeper(2, 5)];
    IdlesOnly(k);
  }

  lemma IsKilled()
    requires Inv(AllWait())
    ensures Allowed(AllWait(), CtrlC(2)) && Step(AllWait(), CtrlC(2)) == KilledSleeper()
  {
    hide Inv, Dispatch;
    IdlesOnly(Call(AllWait(), CtrlC(2)));
  }

  /** The run that leads there. */
  lemma RunKillsSleeper()
    ensures var es := [Create, WaitFor(2), Wait(0), SleepFor(5), CtrlC(2)];
            AllowedRun(Boot([]), es) && Run(Boot([]), es) == KilledSleeper() && Inv(KilledSleeper())
  {
    hide Inv, Step, Boot;
    Created();
    FirstStops();
    SpeakerStops();
    FallsAsleep();
    IsKilled();
    var e4 := [CtrlC(2)];
    var e3, e2 := [SleepFor(5)] + e4, [Wait(0), SleepFor(5)] + e4;
    var e1 := [WaitFor(2)] + e2;
    var es := [Create] + e1;
    assert e4[1..] == [] && e3[1..] == e4 && e2[1..] == e3 && e1[1..] == e2 && es[1..] == e1;
    assert es == [Create, WaitFor(2), Wait(0), SleepFor(5), CtrlC(2)];
    assert AllowedRun(AllWait(), e4) && Run(AllWait(), e4) == KilledSleeper();
    assert AllowedRun(SpeakerWaits(), e3) && Run(SpeakerWaits(), e3) == KilledSleeper();
    assert AllowedRun(FirstWaits(), e2) && Run(FirstWaits(), e2) == KilledSleeper();
    assert AllowedRun(AfterCreate(), e1) && Run(AfterCreate(), e1) == KilledSleeper();
  }

  lemma ExitsWhileListed(k: Kernel, p: Pid, code: int)
    requires IsIn(k.procs, p, WaitingForExit) && p in Queue(k, [], Asleep)
    ensures var k' := ExitProcess(k, p, code);
            !WaitInv(k', []) && p in Queue(k', [], Asleep) && IsIn(k'.procs, p, Exited)
  {
    hide OnePlace, ReleaseWaiters;
    ReleaseFrame(SetState(k, p, Exited), Waiters(k.procs[p].waitingForMe, code));
    var k' := ExitProcess(k, p, code);
    assert Queue(k', [], Asleep) == Queue(k, [], Asleep);
    assert Queued(k', [], p) && !Waits(k', p);
  }

  /** A second Ctrl-C on the killed sleeper leaves the sleep list pointing to an exited process,
      which schedule may free. */
  lemma CtrlCBreaksQueues()
    ensures Inv(KilledSleeper())
    ensures var k' := ExitProcess(KilledSleeper(), 2, KILL_EXIT_CODE);
            !WaitInv(k', []) && 2 in Queue(k', [], Asleep) && IsIn(k'.procs, 2, Exited)
  {
    hide Inv, OnePlace, ReleaseWaiters, ExitProcess;
    RunKillsSleeper();
    assert Queue(KilledSleeper(), [], Asleep) == [2];
    ExitsWhileListed(KilledSleeper(), 2, KILL_EXIT_CODE);
  }
}
