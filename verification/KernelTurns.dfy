/** How long a turn lasts: a dispatched process keeps the processor for as many ticks as its
    priority, unless it stops or switches itself. */
module KernelTurns {
  import opened Common
  import opened KernelSpec
  import opened WaitQueues
  import opened KernelSafety
  import opened KernelSteps
  import opened KernelRuns
  import opened KernelTimer
  import opened KernelFairness

  /** The event neither switches by itself nor stops the current process. */
  predicate GoesOn(k: Kernel, e: Event)
    requires k.at in k.procs && (k.freed != [] ==> k.freed[|k.freed| - 1] < |k.sems|)
  {
    e == Tick || (!Switches(e) && CurrentIsRunning(Call(k, e)))
  }

  ghost predicate AllGoOn(k: Kernel, es: seq<Event>)
    requires Inv(k) && AllowedRun(k, es)
    decreases |es|
  {
    es == [] || (SemInitReady(k); GoesOn(k, es[0]) && AllGoOn(Step(k, es[0]), es[1..]))
  }

  /** The countdown of the sleepers leaves the running process and its turn alone. */
  lemma TickLeavesCurrent(k: Kernel)
    requires Inv(k) && CurrentIsRunning(k)
    ensures var r := TickLoop(k, 0); r.at == k.at && !r.idle && r.quantum == k.quantum && r.ring == k.ring && r.procs.Keys == k.procs.Keys
    ensures CurrentIsRunning(TickLoop(k, 0)) && TickLoop(k, 0).procs[k.at].priority == k.procs[k.at].priority
  {
    hide WaitInv, SemsOk, SleepersOk, HeapsOk, OneRunning, TickLoop;
    TickLoopFrame(k, 0);
    TickLoopSettles(k, 0);
    TickLoopRing(k, 0);
  }

  /** One event inside a turn: the process keeps running; only a tick uses up the turn. */
  lemma TurnStep(k: Kernel, e: Event)
    requires Inv(k) && Allowed(k, e) && CurrentIsRunning(k) && (e == Tick ==> k.quantum > 0)
    requires k.at in k.procs && (k.freed != [] ==> k.freed[|k.freed| - 1] < |k.sems|) && GoesOn(k, e)
    ensures var k' := Step(k, e);
            CurrentIsRunning(k') && k'.at == k.at && k'.quantum == k.quantum - if e == Tick then 1 else 0
  {
    hide WaitInv, SemsOk, SleepersOk, HeapsOk, OneRunning, TickLoop, Call, Dispatch;
    if e == Tick {
      ScheduleKeeps(k);
      TickLeavesCurrent(Schedule(k));
    } else {
      CallKeeps(k, e);
      CallTurn(k, e);
    }
  }

  lemma CallTurn(k: Kernel, e: Event)
    requires Inv(k) && Allowed(k, e)
    requires k.at in k.procs && (k.freed != [] ==> k.freed[|k.freed| - 1] < |k.sems|)
    ensures Call(k, e).at == k.at && Call(k, e).idle == k.idle && Call(k, e).quantum == k.quantum
  {
    hide Inv, Call;
    if e == Create { CreateTurn(k); } else { CallRing(k, e, q => 0); }
  }

  lemma CreateTurn(k: Kernel)
    requires k.at in k.procs && (k.freed != [] ==> k.freed[|k.freed| - 1] < |k.sems|)
    ensures Call(k, Create).at == k.at && Call(k, Create).idle == k.idle && Call(k, Create).quantum == k.quantum
  {
  }

  /** A turn lasts: as long as the process does not stop or switch, it stays current, and every tick
      uses up exactly one of the ticks it has left. */
  lemma {:induction false} TurnLasts(k: Kernel, es: seq<Event>)
    requires Inv(k) && AllowedRun(k, es) && AllGoOn(k, es) && CurrentIsRunning(k) && Ticks(es) <= k.quantum
    ensures var r := Run(k, es); CurrentIsRunning(r) && r.at == k.at && r.quantum == k.quantum - Ticks(es)
    decreases |es|
  {
    hide Inv, Allowed, Step, GoesOn, CurrentIsRunning, Call;
    if es != [] {
      SemInitIsReady(k);
      TurnStep(k, es[0]);
      TurnLasts(Step(k, es[0]), es[1..]);
    }
  }

  lemma SemInitIsReady(k: Kernel)
    requires Inv(k)
    ensures k.at in k.procs && (k.freed != [] ==> k.freed[|k.freed| - 1] < |k.sems|)
  {
    SemInitReady(k);
  }

  /** A turn of nothing but ticks needs no conditions. */
  lemma {:induction false} TicksAllowed(k: Kernel, t: nat)
    requires Inv(k)
    ensures AllowedRun(k, Times(t, Tick)) && Ticks(Times(t, Tick)) == t && AllGoOn(k, Times(t, Tick))
    decreases t
  {
    hide Inv, Step;
    if t > 0 {
      SemInitIsReady(k);
      assert Times(t, Tick)[1..] == Times(t - 1, Tick);
      TicksAllowed(Step(k, Tick), t - 1);
    }
  }

  /** The turn is over: the next tick gives the processor to another ready process if there is one,
      and else a new turn to the same. */
  lemma TurnEnds(k: Kernel)
    requires Inv(k) && CurrentIsRunning(k) && k.quantum <= 0
    ensures var k' := Step(k, Tick);
            && CurrentIsRunning(k') && k'.quantum == k'.procs[k'.at].priority - 1
            && (k'.at != k.at ==> IsIn(k.procs, k'.at, Ready) && IsIn(k'.procs, k.at, Ready))
            && (k'.at == k.at <==> forall q :: !IsIn(k.procs, q, Ready))
  {
    hide WaitInv, SemsOk, SleepersOk, HeapsOk, OneRunning, TickLoop, Schedule, Between;
    var s := Schedule(k);
    ScheduleKeeps(k);
    SchedulePicks(k, k.at);
    var k1 := Preempted(k);
    assert IsIn(k1.procs, k.at, Ready) && !s.idle;
    forall q | q != k.at
      ensures IsIn(k1.procs, q, Ready) == IsIn(k.procs, q, Ready)
    {
    }
    if s.at == k.at {
      forall q
        ensures !IsIn(k.procs, q, Ready)
      {
        SchedulePicks(k, q);
        if q != k.at { NoneBehindItself(k.at, q); }
      }
    }
    assert IsIn(s.procs, s.at, Running);
    PickedPriority(k);
    TickLeavesCurrent(s);
    if s.at != k.at {
      assert IsIn(s.procs, k.at, Ready);
      TickLoopReady(s, k.at);
    }
  }

  /** Nothing lies between a process and itself but all the others. */
  lemma NoneBehindItself(at: Pid, q: Pid)
    requires q != at
    ensures !Between(at, at, q)
  {
  }

  lemma TickLoopReady(k: Kernel, p: Pid)
    requires Inv(k) && IsIn(k.procs, p, Ready)
    ensures IsIn(TickLoop(k, 0).procs, p, Ready)
  {
    hide WaitInv, TickLoop;
    TickLoopSettles(k, 0);
  }

  /** Whenever an event puts another process on the processor, that one has a whole turn ahead: as
      many ticks as its priority, the one that ends the turn included. */
  lemma TurnStarts(k: Kernel, e: Event)
    requires Inv(k) && Allowed(k, e) && !Step(k, e).idle && (k.idle || Step(k, e).at != k.at)
    ensures var k' := Step(k, e); CurrentIsRunning(k') && k'.quantum == k'.procs[k'.at].priority - 1
  {
    hide WaitInv, SemsOk, SleepersOk, HeapsOk, OneRunning, TickLoop, Schedule, Call, Between;
    CallKeeps(k, e);
    SemInitIsReady(k);
    CallTurn(k, e);
    var c := if e == Tick then k else Call(k, e);
    ScheduleKeeps(c);
    var s := Schedule(c);
    SpendsOrLooks(c);
    if Looks(c) { SchedulePicks(c, s.at); PickedPriority(c); }
    if e == Tick { TickAfter(s); }
  }

  lemma SpendsOrLooks(k: Kernel)
    requires k.at in k.ring
    ensures !Looks(k) ==> Schedule(k).at == k.at && Schedule(k).idle == k.idle && !k.idle
  {
  }

  lemma PickedPriority(k: Kernel)
    requires RingOk(k) && Looks(k)
    ensures var s := Schedule(k); !s.idle ==> s.at in s.procs && s.at in Preempted(k).procs && s.procs[s.at].priority == Preempted(k).procs[s.at].priority
  {
    hide ScanOrder, FirstReady, Keep, Reaped;
  }

  lemma TickAfter(s: Kernel)
    requires Inv(s)
    ensures s.idle ==> TickLoop(s, 0).idle
    ensures TickLoop(s, 0).at == s.at && TickLoop(s, 0).idle == s.idle
    ensures CurrentIsRunning(s) ==> CurrentIsRunning(TickLoop(s, 0)) && TickLoop(s, 0).quantum == s.quantum
                                    && TickLoop(s, 0).procs[s.at].priority == s.procs[s.at].priority
  {
    hide WaitInv, SemsOk, SleepersOk, HeapsOk, OneRunning, TickLoop;
    TickLoopFrame(s, 0);
    if CurrentIsRunning(s) { TickLeavesCurrent(s); }
  }

  /** A whole turn. p has just been dispatched, with priority n: after t < n ticks it is still
      current, with n - 1 - t to go, and the n-th tick passes on. */
  lemma WholeTurn(k: Kernel, t: nat)
    requires Inv(k) && CurrentIsRunning(k) && k.quantum == k.procs[k.at].priority - 1
    ensures var n := k.procs[k.at].priority;
            && AllowedRun(k, Times(t, Tick))
            && (t < n ==> var r := Run(k, Times(t, Tick)); CurrentIsRunning(r) && r.at == k.at && r.quantum == n - 1 - t)
            && (t == n ==>
                  && AllowedRun(k, Times(n - 1, Tick))
                  && var last, r := Run(k, Times(n - 1, Tick)), Run(k, Times(n, Tick));
                     r.at == k.at <==> forall q :: !IsIn(last.procs, q, Ready))
  {
    hide Inv, Step;
    var n := k.procs[k.at].priority;
    TicksAllowed(k, t);
    if t < n {
      TurnLasts(k, Times(t, Tick));
    } else if t == n {
      PriorityPositive(k);
      TicksAllowed(k, n - 1);
      TurnLasts(k, Times(n - 1, Tick));
      LastTick(k, n - 1);
      TurnEnds(Run(k, Times(n - 1, Tick)));
    }
  }

  lemma PriorityPositive(k: Kernel)
    requires Inv(k) && CurrentIsRunning(k)
    ensures k.procs[k.at].priority >= 1
  {
  }

  lemma {:induction false} LastTick(k: Kernel, t: nat)
    requires Inv(k)
    ensures AllowedRun(k, Times(t, Tick)) && AllowedRun(k, Times(t + 1, Tick))
    ensures Run(k, Times(t + 1, Tick)) == Step(Run(k, Times(t, Tick)), Tick)
    decreases t
  {
    hide Inv, Step;
    TicksAllowed(k, t);
    TicksAllowed(k, t + 1);
    if t == 0 {
      assert Times(1, Tick)[1..] == [];
    } else {
      LastTick(Step(k, Tick), t - 1);
      assert Times(t + 1, Tick)[1..] == Times(t, Tick) && Times(t, Tick)[1..] == Times(t - 1, Tick);
    }
  }
}
