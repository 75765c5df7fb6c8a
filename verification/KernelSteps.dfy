/** Every kernel call, and the scheduler, keep the kernel invariant. */
module KernelSteps {
  import opened KernelSpec
  import opened WaitQueues
  import opened KernelSafety

  // ---------------------------------------------------------------- the scheduler

  lemma {:induction false} KeepMembers(s: seq<Pid>, dead: set<Pid>)
    ensures forall p :: p in Keep(s, dead) <==> p in s && p !in dead
    decreases |s|
  {
    if s != [] {
      KeepMembers(s[1..], dead);
      assert forall p :: p in s <==> p == s[0] || p in s[1..];
    }
  }

  ghost predicate Ascending(s: seq<Pid>) {
    forall i, j :: 0 <= i < j < |s| ==> s[i] < s[j]
  }

  lemma {:induction false} KeepAscending(s: seq<Pid>, dead: set<Pid>)
    requires Ascending(s)
    ensures Ascending(Keep(s, dead))
    decreases |s|
  {
    if s != [] {
      var rest := Keep(s[1..], dead);
      KeepAscending(s[1..], dead);
      KeepMembers(s[1..], dead);
      forall i | 0 <= i < |rest|
        ensures s[0] < rest[i]
      {
        var p := rest[i];
        assert p in rest;
        assert p in s[1..];
      }
    }
  }

  /** The scan visits every process of the ring once, `at` last. */
  lemma ScanVisitsAll(ring: seq<Pid>, at: Pid)
    requires at in ring && Ascending(ring)
    ensures forall p :: p in ScanOrder(ring, at) <==> p in ring
    ensures var order := ScanOrder(ring, at); at !in order[..|order| - 1]
  {
    var i := IndexOf(ring, at);
    var order := ScanOrder(ring, at);
    assert ring == ring[..i + 1] + ring[i + 1..];
    assert order[..|order| - 1] == ring[i + 1..] + ring[..i];
    forall j | 0 <= j < |ring| && j != i
      ensures ring[j] != at
    {
    }
  }

  /** Reaping: only exited processes leave, the ring stays sorted, and since an exited process is
      in no queue and holds no queue that counts, no reference is left behind. */
  lemma ReapKeeps(k: Kernel, dead: set<Pid>)
    requires Steady(k) && (forall p :: p in dead ==> IsIn(k.procs, p, Exited)) && k.at !in dead
    ensures Steady(k.(procs := k.procs - dead, ring := Keep(k.ring, dead)))
  {
    hide WaitInv;
    var k' := k.(procs := k.procs - dead, ring := Keep(k.ring, dead));
    KeepMembers(k.ring, dead);
    KeepAscending(k.ring, dead);
    SameQueues(k, k', []);
  }

  lemma DispatchKeeps(k: Kernel)
    requires Steady(k) && !CurrentIsRunning(k)
    ensures Inv(Dispatch(k))
  {
    hide WaitInv, SemsOk, SleepersOk, ScanOrder, Keep, FirstReady;
    var order := ScanOrder(k.ring, k.at);
    var j := FirstReady(k.procs, order);
    ScanVisitsAll(k.ring, k.at);
    if j < |order| {
      var dead := Reaped(k.procs, order, j);
      var p := order[j];
      assert p in order;
      AtNotReaped(k, j);
      ReapKeeps(k, dead);
      RunsNext(k.(procs := k.procs - dead, ring := Keep(k.ring, dead)), p, k.procs[p].priority - 1);
    } else {
      var dead := Reaped(k.procs, order, |order| - 1);
      AtNotReaped(k, |order| - 1);
      ReapKeeps(k, dead);
      GoesIdle(k.(procs := k.procs - dead, ring := Keep(k.ring, dead)));
    }
  }

  lemma GoesIdle(k: Kernel)
    requires Steady(k) && !CurrentIsRunning(k)
    ensures Inv(k.(idle := true))
  {
    hide WaitInv;
    SameQueues(k, k.(idle := true), []);
  }

  /** The process that called schedule is never reaped: its stack is still in use. */
  lemma AtNotReaped(k: Kernel, j: nat)
    requires RingOk(k) && j < |ScanOrder(k.ring, k.at)|
    ensures k.at !in Reaped(k.procs, ScanOrder(k.ring, k.at), j)
  {
    var order := ScanOrder(k.ring, k.at);
    var last: nat := |order| - 1;
    ScanVisitsAll(k.ring, k.at);
    if k.at in order[..j] {
      SubSlice(order, j, last, k.at);
    }
  }

  lemma SubSlice(s: seq<Pid>, i: nat, j: nat, p: Pid)
    requires i <= j <= |s| && p in s[..i]
    ensures p in s[..j]
  {
    assert s[..i] <= s[..j];
    var n :| 0 <= n < i && s[..i][n] == p;
    assert s[..j][n] == p;
  }

  /** Making a ready process the running one. */
  lemma RunsNext(k: Kernel, p: Pid, quantum: int)
    requires Steady(k) && !CurrentIsRunning(k) && IsIn(k.procs, p, Ready)
    ensures Inv(k.(procs := k.procs[p := k.procs[p].(state := Running)], at := p, idle := false, quantum := quantum))
  {
    hide WaitInv;
    SameQueues(k, k.(procs := k.procs[p := k.procs[p].(state := Running)], at := p, idle := false, quantum := quantum), []);
  }

  /** schedule ends every kernel call in a state where user code may run again. */
  lemma ScheduleKeeps(k: Kernel)
    requires Steady(k)
    ensures Inv(Schedule(k))
  {
    hide WaitInv;
    if k.quantum > 0 && CurrentIsRunning(k) {
      SameQueues(k, Schedule(k), []);
    } else if CurrentIsRunning(k) {
      var k1 := SetState(k, k.at, Ready);
      SameQueues(k, k1, []);
      DispatchKeeps(k1);
    } else {
      DispatchKeeps(k);
    }
  }

  // ---------------------------------------------------------------- kernel calls

  /** A call that changed only states and exit codes, or only one list beside them. */
  lemma FrameKeeps(k: Kernel, k': Kernel)
    requires Steady(k) && WaitInv(k', []) && SemsOk(k') && SleepersOk(k')
    requires SameFrame(k, k'.(sems := k.sems, freed := k.freed, sleepers := k.sleepers))
    ensures Steady(k')
  {
    hide WaitInv;
  }

  /** The current process, blocked at the end of queue l or in front of it. */
  lemma BlockKeeps(k: Kernel, k': Kernel, l: Place)
    requires Steady(k) && CurrentRuns(k) && l != InHand
    requires Queue(k', [], l) == Queue(k, [], l) + [k.at] || Queue(k', [], l) == [k.at] + Queue(k, [], l)
    requires forall m :: m != l ==> Queue(k', [], m) == Queue(k, [], m)
    requires k'.procs.Keys == k.procs.Keys && k'.procs[k.at].state == Blocked
    requires forall p :: p in k.procs && p != k.at ==> k'.procs[p].state == k.procs[p].state
    ensures WaitInv(k', [])
  {
    hide WaitInv;
    var queue := Queue(k, [], l);
    if Queue(k', [], l) == queue + [k.at] {
      assert queue[..|queue|] + [k.at] + queue[|queue|..] == queue + [k.at];
      EntersQueue(k, k', k.at, l, |queue|);
    } else {
      assert queue[..0] + [k.at] + queue[0..] == [k.at] + queue;
      EntersQueue(k, k', k.at, l, 0);
    }
  }

  lemma WaitSemaphoreKeeps(k: Kernel, id: int)
    requires Inv(k) && !k.idle
    ensures Steady(WaitSemaphore(k, id))
  {
    hide WaitInv;
    var k' := WaitSemaphore(k, id);
    if SemOpen(k, id) {
      if k.sems[id].value > 0 {
        SameQueues(k, k', []);
      } else {
        BlockKeeps(k, k', OnSem(id));
      }
    }
  }

  lemma PostSemaphoreKeeps(k: Kernel, id: int)
    requires Steady(k)
    ensures Steady(PostSemaphore(k, id))
  {
    hide WaitInv, PostLoop;
    if SemOpen(k, id) {
      PostLoopKeeps(k, id);
      PostLoopFrame(k, id);
      FrameKeeps(k, PostLoop(k, id));
    }
  }

  lemma {:induction false} PostLoopFrame(k: Kernel, id: nat)
    requires id < |k.sems|
    ensures var r := PostLoop(k, id);
            r.freed == k.freed && r.sleepers == k.sleepers && r.ring == k.ring && r.at == k.at && r.idle == k.idle
            && r.nextPid == k.nextPid && r.quantum == k.quantum
            && (forall i :: 0 <= i < |k.sems| && i != id ==> r.sems[i] == k.sems[i])
            && r.sems[id].destroyed == k.sems[id].destroyed
    decreases |k.sems[id].queue|
  {
    if k.sems[id].queue != [] {
      var p := k.sems[id].queue[0];
      LetGoFrame(Dequeue(k, id), p);
      if !IsIn(k.procs, p, Blocked) {
        PostLoopFrame(LetGo(Dequeue(k, id), p), id);
      }
    }
  }

  lemma DestroySemaphoreKeeps(k: Kernel, id: int)
    requires Steady(k)
    ensures Steady(DestroySemaphore(k, id))
  {
    hide WaitInv, DrainLoop;
    if SemOpen(k, id) {
      DrainLoopKeeps(k, id);
      DrainLoopFrame(k, id);
      var d := DrainLoop(k, id);
      var k' := DestroySemaphore(k, id);
      SameQueues(d, k', []);
      FrameKeeps(k, k');
    }
  }

  lemma {:induction false} DrainLoopFrame(k: Kernel, id: nat)
    requires id < |k.sems|
    ensures var r := DrainLoop(k, id);
            r.freed == k.freed && r.sleepers == k.sleepers && r.ring == k.ring && r.at == k.at && r.idle == k.idle
            && r.nextPid == k.nextPid && r.quantum == k.quantum
            && (forall i :: 0 <= i < |k.sems| && i != id ==> r.sems[i] == k.sems[i])
    decreases |k.sems[id].queue|
  {
    if k.sems[id].queue != [] {
      var p := k.sems[id].queue[0];
      LetGoFrame(Dequeue(k, id), p);
      DrainLoopFrame(LetGo(Dequeue(k, id), p), id);
    }
  }

  lemma SemInitKeeps(k: Kernel, value: nat)
    requires Steady(k)
    ensures k.freed != [] ==> k.freed[|k.freed| - 1] < |k.sems|
    ensures Steady(SemInit(k, value).0)
    ensures SemInit(k, value).1 < |SemInit(k, value).0.sems|
    ensures SemInit(k, value).1 < |k.sems| ==> k.sems[SemInit(k, value).1].destroyed
  {
    hide WaitInv;
    if k.freed != [] {
      var last := k.freed[|k.freed| - 1];
      assert last in k.freed;
      var rest := k.freed[..|k.freed| - 1];
      assert k.freed == rest + [last];
      assert last !in rest;
      assert forall i :: i in k.freed <==> i == last || i in rest;
    }
    SameQueues(k, SemInit(k, value).0, []);
  }

  lemma SleepKeeps(k: Kernel, ticks: nat)
    requires Inv(k) && !k.idle
    ensures Steady(Sleep(k, ticks))
  {
    hide WaitInv;
    var k' := Sleep(k, ticks);
    if ticks > 0 {
      assert Pids(k'.sleepers) == [k.at] + Pids(k.sleepers);
      BlockKeeps(k, k', Asleep);
    }
  }

  lemma IncTicksKeeps(k: Kernel)
    requires Inv(k)
    ensures Inv(TickLoop(k, 0))
  {
    hide WaitInv, TickLoop;
    TickLoopKeeps(k, 0);
    TickLoopFrame(k, 0);
    FrameKeeps(k, TickLoop(k, 0));
  }

  lemma {:induction false} TickLoopFrame(k: Kernel, i: nat)
    requires i <= |k.sleepers|
    ensures var r := TickLoop(k, i);
            r.sems == k.sems && r.freed == k.freed && r.at == k.at && r.idle == k.idle && (CurrentRuns(k) ==> CurrentRuns(r))
    decreases |k.sleepers| - i
  {
    if i < |k.sleepers| {
      var s := k.sleepers[i];
      if IsIn(k.procs, s.pid, Blocked) && s.ticks > 1 {
        TickLoopFrame(k.(sleepers := k.sleepers[i := s.(ticks := s.ticks - 1)]), i + 1);
      } else {
        LetGoFrame(k, s.pid);
        LetGoRunning(k, s.pid);
        TickLoopFrame(AwakenAt(k, i), i);
      }
    }
  }

  lemma LetGoRunning(k: Kernel, p: Pid)
    ensures CurrentRuns(k) ==> CurrentRuns(LetGo(k, p))
  {
    if IsIn(k.procs, p, WaitingForExit) {
      ReleaseFrame(SetState(k, p, Exited), Waiters(k.procs[p].waitingForMe, KILL_EXIT_CODE));
    }
  }

  lemma WaitPidKeeps(k: Kernel, p: Pid)
    requires Inv(k) && !k.idle
    ensures Steady(WaitPid(k, p))
  {
    hide WaitInv;
    var k' := WaitPid(k, p);
    if k' != k {
      BlockKeeps(k, k', OnExitOf(p));
    }
  }

  lemma ExitKeepsSteady(k: Kernel, p: Pid, code: int)
    requires Steady(k) && p in k.procs && k.procs[p].state != WaitingForExit
    ensures Steady(ExitProcess(k, p, code))
  {
    hide WaitInv, ExitProcess;
    ExitKeeps(k, p, code, [], []);
    ExitFrame(k, p, code);
    FrameKeeps(k, ExitProcess(k, p, code));
  }

  lemma KillKeeps(k: Kernel, p: Pid)
    requires Steady(k)
    ensures Steady(Kill(k, p))
  {
    if Kill(k, p) != k {
      ExitKeepsSteady(k, p, KILL_EXIT_CODE);
    }
  }

  /** Blocking and unblocking by the user, and priorities, touch no queue. */
  lemma BlockByUserKeeps(k: Kernel, p: Pid)
    requires Steady(k)
    ensures Steady(BlockByUser(k, p))
  {
    hide WaitInv;
    SameQueues(k, BlockByUser(k, p), []);
  }

  lemma UnblockKeeps(k: Kernel, p: Pid)
    requires Steady(k)
    ensures Steady(Unblock(k, p))
  {
    hide WaitInv;
    SameQueues(k, Unblock(k, p), []);
  }

  lemma ChangePriorityKeeps(k: Kernel, p: Pid, priority: int)
    requires Inv(k)
    ensures Inv(ChangePriority(k, p, priority))
  {
    hide WaitInv;
    SameQueues(k, ChangePriority(k, p, priority), []);
  }

  lemma YieldKeeps(k: Kernel)
    requires Inv(k) && !k.idle
    ensures Steady(SetState(k, k.at, Ready))
  {
    hide WaitInv;
    SameQueues(k, SetState(k, k.at, Ready), []);
  }

  lemma CreateProcessKeeps(k: Kernel)
    requires Steady(k)
    ensures Steady(CreateProcess(k))
    ensures k.nextPid !in k.procs
  {
    hide WaitInv;
    var k' := CreateProcess(k);
    SameQueues(k, k', []);
    forall i | 0 <= i < |k.ring|
      ensures k.ring[i] < k.nextPid
    {
      var p := k.ring[i];
      assert p in k.ring;
    }
  }
}
