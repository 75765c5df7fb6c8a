/** The kernel invariant, and that every kernel call keeps it. */
module KernelSafety {
  import opened KernelSpec
  import opened WaitQueues

  // ---------------------------------------------------------------- the invariant

  /** The ring holds every process once, in pid order from head to tail. */
  ghost predicate RingOk(k: Kernel) {
    && (forall i, j :: 0 <= i < j < |k.ring| ==> k.ring[i] < k.ring[j])
    && (forall p :: p in k.ring <==> p in k.procs)
    && (forall p :: p in k.procs ==> 0 <= p < k.nextPid)
    && k.at in k.ring
  }

  /** A semaphore with tokens has nobody waiting, and the freed positions are the destroyed ones. */
  ghost predicate SemsOk(k: Kernel) {
    && (forall i :: 0 <= i < |k.sems| ==> k.sems[i].value > 0 || k.sems[i].destroyed ==> k.sems[i].queue == [])
    && (forall i :: 0 <= i < |k.sems| ==> (k.sems[i].destroyed <==> i in k.freed))
    && (forall i :: i in k.freed ==> i < |k.sems|)
    && (forall i, j :: 0 <= i < j < |k.freed| ==> k.freed[i] != k.freed[j])
  }

  ghost predicate SleepersOk(k: Kernel) {
    forall i :: 0 <= i < |k.sleepers| ==> k.sleepers[i].ticks > 0
  }

  /** A heap is given back early exactly for a process that was killed while it was blocked. */
  ghost predicate HeapsOk(procs: map<Pid, PCB>) {
    forall p :: p in procs ==>
                  && (procs[p].state == WaitingForExit ==> procs[p].heapFreed)
                  && (procs[p].state != WaitingForExit && procs[p].state != Exited ==> !procs[p].heapFreed)
                  && 1 <= procs[p].priority <= 9
  }

  /** Nobody but the current process is in state Running. */
  ghost predicate OneRunning(k: Kernel) {
    forall p :: p in k.procs && k.procs[p].state == Running ==> !k.idle && p == k.at
  }

  /** What holds while a kernel call runs, up to its context switch. */
  ghost predicate Steady(k: Kernel) {
    WaitInv(k, []) && RingOk(k) && SemsOk(k) && SleepersOk(k) && HeapsOk(k.procs) && OneRunning(k)
  }

  /** The current process is running; before the first context switch it is still marked ready. */
  predicate CurrentRuns(k: Kernel) {
    !k.idle && (IsIn(k.procs, k.at, Running) || IsIn(k.procs, k.at, Ready))
  }

  /** What holds whenever user code runs. */
  ghost predicate Inv(k: Kernel) {
    Steady(k) && (k.idle || CurrentRuns(k))
  }

  // ---------------------------------------------------------------- exit

  function PidsOf(ws: seq<Waiter>): (pids: seq<Pid>)
    ensures |pids| == |ws| && forall i :: 0 <= i < |ws| ==> pids[i] == ws[i].pid
  {
    seq(|ws|, i requires 0 <= i < |ws| => ws[i].pid)
  }

  /** The release of waiting processes empties the hand into ready and exited processes. */
  lemma {:induction false} ReleaseKeeps(k: Kernel, ws: seq<Waiter>, rest: seq<Pid>)
    requires WaitInv(k, PidsOf(ws) + rest)
    ensures WaitInv(ReleaseWaiters(k, ws), rest)
    decreases |Alive(k)|, |ws|
  {
    if ws == [] {
      assert PidsOf(ws) + rest == rest;
    } else {
      hide WaitInv;
      var w, more := ws[0], ws[1..];
      assert PidsOf(ws) + rest == [w.pid] + (PidsOf(more) + rest);
      HeadWaits(k, w.pid, PidsOf(more) + rest);
      if k.procs[w.pid].state == Blocked {
        assert Alive(Wake(k, w.pid, w.code)) == Alive(k);
        WakeKeeps(k, w.pid, w.code, PidsOf(more) + rest);
        ReleaseKeeps(Wake(k, w.pid, w.code), more, rest);
      } else {
        var mine := Waiters(k.procs[w.pid].waitingForMe, KILL_EXIT_CODE);
        assert Alive(SetState(k, w.pid, Exited)) == Alive(k) - {w.pid};
        ExitsToHand(k, w.pid, [w.pid] + (PidsOf(more) + rest), PidsOf(more) + rest);
        assert PidsOf(mine + more) + rest == k.procs[w.pid].waitingForMe + (PidsOf(more) + rest);
        ReleaseKeeps(SetState(k, w.pid, Exited), mine + more, rest);
      }
    }
  }

  lemma WakeKeeps(k: Kernel, p: Pid, code: int, rest: seq<Pid>)
    requires WaitInv(k, [p] + rest) && IsIn(k.procs, p, Blocked)
    ensures WaitInv(Wake(k, p, code), rest)
  {
    hide WaitInv;
    LeavesHand(k, Wake(k, p, code), p, rest);
  }

  lemma HeadWaits(k: Kernel, p: Pid, rest: seq<Pid>)
    requires WaitInv(k, [p] + rest)
    ensures Waits(k, p)
  {
    var hand := [p] + rest;
    assert hand[0] == p;
    assert p in Queue(k, hand, InHand);
    assert Queued(k, hand, p);
  }

  /** exitProcessByPCB keeps the queues safe for every process but one that already waits to
      exit; that one must first be taken off its queue. */
  lemma ExitKeeps(k: Kernel, p: Pid, code: int, hand: seq<Pid>, rest: seq<Pid>)
    requires p in k.procs && WaitInv(k, hand)
    requires hand == if k.procs[p].state == WaitingForExit then [p] + rest else rest
    ensures WaitInv(ExitProcess(k, p, code), rest)
  {
    if k.procs[p].state == Blocked {
      SameQueues(k, ExitProcess(k, p, code), rest);
    } else if k.procs[p].state != Exited {
      var ws := Waiters(k.procs[p].waitingForMe, code);
      ExitsToHand(k, p, hand, rest);
      assert PidsOf(ws) == k.procs[p].waitingForMe;
      ReleaseKeeps(SetState(k, p, Exited), ws, rest);
    }
  }

  lemma LetGoKeeps(k: Kernel, p: Pid, rest: seq<Pid>)
    requires WaitInv(k, [p] + rest)
    ensures WaitInv(LetGo(k, p), rest)
  {
    HeadWaits(k, p, rest);
    if k.procs[p].state == Blocked {
      LeavesHand(k, SetState(k, p, Ready), p, rest);
    } else {
      ExitKeeps(k, p, KILL_EXIT_CODE, [p] + rest, rest);
    }
  }

  /** Everything but the queues, after an exit or a wake-up. */
  ghost predicate SameFrame(k: Kernel, k': Kernel) {
    && k' == k.(procs := k'.procs) && k'.procs.Keys == k.procs.Keys
    && (HeapsOk(k.procs) ==> HeapsOk(k'.procs))
    && forall p :: p in k.procs ==>
                     && (k.procs[p].state == Exited ==> k'.procs[p].state == Exited)
                     && (k'.procs[p].state == Running ==> k.procs[p].state == Running)
  }

  lemma ExitFrame(k: Kernel, p: Pid, code: int)
    requires p in k.procs
    ensures SameFrame(k, ExitProcess(k, p, code))
  {
    if k.procs[p].state != Exited && k.procs[p].state != Blocked {
      var k1 := SetState(k, p, Exited);
      var k2 := ReleaseWaiters(k1, Waiters(k.procs[p].waitingForMe, code));
      ReleaseFrame(k1, Waiters(k.procs[p].waitingForMe, code));
    }
  }

  lemma LetGoFrame(k: Kernel, p: Pid)
    ensures SameFrame(k, LetGo(k, p))
  {
    if IsIn(k.procs, p, WaitingForExit) {
      ExitFrame(k, p, KILL_EXIT_CODE);
    }
  }

  // ---------------------------------------------------------------- queues

  /** Taking the head off a semaphore queue and letting it go. */
  lemma DequeueLetGo(k: Kernel, id: nat)
    requires WaitInv(k, []) && id < |k.sems| && SemsOk(k) && k.sems[id].queue != []
    ensures var next := LetGo(Dequeue(k, id), k.sems[id].queue[0]);
            && WaitInv(next, []) && SemsOk(next) && SameFrame(k, next.(sems := k.sems))
            && next.sems == k.sems[id := k.sems[id].(queue := k.sems[id].queue[1..])]
  {
    hide WaitInv, LetGo;
    var p := k.sems[id].queue[0];
    DequeueKeeps(k, id);
    LetGoKeeps(Dequeue(k, id), p, []);
    LetGoFrame(Dequeue(k, id), p);
  }

  lemma {:induction false} PostLoopKeeps(k: Kernel, id: nat)
    requires WaitInv(k, []) && id < |k.sems| && !k.sems[id].destroyed && SemsOk(k)
    ensures WaitInv(PostLoop(k, id), []) && SemsOk(PostLoop(k, id))
    ensures var r := PostLoop(k, id); SameFrame(k, r.(sems := k.sems))
    decreases |k.sems[id].queue|
  {
    hide WaitInv, LetGo, HeapsOk;
    if k.sems[id].queue == [] {
      var r := PostLoop(k, id);
      SameQueues(k, r, []);
    } else {
      var p := k.sems[id].queue[0];
      DequeueLetGo(k, id);
      var next := LetGo(Dequeue(k, id), p);
      if !IsIn(k.procs, p, Blocked) {
        PostLoopKeeps(next, id);
      }
    }
  }

  lemma DequeueKeeps(k: Kernel, id: nat)
    requires WaitInv(k, []) && id < |k.sems| && SemsOk(k) && k.sems[id].queue != []
    ensures WaitInv(Dequeue(k, id), [k.sems[id].queue[0]] + []) && SemsOk(Dequeue(k, id))
  {
    hide WaitInv;
    var k' := Dequeue(k, id);
    var queue := k.sems[id].queue;
    assert Queue(k, [], OnSem(id)) == queue && queue[..0] + queue[1..] == queue[1..];
    TakenInHand(k, k', [], OnSem(id), 0);
  }

  lemma {:induction false} DrainLoopKeeps(k: Kernel, id: nat)
    requires WaitInv(k, []) && id < |k.sems| && !k.sems[id].destroyed && SemsOk(k)
    ensures WaitInv(DrainLoop(k, id), []) && SemsOk(DrainLoop(k, id))
    ensures DrainLoop(k, id).sems[id].queue == [] && !DrainLoop(k, id).sems[id].destroyed
    ensures var r := DrainLoop(k, id); SameFrame(k, r.(sems := k.sems))
    decreases |k.sems[id].queue|
  {
    hide WaitInv, LetGo, HeapsOk;
    if k.sems[id].queue != [] {
      var p := k.sems[id].queue[0];
      DequeueLetGo(k, id);
      DrainLoopKeeps(LetGo(Dequeue(k, id), p), id);
    }
  }

  /** Taking a sleeper off the list, into the hand. */
  lemma AwakenTaken(k: Kernel, i: nat)
    requires WaitInv(k, []) && i < |k.sleepers|
    ensures WaitInv(k.(sleepers := k.sleepers[..i] + k.sleepers[i + 1..]), [k.sleepers[i].pid] + [])
  {
    hide WaitInv;
    var k1 := k.(sleepers := k.sleepers[..i] + k.sleepers[i + 1..]);
    var pids := Pids(k.sleepers);
    assert Queue(k, [], Asleep) == pids && pids[i] == k.sleepers[i].pid;
    assert Pids(k1.sleepers) == pids[..i] + pids[i + 1..];
    TakenInHand(k, k1, [], Asleep, i);
  }

  lemma AwakenKeeps(k: Kernel, i: nat)
    requires WaitInv(k, []) && i < |k.sleepers| && SleepersOk(k)
    ensures WaitInv(AwakenAt(k, i), []) && SleepersOk(AwakenAt(k, i))
    ensures var r := AwakenAt(k, i); SameFrame(k, r.(sleepers := k.sleepers))
  {
    hide WaitInv;
    var p := k.sleepers[i].pid;
    AwakenTaken(k, i);
    LetGoKeeps(k.(sleepers := k.sleepers[..i] + k.sleepers[i + 1..]), p, []);
    LetGoFrame(k, p);
    AwakenOrder(k, i);
  }

  /** Leaving the sleep list and being let go commute. */
  lemma AwakenOrder(k: Kernel, i: nat)
    requires i < |k.sleepers|
    ensures AwakenAt(k, i) == LetGo(k.(sleepers := k.sleepers[..i] + k.sleepers[i + 1..]), k.sleepers[i].pid)
  {
    var p := k.sleepers[i].pid;
    if IsIn(k.procs, p, WaitingForExit) {
      var s := k.sleepers[..i] + k.sleepers[i + 1..];
      var ws := Waiters(k.procs[p].waitingForMe, KILL_EXIT_CODE);
      ReleaseIgnoresSleepers(SetState(k, p, Exited), ws, s);
      assert SetState(k.(sleepers := s), p, Exited) == SetState(k, p, Exited).(sleepers := s);
    }
  }

  lemma {:induction false} ReleaseIgnoresSleepers(k: Kernel, ws: seq<Waiter>, s: seq<Sleeper>)
    ensures ReleaseWaiters(k.(sleepers := s), ws) == ReleaseWaiters(k, ws).(sleepers := s)
    decreases |Alive(k)|, |ws|
  {
    if ws != [] {
      var w, rest := ws[0], ws[1..];
      if w.pid !in k.procs {
        ReleaseIgnoresSleepers(k, rest, s);
      } else if k.procs[w.pid].state == Blocked {
        assert Alive(Wake(k, w.pid, w.code)) == Alive(k);
        assert Wake(k.(sleepers := s), w.pid, w.code) == Wake(k, w.pid, w.code).(sleepers := s);
        ReleaseIgnoresSleepers(Wake(k, w.pid, w.code), rest, s);
      } else if k.procs[w.pid].state == WaitingForExit {
        assert Alive(SetState(k, w.pid, Exited)) == Alive(k) - {w.pid};
        assert SetState(k.(sleepers := s), w.pid, Exited) == SetState(k, w.pid, Exited).(sleepers := s);
        ReleaseIgnoresSleepers(SetState(k, w.pid, Exited), Waiters(k.procs[w.pid].waitingForMe, KILL_EXIT_CODE) + rest, s);
      } else {
        ReleaseIgnoresSleepers(k, rest, s);
      }
    }
  }

  lemma {:induction false} TickLoopKeeps(k: Kernel, i: nat)
    requires WaitInv(k, []) && i <= |k.sleepers| && SleepersOk(k)
    ensures WaitInv(TickLoop(k, i), []) && SleepersOk(TickLoop(k, i))
    ensures var r := TickLoop(k, i); SameFrame(k, r.(sleepers := k.sleepers))
    decreases |k.sleepers| - i
  {
    hide WaitInv, LetGo, HeapsOk;
    if i < |k.sleepers| {
      var s := k.sleepers[i];
      if IsIn(k.procs, s.pid, Blocked) && s.ticks > 1 {
        var k1 := k.(sleepers := k.sleepers[i := s.(ticks := s.ticks - 1)]);
        assert Pids(k1.sleepers) == Pids(k.sleepers);
        SameQueues(k, k1, []);
        TickLoopKeeps(k1, i + 1);
      } else {
        AwakenKeeps(k, i);
        TickLoopKeeps(AwakenAt(k, i), i);
      }
    }
  }
}
