/** Kernel code outside the interrupt gates. The process of the speaker calls waitSemaphore and
    sleep directly, so an interrupt can come inside. Three windows are treated: between putting the
    caller on a queue and blocking it, for a tick, a post, a destroy and a kill; before the entry
    of sleep is linked, for a tick; and between reading and writing the head of the sleep list. */
module KernelPreempted {
  import opened Common
  import opened KernelSpec
  import opened WaitQueues
  import opened KernelSafety
  import opened KernelSteps
  import opened KernelRuns
  import opened KernelTimer
  import opened KernelSemaphores
  import opened KernelWaitPid

  // ---------------------------------------------------------------- the loop of incTicks

  const WORD64 := 0x1_0000_0000_0000_0000

  /** One round of the loop, from sleeper i: a process that is neither blocked nor killed is passed
      over without a step forward. */
  function TickRound(k: Kernel, i: nat): (r: (Kernel, nat))
    requires i < |k.sleepers|
    ensures r.1 <= |r.0.sleepers|
  {
    var s := k.sleepers[i];
    if IsIn(k.procs, s.pid, Blocked) then
      if s.ticks == 1 then (AwakenAt(k, i), i)
      else (k.(sleepers := k.sleepers[i := s.(ticks := (if s.ticks == 0 then WORD64 else s.ticks) - 1)]), i + 1)
    else if IsIn(k.procs, s.pid, WaitingForExit) then (AwakenAt(k, i), i)
    else (k, i)
  }

  /** The loop after at most n rounds. */
  function Rounds(k: Kernel, i: nat, n: nat): (r: (Kernel, nat))
    requires i <= |k.sleepers|
    ensures r.1 <= |r.0.sleepers|
    decreases n
  {
    if n == 0 || i == |k.sleepers| then (k, i)
    else
      var (k1, j) := TickRound(k, i);
      Rounds(k1, j, n - 1)
  }

  predicate EndsIn(k: Kernel, i: nat, n: nat)
    requires i <= |k.sleepers|
  {
    var (r, j) := Rounds(k, i, n);
    j == |r.sleepers|
  }

  ghost predicate LoopEnds(k: Kernel, i: nat)
    requires i <= |k.sleepers|
  {
    exists n: nat :: EndsIn(k, i, n)
  }

  /** Before an entry of a process that does not wait, the loop never reaches the end of the list. */
  lemma {:induction false} LoopHangs(k: Kernel, i: nat, j: nat, n: nat)
    requires i <= j < |k.sleepers| && !Waits(k, k.sleepers[j].pid)
    ensures !EndsIn(k, i, n)
    decreases n
  {
    hide LetGo;
    if n > 0 {
      var s, p := k.sleepers[i], k.sleepers[j].pid;
      var (k1, i1) := TickRound(k, i);
      if i < j && Waits(k, s.pid) {
        LetGoSettles(k, s.pid);
        if i1 == i {
          assert k1.sleepers[j - 1] == k.sleepers[j];
          LoopHangs(k1, i, j - 1, n - 1);
        } else {
          LoopHangs(k1, i1, j, n - 1);
        }
      } else {
        LoopHangs(k, i, j, n - 1);
      }
    }
  }

  /** With the queues in order every round moves on, and the loop ends in what TickLoop says. */
  lemma {:induction false} LoopFinishes(k: Kernel, i: nat) returns (n: nat)
    requires WaitInv(k, []) && SleepersOk(k) && i <= |k.sleepers|
    ensures Rounds(k, i, n) == (TickLoop(k, i), |TickLoop(k, i).sleepers|)
    decreases |k.sleepers| - i
  {
    hide WaitInv, LetGo, SleepersOk;
    if i == |k.sleepers| {
      n := 0;
    } else {
      var s := k.sleepers[i];
      TickStep(k, i);
      AwakenOrder(k, i);
      var (k1, j) := TickRound(k, i);
      var m := LoopFinishes(k1, j);
      n := m + 1;
    }
  }

  // ---------------------------------------------------------------- preempted inside sleep

  function Unlisted(sleepers: seq<Sleeper>, p: Pid): seq<Sleeper> {
    if sleepers == [] then []
    else (if sleepers[0].pid == p then [] else [sleepers[0]]) + Unlisted(sleepers[1..], p)
  }

  lemma {:induction false} UnlistedSame(sleepers: seq<Sleeper>, p: Pid)
    requires p !in Pids(sleepers)
    ensures Unlisted(sleepers, p) == sleepers
  {
    if sleepers != [] {
      assert Pids(sleepers)[0] == sleepers[0].pid;
      forall i | 0 <= i < |sleepers[1..]|
        ensures Pids(sleepers[1..])[i] != p
      {
        assert Pids(sleepers)[i + 1] == Pids(sleepers[1..])[i];
      }
      UnlistedSame(sleepers[1..], p);
    }
  }

  /** With everything in order but process p, which is inside sleep and not blocked yet, the loop of
      incTicks ends exactly when p is not on the sleep list yet. */
  lemma LoopEndsExactlyWhen(k: Kernel, p: Pid)
    requires WaitInv(k.(sleepers := Unlisted(k.sleepers, p)), []) && !Waits(k, p)
    requires SleepersOk(k)
    ensures LoopEnds(k, 0) <==> p !in Pids(k.sleepers)
  {
    hide WaitInv, Rounds;
    if p in Pids(k.sleepers) {
      var j :| 0 <= j < |k.sleepers| && Pids(k.sleepers)[j] == p;
      forall n: nat
        ensures !EndsIn(k, 0, n)
      {
        LoopHangs(k, 0, j, n);
      }
    } else {
      UnlistedSame(k.sleepers, p);
      assert k.(sleepers := Unlisted(k.sleepers, p)) == k;
      var n := LoopFinishes(k, 0);
      assert EndsIn(k, 0, n);
    }
  }

  /** schedule does not look at the sleep list. */
  lemma ScheduleIgnoresSleepers(k: Kernel, sleepers: seq<Sleeper>)
    requires k.at in k.ring
    ensures Schedule(k.(sleepers := sleepers)) == Schedule(k).(sleepers := sleepers)
  {
    hide ScanOrder, FirstReady, Keep, Reaped, Dispatch;
    var k1 := Preempted(k);
    DispatchIgnoresSleepers(k1, sleepers);
  }

  lemma DispatchIgnoresSleepers(k: Kernel, sleepers: seq<Sleeper>)
    requires k.at in k.ring
    ensures Dispatch(k.(sleepers := sleepers)) == Dispatch(k).(sleepers := sleepers)
  {
    hide ScanOrder, FirstReady, Keep, Reaped;
  }

  /** A process that called schedule stays in the table, running or ready if it was. */
  lemma CallerStays(k: Kernel)
    requires Steady(k) && CurrentRuns(k)
    ensures var s := Schedule(k); k.at in s.procs && !Waiting(s.procs[k.at].state)
  {
    hide WaitInv, SemsOk, SleepersOk, HeapsOk, OneRunning, Keep, ScanOrder, FirstReady;
    var k1 := Preempted(k);
    assert IsIn(k1.procs, k1.at, Ready) || k1 == k;
  }

  /** A tick that interrupts sleep: its own countdown ends exactly when sleep had not linked its
      entry yet. What sleep links when it goes on after such a tick is the matter of LinksStale. */
  lemma TickInsideSleep(k: Kernel, ticks: nat, linked: bool)
    requires Inv(k) && !k.idle && ticks > 0
    ensures var k1 := if linked then k.(sleepers := [Sleeper(k.at, ticks)] + k.sleepers) else k;
            LoopEnds(Schedule(k1), 0) <==> !linked
  {
    hide WaitInv, SemsOk, HeapsOk, OneRunning, Schedule, LoopEnds, Unlisted;
    var p := k.at;
    var s0 := Schedule(k);
    ScheduleKeeps(k);
    CallerStays(k);
    ScheduleQueues(k, Asleep);
    assert !Waits(s0, p);
    assert p !in Pids(s0.sleepers) by {
      if p in Pids(s0.sleepers) { QueuedWaits(s0, p, Asleep); }
    }
    UnlistedSame(s0.sleepers, p);
    assert s0.(sleepers := s0.sleepers) == s0;
    if linked {
      var list := [Sleeper(p, ticks)] + k.sleepers;
      ScheduleIgnoresSleepers(k, list);
      SleepersKept(k);
      var s1 := Schedule(k.(sleepers := list));
      UnlistedHead(p, ticks, k.sleepers);
      assert s1.(sleepers := k.sleepers) == s0;
      assert Pids(list)[0] == p;
      LoopEndsExactlyWhen(s1, p);
    } else {
      LoopEndsExactlyWhen(s0, p);
    }
  }

  lemma SleepersKept(k: Kernel)
    requires k.at in k.ring
    ensures Schedule(k).sleepers == k.sleepers
  {
  }

  lemma UnlistedHead(p: Pid, ticks: nat, rest: seq<Sleeper>)
    ensures Unlisted([Sleeper(p, ticks)] + rest, p) == Unlisted(rest, p)
  {
    assert ([Sleeper(p, ticks)] + rest)[1..] == rest;
  }

  // ---------------------------------------------------------------- a stale list head

  lemma SameMembers(k: Kernel, sleepers: seq<Sleeper>)
    requires WaitInv(k, []) && NoDuplicates(Pids(sleepers)) && forall q :: q in Pids(sleepers) <==> q in Pids(k.sleepers)
    ensures WaitInv(k.(sleepers := sleepers), [])
  {
    var k' := k.(sleepers := sleepers);
    forall l
      ensures NoDuplicates(Queue(k', [], l))
      ensures forall q :: q in Queue(k', [], l) <==> q in Queue(k, [], l)
    {
      assert NoDuplicates(Queue(k, [], l));
    }
    forall q
      ensures Queued(k', [], q) <==> Waits(k', q)
    {
      assert Queued(k, [], q) <==> Waits(k, q);
      if Queued(k, [], q) {
        var l :| q in Queue(k, [], l);
        assert q in Queue(k', [], l);
      }
    }
  }

  /** sleep links its entry in front of `tail`, the list behind the head it read before it was
      interrupted, and blocks; r is the kernel as it finds it when it goes on. The queues are in
      order exactly when `tail` still holds the sleepers of r, each once. */
  lemma LinksStale(r: Kernel, p: Pid, ticks: nat, tail: seq<Sleeper>)
    requires WaitInv(r, []) && p in r.procs && !Waits(r, p) && r.procs[p].state != Exited
    ensures var k' := SetState(r.(sleepers := [Sleeper(p, ticks)] + tail), p, Blocked);
            WaitInv(k', []) <==> NoDuplicates(Pids(tail)) && forall q :: q in Pids(tail) <==> q in Pids(r.sleepers)
  {
    hide WaitInv;
    var list := [Sleeper(p, ticks)] + tail;
    var k' := SetState(r.(sleepers := list), p, Blocked);
    var r1 := r.(sleepers := tail);
    assert Pids(list) == [p] + Pids(tail);
    if NoDuplicates(Pids(tail)) && forall q :: q in Pids(tail) <==> q in Pids(r.sleepers) {
      SameMembers(r, tail);
      var queue := Queue(r1, [], Asleep);
      assert queue[..0] + [p] + queue[0..] == [p] + queue;
      forall m | m != Asleep
        ensures Queue(k', [], m) == Queue(r1, [], m)
      {
        OnlyAsleep(r, p, ticks, tail, m);
      }
      OnlyAsleep(r, p, ticks, tail, Asleep);
      EntersQueue(r1, k', p, Asleep, 0);
    }
    if WaitInv(k', []) {
      InOrder(r, p, ticks, tail);
    }
  }

  /** Linking and blocking p changes no queue but the sleep list, and lets nobody but p wait. */
  lemma OnlyAsleep(r: Kernel, p: Pid, ticks: nat, tail: seq<Sleeper>, l: Place)
    requires p in r.procs && !Waits(r, p) && r.procs[p].state != Exited
    ensures var k' := SetState(r.(sleepers := [Sleeper(p, ticks)] + tail), p, Blocked);
            && (l != Asleep ==> Queue(k', [], l) == Queue(r, [], l))
            && Queue(k', [], Asleep) == [p] + Pids(tail)
            && forall q :: Waits(k', q) <==> Waits(r, q) || q == p
  {
  }

  lemma InOrder(r: Kernel, p: Pid, ticks: nat, tail: seq<Sleeper>)
    requires WaitInv(r, []) && p in r.procs && !Waits(r, p) && r.procs[p].state != Exited
    requires WaitInv(SetState(r.(sleepers := [Sleeper(p, ticks)] + tail), p, Blocked), [])
    ensures NoDuplicates(Pids(tail)) && forall q :: q in Pids(tail) <==> q in Pids(r.sleepers)
  {
    hide WaitInv, Queue;
    var k' := SetState(r.(sleepers := [Sleeper(p, ticks)] + tail), p, Blocked);
    OnlyAsleep(r, p, ticks, tail, Asleep);
    QueueOnce(k', Asleep);
    SplitOnce(p, Pids(tail));
    forall q
      ensures q in Pids(tail) <==> q in Pids(r.sleepers)
    {
      assert Queue(r, [], Asleep) == Pids(r.sleepers) by { AsleepIs(r); }
      if q in Pids(tail) {
        QueuedWaits(k', q, Asleep);
        var l := PlaceOf(r, q);
        OnlyAsleep(r, p, ticks, tail, l);
        if l != Asleep { OnePlaceOnly(k', q, l, Asleep); }
      }
      if q in Pids(r.sleepers) {
        QueuedWaits(r, q, Asleep);
        var l := PlaceOf(k', q);
        OnlyAsleep(r, p, ticks, tail, l);
        if l != Asleep { OnePlaceOnly(r, q, l, Asleep); }
      }
    }
  }

  lemma AsleepIs(k: Kernel)
    ensures Queue(k, [], Asleep) == Pids(k.sleepers)
  {
  }

  lemma QueueOnce(k: Kernel, l: Place)
    requires WaitInv(k, [])
    ensures NoDuplicates(Queue(k, [], l))
  {
  }

  lemma PlaceOf(k: Kernel, q: Pid) returns (l: Place)
    requires WaitInv(k, []) && Waits(k, q)
    ensures q in Queue(k, [], l)
  {
    assert Queued(k, [], q);
    l :| q in Queue(k, [], l);
  }

  lemma OnePlaceOnly(k: Kernel, q: Pid, l: Place, m: Place)
    requires WaitInv(k, []) && l != m && q in Queue(k, [], l)
    ensures q !in Queue(k, [], m)
  {
  }

  lemma SplitOnce(p: Pid, s: seq<Pid>)
    requires NoDuplicates([p] + s)
    ensures NoDuplicates(s) && p !in s
  {
    var all := [p] + s;
    forall i, j | 0 <= i < j < |s|
      ensures s[i] != s[j]
    {
      assert all[i + 1] == s[i] && all[j + 1] == s[j];
    }
    forall i | 0 <= i < |s|
      ensures s[i] != p
    {
      assert all[0] == p && all[i + 1] == s[i];
    }
  }

  lemma NotLater(s: seq<Pid>, i: nat)
    requires NoDuplicates(s) && 0 < i <= |s|
    ensures s[0] !in s[i..]
  {
    forall j | 0 <= j < |s[i..]|
      ensures s[i..][j] != s[0]
    {
      assert s[i..][j] == s[i + j];
    }
  }

  /** The case that the head sleep read is still listed, at place i: it has to be the head still;
      what was put in front of it meanwhile is lost. */
  lemma LinksSuffix(r: Kernel, p: Pid, ticks: nat, i: nat)
    requires WaitInv(r, []) && p in r.procs && !Waits(r, p) && r.procs[p].state != Exited && i <= |r.sleepers|
    ensures var k' := SetState(r.(sleepers := [Sleeper(p, ticks)] + r.sleepers[i..]), p, Blocked);
            WaitInv(k', []) <==> i == 0
  {
    hide WaitInv;
    var tail := r.sleepers[i..];
    var pids := Pids(r.sleepers);
    assert Queue(r, [], Asleep) == pids;
    SleepersOnce(r);
    assert Pids(tail) == pids[i..];
    LinksStale(r, p, ticks, tail);
    if i == 0 {
      assert tail == r.sleepers;
    } else {
      NotLater(pids, i);
      assert pids[0] in pids;
    }
  }

  lemma SleepersOnce(k: Kernel)
    requires WaitInv(k, [])
    ensures NoDuplicates(Pids(k.sleepers))
  {
    assert NoDuplicates(Queue(k, [], Asleep));
  }

  /** The window between reading the head in state k and writing it in state r, when the list is
      taken as it was: harmless exactly when the same processes sleep. */
  lemma InterruptedLink(k: Kernel, r: Kernel, ticks: nat)
    requires Inv(k) && Inv(r) && !k.idle && !r.idle && k.at == r.at
    ensures var k' := SetState(r.(sleepers := [Sleeper(r.at, ticks)] + k.sleepers), r.at, Blocked);
            WaitInv(k', []) <==> forall q :: q in Pids(k.sleepers) <==> q in Pids(r.sleepers)
  {
    hide WaitInv, SemsOk, SleepersOk, HeapsOk, OneRunning;
    SleepersOnce(k);
    LinksStale(r, r.at, ticks, k.sleepers);
  }

  // ---------------------------------------------------------------- inside waitSemaphore

  /** k with process p at place i of the queue of semaphore id. */
  function Inserted(k: Kernel, id: nat, p: Pid, i: nat): Kernel
    requires id < |k.sems| && i <= |k.sems[id].queue|
  {
    var queue := k.sems[id].queue;
    SetSem(k, id, k.sems[id].(queue := queue[..i] + [p] + queue[i..]))
  }

  lemma {:induction false} ReleaseIgnoresSems(k: Kernel, ws: seq<Waiter>, sems: seq<Semaphore>)
    ensures ReleaseWaiters(k.(sems := sems), ws) == ReleaseWaiters(k, ws).(sems := sems)
    decreases |Alive(k)|, |ws|
  {
    if ws != [] {
      var w, rest := ws[0], ws[1..];
      var k1 := k.(sems := sems);
      assert Alive(k1) == Alive(k);
      if w.pid !in k.procs {
        ReleaseIgnoresSems(k, rest, sems);
      } else if k.procs[w.pid].state == Blocked {
        assert Alive(Wake(k, w.pid, w.code)) == Alive(k);
        assert Wake(k1, w.pid, w.code) == Wake(k, w.pid, w.code).(sems := sems);
        ReleaseIgnoresSems(Wake(k, w.pid, w.code), rest, sems);
      } else if k.procs[w.pid].state == WaitingForExit {
        assert Alive(SetState(k, w.pid, Exited)) == Alive(k) - {w.pid};
        assert SetState(k1, w.pid, Exited) == SetState(k, w.pid, Exited).(sems := sems);
        ReleaseIgnoresSems(SetState(k, w.pid, Exited), Waiters(k.procs[w.pid].waitingForMe, KILL_EXIT_CODE) + rest, sems);
      } else {
        ReleaseIgnoresSems(k, rest, sems);
      }
    }
  }

  lemma LetGoIgnoresSems(k: Kernel, p: Pid, sems: seq<Semaphore>)
    ensures LetGo(k.(sems := sems), p) == LetGo(k, p).(sems := sems)
  {
    hide ReleaseWaiters;
    if IsIn(k.procs, p, WaitingForExit) {
      ReleaseIgnoresSems(SetState(k, p, Exited), Waiters(k.procs[p].waitingForMe, KILL_EXIT_CODE), sems);
      assert SetState(k.(sems := sems), p, Exited) == SetState(k, p, Exited).(sems := sems);
    }
  }

  /** One round of a loop over a queue with p in it, behind the head. */
  lemma HeadFirst(k: Kernel, id: nat, p: Pid, i: nat)
    requires WaitInv(k, []) && SemsOk(k) && SemOpen(k, id) && !Waits(k, p) && 0 < i <= |k.sems[id].queue|
    ensures var t, h := Inserted(k, id, p, i), k.sems[id].queue[0];
            var next := LetGo(Dequeue(k, id), h);
            && t.procs == k.procs && |t.sems| == |k.sems| && t.sems[id].queue != [] && t.sems[id].queue[0] == h
            && |next.sems| == |k.sems| && next.sems[id] == k.sems[id].(queue := k.sems[id].queue[1..])
            && LetGo(Dequeue(t, id), h) == Inserted(next, id, p, i - 1)
            && WaitInv(next, []) && SemsOk(next) && !Waits(next, p)
            && FirstBlocked(next.procs, k.sems[id].queue[1..]) == FirstBlocked(k.procs, k.sems[id].queue[1..])
  {
    hide WaitInv, SemsOk, LetGo, SameFrame;
    var queue := k.sems[id].queue;
    var t := Inserted(k, id, p, i);
    var h, rest := queue[0], queue[1..];
    var next := LetGo(Dequeue(k, id), h);
    assert t.sems[id].queue[0] == h && t.sems[id].queue[1..] == rest[..i - 1] + [p] + rest[i - 1..];
    assert Dequeue(t, id) == Dequeue(k, id).(sems := Dequeue(t, id).sems);
    LetGoIgnoresSems(Dequeue(k, id), h, Dequeue(t, id).sems);
    DequeueLetGo(k, id);
    assert LetGo(Dequeue(t, id), h) == Inserted(next, id, p, i - 1);
    QueueKeepsStates(k, id);
    LetGoSpares(Dequeue(k, id), h);
    FirstBlockedSame(k.procs, next.procs, rest);
  }

  /** p itself at the head of the queue is dropped. */
  lemma HeadDropped(k: Kernel, id: nat, p: Pid)
    requires id < |k.sems| && !Waits(k, p)
    ensures var t := Inserted(k, id, p, 0);
            && t.procs == k.procs && |t.sems| == |k.sems| && t.sems[id].queue != [] && t.sems[id].queue[0] == p
            && LetGo(Dequeue(t, id), p) == k
  {
    hide LetGo;
    var queue := k.sems[id].queue;
    var t := Inserted(k, id, p, 0);
    assert t.sems[id].queue == [p] + queue && t.sems[id].queue[1..] == queue;
    assert Dequeue(t, id) == k;
    NothingToDo(k, p);
  }

  lemma NothingToDo(k: Kernel, p: Pid)
    requires !Waits(k, p)
    ensures LetGo(k, p) == k
  {
  }

  /** A process in the queue that is not blocked yet: the post passes it over if nobody before it
      takes the token, and it is then off the queue. */
  lemma {:induction false} PostWithInside(k: Kernel, id: nat, p: Pid, i: nat)
    requires WaitInv(k, []) && SemsOk(k) && SemOpen(k, id) && !Waits(k, p) && i <= |k.sems[id].queue|
    ensures var j := FirstBlocked(k.procs, k.sems[id].queue);
            && (j < i ==> i - j - 1 <= |PostLoop(k, id).sems[id].queue|)
            && PostLoop(Inserted(k, id, p, i), id) ==
               if j < i then Inserted(PostLoop(k, id), id, p, i - j - 1) else PostLoop(k, id)
    decreases i
  {
    hide WaitInv, SemsOk, LetGo, SameFrame, Inserted;
    if i == 0 {
      HeadDropped(k, id, p);
    } else {
      var h := k.sems[id].queue[0];
      HeadFirst(k, id, p, i);
      if !IsIn(k.procs, h, Blocked) {
        PostWithInside(LetGo(Dequeue(k, id), h), id, p, i - 1);
      }
    }
  }

  lemma {:induction false} DrainWithInside(k: Kernel, id: nat, p: Pid, i: nat)
    requires WaitInv(k, []) && SemsOk(k) && SemOpen(k, id) && !Waits(k, p) && i <= |k.sems[id].queue|
    ensures DrainLoop(Inserted(k, id, p, i), id) == DrainLoop(k, id)
    decreases i
  {
    hide WaitInv, SemsOk, LetGo, SameFrame, Inserted;
    if i == 0 {
      HeadDropped(k, id, p);
    } else {
      HeadFirst(k, id, p, i);
      DrainWithInside(LetGo(Dequeue(k, id), k.sems[id].queue[0]), id, p, i - 1);
    }
  }

  /** waitSemaphore found no token and has queued its caller p, which is now at place i of the queue;
      a post comes before p is blocked. The queues are in order once p is blocked exactly when
      somebody before it took the token: otherwise p blocks for good, in no queue. */
  lemma PostInsideWait(k: Kernel, id: nat, p: Pid, i: nat)
    requires WaitInv(k, []) && SemsOk(k) && SemOpen(k, id) && i <= |k.sems[id].queue|
    requires p in k.procs && !Waits(k, p) && k.procs[p].state != Exited
    ensures p in PostLoop(Inserted(k, id, p, i), id).procs
    ensures var k' := SetState(PostLoop(Inserted(k, id, p, i), id), p, Blocked);
            WaitInv(k', []) <==> FirstBlocked(k.procs, k.sems[id].queue) < i
  {
    hide WaitInv, SemsOk, PostLoop;
    var r, j := PostLoop(k, id), FirstBlocked(k.procs, k.sems[id].queue);
    PostWithInside(k, id, p, i);
    PostLoopKeeps(k, id);
    PostLoopFrame(k, id);
    PostLoopSpares(k, id);
    assert p in r.procs && r.procs[p] == k.procs[p] && !Waits(r, p);
    if j < i {
      var m := i - j - 1;
      BlocksInside(r, id, p, m);
    } else {
      BlockedNowhere(r, p);
    }
  }

  /** Blocking where the queue holds it keeps the queues in order. */
  lemma BlocksInside(k: Kernel, id: nat, p: Pid, i: nat)
    requires WaitInv(k, []) && id < |k.sems| && i <= |k.sems[id].queue| && p in k.procs && !Waits(k, p)
    requires k.procs[p].state != Exited
    ensures WaitInv(SetState(Inserted(k, id, p, i), p, Blocked), [])
  {
    hide WaitInv;
    var k' := SetState(Inserted(k, id, p, i), p, Blocked);
    assert Queue(k', [], OnSem(id)) == k.sems[id].queue[..i] + [p] + k.sems[id].queue[i..];
    forall m | m != OnSem(id)
      ensures Queue(k', [], m) == Queue(k, [], m)
    {
    }
    EntersQueue(k, k', p, OnSem(id), i);
  }

  /** Whatever happened in the window, when the caller goes on to block: it is safe exactly if the
      queue still holds it. */
  lemma GoesOnToBlock(k: Kernel, id: nat, p: Pid, i: nat, queued: bool)
    requires WaitInv(k, []) && id < |k.sems| && i <= |k.sems[id].queue|
    requires p in k.procs && !Waits(k, p) && k.procs[p].state != Exited
    ensures WaitInv(SetState(if queued then Inserted(k, id, p, i) else k, p, Blocked), []) <==> queued
  {
    hide WaitInv;
    if queued { BlocksInside(k, id, p, i); } else { BlockedNowhere(k, p); }
  }

  /** A destroy in the same window is never harmless: p blocks in no queue. */
  lemma DestroyInsideWait(k: Kernel, id: nat, p: Pid, i: nat)
    requires WaitInv(k, []) && SemsOk(k) && SemOpen(k, id) && i <= |k.sems[id].queue|
    requires p in k.procs && !Waits(k, p) && k.procs[p].state != Exited
    ensures p in DrainLoop(Inserted(k, id, p, i), id).procs
    ensures !WaitInv(SetState(DrainLoop(Inserted(k, id, p, i), id), p, Blocked), [])
  {
    hide WaitInv, SemsOk, DrainLoop;
    DrainWithInside(k, id, p, i);
    DrainLoopKeeps(k, id);
    DrainLoopFrame(k, id);
    DrainLoopSpares(k, id);
    BlockedNowhere(DrainLoop(k, id), p);
  }

  /** Nor is a kill, in waitSemaphore or in sleep: a process that is on a queue and not blocked yet
      exits at once, and the queue still points to it. */
  lemma KillWhileQueued(k: Kernel, l: Place, p: Pid)
    requires p in Queue(k, [], l) && (l.OnSem? || l.Asleep?)
    requires p in k.procs && p != 0 && !Waits(k, p) && k.procs[p].state != Exited
    ensures var k' := Kill(k, p); IsIn(k'.procs, p, Exited) && p in Queue(k', [], l) && !WaitInv(k', [])
  {
    hide ReleaseWaiters, OnePlace;
    ReleaseFrame(SetState(k, p, Exited), Waiters(k.procs[p].waitingForMe, KILL_EXIT_CODE));
    var k' := Kill(k, p);
    assert Queue(k', [], l) == Queue(k, [], l);
    assert Queued(k', [], p) && !Waits(k', p);
  }

  lemma BlockedNowhere(k: Kernel, p: Pid)
    requires WaitInv(k, []) && p in k.procs && !Waits(k, p) && k.procs[p].state != Exited
    ensures !WaitInv(SetState(k, p, Blocked), [])
  {
    var k' := SetState(k, p, Blocked);
    assert forall l :: Queue(k', [], l) == Queue(k, [], l);
    assert !Queued(k, [], p);
    assert !Queued(k', [], p) && Waits(k', p);
  }
}
