/** The kernel as it runs: global process ring with links, head, tail, current and prev; the
    semaphore array; the sleep list. Every kernel call is proved to do what KernelSpec says. */
module KernelMachine {
  import opened Common
  import opened KernelSpec
  import opened WaitQueues
  import opened KernelSafety
  import opened KernelSteps
  import opened KernelRing
  import opened KernelRuns
  import opened KernelExit
  import opened KernelTimer

  const IDLE: Pid := -1

  /** The list invariants of the process ring, read from the ring `ring`. */
  ghost predicate LinkedRing(next: Links, ring: seq<Pid>, head: Pid, tail: Pid, current: Pid, prev: Pid, len: int) {
    && Ascending(ring) && Cycle(next, ring) && (forall p :: p in next <==> p in ring)
    && head == ring[0] && tail == ring[|ring| - 1] && len == |ring|
    && prev in ring && next[prev] in ring && (current == IDLE || current == next[prev])
    && IDLE !in ring
  }

  lemma AscendingDistinct(s: seq<Pid>)
    requires Ascending(s)
    ensures NoDuplicates(s)
  {
  }

  /** In a circle read from c, the node before c is the last one. */
  lemma PrevIsLast(next: Links, c: Pid, x: seq<Pid>, prev: Pid)
    requires Cycle(next, [c] + x) && NoDuplicates([c] + x) && x != [] && prev in [c] + x && prev in next && next[prev] == c
    ensures prev == x[|x| - 1]
  {
    hide Cycle;
    var s := [c] + x;
    var i :| 0 <= i < |s| && s[i] == prev;
    CycleAt(next, s, i);
    var j := if i + 1 < |s| then i + 1 else 0;
    assert s[j] == s[0];
  }

  lemma {:induction false} KeepOne(a: seq<Pid>, c: Pid, b: seq<Pid>)
    requires NoDuplicates(a + [c] + b)
    ensures Keep(a + [c] + b, {c}) == a + b
  {
    var s := a + [c] + b;
    assert s[|a|] == c;
    forall p | p in a || p in b
      ensures p != c
    {
      if p in a {
        var i :| 0 <= i < |a| && a[i] == p;
        assert s[i] == p;
      } else {
        var i :| 0 <= i < |b| && b[i] == p;
        assert s[|a| + 1 + i] == p;
      }
    }
    KeepAppend(a + [c], b, {c});
    KeepAppend(a, [c], {c});
    KeepAll(a, {c});
    KeepAll(b, {c});
    assert Keep([c], {c}) == [];
  }

  /** The circle without c, which splits the ring into a and b. */
  lemma UnlinkCycle(next: Links, a: seq<Pid>, c: Pid, b: seq<Pid>, prev: Pid)
    requires Cycle(next, a + [c] + b) && NoDuplicates([c] + (b + a)) && a + b != []
    requires prev in a + [c] + b && prev in next && next[prev] == c
    ensures c in next && prev == (b + a)[|b + a| - 1] && next[c] == (b + a)[0]
    ensures Cycle((next - {c})[prev := next[c]], a + b)
  {
    hide Cycle, NoDuplicates;
    var x := b + a;
    assert a + [c] + b == a + ([c] + b);
    assert ([c] + b) + a == [c] + x;
    if a != [] {
      Rotate(next, a, [c] + b);
    } else {
      assert a + ([c] + b) == ([c] + b) + a;
    }
    assert prev in [c] + x;
    PrevIsLast(next, c, x, prev);
    Bypass(next, c, x);
    var next' := (next - {c})[prev := next[c]];
    if a != [] && b != [] {
      Rotate(next', b, a);
    } else {
      assert a + b == x;
    }
  }

  /** Unlinking the current node keeps the ring well formed without it. */
  lemma UnlinkCurrent(next: Links, ring: seq<Pid>, head: Pid, tail: Pid, c: Pid, prev: Pid)
    requires LinkedRing(next, ring, head, tail, c, prev, |ring|) && c != IDLE && |ring| > 1
    ensures c in next && prev in next && prev != c
    ensures LinkedRing((next - {c})[prev := next[c]], Keep(ring, {c}),
                       if head == c then next[c] else head, if head != c && tail == c then prev else tail,
                       next[c], prev, |ring| - 1)
  {
    hide Cycle, Ascending, Keep, NoDuplicates;
    var i := IndexOf(ring, c);
    var a, b := ring[..i], ring[i + 1..];
    AscendingDistinct(ring);
    assert ring == a + [c] + b;
    KeepOne(a, c, b);
    RotatedDistinct(ring, i);
    UnlinkCycle(next, a, c, b, prev);
    KeepAscending(ring, {c});
    KeepMembers(ring, {c});
    EndsOf(a, c, b);
    assert prev == if a == [] then b[|b| - 1] else a[|a| - 1];
  }

  /** Where c lies at an end of the ring, and what is next to it. */
  lemma EndsOf(a: seq<Pid>, c: Pid, b: seq<Pid>)
    requires NoDuplicates(a + [c] + b) && a + b != []
    ensures var ring, x := a + [c] + b, b + a;
            && (ring[0] == c <==> a == []) && (ring[|ring| - 1] == c <==> b == [])
            && x[0] in a + b && x[0] == (if b == [] then a[0] else b[0])
            && (if a == [] then b[|b| - 1] else a[|a| - 1]) in a + b
  {
    var ring := a + [c] + b;
    assert ring[|a|] == c;
  }

  lemma RotatedDistinct(ring: seq<Pid>, i: nat)
    requires NoDuplicates(ring) && i < |ring|
    ensures NoDuplicates([ring[i]] + (ring[i + 1..] + ring[..i]))
  {
    var s := [ring[i]] + (ring[i + 1..] + ring[..i]);
    forall j | 0 <= j < |s|
      ensures s[j] == ring[if j < |ring| - i then i + j else j - (|ring| - i)]
    {
    }
  }

  /** Linking a new process in at the tail. */
  lemma LinkAtTail(next: Links, ring: seq<Pid>, head: Pid, tail: Pid, current: Pid, prev: Pid, len: int, p: Pid)
    requires LinkedRing(next, ring, head, tail, current, prev, len) && p !in ring && p != IDLE
    requires forall q :: q in ring ==> q < p
    ensures LinkedRing(next[p := head][tail := p], ring + [p], head, p, current, if prev == tail then p else prev, len + 1)
    ensures next[prev] == next[p := head][tail := p][if prev == tail then p else prev]
  {
    hide Cycle;
    AscendingDistinct(ring);
    Append(next, ring, p);
    CycleAt(next, ring, |ring| - 1);
    var i := IndexOf(ring, prev);
    CycleAt(next, ring, i);
    assert (ring + [p])[0] == ring[0];
    assert forall j :: 0 <= j < |ring| ==> ring[j] in ring;
  }

  class Machine {
    var pcbs: map<Pid, PCB>
    var next: Links
    var head: Pid
    var tail: Pid
    var current: Pid
    var prev: Pid
    var len: int
    var quantumsLeft: int
    var semArray: seq<Semaphore>
    var freedPositions: seq<nat>
    var sleepList: seq<Sleeper>
    var pid: nat
    /** the semaphores whose lock word is 1 */
    var locked: set<nat>
    ghost var ring: seq<Pid>

    ghost predicate Linked()
      reads this
    {
      LinkedRing(next, ring, head, tail, current, prev, len)
    }

    /** The state the specification talks about. */
    ghost function State(): Kernel
      requires prev in next
      reads this
    {
      Kernel(pcbs, ring, next[prev], current == IDLE, quantumsLeft, semArray, freedPositions, sleepList, pid)
    }

    /** Inside a kernel call, ready for a context switch: no lock is held. */
    ghost predicate Serving()
      reads this
    {
      Linked() && prev in next && Steady(State()) && locked == {}
    }

    /** Whenever user code runs. */
    ghost predicate Valid()
      reads this
    {
      Linked() && prev in next && Inv(State()) && locked == {}
    }

    /** The current process is not on its way to stop. */
    ghost predicate CurrentGoesOn()
      reads this
    {
      current !in pcbs || !Waiting(pcbs[current].state)
    }

    /** createUserModuleProcess: the first process, and then the speaker's semaphore and process. */
    constructor (values: seq<nat>)
      ensures Valid() && State() == Boot(values)
    {
      pcbs := map[0 := FRESH];
      next := map[0 := 0];
      head, tail, current, prev, len := 0, 0, 0, 0, 1;
      quantumsLeft := 0;
      semArray := Semaphores(values + [0]);
      freedPositions, sleepList := [], [];
      pid := 1;
      locked := {};
      ring := [0];
      new;
      assert ring + [ring[0]] == [0, 0] && [0, 0][1..] == [0];
      hide WaitInv, HeapsOk, OneRunning, Cycle, Path, SleepersOk, SemsOk, RingOk, Boot;
      FirstProcess(values);
      AddPCB();
    }

    /** addPCB for a new process. */
    method AddPCB()
      requires Serving()
      modifies this
      ensures Serving() && State() == KernelSpec.CreateProcess(old(State())) && current == old(current)
    {
      hide Cycle, LinkedRing, WaitInv, SemsOk, SleepersOk, HeapsOk, OneRunning;
      CreateProcessKeeps(State());
      NewPid(State());
      LinkAtTail(next, ring, head, tail, current, prev, len, pid);
      var node := pid;
      pcbs := pcbs[node := FRESH];
      pid := pid + 1;
      if prev == tail {
        prev := node;
      }
      next := next[node := head][tail := node];
      tail := node;
      len := len + 1;
      ring := ring + [node];
    }

    /** A new process, created by the running one. */
    method CreateProcess()
      requires Valid() && current != IDLE
      modifies this
      ensures Valid() && State() == Step(old(State()), Create)
    {
      hide LinkedRing, WaitInv, SemsOk, SleepersOk, HeapsOk, OneRunning, KernelSpec.Schedule, Cycle, Ascending;
      StepSettles(State(), Create);
      AtIsCurrent(next, ring, head, tail, current, prev, len);
      NewPid(State());
      AddPCB();
    }

    method ChangePriority(p: Pid, newPriority: int) returns (changed: bool)
      requires Valid() && current != IDLE
      modifies this
      ensures Valid() && State() == Step(old(State()), Priority(p, newPriority))
      ensures changed <==> 1 <= newPriority <= 9 && p in old(pcbs)
    {
      hide LinkedRing, WaitInv, SemsOk, SleepersOk, HeapsOk, OneRunning, KernelSpec.Schedule, Cycle, Ascending;
      StepSettles(State(), Priority(p, newPriority));
      if newPriority <= 0 || newPriority > 9 { return false; }
      changed := GetPCBByPid(p);
      if changed {
        pcbs := pcbs[p := pcbs[p].(priority := newPriority)];
      }
    }

    /** Removes the current process from the ring and frees it; never the last one. */
    method FreeCurrentProcess()
      requires Linked() && current != IDLE && current in pcbs && |ring| > 1
      modifies this
      ensures Linked() && current == old(next)[old(current)] && prev == old(prev)
      ensures ring == Keep(old(ring), {old(current)}) && pcbs == old(pcbs) - {old(current)}
      ensures quantumsLeft == old(quantumsLeft) && semArray == old(semArray) && freedPositions == old(freedPositions)
      ensures sleepList == old(sleepList) && pid == old(pid) && locked == old(locked)
    {
      hide Cycle, Ascending, Keep, LinkedRing;
      HeadIsNotTail(next, ring, head, tail, current, prev, len);
      if head == tail {
        return;
      }
      UnlinkCurrent(next, ring, head, tail, current, prev);
      var toRemove := current;
      current := next[toRemove];
      next := next[prev := current];
      if head == toRemove {
        head := current;
      } else if tail == toRemove {
        tail := prev;
      }
      pcbs := pcbs - {toRemove};
      next := next - {toRemove};
      len := len - 1;
      assert next == (old(next) - {toRemove})[prev := current];
      ring := Keep(ring, {toRemove});
    }

    method NextPCB()
      requires Linked() && prev in next
      modifies this`current, this`prev
      ensures Linked() && prev in next && current != IDLE
      ensures if old(current) == IDLE then current == next[prev] && prev == old(prev)
              else prev == old(current) && current == next[prev]
    {
      hide LinkedRing, Cycle;
      StepLinks(next, ring, head, tail, current, prev, len);
      if current == IDLE {
        current := next[prev];
      } else {
        prev := current;
        current := next[current];
      }
    }

    /** The scheduler: spends a quantum, or scans the ring for another process. */
    method Schedule()
      requires Serving()
      modifies this
      ensures Valid() && State() == KernelSpec.Schedule(old(State()))
    {
      hide LinkedRing, Cycle, WaitInv, SemsOk, SleepersOk, HeapsOk, OneRunning, Dispatch;
      AtIsCurrent(next, ring, head, tail, current, prev, len);
      ScheduleKeeps(State());
      PreemptKeeps(State());
      if current != IDLE && quantumsLeft > 0 && pcbs[current].state == Running {
        quantumsLeft := quantumsLeft - 1;
        return;
      } else if current != IDLE && pcbs[current].state == Running {
        pcbs := pcbs[current := pcbs[current].(state := Ready)];
      }
      if current == IDLE {
        NextPCB();
      }
      Scan();
    }

    /** The loop of schedule: from the node after the current one round to it, run the first
        ready process; reap exited processes on the way, except the one it started from; with
        nothing ready, run the idle process. */
    method Scan()
      requires Serving() && current != IDLE && !CurrentIsRunning(State())
      modifies this
      ensures Valid() && State() == Dispatch(old(State()))
    {
      hide LinkedRing, Cycle, WaitInv, SemsOk, SleepersOk, HeapsOk, OneRunning, ScanOrder, Scanned, FirstReady, Keep, Ascending;
      ghost var k0 := State();
      AtIsCurrent(next, ring, head, tail, current, prev, len);
      DispatchKeeps(k0);
      var ogCurrent := current;
      ghost var order := ScanOrder(k0.ring, k0.at);
      ghost var m := 0;
      ScanStarts(next, k0, head, tail, current, prev, len);
      NextPCB();
      while true
        invariant m < |order| && current == order[m] && current != IDLE && Linked() && prev in next
        invariant Scanned(k0, pcbs, ring, m)
        invariant quantumsLeft == k0.quantum && semArray == k0.sems && freedPositions == k0.freed
        invariant sleepList == k0.sleepers && pid == k0.nextPid && locked == {}
        decreases |order| - m
      {
        AtIsCurrent(next, ring, head, tail, current, prev, len);
        ScanHere(next, k0, pcbs, ring, head, tail, current, prev, len, m);
        if pcbs[current].state == Ready {
          ScanFinds(k0, pcbs, ring, m);
          pcbs := pcbs[current := pcbs[current].(state := Running)];
          quantumsLeft := pcbs[current].priority - 1;
          return;
        } else if current == ogCurrent {
          current := IDLE;
          GoesToIdle(next, ring, head, tail, ogCurrent, prev, len);
          ScanFails(k0, pcbs, ring, m);
          return;
        } else if pcbs[current].state == Exited {
          FreeCurrentProcess();
        } else {
          NextPCB();
        }
        AtIsCurrent(next, ring, head, tail, current, prev, len);
        m := m + 1;
      }
    }

    /** A process list lookup that stops at the first larger pid: the ring is sorted by pid. */
    method GetPCBByPid(p: Pid) returns (found: bool)
      requires Serving()
      ensures found <==> p in pcbs
    {
      hide Cycle, WaitInv, SemsOk, SleepersOk, HeapsOk, OneRunning;
      var node := head;
      ghost var i := 0;
      CycleAt(next, ring, 0);
      while true
        invariant i < |ring| && node == ring[i] && forall j :: 0 <= j < i ==> ring[j] != p
        decreases |ring| - i
      {
        if node == p {
          assert ring[i] in ring;
          return true;
        }
        CycleAt(next, ring, i);
        node := next[node];
        if !(node <= p && node != head) {
          NotFound(ring, i, p);
          return false;
        }
        FirstIsHead(ring, i);
        i := i + 1;
      }
    }

    /** exitProcessByPCB without its context switch; `own` says whether there is one to make: only
        for the current process itself. The nested calls never ask for one. Of the processes waiting
        for this one, `rest` are those an outer call has still to deal with. */
    method ExitProcessByPCB(p: Pid, exitCode: int, ghost hand: seq<Pid>, ghost rest: seq<Pid>) returns (own: bool)
      requires Linked() && prev in next && p in pcbs && WaitInv(State(), hand)
      requires hand == if pcbs[p].state == WaitingForExit then [p] + rest else rest
      requires CurrentGoesOn()
      modifies this`pcbs
      ensures State() == ExitProcess(old(State()), p, exitCode) && WaitInv(State(), rest)
      ensures Linked() && prev in next && CurrentGoesOn()
      ensures own <==> p == current && old(pcbs)[p].state != Exited
      decreases |Alive(State())|
    {
      hide LinkedRing, WaitInv, ReleaseWaiters, Alive, PidsOf, ExitProcess;
      own := false;
      ghost var k0 := State();
      ExitKeeps(k0, p, exitCode, hand, rest);
      ExitCases(k0, p, exitCode);
      if pcbs[p].state == Exited {
        return;
      }
      if pcbs[p].state == Blocked {
        pcbs := pcbs[p := pcbs[p].(state := WaitingForExit, heapFreed := true)];
        own := p == current;
        return;
      }
      pcbs := pcbs[p := pcbs[p].(state := Exited)];
      ghost var table := pcbs[p].waitingForMe;
      ghost var ws := Waiters(table, exitCode);
      ghost var goal := ReleaseWaiters(State(), ws);
      assert State() == SetState(k0, p, Exited);
      ExitStarts(k0, p, exitCode, hand, rest);
      var i := 0;
      assert ws[0..] == ws;
      while i < |pcbs[p].waitingForMe|
        invariant Linked() && prev in next && p in pcbs && pcbs[p].waitingForMe == table && i <= |table|
        invariant State() == k0.(procs := pcbs)
        invariant ReleaseWaiters(State(), ws[i..]) == goal
        invariant WaitInv(State(), PidsOf(ws[i..]) + rest) && CurrentGoesOn()
        invariant |Alive(State())| < |Alive(k0)|
      {
        ghost var k := State();
        var pcb2 := pcbs[p].waitingForMe[i];
        ghost var more := PidsOf(ws[i + 1..]) + rest;
        NextWaiter(k, p, ws, i, rest);
        if pcbs[pcb2].state == Blocked {
          pcbs := pcbs[pcb2 := pcbs[pcb2].(state := Ready, waitedExitCode := exitCode)];
        } else if pcbs[pcb2].state == WaitingForExit {
          var nested := ExitProcessByPCB(pcb2, KILL_EXIT_CODE, [pcb2] + more, more);
          assert !nested;
        }
        i := i + 1;
      }
      assert ws[i..] == [];
      ReleaseNothing(State());
      own := p == current;
    }

    /** What every queue does with the process it has just let go of: readyProcess for a blocked
        one, exitProcessByPCB for one that was killed meanwhile. That exit makes no context switch,
        so a lock the caller holds stays with the caller. */
    method LetGoOf(p: Pid, ghost rest: seq<Pid>)
      requires Linked() && prev in next && WaitInv(State(), [p] + rest) && CurrentGoesOn()
      modifies this`pcbs
      ensures Linked() && prev in next && State() == LetGo(old(State()), p) && WaitInv(State(), rest) && CurrentGoesOn()
    {
      hide LinkedRing, WaitInv, ExitProcess;
      HeadWaits(State(), p, rest);
      LetGoKeeps(State(), p, rest);
      if pcbs[p].state == Blocked {
        pcbs := pcbs[p := pcbs[p].(state := Ready)];
      } else if pcbs[p].state == WaitingForExit {
        var own := ExitProcessByPCB(p, KILL_EXIT_CODE, [p] + rest, rest);
        assert !own;
      }
    }

    // -------------------------------------------------------------- the lock of a semaphore

    /** The exchange of _enter_region; `spins` says that the lock was taken, and that the region has
        to be tried again after a context switch. */
    method EnterRegion(id: nat) returns (spins: bool)
      modifies this`locked
      ensures locked == old(locked) + {id} && (spins <==> id in old(locked))
    {
      spins := id in locked;
      locked := locked + {id};
    }

    method LeaveRegion(id: nat)
      modifies this`locked
      ensures locked == old(locked) - {id}
    {
      locked := locked - {id};
    }

    // -------------------------------------------------------------- kernel calls

    method WaitSemaphore(id: int)
      requires Valid() && current != IDLE
      modifies this
      ensures Valid() && State() == Step(old(State()), Wait(id))
    {
      hide LinkedRing, WaitInv, Steady, KernelSpec.Schedule;
      AtIsCurrent(next, ring, head, tail, current, prev, len);
      StepSettles(State(), Wait(id));
      WaitSemaphoreKeeps(State(), id);
      if id < 0 || |semArray| <= id || semArray[id].destroyed {
        return;
      }
      var spins := EnterRegion(id);
      assert !spins;
      if semArray[id].value > 0 {
        semArray := semArray[id := semArray[id].(value := semArray[id].value - 1)];
        LeaveRegion(id);
      } else {
        semArray := semArray[id := semArray[id].(queue := semArray[id].queue + [current])];
        LeaveRegion(id);
        pcbs := pcbs[current := pcbs[current].(state := Blocked)];
        Schedule();
      }
    }

    /** Also called by the keyboard interrupt, whatever process it finds. */
    method PostSemaphore(id: int)
      requires Valid()
      modifies this
      ensures Valid() && State() == Step(old(State()), Post(id))
    {
      hide LinkedRing, WaitInv, Steady, KernelSpec.Schedule, LetGo, PostLoop, SemsOk;
      ghost var k0 := State();
      AtIsCurrent(next, ring, head, tail, current, prev, len);
      StepSettles(k0, Post(id));
      InsideCall(k0);
      if id < 0 || |semArray| <= id || semArray[id].destroyed {
        return;
      }
      PostNeedsNoSwitch(k0, id);
      var spins := EnterRegion(id);
      assert !spins;
      var shouldLeave := false;
      while !shouldLeave
        invariant Linked() && prev in next && id < |semArray| && CurrentGoesOn() && locked == {id}
        invariant if shouldLeave then State() == PostLoop(k0, id)
                  else PostLoop(State(), id) == PostLoop(k0, id) && QueueReady(State(), id)
        decreases !shouldLeave, |semArray[id].queue|
      {
        PostStep(State(), id);
        if semArray[id].queue != [] {
          var toReady := semArray[id].queue[0];
          shouldLeave := IsIn(pcbs, toReady, Blocked);
          semArray := semArray[id := semArray[id].(queue := semArray[id].queue[1..])];
          LetGoOf(toReady, []);
        } else {
          semArray := semArray[id := semArray[id].(value := semArray[id].value + 1)];
          shouldLeave := true;
        }
      }
      LeaveRegion(id);
    }

    method DestroySemaphore(id: int)
      requires Valid() && current != IDLE
      modifies this
      ensures Valid() && State() == Step(old(State()), Destroy(id))
    {
      hide LinkedRing, WaitInv, Steady, KernelSpec.Schedule, LetGo, DrainLoop, SemsOk;
      ghost var k0 := State();
      AtIsCurrent(next, ring, head, tail, current, prev, len);
      StepSettles(k0, Destroy(id));
      InsideCall(k0);
      if id < 0 || |semArray| <= id || semArray[id].destroyed {
        return;
      }
      DrainStaysRunning(k0, id);
      var spins := EnterRegion(id);
      assert !spins;
      while semArray[id].queue != []
        invariant Linked() && prev in next && id < |semArray| && CurrentGoesOn() && locked <= {id}
        invariant DrainLoop(State(), id) == DrainLoop(k0, id) && QueueReady(State(), id)
        decreases |semArray[id].queue|
      {
        DrainStep(State(), id);
        var toReady := semArray[id].queue[0];
        semArray := semArray[id := semArray[id].(queue := semArray[id].queue[1..])];
        LeaveRegion(id);
        LetGoOf(toReady, []);
      }
      DrainStep(State(), id);
      LeaveRegion(id);
      semArray := semArray[id := semArray[id].(destroyed := true)];
      freedPositions := freedPositions + [id];
    }

    method SemInit(initialValue: nat) returns (id: nat)
      requires Valid() && current != IDLE
      modifies this
      ensures Valid() && State() == Step(old(State()), Init(initialValue))
      ensures id < |semArray| && semArray[id] == Semaphore(initialValue, [], false)
    {
      hide LinkedRing, WaitInv, Steady, KernelSpec.Schedule;
      AtIsCurrent(next, ring, head, tail, current, prev, len);
      StepSettles(State(), Init(initialValue));
      if freedPositions != [] {
        id := freedPositions[|freedPositions| - 1];
        freedPositions := freedPositions[..|freedPositions| - 1];
        semArray := semArray[id := Semaphore(initialValue, [], false)];
      } else {
        id := |semArray|;
        semArray := semArray + [Semaphore(initialValue, [], false)];
      }
    }

    /** sleep, with the milliseconds already turned into ticks. */
    method Sleep(initialTicks: nat)
      requires Valid() && current != IDLE
      modifies this
      ensures Valid() && State() == Step(old(State()), SleepFor(initialTicks))
    {
      hide LinkedRing, WaitInv, Steady, KernelSpec.Schedule;
      AtIsCurrent(next, ring, head, tail, current, prev, len);
      StepSettles(State(), SleepFor(initialTicks));
      SleepKeeps(State(), initialTicks);
      if initialTicks > 0 {
        sleepList := [Sleeper(current, initialTicks)] + sleepList;
        pcbs := pcbs[current := pcbs[current].(state := Blocked)];
        Schedule();
      }
    }

    method WaitPid(p: Pid)
      requires Valid() && current != IDLE && (p in pcbs ==> |pcbs[p].waitingForMe| < MAX_WAITERS)
      modifies this
      ensures Valid() && State() == Step(old(State()), WaitFor(p))
    {
      hide LinkedRing, WaitInv, SemsOk, SleepersOk, HeapsOk, OneRunning, KernelSpec.Schedule, Cycle, Ascending;
      AtIsCurrent(next, ring, head, tail, current, prev, len);
      StepSettles(State(), WaitFor(p));
      WaitPidKeeps(State(), p);
      if p == current {
        return;
      }
      var found := GetPCBByPid(p);
      if !found || pcbs[p].state == Exited {
        return;
      }
      pcbs := pcbs[p := pcbs[p].(waitingForMe := pcbs[p].waitingForMe + [current])];
      pcbs := pcbs[current := pcbs[current].(state := Blocked)];
      Schedule();
    }

    /** kill: refused for pid 0, for unknown pids and for processes that have been killed already. */
    method Kill(p: Pid) returns (killed: bool)
      requires Valid() && current != IDLE
      modifies this
      ensures Valid() && State() == Step(old(State()), KillPid(p))
      ensures killed <==> p != 0 && p in old(pcbs) && !(old(pcbs)[p].state in {Exited, WaitingForExit})
    {
      hide LinkedRing, WaitInv, SemsOk, SleepersOk, HeapsOk, OneRunning, KernelSpec.Schedule, Cycle, Ascending, ExitProcess;
      ghost var k0 := State();
      AtIsCurrent(next, ring, head, tail, current, prev, len);
      StepSettles(k0, KillPid(p));
      KillKeeps(k0, p);
      if p == 0 {
        return false;
      }
      var found := GetPCBByPid(p);
      if !found || pcbs[p].state == Exited || pcbs[p].state == WaitingForExit {
        return false;
      }
      ExitSwitches(k0, p, KILL_EXIT_CODE);
      var own := ExitProcessByPCB(p, KILL_EXIT_CODE, [], []);
      if p == current {
        Schedule();
      }
      return true;
    }

    /** exitCurrentProcess */
    method ExitCurrentProcess(exitCode: int)
      requires Valid() && current != IDLE
      modifies this
      ensures Valid() && State() == Step(old(State()), Exit(exitCode))
    {
      hide LinkedRing, WaitInv, SemsOk, SleepersOk, HeapsOk, OneRunning, KernelSpec.Schedule, ExitProcess;
      ghost var k0 := State();
      AtIsCurrent(next, ring, head, tail, current, prev, len);
      StepSettles(k0, Exit(exitCode));
      ExitKeepsSteady(k0, current, exitCode);
      ExitSwitches(k0, current, exitCode);
      var own := ExitProcessByPCB(current, exitCode, [], []);
      Schedule();
    }

    /** The Ctrl-C key for the process in the foreground. */
    method KillForeground(p: Pid)
      requires Valid() && p in pcbs && pcbs[p].state != WaitingForExit
      modifies this
      ensures Valid() && State() == Step(old(State()), CtrlC(p))
    {
      hide LinkedRing, WaitInv, SemsOk, SleepersOk, HeapsOk, OneRunning, KernelSpec.Schedule, ExitProcess;
      ghost var k0 := State();
      if p == 0 {
        return;
      }
      InsideCall(k0);
      AtIsCurrent(next, ring, head, tail, current, prev, len);
      ExitKeepsSteady(k0, p, KILL_EXIT_CODE);
      var own := ExitProcessByPCB(p, KILL_EXIT_CODE, [], []);
      Schedule();
    }

    method BlockByUser(p: Pid)
      requires Valid() && current != IDLE
      modifies this
      ensures Valid() && State() == Step(old(State()), Block(p))
    {
      hide LinkedRing, WaitInv, SemsOk, SleepersOk, HeapsOk, OneRunning, KernelSpec.Schedule, Cycle, Ascending;
      AtIsCurrent(next, ring, head, tail, current, prev, len);
      StepSettles(State(), Block(p));
      BlockByUserKeeps(State(), p);
      var found := GetPCBByPid(p);
      if found && (pcbs[p].state == Ready || pcbs[p].state == Running) {
        pcbs := pcbs[p := pcbs[p].(state := BlockedByUser)];
        if p == current {
          Schedule();
        }
      }
    }

    method Unblock(p: Pid)
      requires Valid() && current != IDLE
      modifies this
      ensures Valid() && State() == Step(old(State()), UnblockPid(p))
    {
      hide LinkedRing, WaitInv, SemsOk, SleepersOk, HeapsOk, OneRunning, KernelSpec.Schedule, Cycle, Ascending;
      AtIsCurrent(next, ring, head, tail, current, prev, len);
      StepSettles(State(), UnblockPid(p));
      var found := GetPCBByPid(p);
      if found && pcbs[p].state == BlockedByUser {
        pcbs := pcbs[p := pcbs[p].(state := Ready)];
      }
    }

    method Yield()
      requires Valid() && current != IDLE
      modifies this
      ensures Valid() && State() == Step(old(State()), Event.Yield)
    {
      hide LinkedRing, WaitInv, SemsOk, SleepersOk, HeapsOk, OneRunning, KernelSpec.Schedule;
      AtIsCurrent(next, ring, head, tail, current, prev, len);
      YieldKeeps(State());
      pcbs := pcbs[current := pcbs[current].(state := Ready)];
      Schedule();
    }

    /** The F2 key: a bare context switch, whoever is running. */
    method SwitchByKey()
      requires Valid()
      modifies this
      ensures Valid() && State() == Step(old(State()), SwitchKey)
    {
      hide LinkedRing, WaitInv, SemsOk, SleepersOk, HeapsOk, OneRunning, KernelSpec.Schedule;
      Schedule();
    }

    /** The timer interrupt: schedule, then count down the sleepers. */
    method TimerTick()
      requires Valid()
      modifies this
      ensures Valid() && State() == Step(old(State()), Tick)
    {
      hide LinkedRing, WaitInv, Steady, KernelSpec.Schedule, TickLoop;
      Schedule();
      IncTicks();
    }

    /** incTicks: every entry is blocked or was killed, so each round of the loop moves on. */
    method IncTicks()
      requires Valid()
      modifies this`pcbs, this`sleepList
      ensures Valid() && State() == TickLoop(old(State()), 0)
    {
      hide LinkedRing, WaitInv, Steady, LetGo, TickLoop, SleepersOk;
      ghost var k0 := State();
      IncTicksKeeps(k0);
      InsideCall(k0);
      AtIsCurrent(next, ring, head, tail, current, prev, len);
      var i := 0;
      while i < |sleepList|
        invariant Linked() && prev in next && i <= |sleepList|
        invariant TickLoop(State(), i) == TickLoop(k0, 0) && WaitInv(State(), []) && SleepersOk(State()) && CurrentGoesOn()
        decreases |sleepList| - i
      {
        ghost var k := State();
        TickStep(k, i);
        var p := sleepList[i].pid;
        if pcbs[p].state == Blocked {
          sleepList := sleepList[i := sleepList[i].(ticks := sleepList[i].ticks - 1)];
          if sleepList[i].ticks == 0 {
            pcbs := pcbs[p := pcbs[p].(state := Ready)];
            sleepList := sleepList[..i] + sleepList[i + 1..];
          } else {
            i := i + 1;
          }
        } else if pcbs[p].state == WaitingForExit {
          sleepList := sleepList[..i] + sleepList[i + 1..];
          LetGoOf(p, []);
        }
      }
      TickDone(State());
    }
  }

  /** The kernel with its first process alone, and what a second process makes of it. */
  lemma FirstProcess(values: seq<nat>)
    ensures var k := Kernel(map[0 := FRESH], [0], 0, false, 0, Semaphores(values + [0]), [], [], 1);
            Inv(k) && KernelSpec.CreateProcess(k) == Boot(values)
  {
    var k := Kernel(map[0 := FRESH], [0], 0, false, 0, Semaphores(values + [0]), [], [], 1);
    BootInv(k);
  }

  /** The parts of the invariant that a loop over a queue keeps. */
  ghost predicate QueueReady(k: Kernel, id: nat) {
    WaitInv(k, []) && SemsOk(k) && SemOpen(k, id)
  }

  lemma InsideCall(k: Kernel)
    requires Inv(k)
    ensures WaitInv(k, []) && SemsOk(k) && SleepersOk(k)
    ensures IDLE !in k.procs && (!k.idle ==> k.at in k.procs && !Waiting(k.procs[k.at].state))
  {
  }

  /** Whoever runs goes on after a post. */
  lemma PostNeedsNoSwitch(k: Kernel, id: nat)
    requires Inv(k) && SemOpen(k, id)
    ensures var r := PostLoop(k, id); r.ring == k.ring && r.at == k.at && r.idle == k.idle && (r.idle || CurrentRuns(r))
  {
    hide WaitInv, PostLoop;
    PostLoopSettles(k, id);
    PostLoopFrame(k, id);
  }

  lemma DrainStaysRunning(k: Kernel, id: nat)
    requires Inv(k) && SemOpen(k, id) && !k.idle
    ensures CurrentRuns(DrainLoop(k, id)) && DrainLoop(k, id).ring == k.ring && DrainLoop(k, id).at == k.at
    ensures DrainLoop(k, id).freed == k.freed
  {
    hide WaitInv, DrainLoop;
    DrainLoopSettles(k, id);
    DrainLoopFrame(k, id);
  }

  lemma PostStep(k: Kernel, id: nat)
    requires QueueReady(k, id)
    ensures var queue := k.sems[id].queue;
            if queue == [] then PostLoop(k, id) == SetSem(k, id, k.sems[id].(value := k.sems[id].value + 1))
            else
              var next := LetGo(Dequeue(k, id), queue[0]);
              && WaitInv(Dequeue(k, id), [queue[0]] + [])
              && QueueReady(next, id) && |next.sems[id].queue| < |queue|
              && PostLoop(k, id) == if IsIn(k.procs, queue[0], Blocked) then next else PostLoop(next, id)
  {
    hide WaitInv, LetGo, SemsOk;
    if k.sems[id].queue != [] {
      DequeueKeeps(k, id);
      DequeueLetGo(k, id);
    }
  }

  lemma DrainStep(k: Kernel, id: nat)
    requires QueueReady(k, id)
    ensures var queue := k.sems[id].queue;
            if queue == [] then DrainLoop(k, id) == k
            else
              var next := LetGo(Dequeue(k, id), queue[0]);
              && WaitInv(Dequeue(k, id), [queue[0]] + [])
              && QueueReady(next, id) && |next.sems[id].queue| < |queue|
              && DrainLoop(k, id) == DrainLoop(next, id)
  {
    hide WaitInv, LetGo, SemsOk;
    if k.sems[id].queue != [] {
      DequeueKeeps(k, id);
      DequeueLetGo(k, id);
    }
  }

  /** After an exit the current process still runs, unless it is the one that exited. */
  lemma ExitSwitches(k: Kernel, p: Pid, code: int)
    requires Inv(k) && !k.idle && p in k.procs && k.procs[p].state != Exited && k.procs[p].state != WaitingForExit
    ensures var r := ExitProcess(k, p, code);
            r.ring == k.ring && r.at == k.at && r.idle == k.idle && (CurrentRuns(r) <==> p != k.at)
  {
    hide ReleaseWaiters, WaitInv;
    ReleaseFrame(SetState(k, p, Exited), Waiters(k.procs[p].waitingForMe, code));
  }

  lemma TickDone(k: Kernel)
    ensures TickLoop(k, |k.sleepers|) == k
  {
  }

  lemma StepSettles(k: Kernel, e: Event)
    requires Inv(k) && Allowed(k, e) && e != Tick && !Switches(e)
    ensures k.at in k.procs && (k.freed != [] ==> k.freed[|k.freed| - 1] < |k.sems|) && Call(k, e).at in Call(k, e).ring
    ensures Step(k, e) == Settle(Call(k, e))
    ensures Inv(Settle(Call(k, e)))
  {
    hide WaitInv, SemsOk, SleepersOk, HeapsOk, OneRunning, Call, KernelSpec.Schedule;
    CallKeeps(k, e);
  }

  lemma ExitCases(k: Kernel, p: Pid, code: int)
    requires p in k.procs
    ensures k.procs[p].state == Exited ==> ExitProcess(k, p, code) == k
    ensures k.procs[p].state == Blocked ==>
              ExitProcess(k, p, code) == k.(procs := k.procs[p := k.procs[p].(state := WaitingForExit, heapFreed := true)])
  {
  }

  /** Where the loop over waitingForMe starts. */
  lemma ExitStarts(k0: Kernel, p: Pid, code: int, hand: seq<Pid>, rest: seq<Pid>)
    requires p in k0.procs && k0.procs[p].state != Exited && k0.procs[p].state != Blocked && WaitInv(k0, hand)
    requires hand == if k0.procs[p].state == WaitingForExit then [p] + rest else rest
    ensures var k1, ws := SetState(k0, p, Exited), Waiters(k0.procs[p].waitingForMe, code);
            && ExitProcess(k0, p, code) == ReleaseWaiters(k1, ws)
            && WaitInv(k1, PidsOf(ws[0..]) + rest) && |Alive(k1)| < |Alive(k0)|
  {
    hide WaitInv, ReleaseWaiters;
    var ws := Waiters(k0.procs[p].waitingForMe, code);
    assert ws[0..] == ws;
    ExitsToHand(k0, p, hand, rest);
    assert PidsOf(ws) == k0.procs[p].waitingForMe;
    assert Alive(SetState(k0, p, Exited)) == Alive(k0) - {p};
  }

  lemma {:induction false} ReleaseAppend(k: Kernel, a: seq<Waiter>, b: seq<Waiter>)
    ensures ReleaseWaiters(k, a + b) == ReleaseWaiters(ReleaseWaiters(k, a), b)
    decreases |Alive(k)|, |a|
  {
    hide ReleaseWaiters, Alive;
    if a == [] {
      assert a + b == b;
      ReleaseNothing(k);
    } else {
      var w, rest := a[0], a[1..];
      assert (a + b)[0] == w && (a + b)[1..] == rest + b;
      ReleaseUnfold(k, a + b);
      ReleaseUnfold(k, a);
      if IsIn(k.procs, w.pid, Blocked) {
        ReleaseAppend(Wake(k, w.pid, w.code), rest, b);
      } else if IsIn(k.procs, w.pid, WaitingForExit) {
        var mine := Waiters(k.procs[w.pid].waitingForMe, KILL_EXIT_CODE);
        Assoc(mine, rest, b);
        ReleaseAppend(SetState(k, w.pid, Exited), mine + rest, b);
      } else {
        ReleaseAppend(k, rest, b);
      }
    }
  }

  lemma Assoc(a: seq<Waiter>, b: seq<Waiter>, c: seq<Waiter>)
    ensures a + (b + c) == (a + b) + c
  {
  }

  /** One round of the loop over waitingForMe, in the specification's terms. */
  lemma NextWaiter(k: Kernel, p: Pid, ws: seq<Waiter>, i: nat, rest: seq<Pid>)
    requires p in k.procs && i < |ws| && WaitInv(k, PidsOf(ws[i..]) + rest)
    ensures var w, more := ws[i], PidsOf(ws[i + 1..]) + rest;
            && Waits(k, w.pid)
            && PidsOf(ws[i..]) + rest == [w.pid] + more
            && WaitInv(k, [w.pid] + more)
            && (k.procs[w.pid].state == Blocked ==>
                  && ReleaseWaiters(Wake(k, w.pid, w.code), ws[i + 1..]) == ReleaseWaiters(k, ws[i..])
                  && WaitInv(Wake(k, w.pid, w.code), more)
                  && |Alive(Wake(k, w.pid, w.code))| == |Alive(k)|)
            && (k.procs[w.pid].state == WaitingForExit ==>
                  && ReleaseWaiters(ExitProcess(k, w.pid, KILL_EXIT_CODE), ws[i + 1..]) == ReleaseWaiters(k, ws[i..])
                  && |Alive(ExitProcess(k, w.pid, KILL_EXIT_CODE))| <= |Alive(k)|
                  && ExitProcess(k, w.pid, KILL_EXIT_CODE) == k.(procs := ExitProcess(k, w.pid, KILL_EXIT_CODE).procs)
                  && p in ExitProcess(k, w.pid, KILL_EXIT_CODE).procs
                  && ExitProcess(k, w.pid, KILL_EXIT_CODE).procs[p].waitingForMe == k.procs[p].waitingForMe)
  {
    hide WaitInv, ReleaseWaiters, Alive;
    var w, more := ws[i], PidsOf(ws[i + 1..]) + rest;
    var tail := ws[i..];
    assert tail[0] == w && tail[1..] == ws[i + 1..];
    PidsHead(tail);
    assert PidsOf(tail) + rest == [w.pid] + more;
    HeadWaits(k, w.pid, more);
    ReleaseUnfold(k, tail);
    if k.procs[w.pid].state == Blocked {
      WakeKeeps(k, w.pid, w.code, more);
    } else {
      var k1, mine := SetState(k, w.pid, Exited), Waiters(k.procs[w.pid].waitingForMe, KILL_EXIT_CODE);
      ReleaseAppend(k1, mine, ws[i + 1..]);
      ReleaseFrame(k1, mine);
      FewerAlive(k, ReleaseWaiters(k1, mine));
    }
  }

  lemma FewerAlive(k: Kernel, k': Kernel)
    requires k'.procs.Keys == k.procs.Keys
    requires forall p :: p in k.procs && k.procs[p].state == Exited ==> k'.procs[p].state == Exited
    ensures |Alive(k')| <= |Alive(k)|
  {
    assert Alive(k') <= Alive(k) by {
      forall p | p in Alive(k')
        ensures p in Alive(k)
      {
        assert p in k.procs.Keys;
      }
    }
    SubsetSize(Alive(k'), Alive(k));
  }

  lemma SubsetSize(a: set<Pid>, b: set<Pid>)
    requires a <= b
    ensures |a| <= |b|
  {
    assert b == a + (b - a);
  }

  lemma NotFound(ring: seq<Pid>, i: nat, p: Pid)
    requires Ascending(ring) && i < |ring| && (forall j :: 0 <= j <= i ==> ring[j] != p)
    requires i + 1 < |ring| ==> ring[i + 1] > p || ring[i + 1] == ring[0]
    ensures p !in ring
  {
  }

  lemma FirstIsHead(ring: seq<Pid>, i: nat)
    requires i < |ring| && ring[if i + 1 < |ring| then i + 1 else 0] != ring[0]
    ensures i + 1 < |ring|
  {
  }

  /** The first m processes in scan order have been looked at. */
  ghost predicate Scanned(k0: Kernel, procs: map<Pid, PCB>, ring: seq<Pid>, m: nat)
    requires k0.at in k0.ring
  {
    var order := ScanOrder(k0.ring, k0.at);
    && m < |order|
    && ring == Keep(k0.ring, Reaped(k0.procs, order, m))
    && procs == k0.procs - Reaped(k0.procs, order, m)
    && forall i :: 0 <= i < m ==> !IsIn(k0.procs, order[i], Ready)
  }

  lemma ScanStarts(next: Links, k0: Kernel, head: Pid, tail: Pid, current: Pid, prev: Pid, len: int)
    requires LinkedRing(next, k0.ring, head, tail, current, prev, len) && k0.at in k0.ring && current == k0.at
    ensures var order := ScanOrder(k0.ring, k0.at);
            && |order| > 0 && current in next && next[current] == order[0] && Scanned(k0, k0.procs, k0.ring, 0)
  {
    hide Cycle, Keep, Ascending;
    var i := IndexOf(k0.ring, k0.at);
    CycleAt(next, k0.ring, i);
    var order := ScanOrder(k0.ring, k0.at);
    assert Reaped(k0.procs, order, 0) == {};
    KeepAll(k0.ring, {});
    assert k0.procs - {} == k0.procs;
    assert order[0] == if i + 1 < |k0.ring| then k0.ring[i + 1] else k0.ring[0];
  }

  /** What the scan finds at position m: a process of the ring, the starting one only at the end. */
  lemma ScanHere(next: Links, k0: Kernel, procs: map<Pid, PCB>, ring: seq<Pid>, head: Pid, tail: Pid, current: Pid, prev: Pid,
                 len: int, m: nat)
    requires RingOk(k0) && Scanned(k0, procs, ring, m) && LinkedRing(next, ring, head, tail, current, prev, len)
    requires current == ScanOrder(k0.ring, k0.at)[m]
    ensures var order := ScanOrder(k0.ring, k0.at);
            && current in procs && current in k0.procs && procs[current] == k0.procs[current]
            && (current == k0.at <==> m + 1 == |order|)
            && (m + 1 < |order| ==>
                  && |ring| > 1 && current in next && next[current] == order[m + 1] && order[m + 1] != IDLE
                  && (procs[current].state == Exited ==> Scanned(k0, procs - {current}, Keep(ring, {current}), m + 1))
                  && (procs[current].state != Exited && procs[current].state != Ready ==> Scanned(k0, procs, ring, m + 1)))
  {
    hide Cycle, Keep, ScanOrder, Reaped;
    var order := ScanOrder(k0.ring, k0.at);
    var dead := Reaped(k0.procs, order, m);
    ScanVisitsAll(k0.ring, k0.at);
    ScanDistinct(k0.ring, k0.at, m);
    NoneReapedAhead(k0.ring, k0.at, k0.procs, m);
    InSlice(order, m, m);
    InSlice(order, m, |order| - 1);
    KeepMembers(k0.ring, dead);
    if m + 1 < |order| {
      TwoMembers(ring, current, k0.at);
      ScanNext(next, k0.ring, k0.at, k0.procs, m);
      ReapedNext(k0.procs, order, m);
      KeepMore(k0.ring, dead, current);
      assert order[m + 1] in order;
      assert k0.procs - dead - {current} == k0.procs - (dead + {current});
    }
  }

  lemma InSlice(s: seq<Pid>, m: nat, i: nat)
    requires m <= i < |s|
    ensures s[i] in s[m..] && s[i] in s
  {
    var p := s[m..][i - m];
    assert p in s[m..];
  }

  lemma TwoMembers(s: seq<Pid>, p: Pid, q: Pid)
    requires p in s && q in s && p != q
    ensures |s| > 1
  {
    var i :| 0 <= i < |s| && s[i] == p;
    var j :| 0 <= j < |s| && s[j] == q;
    assert i != j;
  }

  lemma {:induction false} FirstReadyIs(procs: map<Pid, PCB>, order: seq<Pid>, m: nat)
    requires m <= |order| && (forall i :: 0 <= i < m ==> !IsIn(procs, order[i], Ready))
    requires m < |order| ==> IsIn(procs, order[m], Ready)
    ensures FirstReady(procs, order) == m
  {
  }

  lemma ScanFinds(k0: Kernel, procs: map<Pid, PCB>, ring: seq<Pid>, m: nat)
    requires k0.at in k0.ring && Scanned(k0, procs, ring, m)
    requires IsIn(k0.procs, ScanOrder(k0.ring, k0.at)[m], Ready)
    ensures var p := ScanOrder(k0.ring, k0.at)[m];
            Dispatch(k0) == k0.(procs := procs[p := k0.procs[p].(state := Running)], ring := ring, at := p, idle := false,
                                quantum := k0.procs[p].priority - 1)
  {
    hide ScanOrder, Reaped, Keep, FirstReady;
    FirstReadyIs(k0.procs, ScanOrder(k0.ring, k0.at), m);
  }

  lemma ScanFails(k0: Kernel, procs: map<Pid, PCB>, ring: seq<Pid>, m: nat)
    requires k0.at in k0.ring && Scanned(k0, procs, ring, m) && m + 1 == |ScanOrder(k0.ring, k0.at)|
    requires !IsIn(k0.procs, k0.at, Ready)
    ensures Dispatch(k0) == k0.(procs := procs, ring := ring, idle := true)
  {
    hide ScanOrder, Reaped, Keep, FirstReady;
    FirstReadyIs(k0.procs, ScanOrder(k0.ring, k0.at), m + 1);
  }

  lemma GoesToIdle(next: Links, ring: seq<Pid>, head: Pid, tail: Pid, current: Pid, prev: Pid, len: int)
    requires LinkedRing(next, ring, head, tail, current, prev, len)
    ensures LinkedRing(next, ring, head, tail, IDLE, prev, len)
  {
  }

  lemma AtIsCurrent(next: Links, ring: seq<Pid>, head: Pid, tail: Pid, current: Pid, prev: Pid, len: int)
    requires LinkedRing(next, ring, head, tail, current, prev, len)
    ensures prev in next && next[prev] in ring && next[prev] != IDLE && (current == IDLE || current == next[prev])
  {
    hide Cycle;
  }

  /** Taking the processor from the current process. */
  lemma PreemptKeeps(k: Kernel)
    requires Steady(k)
    ensures k.at in k.procs
    ensures var k1 := Preempted(k);
            && Steady(k1.(idle := false)) && !CurrentIsRunning(k1.(idle := false))
            && Dispatch(k1) == Dispatch(k1.(idle := false))
  {
    hide WaitInv, Keep, ScanOrder, FirstReady;
    var k1 := Preempted(k);
    SameQueues(k, k1.(idle := false), []);
  }

  lemma NewPid(k: Kernel)
    requires RingOk(k)
    ensures k.nextPid !in k.ring && k.nextPid != IDLE && forall q :: q in k.ring ==> q < k.nextPid
  {
  }

  lemma HeadIsNotTail(next: Links, ring: seq<Pid>, head: Pid, tail: Pid, current: Pid, prev: Pid, len: int)
    requires LinkedRing(next, ring, head, tail, current, prev, len) && |ring| > 1
    ensures head != tail && len == |ring|
  {
    hide Cycle;
  }

  /** One step along the ring keeps it well formed. */
  lemma StepLinks(next: Links, ring: seq<Pid>, head: Pid, tail: Pid, current: Pid, prev: Pid, len: int)
    requires LinkedRing(next, ring, head, tail, current, prev, len)
    ensures prev in next && next[prev] in next && next[prev] != IDLE && next[next[prev]] != IDLE
    ensures current == IDLE || current == next[prev]
    ensures LinkedRing(next, ring, head, tail, next[prev], prev, len)
    ensures LinkedRing(next, ring, head, tail, next[next[prev]], next[prev], len)
  {
    hide Cycle;
    RingLinks(next, ring);
  }

  /** Links lead from ring members to ring members. */
  lemma RingLinks(next: Links, ring: seq<Pid>)
    requires Cycle(next, ring)
    ensures forall p :: p in ring ==> p in next && next[p] in ring
  {
    hide Cycle;
    forall p | p in ring
      ensures p in next && next[p] in ring
    {
      CycleAt(next, ring, IndexOf(ring, p));
    }
  }
}
