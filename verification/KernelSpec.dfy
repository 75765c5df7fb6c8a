/** The kernel's process bookkeeping on values: the process ring, the semaphores, the sleep list
    and the processes waiting for each other, and what every kernel call does to them. */
module KernelSpec {

  type Pid = int

  /** exit code of a killed process, and the longest waitingForMe table */
  const KILL_EXIT_CODE := 1
  const MAX_WAITERS := 10

  datatype State = Ready | Running | Blocked | Exited | WaitingForExit | BlockedByUser

  datatype PCB = PCB(state: State, priority: nat, waitingForMe: seq<Pid>, waitedExitCode: int, heapFreed: bool)

  datatype Semaphore = Semaphore(value: nat, queue: seq<Pid>, destroyed: bool)

  datatype Sleeper = Sleeper(pid: Pid, ticks: nat)

  /** `ring` lists the processes from head to tail. The running process is `at`, unless `idle`:
      then it is the idle process and `at` is the ring node that comes after prev. */
  datatype Kernel = Kernel(procs: map<Pid, PCB>, ring: seq<Pid>, at: Pid, idle: bool, quantum: int,
                           sems: seq<Semaphore>, freed: seq<nat>, sleepers: seq<Sleeper>, nextPid: nat)

  predicate Waiting(s: State) {
    s == Blocked || s == WaitingForExit
  }

  function SetState(k: Kernel, p: Pid, s: State): Kernel
    requires p in k.procs
  {
    k.(procs := k.procs[p := k.procs[p].(state := s)])
  }

  // ---------------------------------------------------------------- exit

  /** A process taken off the table of an exiting one, with the exit code it will be handed. */
  datatype Waiter = Waiter(pid: Pid, code: int)

  function Waiters(pids: seq<Pid>, code: int): (ws: seq<Waiter>)
    ensures |ws| == |pids|
    ensures forall i :: 0 <= i < |pids| ==> ws[i] == Waiter(pids[i], code)
  {
    seq(|pids|, i requires 0 <= i < |pids| => Waiter(pids[i], code))
  }

  function Alive(k: Kernel): set<Pid> {
    set p | p in k.procs && k.procs[p].state != Exited
  }

  function Wake(k: Kernel, p: Pid, code: int): Kernel
    requires p in k.procs
  {
    k.(procs := k.procs[p := k.procs[p].(state := Ready, waitedExitCode := code)])
  }

  /** The loop over waitingForMe: a blocked waiter becomes ready with the code; one that is
      waiting to exit exits, and its own waiters are dealt with before the rest. */
  function ReleaseWaiters(k: Kernel, ws: seq<Waiter>): (r: Kernel)
    decreases |Alive(k)|, |ws|
  {
    if ws == [] then k
    else
      var w, rest := ws[0], ws[1..];
      if w.pid !in k.procs then ReleaseWaiters(k, rest)
      else if k.procs[w.pid].state == Blocked then
        assert Alive(Wake(k, w.pid, w.code)) == Alive(k);
        ReleaseWaiters(Wake(k, w.pid, w.code), rest)
      else if k.procs[w.pid].state == WaitingForExit then
        assert Alive(SetState(k, w.pid, Exited)) == Alive(k) - {w.pid};
        ReleaseWaiters(SetState(k, w.pid, Exited), Waiters(k.procs[w.pid].waitingForMe, KILL_EXIT_CODE) + rest)
      else ReleaseWaiters(k, rest)
  }

  /** exitProcessByPCB, without the context switch. */
  function ExitProcess(k: Kernel, p: Pid, code: int): Kernel
    requires p in k.procs
  {
    if k.procs[p].state == Exited then k
    else if k.procs[p].state == Blocked then
      k.(procs := k.procs[p := k.procs[p].(state := WaitingForExit, heapFreed := true)])
    else ReleaseWaiters(SetState(k, p, Exited), Waiters(k.procs[p].waitingForMe, code))
  }

  // ---------------------------------------------------------------- scheduling

  function IndexOf(s: seq<Pid>, p: Pid): (i: nat)
    requires p in s
    ensures i < |s| && s[i] == p
  {
    if s[0] == p then 0 else 1 + IndexOf(s[1..], p)
  }

  /** The ring in the order schedule scans it: from the node after `at` round to `at` itself. */
  function ScanOrder(ring: seq<Pid>, at: Pid): (order: seq<Pid>)
    requires at in ring
    ensures |order| == |ring| && order[|order| - 1] == at
  {
    var i := IndexOf(ring, at);
    ring[i + 1..] + ring[..i + 1]
  }

  predicate IsIn(procs: map<Pid, PCB>, p: Pid, s: State) {
    p in procs && procs[p].state == s
  }

  /** Index of the first ready process in scan order; |order| if there is none. */
  function FirstReady(procs: map<Pid, PCB>, order: seq<Pid>): (j: nat)
    ensures j <= |order|
    ensures forall i :: 0 <= i < j ==> !IsIn(procs, order[i], Ready)
    ensures j < |order| ==> IsIn(procs, order[j], Ready)
  {
    if order == [] || IsIn(procs, order[0], Ready) then 0 else 1 + FirstReady(procs, order[1..])
  }

  function WithoutExited(procs: map<Pid, PCB>, s: seq<Pid>): seq<Pid> {
    if s == [] then []
    else if IsIn(procs, s[0], Exited) then WithoutExited(procs, s[1..])
    else [s[0]] + WithoutExited(procs, s[1..])
  }

  function Keep(s: seq<Pid>, dead: set<Pid>): seq<Pid> {
    if s == [] then [] else if s[0] in dead then Keep(s[1..], dead) else [s[0]] + Keep(s[1..], dead)
  }

  /** The exited processes among the first j scanned. */
  function Reaped(procs: map<Pid, PCB>, order: seq<Pid>, j: nat): set<Pid>
    requires j <= |order|
  {
    set p | p in order[..j] && IsIn(procs, p, Exited)
  }

  /** The scan of schedule: the first ready process in order runs, or the idle process if none
      is ready; exited processes on the way are removed, but never `at`. */
  function Dispatch(k: Kernel): Kernel
    requires k.at in k.ring
  {
    var order := ScanOrder(k.ring, k.at);
    var j := FirstReady(k.procs, order);
    if j < |order| then
      var dead := Reaped(k.procs, order, j);
      var p := order[j];
      k.(procs := (k.procs - dead)[p := k.procs[p].(state := Running)], ring := Keep(k.ring, dead), at := p, idle := false,
         quantum := k.procs[p].priority - 1)
    else
      var dead := Reaped(k.procs, order, |order| - 1);
      k.(procs := k.procs - dead, ring := Keep(k.ring, dead), idle := true)
  }

  predicate CurrentIsRunning(k: Kernel) {
    !k.idle && IsIn(k.procs, k.at, Running)
  }

  /** The current process gives up the processor. */
  function Preempted(k: Kernel): (r: Kernel)
    ensures r.ring == k.ring && r.at == k.at
  {
    if CurrentIsRunning(k) then SetState(k, k.at, Ready) else k
  }

  function Schedule(k: Kernel): Kernel
    requires k.at in k.ring
  {
    if k.quantum > 0 && CurrentIsRunning(k) then k.(quantum := k.quantum - 1)
    else Dispatch(Preempted(k))
  }

  // ---------------------------------------------------------------- kernel calls

  predicate SemOpen(k: Kernel, id: int) {
    0 <= id < |k.sems| && !k.sems[id].destroyed
  }

  function SetSem(k: Kernel, id: nat, s: Semaphore): Kernel
    requires id < |k.sems|
  {
    k.(sems := k.sems[id := s])
  }

  /** waitSemaphore, up to the context switch of a process that has to block. */
  function WaitSemaphore(k: Kernel, id: int): Kernel
    requires k.at in k.procs
  {
    if !SemOpen(k, id) then k
    else if k.sems[id].value > 0 then SetSem(k, id, k.sems[id].(value := k.sems[id].value - 1))
    else SetState(SetSem(k, id, k.sems[id].(queue := k.sems[id].queue + [k.at])), k.at, Blocked)
  }

  function Dequeue(k: Kernel, id: nat): Kernel
    requires id < |k.sems| && k.sems[id].queue != []
  {
    SetSem(k, id, k.sems[id].(queue := k.sems[id].queue[1..]))
  }

  lemma ExitKeepsSems(k: Kernel, p: Pid, code: int)
    requires p in k.procs
    ensures ExitProcess(k, p, code).sems == k.sems
    ensures ExitProcess(k, p, code).procs.Keys == k.procs.Keys
    ensures ExitProcess(k, p, code) == k.(procs := ExitProcess(k, p, code).procs)
  {
    if k.procs[p].state != Exited && k.procs[p].state != Blocked {
      ReleaseFrame(SetState(k, p, Exited), Waiters(k.procs[p].waitingForMe, code));
    }
  }

  /** Releasing waiters changes nothing but the states and exit codes of processes. */
  lemma {:induction false} ReleaseFrame(k: Kernel, ws: seq<Waiter>)
    ensures ReleaseWaiters(k, ws) == k.(procs := ReleaseWaiters(k, ws).procs)
    ensures ReleaseWaiters(k, ws).procs.Keys == k.procs.Keys
    ensures forall p :: p in k.procs ==>
                          var a, b := k.procs[p], ReleaseWaiters(k, ws).procs[p];
                          a.waitingForMe == b.waitingForMe && a.priority == b.priority && a.heapFreed == b.heapFreed
                          && (!Waiting(a.state) ==> a == b)
                          && (b.state == a.state || b.state == if a.state == Blocked then Ready else Exited)
    decreases |Alive(k)|, |ws|
  {
    if ws != [] {
      var w, rest := ws[0], ws[1..];
      if w.pid !in k.procs {
        ReleaseFrame(k, rest);
      } else if k.procs[w.pid].state == Blocked {
        assert Alive(Wake(k, w.pid, w.code)) == Alive(k);
        ReleaseFrame(Wake(k, w.pid, w.code), rest);
      } else if k.procs[w.pid].state == WaitingForExit {
        assert Alive(SetState(k, w.pid, Exited)) == Alive(k) - {w.pid};
        ReleaseFrame(SetState(k, w.pid, Exited), Waiters(k.procs[w.pid].waitingForMe, KILL_EXIT_CODE) + rest);
      } else {
        ReleaseFrame(k, rest);
      }
    }
  }

  /** What a queue does with the process at its head: ready it, let it exit, or drop it. */
  function LetGo(k: Kernel, p: Pid): (r: Kernel)
    ensures r.sems == k.sems
  {
    if IsIn(k.procs, p, Blocked) then SetState(k, p, Ready)
    else if IsIn(k.procs, p, WaitingForExit) then
      ExitKeepsSems(k, p, KILL_EXIT_CODE);
      ExitProcess(k, p, KILL_EXIT_CODE)
    else k
  }

  /** postSemaphore: hand the token to the first blocked process, letting killed ones exit on the
      way, or count it when nobody waits. */
  function PostLoop(k: Kernel, id: nat): (r: Kernel)
    requires id < |k.sems|
    ensures |r.sems| == |k.sems|
    decreases |k.sems[id].queue|
  {
    var sem := k.sems[id];
    if sem.queue == [] then SetSem(k, id, sem.(value := sem.value + 1))
    else
      var next := LetGo(Dequeue(k, id), sem.queue[0]);
      if IsIn(k.procs, sem.queue[0], Blocked) then next else PostLoop(next, id)
  }

  function PostSemaphore(k: Kernel, id: int): Kernel {
    if SemOpen(k, id) then PostLoop(k, id) else k
  }

  function DrainLoop(k: Kernel, id: nat): (r: Kernel)
    requires id < |k.sems|
    ensures |r.sems| == |k.sems|
    decreases |k.sems[id].queue|
  {
    if k.sems[id].queue == [] then k
    else DrainLoop(LetGo(Dequeue(k, id), k.sems[id].queue[0]), id)
  }

  function DestroySemaphore(k: Kernel, id: int): Kernel {
    if SemOpen(k, id) then
      var d := DrainLoop(k, id);
      SetSem(d, id, d.sems[id].(destroyed := true)).(freed := d.freed + [id])
    else k
  }

  /** addSem: a freed position is used again, last freed first. */
  function SemInit(k: Kernel, value: nat): (Kernel, nat)
    requires k.freed != [] ==> k.freed[|k.freed| - 1] < |k.sems|
  {
    if k.freed != [] then
      var id := k.freed[|k.freed| - 1];
      (SetSem(k, id, Semaphore(value, [], false)).(freed := k.freed[..|k.freed| - 1]), id)
    else (k.(sems := k.sems + [Semaphore(value, [], false)]), |k.sems|)
  }

  function Sleep(k: Kernel, ticks: nat): Kernel
    requires k.at in k.procs
  {
    if ticks == 0 then k
    else SetState(k.(sleepers := [Sleeper(k.at, ticks)] + k.sleepers), k.at, Blocked)
  }

  /** incTicks from sleeper i on; the sleepers before i have been dealt with. */
  function TickLoop(k: Kernel, i: nat): (r: Kernel)
    requires i <= |k.sleepers|
    decreases |k.sleepers| - i
  {
    if i == |k.sleepers| then k
    else
      var s := k.sleepers[i];
      if IsIn(k.procs, s.pid, Blocked) && s.ticks > 1 then
        TickLoop(k.(sleepers := k.sleepers[i := s.(ticks := s.ticks - 1)]), i + 1)
      else TickLoop(AwakenAt(k, i), i)
  }

  /** Sleeper i leaves the list: ready if its time is over, exited if it was killed. */
  function AwakenAt(k: Kernel, i: nat): (r: Kernel)
    requires i < |k.sleepers|
    ensures r.sleepers == k.sleepers[..i] + k.sleepers[i + 1..]
  {
    var p := k.sleepers[i].pid;
    var r := LetGo(k, p);
    r.(sleepers := k.sleepers[..i] + k.sleepers[i + 1..])
  }

  /** waitPid: nothing happens for the caller itself, an unknown or an exited process. */
  function WaitPid(k: Kernel, p: Pid): Kernel
    requires k.at in k.procs
  {
    if p == k.at || p !in k.procs || k.procs[p].state == Exited then k
    else
      var t := k.procs[p];
      SetState(k.(procs := k.procs[p := t.(waitingForMe := t.waitingForMe + [k.at])]), k.at, Blocked)
  }

  function Kill(k: Kernel, p: Pid): Kernel {
    if p == 0 || p !in k.procs || k.procs[p].state == Exited || k.procs[p].state == WaitingForExit then k
    else ExitProcess(k, p, KILL_EXIT_CODE)
  }

  function BlockByUser(k: Kernel, p: Pid): Kernel {
    if IsIn(k.procs, p, Ready) || IsIn(k.procs, p, Running) then SetState(k, p, BlockedByUser) else k
  }

  function Unblock(k: Kernel, p: Pid): Kernel {
    if IsIn(k.procs, p, BlockedByUser) then SetState(k, p, Ready) else k
  }

  function ChangePriority(k: Kernel, p: Pid, priority: int): Kernel {
    if priority <= 0 || priority > 9 || p !in k.procs then k
    else k.(procs := k.procs[p := k.procs[p].(priority := priority)])
  }

  /** addPCB for a new process: pids only grow, and the new node becomes the tail. */
  function CreateProcess(k: Kernel): Kernel {
    k.(procs := k.procs[k.nextPid := PCB(Ready, 1, [], 0, false)], ring := k.ring + [k.nextPid], nextPid := k.nextPid + 1)
  }
}
