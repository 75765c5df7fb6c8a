/** Laws of the counting semaphores: tokens are conserved over every run, and a post hands its
    token to the blocked process that has waited longest. */
module KernelSemaphores {
  import opened Common
  import opened KernelSpec
  import opened WaitQueues
  import opened KernelSafety
  import opened KernelSteps
  import opened KernelRuns
  import opened KernelTimer

  /** Index of the first process of a queue that was not killed; |queue| if there is none. */
  function FirstBlocked(procs: map<Pid, PCB>, queue: seq<Pid>): (j: nat)
    ensures j <= |queue|
    ensures forall i :: 0 <= i < j ==> !IsIn(procs, queue[i], Blocked)
    ensures j < |queue| ==> IsIn(procs, queue[j], Blocked)
  {
    if queue == [] || IsIn(procs, queue[0], Blocked) then 0 else 1 + FirstBlocked(procs, queue[1..])
  }

  lemma {:induction false} FirstBlockedSame(procs: map<Pid, PCB>, procs': map<Pid, PCB>, queue: seq<Pid>)
    requires forall p :: p in queue ==> IsIn(procs, p, Blocked) == IsIn(procs', p, Blocked)
    ensures FirstBlocked(procs, queue) == FirstBlocked(procs', queue)
    decreases |queue|
  {
    if queue != [] {
      var p := queue[0];
      assert p in queue;
      assert forall q :: q in queue[1..] ==> q in queue;
      FirstBlockedSame(procs, procs', queue[1..]);
    }
  }

  /** Letting one process go either leaves another's state alone or ends its waiting. */
  lemma LetGoStates(k: Kernel, p: Pid)
    ensures LetGo(k, p).procs.Keys == k.procs.Keys
    ensures forall q :: q in k.procs && q != p ==>
                          LetGo(k, p).procs[q].state == k.procs[q].state || !Waiting(LetGo(k, p).procs[q].state)
    ensures IsIn(k.procs, p, WaitingForExit) ==> IsIn(LetGo(k, p).procs, p, Exited)
  {
    if IsIn(k.procs, p, WaitingForExit) {
      ReleaseFrame(SetState(k, p, Exited), Waiters(k.procs[p].waitingForMe, KILL_EXIT_CODE));
    }
  }

  /** The processes still queued behind the one let go have kept their states. */
  lemma QueueKeepsStates(k: Kernel, id: nat)
    requires WaitInv(k, []) && id < |k.sems| && SemsOk(k) && k.sems[id].queue != []
    ensures var next := LetGo(Dequeue(k, id), k.sems[id].queue[0]);
            forall p :: p in k.sems[id].queue[1..] ==> p in k.procs && p in next.procs && next.procs[p].state == k.procs[p].state
    ensures Waits(k, k.sems[id].queue[0])
  {
    hide LetGo, OnePlace, SemsOk;
    var queue := k.sems[id].queue;
    var next := LetGo(Dequeue(k, id), queue[0]);
    DequeueLetGo(k, id);
    LetGoStates(Dequeue(k, id), queue[0]);
    HeadDistinct(k, id);
    forall p | p in queue[1..]
      ensures p in k.procs && p in next.procs && next.procs[p].state == k.procs[p].state
    {
      assert p in Queue(next, [], OnSem(id));
      assert Queued(next, [], p);
      assert Waits(next, p);
    }
    var head := queue[0];
    assert head in Queue(k, [], OnSem(id));
    assert Queued(k, [], head);
  }

  lemma HeadDistinct(k: Kernel, id: nat)
    requires WaitInv(k, []) && id < |k.sems| && k.sems[id].queue != []
    ensures k.sems[id].queue[0] !in k.sems[id].queue[1..]
  {
    var queue := k.sems[id].queue;
    assert NoDuplicates(Queue(k, [], OnSem(id)));
    forall i | 0 <= i < |queue[1..]|
      ensures queue[1..][i] != queue[0]
    {
      assert queue[1..][i] == queue[i + 1];
    }
  }

  /** r is k after a post: every killed process ahead of the first blocked one has exited, that
      one is ready and owns the token, those behind it still wait; only with nobody left has the
      value grown. */
  ghost predicate PostedTo(k: Kernel, r: Kernel, id: nat)
    requires id < |k.sems| && id < |r.sems|
  {
    var sem := k.sems[id];
    var j := FirstBlocked(k.procs, sem.queue);
    && r.sems[id] == (if j < |sem.queue| then sem.(queue := sem.queue[j + 1..])
                      else sem.(queue := [], value := sem.value + 1))
    && (forall i :: 0 <= i < j ==> IsIn(k.procs, sem.queue[i], WaitingForExit) && IsIn(r.procs, sem.queue[i], Exited))
    && (j < |sem.queue| ==> IsIn(r.procs, sem.queue[j], Ready))
    && (forall i :: j < i < |sem.queue| ==> Waits(r, sem.queue[i]))
  }

  lemma {:induction false} PostEffect(k: Kernel, id: nat)
    requires WaitInv(k, []) && id < |k.sems| && SemsOk(k) && !k.sems[id].destroyed
    ensures PostedTo(k, PostLoop(k, id), id)
    decreases |k.sems[id].queue|
  {
    hide WaitInv, LetGo, SemsOk, SameFrame, PostedTo;
    var queue := k.sems[id].queue;
    if queue == [] {
      PostedToNobody(k, id);
    } else {
      var next := LetGo(Dequeue(k, id), queue[0]);
      DequeueLetGo(k, id);
      if IsIn(k.procs, queue[0], Blocked) {
        PostedToHead(k, id);
      } else {
        PostEffect(next, id);
        PostedBehind(k, id, PostLoop(next, id));
      }
    }
  }

  lemma PostedToNobody(k: Kernel, id: nat)
    requires id < |k.sems| && k.sems[id].queue == []
    ensures PostedTo(k, PostLoop(k, id), id)
  {
  }

  lemma PostedToHead(k: Kernel, id: nat)
    requires WaitInv(k, []) && id < |k.sems| && SemsOk(k) && k.sems[id].queue != []
    requires IsIn(k.procs, k.sems[id].queue[0], Blocked)
    ensures PostedTo(k, PostLoop(k, id), id)
  {
    hide WaitInv, LetGo, SemsOk, SameFrame;
    var queue := k.sems[id].queue;
    var next := LetGo(Dequeue(k, id), queue[0]);
    DequeueLetGo(k, id);
    LetGoBlocked(Dequeue(k, id), queue[0]);
    forall i | 0 < i < |queue|
      ensures Waits(next, queue[i])
    {
      StillQueued(next, id, i - 1);
      assert queue[1..][i - 1] == queue[i];
    }
  }

  /** The head was killed: the post goes to the rest of the queue. */
  lemma PostedBehind(k: Kernel, id: nat, r: Kernel)
    requires WaitInv(k, []) && id < |k.sems| && SemsOk(k) && !k.sems[id].destroyed && k.sems[id].queue != []
    requires !IsIn(k.procs, k.sems[id].queue[0], Blocked) && id < |r.sems|
    requires r == PostLoop(LetGo(Dequeue(k, id), k.sems[id].queue[0]), id)
    requires PostedTo(LetGo(Dequeue(k, id), k.sems[id].queue[0]), r, id)
    ensures PostedTo(k, r, id)
  {
    hide WaitInv, LetGo, SemsOk, SameFrame, PostLoop;
    var queue, rest := k.sems[id].queue, k.sems[id].queue[1..];
    var next := LetGo(Dequeue(k, id), queue[0]);
    DequeueLetGo(k, id);
    QueueKeepsStates(k, id);
    LetGoStates(Dequeue(k, id), queue[0]);
    FirstBlockedSame(k.procs, next.procs, rest);
    ExitedStays(next, id, queue[0]);
    var j := FirstBlocked(k.procs, queue);
    assert j < |queue| ==> queue[j + 1..] == rest[j..];
    forall i | 0 < i < j
      ensures IsIn(k.procs, queue[i], WaitingForExit) && IsIn(r.procs, queue[i], Exited)
    {
      var q := rest[i - 1];
      assert q in rest && q == queue[i];
    }
    forall i | j < i < |queue|
      ensures Waits(r, queue[i])
    {
      assert rest[i - 1] == queue[i];
    }
  }

  lemma LetGoBlocked(k: Kernel, p: Pid)
    requires IsIn(k.procs, p, Blocked)
    ensures LetGo(k, p) == SetState(k, p, Ready)
  {
  }

  lemma StillQueued(k: Kernel, id: nat, i: nat)
    requires WaitInv(k, []) && id < |k.sems| && i < |k.sems[id].queue|
    ensures Waits(k, k.sems[id].queue[i])
  {
    var p := k.sems[id].queue[i];
    assert p in Queue(k, [], OnSem(id));
    assert Queued(k, [], p);
  }

  lemma ExitedStays(k: Kernel, id: nat, p: Pid)
    requires WaitInv(k, []) && id < |k.sems| && !k.sems[id].destroyed && SemsOk(k) && IsIn(k.procs, p, Exited)
    ensures IsIn(PostLoop(k, id).procs, p, Exited)
  {
    hide WaitInv, PostLoop, SemsOk;
    PostLoopKeeps(k, id);
  }

  /** Destroying a semaphore readies every blocked waiter and lets every killed one exit. */
  lemma {:induction false} DestroyEffect(k: Kernel, id: nat)
    requires WaitInv(k, []) && id < |k.sems| && SemsOk(k) && !k.sems[id].destroyed
    ensures DrainLoop(k, id).sems[id].queue == []
    ensures forall i :: 0 <= i < |k.sems[id].queue| ==>
                          var p := k.sems[id].queue[i];
                          && Waits(k, p)
                          && IsIn(DrainLoop(k, id).procs, p, if IsIn(k.procs, p, Blocked) then Ready else Exited)
    decreases |k.sems[id].queue|
  {
    hide WaitInv, LetGo, SemsOk, SameFrame;
    var queue := k.sems[id].queue;
    if queue != [] {
      var next := LetGo(Dequeue(k, id), queue[0]);
      DequeueLetGo(k, id);
      QueueKeepsStates(k, id);
      LetGoStates(Dequeue(k, id), queue[0]);
      if IsIn(k.procs, queue[0], Blocked) { LetGoBlocked(Dequeue(k, id), queue[0]); }
      DestroyEffect(next, id);
      DrainLoopSettles(next, id);
      forall i | 0 <= i < |queue|
        ensures Waits(k, queue[i])
        ensures IsIn(DrainLoop(k, id).procs, queue[i], if IsIn(k.procs, queue[i], Blocked) then Ready else Exited)
      {
        if i > 0 {
          assert queue[1..][i - 1] == queue[i];
          StillQueued(k, id, i);
        }
      }
    }
  }

  // ---------------------------------------------------------------- conservation over runs

  function Posts(e: Event, id: nat): nat {
    if e == Post(id) then 1 else 0
  }

  /** Tokens of semaphore id that an event hands out: to a waitSemaphore that need not block, or
      to the blocked process a post wakes. */
  function Grants(k: Kernel, e: Event, id: nat): nat
    requires id < |k.sems|
  {
    if e == Wait(id) && k.sems[id].value > 0 then 1
    else if e == Post(id) && FirstBlocked(k.procs, k.sems[id].queue) < |k.sems[id].queue| then 1
    else 0
  }

  lemma StepConserves(k: Kernel, e: Event, id: nat)
    requires Inv(k) && Allowed(k, e) && SemOpen(k, id) && e != Destroy(id)
    ensures SemOpen(Step(k, e), id)
    ensures Step(k, e).sems[id].value + Grants(k, e, id) == k.sems[id].value + Posts(e, id)
  {
    hide WaitInv, SleepersOk, HeapsOk, OneRunning, Schedule, TickLoop, PostLoop, DrainLoop, ExitProcess;
    CallKeeps(k, e);
    CallValue(k, e, id);
    TickLoopFrame(Schedule(k), 0);
    ScheduleSems(k);
    ScheduleSems(Call(k, e));
  }

  lemma ScheduleSems(k: Kernel)
    requires k.at in k.ring
    ensures Schedule(k).sems == k.sems
  {
  }

  lemma CallValue(k: Kernel, e: Event, id: nat)
    requires Inv(k) && Allowed(k, e) && SemOpen(k, id) && e != Destroy(id)
    requires k.at in k.procs && (k.freed != [] ==> k.freed[|k.freed| - 1] < |k.sems|)
    ensures SemOpen(Call(k, e), id)
    ensures Call(k, e).sems[id].value + Grants(k, e, id) == k.sems[id].value + Posts(e, id)
  {
    hide WaitInv, RingOk, SleepersOk, HeapsOk, OneRunning, PostLoop, DrainLoop, ExitProcess;
    match e
    case CtrlC(p) => ExitKeepsSems(k, p, KILL_EXIT_CODE);
    case KillPid(p) => if p in k.procs { ExitKeepsSems(k, p, KILL_EXIT_CODE); }
    case Exit(code) => ExitKeepsSems(k, k.at, code);
    case Post(i) =>
      if SemOpen(k, i) {
        PostLoopFrame(k, i);
        PostEffect(k, i);
      }
    case Destroy(i) =>
      if SemOpen(k, i) {
        DrainLoopFrame(k, i);
      }
    case Init(value) =>
      if k.freed != [] {
        var last := k.freed[|k.freed| - 1];
        assert last in k.freed;
      }
    case _ =>
  }

  ghost function PostsIn(es: seq<Event>, id: nat): nat {
    if es == [] then 0 else Posts(es[0], id) + PostsIn(es[1..], id)
  }

  ghost function GrantsIn(k: Kernel, es: seq<Event>, id: nat): nat
    requires Inv(k) && AllowedRun(k, es) && SemOpen(k, id) && Destroy(id) !in es
    decreases |es|
  {
    if es == [] then 0
    else
      StepConserves(k, es[0], id);
      Grants(k, es[0], id) + GrantsIn(Step(k, es[0]), es[1..], id)
  }

  /** Over any run in which the semaphore is not destroyed: value at the start plus posts equals
      value at the end plus tokens handed out. So with initial value 1 at most one more token is
      ever out than has been posted back. */
  lemma {:induction false} Conservation(k: Kernel, es: seq<Event>, id: nat)
    requires Inv(k) && AllowedRun(k, es) && SemOpen(k, id) && Destroy(id) !in es
    ensures SemOpen(Run(k, es), id)
    ensures k.sems[id].value + PostsIn(es, id) == Run(k, es).sems[id].value + GrantsIn(k, es, id)
    ensures k.sems[id].value == 1 ==> GrantsIn(k, es, id) <= 1 + PostsIn(es, id)
    decreases |es|
  {
    hide Inv, Allowed, Step, Grants, Posts;
    if es != [] {
      var e := es[0];
      assert e in es;
      StepConserves(k, e, id);
      Conservation(Step(k, e), es[1..], id);
    }
    assert Run(k, es).sems[id].value >= 0;
  }

  // ---------------------------------------------------------------- mutual exclusion

  /** The process an event hands a token of semaphore id to, if any. */
  function Granted(k: Kernel, e: Event, id: nat): multiset<Pid>
    requires id < |k.sems|
  {
    var queue := k.sems[id].queue;
    if e == Wait(id) && k.sems[id].value > 0 then multiset{k.at}
    else if e == Post(id) && FirstBlocked(k.procs, queue) < |queue| then multiset{queue[FirstBlocked(k.procs, queue)]}
    else multiset{}
  }

  /** Who holds tokens after an event: a post gives one of the poster's back. */
  function HoldersAfter(k: Kernel, e: Event, id: nat, h: multiset<Pid>): multiset<Pid>
    requires id < |k.sems|
  {
    (if e == Post(id) then h - multiset{k.at} else h) + Granted(k, e, id)
  }

  /** In the run every post of the semaphore is made by a running process that holds a token. */
  ghost predicate Disciplined(k: Kernel, es: seq<Event>, id: nat, h: multiset<Pid>)
    requires Inv(k) && AllowedRun(k, es) && SemOpen(k, id) && Destroy(id) !in es
    decreases |es|
  {
    es == [] ||
    (StepConserves(k, es[0], id);
     && (es[0] == Post(id) ==> !k.idle && k.at in h)
     && Disciplined(Step(k, es[0]), es[1..], id, HoldersAfter(k, es[0], id, h)))
  }

  ghost function HoldersIn(k: Kernel, es: seq<Event>, id: nat, h: multiset<Pid>): multiset<Pid>
    requires Inv(k) && AllowedRun(k, es) && SemOpen(k, id) && Destroy(id) !in es
    decreases |es|
  {
    if es == [] then h
    else
      StepConserves(k, es[0], id);
      HoldersIn(Step(k, es[0]), es[1..], id, HoldersAfter(k, es[0], id, h))
  }

  lemma HoldersCount(k: Kernel, e: Event, id: nat, h: multiset<Pid>)
    requires id < |k.sems| && (e == Post(id) ==> k.at in h)
    ensures |HoldersAfter(k, e, id, h)| + Posts(e, id) == |h| + Grants(k, e, id)
  {
    if e == Post(id) {
      assert h == (h - multiset{k.at}) + multiset{k.at};
    }
  }

  /** Tokens held and tokens left together never change; so with one token, at most one process
      holds it, whoever waits, is killed or is woken meanwhile. */
  lemma {:induction false} MutualExclusion(k: Kernel, es: seq<Event>, id: nat, h: multiset<Pid>)
    requires Inv(k) && AllowedRun(k, es) && SemOpen(k, id) && Destroy(id) !in es && Disciplined(k, es, id, h)
    ensures SemOpen(Run(k, es), id)
    ensures Run(k, es).sems[id].value + |HoldersIn(k, es, id, h)| == k.sems[id].value + |h|
    ensures k.sems[id].value + |h| == 1 ==>
              forall p, q :: p in HoldersIn(k, es, id, h) && q in HoldersIn(k, es, id, h) ==> p == q
    decreases |es|
  {
    hide Inv, Allowed, Step, Grants, Posts, HoldersAfter;
    if es != [] {
      var e := es[0];
      assert e in es;
      StepConserves(k, e, id);
      HoldersCount(k, e, id, h);
      MutualExclusion(Step(k, e), es[1..], id, HoldersAfter(k, e, id, h));
    }
    OneHolder(HoldersIn(k, es, id, h));
  }

  lemma OneHolder(h: multiset<Pid>)
    ensures |h| <= 1 ==> forall p, q :: p in h && q in h ==> p == q
  {
    forall p, q | p in h && q in h && p != q
      ensures |h| >= 2
    {
      assert h == ((h - multiset{p}) - multiset{q}) + multiset{q} + multiset{p};
    }
  }
}
