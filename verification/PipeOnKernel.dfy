/** Pipes over the kernel's semaphores: processes that run readPipe and writePipe in a kernel run,
    with its queues, switches and kills, make an allowed run of the pipe. */
module PipeOnKernel {
  import opened Common
  import opened KernelSpec
  import opened WaitQueues
  import opened KernelSafety
  import opened KernelRuns
  import opened KernelSemaphores
  import opened KernelWaitPid
  import P = Pipe

  /** The three semaphores of the pipe. */
  datatype Ids = Ids(mutex: nat, written: nat, empty: nat)

  /** The kernel and the pipe side by side; `owner` is the process that makes each call, `pending`
      the call in which a queued process waits. */
  datatype Joint = Joint(k: Kernel, s: P.System, owner: seq<Pid>, pending: map<Pid, nat>)

  /** What happens next: an event that does not concern the pipe's semaphores, or the next
      statement of a call whose process is running. */
  datatype JointEvent = Elsewhere(e: Event) | Waits(call: nat) | Posts(call: nat) | Local(call: nat)

  predicate OfPipe(ids: Ids, id: int) {
    id == ids.mutex || id == ids.written || id == ids.empty
  }

  predicate AtWait(c: P.Call) {
    c.stage.AtCount? || c.stage.AtMutex?
  }

  predicate AtPost(c: P.Call) {
    c.stage.Leave? || c.stage.Signal?
  }

  /** The semaphore that a call's next statement waits for, or posts. */
  function Named(ids: Ids, c: P.Call): nat {
    if c.stage.AtMutex? || c.stage.Leave? then ids.mutex
    else if c.stage.AtCount? == c.job.Reader? then ids.written
    else ids.empty
  }

  function Value(ids: Ids, s: P.System, id: nat): nat {
    if id == ids.mutex then s.mutex else if id == ids.written then s.writtenCount else s.emptyCount
  }

  // ---------------------------------------------------------------- coupling

  predicate Distinct(ids: Ids) {
    ids.mutex != ids.written && ids.mutex != ids.empty && ids.written != ids.empty
  }

  /** A process queued for semaphore id waits there in one of its calls. */
  predicate WaitsInCall(j: Joint, ids: Ids, id: nat, w: Pid) {
    && w in j.pending && j.pending[w] < |j.s.calls| == |j.owner| && j.owner[j.pending[w]] == w
    && AtWait(j.s.calls[j.pending[w]]) && Named(ids, j.s.calls[j.pending[w]]) == id
  }

  ghost predicate SemCoupled(j: Joint, ids: Ids, id: nat) {
    && SemOpen(j.k, id) && j.k.sems[id].value == Value(ids, j.s, id)
    && forall w :: w in j.k.sems[id].queue ==> WaitsInCall(j, ids, id, w)
  }

  ghost predicate Coupled(j: Joint, ids: Ids) {
    && Inv(j.k) && P.Inv(j.s) && |j.owner| == |j.s.calls| && Distinct(ids)
    && SemCoupled(j, ids, ids.mutex) && SemCoupled(j, ids, ids.written) && SemCoupled(j, ids, ids.empty)
  }

  // ---------------------------------------------------------------- joint steps

  predicate Runs(j: Joint, c: nat) {
    c < |j.s.calls| == |j.owner| && !j.k.idle && j.owner[c] == j.k.at
  }

  predicate JointAllowed(j: Joint, ids: Ids, ev: JointEvent) {
    match ev
    case Elsewhere(e) => Allowed(j.k, e) && !((e.Wait? || e.Post? || e.Destroy?) && OfPipe(ids, e.id))
    case Waits(c) => Runs(j, c) && AtWait(j.s.calls[c])
    case Posts(c) => Runs(j, c) && AtPost(j.s.calls[c])
    case Local(c) => Runs(j, c) && (j.s.calls[c].stage.Copy? || j.s.calls[c].stage.Advance? || j.s.calls[c].stage.Check?)
  }

  /** The kernel events of a joint event. */
  function KernelPart(j: Joint, ids: Ids, ev: JointEvent): seq<Event>
    requires JointAllowed(j, ids, ev)
  {
    match ev
    case Elsewhere(e) => [e]
    case Waits(c) => [Event.Wait(Named(ids, j.s.calls[c]))]
    case Posts(c) => [Event.Post(Named(ids, j.s.calls[c]))]
    case Local(c) => []
  }

  /** Whoever a post of semaphore id serves. */
  function Served(k: Kernel, id: nat): seq<Pid> {
    if id < |k.sems| && FirstBlocked(k.procs, k.sems[id].queue) < |k.sems[id].queue|
    then [k.sems[id].queue[FirstBlocked(k.procs, k.sems[id].queue)]] else []
  }

  /** The calls that move: one that gets its token, or posts or computes; after a post also the call
      in which the process served was waiting. */
  function PipePart(j: Joint, ids: Ids, ev: JointEvent): seq<nat>
    requires JointAllowed(j, ids, ev)
  {
    match ev
    case Elsewhere(e) => []
    case Waits(c) => if Value(ids, j.s, Named(ids, j.s.calls[c])) > 0 then [c] else []
    case Posts(c) =>
      var served := Served(j.k, Named(ids, j.s.calls[c]));
      [c] + (if served != [] && served[0] in j.pending then [j.pending[served[0]]] else [])
    case Local(c) => [c]
  }

  // ---------------------------------------------------------------- the pipe's side

  lemma PipeWait(ids: Ids, s: P.System, c: nat)
    requires P.InBounds(s.ring) && c < |s.calls| && AtWait(s.calls[c]) && Value(ids, s, Named(ids, s.calls[c])) > 0
    requires Distinct(ids)
    ensures P.Enabled(s, c)
    ensures var s' := P.Step(s, c);
            && |s'.calls| == |s.calls| && (forall d :: 0 <= d < |s.calls| && d != c ==> s'.calls[d] == s.calls[d])
            && forall id :: OfPipe(ids, id) ==>
                              Value(ids, s', id) == Value(ids, s, id) - Count(id == Named(ids, s.calls[c]))
  {
  }

  lemma PipePost(ids: Ids, s: P.System, c: nat)
    requires P.InBounds(s.ring) && c < |s.calls| && AtPost(s.calls[c]) && Distinct(ids)
    ensures P.Enabled(s, c)
    ensures var s' := P.Step(s, c);
            && |s'.calls| == |s.calls| && (forall d :: 0 <= d < |s.calls| && d != c ==> s'.calls[d] == s.calls[d])
            && forall id :: OfPipe(ids, id) ==>
                              Value(ids, s', id) == Value(ids, s, id) + Count(id == Named(ids, s.calls[c]))
  {
  }

  lemma PipeLocal(ids: Ids, s: P.System, c: nat)
    requires P.Inv(s) && c < |s.calls| && !AtWait(s.calls[c]) && !AtPost(s.calls[c]) && !s.calls[c].stage.Done?
    ensures P.InBounds(s.ring) && P.Enabled(s, c)
    ensures var s' := P.Step(s, c);
            && |s'.calls| == |s.calls| && (forall d :: 0 <= d < |s.calls| && d != c ==> s'.calls[d] == s.calls[d])
            && forall id :: OfPipe(ids, id) ==> Value(ids, s', id) == Value(ids, s, id)
  {
    hide P.Unread, P.Fifo, P.Tokens, P.CallsOk;
  }

  // ---------------------------------------------------------------- the kernel's side

  /** What an event does to one semaphore: its value, and whom its queue still holds. */
  lemma KernelSide(k: Kernel, e: Event, id: nat)
    requires Inv(k) && Allowed(k, e) && SemOpen(k, id) && e != Event.Destroy(id)
    ensures SemOpen(Step(k, e), id)
    ensures Step(k, e).sems[id].value ==
            k.sems[id].value + Count(e == Event.Post(id) && Served(k, id) == [])
            - Count(e == Event.Wait(id) && k.sems[id].value > 0)
    ensures forall w :: w in Step(k, e).sems[id].queue ==>
                          || (w in k.sems[id].queue && (e == Event.Post(id) && Served(k, id) != [] ==> w != Served(k, id)[0]))
                          || (e == Event.Wait(id) && k.sems[id].value == 0 && w == k.at)
  {
    hide Inv, Step, PostLoop;
    StepConserves(k, e, id);
    var j := QueueIsFifo(k, e, id);
    var queue := k.sems[id].queue;
    var n := FirstBlocked(k.procs, queue);
    QueuesDistinct(k, id);
    forall w | w in queue[j..]
      ensures w in queue && (e == Event.Post(id) && n < |queue| ==> w != queue[n])
    {
      var i :| 0 <= i < |queue[j..]| && queue[j..][i] == w;
      assert queue[j + i] == w;
    }
  }

  lemma QueuesDistinct(k: Kernel, id: nat)
    requires Inv(k) && SemOpen(k, id)
    ensures NoDuplicates(k.sems[id].queue)
    ensures forall w :: w in k.sems[id].queue && !k.idle ==> w != k.at
  {
    assert NoDuplicates(Queue(k, [], OnSem(id)));
    forall w | w in k.sems[id].queue && !k.idle
      ensures w != k.at
    {
      assert w in Queue(k, [], OnSem(id));
      QueuedIsNotCurrent(k, OnSem(id), w);
    }
  }

  lemma InOneQueue(k: Kernel, id: nat, id': nat, w: Pid)
    requires Inv(k) && SemOpen(k, id) && SemOpen(k, id') && w in k.sems[id].queue && w in k.sems[id'].queue
    ensures id == id'
  {
    assert w in Queue(k, [], OnSem(id)) && w in Queue(k, [], OnSem(id'));
  }

  // ---------------------------------------------------------------- both sides

  ghost function Next(j: Joint, ids: Ids, ev: JointEvent): Joint
    requires Coupled(j, ids) && JointAllowed(j, ids, ev)
    requires P.AllowedRun(j.s, PipePart(j, ids, ev)) && AllowedRun(j.k, KernelPart(j, ids, ev))
  {
    var pending :=
      if ev.Waits? && Value(ids, j.s, Named(ids, j.s.calls[ev.call])) == 0 then j.pending[j.k.at := ev.call] else j.pending;
    Joint(Run(j.k, KernelPart(j, ids, ev)), P.Run(j.s, PipePart(j, ids, ev)), j.owner, pending)
  }

  lemma RunOne(s: P.System, c: nat)
    requires P.Inv(s) && P.Enabled(s, c)
    ensures P.InBounds(s.ring) && P.AllowedRun(s, [c]) && P.Run(s, [c]) == P.Step(s, c) && P.Inv(P.Step(s, c))
  {
    hide P.Inv, P.Enabled, P.Step;
    P.StepKeeps(s, c);
    assert [c][1..] == [];
  }

  lemma RunTwo(s: P.System, c: nat, d: nat)
    requires P.Inv(s) && P.Enabled(s, c)
    ensures P.InBounds(s.ring) && P.Inv(P.Step(s, c)) && P.InBounds(P.Step(s, c).ring)
    ensures P.Enabled(P.Step(s, c), d) ==> P.AllowedRun(s, [c, d]) && P.Run(s, [c, d]) == P.Step(P.Step(s, c), d)
  {
    hide P.Enabled, P.Step, P.Unread, P.Fifo, P.Tokens, P.CallsOk;
    P.StepKeeps(s, c);
    assert [c, d][1..] == [d];
    if P.Enabled(P.Step(s, c), d) {
      RunOne(P.Step(s, c), d);
      assert P.AllowedRun(s, [c, d]);
    }
  }

  lemma KernelOne(k: Kernel, e: Event)
    requires Inv(k) && Allowed(k, e)
    ensures AllowedRun(k, [e]) && Run(k, [e]) == Step(k, e)
  {
    hide Inv, Allowed, Step;
    assert [e][1..] == [];
  }

  /** The process of a running call is in no queue, so nobody queued waits in that call. */
  lemma NotInCall(j: Joint, ids: Ids, id: nat, c: nat, w: Pid)
    requires Inv(j.k) && SemCoupled(j, ids, id) && Runs(j, c) && w in j.k.sems[id].queue
    ensures w != j.k.at && w in j.pending && j.pending[w] != c
  {
    hide Inv;
    QueuesDistinct(j.k, id);
    assert WaitsInCall(j, ids, id, w);
  }

  ghost predicate StepsWell(j: Joint, ids: Ids, ev: JointEvent)
    requires Coupled(j, ids) && JointAllowed(j, ids, ev)
  {
    && P.AllowedRun(j.s, PipePart(j, ids, ev)) && AllowedRun(j.k, KernelPart(j, ids, ev))
    && Coupled(Next(j, ids, ev), ids)
  }

  lemma CouplesAll(j: Joint, ids: Ids, j': Joint, moved: set<nat>)
    requires Coupled(j, ids) && Inv(j'.k) && P.Inv(j'.s) && j'.owner == j.owner && |j'.s.calls| == |j.s.calls|
    requires forall d :: 0 <= d < |j.s.calls| && d !in moved ==> j'.s.calls[d] == j.s.calls[d]
    requires forall id: nat :: OfPipe(ids, id) ==>
               && SemOpen(j'.k, id) && j'.k.sems[id].value == Value(ids, j'.s, id)
               && forall w :: w in j'.k.sems[id].queue ==> Kept(j, ids, id, j', moved, w)
    ensures Coupled(j', ids)
  {
    hide Inv, P.Inv, SemCoupled, SemOpen;
    SemStays(j, ids, ids.mutex, j', moved);
    SemStays(j, ids, ids.written, j', moved);
    SemStays(j, ids, ids.empty, j', moved);
  }

  /** A queued process that is new in its queue, or was there before with its call unmoved. */
  predicate Kept(j: Joint, ids: Ids, id: nat, j': Joint, moved: set<nat>, w: Pid) {
    || WaitsInCall(j', ids, id, w)
    || (id < |j.k.sems| && w in j.k.sems[id].queue && w in j.pending && w in j'.pending
        && j'.pending[w] == j.pending[w] && j.pending[w] !in moved)
  }

  lemma SemStays(j: Joint, ids: Ids, id: nat, j': Joint, moved: set<nat>)
    requires SemCoupled(j, ids, id) && |j.owner| == |j.s.calls| == |j'.s.calls| && j'.owner == j.owner
    requires forall d :: 0 <= d < |j.s.calls| && d !in moved ==> j'.s.calls[d] == j.s.calls[d]
    requires SemOpen(j'.k, id) && j'.k.sems[id].value == Value(ids, j'.s, id)
    requires forall w :: w in j'.k.sems[id].queue ==> Kept(j, ids, id, j', moved, w)
    ensures SemCoupled(j', ids, id)
  {
    forall w | w in j'.k.sems[id].queue
      ensures WaitsInCall(j', ids, id, w)
    {
      assert Kept(j, ids, id, j', moved, w);
      if !WaitsInCall(j', ids, id, w) { assert WaitsInCall(j, ids, id, w); }
    }
  }

  // ---------------------------------------------------------------- the four kinds of steps

  lemma ElsewhereStep(j: Joint, ids: Ids, e: Event)
    requires Coupled(j, ids) && JointAllowed(j, ids, Elsewhere(e))
    ensures StepsWell(j, ids, Elsewhere(e))
  {
    hide Inv, P.Inv, Step, Allowed;
    KernelOne(j.k, e);
    assert P.AllowedRun(j.s, []) && P.Run(j.s, []) == j.s;
    var j' := Next(j, ids, Elsewhere(e));
    forall id: nat | OfPipe(ids, id)
      ensures SemOpen(j'.k, id) && j'.k.sems[id].value == Value(ids, j'.s, id)
      ensures forall w :: w in j'.k.sems[id].queue ==> Kept(j, ids, id, j', {}, w)
    {
      KernelSide(j.k, e, id);
      forall w | w in j'.k.sems[id].queue
        ensures Kept(j, ids, id, j', {}, w)
      {
        assert WaitsInCall(j, ids, id, w);
      }
    }
    CouplesAll(j, ids, j', {});
  }

  lemma LocalStep(j: Joint, ids: Ids, c: nat)
    requires Coupled(j, ids) && JointAllowed(j, ids, Local(c))
    ensures StepsWell(j, ids, Local(c))
  {
    hide Inv, P.Inv, Step, P.Step, P.Enabled, P.InBounds;
    PipeLocal(ids, j.s, c);
    RunOne(j.s, c);
    assert AllowedRun(j.k, []) && Run(j.k, []) == j.k;
    var j' := Next(j, ids, Local(c));
    forall id: nat | OfPipe(ids, id)
      ensures SemOpen(j'.k, id) && j'.k.sems[id].value == Value(ids, j'.s, id)
      ensures forall w :: w in j'.k.sems[id].queue ==> Kept(j, ids, id, j', {c}, w)
    {
      forall w | w in j'.k.sems[id].queue
        ensures Kept(j, ids, id, j', {c}, w)
      {
        NotInCall(j, ids, id, c, w);
      }
    }
    CouplesAll(j, ids, j', {c});
  }

  lemma WaitStep(j: Joint, ids: Ids, c: nat)
    requires Coupled(j, ids) && JointAllowed(j, ids, Waits(c))
    ensures StepsWell(j, ids, Waits(c))
  {
    hide Inv, P.Inv, Step, P.Step, P.Enabled, Allowed;
    var id0 := Named(ids, j.s.calls[c]);
    var e := Event.Wait(id0);
    assert OfPipe(ids, id0) && SemCoupled(j, ids, id0);
    assert Allowed(j.k, e) by { RunningMayCall(j.k, id0); }
    KernelOne(j.k, e);
    var passes := Value(ids, j.s, id0) > 0;
    if passes {
      PipeBounds(j.s);
      PipeWait(ids, j.s, c);
      RunOne(j.s, c);
    } else {
      assert P.AllowedRun(j.s, []) && P.Run(j.s, []) == j.s;
    }
    var moved := if passes then {c} else {};
    var j' := Next(j, ids, Waits(c));
    forall id: nat | OfPipe(ids, id)
      ensures SemOpen(j'.k, id) && j'.k.sems[id].value == Value(ids, j'.s, id)
      ensures forall w :: w in j'.k.sems[id].queue ==> Kept(j, ids, id, j', moved, w)
    {
      KernelSide(j.k, e, id);
      forall w | w in j'.k.sems[id].queue
        ensures Kept(j, ids, id, j', moved, w)
      {
        if w in j.k.sems[id].queue { NotInCall(j, ids, id, c, w); }
      }
    }
    CouplesAll(j, ids, j', moved);
  }

  lemma RunningMayCall(k: Kernel, id: int)
    requires !k.idle
    ensures Allowed(k, Event.Wait(id)) && Allowed(k, Event.Post(id))
  {
  }

  lemma PipeBounds(s: P.System)
    requires P.Inv(s)
    ensures P.InBounds(s.ring)
  {
    hide P.Unread, P.Fifo, P.Tokens, P.CallsOk;
  }

  lemma PostStep(j: Joint, ids: Ids, c: nat)
    requires Coupled(j, ids) && JointAllowed(j, ids, Posts(c))
    ensures StepsWell(j, ids, Posts(c))
  {
    hide Inv, P.Inv, Step, P.Step, P.Enabled, Allowed;
    var id0 := Named(ids, j.s.calls[c]);
    var e := Event.Post(id0);
    assert OfPipe(ids, id0) && SemCoupled(j, ids, id0);
    RunningMayCall(j.k, id0);
    KernelOne(j.k, e);
    PipeBounds(j.s);
    PipePost(ids, j.s, c);
    var served := Served(j.k, id0);
    var moved := {c};
    if served == [] {
      RunOne(j.s, c);
    } else {
      var g := served[0];
      NotInCall(j, ids, id0, c, g);
      assert WaitsInCall(j, ids, id0, g);
      var d := j.pending[g];
      RunTwo(j.s, c, d);
      PipeWait(ids, P.Step(j.s, c), d);
      moved := {c, d};
    }
    var j' := Next(j, ids, Posts(c));
    forall id: nat | OfPipe(ids, id)
      ensures SemOpen(j'.k, id) && j'.k.sems[id].value == Value(ids, j'.s, id)
      ensures forall w :: w in j'.k.sems[id].queue ==> Kept(j, ids, id, j', moved, w)
    {
      KernelSide(j.k, e, id);
      forall w | w in j'.k.sems[id].queue
        ensures Kept(j, ids, id, j', moved, w)
      {
        NotInCall(j, ids, id, c, w);
        if served != [] { NotServed(j, ids, id0, id, served[0], w); }
      }
    }
    CouplesAll(j, ids, j', moved);
  }

  /** Another process waits in another call. */
  lemma NotServed(j: Joint, ids: Ids, id0: nat, id: nat, g: Pid, w: Pid)
    requires Inv(j.k) && SemCoupled(j, ids, id0) && SemCoupled(j, ids, id)
    requires g in j.k.sems[id0].queue && w in j.k.sems[id].queue && (id == id0 ==> w != g)
    ensures w in j.pending && g in j.pending && j.pending[w] != j.pending[g]
  {
    hide Inv;
    assert WaitsInCall(j, ids, id0, g) && WaitsInCall(j, ids, id, w);
    if w == g { InOneQueue(j.k, id0, id, w); }
  }

  /** Every joint step is an allowed step of the kernel, if any, and allowed steps of the pipe, and
      keeps the two coupled. */
  lemma JointStep(j: Joint, ids: Ids, ev: JointEvent)
    requires Coupled(j, ids) && JointAllowed(j, ids, ev)
    ensures StepsWell(j, ids, ev)
  {
    hide Coupled, JointAllowed, StepsWell;
    match ev
    case Elsewhere(e) => ElsewhereStep(j, ids, e);
    case Waits(c) => WaitStep(j, ids, c);
    case Posts(c) => PostStep(j, ids, c);
    case Local(c) => LocalStep(j, ids, c);
  }

  // ---------------------------------------------------------------- whole runs

  ghost predicate JointRunAllowed(j: Joint, ids: Ids, evs: seq<JointEvent>)
    requires Coupled(j, ids)
    decreases |evs|
  {
    hide Coupled, JointAllowed;
    evs == [] || (JointAllowed(j, ids, evs[0]) && (JointStep(j, ids, evs[0]); JointRunAllowed(Next(j, ids, evs[0]), ids, evs[1..])))
  }

  ghost function JointRun(j: Joint, ids: Ids, evs: seq<JointEvent>): (j': Joint)
    requires Coupled(j, ids) && JointRunAllowed(j, ids, evs)
    ensures Coupled(j', ids)
    decreases |evs|
  {
    hide Coupled, JointAllowed;
    if evs == [] then j
    else
      JointStep(j, ids, evs[0]);
      JointRun(Next(j, ids, evs[0]), ids, evs[1..])
  }

  /** The kernel's and the pipe's share of a joint run. */
  ghost function KernelRun(j: Joint, ids: Ids, evs: seq<JointEvent>): seq<Event>
    requires Coupled(j, ids) && JointRunAllowed(j, ids, evs)
    decreases |evs|
  {
    hide Coupled, JointAllowed;
    if evs == [] then []
    else
      JointStep(j, ids, evs[0]);
      KernelPart(j, ids, evs[0]) + KernelRun(Next(j, ids, evs[0]), ids, evs[1..])
  }

  ghost function PipeRun(j: Joint, ids: Ids, evs: seq<JointEvent>): seq<nat>
    requires Coupled(j, ids) && JointRunAllowed(j, ids, evs)
    decreases |evs|
  {
    hide Coupled, JointAllowed;
    if evs == [] then []
    else
      JointStep(j, ids, evs[0]);
      PipePart(j, ids, evs[0]) + PipeRun(Next(j, ids, evs[0]), ids, evs[1..])
  }

  lemma {:induction false} PipeConcat(s: P.System, a: seq<nat>, b: seq<nat>)
    requires P.Inv(s) && P.AllowedRun(s, a) && P.AllowedRun(P.Run(s, a), b)
    ensures P.AllowedRun(s, a + b) && P.Run(s, a + b) == P.Run(P.Run(s, a), b)
    decreases |a|
  {
    hide P.Inv, P.Step, P.Enabled;
    if a == [] {
      assert a + b == b;
    } else {
      P.StepKeeps(s, a[0]);
      assert (a + b)[0] == a[0] && (a + b)[1..] == a[1..] + b;
      PipeConcat(P.Step(s, a[0]), a[1..], b);
    }
  }

  lemma {:induction false} KernelConcat(k: Kernel, a: seq<Event>, b: seq<Event>)
    requires Inv(k) && AllowedRun(k, a) && AllowedRun(Run(k, a), b)
    ensures AllowedRun(k, a + b) && Run(k, a + b) == Run(Run(k, a), b)
    decreases |a|
  {
    hide Inv, Allowed, Step;
    if a == [] {
      assert a + b == b;
    } else {
      assert (a + b)[0] == a[0] && (a + b)[1..] == a[1..] + b;
      KernelConcat(Step(k, a[0]), a[1..], b);
    }
  }

  /** A joint run is a run of the kernel beside a run of the pipe. */
  lemma {:induction false} Projects(j: Joint, ids: Ids, evs: seq<JointEvent>)
    requires Coupled(j, ids) && JointRunAllowed(j, ids, evs)
    ensures Inv(j.k) && AllowedRun(j.k, KernelRun(j, ids, evs))
    ensures JointRun(j, ids, evs).k == Run(j.k, KernelRun(j, ids, evs))
    ensures P.Inv(j.s) && P.AllowedRun(j.s, PipeRun(j, ids, evs))
    ensures JointRun(j, ids, evs).s == P.Run(j.s, PipeRun(j, ids, evs))
    decreases |evs|
  {
    hide Inv, P.Inv, JointAllowed, KernelPart, PipePart, SemCoupled;
    if evs != [] {
      var ev := evs[0];
      JointStep(j, ids, ev);
      var next := Next(j, ids, ev);
      Projects(next, ids, evs[1..]);
      KernelConcat(j.k, KernelPart(j, ids, ev), KernelRun(next, ids, evs[1..]));
      PipeConcat(j.s, PipePart(j, ids, ev), PipeRun(next, ids, evs[1..]));
    }
  }

  /** The three semaphores as pipeInit creates them, and calls that have just been made. */
  ghost predicate FreshPipe(j: Joint, ids: Ids) {
    && Inv(j.k) && P.Initial(j.s) && Distinct(ids) && |j.owner| == |j.s.calls|
    && SemOpen(j.k, ids.mutex) && j.k.sems[ids.mutex] == Semaphore(1, [], false)
    && SemOpen(j.k, ids.written) && j.k.sems[ids.written] == Semaphore(0, [], false)
    && SemOpen(j.k, ids.empty) && j.k.sems[ids.empty] == Semaphore(40, [], false)
  }

  lemma FreshCoupled(j: Joint, ids: Ids)
    requires FreshPipe(j, ids)
    ensures Coupled(j, ids)
  {
    hide Inv;
    P.InitialInv(j.s);
  }

  /** First in, first out on the kernel: whatever the kernel does, in any run in which only these
      calls use the pipe's semaphores, what was read is a prefix of what was written. */
  lemma FifoOnKernel(j: Joint, ids: Ids, evs: seq<JointEvent>)
    requires FreshPipe(j, ids) && Coupled(j, ids) && JointRunAllowed(j, ids, evs)
    ensures var s := JointRun(j, ids, evs).s;
            P.Chars(s.received) <= P.Chars(s.sent) && |s.sent| - |s.received| <= 40
  {
    hide Coupled, Inv, P.Inv, P.Initial;
    Projects(j, ids, evs);
    P.FifoDelivery(j.s, PipeRun(j, ids, evs));
  }
}
