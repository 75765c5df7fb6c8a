/** The philosophers' shared variables in memory, and the functions of the program that update them. */
module PhilosopherTable {
  import opened Common
  import opened Philosophers

  // ---------------------------------------------------------------- steps of one participant

  /** The command process alone can bring t to t'. */
  ghost predicate Commanded(t: Table, t': Table)
    requires Inv(t)
  {
    exists k: nat :: AllowedRun(t, Times(k, Command(true))) && Run(t, Times(k, Command(true))) == t'
  }

  lemma {:induction false} OneMore(t: Table, k: nat)
    requires Inv(t) && AllowedRun(t, Times(k, Command(true))) && CanWork(Run(t, Times(k, Command(true))))
    ensures |Run(t, Times(k, Command(true))).phils| == |Run(t, Times(k, Command(true))).forks|
    ensures AllowedRun(t, Times(k + 1, Command(true)))
    ensures Run(t, Times(k + 1, Command(true))) == Work(Run(t, Times(k, Command(true))), true)
    decreases k
  {
    hide Inv, Work, CanWork;
    var e := Command(true);
    SameSize(Run(t, Times(k, e)));
    if k == 0 {
      SameSize(t);
      StepKeeps(t, e);
      assert Times(1, e) == [e] && [e][1..] == [];
    } else {
      assert Times(k, e)[0] == e && Times(k, e)[1..] == Times(k - 1, e) && Times(k + 1, e)[1..] == Times(k, e);
      SameSize(t);
      StepKeeps(t, e);
      OneMore(Step(t, e), k - 1);
    }
  }

  lemma GoesOn(t: Table, t': Table)
    requires Inv(t) && Commanded(t, t') && CanWork(t')
    ensures Inv(t') && |t'.phils| == |t'.forks|
    ensures Inv(Work(t', true)) && Commanded(t, Work(t', true))
  {
    hide Inv, Work, CanWork;
    var k: nat :| AllowedRun(t, Times(k, Command(true))) && Run(t, Times(k, Command(true))) == t';
    OneMore(t, k);
    StepKeeps(t', Command(true));
  }

  lemma Starts(t: Table)
    requires Inv(t)
    ensures Commanded(t, t)
  {
    assert AllowedRun(t, Times(0, Command(true))) && Run(t, Times(0, Command(true))) == t;
  }

  /** A philosopher's step that asks for a fork: the right one first if its number is odd. */
  lemma GoTakes(t: Table, i: nat)
    requires Inv(t) && i < |t.phils| && (t.phils[i] == Thinking || t.phils[i] == HasFirst)
    ensures |t.phils| == |t.forks|
    ensures var n, first := |t.phils|, t.phils[i] == Thinking;
            var f := if first == (i % 2 == 1) then (i + 1) % n else i;
            var held, waiting := if first then HasFirst else Eating, if first then AwaitFirst else AwaitSecond;
            && f < n && Inv(Go(t, i))
            && Go(t, i) == WaitFork(t, i, f, held, waiting)
            && |Go(t, i).phils| == |Go(t, i).forks| == n
            && (Go(t, i).phils[i] == held || Go(t, i).phils[i] == waiting)
  {
    hide Inv;
    SameSize(t);
    GoKeeps(t, i);
    Neighbours(i, |t.phils|);
  }

  /** A philosopher's step that puts a fork down: its own first, then the right one. */
  lemma GoLeaves(t: Table, i: nat)
    requires Inv(t) && i < |t.phils| && (t.phils[i] == Eating || t.phils[i] == LeftOwn)
    ensures |t.phils| == |t.forks|
    ensures var n := |t.phils|;
            var ph, f := if t.phils[i] == Eating then LeftOwn else LeftBoth, if t.phils[i] == Eating then i else (i + 1) % n;
            && f < n && Inv(Go(t, i))
            && Go(t, i) == PostFork(t.(phils := t.phils[i := ph]), f)
            && |Go(t, i).phils| == |Go(t, i).forks| == n && Go(t, i).phils[i] == ph
  {
    hide Inv, Post;
    SameSize(t);
    GoKeeps(t, i);
    Neighbours(i, |t.phils|);
  }

  lemma GotFits(t: Table)
    requires Inv(t) && t.ctl.Acquire?
    ensures t.ctl.got <= |t.phils|
  {
  }

  // ---------------------------------------------------------------- the shared variables

  class Dinner {
    var phils: seq<Phase>
    var forks: seq<Sem>
    var token: Sem
    var ctl: Control

    function State(): Table
      reads this
    {
      Table(phils, forks, token, ctl)
    }

    ghost predicate Valid()
      reads this
    {
      Inv(State())
    }

    /** The table as commandPhylo sets it up, before the first freeAll. */
    constructor (n: nat)
      requires n >= PHYLO_MIN_AMOUNT
      ensures Valid() && State() == Start(n)
    {
      phils := seq(n, i => Outside);
      forks := seq(n, i => Sem(1, []));
      token := Sem(0, []);
      ctl := Release(n, false);
      new;
      assert State() == Start(n);
    }

    /** A semaphore's dequeue loop: the first waiter that was not killed. */
    static method PostTo(s: Sem) returns (r: Sem, p: Party)
      ensures (r, p) == Post(s)
    {
      r, p := s, Gone;
      while r.queue != [] && p == Gone
        invariant p == Gone ==> Post(s) == Post(r)
        invariant p != Gone ==> Post(s) == (r, p)
        decreases |r.queue|
      {
        p := r.queue[0];
        r := r.(queue := r.queue[1..]);
      }
      if p == Gone {
        r := r.(value := r.value + 1);
      }
    }

    /** The party that got the semaphore goes on. */
    method Ready(p: Party)
      modifies this`phils, this`ctl
      ensures State() == Resume(old(State()), p)
    {
      if p.Phil? && p.i < |phils| {
        phils := phils[p.i := Granted(phils[p.i])];
      } else if p.Controller? && ctl.AwaitAcquire? {
        ctl := Acquire(ctl.op, ctl.got + 1);
      }
    }

    method PostFork(f: nat)
      requires f < |forks|
      modifies this
      ensures State() == Philosophers.PostFork(old(State()), f)
    {
      var s, p := PostTo(forks[f]);
      forks := forks[f := s];
      Ready(p);
    }

    method PostToken()
      modifies this
      ensures State() == Philosophers.PostToken(old(State()))
    {
      var s, p := PostTo(token);
      token := s;
      Ready(p);
    }

    method WaitFork(i: nat, f: nat, held: Phase, waiting: Phase)
      requires i < |phils| && f < |forks|
      modifies this
      ensures State() == Philosophers.WaitFork(old(State()), i, f, held, waiting)
    {
      if forks[f].value > 0 {
        forks := forks[f := Sem(forks[f].value - 1, forks[f].queue)];
        phils := phils[i := held];
      } else {
        forks := forks[f := Sem(0, forks[f].queue + [Phil(i)])];
        phils := phils[i := waiting];
      }
    }

    /** takeForks: both forks, unless the philosopher has to wait for the first. */
    method TakeForks(i: nat)
      requires Valid() && i < |phils| && phils[i] == Thinking
      modifies this
      ensures Valid() && |old(phils)| == |old(forks)|
      ensures var t := Go(old(State()), i);
              && |t.phils| == |t.forks| == |phils|
              && State() == if Blocked(t.phils[i]) then t else Go(t, i)
    {
      hide Inv, Go, Philosophers.WaitFork;
      var n := |phils|;
      GoTakes(State(), i);
      if i % 2 == 1 {
        WaitFork(i, (i + 1) % n, HasFirst, AwaitFirst);
        if phils[i] == AwaitFirst { return; }
        GoTakes(State(), i);
        WaitFork(i, i, Eating, AwaitSecond);
      } else {
        WaitFork(i, i, HasFirst, AwaitFirst);
        if phils[i] == AwaitFirst { return; }
        GoTakes(State(), i);
        WaitFork(i, (i + 1) % n, Eating, AwaitSecond);
      }
    }

    /** leaveForks: the own fork first, then the right one. */
    method LeaveForks(i: nat)
      requires Valid() && i < |phils| && phils[i] == Eating
      modifies this
      ensures Valid() && |old(phils)| == |old(forks)|
      ensures var t := Go(old(State()), i);
              && |t.phils| == |t.forks| == |phils|
              && State() == Go(t, i) && phils[i] == LeftBoth
    {
      hide Inv, Go, Philosophers.PostFork;
      var n := |phils|;
      GoLeaves(State(), i);
      phils := phils[i := LeftOwn];
      PostFork(i);
      GoLeaves(State(), i);
      phils := phils[i := LeftBoth];
      PostFork((i + 1) % n);
    }

    /** freeAll, up to its end. */
    method FreeAll()
      requires Valid() && ctl.Release?
      modifies this
      ensures Valid() && Commanded(old(State()), State())
      ensures ctl == if old(ctl).failed then Failed else Idle
    {
      hide Inv, Commanded, Post;
      ghost var t0 := State();
      Starts(t0);
      while ctl.left > 0
        invariant Valid() && ctl.Release? && ctl.failed == t0.ctl.failed && Commanded(t0, State())
        decreases ctl.left
      {
        GoesOn(t0, State());
        ctl := Release(ctl.left - 1, ctl.failed);
        PostToken();
      }
      GoesOn(t0, State());
      ctl := if ctl.failed then Failed else Idle;
    }

    /** blockAll, until it has all tokens or has to wait. */
    method BlockAll()
      requires Valid() && ctl.Acquire?
      modifies this
      ensures Valid() && Commanded(old(State()), State())
      ensures ctl.AwaitAcquire? || (ctl.Acquire? && ctl.got == |phils| && AllOutside(State()))
      ensures ctl.op == old(ctl).op
    {
      hide Inv, Commanded, AllOutside;
      ghost var t0 := State();
      Starts(t0);
      GotFits(t0);
      while ctl.got < |phils|
        invariant Valid() && ctl.Acquire? && ctl.op == t0.ctl.op && ctl.got <= |phils| && Commanded(t0, State())
        decreases |phils| - ctl.got
      {
        GoesOn(t0, State());
        if token.value > 0 {
          token := Sem(token.value - 1, token.queue);
          ctl := Acquire(ctl.op, ctl.got + 1);
        } else {
          token := Sem(0, token.queue + [Controller]);
          ctl := AwaitAcquire(ctl.op, ctl.got);
          return;
        }
      }
      Barrier(State());
    }

    /** addPhylo behind the barrier: a fork and a philosopher more, or nothing when no semaphore
        could be created; either way all tokens go back next. */
    method AddPhylo(ok: bool)
      requires Valid() && ctl == Acquire(Add, |phils|)
      modifies this
      ensures |old(phils)| == |old(forks)| && Valid() && State() == Work(old(State()), ok)
      ensures phils == (if ok then old(phils) + [Outside] else old(phils)) && ctl == Release(|phils|, !ok)
    {
      hide Inv;
      SameSize(State());
      WorkKeeps(State(), ok);
      if ok {
        forks := forks + [Sem(1, [])];
        phils := phils + [Outside];
      }
      ctl := Release(|phils|, !ok);
    }

    /** remPhylo behind the barrier: the last philosopher is killed and its fork destroyed, or
        nothing is done when it could not be killed; either way all tokens go back next. */
    method RemPhylo(ok: bool)
      requires Valid() && ctl == Acquire(Remove, |phils|)
      modifies this
      ensures 0 < |old(phils)| == |old(forks)| && Valid() && State() == Work(old(State()), ok)
      ensures phils == (if ok then old(phils)[..|old(phils)| - 1] else old(phils)) && ctl == Release(|phils|, !ok)
    {
      hide TokenOk, ForksOk;
      SameSize(State());
      WorkKeeps(State(), ok);
      if !ok {
        ctl := Release(|phils|, true);
        return;
      }
      var pos := |phils| - 1;
      token := token.(queue := Bury(token.queue, pos));
      forks := forks[..pos];
      phils := phils[..pos];
      ctl := Release(pos, false);
    }
  }
}
