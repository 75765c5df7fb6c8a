/** In which order the token is handed out, which keys start a change, and how large the table gets. */
module PhilosopherOrder {
  import opened Common
  import opened Philosophers

  // ---------------------------------------------------------------- the token

  /** A post serves the first in the queue that was not killed, and the others keep their order; it
      counts exactly when there is nobody of the kind. */
  lemma {:induction false} PostServesFirst(s: Sem)
    ensures var (r, p) := Post(s);
            if p == Gone then r == Sem(s.value + 1, []) && s.queue == Times(|s.queue|, Gone)
            else r.value == s.value && exists k: nat :: s.queue == Times(k, Gone) + [p] + r.queue
    decreases |s.queue|
  {
    if s.queue != [] && s.queue[0] == Gone {
      var (r, p) := Post(s);
      var rest := s.queue[1..];
      assert s.queue == [Gone] + rest;
      PostServesFirst(s.(queue := rest));
      if p != Gone {
        var k: nat :| rest == Times(k, Gone) + [p] + r.queue;
        assert s.queue == Times(k + 1, Gone) + [p] + r.queue;
      }
    } else if s.queue != [] {
      var (r, p) := Post(s);
      assert s.queue == Times(0, Gone) + [p] + r.queue;
    }
  }

  /** From q to q': whoever joins, joins at the end, and whoever leaves was the first alive. */
  ghost predicate FirstComeFirstServed(q: seq<Party>, q': seq<Party>) {
    exists k: nat, joining: seq<Party> ::
      k <= |q| && |joining| <= 1 && q' == q[k..] + joining && forall i | 0 <= i < k - 1 :: q[i] == Gone
  }

  lemma Joins(q: seq<Party>, joining: seq<Party>)
    requires |joining| <= 1
    ensures FirstComeFirstServed(q, q + joining)
  {
    assert q + joining == q[0..] + joining;
  }

  lemma Served(q: seq<Party>, k: nat, p: Party, rest: seq<Party>)
    requires q == Times(k, Gone) + [p] + rest
    ensures FirstComeFirstServed(q, rest)
  {
    TimesAt(k);
    assert q[k + 1..] + [] == rest;
    forall i | 0 <= i < k
      ensures q[i] == Gone
    {
      assert q[i] == Times(k, Gone)[i];
    }
  }

  lemma {:induction false} TimesAt(k: nat)
    ensures forall i | 0 <= i < k :: Times(k, Gone)[i] == Gone
  {
    if k > 0 { TimesAt(k - 1); }
  }

  lemma PostInOrder(s: Sem)
    ensures FirstComeFirstServed(s.queue, Post(s).0.queue)
  {
    hide FirstComeFirstServed;
    PostServesFirst(s);
    var (r, p) := Post(s);
    if p == Gone {
      EmptiesOut(s.queue);
    } else {
      var k: nat :| s.queue == Times(k, Gone) + [p] + r.queue;
      Served(s.queue, k, p, r.queue);
    }
  }

  lemma EmptiesOut(q: seq<Party>)
    requires q == Times(|q|, Gone)
    ensures FirstComeFirstServed(q, [])
  {
    hide Times;
    TimesAt(|q|);
    assert q[|q|..] + [] == [];
    forall i | 0 <= i < |q|
      ensures q[i] == Gone
    {
      assert q[i] == Times(|q|, Gone)[i];
    }
  }

  lemma PostsToken(t: Table)
    ensures FirstComeFirstServed(t.token.queue, PostToken(t).token.queue) && |PostToken(t).phils| == |t.phils|
  {
    hide FirstComeFirstServed, Post;
    PostInOrder(t.token);
  }

  lemma GoInOrder(t: Table, i: nat)
    requires |t.phils| == |t.forks| && CanMove(t, i)
    ensures FirstComeFirstServed(t.token.queue, Go(t, i).token.queue) && |Go(t, i).phils| == |t.phils|
  {
    hide FirstComeFirstServed, Right, Post, PostToken;
    MovesKeepSize(t, i);
    Neighbours(i, |t.phils|);
    var q := t.token.queue;
    Joins(q, []);
    assert q + [] == q;
    match t.phils[i]
    case Outside => Joins(q, [Phil(i)]);
    case LeftBoth => PostsToken(t.(phils := t.phils[i := Outside]));
    case _ =>
  }

  lemma WorkInOrder(t: Table, ok: bool)
    requires |t.phils| == |t.forks|
    ensures var t' := Work(t, ok);
            if |t'.phils| < |t.phils| then t'.token.queue == Bury(t.token.queue, |t.phils| - 1)
            else FirstComeFirstServed(t.token.queue, t'.token.queue)
  {
    hide FirstComeFirstServed, Bury, PostToken;
    var q := t.token.queue;
    Joins(q, []);
    assert q + [] == q;
    Joins(q, [Controller]);
    if t.ctl.Release? && t.ctl.left > 0 { PostsToken(t.(ctl := Release(t.ctl.left - 1, t.ctl.failed))); }
  }

  /** The token goes round in the order of asking, for the philosophers and the command process
      alike, in every event; only the philosopher that leaves the table is struck out. */
  lemma TokenInOrder(t: Table, e: Event)
    requires Inv(t) && Enabled(t, e)
    ensures |t.phils| == |t.forks|
    ensures var t' := Step(t, e);
            if |t'.phils| < |t.phils| then t'.token.queue == Bury(t.token.queue, |t.phils| - 1)
            else FirstComeFirstServed(t.token.queue, t'.token.queue)
  {
    hide FirstComeFirstServed, Bury, Inv, Go, Work;
    SameSize(t);
    match e
    case Move(i) => GoInOrder(t, i);
    case Key(op) =>
      Joins(t.token.queue, []);
      assert t.token.queue + [] == t.token.queue;
    case Command(ok) => WorkInOrder(t, ok);
  }

  // ---------------------------------------------------------------- keys

  /** A key starts its change, or is turned down: one more philosopher exactly at a table of 2 to 9,
      one less exactly at a table of 3 or more, the end always. */
  lemma KeyStarts(t: Table, op: Op)
    requires Inv(t) && t.ctl.Idle?
    ensures |t.phils| == |t.forks|
    ensures var n := |t.phils|;
            var starts := match op case Add => 2 <= n <= 9 case Remove => n >= 3 case End => true;
            Step(t, Key(op)) == if starts then t.(ctl := Acquire(op, 0)) else t
  {
  }

  /** No more than ten at the table, and fewer where one more is about to sit down. */
  predicate SizeOk(t: Table) {
    |t.phils| <= 10 && ((t.ctl.Acquire? || t.ctl.AwaitAcquire?) && t.ctl.op == Add ==> |t.phils| <= 9)
  }

  lemma SizeStep(t: Table, e: Event)
    requires Inv(t) && Enabled(t, e) && SizeOk(t)
    ensures |t.phils| == |t.forks| && SizeOk(Step(t, e))
  {
    hide TokenOk, ForksOk, Right, Post, Bury;
    if e.Move? { Neighbours(e.i, |t.phils|); }
  }

  lemma {:induction false} SizeKept(t: Table, es: seq<Event>)
    requires Inv(t) && SizeOk(t) && AllowedRun(t, es)
    ensures SizeOk(Run(t, es))
    decreases |es|
  {
    hide Inv, Step, Enabled, SizeOk;
    if es != [] {
      assert Enabled(t, es[0]) by {}
      SizeStep(t, es[0]);
      StepKeeps(t, es[0]);
      SizeKept(Step(t, es[0]), es[1..]);
    }
  }

  /** From a table of 2 to 10, every interleaving keeps the table within these limits until its end. */
  lemma TableSize(n: nat, es: seq<Event>)
    requires 2 <= n <= 10 && AllowedRun(Start(n), es)
    ensures var t := Run(Start(n), es);
            |t.phils| <= 10 && (t.ctl.Ending? || t.ctl.Ended? || |t.phils| >= 2)
  {
    hide TokenOk, ForksOk;
    SizeKept(Start(n), es);
  }
}
