/** The dining philosophers and the command process that resizes their table: every interleaving
    of their semaphore calls. */
module Philosophers {
  import opened Common

  const PHYLO_MIN_AMOUNT := 2
  const PHYLO_MAX_AMOUNT := 10

  /** Who waits in a queue; `Gone` is a philosopher that was killed while it waited. */
  datatype Party = Phil(i: nat) | Controller | Gone

  datatype Sem = Sem(value: nat, queue: seq<Party>)

  /** Where a philosopher is: the Await phases are blocked, every other one is about to make the
      semaphore call that leads to the next. */
  datatype Phase =
    | Outside | AwaitToken | Thinking | AwaitFirst | HasFirst | AwaitSecond | Eating | LeftOwn | LeftBoth

  datatype Op = Add | Remove | End

  /** The command process: it collects all tokens, changes the table and gives the tokens back. */
  datatype Control =
    | Idle
    | Acquire(op: Op, got: nat)
    | AwaitAcquire(op: Op, got: nat)
    | Release(left: nat, failed: bool)
    | Ending
    | Ended
    | Failed

  datatype Table = Table(phils: seq<Phase>, forks: seq<Sem>, token: Sem, ctl: Control)

  // ---------------------------------------------------------------- the program

  function Right(i: nat, n: nat): nat
    requires n > 0
  {
    (i + 1) % n
  }

  function First(i: nat, n: nat): nat
    requires n > 0
  {
    if i % 2 == 1 then Right(i, n) else i
  }

  function Second(i: nat, n: nat): nat
    requires n > 0
  {
    if i % 2 == 1 then i else Right(i, n)
  }

  /** The semaphore after a post, and who got the token; killed waiters are skipped. */
  function Post(s: Sem): (Sem, Party)
    decreases |s.queue|
  {
    if s.queue == [] then (s.(value := s.value + 1), Gone)
    else if s.queue[0] == Gone then Post(s.(queue := s.queue[1..]))
    else (s.(queue := s.queue[1..]), s.queue[0])
  }

  predicate Blocked(ph: Phase) {
    ph == AwaitToken || ph == AwaitFirst || ph == AwaitSecond
  }

  function Granted(ph: Phase): Phase {
    match ph
    case AwaitToken => Thinking
    case AwaitFirst => HasFirst
    case AwaitSecond => Eating
    case _ => ph
  }

  /** The party that was handed what it waits for goes on. */
  function Resume(t: Table, p: Party): (r: Table)
    ensures |r.phils| == |t.phils| && r.forks == t.forks
  {
    match p
    case Phil(i) => if i < |t.phils| then t.(phils := t.phils[i := Granted(t.phils[i])]) else t
    case Controller => if t.ctl.AwaitAcquire? then t.(ctl := Acquire(t.ctl.op, t.ctl.got + 1)) else t
    case Gone => t
  }

  function PostFork(t: Table, f: nat): Table
    requires f < |t.forks|
  {
    var (s, p) := Post(t.forks[f]);
    Resume(t.(forks := t.forks[f := s]), p)
  }

  function PostToken(t: Table): Table {
    var (s, p) := Post(t.token);
    Resume(t.(token := s), p)
  }

  function WaitFork(t: Table, i: nat, f: nat, held: Phase, waiting: Phase): Table
    requires f < |t.forks| && i < |t.phils|
  {
    var s := t.forks[f];
    if s.value > 0 then t.(forks := t.forks[f := Sem(s.value - 1, s.queue)], phils := t.phils[i := held])
    else t.(forks := t.forks[f := Sem(0, s.queue + [Phil(i)])], phils := t.phils[i := waiting])
  }

  function WaitToken(t: Table, i: nat): Table
    requires i < |t.phils|
  {
    if t.token.value > 0 then t.(token := Sem(t.token.value - 1, t.token.queue), phils := t.phils[i := Thinking])
    else t.(token := Sem(0, t.token.queue + [Phil(i)]), phils := t.phils[i := AwaitToken])
  }

  /** The next semaphore call of philosopher i: one round of its loop is six of them. */
  function Go(t: Table, i: nat): Table
    requires i < |t.phils| == |t.forks|
  {
    var n := |t.phils|;
    match t.phils[i]
    case Outside => WaitToken(t, i)
    case Thinking => WaitFork(t, i, First(i, n), HasFirst, AwaitFirst)
    case HasFirst => WaitFork(t, i, Second(i, n), Eating, AwaitSecond)
    case Eating => PostFork(t.(phils := t.phils[i := LeftOwn]), i)
    case LeftOwn => PostFork(t.(phils := t.phils[i := LeftBoth]), Right(i, n))
    case LeftBoth => PostToken(t.(phils := t.phils[i := Outside]))
    case _ => t
  }

  /** A key: the command process starts a change unless the table is too large or too small. */
  function Press(t: Table, op: Op): Table {
    var n := |t.phils|;
    match op
    case Add => if n < PHYLO_MIN_AMOUNT || n >= PHYLO_MAX_AMOUNT then t else t.(ctl := Acquire(Add, 0))
    case Remove => if n - 1 < PHYLO_MIN_AMOUNT then t else t.(ctl := Acquire(Remove, 0))
    case End => t.(ctl := Acquire(End, 0))
  }

  /** The queue once philosopher i is killed: its node stays, and is skipped later. */
  function Bury(q: seq<Party>, i: nat): (r: seq<Party>)
    ensures |r| == |q|
    ensures forall k :: 0 <= k < |q| ==> r[k] == if q[k] == Phil(i) then Gone else q[k]
  {
    if q == [] then [] else [if q[0] == Phil(i) then Gone else q[0]] + Bury(q[1..], i)
  }

  /** The last philosopher is killed, its fork destroyed, and the table shrinks. */
  function DropLast(t: Table): Table
    requires |t.phils| == |t.forks| > 0
  {
    var m := |t.phils| - 1;
    t.(phils := t.phils[..m], forks := t.forks[..m], token := t.token.(queue := Bury(t.token.queue, m)))
  }

  /** The next step of the command process; `ok` says whether the semaphore could be created, or the
      philosopher killed. */
  function Work(t: Table, ok: bool): Table
    requires |t.phils| == |t.forks|
  {
    var n := |t.phils|;
    match t.ctl
    case Acquire(op, got) =>
      if got < n then
        if t.token.value > 0 then t.(token := Sem(t.token.value - 1, t.token.queue), ctl := Acquire(op, got + 1))
        else t.(token := Sem(0, t.token.queue + [Controller]), ctl := AwaitAcquire(op, got))
      else if op == Add then
        if ok then t.(phils := t.phils + [Outside], forks := t.forks + [Sem(1, [])], ctl := Release(n + 1, false))
        else t.(ctl := Release(n, true))
      else if op == Remove then
        if n > 0 && ok then DropLast(t).(ctl := Release(n - 1, false)) else t.(ctl := Release(n, true))
      else t.(ctl := Ending)
    case Release(left, failed) =>
      if left > 0 then PostToken(t.(ctl := Release(left - 1, failed)))
      else t.(ctl := if failed then Failed else Idle)
    case Ending => if n > 0 then DropLast(t) else t.(ctl := Ended)
    case _ => t
  }

  datatype Event = Move(i: nat) | Key(op: Op) | Command(ok: bool)

  predicate CanMove(t: Table, i: nat) {
    i < |t.phils| && !Blocked(t.phils[i])
  }

  predicate CanWork(t: Table) {
    t.ctl.Acquire? || t.ctl.Release? || t.ctl.Ending?
  }

  predicate Enabled(t: Table, e: Event) {
    match e
    case Move(i) => CanMove(t, i)
    case Key(op) => t.ctl.Idle?
    case Command(ok) => CanWork(t)
  }

  function Step(t: Table, e: Event): Table
    requires |t.phils| == |t.forks| && Enabled(t, e)
  {
    match e
    case Move(i) => Go(t, i)
    case Key(op) => Press(t, op)
    case Command(ok) => Work(t, ok)
  }

  // ---------------------------------------------------------------- the invariant

  predicate HoldsToken(ph: Phase) {
    ph != Outside && ph != AwaitToken
  }

  function Holders(phils: seq<Phase>): nat {
    if phils == [] then 0 else (if HoldsToken(phils[0]) then 1 else 0) + Holders(phils[1..])
  }

  /** Tokens the command process has taken from the table. */
  function Taken(t: Table): nat {
    match t.ctl
    case Acquire(op, got) => got
    case AwaitAcquire(op, got) => got
    case Release(left, failed) => left
    case Ending => |t.phils|
    case _ => 0
  }

  /** Philosopher i in phase ph has fork f in its hand, or is queued for it. */
  predicate Holds(n: nat, i: nat, ph: Phase, f: nat)
    requires n > 0
  {
    match ph
    case HasFirst => f == First(i, n)
    case AwaitSecond => f == First(i, n)
    case Eating => f == i || f == Right(i, n)
    case LeftOwn => f == Right(i, n)
    case _ => false
  }

  predicate Wants(n: nat, i: nat, ph: Phase, f: nat)
    requires n > 0
  {
    (ph == AwaitFirst && f == First(i, n)) || (ph == AwaitSecond && f == Second(i, n))
  }

  /** The other philosopher that uses fork f. */
  function Left(f: nat, n: nat): nat
    requires f < n
  {
    if f == 0 then n - 1 else f - 1
  }

  /** A fork is on the table or in exactly one hand; whoever waits for it is alone in its queue. */
  predicate ForkIs(n: nat, f: nat, s: Sem, own: Phase, other: Phase)
    requires f < n
  {
    var l := Left(f, n);
    && s.value + Count(Holds(n, f, own, f)) + Count(Holds(n, l, other, f)) == 1
    && s.queue == (if Wants(n, f, own, f) then [Phil(f)] else if Wants(n, l, other, f) then [Phil(l)] else [])
    && (s.value == 1 ==> s.queue == [])
  }

  predicate ForkOk(t: Table, f: nat)
    requires |t.phils| == |t.forks| && f < |t.phils|
  {
    ForkIs(|t.phils|, f, t.forks[f], t.phils[f], t.phils[Left(f, |t.phils|)])
  }

  ghost predicate ForksOk(t: Table)
    requires |t.phils| == |t.forks|
  {
    forall f | 0 <= f < |t.phils| :: ForkOk(t, f)
  }

  /** Nobody alive is queued twice. */
  predicate LiveOnce(q: seq<Party>) {
    q == [] || ((q[0] == Gone || q[0] !in q[1..]) && LiveOnce(q[1..]))
  }

  ghost predicate QueueOk(phils: seq<Phase>, q: seq<Party>) {
    && LiveOnce(q)
    && (forall i: nat :: Phil(i) in q ==> i < |phils|)
    && (forall i | 0 <= i < |phils| :: Phil(i) in q <==> phils[i] == AwaitToken)
  }

  ghost predicate TokenOk(t: Table) {
    && t.token.value + Holders(t.phils) + Taken(t) == |t.phils|
    && QueueOk(t.phils, t.token.queue)
    && (Controller in t.token.queue <==> t.ctl.AwaitAcquire?)
    && (t.token.value > 0 ==> t.token.queue == [])
  }

  predicate ControlOk(t: Table) {
    var n := |t.phils|;
    && (t.ctl.Ended? ==> n == 0)
    && (!t.ctl.Ending? && !t.ctl.Ended? ==> n >= PHYLO_MIN_AMOUNT)
    && (t.ctl.Acquire? ==> t.ctl.got <= n)
    && (t.ctl.AwaitAcquire? ==> t.ctl.got < n)
    && ((t.ctl.Acquire? || t.ctl.AwaitAcquire?) && t.ctl.op == Remove ==> n > PHYLO_MIN_AMOUNT)
  }

  ghost predicate Inv(t: Table) {
    |t.phils| == |t.forks| && ControlOk(t) && TokenOk(t) && ForksOk(t)
  }

  // ---------------------------------------------------------------- arithmetic of the circle

  lemma Neighbours(i: nat, n: nat)
    requires i < n
    ensures Right(i, n) < n && Right(i, n) == (if i == n - 1 then 0 else i + 1)
    ensures Left(Right(i, n), n) == i && Right(Left(i, n), n) == i
    ensures First(i, n) < n && Second(i, n) < n && Left(i, n) < n
    ensures n >= 2 ==> First(i, n) != Second(i, n) && Left(i, n) != i && Right(i, n) != i
  {
    if i < n - 1 {
      assert (i + 1) % n == i + 1;
    } else {
      assert (i + 1) % n == 0;
    }
    if i > 0 {
      assert (i - 1 + 1) % n == i;
    }
  }

  /** Only fork f's own philosopher and the one to its left ever hold it or wait for it. */
  lemma OnlyNeighbours(n: nat, i: nat, ph: Phase, f: nat)
    requires i < n && f < n && (Holds(n, i, ph, f) || Wants(n, i, ph, f))
    ensures i == f || i == Left(f, n)
  {
    Neighbours(i, n);
  }

  // ---------------------------------------------------------------- counting tokens

  lemma {:induction false} HoldersSet(s: seq<Phase>, i: nat, ph: Phase)
    requires i < |s|
    ensures Holders(s[i := ph]) == Holders(s) - Count(HoldsToken(s[i])) + Count(HoldsToken(ph))
  {
    if i > 0 {
      HoldersSet(s[1..], i - 1, ph);
      assert s[i := ph][1..] == s[1..][i - 1 := ph];
    } else {
      assert s[0 := ph][1..] == s[1..];
    }
  }

  lemma {:induction false} NoHolders(s: seq<Phase>)
    ensures Holders(s) <= |s|
    ensures Holders(s) == 0 <==> forall i :: 0 <= i < |s| ==> !HoldsToken(s[i])
  {
    if s != [] {
      NoHolders(s[1..]);
      if Holders(s) == 0 {
        forall i | 0 <= i < |s|
          ensures !HoldsToken(s[i])
        {
          if i > 0 { assert s[i] == s[1..][i - 1]; }
        }
      } else if !HoldsToken(s[0]) {
        var i :| 0 <= i < |s[1..]| && HoldsToken(s[1..][i]);
        assert s[i + 1] == s[1..][i];
      }
    }
  }

  lemma {:induction false} HoldersAppend(s: seq<Phase>, ph: Phase)
    ensures Holders(s + [ph]) == Holders(s) + Count(HoldsToken(ph))
  {
    if s == [] {
      assert s + [ph] == [ph] && [ph][1..] == [];
    } else {
      HoldersAppend(s[1..], ph);
      assert (s + [ph])[1..] == s[1..] + [ph];
    }
  }

  // ---------------------------------------------------------------- queues

  lemma {:induction false} LiveOnceAppend(q: seq<Party>, p: Party)
    requires LiveOnce(q) && p !in q
    ensures LiveOnce(q + [p])
  {
    if q == [] {
      assert q + [p] == [p] && [p][1..] == [];
    } else {
      LiveOnceAppend(q[1..], p);
      assert (q + [p])[1..] == q[1..] + [p];
    }
  }

  lemma {:induction false} BuryKeeps(q: seq<Party>, i: nat)
    requires LiveOnce(q)
    ensures LiveOnce(Bury(q, i)) && Phil(i) !in Bury(q, i)
    ensures forall p :: p != Phil(i) && p != Gone ==> (p in Bury(q, i) <==> p in q)
  {
    BuriedMembers(q, i);
    if q != [] {
      BuryKeeps(q[1..], i);
      BuriedMembers(q[1..], i);
      assert Bury(q, i)[1..] == Bury(q[1..], i);
    }
  }

  lemma BuriedMembers(q: seq<Party>, i: nat)
    ensures Phil(i) !in Bury(q, i)
    ensures forall p :: p != Phil(i) && p != Gone ==> (p in Bury(q, i) <==> p in q)
  {
    var r := Bury(q, i);
    forall p | p != Phil(i) && p != Gone
      ensures p in r <==> p in q
    {
      if p in q {
        var k :| 0 <= k < |q| && q[k] == p;
        assert r[k] == p;
      }
    }
  }

  /** What a post does: it counts when nobody alive waits, and else serves the first who does. */
  lemma {:induction false} PostServes(s: Sem)
    requires LiveOnce(s.queue)
    ensures var (r, p) := Post(s);
            && LiveOnce(r.queue) && r.value == s.value + Count(p == Gone) && (p == Gone ==> r.queue == [])
            && (p != Gone ==> p in s.queue && p !in r.queue)
            && (forall x :: x != p && x != Gone ==> (x in r.queue <==> x in s.queue))
    decreases |s.queue|
  {
    if s.queue != [] && s.queue[0] == Gone {
      PostServes(s.(queue := s.queue[1..]));
    }
  }

  // ---------------------------------------------------------------- every step keeps the invariant

  lemma HolderExists(t: Table, i: nat)
    requires TokenOk(t) && i < |t.phils| && HoldsToken(t.phils[i])
    ensures Holders(t.phils) > 0 && Taken(t) < |t.phils| && !t.ctl.Ending?
  {
    hide QueueOk;
    NoHolders(t.phils);
  }

  /** A philosopher that keeps its token changes nothing about the tokens. */
  lemma TokenNeutral(t: Table, i: nat, ph: Phase, forks: seq<Sem>)
    requires TokenOk(t) && i < |t.phils| && HoldsToken(t.phils[i]) && HoldsToken(ph)
    ensures TokenOk(t.(phils := t.phils[i := ph], forks := forks))
  {
    HoldersSet(t.phils, i, ph);
  }

  predicate SameGrip(n: nat, i: nat, a: Phase, b: Phase, f: nat)
    requires n > 0
  {
    Holds(n, i, a, f) == Holds(n, i, b, f) && Wants(n, i, a, f) == Wants(n, i, b, f)
  }

  /** A philosopher's move leaves alone every fork it neither takes, leaves nor queues for. */
  lemma GripKept(t: Table, t': Table, i: nat, f: nat)
    requires |t.phils| == |t.forks| == |t'.phils| == |t'.forks| && i < |t.phils| && f < |t.phils| && ForkOk(t, f)
    requires t'.phils == t.phils[i := t'.phils[i]] && t'.forks[f] == t.forks[f]
    requires SameGrip(|t.phils|, i, t.phils[i], t'.phils[i], f)
    ensures ForkOk(t', f)
  {
    hide Holds, Wants;
  }

  /** The fork that philosopher i asks for: it takes the fork, or is alone in its queue. */
  lemma AskedFork(n: nat, f: nat, s: Sem, own: Phase, other: Phase, i: nat, ph: Phase)
    requires n >= 2 && f < n && i < n && ForkIs(n, f, s, own, other)
    requires i == f || i == Left(f, n)
    requires ph == (if i == f then own else other)
    requires (ph == Thinking && f == First(i, n)) || (ph == HasFirst && f == Second(i, n))
    ensures var next := if ph == Thinking then (if s.value > 0 then HasFirst else AwaitFirst)
                        else if s.value > 0 then Eating else AwaitSecond;
            var s' := if s.value > 0 then Sem(s.value - 1, s.queue) else Sem(0, s.queue + [Phil(i)]);
            ForkIs(n, f, s', if i == f then next else own, if i == f then other else next)
  {
    hide Right;
    Neighbours(i, n);
    Neighbours(f, n);
  }

  /** Philosopher i takes its first or second fork, or queues for it. */
  lemma WaitForkKeeps(t: Table, i: nat, second: bool)
    requires Inv(t) && i < |t.phils| && t.phils[i] == if second then HasFirst else Thinking
    ensures Inv(Go(t, i))
  {
    hide QueueOk, ForkIs, First, Second, Left, Right;
    var n := |t.phils|;
    Neighbours(i, n);
    HolderExists(t, i);
    var f := if second then Second(i, n) else First(i, n);
    var held, waiting := if second then Eating else HasFirst, if second then AwaitSecond else AwaitFirst;
    var t' := Go(t, i);
    assert t' == WaitFork(t, i, f, held, waiting);
    TokenNeutral(t, i, t'.phils[i], t'.forks);
    hide TokenOk, Go;
    AskedForkOk(t, i, second);
    forall g | 0 <= g < n
      ensures ForkOk(t', g)
    {
      assert ForkOk(t, g);
      if g != f {
        AskedGrip(n, i, second, g);
        GripKept(t, t', i, g);
      }
    }
  }

  lemma AskedGrip(n: nat, i: nat, second: bool, g: nat)
    requires i < n && g != if second then Second(i, n) else First(i, n)
    ensures var ph := if second then HasFirst else Thinking;
            && SameGrip(n, i, ph, if second then Eating else HasFirst, g)
            && SameGrip(n, i, ph, if second then AwaitSecond else AwaitFirst, g)
  {
  }

  lemma AskedForkOk(t: Table, i: nat, second: bool)
    requires |t.phils| == |t.forks| && |t.phils| >= 2 && i < |t.phils| && ForksOk(t)
    requires t.phils[i] == if second then HasFirst else Thinking
    ensures var n := |t.phils|;
            var f := if second then Second(i, n) else First(i, n);
            && f < n
            && ForkOk(WaitFork(t, i, f, if second then Eating else HasFirst, if second then AwaitSecond else AwaitFirst), f)
  {
    hide Right, ForkIs, Left;
    var n := |t.phils|;
    var f := if second then Second(i, n) else First(i, n);
    Neighbours(i, n);
    Neighbours(f, n);
    assert ForkOk(t, f);
    AskedFork(n, f, t.forks[f], t.phils[f], t.phils[Left(f, n)], i, t.phils[i]);
  }

  /** The fork a philosopher puts down: free, or in the other philosopher's hand. */
  lemma LeftFork(n: nat, f: nat, s: Sem, own: Phase, other: Phase, byOwn: bool)
    requires n >= 2 && f < n && ForkIs(n, f, s, own, other)
    requires var i, ph := if byOwn then f else Left(f, n), if byOwn then own else other;
             (ph == Eating && f == i) || (ph == LeftOwn && f == Right(i, n))
    ensures var ph, j, them := if byOwn then own else other, if byOwn then Left(f, n) else f, if byOwn then other else own;
            var next := if ph == Eating then LeftOwn else LeftBoth;
            && s.value == 0
            && (s.queue == [] ==> ForkIs(n, f, Sem(1, []), if byOwn then next else own, if byOwn then other else next))
            && (s.queue != [] ==>
                  && s.queue == [Phil(j)] && Wants(n, j, them, f)
                  && ForkIs(n, f, Sem(0, []), if byOwn then next else Granted(own), if byOwn then Granted(other) else next))
  {
    hide Right;
    Neighbours(f, n);
    Neighbours(Left(f, n), n);
  }

  lemma PostSingle(s: Sem, j: nat)
    ensures s.queue == [Phil(j)] ==> Post(s) == (Sem(s.value, []), Phil(j))
    ensures s.queue == [] ==> Post(s) == (Sem(s.value + 1, []), Gone)
  {
    if s.queue == [Phil(j)] {
      assert s.queue[1..] == [];
    }
  }

  /** Philosopher i puts a fork down, and whoever waits for it has it. */
  lemma PostForkKeeps(t: Table, i: nat)
    requires Inv(t) && i < |t.phils| && (t.phils[i] == Eating || t.phils[i] == LeftOwn)
    ensures Inv(Go(t, i))
  {
    hide Right, QueueOk, LiveOnce, Post, Wants, Holds, ForkIs, Left;
    var n := |t.phils|;
    Neighbours(i, n);
    HolderExists(t, i);
    var f := if t.phils[i] == Eating then i else Right(i, n);
    Neighbours(f, n);
    assert ForkOk(t, f);
    var ph := if t.phils[i] == Eating then LeftOwn else LeftBoth;
    var t1 := t.(phils := t.phils[i := ph]);
    TokenNeutral(t, i, ph, t.forks);
    hide TokenOk;
    forall g | 0 <= g < n && g != f
      ensures ForkOk(t1, g)
    {
      assert ForkOk(t, g);
      Released(n, i, t.phils[i], g);
      GripKept(t, t1, i, g);
    }
    LeftFork(n, f, t.forks[f], t.phils[f], t.phils[Left(f, n)], i == f);
    var j := if i == f then Left(f, n) else f;
    PostSingle(t.forks[f], j);
    var t' := Go(t, i);
    if t.forks[f].queue == [] {
      assert t' == t1.(forks := t1.forks[f := Sem(1, [])]);
      assert ForkOk(t', f);
      forall g | 0 <= g < n
        ensures ForkOk(t', g)
      {
        if g != f { ForkUntouched(t1, t', g); }
      }
      SameTokens(t1, t');
    } else {
      HandOver(t1, t', j, f);
      assert ForkOk(t', f);
    }
  }

  lemma SameTokens(t: Table, t': Table)
    requires TokenOk(t) && t' == t.(forks := t'.forks)
    ensures TokenOk(t')
  {
    hide QueueOk;
  }

  lemma Released(n: nat, i: nat, ph: Phase, g: nat)
    requires n > 0 && (ph == Eating || ph == LeftOwn)
    requires g != if ph == Eating then i else Right(i, n)
    ensures SameGrip(n, i, ph, if ph == Eating then LeftOwn else LeftBoth, g)
  {
    hide Right;
  }

  lemma ForkUntouched(t: Table, t': Table, g: nat)
    requires |t.phils| == |t.forks| == |t'.forks| && g < |t.phils| && ForkOk(t, g)
    requires t'.phils == t.phils && t'.forks[g] == t.forks[g]
    ensures ForkOk(t', g)
  {
    hide ForkIs;
  }

  lemma HandOver(t: Table, t': Table, j: nat, f: nat)
    requires |t.phils| == |t.forks| && f < |t.phils| && TokenOk(t) && ControlOk(t) && |t.phils| >= 2
    requires forall g :: 0 <= g < |t.phils| && g != f ==> ForkOk(t, g)
    requires j < |t.phils| && Wants(|t.phils|, j, t.phils[j], f)
    requires t' == t.(forks := t.forks[f := Sem(0, [])], phils := t.phils[j := Granted(t.phils[j])])
    ensures TokenOk(t') && ControlOk(t')
    ensures forall g :: 0 <= g < |t.phils| && g != f ==> ForkOk(t', g)
  {
    hide Right, TokenOk;
    Neighbours(j, |t.phils|);
    TokenNeutral(t, j, t'.phils[j], t'.forks);
    forall g | 0 <= g < |t.phils| && g != f
      ensures ForkOk(t', g)
    {
      GripKept(t, t', j, g);
    }
  }

  lemma WaitTokenKeeps(t: Table, i: nat)
    requires Inv(t) && i < |t.phils| && t.phils[i] == Outside
    ensures Inv(Go(t, i))
  {
    var t' := Go(t, i);
    HoldersSet(t.phils, i, t'.phils[i]);
    if t.token.value == 0 {
      LiveOnceAppend(t.token.queue, Phil(i));
    }
    NotTouched(t, t', i);
  }

  /** Outside the token section a philosopher has nothing to do with forks. */
  predicate Idles(ph: Phase) {
    ph == Outside || ph == AwaitToken || ph == Thinking || ph == LeftBoth
  }

  lemma NotTouched(t: Table, t': Table, i: nat)
    requires |t.phils| == |t.forks| && ForksOk(t) && i < |t.phils|
    requires |t'.phils| == |t.phils| && t'.phils == t.phils[i := t'.phils[i]] && t'.forks == t.forks
    requires Idles(t.phils[i]) && Idles(t'.phils[i])
    ensures ForksOk(t')
  {
    forall f | 0 <= f < |t'.phils|
      ensures ForkOk(t', f)
    {
      assert ForkOk(t, f);
      GripKept(t, t', i, f);
    }
  }

  /** The tokens when one is in nobody's hands, about to be posted. */
  ghost predicate OneToPost(t: Table) {
    && t.token.value + Holders(t.phils) + Taken(t) + 1 == |t.phils|
    && QueueOk(t.phils, t.token.queue)
    && (Controller in t.token.queue <==> t.ctl.AwaitAcquire?)
    && (t.token.value > 0 ==> t.token.queue == [])
  }

  lemma PostTokenKeeps(t: Table)
    requires |t.phils| == |t.forks| && ControlOk(t) && OneToPost(t) && ForksOk(t)
    ensures Inv(PostToken(t))
  {
    hide Post, ForksOk, LiveOnce;
    PostServes(t.token);
    var (s, p) := Post(t.token);
    var t' := PostToken(t);
    match p
    case Gone => SameForks(t, t');
    case Controller => SameForks(t, t');
    case Phil(i) =>
      HoldersSet(t.phils, i, Thinking);
      NotTouched(t, t', i);
  }

  lemma PostKeeps(t: Table, i: nat)
    requires Inv(t) && i < |t.phils| && t.phils[i] == LeftBoth
    ensures Inv(Go(t, i))
  {
    hide LiveOnce;
    var t1 := t.(phils := t.phils[i := Outside]);
    HoldersSet(t.phils, i, Outside);
    NotTouched(t, t1, i);
    PostTokenKeeps(t1);
  }

  lemma GoKeeps(t: Table, i: nat)
    requires Inv(t) && CanMove(t, i)
    ensures Inv(Go(t, i))
  {
    hide Go, Inv;
    match t.phils[i]
    case Outside => WaitTokenKeeps(t, i);
    case Thinking => WaitForkKeeps(t, i, false);
    case HasFirst => WaitForkKeeps(t, i, true);
    case Eating => PostForkKeeps(t, i);
    case LeftOwn => PostForkKeeps(t, i);
    case LeftBoth => PostKeeps(t, i);
    case _ =>
  }

  lemma PressKeeps(t: Table, op: Op)
    requires Inv(t) && t.ctl.Idle?
    ensures Inv(Press(t, op))
  {
    hide QueueOk, ForkOk;
    var t' := Press(t, op);
    SameForks(t, t');
  }

  // ---------------------------------------------------------------- the barrier

  /** No philosopher is past the token semaphore: every fork lies free and nobody waits for one. */
  ghost predicate AllOutside(t: Table) {
    && (forall i | 0 <= i < |t.phils| :: !HoldsToken(t.phils[i]))
    && (forall f | 0 <= f < |t.forks| :: t.forks[f] == Sem(1, []))
  }

  /** A command process that has all the tokens is alone at the table. */
  lemma Barrier(t: Table)
    requires Inv(t) && Taken(t) == |t.phils|
    ensures AllOutside(t) && t.token.value == 0 && Holders(t.phils) == 0
  {
    hide QueueOk;
    NoHolders(t.phils);
    forall f | 0 <= f < |t.forks|
      ensures t.forks[f] == Sem(1, [])
    {
      assert ForkOk(t, f);
    }
  }

  lemma AllOutsideForks(t: Table)
    requires |t.phils| == |t.forks| && AllOutside(t)
    ensures ForksOk(t)
  {
    forall f | 0 <= f < |t.phils|
      ensures ForkOk(t, f)
    {
      assert t.forks[f] == Sem(1, []);
    }
  }

  lemma DropLastKeeps(t: Table)
    requires Inv(t) && Taken(t) == |t.phils| > 0
    ensures var d := DropLast(t);
            && |d.phils| == |d.forks| == |t.phils| - 1 && d.token.value == 0 && Holders(d.phils) == 0
            && AllOutside(d) && ForksOk(d) && QueueOk(d.phils, d.token.queue)
            && (Controller in d.token.queue <==> t.ctl.AwaitAcquire?)
  {
    hide ForksOk, QueueOk, Bury;
    Barrier(t);
    var d := DropLast(t);
    DropsQueue(t.phils, t.token.queue);
    BuryKeeps(t.token.queue, |t.phils| - 1);
    NoHolders(d.phils);
    AllOutsideForks(d);
  }

  lemma DropsQueue(phils: seq<Phase>, q: seq<Party>)
    requires QueueOk(phils, q) && phils != []
    ensures LiveOnce(q) && QueueOk(phils[..|phils| - 1], Bury(q, |phils| - 1))
  {
    hide LiveOnce, Bury;
    BuryKeeps(q, |phils| - 1);
  }

  lemma WorkKeeps(t: Table, ok: bool)
    requires Inv(t) && CanWork(t)
    ensures Inv(Work(t, ok))
  {
    hide ForksOk, LiveOnce;
    var n := |t.phils|;
    var t' := Work(t, ok);
    match t.ctl
    case Acquire(op, got) =>
      if got < n {
        hide ForkOk;
        if t.token.value == 0 { LiveOnceAppend(t.token.queue, Controller); }
        SameForks(t, t');
      } else if op == Add {
        Barrier(t);
        HoldersAppend(t.phils, Outside);
        AllOutsideForks(t');
      } else if op == Remove && ok {
        DropLastKeeps(t);
        SameForks(DropLast(t), t');
      } else {
        hide QueueOk;
        SameForks(t, t');
      }
    case Release(left, failed) =>
      if left > 0 {
        var t1 := t.(ctl := Release(left - 1, failed));
        SameForks(t, t1);
        PostTokenKeeps(t1);
      } else {
        SameForks(t, t');
      }
    case Ending =>
      if n > 0 {
        DropLastKeeps(t);
      } else {
        SameForks(t, t');
      }
    case _ =>
  }

  lemma SameForks(t: Table, t': Table)
    requires |t.phils| == |t.forks| && ForksOk(t) && t'.phils == t.phils && t'.forks == t.forks
    ensures ForksOk(t')
  {
    hide ForkIs;
    forall f | 0 <= f < |t'.phils|
      ensures ForkOk(t', f)
    {
      assert ForkOk(t, f);
    }
  }

  /** Every step of every interleaving keeps the invariant. */
  lemma StepKeeps(t: Table, e: Event)
    requires Inv(t) && Enabled(t, e)
    ensures Inv(Step(t, e))
  {
    hide Inv, Go, Press, Work;
    match e
    case Move(i) => GoKeeps(t, i);
    case Key(op) => PressKeeps(t, op);
    case Command(ok) => WorkKeeps(t, ok);
  }

  /** The table the command process sets up: it still has every token. */
  ghost function Start(n: nat): (t: Table)
    requires n >= PHYLO_MIN_AMOUNT
    ensures Inv(t)
  {
    var t := Table(seq(n, i => Outside), seq(n, i => Sem(1, [])), Sem(0, []), Release(n, false));
    StartInv(t, n);
    t
  }

  lemma StartInv(t: Table, n: nat)
    requires n >= PHYLO_MIN_AMOUNT && |t.phils| == |t.forks| == n && t.token == Sem(0, []) && t.ctl == Release(n, false)
    requires (forall i | 0 <= i < n :: t.phils[i] == Outside) && (forall f | 0 <= f < n :: t.forks[f] == Sem(1, []))
    ensures Inv(t)
  {
    NoHolders(t.phils);
    AllOutsideForks(t);
  }

  // ---------------------------------------------------------------- runs

  ghost predicate AllowedRun(t: Table, es: seq<Event>)
    decreases |es|
  {
    es == [] || (|t.phils| == |t.forks| && Enabled(t, es[0]) && AllowedRun(Step(t, es[0]), es[1..]))
  }

  /** The table after any interleaving of the philosophers and the command process. */
  ghost function Run(t: Table, es: seq<Event>): (t': Table)
    requires Inv(t) && AllowedRun(t, es)
    ensures Inv(t')
    decreases |es|
  {
    hide Inv, Step, Enabled;
    if es == [] then t
    else
      assert Enabled(t, es[0]) by {}
      StepKeeps(t, es[0]);
      Run(Step(t, es[0]), es[1..])
  }

  // ---------------------------------------------------------------- deadlock freedom

  /** A numbering of the forks in which every philosopher asks for the smaller number first,
      for tables of even and of odd size. */
  function Rank(f: nat, n: nat): nat {
    if f % 2 == 1 then 2 else if n % 2 == 1 && f == n - 1 then 0 else 1
  }

  lemma OrderedForks(i: nat, n: nat)
    requires i < n && n >= 2
    ensures Rank(First(i, n), n) < Rank(Second(i, n), n) <= 2
  {
    Neighbours(i, n);
  }

  predicate Hungry(ph: Phase) {
    ph == AwaitFirst || ph == AwaitSecond
  }

  /** The fork a hungry philosopher waits for. */
  function Awaited(n: nat, i: nat, ph: Phase): nat
    requires n > 0
  {
    if ph == AwaitFirst then First(i, n) else Second(i, n)
  }

  /** The philosopher that has the fork a hungry one waits for. */
  function HolderOf(f: nat, n: nat, i: nat): nat
    requires f < n
  {
    if i == f then Left(f, n) else f
  }

  lemma AwaitedIsHeld(t: Table, i: nat)
    requires Inv(t) && i < |t.phils| && Hungry(t.phils[i])
    ensures var n := |t.phils|;
            && n >= 2 && Awaited(n, i, t.phils[i]) < n
            && var f := Awaited(n, i, t.phils[i]);
            var h := HolderOf(f, n, i);
            h < n && h != i && Holds(n, h, t.phils[h], f)
  {
    hide TokenOk, Right;
    var n := |t.phils|;
    HolderExists(t, i);
    Neighbours(i, n);
    var f := Awaited(n, i, t.phils[i]);
    Neighbours(f, n);
    assert ForkOk(t, f);
  }

  /** A philosopher that holds a fork is not blocked, or waits for a fork of higher rank. */
  lemma Chase(t: Table, i: nat) returns (j: nat)
    requires Inv(t) && i < |t.phils| && Hungry(t.phils[i])
    ensures CanMove(t, j)
    decreases 3 - Rank(Awaited(|t.phils|, i, t.phils[i]), |t.phils|)
  {
    hide Inv, Right, Rank;
    var n := |t.phils|;
    AwaitedIsHeld(t, i);
    var f := Awaited(n, i, t.phils[i]);
    j := HolderOf(f, n, i);
    if Blocked(t.phils[j]) {
      OrderedForks(j, n);
      j := Chase(t, j);
    }
  }

  lemma NotAllQueued(t: Table)
    requires Inv(t) && !t.ctl.Ended?
    ensures CanWork(t) || exists i :: 0 <= i < |t.phils| && t.phils[i] != AwaitToken
  {
    hide ForksOk, LiveOnce;
    NoHolders(t.phils);
    if !CanWork(t) {
      assert Taken(t) < |t.phils|;
      if t.token.value > 0 {
        assert Phil(0) !in t.token.queue;
        assert t.phils[0] != AwaitToken;
      }
    }
  }

  /** No deadlock, for every table size and every interleaving: while the command process has
      not taken the table away, it or a philosopher can go on without any key. */
  lemma NoDeadlock(t: Table)
    requires Inv(t) && !t.ctl.Ended?
    ensures CanWork(t) || exists i: nat :: CanMove(t, i)
  {
    hide Awaited, Right, ForksOk;
    NotAllQueued(t);
    if !CanWork(t) {
      var i :| 0 <= i < |t.phils| && t.phils[i] != AwaitToken;
      if Hungry(t.phils[i]) {
        var j := Chase(t, i);
        assert CanMove(t, j);
      } else {
        assert CanMove(t, i);
      }
    }
  }

  /** The same, from the set-up of any table of at least two. */
  lemma NeverDeadlocked(n: nat, es: seq<Event>)
    requires n >= PHYLO_MIN_AMOUNT && AllowedRun(Start(n), es)
    ensures var t := Run(Start(n), es); t.ctl.Ended? || CanWork(t) || exists i: nat :: CanMove(t, i)
  {
    hide Inv, Start;
    var t := Run(Start(n), es);
    if !t.ctl.Ended? { NoDeadlock(t); }
  }

  // ---------------------------------------------------------------- forks

  /** Neighbours never eat at the same time, and an eating philosopher has both its forks alone. */
  lemma NeighboursExclude(t: Table, i: nat, j: nat, f: nat)
    requires Inv(t) && i < |t.phils| && j < |t.phils| && f < |t.phils|
    requires Holds(|t.phils|, i, t.phils[i], f) && Holds(|t.phils|, j, t.phils[j], f)
    ensures i == j
    ensures t.forks[f].value == 0
  {
    hide TokenOk, Right;
    OnlyNeighbours(|t.phils|, i, t.phils[i], f);
    OnlyNeighbours(|t.phils|, j, t.phils[j], f);
    assert ForkOk(t, f);
  }

  /** The table, and so every philosopher's right fork, only changes while the command process
      has all the tokens: no philosopher then holds a fork, so the one that is killed holds
      none, and the fork that is destroyed is free and nobody waits for it. */
  lemma TableChangesAlone(t: Table, e: Event)
    requires Inv(t) && Enabled(t, e) && |Step(t, e).phils| != |t.phils|
    ensures AllOutside(t) && Taken(t) == |t.phils| && AllOutside(Step(t, e))
    ensures forall i | 0 <= i < |t.phils| && i < |Step(t, e).phils| :: Step(t, e).phils[i] == t.phils[i]
  {
    hide TokenOk, ForksOk, Post, QueueOk, Right;
    match e
    case Move(i) => MovesKeepSize(t, i);
    case Key(op) =>
    case Command(ok) =>
      assert t.ctl.Acquire? || t.ctl.Ending?;
      assert Taken(t) == |t.phils|;
      Barrier(t);
  }

  /** Outside a change, and once a change is over, as many tokens circulate as there are
      philosophers. */
  lemma TokensCirculate(n: nat, es: seq<Event>)
    requires n >= PHYLO_MIN_AMOUNT && AllowedRun(Start(n), es)
    ensures var t := Run(Start(n), es);
            && t.token.value + Holders(t.phils) + Taken(t) == |t.phils| == |t.forks|
            && (t.ctl.Idle? || t.ctl.Failed? ==> t.token.value + Holders(t.phils) == |t.phils| >= PHYLO_MIN_AMOUNT)
  {
    hide Start, QueueOk, ForksOk;
  }

  lemma SameSize(t: Table)
    requires Inv(t)
    ensures |t.phils| == |t.forks|
  {
    hide ForksOk, TokenOk;
  }

  lemma MovesKeepSize(t: Table, i: nat)
    requires |t.phils| == |t.forks| && CanMove(t, i)
    ensures |Go(t, i).phils| == |t.phils|
  {
    hide Post, Right;
    Neighbours(i, |t.phils|);
  }

  lemma WaiterGoesOn(t: Table, e: Event, i: nat)
    requires Inv(t) && Enabled(t, e) && i < |t.phils| && Hungry(t.phils[i])
    ensures |Step(t, e).phils| == |t.phils|
    ensures Step(t, e).phils[i] == t.phils[i] || Step(t, e).phils[i] == Granted(t.phils[i])
  {
    hide Post, Right, Inv;
    SameSize(t);
    if |Step(t, e).phils| != |t.phils| {
      TableChangesAlone(t, e);
    }
    Neighbours(i, |t.phils|);
  }

  /** Nobody is overtaken at a fork: while philosopher i waits for fork f, whatever happens, the
      same neighbour keeps it, and the next to hold it is i. */
  lemma NoOvertaking(t: Table, e: Event, i: nat, f: nat, j: nat)
    requires Inv(t) && Enabled(t, e) && i < |t.phils| && f < |t.phils| && j < |t.phils|
    requires Wants(|t.phils|, i, t.phils[i], f)
    ensures |Step(t, e).phils| == |t.phils|
    ensures var t' := Step(t, e);
            || Holds(|t.phils|, i, t'.phils[i], f)
            || (Wants(|t.phils|, i, t'.phils[i], f)
                && (Holds(|t.phils|, j, t'.phils[j], f) <==> Holds(|t.phils|, j, t.phils[j], f)))
  {
    hide TokenOk, Right, Step;
    WaiterGoesOn(t, e, i);
    StepKeeps(t, e);
    var t' := Step(t, e);
    var n := |t.phils|;
    Neighbours(f, n);
    OnlyNeighbours(n, i, t.phils[i], f);
    assert ForkOk(t, f) && ForkOk(t', f);
    if Holds(n, j, t'.phils[j], f) { OnlyNeighbours(n, j, t'.phils[j], f); }
    if Holds(n, j, t.phils[j], f) { OnlyNeighbours(n, j, t.phils[j], f); }
  }
}
