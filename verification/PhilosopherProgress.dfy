/** No philosopher starves at the table: while one waits for a fork, the philosopher at the end of
    the chain of holders can move, and a few such moves give the waiting one its fork. */
module PhilosopherProgress {
  import opened Common
  import opened Philosophers

  /** An upper bound on what a holder of a fork of this rank still has to wait for and do. */
  function Worst(rank: nat): nat {
    if rank >= 2 then 2 else if rank == 1 then 5 else 8
  }

  predicate HoldsFork(t: Table, h: nat, f: nat) {
    h < |t.phils| && f < |t.phils| && Holds(|t.phils|, h, t.phils[h], f)
  }

  /** Moves on the chain of holders from h until h puts fork f down, at most. */
  ghost function Delay(t: Table, h: nat, f: nat): (d: nat)
    requires Inv(t) && |t.phils| >= 2 && HoldsFork(t, h, f)
    ensures 1 <= d <= Worst(Rank(f, |t.phils|))
    decreases 3 - Rank(f, |t.phils|)
  {
    hide Inv, Right;
    var n := |t.phils|;
    Neighbours(h, n);
    OrderedForks(h, n);
    if t.phils[h] == HasFirst then 3 + Worst(Rank(Second(h, n), n))
    else if t.phils[h] == AwaitSecond then
      AwaitedIsHeld(t, h);
      2 + Delay(t, HolderOf(Second(h, n), n, h), Second(h, n))
    else if t.phils[h] == Eating && f != h then 2
    else 1
  }

  /** The end of the chain of holders from h. */
  ghost function Mover(t: Table, h: nat, f: nat): (j: nat)
    requires Inv(t) && |t.phils| >= 2 && HoldsFork(t, h, f)
    ensures CanMove(t, j)
    decreases 3 - Rank(f, |t.phils|)
  {
    hide Inv, Right, Rank;
    var n := |t.phils|;
    if t.phils[h] == AwaitSecond then
      OrderedForks(h, n);
      AwaitedIsHeld(t, h);
      Mover(t, HolderOf(Second(h, n), n, h), Second(h, n))
    else h
  }

  /** What others do leaves a philosopher that is not blocked where it is. */
  lemma OthersKeep(t: Table, e: Event, h: nat, f: nat)
    requires Inv(t) && Enabled(t, e) && HoldsFork(t, h, f)
    ensures |t.phils| == |t.forks| && |Step(t, e).phils| == |t.phils|
    ensures !Blocked(t.phils[h]) && e != Move(h) ==> Step(t, e).phils[h] == t.phils[h]
  {
    hide Inv, Go, Work, Press;
    SameSize(t);
    if |Step(t, e).phils| != |t.phils| {
      TableChangesAlone(t, e);
    }
    match e
    case Move(i) => if i != h && !Blocked(t.phils[h]) { MoveKeeps(t, i, h); }
    case Key(op) => PressPhils(t, op);
    case Command(ok) => if !Blocked(t.phils[h]) { WorkKeepsPhase(t, ok, h); }
  }

  /** Another philosopher's move only ever wakes a blocked one. */
  lemma MoveKeeps(t: Table, i: nat, h: nat)
    requires |t.phils| == |t.forks| && CanMove(t, i) && h < |t.phils| && h != i && !Blocked(t.phils[h])
    ensures h < |Go(t, i).phils| && Go(t, i).phils[h] == t.phils[h]
  {
    hide Post, Right;
    Neighbours(i, |t.phils|);
  }

  lemma PressPhils(t: Table, op: Op)
    ensures Press(t, op).phils == t.phils
  {
  }

  lemma WorkKeepsPhase(t: Table, ok: bool, h: nat)
    requires |t.phils| == |t.forks| && CanWork(t) && h < |t.phils| && !Blocked(t.phils[h])
    ensures h < |Work(t, ok).phils| ==> Work(t, ok).phils[h] == t.phils[h]
  {
    hide Post, Bury;
  }

  /** The holder's own move: it takes or queues for its second fork, or puts one down. */
  lemma OwnMove(t: Table, h: nat, f: nat)
    requires Inv(t) && CanMove(t, h) && HoldsFork(t, h, f)
    ensures |t.phils| == |t.forks| && |Go(t, h).phils| == |t.phils|
    ensures match t.phils[h]
            case HasFirst => Go(t, h).phils[h] == Eating || Go(t, h).phils[h] == AwaitSecond
            case Eating => Go(t, h).phils[h] == LeftOwn
            case _ => Go(t, h).phils[h] == LeftBoth
  {
    hide Inv, Right, Post;
    SameSize(t);
    Neighbours(h, |t.phils|);
  }

  /** No event makes the way of a holder longer, and a move at the end of its chain shortens it. */
  lemma DelayStep(t: Table, e: Event, h: nat, f: nat)
    requires Inv(t) && Enabled(t, e) && |t.phils| >= 2 && HoldsFork(t, h, f)
    ensures |t.phils| == |t.forks| && |Step(t, e).phils| == |t.phils| && Inv(Step(t, e))
    ensures !HoldsFork(Step(t, e), h, f) ==> e == Move(h)
    ensures HoldsFork(Step(t, e), h, f) ==>
              Delay(Step(t, e), h, f) + Count(e == Move(Mover(t, h, f))) <= Delay(t, h, f)
    decreases 3 - Rank(f, |t.phils|)
  {
    hide Inv, Right, Step, Go, Rank;
    var n := |t.phils|;
    Neighbours(h, n);
    OrderedForks(h, n);
    OthersKeep(t, e, h, f);
    StepKeeps(t, e);
    var t' := Step(t, e);
    if t.phils[h] == AwaitSecond {
      AwaitedIsHeld(t, h);
      WaiterGoesOn(t, e, h);
      var g := Second(h, n);
      if t'.phils[h] == AwaitSecond {
        AwaitedIsHeld(t', h);
        DelayStep(t, e, HolderOf(g, n, h), g);
      }
    } else if e == Move(h) {
      OwnMove(t, h, f);
      StepIsGo(t, h);
    }
  }

  lemma StepIsGo(t: Table, h: nat)
    requires |t.phils| == |t.forks| && CanMove(t, h)
    ensures Step(t, Move(h)) == Go(t, h)
  {
    hide Go;
  }

  // ---------------------------------------------------------------- runs

  /** Philosopher i waits for the same fork all along. */
  ghost predicate StaysHungry(t: Table, es: seq<Event>, i: nat, ph: Phase)
    requires Inv(t) && AllowedRun(t, es)
    decreases |es|
  {
    && i < |t.phils| && t.phils[i] == ph
    && (es == [] || (StepKeeps(t, es[0]); StaysHungry(Step(t, es[0]), es[1..], i, ph)))
  }

  /** The holder of the fork that philosopher i waits for. */
  function Obstacle(t: Table, i: nat): nat
    requires |t.phils| > 0 && i < |t.phils| && Awaited(|t.phils|, i, t.phils[i]) < |t.phils|
  {
    HolderOf(Awaited(|t.phils|, i, t.phils[i]), |t.phils|, i)
  }

  /** How often, in a run, the philosopher at the end of the chain that i waits on moves. */
  ghost function ChainMoves(t: Table, es: seq<Event>, i: nat, ph: Phase): nat
    requires Inv(t) && AllowedRun(t, es) && Hungry(ph) && StaysHungry(t, es, i, ph)
    decreases |es|
  {
    hide Inv, Step;
    if es == [] then 0
    else
      AwaitedIsHeld(t, i);
      StepKeeps(t, es[0]);
      Count(es[0] == Move(Mover(t, Obstacle(t, i), Awaited(|t.phils|, i, ph))))
      + ChainMoves(Step(t, es[0]), es[1..], i, ph)
  }

  /** No starvation: as long as philosopher i waits for a fork, the end of its chain of holders can
      move, and such moves have happened fewer than eight times. */
  lemma {:induction false} BoundedHunger(t: Table, es: seq<Event>, i: nat, ph: Phase)
    requires Inv(t) && AllowedRun(t, es) && Hungry(ph) && StaysHungry(t, es, i, ph)
    ensures |t.phils| >= 2 && Awaited(|t.phils|, i, ph) < |t.phils|
    ensures HoldsFork(t, Obstacle(t, i), Awaited(|t.phils|, i, ph))
    ensures CanMove(t, Mover(t, Obstacle(t, i), Awaited(|t.phils|, i, ph)))
    ensures ChainMoves(t, es, i, ph) < Delay(t, Obstacle(t, i), Awaited(|t.phils|, i, ph)) <= 8
    decreases |es|
  {
    hide Inv, Step, Enabled, Right, Rank;
    AwaitedIsHeld(t, i);
    if es != [] {
      var e, t' := es[0], Step(t, es[0]);
      StepKeeps(t, e);
      AwaitedIsHeld(t', i);
      DelayStep(t, e, Obstacle(t, i), Awaited(|t.phils|, i, ph));
      BoundedHunger(t', es[1..], i, ph);
    }
  }
}
