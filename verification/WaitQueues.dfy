/** Wait-queue safety: a process is blocked, or waiting to exit, exactly when it occurs once in
    one queue; and whatever a queue holds is still in the process table. */
module WaitQueues {
  import opened Common
  import opened KernelSpec

  /** The places that hold a PCB pointer: a semaphore queue, the sleep list, the waitingForMe of a
      process that has not exited, and the kernel call that has just taken it off one of these. */
  datatype Place = OnSem(id: int) | Asleep | OnExitOf(pid: Pid) | InHand

  function Pids(sleepers: seq<Sleeper>): seq<Pid> {
    seq(|sleepers|, i requires 0 <= i < |sleepers| => sleepers[i].pid)
  }

  function Queue(k: Kernel, hand: seq<Pid>, l: Place): seq<Pid> {
    match l
    case OnSem(id) => if 0 <= id < |k.sems| then k.sems[id].queue else []
    case Asleep => Pids(k.sleepers)
    case OnExitOf(p) => if p in k.procs && k.procs[p].state != Exited then k.procs[p].waitingForMe else []
    case InHand => hand
  }

  /** No process twice in a queue, none in two queues. */
  ghost predicate OnePlace(k: Kernel, hand: seq<Pid>) {
    && (forall l :: NoDuplicates(Queue(k, hand, l)))
    && (forall l, m, p :: p in Queue(k, hand, l) && p in Queue(k, hand, m) ==> l == m)
  }

  predicate Waits(k: Kernel, p: Pid) {
    p in k.procs && Waiting(k.procs[p].state)
  }

  ghost predicate Queued(k: Kernel, hand: seq<Pid>, p: Pid) {
    exists l :: p in Queue(k, hand, l)
  }

  ghost predicate WaitInv(k: Kernel, hand: seq<Pid>) {
    OnePlace(k, hand) && forall p :: Queued(k, hand, p) <==> Waits(k, p)
  }

  // ---------------------------------------------------------------- the moves of a process

  /** Nothing that the queues or the waiting states show has changed. */
  lemma SameQueues(k: Kernel, k': Kernel, hand: seq<Pid>)
    requires WaitInv(k, hand)
    requires forall l :: Queue(k', hand, l) == Queue(k, hand, l)
    requires forall p :: Waits(k', p) <==> Waits(k, p)
    ensures WaitInv(k', hand)
  {
    forall p
      ensures Queued(k', hand, p) <==> Waits(k', p)
    {
      assert Queued(k, hand, p) <==> Waits(k, p);
      if Queued(k, hand, p) {
        var l :| p in Queue(k, hand, l);
        assert p in Queue(k', hand, l);
      }
      if Queued(k', hand, p) {
        var l :| p in Queue(k', hand, l);
        assert p in Queue(k, hand, l);
      }
    }
  }

  /** The head of the hand stops waiting and is let go. */
  lemma LeavesHand(k: Kernel, k': Kernel, p: Pid, rest: seq<Pid>)
    requires WaitInv(k, [p] + rest)
    requires forall l :: l != InHand ==> Queue(k', rest, l) == Queue(k, [p] + rest, l)
    requires forall q :: Waits(k', q) <==> Waits(k, q) && q != p
    ensures WaitInv(k', rest)
  {
    var hand := [p] + rest;
    assert NoDuplicates(Queue(k, hand, InHand));
    assert hand[0] == p && hand[1..] == rest;
    forall i | 0 <= i < |rest|
      ensures rest[i] != p
    {
      assert hand[i + 1] == rest[i];
    }
    Moved(k, hand, k', rest, p);
  }

  /** p stops waiting and is gone from the one queue that held it; nothing else moves. */
  lemma Moved(k: Kernel, hand: seq<Pid>, k': Kernel, hand': seq<Pid>, p: Pid)
    requires WaitInv(k, hand) && Waits(k, p)
    requires forall l :: NoDuplicates(Queue(k', hand', l))
    requires forall l, q :: q in Queue(k', hand', l) <==> q in Queue(k, hand, l) && q != p
    requires forall q :: Waits(k', q) <==> Waits(k, q) && q != p
    ensures WaitInv(k', hand')
  {
    forall q
      ensures Queued(k', hand', q) <==> Waits(k', q)
    {
      assert Queued(k, hand, q) <==> Waits(k, q);
      if Queued(k, hand, q) && q != p {
        var l :| q in Queue(k, hand, l);
        assert q in Queue(k', hand', l);
      }
      if Queued(k', hand', q) {
        var l :| q in Queue(k', hand', l);
        assert q in Queue(k, hand, l);
      }
    }
  }

  lemma NoDuplicatesWithout(s: seq<Pid>, i: nat)
    requires NoDuplicates(s) && i < |s|
    ensures NoDuplicates(s[..i] + s[i + 1..])
    ensures forall q :: q in s[..i] + s[i + 1..] <==> q in s && q != s[i]
  {
    var t := s[..i] + s[i + 1..];
    forall j | 0 <= j < |t|
      ensures t[j] == s[if j < i then j else j + 1] && t[j] != s[i]
    {
    }
    forall q | q in s && q != s[i]
      ensures q in t
    {
      var j :| 0 <= j < |s| && s[j] == q;
      assert t[if j < i then j else j - 1] == q;
    }
  }

  /** Element i of queue l is taken into the hand. */
  lemma TakenInHand(k: Kernel, k': Kernel, hand: seq<Pid>, l: Place, i: nat)
    requires WaitInv(k, hand) && l != InHand && i < |Queue(k, hand, l)|
    requires Queue(k', [], l) == Queue(k, hand, l)[..i] + Queue(k, hand, l)[i + 1..]
    requires forall m :: m != l && m != InHand ==> Queue(k', [], m) == Queue(k, [], m)
    requires forall q :: Waits(k', q) <==> Waits(k, q)
    ensures WaitInv(k', [Queue(k, hand, l)[i]] + hand)
  {
    var p := Queue(k, hand, l)[i];
    var hand' := [p] + hand;
    NoDuplicatesWithout(Queue(k, hand, l), i);
    assert p in Queue(k, hand, l);
    assert p !in hand by {
      assert hand == Queue(k, hand, InHand);
    }
    forall m
      ensures NoDuplicates(Queue(k', hand', m))
      ensures forall q :: q in Queue(k', hand', m) <==> if m == InHand then q in hand || q == p else q in Queue(k, hand, m) && q != p
    {
      assert NoDuplicates(Queue(k, hand, m));
      if m == l {
        assert Queue(k', hand', m) == Queue(k', [], m);
      } else if m != InHand {
        assert Queue(k', hand', m) == Queue(k', [], m) == Queue(k, [], m) == Queue(k, hand, m);
      }
    }
    HandTakes(k, hand, k', hand', p, l);
  }

  /** p has moved from queue l to the hand; nobody else has moved. */
  lemma HandTakes(k: Kernel, hand: seq<Pid>, k': Kernel, hand': seq<Pid>, p: Pid, l: Place)
    requires WaitInv(k, hand) && l != InHand && p in Queue(k, hand, l) && p in Queue(k', hand', InHand)
    requires forall m :: NoDuplicates(Queue(k', hand', m))
    requires forall m, q :: q in Queue(k', hand', m) && (m != InHand || q != p) ==> q in Queue(k, hand, m) && q != p
    requires forall m, q :: q in Queue(k, hand, m) && q != p ==> q in Queue(k', hand', m)
    requires forall q :: Waits(k', q) <==> Waits(k, q)
    ensures WaitInv(k', hand')
  {
    forall q
      ensures Queued(k', hand', q) <==> Waits(k', q)
    {
      assert Queued(k, hand, q) <==> Waits(k, q);
      if Queued(k, hand, q) {
        var m :| q in Queue(k, hand, m);
        assert q in Queue(k', hand', if q == p then InHand else m);
      }
      if Queued(k', hand', q) {
        var m :| q in Queue(k', hand', m);
        assert q in Queue(k, hand, if q == p then l else m);
      }
    }
  }

  /** A process that waits nowhere becomes blocked as entry i of queue l. */
  lemma EntersQueue(k: Kernel, k': Kernel, p: Pid, l: Place, i: nat)
    requires WaitInv(k, []) && !Waits(k, p) && l != InHand && i <= |Queue(k, [], l)|
    requires Queue(k', [], l) == Queue(k, [], l)[..i] + [p] + Queue(k, [], l)[i..]
    requires forall m :: m != l ==> Queue(k', [], m) == Queue(k, [], m)
    requires forall q :: Waits(k', q) <==> Waits(k, q) || q == p
    ensures WaitInv(k', [])
  {
    forall m
      ensures p !in Queue(k, [], m)
    {
      if p in Queue(k, [], m) {
        assert Queued(k, [], p);
      }
    }
    forall m
      ensures NoDuplicates(Queue(k', [], m))
      ensures forall q :: q in Queue(k', [], m) <==> q in Queue(k, [], m) || (m == l && q == p)
    {
      assert NoDuplicates(Queue(k, [], m)) && p !in Queue(k, [], m);
      if m == l { InsertedOnce(Queue(k, [], l), p, i); }
    }
    forall q
      ensures Queued(k', [], q) <==> Waits(k', q)
    {
      assert Queued(k, [], q) <==> Waits(k, q);
      if Queued(k, [], q) {
        var m :| q in Queue(k, [], m);
        assert q in Queue(k', [], m);
      }
      if q == p {
        assert q in Queue(k', [], l);
      }
      if Queued(k', [], q) {
        var m :| q in Queue(k', [], m);
        assert q == p || q in Queue(k, [], m);
      }
    }
  }

  lemma InsertedOnce(s: seq<Pid>, p: Pid, i: nat)
    requires NoDuplicates(s) && p !in s && i <= |s|
    ensures NoDuplicates(s[..i] + [p] + s[i..])
    ensures forall q :: q in s[..i] + [p] + s[i..] <==> q in s || q == p
  {
    assert s == s[..i] + s[i..];
  }

  /** A process exits: the processes waiting for it are taken into the hand. */
  lemma ExitsToHand(k: Kernel, p: Pid, hand: seq<Pid>, rest: seq<Pid>)
    requires p in k.procs && k.procs[p].state != Exited && WaitInv(k, hand)
    requires hand == if Waits(k, p) then [p] + rest else rest
    ensures WaitInv(SetState(k, p, Exited), k.procs[p].waitingForMe + rest)
  {
    var k' := SetState(k, p, Exited);
    var mine := k.procs[p].waitingForMe;
    var hand' := mine + rest;
    assert Queue(k, hand, OnExitOf(p)) == mine && Queue(k, hand, InHand) == hand;
    assert NoDuplicates(mine) && NoDuplicates(hand) by {
      assert NoDuplicates(Queue(k, hand, OnExitOf(p))) && NoDuplicates(Queue(k, hand, InHand));
    }
    HandParts(k, p, hand, rest);
    forall m
      ensures NoDuplicates(Queue(k', hand', m))
      ensures forall q :: q in Queue(k', hand', m) <==>
                            if m == InHand then q in mine || q in rest else m != OnExitOf(p) && q in Queue(k, hand, m)
    {
      assert NoDuplicates(Queue(k, hand, m));
    }
    forall q
      ensures Queued(k', hand', q) <==> Waits(k', q)
    {
      assert Queued(k, hand, q) <==> Waits(k, q);
      if Queued(k, hand, q) && q != p {
        var m :| q in Queue(k, hand, m);
        assert q in Queue(k', hand', if m == OnExitOf(p) then InHand else m);
      }
      if Queued(k', hand', q) {
        var m :| q in Queue(k', hand', m);
        assert q in Queue(k, hand, if m == InHand then (if q in mine then OnExitOf(p) else InHand) else m);
      }
    }
  }

  lemma HandParts(k: Kernel, p: Pid, hand: seq<Pid>, rest: seq<Pid>)
    requires p in k.procs && k.procs[p].state != Exited && WaitInv(k, hand)
    requires hand == if Waits(k, p) then [p] + rest else rest
    ensures var mine := k.procs[p].waitingForMe;
            && NoDuplicates(mine + rest) && p !in rest && p !in mine
            && (forall q :: q in rest ==> q in hand) && (forall q :: q in hand ==> q == p || q in rest)
  {
    var mine := k.procs[p].waitingForMe;
    assert Queue(k, hand, OnExitOf(p)) == mine && Queue(k, hand, InHand) == hand;
    assert NoDuplicates(Queue(k, hand, OnExitOf(p))) && NoDuplicates(Queue(k, hand, InHand));
    if Waits(k, p) {
      assert hand[0] == p && hand[1..] == rest;
      forall i | 0 <= i < |rest|
        ensures rest[i] != p
      {
        assert hand[i + 1] == rest[i];
      }
      assert p in hand;
    } else {
      assert !Queued(k, hand, p);
    }
    forall i, j | 0 <= i < |mine| && 0 <= j < |rest|
      ensures mine[i] != rest[j]
    {
      assert mine[i] in Queue(k, hand, OnExitOf(p));
      assert rest[j] in rest;
    }
  }
}
