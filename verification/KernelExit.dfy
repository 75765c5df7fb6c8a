/** What exitProcessByPCB does to the other processes, on any graph of waiting processes, and
    exactly when it keeps the queues safe. */
module KernelExit {
  import opened Common
  import opened KernelSpec
  import opened WaitQueues
  import opened KernelSafety

  /** The processes that exit on the way from k to k'. */
  ghost function Exiting(k: Kernel, k': Kernel): set<Pid> {
    set p | p in k.procs && p in k'.procs && k.procs[p].state != Exited && k'.procs[p].state == Exited
  }

  /** q's table holds p. */
  predicate WaitsFor(k: Kernel, p: Pid, q: Pid) {
    q in k.procs && p in k.procs[q].waitingForMe
  }

  /** With every member, s contains the killed processes that wait for it. */
  ghost predicate Closed(k: Kernel, s: set<Pid>) {
    forall q, p :: q in s && WaitsFor(k, p, q) && IsIn(k.procs, p, WaitingForExit) ==> p in s
  }

  // ---------------------------------------------------------------- the release of waiters

  lemma ReleaseNothing(k: Kernel)
    ensures ReleaseWaiters(k, []) == k
  {
  }

  lemma ReleaseUnfold(k: Kernel, ws: seq<Waiter>)
    requires ws != []
    ensures var w, rest := ws[0], ws[1..];
            if IsIn(k.procs, w.pid, Blocked) then
              ReleaseWaiters(k, ws) == ReleaseWaiters(Wake(k, w.pid, w.code), rest)
              && |Alive(Wake(k, w.pid, w.code))| == |Alive(k)|
            else if IsIn(k.procs, w.pid, WaitingForExit) then
              ReleaseWaiters(k, ws) ==
              ReleaseWaiters(SetState(k, w.pid, Exited), Waiters(k.procs[w.pid].waitingForMe, KILL_EXIT_CODE) + rest)
              && |Alive(SetState(k, w.pid, Exited))| < |Alive(k)|
            else ReleaseWaiters(k, ws) == ReleaseWaiters(k, rest)
  {
    var w := ws[0];
    if IsIn(k.procs, w.pid, Blocked) {
      assert Alive(Wake(k, w.pid, w.code)) == Alive(k);
    } else if IsIn(k.procs, w.pid, WaitingForExit) {
      assert Alive(SetState(k, w.pid, Exited)) == Alive(k) - {w.pid};
    }
  }

  /** Every process in the hand is settled, and so is every waiter of a process that exits. */
  lemma {:induction false} ReleaseSettles(k: Kernel, ws: seq<Waiter>)
    ensures var k' := ReleaseWaiters(k, ws);
            && (forall i :: 0 <= i < |ws| ==> !Waits(k', ws[i].pid))
            && (forall q, p :: q in Exiting(k, k') && WaitsFor(k, p, q) ==> !Waits(k', p))
            && k'.procs.Keys == k.procs.Keys
    decreases |Alive(k)|, |ws|
  {
    hide ReleaseWaiters, Alive;
    var k' := ReleaseWaiters(k, ws);
    ReleaseFrame(k, ws);
    if ws == [] {
      ReleaseNothing(k);
    } else {
      ReleaseUnfold(k, ws);
      var w, rest := ws[0], ws[1..];
      if w.pid !in k.procs {
        ReleaseSettles(k, rest);
      } else if k.procs[w.pid].state == Blocked {
        var k1 := Wake(k, w.pid, w.code);
        ReleaseFrame(k1, rest);
        ReleaseSettles(k1, rest);
        assert Exiting(k, k') == Exiting(k1, k');
        assert forall q, p :: WaitsFor(k, p, q) == WaitsFor(k1, p, q);
      } else if k.procs[w.pid].state == WaitingForExit {
        var k1 := SetState(k, w.pid, Exited);
        var mine := Waiters(k.procs[w.pid].waitingForMe, KILL_EXIT_CODE);
        ReleaseFrame(k1, mine + rest);
        ReleaseSettles(k1, mine + rest);
        assert Exiting(k, k') == Exiting(k1, k') + {w.pid};
        assert forall q, p :: WaitsFor(k, p, q) == WaitsFor(k1, p, q);
        assert forall i :: 0 <= i < |mine| ==> (mine + rest)[i] == mine[i];
        assert forall i :: 0 <= i < |rest| ==> (mine + rest)[|mine| + i] == rest[i];
        forall p | p in k.procs[w.pid].waitingForMe
          ensures !Waits(k', p)
        {
          var i :| 0 <= i < |mine| && k.procs[w.pid].waitingForMe[i] == p;
          assert (mine + rest)[i].pid == p;
        }
      } else {
        ReleaseSettles(k, rest);
      }
      assert forall i :: 1 <= i < |ws| ==> ws[i] == rest[i - 1];
    }
  }

  /** Only processes that some set closed under waiting forces to exit do exit. */
  lemma {:induction false} ReleaseLeast(k: Kernel, ws: seq<Waiter>, s: set<Pid>)
    requires Closed(k, s)
    requires forall i :: 0 <= i < |ws| && IsIn(k.procs, ws[i].pid, WaitingForExit) ==> ws[i].pid in s
    ensures Exiting(k, ReleaseWaiters(k, ws)) <= s
    decreases |Alive(k)|, |ws|
  {
    hide ReleaseWaiters, Alive;
    var k' := ReleaseWaiters(k, ws);
    if ws == [] {
      ReleaseNothing(k);
    } else {
      ReleaseUnfold(k, ws);
      var w, rest := ws[0], ws[1..];
      assert forall i :: 0 <= i < |rest| ==> rest[i] == ws[i + 1];
      if w.pid !in k.procs {
        ReleaseLeast(k, rest, s);
      } else if k.procs[w.pid].state == Blocked {
        var k1 := Wake(k, w.pid, w.code);
        assert Closed(k1, s) by {
          assert forall q, p :: WaitsFor(k1, p, q) ==> WaitsFor(k, p, q);
        }
        ReleaseLeast(k1, rest, s);
        assert Exiting(k, k') == Exiting(k1, k');
      } else if k.procs[w.pid].state == WaitingForExit {
        var k1 := SetState(k, w.pid, Exited);
        var mine := Waiters(k.procs[w.pid].waitingForMe, KILL_EXIT_CODE);
        assert Closed(k1, s) by {
          assert forall q, p :: WaitsFor(k1, p, q) ==> WaitsFor(k, p, q);
        }
        forall i | 0 <= i < |mine + rest| && IsIn(k1.procs, (mine + rest)[i].pid, WaitingForExit)
          ensures (mine + rest)[i].pid in s
        {
          if i < |mine| {
            assert WaitsFor(k, mine[i].pid, w.pid);
          } else {
            assert (mine + rest)[i] == ws[i - |mine| + 1];
          }
        }
        ReleaseLeast(k1, mine + rest, s);
        assert Exiting(k, k') <= Exiting(k1, k') + {w.pid};
      } else {
        ReleaseLeast(k, rest, s);
      }
    }
  }

  /** A process is touched only if it is in the hand or waits for a process that exits. */
  lemma {:induction false} ReleaseTouches(k: Kernel, ws: seq<Waiter>, p: Pid) returns (q: Pid)
    requires p in k.procs && p in ReleaseWaiters(k, ws).procs && ReleaseWaiters(k, ws).procs[p] != k.procs[p]
    ensures p in PidsOf(ws) || (q in Exiting(k, ReleaseWaiters(k, ws)) && WaitsFor(k, p, q))
    decreases |Alive(k)|, |ws|, 1
  {
    hide ReleaseWaiters, Alive, Exiting;
    q := p;
    if ws == [] {
      ReleaseNothing(k);
    } else {
      var w, rest := ws[0], ws[1..];
      ReleaseUnfold(k, ws);
      assert PidsOf(ws) == [w.pid] + PidsOf(rest);
      if p == w.pid {
        assert PidsOf(ws)[0] == p;
      } else if IsIn(k.procs, w.pid, Blocked) {
        q := ReleaseTouches(Wake(k, w.pid, w.code), rest, p);
        ExitingThrough(k, Wake(k, w.pid, w.code), ReleaseWaiters(k, ws));
      } else if IsIn(k.procs, w.pid, WaitingForExit) {
        q := TouchesThroughExit(k, ws, p);
      } else {
        q := ReleaseTouches(k, rest, p);
      }
    }
  }

  /** The step of the release that lets the head of the hand exit. */
  lemma {:induction false} TouchesThroughExit(k: Kernel, ws: seq<Waiter>, p: Pid) returns (q: Pid)
    requires p in k.procs && p in ReleaseWaiters(k, ws).procs && ReleaseWaiters(k, ws).procs[p] != k.procs[p]
    requires ws != [] && IsIn(k.procs, ws[0].pid, WaitingForExit) && p != ws[0].pid
    ensures p in PidsOf(ws) || (q in Exiting(k, ReleaseWaiters(k, ws)) && WaitsFor(k, p, q))
    decreases |Alive(k)|, |ws|, 0
  {
    hide ReleaseWaiters, Alive, Exiting;
    var w, rest := ws[0], ws[1..];
    var k1 := SetState(k, w.pid, Exited);
    var mine := Waiters(k.procs[w.pid].waitingForMe, KILL_EXIT_CODE);
    ReleaseUnfold(k, ws);
    q := ReleaseTouches(k1, mine + rest, p);
    ExitingThrough(k, k1, ReleaseWaiters(k, ws));
    assert PidsOf(mine + rest) == k.procs[w.pid].waitingForMe + PidsOf(rest);
    assert PidsOf(ws) == [w.pid] + PidsOf(rest);
    if p in k.procs[w.pid].waitingForMe {
      q := w.pid;
      StaysExited(k1, mine + rest, q);
      assert q in Exiting(k, ReleaseWaiters(k, ws)) by {
        JustExited(k, ReleaseWaiters(k, ws), q);
      }
    }
  }

  lemma ExitingThrough(k: Kernel, k1: Kernel, k': Kernel)
    requires k1.procs.Keys == k.procs.Keys
    requires forall p :: p in k.procs && k.procs[p].state == Exited ==> k1.procs[p].state == Exited
    ensures Exiting(k1, k') <= Exiting(k, k')
  {
    forall p | p in Exiting(k1, k')
      ensures p in Exiting(k, k')
    {
      assert p in k1.procs.Keys;
    }
  }

  lemma JustExited(k: Kernel, k': Kernel, p: Pid)
    requires p in k.procs && k.procs[p].state != Exited && IsIn(k'.procs, p, Exited)
    ensures p in Exiting(k, k')
  {
  }

  lemma StaysExited(k: Kernel, ws: seq<Waiter>, p: Pid)
    requires IsIn(k.procs, p, Exited)
    ensures IsIn(ReleaseWaiters(k, ws).procs, p, Exited)
  {
    hide ReleaseWaiters;
    ReleaseFrame(k, ws);
  }

  /** The hand's own codes: a blocked process in the hand is handed the code it is listed with. */
  lemma {:induction false} ReleaseCodes(k: Kernel, ws: seq<Waiter>, i: nat, out: seq<Pid>)
    requires WaitInv(k, PidsOf(ws) + out) && i < |ws| && IsIn(k.procs, ws[i].pid, Blocked)
    ensures var k' := ReleaseWaiters(k, ws);
            IsIn(k'.procs, ws[i].pid, Ready) && k'.procs[ws[i].pid].waitedExitCode == ws[i].code
    decreases |Alive(k)|, |ws|
  {
    hide ReleaseWaiters, Alive, WaitInv, PidsOf;
    var w, rest := ws[0], ws[1..];
    var p := ws[i].pid;
    ReleaseUnfold(k, ws);
    ReleaseStepKeeps(k, ws, out);
    Distinct(k, ws, i, out);
    if i == 0 {
      ReleaseFrame(Wake(k, p, w.code), rest);
    } else if k.procs[w.pid].state == Blocked {
      ReleaseCodes(Wake(k, w.pid, w.code), rest, i - 1, out);
    } else {
      var mine := Waiters(k.procs[w.pid].waitingForMe, KILL_EXIT_CODE);
      assert (mine + rest)[|mine| + i - 1] == ws[i];
      ReleaseCodes(SetState(k, w.pid, Exited), mine + rest, |mine| + i - 1, out);
    }
  }

  /** The codes further on: a blocked process waiting for a killed one that exits on the way is
      handed the code of a kill. */
  lemma {:induction false} ReleaseKillCodes(k: Kernel, ws: seq<Waiter>, p: Pid, q: Pid, out: seq<Pid>)
    requires WaitInv(k, PidsOf(ws) + out) && p !in PidsOf(ws) && IsIn(k.procs, p, Blocked)
    requires WaitsFor(k, p, q) && q in Exiting(k, ReleaseWaiters(k, ws))
    ensures var k' := ReleaseWaiters(k, ws); IsIn(k'.procs, p, Ready) && k'.procs[p].waitedExitCode == KILL_EXIT_CODE
    decreases |Alive(k)|, |ws|
  {
    hide ReleaseWaiters, Alive, WaitInv, PidsOf;
    if ws == [] {
      ReleaseNothing(k);
    } else {
      var w, rest := ws[0], ws[1..];
      ReleaseUnfold(k, ws);
      ReleaseStepKeeps(k, ws, out);
      PidsHead(ws);
      if k.procs[w.pid].state == Blocked {
        ReleaseKillCodes(Wake(k, w.pid, w.code), rest, p, q, out);
      } else {
        KillCodesThroughExit(k, ws, p, q, out);
      }
    }
  }

  lemma {:induction false} KillCodesThroughExit(k: Kernel, ws: seq<Waiter>, p: Pid, q: Pid, out: seq<Pid>)
    requires WaitInv(k, PidsOf(ws) + out) && p !in PidsOf(ws) && IsIn(k.procs, p, Blocked)
    requires WaitsFor(k, p, q) && q in Exiting(k, ReleaseWaiters(k, ws))
    requires ws != [] && IsIn(k.procs, ws[0].pid, WaitingForExit)
    requires |Alive(SetState(k, ws[0].pid, Exited))| < |Alive(k)|
    ensures var k' := ReleaseWaiters(k, ws); IsIn(k'.procs, p, Ready) && k'.procs[p].waitedExitCode == KILL_EXIT_CODE
    decreases |Alive(k)|, |ws|, 0
  {
    hide ReleaseWaiters, Alive, WaitInv, PidsOf;
    var w, rest := ws[0], ws[1..];
    var table := k.procs[w.pid].waitingForMe;
    var k1, mine := SetState(k, w.pid, Exited), Waiters(table, KILL_EXIT_CODE);
    ReleaseUnfold(k, ws);
    ReleaseStepKeeps(k, ws, out);
    if q == w.pid {
      var i :| 0 <= i < |table| && table[i] == p;
      assert (mine + rest)[i] == Waiter(p, KILL_EXIT_CODE);
      ReleaseCodes(k1, mine + rest, i, out);
    } else {
      OneTable(k, PidsOf(ws) + out, p, q, w.pid);
      PidsHead(ws);
      PidsAppend(table, KILL_EXIT_CODE, rest);
      ReleaseKillCodes(k1, mine + rest, p, q, out);
    }
  }

  /** A process waits for at most one process that has not exited. */
  lemma OneTable(k: Kernel, hand: seq<Pid>, p: Pid, q: Pid, t: Pid)
    requires WaitInv(k, hand) && WaitsFor(k, p, q) && k.procs[q].state != Exited
    requires t in k.procs && k.procs[t].state != Exited && q != t
    ensures !WaitsFor(k, p, t)
  {
    assert p in Queue(k, hand, OnExitOf(q));
    assert WaitsFor(k, p, t) ==> p in Queue(k, hand, OnExitOf(t));
  }

  lemma PidsHead(ws: seq<Waiter>)
    requires ws != []
    ensures PidsOf(ws) == [ws[0].pid] + PidsOf(ws[1..])
  {
  }

  lemma PidsAppend(pids: seq<Pid>, code: int, rest: seq<Waiter>)
    ensures PidsOf(Waiters(pids, code) + rest) == pids + PidsOf(rest)
  {
  }

  lemma ReleaseStepKeeps(k: Kernel, ws: seq<Waiter>, out: seq<Pid>)
    requires WaitInv(k, PidsOf(ws) + out) && ws != []
    ensures Waits(k, ws[0].pid)
    ensures IsIn(k.procs, ws[0].pid, Blocked) ==> WaitInv(Wake(k, ws[0].pid, ws[0].code), PidsOf(ws[1..]) + out)
    ensures IsIn(k.procs, ws[0].pid, WaitingForExit) ==>
              WaitInv(SetState(k, ws[0].pid, Exited),
                      PidsOf(Waiters(k.procs[ws[0].pid].waitingForMe, KILL_EXIT_CODE) + ws[1..]) + out)
  {
    hide WaitInv, PidsOf, SetState, Wake, Waiters;
    var p, more := ws[0].pid, PidsOf(ws[1..]) + out;
    PidsHead(ws);
    assert PidsOf(ws) + out == [p] + more;
    HeadWaits(k, p, more);
    if k.procs[p].state == Blocked {
      WakeKeeps(k, p, ws[0].code, more);
    } else {
      ExitsToHand(k, p, [p] + more, more);
      PidsAppend(k.procs[p].waitingForMe, KILL_EXIT_CODE, ws[1..]);
      assert (k.procs[p].waitingForMe + PidsOf(ws[1..])) + out == k.procs[p].waitingForMe + more;
    }
  }

  lemma Distinct(k: Kernel, ws: seq<Waiter>, i: nat, out: seq<Pid>)
    requires WaitInv(k, PidsOf(ws) + out) && i < |ws|
    ensures i > 0 ==> ws[i].pid != ws[0].pid
  {
    var hand := PidsOf(ws) + out;
    assert NoDuplicates(Queue(k, hand, InHand));
    assert hand[i] == ws[i].pid && hand[0] == ws[0].pid;
  }

  // ---------------------------------------------------------------- exitProcessByPCB

  /** The effect of exitProcessByPCB on a process that is neither blocked nor exited, so also on one
      that a queue let go of because it was killed. The processes that exit are the least set that
      contains the target and, with every member, the killed processes waiting for it; exactly the
      blocked processes waiting for a member become ready; nobody else is touched. */
  lemma ExitEffect(k: Kernel, t: Pid, code: int)
    requires t in k.procs && k.procs[t].state != Blocked && k.procs[t].state != Exited
    ensures var k' := ExitProcess(k, t, code);
            var dying := Exiting(k, k');
            && k' == k.(procs := k'.procs) && k'.procs.Keys == k.procs.Keys
            && t in dying && Closed(k, dying)
            && (forall s :: t in s && Closed(k, s) ==> dying <= s)
            && (forall p :: p in k.procs ==>
                              if p in dying then k'.procs[p].state == Exited
                              else if IsIn(k.procs, p, Blocked) && (exists q :: q in dying && WaitsFor(k, p, q))
                              then k'.procs[p].state == Ready
                              else k'.procs[p] == k.procs[p])
  {
    hide ReleaseWaiters, Alive;
    var k1 := SetState(k, t, Exited);
    var ws := Waiters(k.procs[t].waitingForMe, code);
    var k' := ReleaseWaiters(k1, ws);
    var dying := Exiting(k, k');
    assert PidsOf(ws) == k.procs[t].waitingForMe;
    ReleaseFrame(k1, ws);
    ReleaseSettles(k1, ws);
    assert dying == Exiting(k1, k') + {t};
    assert forall q, p :: WaitsFor(k, p, q) == WaitsFor(k1, p, q);
    forall p | WaitsFor(k, p, t)
      ensures !Waits(k', p)
    {
      var i :| 0 <= i < |ws| && k.procs[t].waitingForMe[i] == p;
      assert ws[i].pid == p;
    }
    forall s | t in s && Closed(k, s)
      ensures dying <= s
    {
      ExitLeast(k, t, code, s);
    }
    forall p | p in k.procs && k'.procs[p] != k.procs[p] && p !in dying
      ensures exists q :: q in dying && WaitsFor(k, p, q)
    {
      var q := ReleaseTouches(k1, ws, p);
      if p in PidsOf(ws) {
        assert WaitsFor(k, p, t);
      } else {
        assert q in dying && WaitsFor(k, p, q);
      }
    }
  }

  lemma ExitLeast(k: Kernel, t: Pid, code: int, s: set<Pid>)
    requires t in k.procs && k.procs[t].state != Blocked && k.procs[t].state != Exited && t in s && Closed(k, s)
    ensures Exiting(k, ExitProcess(k, t, code)) <= s
  {
    hide ReleaseWaiters, Alive;
    var k1 := SetState(k, t, Exited);
    var ws := Waiters(k.procs[t].waitingForMe, code);
    assert forall q, p :: WaitsFor(k1, p, q) ==> WaitsFor(k, p, q);
    forall i | 0 <= i < |ws| && IsIn(k1.procs, ws[i].pid, WaitingForExit)
      ensures ws[i].pid in s
    {
      assert WaitsFor(k, ws[i].pid, t);
    }
    ReleaseLeast(k1, ws, s);
  }

  /** The codes handed out: a blocked process waiting for the target gets the target's code, one
      waiting for a killed process that exits with it gets the code of a kill, 1. */
  lemma ExitCodes(k: Kernel, t: Pid, code: int, hand: seq<Pid>, rest: seq<Pid>, p: Pid, q: Pid)
    requires WaitInv(k, hand) && t in k.procs && k.procs[t].state != Blocked && k.procs[t].state != Exited
    requires hand == if k.procs[t].state == WaitingForExit then [t] + rest else rest
    requires IsIn(k.procs, p, Blocked) && WaitsFor(k, p, q) && q in Exiting(k, ExitProcess(k, t, code))
    ensures var k' := ExitProcess(k, t, code);
            IsIn(k'.procs, p, Ready) && k'.procs[p].waitedExitCode == if q == t then code else 1
  {
    hide ReleaseWaiters, Alive, WaitInv;
    var k1 := SetState(k, t, Exited);
    var mine := k.procs[t].waitingForMe;
    var ws := Waiters(mine, code);
    ExitsToHand(k, t, hand, rest);
    assert PidsOf(ws) == mine;
    if q == t {
      var i :| 0 <= i < |mine| && mine[i] == p;
      ReleaseCodes(k1, ws, i, rest);
    } else {
      OneTable(k, hand, p, q, t);
      ReleaseKillCodes(k1, ws, p, q, rest);
    }
  }

  // ---------------------------------------------------------------- Ctrl-C

  /** k with entry i of t's table removed. */
  function Cut(k: Kernel, t: Pid, i: nat): Kernel
    requires t in k.procs && i < |k.procs[t].waitingForMe|
  {
    var w := k.procs[t].waitingForMe;
    k.(procs := k.procs[t := k.procs[t].(waitingForMe := w[..i] + w[i + 1..])])
  }

  lemma Regroup(mine: seq<Waiter>, rest: seq<Waiter>, w: Waiter, b: seq<Waiter>)
    ensures mine + (rest + [w] + b) == (mine + rest) + [w] + b
    ensures mine + (rest + b) == (mine + rest) + b
  {
  }

  lemma HeadOff(a: seq<Waiter>, w: Waiter, b: seq<Waiter>)
    requires a != []
    ensures (a + [w] + b)[0] == a[0] && (a + [w] + b)[1..] == a[1..] + [w] + b
    ensures (a + b)[0] == a[0] && (a + b)[1..] == a[1..] + b
  {
  }

  /** An entry of the hand that has already exited makes no difference. */
  lemma {:induction false} SkipExited(k: Kernel, a: seq<Waiter>, w: Waiter, b: seq<Waiter>)
    requires IsIn(k.procs, w.pid, Exited)
    ensures ReleaseWaiters(k, a + [w] + b) == ReleaseWaiters(k, a + b)
    decreases |Alive(k)|, |a|, 1
  {
    hide ReleaseWaiters, Alive;
    if a == [] {
      assert a + [w] + b == [w] + b && a + b == b && ([w] + b)[1..] == b;
      ReleaseUnfold(k, [w] + b);
    } else {
      HeadOff(a, w, b);
      ReleaseUnfold(k, a + [w] + b);
      ReleaseUnfold(k, a + b);
      SkipStep(k, a, w, b);
    }
  }

  lemma {:induction false} SkipStep(k: Kernel, a: seq<Waiter>, w: Waiter, b: seq<Waiter>)
    requires IsIn(k.procs, w.pid, Exited) && a != []
    ensures var h, rest := a[0], a[1..];
            if IsIn(k.procs, h.pid, Blocked) then
              ReleaseWaiters(Wake(k, h.pid, h.code), rest + [w] + b) == ReleaseWaiters(Wake(k, h.pid, h.code), rest + b)
            else if IsIn(k.procs, h.pid, WaitingForExit) then
              var k1, mine := SetState(k, h.pid, Exited), Waiters(k.procs[h.pid].waitingForMe, KILL_EXIT_CODE);
              ReleaseWaiters(k1, mine + (rest + [w] + b)) == ReleaseWaiters(k1, mine + (rest + b))
            else ReleaseWaiters(k, rest + [w] + b) == ReleaseWaiters(k, rest + b)
    decreases |Alive(k)|, |a|, 0
  {
    hide ReleaseWaiters, Alive;
    var h, rest := a[0], a[1..];
    ReleaseUnfold(k, a);
    if IsIn(k.procs, h.pid, Blocked) {
      SkipExited(Wake(k, h.pid, h.code), rest, w, b);
    } else if IsIn(k.procs, h.pid, WaitingForExit) {
      var mine := Waiters(k.procs[h.pid].waitingForMe, KILL_EXIT_CODE);
      Regroup(mine, rest, w, b);
      SkipExited(SetState(k, h.pid, Exited), mine + rest, w, b);
    } else {
      SkipExited(k, rest, w, b);
    }
  }

  /** Nor does an exited entry of a waiting table. */
  lemma {:induction false} ReleaseCut(k: Kernel, ws: seq<Waiter>, t: Pid, i: nat)
    requires t in k.procs && i < |k.procs[t].waitingForMe| && IsIn(k.procs, k.procs[t].waitingForMe[i], Exited)
    ensures t in ReleaseWaiters(k, ws).procs && i < |ReleaseWaiters(k, ws).procs[t].waitingForMe|
    ensures ReleaseWaiters(Cut(k, t, i), ws) == Cut(ReleaseWaiters(k, ws), t, i)
    decreases |Alive(k)|, |ws|
  {
    hide ReleaseWaiters, Alive, Cut;
    var c := Cut(k, t, i);
    ReleaseFrame(k, ws);
    if ws == [] {
      ReleaseNothing(k);
      ReleaseNothing(c);
    } else {
      var w, rest := ws[0], ws[1..];
      ReleaseUnfold(k, ws);
      ReleaseUnfold(c, ws);
      CutFacts(k, t, i, w);
      if IsIn(k.procs, w.pid, Blocked) {
        ReleaseCut(Wake(k, w.pid, w.code), rest, t, i);
      } else if IsIn(k.procs, w.pid, WaitingForExit) {
        var k1 := SetState(k, w.pid, Exited);
        CutWaiters(k, w.pid, rest, t, i);
        ReleaseCut(k1, Waiters(c.procs[w.pid].waitingForMe, KILL_EXIT_CODE) + rest, t, i);
      } else {
        ReleaseCut(k, rest, t, i);
      }
    }
  }

  lemma CutFacts(k: Kernel, t: Pid, i: nat, w: Waiter)
    requires t in k.procs && i < |k.procs[t].waitingForMe|
    ensures Cut(k, t, i).procs.Keys == k.procs.Keys
    ensures w.pid in k.procs ==>
              && Cut(k, t, i).procs[w.pid].state == k.procs[w.pid].state
              && Wake(Cut(k, t, i), w.pid, w.code) == Cut(Wake(k, w.pid, w.code), t, i)
              && SetState(Cut(k, t, i), w.pid, Exited) == Cut(SetState(k, w.pid, Exited), t, i)
  {
  }

  /** Releasing p's own waiters from the cut table or from the full one is the same. */
  lemma CutWaiters(k: Kernel, p: Pid, rest: seq<Waiter>, t: Pid, i: nat)
    requires t in k.procs && i < |k.procs[t].waitingForMe| && p in k.procs
    requires p == k.procs[t].waitingForMe[i] || IsIn(k.procs, k.procs[t].waitingForMe[i], Exited)
    ensures ReleaseWaiters(SetState(k, p, Exited), Waiters(Cut(k, t, i).procs[p].waitingForMe, KILL_EXIT_CODE) + rest) ==
            ReleaseWaiters(SetState(k, p, Exited), Waiters(k.procs[p].waitingForMe, KILL_EXIT_CODE) + rest)
  {
    hide ReleaseWaiters, Alive;
    if p == t {
      var mine := Waiters(k.procs[t].waitingForMe, KILL_EXIT_CODE);
      assert Waiters(Cut(k, t, i).procs[t].waitingForMe, KILL_EXIT_CODE) + rest == mine[..i] + (mine[i + 1..] + rest);
      assert mine + rest == mine[..i] + [mine[i]] + (mine[i + 1..] + rest);
      SkipExited(SetState(k, p, Exited), mine[..i], mine[i], mine[i + 1..] + rest);
    }
  }

  /** p waits, directly or through others, for itself: whatever set contains p and with every member
      the killed processes waiting for it, also contains the process p waits for. */
  ghost predicate KilledInCircle(k: Kernel, p: Pid) {
    forall s: set<Pid> :: p in s && Closed(k, s) ==> exists t :: t in s && WaitsFor(k, p, t)
  }

  /** The processes that exit with a killed process contain, with every member, the killed
      processes waiting for it. */
  lemma ExitClosed(k: Kernel, p: Pid, code: int)
    requires p in k.procs && k.procs[p].state != Exited && k.procs[p].state != Blocked
    ensures var dying := Exiting(k, ExitProcess(k, p, code)); p in dying && Closed(k, dying)
  {
    hide ReleaseWaiters, Alive;
    var k1 := SetState(k, p, Exited);
    var ws := Waiters(k.procs[p].waitingForMe, code);
    var k' := ReleaseWaiters(k1, ws);
    ReleaseFrame(k1, ws);
    ReleaseSettles(k1, ws);
    forall q, r | q in Exiting(k, k') && WaitsFor(k, r, q) && IsIn(k.procs, r, WaitingForExit)
      ensures r in Exiting(k, k')
    {
      if q == p {
        var i :| 0 <= i < |ws| && k.procs[p].waitingForMe[i] == r;
        assert ws[i].pid == r;
      } else {
        assert q in Exiting(k1, k') && WaitsFor(k1, r, q);
      }
    }
  }

  /** killCurrentProcessInForeground calls exitProcessByPCB without looking at the state. That
      keeps the queues safe exactly when the target was not already killed while blocked, or was
      killed in a circle of killed processes waiting for each other. */
  lemma CtrlCIsSafeExactlyWhen(k: Kernel, p: Pid)
    requires WaitInv(k, []) && p in k.procs
    ensures WaitInv(ExitProcess(k, p, KILL_EXIT_CODE), []) <==>
              k.procs[p].state != WaitingForExit || KilledInCircle(k, p)
  {
    hide WaitInv, ExitProcess, Closed, Exiting;
    var k' := ExitProcess(k, p, KILL_EXIT_CODE);
    if k.procs[p].state != WaitingForExit {
      ExitKeeps(k, p, KILL_EXIT_CODE, [], []);
    } else {
      var dying := Exiting(k, k');
      ExitClosed(k, p, KILL_EXIT_CODE);
      if t :| t in dying && WaitsFor(k, p, t) {
        HolderExits(k, p, t);
        forall s: set<Pid> | p in s && Closed(k, s)
          ensures exists t :: t in s && WaitsFor(k, p, t)
        {
          ExitLeast(k, p, KILL_EXIT_CODE, s);
          assert t in s;
        }
      } else {
        HolderStays(k, p);
      }
    }
  }

  lemma HolderExits(k: Kernel, p: Pid, t: Pid)
    requires WaitInv(k, []) && IsIn(k.procs, p, WaitingForExit) && WaitsFor(k, p, t)
    requires t in Exiting(k, ExitProcess(k, p, KILL_EXIT_CODE))
    ensures WaitInv(ExitProcess(k, p, KILL_EXIT_CODE), [])
  {
    hide WaitInv, ReleaseWaiters, Alive;
    var k' := ExitProcess(k, p, KILL_EXIT_CODE);
    var i :| 0 <= i < |k.procs[t].waitingForMe| && k.procs[t].waitingForMe[i] == p;
    var c := Cut(k, t, i);
    assert Queue(k, [], OnExitOf(t)) == k.procs[t].waitingForMe;
    TakenInHand(k, c, [], OnExitOf(t), i);
    assert [p] + [] == [p];
    ExitKeeps(c, p, KILL_EXIT_CODE, [p], []);
    var k1 := SetState(k, p, Exited);
    var mine := Waiters(k.procs[p].waitingForMe, KILL_EXIT_CODE);
    var cutMine := Waiters(c.procs[p].waitingForMe, KILL_EXIT_CODE);
    assert SetState(c, p, Exited) == Cut(k1, t, i);
    CutWaiters(k, p, [], t, i);
    assert mine + [] == mine && cutMine + [] == cutMine;
    ReleaseCut(k1, cutMine, t, i);
    assert Cut(k', t, i) == ExitProcess(c, p, KILL_EXIT_CODE);
    SameQueues(Cut(k', t, i), k', []);
  }

  lemma HolderStays(k: Kernel, p: Pid)
    requires WaitInv(k, []) && IsIn(k.procs, p, WaitingForExit)
    requires forall t :: t in Exiting(k, ExitProcess(k, p, KILL_EXIT_CODE)) ==> !WaitsFor(k, p, t)
    ensures !WaitInv(ExitProcess(k, p, KILL_EXIT_CODE), [])
  {
    hide ReleaseWaiters, Alive, OnePlace;
    var k' := ExitProcess(k, p, KILL_EXIT_CODE);
    var k1 := SetState(k, p, Exited);
    var ws := Waiters(k.procs[p].waitingForMe, KILL_EXIT_CODE);
    ReleaseFrame(k1, ws);
    assert Waits(k, p);
    assert Queued(k, [], p);
    var l :| p in Queue(k, [], l);
    if l.OnExitOf? {
      assert WaitsFor(k, p, l.pid) && l.pid !in Exiting(k, k');
    }
    assert Queue(k', [], l) == Queue(k, [], l);
    assert p in Queue(k', [], l);
    assert Queued(k', [], p) && !Waits(k', p);
  }
}
