/** The circular singly linked list of processes: what its links say and how removals and
    insertions change them. */
module KernelRing {
  import opened Common
  import opened KernelSpec
  import opened WaitQueues
  import opened KernelSafety
  import opened KernelSteps

  type Links = map<Pid, Pid>

  /** Following `next` from the first element visits the sequence in order. */
  ghost predicate Path(next: Links, s: seq<Pid>)
    decreases |s|
  {
    |s| <= 1 || (s[0] in next && next[s[0]] == s[1] && Path(next, s[1..]))
  }

  /** The sequence, closed to a circle. */
  ghost predicate Cycle(next: Links, s: seq<Pid>) {
    s != [] && Path(next, s + [s[0]])
  }

  lemma {:induction false} PathSplit(next: Links, a: seq<Pid>, x: Pid, b: seq<Pid>)
    ensures Path(next, a + [x] + b) <==> Path(next, a + [x]) && Path(next, [x] + b)
    decreases |a|
  {
    if a == [] {
      assert [] + [x] + b == [x] + b && [] + [x] == [x];
    } else {
      var rest := a[1..];
      PathSplit(next, rest, x, b);
      assert (a + [x] + b)[1..] == rest + [x] + b && (a + [x])[1..] == rest + [x];
      assert (a + [x] + b)[1] == (a + [x])[1];
    }
  }

  /** A circle may be read from any of its elements. */
  lemma Rotate(next: Links, a: seq<Pid>, b: seq<Pid>)
    requires a != [] && b != []
    ensures Cycle(next, a + b) <==> Cycle(next, b + a)
  {
    CycleSplit(next, a, b);
    CycleSplit(next, b, a);
  }

  lemma CycleSplit(next: Links, a: seq<Pid>, b: seq<Pid>)
    requires a != [] && b != []
    ensures Cycle(next, a + b) <==> Path(next, a + [b[0]]) && Path(next, b + [a[0]])
  {
    hide Path;
    var c := b[1..];
    assert b == [b[0]] + c;
    Regroup(a, b[0], c, [a[0]]);
    PathSplit(next, a, b[0], c + [a[0]]);
  }

  lemma Regroup(a: seq<Pid>, x: Pid, c: seq<Pid>, d: seq<Pid>)
    ensures a + ([x] + c) + d == a + [x] + (c + d)
    ensures [x] + (c + d) == [x] + c + d
  {
  }

  lemma {:induction false} PathFrame(next: Links, next': Links, s: seq<Pid>)
    requires Path(next, s) && s != []
    requires forall p :: p in s[..|s| - 1] && p in next ==> p in next' && next'[p] == next[p]
    ensures Path(next', s)
    decreases |s|
  {
    if |s| > 1 {
      var p, front := s[0], s[..|s| - 1];
      var back := front[1..];
      assert p in front;
      assert s[1..][..|s| - 2] == back;
      assert forall q :: q in back ==> q in front;
      PathFrame(next, next', s[1..]);
    }
  }

  /** Unlinking c, which comes first: its predecessor, the last element, is linked to its successor. */
  lemma Bypass(next: Links, c: Pid, x: seq<Pid>)
    requires Cycle(next, [c] + x) && x != [] && NoDuplicates([c] + x)
    ensures c in next && next[c] == x[0]
    ensures Cycle((next - {c})[x[|x| - 1] := x[0]], x)
  {
    var last := x[|x| - 1];
    var next' := (next - {c})[last := x[0]];
    CycleSplit(next, [c], x);
    assert Path(next, x + [c]);
    assert x + [c] == x[..|x| - 1] + [last] + [c];
    PathSplit(next, x[..|x| - 1], last, [c]);
    assert x[..|x| - 1] + [last] == x;
    assert ([c] + [x[0]])[1] == x[0];
    var front := x[..|x| - 1];
    forall p | p in front
      ensures p != last && p != c
    {
      var i :| 0 <= i < |x| - 1 && x[i] == p;
      assert ([c] + x)[i + 1] == p && ([c] + x)[|x|] == last && ([c] + x)[0] == c;
    }
    PathFrame(next, next', x);
    assert Path(next', [last] + [x[0]]);
    PathSplit(next', x[..|x| - 1], last, [x[0]]);
    assert x[..|x| - 1] + [last] + [x[0]] == x + [x[0]];
  }

  /** Linking p in behind the last element. */
  lemma Append(next: Links, s: seq<Pid>, p: Pid)
    requires Cycle(next, s) && NoDuplicates(s) && p !in s
    ensures Cycle(next[p := s[0]][s[|s| - 1] := p], s + [p])
  {
    var last := s[|s| - 1];
    var next' := next[p := s[0]][last := p];
    assert s + [s[0]] == s[..|s| - 1] + [last] + [s[0]];
    PathSplit(next, s[..|s| - 1], last, [s[0]]);
    assert s[..|s| - 1] + [last] == s;
    var front := s[..|s| - 1];
    forall q | q in front
      ensures q != last && q != p
    {
      var i :| 0 <= i < |s| - 1 && s[i] == q;
    }
    PathFrame(next, next', s);
    assert Path(next', [last] + [p]);
    PathSplit(next', s[..|s| - 1], last, [p]);
    assert s[..|s| - 1] + [last] + [p] == s + [p];
    assert Path(next', [p] + [s[0]]);
    PathSplit(next', s, p, [s[0]]);
    assert (s + [p])[0] == s[0];
  }

  /** The link of element i. */
  lemma {:induction false} CycleAt(next: Links, s: seq<Pid>, i: nat)
    requires Cycle(next, s) && i < |s|
    ensures s[i] in next && next[s[i]] == s[if i + 1 < |s| then i + 1 else 0]
  {
    if i + 1 < |s| {
      var a, b := s[..i + 1], s[i + 1..];
      assert a + b == s;
      CycleSplit(next, a, b);
      assert a + [b[0]] == s[..i] + [s[i]] + [s[i + 1]];
      PathSplit(next, s[..i], s[i], [s[i + 1]]);
      assert ([s[i]] + [s[i + 1]])[1] == s[i + 1];
    } else {
      assert s + [s[0]] == s[..i] + [s[i]] + [s[0]];
      PathSplit(next, s[..i], s[i], [s[0]]);
      assert ([s[i]] + [s[0]])[1] == s[0];
    }
  }

  // ---------------------------------------------------------------- the scan

  lemma {:induction false} KeepAppend(a: seq<Pid>, b: seq<Pid>, dead: set<Pid>)
    ensures Keep(a + b, dead) == Keep(a, dead) + Keep(b, dead)
    decreases |a|
  {
    if a == [] {
      assert [] + b == b;
    } else {
      assert (a + b)[1..] == a[1..] + b;
      KeepAppend(a[1..], b, dead);
    }
  }

  lemma {:induction false} KeepAll(s: seq<Pid>, dead: set<Pid>)
    requires forall p :: p in s ==> p !in dead
    ensures Keep(s, dead) == s
    decreases |s|
  {
    if s != [] {
      var p := s[0];
      assert p in s;
      KeepAll(s[1..], dead);
    }
  }

  /** While the scan stands at position m, the links close the kept part and the part to come. */
  lemma ScanLinks(next: Links, ring: seq<Pid>, at: Pid, procs: map<Pid, PCB>, m: nat)
    requires Ascending(ring) && at in ring && m < |ring|
    requires Cycle(next, Keep(ring, Reaped(procs, ScanOrder(ring, at), m)))
    ensures var order := ScanOrder(ring, at);
            Cycle(next, Keep(order[..m], Reaped(procs, order, m)) + order[m..])
  {
    hide Cycle, Keep, Ascending, Reaped;
    var order := ScanOrder(ring, at);
    var dead := Reaped(procs, order, m);
    var i := IndexOf(ring, at);
    var a, b := ring[..i + 1], ring[i + 1..];
    assert ring == a + b && order == b + a && order == order[..m] + order[m..];
    KeepAppend(a, b, dead);
    KeepAppend(b, a, dead);
    KeepAppend(order[..m], order[m..], dead);
    NoneReapedAhead(ring, at, procs, m);
    KeepAll(order[m..], dead);
    if Keep(a, dead) == [] {
      assert Keep(a, dead) + Keep(b, dead) == Keep(b, dead) == Keep(b, dead) + Keep(a, dead);
    } else if Keep(b, dead) == [] {
      assert Keep(a, dead) + Keep(b, dead) == Keep(a, dead) == Keep(b, dead) + Keep(a, dead);
    } else {
      Rotate(next, Keep(a, dead), Keep(b, dead));
    }
  }

  lemma NoneReapedAhead(ring: seq<Pid>, at: Pid, procs: map<Pid, PCB>, m: nat)
    requires Ascending(ring) && at in ring && m < |ring|
    ensures var order := ScanOrder(ring, at); forall p :: p in order[m..] ==> p !in Reaped(procs, order, m)
  {
    ScanDistinct(ring, at, m);
  }

  /** The scan meets no process twice. */
  lemma ScanDistinct(ring: seq<Pid>, at: Pid, m: nat)
    requires Ascending(ring) && at in ring && m <= |ring|
    ensures var order := ScanOrder(ring, at);
            && NoDuplicates(order) && forall p :: p in order[m..] ==> p !in order[..m]
  {
    var order := ScanOrder(ring, at);
    var i := IndexOf(ring, at);
    var n := |ring| - (i + 1);
    forall j, d | 0 <= j < d < |order|
      ensures order[j] != order[d]
    {
      assert order[d] == if d < n then ring[i + 1 + d] else ring[d - n];
      assert order[j] == if j < n then ring[i + 1 + j] else ring[j - n];
    }
    forall p | p in order[m..]
      ensures p !in order[..m]
    {
      var d :| 0 <= d < |order[m..]| && order[m..][d] == p;
      assert order[m + d] == p;
    }
  }

  /** The node the scan goes to from position m, whether it keeps that node or unlinks it. */
  lemma ScanNext(next: Links, ring: seq<Pid>, at: Pid, procs: map<Pid, PCB>, m: nat)
    requires Ascending(ring) && at in ring && m + 1 < |ring|
    requires Cycle(next, Keep(ring, Reaped(procs, ScanOrder(ring, at), m)))
    ensures var order := ScanOrder(ring, at); order[m] in next && next[order[m]] == order[m + 1]
  {
    var order := ScanOrder(ring, at);
    var kept := Keep(order[..m], Reaped(procs, order, m));
    ScanLinks(next, ring, at, procs, m);
    CycleAt(next, kept + order[m..], |kept|);
  }

  /** Reaping position m, or passing it. */
  lemma ReapedNext(procs: map<Pid, PCB>, order: seq<Pid>, m: nat)
    requires m < |order|
    ensures Reaped(procs, order, m + 1) ==
            if IsIn(procs, order[m], Exited) then Reaped(procs, order, m) + {order[m]} else Reaped(procs, order, m)
  {
    assert order[..m + 1] == order[..m] + [order[m]];
  }

  lemma {:induction false} KeepMore(s: seq<Pid>, dead: set<Pid>, p: Pid)
    ensures Keep(Keep(s, dead), {p}) == Keep(s, dead + {p})
    decreases |s|
  {
    if s != [] {
      KeepMore(s[1..], dead, p);
      if s[0] !in dead {
        assert Keep(s, dead)[1..] == Keep(s[1..], dead);
      }
    }
  }
}
