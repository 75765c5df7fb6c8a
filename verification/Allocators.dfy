/** What both allocators promise their callers, stated once: over any sequence of calls the live
    regions never overlap, and giving everything back leaves the heap as it was at the start. */
module Allocators {
  import opened Common
  import opened Powers
  import B = BuddySpec
  import BP = BuddyProofs
  import BH = BuddyHeap
  import L = FreeListSpec
  import LP = FreeListProofs
  import LH = FreeListHeap

  /** The live regions: start of the header to size, header included. */
  type Live = map<int, int>

  datatype Call = Malloc(size: nat) | Free(region: int)

  ghost predicate Sound(live: Live, lo: int, hi: int) {
    && (forall a :: a in live ==> lo <= a && HEADER <= live[a] && a + live[a] <= hi)
    && (forall a, b :: a in live && b in live && a < b ==> a + live[a] <= b)
  }

  /** A new region at a, with room for its header and the payload. */
  predicate Serves(live: Live, live': Live, a: int, size: nat) {
    a !in live && a in live' && live' - {a} == live && size + HEADER <= live'[a]
  }

  /** What a caller sees of a call: malloc adds one region or refuses, free removes the one named;
      no other region ever moves or changes its size. */
  ghost predicate Step(live: Live, c: Call, live': Live) {
    match c
    case Malloc(size) => live' == live || exists a :: Serves(live, live', a, size)
    case Free(a) => live' == live - {a}
  }

  // ---------------------------------------------------------------- the buddy allocator

  function Regions(s: B.State): Live {
    map o | o in B.Live(s) :: Pow2(B.Live(s)[o])
  }

  /** malloc is only called with sizes for which getOrder ends (BH.RequestHolds). */
  predicate BuddyAllowed(c: Call) {
    c.Malloc? ==> c.size + HEADER <= 0x8000_0000
  }

  /** One call; only live blocks are freed. */
  function BuddyCall(s: B.State, c: Call, top: nat): B.State
    requires |s.free| == top + 1 && (forall o :: o in B.Live(s) ==> s.order[o] <= top)
  {
    match c
    case Malloc(size) =>
      (match B.Alloc(s, BH.OrderFor(BH.Request(size))) case None => s case Some(r) => r.0)
    case Free(o) => if o in B.Live(s) then B.Release(s, o, top) else s
  }

  lemma BuddySound(s: B.State, top: nat)
    requires B.Inv(s, top)
    ensures |s.free| == top + 1 && (forall o :: o in B.Live(s) ==> s.order[o] <= top)
    ensures Sound(Regions(s), 0, Pow2(top))
  {
    hide B.Complete, B.NoFreeBuddies, B.Aligned, B.OfOrder, NoDuplicates;
    BH.PowerConstants();
    forall a | a in Regions(s)
      ensures 0 <= a && HEADER <= Regions(s)[a] && a + Regions(s)[a] <= Pow2(top)
    {
      Pow2Monotone(4, s.order[a]);
    }
  }

  lemma BuddyStep(s: B.State, c: Call, top: nat)
    requires B.Inv(s, top) && BuddyAllowed(c)
    ensures |s.free| == top + 1 && (forall o :: o in B.Live(s) ==> s.order[o] <= top)
    ensures B.Inv(BuddyCall(s, c, top), top) && Step(Regions(s), c, Regions(BuddyCall(s, c, top)))
  {
    hide B.Inv, B.Alloc, B.Release, B.IsFree;
    BuddySound(s, top);
    match c
    case Malloc(size) =>
      var k := BH.OrderFor(size + HEADER);
      BH.RequestFits(size);
      BP.AllocKeeps(s, k, top);
      if B.Alloc(s, k).Some? {
        var (t, o) := B.Alloc(s, k).value;
        assert Regions(t) - {o} == Regions(s);
        assert Serves(Regions(s), Regions(t), o, size);
      }
    case Free(o) =>
      if o in B.Live(s) {
        BP.ReleaseKeeps(s, o, top);
        assert Regions(B.Release(s, o, top)) == Regions(s) - {o};
      } else {
        assert Regions(s) - {o} == Regions(s);
      }
  }

  function BuddyRun(s: B.State, calls: seq<Call>, top: nat): (r: B.State)
    requires B.Inv(s, top) && forall c :: c in calls ==> BuddyAllowed(c)
    ensures B.Inv(r, top)
    decreases |calls|
  {
    if calls == [] then s
    else
      assert calls[0] in calls;
      BuddyStep(s, calls[0], top);
      BuddyRun(BuddyCall(s, calls[0], top), calls[1..], top)
  }

  /** After any calls on a fresh buddy heap the live regions are disjoint and inside it, and
      freeing them in any order restores the fresh heap. */
  lemma BuddyServesRuns(calls: seq<Call>, offsets: seq<int>, top: nat)
    requires B.MIN_ORDER <= top && B.Inv(B.Initial(top), top) && forall c :: c in calls ==> BuddyAllowed(c)
    requires var s := BuddyRun(B.Initial(top), calls, top);
             NoDuplicates(offsets) && forall o :: o in offsets <==> o in Regions(s)
    ensures var s := BuddyRun(B.Initial(top), calls, top);
            Sound(Regions(s), 0, Pow2(top)) && |s.free| == top + 1 && BP.ReleaseAll(s, offsets, top) == B.Initial(top)
  {
    hide B.Inv, Sound, B.Initial, B.IsFree, NoDuplicates;
    var s := BuddyRun(B.Initial(top), calls, top);
    BuddySound(s, top);
    assert forall o :: o in Regions(s) <==> o in B.Live(s);
    BP.FreeingAllRestoresHeap(s, offsets, top);
  }

  // ---------------------------------------------------------------- the free-list allocator

  /** malloc is only called with sizes that do not wrap when they are rounded up. */
  predicate Allowed(c: Call) {
    c.Malloc? ==> c.size + HEADER + 7 < 0x1_0000_0000_0000_0000
  }

  function FreeListCall(s: L.State, c: Call): L.State {
    match c
    case Malloc(size) => (match L.Alloc(s, L.Needed(size)) case None => s case Some(r) => r.0)
    case Free(a) => if a in s.live then L.Release(s, a) else s
  }

  lemma FreeListStep(s: L.State, c: Call, lo: int, hi: int)
    requires L.Inv(s, lo, hi) && Allowed(c)
    ensures L.Inv(FreeListCall(s, c), lo, hi) && Step(s.live, c, FreeListCall(s, c).live) && Sound(s.live, lo, hi)
  {
    hide L.Sorted, L.Partition, L.Alloc, L.Needed, L.Release;
    assert Sound(s.live, lo, hi);
    match c
    case Malloc(size) =>
      LH.NeededFacts(size);
      LP.AllocKeeps(s, L.Needed(size), lo, hi);
      if L.Alloc(s, L.Needed(size)).Some? {
        var (t, a) := L.Alloc(s, L.Needed(size)).value;
        assert Serves(s.live, t.live, a, size);
      }
    case Free(a) =>
      if a in s.live { LP.ReleaseKeeps(s, a, lo, hi); }
      ReleasedLive(s, a);
  }

  lemma ReleasedLive(s: L.State, a: int)
    ensures (if a in s.live then L.Release(s, a) else s).live == s.live - {a}
  {
  }

  function FreeListRun(s: L.State, calls: seq<Call>, lo: int, hi: int): (r: L.State)
    requires L.Inv(s, lo, hi) && forall c :: c in calls ==> Allowed(c)
    ensures L.Inv(r, lo, hi)
    decreases |calls|
  {
    if calls == [] then s
    else
      assert calls[0] in calls;
      FreeListStep(s, calls[0], lo, hi);
      FreeListRun(FreeListCall(s, calls[0]), calls[1..], lo, hi)
  }

  /** The same for the free-list heap, whose list is moreover the one the live regions determine. */
  lemma FreeListServesRuns(calls: seq<Call>, addresses: seq<int>, lo: int, hi: int)
    requires L.WellSized(L.Range(lo, hi - lo), lo, hi) && L.Inv(L.Initial(lo, hi), lo, hi)
    requires forall c :: c in calls ==> Allowed(c)
    requires forall a :: a in FreeListRun(L.Initial(lo, hi), calls, lo, hi).live ==> a in addresses
    ensures var s := FreeListRun(L.Initial(lo, hi), calls, lo, hi);
            && Sound(s.live, lo, hi) && LP.ReleaseAll(s, addresses) == L.Initial(lo, hi)
            && forall t :: L.Inv(t, lo, hi) && t.live == s.live ==> t == s
  {
    hide L.Inv, L.Initial, Sound, L.WellSized;
    var s := FreeListRun(L.Initial(lo, hi), calls, lo, hi);
    FreeListStep(s, Free(lo), lo, hi);
    LP.FreeingAllRestoresHeap(s, addresses, lo, hi);
    forall t | L.Inv(t, lo, hi) && t.live == s.live
      ensures t == s
    {
      LP.LiveDeterminesFree(t, s, lo, hi);
    }
  }
}
