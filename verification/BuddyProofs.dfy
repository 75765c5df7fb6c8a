/** What every malloc and free of the buddy allocator keeps, and what they undo. */
module BuddyProofs {
  import opened Common
  import opened Powers
  import opened BuddySpec

  /** o is a block, and it is on no free list. */
  predicate Taken(s: State, o: int, k: nat) {
    o in s.order && s.order[o] == k && !IsFree(s, o)
  }

  lemma InitialInv(top: nat)
    requires MIN_ORDER <= top
    ensures Inv(Initial(top), top)
    ensures Live(Initial(top)) == map[]
  {
    var s := Initial(top);
    MultipleBy(0, 0, Pow2(top));
    forall b | 0 <= b < Pow2(top)
      ensures Covered(s, b)
    {
      assert Covers(s, 0, b);
    }
    assert s.free[top] == [0];
  }

  // ---------------------------------------------------------------- splitting

  lemma SplitTiles(s: State, o: int, j: nat, top: nat)
    requires Inv(s, top) && Taken(s, o, j) && MIN_ORDER < j
    ensures Tiling(Split(s, o, j), top)
    ensures j <= top && |s.free| == top + 1 && o + Pow2(j - 1) !in s.order && o !in s.free[j - 1]
  {
    hide BuddyOf, Aligned, Complete;
    UpperHalfIsBuddy(o, j - 1);
    Pow2Doubles(j - 1);
    SplitFresh(s, o, j);
    SplitFits(s, o, j, top);
    SplitCovers(s, o, j, top);
    hide NoDuplicates, NoFreeBuddies, Pow2;
    assert OfOrder(s, s.free[j - 1], j - 1);
  }

  lemma SplitFresh(s: State, o: int, j: nat)
    requires Disjoint(s) && o in s.order && s.order[o] == j && 0 < j
    ensures o + Pow2(j - 1) !in s.order
  {
    Pow2Doubles(j - 1);
  }

  lemma SplitFits(s: State, o: int, j: nat, top: nat)
    requires Bounded(s, top) && Disjoint(s) && o in s.order && s.order[o] == j && MIN_ORDER < j <= |s.free|
    requires Aligned(o, j - 1) && Aligned(o + Pow2(j - 1), j - 1)
    ensures Bounded(Split(s, o, j), top) && Disjoint(Split(s, o, j))
  {
    hide Aligned, Pow2;
    Pow2Doubles(j - 1);
    SplitFresh(s, o, j);
  }

  lemma SplitCovers(s: State, o: int, j: nat, top: nat)
    requires Complete(s, top) && o in s.order && s.order[o] == j && 0 < j <= |s.free| && o + Pow2(j - 1) !in s.order
    ensures Complete(Split(s, o, j), top)
  {
    hide Pow2;
    Pow2Doubles(j - 1);
    var b := o + Pow2(j - 1);
    var t := Split(s, o, j);
    forall x | 0 <= x < Pow2(top)
      ensures Covered(t, x)
    {
      assert Covered(s, x);
      var c :| Covers(s, c, x);
      assert Covers(t, if c == o && b <= x then b else c, x);
    }
  }

  /** Putting a block b on list k, where it has no buddy, keeps the two list invariants. */
  lemma PushKeepsLists(s: State, u: State, b: int, k: nat, top: nat)
    requires ListsOk(s, top) && NoFreeBuddies(s, top) && k <= top && u.free == s.free
    requires b in u.order && u.order[b] == k && b !in s.free[k] && Aligned(b, k)
    requires forall i, o :: 0 <= i <= top && o in s.free[i] ==> o in u.order && u.order[o] == i && Aligned(o, i)
    requires k < top ==> BuddyOf(b, k) !in s.free[k]
    ensures ListsOk(u.(free := s.free[k := [b] + s.free[k]]), top)
    ensures NoFreeBuddies(u.(free := s.free[k := [b] + s.free[k]]), top)
  {
    hide BuddyOf, Aligned;
    var list := [b] + s.free[k];
    if k < top {
      forall x | x in list
        ensures BuddyOf(x, k) !in list
      {
        if x != b {
          assert x in s.free[k];
        }
        BuddyAligned(x, k);
      }
    }
    assert NoBuddiesIn(list, k) || k == top;
  }

  lemma SplitKeeps(s: State, o: int, j: nat, top: nat)
    requires Inv(s, top) && Taken(s, o, j) && MIN_ORDER < j
    ensures Inv(Split(s, o, j), top) && Taken(Split(s, o, j), o, j - 1)
    ensures Live(Split(s, o, j)) == Live(s)[o := j - 1]
  {
    hide Tiling, NoFreeBuddies, Pow2, Split, IsFree, Live;
    SplitTiles(s, o, j, top);
    SplitLists(s, o, j, top);
    SplitLive(s, o, j);
  }

  /** Halving a block that is in no list: what is free, and what is live, afterwards. */
  lemma SplitLive(s: State, o: int, j: nat)
    requires 0 < j <= |s.free| && Taken(s, o, j) && o + Pow2(j - 1) !in s.order && o !in s.free[j - 1]
    ensures Taken(Split(s, o, j), o, j - 1) && Live(Split(s, o, j)) == Live(s)[o := j - 1]
  {
    hide Pow2;
    var b := o + Pow2(j - 1);
    var t := Split(s, o, j);
    Pow2Positive(j - 1);
    assert t.free[j - 1] == [b] + s.free[j - 1];
    forall x | x in s.order && x != o
      ensures IsFree(t, x) == IsFree(s, x)
    {
    }
  }

  lemma Pow2Positive(k: nat)
    ensures Pow2(k) > 0
  {
  }

  lemma SplitLists(s: State, o: int, j: nat, top: nat)
    requires Inv(s, top) && Taken(s, o, j) && MIN_ORDER < j
    ensures ListsOk(Split(s, o, j), top) && NoFreeBuddies(Split(s, o, j), top)
  {
    hide BuddyOf, Aligned;
    var b := o + Pow2(j - 1);
    var t := Split(s, o, j);
    SplitTiles(s, o, j, top);
    UpperHalfIsBuddy(o, j - 1);
    hide Disjoint, Complete, NoFreeBuddies, NoDuplicates, Pow2;
    assert j - 1 < top ==> o !in s.free[j - 1];
    PushKeepsLists(s, State(t.order, s.free), b, j - 1, top);
  }

  lemma {:induction false} SplitDownKeeps(s: State, o: int, j: nat, k: nat, top: nat)
    requires Inv(s, top) && Taken(s, o, j) && MIN_ORDER <= k <= j
    ensures Inv(SplitDown(s, o, j, k), top) && Taken(SplitDown(s, o, j, k), o, k)
    ensures Live(SplitDown(s, o, j, k)) == Live(s)[o := k]
    decreases j
  {
    hide Tiling, NoFreeBuddies, NoDuplicates, OfOrder, Split, IsFree, Pow2;
    if k < j {
      SplitTiles(s, o, j, top);
      SplitKeeps(s, o, j, top);
      SplitDownKeeps(Split(s, o, j), o, j - 1, k, top);
    }
  }

  lemma UnlinkKeeps(s: State, j: nat, top: nat)
    requires Inv(s, top) && j <= top && s.free[j] != []
    ensures var o := s.free[j][0];
            Inv(Unlink(s, j), top) && Taken(Unlink(s, j), o, j) && !IsFree(Unlink(s, j), o)
            && o !in Live(s) && Live(Unlink(s, j)) == Live(s)[o := j]
  {
    hide Tiling, Pow2, BuddyOf;
    var t := Unlink(s, j);
    var o := s.free[j][0];
    UnlinkLists(s, j, top);
    SameBlocksTile(s, t, top);
    hide NoFreeBuddies, NoDuplicates;
    assert o in s.free[j] && OfOrder(s, s.free[j], j);
    assert forall y :: y in s.free[j] <==> y == o || y in t.free[j];
    assert forall x :: x in s.order && x != o ==> IsFree(t, x) == IsFree(s, x);
  }

  lemma UnlinkLists(s: State, j: nat, top: nat)
    requires ListsOk(s, top) && NoFreeBuddies(s, top) && j <= top && s.free[j] != []
    ensures ListsOk(Unlink(s, j), top) && NoFreeBuddies(Unlink(s, j), top) && s.free[j][0] !in Unlink(s, j).free[j]
  {
    hide BuddyOf;
    var t := Unlink(s, j);
    assert s.free[j] == [s.free[j][0]] + t.free[j];
    assert NoDuplicates(s.free[j]) && OfOrder(s, s.free[j], j);
    assert j < top ==> NoBuddiesIn(s.free[j], j);
  }

  /** malloc: it fails exactly when no free block is large enough; otherwise one block that
      was not live becomes live at the order asked for, and every live block stays as it was. */
  lemma AllocKeeps(s: State, k: nat, top: nat)
    requires Inv(s, top) && MIN_ORDER <= k
    ensures Alloc(s, k) == None <==> forall o :: IsFree(s, o) ==> s.order[o] < k
    ensures Alloc(s, k).Some? ==>
              var (t, o) := Alloc(s, k).value;
              Inv(t, top) && o !in Live(s) && Live(t) == Live(s)[o := k]
  {
    hide Tiling, NoFreeBuddies, NoDuplicates, Pow2, SplitDown, Unlink, FirstNonEmpty;
    var j := if k < |s.free| then FirstNonEmpty(s.free, k) else |s.free|;
    if j == |s.free| {
      forall o | IsFree(s, o)
        ensures s.order[o] < k
      {
      }
    } else {
      UnlinkKeeps(s, j, top);
      var o := s.free[j][0];
      assert o in s.free[j] && OfOrder(s, s.free[j], j);
      assert IsFree(s, o) && s.order[o] == j;
      SplitDownKeeps(Unlink(s, j), s.free[j][0], j, k, top);
    }
  }

  /** Splitting puts one upper half on each list from k to j - 1. */
  lemma {:induction false} SplitDownLists(s: State, o: int, j: nat, k: nat)
    requires k <= j <= |s.free|
    ensures forall i | 0 <= i < |s.free| ::
              SplitDown(s, o, j, k).free[i] == if k <= i < j then [o + Pow2(i)] + s.free[i] else s.free[i]
    decreases j
  {
    hide Pow2;
    if k < j { SplitDownLists(Split(s, o, j), o, j - 1, k); }
  }

  /** Which block malloc takes: the head of the first list from k up that is not empty, whose lower
      half it keeps at every split; the upper halves become the only blocks on the lists below. */
  lemma AllocTakes(s: State, k: nat, j: nat)
    requires k <= j < |s.free| && s.free[j] != [] && forall i | k <= i < j :: s.free[i] == []
    ensures Alloc(s, k).Some?
    ensures var (t, o) := Alloc(s, k).value;
            && o == s.free[j][0] && |t.free| == |s.free|
            && forall i | 0 <= i < |s.free| ::
                 t.free[i] == if i == j then s.free[j][1..] else if k <= i < j then [o + Pow2(i)] else s.free[i]
  {
    hide Pow2, SplitDown;
    assert FirstNonEmpty(s.free, k) == j;
    SplitDownLists(Unlink(s, j), s.free[j][0], j, k);
  }

  // ---------------------------------------------------------------- merging

  lemma JoinTiles(s: State, o: int, k: nat, top: nat)
    requires Inv(s, top) && k < top && Taken(s, o, k)
    requires var b := BuddyOf(o, k); b in s.order && s.order[b] == k
    ensures Tiling(Join(s, o, BuddyOf(o, k), k), top)
  {
    hide BuddyOf, Aligned, NoFreeBuddies;
    BuddyAligned(o, k);
    JoinFits(s, o, BuddyOf(o, k), k, top);
    JoinCovers(s, o, BuddyOf(o, k), k, top);
  }

  lemma JoinFits(s: State, o: int, b: int, k: nat, top: nat)
    requires Bounded(s, top) && Disjoint(s) && k < top && k < |s.free|
    requires o in s.order && s.order[o] == k && b in s.order && s.order[b] == k
    requires (b == o + Pow2(k) || b == o - Pow2(k)) && Aligned(if o < b then o else b, k + 1)
    ensures Bounded(Join(s, o, b, k), top) && Disjoint(Join(s, o, b, k))
  {
    hide Aligned, Pow2;
    Pow2Doubles(k);
    JoinDisjoint(s, o, b, k);
    hide Disjoint;
  }

  lemma JoinDisjoint(s: State, o: int, b: int, k: nat)
    requires Disjoint(s) && k < |s.free| && o in s.order && s.order[o] == k && b in s.order && s.order[b] == k
    requires b == o + Pow2(k) || b == o - Pow2(k)
    ensures Disjoint(Join(s, o, b, k))
  {
    hide Pow2;
    var low, high := if o < b then o else b, if o < b then b else o;
    var t := Join(s, o, b, k);
    Pow2Doubles(k);
    assert t.order == (s.order - {high})[low := k + 1];
    forall x, y | x in t.order && y in t.order && x < y
      ensures x + Pow2(t.order[x]) <= y
    {
      assert x in s.order && y in s.order && y != high;
      if x == low { assert high + Pow2(k) <= y; }
    }
  }

  lemma Pow2Doubles(k: nat)
    ensures Pow2(k + 1) == 2 * Pow2(k) && Pow2(k) > 0
  {
  }

  lemma JoinCovers(s: State, o: int, b: int, k: nat, top: nat)
    requires Complete(s, top) && k < |s.free|
    requires o in s.order && s.order[o] == k && b in s.order && s.order[b] == k
    requires b == o + Pow2(k) || b == o - Pow2(k)
    ensures Complete(Join(s, o, b, k), top)
  {
    var low, high := if o < b then o else b, if o < b then b else o;
    var t := Join(s, o, b, k);
    Pow2Positive(k);
    forall x | 0 <= x < Pow2(top)
      ensures Covered(t, x)
    {
      assert Covered(s, x);
      var c :| Covers(s, c, x);
      assert Covers(t, if c == high then low else c, x);
    }
  }

  lemma JoinKeepsLists(s: State, o: int, k: nat, top: nat)
    requires Inv(s, top) && k < top && Taken(s, o, k)
    requires var b := BuddyOf(o, k); b in s.order && s.order[b] == k
    ensures ListsOk(Join(s, o, BuddyOf(o, k), k), top)
    ensures NoFreeBuddies(Join(s, o, BuddyOf(o, k), k), top)
  {
    hide BuddyOf, Aligned, Tiling;
    var b := BuddyOf(o, k);
    var t := Join(s, o, b, k);
    assert o !in s.free[k];
    RemoveNoDuplicates(s.free[k], b);
    assert forall y :: y in t.free[k] ==> y in s.free[k] && y != b && y != o;
    assert NoBuddiesIn(s.free[k], k);
    assert NoBuddiesIn(t.free[k], k);
  }

  lemma JoinKeeps(s: State, o: int, k: nat, top: nat)
    requires Inv(s, top) && k < top && Taken(s, o, k)
    requires var b := BuddyOf(o, k); b in s.order && s.order[b] == k && IsFree(s, b)
    ensures var b := BuddyOf(o, k);
            var low, t := if o < b then o else b, Join(s, o, b, k);
            Inv(t, top) && Taken(t, low, k + 1) && Live(t) - {low} == Live(s) - {o}
  {
    hide BuddyOf, Aligned, Bounded, Disjoint, Complete, NoFreeBuddies;
    var b := BuddyOf(o, k);
    JoinTiles(s, o, k, top);
    JoinKeepsLists(s, o, k, top);
    var t := Join(s, o, b, k);
    var low, high := if o < b then o else b, if o < b then b else o;
    forall x | x in s.order && x != o && x != b
      ensures x in t.order && t.order[x] == s.order[x] && IsFree(t, x) == IsFree(s, x)
    {
    }
    assert low !in s.free[k + 1];
    assert Live(t) - {low} == Live(s) - {o};
  }

  lemma {:induction false} RemoveNoDuplicates(s: seq<int>, x: int)
    requires NoDuplicates(s)
    ensures NoDuplicates(Remove(s, x))
  {
    if s != [] {
      RemoveNoDuplicates(s[1..], x);
      if s[0] != x {
        assert s[0] !in s[1..];
      }
    }
  }

  /** Putting a taken block with no free buddy at the head of its list makes it free. */
  lemma GiveBackKeeps(s: State, o: int, k: nat, top: nat)
    requires Inv(s, top) && k <= top && Taken(s, o, k)
    requires k < top ==> BuddyOf(o, k) !in s.free[k]
    ensures var t := s.(free := s.free[k := [o] + s.free[k]]);
            Inv(t, top) && Live(t) == Live(s) - {o}
  {
    hide BuddyOf, Aligned, Disjoint, Complete, NoFreeBuddies, Pow2;
    var t := s.(free := s.free[k := [o] + s.free[k]]);
    PushKeepsLists(s, s, o, k, top);
    SameBlocksTile(s, t, top);
    hide Tiling, NoDuplicates;
    forall x | x in s.order && x != o
      ensures IsFree(t, x) == IsFree(s, x)
    {
    }
    assert Live(t) == Live(s) - {o};
  }

  lemma SameBlocksTile(s: State, t: State, top: nat)
    requires Tiling(s, top) && t.order == s.order
    ensures Tiling(t, top)
  {
    forall x | 0 <= x < Pow2(top)
      ensures Covered(t, x)
    {
      assert Covered(s, x);
      var c :| Covers(s, c, x);
      assert Covers(t, c, x);
    }
  }

  lemma {:induction false} MergeKeeps(s: State, o: int, k: nat, top: nat)
    requires Inv(s, top) && k <= top && Taken(s, o, k)
    ensures Inv(Merge(s, o, k, top), top)
    ensures Live(Merge(s, o, k, top)) == Live(s) - {o}
    decreases top - k
  {
    hide BuddyOf, Tiling, NoFreeBuddies, NoDuplicates, Pow2;
    var b := BuddyOf(o, k);
    if k == top {
      OnlyBlock(s, o, top);
      assert s.free[top] == [] by {
        assert o !in s.free[top];
      }
      GiveBackKeeps(s, o, k, top);
      assert [o] + s.free[top] == [o];
    } else if b in s.order && s.order[b] == k && IsFree(s, b) {
      JoinKeeps(s, o, k, top);
      MergeKeeps(Join(s, o, b, k), if o < b then o else b, k + 1, top);
    } else {
      GiveBackKeeps(s, o, k, top);
    }
  }

  /** A block of the top order is the whole heap. */
  lemma OnlyBlock(s: State, o: int, top: nat)
    requires Inv(s, top) && o in s.order && s.order[o] == top
    ensures o == 0 && s.order == map[0 := top]
    ensures forall k :: 0 <= k < top ==> s.free[k] == []
    ensures s.free[top] == [] || s.free[top] == [0]
  {
    hide BuddyOf, Aligned;
    forall p | p in s.order
      ensures p == 0
    {
      assert Pow2(s.order[p]) >= 1;
      if p < o { } else if o < p { }
    }
    forall k | 0 <= k < top
      ensures s.free[k] == []
    {
      assert OfOrder(s, s.free[k], k);
      if s.free[k] != [] {
        HasMember(s.free[k]);
        assert false;
      }
    }
    assert NoDuplicates(s.free[top]) && OfOrder(s, s.free[top], top);
    if s.free[top] != [] {
      OneValue(s.free[top], 0);
    }
  }

  lemma HasMember(list: seq<int>)
    requires list != []
    ensures exists x :: x in list
  {
    var x := list[0];
    assert x in list;
  }

  lemma OneValue(list: seq<int>, v: int)
    requires NoDuplicates(list) && list != [] && (forall x :: x in list ==> x == v)
    ensures list == [v]
  {
    assert list[0] in list && list[|list| - 1] in list;
    assert list[0] == list[|list| - 1];
  }

  /** free: the invariant is kept, the block stops being live and no other live block changes. */
  lemma ReleaseKeeps(s: State, o: int, top: nat)
    requires Inv(s, top) && o in Live(s)
    ensures Inv(Release(s, o, top), top)
    ensures Live(Release(s, o, top)) == Live(s) - {o}
  {
    MergeKeeps(s, o, s.order[o], top);
  }

  // ---------------------------------------------------------------- round trip

  lemma {:induction false} MergeUndoesSplits(s: State, o: int, j: nat, k: nat, top: nat)
    requires Inv(s, top) && Taken(s, o, j) && MIN_ORDER <= k <= j
    ensures Merge(SplitDown(s, o, j, k), o, k, top) == Merge(s, o, j, top)
    decreases j
  {
    hide BuddyOf, Tiling, NoFreeBuddies, NoDuplicates, OfOrder, Split, Merge, Live, IsFree, Pow2;
    if k < j {
      SplitTiles(s, o, j, top);
      var t := Split(s, o, j);
      SplitKeeps(s, o, j, top);
      MergeUndoesSplits(t, o, j - 1, k, top);
      MergeUndoesSplit(s, o, j, top);
    }
  }

  lemma MergeUndoesSplit(s: State, o: int, j: nat, top: nat)
    requires Inv(s, top) && Taken(s, o, j) && MIN_ORDER < j
    ensures Merge(Split(s, o, j), o, j - 1, top) == Merge(s, o, j, top)
  {
    hide BuddyOf, Aligned, Disjoint, Complete, NoFreeBuddies;
    var t := Split(s, o, j);
    var b := BuddyOf(o, j - 1);
    assert b == o + Pow2(j - 1) && o < b && b !in s.order by {
      UpperHalfIsBuddy(o, j - 1);
      SplitTiles(s, o, j, top);
    }
    assert OfOrder(s, s.free[j - 1], j - 1);
    RemoveAbsent(s.free[j - 1], b);
    assert t.free[j - 1] == [b] + s.free[j - 1];
    assert t.free[j - 1][1..] == s.free[j - 1];
    var u := Join(t, o, b, j - 1);
    assert u.order == s.order;
    assert u.free == s.free;
  }

  lemma {:induction false} RemoveAbsent(s: seq<int>, x: int)
    requires x !in s
    ensures Remove(s, x) == s
  {
    if s != [] {
      RemoveAbsent(s[1..], x);
    }
  }

  /** A successful malloc followed at once by the free of its result is the identity, on the
      blocks and on every free list element for element. */
  lemma FreeUndoesMalloc(s: State, k: nat, top: nat)
    requires Inv(s, top) && MIN_ORDER <= k
    requires Alloc(s, k).Some?
    ensures var (t, o) := Alloc(s, k).value;
            o in Live(t) && t.order[o] <= top && |t.free| == top + 1 && Release(t, o, top) == s
  {
    hide BuddyOf, Aligned;
    var j := FirstNonEmpty(s.free, k);
    var o := s.free[j][0];
    var u := Unlink(s, j);
    AllocKeeps(s, k, top);
    UnlinkKeeps(s, j, top);
    SplitDownKeeps(u, o, j, k, top);
    MergeUndoesSplits(u, o, j, k, top);
    assert [o] + u.free[j] == s.free[j];
    if j == top {
      OnlyBlock(s, o, top);
      assert s.free[j] == [o];
    } else {
      assert BuddyOf(o, j) !in u.free[j];
    }
    assert Merge(u, o, j, top).free == s.free;
  }

  // ---------------------------------------------------------------- draining

  function ReleaseAll(s: State, offsets: seq<int>, top: nat): (r: State)
    requires |s.free| == top + 1
    decreases |offsets|
  {
    if offsets == [] then s
    else if offsets[0] in s.order && s.order[offsets[0]] <= top
    then ReleaseAll(Release(s, offsets[0], top), offsets[1..], top)
    else ReleaseAll(s, offsets[1..], top)
  }

  /** A heap with nothing live is the one block of the top order: of two free buddies neither
      can be smallest, so the smallest free block is the whole heap. */
  lemma NothingLiveIsInitial(s: State, top: nat)
    requires Inv(s, top) && Live(s) == map[] && MIN_ORDER <= top
    ensures s == Initial(top)
  {
    hide Pow2, BuddyOf, Aligned, Disjoint;
    assert Covered(s, 0);
    var c :| Covers(s, c, 0);
    forall x | x in s.order
      ensures IsFree(s, x)
    {
      assert x !in Live(s);
    }
    assert forall x :: x in s.order ==> IsFree(s, x);
    AllFreeIsTop(s, c, top);
    OnlyBlock(s, c, top);
    assert s.free == Initial(top).free;
  }

  /** With nothing live every block is of the top order: the buddy of a smaller one would be
      smaller still. */
  lemma {:induction false} AllFreeIsTop(s: State, o: int, top: nat)
    requires Inv(s, top) && o in s.order && (forall x :: x in s.order ==> IsFree(s, x))
    ensures s.order[o] == top
    decreases s.order[o]
  {
    hide BuddyOf, Aligned, Complete;
    var k := s.order[o];
    if k < top {
      BuddyIsBlock(s, o, top);
      var b := BuddyOf(o, k);
      assert NoBuddiesIn(s.free[k], k);
      if s.order[b] < k {
        AllFreeIsTop(s, b, top);
      }
      assert false;
    }
  }

  /** From any state the invariant allows, freeing every live block, in any order, leaves the
      heap as it was when it was created. */
  lemma {:induction false} FreeingAllRestoresHeap(s: State, offsets: seq<int>, top: nat)
    requires Inv(s, top) && MIN_ORDER <= top
    requires NoDuplicates(offsets) && (forall o :: o in offsets <==> o in Live(s))
    ensures ReleaseAll(s, offsets, top) == Initial(top)
    decreases |offsets|
  {
    if offsets == [] {
      assert Live(s) == map[];
      NothingLiveIsInitial(s, top);
    } else {
      var o := offsets[0];
      assert o in offsets;
      ReleaseKeeps(s, o, top);
      assert forall p :: p in offsets[1..] <==> p in offsets && p != o;
      FreeingAllRestoresHeap(Release(s, o, top), offsets[1..], top);
    }
  }
}
