/** What every malloc and free of the free-list allocator keeps, and why the list it leaves is
    determined by the live blocks alone. */
module FreeListProofs {
  import opened Common
  import opened FreeListSpec

  // ---------------------------------------------------------------- insertion

  /** b shares no byte with any free range. */
  ghost predicate Apart(free: seq<Range>, b: Range) {
    forall x :: b.Has(x) ==> !InFree(free, x)
  }

  lemma ApartTail(free: seq<Range>, b: Range)
    requires Apart(free, b) && free != []
    ensures Apart(free[1..], b)
  {
    forall x | b.Has(x)
      ensures !InFree(free[1..], x)
    {
      InFreeHead(free, x);
    }
  }

  lemma ApartHead(free: seq<Range>, b: Range)
    requires Apart(free, b) && free != [] && free[0].size > 0 && b.size > 0
    ensures free[0].addr < b.addr ==> free[0].End() <= b.addr
    ensures b.addr <= free[0].addr ==> b.End() <= free[0].addr
  {
    InFreeHead(free, b.addr);
    InFreeHead(free, free[0].addr);
    assert b.Has(b.addr);
    assert free[0].Has(free[0].addr);
  }

  lemma AttachNextKeeps(b: Range, rest: seq<Range>, lo: int, hi: int)
    requires WellSized(b, lo, hi) && Sorted(rest, b.End(), hi)
    ensures Sorted(AttachNext(b, rest), lo, hi)
    ensures forall x :: InFree(AttachNext(b, rest), x) <==> InFree(rest, x) || b.Has(x)
  {
    forall x
      ensures InFree(AttachNext(b, rest), x) <==> InFree(rest, x) || b.Has(x)
    {
      InFreeCons(b, rest, x);
      if rest != [] {
        InFreeHead(rest, x);
        InFreeCons(Range(b.addr, b.size + rest[0].size), rest[1..], x);
      }
    }
    if rest != [] && b.End() == rest[0].addr {
      var m := Range(b.addr, b.size + rest[0].size);
      assert ([m] + rest[1..])[1..] == rest[1..];
    } else {
      assert ([b] + rest)[1..] == rest;
    }
  }

  lemma SortedWeaken(free: seq<Range>, lo: int, lo': int, hi: int)
    requires Sorted(free, lo, hi) && lo' <= lo
    ensures Sorted(free, lo', hi)
  {
  }

  lemma SortedRaise(free: seq<Range>, lo: int, lo': int, hi: int)
    requires Sorted(free, lo, hi) && (free != [] ==> lo' <= free[0].addr)
    ensures Sorted(free, lo', hi)
  {
  }

  /** insertBlockIntoFreeList keeps the order, leaves no two ranges touching, and adds exactly
      the bytes of the block. */
  lemma {:induction false} InsertKeeps(free: seq<Range>, b: Range, lo: int, hi: int)
    requires Sorted(free, lo, hi) && WellSized(b, lo, hi) && Apart(free, b)
    ensures Sorted(Insert(free, b), lo, hi)
    ensures forall x :: InFree(Insert(free, b), x) <==> InFree(free, x) || b.Has(x)
    decreases |free|
  {
    if free == [] {
      AttachNextKeeps(b, free, lo, hi);
    } else if b.addr <= free[0].addr {
      ApartHead(free, b);
      SortedRaise(free, lo, b.End(), hi);
      AttachNextKeeps(b, free, lo, hi);
    } else {
      var f, rest := free[0], free[1..];
      ApartHead(free, b);
      ApartTail(free, b);
      if f.End() == b.addr {
        JoinsPrevious(free, b, lo, hi);
      } else {
        InsertKeeps(rest, b, f.End() + 1, hi);
        assert ([f] + Insert(rest, b))[1..] == Insert(rest, b);
        forall x
          ensures InFree(Insert(free, b), x) <==> InFree(free, x) || b.Has(x)
        {
          InFreeHead(free, x);
          InFreeCons(f, Insert(rest, b), x);
        }
      }
    }
  }

  lemma JoinsPrevious(free: seq<Range>, b: Range, lo: int, hi: int)
    requires Sorted(free, lo, hi) && WellSized(b, lo, hi) && Apart(free, b)
    requires free != [] && free[0].End() == b.addr
    ensures Sorted(Insert(free, b), lo, hi)
    ensures forall x :: InFree(Insert(free, b), x) <==> InFree(free, x) || b.Has(x)
  {
    var f, rest := free[0], free[1..];
    var m := Range(f.addr, f.size + b.size);
    ApartTail(free, b);
    if rest != [] {
      ApartHead(rest, b);
    }
    SortedRaise(rest, f.End() + 1, m.End(), hi);
    AttachNextKeeps(m, rest, lo, hi);
    forall x
      ensures InFree(Insert(free, b), x) <==> InFree(free, x) || b.Has(x)
    {
      InFreeHead(free, x);
    }
  }

  lemma {:induction false} SumInsert(free: seq<Range>, b: Range)
    ensures Sum(Insert(free, b)) == Sum(free) + b.size
    decreases |free|
  {
    if free == [] || b.addr <= free[0].addr {
      SumAttach(b, free);
    } else if free[0].End() == b.addr {
      SumAttach(Range(free[0].addr, free[0].size + b.size), free[1..]);
    } else {
      SumInsert(free[1..], b);
      assert ([free[0]] + Insert(free[1..], b))[1..] == Insert(free[1..], b);
    }
  }

  lemma SumAttach(b: Range, rest: seq<Range>)
    ensures Sum(AttachNext(b, rest)) == b.size + Sum(rest)
  {
    if rest != [] {
      var m := Range(b.addr, b.size + rest[0].size);
      assert ([m] + rest[1..])[1..] == rest[1..];
    }
    assert ([b] + rest)[1..] == rest;
  }

  // ---------------------------------------------------------------- removal

  lemma {:induction false} DropKeeps(free: seq<Range>, i: nat, lo: int, hi: int)
    requires Sorted(free, lo, hi) && i < |free|
    ensures Sorted(Drop(free, i), lo, hi) && WellSized(free[i], lo, hi)
    ensures forall x :: InFree(Drop(free, i), x) <==> InFree(free, x) && !free[i].Has(x)
    ensures Sum(Drop(free, i)) == Sum(free) - free[i].size
    decreases |free|
  {
    hide InFree;
    var f, rest := free[0], free[1..];
    if i == 0 {
      assert Drop(free, 0) == rest;
      SortedWeaken(rest, f.End() + 1, lo, hi);
      forall x
        ensures InFree(rest, x) <==> InFree(free, x) && !f.Has(x)
      {
        InFreeHead(free, x);
        if InFree(rest, x) {
          SortedBounds(rest, f.End() + 1, hi, x);
        }
      }
    } else {
      DropKeeps(rest, i - 1, f.End() + 1, hi);
      assert Drop(free, i) == [f] + Drop(rest, i - 1);
      assert ([f] + Drop(rest, i - 1))[1..] == Drop(rest, i - 1);
      forall x
        ensures InFree(Drop(free, i), x) <==> InFree(free, x) && !free[i].Has(x)
      {
        InFreeHead(free, x);
        InFreeCons(f, Drop(rest, i - 1), x);
        assert rest[i - 1] == free[i];
      }
    }
  }

  lemma {:induction false} SumAtLeast(free: seq<Range>, i: nat, lo: int, hi: int)
    requires Sorted(free, lo, hi) && i < |free|
    ensures free[i].size <= Sum(free)
    ensures Sum(free) >= 0
    decreases |free|
  {
    SumNonNegative(free[1..], free[0].End() + 1, hi);
    if i > 0 {
      SumAtLeast(free[1..], i - 1, free[0].End() + 1, hi);
    }
  }

  lemma {:induction false} SumNonNegative(free: seq<Range>, lo: int, hi: int)
    requires Sorted(free, lo, hi)
    ensures Sum(free) >= 0
    decreases |free|
  {
    if free != [] {
      SumNonNegative(free[1..], free[0].End() + 1, hi);
    }
  }

  // ---------------------------------------------------------------- live blocks

  lemma LiveAdded(live: map<int, int>, b: Range, x: int)
    requires b.addr !in live
    ensures InLive(live[b.addr := b.size], x) <==> InLive(live, x) || b.Has(x)
  {
    var live' := live[b.addr := b.size];
    if InLive(live, x) {
      var a :| a in live && Range(a, live[a]).Has(x);
      assert a in live' && Range(a, live'[a]).Has(x);
    }
    if b.Has(x) {
      assert b.addr in live' && Range(b.addr, live'[b.addr]).Has(x);
    }
  }

  lemma LiveRemoved(live: map<int, int>, a: int, lo: int, hi: int, x: int)
    requires LiveOk(live, lo, hi) && a in live
    ensures InLive(live - {a}, x) <==> InLive(live, x) && !Range(a, live[a]).Has(x)
  {
    var live' := live - {a};
    if InLive(live', x) {
      var c :| c in live' && Range(c, live'[c]).Has(x);
      assert c in live && Range(c, live[c]).Has(x);
    }
    if InLive(live, x) && !Range(a, live[a]).Has(x) {
      var c :| c in live && Range(c, live[c]).Has(x);
      assert c in live' && Range(c, live'[c]).Has(x);
    }
  }

  /** The list is a function of the live blocks. */
  lemma LiveDeterminesFree(s: State, t: State, lo: int, hi: int)
    requires Inv(s, lo, hi) && Inv(t, lo, hi) && s.live == t.live
    ensures s == t
  {
    forall x
      ensures InFree(s.free, x) == InFree(t.free, x)
    {
      if InFree(s.free, x) {
        SortedBounds(s.free, lo, hi, x);
      }
      if InFree(t.free, x) {
        SortedBounds(t.free, lo, hi, x);
      }
    }
    CoverageDeterminesList(s.free, t.free, lo, hi);
  }

  lemma InitialInv(lo: int, hi: int)
    requires WellSized(Range(lo, hi - lo), lo, hi)
    ensures Inv(Initial(lo, hi), lo, hi)
  {
    var s := Initial(lo, hi);
    assert s.free[1..] == [];
    forall x | lo <= x < hi
      ensures InFree(s.free, x) && !InLive(s.live, x)
    {
      assert s.free[0].Has(x);
    }
  }

  // ---------------------------------------------------------------- malloc and free

  /** Turning part of a free range into a live block keeps live blocks apart. */
  lemma CarveLive(s: State, i: nat, size: int, lo: int, hi: int)
    requires Inv(s, lo, hi) && i < |s.free| && 0 < size <= s.free[i].size
    requires WellSized(Range(s.free[i].addr, size), lo, hi)
    ensures s.free[i].addr !in s.live && LiveOk(s.live[s.free[i].addr := size], lo, hi)
  {
    var b := Range(s.free[i].addr, size);
    DropKeeps(s.free, i, lo, hi);
    forall x | b.Has(x)
      ensures !InLive(s.live, x)
    {
      assert s.free[i].Has(x);
      assert InFree(s.free, x);
    }
    forall a | a in s.live
      ensures a + s.live[a] <= b.addr || b.End() <= a
    {
      if b.Has(a) {
        assert Range(a, s.live[a]).Has(a);
        assert InLive(s.live, a);
      }
      if Range(a, s.live[a]).Has(b.addr) {
        assert b.Has(b.addr);
        assert InLive(s.live, b.addr);
      }
    }
  }

  /** Taking `size` bytes off the front of free range i and giving the rest back. */
  lemma CarveKeeps(s: State, i: nat, size: int, free': seq<Range>, lo: int, hi: int)
    requires Inv(s, lo, hi) && i < |s.free| && HEADER <= size <= s.free[i].size && size % 8 == 0
    requires free' == if size == s.free[i].size then Drop(s.free, i)
                      else Insert(Drop(s.free, i), Range(s.free[i].addr + size, s.free[i].size - size))
    requires size == s.free[i].size || HEADER <= s.free[i].size - size
    ensures Inv(State(free', s.live[s.free[i].addr := size]), lo, hi)
    ensures Sum(free') == Sum(s.free) - size
    ensures forall x :: Range(s.free[i].addr, size).Has(x) ==> InFree(s.free, x)
  {
    hide InFree, InLive, Sorted, LiveOk;
    var b := s.free[i];
    var rest := Drop(s.free, i);
    var t := State(free', s.live[b.addr := size]);
    DropKeeps(s.free, i, lo, hi);
    CarveLive(s, i, size, lo, hi);
    forall x | b.Has(x)
      ensures InFree(s.free, x)
    {
      Within(s.free, i, x);
    }
    if size < b.size {
      var r := Range(b.addr + size, b.size - size);
      assert forall x :: r.Has(x) ==> b.Has(x);
      assert Apart(rest, r);
      InsertKeeps(rest, r, lo, hi);
      SumInsert(rest, r);
    }
    AllocPartition(s, t, b.addr, b, lo, hi);
  }

  lemma FreeRangeFits(s: State, i: nat, lo: int, hi: int)
    requires Inv(s, lo, hi) && i < |s.free|
    ensures WellSized(s.free[i], lo, hi) && s.free[i].addr !in s.live
  {
    DropKeeps(s.free, i, lo, hi);
    CarveLive(s, i, s.free[i].size, lo, hi);
  }

  lemma Within(free: seq<Range>, i: nat, x: int)
    requires i < |free| && free[i].Has(x)
    ensures InFree(free, x)
  {
  }

  /** malloc fails exactly when no free range is large enough; otherwise a block of at least
      the bytes needed becomes live where only free bytes were, and the other live blocks stay. */
  lemma AllocKeeps(s: State, need: int, lo: int, hi: int)
    requires Inv(s, lo, hi) && (need > 0 ==> HEADER <= need && need % 8 == 0)
    ensures Alloc(s, need) == None <==> need <= 0 || forall i :: 0 <= i < |s.free| ==> s.free[i].size < need
    ensures Alloc(s, need).Some? ==>
              var (t, a) := Alloc(s, need).value;
              && Inv(t, lo, hi) && a !in s.live && a in t.live && t.live - {a} == s.live
              && need <= t.live[a] <= need + MIN_SPLIT
              && Sum(t.free) == Sum(s.free) - t.live[a]
              && (forall x :: Range(a, t.live[a]).Has(x) ==> InFree(s.free, x))
  {
    hide Inv, InFree, InLive, Sum, Insert;
    var i := FirstFit(s.free, need);
    if need > 0 && i < |s.free| {
      var b := s.free[i];
      FreeRangeFits(s, i, lo, hi);
      var (t, a) := Alloc(s, need).value;
      CarveKeeps(s, i, t.live[a], t.free, lo, hi);
      assert t.live - {a} == s.live;
    }
  }

  /** r is the lowest-addressed of the free ranges with room for `need` bytes. */
  ghost predicate LowestFit(free: seq<Range>, need: int, r: Range) {
    r in free && need <= r.size && forall q :: q in free && need <= q.size ==> r.addr <= q.addr
  }

  lemma {:induction false} SortedAscends(free: seq<Range>, i: nat, j: nat, lo: int, hi: int)
    requires Sorted(free, lo, hi) && i <= j < |free|
    ensures lo <= free[i].addr && (i < j ==> free[i].addr < free[j].addr)
    decreases |free|
  {
    if i > 0 {
      SortedAscends(free[1..], i - 1, j - 1, free[0].End() + 1, hi);
    } else if j > 0 {
      SortedAscends(free[1..], j - 1, j - 1, free[0].End() + 1, hi);
    }
  }

  /** Which block a request gets: the front of the lowest-addressed range with room for it; a rest
      of more than 32 bytes is cut off and stays free, a smaller one goes to the caller. */
  lemma TakesLowestFit(s: State, need: int, r: Range, lo: int, hi: int)
    requires Inv(s, lo, hi) && need > 0 && LowestFit(s.free, need, r)
    ensures Alloc(s, need).Some?
    ensures var (t, a) := Alloc(s, need).value;
            a == r.addr && t.live == s.live[r.addr := if r.size - need > 32 then need else r.size]
  {
    var i := FirstFit(s.free, need);
    var j :| 0 <= j < |s.free| && s.free[j] == r;
    assert i <= j && s.free[i] in s.free;
    SortedAscends(s.free, i, j, lo, hi);
  }

  lemma AllocPartition(s: State, t: State, a: int, b: Range, lo: int, hi: int)
    requires Inv(s, lo, hi) && a !in s.live && a in t.live && t.live == s.live[a := t.live[a]]
    requires b.addr == a && t.live[a] <= b.size
    requires forall x :: b.Has(x) ==> InFree(s.free, x)
    requires forall x :: InFree(t.free, x) <==> InFree(s.free, x) && !Range(a, t.live[a]).Has(x)
    ensures Partition(t, lo, hi)
    ensures forall x :: Range(a, t.live[a]).Has(x) ==> InFree(s.free, x)
  {
    forall x | lo <= x < hi
      ensures InFree(t.free, x) == !InLive(t.live, x)
    {
      LiveAdded(s.live, Range(a, t.live[a]), x);
      assert Range(a, t.live[a]).Has(x) ==> b.Has(x);
    }
    assert forall x :: Range(a, t.live[a]).Has(x) ==> b.Has(x);
  }

  /** free keeps the invariant and gives back exactly the bytes of its block. */
  lemma ReleaseKeeps(s: State, a: int, lo: int, hi: int)
    requires Inv(s, lo, hi) && a in s.live
    ensures Inv(Release(s, a), lo, hi)
    ensures Sum(Release(s, a).free) == Sum(s.free) + s.live[a]
  {
    var b := Range(a, s.live[a]);
    var t := Release(s, a);
    forall x | b.Has(x)
      ensures !InFree(s.free, x)
    {
      assert InLive(s.live, x);
    }
    assert Apart(s.free, b);
    InsertKeeps(s.free, b, lo, hi);
    SumInsert(s.free, b);
    forall x | lo <= x < hi
      ensures InFree(t.free, x) == !InLive(t.live, x)
    {
      LiveRemoved(s.live, a, lo, hi, x);
    }
  }

  /** A successful malloc followed by the free of its result is the identity on the list, and so
      on the byte count. */
  lemma FreeUndoesMalloc(s: State, need: int, lo: int, hi: int)
    requires Inv(s, lo, hi) && HEADER <= need && need % 8 == 0
    requires Alloc(s, need).Some?
    ensures var (t, a) := Alloc(s, need).value;
            a in t.live && Release(t, a) == s
  {
    var (t, a) := Alloc(s, need).value;
    AllocKeeps(s, need, lo, hi);
    ReleaseKeeps(t, a, lo, hi);
    LiveDeterminesFree(Release(t, a), s, lo, hi);
  }

  function ReleaseAll(s: State, addresses: seq<int>): State
    decreases |addresses|
  {
    if addresses == [] then s
    else ReleaseAll(if addresses[0] in s.live then Release(s, addresses[0]) else s, addresses[1..])
  }

  /** Freeing every live block, in any order and from any state, gives back the one block of the
      fresh heap. */
  lemma {:induction false} FreeingAllRestoresHeap(s: State, addresses: seq<int>, lo: int, hi: int)
    requires Inv(s, lo, hi) && WellSized(Range(lo, hi - lo), lo, hi)
    requires forall a :: a in s.live ==> a in addresses
    ensures ReleaseAll(s, addresses) == Initial(lo, hi)
    decreases |addresses|
  {
    if addresses == [] {
      forall a
        ensures a !in s.live
      {
        assert a !in addresses;
      }
      assert s.live == map[];
      InitialInv(lo, hi);
      LiveDeterminesFree(s, Initial(lo, hi), lo, hi);
    } else {
      var a := addresses[0];
      var t := if a in s.live then Release(s, a) else s;
      if a in s.live {
        ReleaseKeeps(s, a, lo, hi);
      }
      forall c | c in t.live
        ensures c in addresses[1..]
      {
        assert c in addresses && c != a;
      }
      FreeingAllRestoresHeap(t, addresses[1..], lo, hi);
    }
  }
}
