/** The buddy allocator as the kernel runs it: block headers in memory linked by address, an
    array of list heads, and the recursive merge that trusts one header read. */
module BuddyHeap {
  import opened Common
  import opened Powers
  import opened BuddySpec
  import opened BuddyProofs

  datatype Block = Block(next: int, size: int, isFree: bool)

  type Memory = map<int, Block>

  /** The head address and the `next` links spell out exactly `list`, ending in NULL. */
  ghost predicate Chain(mem: Memory, base: int, head: int, list: seq<int>)
    decreases |list|
  {
    if list == [] then head == NULL
    else head == base + list[0] && head in mem && Chain(mem, base, mem[head].next, list[1..])
  }

  ghost predicate Chains(mem: Memory, base: int, heads: seq<int>, lists: seq<seq<int>>) {
    |heads| == |lists| && forall k :: 0 <= k < |lists| ==> Chain(mem, base, heads[k], lists[k])
  }

  /** Every current block has a header with its size and its free bit; `busy` is the block being
      allocated or released, whose free bit is set although no list holds it. */
  ghost predicate Headers(mem: Memory, base: int, s: State, busy: set<int>) {
    forall o :: o in s.order ==>
                  && base + o in mem
                  && mem[base + o].size == Pow2(s.order[o])
                  && (mem[base + o].isFree <==> IsFree(s, o) || o in busy)
  }

  /** The block that is the whole heap has no successor, allocated or not; mergeBlock relies on it. */
  ghost predicate TopUnlinked(mem: Memory, base: int, s: State, top: nat) {
    0 in s.order && s.order[0] == top && base in mem ==> mem[base].next == NULL
  }

  ghost predicate Represents(mem: Memory, base: int, heads: seq<int>, s: State, busy: set<int>, top: nat) {
    && Inv(s, top)
    && Headers(mem, base, s, busy)
    && Chains(mem, base, heads, s.free)
    && TopUnlinked(mem, base, s, top)
  }

  // ---------------------------------------------------------------- memory steps

  /** Writes that keep the headers of the current blocks cannot disturb the allocator: payloads
      and the stale headers inside merged or allocated blocks are never looked at. */
  lemma OnlyHeadersMatter(mem: Memory, mem': Memory, base: int, heads: seq<int>, s: State, top: nat)
    requires Represents(mem, base, heads, s, {}, top)
    requires forall o :: o in s.order ==> base + o in mem' && mem'[base + o] == mem[base + o]
    ensures Represents(mem', base, heads, s, {}, top)
  {
    hide Tiling, NoFreeBuddies, Pow2;
    forall k | 0 <= k < |s.free|
      ensures Chain(mem', base, heads[k], s.free[k])
    {
      assert OfOrder(s, s.free[k], k);
      ChainFrame(mem, mem', base, heads[k], s.free[k]);
    }
  }

  /** A write that leaves `next` alone on every member keeps the chain. */
  lemma {:induction false} ChainFrame(mem: Memory, mem': Memory, base: int, head: int, list: seq<int>)
    requires Chain(mem, base, head, list)
    requires forall x :: x in list && base + x in mem ==> base + x in mem' && mem'[base + x].next == mem[base + x].next
    ensures Chain(mem', base, head, list)
    decreases |list|
  {
    if list != [] {
      var x := list[0];
      assert x in list;
      assert forall y :: y in list[1..] ==> y in list;
      ChainFrame(mem, mem', base, mem[head].next, list[1..]);
    }
  }

  lemma PushChain(mem: Memory, base: int, head: int, list: seq<int>, b: int)
    requires Chain(mem, base, head, list) && base + b in mem && mem[base + b].next == head
    ensures Chain(mem, base, base + b, [b] + list)
  {
    assert ([b] + list)[1..] == list;
  }

  /** Memory after splitBlock on the block at o of order j, with the upper half pushed on `head`. */
  function SplitMemory(mem: Memory, base: int, head: int, o: int, j: nat): Memory
    requires base + o in mem && 0 < j
  {
    mem[base + o := mem[base + o].(size := Pow2(j - 1))][base + o + Pow2(j - 1) := Block(head, Pow2(j - 1), true)]
  }

  lemma SplitHeaders(mem: Memory, base: int, head: int, s: State, o: int, j: nat, top: nat)
    requires Inv(s, top) && Headers(mem, base, s, {o}) && Taken(s, o, j) && MIN_ORDER < j
    ensures Headers(SplitMemory(mem, base, head, o, j), base, Split(s, o, j), {o})
  {
    hide BuddyOf, Tiling, NoFreeBuddies, NoDuplicates, Pow2;
    SplitTiles(s, o, j, top);
    Pow2Doubles(j - 1);
    var t := Split(s, o, j);
    var u := o + Pow2(j - 1);
    assert t.free[j - 1][0] == u;
    assert forall x :: x in s.order && x != o ==> IsFree(t, x) == IsFree(s, x);
    assert o !in s.free[j - 1] by {
      assert OfOrder(s, s.free[j - 1], j - 1);
    }
  }

  lemma SplitChains(mem: Memory, base: int, heads: seq<int>, s: State, o: int, j: nat, top: nat)
    requires Inv(s, top) && Chains(mem, base, heads, s.free) && base + o in mem && Taken(s, o, j) && MIN_ORDER < j
    ensures j <= top
    ensures Chains(SplitMemory(mem, base, heads[j - 1], o, j), base, heads[j - 1 := base + o + Pow2(j - 1)], Split(s, o, j).free)
  {
    hide BuddyOf, Aligned, Disjoint, Complete, NoFreeBuddies, Chain;
    var u := o + Pow2(j - 1);
    var mem' := SplitMemory(mem, base, heads[j - 1], o, j);
    SplitTiles(s, o, j, top);
    forall k | 0 <= k < |s.free|
      ensures Chain(mem', base, heads[k], s.free[k])
    {
      assert OfOrder(s, s.free[k], k);
      assert forall x :: x in s.free[k] ==> x != u;
      ChainFrame(mem, mem', base, heads[k], s.free[k]);
    }
    PushChain(mem', base, heads[j - 1], s.free[j - 1], u);
  }

  /** splitBlock followed by pushing the upper half on its list. */
  lemma SplitRepresents(mem: Memory, base: int, heads: seq<int>, s: State, o: int, j: nat, top: nat)
    requires Represents(mem, base, heads, s, {o}, top) && Taken(s, o, j) && MIN_ORDER < j
    ensures j <= top && |heads| == |s.free| == top + 1 && Taken(Split(s, o, j), o, j - 1)
    ensures base + o in mem && mem[base + o].size == Pow2(j) && Pow2(j) / 2 == Pow2(j - 1) && Pow2(j) > 1
    ensures Represents(SplitMemory(mem, base, heads[j - 1], o, j), base, heads[j - 1 := base + o + Pow2(j - 1)],
                       Split(s, o, j), {o}, top)
  {
    hide BuddyOf, Aligned, Disjoint, Complete, NoFreeBuddies, Chain;
    SplitKeeps(s, o, j, top);
    SplitHeaders(mem, base, heads[j - 1], s, o, j, top);
    SplitChains(mem, base, heads, s, o, j, top);
  }

  lemma Pow2Injective(j: nat, k: nat)
    requires Pow2(j) == Pow2(k)
    ensures j == k
  {
    if j < k {
      Pow2Monotone(j, k);
    } else if k < j {
      Pow2Monotone(k, j);
    }
  }

  /** Two free halves of the heap are the only blocks there are. */
  lemma LastPair(s: State, o: int, top: nat)
    requires Inv(s, top) && 0 < top && Taken(s, o, top - 1)
    requires var b := BuddyOf(o, top - 1); b in s.order && s.order[b] == top - 1 && IsFree(s, b)
    ensures s.free[top - 1] == [BuddyOf(o, top - 1)]
  {
    hide BuddyOf, Aligned, Pow2, Disjoint, Complete, NoFreeBuddies;
    var k := top - 1;
    var b, list := BuddyOf(o, k), s.free[k];
    var t := Join(s, o, b, k);
    JoinKeeps(s, o, k, top);
    OnlyBlock(t, if o < b then o else b, top);
    assert t.free[k] == Remove(list, b);
    assert t.free[k] == [];
    forall x | x in list
      ensures x == b
    {
    }
    assert NoDuplicates(list);
    OneValue(list, b);
  }

  /** Bypassing a later element of a chain through its predecessor removes it. */
  lemma {:induction false} BypassNext(mem: Memory, base: int, head: int, list: seq<int>, i: nat)
    requires Chain(mem, base, head, list) && NoDuplicates(list) && i + 1 < |list|
    requires base + list[i] in mem && base + list[i + 1] in mem
    ensures var p, x := base + list[i], base + list[i + 1];
            Chain(mem[p := mem[p].(next := mem[x].next)], base, head, Remove(list, list[i + 1]))
    decreases |list|
  {
    var p, v := base + list[i], list[i + 1];
    var mem' := mem[p := mem[p].(next := mem[base + v].next)];
    var rest := list[1..];
    assert list[0] != v;
    assert Remove(list, v) == [list[0]] + Remove(rest, v);
    assert ([list[0]] + Remove(rest, v))[1..] == Remove(rest, v);
    if i == 0 {
      DropHead(mem, base, mem[head].next, rest);
      assert list[0] !in Remove(rest, v);
      ChainFrame(mem, mem', base, mem[base + v].next, Remove(rest, v));
    } else {
      assert rest[i - 1] == list[i] && rest[i] == v;
      BypassNext(mem, base, mem[head].next, rest, i - 1);
      assert list[0] != list[i];
    }
  }

  /** Dropping the head of a chain, as removeFromFreeList does when the block is first. */
  lemma DropHead(mem: Memory, base: int, head: int, list: seq<int>)
    requires Chain(mem, base, head, list) && NoDuplicates(list) && list != []
    ensures Chain(mem, base, mem[head].next, Remove(list, list[0]))
    ensures Remove(list, list[0]) == list[1..]
  {
    var x := list[0];
    forall j | 0 < j < |list|
      ensures list[j] != x
    {
    }
    assert x !in list[1..];
    RemoveAbsent(list[1..], x);
  }

  /** The order of the smallest block of at least n bytes. */
  function OrderFor(n: nat): (k: nat)
    ensures n <= Pow2(k)
    ensures k == 0 || Pow2(k - 1) < n
  {
    if n <= 1 then 0 else 1 + OrderFor((n + 1) / 2)
  }

  lemma OrderForUnique(n: nat, k: nat)
    requires n <= Pow2(k) && (k == 0 || Pow2(k - 1) < n)
    ensures k == OrderFor(n)
  {
    var m := OrderFor(n);
    if k < m {
      Pow2Monotone(k, m - 1);
    } else if m < k {
      Pow2Monotone(m, k - 1);
    }
  }

  lemma {:induction false} FirstNonEmptyIs(free: seq<seq<int>>, k: nat, j: nat)
    requires k <= j < |free| && free[j] != [] && (forall i :: k <= i < j ==> free[i] == [])
    ensures FirstNonEmpty(free, k) == j
    decreases j - k
  {
    if k < j {
      FirstNonEmptyIs(free, k + 1, j);
    }
  }

  /** Taking the head of list j: its successor becomes the head. */
  lemma UnlinkRepresents(mem: Memory, base: int, heads: seq<int>, s: State, j: nat, top: nat)
    requires Represents(mem, base, heads, s, {}, top) && j <= top && s.free[j] != []
    ensures var o := s.free[j][0];
            && o in s.order && base + o in mem && heads[j] == base + o && Taken(Unlink(s, j), o, j)
            && |heads| == |s.free| == |Unlink(s, j).free| == top + 1
            && Represents(mem, base, heads[j := mem[base + o].next], Unlink(s, j), {o}, top)
  {
    hide BuddyOf, Aligned, Disjoint, Complete, NoFreeBuddies;
    var o := s.free[j][0];
    var t := Unlink(s, j);
    assert OfOrder(s, s.free[j], j);
    assert o in s.free[j];
    UnlinkKeeps(s, j, top);
    assert Chain(mem, base, heads[j], s.free[j]);
    assert s.free[j] == [o] + t.free[j];
    assert forall x :: x in s.order && x != o ==> IsFree(t, x) == IsFree(s, x);
  }

  /** A power of two below 2^n doubles to at most 2^n. */
  lemma Doubling(k: nat, n: nat)
    ensures Pow2(k) < Pow2(n) ==> Pow2(k + 1) <= Pow2(n)
  {
    if k < n {
      Pow2Monotone(k + 1, n);
    } else {
      Pow2Monotone(n, k);
    }
  }

  lemma PowerConstants()
    ensures Pow2(4) == 16 && Pow2(30) == 0x4000_0000 && Pow2(31) == 0x8000_0000
  {
    assert Pow2(8) == 256;
    assert Pow2(16) == 0x1_0000;
    assert Pow2(24) == 0x100_0000;
  }

  /** No request needs a block smaller than its own header. */
  lemma RequestFits(size: nat)
    requires size + HEADER <= 0x8000_0000
    ensures Request(size) == size + HEADER
    ensures MIN_ORDER <= OrderFor(size + HEADER)
  {
    hide OrderFor;
    var k := OrderFor(size + HEADER);
    assert Pow2(3) == 8;
    if k <= 3 {
      Pow2Monotone(k, 3);
    }
  }

  /** removeFromFreeList changes links only inside the list, and the free bit of x only. */
  ghost predicate Relinked(mem: Memory, mem': Memory, base: int, x: int, list: seq<int>) {
    && mem.Keys == mem'.Keys
    && forall a :: a in mem ==>
                     && mem'[a].size == mem[a].size
                     && mem'[a].isFree == (mem[a].isFree && a != x)
                     && (a - base !in list && a != x ==> mem'[a] == mem[a])
  }

  lemma RelinkedBy(mem: Memory, base: int, x: int, list: seq<int>, p: int, pNext: int, xNext: int)
    requires x in mem && p in mem && (p == x || p - base in list)
    ensures var m1 := mem[x := mem[x].(isFree := false)];
            var m2 := m1[p := m1[p].(next := pNext)];
            Relinked(mem, m2[x := m2[x].(next := xNext)], base, x, list)
  {
  }

  lemma SplitDownStep(s: State, o: int, j: nat, k: nat)
    requires k < j <= |s.free|
    ensures SplitDown(s, o, j, k) == SplitDown(Split(s, o, j), o, j - 1, k)
  {
  }

  /** What getOrder is handed: the 64-bit sum, cut to the 32 bits of its parameter. */
  function Request(size: nat): nat {
    (size + HEADER) % 0x1_0000_0000_0000_0000 % 0x1_0000_0000
  }

  /** The 32-bit word of getOrder after i doublings. */
  function Word(i: nat): nat {
    if i == 0 then 1 else Word(i - 1) * 2 % 0x1_0000_0000
  }

  lemma {:induction false} WordIs(i: nat)
    ensures Word(i) == if i <= 31 then Pow2(i) else 0
  {
    hide Pow2, Word;
    Steps(i);
    if i > 0 {
      WordIs(i - 1);
      TopPower(i);
    }
  }

  lemma Steps(i: nat)
    ensures Pow2(i) == if i == 0 then 1 else 2 * Pow2(i - 1)
    ensures Word(i) == if i == 0 then 1 else Word(i - 1) * 2 % 0x1_0000_0000
  {
  }

  lemma TopPower(i: nat)
    ensures i <= 31 ==> Pow2(i) <= 0x8000_0000
    ensures i == 32 ==> Pow2(i - 1) == 0x8000_0000
  {
    hide Pow2;
    PowerConstants();
    if i <= 31 { Pow2Monotone(i, 31); }
  }

  /** The loop of getOrder ends exactly for sizes up to 2^31, and then first where the word is the
      smallest power of two that holds the size. */
  lemma GetOrderEnds(size: nat)
    ensures (exists i :: size <= Word(i)) <==> size <= 0x8000_0000
    ensures size <= 0x8000_0000 ==>
              size <= Word(OrderFor(size)) && forall i :: 0 <= i < OrderFor(size) ==> Word(i) < size
  {
    hide OrderFor, Word, Pow2;
    PowerConstants();
    forall i | size <= Word(i)
      ensures size <= 0x8000_0000
    {
      WordIs(i);
      if i <= 31 { Pow2Monotone(i, 31); }
    }
    var k := OrderFor(size);
    if size <= 0x8000_0000 {
      WordIs(31);
      if k > 31 { Pow2Monotone(31, k - 1); }
      WordIs(k);
      forall i | 0 <= i < k
        ensures Word(i) < size
      {
        WordIs(i);
        Pow2Monotone(i, k - 1);
      }
    }
  }

  /** A request is served, its order found and a block of that order large enough for header and
      payload, exactly when the two need at most 2^31 bytes: for more, getOrder never returns, or
      the cut to 32 bits makes the block too small. */
  lemma RequestHolds(size: nat)
    requires size < 0x1_0000_0000_0000_0000
    ensures (exists i :: Request(size) <= Word(i)) && size + 16 <= Pow2(OrderFor(Request(size)))
            <==> size + 16 <= 0x8000_0000
  {
    hide OrderFor, Pow2, Word;
    var k := OrderFor(Request(size));
    GetOrderEnds(Request(size));
    PowerConstants();
    if Request(size) <= 0x8000_0000 {
      if k > 31 {
        Pow2Monotone(31, k - 1);
      }
      Pow2Monotone(k, 31);
    }
  }

  /** Blocks start at multiples of 16 from an 8-aligned base, so payloads are 8-aligned. */
  lemma PayloadAligned(s: State, base: int, heapStart: int, o: int, top: nat)
    requires Inv(s, top) && o in s.order && base == AlignUp(heapStart)
    ensures (base + o + HEADER) % 8 == 0
  {
    hide Disjoint, Complete, NoFreeBuddies;
    MultipleOfSmaller(o, 4, s.order[o]);
    PowerConstants();
    var m :| o == m * Pow2(4);
    assert o == 16 * m;
  }

  /** What a successful allocation hands out: an aligned payload in a block of the order asked for. */
  lemma MallocServes(mem: Memory, base: int, heapStart: int, heads: seq<int>, s: State, k: nat, top: nat)
    requires Represents(mem, base, heads, s, {}, top) && MIN_ORDER <= k && base == AlignUp(heapStart)
    requires Alloc(s, k).Some?
    ensures var (t, o) := Alloc(s, k).value;
            o in Live(t) && Live(t)[o] == k && (base + o + HEADER) % 8 == 0
  {
    hide Tiling, NoFreeBuddies, ListsOk, Alloc, AlignUp;
    AllocKeeps(s, k, top);
    var (t, o) := Alloc(s, k).value;
    assert o in Live(t);
    PayloadAligned(t, base, heapStart, o, top);
  }

  lemma SplitDownDone(s: State, o: int, k: nat)
    requires k <= |s.free|
    ensures SplitDown(s, o, k, k) == s
  {
  }

  lemma AllocAt(s: State, k: nat, j: nat)
    requires k <= j < |s.free| && s.free[j] != [] && (forall i :: k <= i < j ==> s.free[i] == [])
    ensures Alloc(s, k) == Some((SplitDown(Unlink(s, j), s.free[j][0], j, k), s.free[j][0]))
  {
    FirstNonEmptyIs(s.free, k, j);
  }

  lemma AllocNone(s: State, k: nat)
    requires forall i :: k <= i < |s.free| ==> s.free[i] == []
    ensures Alloc(s, k) == None
  {
  }

  /** A list head is NULL exactly when the list is empty, and otherwise a free block's header. */
  lemma HeadOfList(mem: Memory, base: int, heads: seq<int>, s: State, k: nat, top: nat)
    requires Represents(mem, base, heads, s, {}, top) && k <= top && 0 < base
    ensures |heads| == top + 1 && |s.free| == top + 1
    ensures heads[k] == NULL <==> s.free[k] == []
    ensures s.free[k] != [] ==> heads[k] in mem && mem[heads[k]].isFree
  {
    hide BuddyOf, Aligned, Disjoint, Complete, NoFreeBuddies;
    assert Chain(mem, base, heads[k], s.free[k]) && OfOrder(s, s.free[k], k);
    if s.free[k] != [] {
      var o := s.free[k][0];
      assert o in s.free[k];
    }
  }

  /** Clearing the free bit of the block being allocated completes the allocation. */
  lemma SettleTaken(mem: Memory, base: int, heads: seq<int>, s: State, o: int, k: nat, top: nat)
    requires Represents(mem, base, heads, s, {o}, top) && Taken(s, o, k)
    ensures base + o in mem
    ensures Represents(mem[base + o := mem[base + o].(isFree := false)], base, heads, s, {}, top)
  {
    hide Tiling, NoFreeBuddies, Chain;
    var mem' := mem[base + o := mem[base + o].(isFree := false)];
    forall k | 0 <= k < |s.free|
      ensures Chain(mem', base, heads[k], s.free[k])
    {
      ChainFrame(mem, mem', base, heads[k], s.free[k]);
    }
  }

  /** Whether the block at this distance from the start of the heap, taken as a 32-bit word, has
      an even number among the blocks of its size. */
  predicate LeftSide(distance: int, size: int)
    requires size > 0
  {
    distance % 0x1_0000_0000 / size % 2 == 0
  }

  lemma BlockHeader(mem: Memory, base: int, heads: seq<int>, s: State, o: int, k: nat, top: nat)
    requires Represents(mem, base, heads, s, {o}, top) && Taken(s, o, k) && k <= top
    ensures base + o in mem && mem[base + o].size == Pow2(k) && mem[base + o].isFree
    ensures Pow2(k) == Pow2(top) <==> k == top
    ensures 0 <= o && |heads| == |s.free| == top + 1
  {
    hide Disjoint, Complete, NoFreeBuddies, Aligned;
    Pow2Monotone(k, top);
  }

  /** The header read of a merge: the buddy address computed from the block's own address holds
      the header of a current block, and its two fields say whether the merge is possible. */
  lemma BuddyHeader(mem: Memory, base: int, heapStart: int, heads: seq<int>, s: State, o: int, k: nat, top: nat)
    requires Represents(mem, base, heads, s, {o}, top) && Taken(s, o, k) && k < top <= 30
    requires 0 < heapStart && base == AlignUp(heapStart)
    ensures base + o in mem && mem[base + o].size == Pow2(k)
    ensures var left := LeftSide(base + o - heapStart, Pow2(k));
            var b := if left then o + Pow2(k) else o - Pow2(k);
            && b == BuddyOf(o, k) && b in s.order && base + b in mem && b >= 0
            && (mem[base + b].isFree && mem[base + b].size == Pow2(k) <==> s.order[b] == k && IsFree(s, b))
  {
    hide Disjoint, Complete, NoFreeBuddies, BuddyOf, LeftSide, Chains, ListsOk, Aligned, Pow2;
    BuddyBounds(s, o, top);
    AlignmentSide(o, base - heapStart, k, top);
    BuddyAligned(o, k);
    BuddyIsBlock(s, o, top);
    var b := BuddyOf(o, k);
    if mem[base + b].size == Pow2(k) {
      Pow2Injective(s.order[b], k);
    }
  }

  lemma BuddyBounds(s: State, o: int, top: nat)
    requires Inv(s, top) && o in s.order && s.order[o] < top
    ensures MIN_ORDER <= s.order[o] && 0 <= o < Pow2(top) && Aligned(o, s.order[o])
    ensures BuddyOf(o, s.order[o]) in s.order && 0 <= BuddyOf(o, s.order[o])
  {
    hide Disjoint, Complete, NoFreeBuddies, BuddyOf, ListsOk, Aligned;
    BuddyIsBlock(s, o, top);
  }

  /** A start address that is up to 7 bytes short of alignment does not change the side. */
  lemma AlignmentSide(o: int, delta: int, k: nat, top: nat)
    requires MIN_ORDER <= k <= top <= 30 && Aligned(o, k) && 0 <= o < Pow2(top) && 0 <= delta < 8
    ensures BuddyOf(o, k) == if LeftSide(o + delta, Pow2(k)) then o + Pow2(k) else o - Pow2(k)
  {
    hide Pow2, LeftSide;
    var m :| o == m * Pow2(k);
    assert 16 <= Pow2(k) && Pow2(top) <= 0x4000_0000 by {
      Pow2Monotone(4, k);
      Pow2Monotone(top, 30);
      PowerConstants();
    }
    SideOfBlock(m, Pow2(k), delta);
  }

  lemma SideOfBlock(m: int, p: int, delta: int)
    requires 16 <= p && 0 <= m * p < 0x4000_0000 && 0 <= delta < 8
    ensures LeftSide(m * p + delta, p) <==> m * p / p % 2 == 0
  {
    QuotientOf(m, p, delta);
    QuotientOf(m, p, 0);
    assert (m * p + delta) % 0x1_0000_0000 == m * p + delta;
  }

  /** mergeBlock at the top order overwrites the list head with the whole heap. */
  lemma MergeTop(mem: Memory, base: int, heads: seq<int>, s: State, o: int, k: nat, top: nat)
    requires Represents(mem, base, heads, s, {o}, top) && Taken(s, o, k) && k == top
    ensures |heads| == |s.free| == top + 1
    ensures Represents(mem, base, heads[k := base + o], s.(free := s.free[k := [o]]), {}, top)
    ensures Merge(s, o, k, top) == s.(free := s.free[k := [o]])
  {
    hide BuddyOf, Aligned, Disjoint, Complete, NoFreeBuddies;
    MergeKeeps(s, o, k, top);
    OnlyBlock(s, o, top);
    assert Chain(mem, base, base + o, [o]);
  }

  /** mergeBlock with a busy or split buddy pushes the block on its list. */
  lemma MergeStops(mem: Memory, base: int, heads: seq<int>, s: State, o: int, k: nat, top: nat)
    requires Represents(mem, base, heads, s, {o}, top) && Taken(s, o, k) && k < top
    requires var b := BuddyOf(o, k); b in s.order && !(s.order[b] == k && IsFree(s, b))
    ensures |heads| == |s.free| == top + 1 && base + o in mem
    ensures var t := s.(free := s.free[k := [o] + s.free[k]]);
            && Represents(mem[base + o := mem[base + o].(next := heads[k])], base, heads[k := base + o], t, {}, top)
            && Merge(s, o, k, top) == t
  {
    hide BuddyOf, Aligned, Disjoint, Complete, NoFreeBuddies, Chain;
    var mem' := mem[base + o := mem[base + o].(next := heads[k])];
    var t := s.(free := s.free[k := [o] + s.free[k]]);
    MergeKeeps(s, o, k, top);
    forall j | 0 <= j < |s.free|
      ensures Chain(mem', base, heads[j], s.free[j])
    {
      assert OfOrder(s, s.free[j], j);
      assert o !in s.free[j];
      ChainFrame(mem, mem', base, heads[j], s.free[j]);
    }
    PushChain(mem', base, heads[k], s.free[k], o);
    assert t.free[k][0] == o;
    assert forall x :: x in s.order && x != o ==> IsFree(t, x) == IsFree(s, x);
  }

  lemma MergeReady(mem: Memory, base: int, heads: seq<int>, s: State, o: int, k: nat, top: nat)
    requires Represents(mem, base, heads, s, {o}, top) && Taken(s, o, k) && k < top
    requires var b := BuddyOf(o, k); b in s.order && s.order[b] == k && IsFree(s, b)
    ensures |heads| == |s.free| == top + 1
    ensures Chain(mem, base, heads[k], s.free[k]) && NoDuplicates(s.free[k])
    ensures (forall x :: x in s.free[k] ==> 0 <= x) && o !in s.free[k] && Remove(s.free[k], o) == s.free[k]
    ensures heads[k] != base + o
    ensures Merge(s, o, k, top) ==
            Merge(Join(s, o, BuddyOf(o, k), k), if o < BuddyOf(o, k) then o else BuddyOf(o, k), k + 1, top)
    ensures Taken(Join(s, o, BuddyOf(o, k), k), if o < BuddyOf(o, k) then o else BuddyOf(o, k), k + 1)
    ensures |Join(s, o, BuddyOf(o, k), k).free| == top + 1
  {
    hide BuddyOf, Aligned, Disjoint, Complete, NoFreeBuddies;
    assert Chain(mem, base, heads[k], s.free[k]) && OfOrder(s, s.free[k], k);
    RemoveAbsent(s.free[k], o);
    if s.free[k] != [] {
      var x := s.free[k][0];
      assert x in s.free[k];
    }
    JoinKeeps(s, o, k, top);
  }

  /** Memory after both halves left the list: only links inside it and two headers changed. */
  ghost predicate PairUnlinked(mem0: Memory, mem1: Memory, mem2: Memory, base: int, h1: int, list: seq<int>, o: int, b: int) {
    && base + o in mem1 && base + b in mem1
    && Relinked(mem0, mem1, base, base + o, list)
    && Relinked(mem1, mem2, base, base + b, list)
    && Chain(mem1, base, h1, list)
    && mem1[base + o].next == NULL
    && mem2[base + b].next == (if h1 == base + b then mem1[base + b].next else NULL)
  }

  function JoinMemory(mem: Memory, block: int, size: int): Memory {
    if block in mem then mem[block := mem[block].(size := size, isFree := true)] else mem
  }

  lemma JoinHeaders(mem0: Memory, mem1: Memory, mem2: Memory, base: int, h1: int, s: State, o: int, b: int, low: int, k: nat, top: nat)
    requires k < top && |s.free| == top + 1 && low == (if o < b then o else b) && base + low in mem2
    requires b == BuddyOf(o, k) && Taken(s, o, k) && IsFree(s, b) && s.order[b] == k
    requires PairUnlinked(mem0, mem1, mem2, base, h1, s.free[k], o, b)
    requires Inv(s, top) && Headers(mem0, base, s, {o})
    ensures mem2[base + low].size == Pow2(k)
    ensures Headers(JoinMemory(mem2, base + low, Pow2(k) * 2), base,
                    Join(s, o, b, k), {low})
  {
    hide BuddyOf, Tiling, NoFreeBuddies, NoDuplicates, Chain, Pow2;
    Pow2Doubles(k);
    var t := Join(s, o, b, k);
    var mem' := JoinMemory(mem2, base + low, Pow2(k) * 2);
    assert base + low in mem2 && mem2[base + low].size == Pow2(k);
    forall x | x in t.order && x != low
      ensures base + x in mem' && mem'[base + x].size == Pow2(t.order[x]) && (mem'[base + x].isFree <==> IsFree(t, x))
    {
      assert x in s.order && x != o && x != b;
      assert IsFree(t, x) == IsFree(s, x);
    }
  }

  lemma JoinChains(mem0: Memory, mem1: Memory, mem2: Memory, base: int, heads: seq<int>, h1: int, h2: int,
                   s: State, o: int, b: int, low: int, k: nat, top: nat)
    requires k < top && |s.free| == |heads| == top + 1 && low == (if o < b then o else b) && base + low in mem2
    requires b == BuddyOf(o, k) && Taken(s, o, k) && IsFree(s, b) && s.order[b] == k
    requires PairUnlinked(mem0, mem1, mem2, base, h1, s.free[k], o, b) && Chain(mem2, base, h2, Remove(s.free[k], b))
    requires Inv(s, top) && Headers(mem0, base, s, {o}) && Chains(mem0, base, heads, s.free)
    ensures Chains(JoinMemory(mem2, base + low, Pow2(k) * 2), base,
                   heads[k := h2], Join(s, o, b, k).free)
  {
    hide BuddyOf, Aligned, Tiling, NoFreeBuddies, Chain, Pow2, Remove, NoDuplicates, Headers;
    var mem' := JoinMemory(mem2, base + low, Pow2(k) * 2);
    ChainFrame(mem2, mem', base, h2, Remove(s.free[k], b));
    forall j | 0 <= j < |s.free| && j != k
      ensures Chain(mem', base, heads[j], s.free[j])
    {
      assert OfOrder(s, s.free[j], j) && OfOrder(s, s.free[k], k);
      forall x | x in s.free[j] && base + x in mem0
        ensures base + x in mem' && mem'[base + x].next == mem0[base + x].next
      {
        assert x !in s.free[k] && x != o && x != b;
        assert base + x - base == x;
      }
      ChainFrame(mem0, mem', base, heads[j], s.free[j]);
    }
  }

  /** Unlinking both halves and rewriting the lower header represents the joined block. */
  lemma JoinRepresents(mem0: Memory, mem1: Memory, mem2: Memory, base: int, heads: seq<int>, h1: int, h2: int,
                       s: State, o: int, b: int, low: int, k: nat, top: nat)
    requires k < top && |s.free| == |heads| == top + 1 && low == (if o < b then o else b) && base + low in mem2
    requires b == BuddyOf(o, k) && Taken(s, o, k) && IsFree(s, b) && s.order[b] == k
    requires PairUnlinked(mem0, mem1, mem2, base, h1, s.free[k], o, b) && Chain(mem2, base, h2, Remove(s.free[k], b))
    requires Represents(mem0, base, heads, s, {o}, top)
    ensures mem2[base + low].size == Pow2(k)
    ensures Represents(JoinMemory(mem2, base + low, Pow2(k) * 2), base,
                       heads[k := h2], Join(s, o, b, k), {low}, top)
  {
    hide BuddyOf, Aligned, Disjoint, Complete, NoFreeBuddies, Pow2, Headers;
    JoinKeeps(s, o, k, top);
    JoinHeaders(mem0, mem1, mem2, base, h1, s, o, b, low, k, top);
    JoinChains(mem0, mem1, mem2, base, heads, h1, h2, s, o, b, low, k, top);
    if k + 1 == top {
      LastPair(s, o, top);
      OneChain(mem1, base, h1, b);
      assert o !in s.free[k];
      assert base + o - base == o;
    }
  }

  lemma OneChain(mem: Memory, base: int, head: int, x: int)
    requires Chain(mem, base, head, [x])
    ensures head == base + x && head in mem && mem[head].next == NULL
  {
    assert [x][1..] == [];
  }

  /** Setting the free bit of a live block starts its release. */
  lemma MarkBusy(mem: Memory, base: int, heads: seq<int>, s: State, o: int, top: nat)
    requires Represents(mem, base, heads, s, {}, top) && o in Live(s) && top <= 30
    ensures base + o in mem && o in s.order && s.order[o] <= top && Taken(s, o, s.order[o])
    ensures mem[base + o].size == Pow2(s.order[o]) <= 0x8000_0000
    ensures s.order[o] == 0 || Pow2(s.order[o] - 1) < Pow2(s.order[o])
    ensures Represents(mem[base + o := mem[base + o].(isFree := true)], base, heads, s, {o}, top)
  {
    hide Disjoint, Complete, NoFreeBuddies, Aligned, Chain;
    var mem' := mem[base + o := mem[base + o].(isFree := true)];
    Pow2Monotone(s.order[o], 30);
    PowerConstants();
    forall k | 0 <= k < |s.free|
      ensures Chain(mem', base, heads[k], s.free[k])
    {
      ChainFrame(mem, mem', base, heads[k], s.free[k]);
    }
  }

  class Heap {
    const heapStart: int
    const base: int
    const top: nat
    const freeList: array<int>
    var mem: Memory
    ghost var s: State

    ghost predicate Usable()
      reads this, freeList
    {
      && 0 < heapStart && 0 < base == AlignUp(heapStart)
      && MIN_ORDER <= top <= 30
      && freeList.Length == top + 1
    }

    /** `busy` is the block a call has taken off the free lists and not yet settled. */
    ghost predicate Holds(busy: set<int>)
      reads this, freeList
    {
      Usable() && |s.free| == top + 1 && Represents(mem, base, freeList[..], s, busy, top)
    }

    ghost predicate Valid()
      reads this, freeList
    {
      Holds({})
    }

    constructor (start: int, orderCount: nat)
      requires 0 < start && MIN_ORDER < orderCount <= 31
      ensures Valid() && fresh(freeList)
      ensures heapStart == start && top == orderCount - 1 && s == Initial(top)
    {
      heapStart := start;
      base := AlignUp(start);
      top := orderCount - 1;
      freeList := new int[orderCount];
      mem := map[AlignUp(start) := Block(NULL, Pow2(orderCount - 1), true)];
      s := Initial(orderCount - 1);
      new;
      for i := 0 to orderCount
        invariant fresh(freeList) && s == Initial(top) && mem == map[base := Block(NULL, Pow2(top), true)]
        invariant forall k :: 0 <= k < i ==> freeList[k] == NULL
      {
        freeList[i] := NULL;
      }
      freeList[orderCount - 1] := base;
      InitialInv(top);
      assert s.free[top] == [0];
      assert freeList[..][top] == base;
    }

    /** The smallest power of two that holds `size`, by doubling a 32-bit word; GetOrderEnds says that
        the loop ends for no larger size. */
    static method GetOrder(size: int) returns (order: nat)
      requires 0 <= size <= 0x8000_0000
      ensures order == OrderFor(size)
    {
      order := 0;
      var iniBlockSize := 1;
      while iniBlockSize < size
        invariant iniBlockSize == Word(order) == Pow2(order) <= 0x8000_0000
        invariant order == 0 || Pow2(order - 1) < size
        decreases size - iniBlockSize
      {
        Doubling(order, 31);
        PowerConstants();
        iniBlockSize := iniBlockSize * 2 % 0x1_0000_0000;
        order := order + 1;
      }
      OrderForUnique(size, order);
    }

    /** Halves a block; the new upper half is free, its `next` still whatever was there. */
    method SplitBlock(block: int) returns (buddy: int)
      requires block in mem && mem[block].size > 1
      modifies this`mem
      ensures block in mem
      ensures var half := mem[block].size;
              && half == old(mem[block].size) / 2 && buddy == block + half
              && buddy in mem
              && mem == old(mem)[block := old(mem[block]).(size := half)][buddy := Block(mem[buddy].next, half, true)]
    {
      var newBlockSize := mem[block].size / 2;
      mem := mem[block := mem[block].(size := newBlockSize)];
      buddy := block + newBlockSize;
      var stale := if buddy in mem then mem[buddy].next else NULL;
      mem := mem[buddy := Block(stale, newBlockSize, true)];
    }

    /** First fit over the orders, then halving down to the order asked for. */
    method Malloc(size: int) returns (r: int)
      requires Valid() && 0 <= size && size + HEADER <= 0x8000_0000
      modifies this, freeList
      ensures Valid()
      ensures match Alloc(old(s), OrderFor(size + HEADER))
              case None => r == NULL && s == old(s) && mem == old(mem) && freeList[..] == old(freeList[..])
              case Some((t, o)) => r == base + o + HEADER && s == t
      ensures r != NULL ==>
                && r % 8 == 0
                && r - HEADER - base in Live(s)
                && HEADER + size <= Pow2(Live(s)[r - HEADER - base])
    {
      hide Represents, Alloc, SplitDown, Unlink, Inv, OrderFor, Taken, Pow2, Request, AlignUp;
      RequestFits(size);
      var order := GetOrder(Request(size));
      var currentOrder := order;
      while currentOrder <= top
        invariant order <= currentOrder && |s.free| == top + 1
        invariant forall i :: order <= i < currentOrder && i <= top ==> s.free[i] == []
        invariant Valid() && s == old(s) && mem == old(mem) && freeList[..] == old(freeList[..])
      {
        HeadOfList(mem, base, freeList[..], s, currentOrder, top);
        if freeList[currentOrder] != NULL && mem[freeList[currentOrder]].isFree {
          var block := freeList[currentOrder];
          AllocAt(s, order, currentOrder);
          MallocServes(mem, base, heapStart, freeList[..], s, order, top);
          UnlinkRepresents(mem, base, freeList[..], s, currentOrder, top);
          ghost var o := s.free[currentOrder][0];
          ghost var goal := SplitDown(Unlink(s, currentOrder), o, currentOrder, order);
          s := Unlink(s, currentOrder);
          freeList[currentOrder] := mem[block].next;
          while order < currentOrder
            invariant order <= currentOrder <= top
            invariant Holds({o}) && Taken(s, o, currentOrder) && block == base + o && |s.free| == top + 1
            invariant SplitDown(s, o, currentOrder, order) == goal
          {
            SplitRepresents(mem, base, freeList[..], s, o, currentOrder, top);
            SplitDownStep(s, o, currentOrder, order);
            currentOrder := currentOrder - 1;
            ghost var heads, mem0 := freeList[..], mem;
            var buddy := SplitBlock(block);
            mem := mem[buddy := mem[buddy].(next := freeList[currentOrder])];
            freeList[currentOrder] := buddy;
            assert freeList[..] == heads[currentOrder := buddy];
            assert mem == SplitMemory(mem0, base, heads[currentOrder], o, currentOrder + 1);
            s := Split(s, o, currentOrder + 1);
          }
          SettleTaken(mem, base, freeList[..], s, o, order, top);
          SplitDownDone(s, o, order);
          mem := mem[block := mem[block].(isFree := false)];
          return block + HEADER;
        }
        currentOrder := currentOrder + 1;
      }
      AllocNone(s, order);
      return NULL;
    }

    /** Walks one list for a block, bypasses it if it is there, and clears its free bit. */
    method RemoveFromFreeList(toRemove: int, order: nat, ghost list: seq<int>)
      requires Usable() && order <= top && toRemove in mem && 0 < base <= toRemove
      requires Chain(mem, base, freeList[order], list) && NoDuplicates(list) && (forall x :: x in list ==> 0 <= x)
      modifies this`mem, freeList
      ensures Usable() && freeList[..] == old(freeList[..])[order := freeList[order]]
      ensures Chain(mem, base, freeList[order], Remove(list, toRemove - base))
      ensures Relinked(old(mem), mem, base, toRemove, list) && mem.Keys == old(mem.Keys)
      ensures mem[toRemove].next == if old(freeList[order]) == toRemove then old(mem)[toRemove].next else NULL
    {
      hide Remove, NoDuplicates, Relinked;
      ghost var off := toRemove - base;
      ghost var mem0 := mem;
      mem := mem[toRemove := mem[toRemove].(isFree := false)];
      ChainFrame(mem0, mem, base, freeList[order], list);
      if freeList[order] == toRemove {
        DropHead(mem, base, freeList[order], list);
        RelinkedBy(mem0, base, toRemove, list, toRemove, mem[toRemove].next, mem[toRemove].next);
        assert mem == mem[toRemove := mem[toRemove].(next := mem[toRemove].next)];
        freeList[order] := mem[toRemove].next;
        return;
      }
      var currentBlock := freeList[order];
      ghost var i := 0;
      assert list[0..] == list;
      forall j | 0 <= j < |list|
        ensures base + list[j] != NULL
      {
        assert list[j] in list;
      }
      while currentBlock != NULL && mem[currentBlock].next != toRemove
        invariant i <= |list| && Chain(mem, base, currentBlock, list[i..])
        invariant currentBlock == if i < |list| then base + list[i] else NULL
        invariant forall j :: 0 <= j <= i && j < |list| ==> list[j] != off
        decreases |list| - i
      {
        assert list[i..][0] == list[i] && list[i..][1..] == list[i + 1..];
        assert i + 1 < |list| ==> list[i + 1..][0] == list[i + 1];
        i := i + 1;
        currentBlock := mem[currentBlock].next;
      }
      if currentBlock != NULL {
        assert list[i..][0] == list[i] && list[i..][1..] == list[i + 1..];
        assert list[i + 1..] != [];
        assert list[i + 1..][0] == list[i + 1] == off;
        BypassNext(mem, base, freeList[order], list, i);
        assert list[i] in list;
        RelinkedBy(mem0, base, toRemove, list, currentBlock, mem[toRemove].next, NULL);
        mem := mem[currentBlock := mem[currentBlock].(next := mem[toRemove].next)];
      } else {
        RemoveAbsent(list, off);
        RelinkedBy(mem0, base, toRemove, list, toRemove, NULL, NULL);
        ghost var mem2 := mem[toRemove := mem[toRemove].(next := NULL)];
        assert mem2[toRemove := mem2[toRemove].(next := NULL)] == mem2;
      }
      ghost var mem1 := mem;
      mem := mem[toRemove := mem[toRemove].(next := NULL)];
      ChainFrame(mem1, mem, base, freeList[order], Remove(list, off));
    }

    /** Which side of its pair a block is on, from its address: heapStart need not be aligned. */
    function IsLeft(block: int): bool
      requires block in mem && mem[block].size > 0
      reads this`mem
    {
      LeftSide(block - heapStart, mem[block].size)
    }

    /** Joins a block with its buddy for as long as the buddy is free and of the same size. */
    method MergeBlock(block: int, order: nat, ghost o: int)
      requires Holds({o}) && order <= top && Taken(s, o, order) && block == base + o
      modifies this, freeList
      ensures Valid() && s == Merge(old(s), o, order, top)
      decreases top - order
    {
      hide Represents, Merge, Pow2, LeftSide, Relinked, BuddyOf, Inv, Remove;
      BlockHeader(mem, base, freeList[..], s, o, order, top);
      if mem[block].size == Pow2(top) {
        MergeTop(mem, base, freeList[..], s, o, order, top);
        freeList[order] := block;
        s := s.(free := s.free[order := [o]]);
        return;
      }
      BuddyHeader(mem, base, heapStart, freeList[..], s, o, order, top);
      var left := IsLeft(block);
      var buddy := if left then block + mem[block].size else block - mem[block].size;
      if buddy == NULL || !mem[buddy].isFree || mem[buddy].size != mem[block].size {
        MergeStops(mem, base, freeList[..], s, o, order, top);
        mem := mem[block := mem[block].(next := freeList[order])];
        freeList[order] := block;
        s := s.(free := s.free[order := [o] + s.free[order]]);
        return;
      }

      MergeReady(mem, base, freeList[..], s, o, order, top);
      ghost var b := BuddyOf(o, order);
      ghost var list := s.free[order];
      ghost var mem0, heads0 := mem, freeList[..];
      RemoveFromFreeList(block, order, list);
      ghost var mem1, h1 := mem, freeList[order];
      RemoveFromFreeList(buddy, order, list);
      var merged := if left then block else buddy;
      ghost var low := if o < b then o else b;
      JoinRepresents(mem0, mem1, mem, base, heads0, h1, freeList[order], s, o, b, low, order, top);
      mem := mem[merged := mem[merged].(size := mem[merged].size * 2, isFree := true)];
      assert freeList[..] == heads0[order := freeList[order]];
      s := Join(s, o, b, order);
      MergeBlock(merged, order + 1, low);
    }

    /** globalFree: the pointer must be one that Malloc returned and that is still live. */
    method Free(ptr: int)
      requires Valid() && (ptr != NULL ==> ptr - HEADER - base in Live(s))
      modifies this, freeList
      ensures Valid()
      ensures ptr == NULL ==> s == old(s) && mem == old(mem) && freeList[..] == old(freeList[..])
      ensures ptr != NULL ==> |old(s).free| == top + 1 && old(s).order[ptr - HEADER - base] <= top
                              && s == Release(old(s), ptr - HEADER - base, top)
    {
      hide Inv, Merge, Pow2;
      if ptr == NULL {
        return;
      }
      var block := ptr - HEADER;
      ghost var o := block - base;
      MarkBusy(mem, base, freeList[..], s, o, top);
      mem := mem[block := mem[block].(isFree := true)];
      var order := GetOrder(mem[block].size);
      OrderForUnique(mem[block].size, s.order[o]);
      MergeBlock(block, order, o);
    }
  }
}
