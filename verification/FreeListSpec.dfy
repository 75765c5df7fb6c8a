/** The address-ordered first-fit allocator on values: the free ranges in address order and the
    live blocks. */
module FreeListSpec {
  import opened Common

  /** Twice a header: the largest remainder that is not split off. */
  const MIN_SPLIT := 32

  datatype Range = Range(addr: int, size: int) {
    function End(): int {
      addr + size
    }

    predicate Has(x: int) {
      addr <= x < End()
    }
  }

  /** `live` maps the address of every allocated block to its size, header included. */
  datatype State = State(free: seq<Range>, live: map<int, int>)

  predicate InFree(free: seq<Range>, x: int) {
    exists i :: 0 <= i < |free| && free[i].Has(x)
  }

  predicate InLive(live: map<int, int>, x: int) {
    exists a :: a in live && Range(a, live[a]).Has(x)
  }

  /** Ranges start and end at multiples of 8 and have room for a header. */
  predicate WellSized(r: Range, lo: int, hi: int) {
    lo <= r.addr && r.End() <= hi && r.addr % 8 == 0 && r.size % 8 == 0 && HEADER <= r.size
  }

  /** Strictly ascending, and no two ranges touch. */
  predicate Sorted(free: seq<Range>, lo: int, hi: int)
    decreases |free|
  {
    free == [] || (WellSized(free[0], lo, hi) && Sorted(free[1..], free[0].End() + 1, hi))
  }

  ghost predicate LiveOk(live: map<int, int>, lo: int, hi: int) {
    && (forall a :: a in live ==> WellSized(Range(a, live[a]), lo, hi))
    && (forall a, b :: a in live && b in live && a < b ==> a + live[a] <= b)
  }

  /** A byte of the heap is free or live, never both. */
  ghost predicate Partition(s: State, lo: int, hi: int) {
    forall x :: lo <= x < hi ==> InFree(s.free, x) == !InLive(s.live, x)
  }

  ghost predicate Inv(s: State, lo: int, hi: int) {
    Sorted(s.free, lo, hi) && LiveOk(s.live, lo, hi) && Partition(s, lo, hi)
  }

  function Initial(lo: int, hi: int): State {
    State([Range(lo, hi - lo)], map[])
  }

  function Sum(free: seq<Range>): int {
    if free == [] then 0 else free[0].size + Sum(free[1..])
  }

  // ---------------------------------------------------------------- operations

  /** b in front of `rest`, in one piece with its first range if they touch. */
  function AttachNext(b: Range, rest: seq<Range>): seq<Range> {
    if rest != [] && b.End() == rest[0].addr
    then [Range(b.addr, b.size + rest[0].size)] + rest[1..]
    else [b] + rest
  }

  function Insert(free: seq<Range>, b: Range): seq<Range>
    decreases |free|
  {
    if free == [] || b.addr <= free[0].addr then AttachNext(b, free)
    else if free[0].End() == b.addr then AttachNext(Range(free[0].addr, free[0].size + b.size), free[1..])
    else [free[0]] + Insert(free[1..], b)
  }

  /** Index of the first range of at least `need` bytes; |free| if there is none. */
  function FirstFit(free: seq<Range>, need: int): (i: nat)
    ensures i <= |free|
    ensures forall j :: 0 <= j < i ==> free[j].size < need
    ensures i < |free| ==> free[i].size >= need
  {
    if free == [] || free[0].size >= need then 0 else 1 + FirstFit(free[1..], need)
  }

  /** The bytes taken from the list for a request; 64-bit arithmetic, rounded down to 8. */
  function Needed(size: int): int {
    if size <= 0 then 0 else (size + HEADER + 7) % 0x1_0000_0000_0000_0000 / 8 * 8
  }

  function Drop(free: seq<Range>, i: nat): seq<Range>
    requires i < |free|
  {
    free[..i] + free[i + 1..]
  }

  function Alloc(s: State, need: int): Option<(State, int)> {
    var i := FirstFit(s.free, need);
    if need <= 0 || i == |s.free| then None
    else
      var b := s.free[i];
      var rest := Drop(s.free, i);
      if b.size - need > MIN_SPLIT
      then Some((State(Insert(rest, Range(b.addr + need, b.size - need)), s.live[b.addr := need]), b.addr))
      else Some((State(rest, s.live[b.addr := b.size]), b.addr))
  }

  function Release(s: State, a: int): State
    requires a in s.live
  {
    State(Insert(s.free, Range(a, s.live[a])), s.live - {a})
  }

  // ---------------------------------------------------------------- coverage

  lemma InFreeHead(free: seq<Range>, x: int)
    requires free != []
    ensures InFree(free, x) <==> free[0].Has(x) || InFree(free[1..], x)
  {
    if InFree(free, x) {
      var i :| 0 <= i < |free| && free[i].Has(x);
      assert i == 0 || free[1..][i - 1].Has(x);
    }
    if InFree(free[1..], x) {
      var i :| 0 <= i < |free[1..]| && free[1..][i].Has(x);
      assert free[i + 1].Has(x);
    }
  }

  lemma InFreeCons(r: Range, rest: seq<Range>, x: int)
    ensures InFree([r] + rest, x) <==> r.Has(x) || InFree(rest, x)
  {
    InFreeHead([r] + rest, x);
    assert ([r] + rest)[1..] == rest;
  }

  /** A sorted list covers nothing below its bound or above the heap. */
  lemma {:induction false} SortedBounds(free: seq<Range>, lo: int, hi: int, x: int)
    requires Sorted(free, lo, hi) && InFree(free, x)
    ensures lo <= x < hi
    decreases |free|
  {
    InFreeHead(free, x);
    if !free[0].Has(x) {
      SortedBounds(free[1..], free[0].End() + 1, hi, x);
    }
  }

  /** The canonical form: a sorted list without touching ranges is determined by the bytes it
      covers. */
  lemma {:induction false} CoverageDeterminesList(f: seq<Range>, g: seq<Range>, lo: int, hi: int)
    requires Sorted(f, lo, hi) && Sorted(g, lo, hi)
    requires forall x :: InFree(f, x) == InFree(g, x)
    ensures f == g
    decreases |f|
  {
    if f == [] || g == [] {
      EmptyCoverage(f, g);
    } else {
      FirstRangesAgree(f, g, lo, hi);
      FirstRangesAgree(g, f, lo, hi);
      assert f[0] == g[0];
      forall x
        ensures InFree(f[1..], x) == InFree(g[1..], x)
      {
        InFreeHead(f, x);
        InFreeHead(g, x);
        assert InFree(f, x) == InFree(g, x);
        if InFree(f[1..], x) {
          SortedBounds(f[1..], f[0].End() + 1, hi, x);
        }
        if InFree(g[1..], x) {
          SortedBounds(g[1..], g[0].End() + 1, hi, x);
        }
      }
      CoverageDeterminesList(f[1..], g[1..], f[0].End() + 1, hi);
      assert f == [f[0]] + f[1..] && g == [g[0]] + g[1..];
    }
  }

  lemma EmptyCoverage(f: seq<Range>, g: seq<Range>)
    requires f == [] || g == []
    requires f != [] ==> f[0].size > 0
    requires g != [] ==> g[0].size > 0
    requires forall x :: InFree(f, x) == InFree(g, x)
    ensures f == g
  {
    if f != [] {
      HeadCovered(f);
    } else if g != [] {
      HeadCovered(g);
    }
  }

  lemma HeadCovered(f: seq<Range>)
    requires f != [] && f[0].size > 0
    ensures InFree(f, f[0].addr)
  {
    assert f[0].Has(f[0].addr);
  }

  /** The first range of f starts no earlier and ends no later than that of g. */
  lemma FirstRangesAgree(f: seq<Range>, g: seq<Range>, lo: int, hi: int)
    requires Sorted(f, lo, hi) && Sorted(g, lo, hi) && f != [] && g != []
    requires forall x :: InFree(f, x) == InFree(g, x)
    ensures g[0].addr <= f[0].addr
    ensures g[0].addr == f[0].addr ==> f[0].size <= g[0].size
  {
    InFreeHead(f, f[0].addr);
    InFreeHead(g, f[0].addr);
    assert InFree(g, f[0].addr);
    if InFree(g[1..], f[0].addr) {
      SortedBounds(g[1..], g[0].End() + 1, hi, f[0].addr);
    }
    if g[0].addr == f[0].addr && g[0].size < f[0].size {
      var x := g[0].End();
      InFreeHead(f, x);
      InFreeHead(g, x);
      assert InFree(g, x);
      if InFree(g[1..], x) {
        SortedBounds(g[1..], g[0].End() + 1, hi, x);
      }
      assert false;
    }
  }
}
