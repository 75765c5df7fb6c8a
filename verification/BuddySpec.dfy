/** The buddy allocator on values: which blocks exist and which free list holds each. */
module BuddySpec {
  import opened Common
  import opened Powers

  /** HEADER is 16 bytes, so no block is smaller than 2^4. */
  const MIN_ORDER := 4

  /** `order` maps the heap offset of every block to the log2 of its size;
      `free[k]` is the free list of order k, head first. */
  datatype State = State(order: map<int, nat>, free: seq<seq<int>>)

  function Remove(s: seq<int>, x: int): (r: seq<int>)
    ensures x !in r
    ensures forall y :: y != x ==> (y in r <==> y in s)
    ensures |r| <= |s|
  {
    if s == [] then [] else if s[0] == x then Remove(s[1..], x) else [s[0]] + Remove(s[1..], x)
  }

  predicate IsFree(s: State, o: int) {
    o in s.order && s.order[o] < |s.free| && o in s.free[s.order[o]]
  }

  function Live(s: State): map<int, nat> {
    map o | o in s.order && !IsFree(s, o) :: s.order[o]
  }

  ghost predicate Covers(s: State, o: int, b: int) {
    o in s.order && o <= b < o + Pow2(s.order[o])
  }

  ghost predicate Covered(s: State, b: int) {
    exists o :: Covers(s, o, b)
  }

  /** o is a multiple of 2^k. */
  ghost predicate Aligned(o: int, k: nat) {
    Multiple(o, Pow2(k))
  }

  ghost predicate Bounded(s: State, top: nat) {
    forall o :: o in s.order ==>
                  MIN_ORDER <= s.order[o] <= top && 0 <= o && o + Pow2(s.order[o]) <= Pow2(top) && Aligned(o, s.order[o])
  }

  ghost predicate Disjoint(s: State) {
    forall o, p :: o in s.order && p in s.order && o < p ==> o + Pow2(s.order[o]) <= p
  }

  ghost predicate Complete(s: State, top: nat) {
    forall b :: 0 <= b < Pow2(top) ==> Covered(s, b)
  }

  /** The blocks exactly tile [0, 2^top), each at a multiple of its own size. */
  ghost predicate Tiling(s: State, top: nat) {
    Bounded(s, top) && Disjoint(s) && Complete(s, top)
  }

  ghost predicate OfOrder(s: State, list: seq<int>, k: nat) {
    forall o :: o in list ==> o in s.order && s.order[o] == k
  }

  /** free[k] holds only blocks of order k, each once. */
  ghost predicate ListsOk(s: State, top: nat) {
    && |s.free| == top + 1
    && (forall k :: 0 <= k <= top ==> NoDuplicates(s.free[k]) && OfOrder(s, s.free[k], k))
  }

  /** The other half of the block of order k+1 that contains the one at o. */
  function BuddyOf(o: int, k: nat): int {
    if o / Pow2(k) % 2 == 0 then o + Pow2(k) else o - Pow2(k)
  }

  ghost predicate NoBuddiesIn(list: seq<int>, k: nat) {
    forall o :: o in list ==> BuddyOf(o, k) !in list
  }

  ghost predicate NoFreeBuddies(s: State, top: nat)
    requires |s.free| == top + 1
  {
    forall k :: 0 <= k < top ==> NoBuddiesIn(s.free[k], k)
  }

  ghost predicate Inv(s: State, top: nat) {
    Tiling(s, top) && ListsOk(s, top) && NoFreeBuddies(s, top)
  }

  function Initial(top: nat): State {
    State(map[0 := top], seq(top, _ => []) + [[0]])
  }

  // ---------------------------------------------------------------- operations

  /** The smallest order from k up whose free list is not empty; |free| if there is none. */
  function FirstNonEmpty(free: seq<seq<int>>, k: nat): (j: nat)
    requires k <= |free|
    ensures k <= j <= |free|
    ensures forall i :: k <= i < j ==> free[i] == []
    ensures j < |free| ==> free[j] != []
    decreases |free| - k
  {
    if k == |free| || free[k] != [] then k else FirstNonEmpty(free, k + 1)
  }

  /** Halve the block at o once: the upper half heads the free list below. */
  function Split(s: State, o: int, j: nat): State
    requires 0 < j <= |s.free|
  {
    var b := o + Pow2(j - 1);
    State(s.order[o := j - 1][b := j - 1], s.free[j - 1 := [b] + s.free[j - 1]])
  }

  function SplitDown(s: State, o: int, j: nat, k: nat): (r: State)
    requires j <= |s.free|
    ensures |r.free| == |s.free|
    decreases j
  {
    if j <= k then s else SplitDown(Split(s, o, j), o, j - 1, k)
  }

  /** Take the head of free list j off its list. */
  function Unlink(s: State, j: nat): State
    requires j < |s.free| && s.free[j] != []
  {
    s.(free := s.free[j := s.free[j][1..]])
  }

  function Alloc(s: State, k: nat): Option<(State, int)> {
    var j := if k < |s.free| then FirstNonEmpty(s.free, k) else |s.free|;
    if j == |s.free| then None
    else Some((SplitDown(Unlink(s, j), s.free[j][0], j, k), s.free[j][0]))
  }

  /** The block at o and its buddy b, both of order k, become one block of order k+1. */
  function Join(s: State, o: int, b: int, k: nat): State
    requires k < |s.free|
  {
    var low := if o < b then o else b;
    var high := if o < b then b else o;
    State((s.order - {high})[low := k + 1], s.free[k := Remove(s.free[k], b)])
  }

  function Merge(s: State, o: int, k: nat, top: nat): (r: State)
    requires k <= top && |s.free| == top + 1
    ensures |r.free| == top + 1
    decreases top - k
  {
    var b := BuddyOf(o, k);
    if k == top then s.(free := s.free[k := [o]])
    else if b in s.order && s.order[b] == k && IsFree(s, b)
    then Merge(Join(s, o, b, k), if o < b then o else b, k + 1, top)
    else s.(free := s.free[k := [o] + s.free[k]])
  }

  function Release(s: State, o: int, top: nat): State
    requires o in s.order && s.order[o] <= top && |s.free| == top + 1
  {
    Merge(s, o, s.order[o], top)
  }

  // ---------------------------------------------------------------- the tree invariant

  /** The buddy of block number m of order k is the other member of its pair. */
  lemma BuddyByNumber(m: int, k: nat)
    ensures BuddyOf(m * Pow2(k), k) == (if m % 2 == 0 then m + 1 else m - 1) * Pow2(k)
  {
    QuotientOf(m, Pow2(k), 0);
    assert (m + 1) * Pow2(k) == m * Pow2(k) + Pow2(k);
    assert (m - 1) * Pow2(k) == m * Pow2(k) - Pow2(k);
  }

  /** The buddy of an aligned block is aligned, and the two fill one larger aligned block. */
  lemma BuddyAligned(o: int, k: nat)
    requires Aligned(o, k)
    ensures var b := BuddyOf(o, k);
            && Aligned(b, k) && BuddyOf(b, k) == o
            && (b == o + Pow2(k) || b == o - Pow2(k))
            && Aligned(if o < b then o else b, k + 1)
  {
    hide BuddyOf;
    var p := Pow2(k);
    var m :| o == m * Pow2(k);
    var n := if m % 2 == 0 then m + 1 else m - 1;
    BuddyByNumber(m, k);
    BuddyByNumber(n, k);
    MultipleBy(n * p, n, p);
    ConsecutiveMultiples(m, n, p);
    var low := if m % 2 == 0 then m else n;
    Halve(low, p);
    MultipleBy(low * p, low / 2, Pow2(k + 1));
  }

  lemma ConsecutiveMultiples(m: int, n: int, p: int)
    requires n == m + 1 || n == m - 1
    ensures n * p == if n == m + 1 then m * p + p else m * p - p
  {
  }

  lemma Halve(m: int, p: int)
    requires m % 2 == 0
    ensures m * p == (m / 2) * (2 * p)
  {
    var h := m / 2;
    assert m == 2 * h;
  }

  lemma BuddyInside(o: int, k: nat, top: nat)
    requires k < top && Aligned(o, k) && 0 <= o && o + Pow2(k) <= Pow2(top)
    ensures 0 <= BuddyOf(o, k) && BuddyOf(o, k) + Pow2(k) <= Pow2(top)
  {
    BuddyAligned(o, k);
    var b := BuddyOf(o, k);
    var low := if o < b then o else b;
    MultipleBy(Pow2(top), 1, Pow2(top));
    MultipleBy(0, 0, Pow2(k + 1));
    MultipleOfSmaller(Pow2(top), k + 1, top);
    MultiplesApart(low, Pow2(top), Pow2(k + 1));
    if low < 0 {
      MultiplesApart(low, 0, Pow2(k + 1));
    }
  }

  /** The lower half of an aligned block of order k+1 has its upper half as buddy. */
  lemma UpperHalfIsBuddy(o: int, k: nat)
    requires Aligned(o, k + 1)
    ensures BuddyOf(o, k) == o + Pow2(k) && Aligned(o, k) && Aligned(o + Pow2(k), k)
    ensures BuddyOf(o + Pow2(k), k) == o
  {
    var m :| o == m * Pow2(k + 1);
    assert o == (2 * m) * Pow2(k);
    assert o + Pow2(k) == (2 * m + 1) * Pow2(k);
    QuotientOf(2 * m, Pow2(k), 0);
    QuotientOf(2 * m + 1, Pow2(k), 0);
    MultipleBy(o, 2 * m, Pow2(k));
    MultipleBy(o + Pow2(k), 2 * m + 1, Pow2(k));
  }

  /** Why one header read decides a merge: below the top order, the buddy address is
      always the start of a current block, and that block is no larger. */
  lemma BuddyIsBlock(s: State, o: int, top: nat)
    requires Tiling(s, top) && o in s.order && s.order[o] < top
    ensures BuddyOf(o, s.order[o]) in s.order
    ensures s.order[BuddyOf(o, s.order[o])] <= s.order[o]
  {
    var k := s.order[o];
    BuddyAligned(o, k);
    BuddyInside(o, k, top);
    var b := BuddyOf(o, k);
    assert Covered(s, b);
    var c :| Covers(s, c, b);
    if s.order[c] > k {
      CoversPair(c, s.order[c], o, k);
      assert false;
    }
    MultipleOfSmaller(b, s.order[c], k);
    if c < b {
      MultiplesApart(c, b, Pow2(s.order[c]));
    }
  }

  /** An aligned block larger than 2^k that covers the buddy of o covers o as well. */
  lemma CoversPair(c: int, j: nat, o: int, k: nat)
    requires k < j && Aligned(c, j) && Aligned(o, k)
    requires c <= BuddyOf(o, k) < c + Pow2(j)
    ensures c <= o && o + Pow2(k) <= c + Pow2(j)
  {
    BuddyAligned(o, k);
    var low := if o < BuddyOf(o, k) then o else BuddyOf(o, k);
    var p := Pow2(k + 1);
    MultipleOfSmaller(c, k + 1, j);
    MultipleBy(Pow2(j), 1, Pow2(j));
    MultipleOfSmaller(Pow2(j), k + 1, j);
    MultipleSum(c, Pow2(j), p);
    if low < c {
      MultiplesApart(low, c, p);
    }
    MultiplesApart(low, c + Pow2(j), p);
  }
}
