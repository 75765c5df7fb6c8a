/** The shell's circular history: a ring with a write index, a two-way read cursor, and an
    operation that moves an element it already holds to the front. */
module History {
  import opened Common

  /** A stored element: `id` is the object it refers to, `text` what the comparison looks at. */
  datatype Element = Element(id: nat, text: string)

  // ---------------------------------------------------------------- the history as a sequence

  /** Elements from oldest to newest, those freed so far, and how many the cursor has not read yet. */
  datatype Log = Log(items: seq<Element>, freed: seq<Element>, unread: nat)

  predicate Matches(a: Element, b: Element) {
    a.text == b.text
  }

  function RemoveAt(s: seq<Element>, i: nat): seq<Element>
    requires i < |s|
  {
    s[..i] + s[i + 1..]
  }

  function Rest(h: Log): Log {
    h.(unread := |h.items|)
  }

  /** A new newest element; a full history frees its oldest. */
  function Pushed(h: Log, e: Element, size: nat): Log {
    if |h.items| < size || h.items == [] then Rest(h.(items := h.items + [e]))
    else Rest(h.(items := h.items[1..] + [e], freed := h.freed + [h.items[0]]))
  }

  /** Element i is freed and e becomes the newest. */
  function MoveAt(h: Log, e: Element, i: nat): Log
    requires i < |h.items|
  {
    Rest(h.(items := RemoveAt(h.items, i) + [e], freed := h.freed + [h.items[i]]))
  }

  function Prev(h: Log): (Log, Option<Element>) {
    if h.unread == 0 || h.unread > |h.items| then (h, None) else (h.(unread := h.unread - 1), Some(h.items[h.unread - 1]))
  }

  function Next(h: Log): (Log, Option<Element>) {
    if h.unread + 1 >= |h.items| then (h, None) else (h.(unread := h.unread + 1), Some(h.items[h.unread + 1]))
  }

  /** h' is h after moving a match of e to the front, or after a push if there is none. */
  ghost predicate Moved(h: Log, e: Element, size: nat, h': Log) {
    if exists i :: 0 <= i < |h.items| && Matches(e, h.items[i]) then
      exists i :: 0 <= i < |h.items| && Matches(e, h.items[i]) && h' == MoveAt(h, e, i)
    else h' == Pushed(h, e, size)
  }

  /** Slot idx is the first to hold a match of e. */
  predicate FirstMatch(slots: seq<Element>, e: Element, idx: nat) {
    idx < |slots| && Matches(e, slots[idx]) && forall i | 0 <= i < idx :: !Matches(e, slots[i])
  }

  predicate MovesFrom(h: Log, e: Element, k: nat, h': Log) {
    k < |h.items| && h' == MoveAt(h, e, k)
  }

  /** The elements that do not match e, in order. */
  function Without(s: seq<Element>, e: Element): seq<Element> {
    if s == [] then [] else (if Matches(e, s[0]) then [] else [s[0]]) + Without(s[1..], e)
  }

  function Last(s: seq<Element>, n: nat): seq<Element> {
    if |s| <= n then s else s[|s| - n..]
  }

  ghost predicate Distinct(s: seq<Element>) {
    forall i, j :: 0 <= i < j < |s| ==> !Matches(s[i], s[j])
  }

  // ---------------------------------------------------------------- moving to the front

  lemma {:induction false} WithoutNone(s: seq<Element>, e: Element)
    requires forall i | 0 <= i < |s| :: !Matches(e, s[i])
    ensures Without(s, e) == s
  {
    if s != [] { WithoutNone(s[1..], e); }
  }

  lemma {:induction false} WithoutOne(s: seq<Element>, e: Element, i: nat)
    requires i < |s| && Matches(e, s[i]) && Distinct(s)
    ensures Without(s, e) == RemoveAt(s, i)
    decreases |s|
  {
    if i == 0 {
      forall k | 0 <= k < |s[1..]|
        ensures !Matches(e, s[1..][k])
      {
        assert !Matches(s[0], s[k + 1]);
      }
      WithoutNone(s[1..], e);
    } else {
      assert !Matches(s[0], s[i]);
      assert Distinct(s[1..]) by {
        forall a, b | 0 <= a < b < |s[1..]|
          ensures !Matches(s[1..][a], s[1..][b])
        {
          assert !Matches(s[a + 1], s[b + 1]);
        }
      }
      WithoutOne(s[1..], e, i - 1);
      assert RemoveAt(s, i) == [s[0]] + RemoveAt(s[1..], i - 1);
    }
  }

  lemma DistinctMoved(s: seq<Element>, e: Element, i: nat)
    requires Distinct(s) && i < |s| && Matches(e, s[i])
    ensures Distinct(RemoveAt(s, i) + [e])
  {
    var r := RemoveAt(s, i) + [e];
    forall a, b | 0 <= a < b < |r|
      ensures !Matches(r[a], r[b])
    {
      var a1 := if a < i then a else a + 1;
      if b == |r| - 1 {
        assert !Matches(s[if a1 < i then a1 else i], s[if a1 < i then i else a1]);
      } else {
        assert !Matches(s[a1], s[if b < i then b else b + 1]);
      }
    }
  }

  lemma DistinctPushed(h: Log, e: Element, size: nat)
    requires Distinct(h.items) && (forall i | 0 <= i < |h.items| :: !Matches(e, h.items[i]))
    ensures Distinct(Pushed(h, e, size).items)
  {
  }

  lemma MatchCase(h: Log, e: Element, size: nat, h': Log)
    requires Moved(h, e, size, h')
    ensures if forall i | 0 <= i < |h.items| :: !Matches(e, h.items[i]) then h' == Pushed(h, e, size)
            else exists i :: 0 <= i < |h.items| && Matches(e, h.items[i]) && h' == MoveAt(h, e, i)
  {
    hide MoveAt, Pushed, Matches;
  }

  /** Moving to the front is "drop the match, append, keep the last size", and keeps the texts
      distinct. */
  lemma MoveIsDropAppendKeep(h: Log, e: Element, size: nat, h': Log)
    requires Distinct(h.items) && |h.items| <= size && size > 0 && Moved(h, e, size, h')
    ensures h'.items == Last(Without(h.items, e) + [e], size)
    ensures Distinct(h'.items) && h'.unread == |h'.items|
  {
    hide Distinct, Without, Moved, Matches;
    MatchCase(h, e, size, h');
    if forall i | 0 <= i < |h.items| :: !Matches(e, h.items[i]) {
      WithoutNone(h.items, e);
      DistinctPushed(h, e, size);
      var all := h.items + [e];
      if |h.items| == size { assert all[1..] == h.items[1..] + [e]; }
    } else {
      var i :| 0 <= i < |h.items| && Matches(e, h.items[i]) && h' == MoveAt(h, e, i);
      WithoutOne(h.items, e, i);
      DistinctMoved(h.items, e, i);
    }
  }

  // ---------------------------------------------------------------- whole histories

  datatype Op = PushOp(e: Element) | MoveOp(e: Element) | PrevOp | NextOp | RestOp

  ghost predicate Does(h: Log, op: Op, size: nat, h': Log) {
    match op
    case PushOp(e) => h' == Pushed(h, e, size)
    case MoveOp(e) => Moved(h, e, size, h')
    case PrevOp => h' == Prev(h).0
    case NextOp => h' == Next(h).0
    case RestOp => h' == Rest(h)
  }

  /** hs are the states a new history goes through under the operations. */
  ghost predicate IsRun(hs: seq<Log>, ops: seq<Op>, size: nat) {
    && |hs| == |ops| + 1 && hs[0] == Log([], [], 0)
    && forall k | 0 <= k < |ops| :: Does(hs[k], ops[k], size, hs[k + 1])
  }

  function Added(ops: seq<Op>): seq<Element> {
    if ops == [] then []
    else
      var op := ops[|ops| - 1];
      Added(ops[..|ops| - 1]) + (if op.PushOp? || op.MoveOp? then [op.e] else [])
  }

  lemma DoesConserves(h: Log, op: Op, size: nat, h': Log)
    requires Does(h, op, size, h') && |h.items| <= size && size > 0
    ensures |h'.items| <= size
    ensures multiset(h'.items) + multiset(h'.freed)
            == multiset(h.items) + multiset(h.freed) + multiset(if op.PushOp? || op.MoveOp? then [op.e] else [])
  {
    match op
    case PushOp(e) => PushConserves(h, e, size);
    case MoveOp(e) =>
      MatchCase(h, e, size, h');
      hide MoveAt, Pushed, Moved, Matches;
      if forall i | 0 <= i < |h.items| :: !Matches(e, h.items[i]) {
        PushConserves(h, e, size);
      } else {
        var i :| 0 <= i < |h.items| && Matches(e, h.items[i]) && h' == MoveAt(h, e, i);
        MoveConserves(h, e, i);
      }
    case _ =>
  }

  lemma MoveConserves(h: Log, e: Element, i: nat)
    requires i < |h.items|
    ensures var h' := MoveAt(h, e, i);
            && |h'.items| == |h.items|
            && multiset(h'.items) + multiset(h'.freed) == multiset(h.items) + multiset(h.freed) + multiset([e])
  {
    assert h.items == h.items[..i] + [h.items[i]] + h.items[i + 1..];
  }

  lemma PushConserves(h: Log, e: Element, size: nat)
    requires |h.items| <= size && size > 0
    ensures var h' := Pushed(h, e, size);
            && |h'.items| <= size
            && multiset(h'.items) + multiset(h'.freed) == multiset(h.items) + multiset(h.freed) + multiset([e])
  {
    if h.items != [] { assert h.items == [h.items[0]] + h.items[1..]; }
  }

  /** A push appends and keeps the last `size` elements; the one that falls out is freed. */
  lemma PushAppendsKeeps(h: Log, e: Element, size: nat)
    requires |h.items| <= size && size > 0
    ensures var h' := Pushed(h, e, size);
            && h'.items == Last(h.items + [e], size) && h'.unread == |h'.items|
            && h'.freed + h'.items == h.freed + h.items + [e]
  {
    var all := h.items + [e];
    if |h.items| == size {
      assert all[1..] == h.items[1..] + [e];
      assert h.items == [h.items[0]] + h.items[1..];
    }
  }

  lemma RunPrefix(hs: seq<Log>, ops: seq<Op>, size: nat)
    requires IsRun(hs, ops, size) && ops != []
    ensures IsRun(hs[..|ops|], ops[..|ops| - 1], size)
    ensures Does(hs[|ops| - 1], ops[|ops| - 1], size, hs[|ops|])
  {
    var m := |ops| - 1;
    forall k | 0 <= k < m
      ensures Does(hs[..|ops|][k], ops[..m][k], size, hs[..|ops|][k + 1])
    {
      assert Does(hs[k], ops[k], size, hs[k + 1]);
    }
  }

  /** Every element ever given to the history is stored or has been freed, exactly once. */
  lemma {:induction false} Conservation(hs: seq<Log>, ops: seq<Op>, size: nat)
    requires IsRun(hs, ops, size) && size > 0
    ensures var h := hs[|ops|];
            |h.items| <= size && multiset(h.items) + multiset(h.freed) == multiset(Added(ops))
    decreases |ops|
  {
    hide Does;
    if ops != [] {
      var m := |ops| - 1;
      RunPrefix(hs, ops, size);
      Conservation(hs[..|ops|], ops[..m], size);
      DoesConserves(hs[m], ops[m], size, hs[m + 1]);
    }
  }

  /** Without plain pushes the history never holds two elements that match. */
  lemma {:induction false} NoDuplicates(hs: seq<Log>, ops: seq<Op>, size: nat)
    requires IsRun(hs, ops, size) && size > 0 && forall k | 0 <= k < |ops| :: !ops[k].PushOp?
    ensures Distinct(hs[|ops|].items) && |hs[|ops|].items| <= size
    decreases |ops|
  {
    if ops != [] {
      var m := |ops| - 1;
      RunPrefix(hs, ops, size);
      NoDuplicates(hs[..|ops|], ops[..m], size);
      DoesConserves(hs[m], ops[m], size, hs[m + 1]);
      if ops[m].MoveOp? {
        MoveIsDropAppendKeep(hs[m], ops[m].e, size, hs[m + 1]);
      }
    }
  }

  // ---------------------------------------------------------------- the cursor

  /** The history and what was read after k calls of readPrev. */
  function PrevTimes(h: Log, k: nat): (Log, seq<Option<Element>>) {
    if k == 0 then (h, [])
    else
      var (h1, read) := PrevTimes(h, k - 1);
      var (h2, e) := Prev(h1);
      (h2, read + [e])
  }

  /** From a cursor with u elements unread, readPrev returns those from the newest to the oldest, and
      nothing after that. At rest all elements are unread. */
  lemma {:induction false} NewestFirst(h: Log, k: nat)
    requires h.unread <= |h.items|
    ensures var (h', read) := PrevTimes(h, k);
            && |read| == k && h' == h.(unread := if k <= h.unread then h.unread - k else 0)
            && forall j | 0 <= j < k :: read[j] == if j < h.unread then Some(h.items[h.unread - 1 - j]) else None
  {
    if k > 0 { NewestFirst(h, k - 1); }
  }

  /** The history and what was read after k calls of readNext. */
  function NextTimes(h: Log, k: nat): (Log, seq<Option<Element>>) {
    if k == 0 then (h, [])
    else
      var (h1, read) := NextTimes(h, k - 1);
      var (h2, e) := Next(h1);
      (h2, read + [e])
  }

  /** From a cursor at element u, readNext returns elements u + 1, u + 2 and so on up to the newest, and
      nothing after that: the cursor stays at the newest. From rest there is nothing to return. */
  lemma {:induction false} OnToNewest(h: Log, k: nat)
    requires h.unread <= |h.items|
    ensures var (h', read) := NextTimes(h, k);
            var u, last := h.unread, |h.items| - 1;
            && |read| == k
            && h' == (if u >= last then h else h.(unread := if u + k <= last then u + k else last))
            && forall j | 0 <= j < k :: read[j] == if u + 1 + j <= last then Some(h.items[u + 1 + j]) else None
  {
    if k > 0 { OnToNewest(h, k - 1); }
  }

  /** readNext takes back a readPrev, unless that was the first one from rest. */
  lemma NextUndoesPrev(h: Log)
    requires h.unread <= |h.items|
    ensures Next(Prev(h).0).0 == h <==> 0 < h.unread < |h.items| || (h.unread == 0 && |h.items| <= 1)
    ensures 0 < h.unread < |h.items| ==> Next(Prev(h).0).1 == Some(h.items[h.unread])
  {
  }

  // ---------------------------------------------------------------- the ring

  /** The ring read from its oldest element: a part-full one starts at slot 0, a full one at the
      write index. */
  function Unrolled(ring: seq<Element>, length: nat, writeIdx: nat): seq<Element>
    requires length <= |ring| && writeIdx <= |ring|
  {
    if length < |ring| then ring[..length] else ring[writeIdx..] + ring[..writeIdx]
  }

  function Oldest(size: nat, length: nat, writeIdx: nat): nat {
    if length < size then 0 else writeIdx
  }

  /** Which element of the history, counted from the oldest, slot idx holds. */
  function Position(size: nat, length: nat, writeIdx: nat, idx: nat): nat
    requires idx < size && writeIdx <= size
  {
    if length < size then idx else if idx < writeIdx then idx + size - writeIdx else idx - writeIdx
  }

  lemma SlotHolds(ring: seq<Element>, length: nat, writeIdx: nat, idx: nat)
    requires idx < length <= |ring| && writeIdx <= |ring|
    ensures var k := Position(|ring|, length, writeIdx, idx);
            k < length == |Unrolled(ring, length, writeIdx)| && Unrolled(ring, length, writeIdx)[k] == ring[idx]
  {
  }

  /** Every element of the history is in some slot. */
  lemma SlotOf(ring: seq<Element>, length: nat, writeIdx: nat, k: nat) returns (idx: nat)
    requires k < length <= |ring| && writeIdx < |ring|
    ensures idx == (Oldest(|ring|, length, writeIdx) + k) % |ring| && idx < length
    ensures Unrolled(ring, length, writeIdx)[k] == ring[idx]
  {
    var i := Oldest(|ring|, length, writeIdx) + k;
    WrapOnce(i, |ring|);
    idx := i % |ring|;
  }

  lemma WrapOnce(i: nat, size: nat)
    requires i < 2 * size
    ensures i % size == if i < size then i else i - size
  {
    if i < size {
      assert i / size == 0;
    } else {
      assert i == size + (i - size);
      assert (i - size) % size == i - size;
    }
  }

  lemma PushesRing(ring: seq<Element>, length: nat, w: nat, e: Element)
    requires length <= |ring| && w < |ring| && (length < |ring| ==> w == length)
    ensures var size, u := |ring|, Unrolled(ring, length, w);
            if length < size then Unrolled(ring[length := e], length + 1, (w + 1) % size) == u + [e]
            else Unrolled(ring[w := e], length, (w + 1) % size) == u[1..] + [e] && u[0] == ring[w]
  {
    WrapOnce(w + 1, |ring|);
    if length < |ring| { AppendsToRing(ring, length, e); } else { ReplacesOldest(ring, w, e); }
  }

  lemma AppendsToRing(ring: seq<Element>, length: nat, e: Element)
    requires length < |ring|
    ensures ring[length := e][..length + 1] == ring[..length] + [e]
    ensures length + 1 == |ring| ==> Unrolled(ring[length := e], |ring|, 0) == ring[..length] + [e]
  {
  }

  lemma ReplacesOldest(ring: seq<Element>, w: nat, e: Element)
    requires w < |ring|
    ensures var u := Unrolled(ring, |ring|, w);
            && u[0] == ring[w] && u[1..] == ring[w + 1..] + ring[..w]
            && Unrolled(ring[w := e], |ring|, if w + 1 == |ring| then 0 else w + 1) == u[1..] + [e]
  {
    var r, a, b := ring[w := e], ring[..w], ring[w + 1..];
    assert r == a + ([e] + b);
    assert r[..w + 1] == a + [e] && r[w + 1..] == b;
    assert Unrolled(ring, |ring|, w) == [ring[w]] + (b + a);
    assert b + (a + [e]) == (b + a) + [e];
    if w + 1 == |ring| { assert r[0..] + r[..0] == a + [e] && b == []; }
  }

  /** The read index follows the cursor by one slot, across the end of the ring. */
  lemma CursorMoves(size: nat, length: nat, w: nat, unread: nat)
    requires size > 0 && length <= size && w < size && (length < size ==> w == length) && unread < length
    ensures var start := Oldest(size, length, w);
            var from, to := (start + unread) % size, (start + unread + 1) % size;
            && from < length && to <= length
            && to == (from + 1) % size
            && from == (if to == 0 then length - 1 else to - 1)
  {
    var start := Oldest(size, length, w);
    WrapOnce(start + unread, size);
    WrapOnce(start + unread + 1, size);
    WrapOnce((start + unread) % size + 1, size);
  }

  lemma Cut(a: seq<Element>, b: seq<Element>)
    ensures (a + b)[..|a|] == a && (a + b)[|a|..] == b
  {
  }

  lemma DropMiddle(a: seq<Element>, x: Element, c: seq<Element>)
    ensures RemoveAt(a + ([x] + c), |a|) == a + c
  {
    assert a + ([x] + c) == (a + [x]) + c;
    Cut(a + [x], c);
    Cut(a, [x] + c);
  }

  lemma Whole(s: seq<Element>, k: nat)
    requires k <= |s|
    ensures s == s[..k] + s[k..]
  {
  }

  lemma Upper(s: seq<Element>, i: nat, j: nat)
    requires i <= j < |s|
    ensures s[i..] == s[i..j] + ([s[j]] + s[j + 1..])
  {
  }

  lemma Lower(s: seq<Element>, j: nat, k: nat)
    requires j < k <= |s|
    ensures s[..k] == s[..j] + ([s[j]] + s[j + 1..k])
  {
  }

  lemma Regroup(a: seq<Element>, b: seq<Element>, c: seq<Element>, d: seq<Element>)
    ensures a + (b + (c + d)) == ((a + b) + c) + d == a + ((b + c) + d) == (a + b) + (c + d)
    ensures a + b + c + d == a + (b + (c + d))
  {
  }

  /** The match lies below the write index: everything between moves one slot down. */
  lemma MovedDown(ring: seq<Element>, length: nat, w: nat, idx: nat, e: Element)
    requires idx < w < |ring| && length <= |ring| && (length < |ring| ==> w == length)
    ensures var ring' := ring[..idx] + ring[idx + 1..w] + [e] + ring[w..];
            && |ring'| == |ring|
            && Position(|ring|, length, w, idx) < |Unrolled(ring, length, w)|
            && Unrolled(ring', length, w) == RemoveAt(Unrolled(ring, length, w), Position(|ring|, length, w, idx)) + [e]
  {
    hide RemoveAt;
    var a, x, b, c := ring[..idx], ring[idx], ring[idx + 1..w], ring[w..];
    var ring' := a + b + [e] + c;
    Whole(ring, w);
    Lower(ring, idx, w);
    Cut(a + ([x] + b), c);
    assert ring' == (a + b + [e]) + c;
    Cut(a + b + [e], c);
    DropMiddle(a, x, b);
    DropMiddle(c + a, x, b);
    Regroup(c, a, [x], b);
    Regroup(c, a, b, [e]);
    if length == |ring| {
      assert Unrolled(ring, length, w) == (c + a) + ([x] + b);
    }
  }

  /** The match lies above the write index of a full ring: everything between moves one slot up. */
  lemma MovedUp(ring: seq<Element>, w: nat, idx: nat, e: Element)
    requires w < idx < |ring|
    ensures var ring' := ring[..w] + [e] + ring[w..idx] + ring[idx + 1..];
            && |ring'| == |ring|
            && Unrolled(ring', |ring|, w + 1) == RemoveAt(Unrolled(ring, |ring|, w), idx - w) + [e]
  {
    hide RemoveAt;
    var a, b, x, c := ring[..w], ring[w..idx], ring[idx], ring[idx + 1..];
    Whole(ring, w);
    Upper(ring, w, idx);
    Cut(a, b + ([x] + c));
    Cut(a + [e], b + c);
    Regroup(a, [e], b, c);
    Regroup(b, [x], c, a);
    Regroup(b, c, a, [e]);
    assert Unrolled(ring, |ring|, w) == b + ([x] + (c + a));
    DropMiddle(b, x, c + a);
  }

  /** s after k elements from `from` on were copied to idx and behind. */
  function Shifted(s: seq<Element>, idx: nat, from: nat, k: nat): seq<Element>
    requires idx <= from && from + k <= |s|
  {
    s[..idx] + s[from..from + k] + s[idx + k..]
  }

  /** The slots from idx on moved down by one, and e in the last of them. */
  lemma ShiftedDown(s: seq<Element>, idx: nat, w: nat, e: Element)
    requires idx < w <= |s|
    ensures var t := Shifted(s, idx, idx + 1, w - (idx + 1));
            |t| == |s| && t[w - 1 := e] == s[..idx] + s[idx + 1..w] + [e] + s[w..]
  {
    var kept, tail := s[..idx] + s[idx + 1..w], s[w - 1..];
    assert Shifted(s, idx, idx + 1, w - (idx + 1)) == kept + tail;
    SetBehind(kept, tail, e);
    assert tail[1..] == s[w..];
  }

  lemma ShiftStep(s: seq<Element>, idx: nat, from: nat, k: nat)
    requires idx < from && from + k < |s|
    ensures |Shifted(s, idx, from, k)| == |s| && Shifted(s, idx, from, k)[from + k] == s[from + k]
    ensures Shifted(s, idx, from, k)[idx + k := s[from + k]] == Shifted(s, idx, from, k + 1)
  {
    var a, b, c := s[..idx], s[from..from + k], s[idx + k + 1..];
    assert s[from..from + k + 1] == b + [s[from + k]];
    assert s[idx + k..] == [s[idx + k]] + c;
  }

  lemma SetBefore(a: seq<Element>, w: nat, e: Element, tail: seq<Element>)
    requires w < |a|
    ensures (a[..w + 1] + tail)[w := e] == a[..w] + [e] + tail
  {
  }

  lemma SetBehind(a: seq<Element>, tail: seq<Element>, e: Element)
    requires tail != []
    ensures (a + tail)[|a| := e] == a + [e] + tail[1..]
  {
  }

  /** What the slot found says about the history. */
  lemma FoundIs(ring: seq<Element>, length: nat, w: nat, idx: int, e: Element)
    requires length <= |ring| && w < |ring| && (length < |ring| ==> w == length) && idx < length
    requires if idx >= 0 then Matches(e, ring[idx]) else forall i | 0 <= i < length :: !Matches(e, ring[i])
    ensures var u := Unrolled(ring, length, w);
            && |u| == length
            && (idx < 0 ==> forall k | 0 <= k < length :: !Matches(e, u[k]))
            && (idx >= 0 ==>
                  var k := Position(|ring|, length, w, idx);
                  k < length && u[k] == ring[idx] && (idx >= w ==> length == |ring|) && (idx == w ==> k == 0)
                  && (idx > w ==> k == idx - w))
  {
    hide Matches;
    if idx >= 0 {
      SlotHolds(ring, length, w, idx);
    } else {
      forall k | 0 <= k < length
        ensures !Matches(e, Unrolled(ring, length, w)[k])
      {
        var slot := SlotOf(ring, length, w, k);
      }
    }
  }

  /** The slot that the search returned is the first match. */
  lemma FirstIsFound(slots: seq<Element>, e: Element, idx: int)
    requires idx < |slots|
    requires if idx >= 0 then Matches(e, slots[idx]) && forall i | 0 <= i < idx :: !Matches(e, slots[i])
             else forall i | 0 <= i < |slots| :: !Matches(e, slots[i])
    ensures forall j :: FirstMatch(slots, e, j) ==> j == idx
  {
    hide Matches;
  }

  lemma MovesTo(h: Log, e: Element, k: nat, size: nat, h': Log)
    requires k < |h.items| && Matches(e, h.items[k])
    requires h'.items == RemoveAt(h.items, k) + [e] && h'.freed == h.freed + [h.items[k]] && h'.unread == |h'.items|
    ensures Moved(h, e, size, h') && MovesFrom(h, e, k, h')
  {
    hide Matches;
    assert h' == MoveAt(h, e, k);
  }

  lemma PushesOut(h: Log, e: Element, size: nat)
    requires |h.items| > 0 && |h.items| == size && Matches(e, h.items[0])
    ensures Moved(h, e, size, Pushed(h, e, size)) && MovesFrom(h, e, 0, Pushed(h, e, size))
  {
    MovesTo(h, e, 0, size, Pushed(h, e, size));
  }

  class CircularHistoryBuffer {
    const size: nat
    const ring: array<Element>
    var length: nat
    var readIdx: nat
    var writeIdx: nat
    var toReadBackwards: nat
    ghost var freed: seq<Element>

    ghost predicate Valid()
      reads this, ring
    {
      && size > 0 && ring.Length == size && length <= size && writeIdx < size
      && (length < size ==> writeIdx == length)
      && toReadBackwards <= length
      && readIdx == (Oldest(size, length, writeIdx) + toReadBackwards) % size
    }

    ghost function State(): Log
      reads this, ring
      requires Valid()
    {
      Log(Unrolled(ring[..], length, writeIdx), freed, toReadBackwards)
    }

    /** CHB_initialize */
    constructor (capacity: nat)
      requires capacity > 0
      ensures Valid() && State() == Log([], [], 0) && size == capacity && fresh(ring)
    {
      size := capacity;
      ring := new Element[capacity];
      length, readIdx, writeIdx, toReadBackwards := 0, 0, 0, 0;
      freed := [];
    }

    /** CHB_push */
    method Push(e: Element)
      requires Valid()
      modifies this, ring
      ensures Valid() && State() == Pushed(old(State()), e, size)
    {
      PushesRing(ring[..], length, writeIdx, e);
      if length < size {
        ring[length] := e;
        length := length + 1;
      } else {
        freed := freed + [ring[writeIdx]];
        ring[writeIdx] := e;
      }
      WrapOnce(writeIdx + 1, size);
      writeIdx := (writeIdx + 1) % size;
      hide Unrolled;
      ReadRest();
    }

    /** CHB_readRest */
    method ReadRest()
      requires size > 0 && ring.Length == size && length <= size && writeIdx < size
      requires length < size ==> writeIdx == length
      modifies this`readIdx, this`toReadBackwards
      ensures Valid() && toReadBackwards == length
    {
      readIdx := writeIdx;
      toReadBackwards := length;
      WrapOnce(Oldest(size, length, writeIdx) + toReadBackwards, size);
    }

    /** CHB_readNext */
    method ReadNext() returns (e: Option<Element>)
      requires Valid()
      modifies this`readIdx, this`toReadBackwards
      ensures Valid() && (State(), e) == Next(old(State()))
    {
      if toReadBackwards + 1 >= length { return None; }
      CursorMoves(size, length, writeIdx, toReadBackwards);
      ghost var idx := SlotOf(ring[..], length, writeIdx, toReadBackwards + 1);
      readIdx := (readIdx + 1) % size;
      toReadBackwards := toReadBackwards + 1;
      hide Unrolled, Oldest;
      e := Some(ring[readIdx]);
    }

    /** getDecreasedIdxBy */
    function DecreasedIdxBy(idx: nat, val: nat): nat
      reads this
      requires idx <= length
    {
      var v := val % (length + 1);
      if idx < v then idx + length - v else idx - v
    }

    /** CHB_readPrev */
    method ReadPrev() returns (e: Option<Element>)
      requires Valid()
      modifies this`readIdx, this`toReadBackwards
      ensures Valid() && (State(), e) == Prev(old(State()))
    {
      if toReadBackwards == 0 { return None; }
      CursorMoves(size, length, writeIdx, toReadBackwards - 1);
      ghost var idx := SlotOf(ring[..], length, writeIdx, toReadBackwards - 1);
      WrapOnce(1, length + 1);
      readIdx := DecreasedIdxBy(readIdx, 1);
      toReadBackwards := toReadBackwards - 1;
      hide Unrolled, Oldest;
      e := Some(ring[readIdx]);
    }

    /** Array_find */
    method Find(e: Element) returns (idx: int)
      requires Valid()
      ensures -1 <= idx < length
      ensures idx >= 0 ==> Matches(e, ring[idx]) && forall i | 0 <= i < idx :: !Matches(e, ring[i])
      ensures idx < 0 ==> forall i | 0 <= i < length :: !Matches(e, ring[i])
    {
      idx := 0;
      while idx < length
        invariant 0 <= idx <= length
        invariant forall i | 0 <= i < idx :: !Matches(e, ring[i])
      {
        if Matches(e, ring[idx]) { return; }
        idx := idx + 1;
      }
      idx := -1;
    }

    /** Array_setn with a source in the same array, copied forward. */
    method SetFromOwn(idx: nat, from: nat, n: nat)
      requires idx < from && from + n <= ring.Length
      modifies ring
      ensures ring[..] == Shifted(old(ring[..]), idx, from, n)
    {
      ghost var was := ring[..];
      var k := 0;
      assert ring[..] == Shifted(was, idx, from, k);
      while k < n
        invariant k <= n
        invariant ring[..] == Shifted(was, idx, from, k)
      {
        hide Shifted;
        ShiftStep(was, idx, from, k);
        assert ring[from + k] == ring[..][from + k];
        ring[idx + k] := ring[from + k];
        k := k + 1;
      }
    }

    /** Array_setn with a source elsewhere. */
    method SetFrom(idx: nat, src: seq<Element>)
      requires idx + |src| <= ring.Length
      modifies ring
      ensures ring[..] == old(ring[..idx]) + src + old(ring[idx + |src|..])
    {
      var k := 0;
      while k < |src|
        invariant k <= |src|
        invariant forall j | 0 <= j < ring.Length && !(idx <= j < idx + k) :: ring[j] == old(ring[j])
        invariant forall j | 0 <= j < k :: ring[idx + j] == src[j]
      {
        ring[idx + k] := src[k];
        k := k + 1;
      }
    }

    method MoveDown(idx: nat, e: Element)
      requires idx < writeIdx <= ring.Length
      modifies ring
      ensures ring[..] == old(ring[..idx] + ring[idx + 1..writeIdx] + [e] + ring[writeIdx..])
    {
      ghost var was := ring[..];
      hide Shifted;
      SetFromOwn(idx, idx + 1, writeIdx - (idx + 1));
      ShiftedDown(was, idx, writeIdx, e);
      ghost var now := ring[..];
      ring[writeIdx - 1] := e;
      assert ring[..] == now[writeIdx - 1 := e];
    }

    method MoveUp(idx: nat, e: Element)
      requires writeIdx < idx < ring.Length
      modifies ring
      ensures ring[..] == old(ring[..writeIdx] + [e] + ring[writeIdx..idx] + ring[idx + 1..])
    {
      ghost var was := ring[..];
      ghost var tail := was[writeIdx..idx] + was[idx + 1..];
      var len := idx - writeIdx;
      var copy := ring[writeIdx..writeIdx + len];
      SetFrom(writeIdx + 1, copy);
      assert ring[..] == was[..writeIdx + 1] + tail;
      ring[writeIdx] := e;
      SetBefore(was, writeIdx, e, tail);
      assert was[..writeIdx] + [e] + tail == was[..writeIdx] + [e] + was[writeIdx..idx] + was[idx + 1..];
    }

    /** CHB_moveToFrontOrPush */
    method MoveToFrontOrPush(e: Element)
      requires Valid()
      modifies this, ring
      ensures Valid() && Moved(old(State()), e, size, State())
      ensures forall idx :: FirstMatch(old(ring[..length]), e, idx) ==>
                              MovesFrom(old(State()), e, Position(size, old(length), old(writeIdx), idx), State())
    {
      hide Matches, Unrolled, MoveAt, Pushed, FirstMatch, MovesFrom;
      var idx := Find(e);
      FirstIsFound(ring[..length], e, idx);
      ghost var h, was := State(), ring[..];
      FoundIs(was, length, writeIdx, idx, e);
      if idx >= 0 && idx != writeIdx {
        freed := freed + [ring[idx]];
        if idx < writeIdx {
          MovedDown(was, length, writeIdx, idx, e);
          MoveDown(idx, e);
        } else {
          MovedUp(was, writeIdx, idx, e);
          MoveUp(idx, e);
          WrapOnce(writeIdx + 1, size);
          writeIdx := (writeIdx + 1) % size;
        }
        ReadRest();
        MovesTo(h, e, Position(size, length, old(writeIdx), idx), size, State());
      } else {
        Push(e);
        if idx >= 0 { PushesOut(h, e, size); }
      }
    }
  }
}
