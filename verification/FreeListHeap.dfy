/** The free-list allocator as the kernel runs it: headers in memory, a list threaded through the
    free blocks in address order from a start node to an end marker, and the byte count. */
module FreeListHeap {
  import opened Common
  import opened FreeListSpec
  import opened FreeListProofs

  /** The top bit of the 64-bit size word marks an allocated block. */
  const ALLOCATED_BIT := 0x8000_0000_0000_0000

  datatype Block = Block(next: int, word: int)

  type Memory = map<int, Block>

  predicate BlockIsAllocated(b: Block) {
    b.word / ALLOCATED_BIT % 2 != 0
  }

  predicate SizeIsValid(size: int) {
    size / ALLOCATED_BIT % 2 == 0
  }

  function AllocateBlock(b: Block): Block {
    if BlockIsAllocated(b) then b else b.(word := b.word + ALLOCATED_BIT)
  }

  function FreeBlock(b: Block): Block {
    if BlockIsAllocated(b) then b.(word := b.word - ALLOCATED_BIT) else b
  }

  /** From p, the headers and links spell out `nodes` and then reach the end marker. */
  ghost predicate Chain(mem: Memory, p: int, nodes: seq<Range>, end: int)
    decreases |nodes|
  {
    if nodes == [] then p == end
    else p == nodes[0].addr && p in mem && mem[p].word == nodes[0].size && Chain(mem, mem[p].next, nodes[1..], end)
  }

  ghost predicate LiveHeaders(mem: Memory, live: map<int, int>) {
    forall a :: a in live ==> a in mem && mem[a] == Block(NULL, live[a] + ALLOCATED_BIT)
  }

  /** The start node is a header outside the heap whose block is empty. */
  function Nodes(listStart: int, free: seq<Range>): seq<Range> {
    [Range(listStart, 0)] + free
  }

  ghost predicate Linked(mem: Memory, listStart: int, free: seq<Range>, end: int) {
    Chain(mem, listStart, Nodes(listStart, free), end) && end in mem && mem[end] == Block(NULL, 0)
  }

  // ---------------------------------------------------------------- chains

  lemma {:induction false} ChainFrame(mem: Memory, mem': Memory, p: int, nodes: seq<Range>, end: int)
    requires Chain(mem, p, nodes, end)
    requires forall r :: r in nodes && r.addr in mem ==> r.addr in mem' && mem'[r.addr] == mem[r.addr]
    ensures Chain(mem', p, nodes, end)
    decreases |nodes|
  {
    if nodes != [] {
      var r := nodes[0];
      assert r in nodes;
      assert forall q :: q in nodes[1..] ==> q in nodes;
      ChainFrame(mem, mem', mem[p].next, nodes[1..], end);
    }
  }

  /** Replacing a chain from node i on, when no earlier header is touched. */
  lemma {:induction false} Splice(mem: Memory, mem': Memory, p: int, nodes: seq<Range>, i: nat, tail: seq<Range>, end: int)
    requires Chain(mem, p, nodes, end) && i < |nodes|
    requires forall r :: r in nodes[..i] && r.addr in mem ==> r.addr in mem' && mem'[r.addr] == mem[r.addr]
    requires Chain(mem', nodes[i].addr, tail, end)
    ensures Chain(mem', p, nodes[..i] + tail, end)
    decreases i
  {
    if i == 0 {
      assert nodes[..0] + tail == tail;
    } else {
      var rest := nodes[1..];
      assert nodes[..i] == [nodes[0]] + rest[..i - 1];
      var r := nodes[0];
      assert r in nodes[..i];
      assert forall q :: q in rest[..i - 1] ==> q in nodes[..i];
      Splice(mem, mem', mem[p].next, rest, i - 1, tail, end);
      assert (nodes[..i] + tail)[1..] == rest[..i - 1] + tail;
    }
  }

  lemma {:induction false} SortedAt(free: seq<Range>, c: nat, lo: int, hi: int)
    requires Sorted(free, lo, hi) && c < |free|
    ensures WellSized(free[c], lo, hi) && Sorted(free[c + 1..], free[c].End() + 1, hi)
    ensures c + 1 < |free| ==> free[c].End() < free[c + 1].addr
    decreases c
  {
    if c > 0 {
      assert free[1..][c - 1] == free[c] && free[1..][c..] == free[c + 1..];
      SortedAt(free[1..], c - 1, free[0].End() + 1, hi);
    }
    if c + 1 < |free| {
      assert free[c + 1..][0] == free[c + 1];
    }
  }

  /** The search passes range c when the one after it still starts below b. */
  lemma InsertPasses(free: seq<Range>, b: Range, c: nat, lo: int, hi: int)
    requires Sorted(free, lo, hi) && c + 1 < |free| && free[c + 1].addr < b.addr
    requires Insert(free, b) == free[..c] + Insert(free[c..], b)
    ensures Insert(free, b) == free[..c + 1] + Insert(free[c + 1..], b)
  {
    hide AttachNext, Sorted;
    SortedAt(free, c, lo, hi);
    InsertSkips(free[c..], b);
    assert free[c..][1..] == free[c + 1..];
    assert free[..c + 1] == free[..c] + [free[c]];
    Regroup(free[..c], free[c], Insert(free[c + 1..], b));
  }

  lemma InsertSkips(rest: seq<Range>, b: Range)
    requires rest != [] && rest[0].addr < b.addr && rest[0].End() != b.addr
    ensures Insert(rest, b) == [rest[0]] + Insert(rest[1..], b)
  {
    hide AttachNext;
  }

  lemma Regroup(a: seq<Range>, x: Range, tail: seq<Range>)
    ensures a + ([x] + tail) == (a + [x]) + tail
  {
  }

  /** Where the search stops: in front of the list, or behind range c. */
  lemma InsertStops(free: seq<Range>, b: Range, c: nat)
    requires c < |free| && free[c].addr < b.addr && (c + 1 < |free| ==> b.addr <= free[c + 1].addr)
    ensures Insert(free[c..], b) == Attached(free[c], b, free[c + 1..])
  {
    var rest := free[c..];
    assert rest[0] == free[c] && rest[1..] == free[c + 1..];
    if c + 1 < |free| {
      assert free[c + 1..][0] == free[c + 1];
    }
  }

  /** The predecessor f, the inserted block b and what follows, joined where they touch. */
  function Attached(f: Range, b: Range, rest: seq<Range>): seq<Range> {
    if f.End() == b.addr then AttachNext(Range(f.addr, f.size + b.size), rest) else [f] + AttachNext(b, rest)
  }

  /** Every range of a sorted list starts at or above its bound. */
  lemma {:induction false} AllAbove(free: seq<Range>, lo: int, hi: int)
    requires Sorted(free, lo, hi)
    ensures forall r :: r in free ==> lo <= r.addr && r.End() <= hi && HEADER <= r.size
    decreases |free|
  {
    if free != [] {
      AllAbove(free[1..], free[0].End() + 1, hi);
      assert free == [free[0]] + free[1..];
    }
  }

  /** All the headers insertBlockIntoFreeList can meet are different: the node it stops at, the
      block, and what follows. */
  lemma RestAbove(free: seq<Range>, b: Range, i: nat, lo: int, hi: int)
    requires Sorted(free, lo, hi) && Apart(free, b) && WellSized(b, lo, hi) && i <= |free|
    requires i > 0 ==> free[i - 1].addr < b.addr
    requires i < |free| ==> b.addr <= free[i].addr
    ensures Sorted(free[i..], b.End(), hi)
    ensures forall r :: r in free[i..] ==> b.End() <= r.addr < hi
    ensures i > 0 ==> WellSized(free[i - 1], lo, hi) && free[i - 1].End() <= b.addr
    ensures forall r :: r in free[..i] ==> lo <= r.addr < b.addr
  {
    var rest := free[i..];
    SortedSlice(free, i, lo, hi);
    if i > 0 {
      SortedAt(free, i - 1, lo, hi);
      ApartSlice(free, b, i - 1);
      ApartHead(free[i - 1..], b);
    }
    if rest != [] {
      ApartSlice(free, b, i);
      ApartHead(rest, b);
      SortedRaise(rest, lo, b.End(), hi);
    }
    AllAbove(rest, b.End(), hi);
    PrefixBelow(free, i, lo, hi);
  }

  lemma {:induction false} SortedSlice(free: seq<Range>, i: nat, lo: int, hi: int)
    requires Sorted(free, lo, hi) && i <= |free|
    ensures Sorted(free[i..], lo, hi)
    decreases i
  {
    if i > 0 {
      SortedSlice(free[1..], i - 1, free[0].End() + 1, hi);
      assert free[1..][i - 1..] == free[i..];
      SortedWeaken(free[i..], free[0].End() + 1, lo, hi);
    }
  }

  lemma {:induction false} ApartSlice(free: seq<Range>, b: Range, i: nat)
    requires Apart(free, b) && i <= |free|
    ensures Apart(free[i..], b)
    decreases i
  {
    if i > 0 {
      ApartTail(free, b);
      ApartSlice(free[1..], b, i - 1);
      assert free[1..][i - 1..] == free[i..];
    }
  }

  lemma {:induction false} PrefixBelow(free: seq<Range>, i: nat, lo: int, hi: int)
    requires Sorted(free, lo, hi) && i <= |free|
    ensures forall r :: r in free[..i] ==> lo <= r.addr && (i > 0 ==> r.addr <= free[i - 1].addr)
    decreases i
  {
    if i > 0 {
      var f, rest := free[0], free[1..];
      PrefixBelow(rest, i - 1, f.End() + 1, hi);
      assert free[..i] == [f] + rest[..i - 1];
      if i > 1 {
        assert free[i - 1] == rest[i - 2];
        SortedAt(rest, i - 2, f.End() + 1, hi);
      }
    }
  }

  /** What the last writes of insertBlockIntoFreeList leave from the node p on, when p keeps its
      block: the new block behind p, joined with what follows if they touch. */
  lemma LinkedBehind(mem: Memory, mem': Memory, p: int, f: Range, b: Range, rest: seq<Range>, end: int)
    requires Chain(mem, p, [f] + rest, end) && (forall r :: r in rest ==> r.addr != p && r.addr != b.addr) && p != b.addr
    requires b.addr in mem && mem[b.addr].word == b.size
    requires var next := mem[p].next;
             var touches := b.End() == next && next != end;
             && (touches ==> next in mem)
             && mem' == mem[b.addr := Block(if touches then mem[next].next else next,
                                            if touches then b.size + mem[next].word else b.size)]
                           [p := mem[p].(next := b.addr)]
    requires rest != [] ==> rest[0].addr != end
    ensures Chain(mem', p, [f] + AttachNext(b, rest), end)
  {
    assert ([f] + rest)[1..] == rest;
    BehindTail(mem, mem', b, rest, mem[p].next, end);
    assert ([f] + AttachNext(b, rest))[1..] == AttachNext(b, rest);
  }

  /** The same from the block itself on: it precedes `rest`, whose chain starts at `next`. */
  lemma BehindTail(mem: Memory, mem': Memory, b: Range, rest: seq<Range>, next: int, end: int)
    requires Chain(mem, next, rest, end) && (rest != [] ==> rest[0].addr != end)
    requires forall r :: r in rest && r.addr in mem ==> r.addr in mem' && mem'[r.addr] == mem[r.addr]
    requires b.addr in mem'
    requires var touches := b.End() == next && next != end;
             && (touches ==> next in mem)
             && mem'[b.addr].next == (if touches then mem[next].next else next)
             && mem'[b.addr].word == (if touches then b.size + mem[next].word else b.size)
    ensures Chain(mem', b.addr, AttachNext(b, rest), end)
  {
    ChainFrame(mem, mem', next, rest, end);
    if rest != [] && b.End() == rest[0].addr {
      var m := Range(b.addr, b.size + rest[0].size);
      assert rest[0] in rest;
      assert forall r :: r in rest[1..] ==> r in rest;
      ChainFrame(mem, mem', mem[next].next, rest[1..], end);
      assert ([m] + rest[1..])[1..] == rest[1..];
    } else {
      assert ([b] + rest)[1..] == rest;
    }
  }

  /** An insertion that rewrote only the node it stopped at and the block itself. */
  lemma InsertLinks(mem: Memory, mem': Memory, listStart: int, free: seq<Range>, b: Range, live: map<int, int>,
                    i: nat, lo: int, end: int)
    requires Linked(mem, listStart, free, end) && LiveHeaders(mem, live)
    requires Sorted(free, lo, end) && WellSized(b, lo, end) && Apart(free, b) && i <= |free|
    requires listStart < lo || end < listStart
    requires LiveOk(live, lo, end) && forall a :: a in live ==> !InFree(free, a) && !b.Has(a)
    requires i > 0 ==> free[i - 1].addr < b.addr && Insert(free, b) == free[..i - 1] + Insert(free[i - 1..], b)
    requires i < |free| ==> b.addr <= free[i].addr
    requires var p := Nodes(listStart, free)[i].addr;
             && (forall a :: a in mem && a != p && a != b.addr ==> a in mem' && mem'[a] == mem[a])
             && Chain(mem', p, Attached(Nodes(listStart, free)[i], b, free[i..]), end)
    ensures Linked(mem', listStart, Insert(free, b), end) && LiveHeaders(mem', live)
  {
    hide InFree, Chain, Insert, Attached, Apart;
    var nodes := Nodes(listStart, free);
    var tail := Attached(nodes[i], b, free[i..]);
    RestAbove(free, b, i, lo, end);
    PrefixApart(free, i, lo, end);
    forall r | r in nodes[..i]
      ensures r.addr != nodes[i].addr && r.addr != b.addr
    {
      assert nodes[..i] == if i == 0 then [] else [nodes[0]] + free[..i - 1];
      assert i > 0;
      assert r == nodes[0] || r in free[..i - 1];
    }
    Splice(mem, mem', listStart, nodes, i, tail, end);
    assert nodes[..i] + tail == Nodes(listStart, Insert(free, b)) by {
      InsertTail(listStart, free, b, i);
    }
    forall a | a in live
      ensures a != nodes[i].addr && a != b.addr
    {
      assert b.Has(b.addr);
      if i > 0 {
        assert free[i - 1].Has(free[i - 1].addr);
        InFreeAt(free, i - 1, free[i - 1].addr);
      }
    }
  }

  /** Memory after the block at `block`, whose size is in its header, went in behind the node p. */
  function Stored(mem: Memory, p: int, block: int, end: int): Memory
    requires p in mem && block in mem && (mem[p].next != end ==> mem[p].next in mem)
  {
    var next := mem[p].next;
    var joins := p + mem[p].word == block;
    var start := if joins then p else block;
    var size := mem[block].word + if joins then mem[p].word else 0;
    var touches := start + size == next && next != end;
    var header := Block(if touches then mem[next].next else next, if touches then size + mem[next].word else size);
    if joins then mem[p := header] else mem[block := header][p := mem[p].(next := block)]
  }

  lemma InsertStored(mem: Memory, listStart: int, free: seq<Range>, b: Range, live: map<int, int>,
                     i: nat, lo: int, end: int)
    requires Linked(mem, listStart, free, end) && LiveHeaders(mem, live)
    requires Sorted(free, lo, end) && WellSized(b, lo, end) && Apart(free, b) && i <= |free|
    requires listStart < lo || end < listStart
    requires LiveOk(live, lo, end) && forall a :: a in live ==> !InFree(free, a) && !b.Has(a)
    requires b.addr in mem && mem[b.addr].word == b.size
    requires i > 0 ==> free[i - 1].addr < b.addr && Insert(free, b) == free[..i - 1] + Insert(free[i - 1..], b)
    requires var nodes := Nodes(listStart, free);
             && nodes[i].addr in mem && Chain(mem, nodes[i].addr, nodes[i..], end)
             && b.addr <= mem[nodes[i].addr].next
    ensures var p := Nodes(listStart, free)[i].addr;
            && p != b.addr && (mem[p].next != end ==> mem[p].next in mem) && (p == listStart || InFree(free, p))
            && mem[p].next != p && mem[p].next != b.addr
            && Linked(Stored(mem, p, b.addr, end), listStart, Insert(free, b), end)
            && LiveHeaders(Stored(mem, p, b.addr, end), live)
  {
    hide InFree, Insert, AttachNext, Attached, LiveOk, Linked, Apart, LiveHeaders, Sorted, Chain, Stored;
    var nodes := Nodes(listStart, free);
    var p, f, rest := nodes[i].addr, nodes[i], free[i..];
    NextNode(mem, listStart, free, i, end);
    RestAbove(free, b, i, lo, end);
    if i < |free| {
      assert free[i] == rest[0];
      assert rest[0] in rest;
    }
    TailStored(mem, p, f, b, rest, end);
    if i > 0 {
      assert free[i - 1].Has(free[i - 1].addr);
      InFreeAt(free, i - 1, free[i - 1].addr);
    }
    InsertLinks(mem, Stored(mem, p, b.addr, end), listStart, free, b, live, i, lo, end);
  }

  lemma TailStored(mem: Memory, p: int, f: Range, b: Range, rest: seq<Range>, end: int)
    requires p in mem && p == f.addr && mem[p].word == f.size && Chain(mem, mem[p].next, rest, end)
    requires b.addr in mem && mem[b.addr].word == b.size && p != b.addr
    requires forall r :: r in rest ==> r.addr != p && r.addr != b.addr
    requires rest != [] ==> rest[0].addr != end && mem[p].next == rest[0].addr
    requires mem[p].next != end ==> mem[p].next in mem
    ensures Chain(Stored(mem, p, b.addr, end), p, Attached(f, b, rest), end)
    ensures forall a :: a in mem && a != p && a != b.addr ==>
                          a in Stored(mem, p, b.addr, end) && Stored(mem, p, b.addr, end)[a] == mem[a]
  {
    hide AttachNext;
    var mem' := Stored(mem, p, b.addr, end);
    if f.End() == b.addr {
      BehindTail(mem, mem', Range(f.addr, f.size + b.size), rest, mem[p].next, end);
    } else {
      assert ([f] + rest)[1..] == rest;
      LinkedBehind(mem, mem', p, f, b, rest, end);
    }
  }

  lemma InFreeAt(free: seq<Range>, i: nat, x: int)
    requires i < |free| && free[i].Has(x)
    ensures InFree(free, x)
  {
  }

  lemma PrefixApart(free: seq<Range>, i: nat, lo: int, hi: int)
    requires Sorted(free, lo, hi) && i <= |free|
    ensures i > 0 ==> forall r :: r in free[..i - 1] ==> lo <= r.addr < free[i - 1].addr
  {
    if i > 1 {
      PrefixBelow(free, i - 1, lo, hi);
      SortedAt(free, i - 2, lo, hi);
    }
  }

  lemma InsertTail(listStart: int, free: seq<Range>, b: Range, i: nat)
    requires i <= |free| && listStart != b.addr
    requires i > 0 ==> free[i - 1].addr < b.addr && Insert(free, b) == free[..i - 1] + Insert(free[i - 1..], b)
    requires i < |free| ==> b.addr <= free[i].addr
    ensures var nodes := Nodes(listStart, free);
            nodes[..i] + Attached(nodes[i], b, free[i..]) == Nodes(listStart, Insert(free, b))
  {
    var nodes := Nodes(listStart, free);
    if i == 0 {
      assert free[0..] == free;
    } else {
      hide Insert, Attached, AttachNext;
      InsertStops(free, b, i - 1);
      assert nodes[..i] == [nodes[0]] + free[..i - 1];
      Behead(nodes[0], free[..i - 1], Attached(nodes[i], b, free[i..]));
    }
  }

  lemma Behead(x: Range, a: seq<Range>, tail: seq<Range>)
    ensures ([x] + a) + tail == [x] + (a + tail)
  {
  }

  // ---------------------------------------------------------------- malloc and free on memory

  lemma {:induction false} AddressesFree(free: seq<Range>, lo: int, hi: int)
    requires Sorted(free, lo, hi)
    ensures forall r :: r in free ==> InFree(free, r.addr) && lo <= r.addr < hi
    decreases |free|
  {
    if free != [] {
      var rest := free[1..];
      AddressesFree(rest, free[0].End() + 1, hi);
      forall r | r in free
        ensures InFree(free, r.addr) && lo <= r.addr < hi
      {
        InFreeHead(free, r.addr);
        assert r == free[0] || r in rest;
      }
    }
  }

  /** Writes outside the start node, the end marker and the free ranges keep the list. */
  lemma LinkedFrame(mem: Memory, mem': Memory, listStart: int, free: seq<Range>, lo: int, end: int)
    requires Linked(mem, listStart, free, end) && Sorted(free, lo, end)
    requires forall x :: x in mem && (x == listStart || x == end || InFree(free, x)) ==> x in mem' && mem'[x] == mem[x]
    ensures Linked(mem', listStart, free, end)
  {
    hide InFree;
    AddressesFree(free, lo, end);
    ChainFrame(mem, mem', listStart, Nodes(listStart, free), end);
  }

  /** Bypassing free range i through its predecessor takes it off the list. */
  lemma Unlinked(mem: Memory, listStart: int, free: seq<Range>, i: nat, lo: int, end: int)
    requires Linked(mem, listStart, free, end) && Sorted(free, lo, end) && i < |free|
    requires listStart < lo || end < listStart
    ensures var p := Nodes(listStart, free)[i].addr;
            && p in mem && free[i].addr in mem && mem[free[i].addr].word == free[i].size
            && (p == listStart || InFree(free, p)) && p != free[i].addr && p != end
            && Linked(mem[p := mem[p].(next := mem[free[i].addr].next)], listStart, Drop(free, i), end)
            && (p == listStart || InFree(Drop(free, i), p))
  {
    hide InFree, Chain, Sorted;
    var nodes := Nodes(listStart, free);
    var p := nodes[i].addr;
    UnlinkFacts(mem, listStart, free, i, lo, end);
    var mem' := mem[p := mem[p].(next := mem[free[i].addr].next)];
    var tail := [nodes[i]] + free[i + 1..];
    ChainFrame(mem, mem', mem[free[i].addr].next, free[i + 1..], end);
    ChainCons(mem', nodes[i], free[i + 1..], end);
    Splice(mem, mem', listStart, nodes, i, tail, end);
    assert nodes[..i] + tail == Nodes(listStart, Drop(free, i));
    if i > 0 {
      DropKeeps(free, i, lo, end);
      SortedAt(free, i - 1, lo, end);
      assert free[i - 1].Has(free[i - 1].addr);
      InFreeAt(free, i - 1, p);
    }
  }

  lemma ChainCons(mem: Memory, f: Range, rest: seq<Range>, end: int)
    requires f.addr in mem && mem[f.addr].word == f.size && Chain(mem, mem[f.addr].next, rest, end)
    ensures Chain(mem, f.addr, [f] + rest, end)
  {
    assert ([f] + rest)[1..] == rest;
  }

  lemma UnlinkFacts(mem: Memory, listStart: int, free: seq<Range>, i: nat, lo: int, end: int)
    requires Linked(mem, listStart, free, end) && Sorted(free, lo, end) && i < |free|
    requires listStart < lo || end < listStart
    ensures var nodes := Nodes(listStart, free);
            var p := nodes[i].addr;
            && p in mem && mem[p].word == nodes[i].size
            && free[i].addr in mem && mem[free[i].addr].word == free[i].size
            && Chain(mem, mem[free[i].addr].next, free[i + 1..], end)
            && p != free[i].addr && p != end && (i > 0 ==> p < free[i].addr)
            && (forall r :: r in free[i + 1..] ==> r.addr != p)
            && (forall r :: r in nodes[..i] ==> r.addr != p)
  {
    var nodes := Nodes(listStart, free);
    var p := nodes[i].addr;
    ChainAt(mem, listStart, nodes, i, end);
    ChainAt(mem, listStart, nodes, i + 1, end);
    NextNode(mem, listStart, free, i + 1, end);
    SortedAt(free, i, lo, end);
    AllAbove(free[i + 1..], free[i].End() + 1, end);
    if i > 0 {
      SortedAt(free, i - 1, lo, end);
    }
    PrefixApart(free, i, lo, end);
    forall r | r in nodes[..i]
      ensures r.addr != p
    {
      assert nodes[..i] == if i == 0 then [] else [nodes[0]] + free[..i - 1];
      assert i > 0;
      assert r == nodes[0] || r in free[..i - 1];
    }
  }

  lemma {:induction false} ChainAt(mem: Memory, p: int, nodes: seq<Range>, i: nat, end: int)
    requires Chain(mem, p, nodes, end) && i < |nodes|
    ensures nodes[i].addr in mem && mem[nodes[i].addr].word == nodes[i].size && Chain(mem, nodes[i].addr, nodes[i..], end)
    decreases i
  {
    if i > 0 {
      ChainAt(mem, mem[p].next, nodes[1..], i - 1, end);
      assert nodes[1..][i - 1..] == nodes[i..];
    } else {
      assert nodes[0..] == nodes;
    }
  }

  /** The bytes taken hold the header and the request exactly when their sum, rounded up, fits
      in 64 bits. */
  lemma NeededFacts(size: int)
    requires 0 <= size < 0x1_0000_0000_0000_0000
    ensures 0 <= Needed(size) < 0x1_0000_0000_0000_0000 && Needed(size) % 8 == 0
    ensures size == 0 ==> Needed(size) == 0
    ensures size > 0 ==> (size + 16 <= Needed(size) <==> size + 23 < 0x1_0000_0000_0000_0000)
    ensures size > 0 && size + 16 <= Needed(size) ==> Needed(size) < size + 24
  {
    var n := size + HEADER + 7;
    if n >= 0x1_0000_0000_0000_0000 {
      assert n % 0x1_0000_0000_0000_0000 == n - 0x1_0000_0000_0000_0000;
    }
  }

  /** What the search of malloc reads at node i. */
  lemma NodeFacts(mem: Memory, listStart: int, free: seq<Range>, i: nat, lo: int, end: int)
    requires Linked(mem, listStart, free, end) && Sorted(free, lo, end) && i <= |free| && 0 < lo && 0 < end
    ensures var p := Nodes(listStart, free)[i].addr;
            && p in mem && mem[p].next == (if i < |free| then free[i].addr else end) && mem[p].next in mem
            && (i < |free| ==> mem[free[i].addr].word == free[i].size && free[i].addr < end && mem[free[i].addr].next != NULL)
            && (i == |free| ==> mem[end] == Block(NULL, 0))
  {
    var nodes := Nodes(listStart, free);
    ChainAt(mem, listStart, nodes, i, end);
    NextNode(mem, listStart, free, i, end);
    if i < |free| {
      ChainAt(mem, listStart, nodes, i + 1, end);
      NextNode(mem, listStart, free, i + 1, end);
      SortedAt(free, i, lo, end);
    }
  }

  lemma FirstFitIs(free: seq<Range>, i: nat, need: int)
    requires i < |free| && free[i].size >= need && (forall j :: 0 <= j < i ==> free[j].size < need)
    ensures FirstFit(free, need) == i
  {
  }

  lemma NoFit(s: State, need: int)
    requires forall j :: 0 <= j < |s.free| ==> s.free[j].size < need
    ensures Alloc(s, need) == None
  {
  }

  /** The test against the byte count only refuses requests that no free range could serve. */
  lemma NotEnough(s: State, need: int, lo: int, hi: int)
    requires Inv(s, lo, hi) && hi < ALLOCATED_BIT && 0 < lo && need < 2 * ALLOCATED_BIT
    requires !SizeIsValid(need) || need <= 0 || need > Sum(s.free)
    ensures Alloc(s, need) == None
  {
    var i := FirstFit(s.free, need);
    if need > 0 && i < |s.free| {
      SumAtLeast(s.free, i, lo, hi);
      SortedAt(s.free, i, lo, hi);
      assert false;
    }
  }

  lemma UnlinkedState(mem: Memory, listStart: int, s: State, i: nat, lo: int, end: int)
    requires Inv(s, lo, end) && Linked(mem, listStart, s.free, end) && LiveHeaders(mem, s.live) && i < |s.free|
    requires listStart + HEADER <= lo || end + HEADER <= listStart
    ensures var p, a := Nodes(listStart, s.free)[i].addr, s.free[i].addr;
            && p in mem && a in mem && mem[a].word == s.free[i].size && p != a
            && Linked(mem[p := mem[p].(next := mem[a].next)], listStart, Drop(s.free, i), end)
            && LiveHeaders(mem[p := mem[p].(next := mem[a].next)], s.live)
            && Sorted(Drop(s.free, i), lo, end) && !InFree(Drop(s.free, i), a)
            && WellSized(s.free[i], lo, end) && a !in s.live && LiveOk(s.live, lo, end)
  {
    hide InFree, Chain, Linked, Partition, Drop, Sum;
    var p := Nodes(listStart, s.free)[i].addr;
    Unlinked(mem, listStart, s.free, i, lo, end);
    DropKeeps(s.free, i, lo, end);
    FreeRangeFits(s, i, lo, end);
    LiveNotFree(s, lo, end);
    assert s.free[i].Has(s.free[i].addr);
  }

  lemma LiveNotFree(s: State, lo: int, hi: int)
    requires Inv(s, lo, hi)
    ensures forall a :: a in s.live ==> !InFree(s.free, a) && lo <= a < hi
  {
    forall a | a in s.live
      ensures !InFree(s.free, a) && lo <= a < hi
    {
      assert Range(a, s.live[a]).Has(a);
      assert InLive(s.live, a);
    }
  }

  /** The remainder of a split block satisfies what the insertion asks for. */
  lemma RemainderInHand(mem: Memory, listStart: int, s: State, i: nat, need: int, stale: int, lo: int, end: int)
    requires Inv(s, lo, end) && i < |s.free| && HEADER <= need && need % 8 == 0 && s.free[i].size - need > MIN_SPLIT
    requires Linked(mem, listStart, Drop(s.free, i), end) && LiveHeaders(mem, s.live) && s.free[i].addr in mem
    requires listStart + HEADER <= lo || end + HEADER <= listStart
    ensures var b, a := Range(s.free[i].addr + need, s.free[i].size - need), s.free[i].addr;
            && WellSized(b, lo, end) && Apart(Drop(s.free, i), b)
            && (forall x :: x in s.live ==> !InFree(Drop(s.free, i), x) && !b.Has(x))
            && var mem' := mem[b.addr := Block(stale, b.size)][a := mem[a].(word := need)];
               Linked(mem', listStart, Drop(s.free, i), end) && LiveHeaders(mem', s.live)
  {
    hide InFree, Chain, Linked, Partition, Sorted, LiveOk, Sum, Drop;
    var b, a := Range(s.free[i].addr + need, s.free[i].size - need), s.free[i].addr;
    var rest := Drop(s.free, i);
    DropKeeps(s.free, i, lo, end);
    LiveNotFree(s, lo, end);
    forall x | s.free[i].Has(x)
      ensures InFree(s.free, x) && !InFree(rest, x)
    {
      Within(s.free, i, x);
    }
    assert forall x :: b.Has(x) ==> s.free[i].Has(x);
    assert s.free[i].Has(a) && s.free[i].Has(b.addr);
    assert InFree(s.free, a) && InFree(s.free, b.addr) && !InFree(rest, a) && !InFree(rest, b.addr);
    LinkedFrame(mem, mem[b.addr := Block(stale, b.size)][a := mem[a].(word := need)], listStart, rest, lo, end);
  }

  /** Setting the allocated bit and clearing the link turns a block off the list into a live one. */
  lemma SettleLive(mem: Memory, listStart: int, free: seq<Range>, live: map<int, int>, a: int, size: int, lo: int, end: int)
    requires Linked(mem, listStart, free, end) && LiveHeaders(mem, live) && Sorted(free, lo, end)
    requires a in mem && mem[a].word == size && 0 <= size < ALLOCATED_BIT && a !in live
    requires a != listStart && a != end && !InFree(free, a)
    ensures AllocateBlock(mem[a]).(next := NULL) == Block(NULL, size + ALLOCATED_BIT)
    ensures var mem' := mem[a := Block(NULL, size + ALLOCATED_BIT)];
            Linked(mem', listStart, free, end) && LiveHeaders(mem', live[a := size])
  {
    hide InFree, Linked;
    LinkedFrame(mem, mem[a := Block(NULL, size + ALLOCATED_BIT)], listStart, free, lo, end);
  }

  lemma NoHeaderAtNull(s: State, lo: int, hi: int)
    requires Inv(s, lo, hi) && 0 < lo
    ensures NULL - HEADER !in s.live
  {
  }

  /** The header free reads tells a live block from a free one. */
  lemma HeaderAt(mem: Memory, listStart: int, s: State, a: int, lo: int, end: int)
    requires Inv(s, lo, end) && Linked(mem, listStart, s.free, end) && LiveHeaders(mem, s.live) && end < ALLOCATED_BIT && 0 < lo
    requires a !in s.live ==> exists i :: 0 <= i < |s.free| && s.free[i].addr == a
    ensures a in mem && (BlockIsAllocated(mem[a]) && mem[a].next == NULL <==> a in s.live)
    ensures a in s.live ==> mem[a] == Block(NULL, s.live[a] + ALLOCATED_BIT) && 0 <= s.live[a] < ALLOCATED_BIT
  {
    if a !in s.live {
      var i :| 0 <= i < |s.free| && s.free[i].addr == a;
      ChainAt(mem, listStart, Nodes(listStart, s.free), i + 1, end);
      SortedAt(s.free, i, lo, end);
    }
  }

  /** A live block whose allocated bit has been cleared satisfies what the insertion asks for. */
  lemma LiveInHand(mem: Memory, listStart: int, s: State, a: int, header: Block, lo: int, end: int)
    requires Inv(s, lo, end) && Linked(mem, listStart, s.free, end) && LiveHeaders(mem, s.live) && a in s.live && a in mem
    requires listStart + HEADER <= lo || end + HEADER <= listStart
    ensures var b := Range(a, s.live[a]);
            && WellSized(b, lo, end) && Apart(s.free, b) && LiveOk(s.live - {a}, lo, end)
            && (forall x :: x in s.live - {a} ==> !InFree(s.free, x) && !b.Has(x))
            && Linked(mem[a := header], listStart, s.free, end) && LiveHeaders(mem[a := header], s.live - {a})
  {
    hide InFree, Linked, LiveOk, LiveHeaders, Sorted;
    var b := Range(a, s.live[a]);
    LiveNotFree(s, lo, end);
    LiveWithout(mem, s.live, a, header, lo, end);
    forall x | b.Has(x)
      ensures !InFree(s.free, x)
    {
      LiveAt(s.live, a, x);
    }
    assert b.Has(a);
    LinkedFrame(mem, mem[a := header], listStart, s.free, lo, end);
  }

  lemma LiveWithout(mem: Memory, live: map<int, int>, a: int, header: Block, lo: int, end: int)
    requires LiveOk(live, lo, end) && LiveHeaders(mem, live) && a in live
    ensures WellSized(Range(a, live[a]), lo, end) && LiveOk(live - {a}, lo, end) && LiveHeaders(mem[a := header], live - {a})
    ensures forall x :: x in live - {a} ==> !Range(a, live[a]).Has(x)
  {
    forall x | x in live - {a}
      ensures !Range(a, live[a]).Has(x)
    {
      assert x < a || a < x;
    }
  }

  lemma LiveAt(live: map<int, int>, a: int, x: int)
    requires a in live && Range(a, live[a]).Has(x)
    ensures InLive(live, x)
  {
  }

  class Heap {
    const listStart: int
    const lo: int
    const freeListEnd: int
    var mem: Memory
    var bytesAvailable: int
    ghost var s: State

    /** The heap is aligned and the start node lies outside it. */
    ghost predicate Usable()
      reads this
    {
      && 0 < lo && WellSized(Range(lo, freeListEnd - lo), lo, freeListEnd)
      && freeListEnd + HEADER < ALLOCATED_BIT
      && (listStart + HEADER <= lo || freeListEnd + HEADER <= listStart)
    }

    ghost predicate Valid()
      reads this
    {
      && Usable() && Inv(s, lo, freeListEnd)
      && Linked(mem, listStart, s.free, freeListEnd)
      && LiveHeaders(mem, s.live)
      && bytesAvailable == Sum(s.free)
    }

    /** The block b has left the live blocks or the list and is not yet back on the list. */
    ghost predicate InHand(b: Range)
      reads this
    {
      && Usable() && Sorted(s.free, lo, freeListEnd) && LiveOk(s.live, lo, freeListEnd)
      && Linked(mem, listStart, s.free, freeListEnd)
      && LiveHeaders(mem, s.live)
      && WellSized(b, lo, freeListEnd) && Apart(s.free, b)
      && b.addr in mem && mem[b.addr].word == b.size
      && (forall a :: a in s.live ==> !InFree(s.free, a) && !b.Has(a))
    }

    constructor (heapStart: int, heapSize: int, start: int)
      requires 0 < heapStart && 2 * HEADER <= heapSize && heapSize % 8 == 0 && heapStart + heapSize + 8 < ALLOCATED_BIT
      requires start + HEADER <= heapStart || heapStart + heapSize + 8 <= start
      ensures Valid()
      ensures lo == AlignUp(heapStart) && freeListEnd == lo + heapSize - HEADER && s == Initial(lo, freeListEnd)
    {
      var alinedHeapStart := AlignUp(heapStart);
      var alinedHeapEnd := alinedHeapStart + heapSize - HEADER;
      listStart := start;
      lo := alinedHeapStart;
      freeListEnd := alinedHeapEnd;
      mem := map[start := Block(alinedHeapStart, 0),
                 alinedHeapEnd := Block(NULL, 0),
                 alinedHeapStart := Block(alinedHeapEnd, alinedHeapEnd - alinedHeapStart)];
      bytesAvailable := alinedHeapEnd - alinedHeapStart;
      s := Initial(alinedHeapStart, alinedHeapEnd);
      new;
      InitialInv(lo, freeListEnd);
      assert Nodes(listStart, s.free)[1..] == s.free;
      assert s.free[1..] == [];
    }

    /** Finds the place of the block by address and joins it with the neighbours it touches. */
    method InsertBlockIntoFreeList(blockToInsert: int, ghost b: Range)
      requires InHand(b) && b.addr == blockToInsert
      modifies this`mem, this`s
      ensures Linked(mem, listStart, s.free, freeListEnd) && LiveHeaders(mem, s.live)
      ensures s == State(Insert(old(s).free, b), old(s).live)
      ensures forall x :: x in old(mem) && x != listStart && x != blockToInsert && !InFree(old(s).free, x) ==>
                            x in mem && mem[x] == old(mem)[x]
    {
      hide InFree, Insert, AttachNext, LiveOk, Chain, Linked, Sorted, Apart, LiveHeaders;
      ghost var free := s.free;
      ghost var nodes := Nodes(listStart, free);
      var blockIterator := listStart;
      ghost var i := 0;
      FirstNode(mem, listStart, free, freeListEnd);
      while mem[blockIterator].next < blockToInsert
        invariant mem == old(mem) && s == old(s)
        invariant i <= |free| && blockIterator == nodes[i].addr && blockIterator in mem
        invariant Chain(mem, blockIterator, nodes[i..], freeListEnd)
        invariant i > 0 ==> free[i - 1].addr < blockToInsert && Insert(free, b) == free[..i - 1] + Insert(free[i - 1..], b)
        decreases |free| - i
      {
        NextNode(mem, listStart, free, i, freeListEnd);
        if i > 0 {
          InsertPasses(free, b, i - 1, lo, freeListEnd);
        }
        blockIterator := mem[blockIterator].next;
        i := i + 1;
      }
      InsertStored(mem, listStart, free, b, s.live, i, lo, freeListEnd);
      LinkBehind(blockIterator, blockToInsert);
      s := State(Insert(free, b), s.live);
    }

    /** The end of the insertion: join the block with the node `place` it goes behind and with the
        node after it where they touch, and link it in. */
    method LinkBehind(place: int, blockToInsert: int)
      requires place in mem && blockToInsert in mem
      requires mem[place].next != freeListEnd ==> mem[place].next in mem
      requires mem[place].next != place && mem[place].next != blockToInsert && place != blockToInsert
      modifies this`mem
      ensures mem == Stored(old(mem), place, blockToInsert, freeListEnd)
    {
      var block := blockToInsert;
      if place + mem[place].word == block {
        mem := mem[place := mem[place].(word := mem[place].word + mem[block].word)];
        block := place;
      }
      if block + mem[block].word == mem[place].next {
        if mem[place].next != freeListEnd {
          mem := mem[block := mem[block].(word := mem[block].word + mem[mem[place].next].word)];
          mem := mem[block := mem[block].(next := mem[mem[place].next].next)];
        } else {
          mem := mem[block := mem[block].(next := freeListEnd)];
        }
      } else {
        mem := mem[block := mem[block].(next := mem[place].next)];
      }
      if place != block {
        mem := mem[place := mem[place].(next := block)];
      }
    }

    /** First fit in address order; what is left over goes back on the list when it is large. */
    method Malloc(size: int) returns (r: int)
      requires Valid() && 0 <= size && size + HEADER + 7 < 0x1_0000_0000_0000_0000
      modifies this
      ensures Valid()
      ensures match Alloc(old(s), Needed(size))
              case None => r == NULL && s == old(s) && mem == old(mem) && bytesAvailable == old(bytesAvailable)
              case Some((t, a)) => r == a + HEADER && s == t && a in s.live
      ensures r != NULL ==> r % 8 == 0 && r - HEADER in s.live && size + HEADER <= s.live[r - HEADER]
    {
      hide LiveOk, Partition, Sorted, Chain, Alloc, Linked, LiveHeaders, InFree, Sum, Needed, SizeIsValid, FirstFit;
      NeededFacts(size);
      r := NULL;
      var need := Needed(size);
      if SizeIsValid(need) && need > 0 && need <= bytesAvailable {
        var previousBlock := listStart;
        NodeFacts(mem, listStart, s.free, 0, lo, freeListEnd);
        var block := mem[listStart].next;
        ghost var i := 0;
        while mem[block].word < need && mem[block].next != NULL
          invariant mem == old(mem) && s == old(s) && bytesAvailable == old(bytesAvailable)
          invariant i <= |s.free| && previousBlock == Nodes(listStart, s.free)[i].addr
          invariant block == (if i < |s.free| then s.free[i].addr else freeListEnd) && block in mem
          invariant previousBlock in mem && mem[previousBlock].next == block
          invariant forall j :: 0 <= j < i ==> s.free[j].size < need
          decreases |s.free| - i
        {
          NodeFacts(mem, listStart, s.free, i, lo, freeListEnd);
          NodeFacts(mem, listStart, s.free, i + 1, lo, freeListEnd);
          previousBlock := block;
          block := mem[block].next;
          i := i + 1;
        }
        NodeFacts(mem, listStart, s.free, i, lo, freeListEnd);
        if block != freeListEnd {
          FirstFitIs(s.free, i, need);
          r := mem[previousBlock].next + HEADER;
          Take(previousBlock, block, need, i);
        } else {
          NoFit(s, need);
        }
      } else {
        NotEnough(s, need, lo, freeListEnd);
      }
    }

    /** The successful branch of Malloc: unlink the block, split it if what remains is large, and
        mark it allocated. */
    method Take(previousBlock: int, block: int, need: int, ghost i: nat)
      requires Valid() && i < |s.free| && HEADER <= need <= s.free[i].size && need % 8 == 0
      requires FirstFit(s.free, need) == i
      requires block == s.free[i].addr && previousBlock == Nodes(listStart, s.free)[i].addr
      modifies this
      ensures Valid() && Alloc(old(s), need) == Some((s, block))
      ensures block in s.live && block % 8 == 0 && need <= s.live[block]
    {
      hide Inv, Chain, Linked, LiveHeaders, InFree, Sum, Sorted, LiveOk, Apart, Insert, FirstFit, Nodes;
      ghost var s0, b := s, s.free[i];
      UnlinkedState(mem, listStart, s, i, lo, freeListEnd);
      AllocKeeps(s, need, lo, freeListEnd);
      mem := mem[previousBlock := mem[previousBlock].(next := mem[block].next)];
      s := State(Drop(s.free, i), s.live);
      if mem[block].word - need > MIN_SPLIT {
        var newBlockLink := block + need;
        ghost var rest := Range(newBlockLink, b.size - need);
        var stale := if newBlockLink in mem then mem[newBlockLink].next else NULL;
        RemainderInHand(mem, listStart, s0, i, need, stale, lo, freeListEnd);
        mem := mem[newBlockLink := Block(stale, mem[block].word - need)];
        mem := mem[block := mem[block].(word := need)];
        InsertKeeps(s.free, rest, lo, freeListEnd);
        InsertBlockIntoFreeList(newBlockLink, rest);
      }
      ghost var size := mem[block].word;
      bytesAvailable := bytesAvailable - mem[block].word;
      SettleLive(mem, listStart, s.free, s.live, block, size, lo, freeListEnd);
      ghost var mem1 := mem;
      mem := mem[block := AllocateBlock(mem[block])];
      mem := mem[block := mem[block].(next := NULL)];
      assert mem == mem1[block := Block(NULL, size + ALLOCATED_BIT)];
      s := State(s.free, s.live[block := size]);
      assert Alloc(s0, need) == Some((s, block));
    }

    /** A live block goes back on the list; any other header that does not read as allocated, such
        as that of a block freed before, is left alone. */
    method Free(ptr: int)
      requires Valid()
      requires ptr != NULL && ptr - HEADER !in s.live ==>
                 ptr - HEADER in mem && !(BlockIsAllocated(mem[ptr - HEADER]) && mem[ptr - HEADER].next == NULL)
      modifies this
      ensures Valid()
      ensures ptr - HEADER in old(s).live ==> s == Release(old(s), ptr - HEADER)
      ensures ptr - HEADER !in old(s).live ==> s == old(s) && mem == old(mem) && bytesAvailable == old(bytesAvailable)
    {
      hide LiveOk, Partition, Sorted, Chain, Linked, LiveHeaders, InFree, Sum, Insert, Apart;
      if ptr == NULL {
        NoHeaderAtNull(s, lo, freeListEnd);
        return;
      }
      var freeBlock := ptr - HEADER;
      if freeBlock in s.live {
        HeaderAt(mem, listStart, s, freeBlock, lo, freeListEnd);
      }
      if BlockIsAllocated(mem[freeBlock]) && mem[freeBlock].next == NULL {
        ghost var b := Range(freeBlock, s.live[freeBlock]);
        ReleaseKeeps(s, freeBlock, lo, freeListEnd);
        LiveInHand(mem, listStart, s, freeBlock, FreeBlock(mem[freeBlock]), lo, freeListEnd);
        mem := mem[freeBlock := FreeBlock(mem[freeBlock])];
        bytesAvailable := bytesAvailable + mem[freeBlock].word;
        s := State(s.free, s.live - {freeBlock});
        InsertBlockIntoFreeList(freeBlock, b);
      }
    }
  }

  lemma FirstNode(mem: Memory, listStart: int, free: seq<Range>, end: int)
    requires Linked(mem, listStart, free, end)
    ensures var nodes := Nodes(listStart, free);
            nodes[0].addr == listStart && listStart in mem && Chain(mem, listStart, nodes[0..], end)
  {
    var nodes := Nodes(listStart, free);
    assert nodes[0..] == nodes;
  }

  /** One step along the nodes. */
  lemma NextNode(mem: Memory, listStart: int, free: seq<Range>, i: nat, end: int)
    requires i <= |free|
    requires var nodes := Nodes(listStart, free);
             nodes[i].addr in mem && Chain(mem, nodes[i].addr, nodes[i..], end)
    ensures var nodes := Nodes(listStart, free);
            var next := mem[nodes[i].addr].next;
            && nodes[i..] == [nodes[i]] + free[i..] && mem[nodes[i].addr].word == nodes[i].size
            && Chain(mem, next, free[i..], end)
            && next == (if i < |free| then free[i].addr else end)
            && (i < |free| ==> free[i] == nodes[i + 1] && next in mem && free[i..] == nodes[i + 1..])
  {
    var nodes := Nodes(listStart, free);
    assert nodes[i..][1..] == free[i..];
  }
}
