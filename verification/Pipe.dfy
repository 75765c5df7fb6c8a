/** Pipes: a ring of characters guarded by three semaphores, under every interleaving of the
    statements of any number of readPipe and writePipe calls. A killed process is one that takes
    no further step, wherever it was. */
module Pipe {
  import opened Common

  const BUFFER_SIZE := 40

  // ---------------------------------------------------------------- the ring

  datatype Ring = Ring(buffer: seq<char>, readIdx: nat, writeIdx: nat)

  predicate InBounds(r: Ring) {
    |r.buffer| == BUFFER_SIZE && r.readIdx < BUFFER_SIZE && r.writeIdx < BUFFER_SIZE
  }

  function Next(i: nat): nat {
    (i + 1) % BUFFER_SIZE
  }

  // ---------------------------------------------------------------- calls and their steps

  /** The statement a call executes next. */
  datatype Stage = AtCount | AtMutex | Copy | Advance | Check | Leave | Signal | Done

  /** What a call has done so far; a finished one returns |buf|, or pos. */
  datatype Job =
    | Reader(len: int, buf: seq<char>, reachedEnd: bool)
    | Writer(data: seq<char>, pos: nat)

  datatype Call = Call(job: Job, stage: Stage)

  /** A character that went through the pipe, and the call that put it in or took it out. */
  datatype Entry = Entry(call: nat, c: char)

  datatype System = System(ring: Ring, mutex: nat, writtenCount: nat, emptyCount: nat, calls: seq<Call>,
                           sent: seq<Entry>, received: seq<Entry>)

  function SetCall(s: System, p: nat, c: Call): System
    requires p < |s.calls|
  {
    s.(calls := s.calls[p := c])
  }

  /** Call p can go on: it is not finished, and the semaphore it waits for has a token. */
  predicate Enabled(s: System, p: nat) {
    p < |s.calls| &&
    match s.calls[p].stage
    case AtCount => if s.calls[p].job.Reader? then s.writtenCount > 0 else s.emptyCount > 0
    case AtMutex => s.mutex > 0
    case Done => false
    case _ => true
  }

  function StepReader(s: System, p: nat): System
    requires InBounds(s.ring) && Enabled(s, p) && s.calls[p].job.Reader?
  {
    var job := s.calls[p].job;
    match s.calls[p].stage
    case AtCount => SetCall(s, p, Call(job, AtMutex)).(writtenCount := s.writtenCount - 1)
    case AtMutex => SetCall(s, p, Call(job, Copy)).(mutex := s.mutex - 1)
    case Copy => SetCall(s, p, Call(job.(buf := job.buf + [s.ring.buffer[s.ring.readIdx]]), Advance))
    case Advance =>
      SetCall(s, p, Call(job, Check)).(ring := s.ring.(readIdx := Next(s.ring.readIdx)),
                                       received := s.received + (if job.buf == [] then [] else [Entry(p, job.buf[|job.buf| - 1])]))
    case Check => SetCall(s, p, Call(job.(reachedEnd := job.reachedEnd || s.ring.readIdx == s.ring.writeIdx), Leave))
    case Leave => SetCall(s, p, Call(job, Signal)).(mutex := s.mutex + 1)
    case Signal =>
      SetCall(s, p, Call(job, if |job.buf| < job.len && !job.reachedEnd then AtCount else Done)).(emptyCount := s.emptyCount + 1)
  }

  function StepWriter(s: System, p: nat): System
    requires InBounds(s.ring) && Enabled(s, p) && s.calls[p].job.Writer?
  {
    var job := s.calls[p].job;
    match s.calls[p].stage
    case AtCount => SetCall(s, p, Call(job, AtMutex)).(emptyCount := s.emptyCount - 1)
    case AtMutex => SetCall(s, p, Call(job, Copy)).(mutex := s.mutex - 1)
    case Copy =>
      if job.pos >= |job.data| then s
      else SetCall(s, p, Call(job.(pos := job.pos + 1), Advance)).(ring := s.ring.(buffer := s.ring.buffer[s.ring.writeIdx := job.data[job.pos]]))
    case Advance =>
      SetCall(s, p, Call(job, Leave)).(ring := s.ring.(writeIdx := Next(s.ring.writeIdx)),
                                       sent := s.sent + (if 0 < job.pos <= |job.data| then [Entry(p, job.data[job.pos - 1])] else []))
    case Check => s
    case Leave => SetCall(s, p, Call(job, Signal)).(mutex := s.mutex + 1)
    case Signal =>
      SetCall(s, p, Call(job, if job.pos < |job.data| then AtCount else Done)).(writtenCount := s.writtenCount + 1)
  }

  function Step(s: System, p: nat): System
    requires InBounds(s.ring) && Enabled(s, p)
  {
    if s.calls[p].job.Reader? then StepReader(s, p) else StepWriter(s, p)
  }

  /** A call that has just been made; a length of zero or less returns at once. */
  predicate Fresh(c: Call) {
    match c.job
    case Reader(len, buf, reachedEnd) => buf == [] && !reachedEnd && c.stage == if len <= 0 then Done else AtCount
    case Writer(data, pos) => pos == 0 && c.stage == if data == [] then Done else AtCount
  }

  /** pipeInit, and the calls that will be made on the pipe. */
  ghost predicate Initial(s: System) {
    && InBounds(s.ring) && s.ring.readIdx == 0 && s.ring.writeIdx == 0
    && s.mutex == 1 && s.writtenCount == 0 && s.emptyCount == BUFFER_SIZE
    && s.sent == [] && s.received == []
    && forall p | 0 <= p < |s.calls| :: Fresh(s.calls[p])
  }

  // ---------------------------------------------------------------- the invariant

  /** What a call may hold: the mutex, an item it has not consumed yet or has not announced yet,
      a slot it has not filled yet or has not announced yet. */
  datatype Token = Mutex | Item | Slot

  predicate Has(c: Call, t: Token) {
    match t
    case Mutex => c.stage == Copy || c.stage == Advance || c.stage == Check || c.stage == Leave
    case Item =>
      if c.job.Reader? then c.stage == AtMutex || c.stage == Copy || c.stage == Advance
      else c.stage == Check || c.stage == Leave || c.stage == Signal
    case Slot =>
      if c.job.Writer? then c.stage == AtMutex || c.stage == Copy || c.stage == Advance
      else c.stage == Check || c.stage == Leave || c.stage == Signal
  }

  function Held(calls: seq<Call>, t: Token): nat {
    if calls == [] then 0 else (if Has(calls[0], t) then 1 else 0) + Held(calls[1..], t)
  }

  /** The characters call p put in or took out, in order. */
  function Of(log: seq<Entry>, p: nat): seq<char> {
    if log == [] then []
    else Of(log[..|log| - 1], p) + (if log[|log| - 1].call == p then [log[|log| - 1].c] else [])
  }

  ghost predicate RingOk(s: System) {
    var r, w := |s.received|, |s.sent|;
    && InBounds(s.ring) && r <= w <= r + BUFFER_SIZE
    && s.ring.readIdx == r % BUFFER_SIZE && s.ring.writeIdx == w % BUFFER_SIZE
  }

  /** Every character that was put in and not taken out yet is in its slot. */
  ghost predicate Unread(s: System)
    requires |s.ring.buffer| == BUFFER_SIZE
  {
    forall k | |s.received| <= k < |s.sent| :: s.ring.buffer[k % BUFFER_SIZE] == s.sent[k].c
  }

  /** What was taken out is what was put in, in that order, from the first character on. */
  ghost predicate Fifo(s: System) {
    && |s.received| <= |s.sent|
    && forall k | 0 <= k < |s.received| :: s.received[k].c == s.sent[k].c
  }

  ghost predicate Tokens(s: System) {
    && s.mutex + Held(s.calls, Mutex) == 1
    && s.writtenCount + Held(s.calls, Item) == |s.sent| - |s.received|
    && s.emptyCount + Held(s.calls, Slot) == BUFFER_SIZE - (|s.sent| - |s.received|)
  }

  predicate ReaderOk(s: System, p: nat, c: Call)
    requires c.job.Reader? && |s.ring.buffer| == BUFFER_SIZE
  {
    var got := Of(s.received, p);
    && (c.stage != Done ==> |got| <= c.job.len)
    && (if c.stage == Advance then |s.received| < |s.sent| && c.job.buf == got + [s.sent[|s.received|].c] else c.job.buf == got)
    && (c.stage == AtCount || c.stage == AtMutex || c.stage == Copy ==> |got| < c.job.len && !c.job.reachedEnd)
    && (c.stage == Advance || c.stage == Check ==> !c.job.reachedEnd && |c.job.buf| <= c.job.len)
    && (c.stage == Check || c.stage == Leave || c.stage == Signal || (c.stage == Done && c.job.len > 0) ==> 0 < |got| <= c.job.len)
    && (c.stage == Done ==> (c.job.len <= 0 && got == []) || (0 < |got| <= c.job.len && (|got| == c.job.len || c.job.reachedEnd)))
  }

  predicate WriterOk(s: System, p: nat, c: Call)
    requires c.job.Writer? && |s.ring.buffer| == BUFFER_SIZE
  {
    && c.job.pos <= |c.job.data| && c.stage != Check
    && (c.stage == AtCount || c.stage == AtMutex || c.stage == Copy ==> c.job.pos < |c.job.data|)
    && (if c.stage == Advance then
          0 < c.job.pos && Of(s.sent, p) == c.job.data[..c.job.pos - 1]
          && s.ring.buffer[|s.sent| % BUFFER_SIZE] == c.job.data[c.job.pos - 1]
        else Of(s.sent, p) == c.job.data[..c.job.pos])
    && (c.stage == Done ==> c.job.pos == |c.job.data|)
  }

  predicate CallOk(s: System, p: nat)
    requires p < |s.calls| && |s.ring.buffer| == BUFFER_SIZE
  {
    if s.calls[p].job.Reader? then ReaderOk(s, p, s.calls[p]) else WriterOk(s, p, s.calls[p])
  }

  ghost predicate CallsOk(s: System)
    requires |s.ring.buffer| == BUFFER_SIZE
  {
    forall p | 0 <= p < |s.calls| :: CallOk(s, p)
  }

  ghost predicate Inv(s: System) {
    RingOk(s) && Unread(s) && Fifo(s) && Tokens(s) && CallsOk(s)
  }

  // ---------------------------------------------------------------- counting

  lemma {:induction false} HeldSet(calls: seq<Call>, p: nat, c: Call, t: Token)
    requires p < |calls|
    ensures Held(calls[p := c], t) == Held(calls, t) - (if Has(calls[p], t) then 1 else 0) + (if Has(c, t) then 1 else 0)
  {
    if p > 0 {
      HeldSet(calls[1..], p - 1, c, t);
      assert calls[p := c][1..] == calls[1..][p - 1 := c];
    } else {
      assert calls[0 := c][1..] == calls[1..];
    }
  }

  lemma HeldAll(calls: seq<Call>, p: nat, c: Call)
    requires p < |calls|
    ensures forall t :: Held(calls[p := c], t)
                        == Held(calls, t) - (if Has(calls[p], t) then 1 else 0) + (if Has(c, t) then 1 else 0)
  {
    forall t
      ensures Held(calls[p := c], t) == Held(calls, t) - (if Has(calls[p], t) then 1 else 0) + (if Has(c, t) then 1 else 0)
    {
      HeldSet(calls, p, c, t);
    }
  }

  lemma {:induction false} HolderCounts(calls: seq<Call>, p: nat, t: Token)
    requires p < |calls| && Has(calls[p], t)
    ensures Held(calls, t) > 0
  {
    if p > 0 { HolderCounts(calls[1..], p - 1, t); }
  }

  /** At most one call is between taking the mutex and giving it back. */
  lemma {:induction false} MutexExcludes(calls: seq<Call>, p: nat, q: nat)
    requires p < q < |calls| && Has(calls[p], Mutex) && Has(calls[q], Mutex)
    ensures Held(calls, Mutex) >= 2
  {
    if p > 0 {
      MutexExcludes(calls[1..], p - 1, q - 1);
    } else {
      HolderCounts(calls[1..], q - 1, Mutex);
    }
  }

  lemma {:induction false} NoneHas(calls: seq<Call>, t: Token)
    requires forall p | 0 <= p < |calls| :: !Has(calls[p], t)
    ensures Held(calls, t) == 0
  {
    if calls != [] { NoneHas(calls[1..], t); }
  }

  /** While one call is between taking the mutex and giving it back, no other is. */
  lemma Alone(s: System, p: nat, q: nat)
    requires Tokens(s) && p < |s.calls| && q < |s.calls| && p != q && Has(s.calls[p], Mutex)
    ensures !Has(s.calls[q], Mutex)
  {
    if Has(s.calls[q], Mutex) {
      MutexExcludes(s.calls, if p < q then p else q, if p < q then q else p);
    }
  }

  lemma OfAppend(log: seq<Entry>, e: Entry, p: nat)
    ensures Of(log + [e], p) == Of(log, p) + (if e.call == p then [e.c] else [])
  {
    assert (log + [e])[..|log|] == log;
  }

  // ---------------------------------------------------------------- every step keeps the invariant

  /** Steps that leave the ring and the logs alone. */
  lemma QuietStep(s: System, s': System, p: nat)
    requires Inv(s) && p < |s.calls| && |s'.calls| == |s.calls| && s'.calls == s.calls[p := s'.calls[p]]
    requires s'.ring == s.ring && s'.sent == s.sent && s'.received == s.received
    requires CallOk(s', p) && Tokens(s')
    ensures Inv(s')
  {
    hide ReaderOk, WriterOk, Tokens;
    forall q | 0 <= q < |s'.calls|
      ensures CallOk(s', q)
    {
      if q != p {
        assert CallOk(s, q);
        SameLogs(s, s', q);
      }
    }
  }

  lemma SameLogs(s: System, s': System, q: nat)
    requires q < |s.calls| && q < |s'.calls| && s'.calls[q] == s.calls[q] && |s.ring.buffer| == BUFFER_SIZE && CallOk(s, q)
    requires s'.ring == s.ring && s'.sent == s.sent && s'.received == s.received
    ensures CallOk(s', q)
  {
  }

  predicate Quiet(c: Call) {
    c.stage == AtCount || c.stage == AtMutex || (c.stage == Copy && c.job.Reader?) || c.stage == Check || c.stage == Leave
    || c.stage == Signal
  }

  lemma QuietReader(s: System, p: nat)
    requires Inv(s) && Enabled(s, p) && Quiet(s.calls[p]) && s.calls[p].job.Reader?
    ensures Inv(Step(s, p))
  {
    hide Of, Fifo, WriterOk;
    var s' := Step(s, p);
    HeldAll(s.calls, p, s'.calls[p]);
    assert CallOk(s, p);
    if s.calls[p].stage == Copy {
      HolderCounts(s.calls, p, Item);
      var k := |s.received|;
      assert s.ring.buffer[k % BUFFER_SIZE] == s.sent[k].c;
    }
    hide Unread, RingOk, CallsOk;
    QuietStep(s, s', p);
  }

  lemma QuietWriter(s: System, p: nat)
    requires Inv(s) && Enabled(s, p) && Quiet(s.calls[p]) && s.calls[p].job.Writer?
    ensures Inv(Step(s, p))
  {
    hide Of, Fifo, ReaderOk, Unread;
    var s' := Step(s, p);
    HeldAll(s.calls, p, s'.calls[p]);
    assert CallOk(s, p);
    hide RingOk, CallsOk;
    QuietStep(s, s', p);
  }

  /** A reader moves readIdx past the character it copied. */
  lemma ReadKeeps(s: System, p: nat)
    requires Inv(s) && Enabled(s, p) && s.calls[p].job.Reader? && s.calls[p].stage == Advance
    ensures Inv(Step(s, p))
  {
    hide Unread, WriterOk, Of, Tokens, Fifo;
    assert CallOk(s, p) && InBounds(s.ring);
    var s', e := Step(s, p), Entry(p, s.sent[|s.received|].c);
    assert s'.received == s.received + [e];
    ReadMovesOn(s, p, s', e);
    OfAppend(s.received, e, p);
    assert CallOk(s', p);
    OthersAfter(s, p, s', [], [e]);
  }

  lemma ReadMovesOn(s: System, p: nat, s': System, e: Entry)
    requires RingOk(s) && Unread(s) && Fifo(s) && Tokens(s) && |s.received| < |s.sent|
    requires p < |s.calls| && s.calls[p].job.Reader? && s.calls[p].stage == Advance
    requires e == Entry(p, s.sent[|s.received|].c)
    requires s' == SetCall(s, p, Call(s.calls[p].job, Check)).(ring := s.ring.(readIdx := Next(s.ring.readIdx)),
                                                              received := s.received + [e])
    ensures RingOk(s') && Unread(s') && Fifo(s') && Tokens(s')
  {
    hide Next;
    NextSlot(|s.received|);
    HeldAll(s.calls, p, s'.calls[p]);
  }

  lemma NextSlot(k: nat)
    ensures Next(k % BUFFER_SIZE) == (k + 1) % BUFFER_SIZE
  {
  }

  /** Whatever call p announced or did to the ring, the other calls are as they were. */
  lemma OthersAfter(s: System, p: nat, s': System, put: seq<Entry>, got: seq<Entry>)
    requires Tokens(s) && InBounds(s.ring) && CallsOk(s) && p < |s.calls| == |s'.calls| && Has(s.calls[p], Mutex)
    requires s'.calls == s.calls[p := s'.calls[p]]
    requires |s'.ring.buffer| == BUFFER_SIZE && s'.sent == s.sent + put && s'.received == s.received + got
    requires |put| <= 1 && |got| <= 1 && (forall e :: e in put + got ==> e.call == p)
    ensures forall q | 0 <= q < |s'.calls| && q != p :: CallOk(s', q)
  {
    hide Tokens, ReaderOk, WriterOk, Of, Has;
    forall q | 0 <= q < |s'.calls| && q != p
      ensures CallOk(s', q)
    {
      assert CallOk(s, q);
      OfOthers(s.sent, put, p, q);
      OfOthers(s.received, got, p, q);
      OtherCall(s, s', p, q);
    }
  }

  lemma OfOthers(log: seq<Entry>, more: seq<Entry>, p: nat, q: nat)
    requires |more| <= 1 && (forall e :: e in more ==> e.call == p) && p != q
    ensures Of(log + more, q) == Of(log, q)
  {
    if more == [] {
      assert log + more == log;
    } else {
      assert more == [more[0]] && more[0] in more;
      OfAppend(log, more[0], q);
    }
  }

  /** A call outside the mutex section does not notice what others do with the ring. */
  lemma OtherCall(s: System, s': System, p: nat, q: nat)
    requires Tokens(s) && p < |s.calls| && q < |s.calls| && p != q && Has(s.calls[p], Mutex)
    requires |s'.calls| == |s.calls| && s'.calls[q] == s.calls[q]
    requires |s.ring.buffer| == |s'.ring.buffer| == BUFFER_SIZE && CallOk(s, q)
    requires Of(s'.sent, q) == Of(s.sent, q) && Of(s'.received, q) == Of(s.received, q)
    ensures CallOk(s', q)
  {
    hide Of, Held;
    Alone(s, p, q);
  }

  /** A writer stores a character in the slot of writeIdx. */
  lemma StoreKeeps(s: System, p: nat)
    requires Inv(s) && Enabled(s, p) && s.calls[p].job.Writer? && s.calls[p].stage == Copy
    ensures Inv(Step(s, p))
  {
    hide Of, Unread, Tokens, Fifo, ReaderOk;
    assert CallOk(s, p);
    var s' := Step(s, p);
    StoreFits(s, p, s');
    assert CallOk(s', p);
    assert s.sent + [] == s.sent && s.received + [] == s.received;
    OthersAfter(s, p, s', [], []);
  }

  lemma StoreFits(s: System, p: nat, s': System)
    requires RingOk(s) && Unread(s) && Fifo(s) && Tokens(s)
    requires p < |s.calls| && s.calls[p].job.Writer? && s.calls[p].stage == Copy && s.calls[p].job.pos < |s.calls[p].job.data|
    requires s' == StepWriter(s, p)
    ensures RingOk(s') && Unread(s') && Fifo(s') && Tokens(s')
  {
    HeldAll(s.calls, p, s'.calls[p]);
    HolderCounts(s.calls, p, Slot);
    assert |s.sent| < |s.received| + BUFFER_SIZE;
    hide Tokens, Held;
    forall k | |s.received| <= k < |s.sent|
      ensures s'.ring.buffer[k % BUFFER_SIZE] == s.sent[k].c
    {
      OtherSlot(k, |s.sent|);
    }
  }

  lemma OtherSlot(k: nat, w: nat)
    requires k < w < k + BUFFER_SIZE
    ensures k % BUFFER_SIZE != w % BUFFER_SIZE
  {
  }

  /** A writer moves writeIdx past the character it stored. */
  lemma WriteKeeps(s: System, p: nat)
    requires Inv(s) && Enabled(s, p) && s.calls[p].job.Writer? && s.calls[p].stage == Advance
    ensures Inv(Step(s, p))
  {
    hide Of, Unread, Tokens, Fifo, ReaderOk;
    assert CallOk(s, p) && InBounds(s.ring);
    var job := s.calls[p].job;
    var s', e := Step(s, p), Entry(p, job.data[job.pos - 1]);
    assert s'.sent == s.sent + [e];
    WriteMovesOn(s, p, s', e);
    OfAppend(s.sent, e, p);
    assert job.data[..job.pos] == job.data[..job.pos - 1] + [e.c];
    assert CallOk(s', p);
    assert s.received + [] == s.received;
    OthersAfter(s, p, s', [e], []);
  }

  lemma WriteMovesOn(s: System, p: nat, s': System, e: Entry)
    requires RingOk(s) && Unread(s) && Fifo(s) && Tokens(s)
    requires p < |s.calls| && s.calls[p].job.Writer? && s.calls[p].stage == Advance
    requires s.ring.buffer[|s.sent| % BUFFER_SIZE] == e.c
    requires s' == SetCall(s, p, Call(s.calls[p].job, Leave)).(ring := s.ring.(writeIdx := Next(s.ring.writeIdx)), sent := s.sent + [e])
    ensures RingOk(s') && Unread(s') && Fifo(s') && Tokens(s')
  {
    hide Next;
    NextSlot(|s.sent|);
    HeldAll(s.calls, p, s'.calls[p]);
    HolderCounts(s.calls, p, Slot);
  }

  /** Every statement of every call keeps the invariant. */
  lemma StepKeeps(s: System, p: nat)
    requires Inv(s) && Enabled(s, p)
    ensures InBounds(s.ring) && Inv(Step(s, p))
  {
    hide Step, Unread, Fifo, Tokens;
    assert CallOk(s, p);
    if Quiet(s.calls[p]) {
      if s.calls[p].job.Reader? { QuietReader(s, p); } else { QuietWriter(s, p); }
    } else if s.calls[p].job.Reader? {
      ReadKeeps(s, p);
    } else if s.calls[p].stage == Copy {
      StoreKeeps(s, p);
    } else {
      WriteKeeps(s, p);
    }
  }

  lemma InitialInv(s: System)
    requires Initial(s)
    ensures Inv(s)
  {
    NoneHas(s.calls, Mutex);
    NoneHas(s.calls, Item);
    NoneHas(s.calls, Slot);
  }

  // ---------------------------------------------------------------- runs

  ghost predicate AllowedRun(s: System, ps: seq<nat>)
    requires Inv(s)
    decreases |ps|
  {
    hide Step;
    ps == [] || (Enabled(s, ps[0]) && (StepKeeps(s, ps[0]); AllowedRun(Step(s, ps[0]), ps[1..])))
  }

  /** The state after the calls have each executed a statement in the order of ps. */
  ghost function Run(s: System, ps: seq<nat>): (s': System)
    requires Inv(s) && AllowedRun(s, ps)
    ensures Inv(s')
    decreases |ps|
  {
    hide Step;
    if ps == [] then s
    else
      StepKeeps(s, ps[0]);
      Run(Step(s, ps[0]), ps[1..])
  }

  function Chars(log: seq<Entry>): (cs: seq<char>)
    ensures |cs| == |log|
    ensures forall k :: 0 <= k < |log| ==> cs[k] == log[k].c
  {
    seq(|log|, k requires 0 <= k < |log| => log[k].c)
  }

  /** The characters taken out are a prefix of those put in, whatever the interleaving, and at
      most 40 are on their way. */
  lemma FifoDelivery(s: System, ps: seq<nat>)
    requires Initial(s) && Inv(s) && AllowedRun(s, ps)
    ensures var e := Run(s, ps); Chars(e.received) <= Chars(e.sent) && |e.sent| - |e.received| <= 40
  {
    hide Initial, Unread, Tokens, CallsOk;
    var e := Run(s, ps);
    assert Fifo(e);
  }

  /** A reader that finds readIdx at writeIdx has emptied the pipe: it is never full then. */
  lemma EndMeansEmpty(s: System, p: nat)
    requires Inv(s) && p < |s.calls| && s.calls[p].job.Reader? && s.calls[p].stage == Check
    ensures s.ring.readIdx == s.ring.writeIdx <==> Chars(s.received) == Chars(s.sent)
  {
    hide Unread, CallsOk;
    HolderCounts(s.calls, p, Slot);
    if |s.received| == |s.sent| {
      assert forall k | 0 <= k < |s.sent| :: s.received[k].c == s.sent[k].c;
    }
  }

  /** Call p is a read that has just taken a character out and left the pipe empty. */
  predicate LeftEmpty(s: System, p: nat) {
    p < |s.calls| && s.calls[p].job.Reader? && s.calls[p].stage == Check && Chars(s.received) == Chars(s.sent)
  }

  /** Step n of the run is one at which read p had left the pipe empty, with all it has got by the
      end of the run. */
  ghost predicate EndedAt(s: System, ps: seq<nat>, p: nat, n: nat)
    requires Inv(s) && AllowedRun(s, ps) && n < |ps|
  {
    RunPrefix(s, ps, n);
    var e := Run(s, ps[..n]);
    && ps[n] == p && LeftEmpty(e, p) && p < |Run(s, ps).calls| && Run(s, ps).calls[p].job.Reader?
    && e.calls[p].job.buf == Run(s, ps).calls[p].job.buf
  }

  ghost predicate SawEnd(s: System, ps: seq<nat>, p: nat)
    requires Inv(s) && AllowedRun(s, ps)
  {
    exists n :: 0 <= n < |ps| && EndedAt(s, ps, p, n)
  }

  lemma {:induction false} RunPrefix(s: System, ps: seq<nat>, n: nat)
    requires Inv(s) && AllowedRun(s, ps) && n <= |ps|
    ensures AllowedRun(s, ps[..n]) && AllowedRun(Run(s, ps[..n]), ps[n..]) && Run(s, ps) == Run(Run(s, ps[..n]), ps[n..])
    decreases n
  {
    hide Inv, Step, Enabled;
    if n == 0 {
      assert ps[..0] == [] && ps[0..] == ps;
    } else {
      StepKeeps(s, ps[0]);
      RunPrefix(Step(s, ps[0]), ps[1..], n - 1);
      assert ps[..n][0] == ps[0] && ps[..n][1..] == ps[1..][..n - 1] && ps[1..][n - 1..] == ps[n..];
    }
  }

  /** The last step of a run. */
  lemma RunLast(s: System, ps: seq<nat>)
    requires Inv(s) && AllowedRun(s, ps) && ps != []
    ensures var m := |ps| - 1;
            && AllowedRun(s, ps[..m]) && InBounds(Run(s, ps[..m]).ring) && Enabled(Run(s, ps[..m]), ps[m])
            && Run(s, ps) == Step(Run(s, ps[..m]), ps[m])
  {
    hide Inv, Step, Enabled;
    var m := |ps| - 1;
    RunPrefix(s, ps, m);
    var e := Run(s, ps[..m]);
    assert ps[m..] == [ps[m]] && ps[m..][1..] == [];
    StepKeeps(e, ps[m]);
  }

  /** What one step does to a read: its flag is raised exactly by the step at which it has left the
      pipe empty, and from then on it gets nothing more. */
  lemma FlagStep(s: System, q: nat, p: nat)
    requires Inv(s) && Enabled(s, q) && p < |s.calls| && s.calls[p].job.Reader?
    ensures InBounds(s.ring) && p < |Step(s, q).calls| && Step(s, q).calls[p].job.Reader?
    ensures var job, job' := s.calls[p].job, Step(s, q).calls[p].job;
            && (job'.reachedEnd <==> job.reachedEnd || (q == p && LeftEmpty(s, p)))
            && (q == p && LeftEmpty(s, p) ==> !job.reachedEnd && job' == job.(reachedEnd := true))
            && (job.reachedEnd ==> job' == job)
  {
    hide Unread, Fifo, Tokens, WriterOk, Of;
    assert CallOk(s, p);
    if q == p && s.calls[p].stage == Check { EndMeansEmpty(s, p); }
  }

  /** A read's flag says that it saw the end: that a character it took out left the pipe empty. */
  lemma {:induction false} FlagMeans(s: System, ps: seq<nat>, p: nat)
    requires Initial(s) && Inv(s) && AllowedRun(s, ps) && p < |s.calls| && s.calls[p].job.Reader?
    ensures p < |Run(s, ps).calls| && Run(s, ps).calls[p].job.Reader?
    ensures Run(s, ps).calls[p].job.reachedEnd <==> SawEnd(s, ps, p)
    decreases |ps|
  {
    hide Inv, Step, Enabled, LeftEmpty;
    if ps == [] {
      assert Fresh(s.calls[p]);
    } else {
      var m := |ps| - 1;
      var before := ps[..m];
      RunLast(s, ps);
      FlagMeans(s, before, p);
      var e := Run(s, before);
      FlagStep(e, ps[m], p);
      SawEarlier(s, ps, p);
      if Run(s, ps).calls[p].job.reachedEnd && !e.calls[p].job.reachedEnd {
        assert EndedAt(s, ps, p, m);
      }
    }
  }

  /** What a run without its last step has seen, and what the whole run has. */
  lemma SawEarlier(s: System, ps: seq<nat>, p: nat)
    requires Inv(s) && AllowedRun(s, ps) && ps != [] && AllowedRun(s, ps[..|ps| - 1])
    requires var e, r := Run(s, ps[..|ps| - 1]), Run(s, ps);
             && p < |e.calls| && e.calls[p].job.Reader? && p < |r.calls| && r.calls[p].job.Reader?
             && (e.calls[p].job.reachedEnd <==> SawEnd(s, ps[..|ps| - 1], p))
             && (e.calls[p].job.reachedEnd ==> r.calls[p].job == e.calls[p].job)
             && (r.calls[p].job.reachedEnd <==> e.calls[p].job.reachedEnd || (ps[|ps| - 1] == p && LeftEmpty(e, p)))
    ensures SawEnd(s, ps[..|ps| - 1], p) ==> SawEnd(s, ps, p)
    ensures SawEnd(s, ps, p) ==> Run(s, ps).calls[p].job.reachedEnd
  {
    hide Inv, Step, Enabled, LeftEmpty;
    var m := |ps| - 1;
    var before := ps[..m];
    if SawEnd(s, before, p) {
      var n :| 0 <= n < |before| && EndedAt(s, before, p, n);
      assert before[..n] == ps[..n] && before[n] == ps[n];
      assert EndedAt(s, ps, p, n);
    }
    if SawEnd(s, ps, p) {
      var n :| 0 <= n < |ps| && EndedAt(s, ps, p, n);
      if n < m { EarlierFlag(s, ps, p, n); }
    }
  }

  /** A read that had left the pipe empty has its flag from its next step on. */
  lemma EarlierFlag(s: System, ps: seq<nat>, p: nat, n: nat)
    requires Inv(s) && AllowedRun(s, ps) && n < |ps| && EndedAt(s, ps, p, n)
    ensures p < |Run(s, ps).calls| && Run(s, ps).calls[p].job.Reader? && Run(s, ps).calls[p].job.reachedEnd
  {
    hide Inv, Step, Enabled, LeftEmpty;
    RunPrefix(s, ps, n);
    var e := Run(s, ps[..n]);
    LeftEmptyIs(e, p);
    assert ps[n..][0] == p && ps[n..][1..] == ps[n + 1..];
    FlagStep(e, p, p);
    StepKeeps(e, p);
    FlagStays(Step(e, p), ps[n + 1..], p);
  }

  lemma LeftEmptyIs(s: System, p: nat)
    requires LeftEmpty(s, p)
    ensures p < |s.calls| && s.calls[p].job.Reader? && s.calls[p].stage == Check
  {
  }

  lemma {:induction false} FlagStays(s: System, ps: seq<nat>, p: nat)
    requires Inv(s) && AllowedRun(s, ps) && p < |s.calls| && s.calls[p].job.Reader? && s.calls[p].job.reachedEnd
    ensures p < |Run(s, ps).calls| && Run(s, ps).calls[p].job == s.calls[p].job
    decreases |ps|
  {
    hide Inv, Step, Enabled, LeftEmpty;
    if ps != [] {
      FlagStep(s, ps[0], p);
      StepKeeps(s, ps[0]);
      FlagStays(Step(s, ps[0]), ps[1..], p);
    }
  }

  /** A finished write has put in all its characters in order; a finished read returns the
      characters it took out, in order, at least one, and fewer than asked only if the last of them
      left the pipe empty. */
  lemma CallsDeliver(s: System, ps: seq<nat>, p: nat)
    requires Initial(s) && Inv(s) && AllowedRun(s, ps) && p < |s.calls|
    requires p < |Run(s, ps).calls| && Run(s, ps).calls[p].stage == Done
    ensures var e := Run(s, ps);
            match e.calls[p].job
            case Reader(len, buf, reachedEnd) =>
              && buf == Of(e.received, p)
              && (if len <= 0 then buf == [] else 0 < |buf| <= len && (|buf| == len || SawEnd(s, ps, p)))
            case Writer(data, pos) => pos == |data| && Of(e.sent, p) == data
  {
    hide Initial, Unread, Tokens, Fifo, EndedAt;
    var e := Run(s, ps);
    assert CallOk(e, p);
    if e.calls[p].job.Reader? {
      SameKind(s, ps, p);
      FlagMeans(s, ps, p);
    }
  }

  lemma KindStep(s: System, q: nat)
    requires Inv(s) && Enabled(s, q)
    ensures InBounds(s.ring) && |Step(s, q).calls| == |s.calls|
    ensures forall p | 0 <= p < |s.calls| :: Step(s, q).calls[p].job.Reader? <==> s.calls[p].job.Reader?
  {
    hide Unread, Fifo, Tokens, CallsOk;
  }

  lemma {:induction false} SameKind(s: System, ps: seq<nat>, p: nat)
    requires Inv(s) && AllowedRun(s, ps) && p < |s.calls|
    ensures p < |Run(s, ps).calls| && (Run(s, ps).calls[p].job.Reader? <==> s.calls[p].job.Reader?)
    decreases |ps|
  {
    hide Inv, Enabled;
    if ps != [] {
      StepKeeps(s, ps[0]);
      KindStep(s, ps[0]);
      SameKind(Step(s, ps[0]), ps[1..], p);
    }
  }

  /** The statements after the check, one by one. */
  lemma AfterCheck(s: System, p: nat)
    requires InBounds(s.ring) && p < |s.calls| && s.calls[p].job.Reader? && s.calls[p].stage == Check
    ensures Enabled(s, p) && Enabled(Step(s, p), p) && Enabled(Step(Step(s, p), p), p)
    ensures var t, job := Step(Step(Step(s, p), p), p), s.calls[p].job;
            && |t.calls| == |s.calls| && t.received == s.received && t.calls[p].job.Reader? && t.calls[p].job.buf == job.buf
            && (t.calls[p].stage == if |job.buf| < job.len && !job.reachedEnd && s.ring.readIdx != s.ring.writeIdx then AtCount else Done)
  {
  }

  lemma ThreeSteps(s: System, p: nat)
    requires Inv(s) && InBounds(s.ring)
    requires Enabled(s, p) && Enabled(Step(s, p), p) && Enabled(Step(Step(s, p), p), p)
    ensures AllowedRun(s, [p, p, p]) && Run(s, [p, p, p]) == Step(Step(Step(s, p), p), p)
  {
    hide Inv, Enabled, Step;
    StepKeeps(s, p);
    var s1 := Step(s, p);
    StepKeeps(s1, p);
    var s2 := Step(s1, p);
    StepKeeps(s2, p);
    assert [p, p, p][1..] == [p, p] && [p, p][1..] == [p] && [p][1..] == [];
    assert AllowedRun(s2, [p]) && Run(s2, [p]) == Step(s2, p);
    assert AllowedRun(s1, [p, p]) && Run(s1, [p, p]) == Step(s2, p);
  }

  /** A read that has just taken a character goes on for another exactly if it wants more and the
      pipe still holds one; otherwise it is done. Nobody else has to step in between. */
  lemma StopsExactlyAtEnd(s: System, p: nat)
    requires Inv(s) && p < |s.calls| && s.calls[p].job.Reader? && s.calls[p].stage == Check
    ensures AllowedRun(s, [p, p, p]) && p < |Run(s, [p, p, p]).calls|
    ensures Run(s, [p, p, p]).calls[p].stage ==
            if |s.calls[p].job.buf| < s.calls[p].job.len && Chars(s.received) != Chars(s.sent) then AtCount else Done
    ensures Run(s, [p, p, p]).received == s.received && Run(s, [p, p, p]).calls[p].job.Reader?
    ensures Run(s, [p, p, p]).calls[p].job.buf == s.calls[p].job.buf
  {
    hide Unread, Fifo, Tokens, WriterOk, Of, Step, Run, AllowedRun, Chars;
    assert CallOk(s, p);
    EndMeansEmpty(s, p);
    AfterCheck(s, p);
    ThreeSteps(s, p);
  }

  /** A writer about to store never hits a slot that still holds an unread character. */
  lemma NoOverwrite(s: System, p: nat, k: nat)
    requires Inv(s) && Enabled(s, p) && s.calls[p].job.Writer? && s.calls[p].stage == Copy
    requires |s.received| <= k < |s.sent|
    ensures s.ring.writeIdx != k % BUFFER_SIZE
    ensures Step(s, p).ring.buffer[k % BUFFER_SIZE] == s.sent[k].c
  {
    hide CallsOk, Fifo;
    HolderCounts(s.calls, p, Slot);
    assert s.ring.buffer[k % BUFFER_SIZE] == s.sent[k].c;
  }

  /** A reader about to copy finds the oldest character that was put in and not taken out. */
  lemma ReadsOldest(s: System, p: nat)
    requires Inv(s) && Enabled(s, p) && s.calls[p].job.Reader? && s.calls[p].stage == Copy
    ensures |s.received| < |s.sent| && s.ring.buffer[s.ring.readIdx] == s.sent[|s.received|].c
  {
    hide CallsOk, Fifo;
    HolderCounts(s.calls, p, Item);
    var k := |s.received|;
    assert s.ring.buffer[k % BUFFER_SIZE] == s.sent[k].c;
  }

  /** When no living call can go on, every unfinished one waits for its counting semaphore: readers
      because all that was written is read or was handed to a reader killed before it ran, writers
      likewise because of the slots. `dead` are the calls whose process was killed, which the kernel
      does only while they wait. */
  lemma StuckAfterKills(s: System, dead: set<nat>)
    requires Inv(s) && (forall p: nat :: p !in dead ==> !Enabled(s, p))
    requires forall p | 0 <= p < |s.calls| && p in dead :: s.calls[p].stage == AtCount || s.calls[p].stage == AtMutex
    ensures forall p | 0 <= p < |s.calls| && p !in dead :: s.calls[p].stage == Done || s.calls[p].stage == AtCount
    ensures forall p | 0 <= p < |s.calls| && p !in dead && s.calls[p].stage == AtCount ::
              |s.sent| - |s.received| == if s.calls[p].job.Reader? then Held(s.calls, Item) else BUFFER_SIZE - Held(s.calls, Slot)
    ensures forall p | 0 <= p < |s.calls| && (Has(s.calls[p], Item) || Has(s.calls[p], Slot)) :: p in dead
  {
    hide CallsOk, Unread, Fifo;
    forall p | 0 <= p < |s.calls|
      ensures !Has(s.calls[p], Mutex)
    {
      assert p !in dead ==> !Enabled(s, p);
    }
    NoneHas(s.calls, Mutex);
    forall p | 0 <= p < |s.calls| && p !in dead
      ensures s.calls[p].stage == Done || s.calls[p].stage == AtCount
      ensures s.calls[p].stage == AtCount ==> (if s.calls[p].job.Reader? then s.writtenCount == 0 else s.emptyCount == 0)
    {
      assert !Enabled(s, p);
    }
  }

  /** With no call killed: readers wait on an empty pipe, or writers on a full one, never both. */
  lemma StuckOnlyWhenItShould(s: System)
    requires Inv(s) && (forall p: nat :: !Enabled(s, p))
    ensures forall p | 0 <= p < |s.calls| :: s.calls[p].stage == Done || s.calls[p].stage == AtCount
    ensures forall p | 0 <= p < |s.calls| && s.calls[p].stage == AtCount ::
              |s.sent| - |s.received| == if s.calls[p].job.Reader? then 0 else 40
  {
    hide Inv, Enabled;
    StuckAfterKills(s, {});
    NoneHas(s.calls, Item);
    NoneHas(s.calls, Slot);
  }

  // ---------------------------------------------------------------- the pipe in memory

  /** Call p alone can bring s to s'. */
  ghost predicate Proceeds(s: System, p: nat, s': System)
    requires Inv(s)
  {
    exists k: nat :: AllowedRun(s, Times(k, p)) && Run(s, Times(k, p)) == s'
  }

  lemma {:induction false} OneMore(s: System, p: nat, k: nat)
    requires Inv(s) && AllowedRun(s, Times(k, p)) && Enabled(Run(s, Times(k, p)), p)
    ensures AllowedRun(s, Times(k + 1, p)) && Run(s, Times(k + 1, p)) == Step(Run(s, Times(k, p)), p)
    decreases k
  {
    hide Inv, Step, Enabled;
    if k == 0 {
      StepKeeps(s, p);
      assert Times(1, p) == [p] && [p][1..] == [];
    } else {
      StepKeeps(s, p);
      assert Times(k, p)[1..] == Times(k - 1, p) && Times(k + 1, p)[1..] == Times(k, p);
      OneMore(Step(s, p), p, k - 1);
    }
  }

  lemma ProceedsFurther(s: System, p: nat, s': System)
    requires Inv(s) && Proceeds(s, p, s') && Enabled(s', p)
    ensures Inv(s') && InBounds(s'.ring)
    ensures Inv(Step(s', p)) && Proceeds(s, p, Step(s', p))
  {
    hide Step, Enabled, Unread, Fifo, CallsOk, Tokens;
    var k: nat :| AllowedRun(s, Times(k, p)) && Run(s, Times(k, p)) == s';
    OneMore(s, p, k);
    StepKeeps(s', p);
  }

  lemma ProceedsStart(s: System, p: nat)
    requires Inv(s)
    ensures Proceeds(s, p, s)
  {
    assert AllowedRun(s, Times(0, p)) && Run(s, Times(0, p)) == s;
  }

  /** A pipe with its buffer and semaphore values in memory, and the calls in progress on it. */
  class Pipe {
    var buffer: array<char>
    var readIdx: nat
    var writeIdx: nat
    var mutex: nat
    var writtenCount: nat
    var emptyCount: nat
    var calls: seq<Call>
    ghost var sent: seq<Entry>
    ghost var received: seq<Entry>

    ghost function State(): System
      reads this, buffer
    {
      System(Ring(buffer[..], readIdx, writeIdx), mutex, writtenCount, emptyCount, calls, sent, received)
    }

    ghost predicate Valid()
      reads this, buffer
    {
      Inv(State())
    }

    /** pipeInit */
    constructor (pending: seq<Call>)
      requires forall p | 0 <= p < |pending| :: Fresh(pending[p])
      ensures Valid() && Initial(State()) && calls == pending && fresh(buffer)
    {
      buffer := new char[BUFFER_SIZE];
      readIdx, writeIdx := 0, 0;
      mutex, writtenCount, emptyCount := 1, 0, BUFFER_SIZE;
      calls := pending;
      sent, received := [], [];
      new;
      InitialInv(State());
    }

    /** readPipe for call p, from its start or from where it was blocked, until it is finished or
        has to wait. */
    method ReadPipe(p: nat)
      requires Valid() && p < |calls| && calls[p].job.Reader?
      requires calls[p].stage == AtCount || calls[p].stage == AtMutex || calls[p].stage == Done
      modifies this, buffer
      ensures buffer == old(buffer) && Valid()
      ensures Proceeds(old(State()), p, State()) && !Enabled(State(), p)
    {
      hide Inv, Proceeds, Step;
      ghost var s0 := State();
      ProceedsStart(s0, p);
      Unfinished(s0, p);
      while calls[p].stage != Done
        invariant Valid() && buffer == old(buffer) && Proceeds(s0, p, State())
        invariant p < |calls| && calls[p].job.Reader?
        invariant calls[p].stage == AtCount || calls[p].stage == AtMutex || calls[p].stage == Done
        invariant calls[p].stage != Done ==> |calls[p].job.buf| < calls[p].job.len
        decreases calls[p].job.len - |calls[p].job.buf|, calls[p].stage != Done
      {
        if calls[p].stage == AtCount {
          if writtenCount == 0 { return; }
          Passes(s0, State(), p);
          writtenCount := writtenCount - 1;
          calls := calls[p := calls[p].(stage := AtMutex)];
        }
        if mutex == 0 { return; }
        TakeChar(s0, p);
        FreeSlot(s0, p);
      }
    }

    /** The loop's body once a character is there: take it out under the mutex. */
    method TakeChar(ghost s0: System, p: nat)
      requires Inv(s0) && Proceeds(s0, p, State())
      requires Valid() && p < |calls| && calls[p].job.Reader? && calls[p].stage == AtMutex && mutex > 0
      modifies this, buffer
      ensures buffer == old(buffer) && Valid() && Proceeds(s0, p, State())
      ensures |calls| == |old(calls)| && calls[p].job.Reader? && calls[p].stage == Leave
      ensures calls[p].job.len == old(calls[p].job.len) && |calls[p].job.buf| == |old(calls[p].job.buf)| + 1
    {
      hide Inv, Proceeds, Step, StepWriter;
      Passes(s0, State(), p);
      mutex := mutex - 1;
      var job := calls[p].job;
      calls := calls[p := Call(job, Copy)];
      Passes(s0, State(), p);
      job := job.(buf := job.buf + [buffer[readIdx]]);
      calls := calls[p := Call(job, Advance)];
      Passes(s0, State(), p);
      readIdx := (readIdx + 1) % BUFFER_SIZE;
      received := received + [Entry(p, job.buf[|job.buf| - 1])];
      calls := calls[p := Call(job, Check)];
      Passes(s0, State(), p);
      if readIdx == writeIdx { job := job.(reachedEnd := true); }
      calls := calls[p := Call(job, Leave)];
    }

    /** The end of the loop's body: give the mutex back and announce the free slot. */
    method FreeSlot(ghost s0: System, p: nat)
      requires Inv(s0) && Proceeds(s0, p, State())
      requires Valid() && p < |calls| && calls[p].job.Reader? && calls[p].stage == Leave
      modifies this
      ensures buffer == old(buffer) && Valid() && Proceeds(s0, p, State())
      ensures |calls| == |old(calls)| && calls[p].job == old(calls[p].job)
      ensures calls[p].stage == (if |calls[p].job.buf| < calls[p].job.len && !calls[p].job.reachedEnd then AtCount else Done)
    {
      hide Inv, Proceeds, Step, StepWriter;
      var job := calls[p].job;
      Passes(s0, State(), p);
      mutex := mutex + 1;
      calls := calls[p := Call(job, Signal)];
      Passes(s0, State(), p);
      emptyCount := emptyCount + 1;
      calls := calls[p := Call(job, if |job.buf| < job.len && !job.reachedEnd then AtCount else Done)];
    }

    /** writePipe for call p, from its start or from where it was blocked, until it is finished or
        has to wait. */
    method WritePipe(p: nat)
      requires Valid() && p < |calls| && calls[p].job.Writer?
      requires calls[p].stage == AtCount || calls[p].stage == AtMutex || calls[p].stage == Done
      modifies this, buffer
      ensures buffer == old(buffer) && Valid()
      ensures Proceeds(old(State()), p, State()) && !Enabled(State(), p)
    {
      hide Inv, Proceeds, Step;
      ghost var s0 := State();
      ProceedsStart(s0, p);
      Unfinished(s0, p);
      while calls[p].stage != Done
        invariant Valid() && buffer == old(buffer) && Proceeds(s0, p, State())
        invariant p < |calls| && calls[p].job.Writer?
        invariant calls[p].stage == AtCount || calls[p].stage == AtMutex || calls[p].stage == Done
        invariant calls[p].stage != Done ==> calls[p].job.pos < |calls[p].job.data|
        decreases |calls[p].job.data| - calls[p].job.pos, calls[p].stage != Done
      {
        if calls[p].stage == AtCount {
          if emptyCount == 0 { return; }
          Passes(s0, State(), p);
          emptyCount := emptyCount - 1;
          calls := calls[p := calls[p].(stage := AtMutex)];
        }
        if mutex == 0 { return; }
        PutChar(s0, p);
        Announce(s0, p);
      }
    }

    /** The loop's body once a slot is free: fill it under the mutex. */
    method PutChar(ghost s0: System, p: nat)
      requires Inv(s0) && Proceeds(s0, p, State())
      requires Valid() && p < |calls| && calls[p].job.Writer? && calls[p].stage == AtMutex && mutex > 0
      modifies this, buffer
      ensures buffer == old(buffer) && Valid() && Proceeds(s0, p, State())
      ensures |calls| == |old(calls)| && calls[p].job.Writer? && calls[p].stage == Leave
      ensures calls[p].job.data == old(calls[p].job.data) && calls[p].job.pos == old(calls[p].job.pos) + 1
    {
      hide Inv, Proceeds, Step, StepReader;
      Passes(s0, State(), p);
      mutex := mutex - 1;
      var job := calls[p].job;
      calls := calls[p := Call(job, Copy)];
      Passes(s0, State(), p);
      buffer[writeIdx] := job.data[job.pos];
      job := job.(pos := job.pos + 1);
      calls := calls[p := Call(job, Advance)];
      Passes(s0, State(), p);
      writeIdx := (writeIdx + 1) % BUFFER_SIZE;
      sent := sent + [Entry(p, job.data[job.pos - 1])];
      calls := calls[p := Call(job, Leave)];
    }

    /** The end of the loop's body: give the mutex back and announce the character. */
    method Announce(ghost s0: System, p: nat)
      requires Inv(s0) && Proceeds(s0, p, State())
      requires Valid() && p < |calls| && calls[p].job.Writer? && calls[p].stage == Leave
      modifies this
      ensures buffer == old(buffer) && Valid() && Proceeds(s0, p, State())
      ensures |calls| == |old(calls)| && calls[p].job == old(calls[p].job)
      ensures calls[p].stage == (if calls[p].job.pos < |calls[p].job.data| then AtCount else Done)
    {
      hide Inv, Proceeds, Step, StepReader;
      var job := calls[p].job;
      Passes(s0, State(), p);
      mutex := mutex + 1;
      calls := calls[p := Call(job, Signal)];
      Passes(s0, State(), p);
      writtenCount := writtenCount + 1;
      calls := calls[p := Call(job, if job.pos < |job.data| then AtCount else Done)];
    }
  }

  /** The next statement of call p, spelled out. */
  lemma Passes(s0: System, s: System, p: nat)
    requires Inv(s0) && Proceeds(s0, p, s) && Enabled(s, p)
    ensures Inv(s) && InBounds(s.ring)
    ensures var s' := if s.calls[p].job.Reader? then StepReader(s, p) else StepWriter(s, p);
            Inv(s') && Proceeds(s0, p, s')
    ensures s.calls[p].job.Reader? && s.calls[p].stage == Advance ==> s.calls[p].job.buf != []
    ensures s.calls[p].job.Writer? ==>
              && (s.calls[p].stage == Copy ==> s.calls[p].job.pos < |s.calls[p].job.data|)
              && (s.calls[p].stage == Advance ==> 0 < s.calls[p].job.pos <= |s.calls[p].job.data|)
              && s.calls[p].stage != Check
  {
    hide Proceeds, StepReader, StepWriter, Unread, Tokens, Fifo;
    ProceedsFurther(s0, p, s);
    assert CallOk(s, p);
  }

  lemma Unfinished(s: System, p: nat)
    requires Inv(s) && p < |s.calls| && (s.calls[p].stage == AtCount || s.calls[p].stage == AtMutex || s.calls[p].stage == Done)
    ensures s.calls[p].stage != Done ==>
              match s.calls[p].job
              case Reader(len, buf, reachedEnd) => |buf| < len
              case Writer(data, pos) => pos < |data|
  {
    hide Unread, Tokens, Fifo;
    assert CallOk(s, p);
  }
}
