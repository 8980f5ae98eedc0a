/** Whole runs of the core: where every accepted event ends up, and what that means for
    the buffer requests that travel through the ring. */
module EdgeCoreRuns {
  import opened Text
  import opened EdgeCore

  /** A run so far. `accepted` numbers the queued events; `taken` and `overwritten` are
      the numbers of those delivered and of those replaced by QUEUE_OVERFLOW, `marked`
      says that the front of the queue is such a replacement, and `gone` holds the
      detached ids. */
  datatype Trace = Trace(core: Core, minted: nat, accepted: seq<Event>, out: seq<Event>,
                         taken: seq<nat>, overwritten: seq<nat>, marked: bool, gone: set<nat>)

  function Base(t: Trace): int {
    |t.accepted| - |t.core.queue|
  }

  function TraceStep(t: Trace, op: Op): Trace
    requires t.core.qsz > 0 && Base(t) >= 0
  {
    var c := t.core;
    var ev := Offered(c, op);
    var full := |c.queue| >= c.qsz;
    var pulls := op.Pull? && c.queue != [];
    Trace(
      Step(c, op),
      if op.Alloc? && ev.Some? then t.minted + 1 else t.minted,
      if ev.Some? && !full then t.accepted + [ev.value] else t.accepted,
      if pulls then t.out + [c.queue[0]] else t.out,
      if pulls && !t.marked then t.taken + [Base(t)] else t.taken,
      if ev.Some? && full && !t.marked then t.overwritten + [Base(t)] else t.overwritten,
      (ev.Some? && full) || (t.marked && !pulls),
      if op.Detach? && DetachOk(c, op.id) then t.gone + {op.id} else t.gone)
  }

  ghost function Run(queueSize: nat, ops: seq<Op>): (t: Trace)
    ensures t.core.qsz > 0 && Base(t) >= 0 && |t.core.bufs| == MAX_BUFS
  {
    if ops == [] then Trace(NewCore(queueSize), 0, [], [], [], [], false, {})
    else TraceStep(Run(queueSize, ops[..|ops| - 1]), ops[|ops| - 1])
  }

  // ----- the ring -----------------------------------------------------------------------

  /** The delivered events that are not QUEUE_OVERFLOW. */
  function Proper(out: seq<Event>): seq<Event> {
    if out == [] then []
    else Proper(out[..|out| - 1]) + if out[|out| - 1].QueueOverflow? then [] else [out[|out| - 1]]
  }

  ghost predicate PicksFrom(picked: seq<Event>, accepted: seq<Event>, at: seq<nat>) {
    && |picked| == |at| && (forall i | 0 <= i < |at| :: at[i] < |accepted|)
    && forall i | 0 <= i < |at| :: picked[i] == accepted[at[i]]
  }

  ghost predicate QueueOk(t: Trace) {
    var q := t.core.queue;
    && 1 <= t.core.qsz <= MAX_Q && |q| <= t.core.qsz && |q| <= |t.accepted|
    && (t.marked ==> q != [] && q[0] == QueueOverflow)
    && (forall k | (if t.marked then 1 else 0) <= k < |q| :: q[k] == t.accepted[Base(t) + k])
    && (forall i | 0 <= i < |t.accepted| :: !t.accepted[i].QueueOverflow?)
  }

  /** Every accepted event is in exactly one place: delivered, overwritten or queued. */
  ghost predicate PlacesOk(t: Trace) {
    && Base(t) >= 0
    && Increasing(t.taken, Base(t))
    && Increasing(t.overwritten, Base(t) + if t.marked then 1 else 0)
    && (forall i | 0 <= i < Base(t) :: i in t.taken <==> i !in t.overwritten)
    && (t.marked ==> Base(t) in t.overwritten)
    && |t.overwritten| <= t.core.dropped
    && PicksFrom(Proper(t.out), t.accepted, t.taken)
  }

  lemma EmitQueue(t: Trace, op: Op)
    requires QueueOk(t) && PlacesOk(t) && Offered(t.core, op).Some?
    ensures QueueOk(TraceStep(t, op))
  {
    var t' := TraceStep(t, op);
    assert t'.core.queue == if |t.core.queue| >= t.core.qsz then t.core.queue[0 := QueueOverflow]
                            else t.core.queue + [Offered(t.core, op).value];
  }

  lemma EmitPlaces(t: Trace, op: Op)
    requires QueueOk(t) && PlacesOk(t) && Offered(t.core, op).Some?
    ensures PlacesOk(TraceStep(t, op))
  {
    var t' := TraceStep(t, op);
    assert |t'.core.queue| == if |t.core.queue| >= t.core.qsz then |t.core.queue| else |t.core.queue| + 1;
    if |t.core.queue| >= t.core.qsz && !t.marked {
      assert t'.overwritten == t.overwritten + [Base(t)];
      assert forall i :: i in t'.overwritten <==> i in t.overwritten || i == Base(t);
    }
  }

  lemma PullQueue(t: Trace)
    requires QueueOk(t) && PlacesOk(t)
    ensures QueueOk(TraceStep(t, Pull))
  {
    PullStep(t.core);
    hide Step;
    if t.core.queue != [] {
      var t' := TraceStep(t, Pull);
      assert t'.core.queue == t.core.queue[1..];
    }
  }

  lemma PullStep(c: Core)
    requires c.qsz > 0
    ensures Step(c, Pull).queue == if c.queue == [] then [] else c.queue[1..]
    ensures Step(c, Pull).qsz == c.qsz && Step(c, Pull).bufs == c.bufs && Step(c, Pull).dropped == c.dropped
    ensures Offered(c, Pull) == None
  {}

  lemma ProperSnoc(out: seq<Event>, e: Event)
    ensures Proper(out + [e]) == Proper(out) + if e.QueueOverflow? then [] else [e]
  {
    assert (out + [e])[..|out|] == out;
  }

  /** The marker in front is delivered: its event was overwritten before. */
  lemma MarkerPulled(t: Trace, t': Trace)
    requires PlacesOk(t) && t.marked && !t'.marked && t'.accepted == t.accepted && t'.core.dropped == t.core.dropped
    requires Base(t') == Base(t) + 1 && t'.taken == t.taken && t'.overwritten == t.overwritten
    requires Proper(t'.out) == Proper(t.out)
    ensures PlacesOk(t')
  {
    hide Proper;
  }

  /** The event in front is delivered. */
  lemma EventPulled(t: Trace, t': Trace)
    requires PlacesOk(t) && !t.marked && !t'.marked && t'.accepted == t.accepted && t'.core.dropped == t.core.dropped
    requires Base(t') == Base(t) + 1 <= |t.accepted| && t'.taken == t.taken + [Base(t)] && t'.overwritten == t.overwritten
    requires Proper(t'.out) == Proper(t.out) + [t.accepted[Base(t)]]
    ensures PlacesOk(t')
  {
    hide Proper;
    assert forall i :: i in t'.taken <==> i in t.taken || i == Base(t);
  }

  lemma PullPlaces(t: Trace)
    requires QueueOk(t) && PlacesOk(t)
    ensures PlacesOk(TraceStep(t, Pull))
  {
    PullStep(t.core);
    hide Step, Proper, Increasing, PicksFrom;
    var t' := TraceStep(t, Pull);
    if t.core.queue != [] {
      ProperSnoc(t.out, t.core.queue[0]);
      if t.marked {
        assert Proper(t.out) + [] == Proper(t.out);
        MarkerPulled(t, t');
      } else {
        assert t.core.queue[0] == t.accepted[Base(t)];
        EventPulled(t, t');
      }
    }
  }

  lemma StepKeepsRing(t: Trace, op: Op)
    requires QueueOk(t) && PlacesOk(t)
    ensures QueueOk(TraceStep(t, op)) && PlacesOk(TraceStep(t, op))
  {
    if Offered(t.core, op).Some? {
      EmitQueue(t, op);
      EmitPlaces(t, op);
    } else if op.Pull? {
      PullQueue(t);
      PullPlaces(t);
    } else {
      assert TraceStep(t, op).core.queue == t.core.queue;
    }
  }

  /** In every run, for every queue size: the events delivered, apart from
      QUEUE_OVERFLOW, are accepted events in the order of acceptance; every accepted event
      is delivered, overwritten or still queued, and in one of these places only; at most
      `dropped` were overwritten. */
  lemma {:induction false} RingRun(queueSize: nat, ops: seq<Op>)
    ensures QueueOk(Run(queueSize, ops)) && PlacesOk(Run(queueSize, ops))
  {
    if ops != [] {
      RingRun(queueSize, ops[..|ops| - 1]);
      StepKeepsRing(Run(queueSize, ops[..|ops| - 1]), ops[|ops| - 1]);
    }
  }

  // ----- the buffer table ---------------------------------------------------------------

  predicate IsNeed(ev: Event, id: nat) {
    (ev.NeedAlloc? || ev.NeedRealloc?) && ev.id == id
  }

  /** Number `i` is the latest request for this slot's buffer, and asks for what the slot
      waits for. */
  ghost predicate LatestNeed(accepted: seq<Event>, i: int, s: Slot) {
    && 0 <= i < |accepted| && IsNeed(accepted[i], s.id) && accepted[i].size == s.requested && accepted[i].kind == s.kind
    && forall j | i < j < |accepted| :: !IsNeed(accepted[j], s.id)
  }

  ghost predicate Requested(accepted: seq<Event>, s: Slot) {
    exists i :: LatestNeed(accepted, i, s)
  }

  ghost predicate BufsOk(t: Trace) {
    var b := t.core.bufs;
    && |b| == MAX_BUFS && t.core.nextId == t.minted + 1 < ID_SPACE
    && (forall i | 0 <= i < |b| && b[i].state != Free :: 1 <= b[i].id <= t.minted && b[i].id !in t.gone)
    && (forall i, j | 0 <= i < j < |b| && b[i].state != Free && b[j].state != Free :: b[i].id != b[j].id)
    && (forall i | 0 <= i < |b| && b[i].state == Ready :: b[i].ptr != 0 && b[i].size >= b[i].requested)
    && (forall i | 0 <= i < |b| && b[i].state == Pending :: Requested(t.accepted, b[i]))
    && (forall id | id in t.gone :: 1 <= id <= t.minted)
  }

  lemma RequestedAfter(accepted: seq<Event>, ev: Event, s: Slot)
    requires Requested(accepted, s) && !IsNeed(ev, s.id)
    ensures Requested(accepted + [ev], s)
  {
    var i :| LatestNeed(accepted, i, s);
    assert LatestNeed(accepted + [ev], i, s);
  }

  lemma RequestedNow(accepted: seq<Event>, ev: Event, s: Slot)
    requires IsNeed(ev, s.id) && ev.size == s.requested && ev.kind == s.kind
    ensures Requested(accepted + [ev], s)
  {
    assert LatestNeed(accepted + [ev], |accepted|, s);
  }

  /** An allocation request, step by step. */
  lemma AllocEffect(t: Trace, op: Op)
    requires t.core.qsz > 0 && Base(t) >= 0 && op.Alloc? && t.core.nextId == t.minted + 1 < ID_SPACE
    ensures var t', i := TraceStep(t, op), FreeSlot(t.core.bufs);
            if Offered(t.core, op).None? then
              t'.core.bufs == t.core.bufs && t'.accepted == t.accepted && t'.minted == t.minted
              && t'.core.nextId == t.core.nextId && t'.gone == t.gone
            else
              && i.Some? && t'.minted == t.minted + 1 && t'.gone == t.gone
              && (t'.minted < ID_SPACE - 1 ==> t'.core.nextId == t.minted + 2)
              && Offered(t.core, op).value == NeedAlloc(t.minted + 1, op.kind, op.size)
              && if |t.core.queue| < t.core.qsz then
                   t'.core.bufs == t.core.bufs[i.value := Slot(Pending, op.kind, t.minted + 1, 0, 0, op.size)]
                   && t'.accepted == t.accepted + [Offered(t.core, op).value]
                 else t'.core.bufs == t.core.bufs[i.value := BLANK] && t'.accepted == t.accepted
  {}

  lemma AllocKeepsBufs(t: Trace, op: Op)
    requires QueueOk(t) && BufsOk(t) && op.Alloc? && TraceStep(t, op).minted < ID_SPACE - 1
    ensures BufsOk(TraceStep(t, op))
  {
    var t', ev, i := TraceStep(t, op), Offered(t.core, op), FreeSlot(t.core.bufs);
    AllocEffect(t, op);
    hide TraceStep, Offered, QueueOk;
    if ev.Some? {
      if |t.core.queue| < t.core.qsz {
        FillKeepsBufs(t, i.value, Slot(Pending, op.kind, t.minted + 1, 0, 0, op.size), ev.value, t');
      } else {
        BlankKeepsBufs(t, i.value, t');
      }
    }
  }

  /** A free slot takes a request under the next id. */
  lemma FillKeepsBufs(t: Trace, i: nat, s: Slot, ev: Event, t': Trace)
    requires BufsOk(t) && i < MAX_BUFS && t.core.bufs[i].state == Free && t.minted + 1 < ID_SPACE - 1
    requires s.state == Pending && s.id == t.minted + 1
    requires IsNeed(ev, s.id) && ev.size == s.requested && ev.kind == s.kind
    requires t'.core.bufs == t.core.bufs[i := s] && t'.accepted == t.accepted + [ev]
    requires t'.minted == t.minted + 1 && t'.core.nextId == t.minted + 2 && t'.gone == t.gone
    ensures BufsOk(t')
  {
    var b, b' := t.core.bufs, t'.core.bufs;
    assert forall j | 0 <= j < |b| && j != i :: b'[j] == b[j];
    RequestedNow(t.accepted, ev, s);
    forall j | 0 <= j < |b| && j != i && b[j].state == Pending ensures Requested(t.accepted + [ev], b[j]) {
      RequestedAfter(t.accepted, ev, b[j]);
    }
  }

  lemma BlankKeepsBufs(t: Trace, i: nat, t': Trace)
    requires BufsOk(t) && i < MAX_BUFS && t.minted + 1 < ID_SPACE - 1
    requires t'.core.bufs == t.core.bufs[i := BLANK] && t'.accepted == t.accepted
    requires t'.minted == t.minted + 1 && t'.core.nextId == t.minted + 2 && t'.gone == t.gone
    ensures BufsOk(t')
  {
    assert forall j | 0 <= j < MAX_BUFS && j != i :: t'.core.bufs[j] == t.core.bufs[j];
  }

  lemma ReallocKeepsBufs(t: Trace, op: Op)
    requires QueueOk(t) && BufsOk(t) && op.Realloc?
    ensures BufsOk(TraceStep(t, op))
  {
    hide BufsOk;
    var ev, t' := Offered(t.core, op), TraceStep(t, op);
    if ev.Some? {
      var i := SlotById(t.core.bufs, op.id).value;
      if |t.core.queue| < t.core.qsz {
        RefillKeepsBufs(t, i, t'.core.bufs[i], ev.value, t');
      } else {
        RestoreKeepsBufs(t, i, t');
      }
    } else {
      SameKeepsBufs(t, t');
    }
  }

  lemma SameKeepsBufs(t: Trace, t': Trace)
    requires BufsOk(t) && t'.core.bufs == t.core.bufs && t'.accepted == t.accepted
    requires t'.minted == t.minted && t'.core.nextId == t.core.nextId && t'.gone == t.gone
    ensures BufsOk(t')
  {}

  /** A request that found the ring full leaves the buffer as it was. */
  lemma RestoreKeepsBufs(t: Trace, i: nat, t': Trace)
    requires BufsOk(t) && i < |t.core.bufs| && t.core.bufs[i].state == Ready
    requires t'.core.bufs == t.core.bufs[i := t.core.bufs[i].(requested := t.core.bufs[i].size)] && t'.accepted == t.accepted
    requires t'.minted == t.minted && t'.core.nextId == t.core.nextId && t'.gone == t.gone
    ensures BufsOk(t')
  {
    assert forall j | 0 <= j < |t.core.bufs| && j != i :: t'.core.bufs[j] == t.core.bufs[j];
  }

  /** A ready slot asks again under its id. */
  lemma RefillKeepsBufs(t: Trace, i: nat, s: Slot, ev: Event, t': Trace)
    requires BufsOk(t) && i < |t.core.bufs| && t.core.bufs[i].state == Ready
    requires s.state == Pending && s.id == t.core.bufs[i].id
    requires IsNeed(ev, s.id) && ev.size == s.requested && ev.kind == s.kind
    requires t'.core.bufs == t.core.bufs[i := s] && t'.accepted == t.accepted + [ev]
    requires t'.minted == t.minted && t'.core.nextId == t.core.nextId && t'.gone == t.gone
    ensures BufsOk(t')
  {
    var b, b' := t.core.bufs, t'.core.bufs;
    assert forall j | 0 <= j < |b| && j != i :: b'[j] == b[j];
    RequestedNow(t.accepted, ev, s);
    forall j | 0 <= j < |b| && j != i && b[j].state == Pending ensures Requested(t.accepted + [ev], b[j]) {
      RequestedAfter(t.accepted, ev, b[j]);
    }
  }

  lemma OtherKeepsBufs(t: Trace, op: Op)
    requires QueueOk(t) && BufsOk(t) && !op.Alloc? && !op.Realloc?
    ensures BufsOk(TraceStep(t, op))
  {
    hide BufsOk;
    var ev, t' := Offered(t.core, op), TraceStep(t, op);
    if ev.Some? && |t.core.queue| < t.core.qsz {
      NewsKeepsBufs(t, ev.value, t');
    } else if op.Provide? && ProvideOk(t.core, op.id, op.ptr, op.size) {
      ProvideKeepsBufs(t, SlotById(t.core.bufs, op.id).value, op.ptr, op.size, t');
    } else if op.Detach? && DetachOk(t.core, op.id) {
      DetachKeepsBufs(t, SlotById(t.core.bufs, op.id).value, t');
    } else {
      SameKeepsBufs(t, t');
    }
  }

  /** An event that asks for nothing. */
  lemma NewsKeepsBufs(t: Trace, ev: Event, t': Trace)
    requires BufsOk(t) && (ev.ConfigApplied? || ev.ConfigRejected?)
    requires t'.core.bufs == t.core.bufs && t'.accepted == t.accepted + [ev]
    requires t'.minted == t.minted && t'.core.nextId == t.core.nextId && t'.gone == t.gone
    ensures BufsOk(t')
  {
    var b := t.core.bufs;
    forall j | 0 <= j < |b| && b[j].state == Pending ensures Requested(t.accepted + [ev], b[j]) {
      RequestedAfter(t.accepted, ev, b[j]);
    }
  }

  lemma ProvideKeepsBufs(t: Trace, i: nat, ptr: nat, size: nat, t': Trace)
    requires BufsOk(t) && i < |t.core.bufs| && t.core.bufs[i].state == Pending && ptr != 0 && size >= t.core.bufs[i].requested
    requires t'.core.bufs == t.core.bufs[i := t.core.bufs[i].(ptr := ptr, size := size, state := Ready)]
    requires t'.accepted == t.accepted && t'.minted == t.minted && t'.core.nextId == t.core.nextId && t'.gone == t.gone
    ensures BufsOk(t')
  {
    assert forall j | 0 <= j < |t.core.bufs| && j != i :: t'.core.bufs[j] == t.core.bufs[j];
  }

  lemma DetachKeepsBufs(t: Trace, i: nat, t': Trace)
    requires BufsOk(t) && i < |t.core.bufs| && t.core.bufs[i].state != Free
    requires t'.core.bufs == t.core.bufs[i := BLANK] && t'.accepted == t.accepted && t'.minted == t.minted
    requires t'.core.nextId == t.core.nextId && t'.gone == t.gone + {t.core.bufs[i].id}
    ensures BufsOk(t')
  {
    assert forall j | 0 <= j < |t.core.bufs| && j != i :: t'.core.bufs[j] == t.core.bufs[j];
  }

  /** In every run that mints fewer than 2^32 - 1 ids: slots in use have distinct ids,
      ready slots hold a buffer of at least the requested size, every pending slot's
      latest request was accepted, and detached ids are never in use again. */
  lemma {:induction false} BufferRun(queueSize: nat, ops: seq<Op>)
    requires Run(queueSize, ops).minted < ID_SPACE - 1
    ensures BufsOk(Run(queueSize, ops))
  {
    if ops != [] {
      var t, op := Run(queueSize, ops[..|ops| - 1]), ops[|ops| - 1];
      BufferRun(queueSize, ops[..|ops| - 1]);
      RingRun(queueSize, ops[..|ops| - 1]);
      if op.Alloc? {
        AllocKeepsBufs(t, op);
      } else if op.Realloc? {
        ReallocKeepsBufs(t, op);
      } else {
        OtherKeepsBufs(t, op);
      }
    }
  }

  ghost predicate InQueue(t: Trace, i: int) {
    0 <= Base(t) <= i < |t.accepted| && !(t.marked && i == Base(t))
  }

  /** Exactly one place. */
  ghost predicate Placed(t: Trace, i: int) {
    && (i in t.taken || i in t.overwritten || InQueue(t, i))
    && !(i in t.taken && i in t.overwritten)
    && !(i in t.taken && InQueue(t, i)) && !(i in t.overwritten && InQueue(t, i))
    && (InQueue(t, i) ==> i - Base(t) < |t.core.queue| && t.core.queue[i - Base(t)] == t.accepted[i])
  }

  lemma EveryEventIsPlaced(t: Trace, i: nat)
    requires QueueOk(t) && PlacesOk(t) && i < |t.accepted|
    ensures Placed(t, i)
  {
    if i < Base(t) {
      assert i in t.taken <==> i !in t.overwritten;
    } else {
      assert i !in t.taken;
      assert i in t.overwritten <==> t.marked && i == Base(t);
    }
  }

  /** The request a pending slot waits on is in exactly one place, and with nothing
      dropped it is not lost: the host has it or will pull it. */
  lemma RequestIsPlaced(queueSize: nat, ops: seq<Op>, slot: nat)
    requires Run(queueSize, ops).minted < ID_SPACE - 1
    requires slot < MAX_BUFS && Run(queueSize, ops).core.bufs[slot].state == Pending
    ensures var t := Run(queueSize, ops);
            exists i :: LatestNeed(t.accepted, i, t.core.bufs[slot]) && Placed(t, i)
                        && (t.core.dropped == 0 ==> i !in t.overwritten)
  {
    var t := Run(queueSize, ops);
    BufferRun(queueSize, ops);
    RingRun(queueSize, ops);
    assert Requested(t.accepted, t.core.bufs[slot]);
    var i :| LatestNeed(t.accepted, i, t.core.bufs[slot]);
    EveryEventIsPlaced(t, i);
  }

  /** Once detached, an id is refused for ever. */
  lemma {:induction false} DetachedStaysGone(queueSize: nat, ops: seq<Op>, more: seq<Op>, id: nat)
    requires id in Run(queueSize, ops).gone && Run(queueSize, ops + more).minted < ID_SPACE - 1
    ensures id in Run(queueSize, ops + more).gone
    ensures forall ptr, size :: !ProvideOk(Run(queueSize, ops + more).core, id, ptr, size)
    ensures !DetachOk(Run(queueSize, ops + more).core, id)
  {
    if more == [] {
      assert ops + more == ops;
    } else {
      var init := more[..|more| - 1];
      assert (ops + more)[..|ops + more| - 1] == ops + init;
      DetachedStaysGone(queueSize, ops, init, id);
    }
    BufferRun(queueSize, ops + more);
  }

  // ----- one buffer from its request to its hand-out ----------------------------------------

  lemma SlotOfId(bufs: seq<Slot>, i: nat)
    requires i < |bufs| && bufs[i].state != Free
    requires forall j, k | 0 <= j < k < |bufs| && bufs[j].state != Free && bufs[k].state != Free :: bufs[j].id != bufs[k].id
    ensures SlotById(bufs, bufs[i].id) == Some(i)
  {
    var r := SlotById(bufs, bufs[i].id);
  }

  /** With a slot and room for its event, a request waits under the next id and its event is
      the last in the queue. */
  lemma AskedFor(queueSize: nat, ops: seq<Op>, kind: Kind, size: nat) returns (slot: nat)
    requires size > 0 && kind != NoBuf && Run(queueSize, ops).minted < ID_SPACE - 2
    requires exists i :: 0 <= i < MAX_BUFS && Run(queueSize, ops).core.bufs[i].state == Free
    requires |Run(queueSize, ops).core.queue| < Run(queueSize, ops).core.qsz
    ensures var t, t' := Run(queueSize, ops), Run(queueSize, ops + [Alloc(kind, size)]);
            && slot < MAX_BUFS && t.core.bufs[slot].state == Free && t'.minted == t.minted + 1
            && t'.core.bufs == t.core.bufs[slot := Slot(Pending, kind, t.minted + 1, 0, 0, size)]
            && t'.core.queue == t.core.queue + [NeedAlloc(t.minted + 1, kind, size)]
  {
    hide TraceStep, BufsOk;
    var t, op := Run(queueSize, ops), Alloc(kind, size);
    assert (ops + [op])[..|ops|] == ops;
    BufferRun(queueSize, ops);
    NextIs(t);
    assert FreeSlot(t.core.bufs).Some?;
    slot := FreeSlot(t.core.bufs).value;
    AllocEffect(t, op);
    AllocQueue(t, op);
  }

  lemma NextIs(t: Trace)
    requires BufsOk(t)
    ensures t.core.nextId == t.minted + 1 < ID_SPACE && |t.core.bufs| == MAX_BUFS
    ensures forall i, j | 0 <= i < j < MAX_BUFS && t.core.bufs[i].state != Free && t.core.bufs[j].state != Free ::
              t.core.bufs[i].id != t.core.bufs[j].id
    ensures forall i | 0 <= i < MAX_BUFS && t.core.bufs[i].state != Free :: t.core.bufs[i].id >= 1
  {
    hide Requested;
  }

  lemma AllocQueue(t: Trace, op: Op)
    requires t.core.qsz > 0 && Base(t) >= 0 && op.Alloc? && Offered(t.core, op).Some? && |t.core.queue| < t.core.qsz
    ensures TraceStep(t, op).core.queue == t.core.queue + [Offered(t.core, op).value]
  {
    hide Offered;
  }

  /** A ready slot asks again under its id: with room it waits for the new size and its event
      names the buffer it holds; without, it stays ready with what it has. */
  lemma AskedAgain(queueSize: nat, ops: seq<Op>, slot: nat, size: nat)
    requires size > 0 && Run(queueSize, ops).minted < ID_SPACE - 1
    requires slot < MAX_BUFS && Run(queueSize, ops).core.bufs[slot].state == Ready
    ensures var t := Run(queueSize, ops);
            var s := t.core.bufs[slot];
            var t' := Run(queueSize, ops + [Realloc(s.id, size)]);
            if |t.core.queue| < t.core.qsz then
              && t'.core.bufs == t.core.bufs[slot := Slot(Pending, s.kind, s.id, s.ptr, s.size, size)]
              && t'.core.queue == t.core.queue + [NeedRealloc(s.id, s.kind, size, s.ptr, s.size)]
            else
              && t'.core.bufs == t.core.bufs[slot := Slot(Ready, s.kind, s.id, s.ptr, s.size, s.size)]
              && t'.core.queue == t.core.queue[0 := QueueOverflow] && t'.core.dropped == t.core.dropped + 1
  {
    hide BufsOk;
    var t := Run(queueSize, ops);
    var op := Realloc(t.core.bufs[slot].id, size);
    assert (ops + [op])[..|ops|] == ops;
    BufferRun(queueSize, ops);
    NextIs(t);
    SlotOfId(t.core.bufs, slot);
  }

  lemma {:induction false} FreeIsBlank(queueSize: nat, ops: seq<Op>)
    ensures forall i | 0 <= i < MAX_BUFS && Run(queueSize, ops).core.bufs[i].state == Free ::
              Run(queueSize, ops).core.bufs[i] == Slot(Free, NoBuf, 0, 0, 0, 0)
  {
    if ops != [] {
      FreeIsBlank(queueSize, ops[..|ops| - 1]);
      StepLeavesBlank(Run(queueSize, ops[..|ops| - 1]).core, ops[|ops| - 1]);
    }
  }

  lemma StepLeavesBlank(c: Core, op: Op)
    requires c.qsz > 0 && forall i | 0 <= i < |c.bufs| && c.bufs[i].state == Free :: c.bufs[i] == BLANK
    ensures forall i | 0 <= i < |Step(c, op).bufs| && Step(c, op).bufs[i].state == Free :: Step(c, op).bufs[i] == BLANK
  {
    hide Emit;
  }

  /** A request that finds the ring full leaves every slot as it was, and its mark in front. */
  lemma NotAsked(queueSize: nat, ops: seq<Op>, kind: Kind, size: nat)
    requires size > 0 && kind != NoBuf && Run(queueSize, ops).minted < ID_SPACE - 2
    requires exists i :: 0 <= i < MAX_BUFS && Run(queueSize, ops).core.bufs[i].state == Free
    requires |Run(queueSize, ops).core.queue| >= Run(queueSize, ops).core.qsz
    ensures var t, t' := Run(queueSize, ops), Run(queueSize, ops + [Alloc(kind, size)]);
            && t'.core.bufs == t.core.bufs && t'.accepted == t.accepted && t.core.queue != []
            && t'.core.queue == t.core.queue[0 := QueueOverflow] && t'.core.dropped == t.core.dropped + 1
  {
    hide BufsOk, FreeSlot;
    var t, op := Run(queueSize, ops), Alloc(kind, size);
    assert (ops + [op])[..|ops|] == ops;
    BufferRun(queueSize, ops);
    NextIs(t);
    FreeIsBlank(queueSize, ops);
    assert FreeSlot(t.core.bufs).Some?;
    assert t.core.bufs[FreeSlot(t.core.bufs).value := BLANK] == t.core.bufs;
  }

  /** A waiting slot takes every buffer that is large enough, and is then ready with it. */
  lemma WaitingIsServed(queueSize: nat, ops: seq<Op>, slot: nat, ptr: nat, size: nat)
    requires Run(queueSize, ops).minted < ID_SPACE - 1
    requires slot < MAX_BUFS && Run(queueSize, ops).core.bufs[slot].state == Pending
    requires ptr != 0 && size != 0 && size >= Run(queueSize, ops).core.bufs[slot].requested
    ensures var t := Run(queueSize, ops);
            var id := t.core.bufs[slot].id;
            var t' := Run(queueSize, ops + [Provide(id, ptr, size)]);
            && ProvideOk(t.core, id, ptr, size) && t'.minted == t.minted
            && t'.core.bufs == t.core.bufs[slot := t.core.bufs[slot].(ptr := ptr, size := size, state := Ready)]
  {
    hide BufsOk;
    var t := Run(queueSize, ops);
    var op := Provide(t.core.bufs[slot].id, ptr, size);
    assert (ops + [op])[..|ops|] == ops;
    BufferRun(queueSize, ops);
    NextIs(t);
    SlotOfId(t.core.bufs, slot);
  }

  /** A slot in use hands out what it holds and is free again. */
  lemma HandedOut(queueSize: nat, ops: seq<Op>, slot: nat)
    requires Run(queueSize, ops).minted < ID_SPACE - 1
    requires slot < MAX_BUFS && Run(queueSize, ops).core.bufs[slot].state != Free
    ensures var t := Run(queueSize, ops);
            var id := t.core.bufs[slot].id;
            && DetachOk(t.core, id) && SlotById(t.core.bufs, id) == Some(slot)
            && Run(queueSize, ops + [Detach(id)]).core.bufs == t.core.bufs[slot := Slot(Free, NoBuf, 0, 0, 0, 0)]
  {
    hide BufsOk;
    var t := Run(queueSize, ops);
    var op := Detach(t.core.bufs[slot].id);
    assert (ops + [op])[..|ops|] == ops;
    BufferRun(queueSize, ops);
    NextIs(t);
    SlotOfId(t.core.bufs, slot);
  }

  function Waiting(bufs: seq<Slot>): nat {
    if bufs == [] then 0 else Waiting(bufs[..|bufs| - 1]) + if bufs[|bufs| - 1].state == Pending then 1 else 0
  }

  lemma {:induction false} WaitingUpdate(bufs: seq<Slot>, i: nat, s: Slot)
    requires i < |bufs| && bufs[i].state == Pending && s.state != Pending
    ensures Waiting(bufs[i := s]) + 1 == Waiting(bufs)
  {
    var n := |bufs| - 1;
    if i == n {
      assert bufs[i := s][..n] == bufs[..n];
    } else {
      assert bufs[i := s][..n] == bufs[..n][i := s];
      WaitingUpdate(bufs[..n], i, s);
    }
  }

  /** Every run can be continued to one in which no slot waits. */
  lemma {:induction false} AllServed(queueSize: nat, ops: seq<Op>) returns (more: seq<Op>)
    requires Run(queueSize, ops).minted < ID_SPACE - 1
    ensures Run(queueSize, ops + more).minted == Run(queueSize, ops).minted
    ensures forall i | 0 <= i < MAX_BUFS :: Run(queueSize, ops + more).core.bufs[i].state != Pending
    decreases Waiting(Run(queueSize, ops).core.bufs)
  {
    hide Run;
    var bufs := Run(queueSize, ops).core.bufs;
    if slot: nat :| slot < MAX_BUFS && bufs[slot].state == Pending {
      var size := bufs[slot].requested + 1;
      var op := Provide(bufs[slot].id, 1, size);
      WaitingIsServed(queueSize, ops, slot, 1, size);
      WaitingUpdate(bufs, slot, bufs[slot].(ptr := 1, size := size, state := Ready));
      var rest := AllServed(queueSize, ops + [op]);
      more := [op] + rest;
      assert ops + more == (ops + [op]) + rest;
    } else {
      more := [];
      assert ops + more == ops;
    }
  }
}
