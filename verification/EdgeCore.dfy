/** src/core/edgecore.c: the event ring with its overwrite-oldest, drop-newest overflow
    rule, and the FREE/PENDING/READY buffer table whose requests travel through it. */
module EdgeCore {
  import opened Text

  const MAX_BUFS: nat := 32
  const DEFAULT_Q: nat := 64
  const MAX_Q: nat := 256
  const ID_SPACE: nat := 0x1_0000_0000

  datatype Kind = NoBuf | Generic | ConnRx | ConnTx | HttpBody | StateBuf

  /** `ptr` values are addresses; 0 is NULL. */
  datatype Event =
    | NeedAlloc(id: nat, kind: Kind, size: nat)
    | NeedRealloc(id: nat, kind: Kind, size: nat, oldPtr: nat, oldSize: nat)
    | ConfigApplied(generation: nat)
    | ConfigRejected(reason: string)
    | QueueOverflow

  datatype SlotState = Free | Pending | Ready

  datatype Slot = Slot(state: SlotState, kind: Kind, id: nat, ptr: nat, size: nat, requested: nat)

  const BLANK := Slot(Free, NoBuf, 0, 0, 0, 0)

  // ----- abstract core --------------------------------------------------------------

  datatype Core = Core(qsz: nat, queue: seq<Event>, dropped: nat, bufs: seq<Slot>, nextId: nat)

  /** A full queue has its front replaced by QUEUE_OVERFLOW and the new event is dropped. */
  function Emit(c: Core, ev: Event): (Core, bool)
    requires |c.queue| >= c.qsz ==> c.queue != []
  {
    if |c.queue| >= c.qsz then (c.(queue := c.queue[0 := QueueOverflow], dropped := c.dropped + 1), false)
    else (c.(queue := c.queue + [ev]), true)
  }

  /** The first slot in use under `id`. */
  function SlotById(bufs: seq<Slot>, id: nat): (r: Option<nat>)
    ensures r.Some? ==> r.value < |bufs| && bufs[r.value].state != Free && bufs[r.value].id == id
                        && forall j | 0 <= j < r.value :: bufs[j].state == Free || bufs[j].id != id
    ensures r.None? ==> forall j | 0 <= j < |bufs| :: bufs[j].state == Free || bufs[j].id != id
  {
    if bufs == [] then None
    else if bufs[0].state != Free && bufs[0].id == id then Some(0)
    else match SlotById(bufs[1..], id)
         case None => None
         case Some(i) => Some(i + 1)
  }

  function FreeSlot(bufs: seq<Slot>): (r: Option<nat>)
    ensures r.Some? ==> r.value < |bufs| && bufs[r.value].state == Free
                        && forall j | 0 <= j < r.value :: bufs[j].state != Free
    ensures r.None? ==> forall j | 0 <= j < |bufs| :: bufs[j].state != Free
  {
    if bufs == [] then None
    else if bufs[0].state == Free then Some(0)
    else match FreeSlot(bufs[1..])
         case None => None
         case Some(i) => Some(i + 1)
  }

  function MintedId(next: nat): nat {
    if next == 0 then 1 else next
  }

  function AfterMint(next: nat): nat {
    var n := (MintedId(next) + 1) % ID_SPACE;
    if n == 0 then 1 else n
  }

  lemma NextResidue(n: nat, m: nat)
    requires m > 2
    ensures var next := (1 + n % (m - 1) + 1) % m;
            (if next == 0 then 1 else next) == 1 + (n + 1) % (m - 1)
  {
    var q, r := n / (m - 1), n % (m - 1);
    if r == m - 2 {
      Remainder(n + 1, q + 1, m - 1, 0) by { assert n + 1 == (q + 1) * (m - 1); }
      Remainder(m, 1, m, 0);
    } else {
      Remainder(n + 1, q, m - 1, r + 1) by { assert n + 1 == q * (m - 1) + (r + 1); }
      Remainder(r + 2, 0, m, r + 2);
    }
  }

  /** The id minted by the n-th call is 1 + n modulo 2^32 - 1: ids repeat, and first do
      so after 2^32 - 1 mints. */
  lemma {:induction false} MintSequence(n: nat)
    ensures NextAfter(n) == 1 + n % (ID_SPACE - 1) && MintedId(NextAfter(n)) == NextAfter(n)
  {
    if n > 0 {
      MintSequence(n - 1);
      NextResidue(n - 1, ID_SPACE);
    }
  }

  /** next_alloc_id of a new core after n mints. */
  function NextAfter(n: nat): nat {
    if n == 0 then 1 else AfterMint(NextAfter(n - 1))
  }

  datatype Op =
    | Alloc(kind: Kind, size: nat)
    | Realloc(id: nat, size: nat)
    | Provide(id: nat, ptr: nat, size: nat)
    | Detach(id: nat)
    | Applied(generation: nat)
    | Refused(reason: string)
    | Pull

  /** The event an operation tries to emit. */
  function Offered(c: Core, op: Op): Option<Event> {
    match op
    case Alloc(kind, size) =>
      if size == 0 || kind == NoBuf || FreeSlot(c.bufs).None? then None
      else Some(NeedAlloc(MintedId(c.nextId), kind, size))
    case Realloc(id, size) =>
      if id == 0 || size == 0 then None
      else
        (match SlotById(c.bufs, id)
         case None => None
         case Some(i) => var s := c.bufs[i];
                         if s.state != Ready then None else Some(NeedRealloc(id, s.kind, size, s.ptr, s.size)))
    case Applied(generation) => Some(ConfigApplied(generation))
    case Refused(reason) => Some(ConfigRejected(reason))
    case _ => None
  }

  /** The buffer table after an operation whose event was (or was not) queued. A refused
      request is rolled back, but its id stays spent. */
  function BufsAfter(c: Core, op: Op, queued: bool): seq<Slot> {
    match op
    case Alloc(kind, size) =>
      if Offered(c, op).None? then c.bufs
      else c.bufs[FreeSlot(c.bufs).value := if queued then Slot(Pending, kind, MintedId(c.nextId), 0, 0, size) else BLANK]
    case Realloc(id, size) =>
      if Offered(c, op).None? then c.bufs
      else
        var i := SlotById(c.bufs, id).value;
        var s := c.bufs[i];
        c.bufs[i := if queued then s.(state := Pending, requested := size) else s.(requested := s.size)]
    case Provide(id, ptr, size) =>
      if ProvideOk(c, id, ptr, size) then
        var i := SlotById(c.bufs, id).value;
        c.bufs[i := c.bufs[i].(ptr := ptr, size := size, state := Ready)]
      else c.bufs
    case Detach(id) =>
      if DetachOk(c, id) then c.bufs[SlotById(c.bufs, id).value := BLANK] else c.bufs
    case _ => c.bufs
  }

  predicate ProvideOk(c: Core, id: nat, ptr: nat, size: nat) {
    id != 0 && ptr != 0 && size != 0 && SlotById(c.bufs, id).Some?
    && var s := c.bufs[SlotById(c.bufs, id).value]; s.state == Pending && size >= s.requested
  }

  predicate DetachOk(c: Core, id: nat) {
    id != 0 && SlotById(c.bufs, id).Some?
  }

  function Step(c: Core, op: Op): Core
    requires c.qsz > 0
  {
    var ev := Offered(c, op);
    var (c', queued) := if ev.Some? then Emit(c, ev.value) else (c, false);
    c'.(queue := if op.Pull? && c.queue != [] then c.queue[1..] else c'.queue,
        bufs := BufsAfter(c, op, queued),
        nextId := if op.Alloc? && ev.Some? then AfterMint(c.nextId) else c.nextId)
  }

  // ----- the core in memory ---------------------------------------------------------

  function Wrap(x: nat, q: nat): nat
    requires q > 0 && x < 2 * q
  {
    if x < q then x else x - q
  }

  lemma ModIsWrap(x: nat, q: nat)
    requires q > 0 && x < 2 * q
    ensures x % q == Wrap(x, q) < q
  {
    Remainder(x, if x < q then 0 else 1, q, Wrap(x, q));
  }

  /** The array position of the k-th queued event. */
  function At(head: nat, k: nat, q: nat): (i: nat)
    requires head < q && k <= q
    ensures i < q && i == if head + k < q then head + k else head + k - q
  {
    Wrap(head + k, q)
  }

  ghost predicate RingValid(events: seq<Event>, head: nat, tail: nat, cnt: nat) {
    && 1 <= |events| <= MAX_Q && head < |events| && cnt <= |events|
    && tail == At(head, cnt, |events|)
  }

  ghost function RingQueue(events: seq<Event>, head: nat, cnt: nat): (r: seq<Event>)
    requires head < |events| && cnt <= |events|
    ensures |r| == cnt && forall k | 0 <= k < cnt :: r[k] == events[At(head, k, |events|)]
  {
    seq(cnt, k requires 0 <= k < cnt => events[At(head, k, |events|)])
  }

  lemma RingPop(events: seq<Event>, head: nat, cnt: nat)
    requires head < |events| && 0 < cnt <= |events|
    ensures RingQueue(events, head, cnt) == [events[head]] + RingQueue(events, At(head, 1, |events|), cnt - 1)
  {
    var q, h := |events|, At(head, 1, |events|);
    forall k | 0 < k < cnt
      ensures RingQueue(events, head, cnt)[k] == RingQueue(events, h, cnt - 1)[k - 1]
    {
      assert At(h, k - 1, q) == At(head, k, q);
    }
  }

  lemma RingPush(events: seq<Event>, head: nat, cnt: nat, ev: Event)
    requires head < |events| && cnt < |events|
    ensures RingQueue(events[At(head, cnt, |events|) := ev], head, cnt + 1) == RingQueue(events, head, cnt) + [ev]
  {
    var q, t := |events|, At(head, cnt, |events|);
    forall k | 0 <= k < cnt
      ensures RingQueue(events[t := ev], head, cnt + 1)[k] == RingQueue(events, head, cnt)[k]
    {
      assert At(head, k, q) != t;
    }
  }

  lemma RingFront(events: seq<Event>, head: nat, cnt: nat, ev: Event)
    requires head < |events| && 0 < cnt <= |events|
    ensures RingQueue(events[head := ev], head, cnt) == RingQueue(events, head, cnt)[0 := ev]
  {
    var q := |events|;
    forall k | 0 < k < cnt
      ensures RingQueue(events[head := ev], head, cnt)[k] == RingQueue(events, head, cnt)[k]
    {
      assert At(head, k, q) != head;
    }
  }

  class EdgeCoreState {
    const events: array<Event>
    const bufs: array<Slot>
    var head: nat
    var tail: nat
    var cnt: nat
    var dropped: nat
    var nextId: nat

    ghost predicate Valid()
      reads this, events, bufs
    {
      RingValid(events[..], head, tail, cnt) && bufs.Length == MAX_BUFS
    }

    ghost function View(): Core
      reads this, events, bufs
      requires Valid()
    {
      Core(events.Length, RingQueue(events[..], head, cnt), dropped, bufs[..], nextId)
    }

    constructor (queueSize: nat)
      ensures Valid() && fresh(events) && fresh(bufs)
      ensures View() == NewCore(queueSize)
    {
      var q := if queueSize == 0 then DEFAULT_Q else if queueSize > MAX_Q then MAX_Q else queueSize;
      events := new Event[q](_ => QueueOverflow);
      bufs := new Slot[MAX_BUFS](_ => BLANK);
      head, tail, cnt, dropped, nextId := 0, 0, 0, 0, 1;
      new;
      assert bufs[..] == seq(MAX_BUFS, _ => BLANK);
    }

    /** emit_event */
    method EmitEvent(ev: Event) returns (ok: bool)
      requires Valid()
      modifies this`tail, this`cnt, this`dropped, events
      ensures Valid() && (View(), ok) == Emit(old(View()), ev)
    {
      ghost var es := events[..];
      if cnt >= events.Length {
        RingFront(es, head, cnt, QueueOverflow);
        events[head] := QueueOverflow;
        dropped := dropped + 1;
        assert events[..] == es[head := QueueOverflow];
        return false;
      }
      RingPush(es, head, cnt, ev);
      events[tail] := ev;
      assert events[..] == es[At(head, cnt, |es|) := ev];
      ModIsWrap(tail + 1, events.Length);
      tail := (tail + 1) % events.Length;
      cnt := cnt + 1;
      ok := true;
    }

    /** edgecore_next_event */
    method NextEvent() returns (ev: Option<Event>)
      requires Valid()
      modifies this`head, this`cnt
      ensures Valid() && View() == Step(old(View()), Pull)
      ensures ev == if old(View()).queue == [] then None else Some(old(View()).queue[0])
    {
      if cnt == 0 { return None; }
      RingPop(events[..], head, cnt);
      ev := Some(events[head]);
      ModIsWrap(head + 1, events.Length);
      head := (head + 1) % events.Length;
      cnt := cnt - 1;
    }

    /** find_slot_by_id */
    method FindById(id: nat) returns (r: Option<nat>)
      requires Valid()
      ensures r == if id == 0 then None else SlotById(bufs[..], id)
    {
      if id == 0 { return None; }
      ghost var all := bufs[..];
      for i := 0 to MAX_BUFS
        invariant forall j | 0 <= j < i :: bufs[j].state == Free || bufs[j].id != id
      {
        if bufs[i].state != Free && bufs[i].id == id {
          assert all[i].state != Free && all[i].id == id;
          return Some(i);
        }
      }
      assert forall j | 0 <= j < |all| :: all[j] == bufs[j];
      r := None;
    }

    /** find_free_slot */
    method FindFree() returns (r: Option<nat>)
      requires Valid()
      ensures r == FreeSlot(bufs[..])
    {
      ghost var all := bufs[..];
      for i := 0 to MAX_BUFS
        invariant forall j | 0 <= j < i :: bufs[j].state != Free
      {
        if bufs[i].state == Free {
          assert all[i].state == Free;
          return Some(i);
        }
      }
      assert forall j | 0 <= j < |all| :: all[j] == bufs[j];
      r := None;
    }

    /** mint_alloc_id */
    method MintAllocId() returns (id: nat)
      requires Valid()
      modifies this`nextId
      ensures id == MintedId(old(nextId)) && nextId == AfterMint(old(nextId))
    {
      id := nextId;
      if id == 0 { id := 1; }
      nextId := (id + 1) % ID_SPACE;
      if nextId == 0 { nextId := 1; }
    }

    /** edgecore_request_alloc: the new id, or 0. */
    method RequestAlloc(kind: Kind, size: nat) returns (id: nat)
      requires Valid()
      modifies this, events, bufs
      ensures Valid() && View() == Step(old(View()), Alloc(kind, size))
      ensures id == if Offered(old(View()), Alloc(kind, size)).None? || |old(View()).queue| >= old(View()).qsz
                    then 0 else MintedId(old(nextId))
    {
      hide RingValid, RingQueue, At, SlotById;
      if size == 0 || kind == NoBuf { return 0; }
      var slot := FindFree();
      if slot.None? { return 0; }
      id := MintAllocId();
      bufs[slot.value] := Slot(Pending, kind, id, 0, 0, size);
      var ok := EmitEvent(NeedAlloc(id, kind, size));
      if !ok {
        bufs[slot.value] := BLANK;
        return 0;
      }
    }

    /** edgecore_request_realloc */
    method RequestRealloc(id: nat, newSize: nat) returns (ok: bool)
      requires Valid()
      modifies this, events, bufs
      ensures Valid() && View() == Step(old(View()), Realloc(id, newSize))
      ensures ok == (Offered(old(View()), Realloc(id, newSize)).Some? && |old(View()).queue| < old(View()).qsz)
    {
      hide RingValid, RingQueue, At;
      if id == 0 || newSize == 0 { return false; }
      var slot := FindById(id);
      if slot.None? || bufs[slot.value].state != Ready { return false; }
      var s := bufs[slot.value];
      bufs[slot.value] := s.(state := Pending, requested := newSize);
      ok := EmitEvent(NeedRealloc(id, s.kind, newSize, s.ptr, s.size));
      if !ok {
        bufs[slot.value] := bufs[slot.value].(state := Ready, requested := s.size);
      }
    }

    /** edgecore_provide_buffer */
    method ProvideBuffer(id: nat, ptr: nat, size: nat) returns (ok: bool)
      requires Valid()
      modifies bufs
      ensures Valid() && View() == Step(old(View()), Provide(id, ptr, size))
      ensures ok == ProvideOk(old(View()), id, ptr, size)
    {
      if id == 0 || ptr == 0 || size == 0 { return false; }
      var slot := FindById(id);
      if slot.None? || bufs[slot.value].state != Pending { return false; }
      if size < bufs[slot.value].requested { return false; }
      bufs[slot.value] := bufs[slot.value].(ptr := ptr, size := size, state := Ready);
      ok := true;
    }

    /** edgecore_detach_buffer: what the slot held, if there was one. */
    method DetachBuffer(id: nat) returns (held: Option<(nat, nat)>)
      requires Valid()
      modifies bufs
      ensures Valid() && View() == Step(old(View()), Detach(id))
      ensures held == if !DetachOk(old(View()), id) then None
                      else var s := old(View()).bufs[SlotById(old(View()).bufs, id).value]; Some((s.ptr, s.size))
    {
      if id == 0 { return None; }
      var slot := FindById(id);
      if slot.None? { return None; }
      held := Some((bufs[slot.value].ptr, bufs[slot.value].size));
      bufs[slot.value] := BLANK;
    }
  }

  function NewCore(queueSize: nat): Core {
    Core(if queueSize == 0 then DEFAULT_Q else if queueSize > MAX_Q then MAX_Q else queueSize,
         [], 0, seq(MAX_BUFS, _ => BLANK), 1)
  }
}
