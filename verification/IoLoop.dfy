/** src/host/iouring_loop.c, the event loop over the connection slots, plain or TLS, without
    WebSocket promotion: what every run keeps about slots, operations in flight, counters
    and the bytes each peer received. */
module IoLoop {
  import opened IoConn
  import Text

  /** An operation in the kernel. The code tags it with kind and slot only; `id` says which
      accepted connection submitted it. */
  datatype Op = AcceptOp | ConnOp(kind: Kind, slot: nat, id: nat)

  datatype Closed = Closed(id: nat, sent: string, end: End)

  /** `ids` numbers the connection in each slot, `sent` is what its peer received, `log` the
      connections closed so far. */
  datatype Srv = Srv(conns: seq<Conn>, ids: seq<nat>, sent: seq<string>, acceptPending: bool, acceptsDone: nat,
                     active: int, kernel: multiset<Op>, log: seq<Closed>)

  datatype Config = Config(tls: bool, cap: nat, maxAccepts: nat)

  /** A completion with its result and the answers met while handling it. */
  datatype Event =
    | Tick
    | AcceptDone(res: int, nonblock: bool, sslMade: bool, again: bool, o: Oracle)
    | ConnDone(kind: Kind, slot: nat, id: nat, res: int, o: Oracle)

  // ----- steps ------------------------------------------------------------------------------

  function OpSet(ops: seq<Kind>, slot: nat, id: nat): multiset<Op> {
    if ops == [] then multiset{} else multiset{ConnOp(ops[0], slot, id)} + OpSet(ops[1..], slot, id)
  }

  predicate Shaped(s: Srv) {
    |s.ids| == |s.conns| && |s.sent| == |s.conns|
  }

  /** The effect of a handler on slot `i`. */
  function Perform(s: Srv, i: nat, e: Effect): Srv
    requires Shaped(s) && i < |s.conns|
  {
    Srv(s.conns[i := e.c], s.ids, s.sent[i := s.sent[i] + e.wrote], s.acceptPending, s.acceptsDone,
        if !e.end.Open? && s.conns[i].fd >= 0 && s.active > 0 then s.active - 1 else s.active,
        s.kernel + OpSet(e.ops, i, s.ids[i]),
        if e.end.Open? then s.log else s.log + [Closed(s.ids[i], s.sent[i] + e.wrote, e.end)])
  }

  function FirstFree(conns: seq<Conn>): (i: nat)
    ensures i <= |conns| && (i < |conns| ==> conns[i].state == Free)
    ensures forall j | 0 <= j < i :: conns[j].state != Free
  {
    if conns == [] || conns[0].state == Free then 0 else 1 + FirstFree(conns[1..])
  }

  /** alloc_conn and the counters of accept_one. */
  function Allocate(s: Srv, i: nat, fd: nat): Srv
    requires Shaped(s) && i < |s.conns|
  {
    s.(conns := s.conns[i := FREE.(fd := fd, state := Receiving)], ids := s.ids[i := s.acceptsDone],
       sent := s.sent[i := ""], acceptsDone := s.acceptsDone + 1, active := s.active + 1)
  }

  /** accept_one; a descriptor that finds no slot is closed. */
  function AcceptOne(cfg: Config, s: Srv, fd: nat, nonblock: bool, sslMade: bool, o: Oracle): Srv
    requires Shaped(s)
  {
    var i := FirstFree(s.conns);
    if !nonblock || i == |s.conns| then s
    else Perform(Allocate(s, i, fd), i, Opened(fd, cfg.tls, sslMade, o))
  }

  /** submit_accept */
  function SubmitAccept(cfg: Config, s: Srv, sqe: bool): Srv {
    if s.acceptPending || (cfg.maxAccepts > 0 && s.acceptsDone >= cfg.maxAccepts) || !sqe then s
    else s.(acceptPending := true, kernel := s.kernel + multiset{AcceptOp})
  }

  function Handled(cfg: Config, c: Conn, kind: Kind, res: int, o: Oracle): Effect
    requires c.len <= |c.buf| && (kind == SendOp ==> c.off + res <= |c.buf|)
  {
    match kind
    case RecvOp => OnRecv(c, res, cfg.cap, o)
    case SendOp => OnSend(c, res, o)
    case PollOp => OnPoll(c, res, cfg.cap, o)
  }

  /** A completion is of an operation in the kernel, and a send reports at most the bytes
      asked for. */
  predicate Legal(s: Srv, ev: Event) {
    match ev
    case Tick => true
    case AcceptDone(_, _, _, _, o) => AcceptOp in s.kernel && Honest(o)
    case ConnDone(kind, slot, id, res, o) =>
      && ConnOp(kind, slot, id) in s.kernel && Honest(o) && slot < |s.conns|
      && s.conns[slot].len <= |s.conns[slot].buf|
      && (kind == SendOp ==> res <= s.conns[slot].len - s.conns[slot].off)
  }

  function Step(cfg: Config, s: Srv, ev: Event): Srv
    requires Shaped(s) && Legal(s, ev)
  {
    match ev
    case Tick => s
    case AcceptDone(res, nonblock, sslMade, again, o) =>
      var t := s.(acceptPending := false, kernel := s.kernel - multiset{AcceptOp});
      SubmitAccept(cfg, if res >= 0 then AcceptOne(cfg, t, res, nonblock, sslMade, o) else t, again)
    case ConnDone(kind, slot, id, res, o) =>
      var t := s.(kernel := s.kernel - multiset{ConnOp(kind, slot, id)});
      Perform(t, slot, Handled(cfg, t.conns[slot], kind, res, o))
  }

  // ----- the invariant ------------------------------------------------------------------------

  function Occupied(conns: seq<Conn>): nat {
    if conns == [] then 0 else Occupied(conns[..|conns| - 1]) + if conns[|conns| - 1].state == Free then 0 else 1
  }

  lemma {:induction false} OccupiedUpdate(conns: seq<Conn>, i: nat, c: Conn)
    requires i < |conns|
    ensures Occupied(conns[i := c])
         == Occupied(conns) + (if c.state == Free then 0 else 1) - (if conns[i].state == Free then 0 else 1)
  {
    var n := |conns| - 1;
    if i == n {
      assert conns[i := c][..n] == conns[..n];
    } else {
      assert conns[i := c][..n] == conns[..n][i := c];
      OccupiedUpdate(conns[..n], i, c);
    }
  }

  lemma {:induction false} NoneOccupied(conns: seq<Conn>)
    ensures Occupied(conns) == 0 <==> forall i | 0 <= i < |conns| :: conns[i].state == Free
  {
    if conns != [] { NoneOccupied(conns[..|conns| - 1]); }
  }

  /** How often an operation must be in the kernel. */
  function Expected(s: Srv, op: Op): nat
    requires Shaped(s)
  {
    match op
    case AcceptOp => if s.acceptPending then 1 else 0
    case ConnOp(kind, slot, id) =>
      if slot < |s.conns| && s.conns[slot].state != Free && id == s.ids[slot] && kind == Awaited(s.conns[slot]) then 1 else 0
  }

  ghost predicate SlotsOk(s: Srv)
    requires Shaped(s)
  {
    forall i | 0 <= i < |s.conns| ::
      if s.conns[i].state == Free then s.conns[i] == FREE else Waits(s.conns[i], s.sent[i]) && s.ids[i] < s.acceptsDone
  }

  ghost predicate KernelOk(s: Srv)
    requires Shaped(s)
  {
    forall op: Op :: s.kernel[op] == Expected(s, op)
  }

  ghost predicate CountsOk(s: Srv, base: int)
    requires Shaped(s)
  {
    base >= 0 && s.active == base + Occupied(s.conns) && s.acceptsDone == |s.log| + Occupied(s.conns)
  }

  ghost predicate LogOk(s: Srv)
    requires Shaped(s)
  {
    && (forall k | 0 <= k < |s.log| :: !s.log[k].end.Open? && EndOk(s.log[k].end, s.log[k].sent) && s.log[k].id < s.acceptsDone)
    && (forall j, k | 0 <= j < k < |s.log| :: s.log[j].id != s.log[k].id)
    && (forall k, i | 0 <= k < |s.log| && 0 <= i < |s.conns| && s.conns[i].state != Free :: s.log[k].id != s.ids[i])
    && (forall i, j | 0 <= i < j < |s.conns| && s.conns[i].state != Free && s.conns[j].state != Free :: s.ids[i] != s.ids[j])
  }

  /** The slot machine invariant. Every occupied slot has exactly the one operation it awaits
      in the kernel and every free slot none; the gauge counts the occupied slots above where
      it stood at the start; every accepted connection is open or closed, never both, and
      once; what a peer received is always a prefix of the response. */
  ghost predicate Inv(s: Srv, base: int) {
    Shaped(s) && SlotsOk(s) && KernelOk(s) && CountsOk(s, base) && LogOk(s)
  }

  /** A completion always finds the connection that submitted the operation, in the state
      that waits for it, and it was the slot's only operation. */
  lemma CompletionFindsOwner(s: Srv, base: int, kind: Kind, slot: nat, id: nat)
    requires Inv(s, base) && ConnOp(kind, slot, id) in s.kernel
    ensures slot < |s.conns| && id == s.ids[slot] && Waits(s.conns[slot], s.sent[slot]) && kind == Awaited(s.conns[slot])
    ensures s.kernel[ConnOp(kind, slot, id)] == 1
    ensures forall k: Kind, j: nat | ConnOp(k, slot, j) in s.kernel :: k == kind && j == id
  {
    var op := ConnOp(kind, slot, id);
    assert s.kernel[op] == Expected(s, op);
    forall k: Kind, j: nat | ConnOp(k, slot, j) in s.kernel ensures k == kind && j == id {
      assert s.kernel[ConnOp(k, slot, j)] == Expected(s, ConnOp(k, slot, j));
    }
  }

  /** With no accept pending and all slots free the kernel holds nothing, so stopping is
      safe. */
  lemma IdleMeansEmpty(s: Srv, base: int)
    requires Inv(s, base) && !s.acceptPending && forall i | 0 <= i < |s.conns| :: s.conns[i].state == Free
    ensures s.kernel == multiset{} && s.active == base && s.acceptsDone == |s.log|
  {
    NoneOccupied(s.conns);
    forall op: Op ensures s.kernel[op] == 0 {
      assert s.kernel[op] == Expected(s, op);
    }
  }

  // ----- every step keeps it ------------------------------------------------------------------

  lemma OneOp(e: Effect, sent: string, slot: nat, id: nat)
    requires Settled(e, sent)
    ensures OpSet(e.ops, slot, id) == if e.end.Open? then multiset{ConnOp(Awaited(e.c), slot, id)} else multiset{}
    ensures e.end.Open? <==> e.c.state != Free
  {
    if e.end.Open? { assert e.ops[1..] == []; }
  }

  lemma PerformKernel(s: Srv, i: nat, e: Effect)
    requires Shaped(s) && i < |s.conns| && Settled(e, s.sent[i])
    requires forall op: Op :: s.kernel[op] == if op.ConnOp? && op.slot == i then 0 else Expected(s, op)
    ensures KernelOk(Perform(s, i, e))
  {
    hide Settled, OpSet, Awaited;
    OneOp(e, s.sent[i], i, s.ids[i]);
    var t := Perform(s, i, e);
    forall op: Op ensures t.kernel[op] == Expected(t, op) {}
  }

  lemma PerformLog(s: Srv, i: nat, e: Effect)
    requires Shaped(s) && i < |s.conns| && Settled(e, s.sent[i])
    requires s.conns[i].state != Free && s.ids[i] < s.acceptsDone && LogOk(s)
    ensures LogOk(Perform(s, i, e))
  {
    hide Settled, OpSet, EndOk;
    SettledParts(e, s.sent[i]);
    OneOp(e, s.sent[i], i, s.ids[i]);
  }

  lemma PerformCounts(s: Srv, base: int, i: nat, e: Effect)
    requires Shaped(s) && i < |s.conns| && Settled(e, s.sent[i])
    requires s.conns[i].state != Free && s.conns[i].fd >= 0 && CountsOk(s, base)
    ensures CountsOk(Perform(s, i, e), base)
  {
    hide Settled, OpSet, Occupied;
    OneOp(e, s.sent[i], i, s.ids[i]);
    OccupiedUpdate(s.conns, i, e.c);
    SomeOccupied(s.conns, i);
  }

  /** A settled effect on a slot that has nothing in flight. */
  lemma PerformKeeps(s: Srv, base: int, i: nat, e: Effect)
    requires Shaped(s) && i < |s.conns|
    requires Settled(e, s.sent[i]) && s.conns[i].state != Free && s.conns[i].fd >= 0 && s.ids[i] < s.acceptsDone
    requires forall j | 0 <= j < |s.conns| && j != i ::
               if s.conns[j].state == Free then s.conns[j] == FREE else Waits(s.conns[j], s.sent[j]) && s.ids[j] < s.acceptsDone
    requires forall op: Op :: s.kernel[op] == if op.ConnOp? && op.slot == i then 0 else Expected(s, op)
    requires CountsOk(s, base) && LogOk(s)
    ensures Inv(Perform(s, i, e), base)
  {
    hide Settled, Waits, OpSet, KernelOk, CountsOk, LogOk, Expected;
    PerformKernel(s, i, e);
    PerformLog(s, i, e);
    PerformCounts(s, base, i, e);
    SettledParts(e, s.sent[i]);
    OneOp(e, s.sent[i], i, s.ids[i]);
  }

  lemma SettledParts(e: Effect, sent: string)
    requires Settled(e, sent)
    ensures e.end.Open? ==> Waits(e.c, sent + e.wrote)
    ensures !e.end.Open? ==> e.c == FREE && EndOk(e.end, sent + e.wrote)
  {}

  lemma SomeOccupied(conns: seq<Conn>, i: nat)
    requires i < |conns| && conns[i].state != Free
    ensures Occupied(conns) > 0
  {
    NoneOccupied(conns);
  }

  lemma AcceptKeeps(cfg: Config, s: Srv, base: int, fd: nat, nonblock: bool, sslMade: bool, o: Oracle)
    requires Inv(s, base)
    ensures Shaped(AcceptOne(cfg, s, fd, nonblock, sslMade, o)) && Inv(AcceptOne(cfg, s, fd, nonblock, sslMade, o), base)
  {
    hide Opened, FirstFree, Waits, Occupied, Settled;
    var i := FirstFree(s.conns);
    if nonblock && i < |s.conns| {
      var a := Allocate(s, i, fd);
      OpenedSettles(fd, cfg.tls, sslMade, o);
      OccupiedUpdate(s.conns, i, a.conns[i]);
      assert LogOk(a) && CountsOk(a, base);
      forall op: Op ensures a.kernel[op] == if op.ConnOp? && op.slot == i then 0 else Expected(a, op) {
        assert s.kernel[op] == Expected(s, op);
      }
      PerformKeeps(a, base, i, Opened(fd, cfg.tls, sslMade, o));
    }
  }

  lemma HandledSettles(cfg: Config, c: Conn, sent: string, res: int, o: Oracle)
    requires Waits(c, sent) && Honest(o) && c.len <= |c.buf| && c.off <= c.len
    requires Awaited(c) == SendOp ==> res <= c.len - c.off
    ensures Settled(Handled(cfg, c, Awaited(c), res, o), sent)
  {
    hide Waits, Settled, OnRecv, OnSend, OnPoll, Awaited;
    match Awaited(c) {
      case RecvOp => RecvSettles(c, sent, res, cfg.cap, o);
      case SendOp => SendSettles(c, sent, res, o);
      case PollOp => PollSettles(c, sent, res, cfg.cap, o);
    }
  }

  lemma WaitsBounds(c: Conn, sent: string)
    requires Waits(c, sent)
    ensures c.off <= c.len <= |c.buf| && c.fd >= 0 && c.state != Free
  {}

  lemma SubmitKeeps(cfg: Config, s: Srv, base: int, sqe: bool)
    requires Inv(s, base)
    ensures Inv(SubmitAccept(cfg, s, sqe), base)
  {
    var t := SubmitAccept(cfg, s, sqe);
    forall op: Op ensures t.kernel[op] == Expected(t, op) { assert s.kernel[op] == Expected(s, op); }
  }

  lemma AcceptDoneKeeps(cfg: Config, s: Srv, base: int, res: int, nonblock: bool, sslMade: bool, again: bool, o: Oracle)
    requires Inv(s, base) && Legal(s, AcceptDone(res, nonblock, sslMade, again, o))
    ensures Inv(Step(cfg, s, AcceptDone(res, nonblock, sslMade, again, o)), base)
  {
    hide AcceptOne, SlotsOk, CountsOk, LogOk, SubmitAccept;
    assert s.kernel[AcceptOp] == Expected(s, AcceptOp);
    var t := s.(acceptPending := false, kernel := s.kernel - multiset{AcceptOp});
    assert Inv(t, base) by {
      SameSlots(s, t, base);
      forall op: Op ensures t.kernel[op] == Expected(t, op) { assert s.kernel[op] == Expected(s, op); }
    }
    if res >= 0 { AcceptKeeps(cfg, t, base, res, nonblock, sslMade, o); }
    SubmitKeeps(cfg, if res >= 0 then AcceptOne(cfg, t, res, nonblock, sslMade, o) else t, base, again);
  }

  /** Only slots, counters and log matter to these parts. */
  lemma SameSlots(s: Srv, t: Srv, base: int)
    requires Shaped(s) && SlotsOk(s) && CountsOk(s, base) && LogOk(s)
    requires t == s.(acceptPending := t.acceptPending, kernel := t.kernel)
    ensures SlotsOk(t) && CountsOk(t, base) && LogOk(t)
  {
    hide Waits, Occupied, EndOk;
  }

  lemma ConnDoneKeeps(cfg: Config, s: Srv, base: int, kind: Kind, slot: nat, id: nat, res: int, o: Oracle)
    requires Inv(s, base) && Legal(s, ConnDone(kind, slot, id, res, o))
    ensures Inv(Step(cfg, s, ConnDone(kind, slot, id, res, o)), base)
  {
    hide Waits, Handled, Perform, Settled, CountsOk, LogOk;
    CompletionFindsOwner(s, base, kind, slot, id);
    var t := s.(kernel := s.kernel - multiset{ConnOp(kind, slot, id)});
    var c := s.conns[slot];
    SameSlots(s, t, base);
    WaitsBounds(c, s.sent[slot]);
    HandledSettles(cfg, c, s.sent[slot], res, o);
    forall op: Op ensures t.kernel[op] == if op.ConnOp? && op.slot == slot then 0 else Expected(t, op) {
      assert s.kernel[op] == Expected(s, op);
    }
    PerformKeeps(t, base, slot, Handled(cfg, c, kind, res, o));
  }

  /** Every legal event keeps the invariant. */
  lemma StepKeeps(cfg: Config, s: Srv, base: int, ev: Event)
    requires Inv(s, base) && Legal(s, ev)
    ensures Inv(Step(cfg, s, ev), base)
  {
    hide Inv, Legal;
    match ev {
      case Tick =>
      case AcceptDone(res, nonblock, sslMade, again, o) => AcceptDoneKeeps(cfg, s, base, res, nonblock, sslMade, again, o);
      case ConnDone(kind, slot, id, res, o) => ConnDoneKeeps(cfg, s, base, kind, slot, id, res, o);
    }
  }

  // ----- runs -----------------------------------------------------------------------------------

  function Start(slots: nat, base: int): Srv {
    Srv(seq(slots, _ => FREE), seq(slots, _ => 0), seq(slots, _ => ""), false, 0, base, multiset{}, [])
  }

  lemma {:induction false} StartFree(n: nat)
    ensures Occupied(seq(n, _ => FREE)) == 0
  {
    NoneOccupied(seq(n, _ => FREE));
  }

  lemma StartOk(slots: nat, base: nat)
    ensures Inv(Start(slots, base), base)
  {
    StartFree(slots);
  }

  /** Each event is legal when it comes. */
  ghost predicate LegalRun(cfg: Config, s: Srv, events: seq<Event>)
    decreases |events|
  {
    events == [] || (Shaped(s) && Legal(s, events[0]) && LegalRun(cfg, Step(cfg, s, events[0]), events[1..]))
  }

  ghost function After(cfg: Config, s: Srv, events: seq<Event>): Srv
    requires LegalRun(cfg, s, events)
    decreases |events|
  {
    if events == [] then s else After(cfg, Step(cfg, s, events[0]), events[1..])
  }

  /** Every state of every run satisfies the invariant. */
  lemma {:induction false} RunKeeps(cfg: Config, s: Srv, base: int, events: seq<Event>)
    requires Inv(s, base) && LegalRun(cfg, s, events)
    ensures Inv(After(cfg, s, events), base)
    decreases |events|
  {
    hide Inv, Step, Legal;
    if events != [] {
      StepKeeps(cfg, s, base, events[0]);
      RunKeeps(cfg, Step(cfg, s, events[0]), base, events[1..]);
    }
  }

  /** From the empty table, through any run: the invariant, and so every completion that can
      come next finds its own connection. */
  lemma LoopIsSafe(cfg: Config, slots: nat, base: nat, sqe: bool, events: seq<Event>)
    requires LegalRun(cfg, SubmitAccept(cfg, Start(slots, base), sqe), events)
    ensures var t := After(cfg, SubmitAccept(cfg, Start(slots, base), sqe), events);
            && Inv(t, base)
            && forall kind: Kind, slot: nat, id: nat | ConnOp(kind, slot, id) in t.kernel ::
                 slot < |t.conns| && t.ids[slot] == id && t.conns[slot].state != Free && Flag(t.conns[slot], kind)
  {
    hide Step, LegalRun, After, Inv;
    StartOk(slots, base);
    SubmitKeeps(cfg, Start(slots, base), base, sqe);
    RunKeeps(cfg, SubmitAccept(cfg, Start(slots, base), sqe), base, events);
    var t := After(cfg, SubmitAccept(cfg, Start(slots, base), sqe), events);
    forall kind: Kind, slot: nat, id: nat | ConnOp(kind, slot, id) in t.kernel
      ensures slot < |t.conns| && slot < |t.ids| && t.ids[slot] == id && t.conns[slot].state != Free && Flag(t.conns[slot], kind)
    {
      OwnerWaits(t, base, kind, slot, id);
    }
  }

  lemma OwnerWaits(s: Srv, base: int, kind: Kind, slot: nat, id: nat)
    requires Inv(s, base) && ConnOp(kind, slot, id) in s.kernel
    ensures slot < |s.conns| && slot < |s.ids| && id == s.ids[slot] && s.conns[slot].state != Free && Flag(s.conns[slot], kind)
  {
    CompletionFindsOwner(s, base, kind, slot, id);
    WaitsBounds(s.conns[slot], s.sent[slot]);
  }

  // ----- accepting --------------------------------------------------------------------------------

  /** Below the limit the loop accepts again whenever a submission entry is free, and it never
      accepts more than the limit. */
  predicate AcceptsOk(cfg: Config, s: Srv) {
    cfg.maxAccepts > 0 ==> s.acceptsDone + (if s.acceptPending then 1 else 0) <= cfg.maxAccepts
  }

  lemma AcceptsStep(cfg: Config, s: Srv, base: int, ev: Event)
    requires Inv(s, base) && Legal(s, ev) && AcceptsOk(cfg, s)
    ensures AcceptsOk(cfg, Step(cfg, s, ev))
    ensures var t := Step(cfg, s, ev);
            ev.AcceptDone? && ev.again && (cfg.maxAccepts == 0 || t.acceptsDone < cfg.maxAccepts) ==> t.acceptPending
    ensures !ev.AcceptDone? ==> Step(cfg, s, ev).acceptPending == s.acceptPending
  {
    hide Handled, Opened, OpSet, SlotsOk, CountsOk, LogOk, FirstFree;
    if ev.AcceptDone? { assert s.kernel[AcceptOp] == Expected(s, AcceptOp); }
  }

  lemma {:induction false} AcceptLimit(cfg: Config, s: Srv, base: int, events: seq<Event>)
    requires Inv(s, base) && LegalRun(cfg, s, events) && AcceptsOk(cfg, s)
    ensures AcceptsOk(cfg, After(cfg, s, events))
    decreases |events|
  {
    hide Inv, Step, Legal, AcceptsOk;
    if events != [] {
      StepKeeps(cfg, s, base, events[0]);
      AcceptsStep(cfg, s, base, events[0]);
      AcceptLimit(cfg, Step(cfg, s, events[0]), base, events[1..]);
    }
  }

  // ----- shutdown -------------------------------------------------------------------------------

  /** What the slots, counters and log keep while the slots are closed one by one. */
  ghost predicate Closing(s: Srv, base: int) {
    Shaped(s) && SlotsOk(s) && CountsOk(s, base) && LogOk(s)
  }

  lemma CloseKeeps(s: Srv, base: int, i: nat)
    requires Closing(s, base) && i < |s.conns|
    ensures Closing(Perform(s, i, Close(s.conns[i], false)), base)
    ensures Perform(s, i, Close(s.conns[i], false)).conns == s.conns[i := FREE]
  {
    hide CountsOk, LogOk, Waits, Settled;
    var e := Close(s.conns[i], false);
    if s.conns[i].state != Free {
      WaitsAborts(s.conns[i], s.sent[i]);
      WaitsBounds(s.conns[i], s.sent[i]);
      PerformLog(s, i, e);
      PerformCounts(s, base, i, e);
    } else {
      assert s.sent[i] + "" == s.sent[i];
      assert Perform(s, i, e) == s;
    }
  }

  lemma WaitsAborts(c: Conn, sent: string)
    requires Waits(c, sent)
    ensures Settled(Close(c, false), sent)
  {
    CloseSound(c, sent, false);
  }

  lemma AllClosed(s: Srv, base: int)
    requires Closing(s, base) && forall i | 0 <= i < |s.conns| :: s.conns[i].state == Free
    ensures s.active == base && s.acceptsDone == |s.log|
  {
    NoneOccupied(s.conns);
  }
}
