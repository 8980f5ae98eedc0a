/** src/host/ws_stream.c, the fan-out half: the STATE_CHANGED printer and the
    per-subscriber drop-oldest rings. */
module Hub {
  import opened Text

  const PENDING_MAX: nat := 8
  const MSG_MAX: nat := 4608
  const REQUEST_ID: nat := 48

  // ----- STATE_CHANGED text ---------------------------------------------------------

  datatype Change = Change(ns: string, key: string, op: string, value: string, rid: string)

  // A printer puts its text in front of `k`, the text that comes after it.

  function Named(name: string, k: string): string {
    "\"" + (name + ("\"" + (":" + k)))
  }

  function NamedString(name: string, text: string, k: string): string {
    Named(name, "\"" + (text + ("\"" + k)))
  }

  function Head(c: Change, k: string): string {
    "{" + NamedString("type", "STATE_CHANGED",
    "," + NamedString("ns", c.ns,
    "," + NamedString("key", c.key,
    "," + NamedString("op", c.op,
    "," + Named("value", k)))))
  }

  function Foot(c: Change): string {
    "," + NamedString("request_id", c.rid, "}")
  }

  /** The value is embedded raw; an absent one is printed as null. */
  function ChangeText(c: Change): string {
    Head(c, (if c.value == "" then "null" else c.value) + Foot(c))
  }

  /** edge_ws_format_state_changed: None when the text does not fit `cap` bytes. A raw
      value must leave 40 spare bytes behind it. */
  function Format(c: Change, cap: nat): (r: Option<string>)
    ensures r.Some? ==> r.value == ChangeText(c)
  {
    if cap < 32 then None
    else if c.value != "" then
      var n := |Head(c, "")|;
      if n >= cap || n + |c.value| + 40 >= cap || n + |c.value| + |Foot(c)| >= cap then None
      else Some(ChangeText(c))
    else if |ChangeText(c)| >= cap then None
    else Some(ChangeText(c))
  }

  /** The default value limit is small enough for every text: names of at most 63 bytes,
      keys of at most 127 and request ids of at most 47 always fit. */
  lemma DefaultsAlwaysFit(c: Change)
    requires |c.ns| <= 63 && |c.key| <= 127 && |c.rid| <= 47 && c.op in {"put", "delete"}
    requires |c.value| <= 4096
    ensures Format(c, MSG_MAX) == Some(ChangeText(c)) && |ChangeText(c)| < MSG_MAX
  {
    hide Head, Foot;
    HeadLength(c, "");
    HeadLength(c, (if c.value == "" then "null" else c.value) + Foot(c));
    FootLength(c);
  }

  lemma FootLength(c: Change)
    ensures |Foot(c)| == 17 + |c.rid|
  {}

  lemma HeadLength(c: Change, k: string)
    ensures |Head(c, k)| == 57 + |c.ns| + |c.key| + |c.op| + |k|
  {}

  // ----- subscriber rings -----------------------------------------------------------

  datatype Sub = Sub(active: bool, q: seq<string>, head: nat, tail: nat, n: nat)

  function Slot(head: nat, k: nat): (i: nat)
    ensures i < PENDING_MAX
  {
    (head + k) % PENDING_MAX
  }

  lemma SlotsDiffer(head: nat, j: nat, k: nat)
    requires head < PENDING_MAX && j < k < j + PENDING_MAX && k <= PENDING_MAX
    ensures Slot(head, j) != Slot(head, k)
  {}

  lemma SlotShift(head: nat, k: nat)
    requires head < PENDING_MAX && k < PENDING_MAX
    ensures Slot(Slot(head, 1), k) == Slot(head, k + 1)
    ensures Slot(Slot(head, k), 1) == Slot(head, k + 1)
  {
    var next := if head == PENDING_MAX - 1 then 0 else head + 1;
    var there := if head + k >= PENDING_MAX then head + k - PENDING_MAX else head + k;
    Remainder(head + 1, if next == 0 then 1 else 0, PENDING_MAX, next);
    Remainder(head + k, if head + k >= PENDING_MAX then 1 else 0, PENDING_MAX, there);
  }

  ghost predicate SubValid(s: Sub) {
    && |s.q| == PENDING_MAX && s.head < PENDING_MAX && s.n <= PENDING_MAX
    && s.tail == Slot(s.head, s.n)
    && (!s.active ==> s.n == 0)
  }

  /** The queued messages, oldest first. */
  ghost function Queue(s: Sub): (r: seq<string>)
    requires SubValid(s)
    ensures |r| == s.n
  {
    seq(s.n, k requires 0 <= k < s.n => s.q[Slot(s.head, k)])
  }

  /** A full queue loses its oldest message. */
  function Pushed(q: seq<string>, msg: string): seq<string> {
    (if |q| >= PENDING_MAX then q[1..] else q) + [msg]
  }

  ghost function QueueOrNone(s: Sub): Option<seq<string>>
    requires SubValid(s)
  {
    if s.active then Some(Queue(s)) else None
  }

  ghost function QueuesOf(subs: seq<Sub>): seq<Option<seq<string>>>
    requires forall i | 0 <= i < |subs| :: SubValid(subs[i])
  {
    seq(|subs|, i requires 0 <= i < |subs| => QueueOrNone(subs[i]))
  }

  /** A subscriber's queue after an announcement: texts that do not fit are not sent. */
  function Announced(q: Option<seq<string>>, c: Option<Change>): Option<seq<string>> {
    if q.None? || c.None? || Format(c.value, MSG_MAX).None? then q
    else Some(Pushed(q.value, ChangeText(c.value)))
  }

  function AnnounceAll(qs: seq<Option<seq<string>>>, c: Option<Change>): (r: seq<Option<seq<string>>>)
    ensures c.None? ==> r == qs
  {
    seq(|qs|, i requires 0 <= i < |qs| => Announced(qs[i], c))
  }

  /** A broadcast whose text fits its buffer is the newest message of every subscriber, in front
      of which at most the oldest of eight was dropped; nobody else hears it. */
  lemma EveryoneHears(qs: seq<Option<seq<string>>>, c: Change, i: nat)
    requires i < |qs|
    ensures var after := AnnounceAll(qs, Some(c));
            && |after| == |qs| && (after[i].Some? <==> qs[i].Some?)
            && (qs[i].Some? && Format(c, 4608).Some? ==>
                  after[i].value == (if |qs[i].value| >= 8 then qs[i].value[1..] else qs[i].value) + [ChangeText(c)])
            && (Format(c, 4608).None? ==> after[i] == qs[i])
  {
    hide Format, ChangeText;
  }

  const IDLE := Sub(false, seq(PENDING_MAX, _ => ""), 0, 0, 0)

  function HexDigit(d: nat): char
    requires d < 16
  {
    "0123456789abcdef"[d]
  }

  /** %016llx */
  function Hex16(v: nat, digits: nat): string {
    if digits == 0 then "" else Hex16(v / 16, digits - 1) + [HexDigit(v % 16)]
  }

  lemma SlotZero(head: nat)
    requires head < PENDING_MAX
    ensures Slot(head, 0) == head
  {}

  lemma QueueAt(s: Sub, k: nat)
    requires SubValid(s) && k < s.n
    ensures Queue(s)[k] == s.q[Slot(s.head, k)]
  {}

  lemma QueueHeadFreed(s: Sub)
    requires SubValid(s) && s.n > 0
    ensures var s' := s.(q := s.q[s.head := ""], head := Slot(s.head, 1), n := s.n - 1);
            SubValid(s') && Queue(s) == [s.q[s.head]] + Queue(s')
  {
    var s' := s.(q := s.q[s.head := ""], head := Slot(s.head, 1), n := s.n - 1);
    hide Slot, Queue;
    SlotShift(s.head, s.n - 1);
    SlotZero(s.head);
    QueueAt(s, 0);
    forall k | 0 <= k < s'.n ensures Queue(s')[k] == Queue(s)[k + 1] {
      SlotShift(s.head, k);
      SlotsDiffer(s.head, 0, k + 1);
      QueueAt(s, k + 1);
      QueueAt(s', k);
    }
  }

  lemma QueueTailFilled(s: Sub, msg: string)
    requires SubValid(s) && s.n < PENDING_MAX && s.active
    ensures var s' := s.(q := s.q[s.tail := msg], tail := Slot(s.tail, 1), n := s.n + 1);
            SubValid(s') && Queue(s') == Queue(s) + [msg]
  {
    var s' := s.(q := s.q[s.tail := msg], tail := Slot(s.tail, 1), n := s.n + 1);
    hide Slot, Queue;
    SlotShift(s.head, s.n);
    forall k | 0 <= k < s.n ensures Queue(s')[k] == Queue(s)[k] {
      SlotsDiffer(s.head, k, s.n);
      QueueAt(s, k);
      QueueAt(s', k);
    }
    QueueAt(s', s.n);
  }

  class FanOut {
    const subs: array<Sub>
    var nextRid: nat

    ghost predicate Valid()
      reads this, subs
    {
      forall i | 0 <= i < subs.Length :: SubValid(subs[i])
    }

    /** Per slot: its queue, or None if nobody subscribed there. */
    ghost function Queues(): seq<Option<seq<string>>>
      reads this, subs
      requires Valid()
    {
      QueuesOf(subs[..])
    }

    constructor (maxSubs: nat)
      ensures Valid() && fresh(subs) && nextRid == 1
      ensures Queues() == seq(if maxSubs == 0 then 64 else maxSubs, _ => None)
    {
      subs := new Sub[if maxSubs == 0 then 64 else maxSubs](_ => IDLE);
      nextRid := 1;
    }

    /** edge_ws_hub_subscribe: idempotent, keeps what is queued. */
    method Subscribe(slot: int) returns (ok: bool)
      requires Valid()
      modifies subs
      ensures Valid() && ok == (0 <= slot < subs.Length)
      ensures Queues() == if ok && old(Queues())[slot].None? then old(Queues())[slot := Some([])] else old(Queues())
    {
      if slot < 0 || slot >= subs.Length { return false; }
      ghost var before := subs[slot];
      subs[slot] := subs[slot].(active := true);
      assert Queue(subs[slot]) == Queue(before);
      ok := true;
    }

    /** edge_ws_hub_unsubscribe */
    method Unsubscribe(slot: int)
      requires Valid()
      modifies subs
      ensures Valid()
      ensures Queues() == if 0 <= slot < subs.Length then old(Queues())[slot := None] else old(Queues())
    {
      if slot < 0 || slot >= subs.Length { return; }
      subs[slot] := IDLE;
    }

    /** edge_ws_hub_mint_request_id */
    method MintRequestId(prefer: string, outSz: nat) returns (rid: string)
      modifies this`nextRid
      ensures nextRid == if prefer != "" || outSz == 0 then old(nextRid) else (old(nextRid) + 1) % 0x1_0000_0000_0000_0000
      ensures outSz > 0 ==> rid == Clip(if prefer != "" then prefer else "eh" + Hex16(old(nextRid), 16), outSz)
    {
      if outSz == 0 { return ""; }
      var text;
      if prefer != "" {
        text := prefer;
      } else {
        text := "eh" + Hex16(nextRid, 16);
        nextRid := (nextRid + 1) % 0x1_0000_0000_0000_0000;
      }
      rid := Clip(text, outSz);
    }

    /** sub_push */
    method SubPush(i: nat, msg: string) returns (ok: bool)
      requires Valid() && i < subs.Length
      modifies subs
      ensures Valid() && ok == old(subs[i].active)
      ensures ok ==> subs[i].active && Queue(subs[i]) == Pushed(old(Queue(subs[i])), msg)
      ensures subs[..] == old(subs[..])[i := subs[i]] && (!ok ==> subs[i] == old(subs[i]))
    {
      if !subs[i].active { return false; }
      var s := subs[i];
      if s.n >= PENDING_MAX {
        QueueHeadFreed(s);
        s := s.(q := s.q[s.head := ""], head := Slot(s.head, 1), n := s.n - 1);
      }
      QueueTailFilled(s, msg);
      s := s.(q := s.q[s.tail := msg], tail := Slot(s.tail, 1), n := s.n + 1);
      subs[i] := s;
      ok := true;
    }

    /** edge_ws_hub_broadcast_state_changed */
    method Broadcast(c: Change) returns (n: nat)
      requires Valid()
      modifies subs
      ensures Valid()
      ensures Queues() == AnnounceAll(old(Queues()), Some(c))
      ensures n == if Format(c, MSG_MAX).None? then 0 else old(Actives(subs[..]))
    {
      hide Format, ChangeText;
      var msg := Format(c, MSG_MAX);
      n := 0;
      if msg.None? { return; }
      ghost var before := subs[..];
      for i := 0 to subs.Length
        invariant Valid() && n == Actives(before[..i])
        invariant forall j | i <= j < subs.Length :: subs[j] == before[j]
        invariant forall j | 0 <= j < i :: QueueOrNone(subs[j]) == Announced(QueueOrNone(before[j]), Some(c))
      {
        assert before[..i + 1][..i] == before[..i];
        ghost var now := subs[..];
        var ok := SubPush(i, msg.value);
        assert forall j | 0 <= j < subs.Length && j != i :: subs[j] == subs[..][j] == now[j];
        if ok { n := n + 1; }
      }
      assert before[..subs.Length] == before;
    }

    /** edge_ws_hub_take_pending: 1 and the oldest message, 0 if none, -1 if it does not
        fit. */
    method TakePending(slot: int, outCap: nat) returns (rc: int, out: string)
      requires Valid()
      modifies subs
      ensures Valid()
      ensures rc != 1 ==> Queues() == old(Queues())
      ensures rc == 1 ==> 0 <= slot < subs.Length && old(Queues())[slot].Some? && old(Queues())[slot].value != []
                          && out == old(Queues())[slot].value[0] && |out| < outCap
                          && Queues() == old(Queues())[slot := Some(old(Queues())[slot].value[1..])]
      ensures rc == -1 <==> outCap == 0 || slot < 0 || slot >= subs.Length
                            || (var q := old(Queues())[slot]; q.Some? && q.value != [] && |q.value[0]| >= outCap)
      ensures rc == 0 <==> outCap > 0 && 0 <= slot < subs.Length
                           && (var q := old(Queues())[slot]; q.None? || q.value == [])
    {
      out := "";
      if outCap == 0 || slot < 0 || slot >= subs.Length { return -1, out; }
      var s := subs[slot];
      if !s.active || s.n == 0 { return 0, out; }
      if |s.q[s.head]| + 1 > outCap { QueueHeadFreed(s); return -1, out; }
      out := s.q[s.head];
      QueueHeadFreed(s);
      s := s.(q := s.q[s.head := ""], head := Slot(s.head, 1), n := s.n - 1);
      subs[slot] := s;
      rc := 1;
    }
  }

  /** edge_ws_hub_subscriber_count */
  function Actives(subs: seq<Sub>): nat {
    if subs == [] then 0 else Actives(subs[..|subs| - 1]) + if subs[|subs| - 1].active then 1 else 0
  }

  // ----- whole runs of one subscription ---------------------------------------------

  datatype HubEvent = Sent(msg: string) | Taken

  /** Everything since the subscription: all broadcasts, the queue, the delivered texts,
      and which broadcasts were delivered and which were dropped. */
  datatype History = History(
    sent: seq<string>, queue: seq<string>, out: seq<string>, taken: seq<nat>, lost: seq<nat>)

  function HubStep(h: History, e: HubEvent): History
    requires |h.queue| <= |h.sent|
  {
    match e
    case Sent(msg) =>
      h.(sent := h.sent + [msg], queue := Pushed(h.queue, msg),
         lost := if |h.queue| >= PENDING_MAX then h.lost + [|h.sent| - |h.queue|] else h.lost)
    case Taken =>
      if h.queue == [] then h
      else h.(queue := h.queue[1..], out := h.out + [h.queue[0]], taken := h.taken + [|h.sent| - |h.queue|])
  }

  ghost predicate HistoryOk(h: History) {
    && |h.queue| <= PENDING_MAX && |h.queue| <= |h.sent|
    && h.queue == h.sent[|h.sent| - |h.queue|..]
    && Increasing(h.taken, |h.sent| - |h.queue|) && Increasing(h.lost, |h.sent| - |h.queue|)
    && (forall i | 0 <= i < |h.sent| - |h.queue| :: i in h.taken <==> i !in h.lost)
    && |h.out| == |h.taken| && (forall i | 0 <= i < |h.out| :: h.out[i] == h.sent[h.taken[i]])
    && (forall i | i in h.lost :: i + PENDING_MAX < |h.sent|)
  }

  lemma SentOk(h: History, msg: string)
    requires HistoryOk(h)
    ensures HistoryOk(HubStep(h, Sent(msg)))
  {
    var h', lo := HubStep(h, Sent(msg)), |h.sent| - |h.queue|;
    if |h.queue| >= PENDING_MAX {
      assert forall i :: i in h'.lost <==> i in h.lost || i == lo;
    }
  }

  lemma TakenOk(h: History)
    requires HistoryOk(h)
    ensures HistoryOk(HubStep(h, Taken))
  {
    var h', lo := HubStep(h, Taken), |h.sent| - |h.queue|;
    if h.queue != [] {
      assert h.queue[0] == h.sent[lo];
      assert forall i :: i in h'.taken <==> i in h.taken || i == lo;
    }
  }

  lemma HubStepOk(h: History, e: HubEvent)
    requires HistoryOk(h)
    ensures HistoryOk(HubStep(h, e))
  {
    hide HistoryOk, HubStep;
    match e
    case Sent(msg) => SentOk(h, msg);
    case Taken => TakenOk(h);
  }

  ghost function HubRun(es: seq<HubEvent>): (h: History)
    ensures |h.queue| <= |h.sent|
  {
    if es == [] then History([], [], [], [], []) else HubStep(HubRun(es[..|es| - 1]), es[|es| - 1])
  }

  /** In every run of a subscription: the queue is the last broadcasts, at most 8 of
      them; deliveries are in broadcast order; every older broadcast was either delivered
      or dropped, never both, and is dropped only once 8 newer ones had been queued; with
      nothing dropped, deliveries followed by the queue are exactly the broadcasts. */
  lemma {:induction false} FanOutRun(es: seq<HubEvent>)
    ensures HistoryOk(HubRun(es))
    ensures HubRun(es).lost == [] ==> HubRun(es).out + HubRun(es).queue == HubRun(es).sent
  {
    if es != [] {
      FanOutRun(es[..|es| - 1]);
      HubStepOk(HubRun(es[..|es| - 1]), es[|es| - 1]);
    }
    NothingLost(HubRun(es));
  }

  lemma NothingLost(h: History)
    requires HistoryOk(h)
    ensures h.lost == [] ==> h.out + h.queue == h.sent
  {
    if h.lost == [] {
      AllTaken(h.taken, |h.sent| - |h.queue|);
      assert h.out == h.sent[..|h.sent| - |h.queue|];
    }
  }

  lemma {:induction false} AllTaken(taken: seq<nat>, n: nat)
    requires Increasing(taken, n)
    requires forall i | 0 <= i < n :: i in taken
    ensures |taken| == n && forall i | 0 <= i < n :: taken[i] == i
  {
    IncreasingBound(taken, n);
    if n > 0 {
      assert n - 1 in taken;
      var k :| 0 <= k < |taken| && taken[k] == n - 1;
      assert taken[|taken| - 1] >= taken[k];
      var init := taken[..k];
      forall i | 0 <= i < n - 1 ensures i in init {
        assert i in taken;
        var j :| 0 <= j < |taken| && taken[j] == i;
        assert init[j] == i;
      }
      AllTaken(init, n - 1);
      assert |taken| == n && taken == init + [n - 1];
    }
  }
}
