/** src/host/plugin_host.c: the PENDING protocol. A plugin is foreign code, so a
    dispatch is modelled by its two halves, EnterOnHttp and LeaveOnHttp, between which the
    plugin may call HttpClientRequest as often as it likes and then return any status. */
module PluginHost {
  import opened Text
  import opened Pending

  const ID_SPACE: nat := 0x1_0000_0000_0000_0000

  datatype Status = Done | InFlight | Failed

  datatype Active = Active(plugin: Plugin, slot: nat)

  /** `serves` in an Enter event: the plugin is of the HTTP kind and has on_http. */
  datatype HostState = HostState(cap: nat, parked: Parked, next: nat, active: Option<Active>, started: bool, last: nat)

  datatype Event =
    | Enter(plugin: Plugin, serves: bool, slot: nat)
    | Request(good: bool, tag: nat, timeoutMs: nat)
    | Leave(result: Status)
    | Complete(id: nat)
    | Cancel(slot: nat)
    | Abandon(id: nat)

  predicate Enters(h: HostState, e: Event)
    requires e.Enter?
  {
    e.serves && !InboundParked(h.parked, e.slot)
  }

  /** When http_client_request is accepted. */
  predicate Accepts(h: HostState, good: bool) {
    good && h.active.Some? && !h.started && |h.parked| < h.cap && !InboundParked(h.parked, h.active.value.slot)
  }

  function NewPark(a: Active, tag: nat, timeoutMs: nat): Park {
    Park(a.slot, a.plugin, tag, timeoutMs, 0, "")
  }

  /** Id 0 is skipped when the 64-bit counter wraps. */
  function MintedId(next: nat): nat {
    if next == 0 then 1 else next
  }

  /** The ids an event removes from the table. */
  function Gone(h: HostState, e: Event): set<nat> {
    match e
    case Leave(result) =>
      if result == InFlight && !h.started && h.active.Some? then IdsOf(h.parked, h.active.value.slot) else {}
    case Complete(id) => if id in h.parked then {id} else {}
    case Cancel(slot) => IdsOf(h.parked, slot)
    case Abandon(id) => if id in h.parked then {id} else {}
    case _ => {}
  }

  function Step(h: HostState, e: Event): HostState {
    match e
    case Enter(plugin, serves, slot) =>
      if Enters(h, e) then h.(active := Some(Active(plugin, slot)), started := false) else h
    case Request(good, tag, timeoutMs) =>
      if !Accepts(h, good) then h
      else
        var id := MintedId(h.next);
        var h' := h.(next := (id + 1) % ID_SPACE);
        if id in h.parked then h'
        else h'.(parked := h.parked[id := NewPark(h.active.value, tag, timeoutMs)], started := true, last := id)
    case Leave(result) => h.(active := None, parked := h.parked - Gone(h, e))
    case _ => h.(parked := h.parked - Gone(h, e))
  }

  class Host {
    const pending: PendingTable
    var active: Option<Active>
    var started: bool
    var nextId: nat
    var lastId: nat

    ghost predicate Valid()
      reads this, pending, pending.slots
    {
      pending.Valid() && nextId < ID_SPACE
    }

    ghost function View(): HostState
      reads this, pending, pending.slots
    {
      HostState(pending.slots.Length, pending.View(), nextId, active, started, lastId)
    }

    constructor (maxPending: nat)
      ensures Valid() && fresh(pending) && fresh(pending.slots)
      ensures View() == HostState(if maxPending == 0 then DEFAULT_CAP else maxPending, map[], 1, None, false, 0)
    {
      pending := new PendingTable(maxPending);
      active, started, nextId, lastId := None, false, 1, 0;
    }

    /** edge_plugin_host_dispatch_http up to the call of on_http. */
    method EnterOnHttp(plugin: Plugin, serves: bool, slot: nat) returns (ok: bool)
      requires Valid()
      modifies this
      ensures Valid() && View() == Step(old(View()), Enter(plugin, serves, slot))
      ensures ok == Enters(old(View()), Enter(plugin, serves, slot))
    {
      if !serves { return false; }
      var parked := pending.FindInbound(slot);
      if parked.Some? { return false; }
      active := Some(Active(plugin, slot));
      started := false;
      ok := true;
    }

    /** edge_plugin_host_dispatch_http after on_http returned. */
    method LeaveOnHttp(result: Status) returns (st: Status)
      requires Valid() && active.Some?
      modifies this, pending`count, pending.slots
      ensures Valid() && View() == Step(old(View()), Leave(result))
      ensures st == if result == InFlight && !old(started) then Failed else result
    {
      var slot := active.value.slot;
      active := None;
      if result == InFlight {
        if !started {
          var _ := pending.ReleaseInbound(slot);
          return Failed;
        }
        return InFlight;
      }
      st := result;
    }

    /** The guards of api_http_client_request. */
    method MayRequest(good: bool) returns (ok: bool)
      requires Valid()
      ensures ok == Accepts(View(), good)
    {
      if active.None? { return false; }
      if started { return false; }
      var full := pending.Full();
      if full { return false; }
      var parked := pending.FindInbound(active.value.slot);
      ok := parked.None? && good;
    }

    /** Takes the next id, skipping 0. */
    method Mint() returns (id: nat)
      requires Valid()
      modifies this`nextId
      ensures Valid() && id == MintedId(old(nextId)) && nextId == (id + 1) % ID_SPACE
    {
      id := nextId;
      nextId := (nextId + 1) % ID_SPACE;
      if id == 0 {
        id := nextId;
        nextId := (nextId + 1) % ID_SPACE;
      }
    }

    /** api_http_client_request */
    method HttpClientRequest(good: bool, tag: nat, timeoutMs: nat) returns (id: Option<nat>)
      requires Valid()
      modifies this, pending`count, pending.slots
      ensures Valid() && View() == Step(old(View()), Request(good, tag, timeoutMs))
      ensures id == if Accepts(old(View()), good) && MintedId(old(nextId)) !in old(View()).parked
                    then Some(MintedId(old(nextId))) else None
    {
      hide Contents;
      var may := MayRequest(good);
      if !may { return None; }
      var minted := Mint();
      var ok := pending.Insert(active.value.slot, minted, active.value.plugin, tag, timeoutMs, 0, "");
      if !ok { return None; }
      started := true;
      lastId := minted;
      id := Some(minted);
    }

    /** edge_plugin_host_complete_outbound, where on_http_complete would answer
        `result`; `called` says whether it was called. */
    method CompleteOutbound(id: nat, result: Status) returns (st: Status, called: bool)
      requires Valid()
      modifies pending`count, pending.slots
      ensures Valid() && View() == Step(old(View()), Complete(id))
      ensures called == (id in old(View()).parked && old(View()).parked[id].plugin.completes)
      ensures st == if called && result == Done then Done else Failed
    {
      pending.ZeroAbsent();
      if id == 0 { return Failed, false; }
      var e := pending.FindOutbound(id);
      if e.None? { return Failed, false; }
      called := pending.slots[e.value].park.plugin.completes;
      pending.Release(e.value);
      if !called { return Failed, false; }
      st := if result == Done then Done else Failed;
    }

    /** edge_plugin_host_cancel_inbound */
    method CancelInbound(slot: nat) returns (ok: bool)
      requires Valid()
      modifies pending`count, pending.slots
      ensures Valid() && View() == Step(old(View()), Cancel(slot))
      ensures ok == InboundParked(old(View()).parked, slot)
    {
      ok := pending.ReleaseInbound(slot);
    }

    /** edge_plugin_host_finish_pending_sync: without memory for the upstream body the
        request is given up, otherwise it is completed. */
    method FinishPendingSync(memory: bool, result: Status) returns (st: Status, called: bool)
      requires Valid()
      modifies pending`count, pending.slots
      ensures Valid()
      ensures View() == if lastId == 0 then old(View())
                        else Step(old(View()), if memory then Complete(lastId) else Abandon(lastId))
      ensures called == (lastId != 0 && memory && lastId in old(View()).parked
                         && old(View()).parked[lastId].plugin.completes)
    {
      if lastId == 0 { return Failed, false; }
      if !memory {
        var _ := pending.ReleaseOutbound(lastId);
        return Failed, false;
      }
      st, called := CompleteOutbound(lastId, result);
    }
  }

  // ----- whole runs -----------------------------------------------------------------

  /** A run so far: how many ids were minted, the ids whose on_http_complete was called,
      in order, and those released without it, with the plugin that had asked. */
  datatype Trace = Trace(host: HostState, minted: nat, completed: seq<nat>, released: map<nat, Plugin>)

  predicate CallsComplete(h: HostState, e: Event) {
    e.Complete? && e.id in h.parked && h.parked[e.id].plugin.completes
  }

  function Dropped(h: HostState, e: Event): map<nat, Plugin> {
    map id | id in Gone(h, e) && id in h.parked :: h.parked[id].plugin
  }

  function TraceStep(t: Trace, e: Event): Trace {
    Trace(Step(t.host, e),
          if e.Request? && Accepts(t.host, e.good) then t.minted + 1 else t.minted,
          if CallsComplete(t.host, e) then t.completed + [e.id] else t.completed,
          if CallsComplete(t.host, e) then t.released else t.released + Dropped(t.host, e))
  }

  ghost function Run(cap: nat, es: seq<Event>): Trace {
    if es == [] then Trace(HostState(cap, map[], 1, None, false, 0), 0, [], map[])
    else TraceStep(Run(cap, es[..|es| - 1]), es[|es| - 1])
  }

  /** Every id minted so far is in exactly one place. */
  ghost predicate IdsOk(t: Trace) {
    var p := t.host.parked;
    && t.host.next == t.minted + 1 < ID_SPACE
    && (forall id :: 1 <= id <= t.minted <==> id in p || id in t.completed || id in t.released)
    && (forall id | id in t.completed :: id !in p && id !in t.released)
    && (forall id | id in t.released :: id !in p)
    && (forall i, j | 0 <= i < j < |t.completed| :: t.completed[i] != t.completed[j])
  }

  ghost predicate SlotsOk(p: Parked) {
    forall id, id' | id in p && id' in p && id != id' :: p[id].inbound != p[id'].inbound
  }

  ghost predicate TraceOk(t: Trace) {
    IdsOk(t) && SlotsOk(t.host.parked) && |t.host.parked| <= t.host.cap
  }

  lemma RequestKeepsTrace(t: Trace, e: Event)
    requires TraceOk(t) && e.Request? && TraceStep(t, e).minted < ID_SPACE - 1
    ensures TraceOk(TraceStep(t, e))
    ensures Accepts(t.host, e.good) ==> MintedId(t.host.next) !in t.host.parked
  {
    assert Dropped(t.host, e) == map[];
    var t' := TraceStep(t, e);
    assert t'.released == t.released;
    if Accepts(t.host, e.good) {
      var p, id := t.host.parked, t.minted + 1;
      assert id !in p && id !in t.completed && id !in t.released;
      var park := NewPark(t.host.active.value, e.tag, e.timeoutMs);
      assert t'.host.parked == p[id := park];
      assert forall other | other in p :: p[other].inbound != park.inbound;
    }
  }

  lemma CallKeepsIds(t: Trace, e: Event)
    requires IdsOk(t) && CallsComplete(t.host, e)
    ensures IdsOk(TraceStep(t, e))
  {
    assert forall id :: id in t.completed + [e.id] <==> id in t.completed || id == e.id;
  }

  lemma ReleaseKeepsIds(t: Trace, e: Event)
    requires IdsOk(t) && !CallsComplete(t.host, e) && !e.Request?
    ensures IdsOk(TraceStep(t, e))
  {
    var t', gone := TraceStep(t, e), Gone(t.host, e);
    assert gone <= t.host.parked.Keys;
    assert t'.host.parked == t.host.parked - gone;
    assert forall id :: id in t'.released <==> id in t.released || id in gone;
  }

  lemma SubmapSize<K, V>(a: map<K, V>, b: map<K, V>)
    requires a.Keys <= b.Keys
    ensures |a| <= |b|
  {
    assert b.Keys == a.Keys + (b.Keys - a.Keys);
    assert |a.Keys| == |a|;
  }

  lemma StepKeepsTrace(t: Trace, e: Event)
    requires TraceOk(t) && TraceStep(t, e).minted < ID_SPACE - 1
    ensures TraceOk(TraceStep(t, e))
  {
    if e.Request? {
      RequestKeepsTrace(t, e);
    } else {
      if CallsComplete(t.host, e) {
        CallKeepsIds(t, e);
      } else {
        ReleaseKeepsIds(t, e);
      }
      assert TraceStep(t, e).host.parked == t.host.parked - Gone(t.host, e);
      SubmapSize(TraceStep(t, e).host.parked, t.host.parked);
    }
  }

  /** In every run of dispatches, requests, completions and cancellations with fewer than
      2^64 - 1 minted ids, whatever the plugins do: parked requests have distinct inbound
      slots, never more than the capacity, and each minted id is parked, completed once,
      or released without completion, and only one of these. */
  lemma {:induction false} ProtocolRun(cap: nat, es: seq<Event>)
    requires Run(cap, es).minted < ID_SPACE - 1
    ensures TraceOk(Run(cap, es))
  {
    if es == [] {
      assert forall id :: id !in Run(cap, es).completed;
    } else {
      ProtocolRun(cap, es[..|es| - 1]);
      StepKeepsTrace(Run(cap, es[..|es| - 1]), es[|es| - 1]);
    }
  }

  /** In every such run a request that passes its guards is parked: the insertion behind
      them cannot fail. */
  lemma AcceptedIsParked(cap: nat, es: seq<Event>, tag: nat, timeoutMs: nat)
    requires Run(cap, es).minted < ID_SPACE - 2 && Accepts(Run(cap, es).host, true)
    ensures var h, h' := Run(cap, es).host, Step(Run(cap, es).host, Request(true, tag, timeoutMs));
            h.next !in h.parked && h'.parked == h.parked[h.next := NewPark(h.active.value, tag, timeoutMs)] && h'.started
  {
    ProtocolRun(cap, es);
    RequestKeepsTrace(Run(cap, es), Request(true, tag, timeoutMs));
  }

  /** No completion after a completion or a cancellation: an id that left the table never
      comes back. */
  lemma {:induction false} LeftForEver(cap: nat, es: seq<Event>, more: seq<Event>, id: nat)
    requires Run(cap, es + more).minted < ID_SPACE - 1
    requires 1 <= id <= Run(cap, es).minted && id !in Run(cap, es).host.parked
    ensures id !in Run(cap, es + more).host.parked && !CallsComplete(Run(cap, es + more).host, Complete(id))
    ensures Run(cap, es).minted <= Run(cap, es + more).minted
    ensures id in Run(cap, es + more).released <==> id in Run(cap, es).released
  {
    hide TraceStep, TraceOk, IdsOk, SlotsOk;
    if more == [] {
      assert es + more == es;
    } else {
      var init := more[..|more| - 1];
      assert (es + more)[..|es + more| - 1] == es + init;
      MintedGrows(Run(cap, es + init), more[|more| - 1]);
      LeftForEver(cap, es, init, id);
      ProtocolRun(cap, es + init);
      StepLeaves(Run(cap, es + init), more[|more| - 1], id);
    }
  }

  lemma MintedGrows(t: Trace, e: Event)
    ensures t.minted <= TraceStep(t, e).minted
  {}

  lemma StepLeaves(t: Trace, e: Event, id: nat)
    requires IdsOk(t) && 1 <= id <= t.minted && id !in t.host.parked
    ensures id !in TraceStep(t, e).host.parked && t.minted <= TraceStep(t, e).minted
    ensures id in TraceStep(t, e).released <==> id in t.released
  {
    assert MintedId(t.host.next) == t.minted + 1 != id;
    assert id !in Dropped(t.host, e);
  }

  // ----- one request from its dispatch to its end ---------------------------------------------

  /** Request number `k` of the run was made under this id: by the plugin and for the slot
      of the dispatch it was made in, with this tag and timeout. */
  ghost predicate MadeAt(cap: nat, es: seq<Event>, k: nat, id: nat, park: Park) {
    && k < |es| && es[k].Request? && Run(cap, es[..k]).minted + 1 == id
    && Run(cap, es[..k]).host.active == Some(Active(park.plugin, park.inbound))
    && park.tag == es[k].tag && park.timeoutMs == es[k].timeoutMs
  }

  /** Every parked entry carries what its own request gave. */
  lemma {:induction false} ParkedCarries(cap: nat, es: seq<Event>, id: nat)
    requires Run(cap, es).minted < ID_SPACE - 1 && id in Run(cap, es).host.parked
    ensures exists k: nat :: MadeAt(cap, es, k, id, Run(cap, es).host.parked[id])
  {
    hide TraceOk, TraceStep, MadeAt;
    if es != [] {
      var n := |es| - 1;
      var t, e := Run(cap, es[..n]), es[n];
      MintedGrows(t, e);
      ProtocolRun(cap, es[..n]);
      ParkedBefore(t, e, id);
      if id in t.host.parked {
        ParkedCarries(cap, es[..n], id);
        var k: nat :| MadeAt(cap, es[..n], k, id, t.host.parked[id]);
        MadeStill(cap, es, n, k, id, t.host.parked[id]);
      } else {
        MadeNow(cap, es, n, id, Run(cap, es).host.parked[id]);
      }
    }
  }

  lemma MadeStill(cap: nat, es: seq<Event>, n: nat, k: nat, id: nat, park: Park)
    requires n <= |es| && MadeAt(cap, es[..n], k, id, park)
    ensures MadeAt(cap, es, k, id, park)
  {
    hide Run;
    assert es[..n][..k] == es[..k];
  }

  lemma MadeNow(cap: nat, es: seq<Event>, n: nat, id: nat, park: Park)
    requires n < |es| && es[n].Request? && Run(cap, es[..n]).minted + 1 == id
    requires Run(cap, es[..n]).host.active == Some(Active(park.plugin, park.inbound))
    requires park.tag == es[n].tag && park.timeoutMs == es[n].timeoutMs
    ensures MadeAt(cap, es, n, id, park)
  {
    hide Run;
  }

  lemma ParkedBefore(t: Trace, e: Event, id: nat)
    requires TraceOk(t) && id in TraceStep(t, e).host.parked && TraceStep(t, e).minted < ID_SPACE - 1
    ensures id in t.host.parked ==> TraceStep(t, e).host.parked[id] == t.host.parked[id]
    ensures id !in t.host.parked ==>
              e.Request? && t.host.active.Some? && id == t.minted + 1
              && TraceStep(t, e).host.parked[id] == Park(t.host.active.value.slot, t.host.active.value.plugin, e.tag, e.timeoutMs, 0, "")
  {
    hide Gone;
  }

  /** A dispatch to a slot with nothing parked, in a table with room, whose plugin makes one
      request: the request is parked under the next id, and stays after the dispatch. */
  lemma DispatchParks(cap: nat, es: seq<Event>, plugin: Plugin, slot: nat, tag: nat, timeoutMs: nat)
    requires Run(cap, es).minted < ID_SPACE - 2 && |Run(cap, es).host.parked| < cap
    requires !InboundParked(Run(cap, es).host.parked, slot)
    ensures var t := Run(cap, es);
            var t' := TraceStep(TraceStep(TraceStep(t, Enter(plugin, true, slot)), Request(true, tag, timeoutMs)), Leave(InFlight));
            && t'.host.parked == t.host.parked[t.minted + 1 := Park(slot, plugin, tag, timeoutMs, 0, "")]
            && t'.minted == t.minted + 1 && t'.released == t.released && t'.completed == t.completed
  {
    hide Run, TraceStep, Accepts, TraceOk;
    var t := Run(cap, es);
    ProtocolRun(cap, es);
    CapStays(cap, es);
    EnterEffect(t, plugin, slot);
    var a := TraceStep(t, Enter(plugin, true, slot));
    MayAsk(t, a, plugin, slot);
    RequestMade(a, tag, timeoutMs);
    LeaveEffect(TraceStep(a, Request(true, tag, timeoutMs)), InFlight);
  }

  lemma EnterEffect(t: Trace, plugin: Plugin, slot: nat)
    requires Enters(t.host, Enter(plugin, true, slot))
    ensures TraceStep(t, Enter(plugin, true, slot)) == t.(host := t.host.(active := Some(Active(plugin, slot)), started := false))
  {
    assert Dropped(t.host, Enter(plugin, true, slot)) == map[];
  }

  lemma LeaveEffect(t: Trace, r: Status)
    requires r == Failed || (r == InFlight && t.host.started)
    ensures TraceStep(t, Leave(r)) == t.(host := t.host.(active := None))
  {
    assert Gone(t.host, Leave(r)) == {};
    assert Dropped(t.host, Leave(r)) == map[];
    assert t.host.parked - {} == t.host.parked;
  }

  lemma MayAsk(t: Trace, a: Trace, plugin: Plugin, slot: nat)
    requires TraceOk(t) && a == t.(host := t.host.(active := Some(Active(plugin, slot)), started := false))
    requires |t.host.parked| < t.host.cap && !InboundParked(t.host.parked, slot)
    ensures TraceOk(a) && Accepts(a.host, true)
  {}

  /** A dispatch for a slot that has a request parked changes nothing, and so does a request
      without a dispatch, a second one in the same dispatch, or one beyond the capacity. */
  lemma NotNested(h: HostState, plugin: Plugin, serves: bool, slot: nat, tag: nat, timeoutMs: nat)
    ensures InboundParked(h.parked, slot) ==> Step(h, Enter(plugin, serves, slot)) == h
    ensures h.active.None? || h.started || |h.parked| >= h.cap ==> Step(h, Request(true, tag, timeoutMs)) == h
  {
    assert h.parked - {} == h.parked;
  }

  lemma RequestMade(t: Trace, tag: nat, timeoutMs: nat)
    requires TraceOk(t) && t.minted < ID_SPACE - 2 && Accepts(t.host, true)
    ensures var b := TraceStep(t, Request(true, tag, timeoutMs));
            && b.host.parked == t.host.parked[t.minted + 1 :=
                 Park(t.host.active.value.slot, t.host.active.value.plugin, tag, timeoutMs, 0, "")]
            && b.host.started && b.minted == t.minted + 1 && b.released == t.released && b.completed == t.completed
  {
    var e := Request(true, tag, timeoutMs);
    assert Dropped(t.host, e) == map[];
    assert t.minted + 1 !in t.host.parked;
  }

  lemma {:induction false} CapStays(cap: nat, es: seq<Event>)
    ensures Run(cap, es).host.cap == cap
  {
    if es != [] { CapStays(cap, es[..|es| - 1]); }
  }

  /** How a request ends: a completion removes its entry and is handed to its plugin, once; a
      cancellation, or giving it up, removes the entry and is handed to nobody; none touches
      another entry. */
  lemma Endings(cap: nat, es: seq<Event>, id: nat)
    requires Run(cap, es).minted < ID_SPACE - 1 && id in Run(cap, es).host.parked
    ensures var t := Run(cap, es);
            var done, cut := TraceStep(t, Complete(id)), TraceStep(t, Cancel(t.host.parked[id].inbound));
            var lost := TraceStep(t, Abandon(id));
            && done.host.parked == t.host.parked - {id} && cut.host.parked == t.host.parked - {id}
            && done.completed == (if t.host.parked[id].plugin.completes then t.completed + [id] else t.completed)
            && cut.completed == t.completed && id in cut.released
            && !InboundParked(cut.host.parked, t.host.parked[id].inbound)
            && lost.host.parked == t.host.parked - {id} && lost.completed == t.completed && id in lost.released
  {
    hide Run, TraceStep;
    var t := Run(cap, es);
    ProtocolRun(cap, es);
    Completing(t, id);
    Cancelling(t, id);
    Abandoning(t, id);
  }

  lemma Abandoning(t: Trace, id: nat)
    requires id in t.host.parked
    ensures var lost := TraceStep(t, Abandon(id));
            lost.host.parked == t.host.parked - {id} && lost.completed == t.completed && id in lost.released
  {}

  lemma Completing(t: Trace, id: nat)
    requires id in t.host.parked
    ensures var done := TraceStep(t, Complete(id));
            && done.host.parked == t.host.parked - {id}
            && done.completed == (if t.host.parked[id].plugin.completes then t.completed + [id] else t.completed)
  {}

  lemma Cancelling(t: Trace, id: nat)
    requires id in t.host.parked && SlotsOk(t.host.parked)
    ensures var cut := TraceStep(t, Cancel(t.host.parked[id].inbound));
            && cut.host.parked == t.host.parked - {id} && cut.completed == t.completed && id in cut.released
            && !InboundParked(cut.host.parked, t.host.parked[id].inbound)
  {
    assert IdsOf(t.host.parked, t.host.parked[id].inbound) == {id};
  }
}
