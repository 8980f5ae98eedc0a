/** src/core/pending_table.c: the fixed table of requests in flight, proved to be a map
    from outbound id to the parked inbound slot, with no inbound slot parked twice. */
module Pending {
  import opened Text

  const DEFAULT_CAP: nat := 256
  const SUB_MAX: nat := 64

  /** Plugins are known by number; `completes` says that on_http_complete exists. */
  datatype Plugin = Plugin(number: nat, completes: bool)

  datatype Park = Park(inbound: nat, plugin: Plugin, tag: nat, timeoutMs: nat, startedMs: nat, sub: string)

  type Parked = map<nat, Park>

  predicate InboundParked(p: Parked, inbound: nat) {
    exists id :: id in p && p[id].inbound == inbound
  }

  datatype Entry = Entry(used: bool, outbound: nat, park: Park)

  const CLEARED := Entry(false, 0, Park(0, Plugin(0, false), 0, 0, 0, ""))

  ghost function Contents(es: seq<Entry>): Parked {
    if es == [] then map[]
    else
      var p, last := Contents(es[..|es| - 1]), es[|es| - 1];
      if last.used then p[last.outbound := last.park] else p
  }

  ghost function Flags(es: seq<Entry>): seq<bool> {
    seq(|es|, i requires 0 <= i < |es| => es[i].used)
  }

  ghost predicate Distinct(es: seq<Entry>) {
    forall i, j | 0 <= i < j < |es| && es[i].used && es[j].used ::
      es[i].outbound != es[j].outbound && es[i].park.inbound != es[j].park.inbound
  }

  ghost predicate Holds(es: seq<Entry>, id: nat) {
    exists i :: 0 <= i < |es| && es[i].used && es[i].outbound == id
  }

  lemma {:induction false} ContentsSlots(es: seq<Entry>)
    requires Distinct(es)
    ensures forall i | 0 <= i < |es| && es[i].used ::
              es[i].outbound in Contents(es) && Contents(es)[es[i].outbound] == es[i].park
    ensures forall id | id in Contents(es) :: Holds(es, id)
  {
    if es != [] {
      var init, last := es[..|es| - 1], es[|es| - 1];
      ContentsSlots(init);
      forall id | id in Contents(es) ensures Holds(es, id) {
        if id in Contents(init) {
          assert Holds(init, id);
        } else {
          assert last.used && last.outbound == id;
        }
      }
    }
  }

  /** The counter kept beside the slots is the number of parked requests. */
  lemma {:induction false} ContentsCount(es: seq<Entry>)
    requires Distinct(es)
    ensures |Contents(es)| == CountTrue(Flags(es))
  {
    if es != [] {
      var init, last := es[..|es| - 1], es[|es| - 1];
      ContentsCount(init);
      ContentsSlots(init);
      assert Flags(es)[..|es| - 1] == Flags(init);
      assert last.used ==> !Holds(init, last.outbound);
    }
  }

  lemma {:induction false} ContentsSet(es: seq<Entry>, i: nat, e: Entry)
    requires Distinct(es) && i < |es| && !es[i].used && e.used
    requires forall j | 0 <= j < |es| && es[j].used :: es[j].outbound != e.outbound && es[j].park.inbound != e.park.inbound
    ensures Distinct(es[i := e]) && Contents(es[i := e]) == Contents(es)[e.outbound := e.park]
  {
    var n := |es| - 1;
    if i == n {
      assert es[i := e][..n] == es[..n];
    } else {
      assert es[i := e][..n] == es[..n][i := e];
      ContentsSet(es[..n], i, e);
    }
  }

  lemma {:induction false} ContentsCleared(es: seq<Entry>, i: nat)
    requires Distinct(es) && i < |es| && es[i].used
    ensures Distinct(es[i := CLEARED]) && Contents(es[i := CLEARED]) == Contents(es) - {es[i].outbound}
  {
    var n := |es| - 1;
    if i == n {
      assert es[i := CLEARED][..n] == es[..n];
      ContentsSlots(es[..n]);
      assert !Holds(es[..n], es[i].outbound);
    } else {
      assert es[i := CLEARED][..n] == es[..n][i := CLEARED];
      ContentsCleared(es[..n], i);
    }
  }

  class PendingTable {
    const slots: array<Entry>
    var count: nat

    ghost predicate Valid()
      reads this, slots
    {
      && slots.Length > 0 && Distinct(slots[..]) && count == CountTrue(Flags(slots[..]))
      && forall i | 0 <= i < slots.Length && slots[i].used :: slots[i].outbound != 0
    }

    ghost function View(): Parked
      reads this, slots
    {
      Contents(slots[..])
    }

    constructor (capacity: nat)
      ensures Valid() && fresh(slots) && View() == map[]
      ensures slots.Length == if capacity == 0 then DEFAULT_CAP else capacity
    {
      slots := new Entry[if capacity == 0 then DEFAULT_CAP else capacity](_ => CLEARED);
      count := 0;
      new;
      CountAll(Flags(slots[..]));
      ContentsSlots(slots[..]);
      assert forall id :: !Holds(slots[..], id);
    }

    lemma ZeroAbsent()
      requires Valid()
      ensures 0 !in View()
    {
      ContentsSlots(slots[..]);
      assert !Holds(slots[..], 0);
    }

    /** edge_pending_full */
    method Full() returns (full: bool)
      requires Valid()
      ensures full == (|View()| >= slots.Length)
    {
      ContentsCount(slots[..]);
      full := count >= slots.Length;
    }

    /** The scan of edge_pending_insert: `clear` if no used slot has this inbound slot or
        id, and then the first free slot. */
    method FindFree(inbound: nat, outbound: nat) returns (clear: bool, free: Option<nat>)
      requires Valid() && count < slots.Length
      ensures clear == (outbound !in View() && !InboundParked(View(), inbound))
      ensures clear ==> free.Some? && free.value < slots.Length && !slots[free.value].used
      ensures clear ==> forall j | 0 <= j < slots.Length && slots[j].used ::
                slots[j].outbound != outbound && slots[j].park.inbound != inbound
    {
      hide Contents;
      ghost var es := slots[..];
      ContentsSlots(es);
      free := None;
      for i := 0 to slots.Length
        invariant free.Some? ==> free.value < i && !slots[free.value].used
        invariant free.None? ==> forall j | 0 <= j < i :: slots[j].used
        invariant forall j | 0 <= j < i && slots[j].used :: slots[j].park.inbound != inbound && slots[j].outbound != outbound
      {
        if !slots[i].used {
          if free.None? { free := Some(i); }
          continue;
        }
        assert es[i].outbound in Contents(es);
        if slots[i].park.inbound == inbound { return false, free; }
        if slots[i].outbound == outbound { return false, free; }
      }
      assert !Holds(es, outbound);
      NotParked(es, inbound);
      CountAll(Flags(es));
      assert forall j | 0 <= j < |es| :: Flags(es)[j] == slots[j].used;
      clear := true;
    }

    /** edge_pending_insert: fails exactly for id 0, a full table, or an inbound slot or
        id that is parked already. */
    method Insert(inbound: nat, outbound: nat, plugin: Plugin, tag: nat, timeoutMs: nat, startedMs: nat, sub: string)
      returns (ok: bool)
      requires Valid()
      modifies this`count, slots
      ensures Valid()
      ensures ok == (outbound != 0 && old(|View()|) < slots.Length && outbound !in old(View())
                     && !InboundParked(old(View()), inbound))
      ensures View() == if ok then old(View())[outbound := Park(inbound, plugin, tag, timeoutMs, startedMs, Clip(sub, SUB_MAX))]
                        else old(View())
    {
      ghost var es := slots[..];
      ContentsSlots(es);
      ContentsCount(es);
      if outbound == 0 { return false; }
      if count >= slots.Length { return false; }
      var clear, free := FindFree(inbound, outbound);
      if !clear || free.None? { return false; }
      Fill(free.value, Entry(true, outbound, Park(inbound, plugin, tag, timeoutMs, startedMs, Clip(sub, SUB_MAX))));
      ok := true;
    }

    /** Fills a free slot. */
    method Fill(i: nat, e: Entry)
      requires Valid() && i < slots.Length && !slots[i].used && e.used && e.outbound != 0
      requires forall j | 0 <= j < slots.Length && slots[j].used ::
                 slots[j].outbound != e.outbound && slots[j].park.inbound != e.park.inbound
      modifies this`count, slots
      ensures Valid() && View() == old(View())[e.outbound := e.park]
    {
      ghost var es := slots[..];
      ContentsSet(es, i, e);
      CountUpdate(Flags(es), i, true);
      slots[i] := e;
      count := count + 1;
      assert slots[..] == es[i := e];
      assert Flags(slots[..]) == Flags(es)[i := true];
    }

    /** edge_pending_find_outbound */
    method FindOutbound(outbound: nat) returns (r: Option<nat>)
      requires Valid()
      ensures r.Some? <==> outbound in View()
      ensures r.Some? ==> r.value < slots.Length && slots[r.value].used && slots[r.value].outbound == outbound
                          && slots[r.value].park == View()[outbound]
    {
      ghost var es := slots[..];
      ContentsSlots(es);
      if outbound == 0 {
        assert !Holds(es, outbound);
        return None;
      }
      for i := 0 to slots.Length
        invariant forall j | 0 <= j < i :: !(slots[j].used && slots[j].outbound == outbound)
      {
        if slots[i].used && slots[i].outbound == outbound {
          assert es[i] == slots[i];
          return Some(i);
        }
      }
      assert !Holds(es, outbound);
      r := None;
    }

    /** edge_pending_find_inbound */
    method FindInbound(inbound: nat) returns (r: Option<nat>)
      requires Valid()
      ensures r.Some? <==> InboundParked(View(), inbound)
      ensures r.Some? ==> r.value < slots.Length && slots[r.value].used && slots[r.value].park.inbound == inbound
                          && slots[r.value].outbound in View() && slots[r.value].park == View()[slots[r.value].outbound]
    {
      ghost var es := slots[..];
      ContentsSlots(es);
      for i := 0 to slots.Length
        invariant forall j | 0 <= j < i :: !(slots[j].used && slots[j].park.inbound == inbound)
      {
        if slots[i].used && slots[i].park.inbound == inbound {
          assert es[i] == slots[i];
          return Some(i);
        }
      }
      NotParked(es, inbound);
      r := None;
    }

    /** edge_pending_release of an entry found before. */
    method Release(i: nat)
      requires Valid() && i < slots.Length
      modifies this`count, slots
      ensures Valid()
      ensures View() == if old(slots[i].used) then old(View()) - {old(slots[i].outbound)} else old(View())
    {
      if !slots[i].used { return; }
      ghost var es := slots[..];
      ContentsCleared(es, i);
      CountUpdate(Flags(es), i, false);
      slots[i] := CLEARED;
      if count > 0 { count := count - 1; }
      assert slots[..] == es[i := CLEARED];
      assert Flags(slots[..]) == Flags(es)[i := false];
    }

    /** edge_pending_release_outbound */
    method ReleaseOutbound(outbound: nat) returns (ok: bool)
      requires Valid()
      modifies this`count, slots
      ensures Valid() && ok == (outbound in old(View())) && View() == old(View()) - {outbound}
    {
      var e := FindOutbound(outbound);
      if e.None? { return false; }
      Release(e.value);
      ok := true;
    }

    /** edge_pending_release_inbound */
    method ReleaseInbound(inbound: nat) returns (ok: bool)
      requires Valid()
      modifies this`count, slots
      ensures Valid() && ok == InboundParked(old(View()), inbound)
      ensures View() == old(View()) - IdsOf(old(View()), inbound)
    {
      var e := FindInbound(inbound);
      if e.None? {
        assert IdsOf(View(), inbound) == {};
        return false;
      }
      ReleasedOne(slots[..], e.value);
      Release(e.value);
      ok := true;
    }
  }

  /** The ids an inbound slot is parked under. */
  function IdsOf(p: Parked, inbound: nat): set<nat> {
    set id | id in p && p[id].inbound == inbound
  }

  lemma NotParked(es: seq<Entry>, inbound: nat)
    requires Distinct(es)
    requires forall i | 0 <= i < |es| && es[i].used :: es[i].park.inbound != inbound
    ensures !InboundParked(Contents(es), inbound) && IdsOf(Contents(es), inbound) == {}
  {
    ContentsSlots(es);
    forall id | id in Contents(es) ensures Contents(es)[id].inbound != inbound {
      assert Holds(es, id);
    }
  }

  /** An inbound slot is parked under one id only. */
  lemma ReleasedOne(es: seq<Entry>, i: nat)
    requires Distinct(es) && i < |es| && es[i].used
    ensures IdsOf(Contents(es), es[i].park.inbound) == {es[i].outbound}
  {
    ContentsSlots(es);
    forall id | id in Contents(es) && id != es[i].outbound
      ensures Contents(es)[id].inbound != es[i].park.inbound
    {
      assert Holds(es, id);
    }
  }
}
