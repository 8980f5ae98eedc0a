/** src/host/notify_apply.c, edge_notify_apply, and the PUT and DELETE branches of the
    state API in src/host/edge_http1_serve.c: every way a write reaches the store and
    the hub. */
module NotifyApply {
  import opened Text
  import opened StateStore
  import opened Hub
  import opened NotifyScan

  const OP_BUF: nat := 16

  datatype NotifyErr = Applied | BadPayload | BadSchema | StateFailed | Oversized

  /** What a payload asks for. */
  datatype Order = PutOrder(ns: string, key: string, value: string) | DeleteOrder(ns: string, key: string)

  datatype Parsed = Asks(order: Order) | Rejected(why: NotifyErr)

  /** The order made of the fields read; `value` is what the extractor returned. */
  function OrderSpec(ns: string, key: string, op: string, value: Option<string>): Parsed {
    if !KeyValid(key) then Rejected(BadSchema)
    else if op == "delete" then Asks(DeleteOrder(ns, key))
    else if op != "put" || value.None? || value.value == "null" then Rejected(BadSchema)
    else Asks(PutOrder(ns, key, value.value))
  }

  function ParseSpec(json: string): Parsed {
    if json == "" || |json| > MAX_PAYLOAD then Rejected(Oversized)
    else if !JsonOk(json) then Rejected(BadPayload)
    else
      match (StringFieldSpec(json, "ns", NS_NAME_MAX), StringFieldSpec(json, "key", KEY_MAX),
             StringFieldSpec(json, "op", OP_BUF))
      case (Some(ns), Some(key), Some(op)) => OrderSpec(ns, key, op, ExtractSpec(json, VALUE_MAX + 1))
      case _ => Rejected(BadSchema)
  }

  /** One order against the store: the outcome, the new store and what is announced. */
  function ObeySpec(lim: Limits, v: View, o: Order, rid: string): (StateErr, View, Option<Change>) {
    match o
    case PutOrder(ns, key, value) =>
      var (e, v') := PutSpec(lim, v, ns, key, value);
      (e, v', if e == Ok then Some(Change(ns, key, "put", value, rid)) else None)
    case DeleteOrder(ns, key) =>
      var (e, v') := DeleteSpec(v, ns, key);
      (e, v', if e == Ok then Some(Change(ns, key, "delete", "", rid)) else None)
  }

  /** Deleting what is not there is a success without an announcement. */
  function ApplySpec(lim: Limits, v: View, json: string, rid: string): (NotifyErr, View, Option<Change>) {
    match ParseSpec(json)
    case Rejected(why) => (why, v, None)
    case Asks(o) =>
      var (e, v', c) := ObeySpec(lim, v, o, rid);
      (if e == Ok || (o.DeleteOrder? && e == NotFound) then Applied else StateFailed, v', c)
  }

  /** A payload whose names and key are good gets a request id even if it fails later. */
  predicate Named(json: string) {
    && 0 < |json| <= MAX_PAYLOAD && JsonOk(json)
    && StringFieldSpec(json, "ns", NS_NAME_MAX).Some?
    && StringFieldSpec(json, "key", KEY_MAX).Some? && KeyValid(StringFieldSpec(json, "key", KEY_MAX).value)
    && StringFieldSpec(json, "op", OP_BUF).Some?
  }

  function RidSpec(json: string, minted: string): string {
    match StringFieldSpec(json, "request_id", REQUEST_ID)
    case Some(rid) => rid
    case None => minted
  }

  function MintedText(nextRid: nat): string {
    Clip("eh" + Hex16(nextRid, 16), REQUEST_ID)
  }

  ghost predicate Reads(json: string, ns: string, key: string, op: string) {
    KeyValid(key) && ParseSpec(json) == OrderSpec(ns, key, op, ExtractSpec(json, VALUE_MAX + 1))
  }

  /** The names of a payload, or why it is refused before anything else is read. */
  method ReadNames(json: string) returns (bad: Option<NotifyErr>, ns: string, key: string, op: string)
    ensures bad.None? <==> Named(json)
    ensures bad.Some? ==> ParseSpec(json) == Rejected(bad.value)
    ensures bad.None? ==> Reads(json, ns, key, op)
  {
    ns, key, op := "", "", "";
    if json == "" || |json| > MAX_PAYLOAD { return Some(Oversized), ns, key, op; }
    if !JsonOk(json) { return Some(BadPayload), ns, key, op; }
    var f := StringField(json, "ns", NS_NAME_MAX);
    if f.None? { return Some(BadSchema), ns, key, op; }
    ns := f.value;
    f := StringField(json, "key", KEY_MAX);
    if f.None? { return Some(BadSchema), ns, key, op; }
    key := f.value;
    f := StringField(json, "op", OP_BUF);
    if f.None? { return Some(BadSchema), ns, key, op; }
    op := f.value;
    if !KeyValid(key) { return Some(BadSchema), ns, key, op; }
    bad := None;
  }

  /** The order of a payload whose names were read. */
  method ReadOrder(json: string, ns: string, key: string, op: string) returns (o: Option<Order>)
    requires Reads(json, ns, key, op)
    ensures ParseSpec(json) == if o.None? then Rejected(BadSchema) else Asks(o.value)
  {
    if op == "delete" { return Some(DeleteOrder(ns, key)); }
    if op != "put" { return None; }
    var value := ExtractRawValue(json, VALUE_MAX + 1);
    if value.None? { return None; }
    if value.value == "null" { return None; }
    o := Some(PutOrder(ns, key, value.value));
  }

  /** Store first, then announce what was done. */
  method Obey(st: Store, hub: FanOut, o: Order, rid: string) returns (e: StateErr)
    requires st.Valid() && hub.Valid()
    modifies st.table, hub.subs
    ensures st.Valid() && hub.Valid()
    ensures e == ObeySpec(st.lim, old(st.Contents()), o, rid).0
    ensures st.Contents() == ObeySpec(st.lim, old(st.Contents()), o, rid).1
    ensures hub.Queues() == AnnounceAll(old(hub.Queues()), ObeySpec(st.lim, old(st.Contents()), o, rid).2)
  {
    var c;
    match o {
      case PutOrder(ns, key, value) =>
        e := st.Put(ns, key, value);
        c := Change(ns, key, "put", value, rid);
      case DeleteOrder(ns, key) =>
        e := st.Delete(ns, key);
        c := Change(ns, key, "delete", "", rid);
    }
    if e == Ok {
      var _ := hub.Broadcast(c);
    }
  }

  /** The counter behind minted request ids after a payload was read. */
  function RidCounter(json: string, nextRid: nat): nat {
    if Named(json) && StringFieldSpec(json, "request_id", REQUEST_ID).None?
    then (nextRid + 1) % 0x1_0000_0000_0000_0000 else nextRid
  }

  /** The reading half of edge_notify_apply. */
  method ReadPayload(hub: FanOut, json: string) returns (p: Parsed, rid: string)
    requires hub.Valid()
    modifies hub`nextRid
    ensures p == ParseSpec(json)
    ensures p.Asks? ==> rid == RidSpec(json, MintedText(old(hub.nextRid)))
    ensures hub.nextRid == RidCounter(json, old(hub.nextRid))
  {
    hide StringFieldSpec, ExtractSpec, OrderSpec, JsonOk, KeyValid, Hex16;
    rid := "";
    var bad, ns, key, op := ReadNames(json);
    if bad.Some? { return Rejected(bad.value), rid; }
    var field := StringField(json, "request_id", REQUEST_ID);
    if field.None? {
      rid := hub.MintRequestId("", REQUEST_ID);
    } else {
      rid := field.value;
    }
    var o := ReadOrder(json, ns, key, op);
    p := if o.None? then Rejected(BadSchema) else Asks(o.value);
  }

  /** edge_notify_apply with a hub. */
  method Apply(st: Store, hub: FanOut, json: string) returns (e: NotifyErr)
    requires st.Valid() && hub.Valid()
    modifies st.table, hub, hub.subs
    ensures st.Valid() && hub.Valid()
    ensures var r := ApplySpec(st.lim, old(st.Contents()), json, RidSpec(json, MintedText(old(hub.nextRid))));
            && e == r.0 && st.Contents() == r.1
            && hub.Queues() == AnnounceAll(old(hub.Queues()), r.2)
    ensures hub.nextRid == RidCounter(json, old(hub.nextRid))
  {
    var p, rid := ReadPayload(hub, json);
    if p.Rejected? { return p.why; }
    var er := Obey(st, hub, p.order, rid);
    if er == Ok || (p.order.DeleteOrder? && er == NotFound) { return Applied; }
    e := StateFailed;
  }

  /** The PUT and DELETE branches of the state API once the whole body is there: None is
      the 400 answer to an empty key, otherwise the store's verdict. */
  method HttpWrite(st: Store, hub: FanOut, o: Order, rid: string) returns (e: Option<StateErr>)
    requires st.Valid() && hub.Valid()
    modifies st.table, hub.subs
    ensures st.Valid() && hub.Valid()
    ensures e.None? <==> o.key == ""
    ensures var r := if o.key == "" then (BadKey, old(st.Contents()), None)
                     else ObeySpec(st.lim, old(st.Contents()), o, rid);
            && (e.Some? ==> e.value == r.0) && st.Contents() == r.1
            && hub.Queues() == AnnounceAll(old(hub.Queues()), r.2)
  {
    if o.key == "" { return None; }
    var er := Obey(st, hub, o, rid);
    e := Some(er);
  }
}
