/** Replica convergence: a mirror store that applies the STATE_CHANGED texts of one
    subscription as NOTIFY payloads follows the source store. */
module Replica {
  import opened Text
  import opened StateStore
  import opened NotifyScan
  import opened StoredValue
  import opened Hub
  import opened NotifyApply
  import opened Message

  /** Every way a write reaches the source. */
  datatype Write = Notify(json: string, minted: string) | Http(order: Order, rid: string)

  function WriteSpec(lim: Limits, v: View, w: Write): (View, Option<Change>) {
    match w
    case Notify(json, minted) =>
      var r := ApplySpec(lim, v, json, RidSpec(json, minted));
      (r.1, r.2)
    case Http(o, rid) =>
      if o.key == "" then (v, None)
      else var r := ObeySpec(lim, v, o, rid); (r.1, r.2)
  }

  datatype Event = Written(w: Write) | Delivered

  datatype World = World(source: View, mirror: View, queue: seq<string>)

  /** The subscriber takes its oldest message and applies it to the mirror. */
  function Step(lim: Limits, s: World, e: Event): World {
    match e
    case Written(w) =>
      var (v, c) := WriteSpec(lim, s.source, w);
      World(v, s.mirror, Announced(Some(s.queue), c).value)
    case Delivered =>
      if s.queue == [] then s
      else World(s.source, ApplySpec(lim, s.mirror, s.queue[0], "").1, s.queue[1..])
  }

  ghost function Run(lim: Limits, s: World, es: seq<Event>): World {
    if es == [] then s else Step(lim, Run(lim, s, es[..|es| - 1]), es[|es| - 1])
  }

  /** What a mirror becomes once it has applied `msgs`. */
  ghost function Replay(lim: Limits, v: View, msgs: seq<string>): View {
    if msgs == [] then v
    else ApplySpec(lim, Replay(lim, v, msgs[..|msgs| - 1]), msgs[|msgs| - 1], "").1
  }

  /** An announcement a mirror can follow: plain names not spelled like a field, a value of
      at most 4096 bytes and, for a put, one that survives. */
  ghost predicate Followable(c: Change) {
    && PlainName(c.ns) && NamesSurvive(c.ns, c.key) && |c.rid| < REQUEST_ID && |c.value| <= 4096
    && (c.op == "put" ==> c.value != "" && ValueSurvives(c.ns, c.key, c.value))
  }

  /** The subscriber is never more than 8 announcements behind. */
  ghost predicate Allowed(lim: Limits, s: World, e: Event) {
    e.Written? ==> var c := WriteSpec(lim, s.source, e.w).1;
                   c.Some? ==> Followable(c.value) && |s.queue| < PENDING_MAX
  }

  ghost predicate AllowedRun(lim: Limits, s: World, es: seq<Event>) {
    forall i | 0 <= i < |es| :: Allowed(lim, Run(lim, s, es[..i]), es[i])
  }

  /** What the store keeps of its names and keys. */
  ghost predicate ViewOk(v: View) {
    forall ns | ns in v :: |ns| < NS_NAME_MAX && forall k | k in v[ns].data :: KeyValid(k)
  }

  lemma StoresAreOk(st: Store)
    requires st.Valid()
    ensures ViewOk(st.Contents())
  {
    var t := st.table[..st.nNs];
    AbsRows(t, st.lim.maxKeys);
    forall ns | ns in st.Contents()
      ensures |ns| < NS_NAME_MAX && forall k | k in st.Contents()[ns].data :: KeyValid(k)
    {
      assert HasName(t, ns);
      var i :| 0 <= i < |t| && t[i].name == ns;
      DataSlots(t[i].entries);
      assert forall k | k in Data(t[i].entries) :: HasKey(t[i].entries, k);
    }
  }

  lemma ObeyKeepsViewOk(lim: Limits, v: View, o: Order, rid: string)
    requires ViewOk(v)
    ensures ViewOk(ObeySpec(lim, v, o, rid).1)
    ensures var c := ObeySpec(lim, v, o, rid).2;
            c.Some? ==> |c.value.ns| < NS_NAME_MAX && KeyValid(c.value.key)
                        && c.value == (if o.PutOrder? then Change(o.ns, o.key, "put", o.value, rid)
                                       else Change(o.ns, o.key, "delete", "", rid))
  {}

  /** A followable announcement is read back as the order it announces. */
  lemma ReadBack(c: Change)
    requires Followable(c) && |c.ns| < NS_NAME_MAX && KeyValid(c.key)
    requires c.op == "put" || (c.op == "delete" && c.value == "")
    ensures Format(c, MSG_MAX) == Some(ChangeText(c))
    ensures ParseSpec(ChangeText(c))
         == Asks(if c.op == "put" then PutOrder(c.ns, c.key, c.value) else DeleteOrder(c.ns, c.key))
  {
    hide ParseSpec, ChangeText, Format, ValueSurvives, Survives;
    DefaultsAlwaysFit(c);
    if c.op == "put" {
      PutRoundTrip(c);
    } else {
      DeleteRoundTrip(c);
    }
  }

  /** Applying the announcement of an order to a store equal to the one it was obeyed on
      has the same effect. */
  lemma Follow(lim: Limits, v: View, o: Order, rid: string)
    requires ViewOk(v)
    ensures var r := ObeySpec(lim, v, o, rid);
            r.2.Some? && Followable(r.2.value) ==>
              && Format(r.2.value, MSG_MAX) == Some(ChangeText(r.2.value))
              && ApplySpec(lim, v, ChangeText(r.2.value), "").1 == r.1
    ensures var r := ObeySpec(lim, v, o, rid); r.2.None? ==> r.1 == v
  {
    hide ParseSpec, ChangeText, Format, Followable;
    ObeyKeepsViewOk(lim, v, o, rid);
    var r := ObeySpec(lim, v, o, rid);
    if r.2.Some? && Followable(r.2.value) {
      ReadBack(r.2.value);
    }
  }

  /** A write is one order or changes nothing and announces nothing. */
  lemma WriteIsOrder(lim: Limits, v: View, w: Write) returns (o: Order, rid: string)
    ensures WriteSpec(lim, v, w) == (v, None)
         || WriteSpec(lim, v, w) == (ObeySpec(lim, v, o, rid).1, ObeySpec(lim, v, o, rid).2)
  {
    hide ParseSpec, RidSpec;
    o, rid := DeleteOrder("", ""), "";
    match w {
      case Http(ho, hrid) =>
        o, rid := ho, hrid;
      case Notify(json, minted) =>
        rid := RidSpec(json, minted);
        if ParseSpec(json).Asks? { o := ParseSpec(json).order; }
    }
  }

  lemma {:induction false} ReplayFirst(lim: Limits, v: View, m: string, msgs: seq<string>)
    ensures Replay(lim, v, [m] + msgs) == Replay(lim, ApplySpec(lim, v, m, "").1, msgs)
  {
    hide ApplySpec;
    if msgs == [] {
      assert [m] + msgs == [m] && [m][..0] == [];
      assert Replay(lim, v, []) == v;
    } else {
      var n := |msgs| - 1;
      assert ([m] + msgs)[..n + 1] == [m] + msgs[..n];
      ReplayFirst(lim, v, m, msgs[..n]);
    }
  }

  ghost predicate InStep(lim: Limits, s: World) {
    ViewOk(s.source) && Replay(lim, s.mirror, s.queue) == s.source && |s.queue| <= PENDING_MAX
  }

  lemma QueuedOne(q: seq<string>, c: Change)
    requires |q| < PENDING_MAX && Format(c, MSG_MAX) == Some(ChangeText(c))
    ensures Announced(Some(q), Some(c)) == Some(q + [ChangeText(c)])
  {
    hide ChangeText, Format;
  }

  lemma ReplayOneMore(lim: Limits, v: View, msgs: seq<string>, m: string)
    ensures Replay(lim, v, msgs + [m]) == ApplySpec(lim, Replay(lim, v, msgs), m, "").1
  {
    hide ApplySpec;
    assert (msgs + [m])[..|msgs|] == msgs;
  }

  lemma WriteKeepsStep(lim: Limits, s: World, w: Write)
    requires InStep(lim, s) && Allowed(lim, s, Written(w))
    ensures InStep(lim, Step(lim, s, Written(w)))
  {
    hide ObeySpec, ApplySpec, Followable, ChangeText, Format, ViewOk, Announced, WriteSpec, Replay;
    var o, rid := WriteIsOrder(lim, s.source, w);
    var r := ObeySpec(lim, s.source, o, rid);
    ObeyKeepsViewOk(lim, s.source, o, rid);
    Follow(lim, s.source, o, rid);
    var c := WriteSpec(lim, s.source, w).1;
    if c.Some? {
      QueuedOne(s.queue, c.value);
      ReplayOneMore(lim, s.mirror, s.queue, ChangeText(c.value));
    } else {
      QueueKept(s.queue);
    }
  }

  lemma QueueKept(q: seq<string>)
    ensures Announced(Some(q), None) == Some(q)
  {}

  lemma StepKeepsStep(lim: Limits, s: World, e: Event)
    requires InStep(lim, s) && Allowed(lim, s, e)
    ensures InStep(lim, Step(lim, s, e))
  {
    hide ApplySpec, ViewOk, WriteSpec;
    match e
    case Written(w) => WriteKeepsStep(lim, s, w);
    case Delivered =>
      if s.queue != [] {
        assert s.queue == [s.queue[0]] + s.queue[1..];
        ReplayFirst(lim, s.mirror, s.queue[0], s.queue[1..]);
      }
  }

  /** In every allowed run from equal stores, the mirror brought up to date with what is
      still queued equals the source; once the queue is drained the two are equal. */
  lemma {:induction false} Converges(lim: Limits, v: View, es: seq<Event>)
    requires ViewOk(v) && AllowedRun(lim, World(v, v, []), es)
    ensures InStep(lim, Run(lim, World(v, v, []), es))
    ensures var s := Run(lim, World(v, v, []), es); s.queue == [] ==> s.mirror == s.source
  {
    hide ViewOk, Step;
    if es != [] {
      var n := |es| - 1;
      var init := es[..n];
      assert AllowedRun(lim, World(v, v, []), init) by {
        assert forall i | 0 <= i < n :: init[..i] == es[..i];
      }
      Converges(lim, v, init);
      StepKeepsStep(lim, Run(lim, World(v, v, []), init), es[n]);
    }
  }

  /** A put under ordinary names, of a value that fits a message and is not stored yet. */
  ghost predicate FreshPut(lim: Limits, v: View, ns: string, key: string, value: string, rid: string) {
    && ViewOk(v) && PutSpec(lim, v, ns, key, value).0 == Ok
    && (key !in v[ns].data || v[ns].data[key] != value)
    && PlainName(ns) && NamesSurvive(ns, key) && ns != "value" && key != "value"
    && |value| <= 4096 && |rid| < REQUEST_ID
  }

  /** Why the value condition is there: for every put the source accepts, a mirror equal to
      it follows if and only if the value survives. */
  lemma FollowedIff(lim: Limits, v: View, ns: string, key: string, value: string, rid: string)
    requires FreshPut(lim, v, ns, key, value, rid)
    ensures var s := Step(lim, World(v, v, []), Written(Http(PutOrder(ns, key, value), rid)));
            && s.queue == [ChangeText(Change(ns, key, "put", value, rid))]
            && (Step(lim, s, Delivered).mirror == s.source <==> Survives(value))
  {
    hide ChangeText, ParseSpec, Format, Survives;
    var c := Change(ns, key, "put", value, rid);
    DefaultsAlwaysFit(c);
    PutRoundTrip(c);
    PutAsks(c);
    QueuedOne([], c);
    assert [] + [ChangeText(c)] == [ChangeText(c)];
    PutChanges(lim, v, ns, key, value, rid);
    if ParseSpec(ChangeText(c)).Asks? && !Survives(value) {
      PutsDiffer(lim, v, ns, key, value, ParseSpec(ChangeText(c)).order.value, rid);
    }
  }

  lemma PutsDiffer(lim: Limits, v: View, ns: string, key: string, value: string, other: string, rid: string)
    requires FreshPut(lim, v, ns, key, value, rid) && other != value
    ensures PutSpec(lim, v, ns, key, other).1 != PutSpec(lim, v, ns, key, value).1
  {
    var w := PutSpec(lim, v, ns, key, other).1;
    assert w == v || w[ns].data[key] == other;
    assert PutSpec(lim, v, ns, key, value).1[ns].data[key] == value;
  }

  /** The announcement of a put under ordinary names asks for a put of some value there, or
      is refused. */
  lemma PutAsks(c: Change)
    requires Readable(c) && c.op == "put" && NamesSurvive(c.ns, c.key)
    ensures match ParseSpec(ChangeText(c))
            case Asks(o) => o.PutOrder? && o.ns == c.ns && o.key == c.key
            case Rejected(why) => why == BadSchema
  {
    hide ChangeText, ParseSpec, ExtractSpec, StringFieldSpec, Segs, UpToNul;
    SeenAs(c);
    ParsedAs(ChangeText(c), Segs(c), 5, UpToNul(":" + Rest(c)), c.ns, c.key, "put");
  }

  /** A put of null is refused by every mirror, which stays as it was. */
  lemma NullPutDiverges(lim: Limits, v: View, ns: string, key: string, rid: string)
    requires FreshPut(lim, v, ns, key, "null", rid)
    ensures var s := Step(lim, World(v, v, []), Written(Http(PutOrder(ns, key, "null"), rid)));
            Step(lim, s, Delivered).mirror == v != s.source
  {
    hide ChangeText, ParseSpec, Format, FreshPut;
    FollowedIff(lim, v, ns, key, "null", rid);
    NullIsRefused(lim, v, ns, key, rid);
    PutChanges(lim, v, ns, key, "null", rid);
  }

  lemma PutChanges(lim: Limits, v: View, ns: string, key: string, value: string, rid: string)
    requires FreshPut(lim, v, ns, key, value, rid)
    ensures PutSpec(lim, v, ns, key, value).0 == Ok && PutSpec(lim, v, ns, key, value).1 != v
  {}

  lemma NullIsRefused(lim: Limits, v: View, ns: string, key: string, rid: string)
    requires FreshPut(lim, v, ns, key, "null", rid)
    ensures ParseSpec(ChangeText(Change(ns, key, "put", "null", rid))) == Rejected(BadSchema)
  {
    hide ChangeText, ParseSpec, ExtractSpec, StringFieldSpec, Segs, ValueSpec, SkipSpace, UpToNul, Format;
    var c := Change(ns, key, "put", "null", rid);
    DefaultsAlwaysFit(c);
    SeenAs(c);
    ParsedAs(ChangeText(c), Segs(c), 5, UpToNul(":" + Rest(c)), ns, key, "put");
    SeenBehind("", Rest(c));
    assert "" + (":" + Rest(c)) == ":" + Rest(c) && "" + (":" + UpToNul(Rest(c))) == ":" + UpToNul(Rest(c));
    ReadValue(ChangeText(c), Segs(c), 5, "", UpToNul(Rest(c)), ns, key, "put");
    NullIsSeen(Foot(c));
  }

  lemma NullIsSeen(foot: string)
    ensures ValueSpec(SkipSpace(UpToNul("null" + foot)), VALUE_MAX + 1) == Some("null")
  {
    hide UpToNul, SkipValue;
    UpToNulAppend("null", foot);
    NullFirst(UpToNul(foot));
  }

  lemma NullFirst(k: string)
    ensures ValueSpec(SkipSpace("null" + k), VALUE_MAX + 1) == Some("null")
  {
    hide SkipValue;
    var p := "null" + k;
    assert p[..4] == "null" && p[0] == 'n';
  }

  /** A put of {1 is accepted and announced, and no mirror follows it. */
  lemma OpenBracketDiverges(lim: Limits, v: View, ns: string, key: string, rid: string)
    requires FreshPut(lim, v, ns, key, "{1", rid)
    ensures var s := Step(lim, World(v, v, []), Written(Http(PutOrder(ns, key, "{1"), rid)));
            Step(lim, s, Delivered).mirror != s.source
  {
    hide FreshPut, Step;
    FollowedIff(lim, v, ns, key, "{1", rid);
    OpenBracketIsLost();
  }
}
