/** The store seen from outside: what its operations promise each other, and every answer in
    terms of the operations and answers before it. */
module StoreLaws {
  import opened Text
  import opened StateStore

  // ----- what is acceptable, spelled out -----------------------------------------------------

  predicate InCharset(c: char) {
    c in "abcdefghijklmnopqrstuvwxyz" || c in "0123456789_./:-"
  }

  /** The documented charset and length of a key. */
  predicate KeySpelled(key: string) {
    1 <= |key| <= 127 && forall i | 0 <= i < |key| :: InCharset(key[i])
  }

  /** Behind white space the text begins like a JSON value. */
  ghost predicate BeginsJson(value: string) {
    exists n: nat :: BeginsAt(value, n)
  }

  ghost predicate BeginsAt(value: string, n: nat) {
    && n < |value| && value[n] in "{[\"-0123456789tfn"
    && forall i | 0 <= i < n :: value[i] in " \t\n\r" || value[i] as int == 11 || value[i] as int == 12
  }

  lemma LettersAre(c: char)
    ensures 'a' <= c <= 'z' <==> c in "abcdefghijklmnopqrstuvwxyz"
  {}

  lemma CharsetIs(c: char)
    ensures KeyChar(c) <==> InCharset(c)
  {
    LettersAre(c);
  }

  lemma KeyIsSpelled(key: string)
    ensures KeyValid(key) <==> KeySpelled(key)
  {
    hide KeyChar, InCharset;
    forall i | 0 <= i < |key| ensures KeyChar(key[i]) <==> InCharset(key[i]) {
      CharsetIs(key[i]);
    }
    if KeyValid(key) { assert forall i | 0 <= i < |key| :: key[i] in key; }
  }

  lemma SpaceIs(c: char)
    ensures IsSpace(c) <==> c in " \t\n\r" || c as int == 11 || c as int == 12
    ensures JsonStart(c) <==> c in "{[\"-0123456789tfn"
    ensures !(IsSpace(c) && JsonStart(c))
  {}

  lemma JsonStep(value: string)
    requires value != ""
    ensures JsonOk(value) <==> if IsSpace(value[0]) then JsonOk(value[1..]) else JsonStart(value[0])
  {}

  /** One blank more in front. */
  lemma Later(value: string, n: int)
    requires value != "" && IsSpace(value[0]) && n >= -1
    ensures n >= 0 ==> (BeginsAt(value[1..], n) <==> BeginsAt(value, n + 1))
    ensures !BeginsAt(value, 0)
  {
    SpaceIs(value[0]);
    var rest := value[1..];
    assert forall i | 0 <= i < |rest| :: rest[i] == value[i + 1];
    if n >= 0 && BeginsAt(rest, n) {
      assert forall i | 1 <= i < n + 1 :: value[i] == rest[i - 1];
    }
  }

  lemma {:induction false} JsonIsSpelled(value: string)
    ensures JsonOk(value) <==> BeginsJson(value)
  {
    if value != "" {
      var rest := value[1..];
      SpaceIs(value[0]);
      JsonIsSpelled(rest);
      hide JsonStart, JsonOk;
      if IsSpace(value[0]) {
        if BeginsJson(rest) {
          var n: nat :| BeginsAt(rest, n);
          Later(value, n);
          assert BeginsAt(value, n + 1);
        }
        if BeginsJson(value) {
          var n: nat :| BeginsAt(value, n);
          Later(value, n - 1);
          assert BeginsAt(rest, n - 1);
        }
        JsonStep(value);
      } else {
        JsonStep(value);
        if BeginsJson(value) {
          var n: nat :| BeginsAt(value, n);
          assert n == 0;
        }
        assert BeginsAt(value, 0) <==> JsonStart(value[0]);
      }
    }
  }

  // ----- laws between two operations -----------------------------------------------------------

  /** In a disabled namespace nothing can be read or written. */
  lemma DisabledIsClosed(lim: Limits, v: View, ns: string, key: string, value: string)
    requires SetEnabledSpec(v, ns, false).0
    ensures var off := SetEnabledSpec(v, ns, false).1;
            && PutSpec(lim, off, ns, key, value) == (NsDisabled, off)
            && DeleteSpec(off, ns, key) == (NsDisabled, off)
            && GetSpec(off, ns, key) == (NsDisabled, "")
  {}

  /** Enabling it again brings back what was there, and touches no other namespace. */
  lemma EnabledAgain(v: View, ns: string, ns': string, key: string)
    requires ns in v && v[ns].enabled
    ensures var off := SetEnabledSpec(v, ns, false).1;
            && SetEnabledSpec(off, ns, true) == (true, v)
            && (ns' != ns ==> GetSpec(off, ns', key) == GetSpec(v, ns', key))
  {
    var off := SetEnabledSpec(v, ns, false).1;
    assert off[ns := off[ns].(enabled := true)] == v;
  }

  /** What was put is what is read, and every other key reads as before. */
  lemma PutThenGet(lim: Limits, v: View, ns: string, key: string, value: string, ns': string, key': string)
    requires PutSpec(lim, v, ns, key, value).0 == Ok
    ensures var w := PutSpec(lim, v, ns, key, value).1;
            && GetSpec(w, ns, key) == (Ok, value)
            && ((ns', key') != (ns, key) ==> GetSpec(w, ns', key') == GetSpec(v, ns', key'))
  {}

  /** What was deleted is gone, and every other key reads as before. */
  lemma DeleteThenGet(v: View, ns: string, key: string, ns': string, key': string)
    requires DeleteSpec(v, ns, key).0 == Ok && KeySpelled(key)
    ensures var w := DeleteSpec(v, ns, key).1;
            && GetSpec(w, ns, key) == (NotFound, "")
            && ((ns', key') != (ns, key) ==> GetSpec(w, ns', key') == GetSpec(v, ns', key'))
  {
    KeyIsSpelled(key);
  }

  /** A refused operation changes nothing. */
  lemma RefusedChangesNothing(lim: Limits, v: View, ns: string, key: string, value: string)
    ensures PutSpec(lim, v, ns, key, value).0 != Ok ==> PutSpec(lim, v, ns, key, value).1 == v
    ensures DeleteSpec(v, ns, key).0 != Ok ==> DeleteSpec(v, ns, key).1 == v
    ensures !SetEnabledSpec(v, ns, true).0 ==> SetEnabledSpec(v, ns, true).1 == v && SetEnabledSpec(v, ns, false).1 == v
  {}

  // ----- whole histories ------------------------------------------------------------------------

  datatype Op = Flag(ns: string, on: bool) | Put(ns: string, key: string, value: string) | Delete(ns: string, key: string)

  datatype Answer = Flagged(ok: bool) | Code(e: StateErr)

  datatype Done = Done(op: Op, answer: Answer)

  function Do(lim: Limits, v: View, op: Op): (Answer, View) {
    match op
    case Flag(ns, on) => var (ok, w) := SetEnabledSpec(v, ns, on); (Flagged(ok), w)
    case Put(ns, key, value) => var (e, w) := PutSpec(lim, v, ns, key, value); (Code(e), w)
    case Delete(ns, key) => var (e, w) := DeleteSpec(v, ns, key); (Code(e), w)
  }

  /** The store after the operations, and the operations with their answers. */
  function Run(lim: Limits, ops: seq<Op>): (View, seq<Done>) {
    if ops == [] then (map[], [])
    else
      var (v, h) := Run(lim, ops[..|ops| - 1]);
      var (a, w) := Do(lim, v, ops[|ops| - 1]);
      (w, h + [Done(ops[|ops| - 1], a)])
  }

  // The following functions look at operations and answers only.

  predicate Good(d: Done) {
    d.answer == Flagged(true) || d.answer == Code(Ok)
  }

  /** The namespaces registered so far. */
  function Known(h: seq<Done>): set<string> {
    if h == [] then {}
    else
      var d := h[|h| - 1];
      Known(h[..|h| - 1]) + if d.op.Flag? && Good(d) then {d.op.ns} else {}
  }

  /** What the last accepted flag of a namespace said. */
  predicate IsOn(h: seq<Done>, ns: string) {
    if h == [] then false
    else
      var d := h[|h| - 1];
      if d.op.Flag? && Good(d) && d.op.ns == ns then d.op.on else IsOn(h[..|h| - 1], ns)
  }

  /** The last value put under a key, unless it was deleted since. */
  function Stored(h: seq<Done>, ns: string, key: string): Option<string> {
    if h == [] then None
    else
      var d := h[|h| - 1];
      if !Good(d) || d.op.Flag? || d.op.ns != ns || d.op.key != key then Stored(h[..|h| - 1], ns, key)
      else if d.op.Put? then Some(d.op.value)
      else None
  }

  /** The keys with such a value. */
  function Keys(h: seq<Done>, ns: string): set<string> {
    if h == [] then {}
    else
      var d, before := h[|h| - 1], Keys(h[..|h| - 1], ns);
      if !Good(d) || d.op.Flag? || d.op.ns != ns then before
      else if d.op.Put? then before + {d.op.key}
      else before - {d.op.key}
  }

  /** Every operation's answer, told from the history alone. */
  ghost function Told(lim: Limits, h: seq<Done>, op: Op): Answer {
    match op
    case Flag(ns, on) => Flagged(ns in Known(h) || (1 <= |ns| <= 63 && |Known(h)| < 32))
    case Put(ns, key, value) =>
      Code(if ns !in Known(h) then BadNs
           else if !IsOn(h, ns) then NsDisabled
           else if !KeySpelled(key) then BadKey
           else if |value| > lim.maxValue then TooLarge
           else if !BeginsJson(value) then BadJson
           else if Stored(h, ns, key).None? && |Keys(h, ns)| >= lim.maxKeys then NsFull
           else Ok)
    case Delete(ns, key) =>
      Code(if ns !in Known(h) then BadNs
           else if !IsOn(h, ns) then NsDisabled
           else if Stored(h, ns, key).None? then NotFound
           else Ok)
  }

  ghost function ToldGet(h: seq<Done>, ns: string, key: string): (StateErr, string) {
    if ns !in Known(h) then (BadNs, "")
    else if !IsOn(h, ns) then (NsDisabled, "")
    else if !KeySpelled(key) then (BadKey, "")
    else match Stored(h, ns, key)
         case None => (NotFound, "")
         case Some(value) => (Ok, value)
  }

  ghost predicate RowRemembers(row: NsView, h: seq<Done>, ns: string) {
    && row.enabled == IsOn(h, ns) && row.data.Keys == Keys(h, ns)
    && forall key :: Stored(h, ns, key) == if key in row.data then Some(row.data[key]) else None
  }

  /** The store remembers exactly what the history says; of an unknown namespace there is
      nothing to say. */
  ghost predicate Remembers(v: View, h: seq<Done>) {
    && v.Keys == Known(h)
    && (forall ns | ns in v :: RowRemembers(v[ns], h, ns))
    && (forall ns | ns !in v :: RowRemembers(NsView(false, map[]), h, ns))
  }

  lemma Tells(lim: Limits, v: View, h: seq<Done>, op: Op)
    requires Remembers(v, h)
    ensures Do(lim, v, op).0 == Told(lim, h, op)
  {
    hide Stored, Keys, Known, IsOn, KeySpelled, BeginsJson, KeyValid, JsonOk;
    match op {
      case Flag(ns, on) =>
      case Put(ns, key, value) =>
        KeyIsSpelled(key);
        JsonIsSpelled(value);
      case Delete(ns, key) =>
    }
  }

  /** One more operation, with its answer. */
  lemma OneMore(h: seq<Done>, d: Done, ns: string, key: string)
    ensures var h' := h + [d];
            && Known(h') == Known(h) + (if d.op.Flag? && Good(d) then {d.op.ns} else {})
            && IsOn(h', ns) == (if d.op.Flag? && Good(d) && d.op.ns == ns then d.op.on else IsOn(h, ns))
            && Stored(h', ns, key) == (if !Good(d) || d.op.Flag? || d.op.ns != ns || d.op.key != key then Stored(h, ns, key)
                                       else if d.op.Put? then Some(d.op.value) else None)
            && Keys(h', ns) == (if !Good(d) || d.op.Flag? || d.op.ns != ns then Keys(h, ns)
                                else if d.op.Put? then Keys(h, ns) + {d.op.key} else Keys(h, ns) - {d.op.key})
  {
    var h' := h + [d];
    assert h'[..|h'| - 1] == h && h'[|h'| - 1] == d;
  }

  /** A row that the operation leaves alone. */
  lemma RowStays(row: NsView, h: seq<Done>, d: Done, ns: string)
    requires RowRemembers(row, h, ns) && (!Good(d) || d.op.ns != ns)
    ensures RowRemembers(row, h + [d], ns)
  {
    hide Known, IsOn, Stored, Keys;
    forall key ensures Stored(h + [d], ns, key) == if key in row.data then Some(row.data[key]) else None {
      OneMore(h, d, ns, key);
    }
    OneMore(h, d, ns, "");
  }

  /** What a good operation makes of its row. */
  function Moved(row: NsView, op: Op): NsView {
    match op
    case Flag(_, on) => row.(enabled := on)
    case Put(_, key, value) => row.(data := row.data[key := value])
    case Delete(_, key) => row.(data := row.data - {key})
  }

  lemma RowMoves(row: NsView, h: seq<Done>, d: Done)
    requires RowRemembers(row, h, d.op.ns) && Good(d)
    ensures RowRemembers(Moved(row, d.op), h + [d], d.op.ns)
  {
    hide Known, IsOn, Stored, Keys;
    var h', row' := h + [d], Moved(row, d.op);
    forall key ensures Stored(h', d.op.ns, key) == if key in row'.data then Some(row'.data[key]) else None {
      OneMore(h, d, d.op.ns, key);
    }
    OneMore(h, d, d.op.ns, "");
  }

  function RowOf(v: View, ns: string): NsView {
    if ns in v then v[ns] else NsView(false, map[])
  }

  /** What an operation does to the rows. */
  lemma RowsAfter(lim: Limits, v: View, op: Op)
    ensures var (a, w) := Do(lim, v, op);
            if Good(Done(op, a)) then w == v[op.ns := Moved(RowOf(v, op.ns), op)] else w == v
  {
    hide KeyValid, JsonOk;
  }

  lemma GoodMeansKnown(lim: Limits, v: View, op: Op)
    ensures Good(Done(op, Do(lim, v, op).0)) && !op.Flag? ==> op.ns in v
  {}

  lemma RemembersMore(lim: Limits, v: View, h: seq<Done>, op: Op)
    requires Remembers(v, h)
    ensures var (a, w) := Do(lim, v, op); Remembers(w, h + [Done(op, a)])
  {
    hide Do, RowRemembers, Known, Moved;
    var (a, w) := Do(lim, v, op);
    var d := Done(op, a);
    RowsAfter(lim, v, op);
    GoodMeansKnown(lim, v, op);
    OneMore(h, d, op.ns, "");
    forall ns ensures RowRemembers(RowOf(w, ns), h + [d], ns) {
      if Good(d) && ns == op.ns { RowMoves(RowOf(v, ns), h, d); } else { RowStays(RowOf(v, ns), h, d, ns); }
    }
    assert forall ns | ns in w :: RowOf(w, ns) == w[ns];
    assert forall ns | ns !in w :: RowOf(w, ns) == NsView(false, map[]);
  }

  /** For every history: the store is a map of the last good writes, a namespace is as
      enabled as its last flag, and every answer, errors included, is the one its
      history calls for. */
  lemma {:induction false} EveryAnswer(lim: Limits, ops: seq<Op>, op: Op, ns: string, key: string)
    ensures var (v, h) := Run(lim, ops);
            && Remembers(v, h) && |h| == |ops|
            && Do(lim, v, op).0 == Told(lim, h, op)
            && GetSpec(v, ns, key) == ToldGet(h, ns, key)
  {
    hide Do, Told, KeySpelled, KeyValid;
    var (v, h) := Run(lim, ops);
    if ops != [] {
      var n := |ops| - 1;
      EveryAnswer(lim, ops[..n], ops[n], ns, key);
      RemembersMore(lim, Run(lim, ops[..n]).0, Run(lim, ops[..n]).1, ops[n]);
    }
    Tells(lim, v, h, op);
    KeyIsSpelled(key);
  }
}
