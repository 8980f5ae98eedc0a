/** src/core/state_store.c: the slot-array key/value store, proved to be a map from
    namespace to (enabled, map from key to value). */
module StateStore {
  import opened Text

  const NS_MAX: nat := 32
  const NS_NAME_MAX: nat := 64
  const KEY_MAX: nat := 128
  const VALUE_MAX: nat := 65536
  const LIST_CAP: nat := 1000

  datatype StateErr = Ok | NotFound | TooLarge | NsFull | NsDisabled | BadKey | BadJson | BadNs

  predicate IsSpace(c: char) {
    c == ' ' || 9 <= c as int <= 13
  }

  predicate KeyChar(c: char) {
    'a' <= c <= 'z' || '0' <= c <= '9' || c == '_' || c == '.' || c == '/' || c == ':' || c == '-'
  }

  /** Charset [a-z0-9_./:-]{1,127}. */
  predicate KeyValid(key: string) {
    1 <= |key| <= KEY_MAX - 1 && forall c | c in key :: KeyChar(c)
  }

  predicate JsonStart(c: char) {
    c == '{' || c == '[' || c == QUOTE || c == '-' || '0' <= c <= '9' || c == 't' || c == 'f' || c == 'n'
  }

  /** The light check: some character is not white space and the first such one may
      start a JSON value. */
  predicate JsonOk(value: string) {
    value != [] && if IsSpace(value[0]) then JsonOk(value[1..]) else JsonStart(value[0])
  }

  // ----- abstract store ---------------------------------------------------------

  datatype NsView = NsView(enabled: bool, data: map<string, string>)

  type View = map<string, NsView>

  datatype Limits = Limits(maxKeys: nat, maxValue: nat)

  function PutSpec(lim: Limits, v: View, ns: string, key: string, value: string): (StateErr, View) {
    if ns !in v then (BadNs, v)
    else if !v[ns].enabled then (NsDisabled, v)
    else if !KeyValid(key) then (BadKey, v)
    else if |value| > lim.maxValue then (TooLarge, v)
    else if !JsonOk(value) then (BadJson, v)
    else if key !in v[ns].data && |v[ns].data| >= lim.maxKeys then (NsFull, v)
    else (Ok, v[ns := NsView(true, v[ns].data[key := value])])
  }

  function DeleteSpec(v: View, ns: string, key: string): (StateErr, View) {
    if ns !in v then (BadNs, v)
    else if !v[ns].enabled then (NsDisabled, v)
    else if key !in v[ns].data then (NotFound, v)
    else (Ok, v[ns := NsView(true, v[ns].data - {key})])
  }

  function GetSpec(v: View, ns: string, key: string): (StateErr, string) {
    if ns !in v then (BadNs, "")
    else if !v[ns].enabled then (NsDisabled, "")
    else if !KeyValid(key) then (BadKey, "")
    else if key !in v[ns].data then (NotFound, "")
    else (Ok, v[ns].data[key])
  }

  /** Enabling an unknown name registers it while there is room. */
  function SetEnabledSpec(v: View, ns: string, enabled: bool): (bool, View) {
    if ns in v then (true, v[ns := v[ns].(enabled := enabled)])
    else if ns == "" || |ns| >= NS_NAME_MAX || |v| >= NS_MAX then (false, v)
    else (true, v[ns := NsView(enabled, map[])])
  }

  // ----- slot arrays ------------------------------------------------------------

  datatype Entry = Entry(used: bool, key: string, value: string)

  datatype NsRec = NsRec(name: string, enabled: bool, entries: seq<Entry>, count: nat)

  ghost predicate DistinctKeys(es: seq<Entry>) {
    forall i, j | 0 <= i < j < |es| && es[i].used && es[j].used :: es[i].key != es[j].key
  }

  ghost function Data(es: seq<Entry>): map<string, string> {
    if es == [] then map[]
    else
      var d, last := Data(es[..|es| - 1]), es[|es| - 1];
      if last.used then d[last.key := last.value] else d
  }

  ghost predicate HasKey(es: seq<Entry>, k: string) {
    exists i :: 0 <= i < |es| && es[i].used && es[i].key == k
  }

  /** The map holds exactly the used slots. */
  lemma {:induction false} DataSlots(es: seq<Entry>)
    requires DistinctKeys(es)
    ensures forall i | 0 <= i < |es| && es[i].used :: es[i].key in Data(es) && Data(es)[es[i].key] == es[i].value
    ensures forall k | k in Data(es) :: HasKey(es, k)
  {
    if es != [] {
      var init := es[..|es| - 1];
      DataSlots(init);
      forall k | k in Data(es) ensures HasKey(es, k) {
        if k in Data(init) {
          assert HasKey(init, k);
        } else {
          assert es[|es| - 1].used && es[|es| - 1].key == k;
        }
      }
    }
  }

  ghost function Flags(es: seq<Entry>): seq<bool> {
    seq(|es|, i requires 0 <= i < |es| => es[i].used)
  }

  ghost function Used(es: seq<Entry>): nat {
    CountTrue(Flags(es))
  }

  /** The counter kept beside the slots is the number of keys of the map. */
  lemma {:induction false} UsedIsCardinality(es: seq<Entry>)
    requires DistinctKeys(es)
    ensures |Data(es)| == Used(es)
  {
    if es != [] {
      var init, last := es[..|es| - 1], es[|es| - 1];
      UsedIsCardinality(init);
      assert Flags(es)[..|es| - 1] == Flags(init);
      DataSlots(init);
      assert HasKey(init, last.key) ==> !last.used;
    }
  }

  lemma UsedUpdate(es: seq<Entry>, i: nat, e: Entry)
    requires i < |es|
    ensures Used(es[i := e]) == Used(es) + (if e.used then 1 else 0) - (if es[i].used then 1 else 0)
  {
    assert Flags(es[i := e]) == Flags(es)[i := e.used];
    CountUpdate(Flags(es), i, e.used);
  }

  lemma UsedFull(es: seq<Entry>)
    ensures Used(es) <= |es|
    ensures Used(es) == |es| <==> forall i | 0 <= i < |es| :: es[i].used
  {
    CountAll(Flags(es));
    assert forall i | 0 <= i < |es| :: Flags(es)[i] == es[i].used;
  }

  ghost predicate NsValid(r: NsRec, capacity: nat) {
    && |r.entries| == capacity
    && 1 <= |r.name| < NS_NAME_MAX
    && DistinctKeys(r.entries)
    && r.count == Used(r.entries)
    && forall i | 0 <= i < |r.entries| && r.entries[i].used :: KeyValid(r.entries[i].key)
  }

  ghost function NsAbs(r: NsRec): NsView {
    NsView(r.enabled, Data(r.entries))
  }

  ghost predicate TableValid(t: seq<NsRec>, capacity: nat) {
    && (forall i | 0 <= i < |t| :: NsValid(t[i], capacity))
    && (forall i, j | 0 <= i < j < |t| :: t[i].name != t[j].name)
  }

  ghost function Abs(t: seq<NsRec>): View {
    if t == [] then map[]
    else var last := t[|t| - 1]; Abs(t[..|t| - 1])[last.name := NsAbs(last)]
  }

  ghost predicate HasName(t: seq<NsRec>, n: string) {
    exists i :: 0 <= i < |t| && t[i].name == n
  }

  lemma {:induction false} AbsRows(t: seq<NsRec>, capacity: nat)
    requires TableValid(t, capacity)
    ensures forall i | 0 <= i < |t| :: t[i].name in Abs(t) && Abs(t)[t[i].name] == NsAbs(t[i])
    ensures forall n | n in Abs(t) :: HasName(t, n)
  {
    hide NsAbs, NsValid;
    if t != [] {
      var init := t[..|t| - 1];
      AbsRows(init, capacity);
      forall n | n in Abs(t) ensures HasName(t, n) {
        NameInLonger(t, n);
      }
    }
  }

  lemma NameInLonger(t: seq<NsRec>, n: string)
    requires t != [] && (HasName(t[..|t| - 1], n) || n == t[|t| - 1].name)
    ensures HasName(t, n)
  {}

  lemma {:induction false} AbsSize(t: seq<NsRec>, capacity: nat)
    requires TableValid(t, capacity)
    ensures |Abs(t)| == |t|
  {
    hide NsAbs, NsValid;
    if t != [] {
      var init := t[..|t| - 1];
      AbsSize(init, capacity);
      AbsRows(init, capacity);
      assert !HasName(init, t[|t| - 1].name);
    }
  }

  lemma AbsAppend(t: seq<NsRec>, capacity: nat, r: NsRec)
    requires TableValid(t, capacity) && NsValid(r, capacity) && r.name !in Abs(t)
    ensures TableValid(t + [r], capacity)
    ensures Abs(t + [r]) == Abs(t)[r.name := NsAbs(r)]
  {
    AbsRows(t, capacity);
    assert (t + [r])[..|t|] == t;
  }

  lemma {:induction false} AbsReplace(t: seq<NsRec>, i: nat, r: NsRec)
    requires i < |t| && r.name == t[i].name
    requires forall j | 0 <= j < |t| && j != i :: t[j].name != r.name
    ensures Abs(t[i := r]) == Abs(t)[r.name := NsAbs(r)]
  {
    var n := |t| - 1;
    if i == n {
      assert t[i := r][..n] == t[..n];
    } else {
      assert t[i := r][..n] == t[..n][i := r];
      AbsReplace(t[..n], i, r);
    }
  }

  lemma AbsUpdate(t: seq<NsRec>, capacity: nat, i: nat, r: NsRec)
    requires TableValid(t, capacity) && i < |t| && NsValid(r, capacity) && r.name == t[i].name
    ensures TableValid(t[i := r], capacity)
    ensures Abs(t[i := r]) == Abs(t)[r.name := NsAbs(r)]
  {
    AbsReplace(t, i, r);
  }

  class Store {
    const table: array<NsRec>
    var nNs: nat
    const lim: Limits

    ghost predicate Valid()
      reads this, table
    {
      table.Length == NS_MAX && nNs <= NS_MAX && TableValid(table[..nNs], lim.maxKeys)
    }

    ghost function Contents(): View
      reads this, table
      requires Valid()
    {
      Abs(table[..nNs])
    }

    constructor (lim: Limits)
      ensures Valid() && Contents() == map[] && this.lim == lim && fresh(table)
    {
      table := new NsRec[NS_MAX](_ => NsRec("", false, [], 0));
      nNs := 0;
      this.lim := lim;
    }

    /** find_ns */
    method FindNs(ns: string) returns (r: Option<nat>)
      requires Valid()
      ensures r.Some? ==> r.value < nNs && table[r.value].name == ns && ns in Contents()
                          && Contents()[ns] == NsAbs(table[r.value])
      ensures r.None? ==> ns !in Contents()
    {
      AbsRows(table[..nNs], lim.maxKeys);
      for i := 0 to nNs
        invariant forall j | 0 <= j < i :: table[j].name != ns
      {
        if table[i].name == ns {
          assert table[..nNs][i].name == ns;
          return Some(i);
        }
      }
      r := None;
    }

    /** register_ns */
    method RegisterNs(ns: string, enabled: bool) returns (ok: bool)
      requires Valid()
      modifies this`nNs, table
      ensures Valid()
      ensures (ok, Contents()) == SetEnabledSpec(old(Contents()), ns, enabled)
    {
      hide Abs, NsAbs, NsValid, TableValid;
      BadNameAbsent(table[..nNs], lim.maxKeys, ns);
      if ns == "" || |ns| >= NS_NAME_MAX { return false; }
      var f := FindNs(ns);
      if f.Some? {
        SetNsEnabled(f.value, enabled);
        return true;
      }
      AbsSize(table[..nNs], lim.maxKeys);
      if nNs >= NS_MAX { return false; }
      AddNs(BlankNs(ns, enabled, lim.maxKeys));
      ok := true;
    }

    method AddNs(r: NsRec)
      requires Valid() && nNs < NS_MAX && NsValid(r, lim.maxKeys) && r.name !in Contents()
      modifies this`nNs, table
      ensures Valid() && Contents() == old(Contents())[r.name := NsAbs(r)]
    {
      hide Abs, NsAbs, NsValid;
      ghost var t := table[..nNs];
      AbsAppend(t, lim.maxKeys, r);
      table[nNs] := r;
      nNs := nNs + 1;
      assert table[..nNs] == t + [r];
    }

    method SetNsEnabled(i: nat, enabled: bool)
      requires Valid() && i < nNs
      modifies table
      ensures Valid() && nNs == old(nNs)
      ensures table[..nNs] == old(table[..nNs])[i := old(table[i]).(enabled := enabled)]
      ensures Contents() == old(Contents())[old(table[i]).name := NsAbs(old(table[i])).(enabled := enabled)]
    {
      ghost var t := table[..nNs];
      var r := table[i].(enabled := enabled);
      AbsUpdate(t, lim.maxKeys, i, r);
      table[i] := r;
      assert table[..nNs] == t[i := r];
    }

    /** edge_state_ns_set_enabled */
    method SetEnabled(ns: string, enabled: bool) returns (ok: bool)
      requires Valid()
      modifies this`nNs, table
      ensures Valid()
      ensures (ok, Contents()) == SetEnabledSpec(old(Contents()), ns, enabled)
    {
      var f := FindNs(ns);
      if f.None? {
        ok := RegisterNs(ns, enabled);
      } else {
        SetNsEnabled(f.value, enabled);
        ok := true;
      }
    }

    /** find_entry */
    method FindEntry(n: nat, key: string) returns (r: Option<nat>)
      requires Valid() && n < nNs
      ensures r.Some? ==> r.value < |table[n].entries| && table[n].entries[r.value].used
                          && table[n].entries[r.value].key == key
      ensures r.Some? ==> key in Data(table[n].entries)
                          && Data(table[n].entries)[key] == table[n].entries[r.value].value
      ensures r.None? ==> key !in Data(table[n].entries)
    {
      var es := table[n].entries;
      DataSlots(es);
      for i := 0 to |es|
        invariant forall j | 0 <= j < i :: !(es[j].used && es[j].key == key)
      {
        if es[i].used && es[i].key == key { return Some(i); }
      }
      assert !HasKey(es, key);
      r := None;
    }

    /** find_free */
    method FindFree(n: nat) returns (r: Option<nat>)
      requires Valid() && n < nNs
      ensures r.Some? ==> r.value < |table[n].entries| && !table[n].entries[r.value].used
      ensures r.None? <==> |Data(table[n].entries)| >= lim.maxKeys
    {
      var es := table[n].entries;
      UsedIsCardinality(es);
      UsedFull(es);
      for i := 0 to |es|
        invariant forall j | 0 <= j < i :: es[j].used
      {
        if !es[i].used { return Some(i); }
      }
      r := None;
    }

    /** Writes one entry slot of namespace `n`. */
    method SetEntry(n: nat, i: nat, e: Entry)
      requires Valid() && n < nNs && i < |table[n].entries|
      requires e.used ==> KeyValid(e.key)
      requires e.used ==> forall j | 0 <= j < |table[n].entries| && j != i && table[n].entries[j].used
                            :: table[n].entries[j].key != e.key
      modifies table
      ensures Valid()
      ensures Contents() == old(Contents())[old(table[n]).name :=
                NsView(old(table[n]).enabled, Data(old(table[n]).entries[i := e]))]
    {
      ghost var t := table[..nNs];
      var rec := table[n];
      var count := rec.count + (if e.used then 1 else 0) - (if rec.entries[i].used then 1 else 0);
      UsedUpdate(rec.entries, i, e);
      var rec' := rec.(entries := rec.entries[i := e], count := count);
      AbsUpdate(t, lim.maxKeys, n, rec');
      table[n] := rec';
      assert table[..nNs] == t[n := rec'];
    }

    /** edge_state_put */
    method Put(ns: string, key: string, value: string) returns (e: StateErr)
      requires Valid()
      modifies table
      ensures Valid()
      ensures (e, Contents()) == PutSpec(lim, old(Contents()), ns, key, value)
    {
      var f := FindNs(ns);
      if f.None? { return BadNs; }
      var n := f.value;
      if !table[n].enabled { return NsDisabled; }
      if !KeyValid(key) { return BadKey; }
      if |value| > lim.maxValue { return TooLarge; }
      if !JsonOk(value) { return BadJson; }
      ghost var es := table[n].entries;
      var found := FindEntry(n, key);
      if found.None? {
        found := FindFree(n);
        if found.None? { return NsFull; }
      }
      var i := found.value;
      DataSlots(es);
      DataSet(es, i, key, value);
      SetEntry(n, i, Entry(true, key, value));
      e := Ok;
    }

    /** edge_state_get: the text copied into a buffer of `outCap` bytes, if there is one,
        and the full length. */
    method Get(ns: string, key: string, outCap: nat) returns (e: StateErr, out: string, len: nat)
      requires Valid()
      ensures e == GetSpec(Contents(), ns, key).0 && len == |GetSpec(Contents(), ns, key).1|
      ensures out == if outCap == 0 then "" else if len < outCap then GetSpec(Contents(), ns, key).1
                     else GetSpec(Contents(), ns, key).1[..outCap - 1]
    {
      var f := FindNs(ns);
      if f.None? { return BadNs, "", 0; }
      var n := f.value;
      if !table[n].enabled { return NsDisabled, "", 0; }
      if !KeyValid(key) { return BadKey, "", 0; }
      var found := FindEntry(n, key);
      if found.None? { return NotFound, "", 0; }
      var value := table[n].entries[found.value].value;
      if outCap == 0 { return Ok, "", |value|; }
      var copy := |value|;
      if copy >= outCap { copy := outCap - 1; }
      return Ok, value[..copy], |value|;
    }

    /** edge_state_delete */
    method Delete(ns: string, key: string) returns (e: StateErr)
      requires Valid()
      modifies table
      ensures Valid()
      ensures (e, Contents()) == DeleteSpec(old(Contents()), ns, key)
    {
      var f := FindNs(ns);
      if f.None? { return BadNs; }
      var n := f.value;
      if !table[n].enabled { return NsDisabled; }
      var found := FindEntry(n, key);
      if found.None? { return NotFound; }
      var i := found.value;
      ghost var es := table[n].entries;
      DataClear(es, i, Entry(false, "", ""));
      SetEntry(n, i, Entry(false, "", ""));
      e := Ok;
    }

    /** edge_state_list: every listed key matches and occurs once, in the order of the
        slots, and the listing is complete unless the cap cut it. */
    method List(ns: string, prefix: string, maxKeys: nat) returns (r: Option<seq<string>>)
      requires Valid()
      ensures r.None? <==> maxKeys == 0 || ns !in Contents() || !Contents()[ns].enabled
      ensures r.Some? ==>
        var hits := Matching(Contents()[ns].data, prefix);
        && (forall k | k in r.value :: k in hits)
        && NoRepeat(r.value)
        && |r.value| == Min(|hits|, Min(maxKeys, LIST_CAP))
      ensures r.Some? ==> exists i :: 0 <= i < nNs && table[i].name == ns && r.value <= Listed(table[i].entries, prefix)
    {
      hide Matching, NoRepeat, Data, Listed, Abs;
      if maxKeys == 0 { return None; }
      var f := FindNs(ns);
      if f.None? || !table[f.value].enabled { return None; }
      var cap := if maxKeys > LIST_CAP then LIST_CAP else maxKeys;
      var es := table[f.value].entries;
      var keys := [];
      var i := 0;
      ListedNone(prefix);
      while i < |es| && |keys| < cap
        invariant i <= |es| && |keys| <= cap
        invariant keys == Listed(es[..i], prefix)
      {
        ListedStep(es, i, prefix);
        if es[i].used && prefix <= es[i].key {
          keys := keys + [es[i].key];
        }
        i := i + 1;
      }
      PrefixListing(es, i, prefix);
      ListedInOrder(es, i, prefix);
      r := Some(keys);
    }
  }

  function Min(a: nat, b: nat): nat {
    if a < b then a else b
  }

  lemma BadNameAbsent(t: seq<NsRec>, capacity: nat, ns: string)
    requires TableValid(t, capacity)
    ensures ns == "" || |ns| >= NS_NAME_MAX ==> ns !in Abs(t)
  {
    AbsRows(t, capacity);
    assert HasName(t, ns) ==> 1 <= |ns| < NS_NAME_MAX;
  }

  /** A namespace row as register_ns fills it. */
  function BlankNs(ns: string, enabled: bool, capacity: nat): (r: NsRec)
    ensures r.name == ns && NsAbs(r) == NsView(enabled, map[])
    ensures 1 <= |ns| < NS_NAME_MAX ==> NsValid(r, capacity)
  {
    BlankEntries(capacity);
    NsRec(ns, enabled, seq(capacity, _ => Entry(false, "", "")), 0)
  }

  lemma BlankEntries(n: nat)
    ensures Used(seq(n, _ => Entry(false, "", ""))) == 0
    ensures Data(seq(n, _ => Entry(false, "", ""))) == map[]
  {
    var es := seq(n, _ => Entry(false, "", ""));
    CountAll(Flags(es));
    DataSlots(es);
    assert forall k :: !HasKey(es, k);
  }

  lemma {:induction false} DataSet(es: seq<Entry>, i: nat, key: string, value: string)
    requires DistinctKeys(es) && i < |es|
    requires forall j | 0 <= j < |es| && j != i && es[j].used :: es[j].key != key
    requires es[i].used ==> es[i].key == key
    ensures DistinctKeys(es[i := Entry(true, key, value)])
    ensures Data(es[i := Entry(true, key, value)]) == Data(es)[key := value]
  {
    var n := |es| - 1;
    var es' := es[i := Entry(true, key, value)];
    if i == n {
      assert es'[..n] == es[..n];
    } else {
      assert es'[..n] == es[..n][i := Entry(true, key, value)];
      DataSet(es[..n], i, key, value);
    }
  }

  lemma {:induction false} DataClear(es: seq<Entry>, i: nat, blank: Entry)
    requires DistinctKeys(es) && i < |es| && es[i].used && !blank.used
    ensures DistinctKeys(es[i := blank])
    ensures Data(es[i := blank]) == Data(es) - {es[i].key}
  {
    var n := |es| - 1;
    if i == n {
      assert es[i := blank][..n] == es[..n];
      DataSlots(es[..n]);
      assert !HasKey(es[..n], es[i].key);
    } else {
      assert es[i := blank][..n] == es[..n][i := blank];
      DataClear(es[..n], i, blank);
    }
  }

  function Matching(data: map<string, string>, prefix: string): set<string> {
    set k | k in data && prefix <= k
  }

  ghost function Listed(es: seq<Entry>, prefix: string): seq<string> {
    if es == [] then []
    else
      var last := es[|es| - 1];
      Listed(es[..|es| - 1], prefix) + if last.used && prefix <= last.key then [last.key] else []
  }

  lemma ListedNone(prefix: string)
    ensures Listed([], prefix) == []
  {}

  lemma ListedStep(es: seq<Entry>, i: nat, prefix: string)
    requires i < |es|
    ensures Listed(es[..i + 1], prefix) == Listed(es[..i], prefix) + if es[i].used && prefix <= es[i].key then [es[i].key] else []
  {
    assert es[..i + 1][..i] == es[..i];
  }

  lemma {:induction false} ListedIsMatching(es: seq<Entry>, prefix: string)
    requires DistinctKeys(es)
    ensures forall k :: k in Listed(es, prefix) <==> k in Matching(Data(es), prefix)
    ensures NoRepeat(Listed(es, prefix))
    ensures |Listed(es, prefix)| == |Matching(Data(es), prefix)|
  {
    if es != [] {
      var init, last := es[..|es| - 1], es[|es| - 1];
      ListedIsMatching(init, prefix);
      DataSlots(init);
      assert HasKey(init, last.key) ==> !last.used;
      var hits := Matching(Data(init), prefix);
      if last.used && prefix <= last.key {
        assert Matching(Data(es), prefix) == hits + {last.key};
      } else {
        assert Matching(Data(es), prefix) == hits;
      }
    }
  }

  lemma {:induction false} MatchingGrows(es: seq<Entry>, n: nat, prefix: string)
    requires DistinctKeys(es) && n <= |es|
    ensures Matching(Data(es[..n]), prefix) <= Matching(Data(es), prefix)
    ensures |Matching(Data(es[..n]), prefix)| <= |Matching(Data(es), prefix)|
    decreases |es|
  {
    if n == |es| {
      assert es[..n] == es;
    } else {
      var init := es[..|es| - 1];
      assert init[..n] == es[..n];
      MatchingGrows(init, n, prefix);
      SubsetSize(Matching(Data(es[..n]), prefix), Matching(Data(es), prefix));
    }
  }

  /** A scan stopped after `i` slots lists matching keys, all of them if it saw every
      slot. */
  lemma PrefixListing(es: seq<Entry>, i: nat, prefix: string)
    requires DistinctKeys(es) && i <= |es|
    ensures forall k | k in Listed(es[..i], prefix) :: k in Matching(Data(es), prefix)
    ensures NoRepeat(Listed(es[..i], prefix))
    ensures |Listed(es[..i], prefix)| <= |Matching(Data(es), prefix)|
    ensures i == |es| ==> |Listed(es[..i], prefix)| == |Matching(Data(es), prefix)|
  {
    ListedIsMatching(es[..i], prefix);
    MatchingGrows(es, i, prefix);
    if i == |es| { assert es[..i] == es; }
  }

  lemma {:induction false} ListedInOrder(es: seq<Entry>, n: nat, prefix: string)
    requires n <= |es|
    ensures Listed(es[..n], prefix) <= Listed(es, prefix)
    decreases |es|
  {
    if n == |es| {
      assert es[..n] == es;
    } else {
      var init := es[..|es| - 1];
      assert init[..n] == es[..n];
      ListedInOrder(init, n, prefix);
    }
  }

  lemma SubsetSize<T>(a: set<T>, b: set<T>)
    requires a <= b
    ensures |a| <= |b|
  {
    assert |b| == |a| + |b - a| by { assert b == a + (b - a); }
  }

  ghost predicate NoRepeat<T>(s: seq<T>) {
    forall i, j | 0 <= i < j < |s| :: s[i] != s[j]
  }
}
