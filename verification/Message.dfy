/** STATE_CHANGED text read back as a NOTIFY payload: which announcements the payload
    parser (src/host/notify_apply.c) turns into the very order they announce. */
module Message {
  import opened Text
  import opened StateStore
  import opened JsonText
  import opened NotifyScan
  import opened StoredValue
  import opened Hub
  import opened NotifyApply

  /** Names are printed without escaping, so they survive if they need none. */
  predicate PlainName(s: string) {
    QUOTE !in s && '\\' !in s && '\0' !in s
  }

  lemma KeyIsPlain(key: string)
    requires KeyValid(key)
    ensures PlainName(key)
  {}

  /** The announcement cut at its quotes, up to the name of the value. */
  function Segs(c: Change): (segs: seq<string>)
    ensures |segs| == 18
  {
    ["{", "type", ":", "STATE_CHANGED", ",", "ns", ":", c.ns, ",", "key", ":", c.key, ",", "op", ":", c.op,
     ",", "value"]
  }

  function Rest(c: Change): string {
    (if c.value == "" then "null" else c.value) + Foot(c)
  }

  ghost predicate Readable(c: Change) {
    && PlainName(c.ns) && |c.ns| < NS_NAME_MAX && KeyValid(c.key)
    && (c.op == "put" || c.op == "delete")
    && |ChangeText(c)| <= MAX_PAYLOAD
  }

  /** A quoted field with what stands before its name and between name and text. */
  function Field(sep: string, name: string, colon: string, text: string, k: string): string {
    sep + ("\"" + (name + ("\"" + (colon + ("\"" + (text + ("\"" + k)))))))
  }

  lemma FieldCut(sep: string, name: string, colon: string, text: string, segs: seq<string>, tail: string)
    ensures Cut([sep, name, colon, text] + segs, tail) == Field(sep, name, colon, text, Cut(segs, tail))
  {
    CutOne(sep, [name, colon, text] + segs, tail);
    CutOne(name, [colon, text] + segs, tail);
    CutOne(colon, [text] + segs, tail);
    CutOne(text, segs, tail);
    assert [sep] + ([name, colon, text] + segs) == [sep, name, colon, text] + segs;
    assert [name] + ([colon, text] + segs) == [name, colon, text] + segs;
    assert [colon] + ([text] + segs) == [colon, text] + segs;
  }

  /** The last name, with a value that is not quoted. */
  lemma NameCut(sep: string, name: string, tail: string)
    ensures Cut([sep, name], tail) == sep + ("\"" + (name + ("\"" + tail)))
  {
    CutOne(sep, [name], tail);
    CutOne(name, [], tail);
    EmptyCut(tail);
    assert [sep] + [name] == [sep, name] && [name] + [] == [name];
  }

  lemma ChangeFields(c: Change)
    ensures ChangeText(c) == Field("{", "type", ":", "STATE_CHANGED", Field(",", "ns", ":", c.ns,
      Field(",", "key", ":", c.key, Field(",", "op", ":", c.op, "," + ("\"" + ("value" + ("\"" + (":" + Rest(c)))))))))
  {
    hide Rest;
    assert Rest(c) == (if c.value == "" then "null" else c.value) + Foot(c) by { RestIs(c); }
  }

  lemma RestIs(c: Change)
    ensures Rest(c) == (if c.value == "" then "null" else c.value) + Foot(c)
  {}

  lemma ChangeIsCut(c: Change)
    ensures ChangeText(c) == Cut(Segs(c), ":" + Rest(c))
  {
    hide Cut, ChangeText, Rest, Field;
    var tail := ":" + Rest(c);
    var s4 := [",", "value"];
    var s3 := [",", "op", ":", c.op] + s4;
    var s2 := [",", "key", ":", c.key] + s3;
    var s1 := [",", "ns", ":", c.ns] + s2;
    NameCut(",", "value", tail);
    FieldCut(",", "op", ":", c.op, s4, tail);
    FieldCut(",", "key", ":", c.key, s3, tail);
    FieldCut(",", "ns", ":", c.ns, s2, tail);
    FieldCut("{", "type", ":", "STATE_CHANGED", s1, tail);
    ChangeFields(c);
    assert Segs(c) == ["{", "type", ":", "STATE_CHANGED"] + s1;
  }

  lemma {:induction false} ClosingOfPlain(text: string, rest: string)
    requires QUOTE !in text && '\\' !in text
    ensures ToClosing(text + ("\"" + rest)) == "\"" + rest
  {
    var p := text + ("\"" + rest);
    if text == "" {
      assert p == "\"" + rest;
    } else {
      assert p[0] == text[0] && p[1..] == text[1..] + ("\"" + rest);
      ClosingOfPlain(text[1..], rest);
    }
  }

  lemma {:induction false} UnescapePlain(text: string, room: nat)
    requires '\\' !in text && |text| <= room
    ensures Unescape(text, room) == text
  {
    if text != "" { UnescapePlain(text[1..], room - 1); }
  }

  lemma PlainBodyRead(text: string, rest: string, outSz: nat)
    requires '\\' !in text && |text| < outSz
    ensures var body := text + ("\"" + rest);
            Unescape(body[..|body| - |"\"" + rest|], outSz - 1) == text
  {
    var body := text + ("\"" + rest);
    assert body[..|text|] == text;
    UnescapePlain(text, outSz - 1);
  }

  lemma NextPlainString(sep: string, text: string, rest: string, outSz: nat)
    requires QUOTE !in sep && QUOTE !in text && '\\' !in text && |text| < outSz
    ensures NextString(sep + ("\"" + (text + ("\"" + rest))), outSz) == Some(text)
  {
    var body := text + ("\"" + rest);
    var q := "\"" + body;
    StrChrSkip(sep, q, QUOTE);
    assert StrChr(sep + q, QUOTE) == Some(q);
    assert q[1..] == body;
    ClosingOfPlain(text, rest);
    PlainBodyRead(text, rest, outSz);
  }

  /** A field search in a cut text returns the segment two places behind the first one
      that equals the name. */
  lemma FieldOfCut(segs: seq<string>, i: nat, name: string, tail: string, outSz: nat)
    requires QuoteFree(segs) && FirstSeg(segs, i, name) && i + 2 < |segs|
    requires '\\' !in segs[i + 2] && |segs[i + 2]| < outSz
    ensures FieldIn(Cut(segs, tail), Quoted(name), outSz) == Some(segs[i + 2])
  {
    FindFirstSeg(segs, i, name, tail);
    var pat, after := Quoted(name), Cut(segs[i + 1..], tail);
    assert (pat + after)[|pat|..] == after;
    CutAt(segs, i + 1, tail);
    CutAt(segs, i + 2, tail);
    NextPlainString(segs[i + 1], segs[i + 2], Cut(segs[i + 3..], tail), outSz);
  }

  predicate FieldName(s: string) {
    s == "ns" || s == "key" || s == "op" || s == "value"
  }

  /** A structural character with white space around it. */
  ghost predicate Sep(s: string, c: char) {
    exists a, b :: IsGap(a) && IsGap(b) && s == a + ([c] + b)
  }

  lemma SepIs(a: string, c: char, b: string)
    requires IsGap(a) && IsGap(b)
    ensures Sep(a + ([c] + b), c)
  {}

  lemma SepPlain(s: string, c: char)
    requires Sep(s, c) && c in ":,{"
    ensures PlainName(s) && !FieldName(s) && (c != ':' ==> ':' !in s)
  {
    var a, b :| IsGap(a) && IsGap(b) && s == a + ([c] + b);
    assert s[|a|] == c;
  }

  /** The segments of a payload whose first field that is read stands at `at`, in the
      order ns, key, op, value. */
  ghost predicate Layout(segs: seq<string>, at: nat, ns: string, key: string, op: string) {
    && at >= 1 && |segs| == at + 13 && (forall j | 1 <= j < at :: !FieldName(segs[j]))
    && segs[at] == "ns" && segs[at + 2] == ns && segs[at + 4] == "key" && segs[at + 6] == key
    && segs[at + 8] == "op" && segs[at + 10] == op && segs[at + 12] == "value"
    && Sep(segs[at + 1], ':') && Sep(segs[at + 3], ',') && Sep(segs[at + 5], ':')
    && Sep(segs[at + 7], ',') && Sep(segs[at + 9], ':') && Sep(segs[at + 11], ',')
  }

  lemma SegsLayout(c: Change)
    ensures Layout(Segs(c), 5, c.ns, c.key, c.op) && Sep(Segs(c)[0], '{')
    ensures forall j | 0 <= j < 5 :: PlainName(Segs(c)[j])
  {
    hide Sep, PlainName;
    BareSep(':');
    BareSep(',');
    BareSep('{');
    SepPlain("{", '{');
    SepPlain(":", ':');
    SepPlain(",", ',');
    TypePlain();
  }

  lemma BareSep(c: char)
    ensures Sep([c], c)
  {
    SepIs("", c, "");
    assert "" + ([c] + "") == [c];
  }

  lemma TypePlain()
    ensures PlainName("type") && PlainName("STATE_CHANGED")
  {}

  lemma LayoutSeps(segs: seq<string>, at: nat, ns: string, key: string, op: string)
    requires Layout(segs, at, ns, key, op)
    ensures PlainName(segs[at + 1]) && PlainName(segs[at + 3]) && PlainName(segs[at + 5])
    ensures PlainName(segs[at + 7]) && PlainName(segs[at + 9]) && PlainName(segs[at + 11])
    ensures !FieldName(segs[at + 1]) && !FieldName(segs[at + 3]) && !FieldName(segs[at + 5])
    ensures !FieldName(segs[at + 7]) && !FieldName(segs[at + 9]) && !FieldName(segs[at + 11])
    ensures ':' !in segs[at + 3] && ':' !in segs[at + 7] && ':' !in segs[at + 11]
  {
    hide Sep, PlainName, FieldName;
    SepPlain(segs[at + 1], ':');
    SepPlain(segs[at + 3], ',');
    SepPlain(segs[at + 5], ':');
    SepPlain(segs[at + 7], ',');
    SepPlain(segs[at + 9], ':');
    SepPlain(segs[at + 11], ',');
  }

  lemma LayoutPlain(segs: seq<string>, at: nat, ns: string, key: string, op: string)
    requires Layout(segs, at, ns, key, op) && PlainName(ns) && PlainName(key) && PlainName(op)
    requires forall j | 0 <= j < at :: PlainName(segs[j])
    ensures forall i | 0 <= i < |segs| :: PlainName(segs[i])
  {
    hide Sep;
    LayoutSeps(segs, at, ns, key, op);
  }

  /** What a reader sees of a text with that layout. */
  ghost predicate Announces(json: string, segs: seq<string>, at: nat, tail: string, ns: string, key: string, op: string) {
    && UpToNul(json) == Cut(segs, tail) && Layout(segs, at, ns, key, op) && QuoteFree(segs)
    && 0 < |json| <= MAX_PAYLOAD && JsonOk(json)
    && PlainName(ns) && |ns| < NS_NAME_MAX && KeyValid(key) && (op == "put" || op == "delete")
  }

  lemma {:induction false} BraceIsOk(gap: string, k: string)
    requires IsGap(gap)
    ensures JsonOk(gap + (['{'] + k))
  {
    if gap != "" {
      assert (gap + (['{'] + k))[1..] == gap[1..] + (['{'] + k);
      assert gap[0] in gap && forall c | c in gap[1..] :: c in gap;
      BraceIsOk(gap[1..], k);
    } else {
      assert gap + (['{'] + k) == ['{'] + k;
    }
  }

  lemma SepOpens(s: string, k: string)
    requires Sep(s, '{')
    ensures JsonOk(s + k)
  {
    hide JsonOk;
    var a, b :| IsGap(a) && IsGap(b) && s == a + (['{'] + b);
    BraceIsOk(a, b + k);
    assert s + k == a + (['{'] + (b + k));
  }

  /** A NUL can only stand in the tail. */
  lemma {:induction false} UpToNulOfCut(segs: seq<string>, tail: string)
    requires forall i | 0 <= i < |segs| :: '\0' !in segs[i]
    ensures UpToNul(Cut(segs, tail)) == Cut(segs, UpToNul(tail))
  {
    if segs != [] {
      var rest := Cut(segs[1..], tail);
      UpToNulOfCut(segs[1..], tail);
      UpToNulAppend(segs[0], "\"" + rest);
      UpToNulAppend("\"", rest);
    }
  }

  /** A text cut that way, if its names are plain and it is not too long. */
  lemma Seen(json: string, segs: seq<string>, at: nat, tail: string, ns: string, key: string, op: string)
    requires json == Cut(segs, tail) && Layout(segs, at, ns, key, op) && Sep(segs[0], '{') && |json| <= MAX_PAYLOAD
    requires forall j | 0 <= j < at :: PlainName(segs[j])
    requires PlainName(ns) && |ns| < NS_NAME_MAX && KeyValid(key) && (op == "put" || op == "delete")
    ensures Announces(json, segs, at, UpToNul(tail), ns, key, op)
  {
    hide Sep, JsonOk, Cut, UpToNul;
    KeyIsPlain(key);
    LayoutPlain(segs, at, ns, key, op);
    UpToNulOfCut(segs, tail);
    CutAt(segs, 0, tail);
    assert segs[0..] == segs;
    SepOpens(segs[0], "\"" + Cut(segs[1..], tail));
  }

  lemma SeenAs(c: Change)
    requires Readable(c)
    ensures Announces(ChangeText(c), Segs(c), 5, UpToNul(":" + Rest(c)), c.ns, c.key, c.op)
  {
    hide ChangeText, Rest, Layout, Sep, UpToNul, Segs, Cut, PlainName, JsonOk;
    ChangeIsCut(c);
    SegsLayout(c);
    Seen(ChangeText(c), Segs(c), 5, ":" + Rest(c), c.ns, c.key, c.op);
  }

  /** When the names come back as announced. */
  predicate NamesSurvive(ns: string, key: string) {
    ns != "op" && key != "op" && (ns == "key" ==> key == "key")
  }

  /** The fields as the parser reads them. */
  function KeyRead(ns: string, key: string): string {
    if ns == "key" then "key" else key
  }

  function OpRead(ns: string, key: string, op: string): string {
    if ns == "op" then "key" else if key == "op" then "op" else op
  }

  lemma FieldSpecIs(json: string, name: string, outSz: nat, text: string)
    requires 0 < |json| <= MAX_PAYLOAD && |name| <= 64 && outSz > 0
    requires FieldIn(UpToNul(json), Quoted(name), outSz) == Some(text)
    ensures StringFieldSpec(json, name, outSz) == Some(text)
  {
    hide FieldIn, UpToNul;
    assert Clip(Quoted(name), FIELD_KEY_BUF) == Quoted(name);
  }

  lemma ReadNs(json: string, segs: seq<string>, at: nat, tail: string, ns: string, key: string, op: string)
    requires Announces(json, segs, at, tail, ns, key, op)
    ensures StringFieldSpec(json, "ns", NS_NAME_MAX) == Some(ns)
  {
    hide Sep, UpToNul, Cut, FieldIn, JsonOk;
    LayoutSeps(segs, at, ns, key, op);
    FieldOfCut(segs, at, "ns", tail, NS_NAME_MAX);
    FieldSpecIs(json, "ns", NS_NAME_MAX, ns);
  }

  lemma ReadKey(json: string, segs: seq<string>, at: nat, tail: string, ns: string, key: string, op: string)
    requires Announces(json, segs, at, tail, ns, key, op)
    ensures StringFieldSpec(json, "key", KEY_MAX) == Some(KeyRead(ns, key))
  {
    hide Sep, UpToNul, Cut, FieldIn, JsonOk;
    LayoutSeps(segs, at, ns, key, op);
    KeyIsPlain(key);
    FieldOfCut(segs, if ns == "key" then at + 2 else at + 4, "key", tail, KEY_MAX);
    FieldSpecIs(json, "key", KEY_MAX, KeyRead(ns, key));
  }

  lemma ReadOp(json: string, segs: seq<string>, at: nat, tail: string, ns: string, key: string, op: string)
    requires Announces(json, segs, at, tail, ns, key, op)
    ensures StringFieldSpec(json, "op", OP_BUF) == Some(OpRead(ns, key, op))
  {
    hide Sep, UpToNul, Cut, FieldIn, JsonOk;
    LayoutSeps(segs, at, ns, key, op);
    FieldOfCut(segs, if ns == "op" then at + 2 else if key == "op" then at + 6 else at + 8, "op", tail, OP_BUF);
    FieldSpecIs(json, "op", OP_BUF, OpRead(ns, key, op));
  }

  lemma ParseFrom(json: string, ns: string, key: string, op: string)
    requires 0 < |json| <= MAX_PAYLOAD && JsonOk(json)
    requires StringFieldSpec(json, "ns", NS_NAME_MAX) == Some(ns)
    requires StringFieldSpec(json, "key", KEY_MAX) == Some(key)
    requires StringFieldSpec(json, "op", OP_BUF) == Some(op)
    ensures ParseSpec(json) == OrderSpec(ns, key, op, ExtractSpec(json, VALUE_MAX + 1))
  {
    hide StringFieldSpec, ExtractSpec, OrderSpec;
  }

  lemma ParsedAs(json: string, segs: seq<string>, at: nat, tail: string, ns: string, key: string, op: string)
    requires Announces(json, segs, at, tail, ns, key, op)
    ensures ParseSpec(json) == OrderSpec(ns, KeyRead(ns, key), OpRead(ns, key, op), ExtractSpec(json, VALUE_MAX + 1))
  {
    hide Layout, UpToNul, Cut, JsonOk, KeyRead, OpRead, OrderSpec, StringFieldSpec, ExtractSpec, ParseSpec;
    ReadNs(json, segs, at, tail, ns, key, op);
    ReadKey(json, segs, at, tail, ns, key, op);
    ReadOp(json, segs, at, tail, ns, key, op);
    ParseFrom(json, ns, KeyRead(ns, key), OpRead(ns, key, op));
  }

  /** A deletion is read back as itself exactly when its names survive. */
  lemma DeleteRoundTrip(c: Change)
    requires Readable(c) && c.op == "delete"
    ensures ParseSpec(ChangeText(c)) == Asks(DeleteOrder(c.ns, c.key)) <==> NamesSurvive(c.ns, c.key)
  {
    hide ChangeText, Segs, Rest, ParseSpec, StringFieldSpec, ExtractSpec, OrderSpec;
    SeenAs(c);
    ParsedAs(ChangeText(c), Segs(c), 5, UpToNul(":" + Rest(c)), c.ns, c.key, "delete");
    OrderOfDelete(c.ns, c.key, ExtractSpec(ChangeText(c), VALUE_MAX + 1));
  }

  lemma OrderOfDelete(ns: string, key: string, value: Option<string>)
    requires KeyValid(key)
    ensures OrderSpec(ns, KeyRead(ns, key), OpRead(ns, key, "delete"), value) == Asks(DeleteOrder(ns, key))
       <==> NamesSurvive(ns, key)
  {}

  // ----- values -----------------------------------------------------------------------

  lemma ValueBehindColon(text: string, sep: string, p: string, outSz: nat)
    requires ':' !in sep
    requires StrStr(text, Quoted("value")) == Some(Quoted("value") + (sep + (":" + p)))
    ensures ValueIn(text, outSz) == ValueSpec(SkipSpace(p), outSz)
  {
    var pat := Quoted("value") + sep;
    assert Quoted("value") + (sep + (":" + p)) == pat + (":" + p);
    StrChrSkip(pat, ":" + p, ':');
    assert (":" + p)[1..] == p;
  }

  lemma {:induction false} BodyOfPlain(text: string, rest: string)
    requires QUOTE !in text && '\\' !in text
    ensures SkipBody(text + ("\"" + rest)) == rest
  {
    var p := text + ("\"" + rest);
    if text == "" {
      assert p == "\"" + rest;
    } else {
      assert p[0] == text[0] && p[1..] == text[1..] + ("\"" + rest);
      BodyOfPlain(text[1..], rest);
    }
  }

  /** A quoted plain name where a value is expected is taken as the value. */
  lemma QuotedIsValue(text: string, rest: string, outSz: nat)
    requires PlainName(text) && |text| + 3 <= outSz
    ensures ValueSpec(SkipSpace("\"" + (text + ("\"" + rest))), outSz) == Some(Quoted(text))
  {
    hide SkipBody, SkipNest, SkipScalar;
    var p := "\"" + (text + ("\"" + rest));
    assert p[1..] == text + ("\"" + rest);
    BodyOfPlain(text, rest);
    assert p[..|text| + 2] == Quoted(text);
  }

  /** A segment spelled like the value field captures the search for it: the next
      quoted text behind a colon is taken for the value. */
  lemma CapturedInCut(segs: seq<string>, i: nat, tail: string, outSz: nat)
    requires QuoteFree(segs) && FirstSeg(segs, i, "value") && i + 4 < |segs|
    requires ':' !in segs[i + 1] && ':' !in segs[i + 2] && Sep(segs[i + 3], ':')
    requires PlainName(segs[i + 4]) && |segs[i + 4]| + 3 <= outSz
    ensures ValueIn(Cut(segs, tail), outSz) == Some(Quoted(segs[i + 4]))
  {
    hide ValueIn, StrStr, Quoted, SkipSpace, ValueSpec, Cut, PlainName;
    FindFirstSeg(segs, i, "value", tail);
    var rest := Cut(segs[i + 5..], tail);
    CutAt(segs, i + 1, tail);
    CutAt(segs, i + 2, tail);
    CutAt(segs, i + 3, tail);
    CutAt(segs, i + 4, tail);
    var a, b :| IsGap(a) && IsGap(b) && segs[i + 3] == a + ([':'] + b);
    var q := "\"" + (segs[i + 4] + ("\"" + rest));
    Regroup(segs[i + 1], segs[i + 2], a, b, q);
    CapturedValue(Cut(segs, tail), Before(segs[i + 1], segs[i + 2], a), b, segs[i + 4], rest, outSz);
  }

  lemma CapturedValue(text: string, sep: string, b: string, name: string, rest: string, outSz: nat)
    requires ':' !in sep && IsGap(b) && PlainName(name) && |name| + 3 <= outSz
    requires StrStr(text, Quoted("value")) == Some(Quoted("value") + (sep + (":" + (b + ("\"" + (name + ("\"" + rest)))))))
    ensures ValueIn(text, outSz) == Some(Quoted(name))
  {
    hide ValueIn, StrStr, Quoted, SkipSpace, ValueSpec, PlainName;
    var q := "\"" + (name + ("\"" + rest));
    ValueBehindColon(text, sep, b + q, outSz);
    GapIsSkipped(b, q);
    QuotedIsValue(name, rest, outSz);
  }

  /** What stands between a captured name and the colon behind the next. */
  function Before(s: string, t: string, a: string): string {
    s + ("\"" + (t + ("\"" + a)))
  }

  lemma Regroup(s: string, t: string, a: string, b: string, q: string)
    ensures s + ("\"" + (t + ("\"" + ((a + ([':'] + b)) + q)))) == Before(s, t, a) + (":" + (b + q))
  {}

  lemma RawInCut(segs: seq<string>, gap: string, p: string, outSz: nat)
    requires segs != [] && QuoteFree(segs) && FirstSeg(segs, |segs| - 1, "value") && IsGap(gap)
    ensures ValueIn(Cut(segs, gap + (":" + p)), outSz) == ValueSpec(SkipSpace(p), outSz)
  {
    FindFirstSeg(segs, |segs| - 1, "value", gap + (":" + p));
    assert segs[|segs|..] == [];
    ValueBehindColon(Cut(segs, gap + (":" + p)), gap, p, outSz);
  }

  /** What the extractor finds in a text of that layout. */
  lemma ReadValue(json: string, segs: seq<string>, at: nat, gap: string, p: string, ns: string, key: string, op: string)
    requires Announces(json, segs, at, gap + (":" + p), ns, key, op) && IsGap(gap)
    ensures ExtractSpec(json, VALUE_MAX + 1)
         == if ns == "value" then Some(Quoted(key)) else if key == "value" then Some(Quoted(op))
            else ValueSpec(SkipSpace(p), VALUE_MAX + 1)
  {
    hide ValueIn, ValueSpec, SkipSpace, Sep, Quoted, Cut, UpToNul, JsonOk;
    KeyIsPlain(key);
    LayoutSeps(segs, at, ns, key, op);
    if ns == "value" {
      CapturedInCut(segs, at + 2, gap + (":" + p), VALUE_MAX + 1);
    } else if key == "value" {
      CapturedInCut(segs, at + 6, gap + (":" + p), VALUE_MAX + 1);
    } else {
      RawInCut(segs, gap, p, VALUE_MAX + 1);
    }
  }

  /** When the value comes back as announced. */
  predicate ValueSurvives(ns: string, key: string, value: string) {
    if ns == "value" then value == Quoted(key)
    else if key == "value" then value == Quoted("put")
    else Survives(value)
  }

  lemma OrderOfPut(ns: string, key: string, value: string, x: Option<string>)
    requires KeyValid(key) && (x == Some(value) && value != "null" <==> Survives(value))
    ensures OrderSpec(ns, KeyRead(ns, key), OpRead(ns, key, "put"),
                      if ns == "value" then Some(Quoted(key)) else if key == "value" then Some(Quoted("put")) else x)
            == Asks(PutOrder(ns, key, value))
       <==> NamesSurvive(ns, key) && ValueSurvives(ns, key, value)
  {
    hide Survives;
    assert Quoted(key)[0] == QUOTE && Quoted("put")[0] == QUOTE;
  }

  /** A put with value `value` behind a colon and white space. */
  lemma ReadsPut(
    json: string, segs: seq<string>, at: nat, before: string, after: string, value: string, foot: string,
    ns: string, key: string)
    requires Announces(json, segs, at, UpToNul(before + (":" + (after + (value + foot)))), ns, key, "put")
    requires IsGap(before) && IsGap(after) && value != "" && |value| <= VALUE_MAX && Ends(foot)
    ensures ParseSpec(json) == Asks(PutOrder(ns, key, value)) <==> NamesSurvive(ns, key) && ValueSurvives(ns, key, value)
  {
    hide Announces, ParseSpec, ExtractSpec, OrderSpec, Survives, UpToNul, ValueSpec, SkipSpace, ValueSurvives, Ends;
    var p := UpToNul(after + (value + foot));
    SeenBehind(before, after + (value + foot));
    ParsedAs(json, segs, at, before + (":" + p), ns, key, "put");
    ReadValue(json, segs, at, before, p, ns, key, "put");
    StoredIff(after, value, foot);
    SeenKey(json, segs, at, before + (":" + p), ns, key);
    OrderOfPut(ns, key, value, ValueSpec(SkipSpace(p), VALUE_MAX + 1));
  }

  lemma SeenBehind(gap: string, p: string)
    requires IsGap(gap)
    ensures UpToNul(gap + (":" + p)) == gap + (":" + UpToNul(p))
  {
    hide UpToNul;
    UpToNulAppend(gap, ":" + p);
    UpToNulAppend(":", p);
  }

  lemma SeenKey(json: string, segs: seq<string>, at: nat, tail: string, ns: string, key: string)
    requires Announces(json, segs, at, tail, ns, key, "put")
    ensures KeyValid(key)
  {}

  /** For every value a store may hold: the announcement of a put is read back as that very
      put exactly when its names survive and its value does. */
  lemma PutRoundTrip(c: Change)
    requires Readable(c) && c.op == "put" && c.value != ""
    ensures ParseSpec(ChangeText(c)) == Asks(PutOrder(c.ns, c.key, c.value))
       <==> NamesSurvive(c.ns, c.key) && ValueSurvives(c.ns, c.key, c.value)
  {
    hide ChangeText, Segs, ParseSpec, Announces, Survives, UpToNul, ValueSurvives;
    SeenAs(c);
    ValueShorter(c);
    assert "" + (":" + ("" + Rest(c))) == ":" + Rest(c);
    assert "" + (c.value + Foot(c)) == Rest(c);
    ReadsPut(ChangeText(c), Segs(c), 5, "", "", c.value, Foot(c), c.ns, c.key);
  }

  lemma ValueShorter(c: Change)
    ensures |c.value| <= |ChangeText(c)| && Ends(Foot(c))
  {
    HeadLength(c, (if c.value == "" then "null" else c.value) + Foot(c));
  }

  /** For a JSON document and ordinary names: exactly when it is trimmed and not null. */
  lemma DocumentRoundTrip(c: Change, d: Document)
    requires Readable(c) && c.op == "put" && DocumentOk(d) && c.value == DocumentText(d)
    requires c.ns != "value" && c.key != "value"
    ensures ParseSpec(ChangeText(c)) == Asks(PutOrder(c.ns, c.key, c.value))
       <==> NamesSurvive(c.ns, c.key) && d.lead == "" && d.trail == "" && !d.tree.Null?
  {
    hide ChangeText, ParseSpec, Survives, DocumentText;
    TextNotEmpty(d);
    PutRoundTrip(c);
    DocumentSurvives(d);
  }

  lemma TextNotEmpty(d: Document)
    requires DocumentOk(d)
    ensures DocumentText(d) != ""
  {
    FirstChar(d.tree, "");
  }

  // ----- payloads as documented ---------------------------------------------------------

  /** White space around the structural characters of a payload. */
  datatype Spacing = Spacing(gaps: seq<string>)

  predicate SpacingOk(sp: Spacing) {
    |sp.gaps| == 16 && forall i | 0 <= i < 16 :: IsGap(sp.gaps[i])
  }

  function Spaced(sp: Spacing, i: nat, c: char): string
    requires SpacingOk(sp) && i < 8
  {
    sp.gaps[2 * i] + ([c] + sp.gaps[2 * i + 1])
  }

  /** The documented payload: ns, key, op and value in this order, then whatever fields
      follow, or the closing brace. */
  function PayloadText(sp: Spacing, ns: string, key: string, op: string, value: string, foot: string): string
    requires SpacingOk(sp)
  {
    Field(Spaced(sp, 0, '{'), "ns", Spaced(sp, 1, ':'), ns,
    Field(Spaced(sp, 2, ','), "key", Spaced(sp, 3, ':'), key,
    Field(Spaced(sp, 4, ','), "op", Spaced(sp, 5, ':'), op,
    Spaced(sp, 6, ',') + ("\"" + ("value" + ("\"" + (sp.gaps[14] + (":" + (sp.gaps[15] + (value + foot))))))))))
  }

  function PayloadSegs(sp: Spacing, ns: string, key: string, op: string): (segs: seq<string>)
    requires SpacingOk(sp)
    ensures |segs| == 14
  {
    [Spaced(sp, 0, '{'), "ns", Spaced(sp, 1, ':'), ns, Spaced(sp, 2, ','), "key", Spaced(sp, 3, ':'), key,
     Spaced(sp, 4, ','), "op", Spaced(sp, 5, ':'), op, Spaced(sp, 6, ','), "value"]
  }

  lemma PayloadIsCut(sp: Spacing, ns: string, key: string, op: string, value: string, foot: string)
    requires SpacingOk(sp)
    ensures PayloadText(sp, ns, key, op, value, foot)
         == Cut(PayloadSegs(sp, ns, key, op), sp.gaps[14] + (":" + (sp.gaps[15] + (value + foot))))
  {
    hide Cut, Field, Spaced;
    var tail := sp.gaps[14] + (":" + (sp.gaps[15] + (value + foot)));
    var s3 := [Spaced(sp, 6, ','), "value"];
    var s2 := [Spaced(sp, 4, ','), "op", Spaced(sp, 5, ':'), op] + s3;
    var s1 := [Spaced(sp, 2, ','), "key", Spaced(sp, 3, ':'), key] + s2;
    NameCut(Spaced(sp, 6, ','), "value", tail);
    FieldCut(Spaced(sp, 4, ','), "op", Spaced(sp, 5, ':'), op, s3, tail);
    FieldCut(Spaced(sp, 2, ','), "key", Spaced(sp, 3, ':'), key, s2, tail);
    FieldCut(Spaced(sp, 0, '{'), "ns", Spaced(sp, 1, ':'), ns, s1, tail);
    assert PayloadSegs(sp, ns, key, op) == [Spaced(sp, 0, '{'), "ns", Spaced(sp, 1, ':'), ns] + s1;
  }

  lemma SpacedSep(sp: Spacing, i: nat, c: char)
    requires SpacingOk(sp) && i < 8
    ensures Sep(Spaced(sp, i, c), c)
  {
    SepIs(sp.gaps[2 * i], c, sp.gaps[2 * i + 1]);
  }

  lemma PayloadLayout(sp: Spacing, ns: string, key: string, op: string)
    requires SpacingOk(sp)
    ensures Layout(PayloadSegs(sp, ns, key, op), 1, ns, key, op)
    ensures Sep(PayloadSegs(sp, ns, key, op)[0], '{') && PlainName(PayloadSegs(sp, ns, key, op)[0])
  {
    hide Sep, Spaced, PlainName, SpacingOk;
    SpacedSep(sp, 0, '{');
    SpacedSep(sp, 1, ':');
    SpacedSep(sp, 2, ',');
    SpacedSep(sp, 3, ':');
    SpacedSep(sp, 4, ',');
    SpacedSep(sp, 5, ':');
    SpacedSep(sp, 6, ',');
    SepPlain(Spaced(sp, 0, '{'), '{');
  }

  /** What a payload needs for its fields to be read. */
  ghost predicate PayloadOk(sp: Spacing, ns: string, key: string, op: string, value: string, foot: string) {
    && SpacingOk(sp) && PlainName(ns) && |ns| < NS_NAME_MAX && KeyValid(key)
    && |PayloadText(sp, ns, key, op, value, foot)| <= MAX_PAYLOAD
  }

  lemma PayloadSeen(sp: Spacing, ns: string, key: string, op: string, value: string, foot: string)
    requires PayloadOk(sp, ns, key, op, value, foot) && (op == "put" || op == "delete")
    ensures Announces(PayloadText(sp, ns, key, op, value, foot), PayloadSegs(sp, ns, key, op), 1,
                      UpToNul(sp.gaps[14] + (":" + (sp.gaps[15] + (value + foot)))), ns, key, op)
  {
    hide PayloadText, PayloadSegs, Layout, Sep, UpToNul;
    PayloadIsCut(sp, ns, key, op, value, foot);
    PayloadLayout(sp, ns, key, op);
    Seen(PayloadText(sp, ns, key, op, value, foot), PayloadSegs(sp, ns, key, op), 1,
         sp.gaps[14] + (":" + (sp.gaps[15] + (value + foot))), ns, key, op);
  }

  /** For every value text of a documented payload, however it is spaced: the payload asks
      for its put exactly when names and value survive. */
  lemma PutPayload(sp: Spacing, ns: string, key: string, value: string, foot: string)
    requires PayloadOk(sp, ns, key, "put", value, foot) && value != "" && Ends(foot)
    ensures ParseSpec(PayloadText(sp, ns, key, "put", value, foot)) == Asks(PutOrder(ns, key, value))
       <==> NamesSurvive(ns, key) && ValueSurvives(ns, key, value)
  {
    hide PayloadText, PayloadSegs, ParseSpec, Announces, Survives, UpToNul;
    var json := PayloadText(sp, ns, key, "put", value, foot);
    PayloadSeen(sp, ns, key, "put", value, foot);
    PayloadLonger(sp, ns, key, "put", value, foot);
    ReadsPut(json, PayloadSegs(sp, ns, key, "put"), 1, sp.gaps[14], sp.gaps[15], value, foot, ns, key);
  }

  lemma PayloadLonger(sp: Spacing, ns: string, key: string, op: string, value: string, foot: string)
    requires SpacingOk(sp)
    ensures |value| <= |PayloadText(sp, ns, key, op, value, foot)|
  {}

  /** For every JSON value: the text extracted is the text of the tree, whatever the
      spacing, and every value but null is asked for. */
  lemma TreePayload(sp: Spacing, ns: string, key: string, v: Json, foot: string)
    requires WellFormed(v) && Ends(foot) && ns != "value" && key != "value"
    requires PayloadOk(sp, ns, key, "put", TextOf(v), foot)
    ensures var json := PayloadText(sp, ns, key, "put", TextOf(v), foot);
            && ExtractSpec(json, VALUE_MAX + 1) == Some(TextOf(v))
            && (ParseSpec(json) == Asks(PutOrder(ns, key, TextOf(v))) <==> NamesSurvive(ns, key) && !v.Null?)
  {
    hide PayloadText, PayloadSegs, ParseSpec, Announces, Survives, UpToNul, ExtractSpec, Print, WellFormed;
    var d := Document("", v, "");
    var json := PayloadText(sp, ns, key, "put", TextOf(v), foot);
    assert DocumentText(d) == TextOf(v);
    TextNotEmpty(d);
    DocumentSurvives(d);
    PutPayload(sp, ns, key, TextOf(v), foot);
    PayloadLonger(sp, ns, key, "put", TextOf(v), foot);
    PayloadSeen(sp, ns, key, "put", TextOf(v), foot);
    TreeExtracted(json, sp, ns, key, v, foot);
  }

  lemma TreeExtracted(json: string, sp: Spacing, ns: string, key: string, v: Json, foot: string)
    requires SpacingOk(sp) && WellFormed(v) && Ends(foot) && ns != "value" && key != "value"
    requires Announces(json, PayloadSegs(sp, ns, key, "put"), 1,
                       UpToNul(sp.gaps[14] + (":" + (sp.gaps[15] + (TextOf(v) + foot)))), ns, key, "put")
    requires |TextOf(v)| <= VALUE_MAX
    ensures ExtractSpec(json, VALUE_MAX + 1) == Some(TextOf(v))
  {
    hide PayloadSegs, Announces, UpToNul, ExtractSpec, Print, WellFormed, ValueSpec, SkipSpace;
    var before, after := sp.gaps[14], sp.gaps[15];
    SeenBehind(before, after + (TextOf(v) + foot));
    UpToNulAppend(after, TextOf(v) + foot);
    ValueNoNul(v, "");
    UpToNulAppend(TextOf(v), foot);
    var k := UpToNul(foot);
    assert Ends(k) by { EndsSeen(foot); }
    PrintIsText(v, k);
    ReadValue(json, PayloadSegs(sp, ns, key, "put"), 1, before, after + Print(v, k), ns, key, "put");
    ValueOfTree(after, v, k, VALUE_MAX + 1);
  }

  lemma EndsSeen(foot: string)
    requires Ends(foot)
    ensures Ends(UpToNul(foot))
  {}

  /** A deletion payload is read as its deletion, whatever its value, exactly when its
      names survive. */
  lemma DeletePayload(sp: Spacing, ns: string, key: string, value: string, foot: string)
    requires PayloadOk(sp, ns, key, "delete", value, foot)
    ensures ParseSpec(PayloadText(sp, ns, key, "delete", value, foot)) == Asks(DeleteOrder(ns, key))
       <==> NamesSurvive(ns, key)
  {
    hide PayloadText, PayloadSegs, ParseSpec, ExtractSpec, OrderSpec, Announces, UpToNul;
    var json := PayloadText(sp, ns, key, "delete", value, foot);
    var tail := UpToNul(sp.gaps[14] + (":" + (sp.gaps[15] + (value + foot))));
    PayloadSeen(sp, ns, key, "delete", value, foot);
    ParsedAs(json, PayloadSegs(sp, ns, key, "delete"), 1, tail, ns, key, "delete");
    OrderOfDelete(ns, key, ExtractSpec(json, VALUE_MAX + 1));
  }
}
