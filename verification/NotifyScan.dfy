/** src/host/notify_apply.c, the two scanners: the quoted-field reader and the raw
    value extractor, and why counting one bracket kind is enough on JSON text. */
module NotifyScan {
  import opened Text
  import opened StateStore
  import opened JsonText

  const MAX_PAYLOAD: nat := 8000
  const FIELD_KEY_BUF: nat := 80

  // ----- string fields --------------------------------------------------------------

  /** The closing quote of a string body and everything after it; empty if there is none. */
  function ToClosing(p: string): (e: string)
    ensures |e| <= |p| && p[|p| - |e|..] == e && (e == "" || e[0] == QUOTE)
  {
    if p == "" || p[0] == QUOTE then p
    else if p[0] == '\\' && |p| > 1 then ToClosing(p[2..])
    else ToClosing(p[1..])
  }

  /** Drops escaping backslashes and keeps at most `room` characters. */
  function Unescape(p: string, room: nat): string {
    if p == "" || room == 0 then ""
    else if p[0] == '\\' && |p| > 1 then [p[1]] + Unescape(p[2..], room - 1)
    else [p[0]] + Unescape(p[1..], room - 1)
  }

  /** The next quoted text, unescaped and clipped. */
  function NextString(p: string, outSz: nat): Option<string>
    requires outSz > 0
  {
    match StrChr(p, QUOTE)
    case None => None
    case Some(q) =>
      var body := q[1..];
      var end := ToClosing(body);
      if end == "" then None
      else Some(Unescape(body[..|body| - |end|], outSz - 1))
  }

  function FieldIn(text: string, pat: string, outSz: nat): Option<string>
    requires outSz > 0
  {
    match StrStr(text, pat)
    case None => None
    case Some(p) => NextString(p[|pat|..], outSz)
  }

  function StringFieldSpec(json: string, name: string, outSz: nat): Option<string> {
    if outSz == 0 || json == "" || |json| > MAX_PAYLOAD then None
    else FieldIn(UpToNul(json), Clip(Quoted(name), FIELD_KEY_BUF), outSz)
  }

  method ScanToClosing(body: string) returns (end: string)
    ensures end == ToClosing(body)
  {
    end := body;
    while end != "" && end[0] != QUOTE
      invariant ToClosing(end) == ToClosing(body)
      decreases |end|
    {
      if end[0] == '\\' && |end| > 1 {
        end := end[2..];
      } else {
        end := end[1..];
      }
    }
  }

  method CopyUnescaped(content: string, outSz: nat) returns (out: string)
    requires outSz > 0
    ensures out == Unescape(content, outSz - 1)
  {
    var p := content;
    out := "";
    while p != "" && |out| + 1 < outSz
      invariant |out| <= outSz - 1
      invariant Unescape(content, outSz - 1) == out + Unescape(p, outSz - 1 - |out|)
      decreases |p|
    {
      ghost var rest := Unescape(p, outSz - 1 - |out|);
      if p[0] == '\\' && |p| > 1 {
        p := p[1..];
      }
      assert rest == [p[0]] + Unescape(p[1..], outSz - 2 - |out|);
      assert out + rest == (out + [p[0]]) + Unescape(p[1..], outSz - 2 - |out|);
      out := out + [p[0]];
      p := p[1..];
    }
    assert out + "" == out;
  }

  /** edge_notify_json_string_field */
  method StringField(json: string, name: string, outSz: nat) returns (r: Option<string>)
    ensures r == StringFieldSpec(json, name, outSz)
  {
    if outSz == 0 || json == "" || |json| > MAX_PAYLOAD { return None; }
    var tmp := UpToNul(json);
    var pat := Clip(Quoted(name), FIELD_KEY_BUF);
    var hit := StrStr(tmp, pat);
    if hit.None? { return None; }
    var quote := StrChr(hit.value[|pat|..], QUOTE);
    if quote.None? { return None; }
    var body := quote.value[1..];
    var end := ScanToClosing(body);
    if end == "" { return None; }
    var out := CopyUnescaped(body[..|body| - |end|], outSz);
    r := Some(out);
  }

  // ----- raw values -----------------------------------------------------------------

  function SkipSpace(p: string): (e: string)
    ensures |e| <= |p| && p[|p| - |e|..] == e
  {
    if p != "" && IsSpace(p[0]) then SkipSpace(p[1..]) else p
  }

  /** From inside a string body to behind its closing quote. */
  function SkipBody(p: string): (e: string)
    ensures |e| <= |p|
  {
    if p == "" then p
    else if p[0] == QUOTE then p[1..]
    else if p[0] == '\\' && |p| > 1 then SkipBody(p[2..])
    else SkipBody(p[1..])
  }

  /** Counts one kind of bracket, stepping over string literals, until `depth` is 0. */
  function SkipNest(p: string, open: char, close: char, depth: nat): (e: string)
    ensures |e| <= |p|
    decreases |p|
  {
    if p == "" || depth == 0 then p
    else if p[0] == QUOTE then SkipNest(SkipBody(p[1..]), open, close, depth)
    else if p[0] == open then SkipNest(p[1..], open, close, depth + 1)
    else if p[0] == close then SkipNest(p[1..], open, close, depth - 1)
    else SkipNest(p[1..], open, close, depth)
  }

  predicate EndsScalar(c: char) {
    c == ',' || c == '}' || IsSpace(c)
  }

  function SkipScalar(p: string): (e: string)
    ensures |e| <= |p|
  {
    if p == "" || EndsScalar(p[0]) then p else SkipScalar(p[1..])
  }

  function SkipValue(p: string): (e: string)
    requires p != ""
    ensures |e| <= |p|
  {
    if p[0] == '{' then SkipNest(p[1..], '{', '}', 1)
    else if p[0] == '[' then SkipNest(p[1..], '[', ']', 1)
    else if p[0] == QUOTE then SkipBody(p[1..])
    else SkipScalar(p)
  }

  function ValueIn(text: string, outSz: nat): Option<string> {
    match StrStr(text, Quoted("value"))
    case None => None
    case Some(q) =>
      match StrChr(q, ':')
      case None => None
      case Some(r) => ValueSpec(SkipSpace(r[1..]), outSz)
  }

  function ExtractSpec(json: string, outSz: nat): Option<string> {
    if |json| > MAX_PAYLOAD then None else ValueIn(UpToNul(json), outSz)
  }

  function ValueSpec(p: string, outSz: nat): Option<string> {
    if p == "" then None
    else if "null" <= p then (if outSz < 5 then None else Some("null"))
    else
      var n := |p| - |SkipValue(p)|;
      if n + 1 > outSz then None else Some(p[..n])
  }

  method SkipString(start: string) returns (p: string)
    ensures p == SkipBody(start)
  {
    p := start;
    while p != "" && p[0] != QUOTE
      invariant SkipBody(p) == SkipBody(start)
      decreases |p|
    {
      if p[0] == '\\' && |p| > 1 {
        p := p[2..];
      } else {
        p := p[1..];
      }
    }
    if p != "" { p := p[1..]; }
  }

  method SkipBrackets(start: string, open: char, close: char) returns (p: string)
    ensures p == SkipNest(start, open, close, 1)
  {
    p := start;
    var depth := 1;
    while p != "" && depth > 0
      invariant depth >= 0
      invariant SkipNest(p, open, close, depth) == SkipNest(start, open, close, 1)
      decreases |p|
    {
      if p[0] == QUOTE {
        p := SkipString(p[1..]);
        continue;
      }
      if p[0] == open {
        depth := depth + 1;
      } else if p[0] == close {
        depth := depth - 1;
      }
      p := p[1..];
    }
  }

  method SkipSpaces(start: string) returns (p: string)
    ensures p == SkipSpace(start)
  {
    p := start;
    while p != "" && IsSpace(p[0])
      invariant SkipSpace(p) == SkipSpace(start)
      decreases |p|
    {
      p := p[1..];
    }
  }

  method ScanScalar(start: string) returns (p: string)
    ensures p == SkipScalar(start)
  {
    p := start;
    while p != "" && p[0] != ',' && p[0] != '}' && !IsSpace(p[0])
      invariant SkipScalar(p) == SkipScalar(start)
      decreases |p|
    {
      p := p[1..];
    }
  }

  method ScanValue(start: string) returns (p: string)
    requires start != ""
    ensures p == SkipValue(start)
  {
    if start[0] == '{' || start[0] == '[' {
      var close := if start[0] == '{' then '}' else ']';
      p := SkipBrackets(start[1..], start[0], close);
    } else if start[0] == QUOTE {
      p := SkipString(start[1..]);
    } else {
      p := ScanScalar(start);
    }
  }

  method CopyValue(start: string, outSz: nat) returns (r: Option<string>)
    ensures r == ValueSpec(start, outSz)
  {
    if start == "" { return None; }
    if "null" <= start {
      if outSz < 5 { return None; }
      return Some("null");
    }
    var p := ScanValue(start);
    var n := |start| - |p|;
    if n + 1 > outSz { return None; }
    r := Some(start[..n]);
  }

  /** extract_raw_value */
  method ExtractRawValue(json: string, outSz: nat) returns (r: Option<string>)
    ensures r == ExtractSpec(json, outSz)
  {
    if |json| > MAX_PAYLOAD { return None; }
    var tmp := UpToNul(json);
    var hit := StrStr(tmp, Quoted("value"));
    if hit.None? { return None; }
    var colon := StrChr(hit.value, ':');
    if colon.None? { return None; }
    var start := SkipSpaces(colon.value[1..]);
    r := CopyValue(start, outSz);
  }

  // ----- the extractor on JSON text ---------------------------------------------------

  lemma {:induction false} BodyIsSkipped(body: seq<StrChar>, k: string)
    requires BodyOk(body)
    ensures SkipBody(PrintBody(body, [QUOTE] + k)) == k
  {
    if body == [] {
      assert ([QUOTE] + k)[1..] == k;
    } else {
      var rest := PrintBody(body[1..], [QUOTE] + k);
      BodyIsSkipped(body[1..], k);
      var p := PrintBody(body, [QUOTE] + k);
      assert body[0] in body;
      if body[0].Plain? {
        assert p[1..] == rest;
      } else {
        assert p[2..] == rest;
      }
    }
  }

  ghost predicate BracketPair(open: char, close: char) {
    (open == '{' && close == '}') || (open == '[' && close == ']')
  }

  /** Text without brackets or quotes does not move the depth. */
  lemma {:induction false} NestOverPlain(a: string, k: string, open: char, close: char, depth: nat)
    requires BracketPair(open, close) && depth > 0
    requires forall c | c in a :: c != QUOTE && c != '{' && c != '}' && c != '[' && c != ']'
    ensures SkipNest(a + k, open, close, depth) == SkipNest(k, open, close, depth)
  {
    if a == "" {
      assert a + k == k;
    } else {
      assert (a + k)[1..] == a[1..] + k;
      assert a[0] in a && forall c | c in a[1..] :: c in a;
      NestOverPlain(a[1..], k, open, close, depth);
    }
  }

  lemma NestOverStr(body: seq<StrChar>, k: string, open: char, close: char, depth: nat)
    requires BracketPair(open, close) && depth > 0 && BodyOk(body)
    ensures SkipNest(PrintStr(body, k), open, close, depth) == SkipNest(k, open, close, depth)
  {
    var p := PrintStr(body, k);
    assert p[1..] == PrintBody(body, [QUOTE] + k);
    BodyIsSkipped(body, k);
  }

  /** A whole value, nested at any depth, leaves the count of either bracket kind where
      it was. */
  lemma {:induction false} NestOverValue(v: Json, k: string, open: char, close: char, depth: nat)
    requires WellFormed(v) && BracketPair(open, close) && depth > 0
    ensures SkipNest(Print(v, k), open, close, depth) == SkipNest(k, open, close, depth)
    decreases v, 0
  {
    match v
    case Null => NestOverPlain("null", k, open, close, depth);
    case True => NestOverPlain("true", k, open, close, depth);
    case False => NestOverPlain("false", k, open, close, depth);
    case Number(lexeme) => NestOverPlain(lexeme, k, open, close, depth);
    case Str(body) => NestOverStr(body, k, open, close, depth);
    case Array(items) =>
      var d := if open == '[' then depth + 1 else depth;
      assert Print(v, k)[1..] == PrintItems(items, [']'] + k);
      NestOverItems(items, [']'] + k, open, close, d);
      assert ([']'] + k)[1..] == k;
    case Object(members) =>
      var d := if open == '{' then depth + 1 else depth;
      assert Print(v, k)[1..] == PrintMembers(members, ['}'] + k);
      NestOverMembers(members, ['}'] + k, open, close, d);
      assert (['}'] + k)[1..] == k;
  }

  lemma {:induction false} NestOverItems(items: Items, k: string, open: char, close: char, depth: nat)
    requires ItemsOk(items) && BracketPair(open, close) && depth > 0
    ensures SkipNest(PrintItems(items, k), open, close, depth) == SkipNest(k, open, close, depth)
  {
    match items
    case NoItems(gap) => NestOverPlain(gap, k, open, close, depth);
    case LastItem(before, item, after) =>
      NestOverPlain(before, Print(item, after + k), open, close, depth);
      NestOverValue(item, after + k, open, close, depth);
      NestOverPlain(after, k, open, close, depth);
    case Item(before, item, after, rest) =>
      var tail := [','] + PrintItems(rest, k);
      NestOverPlain(before, Print(item, after + tail), open, close, depth);
      NestOverValue(item, after + tail, open, close, depth);
      NestOverPlain(after, tail, open, close, depth);
      NestOverPlain([','], PrintItems(rest, k), open, close, depth);
      NestOverItems(rest, k, open, close, depth);
  }

  lemma {:induction false} NestOverMember(
    before: string, key: seq<StrChar>, mid: string, pre: string, value: Json, after: string, k: string,
    open: char, close: char, depth: nat)
    requires IsGap(before) && BodyOk(key) && IsGap(mid) && IsGap(pre) && WellFormed(value) && IsGap(after)
    requires BracketPair(open, close) && depth > 0
    ensures SkipNest(before + PrintStr(key, mid + ([':'] + (pre + Print(value, after + k)))), open, close, depth)
         == SkipNest(k, open, close, depth)
    decreases value, 1
  {
    var p3 := Print(value, after + k);
    var p2 := [':'] + (pre + p3);
    NestOverPlain(before, PrintStr(key, mid + p2), open, close, depth);
    NestOverStr(key, mid + p2, open, close, depth);
    NestOverPlain(mid, p2, open, close, depth);
    NestOverPlain([':'], pre + p3, open, close, depth);
    NestOverPlain(pre, p3, open, close, depth);
    NestOverValue(value, after + k, open, close, depth);
    NestOverPlain(after, k, open, close, depth);
  }

  lemma {:induction false} NestOverMembers(ms: Members, k: string, open: char, close: char, depth: nat)
    requires MembersOk(ms) && BracketPair(open, close) && depth > 0
    ensures SkipNest(PrintMembers(ms, k), open, close, depth) == SkipNest(k, open, close, depth)
  {
    match ms
    case NoMembers(gap) => NestOverPlain(gap, k, open, close, depth);
    case LastMember(before, key, mid, pre, value, after) =>
      NestOverMember(before, key, mid, pre, value, after, k, open, close, depth);
    case Member(before, key, mid, pre, value, after, rest) =>
      var tail := [','] + PrintMembers(rest, k);
      NestOverMember(before, key, mid, pre, value, after, tail, open, close, depth);
      NestOverPlain([','], PrintMembers(rest, k), open, close, depth);
      NestOverMembers(rest, k, open, close, depth);
  }

  lemma {:induction false} ScalarIsSkipped(a: string, k: string)
    requires forall c | c in a :: !EndsScalar(c)
    requires k == "" || EndsScalar(k[0])
    ensures SkipScalar(a + k) == k
  {
    if a == "" {
      assert a + k == k;
    } else {
      assert (a + k)[1..] == a[1..] + k;
      assert a[0] in a;
      ScalarIsSkipped(a[1..], k);
    }
  }

  lemma SkipOverScalar(v: Json, k: string)
    requires WellFormed(v) && (v.Null? || v.True? || v.False? || v.Number?) && (k == "" || EndsScalar(k[0]))
    ensures Print(v, k) != "" && SkipValue(Print(v, k)) == k
  {
    hide SkipNest, SkipBody, SkipScalar;
    match v
    case Null => ScalarIsSkipped("null", k);
    case True => ScalarIsSkipped("true", k);
    case False => ScalarIsSkipped("false", k);
    case Number(lexeme) =>
      assert Print(v, k)[0] == lexeme[0];
      ScalarIsSkipped(lexeme, k);
  }

  lemma SkipOverStr(body: seq<StrChar>, k: string)
    requires BodyOk(body)
    ensures Print(Str(body), k) != "" && SkipValue(Print(Str(body), k)) == k
  {
    hide SkipNest, SkipBody, SkipScalar;
    assert Print(Str(body), k)[1..] == PrintBody(body, [QUOTE] + k);
    BodyIsSkipped(body, k);
  }

  lemma ClosingEnds(close: char, open: char, k: string)
    requires BracketPair(open, close)
    ensures SkipNest([close] + k, open, close, 1) == k
  {
    hide SkipBody;
    assert ([close] + k)[1..] == k;
  }

  lemma SkipOverBrackets(v: Json, k: string)
    requires WellFormed(v) && (v.Array? || v.Object?)
    ensures Print(v, k) != "" && SkipValue(Print(v, k)) == k
  {
    hide SkipNest, SkipBody, SkipScalar, PrintItems, PrintMembers;
    var p := Print(v, k);
    match v
    case Array(items) =>
      assert p[1..] == PrintItems(items, [']'] + k);
      NestOverItems(items, [']'] + k, '[', ']', 1);
      ClosingEnds(']', '[', k);
    case Object(members) =>
      assert p[1..] == PrintMembers(members, ['}'] + k);
      NestOverMembers(members, ['}'] + k, '{', '}', 1);
      ClosingEnds('}', '{', k);
  }

  /** A skip over the text of any JSON value stops exactly behind it. */
  lemma SkipOverValue(v: Json, k: string)
    requires WellFormed(v)
    requires v.Str? || v.Array? || v.Object? || k == "" || EndsScalar(k[0])
    ensures Print(v, k) != "" && SkipValue(Print(v, k)) == k
  {
    hide SkipValue, Print;
    if v.Str? {
      SkipOverStr(v.body, k);
    } else if v.Array? || v.Object? {
      SkipOverBrackets(v, k);
    } else {
      SkipOverScalar(v, k);
    }
  }

  lemma FirstChar(v: Json, k: string)
    requires WellFormed(v)
    ensures Print(v, k) != "" && JsonStart(Print(v, k)[0])
    ensures "null" <= Print(v, k) <==> v.Null?
  {
    var p := Print(v, k);
    match v
    case Null => assert p[..4] == "null";
    case Number(lexeme) => assert p[0] == lexeme[0] && lexeme[0] in lexeme;
    case _ =>
  }

  lemma {:induction false} SpaceIsSkipped(gap: string, p: string)
    requires forall c | c in gap :: IsSpace(c)
    requires p != "" && !IsSpace(p[0])
    ensures SkipSpace(gap + p) == p
  {
    if gap == "" {
      assert gap + p == p;
    } else {
      assert (gap + p)[1..] == gap[1..] + p;
      assert gap[0] in gap;
      SpaceIsSkipped(gap[1..], p);
    }
  }

  lemma NullIsPrinted()
    ensures TextOf(Null) == "null"
  {}

  /** The value text extracted from behind the colon is the text of the tree, whatever
      white space comes before it. */
  lemma ValueOfTree(gap: string, v: Json, k: string, outSz: nat)
    requires WellFormed(v) && forall c | c in gap :: IsSpace(c)
    requires v.Str? || v.Array? || v.Object? || k == "" || EndsScalar(k[0])
    requires |TextOf(v)| < outSz
    ensures ValueSpec(SkipSpace(gap + Print(v, k)), outSz) == Some(TextOf(v))
  {
    hide Print, SkipValue, WellFormed, SkipSpace;
    var p := Print(v, k);
    FirstChar(v, k);
    SpaceIsSkipped(gap, p);
    PrintIsText(v, k);
    if v.Null? {
      NullIsPrinted();
    } else {
      SkipOverValue(v, k);
      assert p[..|TextOf(v)|] == TextOf(v);
    }
  }
}
