/** JSON syntax trees with their concrete text: white space between tokens, string
    bodies and number lexemes are kept as written (RFC 8259, sections 2 to 7). */
module JsonText {
  import opened Text
  import opened StateStore

  /** One unit of a string body; \uXXXX is an escaped 'u' and four plain characters. */
  datatype StrChar = Plain(c: char) | Escaped(c: char)

  datatype Json =
    | Null
    | True
    | False
    | Number(lexeme: string)
    | Str(body: seq<StrChar>)
    | Array(items: Items)
    | Object(members: Members)

  datatype Items =
    | NoItems(gap: string)
    | LastItem(before: string, item: Json, after: string)
    | Item(before: string, item: Json, after: string, rest: Items)

  datatype Members =
    | NoMembers(gap: string)
    | LastMember(before: string, key: seq<StrChar>, mid: string, pre: string, value: Json, after: string)
    | Member(before: string, key: seq<StrChar>, mid: string, pre: string, value: Json, after: string, rest: Members)

  // ----- which trees are JSON -----------------------------------------------------

  predicate IsGap(ws: string) {
    forall c | c in ws :: c == ' ' || c == '\t' || c == '\n' || c == '\r'
  }

  predicate BodyOk(body: seq<StrChar>) {
    forall u | u in body :: if u.Plain? then u.c != QUOTE && u.c != '\\' && u.c as int >= 32
                            else u.c in "\"\\/bfnrtu"
  }

  /** Every RFC 8259 number is such a lexeme. */
  predicate NumberOk(lexeme: string) {
    && lexeme != [] && (lexeme[0] == '-' || '0' <= lexeme[0] <= '9')
    && forall c | c in lexeme :: '0' <= c <= '9' || c in "+-.eE"
  }

  predicate WellFormed(v: Json) {
    match v
    case Number(lexeme) => NumberOk(lexeme)
    case Str(body) => BodyOk(body)
    case Array(items) => ItemsOk(items)
    case Object(members) => MembersOk(members)
    case _ => true
  }

  predicate ItemsOk(items: Items) {
    match items
    case NoItems(gap) => IsGap(gap)
    case LastItem(before, item, after) => IsGap(before) && WellFormed(item) && IsGap(after)
    case Item(before, item, after, rest) => IsGap(before) && WellFormed(item) && IsGap(after) && ItemsOk(rest)
  }

  predicate MembersOk(ms: Members) {
    match ms
    case NoMembers(gap) => IsGap(gap)
    case LastMember(before, key, mid, pre, value, after) =>
      IsGap(before) && BodyOk(key) && IsGap(mid) && IsGap(pre) && WellFormed(value) && IsGap(after)
    case Member(before, key, mid, pre, value, after, rest) =>
      IsGap(before) && BodyOk(key) && IsGap(mid) && IsGap(pre) && WellFormed(value) && IsGap(after) && MembersOk(rest)
  }

  // ----- text ---------------------------------------------------------------------
  // Each printer puts its text in front of `k`, the text that comes after it.

  function PrintBody(body: seq<StrChar>, k: string): string {
    if body == [] then k
    else if body[0].Plain? then [body[0].c] + PrintBody(body[1..], k)
    else ['\\', body[0].c] + PrintBody(body[1..], k)
  }

  function PrintStr(body: seq<StrChar>, k: string): string {
    [QUOTE] + PrintBody(body, [QUOTE] + k)
  }

  function Print(v: Json, k: string): string {
    match v
    case Null => "null" + k
    case True => "true" + k
    case False => "false" + k
    case Number(lexeme) => lexeme + k
    case Str(body) => PrintStr(body, k)
    case Array(items) => ['['] + PrintItems(items, [']'] + k)
    case Object(members) => ['{'] + PrintMembers(members, ['}'] + k)
  }

  function PrintItems(items: Items, k: string): string {
    match items
    case NoItems(gap) => gap + k
    case LastItem(before, item, after) => before + Print(item, after + k)
    case Item(before, item, after, rest) => before + Print(item, after + ([','] + PrintItems(rest, k)))
  }

  function PrintMembers(ms: Members, k: string): string {
    match ms
    case NoMembers(gap) => gap + k
    case LastMember(before, key, mid, pre, value, after) =>
      before + PrintStr(key, mid + ([':'] + (pre + Print(value, after + k))))
    case Member(before, key, mid, pre, value, after, rest) =>
      before + PrintStr(key, mid + ([':'] + (pre + Print(value, after + ([','] + PrintMembers(rest, k))))))
  }

  function TextOf(v: Json): string {
    Print(v, "")
  }

  lemma Assoc(a: string, b: string, c: string)
    ensures (a + b) + c == a + (b + c)
  {}

  lemma {:induction false} BodySplit(body: seq<StrChar>, k: string, more: string)
    ensures PrintBody(body, k + more) == PrintBody(body, k) + more
  {
    if body != [] { BodySplit(body[1..], k, more); }
  }

  lemma StrSplit(body: seq<StrChar>, k: string, more: string)
    ensures PrintStr(body, k + more) == PrintStr(body, k) + more
  {
    Assoc([QUOTE], k, more);
    BodySplit(body, [QUOTE] + k, more);
    Assoc([QUOTE], PrintBody(body, [QUOTE] + k), more);
  }

  lemma {:induction false} PrintSplit(v: Json, k: string, more: string)
    ensures Print(v, k + more) == Print(v, k) + more
  {
    match v
    case Array(items) =>
      Assoc([']'], k, more);
      ItemsSplit(items, [']'] + k, more);
    case Object(members) =>
      Assoc(['}'], k, more);
      MembersSplit(members, ['}'] + k, more);
    case Str(body) => StrSplit(body, k, more);
    case Number(lexeme) => Assoc(lexeme, k, more);
    case Null => Assoc("null", k, more);
    case True => Assoc("true", k, more);
    case False => Assoc("false", k, more);
  }

  lemma {:induction false} ItemsSplit(items: Items, k: string, more: string)
    ensures PrintItems(items, k + more) == PrintItems(items, k) + more
  {
    match items
    case NoItems(gap) => Assoc(gap, k, more);
    case LastItem(before, item, after) =>
      Assoc(after, k, more);
      PrintSplit(item, after + k, more);
      Assoc(before, Print(item, after + k), more);
    case Item(before, item, after, rest) =>
      ItemsSplit(rest, k, more);
      var tail := [','] + PrintItems(rest, k);
      Assoc([','], PrintItems(rest, k), more);
      Assoc(after, tail, more);
      PrintSplit(item, after + tail, more);
      Assoc(before, Print(item, after + tail), more);
  }

  lemma MemberSplit(before: string, key: seq<StrChar>, mid: string, pre: string, value: Json, k: string, more: string)
    requires Print(value, k + more) == Print(value, k) + more
    ensures before + PrintStr(key, mid + ([':'] + (pre + Print(value, k + more))))
         == before + PrintStr(key, mid + ([':'] + (pre + Print(value, k)))) + more
  {
    var a := Print(value, k);
    Assoc(pre, a, more);
    Assoc([':'], pre + a, more);
    Assoc(mid, [':'] + (pre + a), more);
    StrSplit(key, mid + ([':'] + (pre + a)), more);
    Assoc(before, PrintStr(key, mid + ([':'] + (pre + a))), more);
  }

  lemma {:induction false} MembersSplit(ms: Members, k: string, more: string)
    ensures PrintMembers(ms, k + more) == PrintMembers(ms, k) + more
  {
    match ms
    case NoMembers(gap) => Assoc(gap, k, more);
    case LastMember(before, key, mid, pre, value, after) =>
      Assoc(after, k, more);
      PrintSplit(value, after + k, more);
      MemberSplit(before, key, mid, pre, value, after + k, more);
    case Member(before, key, mid, pre, value, after, rest) =>
      MembersSplit(rest, k, more);
      var tail := [','] + PrintMembers(rest, k);
      Assoc([','], PrintMembers(rest, k), more);
      Assoc(after, tail, more);
      PrintSplit(value, after + tail, more);
      MemberSplit(before, key, mid, pre, value, after + tail, more);
  }

  /** The text of a tree followed by `k`. */
  lemma PrintIsText(v: Json, k: string)
    ensures Print(v, k) == TextOf(v) + k
  {
    assert "" + k == k;
    PrintSplit(v, "", k);
  }

  // ----- the text holds no NUL ------------------------------------------------------

  lemma {:induction false} BodyNoNul(body: seq<StrChar>, k: string)
    requires BodyOk(body) && '\0' !in k
    ensures '\0' !in PrintBody(body, k)
  {
    if body != [] {
      assert body[0] in body;
      BodyNoNul(body[1..], k);
    }
  }

  lemma {:induction false} ValueNoNul(v: Json, k: string)
    requires WellFormed(v) && '\0' !in k
    ensures '\0' !in Print(v, k)
  {
    match v
    case Str(body) => BodyNoNul(body, [QUOTE] + k);
    case Array(items) => ItemsNoNul(items, [']'] + k);
    case Object(members) => MembersNoNul(members, ['}'] + k);
    case _ =>
  }

  lemma {:induction false} ItemsNoNul(items: Items, k: string)
    requires ItemsOk(items) && '\0' !in k
    ensures '\0' !in PrintItems(items, k)
  {
    match items
    case NoItems(gap) =>
    case LastItem(before, item, after) => ValueNoNul(item, after + k);
    case Item(before, item, after, rest) =>
      ItemsNoNul(rest, k);
      ValueNoNul(item, after + ([','] + PrintItems(rest, k)));
  }

  lemma {:induction false} MembersNoNul(ms: Members, k: string)
    requires MembersOk(ms) && '\0' !in k
    ensures '\0' !in PrintMembers(ms, k)
  {
    match ms
    case NoMembers(gap) =>
    case LastMember(before, key, mid, pre, value, after) =>
      ValueNoNul(value, after + k);
      BodyNoNul(key, [QUOTE] + (mid + ([':'] + (pre + Print(value, after + k)))));
    case Member(before, key, mid, pre, value, after, rest) =>
      MembersNoNul(rest, k);
      var tail := after + ([','] + PrintMembers(rest, k));
      ValueNoNul(value, tail);
      BodyNoNul(key, [QUOTE] + (mid + ([':'] + (pre + Print(value, tail)))));
  }
}
