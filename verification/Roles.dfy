/** src/core/auth_rbac.c, role sets: the JSON array printer and its substring parser. */
module Roles {
  import opened Text

  const EMPLOYEE: bv32 := 1
  const EMPLOYEE_ADMIN: bv32 := 2
  const CPE: bv32 := 4
  const CUSTOMER: bv32 := 8
  const SERVICE_OPENAI: bv32 := 16
  const INGEST: bv32 := 32
  const KNOWN: bv32 := 63

  const ARRAY_BUF: nat := 128

  /** edge_auth_role_parse */
  function RoleParse(name: string): bv32 {
    if name == "employee" then EMPLOYEE
    else if name == "employee_admin" then EMPLOYEE_ADMIN
    else if name == "cpe" then CPE
    else if name == "customer" then CUSTOMER
    else if name == "service_openai" then SERVICE_OPENAI
    else if name == "ingest" then INGEST
    else 0
  }

  predicate Has(roles: bv32, bit: bv32) {
    roles & bit != 0
  }

  function NameIf(b: bool, name: string): seq<string> {
    if b then [name] else []
  }

  /** The names of the known roles in the set, in the order of their bits. */
  function Names(roles: bv32): seq<string> {
    NameIf(Has(roles, EMPLOYEE), "employee") + NameIf(Has(roles, EMPLOYEE_ADMIN), "employee_admin")
    + NameIf(Has(roles, CPE), "cpe") + NameIf(Has(roles, CUSTOMER), "customer")
    + NameIf(Has(roles, SERVICE_OPENAI), "service_openai") + NameIf(Has(roles, INGEST), "ingest")
  }

  /** Quoted names with commas between them. */
  function Joined(names: seq<string>): string {
    if names == [] then ""
    else Joined(names[..|names| - 1]) + (if |names| == 1 then "" else ",") + Quoted(names[|names| - 1])
  }

  function ArrayText(roles: bv32): string {
    "[" + Joined(Names(roles)) + "]"
  }

  lemma JoinedSnoc(names: seq<string>, name: string)
    ensures Joined(names + [name]) == Joined(names) + (if names == [] then "" else ",") + Quoted(name)
  {
    assert (names + [name])[..|names|] == names;
  }

  // ----- the printer ----------------------------------------------------------------------

  /** What ADD may append at most. */
  function Room(names: seq<string>): nat {
    if names == [] then 1 else Room(names[..|names| - 1]) + |names[|names| - 1]| + 3
  }

  lemma {:induction false} JoinedFits(names: seq<string>)
    ensures |"[" + Joined(names)| <= Room(names)
  {
    if names != [] { JoinedFits(names[..|names| - 1]); }
  }

  lemma RoomSnoc(names: seq<string>, name: string)
    ensures Room(names + [name]) == Room(names) + |name| + 3
  {
    assert (names + [name])[..|names|] == names;
  }

  /** The ADD macro: it would give up when the buffer is full. */
  method AddRole(tmp: string, roles: bv32, bit: bv32, name: string, ghost names: seq<string>, first: bool)
    returns (out: Option<string>, stillFirst: bool)
    requires tmp == "[" + Joined(names) && (first <==> names == [])
    requires Room(names) + |name| + 3 < ARRAY_BUF
    ensures var after := names + NameIf(Has(roles, bit), name);
            out == Some("[" + Joined(after)) && (stillFirst <==> after == []) && Room(after) <= Room(names) + |name| + 3
  {
    hide Joined, Room;
    JoinedFits(names);
    JoinedSnoc(names, name);
    RoomSnoc(names, name);
    stillFirst := first;
    if roles & bit != 0 {
      var w := (if first then "" else ",") + Quoted(name);
      if |w| >= ARRAY_BUF - |tmp| { return None, first; }
      assert tmp + w == "[" + Joined(names + [name]);
      out, stillFirst := Some(tmp + w), false;
    } else {
      assert names + [] == names;
      out := Some(tmp);
    }
  }

  /** roles_to_json_array: its own 128-byte buffer is never too small. */
  method RolesToJsonArray(roles: bv32, outSz: nat) returns (r: Option<string>)
    ensures r == if |ArrayText(roles)| < outSz then Some(ArrayText(roles)) else None
    ensures |ArrayText(roles)| < ARRAY_BUF
  {
    hide Has, Joined, Room, NameIf;
    var tmp, first := Some("["), true;
    ghost var n0: seq<string> := [];
    assert "[" + Joined([]) == "[" && Room([]) == 1 by { EmptyJoin(); }
    tmp, first := AddRole(tmp.value, roles, EMPLOYEE, "employee", n0, first);
    if tmp.None? { return None; }
    ghost var n1 := n0 + NameIf(Has(roles, EMPLOYEE), "employee");
    tmp, first := AddRole(tmp.value, roles, EMPLOYEE_ADMIN, "employee_admin", n1, first);
    if tmp.None? { return None; }
    ghost var n2 := n1 + NameIf(Has(roles, EMPLOYEE_ADMIN), "employee_admin");
    tmp, first := AddRole(tmp.value, roles, CPE, "cpe", n2, first);
    if tmp.None? { return None; }
    ghost var n3 := n2 + NameIf(Has(roles, CPE), "cpe");
    tmp, first := AddRole(tmp.value, roles, CUSTOMER, "customer", n3, first);
    if tmp.None? { return None; }
    ghost var n4 := n3 + NameIf(Has(roles, CUSTOMER), "customer");
    tmp, first := AddRole(tmp.value, roles, SERVICE_OPENAI, "service_openai", n4, first);
    if tmp.None? { return None; }
    ghost var n5 := n4 + NameIf(Has(roles, SERVICE_OPENAI), "service_openai");
    tmp, first := AddRole(tmp.value, roles, INGEST, "ingest", n5, first);
    if tmp.None? { return None; }
    ghost var n6 := n5 + NameIf(Has(roles, INGEST), "ingest");
    assert n6 == Names(roles);
    JoinedFits(n6);
    if |tmp.value| + 2 > ARRAY_BUF { return None; }
    var text := tmp.value + "]";
    assert text == ArrayText(roles);
    if |text| + 1 > outSz { return None; }
    r := Some(text);
  }

  lemma EmptyJoin()
    ensures Joined([]) == "" && Room([]) == 1 && Segs([]) == []
  {}

  // ----- the parser -----------------------------------------------------------------------

  function BitIf(b: bool, bit: bv32): bv32 {
    if b then bit else 0
  }

  predicate Mentions(buf: string, name: string) {
    StrStr(buf, Quoted(name)).Some?
  }

  function Collect(e: bool, a: bool, c: bool, u: bool, s: bool, i: bool): bv32 {
    BitIf(e, EMPLOYEE) | BitIf(a, EMPLOYEE_ADMIN) | BitIf(c, CPE)
    | BitIf(u, CUSTOMER) | BitIf(s, SERVICE_OPENAI) | BitIf(i, INGEST)
  }

  function Mentioned(buf: string): bv32 {
    Collect(Mentions(buf, "employee"), Mentions(buf, "employee_admin"), Mentions(buf, "cpe"),
            Mentions(buf, "customer"), Mentions(buf, "service_openai"), Mentions(buf, "ingest"))
  }

  /** From the first '[' up to the first ']' behind it. */
  function Bracketed(p: string): Option<string> {
    match StrChr(p, '[')
    case None => None
    case Some(q) => (match StrChr(q, ']')
                     case None => None
                     case Some(end) => Some(q[..|q| - |end| + 1]))
  }

  /** The roles read, or that the terminating NUL of the copy falls behind the buffer: the
      guard lets a bracketed text of 128 characters through, whose NUL needs a 129th. */
  datatype Reading = Read(roles: bv32) | Overrun

  function ReadBracketed(buf: Option<string>): Reading {
    match buf
    case None => Read(0)
    case Some(text) =>
      if |text| - 1 >= ARRAY_BUF then Read(0)
      else if |text| >= ARRAY_BUF then Overrun
      else Read(Mentioned(text))
  }

  function ParseSpec(json: string): Reading {
    match StrStr(json, Quoted("roles"))
    case None => Read(0)
    case Some(p) => ReadBracketed(Bracketed(p))
  }

  lemma BracketedAt(lead: string, x: string, rest: string)
    requires '[' !in lead && ']' !in x
    ensures Bracketed(lead + ("[" + x + ("]" + rest))) == Some("[" + x + "]")
  {
    hide StrChr;
    var q := "[" + x + ("]" + rest);
    StrChrSkip(lead, q, '[');
    StrChrHere(q);
    StrChrSkip("[" + x, "]" + rest, ']');
    StrChrHere("]" + rest);
    assert q[..|x| + 2] == "[" + x + "]";
  }

  /** Whether the NUL falls inside the buffer depends on the length of the bracketed text
      alone. */
  lemma NulInsideIff(json: string, lead: string, x: string, rest: string)
    requires '[' !in lead && ']' !in x
    requires StrStr(json, Quoted("roles")) == Some(lead + ("[" + x + ("]" + rest)))
    ensures ParseSpec(json).Overrun? <==> |x| == ARRAY_BUF - 2
    ensures |x| < ARRAY_BUF - 2 ==> ParseSpec(json) == Read(Mentioned("[" + x + "]"))
    ensures |x| > ARRAY_BUF - 2 ==> ParseSpec(json) == Read(0)
  {
    hide Bracketed, StrStr, Mentioned;
    BracketedAt(lead, x, rest);
  }

  /** From the first '[' behind the first quoted "roles" to the next ']' there are exactly as
      many characters as the buffer has. */
  ghost predicate FillsBuffer(json: string) {
    exists lead, x, rest :: '[' !in lead && ']' !in x && |x| == ARRAY_BUF - 2 && Behind(json, lead, x, rest)
  }

  ghost predicate Behind(json: string, lead: string, x: string, rest: string) {
    StrStr(json, Quoted("roles")) == Some(lead + ("[" + x + ("]" + rest)))
  }

  /** The NUL falls behind the buffer exactly for these texts. */
  lemma OverrunIff(json: string)
    ensures ParseSpec(json).Overrun? <==> FillsBuffer(json)
  {
    hide StrStr, StrChr, Mentioned, Quoted, Bracketed, Behind;
    if ParseSpec(json).Overrun? {
      var lead, x, rest := CutAtBrackets(StrStr(json, Quoted("roles")).value);
      BehindIs(json, lead, x, rest);
    }
    if FillsBuffer(json) {
      var lead, x, rest :| '[' !in lead && ']' !in x && |x| == ARRAY_BUF - 2 && Behind(json, lead, x, rest);
      BehindIs(json, lead, x, rest);
      NulInsideIff(json, lead, x, rest);
    }
  }

  lemma BehindIs(json: string, lead: string, x: string, rest: string)
    ensures Behind(json, lead, x, rest) <==> StrStr(json, Quoted("roles")) == Some(lead + ("[" + x + ("]" + rest)))
  {}

  lemma CutAtBrackets(p: string) returns (lead: string, x: string, rest: string)
    requires Bracketed(p).Some?
    ensures '[' !in lead && ']' !in x && p == lead + ("[" + x + ("]" + rest)) && |Bracketed(p).value| == |x| + 2
  {
    hide StrChr;
    var q := StrChr(p, '[').value;
    var end := StrChr(q, ']').value;
    lead, rest := p[..|p| - |q|], end[1..];
    x := q[1..|q| - |end|];
    HeadTail(p, |lead|, q);
    HeadTail(q, |q| - |end|, end);
    HeadTail(end, 1, rest);
    assert end[..1] == "]" && q[..|q| - |end|] == "[" + x;
    InFront(q, |q| - |end|, ']');
  }

  lemma HeadTail(s: string, n: nat, t: string)
    requires n <= |s| && s[n..] == t
    ensures s == s[..n] + t
  {}

  lemma InFront(s: string, n: nat, c: char)
    requires 1 <= n <= |s| && c !in s[..n]
    ensures c !in s[1..n]
  {
    assert forall d | d in s[1..n] :: d in s[..n];
  }

  lemma OrShuffle(a: bv32, e: bv32, c: bv32, u: bv32, s: bv32, i: bv32)
    ensures ((((((0 | a) | e) | c) | u) | s) | i) == e | a | c | u | s | i
  {}

  /** parse_roles_array: the copy is searched only if its NUL was written inside. */
  method ParseRolesArray(json: string) returns (r: Reading)
    ensures r == ParseSpec(json)
  {
    hide Mentioned, StrStr, StrChr;
    var p := StrStr(json, Quoted("roles"));
    if p.None? { return Read(0); }
    var q := StrChr(p.value, '[');
    if q.None? { return Read(0); }
    var end := StrChr(q.value, ']');
    if end.None? || |q.value| - |end.value| >= ARRAY_BUF { return Read(0); }
    var len := |q.value| - |end.value| + 1;
    var buf := Copy(q.value[..len]);
    if len >= buf.Length { return Overrun; }
    buf[len] := '\0';
    var bits := CollectBits(buf[..len]);
    r := Read(bits);
  }

  /** memcpy into the buffer. */
  method Copy(text: string) returns (buf: array<char>)
    requires |text| <= ARRAY_BUF
    ensures fresh(buf) && buf.Length == ARRAY_BUF && buf[..|text|] == text
  {
    buf := new char[ARRAY_BUF](_ => '\0');
    for i := 0 to |text|
      invariant buf[..i] == text[..i]
    {
      buf[i] := text[i];
    }
  }

  method CollectBits(buf: string) returns (roles: bv32)
    ensures roles == Mentioned(buf)
  {
    hide Mentions;
    var a, e, c, u, s, i := BitIf(Mentions(buf, "employee_admin"), EMPLOYEE_ADMIN), BitIf(Mentions(buf, "employee"), EMPLOYEE),
      BitIf(Mentions(buf, "cpe"), CPE), BitIf(Mentions(buf, "customer"), CUSTOMER),
      BitIf(Mentions(buf, "service_openai"), SERVICE_OPENAI), BitIf(Mentions(buf, "ingest"), INGEST);
    OrShuffle(a, e, c, u, s, i);
    roles := 0;
    roles := roles | a;
    roles := roles | e;
    roles := roles | c;
    roles := roles | u;
    roles := roles | s;
    roles := roles | i;
  }

  // ----- the parser undoes the printer ----------------------------------------------------

  /** Letters and underscores only. */
  predicate Plain(name: string) {
    name != "" && forall i | 0 <= i < |name| :: 'a' <= name[i] <= 'z' || name[i] == '_'
  }

  ghost predicate PlainAll(names: seq<string>) {
    forall i | 0 <= i < |names| :: Plain(names[i])
  }

  /** What stands between the quote characters of the printed names. */
  function Segs(names: seq<string>): seq<string> {
    if names == [] then []
    else Segs(names[..|names| - 1]) + (if |names| == 1 then [] else [","]) + [names[|names| - 1]]
  }

  lemma {:induction false} SegsMembers(names: seq<string>, x: string)
    requires x != ","
    ensures x in Segs(names) <==> x in names
  {
    if names != [] {
      var init := names[..|names| - 1];
      SegsMembers(init, x);
      assert names == init + [names[|names| - 1]];
    }
  }

  lemma {:induction false} SegsQuoteFree(names: seq<string>)
    requires PlainAll(names)
    ensures QuoteFree(Segs(names))
  {
    if names != [] { SegsQuoteFree(names[..|names| - 1]); }
  }

  lemma SegsSnoc(names: seq<string>, name: string)
    ensures Segs(names + [name]) == Segs(names) + (if names == [] then [] else [","]) + [name]
  {
    assert (names + [name])[..|names|] == names;
  }

  lemma CutLast(pre: string, name: string, t: string)
    ensures Cut([pre, name], t) == pre + (Quoted(name) + t)
  {
    CutOne(pre, [name], t);
    CutOne(name, [], t);
    assert [name] + [] == [name] && [pre] + [name] == [pre, name];
    assert "\"" + (name + ("\"" + t)) == Quoted(name) + t;
  }

  lemma {:induction false} JoinCut(pre: string, names: seq<string>, t: string)
    requires names != []
    ensures Cut([pre] + Segs(names), t) == pre + (Joined(names) + t)
  {
    hide Cut, Segs, Joined;
    var init, last := names[..|names| - 1], names[|names| - 1];
    assert names == init + [last];
    SegsSnoc(init, last);
    JoinedSnoc(init, last);
    if init == [] {
      EmptyJoin();
      CutLast(pre, last, t);
      assert [pre] + Segs(names) == [pre, last] && Joined(names) == Quoted(last);
    } else {
      CutLast(",", last, t);
      JoinCut(pre, init, "," + (Quoted(last) + t));
      CutAppend([pre] + Segs(init), [",", last], t);
      assert [pre] + Segs(names) == [pre] + Segs(init) + [",", last];
      assert Joined(init) + ("," + (Quoted(last) + t)) == Joined(names) + t;
    }
  }

  /** A name is found in the array text exactly when it was printed. */
  lemma MentionsExactly(names: seq<string>, name: string)
    requires PlainAll(names) && Plain(name)
    ensures Mentions("[" + (Joined(names) + "]"), name) <==> name in names
  {
    assert name[0] != ',';
    if names == [] {
      assert "[" + ("" + "]") == "[]";
      NoQuoteNoHit("[]", name);
    } else {
      JoinCut("[", names, "]");
      SegsMembers(names, name);
      SegsQuoteFree(names);
      assert ([ "[" ] + Segs(names))[1..] == Segs(names);
      if name in names {
        FindSomeSegment(["["] + Segs(names), name, "]");
      } else {
        CutOne("[", Segs(names), "]");
        FindNoSegment("[", Segs(names), name, "]");
      }
    }
  }

  lemma {:induction false} NoBracketJoined(names: seq<string>)
    requires PlainAll(names)
    ensures ']' !in Joined(names)
  {
    if names != [] { NoBracketJoined(names[..|names| - 1]); }
  }

  lemma NamesArePlain()
    ensures Plain("employee") && Plain("employee_admin") && Plain("cpe")
    ensures Plain("customer") && Plain("service_openai") && Plain("ingest")
  {}

  lemma NamesPlain(roles: bv32)
    ensures PlainAll(Names(roles))
  {
    hide Plain, Has;
    NamesArePlain();
  }

  /** No two roles share a name. */
  lemma NamesDiffer()
    ensures "employee" !in {"employee_admin", "cpe", "customer", "service_openai", "ingest"}
    ensures "employee_admin" !in {"cpe", "customer", "service_openai", "ingest"}
    ensures "cpe" !in {"customer", "service_openai", "ingest"}
    ensures "customer" !in {"service_openai", "ingest"} && "service_openai" != "ingest"
  {
    assert "employee"[0] != "customer"[0] && "employee_admin"[0] != "service_openai"[0];
    assert |"employee"| == 8 && |"employee_admin"| == 14 && |"cpe"| == 3;
    assert |"customer"| == 8 && |"service_openai"| == 14 && |"ingest"| == 6;
  }

  lemma InNames(roles: bv32, x: string)
    ensures x in Names(roles) <==>
            || (Has(roles, EMPLOYEE) && x == "employee") || (Has(roles, EMPLOYEE_ADMIN) && x == "employee_admin")
            || (Has(roles, CPE) && x == "cpe") || (Has(roles, CUSTOMER) && x == "customer")
            || (Has(roles, SERVICE_OPENAI) && x == "service_openai") || (Has(roles, INGEST) && x == "ingest")
  {
    hide Has, NameIf;
    IsIf(Has(roles, EMPLOYEE), "employee");
    IsIf(Has(roles, EMPLOYEE_ADMIN), "employee_admin");
    IsIf(Has(roles, CPE), "cpe");
    IsIf(Has(roles, CUSTOMER), "customer");
    IsIf(Has(roles, SERVICE_OPENAI), "service_openai");
    IsIf(Has(roles, INGEST), "ingest");
  }

  lemma NamesHold(roles: bv32)
    ensures "employee" in Names(roles) <==> Has(roles, EMPLOYEE)
    ensures "employee_admin" in Names(roles) <==> Has(roles, EMPLOYEE_ADMIN)
    ensures "cpe" in Names(roles) <==> Has(roles, CPE)
    ensures "customer" in Names(roles) <==> Has(roles, CUSTOMER)
    ensures "service_openai" in Names(roles) <==> Has(roles, SERVICE_OPENAI)
    ensures "ingest" in Names(roles) <==> Has(roles, INGEST)
  {
    hide Has, Names;
    NamesDiffer();
    InNames(roles, "employee");
    InNames(roles, "employee_admin");
    InNames(roles, "cpe");
    InNames(roles, "customer");
    InNames(roles, "service_openai");
    InNames(roles, "ingest");
  }

  lemma IsIf(b: bool, name: string)
    ensures forall x: string :: x in NameIf(b, name) <==> b && x == name
  {}

  lemma CollectKnown(r: bv32)
    ensures Collect(Has(r, 1), Has(r, 2), Has(r, 4), Has(r, 8), Has(r, 16), Has(r, 32)) == r & 63
  {}

  lemma MentionedPrinted(roles: bv32)
    ensures Mentioned(ArrayText(roles)) == roles & KNOWN
  {
    hide Has, Mentions, Names, Collect, Joined, Plain;
    var names := Names(roles);
    assert ArrayText(roles) == "[" + (Joined(names) + "]");
    NamesPlain(roles);
    NamesArePlain();
    MentionsExactly(names, "employee");
    MentionsExactly(names, "employee_admin");
    MentionsExactly(names, "cpe");
    MentionsExactly(names, "customer");
    MentionsExactly(names, "service_openai");
    MentionsExactly(names, "ingest");
    NamesHold(roles);
    CollectKnown(roles);
  }

  /** Wherever the printed array stands behind its field name, the known roles come back. */
  lemma RolesRoundTrip(json: string, lead: string, roles: bv32, rest: string)
    requires '[' !in lead && StrStr(json, Quoted("roles")) == Some(lead + (ArrayText(roles) + rest))
    ensures ParseSpec(json) == Read(roles & KNOWN)
  {
    hide Mentioned, Joined, Names, ParseSpec, StrStr;
    var x := Joined(Names(roles));
    NamesPlain(roles);
    NoBracketJoined(Names(roles));
    NamesShort(roles);
    MentionedPrinted(roles);
    assert ArrayText(roles) + rest == "[" + x + ("]" + rest);
    NulInsideIff(json, lead, x, rest);
  }

  /** Far below the 128-byte buffers. */
  lemma NamesShort(roles: bv32)
    ensures |ArrayText(roles)| <= 73
  {
    hide Has, Joined;
    JoinedFits(Names(roles));
    RoomOfNames(roles);
  }

  lemma RoomOfNames(roles: bv32)
    ensures Room(Names(roles)) <= 72
  {
    hide Has, Room, NameIf;
    EmptyJoin();
    var n1 := [] + NameIf(Has(roles, EMPLOYEE), "employee");
    var n2 := n1 + NameIf(Has(roles, EMPLOYEE_ADMIN), "employee_admin");
    var n3 := n2 + NameIf(Has(roles, CPE), "cpe");
    var n4 := n3 + NameIf(Has(roles, CUSTOMER), "customer");
    var n5 := n4 + NameIf(Has(roles, SERVICE_OPENAI), "service_openai");
    RoomIf([], Has(roles, EMPLOYEE), "employee");
    RoomIf(n1, Has(roles, EMPLOYEE_ADMIN), "employee_admin");
    RoomIf(n2, Has(roles, CPE), "cpe");
    RoomIf(n3, Has(roles, CUSTOMER), "customer");
    RoomIf(n4, Has(roles, SERVICE_OPENAI), "service_openai");
    RoomIf(n5, Has(roles, INGEST), "ingest");
    assert Names(roles) == n5 + NameIf(Has(roles, INGEST), "ingest");
  }

  lemma RoomIf(names: seq<string>, b: bool, name: string)
    ensures Room(names + NameIf(b, name)) <= Room(names) + |name| + 3
  {
    RoomSnoc(names, name);
    assert names + [] == names;
  }
}
