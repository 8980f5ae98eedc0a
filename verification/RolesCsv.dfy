/** src/core/auth_rbac.c, edge_auth_roles_from_csv: the one-pass scanner against a plain
    reading of the comma-separated list. */
module RolesCsv {
  import opened Roles
  import opened Text

  const TOKEN_BUF: nat := 64

  predicate Blank(c: char) {
    c == ' ' || c == '\t'
  }

  /** The fields between the commas; the empty text is one empty field. */
  function Fields(s: string): seq<string> {
    [FirstPiece(s, ',')] + if FromChar(s, ',') == "" then [] else Fields(FromChar(s, ',')[1..])
  }

  function DropBlanks(f: string): string {
    if f != "" && Blank(f[0]) then DropBlanks(f[1..]) else f
  }

  function Word(f: string): string {
    if f == "" || Blank(f[0]) then "" else [f[0]] + Word(f[1..])
  }

  function FirstWord(f: string): string {
    Word(DropBlanks(f))
  }

  function Or(x: bv32, y: bv32): bv32 { x | y }

  function Union(fields: seq<string>): bv32 {
    if fields == [] then 0 else Or(RoleParse(FirstWord(fields[0])), Union(fields[1..]))
  }

  /** What a list grants: the roles its fields begin with, or employee if none is known. */
  function RolesFromCsvSpec(csv: string): bv32 {
    var r := Union(Fields(csv));
    if r == 0 then EMPLOYEE else r
  }

  lemma OrNothing(x: bv32)
    ensures Or(0, x) == x && Or(x, 0) == x
  {}

  lemma OrRegroup(x: bv32, y: bv32, z: bv32)
    ensures Or(x, Or(y, z)) == Or(Or(x, y), z)
  {}

  lemma OrSwaps(x: bv32, y: bv32)
    ensures Or(x, y) == Or(y, x) && Or(x, x) == x
  {}

  /** Every role of x is in y. */
  predicate Within(x: bv32, y: bv32) {
    Or(x, y) == y
  }

  /** The union holds the role of every field and nothing that is not forced by one: it is
      within every set that holds them all. */
  lemma {:induction false} UnionIsLeast(fields: seq<string>, roles: bv32)
    ensures forall i | 0 <= i < |fields| :: Within(RoleParse(FirstWord(fields[i])), Union(fields))
    ensures (forall i | 0 <= i < |fields| :: Within(RoleParse(FirstWord(fields[i])), roles)) ==> Within(Union(fields), roles)
  {
    hide RoleParse, FirstWord, Or;
    if fields == [] {
      OrNothing(roles);
    } else {
      var x, more := RoleParse(FirstWord(fields[0])), Union(fields[1..]);
      UnionIsLeast(fields[1..], roles);
      forall i | 0 <= i < |fields| ensures Within(RoleParse(FirstWord(fields[i])), Union(fields)) {
        var y := RoleParse(FirstWord(fields[i]));
        OrSwaps(x, x);
        OrRegroup(x, x, more);
        if i > 0 {
          assert fields[1..][i - 1] == fields[i];
          OrRegroup(y, x, more);
          OrSwaps(y, x);
          OrRegroup(x, y, more);
        }
      }
      OrRegroup(x, more, roles);
      assert forall i | 0 <= i < |fields[1..]| :: fields[1..][i] == fields[i + 1];
    }
  }

  /** Fields undoes writing fields with commas between them. */
  lemma {:induction false} FieldsOfList(fields: seq<string>)
    requires fields != [] && forall i | 0 <= i < |fields| :: ',' !in fields[i]
    ensures Fields(Separated(fields, ',')) == fields
  {
    hide FromChar, FirstPiece;
    var f := fields[0];
    if |fields| == 1 {
      PieceAhead(f, ',', "");
      assert f + "" == f;
    } else {
      var more := Separated(fields[1..], ',');
      PieceAhead(f, ',', "," + more);
      FieldsOfList(fields[1..]);
      assert ("," + more)[1..] == more;
      assert [f] + fields[1..] == fields;
    }
  }

  // ----- the names the printer uses --------------------------------------------------------

  lemma {:induction false} WordOfPlain(w: string)
    requires forall i | 0 <= i < |w| :: !Blank(w[i])
    ensures Word(w) == w && DropBlanks(w) == w
  {
    if w != "" { WordOfPlain(w[1..]); }
  }

  lemma PlainHasNoBlank(name: string)
    requires Plain(name)
    ensures forall i | 0 <= i < |name| :: !Blank(name[i])
    ensures ',' !in name
  {
    forall i | 0 <= i < |name| ensures !Blank(name[i]) { assert name[i] in name; }
  }

  lemma RoleOf(name: string)
    requires Plain(name)
    ensures RoleParse(FirstWord(name)) == RoleParse(name)
  {
    hide RoleParse, Plain;
    PlainHasNoBlank(name);
    WordOfPlain(name);
  }

  /** Each name stands for its own bit. */
  lemma RoleBits()
    ensures RoleParse("employee") == 1 && RoleParse("employee_admin") == 2 && RoleParse("cpe") == 4
    ensures RoleParse("customer") == 8 && RoleParse("service_openai") == 16 && RoleParse("ingest") == 32
  {
    NamesDiffer();
  }

  lemma UnionIf(b: bool, name: string, bit: bv32, more: seq<string>)
    requires Plain(name) && RoleParse(name) == bit
    ensures Union(NameIf(b, name) + more) == Or(BitIf(b, bit), Union(more))
  {
    hide RoleParse, Plain, FirstWord, Or;
    if b {
      RoleOf(name);
      UnionCons(name, more);
    } else {
      OrNothing(Union(more));
      assert [] + more == more;
    }
  }

  lemma OrSix(e: bool, a: bool, c: bool, u: bool, s: bool, i: bool)
    ensures Or(BitIf(e, EMPLOYEE), Or(BitIf(a, EMPLOYEE_ADMIN), Or(BitIf(c, CPE), Or(BitIf(u, CUSTOMER),
              Or(BitIf(s, SERVICE_OPENAI), Or(BitIf(i, INGEST), 0)))))) == Collect(e, a, c, u, s, i)
  {
    hide Or, BitIf;
    OrChain(BitIf(e, EMPLOYEE), BitIf(a, EMPLOYEE_ADMIN), BitIf(c, CPE), BitIf(u, CUSTOMER), BitIf(s, SERVICE_OPENAI),
            BitIf(i, INGEST));
  }

  lemma OrChain(a: bv32, b: bv32, c: bv32, d: bv32, e: bv32, f: bv32)
    ensures Or(a, Or(b, Or(c, Or(d, Or(e, Or(f, 0)))))) == a | b | c | d | e | f
  {}

  function NamesIf(e: bool, a: bool, c: bool, u: bool, s: bool, i: bool): seq<string> {
    NameIf(e, "employee") + (NameIf(a, "employee_admin") + (NameIf(c, "cpe")
    + (NameIf(u, "customer") + (NameIf(s, "service_openai") + (NameIf(i, "ingest") + [])))))
  }

  lemma UnionOfSix(e: bool, a: bool, c: bool, u: bool, s: bool, i: bool)
    ensures Union(NamesIf(e, a, c, u, s, i)) == Collect(e, a, c, u, s, i)
  {
    hide RoleParse, Plain, Or, NameIf, BitIf, Union, Collect;
    RoleBits();
    NamesArePlain();
    var n6 := NameIf(i, "ingest") + [];
    var n5 := NameIf(s, "service_openai") + n6;
    var n4 := NameIf(u, "customer") + n5;
    var n3 := NameIf(c, "cpe") + n4;
    var n2 := NameIf(a, "employee_admin") + n3;
    UnionIf(i, "ingest", INGEST, []);
    UnionIf(s, "service_openai", SERVICE_OPENAI, n6);
    UnionIf(u, "customer", CUSTOMER, n5);
    UnionIf(c, "cpe", CPE, n4);
    UnionIf(a, "employee_admin", EMPLOYEE_ADMIN, n3);
    UnionIf(e, "employee", EMPLOYEE, n2);
    NoUnion();
    OrSix(e, a, c, u, s, i);
  }

  lemma UnionOfNames(roles: bv32)
    ensures Union(Names(roles)) == roles & KNOWN
  {
    hide Has, NameIf, Union, Collect;
    CollectKnown(roles);
    UnionOfSix(Has(roles, 1), Has(roles, 2), Has(roles, 4), Has(roles, 8), Has(roles, 16), Has(roles, 32));
    assert Names(roles) == NamesIf(Has(roles, 1), Has(roles, 2), Has(roles, 4), Has(roles, 8), Has(roles, 16), Has(roles, 32));
  }

  lemma NoUnion()
    ensures Union([]) == 0
  {}

  lemma OneEmptyField()
    ensures Union(Fields("")) == 0
  {
    assert Fields("") == [""];
    EmptyRole();
    UnionCons("", []);
    OrNothing(0);
  }

  /** The list of the names the session printer uses grants that very set; the empty set
      cannot be written, so its list grants employee. */
  lemma NamesGrant(roles: bv32)
    ensures RolesFromCsvSpec(Separated(Names(roles), ',')) == if roles & KNOWN == 0 then 1 else roles & KNOWN
  {
    hide Names, Union, Fields, Plain;
    UnionOfNames(roles);
    if Names(roles) == [] {
      NoUnion();
      OneEmptyField();
    } else {
      NamesPlain(roles);
      forall i | 0 <= i < |Names(roles)| ensures ',' !in Names(roles)[i] {
        PlainHasNoBlank(Names(roles)[i]);
      }
      FieldsOfList(Names(roles));
    }
  }

  // ----- the scanner ----------------------------------------------------------------------

  function UnionOf(s: string): bv32 {
    Union(Fields(s))
  }

  lemma UnionCons(f: string, more: seq<string>)
    ensures Union([f] + more) == Or(RoleParse(FirstWord(f)), Union(more))
  {
    assert ([f] + more)[1..] == more;
  }

  /** The list seen as its first field and what follows the comma. */
  lemma Split(s: string)
    ensures UnionOf(s) == Or(RoleParse(FirstWord(FirstPiece(s, ','))),
                             if FromChar(s, ',') == "" then 0 else UnionOf(FromChar(s, ',')[1..]))
  {
    hide RoleParse, FirstWord, FirstPiece, FromChar, Or;
    UnionCons(FirstPiece(s, ','), if FromChar(s, ',') == "" then [] else Fields(FromChar(s, ',')[1..]));
  }

  lemma FrontSeparator(s: string)
    requires s != "" && (s[0] == ',' || Blank(s[0]))
    ensures s[0] == ',' ==> FirstPiece(s, ',') == "" && FromChar(s, ',') == s
    ensures Blank(s[0]) ==> FromChar(s, ',') == FromChar(s[1..], ',')
    ensures Blank(s[0]) ==> FirstWord(FirstPiece(s, ',')) == FirstWord(FirstPiece(s[1..], ','))
  {
    hide FirstPiece;
    if Blank(s[0]) {
      PieceStep(s, ',');
      assert ([s[0]] + FirstPiece(s[1..], ','))[1..] == FirstPiece(s[1..], ',');
    } else {
      WordEnds(s);
    }
  }

  /** Separators in front change nothing. */
  lemma SkipOne(s: string)
    requires s != "" && (s[0] == ',' || Blank(s[0]))
    ensures UnionOf(s) == UnionOf(s[1..])
  {
    hide UnionOf, RoleParse, FirstWord, FirstPiece, FromChar, Or;
    FrontSeparator(s);
    Split(s);
    Split(s[1..]);
    OrNothing(UnionOf(s[1..]));
    EmptyRole();
  }

  /** What the union is when a word comes first. */
  lemma TakeWord(s: string)
    requires s != "" && s[0] != ',' && !Blank(s[0])
    ensures UnionOf(s) == Or(RoleParse(Word(FirstPiece(s, ','))), UnionOf(FromChar(s, ',')))
    ensures |Clip(Word(FirstPiece(s, ',')), TOKEN_BUF)| > 0
  {
    hide RoleParse, UnionOf, Or;
    Split(s);
    assert FirstPiece(s, ',')[0] == s[0];
    if FromChar(s, ',') == "" {
      EmptyUnion();
    } else {
      SkipOne(FromChar(s, ','));
    }
  }

  lemma EmptyUnion()
    ensures UnionOf("") == 0
  {
    Split("");
    EmptyRole();
    OrNothing(0);
  }

  lemma EmptyRole()
    ensures RoleParse("") == 0 && RoleParse(FirstWord("")) == 0
  {}

  /** No role has a name so long that the token buffer clips it. */
  lemma ClippedIsUnknown(w: string)
    ensures RoleParse(Clip(w, TOKEN_BUF)) == RoleParse(w)
  {
    if |w| >= TOKEN_BUF { assert |Clip(w, TOKEN_BUF)| == 63; }
  }

  lemma WordStep(p: string)
    requires p != "" && p[0] != ','
    ensures FromChar(p[1..], ',') == FromChar(p, ',')
    ensures FirstPiece(p, ',') == [p[0]] + FirstPiece(p[1..], ',')
    ensures Word(FirstPiece(p, ',')) == if Blank(p[0]) then "" else [p[0]] + Word(FirstPiece(p[1..], ','))
  {
    hide FirstPiece;
    PieceStep(p, ',');
    assert ([p[0]] + FirstPiece(p[1..], ','))[1..] == FirstPiece(p[1..], ',');
  }

  lemma WordEnds(p: string)
    requires p == "" || p[0] == ','
    ensures FromChar(p, ',') == p && FirstPiece(p, ',') == "" && Word(FirstPiece(p, ',')) == ""
  {}

  /** The token loop: up to 63 characters of the first word. */
  method ReadToken(s: string) returns (tok: string, p: string)
    ensures tok == Clip(Word(FirstPiece(s, ',')), TOKEN_BUF)
    ensures FromChar(p, ',') == FromChar(s, ',') && |p| == |s| - |tok|
  {
    hide FromChar, FirstPiece, Word, Blank, Clip;
    tok, p := "", s;
    ghost var all := Word(FirstPiece(s, ','));
    Joined("", ' ', all);
    while p != "" && p[0] != ',' && !Blank(p[0]) && |tok| + 1 < TOKEN_BUF
      invariant |tok| < TOKEN_BUF && |tok| + |p| == |s| && FromChar(p, ',') == FromChar(s, ',')
      invariant all == tok + Word(FirstPiece(p, ','))
      decreases |p|
    {
      WordStep(p);
      Joined(tok, p[0], Word(FirstPiece(p[1..], ',')));
      tok := tok + [p[0]];
      p := p[1..];
    }
    if p == "" || p[0] == ',' { WordEnds(p); } else { WordStep(p); }
    TokenIsClip(tok, Word(FirstPiece(p, ',')));
  }

  lemma Joined(a: string, c: char, b: string)
    ensures a + ([c] + b) == a + [c] + b && "" + b == b
  {}

  /** A token that was cut is as long as its buffer allows. */
  lemma TokenIsClip(tok: string, more: string)
    requires |tok| < TOKEN_BUF && (more == "" || |tok| + 1 == TOKEN_BUF)
    ensures Clip(tok + more, TOKEN_BUF) == tok
  {}

  /** From the end of the token to the next comma. */
  method SkipField(start: string) returns (p: string)
    ensures p == FromChar(start, ',')
  {
    hide FromChar, FirstPiece, Word;
    p := start;
    while p != "" && p[0] != ','
      invariant FromChar(p, ',') == FromChar(start, ',') && |p| <= |start|
      decreases |p|
    {
      WordStep(p);
      p := p[1..];
    }
    WordEnds(p);
  }

  /** One turn of the outer loop behind the separators. */
  method OneField(start: string, roles: bv32) returns (p: string, after: bv32)
    requires start != "" && start[0] != ',' && !Blank(start[0])
    ensures |p| < |start| && Or(after, UnionOf(p)) == Or(roles, UnionOf(start))
  {
    hide FromChar, FirstPiece, Word, UnionOf, RoleParse, Clip, Or;
    TakeWord(start);
    ClippedIsUnknown(Word(FirstPiece(start, ',')));
    after := roles;
    var tok: string;
    tok, p := ReadToken(start);
    if |tok| > 0 {
      var bit := RoleParse(tok);
      OrRegroup(roles, bit, UnionOf(FromChar(start, ',')));
      OrNothing(roles);
      if bit != 0 {
        after := Or(roles, bit);
      }
    }
    p := SkipField(p);
  }

  /** edge_auth_roles_from_csv */
  method RolesFromCsv(csv: string) returns (r: bv32)
    ensures r == RolesFromCsvSpec(csv)
  {
    hide UnionOf, Or;
    EmptyUnion();
    assert RolesFromCsvSpec(csv) == if UnionOf(csv) == 0 then EMPLOYEE else UnionOf(csv) by { UnionOfIs(csv); }
    if csv == "" { return EMPLOYEE; }
    var roles: bv32 := 0;
    var p := csv;
    OrNothing(UnionOf(csv));
    while p != ""
      invariant Or(roles, UnionOf(p)) == UnionOf(csv)
      decreases |p|
    {
      while p != "" && (p[0] == ',' || Blank(p[0]))
        invariant Or(roles, UnionOf(p)) == UnionOf(csv)
        decreases |p|
      {
        SkipOne(p);
        p := p[1..];
      }
      if p == "" { break; }
      p, roles := OneField(p, roles);
    }
    OrNothing(roles);
    r := if roles != 0 then roles else EMPLOYEE;
  }

  lemma UnionOfIs(s: string)
    ensures UnionOf(s) == Union(Fields(s))
  {}
}
