/** The hand-written payload scanners undo the payload printer: what a session cookie
    verifies to, for every subject it can be issued for. */
module SessionTrip {
  import opened Base64
  import opened Numbers
  import opened Roles
  import opened Session
  import Sha256
  import opened Text

  // ----- the envelope ---------------------------------------------------------------------

  lemma NoNulNoCut(s: string)
    requires forall i | 0 <= i < |s| :: s[i] != '\0'
    ensures UpToNul(s) == s
  {
    var t := UpToNul(s);
    assert t <= s;
  }

  /** The separator is unique and every buffer is large enough. */
  lemma CookieOpens(key: seq<byte>, payload: string)
    requires CString(payload) && 0 < |payload| < PAYLOAD_BUF
    ensures Opened(key, Cookie(key, payload)) == Some(payload)
  {
    hide EncodeSpec, DecodeSpec, Sha256.Hmac, Halves, ToBytes, FromBytes;
    var b, mac := ToBytes(payload), Sha256.Hmac(key, ToBytes(payload));
    UrlRoundTrip(b, JSON_BUF);
    UrlRoundTrip(mac, 32);
    EncodedLength(b);
    EncodedLength(mac);
    HalvesOf(EncodeSpec(b, true), EncodeSpec(mac, true));
    BytesRoundTrip(payload);
    NoNulNoCut(payload);
  }

  lemma EncodedLength(b: seq<byte>)
    ensures |EncodeSpec(b, true)| == DigitCount(|b|)
  {}

  // ----- the subject ----------------------------------------------------------------------

  predicate IsPlain(c: char) {
    c != QUOTE && c != '\\'
  }

  predicate PlainText(s: string) {
    forall i | 0 <= i < |s| :: IsPlain(s[i])
  }

  function Slashes(n: nat): string {
    seq(n, _ => '\\')
  }

  lemma {:induction false} ReadPlain(sub: string, rest: string, room: nat)
    requires PlainText(sub)
    ensures ReadString(sub + ("\"" + rest), room) == if |sub| <= room then Some(sub) else None
  {
    var t := sub + ("\"" + rest);
    if sub == "" {
      assert t[0] == QUOTE;
    } else if room > 0 {
      assert IsPlain(sub[0]) && t[1..] == sub[1..] + ("\"" + rest);
      ReadPlain(sub[1..], rest, room - 1);
      assert [sub[0]] + sub[1..] == sub;
    }
  }

  lemma ReadEscaped(t: string, room: nat)
    requires |t| > 1 && t[0] == '\\' && room > 0
    ensures ReadString(t, room) == Resumed([t[1]], ReadString(t[2..], room - 1))
  {}

  /** After a backslash the copy runs ahead of the original and never meets it again. */
  lemma {:induction false} NeverCatchesUp(ahead: nat, v: string, rest: string, room: nat)
    requires ahead > 0 || (v != "" && v[0] == '\\')
    ensures ReadString(v + ("\"" + rest), room) != Some(Slashes(ahead) + v)
    decreases |v|
  {
    var t := v + ("\"" + rest);
    var want := Slashes(ahead) + v;
    assert want[0] == '\\';
    if v != "" && v[0] == '\\' && room > 0 {
      assert t[2..] == if |v| > 1 then v[2..] + ("\"" + rest) else rest;
      ReadEscaped(t, room);
      if |v| > 1 && v[1] == '\\' {
        NeverCatchesUp(ahead + 1, v[2..], rest, room - 1);
        assert want == ['\\'] + (Slashes(ahead + 1) + v[2..]);
        var more := ReadString(t[2..], room - 1);
        assert want[1..] == Slashes(ahead + 1) + v[2..];
        if more.Some? { assert ([t[1]] + more.value)[1..] == more.value; }
      } else {
        assert t[1] != '\\';
      }
    }
  }

  /** A subject with a quote or a backslash does not come back. */
  lemma {:induction false} ReadOdd(sub: string, rest: string, room: nat)
    requires !PlainText(sub)
    ensures ReadString(sub + ("\"" + rest), room) != Some(sub)
  {
    var t := sub + ("\"" + rest);
    if sub[0] == '\\' {
      NeverCatchesUp(0, sub, rest, room);
      assert Slashes(0) + sub == sub;
    } else if sub[0] != QUOTE && room > 0 {
      assert t[1..] == sub[1..] + ("\"" + rest);
      ReadOdd(sub[1..], rest, room - 1);
      var more := ReadString(t[1..], room - 1);
      if more.Some? { assert ([sub[0]] + more.value)[1..] == more.value; }
    }
  }

  function Tail(exp: int): string {
    ":" + (Decimal(exp) + "}")
  }

  /** The text behind "roles". */
  function AfterRoles(roles: bv32, exp: int): string {
    ":" + (ArrayText(roles) + ("," + (Quoted("exp") + Tail(exp))))
  }

  /** The text behind the subject. */
  function AfterSub(roles: bv32, exp: int): string {
    "," + (Quoted("roles") + AfterRoles(roles, exp))
  }

  lemma Regroup(open: string, qs: string, colon: string, quote: string, comma: string, qr: string, qe: string,
                close: string, sub: string, x: string, d: string)
    ensures (open + (qs + (colon + quote))) + sub + (quote + (comma + (qr + colon))) + x + (comma + (qe + colon)) + d + close
         == open + (qs + (colon + ((quote + sub + quote) + (comma + (qr + (colon + (x + (comma + (qe + (colon + (d + close)))))))))))
  {}

  lemma TextIsPayload(sub: string, roles: bv32, exp: int)
    ensures Payload(sub, roles, exp) == "{" + (Quoted("sub") + (":" + (Quoted(sub) + AfterSub(roles, exp))))
  {
    hide ArrayText, Decimal;
    Regroup("{", Quoted("sub"), ":", "\"", ",", Quoted("roles"), Quoted("exp"), "}", sub, ArrayText(roles), Decimal(exp));
    assert "{\"sub\":\"" == "{" + (Quoted("sub") + (":" + "\""));
    assert "\",\"roles\":" == "\"" + ("," + (Quoted("roles") + ":"));
    assert ",\"exp\":" == "," + (Quoted("exp") + ":");
  }

  lemma SubField(sub: string, roles: bv32, exp: int, room: nat)
    ensures StringFieldSpec(Payload(sub, roles, exp), "sub", room) == ReadString(sub + ("\"" + AfterSub(roles, exp)), room)
  {
    hide ReadString, Payload, AfterSub;
    TextIsPayload(sub, roles, exp);
    var body := sub + ("\"" + AfterSub(roles, exp));
    var hit := Quoted("sub") + (":" + ("\"" + body));
    assert "\"" + body == Quoted(sub) + AfterSub(roles, exp);
    StrStrSkip("{", hit, Quoted("sub"));
    assert hit[5..] == ":" + ("\"" + body);
    StrChrSkip(":", "\"" + body, QUOTE);
    assert ("\"" + body)[1..] == body;
  }

  // ----- the other fields -----------------------------------------------------------------

  function Middle(names: seq<string>): seq<string> {
    if names == [] then [":[],"] else [":["] + Segs(names) + ["],"]
  }

  /** The pieces of the payload between its quote characters. */
  function Pieces(sub: string, names: seq<string>): seq<string> {
    ["{", "sub"] + [":", sub] + [",", "roles"] + (Middle(names) + ["exp"])
  }

  lemma MiddleCut(names: seq<string>, t: string)
    ensures Cut(Middle(names), t) == ":" + ("[" + Joined(names) + "]" + ("," + ("\"" + t)))
  {
    hide Cut, Segs, Joined;
    if names == [] {
      EmptyJoin();
      CutOne(":[],", [], t);
      assert [":[],"] + [] == [":[],"];
      EmptyCut(t);
      assert ":[],\"" + t == ":" + ("[" + "" + "]" + ("," + ("\"" + t)));
    } else {
      CutOne("],", [], t);
      EmptyCut(t);
      assert ["],"] + [] == ["],"];
      JoinCut(":[", names, "]," + ("\"" + t));
      CutAppend([":["] + Segs(names), ["],"], t);
      assert ":[" + (Joined(names) + ("]," + ("\"" + t))) == ":" + ("[" + Joined(names) + "]" + ("," + ("\"" + t)));
    }
  }

  lemma RolesPart(roles: bv32, exp: int)
    ensures Cut(Middle(Names(roles)) + ["exp"], Tail(exp)) == AfterRoles(roles, exp)
  {
    hide Cut, Middle, Names, Joined, Tail;
    var t := Tail(exp);
    CutOne("exp", [], t);
    EmptyCut(t);
    assert ["exp"] + [] == ["exp"];
    CutAppend(Middle(Names(roles)), ["exp"], t);
    MiddleCut(Names(roles), "exp" + ("\"" + t));
    assert "\"" + ("exp" + ("\"" + t)) == Quoted("exp") + t;
  }

  lemma PayloadCut(sub: string, roles: bv32, exp: int)
    ensures Cut(Pieces(sub, Names(roles)), Tail(exp)) == Payload(sub, roles, exp)
    ensures Cut(Pieces(sub, Names(roles))[4..], Tail(exp)) == "," + (Quoted("roles") + AfterRoles(roles, exp))
    ensures Cut(Pieces(sub, Names(roles))[6..], Tail(exp)) == AfterRoles(roles, exp)
  {
    hide Cut, Middle, Names, ArrayText, Decimal;
    var p, t := Pieces(sub, Names(roles)), Tail(exp);
    var last := Middle(Names(roles)) + ["exp"];
    RolesPart(roles, exp);
    assert p[6..] == last && p[4..] == [",", "roles"] + last && p == ["{", "sub"] + ([":", sub] + ([",", "roles"] + last));
    CutAppend([",", "roles"], last, t);
    CutLast(",", "roles", AfterRoles(roles, exp));
    var a := "," + (Quoted("roles") + AfterRoles(roles, exp));
    CutAppend([":", sub], [",", "roles"] + last, t);
    CutLast(":", sub, a);
    CutAppend(["{", "sub"], [":", sub] + ([",", "roles"] + last), t);
    CutLast("{", "sub", ":" + (Quoted(sub) + a));
    TextIsPayload(sub, roles, exp);
  }

  lemma PiecesQuoteFree(sub: string, roles: bv32)
    requires QUOTE !in sub
    ensures QuoteFree(Pieces(sub, Names(roles)))
  {
    hide Names, Segs;
    NamesPlain(roles);
    SegsQuoteFree(Names(roles));
  }

  lemma NotExp(roles: bv32)
    ensures "exp" !in Names(roles)
  {
    hide Has;
    assert "cpe"[0] != "exp"[0];
    assert |"exp"| == 3 && |"employee"| == 8 && |"employee_admin"| == 14;
    assert |"customer"| == 8 && |"service_openai"| == 14 && |"ingest"| == 6;
  }

  lemma NoExpName(roles: bv32)
    ensures "exp" !in Middle(Names(roles))
  {
    hide Names, Segs;
    SegsMembers(Names(roles), "exp");
    NotExp(roles);
  }

  /** Where the searches for the two fields stop. */
  lemma ExpHit(sub: string, roles: bv32, exp: int)
    requires PlainText(sub)
    ensures StrStr(Payload(sub, roles, exp), Quoted("exp"))
         == Some(Quoted("exp") + if sub == "exp" then "," + (Quoted("roles") + AfterRoles(roles, exp)) else Tail(exp))
  {
    hide Names, Middle, Tail, AfterRoles, Payload, Cut, StrStr;
    var names := Names(roles);
    var p := Pieces(sub, names);
    PayloadCut(sub, roles, exp);
    PiecesQuoteFree(sub, roles);
    NoExpName(roles);
    if sub == "exp" {
      FindFirstSeg(p, 3, "exp", Tail(exp));
    } else {
      var last := |p| - 1;
      assert p[1] == "sub" && p[2] == ":" && p[4] == "," && p[5] == "roles";
      assert "sub" != "exp" && ":" != "exp" && "," != "exp" && "roles" != "exp" by {
        assert "sub"[0] != "exp"[0];
      }
      assert forall j | 6 <= j < last :: p[j] == Middle(names)[j - 6];
      FindFirstSeg(p, last, "exp", Tail(exp));
      assert p[last + 1..] == [];
      EmptyCut(Tail(exp));
    }
  }

  lemma RolesHit(sub: string, roles: bv32, exp: int)
    requires PlainText(sub)
    ensures StrStr(Payload(sub, roles, exp), Quoted("roles"))
         == Some(if sub == "roles" then Quoted("roles") + ("," + (Quoted("roles") + AfterRoles(roles, exp)))
                 else Quoted("roles") + AfterRoles(roles, exp))
  {
    hide Names, Middle, Tail, AfterRoles, Payload, Cut, StrStr;
    var p := Pieces(sub, Names(roles));
    PayloadCut(sub, roles, exp);
    PiecesQuoteFree(sub, roles);
    assert p[1] == "sub" && p[2] == ":" && p[3] == sub && p[4] == "," && p[5] == "roles";
    if sub == "roles" {
      FindFirstSeg(p, 3, "roles", Tail(exp));
    } else {
      FindFirstSeg(p, 5, "roles", Tail(exp));
    }
  }

  lemma ExpField(sub: string, roles: bv32, exp: int)
    requires PlainText(sub) && IsInt64(exp)
    ensures Int64FieldSpec(Payload(sub, roles, exp), "exp") == if sub == "exp" then None else Some(exp)
  {
    hide StrToLL, IsInt64, Payload, StrStr, StrChr, AfterRoles, Tail, SkipSpaceTab;
    ExpHit(sub, roles, exp);
    if sub == "exp" {
      MisledExp(roles, exp);
    } else {
      ReadExp(exp);
    }
  }

  /** Reading the number behind the right field name. */
  lemma ReadExp(exp: int)
    requires IsInt64(exp)
    ensures StrChr((Quoted("exp") + Tail(exp))[5..], ':') == Some(Tail(exp))
    ensures StrToLL(SkipSpaceTab(Tail(exp)[1..])) == Some(Number(exp, "}"))
  {
    hide Decimal, StrToLL, IsInt64;
    assert (Quoted("exp") + Tail(exp))[5..] == Tail(exp);
    assert Tail(exp)[1..] == Decimal(exp) + "}";
    assert (Decimal(exp) + "}")[0] == Decimal(exp)[0];
    DecimalRoundTrip(exp, "}");
  }

  /** A subject that is the field name itself leads to the role array. */
  lemma MisledExp(roles: bv32, exp: int)
    ensures var p := Quoted("exp") + ("," + (Quoted("roles") + AfterRoles(roles, exp)));
            StrChr(p[5..], ':').Some? && StrToLL(SkipSpaceTab(StrChr(p[5..], ':').value[1..])) == None
  {
    hide Tail, Names, Joined;
    var a := AfterRoles(roles, exp);
    var p := Quoted("exp") + ("," + (Quoted("roles") + a));
    assert p[5..] == ("," + Quoted("roles")) + a;
    StrChrSkip("," + Quoted("roles"), a, ':');
    assert a[1..][0] == '[';
  }

  lemma RolesField(sub: string, roles: bv32, exp: int)
    requires PlainText(sub)
    ensures ParseSpec(Payload(sub, roles, exp)) == Read(roles & KNOWN)
  {
    hide Payload, ArrayText, ParseSpec, StrStr, Tail;
    RolesHit(sub, roles, exp);
    var rest := "," + (Quoted("exp") + Tail(exp));
    var lead := if sub == "roles" then Quoted("roles") + "," + Quoted("roles") + ":" else Quoted("roles") + ":";
    assert lead + (ArrayText(roles) + rest) == StrStr(Payload(sub, roles, exp), Quoted("roles")).value;
    RolesRoundTrip(Payload(sub, roles, exp), lead, roles, rest);
  }

  // ----- the round trip -------------------------------------------------------------------

  lemma PayloadLength(sub: string, roles: bv32, exp: int)
    requires IsInt64(exp)
    ensures |sub| < |Payload(sub, roles, exp)| <= |sub| + 119
  {
    hide ArrayText, Decimal, IsInt64;
    DecimalLength(exp);
    NamesShort(roles);
  }

  /** For a subject of at most 63 characters no buffer of issue is too small: it yields a
      cookie whenever there is a key and the caller gave 288 bytes. */
  lemma IssueFits(key: seq<byte>, sub: string, roles: bv32, exp: int)
    requires CString(sub) && |sub| < SUB_MAX && IsInt64(exp)
    ensures CString(Payload(sub, roles, exp))
    ensures |Payload(sub, roles, exp)| < PAYLOAD_BUF && |Cookie(key, Payload(sub, roles, exp))| < 288
  {
    hide Payload, Sha256.Hmac, EncodeSpec, ToBytes;
    PayloadBytes(sub, roles, exp);
    PayloadLength(sub, roles, exp);
    EncodedLength(ToBytes(Payload(sub, roles, exp)));
    EncodedLength(Sha256.Hmac(key, ToBytes(Payload(sub, roles, exp))));
  }

  /** The subjects that survive the trip. */
  predicate Survives(sub: string) {
    PlainText(sub) && |sub| < SUB_MAX && sub != "exp"
  }

  lemma ClaimsOf(sub: string, roles: bv32, exp: int, now: int)
    requires IsInt64(exp)
    ensures Survives(sub) ==>
              Claims(Payload(sub, roles, exp), now)
              == if exp > 0 && now >= exp then Refused else Accepted(Principal(sub, roles & KNOWN, exp))
    ensures !Survives(sub) ==>
              var v := Claims(Payload(sub, roles, exp), now); v.Accepted? ==> v.who.sub != sub
    ensures PlainText(sub) ==> !Claims(Payload(sub, roles, exp), now).Overruns?
  {
    hide Payload, StringFieldSpec, Int64FieldSpec, ParseSpec, IsInt64, AfterSub, ReadString;
    SubField(sub, roles, exp, SUB_MAX - 1);
    if PlainText(sub) {
      ReadPlain(sub, AfterSub(roles, exp), SUB_MAX - 1);
      ExpField(sub, roles, exp);
      RolesField(sub, roles, exp);
    } else {
      ReadOdd(sub, AfterSub(roles, exp), SUB_MAX - 1);
    }
  }

  /** The main theorem. A cookie issued for `sub` verifies, under the same key and before
      it expires, to that subject, the known roles and that expiry exactly when the subject
      holds no quote or backslash, has at most 63 characters and is not "exp"; such a
      subject is refused from a positive expiry on, and one that is not positive never
      expires. For a subject without quote and backslash the role buffer suffices. */
  lemma SessionRoundTrip(key: seq<byte>, sub: string, roles: bv32, exp: int, now: int)
    requires key != [] && CString(sub) && IsInt64(exp)
    requires CString(Payload(sub, roles, exp)) && |Payload(sub, roles, exp)| < PAYLOAD_BUF
    ensures var v := VerifySpec(key, now, Cookie(key, Payload(sub, roles, exp)));
            && (Survives(sub) ==> v == if exp > 0 && now >= exp then Refused else Accepted(Principal(sub, roles & KNOWN, exp)))
            && (!Survives(sub) ==> v.Accepted? ==> v.who.sub != sub)
            && (PlainText(sub) ==> !v.Overruns?)
  {
    hide Payload, Opened, Cookie, Claims, IsInt64, CString, Survives, PlainText;
    PayloadLength(sub, roles, exp);
    CookieOpens(key, Payload(sub, roles, exp));
    ClaimsOf(sub, roles, exp, now);
  }

  // ----- a subject the role buffer is too small for -----------------------------------------

  /** A subject that looks like a role array of its own. */
  function ArrayLike(x: string): string {
    Quoted("roles") + ("[" + x + "]")
  }

  function TightPieces(x: string, names: seq<string>): seq<string> {
    ["{", "sub"] + [":", ""] + ["roles", "[" + x + "]"] + [",", "roles"] + (Middle(names) + ["exp"])
  }

  lemma TightCut(x: string, roles: bv32, exp: int)
    ensures Cut(TightPieces(x, Names(roles)), Tail(exp)) == Payload(ArrayLike(x), roles, exp)
  {
    hide Cut, Middle, Names, Payload, AfterRoles, Tail;
    var last, t := Middle(Names(roles)) + ["exp"], Tail(exp);
    var inner := "[" + x + "]";
    var a := AfterSub(roles, exp);
    RolesPart(roles, exp);
    CutAppend([",", "roles"], last, t);
    CutLast(",", "roles", AfterRoles(roles, exp));
    CutAppend(["roles", inner], [",", "roles"] + last, t);
    CutLast("roles", inner, a);
    CutAppend([":", ""], ["roles", inner] + ([",", "roles"] + last), t);
    CutLast(":", "", "roles" + (Quoted(inner) + a));
    CutAppend(["{", "sub"], [":", ""] + (["roles", inner] + ([",", "roles"] + last)), t);
    CutLast("{", "sub", ":" + (Quoted("") + ("roles" + (Quoted(inner) + a))));
    assert TightPieces(x, Names(roles))
        == ["{", "sub"] + ([":", ""] + (["roles", inner] + ([",", "roles"] + last)));
    TextIsPayload(ArrayLike(x), roles, exp);
    assert Quoted("") + ("roles" + (Quoted(inner) + a)) == Quoted(ArrayLike(x)) + a;
  }

  lemma TightFields(x: string, roles: bv32, exp: int)
    requires QUOTE !in x && ']' !in x && |x| == ARRAY_BUF - 2 && IsInt64(exp)
    ensures Int64FieldSpec(Payload(ArrayLike(x), roles, exp), "exp") == Some(exp)
    ensures ParseSpec(Payload(ArrayLike(x), roles, exp)) == Overrun
  {
    hide Names, Middle, Tail, Payload, Cut, StrStr, IsInt64, ArrayLike, ParseSpec, TightPieces;
    TightCut(x, roles, exp);
    TightExp(x, roles, exp);
    TightRoles(x, roles, exp);
  }

  lemma TightExp(x: string, roles: bv32, exp: int)
    requires QUOTE !in x && IsInt64(exp)
    ensures Int64FieldSpec(Cut(TightPieces(x, Names(roles)), Tail(exp)), "exp") == Some(exp)
  {
    hide Names, Middle, Tail, Cut, StrStr, StrChr, StrToLL, IsInt64, SkipSpaceTab;
    var p, t := TightPieces(x, Names(roles)), Tail(exp);
    TightQuoteFree(x, roles);
    ExpIsLast(x, roles);
    hide TightPieces, FirstSeg, QuoteFree;
    FindFirstSeg(p, |p| - 1, "exp", t);
    assert p[|p|..] == [];
    EmptyCut(t);
    ReadExp(exp);
  }

  lemma ExpIsLast(x: string, roles: bv32)
    ensures var p := TightPieces(x, Names(roles)); FirstSeg(p, |p| - 1, "exp")
  {
    hide Names, Middle;
    var p, inner := TightPieces(x, Names(roles)), "[" + x + "]";
    NoExpName(roles);
    assert "sub"[0] != 'e' && "roles"[0] != 'e' && inner[0] != 'e';
    assert forall j | 8 <= j < |p| - 1 :: p[j] == Middle(Names(roles))[j - 8];
  }

  lemma TightRoles(x: string, roles: bv32, exp: int)
    requires QUOTE !in x && ']' !in x && |x| == ARRAY_BUF - 2
    ensures ParseSpec(Cut(TightPieces(x, Names(roles)), Tail(exp))) == Overrun
  {
    hide Names, Middle, Tail, Cut, StrStr, ParseSpec;
    var p, inner, t := TightPieces(x, Names(roles)), "[" + x + "]", Tail(exp);
    TightQuoteFree(x, roles);
    FindFirstSeg(p, 4, "roles", t);
    CutAt(p, 5, t);
    assert p[5] == inner;
    var rest := "\"" + Cut(p[6..], t);
    assert inner + rest == "[" + x + ("]" + rest);
    NulInsideIff(Cut(p, t), Quoted("roles"), x, rest);
  }

  lemma TightQuoteFree(x: string, roles: bv32)
    requires QUOTE !in x
    ensures QuoteFree(TightPieces(x, Names(roles)))
  {
    hide Names, Segs;
    NamesPlain(roles);
    SegsQuoteFree(Names(roles));
  }

  /** Issue accepts a subject of 135 characters that holds a bracketed text of 128, and
      verifying the cookie writes behind the role buffer. */
  lemma TightSubject(key: seq<byte>, x: string, roles: bv32, exp: int, now: int)
    requires key != [] && CString(x) && QUOTE !in x && ']' !in x && |x| == ARRAY_BUF - 2
    requires IsInt64(exp) && (exp > 0 ==> now < exp)
    ensures CString(Payload(ArrayLike(x), roles, exp)) && |Payload(ArrayLike(x), roles, exp)| < PAYLOAD_BUF
    ensures VerifySpec(key, now, Cookie(key, Payload(ArrayLike(x), roles, exp))) == Overruns
  {
    hide Opened, Cookie, StringFieldSpec, Int64FieldSpec, ParseSpec, IsInt64, ReadString, AfterSub, Payload;
    var sub := ArrayLike(x);
    assert |sub| == 135 && CString(sub);
    PayloadBytes(sub, roles, exp);
    PayloadLength(sub, roles, exp);
    CookieOpens(key, Payload(sub, roles, exp));
    SubField(sub, roles, exp, SUB_MAX - 1);
    EmptyRead(sub, AfterSub(roles, exp));
    TightFields(x, roles, exp);
  }

  /** For every cookie that is issued: verifying it writes behind the role buffer if and only
      if subject and expiry are read, it has not expired and the bracketed text behind the
      first quoted "roles" has 128 characters. */
  lemma OverrunsIff(key: seq<byte>, sub: string, roles: bv32, exp: int, now: int)
    requires key != [] && CString(sub) && IsInt64(exp)
    requires CString(Payload(sub, roles, exp)) && |Payload(sub, roles, exp)| < PAYLOAD_BUF
    ensures VerifySpec(key, now, Cookie(key, Payload(sub, roles, exp))) == Overruns
       <==> ClaimsRead(Payload(sub, roles, exp), now) && FillsBuffer(Payload(sub, roles, exp))
  {
    hide Payload, Opened, Cookie, StringFieldSpec, Int64FieldSpec, ParseSpec, IsInt64, CString, FillsBuffer;
    PayloadLength(sub, roles, exp);
    CookieOpens(key, Payload(sub, roles, exp));
    OverrunIff(Payload(sub, roles, exp));
  }

  lemma EmptyRead(sub: string, rest: string)
    requires sub != "" && sub[0] == QUOTE
    ensures ReadString(sub + ("\"" + rest), SUB_MAX - 1) == Some("")
  {}

  /** The life of a cookie: one issued at `now` for a plain subject verifies until its time to
      live, eight hours by default, has passed, and from then on is refused. */
  lemma LifeTime(key: seq<byte>, sub: string, roles: bv32, now: int, ttl: nat, later: int)
    requires key != [] && CString(sub) && Survives(Subject(sub)) && now > 0 && IsInt64(now + if ttl == 0 then 28800 else ttl)
    ensures CString(Payload(Subject(sub), roles, Expiry(now, ttl)))
    ensures var end := now + if ttl == 0 then 28800 else ttl;
            VerifySpec(key, later, Cookie(key, Payload(Subject(sub), roles, Expiry(now, ttl))))
            == if later < end then Accepted(Principal(if sub == "" then "lab" else sub, roles & KNOWN, end)) else Refused
  {
    hide Payload, VerifySpec, Cookie, IsInt64, Survives;
    LabBytes(sub);
    PayloadBytes(Subject(sub), roles, Expiry(now, ttl));
    ShortSubject(Subject(sub));
    IssueFits(key, Subject(sub), roles, Expiry(now, ttl));
    SessionRoundTrip(key, Subject(sub), roles, Expiry(now, ttl), later);
  }

  lemma ShortSubject(sub: string)
    requires Survives(sub)
    ensures |sub| < SUB_MAX
  {}
}
