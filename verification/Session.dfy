/** src/core/auth_rbac.c, session cookies: issue, verify, and the field scanners verify
    reads the payload with. */
module Session {
  import opened Base64
  import opened Bits
  import opened Numbers
  import opened Roles
  import Sha256
  import opened Text

  const SUB_MAX: nat := 64
  const PAYLOAD_BUF: nat := 256
  const PAY_B64_BUF: nat := 400
  const SIG_B64_BUF: nat := 64
  const JSON_BUF: nat := 320
  const DEFAULT_TTL: nat := 28800

  datatype Principal = Principal(sub: string, roles: bv32, exp: int)

  /** The text of a `char *`: one-byte characters and no NUL. */
  predicate CString(s: string) {
    OneByteChars(s) && forall i | 0 <= i < |s| :: s[i] != '\0'
  }

  // ----- comparing MACs -------------------------------------------------------------------

  /** ct_eq: no early exit, yet exactly equality. */
  method CtEq(a: seq<byte>, b: seq<byte>, n: nat) returns (same: bool)
    requires n <= |a| && n <= |b|
    ensures same <==> a[..n] == b[..n]
  {
    hide BitXor, BitOr;
    var d := 0;
    for i := 0 to n
      invariant d == 0 <==> forall j | 0 <= j < i :: a[j] == b[j]
    {
      XorZero(a[i], b[i]);
      OrZero(d, BitXor(a[i], b[i]));
      d := BitOr(d, BitXor(a[i], b[i]));
    }
    assert (forall j | 0 <= j < n :: a[j] == b[j]) <==> a[..n] == b[..n];
    same := d == 0;
  }

  // ----- field scanners -------------------------------------------------------------------

  /** The rest of a string literal: a backslash makes the next character plain; None if
      the closing quote is not reached with `room` characters. */
  function ReadString(p: string, room: nat): (r: Option<string>)
    ensures r.Some? ==> |r.value| <= room
  {
    if p == "" then None
    else if p[0] == QUOTE then Some("")
    else if room == 0 then None
    else
      var escaped := p[0] == '\\' && |p| > 1;
      match ReadString(if escaped then p[2..] else p[1..], room - 1)
      case None => None
      case Some(s) => Some([if escaped then p[1] else p[0]] + s)
  }

  function StringFieldSpec(json: string, field: string, room: nat): (r: Option<string>)
    ensures r.Some? ==> |r.value| <= room
  {
    match StrStr(json, Quoted(field))
    case None => None
    case Some(p) => (match StrChr(p[|field| + 2..], QUOTE)
                     case None => None
                     case Some(q) => ReadString(q[1..], room))
  }

  function Resumed(out: string, r: Option<string>): Option<string> {
    if r.Some? then Some(out + r.value) else None
  }

  lemma ReadStep(p: string, q: string, room: nat)
    requires p != "" && p[0] != QUOTE && room > 0
    requires q == if p[0] == '\\' && |p| > 1 then p[1..] else p
    ensures ReadString(p, room) == Resumed([q[0]], ReadString(q[1..], room - 1))
  {
    if |p| > 1 { assert p[1..][1..] == p[2..]; }
  }

  lemma ReadDone(p: string, room: nat)
    requires p == "" || p[0] == QUOTE || room == 0
    ensures ReadString(p, room) == if p != "" && p[0] == QUOTE then Some("") else None
  {}

  lemma ResumedTwice(out: string, c: char, r: Option<string>)
    ensures Resumed(out, Resumed([c], r)) == Resumed(out + [c], r)
    ensures Resumed("", r) == r && Resumed(out, Some("")) == Some(out) && Resumed(out, None) == None
  {
    if r.Some? {
      assert out + ([c] + r.value) == out + [c] + r.value;
      assert "" + r.value == r.value;
    }
    assert out + "" == out;
  }

  /** parse_json_string_field */
  method ParseStringField(json: string, field: string, outSz: nat) returns (r: Option<string>)
    requires outSz > 0
    ensures r == StringFieldSpec(json, field, outSz - 1)
  {
    hide ReadString;
    var hit := StrStr(json, Quoted(field));
    if hit.None? { return None; }
    var quote := StrChr(hit.value[|field| + 2..], QUOTE);
    if quote.None? { return None; }
    r := CopyString(quote.value[1..], outSz);
  }

  /** Its copying loop. */
  method CopyString(body: string, outSz: nat) returns (r: Option<string>)
    requires outSz > 0
    ensures r == ReadString(body, outSz - 1)
  {
    hide ReadString, Resumed;
    ghost var all := ReadString(body, outSz - 1);
    var p, out := body, "";
    ResumedTwice("", ' ', all);
    while p != "" && p[0] != QUOTE && |out| + 1 < outSz
      invariant |out| <= outSz - 1
      invariant all == Resumed(out, ReadString(p, outSz - 1 - |out|))
      decreases |p|
    {
      ghost var start, room := p, outSz - 1 - |out|;
      if p[0] == '\\' && |p| > 1 {
        p := p[1..];
      }
      ReadStep(start, p, room);
      ResumedTwice(out, p[0], ReadString(p[1..], room - 1));
      out := out + [p[0]];
      p := p[1..];
    }
    ReadDone(p, outSz - 1 - |out|);
    ResumedTwice(out, ' ', None);
    r := if p != "" && p[0] == QUOTE then Some(out) else None;
  }

  predicate SpaceOrTab(c: char) {
    c == ' ' || c == '\t'
  }

  function SkipSpaceTab(p: string): string {
    if p != "" && SpaceOrTab(p[0]) then SkipSpaceTab(p[1..]) else p
  }

  function Int64FieldSpec(json: string, field: string): Option<int> {
    match StrStr(json, Quoted(field))
    case None => None
    case Some(p) => (match StrChr(p[|field| + 2..], ':')
                     case None => None
                     case Some(q) => (match StrToLL(SkipSpaceTab(q[1..]))
                                      case None => None
                                      case Some(n) => Some(n.value)))
  }

  /** parse_json_int64_field */
  method ParseInt64Field(json: string, field: string) returns (r: Option<int>)
    ensures r == Int64FieldSpec(json, field)
  {
    hide StrToLL;
    var hit := StrStr(json, Quoted(field));
    if hit.None? { return None; }
    var colon := StrChr(hit.value[|field| + 2..], ':');
    if colon.None? { return None; }
    var p := colon.value[1..];
    while p != "" && SpaceOrTab(p[0])
      invariant SkipSpaceTab(p) == SkipSpaceTab(colon.value[1..])
      decreases |p|
    {
      p := p[1..];
    }
    var v := StrToLL(p);
    r := if v.None? then None else Some(v.value.value);
  }

  // ----- issue ----------------------------------------------------------------------------

  /** The subject in use: "lab" when none is given. */
  function Subject(sub: string): string {
    if sub == "" then "lab" else sub
  }

  function Payload(sub: string, roles: bv32, exp: int): string {
    "{\"sub\":\"" + sub + "\",\"roles\":" + ArrayText(roles) + ",\"exp\":" + Decimal(exp) + "}"
  }

  lemma PayloadBytes(sub: string, roles: bv32, exp: int)
    requires CString(sub)
    ensures CString(Payload(sub, roles, exp))
  {
    hide Names;
    NamesPlain(roles);
    JoinedBytes(Names(roles));
    var d := Decimal(exp);
    assert forall i | 0 <= i < |d| :: d[i] == '-' || IsDigit(d[i]) by {
      assert forall i | 1 <= i < |d| :: d[i] == d[1..][i - 1];
    }
    assert CString(d);
    Concat("{\"sub\":\"", sub);
    Concat("{\"sub\":\"" + sub, "\",\"roles\":");
    Concat("[", Joined(Names(roles)));
    Concat("[" + Joined(Names(roles)), "]");
    Concat("{\"sub\":\"" + sub + "\",\"roles\":", ArrayText(roles));
    Concat("{\"sub\":\"" + sub + "\",\"roles\":" + ArrayText(roles), ",\"exp\":");
    Concat("{\"sub\":\"" + sub + "\",\"roles\":" + ArrayText(roles) + ",\"exp\":", d);
    Concat("{\"sub\":\"" + sub + "\",\"roles\":" + ArrayText(roles) + ",\"exp\":" + d, "}");
  }

  lemma Concat(a: string, b: string)
    requires CString(a) && CString(b)
    ensures CString(a + b)
  {}

  lemma {:induction false} JoinedBytes(names: seq<string>)
    requires PlainAll(names)
    ensures CString(Joined(names))
  {
    if names != [] { JoinedBytes(names[..|names| - 1]); }
  }

  /** Payload and its MAC, each in base64url. */
  ghost function Cookie(key: seq<byte>, payload: string): string
    requires OneByteChars(payload)
  {
    EncodeSpec(ToBytes(payload), true) + "." + EncodeSpec(Sha256.Hmac(key, ToBytes(payload)), true)
  }

  function Expiry(now: int, ttl: nat): int {
    now + if ttl == 0 then DEFAULT_TTL else ttl
  }

  /** edge_auth_session_issue */
  method Issue(key: seq<byte>, now: int, ttl: nat, sub: string, roles: bv32, cookieSz: nat)
    returns (cookie: Option<string>, who: Principal)
    requires CString(sub) && IsInt64(Expiry(now, ttl))
    ensures OneByteChars(Payload(Subject(sub), roles, Expiry(now, ttl)))
    ensures var payload := Payload(Subject(sub), roles, Expiry(now, ttl));
            cookie == if key != [] && 16 <= cookieSz && |payload| < PAYLOAD_BUF && |Cookie(key, payload)| < cookieSz
                      then Some(Cookie(key, payload)) else None
    ensures cookie.Some? ==> who == Principal(Clip(Subject(sub), SUB_MAX), roles, Expiry(now, ttl))
  {
    hide ArrayText, Decimal, EncodeSpec, Sha256.Hmac, ToBytes, Payload, OneByteChars, Cookie;
    who := Principal("", 0, 0);
    var s := Subject(sub);
    LabBytes(sub);
    PayloadBytes(s, roles, Expiry(now, ttl));
    if cookieSz < 16 || |key| == 0 { return None, who; }
    var json := RolesToJsonArray(roles, ARRAY_BUF);
    if json.None? { return None, who; }
    var exp := Expiry(now, ttl);
    var payload := "{\"sub\":\"" + s + "\",\"roles\":" + json.value + ",\"exp\":" + Decimal(exp) + "}";
    assert payload == Payload(s, roles, exp) by { PayloadIs(s, roles, exp); }
    if |payload| >= PAYLOAD_BUF { return None, who; }
    cookie := Seal(key, payload, cookieSz);
    who := Principal(Clip(s, SUB_MAX), roles, exp);
  }

  lemma LabBytes(sub: string)
    requires CString(sub)
    ensures CString(Subject(sub))
  {}

  lemma PayloadIs(sub: string, roles: bv32, exp: int)
    ensures Payload(sub, roles, exp)
         == "{\"sub\":\"" + sub + "\",\"roles\":" + ArrayText(roles) + ",\"exp\":" + Decimal(exp) + "}"
  {}

  /** The second half of issue: neither base64 buffer is ever too small. */
  method Seal(key: seq<byte>, payload: string, cookieSz: nat) returns (cookie: Option<string>)
    requires OneByteChars(payload) && |payload| < PAYLOAD_BUF
    ensures cookie == if |Cookie(key, payload)| < cookieSz then Some(Cookie(key, payload)) else None
  {
    hide EncodeSpec, Sha256.Hmac, ToBytes;
    var pay := Encode(ToBytes(payload), PAY_B64_BUF, true);
    if pay.None? { return None; }
    var mac := Sha256.HmacSha256(key, ToBytes(payload));
    var sig := Encode(mac, SIG_B64_BUF, true);
    if sig.None? { return None; }
    var text := pay.value + "." + sig.value;
    if |text| >= cookieSz { return None; }
    cookie := Some(text);
  }

  // ----- verify ---------------------------------------------------------------------------

  /** The two halves of a cookie, if each fits its buffer. */
  function Halves(cookie: string): Option<(string, string)> {
    match StrChr(cookie, '.')
    case None => None
    case Some(dot) =>
      if |dot| == |cookie| || |dot| == 1 || |cookie| - |dot| >= PAY_B64_BUF || |dot| - 1 >= SIG_B64_BUF then None
      else Some((cookie[..|cookie| - |dot|], dot[1..]))
  }

  /** The payload the signature vouches for. */
  ghost function Opened(key: seq<byte>, cookie: string): Option<string> {
    match Halves(cookie)
    case None => None
    case Some(h) =>
      match DecodeSpec(h.0, JSON_BUF)
      case None => None
      case Some(payload) =>
        if payload == [] || |payload| >= JSON_BUF then None
        else if DecodeSpec(h.1, 32) == Some(Sha256.Hmac(key, payload)) then Some(UpToNul(FromBytes(payload)))
        else None
  }

  /** What comes of a cookie. Overruns: the role parser wrote behind its buffer, and nothing
      is said about such a run. */
  datatype Verdict = Refused | Accepted(who: Principal) | Overruns

  /** What a payload says at time `now`. */
  function Claims(json: string, now: int): Verdict {
    match StringFieldSpec(json, "sub", SUB_MAX - 1)
    case None => Refused
    case Some(sub) =>
      match Int64FieldSpec(json, "exp")
      case None => Refused
      case Some(exp) =>
        if exp > 0 && now >= exp then Refused
        else (match ParseSpec(json)
              case Overrun => Overruns
              case Read(roles) => Accepted(Principal(Clip(sub, SUB_MAX), roles, exp)))
  }

  ghost function VerifySpec(key: seq<byte>, now: int, cookie: string): Verdict {
    if key == [] then Refused
    else match Opened(key, cookie)
         case None => Refused
         case Some(json) => Claims(json, now)
  }

  /** Two texts around the first dot, the second of which decodes to the MAC of what the
      first decodes to. */
  ghost predicate SignedHalves(key: seq<byte>, cookie: string, pay: string, sig: string) {
    && cookie == pay + "." + sig && '.' !in pay
    && DecodeSpec(pay, JSON_BUF).Some?
    && DecodeSpec(sig, 32) == Some(Sha256.Hmac(key, DecodeSpec(pay, JSON_BUF).value))
  }

  /** The holder of the key signed the cookie. */
  ghost predicate Vouched(key: seq<byte>, cookie: string) {
    key != [] && exists pay, sig :: SignedHalves(key, cookie, pay, sig)
  }

  lemma HalvesOf(pay: string, sig: string)
    requires '.' !in pay
    ensures Halves(pay + "." + sig)
         == if 0 < |pay| < PAY_B64_BUF && 0 < |sig| < SIG_B64_BUF then Some((pay, sig)) else None
  {
    var cookie, dot := pay + "." + sig, "." + sig;
    assert cookie == pay + dot;
    StrChrSkip(pay, dot, '.');
    assert dot[1..] == sig && cookie[..|pay|] == pay;
  }

  lemma HalvesJoin(cookie: string)
    requires Halves(cookie).Some?
    ensures var (pay, sig) := Halves(cookie).value; '.' !in pay && cookie == pay + "." + sig
  {
    var dot := StrChr(cookie, '.').value;
    assert cookie == cookie[..|cookie| - |dot|] + dot && dot == "." + dot[1..];
  }

  /** Nothing but a signed cookie gets past verify: for every key, clock and cookie. */
  lemma OnlySigned(key: seq<byte>, now: int, cookie: string)
    ensures VerifySpec(key, now, cookie) != Refused ==> Vouched(key, cookie)
  {
    hide Claims, DecodeSpec, Sha256.Hmac, Halves;
    if VerifySpec(key, now, cookie) != Refused {
      HalvesJoin(cookie);
      var (pay, sig) := Halves(cookie).value;
      assert SignedHalves(key, cookie, pay, sig);
    }
  }

  /** A signature that decodes to anything but the MAC is refused, whatever the payload. */
  lemma ForgedIsRefused(key: seq<byte>, now: int, pay: string, sig: string)
    requires '.' !in pay && DecodeSpec(pay, JSON_BUF).Some?
    requires DecodeSpec(sig, 32) != Some(Sha256.Hmac(key, DecodeSpec(pay, JSON_BUF).value))
    ensures VerifySpec(key, now, pay + "." + sig) == Refused
  {
    hide Claims, DecodeSpec, Sha256.Hmac, Halves;
    HalvesOf(pay, sig);
  }

  /** Subject and expiry are read, and it has not expired. */
  predicate ClaimsRead(json: string, now: int) {
    && StringFieldSpec(json, "sub", SUB_MAX - 1).Some?
    && Int64FieldSpec(json, "exp").Some? && !(0 < Int64FieldSpec(json, "exp").value <= now)
  }

  /** A cookie in two halves is not refused exactly if they fit their buffers, the second
      decodes to the MAC of the first and the text in that reads as claims that hold. */
  lemma RefusedUnless(key: seq<byte>, now: int, pay: string, sig: string)
    requires '.' !in pay
    ensures VerifySpec(key, now, pay + "." + sig) != Refused
       <==> key != [] && 0 < |pay| < PAY_B64_BUF && 0 < |sig| < SIG_B64_BUF
            && DecodeSpec(pay, JSON_BUF).Some? && 0 < |DecodeSpec(pay, JSON_BUF).value| < JSON_BUF
            && DecodeSpec(sig, 32) == Some(Sha256.Hmac(key, DecodeSpec(pay, JSON_BUF).value))
            && ClaimsRead(UpToNul(FromBytes(DecodeSpec(pay, JSON_BUF).value)), now)
  {
    hide StringFieldSpec, Int64FieldSpec, ParseSpec, DecodeSpec, Sha256.Hmac, Halves;
    HalvesOf(pay, sig);
  }

  /** edge_auth_session_verify */
  method Verify(key: seq<byte>, now: int, cookie: string) returns (v: Verdict)
    ensures v == VerifySpec(key, now, cookie)
    ensures v != Refused ==> Vouched(key, cookie)
    ensures v.Accepted? ==> v.who.exp <= 0 || now < v.who.exp
  {
    hide Claims, DecodeSpec, Sha256.Hmac, Vouched;
    OnlySigned(key, now, cookie);
    if |key| == 0 { return Refused; }
    var dot := StrChr(cookie, '.');
    if dot.None? || |dot.value| == |cookie| || |dot.value| == 1 { return Refused; }
    if |cookie| - |dot.value| >= PAY_B64_BUF { return Refused; }
    var payB64 := cookie[..|cookie| - |dot.value|];
    if |dot.value| - 1 >= SIG_B64_BUF { return Refused; }
    var sigB64 := dot.value[1..];
    var payload := Decode(payB64, JSON_BUF);
    if payload.None? || |payload.value| == 0 || |payload.value| >= JSON_BUF { return Refused; }
    var sig := Decode(sigB64, 32);
    if sig.None? || |sig.value| != 32 { return Refused; }
    var mac := Sha256.HmacSha256(key, payload.value);
    var same := CtEq(mac, sig.value, 32);
    assert mac[..32] == mac && sig.value[..32] == sig.value;
    if !same { return Refused; }
    v := ReadClaims(UpToNul(FromBytes(payload.value)), now);
  }

  method ReadClaims(json: string, now: int) returns (v: Verdict)
    ensures v == Claims(json, now)
    ensures v.Accepted? ==> v.who.exp <= 0 || now < v.who.exp
  {
    hide StringFieldSpec, Int64FieldSpec, ParseSpec;
    var sub := ParseStringField(json, "sub", SUB_MAX);
    if sub.None? { return Refused; }
    var exp := ParseInt64Field(json, "exp");
    if exp.None? { return Refused; }
    if exp.value > 0 && now >= exp.value { return Refused; }
    var reading := ParseRolesArray(json);
    if reading.Overrun? { return Overruns; }
    v := Accepted(Principal(Clip(sub.value, SUB_MAX), reading.roles, exp.value));
  }
}
