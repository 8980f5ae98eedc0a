/** src/core/auth_rbac.c, identity headers from a trusted proxy: the canonical text that is
    signed, signing and verifying. */
module ProxyHeaders {
  import opened Base64
  import opened Numbers
  import opened RolesCsv
  import Session
  import Sha256
  import opened Text

  const SUB_MAX: nat := 64
  const CANON_BUF: nat := 256
  const DEFAULT_SKEW: nat := 300

  predicate Control(c: char) {
    c as int < 0x20
  }

  predicate NoControl(s: string) {
    forall i | 0 <= i < |s| :: !Control(s[i])
  }

  /** No role list stands for "employee". */
  function RolesUse(roles: string): string {
    if roles == "" then "employee" else roles
  }

  function Canonical(user: string, roles: string, ts: string): string {
    "v1\n" + ts + "\n" + user + "\n" + roles
  }

  // ----- the canonical text names one request ---------------------------------------------

  lemma LastLine(a: string, b: string, a': string, b': string)
    requires NoControl(b) && NoControl(b') && a + "\n" + b == a' + "\n" + b'
    ensures a == a' && b == b'
  {
    var s := a + "\n" + b;
    assert Control('\n');
    assert s[|a|] == '\n' && s[|a'|] == '\n';
    assert forall i | |a| < i < |s| :: s[i] == b[i - |a| - 1];
    assert forall i | |a'| < i < |s| :: s[i] == b'[i - |a'| - 1];
    assert |a| == |a'|;
    assert a == s[..|a|] && b == s[|a| + 1..];
  }

  /** User and roles are free of control characters, so the last two line ends are the
      separators, whatever blanks or line ends lead the timestamp. */
  lemma CanonicalInjective(user: string, roles: string, ts: string, user': string, roles': string, ts': string)
    requires NoControl(user) && NoControl(roles) && NoControl(user') && NoControl(roles')
    requires Canonical(user, roles, ts) == Canonical(user', roles', ts')
    ensures user == user' && roles == roles' && ts == ts'
  {
    LastLine("v1\n" + ts + "\n" + user, roles, "v1\n" + ts' + "\n" + user', roles');
    LastLine("v1\n" + ts, user, "v1\n" + ts', user');
    assert ts == ("v1\n" + ts)[3..] && ts' == ("v1\n" + ts')[3..];
  }

  // ----- signing --------------------------------------------------------------------------

  /** edge_auth_proxy_canonical */
  method MakeCanonical(user: string, roles: string, ts: string, outSz: nat) returns (r: Option<string>)
    ensures r == if user != "" && ts != "" && 8 <= outSz && |Canonical(user, RolesUse(roles), ts)| < outSz
                 then Some(Canonical(user, RolesUse(roles), ts)) else None
  {
    hide Canonical;
    if user == "" || ts == "" || outSz < 8 { return None; }
    var text := Canonical(user, RolesUse(roles), ts);
    if |text| >= outSz { return None; }
    r := Some(text);
  }

  ghost function Signature(key: seq<byte>, canon: string): string
    requires OneByteChars(canon)
  {
    EncodeSpec(Sha256.Hmac(key, ToBytes(canon)), true)
  }

  lemma CanonicalBytes(user: string, roles: string, ts: string)
    requires OneByteChars(user) && OneByteChars(roles) && OneByteChars(ts)
    ensures OneByteChars(Canonical(user, RolesUse(roles), ts))
  {
    Joins("v1\n", ts);
    Joins("v1\n" + ts, "\n");
    Joins("v1\n" + ts + "\n", user);
    Joins("v1\n" + ts + "\n" + user, "\n");
    Joins("v1\n" + ts + "\n" + user + "\n", RolesUse(roles));
  }

  lemma Joins(a: string, b: string)
    requires OneByteChars(a) && OneByteChars(b)
    ensures OneByteChars(a + b)
  {}

  lemma DecimalBytes(n: int)
    ensures OneByteChars(Decimal(n))
  {
    var d := Decimal(n);
    assert forall i | 1 <= i < |d| :: d[i] == d[1..][i - 1];
  }

  /** edge_auth_proxy_sign */
  method Sign(key: seq<byte>, user: string, roles: string, ts: int, sigSz: nat) returns (sig: Option<string>)
    requires OneByteChars(user) && OneByteChars(roles) && IsInt64(ts)
    ensures OneByteChars(Canonical(user, RolesUse(roles), Decimal(ts)))
    ensures var canon := Canonical(user, RolesUse(roles), Decimal(ts));
            sig == if key != [] && user != "" && |canon| < CANON_BUF && 45 <= sigSz
                   then Some(Signature(key, canon)) else None
  {
    hide Canonical, Sha256.Hmac, EncodeSpec, Decimal, ToBytes, IsInt64;
    DecimalBytes(ts);
    CanonicalBytes(user, roles, Decimal(ts));
    if |key| == 0 { return None; }
    var canon := MakeCanonical(user, roles, Decimal(ts), CANON_BUF);
    if canon.None? { return None; }
    var mac := Sha256.HmacSha256(key, ToBytes(canon.value));
    sig := Encode(mac, sigSz, true);
  }

  // ----- verifying ------------------------------------------------------------------------

  function Distance(a: int, b: int): nat {
    if a > b then a - b else b - a
  }

  function Limit(maxSkew: nat): nat {
    if maxSkew == 0 then DEFAULT_SKEW else maxSkew
  }

  /** The checks that do not need the key. */
  function Gates(maxSkew: nat, now: int, user: string, roles: string, ts: string): Option<int> {
    if user == "" || |user| >= SUB_MAX || !NoControl(user) || !NoControl(RolesUse(roles)) then None
    else match StrToLL(ts)
         case None => None
         case Some(n) =>
           if n.rest != "" || n.value <= 0 || Distance(now, n.value) > Limit(maxSkew) then None else Some(n.value)
  }

  ghost predicate Signed(key: seq<byte>, user: string, roles: string, ts: string, sig: string)
    requires OneByteChars(user) && OneByteChars(roles) && OneByteChars(ts)
  {
    CanonicalBytes(user, roles, ts);
    var canon := Canonical(user, RolesUse(roles), ts);
    |canon| < CANON_BUF && DecodeSpec(sig, 32) == Some(Sha256.Hmac(key, ToBytes(canon)))
  }

  ghost function VerifySpec(key: seq<byte>, maxSkew: nat, now: int, user: string, roles: string, ts: string, sig: string)
    : Option<Session.Principal>
    requires OneByteChars(user) && OneByteChars(roles) && OneByteChars(ts)
  {
    match Gates(maxSkew, now, user, roles, ts)
    case None => None
    case Some(t) =>
      if key != [] && Signed(key, user, roles, ts, sig)
      then Some(Session.Principal(user, RolesFromCsvSpec(RolesUse(roles)), t + Limit(maxSkew)))
      else None
  }

  /** Whoever is accepted holds a signature that decodes to the MAC of these very headers:
      for every key, clock and header set. */
  lemma OnlySigned(key: seq<byte>, maxSkew: nat, now: int, user: string, roles: string, ts: string, sig: string)
    requires OneByteChars(user) && OneByteChars(roles) && OneByteChars(ts)
    ensures OneByteChars("v1\n" + ts + "\n" + user + "\n" + (if roles == "" then "employee" else roles))
    ensures VerifySpec(key, maxSkew, now, user, roles, ts, sig).Some? ==>
              key != [] && DecodeSpec(sig, 32)
              == Some(Sha256.Hmac(key, ToBytes("v1\n" + ts + "\n" + user + "\n" + (if roles == "" then "employee" else roles))))
  {
    hide Gates, DecodeSpec, Sha256.Hmac, RolesFromCsvSpec, ToBytes;
    CanonicalBytes(user, roles, ts);
  }

  /** And conversely: exactly the signed header sets whose user is not empty, has at most 63
      characters and none below a blank, whose roles have none either, and whose timestamp is a
      positive number at most the skew away from the clock; 300 seconds by default. */
  lemma AcceptedIff(key: seq<byte>, maxSkew: nat, now: int, user: string, roles: string, ts: string, sig: string)
    requires OneByteChars(user) && OneByteChars(roles) && OneByteChars(ts)
    ensures var skew := if maxSkew == 0 then 300 else maxSkew;
            var v := VerifySpec(key, maxSkew, now, user, roles, ts, sig);
            && (v.Some? <==> key != [] && Signed(key, user, roles, ts, sig)
                             && 0 < |user| <= 63 && (forall i | 0 <= i < |user| :: user[i] as int >= 0x20)
                             && (forall i | 0 <= i < |roles| :: roles[i] as int >= 0x20)
                             && exists t :: StrToLL(ts) == Some(Number(t, "")) && t > 0 && now - skew <= t <= now + skew)
            && (v.Some? ==> StrToLL(ts).Some? && v.value == Session.Principal(
                              user, RolesFromCsvSpec(if roles == "" then "employee" else roles), StrToLL(ts).value.value + skew))
  {
    hide Signed, RolesFromCsvSpec, StrToLL;
    CleanDefault();
    if StrToLL(ts).Some? && StrToLL(ts).value.rest == "" {
      assert StrToLL(ts) == Some(Number(StrToLL(ts).value.value, ""));
    }
  }

  lemma CleanDefault()
    ensures NoControl("employee") && NoControl("")
  {}

  method FindControl(s: string) returns (found: bool)
    ensures found <==> !NoControl(s)
  {
    for i := 0 to |s|
      invariant forall j | 0 <= j < i :: !Control(s[j])
    {
      if s[i] as int < 0x20 || s[i] == '\n' || s[i] == '\r' { return true; }
    }
    return false;
  }

  /** edge_auth_proxy_verify */
  method Verify(key: seq<byte>, maxSkew: nat, now: int, user: string, roles: string, ts: string, sig: string)
    returns (who: Option<Session.Principal>)
    requires OneByteChars(user) && OneByteChars(roles) && OneByteChars(ts) && 0 <= now
    ensures who == VerifySpec(key, maxSkew, now, user, roles, ts, sig)
  {
    hide Signed, NoControl, StrToLL, RolesFromCsvSpec, Clip;
    if user == "" || |key| == 0 || |user| >= SUB_MAX { return None; }
    var bad := FindControl(user);
    if bad { return None; }
    var use := RolesUse(roles);
    bad := FindControl(use);
    if bad { return None; }
    var n := StrToLL(ts);
    if n.None? || n.value.rest != "" || n.value.value <= 0 { return None; }
    var t := n.value.value;
    var limit := Limit(maxSkew);
    var skew := if now > t then now - t else t - now;
    if skew > limit { return None; }
    NonEmptyNumber(ts);
    var ok := CheckMac(key, user, roles, ts, sig);
    if !ok { return None; }
    var granted := RolesFromCsv(use);
    who := Some(Session.Principal(Clip(user, SUB_MAX), granted, t + limit));
  }

  lemma NonEmptyNumber(ts: string)
    requires StrToLL(ts).Some?
    ensures ts != ""
  {}

  /** The MAC half of verify. */
  method CheckMac(key: seq<byte>, user: string, roles: string, ts: string, sig: string) returns (ok: bool)
    requires OneByteChars(user) && OneByteChars(roles) && OneByteChars(ts) && user != "" && ts != ""
    ensures ok <==> Signed(key, user, roles, ts, sig)
  {
    hide Canonical, Sha256.Hmac, DecodeSpec, ToBytes;
    CanonicalBytes(user, roles, ts);
    var canon := MakeCanonical(user, roles, ts, CANON_BUF);
    if canon.None? { return false; }
    var mac := Sha256.HmacSha256(key, ToBytes(canon.value));
    var got := Decode(sig, 32);
    if got.None? || |got.value| != 32 { return false; }
    ok := Session.CtEq(mac, got.value, 32);
    assert mac[..32] == mac && got.value[..32] == got.value;
  }

  // ----- signing and verifying together ---------------------------------------------------

  /** A signed header set is accepted exactly when the user fits and is clean like the
      roles, the timestamp is positive and the clock is within the skew; it then grants
      that user what the role list says. */
  lemma SignVerify(key: seq<byte>, user: string, roles: string, ts: int, maxSkew: nat, now: int)
    requires OneByteChars(user) && OneByteChars(roles) && IsInt64(ts) && OneByteChars(Decimal(ts))
    requires key != [] && user != "" && OneByteChars(Canonical(user, RolesUse(roles), Decimal(ts)))
    requires |Canonical(user, RolesUse(roles), Decimal(ts))| < CANON_BUF
    ensures VerifySpec(key, maxSkew, now, user, roles, Decimal(ts), Signature(key, Canonical(user, RolesUse(roles), Decimal(ts))))
         == if |user| < SUB_MAX && NoControl(user) && NoControl(RolesUse(roles)) && ts > 0 && Distance(now, ts) <= Limit(maxSkew)
            then Some(Session.Principal(user, RolesFromCsvSpec(RolesUse(roles)), ts + Limit(maxSkew)))
            else None
  {
    hide Canonical, Decimal, StrToLL, Sha256.Hmac, ToBytes, EncodeSpec, DecodeSpec, NoControl, RolesFromCsvSpec, IsInt64, OneByteChars;
    DecimalRoundTrip(ts, "");
    assert Decimal(ts) + "" == Decimal(ts);
    UrlRoundTrip(Sha256.Hmac(key, ToBytes(Canonical(user, RolesUse(roles), Decimal(ts)))), 32);
  }

  /** Requests that pass verification on the same signed text are the same request and get
      the same principal. */
  lemma MacDeterminesGrant(key: seq<byte>, maxSkew: nat, now: int, user: string, roles: string, ts: string, sig: string,
                           now': int, user': string, roles': string, ts': string, sig': string)
    requires OneByteChars(user) && OneByteChars(roles) && OneByteChars(ts)
    requires OneByteChars(user') && OneByteChars(roles') && OneByteChars(ts')
    requires Canonical(user, RolesUse(roles), ts) == Canonical(user', RolesUse(roles'), ts')
    requires VerifySpec(key, maxSkew, now, user, roles, ts, sig).Some?
    requires VerifySpec(key, maxSkew, now', user', roles', ts', sig').Some?
    ensures user == user' && RolesUse(roles) == RolesUse(roles') && ts == ts'
    ensures VerifySpec(key, maxSkew, now, user, roles, ts, sig) == VerifySpec(key, maxSkew, now', user', roles', ts', sig')
  {
    hide Canonical, StrToLL, Signed, NoControl, RolesFromCsvSpec, RolesUse;
    CanonicalInjective(user, RolesUse(roles), ts, user', RolesUse(roles'), ts');
  }
}
