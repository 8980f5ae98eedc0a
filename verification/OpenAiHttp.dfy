/** src/plugins/openai_proxy.c, what the plugin reads of a request and what it relays of an
    upstream answer. */
module OpenAiHttp {
  import opened Roles
  import opened Text

  const TMP_BUF: nat := 96
  const MODEL := "\"model\""

  /** A request: `roles` of its principal, if it has an authenticated one. */
  datatype Ask = Ask(verb: string, path: string, body: string, roles: Option<bv32>)

  /** principal_allowed */
  predicate PrincipalAllowed(roles: Option<bv32>) {
    roles.Some? && (Has(roles.value, EMPLOYEE) || Has(roles.value, EMPLOYEE_ADMIN) || Has(roles.value, SERVICE_OPENAI))
  }

  /** The path itself or with a query. */
  predicate IsPath(path: string, name: string) {
    path == name || name + "?" <= path
  }

  /** route_allowed */
  predicate RouteAllowed(verb: string, path: string) {
    || (verb == "POST" && (IsPath(path, "/v1/chat/completions") || IsPath(path, "/v1/responses")))
    || (verb == "GET" && IsPath(path, "/v1/models"))
  }

  lemma RoleBits(roles: bv32)
    ensures Has(roles, 1) || Has(roles, 2) || Has(roles, 16) <==> roles & 19 != 0
  {}

  /** Who may ask: an authenticated principal with the employee, the employee_admin or the
      service_openai bit. */
  predicate MayEnter(roles: Option<bv32>) {
    roles.Some? && roles.value & 19 != 0
  }

  /** What may be asked for, with or without a query. */
  predicate Served(verb: string, path: string) {
    if verb == "POST" then
      || path == "/v1/chat/completions" || "/v1/chat/completions?" <= path
      || path == "/v1/responses" || "/v1/responses?" <= path
    else verb == "GET" && (path == "/v1/models" || "/v1/models?" <= path)
  }

  lemma GatesAre(a: Ask)
    ensures PrincipalAllowed(a.roles) <==> MayEnter(a.roles)
    ensures RouteAllowed(a.verb, a.path) <==> Served(a.verb, a.path)
  {
    if a.roles.Some? { RoleBits(a.roles.value); }
    hide Has;
    Queries();
    assert "POST" != "GET";
  }

  lemma Queries()
    ensures "/v1/chat/completions" + "?" == "/v1/chat/completions?"
    ensures "/v1/responses" + "?" == "/v1/responses?" && "/v1/models" + "?" == "/v1/models?"
  {}

  // ----- the body check -----------------------------------------------------------------

  predicate Blank(c: char) {
    c == ' ' || c == '\n' || c == '\r' || c == '\t'
  }

  /** The first character that is no blank opens an object. */
  predicate OpensObject(body: string) {
    body != "" && (body[0] == '{' || (Blank(body[0]) && OpensObject(body[1..])))
  }

  ghost predicate BraceAt(body: string, n: nat) {
    n < |body| && body[n] == '{' && forall i | 0 <= i < n :: body[i] in " \n\r\t"
  }

  lemma {:induction false} OpensIff(body: string)
    ensures OpensObject(body) <==> exists n: nat :: BraceAt(body, n)
  {
    if body != "" {
      var rest := body[1..];
      OpensIff(rest);
      assert forall i | 0 <= i < |rest| :: rest[i] == body[i + 1];
      if OpensObject(body) {
        if body[0] == '{' {
          assert BraceAt(body, 0);
        } else {
          var n: nat :| BraceAt(rest, n);
          assert forall i | 1 <= i < n + 1 :: body[i] == rest[i - 1];
          assert BraceAt(body, n + 1);
        }
      }
      if n: nat :| BraceAt(body, n) {
        if n > 0 { assert BraceAt(rest, n - 1); }
      }
    }
  }

  /** A small body is searched up to its first NUL, a large one in every window but the
      last. */
  ghost predicate MentionsModel(body: string) {
    if |body| < TMP_BUF then StrStr(UpToNul(body), MODEL).Some?
    else exists i :: OccursAt(body, MODEL, i) && i + |MODEL| < |body|
  }

  ghost predicate BodySpec(verb: string, body: string) {
    verb == "GET" || (|body| >= 2 && OpensObject(body) && MentionsModel(body))
  }

  /** For a body without NUL: it is taken exactly if it opens an object and the quoted word
      stands somewhere in it, for a body of 96 bytes or more somewhere but at its very
      end. */
  lemma BodyIff(verb: string, body: string)
    requires verb != "GET" && '\0' !in body
    ensures BodySpec(verb, body) <==>
              |body| >= 2 && OpensObject(body)
              && exists i :: OccursAt(body, MODEL, i) && (|body| < TMP_BUF || i + |MODEL| < |body|)
  {
    hide OpensObject, StrStr, OccursAt;
    StrStrFinds(body, MODEL);
    NoNulWhole(body);
  }

  lemma NoNulWhole(s: string)
    requires '\0' !in s
    ensures UpToNul(s) == s
  {
    var t := UpToNul(s);
    assert t <= s;
  }

  /** So for a text that ends in anything but a quote, as an object does, the last window
      does not matter. */
  lemma LastWindowIdle(verb: string, body: string)
    requires verb != "GET" && '\0' !in body && body != "" && body[|body| - 1] != QUOTE
    ensures BodySpec(verb, body) <==> |body| >= 2 && OpensObject(body) && exists i :: OccursAt(body, MODEL, i)
  {
    hide OpensObject, BodySpec;
    BodyIff(verb, body);
    forall i | OccursAt(body, MODEL, i) ensures i + |MODEL| < |body| {
      assert MODEL[6] == QUOTE && |MODEL| == 7;
      assert body[i..i + 7][6] == body[i + 6];
    }
  }

  /** body_looks_ok */
  method BodyLooksOk(body: string, verb: string) returns (ok: bool)
    ensures ok <==> BodySpec(verb, body)
  {
    hide StrStr, OccursAt;
    if verb == "GET" { return true; }
    if |body| < 2 { return false; }
    var i := 0;
    assert body[0..] == body;
    while i < |body| && Blank(body[i])
      invariant i <= |body| && OpensObject(body[i..]) == OpensObject(body)
    {
      assert body[i..][1..] == body[i + 1..];
      i := i + 1;
    }
    if i >= |body| || body[i] != '{' { return false; }
    if |body| < TMP_BUF {
      var hit := StrStr(UpToNul(body), MODEL);
      return hit.Some?;
    }
    ok := ScanModel(body);
  }

  /** The window loop for a large body. */
  method ScanModel(body: string) returns (ok: bool)
    ensures ok <==> exists i :: OccursAt(body, MODEL, i) && i + |MODEL| < |body|
  {
    assert |MODEL| == 7;
    var i := 0;
    while i + 7 < |body|
      invariant forall j | 0 <= j < i :: !OccursAt(body, MODEL, j)
      decreases |body| - i
    {
      if body[i..i + 7] == MODEL {
        assert OccursAt(body, MODEL, i);
        return true;
      }
      i := i + 1;
    }
    ok := false;
  }

  // ----- failures -----------------------------------------------------------------------

  /** Everything the plugin refuses or gives up. */
  datatype Failure =
    | Disabled | Unauthorized | NotFound | BadBody | RateLimited | PendingFull | NoApiKey
    | UpstreamTimeout | UpstreamConnect | UpstreamTooLarge

  function Code(f: Failure): string {
    match f
    case Disabled => "OPENAI_DISABLED"
    case Unauthorized => "UNAUTHORIZED"
    case NotFound => "NOT_FOUND"
    case BadBody => "BAD_BODY"
    case RateLimited => "RATE_LIMITED"
    case PendingFull => "PENDING_FULL"
    case NoApiKey => "NO_API_KEY"
    case UpstreamTimeout => "UPSTREAM_TIMEOUT"
    case UpstreamConnect => "UPSTREAM_CONNECT"
    case UpstreamTooLarge => "UPSTREAM_TOO_LARGE"
  }

  function StatusOf(f: Failure): nat {
    match f
    case Disabled => 503
    case Unauthorized => 401
    case NotFound => 404
    case BadBody => 400
    case RateLimited => 429
    case PendingFull => 429
    case NoApiKey => 500
    case UpstreamTimeout => 504
    case UpstreamConnect => 502
    case UpstreamTooLarge => 502
  }

  /** The reason phrase, where one is set. */
  function ReasonOf(f: Failure): Option<string> {
    match f
    case RateLimited => Some("Too Many Requests")
    case UpstreamTimeout => Some("Gateway Timeout")
    case UpstreamConnect => Some("Bad Gateway")
    case _ => None
  }

  /** The length the code gives with the text of a failure. */
  function GivenLength(f: Failure): nat {
    match f
    case Disabled => 27
    case Unauthorized => 24
    case NotFound => 20
    case BadBody => 19
    case RateLimited => 24
    case PendingFull => 24
    case NoApiKey => 21
    case UpstreamTimeout => 28
    case UpstreamConnect => 27
    case UpstreamTooLarge => 29
  }

  function ErrorJson(code: string): (text: string)
    ensures |text| == |code| + 12
  {
    "{\"error\":\"" + code + "\"}"
  }

  datatype Reply = Reply(status: nat, reason: string, contentType: string, body: string)

  /** edge_http_res_set_body: a text that does not fit changes nothing. */
  function SetBody(cap: nat, before: string, text: string): string {
    if |text| > cap then before else text
  }

  /** What a failure leaves in the response. */
  function Report(f: Failure, cap: nat, before: Reply): Reply {
    before.(status := StatusOf(f),
            reason := if ReasonOf(f).Some? then ReasonOf(f).value else before.reason,
            body := SetBody(cap, before.body, ErrorJson(Code(f))[..GivenLength(f)]))
  }

  /** With room for it, the JSON of the code is whole exactly if the length is not given
      short: five of the ten texts lose their closing brace. */
  lemma BodyWholeIff(f: Failure, cap: nat, before: Reply)
    requires cap >= 32
    ensures Report(f, cap, before).body == ErrorJson(Code(f))
       <==> f in {Disabled, Unauthorized, RateLimited, PendingFull, UpstreamTimeout}
    ensures Report(f, cap, before).body + "}" == ErrorJson(Code(f))
       <==> f in {NotFound, BadBody, NoApiKey, UpstreamConnect, UpstreamTooLarge}
  {
    var text := ErrorJson(Code(f));
    assert |Report(f, cap, before).body| == GivenLength(f);
    if GivenLength(f) == |text| {
      assert text[..|text|] == text;
    } else {
      assert text == text[..|text| - 1] + "}";
    }
  }

  /** The checks in front of the limits. */
  ghost function Checked(a: Ask): Option<Failure> {
    if !PrincipalAllowed(a.roles) then Some(Unauthorized)
    else if !RouteAllowed(a.verb, a.path) then Some(NotFound)
    else if !BodySpec(a.verb, a.body) then Some(BadBody)
    else None
  }

  method Check(a: Ask) returns (refusal: Option<Failure>)
    ensures refusal == Checked(a)
  {
    hide BodySpec, RouteAllowed, PrincipalAllowed;
    if !PrincipalAllowed(a.roles) { return Some(Unauthorized); }
    if !RouteAllowed(a.verb, a.path) { return Some(NotFound); }
    var ok := BodyLooksOk(a.body, a.verb);
    refusal := if ok then None else Some(BadBody);
  }

  // ----- the upstream request -----------------------------------------------------------

  const URL_BUF: nat := 640
  const AUTH_BUF: nat := 288
  const KEY_MAX: nat := 256

  /** The configured upstream and the key; empty texts stand for what is not set. */
  datatype Target = Target(upstream: string, host: string, addr: string, apiKey: string)

  datatype Outgoing = Outgoing(
    verb: string, url: string, host: string, addr: string, headers: seq<(string, string)>, body: string)

  predicate EndsInSlash(s: string) {
    s != "" && s[|s| - 1] == '/'
  }

  function UpstreamUrl(upstream: string, path: string): string {
    Clip(if EndsInSlash(upstream) then upstream + (if path != "" && path[0] == '/' then path[1..] else path)
         else upstream + path, URL_BUF)
  }

  function OutgoingOf(t: Target, a: Ask): Outgoing {
    Outgoing(a.verb, UpstreamUrl(t.upstream, a.path), t.host, t.addr,
             [("Authorization", Clip("Bearer " + t.apiKey, AUTH_BUF)), ("Content-Type", "application/json")], a.body)
  }

  lemma PathHasSlash(a: Ask)
    requires Checked(a).None?
    ensures a.path != "" && a.path[0] == '/'
  {
    hide BodySpec, PrincipalAllowed;
  }

  /** For every request that passes the checks: the URL is the upstream without a closing
      slash, followed by the path, exactly if that is shorter than the buffer, and a key
      that was accepted at start is sent whole. */
  lemma UrlJoins(t: Target, a: Ask)
    requires Checked(a).None?
    ensures var base := if EndsInSlash(t.upstream) then t.upstream[..|t.upstream| - 1] else t.upstream;
            OutgoingOf(t, a).url == base + a.path <==> |base| + |a.path| < URL_BUF
    ensures |t.apiKey| < KEY_MAX ==> OutgoingOf(t, a).headers[0] == ("Authorization", "Bearer " + t.apiKey)
  {
    hide BodySpec, PrincipalAllowed, Checked, RouteAllowed;
    PathHasSlash(a);
    if EndsInSlash(t.upstream) {
      var base := t.upstream[..|t.upstream| - 1];
      assert t.upstream == base + "/" && "/" + a.path[1..] == a.path;
      assert t.upstream + a.path[1..] == base + a.path;
    }
  }

  // ----- relaying the answer ------------------------------------------------------------

  datatype Transport = Delivered | TimedOut | Broken

  datatype Upstream = Upstream(transport: Transport, status: nat, body: string)

  const JSON := "application/json"

  /** What becomes of an upstream answer, and whether it is relayed. */
  function Relay(up: Upstream, cap: nat, before: Reply): (bool, Reply) {
    match up.transport
    case TimedOut => (false, Report(UpstreamTimeout, cap, before))
    case Broken => (false, Report(UpstreamConnect, cap, before))
    case Delivered =>
      var res := before.(status := up.status, contentType := JSON);
      if up.body == "" then (true, res.(body := SetBody(cap, before.body, "{}")))
      else if |up.body| > cap then (false, Report(UpstreamTooLarge, cap, res))
      else (true, res.(body := up.body))
  }

  /** A timeout is 504, a broken connection and an answer too large to relay are 502, and what
      was delivered keeps its status; an empty answer becomes an empty object. */
  lemma RelayTells(up: Upstream, cap: nat, before: Reply)
    requires cap >= 32
    ensures var (ok, res) := Relay(up, cap, before);
            match up.transport
            case TimedOut => !ok && res.status == 504 && res.reason == "Gateway Timeout" && res.body == "{\"error\":\"UPSTREAM_TIMEOUT\"}"
            case Broken => !ok && res.status == 502 && res.reason == "Bad Gateway" && res.body == "{\"error\":\"UPSTREAM_CONNECT\""
            case Delivered =>
              if |up.body| > cap then !ok && res.status == 502 && res.body == "{\"error\":\"UPSTREAM_TOO_LARGE\""
              else ok && res.status == up.status && res.contentType == "application/json"
                   && res.body == if up.body == "" then "{}" else up.body
  {
    ErrorTexts();
    hide ErrorJson;
  }

  lemma ErrorTexts()
    ensures ErrorJson("UPSTREAM_TIMEOUT")[..28] == "{\"error\":\"UPSTREAM_TIMEOUT\"}"
    ensures ErrorJson("UPSTREAM_CONNECT")[..27] == "{\"error\":\"UPSTREAM_CONNECT\""
    ensures ErrorJson("UPSTREAM_TOO_LARGE")[..29] == "{\"error\":\"UPSTREAM_TOO_LARGE\""
  {}

  /** An answer is relayed exactly if it was delivered and fits. */
  predicate Fits(up: Upstream, cap: nat) {
    up.transport == Delivered && |up.body| <= cap
  }

  lemma RelayedIff(up: Upstream, cap: nat, before: Reply)
    ensures Relay(up, cap, before).0 <==> Fits(up, cap)
    ensures Relay(up, cap, before).0 && up.body != "" ==>
              Relay(up, cap, before).1 == Reply(up.status, before.reason, JSON, up.body)
  {}
}
