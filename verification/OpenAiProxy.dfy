/** src/plugins/openai_proxy.c: the proxy plugin on top of the PENDING protocol, and what
    its in_flight counter counts. */
module OpenAiProxy {
  import opened Text
  import opened OpenAiHttp
  import opened Pending
  import opened PluginHost
  import opened RateLimit

  const PROXY := Plugin(1, true)

  datatype Config = Config(enabled: bool, rpm: nat, maxConcurrent: nat, timeoutMs: nat, target: Target)

  datatype Counters = Counters(w: Window, inFlight: nat)

  /** A request to the proxy at second `now`. */
  datatype Visit = Visit(slot: nat, ask: Ask, now: nat)

  /** The checks before http_client_request. */
  ghost function Admit(cfg: Config, c: Counters, v: Visit): (bool, Counters) {
    if !cfg.enabled || Checked(v.ask).Some? then (false, c)
    else
      var (ok, w) := RateStep(cfg.rpm, c.w, v.now);
      var full := cfg.maxConcurrent > 0 && c.inFlight >= cfg.maxConcurrent;
      (ok && !full && cfg.target.apiKey != "", c.(w := w))
  }

  /** Why a visit is refused, in the order of the checks. */
  ghost function Refusal(cfg: Config, c: Counters, v: Visit): Failure {
    if !cfg.enabled then Disabled
    else if Checked(v.ask).Some? then Checked(v.ask).value
    else if !RateStep(cfg.rpm, c.w, v.now).0 then RateLimited
    else if cfg.maxConcurrent > 0 && c.inFlight >= cfg.maxConcurrent then PendingFull
    else if cfg.target.apiKey == "" then NoApiKey
    else PendingFull
  }

  /** Who is let through, told without the checks of the code: the plugin is enabled and has
      a key, the principal may ask and the route is served, the body names a model, the
      limiter and the maximum leave room. */
  lemma AdmittedIff(cfg: Config, c: Counters, v: Visit)
    ensures Admit(cfg, c, v).0 <==>
              && cfg.enabled && cfg.target.apiKey != "" && MayEnter(v.ask.roles) && Served(v.ask.verb, v.ask.path)
              && BodySpec(v.ask.verb, v.ask.body) && RateStep(cfg.rpm, c.w, v.now).0
              && (cfg.maxConcurrent == 0 || c.inFlight < cfg.maxConcurrent)
  {
    hide BodySpec, PrincipalAllowed, RouteAllowed, MayEnter, Served, RateStep;
    GatesAre(v.ask);
  }

  /** The status of whoever is not, by the first check that fails. */
  lemma RefusedWith(cfg: Config, c: Counters, v: Visit, cap: nat, before: Reply)
    ensures Report(Refusal(cfg, c, v), cap, before).status ==
              if !cfg.enabled then 503
              else if !MayEnter(v.ask.roles) then 401
              else if !Served(v.ask.verb, v.ask.path) then 404
              else if !BodySpec(v.ask.verb, v.ask.body) then 400
              else if RateStep(cfg.rpm, c.w, v.now).0 && (cfg.maxConcurrent == 0 || c.inFlight < cfg.maxConcurrent)
                      && cfg.target.apiKey == "" then 500
              else 429
  {
    hide BodySpec, PrincipalAllowed, RouteAllowed, MayEnter, Served, RateStep, SetBody, ErrorJson;
    GatesAre(v.ask);
  }

  function Asks(cfg: Config, v: Visit): Event {
    Request(true, v.slot, cfg.timeoutMs)
  }

  predicate Parks(h: HostState) {
    Accepts(h, true) && MintedId(h.next) !in h.parked
  }

  class Proxy {
    const cfg: Config
    var windowStart: nat
    var hits: nat
    var inFlight: nat

    ghost function View(): Counters
      reads this
    {
      Counters(Window(windowStart, hits), inFlight)
    }

    constructor (cfg: Config)
      ensures this.cfg == cfg && View() == Counters(Window(0, 0), 0)
    {
      this.cfg := cfg;
      windowStart, hits, inFlight := 0, 0, 0;
    }

    /** rate_limit_ok at second `now`. */
    method RateLimitOk(now: nat) returns (ok: bool)
      modifies this`windowStart, this`hits
      ensures (ok, View().w) == RateStep(cfg.rpm, old(View()).w, now)
    {
      if cfg.rpm == 0 { return true; }
      if windowStart == 0 || now >= windowStart + WINDOW {
        windowStart := now;
        hits := 0;
      }
      if hits >= cfg.rpm { return false; }
      hits := hits + 1;
      ok := true;
    }

    /** openai_on_http, called between the two halves of a dispatch with a response buffer
        of `cap` bytes; `sent` is what it passes to http_client_request. */
    method OnHttp(host: Host, v: Visit, cap: nat, before: Reply) returns (st: Status, reply: Reply, sent: Option<Outgoing>)
      requires host.Valid()
      modifies this, host, host.pending`count, host.pending.slots
      ensures host.Valid()
      ensures var (go, c) := Admit(cfg, old(View()), v);
              var parks := go && Parks(old(host.View()));
              && st == (if parks then InFlight else Failed)
              && View() == (if parks then c.(inFlight := c.inFlight + 1) else c)
              && host.View() == (if go then Step(old(host.View()), Asks(cfg, v)) else old(host.View()))
              && sent == (if go then Some(OutgoingOf(cfg.target, v.ask)) else None)
      ensures reply == if st == InFlight then before else Report(Refusal(cfg, old(View()), v), cap, before)
    {
      hide Checked, Step, Accepts, Report, UpstreamUrl;
      st, sent := Failed, None;
      if !cfg.enabled { return st, Report(Disabled, cap, before), sent; }
      var refusal := Check(v.ask);
      if refusal.Some? { return st, Report(refusal.value, cap, before), sent; }
      var ok := RateLimitOk(v.now);
      if !ok { return st, Report(RateLimited, cap, before), sent; }
      if cfg.maxConcurrent > 0 && inFlight >= cfg.maxConcurrent { return st, Report(PendingFull, cap, before), sent; }
      if |cfg.target.apiKey| == 0 { return st, Report(NoApiKey, cap, before), sent; }
      var auth := Clip("Bearer " + cfg.target.apiKey, AUTH_BUF);
      sent := Some(Outgoing(v.ask.verb, UpstreamUrl(cfg.target.upstream, v.ask.path), cfg.target.host, cfg.target.addr,
                            [("Authorization", auth), ("Content-Type", "application/json")], v.ask.body));
      var id := host.HttpClientRequest(true, v.slot, cfg.timeoutMs);
      if id.None? { return st, Report(PendingFull, cap, before), sent; }
      inFlight := inFlight + 1;
      st, reply := InFlight, before;
    }

    /** openai_on_http_complete with a response buffer of `cap` bytes. */
    method OnHttpComplete(up: Upstream, cap: nat, before: Reply) returns (st: Status, reply: Reply)
      modifies this`inFlight
      ensures View() == Completed(old(View()))
      ensures (st, reply) == (if Relay(up, cap, before).0 then Done else Failed, Relay(up, cap, before).1)
    {
      hide Report;
      if inFlight > 0 { inFlight := inFlight - 1; }
      if up.transport != Delivered {
        if up.transport == TimedOut { return Failed, Report(UpstreamTimeout, cap, before); }
        return Failed, Report(UpstreamConnect, cap, before);
      }
      reply := before.(status := up.status, contentType := JSON);
      if |up.body| > 0 {
        if |up.body| > cap { return Failed, Report(UpstreamTooLarge, cap, reply); }
        return Done, reply.(body := up.body);
      }
      return Done, reply.(body := SetBody(cap, before.body, "{}"));
    }

    /** edge_plugin_host_complete_outbound: the entry's plugin is called, be it this one,
        or another that answers `other`. */
    method Complete(host: Host, id: nat, up: Upstream, cap: nat, before: Reply, other: Status) returns (st: Status)
      requires host.Valid()
      modifies this`inFlight, host.pending`count, host.pending.slots
      ensures host.Valid()
      ensures (host.View(), View()) == OtherStep(old(host.View()), old(View()), Event.Complete(id))
      ensures st == if CallsComplete(old(host.View()), Event.Complete(id))
                       && (if old(host.View()).parked[id].plugin == PROXY then Fits(up, cap) else other == Done)
                    then Done else Failed
    {
      hide Step, Relay;
      RelayedIff(up, cap, before);
      host.pending.ZeroAbsent();
      var entry := host.pending.FindOutbound(id);
      var result := other;
      if id != 0 && entry.Some? && host.pending.slots[entry.value].park.plugin == PROXY {
        var reply;
        result, reply := OnHttpComplete(up, cap, before);
      }
      var called;
      st, called := host.CompleteOutbound(id, result);
    }

    /** edge_plugin_host_dispatch_http with this plugin. */
    method Dispatch(host: Host, v: Visit, cap: nat, before: Reply) returns (st: Status)
      requires host.Valid() && host.active.None?
      modifies this, host, host.pending`count, host.pending.slots
      ensures host.Valid()
      ensures (host.View(), View()) == VisitStep(cfg, old(host.View()), old(View()), v)
      ensures st == Failed || st == InFlight
    {
      var entered := host.EnterOnHttp(PROXY, true, v.slot);
      if !entered { return Failed; }
      var result, reply, sent := OnHttp(host, v, cap, before);
      st := host.LeaveOnHttp(result);
    }
  }

  /** The counters after on_http_complete. */
  function Completed(c: Counters): Counters {
    c.(inFlight := if c.inFlight > 0 then c.inFlight - 1 else 0)
  }

  /** Any event of the protocol but a visit: a completion of this plugin's request calls
      its on_http_complete. */
  function OtherStep(h: HostState, c: Counters, e: Event): (HostState, Counters) {
    (Step(h, e), if CallsComplete(h, e) && h.parked[e.id].plugin == PROXY then Completed(c) else c)
  }

  function Entered(v: Visit): Event {
    Enter(PROXY, true, v.slot)
  }

  ghost function VisitStep(cfg: Config, h: HostState, c: Counters, v: Visit): (HostState, Counters) {
    if !Enters(h, Entered(v)) then (h, c)
    else
      var h1 := Step(h, Entered(v));
      var (go, c1) := Admit(cfg, c, v);
      if !go then (Step(h1, Leave(Failed)), c1)
      else
        (Step(Step(h1, Asks(cfg, v)), Leave(if Parks(h1) then InFlight else Failed)),
         if Parks(h1) then c1.(inFlight := c1.inFlight + 1) else c1)
  }

  // ----- whole runs -----------------------------------------------------------------

  /** A visit to the proxy, or any other event of the protocol. */
  datatype Happening = Visited(v: Visit) | Other(e: Event)

  datatype World = World(t: Trace, c: Counters)

  /** Other plugins dispatch under their own number, and a visit does not interrupt the
      on_http of another plugin. */
  predicate Possible(s: World, x: Happening) {
    match x
    case Visited(v) => s.t.host.active.None?
    case Other(e) => e.Enter? ==> e.plugin.number != PROXY.number
  }

  ghost function VisitTrace(cfg: Config, s: World, v: Visit): World {
    if !Enters(s.t.host, Entered(v)) then s
    else
      var t1 := TraceStep(s.t, Entered(v));
      var (go, c1) := Admit(cfg, s.c, v);
      if !go then World(TraceStep(t1, Leave(Failed)), c1)
      else
        World(TraceStep(TraceStep(t1, Asks(cfg, v)), Leave(if Parks(t1.host) then InFlight else Failed)),
              if Parks(t1.host) then c1.(inFlight := c1.inFlight + 1) else c1)
  }

  ghost function Next(cfg: Config, s: World, x: Happening): World {
    match x
    case Visited(v) => VisitTrace(cfg, s, v)
    case Other(e) => World(TraceStep(s.t, e), OtherStep(s.t.host, s.c, e).1)
  }

  /** The host and the counters of a trace move as the methods above say. */
  lemma VisitTraceIsDispatch(cfg: Config, s: World, v: Visit)
    ensures var s' := VisitTrace(cfg, s, v);
            (s'.t.host, s'.c) == VisitStep(cfg, s.t.host, s.c, v)
  {
    hide Step, Gone, Accepts, Dropped, MintedId, Admit;
  }

  ghost function RunAll(cfg: Config, cap: nat, xs: seq<Happening>): World {
    if xs == [] then World(PluginHost.Run(cap, []), Counters(Window(0, 0), 0))
    else Next(cfg, RunAll(cfg, cap, xs[..|xs| - 1]), xs[|xs| - 1])
  }

  ghost predicate AllPossible(cfg: Config, cap: nat, xs: seq<Happening>) {
    forall i | 0 <= i < |xs| :: Possible(RunAll(cfg, cap, xs[..i]), xs[i])
  }

  function Mine(p: Parked): set<nat> {
    set id | id in p && p[id].plugin.number == PROXY.number
  }

  function MineLost(r: map<nat, Plugin>): set<nat> {
    set id | id in r && r[id].number == PROXY.number
  }

  ghost predicate Accounted(cfg: Config, s: World) {
    && TraceOk(s.t)
    && (forall id | id in Mine(s.t.host.parked) :: s.t.host.parked[id].plugin == PROXY)
    && (s.t.host.active.Some? ==> s.t.host.active.value.plugin.number != PROXY.number)
    && s.c.inFlight == |Mine(s.t.host.parked)| + |MineLost(s.t.released)|
    && (cfg.maxConcurrent > 0 ==> s.c.inFlight <= cfg.maxConcurrent)
  }

  lemma MovedSize(mine: set<nat>, gone: set<nat>, lost: set<nat>)
    requires lost * mine == {}
    ensures |mine - gone| + |lost + mine * gone| == |mine| + |lost|
  {
    assert mine == (mine - gone) + mine * gone;
    assert |mine| == |mine - gone| + |mine * gone|;
    assert |lost + mine * gone| == |lost| + |mine * gone|;
  }

  lemma MineMoves(t: Trace, e: Event)
    requires IdsOk(t) && !e.Request? && !CallsComplete(t.host, e)
    ensures Mine(TraceStep(t, e).host.parked) == Mine(t.host.parked) - Gone(t.host, e)
    ensures MineLost(TraceStep(t, e).released) == MineLost(t.released) + Mine(t.host.parked) * Gone(t.host, e)
    ensures MineLost(t.released) * Mine(t.host.parked) == {}
  {
    var t', gone := TraceStep(t, e), Gone(t.host, e);
    assert gone <= t.host.parked.Keys;
    assert t'.host.parked == t.host.parked - gone;
    assert t'.released == t.released + Dropped(t.host, e);
    hide Step, Gone, TraceStep;
    assert Dropped(t.host, e).Keys == gone;
  }

  /** Parked requests that leave without completion stay counted. */
  lemma ReleaseKeepsCount(t: Trace, e: Event)
    requires IdsOk(t) && !e.Request? && !CallsComplete(t.host, e)
    ensures var t' := TraceStep(t, e);
            |Mine(t'.host.parked)| + |MineLost(t'.released)| == |Mine(t.host.parked)| + |MineLost(t.released)|
            && Mine(t'.host.parked) <= Mine(t.host.parked)
  {
    hide TraceStep, Gone, IdsOk;
    MineMoves(t, e);
    MovedSize(Mine(t.host.parked), Gone(t.host, e), MineLost(t.released));
  }

  lemma CallCount(t: Trace, e: Event)
    requires IdsOk(t) && CallsComplete(t.host, e)
    ensures TraceStep(t, e).released == t.released
    ensures Mine(TraceStep(t, e).host.parked) == Mine(t.host.parked) - {e.id}
  {
    assert TraceStep(t, e).host.parked == t.host.parked - {e.id};
  }

  lemma MineAdded(p: Parked, id: nat, park: Park)
    requires id !in p
    ensures Mine(p[id := park]) == if park.plugin.number == PROXY.number then Mine(p) + {id} else Mine(p)
  {}

  lemma RequestCount(t: Trace, e: Event)
    requires e.Request?
    ensures TraceStep(t, e).released == t.released
    ensures Mine(TraceStep(t, e).host.parked) ==
              if Accepts(t.host, e.good) && MintedId(t.host.next) !in t.host.parked
                 && t.host.active.value.plugin.number == PROXY.number
              then Mine(t.host.parked) + {MintedId(t.host.next)} else Mine(t.host.parked)
  {
    hide Mine;
    assert Dropped(t.host, e) == map[];
    if Accepts(t.host, e.good) && MintedId(t.host.next) !in t.host.parked {
      MineAdded(t.host.parked, MintedId(t.host.next), NewPark(t.host.active.value, e.tag, e.timeoutMs));
    }
  }

  lemma OtherKeepsAccount(cfg: Config, s: World, e: Event)
    requires Accounted(cfg, s) && Possible(s, Other(e)) && Next(cfg, s, Other(e)).t.minted < ID_SPACE - 1
    ensures Accounted(cfg, Next(cfg, s, Other(e)))
  {
    hide IdsOk, SlotsOk;
    StepKeepsTrace(s.t, e);
    if CallsComplete(s.t.host, e) {
      CallCount(s.t, e);
    } else if e.Request? {
      RequestCount(s.t, e);
    } else {
      ReleaseKeepsCount(s.t, e);
    }
  }

  lemma AskCounts(t: Trace, e: Event)
    requires TraceOk(t) && e.Request? && e.good && TraceStep(t, e).minted < ID_SPACE - 1
    requires t.host.active.Some? && t.host.active.value.plugin == PROXY
    ensures Parks(t.host) ==> TraceStep(t, e).host.started
                              && |Mine(TraceStep(t, e).host.parked)| == |Mine(t.host.parked)| + 1
    ensures !Parks(t.host) ==> TraceStep(t, e).host == t.host
    ensures TraceStep(t, e).released == t.released
    ensures forall id | id in Mine(TraceStep(t, e).host.parked) ::
              (id in Mine(t.host.parked) && TraceStep(t, e).host.parked[id] == t.host.parked[id])
              || TraceStep(t, e).host.parked[id].plugin == PROXY
  {
    RequestKeepsTrace(t, e);
    RequestCount(t, e);
    hide Accepts, IdsOk, SlotsOk;
    assert MintedId(t.host.next) !in t.host.parked ==> MintedId(t.host.next) !in Mine(t.host.parked);
  }

  lemma VisitKeepsAccount(cfg: Config, s: World, v: Visit)
    requires Accounted(cfg, s) && Possible(s, Visited(v)) && Next(cfg, s, Visited(v)).t.minted < ID_SPACE - 1
    ensures Accounted(cfg, Next(cfg, s, Visited(v))) && Next(cfg, s, Visited(v)).t.released == s.t.released
  {
    hide TraceStep, TraceOk, Step, Enters, Accepts, Parks, Mine, MineLost, Checked;
    if Enters(s.t.host, Entered(v)) {
      var t1 := TraceStep(s.t, Entered(v));
      EnterEffect(s.t, PROXY, v.slot);
      var (go, c1) := Admit(cfg, s.c, v);
      if !go {
        LeaveEffect(t1, Failed);
        StepKeepsTrace(s.t, Entered(v));
        StepKeepsTrace(t1, Leave(Failed));
      } else {
        var t2 := TraceStep(t1, Asks(cfg, v));
        var r := if Parks(t1.host) then InFlight else Failed;
        MintedGrows(t1, Asks(cfg, v));
        MintedGrows(t2, Leave(r));
        StepKeepsTrace(s.t, Entered(v));
        StepKeepsTrace(t1, Asks(cfg, v));
        AskCounts(t1, Asks(cfg, v));
        LeaveEffect(t2, r);
        StepKeepsTrace(t2, Leave(r));
      }
    }
  }

  lemma NextMinted(cfg: Config, s: World, x: Happening)
    ensures s.t.minted <= Next(cfg, s, x).t.minted
  {}

  /** In every possible run: in_flight is the number of this plugin's parked requests plus
      those released without completion, and never exceeds a non-zero maximum. */
  lemma {:induction false} InFlightRun(cfg: Config, cap: nat, xs: seq<Happening>)
    requires AllPossible(cfg, cap, xs) && RunAll(cfg, cap, xs).t.minted < ID_SPACE - 1
    ensures Accounted(cfg, RunAll(cfg, cap, xs))
  {
    if xs == [] {
      ProtocolRun(cap, []);
      assert Mine(map[]) == {} && MineLost(map[]) == {};
    } else {
      var n := |xs| - 1;
      var init := xs[..n];
      assert forall i | 0 <= i < n :: init[..i] == xs[..i];
      var s := RunAll(cfg, cap, init);
      NextMinted(cfg, s, xs[n]);
      InFlightRun(cfg, cap, init);
      match xs[n]
      case Visited(v) => VisitKeepsAccount(cfg, s, v);
      case Other(e) => OtherKeepsAccount(cfg, s, e);
    }
  }

  /** In every run a visit that is let through, to a slot with nothing parked and a table with
      room, is parked under the next id with the slot as tag and the configured timeout, and
      counted once. */
  lemma AdmittedIsParked(cfg: Config, cap: nat, xs: seq<Happening>, v: Visit)
    requires AllPossible(cfg, cap, xs) && RunAll(cfg, cap, xs).t.minted < ID_SPACE - 2
    requires var s := RunAll(cfg, cap, xs);
             && s.t.host.active.None? && Admit(cfg, s.c, v).0
             && |s.t.host.parked| < s.t.host.cap && !InboundParked(s.t.host.parked, v.slot)
    ensures var s, s' := RunAll(cfg, cap, xs), Next(cfg, RunAll(cfg, cap, xs), Visited(v));
            && s'.t.host.parked == s.t.host.parked[s.t.minted + 1 := Park(v.slot, PROXY, v.slot, cfg.timeoutMs, 0, "")]
            && s'.c.inFlight == s.c.inFlight + 1 && s'.t.minted == s.t.minted + 1
  {
    hide RunAll, TraceStep, TraceOk, Accepts, AllPossible, Checked, RateStep, Mine, MineLost;
    var s := RunAll(cfg, cap, xs);
    InFlightRun(cfg, cap, xs);
    EnterEffect(s.t, PROXY, v.slot);
    var a := TraceStep(s.t, Entered(v));
    PluginHost.MayAsk(s.t, a, PROXY, v.slot);
    RequestMade(a, v.slot, cfg.timeoutMs);
    WillPark(a);
    LeaveEffect(TraceStep(a, Asks(cfg, v)), InFlight);
  }

  lemma WillPark(t: Trace)
    requires TraceOk(t) && Accepts(t.host, true) && t.minted < ID_SPACE - 2
    ensures Parks(t.host)
  {}

  // ----- what the leak means ----------------------------------------------------------------

  /** Requests released without completion stay released. */
  lemma ReleasedStays(t: Trace, e: Event)
    requires IdsOk(t)
    ensures MineLost(t.released) <= MineLost(TraceStep(t, e).released)
  {
    hide Step, Gone;
    assert forall id | id in t.released :: id !in Dropped(t.host, e);
  }

  lemma LostStays(cfg: Config, s: World, x: Happening)
    requires Accounted(cfg, s) && Possible(s, x) && Next(cfg, s, x).t.minted < ID_SPACE - 1
    ensures MineLost(s.t.released) <= MineLost(Next(cfg, s, x).t.released)
  {
    hide IdsOk, SlotsOk, MineLost, VisitTrace, TraceStep;
    match x
    case Other(e) => ReleasedStays(s.t, e);
    case Visited(v) => VisitKeepsAccount(cfg, s, v);
  }

  lemma PrefixPossible(cfg: Config, cap: nat, xs: seq<Happening>, n: nat)
    requires AllPossible(cfg, cap, xs) && n <= |xs|
    ensures AllPossible(cfg, cap, xs[..n])
  {
    hide Possible;
    assert forall i | 0 <= i < n :: xs[..n][..i] == xs[..i];
  }

  lemma {:induction false} LostGrows(cfg: Config, cap: nat, xs: seq<Happening>, n: nat)
    requires AllPossible(cfg, cap, xs) && n <= |xs| && RunAll(cfg, cap, xs).t.minted < ID_SPACE - 1
    ensures MineLost(RunAll(cfg, cap, xs[..n]).t.released) <= MineLost(RunAll(cfg, cap, xs).t.released)
    decreases |xs|
  {
    hide Next, Accounted, MineLost, Possible;
    if n == |xs| {
      assert xs[..n] == xs;
    } else {
      var m := |xs| - 1;
      PrefixPossible(cfg, cap, xs, m);
      NextMinted(cfg, RunAll(cfg, cap, xs[..m]), xs[m]);
      assert xs[..m][..n] == xs[..n];
      LostGrows(cfg, cap, xs[..m], n);
      InFlightRun(cfg, cap, xs[..m]);
      LostStays(cfg, RunAll(cfg, cap, xs[..m]), xs[m]);
    }
  }

  /** Once as many requests as the maximum were released without completion, no visit is
      ever admitted again. */
  lemma StarvedForEver(cfg: Config, cap: nat, xs: seq<Happening>, n: nat, v: Visit)
    requires AllPossible(cfg, cap, xs) && n <= |xs| && RunAll(cfg, cap, xs).t.minted < ID_SPACE - 1
    requires cfg.maxConcurrent > 0 && |MineLost(RunAll(cfg, cap, xs[..n]).t.released)| >= cfg.maxConcurrent
    ensures !Admit(cfg, RunAll(cfg, cap, xs).c, v).0
  {
    hide RunAll, AllPossible, Checked, TraceOk, RateStep, Mine, MineLost;
    var lost, lost' := MineLost(RunAll(cfg, cap, xs[..n]).t.released), MineLost(RunAll(cfg, cap, xs).t.released);
    LostGrows(cfg, cap, xs, n);
    assert lost' == lost + (lost' - lost);
    InFlightRun(cfg, cap, xs);
  }

  lemma CompleteOne(cfg: Config, cap: nat, xs: seq<Happening>, id: nat)
    requires AllPossible(cfg, cap, xs) && RunAll(cfg, cap, xs).t.minted < ID_SPACE - 1
    requires id in Mine(RunAll(cfg, cap, xs).t.host.parked)
    ensures var ys := xs + [Other(Event.Complete(id))];
            var s, s' := RunAll(cfg, cap, xs), RunAll(cfg, cap, ys);
            && AllPossible(cfg, cap, ys) && s'.t.minted == s.t.minted && s'.t.released == s.t.released
            && Mine(s'.t.host.parked) == Mine(s.t.host.parked) - {id}
  {
    hide Mine, Step, IdsOk;
    var ys := xs + [Other(Event.Complete(id))];
    assert ys[..|xs|] == xs;
    assert forall i | 0 <= i < |xs| :: ys[..i] == xs[..i];
    InFlightRun(cfg, cap, xs);
    var s := RunAll(cfg, cap, xs);
    MineCompletes(cfg, s, id);
    CallCount(s.t, Event.Complete(id));
  }

  lemma MineCompletes(cfg: Config, s: World, id: nat)
    requires Accounted(cfg, s) && id in Mine(s.t.host.parked)
    ensures CallsComplete(s.t.host, Event.Complete(id)) && IdsOk(s.t)
    ensures Next(cfg, s, Other(Event.Complete(id))).t.minted == s.t.minted
  {}

  /** Every possible run can be continued to one in which none of the parked requests of
      this plugin is left. */
  lemma {:induction false} Drained(cfg: Config, cap: nat, xs: seq<Happening>) returns (ys: seq<Happening>)
    requires AllPossible(cfg, cap, xs) && RunAll(cfg, cap, xs).t.minted < ID_SPACE - 1
    ensures var s, s' := RunAll(cfg, cap, xs), RunAll(cfg, cap, xs + ys);
            && AllPossible(cfg, cap, xs + ys) && s'.t.minted == s.t.minted && s'.t.released == s.t.released
            && Mine(s'.t.host.parked) == {}
    decreases |Mine(RunAll(cfg, cap, xs).t.host.parked)|
  {
    hide Mine, RunAll, AllPossible;
    var mine := Mine(RunAll(cfg, cap, xs).t.host.parked);
    if mine == {} {
      ys := [];
      assert xs + ys == xs;
    } else {
      var id :| id in mine;
      var e := Other(Event.Complete(id));
      CompleteOne(cfg, cap, xs, id);
      assert mine == (mine - {id}) + {id};
      var rest := Drained(cfg, cap, xs + [e]);
      ys := [e] + rest;
      assert xs + ys == (xs + [e]) + rest;
    }
  }

  /** At the maximum in every continuation of a run. */
  ghost predicate Starved(cfg: Config, cap: nat, xs: seq<Happening>) {
    forall ys | AllPossible(cfg, cap, xs + ys) && RunAll(cfg, cap, xs + ys).t.minted < ID_SPACE - 1 ::
      RunAll(cfg, cap, xs + ys).c.inFlight >= cfg.maxConcurrent
  }

  /** in_flight stays at the maximum for ever if and only if as many requests as the maximum
      were released without completion: with fewer, completing what is parked ends it. */
  lemma StarvedIff(cfg: Config, cap: nat, xs: seq<Happening>)
    requires AllPossible(cfg, cap, xs) && RunAll(cfg, cap, xs).t.minted < ID_SPACE - 1 && cfg.maxConcurrent > 0
    ensures Starved(cfg, cap, xs) <==> |MineLost(RunAll(cfg, cap, xs).t.released)| >= cfg.maxConcurrent
  {
    hide RunAll, AllPossible, TraceOk, Mine, MineLost;
    var lost := MineLost(RunAll(cfg, cap, xs).t.released);
    if |lost| >= cfg.maxConcurrent {
      forall ys | AllPossible(cfg, cap, xs + ys) && RunAll(cfg, cap, xs + ys).t.minted < ID_SPACE - 1
        ensures RunAll(cfg, cap, xs + ys).c.inFlight >= cfg.maxConcurrent
      {
        assert (xs + ys)[..|xs|] == xs;
        LostGrows(cfg, cap, xs + ys, |xs|);
        var lost' := MineLost(RunAll(cfg, cap, xs + ys).t.released);
        assert lost' == lost + (lost' - lost);
        InFlightRun(cfg, cap, xs + ys);
      }
    } else {
      var ys := Drained(cfg, cap, xs);
      InFlightRun(cfg, cap, xs + ys);
    }
  }
}
