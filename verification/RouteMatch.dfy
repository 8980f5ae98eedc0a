/** src/host/plugin_host.c, edge_plugin_host_match: which plugin a path belongs to. */
module RouteMatch {
  import opened Text

  datatype Route = Route(prefix: string, plugin: nat)

  /** The prefix covers the path up to its end or a slash. */
  predicate Applies(r: Route, path: string) {
    && r.prefix != "" && r.prefix <= path
    && (|path| == |r.prefix| || path[|r.prefix|] == '/' || r.prefix[|r.prefix| - 1] == '/')
  }

  /** A prefix covers itself, everything behind it and a slash, and, if it ends in a slash,
      everything that begins with it; so "/v1" does not cover "/v10". */
  lemma CoversIff(r: Route, path: string)
    requires r.prefix != ""
    ensures Applies(r, path)
       <==> path == r.prefix || r.prefix + "/" <= path || (r.prefix[|r.prefix| - 1] == '/' && r.prefix <= path)
  {
    var n := |r.prefix|;
    if r.prefix <= path && n < |path| {
      assert path[n] == '/' ==> path[..n + 1] == r.prefix + "/";
    }
    if r.prefix + "/" <= path { assert path[n] == (r.prefix + "/")[n]; }
  }

  /** Route `i` applies, none that applies is longer, and it is the last of its length. */
  ghost predicate Best(routes: seq<Route>, path: string, i: nat) {
    && i < |routes| && Applies(routes[i], path)
    && forall j | 0 <= j < |routes| && Applies(routes[j], path) ::
         |routes[j].prefix| < |routes[i].prefix| || (|routes[j].prefix| == |routes[i].prefix| && j <= i)
  }

  /** A tie is a prefix registered twice, so the later registration replaces the earlier. */
  lemma TiesAreDuplicates(r: Route, r': Route, path: string)
    requires Applies(r, path) && Applies(r', path) && |r.prefix| == |r'.prefix|
    ensures r.prefix == r'.prefix
  {
    assert r.prefix == path[..|r.prefix|] && r'.prefix == path[..|r'.prefix|];
  }

  /** There is at most one best route. */
  lemma BestIsUnique(routes: seq<Route>, path: string, i: nat, j: nat)
    requires Best(routes, path, i) && Best(routes, path, j)
    ensures i == j
  {}

  /** edge_plugin_host_match */
  method Match(routes: seq<Route>, path: string) returns (best: Option<nat>)
    ensures best.None? <==> forall j | 0 <= j < |routes| :: !Applies(routes[j], path)
    ensures best.Some? ==> exists i: nat :: Best(routes, path, i) && best.value == routes[i].plugin
  {
    best := None;
    var bestLen := 0;
    ghost var at: nat := 0;
    for i := 0 to |routes|
      invariant best.None? ==> bestLen == 0 && forall j | 0 <= j < i :: !Applies(routes[j], path)
      invariant best.Some? ==> at < i && Best(routes[..i], path, at) && bestLen == |routes[at].prefix| && best.value == routes[at].plugin
    {
      var prefix := routes[i].prefix;
      var plen := |prefix|;
      if plen > 0 && prefix <= path && (|path| == plen || path[plen] == '/' || prefix[plen - 1] == '/') && plen >= bestLen {
        bestLen := plen;
        best := Some(routes[i].plugin);
        at := i;
      }
    }
    assert routes[..|routes|] == routes;
  }
}
