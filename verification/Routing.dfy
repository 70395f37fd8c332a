/**
 Host and path routing (internal/proxy/handler/proxy.go): which virtual host, which path
 route and which backend list a request gets, and what path is sent upstream.
 */
module Routing {
  import opened Base
  import opened Config
  import opened Snapshots
  import opened ServiceModel

  // ----- Matching and stripping

  function PathRouteMatches(requestPath: string, routePath: string): bool {
    if routePath == "/" then HasPrefix(requestPath, "/")
    else requestPath == routePath || HasPrefix(requestPath, routePath + "/")
  }

  function TrimPrefix(s: string, prefix: string): string {
    if prefix <= s then s[|prefix|..] else s
  }

  function StripRoutePrefix(requestPath: string, routePrefix: string): string {
    var stripped := TrimPrefix(requestPath, routePrefix);
    if stripped == "" then "/"
    else if !HasPrefix(stripped, "/") then "/" + stripped
    else stripped
  }

  lemma MatchIsPrefix(requestPath: string, routePath: string)
    requires PathRouteMatches(requestPath, routePath)
    ensures routePath <= requestPath
  {
    if routePath != "/" && requestPath != routePath {
      assert requestPath[..|routePath|] == (routePath + "/")[..|routePath|] == routePath;
    }
  }

  /** Two matching routes of the same length are the same path. */
  lemma EqualLengthMatchesAreEqual(requestPath: string, a: string, b: string)
    requires PathRouteMatches(requestPath, a) && PathRouteMatches(requestPath, b) && |a| == |b|
    ensures a == b
  {
    MatchIsPrefix(requestPath, a);
    MatchIsPrefix(requestPath, b);
    assert a == requestPath[..|a|] == b;
  }

  /** Segments, not characters: a match is followed by the end of the path or a slash. */
  lemma MatchEndsAtSegment(requestPath: string, routePath: string)
    requires routePath != "/"
    ensures PathRouteMatches(requestPath, routePath) <==>
            routePath <= requestPath && (|requestPath| == |routePath| || requestPath[|routePath|] == '/')
  {
    var n := |routePath|;
    if PathRouteMatches(requestPath, routePath) {
      MatchIsPrefix(requestPath, routePath);
    }
    if routePath <= requestPath && |requestPath| > n {
      assert requestPath[..n + 1] == routePath + [requestPath[n]];
      assert HasPrefix(requestPath, routePath + "/") <==> requestPath[n] == '/';
    }
  }

  /** The root route matches every rooted path, and no other. */
  lemma RootMatchesRooted(requestPath: string)
    ensures PathRouteMatches(requestPath, "/") <==> requestPath != "" && requestPath[0] == '/'
  {
  }

  /** Stripping a matched non-root route: the rest of the path, rooted, which rejoins to the original. */
  lemma StripRejoins(requestPath: string, routePath: string)
    requires PathRouteMatches(requestPath, routePath) && routePath != "/"
    ensures HasPrefix(StripRoutePrefix(requestPath, routePath), "/")
    ensures if requestPath == routePath then StripRoutePrefix(requestPath, routePath) == "/"
            else routePath + StripRoutePrefix(requestPath, routePath) == requestPath
  {
    MatchIsPrefix(requestPath, routePath);
    MatchEndsAtSegment(requestPath, routePath);
    if requestPath != routePath {
      var rest := requestPath[|routePath|..];
      assert requestPath == routePath + rest;
      assert rest != "" && rest[0] == '/' && HasPrefix(rest, "/");
    }
  }

  /** Stripping the root route gives the path back exactly when it does not begin with two slashes. */
  lemma StripRoot(requestPath: string)
    requires PathRouteMatches(requestPath, "/")
    ensures HasPrefix(StripRoutePrefix(requestPath, "/"), "/")
    ensures StripRoutePrefix(requestPath, "/") == requestPath <==> !HasPrefix(requestPath, "//")
  {
    var rest := requestPath[1..];
    assert requestPath == "/" + rest;
    assert HasPrefix(requestPath, "//") <==> HasPrefix(rest, "/") by {
      assert |requestPath| >= 2 ==> requestPath[..2] == "/" + rest[..1];
    }
    if HasPrefix(rest, "/") {
      assert |rest| < |requestPath|;
    }
  }

  // ----- Choosing the route

  /** What the loop over the routes has chosen after looking at all of them. */
  function Best(routes: seq<PathRoute>, path: string): (b: Option<nat>)
    ensures b.Some? ==> b.value < |routes|
  {
    if routes == [] then None
    else
      var n := |routes| - 1;
      var b := Best(routes[..n], path);
      if PathRouteMatches(path, routes[n].path) && (b.None? || |routes[n].path| > |routes[b.value].path|) then Some(n) else b
  }

  /** The backend list the loop has settled on: updated only by routes with backends of their own. */
  function Targets(vh: VirtualHost, routes: seq<PathRoute>, path: string): seq<string> {
    if routes == [] then vh.backendIDs
    else
      var n := |routes| - 1;
      if Best(routes, path) == Some(n) && routes[n].backendIDs != [] then routes[n].backendIDs
      else Targets(vh, routes[..n], path)
  }

  /** `r` matches, and no match is longer. */
  ghost predicate IsLongest(routes: seq<PathRoute>, path: string, r: PathRoute) {
    && r in routes && PathRouteMatches(path, r.path)
    && forall q :: q in routes && PathRouteMatches(path, q.path) ==> |q.path| <= |r.path|
  }

  lemma {:induction false} BestIsLongest(routes: seq<PathRoute>, path: string)
    ensures Best(routes, path).None? <==> forall q :: q in routes ==> !PathRouteMatches(path, q.path)
    ensures Best(routes, path).Some? ==>
              var i := Best(routes, path).value;
              IsLongest(routes, path, routes[i]) &&
              forall j :: 0 <= j < i && PathRouteMatches(path, routes[j].path) ==> |routes[j].path| < |routes[i].path|
  {
    hide PathRouteMatches;
    if routes != [] {
      var n := |routes| - 1;
      BestIsLongest(routes[..n], path);
      assert routes == routes[..n] + [routes[n]];
      assert forall j :: 0 <= j < n ==> routes[..n][j] == routes[j] && routes[j] in routes[..n];
    }
  }

  ghost predicate DistinctPaths(routes: seq<PathRoute>) {
    forall q, r :: q in routes && r in routes && q.path == r.path ==> q == r
  }

  /** With distinct paths there is one longest match, so the order of the routes does not matter. */
  lemma LongestIsUnique(routes: seq<PathRoute>, path: string, q: PathRoute, r: PathRoute)
    requires DistinctPaths(routes) && IsLongest(routes, path, q) && IsLongest(routes, path, r)
    ensures q == r
  {
    EqualLengthMatchesAreEqual(path, q.path, r.path);
  }

  /** The same routes listed in another order. */
  ghost predicate SameRoutes(routes: seq<PathRoute>, other: seq<PathRoute>) {
    multiset(routes) == multiset(other)
  }

  lemma SameMembers(routes: seq<PathRoute>, other: seq<PathRoute>)
    requires SameRoutes(routes, other)
    ensures forall r :: r in routes <==> r in other
  {
    assert forall r :: r in routes <==> r in multiset(routes);
    assert forall r :: r in other <==> r in multiset(other);
  }

  lemma MoveToFront(routes: seq<PathRoute>, i: nat)
    requires i < |routes|
    ensures SameRoutes(routes, [routes[i]] + RemoveAt(routes, i))
  {
    assert routes == routes[..i] + ([routes[i]] + routes[i + 1..]);
    assert [routes[i]] + RemoveAt(routes, i) == [routes[i]] + routes[..i] + routes[i + 1..];
  }

  /** The chosen route does not depend on the order in which distinct paths are listed. */
  lemma RouteIsOrderIndependent(routes: seq<PathRoute>, other: seq<PathRoute>, path: string)
    requires DistinctPaths(routes) && SameRoutes(routes, other)
    ensures Best(routes, path).Some? <==> Best(other, path).Some?
    ensures Best(routes, path).Some? ==> routes[Best(routes, path).value] == other[Best(other, path).value]
  {
    BestIsLongest(routes, path);
    BestIsLongest(other, path);
    SameMembers(routes, other);
    hide Best, PathRouteMatches, SameRoutes;
    if Best(routes, path).Some? && Best(other, path).Some? {
      LongestIsUnique(routes, path, routes[Best(routes, path).value], other[Best(other, path).value]);
    }
  }

  // ----- Choosing the backends

  /** If the chosen route has backends, they are the targets. */
  lemma {:induction false} TargetsOfChosen(vh: VirtualHost, routes: seq<PathRoute>, path: string)
    requires Best(routes, path).Some? && routes[Best(routes, path).value].backendIDs != []
    ensures Targets(vh, routes, path) == routes[Best(routes, path).value].backendIDs
  {
    var n := |routes| - 1;
    if Best(routes, path) != Some(n) {
      TargetsOfChosen(vh, routes[..n], path);
    }
  }

  /** Otherwise they come from the host or from some other matching route. */
  lemma {:induction false} TargetsOrigin(vh: VirtualHost, routes: seq<PathRoute>, path: string)
    ensures Targets(vh, routes, path) == vh.backendIDs ||
            exists r :: r in routes && PathRouteMatches(path, r.path) && r.backendIDs != [] && Targets(vh, routes, path) == r.backendIDs
  {
    if routes != [] {
      var n := |routes| - 1;
      TargetsOrigin(vh, routes[..n], path);
      BestIsLongest(routes, path);
      assert routes == routes[..n] + [routes[n]];
    }
  }

  lemma {:induction false} AppendedLosers(vh: VirtualHost, front: seq<PathRoute>, rest: seq<PathRoute>, path: string)
    requires Best(front, path).Some?
    requires forall q :: q in rest && PathRouteMatches(path, q.path) ==> |q.path| <= |front[Best(front, path).value].path|
    ensures Best(front + rest, path) == Best(front, path)
    ensures Targets(vh, front + rest, path) == Targets(vh, front, path)
  {
    if rest == [] {
      assert front + rest == front;
    } else {
      var n := |rest| - 1;
      AppendedLosers(vh, front, rest[..n], path);
      assert (front + rest)[..|front| + n] == front + rest[..n];
      assert rest[n] in rest;
    }
  }

  /** List a longest match first: then it is chosen, and only the host's own list can stand in for it. */
  lemma ChosenFirst(vh: VirtualHost, routes: seq<PathRoute>, path: string, r: PathRoute) returns (other: seq<PathRoute>)
    requires IsLongest(routes, path, r)
    ensures SameRoutes(routes, other) && other != [] && other[0] == r && Best(other, path) == Some(0)
    ensures Targets(vh, other, path) == if r.backendIDs == [] then vh.backendIDs else r.backendIDs
  {
    var i :| 0 <= i < |routes| && routes[i] == r;
    var rest := RemoveAt(routes, i);
    other := [r] + rest;
    MoveToFront(routes, i);
    assert [r][..0] == [];
    assert Best([r], path) == Some(0) && Targets(vh, [r], path) == if r.backendIDs == [] then vh.backendIDs else r.backendIDs;
    AppendedLosers(vh, [r], rest, path);
    hide Best, Targets, PathRouteMatches;
  }

  /** List a shorter match with backends before it: then that route's backends are used. */
  lemma ShorterFirst(vh: VirtualHost, routes: seq<PathRoute>, path: string, r: PathRoute, q: PathRoute, listed: seq<PathRoute>)
    returns (other: seq<PathRoute>)
    requires IsLongest(routes, path, r) && r.backendIDs == []
    requires q in routes && PathRouteMatches(path, q.path) && q.backendIDs != [] && |q.path| < |r.path|
    requires SameRoutes(routes, listed) && listed != [] && listed[0] == r
    ensures SameRoutes(routes, other)
    ensures Targets(vh, other, path) == q.backendIDs
  {
    SameMembers(routes, listed);
    var k :| 0 <= k < |listed| && listed[k] == q;
    var rest := RemoveAt(listed, k);
    MoveToFront(listed, k);
    assert rest[0] == r;
    other := [q] + rest;
    assert other == [q, r] + rest[1..];
    assert [q, r][..1] == [q] && [q][..0] == [];
    assert Best([q], path) == Some(0) && Best([q, r], path) == Some(1);
    assert Targets(vh, [q], path) == q.backendIDs;
    AppendedLosers(vh, [q, r], rest[1..], path);
    hide Best, Targets, PathRouteMatches;
  }

  /** All longest matches name the same backends, and some. */
  ghost predicate LongestAgree(routes: seq<PathRoute>, path: string) {
    && (exists r :: IsLongest(routes, path, r) && r.backendIDs != [])
    && (forall q, r :: IsLongest(routes, path, q) && IsLongest(routes, path, r) ==> q.backendIDs == r.backendIDs)
  }

  /** Every match that names backends repeats the host's list. */
  ghost predicate MatchesRepeatHost(vh: VirtualHost, routes: seq<PathRoute>, path: string) {
    forall q :: q in routes && PathRouteMatches(path, q.path) && q.backendIDs != [] ==> q.backendIDs == vh.backendIDs
  }

  /**
   The targets are the same for every listing of the routes exactly when no route matches,
   the longest matches agree on a list of their own, or every match with backends repeats
   the host's list.  Otherwise a route without backends inherits whatever a shorter route
   listed before it has set, or the first of several routes for one path decides.
   */
  lemma TargetsOrderExactly(vh: VirtualHost, routes: seq<PathRoute>, path: string)
    ensures (forall other :: SameRoutes(routes, other) ==> Targets(vh, other, path) == Targets(vh, routes, path)) <==>
            Best(routes, path).None? || LongestAgree(routes, path) || MatchesRepeatHost(vh, routes, path)
  {
    BestIsLongest(routes, path);
    hide Best, Targets, PathRouteMatches, SameRoutes;
    if Best(routes, path).None? || LongestAgree(routes, path) || MatchesRepeatHost(vh, routes, path) {
      forall other | SameRoutes(routes, other) ensures Targets(vh, other, path) == Targets(vh, routes, path) {
        TargetsSame(vh, routes, other, path);
      }
    } else {
      var a, b := DifferentListings(vh, routes, path);
    }
  }

  /** Two listings of the same routes with different targets. */
  lemma DifferentListings(vh: VirtualHost, routes: seq<PathRoute>, path: string) returns (a: seq<PathRoute>, b: seq<PathRoute>)
    requires Best(routes, path).Some? && !LongestAgree(routes, path) && !MatchesRepeatHost(vh, routes, path)
    ensures SameRoutes(routes, a) && SameRoutes(routes, b) && Targets(vh, a, path) != Targets(vh, b, path)
  {
    BestIsLongest(routes, path);
    hide Best, Targets, PathRouteMatches, SameRoutes;
    if r :| IsLongest(routes, path, r) && r.backendIDs == [] {
      var q :| q in routes && PathRouteMatches(path, q.path) && q.backendIDs != [] && q.backendIDs != vh.backendIDs;
      a := ChosenFirst(vh, routes, path, r);
      if |q.path| < |r.path| {
        b := ShorterFirst(vh, routes, path, r, q, a);
      } else {
        b := ChosenFirst(vh, routes, path, q);
      }
    } else {
      var q, r :| IsLongest(routes, path, q) && IsLongest(routes, path, r) && q.backendIDs != r.backendIDs;
      a := ChosenFirst(vh, routes, path, q);
      b := ChosenFirst(vh, routes, path, r);
    }
  }

  /** Any listing chooses a longest match. */
  lemma ChoosesLongest(routes: seq<PathRoute>, other: seq<PathRoute>, path: string)
    requires SameRoutes(routes, other)
    ensures Best(routes, path).Some? <==> Best(other, path).Some?
    ensures Best(other, path).Some? ==> IsLongest(routes, path, other[Best(other, path).value])
  {
    BestIsLongest(routes, path);
    BestIsLongest(other, path);
    SameMembers(routes, other);
    hide Best, PathRouteMatches, SameRoutes;
  }

  /** What the handler takes as the route of a request. */
  function ChosenRoute(routes: seq<PathRoute>, path: string): Option<PathRoute> {
    var b := Best(routes, path);
    if b.Some? then Some(routes[b.value]) else None
  }

  /** The chosen route is the same for every listing exactly when there are no two longest matches. */
  lemma RouteOrderExactly(routes: seq<PathRoute>, path: string)
    ensures (forall other :: SameRoutes(routes, other) ==> ChosenRoute(other, path) == ChosenRoute(routes, path)) <==>
            forall q, r :: IsLongest(routes, path, q) && IsLongest(routes, path, r) ==> q == r
  {
    hide Best, Targets, PathRouteMatches, SameRoutes, IsLongest;
    SameAsItself(routes);
    ChoosesLongest(routes, routes, path);
    if forall q, r :: IsLongest(routes, path, q) && IsLongest(routes, path, r) ==> q == r {
      forall other | SameRoutes(routes, other) ensures ChosenRoute(other, path) == ChosenRoute(routes, path) {
        ChoosesLongest(routes, other, path);
      }
    } else {
      var q, r :| IsLongest(routes, path, q) && IsLongest(routes, path, r) && q != r;
      var vh := VirtualHost("", [], "", routes);
      var a := ChosenFirst(vh, routes, path, q);
      var b := ChosenFirst(vh, routes, path, r);
      assert ChosenRoute(a, path) != ChosenRoute(b, path);
    }
  }

  lemma TargetsSame(vh: VirtualHost, routes: seq<PathRoute>, other: seq<PathRoute>, path: string)
    requires SameRoutes(routes, other)
    requires Best(routes, path).None? || LongestAgree(routes, path) || MatchesRepeatHost(vh, routes, path)
    ensures Targets(vh, other, path) == Targets(vh, routes, path)
  {
    hide Best, Targets, PathRouteMatches, SameRoutes;
    ChoosesLongest(routes, other, path);
    assert SameRoutes(routes, routes) by { SameAsItself(routes); }
    ChoosesLongest(routes, routes, path);
    SameMembers(routes, other);
    if Best(routes, path).Some? && LongestAgree(routes, path) {
      TargetsOfChosen(vh, routes, path);
      TargetsOfChosen(vh, other, path);
    } else {
      NoMatchNoBest(routes, path);
      TargetsOrigin(vh, routes, path);
      TargetsOrigin(vh, other, path);
    }
  }

  lemma SameAsItself(routes: seq<PathRoute>)
    ensures SameRoutes(routes, routes)
  {
  }

  lemma NoMatchNoBest(routes: seq<PathRoute>, path: string)
    ensures Best(routes, path).None? ==> forall q :: q in routes ==> !PathRouteMatches(path, q.path)
  {
    BestIsLongest(routes, path);
  }

  /** At an input with one path listed twice: the first listing decides. */
  lemma SamePathTwice(vh: VirtualHost)
    ensures var q, r := PathRoute("/a", ["x"], false), PathRoute("/a", ["y"], false);
            SameRoutes([q, r], [r, q]) && Targets(vh, [q, r], "/a") == ["x"] && Targets(vh, [r, q], "/a") == ["y"]
  {
    var q, r := PathRoute("/a", ["x"], false), PathRoute("/a", ["y"], false);
    assert [q, r] == [q] + [r] && [r, q] == [r] + [q];
    assert [q][..0] == [] && [r][..0] == [];
    assert Best([q], "/a") == Some(0) && Best([r], "/a") == Some(0);
    AppendedLosers(vh, [q], [r], "/a");
    AppendedLosers(vh, [r], [q], "/a");
  }

  // ----- The routing pass of the handler

  /** The host without its port. */
  function HostName(host: string): string {
    if host == "" || host[0] == ':' then "" else [host[0]] + HostName(host[1..])
  }

  /** It is what comes before the first colon, or the whole of it if there is none. */
  lemma {:induction false} HostNameIsBeforeColon(host: string)
    ensures HostName(host) <= host && ':' !in HostName(host)
    ensures |HostName(host)| < |host| ==> host[|HostName(host)|] == ':'
  {
    if host != "" && host[0] != ':' {
      HostNameIsBeforeColon(host[1..]);
      assert host == [host[0]] + host[1..];
    }
  }

  datatype Route = Route(vhost: Option<VirtualHost>, route: Option<PathRoute>, targets: seq<string>)

  method RouteRequest(c: FullConfig, host: string, path: string) returns (r: Route)
    ensures var i := IndexOfHost(c.virtualHosts, host);
            if i == |c.virtualHosts| then r == Route(None, None, [])
            else var vh := c.virtualHosts[i];
                 && r.vhost == Some(vh)
                 && r.route == ChosenRoute(vh.pathRoutes, path)
                 && r.targets == Targets(vh, vh.pathRoutes, path)
  {
    r := Route(None, None, []);
    for i := 0 to |c.virtualHosts|
      invariant r == Route(None, None, [])
      invariant forall k :: 0 <= k < i ==> c.virtualHosts[k].domain != host
    {
      var vh := c.virtualHosts[i];
      if vh.domain == host {
        var targets, pathRoute, longestPathMatch := vh.backendIDs, None, -1;
        for j := 0 to |vh.pathRoutes|
          invariant var b := Best(vh.pathRoutes[..j], path);
                    && pathRoute == (if b.Some? then Some(vh.pathRoutes[b.value]) else None)
                    && longestPathMatch == (if b.Some? then |vh.pathRoutes[b.value].path| else -1)
          invariant targets == Targets(vh, vh.pathRoutes[..j], path)
        {
          hide PathRouteMatches;
          var pr := vh.pathRoutes[j];
          assert vh.pathRoutes[..j + 1][..j] == vh.pathRoutes[..j];
          if PathRouteMatches(path, pr.path) && |pr.path| > longestPathMatch {
            pathRoute := Some(pr);
            longestPathMatch := |pr.path|;
            if pr.backendIDs != [] {
              targets := pr.backendIDs;
            }
          }
        }
        assert vh.pathRoutes[..|vh.pathRoutes|] == vh.pathRoutes;
        return Route(Some(vh), pathRoute, targets);
      }
    }
  }

  /** In a valid configuration the scan over the hosts finds what the domain index holds. */
  lemma HostScanIsIndex(text: Text, c: FullConfig, host: string)
    requires ValidConfig(text, c)
    ensures IndexOfHost(c.virtualHosts, host) < |c.virtualHosts| <==> host in SnapshotOf(c).vhostsByDomain
    ensures host in SnapshotOf(c).vhostsByDomain ==>
              SnapshotOf(c).vhostsByDomain[host] == c.virtualHosts[IndexOfHost(c.virtualHosts, host)]
  {
    HostIndexIsExact(c.virtualHosts, host);
    hide ValidBackends, ValidPolicies, ValidVirtualHost, HostIndex;
  }

  /** In a valid configuration a routed request always has a non-empty target list of known backends. */
  lemma TargetsAreKnown(text: Text, c: FullConfig, host: string, path: string)
    requires ValidConfig(text, c) && IndexOfHost(c.virtualHosts, host) < |c.virtualHosts|
    ensures var vh := c.virtualHosts[IndexOfHost(c.virtualHosts, host)];
            AllIn(Targets(vh, vh.pathRoutes, path), BackendIds(c.backends)) &&
            (Best(vh.pathRoutes, path).Some? ==> Targets(vh, vh.pathRoutes, path) != [])
  {
    var vh := c.virtualHosts[IndexOfHost(c.virtualHosts, host)];
    var ids := BackendIds(c.backends);
    assert ValidVirtualHost(vh, ids, PolicyIds(c.policies));
    TargetsOrigin(vh, vh.pathRoutes, path);
    hide Targets, Best, BackendIds, PathRouteMatches;
    forall r | r in vh.pathRoutes ensures ValidRoute(r, vh, ids) {
      var j :| 0 <= j < |vh.pathRoutes| && vh.pathRoutes[j] == r;
    }
    BestIsLongest(vh.pathRoutes, path);
    if Best(vh.pathRoutes, path).Some? && vh.backendIDs == [] {
      TargetsOfChosen(vh, vh.pathRoutes, path);
    }
  }
}
