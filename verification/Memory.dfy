/**
 Configurations as they lie in memory (internal/config/types.go, internal/config/clone.go):
 structs reached through pointers and slices, so that two configurations could share a part.

 Each kind of struct or array has its own part of the heap and is named by its index there.
 A slice refers to the first `len` elements of an array.  Arrays of strings and of routes
 carry the place they were allocated for, which keeps the proofs of separation short.
 */
module Memory {
  import opened Base
  import opened Config

  datatype Slice = Slice(address: nat, len: nat)

  datatype RouteCell = RouteCell(path: string, backendIDs: Slice, stripPrefix: bool)

  datatype HostCell = HostCell(domain: string, backendIDs: Slice, securityPolicyID: string, pathRoutes: Slice)

  /** A configuration struct: the fields it holds inline (the lists of `flat` are unused) and its slices. */
  datatype Root = Root(flat: FullConfig, backends: Slice, policies: Slice, hosts: Slice)

  datatype Place = OfHost(i: nat) | OfRoute(i: nat, j: nat)

  datatype List = List(place: Place, items: seq<string>)

  datatype Routes = Routes(host: nat, items: seq<RouteCell>)

  datatype Heap = Heap(
    roots: seq<Root>,
    backends: seq<BackendConfig>,
    pointers: seq<seq<Option<nat>>>,
    policies: seq<seq<SecurityPolicy>>,
    hosts: seq<seq<HostCell>>,
    routes: seq<Routes>,
    lists: seq<List>,
    statuses: seq<map<string, nat>>)

  // ----- Reading

  function Items<T>(xs: seq<T>, len: nat): seq<T> {
    if len <= |xs| then xs[..len] else xs
  }

  function ListAt(h: Heap, s: Slice): seq<string> {
    if s.address < |h.lists| then Items(h.lists[s.address].items, s.len) else []
  }

  function RouteCells(h: Heap, s: Slice): seq<RouteCell> {
    if s.address < |h.routes| then Items(h.routes[s.address].items, s.len) else []
  }

  function HostCells(h: Heap, s: Slice): seq<HostCell> {
    if s.address < |h.hosts| then Items(h.hosts[s.address], s.len) else []
  }

  function PolicyCells(h: Heap, s: Slice): seq<SecurityPolicy> {
    if s.address < |h.policies| then Items(h.policies[s.address], s.len) else []
  }

  function Pointers(h: Heap, s: Slice): seq<Option<nat>> {
    if s.address < |h.pointers| then Items(h.pointers[s.address], s.len) else []
  }

  function RouteView(h: Heap, r: RouteCell): PathRoute {
    PathRoute(r.path, ListAt(h, r.backendIDs), r.stripPrefix)
  }

  function HostView(h: Heap, vh: HostCell): VirtualHost {
    var cells := RouteCells(h, vh.pathRoutes);
    VirtualHost(vh.domain, ListAt(h, vh.backendIDs), vh.securityPolicyID,
                seq(|cells|, j requires 0 <= j < |cells| => RouteView(h, cells[j])))
  }

  function HostsView(h: Heap, cells: seq<HostCell>): (vhs: seq<VirtualHost>)
    ensures |vhs| == |cells| && forall i :: 0 <= i < |cells| ==> vhs[i] == HostView(h, cells[i])
  {
    seq(|cells|, i requires 0 <= i < |cells| => HostView(h, cells[i]))
  }

  function BackendAt(h: Heap, p: Option<nat>): Option<BackendConfig> {
    if p.Some? && p.value < |h.backends| then Some(h.backends[p.value]) else None
  }

  function BackendsView(h: Heap, ps: seq<Option<nat>>): (bs: seq<Option<BackendConfig>>)
    ensures |bs| == |ps| && forall i :: 0 <= i < |ps| ==> bs[i] == BackendAt(h, ps[i])
  {
    seq(|ps|, i requires 0 <= i < |ps| => BackendAt(h, ps[i]))
  }

  /** What a reader that holds the pointer `r` sees. */
  function View(h: Heap, r: nat): FullConfig
    requires r < |h.roots|
  {
    var root := h.roots[r];
    root.flat.(backends := BackendsView(h, Pointers(h, root.backends)),
               policies := PolicyCells(h, root.policies),
               virtualHosts := HostsView(h, HostCells(h, root.hosts)))
  }

  // ----- Reachability stays inside the heap

  ghost predicate ListIn(h: Heap, s: Slice) {
    s.address < |h.lists| && s.len <= |h.lists[s.address].items|
  }

  ghost predicate HostIn(h: Heap, vh: HostCell) {
    && ListIn(h, vh.backendIDs)
    && vh.pathRoutes.address < |h.routes| && vh.pathRoutes.len <= |h.routes[vh.pathRoutes.address].items|
    && forall j :: 0 <= j < vh.pathRoutes.len ==> ListIn(h, h.routes[vh.pathRoutes.address].items[j].backendIDs)
  }

  ghost predicate RootIn(h: Heap, root: Root) {
    && root.backends.address < |h.pointers| && root.backends.len <= |h.pointers[root.backends.address]|
    && root.policies.address < |h.policies| && root.policies.len <= |h.policies[root.policies.address]|
    && root.hosts.address < |h.hosts| && root.hosts.len <= |h.hosts[root.hosts.address]|
    && (forall i :: 0 <= i < root.backends.len && h.pointers[root.backends.address][i].Some? ==>
          h.pointers[root.backends.address][i].value < |h.backends|)
    && (forall i :: 0 <= i < root.hosts.len ==> HostIn(h, h.hosts[root.hosts.address][i]))
  }

  /** Everything reachable from `r` is allocated. */
  ghost predicate InHeap(h: Heap, r: nat) {
    r < |h.roots| && RootIn(h, h.roots[r])
  }

  /** Every cell of `h` is still there in `h'`, with the same contents. */
  ghost predicate Extends(h: Heap, h': Heap) {
    && h.roots <= h'.roots && h.backends <= h'.backends && h.pointers <= h'.pointers && h.policies <= h'.policies
    && h.hosts <= h'.hosts && h.routes <= h'.routes && h.lists <= h'.lists && h.statuses <= h'.statuses
  }

  lemma HostStable(h: Heap, h': Heap, vh: HostCell)
    requires HostIn(h, vh) && h.lists <= h'.lists && h.routes <= h'.routes
    ensures HostIn(h', vh) && HostView(h', vh) == HostView(h, vh)
    ensures RouteCells(h', vh.pathRoutes) == RouteCells(h, vh.pathRoutes)
  {
    var cells := RouteCells(h, vh.pathRoutes);
    forall j | 0 <= j < |cells| ensures RouteView(h', cells[j]) == RouteView(h, cells[j]) {
      assert ListIn(h, cells[j].backendIDs);
    }
  }

  /** Memory that is only added to leaves every reader's view alone. */
  lemma ViewStable(h: Heap, h': Heap, r: nat)
    requires InHeap(h, r) && Extends(h, h')
    ensures InHeap(h', r) && View(h', r) == View(h, r)
  {
    var root := h.roots[r];
    var cells := HostCells(h, root.hosts);
    forall i | 0 <= i < |cells| ensures HostIn(h', cells[i]) && HostView(h', cells[i]) == HostView(h, cells[i]) {
      HostStable(h, h', cells[i]);
    }
    hide HostIn, HostView;
    assert HostsView(h', cells) == HostsView(h, cells);
    assert BackendsView(h', Pointers(h, root.backends)) == BackendsView(h, Pointers(h, root.backends));
  }

  // ----- Cloning

  /** The parts of a host were allocated for it, as host `i` of its configuration then, since `mark`. */
  ghost predicate OwnsHost(h: Heap, vh: HostCell, i: nat, mark: Heap)
    requires HostIn(h, vh)
  {
    && |mark.lists| <= vh.backendIDs.address && h.lists[vh.backendIDs.address].place == OfHost(i)
    && |mark.routes| <= vh.pathRoutes.address && h.routes[vh.pathRoutes.address].host == i
    && forall j :: 0 <= j < vh.pathRoutes.len ==>
         var s := h.routes[vh.pathRoutes.address].items[j].backendIDs;
         |mark.lists| <= s.address && h.lists[s.address].place == OfRoute(i, j)
  }

  /** The hosts were allocated since `mark`, each for a place of its own: they share no array. */
  ghost predicate Tagged(h: Heap, cells: seq<HostCell>, tags: seq<nat>, mark: Heap) {
    && |tags| == |cells|
    && (forall i, j :: 0 <= i < j < |tags| ==> tags[i] != tags[j])
    && (forall i :: 0 <= i < |cells| ==> HostIn(h, cells[i]) && OwnsHost(h, cells[i], tags[i], mark))
  }

  ghost predicate DistinctPointers(ps: seq<Option<nat>>, mark: nat) {
    && (forall i :: 0 <= i < |ps| && ps[i].Some? ==> mark <= ps[i].value)
    && (forall i, j :: 0 <= i < j < |ps| && ps[i].Some? ==> ps[i] != ps[j])
  }

  /** No part of `root` is older than `mark`, and no two parts of it are the same. */
  ghost predicate Separated(h: Heap, root: Root, mark: Heap) {
    && RootIn(h, root)
    && |mark.pointers| <= root.backends.address && |mark.policies| <= root.policies.address && |mark.hosts| <= root.hosts.address
    && DistinctPointers(Pointers(h, root.backends), |mark.backends|)
    && exists tags :: Tagged(h, h.hosts[root.hosts.address][..root.hosts.len], tags, mark)
  }

  function AllocBackends(h: Heap, bs: seq<Option<BackendConfig>>): (Heap, seq<Option<nat>>) {
    if bs == [] then (h, [])
    else
      var (g, ps) := AllocBackends(h, bs[..|bs| - 1]);
      match bs[|bs| - 1]
      case None => (g, ps + [None])
      case Some(b) => (g.(backends := g.backends + [b]), ps + [Some(|g.backends|)])
  }

  function RouteLists(i: nat, rs: seq<PathRoute>): seq<List> {
    seq(|rs|, j requires 0 <= j < |rs| => List(OfRoute(i, j), rs[j].backendIDs))
  }

  function RouteCellsFrom(base: nat, rs: seq<PathRoute>): seq<RouteCell> {
    seq(|rs|, j requires 0 <= j < |rs| => RouteCell(rs[j].path, Slice(base + j, |rs[j].backendIDs|), rs[j].stripPrefix))
  }

  /** A host that is to be the one at index `i`. */
  function AllocHost(h: Heap, i: nat, vh: VirtualHost): (Heap, HostCell) {
    var base := |h.lists|;
    (h.(lists := h.lists + [List(OfHost(i), vh.backendIDs)] + RouteLists(i, vh.pathRoutes),
        routes := h.routes + [Routes(i, RouteCellsFrom(base + 1, vh.pathRoutes))]),
     HostCell(vh.domain, Slice(base, |vh.backendIDs|), vh.securityPolicyID, Slice(|h.routes|, |vh.pathRoutes|)))
  }

  function AllocHosts(h: Heap, vhs: seq<VirtualHost>): (Heap, seq<HostCell>) {
    if vhs == [] then (h, [])
    else
      var (g, cells) := AllocHosts(h, vhs[..|vhs| - 1]);
      var (g', cell) := AllocHost(g, |vhs| - 1, vhs[|vhs| - 1]);
      (g', cells + [cell])
  }

  /** Decoding into new memory. */
  function Alloc(h: Heap, c: FullConfig): (Heap, nat) {
    var (h1, pointers) := AllocBackends(h, c.backends);
    var (h2, cells) := AllocHosts(h1, c.virtualHosts);
    var root := Root(c, Slice(|h2.pointers|, |pointers|), Slice(|h2.policies|, |c.policies|), Slice(|h2.hosts|, |cells|));
    (h2.(pointers := h2.pointers + [pointers], policies := h2.policies + [c.policies],
         hosts := h2.hosts + [cells], roots := h2.roots + [root]),
     |h2.roots|)
  }

  /** CloneFullConfig encodes what it sees and decodes it into new memory. */
  function Clone(h: Heap, r: nat): (Heap, nat)
    requires r < |h.roots|
  {
    Alloc(h, View(h, r))
  }

  lemma {:induction false} AllocBackendsFacts(h: Heap, bs: seq<Option<BackendConfig>>)
    ensures var (g, ps) := AllocBackends(h, bs);
            && h.backends <= g.backends && g == h.(backends := g.backends)
            && |ps| == |bs| && DistinctPointers(ps, |h.backends|)
            && (forall i :: 0 <= i < |ps| && ps[i].Some? ==> ps[i].value < |g.backends|)
            && (forall i :: 0 <= i < |ps| ==> BackendAt(g, ps[i]) == bs[i])
  {
    if bs != [] {
      AllocBackendsFacts(h, bs[..|bs| - 1]);
    }
  }

  /** `cell` is host `i`, reads as `vh` and shares nothing with memory older than `mark`. */
  ghost predicate FreshHost(h: Heap, cell: HostCell, i: nat, vh: VirtualHost, mark: Heap) {
    HostIn(h, cell) && HostView(h, cell) == vh && OwnsHost(h, cell, i, mark)
  }

  lemma FreshHostStable(h: Heap, h': Heap, cell: HostCell, i: nat, vh: VirtualHost, mark: Heap)
    requires FreshHost(h, cell, i, vh, mark) && h.lists <= h'.lists && h.routes <= h'.routes
    ensures FreshHost(h', cell, i, vh, mark)
  {
    HostStable(h, h', cell);
  }

  lemma AllocHostFacts(h: Heap, i: nat, vh: VirtualHost, mark: Heap)
    requires |mark.lists| <= |h.lists| && |mark.routes| <= |h.routes|
    ensures var (g, cell) := AllocHost(h, i, vh);
            && h.lists <= g.lists && h.routes <= g.routes && g == h.(lists := g.lists, routes := g.routes)
            && FreshHost(g, cell, i, vh, mark)
  {
    var (g, cell) := AllocHost(h, i, vh);
    var base := |h.lists|;
    var items := g.routes[cell.pathRoutes.address].items;
    assert g.lists[base] == List(OfHost(i), vh.backendIDs);
    forall j | 0 <= j < |items|
      ensures items[j].backendIDs.address == base + 1 + j && g.lists[base + 1 + j] == List(OfRoute(i, j), vh.pathRoutes[j].backendIDs)
      ensures RouteView(g, items[j]) == vh.pathRoutes[j]
    {
    }
    assert RouteCells(g, cell.pathRoutes) == items;
    assert HostView(g, cell).pathRoutes == vh.pathRoutes;
  }

  lemma {:induction false} AllocHostsFacts(h: Heap, vhs: seq<VirtualHost>)
    ensures var (g, cells) := AllocHosts(h, vhs);
            && h.lists <= g.lists && h.routes <= g.routes && g == h.(lists := g.lists, routes := g.routes)
            && |cells| == |vhs|
            && forall i :: 0 <= i < |cells| ==> FreshHost(g, cells[i], i, vhs[i], h)
  {
    hide FreshHost, AllocHost;
    if vhs != [] {
      LastHost(h, vhs);
      hide AllocHosts;
      var n := |vhs| - 1;
      var (g, cells) := AllocHosts(h, vhs[..n]);
      var (g', cell) := AllocHost(g, n, vhs[n]);
      AllocHostsFacts(h, vhs[..n]);
      AllocHostFacts(g, n, vhs[n], h);
      forall i | 0 <= i < n ensures FreshHost(g', cells[i], i, vhs[i], h) {
        assert FreshHost(g, cells[i], i, vhs[..n][i], h);
        FreshHostStable(g, g', cells[i], i, vhs[i], h);
      }
    }
  }

  lemma LastHost(h: Heap, vhs: seq<VirtualHost>)
    requires vhs != []
    ensures var n := |vhs| - 1;
            var (g, cells) := AllocHosts(h, vhs[..n]);
            AllocHosts(h, vhs) == (AllocHost(g, n, vhs[n]).0, cells + [AllocHost(g, n, vhs[n]).1])
  {
    hide AllocHost;
  }

  /** A clone looks like the original and shares nothing with any older memory. */
  lemma AllocIsSeparate(h: Heap, c: FullConfig)
    ensures var (g, r) := Alloc(h, c);
            Extends(h, g) && r == |h.roots| < |g.roots| && View(g, r) == c && Separated(g, g.roots[r], h)
  {
    var (h1, pointers) := AllocBackends(h, c.backends);
    var (h2, cells) := AllocHosts(h1, c.virtualHosts);
    var (g, r) := Alloc(h, c);
    AllocBackendsFacts(h, c.backends);
    AllocHostsFacts(h1, c.virtualHosts);
    hide AllocBackends, AllocHosts;
    forall i | 0 <= i < |cells|
      ensures HostIn(g, cells[i]) && HostView(g, cells[i]) == c.virtualHosts[i] && OwnsHost(g, cells[i], i, h)
    {
      HostStable(h2, g, cells[i]);
    }
    assert BackendsView(g, pointers) == c.backends;
    assert HostsView(g, cells) == c.virtualHosts;
    hide HostIn, HostView, OwnsHost;
    var tags := seq(|cells|, i => i);
    assert Tagged(g, cells, tags, h);
    assert g.hosts[g.roots[r].hosts.address][..g.roots[r].hosts.len] == cells;
    assert Pointers(g, g.roots[r].backends) == pointers && HostCells(g, g.roots[r].hosts) == cells;
    assert PolicyCells(g, g.roots[r].policies) == c.policies;
  }
}
