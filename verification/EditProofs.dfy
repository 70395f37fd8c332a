/** Editing in place on memory of one's own is the operation of the value model. */
module EditProofs {
  import opened Base
  import opened Config
  import opened Defaults
  import opened ServiceModel
  import opened Memory
  import opened Edits
  import opened Removal

  /** The configuration struct at `r` and the arrays it refers to directly are younger than `mark`. */
  ghost predicate Top(h: Heap, r: nat, mark: Heap) {
    && r < |h.roots| && |mark.roots| <= r
    && var root := h.roots[r];
       |mark.pointers| <= root.backends.address && |mark.policies| <= root.policies.address && |mark.hosts| <= root.hosts.address
  }

  /** The configuration at `r` was cloned after `mark`. */
  ghost predicate Own(h: Heap, r: nat, mark: Heap) {
    Top(h, r, mark) && Separated(h, h.roots[r], mark)
  }

  /** Reading a configuration part by part. */
  ghost predicate Parts(h: Heap, r: nat, c: FullConfig) {
    && r < |h.roots|
    && var root := h.roots[r];
       && root.backends.address < |h.pointers| && root.backends.len <= |h.pointers[root.backends.address]|
       && root.policies.address < |h.policies| && root.policies.len <= |h.policies[root.policies.address]|
       && root.hosts.address < |h.hosts| && root.hosts.len <= |h.hosts[root.hosts.address]|
       && c == root.flat.(backends := c.backends, policies := c.policies, virtualHosts := c.virtualHosts)
       && BackendsRead(h, h.pointers[root.backends.address][..root.backends.len], c.backends)
       && h.policies[root.policies.address][..root.policies.len] == c.policies
       && HostsRead(h, h.hosts[root.hosts.address][..root.hosts.len], c.virtualHosts)
  }

  ghost predicate BackendsRead(h: Heap, ps: seq<Option<nat>>, bs: seq<Option<BackendConfig>>) {
    |ps| == |bs| && forall i :: 0 <= i < |ps| ==>
      (ps[i].Some? ==> ps[i].value < |h.backends|) && BackendAt(h, ps[i]) == bs[i]
  }

  ghost predicate HostsRead(h: Heap, cells: seq<HostCell>, vhs: seq<VirtualHost>) {
    |cells| == |vhs| && forall i :: 0 <= i < |cells| ==> HostIn(h, cells[i]) && HostView(h, cells[i]) == vhs[i]
  }

  lemma PartsAreView(h: Heap, r: nat, c: FullConfig)
    ensures Parts(h, r, c) <==> InHeap(h, r) && View(h, r) == c
  {
    hide HostIn, HostView;
    if r < |h.roots| {
      var root := h.roots[r];
      if Parts(h, r, c) {
        assert BackendsView(h, Pointers(h, root.backends)) == c.backends;
        assert HostsView(h, HostCells(h, root.hosts)) == c.virtualHosts;
      }
    }
  }

  lemma HostsReadStable(h: Heap, g: Heap, cells: seq<HostCell>, vhs: seq<VirtualHost>)
    requires HostsRead(h, cells, vhs) && h.lists <= g.lists && h.routes <= g.routes
    ensures HostsRead(g, cells, vhs)
  {
    forall i | 0 <= i < |cells| ensures HostIn(g, cells[i]) && HostView(g, cells[i]) == vhs[i] {
      HostStable(h, g, cells[i]);
    }
    hide HostIn, HostView;
  }

  lemma BackendsReadStable(h: Heap, g: Heap, ps: seq<Option<nat>>, bs: seq<Option<BackendConfig>>)
    requires BackendsRead(h, ps, bs) && h.backends <= g.backends
    ensures BackendsRead(g, ps, bs)
  {
  }

  /** What the writes `ws` achieve: `r` now reads as `n`, and nothing older than `mark` was written. */
  ghost predicate Achieves(h: Heap, ws: seq<Write>, r: nat, n: FullConfig, mark: Heap) {
    Parts(ApplyAll(h, ws), r, n) && Top(ApplyAll(h, ws), r, mark) && AllAbove(ws, mark)
  }

  /** Appending a backend whose cell is already there. */
  lemma AppendBackendEdit(h: Heap, r: nat, c: FullConfig, mark: Heap, b: BackendConfig, room: bool)
    requires Top(h, r, mark) && Parts(h, r, c) && Extends(mark, h)
    ensures Achieves(h, [NewBackend(b)] + AppendBackend(h, r, h.roots[r], |h.backends|, room), r,
                     c.(backends := c.backends + [Some(b)]), mark)
  {
    var root := h.roots[r];
    var ws := AppendBackend(h, r, root, |h.backends|, room);
    assert [NewBackend(b)] + ws == [NewBackend(b), ws[0], ws[1]];
    ApplyThree(h, NewBackend(b), ws[0], ws[1]);
    var g := Apply(Apply(Apply(h, NewBackend(b)), ws[0]), ws[1]);
    var old_ps := h.pointers[root.backends.address][..root.backends.len];
    BackendsReadStable(h, g, old_ps, c.backends);
    assert BackendsRead(g, old_ps + [Some(|h.backends|)], c.backends + [Some(b)]);
    HostsReadStable(h, g, h.hosts[root.hosts.address][..root.hosts.len], c.virtualHosts);
    hide HostsRead, BackendsRead, ApplyAll, HostIn, HostView;
    assert g.pointers[g.roots[r].backends.address][..g.roots[r].backends.len] == old_ps + [Some(|h.backends|)];
  }

  lemma SetBackendEdit(h: Heap, r: nat, c: FullConfig, mark: Heap, i: nat, b: BackendConfig)
    requires Top(h, r, mark) && Parts(h, r, c) && Extends(mark, h)
    requires i < |c.backends| && c.backends[i].Some? && DistinctPointers(Pointers(h, h.roots[r].backends), |mark.backends|)
    ensures var w := SetBackend(Pointers(h, h.roots[r].backends)[i].value, b);
            Achieves(h, [w], r, c.(backends := c.backends[i := Some(b)]), mark)
  {
    var root := h.roots[r];
    var ps := h.pointers[root.backends.address][..root.backends.len];
    var w := SetBackend(ps[i].value, b);
    var g := Apply(h, w);
    ApplyOne(h, w);
    assert BackendsRead(g, ps, c.backends[i := Some(b)]);
    HostsReadStable(h, g, h.hosts[root.hosts.address][..root.hosts.len], c.virtualHosts);
    hide HostsRead, BackendsRead, ApplyAll, HostIn, HostView;
  }

  lemma ShiftedIsRemoved<T>(xs: seq<T>, len: nat, i: nat)
    requires i < len <= |xs|
    ensures |Shifted(xs, len, i)| == |xs| && Shifted(xs, len, i)[..len - 1] == RemoveAt(xs[..len], i)
  {
  }

  /** Appending a host whose lists are already there. */
  lemma AppendHostEdit(h: Heap, r: nat, c: FullConfig, mark: Heap, vh: VirtualHost, room: bool)
    requires Top(h, r, mark) && Parts(h, r, c) && Extends(mark, h)
    ensures var n := |c.virtualHosts|;
            Achieves(h, [NewHost(n, vh)] + AppendHost(h, r, h.roots[r], AllocHost(h, n, vh).1, room), r,
                     c.(virtualHosts := c.virtualHosts + [vh]), mark)
  {
    var root, n := h.roots[r], |c.virtualHosts|;
    var (h1, cell) := AllocHost(h, n, vh);
    var ws := AppendHost(h, r, root, cell, room);
    assert [NewHost(n, vh)] + ws == [NewHost(n, vh), ws[0], ws[1]];
    ApplyThree(h, NewHost(n, vh), ws[0], ws[1]);
    var g := Apply(Apply(h1, ws[0]), ws[1]);
    AllocHostFacts(h, n, vh, h);
    hide AllocHost, ApplyAll;
    var cells := h.hosts[root.hosts.address][..root.hosts.len];
    AppendedHostReads(h, h1, g, cells, c.virtualHosts, cell, n, vh);
    hide HostsRead, HostIn, HostView, FreshHost;
    assert g.hosts[g.roots[r].hosts.address][..g.roots[r].hosts.len] == cells + [cell];
    BackendsReadStable(h, g, h.pointers[root.backends.address][..root.backends.len], c.backends);
    hide BackendsRead;
  }

  lemma AppendedHostReads(h: Heap, h1: Heap, g: Heap, cells: seq<HostCell>, vhs: seq<VirtualHost>, cell: HostCell, n: nat, vh: VirtualHost)
    requires HostsRead(h, cells, vhs) && FreshHost(h1, cell, n, vh, h)
    requires h.lists <= h1.lists && h.routes <= h1.routes && g.lists == h1.lists && g.routes == h1.routes
    ensures HostsRead(g, cells + [cell], vhs + [vh])
    ensures n < |cells| ==> HostsRead(g, cells[n := cell], vhs[n := vh])
  {
    HostsReadStable(h, g, cells, vhs);
    HostStable(h1, g, cell);
    hide HostIn, HostView;
  }

  lemma SetNewHostEdit(h: Heap, r: nat, c: FullConfig, mark: Heap, i: nat, vh: VirtualHost)
    requires Top(h, r, mark) && Parts(h, r, c) && Extends(mark, h) && i < |c.virtualHosts|
    ensures Achieves(h, [NewHost(i, vh), SetHost(h.roots[r].hosts.address, i, AllocHost(h, i, vh).1)], r,
                     c.(virtualHosts := c.virtualHosts[i := vh]), mark)
  {
    var root := h.roots[r];
    var (h1, cell) := AllocHost(h, i, vh);
    var w := SetHost(root.hosts.address, i, cell);
    ApplyTwo(h, NewHost(i, vh), w);
    var g := Apply(h1, w);
    AllocHostFacts(h, i, vh, h);
    hide AllocHost, ApplyAll;
    var cells := h.hosts[root.hosts.address][..root.hosts.len];
    AppendedHostReads(h, h1, g, cells, c.virtualHosts, cell, i, vh);
    hide HostsRead, HostIn, HostView, FreshHost;
    assert g.hosts[root.hosts.address][..root.hosts.len] == cells[i := cell];
    BackendsReadStable(h, g, h.pointers[root.backends.address][..root.backends.len], c.backends);
    hide BackendsRead;
  }

  lemma ShiftHostsEdit(h: Heap, r: nat, c: FullConfig, mark: Heap, i: nat)
    requires Top(h, r, mark) && Parts(h, r, c) && Extends(mark, h) && i < |c.virtualHosts|
    ensures var root, n := h.roots[r], |c.virtualHosts|;
            Achieves(h, [SetHosts(root.hosts.address, Shifted(h.hosts[root.hosts.address], n, i)),
                         SetRoot(r, root.(hosts := Slice(root.hosts.address, n - 1)))], r,
                     c.(virtualHosts := RemoveAt(c.virtualHosts, i)), mark)
  {
    var root, n := h.roots[r], |c.virtualHosts|;
    var cells := h.hosts[root.hosts.address];
    var v := SetHosts(root.hosts.address, Shifted(cells, n, i));
    var w := SetRoot(r, root.(hosts := Slice(root.hosts.address, n - 1)));
    ApplyTwo(h, v, w);
    var g := Apply(Apply(h, v), w);
    ShiftedIsRemoved(cells, n, i);
    RemovedHostReads(h, g, cells[..n], c.virtualHosts, i);
    BackendsReadStable(h, g, h.pointers[root.backends.address][..root.backends.len], c.backends);
    hide ApplyAll, HostsRead, BackendsRead, Shifted, RemoveAt;
  }

  lemma RemovedHostReads(h: Heap, g: Heap, cells: seq<HostCell>, vhs: seq<VirtualHost>, i: nat)
    requires HostsRead(h, cells, vhs) && g.lists == h.lists && g.routes == h.routes && i < |vhs|
    ensures HostsRead(g, RemoveAt(cells, i), RemoveAt(vhs, i))
  {
    HostsReadStable(h, g, cells, vhs);
    hide HostIn, HostView;
  }

  lemma SetHostPolicyEdit(h: Heap, r: nat, c: FullConfig, mark: Heap, i: nat, policyID: string)
    requires Top(h, r, mark) && Parts(h, r, c) && Extends(mark, h) && i < |c.virtualHosts|
    ensures var root := h.roots[r];
            Achieves(h, [SetHost(root.hosts.address, i, HostCells(h, root.hosts)[i].(securityPolicyID := policyID))], r,
                     c.(virtualHosts := c.virtualHosts[i := c.virtualHosts[i].(securityPolicyID := policyID)]), mark)
  {
    var root := h.roots[r];
    var cells := h.hosts[root.hosts.address][..root.hosts.len];
    var cell := cells[i].(securityPolicyID := policyID);
    var w := SetHost(root.hosts.address, i, cell);
    ApplyOne(h, w);
    var g := Apply(h, w);
    hide ApplyAll;
    assert HostsRead(g, cells[i := cell], c.virtualHosts[i := c.virtualHosts[i].(securityPolicyID := policyID)]) by {
      HostsReadStable(h, g, cells, c.virtualHosts);
      PolicyOnly(g, cells[i], policyID);
      hide HostIn, HostView;
    }
    assert g.hosts[root.hosts.address][..root.hosts.len] == cells[i := cell];
    hide HostsRead, BackendsRead;
  }

  lemma PolicyOnly(h: Heap, cell: HostCell, policyID: string)
    requires HostIn(h, cell)
    ensures HostIn(h, cell.(securityPolicyID := policyID))
    ensures HostView(h, cell.(securityPolicyID := policyID)) == HostView(h, cell).(securityPolicyID := policyID)
  {
  }

  lemma SetRootEdit(h: Heap, r: nat, c: FullConfig, mark: Heap, flat: FullConfig)
    requires Top(h, r, mark) && Parts(h, r, c) && Extends(mark, h)
    ensures Achieves(h, [SetRoot(r, h.roots[r].(flat := flat))], r,
                     flat.(backends := c.backends, policies := c.policies, virtualHosts := c.virtualHosts), mark)
  {
    var root := h.roots[r];
    var w := SetRoot(r, root.(flat := flat));
    ApplyOne(h, w);
    HostsReadStable(h, Apply(h, w), h.hosts[root.hosts.address][..root.hosts.len], c.virtualHosts);
    hide HostsRead, BackendsRead, ApplyAll, HostIn, HostView;
    BackendsReadStable(h, Apply(h, w), h.pointers[root.backends.address][..root.backends.len], c.backends);
  }

  lemma SetPolicyEdit(h: Heap, r: nat, c: FullConfig, mark: Heap, i: nat, policy: SecurityPolicy)
    requires Top(h, r, mark) && Parts(h, r, c) && Extends(mark, h) && i < |c.policies|
    ensures var root := h.roots[r];
            Achieves(h, [SetPolicies(root.policies.address, h.policies[root.policies.address][i := policy])], r,
                     c.(policies := c.policies[i := policy]), mark)
  {
    var root := h.roots[r];
    var ps := h.policies[root.policies.address];
    var w := SetPolicies(root.policies.address, ps[i := policy]);
    ApplyOne(h, w);
    HostsReadStable(h, Apply(h, w), h.hosts[root.hosts.address][..root.hosts.len], c.virtualHosts);
    BackendsReadStable(h, Apply(h, w), h.pointers[root.backends.address][..root.backends.len], c.backends);
    hide HostsRead, BackendsRead, ApplyAll, HostIn, HostView;
    assert ps[i := policy][..root.policies.len] == ps[..root.policies.len][i := policy];
  }

  lemma AppendPolicyEdit(h: Heap, r: nat, c: FullConfig, mark: Heap, policy: SecurityPolicy, room: bool)
    requires Top(h, r, mark) && Parts(h, r, c) && Extends(mark, h)
    ensures Achieves(h, AppendPolicy(h, r, h.roots[r], policy, room), r, c.(policies := c.policies + [policy]), mark)
  {
    var root := h.roots[r];
    var ws := AppendPolicy(h, r, root, policy, room);
    assert ws == [ws[0], ws[1]];
    ApplyTwo(h, ws[0], ws[1]);
    var g := Apply(Apply(h, ws[0]), ws[1]);
    HostsReadStable(h, g, h.hosts[root.hosts.address][..root.hosts.len], c.virtualHosts);
    BackendsReadStable(h, g, h.pointers[root.backends.address][..root.backends.len], c.backends);
    hide HostsRead, BackendsRead, ApplyAll, HostIn, HostView;
    assert g.policies[g.roots[r].policies.address][..g.roots[r].policies.len] ==
           h.policies[root.policies.address][..root.policies.len] + [policy];
  }

  // ----- Removing a backend

  lemma {:induction false} RouteWritesSame(h: Heap, g: Heap, ra: nat, cells: seq<RouteCell>, id: string)
    requires g.lists == h.lists
    ensures RouteWrites(g, ra, cells, id) == RouteWrites(h, ra, cells, id)
  {
    if cells != [] {
      RouteWritesSame(h, g, ra, cells[..|cells| - 1], id);
      hide Compacted, Without;
    }
  }

  lemma {:induction false} HostsWritesSame(h: Heap, g: Heap, a: nat, cells: seq<HostCell>, id: string)
    requires g.lists == h.lists && g.routes == h.routes
    ensures HostsWrites(g, a, cells, id) == HostsWrites(h, a, cells, id)
  {
    if cells != [] {
      var n := |cells| - 1;
      HostsWritesSame(h, g, a, cells[..n], id);
      RouteWritesSame(h, g, cells[n].pathRoutes.address, RouteCells(h, cells[n].pathRoutes), id);
      hide Compacted, Without, RouteWrites;
    }
  }

  /** The heap after the two writes that take the backend out of the list. */
  function WithoutPointer(h: Heap, r: nat, i: nat): Heap
    requires r < |h.roots| && h.roots[r].backends.address < |h.pointers|
    requires i < h.roots[r].backends.len <= |h.pointers[h.roots[r].backends.address]|
  {
    var s := h.roots[r].backends;
    h.(pointers := h.pointers[s.address := Shifted(h.pointers[s.address], s.len, i)],
       roots := h.roots[r := h.roots[r].(backends := Slice(s.address, s.len - 1))])
  }

  lemma WithoutPointerReads(h: Heap, r: nat, c: FullConfig, i: nat)
    requires Parts(h, r, c) && i < |c.backends|
    ensures Parts(WithoutPointer(h, r, i), r, c.(backends := RemoveAt(c.backends, i)))
  {
    var s := h.roots[r].backends;
    var g := WithoutPointer(h, r, i);
    var ps := h.pointers[s.address];
    ShiftedIsRemoved(ps, s.len, i);
    HostsReadStable(h, g, h.hosts[h.roots[r].hosts.address][..h.roots[r].hosts.len], c.virtualHosts);
    assert BackendsRead(g, RemoveAt(ps[..s.len], i), RemoveAt(c.backends, i)) by {
      hide HostsRead, HostIn, HostView, Shifted;
    }
    hide HostsRead, BackendsRead, Shifted, HostIn, HostView;
  }

  /** The places of the hosts, also after writes elsewhere. */
  lemma TagsOf(h: Heap, r: nat, mark: Heap) returns (tags: seq<nat>)
    requires Own(h, r, mark)
    ensures forall g: Heap :: g.lists == h.lists && g.routes == h.routes ==> Tagged(g, HostCells(h, h.roots[r].hosts), tags, mark)
  {
    var cells := HostCells(h, h.roots[r].hosts);
    tags :| Tagged(h, cells, tags, mark);
    forall g: Heap | g.lists == h.lists && g.routes == h.routes ensures Tagged(g, cells, tags, mark) {
      TagsStay(h, g, cells, tags, mark);
    }
  }

  lemma TagsStay(h: Heap, g: Heap, cells: seq<HostCell>, tags: seq<nat>, mark: Heap)
    requires Tagged(h, cells, tags, mark) && g.lists == h.lists && g.routes == h.routes
    ensures Tagged(g, cells, tags, mark)
  {
  }

  lemma HostsDoneReads(h: Heap, g: Heap, a: nat, cells: seq<HostCell>, tags: seq<nat>, vhs: seq<VirtualHost>, id: string, mark: Heap)
    requires HostsRead(h, cells, vhs) && HostsDone(h, g, a, cells, tags, id, mark)
    ensures HostsRead(g, g.hosts[a][..|cells|], WithoutInHosts(vhs, id))
  {
    hide HostIn, HostView, OwnsHost, WithoutInHost;
  }

  lemma RemoveBackendEdit(h: Heap, r: nat, c: FullConfig, mark: Heap, i: nat, id: string)
    requires Own(h, r, mark) && Parts(h, r, c) && Extends(mark, h) && i < |c.backends|
    ensures var root := h.roots[r];
            Achieves(h, [SetPointers(root.backends.address, Shifted(h.pointers[root.backends.address], |c.backends|, i)),
                         SetRoot(r, root.(backends := Slice(root.backends.address, |c.backends| - 1)))] +
                        HostsWrites(h, root.hosts.address, HostCells(h, root.hosts), id), r,
                     c.(backends := RemoveAt(c.backends, i), virtualHosts := WithoutInHosts(c.virtualHosts, id)), mark)
  {
    hide Own, Tagged, HostsRead, WithoutPointer, AllAbove, WithoutInHosts, RemoveAt, Parts, Top, Extends,
      HostCells, ApplyAll, HostsWrites, Shifted;
    var tags := RemovalStart(h, r, c, mark, i);
    RemovalSplit(h, r, mark, i, id);
    var g1, cells := WithoutPointer(h, r, i), HostCells(h, h.roots[r].hosts);
    HostsWritesSame(h, g1, h.roots[r].hosts.address, cells, id);
    CompactedEdit(g1, r, c.(backends := RemoveAt(c.backends, i)), mark, cells, tags, id);
  }

  /** The second half of the removal: the lists of the hosts. */
  lemma CompactedEdit(h: Heap, r: nat, c: FullConfig, mark: Heap, cells: seq<HostCell>, tags: seq<nat>, id: string)
    requires Parts(h, r, c) && Top(h, r, mark) && HostsRead(h, cells, c.virtualHosts)
    requires |cells| == h.roots[r].hosts.len && Tagged(h, cells, tags, mark)
    ensures var g := ApplyAll(h, HostsWrites(h, h.roots[r].hosts.address, cells, id));
            Parts(g, r, c.(virtualHosts := WithoutInHosts(c.virtualHosts, id))) && Top(g, r, mark)
  {
    var a := h.roots[r].hosts.address;
    assert a < |h.hosts| && |cells| <= |h.hosts[a]|;
    hide ApplyAll, HostsWrites, Tagged, HostsRead, SameExcept, WithoutInHosts, HostDone, Parts;
    var g := ApplyAll(h, HostsWrites(h, a, cells, id));
    CompactHosts(h, a, cells, tags, id, mark);
    HostsDoneReads(h, g, a, cells, tags, c.virtualHosts, id, mark);
    HostsArrayOnly(h, g, r, c, WithoutInHosts(c.virtualHosts, id));
  }

  lemma RemovalStart(h: Heap, r: nat, c: FullConfig, mark: Heap, i: nat) returns (tags: seq<nat>)
    requires Own(h, r, mark) && Parts(h, r, c) && i < |c.backends|
    ensures var s, cells := h.roots[r].hosts, HostCells(h, h.roots[r].hosts);
            var g := WithoutPointer(h, r, i);
            && r < |h.roots| && h.roots[r].backends.address < |h.pointers|
            && h.roots[r].backends.len == |c.backends| <= |h.pointers[h.roots[r].backends.address]|
            && g.hosts == h.hosts && g.lists == h.lists && g.routes == h.routes
            && Top(g, r, mark) && g.roots[r].hosts == s
            && |mark.hosts| <= s.address < |h.hosts| && |cells| == s.len <= |h.hosts[s.address]|
            && Tagged(g, cells, tags, mark)
            && HostsRead(g, cells, c.virtualHosts) && |cells| == |c.virtualHosts|
            && Parts(g, r, c.(backends := RemoveAt(c.backends, i)))
  {
    tags := TagsOf(h, r, mark);
    WithoutPointerReads(h, r, c, i);
    hide Tagged, BackendsRead, Shifted, RemoveAt, DistinctPointers;
  }

  lemma RemovalSplit(h: Heap, r: nat, mark: Heap, i: nat, id: string)
    requires Own(h, r, mark) && Extends(mark, h) && i < h.roots[r].backends.len
    ensures var root := h.roots[r];
            var v := SetPointers(root.backends.address, Shifted(h.pointers[root.backends.address], root.backends.len, i));
            var w := SetRoot(r, root.(backends := Slice(root.backends.address, root.backends.len - 1)));
            var ws := HostsWrites(h, root.hosts.address, HostCells(h, root.hosts), id);
            ApplyAll(h, [v, w] + ws) == ApplyAll(WithoutPointer(h, r, i), ws) && AllAbove([v, w] + ws, mark)
  {
    var root := h.roots[r];
    var v := SetPointers(root.backends.address, Shifted(h.pointers[root.backends.address], root.backends.len, i));
    var w := SetRoot(r, root.(backends := Slice(root.backends.address, root.backends.len - 1)));
    var ws := HostsWrites(h, root.hosts.address, HostCells(h, root.hosts), id);
    var tags := TagsOf(h, r, mark);
    ApplyTwo(h, v, w);
    ApplyConcat(h, [v, w], ws);
    hide ApplyAll, HostsWrites, Shifted, Tagged, DistinctPointers;
    AboveTwo(v, w, mark);
    HostsWritesAbove(h, root.hosts.address, HostCells(h, root.hosts), tags, id, mark);
    AboveConcat([v, w], ws, mark);
  }

  lemma HostsArrayOnly(h: Heap, g: Heap, r: nat, c: FullConfig, vhs: seq<VirtualHost>)
    requires Parts(h, r, c) && OnlyHostMemory(h, g) && |vhs| == |c.virtualHosts|
    requires var root := h.roots[r];
             root.hosts.address < |g.hosts| && root.hosts.len <= |g.hosts[root.hosts.address]| &&
             HostsRead(g, g.hosts[root.hosts.address][..root.hosts.len], vhs)
    ensures Parts(g, r, c.(virtualHosts := vhs))
  {
    hide HostsRead;
  }

  // ----- Every operation

  lemma OwnInHeap(h: Heap, r: nat, mark: Heap)
    requires Own(h, r, mark)
    ensures InHeap(h, r) && Top(h, r, mark)
    ensures DistinctPointers(Pointers(h, h.roots[r].backends), |mark.backends|)
  {
    hide RootIn;
  }

  lemma BackendOpEdit(op: Op, h: Heap, r: nat, mark: Heap, room: bool)
    requires Own(h, r, mark) && Extends(mark, h) && Mutated(op, View(h, r)).Ok?
    requires op.AddBackend? || op.UpdateBackend? || op.RemoveBackend?
    ensures Achieves(h, EditOf(op, h, r, room), r, Mutated(op, View(h, r)).value, mark)
  {
    hide Own, Parts, View, Achieves, Shifted, HostsWrites, AppendBackend, Extends, Updated, WithoutInHosts;
    OwnInHeap(h, r, mark);
    var c := View(h, r);
    PartsAreView(h, r, c);
    PointersMatch(h, r);
    match op {
      case AddBackend(b) => AppendBackendEdit(h, r, c, mark, b, room);
      case UpdateBackend(id, url, weight, enabled) =>
        var i := IndexOfBackend(c.backends, id);
        SetBackendEdit(h, r, c, mark, i, Updated(c.backends[i].value, url, weight, enabled));
      case RemoveBackend(id) => RemoveBackendEdit(h, r, c, mark, IndexOfBackend(c.backends, id), id);
    }
  }

  lemma AddHostEdit(op: Op, h: Heap, r: nat, mark: Heap, room: bool)
    requires Own(h, r, mark) && Extends(mark, h) && op.AddVirtualHost? && Mutated(op, View(h, r)).Ok?
    ensures Achieves(h, EditOf(op, h, r, room), r, Mutated(op, View(h, r)).value, mark)
  {
    hide Own, Parts, View, Achieves, AllocHost, Extends, IndexOfHost, AppendHost, DefaultedHost;
    OwnInHeap(h, r, mark);
    var c := View(h, r);
    PartsAreView(h, r, c);
    PointersMatch(h, r);
    AppendHostEdit(h, r, c, mark, DefaultedHost(op.vhost), room);
  }

  lemma RemoveHostEdit(op: Op, h: Heap, r: nat, mark: Heap, room: bool)
    requires Own(h, r, mark) && Extends(mark, h) && op.RemoveVirtualHost? && Mutated(op, View(h, r)).Ok?
    ensures Achieves(h, EditOf(op, h, r, room), r, Mutated(op, View(h, r)).value, mark)
  {
    hide Own, Parts, View, Achieves, AllocHost, Extends, IndexOfHost, Shifted, RemoveAt;
    OwnInHeap(h, r, mark);
    var c := View(h, r);
    PartsAreView(h, r, c);
    PointersMatch(h, r);
    ShiftHostsEdit(h, r, c, mark, IndexOfHost(c.virtualHosts, op.domain));
  }

  /** What is left after removing a host still shares nothing, wherever it was allocated for. */
  lemma RemoveHostKeepsOwn(h: Heap, r: nat, mark: Heap, op: Op, room: bool)
    requires Own(h, r, mark) && op.RemoveVirtualHost? && Mutated(op, View(h, r)).Ok?
    ensures Own(ApplyAll(h, EditOf(op, h, r, room)), r, mark)
  {
    hide Own, View, Shifted, IndexOfHost;
    OwnInHeap(h, r, mark);
    PointersMatch(h, r);
    var i := IndexOfHost(View(h, r).virtualHosts, op.domain);
    ShiftKeepsOwn(h, r, mark, i);
  }

  /** The two writes that take host `i` out of the list. */
  function HostShift(h: Heap, r: nat, i: nat): seq<Write>
    requires r < |h.roots| && h.roots[r].hosts.address < |h.hosts|
    requires i < h.roots[r].hosts.len <= |h.hosts[h.roots[r].hosts.address]|
  {
    var s := h.roots[r].hosts;
    [SetHosts(s.address, Shifted(h.hosts[s.address], s.len, i)), SetRoot(r, h.roots[r].(hosts := Slice(s.address, s.len - 1)))]
  }

  lemma ShiftKeepsOwn(h: Heap, r: nat, mark: Heap, i: nat)
    requires Own(h, r, mark) && i < h.roots[r].hosts.len
    ensures Own(ApplyAll(h, HostShift(h, r, i)), r, mark)
  {
    hide Shifted, Tagged, HostIn;
    var root, n := h.roots[r], h.roots[r].hosts.len;
    var cells := h.hosts[root.hosts.address];
    var tags :| Tagged(h, cells[..n], tags, mark);
    var ws := HostShift(h, r, i);
    ApplyTwo(h, ws[0], ws[1]);
    assert ws == [ws[0], ws[1]];
    var g := Apply(Apply(h, ws[0]), ws[1]);
    hide ApplyAll;
    ShiftedIsRemoved(cells, n, i);
    RemovedTag(h, g, cells[..n], tags, i, mark);
    assert Pointers(g, root.backends) == Pointers(h, root.backends);
    assert g.hosts[root.hosts.address][..n - 1] == RemoveAt(cells[..n], i);
    hide RemoveAt, Apply, DistinctPointers;
  }

  lemma RemovedTag(h: Heap, g: Heap, cells: seq<HostCell>, tags: seq<nat>, i: nat, mark: Heap)
    requires Tagged(h, cells, tags, mark) && g.lists == h.lists && g.routes == h.routes && i < |cells|
    ensures Tagged(g, RemoveAt(cells, i), RemoveAt(tags, i), mark)
    ensures forall k :: 0 <= k < |RemoveAt(cells, i)| ==> HostIn(g, RemoveAt(cells, i)[k])
  {
    TagsStay(h, g, cells, tags, mark);
    hide HostIn, OwnsHost;
  }

  lemma UpdateHostEdit(op: Op, h: Heap, r: nat, mark: Heap, room: bool)
    requires Own(h, r, mark) && Extends(mark, h) && op.UpdateVirtualHost? && Mutated(op, View(h, r)).Ok?
    ensures Achieves(h, EditOf(op, h, r, room), r, Mutated(op, View(h, r)).value, mark)
  {
    hide Own, Parts, View, Achieves, AllocHost, Extends, IndexOfHost, HostUpdate;
    OwnInHeap(h, r, mark);
    var c := View(h, r);
    PartsAreView(h, r, c);
    PointersMatch(h, r);
    var i := IndexOfHost(c.virtualHosts, op.domain);
    SetNewHostEdit(h, r, c, mark, i, HostUpdate(op.domain, op.vhost, c.virtualHosts[i]));
  }

  lemma AssignPolicyEdit(op: Op, h: Heap, r: nat, mark: Heap, room: bool)
    requires Own(h, r, mark) && Extends(mark, h) && op.SetVirtualHostSecurityPolicy? && Mutated(op, View(h, r)).Ok?
    ensures Achieves(h, EditOf(op, h, r, room), r, Mutated(op, View(h, r)).value, mark)
  {
    hide Own, Parts, View, Achieves, AllocHost, Extends, IndexOfHost, HostCells;
    OwnInHeap(h, r, mark);
    var c := View(h, r);
    PartsAreView(h, r, c);
    PointersMatch(h, r);
    SetHostPolicyEdit(h, r, c, mark, IndexOfHost(c.virtualHosts, op.domain), op.policyID);
  }

  lemma UpsertPolicyEdit(op: Op, h: Heap, r: nat, mark: Heap, room: bool)
    requires Own(h, r, mark) && Extends(mark, h) && op.UpsertPolicy? && Mutated(op, View(h, r)).Ok?
    ensures Achieves(h, EditOf(op, h, r, room), r, Mutated(op, View(h, r)).value, mark)
  {
    hide Own, Parts, View, Achieves, Extends, AppendPolicy, IndexOfPolicy;
    OwnInHeap(h, r, mark);
    var root, c := h.roots[r], View(h, r);
    PartsAreView(h, r, c);
    PointersMatch(h, r);
    var i := IndexOfPolicy(c.policies, op.policy.id);
    if i < |c.policies| {
      SetPolicyEdit(h, r, c, mark, i, op.policy);
    } else {
      AppendPolicyEdit(h, r, c, mark, op.policy, room);
    }
  }

  lemma FieldEdit(op: Op, h: Heap, r: nat, mark: Heap, room: bool)
    requires Own(h, r, mark) && Extends(mark, h) && (op.UpdateServer? || op.UpdateLoadBalancer?) && Mutated(op, View(h, r)).Ok?
    ensures Achieves(h, EditOf(op, h, r, room), r, Mutated(op, View(h, r)).value, mark)
  {
    hide Own, Parts, View, Achieves, Extends;
    OwnInHeap(h, r, mark);
    var root, c := h.roots[r], View(h, r);
    PartsAreView(h, r, c);
    PointersMatch(h, r);
    var flat := if op.UpdateServer? then root.flat.(server := Mutated(op, c).value.server) else root.flat.(strategy := op.strategy);
    SetRootEdit(h, r, c, mark, flat);
  }

  /**
   On a configuration of its own, an operation's writes achieve what the operation means,
   and none of them touches memory older than the configuration.
   */
  lemma EditIsMutation(op: Op, h: Heap, r: nat, mark: Heap, room: bool)
    requires Own(h, r, mark) && Extends(mark, h) && Mutated(op, View(h, r)).Ok? && !op.Replace?
    ensures Achieves(h, EditOf(op, h, r, room), r, Mutated(op, View(h, r)).value, mark)
  {
    hide *;
    if op.AddBackend? || op.UpdateBackend? || op.RemoveBackend? {
      BackendOpEdit(op, h, r, mark, room);
    } else if op.UpsertPolicy? {
      UpsertPolicyEdit(op, h, r, mark, room);
    } else if op.UpdateServer? || op.UpdateLoadBalancer? {
      FieldEdit(op, h, r, mark, room);
    } else if op.AddVirtualHost? {
      AddHostEdit(op, h, r, mark, room);
    } else if op.RemoveVirtualHost? {
      RemoveHostEdit(op, h, r, mark, room);
    } else if op.UpdateVirtualHost? {
      UpdateHostEdit(op, h, r, mark, room);
    } else {
      AssignPolicyEdit(op, h, r, mark, room);
    }
  }

  /** The lists a reader sees are as long as the slices. */
  lemma PointersMatch(h: Heap, r: nat)
    requires InHeap(h, r)
    ensures var root, c := h.roots[r], View(h, r);
            && |Pointers(h, root.backends)| == |c.backends| == root.backends.len
            && |HostCells(h, root.hosts)| == |c.virtualHosts| == root.hosts.len
            && root.flat == c.(backends := root.flat.backends, policies := root.flat.policies, virtualHosts := root.flat.virtualHosts)
  {
  }

  // ----- Defaults

  function DefaultedCells(cells: seq<HostCell>): seq<HostCell> {
    seq(|cells|, i requires 0 <= i < |cells| =>
      cells[i].(securityPolicyID := OrString(cells[i].securityPolicyID, "default")))
  }

  lemma {:induction false} HostDefaults(h: Heap, a: nat, cells: seq<HostCell>)
    requires a < |h.hosts| && cells <= h.hosts[a]
    ensures ApplyAll(h, HostDefaultWrites(a, cells)) ==
            h.(hosts := h.hosts[a := DefaultedCells(cells) + h.hosts[a][|cells|..]])
  {
    if cells == [] {
      NoHostDefaults(h, a);
    } else {
      hide ApplyAll, HostDefaultWrites, DefaultedCells;
      var n := |cells| - 1;
      HostDefaults(h, a, cells[..n]);
      NextDefault(h.hosts[a], cells);
      LastHostDefault(h, a, cells);
      var xs := DefaultedCells(cells[..n]) + h.hosts[a][n..];
      var ys := xs[n := cells[n].(securityPolicyID := "default")];
      assert h.hosts[a := xs][a := ys] == h.hosts[a := ys];
    }
  }

  lemma NoHostDefaults(h: Heap, a: nat)
    requires a < |h.hosts|
    ensures ApplyAll(h, HostDefaultWrites(a, [])) == h
    ensures h.hosts[a := DefaultedCells([]) + h.hosts[a][0..]] == h.hosts
  {
    assert DefaultedCells([]) + h.hosts[a][0..] == h.hosts[a];
  }

  lemma LastHostDefault(h: Heap, a: nat, cells: seq<HostCell>)
    requires cells != []
    ensures var n := |cells| - 1;
            var g := ApplyAll(h, HostDefaultWrites(a, cells[..n]));
            ApplyAll(h, HostDefaultWrites(a, cells)) ==
            if cells[n].securityPolicyID == "" then Apply(g, SetHost(a, n, cells[n].(securityPolicyID := "default"))) else g
  {
    var n := |cells| - 1;
    var front, w := HostDefaultWrites(a, cells[..n]), SetHost(a, n, cells[n].(securityPolicyID := "default"));
    if cells[n].securityPolicyID == "" {
      ApplyConcat(h, front, [w]);
      ApplyOne(ApplyAll(h, front), w);
    } else {
      assert front + [] == front;
    }
    hide ApplyAll, Apply;
  }

  lemma NextDefault(xs: seq<HostCell>, cells: seq<HostCell>)
    requires cells != [] && cells <= xs
    ensures var n := |cells| - 1;
            var front, last := DefaultedCells(cells[..n]) + xs[n..], cells[n];
            && n < |front|
            && DefaultedCells(cells) + xs[|cells|..] ==
               if last.securityPolicyID == "" then front[n := last.(securityPolicyID := "default")] else front
  {
  }

  lemma {:induction false} HostDefaultsAbove(a: nat, cells: seq<HostCell>, mark: Heap)
    requires |mark.hosts| <= a
    ensures AllAbove(HostDefaultWrites(a, cells), mark)
  {
    if cells != [] {
      HostDefaultsAbove(a, cells[..|cells| - 1], mark);
    }
  }

  lemma DefaultedHostsRead(h: Heap, g: Heap, cells: seq<HostCell>, vhs: seq<VirtualHost>)
    requires HostsRead(h, cells, vhs) && g.lists == h.lists && g.routes == h.routes
    ensures HostsRead(g, DefaultedCells(cells), DefaultedHosts(vhs))
  {
    HostsReadStable(h, g, cells, vhs);
    forall i | 0 <= i < |cells|
      ensures HostIn(g, DefaultedCells(cells)[i]) && HostView(g, DefaultedCells(cells)[i]) == DefaultedHost(vhs[i])
    {
      PolicyOnly(g, cells[i], OrString(cells[i].securityPolicyID, "default"));
      assert vhs[i].securityPolicyID == cells[i].securityPolicyID;
    }
    hide HostIn, HostView;
  }

  /** The fields and the policies after the first part of the pass. */
  function FieldsDefaulted(h: Heap, r: nat): Heap
    requires r < |h.roots|
  {
    var root := h.roots[r];
    var complete := WithDefaultPolicy(PolicyCells(h, root.policies));
    var fields := root.(flat := Defaulted(root.flat));
    if complete == PolicyCells(h, root.policies) then h.(roots := h.roots[r := fields])
    else h.(policies := h.policies + [complete],
            roots := h.roots[r := fields.(policies := Slice(|h.policies|, |complete|))])
  }

  lemma DefaultWritesSplit(h: Heap, r: nat, mark: Heap)
    requires Top(h, r, mark) && Extends(mark, h)
    ensures var root := h.roots[r];
            && ApplyAll(h, DefaultWrites(h, r)) ==
               ApplyAll(FieldsDefaulted(h, r), HostDefaultWrites(root.hosts.address, HostCells(h, root.hosts)))
            && AllAbove(DefaultWrites(h, r), mark)
  {
    var root := h.roots[r];
    var ps := PolicyCells(h, root.policies);
    var complete := WithDefaultPolicy(ps);
    var fields := root.(flat := Defaulted(root.flat));
    var rest := HostDefaultWrites(root.hosts.address, HostCells(h, root.hosts));
    hide WithDefaultPolicy, Defaulted, PolicyCells, HostCells;
    HostDefaultsAbove(root.hosts.address, HostCells(h, root.hosts), mark);
    if complete == ps {
      ApplyOne(h, SetRoot(r, fields));
      ApplyConcat(h, [SetRoot(r, fields)], rest);
      AboveConcat([SetRoot(r, fields)], rest, mark);
    } else {
      var v, w := NewPolicies(complete), SetRoot(r, fields.(policies := Slice(|h.policies|, |complete|)));
      ApplyTwo(h, v, w);
      ApplyConcat(h, [v, w], rest);
      AboveTwo(v, w, mark);
      AboveConcat([v, w], rest, mark);
    }
    hide ApplyAll, HostDefaultWrites, AllAbove;
  }

  lemma FieldsRead(h: Heap, r: nat, c: FullConfig)
    requires Parts(h, r, c)
    ensures Parts(FieldsDefaulted(h, r), r, Defaulted(c).(virtualHosts := c.virtualHosts))
  {
    var root := h.roots[r];
    var g := FieldsDefaulted(h, r);
    HostsReadStable(h, g, h.hosts[root.hosts.address][..root.hosts.len], c.virtualHosts);
    BackendsReadStable(h, g, h.pointers[root.backends.address][..root.backends.len], c.backends);
    hide HostsRead, BackendsRead, HostIn, HostView, DefaultedHosts, WithDefaultPolicy, DefaultedHealth, DefaultedTimeouts;
    var complete := WithDefaultPolicy(c.policies);
    assert (h.policies + [complete])[|h.policies|][..|complete|] == complete;
  }

  /** ApplyDefaults in place is defaulting. */
  lemma DefaultEdit(h: Heap, r: nat, c: FullConfig, mark: Heap)
    requires Top(h, r, mark) && Parts(h, r, c) && Extends(mark, h)
    ensures Achieves(h, DefaultWrites(h, r), r, Defaulted(c), mark)
  {
    var root := h.roots[r];
    var a, cells := root.hosts.address, HostCells(h, root.hosts);
    var g1 := FieldsDefaulted(h, r);
    DefaultWritesSplit(h, r, mark);
    FieldsRead(h, r, c);
    assert g1.hosts == h.hosts && g1.lists == h.lists && g1.routes == h.routes && r < |g1.roots| && Top(g1, r, mark);
    hide DefaultWrites, AllAbove, ApplyAll, HostDefaultWrites, FieldsDefaulted;
    HostDefaults(g1, a, cells);
    var g := g1.(hosts := g1.hosts[a := DefaultedCells(cells) + g1.hosts[a][|cells|..]]);
    DefaultedHostsRead(h, g, cells, c.virtualHosts);
    hide HostsRead, BackendsRead, Defaulted, DefaultedHosts;
    assert |DefaultedCells(cells)| == |cells|;
    assert g.hosts[a][..root.hosts.len] == DefaultedCells(cells);
    assert Defaulted(c).virtualHosts == DefaultedHosts(c.virtualHosts) by {
      DefaultedHostList(c);
    }
    HostsArrayOnly(g1, g, r, Defaulted(c).(virtualHosts := c.virtualHosts), DefaultedHosts(c.virtualHosts));
  }

  lemma DefaultedHostList(c: FullConfig)
    ensures Defaulted(c).virtualHosts == DefaultedHosts(c.virtualHosts)
  {
  }
}
