/**
 The mutators of internal/config/service.go and the defaulting pass of
 internal/config/defaults.go as the writes they make in memory, in order.  On a
 configuration that shares nothing the writes amount to the operation of the value model,
 and they stay within that configuration.
 */
module Edits {
  import opened Base
  import opened Config
  import opened Defaults
  import opened ServiceModel
  import opened Memory

  datatype Write =
    | SetRoot(r: nat, root: Root)
    | SetBackend(p: nat, b: BackendConfig)
    | SetPointers(address: nat, pointers: seq<Option<nat>>)
    | SetPolicies(address: nat, policies: seq<SecurityPolicy>)
    | SetHosts(address: nat, hosts: seq<HostCell>)
    | SetHost(address: nat, i: nat, host: HostCell)
    | SetRoute(address: nat, j: nat, route: RouteCell)
    | SetList(address: nat, items: seq<string>)
    | NewBackend(b: BackendConfig)
    | NewPointers(pointers: seq<Option<nat>>)
    | NewPolicies(policies: seq<SecurityPolicy>)
    | NewHosts(hosts: seq<HostCell>)
    | NewHost(i: nat, vh: VirtualHost)      // the argument of an operation, in memory of its own

  function Apply(h: Heap, w: Write): Heap {
    match w
    case SetRoot(r, root) => if r < |h.roots| then h.(roots := h.roots[r := root]) else h
    case SetBackend(p, b) => if p < |h.backends| then h.(backends := h.backends[p := b]) else h
    case SetPointers(a, ps) => if a < |h.pointers| then h.(pointers := h.pointers[a := ps]) else h
    case SetPolicies(a, ps) => if a < |h.policies| then h.(policies := h.policies[a := ps]) else h
    case SetHosts(a, vhs) => if a < |h.hosts| then h.(hosts := h.hosts[a := vhs]) else h
    case SetHost(a, i, vh) =>
      if a < |h.hosts| && i < |h.hosts[a]| then h.(hosts := h.hosts[a := h.hosts[a][i := vh]]) else h
    case SetRoute(a, j, r) =>
      if a < |h.routes| && j < |h.routes[a].items|
      then h.(routes := h.routes[a := h.routes[a].(items := h.routes[a].items[j := r])]) else h
    case SetList(a, xs) => if a < |h.lists| then h.(lists := h.lists[a := h.lists[a].(items := xs)]) else h
    case NewBackend(b) => h.(backends := h.backends + [b])
    case NewPointers(ps) => h.(pointers := h.pointers + [ps])
    case NewPolicies(ps) => h.(policies := h.policies + [ps])
    case NewHosts(vhs) => h.(hosts := h.hosts + [vhs])
    case NewHost(i, vh) => AllocHost(h, i, vh).0
  }

  function ApplyAll(h: Heap, ws: seq<Write>): Heap
    decreases |ws|
  {
    if ws == [] then h else ApplyAll(Apply(h, ws[0]), ws[1..])
  }

  lemma {:induction false} ApplyConcat(h: Heap, a: seq<Write>, b: seq<Write>)
    ensures ApplyAll(h, a + b) == ApplyAll(ApplyAll(h, a), b)
    decreases |a|
  {
    if a == [] {
      assert a + b == b;
    } else {
      ApplyConcat(Apply(h, a[0]), a[1..], b);
      assert (a + b)[1..] == a[1..] + b;
    }
  }

  lemma ApplyOne(h: Heap, w: Write)
    ensures ApplyAll(h, [w]) == Apply(h, w)
  {
    assert [w][1..] == [];
  }

  lemma ApplyTwo(h: Heap, v: Write, w: Write)
    ensures ApplyAll(h, [v, w]) == Apply(Apply(h, v), w)
  {
    hide Apply;
    assert [v, w][1..] == [w];
    ApplyOne(Apply(h, v), w);
  }

  lemma ApplyThree(h: Heap, u: Write, v: Write, w: Write)
    ensures ApplyAll(h, [u, v, w]) == Apply(Apply(Apply(h, u), v), w)
  {
    hide Apply;
    assert [u, v, w][1..] == [v, w];
    ApplyTwo(Apply(h, u), v, w);
  }

  /** The write does not touch anything that existed at `mark`. */
  ghost predicate Above(w: Write, mark: Heap) {
    match w
    case SetRoot(r, _) => |mark.roots| <= r
    case SetBackend(p, _) => |mark.backends| <= p
    case SetPointers(a, _) => |mark.pointers| <= a
    case SetPolicies(a, _) => |mark.policies| <= a
    case SetHosts(a, _) => |mark.hosts| <= a
    case SetHost(a, _, _) => |mark.hosts| <= a
    case SetRoute(a, _, _) => |mark.routes| <= a
    case SetList(a, _) => |mark.lists| <= a
    case _ => true
  }

  ghost predicate AllAbove(ws: seq<Write>, mark: Heap) {
    forall k :: 0 <= k < |ws| ==> Above(ws[k], mark)
  }

  lemma WriteExtends(mark: Heap, h: Heap, w: Write)
    requires Extends(mark, h) && Above(w, mark)
    ensures Extends(mark, Apply(h, w))
  {
  }

  // ----- The writes of each operation

  /** Without the element at `i`; what lies beyond the new length is left as it was. */
  function Shifted<T>(xs: seq<T>, len: nat, i: nat): seq<T>
    requires i < len <= |xs|
  {
    xs[..i] + xs[i + 1..len] + xs[len - 1..]
  }

  /** What removeString leaves in the array (`Services.RemoveString`). */
  function Compacted(xs: seq<string>, len: nat, id: string): seq<string> {
    var kept := Without(Items(xs, len), id);
    if |kept| <= |xs| then kept + xs[|kept|..] else kept
  }

  function KeptSlice(h: Heap, s: Slice, id: string): Slice {
    s.(len := |Without(ListAt(h, s), id)|)
  }

  function CompactList(h: Heap, s: Slice, id: string): Write {
    SetList(s.address, if s.address < |h.lists| then Compacted(h.lists[s.address].items, s.len, id) else [])
  }

  function RouteWrites(h: Heap, address: nat, cells: seq<RouteCell>, id: string): seq<Write> {
    if cells == [] then []
    else
      var j := |cells| - 1;
      RouteWrites(h, address, cells[..j], id) +
      [CompactList(h, cells[j].backendIDs, id),
       SetRoute(address, j, cells[j].(backendIDs := KeptSlice(h, cells[j].backendIDs, id)))]
  }

  function HostWrites(h: Heap, address: nat, i: nat, vh: HostCell, id: string): seq<Write> {
    [CompactList(h, vh.backendIDs, id), SetHost(address, i, vh.(backendIDs := KeptSlice(h, vh.backendIDs, id)))] +
    RouteWrites(h, vh.pathRoutes.address, RouteCells(h, vh.pathRoutes), id)
  }

  function HostsWrites(h: Heap, address: nat, cells: seq<HostCell>, id: string): seq<Write> {
    if cells == [] then []
    else
      HostsWrites(h, address, cells[..|cells| - 1], id) +
      HostWrites(h, address, |cells| - 1, cells[|cells| - 1], id)
  }

  /** Go's append: in place when the array has room, otherwise into a new array. */
  function AppendBackend(h: Heap, r: nat, root: Root, p: nat, room: bool): seq<Write> {
    var ps := Pointers(h, root.backends) + [Some(p)];
    if room then [SetPointers(root.backends.address, ps), SetRoot(r, root.(backends := Slice(root.backends.address, |ps|)))]
    else [NewPointers(ps), SetRoot(r, root.(backends := Slice(|h.pointers|, |ps|)))]
  }

  function AppendPolicy(h: Heap, r: nat, root: Root, policy: SecurityPolicy, room: bool): seq<Write> {
    var ps := PolicyCells(h, root.policies) + [policy];
    if room then [SetPolicies(root.policies.address, ps), SetRoot(r, root.(policies := Slice(root.policies.address, |ps|)))]
    else [NewPolicies(ps), SetRoot(r, root.(policies := Slice(|h.policies|, |ps|)))]
  }

  function AppendHost(h: Heap, r: nat, root: Root, cell: HostCell, room: bool): seq<Write> {
    var cells := HostCells(h, root.hosts) + [cell];
    if room then [SetHosts(root.hosts.address, cells), SetRoot(r, root.(hosts := Slice(root.hosts.address, |cells|)))]
    else [NewHosts(cells), SetRoot(r, root.(hosts := Slice(|h.hosts|, |cells|)))]
  }

  function BackendOpWrites(op: Op, h: Heap, r: nat, room: bool): seq<Write>
    requires r < |h.roots| && Mutated(op, View(h, r)).Ok? && (op.AddBackend? || op.UpdateBackend? || op.RemoveBackend?)
  {
    var root, c := h.roots[r], View(h, r);
    match op
    case AddBackend(b) => [NewBackend(b)] + AppendBackend(h, r, root, |h.backends|, room)
    case UpdateBackend(id, url, weight, enabled) =>
      var i := IndexOfBackend(c.backends, id);
      [SetBackend(Pointers(h, root.backends)[i].value, Updated(c.backends[i].value, url, weight, enabled))]
    case RemoveBackend(id) =>
      [SetPointers(root.backends.address, Shifted(h.pointers[root.backends.address], |c.backends|, IndexOfBackend(c.backends, id))),
       SetRoot(r, root.(backends := Slice(root.backends.address, |c.backends| - 1)))] +
      HostsWrites(h, root.hosts.address, HostCells(h, root.hosts), id)
  }

  function HostListWrites(op: Op, h: Heap, r: nat, room: bool): seq<Write>
    requires r < |h.roots| && Mutated(op, View(h, r)).Ok? && (op.AddVirtualHost? || op.RemoveVirtualHost?)
  {
    var root, c := h.roots[r], View(h, r);
    var n := |c.virtualHosts|;
    match op
    case AddVirtualHost(vh) =>
      [NewHost(n, DefaultedHost(vh))] + AppendHost(h, r, root, AllocHost(h, n, DefaultedHost(vh)).1, room)
    case RemoveVirtualHost(domain) =>
      [SetHosts(root.hosts.address, Shifted(h.hosts[root.hosts.address], n, IndexOfHost(c.virtualHosts, domain))),
       SetRoot(r, root.(hosts := Slice(root.hosts.address, n - 1)))]
  }

  function HostCellWrites(op: Op, h: Heap, r: nat): seq<Write>
    requires r < |h.roots| && Mutated(op, View(h, r)).Ok? && (op.UpdateVirtualHost? || op.SetVirtualHostSecurityPolicy?)
  {
    var root, c := h.roots[r], View(h, r);
    var i := IndexOfHost(c.virtualHosts, op.domain);
    match op
    case UpdateVirtualHost(domain, vh) =>
      var updated := HostUpdate(domain, vh, c.virtualHosts[i]);
      [NewHost(i, updated), SetHost(root.hosts.address, i, AllocHost(h, i, updated).1)]
    case SetVirtualHostSecurityPolicy(domain, policyID) =>
      [SetHost(root.hosts.address, i, HostCells(h, root.hosts)[i].(securityPolicyID := policyID))]
  }

  /** The writes an accepted operation makes to the configuration at `r`. */
  function EditOf(op: Op, h: Heap, r: nat, room: bool): seq<Write>
    requires r < |h.roots| && Mutated(op, View(h, r)).Ok?
  {
    var root, c := h.roots[r], View(h, r);
    match op
    case UpdateServer(_, _) => [SetRoot(r, root.(flat := root.flat.(server := Mutated(op, c).value.server)))]
    case UpsertPolicy(policy) =>
      var i := IndexOfPolicy(c.policies, policy.id);
      if i < |c.policies| then [SetPolicies(root.policies.address, h.policies[root.policies.address][i := policy])]
      else AppendPolicy(h, r, root, policy, room)
    case UpdateLoadBalancer(strategy) => [SetRoot(r, root.(flat := root.flat.(strategy := strategy)))]
    // Replace installs the caller's configuration and edits nothing before defaulting it.
    case Replace(_) => []
    case AddBackend(_) => BackendOpWrites(op, h, r, room)
    case UpdateBackend(_, _, _, _) => BackendOpWrites(op, h, r, room)
    case RemoveBackend(_) => BackendOpWrites(op, h, r, room)
    case AddVirtualHost(_) => HostListWrites(op, h, r, room)
    case RemoveVirtualHost(_) => HostListWrites(op, h, r, room)
    case UpdateVirtualHost(_, _) => HostCellWrites(op, h, r)
    case SetVirtualHostSecurityPolicy(_, _) => HostCellWrites(op, h, r)
  }

  function HostDefaultWrites(address: nat, cells: seq<HostCell>): seq<Write> {
    if cells == [] then []
    else
      var i := |cells| - 1;
      HostDefaultWrites(address, cells[..i]) +
      if cells[i].securityPolicyID == "" then [SetHost(address, i, cells[i].(securityPolicyID := "default"))] else []
  }

  /** ApplyDefaults: a new policy array if the default policy is missing, then the fields left empty. */
  function DefaultWrites(h: Heap, r: nat): seq<Write>
    requires r < |h.roots|
  {
    var root := h.roots[r];
    var ps := PolicyCells(h, root.policies);
    var complete := WithDefaultPolicy(ps);
    var fields := root.(flat := Defaulted(root.flat));
    (if complete == ps then [SetRoot(r, fields)]
     else [NewPolicies(complete), SetRoot(r, fields.(policies := Slice(|h.policies|, |complete|)))]) +
    HostDefaultWrites(root.hosts.address, HostCells(h, root.hosts))
  }
}
