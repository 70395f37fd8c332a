/**
 The cascade of RemoveBackend (internal/config/service.go) in memory: removeString compacts
 the list of every host and of every route in place, one after the other.
 */
module Removal {
  import opened Config
  import opened ServiceModel
  import opened Memory
  import opened Edits

  lemma {:induction false} WithoutShrinks(xs: seq<string>, id: string)
    ensures |Without(xs, id)| <= |xs|
  {
    if xs != [] {
      WithoutShrinks(xs[..|xs| - 1], id);
    }
  }

  lemma CompactedReads(xs: seq<string>, len: nat, id: string)
    requires len <= |xs|
    ensures var kept := Without(xs[..len], id);
            |kept| <= len && |Compacted(xs, len, id)| == |xs| && Compacted(xs, len, id)[..|kept|] == kept
  {
    WithoutShrinks(xs[..len], id);
  }

  // ----- What a step leaves alone

  /** Lists and routes stay in place; those not allocated for host `i` keep their contents. */
  ghost predicate OnlyHost(g: Heap, g': Heap, i: nat) {
    && |g'.lists| == |g.lists| && |g'.routes| == |g.routes|
    && (forall x :: 0 <= x < |g.lists| ==>
          g'.lists[x].place == g.lists[x].place && (g.lists[x].place.i != i ==> g'.lists[x] == g.lists[x]))
    && (forall y :: 0 <= y < |g.routes| ==>
          g'.routes[y].host == g.routes[y].host && (g.routes[y].host != i ==> g'.routes[y] == g.routes[y]))
  }

  /** What was allocated for hosts other than those in `done` is as it was. */
  ghost predicate SameExcept(h: Heap, g: Heap, done: seq<nat>) {
    && |g.lists| == |h.lists| && |g.routes| == |h.routes|
    && (forall x :: 0 <= x < |h.lists| ==>
          g.lists[x].place == h.lists[x].place && (h.lists[x].place.i !in done ==> g.lists[x] == h.lists[x]))
    && (forall y :: 0 <= y < |h.routes| ==>
          g.routes[y].host == h.routes[y].host && (h.routes[y].host !in done ==> g.routes[y] == h.routes[y]))
  }

  // ----- The routes of one host

  /** The lists of the routes of host `i`, as they were allocated. */
  ghost predicate RouteListsIn(lists: seq<List>, cells: seq<RouteCell>, i: nat) {
    forall j :: 0 <= j < |cells| ==>
      var s := cells[j].backendIDs;
      s.address < |lists| && s.len <= |lists[s.address].items| && lists[s.address].place == OfRoute(i, j)
  }

  /** The place of a list of one of the first `n` routes of host `i`. */
  predicate InRoutes(place: Place, i: nat, n: nat) {
    place.OfRoute? && place.i == i && place.j < n
  }

  /** From `before` to `after` the lists of the routes in `cells` are compacted, and no other. */
  ghost predicate ListsDone(lists: seq<List>, before: seq<List>, after: seq<List>, cells: seq<RouteCell>, i: nat, id: string)
    requires RouteListsIn(lists, cells, i)
  {
    && |after| == |before| == |lists|
    && (forall x :: 0 <= x < |lists| ==> after[x].place == before[x].place)
    && (forall x :: 0 <= x < |lists| && !InRoutes(before[x].place, i, |cells|) ==> after[x] == before[x])
    && (forall j :: 0 <= j < |cells| ==>
          var s := cells[j].backendIDs;
          after[s.address].items == Compacted(lists[s.address].items, s.len, id))
  }

  /** The slices of the routes in `cells` have their new lengths, the rest of the array is as before. */
  ghost predicate SlicesDone(h: Heap, before: seq<Routes>, after: seq<Routes>, ra: nat, cells: seq<RouteCell>, id: string) {
    && ra < |before| && |cells| <= |before[ra].items| && |after| == |before|
    && (forall y :: 0 <= y < |before| && y != ra ==> after[y] == before[y])
    && after[ra].host == before[ra].host && |after[ra].items| == |before[ra].items|
    && (forall j :: 0 <= j < |cells| ==>
          after[ra].items[j] == cells[j].(backendIDs := KeptSlice(h, cells[j].backendIDs, id)))
    && (forall j :: |cells| <= j < |before[ra].items| ==> after[ra].items[j] == before[ra].items[j])
  }

  /** The lists of the routes of host `i` are in `lists` what they are in `before`. */
  ghost predicate SameRouteLists(lists: seq<List>, before: seq<List>, i: nat) {
    |before| == |lists| && forall x :: 0 <= x < |lists| ==>
      before[x].place == lists[x].place && (lists[x].place.OfRoute? && lists[x].place.i == i ==> before[x] == lists[x])
  }

  lemma {:induction false} CompactRoutes(h: Heap, g: Heap, ra: nat, cells: seq<RouteCell>, i: nat, id: string)
    requires RouteListsIn(h.lists, cells, i) && SameRouteLists(h.lists, g.lists, i)
    requires ra < |g.routes| && |cells| <= |g.routes[ra].items|
    ensures var g' := ApplyAll(g, RouteWrites(h, ra, cells, id));
            && g' == g.(lists := g'.lists, routes := g'.routes)
            && ListsDone(h.lists, g.lists, g'.lists, cells, i, id) && SlicesDone(h, g.routes, g'.routes, ra, cells, id)
  {
    if cells != [] {
      var n := |cells| - 1;
      assert RouteListsIn(h.lists, cells[..n], i);
      CompactRoutes(h, g, ra, cells[..n], i, id);
      var g1 := ApplyAll(g, RouteWrites(h, ra, cells[..n], id));
      OneMoreList(h.lists, g.lists, g1.lists, cells, i, id);
      OneMoreSlice(h, g.routes, g1.routes, ra, cells, id);
      LastRoute(h, g, ra, cells, id);
      hide *;
      ListAndRoute(h, g1, ra, n, cells[n], id);
    }
  }

  lemma ListAndRoute(h: Heap, g: Heap, ra: nat, n: nat, cell: RouteCell, id: string)
    requires cell.backendIDs.address < |g.lists| && cell.backendIDs.address < |h.lists| && ra < |g.routes| && n < |g.routes[ra].items|
    ensures var s := cell.backendIDs;
            Apply(Apply(g, CompactList(h, s, id)), SetRoute(ra, n, cell.(backendIDs := KeptSlice(h, s, id)))) ==
            g.(lists := g.lists[s.address := g.lists[s.address].(items := Compacted(h.lists[s.address].items, s.len, id))],
               routes := g.routes[ra := g.routes[ra].(items := g.routes[ra].items[n := cell.(backendIDs := KeptSlice(h, s, id))])])
  {
    hide Compacted, KeptSlice;
  }

  lemma LastRoute(h: Heap, g: Heap, ra: nat, cells: seq<RouteCell>, id: string)
    requires cells != []
    ensures var n := |cells| - 1;
            var g1 := ApplyAll(g, RouteWrites(h, ra, cells[..n], id));
            ApplyAll(g, RouteWrites(h, ra, cells, id)) ==
            Apply(Apply(g1, CompactList(h, cells[n].backendIDs, id)),
                  SetRoute(ra, n, cells[n].(backendIDs := KeptSlice(h, cells[n].backendIDs, id))))
  {
    var n := |cells| - 1;
    var v, w := CompactList(h, cells[n].backendIDs, id), SetRoute(ra, n, cells[n].(backendIDs := KeptSlice(h, cells[n].backendIDs, id)));
    ApplyConcat(g, RouteWrites(h, ra, cells[..n], id), [v, w]);
    ApplyTwo(ApplyAll(g, RouteWrites(h, ra, cells[..n], id)), v, w);
    hide Apply, ApplyAll, CompactList, KeptSlice;
  }

  lemma OneMoreList(lists: seq<List>, before: seq<List>, after: seq<List>, cells: seq<RouteCell>, i: nat, id: string)
    requires cells != [] && RouteListsIn(lists, cells, i) && SameRouteLists(lists, before, i)
    requires RouteListsIn(lists, cells[..|cells| - 1], i) && ListsDone(lists, before, after, cells[..|cells| - 1], i, id)
    ensures var s := cells[|cells| - 1].backendIDs;
            && s.address < |after| && s.address < |lists|
            && ListsDone(lists, before,
                 after[s.address := after[s.address].(items := Compacted(lists[s.address].items, s.len, id))], cells, i, id)
  {
    hide Compacted;
    var n := |cells| - 1;
    assert forall j :: 0 <= j < n ==> cells[..n][j] == cells[j] && cells[j].backendIDs.address != cells[n].backendIDs.address;
  }

  lemma OneMoreSlice(h: Heap, before: seq<Routes>, after: seq<Routes>, ra: nat, cells: seq<RouteCell>, id: string)
    requires cells != [] && SlicesDone(h, before, after, ra, cells[..|cells| - 1], id) && |cells| <= |before[ra].items|
    ensures var n := |cells| - 1;
            var cell := cells[n].(backendIDs := KeptSlice(h, cells[n].backendIDs, id));
            && ra < |after| && n < |after[ra].items|
            && SlicesDone(h, before, after[ra := after[ra].(items := after[ra].items[n := cell])], ra, cells, id)
  {
    hide KeptSlice;
  }

  // ----- One host

  /** The parts of host `i` in `g` are what they were in `h`. */
  ghost predicate SameHost(h: Heap, g: Heap, i: nat) {
    && |g.lists| == |h.lists| && |g.routes| == |h.routes|
    && (forall x :: 0 <= x < |h.lists| ==>
          g.lists[x].place == h.lists[x].place && (h.lists[x].place.i == i ==> g.lists[x] == h.lists[x]))
    && (forall y :: 0 <= y < |h.routes| ==>
          g.routes[y].host == h.routes[y].host && (h.routes[y].host == i ==> g.routes[y] == h.routes[y]))
  }

  ghost predicate OnlyHostMemory(h: Heap, g: Heap) {
    g == h.(lists := g.lists, routes := g.routes, hosts := g.hosts)
  }

  /** The first two writes for a host: its own list and its own slice. */
  function OwnListDone(h: Heap, g: Heap, a: nat, i: nat, vh: HostCell, id: string): Heap
    requires a < |g.hosts| && i < |g.hosts[a]| && vh.backendIDs.address < |g.lists| && vh.backendIDs.address < |h.lists|
  {
    var s := vh.backendIDs;
    g.(lists := g.lists[s.address := g.lists[s.address].(items := Compacted(h.lists[s.address].items, s.len, id))],
       hosts := g.hosts[a := g.hosts[a][i := vh.(backendIDs := KeptSlice(h, s, id))]])
  }

  lemma HostWritesSplit(h: Heap, g: Heap, a: nat, i: nat, vh: HostCell, id: string)
    requires a < |g.hosts| && i < |g.hosts[a]| && vh.backendIDs.address < |g.lists| && vh.backendIDs.address < |h.lists|
    ensures ApplyAll(g, HostWrites(h, a, i, vh, id)) ==
            ApplyAll(OwnListDone(h, g, a, i, vh, id), RouteWrites(h, vh.pathRoutes.address, RouteCells(h, vh.pathRoutes), id))
  {
    var v, w := CompactList(h, vh.backendIDs, id), SetHost(a, i, vh.(backendIDs := KeptSlice(h, vh.backendIDs, id)));
    ApplyTwo(g, v, w);
    ApplyConcat(g, [v, w], RouteWrites(h, vh.pathRoutes.address, RouteCells(h, vh.pathRoutes), id));
    hide ApplyAll, RouteWrites, RouteCells, Compacted, KeptSlice;
  }

  lemma CompactHost(h: Heap, g: Heap, a: nat, k: nat, vh: HostCell, i: nat, id: string, mark: Heap)
    requires HostIn(h, vh) && OwnsHost(h, vh, i, mark) && SameHost(h, g, i)
    requires a < |g.hosts| && k < |g.hosts[a]|
    ensures var g' := ApplyAll(g, HostWrites(h, a, k, vh, id));
            var vh' := vh.(backendIDs := KeptSlice(h, vh.backendIDs, id));
            && OnlyHost(g, g', i) && OnlyHostMemory(g, g') && g'.hosts == g.hosts[a := g.hosts[a][k := vh']]
            && HostDone(h, g', vh, vh', i, id, mark)
  {
    var cells, g1 := RouteCells(h, vh.pathRoutes), OwnListDone(h, g, a, k, vh, id);
    var g' := ApplyAll(g1, RouteWrites(h, vh.pathRoutes.address, cells, id));
    HostWritesSplit(h, g, a, k, vh, id);
    OwnListFacts(h, g, a, k, vh, i, id, mark);
    hide ApplyAll, RouteWrites, Compacted, KeptSlice, OwnListDone, ListsDone, SlicesDone, HostDone, SameRouteLists, RouteListsIn;
    CompactRoutes(h, g1, vh.pathRoutes.address, cells, i, id);
    RoutesAreDone(h, g, g1, g', vh, i, id);
    hide OnlyHost, SameHost, OwnsHost, HostIn, RouteCells;
    CompactedHostReads(h, g1.routes, g', vh, i, id, mark);
  }

  lemma OwnListFacts(h: Heap, g: Heap, a: nat, k: nat, vh: HostCell, i: nat, id: string, mark: Heap)
    requires HostIn(h, vh) && OwnsHost(h, vh, i, mark) && SameHost(h, g, i)
    requires a < |g.hosts| && k < |g.hosts[a]|
    ensures var g1 := OwnListDone(h, g, a, k, vh, id);
            && g1 == g.(lists := g1.lists, hosts := g.hosts[a := g.hosts[a][k := vh.(backendIDs := KeptSlice(h, vh.backendIDs, id))]])
            && |g1.lists| == |g.lists| && vh.backendIDs.address < |g.lists|
            && (forall x :: 0 <= x < |g.lists| && x != vh.backendIDs.address ==> g1.lists[x] == g.lists[x])
            && g1.lists[vh.backendIDs.address] ==
               List(OfHost(i), Compacted(h.lists[vh.backendIDs.address].items, vh.backendIDs.len, id))
            && SameRouteLists(h.lists, g1.lists, i)
    ensures RouteListsIn(h.lists, RouteCells(h, vh.pathRoutes), i)
  {
    hide Compacted, KeptSlice;
  }

  lemma RoutesAreDone(h: Heap, g: Heap, g1: Heap, g': Heap, vh: HostCell, i: nat, id: string)
    requires HostIn(h, vh) && SameHost(h, g, i) && h.lists[vh.backendIDs.address].place == OfHost(i)
    requires RouteListsIn(h.lists, RouteCells(h, vh.pathRoutes), i)
    requires h.routes[vh.pathRoutes.address].host == i
    requires |g1.lists| == |g.lists| && g1.routes == g.routes
    requires forall x :: 0 <= x < |g.lists| && x != vh.backendIDs.address ==> g1.lists[x] == g.lists[x]
    requires g1.lists[vh.backendIDs.address].place == OfHost(i)
    requires ListsDone(h.lists, g1.lists, g'.lists, RouteCells(h, vh.pathRoutes), i, id)
    requires SlicesDone(h, g1.routes, g'.routes, vh.pathRoutes.address, RouteCells(h, vh.pathRoutes), id)
    ensures OnlyHost(g, g', i)
    ensures |g'.lists| == |h.lists| && g'.lists[vh.backendIDs.address] == g1.lists[vh.backendIDs.address]
    ensures forall j :: 0 <= j < |RouteCells(h, vh.pathRoutes)| ==>
              var s := RouteCells(h, vh.pathRoutes)[j].backendIDs;
              s.address < |h.lists| && g'.lists[s.address].items == Compacted(h.lists[s.address].items, s.len, id)
    ensures forall x :: 0 <= x < |g'.lists| ==> g'.lists[x].place == h.lists[x].place
  {
    hide Compacted, KeptSlice;
  }

  /** The host reads as if `id` had never been in its lists. */
  ghost predicate HostDone(h: Heap, g: Heap, vh: HostCell, vh': HostCell, i: nat, id: string, mark: Heap) {
    HostIn(g, vh') && OwnsHost(g, vh', i, mark) && HostView(g, vh') == WithoutInHost(HostView(h, vh), id)
  }

  /** Where the list of slice `s` is compacted, the shortened slice reads as the list without `id`. */
  lemma CompactedSlice(h: Heap, g: Heap, s: Slice, id: string)
    requires ListIn(h, s) && s.address < |g.lists|
    requires g.lists[s.address].items == Compacted(h.lists[s.address].items, s.len, id)
    ensures ListIn(g, KeptSlice(h, s, id)) && ListAt(g, KeptSlice(h, s, id)) == Without(ListAt(h, s), id)
  {
    CompactedReads(h.lists[s.address].items, s.len, id);
    hide Compacted, Without;
  }

  lemma CompactedHostReads(h: Heap, before: seq<Routes>, g: Heap, vh: HostCell, i: nat, id: string, mark: Heap)
    requires HostIn(h, vh) && OwnsHost(h, vh, i, mark)
    requires |g.lists| == |h.lists| && forall x :: 0 <= x < |h.lists| ==> g.lists[x].place == h.lists[x].place
    requires g.lists[vh.backendIDs.address].items == Compacted(h.lists[vh.backendIDs.address].items, vh.backendIDs.len, id)
    requires var cells := RouteCells(h, vh.pathRoutes);
             && RouteListsIn(h.lists, cells, i)
             && (forall j :: 0 <= j < |cells| ==>
                   var s := cells[j].backendIDs;
                   g.lists[s.address].items == Compacted(h.lists[s.address].items, s.len, id))
             && SlicesDone(h, before, g.routes, vh.pathRoutes.address, cells, id)
    requires |before| == |h.routes| && before[vh.pathRoutes.address] == h.routes[vh.pathRoutes.address]
    ensures HostDone(h, g, vh, vh.(backendIDs := KeptSlice(h, vh.backendIDs, id)), i, id, mark)
  {
    var cells := RouteCells(h, vh.pathRoutes);
    var vh' := vh.(backendIDs := KeptSlice(h, vh.backendIDs, id));
    CompactedSlice(h, g, vh.backendIDs, id);
    forall j | 0 <= j < |cells|
      ensures ListIn(g, KeptSlice(h, cells[j].backendIDs, id))
      ensures ListAt(g, KeptSlice(h, cells[j].backendIDs, id)) == Without(ListAt(h, cells[j].backendIDs), id)
    {
      CompactedSlice(h, g, cells[j].backendIDs, id);
    }
    hide Compacted, Without, ListAt, ListIn;
    var done := RouteCells(g, vh'.pathRoutes);
    assert |done| == |cells|;
    assert KeptSlice(h, vh.backendIDs, id).address == vh.backendIDs.address;
    assert forall j :: 0 <= j < |cells| ==> KeptSlice(h, cells[j].backendIDs, id).address == cells[j].backendIDs.address;
    hide KeptSlice;
    assert HostView(g, vh').pathRoutes == WithoutInHost(HostView(h, vh), id).pathRoutes;
  }

  // ----- All hosts

  /** Writing to another host's parts leaves a finished host finished. */
  lemma OtherHostStays(h: Heap, g: Heap, g': Heap, vh: HostCell, vh': HostCell, k: nat, i: nat, id: string, mark: Heap)
    requires HostDone(h, g, vh, vh', k, id, mark) && OnlyHost(g, g', i) && k != i
    ensures HostDone(h, g', vh, vh', k, id, mark)
  {
    var cells := RouteCells(g, vh'.pathRoutes);
    assert g'.routes[vh'.pathRoutes.address] == g.routes[vh'.pathRoutes.address];
    forall j | 0 <= j < |cells| ensures ListIn(g', cells[j].backendIDs) && RouteView(g', cells[j]) == RouteView(g, cells[j]) {
      assert g'.lists[cells[j].backendIDs.address] == g.lists[cells[j].backendIDs.address];
    }
    assert HostView(g', vh') == HostView(g, vh');
  }

  ghost predicate HostsDone(h: Heap, g: Heap, a: nat, cells: seq<HostCell>, tags: seq<nat>, id: string, mark: Heap) {
    && a < |h.hosts| && |tags| == |cells| <= |h.hosts[a]| && a < |g.hosts| && |g.hosts[a]| == |h.hosts[a]|
    && g.hosts == h.hosts[a := g.hosts[a]]
    && (forall k :: |cells| <= k < |g.hosts[a]| ==> g.hosts[a][k] == h.hosts[a][k])
    && (forall k :: 0 <= k < |cells| ==> HostDone(h, g, cells[k], g.hosts[a][k], tags[k], id, mark))
  }

  lemma OneMoreHost(h: Heap, g: Heap, g': Heap, a: nat, cells: seq<HostCell>, tags: seq<nat>, vh': HostCell, id: string, mark: Heap)
    requires |tags| == |cells| > 0 && forall i, j :: 0 <= i < j < |tags| ==> tags[i] != tags[j]
    requires HostsDone(h, g, a, cells[..|cells| - 1], tags[..|cells| - 1], id, mark)
    requires |cells| <= |h.hosts[a]| && OnlyHost(g, g', tags[|cells| - 1])
    requires g'.hosts == g.hosts[a := g.hosts[a][|cells| - 1 := vh']]
    requires HostDone(h, g', cells[|cells| - 1], vh', tags[|cells| - 1], id, mark)
    ensures HostsDone(h, g', a, cells, tags, id, mark)
  {
    hide HostDone, OnlyHost;
    var n := |cells| - 1;
    forall k | 0 <= k < n ensures HostDone(h, g', cells[k], g'.hosts[a][k], tags[k], id, mark) {
      assert HostDone(h, g, cells[..n][k], g.hosts[a][k], tags[..n][k], id, mark);
      OtherHostStays(h, g, g', cells[k], g.hosts[a][k], tags[k], tags[n], id, mark);
    }
  }

  lemma OneMoreTag(h: Heap, g: Heap, g': Heap, tags: seq<nat>)
    requires tags != [] && SameExcept(h, g, tags[..|tags| - 1]) && tags[|tags| - 1] !in tags[..|tags| - 1]
    ensures SameHost(h, g, tags[|tags| - 1])
    ensures OnlyHost(g, g', tags[|tags| - 1]) ==> SameExcept(h, g', tags)
  {
    assert tags == tags[..|tags| - 1] + [tags[|tags| - 1]];
  }

  lemma LastTag(h: Heap, cells: seq<HostCell>, tags: seq<nat>, mark: Heap)
    requires Tagged(h, cells, tags, mark) && cells != []
    ensures var n := |cells| - 1;
            && |tags| == n + 1 && Tagged(h, cells[..n], tags[..n], mark) && tags[n] !in tags[..n]
            && HostIn(h, cells[n]) && OwnsHost(h, cells[n], tags[n], mark)
    ensures forall i, j :: 0 <= i < j < |tags| ==> tags[i] != tags[j]
  {
    hide HostIn, OwnsHost;
  }

  lemma {:induction false} CompactHosts(h: Heap, a: nat, cells: seq<HostCell>, tags: seq<nat>, id: string, mark: Heap)
    requires a < |h.hosts| && |cells| <= |h.hosts[a]| && Tagged(h, cells, tags, mark)
    ensures var g := ApplyAll(h, HostsWrites(h, a, cells, id));
            OnlyHostMemory(h, g) && SameExcept(h, g, tags) && HostsDone(h, g, a, cells, tags, id, mark)
  {
    if cells != [] {
      hide HostWrites, HostDone, SameExcept, SameHost, OnlyHost, HostIn, OwnsHost, KeptSlice, Tagged;
      var n := |cells| - 1;
      LastTag(h, cells, tags, mark);
      CompactHosts(h, a, cells[..n], tags[..n], id, mark);
      var g := ApplyAll(h, HostsWrites(h, a, cells[..n], id));
      var g' := ApplyAll(g, HostWrites(h, a, n, cells[n], id));
      ApplyConcat(h, HostsWrites(h, a, cells[..n], id), HostWrites(h, a, n, cells[n], id));
      hide ApplyAll;
      OneMoreTag(h, g, g', tags);
      CompactHost(h, g, a, n, cells[n], tags[n], id, mark);
      OneMoreHost(h, g, g', a, cells, tags, cells[n].(backendIDs := KeptSlice(h, cells[n].backendIDs, id)), id, mark);
    }
  }

  // ----- Nothing older is written

  lemma AboveConcat(vs: seq<Write>, ws: seq<Write>, mark: Heap)
    requires AllAbove(vs, mark) && AllAbove(ws, mark)
    ensures AllAbove(vs + ws, mark)
  {
  }

  lemma AboveTwo(v: Write, w: Write, mark: Heap)
    requires Above(v, mark) && Above(w, mark)
    ensures AllAbove([v, w], mark)
  {
  }

  lemma {:induction false} RouteWritesAbove(h: Heap, ra: nat, cells: seq<RouteCell>, id: string, mark: Heap)
    requires |mark.routes| <= ra && forall j :: 0 <= j < |cells| ==> |mark.lists| <= cells[j].backendIDs.address
    ensures AllAbove(RouteWrites(h, ra, cells, id), mark)
  {
    if cells != [] {
      var n := |cells| - 1;
      RouteWritesAbove(h, ra, cells[..n], id, mark);
      var v, w := CompactList(h, cells[n].backendIDs, id), SetRoute(ra, n, cells[n].(backendIDs := KeptSlice(h, cells[n].backendIDs, id)));
      assert RouteWrites(h, ra, cells, id) == RouteWrites(h, ra, cells[..n], id) + [v, w];
      AboveTwo(v, w, mark);
      hide *;
      AboveConcat(RouteWrites(h, ra, cells[..n], id), [v, w], mark);
    }
  }

  lemma HostWritesAbove(h: Heap, a: nat, k: nat, vh: HostCell, i: nat, id: string, mark: Heap)
    requires |mark.hosts| <= a && HostIn(h, vh) && OwnsHost(h, vh, i, mark)
    ensures AllAbove(HostWrites(h, a, k, vh, id), mark)
  {
    var v, w := CompactList(h, vh.backendIDs, id), SetHost(a, k, vh.(backendIDs := KeptSlice(h, vh.backendIDs, id)));
    var ws := RouteWrites(h, vh.pathRoutes.address, RouteCells(h, vh.pathRoutes), id);
    RouteWritesAbove(h, vh.pathRoutes.address, RouteCells(h, vh.pathRoutes), id, mark);
    AboveTwo(v, w, mark);
    assert HostWrites(h, a, k, vh, id) == [v, w] + ws;
    hide *;
    AboveConcat([v, w], ws, mark);
  }

  lemma {:induction false} HostsWritesAbove(h: Heap, a: nat, cells: seq<HostCell>, tags: seq<nat>, id: string, mark: Heap)
    requires |mark.hosts| <= a && Tagged(h, cells, tags, mark)
    ensures AllAbove(HostsWrites(h, a, cells, id), mark)
  {
    hide HostIn, OwnsHost, HostWrites;
    if cells != [] {
      var n := |cells| - 1;
      HostsWritesAbove(h, a, cells[..n], tags[..n], id, mark);
      HostWritesAbove(h, a, n, cells[n], tags[n], id, mark);
      AboveConcat(HostsWrites(h, a, cells[..n], id), HostWrites(h, a, n, cells[n], id), mark);
      hide AllAbove;
    }
  }
}
