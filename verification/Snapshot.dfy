/** The lookup indexes published with a configuration (internal/config/snapshot.go). */
module Snapshots {
  import opened Base
  import opened Config

  datatype Snapshot = Snapshot(
    raw: FullConfig,
    backendsById: map<string, BackendConfig>,
    policiesById: map<string, SecurityPolicy>,
    vhostsByDomain: map<string, VirtualHost>)

  /** Later entries overwrite earlier ones with the same key; null backends are skipped. */
  function BackendIndex(bs: seq<Option<BackendConfig>>): map<string, BackendConfig> {
    if bs == [] then map[]
    else
      var m := BackendIndex(bs[..|bs| - 1]);
      var b := bs[|bs| - 1];
      if b.Some? then m[b.value.id := b.value] else m
  }

  function PolicyIndex(ps: seq<SecurityPolicy>): map<string, SecurityPolicy> {
    if ps == [] then map[] else PolicyIndex(ps[..|ps| - 1])[ps[|ps| - 1].id := ps[|ps| - 1]]
  }

  function HostIndex(vhs: seq<VirtualHost>): map<string, VirtualHost> {
    if vhs == [] then map[] else HostIndex(vhs[..|vhs| - 1])[vhs[|vhs| - 1].domain := vhs[|vhs| - 1]]
  }

  function SnapshotOf(c: FullConfig): Snapshot {
    Snapshot(c, BackendIndex(c.backends), PolicyIndex(c.policies), HostIndex(c.virtualHosts))
  }

  method BuildSnapshot(c: FullConfig) returns (s: Snapshot)
    ensures s == SnapshotOf(c)
  {
    var bs, ps, vhs := c.backends, c.policies, c.virtualHosts;
    var backends: map<string, BackendConfig> := map[];
    for i := 0 to |bs|
      invariant backends == BackendIndex(bs[..i])
    {
      assert bs[..i + 1][..i] == bs[..i];
      if bs[i].None? {
        continue;
      }
      backends := backends[bs[i].value.id := bs[i].value];
    }
    var policies: map<string, SecurityPolicy> := map[];
    for i := 0 to |ps|
      invariant policies == PolicyIndex(ps[..i])
    {
      assert ps[..i + 1][..i] == ps[..i];
      policies := policies[ps[i].id := ps[i]];
    }
    var hosts: map<string, VirtualHost> := map[];
    for i := 0 to |vhs|
      invariant hosts == HostIndex(vhs[..i])
    {
      assert vhs[..i + 1][..i] == vhs[..i];
      hosts := hosts[vhs[i].domain := vhs[i]];
    }
    assert bs[..|bs|] == bs && ps[..|ps|] == ps && vhs[..|vhs|] == vhs;
    s := Snapshot(c, backends, policies, hosts);
  }

  // ----- What the indexes of a valid configuration contain

  lemma {:induction false} BackendIndexIsExact(bs: seq<Option<BackendConfig>>, id: string)
    requires forall i :: 0 <= i < |bs| ==> bs[i].Some?
    requires DistinctBackends(bs)
    ensures id in BackendIndex(bs) <==> exists i :: 0 <= i < |bs| && bs[i].value.id == id
    ensures forall i :: 0 <= i < |bs| && bs[i].value.id == id ==> BackendIndex(bs)[id] == bs[i].value
  {
    if bs != [] {
      var front := bs[..|bs| - 1];
      BackendIndexIsExact(front, id);
      assert forall i :: 0 <= i < |front| ==> front[i] == bs[i];
    }
  }

  lemma {:induction false} PolicyIndexIsExact(ps: seq<SecurityPolicy>, id: string)
    requires forall i, j :: 0 <= i < j < |ps| ==> ps[i].id != ps[j].id
    ensures id in PolicyIndex(ps) <==> exists i :: 0 <= i < |ps| && ps[i].id == id
    ensures forall i :: 0 <= i < |ps| && ps[i].id == id ==> PolicyIndex(ps)[id] == ps[i]
  {
    if ps != [] {
      var front := ps[..|ps| - 1];
      PolicyIndexIsExact(front, id);
      assert forall i :: 0 <= i < |front| ==> front[i] == ps[i];
    }
  }

  lemma {:induction false} HostIndexIsExact(vhs: seq<VirtualHost>, domain: string)
    requires DistinctDomains(vhs)
    ensures domain in HostIndex(vhs) <==> exists i :: 0 <= i < |vhs| && vhs[i].domain == domain
    ensures forall i :: 0 <= i < |vhs| && vhs[i].domain == domain ==> HostIndex(vhs)[domain] == vhs[i]
  {
    if vhs != [] {
      var front := vhs[..|vhs| - 1];
      HostIndexIsExact(front, domain);
      assert forall i :: 0 <= i < |front| ==> front[i] == vhs[i];
    }
  }
}
