/**
 Least-connections selection (internal/lb/leastconnections.go).  Other requests come and go
 while the loop runs: `readings[k]` is what looking up and loading the counter of candidate
 `k` gives at the moment the loop reaches it, None if its URL has no metrics then.
 */
module LeastConnections {
  import opened Base
  import opened Config

  /** Candidates that are disabled or whose URL has no metrics are passed over. */
  predicate Eligible(bs: seq<BackendConfig>, readings: seq<Option<nat>>, i: nat)
    requires |readings| == |bs| && i < |bs|
  {
    bs[i].enabled && readings[i].Some?
  }

  /** Index `i` is the first eligible candidate with the smallest reading. */
  ghost predicate IsLeast(bs: seq<BackendConfig>, readings: seq<Option<nat>>, i: nat)
    requires |readings| == |bs|
  {
    && i < |bs| && Eligible(bs, readings, i)
    && (forall j :: 0 <= j < |bs| && Eligible(bs, readings, j) ==> readings[i].value <= readings[j].value)
    && (forall j :: 0 <= j < i && Eligible(bs, readings, j) ==> readings[i].value < readings[j].value)
  }

  /** None stands for ErrNoAvailableBackend. */
  method Next(bs: seq<BackendConfig>, readings: seq<Option<nat>>) returns (r: Option<nat>)
    requires |readings| == |bs|
    ensures r.Some? ==> IsLeast(bs, readings, r.value)
    ensures r.None? <==> forall j :: 0 <= j < |bs| ==> !Eligible(bs, readings, j)
  {
    if bs == [] {
      return None;
    }
    var best: Option<nat> := None;
    var minConnections := 0;
    for k := 0 to |bs|
      invariant best.None? ==> forall j :: 0 <= j < k ==> !Eligible(bs, readings, j)
      invariant best.Some? ==>
                  && best.value < k && Eligible(bs, readings, best.value) && minConnections == readings[best.value].value
                  && (forall j :: 0 <= j < k && Eligible(bs, readings, j) ==> minConnections <= readings[j].value)
                  && (forall j :: 0 <= j < best.value && Eligible(bs, readings, j) ==> minConnections < readings[j].value)
    {
      if bs[k].enabled && readings[k].Some? {
        var currentConns := readings[k].value;
        if best.None? || currentConns < minConnections {
          minConnections := currentConns;
          best := Some(k);
        }
      }
    }
    return best;
  }

  /** The choice is determined by the candidates and the readings. */
  lemma LeastIsUnique(bs: seq<BackendConfig>, readings: seq<Option<nat>>, i: nat, j: nat)
    requires |readings| == |bs| && IsLeast(bs, readings, i) && IsLeast(bs, readings, j)
    ensures i == j
  {
  }

  /** Where the counters do not move, the choice is an enabled, registered candidate with the fewest connections. */
  lemma LeastAtRest(bs: seq<BackendConfig>, readings: seq<Option<nat>>, conns: map<string, nat>, i: nat)
    requires |readings| == |bs| && IsLeast(bs, readings, i)
    requires forall k :: 0 <= k < |bs| ==> readings[k] == if bs[k].url in conns then Some(conns[bs[k].url]) else None
    ensures i < |bs| && bs[i].enabled && bs[i].url in conns
    ensures forall j :: 0 <= j < |bs| && bs[j].enabled && bs[j].url in conns ==> conns[bs[i].url] <= conns[bs[j].url]
  {
    forall j | 0 <= j < |bs| && bs[j].enabled && bs[j].url in conns ensures conns[bs[i].url] <= conns[bs[j].url] {
      assert Eligible(bs, readings, j);
    }
  }
}
