/**
 The per-backend metrics registry and the active-connection counters as objects
 (internal/metrics/backend.go, internal/metrics/metrics.go), each method run without
 interruption; `Connections` interleaves their atomic operations.
 */
module Metrics {

  const UINT64: nat := 0x1_0000_0000_0000_0000

  class BackendMetrics {
    var activeConnections: nat

    constructor ()
      ensures activeConnections == 0
    {
      activeConnections := 0;
    }

    method CompareAndSwap(expected: nat, value: nat) returns (ok: bool)
      modifies this
      ensures ok <==> old(activeConnections) == expected
      ensures activeConnections == if ok then value else old(activeConnections)
    {
      ok := activeConnections == expected;
      if ok {
        activeConnections := value;
      }
    }
  }

  class BackendMetricsManager {
    var backends: map<string, BackendMetrics>

    /** No two URLs share a metrics object. */
    ghost predicate Valid()
      reads this
    {
      forall u, v :: u in backends && v in backends && u != v ==> backends[u] != backends[v]
    }

    /** Active connections by registered URL. */
    ghost function Counts(): map<string, nat>
      reads this, set u | u in backends :: backends[u]
    {
      map u | u in backends :: backends[u].activeConnections
    }

    constructor ()
      ensures Valid() && backends == map[]
    {
      backends := map[];
    }

    /** Keeps an existing object and its counter. */
    method Register(url: string)
      requires Valid()
      modifies this
      ensures Valid() && backends.Keys == old(backends).Keys + {url}
      ensures forall u :: u in old(backends) ==> backends[u] == old(backends)[u]
      ensures url !in old(backends) ==> fresh(backends[url])
      ensures Counts() == if url in old(backends) then old(Counts()) else old(Counts())[url := 0]
    {
      if url !in backends {
        var bm := new BackendMetrics();
        backends := backends[url := bm];
      }
      assert Counts() == if url in old(backends) then old(Counts()) else old(Counts())[url := 0];
    }

    method Deregister(url: string)
      requires Valid()
      modifies this
      ensures Valid() && backends == old(backends) - {url}
      ensures Counts() == old(Counts()) - {url}
    {
      backends := backends - {url};
      assert Counts() == old(Counts()) - {url};
    }

    method Get(url: string) returns (bm: BackendMetrics?)
      ensures bm == null <==> url !in backends
      ensures bm != null ==> bm == backends[url]
    {
      bm := null;
      if url in backends {
        bm := backends[url];
      }
    }

    method IncrementActiveConnections(url: string)
      requires Valid()
      modifies set u | u in backends :: backends[u]
      ensures Counts() == if url in backends then old(Counts())[url := (old(Counts())[url] + 1) % UINT64] else old(Counts())
    {
      var bm := Get(url);
      if bm != null {
        bm.activeConnections := (bm.activeConnections + 1) % UINT64;
      }
      assert Counts() == if url in backends then old(Counts())[url := (old(Counts())[url] + 1) % UINT64] else old(Counts());
    }

    method DecrementActiveConnections(url: string)
      requires Valid()
      modifies set u | u in backends :: backends[u]
      ensures Counts() == if url in backends && old(Counts())[url] > 0 then old(Counts())[url := old(Counts())[url] - 1]
                          else old(Counts())
    {
      var bm := Get(url);
      if bm != null {
        var done := false;
        while !done
          invariant Counts() == if done && old(Counts())[url] > 0 then old(Counts())[url := old(Counts())[url] - 1]
                                else old(Counts())
          decreases !done
        {
          var current := bm.activeConnections;
          if current == 0 {
            done := true;
          } else {
            done := bm.CompareAndSwap(current, current - 1);
            assert Counts() == old(Counts())[url := old(Counts())[url] - 1];
          }
        }
      }
    }
  }
}
