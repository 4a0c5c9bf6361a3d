/** A run in which the entry used last is the one evicted: the full cache really is no LRU cache. */
module ReadHits {
  import opened Prelude
  import opened CostModel
  import opened Multigraph
  import opened RouterSteps
  import opened RouterSafety
  import opened Interleaving
  import RouteCache

  /** Distinct names; a route from a name to itself always exists. */
  function NameOf(i: nat): Node {
    seq(i, _ => 'a')
  }

  function Key(i: nat): RouteKey {
    RouteCache.RouteKey(NameOf(i), NameOf(i))
  }

  function Keys(n: nat): seq<RouteKey> {
    seq(n, (i: nat) => Key(i))
  }

  /** `n` calls have filled the cache of the tenant with the first `n` keys, in order. */
  ghost predicate Filled(y: System, id: TenantId, n: nat) {
    && id in y.s.tenants && y.s.tenants[id].Cache().order == Keys(n)
    && forall call :: call in y.calls ==> call < n
  }

  lemma KeysDiffer(i: nat, j: nat)
    ensures Key(i) == Key(j) <==> i == j
  {
    assert |NameOf(i)| == i && |NameOf(j)| == j;
  }

  lemma FilledEntries(y: System, id: TenantId, n: nat)
    requires Filled(y, id, n)
    ensures var c := y.s.tenants[id].Cache();
            && |c.entries| == n
            && (forall i: nat :: Key(i) in c.entries <==> i < n)
  {
    RouteCache.QueueByRecency(y.s.tenants[id].cacheOps);
    var c := y.s.tenants[id].Cache();
    hide RouteCache.Run, Key;
    forall i: nat ensures Key(i) in c.entries <==> i < n {
      if i < n {
        assert Keys(n)[i] == Key(i);
      } else if Key(i) in c.entries {
        var j: nat :| j < n && Keys(n)[j] == Key(i);
        KeysDiffer(i, j);
      }
    }
  }

  lemma Extend(trace: seq<System>, step: Step) returns (longer: seq<System>)
    requires IsRun(trace) && Enabled(trace[|trace| - 1], step)
    ensures IsRun(longer) && longer == trace + [Next(trace[|trace| - 1], step)]
  {
    hide Enabled, Next;
    longer := trace + [Next(trace[|trace| - 1], step)];
    forall i | 0 <= i < |longer| - 1 ensures Follows(longer[i], longer[i + 1]) {
      if i < |trace| - 1 {
        assert Follows(trace[i], trace[i + 1]);
      }
    }
  }

  /** A key not in the queue is appended to it. */
  lemma {:induction false} RetainAll(order: seq<RouteKey>, keep: set<RouteKey>)
    requires forall key :: key in order ==> key in keep
    ensures RouteCache.Retain(order, keep) == order
  {
    if order != [] {
      RetainAll(order[1..], keep);
    }
  }

  /** The write-lock phase of a miss from a name to itself. */
  lemma MissInserts(s: State, id: TenantId, name: Node)
    requires id in s.tenants && RouteCache.RouteKey(name, name) !in s.tenants[id].Cache().entries
    ensures var key := RouteCache.RouteKey(name, name); var later := s.SlowPath(id, name, name);
            id in later.tenants &&
            later.tenants[id].Cache() == s.tenants[id].Cache().Insert(key, RouteCache.CachedPath([name], 0.0, {name}))
  {
    var t := s.tenants[id];
    var key := RouteCache.RouteKey(name, name);
    ShortestPathCorrect(t.edges, t.health, t.model, name, name);
    hide ShortestPath, Optimal, RouteCache.Run;
    var marked := t.(origins := t.origins[key := Origin(t.edges, t.model, t.health)]);
    assert NodeSet([name]) == {name};
    DidCache(marked, RouteCache.Insert(key, RouteCache.CachedPath([name], 0.0, {name})));
    assert marked.Cache() == t.Cache();
  }

  /** Reading under the lock misses; the call goes on to its write phase. */
  lemma MissWaits(y: System, call: nat, id: TenantId, name: Node)
    requires call !in y.calls && id in y.s.tenants
        && RouteCache.RouteKey(name, name) !in y.s.tenants[id].Cache().entries
    ensures Enabled(y, ReadPhase(call, id, name, name))
    ensures Next(y, ReadPhase(call, id, name, name)) == y.(calls := y.calls[call := Waiting(id, name, name)])
  {
    hide RouteCache.Run;
  }

  /** One `route` call whose key is not cached. */
  lemma Miss(trace: seq<System>, call: nat, id: TenantId, name: Node) returns (longer: seq<System>)
    requires IsRun(trace)
    requires var y := trace[|trace| - 1];
             call !in y.calls && id in y.s.tenants
                 && RouteCache.RouteKey(name, name) !in y.s.tenants[id].Cache().entries
    ensures IsRun(longer) && |longer| == |trace| + 2 && longer[..|trace|] == trace
    ensures var y, y' := trace[|trace| - 1], longer[|longer| - 1];
            var key := RouteCache.RouteKey(name, name);
            && id in y'.s.tenants && y'.calls.Keys == y.calls.Keys + {call}
            && y'.s.tenants[id].Cache() ==
                y.s.tenants[id].Cache().Insert(key, RouteCache.CachedPath([name], 0.0, {name}))
  {
    hide Follows, RouteCache.Run, State.FastPath, State.SlowPath, State.Decide, RouteCache.Cache.Insert;
    var y := trace[|trace| - 1];
    MissWaits(y, call, id, name);
    var waiting := Extend(trace, ReadPhase(call, id, name, name));
    longer := Extend(waiting, WritePhase(call));
    MissInserts(y.s, id, name);
  }

  lemma {:induction false} Fill(id: TenantId, n: nat) returns (trace: seq<System>)
    requires n <= RouteCache.LIMIT
    ensures IsRun(trace) && Filled(trace[|trace| - 1], id, n)
  {
    if n == 0 {
      trace := Extend([START], AddTenant(id));
    } else {
      var front := Fill(id, n - 1);
      var y := front[|front| - 1];
      FilledEntries(y, id, n - 1);
      KeysDiffer(n - 1, n - 1);
      trace := Miss(front, n - 1, id, NameOf(n - 1));
      FillNext(y.s.tenants[id].Cache(), n - 1);
    }
  }

  /** Room left: the key joins at the back and nothing goes. */
  lemma FillNext(c: RouteCache.Cache, n: nat)
    requires n < RouteCache.LIMIT && c.order == Keys(n) && |c.entries| == n && Key(n) !in c.entries
    ensures c.Insert(Key(n), RouteCache.CachedPath([NameOf(n)], 0.0, {NameOf(n)})).order == Keys(n + 1)
  {
    forall i | 0 <= i < n ensures Keys(n)[i] != Key(n) {
      KeysDiffer(i, n);
    }
    hide Key;
    RetainAll(c.order, (set k | k in c.order) - {Key(n)});
    assert Keys(n) + [Key(n)] == Keys(n + 1);
  }

  /** A hit under the read lock returns the entry and leaves every tenant alone. */
  lemma HitReturns(y: System, call: nat, id: TenantId, name: Node)
    requires call !in y.calls && id in y.s.tenants && RouteCache.RouteKey(name, name) in y.s.tenants[id].Cache().entries
    ensures Enabled(y, ReadPhase(call, id, name, name))
    ensures var y' := Next(y, ReadPhase(call, id, name, name));
            && y'.s.tenants == y.s.tenants && y'.calls.Keys == y.calls.Keys + {call} && y'.calls[call].Returned?
            && y'.calls[call].decision.Routed? && y'.calls[call].decision.route.cacheHit
  {
    hide RouteCache.Run;
  }

  /** The cache is filled by as many calls as it has room for, the oldest entry is read and returned under the read
      lock, and one more miss evicts this entry, used last of all, while those not used since stay. */
  lemma LastUsedEvicted(id: TenantId) returns (trace: seq<System>, i: nat)
    ensures IsRun(trace) && |trace| == i + 4 && RouteCache.LIMIT !in trace[i].calls
    ensures trace[i + 1] == Next(trace[i], ReadPhase(RouteCache.LIMIT, id, NameOf(0), NameOf(0)))
    ensures RouteCache.LIMIT in trace[i + 1].calls && trace[i + 1].calls[RouteCache.LIMIT].Returned?
    ensures var decision := trace[i + 1].calls[RouteCache.LIMIT].decision; decision.Routed? && decision.route.cacheHit
    ensures var s := trace[|trace| - 1].s;
            && id in s.tenants && Key(0) !in s.tenants[id].Cache().entries
            && forall k :: 1 <= k <= RouteCache.LIMIT ==> Key(k) in s.tenants[id].Cache().entries
  {
    hide Follows, Next, RouteCache.Run, NameOf, Keys, RouteCache.Cache.Insert;
    var n := RouteCache.LIMIT;
    var full := Fill(id, n);
    i := |full| - 1;
    var y := full[i];
    FilledEntries(y, id, n);
    assert n !in y.calls && n + 1 !in y.calls;
    assert Key(0) in y.s.tenants[id].Cache().entries && Key(n) !in y.s.tenants[id].Cache().entries;
    HitReturns(y, n, id, NameOf(0));
    var read := Extend(full, ReadPhase(n, id, NameOf(0), NameOf(0)));
    trace := Miss(read, n + 1, id, NameOf(n));
    FullNext(y.s.tenants[id].Cache(), n);
    assert trace[i + 1] == read[i + 1] && trace[i] == full[i];
  }

  /** No room left: the front key goes, the others stay. */
  lemma FullNext(c: RouteCache.Cache, n: nat)
    requires n == RouteCache.LIMIT && c.order == Keys(n) && |c.entries| == n
    requires forall i: nat :: Key(i) in c.entries <==> i < n
    ensures var later := c.Insert(Key(n), RouteCache.CachedPath([NameOf(n)], 0.0, {NameOf(n)}));
            Key(0) !in later.entries && forall k :: 1 <= k <= n ==> Key(k) in later.entries
  {
    assert c.order[0] == Key(0);
    forall k: nat | 1 <= k <= n ensures Key(k) != Key(0) {
      KeysDiffer(k, 0);
    }
    KeysDiffer(0, n);
    hide Key, RouteCache.Without;
  }
}
