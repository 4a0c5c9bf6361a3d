/** A recovery probe half-opens every ready node first and only then invalidates and logs;
    that amounts to opening the nodes one by one. */
module RecoveryProbe {
  import opened Health
  import opened RouterSteps
  import RouteCache

  type Pair = (TenantId, Node)

  ghost predicate Present(s: State, p: Pair) {
    p.0 in s.tenants && p.1 in s.tenants[p.0].health
  }

  function HalfOpen(s: State, p: Pair): State {
    if p.0 in s.tenants then
      var t := s.tenants[p.0];
      s.Put(p.0, t.(health := HalfOpenNode(t.health, p.1)))
    else s
  }

  function HalfOpenNode(health: HealthMap, node: Node): HealthMap {
    if node in health then health[node := health[node].HalfOpened()] else health
  }

  function Announce(s: State, p: Pair): State {
    (if p.0 in s.tenants then s.Put(p.0, s.tenants[p.0].Did(RouteCache.InvalidateNode(p.1))) else s)
    .Push(RecoveryProbeOpened(p.0, p.1))
  }

  function HalfOpenAll(s: State, probed: seq<Pair>): State {
    if probed == [] then s else HalfOpen(HalfOpenAll(s, probed[..|probed| - 1]), probed[|probed| - 1])
  }

  function AnnounceAll(s: State, probed: seq<Pair>): State {
    if probed == [] then s else Announce(AnnounceAll(s, probed[..|probed| - 1]), probed[|probed| - 1])
  }

  lemma Commute(s: State, p: Pair, q: Pair)
    ensures HalfOpen(Announce(s, p), q) == Announce(HalfOpen(s, q), p)
  {
  }

  lemma {:induction false} CommuteAll(s: State, probed: seq<Pair>, q: Pair)
    ensures HalfOpen(AnnounceAll(s, probed), q) == AnnounceAll(HalfOpen(s, q), probed)
  {
    hide HalfOpen, Announce;
    if probed != [] {
      CommuteAll(s, probed[..|probed| - 1], q);
      Commute(AnnounceAll(s, probed[..|probed| - 1]), probed[|probed| - 1], q);
    }
  }

  lemma OneByOne(s: State, p: Pair)
    requires Present(s, p)
    ensures s.OpenProbe(p.0, p.1) == Announce(HalfOpen(s, p), p)
  {
  }

  lemma {:induction false} StaysPresent(s: State, probed: seq<Pair>, p: Pair)
    requires Present(s, p)
    ensures Present(OpenAll(s, probed), p)
  {
    if probed != [] {
      StaysPresent(s, probed[..|probed| - 1], p);
    }
  }

  /** Two sweeps over the ready nodes have the effect of one. */
  lemma {:induction false} TwoSweeps(s: State, probed: seq<Pair>)
    requires forall p :: p in probed ==> Present(s, p)
    ensures OpenAll(s, probed) == AnnounceAll(HalfOpenAll(s, probed), probed)
  {
    if probed != [] {
      var front, p := probed[..|probed| - 1], probed[|probed| - 1];
      TwoSweeps(s, front);
      StaysPresent(s, front, p);
      hide Present, HalfOpen, Announce, State.OpenProbe;
      OneByOne(OpenAll(s, front), p);
      CommuteAll(HalfOpenAll(s, front), front, p);
      assert OpenAll(s, probed) == OpenAll(s, front).OpenProbe(p.0, p.1) by { OpenAllStep(s, probed); }
    }
  }

  lemma OpenAllStep(s: State, probed: seq<Pair>)
    requires probed != [] && Present(OpenAll(s, probed[..|probed| - 1]), probed[|probed| - 1])
    ensures var p := probed[|probed| - 1];
            OpenAll(s, probed) == OpenAll(s, probed[..|probed| - 1]).OpenProbe(p.0, p.1)
  {
  }

  // ----- the nodes of one tenant -----

  function Pairs(id: TenantId, nodes: seq<Node>): seq<Pair> {
    seq(|nodes|, i requires 0 <= i < |nodes| => (id, nodes[i]))
  }

  function HalfOpenNodes(health: HealthMap, nodes: seq<Node>): HealthMap {
    if nodes == [] then health
    else HalfOpenNode(HalfOpenNodes(health, nodes[..|nodes| - 1]), nodes[|nodes| - 1])
  }

  lemma {:induction false} TenantSweep(s: State, probed: seq<Pair>, id: TenantId, nodes: seq<Node>)
    requires id in HalfOpenAll(s, probed).tenants
    ensures var before := HalfOpenAll(s, probed); var t := before.tenants[id];
            HalfOpenAll(s, probed + Pairs(id, nodes)) == before.Put(id, t.(health := HalfOpenNodes(t.health, nodes)))
  {
    var before := HalfOpenAll(s, probed);
    if nodes == [] {
      assert probed + Pairs(id, nodes) == probed;
      assert before.tenants[id := before.tenants[id]] == before.tenants;
    } else {
      var n := |nodes| - 1;
      TenantSweep(s, probed, id, nodes[..n]);
      var all := probed + Pairs(id, nodes);
      assert all[..|all| - 1] == probed + Pairs(id, nodes[..n]);
      assert all[|all| - 1] == (id, nodes[n]);
    }
  }
}
