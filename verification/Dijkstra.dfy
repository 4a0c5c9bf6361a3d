/** The search loop of `ToolGraph::shortest_path`, on node ids: Dijkstra with lazy deletion. */
module Dijkstra {
  import opened Prelude

  /** An outgoing edge; its cost is None when the search skips it. */
  datatype Arc = Arc(to: nat, cost: Option<real>)

  type Net = seq<seq<Arc>>

  /** Costs are never negative and every target is a node. */
  ghost predicate WellFormed(net: Net) {
    forall u, k :: 0 <= u < |net| && 0 <= k < |net[u]| ==>
      net[u][k].to < |net| && (net[u][k].cost.Some? ==> net[u][k].cost.value >= 0.0)
  }

  /** A queue entry (`SearchState`). */
  datatype Entry = Entry(node: nat, cost: real)

  /** `SearchState::cmp`: reversed on cost, then by node id. */
  function CompareEntry(a: Entry, b: Entry): Ordering {
    CompareFloat(Finite(b.cost), Finite(a.cost)).Then(CompareInt(a.node, b.node))
  }

  /** The local variables of the search. */
  datatype Search = Search(dist: seq<Float>, prev: seq<Option<nat>>, heap: multiset<Entry>)

  ghost predicate Shaped(net: Net, st: Search) {
    && WellFormed(net)
    && |st.dist| == |st.prev| == |net|
    && forall e :: e in st.heap ==> e.node < |net|
  }

  // ----- one iteration of the loop -----

  ghost predicate IsTop(heap: multiset<Entry>, e: Entry) {
    e in heap && forall f :: f in heap ==> CompareEntry(e, f) != LT
  }

  /** Which entry that is: the cheapest, and among equally cheap ones that of the largest node id. */
  lemma TopMeaning(heap: multiset<Entry>, e: Entry)
    ensures IsTop(heap, e) <==>
              e in heap && forall f :: f in heap ==> e.cost < f.cost || (e.cost == f.cost && f.node <= e.node)
  {
    assert forall f :: f in heap ==>
        (CompareEntry(e, f) != LT <==> e.cost < f.cost || (e.cost == f.cost && f.node <= e.node));
  }

  lemma TopCheapest(heap: multiset<Entry>, top: Entry)
    requires IsTop(heap, top)
    ensures forall e :: e in heap ==> top.cost <= e.cost
  {
    assert forall e :: e in heap ==> CompareEntry(top, e) != LT;
  }

  lemma {:induction false} TopExists(heap: multiset<Entry>)
    requires heap != multiset{}
    ensures exists e :: IsTop(heap, e)
    decreases |heap|
  {
    var x :| x in heap;
    var rest := heap - multiset{x};
    if rest == multiset{} {
      assert heap == multiset{x};
      assert IsTop(heap, x);
    } else {
      TopExists(rest);
      var y :| IsTop(rest, y);
      var top := if CompareEntry(x, y) == LT then y else x;
      forall f | f in heap ensures CompareEntry(top, f) != LT {
        assert f == x || f in rest;
      }
      assert IsTop(heap, top);
    }
  }

  /** The entry a max-heap pops. The order is total, so there is only one. */
  ghost function Top(heap: multiset<Entry>): (e: Entry)
    requires heap != multiset{}
    ensures IsTop(heap, e)
    ensures forall f :: IsTop(heap, f) ==> f == e
  {
    TopExists(heap);
    var e :| IsTop(heap, e);
    e
  }

  /** The body of the inner loop for one outgoing edge of the node `u` popped with `cost`. */
  function RelaxArc(st: Search, u: nat, cost: real, arc: Arc): Search
    requires |st.dist| == |st.prev| && arc.to < |st.dist|
  {
    if arc.cost.None? then st
    else
      var next := cost + arc.cost.value;
      if Finite(next).Less(st.dist[arc.to]) then
        Search(st.dist[arc.to := Finite(next)], st.prev[arc.to := Some(u)], st.heap + multiset{Entry(arc.to, next)})
      else st
  }

  function Relax(net: Net, st: Search, u: nat, cost: real, k: nat): (r: Search)
    requires u < |net| && k <= |net[u]|
    requires |st.dist| == |st.prev| == |net|
    requires forall i :: 0 <= i < |net[u]| ==> net[u][i].to < |net|
    ensures |r.dist| == |r.prev| == |net|
  {
    if k == 0 then st else RelaxArc(Relax(net, st, u, cost, k - 1), u, cost, net[u][k - 1])
  }

  /** Where the search stands after some iterations. */
  datatype Phase =
    | Running(st: Search)
    | Found(st: Search, cost: real)
    | Exhausted(st: Search)

  ghost function Advance(net: Net, goal: nat, p: Phase): (q: Phase)
    requires Shaped(net, p.st)
    ensures Shaped(net, q.st)
  {
    if !p.Running? then p
    else if p.st.heap == multiset{} then Exhausted(p.st)
    else
      var top := Top(p.st.heap);
      var popped := p.st.(heap := p.st.heap - multiset{top});
      if top.node == goal then Found(popped, top.cost)
      else if p.st.dist[top.node].Less(Finite(top.cost)) then Running(popped)
      else
        RelaxShaped(net, popped, top.node, top.cost, |net[top.node]|);
        Running(Relax(net, popped, top.node, top.cost, |net[top.node]|))
  }

  /** The branches of the loop body, for the entry `top` that the queue yields. */
  lemma AdvanceCases(net: Net, goal: nat, st: Search, top: Entry)
    requires Shaped(net, st) && IsTop(st.heap, top)
    ensures top.node < |net| && top == Top(st.heap)
    ensures var popped := st.(heap := st.heap - multiset{top});
            Advance(net, goal, Running(st)) ==
              if top.node == goal then Found(popped, top.cost)
              else if st.dist[top.node].Less(Finite(top.cost)) then Running(popped)
              else Running(Relax(net, popped, top.node, top.cost, |net[top.node]|))
  {
  }

  lemma RelaxUnfold(net: Net, st: Search, u: nat, cost: real, k: nat)
    requires u < |net| && k < |net[u]| && |st.dist| == |st.prev| == |net|
    requires forall i :: 0 <= i < |net[u]| ==> net[u][i].to < |net|
    ensures Relax(net, st, u, cost, k + 1) == RelaxArc(Relax(net, st, u, cost, k), u, cost, net[u][k])
  {
  }

  lemma RelaxNone(net: Net, st: Search, u: nat, cost: real)
    requires u < |net| && |st.dist| == |st.prev| == |net|
    requires forall i :: 0 <= i < |net[u]| ==> net[u][i].to < |net|
    ensures Relax(net, st, u, cost, 0) == st
  {
  }

  lemma AdvanceEmpty(net: Net, goal: nat, st: Search)
    requires Shaped(net, st) && st.heap == multiset{}
    ensures Advance(net, goal, Running(st)) == Exhausted(st)
  {
  }

  lemma {:induction false} RelaxShaped(net: Net, st: Search, u: nat, cost: real, k: nat)
    requires Shaped(net, st) && u < |net| && k <= |net[u]|
    ensures Shaped(net, Relax(net, st, u, cost, k))
  {
    if k > 0 {
      RelaxShaped(net, st, u, cost, k - 1);
    }
  }

  ghost function Init(net: Net, start: nat): Phase
    requires start < |net|
  {
    Running(Search(seq(|net|, _ => Infinity)[start := Finite(0.0)], seq(|net|, _ => None), multiset{Entry(start, 0.0)}))
  }

  /** The search after `n` iterations. */
  ghost function Iterate(net: Net, start: nat, goal: nat, n: nat): (p: Phase)
    requires WellFormed(net) && start < |net|
    ensures Shaped(net, p.st)
  {
    if n == 0 then Init(net, start) else Advance(net, goal, Iterate(net, start, goal, n - 1))
  }

  // ----- the invariant -----

  /** `rank` numbers the expanded nodes in the order of their expansion. */
  type Ranks = map<nat, nat>

  ghost predicate Labelled(dist: seq<Float>, start: nat) {
    && start < |dist| && dist[start] == Finite(0.0)
    && forall v :: 0 <= v < |dist| ==> dist[v].NonNegative() || dist[v].Infinity?
  }

  /** A reached node waits in the queue, with its distance, exactly once, until it is expanded. */
  ghost predicate Queued(dist: seq<Float>, heap: multiset<Entry>, rank: Ranks) {
    && (forall e :: e in heap ==> e.node < |dist| && dist[e.node].Finite? && dist[e.node].value <= e.cost)
    && (forall v {:trigger dist[v]} :: 0 <= v < |dist| && dist[v].Finite? ==>
         heap[Entry(v, dist[v].value)] == if v in rank then 0 else 1)
  }

  /** Nothing in the queue is cheaper than an expanded node. */
  ghost predicate Frontier(dist: seq<Float>, heap: multiset<Entry>, rank: Ranks) {
    && (forall u :: u in rank ==> u < |dist| && dist[u].Finite? && rank[u] < |rank|)
    && (forall u, e :: u in rank && e in heap ==> dist[u].value <= e.cost)
  }

  ghost predicate ArcRelaxed(net: Net, dist: seq<Float>, u: nat, k: nat)
    requires u < |net| == |dist| && k < |net[u]|
  {
    var arc := net[u][k];
    dist[u].Finite? && arc.to < |net| &&
    (arc.cost.Some? ==> dist[arc.to].Finite? && dist[arc.to].value <= dist[u].value + arc.cost.value)
  }

  ghost predicate Relaxed(net: Net, dist: seq<Float>, rank: Ranks)
    requires |dist| == |net|
  {
    forall u, k :: u in rank && u < |net| && 0 <= k < |net[u]| ==> ArcRelaxed(net, dist, u, k)
  }

  ghost predicate TreeArc(net: Net, dist: seq<Float>, p: nat, v: nat, k: nat)
    requires |dist| == |net| && v < |net|
  {
    && p < |net| && k < |net[p]|
    && net[p][k].to == v && net[p][k].cost.Some?
    && dist[p].Finite? && dist[v] == Finite(dist[p].value + net[p][k].cost.value)
  }

  /** The predecessor of `v` is expanded (before `v` is) and an edge from it explains v's distance. */
  ghost predicate HasParent(net: Net, dist: seq<Float>, prev: seq<Option<nat>>, rank: Ranks, v: nat)
    requires |dist| == |prev| == |net| && v < |net|
  {
    prev[v].Some? &&
    var p := prev[v].value;
    && p in rank && (v in rank ==> rank[p] < rank[v])
    && exists k: nat :: TreeArc(net, dist, p, v, k)
  }

  ghost predicate Tree(net: Net, dist: seq<Float>, prev: seq<Option<nat>>, start: nat, rank: Ranks)
    requires |dist| == |prev| == |net|
  {
    forall v :: 0 <= v < |net| && v != start && dist[v].Finite? ==> HasParent(net, dist, prev, rank, v)
  }

  /** How many edges leave the nodes below `n` that are not expanded. */
  ghost function Pending(net: Net, rank: Ranks, n: nat): nat
    requires n <= |net|
  {
    if n == 0 then 0
    else Pending(net, rank, n - 1) + if n - 1 in rank then 0 else |net[n - 1]|
  }

  function EdgeCount(net: Net): nat {
    if net == [] then 0 else EdgeCount(net[..|net| - 1]) + |net[|net| - 1]|
  }

  ghost predicate Inv(net: Net, start: nat, goal: nat, st: Search, rank: Ranks, pops: nat) {
    && Shaped(net, st)
    && Labelled(st.dist, start)
    && Queued(st.dist, st.heap, rank)
    && Frontier(st.dist, st.heap, rank)
    && Relaxed(net, st.dist, rank)
    && Tree(net, st.dist, st.prev, start, rank)
    && goal !in rank
    && |rank| <= pops
    && pops + |st.heap| + Pending(net, rank, |net|) <= 1 + EdgeCount(net)
  }

  // ----- the invariant holds after every iteration -----

  lemma {:induction false} PendingInit(net: Net, n: nat)
    requires n <= |net|
    ensures Pending(net, map[], n) == EdgeCount(net[..n])
  {
    if n > 0 {
      PendingInit(net, n - 1);
      assert net[..n][..n - 1] == net[..n - 1];
    }
  }

  lemma {:induction false} PendingExpand(net: Net, rank: Ranks, u: nat, n: nat)
    requires n <= |net| && u < |net| && u !in rank
    ensures Pending(net, rank[u := |rank|], n) == Pending(net, rank, n) - if u < n then |net[u]| else 0
  {
    if n > 0 {
      PendingExpand(net, rank, u, n - 1);
    }
  }

  lemma InvInit(net: Net, start: nat, goal: nat)
    requires WellFormed(net) && start < |net|
    ensures Inv(net, start, goal, Init(net, start).st, map[], 0)
  {
    PendingInit(net, |net|);
    assert net[..|net|] == net;
  }

  /** Popping the current entry of an unexpanded node and expanding the node keeps the queue exact. */
  lemma QueuedPop(dist: seq<Float>, heap: multiset<Entry>, rank: Ranks, top: Entry)
    requires Queued(dist, heap, rank) && top in heap && !dist[top.node].Less(Finite(top.cost))
    ensures top.node !in rank && dist[top.node] == Finite(top.cost)
    ensures Queued(dist, heap - multiset{top}, rank[top.node := |rank|])
  {
    assert heap[Entry(top.node, top.cost)] >= 1;
  }

  /** A stale entry is not the one that represents its node. */
  lemma QueuedStale(dist: seq<Float>, heap: multiset<Entry>, rank: Ranks, top: Entry)
    requires Queued(dist, heap, rank) && top in heap && dist[top.node].Less(Finite(top.cost))
    ensures Queued(dist, heap - multiset{top}, rank)
  {
  }

  lemma FrontierPop(dist: seq<Float>, heap: multiset<Entry>, rank: Ranks, top: Entry)
    requires Frontier(dist, heap, rank) && IsTop(heap, top) && top.node < |dist|
    ensures Frontier(dist, heap - multiset{top}, rank)
    ensures forall x :: x in rank ==> dist[x].value <= top.cost
    ensures top.node !in rank && dist[top.node] == Finite(top.cost) ==>
              Frontier(dist, heap - multiset{top}, rank[top.node := |rank|])
  {
    hide CompareEntry;
    TopCheapest(heap, top);
    if top.node !in rank {
      assert rank[top.node := |rank|].Keys == rank.Keys + {top.node};
    }
  }

  lemma TreeRank(net: Net, dist: seq<Float>, prev: seq<Option<nat>>, start: nat, rank: Ranks, u: nat)
    requires |dist| == |prev| == |net| && Tree(net, dist, prev, start, rank) && u !in rank
    requires forall x :: x in rank ==> rank[x] < |rank|
    ensures Tree(net, dist, prev, start, rank[u := |rank|])
  {
    forall v | 0 <= v < |net| && v != start && dist[v].Finite?
      ensures HasParent(net, dist, prev, rank[u := |rank|], v)
    {
      assert HasParent(net, dist, prev, rank, v);
    }
  }

  /** A relaxation that succeeds: `v`, not yet expanded, gets the new distance and a queue entry. */
  lemma QueuedPush(dist: seq<Float>, heap: multiset<Entry>, rank: Ranks, v: nat, next: real)
    requires Queued(dist, heap, rank) && v < |dist| && v !in rank && Finite(next).Less(dist[v])
    ensures Queued(dist[v := Finite(next)], heap + multiset{Entry(v, next)}, rank)
  {
    assert Entry(v, next) !in heap;
    var dist' := dist[v := Finite(next)];
    forall w {:trigger dist'[w]} | 0 <= w < |dist'| && dist'[w].Finite?
      ensures (heap + multiset{Entry(v, next)})[Entry(w, dist'[w].value)] == if w in rank then 0 else 1
    {
      if w != v {
        assert dist'[w] == dist[w];
      }
    }
  }

  lemma TreePush(net: Net, dist: seq<Float>, prev: seq<Option<nat>>, start: nat, rank: Ranks, u: nat, k: nat, v: nat)
    requires |dist| == |prev| == |net| && Tree(net, dist, prev, start, rank)
    requires u in rank && u < |net| && k < |net[u]| && net[u][k].cost.Some? && dist[u].Finite?
    requires v == net[u][k].to < |net| && v !in rank
    ensures Tree(net, dist[v := Finite(dist[u].value + net[u][k].cost.value)], prev[v := Some(u)], start, rank)
  {
    var dist' := dist[v := Finite(dist[u].value + net[u][k].cost.value)];
    var prev' := prev[v := Some(u)];
    forall x | 0 <= x < |net| && x != start && dist'[x].Finite?
      ensures HasParent(net, dist', prev', rank, x)
    {
      if x == v {
        assert TreeArc(net, dist', u, v, k);
      } else {
        assert HasParent(net, dist, prev, rank, x);
        var p := prev[x].value;
        var i: nat :| TreeArc(net, dist, p, x, i);
        assert TreeArc(net, dist', p, x, i);
      }
    }
  }

  lemma ArcRelaxedPush(net: Net, dist: seq<Float>, u: nat, k: nat, v: nat, next: real)
    requires |dist| == |net| && u < |net| && k < |net[u]| && ArcRelaxed(net, dist, u, k)
    requires v < |net| && v != u && Finite(next).Less(dist[v])
    ensures ArcRelaxed(net, dist[v := Finite(next)], u, k)
  {
  }

  /** The edges of every expanded node, but of `u` only the first `k`, are relaxed. */
  ghost predicate RelaxedUpTo(net: Net, dist: seq<Float>, rank: Ranks, u: nat, k: nat)
    requires |dist| == |net|
  {
    forall x, i {:trigger ArcRelaxed(net, dist, x, i)} ::
      x in rank && x < |net| && 0 <= i < |net[x]| && (x == u ==> i < k) ==> ArcRelaxed(net, dist, x, i)
  }

  /** The invariant while the edges of the freshly expanded `u` are relaxed. */
  ghost predicate Mid(net: Net, start: nat, st: Search, rank: Ranks, u: nat, cost: real, k: nat) {
    && Shaped(net, st) && Labelled(st.dist, start)
    && Queued(st.dist, st.heap, rank) && Frontier(st.dist, st.heap, rank)
    && Tree(net, st.dist, st.prev, start, rank)
    && u in rank && u < |net| && k <= |net[u]| && st.dist[u] == Finite(cost)
    && (forall x :: x in rank ==> st.dist[x].value <= cost)
    && RelaxedUpTo(net, st.dist, rank, u, k)
  }

  lemma ExpandStarts(net: Net, start: nat, goal: nat, st: Search, rank: Ranks, pops: nat, top: Entry)
    requires Inv(net, start, goal, st, rank, pops) && IsTop(st.heap, top)
    requires !st.dist[top.node].Less(Finite(top.cost))
    ensures top.node !in rank && st.dist[top.node] == Finite(top.cost)
    ensures Mid(net, start, st.(heap := st.heap - multiset{top}), rank[top.node := |rank|], top.node, top.cost, 0)
  {
    hide Queued, Labelled, HasParent, Tree, ArcRelaxed;
    QueuedPop(st.dist, st.heap, rank, top);
    FrontierPop(st.dist, st.heap, rank, top);
    TreeRank(net, st.dist, st.prev, start, rank, top.node);
  }

  lemma RelaxKeepsMid(net: Net, start: nat, st: Search, rank: Ranks, u: nat, cost: real, k: nat)
    requires Mid(net, start, st, rank, u, cost, k) && k < |net[u]|
    ensures var r := RelaxArc(st, u, cost, net[u][k]);
            Mid(net, start, r, rank, u, cost, k + 1) && |r.heap| <= |st.heap| + 1
  {
    hide Queued, HasParent, Tree;
    var arc := net[u][k];
    if arc.cost.None? || !Finite(cost + arc.cost.value).Less(st.dist[arc.to]) {
      assert ArcRelaxed(net, st.dist, u, k);
    } else {
      var v, next := arc.to, cost + arc.cost.value;
      assert v !in rank && v != start;
      QueuedPush(st.dist, st.heap, rank, v, next);
      TreePush(net, st.dist, st.prev, start, rank, u, k, v);
      var dist' := st.dist[v := Finite(next)];
      forall x, i | x in rank && x < |net| && 0 <= i < |net[x]| && (x == u ==> i < k + 1)
        ensures ArcRelaxed(net, dist', x, i)
      {
        if x != u || i != k {
          ArcRelaxedPush(net, st.dist, x, i, v, next);
        }
      }
    }
  }

  lemma {:induction false} RelaxAllKeepsMid(net: Net, start: nat, st: Search, rank: Ranks, u: nat, cost: real, k: nat)
    requires Mid(net, start, st, rank, u, cost, 0) && k <= |net[u]|
    ensures var r := Relax(net, st, u, cost, k);
            Mid(net, start, r, rank, u, cost, k) && |r.heap| <= |st.heap| + k
  {
    hide Queued, Frontier, Tree, Labelled, RelaxedUpTo;
    if k > 0 {
      RelaxAllKeepsMid(net, start, st, rank, u, cost, k - 1);
      RelaxKeepsMid(net, start, Relax(net, st, u, cost, k - 1), rank, u, cost, k - 1);
    }
  }

  ghost function Expand(st: Search, rank: Ranks): Ranks
    requires st.heap != multiset{} && Top(st.heap).node < |st.dist|
  {
    var top := Top(st.heap);
    if st.dist[top.node].Less(Finite(top.cost)) then rank else rank[top.node := |rank|]
  }

  /** One iteration that neither finds the goal nor runs dry. */
  lemma InvStep(net: Net, start: nat, goal: nat, st: Search, rank: Ranks, pops: nat)
    requires Inv(net, start, goal, st, rank, pops)
    requires Advance(net, goal, Running(st)).Running?
    ensures Inv(net, start, goal, Advance(net, goal, Running(st)).st, Expand(st, rank), pops + 1)
  {
    hide Queued, Frontier, Tree, Labelled, Relaxed, Pending;
    var top := Top(st.heap);
    if st.dist[top.node].Less(Finite(top.cost)) {
      QueuedStale(st.dist, st.heap, rank, top);
      FrontierPop(st.dist, st.heap, rank, top);
    } else {
      ExpandStep(net, start, goal, st, rank, pops, top);
    }
  }

  lemma ExpandStep(net: Net, start: nat, goal: nat, st: Search, rank: Ranks, pops: nat, top: Entry)
    requires Inv(net, start, goal, st, rank, pops) && IsTop(st.heap, top) && top.node != goal
    requires !st.dist[top.node].Less(Finite(top.cost))
    ensures var popped := st.(heap := st.heap - multiset{top});
            Inv(net, start, goal, Relax(net, popped, top.node, top.cost, |net[top.node]|), rank[top.node := |rank|],
                pops + 1)
  {
    hide Queued, Frontier, Tree, Labelled, ArcRelaxed;
    ExpandStarts(net, start, goal, st, rank, pops, top);
    var popped := st.(heap := st.heap - multiset{top});
    var rank' := rank[top.node := |rank|];
    RelaxAllKeepsMid(net, start, popped, rank', top.node, top.cost, |net[top.node]|);
    PendingExpand(net, rank, top.node, |net|);
    assert rank'.Keys == rank.Keys + {top.node};
  }

  // ----- what a run of the search amounts to -----

  lemma IterateStep(net: Net, start: nat, goal: nat, n: nat)
    requires WellFormed(net) && start < |net| && n > 0
    ensures Iterate(net, start, goal, n) == Advance(net, goal, Iterate(net, start, goal, n - 1))
  {
  }

  lemma AdvanceDone(net: Net, goal: nat, p: Phase)
    requires Shaped(net, p.st) && !p.Running?
    ensures Advance(net, goal, p) == p
  {
  }

  ghost function RankAt(net: Net, start: nat, goal: nat, n: nat): Ranks
    requires WellFormed(net) && start < |net|
  {
    if n == 0 then map[]
    else
      var p := Iterate(net, start, goal, n - 1);
      if p.Running? && p.st.heap != multiset{} && Top(p.st.heap).node != goal
      then Expand(p.st, RankAt(net, start, goal, n - 1))
      else RankAt(net, start, goal, n - 1)
  }

  lemma RunningBefore(net: Net, start: nat, goal: nat, n: nat)
    requires WellFormed(net) && start < |net| && n > 0 && Iterate(net, start, goal, n).Running?
    ensures var p, q := Iterate(net, start, goal, n - 1), Iterate(net, start, goal, n);
            p.Running? && q == Advance(net, goal, Running(p.st)) &&
            p.st.heap != multiset{} && Top(p.st.heap).node != goal && Top(p.st.heap).node < |p.st.dist| &&
            RankAt(net, start, goal, n) == Expand(p.st, RankAt(net, start, goal, n - 1))
  {
  }

  lemma {:induction false} Reached(net: Net, start: nat, goal: nat, n: nat)
    requires WellFormed(net) && start < |net| && Iterate(net, start, goal, n).Running?
    ensures Inv(net, start, goal, Iterate(net, start, goal, n).st, RankAt(net, start, goal, n), n)
  {
    hide Inv, Advance, Iterate, RankAt, Init, WellFormed;
    if n == 0 {
      ReachedInit(net, start, goal);
    } else {
      RunningBefore(net, start, goal, n);
      Reached(net, start, goal, n - 1);
      InvStep(net, start, goal, Iterate(net, start, goal, n - 1).st, RankAt(net, start, goal, n - 1), n - 1);
    }
  }

  lemma ReachedInit(net: Net, start: nat, goal: nat)
    requires WellFormed(net) && start < |net|
    ensures Inv(net, start, goal, Iterate(net, start, goal, 0).st, RankAt(net, start, goal, 0), 0)
  {
    hide Inv;
    InvInit(net, start, goal);
  }

  /** The loop stops after at most 1 + |edges| pops and one look at the empty queue. */
  lemma WorkBound(net: Net, start: nat, goal: nat, n: nat)
    requires WellFormed(net) && start < |net|
    ensures Iterate(net, start, goal, n).Running? ==>
              n + |Iterate(net, start, goal, n).st.heap| <= 1 + EdgeCount(net)
    ensures n >= 2 + EdgeCount(net) ==> !Iterate(net, start, goal, n).Running?
  {
    if Iterate(net, start, goal, n).Running? {
      Reached(net, start, goal, n);
    }
  }

  /** The node whose edges iteration `n` relaxes, if it relaxes any. */
  ghost function ExpandedAt(net: Net, start: nat, goal: nat, n: nat): Option<nat>
    requires WellFormed(net) && start < |net|
  {
    var p := Iterate(net, start, goal, n);
    if !p.Running? || p.st.heap == multiset{} then None
    else
      var top := Top(p.st.heap);
      if top.node == goal || p.st.dist[top.node].Less(Finite(top.cost)) then None else Some(top.node)
  }

  lemma RankStep(net: Net, start: nat, goal: nat, n: nat)
    requires WellFormed(net) && start < |net| && n > 0
    ensures RankAt(net, start, goal, n - 1).Keys <= RankAt(net, start, goal, n).Keys
  {
    hide Advance, Iterate, IsTop;
  }

  lemma {:induction false} RanksGrow(net: Net, start: nat, goal: nat, i: nat, j: nat)
    requires WellFormed(net) && start < |net| && i <= j
    ensures RankAt(net, start, goal, i).Keys <= RankAt(net, start, goal, j).Keys
  {
    hide RankAt;
    if i < j {
      RanksGrow(net, start, goal, i, j - 1);
      RankStep(net, start, goal, j);
    }
  }

  /** No node is expanded twice, zero-cost edges or not. */
  lemma ExpandedOnce(net: Net, start: nat, goal: nat, i: nat, j: nat)
    requires WellFormed(net) && start < |net| && i < j
    requires ExpandedAt(net, start, goal, i).Some?
    ensures ExpandedAt(net, start, goal, i) != ExpandedAt(net, start, goal, j)
  {
    if ExpandedAt(net, start, goal, j).Some? {
      RanksGrow(net, start, goal, i + 1, j);
      Reached(net, start, goal, j);
      hide Iterate, Advance, Queued, Tree, Frontier, Relaxed, Mid;
      var st := Iterate(net, start, goal, j).st;
      ExpandStarts(net, start, goal, st, RankAt(net, start, goal, j), j, Top(st.heap));
    }
  }

  lemma {:induction false} StaysDone(net: Net, start: nat, goal: nat, i: nat, j: nat)
    requires WellFormed(net) && start < |net| && i <= j && !Iterate(net, start, goal, i).Running?
    ensures Iterate(net, start, goal, j) == Iterate(net, start, goal, i)
  {
    hide Advance;
    if i < j {
      StaysDone(net, start, goal, i, j - 1);
      AdvanceDone(net, goal, Iterate(net, start, goal, j - 1));
    }
  }

  /** How the search ends. */
  ghost function Outcome(net: Net, start: nat, goal: nat): (p: Phase)
    requires WellFormed(net) && start < |net|
    ensures Shaped(net, p.st) && !p.Running?
  {
    WorkBound(net, start, goal, 2 + EdgeCount(net));
    Iterate(net, start, goal, 2 + EdgeCount(net))
  }

  /** The first iteration that ends the search shows the outcome. */
  lemma OutcomeIs(net: Net, start: nat, goal: nat, n: nat)
    requires WellFormed(net) && start < |net| && !Iterate(net, start, goal, n).Running?
    ensures Outcome(net, start, goal) == Iterate(net, start, goal, n)
  {
    hide Advance, Iterate;
    if n <= 2 + EdgeCount(net) {
      StaysDone(net, start, goal, n, 2 + EdgeCount(net));
    } else {
      WorkBound(net, start, goal, 2 + EdgeCount(net));
      StaysDone(net, start, goal, 2 + EdgeCount(net), n);
    }
  }

  lemma {:induction false} LastRunning(net: Net, start: nat, goal: nat, n: nat) returns (i: nat)
    requires WellFormed(net) && start < |net| && !Iterate(net, start, goal, n).Running?
    ensures i < n && Iterate(net, start, goal, i).Running?
    ensures Iterate(net, start, goal, i + 1) == Iterate(net, start, goal, n)
  {
    hide Advance, EdgeCount;
    if n == 0 {
      assert false;
    } else if Iterate(net, start, goal, n - 1).Running? {
      i := n - 1;
    } else {
      AdvanceDone(net, goal, Iterate(net, start, goal, n - 1));
      i := LastRunning(net, start, goal, n - 1);
    }
  }

  /** The state before the last iteration, and how the outcome follows from it. */
  lemma LastState(net: Net, start: nat, goal: nat) returns (st: Search, rank: Ranks, n: nat)
    requires WellFormed(net) && start < |net|
    ensures Inv(net, start, goal, st, rank, n)
    ensures Outcome(net, start, goal) ==
              if st.heap == multiset{} then Exhausted(st)
              else Found(st.(heap := st.heap - multiset{Top(st.heap)}), Top(st.heap).cost)
    ensures st.heap != multiset{} ==> Top(st.heap).node == goal
  {
    hide Inv, Iterate, RankAt, Relax, WellFormed;
    WorkBound(net, start, goal, 2 + EdgeCount(net));
    n := LastRunning(net, start, goal, 2 + EdgeCount(net));
    Reached(net, start, goal, n);
    IterateStep(net, start, goal, n + 1);
    st, rank := Iterate(net, start, goal, n).st, RankAt(net, start, goal, n);
  }

  // ----- lower bound on walks -----

  /** A walk to `v` of cost `c` cannot undercut the search: v's distance or some queue entry is no dearer. */
  ghost predicate Bounded(st: Search, v: nat, c: real) {
    (v < |st.dist| && st.dist[v].Finite? && st.dist[v].value <= c) || exists e :: e in st.heap && e.cost <= c
  }

  lemma BoundStep(net: Net, start: nat, goal: nat, st: Search, rank: Ranks, pops: nat, u: nat, k: nat, c: real)
    requires Inv(net, start, goal, st, rank, pops)
    requires u < |net| && k < |net[u]| && net[u][k].cost.Some? && Bounded(st, u, c)
    ensures Bounded(st, net[u][k].to, c + net[u][k].cost.value)
  {
    hide Tree;
    if u < |st.dist| && st.dist[u].Finite? && st.dist[u].value <= c {
      if u in rank {
        assert ArcRelaxed(net, st.dist, u, k);
      } else {
        var e := Entry(u, st.dist[u].value);
        assert e in st.heap && e.cost <= c + net[u][k].cost.value;
      }
    } else {
      var e :| e in st.heap && e.cost <= c;
      assert e.cost <= c + net[u][k].cost.value;
    }
  }

  /** Popping the goal: its cost is the goal's distance, although staleness is tested later. */
  lemma GoalPop(net: Net, start: nat, goal: nat, st: Search, rank: Ranks, pops: nat)
    requires Inv(net, start, goal, st, rank, pops) && st.heap != multiset{} && Top(st.heap).node == goal
    ensures goal < |net| && st.dist[goal] == Finite(Top(st.heap).cost)
    ensures forall c :: Bounded(st, goal, c) ==> Top(st.heap).cost <= c
  {
    hide Tree, Relaxed;
    TopCheapest(st.heap, Top(st.heap));
    assert Entry(goal, st.dist[goal].value) in st.heap;
  }

  lemma EmptyQueue(net: Net, start: nat, goal: nat, st: Search, rank: Ranks, pops: nat)
    requires Inv(net, start, goal, st, rank, pops) && st.heap == multiset{} && goal < |net|
    ensures forall c :: !Bounded(st, goal, c)
  {
    hide Tree, Relaxed;
    assert !st.dist[goal].Finite?;
  }

  // ----- the predecessor walk -----

  /** The nodes met when `prev` is followed from `goal` to `start`, reversed. */
  ghost predicate IsBackPath(prev: seq<Option<nat>>, start: nat, goal: nat, path: seq<nat>) {
    && |path| > 0 && path[0] == start && path[|path| - 1] == goal
    && forall i :: 1 <= i < |path| ==> path[i] != start && path[i] < |prev| && prev[path[i]] == Some(path[i - 1])
  }

  lemma {:induction false} BackPathUnique(prev: seq<Option<nat>>, start: nat, goal: nat, p: seq<nat>, q: seq<nat>)
    requires IsBackPath(prev, start, goal, p) && IsBackPath(prev, start, goal, q)
    ensures p == q
    decreases |p|
  {
    if |p| > 1 && |q| > 1 {
      var p', q' := p[..|p| - 1], q[..|q| - 1];
      assert prev[p[|p| - 1]] == Some(p[|p| - 2]) && prev[q[|q| - 1]] == Some(q[|q| - 2]);
      BackPathUnique(prev, start, p'[|p'| - 1], p', q');
      assert p == p' + [goal] && q == q' + [goal];
    } else {
      assert |p| == |q| == 1;
    }
  }

  ghost predicate PathArcs(net: Net, dist: seq<Float>, path: seq<nat>)
    requires |dist| == |net|
  {
    && (forall i :: 0 <= i < |path| ==> path[i] < |net| && dist[path[i]].Finite?)
    && (forall i :: 0 <= i < |path| - 1 ==> Linked(net, dist, path[i], path[i + 1]))
  }

  ghost predicate Linked(net: Net, dist: seq<Float>, p: nat, v: nat)
    requires |dist| == |net|
  {
    v < |net| && exists k: nat :: TreeArc(net, dist, p, v, k)
  }

  ghost predicate Distinct(path: seq<nat>) {
    forall i, j :: 0 <= i < j < |path| ==> path[i] != path[j]
  }

  /** Predecessors were expanded earlier, so the walk back ends at the start and repeats no node. */
  lemma {:induction false} BackPath(net: Net, start: nat, goal: nat, st: Search, rank: Ranks, pops: nat, v: nat)
    returns (path: seq<nat>)
    requires Inv(net, start, goal, st, rank, pops) && v < |net| && st.dist[v].Finite?
    ensures IsBackPath(st.prev, start, v, path) && PathArcs(net, st.dist, path) && Distinct(path)
    ensures forall i :: 0 <= i < |path| - 1 ==> path[i] in rank && (v in rank ==> rank[path[i]] < rank[v])
    decreases if v in rank then rank[v] else |rank|
  {
    hide Queued, Relaxed, Labelled;
    if v == start {
      path := [start];
    } else {
      assert HasParent(net, st.dist, st.prev, rank, v);
      var p := st.prev[v].value;
      var front := BackPath(net, start, goal, st, rank, pops, p);
      path := front + [v];
      ExtendBackPath(net, st.dist, st.prev, start, front, v);
    }
  }

  lemma ExtendBackPath(net: Net, dist: seq<Float>, prev: seq<Option<nat>>, start: nat, front: seq<nat>, v: nat)
    requires |dist| == |prev| == |net| && |front| > 0 && v < |net| && v != start && dist[v].Finite?
    requires var p := front[|front| - 1];
             IsBackPath(prev, start, p, front) && prev[v] == Some(p) && Linked(net, dist, p, v)
    requires PathArcs(net, dist, front)
    ensures IsBackPath(prev, start, v, front + [v]) && PathArcs(net, dist, front + [v])
  {
    var path := front + [v];
    forall i | 0 <= i < |path| - 1 ensures Linked(net, dist, path[i], path[i + 1]) {
      if i + 1 < |front| {
        assert Linked(net, dist, front[i], front[i + 1]);
      }
    }
  }
}
