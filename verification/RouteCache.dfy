/** The bounded route cache of one tenant and its recency queue. */
module RouteCache {
  import opened Prelude

  datatype RouteKey = RouteKey(start: string, goal: string)

  datatype CachedPath = CachedPath(path: seq<string>, weight: real, touched: set<string>)

  const LIMIT: nat := 1024

  /** `VecDeque::retain` */
  function Retain(order: seq<RouteKey>, keep: set<RouteKey>): (r: seq<RouteKey>) {
    if order == [] then []
    else (if order[0] in keep then [order[0]] else []) + Retain(order[1..], keep)
  }

  function Without(order: seq<RouteKey>, key: RouteKey): seq<RouteKey> {
    Retain(order, (set k | k in order) - {key})
  }

  /** The value of `cache` and `cache_order`. */
  datatype Cache = Cache(entries: map<RouteKey, CachedPath>, order: seq<RouteKey>) {

    function InvalidateNode(node: string): Cache {
      var kept := map key | key in entries && node !in entries[key].touched :: entries[key];
      Cache(kept, Retain(order, kept.Keys))
    }

    function Touch(key: RouteKey): Cache {
      if key in entries then Cache(entries, Without(order, key) + [key]) else this
    }

    predicate Evicts(key: RouteKey) {
      key !in entries && |entries| == LIMIT && order != []
    }

    function Evict(key: RouteKey): Cache {
      if Evicts(key) then Cache(entries - {order[0]}, order[1..]) else this
    }

    function Insert(key: RouteKey, cached: CachedPath): Cache {
      var c := Evict(key);
      Cache(c.entries[key := cached], Without(c.order, key) + [key])
    }

    /** The queue lists exactly the cached keys, each once, and is bounded. */
    ghost predicate Coherent() {
      && (forall i, j :: 0 <= i < j < |order| ==> order[i] != order[j])
      && (forall key :: key in order <==> key in entries)
      && |order| <= LIMIT && |entries| == |order|
    }
  }

  const EMPTY := Cache(map[], [])

  datatype CacheOp =
    | Insert(key: RouteKey, cached: CachedPath)
    | Get(key: RouteKey)
    | InvalidateNode(node: string)
    | InvalidateAll

  function Apply(c: Cache, op: CacheOp): Cache {
    match op
    case Insert(key, cached) => c.Insert(key, cached)
    case Get(key) => c.Touch(key)
    case InvalidateNode(node) => c.InvalidateNode(node)
    case InvalidateAll => EMPTY
  }

  function Run(ops: seq<CacheOp>): Cache {
    if ops == [] then EMPTY else Apply(Run(ops[..|ops| - 1]), ops[|ops| - 1])
  }

  /** When `key` was last inserted or looked up under the write lock; -1 if never. */
  function LastTouch(ops: seq<CacheOp>, key: RouteKey): int {
    if ops == [] then -1
    else
      var op := ops[|ops| - 1];
      if (op.Insert? || op.Get?) && op.key == key then |ops| - 1 else LastTouch(ops[..|ops| - 1], key)
  }

  // ----- retain -----

  lemma {:induction false} RetainMembers(order: seq<RouteKey>, keep: set<RouteKey>)
    ensures forall key :: key in Retain(order, keep) <==> key in order && key in keep
    ensures |Retain(order, keep)| <= |order|
  {
    if order != [] {
      RetainMembers(order[1..], keep);
    }
  }

  /** Along the queue, keys get strictly more recent. */
  ghost predicate Increasing(order: seq<RouteKey>, ops: seq<CacheOp>) {
    forall i, j :: 0 <= i < j < |order| ==> LastTouch(ops, order[i]) < LastTouch(ops, order[j])
  }

  lemma {:induction false} RetainIncreasing(order: seq<RouteKey>, keep: set<RouteKey>, ops: seq<CacheOp>)
    requires Increasing(order, ops)
    ensures Increasing(Retain(order, keep), ops)
  {
    hide LastTouch;
    if order != [] {
      RetainIncreasing(order[1..], keep, ops);
      var rest := Retain(order[1..], keep);
      RetainMembers(order[1..], keep);
      forall j | 0 <= j < |rest| ensures LastTouch(ops, order[0]) < LastTouch(ops, rest[j]) {
        assert rest[j] in order[1..];
      }
    }
  }

  lemma {:induction false} TouchBound(ops: seq<CacheOp>, key: RouteKey)
    ensures -1 <= LastTouch(ops, key) < |ops|
  {
    if ops != [] {
      TouchBound(ops[..|ops| - 1], key);
    }
  }

  /** Moving a key to the back is what the clock says after touching it. */
  lemma ToBackIncreasing(order: seq<RouteKey>, ops: seq<CacheOp>, op: CacheOp, key: RouteKey)
    requires Increasing(order, ops) && (op.Insert? || op.Get?) && op.key == key
    ensures Increasing(Without(order, key) + [key], ops + [op])
  {
    var ops' := ops + [op];
    var rest := Without(order, key);
    RetainIncreasing(order, (set k | k in order) - {key}, ops);
    RetainMembers(order, (set k | k in order) - {key});
    assert ops'[..|ops|] == ops;
    forall k ensures k != key ==> LastTouch(ops', k) == LastTouch(ops, k) < |ops| {
      TouchBound(ops, k);
    }
    assert LastTouch(ops', key) == |ops|;
    hide LastTouch;
    assert forall i :: 0 <= i < |rest| ==> rest[i] in rest && rest[i] != key;
  }

  lemma {:induction false} DistinctSize(order: seq<RouteKey>)
    requires forall i, j :: 0 <= i < j < |order| ==> order[i] != order[j]
    ensures |set k | k in order| == |order|
  {
    if order != [] {
      DistinctSize(order[1..]);
      assert order == [order[0]] + order[1..];
      assert (set k | k in order) == {order[0]} + set k | k in order[1..];
    }
  }

  ghost predicate Ordered(c: Cache, ops: seq<CacheOp>) {
    && Increasing(c.order, ops)
    && (forall key :: key in c.order <==> key in c.entries)
    && |c.order| <= LIMIT
  }

  lemma OrderedCoherent(c: Cache, ops: seq<CacheOp>)
    requires Ordered(c, ops)
    ensures c.Coherent() && |c.entries| <= 1024
  {
    hide LastTouch;
    forall i, j | 0 <= i < j < |c.order| ensures c.order[i] != c.order[j] {
      assert LastTouch(ops, c.order[i]) < LastTouch(ops, c.order[j]);
    }
    DistinctSize(c.order);
    assert (set k | k in c.order) == c.entries.Keys;
  }

  lemma UntouchedIncreasing(order: seq<RouteKey>, ops: seq<CacheOp>, op: CacheOp)
    requires Increasing(order, ops) && !op.Insert? && !op.Get?
    ensures Increasing(order, ops + [op])
  {
    assert (ops + [op])[..|ops|] == ops;
  }

  lemma MissIncreasing(c: Cache, ops: seq<CacheOp>, key: RouteKey)
    requires Ordered(c, ops) && key !in c.entries
    ensures Increasing(c.order, ops + [Get(key)])
  {
    assert (ops + [Get(key)])[..|ops|] == ops;
    assert forall i :: 0 <= i < |c.order| ==> c.order[i] in c.order;
  }

  lemma TailMembers(order: seq<RouteKey>)
    requires order != [] && forall i, j :: 0 <= i < j < |order| ==> order[i] != order[j]
    ensures forall key :: key in order[1..] <==> key in order && key != order[0]
  {
    assert order == [order[0]] + order[1..];
  }

  lemma TailIncreasing(order: seq<RouteKey>, ops: seq<CacheOp>)
    requires order != [] && Increasing(order, ops)
    ensures Increasing(order[1..], ops)
  {
  }

  lemma EvictOrdered(c: Cache, ops: seq<CacheOp>, key: RouteKey)
    requires Ordered(c, ops)
    ensures Ordered(c.Evict(key), ops)
    ensures key in c.Evict(key).entries || |c.Evict(key).order| < LIMIT
  {
    OrderedCoherent(c, ops);
    hide LastTouch, Increasing;
    if c.Evicts(key) {
      TailMembers(c.order);
      TailIncreasing(c.order, ops);
    }
  }

  lemma InsertOrdered(c: Cache, ops: seq<CacheOp>, key: RouteKey, cached: CachedPath)
    requires Ordered(c, ops)
    ensures Ordered(c.Insert(key, cached), ops + [Insert(key, cached)])
  {
    hide LastTouch, Cache.Evict, Retain, Increasing;
    EvictOrdered(c, ops, key);
    var c' := c.Evict(key);
    ToBackIncreasing(c'.order, ops, Insert(key, cached), key);
    RetainMembers(c'.order, (set k | k in c'.order) - {key});
    WithoutShorter(c'.order, key);
  }

  lemma {:induction false} RetainShorter(order: seq<RouteKey>, keep: set<RouteKey>, key: RouteKey)
    requires key in order && key !in keep
    ensures |Retain(order, keep)| < |order|
  {
    if order[0] == key {
      RetainMembers(order[1..], keep);
    } else {
      RetainShorter(order[1..], keep, key);
    }
  }

  lemma WithoutShorter(order: seq<RouteKey>, key: RouteKey)
    ensures |Without(order, key)| <= |order| && (key in order ==> |Without(order, key)| < |order|)
  {
    RetainMembers(order, (set k | k in order) - {key});
    if key in order {
      RetainShorter(order, (set k | k in order) - {key}, key);
    }
  }

  lemma TouchOrdered(c: Cache, ops: seq<CacheOp>, key: RouteKey)
    requires Ordered(c, ops)
    ensures Ordered(c.Touch(key), ops + [Get(key)])
  {
    hide LastTouch;
    if key in c.entries {
      ToBackIncreasing(c.order, ops, Get(key), key);
      RetainMembers(c.order, (set k | k in c.order) - {key});
      WithoutShorter(c.order, key);
    } else {
      MissIncreasing(c, ops, key);
    }
  }

  lemma InvalidateOrdered(c: Cache, ops: seq<CacheOp>, node: string)
    requires Ordered(c, ops)
    ensures Ordered(c.InvalidateNode(node), ops + [InvalidateNode(node)])
  {
    hide LastTouch;
    var kept := c.InvalidateNode(node).entries.Keys;
    RetainIncreasing(c.order, kept, ops);
    RetainMembers(c.order, kept);
    UntouchedIncreasing(Retain(c.order, kept), ops, InvalidateNode(node));
  }

  /** In every run the queue lists the cached keys, each once, from least to most recently touched. */
  lemma {:induction false} QueueByRecency(ops: seq<CacheOp>)
    ensures Run(ops).Coherent() && Increasing(Run(ops).order, ops) && |Run(ops).entries| <= 1024
    ensures Ordered(Run(ops), ops)
  {
    hide LastTouch, Cache.Insert, Cache.Touch, Cache.InvalidateNode, Cache.Coherent;
    if ops != [] {
      var front, op := ops[..|ops| - 1], ops[|ops| - 1];
      QueueByRecency(front);
      assert front + [op] == ops;
      match op {
        case Insert(key, cached) => InsertOrdered(Run(front), front, key, cached);
        case Get(key) => TouchOrdered(Run(front), front, key);
        case InvalidateNode(node) => InvalidateOrdered(Run(front), front, node);
        case InvalidateAll =>
      }
    }
    OrderedCoherent(Run(ops), ops);
  }

  /** Inserting a new key evicts only when full, and then exactly the least recently touched key. */
  lemma EvictsOldest(ops: seq<CacheOp>, key: RouteKey, cached: CachedPath)
    requires key !in Run(ops).entries
    ensures var c := Run(ops); var r := c.Insert(key, cached);
            if |c.entries| < 1024 then r.entries == c.entries[key := cached]
            else
              c.order != [] && var victim := c.order[0];
              && victim in c.entries && r.entries == (c.entries - {victim})[key := cached]
              && forall k :: k in c.entries && k != victim ==> LastTouch(ops, victim) < LastTouch(ops, k)
  {
    QueueByRecency(ops);
    hide LastTouch, Run;
    var c := Run(ops);
    if |c.entries| == LIMIT {
      assert c.order[0] in c.order;
      forall k | k in c.entries && k != c.order[0] ensures LastTouch(ops, c.order[0]) < LastTouch(ops, k) {
        assert k in c.order;
        var i :| 0 <= i < |c.order| && c.order[i] == k;
      }
    }
  }

  /** What each operation leaves in the cache: a hit everything, an invalidation exactly the entries that do not touch
      the node, an insertion everything but the oldest entry, and that only when a new key finds no room. */
  lemma EntriesAfter(ops: seq<CacheOp>, key: RouteKey, op: CacheOp)
    requires key in Run(ops).entries
    ensures var c, d := Run(ops), Run(ops + [op]);
            && (op.Get? ==> key in d.entries)
            && (op.InvalidateNode? ==> (key in d.entries <==> op.node !in c.entries[key].touched))
            && (op.InvalidateAll? ==> d.entries == map[])
            && (op.Insert? ==>
                  (key in d.entries <==> op.key in c.entries || |c.entries| < 1024
                                         || exists k :: k in c.entries && LastTouch(ops, k) < LastTouch(ops, key)))
            && (key in d.entries && !(op.Insert? && op.key == key) ==> d.entries[key] == c.entries[key])
            && (op.Insert? ==> op.key in d.entries && d.entries[op.key] == op.cached)
  {
    assert (ops + [op])[..|ops|] == ops;
    var c := Run(ops);
    QueueByRecency(ops);
    if op.Insert? && op.key !in c.entries && |c.entries| == 1024 {
      EvictsOldest(ops, op.key, op.cached);
    }
    hide LastTouch;
  }
}
