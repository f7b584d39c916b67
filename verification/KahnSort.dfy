/** Kahn's topological sort with depths, on node indices.  A graph is given by the
    set of predecessors of each node; `leq` is the order the ready set is kept in. */
module KahnSort {
  import opened Base
  import opened Collections

  const MAX_DEPTH := 4

  type Preds = seq<set<nat>>
  type Order = (nat, nat) -> bool

  ghost predicate Graph(g: Preds) {
    forall c, p :: 0 <= c < |g| && p in g[c] ==> p < |g|
  }

  ghost predicate TotalOrder(leq: Order) {
    && (forall a, b :: leq(a, b) || leq(b, a))
    && (forall a, b, c :: leq(a, b) && leq(b, c) ==> leq(a, c))
  }

  /** Along a chain each node is a predecessor of the next. */
  ghost predicate Chain(g: Preds, c: seq<nat>) {
    && c != []
    && (forall i :: 0 <= i < |c| ==> c[i] < |g|)
    && (forall i :: 0 < i < |c| ==> c[i - 1] in g[c[i]])
  }

  function Last(c: seq<nat>): nat
    requires c != []
  {
    c[|c| - 1]
  }

  ghost predicate ChainsBounded(g: Preds) {
    forall c :: Chain(g, c) ==> |c| <= MAX_DEPTH
  }

  ghost predicate Acyclic(g: Preds) {
    forall c :: Chain(g, c) && 1 < |c| ==> c[0] != Last(c)
  }

  /** `d` is the length of the longest chain that ends in `n`. */
  ghost predicate LongestChainTo(g: Preds, n: nat, d: nat) {
    && (exists c :: Chain(g, c) && Last(c) == n && |c| == d)
    && (forall c :: Chain(g, c) && Last(c) == n ==> |c| <= d)
  }

  function Nodes(s: seq<nat>): set<nat> { set i | i in s }

  ghost predicate Topological(g: Preds, order: seq<nat>) {
    && Distinct(order)
    && Nodes(order) == UpTo(|g|)
    && forall k :: 0 <= k < |order| ==> order[k] < |g| && g[order[k]] <= Nodes(order[..k])
  }

  // ----- Chains -----

  lemma {:induction false} ExtendChain(g: Preds, c: seq<nat>, n: nat)
    requires Chain(g, c) && n < |g| && Last(c) in g[n]
    ensures Chain(g, c + [n]) && Last(c + [n]) == n
  {}

  /** A cycle can be walked for any number of steps. */
  lemma {:induction false} WalkCycle(g: Preds, cycle: seq<nat>, at: nat, n: nat) returns (walk: seq<nat>)
    requires Chain(g, cycle) && 1 < |cycle| && cycle[0] == Last(cycle) && at < |cycle| && 0 < n
    ensures Chain(g, walk) && |walk| == n && Last(walk) == cycle[at]
    decreases n
  {
    if n == 1 {
      walk := [cycle[at]];
    } else {
      var before := if at == 0 then |cycle| - 2 else at - 1;
      walk := WalkCycle(g, cycle, before, n - 1);
      ExtendChain(g, walk, cycle[at]);
      walk := walk + [cycle[at]];
    }
  }

  lemma {:induction false} BoundedIsAcyclic(g: Preds)
    requires ChainsBounded(g)
    ensures Acyclic(g)
  {
    forall c | Chain(g, c) && 1 < |c| ensures c[0] != Last(c) {
      if c[0] == Last(c) {
        var walk := WalkCycle(g, c, 0, MAX_DEPTH + 1);
      }
    }
  }

  // ----- The state of the sort -----

  /** `c` has not been emitted and everything it depends on has. */
  ghost predicate Available(g: Preds, done: set<nat>, c: nat) {
    c < |g| && c !in done && g[c] <= done
  }

  ghost predicate LeastAvailable(g: Preds, leq: Order, done: set<nat>, n: nat) {
    Available(g, done, n) && forall c :: Available(g, done, c) ==> leq(n, c)
  }

  /** Each emitted node was the least of those available. */
  ghost predicate Greedy(g: Preds, leq: Order, order: seq<nat>) {
    forall k :: 0 <= k < |order| ==> LeastAvailable(g, leq, Nodes(order[..k]), order[k])
  }

  /** Emitted nodes depend on emitted nodes only. */
  ghost predicate Closed(g: Preds, done: set<nat>) {
    forall n :: n in done ==> n < |g| && g[n] <= done
  }

  /** `depth` is one more than the greatest depth among the emitted predecessors. */
  ghost predicate DepthAt(g: Preds, done: set<nat>, depth: seq<uint8>, c: nat)
    requires |depth| == |g| && Graph(g) && c < |g|
  {
    && 1 <= depth[c]
    && (forall p :: p in g[c] && p in done ==> depth[p] < depth[c])
    && (depth[c] == 1 || exists p :: p in g[c] && p in done && depth[p] + 1 == depth[c])
  }

  ghost predicate Depths(g: Preds, done: set<nat>, depth: seq<uint8>)
    requires |depth| == |g| && Graph(g)
  {
    forall c :: 0 <= c < |g| ==> DepthAt(g, done, depth, c)
  }

  ghost predicate Counted(g: Preds, done: set<nat>, indegree: seq<nat>)
    requires |indegree| == |g|
  {
    forall c :: 0 <= c < |g| ==> indegree[c] == |g[c] - done|
  }

  lemma {:induction false} GreedyDistinct(g: Preds, leq: Order, order: seq<nat>)
    requires Greedy(g, leq, order)
    ensures Distinct(order)
  {
    forall i, j | 0 <= i < j < |order| ensures order[i] != order[j] {
      assert LeastAvailable(g, leq, Nodes(order[..j]), order[j]);
      assert order[..j][i] == order[i];
    }
  }

  lemma {:induction false} GreedyClosed(g: Preds, leq: Order, order: seq<nat>)
    requires Greedy(g, leq, order)
    ensures Closed(g, Nodes(order)) && Distinct(order)
    ensures |order| <= |g| && (|order| == |g| <==> Nodes(order) == UpTo(|g|))
  {
    GreedyDistinct(g, leq, order);
    forall n | n in Nodes(order) ensures n < |g| && g[n] <= Nodes(order) {
      var k :| 0 <= k < |order| && order[k] == n;
      assert LeastAvailable(g, leq, Nodes(order[..k]), order[k]);
      assert Nodes(order[..k]) <= Nodes(order);
    }
    DistinctSize(order);
    UpToSize(|g|);
    assert Nodes(order) <= UpTo(|g|);
    SubsetSize(Nodes(order), UpTo(|g|));
  }

  lemma {:induction false} GreedyExtends(g: Preds, leq: Order, order: seq<nat>, n: nat)
    requires Greedy(g, leq, order) && LeastAvailable(g, leq, Nodes(order), n)
    ensures Greedy(g, leq, order + [n]) && Nodes(order + [n]) == Nodes(order) + {n}
  {
    var next := order + [n];
    forall k | 0 <= k < |next| ensures LeastAvailable(g, leq, Nodes(next[..k]), next[k]) {
      assert next[..k] == order[..k];
      if k == |order| { assert order[..k] == order; }
    }
  }

  predicate LeastOf(leq: Order, ready: set<nat>, n: nat) {
    n in ready && forall c :: c in ready ==> leq(n, c)
  }

  /** The front of the ordered ready set. */
  method Least(leq: Order, ready: set<nat>) returns (n: nat)
    requires TotalOrder(leq) && ready != {}
    ensures n in ready && LeastOf(leq, ready, n)
    decreases |ready|
  {
    var x :| x in ready;
    n := x;
    assert leq(x, x);
    if ready != {x} {
      var rest := ready - {x};
      assert ready == rest + {x};
      var y := Least(leq, rest);
      n := if leq(x, y) then x else y;
    }
  }

  // ----- Depths are longest chains -----

  /** A node of depth `d` ends a chain of that length. */
  lemma {:induction false} DepthWitness(g: Preds, done: set<nat>, depth: seq<uint8>, c: nat)
    returns (chain: seq<nat>)
    requires Graph(g) && |depth| == |g| && c < |g| && Depths(g, done, depth)
    ensures Chain(g, chain) && Last(chain) == c && |chain| == depth[c]
    decreases depth[c]
  {
    assert DepthAt(g, done, depth, c);
    if depth[c] == 1 {
      chain := [c];
    } else {
      var p :| p in g[c] && p in done && depth[p] + 1 == depth[c];
      chain := DepthWitness(g, done, depth, p);
      ExtendChain(g, chain, c);
      chain := chain + [c];
    }
  }

  /** Once everything is emitted no chain is longer than the depth of its last node. */
  lemma {:induction false} DepthBounds(g: Preds, done: set<nat>, depth: seq<uint8>, chain: seq<nat>)
    requires Graph(g) && |depth| == |g| && done == UpTo(|g|) && Depths(g, done, depth)
    requires Chain(g, chain)
    ensures |chain| <= depth[Last(chain)]
    decreases |chain|
  {
    var n := |chain| - 1;
    assert DepthAt(g, done, depth, chain[n]);
    if 0 < n {
      DepthBounds(g, done, depth, chain[..n]);
      assert chain[n - 1] in g[chain[n]];
    }
  }

  /** When nothing is available and something is left, chains can be as long as one likes. */
  lemma {:induction false} StuckChain(g: Preds, done: set<nat>, c: nat, n: nat) returns (chain: seq<nat>)
    requires Graph(g) && 0 < n && c < |g| && c !in done
    requires forall i :: !Available(g, done, i)
    ensures Chain(g, chain) && Last(chain) == c && |chain| == n
    decreases n
  {
    if n == 1 {
      chain := [c];
    } else {
      assert !Available(g, done, c);
      var p :| p in g[c] && p !in done;
      chain := StuckChain(g, done, p, n - 1);
      ExtendChain(g, chain, c);
      chain := chain + [c];
    }
  }

  lemma {:induction false} DepthsAreLongest(g: Preds, depth: seq<uint8>, n: nat)
    requires Graph(g) && |depth| == |g| && Depths(g, UpTo(|g|), depth) && n < |g|
    ensures LongestChainTo(g, n, depth[n])
  {
    var chain := DepthWitness(g, UpTo(|g|), depth, n);
    forall c | Chain(g, c) && Last(c) == n ensures |c| <= depth[n] {
      DepthBounds(g, UpTo(|g|), depth, c);
    }
  }

  // ----- The greedy order is topological and comes first -----

  lemma {:induction false} GreedyIsTopological(g: Preds, leq: Order, order: seq<nat>)
    requires Greedy(g, leq, order) && |order| == |g|
    ensures Topological(g, order)
  {
    GreedyClosed(g, leq, order);
    forall k | 0 <= k < |order| ensures order[k] < |g| && g[order[k]] <= Nodes(order[..k]) {
      assert LeastAvailable(g, leq, Nodes(order[..k]), order[k]);
    }
  }

  lemma {:induction false} FirstDifference<T>(a: seq<T>, b: seq<T>) returns (k: nat)
    requires |a| == |b| && a != b
    ensures k < |a| && a[..k] == b[..k] && a[k] != b[k]
  {
    k := 0;
    while k < |a| && a[k] == b[k]
      invariant k <= |a| && forall i :: 0 <= i < k ==> a[i] == b[i]
    {
      k := k + 1;
    }
  }

  ghost predicate PrecedesAt(leq: Order, a: seq<nat>, b: seq<nat>, k: nat) {
    k < |a| && k < |b| && a[..k] == b[..k] && a[k] != b[k] && leq(a[k], b[k])
  }

  /** Whatever another topological order emits after a common prefix was available
      to the greedy one too. */
  lemma {:induction false} GreedyPrecedes(g: Preds, leq: Order, order: seq<nat>, other: seq<nat>) returns (k: nat)
    requires Greedy(g, leq, order) && |order| == |g| && Topological(g, other) && other != order
    ensures PrecedesAt(leq, order, other, k)
  {
    DistinctSize(other);
    UpToSize(|g|);
    k := FirstDifference(order, other);
    var done := Nodes(order[..k]);
    assert LeastAvailable(g, leq, done, order[k]);
    assert Available(g, done, other[k]) by {
      assert other[k] < |g|;
      assert other[k] !in other[..k];
    }
  }

  // ----- The sort -----

  /** `edges[p]` lists the consumers of `p`, each once. */
  ghost predicate ConsumersOf(g: Preds, p: nat, edges: seq<nat>) {
    Distinct(edges) && forall c :: c in edges <==> 0 <= c < |g| && p in g[c]
  }

  /** What serving consumer `c` of the emitted node leaves. */
  ghost predicate Served(depth: seq<uint8>, indegree: seq<nat>, depth': seq<uint8>, indegree': seq<nat>,
                         served: bool, index: nat, c: nat)
    requires |depth| == |indegree| == |depth'| == |indegree'| && index < |depth| && c < |depth|
  {
    if served then depth'[c] == Max(depth[c], depth[index] as int + 1) && indegree'[c] + 1 == indegree[c]
    else depth'[c] == depth[c] && indegree'[c] == indegree[c]
  }

  lemma {:induction false} DepthStep(g: Preds, done: set<nat>, index: nat, depth: seq<uint8>, depth': seq<uint8>,
                                     c: nat)
    requires Graph(g) && |depth| == |depth'| == |g| && c < |g| && index < |g|
    requires DepthAt(g, done, depth, c)
    requires forall p :: p in done ==> p < |g| && depth'[p] == depth[p]
    requires depth'[index] == depth[index]
    requires depth'[c] == if index in g[c] then Max(depth[c], depth[index] as int + 1) else depth[c]
    ensures DepthAt(g, done + {index}, depth', c)
  {
    if depth'[c] == depth[c] {
      if depth[c] != 1 {
        var p :| p in g[c] && p in done && depth[p] + 1 == depth[c];
        assert p in g[c] && p in done + {index} && depth'[p] + 1 == depth'[c];
      }
    } else {
      assert index in g[c] && index in done + {index} && depth'[index] + 1 == depth'[c];
    }
  }

  lemma {:induction false} OpenPreds(preds: set<nat>, done: set<nat>, index: nat)
    requires index !in done
    ensures index in preds ==> |preds - (done + {index})| + 1 == |preds - done|
    ensures index in preds ==> (preds <= done + {index} <==> |preds - done| == 1)
    ensures index !in preds ==> |preds - (done + {index})| == |preds - done|
    ensures index !in preds ==> (preds <= done + {index} <==> preds <= done)
  {
    var rest := preds - (done + {index});
    assert preds <= done + {index} <==> rest == {};
    if index in preds {
      assert preds - done == rest + {index};
    } else {
      assert preds - done == rest;
    }
  }

  lemma {:induction false} ReadyStep(g: Preds, done: set<nat>, index: nat, indegree: seq<nat>, c: nat)
    requires |indegree| == |g| && c < |g| && indegree[c] == |g[c] - done|
    requires Available(g, done, index) && Closed(g, done)
    ensures Available(g, done + {index}, c) <==>
            (c != index && Available(g, done, c)) || (index in g[c] && indegree[c] == 1)
  {
    OpenPreds(g[c], done, index);
  }

  lemma {:induction false} SortedAtEnd(g: Preds, leq: Order, order: seq<nat>, depth: seq<uint8>,
                                       nodes: seq<(nat, uint8)>)
    requires Graph(g) && |depth| == |g| == |order| && Greedy(g, leq, order)
    requires Depths(g, Nodes(order), depth) && Emitted(order, depth, nodes)
    ensures ChainsBounded(g) && Sorted(g, leq, nodes)
  {
    GreedyClosed(g, leq, order);
    GreedyIsTopological(g, leq, order);
    forall k | 0 <= k < |order| ensures LongestChainTo(g, order[k], depth[order[k]]) {
      DepthsAreLongest(g, depth, order[k]);
    }
    forall c | Chain(g, c) ensures |c| <= MAX_DEPTH {
      DepthBounds(g, UpTo(|g|), depth, c);
      assert Last(c) in Nodes(order);
    }
  }

  /** Serves the consumers of a node that has just been emitted. */
  method ServeConsumers(index: nat, edges: seq<nat>, depth: seq<uint8>, indegree: seq<nat>, ready: set<nat>)
    returns (depth': seq<uint8>, indegree': seq<nat>, ready': set<nat>)
    requires |depth| == |indegree| && index < |depth| && depth[index] <= MAX_DEPTH
    requires Distinct(edges) && index !in edges
    requires forall c :: c in edges ==> c < |depth| && 0 < indegree[c]
    ensures |depth'| == |indegree'| == |depth|
    ensures forall c :: 0 <= c < |depth| ==> Served(depth, indegree, depth', indegree', c in edges, index, c)
    ensures forall c :: c in ready' <==> c in ready || (c in edges && indegree[c] == 1)
  {
    depth', indegree', ready' := depth, indegree, ready;
    for k := 0 to |edges|
      invariant |depth'| == |indegree'| == |depth|
      invariant forall c :: 0 <= c < |depth| ==>
                              Served(depth, indegree, depth', indegree', c in edges[..k], index, c)
      invariant forall c :: c in ready' <==> c in ready || (c in edges && c in edges[..k] && indegree[c] == 1)
    {
      var consumer := edges[k];
      assert consumer in edges && consumer !in edges[..k] && index !in edges[..k];
      assert edges[..k + 1] == edges[..k] + [consumer];
      assert Served(depth, indegree, depth', indegree', false, index, consumer);
      assert Served(depth, indegree, depth', indegree', false, index, index);
      depth' := depth'[consumer := Max(depth'[consumer], depth'[index] as int + 1)];
      indegree' := indegree'[consumer := indegree'[consumer] - 1];
      if indegree'[consumer] == 0 {
        ready' := ready' + {consumer};
      }
    }
    assert edges[..|edges|] == edges;
  }

  lemma {:induction false} ServedAll(g: Preds, index: nat, edges: seq<nat>, depth: seq<uint8>, indegree: seq<nat>,
                  depth': seq<uint8>, indegree': seq<nat>)
    requires |depth| == |indegree| == |depth'| == |indegree'| == |g| && index < |g| && ConsumersOf(g, index, edges)
    requires forall c :: 0 <= c < |g| ==> Served(depth, indegree, depth', indegree', c in edges, index, c)
    ensures forall c :: 0 <= c < |g| ==>
                          depth'[c] == if index in g[c] then Max(depth[c], depth[index] as int + 1) else depth[c]
    ensures forall c :: 0 <= c < |g| ==> indegree[c] == indegree'[c] + if index in g[c] then 1 else 0
  {
    forall c: nat | c < |g|
      ensures depth'[c] == if index in g[c] then Max(depth[c], depth[index] as int + 1) else depth[c]
      ensures indegree[c] == indegree'[c] + if index in g[c] then 1 else 0
    {
      assert Served(depth, indegree, depth', indegree', c in edges, index, c);
    }
  }

  /** Serving all consumers moves the emitted node into `done`. */
  lemma {:induction false} DepthsMove(g: Preds, done: set<nat>, index: nat, depth: seq<uint8>, depth': seq<uint8>)
    requires Graph(g) && |depth| == |depth'| == |g|
    requires Available(g, done, index) && Closed(g, done) && Depths(g, done, depth)
    requires forall c :: 0 <= c < |g| ==>
                           depth'[c] == if index in g[c] then Max(depth[c], depth[index] as int + 1) else depth[c]
    ensures Depths(g, done + {index}, depth')
    ensures forall c :: c in done + {index} ==> depth'[c] == depth[c]
  {
    assert forall c :: c in done + {index} ==> index !in g[c];
    forall c: nat | c < |g| ensures DepthAt(g, done + {index}, depth', c) {
      assert DepthAt(g, done, depth, c);
      DepthStep(g, done, index, depth, depth', c);
    }
  }

  lemma {:induction false} CountedMoves(g: Preds, done: set<nat>, index: nat, indegree: seq<nat>, indegree': seq<nat>)
    requires |indegree| == |indegree'| == |g| && index !in done && Counted(g, done, indegree)
    requires forall c :: 0 <= c < |g| ==>
                           indegree[c] == indegree'[c] + if index in g[c] then 1 else 0
    ensures Counted(g, done + {index}, indegree')
  {
    forall c: nat | c < |g| ensures indegree'[c] == |g[c] - (done + {index})| {
      OpenPreds(g[c], done, index);
    }
  }

  /** The emitted nodes with their depths, in order. */
  ghost predicate Emitted(order: seq<nat>, depth: seq<uint8>, nodes: seq<(nat, uint8)>) {
    && |nodes| == |order|
    && forall k :: 0 <= k < |order| ==>
                     order[k] < |depth| && nodes[k] == (order[k], depth[order[k]]) && depth[order[k]] <= MAX_DEPTH
  }

  ghost predicate Sorted(g: Preds, leq: Order, nodes: seq<(nat, uint8)>) {
    exists order :: Greedy(g, leq, order) && Topological(g, order) && |order| == |nodes| &&
                    forall k :: 0 <= k < |order| ==>
                                  && nodes[k].0 == order[k] && nodes[k].1 <= MAX_DEPTH
                                  && LongestChainTo(g, order[k], nodes[k].1)
  }

  /** The loop invariant of the sort. */
  ghost predicate Sorting(g: Preds, leq: Order, order: seq<nat>, depth: seq<uint8>, indegree: seq<nat>,
                          ready: set<nat>, nodes: seq<(nat, uint8)>)
  {
    && Graph(g) && |depth| == |indegree| == |g|
    && Greedy(g, leq, order) && Emitted(order, depth, nodes)
    && Depths(g, Nodes(order), depth) && Counted(g, Nodes(order), indegree)
    && forall c :: c in ready <==> Available(g, Nodes(order), c)
  }

  lemma {:induction false} EmittedExtends(order: seq<nat>, depth: seq<uint8>, depth': seq<uint8>,
                                          nodes: seq<(nat, uint8)>, index: nat)
    requires Emitted(order, depth, nodes) && index < |depth| == |depth'| && depth[index] <= MAX_DEPTH
    requires forall c :: 0 <= c < |depth| && c in Nodes(order) + {index} ==> depth'[c] == depth[c]
    ensures Emitted(order + [index], depth', nodes + [(index, depth[index])])
  {}

  lemma {:induction false} ConsumersWait(g: Preds, done: set<nat>, index: nat, edges: seq<nat>, indegree: seq<nat>)
    requires |indegree| == |g| && index < |g| && index !in done && Counted(g, done, indegree)
    requires ConsumersOf(g, index, edges)
    ensures forall c :: c in edges ==> 0 < indegree[c]
  {
    forall c | c in edges ensures 0 < indegree[c] {
      OpenPreds(g[c], done, index);
    }
  }

  /** Depths and in-degrees after the consumers of a node have been served. */
  lemma {:induction false} EmitMoves(g: Preds, done: set<nat>, index: nat, edges: seq<nat>, depth: seq<uint8>,
                                     indegree: seq<nat>, depth': seq<uint8>, indegree': seq<nat>)
    requires Graph(g) && |depth| == |indegree| == |depth'| == |indegree'| == |g| && ConsumersOf(g, index, edges)
    requires Available(g, done, index) && Closed(g, done) && Depths(g, done, depth) && Counted(g, done, indegree)
    requires forall c :: 0 <= c < |g| ==> Served(depth, indegree, depth', indegree', c in edges, index, c)
    ensures Depths(g, done + {index}, depth') && Counted(g, done + {index}, indegree')
    ensures forall c :: 0 <= c < |g| && c in done + {index} ==> depth'[c] == depth[c]
  {
    ServedAll(g, index, edges, depth, indegree, depth', indegree');
    DepthsMove(g, done, index, depth, depth');
    CountedMoves(g, done, index, indegree, indegree');
  }

  /** The nodes that are ready after it. */
  lemma {:induction false} ReadyMoves(g: Preds, done: set<nat>, index: nat, edges: seq<nat>, indegree: seq<nat>,
                                      ready: set<nat>, ready': set<nat>)
    requires |indegree| == |g| && Counted(g, done, indegree) && ConsumersOf(g, index, edges)
    requires Available(g, done, index) && Closed(g, done) && forall c :: c in ready <==> Available(g, done, c)
    requires forall c :: c in ready' <==> c in ready - {index} || (c in edges && indegree[c] == 1)
    ensures forall c :: c in ready' <==> Available(g, done + {index}, c)
  {
    forall c: nat ensures c in ready' <==> Available(g, done + {index}, c) {
      if c < |g| {
        ReadyStep(g, done, index, indegree, c);
      }
    }
  }

  lemma {:induction false} SortingStep(g: Preds, leq: Order, order: seq<nat>, index: nat, depth: seq<uint8>,
                                       depth': seq<uint8>, indegree': seq<nat>, ready': set<nat>,
                                       nodes: seq<(nat, uint8)>)
    requires Graph(g) && |depth| == |depth'| == |indegree'| == |g| && index < |g| && depth[index] <= MAX_DEPTH
    requires Greedy(g, leq, order) && LeastAvailable(g, leq, Nodes(order), index) && Emitted(order, depth, nodes)
    requires Depths(g, Nodes(order) + {index}, depth') && Counted(g, Nodes(order) + {index}, indegree')
    requires forall c :: 0 <= c < |g| && c in Nodes(order) + {index} ==> depth'[c] == depth[c]
    requires forall c :: c in ready' <==> Available(g, Nodes(order) + {index}, c)
    ensures Sorting(g, leq, order + [index], depth', indegree', ready', nodes + [(index, depth[index])])
  {
    GreedyExtends(g, leq, order, index);
    EmittedExtends(order, depth, depth', nodes, index);
  }

  /** What is known of a least ready node. */
  lemma {:induction false} EmitReady(g: Preds, leq: Order, order: seq<nat>, index: nat, edges: seq<nat>,
                                     depth: seq<uint8>, indegree: seq<nat>, ready: set<nat>, nodes: seq<(nat, uint8)>)
    requires Sorting(g, leq, order, depth, indegree, ready, nodes)
    requires LeastOf(leq, ready, index) && ConsumersOf(g, index, edges)
    ensures index < |g| && index !in edges && Closed(g, Nodes(order))
    ensures LeastAvailable(g, leq, Nodes(order), index) && forall c :: c in edges ==> 0 < indegree[c]
  {
    GreedyClosed(g, leq, order);
    ConsumersWait(g, Nodes(order), index, edges, indegree);
  }

  /** Emits one ready node. */
  method Emit(ghost g: Preds, leq: Order, ghost order: seq<nat>, index: nat, edges: seq<nat>,
              depth: seq<uint8>, indegree: seq<nat>, ready: set<nat>, ghost nodes: seq<(nat, uint8)>)
    returns (depth': seq<uint8>, indegree': seq<nat>, ready': set<nat>)
    requires Sorting(g, leq, order, depth, indegree, ready, nodes)
    requires LeastOf(leq, ready, index) && depth[index] <= MAX_DEPTH && ConsumersOf(g, index, edges)
    ensures Sorting(g, leq, order + [index], depth', indegree', ready', nodes + [(index, depth[index])])
  {
    EmitReady(g, leq, order, index, edges, depth, indegree, ready, nodes);
    depth', indegree', ready' := ServeConsumers(index, edges, depth, indegree, ready - {index});
    EmitMoves(g, Nodes(order), index, edges, depth, indegree, depth', indegree');
    ReadyMoves(g, Nodes(order), index, edges, indegree, ready, ready');
    SortingStep(g, leq, order, index, depth, depth', indegree', ready', nodes);
  }

  lemma {:induction false} SortingStarts(g: Preds, leq: Order, depth: seq<uint8>, indegree: seq<nat>, ready: set<nat>)
    requires Graph(g) && |depth| == |indegree| == |g| && Counted(g, {}, indegree)
    requires forall c :: 0 <= c < |g| ==> depth[c] == 1
    requires forall c :: c in ready <==> 0 <= c < |g| && indegree[c] == 0
    ensures Sorting(g, leq, [], depth, indegree, ready, [])
  {
    forall c: nat | c < |g| ensures DepthAt(g, {}, depth, c) {}
    forall c: nat ensures c in ready <==> Available(g, {}, c) {
      if c < |g| {
        assert g[c] - {} == g[c];
      }
    }
  }

  lemma {:induction false} ReadyInRange(g: Preds, leq: Order, order: seq<nat>, depth: seq<uint8>, indegree: seq<nat>,
                     ready: set<nat>, nodes: seq<(nat, uint8)>, index: nat)
    requires Sorting(g, leq, order, depth, indegree, ready, nodes) && index in ready
    ensures index < |g| && |order| < |g|
  {
    GreedyClosed(g, leq, order);
    assert Available(g, Nodes(order), index);
    assert index in UpTo(|g|);
  }

  lemma {:induction false} LeftOver(g: Preds, leq: Order, order: seq<nat>) returns (left: nat)
    requires Greedy(g, leq, order) && |order| != |g|
    ensures left < |g| && left !in Nodes(order)
  {
    GreedyClosed(g, leq, order);
    assert UpTo(|g|) == Nodes(order) + (UpTo(|g|) - Nodes(order));
    left :| left in UpTo(|g|) - Nodes(order);
  }

  method InitialReady(indegree: seq<nat>) returns (ready: set<nat>)
    ensures forall c :: c in ready <==> 0 <= c < |indegree| && indegree[c] == 0
  {
    ready := {};
    for index := 0 to |indegree|
      invariant forall c :: c in ready <==> 0 <= c < index && indegree[c] == 0
    {
      if indegree[index] == 0 {
        ready := ready + {index};
      }
    }
  }

  /** The sort: emits the least ready node until none is ready.  `None` when a depth
      exceeds the bound or when a cycle leaves nodes behind. */
  method Sort(ghost g: Preds, leq: Order, edges: seq<seq<nat>>, degrees: seq<nat>)
    returns (result: Option<seq<(nat, uint8)>>)
    requires Graph(g) && TotalOrder(leq) && |g| == |edges| == |degrees|
    requires Counted(g, {}, degrees) && forall p :: 0 <= p < |g| ==> ConsumersOf(g, p, edges[p])
    ensures result.Some? <==> ChainsBounded(g)
    ensures result.Some? ==> Sorted(g, leq, result.value)
  {
    var n := |edges|;
    var indegree := degrees;
    var ready := InitialReady(indegree);
    var depth: seq<uint8> := seq(n, _ => 1);
    var nodes: seq<(nat, uint8)> := [];
    ghost var order: seq<nat> := [];
    SortingStarts(g, leq, depth, indegree, ready);
    while ready != {}
      invariant Sorting(g, leq, order, depth, indegree, ready, nodes)
      decreases n - |order|
    {
      var index := Least(leq, ready);
      ReadyInRange(g, leq, order, depth, indegree, ready, nodes, index);
      if MAX_DEPTH < depth[index] {
        ghost var chain := DepthWitness(g, Nodes(order), depth, index);
        return None;
      }
      var d := depth[index];
      GreedyClosed(g, leq, order);
      depth, indegree, ready := Emit(g, leq, order, index, edges[index], depth, indegree, ready, nodes);
      nodes := nodes + [(index, d)];
      order := order + [index];
    }
    GreedyClosed(g, leq, order);
    if |nodes| != n {
      ghost var left := LeftOver(g, leq, order);
      ghost var chain := StuckChain(g, Nodes(order), left, MAX_DEPTH + 1);
      return None;
    }
    SortedAtEnd(g, leq, order, depth, nodes);
    result := Some(nodes);
  }
}
