/** The processor dependency graph: `ProcessorGraph::rebuild` checks the processors
    against the metric catalog, sorts them with Kahn's algorithm, breaking ties by
    processor id, and bounds the derivation depth by four. */
module ProcessorGraph {
  import opened Base
  import opened Collections
  import KahnSort

  const MAX_DEPTH := KahnSort.MAX_DEPTH

  datatype Metric = Metric(id: uint32, version: uint32)

  datatype Descriptor = Descriptor(version: uint32, derived: bool, dependencies: seq<uint32>)

  datatype Processor = Processor(id: string, version: uint32, inputs: seq<Metric>, outputs: seq<Metric>)

  datatype Node = Node(processor: Processor, depth: uint8)

  datatype Snapshot = Snapshot(generation: uint64, nodes: seq<Node>)

  // ----- The graph, as a relation on processors -----

  function AllOf(ps: seq<Processor>): set<Processor> { set p | p in ps }

  function InputIds(p: Processor): set<uint32> { set m | m in p.inputs :: m.id }

  function OutputIds(p: Processor): set<uint32> { set m | m in p.outputs :: m.id }

  /** `a` produces a metric that `b` consumes. */
  predicate Edge(a: Processor, b: Processor) {
    OutputIds(a) * InputIds(b) != {}
  }

  ghost predicate Chain(all: set<Processor>, c: seq<Processor>) {
    && c != []
    && (forall i :: 0 <= i < |c| ==> c[i] in all)
    && (forall i :: 0 < i < |c| ==> Edge(c[i - 1], c[i]))
  }

  function Last(c: seq<Processor>): Processor
    requires c != []
  {
    c[|c| - 1]
  }

  ghost predicate ChainsBounded(all: set<Processor>) {
    forall c :: Chain(all, c) ==> |c| <= MAX_DEPTH
  }

  /** No chain comes back to where it started. */
  ghost predicate Acyclic(all: set<Processor>) {
    forall c :: Chain(all, c) && 1 < |c| ==> c[0] != Last(c)
  }

  /** `d` is the length of the longest chain that ends in `p`. */
  ghost predicate LongestChainTo(all: set<Processor>, p: Processor, d: nat) {
    && (exists c :: Chain(all, c) && Last(c) == p && |c| == d)
    && (forall c :: Chain(all, c) && Last(c) == p ==> |c| <= d)
  }

  /** Every processor once, and producers before consumers. */
  ghost predicate Topological(all: set<Processor>, order: seq<Processor>) {
    && Distinct(order)
    && AllOf(order) == all
    && forall i, j :: 0 <= i < |order| && 0 <= j < |order| && Edge(order[i], order[j]) ==> i < j
  }

  /** At the first place where the two orders differ, `a` has the smaller id. */
  ghost predicate PrecedesAt(a: seq<Processor>, b: seq<Processor>, k: nat) {
    k < |a| && k < |b| && a[..k] == b[..k] && StrLess(a[k].id, b[k].id)
  }

  ghost predicate LexLeast(all: set<Processor>, order: seq<Processor>) {
    && Topological(all, order)
    && forall other :: Topological(all, other) && other != order ==>
                         exists k: nat :: PrecedesAt(order, other, k)
  }

  function OrderOf(nodes: seq<Node>): (ps: seq<Processor>)
    ensures |ps| == |nodes| && forall i :: 0 <= i < |ps| ==> ps[i] == nodes[i].processor
  {
    seq(|nodes|, i requires 0 <= i < |nodes| => nodes[i].processor)
  }

  /** What published nodes promise about the processors they were built from. */
  ghost predicate Published(all: set<Processor>, nodes: seq<Node>) {
    && LexLeast(all, OrderOf(nodes))
    && forall i :: 0 <= i < |nodes| ==>
                     LongestChainTo(all, nodes[i].processor, nodes[i].depth) && nodes[i].depth <= MAX_DEPTH
  }

  /** The promise determines the nodes, so the order of the input does not matter. */
  lemma {:induction false} PublishedIsUnique(all: set<Processor>, a: seq<Node>, b: seq<Node>)
    requires Published(all, a) && Published(all, b)
    ensures a == b
  {
    var x, y := OrderOf(a), OrderOf(b);
    if x != y {
      var k: nat :| PrecedesAt(x, y, k);
      var l: nat :| PrecedesAt(y, x, l);
      NotBothPrecede(x, y, k, l);
    }
    forall i | 0 <= i < |a| ensures a[i] == b[i] {
      assert a[i].processor == x[i] == y[i] == b[i].processor;
      DepthIsUnique(all, x[i], a[i].depth, b[i].depth);
    }
    assert |a| == |x| == |y| == |b|;
  }

  /** Listing the same processors in another order publishes the same nodes. */
  lemma {:induction false} InputOrderIsIrrelevant(ps: seq<Processor>, qs: seq<Processor>, a: seq<Node>, b: seq<Node>)
    requires multiset(ps) == multiset(qs) && Published(AllOf(ps), a) && Published(AllOf(qs), b)
    ensures a == b
  {
    SameMembers(ps, qs);
    assert AllOf(ps) == AllOf(qs);
    PublishedIsUnique(AllOf(ps), a, b);
  }

  /** Whether processors are admissible does not depend on their order either. */
  lemma {:induction false} AdmissibleInAnyOrder(catalog: map<uint32, Descriptor>, ps: seq<Processor>,
                                                qs: seq<Processor>)
    requires multiset(ps) == multiset(qs) && Admissible(catalog, ps)
    ensures Admissible(catalog, qs)
  {
    SameMembers(ps, qs);
    forall i | 0 <= i < |qs| ensures WellFormed(catalog, qs[i]) {
      assert WellFormed(catalog, ps[IndexOf(ps, qs[i])]);
    }
    DistinctInAnyOrder(ps, qs);
    forall i, j | 0 <= i < j < |qs|
      ensures qs[i].id != qs[j].id && OutputIds(qs[i]) !! OutputIds(qs[j])
    {
      ApartInAnyOrder(ps, qs[i], qs[j]);
    }
    forall m | m in catalog && catalog[m].derived ensures Produced(qs, m) {
      assert Produced(ps, m);
      var k :| 0 <= k < |ps| && m in OutputIds(ps[k]);
      assert m in OutputIds(qs[IndexOf(qs, ps[k])]);
    }
  }

  lemma {:induction false} ApartInAnyOrder(ps: seq<Processor>, p: Processor, q: Processor)
    requires DistinctIds(ps, |ps|) && SingleProducers(ps, |ps|) && p in ps && q in ps && p != q
    ensures p.id != q.id && OutputIds(p) !! OutputIds(q)
  {
    var i, j := IndexOf(ps, p), IndexOf(ps, q);
    if i < j {
      assert ps[i].id != ps[j].id && OutputIds(ps[i]) !! OutputIds(ps[j]);
    } else {
      assert ps[j].id != ps[i].id && OutputIds(ps[j]) !! OutputIds(ps[i]);
    }
  }

  /** When `rebuild` succeeds over a graph published for `current`. */
  ghost predicate Rebuildable(catalogValid: bool, catalog: map<uint32, Descriptor>, current: uint64, generation: uint64,
                              ps: seq<Processor>)
  {
    && catalogValid && generation != 0 && Admissible(catalog, ps)
    && Acyclic(AllOf(ps)) && ChainsBounded(AllOf(ps)) && current <= generation
  }

  /** So listing the same processors in another order is accepted or refused alike. */
  lemma {:induction false} VerdictIgnoresOrder(catalogValid: bool, catalog: map<uint32, Descriptor>, current: uint64,
                                               generation: uint64, ps: seq<Processor>, qs: seq<Processor>)
    requires multiset(ps) == multiset(qs)
    ensures Rebuildable(catalogValid, catalog, current, generation, ps) <==>
            Rebuildable(catalogValid, catalog, current, generation, qs)
  {
    SameMembers(ps, qs);
    assert AllOf(ps) == AllOf(qs);
    if Admissible(catalog, ps) {
      AdmissibleInAnyOrder(catalog, ps, qs);
    }
    if Admissible(catalog, qs) {
      AdmissibleInAnyOrder(catalog, qs, ps);
    }
  }

  lemma {:induction false} NotBothPrecede(x: seq<Processor>, y: seq<Processor>, k: nat, l: nat)
    requires PrecedesAt(x, y, k)
    ensures !PrecedesAt(y, x, l)
  {
    assert l < k ==> x[..k][l] == y[..k][l];
    assert k < l < |x| && l < |y| && y[..l] == x[..l] ==> y[..l][k] == x[..l][k];
    StrAntisymmetric(x[k].id, y[k].id);
  }

  lemma {:induction false} DepthIsUnique(all: set<Processor>, p: Processor, d: nat, e: nat)
    requires LongestChainTo(all, p, d) && LongestChainTo(all, p, e)
    ensures d == e
  {}

  // ----- The checks before the sort -----

  predicate NoRepeat(ms: seq<Metric>) {
    forall i, j :: 0 <= i < j < |ms| ==> ms[i].id != ms[j].id
  }

  predicate InputsKnown(catalog: map<uint32, Descriptor>, p: Processor) {
    && NoRepeat(p.inputs)
    && forall m :: m in p.inputs ==>
                     m.id != 0 && m.version != 0 && m.id in catalog && catalog[m.id].version == m.version
  }

  function IdsOf(ms: seq<Metric>): seq<uint32> {
    seq(|ms|, i requires 0 <= i < |ms| => ms[i].id)
  }

  predicate OutputsDerived(catalog: map<uint32, Descriptor>, p: Processor) {
    && NoRepeat(p.outputs)
    && forall m :: m in p.outputs ==>
                     && m.id != 0 && m.version != 0 && m.id in catalog
                     && catalog[m.id].derived && catalog[m.id].version == m.version
                     && multiset(catalog[m.id].dependencies) == multiset(IdsOf(p.inputs))
  }

  predicate WellFormed(catalog: map<uint32, Descriptor>, p: Processor) {
    && p.id != "" && p.version != 0 && p.inputs != [] && p.outputs != []
    && InputsKnown(catalog, p) && OutputsDerived(catalog, p)
  }

  ghost predicate DistinctIds(ps: seq<Processor>, n: nat)
    requires n <= |ps|
  {
    forall i, j :: 0 <= i < j < n ==> ps[i].id != ps[j].id
  }

  /** No metric has two producers. */
  ghost predicate SingleProducers(ps: seq<Processor>, n: nat)
    requires n <= |ps|
  {
    forall i, j :: 0 <= i < j < n ==> OutputIds(ps[i]) !! OutputIds(ps[j])
  }

  ghost predicate Produced(ps: seq<Processor>, m: uint32) {
    exists i :: 0 <= i < |ps| && m in OutputIds(ps[i])
  }

  ghost predicate Admissible(catalog: map<uint32, Descriptor>, ps: seq<Processor>) {
    && (forall i :: 0 <= i < |ps| ==> WellFormed(catalog, ps[i]))
    && DistinctIds(ps, |ps|) && SingleProducers(ps, |ps|)
    && forall m :: m in catalog && catalog[m].derived ==> Produced(ps, m)
  }

  /** `producers` maps each metric that one of the first `n` processors outputs to it. */
  ghost predicate ProducerIndex(ps: seq<Processor>, n: nat, producers: map<uint32, nat>)
    requires n <= |ps|
  {
    && (forall m :: m in producers ==> producers[m] < n && m in OutputIds(ps[producers[m]]))
    && (forall i, m :: 0 <= i < n && m in OutputIds(ps[i]) ==> m in producers && producers[m] == i)
  }

  lemma {:induction false} ProducerIndexExtends(ps: seq<Processor>, n: nat, producers: map<uint32, nat>)
    requires n < |ps| && ProducerIndex(ps, n, producers) && producers.Keys !! OutputIds(ps[n])
    ensures ProducerIndex(ps, n + 1, producers + map m | m in OutputIds(ps[n]) :: n)
  {
    var next := producers + map m | m in OutputIds(ps[n]) :: n;
    forall i, m | 0 <= i < n + 1 && m in OutputIds(ps[i]) ensures m in next && next[m] == i {
      assert i < n ==> m in producers && m !in OutputIds(ps[n]);
    }
  }

  lemma {:induction false} SingleExtends(ps: seq<Processor>, n: nat, producers: map<uint32, nat>)
    requires n < |ps| && ProducerIndex(ps, n, producers) && SingleProducers(ps, n)
    requires producers.Keys !! OutputIds(ps[n])
    ensures SingleProducers(ps, n + 1)
  {
    forall i, j | 0 <= i < j < n + 1 ensures OutputIds(ps[i]) !! OutputIds(ps[j]) {
      if j == n {
        assert OutputIds(ps[i]) <= producers.Keys;
      }
    }
  }

  lemma {:induction false} SecondProducer(ps: seq<Processor>, n: nat, producers: map<uint32, nat>)
    requires n < |ps| && ProducerIndex(ps, n, producers) && !(producers.Keys !! OutputIds(ps[n]))
    ensures !SingleProducers(ps, |ps|)
  {
    var m :| m in producers.Keys && m in OutputIds(ps[n]);
    assert m in OutputIds(ps[producers[m]]) * OutputIds(ps[n]);
  }

  ghost predicate IdsSeen(ps: seq<Processor>, n: nat, ids: set<string>)
    requires n <= |ps|
  {
    && (forall i :: 0 <= i < n ==> ps[i].id in ids)
    && (forall s :: s in ids ==> exists i :: 0 <= i < n && ps[i].id == s)
  }

  lemma {:induction false} IdsExtend(ps: seq<Processor>, n: nat, ids: set<string>)
    requires n < |ps| && IdsSeen(ps, n, ids)
    ensures IdsSeen(ps, n + 1, ids + {ps[n].id})
    ensures ps[n].id !in ids && DistinctIds(ps, n) ==> DistinctIds(ps, n + 1)
    ensures ps[n].id in ids ==> !DistinctIds(ps, |ps|)
  {}

  /** What holds once the first `n` processors have passed the checks. */
  ghost predicate Checked(catalog: map<uint32, Descriptor>, ps: seq<Processor>, n: nat, ids: set<string>,
                          producers: map<uint32, nat>)
    requires n <= |ps|
  {
    && IdsSeen(ps, n, ids) && (forall i :: 0 <= i < n ==> WellFormed(catalog, ps[i]))
    && DistinctIds(ps, n) && SingleProducers(ps, n) && ProducerIndex(ps, n, producers)
  }

  lemma {:induction false} ProducedIff(ps: seq<Processor>, producers: map<uint32, nat>, m: uint32)
    requires ProducerIndex(ps, |ps|, producers)
    ensures Produced(ps, m) <==> m in producers
  {
    if m in producers {
      assert m in OutputIds(ps[producers[m]]);
    }
  }

  /** One more processor that passes every check. */
  lemma {:induction false} CheckedExtends(catalog: map<uint32, Descriptor>, ps: seq<Processor>, n: nat,
                                          ids: set<string>, producers: map<uint32, nat>)
    requires n < |ps| && Checked(catalog, ps, n, ids, producers) && WellFormed(catalog, ps[n])
    requires ps[n].id !in ids && producers.Keys !! OutputIds(ps[n])
    ensures Checked(catalog, ps, n + 1, ids + {ps[n].id}, producers + map m | m in OutputIds(ps[n]) :: n)
  {
    IdsExtend(ps, n, ids);
    ProducerIndexExtends(ps, n, producers);
    SingleExtends(ps, n, producers);
  }

  /** One that fails a check. */
  lemma {:induction false} RefusedIsInadmissible(catalog: map<uint32, Descriptor>, ps: seq<Processor>, n: nat,
                                                 ids: set<string>, producers: map<uint32, nat>)
    requires n < |ps| && IdsSeen(ps, n, ids) && ProducerIndex(ps, n, producers)
    requires !WellFormed(catalog, ps[n]) || ps[n].id in ids || !(producers.Keys !! OutputIds(ps[n]))
    ensures !Admissible(catalog, ps)
  {
    if ps[n].id in ids {
      IdsExtend(ps, n, ids);
    } else if WellFormed(catalog, ps[n]) {
      SecondProducer(ps, n, producers);
    }
  }

  /** The checks on one processor, in the order of the source. */
  method CheckNext(catalog: map<uint32, Descriptor>, ps: seq<Processor>, n: nat, ids: set<string>,
                   producers: map<uint32, nat>)
    returns (status: Code, producers': map<uint32, nat>)
    requires n < |ps| && Checked(catalog, ps, n, ids, producers)
    ensures status.Success? ==> Checked(catalog, ps, n + 1, ids + {ps[n].id}, producers')
    ensures !status.Success? ==> !Admissible(catalog, ps)
  {
    var p := ps[n];
    producers' := producers + map m | m in OutputIds(p) :: n;
    if p.id == "" || p.version == 0 || p.id in ids || p.inputs == [] || p.outputs == [] {
      status := InvalidArgument;
    } else if !InputsKnown(catalog, p) || !OutputsDerived(catalog, p) {
      status := Unsupported;
    } else if !(producers.Keys !! OutputIds(p)) {
      status := InvalidArgument;
    } else {
      status := Success;
    }
    if status.Success? {
      CheckedExtends(catalog, ps, n, ids, producers);
    } else {
      RefusedIsInadmissible(catalog, ps, n, ids, producers);
    }
  }

  /** Identity, descriptor and producer checks over all processors. */
  method CheckProcessors(catalog: map<uint32, Descriptor>, ps: seq<Processor>)
    returns (status: Code, producers: map<uint32, nat>)
    ensures status.Success? <==> Admissible(catalog, ps)
    ensures status.Success? ==> ProducerIndex(ps, |ps|, producers)
  {
    producers := map[];
    var ids: set<string> := {};
    for index := 0 to |ps|
      invariant Checked(catalog, ps, index, ids, producers)
    {
      status, producers := CheckNext(catalog, ps, index, ids, producers);
      if !status.Success? {
        return;
      }
      ids := ids + {ps[index].id};
    }
    forall m ensures Produced(ps, m) <==> m in producers {
      ProducedIff(ps, producers, m);
    }
    if m :| m in catalog && catalog[m].derived && m !in producers {
      return Unsupported, map[];
    }
    status := Success;
  }

  // ----- Edges and in-degrees -----

  function Preds(ps: seq<Processor>, c: nat): set<nat>
    requires c < |ps|
  {
    set p: nat | p in UpTo(|ps|) && Edge(ps[p], ps[c])
  }

  function GraphOf(ps: seq<Processor>): (g: KahnSort.Preds)
    ensures |g| == |ps| && KahnSort.Graph(g)
  {
    seq(|ps|, c requires 0 <= c < |ps| => Preds(ps, c))
  }

  function ProducersOf(producers: map<uint32, nat>, ms: seq<Metric>): set<nat> {
    set m | m in ms && m.id in producers :: producers[m.id]
  }

  lemma {:induction false} ProducersArePreds(ps: seq<Processor>, producers: map<uint32, nat>, c: nat)
    requires ProducerIndex(ps, |ps|, producers) && c < |ps|
    ensures ProducersOf(producers, ps[c].inputs) == Preds(ps, c)
  {
    forall p: nat | p in Preds(ps, c) ensures p in ProducersOf(producers, ps[c].inputs) {
      var id :| id in OutputIds(ps[p]) * InputIds(ps[c]);
      var m :| m in ps[c].inputs && m.id == id;
    }
    forall p: nat | p in ProducersOf(producers, ps[c].inputs) ensures p in Preds(ps, c) {
      var m :| m in ps[c].inputs && m.id in producers && producers[m.id] == p;
      assert m.id in OutputIds(ps[p]) * InputIds(ps[c]);
    }
  }

  /** `edges[p]` lists, in ascending order, the consumers of `p` below `n`. */
  ghost predicate EdgesUpTo(g: KahnSort.Preds, n: nat, edges: seq<seq<nat>>)
    requires |edges| == |g| && n <= |g|
  {
    forall p :: 0 <= p < |g| ==>
                  && Distinct(edges[p])
                  && forall c :: c in edges[p] <==> 0 <= c < n && p in g[c]
  }

  /** `edges'` is `edges` with the consumer added to the lists of some nodes. */
  ghost predicate Linked(edges: seq<seq<nat>>, edges': seq<seq<nat>>, consumer: nat, from: set<nat>) {
    |edges'| == |edges| && forall p :: 0 <= p < |edges| ==> LinkedAt(edges, edges', consumer, from, p)
  }

  ghost predicate LinkedAt(edges: seq<seq<nat>>, edges': seq<seq<nat>>, consumer: nat, from: set<nat>, p: nat)
    requires |edges'| == |edges| && p < |edges|
  {
    edges'[p] == edges[p] + if p in from then [consumer] else []
  }

  lemma {:induction false} LinkOne(edges: seq<seq<nat>>, edges': seq<seq<nat>>, consumer: nat, from: set<nat>, p: nat)
    requires Linked(edges, edges', consumer, from) && p < |edges| && p !in from
    ensures Linked(edges, edges'[p := edges'[p] + [consumer]], consumer, from + {p})
  {
    var next := edges'[p := edges'[p] + [consumer]];
    forall q | 0 <= q < |edges| ensures LinkedAt(edges, next, consumer, from + {p}, q) {
      assert LinkedAt(edges, edges', consumer, from, q);
    }
  }

  lemma {:induction false} LinkedIsEdges(g: KahnSort.Preds, consumer: nat, edges: seq<seq<nat>>, edges': seq<seq<nat>>)
    requires |edges| == |g| && consumer < |g| && EdgesUpTo(g, consumer, edges)
    requires Linked(edges, edges', consumer, g[consumer])
    ensures EdgesUpTo(g, consumer + 1, edges')
  {
    forall p | 0 <= p < |g|
      ensures Distinct(edges'[p]) && forall c :: c in edges'[p] <==> 0 <= c < consumer + 1 && p in g[c]
    {
      assert LinkedAt(edges, edges', consumer, g[consumer], p);
      assert consumer !in edges[p];
    }
  }

  /** Records one consumer: links it from each of its producers, once. */
  method LinkConsumer(ghost g: KahnSort.Preds, producers: map<uint32, nat>, consumer: nat, inputs: seq<Metric>,
                      edges: seq<seq<nat>>)
    returns (edges': seq<seq<nat>>, degree: nat)
    requires KahnSort.Graph(g) && |edges| == |g| && consumer < |g| && EdgesUpTo(g, consumer, edges)
    requires g[consumer] == ProducersOf(producers, inputs)
    ensures |edges'| == |g| && EdgesUpTo(g, consumer + 1, edges')
    ensures degree == |g[consumer]|
  {
    edges', degree := edges, 0;
    var predecessors: set<nat> := {};
    for k := 0 to |inputs|
      invariant |edges'| == |g| && degree == |predecessors|
      invariant predecessors == ProducersOf(producers, inputs[..k]) <= g[consumer]
      invariant Linked(edges, edges', consumer, predecessors)
    {
      assert inputs[..k + 1] == inputs[..k] + [inputs[k]];
      var id := inputs[k].id;
      if id in producers && producers[id] !in predecessors {
        var p := producers[id];
        assert p in g[consumer];
        LinkOne(edges, edges', consumer, predecessors, p);
        predecessors := predecessors + {p};
        edges' := edges'[p := edges'[p] + [consumer]];
        degree := degree + 1;
      }
    }
    assert inputs[..|inputs|] == inputs;
    LinkedIsEdges(g, consumer, edges, edges');
  }

  method BuildEdges(ps: seq<Processor>, producers: map<uint32, nat>)
    returns (edges: seq<seq<nat>>, indegree: seq<nat>)
    requires ProducerIndex(ps, |ps|, producers)
    ensures |edges| == |indegree| == |ps|
    ensures forall p :: 0 <= p < |ps| ==> KahnSort.ConsumersOf(GraphOf(ps), p, edges[p])
    ensures forall c :: 0 <= c < |ps| ==> indegree[c] == |GraphOf(ps)[c]|
  {
    ghost var g := GraphOf(ps);
    edges := seq(|ps|, _ => []);
    indegree := [];
    for consumer := 0 to |ps|
      invariant |edges| == |ps| && |indegree| == consumer
      invariant EdgesUpTo(g, consumer, edges)
      invariant forall c :: 0 <= c < consumer ==> indegree[c] == |g[c]|
    {
      ProducersArePreds(ps, producers, consumer);
      var degree;
      edges, degree := LinkConsumer(g, producers, consumer, ps[consumer].inputs, edges);
      indegree := indegree + [degree];
    }
  }

  // ----- From node indices back to processors -----

  function IdAt(ps: seq<Processor>, i: nat): string {
    if i < |ps| then ps[i].id else ""
  }

  /** The order of the ready set: by processor id. */
  function IdOrder(ps: seq<Processor>): KahnSort.Order {
    (a: nat, b: nat) => StrLeq(IdAt(ps, a), IdAt(ps, b))
  }

  lemma {:induction false} IdOrderIsTotal(ps: seq<Processor>)
    ensures KahnSort.TotalOrder(IdOrder(ps))
  {
    var leq := IdOrder(ps);
    forall a, b ensures leq(a, b) || leq(b, a) {
      StrTotal(IdAt(ps, a), IdAt(ps, b));
    }
    forall a, b, c | leq(a, b) && leq(b, c) ensures leq(a, c) {
      StrTransitive(IdAt(ps, a), IdAt(ps, b), IdAt(ps, c));
    }
  }

  function At(ps: seq<Processor>, ns: seq<nat>): (c: seq<Processor>)
    requires forall i :: 0 <= i < |ns| ==> ns[i] < |ps|
    ensures |c| == |ns| && forall i :: 0 <= i < |c| ==> c[i] == ps[ns[i]]
  {
    seq(|ns|, i requires 0 <= i < |ns| => ps[ns[i]])
  }

  ghost function IndexOf(ps: seq<Processor>, p: Processor): (i: nat)
    requires p in ps
    ensures i < |ps| && ps[i] == p
  {
    var i :| 0 <= i < |ps| && ps[i] == p; i
  }

  ghost function IndicesOf(ps: seq<Processor>, c: seq<Processor>): (ns: seq<nat>)
    requires forall i :: 0 <= i < |c| ==> c[i] in ps
    ensures |ns| == |c| && forall i :: 0 <= i < |c| ==> ns[i] < |ps| && ps[ns[i]] == c[i]
  {
    seq(|c|, i requires 0 <= i < |c| => IndexOf(ps, c[i]))
  }

  lemma {:induction false} ChainUp(ps: seq<Processor>, ns: seq<nat>)
    requires KahnSort.Chain(GraphOf(ps), ns)
    ensures Chain(AllOf(ps), At(ps, ns)) && Last(At(ps, ns)) == ps[KahnSort.Last(ns)]
  {
    forall i | 0 < i < |ns| ensures Edge(ps[ns[i - 1]], ps[ns[i]]) {
      assert ns[i - 1] in Preds(ps, ns[i]);
    }
  }

  lemma {:induction false} ChainDown(ps: seq<Processor>, c: seq<Processor>)
    requires Chain(AllOf(ps), c)
    ensures KahnSort.Chain(GraphOf(ps), IndicesOf(ps, c))
  {
    var ns := IndicesOf(ps, c);
    forall i | 0 < i < |ns| ensures ns[i - 1] in GraphOf(ps)[ns[i]] {
      assert Edge(c[i - 1], c[i]);
      assert ns[i - 1] in Preds(ps, ns[i]);
    }
  }

  lemma {:induction false} BoundedLifts(ps: seq<Processor>)
    ensures KahnSort.ChainsBounded(GraphOf(ps)) <==> ChainsBounded(AllOf(ps))
  {
    if KahnSort.ChainsBounded(GraphOf(ps)) {
      forall c | Chain(AllOf(ps), c) ensures |c| <= MAX_DEPTH { ChainDown(ps, c); }
    }
    if ChainsBounded(AllOf(ps)) {
      forall ns | KahnSort.Chain(GraphOf(ps), ns) ensures |ns| <= MAX_DEPTH { ChainUp(ps, ns); }
    }
  }

  lemma {:induction false} LongestLifts(ps: seq<Processor>, n: nat, d: nat)
    requires DistinctIds(ps, |ps|) && n < |ps| && KahnSort.LongestChainTo(GraphOf(ps), n, d)
    ensures LongestChainTo(AllOf(ps), ps[n], d)
  {
    var ns :| KahnSort.Chain(GraphOf(ps), ns) && KahnSort.Last(ns) == n && |ns| == d;
    ChainUp(ps, ns);
    forall c | Chain(AllOf(ps), c) && Last(c) == ps[n] ensures |c| <= d {
      ChainDown(ps, c);
      assert KahnSort.Last(IndicesOf(ps, c)) == n;
    }
  }

  lemma {:induction false} TopologicalUp(ps: seq<Processor>, order: seq<nat>)
    requires DistinctIds(ps, |ps|) && KahnSort.Topological(GraphOf(ps), order)
    ensures Topological(AllOf(ps), At(ps, order))
  {
    var a := At(ps, order);
    forall i, j | 0 <= i < |a| && 0 <= j < |a| && Edge(a[i], a[j]) ensures i < j {
      assert order[i] in Preds(ps, order[j]);
      assert order[i] in order[..j];
    }
    forall p | p in ps ensures p in a {
      assert IndexOf(ps, p) in KahnSort.Nodes(order);
      var k :| 0 <= k < |order| && order[k] == IndexOf(ps, p);
      assert a[k] == p;
    }
  }

  lemma {:induction false} TopologicalDown(ps: seq<Processor>, order: seq<Processor>)
    requires DistinctIds(ps, |ps|) && Topological(AllOf(ps), order)
    ensures forall i :: 0 <= i < |order| ==> order[i] in ps
    ensures KahnSort.Topological(GraphOf(ps), IndicesOf(ps, order))
  {
    forall i | 0 <= i < |order| ensures order[i] in ps {
      assert order[i] in AllOf(order);
    }
    var ns := IndicesOf(ps, order);
    forall i, j | 0 <= i < j < |ns| ensures ns[i] != ns[j] { assert order[i] != order[j]; }
    forall n | n in UpTo(|ps|) ensures n in ns {
      assert ps[n] in AllOf(order);
      var k :| 0 <= k < |order| && order[k] == ps[n];
      assert ns[k] == n;
    }
    forall k | 0 <= k < |ns| ensures GraphOf(ps)[ns[k]] <= KahnSort.Nodes(ns[..k]) {
      PredsComeFirst(ps, order, ns, k);
    }
  }

  lemma {:induction false} PredsComeFirst(ps: seq<Processor>, order: seq<Processor>, ns: seq<nat>, k: nat)
    requires DistinctIds(ps, |ps|) && Topological(AllOf(ps), order) && k < |ns| == |order|
    requires forall i :: 0 <= i < |ns| ==> ns[i] < |ps| && ps[ns[i]] == order[i]
    ensures GraphOf(ps)[ns[k]] <= KahnSort.Nodes(ns[..k])
  {
    forall p | p in Preds(ps, ns[k]) ensures p in ns[..k] {
      assert ps[p] in AllOf(order);
      var q :| 0 <= q < |order| && order[q] == ps[p];
      assert Edge(order[q], order[k]);
      assert ns[..k][q] == p;
    }
  }

  lemma {:induction false} LexLeastLifts(ps: seq<Processor>, order: seq<nat>)
    requires DistinctIds(ps, |ps|)
    requires KahnSort.Greedy(GraphOf(ps), IdOrder(ps), order) && KahnSort.Topological(GraphOf(ps), order)
    ensures LexLeast(AllOf(ps), At(ps, order))
  {
    TopologicalUp(ps, order);
    DistinctSize(order);
    UpToSize(|ps|);
    var a := At(ps, order);
    forall other | Topological(AllOf(ps), other) && other != a ensures exists k: nat :: PrecedesAt(a, other, k) {
      var k := PrecedesOther(ps, order, a, other);
    }
  }

  lemma {:induction false} PrecedesOther(ps: seq<Processor>, order: seq<nat>, a: seq<Processor>, other: seq<Processor>)
    returns (k: nat)
    requires DistinctIds(ps, |ps|)
    requires KahnSort.Greedy(GraphOf(ps), IdOrder(ps), order) && KahnSort.Topological(GraphOf(ps), order)
    requires |order| == |ps| && a == At(ps, order) && Topological(AllOf(ps), other) && other != a
    ensures PrecedesAt(a, other, k)
  {
    TopologicalDown(ps, other);
    var ns := IndicesOf(ps, other);
    assert other == At(ps, ns);
    k := KahnSort.GreedyPrecedes(GraphOf(ps), IdOrder(ps), order, ns);
    forall i | 0 <= i < k ensures a[i] == other[i] { assert order[..k][i] == ns[..k][i]; }
  }

  function NodesAt(ps: seq<Processor>, sorted: seq<(nat, uint8)>): seq<Node>
    requires forall i :: 0 <= i < |sorted| ==> sorted[i].0 < |ps|
  {
    seq(|sorted|, i requires 0 <= i < |sorted| => Node(ps[sorted[i].0], sorted[i].1))
  }

  lemma {:induction false} SortedIsPublished(ps: seq<Processor>, sorted: seq<(nat, uint8)>)
    requires DistinctIds(ps, |ps|) && KahnSort.Sorted(GraphOf(ps), IdOrder(ps), sorted)
    ensures forall i :: 0 <= i < |sorted| ==> sorted[i].0 < |ps|
    ensures Published(AllOf(ps), NodesAt(ps, sorted))
  {
    var g := GraphOf(ps);
    var order :| KahnSort.Greedy(g, IdOrder(ps), order) && KahnSort.Topological(g, order) && |order| == |sorted| &&
                 forall k :: 0 <= k < |order| ==>
                               && sorted[k].0 == order[k] && sorted[k].1 <= MAX_DEPTH
                               && KahnSort.LongestChainTo(g, order[k], sorted[k].1);
    OrderIsPublished(ps, order, sorted);
  }

  lemma {:induction false} OrderIsPublished(ps: seq<Processor>, order: seq<nat>, sorted: seq<(nat, uint8)>)
    requires DistinctIds(ps, |ps|) && |order| == |sorted|
    requires KahnSort.Greedy(GraphOf(ps), IdOrder(ps), order) && KahnSort.Topological(GraphOf(ps), order)
    requires forall k :: 0 <= k < |order| ==>
                           && sorted[k].0 == order[k] < |ps| && sorted[k].1 <= MAX_DEPTH
                           && KahnSort.LongestChainTo(GraphOf(ps), order[k], sorted[k].1)
    ensures Published(AllOf(ps), NodesAt(ps, sorted))
  {
    var nodes := NodesAt(ps, sorted);
    LexLeastLifts(ps, order);
    assert OrderOf(nodes) == At(ps, order);
    forall i | 0 <= i < |sorted| ensures LongestChainTo(AllOf(ps), nodes[i].processor, nodes[i].depth) {
      LongestLifts(ps, order[i], sorted[i].1);
    }
  }

  // ----- Rebuilding the published snapshot -----

  /** Bounded chains are the same thing as: no cycle, and no chain above the bound. */
  lemma {:induction false} BoundedChainsAreAcyclic(ps: seq<Processor>)
    requires ChainsBounded(AllOf(ps))
    ensures Acyclic(AllOf(ps))
  {
    BoundedLifts(ps);
    KahnSort.BoundedIsAcyclic(GraphOf(ps));
    forall c | Chain(AllOf(ps), c) && 1 < |c| ensures c[0] != Last(c) {
      ChainDown(ps, c);
      assert KahnSort.Chain(GraphOf(ps), IndicesOf(ps, c));
    }
  }

  class Graph {
    var snapshot: Snapshot

    constructor ()
      ensures snapshot == Snapshot(0, [])
    {
      snapshot := Snapshot(0, []);
    }

    /** `rebuild`: publishes the sorted graph, or leaves the published one alone. */
    method Rebuild(catalogValid: bool, catalog: map<uint32, Descriptor>, generation: uint64, ps: seq<Processor>)
      returns (status: Code)
      modifies this
      ensures status.Success? <==>
              Rebuildable(catalogValid, catalog, old(snapshot).generation, generation, ps)
      ensures status.Success? ==> snapshot.generation == generation && Published(AllOf(ps), snapshot.nodes)
      ensures !status.Success? ==> snapshot == old(snapshot)
    {
      if !catalogValid || generation == 0 {
        return InvalidArgument;
      }
      var producers;
      status, producers := CheckProcessors(catalog, ps);
      if !status.Success? {
        return;
      }
      var edges, indegree := BuildEdges(ps, producers);
      IdOrderIsTotal(ps);
      BoundedLifts(ps);
      ghost var g := GraphOf(ps);
      assert forall c :: 0 <= c < |g| ==> g[c] - {} == g[c];
      var sorted := KahnSort.Sort(g, IdOrder(ps), edges, indegree);
      if sorted.None? {
        return Unsupported;
      }
      SortedIsPublished(ps, sorted.value);
      BoundedChainsAreAcyclic(ps);
      if generation < snapshot.generation {
        return StaleGeneration;
      }
      snapshot := Snapshot(generation, NodesAt(ps, sorted.value));
      status := Success;
    }
  }
}
