/** The part of networkx's `DiGraph` that both DAG builders use: nodes kept in insertion
    order with a `name` attribute, edges kept in first-insertion order, successor and
    predecessor lists, the edge view, and the breadth-first levels from the source "s". */
module Graph {
  import opened Common

  /** A node of the task graph: the synthetic source "s" or an integer task id. */
  datatype Node = Source | Id(id: nat)

  type Edge = (Node, Node)

  /** A directed graph as networkx stores it: `nodes` in the order they were first added,
      the `name` attribute of the nodes that carry one, and every edge once, in the order
      it was first added (the adjacency dicts keep that order per node). */
  datatype DiGraph = DiGraph(nodes: seq<Node>, names: map<Node, string>, edges: seq<Edge>)

  const Empty: DiGraph := DiGraph([], map[], [])

  /** Nodes and edges are listed once each, and every edge joins two nodes. */
  predicate WellFormed(g: DiGraph) {
    Distinct(g.nodes) && Distinct(g.edges)
    && (forall e :: e in g.edges ==> e.0 in g.nodes && e.1 in g.nodes)
    && (forall n :: n in g.names ==> n in g.nodes)
  }

  /** `add_node(n, name=name)`: a new node goes last; an existing one keeps its place
      and only its attribute changes. */
  function AddNode(g: DiGraph, n: Node, name: string): (r: DiGraph)
    ensures g.nodes <= r.nodes && |r.nodes| <= |g.nodes| + 1 && n in r.nodes
    ensures r.names == g.names[n := name] && r.edges == g.edges
  {
    DiGraph(if n in g.nodes then g.nodes else g.nodes + [n], g.names[n := name], g.edges)
  }

  /** `add_node` adds n and nothing else, and keeps the graph well formed. */
  lemma AddNodeFacts(g: DiGraph, n: Node, name: string)
    ensures forall v :: v in AddNode(g, n, name).nodes <==> v in g.nodes || v == n
    ensures WellFormed(g) ==> WellFormed(AddNode(g, n, name))
  {
  }

  /** The endpoint bookkeeping of `add_edge`: a node not yet in the graph is added last,
      without attributes. */
  function Touch(g: DiGraph, n: Node): (r: DiGraph)
    ensures g.nodes <= r.nodes && |r.nodes| <= |g.nodes| + 1 && n in r.nodes
    ensures r.names == g.names && r.edges == g.edges
  {
    DiGraph(if n in g.nodes then g.nodes else g.nodes + [n], g.names, g.edges)
  }

  /** `add_edge(u, v)`: adds u, then v, when missing, then the edge unless present. */
  function AddEdge(g: DiGraph, u: Node, v: Node): (r: DiGraph)
    ensures g.nodes <= r.nodes && u in r.nodes && v in r.nodes
    ensures g.edges <= r.edges && |r.edges| <= |g.edges| + 1 && (u, v) in r.edges
    ensures r.names == g.names
  {
    var h := Touch(Touch(g, u), v);
    DiGraph(h.nodes, h.names, if (u, v) in h.edges then h.edges else h.edges + [(u, v)])
  }

  /** `add_edge` adds u, v and (u, v) and nothing else, and keeps the graph well formed. */
  lemma AddEdgeFacts(g: DiGraph, u: Node, v: Node)
    ensures forall x :: x in AddEdge(g, u, v).nodes <==> x in g.nodes || x == u || x == v
    ensures forall e :: e in AddEdge(g, u, v).edges <==> e in g.edges || e == (u, v)
    ensures WellFormed(g) ==> WellFormed(AddEdge(g, u, v))
  {
  }

  /** The task nodes 0 .. n-1, in order. */
  function Ids(n: nat): (r: seq<Node>)
    ensures |r| == n
  {
    if n == 0 then [] else Ids(n - 1) + [Id(n - 1)]
  }

  /** Task node k is among the first n exactly when k < n, at position k. */
  lemma {:induction false} IdsMember(n: nat, v: Node)
    ensures v in Ids(n) <==> v.Id? && v.id < n
    ensures v.Id? && v.id < n ==> Ids(n)[v.id] == v
  {
    if n > 0 {
      IdsMember(n - 1, v);
    }
  }

  /** The nodes that some edge of es starts or ends at. */
  function Endpoints(es: seq<Edge>): set<Node> {
    (set e | e in es :: e.0) + (set e | e in es :: e.1)
  }

  /** `add_edges_from(es)`: the edges added one after the other. */
  function AddEdgesFrom(g: DiGraph, es: seq<Edge>): (r: DiGraph)
    ensures g.nodes <= r.nodes && g.edges <= r.edges && r.names == g.names
    decreases |es|
  {
    if es == [] then g
    else AddEdgesFrom(AddEdge(g, es[0].0, es[0].1), es[1..])
  }

  /** `add_edges_from` adds exactly the edges of es. */
  lemma {:induction false} AddEdgesFromEdges(g: DiGraph, es: seq<Edge>)
    ensures Elems(AddEdgesFrom(g, es).edges) == Elems(g.edges) + Elems(es)
    decreases |es|
  {
    if es != [] {
      var h := AddEdge(g, es[0].0, es[0].1);
      AddEdgeFacts(g, es[0].0, es[0].1);
      assert Elems(h.edges) == Elems(g.edges) + {es[0]};
      AddEdgesFromEdges(h, es[1..]);
      EndpointsCons(es);
    }
  }

  /** `add_edges_from` adds exactly the endpoints of es as nodes. */
  lemma {:induction false} AddEdgesFromNodes(g: DiGraph, es: seq<Edge>)
    ensures Elems(AddEdgesFrom(g, es).nodes) == Elems(g.nodes) + Endpoints(es)
    decreases |es|
  {
    if es != [] {
      var h := AddEdge(g, es[0].0, es[0].1);
      AddEdgeFacts(g, es[0].0, es[0].1);
      assert Elems(h.nodes) == Elems(g.nodes) + {es[0].0, es[0].1};
      AddEdgesFromNodes(h, es[1..]);
      EndpointsCons(es);
    }
  }

  /** `add_edges_from` keeps a graph well formed. */
  lemma {:induction false} AddEdgesFromWellFormed(g: DiGraph, es: seq<Edge>)
    requires WellFormed(g)
    ensures WellFormed(AddEdgesFrom(g, es))
    decreases |es|
  {
    if es != [] {
      AddEdgeFacts(g, es[0].0, es[0].1);
      AddEdgesFromWellFormed(AddEdge(g, es[0].0, es[0].1), es[1..]);
    }
  }

  lemma EndpointsCons(es: seq<Edge>)
    requires es != []
    ensures Endpoints(es) == {es[0].0, es[0].1} + Endpoints(es[1..])
    ensures Elems(es) == {es[0]} + Elems(es[1..])
  {
    assert es == [es[0]] + es[1..];
  }

  /** The heads of the edges leaving u, in edge order. */
  function Targets(es: seq<Edge>, u: Node): (r: seq<Node>)
    ensures forall v :: v in r <==> (u, v) in es
    ensures Distinct(es) ==> Distinct(r)
  {
    if es == [] then []
    else
      var rest := Targets(es[1..], u);
      assert forall v :: (u, v) in es[1..] ==> (u, v) in es;
      if es[0].0 == u then
        assert forall v :: v in rest ==> (u, v) in es[1..];
        [es[0].1] + rest
      else rest
  }

  /** The tails of the edges entering v, in edge order. */
  function Sources(es: seq<Edge>, v: Node): (r: seq<Node>)
    ensures forall u :: u in r <==> (u, v) in es
    ensures Distinct(es) ==> Distinct(r)
  {
    if es == [] then []
    else
      var rest := Sources(es[1..], v);
      assert forall u :: (u, v) in es[1..] ==> (u, v) in es;
      if es[0].1 == v then
        assert forall u :: u in rest ==> (u, v) in es[1..];
        [es[0].0] + rest
      else rest
  }

  /** Adding one edge at the end extends the tails of its head by one, and no other list. */
  lemma {:induction false} SourcesSnoc(es: seq<Edge>, e: Edge, v: Node)
    ensures Sources(es + [e], v) == Sources(es, v) + (if e.1 == v then [e.0] else [])
  {
    if es != [] {
      assert (es + [e])[1..] == es[1..] + [e];
      SourcesSnoc(es[1..], e, v);
    }
  }

  /** The tails of v's edges in two lists one after the other. */
  lemma {:induction false} SourcesAppend(a: seq<Edge>, b: seq<Edge>, v: Node)
    ensures Sources(a + b, v) == Sources(a, v) + Sources(b, v)
  {
    if a == [] {
      assert a + b == b;
    } else {
      assert (a + b)[0] == a[0] && (a + b)[1..] == a[1..] + b;
      SourcesAppend(a[1..], b, v);
    }
  }

  /** A list in which no edge enters v gives v no tails. */
  lemma {:induction false} SourcesNone(es: seq<Edge>, v: Node)
    requires forall e :: 0 <= e < |es| ==> es[e].1 != v
    ensures Sources(es, v) == []
  {
    if es != [] {
      SourcesNone(es[1..], v);
    }
  }

  /** A list in which every edge enters v gives v one tail per edge. */
  lemma {:induction false} SourcesAll(es: seq<Edge>, v: Node)
    requires forall e :: 0 <= e < |es| ==> es[e].1 == v
    ensures |Sources(es, v)| == |es|
  {
    if es != [] {
      SourcesAll(es[1..], v);
    }
  }

  /** `G.successors(u)`, in the order the edges were added. */
  function Successors(g: DiGraph, u: Node): (r: seq<Node>)
    ensures forall v :: v in r <==> (u, v) in g.edges
    ensures WellFormed(g) ==> Distinct(r)
  {
    Targets(g.edges, u)
  }

  /** `G.predecessors(v)`, in the order the edges were added. */
  function Predecessors(g: DiGraph, v: Node): (r: seq<Node>)
    ensures forall u :: u in r <==> (u, v) in g.edges
    ensures WellFormed(g) ==> Distinct(r)
  {
    Sources(g.edges, v)
  }

  /** The edges (u, v) for u in us, each u's successors in order. */
  function EdgesFrom(g: DiGraph, us: seq<Node>): (r: seq<Edge>)
    ensures forall e :: e in r <==> e.0 in us && e in g.edges
  {
    if us == [] then []
    else
      var vs := Successors(g, us[0]);
      var here := seq(|vs|, i requires 0 <= i < |vs| => (us[0], vs[i]));
      assert forall e: Edge :: e in here <==> e.0 == us[0] && e in g.edges by {
        forall e: Edge | e.0 == us[0] && e in g.edges ensures e in here {
          var i :| 0 <= i < |vs| && vs[i] == e.1;
          assert here[i] == e;
        }
      }
      here + EdgesFrom(g, us[1..])
  }

  /** `list(G.edges())`: node by node in node order, each node's successors in order. */
  function EdgeView(g: DiGraph): (r: seq<Edge>)
    ensures WellFormed(g) ==> forall e :: e in r <==> e in g.edges
  {
    EdgesFrom(g, g.nodes)
  }

  // ------------------------------------------------------------ breadth-first search

  /** The heads of the edges leaving the nodes of `us`, in `us` order and then edge order. */
  function SuccessorList(g: DiGraph, us: seq<Node>): (r: seq<Node>)
    ensures forall v :: v in r <==> exists u :: u in us && (u, v) in g.edges
  {
    if us == [] then []
    else
      var rest := SuccessorList(g, us[1..]);
      assert forall u :: u in us <==> u == us[0] || u in us[1..];
      Successors(g, us[0]) + rest
  }

  /** The candidates not yet seen, each once, in order of first appearance: the queue
      order in which breadth-first search discovers them. */
  function Discover(cands: seq<Node>, seen: set<Node>): (r: seq<Node>)
    ensures Elems(r) == Elems(cands) - seen
    ensures Distinct(r)
  {
    if cands == [] then []
    else if cands[0] in seen then
      assert Elems(cands) == {cands[0]} + Elems(cands[1..]);
      Discover(cands[1..], seen)
    else
      var rest := Discover(cands[1..], seen + {cands[0]});
      assert Elems(cands) == {cands[0]} + Elems(cands[1..]);
      [cands[0]] + rest
  }

  /** Every node that heads an edge. */
  function Heads(g: DiGraph): set<Node> {
    set e | e in g.edges :: e.1
  }

  /** The breadth-first frontiers from `front` onwards, each the newly discovered
      successors of the one before, until one comes out empty. */
  function Frontiers(g: DiGraph, front: seq<Node>, seen: set<Node>): (r: seq<seq<Node>>)
    ensures front != [] ==> |r| > 0 && r[0] == front
    decreases |Heads(g) - seen|, |front|
  {
    if front == [] then []
    else
      var next := Discover(SuccessorList(g, front), seen);
      FewerUnseen(g, front, seen);
      [front] + Frontiers(g, next, seen + Elems(next))
  }

  /** No frontier is empty: the search stops at the first empty one. */
  lemma {:induction false} FrontiersNonEmpty(g: DiGraph, front: seq<Node>, seen: set<Node>)
    ensures NoneEmpty(Frontiers(g, front, seen))
    decreases |Heads(g) - seen|, |front|
  {
    if front != [] {
      var next := Discover(SuccessorList(g, front), seen);
      FewerUnseen(g, front, seen);
      FrontiersNonEmpty(g, next, seen + Elems(next));
      var rest := Frontiers(g, next, seen + Elems(next));
      assert Frontiers(g, front, seen) == [front] + rest;
      ConsNonEmpty(front, rest);
    }
  }

  predicate NoneEmpty(r: seq<seq<Node>>) {
    forall i :: 0 <= i < |r| ==> r[i] != []
  }

  lemma ConsNonEmpty(front: seq<Node>, rest: seq<seq<Node>>)
    requires front != [] && NoneEmpty(rest)
    ensures NoneEmpty([front] + rest)
  {
    var r := [front] + rest;
    forall i | 0 < i < |r| ensures r[i] != [] {
      assert r[i] == rest[i - 1];
    }
  }

  /** Discovering a non-empty frontier leaves fewer edge heads unseen. */
  lemma FewerUnseen(g: DiGraph, front: seq<Node>, seen: set<Node>)
    ensures var next := Discover(SuccessorList(g, front), seen);
            (next != [] ==> |Heads(g) - (seen + Elems(next))| < |Heads(g) - seen|)
            && (next == [] ==> seen + Elems(next) == seen)
  {
    var next := Discover(SuccessorList(g, front), seen);
    if next == [] {
      assert Elems(next) == {};
    } else {
      var x := next[0];
      assert x in Elems(next);
      assert x in SuccessorList(g, front) && x !in seen;
      var u :| u in front && (u, x) in g.edges;
      var h := Heads(g);
      assert x in h by {
        var e := (u, x);
        assert e in g.edges && e.1 == x;
      }
      Shrinks(h - (seen + Elems(next)), h - seen, x);
    }
  }

  lemma Shrinks<T>(b: set<T>, a: set<T>, x: T)
    requires b <= a && x in a && x !in b
    ensures |b| < |a|
  {
    SubsetSize(b, a - {x});
  }

  lemma {:induction false} SubsetSize<T>(b: set<T>, c: set<T>)
    requires b <= c
    ensures |b| <= |c|
    decreases |c|
  {
    if b != {} {
      var y :| y in b;
      SubsetSize(b - {y}, c - {y});
    }
  }

  /** The frontiers of a search from the source "s", which networkx refuses to start
      when "s" is not a node. */
  function BfsFrontiers(g: DiGraph): (r: Result<seq<seq<Node>>>)
    ensures r.Raised? <==> Source !in g.nodes
    ensures r.Raised? ==> r.exc == NetworkXError
    ensures r.Ok? ==> |r.value| > 0 && r.value[0] == [Source]
    ensures r.Ok? ==> NoneEmpty(r.value)
  {
    FrontiersNonEmpty(g, [Source], {Source});
    if Source in g.nodes then Ok(Frontiers(g, [Source], {Source})) else Raised(NetworkXError)
  }

  // ------------------------------------------------------------ distances, independently

  /** The heads of edges leaving the set s. */
  function Step(g: DiGraph, s: set<Node>): set<Node> {
    set e | e in g.edges && e.0 in s :: e.1
  }

  /** The nodes reachable from "s" along at most k edges. */
  function Within(g: DiGraph, k: nat): set<Node> {
    if k == 0 then {Source} else Within(g, k - 1) + Step(g, Within(g, k - 1))
  }

  /** The nodes at distance exactly k from "s". */
  function Layer(g: DiGraph, k: nat): set<Node> {
    if k == 0 then Within(g, 0) else Within(g, k) - Within(g, k - 1)
  }

  /** A walk along edges of g, starting at "s". */
  ghost predicate IsPathFromSource(g: DiGraph, p: seq<Node>) {
    |p| > 0 && p[0] == Source && forall i :: 0 <= i < |p| - 1 ==> (p[i], p[i + 1]) in g.edges
  }

  ghost predicate Reachable(g: DiGraph, v: Node) {
    exists k: nat :: v in Within(g, k)
  }

  lemma {:induction false} WithinGrows(g: DiGraph, i: nat, j: nat)
    requires i <= j
    ensures Within(g, i) <= Within(g, j)
    decreases j - i
  {
    if i < j {
      WithinGrows(g, i, j - 1);
    }
  }

  /** Layers are the new nodes of each step: those reached from the previous layer that
      were not already within reach. */
  lemma LayerStep(g: DiGraph, k: nat)
    ensures Layer(g, k + 1) == Step(g, Layer(g, k)) - Within(g, k)
  {
    if k > 0 {
      var prev := Within(g, k - 1);
      WithinGrows(g, k - 1, k);
      assert Within(g, k) == prev + Layer(g, k);
      forall v | v in Step(g, Within(g, k)) && v !in Within(g, k)
        ensures v in Step(g, Layer(g, k))
      {
        var e :| e in g.edges && e.0 in Within(g, k) && e.1 == v;
      }
    }
  }

  /** The layers are disjoint. */
  lemma LayersDisjoint(g: DiGraph, i: nat, j: nat, x: Node)
    requires i < j && x in Layer(g, i)
    ensures x !in Layer(g, j)
  {
    WithinGrows(g, i, j - 1);
  }

  /** An empty layer k means step k reached nothing new. */
  lemma SaturatedAt(g: DiGraph, k: nat)
    requires k > 0 && Layer(g, k) == {}
    ensures Within(g, k) == Within(g, k - 1)
  {
    WithinGrows(g, k - 1, k);
    forall x | x in Within(g, k) ensures x in Within(g, k - 1) {
      assert x !in Layer(g, k);
    }
  }

  /** Once a layer is empty, nothing more is ever reached. */
  lemma {:induction false} Saturated(g: DiGraph, k: nat, j: nat)
    requires k > 0 && Layer(g, k) == {} && j >= k
    ensures Within(g, j) == Within(g, k - 1)
    decreases j - k
  {
    SaturatedAt(g, k);
    if j > k {
      Saturated(g, k, j - 1);
      assert Within(g, j) == Within(g, j - 1) + Step(g, Within(g, j - 1));
    }
  }

  /** The successors of a set of nodes, listed, are the step from that set. */
  lemma SuccessorListStep(g: DiGraph, us: seq<Node>)
    ensures Elems(SuccessorList(g, us)) == Step(g, Elems(us))
  {
    var l := SuccessorList(g, us);
    forall v | v in Step(g, Elems(us)) ensures v in Elems(l) {
      var e :| e in g.edges && e.0 in Elems(us) && e.1 == v;
      assert e.0 in us && (e.0, v) in g.edges;
    }
    forall v | v in Elems(l) ensures v in Step(g, Elems(us)) {
      var u :| u in us && (u, v) in g.edges;
      var e := (u, v);
      assert e in g.edges && e.0 in Elems(us);
    }
  }

  /** The frontier discovered from layer k, with the nodes within distance k seen, is
      layer k + 1, and the nodes seen then are those within distance k + 1. */
  lemma NextIsLayer(g: DiGraph, front: seq<Node>, seen: set<Node>, k: nat)
    requires seen == Within(g, k) && Elems(front) == Layer(g, k)
    ensures var next := Discover(SuccessorList(g, front), seen);
            Elems(next) == Layer(g, k + 1) && seen + Elems(next) == Within(g, k + 1)
  {
    SuccessorListStep(g, front);
    LayerStep(g, k);
    WithinGrows(g, k, k + 1);
  }

  /** Frontier i of r is layer k + i, without repetition. */
  predicate LayersFrom(g: DiGraph, r: seq<seq<Node>>, k: nat) {
    forall i :: 0 <= i < |r| ==> Elems(r[i]) == Layer(g, k + i) && Distinct(r[i])
  }

  lemma ConsLayers(g: DiGraph, front: seq<Node>, rest: seq<seq<Node>>, k: nat)
    requires Elems(front) == Layer(g, k) && Distinct(front) && LayersFrom(g, rest, k + 1)
    ensures LayersFrom(g, [front] + rest, k)
  {
    var r := [front] + rest;
    forall i | 0 < i < |r| ensures Elems(r[i]) == Layer(g, k + i) && Distinct(r[i]) {
      assert r[i] == rest[i - 1];
    }
  }

  /** The frontiers from a frontier equal to layer k, with the nodes within distance k
      seen, are the successive non-empty layers. */
  lemma {:induction false} FrontiersAreLayersFrom(g: DiGraph, front: seq<Node>, seen: set<Node>, k: nat)
    requires seen == Within(g, k) && Elems(front) == Layer(g, k) && Distinct(front)
    ensures LayersFrom(g, Frontiers(g, front, seen), k)
    decreases |Heads(g) - seen|, |front|
  {
    if front != [] {
      var next := Discover(SuccessorList(g, front), seen);
      NextIsLayer(g, front, seen, k);
      FewerUnseen(g, front, seen);
      FrontiersAreLayersFrom(g, next, seen + Elems(next), k + 1);
      var rest := Frontiers(g, next, seen + Elems(next));
      assert Frontiers(g, front, seen) == [front] + rest;
      ConsLayers(g, front, rest, k);
    }
  }

  /** The layer after the last frontier is empty: the search stops only when nothing new
      is reachable. */
  lemma {:induction false} FrontiersExhaust(g: DiGraph, front: seq<Node>, seen: set<Node>, k: nat)
    requires seen == Within(g, k) && Elems(front) == Layer(g, k)
    ensures Exhausted(g, Frontiers(g, front, seen), k)
    decreases |Heads(g) - seen|, |front|
  {
    if front == [] {
      assert Elems(front) == {};
    } else {
      var next := Discover(SuccessorList(g, front), seen);
      NextIsLayer(g, front, seen, k);
      FewerUnseen(g, front, seen);
      FrontiersExhaust(g, next, seen + Elems(next), k + 1);
      var rest := Frontiers(g, next, seen + Elems(next));
      assert Frontiers(g, front, seen) == [front] + rest;
      ConsExhausted(g, front, rest, k);
    }
  }

  /** Nothing lies at the distance just past the frontiers r, which start at layer k. */
  ghost predicate Exhausted(g: DiGraph, r: seq<seq<Node>>, k: nat) {
    Layer(g, k + |r|) == {}
  }

  lemma ConsExhausted(g: DiGraph, front: seq<Node>, rest: seq<seq<Node>>, k: nat)
    requires Exhausted(g, rest, k + 1)
    ensures Exhausted(g, [front] + rest, k)
  {
    assert k + |[front] + rest| == k + 1 + |rest|;
  }

  /** The breadth-first frontiers are exactly the layers at distance 0, 1, ..., each
      without repetition, and the layer after the last is empty. */
  lemma FrontiersAreLayers(g: DiGraph)
    requires Source in g.nodes
    ensures LayersFrom(g, BfsFrontiers(g).value, 0)
    ensures Exhausted(g, BfsFrontiers(g).value, 0)
  {
    FrontiersAreLayersFrom(g, [Source], {Source}, 0);
    FrontiersExhaust(g, [Source], {Source}, 0);
  }

  /** v occurs in one of the frontiers. */
  predicate Listed(f: seq<seq<Node>>, v: Node) {
    exists k :: 0 <= k < |f| && v in f[k]
  }

  /** A node is listed in the breadth-first frontiers iff it is reachable from "s". */
  lemma ListedIffReachable(g: DiGraph, v: Node)
    requires Source in g.nodes
    ensures Listed(BfsFrontiers(g).value, v) <==> Reachable(g, v)
  {
    var f := BfsFrontiers(g).value;
    FrontiersAreLayers(g);
    if Reachable(g, v) {
      ReachableIsListed(g, f, v);
    }
    if Listed(f, v) {
      ListedIsReachable(g, f, v);
    }
  }

  /** Layers that run up to an empty one list every reachable node. */
  lemma ReachableIsListed(g: DiGraph, f: seq<seq<Node>>, v: Node)
    requires |f| > 0 && LayersFrom(g, f, 0) && Exhausted(g, f, 0) && Reachable(g, v)
    ensures Listed(f, v)
  {
    var j: nat :| v in Within(g, j);
    assert Layer(g, |f|) == {};
    var k := ReachedLayer(g, |f|, v, j);
    LayerListed(g, f, v, k);
  }

  /** When layer n is empty, a node within any distance lies in a layer below n. */
  lemma ReachedLayer(g: DiGraph, n: nat, v: Node, j: nat) returns (k: nat)
    requires n > 0 && Layer(g, n) == {} && v in Within(g, j)
    ensures k < n && v in Layer(g, k)
  {
    var m := if j < n then j else n - 1;
    if j >= n {
      Saturated(g, n, j);
    }
    LayerCover(g, v, m);
    k :| k <= m && v in Layer(g, k);
  }

  /** A node of layer k is listed when the k-th frontier is that layer. */
  lemma LayerListed(g: DiGraph, f: seq<seq<Node>>, v: Node, k: nat)
    requires LayersFrom(g, f, 0) && k < |f| && v in Layer(g, k)
    ensures Listed(f, v)
  {
    assert Elems(f[k]) == Layer(g, 0 + k);
    assert v in Elems(f[k]);
  }

  /** A node listed in the layers is reachable. */
  lemma ListedIsReachable(g: DiGraph, f: seq<seq<Node>>, v: Node)
    requires LayersFrom(g, f, 0) && Listed(f, v)
    ensures Reachable(g, v)
  {
    var k :| 0 <= k < |f| && v in f[k];
    assert Elems(f[k]) == Layer(g, 0 + k);
    assert v in Within(g, k);
  }

  /** A node within distance m lies in one of the layers 0..m. */
  lemma {:induction false} LayerCover(g: DiGraph, v: Node, m: nat)
    requires v in Within(g, m)
    ensures exists k :: 0 <= k <= m && v in Layer(g, k)
  {
    if m > 0 && v in Within(g, m - 1) {
      LayerCover(g, v, m - 1);
    } else {
      assert v in Layer(g, m);
    }
  }

  /** The end of a walk of n edges from "s" is within distance n. */
  lemma {:induction false} PathWithin(g: DiGraph, p: seq<Node>)
    requires IsPathFromSource(g, p)
    ensures p[|p| - 1] in Within(g, |p| - 1)
  {
    if |p| > 1 {
      var q := p[..|p| - 1];
      PathWithin(g, q);
      assert (p[|p| - 2], p[|p| - 1]) in g.edges;
      assert p[|p| - 1] in Step(g, Within(g, |p| - 2));
    }
  }

  // ------------------------------------------------------------ one shortest path

  /** A node of frontier k lies at distance k. */
  lemma InLayer(g: DiGraph, k: nat, v: Node)
    requires Source in g.nodes && k < |BfsFrontiers(g).value| && v in BfsFrontiers(g).value[k]
    ensures v in Layer(g, k)
  {
    FrontiersAreLayers(g);
    assert Elems(BfsFrontiers(g).value[k]) == Layer(g, 0 + k);
    assert v in Elems(BfsFrontiers(g).value[k]);
  }

  /** A node of frontier k > 0 has an edge from a node of frontier k - 1. */
  lemma HasParent(g: DiGraph, k: nat, v: Node)
    requires Source in g.nodes && 0 < k < |BfsFrontiers(g).value| && v in BfsFrontiers(g).value[k]
    ensures exists u :: u in BfsFrontiers(g).value[k - 1] && (u, v) in g.edges
  {
    var f := BfsFrontiers(g).value;
    InLayer(g, k, v);
    LayerStep(g, k - 1);
    var e :| e in g.edges && e.0 in Layer(g, k - 1) && e.1 == v;
    FrontiersAreLayers(g);
    assert Elems(f[k - 1]) == Layer(g, 0 + (k - 1));
    assert e.0 in Elems(f[k - 1]);
  }

  /** The first node of `front` with an edge to v: the one BFS discovers v from. */
  function FirstParent(g: DiGraph, front: seq<Node>, v: Node): (u: Node)
    requires exists u :: u in front && (u, v) in g.edges
    ensures u in front && (u, v) in g.edges
  {
    if (front[0], v) in g.edges then front[0] else FirstParent(g, front[1..], v)
  }

  /** The path to v in layer k of the breadth-first tree, read back through the parents. */
  function TreePath(g: DiGraph, f: seq<seq<Node>>, k: nat, v: Node): (p: seq<Node>)
    requires Source in g.nodes && f == BfsFrontiers(g).value
    requires k < |f| && v in f[k]
    ensures |p| == k + 1 && p[k] == v && IsPathFromSource(g, p)
    ensures forall i :: 0 <= i <= k ==> p[i] in f[i]
  {
    if k == 0 then [v]
    else
      HasParent(g, k, v);
      var u := FirstParent(g, f[k - 1], v);
      var p := TreePath(g, f, k - 1, u);
      var q := p + [v];
      assert forall i :: 0 <= i < k ==> q[i] == p[i];
      assert (q[k - 1], q[k]) in g.edges;
      q
  }

  /** The path of the breadth-first tree is a shortest one: every walk from "s" to v is
      at least as long. */
  lemma TreePathShortest(g: DiGraph, k: nat, v: Node, q: seq<Node>)
    requires Source in g.nodes && k < |BfsFrontiers(g).value| && v in BfsFrontiers(g).value[k]
    requires IsPathFromSource(g, q) && q[|q| - 1] == v
    ensures |q| >= |TreePath(g, BfsFrontiers(g).value, k, v)|
  {
    InLayer(g, k, v);
    WalkAtLeast(g, k, v, q);
  }

  /** A walk from "s" to a node at distance k has at least k edges. */
  lemma WalkAtLeast(g: DiGraph, k: nat, v: Node, q: seq<Node>)
    requires v in Layer(g, k) && IsPathFromSource(g, q) && q[|q| - 1] == v
    ensures |q| >= k + 1
  {
    PathWithin(g, q);
    LayerFirst(g, k, v, |q| - 1);
  }

  /** A node at distance k is not within reach in fewer than k steps. */
  lemma LayerFirst(g: DiGraph, k: nat, v: Node, m: nat)
    requires v in Layer(g, k)
    ensures v in Within(g, m) ==> m >= k
  {
    if m < k {
      WithinGrows(g, m, k - 1);
    }
  }

  /** Nodes of different frontiers differ. */
  lemma FrontiersApart(g: DiGraph, i: nat, j: nat, x: Node, y: Node)
    requires Source in g.nodes && i < j < |BfsFrontiers(g).value|
    requires x in BfsFrontiers(g).value[i] && y in BfsFrontiers(g).value[j]
    ensures x != y
  {
    InLayer(g, i, x);
    InLayer(g, j, y);
    LayersDisjoint(g, i, j, x);
  }

  /** The nodes of a breadth-first tree path are distinct. */
  lemma TreePathDistinct(g: DiGraph, k: nat, v: Node)
    requires Source in g.nodes && k < |BfsFrontiers(g).value| && v in BfsFrontiers(g).value[k]
    ensures Distinct(TreePath(g, BfsFrontiers(g).value, k, v))
  {
    var f := BfsFrontiers(g).value;
    var p := TreePath(g, f, k, v);
    forall i, j | 0 <= i < j < |p| ensures p[i] != p[j] {
      FrontiersApart(g, i, j, p[i], p[j]);
    }
  }
}
