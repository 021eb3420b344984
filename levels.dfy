/** The `nodes_by_level` dictionaries both DAG classes build: a dict from level to the
    list of nodes on it, filled by walking a `{node: level}` dict in its order. Python
    dicts keep insertion order, so a dict is modelled as its list of items. */
module Levels {
  import opened Common
  import opened Graph

  /** The items of a `{level: [nodes]}` dict, in insertion order. */
  type LevelDict = seq<(nat, seq<Node>)>

  /** The keys of a dict, in insertion order. */
  function Keys(d: LevelDict): (r: seq<nat>)
    ensures |r| == |d| && forall i :: 0 <= i < |d| ==> r[i] == d[i].0
  {
    if d == [] then [] else [d[0].0] + Keys(d[1..])
  }

  /** `d.setdefault(l, []).append(n)`: a new key goes last with [n]; an existing key keeps
      its place and gets n appended. */
  function Insert(d: LevelDict, n: Node, l: nat): (r: LevelDict)
    ensures l in Keys(d) ==> Keys(r) == Keys(d)
    ensures l !in Keys(d) ==> r == d + [(l, [n])]
  {
    if d == [] then [(l, [n])]
    else if d[0].0 == l then [(l, d[0].1 + [n])] + d[1..]
    else
      assert Keys(d) == [d[0].0] + Keys(d[1..]);
      [d[0]] + Insert(d[1..], n, l)
  }

  /** Appending to the last key of a dict, when that key occurs nowhere earlier. */
  lemma {:induction false} InsertLast(d: LevelDict, vs: seq<Node>, n: Node, l: nat)
    requires l !in Keys(d)
    ensures Insert(d + [(l, vs)], n, l) == d + [(l, vs + [n])]
  {
    if d != [] {
      assert (d + [(l, vs)])[1..] == d[1..] + [(l, vs)];
      assert Keys(d) == [d[0].0] + Keys(d[1..]);
      InsertLast(d[1..], vs, n, l);
    }
  }

  /** The dict built from `(node, level)` items, one insertion after the other. */
  function Group(items: seq<(Node, nat)>): LevelDict
  {
    if items == [] then []
    else
      var last := items[|items| - 1];
      Insert(Group(items[..|items| - 1]), last.0, last.1)
  }

  /** The loop `for node, level in distances.items(): d.setdefault(level, []).append(node)`
      over a fresh dict. */
  method GroupItems(items: seq<(Node, nat)>) returns (d: LevelDict)
    ensures d == Group(items)
  {
    d := [];
    for i := 0 to |items|
      invariant d == Group(items[..i])
    {
      var (node, nodeLevel) := items[i];
      assert items[..i + 1][..i] == items[..i];
      d := Insert(d, node, nodeLevel);
    }
    assert items[..|items|] == items;
  }

  /** Every node of `vs` tagged with level l. */
  function Tag(vs: seq<Node>, l: nat): (r: seq<(Node, nat)>)
    ensures |r| == |vs| && forall i :: 0 <= i < |vs| ==> r[i] == (vs[i], l)
  {
    seq(|vs|, i requires 0 <= i < |vs| => (vs[i], l))
  }

  /** The `{node: distance}` items of the levels f: level 0's nodes first, then level 1's,
      and so on, each level in its own order. */
  function Distances(f: seq<seq<Node>>): (r: seq<(Node, nat)>)
    ensures forall i :: 0 <= i < |r| ==> r[i].1 < |f|
  {
    if f == [] then [] else Distances(f[..|f| - 1]) + Tag(f[|f| - 1], |f| - 1)
  }

  /** The level dict listing the level lists f under keys 0, 1, ... in order. */
  function Enumerated(f: seq<seq<Node>>): (r: LevelDict)
    ensures |r| == |f| && forall k :: 0 <= k < |f| ==> r[k] == (k, f[k])
  {
    seq(|f|, k requires 0 <= k < |f| => (k, f[k]))
  }

  /** Inserting the nodes of a new level one by one opens a key for it after the others. */
  lemma {:induction false} GroupNewLevel(items: seq<(Node, nat)>, vs: seq<Node>, l: nat)
    requires vs != [] && l !in Keys(Group(items))
    ensures Group(items + Tag(vs, l)) == Group(items) + [(l, vs)]
    decreases |vs|
  {
    var n := |vs| - 1;
    var init := vs[..n];
    var front := items + Tag(init, l);
    TagSnoc(vs, l);
    SnocAssoc(items, Tag(init, l), (vs[n], l));
    GroupSnoc(front, (vs[n], l));
    LastSplit(vs);
    if n == 0 {
      assert front == items;
    } else {
      GroupNewLevel(items, init, l);
      AppendToNewLevel(Group(items), Group(front), init, vs[n], l);
    }
  }

  lemma SnocAssoc<T>(a: seq<T>, b: seq<T>, x: T)
    ensures a + (b + [x]) == (a + b) + [x]
  {
  }

  lemma LastSplit<T>(s: seq<T>)
    requires s != []
    ensures s == s[..|s| - 1] + [s[|s| - 1]]
  {
  }

  lemma AppendToNewLevel(g: LevelDict, h: LevelDict, init: seq<Node>, x: Node, l: nat)
    requires l !in Keys(g) && h == g + [(l, init)]
    ensures Insert(h, x, l) == g + [(l, init + [x])]
  {
    InsertLast(g, init, x, l);
  }

  /** Grouping one more item inserts it into the dict grouped so far. */
  lemma GroupSnoc(items: seq<(Node, nat)>, x: (Node, nat))
    ensures Group(items + [x]) == Insert(Group(items), x.0, x.1)
  {
    assert (items + [x])[..|items|] == items;
  }

  /** Tagging a list tags its prefix, then its last node. */
  lemma TagSnoc(vs: seq<Node>, l: nat)
    requires vs != []
    ensures Tag(vs, l) == Tag(vs[..|vs| - 1], l) + [(vs[|vs| - 1], l)]
  {
  }

  /** The keys of a dict made of the levels f are 0 .. |f|-1, and grouping the distance
      items gives back f under those keys, when no level is empty. */
  lemma {:induction false} GroupDistances(f: seq<seq<Node>>)
    requires NoneEmpty(f)
    ensures Group(Distances(f)) == Enumerated(f)
  {
    if f != [] {
      var n := |f| - 1;
      var front := f[..n];
      assert NoneEmpty(front) by {
        assert forall k :: 0 <= k < n ==> front[k] == f[k];
      }
      GroupDistances(front);
      KeysEnumerated(front);
      assert f[n] != [];
      GroupNewLevel(Distances(front), f[n], n);
      EnumeratedSnoc(f);
    }
  }

  lemma KeysEnumerated(f: seq<seq<Node>>)
    ensures |f| !in Keys(Enumerated(f))
  {
    var ks := Keys(Enumerated(f));
    assert forall i :: 0 <= i < |ks| ==> ks[i] == i;
  }

  lemma EnumeratedSnoc(f: seq<seq<Node>>)
    requires f != []
    ensures Enumerated(f[..|f| - 1]) + [(|f| - 1, f[|f| - 1])] == Enumerated(f)
  {
  }

  /** Each node of a path on a level of its own. */
  function Singletons(p: seq<Node>): (r: seq<seq<Node>>)
    ensures |r| == |p| && forall i :: 0 <= i < |p| ==> r[i] == [p[i]]
  {
    seq(|p|, i requires 0 <= i < |p| => [p[i]])
  }

  /** The first level holding v. */
  function LevelOf(f: seq<seq<Node>>, v: Node): (k: nat)
    requires Listed(f, v)
    ensures k < |f| && v in f[k]
    ensures forall j :: 0 <= j < k ==> v !in f[j]
  {
    if v in f[0] then 0
    else
      assert Listed(f[1..], v) by {
        var k :| 0 <= k < |f| && v in f[k];
        assert f[1..][k - 1] == f[k];
      }
      1 + LevelOf(f[1..], v)
  }

  /** The levels `build_level` returns for a graph: with no target, every node reachable
      from "s" grouped by BFS distance; with a target, the nodes of one shortest path
      from "s", one per level. */
  function LevelsFor(g: DiGraph, target: Option<nat>): (r: Result<LevelDict>)
    ensures r.Raised? ==> r.exc in {NetworkXError, NodeNotFound, NoPath}
  {
    match BfsFrontiers(g)
    case Raised(e) => Raised(e)
    case Ok(f) =>
      match target
      case None => Ok(Group(Distances(f)))
      case Some(t) =>
        if Id(t) !in g.nodes then Raised(NodeNotFound)
        else if !Listed(f, Id(t)) then Raised(NoPath)
        else Ok(Group(Distances(Singletons(TreePath(g, f, LevelOf(f, Id(t)), Id(t))))))
  }

  /** The `{node: level}` items walked to build the dict. */
  function LevelItems(g: DiGraph, target: Option<nat>): (r: Result<seq<(Node, nat)>>)
    ensures r.Ok? <==> LevelsFor(g, target).Ok?
    ensures r.Ok? ==> LevelsFor(g, target).value == Group(r.value)
    ensures r.Raised? ==> LevelsFor(g, target) == Raised(r.exc)
  {
    match BfsFrontiers(g)
    case Raised(e) => Raised(e)
    case Ok(f) =>
      match target
      case None => Ok(Distances(f))
      case Some(t) =>
        if Id(t) !in g.nodes then Raised(NodeNotFound)
        else if !Listed(f, Id(t)) then Raised(NoPath)
        else Ok(Distances(Singletons(TreePath(g, f, LevelOf(f, Id(t)), Id(t)))))
  }

  /** Without a target: "s" fails with NetworkXError when absent; otherwise level k lists
      exactly the nodes at distance k from "s", each once, level 0 is ["s"], the keys
      are 0, 1, ... in order, and a node is listed iff it is reachable from "s". */
  lemma LevelsByDistance(g: DiGraph)
    ensures Source !in g.nodes ==> LevelsFor(g, None) == Raised(NetworkXError)
    ensures Source in g.nodes ==>
      var d := LevelsFor(g, None);
      d.Ok? && |d.value| > 0 && d.value[0] == (0, [Source])
      && (forall k :: 0 <= k < |d.value| ==>
            (d.value[k].0 == k && d.value[k].1 != [] && Distinct(d.value[k].1) && Elems(d.value[k].1) == Layer(g, k)))
  {
    if Source in g.nodes {
      var f := BfsFrontiers(g).value;
      NoTargetLevels(g);
      FrontiersAreLayers(g);
      assert forall k :: 0 <= k < |f| ==> Elems(f[k]) == Layer(g, 0 + k);
    }
  }

  /** Without a target, the levels are the breadth-first frontiers under keys 0, 1, ... */
  lemma NoTargetLevels(g: DiGraph)
    requires Source in g.nodes
    ensures LevelsFor(g, None) == Ok(Enumerated(BfsFrontiers(g).value))
  {
    GroupDistances(BfsFrontiers(g).value);
  }

  /** Without a target, a node is listed on some level iff it is reachable from "s", and
      then on exactly one level. */
  lemma LevelsListReachable(g: DiGraph, v: Node)
    requires Source in g.nodes
    ensures var d := LevelsFor(g, None).value;
            (Reachable(g, v) <==> exists k :: 0 <= k < |d| && v in d[k].1)
            && forall i, j :: 0 <= i < j < |d| && v in d[i].1 ==> v !in d[j].1
  {
    var f := BfsFrontiers(g).value;
    NoTargetLevels(g);
    ListedIffReachable(g, v);
    var d := Enumerated(f);
    assert Listed(f, v) <==> exists k :: 0 <= k < |d| && v in d[k].1 by {
      if Listed(f, v) {
        var k :| 0 <= k < |f| && v in f[k];
        assert v in d[k].1;
      }
    }
    forall i, j | 0 <= i < j < |d| && v in d[i].1 ensures v !in d[j].1 {
      if v in d[j].1 {
        FrontiersApart(g, i, j, v, v);
      }
    }
  }

  /** With a reachable target, the levels are the nodes of the breadth-first tree path,
      one per level. */
  lemma TargetLevels(g: DiGraph, t: nat)
    requires Source in g.nodes && Id(t) in g.nodes && Listed(BfsFrontiers(g).value, Id(t))
    ensures var f := BfsFrontiers(g).value;
            LevelsFor(g, Some(t))
            == Ok(Enumerated(Singletons(TreePath(g, f, LevelOf(f, Id(t)), Id(t)))))
  {
    var f := BfsFrontiers(g).value;
    var p := TreePath(g, f, LevelOf(f, Id(t)), Id(t));
    assert NoneEmpty(Singletons(p));
    GroupDistances(Singletons(p));
  }

  /** With a target t in the graph: NoPath when t is unreachable; otherwise one node per
      level along a walk from "s" to t whose length is the distance of t. */
  lemma LevelsAlongPath(g: DiGraph, t: nat)
    requires Source in g.nodes && Id(t) in g.nodes
    ensures !Reachable(g, Id(t)) ==> LevelsFor(g, Some(t)) == Raised(NoPath)
    ensures Reachable(g, Id(t)) ==>
      var d := LevelsFor(g, Some(t));
      d.Ok? && |d.value| > 0 && d.value[0] == (0, [Source]) && d.value[|d.value| - 1].1 == [Id(t)]
      && Id(t) in Layer(g, |d.value| - 1)
      && (forall k :: 0 <= k < |d.value| ==> d.value[k].0 == k && |d.value[k].1| == 1)
      && (forall k :: 0 <= k < |d.value| - 1 ==> (d.value[k].1[0], d.value[k + 1].1[0]) in g.edges)
  {
    ListedIffReachable(g, Id(t));
    if Reachable(g, Id(t)) {
      ReachableLevels(g, t);
    }
  }

  /** The levels towards a reachable target are the breadth-first tree path to it. */
  lemma ReachableLevels(g: DiGraph, t: nat)
    requires Source in g.nodes && Id(t) in g.nodes && Listed(BfsFrontiers(g).value, Id(t))
    ensures var d := LevelsFor(g, Some(t));
      d.Ok? && |d.value| > 0 && d.value[0] == (0, [Source]) && d.value[|d.value| - 1].1 == [Id(t)]
      && Id(t) in Layer(g, |d.value| - 1)
      && (forall k :: 0 <= k < |d.value| ==> d.value[k].0 == k && |d.value[k].1| == 1)
      && (forall k :: 0 <= k < |d.value| - 1 ==> (d.value[k].1[0], d.value[k + 1].1[0]) in g.edges)
  {
    var f := BfsFrontiers(g).value;
    var k := LevelOf(f, Id(t));
    var p := TreePath(g, f, k, Id(t));
    TargetLevels(g, t);
    var d := Enumerated(Singletons(p));
    assert LevelsFor(g, Some(t)) == Ok(d);
    assert |d| - 1 == k;
    InLayer(g, k, Id(t));
    SingletonLevels(g, p);
  }

  /** The dict listing a walk from "s" one node per level: keys 0, 1, ... in order, "s"
      first, the walk's end last, and each level's node joined to the next by an edge. */
  lemma SingletonLevels(g: DiGraph, p: seq<Node>)
    requires IsPathFromSource(g, p)
    ensures var d := Enumerated(Singletons(p));
      |d| == |p| && d[0] == (0, [Source]) && d[|d| - 1].1 == [p[|p| - 1]]
      && (forall k :: 0 <= k < |d| ==> d[k].0 == k && |d[k].1| == 1)
      && (forall k :: 0 <= k < |d| - 1 ==> (d[k].1[0], d[k + 1].1[0]) in g.edges)
  {
    var d := Enumerated(Singletons(p));
    forall i | 0 <= i < |d|
      ensures d[i] == (i, [p[i]])
    {
    }
    forall i | 0 <= i < |d| - 1
      ensures (d[i].1[0], d[i + 1].1[0]) in g.edges
    {
      assert d[i].1[0] == p[i] && d[i + 1].1[0] == p[i + 1];
    }
  }

  /** The path levels are a shortest walk: any walk from "s" to the target has at least
      as many nodes as there are levels. */
  lemma PathLevelsShortest(g: DiGraph, t: nat, q: seq<Node>)
    requires Source in g.nodes && Id(t) in g.nodes && LevelsFor(g, Some(t)).Ok?
    requires IsPathFromSource(g, q) && q[|q| - 1] == Id(t)
    ensures |q| >= |LevelsFor(g, Some(t)).value|
  {
    var f := BfsFrontiers(g).value;
    var k := LevelOf(f, Id(t));
    TargetLevels(g, t);
    TreePathShortest(g, k, Id(t), q);
  }

  /** The path levels never list a node twice. */
  lemma PathLevelsDistinct(g: DiGraph, t: nat, i: nat, j: nat)
    requires Source in g.nodes && Id(t) in g.nodes && LevelsFor(g, Some(t)).Ok?
    requires i < j < |LevelsFor(g, Some(t)).value|
    ensures LevelsFor(g, Some(t)).value[i].1 != LevelsFor(g, Some(t)).value[j].1
  {
    var f := BfsFrontiers(g).value;
    var k := LevelOf(f, Id(t));
    var p := TreePath(g, f, k, Id(t));
    TargetLevels(g, t);
    TreePathDistinct(g, k, Id(t));
    assert p[i] != p[j];
    assert [p[i]] != [p[j]];
  }
}
