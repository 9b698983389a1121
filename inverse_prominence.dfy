/**
 * The inverse-prominence tree that the browser scripts rebuild from the flat
 * `iprom` edge list: first a `node_list` keyed by concept id, holding each
 * node's parent, weight and children; then a recursive `treeBuilder`; then a
 * scan over the indices `0 .. length-1` for the node without a parent.
 * `util.js` and `story_wheel.js` carry the same copy of the first two steps;
 * both files' models use this module.
 */
module InverseProminence {
  import opened Common

  /** One entry of `iprom`: `from` is the parent, `to` the child. */
  datatype Edge = Edge(from: int, to: int, weight: real)

  /**
   * An entry of `node_list`. A property the script never assigned reads as
   * `undefined`, modelled as `None`.
   */
  datatype NodeEntry = NodeEntry(parent: Option<int>, weight: Option<real>, id: Option<int>, children: seq<int>)

  /** A node of the tree handed to the radial layout. */
  datatype Tree = Tree(name: Option<string>, weight: Option<real>, children: seq<Tree>)

  /** How the root scan ends: no parentless index, a root, or an exception. */
  datatype ScanResult = NoRoot | Root(tree: Tree) | Fault(error: JsError)

  function EdgeTo(e: Edge): int { e.to }

  // ---------------------------------------------------------------------
  // What `node_list` holds after the edge loop, stated per node id.
  // ---------------------------------------------------------------------

  /** Every id that is the `from` or the `to` of some edge. */
  function Endpoints(edges: seq<Edge>): set<int> {
    if edges == [] then {}
    else
      var e := edges[|edges| - 1];
      Endpoints(edges[..|edges| - 1]) + {e.from, e.to}
  }

  /** The `to`s of the edges leaving `x`, in edge order. */
  function ChildrenOf(edges: seq<Edge>, x: int): seq<int> {
    if edges == [] then []
    else
      var e := edges[|edges| - 1];
      ChildrenOf(edges[..|edges| - 1], x) + (if e.from == x then [e.to] else [])
  }

  /** The `from` of the last edge into `y`. */
  function ParentOf(edges: seq<Edge>, y: int): Option<int> {
    if edges == [] then None
    else
      var e := edges[|edges| - 1];
      if e.to == y then Some(e.from) else ParentOf(edges[..|edges| - 1], y)
  }

  /**
   * The weight of the last edge into `y`, but only when `y` already had an
   * entry when that edge was processed: an edge that creates `y`'s entry as
   * a `to` leaves its weight unset.
   */
  function WeightOf(edges: seq<Edge>, y: int): Option<real> {
    if edges == [] then None
    else
      var e := edges[|edges| - 1];
      var init := edges[..|edges| - 1];
      if e.to == y then
        if y in Endpoints(init) || e.from == y then Some(e.weight) else None
      else WeightOf(init, y)
  }

  /** The `id` property: set only on an entry first created as a `to`. */
  function IdOf(edges: seq<Edge>, y: int): Option<int> {
    if edges == [] then None
    else
      var e := edges[|edges| - 1];
      var init := edges[..|edges| - 1];
      if y in Endpoints(init) then IdOf(init, y)
      else if e.from == y then None
      else if e.to == y then Some(y)
      else None
  }

  function Expected(edges: seq<Edge>, y: int): NodeEntry {
    NodeEntry(ParentOf(edges, y), WeightOf(edges, y), IdOf(edges, y), ChildrenOf(edges, y))
  }

  /** The `node_list` the edge loop produces from `edges`: one entry per endpoint. */
  function NodeList(edges: seq<Edge>): map<int, NodeEntry> {
    map y | y in Endpoints(edges) :: Expected(edges, y)
  }

  /** One iteration of the edge loop, as a function of the entries before it. */
  function AddEdge(nl: map<int, NodeEntry>, e: Edge): map<int, NodeEntry> {
    var withFrom :=
      if e.from in nl then nl[e.from := nl[e.from].(children := nl[e.from].children + [e.to])]
      else nl[e.from := NodeEntry(None, None, None, [e.to])];
    if e.to in withFrom then withFrom[e.to := withFrom[e.to].(parent := Some(e.from), weight := Some(e.weight))]
    else withFrom[e.to := NodeEntry(Some(e.from), None, Some(e.to), [])]
  }

  /** An id no edge mentions has no parent, weight, id or children. */
  lemma {:induction false} UnmentionedId(edges: seq<Edge>, y: int)
    requires y !in Endpoints(edges)
    ensures Expected(edges, y) == NodeEntry(None, None, None, [])
  {
    if edges != [] {
      UnmentionedId(edges[..|edges| - 1], y);
    }
  }

  lemma {:induction false} AddEdgeStep(edges: seq<Edge>, e: Edge)
    ensures AddEdge(NodeList(edges), e) == NodeList(edges + [e])
  {
    var edges' := edges + [e];
    assert edges'[..|edges'| - 1] == edges;
    var nl := NodeList(edges);
    var nl' := AddEdge(nl, e);
    assert nl'.Keys == NodeList(edges').Keys;
    forall y | y in nl' ensures nl'[y] == Expected(edges', y) {
      if y !in nl {
        UnmentionedId(edges, y);
      }
    }
  }

  /**
   * The edge loop. `length` counts the entries it creates, so it equals the
   * number of distinct ids among the edges' endpoints.
   */
  method BuildNodeList(edges: seq<Edge>) returns (nodes: map<int, NodeEntry>, length: nat)
    ensures nodes == NodeList(edges)
    ensures length == |Endpoints(edges)|
  {
    nodes := map[];
    length := 0;
    var i := 0;
    assert edges[..0] == [];
    while i < |edges|
      invariant 0 <= i <= |edges|
      invariant nodes == NodeList(edges[..i])
      invariant length == |nodes|
    {
      var e := edges[i];
      ghost var before := nodes;
      if e.from in nodes {
        nodes := nodes[e.from := nodes[e.from].(children := nodes[e.from].children + [e.to])];
      } else {
        nodes := nodes[e.from := NodeEntry(None, None, None, [e.to])];
        length := length + 1;
      }
      if e.to in nodes {
        nodes := nodes[e.to := nodes[e.to].(parent := Some(e.from), weight := Some(e.weight))];
      } else {
        nodes := nodes[e.to := NodeEntry(Some(e.from), None, Some(e.to), [])];
        length := length + 1;
      }
      assert nodes == AddEdge(before, e);
      AddEdgeStep(edges[..i], e);
      assert edges[..i + 1] == edges[..i] + [e];
      i := i + 1;
    }
    assert edges[..i] == edges;
    NodeListSize(edges);
  }

  lemma NodeListSize(edges: seq<Edge>)
    ensures |NodeList(edges)| == |Endpoints(edges)|
  {
    assert NodeList(edges).Keys == Endpoints(edges);
  }

  // ---------------------------------------------------------------------
  // The per-node characterisation, restated against the edge list itself.
  // ---------------------------------------------------------------------

  /** An id has an entry exactly when some edge starts or ends at it. */
  lemma {:induction false} EndpointsAreEdgeEnds(edges: seq<Edge>, y: int)
    ensures y in Endpoints(edges) <==> exists k :: 0 <= k < |edges| && (edges[k].from == y || edges[k].to == y)
  {
    if edges != [] {
      var init := edges[..|edges| - 1];
      EndpointsAreEdgeEnds(init, y);
      if y in Endpoints(init) {
        var k :| 0 <= k < |init| && (init[k].from == y || init[k].to == y);
        assert edges[k] == init[k];
      }
      if exists k :: 0 <= k < |edges| && (edges[k].from == y || edges[k].to == y) {
        var k :| 0 <= k < |edges| && (edges[k].from == y || edges[k].to == y);
        if k < |init| {
          assert init[k] == edges[k];
        }
      }
    }
  }

  /**
   * The parent of `y` is the `from` of the last edge into `y`; its weight is
   * that edge's weight when `y` was already an endpoint of an earlier edge
   * (or the edge is a self-loop), and unset otherwise.
   */
  lemma {:induction false} ParentAndWeightFromLastEdge(edges: seq<Edge>, y: int)
    ensures LastIndexOf(edges, EdgeTo, y).None? ==> ParentOf(edges, y).None? && WeightOf(edges, y).None?
    ensures LastIndexOf(edges, EdgeTo, y).Some? ==>
      var k := LastIndexOf(edges, EdgeTo, y).value;
      && ParentOf(edges, y) == Some(edges[k].from)
      && WeightOf(edges, y) == if y in Endpoints(edges[..k]) || edges[k].from == y then Some(edges[k].weight) else None
  {
    if edges != [] {
      var init := edges[..|edges| - 1];
      ParentAndWeightFromLastEdge(init, y);
      if edges[|edges| - 1].to != y {
        assert LastIndexOf(edges, EdgeTo, y) == LastIndexOf(init, EdgeTo, y);
        if LastIndexOf(init, EdgeTo, y).Some? {
          var k := LastIndexOf(init, EdgeTo, y).value;
          assert init[..k] == edges[..k];
        }
      }
    }
  }

  /** A child listed in the edge list is itself an endpoint. */
  lemma {:induction false} ChildrenAreEndpoints(edges: seq<Edge>, x: int, c: int)
    requires c in ChildrenOf(edges, x)
    ensures c in Endpoints(edges)
  {
    var init := edges[..|edges| - 1];
    if c !in ChildrenOf(init, x) {
      assert c == edges[|edges| - 1].to;
    } else {
      ChildrenAreEndpoints(init, x, c);
    }
  }

  /** Every child id in a built `node_list` has an entry of its own. */
  lemma ChildrenHaveEntries(edges: seq<Edge>)
    ensures var nl := NodeList(edges);
      forall x, c :: x in nl && c in nl[x].children ==> c in nl
  {
    var nl := NodeList(edges);
    forall x, c | x in nl && c in nl[x].children ensures c in nl {
      ChildrenAreEndpoints(edges, x, c);
    }
  }

  // ---------------------------------------------------------------------
  // treeBuilder
  // ---------------------------------------------------------------------

  /**
   * `treeBuilder(id)`: the node's name and weight, then one subtree per
   * entry of its `children`, in order. `depth` is how many further nested
   * calls the engine's stack allows; running out is a RangeError. A missing
   * entry makes `node_list[id].weight` a TypeError.
   */
  function TreeBuilder(nl: map<int, NodeEntry>, names: map<int, string>, id: int, depth: nat): (r: Result<Tree, JsError>)
    ensures r.Ok? ==> depth > 0 && id in nl
    ensures r.Ok? ==> r.value.name == Lookup(names, id) && r.value.weight == nl[id].weight
    ensures r.Ok? ==> BuildAll(nl, names, [], nl[id].children, depth - 1) == Ok(r.value.children)
    decreases depth, 0
  {
    if depth == 0 then Err(RangeError)
    else if id !in nl then Err(TypeError)
    else
      var kids :- BuildAll(nl, names, [], nl[id].children, depth - 1);
      Ok(Tree(Lookup(names, id), nl[id].weight, kids))
  }

  /** The children loop: `done` followed by one subtree per id, stopping at the first exception. */
  function BuildAll(nl: map<int, NodeEntry>, names: map<int, string>, done: seq<Tree>, ids: seq<int>, depth: nat)
    : (r: Result<seq<Tree>, JsError>)
    ensures r.Ok? ==> |r.value| == |done| + |ids| && r.value[..|done|] == done
    decreases depth, |ids| + 1
  {
    if ids == [] then Ok(done)
    else
      var t :- TreeBuilder(nl, names, ids[0], depth);
      var r := BuildAll(nl, names, done + [t], ids[1..], depth);
      if r.Err? then r
      else
        assert r.value[..|done|] == r.value[..|done| + 1][..|done|];
        r
  }

  /** A finished children loop holds, after `done`, the subtree of each id in turn. */
  lemma {:induction false} BuildAllYields(nl: map<int, NodeEntry>, names: map<int, string>, done: seq<Tree>, ids: seq<int>, depth: nat)
    ensures var r := BuildAll(nl, names, done, ids, depth);
            r.Ok? ==> forall k :: 0 <= k < |ids| ==> TreeBuilder(nl, names, ids[k], depth) == Ok(r.value[|done| + k])
    decreases |ids|
  {
    var r := BuildAll(nl, names, done, ids, depth);
    if ids != [] && r.Ok? {
      var t := TreeBuilder(nl, names, ids[0], depth).value;
      BuildAllYields(nl, names, done + [t], ids[1..], depth);
      forall k | 0 <= k < |ids| ensures TreeBuilder(nl, names, ids[k], depth) == Ok(r.value[|done| + k]) {
        if k == 0 {
          assert r.value[..|done| + 1] == done + [t];
          assert r.value[|done|] == r.value[..|done| + 1][|done|];
        } else {
          assert ids[k] == ids[1..][k - 1];
        }
      }
    }
  }

  /**
   * A cycle makes `treeBuilder` recurse until the stack runs out: if every
   * node of `loop` has a child in `loop`, no node of `loop` ever yields a
   * tree, whatever stack depth the engine allows.
   */
  lemma {:induction false} CycleNeverFinishes(nl: map<int, NodeEntry>, names: map<int, string>, loop: set<int>, id: int, depth: nat)
    requires id in loop
    requires forall x :: x in loop ==> x in nl && exists c :: c in nl[x].children && c in loop
    ensures TreeBuilder(nl, names, id, depth).Err?
    decreases depth
  {
    var r := TreeBuilder(nl, names, id, depth);
    if r.Ok? {
      var c :| c in nl[id].children && c in loop;
      var k :| 0 <= k < |nl[id].children| && nl[id].children[k] == c;
      BuildAllYields(nl, names, [], nl[id].children, depth - 1);
      assert TreeBuilder(nl, names, c, depth - 1).Ok?;
      CycleNeverFinishes(nl, names, loop, c, depth - 1);
    }
  }

  /** Every child has an entry and a strictly smaller rank: no cycle is reachable. */
  predicate Ranked(nl: map<int, NodeEntry>, rank: map<int, nat>) {
    && (forall x :: x in nl ==> x in rank)
    && (forall x, k :: x in nl && 0 <= k < |nl[x].children| ==>
          var c := nl[x].children[k]; c in nl && c in rank && rank[c] < rank[x])
  }

  /**
   * Without a cycle, `treeBuilder` finishes once the stack allows more
   * nested calls than the node's rank.
   */
  lemma {:induction false} RankedFinishes(nl: map<int, NodeEntry>, names: map<int, string>, rank: map<int, nat>, id: int, depth: nat)
    requires Ranked(nl, rank) && id in nl && rank[id] < depth
    ensures TreeBuilder(nl, names, id, depth).Ok?
    decreases depth, 0
  {
    var ids := nl[id].children;
    RankedChildrenFinish(nl, names, rank, [], ids, depth - 1, rank[id]);
  }

  lemma {:induction false} RankedChildrenFinish(nl: map<int, NodeEntry>, names: map<int, string>, rank: map<int, nat>,
                                                done: seq<Tree>, ids: seq<int>, depth: nat, bound: nat)
    requires Ranked(nl, rank) && bound <= depth
    requires forall k :: 0 <= k < |ids| ==> ids[k] in nl && ids[k] in rank && rank[ids[k]] < bound
    ensures BuildAll(nl, names, done, ids, depth).Ok?
    decreases depth, |ids| + 1
  {
    if ids != [] {
      RankedFinishes(nl, names, rank, ids[0], depth);
      var t := TreeBuilder(nl, names, ids[0], depth).value;
      forall k | 0 <= k < |ids| - 1 ensures ids[1..][k] == ids[k + 1] { }
      RankedChildrenFinish(nl, names, rank, done + [t], ids[1..], depth, bound);
    }
  }

  // ---------------------------------------------------------------------
  // The root scan
  // ---------------------------------------------------------------------

  /**
   * The scan over `0 .. length-1` stops at `i`: every earlier index has an
   * entry with a parent, and `i` has no entry or no parent.
   */
  predicate StopsAt(nl: map<int, NodeEntry>, length: nat, i: int) {
    && 0 <= i < length
    && (i !in nl || nl[i].parent.None?)
    && forall k :: 0 <= k < i ==> k in nl && nl[k].parent.Some?
  }

  /**
   * What the intended root scan yields: no root when every index has an entry
   * with a parent; otherwise, at the index where it stops, the root built from
   * that entry's children or the exception that stopped it.
   */
  ghost predicate ScanDescribes(nl: map<int, NodeEntry>, length: nat, names: map<int, string>, depth: nat, r: ScanResult) {
    && (r.NoRoot? <==> forall k :: 0 <= k < length ==> k in nl && nl[k].parent.Some?)
    && (r.Root? ==> exists i :: (StopsAt(nl, length, i) && i in nl
                                 && r.tree == Tree(Lookup(names, i), None, r.tree.children)
                                 && BuildAll(nl, names, [], nl[i].children, depth) == Ok(r.tree.children)))
    && (r.Fault? ==> exists i :: (StopsAt(nl, length, i)
                                  && if i in nl then BuildAll(nl, names, [], nl[i].children, depth) == Err(r.error)
                                     else r.error == TypeError))
  }

  /** The scan stops at one index at most. */
  lemma StopsAtUnique(nl: map<int, NodeEntry>, length: nat, i: int, j: int)
    requires StopsAt(nl, length, i) && StopsAt(nl, length, j)
    ensures i == j
  {
  }

  /** The description above leaves no choice: it fixes the outcome of the scan. */
  lemma ScanDescribesUnique(nl: map<int, NodeEntry>, length: nat, names: map<int, string>, depth: nat, r1: ScanResult, r2: ScanResult)
    requires ScanDescribes(nl, length, names, depth, r1) && ScanDescribes(nl, length, names, depth, r2)
    ensures r1 == r2
  {
    if r1.Root? && r2.Root? {
      var i :| StopsAt(nl, length, i) && i in nl
               && r1.tree == Tree(Lookup(names, i), None, r1.tree.children)
               && BuildAll(nl, names, [], nl[i].children, depth) == Ok(r1.tree.children);
      var j :| StopsAt(nl, length, j) && j in nl
               && r2.tree == Tree(Lookup(names, j), None, r2.tree.children)
               && BuildAll(nl, names, [], nl[j].children, depth) == Ok(r2.tree.children);
      StopsAtUnique(nl, length, i, j);
    } else if r1.Root? && r2.Fault? {
      var i :| StopsAt(nl, length, i) && i in nl && BuildAll(nl, names, [], nl[i].children, depth).Ok?;
      var j :| StopsAt(nl, length, j) && if j in nl then BuildAll(nl, names, [], nl[j].children, depth) == Err(r2.error)
                                         else r2.error == TypeError;
      StopsAtUnique(nl, length, i, j);
    } else if r1.Fault? && r2.Root? {
      var i :| StopsAt(nl, length, i) && i in nl && BuildAll(nl, names, [], nl[i].children, depth).Ok?;
      var j :| StopsAt(nl, length, j) && if j in nl then BuildAll(nl, names, [], nl[j].children, depth) == Err(r1.error)
                                         else r1.error == TypeError;
      StopsAtUnique(nl, length, i, j);
    } else if r1.Fault? && r2.Fault? {
      var i :| StopsAt(nl, length, i) && if i in nl then BuildAll(nl, names, [], nl[i].children, depth) == Err(r1.error)
                                         else r1.error == TypeError;
      var j :| StopsAt(nl, length, j) && if j in nl then BuildAll(nl, names, [], nl[j].children, depth) == Err(r2.error)
                                         else r2.error == TypeError;
      StopsAtUnique(nl, length, i, j);
    }
  }

  /**
   * The root scan as its comment describes it: the first index without a
   * parent becomes the root, named after that id, with no weight, and with
   * one subtree per entry of its `children`. An index without an entry is a
   * TypeError (`node_list[i].parent` on `undefined`); an exception from a
   * subtree propagates.
   */
  method RootScan(nl: map<int, NodeEntry>, length: nat, names: map<int, string>, depth: nat) returns (r: ScanResult)
    ensures ScanDescribes(nl, length, names, depth, r)
  {
    var i := 0;
    while i < length
      invariant 0 <= i <= length
      invariant forall k :: 0 <= k < i ==> k in nl && nl[k].parent.Some?
    {
      if i !in nl {
        assert StopsAt(nl, length, i);
        return Fault(TypeError);
      }
      if nl[i].parent.None? {
        assert StopsAt(nl, length, i);
        var children := nl[i].children;
        var kids: seq<Tree> := [];
        var j := 0;
        while j < |children|
          invariant 0 <= j <= |children|
          invariant BuildAll(nl, names, [], children, depth) == BuildAll(nl, names, kids, children[j..], depth)
        {
          assert children[j..][1..] == children[j + 1..];
          var t := TreeBuilder(nl, names, children[j], depth);
          if t.Err? {
            return Fault(t.error);
          }
          kids := kids + [t.value];
          j := j + 1;
        }
        return Root(Tree(Lookup(names, i), None, kids));
      }
      i := i + 1;
    }
    return NoRoot;
  }

  /** The ids from `k` upwards that have an entry. */
  function KeysFrom(nl: map<int, NodeEntry>, k: int): set<int> {
    set x | x in nl.Keys && x >= k
  }

  /**
   * The children loop of the root scan as `util.js` and `story_wheel.js`
   * write it: the loop bumps `i` instead of `j`, so with `j` stuck at 0 it
   * collects the FIRST child of the root, then the first child of index
   * root+1, root+2, ..., until an index whose entry has no children; an
   * index without an entry is a TypeError.
   */
  function AsWrittenRootChildren(nl: map<int, NodeEntry>, names: map<int, string>, done: seq<Tree>, k: int, depth: nat)
    : (r: Result<seq<Tree>, JsError>)
    ensures r.Ok? ==> |r.value| >= |done| && r.value[..|done|] == done
    decreases KeysFrom(nl, k)
  {
    if k !in nl then Err(TypeError)
    else if |nl[k].children| == 0 then Ok(done)
    else
      var t :- TreeBuilder(nl, names, nl[k].children[0], depth);
      assert k in KeysFrom(nl, k) && k !in KeysFrom(nl, k + 1);
      var r := AsWrittenRootChildren(nl, names, done + [t], k + 1, depth);
      assert r.Ok? ==> r.value[..|done|] == (done + [t])[..|done|];
      r
  }

  /** Entry x of the node list has children and t is the tree of its first child. */
  predicate FirstChildTree(nl: map<int, NodeEntry>, names: map<int, string>, x: int, depth: nat, t: Tree)
  {
    x in nl && |nl[x].children| > 0 && TreeBuilder(nl, names, nl[x].children[0], depth) == Ok(t)
  }

  /** The m-th subtree the loop as written adds is the tree of the first child of index k + m. */
  lemma {:induction false} AsWrittenTakesFirstChildren(nl: map<int, NodeEntry>, names: map<int, string>, done: seq<Tree>, k: int, depth: nat)
    ensures var r := AsWrittenRootChildren(nl, names, done, k, depth);
            r.Ok? ==> forall m :: |done| <= m < |r.value| ==> FirstChildTree(nl, names, k + (m - |done|), depth, r.value[m])
    decreases KeysFrom(nl, k)
  {
    var r := AsWrittenRootChildren(nl, names, done, k, depth);
    if r.Ok? && k in nl && |nl[k].children| > 0 {
      var t := TreeBuilder(nl, names, nl[k].children[0], depth).value;
      var rest := AsWrittenRootChildren(nl, names, done + [t], k + 1, depth);
      assert r == rest;
      assert k in KeysFrom(nl, k) && k !in KeysFrom(nl, k + 1);
      AsWrittenTakesFirstChildren(nl, names, done + [t], k + 1, depth);
      forall m | |done| <= m < |r.value|
        ensures FirstChildTree(nl, names, k + (m - |done|), depth, r.value[m])
      {
        if m == |done| {
          assert rest.value[..|done| + 1] == done + [t];
          assert r.value[m] == rest.value[..|done| + 1][|done|];
        } else {
          assert (k + 1) + (m - |done + [t]|) == k + (m - |done|);
        }
      }
    }
  }

  /** The loop as written stops at the first index from the root on whose entry has no children. */
  lemma {:induction false} AsWrittenStopsAtLeaf(nl: map<int, NodeEntry>, names: map<int, string>, done: seq<Tree>, k: int, depth: nat)
    ensures var r := AsWrittenRootChildren(nl, names, done, k, depth);
            r.Ok? ==> var last := k + (|r.value| - |done|); last in nl && |nl[last].children| == 0
    decreases KeysFrom(nl, k)
  {
    var r := AsWrittenRootChildren(nl, names, done, k, depth);
    if r.Ok? && k in nl && |nl[k].children| > 0 {
      var t := TreeBuilder(nl, names, nl[k].children[0], depth).value;
      assert r == AsWrittenRootChildren(nl, names, done + [t], k + 1, depth);
      assert k in KeysFrom(nl, k) && k !in KeysFrom(nl, k + 1);
      AsWrittenStopsAtLeaf(nl, names, done + [t], k + 1, depth);
    }
  }

  /**
   * Root 0 with two children, 1 and 2: the loop as written gives the root
   * only its first child and stops at node 1, which has no children; the
   * intended loop gives it both.
   */
  lemma AsWrittenDropsSiblings(w1: real, w2: real)
    ensures
      var edges := [Edge(0, 1, w1), Edge(0, 2, w2)];
      var nl := map[0 := NodeEntry(None, None, None, [1, 2]),
                    1 := NodeEntry(Some(0), None, Some(1), []),
                    2 := NodeEntry(Some(0), None, Some(2), [])];
      var names := map[0 := "root", 1 := "a", 2 := "b"];
      && NodeList(edges) == nl
      && AsWrittenRootChildren(nl, names, [], 0, 2) == Ok([Tree(Some("a"), None, [])])
      && BuildAll(nl, names, [], nl[0].children, 2) == Ok([Tree(Some("a"), None, []), Tree(Some("b"), None, [])])
  {
    var e1, e2 := Edge(0, 1, w1), Edge(0, 2, w2);
    var edges := [e1, e2];
    assert edges[..1] == [e1];
    assert [e1][..0] == [];
    assert Endpoints([e1]) == {0, 1};
    assert Endpoints(edges) == {0, 1, 2};
    assert WeightOf([e1], 0) == WeightOf([e1][..0], 0) == WeightOf([], 0) == None;
    assert ParentOf([e1], 0) == None && WeightOf([e1], 0) == None;
    assert IdOf([e1], 0) == None && ChildrenOf([e1], 0) == [1];
    assert ParentOf([e1], 1) == Some(0) && WeightOf([e1], 1) == None;
    assert IdOf([e1], 1) == Some(1) && ChildrenOf([e1], 1) == [];
    assert Expected([e1], 0) == NodeEntry(None, None, None, [1]);
    assert Expected([e1], 1) == NodeEntry(Some(0), None, Some(1), []);
    var nl := map[0 := NodeEntry(None, None, None, [1, 2]),
                  1 := NodeEntry(Some(0), None, Some(1), []),
                  2 := NodeEntry(Some(0), None, Some(2), [])];
    assert Expected(edges, 0) == nl[0];
    assert Expected(edges, 1) == nl[1];
    assert edges[..|edges| - 1] == [e1];
    assert WeightOf(edges, 2) == if 2 in Endpoints([e1]) || 0 == 2 then Some(w2) else None;
    assert IdOf(edges, 2) == if 2 in Endpoints([e1]) then IdOf([e1], 2) else Some(2);
    assert ChildrenOf([e1], 2) == [] && WeightOf(edges, 2) == None && IdOf(edges, 2) == Some(2);
    assert Expected(edges, 2) == nl[2];
    assert NodeList(edges) == nl;
    var names := map[0 := "root", 1 := "a", 2 := "b"];
    var a := Tree(Some("a"), None, []);
    var b := Tree(Some("b"), None, []);
    assert BuildAll(nl, names, [], [], 1) == Ok([]);
    assert TreeBuilder(nl, names, 1, 2) == Ok(a);
    assert TreeBuilder(nl, names, 2, 2) == Ok(b);
    assert AsWrittenRootChildren(nl, names, [a], 1, 2) == Ok([a]);
    assert AsWrittenRootChildren(nl, names, [], 0, 2) == Ok([a]);
    assert [1, 2][1..] == [2];
    assert [2][1..] == [] && [a] + [b] == [a, b];
    assert BuildAll(nl, names, [a, b], [], 2) == Ok([a, b]);
    assert BuildAll(nl, names, [a], [2], 2) == Ok([a, b]);
  }
}
