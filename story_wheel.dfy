/**
 * The data half of the `StoryWheel` constructor in `story_wheel.js`: the
 * same `node_list` loop as `util.js` over `iprom`, then the root scan. The
 * file never declares `wordNamesForId`, so the first read of it, when the
 * scan reaches a parentless index, is a ReferenceError; no tree is built.
 */
module StoryWheel {
  import opened Common
  import opened InverseProminence

  /**
   * The outcome of this file's scan: no root when every index has an entry
   * with a parent; otherwise it stops at the first index without one and
   * faults there, a TypeError when the index has no entry and a
   * ReferenceError when the entry lacks a parent.
   */
  ghost predicate StoryScanDescribes(nl: map<int, NodeEntry>, length: nat, r: ScanResult) {
    && !r.Root?
    && (r.NoRoot? <==> forall k :: 0 <= k < length ==> k in nl && nl[k].parent.Some?)
    && (r.Fault? ==> exists i :: (StopsAt(nl, length, i) && r.error == if i in nl then ReferenceError else TypeError))
  }

  /** The scan loop of lines 70-83, as written. */
  method StoryScan(nl: map<int, NodeEntry>, length: nat) returns (r: ScanResult)
    ensures StoryScanDescribes(nl, length, r)
  {
    var i := 0;
    while i < length
      invariant 0 <= i <= length
      invariant forall k :: 0 <= k < i ==> k in nl && nl[k].parent.Some?
    {
      if i !in nl {
        assert StopsAt(nl, length, i);
        return Fault(TypeError);
      }
      if nl[i].parent.None? {
        assert StopsAt(nl, length, i);
        return Fault(ReferenceError);
      }
      i := i + 1;
    }
    return NoRoot;
  }

  /** The constructor's data steps: the `node_list` of `iprom`, then the scan. */
  method BuildStoryTree(iprom: seq<Edge>) returns (r: ScanResult)
    ensures StoryScanDescribes(NodeList(iprom), |Endpoints(iprom)|, r)
  {
    var nodes, length := BuildNodeList(iprom);
    r := StoryScan(nodes, length);
  }

  /**
   * Wherever the intended scan would build a root, this file's scan throws
   * a ReferenceError instead, whatever names and stack depth are available.
   */
  lemma StoryWheelLosesEveryRoot(nl: map<int, NodeEntry>, length: nat, names: map<int, string>, depth: nat,
                                 intended: ScanResult, asWritten: ScanResult)
    ensures ScanDescribes(nl, length, names, depth, intended) && StoryScanDescribes(nl, length, asWritten) ==>
              && (intended.Root? ==> asWritten == Fault(ReferenceError))
              && (intended.NoRoot? <==> asWritten.NoRoot?)
  {
    if ScanDescribes(nl, length, names, depth, intended) && StoryScanDescribes(nl, length, asWritten) && intended.Root? {
      var i :| StopsAt(nl, length, i) && i in nl
               && intended.tree == Tree(Lookup(names, i), None, intended.tree.children)
               && BuildAll(nl, names, [], nl[i].children, depth) == Ok(intended.tree.children);
      if asWritten.Fault? {
        var j :| StopsAt(nl, length, j) && asWritten.error == if j in nl then ReferenceError else TypeError;
        StopsAtUnique(nl, length, i, j);
      }
    }
  }

  /**
   * One edge from 0 to 1: the intended scan makes 0 the root with the single
   * child 1, while the story wheel's constructor throws.
   */
  lemma StoryWheelFaultsOnOneEdge(w: real, names: map<int, string>, r: ScanResult)
    ensures StoryScanDescribes(NodeList([Edge(0, 1, w)]), |Endpoints([Edge(0, 1, w)])|, r) ==> r == Fault(ReferenceError)
    ensures ScanDescribes(NodeList([Edge(0, 1, w)]), |Endpoints([Edge(0, 1, w)])|, names, 2,
                          Root(Tree(Lookup(names, 0), None, [Tree(Lookup(names, 1), None, [])])))
  {
    var e := Edge(0, 1, w);
    assert [e][..0] == [];
    assert Endpoints([e]) == {0, 1};
    var nl := NodeList([e]);
    assert ParentOf([e], 0) == ParentOf([], 0) == None;
    assert ChildrenOf([e], 0) == ChildrenOf([], 0) + [1] == [1];
    assert ParentOf([e], 1) == Some(0);
    assert ChildrenOf([e], 1) == ChildrenOf([], 1) + [] == [];
    assert WeightOf([e], 1) == WeightOf([e][..0], 1) == WeightOf([], 1) == None;
    assert StopsAt(nl, 2, 0);
    var leaf := Tree(Lookup(names, 1), None, []);
    assert BuildAll(nl, names, [], [], 1) == Ok([]);
    assert TreeBuilder(nl, names, 1, 2) == Ok(leaf);
    assert [1][1..] == [];
    assert BuildAll(nl, names, [leaf], [], 2) == Ok([leaf]);
    assert BuildAll(nl, names, [], [1], 2) == Ok([leaf]);
    if StoryScanDescribes(nl, 2, r) && r.Fault? {
      var j :| StopsAt(nl, 2, j) && r.error == if j in nl then ReferenceError else TypeError;
      StopsAtUnique(nl, 2, 0, j);
    }
  }
}
