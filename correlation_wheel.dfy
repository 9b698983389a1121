/**
 * The data side of `tib.vis.CorrelationWheel` in `correlation_wheel.js`: the
 * constructor's settings, `initData` (the node list with `related`
 * entries), `calcLinks` (one link per related pair, strongest first, cut to
 * `numLinks`) and `calcArcs` (one arc per theme, in degrees). The positions
 * `x` that `calcArcs` reads come from the d3 cluster layout, which is not
 * part of this model; they are an input.
 */
module CorrelationWheel {
  import opened Common
  import opened Payload
  import opened Sorting

  /** The options object handed to the constructor; an absent option is `None`. */
  datatype Config = Config(
    width: Option<real>,
    height: Option<real>,
    drawTarget: Option<string>,
    arcWidth: Option<int>,
    arcPadding: Option<int>,
    numLinks: Option<int>)

  /**
   * A `related` entry of a node: `key` is `parseInt(r.id, 10)` (`None` for
   * NaN), `name` is `wordNamesForId[r.id]` (`None` for `undefined`).
   */
  datatype RelatedEntry = RelatedEntry(key: Option<int>, name: Option<string>, strength: string, count: string, prom: string)

  /** A node of the wheel; `themeId` is `parseInt(w.themeId, 10)`. */
  datatype Node = Node(name: string, key: int, themeId: Option<int>, weight: real, related: seq<RelatedEntry>)

  /** A link between two nodes; `target` is `None` when the related name has no node. */
  datatype Link = Link(source: Node, target: Option<Node>, prom: string, strength: string, count: string)

  // ---------------------------------------------------------------------
  // initData
  // ---------------------------------------------------------------------

  /** The property key under which a concept's name is stored: its id in decimal. */
  function ConceptKey(c: Concept): string { DecimalKey(c.id) }

  /** `wordNamesForId`: each concept's value under its id, a later concept overwriting an earlier one. */
  function WordNames(concepts: seq<Concept>): map<string, string> {
    IndexBy(concepts, ConceptKey, ConceptValue)
  }

  /** A concept without `related` is iterated as having none. */
  function RelatedItems(c: Concept): seq<RelatedItem> {
    match c.related
    case None => []
    case Some(items) => items
  }

  /** What `initData` promises about the node list it builds from `concepts`. */
  ghost predicate InitDataResult(concepts: seq<Concept>, parseInt: string -> Option<int>, nodes: seq<Node>) {
    && |nodes| == |concepts|
    && (forall k :: 0 <= k < |concepts| ==>
          && nodes[k].name == concepts[k].value
          && nodes[k].key == concepts[k].id
          && nodes[k].themeId == parseInt(concepts[k].themeId)
          && nodes[k].weight == concepts[k].weight
          && |nodes[k].related| == |RelatedItems(concepts[k])|)
    && (forall k, j :: 0 <= k < |concepts| && 0 <= j < |nodes[k].related| ==>
          var item := RelatedItems(concepts[k])[j];
          nodes[k].related[j]
          == RelatedEntry(parseInt(item.id), Lookup(WordNames(concepts), item.id), item.strength, item.count, item.prom))
  }

  /**
   * `initData`: first every concept's name under its id, then one node per
   * concept, in order, each with one entry per related item, in order,
   * named by looking the item's id up among the concepts.
   */
  method InitData(concepts: seq<Concept>, parseInt: string -> Option<int>) returns (nodes: seq<Node>)
    ensures InitDataResult(concepts, parseInt, nodes)
  {
    var names: map<string, string> := map[];
    var i := 0;
    while i < |concepts|
      invariant 0 <= i <= |concepts|
      invariant names == WordNames(concepts[..i])
    {
      assert concepts[..i + 1][..i] == concepts[..i];
      names := names[DecimalKey(concepts[i].id) := concepts[i].value];
      i := i + 1;
    }
    assert concepts[..i] == concepts;
    nodes := [];
    i := 0;
    while i < |concepts|
      invariant 0 <= i <= |concepts|
      invariant |nodes| == i
      invariant forall k :: 0 <= k < i ==> nodes[k] == NodeFor(concepts[k], names, parseInt)
    {
      var w := concepts[i];
      var related := RelatedEntries(RelatedItems(w), names, parseInt);
      nodes := nodes + [Node(w.value, w.id, parseInt(w.themeId), w.weight, related)];
      i := i + 1;
    }
  }

  /** The entry lines 43-49 push for related item `r`. */
  function EntryFor(r: RelatedItem, names: map<string, string>, parseInt: string -> Option<int>): RelatedEntry {
    RelatedEntry(parseInt(r.id), Lookup(names, r.id), r.strength, r.count, r.prom)
  }

  /**
   * The node lines 38-53 push for concept `w`. The `key` is the id itself:
   * `parseInt(w.id, 10)` of an integer id below 1e21 gives that id back.
   */
  function NodeFor(w: Concept, names: map<string, string>, parseInt: string -> Option<int>): Node {
    var items := RelatedItems(w);
    Node(w.value, w.id, parseInt(w.themeId), w.weight,
         seq(|items|, m requires 0 <= m < |items| => EntryFor(items[m], names, parseInt)))
  }

  /** Lines 42-50: one entry per related item, in order. */
  method RelatedEntries(items: seq<RelatedItem>, names: map<string, string>, parseInt: string -> Option<int>)
    returns (related: seq<RelatedEntry>)
    ensures |related| == |items|
    ensures forall m :: 0 <= m < |items| ==> related[m] == EntryFor(items[m], names, parseInt)
  {
    related := [];
    var j := 0;
    while j < |items|
      invariant 0 <= j <= |items|
      invariant |related| == j
      invariant forall m :: 0 <= m < j ==> related[m] == EntryFor(items[m], names, parseInt)
    {
      var r := items[j];
      related := related + [RelatedEntry(parseInt(r.id), Lookup(names, r.id), r.strength, r.count, r.prom)];
      j := j + 1;
    }
  }

  /**
   * `wordNamesForId` maps every concept's id to a value: the value of the
   * last concept with that id.
   */
  lemma WordNamesCoverConcepts(concepts: seq<Concept>, k: nat)
    requires k < |concepts|
    ensures ConceptKey(concepts[k]) in WordNames(concepts)
    ensures LastWith(concepts, ConceptKey, ConceptKey(concepts[k])).Some?
    ensures WordNames(concepts)[ConceptKey(concepts[k])]
            == LastWith(concepts, ConceptKey, ConceptKey(concepts[k])).value.value
  {
    IndexByLastWins(concepts, ConceptKey, ConceptValue, ConceptKey(concepts[k]));
  }

  /** A related item whose id is a concept's id in decimal is named after that concept (the last one with the id). */
  lemma RelatedNameIsConceptValue(concepts: seq<Concept>, item: RelatedItem, k: nat)
    requires k < |concepts| && item.id == DecimalKey(concepts[k].id)
    ensures Lookup(WordNames(concepts), item.id).Some?
    ensures var c := LastWith(concepts, ConceptKey, item.id).value;
            c.id == concepts[k].id && Lookup(WordNames(concepts), item.id) == Some(c.value)
  {
    WordNamesCoverConcepts(concepts, k);
    var c := LastWith(concepts, ConceptKey, item.id).value;
    DecimalKeyInjective(c.id, concepts[k].id);
  }

  // ---------------------------------------------------------------------
  // calcLinks
  // ---------------------------------------------------------------------

  function NodeName(n: Node): string { n.name }

  function NodeItself(n: Node): Node { n }

  /** The `nodeList` object of `calcLinks`: each node under its name, a later node overwriting an earlier one. */
  function ByName(nodes: seq<Node>): map<string, Node> {
    IndexBy(nodes, NodeName, NodeItself)
  }

  lemma {:induction false} ByNameHasEveryNode(nodes: seq<Node>)
    ensures forall k :: 0 <= k < |nodes| ==> nodes[k].name in ByName(nodes)
  {
    forall k | 0 <= k < |nodes| ensures nodes[k].name in ByName(nodes) {
      IndexByLastWins(nodes, NodeName, NodeItself, nodes[k].name);
    }
  }

  /** The link `calcLinks` pushes for related entry `rel` of `node`. */
  function LinkFor(node: Node, rel: RelatedEntry, byName: map<string, Node>): Link
    requires node.name in byName
  {
    Link(byName[node.name], Lookup(byName, JsKey(rel.name)), rel.prom, rel.strength, rel.count)
  }

  function LinkLists(nodes: seq<Node>, byName: map<string, Node>): (r: seq<seq<Link>>)
    requires forall k :: 0 <= k < |nodes| ==> nodes[k].name in byName
    ensures |r| == |nodes|
    ensures forall i :: 0 <= i < |nodes| ==> |r[i]| == |nodes[i].related|
  {
    seq(|nodes|, i requires 0 <= i < |nodes| =>
      seq(|nodes[i].related|, j requires 0 <= j < |nodes[i].related| => LinkFor(nodes[i], nodes[i].related[j], byName)))
  }

  /** The links before sorting: one per (node, related entry) pair, in node order, then entry order. */
  function Candidates(nodes: seq<Node>): seq<Link> {
    ByNameHasEveryNode(nodes);
    Flatten(LinkLists(nodes, ByName(nodes)))
  }

  /** The number of related entries of all nodes. */
  function RelatedCount(nodes: seq<Node>): nat {
    if nodes == [] then 0 else RelatedCount(nodes[..|nodes| - 1]) + |nodes[|nodes| - 1].related|
  }

  /** The key the comparator `b.prom - a.prom` reads, with the string-to-number coercion as `num`. */
  function PromOf(num: string -> real): Link -> real {
    (l: Link) => num(l.prom)
  }

  /** How many elements `splice(0, n)` removes from a list of `len`. */
  function SpliceCount(len: nat, n: int): (r: nat)
    ensures r <= len
    ensures 0 <= n <= len ==> r == n
    ensures n > len ==> r == len
  {
    if n < 0 then 0 else if n > len then len else n
  }

  /** Before sorting there is one link per related entry of every node. */
  lemma {:induction false} CandidatesCount(nodes: seq<Node>, byName: map<string, Node>, i: nat)
    requires forall k :: 0 <= k < |nodes| ==> nodes[k].name in byName
    requires i <= |nodes|
    ensures Offset(LinkLists(nodes, byName), i) == RelatedCount(nodes[..i])
  {
    if i > 0 {
      CandidatesCount(nodes, byName, i - 1);
      assert nodes[..i][..i - 1] == nodes[..i - 1];
    }
  }

  /**
   * The candidate for entry `j` of node `i` comes after the entries of all
   * earlier nodes; its source is the last node with node `i`'s name and its
   * target the last node named by the entry, if any.
   */
  lemma CandidateLayout(nodes: seq<Node>, i: nat, j: nat)
    requires i < |nodes| && j < |nodes[i].related|
    ensures |Candidates(nodes)| == RelatedCount(nodes)
    ensures RelatedCount(nodes[..i]) + j < |Candidates(nodes)|
    ensures var l := Candidates(nodes)[RelatedCount(nodes[..i]) + j];
            var rel := nodes[i].related[j];
            && Some(l.source) == LastWith(nodes, NodeName, nodes[i].name)
            && l.target == LastWith(nodes, NodeName, JsKey(rel.name))
            && l.prom == rel.prom && l.strength == rel.strength && l.count == rel.count
  {
    ByNameHasEveryNode(nodes);
    var byName := ByName(nodes);
    var lists := LinkLists(nodes, byName);
    assert Candidates(nodes) == Flatten(lists);
    FlattenAt(lists, i, j);
    CandidatesCount(nodes, byName, i);
    CandidatesCount(nodes, byName, |nodes|);
    assert nodes[..|nodes|] == nodes;
    var rel := nodes[i].related[j];
    assert Candidates(nodes)[RelatedCount(nodes[..i]) + j] == lists[i][j] == LinkFor(nodes[i], rel, byName);
    IndexByLastWins(nodes, NodeName, NodeItself, nodes[i].name);
    IndexByLastWins(nodes, NodeName, NodeItself, JsKey(rel.name));
  }

  // ---------------------------------------------------------------------
  // calcArcs
  // ---------------------------------------------------------------------

  /** A node as `calcArcs` reads it: its theme index and its angle `x` in degrees. */
  datatype Placed = Placed(themeId: nat, x: real)

  /** A theme arc, in degrees. */
  datatype Arc = Arc(startAngle: real, endAngle: real)

  /** The angles of the nodes of theme `t`, in node order: `sortedNodes[t]`. */
  function Members(nodes: seq<Placed>, t: nat): seq<real> {
    if nodes == [] then []
    else
      var last := nodes[|nodes| - 1];
      Members(nodes[..|nodes| - 1], t) + (if last.themeId == t then [last.x] else [])
  }

  lemma {:induction false} MembersAreThemeAngles(nodes: seq<Placed>, t: nat)
    ensures forall k :: 0 <= k < |nodes| && nodes[k].themeId == t ==> nodes[k].x in Members(nodes, t)
    ensures |Members(nodes, t)| > 0 <==> exists k :: 0 <= k < |nodes| && nodes[k].themeId == t
  {
    if nodes != [] {
      var init := nodes[..|nodes| - 1];
      MembersAreThemeAngles(init, t);
      forall k | 0 <= k < |nodes| && nodes[k].themeId == t ensures nodes[k].x in Members(nodes, t) {
        if k < |init| {
          assert init[k] == nodes[k];
        }
      }
      if exists k :: 0 <= k < |init| && init[k].themeId == t {
        var k :| 0 <= k < |init| && init[k].themeId == t;
        assert nodes[k] == init[k];
      }
    }
  }

  /** The smallest of `s`, found as the loop of lines 161-172 finds it. */
  function SeqMin(s: seq<real>): real
    requires |s| > 0
  {
    if |s| == 1 then s[0]
    else
      var m := SeqMin(s[..|s| - 1]);
      if s[|s| - 1] < m then s[|s| - 1] else m
  }

  function SeqMax(s: seq<real>): real
    requires |s| > 0
  {
    if |s| == 1 then s[0]
    else
      var m := SeqMax(s[..|s| - 1]);
      if s[|s| - 1] > m then s[|s| - 1] else m
  }

  /** The minimum and maximum are elements of `s` and bound every element. */
  lemma {:induction false} SeqExtentBounds(s: seq<real>)
    requires |s| > 0
    ensures SeqMin(s) in s && forall k :: 0 <= k < |s| ==> SeqMin(s) <= s[k]
    ensures SeqMax(s) in s && forall k :: 0 <= k < |s| ==> s[k] <= SeqMax(s)
  {
    if |s| > 1 {
      var init := s[..|s| - 1];
      SeqExtentBounds(init);
      assert forall k :: 0 <= k < |s| - 1 ==> init[k] == s[k];
      assert SeqMin(init) in s && SeqMax(init) in s;
    }
  }

  /** The length of the `sortedNodes` array: one past the largest theme index. */
  function GroupsLength(nodes: seq<Placed>): (r: nat)
    ensures forall k :: 0 <= k < |nodes| ==> nodes[k].themeId < r
  {
    if nodes == [] then 0
    else
      var n := GroupsLength(nodes[..|nodes| - 1]);
      var t := nodes[|nodes| - 1].themeId;
      assert forall k :: 0 <= k < |nodes| - 1 ==> nodes[..|nodes| - 1][k] == nodes[k];
      if t + 1 > n then t + 1 else n
  }

  /** The theme indices below `n` that have nodes, ascending: the order `for (i in sortedNodes)` visits. */
  function Themes(nodes: seq<Placed>, n: nat): seq<nat> {
    if n == 0 then []
    else Themes(nodes, n - 1) + (if |Members(nodes, n - 1)| > 0 then [n - 1] else [])
  }

  /** The arc of theme `t`: from one degree before its smallest angle to one degree past its largest. */
  function ArcOf(nodes: seq<Placed>, t: nat): Arc
    requires |Members(nodes, t)| > 0
  {
    Arc(SeqMin(Members(nodes, t)) - 1.0, SeqMax(Members(nodes, t)) + 1.0)
  }

  /** `groups` holds, under each theme with nodes and nowhere else, that theme's angles. */
  ghost predicate Grouped(groups: map<nat, seq<real>>, nodes: seq<Placed>) {
    forall t: nat :: (t in groups <==> |Members(nodes, t)| > 0) && (t in groups ==> groups[t] == Members(nodes, t))
  }

  /** Appending one node's angle to its theme's group keeps the groups right for one more node. */
  lemma GroupedSnoc(groups: map<nat, seq<real>>, nodes: seq<Placed>, i: nat)
    requires i < |nodes| && Grouped(groups, nodes[..i])
    ensures var t := nodes[i].themeId;
            Grouped(groups[t := (if t in groups then groups[t] else []) + [nodes[i].x]], nodes[..i + 1])
  {
    var s1 := nodes[..i + 1];
    assert s1[..|s1| - 1] == nodes[..i] && s1[|s1| - 1] == nodes[i];
  }

  /** The array length after one more node: one past its theme index if that is larger. */
  lemma GroupsLengthSnoc(nodes: seq<Placed>, i: nat)
    requires i < |nodes|
    ensures GroupsLength(nodes[..i + 1]) == if nodes[i].themeId + 1 > GroupsLength(nodes[..i]) then nodes[i].themeId + 1 else GroupsLength(nodes[..i])
  {
    var s1 := nodes[..i + 1];
    assert s1[..|s1| - 1] == nodes[..i] && s1[|s1| - 1] == nodes[i];
  }

  /** Lines 152-157: the angles grouped by theme index, and the array's length. */
  method GroupByTheme(nodes: seq<Placed>) returns (groups: map<nat, seq<real>>, length: nat)
    ensures length == GroupsLength(nodes)
    ensures forall t :: t in groups <==> |Members(nodes, t)| > 0
    ensures forall t :: t in groups ==> groups[t] == Members(nodes, t)
  {
    groups := map[];
    length := 0;
    var i := 0;
    while i < |nodes|
      invariant 0 <= i <= |nodes|
      invariant length == GroupsLength(nodes[..i])
      invariant Grouped(groups, nodes[..i])
    {
      var node := nodes[i];
      GroupedSnoc(groups, nodes, i);
      GroupsLengthSnoc(nodes, i);
      var group := if node.themeId in groups then groups[node.themeId] else [];
      groups := groups[node.themeId := group + [node.x]];
      if node.themeId + 1 > length {
        length := node.themeId + 1;
      }
      i := i + 1;
    }
    assert nodes[..i] == nodes;
  }

  lemma SeqExtentSnoc(s: seq<real>, x: real)
    requires |s| > 0
    ensures SeqMax(s + [x]) == if x > SeqMax(s) then x else SeqMax(s)
    ensures SeqMin(s + [x]) == if x < SeqMin(s) then x else SeqMin(s)
  {
    assert (s + [x])[..|s|] == s;
  }

  /** Lines 161-172: the largest and smallest angle of a group. */
  method Extent(angles: seq<real>) returns (min: real, max: real)
    requires |angles| > 0
    ensures min == SeqMin(angles) && max == SeqMax(angles)
  {
    max, min := angles[0], angles[0];
    var j := 1;
    assert angles[..1] == [angles[0]];
    while j < |angles|
      invariant 1 <= j <= |angles|
      invariant max == SeqMax(angles[..j]) && min == SeqMin(angles[..j])
    {
      assert angles[..j + 1] == angles[..j] + [angles[j]];
      SeqExtentSnoc(angles[..j], angles[j]);
      var angle := angles[j];
      if angle > max {
        max := angle;
      }
      if angle < min {
        min := angle;
      }
      j := j + 1;
    }
    assert angles[..j] == angles;
  }

  /**
   * `calcArcs`: group the angles by theme in an array indexed by theme,
   * then, for each index present, in ascending order, one arc spanning its
   * angles widened by a degree on each side.
   */
  method CalcArcs(nodes: seq<Placed>) returns (arcs: seq<Arc>)
    ensures var themes := Themes(nodes, GroupsLength(nodes));
            && |arcs| == |themes|
            && forall k :: 0 <= k < |arcs| ==> |Members(nodes, themes[k])| > 0 && arcs[k] == ArcOf(nodes, themes[k])
  {
    var groups, length := GroupByTheme(nodes);
    arcs := [];
    var t := 0;
    while t < length
      invariant 0 <= t <= length
      invariant ArcsMatch(nodes, arcs, Themes(nodes, t))
    {
      arcs := AppendArc(nodes, groups, t, arcs);
      t := t + 1;
    }
  }

  /** `arcs[k]` is the arc of theme `themes[k]`, for every `k`. */
  predicate ArcsMatch(nodes: seq<Placed>, arcs: seq<Arc>, themes: seq<nat>) {
    && |arcs| == |themes|
    && forall k :: 0 <= k < |arcs| ==> |Members(nodes, themes[k])| > 0 && arcs[k] == ArcOf(nodes, themes[k])
  }

  /** One pass of the loop of lines 160-175: the arc of theme `t`, when it has nodes. */
  method AppendArc(nodes: seq<Placed>, groups: map<nat, seq<real>>, t: nat, arcs: seq<Arc>) returns (next: seq<Arc>)
    requires t in groups <==> |Members(nodes, t)| > 0
    requires t in groups ==> groups[t] == Members(nodes, t)
    requires ArcsMatch(nodes, arcs, Themes(nodes, t))
    ensures ArcsMatch(nodes, next, Themes(nodes, t + 1))
  {
    next := arcs;
    if t in groups {
      var min, max := Extent(groups[t]);
      ArcsMatchSnoc(nodes, arcs, Themes(nodes, t), t);
      next := arcs + [Arc(min - 1.0, max + 1.0)];
    }
  }

  lemma ArcsMatchSnoc(nodes: seq<Placed>, arcs: seq<Arc>, themes: seq<nat>, t: nat)
    requires ArcsMatch(nodes, arcs, themes) && |Members(nodes, t)| > 0
    ensures ArcsMatch(nodes, arcs + [ArcOf(nodes, t)], themes + [t])
  {
    var arcs', themes' := arcs + [ArcOf(nodes, t)], themes + [t];
    forall k | 0 <= k < |arcs'|
      ensures |Members(nodes, themes'[k])| > 0 && arcs'[k] == ArcOf(nodes, themes'[k])
    {
      if k < |arcs| {
        assert arcs'[k] == arcs[k] && themes'[k] == themes[k];
      }
    }
  }

  /** Every theme with nodes gets exactly one arc, and the arcs come in ascending theme order. */
  lemma {:induction false} ThemesAreDistinctAscending(nodes: seq<Placed>, n: nat)
    ensures forall a, b :: 0 <= a < b < |Themes(nodes, n)| ==> Themes(nodes, n)[a] < Themes(nodes, n)[b]
    ensures forall k :: 0 <= k < |Themes(nodes, n)| ==> Themes(nodes, n)[k] < n
    ensures forall t: nat :: t < n && |Members(nodes, t)| > 0 <==> t in Themes(nodes, n)
  {
    if n > 0 {
      ThemesAreDistinctAscending(nodes, n - 1);
    }
  }

  /** A node's angle lies strictly inside the arc of its theme. */
  lemma ArcEnclosesMembers(nodes: seq<Placed>, k: nat)
    requires k < |nodes|
    ensures |Members(nodes, nodes[k].themeId)| > 0
    ensures nodes[k].themeId in Themes(nodes, GroupsLength(nodes))
    ensures var arc := ArcOf(nodes, nodes[k].themeId);
            arc.startAngle < nodes[k].x < arc.endAngle
  {
    var t := nodes[k].themeId;
    MembersAreThemeAngles(nodes, t);
    ThemesAreDistinctAscending(nodes, GroupsLength(nodes));
    var xs := Members(nodes, t);
    SeqExtentBounds(xs);
    var m :| 0 <= m < |xs| && xs[m] == nodes[k].x;
  }

  // ---------------------------------------------------------------------
  // The object
  // ---------------------------------------------------------------------

  class CorrelationWheel {
    var width: Option<real>
    var height: Option<real>
    var drawTarget: Option<string>
    var arcWidth: int
    var arcPadding: int
    var numLinks: int
    /** `this.nodes.children`; the wrapping root object named 'blah' carries nothing else. */
    var nodes: seq<Node>

    /**
     * Copy the options, then set the fixed defaults, so that the defaults
     * replace whatever the options said; then add the node list.
     */
    constructor (config: Config, concepts: seq<Concept>, parseInt: string -> Option<int>)
      ensures width == config.width && height == config.height && drawTarget == config.drawTarget
      ensures arcWidth == 20 && arcPadding == 4 && numLinks == 200
      ensures InitDataResult(concepts, parseInt, nodes)
    {
      var built := InitData(concepts, parseInt);
      width, height, drawTarget := config.width, config.height, config.drawTarget;
      if config.arcWidth.Some? {
        arcWidth := config.arcWidth.value;
      }
      if config.arcPadding.Some? {
        arcPadding := config.arcPadding.value;
      }
      if config.numLinks.Some? {
        numLinks := config.numLinks.value;
      }
      arcWidth := 20;
      arcPadding := 4;
      numLinks := 200;
      nodes := built;
    }

    /**
     * `calcLinks`: one link per related entry of every node, sorted by
     * `prom`, largest first, of which the first `numLinks` are kept.
     */
    method CalcLinks(nodes: seq<Node>, num: string -> real) returns (links: seq<Link>)
      ensures |links| == SpliceCount(|Candidates(nodes)|, numLinks)
      ensures links == SortDesc(Candidates(nodes), PromOf(num))[..|links|]
      ensures SortedDesc(links, PromOf(num))
      ensures multiset(links) <= multiset(Candidates(nodes))
    {
      var byName: map<string, Node> := map[];
      var i := 0;
      while i < |nodes|
        invariant 0 <= i <= |nodes|
        invariant byName == ByName(nodes[..i])
      {
        assert nodes[..i + 1][..i] == nodes[..i];
        byName := byName[nodes[i].name := nodes[i]];
        i := i + 1;
      }
      assert nodes[..i] == nodes;
      ByNameHasEveryNode(nodes);
      ghost var lists := LinkLists(nodes, byName);
      links := [];
      i := 0;
      while i < |nodes|
        invariant 0 <= i <= |nodes|
        invariant links == Flatten(lists[..i])
      {
        var node := nodes[i];
        ghost var before := links;
        var j := 0;
        while j < |node.related|
          invariant 0 <= j <= |node.related|
          invariant links == before + lists[i][..j]
        {
          var rel := node.related[j];
          links := links + [Link(byName[node.name], Lookup(byName, JsKey(rel.name)), rel.prom, rel.strength, rel.count)];
          assert lists[i][..j + 1] == lists[i][..j] + [lists[i][j]];
          j := j + 1;
        }
        assert lists[i][..j] == lists[i];
        assert lists[..i + 1][..i] == lists[..i];
        i := i + 1;
      }
      assert lists[..i] == lists;
      var sorted := SortDesc(links, PromOf(num));
      links := sorted[..SpliceCount(|sorted|, numLinks)];
      PrefixKeepsOrder(sorted, |links|, PromOf(num));
    }
  }

  /** A prefix of a sorted list is sorted and draws on the list's elements. */
  lemma PrefixKeepsOrder<T>(s: seq<T>, n: nat, key: T -> real)
    requires SortedDesc(s, key) && n <= |s|
    ensures SortedDesc(s[..n], key)
    ensures multiset(s[..n]) <= multiset(s)
  {
    assert s == s[..n] + s[n..];
    assert multiset(s) == multiset(s[..n]) + multiset(s[n..]);
  }
}
