/**
 * `tib.util.loadData` from `util.js`: the word list with its size domain, the
 * name-keyed `cluster` of viewport positions, the spanning-tree segments, and
 * the inverse-prominence tree. `WIDTH` and `HEIGHT` are page globals and
 * become parameters, as does the depth of recursion the engine's stack
 * allows. The tree steps live in `InverseProminence`.
 */
module VisUtil {
  import opened Common
  import opened Payload
  import opened Sorting
  import opened InverseProminence

  datatype Point = Point(x: real, y: real)

  /** A word of the cloud: its spanning-tree targets, its size and its text. */
  datatype Word = Word(edges: seq<int>, size: real, text: string)

  /** A spanning-tree line from `(x1, y1)` to `(x2, y2)`. */
  datatype Segment = Segment(x1: real, y1: real, x2: real, y2: real)

  /** What `loadData` returns; `invProm` is `None` when it stays the empty object. */
  datatype Loaded = Loaded(
    cluster: map<string, Point>,
    mst: seq<Segment>,
    minSize: Option<real>,
    maxSize: Option<real>,
    words: seq<Word>,
    wordsForName: map<string, Word>,
    invProm: Option<Tree>)

  function WordOf(c: Concept): Word {
    Word(c.mstEdges, c.weight, c.value)
  }

  function WordSize(w: Word): real { w.size }

  /** One word per concept, in iteration order. */
  function Words(concepts: seq<Concept>): (r: seq<Word>)
    ensures |r| == |concepts|
  {
    seq(|concepts|, k requires 0 <= k < |concepts| => WordOf(concepts[k]))
  }

  /** A concept's place in the viewport: its layout coordinates scaled to half the page. */
  function Position(c: Concept, width: real, height: real): Point {
    Point(c.x * width / 2.0, c.y * height / 2.0)
  }

  /** `Position` for one viewport, as a function of the concept alone. */
  function PositionIn(width: real, height: real): Concept -> Point {
    c => Position(c, width, height)
  }

  function ClusterMap(concepts: seq<Concept>, width: real, height: real): map<string, Point> {
    IndexBy(concepts, ConceptValue, PositionIn(width, height))
  }

  function NamesForId(concepts: seq<Concept>): map<int, string> {
    IndexBy(concepts, ConceptId, ConceptValue)
  }

  function WordsForName(concepts: seq<Concept>): map<string, Word> {
    IndexBy(concepts, ConceptValue, WordOf)
  }

  /** `lo` and `hi` bound every size and both occur. */
  ghost predicate TightDomain(words: seq<Word>, lo: real, hi: real) {
    && (forall k :: 0 <= k < |words| ==> lo <= words[k].size <= hi)
    && (exists k :: 0 <= k < |words| && words[k].size == lo)
    && (exists k :: 0 <= k < |words| && words[k].size == hi)
  }

  // ---------------------------------------------------------------------
  // The concept loop
  // ---------------------------------------------------------------------

  /**
   * The first loop of `loadData`: one word per concept, the running minimum
   * and maximum size, and three maps keyed by name or id in which a later
   * concept overwrites an earlier one.
   */
  method CollectWords(concepts: seq<Concept>, width: real, height: real)
    returns (words: seq<Word>, minSize: Option<real>, maxSize: Option<real>,
             cluster: map<string, Point>, namesForId: map<int, string>, wordsForName: map<string, Word>)
    ensures words == Words(concepts)
    ensures minSize.None? <==> concepts == []
    ensures maxSize.None? <==> concepts == []
    ensures minSize.Some? && maxSize.Some? ==> TightDomain(words, minSize.value, maxSize.value)
    ensures cluster == ClusterMap(concepts, width, height)
    ensures namesForId == NamesForId(concepts)
    ensures wordsForName == WordsForName(concepts)
  {
    words, minSize, maxSize := [], None, None;
    cluster, namesForId, wordsForName := map[], map[], map[];
    ghost var lo, hi := 0, 0;
    var i := 0;
    while i < |concepts|
      invariant 0 <= i <= |concepts|
      invariant words == Words(concepts[..i])
      invariant minSize.None? <==> i == 0
      invariant maxSize.None? <==> i == 0
      invariant minSize.Some? ==> 0 <= lo < i && words[lo].size == minSize.value
      invariant maxSize.Some? ==> 0 <= hi < i && words[hi].size == maxSize.value
      invariant minSize.Some? && maxSize.Some? ==>
        forall k :: 0 <= k < i ==> minSize.value <= words[k].size <= maxSize.value
      invariant cluster == ClusterMap(concepts[..i], width, height)
      invariant namesForId == NamesForId(concepts[..i])
      invariant wordsForName == WordsForName(concepts[..i])
    {
      var w := concepts[i];
      assert concepts[..i + 1][..i] == concepts[..i];
      assert PositionIn(width, height)(w) == Point(w.x * width / 2.0, w.y * height / 2.0);
      var word := Word(w.mstEdges, w.weight, w.value);
      words := words + [word];
      if minSize.None? {
        minSize, maxSize := Some(word.size), Some(word.size);
        lo, hi := i, i;
      } else {
        if word.size < minSize.value {
          minSize, lo := Some(word.size), i;
        }
        if word.size > maxSize.value {
          maxSize, hi := Some(word.size), i;
        }
      }
      cluster := cluster[word.text := Point(w.x * width / 2.0, w.y * height / 2.0)];
      namesForId := namesForId[w.id := w.value];
      wordsForName := wordsForName[word.text := word];
      i := i + 1;
    }
    assert concepts[..i] == concepts;
  }

  /** A name's position is that of the last concept with that name; no other name has one. */
  lemma ClusterLastWins(concepts: seq<Concept>, width: real, height: real, text: string)
    ensures LastWith(concepts, ConceptValue, text).None? ==> text !in ClusterMap(concepts, width, height)
    ensures LastWith(concepts, ConceptValue, text).Some? ==>
              var c := LastWith(concepts, ConceptValue, text).value;
              Lookup(ClusterMap(concepts, width, height), text) == Some(Point(c.x * width / 2.0, c.y * height / 2.0))
  {
    IndexByLastWins(concepts, ConceptValue, PositionIn(width, height), text);
    var last := LastWith(concepts, ConceptValue, text);
    if last.Some? {
      var c := last.value;
      assert PositionIn(width, height)(c) == Position(c, width, height);
      assert Lookup(ClusterMap(concepts, width, height), text) == Some(PositionIn(width, height)(c));
    }
  }

  /** `wordNamesForId[id]` is the value of the last concept with that id. */
  lemma NamesForIdLastWins(concepts: seq<Concept>, id: int)
    ensures Lookup(NamesForId(concepts), id)
            == match LastWith(concepts, ConceptId, id) case None => None case Some(c) => Some(c.value)
  {
    IndexByLastWins(concepts, ConceptId, ConceptValue, id);
  }

  /** `wordsForName[text]` is the word of the last concept with that text. */
  lemma WordsForNameLastWins(concepts: seq<Concept>, text: string)
    ensures Lookup(WordsForName(concepts), text)
            == match LastWith(concepts, ConceptValue, text) case None => None case Some(c) => Some(WordOf(c))
  {
    IndexByLastWins(concepts, ConceptValue, WordOf, text);
  }

  /**
   * Positions scale linearly with the viewport: multiplying the width by
   * `f` multiplies every x by `f` and leaves every y as it was.
   */
  lemma ClusterScalesWithWidth(concepts: seq<Concept>, width: real, height: real, f: real, text: string)
    ensures text in ClusterMap(concepts, f * width, height) <==> text in ClusterMap(concepts, width, height)
    ensures text in ClusterMap(concepts, width, height) ==>
              var p := ClusterMap(concepts, width, height)[text];
              ClusterMap(concepts, f * width, height)[text] == Point(f * p.x, p.y)
  {
    ClusterLastWins(concepts, width, height, text);
    ClusterLastWins(concepts, f * width, height, text);
    if LastWith(concepts, ConceptValue, text).Some? {
      var c := LastWith(concepts, ConceptValue, text).value;
      assert c.x * (f * width) / 2.0 == f * (c.x * width / 2.0);
    }
  }

  // ---------------------------------------------------------------------
  // The spanning-tree segments
  // ---------------------------------------------------------------------

  /**
   * Lines 53-58 can read both ends of the segment for edge `to` of `w`: the
   * word's own text and the name its target id maps to (`undefined` reads
   * the property "undefined") are both keys of `cluster`.
   */
  predicate Resolves(w: Word, to: int, names: map<int, string>, cluster: map<string, Point>) {
    w.text in cluster && JsKey(Lookup(names, to)) in cluster
  }

  predicate WordResolves(w: Word, names: map<int, string>, cluster: map<string, Point>) {
    forall j :: 0 <= j < |w.edges| ==> Resolves(w, w.edges[j], names, cluster)
  }

  predicate AllResolve(words: seq<Word>, names: map<int, string>, cluster: map<string, Point>) {
    forall i :: 0 <= i < |words| ==> WordResolves(words[i], names, cluster)
  }

  function SegmentFor(w: Word, to: int, names: map<int, string>, cluster: map<string, Point>): Segment
    requires Resolves(w, to, names, cluster)
  {
    var a := cluster[w.text];
    var b := cluster[JsKey(Lookup(names, to))];
    Segment(a.x, a.y, b.x, b.y)
  }

  /** The segments of one word, one per edge, in edge order. */
  function WordSegments(w: Word, names: map<int, string>, cluster: map<string, Point>): (r: seq<Segment>)
    requires WordResolves(w, names, cluster)
    ensures |r| == |w.edges|
  {
    seq(|w.edges|, j requires 0 <= j < |w.edges| => SegmentFor(w, w.edges[j], names, cluster))
  }

  function MstLists(words: seq<Word>, names: map<int, string>, cluster: map<string, Point>): (r: seq<seq<Segment>>)
    requires AllResolve(words, names, cluster)
    ensures |r| == |words|
  {
    seq(|words|, i requires 0 <= i < |words| => WordSegments(words[i], names, cluster))
  }

  /** The number of spanning-tree edges of all words. */
  function EdgeCount(words: seq<Word>): nat {
    if words == [] then 0 else EdgeCount(words[..|words| - 1]) + |words[|words| - 1].edges|
  }

  /** One more word whose edges resolve appends its segments to the flattened list. */
  lemma MstStep(words: seq<Word>, names: map<int, string>, cluster: map<string, Point>, i: nat)
    requires i < |words| && AllResolve(words[..i], names, cluster) && WordResolves(words[i], names, cluster)
    ensures AllResolve(words[..i + 1], names, cluster)
    ensures Flatten(MstLists(words[..i + 1], names, cluster))
            == Flatten(MstLists(words[..i], names, cluster)) + WordSegments(words[i], names, cluster)
  {
    assert words[..i + 1] == words[..i] + [words[i]];
    var ls := MstLists(words[..i + 1], names, cluster);
    assert ls[..|ls| - 1] == MstLists(words[..i], names, cluster);
  }

  /**
   * The segment loop. It faults with a TypeError exactly when some edge's
   * ends cannot both be read; otherwise it yields every word's segments, in
   * word order, then edge order.
   */
  method BuildMst(words: seq<Word>, names: map<int, string>, cluster: map<string, Point>)
    returns (r: Result<seq<Segment>, JsError>)
    ensures r.Err? <==> !AllResolve(words, names, cluster)
    ensures r.Err? ==> r.error == TypeError
    ensures r.Ok? ==> AllResolve(words, names, cluster) && r.value == Flatten(MstLists(words, names, cluster))
  {
    var mst: seq<Segment> := [];
    var i := 0;
    while i < |words|
      invariant 0 <= i <= |words|
      invariant AllResolve(words[..i], names, cluster)
      invariant mst == Flatten(MstLists(words[..i], names, cluster))
    {
      var word := words[i];
      ghost var before := mst;
      var j := 0;
      while j < |word.edges|
        invariant 0 <= j <= |word.edges|
        invariant forall k :: 0 <= k < j ==> Resolves(word, word.edges[k], names, cluster)
        invariant |mst| == |before| + j && mst[..|before|] == before
        invariant forall k :: 0 <= k < j ==> mst[|before| + k] == SegmentFor(word, word.edges[k], names, cluster)
      {
        var toWordName := Lookup(names, word.edges[j]);
        if word.text !in cluster {
          assert !WordResolves(words[i], names, cluster);
          return Err(TypeError);
        }
        if JsKey(toWordName) !in cluster {
          assert !WordResolves(words[i], names, cluster);
          return Err(TypeError);
        }
        var a := cluster[word.text];
        var b := cluster[JsKey(toWordName)];
        mst := mst + [Segment(a.x, a.y, b.x, b.y)];
        j := j + 1;
      }
      assert mst == before + WordSegments(word, names, cluster);
      MstStep(words, names, cluster, i);
      i := i + 1;
    }
    assert words[..i] == words;
    return Ok(mst);
  }

  /** Words before `i` contribute `EdgeCount(words[..i])` segments. */
  lemma {:induction false} OffsetIsEdgeCount(words: seq<Word>, names: map<int, string>, cluster: map<string, Point>, i: nat)
    requires AllResolve(words, names, cluster) && i <= |words|
    ensures Offset(MstLists(words, names, cluster), i) == EdgeCount(words[..i])
  {
    if i > 0 {
      OffsetIsEdgeCount(words, names, cluster, i - 1);
      assert words[..i][..i - 1] == words[..i - 1];
    }
  }

  /**
   * The segment list holds exactly one segment per edge, and the segment
   * for edge `j` of word `i` sits after the segments of all earlier words:
   * it runs from the word's position to the position of its target's name.
   */
  lemma MstLayout(words: seq<Word>, names: map<int, string>, cluster: map<string, Point>, i: nat, j: nat)
    requires AllResolve(words, names, cluster)
    requires i < |words| && j < |words[i].edges|
    requires Resolves(words[i], words[i].edges[j], names, cluster)
    ensures |Flatten(MstLists(words, names, cluster))| == EdgeCount(words)
    ensures EdgeCount(words[..i]) + j < EdgeCount(words)
    ensures var s := Flatten(MstLists(words, names, cluster))[EdgeCount(words[..i]) + j];
            var a := cluster[words[i].text];
            var b := cluster[JsKey(Lookup(names, words[i].edges[j]))];
            s == Segment(a.x, a.y, b.x, b.y)
  {
    var lists := MstLists(words, names, cluster);
    assert Offset(lists, i) == EdgeCount(words[..i]) by {
      OffsetIsEdgeCount(words, names, cluster, i);
    }
    assert Offset(lists, |lists|) == EdgeCount(words) by {
      OffsetIsEdgeCount(words, names, cluster, |words|);
      assert words[..|words|] == words;
    }
    assert lists[i][j] == SegmentFor(words[i], words[i].edges[j], names, cluster);
    FlattenAt(lists, i, j);
  }

  // ---------------------------------------------------------------------
  // loadData
  // ---------------------------------------------------------------------

  /**
   * `loadData`. The words come back sorted by size, largest first, as a
   * permutation of one word per concept; the size domain is tight; the
   * segments are those of the sorted words; the tree is what the intended
   * root scan gives over the `node_list` of `iprom`. An unreadable segment
   * end or an exception in the scan is the exception `loadData` throws.
   */
  method LoadData(concepts: seq<Concept>, iprom: seq<Edge>, width: real, height: real, stackDepth: nat)
    returns (r: Result<Loaded, JsError>)
    ensures var sorted := SortDesc(Words(concepts), WordSize);
            var names := NamesForId(concepts);
            var cluster := ClusterMap(concepts, width, height);
            && (!AllResolve(sorted, names, cluster) ==> r == Err(TypeError))
            && (AllResolve(sorted, names, cluster) && r.Err? ==>
                  ScanDescribes(NodeList(iprom), |Endpoints(iprom)|, names, stackDepth, Fault(r.error)))
            && (r.Ok? ==>
                  && AllResolve(sorted, names, cluster)
                  && r.value.words == sorted
                  && r.value.cluster == cluster
                  && r.value.wordsForName == WordsForName(concepts)
                  && r.value.mst == Flatten(MstLists(sorted, names, cluster))
                  && (r.value.minSize.None? <==> concepts == [])
                  && (r.value.maxSize.None? <==> concepts == [])
                  && (r.value.minSize.Some? && r.value.maxSize.Some? ==>
                        TightDomain(sorted, r.value.minSize.value, r.value.maxSize.value))
                  && ScanDescribes(NodeList(iprom), |Endpoints(iprom)|, names, stackDepth,
                                   if r.value.invProm.Some? then Root(r.value.invProm.value) else NoRoot))
  {
    var words, minSize, maxSize, cluster, namesForId, wordsForName := CollectWords(concepts, width, height);
    var sorted := SortDesc(words, WordSize);
    SortKeepsDomain(words, sorted, minSize, maxSize);
    var mst := BuildMst(sorted, namesForId, cluster);
    if mst.Err? {
      return Err(mst.error);
    }
    var nodes, length := BuildNodeList(iprom);
    var scan := RootScan(nodes, length, namesForId, stackDepth);
    match scan
    case Fault(e) => return Err(e);
    case NoRoot => return Ok(Loaded(cluster, mst.value, minSize, maxSize, sorted, wordsForName, None));
    case Root(t) => return Ok(Loaded(cluster, mst.value, minSize, maxSize, sorted, wordsForName, Some(t)));
  }

  /** Sorting reorders the words, so a tight size domain stays tight. */
  lemma SortKeepsDomain(words: seq<Word>, sorted: seq<Word>, minSize: Option<real>, maxSize: Option<real>)
    requires multiset(sorted) == multiset(words)
    requires minSize.Some? && maxSize.Some? ==> TightDomain(words, minSize.value, maxSize.value)
    ensures minSize.Some? && maxSize.Some? ==> TightDomain(sorted, minSize.value, maxSize.value)
  {
    if minSize.Some? && maxSize.Some? {
      var lo, hi := minSize.value, maxSize.value;
      forall k | 0 <= k < |sorted| ensures lo <= sorted[k].size <= hi {
        assert sorted[k] in multiset(words);
        var m :| 0 <= m < |words| && words[m] == sorted[k];
      }
      var a :| 0 <= a < |words| && words[a].size == lo;
      var b :| 0 <= b < |words| && words[b].size == hi;
      assert words[a] in multiset(sorted);
      assert words[b] in multiset(sorted);
      var a' :| 0 <= a' < |sorted| && sorted[a'] == words[a];
      var b' :| 0 <= b' < |sorted| && sorted[b'] == words[b];
    }
  }
}
