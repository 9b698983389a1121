/**
 * `get_concepts` of `tib/utils.py`: the walk over the parsed markers
 * document that builds the `entities` and `themes` dictionaries, the
 * `prominence` edge list and `num_blocks`, and the `STATUS_MAP` table.
 *
 * The document is an `Element` tree (tag, attribute dictionary, children in
 * document order); `int()` and `float()` are the parameters of `Parsers`.
 * A Python exception ends the whole call, so each step yields a `Result`
 * whose error is the first exception raised in evaluation order.
 */
module Utils {
  import opened Common
  import InverseProminence

  datatype Element = Element(tag: string, attrib: map<string, string>, children: seq<Element>)

  /** The exceptions `get_concepts` can raise. */
  datatype PyError =
    | KeyError(key: string)     // `elem.attrib[name]` for an attribute the element lacks
    | IdKeyError(id: int)       // `entities[id]` for an id no entity was stored under
    | ValueError(text: string)  // `int(text)` or `float(text)` of text that is not a number
    | IndexError                // `elem[0]` of an element without children

  /** Python's `int()` and `float()` on attribute text; `None` where they raise. */
  datatype Parsers = Parsers(toInt: string -> Option<int>, toFloat: string -> Option<real>)

  datatype Related = Related(id: string, strength: string, count: string, prom: string)

  /** An `entities` value; `related` is `None` while the dictionary has no 'related' key. */
  datatype Entity = Entity(
    id: int,
    weight: real,
    frequency: int,
    mstEdges: seq<int>,
    value: string,
    kind: string,
    themeId: string,
    x: real,
    y: real,
    related: Option<seq<Related>>)

  datatype Theme = Theme(id: int, name: string, hue: string, connectivity: string)

  /** The four values `get_concepts` returns. */
  datatype Concepts = Concepts(
    entities: map<int, Entity>,
    themes: map<int, Theme>,
    prominence: seq<InverseProminence.Edge>,
    numBlocks: Option<string>)

  // ---------------------------------------------------------------------
  // Reading attributes
  // ---------------------------------------------------------------------

  function Attr(e: Element, name: string): Result<string, PyError> {
    if name in e.attrib then Ok(e.attrib[name]) else Err(KeyError(name))
  }

  function IntAttr(p: Parsers, e: Element, name: string): Result<int, PyError> {
    var text :- Attr(e, name);
    if p.toInt(text).Some? then Ok(p.toInt(text).value) else Err(ValueError(text))
  }

  function FloatAttr(p: Parsers, e: Element, name: string): Result<real, PyError> {
    var text :- Attr(e, name);
    if p.toFloat(text).Some? then Ok(p.toFloat(text).value) else Err(ValueError(text))
  }

  /** One `rel` of a related group: `id`, `str`, `ct`, `pr`, read in that order. */
  function ParseRelated(rel: Element): Result<Related, PyError> {
    var id :- Attr(rel, "id");
    var strength :- Attr(rel, "str");
    var count :- Attr(rel, "ct");
    var prom :- Attr(rel, "pr");
    Ok(Related(id, strength, count, prom))
  }

  /** The dictionary of lines 164-174, its values read in the order the display lists them. */
  function ParseEntity(p: Parsers, e: Element): (r: Result<Entity, PyError>)
    ensures r.Ok? ==> IntAttr(p, e, "id") == Ok(r.value.id)
    ensures r.Ok? ==> r.value.mstEdges == [] && r.value.related == None
    ensures IntAttr(p, e, "id").Err? ==> r == Err(IntAttr(p, e, "id").error)
  {
    var id :- IntAttr(p, e, "id");
    var weight :- FloatAttr(p, e, "ctv");
    var frequency :- IntAttr(p, e, "freq");
    var value :- Attr(e, "value");
    var kind :- Attr(e, "kind");
    var themeId :- Attr(e, "tid");
    var x :- FloatAttr(p, e, "x");
    var y :- FloatAttr(p, e, "y");
    Ok(Entity(id, weight, frequency, [], value, kind, themeId, x, y, None))
  }

  /** Line 187: `index`, `name`, `hue`, `connectiv`. */
  function ParseTheme(p: Parsers, t: Element): (r: Result<Theme, PyError>)
    ensures r.Ok? ==> IntAttr(p, t, "index") == Ok(r.value.id)
  {
    var id :- IntAttr(p, t, "index");
    var name :- Attr(t, "name");
    var hue :- Attr(t, "hue");
    var connectivity :- Attr(t, "connectiv");
    Ok(Theme(id, name, hue, connectivity))
  }

  /** Line 195: `from`, `to`, `w`. */
  function ParseEdge(p: Parsers, n: Element): Result<InverseProminence.Edge, PyError> {
    var from :- IntAttr(p, n, "from");
    var to :- IntAttr(p, n, "to");
    var weight :- FloatAttr(p, n, "w");
    Ok(InverseProminence.Edge(from, to, weight))
  }

  function ParseThemeWith(p: Parsers): Element -> Result<Theme, PyError> {
    (t: Element) => ParseTheme(p, t)
  }

  function ParseEdgeWith(p: Parsers): Element -> Result<InverseProminence.Edge, PyError> {
    (n: Element) => ParseEdge(p, n)
  }

  function EdgeTargetWith(p: Parsers): Element -> Result<int, PyError> {
    (edge: Element) => IntAttr(p, edge, "id")
  }

  function EntityKey(v: Entity): int { v.id }

  function ThemeKey(v: Theme): int { v.id }

  function TagOf(e: Element): string { e.tag }

  function Same<V>(v: V): V { v }

  // ---------------------------------------------------------------------
  // Loops that read every child, stopping at the first exception
  // ---------------------------------------------------------------------

  /** The values `read` gives for `s`, or the first exception it raises, in order. */
  function ReadAll<T, V, E>(read: T -> Result<V, E>, s: seq<T>): Result<seq<V>, E> {
    if s == [] then Ok([])
    else
      var v :- read(s[0]);
      var rest :- ReadAll(read, s[1..]);
      Ok([v] + rest)
  }

  /**
   * `ReadAll` succeeds exactly when every element reads, with one value per
   * element in order; otherwise its error is that of the first element that
   * does not read.
   */
  lemma {:induction false} ReadAllMeaning<T, V, E>(read: T -> Result<V, E>, s: seq<T>)
    ensures ReadAll(read, s).Ok? <==> forall i :: 0 <= i < |s| ==> read(s[i]).Ok?
    ensures ReadAll(read, s).Ok? ==>
              |ReadAll(read, s).value| == |s| && forall i :: 0 <= i < |s| ==> read(s[i]) == Ok(ReadAll(read, s).value[i])
    ensures ReadAll(read, s).Err? ==>
              exists i :: 0 <= i < |s| && read(s[i]) == Err(ReadAll(read, s).error) && forall j :: 0 <= j < i ==> read(s[j]).Ok?
  {
    if s != [] {
      var tail := s[1..];
      ReadAllMeaning(read, tail);
      assert forall i :: 0 < i < |s| ==> s[i] == tail[i - 1];
      if read(s[0]).Ok? && ReadAll(read, tail).Err? {
        var i :| 0 <= i < |tail| && read(tail[i]) == Err(ReadAll(read, tail).error) && forall j :: 0 <= j < i ==> read(tail[j]).Ok?;
        assert read(s[i + 1]) == Err(ReadAll(read, s).error);
      }
    }
  }

  lemma {:induction false} ReadAllSnoc<T, V, E>(read: T -> Result<V, E>, s: seq<T>, x: T)
    ensures ReadAll(read, s + [x]) ==
              if ReadAll(read, s).Err? then ReadAll(read, s)
              else if read(x).Err? then Err(read(x).error)
              else Ok(ReadAll(read, s).value + [read(x).value])
  {
    if s == [] {
      assert [x][1..] == [];
      if read(x).Ok? {
        assert [read(x).value] + [] == [] + [read(x).value];
      }
    } else {
      var t := s[1..];
      assert (s + [x])[0] == s[0];
      assert (s + [x])[1..] == t + [x];
      ReadAllSnoc(read, t, x);
      if read(s[0]).Ok? && ReadAll(read, t).Ok? && read(x).Ok? {
        var v, rest, w := read(s[0]).value, ReadAll(read, t).value, read(x).value;
        assert [v] + (rest + [w]) == ([v] + rest) + [w];
      }
    }
  }

  /** An element that does not read, after a prefix that does, decides the error. */
  lemma ReadAllStops<T, V, E>(read: T -> Result<V, E>, s1: seq<T>, x: T, s2: seq<T>)
    requires ReadAll(read, s1).Ok? && read(x).Err?
    ensures ReadAll(read, s1 + [x] + s2) == Err(read(x).error)
  {
    var s := s1 + [x] + s2;
    ReadAllMeaning(read, s1);
    ReadAllMeaning(read, s);
    assert s[|s1|] == x;
    assert forall j :: 0 <= j < |s1| ==> s[j] == s1[j];
    var i :| 0 <= i < |s| && read(s[i]) == Err(ReadAll(read, s).error) && forall j :: 0 <= j < i ==> read(s[j]).Ok?;
    assert i == |s1|;
  }

  /** Loop step of a read over `s`: the i-th element reads, so the prefix one longer reads to one more value. */
  lemma ReadAllStep<T, V, E>(read: T -> Result<V, E>, s: seq<T>, i: nat, acc: seq<V>)
    requires i < |s| && ReadAll(read, s[..i]) == Ok(acc) && read(s[i]).Ok?
    ensures ReadAll(read, s[..i + 1]) == Ok(acc + [read(s[i]).value])
  {
    assert s[..i + 1] == s[..i] + [s[i]];
    ReadAllSnoc(read, s[..i], s[i]);
  }

  /** Loop exit of a read over `s`: the i-th element fails after a prefix that reads, and that is the error of all of `s`. */
  lemma ReadAllStopsAt<T, V, E>(read: T -> Result<V, E>, s: seq<T>, i: nat)
    requires i < |s| && ReadAll(read, s[..i]).Ok? && read(s[i]).Err?
    ensures ReadAll(read, s) == Err(read(s[i]).error)
  {
    assert s == s[..i] + [s[i]] + s[i + 1..];
    ReadAllStops(read, s[..i], s[i], s[i + 1..]);
  }

  /**
   * The dictionary a loop builds by storing each value `read` gives under
   * its key, a later value replacing an earlier one with the same key.
   */
  function StoreAll<T, K(==), V, E>(read: T -> Result<V, E>, key: V -> K, m: map<K, V>, s: seq<T>): Result<map<K, V>, E> {
    var vs :- ReadAll(read, s);
    Ok(m + IndexBy(vs, key, Same))
  }

  lemma StoreAllStep<T, K, V, E>(read: T -> Result<V, E>, key: V -> K, m: map<K, V>, s: seq<T>, i: nat)
    requires i < |s| && StoreAll(read, key, m, s[..i]).Ok? && read(s[i]).Ok?
    ensures StoreAll(read, key, m, s[..i + 1]) ==
              Ok(StoreAll(read, key, m, s[..i]).value[key(read(s[i]).value) := read(s[i]).value])
  {
    assert s[..i + 1] == s[..i] + [s[i]];
    ReadAllSnoc(read, s[..i], s[i]);
    var vs, v := ReadAll(read, s[..i]).value, read(s[i]).value;
    assert (vs + [v])[..|vs|] == vs;
    var before := IndexBy(vs, key, Same);
    assert IndexBy(vs + [v], key, Same) == before[key(v) := v];
    assert m + before[key(v) := v] == (m + before)[key(v) := v];
  }

  /**
   * After the store, a key holds the value of the last element read under
   * it, and keeps its earlier value when no element has it.
   */
  lemma StoreAllLastWins<T, K, V, E>(read: T -> Result<V, E>, key: V -> K, m: map<K, V>, s: seq<T>, k: K)
    requires StoreAll(read, key, m, s).Ok?
    ensures var vs := ReadAll(read, s).value;
            var last := LastWith(vs, key, k);
            Lookup(StoreAll(read, key, m, s).value, k) == if last.Some? then last else Lookup(m, k)
  {
    var vs := ReadAll(read, s).value;
    IndexByLastWins(vs, key, Same, k);
  }

  /** A dictionary whose every value carries its own key keeps that property through the store. */
  lemma StoreAllKeyed<T, K, V, E>(read: T -> Result<V, E>, key: V -> K, m: map<K, V>, s: seq<T>)
    requires StoreAll(read, key, m, s).Ok?
    requires forall k :: k in m ==> key(m[k]) == k
    ensures var r := StoreAll(read, key, m, s).value;
            forall k :: k in r ==> key(r[k]) == k
  {
    var vs := ReadAll(read, s).value;
    var r := StoreAll(read, key, m, s).value;
    forall k | k in r
      ensures key(r[k]) == k
    {
      IndexByLastWins(vs, key, Same, k);
    }
  }

  /** A loop that threads a state through the elements, stopping at the first exception. */
  function FoldOk<A, T, E>(step: (A, T) -> Result<A, E>, init: A, s: seq<T>): Result<A, E> {
    if s == [] then Ok(init)
    else
      var prev :- FoldOk(step, init, s[..|s| - 1]);
      step(prev, s[|s| - 1])
  }

  lemma FoldOkStep<A, T, E>(step: (A, T) -> Result<A, E>, init: A, s: seq<T>, i: nat)
    requires i < |s| && FoldOk(step, init, s[..i]).Ok?
    ensures FoldOk(step, init, s[..i + 1]) == step(FoldOk(step, init, s[..i]).value, s[i])
  {
    assert s[..i + 1][..i] == s[..i];
  }

  /** Once a step raises, the rest of the loop does not run. */
  lemma {:induction false} FoldOkStopsAt<A, T, E>(step: (A, T) -> Result<A, E>, init: A, s: seq<T>, i: nat)
    requires i < |s| && FoldOk(step, init, s[..i]).Ok?
    requires step(FoldOk(step, init, s[..i]).value, s[i]).Err?
    ensures FoldOk(step, init, s) == step(FoldOk(step, init, s[..i]).value, s[i])
    decreases |s|
  {
    FoldOkStep(step, init, s, i);
    if |s| > i + 1 {
      var init' := s[..|s| - 1];
      assert init'[..i] == s[..i] && init'[i] == s[i];
      FoldOkStopsAt(step, init, init', i);
    } else {
      assert s[..i + 1] == s;
    }
  }

  // ---------------------------------------------------------------------
  // Lines 163-184: entities and their related groups
  // ---------------------------------------------------------------------

  /** The related items of one child group of an entity (lines 176-183). */
  function GroupItems(group: Element): Result<seq<Related>, PyError> {
    ReadAll(ParseRelated, group.children)
  }

  /**
   * One entity as lines 164-184 leave it: the parsed dictionary, then, for
   * each child group, its related list; the last group's list stays.
   */
  function ReadEntity(p: Parsers, e: Element): (r: Result<Entity, PyError>)
    ensures r.Ok? ==> IntAttr(p, e, "id") == Ok(r.value.id) && r.value.mstEdges == []
    ensures r.Ok? ==> (r.value.related.None? <==> e.children == [])
    ensures r.Ok? && e.children != [] ==> GroupItems(e.children[|e.children| - 1]) == Ok(r.value.related.value)
  {
    var entity :- ParseEntity(p, e);
    var groups :- ReadAll(GroupItems, e.children);
    ReadAllMeaning(GroupItems, e.children);
    Ok(entity.(related := if groups == [] then None else Some(groups[|groups| - 1])))
  }

  function ReadEntityWith(p: Parsers): Element -> Result<Entity, PyError> {
    (e: Element) => ReadEntity(p, e)
  }

  /** Lines 176-183: the related list of one group. */
  method ReadRelatedGroup(group: Element) returns (r: Result<seq<Related>, PyError>)
    ensures r == GroupItems(group)
  {
    var rels := group.children;
    var related: seq<Related> := [];
    var i := 0;
    while i < |rels|
      invariant 0 <= i <= |rels|
      invariant ReadAll(ParseRelated, rels[..i]) == Ok(related)
    {
      var item := ParseRelated(rels[i]);
      if item.Err? {
        ReadAllStopsAt(ParseRelated, rels, i);
        return Err(item.error);
      }
      ReadAllStep(ParseRelated, rels, i, related);
      related := related + [item.value];
      i := i + 1;
    }
    assert rels[..i] == rels;
    return Ok(related);
  }

  /** Lines 164-184 for one entity: store its dictionary, then attach each group's list. */
  method StoreEntity(p: Parsers, entities: map<int, Entity>, e: Element) returns (r: Result<map<int, Entity>, PyError>)
    ensures r.Ok? <==> ReadEntity(p, e).Ok?
    ensures r.Ok? ==> r.value == entities[ReadEntity(p, e).value.id := ReadEntity(p, e).value]
    ensures r.Err? ==> r.error == ReadEntity(p, e).error
  {
    var parsed := ParseEntity(p, e);
    if parsed.Err? {
      return Err(parsed.error);
    }
    var entity := parsed.value;
    var m := entities[entity.id := entity];
    ghost var groups: seq<seq<Related>> := [];
    var j := 0;
    while j < |e.children|
      invariant 0 <= j <= |e.children|
      invariant ReadAll(GroupItems, e.children[..j]) == Ok(groups)
      invariant m == entities[entity.id := entity.(related := if groups == [] then None else Some(groups[|groups| - 1]))]
    {
      var related := ReadRelatedGroup(e.children[j]);
      if related.Err? {
        ReadAllStopsAt(GroupItems, e.children, j);
        return Err(related.error);
      }
      ReadAllStep(GroupItems, e.children, j, groups);
      m := m[entity.id := m[entity.id].(related := Some(related.value))];
      groups := groups + [related.value];
      j := j + 1;
    }
    assert e.children[..j] == e.children;
    return Ok(m);
  }

  /** Lines 163-184: every entity of a `markers` element, stored under its id. */
  method StoreEntities(p: Parsers, entities: map<int, Entity>, s: seq<Element>) returns (r: Result<map<int, Entity>, PyError>)
    ensures r == StoreAll(ReadEntityWith(p), EntityKey, entities, s)
  {
    var m := entities;
    var i := 0;
    assert s[..0] == [];
    assert entities + map[] == entities;
    while i < |s|
      invariant 0 <= i <= |s|
      invariant StoreAll(ReadEntityWith(p), EntityKey, entities, s[..i]) == Ok(m)
    {
      var next := StoreEntity(p, m, s[i]);
      if next.Err? {
        ReadAllStopsAt(ReadEntityWith(p), s, i);
        return Err(next.error);
      }
      StoreAllStep(ReadEntityWith(p), EntityKey, entities, s, i);
      m := next.value;
      i := i + 1;
    }
    assert s[..i] == s;
    return Ok(m);
  }

  /**
   * Entities are stored under their own id, with an empty `mstEdges`; a
   * repeated id keeps the last entity read with it, and an id no element
   * carries keeps its earlier entity.
   */
  lemma EntitiesLastWins(p: Parsers, entities: map<int, Entity>, s: seq<Element>, k: int)
    requires StoreAll(ReadEntityWith(p), EntityKey, entities, s).Ok?
    ensures var vs := ReadAll(ReadEntityWith(p), s).value;
            && |vs| == |s|
            && (forall i :: 0 <= i < |s| ==> ReadEntity(p, s[i]) == Ok(vs[i]) && vs[i].mstEdges == [])
            && var last := LastWith(vs, EntityKey, k);
               Lookup(StoreAll(ReadEntityWith(p), EntityKey, entities, s).value, k) == if last.Some? then last else Lookup(entities, k)
  {
    ReadAllMeaning(ReadEntityWith(p), s);
    StoreAllLastWins(ReadEntityWith(p), EntityKey, entities, s, k);
  }

  // ---------------------------------------------------------------------
  // Lines 185-187: themes
  // ---------------------------------------------------------------------

  /** Lines 186-187: every theme stored under its index. */
  method StoreThemes(p: Parsers, themes: map<int, Theme>, s: seq<Element>) returns (r: Result<map<int, Theme>, PyError>)
    ensures r == StoreAll(ParseThemeWith(p), ThemeKey, themes, s)
  {
    var m := themes;
    var i := 0;
    assert s[..0] == [];
    assert themes + map[] == themes;
    while i < |s|
      invariant 0 <= i <= |s|
      invariant StoreAll(ParseThemeWith(p), ThemeKey, themes, s[..i]) == Ok(m)
    {
      var theme := ParseTheme(p, s[i]);
      if theme.Err? {
        ReadAllStopsAt(ParseThemeWith(p), s, i);
        return Err(theme.error);
      }
      StoreAllStep(ParseThemeWith(p), ThemeKey, themes, s, i);
      m := m[theme.value.id := theme.value];
      i := i + 1;
    }
    assert s[..i] == s;
    return Ok(m);
  }

  // ---------------------------------------------------------------------
  // Lines 188-191: spanning-tree edges
  // ---------------------------------------------------------------------

  /** `m` with `tos` appended to the `mstEdges` of entity `id`. */
  function WithEdges(m: map<int, Entity>, id: int, tos: seq<int>): map<int, Entity>
    requires id in m
  {
    m[id := m[id].(mstEdges := m[id].mstEdges + tos)]
  }

  /**
   * One `node` of an `mst` element: `node[0]` must exist; each edge under it
   * reads the node's id, looks its entity up and appends the edge's `id`.
   * With no edges nothing is read, so a missing entity goes unnoticed.
   */
  function MstNode(p: Parsers, m: map<int, Entity>, node: Element): Result<map<int, Entity>, PyError> {
    if node.children == [] then Err(IndexError)
    else if node.children[0].children == [] then Ok(m)
    else
      var id :- IntAttr(p, node, "id");
      if id !in m then Err(IdKeyError(id))
      else
        var tos :- ReadAll(EdgeTargetWith(p), node.children[0].children);
        Ok(WithEdges(m, id, tos))
  }

  function MstNodeWith(p: Parsers): (map<int, Entity>, Element) -> Result<map<int, Entity>, PyError> {
    (m: map<int, Entity>, node: Element) => MstNode(p, m, node)
  }

  /** Lines 190-191 for one node. */
  method AppendMstEdges(p: Parsers, entities: map<int, Entity>, node: Element) returns (r: Result<map<int, Entity>, PyError>)
    ensures r == MstNode(p, entities, node)
  {
    if node.children == [] {
      return Err(IndexError);
    }
    var edges := node.children[0].children;
    var m := entities;
    var j := 0;
    while j < |edges|
      invariant 0 <= j <= |edges|
      invariant ReadAll(EdgeTargetWith(p), edges[..j]).Ok?
      invariant j == 0 ==> m == entities
      invariant j > 0 ==> IntAttr(p, node, "id").Ok? && IntAttr(p, node, "id").value in entities
                          && m == WithEdges(entities, IntAttr(p, node, "id").value, ReadAll(EdgeTargetWith(p), edges[..j]).value)
    {
      var edge := edges[j];
      var id := IntAttr(p, node, "id");
      if id.Err? {
        return Err(id.error);
      }
      if id.value !in m {
        return Err(IdKeyError(id.value));
      }
      assert edges[..j + 1] == edges[..j] + [edge];
      ReadAllSnoc(EdgeTargetWith(p), edges[..j], edge);
      var to := IntAttr(p, edge, "id");
      if to.Err? {
        ReadAllStopsAt(EdgeTargetWith(p), edges, j);
        return Err(to.error);
      }
      ghost var tos := ReadAll(EdgeTargetWith(p), edges[..j]).value;
      assert j == 0 ==> tos == [];
      assert m[id.value].mstEdges + [to.value] == entities[id.value].mstEdges + (tos + [to.value]);
      m := m[id.value := m[id.value].(mstEdges := m[id.value].mstEdges + [to.value])];
      j := j + 1;
    }
    assert edges[..j] == edges;
    return Ok(m);
  }

  /** Lines 189-191: every node of an `mst` element in turn. */
  method AppendMst(p: Parsers, entities: map<int, Entity>, nodes: seq<Element>) returns (r: Result<map<int, Entity>, PyError>)
    ensures r == FoldOk(MstNodeWith(p), entities, nodes)
  {
    var m := entities;
    var i := 0;
    assert nodes[..0] == [];
    while i < |nodes|
      invariant 0 <= i <= |nodes|
      invariant FoldOk(MstNodeWith(p), entities, nodes[..i]) == Ok(m)
    {
      FoldOkStep(MstNodeWith(p), entities, nodes, i);
      var next := AppendMstEdges(p, m, nodes[i]);
      if next.Err? {
        FoldOkStopsAt(MstNodeWith(p), entities, nodes, i);
        return next;
      }
      m := next.value;
      i := i + 1;
    }
    assert nodes[..i] == nodes;
    return Ok(m);
  }

  /**
   * A node with edges appends every edge target to its entity, in document
   * order, and changes no other entity; without an entity for its id it
   * raises a KeyError for that id.
   */
  lemma MstAppendsInOrder(p: Parsers, m: map<int, Entity>, node: Element)
    requires node.children != [] && node.children[0].children != []
    requires IntAttr(p, node, "id").Ok?
    ensures var id := IntAttr(p, node, "id").value;
            id !in m ==> MstNode(p, m, node) == Err(IdKeyError(id))
    ensures var id := IntAttr(p, node, "id").value;
            var edges := node.children[0].children;
            MstNode(p, m, node).Ok? ==>
              && id in m
              && MstNode(p, m, node).value.Keys == m.Keys
              && (forall k :: k in m && k != id ==> MstNode(p, m, node).value[k] == m[k])
              && MstNode(p, m, node).value[id] == m[id].(mstEdges := m[id].mstEdges + ReadAll(EdgeTargetWith(p), edges).value)
              && |ReadAll(EdgeTargetWith(p), edges).value| == |edges|
              && forall j :: 0 <= j < |edges| ==> IntAttr(p, edges[j], "id") == Ok(ReadAll(EdgeTargetWith(p), edges).value[j])
  {
    ReadAllMeaning(EdgeTargetWith(p), node.children[0].children);
  }

  // ---------------------------------------------------------------------
  // Lines 192-195: prominence edges
  // ---------------------------------------------------------------------

  /** The children tagged `edge`, in document order. */
  function EdgeChildren(s: seq<Element>): seq<Element> {
    if s == [] then []
    else EdgeChildren(s[..|s| - 1]) + if s[|s| - 1].tag == "edge" then [s[|s| - 1]] else []
  }

  /** The filter keeps exactly the children tagged `edge`. */
  lemma {:induction false} EdgeChildrenMeaning(s: seq<Element>)
    ensures forall k :: 0 <= k < |EdgeChildren(s)| ==> EdgeChildren(s)[k].tag == "edge"
    ensures forall k :: 0 <= k < |s| && s[k].tag == "edge" ==> s[k] in EdgeChildren(s)
  {
    if s != [] {
      EdgeChildrenMeaning(s[..|s| - 1]);
      assert forall k :: 0 <= k < |s| - 1 ==> s[k] == s[..|s| - 1][k];
    }
  }

  lemma {:induction false} EdgeChildrenAppend(a: seq<Element>, b: seq<Element>)
    ensures EdgeChildren(a + b) == EdgeChildren(a) + EdgeChildren(b)
  {
    if b != [] {
      var n := |b| - 1;
      assert (a + b)[..|a + b| - 1] == a + b[..n];
      EdgeChildrenAppend(a, b[..n]);
    } else {
      assert a + b == a;
    }
  }

  /**
   * Lines 193-195: the `edge` children of the element's first child,
   * appended to `prominence`; the first child must exist.
   */
  function ProminenceOf(p: Parsers, prominence: seq<InverseProminence.Edge>, marker: Element)
    : Result<seq<InverseProminence.Edge>, PyError>
  {
    if marker.children == [] then Err(IndexError)
    else
      var edges :- ReadAll(ParseEdgeWith(p), EdgeChildren(marker.children[0].children));
      Ok(prominence + edges)
  }

  /** Reading one more child: a non-`edge` child changes nothing, an `edge` child adds its parsed edge. */
  lemma ProminenceStep(p: Parsers, nodes: seq<Element>, i: nat, added: seq<InverseProminence.Edge>)
    requires i < |nodes| && ReadAll(ParseEdgeWith(p), EdgeChildren(nodes[..i])) == Ok(added)
    ensures nodes[i].tag != "edge" ==> ReadAll(ParseEdgeWith(p), EdgeChildren(nodes[..i + 1])) == Ok(added)
    ensures nodes[i].tag == "edge" && ParseEdge(p, nodes[i]).Ok? ==>
              ReadAll(ParseEdgeWith(p), EdgeChildren(nodes[..i + 1])) == Ok(added + [ParseEdge(p, nodes[i]).value])
  {
    var s1 := nodes[..i + 1];
    assert s1[..|s1| - 1] == nodes[..i] && s1[|s1| - 1] == nodes[i];
    if nodes[i].tag == "edge" {
      assert EdgeChildren(s1) == EdgeChildren(nodes[..i]) + [nodes[i]];
      ReadAllSnoc(ParseEdgeWith(p), EdgeChildren(nodes[..i]), nodes[i]);
    } else {
      assert EdgeChildren(s1) == EdgeChildren(nodes[..i]) + [];
      assert EdgeChildren(nodes[..i]) + [] == EdgeChildren(nodes[..i]);
    }
  }

  /** An `edge` child that fails to parse, after edges that parse, is the exception of the whole read. */
  lemma ProminenceStopsAt(p: Parsers, nodes: seq<Element>, i: nat)
    requires i < |nodes| && nodes[i].tag == "edge"
    requires ReadAll(ParseEdgeWith(p), EdgeChildren(nodes[..i])).Ok? && ParseEdge(p, nodes[i]).Err?
    ensures ReadAll(ParseEdgeWith(p), EdgeChildren(nodes)) == Err(ParseEdge(p, nodes[i]).error)
  {
    var s1, after := nodes[..i + 1], nodes[i + 1..];
    assert s1[..|s1| - 1] == nodes[..i] && s1[|s1| - 1] == nodes[i];
    assert EdgeChildren(s1) == EdgeChildren(nodes[..i]) + [nodes[i]];
    assert nodes == s1 + after;
    EdgeChildrenAppend(s1, after);
    ReadAllStops(ParseEdgeWith(p), EdgeChildren(nodes[..i]), nodes[i], EdgeChildren(after));
  }

  method AppendProminence(p: Parsers, prominence: seq<InverseProminence.Edge>, marker: Element)
    returns (r: Result<seq<InverseProminence.Edge>, PyError>)
    ensures r == ProminenceOf(p, prominence, marker)
  {
    if marker.children == [] {
      return Err(IndexError);
    }
    var nodes := marker.children[0].children;
    var list := prominence;
    ghost var added: seq<InverseProminence.Edge> := [];
    var i := 0;
    while i < |nodes|
      invariant 0 <= i <= |nodes|
      invariant ReadAll(ParseEdgeWith(p), EdgeChildren(nodes[..i])) == Ok(added)
      invariant list == prominence + added
    {
      var node := nodes[i];
      ProminenceStep(p, nodes, i, added);
      if node.tag == "edge" {
        var edge := ParseEdge(p, node);
        if edge.Err? {
          ProminenceStopsAt(p, nodes, i);
          return Err(edge.error);
        }
        list := list + [edge.value];
        added := added + [edge.value];
      }
      i := i + 1;
    }
    assert nodes[..i] == nodes;
    return Ok(list);
  }

  /**
   * The list gains exactly the `edge` children of the first child, each
   * read as (from, to, w), in document order, after the earlier entries.
   */
  lemma ProminenceKeepsEdgesInOrder(p: Parsers, prominence: seq<InverseProminence.Edge>, marker: Element)
    requires ProminenceOf(p, prominence, marker).Ok?
    ensures marker.children != []
    ensures var edges := EdgeChildren(marker.children[0].children);
            var r := ProminenceOf(p, prominence, marker).value;
            && |r| == |prominence| + |edges|
            && r[..|prominence|] == prominence
            && forall k :: 0 <= k < |edges| ==> edges[k].tag == "edge" && ParseEdge(p, edges[k]) == Ok(r[|prominence| + k])
  {
    var edges := EdgeChildren(marker.children[0].children);
    EdgeChildrenMeaning(marker.children[0].children);
    ReadAllMeaning(ParseEdgeWith(p), edges);
  }

  // ---------------------------------------------------------------------
  // Lines 150-196: the whole walk
  // ---------------------------------------------------------------------

  const NoConcepts := Concepts(map[], map[], [], None)

  /** One top-level element: the branch its tag selects, if any. */
  function MarkerStep(p: Parsers, c: Concepts, marker: Element): Result<Concepts, PyError> {
    if marker.tag == "markers" then
      var numBlocks :- Attr(marker, "cbcount");
      var entities :- StoreAll(ReadEntityWith(p), EntityKey, c.entities, marker.children);
      Ok(c.(entities := entities, numBlocks := Some(numBlocks)))
    else if marker.tag == "themes" then
      var themes :- StoreAll(ParseThemeWith(p), ThemeKey, c.themes, marker.children);
      Ok(c.(themes := themes))
    else if marker.tag == "mst" then
      var entities :- FoldOk(MstNodeWith(p), c.entities, marker.children);
      Ok(c.(entities := entities))
    else if marker.tag == "prominence" then
      var prominence :- ProminenceOf(p, c.prominence, marker);
      Ok(c.(prominence := prominence))
    else Ok(c)
  }

  function MarkerStepWith(p: Parsers): (Concepts, Element) -> Result<Concepts, PyError> {
    (c: Concepts, marker: Element) => MarkerStep(p, c, marker)
  }

  /** What `get_concepts` returns for the document `root`, or the exception it raises. */
  function Converted(p: Parsers, root: Element): Result<Concepts, PyError> {
    FoldOk(MarkerStepWith(p), NoConcepts, root.children)
  }

  /** `get_concepts` over an already parsed document. */
  method GetConcepts(p: Parsers, root: Element) returns (r: Result<Concepts, PyError>)
    ensures r == Converted(p, root)
  {
    var markers := root.children;
    var numBlocks: Option<string> := None;
    var entities: map<int, Entity> := map[];
    var themes: map<int, Theme> := map[];
    var prominence: seq<InverseProminence.Edge> := [];
    var i := 0;
    assert markers[..0] == [];
    while i < |markers|
      invariant 0 <= i <= |markers|
      invariant FoldOk(MarkerStepWith(p), NoConcepts, markers[..i]) == Ok(Concepts(entities, themes, prominence, numBlocks))
    {
      var marker := markers[i];
      FoldOkStep(MarkerStepWith(p), NoConcepts, markers, i);
      if marker.tag == "markers" {
        if "cbcount" !in marker.attrib {
          FoldOkStopsAt(MarkerStepWith(p), NoConcepts, markers, i);
          return Err(KeyError("cbcount"));
        }
        numBlocks := Some(marker.attrib["cbcount"]);
        var next := StoreEntities(p, entities, marker.children);
        if next.Err? {
          FoldOkStopsAt(MarkerStepWith(p), NoConcepts, markers, i);
          return Err(next.error);
        }
        entities := next.value;
      }
      if marker.tag == "themes" {
        var next := StoreThemes(p, themes, marker.children);
        if next.Err? {
          FoldOkStopsAt(MarkerStepWith(p), NoConcepts, markers, i);
          return Err(next.error);
        }
        themes := next.value;
      }
      if marker.tag == "mst" {
        var next := AppendMst(p, entities, marker.children);
        if next.Err? {
          FoldOkStopsAt(MarkerStepWith(p), NoConcepts, markers, i);
          return Err(next.error);
        }
        entities := next.value;
      }
      if marker.tag == "prominence" {
        var next := AppendProminence(p, prominence, marker);
        if next.Err? {
          FoldOkStopsAt(MarkerStepWith(p), NoConcepts, markers, i);
          return Err(next.error);
        }
        prominence := next.value;
      }
      i := i + 1;
    }
    assert markers[..i] == markers;
    return Ok(Concepts(entities, themes, prominence, numBlocks));
  }

  // ---------------------------------------------------------------------
  // Properties of the whole walk
  // ---------------------------------------------------------------------

  /** Every entity and every theme sits under its own id. */
  predicate Keyed(c: Concepts) {
    && (forall k :: k in c.entities ==> c.entities[k].id == k)
    && (forall k :: k in c.themes ==> c.themes[k].id == k)
  }

  lemma MarkerStepKeepsKeys(p: Parsers, c: Concepts, marker: Element)
    requires Keyed(c) && MarkerStep(p, c, marker).Ok?
    ensures Keyed(MarkerStep(p, c, marker).value)
  {
    if marker.tag == "markers" {
      assert StoreAll(ReadEntityWith(p), EntityKey, c.entities, marker.children).Ok?;
      assert forall k :: k in c.entities ==> EntityKey(c.entities[k]) == k;
      StoreAllKeyed(ReadEntityWith(p), EntityKey, c.entities, marker.children);
    } else if marker.tag == "themes" {
      assert StoreAll(ParseThemeWith(p), ThemeKey, c.themes, marker.children).Ok?;
      assert forall k :: k in c.themes ==> ThemeKey(c.themes[k]) == k;
      StoreAllKeyed(ParseThemeWith(p), ThemeKey, c.themes, marker.children);
    } else if marker.tag == "mst" {
      MstKeepsKeys(p, c.entities, marker.children);
    }
  }

  lemma {:induction false} MstKeepsKeys(p: Parsers, m: map<int, Entity>, nodes: seq<Element>)
    requires forall k :: k in m ==> m[k].id == k
    requires FoldOk(MstNodeWith(p), m, nodes).Ok?
    ensures var r := FoldOk(MstNodeWith(p), m, nodes).value;
            forall k :: k in r ==> r[k].id == k
  {
    if nodes != [] {
      MstKeepsKeys(p, m, nodes[..|nodes| - 1]);
    }
  }

  /** The returned dictionaries hold each entity under its `id` and each theme under its `id`. */
  lemma {:induction false} ConvertedIsKeyed(p: Parsers, markers: seq<Element>)
    requires FoldOk(MarkerStepWith(p), NoConcepts, markers).Ok?
    ensures Keyed(FoldOk(MarkerStepWith(p), NoConcepts, markers).value)
  {
    if markers != [] {
      var init := markers[..|markers| - 1];
      ConvertedIsKeyed(p, init);
      MarkerStepKeepsKeys(p, FoldOk(MarkerStepWith(p), NoConcepts, init).value, markers[|markers| - 1]);
    }
  }

  /** `num_blocks` is the `cbcount` of the last `markers` element, and `None` when there is none. */
  lemma {:induction false} NumBlocksFromLastMarkers(p: Parsers, markers: seq<Element>)
    requires FoldOk(MarkerStepWith(p), NoConcepts, markers).Ok?
    ensures var last := LastWith(markers, TagOf, "markers");
            FoldOk(MarkerStepWith(p), NoConcepts, markers).value.numBlocks ==
              if last.None? then None else Lookup(last.value.attrib, "cbcount")
  {
    if markers != [] {
      var init, x := markers[..|markers| - 1], markers[|markers| - 1];
      assert markers == init + [x];
      NumBlocksFromLastMarkers(p, init);
      LastWithSnoc(init, x, TagOf, "markers");
      MarkerStepNumBlocks(p, FoldOk(MarkerStepWith(p), NoConcepts, init).value, x);
    }
  }

  lemma MarkerStepNumBlocks(p: Parsers, c: Concepts, marker: Element)
    requires MarkerStep(p, c, marker).Ok?
    ensures MarkerStep(p, c, marker).value.numBlocks ==
              if marker.tag == "markers" then Lookup(marker.attrib, "cbcount") else c.numBlocks
  {
  }

  /** Once a prefix of the walk has raised, the whole walk raises the same exception. */
  lemma {:induction false} FoldOkErrSticks<A, T, E>(step: (A, T) -> Result<A, E>, init: A, s: seq<T>, i: nat)
    requires i <= |s| && FoldOk(step, init, s[..i]).Err?
    ensures FoldOk(step, init, s) == FoldOk(step, init, s[..i])
    decreases |s|
  {
    if i < |s| {
      var init' := s[..|s| - 1];
      assert init'[..i] == s[..i];
      FoldOkErrSticks(step, init, init', i);
    } else {
      assert s[..i] == s;
    }
  }

  /** `mst` nodes each with a first child that lists no edge. */
  predicate EdgeFree(nodes: seq<Element>) {
    forall k :: 0 <= k < |nodes| ==> nodes[k].children != [] && nodes[k].children[0].children == []
  }

  /** Nodes without edges leave the entities as they are. */
  lemma {:induction false} EdgeFreeKeepsEntities(p: Parsers, m: map<int, Entity>, nodes: seq<Element>)
    requires EdgeFree(nodes)
    ensures FoldOk(MstNodeWith(p), m, nodes) == Ok(m)
    decreases |nodes|
  {
    if nodes != [] {
      var init := nodes[..|nodes| - 1];
      assert EdgeFree(init) by {
        forall k | 0 <= k < |init| ensures init[k].children != [] && init[k].children[0].children == [] {
          assert init[k] == nodes[k];
        }
      }
      EdgeFreeKeepsEntities(p, m, init);
    }
  }

  /** With no entity yet, an `mst` element that does not raise adds none. */
  lemma {:induction false} MstOnNoEntities(p: Parsers, nodes: seq<Element>)
    requires FoldOk(MstNodeWith(p), map[], nodes).Ok?
    ensures FoldOk(MstNodeWith(p), map[], nodes).value == map[]
    decreases |nodes|
  {
    if nodes != [] {
      MstOnNoEntities(p, nodes[..|nodes| - 1]);
    }
  }

  /** Before the first `markers` element, a walk that has not raised holds no entity. */
  lemma {:induction false} NoEntitiesBeforeMarkers(p: Parsers, markers: seq<Element>)
    requires forall k :: 0 <= k < |markers| ==> markers[k].tag != "markers"
    requires FoldOk(MarkerStepWith(p), NoConcepts, markers).Ok?
    ensures FoldOk(MarkerStepWith(p), NoConcepts, markers).value.entities == map[]
    decreases |markers|
  {
    if markers != [] {
      var init := markers[..|markers| - 1];
      var x := markers[|markers| - 1];
      assert forall k :: 0 <= k < |init| ==> init[k] == markers[k];
      NoEntitiesBeforeMarkers(p, init);
      if x.tag == "mst" {
        MstOnNoEntities(p, x.children);
      }
    }
  }

  /**
   * An `mst` element met before any `markers` element finds no entity, so
   * if one of its nodes has edges the walk raises; unless an earlier element
   * already raised, it is a KeyError for the id of the first such node.
   */
  lemma MstBeforeMarkersFails(p: Parsers, root: Element, i: nat, j: nat, id: int)
    requires i < |root.children| && root.children[i].tag == "mst"
    requires forall k :: 0 <= k < i ==> root.children[k].tag != "markers"
    requires var nodes := root.children[i].children;
             && j < |nodes| && EdgeFree(nodes[..j])
             && nodes[j].children != [] && nodes[j].children[0].children != []
             && IntAttr(p, nodes[j], "id") == Ok(id)
    ensures Converted(p, root).Err?
    ensures FoldOk(MarkerStepWith(p), NoConcepts, root.children[..i]).Ok? ==> Converted(p, root) == Err(IdKeyError(id))
  {
    var markers := root.children;
    var before := FoldOk(MarkerStepWith(p), NoConcepts, markers[..i]);
    if before.Ok? {
      var nodes := markers[i].children;
      NoEntitiesBeforeMarkers(p, markers[..i]);
      EdgeFreeKeepsEntities(p, map[], nodes[..j]);
      FoldOkStopsAt(MstNodeWith(p), map[], nodes, j);
      FoldOkStopsAt(MarkerStepWith(p), NoConcepts, markers, i);
    } else {
      FoldOkErrSticks(MarkerStepWith(p), NoConcepts, markers, i);
    }
  }

  // ---------------------------------------------------------------------
  // Lines 21-31: STATUS_MAP
  // ---------------------------------------------------------------------

  /** The progress number of each stage of the analysis. */
  const StatusMap: map<string, int> := map[
    "PREPROCESS" := 11,
    "TEXTSTATS" := 22,
    "REMOVE_LOW_FREQ" := 33,
    "INDEX" := 44,
    "FINDSEEDS" := 55,
    "LEARN" := 66,
    "CLASSIFY" := 78,
    "CLUSTER" := 90]

  /** The stages in the order the analysis runs them. */
  const Stages: seq<string> := ["PREPROCESS", "TEXTSTATS", "REMOVE_LOW_FREQ", "INDEX", "FINDSEEDS", "LEARN", "CLASSIFY", "CLUSTER"]

  /** Progress grows strictly from the first stage, 11, to the last, 90. */
  lemma StatusMapAscends()
    ensures forall s :: s in StatusMap <==> s in Stages
    ensures forall i, j :: 0 <= i < j < |Stages| ==> StatusMap[Stages[i]] < StatusMap[Stages[j]]
    ensures StatusMap[Stages[0]] == 11 && StatusMap[Stages[|Stages| - 1]] == 90
    ensures forall s :: s in StatusMap ==> 11 <= StatusMap[s] <= 90
  {
    var progress := [11, 22, 33, 44, 55, 66, 78, 90];
    forall k | 0 <= k < |Stages|
      ensures Stages[k] in StatusMap && StatusMap[Stages[k]] == progress[k]
    {
    }
    forall s | s in StatusMap
      ensures s in Stages && 11 <= StatusMap[s] <= 90
    {
    }
  }
}
