# Text is Beautiful: the data-preparation layer, in Dafny

Text is Beautiful turns a text into a Leximancer concept map and draws it in
the browser as a word cloud, a correlation wheel and a story wheel. This
project models the layer between the analysis engine and the drawings:

- **`get_concepts`** (`tib/utils.py`) walks the parsed markers document and
  builds the `entities` dictionary, the `themes` dictionary, the
  inverse-prominence edge list and the block count. The model is module
  `Utils`. `STATUS_MAP`, the stage-to-progress table, is kept there too.
- **`result` and `status`** (`tib/views.py`) make the pure decisions about
  a submission and about a project's status. The model is module `Views`.
- **`tib.util.loadData`** (`tib/resources/js/util.js`) builds the word
  list, its size domain, the positions keyed by name, the spanning-tree
  segments and the inverse-prominence tree. The model is module
  `VisUtil`. The tree steps are module `InverseProminence`:
  - the flat `node_list`;
  - the recursive `treeBuilder`;
  - the root scan.
- **The story wheel's constructor** (`tib/resources/js/story_wheel.js`)
  repeats the same tree steps. The model is module `StoryWheel`.
- **`tib.vis.CorrelationWheel`** (`tib/resources/js/correlation_wheel.js`)
  covers the constructor's settings, `initData`, `calcLinks` and
  `calcArcs`. The model is module `CorrelationWheel`, built around the
  class `CorrelationWheel`.

Shared pieces:

- `Common` holds the `Option` and `Result` types, the exceptions a script
  can throw, and the "last entry wins" maps that JavaScript objects and
  Python dictionaries give.
- `Sorting` holds the descending sort that `words.sort` and `links.sort`
  perform.
- `Payload` holds the concept records the scripts receive.

Each script loop that fills a collection is a method with a loop. Each
method is proved equal to a function that says per element what the loop
builds; lemmas then state the promised properties about that function.
A JavaScript exception or a Python exception is an error value of a
`Result`, never a precondition.

## Model

| member | source | states |
|---|---|---|
| VisUtil.CollectWords | tib/resources/js/util.js:14-44 | The loop's results, per output: (1) one word per concept, in order, with size = weight and text = value. (2) `minSize`/`maxSize` are null exactly when there are no concepts; otherwise they bound every size and both occur. (3) `cluster`, `wordNamesForId` and `wordsForName` are the maps in which the last concept with a key wins. |
| VisUtil.ClusterLastWins | tib/resources/js/util.js:38-41 | A name has a position only if some concept has that name. The position is (x·WIDTH/2, y·HEIGHT/2) of the last such concept. |
| VisUtil.NamesForIdLastWins | tib/resources/js/util.js:42 | `wordNamesForId[id]` is the value of the last concept with that id, and is undefined when there is none. |
| VisUtil.WordsForNameLastWins | tib/resources/js/util.js:43 | `wordsForName[text]` is the word of the last concept with that text. |
| VisUtil.ClusterScalesWithWidth | tib/resources/js/util.js:38-41 | Scaling WIDTH by f keeps the same names, scales every x by f and leaves every y unchanged. |
| VisUtil.SortKeepsDomain | tib/resources/js/util.js:31-37 | Reordering the words keeps the size domain tight. |
| Sorting.Insert | tib/resources/js/util.js:47 | Inserting into the sorted list adds exactly one element to its multiset. |
| Sorting.InsertSorted | tib/resources/js/util.js:47 | Inserting into a list sorted by key, largest first, keeps it sorted. |
| Sorting.SortDesc | tib/resources/js/util.js:47 | The sorted words are non-increasing in size and are a permutation of the input. |
| VisUtil.WordSegments | tib/resources/js/util.js:52-60 | A word gives one segment per spanning-tree edge. |
| VisUtil.MstLists | tib/resources/js/util.js:50-61 | There is one segment list per sorted word. |
| VisUtil.BuildMst | tib/resources/js/util.js:50-61 | The loop throws a TypeError exactly when some edge end has no position (line 57 reads `.x` of `undefined`); no edge is dropped. Otherwise it yields the segments of every word in word order, then edge order. |
| VisUtil.OffsetIsEdgeCount | tib/resources/js/util.js:50-61 | The segments of word i start after the edges of all earlier words. |
| VisUtil.MstLayout | tib/resources/js/util.js:50-61 | (1) `mst` has Σ edges.length segments. (2) The segment for edge j of word i sits at (edges before word i) + j. (3) That segment runs from the word's position to the position of the name its target id maps to. |
| VisUtil.LoadData | tib/resources/js/util.js:14-130 | The result, in order of checks: (1) the sorted words, the size domain, the positions and `wordsForName`; (2) the segments, or a TypeError when an edge end has no position; (3) the tree the intended root scan builds over the `node_list` of `iprom`, or the exception that scan throws. |
| InverseProminence.UnmentionedId | tib/resources/js/util.js:66-93 | An id that is no edge's endpoint gets no entry: no parent, no weight, no id, no children. |
| InverseProminence.AddEdgeStep | tib/resources/js/util.js:72-92 | One pass of the edge loop takes the `node_list` of the earlier edges to the `node_list` of the earlier edges plus this one. |
| InverseProminence.BuildNodeList | tib/resources/js/util.js:66-93 | After the loop, `node_list` is the per-id description NodeList of the edges, and `length` is the number of distinct endpoints. NodeList is defined as follows: (1) the children of x are the `to`s of the edges from x, in order; (2) the parent of y is the `from` of the last edge into y; (3) the weight is set only when y's entry existed before that edge; (4) the `id` is set only on entries first created as a `to`. |
| InverseProminence.NodeListSize | tib/resources/js/util.js:78-91 | The number of entries equals the number of distinct endpoints, which is the `length` counter. |
| InverseProminence.EndpointsAreEdgeEnds | tib/resources/js/util.js:66-93 | An id has an entry exactly when it is the `from` or the `to` of some edge. |
| InverseProminence.ParentAndWeightFromLastEdge | tib/resources/js/util.js:82-91 | Parent and weight come from the last edge into y. The weight is unset when that edge created y's entry. Without such an edge, both are unset. |
| InverseProminence.ChildrenAreEndpoints | tib/resources/js/util.js:72-77 | Every child is an endpoint. |
| InverseProminence.ChildrenHaveEntries | tib/resources/js/util.js:66-93 | Every child listed in `node_list` has an entry of its own. |
| InverseProminence.TreeBuilder | tib/resources/js/util.js:95-107 | On success: the tree's name is `wordNamesForId[id]`, its weight is the entry's weight, and its children are those the children loop builds from the entry's children. |
| InverseProminence.BuildAll | tib/resources/js/util.js:103-105 | A finished children loop has exactly one subtree per child, after those already built. |
| InverseProminence.BuildAllYields | tib/resources/js/util.js:103-105 | Subtree k of a finished children loop is `treeBuilder(children[k])`. |
| InverseProminence.CycleNeverFinishes | tib/resources/js/util.js:95-107 | From a node on a cycle, `treeBuilder` never returns a tree, whatever the stack depth. |
| InverseProminence.RankedFinishes | tib/resources/js/util.js:95-107 | If every child has an entry and a smaller rank than its parent, `treeBuilder` returns a tree once the stack exceeds the node's rank. |
| InverseProminence.RankedChildrenFinish | tib/resources/js/util.js:103-105 | The children loop finishes when every child is ranked below the bound. |
| InverseProminence.StopsAtUnique | tib/resources/js/util.js:108-109 | The scan stops at one index at most. |
| InverseProminence.ScanDescribesUnique | tib/resources/js/util.js:108-121 | The description of the scan's outcome fixes that outcome. |
| InverseProminence.RootScan | tib/resources/js/util.js:108-121 | The intended scan: (1) no root when every index in 0..length-1 has an entry with a parent; (2) otherwise, at the first index without an entry or parent, either the unweighted root named `wordNamesForId[i]` with one subtree per child, or the TypeError or subtree exception that stopped it. |
| InverseProminence.AsWrittenRootChildren | tib/resources/js/util.js:116-118 | The loop as written keeps the subtrees already collected as a prefix of its result. |
| InverseProminence.AsWrittenTakesFirstChildren | tib/resources/js/util.js:116-118 | The m-th subtree the loop as written collects is the tree of the first child of index root + m, and that entry has children; the root's own later children are never visited. |
| InverseProminence.AsWrittenStopsAtLeaf | tib/resources/js/util.js:116-118 | When the loop as written finishes, it has stopped at the first index after the root whose entry has no children. |
| InverseProminence.AsWrittenDropsSiblings | tib/resources/js/util.js:116-118 | For a root with two children, the loop as written keeps only the first child; the intended loop keeps both. |
| StoryWheel.StoryScan | tib/resources/js/story_wheel.js:70-83 | The scan never yields a root. (1) With no parentless index there is no root. (2) Otherwise it stops at the first such index and throws: a TypeError when that index has no entry, a ReferenceError (undeclared `wordNamesForId`) when it has one. |
| StoryWheel.BuildStoryTree | tib/resources/js/story_wheel.js:28-83 | Applied to the `node_list` of `iprom`, with `length` = number of distinct ids, the scan has the outcome above. |
| StoryWheel.StoryWheelLosesEveryRoot | tib/resources/js/story_wheel.js:70-83 | Wherever the intended scan builds a root, this file throws a ReferenceError. Both report "no root" in the same cases. |
| StoryWheel.StoryWheelFaultsOnOneEdge | tib/resources/js/story_wheel.js:70-83 | For the single edge 0→1, the intended scan gives root 0 with child 1, while this file throws a ReferenceError. |
| Payload.NatDigits | tib/resources/js/correlation_wheel.js:29 | The decimal digits of a natural number, without a leading zero. |
| Payload.DecimalKey | tib/resources/js/correlation_wheel.js:29 | A non-empty property key that starts with '-' exactly for negative ids. |
| Payload.DecimalKeyInjective | tib/resources/js/correlation_wheel.js:29 | Different ids give different property keys. |
| CorrelationWheel.CorrelationWheel.constructor | tib/resources/js/correlation_wheel.js:8-66 | The options are copied first, then `arcWidth = 20`, `arcPadding = 4` and `numLinks = 200` override whatever they said. The nodes are those `initData` builds. |
| CorrelationWheel.InitData | tib/resources/js/correlation_wheel.js:22-65 | (1) One node per concept, in order, with its name, key, parsed theme and weight. (2) Each node has one related entry per related item, in order, with key = parseInt(id) and name = `wordNamesForId[id]`. |
| CorrelationWheel.RelatedEntries | tib/resources/js/correlation_wheel.js:42-52 | One entry per related item, in order, as described above. |
| CorrelationWheel.WordNamesCoverConcepts | tib/resources/js/correlation_wheel.js:27-31 | Every concept's id is a key of `wordNamesForId`. The value stored there is that of the last concept with that id. |
| CorrelationWheel.RelatedNameIsConceptValue | tib/resources/js/correlation_wheel.js:47 | A related item naming a concept's id gets the value of the last concept with that id. |
| CorrelationWheel.ByNameHasEveryNode | tib/resources/js/correlation_wheel.js:105-107 | Every node's name is a key of the name map. |
| CorrelationWheel.LinkLists | tib/resources/js/correlation_wheel.js:110-123 | One link list per node, with one link per related entry. |
| CorrelationWheel.CandidatesCount | tib/resources/js/correlation_wheel.js:110-123 | The links of node i start after the related entries of all earlier nodes. |
| CorrelationWheel.CandidateLayout | tib/resources/js/correlation_wheel.js:105-123 | (1) Before sorting there is one link per (node, related) pair, in node order, then entry order. (2) The link's source is the last node with that node's name, and its target the last node with the related name, if any. (3) prom, strength and count are copied. |
| CorrelationWheel.SpliceCount | tib/resources/js/correlation_wheel.js:126 | `splice(0, n)` removes min(n, length) elements for n ≥ 0. |
| CorrelationWheel.CorrelationWheel.CalcLinks | tib/resources/js/correlation_wheel.js:100-127 | (1) The returned links number min(#links, numLinks). (2) They are a prefix of the links sorted by prom, largest first. (3) They are sorted themselves and drawn from the candidate links. |
| CorrelationWheel.PrefixKeepsOrder | tib/resources/js/correlation_wheel.js:124-126 | A prefix of the sorted list is sorted and a sub-multiset of it. |
| CorrelationWheel.MembersAreThemeAngles | tib/resources/js/correlation_wheel.js:152-157 | Every node's angle is in its theme's group. A group is non-empty exactly when some node has that theme. |
| CorrelationWheel.GroupsLength | tib/resources/js/correlation_wheel.js:152-157 | The grouping array is longer than every theme index. |
| CorrelationWheel.GroupByTheme | tib/resources/js/correlation_wheel.js:152-157 | The loop groups the angles by theme, in node order, with an entry exactly for the themes that have nodes. |
| CorrelationWheel.SeqExtentBounds | tib/resources/js/correlation_wheel.js:161-172 | The minimum and the maximum occur in the group and bound every angle in it. |
| CorrelationWheel.SeqExtentSnoc | tib/resources/js/correlation_wheel.js:164-172 | One more angle updates min and max as the loop's two `if`s do. |
| CorrelationWheel.Extent | tib/resources/js/correlation_wheel.js:161-172 | The loop finds the group's minimum and maximum. |
| CorrelationWheel.AppendArc | tib/resources/js/correlation_wheel.js:160-175 | Visiting the next index adds its arc exactly when the index has a group. |
| CorrelationWheel.ArcsMatchSnoc | tib/resources/js/correlation_wheel.js:174 | Appending the arc of a theme with members keeps arcs and themes aligned. |
| CorrelationWheel.CalcArcs | tib/resources/js/correlation_wheel.js:148-178 | One arc per theme with nodes, in ascending theme order. Each arc runs from min − 1 to max + 1 degrees. |
| CorrelationWheel.ThemesAreDistinctAscending | tib/resources/js/correlation_wheel.js:160 | The visited themes are strictly ascending and below the array length. They are exactly the indices that have nodes. |
| CorrelationWheel.ArcEnclosesMembers | tib/resources/js/correlation_wheel.js:148-177 | Every node's theme has an arc, and the node's angle lies strictly inside it. |
| Utils.ParseEntity | tib/utils.py:164-174 | The entity's `id` is `int(id)`, `mstEdges` starts empty and no `related` is set yet. An unreadable id is that exception. |
| Utils.ParseTheme | tib/utils.py:187 | The theme's `id` is `int(index)`. |
| Utils.ReadAllMeaning | tib/utils.py:177-183 | A loop that appends one value per element (1) succeeds exactly when every element reads, and then gives each element's value in order; (2) otherwise it raises the exception of the first element that fails. |
| Utils.ReadAllStops | tib/utils.py:177-183 | Later elements play no part once one element raises. |
| Utils.StoreAllLastWins | tib/utils.py:163-164 | After a keyed storing loop, a key holds the last value stored under it, or its earlier value. |
| Utils.StoreAllKeyed | tib/utils.py:163-165 | Storing values under their own ids keeps every value's `id` equal to its key. |
| Utils.FoldOkStopsAt | tib/utils.py:160-195 | The first step that raises ends the walk with that exception. |
| Utils.ReadEntity | tib/utils.py:163-184 | (1) An entity has `related` exactly when its element has children. (2) Its `related` is the item list of the last child group. |
| Utils.ReadRelatedGroup | tib/utils.py:176-183 | The loop builds one related item per row, in document order, or raises the first row's missing-attribute error. |
| Utils.StoreEntity | tib/utils.py:164-184 | The entity is stored under its id, and nothing else changes; or the entity's exception is raised. |
| Utils.StoreEntities | tib/utils.py:163-184 | The entity loop stores every entity under its id, the last one with an id winning. It stops at the first exception. |
| Utils.EntitiesLastWins | tib/utils.py:163-184 | Every stored entity has empty `mstEdges`. Each id holds the last entity read with it. |
| Utils.StoreThemes | tib/utils.py:185-187 | The theme loop stores every theme under `int(index)`, the last one winning. It stops at the first exception. |
| Utils.AppendMstEdges | tib/utils.py:189-191 | One `mst` node: (1) `node[0]` on a node without children is an IndexError; (2) otherwise the targets of its edges are appended to its entity in order; (3) a missing entity is a KeyError. |
| Utils.AppendMst | tib/utils.py:188-191 | The node loop applies that step to every node in order, stopping at the first exception. |
| Utils.MstAppendsInOrder | tib/utils.py:190-191 | (1) A node whose id has no entity raises KeyError. (2) Otherwise only that entity changes, and its `mstEdges` gains one `to` per edge, in document order. |
| Utils.MstKeepsKeys | tib/utils.py:188-191 | Appending edges keeps every entity's `id` equal to its key. |
| Utils.MstBeforeMarkersFails | tib/utils.py:188-191 | An `mst` element at any position, with no `markers` element before it and with a node that has edges, makes the walk raise. Unless an earlier element already raised, it is KeyError(id) at its first node with edges, all earlier nodes of that element being edge-free. |
| Utils.FoldOkErrSticks | tib/utils.py:160-195 | Once a prefix of the children raises, the whole walk raises the same exception. |
| Utils.EdgeFreeKeepsEntities | tib/utils.py:189-191 | `mst` nodes whose first child has no edges leave the entity map unchanged, even when it is empty. |
| Utils.MstOnNoEntities | tib/utils.py:188-191 | An `mst` element that succeeds on an empty entity map leaves it empty. |
| Utils.NoEntitiesBeforeMarkers | tib/utils.py:160-195 | Before any `markers` element has been read, a walk that succeeds has stored no entity. |
| Utils.EdgeChildrenMeaning | tib/utils.py:193-194 | The filtered children all carry the tag `edge`, and every `edge` child is among them. |
| Utils.EdgeChildrenAppend | tib/utils.py:193-194 | Filtering a concatenation filters each part. |
| Utils.AppendProminence | tib/utils.py:192-195 | The loop appends, to the list, the parsed edges of the first child's `edge` children. |
| Utils.ProminenceKeepsEdgesInOrder | tib/utils.py:192-195 | (1) The earlier list is kept as a prefix. (2) Then come exactly the `edge`-tagged children of the first child, in document order, each parsed to from/to/weight. (3) A `prominence` element without children fails. |
| Utils.GetConcepts | tib/utils.py:150-196 | The walk over the top-level elements gives exactly the declarative Converted result, or its first exception. |
| Utils.MarkerStepKeepsKeys | tib/utils.py:160-195 | Each top-level element keeps entities and themes keyed by their own ids. |
| Utils.ConvertedIsKeyed | tib/utils.py:150-196 | In the result, every entity and every theme is stored under its own `id`. |
| Utils.MarkerStepNumBlocks | tib/utils.py:160-162 | Only a `markers` element changes `num_blocks`, to its `cbcount`. |
| Utils.NumBlocksFromLastMarkers | tib/utils.py:154-162 | `num_blocks` is the `cbcount` of the last `markers` element, or None when there is none. |
| Utils.StatusMapAscends | tib/utils.py:22-31 | The table maps exactly the eight stages, strictly increasing in pipeline order, from 11 to 90. |
| Views.HttpPrefixAddsNoHttps | tib/views.py:39-40 | Prefixing `http://` to a link free of `https://` keeps it free of it. |
| Views.ReplaceHttpsRemovesAll | tib/views.py:38 | After `replace('https://', 'http://')` no `https://` remains. |
| Views.ReplaceHttpsKeepsClean | tib/views.py:38 | The replacement leaves a link without `https://` unchanged. |
| Views.NormaliseUrl | tib/views.py:37-40 | The normalised link starts with `http://` and contains no `https://`. |
| Views.NormaliseUrlIdempotent | tib/views.py:37-40 | Normalising twice is normalising once, and a normal link is left as it is. |
| Views.NormaliseUrlDowngradesHttps | tib/views.py:38 | `https://rest` becomes `http://rest`. |
| Views.Submit | tib/views.py:28-73 | (1) A non-POST request is a bad request. (2) Text is accepted exactly when 5000 ≤ len ≤ 105000, and otherwise is `text_error`. (3) A link is fetched only when, normalised, it is valid and contains `wikipedia.org/wiki/`. (4) With neither field the lookup raises. |
| Views.WikiLinksOnly | tib/views.py:49-53 | A valid link is refused exactly when it does not contain `wikipedia.org/wiki/`. |
| Views.Status | tib/views.py:81-101 | In order: (1) exactly a failed fetch is `FetchError`; (2) no result is progress 0, not completed; (3) exactly stage MAP is `Finished` with the concepts `get_concepts` returns for the markers document when that succeeds, or `MapRaised` with its exception when it raises; (4) otherwise exactly state `error` is `ProjectFailed` with the project's message; (5) otherwise a known stage is `Running` at `STATUS_MAP[stage]`, in 11..90, and any non-zero progress comes from a known stage; (6) exactly the remaining stages are `UnknownStage` (KeyError). |
| Views.MapBeforeError | tib/views.py:88-99 | Stage MAP with state error is never `ProjectFailed`; when the markers convert it is the finished map, completed with progress 100. |
| Views.MstFirstMapRaises | tib/views.py:88-96 | At stage MAP, a markers document with an `mst` element that comes before any `markers` element and has a node with edges makes `status` raise; unless an earlier element raised, it is KeyError at the first node with edges. |
| Views.ProgressFollowsStages | tib/views.py:98-101 | A later pipeline stage reports strictly more progress than an earlier one. |

## Left out

- Drawing is not modelled: d3, the DOM and SVG, `generate`, `draw`, the mouse handlers, and the d3 cluster and tree layouts. The angles `calcArcs` reads are an input.
- `calcSplines` and the conversion of the arcs to radians are not modelled. They use floating-point trigonometry, so the arcs stay in degrees. The `splines` array `calcLinks` fills and never returns is also left out.
- Numbers are exact reals. IEEE rounding, NaN and string-to-number coercion are out. `parseInt`, `int()` and `float()` are parameters. The node `key` is the concept id itself, which is what `parseInt(w.id, 10)` at correlation_wheel.js:39 gives for an integer id below 1e21. So is the coercion `b.prom - a.prom` applies to `prom`.
- CorrelationWheel.CalcArcs: theme ids are natural numbers. A NaN or negative `themeId`, which `for (i in sortedNodes)` would visit as a non-index property, is not modelled.
- Sorting.SortDesc: the engine's sort algorithm is not specified. A stable insertion sort stands in for it. `SortDesc` itself claims only what any such sort gives: sorted, and a permutation. However, `CorrelationWheel.CorrelationWheel.CalcLinks` names its prefix of this particular sort. Among links of equal `prom`, an engine's unstable sort may keep different ones.
- Iteration order: `for (id in concepts)` and `for (var i in sortedNodes)` are taken to visit in sequence order and ascending index order respectively.
- InverseProminence.TreeBuilder: the engine's stack limit is a `depth` parameter. Running out is a RangeError, and no particular limit is modelled.
- `node_list.length` is used as the scan bound exactly as written. The model does not assume ids are 0..n-1.
- The story wheel's `treeBuilder` (story_wheel.js:57-69) is never reached: the scan throws at line 74 before line 79 could call it. Its model is the shared `InverseProminence.TreeBuilder`. Lines 1-23 of story_wheel.js draw and are out.
- Python `len` counts characters of the submitted text. The model counts elements of a character sequence and does not model encodings.
- The XML parser and comment nodes are out. `get_concepts` starts from an element tree whose children are elements.
- The I/O of `result` and `status` is out: `URLValidator` is a parameter, and the page fetch, `html2text`, file writing, the project id, creating and deleting projects, `update_map` and `get_markers` are not modelled.
- `get_project_status` itself is I/O. Its outcomes are the input of `Views.Status`.
- Views.Status: at stage MAP, `update_map`, `get_markers` and `delete_project` (tib/views.py:90-93) are network calls and are not modelled, nor are their exceptions. The markers document they would fetch is a parameter; the exceptions of `get_concepts` on it are the `MapRaised` reply.
- `tib/resources/js/cloud.js`, `vis.js`, `uic.js`, `tib/forms.py`, `tib/urls.py`, and the REST and file functions of `tib/utils.py` are not part of this model.
- When a spanning-tree target is no concept id, line 57 of util.js reads `.x` of `undefined` and throws; `VisUtil.BuildMst` returns a TypeError.

## Findings

| source | as written | input that shows it | evidently intended | confidence | as-written member | corrected member |
|---|---|---|---|---|---|---|
| tib/resources/js/util.js:116 | The children loop of the root increments `i` instead of `j`, so it pushes the first child of index root, root+1, … and never a second child of the root. | edges 0→1 and 0→2: the root gets only child 1. The loop stops at index 1, which has no children. | One subtree per child of the root, in order (the comment on line 115). | not executed | InverseProminence.AsWrittenDropsSiblings | InverseProminence.RootScan |
| tib/resources/js/story_wheel.js:74 | `wordNamesForId` is never declared in this file, so reading it when the scan finds a parentless index throws a ReferenceError. The loop at line 78 repeats the `i++` defect above. | the single edge 0→1: index 0 has no parent, and line 74 throws. | Build the root with its children, as util.js does. | not executed | StoryWheel.StoryWheelFaultsOnOneEdge | InverseProminence.RootScan |
