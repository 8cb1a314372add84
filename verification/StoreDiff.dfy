/** The mutations between two published generations of a CBM store, whose node ids are local to the
generation. */
module StoreDiff {
  import opened Collections
  import opened Wrappers
  import opened Model
  import opened Trees
  import opened RadixTree
  import opened Recorder

  // ---- Tables ----

  datatype RawNode = RawNode(nodeLabel: string, name: string, filePath: string, startLine: int, endLine: int, properties: string)

  datatype NodeRecord = NodeRecord(id: int, project: string, qualified: string, raw: RawNode)

  /** `local` is NULL when the store has no local name for the edge. */
  datatype EdgeRecord = EdgeRecord(id: int, project: string, source: int, target: int, edgeType: string,
                                   local: Option<string>, properties: string)

  datatype CoverageRecord = CoverageRecord(project: string, path: string, kind: string, detail: string)

  /** One published generation; `metadata` is the coverage metadata table, if the store has coverage. */
  datatype Store = Store(nodes: seq<NodeRecord>, edges: seq<EdgeRecord>, coverage: seq<CoverageRecord>,
                         metadata: Option<map<string, CoverageMetadata>>)

  // ---- The diff of two keyed tables ----

  /** The rows joined to a key. */
  function Matches<K(==), V>(table: seq<(K, V)>, key: K): seq<V> {
    if table == [] then []
    else
      var (k, value) := table[|table| - 1];
      Matches(table[..|table| - 1], key) + (if k == key then [value] else [])
  }

  /** One result row for each joined row that differs. */
  function Differing<K, V(==)>(key: K, value: V, joined: seq<V>): seq<K> {
    if joined == [] then []
    else Differing(key, value, joined[..|joined| - 1]) + (if joined[|joined| - 1] != value then [key] else [])
  }

  /** Old rows left-joined to the new ones: those without a partner or with another content. */
  function JoinOld<K, V(==)>(key: K, value: V, joined: seq<V>): seq<K> {
    if joined == [] then [key] else Differing(key, value, joined)
  }

  function OldKeys<K(==), V(==)>(before: seq<(K, V)>, after: seq<(K, V)>): seq<K> {
    if before == [] then []
    else
      var (key, value) := before[|before| - 1];
      OldKeys(before[..|before| - 1], after) + JoinOld(key, value, Matches(after, key))
  }

  /** New rows left-joined to the old ones: those without a partner. */
  function NewKeys<K(==), V(==)>(before: seq<(K, V)>, after: seq<(K, V)>): seq<K> {
    if after == [] then []
    else
      var (key, _) := after[|after| - 1];
      NewKeys(before, after[..|after| - 1]) + (if Matches(before, key) == [] then [key] else [])
  }

  function DiffKeys<K(==), V(==)>(before: seq<(K, V)>, after: seq<(K, V)>): seq<K> {
    OldKeys(before, after) + NewKeys(before, after)
  }

  ghost predicate Differs<K, V>(before: map<K, V>, after: map<K, V>, key: K) {
    (key in before) != (key in after) || (key in before && key in after && before[key] != after[key])
  }

  /** The list holds every changed key exactly once, so inserting it under a primary key succeeds. */
  ghost predicate ListsChanges<K(!new), V>(keys: seq<K>, before: map<K, V>, after: map<K, V>) {
    Distinct(keys) && forall key :: key in keys <==> Differs(before, after, key)
  }

  /** A key of a table with distinct keys joins its one row. */
  lemma {:induction false} MatchesOne<K, V(!new)>(table: seq<(K, V)>, m: map<K, V>, key: K)
    requires DistinctFirst(table) && Lists(table, m)
    ensures Matches(table, key) == if key in m then [m[key]] else []
  {
    MatchesWithin(table, m, |table|, key);
    assert table[..|table|] == table;
  }

  lemma {:induction false} MatchesWithin<K, V(!new)>(table: seq<(K, V)>, m: map<K, V>, n: nat, key: K)
    requires DistinctFirst(table) && Lists(table, m) && n <= |table|
    ensures Matches(table[..n], key) == if key in m && Before(table, n, key) then [m[key]] else []
  {
    if n > 0 {
      MatchesWithin(table, m, n - 1, key);
      assert table[..n][..n - 1] == table[..n - 1];
      if table[n - 1].0 == key {
        assert !Before(table, n - 1, key);
      } else {
        assert Before(table, n, key) <==> Before(table, n - 1, key);
      }
    }
  }

  ghost predicate Before<K, V>(table: seq<(K, V)>, n: nat, key: K)
    requires n <= |table|
  {
    exists i :: 0 <= i < n && table[i].0 == key
  }

  lemma JoinOne<K, V>(key: K, value: V, joined: seq<V>)
    requires |joined| <= 1
    ensures JoinOld(key, value, joined) == if joined == [] || joined[0] != value then [key] else []
  {
    if joined != [] {
      assert joined[..0] == [];
      assert Differing(key, value, joined[..0]) == [];
    }
  }

  lemma AppendOne<K>(keys: seq<K>, more: seq<K>)
    requires Distinct(keys) && |more| <= 1 && (more != [] ==> more[0] !in keys)
    ensures Distinct(keys + more) && forall k :: k in keys + more <==> k in keys || k in more
  {
  }

  lemma BeforeStep<K, V>(table: seq<(K, V)>, n: nat)
    requires DistinctFirst(table) && 0 < n <= |table|
    ensures !Before(table, n - 1, table[n - 1].0)
    ensures forall key :: Before(table, n, key) <==> Before(table, n - 1, key) || key == table[n - 1].0
  {
  }

  /** The keys that the first n old rows contribute. */
  lemma {:induction false} OldKeysWithin<K(!new), V(!new)>(before: seq<(K, V)>, after: seq<(K, V)>, m: map<K, V>,
                                                          m': map<K, V>, n: nat)
    requires DistinctFirst(before) && DistinctFirst(after) && Lists(before, m) && Lists(after, m') && n <= |before|
    ensures Distinct(OldKeys(before[..n], after))
    ensures forall key :: key in OldKeys(before[..n], after) <==>
      key in m && Differs(m, m', key) && Before(before, n, key)
  {
    hide Matches, JoinOld, Distinct;
    if n == 0 {
      NoKeys<K>();
    } else {
      BeforeStep(before, n);
      hide Before;
      OldKeysWithin(before, after, m, m', n - 1);
      assert before[..n][..n - 1] == before[..n - 1];
      var (key, value) := before[n - 1];
      MatchesOne(after, m', key);
      JoinOne(key, value, Matches(after, key));
      AppendOne(OldKeys(before[..n - 1], after), JoinOld(key, value, Matches(after, key)));
    }
  }

  lemma NoKeys<K>()
    ensures Distinct<K>([])
  {
  }

  lemma {:induction false} NewKeysWithin<K(!new), V(!new)>(before: seq<(K, V)>, after: seq<(K, V)>, m: map<K, V>,
                                                          m': map<K, V>, n: nat)
    requires DistinctFirst(before) && DistinctFirst(after) && Lists(before, m) && Lists(after, m') && n <= |after|
    ensures Distinct(NewKeys(before, after[..n]))
    ensures forall key :: key in NewKeys(before, after[..n]) <==> key !in m && key in m' && Before(after, n, key)
  {
    hide Matches;
    if n > 0 {
      BeforeStep(after, n);
      hide Before;
      NewKeysWithin(before, after, m, m', n - 1);
      assert after[..n][..n - 1] == after[..n - 1];
      var key := after[n - 1].0;
      MatchesOne(before, m, key);
    }
  }

  /** The two halves of the query list exactly the changed keys. */
  lemma DiffListsChanges<K(!new), V(!new)>(before: seq<(K, V)>, after: seq<(K, V)>, m: map<K, V>, m': map<K, V>)
    requires DistinctFirst(before) && DistinctFirst(after) && Lists(before, m) && Lists(after, m')
    ensures ListsChanges(DiffKeys(before, after), m, m')
  {
    hide OldKeys, NewKeys, Distinct;
    OldKeysWithin(before, after, m, m', |before|);
    NewKeysWithin(before, after, m, m', |after|);
    assert before[..|before|] == before && after[..|after|] == after;
    AllBefore(before, m);
    AllBefore(after, m');
    HalvesAreDisjoint(OldKeys(before, after), NewKeys(before, after));
  }

  lemma AllBefore<K(!new), V(!new)>(table: seq<(K, V)>, m: map<K, V>)
    requires Lists(table, m)
    ensures forall key :: key in m ==> Before(table, |table|, key)
  {
  }

  lemma HalvesAreDisjoint<K>(left: seq<K>, right: seq<K>)
    requires Distinct(left) && Distinct(right) && forall key :: key in left ==> key !in right
    ensures Distinct(left + right) && forall key :: key in left + right <==> key in left || key in right
  {
    var all, n := left + right, |left|;
    forall i, j | 0 <= i < j < |all| ensures all[i] != all[j] {
      assert i < n ==> all[i] in left;
      assert j >= n ==> all[j] == right[j - n] && all[j] in right;
      assert i >= n ==> all[i] == right[i - n];
    }
  }

  /** Applying the new rows of the changed keys turns the old rows into the new ones. */
  lemma DiffIsExact<V>(keys: seq<Key>, before: map<Key, V>, after: map<Key, V>, oldRows: Rows, newRows: Rows,
                       changes: Changes)
    requires ListsChanges(keys, before, after)
    requires oldRows.Keys == before.Keys && newRows.Keys == after.Keys
    requires forall key :: key in before && key in after && before[key] == after[key] ==> oldRows[key] == newRows[key]
    requires changes.Keys == set key | key in keys
    requires forall key :: key in changes ==> changes[key] == if key in newRows then Some(newRows[key]) else None
    ensures Applicable(oldRows, changes) && Override(oldRows, changes) == newRows
  {
  }

  // ---- The keyed tables of one project ----

  function NodePairs(nodes: seq<NodeRecord>, project: string): seq<(Key, RawNode)> {
    if nodes == [] then []
    else
      var node := nodes[|nodes| - 1];
      NodePairs(nodes[..|nodes| - 1], project) + (if node.project == project then [([node.qualified], node.raw)] else [])
  }

  function CoveragePairs(coverage: seq<CoverageRecord>, project: string): seq<(Key, string)> {
    if coverage == [] then []
    else
      var row := coverage[|coverage| - 1];
      CoveragePairs(coverage[..|coverage| - 1], project)
        + (if row.project == project then [([row.path, row.kind], row.detail)] else [])
  }

  /** The archive key of an edge; a NULL local name leaves the last component out, and no archived
  key is that short. */
  function EdgeKey(source: string, target: string, edgeType: string, local: Option<string>): Key {
    [source, target, edgeType] + (if local.Some? then [local.value] else [])
  }

  /** JOIN nodes ON id: the primary key finds at most one. */
  function NodeById(nodes: seq<NodeRecord>, id: int): Option<NodeRecord> {
    if nodes == [] then None
    else if nodes[|nodes| - 1].id == id then Some(nodes[|nodes| - 1])
    else NodeById(nodes[..|nodes| - 1], id)
  }

  /** The names of an edge's endpoints; None when the inner joins drop it. */
  function EdgeName(nodes: seq<NodeRecord>, edge: EdgeRecord): Option<Key> {
    match (NodeById(nodes, edge.source), NodeById(nodes, edge.target))
    case (Some(source), Some(target)) => Some(EdgeKey(source.qualified, target.qualified, edge.edgeType, edge.local))
    case _ => None
  }

  function EdgePairs(nodes: seq<NodeRecord>, edges: seq<EdgeRecord>, project: string): seq<(Key, string)> {
    if edges == [] then []
    else
      var edge := edges[|edges| - 1];
      EdgePairs(nodes, edges[..|edges| - 1], project) +
        (if edge.project == project && EdgeName(nodes, edge).Some? then [(EdgeName(nodes, edge).value, edge.properties)]
         else [])
  }

  // ---- Edges through the node map ----

  /** new.source_id=map.new_id AND ...: NULL on either side joins nothing. */
  predicate Joins(edge: EdgeRecord, source: Option<int>, target: Option<int>, edgeType: string, local: Option<string>) {
    && source == Some(edge.source) && target == Some(edge.target) && edge.edgeType == edgeType
    && local.Some? && edge.local == local
  }

  function JoinedEdges(edges: seq<EdgeRecord>, source: Option<int>, target: Option<int>, edgeType: string,
                       local: Option<string>): seq<string>
  {
    if edges == [] then []
    else
      var edge := edges[|edges| - 1];
      JoinedEdges(edges[..|edges| - 1], source, target, edgeType, local)
        + (if Joins(edge, source, target, edgeType, local) then [edge.properties] else [])
  }

  function Named(nodes: seq<NodeRecord>, project: string, name: string): seq<NodeRecord> {
    if nodes == [] then []
    else
      var node := nodes[|nodes| - 1];
      Named(nodes[..|nodes| - 1], project, name)
        + (if node.project == project && node.qualified == name then [node] else [])
  }

  function PairedIds(id: int, joined: seq<NodeRecord>): seq<(int, int)> {
    if joined == [] then [] else PairedIds(id, joined[..|joined| - 1]) + [(id, joined[|joined| - 1].id)]
  }

  /** INSERT INTO node_map: the ids of the nodes that both generations name alike. */
  function NodeMapRows(before: seq<NodeRecord>, after: seq<NodeRecord>, project: string): seq<(int, int)> {
    if before == [] then []
    else
      var node := before[|before| - 1];
      NodeMapRows(before[..|before| - 1], after, project)
        + (if node.project == project then PairedIds(node.id, Named(after, project, node.qualified)) else [])
  }

  /** old_id is the primary key and new_id is UNIQUE. */
  ghost predicate UniqueColumns(nodeMap: seq<(int, int)>) {
    forall i, j :: 0 <= i < j < |nodeMap| ==> nodeMap[i].0 != nodeMap[j].0 && nodeMap[i].1 != nodeMap[j].1
  }

  function NewId(nodeMap: seq<(int, int)>, id: int): Option<int> {
    if nodeMap == [] then None
    else if nodeMap[|nodeMap| - 1].0 == id then Some(nodeMap[|nodeMap| - 1].1)
    else NewId(nodeMap[..|nodeMap| - 1], id)
  }

  function OldId(nodeMap: seq<(int, int)>, id: int): Option<int> {
    if nodeMap == [] then None
    else if nodeMap[|nodeMap| - 1].1 == id then Some(nodeMap[|nodeMap| - 1].0)
    else OldId(nodeMap[..|nodeMap| - 1], id)
  }

  function OldEdgeKeys(nodes: seq<NodeRecord>, edges: seq<EdgeRecord>, after: seq<EdgeRecord>,
                       nodeMap: seq<(int, int)>, project: string): seq<Key>
  {
    if edges == [] then []
    else
      var edge := edges[|edges| - 1];
      var name := EdgeName(nodes, edge);
      OldEdgeKeys(nodes, edges[..|edges| - 1], after, nodeMap, project) +
        (if edge.project == project && name.Some? then
           JoinOld(name.value, edge.properties,
             JoinedEdges(after, NewId(nodeMap, edge.source), NewId(nodeMap, edge.target), edge.edgeType, edge.local))
         else [])
  }

  function NewEdgeKeys(nodes: seq<NodeRecord>, edges: seq<EdgeRecord>, before: seq<EdgeRecord>,
                       nodeMap: seq<(int, int)>, project: string): seq<Key>
  {
    if edges == [] then []
    else
      var edge := edges[|edges| - 1];
      var name := EdgeName(nodes, edge);
      NewEdgeKeys(nodes, edges[..|edges| - 1], before, nodeMap, project) +
        (if edge.project == project && name.Some?
            && JoinedEdges(before, OldId(nodeMap, edge.source), OldId(nodeMap, edge.target), edge.edgeType, edge.local) == []
         then [name.value] else [])
  }

  // ---- Well-formed generations ----

  ghost predicate GoodNodes(nodes: seq<NodeRecord>, project: string) {
    && (forall i, j :: 0 <= i < j < |nodes| ==> nodes[i].id != nodes[j].id)
    && (forall i, j :: 0 <= i < j < |nodes| && nodes[i].project == nodes[j].project == project ==>
         nodes[i].qualified != nodes[j].qualified)
  }

  ghost predicate InProject(nodes: seq<NodeRecord>, project: string, id: int) {
    NodeById(nodes, id).Some? && NodeById(nodes, id).value.project == project
  }

  /** Edges of the project join nodes of the project and have a local name, and no other edge does. */
  ghost predicate GoodEdge(nodes: seq<NodeRecord>, project: string, edge: EdgeRecord) {
    if edge.project == project then
      InProject(nodes, project, edge.source) && InProject(nodes, project, edge.target) && edge.local.Some?
    else
      !InProject(nodes, project, edge.source) && !InProject(nodes, project, edge.target)
  }

  /** Names, edge identities and coverage identities are unique within the project. */
  ghost predicate GoodStore(store: Store, project: string) {
    && GoodNodes(store.nodes, project)
    && (forall i :: 0 <= i < |store.edges| ==> GoodEdge(store.nodes, project, store.edges[i]))
    && DistinctFirst(EdgePairs(store.nodes, store.edges, project))
    && DistinctFirst(CoveragePairs(store.coverage, project))
  }

  // ---- The node map relates the nodes of equal name ----

  lemma {:induction false} ByIdFinds(nodes: seq<NodeRecord>, project: string, i: nat)
    requires GoodNodes(nodes, project) && i < |nodes|
    ensures NodeById(nodes, nodes[i].id) == Some(nodes[i])
  {
    if i < |nodes| - 1 {
      ByIdFinds(nodes[..|nodes| - 1], project, i);
    }
  }

  lemma {:induction false} ByIdIsNode(nodes: seq<NodeRecord>, id: int) returns (i: nat)
    requires NodeById(nodes, id).Some?
    ensures i < |nodes| && nodes[i] == NodeById(nodes, id).value && nodes[i].id == id
  {
    if nodes[|nodes| - 1].id == id {
      i := |nodes| - 1;
    } else {
      i := ByIdIsNode(nodes[..|nodes| - 1], id);
    }
  }

  lemma {:induction false} NamedIsUnique(nodes: seq<NodeRecord>, project: string, name: string)
    requires GoodNodes(nodes, project)
    ensures |Named(nodes, project, name)| <= 1
    ensures forall node :: node in Named(nodes, project, name) <==>
      node in nodes && node.project == project && node.qualified == name
  {
    if nodes != [] {
      var init := nodes[..|nodes| - 1];
      NamedIsUnique(init, project, name);
      assert nodes == init + [nodes[|nodes| - 1]];
      if Named(init, project, name) != [] {
        assert Named(init, project, name)[0] in init;
      }
    }
  }

  /** The id of the node of a name, if the project has one. */
  function IdNamed(nodes: seq<NodeRecord>, project: string, name: string): Option<int> {
    var named := Named(nodes, project, name);
    if named == [] then None else Some(named[|named| - 1].id)
  }

  lemma PairOne(id: int, joined: seq<NodeRecord>)
    requires |joined| <= 1
    ensures PairedIds(id, joined) == if joined == [] then [] else [(id, joined[0].id)]
  {
  }

  lemma LastRow(rows: seq<(int, int)>, more: seq<(int, int)>, id: int)
    requires |more| <= 1
    ensures more == [] ==> NewId(rows + more, id) == NewId(rows, id) && OldId(rows + more, id) == OldId(rows, id)
    ensures more != [] ==> NewId(rows + more, id) == if more[0].0 == id then Some(more[0].1) else NewId(rows, id)
    ensures more != [] ==> OldId(rows + more, id) == if more[0].1 == id then Some(more[0].0) else OldId(rows, id)
  {
    if more == [] {
      assert rows + more == rows;
    } else {
      assert (rows + more)[..|rows|] == rows;
    }
  }

  /** An id that no old node has maps to nothing. */
  lemma {:induction false} NoNewId(before: seq<NodeRecord>, after: seq<NodeRecord>, project: string, id: int)
    requires GoodNodes(before, project) && GoodNodes(after, project)
    requires forall i :: 0 <= i < |before| && before[i].project == project ==> before[i].id != id
    ensures NewId(NodeMapRows(before, after, project), id) == None
  {
    if before != [] {
      var init, node := before[..|before| - 1], before[|before| - 1];
      NoNewId(init, after, project, id);
      NamedIsUnique(after, project, node.qualified);
      PairOne(node.id, Named(after, project, node.qualified));
      LastRow(NodeMapRows(init, after, project),
        if node.project == project then PairedIds(node.id, Named(after, project, node.qualified)) else [], id);
    }
  }

  /** The map sends an old node of the project to the new node of the same name. */
  lemma {:induction false} NewIdIsNamed(before: seq<NodeRecord>, after: seq<NodeRecord>, project: string, i: nat)
    requires GoodNodes(before, project) && GoodNodes(after, project)
    requires i < |before| && before[i].project == project
    ensures NewId(NodeMapRows(before, after, project), before[i].id) == IdNamed(after, project, before[i].qualified)
  {
    var init, node, id := before[..|before| - 1], before[|before| - 1], before[i].id;
    NamedIsUnique(after, project, node.qualified);
    PairOne(node.id, Named(after, project, node.qualified));
    LastRow(NodeMapRows(init, after, project),
      if node.project == project then PairedIds(node.id, Named(after, project, node.qualified)) else [], id);
    if i < |before| - 1 {
      NewIdIsNamed(init, after, project, i);
    } else {
      NoNewId(init, after, project, id);
    }
  }

  /** And back. */
  lemma {:induction false} OldIdIsNamed(before: seq<NodeRecord>, after: seq<NodeRecord>, project: string, j: nat)
    requires GoodNodes(before, project) && GoodNodes(after, project)
    requires j < |after| && after[j].project == project
    ensures OldId(NodeMapRows(before, after, project), after[j].id) == IdNamed(before, project, after[j].qualified)
  {
    hide GoodNodes, Named, NodeMapRows, OldId, NewId, PairedIds, IdNamed;
    if before == [] {
      NothingMapped(after, project, after[j].id, after[j].qualified);
    } else {
      var init, node, id := before[..|before| - 1], before[|before| - 1], after[j].id;
      GoodInit(before, project);
      OldIdIsNamed(init, after, project, j);
      var named := Named(after, project, node.qualified);
      NamedIsUnique(after, project, node.qualified);
      PairOne(node.id, named);
      MapStep(before, after, project);
      LastRow(NodeMapRows(init, after, project), if node.project == project then PairedIds(node.id, named) else [], id);
      NamedStep(before, project, after[j].qualified);
      assert node.project == project && node.qualified == after[j].qualified ==> after[j] in named;
      if named != [] {
        assert named[0] in named;
        SameIdSameNode(after, project, named[0], j);
      }
    }
  }

  lemma NothingMapped(after: seq<NodeRecord>, project: string, id: int, name: string)
    ensures OldId(NodeMapRows([], after, project), id) == None && IdNamed([], project, name) == None
  {
  }

  lemma MapStep(before: seq<NodeRecord>, after: seq<NodeRecord>, project: string)
    requires before != []
    ensures var node := before[|before| - 1];
      NodeMapRows(before, after, project) == NodeMapRows(before[..|before| - 1], after, project) +
        (if node.project == project then PairedIds(node.id, Named(after, project, node.qualified)) else [])
  {
  }

  lemma NamedStep(nodes: seq<NodeRecord>, project: string, name: string)
    requires nodes != []
    ensures var node := nodes[|nodes| - 1];
      IdNamed(nodes, project, name) ==
        if node.project == project && node.qualified == name then Some(node.id)
        else IdNamed(nodes[..|nodes| - 1], project, name)
  {
  }

  lemma GoodInit(nodes: seq<NodeRecord>, project: string)
    requires GoodNodes(nodes, project) && nodes != []
    ensures GoodNodes(nodes[..|nodes| - 1], project)
  {
  }

  lemma SameIdSameNode(nodes: seq<NodeRecord>, project: string, node: NodeRecord, j: nat)
    requires GoodNodes(nodes, project) && node in nodes && j < |nodes|
    ensures node.id == nodes[j].id ==> node == nodes[j]
  {
  }

  // ---- Joining edges through the map is joining them by name ----

  /** An old and a new endpoint are joined exactly when they are nodes of the project with one name. */
  lemma EndpointsJoin(before: seq<NodeRecord>, after: seq<NodeRecord>, project: string, a: int, b: int)
    requires GoodNodes(before, project) && GoodNodes(after, project)
    ensures InProject(before, project, a) ==>
      (NewId(NodeMapRows(before, after, project), a) == Some(b) <==>
        InProject(after, project, b) && NodeById(after, b).value.qualified == NodeById(before, a).value.qualified)
    ensures InProject(after, project, b) ==>
      (OldId(NodeMapRows(before, after, project), b) == Some(a) <==>
        InProject(before, project, a) && NodeById(after, b).value.qualified == NodeById(before, a).value.qualified)
  {
    if InProject(before, project, a) {
      var i := ByIdIsNode(before, a);
      NewIdIsNamed(before, after, project, i);
      NamedNodeIs(after, project, before[i].qualified, b);
    }
    if InProject(after, project, b) {
      var j := ByIdIsNode(after, b);
      OldIdIsNamed(before, after, project, j);
      NamedNodeIs(before, project, after[j].qualified, a);
    }
  }

  lemma NamedNodeIs(nodes: seq<NodeRecord>, project: string, name: string, id: int)
    requires GoodNodes(nodes, project)
    ensures IdNamed(nodes, project, name) == Some(id) <==>
      InProject(nodes, project, id) && NodeById(nodes, id).value.qualified == name
  {
    hide GoodNodes;
    var named := Named(nodes, project, name);
    NamedIsUnique(nodes, project, name);
    if named != [] {
      assert named[0] in named;
      var i :| 0 <= i < |nodes| && nodes[i] == named[0];
      ByIdFinds(nodes, project, i);
    }
    if InProject(nodes, project, id) && NodeById(nodes, id).value.qualified == name {
      var i := ByIdIsNode(nodes, id);
      assert nodes[i] in named;
    }
  }

  /** A row of the node map pairs an old and a new node of one name. */
  ghost predicate Pairs(before: seq<NodeRecord>, after: seq<NodeRecord>, project: string, row: (int, int)) {
    exists i, j :: 0 <= i < |before| && 0 <= j < |after|
      && before[i].project == after[j].project == project && before[i].qualified == after[j].qualified
      && row == (before[i].id, after[j].id)
  }

  /** Inserting the node map violates neither its primary key nor its unique column. */
  lemma {:induction false} NodeMapInserts(before: seq<NodeRecord>, after: seq<NodeRecord>, project: string)
    requires GoodNodes(before, project) && GoodNodes(after, project)
    ensures UniqueColumns(NodeMapRows(before, after, project))
    ensures forall row :: row in NodeMapRows(before, after, project) ==> Pairs(before, after, project, row)
  {
    hide GoodNodes, Named, NodeMapRows, PairedIds, Pairs;
    if before == [] {
      NoRows(after, project);
    } else {
      var init, node := before[..|before| - 1], before[|before| - 1];
      var rows := NodeMapRows(init, after, project);
      GoodInit(before, project);
      NodeMapInserts(init, after, project);
      var named := Named(after, project, node.qualified);
      NamedIsUnique(after, project, node.qualified);
      PairOne(node.id, named);
      MapStep(before, after, project);
      forall row | row in rows ensures Pairs(before, after, project, row) {
        PairsMore(before, after, project, row);
      }
      if node.project == project && named != [] {
        assert named[0] in named;
        NewPair(before, after, project, named[0]);
        forall row | row in rows ensures row.0 != node.id && row.1 != named[0].id {
          PairsDiffer(before, after, project, row, named[0]);
        }
      }
    }
  }

  lemma NoRows(after: seq<NodeRecord>, project: string)
    ensures NodeMapRows([], after, project) == []
  {
  }

  lemma PairsMore(before: seq<NodeRecord>, after: seq<NodeRecord>, project: string, row: (int, int))
    requires before != [] && Pairs(before[..|before| - 1], after, project, row)
    ensures Pairs(before, after, project, row)
  {
  }

  lemma NewPair(before: seq<NodeRecord>, after: seq<NodeRecord>, project: string, node: NodeRecord)
    requires before != [] && before[|before| - 1].project == project && node in after && node.project == project
    requires node.qualified == before[|before| - 1].qualified
    ensures Pairs(before, after, project, (before[|before| - 1].id, node.id))
  {
  }

  lemma PairsDiffer(before: seq<NodeRecord>, after: seq<NodeRecord>, project: string, row: (int, int), node: NodeRecord)
    requires GoodNodes(before, project) && GoodNodes(after, project) && before != [] && node in after
    requires Pairs(before[..|before| - 1], after, project, row)
    requires node.qualified == before[|before| - 1].qualified && before[|before| - 1].project == project
    ensures row.0 != before[|before| - 1].id && row.1 != node.id
  {
  }

  lemma MatchesAppend<K, V>(table: seq<(K, V)>, more: seq<(K, V)>, key: K)
    requires |more| <= 1
    ensures Matches(table + more, key) ==
      Matches(table, key) + (if more != [] && more[0].0 == key then [more[0].1] else [])
  {
    if more == [] {
      assert table + more == table;
    } else {
      assert (table + more)[..|table|] == table;
    }
  }

  /** The rows that an edge of the other generation joins are those of the same identity: `source` and
  `target` join exactly the endpoints with the key's names. */
  lemma {:induction false} JoinedAreMatches(nodes: seq<NodeRecord>, edges: seq<EdgeRecord>, project: string,
                                            source: Option<int>, target: Option<int>, key: Key)
    requires |key| == 4
    requires forall i :: 0 <= i < |edges| ==> GoodEdge(nodes, project, edges[i])
    requires forall id :: source == Some(id) <==>
      InProject(nodes, project, id) && NodeById(nodes, id).value.qualified == key[0]
    requires forall id :: target == Some(id) <==>
      InProject(nodes, project, id) && NodeById(nodes, id).value.qualified == key[1]
    ensures JoinedEdges(edges, source, target, key[2], Some(key[3])) == Matches(EdgePairs(nodes, edges, project), key)
  {
    hide Matches;
    if edges == [] {
      NoMatches(key);
    } else {
      var init, edge := edges[..|edges| - 1], edges[|edges| - 1];
      JoinedAreMatches(nodes, init, project, source, target, key);
      assert GoodEdge(nodes, project, edge);
      var more := if edge.project == project && EdgeName(nodes, edge).Some?
        then [(EdgeName(nodes, edge).value, edge.properties)] else [];
      MatchesAppend(EdgePairs(nodes, init, project), more, key);
      assert Joins(edge, source, target, key[2], Some(key[3])) <==> more != [] && more[0].0 == key;
    }
  }

  lemma NoMatches(key: Key)
    ensures Matches<Key, string>([], key) == []
  {
  }

  lemma EdgeSteps(nodes: seq<NodeRecord>, edges: seq<EdgeRecord>, edge: EdgeRecord, others: seq<EdgeRecord>,
                  nodeMap: seq<(int, int)>, project: string)
    ensures edge.project == project && EdgeName(nodes, edge).Some? ==>
      && EdgePairs(nodes, edges + [edge], project) ==
        EdgePairs(nodes, edges, project) + [(EdgeName(nodes, edge).value, edge.properties)]
      && OldEdgeKeys(nodes, edges + [edge], others, nodeMap, project) ==
        OldEdgeKeys(nodes, edges, others, nodeMap, project) + JoinOld(EdgeName(nodes, edge).value, edge.properties,
          JoinedEdges(others, NewId(nodeMap, edge.source), NewId(nodeMap, edge.target), edge.edgeType, edge.local))
      && NewEdgeKeys(nodes, edges + [edge], others, nodeMap, project) ==
        NewEdgeKeys(nodes, edges, others, nodeMap, project) +
          (if JoinedEdges(others, OldId(nodeMap, edge.source), OldId(nodeMap, edge.target), edge.edgeType, edge.local) == []
           then [EdgeName(nodes, edge).value] else [])
    ensures edge.project != project ==>
      && EdgePairs(nodes, edges + [edge], project) == EdgePairs(nodes, edges, project)
      && OldEdgeKeys(nodes, edges + [edge], others, nodeMap, project) == OldEdgeKeys(nodes, edges, others, nodeMap, project)
      && NewEdgeKeys(nodes, edges + [edge], others, nodeMap, project) == NewEdgeKeys(nodes, edges, others, nodeMap, project)
  {
  }

  lemma AppendPair<K, V>(table: seq<(K, V)>, key: K, value: V, other: seq<(K, V)>)
    ensures OldKeys(table + [(key, value)], other) == OldKeys(table, other) + JoinOld(key, value, Matches(other, key))
    ensures NewKeys(other, table + [(key, value)]) ==
      NewKeys(other, table) + (if Matches(other, key) == [] then [key] else [])
  {
  }

  lemma GoodAt(store: Store, project: string, i: nat)
    requires GoodStore(store, project)
    ensures GoodNodes(store.nodes, project)
    ensures i < |store.edges| ==> GoodEdge(store.nodes, project, store.edges[i])
  {
  }

  /** The id-based queries list the same keys as joining by identity would. */
  lemma {:induction false} OldEdgeKeysAre(before: Store, after: Store, project: string, n: nat)
    requires GoodStore(before, project) && GoodStore(after, project) && n <= |before.edges|
    ensures OldEdgeKeys(before.nodes, before.edges[..n], after.edges,
        NodeMapRows(before.nodes, after.nodes, project), project)
      == OldKeys(EdgePairs(before.nodes, before.edges[..n], project), EdgePairs(after.nodes, after.edges, project))
  {
    hide GoodNodes, NodeMapRows, NewId, OldId, JoinOld, Matches, JoinedEdges;
    if n > 0 {
      GoodAt(before, project, n - 1);
      GoodAt(after, project, |after.edges|);
      hide OldEdgeKeys, OldKeys, EdgePairs, EdgeName, GoodStore, GoodEdge;
      var nodeMap := NodeMapRows(before.nodes, after.nodes, project);
      var edge := before.edges[n - 1];
      OldEdgeKeysAre(before, after, project, n - 1);
      assert before.edges[..n] == before.edges[..n - 1] + [edge];
      EdgeSteps(before.nodes, before.edges[..n - 1], edge, after.edges, nodeMap, project);
      if edge.project == project {
        EdgeJoinsByName(before.nodes, after, project, edge);
        AppendPair(EdgePairs(before.nodes, before.edges[..n - 1], project), EdgeName(before.nodes, edge).value,
          edge.properties, EdgePairs(after.nodes, after.edges, project));
      }
    }
  }

  lemma {:induction false} NewEdgeKeysAre(before: Store, after: Store, project: string, n: nat)
    requires GoodStore(before, project) && GoodStore(after, project) && n <= |after.edges|
    ensures NewEdgeKeys(after.nodes, after.edges[..n], before.edges,
        NodeMapRows(before.nodes, after.nodes, project), project)
      == NewKeys(EdgePairs(before.nodes, before.edges, project), EdgePairs(after.nodes, after.edges[..n], project))
  {
    hide GoodNodes, NodeMapRows, NewId, OldId, JoinOld, Matches, JoinedEdges;
    if n > 0 {
      GoodAt(after, project, n - 1);
      GoodAt(before, project, |before.edges|);
      hide NewEdgeKeys, NewKeys, EdgePairs, EdgeName, GoodStore, GoodEdge;
      var nodeMap := NodeMapRows(before.nodes, after.nodes, project);
      var edge := after.edges[n - 1];
      NewEdgeKeysAre(before, after, project, n - 1);
      assert after.edges[..n] == after.edges[..n - 1] + [edge];
      EdgeSteps(after.nodes, after.edges[..n - 1], edge, before.edges, nodeMap, project);
      if edge.project == project {
        EdgeJoinsBack(before, after.nodes, project, edge);
        AppendPair(EdgePairs(after.nodes, after.edges[..n - 1], project), EdgeName(after.nodes, edge).value,
          edge.properties, EdgePairs(before.nodes, before.edges, project));
      }
    }
  }

  lemma EdgeJoinsByName(before: seq<NodeRecord>, after: Store, project: string, edge: EdgeRecord)
    requires GoodNodes(before, project) && GoodStore(after, project)
    requires GoodEdge(before, project, edge) && edge.project == project
    ensures EdgeName(before, edge).Some?
    ensures var nodeMap := NodeMapRows(before, after.nodes, project);
      JoinedEdges(after.edges, NewId(nodeMap, edge.source), NewId(nodeMap, edge.target), edge.edgeType, edge.local)
        == Matches(EdgePairs(after.nodes, after.edges, project), EdgeName(before, edge).value)
  {
    hide GoodNodes, NodeMapRows, NewId, OldId, JoinedEdges, Matches, EdgePairs;
    var nodeMap, key := NodeMapRows(before, after.nodes, project), EdgeName(before, edge).value;
    forall id ensures NewId(nodeMap, edge.source) == Some(id) <==>
      InProject(after.nodes, project, id) && NodeById(after.nodes, id).value.qualified == key[0]
    {
      EndpointsJoin(before, after.nodes, project, edge.source, id);
    }
    forall id ensures NewId(nodeMap, edge.target) == Some(id) <==>
      InProject(after.nodes, project, id) && NodeById(after.nodes, id).value.qualified == key[1]
    {
      EndpointsJoin(before, after.nodes, project, edge.target, id);
    }
    JoinedAreMatches(after.nodes, after.edges, project, NewId(nodeMap, edge.source), NewId(nodeMap, edge.target), key);
  }

  lemma EdgeJoinsBack(before: Store, after: seq<NodeRecord>, project: string, edge: EdgeRecord)
    requires GoodStore(before, project) && GoodNodes(after, project)
    requires GoodEdge(after, project, edge) && edge.project == project
    ensures EdgeName(after, edge).Some?
    ensures var nodeMap := NodeMapRows(before.nodes, after, project);
      JoinedEdges(before.edges, OldId(nodeMap, edge.source), OldId(nodeMap, edge.target), edge.edgeType, edge.local)
        == Matches(EdgePairs(before.nodes, before.edges, project), EdgeName(after, edge).value)
  {
    hide GoodNodes, NodeMapRows, NewId, OldId, JoinedEdges, Matches, EdgePairs;
    var nodeMap, key := NodeMapRows(before.nodes, after, project), EdgeName(after, edge).value;
    forall id ensures OldId(nodeMap, edge.source) == Some(id) <==>
      InProject(before.nodes, project, id) && NodeById(before.nodes, id).value.qualified == key[0]
    {
      EndpointsJoin(before.nodes, after, project, id, edge.source);
    }
    forall id ensures OldId(nodeMap, edge.target) == Some(id) <==>
      InProject(before.nodes, project, id) && NodeById(before.nodes, id).value.qualified == key[1]
    {
      EndpointsJoin(before.nodes, after, project, id, edge.target);
    }
    JoinedAreMatches(before.nodes, before.edges, project, OldId(nodeMap, edge.source), OldId(nodeMap, edge.target), key);
  }

  function EdgeDiffKeys(before: Store, after: Store, project: string): seq<Key> {
    var nodeMap := NodeMapRows(before.nodes, after.nodes, project);
    OldEdgeKeys(before.nodes, before.edges, after.edges, nodeMap, project)
      + NewEdgeKeys(after.nodes, after.edges, before.edges, nodeMap, project)
  }

  /** Although ids are local to a generation, the edge queries list exactly the changed identities. */
  lemma EdgeDiffIsByName(before: Store, after: Store, project: string)
    requires GoodStore(before, project) && GoodStore(after, project)
    ensures EdgeDiffKeys(before, after, project) ==
      DiffKeys(EdgePairs(before.nodes, before.edges, project), EdgePairs(after.nodes, after.edges, project))
  {
    hide *;
    OldEdgeKeysAre(before, after, project, |before.edges|);
    NewEdgeKeysAre(before, after, project, |after.edges|);
    assert before.edges[..|before.edges|] == before.edges && after.edges[..|after.edges|] == after.edges;
    EdgeDiffParts(before, after, project);
  }

  lemma EdgeDiffParts(before: Store, after: Store, project: string)
    ensures var nodeMap := NodeMapRows(before.nodes, after.nodes, project);
      EdgeDiffKeys(before, after, project) ==
        OldEdgeKeys(before.nodes, before.edges, after.edges, nodeMap, project)
          + NewEdgeKeys(after.nodes, after.edges, before.edges, nodeMap, project)
    ensures var old', new' := EdgePairs(before.nodes, before.edges, project), EdgePairs(after.nodes, after.edges, project);
      DiffKeys(old', new') == OldKeys(old', new') + NewKeys(old', new')
  {
  }

  // ---- Rows of a generation ----

  /** JSON decoding of a properties column; None stands for ExtractionError. */
  type Parser = string -> Option<Properties>

  /** _node_row */
  function NodeRowOf(parse: Parser, key: Key, raw: RawNode): Option<Row> {
    match parse(raw.properties)
    case None => None
    case Some(properties) =>
      var row := NodeRow(raw.nodeLabel, raw.name, raw.filePath, raw.startLine, raw.endLine, properties);
      if ValidNode(key, row) then Some(row) else None
  }

  /** _edge_row */
  function EdgeRowOf(parse: Parser, key: Key, properties: string): Option<Row> {
    match parse(properties)
    case None => None
    case Some(parsed) => if ValidEdge(key, EdgeRow(parsed)) then Some(EdgeRow(parsed)) else None
  }

  /** _coverage_row */
  function CoverageRowOf(key: Key, detail: string): Option<Row> {
    if ValidCoverage(key, CoverageRow(detail)) then Some(CoverageRow(detail)) else None
  }

  /** dict(iter_nodes(...)) and its siblings: distinct keys, every row valid. */
  method RowsOf<V(!new)>(pairs: seq<(Key, V)>, row: (Key, V) -> Option<Row>) returns (r: Result<Rows>)
    ensures r.Ok? <==> DistinctFirst(pairs) && AllValid(pairs, row)
    ensures r.Ok? ==> RowsAre(pairs, row, r.value)
  {
    var table := RecordMap(pairs);
    if table.Failure? {
      return Failure("identity is duplicated");
    }
    if exists key | key in table.value :: row(key, table.value[key]).None? {
      InvalidPair(pairs, row, table.value);
      return Failure("invalid row");
    }
    AllPairsValid(pairs, row, table.value);
    var rows := map key | key in table.value :: row(key, table.value[key]).value;
    r := Ok(rows);
  }

  ghost predicate AllValid<V>(pairs: seq<(Key, V)>, row: (Key, V) -> Option<Row>) {
    forall i :: 0 <= i < |pairs| ==> row(pairs[i].0, pairs[i].1).Some?
  }

  /** `rows` holds the row of every pair, and nothing else. */
  ghost predicate RowsAre<V(!new)>(pairs: seq<(Key, V)>, row: (Key, V) -> Option<Row>, rows: Rows) {
    && (forall i :: 0 <= i < |pairs| ==> pairs[i].0 in rows && row(pairs[i].0, pairs[i].1) == Some(rows[pairs[i].0]))
    && (forall key :: key in rows ==> exists i :: 0 <= i < |pairs| && pairs[i].0 == key)
  }

  lemma InvalidPair<V(!new)>(pairs: seq<(Key, V)>, row: (Key, V) -> Option<Row>, table: map<Key, V>)
    requires Lists(pairs, table) && exists key :: key in table && row(key, table[key]).None?
    ensures !AllValid(pairs, row)
  {
  }

  lemma AllPairsValid<V(!new)>(pairs: seq<(Key, V)>, row: (Key, V) -> Option<Row>, table: map<Key, V>)
    requires Lists(pairs, table) && forall key :: key in table ==> row(key, table[key]).Some?
    ensures AllValid(pairs, row)
    ensures RowsAre(pairs, row, map key | key in table :: row(key, table[key]).value)
  {
  }

  // ---- Building the change dictionaries ----

  /** Keys inserted into a temporary table with a primary key, then joined to the new generation. */
  method CollectChanges<V(!new)>(keys: seq<Key>, joined: Key -> seq<V>, row: (Key, V) -> Option<Row>)
    returns (r: Result<Changes>)
    ensures r.Ok? <==> Distinct(keys) && forall i :: 0 <= i < |keys| ==> ChangeOf(keys[i], joined(keys[i]), row).Some?
    ensures r.Ok? ==> ChangesAre(keys, joined, row, r.value)
  {
    var changes: Changes := map[];
    for i := 0 to |keys|
      invariant changes.Keys == set k | k in keys[..i]
      invariant forall j, k :: 0 <= j < k < i ==> keys[j] != keys[k]
      invariant forall j :: 0 <= j < i ==> ChangeOf(keys[j], joined(keys[j]), row) == Some(changes[keys[j]])
    {
      var key := keys[i];
      if key in changes {
        assert exists j :: 0 <= j < i && keys[j] == key;
        return Failure("UNIQUE constraint failed");
      }
      var change := ChangeOf(key, joined(key), row);
      if change.None? {
        return Failure("invalid row");
      }
      changes := changes[key := change.value];
      assert keys[..i + 1] == keys[..i] + [key];
    }
    assert keys[..|keys|] == keys;
    r := Ok(changes);
  }

  /** The change recorded for a key: a deletion when it joins nothing, else the (last) joined row. */
  function ChangeOf<V>(key: Key, joined: seq<V>, row: (Key, V) -> Option<Row>): Option<Option<Row>> {
    if joined == [] then Some(None)
    else match row(key, joined[|joined| - 1]) case None => None case Some(found) => Some(Some(found))
  }

  ghost predicate ChangesAre<V>(keys: seq<Key>, joined: Key -> seq<V>, row: (Key, V) -> Option<Row>, changes: Changes) {
    && changes.Keys == (set k | k in keys)
    && forall key :: key in changes ==> ChangeOf(key, joined(key), row) == Some(changes[key])
  }

  /** Collecting the diff of two valid tables succeeds and turns the old rows into the new ones. */
  lemma TableDiffIsExact<V(!new)>(before: seq<(Key, V)>, after: seq<(Key, V)>, row: (Key, V) -> Option<Row>,
                                  joined: Key -> seq<V>, oldRows: Rows, newRows: Rows, changes: Changes)
    requires DistinctFirst(before) && DistinctFirst(after)
    requires RowsAre(before, row, oldRows) && RowsAre(after, row, newRows)
    requires forall key :: key in DiffKeys(before, after) ==> joined(key) == Matches(after, key)
    ensures Distinct(DiffKeys(before, after))
    ensures forall key :: key in DiffKeys(before, after) ==> ChangeOf(key, joined(key), row).Some?
    ensures ChangesAre(DiffKeys(before, after), joined, row, changes) ==>
      Applicable(oldRows, changes) && Override(oldRows, changes) == newRows
  {
    hide DiffKeys, Matches, Applicable, Override;
    var m := TableMap(before);
    var m' := TableMap(after);
    DiffListsChanges(before, after, m, m');
    TableKeys(before, row, oldRows, m);
    TableKeys(after, row, newRows, m');
    forall key | key in DiffKeys(before, after)
      ensures ChangeOf(key, joined(key), row) == Some(if key in newRows then Some(newRows[key]) else None)
    {
      MatchesOne(after, m', key);
    }
    if ChangesAre(DiffKeys(before, after), joined, row, changes) {
      DiffIsExact(DiffKeys(before, after), m, m', oldRows, newRows, changes);
    }
  }

  /** Updating the tree of the old rows by the captured diff cannot be refused, and ends in the root hash that
  a tree built from the new rows alone has. */
  lemma DiffRebuilds<V(!new)>(codec: Codec, tree: Tree, before: seq<(Key, V)>, after: seq<(Key, V)>,
                              row: (Key, V) -> Option<Row>, joined: Key -> seq<V>, oldRows: Rows, newRows: Rows,
                              changes: Changes, pages: Pages, patched: Option<TreeRef>, otherPages: Pages,
                              rebuilt: Option<TreeRef>)
    requires codec.Sound() && DistinctFirst(before) && DistinctFirst(after)
    requires RowsAre(before, row, oldRows) && RowsAre(after, row, newRows)
    requires forall key :: key in DiffKeys(before, after) ==> joined(key) == Matches(after, key)
    requires ChangesAre(DiffKeys(before, after), joined, row, changes)
    requires Represents(codec, otherPages, tree, rebuilt, Override(map[], Whole(newRows)))
    ensures Applicable(oldRows, changes) && Applicable(map[], Whole(newRows))
    ensures Represents(codec, pages, tree, patched, Override(oldRows, changes)) ==> HashOf(patched) == HashOf(rebuilt)
  {
    hide DiffKeys, Matches, Represents, Codec.Sound, HashOf, ChangesAre, RowsAre;
    TableDiffIsExact(before, after, row, joined, oldRows, newRows, changes);
    WholeFolds(newRows);
    if Represents(codec, pages, tree, patched, Override(oldRows, changes)) {
      SameRowsSameHash(codec, tree, pages, patched, otherPages, rebuilt, newRows);
    }
  }

  lemma TableKeys<V(!new)>(table: seq<(Key, V)>, row: (Key, V) -> Option<Row>, rows: Rows, m: map<Key, V>)
    requires Lists(table, m) && RowsAre(table, row, rows)
    ensures rows.Keys == m.Keys && forall key :: key in m ==> row(key, m[key]) == Some(rows[key])
  {
  }

  lemma {:induction false} TableMap<K, V(!new)>(table: seq<(K, V)>) returns (m: map<K, V>)
    requires DistinctFirst(table)
    ensures Lists(table, m)
  {
    if table == [] {
      m := map[];
    } else {
      var n := |table| - 1;
      var init := TableMap(table[..n]);
      m := init[table[n].0 := table[n].1];
      forall key | key in init ensures key != table[n].0 {
        var i :| 0 <= i < n && table[..n][i].0 == key;
        assert table[i].0 == key;
      }
      assert m - {table[n].0} == init;
      ListsOneMore(table, n, m);
      assert table[..n + 1] == table;
    }
  }

  // ---- The final edge query ----

  function ProjectEdges(edges: seq<EdgeRecord>, project: string): seq<EdgeRecord> {
    if edges == [] then []
    else
      ProjectEdges(edges[..|edges| - 1], project)
        + (if edges[|edges| - 1].project == project then [edges[|edges| - 1]] else [])
  }

  /** The new edges that a changed key joins, through the new ids of its endpoint names. */
  function EdgesOf(store: Store, project: string, key: Key): seq<string> {
    if |key| != 4 then []
    else
      JoinedEdges(ProjectEdges(store.edges, project), IdNamed(store.nodes, project, key[0]),
        IdNamed(store.nodes, project, key[1]), key[2], Some(key[3]))
  }

  lemma EdgePairStep(nodes: seq<NodeRecord>, edges: seq<EdgeRecord>, edge: EdgeRecord, project: string)
    ensures EdgePairs(nodes, edges + [edge], project) == EdgePairs(nodes, edges, project) +
      (if edge.project == project && EdgeName(nodes, edge).Some? then [(EdgeName(nodes, edge).value, edge.properties)]
       else [])
    ensures ProjectEdges(edges + [edge], project) ==
      ProjectEdges(edges, project) + (if edge.project == project then [edge] else [])
  {
  }

  lemma {:induction false} ProjectEdgesAre(nodes: seq<NodeRecord>, edges: seq<EdgeRecord>, project: string)
    ensures EdgePairs(nodes, ProjectEdges(edges, project), project) == EdgePairs(nodes, edges, project)
    ensures forall edge :: edge in ProjectEdges(edges, project) ==> edge in edges
  {
    if edges != [] {
      hide EdgePairs, ProjectEdges, EdgeName;
      var init, edge := edges[..|edges| - 1], edges[|edges| - 1];
      ProjectEdgesAre(nodes, init, project);
      assert edges == init + [edge];
      EdgePairStep(nodes, init, edge, project);
      EdgePairStep(nodes, ProjectEdges(init, project), edge, project);
      assert ProjectEdges(init, project) + [] == ProjectEdges(init, project);
      assert EdgePairs(nodes, init, project) + [] == EdgePairs(nodes, init, project);
    }
  }

  lemma EdgesAreMatches(store: Store, project: string, key: Key)
    requires GoodStore(store, project) && |key| == 4
    ensures EdgesOf(store, project, key) == Matches(EdgePairs(store.nodes, store.edges, project), key)
  {
    hide GoodNodes, IdNamed, JoinedEdges, Matches, EdgePairs;
    var edges := ProjectEdges(store.edges, project);
    ProjectEdgesAre(store.nodes, store.edges, project);
    forall i | 0 <= i < |edges| ensures GoodEdge(store.nodes, project, edges[i]) {
      assert edges[i] in store.edges;
    }
    forall id ensures IdNamed(store.nodes, project, key[0]) == Some(id) <==>
      InProject(store.nodes, project, id) && NodeById(store.nodes, id).value.qualified == key[0]
    {
      NamedNodeIs(store.nodes, project, key[0], id);
    }
    forall id ensures IdNamed(store.nodes, project, key[1]) == Some(id) <==>
      InProject(store.nodes, project, id) && NodeById(store.nodes, id).value.qualified == key[1]
    {
      NamedNodeIs(store.nodes, project, key[1], id);
    }
    JoinedAreMatches(store.nodes, edges, project, IdNamed(store.nodes, project, key[0]),
      IdNamed(store.nodes, project, key[1]), key);
  }

  // ---- Valid generations ----

  /** The store is well formed and its rows are those of the generation. */
  ghost predicate IsGeneration(parse: Parser, store: Store, project: string, generation: Generation) {
    && GoodStore(store, project) && DistinctFirst(NodePairs(store.nodes, project))
    && RowsAre(NodePairs(store.nodes, project), NodeParser(parse), generation.nodes)
    && RowsAre(EdgePairs(store.nodes, store.edges, project), EdgeParser(parse), generation.edges)
    && ValidGraph(generation.nodes, generation.edges, project)
    && CoverageIs(store, project, generation.coverage)
  }

  function NodeParser(parse: Parser): (Key, RawNode) -> Option<Row> {
    (key, raw) => NodeRowOf(parse, key, raw)
  }

  function EdgeParser(parse: Parser): (Key, string) -> Option<Row> {
    (key, properties) => EdgeRowOf(parse, key, properties)
  }

  function CoverageParser(): (Key, string) -> Option<Row> {
    (key, detail) => CoverageRowOf(key, detail)
  }

  /** _coverage_metadata_from: None without tables or without a row of the project. */
  function MetadataOf(store: Store, project: string): Result<Option<CoverageMetadata>> {
    match store.metadata
    case None => Ok(None)
    case Some(table) =>
      if project !in table then
        if CoveragePairs(store.coverage, project) != [] then Failure("coverage rows have no generation metadata") else Ok(None)
      else if ValidMetadata(table[project], project) then Ok(Some(table[project]))
      else Failure("invalid coverage metadata")
  }

  ghost predicate CoverageIs(store: Store, project: string, coverage: Option<CoverageState>) {
    match MetadataOf(store, project)
    case Failure(_) => false
    case Ok(None) => coverage.None?
    case Ok(Some(metadata)) =>
      coverage.Some? && coverage.value.metadata == metadata
      && RowsAre(CoveragePairs(store.coverage, project), CoverageParser(), coverage.value.rows)
  }

  // ---- What a generation shows of its store ----

  /** The row under the node's name has the node's fields. */
  predicate ShowsNode(parse: Parser, node: NodeRecord, rows: Rows) {
    var key, raw := [node.qualified], node.raw;
    && key in rows && rows[key].NodeRow?
    && rows[key].nodeLabel == raw.nodeLabel && rows[key].name == raw.name && rows[key].filePath == raw.filePath
    && rows[key].startLine == raw.startLine && rows[key].endLine == raw.endLine
    && parse(raw.properties) == Some(rows[key].properties)
  }

  ghost predicate ShowsNodes(parse: Parser, nodes: seq<NodeRecord>, project: string, rows: Rows) {
    && (forall i :: 0 <= i < |nodes| && nodes[i].project == project ==> ShowsNode(parse, nodes[i], rows))
    && (forall key :: key in rows ==>
         exists i :: 0 <= i < |nodes| && nodes[i].project == project && key == [nodes[i].qualified])
  }

  /** Edge e leads from node s to node t. */
  predicate Connects(store: Store, e: int, s: int, t: int) {
    && 0 <= e < |store.edges| && 0 <= s < |store.nodes| && 0 <= t < |store.nodes|
    && store.nodes[s].id == store.edges[e].source && store.nodes[t].id == store.edges[e].target
  }

  function FullKey(store: Store, e: int, s: int, t: int): Key
    requires Connects(store, e, s, t) && store.edges[e].local.Some?
  {
    [store.nodes[s].qualified, store.nodes[t].qualified, store.edges[e].edgeType, store.edges[e].local.value]
  }

  predicate ShowsEdge(parse: Parser, store: Store, e: int, s: int, t: int, rows: Rows)
    requires Connects(store, e, s, t)
  {
    store.edges[e].local.Some? &&
    var key := FullKey(store, e, s, t);
    key in rows && rows[key].EdgeRow? && parse(store.edges[e].properties) == Some(rows[key].properties)
  }

  ghost predicate ShowsEdges(parse: Parser, store: Store, project: string, rows: Rows) {
    && (forall e, s, t :: Connects(store, e, s, t) && store.edges[e].project == project ==>
         ShowsEdge(parse, store, e, s, t, rows))
    && (forall key :: key in rows ==> exists e, s, t ::
         Connects(store, e, s, t) && store.edges[e].project == project && store.edges[e].local.Some?
         && key == FullKey(store, e, s, t))
  }

  ghost predicate ShowsCoverage(store: Store, project: string, coverage: Option<CoverageState>) {
    if store.metadata.Some? && project in store.metadata.value then
      && coverage.Some? && coverage.value.metadata == store.metadata.value[project]
      && ShowsDetails(store.coverage, project, coverage.value.rows)
    else
      && coverage.None?
      && (store.metadata.Some? ==> forall i :: 0 <= i < |store.coverage| ==> store.coverage[i].project != project)
  }

  ghost predicate ShowsDetails(records: seq<CoverageRecord>, project: string, rows: Rows) {
    && (forall i :: 0 <= i < |records| && records[i].project == project ==>
         var key := [records[i].path, records[i].kind]; key in rows && rows[key] == CoverageRow(records[i].detail))
    && (forall key :: key in rows ==>
         exists i :: 0 <= i < |records| && records[i].project == project && key == [records[i].path, records[i].kind])
  }

  /** The generation has the contents of the project's records, and nothing else. */
  ghost predicate Shows(parse: Parser, store: Store, project: string, generation: Generation) {
    && ShowsNodes(parse, store.nodes, project, generation.nodes)
    && ShowsEdges(parse, store, project, generation.edges)
    && ShowsCoverage(store, project, generation.coverage)
  }

  lemma {:induction false} NodeIsPair(nodes: seq<NodeRecord>, project: string, i: nat) returns (k: nat)
    requires i < |nodes| && nodes[i].project == project
    ensures k < |NodePairs(nodes, project)| && NodePairs(nodes, project)[k] == ([nodes[i].qualified], nodes[i].raw)
  {
    if i == |nodes| - 1 {
      k := |NodePairs(nodes, project)| - 1;
    } else {
      k := NodeIsPair(nodes[..|nodes| - 1], project, i);
    }
  }

  lemma {:induction false} PairIsNode(nodes: seq<NodeRecord>, project: string, k: nat) returns (i: nat)
    requires k < |NodePairs(nodes, project)|
    ensures i < |nodes| && nodes[i].project == project
    ensures NodePairs(nodes, project)[k] == ([nodes[i].qualified], nodes[i].raw)
  {
    if k == |NodePairs(nodes, project)| - 1 && nodes[|nodes| - 1].project == project {
      i := |nodes| - 1;
    } else {
      i := PairIsNode(nodes[..|nodes| - 1], project, k);
    }
  }

  lemma {:induction false} CoverageIsPair(records: seq<CoverageRecord>, project: string, i: nat) returns (k: nat)
    requires i < |records| && records[i].project == project
    ensures k < |CoveragePairs(records, project)|
    ensures CoveragePairs(records, project)[k] == ([records[i].path, records[i].kind], records[i].detail)
  {
    if i == |records| - 1 {
      k := |CoveragePairs(records, project)| - 1;
    } else {
      k := CoverageIsPair(records[..|records| - 1], project, i);
    }
  }

  lemma {:induction false} PairIsCoverage(records: seq<CoverageRecord>, project: string, k: nat) returns (i: nat)
    requires k < |CoveragePairs(records, project)|
    ensures i < |records| && records[i].project == project
    ensures CoveragePairs(records, project)[k] == ([records[i].path, records[i].kind], records[i].detail)
  {
    if k == |CoveragePairs(records, project)| - 1 && records[|records| - 1].project == project {
      i := |records| - 1;
    } else {
      i := PairIsCoverage(records[..|records| - 1], project, k);
    }
  }

  /** Every edge that connects two nodes is listed under their names. */
  lemma {:induction false} EdgeIsPair(nodes: seq<NodeRecord>, edges: seq<EdgeRecord>, project: string, e: nat, s: nat,
                                      t: nat) returns (k: nat)
    requires GoodNodes(nodes, project) && e < |edges| && s < |nodes| && t < |nodes| && edges[e].project == project
    requires nodes[s].id == edges[e].source && nodes[t].id == edges[e].target
    ensures k < |EdgePairs(nodes, edges, project)|
    ensures EdgePairs(nodes, edges, project)[k] ==
      (EdgeKey(nodes[s].qualified, nodes[t].qualified, edges[e].edgeType, edges[e].local), edges[e].properties)
    decreases |edges|
  {
    hide GoodNodes, NodeById;
    if e == |edges| - 1 {
      ByIdFinds(nodes, project, s);
      ByIdFinds(nodes, project, t);
      k := |EdgePairs(nodes, edges, project)| - 1;
    } else {
      k := EdgeIsPair(nodes, edges[..|edges| - 1], project, e, s, t);
    }
  }

  lemma {:induction false} PairIsEdge(nodes: seq<NodeRecord>, edges: seq<EdgeRecord>, project: string, k: nat)
    returns (e: nat, s: nat, t: nat)
    requires k < |EdgePairs(nodes, edges, project)|
    ensures e < |edges| && s < |nodes| && t < |nodes| && edges[e].project == project
    ensures nodes[s].id == edges[e].source && nodes[t].id == edges[e].target
    ensures EdgePairs(nodes, edges, project)[k] ==
      (EdgeKey(nodes[s].qualified, nodes[t].qualified, edges[e].edgeType, edges[e].local), edges[e].properties)
    decreases |edges|
  {
    hide NodeById;
    var n := |edges| - 1;
    if k == |EdgePairs(nodes, edges, project)| - 1 && edges[n].project == project && EdgeName(nodes, edges[n]).Some? {
      e := n;
      s := ByIdIsNode(nodes, edges[n].source);
      t := ByIdIsNode(nodes, edges[n].target);
    } else {
      e, s, t := PairIsEdge(nodes, edges[..n], project, k);
    }
  }

  lemma NodesAreShown(parse: Parser, nodes: seq<NodeRecord>, project: string, rows: Rows)
    ensures RowsAre(NodePairs(nodes, project), NodeParser(parse), rows) <==>
      ShowsNodes(parse, nodes, project, rows) && forall key :: key in rows ==> ValidNode(key, rows[key])
  {
    if RowsAre(NodePairs(nodes, project), NodeParser(parse), rows) {
      RowsShowNodes(parse, nodes, project, rows);
    }
    if ShowsNodes(parse, nodes, project, rows) && forall key :: key in rows ==> ValidNode(key, rows[key]) {
      ShownNodesAreRows(parse, nodes, project, rows);
    }
  }

  lemma RowsShowNodes(parse: Parser, nodes: seq<NodeRecord>, project: string, rows: Rows)
    requires RowsAre(NodePairs(nodes, project), NodeParser(parse), rows)
    ensures ShowsNodes(parse, nodes, project, rows) && forall key :: key in rows ==> ValidNode(key, rows[key])
  {
    hide NodePairs, ValidNode;
    var pairs := NodePairs(nodes, project);
    forall i | 0 <= i < |nodes| && nodes[i].project == project ensures ShowsNode(parse, nodes[i], rows) {
      var k := NodeIsPair(nodes, project, i);
      assert NodeRowOf(parse, pairs[k].0, pairs[k].1) == Some(rows[pairs[k].0]);
    }
    forall key | key in rows
      ensures ValidNode(key, rows[key])
      ensures exists i :: 0 <= i < |nodes| && nodes[i].project == project && key == [nodes[i].qualified]
    {
      var k :| 0 <= k < |pairs| && pairs[k].0 == key;
      assert NodeRowOf(parse, pairs[k].0, pairs[k].1) == Some(rows[key]);
      var i := PairIsNode(nodes, project, k);
    }
  }

  lemma ShownNodesAreRows(parse: Parser, nodes: seq<NodeRecord>, project: string, rows: Rows)
    requires ShowsNodes(parse, nodes, project, rows) && forall key :: key in rows ==> ValidNode(key, rows[key])
    ensures RowsAre(NodePairs(nodes, project), NodeParser(parse), rows)
  {
    hide NodePairs, ValidNode;
    var pairs := NodePairs(nodes, project);
    forall k | 0 <= k < |pairs|
      ensures pairs[k].0 in rows && NodeRowOf(parse, pairs[k].0, pairs[k].1) == Some(rows[pairs[k].0])
    {
      var i := PairIsNode(nodes, project, k);
      assert ShowsNode(parse, nodes[i], rows);
    }
    forall key | key in rows ensures exists k :: 0 <= k < |pairs| && pairs[k].0 == key {
      var i :| 0 <= i < |nodes| && nodes[i].project == project && key == [nodes[i].qualified];
      var k := NodeIsPair(nodes, project, i);
    }
  }

  lemma EdgesAreShown(parse: Parser, store: Store, project: string, rows: Rows)
    requires GoodStore(store, project)
    ensures RowsAre(EdgePairs(store.nodes, store.edges, project), EdgeParser(parse), rows) <==>
      ShowsEdges(parse, store, project, rows) && forall key :: key in rows ==> ValidEdge(key, rows[key])
  {
    hide GoodStore, RowsAre, ShowsEdges, ValidEdge;
    if RowsAre(EdgePairs(store.nodes, store.edges, project), EdgeParser(parse), rows) {
      RowsShowEdges(parse, store, project, rows);
    }
    if ShowsEdges(parse, store, project, rows) && forall key :: key in rows ==> ValidEdge(key, rows[key]) {
      ShownEdgesAreRows(parse, store, project, rows);
    }
  }

  lemma LocalOfGood(store: Store, project: string, e: nat)
    requires GoodStore(store, project) && e < |store.edges| && store.edges[e].project == project
    ensures store.edges[e].local.Some? && GoodNodes(store.nodes, project)
  {
    assert GoodEdge(store.nodes, project, store.edges[e]);
  }

  lemma RowsShowEdges(parse: Parser, store: Store, project: string, rows: Rows)
    requires GoodStore(store, project) && RowsAre(EdgePairs(store.nodes, store.edges, project), EdgeParser(parse), rows)
    ensures ShowsEdges(parse, store, project, rows) && forall key :: key in rows ==> ValidEdge(key, rows[key])
  {
    hide EdgePairs, ValidEdge, GoodStore, GoodNodes;
    var pairs := EdgePairs(store.nodes, store.edges, project);
    forall e, s, t | Connects(store, e, s, t) && store.edges[e].project == project
      ensures ShowsEdge(parse, store, e, s, t, rows)
    {
      LocalOfGood(store, project, e);
      var k := EdgeIsPair(store.nodes, store.edges, project, e, s, t);
      assert EdgeRowOf(parse, pairs[k].0, pairs[k].1) == Some(rows[pairs[k].0]);
      assert pairs[k].0 == FullKey(store, e, s, t);
    }
    forall key | key in rows
      ensures ValidEdge(key, rows[key])
      ensures exists e, s, t ::
        Connects(store, e, s, t) && store.edges[e].project == project && store.edges[e].local.Some?
        && key == FullKey(store, e, s, t)
    {
      var k :| 0 <= k < |pairs| && pairs[k].0 == key;
      assert EdgeRowOf(parse, pairs[k].0, pairs[k].1) == Some(rows[key]);
      var e, s, t := PairIsEdge(store.nodes, store.edges, project, k);
      LocalOfGood(store, project, e);
      assert Connects(store, e, s, t) && pairs[k].0 == FullKey(store, e, s, t);
    }
  }

  lemma ShownEdgesAreRows(parse: Parser, store: Store, project: string, rows: Rows)
    requires GoodStore(store, project)
    requires ShowsEdges(parse, store, project, rows) && forall key :: key in rows ==> ValidEdge(key, rows[key])
    ensures RowsAre(EdgePairs(store.nodes, store.edges, project), EdgeParser(parse), rows)
  {
    hide EdgePairs, ValidEdge, GoodStore, GoodNodes;
    var pairs := EdgePairs(store.nodes, store.edges, project);
    forall k | 0 <= k < |pairs|
      ensures pairs[k].0 in rows && EdgeRowOf(parse, pairs[k].0, pairs[k].1) == Some(rows[pairs[k].0])
    {
      var e, s, t := PairIsEdge(store.nodes, store.edges, project, k);
      LocalOfGood(store, project, e);
      assert Connects(store, e, s, t) && pairs[k].0 == FullKey(store, e, s, t);
      assert ShowsEdge(parse, store, e, s, t, rows);
    }
    forall key | key in rows ensures exists k :: 0 <= k < |pairs| && pairs[k].0 == key {
      var e, s, t :| Connects(store, e, s, t) && store.edges[e].project == project && store.edges[e].local.Some?
        && key == FullKey(store, e, s, t);
      LocalOfGood(store, project, e);
      var k := EdgeIsPair(store.nodes, store.edges, project, e, s, t);
      assert pairs[k].0 == FullKey(store, e, s, t);
    }
  }

  lemma CoverageIsShown(store: Store, project: string, coverage: Option<CoverageState>)
    ensures CoverageIs(store, project, coverage) <==>
      ShowsCoverage(store, project, coverage) && CoverageValid(coverage, project)
  {
    hide ValidMetadata, ValidCoverage, CoveragePairs;
    var pairs := CoveragePairs(store.coverage, project);
    forall i | 0 <= i < |store.coverage| && store.coverage[i].project == project ensures pairs != [] {
      var k := CoverageIsPair(store.coverage, project, i);
    }
    if pairs != [] {
      var i := PairIsCoverage(store.coverage, project, 0);
    }
    if coverage.Some? {
      DetailsAreShown(store.coverage, project, coverage.value.rows);
    }
  }

  lemma DetailsAreShown(records: seq<CoverageRecord>, project: string, rows: Rows)
    ensures RowsAre(CoveragePairs(records, project), CoverageParser(), rows) <==>
      ShowsDetails(records, project, rows) && forall key :: key in rows ==> ValidCoverage(key, rows[key])
  {
    hide RowsAre, ShowsDetails, ValidCoverage;
    if RowsAre(CoveragePairs(records, project), CoverageParser(), rows) {
      RowsShowDetails(records, project, rows);
    }
    if ShowsDetails(records, project, rows) && forall key :: key in rows ==> ValidCoverage(key, rows[key]) {
      ShownDetailsAreRows(records, project, rows);
    }
  }

  lemma RowsShowDetails(records: seq<CoverageRecord>, project: string, rows: Rows)
    requires RowsAre(CoveragePairs(records, project), CoverageParser(), rows)
    ensures ShowsDetails(records, project, rows) && forall key :: key in rows ==> ValidCoverage(key, rows[key])
  {
    hide CoveragePairs, ValidCoverage;
    var pairs := CoveragePairs(records, project);
    forall i | 0 <= i < |records| && records[i].project == project
      ensures [records[i].path, records[i].kind] in rows
      ensures rows[[records[i].path, records[i].kind]] == CoverageRow(records[i].detail)
    {
      var k := CoverageIsPair(records, project, i);
      assert CoverageRowOf(pairs[k].0, pairs[k].1) == Some(rows[pairs[k].0]);
    }
    forall key | key in rows
      ensures ValidCoverage(key, rows[key])
      ensures exists i :: 0 <= i < |records| && records[i].project == project && key == [records[i].path, records[i].kind]
    {
      var k :| 0 <= k < |pairs| && pairs[k].0 == key;
      assert CoverageRowOf(pairs[k].0, pairs[k].1) == Some(rows[key]);
      var i := PairIsCoverage(records, project, k);
    }
  }

  lemma ShownDetailsAreRows(records: seq<CoverageRecord>, project: string, rows: Rows)
    requires ShowsDetails(records, project, rows) && forall key :: key in rows ==> ValidCoverage(key, rows[key])
    ensures RowsAre(CoveragePairs(records, project), CoverageParser(), rows)
  {
    hide CoveragePairs, ValidCoverage;
    var pairs := CoveragePairs(records, project);
    forall k | 0 <= k < |pairs|
      ensures pairs[k].0 in rows && CoverageRowOf(pairs[k].0, pairs[k].1) == Some(rows[pairs[k].0])
    {
      var i := PairIsCoverage(records, project, k);
      assert [records[i].path, records[i].kind] in rows;
    }
    forall key | key in rows ensures exists k :: 0 <= k < |pairs| && pairs[k].0 == key {
      var i :| 0 <= i < |records| && records[i].project == project && key == [records[i].path, records[i].kind];
      var k := CoverageIsPair(records, project, i);
    }
  }

  /** Main result: in a well-formed store exactly the valid generations that show its records are its
  generation; nothing is said of how rows are built. */
  lemma GenerationIsShown(parse: Parser, store: Store, project: string, generation: Generation)
    requires GoodStore(store, project)
    ensures IsGeneration(parse, store, project, generation) <==>
      && Shows(parse, store, project, generation) && ValidGraph(generation.nodes, generation.edges, project)
      && CoverageValid(generation.coverage, project)
  {
    hide RowsAre, ShowsNodes, ShowsEdges, ShowsCoverage, CoverageIs, ValidNode, ValidEdge, ValidCoverageSnapshot, GoodNodes;
    NodesAreShown(parse, store.nodes, project, generation.nodes);
    EdgesAreShown(parse, store, project, generation.edges);
    CoverageIsShown(store, project, generation.coverage);
    NamesAreDistinct(store, project);
  }

  lemma NamesAreDistinct(store: Store, project: string)
    requires GoodStore(store, project)
    ensures DistinctFirst(NodePairs(store.nodes, project))
  {
    NodesAreDistinct(store.nodes, project);
  }

  lemma {:induction false} NodesAreDistinct(nodes: seq<NodeRecord>, project: string)
    requires GoodNodes(nodes, project)
    ensures DistinctFirst(NodePairs(nodes, project))
  {
    if nodes != [] {
      var init, n := nodes[..|nodes| - 1], |nodes| - 1;
      NodesAreDistinct(init, project);
      forall k | 0 <= k < |NodePairs(init, project)| && nodes[n].project == project
        ensures NodePairs(init, project)[k].0 != [nodes[n].qualified]
      {
        var i := PairIsNode(init, project, k);
        assert NodePairs(init, project)[k].0[0] == nodes[i].qualified;
      }
    }
  }

  /** So the generation of a store has its contents. */
  lemma GenerationShows(parse: Parser, store: Store, project: string, generation: Generation)
    requires IsGeneration(parse, store, project, generation)
    ensures GoodStore(store, project) && Shows(parse, store, project, generation)
  {
    hide GoodStore, Shows, ValidGraph, CoverageValid;
    GoodOfGeneration(parse, store, project, generation);
    hide IsGeneration;
    GenerationIsShown(parse, store, project, generation);
  }

  lemma GoodOfGeneration(parse: Parser, store: Store, project: string, generation: Generation)
    requires IsGeneration(parse, store, project, generation)
    ensures GoodStore(store, project)
  {
  }

  // ---- Capturing ----

  datatype ChangeSet = ChangeSet(nodes: Changes, edges: Changes, coverage: Option<CoverageCapture>)

  /** Both generations have distinct coverage identities and hold these states. */
  ghost predicate CoverageDiffers(before: Store, after: Store, project: string, last: Option<CoverageState>,
                                  next: Option<CoverageState>)
  {
    && CoverageIs(before, project, last) && CoverageIs(after, project, next)
    && DistinctFirst(CoveragePairs(before.coverage, project)) && DistinctFirst(CoveragePairs(after.coverage, project))
  }

  function MetadataIn(coverage: Option<CoverageState>): Option<CoverageMetadata> {
    if coverage.Some? then Some(coverage.value.metadata) else None
  }

  lemma CoverageParts(before: Store, after: Store, project: string, last: Option<CoverageState>,
                      next: Option<CoverageState>)
    requires CoverageDiffers(before, after, project, last, next)
    ensures MetadataOf(before, project) == Ok(MetadataIn(last)) && MetadataOf(after, project) == Ok(MetadataIn(next))
    ensures last.Some? ==> RowsAre(CoveragePairs(before.coverage, project), CoverageParser(), last.value.rows)
    ensures next.Some? ==> RowsAre(CoveragePairs(after.coverage, project), CoverageParser(), next.value.rows)
    ensures DistinctFirst(CoveragePairs(before.coverage, project)) && DistinctFirst(CoveragePairs(after.coverage, project))
  {
  }

  /** _coverage_changes_after_publish */
  method CoverageChanges(before: Store, after: Store, project: string, forceSnapshot: bool,
                         ghost last: Option<CoverageState>, ghost next: Option<CoverageState>)
    returns (r: Result<Option<CoverageCapture>>)
    ensures CoverageDiffers(before, after, project, last, next) ==>
      r.Ok? && CapturesCoverage(last, next, r.value, forceSnapshot)
  {
    hide *;
    ghost var good := CoverageDiffers(before, after, project, last, next);
    if good {
      CoverageParts(before, after, project, last, next);
      NextMetadata(last, next);
    }
    var current := MetadataOf(after, project);
    if current.Failure? {
      return Failure("invalid coverage metadata");
    }
    if current.value.None? {
      if good {
        NoCoverage(last, next, forceSnapshot);
      }
      return Ok(None);
    }
    var previous := MetadataOf(before, project);
    if previous.Failure? {
      return Failure("invalid coverage metadata");
    }
    var pairs := CoveragePairs(after.coverage, project);
    if forceSnapshot || previous.value.None? {
      var rows := RowsOf(pairs, CoverageParser());
      if good {
        ValidRows(pairs, CoverageParser(), next.value.rows);
      }
      if rows.Failure? {
        return Failure("invalid coverage rows");
      }
      if good {
        RowsAreUnique(pairs, CoverageParser(), rows.value, next.value.rows);
        SnapshotCaptures(last, next, forceSnapshot);
      }
      return Ok(Some(CoverageCapture(Whole(rows.value), current.value.value, true)));
    }
    var keys := DiffKeys(CoveragePairs(before.coverage, project), pairs);
    var joined := (key: Key) => Matches(pairs, key);
    var changes := CollectChanges(keys, joined, CoverageParser());
    if good {
      TableDiffIsExact(CoveragePairs(before.coverage, project), pairs, CoverageParser(), joined, last.value.rows,
        next.value.rows, if changes.Ok? then changes.value else map[]);
      AllChange(keys, joined, CoverageParser());
    }
    if changes.Failure? {
      return Failure("invalid coverage rows");
    }
    if good {
      MutationCaptures(last, next, changes.value, forceSnapshot);
    }
    r := Ok(Some(CoverageCapture(changes.value, current.value.value, false)));
  }

  function Whole(rows: Rows): Changes {
    map key | key in rows :: Some(rows[key])
  }

  lemma NextMetadata(last: Option<CoverageState>, next: Option<CoverageState>)
    ensures MetadataIn(next).Some? <==> next.Some?
    ensures next.Some? ==> MetadataIn(next).value == next.value.metadata
    ensures MetadataIn(last).Some? <==> last.Some?
  {
  }

  lemma NoCoverage(last: Option<CoverageState>, next: Option<CoverageState>, forceSnapshot: bool)
    requires next.None?
    ensures CapturesCoverage(last, next, None, forceSnapshot)
  {
  }

  lemma ValidRows<V(!new)>(pairs: seq<(Key, V)>, row: (Key, V) -> Option<Row>, rows: Rows)
    requires RowsAre(pairs, row, rows)
    ensures AllValid(pairs, row)
  {
  }

  lemma RowsAreUnique<V(!new)>(pairs: seq<(Key, V)>, row: (Key, V) -> Option<Row>, a: Rows, b: Rows)
    requires RowsAre(pairs, row, a) && RowsAre(pairs, row, b)
    ensures a == b
  {
  }

  lemma AllChange<V>(keys: seq<Key>, joined: Key -> seq<V>, row: (Key, V) -> Option<Row>)
    requires forall key :: key in keys ==> ChangeOf(key, joined(key), row).Some?
    ensures forall i :: 0 <= i < |keys| ==> ChangeOf(keys[i], joined(keys[i]), row).Some?
  {
  }

  lemma SnapshotCaptures(last: Option<CoverageState>, next: Option<CoverageState>, forceSnapshot: bool)
    requires next.Some? && (forceSnapshot || last.None?)
    ensures CapturesCoverage(last, next, Some(CoverageCapture(Whole(next.value.rows), next.value.metadata, true)), forceSnapshot)
  {
  }

  lemma MutationCaptures(last: Option<CoverageState>, next: Option<CoverageState>, changes: Changes, forceSnapshot: bool)
    requires last.Some? && next.Some? && !forceSnapshot
    requires Applicable(last.value.rows, changes) && Override(last.value.rows, changes) == next.value.rows
    ensures CapturesCoverage(last, next, Some(CoverageCapture(changes, next.value.metadata, false)), forceSnapshot)
  {
  }

  /** The capture turns the coverage of the old generation into that of the new one. */
  ghost predicate CapturesCoverage(last: Option<CoverageState>, next: Option<CoverageState>,
                                   capture: Option<CoverageCapture>, forceSnapshot: bool)
  {
    && capture.Some? == next.Some?
    && (capture.Some? ==>
      && capture.value.metadata == next.value.metadata
      && capture.value.snapshot == (forceSnapshot || last.None?)
      && Turns(if capture.value.snapshot then map[] else last.value.rows, capture.value.rows, next.value.rows)
      && (capture.value.snapshot ==> Complete(capture.value.rows))
      && forall key :: key in capture.value.rows && capture.value.rows[key].Some? ==>
           key in next.value.rows && capture.value.rows[key].value == next.value.rows[key])
  }

  ghost predicate Turns(rows: Rows, changes: Changes, newRows: Rows) {
    Applicable(rows, changes) && Override(rows, changes) == newRows
  }

  /** A generation kept readable across the publication of the next one. */
  class PinnedGeneration {
    const store: Store
    const project: string
    const parse: Parser

    constructor (store: Store, project: string, parse: Parser)
      ensures this.store == store && this.project == project && this.parse == parse
    {
      this.store, this.project, this.parse := store, project, parse;
    }

    /** The node half of changes_after_publish. */
    method NodeChanges(after: Store, ghost last: Generation, ghost next: Generation) returns (r: Result<Changes>)
      ensures IsGeneration(parse, store, project, last) && IsGeneration(parse, after, project, next) ==>
        r.Ok? && Turns(last.nodes, r.value, next.nodes)
    {
      hide *;
      ghost var good := IsGeneration(parse, store, project, last) && IsGeneration(parse, after, project, next);
      var pairs := NodePairs(after.nodes, project);
      var keys := DiffKeys(NodePairs(store.nodes, project), pairs);
      var joined := (key: Key) => Matches(pairs, key);
      r := CollectChanges(keys, joined, NodeParser(parse));
      if good {
        GenerationParts(parse, store, project, last);
        GenerationParts(parse, after, project, next);
        TableDiffIsExact(NodePairs(store.nodes, project), pairs, NodeParser(parse), joined, last.nodes, next.nodes,
          if r.Ok? then r.value else map[]);
        AllChange(keys, joined, NodeParser(parse));
        TurnsExactly(last.nodes, if r.Ok? then r.value else map[], next.nodes);
      }
    }

    /** The edge half: the node map first, then both directions of the diff through it. */
    method EdgeChanges(after: Store, ghost last: Generation, ghost next: Generation) returns (r: Result<Changes>)
      ensures IsGeneration(parse, store, project, last) && IsGeneration(parse, after, project, next) ==>
        r.Ok? && Turns(last.edges, r.value, next.edges)
    {
      hide *;
      ghost var good := IsGeneration(parse, store, project, last) && IsGeneration(parse, after, project, next);
      if good {
        GenerationParts(parse, store, project, last);
        GenerationParts(parse, after, project, next);
        NodeMapInserts(store.nodes, after.nodes, project);
      }
      var nodeMap := NodeMapRows(store.nodes, after.nodes, project);
      var inserted := InsertNodeMap(nodeMap);
      if !inserted {
        return Failure("UNIQUE constraint failed");
      }
      var keys := EdgeDiffKeys(store, after, project);
      var joined := (key: Key) => EdgesOf(after, project, key);
      r := CollectChanges(keys, joined, EdgeParser(parse));
      if good {
        EdgeDiffIsByName(store, after, project);
        EdgeKeysJoin(store, after, project);
        TableDiffIsExact(EdgePairs(store.nodes, store.edges, project), EdgePairs(after.nodes, after.edges, project),
          EdgeParser(parse), joined, last.edges, next.edges, if r.Ok? then r.value else map[]);
        AllChange(keys, joined, EdgeParser(parse));
        TurnsExactly(last.edges, if r.Ok? then r.value else map[], next.edges);
      }
    }

    /** changes_after_publish: for two valid generations the mutations are exact. */
    method ChangesAfterPublish(after: Store, forceCoverageSnapshot: bool, ghost last: Generation, ghost next: Generation)
      returns (r: Result<ChangeSet>)
      ensures IsGeneration(parse, store, project, last) && IsGeneration(parse, after, project, next) ==>
        && r.Ok? && Turns(last.nodes, r.value.nodes, next.nodes) && Turns(last.edges, r.value.edges, next.edges)
        && CapturesCoverage(last.coverage, next.coverage, r.value.coverage, forceCoverageSnapshot)
        && Shows(parse, after, project, next)
    {
      hide *;
      if IsGeneration(parse, store, project, last) && IsGeneration(parse, after, project, next) {
        GenerationShows(parse, after, project, next);
        GenerationParts(parse, store, project, last);
        GenerationParts(parse, after, project, next);
        CoverageOf(store, after, project, last.coverage, next.coverage);
      }
      var nodes := NodeChanges(after, last, next);
      if nodes.Failure? {
        return Failure(nodes.reason);
      }
      var edges := EdgeChanges(after, last, next);
      if edges.Failure? {
        return Failure(edges.reason);
      }
      var coverage := CoverageChanges(store, after, project, forceCoverageSnapshot, last.coverage, next.coverage);
      if coverage.Failure? {
        return Failure(coverage.reason);
      }
      r := Ok(ChangeSet(nodes.value, edges.value, coverage.value));
    }
  }

  /** INSERT INTO node_map under its two constraints. */
  method InsertNodeMap(nodeMap: seq<(int, int)>) returns (ok: bool)
    ensures ok <==> UniqueColumns(nodeMap)
  {
    var olds: set<int>, news: set<int> := {}, {};
    for i := 0 to |nodeMap|
      invariant olds == set j | 0 <= j < i :: nodeMap[j].0
      invariant news == set j | 0 <= j < i :: nodeMap[j].1
      invariant UniqueColumns(nodeMap[..i])
    {
      if nodeMap[i].0 in olds || nodeMap[i].1 in news {
        return false;
      }
      olds, news := olds + {nodeMap[i].0}, news + {nodeMap[i].1};
    }
    assert nodeMap[..|nodeMap|] == nodeMap;
    ok := true;
  }

  lemma GenerationParts(parse: Parser, store: Store, project: string, generation: Generation)
    requires IsGeneration(parse, store, project, generation)
    ensures GoodStore(store, project) && GoodNodes(store.nodes, project) && DistinctFirst(NodePairs(store.nodes, project))
    ensures DistinctFirst(EdgePairs(store.nodes, store.edges, project))
    ensures DistinctFirst(CoveragePairs(store.coverage, project))
    ensures RowsAre(NodePairs(store.nodes, project), NodeParser(parse), generation.nodes)
    ensures RowsAre(EdgePairs(store.nodes, store.edges, project), EdgeParser(parse), generation.edges)
    ensures CoverageIs(store, project, generation.coverage) && ValidGraph(generation.nodes, generation.edges, project)
  {
  }

  lemma CoverageOf(before: Store, after: Store, project: string, last: Option<CoverageState>, next: Option<CoverageState>)
    requires CoverageIs(before, project, last) && CoverageIs(after, project, next)
    requires DistinctFirst(CoveragePairs(before.coverage, project)) && DistinctFirst(CoveragePairs(after.coverage, project))
    ensures CoverageDiffers(before, after, project, last, next)
  {
  }

  lemma TurnsExactly(rows: Rows, changes: Changes, newRows: Rows)
    ensures Turns(rows, changes, newRows) <==> Applicable(rows, changes) && Override(rows, changes) == newRows
  {
  }

  /** Every changed edge key is a full identity, and its final join finds the new edge of that identity. */
  lemma EdgeKeysJoin(before: Store, after: Store, project: string)
    requires GoodStore(before, project) && GoodStore(after, project)
    ensures forall key :: key in DiffKeys(EdgePairs(before.nodes, before.edges, project),
        EdgePairs(after.nodes, after.edges, project)) ==>
      EdgesOf(after, project, key) == Matches(EdgePairs(after.nodes, after.edges, project), key)
  {
    hide EdgesOf, Matches, GoodNodes, DiffKeys, EdgePairs;
    var left, right := EdgePairs(before.nodes, before.edges, project), EdgePairs(after.nodes, after.edges, project);
    forall key | key in DiffKeys(left, right) ensures EdgesOf(after, project, key) == Matches(right, key) {
      DiffKeyIsKey(left, right, key);
      FullKeys(before, project, |before.edges|);
      FullKeys(after, project, |after.edges|);
      assert before.edges[..|before.edges|] == before.edges && after.edges[..|after.edges|] == after.edges;
      EdgesAreMatches(after, project, key);
    }
  }

  lemma DiffKeyIsKey<K(!new), V(!new)>(before: seq<(K, V)>, after: seq<(K, V)>, key: K)
    requires DistinctFirst(before) && DistinctFirst(after) && key in DiffKeys(before, after)
    ensures (exists i :: 0 <= i < |before| && before[i].0 == key) || (exists i :: 0 <= i < |after| && after[i].0 == key)
  {
    hide DiffKeys;
    var m := TableMap(before);
    var m' := TableMap(after);
    DiffListsChanges(before, after, m, m');
  }

  lemma {:induction false} FullKeys(store: Store, project: string, n: nat)
    requires GoodStore(store, project) && n <= |store.edges|
    ensures forall i :: 0 <= i < |EdgePairs(store.nodes, store.edges[..n], project)| ==>
      |EdgePairs(store.nodes, store.edges[..n], project)[i].0| == 4
  {
    hide GoodNodes, NodeById;
    if n > 0 {
      FullKeys(store, project, n - 1);
      assert store.edges[..n] == store.edges[..n - 1] + [store.edges[n - 1]];
      EdgePairStep(store.nodes, store.edges[..n - 1], store.edges[n - 1], project);
      assert GoodEdge(store.nodes, project, store.edges[n - 1]);
    }
  }

  // ---- GraphReader ----

  /** load_coverage: all coverage rows of a generation. */
  method LoadCoverage(store: Store, project: string, ghost coverage: Option<CoverageState>)
    returns (r: Result<Option<CoverageState>>)
    ensures CoverageIs(store, project, coverage) && DistinctFirst(CoveragePairs(store.coverage, project)) ==>
      r == Ok(coverage)
  {
    hide *;
    ghost var good := CoverageDiffers(store, store, project, coverage, coverage);
    CoverageAlone(store, project, coverage);
    if good {
      CoverageParts(store, store, project, coverage, coverage);
      NextMetadata(coverage, coverage);
    }
    var metadata := MetadataOf(store, project);
    if metadata.Failure? {
      return Failure("invalid coverage metadata");
    }
    if metadata.value.None? {
      return Ok(None);
    }
    var rows := RowsOf(CoveragePairs(store.coverage, project), CoverageParser());
    if good {
      ValidRows(CoveragePairs(store.coverage, project), CoverageParser(), coverage.value.rows);
    }
    if rows.Failure? {
      return Failure("invalid coverage rows");
    }
    if good {
      RowsAreUnique(CoveragePairs(store.coverage, project), CoverageParser(), rows.value, coverage.value.rows);
    }
    r := Ok(Some(CoverageState(rows.value, metadata.value.value)));
  }

  lemma CoverageAlone(store: Store, project: string, coverage: Option<CoverageState>)
    ensures CoverageDiffers(store, store, project, coverage, coverage) <==>
      CoverageIs(store, project, coverage) && DistinctFirst(CoveragePairs(store.coverage, project))
  {
  }

  /** snapshot: every row of the generation. */
  method Snapshot(parse: Parser, store: Store, project: string, ghost generation: Generation) returns (r: Result<Capture>)
    ensures IsGeneration(parse, store, project, generation) ==>
      r == Ok(WholeCapture(generation)) && Shows(parse, store, project, generation)
  {
    hide *;
    ghost var good := IsGeneration(parse, store, project, generation);
    if good {
      GenerationShows(parse, store, project, generation);
      GenerationParts(parse, store, project, generation);
      ValidRows(NodePairs(store.nodes, project), NodeParser(parse), generation.nodes);
      ValidRows(EdgePairs(store.nodes, store.edges, project), EdgeParser(parse), generation.edges);
    }
    var nodes := RowsOf(NodePairs(store.nodes, project), NodeParser(parse));
    if nodes.Failure? {
      return Failure("invalid nodes");
    }
    var edges := RowsOf(EdgePairs(store.nodes, store.edges, project), EdgeParser(parse));
    if edges.Failure? {
      return Failure("invalid edges");
    }
    if good {
      RowsAreUnique(NodePairs(store.nodes, project), NodeParser(parse), nodes.value, generation.nodes);
      RowsAreUnique(EdgePairs(store.nodes, store.edges, project), EdgeParser(parse), edges.value, generation.edges);
    }
    if !ValidGraph(nodes.value, edges.value, project) {
      return Failure("invalid graph");
    }
    var coverage := LoadCoverage(store, project, generation.coverage);
    if coverage.Failure? {
      return Failure("invalid coverage");
    }
    r := Ok(Capture(Whole(nodes.value), Whole(edges.value), true, WholeCoverage(coverage.value)));
    WholeCaptureIs(generation);
  }

  function WholeCoverage(coverage: Option<CoverageState>): Option<CoverageCapture> {
    if coverage.None? then None else Some(CoverageCapture(Whole(coverage.value.rows), coverage.value.metadata, true))
  }

  function WholeCapture(generation: Generation): Capture {
    Capture(Whole(generation.nodes), Whole(generation.edges), true, WholeCoverage(generation.coverage))
  }

  lemma WholeCaptureIs(generation: Generation)
    ensures WholeCapture(generation) ==
      Capture(Whole(generation.nodes), Whole(generation.edges), true, WholeCoverage(generation.coverage))
  {
  }

  /** The archive's latest generation is the one that was pinned, so far as mutations build on it; a
  reported no-op changed nothing. */
  ghost predicate Aligned(parse: Parser, previous: Option<Store>, project: string, pinned: Generation,
                          archived: Generation, next: Generation, noop: bool)
  {
    previous.Some? ==>
      && IsGeneration(parse, previous.value, project, pinned)
      && pinned.nodes == archived.nodes && pinned.edges == archived.edges
      && (archived.coverage.Some? ==> pinned.coverage == archived.coverage)
      && (noop ==>
        && next.nodes == archived.nodes && next.edges == archived.edges
        && (archived.coverage.Some? && next.coverage.Some? ==>
              next.coverage.value.rows == archived.coverage.value.rows))
  }

  /** What recording the published generation on top of the archived one must give: that generation,
  unless it lost a coverage that the archive has. */
  function Advanced(archived: Generation, next: Generation): Result<Generation> {
    if next.coverage.None? && archived.coverage.Some? then Failure("generation lost its coverage attachment")
    else Ok(next)
  }

  /** capture: whichever path is taken, folding the capture into the archive's latest generation gives
  exactly the published one. */
  method CaptureGeneration(parse: Parser, previous: Option<PinnedGeneration>, store: Store, project: string,
                           forceSnapshot: bool, forceCoverageSnapshot: bool, noop: bool,
                           ghost pinned: Generation, ghost archived: Generation, ghost next: Generation)
    returns (r: Result<Capture>)
    requires previous.Some? ==> previous.value.project == project && previous.value.parse == parse
    requires forceCoverageSnapshot == archived.coverage.None?
    ensures IsGeneration(parse, store, project, next)
      && Aligned(parse, if previous.Some? && !forceSnapshot then Some(previous.value.store) else None, project, pinned,
                 archived, next, noop)
      ==> r.Ok? && Next(archived, r.value, project) == Advanced(archived, next)
    ensures IsGeneration(parse, store, project, next) ==> Shows(parse, store, project, next)
  {
    hide *;
    ghost var base := if previous.Some? && !forceSnapshot then Some(previous.value.store) else None;
    ghost var good := IsGeneration(parse, store, project, next)
      && Aligned(parse, base, project, pinned, archived, next, noop);
    if IsGeneration(parse, store, project, next) {
      GenerationShows(parse, store, project, next);
    }
    if good {
      GenerationParts(parse, store, project, next);
      CoverageRowsValid(store, project, next.coverage);
    }
    if forceSnapshot || previous.None? {
      r := Snapshot(parse, store, project, next);
      if good {
        WholeAdvances(parse, base, project, pinned, archived, next, noop);
      }
      return;
    }
    if noop {
      var current := LoadCoverage(store, project, next.coverage);
      if current.Failure? {
        return Failure(current.reason);
      }
      r := Ok(Capture(map[], map[], false,
        if current.value.None? then None
        else Some(CoverageCapture(if forceCoverageSnapshot then Whole(current.value.value.rows) else map[],
          current.value.value.metadata, forceCoverageSnapshot))));
      if good {
        NoopAdvances(parse, base, project, pinned, archived, next, r.value, forceCoverageSnapshot);
      }
      return;
    }
    if good {
      AlignedBase(parse, base, project, pinned, archived, next, noop);
    }
    var changes := previous.value.ChangesAfterPublish(store, forceCoverageSnapshot, pinned, next);
    if changes.Failure? {
      return Failure(changes.reason);
    }
    r := Ok(Capture(changes.value.nodes, changes.value.edges, false, changes.value.coverage));
    if good {
      GenerationParts(parse, previous.value.store, project, pinned);
      CoverageRowsValid(previous.value.store, project, pinned.coverage);
      MutationsAdvance(pinned, archived, next, changes.value, project, forceCoverageSnapshot);
    }
  }

  /** The rows and metadata of a published coverage are valid. */
  ghost predicate CoverageValid(coverage: Option<CoverageState>, project: string) {
    coverage.Some? ==> ValidCoverageSnapshot(coverage.value.rows, coverage.value.metadata, project)
  }

  lemma CoverageRowsValid(store: Store, project: string, coverage: Option<CoverageState>)
    requires CoverageIs(store, project, coverage)
    ensures CoverageValid(coverage, project)
  {
    hide ValidMetadata;
    if coverage.Some? {
      var pairs, rows := CoveragePairs(store.coverage, project), coverage.value.rows;
      forall key | key in rows ensures ValidCoverage(key, rows[key]) {
        var i :| 0 <= i < |pairs| && pairs[i].0 == key;
        assert CoverageParser()(pairs[i].0, pairs[i].1) == Some(rows[key]);
      }
    }
  }

  lemma WholeFolds(rows: Rows)
    ensures Complete(Whole(rows)) && Fold(map[], Whole(rows)) == Ok(rows) && Override(map[], Whole(rows)) == rows
    ensures Checked(Whole(rows)) == rows
  {
    assert Override(map[], Whole(rows)) == rows;
  }

  lemma AlignedBase(parse: Parser, previous: Option<Store>, project: string, pinned: Generation,
                    archived: Generation, next: Generation, noop: bool)
    requires Aligned(parse, previous, project, pinned, archived, next, noop)
    ensures previous.Some? ==> IsGeneration(parse, previous.value, project, pinned)
    ensures previous.Some? ==>
      && pinned.nodes == archived.nodes && pinned.edges == archived.edges
      && (archived.coverage.Some? ==> pinned.coverage == archived.coverage)
    ensures previous.Some? && noop ==>
      && next.nodes == archived.nodes && next.edges == archived.edges
      && (archived.coverage.Some? && next.coverage.Some? ==>
            next.coverage.value.rows == archived.coverage.value.rows)
  {
  }

  lemma WholeAdvances(parse: Parser, previous: Option<Store>, project: string, pinned: Generation,
                      archived: Generation, next: Generation, noop: bool)
    requires Aligned(parse, previous, project, pinned, archived, next, noop)
    requires ValidGraph(next.nodes, next.edges, project) && CoverageValid(next.coverage, project)
    ensures Next(archived, WholeCapture(next), project) == Advanced(archived, next)
  {
    AlignedBase(parse, previous, project, pinned, archived, next, noop);
    hide ValidGraph, ValidMetadata, ValidCoverage, Aligned, Override, Complete, Whole, Fold, Checked;
    WholeFolds(next.nodes);
    WholeFolds(next.edges);
    if next.coverage.Some? {
      WholeFolds(next.coverage.value.rows);
    }
  }

  lemma NoopAdvances(parse: Parser, previous: Option<Store>, project: string, pinned: Generation, archived: Generation,
                     next: Generation, capture: Capture, forceCoverageSnapshot: bool)
    requires Aligned(parse, previous, project, pinned, archived, next, true) && previous.Some?
    requires CoverageValid(next.coverage, project) && forceCoverageSnapshot == archived.coverage.None?
    requires capture == Capture(map[], map[], false,
        if next.coverage.None? then None
        else Some(CoverageCapture(if forceCoverageSnapshot then Whole(next.coverage.value.rows) else map[],
          next.coverage.value.metadata, forceCoverageSnapshot)))
    ensures Next(archived, capture, project) == Advanced(archived, next)
  {
    AlignedBase(parse, previous, project, pinned, archived, next, true);
    hide ValidMetadata, ValidCoverage, Aligned, Override, Complete, Whole, Fold;
    NothingFolds(archived.nodes);
    NothingFolds(archived.edges);
    if next.coverage.Some? {
      WholeFolds(next.coverage.value.rows);
      NothingFolds(next.coverage.value.rows);
    }
  }

  lemma NothingFolds(rows: Rows)
    ensures Fold(rows, map[]) == Ok(rows)
  {
    assert Override(rows, map[]) == rows;
  }

  lemma MutationsAdvance(pinned: Generation, archived: Generation, next: Generation, changes: ChangeSet, project: string,
                         forceCoverageSnapshot: bool)
    requires pinned.nodes == archived.nodes && pinned.edges == archived.edges
    requires archived.coverage.Some? ==> pinned.coverage == archived.coverage
    requires CoverageValid(next.coverage, project) && forceCoverageSnapshot == archived.coverage.None?
    requires Turns(pinned.nodes, changes.nodes, next.nodes) && Turns(pinned.edges, changes.edges, next.edges)
    requires CapturesCoverage(pinned.coverage, next.coverage, changes.coverage, forceCoverageSnapshot)
    requires CoverageValid(pinned.coverage, project)
    ensures Next(archived, Capture(changes.nodes, changes.edges, false, changes.coverage), project)
      == Advanced(archived, next)
  {
    hide ValidMetadata, ValidCoverage, Override, Complete, Checked;
    if changes.coverage.Some? {
      CheckedAreValid(if pinned.coverage.Some? then pinned.coverage.value.rows else map[], changes.coverage.value.rows,
        next.coverage.value.rows, next.coverage.value.metadata, project);
    }
  }

  /** The rows that validation sees are rows of the new generation, or stand for deletions of old ones. */
  lemma CheckedAreValid(oldRows: Rows, changes: Changes, rows: Rows, metadata: CoverageMetadata, project: string)
    requires ValidCoverageSnapshot(rows, metadata, project)
    requires forall key :: key in changes && changes[key].Some? ==> key in rows && changes[key].value == rows[key]
    requires forall key :: key in changes && changes[key].None? ==> key in oldRows
    requires forall key :: key in oldRows ==> ValidCoverage(key, oldRows[key])
    ensures ValidCoverageSnapshot(Checked(changes), metadata, project)
  {
  }
}
