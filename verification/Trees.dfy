/** What a sharded Merkle tree means: the map it represents, and the hash that depends on nothing
but that map. */
module Trees {
  import opened Wrappers
  import opened Orders
  import opened Text
  import opened Model
  import opened Shards

  type Pages = map<nat, Page>

  // ---- Sharding a map ----

  function SlotSet(tree: Tree, rows: Rows): set<string> {
    set key | key in rows :: Shard(tree, key)
  }

  function Slice(tree: Tree, rows: Rows, slot: string): Rows {
    map key | key in rows && Shard(tree, key) == slot :: rows[key]
  }

  ghost function Slots(tree: Tree, rows: Rows): (slots: seq<string>)
    ensures forall slot :: slot in slots <==> slot in SlotSet(tree, rows)
    ensures forall i, j :: 0 <= i < j < |slots| ==> slots[i] != slots[j]
  {
    CodePointsInjective();
    SortedHasNoDuplicates(SlotSet(tree, rows), CodePoints);
    Sorted(SlotSet(tree, rows), CodePoints)
  }

  // ---- Canonical pages ----

  ghost function LeafEntries(codec: Codec, rows: Rows): (entries: seq<(Key, Row)>)
    requires codec.Sound()
    ensures |entries| == |rows|
  {
    var keys := Sorted(rows.Keys, codec.keyBytes);
    seq(|keys|, i requires 0 <= i < |keys| => (keys[i], rows[keys[i]]))
  }

  ghost function LeafLogical(codec: Codec, tree: Tree, rows: Rows): Logical
    requires codec.Sound()
  {
    LogicalLeaf(tree, 1, |rows|, LeafEntries(codec, rows))
  }

  ghost function LeafHash(codec: Codec, tree: Tree, rows: Rows): Hash
    requires codec.Sound()
  {
    codec.hash(LeafLogical(codec, tree, rows))
  }

  ghost function SlotEntry(codec: Codec, tree: Tree, rows: Rows, slot: string): (string, Hash, nat)
    requires codec.Sound()
  {
    (slot, LeafHash(codec, tree, Slice(tree, rows, slot)), |Slice(tree, rows, slot)|)
  }

  ghost function RootLogical(codec: Codec, tree: Tree, rows: Rows): Logical
    requires codec.Sound()
  {
    var slots := Slots(tree, rows);
    LogicalBranch(tree, 0, |rows|,
      seq(|slots|, i requires 0 <= i < |slots| => SlotEntry(codec, tree, rows, slots[i])))
  }

  ghost function RootHash(codec: Codec, tree: Tree, rows: Rows): Hash
    requires codec.Sound()
  {
    codec.hash(RootLogical(codec, tree, rows))
  }

  ghost predicate IsLeaf(codec: Codec, pages: Pages, tree: Tree, ref: TreeRef, rows: Rows)
    requires codec.Sound()
  {
    && ref.logicalHash == LeafHash(codec, tree, rows) && ref.count == |rows|
    && ref.offset in pages
    && pages[ref.offset] == Leaf(tree, 1, LeafEntries(codec, rows), ref.logicalHash, ref.count)
  }

  ghost predicate IsRoot(codec: Codec, pages: Pages, tree: Tree, ref: TreeRef, rows: Rows)
    requires codec.Sound()
  {
    && ref.logicalHash == RootHash(codec, tree, rows) && ref.count == |rows|
    && ref.offset in pages
    && var page, slots := pages[ref.offset], Slots(tree, rows);
      && page.Branch? && page.tree == tree && page.depth == 0
      && page.logicalHash == ref.logicalHash && page.count == ref.count
      && |page.children| == |slots|
      && forall i :: 0 <= i < |slots| ==>
           && page.children[i].0 == slots[i]
           && IsLeaf(codec, pages, tree, page.children[i].1, Slice(tree, rows, slots[i]))
  }

  /** The tree under `root` stores exactly `rows`; the empty map has no root. */
  ghost predicate Represents(codec: Codec, pages: Pages, tree: Tree, root: Option<TreeRef>, rows: Rows)
    requires codec.Sound()
  {
    match root
    case None => rows == map[]
    case Some(ref) => rows != map[] && IsRoot(codec, pages, tree, ref, rows)
  }

  ghost predicate Extends(pages: Pages, larger: Pages) {
    forall offset :: offset in pages ==> offset in larger && larger[offset] == pages[offset]
  }

  /** Pages written later never change what an old root stores. */
  lemma RepresentsIsStable(codec: Codec, pages: Pages, larger: Pages, tree: Tree, root: Option<TreeRef>, rows: Rows)
    requires codec.Sound() && Extends(pages, larger)
    requires Represents(codec, pages, tree, root, rows)
    ensures Represents(codec, larger, tree, root, rows)
  {
  }

  // ---- Updating a map ----

  predicate Applicable(rows: Rows, changes: Changes) {
    forall key | key in changes :: changes[key].None? ==> key in rows
  }

  function Override(rows: Rows, changes: Changes): Rows {
    map key | key in rows.Keys + changes.Keys && (key in changes ==> changes[key].Some?) ::
      if key in changes then changes[key].value else rows[key]
  }

  function ChangesAt(tree: Tree, changes: Changes, slot: string): Changes {
    map key | key in changes && Shard(tree, key) == slot :: changes[key]
  }

  function ChangedSlots(tree: Tree, changes: Changes): set<string> {
    set key | key in changes :: Shard(tree, key)
  }

  lemma SliceOfOverride(tree: Tree, rows: Rows, changes: Changes, slot: string)
    ensures Slice(tree, Override(rows, changes), slot)
         == Override(Slice(tree, rows, slot), ChangesAt(tree, changes, slot))
  {
  }

  lemma ApplicableBySlot(tree: Tree, rows: Rows, changes: Changes)
    ensures Applicable(rows, changes) <==>
      forall slot :: slot in ChangedSlots(tree, changes) ==>
        Applicable(Slice(tree, rows, slot), ChangesAt(tree, changes, slot))
  {
    if !Applicable(rows, changes) {
      var key :| key in changes && changes[key].None? && key !in rows;
      var slot := Shard(tree, key);
      assert key in ChangesAt(tree, changes, slot);
      assert slot in ChangedSlots(tree, changes);
    }
  }

  // ---- Counting ----

  function Covered(tree: Tree, rows: Rows, slots: seq<string>): Rows {
    map key | key in rows && Shard(tree, key) in slots :: rows[key]
  }

  function SliceSizes(tree: Tree, rows: Rows, slots: seq<string>): nat {
    if slots == [] then 0
    else SliceSizes(tree, rows, slots[..|slots| - 1]) + |Slice(tree, rows, slots[|slots| - 1])|
  }

  lemma {:induction false} SliceSizesCount(tree: Tree, rows: Rows, slots: seq<string>)
    requires forall i, j :: 0 <= i < j < |slots| ==> slots[i] != slots[j]
    ensures SliceSizes(tree, rows, slots) == |Covered(tree, rows, slots)|
  {
    if slots == [] {
      assert Covered(tree, rows, slots) == map[];
    } else {
      var init, last := slots[..|slots| - 1], slots[|slots| - 1];
      SliceSizesCount(tree, rows, init);
      assert slots == init + [last];
      CoveredOneMore(tree, rows, init, last);
    }
  }

  lemma CoveredOneMore(tree: Tree, rows: Rows, slots: seq<string>, slot: string)
    requires slot !in slots
    ensures |Covered(tree, rows, slots + [slot])| == |Covered(tree, rows, slots)| + |Slice(tree, rows, slot)|
  {
    hide Shard;
    var a, b, c := Covered(tree, rows, slots).Keys, Slice(tree, rows, slot).Keys, Covered(tree, rows, slots + [slot]).Keys;
    assert a + b == c;
    assert a !! b;
    SizeOfKeys(Covered(tree, rows, slots));
    SizeOfKeys(Slice(tree, rows, slot));
    SizeOfKeys(Covered(tree, rows, slots + [slot]));
  }

  lemma SizeOfKeys(rows: Rows)
    ensures |rows| == |rows.Keys|
  {
  }

  /** The slices of a map add up to it. */
  lemma SlotsCountAll(tree: Tree, rows: Rows)
    ensures SliceSizes(tree, rows, Slots(tree, rows)) == |rows|
  {
    SliceSizesCount(tree, rows, Slots(tree, rows));
    assert Covered(tree, rows, Slots(tree, rows)) == rows;
  }

  // ---- The hash is canonical and tells maps apart ----

  lemma EntriesDetermineRows(codec: Codec, a: Rows, b: Rows)
    requires codec.Sound() && LeafEntries(codec, a) == LeafEntries(codec, b)
    ensures a == b
  {
    hide LeafEntries, Codec.Sound;
    forall key ensures key in a ==> key in b && a[key] == b[key] {
      EntryOf(codec, a, b, key);
    }
    forall key ensures key in b ==> key in a {
      EntryOf(codec, b, a, key);
    }
  }

  lemma EntryOf(codec: Codec, a: Rows, b: Rows, key: Key)
    requires codec.Sound() && LeafEntries(codec, a) == LeafEntries(codec, b)
    ensures key in a ==> key in b && a[key] == b[key]
  {
    if key in a {
      var keys, others := Sorted(a.Keys, codec.keyBytes), Sorted(b.Keys, codec.keyBytes);
      assert key in keys;
      var i :| 0 <= i < |keys| && keys[i] == key;
      assert LeafEntries(codec, a)[i] == (key, a[key]);
      assert LeafEntries(codec, b)[i] == (others[i], b[others[i]]);
      assert others[i] in others;
    }
  }

  /** The pages of the tree that stores `rows`: its root and its leaves. */
  ghost predicate IsPageOf(codec: Codec, tree: Tree, rows: Rows, logical: Logical)
    requires codec.Sound()
  {
    logical == RootLogical(codec, tree, rows) || IsLeafOf(codec, tree, rows, logical)
  }

  ghost predicate IsLeafOf(codec: Codec, tree: Tree, rows: Rows, logical: Logical)
    requires codec.Sound()
  {
    exists slot :: slot in Slots(tree, rows) && logical == LeafLogical(codec, tree, Slice(tree, rows, slot))
  }

  /** No page of one tree collides with another page of the other: digests have a fixed width, so this can
  only be assumed of the pages at hand. */
  ghost predicate HashesApart(codec: Codec, tree: Tree, a: Rows, b: Rows)
    requires codec.Sound()
  {
    forall x, y :: IsPageOf(codec, tree, a, x) && IsPageOf(codec, tree, b, y) && codec.hash(x) == codec.hash(y) ==> x == y
  }

  lemma SamePage(codec: Codec, tree: Tree, a: Rows, b: Rows, slot: string)
    requires codec.Sound() && HashesApart(codec, tree, a, b) && slot in Slots(tree, a) && slot in Slots(tree, b)
    requires LeafHash(codec, tree, Slice(tree, a, slot)) == LeafHash(codec, tree, Slice(tree, b, slot))
    ensures Slice(tree, a, slot) == Slice(tree, b, slot)
  {
    hide Slots, LeafEntries, Slice;
    var x, y := LeafLogical(codec, tree, Slice(tree, a, slot)), LeafLogical(codec, tree, Slice(tree, b, slot));
    assert IsLeafOf(codec, tree, a, x) && IsLeafOf(codec, tree, b, y);
    assert IsPageOf(codec, tree, a, x) && IsPageOf(codec, tree, b, y);
    EntriesDetermineRows(codec, Slice(tree, a, slot), Slice(tree, b, slot));
  }

  /** If their pages do not collide, maps with equal root hashes are equal: update histories with the same
  digest stored the same rows, and different rows have different digests. */
  lemma RootHashIsInjective(codec: Codec, tree: Tree, a: Rows, b: Rows)
    requires codec.Sound() && HashesApart(codec, tree, a, b)
    requires RootHash(codec, tree, a) == RootHash(codec, tree, b)
    ensures a == b
  {
    hide LeafEntries, Codec.Sound, Slice;
    assert IsPageOf(codec, tree, a, RootLogical(codec, tree, a)) && IsPageOf(codec, tree, b, RootLogical(codec, tree, b));
    assert RootLogical(codec, tree, a) == RootLogical(codec, tree, b);
    var slots, others := Slots(tree, a), Slots(tree, b);
    var left, right := RootLogical(codec, tree, a).children, RootLogical(codec, tree, b).children;
    assert left == right;
    forall i | 0 <= i < |slots| ensures slots[i] == others[i]
      && Slice(tree, a, slots[i]) == Slice(tree, b, slots[i]) {
      assert left[i].0 == slots[i] && right[i].0 == others[i];
      assert left[i].1 == LeafHash(codec, tree, Slice(tree, a, slots[i]));
      assert right[i].1 == LeafHash(codec, tree, Slice(tree, b, others[i]));
      SamePage(codec, tree, a, b, slots[i]);
    }
    SlicesDetermine(tree, a, b);
    SlicesDetermine(tree, b, a);
  }

  lemma SlicesDetermine(tree: Tree, a: Rows, b: Rows)
    requires |Slots(tree, a)| == |Slots(tree, b)|
    requires forall i :: 0 <= i < |Slots(tree, a)| ==>
      Slots(tree, a)[i] == Slots(tree, b)[i] && Slice(tree, a, Slots(tree, a)[i]) == Slice(tree, b, Slots(tree, a)[i])
    ensures forall key :: key in a ==> key in b && a[key] == b[key]
  {
    var slots := Slots(tree, a);
    forall key | key in a ensures key in b && a[key] == b[key] {
      var slot := Shard(tree, key);
      assert slot in SlotSet(tree, a);
      var i :| 0 <= i < |slots| && slots[i] == slot;
      assert key in Slice(tree, a, slot);
      assert key in Slice(tree, b, slot);
      assert Slice(tree, a, slot)[key] == a[key] && Slice(tree, b, slot)[key] == b[key];
    }
  }

  // ---- Digests of whole generations ----

  /** The pair that the graph digest hashes. */
  ghost function RootHashes(codec: Codec, nodes: Rows, edges: Rows): (Option<Hash>, Option<Hash>)
    requires codec.Sound()
  {
    (if nodes == map[] then None else Some(RootHash(codec, Nodes, nodes)),
     if edges == map[] then None else Some(RootHash(codec, Edges, edges)))
  }

  ghost function GraphDigest(codec: Codec, nodes: Rows, edges: Rows): Hash
    requires codec.Sound()
  {
    codec.graphHash(RootHashes(codec, nodes, edges).0, RootHashes(codec, nodes, edges).1)
  }

  /** Equal generations have equal graph digests; generations with equal digests are equal, if neither their
  pages nor the two pairs of root hashes collide. */
  lemma GraphDigestIsInjective(codec: Codec, n1: Rows, e1: Rows, n2: Rows, e2: Rows)
    requires codec.Sound() && HashesApart(codec, Nodes, n1, n2) && HashesApart(codec, Edges, e1, e2)
    requires GraphDigest(codec, n1, e1) == GraphDigest(codec, n2, e2) ==>
      RootHashes(codec, n1, e1) == RootHashes(codec, n2, e2)
    ensures GraphDigest(codec, n1, e1) == GraphDigest(codec, n2, e2) <==> n1 == n2 && e1 == e2
  {
    hide RootHash, HashesApart, Codec.Sound;
    if GraphDigest(codec, n1, e1) == GraphDigest(codec, n2, e2) {
      if n1 != map[] {
        RootHashIsInjective(codec, Nodes, n1, n2);
      }
      if e1 != map[] {
        RootHashIsInjective(codec, Edges, e1, e2);
      }
    }
  }

  /** Two trees of the same rows have the same hash, whatever updates produced them and wherever their pages
  lie; nothing is assumed of the hash. */
  lemma SameRowsSameHash(codec: Codec, tree: Tree, a: Pages, rootA: Option<TreeRef>, b: Pages, rootB: Option<TreeRef>,
                         rows: Rows)
    requires codec.Sound()
    requires Represents(codec, a, tree, rootA, rows) && Represents(codec, b, tree, rootB, rows)
    ensures HashOf(rootA) == HashOf(rootB)
  {
  }

  /** The root hash depends on contents alone, and tells contents apart whose pages do not collide: two trees
  have equal hashes exactly when they store the same map. */
  lemma DigestIsCanonical(codec: Codec, tree: Tree, a: Pages, rootA: Option<TreeRef>, rowsA: Rows,
                          b: Pages, rootB: Option<TreeRef>, rowsB: Rows)
    requires codec.Sound() && HashesApart(codec, tree, rowsA, rowsB)
    requires Represents(codec, a, tree, rootA, rowsA) && Represents(codec, b, tree, rootB, rowsB)
    ensures rowsA == rowsB <==> HashOf(rootA) == HashOf(rootB)
  {
    hide Codec.Sound, HashesApart, RootHash;
    if rootA.Some? && rootB.Some? && HashOf(rootA) == HashOf(rootB) {
      RootHashIsInjective(codec, tree, rowsA, rowsB);
    }
  }

  function HashOf(root: Option<TreeRef>): Option<Hash> {
    if root.Some? then Some(root.value.logicalHash) else None
  }
}
