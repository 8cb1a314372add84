/** The native importer of csrc/kga_reader.c: it walks a stored tree, checks every page against its
reference, and feeds leaf-sized batches to an importer that is told the identities are unique. */
module NativeReader {
  import opened Collections
  import opened Wrappers
  import opened Orders
  import opened Text
  import opened Model
  import opened Shards
  import opened Trees

  const MAX_TREE_DEPTH := 64
  const UINT64_LIMIT := 0x1_0000_0000_0000_0000

  datatype NativeRow = NativeRow(identity: seq<Bytes>, fields: Row)

  // ---- Parsing ----

  /** json_string: text with an embedded NUL is refused. */
  function JsonString(text: string): Option<Bytes> {
    if Exact(text) then Some(Encode(text)) else None
  }

  function EncodeKey(key: Key): seq<Bytes> {
    seq(|key|, i requires 0 <= i < |key| => Encode(key[i]))
  }

  function IdentitySize(tree: Tree): nat {
    match tree case Nodes => 1 case Edges => 4 case Coverage => 2
  }

  predicate FitsInt32(n: int) { INT32_MIN <= n <= INT32_MAX }

  predicate ParsesFields(tree: Tree, row: Row) {
    match tree
    case Nodes =>
      && row.NodeRow? && JsonString(row.nodeLabel).Some? && JsonString(row.name).Some?
      && JsonString(row.filePath).Some? && FitsInt32(row.startLine) && FitsInt32(row.endLine)
    case Edges => row.EdgeRow?
    case Coverage => row.CoverageRow? && JsonString(row.detail).Some?
  }

  function ParseRow(tree: Tree, key: Key, row: Row): (r: Option<NativeRow>)
  {
    if |key| == IdentitySize(tree) && (forall i | 0 <= i < |key| :: JsonString(key[i]).Some?) &&
       ParsesFields(tree, row)
    then Some(NativeRow(EncodeKey(key), row))
    else None
  }

  // ---- Ordering rows ----

  /** strcmp on NUL-terminated unsigned bytes */
  function Strcmp(a: Bytes, b: Bytes): int {
    if a == b then 0 else if Less(a, b) then -1 else 1
  }

  /** compare_nodes, compare_edges and compare_coverage: the first field that differs decides. */
  function Compare(a: seq<Bytes>, b: seq<Bytes>): int
    requires |a| == |b|
  {
    if a == [] then 0
    else if Strcmp(a[0], b[0]) != 0 then Strcmp(a[0], b[0])
    else Compare(a[1..], b[1..])
  }

  lemma {:induction false} CompareIsTotal(a: seq<Bytes>, b: seq<Bytes>)
    requires |a| == |b|
    ensures Compare(a, b) == 0 <==> a == b
    ensures Compare(a, b) < 0 <==> Compare(b, a) > 0
  {
    if a != [] {
      LessIsTotal(a[0], b[0]);
      CompareIsTotal(a[1..], b[1..]);
      if a[0] == b[0] && a[1..] == b[1..] {
        assert a == [a[0]] + a[1..] == b;
      }
    }
  }

  lemma {:induction false} CompareIsTransitive(a: seq<Bytes>, b: seq<Bytes>, c: seq<Bytes>)
    requires |a| == |b| == |c|
    requires Compare(a, b) <= 0 && Compare(b, c) <= 0
    ensures Compare(a, c) <= 0
  {
    if a != [] {
      LessIsTotal(a[0], b[0]);
      LessIsTotal(b[0], c[0]);
      LessIsTotal(a[0], c[0]);
      if Less(a[0], b[0]) && Less(b[0], c[0]) {
        LessIsTransitive(a[0], b[0], c[0]);
      } else if a[0] == b[0] == c[0] {
        CompareIsTransitive(a[1..], b[1..], c[1..]);
      }
    }
  }

  ghost predicate Uniform(tree: Tree, rows: seq<NativeRow>) {
    forall i :: 0 <= i < |rows| ==> |rows[i].identity| == IdentitySize(tree)
  }

  ghost predicate Ascending(tree: Tree, rows: seq<NativeRow>)
    requires Uniform(tree, rows)
  {
    forall i, j :: 0 <= i < j < |rows| ==> Compare(rows[i].identity, rows[j].identity) <= 0
  }

  ghost predicate DistinctIdentities(rows: seq<NativeRow>) {
    forall i, j :: 0 <= i < j < |rows| ==> rows[i].identity != rows[j].identity
  }

  /** qsort with the tree's comparison */
  method QSort(tree: Tree, items: seq<NativeRow>) returns (sorted: seq<NativeRow>)
    requires Uniform(tree, items)
    ensures Uniform(tree, sorted) && Ascending(tree, sorted)
    ensures multiset(sorted) == multiset(items)
  {
    sorted := [];
    for n := 0 to |items|
      invariant Uniform(tree, sorted) && Ascending(tree, sorted)
      invariant multiset(sorted) == multiset(items[..n])
    {
      sorted := InsertRow(tree, sorted, items[n]);
      assert items[..n + 1] == items[..n] + [items[n]];
    }
    assert items[..|items|] == items;
  }

  method InsertRow(tree: Tree, sorted: seq<NativeRow>, row: NativeRow) returns (r: seq<NativeRow>)
    requires Uniform(tree, sorted) && Ascending(tree, sorted) && |row.identity| == IdentitySize(tree)
    ensures Uniform(tree, r) && Ascending(tree, r)
    ensures multiset(r) == multiset(sorted) + multiset{row}
  {
    hide Compare, Ascending;
    var i := 0;
    while i < |sorted| && Compare(sorted[i].identity, row.identity) <= 0
      invariant i <= |sorted|
      invariant forall j :: 0 <= j < i ==> Compare(sorted[j].identity, row.identity) <= 0
    {
      i := i + 1;
    }
    r := sorted[..i] + [row] + sorted[i..];
    assert sorted == sorted[..i] + sorted[i..];
    InsertedInOrder(tree, sorted, row, i);
  }

  lemma InsertedInOrder(tree: Tree, sorted: seq<NativeRow>, row: NativeRow, i: nat)
    requires Uniform(tree, sorted) && Ascending(tree, sorted) && |row.identity| == IdentitySize(tree)
    requires i <= |sorted|
    requires forall j :: 0 <= j < i ==> Compare(sorted[j].identity, row.identity) <= 0
    requires i < |sorted| ==> Compare(sorted[i].identity, row.identity) > 0
    ensures Uniform(tree, sorted[..i] + [row] + sorted[i..])
    ensures Ascending(tree, sorted[..i] + [row] + sorted[i..])
  {
    hide Compare;
    var r := sorted[..i] + [row] + sorted[i..];
    forall j | i <= j < |sorted| ensures Compare(row.identity, sorted[j].identity) <= 0 {
      CompareIsTotal(row.identity, sorted[i].identity);
      if j > i {
        CompareIsTransitive(row.identity, sorted[i].identity, sorted[j].identity);
      }
    }
    forall x, y | 0 <= x < y < |r| ensures Compare(r[x].identity, r[y].identity) <= 0 {
      var u := if x < i then x else x - 1;
      var v := if y < i then y else y - 1;
      assert x != i ==> r[x] == sorted[u];
      assert y != i ==> r[y] == sorted[v];
    }
  }

  /** In a sorted batch, unequal neighbours make all identities distinct. */
  lemma NeighboursSuffice(tree: Tree, rows: seq<NativeRow>)
    requires Uniform(tree, rows) && Ascending(tree, rows)
    requires forall i :: 0 < i < |rows| ==> Compare(rows[i - 1].identity, rows[i].identity) != 0
    ensures DistinctIdentities(rows)
  {
    forall i, j | 0 <= i < j < |rows| ensures rows[i].identity != rows[j].identity {
      var a, b, c := rows[i].identity, rows[i + 1].identity, rows[j].identity;
      assert Compare(rows[i + 1 - 1].identity, rows[i + 1].identity) != 0;
      CompareIsTotal(a, b);
      CompareIsTotal(b, c);
      assert i + 1 < j ==> Compare(b, c) <= 0;
    }
  }

  // ---- Shards ----

  function ShardOf(tree: Tree, first: Bytes): Bytes {
    if tree == Coverage then CoverageShardBytes(first) else Before(first, DOT as nat, 3)
  }

  method ShardMatches(tree: Tree, first: Bytes, shard: Bytes) returns (matches: bool)
    ensures matches <==> shard == ShardOf(tree, first)
  {
    if tree == Coverage {
      matches := CoverageShardMatches(first, shard);
    } else {
      matches := GraphShardMatches(first, shard);
    }
  }

  ghost predicate InShard(tree: Tree, rows: seq<NativeRow>, shard: Bytes) {
    forall i :: 0 <= i < |rows| ==> rows[i].identity != [] && ShardOf(tree, rows[i].identity[0]) == shard
  }

  // ---- What a stored map looks like to the importer ----

  function NativeEntry(key: Key, row: Row): NativeRow {
    NativeRow(EncodeKey(key), row)
  }

  /** The row carries each component of the key as UTF-8, in its place, and the fields. */
  ghost predicate IsNativeOf(native: NativeRow, key: Key, row: Row) {
    && |native.identity| == |key| && native.fields == row
    && forall i :: 0 <= i < |key| ==> native.identity[i] == Encode(key[i])
  }

  /** Every row of the map is fed, and nothing else. */
  ghost predicate FeedsExactly(fed: seq<NativeRow>, rows: Rows) {
    && (forall key :: key in rows ==> exists r :: r in fed && IsNativeOf(r, key, rows[key]))
    && (forall r :: r in fed ==> exists key :: key in rows && IsNativeOf(r, key, rows[key]))
  }

  lemma EntryIsNative(key: Key, row: Row)
    ensures IsNativeOf(NativeEntry(key, row), key, row)
  {
    hide Encode;
  }

  /** The importer refuses a row exactly when a component is missing or too many, when a text holds a NUL, or when
  a line does not fit; of every other row it takes each component and the fields. */
  lemma RowIsRefusedExactly(tree: Tree, key: Key, row: Row)
    ensures ParseRow(tree, key, row).None? <==>
      || |key| != (if tree.Nodes? then 1 else if tree.Edges? then 4 else 2)
      || (exists i :: 0 <= i < |key| && HasNul(key[i])) || FieldsAreRefused(tree, row)
    ensures ParseRow(tree, key, row).Some? ==> IsNativeOf(ParseRow(tree, key, row).value, key, row)
  {
    hide Encode;
  }

  ghost predicate FieldsAreRefused(tree: Tree, row: Row) {
    || (tree.Nodes? && (!row.NodeRow? || HasNul(row.nodeLabel) || HasNul(row.name) || HasNul(row.filePath)
         || row.startLine < -2147483648 || row.startLine > 2147483647
         || row.endLine < -2147483648 || row.endLine > 2147483647))
    || (tree.Edges? && !row.EdgeRow?)
    || (tree.Coverage? && (!row.CoverageRow? || HasNul(row.detail)))
  }

  /** A reference is refused exactly for a number of more than 64 bits or a hash that is no digest. */
  lemma ReferenceIsRefusedExactly(ref: TreeRef)
    ensures !ValidReference(ref) <==>
      || ref.offset >= 18446744073709551616 || ref.count >= 18446744073709551616
      || |ref.logicalHash| != 64
      || exists i :: 0 <= i < |ref.logicalHash| && ref.logicalHash[i] !in "0123456789abcdef"
  {
    DigestIsRefusedExactly(ref.logicalHash);
    hide IsHexDigest;
  }

  lemma NativeIsUnique(a: NativeRow, b: NativeRow, key: Key, row: Row)
    requires IsNativeOf(a, key, row) && IsNativeOf(b, key, row)
    ensures a == b
  {
    hide Encode;
  }

  /** The same, by the entry of each row. */
  lemma FeedsEntries(fed: seq<NativeRow>, rows: Rows)
    ensures FeedsExactly(fed, rows) <==>
      && (forall key :: key in rows ==> NativeEntry(key, rows[key]) in fed)
      && (forall r :: r in fed ==> exists key :: key in rows && r == NativeEntry(key, rows[key]))
  {
    hide NativeEntry, IsNativeOf;
    forall key | key in rows ensures IsNativeOf(NativeEntry(key, rows[key]), key, rows[key]) {
      EntryIsNative(key, rows[key]);
    }
    forall r, key | key in rows && IsNativeOf(r, key, rows[key]) ensures r == NativeEntry(key, rows[key]) {
      NativeIsUnique(r, NativeEntry(key, rows[key]), key, rows[key]);
    }
  }

  lemma ValidRowParses(tree: Tree, key: Key, row: Row)
    requires ValidRow(tree, key, row)
    ensures ParseRow(tree, key, row) == Some(NativeEntry(key, row))
    ensures ShardOf(tree, NativeEntry(key, row).identity[0]) == Encode(Shard(tree, key))
    ensures Exact(Shard(tree, key))
  {
    hide Encode;
    ShardBytes(tree, key);
    ShardIsExact(tree, key);
  }

  lemma ShardBytes(tree: Tree, key: Key)
    requires key != []
    ensures ShardOf(tree, Encode(key[0])) == Encode(Shard(tree, key))
  {
    if tree == Coverage {
      CoverageShardAgrees(key, Shard(tree, key));
    } else {
      GraphShardAgrees(tree, key, Shard(tree, key));
    }
  }

  lemma ShardIsExact(tree: Tree, key: Key)
    requires key != [] && Exact(key[0])
    ensures Exact(Shard(tree, key))
  {
    if tree == Coverage {
      SplitHead(key[0], SLASH);
    } else {
      JoinTakeSplit(key[0], DOT, 3);
    }
  }

  lemma EncodeKeyInjective(a: Key, b: Key)
    requires EncodeKey(a) == EncodeKey(b)
    ensures a == b
  {
    assert |EncodeKey(a)| == |a| && |EncodeKey(b)| == |b|;
    forall i | 0 <= i < |a| ensures a[i] == b[i] {
      assert EncodeKey(a)[i] == EncodeKey(b)[i];
      EncodeInjective(a[i], b[i]);
    }
  }

  // ---- Which trees are accepted, and what they feed ----

  /** digest_valid and the range checks of root_from_json */
  predicate ValidReference(ref: TreeRef) {
    ref.offset < UINT64_LIMIT && ref.count < UINT64_LIMIT && IsHexDigest(ref.logicalHash)
  }

  predicate PageMatches(page: Page, ref: TreeRef, tree: Tree, depth: nat) {
    page.tree == tree && page.logicalHash == ref.logicalHash && page.count == ref.count &&
    page.count < UINT64_LIMIT && page.depth == depth
  }

  ghost predicate EntryAcceptable(tree: Tree, entry: (Key, Row), shard: Bytes) {
    var row := ParseRow(tree, entry.0, entry.1);
    row.Some? && ShardOf(tree, row.value.identity[0]) == shard
  }

  /** Every entry is a row of this shard and no identity occurs twice. */
  ghost predicate LeafAcceptable(tree: Tree, entries: seq<(Key, Row)>, count: nat, shard: Bytes) {
    && |entries| == count
    && (forall i :: 0 <= i < |entries| ==> EntryAcceptable(tree, entries[i], shard))
    && (forall i, j :: 0 <= i < j < |entries| ==> entries[i].0 != entries[j].0)
  }

  ghost predicate LeafPageAcceptable(pages: Pages, tree: Tree, ref: TreeRef, shard: Bytes) {
    && ref.offset in pages && pages[ref.offset].Leaf?
    && PageMatches(pages[ref.offset], ref, tree, 1)
    && LeafAcceptable(tree, pages[ref.offset].entries, ref.count, shard)
  }

  ghost predicate ChildAcceptable(pages: Pages, tree: Tree, child: (string, TreeRef)) {
    && Exact(child.0) && ValidReference(child.1)
    && LeafPageAcceptable(pages, tree, child.1, Encode(child.0))
  }

  function CountSum(children: seq<(string, TreeRef)>): nat {
    if children == [] then 0 else CountSum(children[..|children| - 1]) + children[|children| - 1].1.count
  }

  ghost predicate RootAcceptable(pages: Pages, tree: Tree, ref: TreeRef) {
    && ref.offset in pages && pages[ref.offset].Branch?
    && PageMatches(pages[ref.offset], ref, tree, 0)
    && BranchAcceptable(pages, tree, pages[ref.offset].children, ref.count)
  }

  ghost predicate BranchAcceptable(pages: Pages, tree: Tree, children: seq<(string, TreeRef)>, count: nat) {
    && CountSum(children) == count
    && (forall i :: 0 <= i < |children| ==> ChildAcceptable(pages, tree, children[i]))
    && Ordered(children)
  }

  ghost function LeafRows(tree: Tree, entries: seq<(Key, Row)>): (rows: seq<NativeRow>)
    ensures |rows| == |entries|
  {
    seq(|entries|, i requires 0 <= i < |entries| => NativeEntry(entries[i].0, entries[i].1))
  }

  /** The rows of the leaves, in slot order. */
  ghost function ChildRows(pages: Pages, tree: Tree, children: seq<(string, TreeRef)>): seq<NativeRow> {
    if children == [] then []
    else
      var last := children[|children| - 1].1.offset;
      ChildRows(pages, tree, children[..|children| - 1]) +
      if last in pages && pages[last].Leaf? then LeafRows(tree, pages[last].entries) else []
  }

  // ---- No identity is fed twice ----

  lemma LeafRowsAreDistinct(tree: Tree, entries: seq<(Key, Row)>, count: nat, shard: Bytes)
    requires LeafAcceptable(tree, entries, count, shard)
    ensures DistinctIdentities(LeafRows(tree, entries)) && InShard(tree, LeafRows(tree, entries), shard)
  {
    var rows := LeafRows(tree, entries);
    forall i, j | 0 <= i < j < |rows| ensures rows[i].identity != rows[j].identity {
      if rows[i].identity == rows[j].identity {
        EncodeKeyInjective(entries[i].0, entries[j].0);
      }
    }
    forall i | 0 <= i < |rows| ensures rows[i].identity != [] && ShardOf(tree, rows[i].identity[0]) == shard {
      assert EntryAcceptable(tree, entries[i], shard);
    }
  }

  ghost predicate Ordered(children: seq<(string, TreeRef)>) {
    forall i :: 0 < i < |children| ==> Less(Encode(children[i - 1].0), Encode(children[i].0))
  }

  lemma {:induction false} LaterSlotIsGreater(children: seq<(string, TreeRef)>, i: nat, j: nat)
    requires Ordered(children) && i < j < |children|
    ensures Less(Encode(children[i].0), Encode(children[j].0))
    decreases j - i
  {
    assert Less(Encode(children[j - 1].0), Encode(children[j].0));
    if i < j - 1 {
      LaterSlotIsGreater(children, i, j - 1);
      LessIsTransitive(Encode(children[i].0), Encode(children[j - 1].0), Encode(children[j].0));
    }
  }

  ghost predicate InSomeSlot(tree: Tree, row: NativeRow, children: seq<(string, TreeRef)>) {
    row.identity != [] &&
    exists i :: 0 <= i < |children| && ShardOf(tree, row.identity[0]) == Encode(children[i].0)
  }

  ghost predicate AllInSlots(tree: Tree, rows: seq<NativeRow>, children: seq<(string, TreeRef)>) {
    forall i :: 0 <= i < |rows| ==> InSomeSlot(tree, rows[i], children)
  }

  /** Strict slot order, shard membership and in-leaf uniqueness together make every identity of an
  accepted tree unique, as the importer is told in advance. */
  lemma {:induction false} ChildRowsAreDistinct(pages: Pages, tree: Tree, children: seq<(string, TreeRef)>)
    requires forall i :: 0 <= i < |children| ==> ChildAcceptable(pages, tree, children[i])
    requires Ordered(children)
    ensures DistinctIdentities(ChildRows(pages, tree, children))
    ensures |ChildRows(pages, tree, children)| == CountSum(children)
    ensures AllInSlots(tree, ChildRows(pages, tree, children), children)
  {
    if children != [] {
      hide Encode, Less, ShardOf;
      var n := |children| - 1;
      var init, last := children[..n], children[n];
      ChildRowsAreDistinct(pages, tree, init);
      assert ChildAcceptable(pages, tree, last);
      var entries := pages[last.1.offset].entries;
      LeafRowsAreDistinct(tree, entries, last.1.count, Encode(last.0));
      JoinLeaf(tree, children, ChildRows(pages, tree, init), LeafRows(tree, entries));
    }
  }

  lemma JoinLeaf(tree: Tree, children: seq<(string, TreeRef)>, before: seq<NativeRow>, rows: seq<NativeRow>)
    requires children != [] && Ordered(children)
    requires DistinctIdentities(before) && DistinctIdentities(rows)
    requires AllInSlots(tree, before, children[..|children| - 1])
    requires InShard(tree, rows, Encode(children[|children| - 1].0))
    ensures DistinctIdentities(before + rows) && AllInSlots(tree, before + rows, children)
  {
    hide Encode, Less, ShardOf;
    var n := |children| - 1;
    var init, last := children[..n], children[n];
    forall x | 0 <= x < |before|
      ensures InSomeSlot(tree, before[x], children)
      ensures ShardOf(tree, before[x].identity[0]) != Encode(last.0)
    {
      assert InSomeSlot(tree, before[x], init);
      var i :| 0 <= i < n && ShardOf(tree, before[x].identity[0]) == Encode(init[i].0);
      assert children[i] == init[i];
      LaterSlotIsGreater(children, i, n);
      LessIsTotal(Encode(last.0), Encode(last.0));
    }
    forall y | 0 <= y < |rows| ensures InSomeSlot(tree, rows[y], children) {
      assert ShardOf(tree, rows[y].identity[0]) == Encode(children[n].0);
    }
    DistinctConcat(before, rows);
  }

  lemma DistinctConcat(a: seq<NativeRow>, b: seq<NativeRow>)
    requires DistinctIdentities(a) && DistinctIdentities(b)
    requires forall x, y :: 0 <= x < |a| && 0 <= y < |b| ==> a[x].identity != b[y].identity
    ensures DistinctIdentities(a + b)
  {
  }

  // ---- Every tree that the writer stores is accepted ----

  ghost predicate SmallPages(pages: Pages) {
    forall offset :: offset in pages ==> offset < UINT64_LIMIT
  }

  lemma EntryIsRow(codec: Codec, rows: Rows, i: nat)
    requires codec.Sound() && i < |rows|
    ensures var (key, row) := LeafEntries(codec, rows)[i]; key in rows && rows[key] == row
  {
    var keys := Sorted(rows.Keys, codec.keyBytes);
    assert keys[i] in keys;
  }

  lemma RowIsEntry(codec: Codec, rows: Rows, key: Key)
    requires codec.Sound() && key in rows
    ensures (key, rows[key]) in LeafEntries(codec, rows)
  {
    var keys := Sorted(rows.Keys, codec.keyBytes);
    assert key in keys;
    var i :| 0 <= i < |keys| && keys[i] == key;
    assert LeafEntries(codec, rows)[i] == (key, rows[key]);
  }

  lemma StoredLeafIsAcceptable(codec: Codec, tree: Tree, rows: Rows, slot: string)
    requires codec.Sound() && ValidRowsOf(tree, rows)
    requires forall key :: key in rows ==> Shard(tree, key) == slot
    ensures LeafAcceptable(tree, LeafEntries(codec, rows), |rows|, Encode(slot))
    ensures FeedsExactly(LeafRows(tree, LeafEntries(codec, rows)), rows)
  {
    hide Encode, ParseRow, ShardOf, Shard, ValidRow, LeafEntries, FeedsExactly, NativeEntry;
    FeedsEntries(LeafRows(tree, LeafEntries(codec, rows)), rows);
    var entries := LeafEntries(codec, rows);
    var fed := LeafRows(tree, entries);
    forall i | 0 <= i < |entries|
      ensures EntryAcceptable(tree, entries[i], Encode(slot))
      ensures entries[i].0 in rows && rows[entries[i].0] == entries[i].1
    {
      EntryIsRow(codec, rows, i);
      ValidRowParses(tree, entries[i].0, entries[i].1);
    }
    EntriesDiffer(codec, rows);
    forall key | key in rows ensures NativeEntry(key, rows[key]) in fed {
      RowIsEntry(codec, rows, key);
      var i :| 0 <= i < |entries| && entries[i] == (key, rows[key]);
      assert fed[i] == NativeEntry(key, rows[key]);
    }
  }

  lemma EntriesDiffer(codec: Codec, rows: Rows)
    requires codec.Sound()
    ensures var entries := LeafEntries(codec, rows);
      forall i, j :: 0 <= i < j < |entries| ==> entries[i].0 != entries[j].0
  {
    SortedHasNoDuplicates(rows.Keys, codec.keyBytes);
  }

  lemma SlotsAscend(tree: Tree, rows: Rows, i: nat)
    requires 0 < i < |Slots(tree, rows)|
    ensures Less(Encode(Slots(tree, rows)[i - 1]), Encode(Slots(tree, rows)[i]))
  {
    var slots := Slots(tree, rows);
    CodePointsInjective();
    assert Less(CodePoints(slots[i - 1]), CodePoints(slots[i]));
    EncodeOrder(slots[i - 1], slots[i]);
  }

  lemma SlotIsExact(tree: Tree, rows: Rows, slot: string)
    requires slot in SlotSet(tree, rows) && ValidRowsOf(tree, rows)
    ensures Exact(slot)
  {
    var key :| key in rows && Shard(tree, key) == slot;
    assert ValidRow(tree, key, rows[key]);
    ValidRowParses(tree, key, rows[key]);
  }

  /** A tree of validated rows, small enough for 64-bit offsets and counts. */
  ghost predicate Stored(codec: Codec, pages: Pages, tree: Tree, ref: TreeRef, rows: Rows) {
    && codec.Sound() && Represents(codec, pages, tree, Some(ref), rows)
    && ValidRowsOf(tree, rows) && SmallPages(pages) && |rows| < UINT64_LIMIT
  }

  lemma StoredChildIsAcceptable(codec: Codec, pages: Pages, tree: Tree, ref: TreeRef, rows: Rows, i: nat)
    requires Stored(codec, pages, tree, ref, rows)
    requires i < |pages[ref.offset].children|
    ensures ChildAcceptable(pages, tree, pages[ref.offset].children[i])
    ensures FeedsSlice(pages, tree, pages[ref.offset].children[i], rows)
  {
    hide Encode, LeafEntries, LeafAcceptable, FeedsExactly, Shard, ValidRow, IsHexDigest;
    var child := pages[ref.offset].children[i];
    var slot := Slots(tree, rows)[i];
    var slice := Slice(tree, rows, slot);
    assert child.0 == slot && IsLeaf(codec, pages, tree, child.1, slice);
    SlotIsExact(tree, rows, slot);
    StoredLeafIsAcceptable(codec, tree, slice, slot);
    SliceIsSmaller(tree, rows, slot);
  }

  lemma SliceIsSmaller(tree: Tree, rows: Rows, slot: string)
    ensures |Slice(tree, rows, slot)| <= |rows|
  {
    SubsetSize(Slice(tree, rows, slot).Keys, rows.Keys);
    assert |Slice(tree, rows, slot).Keys| == |Slice(tree, rows, slot)|;
  }

  lemma RootShape(codec: Codec, pages: Pages, tree: Tree, ref: TreeRef, rows: Rows)
    requires Stored(codec, pages, tree, ref, rows)
    ensures ref.offset in pages && pages[ref.offset].Branch? && ref.count == |rows|
    ensures PageMatches(pages[ref.offset], ref, tree, 0)
    ensures NamesSlots(pages[ref.offset].children, Slots(tree, rows))
  {
  }

  /** A child whose leaf feeds exactly the slice of `rows` that its slot names. */
  ghost predicate FeedsSlice(pages: Pages, tree: Tree, child: (string, TreeRef), rows: Rows) {
    && child.1.count == |Slice(tree, rows, child.0)|
    && child.1.offset in pages && pages[child.1.offset].Leaf?
    && FeedsExactly(LeafRows(tree, pages[child.1.offset].entries), Slice(tree, rows, child.0))
  }

  ghost predicate NamesSlots(children: seq<(string, TreeRef)>, slots: seq<string>) {
    |children| == |slots| && forall i :: 0 <= i < |slots| ==> children[i].0 == slots[i]
  }

  lemma {:induction false} ChildrenFeedCovered(pages: Pages, tree: Tree, children: seq<(string, TreeRef)>,
                                               slots: seq<string>, rows: Rows)
    requires NamesSlots(children, slots)
    requires forall i :: 0 <= i < |children| ==> FeedsSlice(pages, tree, children[i], rows)
    ensures CountSum(children) == SliceSizes(tree, rows, slots)
    ensures FeedsExactly(ChildRows(pages, tree, children), Covered(tree, rows, slots))
  {
    hide LeafRows, Covered, Slice, FeedsExactly;
    if children == [] {
      CoveredByNothing(tree, rows);
    } else {
      var n := |children| - 1;
      ChildrenFeedCovered(pages, tree, children[..n], slots[..n], rows);
      assert FeedsSlice(pages, tree, children[n], rows);
      CoveredSplits(tree, rows, slots);
      FeedsBoth(ChildRows(pages, tree, children[..n]), Covered(tree, rows, slots[..n]),
                LeafRows(tree, pages[children[n].1.offset].entries), Slice(tree, rows, slots[n]),
                Covered(tree, rows, slots));
    }
  }

  lemma CoveredByNothing(tree: Tree, rows: Rows)
    ensures FeedsExactly([], Covered(tree, rows, []))
  {
  }

  lemma CoveredBySlots(tree: Tree, rows: Rows)
    ensures Covered(tree, rows, Slots(tree, rows)) == rows
  {
  }

  lemma CoveredSplits(tree: Tree, rows: Rows, slots: seq<string>)
    requires slots != []
    ensures var n := |slots| - 1;
      var left, right, both := Covered(tree, rows, slots[..n]), Slice(tree, rows, slots[n]), Covered(tree, rows, slots);
      && (forall key :: key in both <==> key in left || key in right)
      && (forall key :: key in left ==> both[key] == left[key])
      && (forall key :: key in right ==> both[key] == right[key])
  {
    assert slots == slots[..|slots| - 1] + [slots[|slots| - 1]];
  }

  lemma FeedsBoth(a: seq<NativeRow>, left: Rows, b: seq<NativeRow>, right: Rows, both: Rows)
    requires FeedsExactly(a, left) && FeedsExactly(b, right)
    requires forall key :: key in both <==> key in left || key in right
    requires forall key :: key in left ==> key in both && both[key] == left[key]
    requires forall key :: key in right ==> key in both && both[key] == right[key]
    ensures FeedsExactly(a + b, both)
  {
    hide FeedsExactly, NativeEntry;
    FeedsEntries(a, left);
    FeedsEntries(b, right);
    FeedsEntries(a + b, both);
    forall r | r in a + b ensures exists key :: key in both && r == NativeEntry(key, both[key]) {
      if r in a {
        var key :| key in left && r == NativeEntry(key, left[key]);
        assert key in both;
      } else {
        var key :| key in right && r == NativeEntry(key, right[key]);
        assert key in both;
      }
    }
  }

  lemma ShapeIsAcceptable(pages: Pages, tree: Tree, ref: TreeRef, rows: Rows, children: seq<(string, TreeRef)>)
    requires ref.offset in pages && pages[ref.offset].Branch? && pages[ref.offset].children == children
    requires PageMatches(pages[ref.offset], ref, tree, 0) && ref.count == |rows|
    requires NamesSlots(children, Slots(tree, rows))
    requires forall i :: 0 <= i < |children| ==>
      ChildAcceptable(pages, tree, children[i]) && FeedsSlice(pages, tree, children[i], rows)
    ensures RootAcceptable(pages, tree, ref)
    ensures FeedsExactly(ChildRows(pages, tree, children), rows)
  {
    hide Encode, Less, ChildAcceptable, FeedsSlice, FeedsExactly, ChildRows, Slots, Covered, PageMatches;
    forall i | 0 < i < |children| ensures Less(Encode(children[i - 1].0), Encode(children[i].0)) {
      SlotsAscend(tree, rows, i);
    }
    ChildrenFeedCovered(pages, tree, children, Slots(tree, rows), rows);
    SlotsCountAll(tree, rows);
    CoveredBySlots(tree, rows);
  }

  /** The reader accepts every tree of validated rows that RadixTree stores, and feeds its map. */
  lemma StoredTreeIsAcceptable(codec: Codec, pages: Pages, tree: Tree, ref: TreeRef, rows: Rows)
    requires Stored(codec, pages, tree, ref, rows)
    ensures RootAcceptable(pages, tree, ref)
    ensures FeedsExactly(ChildRows(pages, tree, pages[ref.offset].children), rows)
  {
    RootShape(codec, pages, tree, ref, rows);
    var children := pages[ref.offset].children;
    forall i | 0 <= i < |children|
      ensures ChildAcceptable(pages, tree, children[i]) && FeedsSlice(pages, tree, children[i], rows)
    {
      StoredChildIsAcceptable(codec, pages, tree, ref, rows, i);
    }
    hide *;
    ShapeIsAcceptable(pages, tree, ref, rows, children);
  }

  // ---- The import ----

  lemma DistinctPermutation(a: seq<NativeRow>, b: seq<NativeRow>)
    requires multiset(a) == multiset(b) && DistinctIdentities(a)
    ensures DistinctIdentities(b)
  {
    forall i, j | 0 <= i < j < |b| ensures b[i].identity != b[j].identity {
      assert b[i] in multiset(b) && b[j] in multiset(b);
      assert b[i] in a && b[j] in a;
      if b[i] == b[j] {
        assert b == b[..i] + [b[i]] + b[i + 1..j] + [b[j]] + b[j + 1..];
        assert multiset(b)[b[i]] >= 2;
        AtMostOnce(a, b[i]);
      }
    }
  }

  lemma {:induction false} AtMostOnce(a: seq<NativeRow>, row: NativeRow)
    requires DistinctIdentities(a)
    ensures multiset(a)[row] <= 1
  {
    if a != [] {
      var init := a[..|a| - 1];
      assert a == init + [a[|a| - 1]];
      AtMostOnce(init, row);
      assert row == a[|a| - 1] ==> row !in init;
    }
  }

  lemma {:induction false} PrefixCount(children: seq<(string, TreeRef)>, n: nat)
    requires n <= |children|
    ensures CountSum(children[..n]) <= CountSum(children)
    decreases |children|
  {
    if n == |children| {
      assert children[..n] == children;
    } else {
      var init := children[..|children| - 1];
      assert init[..n] == children[..n];
      PrefixCount(init, n);
    }
  }

  class ImportContext {
    /** The pages readable within the captured size; a frame that fails its checks is absent. */
    const pages: Pages
    /** Whether the graph importer takes a batch. */
    const accepts: seq<NativeRow> -> bool
    var fed: seq<NativeRow>

    constructor (pages: Pages, accepts: seq<NativeRow> -> bool)
      ensures this.pages == pages && this.accepts == accepts && fed == []
    {
      this.pages := pages;
      this.accepts := accepts;
      fed := [];
    }

    ghost predicate AcceptsAll() {
      forall batch :: accepts(batch)
    }

    /** The entry loop of the import_*_leaf functions: parse every row and check its shard. */
    method ParseLeaf(tree: Tree, entries: seq<(Key, Row)>, shard: Bytes) returns (items: Option<seq<NativeRow>>)
      ensures items.Some? <==> forall i :: 0 <= i < |entries| ==> EntryAcceptable(tree, entries[i], shard)
      ensures items.Some? ==> items.value == LeafRows(tree, entries)
    {
      hide ShardOf, Encode;
      var rows := [];
      for index := 0 to |entries|
        invariant forall i :: 0 <= i < index ==> EntryAcceptable(tree, entries[i], shard)
        invariant |rows| == index && forall i :: 0 <= i < index ==> rows[i] == NativeEntry(entries[i].0, entries[i].1)
      {
        var row := ParseRow(tree, entries[index].0, entries[index].1);
        if row.None? {
          assert !EntryAcceptable(tree, entries[index], shard);
          return None;
        }
        var matches := ShardMatches(tree, row.value.identity[0], shard);
        if !matches {
          assert !EntryAcceptable(tree, entries[index], shard);
          return None;
        }
        rows := rows + [row.value];
      }
      items := Some(rows);
    }

    /** The three import_*_leaf functions, which differ in the fields they parse and compare. */
    method ImportLeaf(tree: Tree, entries: seq<(Key, Row)>, count: nat, shard: Bytes)
      returns (ok: bool, ghost batch: seq<NativeRow>)
      modifies this
      ensures !ok ==> fed == old(fed)
      ensures ok ==> fed == old(fed) + batch && multiset(batch) == multiset(LeafRows(tree, entries))
      ensures ok ==> LeafAcceptable(tree, entries, count, shard)
      ensures LeafAcceptable(tree, entries, count, shard) && AcceptsAll() ==> ok
    {
      hide ShardOf, EncodeKey, Compare, EntryAcceptable;
      batch := [];
      if |entries| != count {
        return false, batch;
      }
      var parsed := ParseLeaf(tree, entries, shard);
      if parsed.None? {
        return false, batch;
      }
      var items := parsed.value;
      RowsAreUniform(tree, entries, shard);
      var sorted := QSort(tree, items);
      var unique := HasNoDuplicates(tree, sorted);
      LeafKeysDiffer(tree, entries, items, sorted);
      if !unique {
        return false, batch;
      }
      if !accepts(sorted) {
        return false, batch;
      }
      fed := fed + sorted;
      ok, batch := true, sorted;
    }

    /** The loop that compares neighbours of the sorted batch. */
    method HasNoDuplicates(tree: Tree, sorted: seq<NativeRow>) returns (unique: bool)
      requires Uniform(tree, sorted) && Ascending(tree, sorted)
      ensures unique <==> DistinctIdentities(sorted)
    {
      hide Compare, Ascending;
      var item := 1;
      while item < |sorted|
        invariant 1 <= item
        invariant forall i :: 0 < i < item && i < |sorted| ==>
          Compare(sorted[i - 1].identity, sorted[i].identity) != 0
      {
        if Compare(sorted[item - 1].identity, sorted[item].identity) == 0 {
          CompareIsTotal(sorted[item - 1].identity, sorted[item].identity);
          return false;
        }
        item := item + 1;
      }
      NeighboursSuffice(tree, sorted);
      unique := true;
    }

    method ImportTree(reference: TreeRef, tree: Tree, shard: Option<Bytes>, depth: nat)
      returns (ok: bool, ghost batch: seq<NativeRow>)
      modifies this
      ensures ok ==> fed == old(fed) + batch && depth <= 1
      ensures ok && depth == 1 ==>
        && shard.Some? && LeafPageAcceptable(pages, tree, reference, shard.value)
        && multiset(batch) == multiset(LeafRows(tree, pages[reference.offset].entries))
      ensures depth == 1 && shard.Some? && LeafPageAcceptable(pages, tree, reference, shard.value) && AcceptsAll()
        ==> ok
      ensures ok && depth == 0 ==>
        && shard.None? && RootAcceptable(pages, tree, reference)
        && multiset(batch) == multiset(ChildRows(pages, tree, pages[reference.offset].children))
      ensures depth == 0 && shard.None? && RootAcceptable(pages, tree, reference) && AcceptsAll() ==> ok
      decreases MAX_TREE_DEPTH - depth, 1
    {
      hide LeafAcceptable, LeafRows, ChildRows, ChildAcceptable, Encode, Less;
      ok, batch := false, [];
      if depth >= MAX_TREE_DEPTH || reference.offset !in pages {
        return;
      }
      var page := pages[reference.offset];
      if !PageMatches(page, reference, tree, depth) {
        return;
      }
      match page
      case Leaf(_, _, entries, _, count) =>
        if depth != 1 || shard.None? {
          return;
        }
        ok, batch := ImportLeaf(tree, entries, count, shard.value);
      case Branch(_, _, children, _, count) =>
        if depth != 0 || shard.Some? {
          return;
        }
        ok, batch := ImportChildren(children, tree, count, depth);
    }

    /** The loop over a branch's children: strictly increasing slots whose counts add up. */
    method ImportChildren(children: seq<(string, TreeRef)>, tree: Tree, count: nat, depth: nat)
      returns (ok: bool, ghost batch: seq<NativeRow>)
      requires depth == 0 && count < UINT64_LIMIT
      modifies this
      ensures ok ==> fed == old(fed) + batch && multiset(batch) == multiset(ChildRows(pages, tree, children))
      ensures ok ==> BranchAcceptable(pages, tree, children, count)
      ensures BranchAcceptable(pages, tree, children, count) && AcceptsAll() ==> ok
      decreases MAX_TREE_DEPTH - depth, 0
    {
      CountOfNone();
      hide LeafAcceptable, LeafRows, Encode, Less, CountSum, ChildRows, IsHexDigest;
      ok, batch := false, [];
      var total := 0;
      var previous: Option<Bytes> := None;
      for index := 0 to |children|
        invariant fed == old(fed) + batch
        invariant total == CountSum(children[..index])
        invariant previous == if index == 0 then None else Some(Encode(children[index - 1].0))
        invariant forall i :: 0 <= i < index ==> ChildAcceptable(pages, tree, children[i])
        invariant forall i :: 0 < i < index ==> Less(Encode(children[i - 1].0), Encode(children[i].0))
        invariant multiset(batch) == multiset(ChildRows(pages, tree, children[..index]))
      {
        ChildStep(pages, tree, children, index);
        var (name, child) := children[index];
        var slot := JsonString(name);
        if slot.None? || (previous.Some? && Strcmp(previous.value, slot.value) >= 0) || !ValidReference(child) ||
           UINT64_LIMIT - 1 - total < child.count {
          BadChild(pages, tree, children, count, index);
          return false, batch;
        }
        if previous.Some? {
          LessIsTotal(previous.value, slot.value);
        }
        previous := slot;
        total := total + child.count;
        var imported;
        ghost var rows;
        imported, rows := ImportTree(child, tree, slot, depth + 1);
        if !imported {
          return false, batch;
        }
        batch := batch + rows;
      }
      assert children[..|children|] == children;
      ok := total == count;
    }

    /** What `prevalidated_unique_identities` promises the importer about a whole tree. */
    method ImportRoot(reference: TreeRef, tree: Tree) returns (ok: bool, ghost batch: seq<NativeRow>)
      modifies this
      ensures ok ==> fed == old(fed) + batch && |batch| == reference.count && DistinctIdentities(batch)
      ensures ok ==> RootAcceptable(pages, tree, reference)
      ensures ok ==> multiset(batch) == multiset(ChildRows(pages, tree, pages[reference.offset].children))
      ensures RootAcceptable(pages, tree, reference) && AcceptsAll() ==> ok
    {
      ok, batch := ImportTree(reference, tree, None, 0);
      if ok {
        var children := pages[reference.offset].children;
        ChildRowsAreDistinct(pages, tree, children);
        DistinctPermutation(ChildRows(pages, tree, children), batch);
        assert |multiset(batch)| == |multiset(ChildRows(pages, tree, children))|;
      }
    }
  }

  lemma CountOfNone()
    ensures CountSum([]) == 0
    ensures forall pages, tree :: ChildRows(pages, tree, []) == []
  {
  }

  lemma ChildStep(pages: Pages, tree: Tree, children: seq<(string, TreeRef)>, i: nat)
    requires i < |children|
    ensures CountSum(children[..i + 1]) == CountSum(children[..i]) + children[i].1.count
    ensures var offset := children[i].1.offset;
      offset in pages && pages[offset].Leaf? ==>
        ChildRows(pages, tree, children[..i + 1])
          == ChildRows(pages, tree, children[..i]) + LeafRows(tree, pages[offset].entries)
  {
    assert children[..i + 1][..i] == children[..i];
  }

  lemma BadChild(pages: Pages, tree: Tree, children: seq<(string, TreeRef)>, count: nat, i: nat)
    requires i < |children| && count < UINT64_LIMIT
    requires
      var (name, child) := children[i];
      || !Exact(name) || (i > 0 && Strcmp(Encode(children[i - 1].0), Encode(name)) >= 0) || !ValidReference(child)
      || UINT64_LIMIT - 1 - CountSum(children[..i]) < child.count
    ensures !BranchAcceptable(pages, tree, children, count)
  {
    PrefixCount(children, i + 1);
    assert children[..i + 1][..i] == children[..i];
    if BranchAcceptable(pages, tree, children, count) {
      assert ChildAcceptable(pages, tree, children[i]);
      if i > 0 {
        LessIsTotal(Encode(children[i - 1].0), Encode(children[i].0));
      }
    }
  }

  lemma RowsAreUniform(tree: Tree, entries: seq<(Key, Row)>, shard: Bytes)
    requires forall i :: 0 <= i < |entries| ==> EntryAcceptable(tree, entries[i], shard)
    ensures Uniform(tree, LeafRows(tree, entries))
  {
    var rows := LeafRows(tree, entries);
    forall i | 0 <= i < |rows| ensures |rows[i].identity| == IdentitySize(tree) {
      assert EntryAcceptable(tree, entries[i], shard);
    }
  }

  lemma LeafKeysDiffer(tree: Tree, entries: seq<(Key, Row)>, items: seq<NativeRow>, sorted: seq<NativeRow>)
    requires items == LeafRows(tree, entries) && multiset(items) == multiset(sorted)
    ensures DistinctIdentities(sorted) <==> forall i, j :: 0 <= i < j < |entries| ==> entries[i].0 != entries[j].0
  {
    if DistinctIdentities(sorted) {
      DistinctPermutation(sorted, items);
      forall i, j | 0 <= i < j < |entries| ensures entries[i].0 != entries[j].0 {
        assert items[i].identity != items[j].identity;
      }
    }
    if forall i, j :: 0 <= i < j < |entries| ==> entries[i].0 != entries[j].0 {
      forall i, j | 0 <= i < j < |items| ensures items[i].identity != items[j].identity {
        if items[i].identity == items[j].identity {
          EncodeKeyInjective(entries[i].0, entries[j].0);
        }
      }
      DistinctPermutation(items, sorted);
    }
  }
}
