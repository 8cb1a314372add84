/** Batch updates of a sharded tree: every affected leaf and the root are written anew. */
module RadixTree {
  import opened Collections
  import opened Wrappers
  import opened Orders
  import opened Text
  import opened Model
  import opened Shards
  import opened Wire
  import opened Log
  import opened Trees
  import opened ArchiveWriter

  // ---- _record_map ----

  ghost predicate DistinctFirst<K, V>(records: seq<(K, V)>) {
    forall i, j :: 0 <= i < j < |records| ==> records[i].0 != records[j].0
  }

  /** The dictionary that a list of distinct records fills. */
  ghost predicate Lists<K, V(!new)>(records: seq<(K, V)>, m: map<K, V>) {
    && (forall i :: 0 <= i < |records| ==> records[i].0 in m && m[records[i].0] == records[i].1)
    && (forall key :: key in m ==> exists i :: 0 <= i < |records| && records[i].0 == key)
  }

  method RecordMap<K(==), V(!new)>(records: seq<(K, V)>) returns (r: Result<map<K, V>>)
    ensures r.Ok? <==> DistinctFirst(records)
    ensures r.Ok? ==> Lists(records, r.value)
  {
    var m: map<K, V> := map[];
    for i := 0 to |records|
      invariant DistinctFirst(records[..i]) && Lists(records[..i], m)
    {
      var (key, value) := records[i];
      if key in m {
        var j :| 0 <= j < i && records[..i][j].0 == key;
        assert records[j].0 == records[i].0;
        return Failure("duplicate identity");
      }
      m := m[key := value];
      ListsOneMore(records, i, m);
    }
    assert records[..|records|] == records;
    r := Ok(m);
  }

  lemma ListsOneMore<K, V(!new)>(records: seq<(K, V)>, i: nat, m: map<K, V>)
    requires i < |records| && records[i].0 in m && m[records[i].0] == records[i].1
    requires DistinctFirst(records[..i]) && Lists(records[..i], m - {records[i].0})
    requires forall j :: 0 <= j < i ==> records[j].0 != records[i].0
    ensures DistinctFirst(records[..i + 1]) && Lists(records[..i + 1], m)
  {
    var less, more := records[..i], records[..i + 1];
    assert forall j :: 0 <= j < i ==> more[j] == less[j] == records[j];
    forall key | key in m ensures exists j :: 0 <= j < |more| && more[j].0 == key {
      if key == records[i].0 {
        assert more[i].0 == key;
      } else {
        assert key in m - {records[i].0};
        var j :| 0 <= j < |less| && less[j].0 == key;
        assert more[j].0 == key;
      }
    }
  }

  lemma ListsIsFunctional<K, V(!new)>(records: seq<(K, V)>, a: map<K, V>, b: map<K, V>)
    requires Lists(records, a) && Lists(records, b)
    ensures a == b
  {
  }

  /** The entries of a stored leaf fill exactly the map that it stores. */
  lemma LeafListsRows(codec: Codec, rows: Rows)
    requires codec.Sound()
    ensures DistinctFirst(LeafEntries(codec, rows)) && Lists(LeafEntries(codec, rows), rows)
  {
    hide *;
    var keys := EntriesFollowKeys(codec, rows);
    KeysListRows(keys, LeafEntries(codec, rows), rows);
  }

  lemma EntriesFollowKeys(codec: Codec, rows: Rows) returns (keys: seq<Key>)
    requires codec.Sound()
    ensures |LeafEntries(codec, rows)| == |keys|
    ensures forall i :: 0 <= i < |keys| ==> keys[i] in rows && LeafEntries(codec, rows)[i] == (keys[i], rows[keys[i]])
    ensures forall i, j :: 0 <= i < j < |keys| ==> keys[i] != keys[j]
    ensures forall key :: key in rows ==> key in keys
  {
    keys := Sorted(rows.Keys, codec.keyBytes);
    SortedHasNoDuplicates(rows.Keys, codec.keyBytes);
  }

  lemma KeysListRows(keys: seq<Key>, entries: seq<(Key, Row)>, rows: Rows)
    requires |entries| == |keys|
    requires forall i :: 0 <= i < |keys| ==> keys[i] in rows && entries[i] == (keys[i], rows[keys[i]])
    requires forall i, j :: 0 <= i < j < |keys| ==> keys[i] != keys[j]
    requires forall key :: key in rows ==> key in keys
    ensures DistinctFirst(entries) && Lists(entries, rows)
  {
  }

  // ---- Grouping changes by shard ----

  function Restrict(changes: Changes, keys: set<Key>): Changes {
    map key | key in changes && key in keys :: changes[key]
  }

  ghost predicate Grouped(tree: Tree, changes: Changes, grouped: map<string, Changes>) {
    && grouped.Keys == ChangedSlots(tree, changes)
    && forall slot :: slot in grouped ==> grouped[slot] == ChangesAt(tree, changes, slot)
  }

  method GroupBySlot(tree: Tree, changes: Changes) returns (grouped: map<string, Changes>)
    ensures Grouped(tree, changes, grouped)
  {
    hide Grouped, Shard;
    grouped := map[];
    var todo := changes.Keys;
    ghost var done: set<Key> := {};
    NothingGrouped(tree, changes);
    while todo != {}
      invariant done !! todo && done + todo == changes.Keys
      invariant Grouped(tree, Restrict(changes, done), grouped)
      decreases |todo|
    {
      var key :| key in todo;
      var slot := Shard(tree, key);
      GroupOneMore(tree, Restrict(changes, done), grouped, key, changes[key]);
      assert Restrict(changes, done + {key}) == Restrict(changes, done)[key := changes[key]];
      grouped := grouped[slot := (if slot in grouped then grouped[slot] else map[])[key := changes[key]]];
      todo, done := todo - {key}, done + {key};
    }
    assert Restrict(changes, done) == changes;
  }

  lemma NothingGrouped(tree: Tree, changes: Changes)
    ensures Grouped(tree, Restrict(changes, {}), map[])
  {
  }

  lemma GroupOneMore(tree: Tree, changes: Changes, grouped: map<string, Changes>, key: Key, change: Option<Row>)
    requires Grouped(tree, changes, grouped) && key !in changes
    ensures var slot := Shard(tree, key);
      Grouped(tree, changes[key := change],
        grouped[slot := (if slot in grouped then grouped[slot] else map[])[key := change]])
  {
    hide Shard;
    var slot, more := Shard(tree, key), changes[key := change];
    var regrouped := grouped[slot := (if slot in grouped then grouped[slot] else map[])[key := change]];
    assert more.Keys == changes.Keys + {key};
    assert regrouped.Keys == ChangedSlots(tree, more);
    forall other | other in regrouped ensures regrouped[other] == ChangesAt(tree, more, other) {
      if other != slot {
        assert ChangesAt(tree, more, other) == ChangesAt(tree, changes, other);
      } else if slot !in grouped {
        assert ChangesAt(tree, changes, slot) == map[];
      }
    }
  }

  // ---- Applying changes to one leaf's dictionary ----

  method ApplyChanges(rows: Rows, changes: Changes) returns (r: Result<Rows>)
    ensures r.Ok? <==> Applicable(rows, changes)
    ensures r.Ok? ==> r.value == Override(rows, changes)
    ensures r.Failure? ==> r.reason == ABSENT
  {
    hide Override, Applicable;
    var entries := rows;
    var todo := changes.Keys;
    ghost var done: set<Key> := {};
    NothingApplied(rows, changes);
    while todo != {}
      invariant done !! todo && done + todo == changes.Keys
      invariant Applicable(rows, Restrict(changes, done)) && entries == Override(rows, Restrict(changes, done))
      decreases |todo|
    {
      var key :| key in todo;
      ApplyOneMore(rows, changes, done, key);
      match changes[key] {
        case None =>
          if key !in entries {
            return Failure(ABSENT);
          }
          entries := entries - {key};
        case Some(row) =>
          entries := entries[key := row];
      }
      todo, done := todo - {key}, done + {key};
    }
    assert Restrict(changes, done) == changes;
    r := Ok(entries);
  }

  lemma NothingApplied(rows: Rows, changes: Changes)
    ensures Applicable(rows, Restrict(changes, {})) && Override(rows, Restrict(changes, {})) == rows
  {
  }

  lemma ApplyOneMore(rows: Rows, changes: Changes, done: set<Key>, key: Key)
    requires done <= changes.Keys && key in changes && key !in done
    requires Applicable(rows, Restrict(changes, done))
    ensures var entries, more := Override(rows, Restrict(changes, done)), Restrict(changes, done + {key});
      match changes[key]
      case None =>
        if key in entries then Applicable(rows, more) && Override(rows, more) == entries - {key}
        else !Applicable(rows, changes)
      case Some(row) => Applicable(rows, more) && Override(rows, more) == entries[key := row]
  {
  }

  const ABSENT := "cannot delete absent identity"

  // ---- Pages of an update ----

  /** What a leaf reference stores, after `log` was written; an empty leaf has no reference. */
  ghost predicate LeafAt(codec: Codec, pages: Pages, tree: Tree, ref: Option<TreeRef>, slice: Rows)
    requires codec.Sound()
  {
    match ref
    case None => slice == map[]
    case Some(leaf) => slice != map[] && IsLeaf(codec, pages, tree, leaf, slice)
  }

  /** The children of a root under construction. */
  ghost predicate ChildrenAt(codec: Codec, pages: Pages, tree: Tree, children: map<string, TreeRef>, rows: Rows)
    requires codec.Sound()
  {
    forall slot :: LeafAt(codec, pages, tree, Child(children, slot), Slice(tree, rows, slot))
  }

  function Child(children: map<string, TreeRef>, slot: string): Option<TreeRef> {
    if slot in children then Some(children[slot]) else None
  }

  /** Only pages were appended. */
  ghost predicate AppendsPages(log: Records, more: Records) {
    && log <= more
    && forall i :: |log| <= i < |more| ==> more[i].PageRecord?
  }

  lemma PagesAppended(codec: Codec, log: Records, more: Records)
    requires codec.Sound() && AppendsPages(log, more)
    ensures Extends(PagesOf(codec, log), PagesOf(codec, more))
  {
    assert more[..|log|] == log;
    PagesGrow(codec, more, |log|);
  }

  lemma ChildrenAreStable(codec: Codec, pages: Pages, larger: Pages, tree: Tree, children: map<string, TreeRef>, rows: Rows)
    requires codec.Sound() && Extends(pages, larger) && ChildrenAt(codec, pages, tree, children, rows)
    ensures ChildrenAt(codec, larger, tree, children, rows)
  {
    hide LeafHash, LeafEntries, Codec.Sound, Slice;
    forall slot ensures LeafAt(codec, larger, tree, Child(children, slot), Slice(tree, rows, slot)) {
      assert LeafAt(codec, pages, tree, Child(children, slot), Slice(tree, rows, slot));
    }
  }

  /** The children listed by a stored root are the leaves of its map. */
  lemma RootListsLeaves(codec: Codec, pages: Pages, tree: Tree, ref: TreeRef, rows: Rows, children: map<string, TreeRef>)
    requires codec.Sound() && IsRoot(codec, pages, tree, ref, rows)
    requires Lists(pages[ref.offset].children, children)
    ensures ChildrenAt(codec, pages, tree, children, rows)
  {
    hide IsLeaf, Codec.Sound;
    var slots, listed := Slots(tree, rows), pages[ref.offset].children;
    forall slot | slot in children ensures slot in SlotSet(tree, rows) {
      var i :| 0 <= i < |listed| && listed[i].0 == slot;
      assert slots[i] == slot && slots[i] in slots;
    }
    forall slot ensures LeafAt(codec, pages, tree, Child(children, slot), Slice(tree, rows, slot)) {
      SlotHasRows(tree, rows, slot);
      if slot in SlotSet(tree, rows) {
        assert slot in slots;
        var i :| 0 <= i < |slots| && slots[i] == slot;
        assert listed[i].0 == slot;
      }
    }
  }

  lemma SlotHasRows(tree: Tree, rows: Rows, slot: string)
    ensures slot in SlotSet(tree, rows) <==> Slice(tree, rows, slot) != map[]
  {
    hide Shard;
    if slot in SlotSet(tree, rows) {
      var key :| key in rows && Shard(tree, key) == slot;
      assert key in Slice(tree, rows, slot);
    }
    forall key | key in Slice(tree, rows, slot) ensures slot in SlotSet(tree, rows) {
      assert Shard(tree, key) in SlotSet(tree, rows);
    }
  }

  lemma RootListsDistinct(codec: Codec, pages: Pages, tree: Tree, ref: TreeRef, rows: Rows)
    requires codec.Sound() && IsRoot(codec, pages, tree, ref, rows)
    ensures DistinctFirst(pages[ref.offset].children)
  {
    hide IsLeaf, Codec.Sound, RootHash;
  }

  lemma NoChildren(codec: Codec, pages: Pages, tree: Tree)
    requires codec.Sound()
    ensures ChildrenAt(codec, pages, tree, map[], map[])
  {
  }

  /** The children in slot order, as stored and as hashed, and the rows below them. */
  method ListChildren(codec: Codec, children: map<string, TreeRef>, slots: seq<string>,
                      ghost pages: Pages, ghost tree: Tree, ghost rows: Rows)
    returns (listed: seq<(string, TreeRef)>, logical: seq<(string, Hash, nat)>, count: nat)
    requires codec.Sound() && slots == Slots(tree, rows)
    requires forall i :: 0 <= i < |slots| ==> slots[i] in children
    requires forall slot :: slot in children ==> IsLeaf(codec, pages, tree, children[slot], Slice(tree, rows, slot))
    ensures count == |rows| && LogicalBranch(tree, 0, count, logical) == RootLogical(codec, tree, rows)
    ensures |listed| == |slots| && forall i :: 0 <= i < |slots| ==>
      listed[i].0 == slots[i] && IsLeaf(codec, pages, tree, listed[i].1, Slice(tree, rows, slots[i]))
  {
    hide *;
    listed, logical, count := [], [], 0;
    NothingListed(codec, pages, tree, rows);
    for i := 0 to |slots|
      invariant ListsSlots(codec, pages, tree, rows, slots[..i], listed, logical, count)
    {
      assert slots[..i + 1] == slots[..i] + [slots[i]];
      var child := children[slots[i]];
      ListOneMore(codec, pages, tree, rows, slots[..i], listed, logical, count, slots[i], child);
      listed := listed + [(slots[i], child)];
      logical := logical + [(slots[i], child.logicalHash, child.count)];
      count := count + child.count;
    }
    assert slots[..|slots|] == slots;
    AllListed(codec, pages, tree, rows, slots, listed, logical, count);
  }

  // ---- The size of a tree's pages ----

  ghost predicate LeafWithin(codec: Codec, tree: Tree, rows: Rows, bound: nat)
    requires codec.Sound()
  {
    PageWithin(codec, Leaf(tree, 1, LeafEntries(codec, rows), LeafHash(codec, tree, rows), |rows|), bound)
  }

  /** The children that a root of `rows` may list: its leaves, wherever in a file they are. */
  ghost predicate ListsLeaves(codec: Codec, tree: Tree, rows: Rows, children: seq<(string, TreeRef)>)
    requires codec.Sound()
  {
    var slots := Slots(tree, rows);
    && |children| == |slots|
    && forall i :: 0 <= i < |slots| ==>
      && children[i].0 == slots[i] && children[i].1.offset < OFFSET_LIMIT
      && children[i].1.logicalHash == LeafHash(codec, tree, Slice(tree, rows, slots[i]))
      && children[i].1.count == |Slice(tree, rows, slots[i])|
  }

  ghost predicate RootWithin(codec: Codec, tree: Tree, rows: Rows, bound: nat)
    requires codec.Sound()
  {
    forall children :: ListsLeaves(codec, tree, rows, children) ==>
      PageWithin(codec, Branch(tree, 0, children, RootHash(codec, tree, rows), |rows|), bound)
  }

  /** No page of the tree that stores `rows` needs more than `bound` bytes. */
  ghost predicate TreeWithin(codec: Codec, tree: Tree, rows: Rows, bound: nat)
    requires codec.Sound()
  {
    && (rows != map[] ==> RootWithin(codec, tree, rows, bound))
    && forall slot :: LeafFits(codec, tree, Slice(tree, rows, slot), bound)
  }

  ghost predicate LeafFits(codec: Codec, tree: Tree, rows: Rows, bound: nat)
    requires codec.Sound()
  {
    rows != map[] ==> LeafWithin(codec, tree, rows, bound)
  }

  lemma FittingLeaf(codec: Codec, tree: Tree, rows: Rows, bound: nat)
    requires codec.Sound() && LeafFits(codec, tree, rows, bound) && rows != map[]
    ensures LeafWithin(codec, tree, rows, bound)
  {
  }

  lemma LeafHasRoom(codec: Codec, file: Bytes, tree: Tree, rows: Rows, bound: nat)
    requires codec.Sound() && LeafWithin(codec, tree, rows, bound)
    ensures var page := Leaf(tree, 1, LeafEntries(codec, rows), LeafHash(codec, tree, rows), |rows|);
      && (HasRoom(|file|, 1, bound) ==> Fits(codec, file, PageRecord(page)))
      && Grew(|file|, |file| + |Frame(codec, PageRecord(page))|, 1, bound)
  {
    PageHasRoom(codec, file, Leaf(tree, 1, LeafEntries(codec, rows), LeafHash(codec, tree, rows), |rows|), bound);
  }

  lemma RootHasRoom(codec: Codec, log: Records, tree: Tree, rows: Rows, listed: seq<(string, TreeRef)>, bound: nat)
    requires codec.Sound() && Admissible(codec, log) && RootWithin(codec, tree, rows, bound)
    requires var slots := Slots(tree, rows);
      |listed| == |slots| && forall i :: 0 <= i < |slots| ==>
        listed[i].0 == slots[i] && IsLeaf(codec, PagesOf(codec, log), tree, listed[i].1, Slice(tree, rows, slots[i]))
    ensures var page, file := Branch(tree, 0, listed, RootHash(codec, tree, rows), |rows|), File(codec, log);
      && (HasRoom(|file|, 1, bound) ==> Fits(codec, file, PageRecord(page)))
      && Grew(|file|, |file| + |Frame(codec, PageRecord(page))|, 1, bound)
  {
    hide LeafHash, LeafEntries, Codec.Sound, Slots, Slice, RootHash, PageWithin, PagesOf;
    forall i | 0 <= i < |listed| ensures listed[i].1.offset < OFFSET_LIMIT {
      OffsetIsInside(codec, log, listed[i].1.offset);
    }
    assert ListsLeaves(codec, tree, rows, listed);
    PageHasRoom(codec, File(codec, log), Branch(tree, 0, listed, RootHash(codec, tree, rows), |rows|), bound);
  }

  lemma OffsetIsInside(codec: Codec, log: Records, offset: nat)
    requires Admissible(codec, log) && offset in PagesOf(codec, log)
    ensures offset < OFFSET_LIMIT
  {
    hide File;
    var i := PageIsRecord(codec, log, offset);
    StartOfPrefix(codec, log, i, |log|);
    assert log[..|log|] == log;
  }

  // ---- The tree ----

  class RadixTree {
    const store: Writer
    const tree: Tree
    var pagesRead: nat
    var pagesWritten: nat

    constructor (store: Writer, tree: Tree)
      ensures this.store == store && this.tree == tree && pagesRead == 0 && pagesWritten == 0
    {
      this.store, this.tree := store, tree;
      pagesRead, pagesWritten := 0, 0;
    }

    ghost predicate Ready()
      reads this, store, store.cache
    {
      store.Valid() && !store.closed
    }

    /** The pages that the writer can read back: those of the last flush. */
    ghost function Readable(): Pages
      requires Ready()
      reads this, store, store.cache
    {
      PagesOf(store.codec, store.log[..store.flushedRecords])
    }

    /** _page */
    method ReadTreePage(ref: TreeRef) returns (page: Option<Page>)
      requires Ready()
      modifies this`pagesRead, store.cache
      ensures Ready() && store.flushedRecords <= |store.log|
      ensures var readable := store.log[..store.flushedRecords];
        Stored(store.codec, readable, ref) ==> page == Some(PagesOf(store.codec, readable)[ref.offset])
    {
      hide *;
      ReadyParts();
      pagesRead := pagesRead + 1;
      page := store.ReadPage(ref);
      ReadyAgain();
    }

    lemma ReadyParts()
      requires Ready()
      ensures store.Valid() && !store.closed && store.codec.Sound() && store.flushedRecords <= |store.log|
      ensures store.file == File(store.codec, store.log) && Admissible(store.codec, store.log)
      ensures Readable() == PagesOf(store.codec, store.log[..store.flushedRecords])
    {
    }

    lemma ReadyAgain()
      requires store.Valid() && !store.closed
      ensures Ready()
    {
    }

    /** Sorting a dictionary and storing it as a leaf. */
    method StoreLeaf(entries: Rows, ghost bound: nat) returns (r: Result<TreeRef>)
      requires Ready()
      modifies this`pagesWritten, store`file, store`log, store.cache
      ensures Ready() && AppendsPages(old(store.log), store.log)
      ensures r.Failure? ==> r.reason == FULL
      ensures LeafWithin(store.codec, tree, entries, bound) ==>
        && (HasRoom(|old(store.file)|, 1, bound) ==> r.Ok?)
        && Grew(|old(store.file)|, |store.file|, 1, bound)
      ensures r.Ok? ==> pagesWritten - old(pagesWritten) == |store.log| - |old(store.log)|
      ensures r.Ok? ==> IsLeaf(store.codec, PagesOf(store.codec, store.log), tree, r.value, entries)
    {
      hide *;
      ReadyParts();
      var codec := store.codec;
      KeysAreInjective(codec);
      var keys := Sort(entries.Keys, codec.keyBytes);
      var ordered := seq(|keys|, i requires 0 <= i < |keys| => EntryFor(entries, keys[i]));
      OrderedEntries(codec, entries, keys, ordered);
      pagesWritten := pagesWritten + 1;
      r := store.StorePage(LogicalLeaf(tree, 1, |ordered|, ordered), Leaf(tree, 1, ordered, "", 0));
      ReadyAgain();
      LeafHashIs(codec, tree, entries);
      GrewNothing(|old(store.file)|, 1, bound);
      if LeafWithin(codec, tree, entries, bound) {
        LeafHasRoom(codec, old(store.file), tree, entries, bound);
      }
      if r.Ok? {
        LeafStored(codec, old(store.log), old(store.file), tree, entries, r.value);
      }
      OnePage(old(store.log), store.log);
    }

    /** _update at the leaf level. */
    method UpdateLeaf(ref: Option<TreeRef>, changes: Changes, slot: string, ghost slice: Rows, ghost bound: nat)
      returns (r: Result<Option<TreeRef>>)
      requires Ready() && LeafAt(store.codec, Readable(), tree, ref, slice)
      requires forall key :: key in slice ==> Shard(tree, key) == slot
      modifies this, store`file, store`log, store.cache
      ensures Ready() && AppendsPages(old(store.log), store.log)
      ensures r.Ok? ==> pagesWritten - old(pagesWritten) == |store.log| - |old(store.log)|
      ensures !Applicable(slice, changes) ==> r.Failure?
      ensures r.Failure? ==> r.reason == FULL || !Applicable(slice, changes)
      ensures LeafFits(store.codec, tree, Override(slice, changes), bound) ==>
        && (HasRoom(|old(store.file)|, 1, bound) && Applicable(slice, changes) ==> r.Ok?)
        && Grew(|old(store.file)|, |store.file|, 1, bound)
      ensures r.Ok? ==>
        LeafAt(store.codec, PagesOf(store.codec, store.log), tree, r.value, Override(slice, changes))
    {
      hide *;
      ReadyParts();
      NothingAppendedYet(store.log);
      GrewNothing(|store.file|, 1, bound);
      var entries: Rows := map[];
      if ref.Some? {
        LeafIsStored(store.codec, store.log[..store.flushedRecords], tree, ref.value, slice);
        LeafListsRows(store.codec, slice);
        var page := ReadTreePage(ref.value);
        if page.None? || !page.value.Leaf? {
          return Failure("expected leaf page");
        }
        var recorded := RecordMap(page.value.entries);
        if recorded.Failure? {
          return Failure("duplicate identity");
        }
        entries := recorded.value;
        ListsIsFunctional(page.value.entries, entries, slice);
        if exists key | key in entries :: Shard(tree, key) != slot {
          return Failure("identity is stored in the wrong shard");
        }
      } else {
        NoLeaf(store.codec, Readable(), tree, slice);
      }
      var applied := ApplyChanges(entries, changes);
      if applied.Failure? {
        return Failure(applied.reason);
      }
      ReadyParts();
      if applied.value == map[] {
        NoLeafNow(store.codec, PagesOf(store.codec, store.log), tree);
        return Ok(None);
      }
      if LeafFits(store.codec, tree, applied.value, bound) {
        FittingLeaf(store.codec, tree, applied.value, bound);
      }
      var leaf := StoreLeaf(applied.value, bound);
      ReadyParts();
      if leaf.Failure? {
        return Failure(leaf.reason);
      }
      SomeLeaf(store.codec, PagesOf(store.codec, store.log), tree, leaf.value, applied.value);
      r := Ok(Some(leaf.value));
    }

    /** The children of the root, as a dictionary. */
    method ReadChildren(root: Option<TreeRef>, ghost rows: Rows) returns (children: Option<map<string, TreeRef>>)
      requires Ready() && Represents(store.codec, Readable(), tree, root, rows)
      modifies this`pagesRead, store.cache
      ensures Ready() && children.Some? && ChildrenAt(store.codec, Readable(), tree, children.value, rows)
    {
      hide *;
      ReadyParts();
      if root.None? {
        NoRoot(store.codec, Readable(), tree, rows);
        NoChildren(store.codec, Readable(), tree);
        return Some(map[]);
      }
      RootIsStored(store.codec, store.log[..store.flushedRecords], tree, root.value, rows);
      var page := ReadTreePage(root.value);
      ReadyParts();
      if page.None? || !page.value.Branch? || page.value.depth != 0 {
        return None;
      }
      var recorded := RecordMap(page.value.children);
      if recorded.Failure? {
        return None;
      }
      RootListsLeaves(store.codec, Readable(), tree, root.value, rows, recorded.value);
      children := Some(recorded.value);
    }

    /** Sorting the children and storing them as the root. */
    method StoreRoot(children: map<string, TreeRef>, ghost rows: Rows, ghost bound: nat) returns (r: Result<TreeRef>)
      requires Ready() && ChildrenAt(store.codec, PagesOf(store.codec, store.log), tree, children, rows)
      modifies this`pagesWritten, store`file, store`log, store.cache
      ensures Ready() && AppendsPages(old(store.log), store.log)
      ensures r.Failure? ==> r.reason == FULL
      ensures RootWithin(store.codec, tree, rows, bound) ==>
        && (HasRoom(|old(store.file)|, 1, bound) ==> r.Ok?)
        && Grew(|old(store.file)|, |store.file|, 1, bound)
      ensures r.Ok? ==> pagesWritten - old(pagesWritten) == |store.log| - |old(store.log)|
      ensures r.Ok? ==> IsRoot(store.codec, PagesOf(store.codec, store.log), tree, r.value, rows)
    {
      hide *;
      ReadyParts();
      var codec := store.codec;
      ghost var pages := PagesOf(codec, store.log);
      CodePointsInjective();
      var slots := Sort(children.Keys, CodePoints);
      ChildSlots(codec, pages, tree, children, rows, slots);
      var listed, logical, count := ListChildren(codec, children, slots, pages, tree, rows);
      pagesWritten := pagesWritten + 1;
      r := store.StorePage(LogicalBranch(tree, 0, count, logical), Branch(tree, 0, listed, "", 0));
      ReadyAgain();
      RootHashIs(codec, tree, rows);
      GrewNothing(|old(store.file)|, 1, bound);
      if RootWithin(codec, tree, rows, bound) {
        RootHasRoom(codec, old(store.log), tree, rows, listed, bound);
      }
      if r.Ok? {
        RootStored(codec, old(store.log), old(store.file), tree, rows, listed, r.value);
      }
      OnePage(old(store.log), store.log);
    }

    /** One changed slot of that loop; `first` is the log before it. */
    method UpdateSlot(children: map<string, TreeRef>, group: Changes, slot: string, ghost first: Records,
                      ghost base: Records, ghost rows: Rows, ghost changes: Changes, ghost done: set<string>,
                      ghost size: nat, ghost bound: nat)
      returns (r: Result<map<string, TreeRef>>)
      requires Ready() && AppendsPages(first, store.log)
      requires store.flushedRecords <= |first| && base == first[..store.flushedRecords]
      requires UpdatedAt(store.codec, PagesOf(store.codec, store.log), tree, children, rows, changes, done)
      requires PendingAt(store.codec, PagesOf(store.codec, base), tree, children, rows, done)
      requires DoneApply(tree, rows, changes, done) && group == ChangesAt(tree, changes, slot)
      requires slot !in done && done + {slot} <= ChangedSlots(tree, changes)
      requires TreeWithin(store.codec, tree, Override(rows, changes), bound) ==> Grew(size, |store.file|, |done|, bound)
      modifies this, store`file, store`log, store.cache
      ensures Ready() && AppendsPages(first, store.log)
      ensures r.Ok? ==> pagesWritten - old(pagesWritten) == |store.log| - |old(store.log)|
      ensures r.Failure? ==> r.reason == FULL || !Applicable(rows, changes)
      ensures TreeWithin(store.codec, tree, Override(rows, changes), bound) ==>
        && (HasRoom(size, |ChangedSlots(tree, changes)|, bound) && Applicable(rows, changes) ==> r.Ok?)
        && (r.Ok? ==> Grew(size, |store.file|, |done + {slot}|, bound))
      ensures r.Ok? ==>
        && UpdatedAt(store.codec, PagesOf(store.codec, store.log), tree, r.value, rows, changes, done + {slot})
        && PendingAt(store.codec, PagesOf(store.codec, base), tree, r.value, rows, done + {slot})
        && DoneApply(tree, rows, changes, done + {slot})
    {
      hide *;
      ReadyParts();
      ghost var slice := Slice(tree, rows, slot);
      SliceInShard(tree, rows, slot);
      PendingLeaf(store.codec, PagesOf(store.codec, base), tree, children, rows, done, slot);
      SamePrefix(first, store.log, store.flushedRecords);
      ghost var before, already := store.log, |store.file|;
      SlotIsOneMore(tree, changes, done, slot);
      RoomForSlot(store.codec, tree, rows, changes, done, slot, size, already, bound);
      var child := UpdateLeaf(Child(children, slot), group, slot, slice, bound);
      ReadyParts();
      AppendsMore(first, before, store.log);
      SlotFails(tree, rows, changes, slot);
      if child.Failure? {
        return Failure(child.reason);
      }
      UpdateOneMore(store.codec, before, store.log, tree, children, rows, changes, done, slot, child.value);
      PendingOneLess(store.codec, PagesOf(store.codec, base), tree, children, rows, done, slot, child.value);
      DoneOneMore(tree, rows, changes, done, slot);
      if TreeWithin(store.codec, tree, Override(rows, changes), bound) {
        GrewMore(size, already, |store.file|, |done|, 1, bound);
      }
      r := Ok(WithChild(children, slot, child.value));
    }

    /** The loop of _update at the root, over the changed slots. */
    method UpdateChildren(found: map<string, TreeRef>, changes: Changes, ghost rows: Rows, ghost bound: nat)
      returns (r: Result<map<string, TreeRef>>)
      requires Ready() && ChildrenAt(store.codec, Readable(), tree, found, rows)
      modifies this, store`file, store`log, store.cache
      ensures Ready() && AppendsPages(old(store.log), store.log)
      ensures r.Ok? ==> pagesWritten - old(pagesWritten) == |store.log| - |old(store.log)|
      ensures !Applicable(rows, changes) ==> r.Failure?
      ensures r.Failure? ==> r.reason == FULL || !Applicable(rows, changes)
      ensures TreeWithin(store.codec, tree, Override(rows, changes), bound) ==>
        && (HasRoom(|old(store.file)|, |ChangedSlots(tree, changes)|, bound) && Applicable(rows, changes) ==> r.Ok?)
        && (r.Ok? ==> Grew(|old(store.file)|, |store.file|, |ChangedSlots(tree, changes)|, bound))
      ensures r.Ok? ==>
        ChildrenAt(store.codec, PagesOf(store.codec, store.log), tree, r.value, Override(rows, changes))
    {
      hide *;
      ReadyParts();
      NothingAppendedYet(store.log);
      var children := found;
      var grouped := GroupBySlot(tree, changes);
      GroupedParts(tree, changes, grouped);
      var todo := grouped.Keys;
      ghost var done: set<string> := {};
      ghost var base := store.log[..store.flushedRecords];
      ghost var size := |store.file|;
      GrewNothing(size, 0, bound);
      StartOfUpdate(store.codec, store.log, store.flushedRecords, tree, children, rows, changes);
      while todo != {}
        invariant Ready() && AppendsPages(old(store.log), store.log)
        invariant done !! todo && done + todo == ChangedSlots(tree, changes)
        invariant pagesWritten - old(pagesWritten) == |store.log| - |old(store.log)|
        invariant UpdatedAt(store.codec, PagesOf(store.codec, store.log), tree, children, rows, changes, done)
        invariant store.flushedRecords <= |old(store.log)| && base == old(store.log)[..store.flushedRecords]
        invariant PendingAt(store.codec, PagesOf(store.codec, base), tree, children, rows, done)
        invariant DoneApply(tree, rows, changes, done)
        invariant TreeWithin(store.codec, tree, Override(rows, changes), bound) ==> Grew(size, |store.file|, |done|, bound)
        decreases |todo|
      {
        var slot :| slot in todo;
        var updated := UpdateSlot(children, grouped[slot], slot, old(store.log), base, rows, changes, done, size, bound);
        if updated.Failure? {
          return Failure(updated.reason);
        }
        children := updated.value;
        todo, done := todo - {slot}, done + {slot};
      }
      ReadyParts();
      AllUpdated(store.codec, PagesOf(store.codec, store.log), tree, children, rows, changes, done);
      r := Ok(children);
    }

    /** _update at the root. */
    method Update(root: Option<TreeRef>, changes: Changes, ghost rows: Rows, ghost bound: nat)
      returns (r: Result<Option<TreeRef>>)
      requires Ready() && Represents(store.codec, Readable(), tree, root, rows)
      modifies this, store`file, store`log, store.cache
      ensures Ready() && AppendsPages(old(store.log), store.log)
      ensures r.Ok? ==> pagesWritten - old(pagesWritten) == |store.log| - |old(store.log)|
      ensures !Applicable(rows, changes) ==> r.Failure?
      ensures r.Failure? ==> r.reason == FULL || !Applicable(rows, changes)
      ensures TreeWithin(store.codec, tree, Override(rows, changes), bound) ==>
        && (HasRoom(|old(store.file)|, |ChangedSlots(tree, changes)| + 1, bound) && Applicable(rows, changes) ==> r.Ok?)
        && (r.Ok? ==> Grew(|old(store.file)|, |store.file|, |ChangedSlots(tree, changes)| + 1, bound))
      ensures r.Ok? ==>
        Represents(store.codec, PagesOf(store.codec, store.log), tree, r.value, Override(rows, changes))
    {
      hide *;
      ReadyParts();
      NothingAppendedYet(store.log);
      ghost var size, slots, target := |store.file|, |ChangedSlots(tree, changes)|, Override(rows, changes);
      var read := ReadChildren(root, rows);
      if read.None? {
        return Failure("expected branch page");
      }
      ReadyParts();
      if HasRoom(size, slots + 1, bound) {
        RoomWithin(size, slots, slots + 1, bound);
      }
      var updated := UpdateChildren(read.value, changes, rows, bound);
      if updated.Failure? {
        return Failure(updated.reason);
      }
      var children := updated.value;
      ReadyParts();
      ghost var already := |store.file|;
      RoomForRoot(store.codec, tree, target, size, already, slots, bound);
      if children == map[] {
        EmptyRoot(store.codec, PagesOf(store.codec, store.log), tree, target);
        return Ok(None);
      }
      SomeChild(store.codec, PagesOf(store.codec, store.log), tree, children, target);
      ghost var before := store.log;
      var stored := StoreRoot(children, target, bound);
      ReadyParts();
      AppendsMore(old(store.log), before, store.log);
      if stored.Failure? {
        return Failure(stored.reason);
      }
      if TreeWithin(store.codec, tree, target, bound) {
        GrewMore(size, already, |store.file|, slots, 1, bound);
      }
      SomeRoot(store.codec, PagesOf(store.codec, store.log), tree, stored.value, target);
      r := Ok(Some(stored.value));
    }

    /** apply: the tree refines a map under override and delete. */
    method Apply(root: Option<TreeRef>, changes: Changes, ghost rows: Rows, ghost bound: nat)
      returns (r: Result<Option<TreeRef>>)
      requires Ready() && Represents(store.codec, Readable(), tree, root, rows)
      modifies this, store`file, store`log, store.cache
      ensures Ready() && AppendsPages(old(store.log), store.log)
      ensures r.Ok? ==> pagesWritten - old(pagesWritten) == |store.log| - |old(store.log)|
      ensures !Applicable(rows, changes) ==> r.Failure?
      ensures r.Failure? ==> r.reason == FULL || !Applicable(rows, changes)
      ensures TreeWithin(store.codec, tree, Override(rows, changes), bound) ==>
        && (HasRoom(|old(store.file)|, |changes| + 1, bound) && Applicable(rows, changes) ==> r.Ok?)
        && (r.Ok? ==> Grew(|old(store.file)|, |store.file|, |changes| + 1, bound))
      ensures r.Ok? ==>
        Represents(store.codec, PagesOf(store.codec, store.log), tree, r.value, Override(rows, changes))
    {
      hide *;
      if changes == map[] {
        ReadyParts();
        NothingAppendedYet(store.log);
        NothingChanges(store.codec, store.log, store.flushedRecords, tree, root, rows);
        GrewNothing(|store.file|, |changes| + 1, bound);
        return Ok(root);
      }
      SlotsAreFew(tree, changes);
      ghost var before := |store.file|;
      if HasRoom(before, |changes| + 1, bound) {
        RoomWithin(before, |ChangedSlots(tree, changes)| + 1, |changes| + 1, bound);
      }
      r := Update(root, changes, rows, bound);
      if Grew(before, |store.file|, |ChangedSlots(tree, changes)| + 1, bound) {
        GrewWithin(before, |store.file|, |ChangedSlots(tree, changes)| + 1, |changes| + 1, bound);
      }
    }
  }

  // ---- Steps of the update ----

  function WithChild(children: map<string, TreeRef>, slot: string, child: Option<TreeRef>): map<string, TreeRef> {
    match child
    case None => children - {slot}
    case Some(ref) => children[slot := ref]
  }

  function SliceAfter(tree: Tree, rows: Rows, changes: Changes, done: set<string>, slot: string): Rows {
    if slot in done then Override(Slice(tree, rows, slot), ChangesAt(tree, changes, slot)) else Slice(tree, rows, slot)
  }

  ghost predicate UpdatedAt(codec: Codec, pages: Pages, tree: Tree, children: map<string, TreeRef>, rows: Rows,
                            changes: Changes, done: set<string>)
    requires codec.Sound()
  {
    forall slot :: LeafAt(codec, pages, tree, Child(children, slot), SliceAfter(tree, rows, changes, done, slot))
  }

  ghost predicate PendingAt(codec: Codec, pages: Pages, tree: Tree, children: map<string, TreeRef>, rows: Rows,
                            done: set<string>)
    requires codec.Sound()
  {
    forall slot :: slot !in done ==> LeafAt(codec, pages, tree, Child(children, slot), Slice(tree, rows, slot))
  }

  ghost predicate DoneApply(tree: Tree, rows: Rows, changes: Changes, done: set<string>) {
    forall slot :: slot in done ==> Applicable(Slice(tree, rows, slot), ChangesAt(tree, changes, slot))
  }

  /** The slice of the new rows fits where the new rows do. */
  lemma SliceFits(codec: Codec, tree: Tree, rows: Rows, changes: Changes, slot: string, bound: nat)
    requires codec.Sound() && TreeWithin(codec, tree, Override(rows, changes), bound)
    ensures LeafFits(codec, tree, Override(Slice(tree, rows, slot), ChangesAt(tree, changes, slot)), bound)
  {
    hide LeafFits, RootWithin, Codec.Sound, Override, Slice;
    SliceOfOverride(tree, rows, changes, slot);
    assert LeafFits(codec, tree, Slice(tree, Override(rows, changes), slot), bound);
  }

  lemma RoomForSlot(codec: Codec, tree: Tree, rows: Rows, changes: Changes, done: set<string>, slot: string,
                    size: nat, already: nat, bound: nat)
    requires codec.Sound() && |done| + 1 <= |ChangedSlots(tree, changes)|
    ensures var target := Override(rows, changes);
      TreeWithin(codec, tree, target, bound) ==>
        && LeafFits(codec, tree, Override(Slice(tree, rows, slot), ChangesAt(tree, changes, slot)), bound)
        && (HasRoom(size, |ChangedSlots(tree, changes)|, bound) && Grew(size, already, |done|, bound)
            ==> HasRoom(already, 1, bound))
  {
    hide *;
    if TreeWithin(codec, tree, Override(rows, changes), bound) {
      SliceFits(codec, tree, rows, changes, slot, bound);
      if HasRoom(size, |ChangedSlots(tree, changes)|, bound) && Grew(size, already, |done|, bound) {
        RoomWithin(size, |done| + 1, |ChangedSlots(tree, changes)|, bound);
        RoomLeft(size, already, |done|, 1, bound);
      }
    }
  }

  lemma RoomForRoot(codec: Codec, tree: Tree, rows: Rows, size: nat, already: nat, slots: nat, bound: nat)
    requires codec.Sound()
    ensures TreeWithin(codec, tree, rows, bound) && Grew(size, already, slots, bound) ==>
      && (rows != map[] ==> RootWithin(codec, tree, rows, bound))
      && (HasRoom(size, slots + 1, bound) ==> HasRoom(already, 1, bound))
      && Grew(size, already, slots + 1, bound)
  {
    hide RootWithin, LeafFits, Grew, HasRoom;
    if TreeWithin(codec, tree, rows, bound) && Grew(size, already, slots, bound) {
      GrewWithin(size, already, slots, slots + 1, bound);
      if HasRoom(size, slots + 1, bound) {
        RoomLeft(size, already, slots, 1, bound);
      }
    }
  }

  lemma SlotIsOneMore(tree: Tree, changes: Changes, done: set<string>, slot: string)
    requires done + {slot} <= ChangedSlots(tree, changes) && slot !in done
    ensures |done + {slot}| == |done| + 1 <= |ChangedSlots(tree, changes)|
  {
    SubsetSize(done + {slot}, ChangedSlots(tree, changes));
  }

  lemma {:induction false} ImageSize(tree: Tree, keys: set<Key>)
    ensures |set key | key in keys :: Shard(tree, key)| <= |keys|
    decreases |keys|
  {
    hide Shard;
    if keys == {} {
      assert (set key | key in keys :: Shard(tree, key)) == {};
    } else {
      var one :| one in keys;
      var rest := keys - {one};
      ImageSize(tree, rest);
      var image := set key | key in rest :: Shard(tree, key);
      assert (set key | key in keys :: Shard(tree, key)) == image + {Shard(tree, one)};
    }
  }

  lemma SlotsAreFew(tree: Tree, changes: Changes)
    ensures |ChangedSlots(tree, changes)| <= |changes|
  {
    ImageSize(tree, changes.Keys);
    assert ChangedSlots(tree, changes) == set key | key in changes.Keys :: Shard(tree, key);
    assert |changes.Keys| == |changes|;
  }

  lemma GroupedParts(tree: Tree, changes: Changes, grouped: map<string, Changes>)
    requires Grouped(tree, changes, grouped)
    ensures grouped.Keys == ChangedSlots(tree, changes)
    ensures forall slot :: slot in grouped ==> grouped[slot] == ChangesAt(tree, changes, slot)
  {
  }

  lemma StartOfUpdate(codec: Codec, log: Records, flushed: nat, tree: Tree, children: map<string, TreeRef>, rows: Rows,
                      changes: Changes)
    requires codec.Sound() && flushed <= |log|
    requires ChildrenAt(codec, PagesOf(codec, log[..flushed]), tree, children, rows)
    ensures UpdatedAt(codec, PagesOf(codec, log), tree, children, rows, changes, {})
    ensures PendingAt(codec, PagesOf(codec, log[..flushed]), tree, children, rows, {})
    ensures DoneApply(tree, rows, changes, {})
  {
    hide LeafAt, Codec.Sound, PagesOf, Slice;
    PagesGrow(codec, log, flushed);
    ChildrenAreStable(codec, PagesOf(codec, log[..flushed]), PagesOf(codec, log), tree, children, rows);
  }

  lemma SliceInShard(tree: Tree, rows: Rows, slot: string)
    ensures forall key :: key in Slice(tree, rows, slot) ==> Shard(tree, key) == slot
  {
  }

  lemma PendingLeaf(codec: Codec, pages: Pages, tree: Tree, children: map<string, TreeRef>, rows: Rows,
                    done: set<string>, slot: string)
    requires codec.Sound() && PendingAt(codec, pages, tree, children, rows, done) && slot !in done
    ensures LeafAt(codec, pages, tree, Child(children, slot), Slice(tree, rows, slot))
  {
  }

  lemma SamePrefix(log: Records, more: Records, n: nat)
    requires AppendsPages(log, more) && n <= |log|
    ensures more[..n] == log[..n]
  {
  }

  lemma AppendsMore(a: Records, b: Records, c: Records)
    requires AppendsPages(a, b) && AppendsPages(b, c)
    ensures AppendsPages(a, c)
  {
  }

  lemma SlotFails(tree: Tree, rows: Rows, changes: Changes, slot: string)
    requires slot in ChangedSlots(tree, changes)
    ensures !Applicable(Slice(tree, rows, slot), ChangesAt(tree, changes, slot)) ==> !Applicable(rows, changes)
  {
  }

  lemma UpdateOneMore(codec: Codec, before: Records, log: Records, tree: Tree, children: map<string, TreeRef>, rows: Rows,
                      changes: Changes, done: set<string>, slot: string, child: Option<TreeRef>)
    requires codec.Sound() && AppendsPages(before, log) && slot !in done
    requires UpdatedAt(codec, PagesOf(codec, before), tree, children, rows, changes, done)
    requires LeafAt(codec, PagesOf(codec, log), tree, child, Override(Slice(tree, rows, slot), ChangesAt(tree, changes, slot)))
    ensures UpdatedAt(codec, PagesOf(codec, log), tree, WithChild(children, slot, child), rows, changes, done + {slot})
  {
    hide LeafAt, Codec.Sound, PagesOf, Slice, Override, ChangesAt, AppendsPages;
    PagesAppended(codec, before, log);
    var more := WithChild(children, slot, child);
    forall s ensures LeafAt(codec, PagesOf(codec, log), tree, Child(more, s), SliceAfter(tree, rows, changes, done + {slot}, s)) {
      if s != slot {
        assert Child(more, s) == Child(children, s);
        LeafIsStable(codec, PagesOf(codec, before), PagesOf(codec, log), tree, Child(children, s),
          SliceAfter(tree, rows, changes, done, s));
      }
    }
  }

  lemma LeafIsStable(codec: Codec, pages: Pages, larger: Pages, tree: Tree, ref: Option<TreeRef>, slice: Rows)
    requires codec.Sound() && Extends(pages, larger) && LeafAt(codec, pages, tree, ref, slice)
    ensures LeafAt(codec, larger, tree, ref, slice)
  {
    hide LeafHash, LeafEntries, Codec.Sound;
  }

  lemma PendingOneLess(codec: Codec, pages: Pages, tree: Tree, children: map<string, TreeRef>, rows: Rows,
                       done: set<string>, slot: string, child: Option<TreeRef>)
    requires codec.Sound() && PendingAt(codec, pages, tree, children, rows, done)
    ensures PendingAt(codec, pages, tree, WithChild(children, slot, child), rows, done + {slot})
  {
    hide LeafAt, Codec.Sound, Slice;
    var more := WithChild(children, slot, child);
    forall s | s !in done + {slot} ensures LeafAt(codec, pages, tree, Child(more, s), Slice(tree, rows, s)) {
      assert Child(more, s) == Child(children, s);
    }
  }

  lemma DoneOneMore(tree: Tree, rows: Rows, changes: Changes, done: set<string>, slot: string)
    requires DoneApply(tree, rows, changes, done)
    requires Applicable(Slice(tree, rows, slot), ChangesAt(tree, changes, slot))
    ensures DoneApply(tree, rows, changes, done + {slot})
  {
  }

  lemma AllUpdated(codec: Codec, pages: Pages, tree: Tree, children: map<string, TreeRef>, rows: Rows,
                   changes: Changes, done: set<string>)
    requires codec.Sound() && done == ChangedSlots(tree, changes)
    requires UpdatedAt(codec, pages, tree, children, rows, changes, done) && DoneApply(tree, rows, changes, done)
    ensures ChildrenAt(codec, pages, tree, children, Override(rows, changes)) && Applicable(rows, changes)
  {
    hide LeafAt, Codec.Sound, Slice, Override, Applicable;
    ApplicableBySlot(tree, rows, changes);
    forall slot ensures LeafAt(codec, pages, tree, Child(children, slot), Slice(tree, Override(rows, changes), slot)) {
      SliceOfOverride(tree, rows, changes, slot);
      if slot !in done {
        UntouchedSlot(tree, rows, changes, slot);
      }
      assert LeafAt(codec, pages, tree, Child(children, slot), SliceAfter(tree, rows, changes, done, slot));
    }
  }

  lemma UntouchedSlot(tree: Tree, rows: Rows, changes: Changes, slot: string)
    requires slot !in ChangedSlots(tree, changes)
    ensures Override(Slice(tree, rows, slot), ChangesAt(tree, changes, slot)) == Slice(tree, rows, slot)
  {
  }

  lemma EmptyRoot(codec: Codec, pages: Pages, tree: Tree, rows: Rows)
    requires codec.Sound() && ChildrenAt(codec, pages, tree, map[], rows)
    ensures Represents(codec, pages, tree, None, rows)
  {
    hide Shard, Codec.Sound;
    forall slot ensures Slice(tree, rows, slot) == map[] {
      assert LeafAt(codec, pages, tree, Child(map[], slot), Slice(tree, rows, slot));
    }
    forall key ensures key !in rows {
      assert key in rows ==> key in Slice(tree, rows, Shard(tree, key));
    }
  }

  lemma SomeChild(codec: Codec, pages: Pages, tree: Tree, children: map<string, TreeRef>, rows: Rows)
    requires codec.Sound() && ChildrenAt(codec, pages, tree, children, rows) && children != map[]
    ensures rows != map[]
  {
    hide IsLeaf, Codec.Sound;
    var slot :| slot in children;
    assert LeafAt(codec, pages, tree, Child(children, slot), Slice(tree, rows, slot));
  }

  lemma SomeRoot(codec: Codec, pages: Pages, tree: Tree, ref: TreeRef, rows: Rows)
    requires codec.Sound() && IsRoot(codec, pages, tree, ref, rows) && rows != map[]
    ensures Represents(codec, pages, tree, Some(ref), rows)
  {
  }

  lemma NoRoot(codec: Codec, pages: Pages, tree: Tree, rows: Rows)
    requires codec.Sound() && Represents(codec, pages, tree, None, rows)
    ensures rows == map[]
  {
  }

  lemma RootIsStored(codec: Codec, log: Records, tree: Tree, ref: TreeRef, rows: Rows)
    requires codec.Sound() && Represents(codec, PagesOf(codec, log), tree, Some(ref), rows)
    ensures Stored(codec, log, ref) && IsRoot(codec, PagesOf(codec, log), tree, ref, rows)
    ensures PagesOf(codec, log)[ref.offset].Branch? && PagesOf(codec, log)[ref.offset].depth == 0
    ensures DistinctFirst(PagesOf(codec, log)[ref.offset].children)
  {
    RootListsDistinct(codec, PagesOf(codec, log), tree, ref, rows);
  }

  lemma NothingChanges(codec: Codec, log: Records, flushed: nat, tree: Tree, root: Option<TreeRef>, rows: Rows)
    requires codec.Sound() && flushed <= |log| && Represents(codec, PagesOf(codec, log[..flushed]), tree, root, rows)
    ensures Represents(codec, PagesOf(codec, log), tree, root, Override(rows, map[])) && Applicable(rows, map[])
  {
    hide Represents, Codec.Sound, PagesOf;
    PagesGrow(codec, log, flushed);
    RepresentsIsStable(codec, PagesOf(codec, log[..flushed]), PagesOf(codec, log), tree, root, rows);
    assert Override(rows, map[]) == rows;
  }

  // ---- Listing the children ----

  lemma ChildSlots(codec: Codec, pages: Pages, tree: Tree, children: map<string, TreeRef>, rows: Rows, slots: seq<string>)
    requires codec.Sound() && ChildrenAt(codec, pages, tree, children, rows)
    requires Injective(CodePoints) && slots == Sorted(children.Keys, CodePoints)
    ensures slots == Slots(tree, rows)
    ensures forall i :: 0 <= i < |slots| ==> slots[i] in children
    ensures forall slot :: slot in children ==> IsLeaf(codec, pages, tree, children[slot], Slice(tree, rows, slot))
  {
    hide IsLeaf, Codec.Sound;
    forall slot ensures slot in children <==> slot in SlotSet(tree, rows) {
      SlotHasRows(tree, rows, slot);
      assert LeafAt(codec, pages, tree, Child(children, slot), Slice(tree, rows, slot));
    }
    assert children.Keys == SlotSet(tree, rows);
    forall slot | slot in children ensures IsLeaf(codec, pages, tree, children[slot], Slice(tree, rows, slot)) {
      assert LeafAt(codec, pages, tree, Child(children, slot), Slice(tree, rows, slot));
    }
    forall i | 0 <= i < |slots| ensures slots[i] in children {
      assert slots[i] in slots;
    }
  }

  ghost predicate ListsSlots(codec: Codec, pages: Pages, tree: Tree, rows: Rows, slots: seq<string>,
                             listed: seq<(string, TreeRef)>, logical: seq<(string, Hash, nat)>, count: nat)
    requires codec.Sound()
  {
    && |listed| == |logical| == |slots| && count == SliceSizes(tree, rows, slots)
    && forall i :: 0 <= i < |slots| ==>
      && listed[i].0 == slots[i] && IsLeaf(codec, pages, tree, listed[i].1, Slice(tree, rows, slots[i]))
      && logical[i] == SlotEntry(codec, tree, rows, slots[i])
  }

  lemma NothingListed(codec: Codec, pages: Pages, tree: Tree, rows: Rows)
    requires codec.Sound()
    ensures forall slots: seq<string> :: ListsSlots(codec, pages, tree, rows, slots[..0], [], [], 0)
  {
  }

  lemma ListOneMore(codec: Codec, pages: Pages, tree: Tree, rows: Rows, slots: seq<string>,
                    listed: seq<(string, TreeRef)>, logical: seq<(string, Hash, nat)>, count: nat,
                    slot: string, child: TreeRef)
    requires codec.Sound() && ListsSlots(codec, pages, tree, rows, slots, listed, logical, count)
    requires IsLeaf(codec, pages, tree, child, Slice(tree, rows, slot))
    ensures ListsSlots(codec, pages, tree, rows, slots + [slot], listed + [(slot, child)],
      logical + [(slot, child.logicalHash, child.count)], count + child.count)
  {
    hide LeafHash, LeafEntries, Codec.Sound, Slice;
    assert (slots + [slot])[..|slots|] == slots;
  }

  lemma AllListed(codec: Codec, pages: Pages, tree: Tree, rows: Rows, slots: seq<string>,
                  listed: seq<(string, TreeRef)>, logical: seq<(string, Hash, nat)>, count: nat)
    requires codec.Sound() && slots == Slots(tree, rows)
    requires ListsSlots(codec, pages, tree, rows, slots, listed, logical, count)
    ensures count == |rows| && LogicalBranch(tree, 0, count, logical) == RootLogical(codec, tree, rows)
    ensures |listed| == |slots| && forall i :: 0 <= i < |slots| ==>
      listed[i].0 == slots[i] && IsLeaf(codec, pages, tree, listed[i].1, Slice(tree, rows, slots[i]))
  {
    hide IsLeaf, Codec.Sound, SlotEntry, SliceSizes, Slots;
    SlotsCountAll(tree, rows);
  }

  lemma RootStored(codec: Codec, log: Records, file: Bytes, tree: Tree, rows: Rows, listed: seq<(string, TreeRef)>, ref: TreeRef)
    requires codec.Sound() && file == File(codec, log)
    requires ref == TreeRef(|file|, codec.hash(RootLogical(codec, tree, rows)), |rows|)
    requires var slots := Slots(tree, rows);
      |listed| == |slots| && forall i :: 0 <= i < |slots| ==>
        listed[i].0 == slots[i] && IsLeaf(codec, PagesOf(codec, log), tree, listed[i].1, Slice(tree, rows, slots[i]))
    ensures var page := Branch(tree, 0, listed, ref.logicalHash, ref.count);
      IsRoot(codec, PagesOf(codec, log + [PageRecord(page)]), tree, ref, rows)
  {
    hide LeafHash, LeafEntries, RootLogical, File, Codec.Sound, Slots, Slice;
    var page := Branch(tree, 0, listed, ref.logicalHash, ref.count);
    var more := log + [PageRecord(page)];
    PagesOfAppend(codec, log, PageRecord(page));
    assert AppendsPages(log, more);
    PagesAppended(codec, log, more);
  }

  function EntryFor(entries: Rows, key: Key): (Key, Row)
    requires key in entries
  {
    (key, entries[key])
  }

  lemma KeysAreInjective(codec: Codec)
    requires codec.Sound()
    ensures Injective(codec.keyBytes)
  {
  }

  lemma OrderedEntries(codec: Codec, entries: Rows, keys: seq<Key>, ordered: seq<(Key, Row)>)
    requires codec.Sound() && keys == Sorted(entries.Keys, codec.keyBytes) && |ordered| == |keys|
    requires forall i :: 0 <= i < |keys| ==> keys[i] in entries && ordered[i] == EntryFor(entries, keys[i])
    ensures ordered == LeafEntries(codec, entries) && |ordered| == |entries|
  {
  }

  lemma OnePage(log: Records, more: Records)
    requires more == log || exists page :: more == log + [PageRecord(page)]
    ensures AppendsPages(log, more)
  {
  }

  lemma NothingAppendedYet(log: Records)
    ensures AppendsPages(log, log)
  {
  }

  lemma LeafStored(codec: Codec, log: Records, file: Bytes, tree: Tree, entries: Rows, ref: TreeRef)
    requires codec.Sound() && file == File(codec, log)
    requires ref == TreeRef(|file|, codec.hash(LogicalLeaf(tree, 1, |entries|, LeafEntries(codec, entries))), |entries|)
    ensures var page := Leaf(tree, 1, LeafEntries(codec, entries), ref.logicalHash, ref.count);
      IsLeaf(codec, PagesOf(codec, log + [PageRecord(page)]), tree, ref, entries)
  {
    hide LeafEntries, File, Codec.Sound;
    PagesOfAppend(codec, log, PageRecord(Leaf(tree, 1, LeafEntries(codec, entries), ref.logicalHash, ref.count)));
  }

  lemma LeafHashIs(codec: Codec, tree: Tree, rows: Rows)
    requires codec.Sound()
    ensures LeafHash(codec, tree, rows) == codec.hash(LogicalLeaf(tree, 1, |rows|, LeafEntries(codec, rows)))
  {
  }

  lemma RootHashIs(codec: Codec, tree: Tree, rows: Rows)
    requires codec.Sound()
    ensures RootHash(codec, tree, rows) == codec.hash(RootLogical(codec, tree, rows))
  {
  }

  lemma LeafIsStored(codec: Codec, log: Records, tree: Tree, ref: TreeRef, slice: Rows)
    requires codec.Sound() && LeafAt(codec, PagesOf(codec, log), tree, Some(ref), slice)
    ensures Stored(codec, log, ref) && PagesOf(codec, log)[ref.offset].Leaf?
    ensures PagesOf(codec, log)[ref.offset].entries == LeafEntries(codec, slice)
  {
  }

  lemma NoLeaf(codec: Codec, pages: Pages, tree: Tree, slice: Rows)
    requires codec.Sound() && LeafAt(codec, pages, tree, None, slice)
    ensures slice == map[]
  {
  }

  lemma NoLeafNow(codec: Codec, pages: Pages, tree: Tree)
    requires codec.Sound()
    ensures LeafAt(codec, pages, tree, None, map[])
  {
  }

  lemma SomeLeaf(codec: Codec, pages: Pages, tree: Tree, ref: TreeRef, slice: Rows)
    requires codec.Sound() && IsLeaf(codec, pages, tree, ref, slice) && slice != map[]
    ensures LeafAt(codec, pages, tree, Some(ref), slice)
  {
  }
}
