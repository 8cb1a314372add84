/** The reader: one captured commit list, and the traversal that materializes a tree. */
module ArchiveReader {
  import opened Wrappers
  import opened Text
  import opened Model
  import opened Shards
  import opened Wire
  import opened Log
  import opened Trees
  import opened PageStore
  import opened ArchiveWriter
  import opened RadixTree

  // ---- What a traversal means ----

  /** A page of the given tree, read afresh. */
  function TypedPage(codec: Codec, file: Bytes, ref: TreeRef, tree: Tree): Option<Page> {
    FreshPage(codec, file, ref, Some(tree))
  }

  /** The leaf in `slot` holds distinct identities of that shard: exactly `slice`. */
  ghost predicate LeafReads(codec: Codec, file: Bytes, tree: Tree, ref: TreeRef, slot: string, slice: Rows) {
    var page := TypedPage(codec, file, ref, tree);
    && page.Some? && page.value.Leaf? && page.value.depth == 1
    && DistinctFirst(page.value.entries) && Lists(page.value.entries, slice)
    && forall key :: key in slice ==> Shard(tree, key) == slot
  }

  ghost predicate ChildrenRead(codec: Codec, file: Bytes, tree: Tree, children: seq<(string, TreeRef)>, rows: Rows) {
    && DistinctFirst(children)
    && (forall i :: 0 <= i < |children| ==>
         LeafReads(codec, file, tree, children[i].1, children[i].0, Slice(tree, rows, children[i].0)))
    && forall key :: key in rows ==> exists i :: 0 <= i < |children| && children[i].0 == Shard(tree, key)
  }

  /** The tree under `ref` is well formed and holds exactly `rows`. */
  ghost predicate TreeReads(codec: Codec, file: Bytes, tree: Tree, root: Option<TreeRef>, rows: Rows) {
    match root
    case None => rows == map[]
    case Some(ref) =>
      var page := TypedPage(codec, file, ref, tree);
      page.Some? && page.value.Branch? && page.value.depth == 0
      && ChildrenRead(codec, file, tree, page.value.children, rows)
  }

  /** Every tree that the writer stores reads as the map that it represents. */
  lemma RepresentedReads(codec: Codec, log: Records, tree: Tree, root: Option<TreeRef>, rows: Rows)
    requires codec.Sound() && Admissible(codec, log)
    requires Represents(codec, PagesOf(codec, log), tree, root, rows)
    ensures TreeReads(codec, File(codec, log), tree, root, rows)
  {
    hide TypedPage, ChildrenRead, Codec.Sound, Admissible, IsRoot, File, PagesOf;
    if root.Some? {
      RootIsStored(codec, log, tree, root.value, rows);
      StoredReads(codec, log, tree, root.value);
      RootPage(codec, PagesOf(codec, log), tree, root.value, rows);
      RepresentedChildren(codec, log, tree, root.value, rows);
    }
  }

  lemma RootPage(codec: Codec, pages: Pages, tree: Tree, ref: TreeRef, rows: Rows)
    requires codec.Sound() && IsRoot(codec, pages, tree, ref, rows)
    ensures ref.offset in pages && pages[ref.offset].tree == tree
  {
  }

  lemma StoredReads(codec: Codec, log: Records, tree: Tree, ref: TreeRef)
    requires codec.Sound() && Admissible(codec, log) && Stored(codec, log, ref)
    ensures PagesOf(codec, log)[ref.offset].tree == tree ==>
      TypedPage(codec, File(codec, log), ref, tree) == Some(PagesOf(codec, log)[ref.offset])
  {
    hide ReadPageAt, Codec.Sound, Admissible, File, PagesOf;
    StoredPageReads(codec, log, ref);
  }

  lemma RepresentedChildren(codec: Codec, log: Records, tree: Tree, ref: TreeRef, rows: Rows)
    requires codec.Sound() && Admissible(codec, log) && IsRoot(codec, PagesOf(codec, log), tree, ref, rows)
    ensures ChildrenRead(codec, File(codec, log), tree, PagesOf(codec, log)[ref.offset].children, rows)
  {
    hide TypedPage, Codec.Sound, Admissible, File, PagesOf, IsLeaf, LeafReads, RootHash, Shard;
    var children, slots := PagesOf(codec, log)[ref.offset].children, Slots(tree, rows);
    RootListsDistinct(codec, PagesOf(codec, log), tree, ref, rows);
    forall i | 0 <= i < |children|
      ensures LeafReads(codec, File(codec, log), tree, children[i].1, children[i].0, Slice(tree, rows, children[i].0))
    {
      RepresentedLeaf(codec, log, tree, children[i].1, rows, slots[i]);
    }
    forall key | key in rows ensures exists i :: 0 <= i < |children| && children[i].0 == Shard(tree, key) {
      assert Shard(tree, key) in slots;
      var i :| 0 <= i < |slots| && slots[i] == Shard(tree, key);
      assert children[i].0 == Shard(tree, key);
    }
  }

  lemma RepresentedLeaf(codec: Codec, log: Records, tree: Tree, ref: TreeRef, rows: Rows, slot: string)
    requires codec.Sound() && Admissible(codec, log)
    requires IsLeaf(codec, PagesOf(codec, log), tree, ref, Slice(tree, rows, slot))
    ensures LeafReads(codec, File(codec, log), tree, ref, slot, Slice(tree, rows, slot))
  {
    hide TypedPage, Codec.Sound, Admissible, File, PagesOf, LeafHash, LeafEntries, Lists;
    StoredReads(codec, log, tree, ref);
    LeafListsRows(codec, Slice(tree, rows, slot));
    SliceInShard(tree, rows, slot);
  }

  // ---- The traversal ----

  type Pending = (TreeRef, Option<string>)

  /** The stack after a branch pushed its children: the first child is on top. */
  function Pushed(children: seq<(string, TreeRef)>): (stack: seq<Pending>)
    ensures |stack| == |children|
    ensures forall i :: 0 <= i < |stack| ==> stack[i].1.Some?
  {
    if children == [] then []
    else Pushed(children[1..]) + [(children[0].1, Some(children[0].0))]
  }

  class Archive {
    const codec: Codec
    const file: Bytes
    const cache: PageCache
    const commits: seq<Manifest>
    var entries: map<string, Manifest>

    constructor (codec: Codec, file: Bytes, cacheBytes: nat, commits: seq<Manifest>)
      ensures Valid() && this.codec == codec && this.file == file && this.commits == commits
      ensures fresh(this) && fresh(cache)
    {
      this.codec, this.file, this.commits := codec, file, commits;
      cache := new PageCache(cacheBytes);
      entries := BySha(commits);
    }

    ghost predicate Valid()
      reads this, cache
    {
      cache.Valid() && AllMirror(codec, file, cache.entries) && entries == BySha(commits)
    }

    lemma ValidEntries()
      requires Valid()
      ensures entries == BySha(commits)
    {
    }

    /** _typed_page: fresh pages are compared with the reference and the tree, cached ones are not. */
    method ReadTyped(ref: TreeRef, tree: Tree) returns (page: Option<Page>)
      requires Valid()
      modifies cache
      ensures Valid()
      ensures TypedPage(codec, file, ref, tree).Some? ==> page == TypedPage(codec, file, ref, tree)
    {
      hide ReadPageAt, Mirrors;
      page := cache.ReadPage(codec, file, ref, Some(tree), file);
    }

    /** _records: one root, then its leaves in listing order, merged into one dictionary. */
    method Records(root: Option<TreeRef>, tree: Tree, ghost rows: Rows) returns (r: Result<Rows>)
      requires Valid()
      modifies cache
      ensures Valid()
      ensures TreeReads(codec, file, tree, root, rows) ==> r == Ok(rows)
    {
      hide *;
      ghost var good := TreeReads(codec, file, tree, root, rows);
      NoTree(codec, file, tree, root, rows);
      if root.None? {
        return Ok(map[]);
      }
      var page := ReadTyped(root.value, tree);
      RootReads(codec, file, tree, root, rows);
      if page.None? || !page.value.Branch? || page.value.depth != 0 {
        return Failure("invalid branch");
      }
      var children := page.value.children;
      var named := RecordMap(children);
      if named.Failure? {
        return Failure("duplicate shard");
      }
      var stack := PushAll(children);
      var records: Rows := map[];
      ghost var i := 0;
      NothingCovered(tree, rows, children);
      while stack != []
        invariant Valid()
        invariant i <= |children| && stack == Pushed(children[i..])
        invariant good ==> records == CoveredBy(tree, rows, children[..i])
        decreases |stack|
      {
        PoppedIsNext(children, i);
        var (ref, slot) := stack[|stack| - 1];
        stack := stack[..|stack| - 1];
        var leaf := ReadLeaf(ref, slot.value, tree, Slice(tree, rows, slot.value));
        if good {
          NextLeafReads(codec, file, tree, children, rows, i);
          CoverOneMore(codec, file, tree, children, rows, i);
        }
        if leaf.Failure? {
          return Failure("invalid leaf");
        }
        if records.Keys * leaf.value.Keys != {} {
          return Failure("duplicate identity");
        }
        records := records + leaf.value;
        i := i + 1;
      }
      AllPopped(children, i);
      if good {
        AllCovered(codec, file, tree, children, rows);
      }
      assert children[..|children|] == children;
      r := Ok(records);
    }

    /** The leaf half of the loop: depth, distinct identities, the right shard. */
    method ReadLeaf(ref: TreeRef, slot: string, tree: Tree, ghost slice: Rows) returns (r: Result<Rows>)
      requires Valid()
      modifies cache
      ensures Valid()
      ensures LeafReads(codec, file, tree, ref, slot, slice) ==> r == Ok(slice)
      ensures r.Ok? ==> forall key :: key in r.value ==> Shard(tree, key) == slot
    {
      hide TypedPage, Shard, Valid;
      var page := ReadTyped(ref, tree);
      if page.None? || !page.value.Leaf? || page.value.depth != 1 {
        return Failure("invalid leaf depth");
      }
      var recorded := RecordMap(page.value.entries);
      if recorded.Failure? {
        return Failure("duplicate identity");
      }
      if LeafReads(codec, file, tree, ref, slot, slice) {
        ListsIsFunctional(page.value.entries, recorded.value, slice);
      }
      if exists key | key in recorded.value :: Shard(tree, key) != slot {
        return Failure("identity is stored in the wrong shard");
      }
      r := Ok(recorded.value);
    }

    /** The manifest that load_rows and load_coverage look up; None stands for KeyError. */
    function Entry(commit: Option<string>): Option<Manifest>
      reads this
    {
      match commit
      case Some(sha) => if sha in entries then Some(entries[sha]) else None
      case None =>
        if commits == [] then None
        else if commits[|commits| - 1].sha in entries then Some(entries[commits[|commits| - 1].sha]) else None
    }

    /** load_rows */
    method LoadRows(commit: Option<string>, ghost nodes: Rows, ghost edges: Rows) returns (r: Result<(Rows, Rows)>)
      requires Valid()
      modifies cache
      ensures Valid() && (Entry(commit).None? ==> r.Failure?)
      ensures Entry(commit).Some?
        && TreeReads(codec, file, Nodes, Entry(commit).value.nodeRoot, nodes)
        && TreeReads(codec, file, Edges, Entry(commit).value.edgeRoot, edges)
        ==> r == Ok((nodes, edges))
    {
      hide TreeReads, Valid;
      var item := Entry(commit);
      if item.None? {
        return Failure("KeyError");
      }
      var nodeRows := Records(item.value.nodeRoot, Nodes, nodes);
      if nodeRows.Failure? {
        return Failure(nodeRows.reason);
      }
      var edgeRows := Records(item.value.edgeRoot, Edges, edges);
      if edgeRows.Failure? {
        return Failure(edgeRows.reason);
      }
      r := Ok((nodeRows.value, edgeRows.value));
    }

    /** load_coverage: None for a commit that recorded no coverage. */
    method LoadCoverage(commit: Option<string>, ghost rows: Rows)
      returns (r: Result<Option<(Rows, CoverageMetadata)>>)
      requires Valid()
      modifies cache
      ensures Valid() && (Entry(commit).None? ==> r.Failure?)
      ensures Entry(commit).Some? && Entry(commit).value.coverage.None? ==> r == Ok(None)
      ensures Entry(commit).Some? && Entry(commit).value.coverage.Some? && !CoverageManifestValid(codec, Entry(commit).value)
        ==> r.Failure?
      ensures Entry(commit).Some? && Entry(commit).value.coverage.Some? && CoverageManifestValid(codec, Entry(commit).value)
        && TreeReads(codec, file, Coverage, Entry(commit).value.coverage.value.root, rows)
        && ValidCoverageSnapshot(rows, Entry(commit).value.coverage.value.metadata, Entry(commit).value.project)
        && |rows| == Entry(commit).value.coverage.value.rows
        ==> r == Ok(Some((rows, Entry(commit).value.coverage.value.metadata)))
      ensures r.Ok? && r.value.Some? ==> Entry(commit).Some? && IsConsistent(codec, Entry(commit).value, r.value.value)
    {
      hide TreeReads, Valid, ValidMetadata;
      var item := Entry(commit);
      if item.None? {
        return Failure("KeyError");
      }
      var manifest := item.value;
      if manifest.coverage.None? {
        return Ok(None);
      }
      if !CoverageManifestValid(codec, manifest) {
        return Failure("invalid coverage metadata");
      }
      var fields := manifest.coverage.value;
      var found := Records(fields.root, Coverage, rows);
      if found.Failure? {
        return Failure(found.reason);
      }
      if !ValidCoverageSnapshot(found.value, fields.metadata, manifest.project) {
        return Failure("invalid coverage rows");
      }
      if |found.value| != fields.rows {
        return Failure("coverage count does not match its manifest");
      }
      r := Ok(Some((found.value, fields.metadata)));
    }
  }

  /** _coverage_manifest */
  predicate CoverageManifestValid(codec: Codec, manifest: Manifest)
    requires manifest.coverage.Some?
  {
    var fields := manifest.coverage.value;
    && manifest.project != ""
    && (fields.root.None? <==> fields.rows == 0)
    && (fields.root.Some? ==>
      && fields.root.value.offset >= MAGIC_SIZE && fields.root.value.count == fields.rows
      && IsHexDigest(fields.root.value.logicalHash))
    && ValidMetadata(fields.metadata, manifest.project) && DigestsAgree(codec, manifest)
  }

  /** The fields of the manifest agree with each other and with what was read, down to the recorded digests. */
  predicate IsConsistent(codec: Codec, manifest: Manifest, read: (Rows, CoverageMetadata)) {
    manifest.coverage.Some? &&
    var fields := manifest.coverage.value;
    && manifest.project != "" && fields.metadata == read.1 && fields.rows == |read.0|
    && (fields.root.None? ==> |read.0| == 0 && fields.digest == codec.coverageHash(None, read.1))
    && (fields.root.Some? ==>
      && fields.root.value.offset >= MAGIC_SIZE && fields.root.value.count == |read.0| && |read.0| > 0
      && fields.digest == codec.coverageHash(Some(fields.root.value.logicalHash), read.1))
    && fields.materialization == codec.materializationHash(manifest.graphDigest, fields.digest)
  }

  /** coverage_digest and materialization_digest, as the manifest records them */
  predicate DigestsAgree(codec: Codec, manifest: Manifest)
    requires manifest.coverage.Some?
  {
    var fields := manifest.coverage.value;
    && fields.digest == codec.coverageHash(HashOf(fields.root), fields.metadata)
    && fields.materialization == codec.materializationHash(manifest.graphDigest, fields.digest)
  }

  /** stack.extend(reversed(...)) */
  method PushAll(children: seq<(string, TreeRef)>) returns (stack: seq<Pending>)
    ensures stack == Pushed(children)
  {
    stack := [];
    var i: nat := |children|;
    while i > 0
      invariant i <= |children| && stack == Pushed(children[i..])
    {
      i := i - 1;
      PoppedIsNext(children, i);
      stack := stack + [(children[i].1, Some(children[i].0))];
    }
    assert children[0..] == children;
  }

  lemma PoppedIsNext(children: seq<(string, TreeRef)>, i: nat)
    ensures i < |children| ==>
      Pushed(children[i..]) == Pushed(children[i + 1..]) + [(children[i].1, Some(children[i].0))]
    ensures i == |children| ==> Pushed(children[i..]) == []
  {
  }

  function CoveredBy(tree: Tree, rows: Rows, children: seq<(string, TreeRef)>): Rows {
    map key | key in rows && Names(children, Shard(tree, key)) :: rows[key]
  }

  predicate Names(children: seq<(string, TreeRef)>, slot: string) {
    exists i | 0 <= i < |children| :: children[i].0 == slot
  }

  lemma NoTree(codec: Codec, file: Bytes, tree: Tree, root: Option<TreeRef>, rows: Rows)
    ensures TreeReads(codec, file, tree, root, rows) && root.None? ==> rows == map[]
  {
  }

  lemma RootReads(codec: Codec, file: Bytes, tree: Tree, root: Option<TreeRef>, rows: Rows)
    ensures TreeReads(codec, file, tree, root, rows) && root.Some? ==>
      var page := TypedPage(codec, file, root.value, tree);
      && page.Some? && page.value.Branch? && page.value.depth == 0
      && ChildrenRead(codec, file, tree, page.value.children, rows) && DistinctFirst(page.value.children)
  {
  }

  lemma NothingCovered(tree: Tree, rows: Rows, children: seq<(string, TreeRef)>)
    ensures CoveredBy(tree, rows, children[..0]) == map[]
  {
  }

  lemma AllPopped(children: seq<(string, TreeRef)>, i: nat)
    requires i <= |children| && Pushed(children[i..]) == []
    ensures i == |children|
  {
  }

  lemma NextLeafReads(codec: Codec, file: Bytes, tree: Tree, children: seq<(string, TreeRef)>, rows: Rows, i: nat)
    requires ChildrenRead(codec, file, tree, children, rows) && i < |children|
    ensures LeafReads(codec, file, tree, children[i].1, children[i].0, Slice(tree, rows, children[i].0))
  {
  }

  /** Leaves of different shards share no identity, so the next one extends what is covered. */
  lemma CoverOneMore(codec: Codec, file: Bytes, tree: Tree, children: seq<(string, TreeRef)>, rows: Rows, i: nat)
    requires ChildrenRead(codec, file, tree, children, rows) && i < |children|
    ensures var covered, slice := CoveredBy(tree, rows, children[..i]), Slice(tree, rows, children[i].0);
      covered.Keys * slice.Keys == {} && covered + slice == CoveredBy(tree, rows, children[..i + 1])
  {
    hide LeafReads, Shard, CoveredBy, Slice;
    NamesOneMore(children, i);
    CoverUnion(tree, rows, children[..i], children[..i + 1], children[i].0);
  }

  lemma CoverUnion(tree: Tree, rows: Rows, some: seq<(string, TreeRef)>, more: seq<(string, TreeRef)>, slot: string)
    requires !Names(some, slot) && forall s :: Names(more, s) <==> Names(some, s) || s == slot
    ensures CoveredBy(tree, rows, some).Keys * Slice(tree, rows, slot).Keys == {}
    ensures CoveredBy(tree, rows, some) + Slice(tree, rows, slot) == CoveredBy(tree, rows, more)
  {
    hide Shard, Names;
  }

  lemma NamesOneMore(children: seq<(string, TreeRef)>, i: nat)
    requires DistinctFirst(children) && i < |children|
    ensures !Names(children[..i], children[i].0)
    ensures forall slot :: Names(children[..i + 1], slot) <==> Names(children[..i], slot) || slot == children[i].0
  {
  }

  lemma AllCovered(codec: Codec, file: Bytes, tree: Tree, children: seq<(string, TreeRef)>, rows: Rows)
    requires ChildrenRead(codec, file, tree, children, rows)
    ensures CoveredBy(tree, rows, children) == rows
  {
  }

  /** Looking a sha up finds its last commit. */
  lemma {:induction false} LastBySha(commits: seq<Manifest>, i: nat)
    requires i < |commits| && forall j :: i < j < |commits| ==> commits[j].sha != commits[i].sha
    ensures commits[i].sha in BySha(commits) && BySha(commits)[commits[i].sha] == commits[i]
  {
    var init := commits[..|commits| - 1];
    if i < |commits| - 1 {
      assert forall j :: i < j < |init| ==> init[j].sha == commits[j].sha;
      LastBySha(init, i);
    }
  }

  /** A dictionary comprehension over the commits: a sha names its last commit. */
  function BySha(commits: seq<Manifest>): map<string, Manifest> {
    if commits == [] then map[]
    else BySha(commits[..|commits| - 1])[commits[|commits| - 1].sha := commits[|commits| - 1]]
  }
}
