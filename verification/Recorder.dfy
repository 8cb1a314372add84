/** Recording generations: each append folds a capture into the trees of the last commit, and every
commit keeps reading as the fold of the captures up to it. */
module Recorder {
  import opened Wrappers
  import opened Model
  import opened Text
  import opened Wire
  import opened Log
  import opened Trees
  import opened ArchiveWriter
  import RadixTree
  import opened ArchiveReader

  datatype CoverageCapture = CoverageCapture(rows: Changes, metadata: CoverageMetadata, snapshot: bool)

  /** Full rows, or the exact mutations since the last generation. */
  datatype Capture = Capture(nodes: Changes, edges: Changes, snapshot: bool, coverage: Option<CoverageCapture>)

  datatype CoverageState = CoverageState(rows: Rows, metadata: CoverageMetadata)

  /** What one archived commit stands for. */
  datatype Generation = Generation(nodes: Rows, edges: Rows, coverage: Option<CoverageState>)

  const EMPTY := Generation(map[], map[], None)

  // ---- The fold ----

  predicate Complete(changes: Changes) {
    forall key | key in changes :: changes[key].Some?
  }

  function Fold(rows: Rows, changes: Changes): Result<Rows> {
    if Applicable(rows, changes) then Ok(Override(rows, changes)) else Failure("cannot delete absent identity")
  }

  /** The row that validate_coverage sees for a deletion. */
  function Checked(changes: Changes): Rows {
    map key | key in changes :: if changes[key].Some? then changes[key].value else CoverageRow("")
  }

  function NextCoverage(coverage: Option<CoverageState>, capture: Option<CoverageCapture>, project: string)
    : Result<Option<CoverageState>>
  {
    match capture
    case None => if coverage.Some? then Failure("generation lost its coverage attachment") else Ok(None)
    case Some(found) =>
      if found.snapshot && !Complete(found.rows) then Failure("coverage snapshot contains deletions")
      else if !found.snapshot && coverage.None? then Failure("coverage mutations have no predecessor")
      else if !ValidCoverageSnapshot(Checked(found.rows), found.metadata, project) then Failure("invalid coverage")
      else
        match Fold(if found.snapshot then map[] else coverage.value.rows, found.rows)
        case Failure(reason) => Failure(reason)
        case Ok(rows) => Ok(Some(CoverageState(rows, found.metadata)))
  }

  function NextGraph(last: Generation, capture: Capture, project: string): Result<(Rows, Rows)> {
    if capture.snapshot && !(Complete(capture.nodes) && Complete(capture.edges)) then
      Failure("complete graph snapshot contains deletions")
    else if capture.snapshot && !ValidGraph(Override(map[], capture.nodes), Override(map[], capture.edges), project) then
      Failure("invalid graph")
    else
      match Fold(if capture.snapshot then map[] else last.nodes, capture.nodes)
      case Failure(reason) => Failure(reason)
      case Ok(nodes) =>
        match Fold(if capture.snapshot then map[] else last.edges, capture.edges)
        case Failure(reason) => Failure(reason)
        case Ok(edges) => Ok((nodes, edges))
  }

  /** The generation after a capture, or why the capture is refused. */
  function Next(last: Generation, capture: Capture, project: string): Result<Generation> {
    match NextGraph(last, capture, project)
    case Failure(reason) => Failure(reason)
    case Ok((nodes, edges)) =>
      match NextCoverage(last.coverage, capture.coverage, project)
      case Failure(reason) => Failure(reason)
      case Ok(coverage) => Ok(Generation(nodes, edges, coverage))
  }

  // ---- What a log archives ----

  ghost predicate CoverageHolds(codec: Codec, pages: Pages, manifest: Manifest, coverage: Option<CoverageState>)
    requires codec.Sound()
  {
    match manifest.coverage
    case None => coverage.None?
    case Some(fields) =>
      && coverage.Some? && fields.metadata == coverage.value.metadata && fields.rows == |coverage.value.rows|
      && Represents(codec, pages, Coverage, fields.root, coverage.value.rows) && DigestsAgree(codec, manifest)
      && ValidCoverageSnapshot(coverage.value.rows, fields.metadata, manifest.project)
  }

  /** The manifest's trees store the generation. */
  ghost predicate Holds(codec: Codec, pages: Pages, manifest: Manifest, generation: Generation)
    requires codec.Sound()
  {
    && Represents(codec, pages, Nodes, manifest.nodeRoot, generation.nodes)
    && Represents(codec, pages, Edges, manifest.edgeRoot, generation.edges)
    && manifest.graphDigest == GraphDigest(codec, generation.nodes, generation.edges)
    && CoverageHolds(codec, pages, manifest, generation.coverage)
  }

  /** The commits of the log are the generations of the history, each stored in pages before it. */
  ghost predicate Archives(codec: Codec, log: Records, history: seq<Generation>)
    requires codec.Sound()
  {
    if log == [] then history == []
    else
      var init, last := log[..|log| - 1], log[|log| - 1];
      if last.CommitRecord? || last.BareCommit? then
        && history != [] && Holds(codec, PagesOf(codec, init), last.manifest, history[|history| - 1])
        && Archives(codec, init, history[..|history| - 1])
      else Archives(codec, init, history)
  }

  function Latest(history: seq<Generation>): Generation {
    if history == [] then EMPTY else history[|history| - 1]
  }

  lemma {:induction false} ArchivesCount(codec: Codec, log: Records, history: seq<Generation>)
    requires codec.Sound() && Archives(codec, log, history)
    ensures |Commits(log)| == |history|
  {
    hide Holds, Codec.Sound;
    if log != [] {
      var init, last := log[..|log| - 1], log[|log| - 1];
      ArchivesCount(codec, init,
        if last.CommitRecord? || last.BareCommit? then history[..|history| - 1] else history);
    }
  }

  lemma HoldsIsStable(codec: Codec, pages: Pages, larger: Pages, manifest: Manifest, generation: Generation)
    requires codec.Sound() && Extends(pages, larger) && Holds(codec, pages, manifest, generation)
    ensures Holds(codec, larger, manifest, generation)
  {
    hide Represents, Codec.Sound, GraphDigest, ValidCoverageSnapshot;
    RepresentsIsStable(codec, pages, larger, Nodes, manifest.nodeRoot, generation.nodes);
    RepresentsIsStable(codec, pages, larger, Edges, manifest.edgeRoot, generation.edges);
    if manifest.coverage.Some? {
      RepresentsIsStable(codec, pages, larger, Coverage, manifest.coverage.value.root, generation.coverage.value.rows);
    }
  }

  /** Whatever is appended later, commit i still stores generation i. */
  lemma {:induction false} HistoryHolds(codec: Codec, log: Records, history: seq<Generation>, i: nat)
    requires codec.Sound() && Archives(codec, log, history) && i < |history|
    ensures i < |Commits(log)| && Holds(codec, PagesOf(codec, log), Commits(log)[i], history[i])
  {
    hide Holds, Codec.Sound, PagesOf;
    ArchivesCount(codec, log, history);
    var n := |log| - 1;
    var init, last := log[..n], log[n];
    PagesGrow(codec, log, n);
    if last.CommitRecord? || last.BareCommit? {
      ArchivesCount(codec, init, history[..|history| - 1]);
      if i == |history| - 1 {
        HoldsIsStable(codec, PagesOf(codec, init), PagesOf(codec, log), last.manifest, history[i]);
      } else {
        HistoryHolds(codec, init, history[..|history| - 1], i);
        HoldsIsStable(codec, PagesOf(codec, init), PagesOf(codec, log), Commits(init)[i], history[i]);
      }
    } else {
      HistoryHolds(codec, init, history, i);
      HoldsIsStable(codec, PagesOf(codec, init), PagesOf(codec, log), Commits(init)[i], history[i]);
    }
  }

  lemma {:induction false} ArchivesPages(codec: Codec, log: Records, more: Records, history: seq<Generation>)
    requires codec.Sound() && Archives(codec, log, history) && RadixTree.AppendsPages(log, more)
    ensures Archives(codec, more, history)
    decreases |more|
  {
    hide Holds, Codec.Sound;
    if more != log {
      assert RadixTree.AppendsPages(log, more[..|more| - 1]);
      ArchivesPages(codec, log, more[..|more| - 1], history);
    }
  }

  ghost predicate ValidCoverageRows(coverage: Option<CoverageState>) {
    coverage.Some? ==> forall key :: key in coverage.value.rows ==> ValidCoverage(key, coverage.value.rows[key])
  }

  lemma NextParts(last: Generation, capture: Capture, project: string)
    ensures Next(last, capture, project).Failure? <==>
      NextGraph(last, capture, project).Failure? || NextCoverage(last.coverage, capture.coverage, project).Failure?
    ensures Next(last, capture, project).Ok? ==> Next(last, capture, project).value == Generation(
      NextGraph(last, capture, project).value.0, NextGraph(last, capture, project).value.1,
      NextCoverage(last.coverage, capture.coverage, project).value)
  {
    hide NextGraph, NextCoverage;
  }

  /** Valid rows stay valid under checked mutations. */
  lemma NextCoverageValid(last: Generation, capture: Capture, project: string)
    requires ValidCoverageRows(last.coverage) && Next(last, capture, project).Ok?
    ensures var coverage := Next(last, capture, project).value.coverage;
      && ValidCoverageRows(coverage)
      && (coverage.Some? ==> ValidCoverageSnapshot(coverage.value.rows, coverage.value.metadata, project))
  {
    hide NextGraph, ValidMetadata, ValidCoverage;
    if capture.coverage.Some? {
      var found := capture.coverage.value;
      var checked := Checked(found.rows);
      var rows := if found.snapshot then map[] else last.coverage.value.rows;
      forall key | key in Override(rows, found.rows) ensures ValidCoverage(key, Override(rows, found.rows)[key]) {
        if key in found.rows {
          assert ValidCoverage(key, checked[key]);
        }
      }
    }
  }

  lemma RootCounts(codec: Codec, pages: Pages, tree: Tree, root: Option<TreeRef>, rows: Rows)
    requires codec.Sound() && Represents(codec, pages, tree, root, rows)
    ensures |rows| == if root.Some? then root.value.count else 0
  {
  }

  lemma HoldsParts(codec: Codec, pages: Pages, manifest: Manifest, generation: Generation)
    requires codec.Sound()
    requires Represents(codec, pages, Nodes, manifest.nodeRoot, generation.nodes)
    requires Represents(codec, pages, Edges, manifest.edgeRoot, generation.edges)
    requires manifest.graphDigest == GraphDigest(codec, generation.nodes, generation.edges)
    requires CoverageHolds(codec, pages, manifest, generation.coverage)
    ensures Holds(codec, pages, manifest, generation)
  {
  }

  lemma CommitArchives(codec: Codec, base: Records, pages: Records, record: Record, history: seq<Generation>, next: Generation)
    requires codec.Sound() && Archives(codec, base, history) && RadixTree.AppendsPages(base, pages)
    requires record.CommitRecord? && Holds(codec, PagesOf(codec, pages), record.manifest, next)
    ensures Archives(codec, pages + [record], history + [next])
  {
    hide Holds, Codec.Sound, PagesOf, RadixTree.AppendsPages;
    ArchivesPages(codec, base, pages, history);
    assert (pages + [record])[..|pages|] == pages;
    assert (history + [next])[..|history|] == history;
  }

  /** What an append writes: pages, and behind them the commit whose trees store the generation. */
  ghost predicate RecordsGeneration(codec: Codec, before: Records, after: Records, manifest: Manifest, generation: Generation)
    requires codec.Sound()
  {
    exists pages, previous :: PagesAndCommit(codec, before, pages, after, manifest, previous, generation)
  }

  ghost predicate PagesAndCommit(codec: Codec, before: Records, pages: Records, after: Records, manifest: Manifest,
                                 previous: nat, generation: Generation)
    requires codec.Sound()
  {
    && RadixTree.AppendsPages(before, pages) && after == pages + [CommitRecord(manifest, previous)]
    && Holds(codec, PagesOf(codec, pages), manifest, generation)
  }

  lemma PagesThenCommit(codec: Codec, before: Records, pages: Records, manifest: Manifest, previous: nat,
                        generation: Generation)
    requires codec.Sound() && RadixTree.AppendsPages(before, pages)
    requires Holds(codec, PagesOf(codec, pages), manifest, generation)
    ensures RecordsGeneration(codec, before, pages + [CommitRecord(manifest, previous)], manifest, generation)
  {
    hide Holds;
    assert PagesAndCommit(codec, before, pages, pages + [CommitRecord(manifest, previous)], manifest, previous, generation);
  }

  // ---- The size of a generation ----

  ghost predicate GenerationWithin(codec: Codec, generation: Generation, bound: nat)
    requires codec.Sound()
  {
    && RadixTree.TreeWithin(codec, Nodes, generation.nodes, bound)
    && RadixTree.TreeWithin(codec, Edges, generation.edges, bound)
    && CoverageWithin(codec, generation.coverage, bound)
  }

  ghost predicate CoverageWithin(codec: Codec, coverage: Option<CoverageState>, bound: nat)
    requires codec.Sound()
  {
    coverage.Some? ==> RadixTree.TreeWithin(codec, Coverage, coverage.value.rows, bound)
  }

  /** A root of the tree that stores `rows`, wherever in a file it is. */
  ghost predicate IsRootOf(codec: Codec, tree: Tree, root: Option<TreeRef>, rows: Rows)
    requires codec.Sound()
  {
    match root
    case None => rows == map[]
    case Some(ref) =>
      rows != map[] && ref.offset < OFFSET_LIMIT && ref.logicalHash == RootHash(codec, tree, rows) && ref.count == |rows|
  }

  /** A manifest of the generation, wherever in a file its trees are. */
  ghost predicate IsManifestOf(codec: Codec, ordinal: nat, sha: string, project: string, provenance: string,
                               generation: Generation, manifest: Manifest)
    requires codec.Sound()
  {
    && manifest.ordinal == ordinal && manifest.sha == sha && manifest.project == project
    && manifest.provenance == provenance
    && IsRootOf(codec, Nodes, manifest.nodeRoot, generation.nodes)
    && IsRootOf(codec, Edges, manifest.edgeRoot, generation.edges)
    && manifest.graphDigest == GraphDigest(codec, generation.nodes, generation.edges)
    && manifest.coverage.Some? == generation.coverage.Some?
    && (manifest.coverage.Some? ==>
      && IsRootOf(codec, Coverage, manifest.coverage.value.root, generation.coverage.value.rows)
      && manifest.coverage.value.rows == |generation.coverage.value.rows|
      && manifest.coverage.value.metadata == generation.coverage.value.metadata
      && DigestsAgree(codec, manifest))
  }

  /** No commit of the generation needs more than `bound` bytes. */
  ghost predicate CommitWithin(codec: Codec, ordinal: nat, sha: string, project: string, provenance: string,
                               generation: Generation, bound: nat)
    requires codec.Sound()
  {
    forall manifest :: IsManifestOf(codec, ordinal, sha, project, provenance, generation, manifest) ==>
      ManifestWithin(codec, manifest, bound)
  }

  predicate ManifestWithin(codec: Codec, manifest: Manifest, bound: nat) {
    |Frame(codec, CommitRecord(manifest, 0))| + CHECKPOINT_SIZE <= bound && |codec.encodeManifest(manifest)| < UINT64
  }

  ghost predicate GraphFits(codec: Codec, last: Generation, capture: Capture, project: string, bound: nat)
    requires codec.Sound()
  {
    && NextGraph(last, capture, project).Ok?
    && RadixTree.TreeWithin(codec, Nodes, NextGraph(last, capture, project).value.0, bound)
    && RadixTree.TreeWithin(codec, Edges, NextGraph(last, capture, project).value.1, bound)
  }

  ghost predicate CoverageFits(codec: Codec, coverage: Option<CoverageState>, capture: Option<CoverageCapture>,
                               project: string, bound: nat)
    requires codec.Sound()
  {
    NextCoverage(coverage, capture, project).Ok? && CoverageWithin(codec, NextCoverage(coverage, capture, project).value, bound)
  }

  ghost predicate TreesFit(codec: Codec, last: Generation, capture: Capture, project: string, bound: nat)
    requires codec.Sound()
  {
    GraphFits(codec, last, capture, project, bound) && CoverageFits(codec, last.coverage, capture.coverage, project, bound)
  }

  ghost predicate BothFit(codec: Codec, oldNodes: Rows, nodes: Changes, oldEdges: Rows, edges: Changes, bound: nat)
    requires codec.Sound()
  {
    && Applicable(oldNodes, nodes) && RadixTree.TreeWithin(codec, Nodes, Override(oldNodes, nodes), bound)
    && Applicable(oldEdges, edges) && RadixTree.TreeWithin(codec, Edges, Override(oldEdges, edges), bound)
  }

  lemma TreesFitParts(codec: Codec, last: Generation, capture: Capture, project: string, bound: nat)
    requires codec.Sound()
    ensures TreesFit(codec, last, capture, project, bound) ==>
      GraphFits(codec, last, capture, project, bound) && CoverageFits(codec, last.coverage, capture.coverage, project, bound)
  {
    hide GraphFits, CoverageFits;
  }

  lemma BothFitParts(codec: Codec, oldNodes: Rows, nodes: Changes, oldEdges: Rows, edges: Changes, bound: nat)
    requires codec.Sound()
    ensures BothFit(codec, oldNodes, nodes, oldEdges, edges, bound) <==>
      && Applicable(oldNodes, nodes) && RadixTree.TreeWithin(codec, Nodes, Override(oldNodes, nodes), bound)
      && Applicable(oldEdges, edges) && RadixTree.TreeWithin(codec, Edges, Override(oldEdges, edges), bound)
  {
    hide RadixTree.TreeWithin, Applicable, Override;
  }

  /** The capture is accepted, and no record of the new generation needs more than `bound` bytes. */
  ghost predicate CaptureFits(codec: Codec, last: Generation, capture: Capture, ordinal: nat, sha: string, project: string,
                              provenance: string, bound: nat)
    requires codec.Sound()
  {
    && Next(last, capture, project).Ok?
    && GenerationWithin(codec, Next(last, capture, project).value, bound)
    && CommitWithin(codec, ordinal, sha, project, provenance, Next(last, capture, project).value, bound)
  }

  /** How many records an append may write: the changed leaves, the roots, and the commit. */
  function RecordCount(capture: Capture): nat {
    TreeCount(capture) + 1
  }

  function TreeCount(capture: Capture): nat {
    |capture.nodes| + 1 + (|capture.edges| + 1) + CoverageCount(capture.coverage)
  }

  function CoverageCount(capture: Option<CoverageCapture>): nat {
    if capture.Some? then |capture.value.rows| + 1 else 0
  }

  lemma CommitHasRoom(codec: Codec, file: Bytes, manifest: Manifest, previous: nat, bound: nat)
    requires ManifestWithin(codec, manifest, bound)
    ensures HasRoom(|file|, 1, bound) ==> Fits(codec, file, CommitRecord(manifest, previous))
    ensures Grew(|file|, |file| + |RecordBytes(codec, CommitRecord(manifest, previous), |file|)|, 1, bound)
  {
    CommitSize(codec, CommitRecord(manifest, previous), |file|);
  }

  lemma RootIsInside(codec: Codec, log: Records, tree: Tree, root: Option<TreeRef>, rows: Rows)
    requires codec.Sound() && Admissible(codec, log) && Represents(codec, PagesOf(codec, log), tree, root, rows)
    ensures IsRootOf(codec, tree, root, rows)
  {
    hide Admissible, PagesOf, RootHash;
    if root.Some? {
      RadixTree.OffsetIsInside(codec, log, root.value.offset);
    }
  }

  /** The manifest that is committed is one of the generation. */
  lemma HeldIsManifest(codec: Codec, log: Records, manifest: Manifest, generation: Generation)
    requires codec.Sound() && Admissible(codec, log) && Holds(codec, PagesOf(codec, log), manifest, generation)
    ensures IsManifestOf(codec, manifest.ordinal, manifest.sha, manifest.project, manifest.provenance, generation, manifest)
  {
    hide Admissible, PagesOf, RootHash, Represents, GraphDigest, ValidCoverageSnapshot, IsRootOf;
    RootIsInside(codec, log, Nodes, manifest.nodeRoot, generation.nodes);
    RootIsInside(codec, log, Edges, manifest.edgeRoot, generation.edges);
    if manifest.coverage.Some? {
      RootIsInside(codec, log, Coverage, manifest.coverage.value.root, generation.coverage.value.rows);
    }
  }

  lemma HeldIsWithin(codec: Codec, log: Records, manifest: Manifest, generation: Generation, bound: nat)
    requires codec.Sound() && Admissible(codec, log) && Holds(codec, PagesOf(codec, log), manifest, generation)
    requires CommitWithin(codec, manifest.ordinal, manifest.sha, manifest.project, manifest.provenance, generation, bound)
    ensures ManifestWithin(codec, manifest, bound)
  {
    hide Holds, IsManifestOf, ManifestWithin;
    HeldIsManifest(codec, log, manifest, generation);
  }

  /** A graph capture is refused as a whole, or both changes apply to what it starts from. */
  lemma NextGraphCases(last: Generation, capture: Capture, project: string)
    ensures var nodes, edges := if capture.snapshot then map[] else last.nodes, if capture.snapshot then map[] else last.edges;
      if capture.snapshot && !(Complete(capture.nodes) && Complete(capture.edges)
                               && ValidGraph(Override(map[], capture.nodes), Override(map[], capture.edges), project))
      then NextGraph(last, capture, project).Failure?
      else
        && (NextGraph(last, capture, project).Ok? <==> Applicable(nodes, capture.nodes) && Applicable(edges, capture.edges))
        && (NextGraph(last, capture, project).Ok? ==>
          NextGraph(last, capture, project).value == (Override(nodes, capture.nodes), Override(edges, capture.edges)))
  {
    hide Applicable, Override, ValidGraph, Complete;
  }

  lemma GraphFitsParts(codec: Codec, last: Generation, capture: Capture, project: string, bound: nat)
    requires codec.Sound()
    ensures GraphFits(codec, last, capture, project, bound) ==>
      && NextGraph(last, capture, project).Ok?
      && RadixTree.TreeWithin(codec, Nodes, NextGraph(last, capture, project).value.0, bound)
      && RadixTree.TreeWithin(codec, Edges, NextGraph(last, capture, project).value.1, bound)
  {
    hide NextGraph, RadixTree.TreeWithin;
  }

  lemma NextCoverageParts(coverage: Option<CoverageState>, capture: Option<CoverageCapture>, project: string)
    requires NextCoverage(coverage, capture, project).Ok? && capture.Some?
    ensures var found := capture.value;
      && (found.snapshot || coverage.Some?)
      && var rows := if found.snapshot then map[] else coverage.value.rows;
      && Applicable(rows, found.rows)
      && NextCoverage(coverage, capture, project).value == Some(CoverageState(Override(rows, found.rows), found.metadata))
  {
    hide Applicable, Override, ValidCoverageSnapshot, Complete, Checked;
  }

  lemma RoomForTwo(first: nat, between: nat, a: nat, b: nat, bound: nat)
    ensures HasRoom(first, a + b, bound) ==> HasRoom(first, a, bound)
    ensures HasRoom(first, a + b, bound) && Grew(first, between, a, bound) ==> HasRoom(between, b, bound)
  {
    hide HasRoom, Grew;
    if HasRoom(first, a + b, bound) {
      RoomWithin(first, a, a + b, bound);
      if Grew(first, between, a, bound) {
        RoomLeft(first, between, a, b, bound);
      }
    }
  }

  lemma GrewTwice(first: nat, between: nat, last: nat, a: nat, b: nat, bound: nat)
    ensures Grew(first, between, a, bound) && Grew(between, last, b, bound) ==> Grew(first, last, a + b, bound)
  {
    hide Grew;
    if Grew(first, between, a, bound) && Grew(between, last, b, bound) {
      GrewMore(first, between, last, a, b, bound);
    }
  }

  lemma LatestOf(history: seq<Generation>, next: Generation)
    ensures Latest(history + [next]) == next
  {
  }

  /** A commit's hashes depend on its generation alone: recorded as mutations of what was there before, or
  built as a snapshot in another file, it has the same digest and the same root hashes. */
  lemma RebuildAgrees(codec: Codec, pages: Pages, manifest: Manifest, otherPages: Pages, rebuilt: Manifest,
                      generation: Generation)
    requires codec.Sound()
    requires Holds(codec, pages, manifest, generation) && Holds(codec, otherPages, rebuilt, generation)
    ensures manifest.graphDigest == rebuilt.graphDigest
    ensures HashOf(manifest.nodeRoot) == HashOf(rebuilt.nodeRoot) && HashOf(manifest.edgeRoot) == HashOf(rebuilt.edgeRoot)
    ensures manifest.coverage.Some? == rebuilt.coverage.Some?
    ensures manifest.coverage.Some? ==>
      && HashOf(manifest.coverage.value.root) == HashOf(rebuilt.coverage.value.root)
      && manifest.coverage.value.digest == rebuilt.coverage.value.digest
      && manifest.coverage.value.materialization == rebuilt.coverage.value.materialization
  {
    hide Represents, Codec.Sound, GraphDigest, ValidCoverageSnapshot, HashOf;
    SameRowsSameHash(codec, Nodes, pages, manifest.nodeRoot, otherPages, rebuilt.nodeRoot, generation.nodes);
    SameRowsSameHash(codec, Edges, pages, manifest.edgeRoot, otherPages, rebuilt.edgeRoot, generation.edges);
    if manifest.coverage.Some? {
      SameRowsSameHash(codec, Coverage, pages, manifest.coverage.value.root, otherPages, rebuilt.coverage.value.root,
        generation.coverage.value.rows);
    }
  }

  // ---- The recorder ----

  class KGARecorder {
    const writer: Writer
    var nodeRoot: Option<TreeRef>
    var edgeRoot: Option<TreeRef>
    var coverageRoot: Option<TreeRef>
    var coverageMetadata: CoverageMetadata
    var coverageRecorded: bool
    /** The generations recorded so far, oldest first. */
    ghost var history: seq<Generation>

    ghost predicate Valid()
      reads this, writer, writer.cache
    {
      && writer.Valid() && !writer.closed && writer.flushedRecords == |writer.log|
      && Archives(writer.codec, writer.log, history)
      && RootsHold()
    }

    /** The fields are the roots of the latest generation. */
    ghost predicate RootsHold()
      requires writer.codec.Sound()
      reads this, writer
    {
      var pages, last := PagesOf(writer.codec, writer.log), Latest(history);
      && Represents(writer.codec, pages, Nodes, nodeRoot, last.nodes)
      && Represents(writer.codec, pages, Edges, edgeRoot, last.edges)
      && coverageRecorded == last.coverage.Some?
      && (coverageRecorded ==>
        && coverageMetadata == last.coverage.value.metadata
        && Represents(writer.codec, pages, Coverage, coverageRoot, last.coverage.value.rows)
        && ValidCoverageRows(last.coverage))
    }

    /** Open behind the commits that the writer resumed from. */
    constructor (writer: Writer, ghost history: seq<Generation>)
      requires writer.Valid() && !writer.closed && writer.flushedRecords == |writer.log|
      requires Archives(writer.codec, writer.log, history)
      ensures Valid() && this.writer == writer && this.history == history
    {
      hide *;
      this.writer := writer;
      var last: Option<Manifest> :=
        if writer.commits == [] then None else Some(writer.commits[|writer.commits| - 1]);
      nodeRoot := if last.Some? then last.value.nodeRoot else None;
      edgeRoot := if last.Some? then last.value.edgeRoot else None;
      coverageRecorded := last.Some? && last.value.coverage.Some?;
      coverageRoot := if last.Some? && last.value.coverage.Some? then last.value.coverage.value.root else None;
      coverageMetadata := if last.Some? && last.value.coverage.Some? then last.value.coverage.value.metadata else map[];
      this.history := history;
      new;
      WriterParts(writer);
      LatestHolds(writer.codec, writer.log, history);
      ResumedRoots(writer.codec, PagesOf(writer.codec, writer.log), last, Latest(history), this);
      PackRecorder();
    }

    /** The writer is open, and `root` stores `rows` in pages that it can read back. */
    ghost predicate Reads(tree: Tree, root: Option<TreeRef>, rows: Rows)
      reads this, writer, writer.cache
    {
      && writer.Valid() && !writer.closed
      && Represents(writer.codec, PagesOf(writer.codec, writer.log[..writer.flushedRecords]), tree, root, rows)
    }

    /** The writer is open, and `root` stores `rows` in pages written so far. */
    ghost predicate Stores(tree: Tree, root: Option<TreeRef>, rows: Rows)
      reads this, writer, writer.cache
    {
      && writer.Valid() && !writer.closed
      && Represents(writer.codec, PagesOf(writer.codec, writer.log), tree, root, rows)
    }

    /** RadixTree(self.writer, tree).apply(root, changes) */
    method ApplyTree(tree: Tree, root: Option<TreeRef>, changes: Changes, ghost rows: Rows, ghost bound: nat)
      returns (r: Result<Option<TreeRef>>)
      requires Reads(tree, root, rows)
      modifies writer`file, writer`log, writer.cache
      ensures writer.Valid() && !writer.closed && RadixTree.AppendsPages(old(writer.log), writer.log)
      ensures !Applicable(rows, changes) ==> r.Failure?
      ensures r.Failure? ==> r.reason == FULL || !Applicable(rows, changes)
      ensures writer.codec.Sound()
      ensures RadixTree.TreeWithin(writer.codec, tree, Override(rows, changes), bound) ==>
        && (HasRoom(|old(writer.file)|, |changes| + 1, bound) && Applicable(rows, changes) ==> r.Ok?)
        && (r.Ok? ==> Grew(|old(writer.file)|, |writer.file|, |changes| + 1, bound))
      ensures r.Ok? ==> Stores(tree, r.value, Override(rows, changes))
    {
      WriterParts(writer);
      hide Writer.Valid, Represents, Applicable, Override, PagesOf, RadixTree.AppendsPages, RadixTree.TreeWithin, HasRoom, Grew;
      var trie := new RadixTree.RadixTree(writer, tree);
      r := trie.Apply(root, changes, rows, bound);
    }

    lemma StillReads(tree: Tree, root: Option<TreeRef>, rows: Rows, base: Records)
      requires writer.Valid() && !writer.closed && writer.flushedRecords == |base|
      requires RadixTree.AppendsPages(base, writer.log)
      requires Represents(writer.codec, PagesOf(writer.codec, base), tree, root, rows)
      ensures Reads(tree, root, rows)
    {
      hide Writer.Valid, Represents, PagesOf;
      RadixTree.SamePrefix(base, writer.log, |base|);
      assert base[..|base|] == base;
    }

    lemma NoRootReads(tree: Tree)
      requires writer.Valid() && !writer.closed
      ensures Reads(tree, None, map[])
    {
    }

    /** The two graph trees after each other; neither reads what the other wrote. */
    method ApplyBoth(nodes: Changes, edges: Changes, ghost oldNodes: Rows, ghost oldEdges: Rows, ghost base: Records,
                     ghost bound: nat)
      returns (r: Result<()>)
      requires writer.Valid() && !writer.closed && writer.flushedRecords == |base| && base == writer.log
      requires writer.codec.Sound()
      requires Represents(writer.codec, PagesOf(writer.codec, base), Nodes, nodeRoot, oldNodes)
      requires Represents(writer.codec, PagesOf(writer.codec, base), Edges, edgeRoot, oldEdges)
      modifies this`nodeRoot, this`edgeRoot, writer`file, writer`log, writer.cache
      ensures writer.Valid() && !writer.closed && RadixTree.AppendsPages(base, writer.log)
      ensures !Applicable(oldNodes, nodes) || !Applicable(oldEdges, edges) ==> r.Failure?
      ensures r.Failure? ==> r.reason == FULL || !Applicable(oldNodes, nodes) || !Applicable(oldEdges, edges)
      ensures BothFit(writer.codec, oldNodes, nodes, oldEdges, edges, bound) ==>
        && (HasRoom(|old(writer.file)|, |nodes| + 1 + (|edges| + 1), bound) ==> r.Ok?)
        && (r.Ok? ==> Grew(|old(writer.file)|, |writer.file|, |nodes| + 1 + (|edges| + 1), bound))
      ensures r.Ok? ==>
        Stores(Nodes, nodeRoot, Override(oldNodes, nodes)) && Stores(Edges, edgeRoot, Override(oldEdges, edges))
    {
      hide *;
      ghost var size := |writer.file|;
      BothFitParts(writer.codec, oldNodes, nodes, oldEdges, edges, bound);
      RadixTree.NothingAppendedYet(base);
      StillReads(Nodes, nodeRoot, oldNodes, base);
      RoomForTwo(size, size, |nodes| + 1, |edges| + 1, bound);
      var nodeResult := ApplyTree(Nodes, nodeRoot, nodes, oldNodes, bound);
      if nodeResult.Failure? {
        return Failure(nodeResult.reason);
      }
      StoresRoot(Nodes, nodeResult.value, Override(oldNodes, nodes));
      nodeRoot := nodeResult.value;
      ghost var between, already := writer.log, |writer.file|;
      RoomForTwo(size, already, |nodes| + 1, |edges| + 1, bound);
      StillReads(Edges, edgeRoot, oldEdges, base);
      var edgeResult := ApplyTree(Edges, edgeRoot, edges, oldEdges, bound);
      GrewTwice(size, already, |writer.file|, |nodes| + 1, |edges| + 1, bound);
      RadixTree.AppendsMore(base, between, writer.log);
      if edgeResult.Failure? {
        return Failure(edgeResult.reason);
      }
      StoresRoot(Edges, edgeResult.value, Override(oldEdges, edges));
      edgeRoot := edgeResult.value;
      RadixTree.NothingAppendedYet(writer.log);
      StoresOn(Nodes, nodeRoot, Override(oldNodes, nodes), between);
      StoresOn(Edges, edgeRoot, Override(oldEdges, edges), writer.log);
      r := Ok(());
    }

    lemma StoresRoot(tree: Tree, root: Option<TreeRef>, rows: Rows)
      requires Stores(tree, root, rows)
      ensures writer.Valid() && !writer.closed && writer.codec.Sound()
      ensures Represents(writer.codec, PagesOf(writer.codec, writer.log), tree, root, rows)
    {
      hide Represents, PagesOf;
    }

    /** The two graph trees: a snapshot starts from nothing, mutations from the latest roots. */
    method AppendGraph(capture: Capture, project: string, ghost last: Generation, ghost base: Records, ghost bound: nat)
      returns (r: Result<(Option<TreeRef>, Option<TreeRef>)>)
      requires writer.Valid() && !writer.closed && writer.flushedRecords == |base| && base == writer.log
      requires Represents(writer.codec, PagesOf(writer.codec, base), Nodes, nodeRoot, last.nodes)
      requires Represents(writer.codec, PagesOf(writer.codec, base), Edges, edgeRoot, last.edges)
      modifies this`nodeRoot, this`edgeRoot, writer`file, writer`log, writer.cache
      ensures writer.Valid() && !writer.closed && RadixTree.AppendsPages(base, writer.log)
      ensures NextGraph(last, capture, project).Failure? ==> r.Failure?
      ensures r.Failure? ==> r.reason == FULL || NextGraph(last, capture, project).Failure?
      ensures writer.codec.Sound()
      ensures GraphFits(writer.codec, last, capture, project, bound) ==>
        && (HasRoom(|old(writer.file)|, |capture.nodes| + 1 + (|capture.edges| + 1), bound) ==> r.Ok?)
        && (r.Ok? ==> Grew(|old(writer.file)|, |writer.file|, |capture.nodes| + 1 + (|capture.edges| + 1), bound))
      ensures r.Ok? ==>
        && r.value == (nodeRoot, edgeRoot)
        && Stores(Nodes, nodeRoot, NextGraph(last, capture, project).value.0)
        && Stores(Edges, edgeRoot, NextGraph(last, capture, project).value.1)
    {
      hide *;
      WriterParts(writer);
      RadixTree.NothingAppendedYet(base);
      NextGraphCases(last, capture, project);
      GraphFitsParts(writer.codec, last, capture, project, bound);
      BothFitParts(writer.codec, if capture.snapshot then map[] else last.nodes, capture.nodes,
        if capture.snapshot then map[] else last.edges, capture.edges, bound);
      if capture.snapshot {
        if !(Complete(capture.nodes) && Complete(capture.edges)) {
          return Failure("complete graph snapshot contains deletions");
        }
        if !ValidGraph(Override(map[], capture.nodes), Override(map[], capture.edges), project) {
          return Failure("invalid graph");
        }
        nodeRoot, edgeRoot := None, None;
        NoRootStores(writer.codec, PagesOf(writer.codec, base));
      }
      var applied := ApplyBoth(capture.nodes, capture.edges, if capture.snapshot then map[] else last.nodes,
        if capture.snapshot then map[] else last.edges, base, bound);
      if applied.Failure? {
        return Failure(applied.reason);
      }
      r := Ok((nodeRoot, edgeRoot));
    }

    lemma NoRootStores(codec: Codec, pages: Pages)
      requires codec.Sound()
      ensures Represents(codec, pages, Nodes, None, map[]) && Represents(codec, pages, Edges, None, map[])
    {
    }

    lemma StoresOn(tree: Tree, root: Option<TreeRef>, rows: Rows, before: Records)
      requires writer.Valid() && !writer.closed && RadixTree.AppendsPages(before, writer.log)
      requires Represents(writer.codec, PagesOf(writer.codec, before), tree, root, rows)
      ensures Stores(tree, root, rows)
    {
      hide Represents, PagesOf, RadixTree.AppendsPages;
      WriterParts(writer);
      hide Writer.Valid;
      RadixTree.PagesAppended(writer.codec, before, writer.log);
      RepresentsIsStable(writer.codec, PagesOf(writer.codec, before), PagesOf(writer.codec, writer.log), tree, root, rows);
    }

    /** The coverage tree; None when the generation records no coverage. */
    method AppendCoverage(capture: Option<CoverageCapture>, project: string, ghost coverage: Option<CoverageState>,
                          ghost base: Records, ghost bound: nat)
      returns (r: Result<Option<CoverageFields>>)
      requires writer.Valid() && !writer.closed && writer.flushedRecords == |base|
      requires RadixTree.AppendsPages(base, writer.log) && coverageRecorded == coverage.Some?
      requires coverageRecorded ==>
        Represents(writer.codec, PagesOf(writer.codec, base), Coverage, coverageRoot, coverage.value.rows)
      modifies this`coverageRoot, this`coverageMetadata, this`coverageRecorded, writer`file, writer`log, writer.cache
      ensures writer.Valid() && !writer.closed && RadixTree.AppendsPages(old(writer.log), writer.log)
      ensures NextCoverage(coverage, capture, project).Failure? ==> r.Failure?
      ensures r.Failure? ==> r.reason == FULL || NextCoverage(coverage, capture, project).Failure?
      ensures writer.codec.Sound()
      ensures CoverageFits(writer.codec, coverage, capture, project, bound) ==>
        && (HasRoom(|old(writer.file)|, CoverageCount(capture), bound) ==> r.Ok?)
        && (r.Ok? ==> Grew(|old(writer.file)|, |writer.file|, CoverageCount(capture), bound))
      ensures r.Ok? ==> RecordsCoverage(NextCoverage(coverage, capture, project).value, r.value)
    {
      hide Writer.Valid, Represents, Applicable, Override, PagesOf, RadixTree.AppendsPages, Complete, Checked,
        ValidCoverageSnapshot, Codec.Sound, Reads, File, Commits, Admissible, RadixTree.TreeWithin, HasRoom, Grew;
      RadixTree.NothingAppendedYet(writer.log);
      WriterParts(writer);
      GrewNothing(|writer.file|, CoverageCount(capture), bound);
      if NextCoverage(coverage, capture, project).Ok? && capture.Some? {
        NextCoverageParts(coverage, capture, project);
      }
      if capture.None? {
        if coverageRecorded {
          return Failure("generation lost its coverage attachment");
        }
        return Ok(None);
      }
      var found := capture.value;
      if found.snapshot {
        if !Complete(found.rows) {
          return Failure("coverage snapshot contains deletions");
        }
        coverageRoot := None;
        NoRootReads(Coverage);
      } else {
        if !coverageRecorded {
          return Failure("coverage mutations have no predecessor");
        }
        StillReads(Coverage, coverageRoot, coverage.value.rows, base);
      }
      if !ValidCoverageSnapshot(Checked(found.rows), found.metadata, project) {
        return Failure("invalid coverage");
      }
      ghost var rows := if found.snapshot then map[] else coverage.value.rows;
      var root := ApplyTree(Coverage, coverageRoot, found.rows, rows, bound);
      if root.Failure? {
        return Failure(root.reason);
      }
      coverageRoot, coverageMetadata, coverageRecorded := root.value, found.metadata, true;
      WriterParts(writer);
      var identity := writer.codec.coverageHash(HashOf(root.value), found.metadata);
      RootCounts(writer.codec, PagesOf(writer.codec, writer.log), Coverage, root.value, Override(rows, found.rows));
      r := Ok(Some(CoverageFields(root.value, if root.value.Some? then root.value.value.count else 0, found.metadata,
        identity, writer.codec.materializationHash(Digest(), identity))));
    }

    /** The coverage fields of the recorder and of the new manifest describe the new coverage. */
    ghost predicate RecordsCoverage(coverage: Option<CoverageState>, fields: Option<CoverageFields>)
      reads this, writer, writer.cache
    {
      && coverageRecorded == coverage.Some? == fields.Some?
      && (fields.Some? ==>
        && fields.value.root == coverageRoot && fields.value.rows == |coverage.value.rows|
        && fields.value.metadata == coverageMetadata == coverage.value.metadata
        && fields.value.digest == writer.codec.coverageHash(HashOf(coverageRoot), coverageMetadata)
        && fields.value.materialization == writer.codec.materializationHash(Digest(), fields.value.digest)
        && Stores(Coverage, coverageRoot, coverage.value.rows))
    }

    /** The three trees of the next generation. */
    method AppendTrees(capture: Capture, project: string, ghost last: Generation, ghost base: Records, ghost bound: nat)
      returns (r: Result<Option<CoverageFields>>)
      requires writer.Valid() && !writer.closed && writer.flushedRecords == |base| && base == writer.log
      requires Represents(writer.codec, PagesOf(writer.codec, base), Nodes, nodeRoot, last.nodes)
      requires Represents(writer.codec, PagesOf(writer.codec, base), Edges, edgeRoot, last.edges)
      requires coverageRecorded == last.coverage.Some?
      requires coverageRecorded ==>
        Represents(writer.codec, PagesOf(writer.codec, base), Coverage, coverageRoot, last.coverage.value.rows)
      modifies this`nodeRoot, this`edgeRoot, this`coverageRoot, this`coverageMetadata, this`coverageRecorded,
        writer`file, writer`log, writer.cache
      ensures writer.Valid() && !writer.closed && writer.codec.Sound() && RadixTree.AppendsPages(base, writer.log)
      ensures Next(last, capture, project).Failure? ==> r.Failure?
      ensures r.Failure? ==> r.reason == FULL || Next(last, capture, project).Failure?
      ensures TreesFit(writer.codec, last, capture, project, bound) ==>
        && (HasRoom(|old(writer.file)|, TreeCount(capture), bound) ==> r.Ok?)
        && (r.Ok? ==> Grew(|old(writer.file)|, |writer.file|, TreeCount(capture), bound))
      ensures r.Ok? ==>
        && Stores(Nodes, nodeRoot, Next(last, capture, project).value.nodes)
        && Stores(Edges, edgeRoot, Next(last, capture, project).value.edges)
        && RecordsCoverage(Next(last, capture, project).value.coverage, r.value)
    {
      hide *;
      ghost var size, graphCount, coverageCount := |writer.file|, |capture.nodes| + 1 + (|capture.edges| + 1),
        CoverageCount(capture.coverage);
      CountOf(capture);
      WriterParts(writer);
      TreesFitParts(writer.codec, last, capture, project, bound);
      NextParts(last, capture, project);
      RoomForTwo(size, size, graphCount, coverageCount, bound);
      var graph := AppendGraph(capture, project, last, base, bound);
      if graph.Failure? {
        return Failure(graph.reason);
      }
      ghost var between, already := writer.log, |writer.file|;
      RoomForTwo(size, already, graphCount, coverageCount, bound);
      ghost var nodes, edges := NextGraph(last, capture, project).value.0, NextGraph(last, capture, project).value.1;
      UnpackStores(Nodes, nodeRoot, nodes);
      UnpackStores(Edges, edgeRoot, edges);
      r := AppendCoverage(capture.coverage, project, last.coverage, base, bound);
      GrewTwice(size, already, |writer.file|, graphCount, coverageCount, bound);
      RadixTree.AppendsMore(base, between, writer.log);
      StoresOn(Nodes, nodeRoot, nodes, between);
      StoresOn(Edges, edgeRoot, edges, between);
    }

    /** append: one exact generation, published by the commit at its end. */
    method Append(ordinal: nat, sha: string, capture: Capture, project: string, provenance: string, ghost bound: nat)
      returns (r: Result<Manifest>)
      requires Valid()
      modifies this, writer, writer.cache
      ensures writer.Valid() && writer.codec.Sound()
      ensures var next := Next(Latest(old(history)), capture, project);
        && (next.Failure? ==> r.Failure?)
        && (r.Failure? ==> r.reason == FULL || next.Failure?)
        && (r.Ok? ==>
          && Valid() && history == old(history) + [next.value]
          && writer.commits == old(writer.commits) + [r.value]
          && r.value.ordinal == ordinal && r.value.sha == sha && r.value.project == project
          && RecordsGeneration(writer.codec, old(writer.log), writer.log, r.value, next.value))
      ensures CaptureFits(writer.codec, Latest(old(history)), capture, ordinal, sha, project, provenance, bound) ==>
        && (HasRoom(|old(writer.file)|, RecordCount(capture), bound) ==> r.Ok?)
        && (r.Ok? ==> Grew(|old(writer.file)|, |writer.file|, RecordCount(capture), bound))
      ensures r.Failure? ==>
        && writer.commits == old(writer.commits) && RadixTree.AppendsPages(old(writer.log), writer.log)
        && writer.flushedRecords == old(writer.flushedRecords) && history == old(history)
    {
      hide *;
      UnpackRecorder();
      WriterParts(writer);
      ghost var last, base, size := Latest(history), writer.log, |writer.file|;
      CountOf(capture);
      CaptureParts(writer.codec, last, capture, ordinal, sha, project, provenance, bound);
      RoomForTwo(size, size, TreeCount(capture), 1, bound);
      var coverage := AppendTrees(capture, project, last, base, bound);
      if coverage.Failure? {
        return Failure(coverage.reason);
      }
      ghost var next, pages, already := Next(last, capture, project).value, writer.log, |writer.file|;
      RoomForTwo(size, already, TreeCount(capture), 1, bound);
      var manifest := Manifest(ordinal, sha, project, nodeRoot, edgeRoot, Digest(), coverage.value, provenance);
      UnpackStores(Nodes, nodeRoot, next.nodes);
      UnpackStores(Edges, edgeRoot, next.edges);
      RadixTree.NothingAppendedYet(pages);
      GenerationStored(pages, manifest, last, capture, project);
      WriterParts(writer);
      if CaptureFits(writer.codec, last, capture, ordinal, sha, project, provenance, bound) {
        HeldIsWithin(writer.codec, pages, manifest, next, bound);
        CommitHasRoom(writer.codec, writer.file, manifest, writer.previous, bound);
      }
      var committed := writer.Commit(manifest);
      if committed.Failure? {
        return Failure(FULL);
      }
      GrewTwice(size, already, |writer.file|, TreeCount(capture), 1, bound);
      PagesThenCommit(writer.codec, base, pages, manifest, old(writer.previous), next);
      CommitArchives(writer.codec, base, pages, CommitRecord(manifest, old(writer.previous)), history, next);
      history := history + [next];
      LatestOf(old(history), next);
      RootsStay(pages, CommitRecord(manifest, old(writer.previous)), next);
      PackRecorder();
      r := Ok(manifest);
    }

    /** graph_digest of the current roots */
    function Digest(): Hash
      reads this, writer
    {
      writer.codec.graphHash(
        if nodeRoot.Some? then Some(nodeRoot.value.logicalHash) else None,
        if edgeRoot.Some? then Some(edgeRoot.value.logicalHash) else None)
    }

    lemma UnpackRecorder()
      requires Valid()
      ensures writer.Valid() && !writer.closed && writer.flushedRecords == |writer.log|
      ensures writer.codec.Sound() && Archives(writer.codec, writer.log, history)
      ensures var pages, last := PagesOf(writer.codec, writer.log), Latest(history);
        && Represents(writer.codec, pages, Nodes, nodeRoot, last.nodes)
        && Represents(writer.codec, pages, Edges, edgeRoot, last.edges)
        && coverageRecorded == last.coverage.Some?
        && (coverageRecorded ==> Represents(writer.codec, pages, Coverage, coverageRoot, last.coverage.value.rows))
      ensures ValidCoverageRows(Latest(history).coverage)
    {
    }

    /** The current roots store the generation, so the manifest holds it. */
    lemma GenerationStored(between: Records, manifest: Manifest, last: Generation, capture: Capture, project: string)
      requires writer.Valid() && !writer.closed && RadixTree.AppendsPages(between, writer.log)
      requires ValidCoverageRows(last.coverage) && Next(last, capture, project).Ok?
      requires var next := Next(last, capture, project).value;
        && Represents(writer.codec, PagesOf(writer.codec, between), Nodes, nodeRoot, next.nodes)
        && Represents(writer.codec, PagesOf(writer.codec, between), Edges, edgeRoot, next.edges)
        && RecordsCoverage(next.coverage, manifest.coverage)
      requires manifest.nodeRoot == nodeRoot && manifest.edgeRoot == edgeRoot && manifest.graphDigest == Digest()
      requires manifest.project == project
      ensures var next := Next(last, capture, project).value;
        && Holds(writer.codec, PagesOf(writer.codec, writer.log), manifest, next)
        && RootsStore(writer.log, next)
    {
      hide *;
      WriterParts(writer);
      var codec, next := writer.codec, Next(last, capture, project).value;
      StoresOn(Nodes, nodeRoot, next.nodes, between);
      StoresOn(Edges, edgeRoot, next.edges, between);
      UnpackStores(Nodes, nodeRoot, next.nodes);
      UnpackStores(Edges, edgeRoot, next.edges);
      DigestIs(codec, PagesOf(codec, writer.log), next);
      NextCoverageValid(last, capture, project);
      CoverageStored(manifest, next, project);
      HoldsParts(codec, PagesOf(codec, writer.log), manifest, next);
    }

    /** The fields store the generation in the pages of `log`. */
    ghost predicate RootsStore(log: Records, generation: Generation)
      requires writer.codec.Sound()
      reads this`nodeRoot, this`edgeRoot, this`coverageRoot, this`coverageMetadata, this`coverageRecorded
    {
      var pages := PagesOf(writer.codec, log);
      && Represents(writer.codec, pages, Nodes, nodeRoot, generation.nodes)
      && Represents(writer.codec, pages, Edges, edgeRoot, generation.edges)
      && coverageRecorded == generation.coverage.Some?
      && ValidCoverageRows(generation.coverage)
      && (coverageRecorded ==>
        && coverageMetadata == generation.coverage.value.metadata
        && Represents(writer.codec, pages, Coverage, coverageRoot, generation.coverage.value.rows))
    }

    lemma UnpackStores(tree: Tree, root: Option<TreeRef>, rows: Rows)
      requires Stores(tree, root, rows)
      ensures writer.codec.Sound() && Represents(writer.codec, PagesOf(writer.codec, writer.log), tree, root, rows)
    {
    }

    lemma DigestIs(codec: Codec, pages: Pages, generation: Generation)
      requires codec == writer.codec && codec.Sound()
      requires Represents(codec, pages, Nodes, nodeRoot, generation.nodes)
      requires Represents(codec, pages, Edges, edgeRoot, generation.edges)
      ensures Digest() == GraphDigest(codec, generation.nodes, generation.edges)
    {
      hide RootHash, Codec.Sound;
    }

    lemma CoverageStored(manifest: Manifest, next: Generation, project: string)
      requires writer.codec.Sound() && RecordsCoverage(next.coverage, manifest.coverage) && manifest.project == project
      requires manifest.graphDigest == Digest()
      requires next.coverage.Some? ==>
        ValidCoverageSnapshot(next.coverage.value.rows, next.coverage.value.metadata, project)
      requires Represents(writer.codec, PagesOf(writer.codec, writer.log), Nodes, nodeRoot, next.nodes)
      requires Represents(writer.codec, PagesOf(writer.codec, writer.log), Edges, edgeRoot, next.edges)
      ensures CoverageHolds(writer.codec, PagesOf(writer.codec, writer.log), manifest, next.coverage)
      ensures RootsStore(writer.log, next)
    {
      hide Represents, Codec.Sound, ValidMetadata, Writer.Valid, PagesOf;
    }

    lemma RootsStay(pages: Records, record: Record, next: Generation)
      requires writer.codec.Sound() && RootsStore(pages, next) && record.CommitRecord?
      requires writer.log == pages + [record] && Latest(history) == next
      ensures RootsHold()
    {
      hide Represents, Codec.Sound;
      PagesOfAppend(writer.codec, pages, record);
    }

    lemma PackRecorder()
      requires writer.Valid() && !writer.closed && writer.flushedRecords == |writer.log|
      requires writer.codec.Sound() && Archives(writer.codec, writer.log, history) && RootsHold()
      ensures Valid()
    {
    }
  }

  lemma CountOf(capture: Capture)
    ensures RecordCount(capture) == TreeCount(capture) + 1
    ensures TreeCount(capture) == |capture.nodes| + 1 + (|capture.edges| + 1) + CoverageCount(capture.coverage)
  {
  }

  lemma CaptureParts(codec: Codec, last: Generation, capture: Capture, ordinal: nat, sha: string, project: string,
                     provenance: string, bound: nat)
    requires codec.Sound()
    ensures CaptureFits(codec, last, capture, ordinal, sha, project, provenance, bound) ==>
      && TreesFit(codec, last, capture, project, bound)
      && CommitWithin(codec, ordinal, sha, project, provenance, Next(last, capture, project).value, bound)
  {
    hide NextGraph, NextCoverage, RadixTree.TreeWithin, CommitWithin;
    NextParts(last, capture, project);
  }

  lemma WriterParts(writer: Writer)
    requires writer.Valid()
    ensures writer.codec.Sound() && writer.commits == Commits(writer.log) && writer.file == File(writer.codec, writer.log)
    ensures Admissible(writer.codec, writer.log)
  {
  }

  /** The latest commit stores the latest generation. */
  lemma LatestHolds(codec: Codec, log: Records, history: seq<Generation>)
    requires codec.Sound() && Archives(codec, log, history)
    ensures |Commits(log)| == |history|
    ensures history != [] ==> Holds(codec, PagesOf(codec, log), Commits(log)[|history| - 1], Latest(history))
    ensures history == [] ==> Latest(history) == EMPTY
  {
    hide Holds, Codec.Sound, PagesOf;
    ArchivesCount(codec, log, history);
    if history != [] {
      HistoryHolds(codec, log, history, |history| - 1);
    }
  }

  lemma ResumedRoots(codec: Codec, pages: Pages, last: Option<Manifest>, generation: Generation, recorder: KGARecorder)
    requires codec.Sound() && recorder.writer.codec == codec && pages == PagesOf(codec, recorder.writer.log)
    requires generation == Latest(recorder.history)
    requires match last case None => generation == EMPTY case Some(manifest) => Holds(codec, pages, manifest, generation)
    requires last.None? ==> recorder.nodeRoot.None? && recorder.edgeRoot.None? && !recorder.coverageRecorded
    requires last.Some? ==>
      && recorder.nodeRoot == last.value.nodeRoot && recorder.edgeRoot == last.value.edgeRoot
      && recorder.coverageRecorded == last.value.coverage.Some?
    requires last.Some? && last.value.coverage.Some? ==>
      && recorder.coverageRoot == last.value.coverage.value.root
      && recorder.coverageMetadata == last.value.coverage.value.metadata
    ensures recorder.RootsHold()
  {
    hide IsRoot, Codec.Sound, GraphDigest, ValidMetadata, PagesOf;
  }
}
