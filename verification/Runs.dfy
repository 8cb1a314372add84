/** Whole runs: pages, commits, final indexes and crashes in any order. Committed generations are
never lost, never reordered, and always read back. */
module Runs {
  import opened Wrappers
  import opened Text
  import opened Model
  import opened Wire
  import opened Log
  import opened Scan
  import opened Reopen
  import opened Durability
  import opened Trees
  import opened ArchiveWriter
  import RadixTree
  import opened ArchiveReader
  import opened Recorder

  // ---- Reading a generation back ----

  /** The trees of a manifest read as the generation, coverage included. */
  ghost predicate GenerationReads(codec: Codec, file: Bytes, manifest: Manifest, generation: Generation) {
    && TreeReads(codec, file, Nodes, manifest.nodeRoot, generation.nodes)
    && TreeReads(codec, file, Edges, manifest.edgeRoot, generation.edges)
    && manifest.coverage.Some? == generation.coverage.Some?
    && (manifest.coverage.Some? ==> CoverageReads(codec, file, manifest, generation.coverage.value))
  }

  ghost predicate CoverageReads(codec: Codec, file: Bytes, manifest: Manifest, coverage: CoverageState)
    requires manifest.coverage.Some?
  {
    var fields := manifest.coverage.value;
    && TreeReads(codec, file, Coverage, fields.root, coverage.rows)
    && fields.metadata == coverage.metadata && fields.rows == |coverage.rows|
    && ValidCoverageSnapshot(coverage.rows, fields.metadata, manifest.project)
    && (CoverageManifestValid(codec, manifest) <==> manifest.project != "")
  }

  /** Commit i of an archive reads as generation i. */
  lemma ArchivedReads(codec: Codec, log: Records, history: seq<Generation>, i: nat)
    requires codec.Sound() && Admissible(codec, log) && Archives(codec, log, history) && i < |history|
    ensures i < |Commits(log)| && GenerationReads(codec, File(codec, log), Commits(log)[i], history[i])
  {
    hide *;
    HistoryHolds(codec, log, history, i);
    HeldReads(codec, log, Commits(log)[i], history[i]);
  }

  lemma HeldReads(codec: Codec, log: Records, manifest: Manifest, generation: Generation)
    requires codec.Sound() && Admissible(codec, log) && Holds(codec, PagesOf(codec, log), manifest, generation)
    ensures GenerationReads(codec, File(codec, log), manifest, generation)
  {
    hide TreeReads, Codec.Sound, Admissible, GraphDigest, ValidMetadata, Represents, File, PagesOf;
    RepresentedReads(codec, log, Nodes, manifest.nodeRoot, generation.nodes);
    RepresentedReads(codec, log, Edges, manifest.edgeRoot, generation.edges);
    if manifest.coverage.Some? {
      RepresentedReads(codec, log, Coverage, manifest.coverage.value.root, generation.coverage.value.rows);
      CoverageRootValid(codec, log, manifest.coverage.value.root, generation.coverage.value.rows);
    }
  }

  lemma CoverageRootValid(codec: Codec, log: Records, root: Option<TreeRef>, rows: Rows)
    requires codec.Sound() && Represents(codec, PagesOf(codec, log), Coverage, root, rows)
    ensures root.None? <==> |rows| == 0
    ensures root.Some? ==> root.value.offset >= MAGIC_SIZE && root.value.count == |rows| && IsHexDigest(root.value.logicalHash)
  {
    if root.Some? {
      var i := PageIsRecord(codec, log, root.value.offset);
    }
  }

  /** load_rows and load_coverage on the archive file: the last commit with that sha, or the latest commit. */
  method LoadGeneration(codec: Codec, cacheBytes: nat, file: Bytes, commits: seq<Manifest>,
                        sha: Option<string>, ghost log: Records, ghost history: seq<Generation>, ghost i: nat)
    returns (rows: Result<(Rows, Rows)>, coverage: Result<Option<(Rows, CoverageMetadata)>>)
    requires codec.Sound() && Admissible(codec, log) && Archives(codec, log, history)
    requires file == File(codec, log) && commits == Commits(log)
    requires i < |history| && i < |commits|
    requires if sha.None? then i == |commits| - 1
      else commits[i].sha == sha.value && forall j :: i < j < |commits| ==> commits[j].sha != sha.value
    ensures rows == Ok((history[i].nodes, history[i].edges))
    ensures history[i].coverage.None? ==> coverage == Ok(None)
    ensures history[i].coverage.Some? && commits[i].project != "" ==>
      coverage == Ok(Some((history[i].coverage.value.rows, history[i].coverage.value.metadata)))
  {
    hide TreeReads, Codec.Sound, Admissible, Archives, CoverageManifestValid, ValidCoverageSnapshot, Commits, File,
      Archive.Valid;
    ArchivedReads(codec, log, history, i);
    LastBySha(commits, i);
    var archive := new Archive(codec, file, cacheBytes, commits);
    archive.ValidEntries();
    rows := archive.LoadRows(sha, history[i].nodes, history[i].edges);
    archive.ValidEntries();
    coverage := archive.LoadCoverage(sha,
      if history[i].coverage.Some? then history[i].coverage.value.rows else map[]);
  }

  // ---- Steps ----

  /** The records written so far, how many of them a finished fsync covers, and what they record. */
  datatype Disk = Disk(log: Records, synced: nat, history: seq<Generation>)

  const CREATED := Disk([], 0, [])

  /** What every reachable archive satisfies: each commit is synced and holds its generation. Behind the synced
  records there may be pages, and the index that a reopening writes. */
  ghost predicate Intact(codec: Codec, disk: Disk) {
    && codec.Sound() && WellFormed(codec, disk.log) && Archives(codec, disk.log, disk.history)
    && (Head(codec, disk.log) == 0 ==> Commits(disk.log) == [])
    && disk.synced <= |disk.log|
    && forall i :: disk.synced <= i < |disk.log| ==> !IsCommit(disk.log[i])
  }

  ghost predicate WritesPage(before: Disk, after: Disk) {
    exists page :: after == before.(log := before.log + [PageRecord(page)])
  }

  ghost predicate CommitsGeneration(codec: Codec, before: Disk, after: Disk)
    requires codec.Sound()
  {
    exists manifest, generation {:trigger Holds(codec, PagesOf(codec, before.log), manifest, generation)} ::
      && Holds(codec, PagesOf(codec, before.log), manifest, generation)
      && after.log == before.log + [CommitRecord(manifest, Head(codec, before.log))]
      && after.history == before.history + [generation] && after.synced == |after.log|
  }

  ghost predicate Finalizes(before: Disk, after: Disk) {
    exists metadata ::
      && after.log == before.log + [IndexRecord(Commits(before.log), metadata)]
      && after.history == before.history && after.synced == |after.log|
  }

  /** The records at the moment of a crash: those of the disk, and perhaps one that was being written. */
  ghost predicate Written(codec: Codec, before: Disk, full: Disk)
    requires codec.Sound()
  {
    || (full.log, full.history) == (before.log, before.history)
    || CommitsGeneration(codec, before, full)
    || Finalizes(before, full)
    || WritesPage(before, full)
  }

  /** Reopening a cut file leaves `left`. */
  ghost predicate Reopens(codec: Codec, log: Records, cut: nat, left: Records)
    requires cut <= |File(codec, log)|
  {
    exists newest, r {:trigger OpensTo(codec, File(codec, log)[..cut], true, newest, r)} ::
      && OpensTo(codec, File(codec, log)[..cut], true, newest, r)
      && r.Ok? && IsArchive(codec, left, r.value) && IsLeft(log, left)
  }

  /** The bytes that a reopening found are on the disk; the index that it may have written behind them is
  synced only at its end. */
  predicate Resynced(left: Records, synced: nat) {
    synced == |left| || (left != [] && left[|left| - 1].IndexRecord? && synced == |left| - 1)
  }

  /** A crash keeps any prefix of the file at or beyond the last fsync; the archive is then reopened, and the
  next crash may come before that is done. */
  ghost predicate CrashesAt(codec: Codec, before: Disk, full: Disk, cut: nat, after: Disk)
    requires codec.Sound() && before.synced <= |before.log|
  {
    && Written(codec, before, full) && Clean(codec, full.log)
    && Start(codec, before.log, before.synced) <= cut <= |File(codec, full.log)|
    && Reopens(codec, full.log, cut, after.log)
    && Resynced(after.log, after.synced) && |Commits(after.log)| <= |full.history|
    && after.history == full.history[..|Commits(after.log)|]
  }

  ghost predicate Step(codec: Codec, before: Disk, after: Disk) {
    && codec.Sound() && before.synced <= |before.log|
    && (|| WritesPage(before, after) || CommitsGeneration(codec, before, after) || Finalizes(before, after)
        || exists full, cut :: CrashesAt(codec, before, full, cut, after))
  }

  // ---- Every step keeps the archive intact ----

  lemma PageStep(codec: Codec, before: Disk, after: Disk)
    requires Intact(codec, before) && WritesPage(before, after)
    ensures Intact(codec, after) && before.history <= after.history
  {
    hide Holds, Codec.Sound, File;
    assert after.log[..|before.log|] == before.log;
  }

  lemma CommitStep(codec: Codec, before: Disk, after: Disk)
    requires Intact(codec, before) && CommitsGeneration(codec, before, after)
    ensures Intact(codec, after) && before.history <= after.history
  {
    hide Holds, Codec.Sound, File;
    assert after.log[..|before.log|] == before.log;
    assert after.history[..|before.history|] == before.history;
    RecordIsLarge(codec, after.log, |before.log|);
  }

  lemma IndexStep(codec: Codec, before: Disk, after: Disk)
    requires Intact(codec, before) && Finalizes(before, after)
    ensures Intact(codec, after) && before.history <= after.history
  {
    hide Holds, Codec.Sound, File;
    assert after.log[..|before.log|] == before.log;
    RecordIsLarge(codec, after.log, |before.log|);
  }

  lemma WrittenIsIntact(codec: Codec, before: Disk, full: Disk)
    requires Intact(codec, before) && Written(codec, before, full)
    ensures WellFormed(codec, full.log) && Archives(codec, full.log, full.history)
    ensures before.log <= full.log && before.history <= full.history
  {
    hide *;
    IntactParts(codec, before);
    WrittenCases(codec, before, full);
    if (full.log, full.history) == (before.log, before.history) {
    } else if CommitsGeneration(codec, before, full) {
      CommitStep(codec, before, full);
      IntactParts(codec, full);
    } else if Finalizes(before, full) {
      IndexStep(codec, before, full);
      IntactParts(codec, full);
    } else {
      PageStep(codec, before, full);
      IntactParts(codec, full);
    }
  }

  lemma IntactParts(codec: Codec, disk: Disk)
    requires Intact(codec, disk)
    ensures codec.Sound() && WellFormed(codec, disk.log) && Archives(codec, disk.log, disk.history)
    ensures disk.synced <= |disk.log|
  {
  }

  lemma WrittenCases(codec: Codec, before: Disk, full: Disk)
    requires codec.Sound() && Written(codec, before, full)
    ensures (full.log, full.history) == (before.log, before.history) || CommitsGeneration(codec, before, full)
      || Finalizes(before, full) || WritesPage(before, full)
    ensures before.log <= full.log
  {
    hide Holds, Codec.Sound, Head;
  }

  // ---- Generations survive the cut ----

  lemma {:induction false} ArchivesPrefix(codec: Codec, log: Records, history: seq<Generation>, j: nat)
    requires codec.Sound() && Archives(codec, log, history) && j <= |log|
    ensures |Commits(log[..j])| <= |history| && Archives(codec, log[..j], history[..|Commits(log[..j])|])
    decreases |log|
  {
    hide Holds, Codec.Sound, PagesOf;
    ArchivesCount(codec, log, history);
    if j == |log| {
      assert log[..j] == log && history[..|history|] == history;
    } else {
      var init, last := log[..|log| - 1], log[|log| - 1];
      var older := if last.CommitRecord? || last.BareCommit? then history[..|history| - 1] else history;
      assert init[..j] == log[..j];
      ArchivesPrefix(codec, init, older, j);
      assert older[..|Commits(log[..j])|] == history[..|Commits(log[..j])|];
    }
  }

  /** What reopening leaves of the log archives a prefix of the history. */
  lemma LeftArchives(codec: Codec, log: Records, history: seq<Generation>, left: Records)
    requires codec.Sound() && Archives(codec, log, history) && IsLeft(log, left)
    ensures |Commits(left)| <= |history| && Archives(codec, left, history[..|Commits(left)|])
  {
    hide Holds, Codec.Sound, PagesOf, Archives, Commits;
    var j :| 0 <= j <= |log| && LeftAt(log, left, j);
    if left == log[..j] {
      ArchivesPrefix(codec, log, history, j);
    } else {
      ArchivesPrefix(codec, log, history, j + 1);
      AnchoredArchives(codec, log[..j], log[..j + 1], history[..|Commits(log[..j + 1])|]);
      assert log[..j + 1] == log[..j] + [log[j]];
    }
  }

  /** A commit that lost its trailer and got an index instead still archives its generation. */
  lemma AnchoredArchives(codec: Codec, init: Records, log: Records, history: seq<Generation>)
    requires codec.Sound() && Archives(codec, log, history) && |log| == |init| + 1 && log[..|init|] == init
    requires IsCommit(log[|init|])
    ensures var bare := init + [BareCommit(log[|init|].manifest)];
      var left := bare + [Anchor(Commits(bare))];
      |Commits(left)| == |history| == |Commits(log)| && Archives(codec, left, history)
  {
    hide Holds, Codec.Sound, PagesOf;
    var bare := init + [BareCommit(log[|init|].manifest)];
    var left := bare + [Anchor(Commits(bare))];
    ArchivesCount(codec, log, history);
    assert bare[..|init|] == init && left[..|bare|] == bare;
  }

  lemma CrashStep(codec: Codec, before: Disk, full: Disk, cut: nat, after: Disk)
    requires Intact(codec, before) && CrashesAt(codec, before, full, cut, after)
    ensures Intact(codec, after) && before.history <= after.history
  {
    hide *;
    IntactParts(codec, before);
    CrashParts(codec, before, full, cut, after);
    WrittenIsIntact(codec, before, full);
    var newest, r := ReopenWitness(codec, full.log, cut, after.log);
    var k, left := ReopenRecovers(codec, full.log, cut, true, newest, r);
    SameArchive(codec, left, after.log, r.value);
    LeftArchives(codec, full.log, full.history, after.log);
    SyncedAreKept(codec, before, full.log, cut, k);
    KeepsParts(codec, full.log, cut, k);
    RecoversParts(full.log, k, left);
    KeptHistory(codec, before, full, k, after);
    AfterCrash(codec, after, r.value);
  }

  lemma CrashParts(codec: Codec, before: Disk, full: Disk, cut: nat, after: Disk)
    requires codec.Sound() && before.synced <= |before.log| && CrashesAt(codec, before, full, cut, after)
    ensures Written(codec, before, full) && Clean(codec, full.log)
    ensures MAGIC_SIZE <= Start(codec, before.log, before.synced) <= cut <= |File(codec, full.log)|
    ensures Reopens(codec, full.log, cut, after.log)
    ensures Resynced(after.log, after.synced) && |Commits(after.log)| <= |full.history|
    ensures after.history == full.history[..|Commits(after.log)|]
  {
  }

  lemma ReopenWitness(codec: Codec, log: Records, cut: nat, left: Records) returns (newest: Newest, r: Result<Opened>)
    requires cut <= |File(codec, log)| && Reopens(codec, log, cut, left)
    ensures OpensTo(codec, File(codec, log)[..cut], true, newest, r)
    ensures r.Ok? && IsArchive(codec, left, r.value) && IsLeft(log, left)
  {
    hide OpensTo, IsArchive, IsLeft, File;
    newest, r :| OpensTo(codec, File(codec, log)[..cut], true, newest, r)
      && r.Ok? && IsArchive(codec, left, r.value) && IsLeft(log, left);
  }

  lemma SameArchive(codec: Codec, a: Records, b: Records, found: Opened)
    requires IsArchive(codec, a, found) && IsArchive(codec, b, found)
    ensures Commits(a) == Commits(b)
  {
  }

  lemma KeepsParts(codec: Codec, log: Records, cut: nat, k: nat)
    requires Keeps(codec, log, cut, k)
    ensures k <= |log|
  {
  }

  lemma RecoversParts(log: Records, k: nat, left: Records)
    requires k <= |log| && Recovers(log, k, left)
    ensures Commits(log[..k]) <= Commits(left) <= Commits(log)
  {
  }

  /** The cut keeps every synced record. */
  lemma SyncedAreKept(codec: Codec, before: Disk, log: Records, cut: nat, k: nat)
    requires codec.Sound() && before.synced <= |before.log| && before.log <= log && Keeps(codec, log, cut, k)
    requires Start(codec, before.log, before.synced) <= cut
    ensures before.synced <= k
  {
    hide File, Codec.Sound;
    assert before.log == log[..|before.log|];
    StartOfPrefix(codec, log, before.synced, |before.log|);
    if k < before.synced {
      StartOfPrefix(codec, log, k + 1, before.synced);
    }
  }

  /** So every commit of the disk is among those recovered. */
  lemma KeptHistory(codec: Codec, before: Disk, full: Disk, k: nat, after: Disk)
    requires Intact(codec, before) && before.log <= full.log && before.history <= full.history
    requires before.synced <= k <= |full.log| && Commits(full.log[..k]) <= Commits(after.log)
    requires |Commits(after.log)| <= |full.history| && after.history == full.history[..|Commits(after.log)|]
    ensures before.history <= after.history
  {
    hide Holds, Codec.Sound, PagesOf, WellFormed, Head;
    ArchivesCount(codec, before.log, before.history);
    SameCommits(before.log, before.synced, |before.log|);
    assert before.log[..|before.log|] == before.log;
    assert full.log[..k][..before.synced] == before.log[..before.synced];
    CommitsPrefix(full.log[..k], before.synced);
  }

  lemma AfterCrash(codec: Codec, after: Disk, found: Opened)
    requires codec.Sound() && IsArchive(codec, after.log, found) && Archives(codec, after.log, after.history)
    requires Resynced(after.log, after.synced)
    ensures Intact(codec, after)
  {
    hide Codec.Sound, WellFormed, Archives, Log.Head, Commits, File;
  }

  /** A crash can always be followed by a reopening. */
  lemma CrashCanReopen(codec: Codec, before: Disk, full: Disk, cut: nat, newest: Newest, r: Result<Opened>)
    returns (after: Disk)
    requires Intact(codec, before) && Written(codec, before, full) && Clean(codec, full.log)
    requires Start(codec, before.log, before.synced) <= cut <= |File(codec, full.log)|
    requires OpensTo(codec, File(codec, full.log)[..cut], true, newest, r)
    ensures CrashesAt(codec, before, full, cut, after) && after.synced == |after.log|
    ensures r.Ok? && IsArchive(codec, after.log, r.value) && r.value.file == File(codec, after.log)
  {
    hide OpensTo, Holds, Codec.Sound, PagesOf, WellFormed, Head, Clean, File, Recovers, IsLeft, Written;
    WrittenIsIntact(codec, before, full);
    var k, left := ReopenRecovers(codec, full.log, cut, true, newest, r);
    LeftOf(full.log, k, left);
    LeftArchives(codec, full.log, full.history, left);
    after := Disk(left, |left|, full.history[..|Commits(left)|]);
  }

  lemma LeftOf(log: Records, k: nat, left: Records)
    requires k <= |log| && Recovers(log, k, left)
    ensures IsLeft(log, left)
  {
  }

  // ---- Runs ----

  lemma StepKeeps(codec: Codec, before: Disk, after: Disk)
    requires Intact(codec, before) && Step(codec, before, after)
    ensures Intact(codec, after) && before.history <= after.history
  {
    hide Intact, CommitsGeneration, Finalizes, WritesPage, CrashesAt;
    if WritesPage(before, after) {
      PageStep(codec, before, after);
    } else if CommitsGeneration(codec, before, after) {
      CommitStep(codec, before, after);
    } else if Finalizes(before, after) {
      IndexStep(codec, before, after);
    } else {
      var full, cut :| CrashesAt(codec, before, full, cut, after);
      CrashStep(codec, before, full, cut, after);
    }
  }

  ghost predicate IsRun(codec: Codec, run: seq<Disk>) {
    && run != [] && codec.Sound() && run[0] == CREATED
    && forall i :: 0 <= i < |run| - 1 ==> Step(codec, run[i], run[i + 1])
  }

  /** Main result: in every run the committed generations only grow at the end. */
  lemma {:induction false} RunKeepsHistory(codec: Codec, run: seq<Disk>, i: nat, j: nat)
    requires IsRun(codec, run) && i <= j < |run|
    ensures Intact(codec, run[j]) && run[i].history <= run[j].history
    decreases j
  {
    hide Intact, Step, Codec.Sound;
    if j == 0 {
      CreatedIsIntact(codec);
    } else if i == j {
      RunKeepsHistory(codec, run, j - 1, j - 1);
      StepKeeps(codec, run[j - 1], run[j]);
    } else {
      RunKeepsHistory(codec, run, i, j - 1);
      StepKeeps(codec, run[j - 1], run[j]);
    }
  }

  lemma CreatedIsIntact(codec: Codec)
    requires codec.Sound()
    ensures Intact(codec, CREATED)
  {
  }

  /** Main result: a generation once committed reads back at every later point of the run, at the same
  place, whatever was appended, finalized, extended or cut off since. */
  lemma RunReadsBack(codec: Codec, run: seq<Disk>, i: nat, j: nat, k: nat)
    requires IsRun(codec, run) && i <= j < |run| && k < |run[i].history| && Admissible(codec, run[j].log)
    ensures k < |Commits(run[j].log)|
    ensures GenerationReads(codec, File(codec, run[j].log), Commits(run[j].log)[k], run[i].history[k])
  {
    hide *;
    RunKeepsHistory(codec, run, i, j);
    IntactParts(codec, run[j]);
    ArchivedReads(codec, run[j].log, run[j].history, k);
  }

  // ---- Runs of appends ----

  /** The generation that the captures build on `start`, or why one of them is refused. */
  function Folded(start: Generation, captures: seq<Capture>, project: string): Result<Generation> {
    if captures == [] then Ok(start)
    else
      match Folded(start, captures[..|captures| - 1], project)
      case Failure(reason) => Failure(reason)
      case Ok(last) => Next(last, captures[|captures| - 1], project)
  }

  ghost predicate IsPath(codec: Codec, path: seq<Disk>, before: Disk, after: Disk) {
    && path != [] && path[0] == before && path[|path| - 1] == after
    && forall i :: 0 <= i < |path| - 1 ==> Step(codec, path[i], path[i + 1])
  }

  /** Some steps lead from one disk to the other. */
  ghost predicate Reaches(codec: Codec, before: Disk, after: Disk) {
    exists path :: IsPath(codec, path, before, after)
  }

  lemma ExtendPath(codec: Codec, path: seq<Disk>, before: Disk, between: Disk, after: Disk)
    requires IsPath(codec, path, before, between) && Step(codec, between, after)
    ensures IsPath(codec, path + [after], before, after)
  {
    hide Step;
    var longer := path + [after];
    forall i | 0 <= i < |longer| - 1 ensures Step(codec, longer[i], longer[i + 1]) {
      assert longer[i] == path[i];
    }
  }

  lemma JoinPaths(codec: Codec, first: seq<Disk>, second: seq<Disk>, a: Disk, b: Disk, c: Disk)
    requires IsPath(codec, first, a, b) && IsPath(codec, second, b, c)
    ensures Reaches(codec, a, c)
  {
    hide Step;
    var path, n := first + second[1..], |first|;
    forall i | 0 <= i < |path| - 1 ensures Step(codec, path[i], path[i + 1]) {
      if i < n - 1 {
        assert path[i] == first[i] && path[i + 1] == first[i + 1];
      } else {
        assert path[i] == second[i - n + 1] && path[i + 1] == second[i - n + 2];
      }
    }
    assert IsPath(codec, path, a, c);
  }

  /** Pages are written one step after the other. */
  lemma {:induction false} PagesAreSteps(codec: Codec, before: Disk, log: Records) returns (path: seq<Disk>)
    requires codec.Sound() && before.synced <= |before.log| && RadixTree.AppendsPages(before.log, log)
    ensures IsPath(codec, path, before, before.(log := log))
    decreases |log|
  {
    hide Codec.Sound, CommitsGeneration, Finalizes, CrashesAt;
    if log == before.log {
      path := [before];
    } else {
      var init := log[..|log| - 1];
      assert RadixTree.AppendsPages(before.log, init);
      path := PagesAreSteps(codec, before, init);
      assert log == init + [PageRecord(log[|log| - 1].page)];
      assert before.(log := log) == before.(log := init).(log := before.(log := init).log + [PageRecord(log[|log| - 1].page)]);
      assert WritesPage(before.(log := init), before.(log := log));
      ExtendPath(codec, path, before, before.(log := init), before.(log := log));
      path := path + [before.(log := log)];
    }
  }

  /** An append is a run of steps: its pages, and the commit. */
  lemma AppendIsSteps(codec: Codec, before: Disk, after: Disk, manifest: Manifest, generation: Generation)
    returns (path: seq<Disk>)
    requires codec.Sound() && before.synced <= |before.log| && WellFormed(codec, after.log)
    requires RecordsGeneration(codec, before.log, after.log, manifest, generation)
    requires after.history == before.history + [generation] && after.synced == |after.log|
    ensures IsPath(codec, path, before, after)
  {
    hide Codec.Sound, Holds, Finalizes, CrashesAt, WritesPage, PagesOf, Head;
    var pages, previous :| PagesAndCommit(codec, before.log, pages, after.log, manifest, previous, generation);
    path := PagesAreSteps(codec, before, pages);
    var written := before.(log := pages);
    assert after.log[..|pages|] == pages;
    assert CommitsGeneration(codec, written, after);
    ExtendPath(codec, path, before, written, after);
    path := path + [after];
  }

  /** After `captures` were recorded on `before`, each generation is the fold of the captures up to it. */
  ghost predicate Recorded(before: seq<Generation>, captures: seq<Capture>, project: string, after: seq<Generation>) {
    && |after| == |before| + |captures| && before <= after
    && forall i :: 0 <= i <= |captures| ==>
      Folded(Latest(before), captures[..i], project) == Ok(Latest(after[..|before| + i]))
  }

  lemma NothingRecorded(history: seq<Generation>, project: string)
    ensures Recorded(history, [], project, history)
  {
    assert history[..|history|] == history;
  }

  lemma RecordedMore(before: seq<Generation>, captures: seq<Capture>, project: string, after: seq<Generation>,
                     capture: Capture, next: Generation)
    requires Recorded(before, captures, project, after) && Next(Latest(after), capture, project) == Ok(next)
    ensures Recorded(before, captures + [capture], project, after + [next])
  {
    hide Next;
    var more, later := captures + [capture], after + [next];
    assert captures[..|captures|] == captures && after[..|after|] == after;
    forall i | 0 <= i <= |more|
      ensures Folded(Latest(before), more[..i], project) == Ok(Latest(later[..|before| + i]))
    {
      if i < |more| {
        assert more[..i] == captures[..i] && later[..|before| + i] == after[..|before| + i];
      } else {
        assert more[..i] == more && more[..|more| - 1] == captures && later[..|before| + i] == later;
      }
    }
  }

  /** The recorder's state as a disk. */
  ghost function DiskOf(recorder: KGARecorder): Disk
    reads recorder, recorder.writer
  {
    Disk(recorder.writer.log, recorder.writer.flushedRecords, recorder.history)
  }

  lemma RecorderIsIntact(recorder: KGARecorder)
    requires recorder.Valid()
    ensures Intact(recorder.writer.codec, DiskOf(recorder))
    ensures recorder.writer.file == File(recorder.writer.codec, recorder.writer.log)
    ensures Admissible(recorder.writer.codec, recorder.writer.log)
    ensures recorder.writer.commits == Commits(recorder.writer.log)
    ensures Archives(recorder.writer.codec, recorder.writer.log, recorder.history)
    ensures |recorder.history| == |recorder.writer.commits|
    ensures DiskOf(recorder) == Disk(recorder.writer.log, |recorder.writer.log|, recorder.history)
  {
    ArchivesCount(recorder.writer.codec, recorder.writer.log, recorder.history);
  }

  lemma DiskIs(recorder: KGARecorder)
    ensures DiskOf(recorder) == Disk(recorder.writer.log, recorder.writer.flushedRecords, recorder.history)
  {
  }

  lemma ReachesItself(codec: Codec, disk: Disk)
    ensures Reaches(codec, disk, disk)
  {
    hide Step;
    assert IsPath(codec, [disk], disk, disk);
  }

  lemma ReachesOn(codec: Codec, a: Disk, b: Disk, c: Disk)
    requires Reaches(codec, a, b) && Reaches(codec, b, c)
    ensures Reaches(codec, a, c)
  {
    hide IsPath;
    var first :| IsPath(codec, first, a, b);
    var second :| IsPath(codec, second, b, c);
    JoinPaths(codec, first, second, a, b, c);
  }

  /** What every step keeps, every run of steps keeps. */
  lemma ReachedIsIntact(codec: Codec, before: Disk, after: Disk)
    requires Intact(codec, before) && Reaches(codec, before, after)
    ensures Intact(codec, after) && before.history <= after.history
  {
    hide Intact, Step;
    var path :| IsPath(codec, path, before, after);
    PathKeeps(codec, path, |path| - 1);
  }

  lemma {:induction false} PathKeeps(codec: Codec, path: seq<Disk>, i: nat)
    requires i < |path| && Intact(codec, path[0])
    requires forall j :: 0 <= j < |path| - 1 ==> Step(codec, path[j], path[j + 1])
    ensures Intact(codec, path[i]) && path[0].history <= path[i].history
  {
    hide Intact, Step;
    if i > 0 {
      PathKeeps(codec, path, i - 1);
      StepKeeps(codec, path[i - 1], path[i]);
    }
  }

  /** A successful append, and what a failed one leaves behind, are runs of steps. */
  lemma AppendReaches(codec: Codec, before: Disk, after: Disk, manifest: Manifest, generation: Generation)
    requires codec.Sound() && before.synced <= |before.log| && WellFormed(codec, after.log)
    requires RecordsGeneration(codec, before.log, after.log, manifest, generation)
    requires after.history == before.history + [generation] && after.synced == |after.log|
    ensures Reaches(codec, before, after)
  {
    hide IsPath, Codec.Sound, RecordsGeneration, WellFormed;
    var path := AppendIsSteps(codec, before, after, manifest, generation);
  }

  lemma CommitReaches(codec: Codec, before: Disk, after: Disk, manifest: Manifest, generation: Generation)
    requires Intact(codec, before) && Intact(codec, after)
    requires RecordsGeneration(codec, before.log, after.log, manifest, generation)
    requires after.history == before.history + [generation] && after.synced == |after.log|
    ensures Reaches(codec, before, after)
    ensures Holds(codec, PagesOf(codec, after.log), manifest, generation)
  {
    hide RecordsGeneration, Holds, Codec.Sound, Reaches, PagesOf;
    AppendReaches(codec, before, after, manifest, generation);
    CommitHolds(codec, before.log, after.log, manifest, generation);
  }

  lemma CommitHolds(codec: Codec, before: Records, after: Records, manifest: Manifest, generation: Generation)
    requires codec.Sound() && RecordsGeneration(codec, before, after, manifest, generation)
    ensures Holds(codec, PagesOf(codec, after), manifest, generation)
  {
    hide Holds, Codec.Sound, PagesOf;
    var pages, previous :| PagesAndCommit(codec, before, pages, after, manifest, previous, generation);
    PagesOfAppend(codec, pages, CommitRecord(manifest, previous));
  }

  lemma PagesReach(codec: Codec, before: Disk, log: Records)
    requires codec.Sound() && before.synced <= |before.log| && RadixTree.AppendsPages(before.log, log)
    ensures Reaches(codec, before, before.(log := log))
  {
    hide IsPath, Codec.Sound, RadixTree.AppendsPages;
    var path := PagesAreSteps(codec, before, log);
  }

  // ---- Appending a list of captures ----

  /** Each capture builds on the fold of those before it, and no record needs more than `bound` bytes. */
  ghost predicate AllFit(codec: Codec, start: Generation, captures: seq<Capture>, ordinal: nat, shas: seq<string>,
                         project: string, provenance: string, bound: nat)
    requires codec.Sound() && |shas| == |captures|
  {
    forall i :: 0 <= i < |captures| ==> FitsNext(codec, start, captures, i, ordinal, shas[i], project, provenance, bound)
  }

  ghost predicate FitsNext(codec: Codec, start: Generation, captures: seq<Capture>, i: nat, ordinal: nat, sha: string,
                           project: string, provenance: string, bound: nat)
    requires codec.Sound() && i < |captures|
  {
    && Folded(start, captures[..i], project).Ok?
    && CaptureFits(codec, Folded(start, captures[..i], project).value, captures[i], ordinal + i, sha, project, provenance,
                   bound)
  }

  function TotalCount(captures: seq<Capture>): nat {
    if captures == [] then 0 else RecordCount(captures[0]) + TotalCount(captures[1..])
  }

  lemma TotalFrom(captures: seq<Capture>, i: nat)
    requires i < |captures|
    ensures TotalCount(captures[i..]) == RecordCount(captures[i]) + TotalCount(captures[i + 1..])
  {
    assert captures[i..][1..] == captures[i + 1..];
  }

  /** Each recorded commit reads back as the fold of the captures up to it. */
  ghost predicate AllRead(codec: Codec, file: Bytes, manifests: seq<Manifest>, start: Generation, captures: seq<Capture>,
                          project: string)
    requires |manifests| <= |captures|
  {
    forall i :: 0 <= i < |manifests| ==> FoldReads(codec, file, manifests[i], start, captures[..i + 1], project)
  }

  ghost predicate FoldReads(codec: Codec, file: Bytes, manifest: Manifest, start: Generation, captures: seq<Capture>,
                            project: string)
  {
    && Folded(start, captures, project).Ok?
    && GenerationReads(codec, file, manifest, Folded(start, captures, project).value)
  }

  lemma RecordedReads(codec: Codec, log: Records, before: seq<Generation>, commits: seq<Manifest>,
                      manifests: seq<Manifest>, captures: seq<Capture>, project: string, after: seq<Generation>)
    requires codec.Sound() && Admissible(codec, log) && Archives(codec, log, after)
    requires |manifests| <= |captures| && Recorded(before, captures[..|manifests|], project, after)
    requires Commits(log) == commits + manifests && |commits| == |before|
    ensures AllRead(codec, File(codec, log), manifests, Latest(before), captures, project)
  {
    hide Codec.Sound, Admissible, Archives, GenerationReads, Commits, File, Folded;
    var done := captures[..|manifests|];
    forall i | 0 <= i < |manifests|
      ensures FoldReads(codec, File(codec, log), manifests[i], Latest(before), captures[..i + 1], project)
    {
      var n := |before| + i;
      assert done[..i + 1] == captures[..i + 1];
      assert after[..|before| + (i + 1)][n] == after[n];
      ArchivedReads(codec, log, after, n);
    }
  }

  /** Captures appended one after the other: the archive holds the folds of the first ones, all of them when
  they fit, and each reads back from the file. The whole is a run of steps. */
  method AppendAll(recorder: KGARecorder, captures: seq<Capture>, shas: seq<string>, project: string, provenance: string,
                   ghost bound: nat)
    returns (manifests: seq<Manifest>)
    requires recorder.Valid() && |shas| == |captures|
    modifies recorder, recorder.writer, recorder.writer.cache
    ensures recorder.writer.codec.Sound()
    ensures Reaches(recorder.writer.codec, old(DiskOf(recorder)), DiskOf(recorder))
    ensures |manifests| <= |captures|
    ensures recorder.writer.commits == old(recorder.writer.commits) + manifests
    ensures Recorded(old(recorder.history), captures[..|manifests|], project, recorder.history)
    ensures AllRead(recorder.writer.codec, recorder.writer.file, manifests, Latest(old(recorder.history)), captures, project)
    ensures
      && AllFit(recorder.writer.codec, Latest(old(recorder.history)), captures, |old(recorder.writer.commits)|, shas,
        project, provenance, bound)
      && HasRoom(|old(recorder.writer.file)|, TotalCount(captures), bound)
      ==> |manifests| == |captures|
  {
    hide *;
    ghost var codec, past, commits, start := recorder.writer.codec, recorder.history, recorder.writer.commits,
      DiskOf(recorder);
    RecorderIsIntact(recorder);
    ReachesItself(codec, start);
    ghost var fits := AllFit(codec, Latest(past), captures, |commits|, shas, project, provenance, bound)
      && HasRoom(|recorder.writer.file|, TotalCount(captures), bound);
    manifests := [];
    NothingRecorded(past, project);
    assert captures[..0] == [] && captures[0..] == captures;
    while |manifests| < |captures|
      invariant recorder.Valid() && |manifests| <= |captures|
      invariant Reaches(codec, start, DiskOf(recorder))
      invariant recorder.writer.commits == commits + manifests
      invariant Recorded(past, captures[..|manifests|], project, recorder.history)
      invariant fits ==> HasRoom(|recorder.writer.file|, TotalCount(captures[|manifests|..]), bound)
    {
      var n := |manifests|;
      ghost var before, size, history := DiskOf(recorder), |recorder.writer.file|, recorder.history;
      DiskIs(recorder);
      RecorderIsIntact(recorder);
      IntactParts(codec, before);
      RecordedLatest(past, captures[..n], project, history);
      TotalFrom(captures, n);
      RoomForTwo(size, size, RecordCount(captures[n]), TotalCount(captures[n + 1..]), bound);
      if fits {
        FitsAt(codec, Latest(past), captures, n, |commits|, shas, project, provenance, bound, Latest(history));
      }
      var recorded := recorder.Append(|recorder.writer.commits|, shas[n], captures[n], project, provenance, bound);
      if recorded.Failure? {
        DiskIs(recorder);
        PagesReach(codec, before, recorder.writer.log);
        ReachesOn(codec, start, before, DiskOf(recorder));
        ArchivesPages(codec, before.log, recorder.writer.log, history);
        WriterParts(recorder.writer);
        RecordedReads(codec, recorder.writer.log, past, commits, manifests, captures, project, history);
        return;
      }
      RecorderIsIntact(recorder);
      ghost var next := Next(Latest(history), captures[n], project).value;
      CommitReaches(codec, before, DiskOf(recorder), recorded.value, next);
      ReachesOn(codec, start, before, DiskOf(recorder));
      RecordedMore(past, captures[..n], project, history, captures[n], next);
      assert captures[..n] + [captures[n]] == captures[..n + 1];
      RoomForTwo(size, |recorder.writer.file|, RecordCount(captures[n]), TotalCount(captures[n + 1..]), bound);
      manifests := manifests + [recorded.value];
    }
    RecorderIsIntact(recorder);
    RecordedReads(codec, recorder.writer.log, past, commits, manifests, captures, project, recorder.history);
  }

  lemma RecordedLatest(before: seq<Generation>, captures: seq<Capture>, project: string, after: seq<Generation>)
    requires Recorded(before, captures, project, after)
    ensures Folded(Latest(before), captures, project) == Ok(Latest(after))
  {
    hide Folded;
    assert captures[..|captures|] == captures && after[..|before| + |captures|] == after;
  }

  lemma FitsAt(codec: Codec, start: Generation, captures: seq<Capture>, i: nat, ordinal: nat, shas: seq<string>,
               project: string, provenance: string, bound: nat, last: Generation)
    requires codec.Sound() && |shas| == |captures| && i < |captures|
    requires AllFit(codec, start, captures, ordinal, shas, project, provenance, bound)
    requires Folded(start, captures[..i], project) == Ok(last)
    ensures CaptureFits(codec, last, captures[i], ordinal + i, shas[i], project, provenance, bound)
  {
    hide CaptureFits, Folded, Codec.Sound;
    assert FitsNext(codec, start, captures, i, ordinal, shas[i], project, provenance, bound);
  }
}
