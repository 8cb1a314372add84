/** Builds that are cut short and started again: whatever a crash leaves of the archive file, the next
session opens it, finds the archive and the published store still paired, and goes on with the next commit. */
module Sessions {
  import opened Collections
  import opened Wrappers
  import opened Text
  import opened Model
  import opened Log
  import opened Scan
  import opened Reopen
  import opened Durability
  import opened ArchiveWriter
  import RadixTree
  import opened Recorder
  import opened StoreDiff
  import opened BuildProtocol
  import opened Runs

  /** What a build of the selection `shas` relies on, and may be interrupted in: an intact archive of its first
  commits, paired with the store, and nothing announced but its head or the commit after it. */
  ghost predicate InSession(codec: Codec, runner: Runner, disk: Disk, shas: seq<string>)
    reads runner
  {
    && Intact(codec, disk) && Shas(Commits(disk.log)) <= shas
    && Paired(runner, BuildProtocol.Head(Commits(disk.log)), Latest(disk.history))
    && Continues(runner.pending, Commits(disk.log), shas)
  }

  /** What the file may hold when the crash comes: some pages behind the disk of the session, and perhaps one
  record more. A commit among them is the announced one, and records what the store publishes. */
  ghost predicate Strikes(codec: Codec, runner: Runner, disk: Disk, before: Disk, full: Disk)
    reads runner
  {
    && codec.Sound() && RadixTree.AppendsPages(disk.log, before.log) && before == disk.(log := before.log)
    && Written(codec, before, full)
    && (full.history != disk.history ==>
      runner.pending != BuildProtocol.Head(Commits(disk.log)) && RecordsAnnounced(runner, full))
  }

  ghost predicate RecordsAnnounced(runner: Runner, full: Disk)
    reads runner
  {
    && runner.pending == BuildProtocol.Head(Commits(full.log)) && runner.store.Some?
    && IsGeneration(runner.parse, runner.store.value, runner.project, Latest(full.history))
  }

  /** The commit that an attempt writes is such a one. */
  lemma AppendStrikes(codec: Codec, runner: Runner, disk: Disk, before: Disk, full: Disk, manifest: Manifest,
                      next: Generation)
    requires codec.Sound() && RadixTree.AppendsPages(disk.log, before.log) && before == disk.(log := before.log)
    requires Holds(codec, PagesOf(codec, before.log), manifest, next)
    requires full == Disk(before.log + [CommitRecord(manifest, Log.Head(codec, before.log))], |before.log| + 1,
        before.history + [next])
    requires runner.pending == Some(manifest.sha) && runner.store.Some?
    requires BuildProtocol.Head(Commits(disk.log)) != Some(manifest.sha)
    requires IsGeneration(runner.parse, runner.store.value, runner.project, next)
    ensures Strikes(codec, runner, disk, before, full)
  {
    hide Holds, IsGeneration, Codec.Sound, RadixTree.AppendsPages, PagesOf;
    assert CommitsGeneration(codec, before, full);
    assert full.log[..|before.log|] == before.log;
  }

  lemma {:induction false} PagesAreNoCommits(log: Records, more: Records)
    requires RadixTree.AppendsPages(log, more)
    ensures Commits(more) == Commits(log)
    decreases |more|
  {
    if more != log {
      PagesAreNoCommits(log, more[..|more| - 1]);
    }
  }

  lemma LeftCommits(log: Records, left: Records)
    requires IsLeft(log, left)
    ensures Commits(left) <= Commits(log)
  {
    var j :| 0 <= j <= |log| && LeftAt(log, left, j);
    hide LeftAt;
    CommitsPrefix(log, j);
    if left != log[..j] {
      CommitsPrefix(log, j + 1);
      var bare := log[..j] + [BareCommit(log[j].manifest)];
      assert log[..j + 1][..j] == log[..j] && bare[..j] == log[..j] && left[..j + 1] == bare;
    }
  }

  lemma SessionParts(codec: Codec, runner: Runner, disk: Disk, shas: seq<string>)
    ensures InSession(codec, runner, disk, shas) <==>
      && Intact(codec, disk) && Shas(Commits(disk.log)) <= shas
      && Paired(runner, BuildProtocol.Head(Commits(disk.log)), Latest(disk.history))
      && Continues(runner.pending, Commits(disk.log), shas)
  {
    hide Intact, Paired, Continues;
  }

  lemma StrikesParts(codec: Codec, runner: Runner, disk: Disk, before: Disk, full: Disk)
    requires Strikes(codec, runner, disk, before, full)
    ensures codec.Sound() && RadixTree.AppendsPages(disk.log, before.log) && before == disk.(log := before.log)
    ensures Written(codec, before, full)
    ensures full.history != disk.history ==>
      runner.pending != BuildProtocol.Head(Commits(disk.log)) && RecordsAnnounced(runner, full)
  {
    hide Written, RecordsAnnounced, Codec.Sound, RadixTree.AppendsPages;
  }

  /** At most one commit is being written. */
  lemma OneMoreCommit(codec: Codec, disk: Disk, before: Disk, full: Disk)
    requires Intact(codec, disk) && codec.Sound() && RadixTree.AppendsPages(disk.log, before.log)
    requires before == disk.(log := before.log) && Written(codec, before, full)
    ensures Intact(codec, before) && Archives(codec, full.log, full.history)
    ensures disk.history <= full.history && |full.history| <= |disk.history| + 1
    ensures |Commits(disk.log)| == |disk.history| && |Commits(full.log)| == |full.history|
    ensures Commits(disk.log) <= Commits(full.log)
  {
    hide *;
    IntactParts(codec, disk);
    PagesReach(codec, disk, before.log);
    ReachedIsIntact(codec, disk, before);
    WrittenIsIntact(codec, before, full);
    ArchivesCount(codec, disk.log, disk.history);
    ArchivesCount(codec, full.log, full.history);
    PagesAreNoCommits(disk.log, before.log);
    assert full.log[..|before.log|] == before.log;
    CommitsPrefix(full.log, |before.log|);
    WrittenHistory(codec, before, full);
  }

  lemma WrittenHistory(codec: Codec, before: Disk, full: Disk)
    requires codec.Sound() && Written(codec, before, full)
    ensures |full.history| <= |before.history| + 1
  {
    hide Holds, Codec.Sound, PagesOf, Log.Head;
  }

  /** Main result: whatever a crash leaves of the file, the reopened archive and the store are paired again. */
  lemma CrashKeepsSession(codec: Codec, runner: Runner, disk: Disk, before: Disk, full: Disk, cut: nat, after: Disk,
                          shas: seq<string>)
    requires InSession(codec, runner, disk, shas) && Strikes(codec, runner, disk, before, full)
    requires before.synced <= |before.log| && CrashesAt(codec, before, full, cut, after)
    ensures InSession(codec, runner, after, shas) && disk.history <= after.history
  {
    hide *;
    SessionParts(codec, runner, disk, shas);
    StrikesParts(codec, runner, disk, before, full);
    OneMoreCommit(codec, disk, before, full);
    CrashStep(codec, before, full, cut, after);
    CrashParts(codec, before, full, cut, after);
    var _, _ := ReopenWitness(codec, full.log, cut, after.log);
    LeftCommits(full.log, after.log);
    IntactParts(codec, after);
    ArchivesCount(codec, after.log, after.history);
    if |after.history| == |disk.history| {
      assert Commits(after.log) == Commits(disk.log) && after.history == disk.history;
    } else {
      assert Commits(after.log) == Commits(full.log) && after.history == full.history;
      AnnouncedIsNext(runner, Commits(disk.log), Commits(full.log), full, shas);
    }
    SessionParts(codec, runner, after, shas);
  }

  /** An announced commit that did reach the archive is the next of the selection, and the store publishes it. */
  lemma AnnouncedIsNext(runner: Runner, commits: seq<Manifest>, more: seq<Manifest>, full: Disk, shas: seq<string>)
    requires commits <= more && |more| == |commits| + 1 && more == Commits(full.log)
    requires runner.pending != BuildProtocol.Head(commits) && RecordsAnnounced(runner, full)
    requires Shas(commits) <= shas && Continues(runner.pending, commits, shas)
    ensures Shas(more) <= shas && Continues(runner.pending, more, shas)
    ensures Paired(runner, BuildProtocol.Head(more), Latest(full.history))
  {
    hide IsGeneration, Commits;
    assert Shas(more) == Shas(commits) + [more[|commits|].sha];
  }

  // ---- A session behind a crash ----

  /** What the session finds: an archive that it can address, behind which CBM publishes valid generations. */
  ghost predicate Expected(codec: Codec, runner: Runner, after: Disk, shas: seq<string>, published: seq<Store>,
                           noops: seq<bool>, nexts: seq<Generation>)
    requires |published| == |noops| == |nexts| == |shas|
    reads runner
  {
    && Admissible(codec, after.log)
    && (|after.history| <= |shas| ==>
      Publishes(runner.parse, runner.project, runner.store, published, noops, |after.history|, nexts))
  }

  /** Nothing interrupts the session, and the file has room for what it records. */
  ghost predicate Unhindered(codec: Codec, project: string, after: Disk, shas: seq<string>,
                             faults: seq<(Fault, Fault)>, nexts: seq<Generation>, bound: nat)
  {
    |after.history| <= |shas| ==>
      CanFinish(codec, |File(codec, after.log)|, Latest(after.history), nexts, |after.history|, shas, project, faults, bound)
  }

  lemma ExpectedParts(codec: Codec, runner: Runner, after: Disk, shas: seq<string>, published: seq<Store>,
                      noops: seq<bool>, nexts: seq<Generation>)
    requires |published| == |noops| == |nexts| == |shas|
    requires Expected(codec, runner, after, shas, published, noops, nexts)
    ensures Admissible(codec, after.log)
    ensures |after.history| <= |shas| ==>
      Publishes(runner.parse, runner.project, runner.store, published, noops, |after.history|, nexts)
  {
    hide Admissible, Publishes;
  }

  lemma UnhinderedParts(codec: Codec, project: string, after: Disk, shas: seq<string>, faults: seq<(Fault, Fault)>,
                        nexts: seq<Generation>, bound: nat)
    requires |after.history| <= |shas|
    ensures Unhindered(codec, project, after, shas, faults, nexts, bound) ==>
      CanFinish(codec, |File(codec, after.log)|, Latest(after.history), nexts, |after.history|, shas, project, faults, bound)
  {
    hide CanFinish, File;
  }

  /** _build_repository behind a crash: it opens what is left of the file and goes on with the next commit. It
  may be cut short in its turn, and completes the selection when it is not. */
  method BuildAgain(codec: Codec, cacheBytes: nat, chunk: nat, file: Bytes, shas: seq<string>, runner: Runner,
                    published: seq<Store>, noops: seq<bool>, engineUpgrade: bool, faults: seq<(Fault, Fault)>,
                    ghost disk: Disk, ghost before: Disk, ghost full: Disk, ghost nexts: seq<Generation>,
                    ghost bound: nat)
    returns (complete: bool, recorder: KGARecorder, ghost after: Disk)
    requires chunk > 7 && Distinct(shas) && |published| == |noops| == |faults| == |nexts| == |shas|
    requires InSession(codec, runner, disk, shas) && Strikes(codec, runner, disk, before, full)
    requires Clean(codec, full.log) && before.synced <= |before.log|
    requires Start(codec, before.log, before.synced) <= |file| && file <= File(codec, full.log)
    requires forall left :: CrashesAt(codec, before, full, |file|, left) ==>
      Expected(codec, runner, left, shas, published, noops, nexts)
    modifies runner
    ensures CrashesAt(codec, before, full, |file|, after) && disk.history <= after.history
    ensures recorder.writer.codec == codec && Reaches(codec, after, DiskOf(recorder))
    ensures InSession(codec, runner, DiskOf(recorder), shas)
    ensures Archived(shas, recorder.writer.commits, recorder.history, after.history, nexts)
    ensures ShowsPublished(runner.parse, runner.project, published, recorder.history, |after.history|)
    ensures complete ==> Shas(recorder.writer.commits) == shas
    ensures Unhindered(codec, runner.project, after, shas, faults, nexts, bound) ==> complete
  {
    hide *;
    StrikesParts(codec, runner, disk, before, full);
    SessionParts(codec, runner, disk, shas);
    OneMoreCommit(codec, disk, before, full);
    var found := Open(codec, file, true, chunk);
    assert file == File(codec, full.log)[..|file|];
    var newest := OpenWitness(codec, file, found);
    after := CrashCanReopen(codec, before, full, |file|, newest, found);
    CrashKeepsSession(codec, runner, disk, before, full, |file|, after, shas);
    SessionParts(codec, runner, after, shas);
    IntactParts(codec, after);
    ArchivesCount(codec, after.log, after.history);
    ShasLength(shas, Commits(after.log));
    ExpectedParts(codec, runner, after, shas, published, noops, nexts);
    UnhinderedParts(codec, runner.project, after, shas, faults, nexts, bound);
    var writer := new Writer.Resume(codec, cacheBytes, found.value, after.log);
    WriterParts(writer);
    recorder := new KGARecorder(writer, after.history);
    DiskIs(recorder);
    assert DiskOf(recorder) == after;
    complete := BuildCommits(shas, runner, recorder, published, noops, engineUpgrade, faults, nexts, bound);
    ReachedIsIntact(codec, after, DiskOf(recorder));
    DiskIs(recorder);
    WriterParts(recorder.writer);
    ArchivedParts(shas, recorder.writer.commits, recorder.history, after.history, nexts);
    SessionParts(codec, runner, DiskOf(recorder), shas);
  }

  lemma OpenWitness(codec: Codec, file: Bytes, r: Result<Opened>) returns (newest: Newest)
    requires exists newest :: OpensTo(codec, file, true, newest, r)
    ensures OpensTo(codec, file, true, newest, r)
  {
    hide OpensTo;
    newest :| OpensTo(codec, file, true, newest, r);
  }

  lemma ArchivedParts(shas: seq<string>, commits: seq<Manifest>, history: seq<Generation>, past: seq<Generation>,
                      nexts: seq<Generation>)
    requires Archived(shas, commits, history, past, nexts)
    ensures Shas(commits) <= shas
  {
  }
}
