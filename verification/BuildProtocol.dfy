/** The protocol that ties the CBM store to the archive head: a commit is announced, indexed, captured,
recorded and acknowledged, and may be interrupted after any of these. */
module BuildProtocol {
  import opened Collections
  import opened Wrappers
  import opened Model
  import opened Log
  import opened Trees
  import opened ArchiveWriter
  import opened Recorder
  import opened StoreDiff
  import RadixTree
  import Runs

  function Shas(commits: seq<Manifest>): (shas: seq<string>)
    ensures |shas| == |commits|
    ensures forall i :: 0 <= i < |commits| ==> shas[i] == commits[i].sha
  {
    if commits == [] then [] else Shas(commits[..|commits| - 1]) + [commits[|commits| - 1].sha]
  }

  function Head(commits: seq<Manifest>): Option<string> {
    if commits == [] then None else Some(commits[|commits| - 1].sha)
  }

  /** The durable state of the CBM side: the published store and the files that name commits. */
  class Runner {
    const project: string
    const parse: Parser
    var store: Option<Store>
    var state: Option<string>
    var stateVersion: bool
    var pending: Option<string>

    constructor (project: string, parse: Parser)
      ensures this.project == project && this.parse == parse && store == None && pending == None && Current() == None
    {
      this.project, this.parse := project, parse;
      store, state, stateVersion, pending := None, None, false, None;
    }

    /** current_commit: state files of an unknown version are ignored. */
    function Current(): Option<string>
      reads this
    {
      if stateVersion then state else None
    }

    method BeginCommit(sha: string)
      modifies this`pending
      ensures pending == Some(sha)
    {
      pending := Some(sha);
    }

    /** index: CBM replaces the published store atomically. */
    method Index(published: Store)
      modifies this`store
      ensures store == Some(published)
    {
      store := Some(published);
    }

    /** mark_archived: three durable writes; an interruption leaves the first `writes` of them. */
    method MarkArchived(sha: string, writes: nat)
      modifies this`state, this`stateVersion, this`pending
      ensures writes >= 3 ==> Current() == Some(sha) && pending == None
      ensures writes < 3 ==> pending == old(pending)
    {
      if writes == 0 {
        return;
      }
      state := Some(sha);
      if writes == 1 {
        return;
      }
      stateVersion := true;
      if writes == 2 {
        return;
      }
      pending := None;
    }
  }

  /** Whenever the runner would let the next commit be captured as a difference, the published store
  holds the generation of the archive head. */
  ghost predicate Paired(runner: Runner, head: Option<string>, latest: Generation)
    reads runner
  {
    (head.Some? && (runner.pending == head || (runner.pending.None? && runner.Current() == head))) ==>
      runner.store.Some? && IsGeneration(runner.parse, runner.store.value, runner.project, latest)
  }

  datatype Target = Target(ordinal: nat, sha: string, previous: Option<string>)

  /** Where a run is interrupted, by a crash or an exception: after that many of its durable steps. */
  type Fault = nat

  const NEVER: Fault := 100

  lemma StorePairs(runner: Runner, head: Option<string>, latest: Generation)
    requires runner.store.Some? && IsGeneration(runner.parse, runner.store.value, runner.project, latest)
    ensures Paired(runner, head, latest)
  {
  }

  lemma AnnouncedPairs(runner: Runner, head: Option<string>, latest: Generation)
    requires runner.pending.Some? && runner.pending != head
    ensures Paired(runner, head, latest)
  {
  }

  lemma PairedStore(runner: Runner, head: Option<string>, latest: Generation)
    requires Paired(runner, head, latest) && head.Some?
    requires runner.pending == head || (runner.pending.None? && runner.Current() == head)
    ensures runner.store.Some? && IsGeneration(runner.parse, runner.store.value, runner.project, latest)
  {
  }

  /** _recover_committed_pending: a pending commit that the archive already holds only lacks its mark. */
  method RecoverCommittedPending(runner: Runner, head: Option<string>, fault: Fault, ghost latest: Generation)
    returns (done: bool)
    requires Paired(runner, head, latest)
    modifies runner`state, runner`stateVersion, runner`pending
    ensures Paired(runner, head, latest)
    ensures done <==> runner.pending.None? || runner.pending != head
    ensures fault >= 3 ==> done
    ensures runner.pending == old(runner.pending) || (runner.pending.None? && old(runner.pending) == head)
  {
    hide *;
    done := true;
    if runner.pending.Some? && head == runner.pending {
      PairedStore(runner, head, latest);
      runner.MarkArchived(runner.pending.value, fault);
      StorePairs(runner, head, latest);
      done := fault >= 3;
    }
  }

  lemma RecorderParts(recorder: KGARecorder)
    requires recorder.Valid()
    ensures recorder.writer.Valid() && recorder.writer.codec.Sound()
    ensures Archives(recorder.writer.codec, recorder.writer.log, recorder.history)
    ensures recorder.coverageRecorded == Latest(recorder.history).coverage.Some?
  {
  }

  lemma HeadIsArchived(commits: seq<Manifest>, sha: string)
    requires sha !in Shas(commits)
    ensures Head(commits) != Some(sha)
  {
    if commits != [] {
      assert Shas(commits)[|commits| - 1] in Shas(commits);
    }
  }

  /** The pinned store is the archive head's generation, and a no-op republishes it. */
  lemma PinnedIsAligned(parse: Parser, previous: Option<Store>, project: string, archived: Generation, next: Generation,
                        published: Store, noop: bool)
    requires previous.Some? ==> IsGeneration(parse, previous.value, project, archived)
    requires IsGeneration(parse, published, project, next)
    requires previous.Some? && noop ==> previous == Some(published)
    ensures Aligned(parse, previous, project, archived, archived, next, noop)
  {
    hide GoodStore, ValidGraph, RowsAre;
    if previous.Some? && noop {
      RowsAreUnique(NodePairs(published.nodes, project), NodeParser(parse), archived.nodes, next.nodes);
      RowsAreUnique(EdgePairs(published.nodes, published.edges, project), EdgeParser(parse), archived.edges, next.edges);
      if archived.coverage.Some? && next.coverage.Some? {
        RowsAreUnique(CoveragePairs(published.coverage, project), CoverageParser(),
          archived.coverage.value.rows, next.coverage.value.rows);
      }
    }
  }

  lemma StillArchives(codec: Codec, log: Records, more: Records, history: seq<Generation>)
    requires codec.Sound() && Archives(codec, log, history) && RadixTree.AppendsPages(log, more)
    ensures Archives(codec, more, history)
  {
    ArchivesPages(codec, log, more, history);
  }

  /** The target is the next commit, and so is whatever an interrupted build announced, unless that is the
  archived head. */
  predicate Fitting(target: Target, pending: Option<string>, head: Option<string>, position: nat) {
    && target.ordinal == position && target.previous == head
    && (pending.None? || pending == head || pending == Some(target.sha))
  }

  lemma FittingParts(target: Target, pending: Option<string>, head: Option<string>, position: nat)
    ensures Fitting(target, pending, head, position) <==>
      && target.ordinal == position && target.previous == head
      && (pending.None? || pending == head || pending == Some(target.sha))
  {
  }

  /** The checks at the start of build_commit, and the pin of a store that is aligned with the archive. */
  method PinPrevious(target: Target, runner: Runner, head: Option<string>, position: nat, forceSnapshot: bool,
                     recovery: Fault, ghost archived: Generation)
    returns (r: Result<Option<PinnedGeneration>>)
    requires Paired(runner, head, archived)
    modifies runner`state, runner`stateVersion, runner`pending
    ensures Paired(runner, head, archived)
    ensures r.Ok? ==> Fitting(target, old(runner.pending), head, position)
    ensures Fitting(target, old(runner.pending), head, position) && recovery >= 3 ==> r.Ok?
    ensures runner.pending == old(runner.pending) || runner.pending.None?
    ensures r.Ok? && r.value.Some? ==>
      && runner.store == Some(r.value.value.store)
      && r.value.value.project == runner.project && r.value.value.parse == runner.parse
      && IsGeneration(runner.parse, r.value.value.store, runner.project, archived)
  {
    hide *;
    FittingParts(target, runner.pending, head, position);
    if target.ordinal != position || target.previous != head {
      return Failure("target does not match the archive");
    }
    var recovered := RecoverCommittedPending(runner, head, recovery, archived);
    if !recovered || (runner.pending.Some? && runner.pending != Some(target.sha)) {
      return Failure("interrupted");
    }
    var aligned := runner.pending.None? && head.Some? && runner.Current() == head;
    if !aligned || forceSnapshot {
      return Ok(None);
    }
    PairedStore(runner, head, archived);
    var pinned := new PinnedGeneration(runner.store.value, runner.project, runner.parse);
    r := Ok(Some(pinned));
  }

  // ---- What a commit takes ----

  function CoverageSize(coverage: Option<CoverageState>): nat {
    if coverage.Some? then |coverage.value.rows| else 0
  }

  /** How many records it takes at most to record `next` behind `last`: one for each key of either, the
  roots, and the commit. */
  function Cost(last: Generation, next: Generation): nat {
    |last.nodes| + |next.nodes| + 1 + (|last.edges| + |next.edges| + 1)
      + (CoverageSize(last.coverage) + CoverageSize(next.coverage) + 1) + 1
  }

  /** Applicable changes name only keys of the rows before or after them. */
  lemma ChangesAreFew(rows: Rows, changes: Changes)
    requires Applicable(rows, changes)
    ensures |changes| <= |rows| + |Override(rows, changes)|
  {
    var after := Override(rows, changes);
    SubsetSize(changes.Keys, rows.Keys + after.Keys);
    assert |rows.Keys + after.Keys| <= |rows.Keys| + |after.Keys|;
  }

  lemma {:induction false} SubsetSize<T>(a: set<T>, b: set<T>)
    requires a <= b
    ensures |a| <= |b|
  {
    assert b == a + (b - a);
  }

  /** Whatever captures the next generation, recording it costs no more. */
  lemma CaptureIsSmall(last: Generation, capture: Capture, project: string)
    requires Next(last, capture, project).Ok?
    ensures RecordCount(capture) <= Cost(last, Next(last, capture, project).value)
  {
    hide Applicable, Override, NextGraph, NextCoverage;
    NextParts(last, capture, project);
    NextGraphCases(last, capture, project);
    ChangesAreFew(if capture.snapshot then map[] else last.nodes, capture.nodes);
    ChangesAreFew(if capture.snapshot then map[] else last.edges, capture.edges);
    if capture.coverage.Some? {
      var found := capture.coverage.value;
      NextCoverageParts(last.coverage, capture.coverage, project);
      ChangesAreFew(if found.snapshot then map[] else last.coverage.value.rows, found.rows);
    }
  }

  /** The published generation can be recorded behind the archived one, in records of at most `bound` bytes. */
  ghost predicate Recordable(codec: Codec, archived: Generation, next: Generation, target: Target, project: string,
                             bound: nat)
    requires codec.Sound()
  {
    && Advanced(archived, next).Ok? && GenerationWithin(codec, next, bound)
    && CommitWithin(codec, target.ordinal, target.sha, project, "", next, bound)
  }

  lemma RecordableFits(codec: Codec, archived: Generation, next: Generation, target: Target, project: string,
                       capture: Capture, bound: nat)
    requires codec.Sound() && Next(archived, capture, project) == Advanced(archived, next)
    ensures Recordable(codec, archived, next, target, project, bound) ==>
      && CaptureFits(codec, archived, capture, target.ordinal, target.sha, project, "", bound)
      && RecordCount(capture) <= Cost(archived, next)
  {
    hide Next, GenerationWithin, CommitWithin, RecordCount, Cost;
    AdvancedIs(archived, next);
    if Advanced(archived, next).Ok? {
      CaptureIsSmall(archived, capture, project);
    }
  }

  /** What one attempt may do to the archive: nothing, or append the target with its generation. */
  ghost predicate AtMostAppends(before: seq<Manifest>, past: seq<Generation>, after: seq<Manifest>,
                                history: seq<Generation>, sha: string, next: Generation)
  {
    || (after == before && history == past)
    || (|after| == |before| + 1 && after[..|before|] == before && after[|before|].sha == sha && history == past + [next])
  }

  /** The append of a capture that folds to the published generation, unless coverage was lost. */
  method AppendCapture(target: Target, recorder: KGARecorder, capture: Capture, project: string, ghost next: Generation,
                       ghost bound: nat)
    returns (r: Result<Manifest>)
    requires recorder.Valid()
    requires Next(Latest(recorder.history), capture, project) == Advanced(Latest(recorder.history), next)
    modifies recorder, recorder.writer, recorder.writer.cache
    ensures recorder.writer.Valid() && recorder.writer.codec.Sound()
    ensures Archives(recorder.writer.codec, recorder.writer.log, recorder.history)
    ensures Runs.Reaches(recorder.writer.codec, old(Runs.DiskOf(recorder)), Runs.DiskOf(recorder))
    ensures r.Failure? ==> recorder.writer.commits == old(recorder.writer.commits) && recorder.history == old(recorder.history)
    ensures r.Ok? ==>
      && recorder.Valid() && recorder.history == old(recorder.history) + [next]
      && recorder.writer.commits == old(recorder.writer.commits) + [r.value]
      && r.value.ordinal == target.ordinal && r.value.sha == target.sha
      && Holds(recorder.writer.codec, PagesOf(recorder.writer.codec, recorder.writer.log), r.value, next)
    ensures var cost := Cost(Latest(old(recorder.history)), next);
      Recordable(recorder.writer.codec, Latest(old(recorder.history)), next, target, project, bound) ==>
        && (HasRoom(|old(recorder.writer.file)|, cost, bound) ==> r.Ok?)
        && (r.Ok? ==> Grew(|old(recorder.writer.file)|, |recorder.writer.file|, cost, bound))
  {
    hide *;
    ghost var codec, archived, disk := recorder.writer.codec, Latest(recorder.history), Runs.DiskOf(recorder);
    ghost var size, cost, count := |recorder.writer.file|, Cost(archived, next), RecordCount(capture);
    Runs.DiskIs(recorder);
    Runs.RecorderIsIntact(recorder);
    AdvancedIs(archived, next);
    RecorderParts(recorder);
    RecordableFits(codec, archived, next, target, project, capture, bound);
    RoomForFewer(size, count, cost, bound);
    r := recorder.Append(target.ordinal, target.sha, capture, project, "", bound);
    if r.Failure? {
      Runs.DiskIs(recorder);
      Runs.PagesReach(codec, disk, recorder.writer.log);
      StillArchives(codec, disk.log, recorder.writer.log, recorder.history);
      return;
    }
    GrewByFewer(size, |recorder.writer.file|, count, cost, bound);
    RecorderParts(recorder);
    Runs.RecorderIsIntact(recorder);
    Runs.CommitReaches(codec, disk, Runs.DiskOf(recorder), r.value, next);
  }

  lemma RoomForFewer(size: nat, count: nat, cost: nat, bound: nat)
    ensures count <= cost && HasRoom(size, cost, bound) ==> HasRoom(size, count, bound)
  {
    hide HasRoom;
    if count <= cost && HasRoom(size, cost, bound) {
      RoomWithin(size, count, cost, bound);
    }
  }

  lemma GrewByFewer(before: nat, after: nat, count: nat, cost: nat, bound: nat)
    ensures count <= cost && Grew(before, after, count, bound) ==> Grew(before, after, cost, bound)
  {
    hide Grew;
    if count <= cost && Grew(before, after, count, bound) {
      GrewWithin(before, after, count, cost, bound);
    }
  }

  /** Capture, append and acknowledge, after CBM published the target's generation. */
  method RecordGeneration(target: Target, runner: Runner, recorder: KGARecorder, previous: Option<PinnedGeneration>,
                          published: Store, noop: bool, forceSnapshot: bool, fault: Fault, ghost next: Generation,
                          ghost bound: nat)
    returns (r: Result<Manifest>)
    requires recorder.Valid() && runner.store == Some(published) && runner.pending == Some(target.sha)
    requires Head(recorder.writer.commits) != Some(target.sha)
    requires IsGeneration(runner.parse, published, runner.project, next)
    requires previous.Some? ==>
      && previous.value.project == runner.project && previous.value.parse == runner.parse
      && IsGeneration(runner.parse, previous.value.store, runner.project, Latest(recorder.history))
      && (noop ==> previous.value.store == published)
    modifies runner, recorder, recorder.writer, recorder.writer.cache
    ensures recorder.writer.Valid() && recorder.writer.codec.Sound()
    ensures Archives(recorder.writer.codec, recorder.writer.log, recorder.history)
    ensures Paired(runner, Head(recorder.writer.commits), Latest(recorder.history))
    ensures AtMostAppends(old(recorder.writer.commits), old(recorder.history),
      recorder.writer.commits, recorder.history, target.sha, next)
    ensures r.Ok? ==>
      && recorder.Valid() && recorder.writer.commits == old(recorder.writer.commits) + [r.value]
      && Holds(recorder.writer.codec, PagesOf(recorder.writer.codec, recorder.writer.log), r.value, next)
      && runner.pending.None?
    ensures Shows(runner.parse, published, runner.project, next)
    ensures runner.store == old(runner.store) && (runner.pending.None? || runner.pending == Some(target.sha))
    ensures var cost := Cost(Latest(old(recorder.history)), next);
      Recordable(recorder.writer.codec, Latest(old(recorder.history)), next, target, runner.project, bound) ==>
        && (fault >= 8 && HasRoom(|old(recorder.writer.file)|, cost, bound) ==> r.Ok?)
        && (r.Ok? ==> Grew(|old(recorder.writer.file)|, |recorder.writer.file|, cost, bound))
    ensures Runs.Reaches(recorder.writer.codec, old(Runs.DiskOf(recorder)), Runs.DiskOf(recorder))
  {
    hide *;
    ghost var commits, archived := recorder.writer.commits, Latest(recorder.history);
    Runs.ReachesItself(recorder.writer.codec, Runs.DiskOf(recorder));
    RecorderParts(recorder);
    GenerationShows(runner.parse, published, runner.project, next);
    AnnouncedPairs(runner, Head(commits), archived);
    Unappended(recorder.writer.commits, recorder.history, target.sha, next);
    PinnedIsAligned(runner.parse, if previous.Some? && !forceSnapshot then Some(previous.value.store) else None,
      runner.project, archived, next, published, noop);
    var capture := CaptureGeneration(runner.parse, previous, published, runner.project, forceSnapshot,
      !recorder.coverageRecorded, noop, archived, archived, next);
    if capture.Failure? || fault == 3 {
      return Failure("interrupted");
    }
    AdvancedIs(archived, next);
    var recorded := AppendCapture(target, recorder, capture.value, runner.project, next, bound);
    if recorded.Failure? {
      AnnouncedPairs(runner, Head(commits), archived);
      Unappended(recorder.writer.commits, recorder.history, target.sha, next);
      return Failure("interrupted");
    }
    LatestOf(old(recorder.history), next);
    RecorderParts(recorder);
    Appended(commits, old(recorder.history), target.sha, next, recorded.value);
    StorePairs(runner, Head(recorder.writer.commits), next);
    if fault == 4 {
      return Failure("interrupted");
    }
    runner.MarkArchived(target.sha, if fault < 5 then 0 else fault - 5);
    StorePairs(runner, Head(recorder.writer.commits), next);
    if fault < 8 {
      return Failure("interrupted");
    }
    r := recorded;
  }

  lemma Unappended(commits: seq<Manifest>, history: seq<Generation>, sha: string, next: Generation)
    ensures AtMostAppends(commits, history, commits, history, sha, next)
  {
  }

  lemma Appended(commits: seq<Manifest>, history: seq<Generation>, sha: string, next: Generation, manifest: Manifest)
    requires manifest.sha == sha
    ensures AtMostAppends(commits, history, commits + [manifest], history + [next], sha, next)
  {
  }

  /** build_commit. `published` is what CBM publishes for the target and `noop` its report that nothing
  changed; `recovery` and `fault` place an interruption. A commit that reaches the archive holds exactly
  the generation published for it, and the pairing survives every interruption. */
  method BuildCommit(target: Target, runner: Runner, recorder: KGARecorder, published: Store, noop: bool,
                     forceSnapshot: bool, recovery: Fault, fault: Fault, ghost next: Generation, ghost bound: nat)
    returns (r: Result<Manifest>)
    requires recorder.Valid()
    requires Paired(runner, Head(recorder.writer.commits), Latest(recorder.history))
    requires target.sha !in Shas(recorder.writer.commits)
    requires IsGeneration(runner.parse, published, runner.project, next)
    requires noop ==> runner.store == Some(published)
    modifies runner, recorder, recorder.writer, recorder.writer.cache
    ensures recorder.writer.Valid() && recorder.writer.codec.Sound()
    ensures Archives(recorder.writer.codec, recorder.writer.log, recorder.history)
    ensures Paired(runner, Head(recorder.writer.commits), Latest(recorder.history))
    ensures AtMostAppends(old(recorder.writer.commits), old(recorder.history),
      recorder.writer.commits, recorder.history, target.sha, next)
    ensures r.Ok? ==>
      && recorder.Valid() && recorder.writer.commits == old(recorder.writer.commits) + [r.value]
      && Holds(recorder.writer.codec, PagesOf(recorder.writer.codec, recorder.writer.log), r.value, next)
      && Fitting(target, old(runner.pending), Head(old(recorder.writer.commits)), |old(recorder.writer.commits)|)
      && runner.store == Some(published) && runner.pending.None?
    ensures Shows(runner.parse, published, runner.project, next)
    ensures runner.pending.None? || runner.pending == Some(target.sha)
      || (runner.pending == old(runner.pending) && recorder.writer.commits == old(recorder.writer.commits))
    ensures
      var cost, fitting := Cost(Latest(old(recorder.history)), next),
        Fitting(target, old(runner.pending), Head(old(recorder.writer.commits)), |old(recorder.writer.commits)|);
      Recordable(recorder.writer.codec, Latest(old(recorder.history)), next, target, runner.project, bound) ==>
        && (fitting && recovery >= 3 && fault >= 8 && HasRoom(|old(recorder.writer.file)|, cost, bound) ==> r.Ok?)
        && (r.Ok? ==> Grew(|old(recorder.writer.file)|, |recorder.writer.file|, cost, bound))
    ensures Runs.Reaches(recorder.writer.codec, old(Runs.DiskOf(recorder)), Runs.DiskOf(recorder))
  {
    hide *;
    RecorderParts(recorder);
    Runs.ReachesItself(recorder.writer.codec, Runs.DiskOf(recorder));
    HeadIsArchived(recorder.writer.commits, target.sha);
    GenerationShows(runner.parse, published, runner.project, next);
    Unappended(recorder.writer.commits, recorder.history, target.sha, next);
    var head := Head(recorder.writer.commits);
    var previous := PinPrevious(target, runner, head, |recorder.writer.commits|, forceSnapshot, recovery,
      Latest(recorder.history));
    if previous.Failure? || fault == 0 {
      return Failure("interrupted");
    }
    runner.BeginCommit(target.sha);
    AnnouncedPairs(runner, head, Latest(recorder.history));
    if fault == 1 {
      return Failure("interrupted");
    }
    runner.Index(published);
    AnnouncedPairs(runner, head, Latest(recorder.history));
    if fault == 2 {
      return Failure("interrupted");
    }
    r := RecordGeneration(target, runner, recorder, previous.value, published, noop, forceSnapshot, fault, next,
      bound);
  }

  lemma AdvancedIs(archived: Generation, next: Generation)
    ensures Advanced(archived, next).Ok? ==> Advanced(archived, next) == Ok(next)
  {
  }

  // ---- The commit loop ----

  /** CBM publishes a valid generation for every commit from `first` on, and reports a no-op only when it
  left the store alone. */
  ghost predicate Publishes(parse: Parser, project: string, store: Option<Store>, published: seq<Store>,
                            noops: seq<bool>, first: nat, nexts: seq<Generation>)
    requires first <= |published| == |noops| == |nexts|
  {
    && (forall i :: first <= i < |published| ==> IsGeneration(parse, published[i], project, nexts[i]))
    && (forall i :: first < i < |published| && noops[i] ==> published[i] == published[i - 1])
    && (first < |published| && noops[first] ==> store == Some(published[first]))
  }

  /** The archive holds the first commits of the selection, and from `first` on their generations. */
  ghost predicate Archived(shas: seq<string>, commits: seq<Manifest>, history: seq<Generation>, past: seq<Generation>,
                           nexts: seq<Generation>)
  {
    && Shas(commits) <= shas && |history| == |commits| && |shas| == |nexts|
    && past <= history && forall i :: |past| <= i < |history| ==> history[i] == nexts[i]
  }

  lemma ShasLength(shas: seq<string>, commits: seq<Manifest>)
    requires Shas(commits) <= shas
    ensures |commits| <= |shas|
  {
  }

  lemma NothingBuilt(shas: seq<string>, commits: seq<Manifest>, past: seq<Generation>, nexts: seq<Generation>)
    requires Shas(commits) <= shas && |past| == |commits| && |shas| == |nexts|
    ensures Archived(shas, commits, past, past, nexts)
  {
  }

  /** What was archived from `first` on has the contents of the stores that CBM published. */
  ghost predicate ShowsPublished(parse: Parser, project: string, published: seq<Store>, history: seq<Generation>, first: nat)
  {
    forall i :: first <= i < |history| ==> i < |published| && Shows(parse, published[i], project, history[i])
  }

  lemma NothingShown(parse: Parser, project: string, published: seq<Store>, history: seq<Generation>)
    ensures ShowsPublished(parse, project, published, history, |history|)
  {
  }

  lemma AttemptShows(parse: Parser, project: string, published: seq<Store>, history: seq<Generation>, first: nat,
                     commits: seq<Manifest>, after: seq<Manifest>, later: seq<Generation>, sha: string, next: Generation)
    requires ShowsPublished(parse, project, published, history, first) && |history| < |published|
    requires Shows(parse, published[|history|], project, next)
    requires AtMostAppends(commits, history, after, later, sha, next)
    ensures ShowsPublished(parse, project, published, later, first)
  {
    hide Shows;
  }

  lemma ArchivedSize(shas: seq<string>, commits: seq<Manifest>, history: seq<Generation>, past: seq<Generation>,
                     nexts: seq<Generation>)
    requires Archived(shas, commits, history, past, nexts)
    ensures |history| == |commits|
  {
  }

  /** Selected commits are distinct, so the next one is not archived yet. */
  lemma NextIsNew(shas: seq<string>, commits: seq<Manifest>, history: seq<Generation>, past: seq<Generation>,
                  nexts: seq<Generation>)
    requires Distinct(shas) && Archived(shas, commits, history, past, nexts) && |commits| < |shas|
    ensures shas[|commits|] !in Shas(commits)
  {
    forall i | 0 <= i < |commits| ensures Shas(commits)[i] != shas[|commits|] {
      assert shas[i] == Shas(commits)[i];
    }
  }

  lemma PublishedNext(parse: Parser, project: string, store: Option<Store>, published: seq<Store>, noops: seq<bool>,
                      i: nat, nexts: seq<Generation>)
    requires i < |published| == |noops| == |nexts| && Publishes(parse, project, store, published, noops, i, nexts)
    ensures IsGeneration(parse, published[i], project, nexts[i])
    ensures noops[i] ==> store == Some(published[i])
    ensures Publishes(parse, project, Some(published[i]), published, noops, i + 1, nexts)
  {
    hide IsGeneration;
  }

  lemma AttemptArchives(shas: seq<string>, commits: seq<Manifest>, history: seq<Generation>, past: seq<Generation>,
                        nexts: seq<Generation>, after: seq<Manifest>, later: seq<Generation>)
    requires Archived(shas, commits, history, past, nexts) && |commits| < |shas|
    requires AtMostAppends(commits, history, after, later, shas[|commits|], nexts[|commits|])
    ensures Archived(shas, after, later, past, nexts)
  {
    var old', new' := Shas(commits), Shas(after);
    forall i | 0 <= i < |new'| ensures i < |shas| && new'[i] == shas[i] {
      assert i < |commits| ==> after[i] == commits[i] && old'[i] == shas[i];
    }
    assert new' == shas[..|new'|];
  }

  /** What an interrupted build may have announced: nothing, the archived head, or the commit to build next. */
  predicate Continues(pending: Option<string>, commits: seq<Manifest>, shas: seq<string>) {
    pending.None? || pending == Head(commits) || (|commits| < |shas| && pending == Some(shas[|commits|]))
  }

  function TargetOf(shas: seq<string>, i: nat): Target
    requires i < |shas|
  {
    Target(i, shas[i], if i > 0 then Some(shas[i - 1]) else None)
  }

  /** From the first commit on nothing interrupts, and each generation can be recorded behind the last. */
  ghost predicate CanBuildAll(codec: Codec, archived: Generation, nexts: seq<Generation>, first: nat, shas: seq<string>,
                              project: string, faults: seq<(Fault, Fault)>, bound: nat)
    requires codec.Sound() && |nexts| == |shas| == |faults|
  {
    forall i :: first <= i < |nexts| ==>
      && faults[i].0 >= 3 && faults[i].1 >= 8
      && Recordable(codec, Before(archived, nexts, first, i), nexts[i], TargetOf(shas, i), project, bound)
  }

  /** The generation that number i is recorded behind. */
  function Before(archived: Generation, nexts: seq<Generation>, first: nat, i: nat): Generation
    requires first <= i < |nexts|
  {
    if i == first then archived else nexts[i - 1]
  }

  function TotalCost(last: Generation, nexts: seq<Generation>): nat
    decreases |nexts|
  {
    if nexts == [] then 0 else Cost(last, nexts[0]) + TotalCost(nexts[0], nexts[1..])
  }

  lemma CanBuildNext(codec: Codec, archived: Generation, nexts: seq<Generation>, first: nat, shas: seq<string>,
                     project: string, faults: seq<(Fault, Fault)>, bound: nat)
    requires codec.Sound() && |nexts| == |shas| == |faults| && first < |nexts|
    requires CanBuildAll(codec, archived, nexts, first, shas, project, faults, bound)
    ensures faults[first].0 >= 3 && faults[first].1 >= 8
    ensures Recordable(codec, archived, nexts[first], TargetOf(shas, first), project, bound)
    ensures CanBuildAll(codec, nexts[first], nexts, first + 1, shas, project, faults, bound)
  {
    hide Recordable, Codec.Sound, TargetOf;
    assert Before(archived, nexts, first, first) == archived;
    forall i | first + 1 <= i < |nexts|
      ensures Before(nexts[first], nexts, first + 1, i) == Before(archived, nexts, first, i)
    {
    }
  }

  lemma TotalCostFrom(last: Generation, nexts: seq<Generation>, first: nat)
    requires first < |nexts|
    ensures TotalCost(last, nexts[first..]) == Cost(last, nexts[first]) + TotalCost(nexts[first], nexts[first + 1..])
  {
    assert nexts[first..][1..] == nexts[first + 1..];
  }

  /** Nothing interrupts the commits that are left, and the file of that size has room for them. */
  ghost predicate CanFinish(codec: Codec, size: nat, latest: Generation, nexts: seq<Generation>, first: nat,
                            shas: seq<string>, project: string, faults: seq<(Fault, Fault)>, bound: nat)
  {
    && codec.Sound() && |nexts| == |shas| == |faults| && first <= |nexts|
    && CanBuildAll(codec, latest, nexts, first, shas, project, faults, bound)
    && HasRoom(size, TotalCost(latest, nexts[first..]), bound)
  }

  lemma CanFinishNext(codec: Codec, size: nat, latest: Generation, nexts: seq<Generation>, first: nat, shas: seq<string>,
                      project: string, faults: seq<(Fault, Fault)>, bound: nat)
    requires CanFinish(codec, size, latest, nexts, first, shas, project, faults, bound)
    requires codec.Sound() && first < |nexts| == |shas| == |faults|
    ensures faults[first].0 >= 3 && faults[first].1 >= 8
    ensures Recordable(codec, latest, nexts[first], TargetOf(shas, first), project, bound)
    ensures HasRoom(size, Cost(latest, nexts[first]), bound)
    ensures forall later: nat :: Grew(size, later, Cost(latest, nexts[first]), bound) ==>
      CanFinish(codec, later, nexts[first], nexts, first + 1, shas, project, faults, bound)
  {
    hide CanBuildAll, Recordable, HasRoom, Grew, TotalCost, TargetOf, Codec.Sound;
    CanBuildNext(codec, latest, nexts, first, shas, project, faults, bound);
    TotalCostFrom(latest, nexts, first);
    var cost, rest := Cost(latest, nexts[first]), TotalCost(nexts[first], nexts[first + 1..]);
    RoomForTwo(size, size, cost, rest, bound);
    forall later: nat | Grew(size, later, cost, bound)
      ensures CanFinish(codec, later, nexts[first], nexts, first + 1, shas, project, faults, bound)
    {
      RoomForTwo(size, later, cost, rest, bound);
    }
  }

  /** The next target of the selection follows the archived head. */
  lemma TargetFits(shas: seq<string>, commits: seq<Manifest>, history: seq<Generation>, past: seq<Generation>,
                   nexts: seq<Generation>, pending: Option<string>)
    requires Archived(shas, commits, history, past, nexts) && |commits| < |shas|
    ensures TargetOf(shas, |commits|).previous == Head(commits)
    ensures Continues(pending, commits, shas) ==> Fitting(TargetOf(shas, |commits|), pending, Head(commits), |commits|)
  {
    if commits != [] {
      assert Shas(commits)[|commits| - 1] == shas[|commits| - 1];
    }
  }

  /** Whatever interrupts an attempt, the next one can go on. */
  lemma StillContinues(shas: seq<string>, commits: seq<Manifest>, history: seq<Generation>, pending: Option<string>,
                       after: seq<Manifest>, later: seq<Generation>, left: Option<string>, next: Generation)
    requires |commits| < |shas| && AtMostAppends(commits, history, after, later, shas[|commits|], next)
    requires left.None? || left == Some(shas[|commits|]) || (left == pending && after == commits)
    ensures Continues(pending, commits, shas) ==> Continues(left, after, shas)
  {
  }

  lemma TargetIs(shas: seq<string>, i: nat)
    requires i < |shas|
    ensures TargetOf(shas, i) == Target(i, shas[i], if i > 0 then Some(shas[i - 1]) else None)
  {
  }

  lemma AttemptLatest(commits: seq<Manifest>, history: seq<Generation>, after: seq<Manifest>, later: seq<Generation>,
                      sha: string, next: Generation)
    requires AtMostAppends(commits, history, after, later, sha, next) && |after| == |commits| + 1
    ensures Latest(later) == next
  {
  }

  lemma AllArchived(shas: seq<string>, commits: seq<Manifest>, history: seq<Generation>, past: seq<Generation>,
                    nexts: seq<Generation>)
    requires Archived(shas, commits, history, past, nexts) && |commits| >= |shas|
    ensures Shas(commits) == shas
  {
  }

  /** The commit loop of _build_repository: it archives every selected commit in order, each with the
  generation published for it, or stops with a prefix of them. */
  method BuildCommits(shas: seq<string>, runner: Runner, recorder: KGARecorder, published: seq<Store>, noops: seq<bool>,
                      engineUpgrade: bool, faults: seq<(Fault, Fault)>, ghost nexts: seq<Generation>, ghost bound: nat)
    returns (complete: bool)
    requires recorder.Valid() && Distinct(shas) && Shas(recorder.writer.commits) <= shas
    requires |recorder.history| == |recorder.writer.commits|
    requires |published| == |noops| == |faults| == |nexts| == |shas|
    requires Publishes(runner.parse, runner.project, runner.store, published, noops, |recorder.writer.commits|, nexts)
    requires Paired(runner, Head(recorder.writer.commits), Latest(recorder.history))
    modifies runner, recorder, recorder.writer, recorder.writer.cache
    ensures recorder.writer.Valid() && recorder.writer.codec.Sound()
    ensures Archives(recorder.writer.codec, recorder.writer.log, recorder.history)
    ensures Paired(runner, Head(recorder.writer.commits), Latest(recorder.history))
    ensures Archived(shas, recorder.writer.commits, recorder.history, old(recorder.history), nexts)
    ensures complete ==> recorder.Valid() && Shas(recorder.writer.commits) == shas
    ensures ShowsPublished(runner.parse, runner.project, published, recorder.history, |old(recorder.history)|)
    ensures Runs.Reaches(recorder.writer.codec, old(Runs.DiskOf(recorder)), Runs.DiskOf(recorder))
    ensures Continues(old(runner.pending), old(recorder.writer.commits), shas) ==>
      Continues(runner.pending, recorder.writer.commits, shas)
    ensures
      && Continues(old(runner.pending), old(recorder.writer.commits), shas)
      && CanFinish(recorder.writer.codec, |old(recorder.writer.file)|, Latest(old(recorder.history)), nexts,
           |old(recorder.writer.commits)|, shas, runner.project, faults, bound)
      ==> complete
  {
    hide *;
    RecorderParts(recorder);
    ghost var codec, past, start := recorder.writer.codec, recorder.history, Runs.DiskOf(recorder);
    ghost var continues := Continues(runner.pending, recorder.writer.commits, shas);
    ghost var good := continues && CanFinish(codec, |recorder.writer.file|, Latest(past), nexts,
      |recorder.writer.commits|, shas, runner.project, faults, bound);
    Runs.ReachesItself(codec, start);
    var force := engineUpgrade;
    var ordinal := |recorder.writer.commits|;
    ShasLength(shas, recorder.writer.commits);
    NothingBuilt(shas, recorder.writer.commits, past, nexts);
    NothingShown(runner.parse, runner.project, published, past);
    while ordinal < |shas|
      invariant recorder.Valid() && ordinal == |recorder.writer.commits| <= |shas|
      invariant Paired(runner, Head(recorder.writer.commits), Latest(recorder.history))
      invariant Publishes(runner.parse, runner.project, runner.store, published, noops, ordinal, nexts)
      invariant Archived(shas, recorder.writer.commits, recorder.history, past, nexts)
      invariant ShowsPublished(runner.parse, runner.project, published, recorder.history, |past|)
      invariant Runs.Reaches(codec, start, Runs.DiskOf(recorder))
      invariant continues ==> Continues(runner.pending, recorder.writer.commits, shas)
      invariant good ==> CanFinish(codec, |recorder.writer.file|, Latest(recorder.history), nexts, ordinal, shas,
        runner.project, faults, bound)
    {
      var target := Target(ordinal, shas[ordinal], if ordinal > 0 then Some(shas[ordinal - 1]) else None);
      TargetIs(shas, ordinal);
      NextIsNew(shas, recorder.writer.commits, recorder.history, past, nexts);
      PublishedNext(runner.parse, runner.project, runner.store, published, noops, ordinal, nexts);
      TargetFits(shas, recorder.writer.commits, recorder.history, past, nexts, runner.pending);
      ghost var commits, history, pending, disk := recorder.writer.commits, recorder.history, runner.pending,
        Runs.DiskOf(recorder);
      if good {
        CanFinishNext(codec, |recorder.writer.file|, Latest(history), nexts, ordinal, shas, runner.project, faults, bound);
      }
      var built := BuildCommit(target, runner, recorder, published[ordinal], noops[ordinal], force, faults[ordinal].0,
        faults[ordinal].1, nexts[ordinal], bound);
      Runs.ReachesOn(codec, start, disk, Runs.DiskOf(recorder));
      AttemptArchives(shas, commits, history, past, nexts, recorder.writer.commits, recorder.history);
      ArchivedSize(shas, commits, history, past, nexts);
      AttemptShows(runner.parse, runner.project, published, history, |past|, commits, recorder.writer.commits,
        recorder.history, shas[ordinal], nexts[ordinal]);
      StillContinues(shas, commits, history, pending, recorder.writer.commits, recorder.history, runner.pending,
        nexts[ordinal]);
      if built.Failure? {
        return false;
      }
      RecorderParts(recorder);
      AttemptLatest(commits, history, recorder.writer.commits, recorder.history, shas[ordinal], nexts[ordinal]);
      force := false;
      ordinal := ordinal + 1;
    }
    RecorderParts(recorder);
    AllArchived(shas, recorder.writer.commits, recorder.history, past, nexts);
    complete := true;
  }
}
