/** A crash keeps any prefix of the file; reopening it recovers every commit that the prefix keeps
whole, in order, and leaves a file that the same guarantee covers again. */
module Durability {
  import opened Wrappers
  import opened Text
  import opened Model
  import opened Wire
  import opened Log
  import opened Trailers
  import opened Chain
  import opened Scan
  import opened Recovery
  import opened Reopen

  /** The cut keeps exactly the first k records whole. */
  ghost predicate Keeps(codec: Codec, log: Records, cut: nat, k: nat) {
    && k <= |log| && Start(codec, log, k) <= cut <= |File(codec, log)|
    && (k < |log| ==> cut < Start(codec, log, k + 1))
  }

  lemma KeptCount(codec: Codec, log: Records, cut: nat) returns (k: nat)
    requires MAGIC_SIZE <= cut <= |File(codec, log)|
    ensures Keeps(codec, log, cut, k)
  {
    hide File;
    k := 0;
    assert log[..0] == [];
    EmptyFile(codec);
    while k < |log| && Start(codec, log, k + 1) <= cut
      invariant k <= |log| && Start(codec, log, k) <= cut
    {
      k := k + 1;
    }
  }

  lemma EmptyFile(codec: Codec)
    ensures File(codec, []) == Magic() && |File(codec, [])| == MAGIC_SIZE
  {
  }

  lemma KeptBelow(codec: Codec, log: Records, cut: nat, k: nat, i: nat)
    requires codec.Sound() && Keeps(codec, log, cut, k) && i < |log|
    ensures i < k <==> Start(codec, log, i + 1) <= cut
  {
    hide Codec.Sound;
    if i < k {
      StartOfPrefix(codec, log, i + 1, k);
    } else {
      StartOfPrefix(codec, log, k + 1, i + 1);
    }
  }

  predicate IsCommit(record: Record) {
    record.CommitRecord? || record.BareCommit?
  }

  lemma {:induction false} SameCommits(log: Records, a: nat, b: nat)
    requires a <= b <= |log| && forall i :: a <= i < b ==> !IsCommit(log[i])
    ensures Commits(log[..b]) == Commits(log[..a])
    decreases b
  {
    if a < b {
      assert log[..b][..b - 1] == log[..b - 1];
      SameCommits(log, a, b - 1);
    }
  }

  /** Behind a trailer every commit has one. */
  lemma NoBareAfterAnchor(codec: Codec, log: Records, i: nat, m: nat)
    requires codec.Sound() && WellFormed(codec, log) && i < m < |log| && IsAnchor(log[i])
    ensures !log[m].BareCommit?
  {
    hide File;
    WellFormedPrefix(codec, log, m + 1);
    assert log[..m + 1][..m] == log[..m];
    assert log[..m][i] == log[i];
    if log[m].BareCommit? {
      NoHead(codec, log[..m]);
    }
  }

  // ---- The chain ----

  /** From the newest trailer of the first j records the chain reaches exactly their commits. */
  lemma {:induction false} ChainReachesCommits(codec: Codec, log: Records, j: nat, cut: nat, seen: set<nat>)
    requires Clean(codec, log) && j <= |log| && Start(codec, log, j) <= cut <= |File(codec, log)|
    requires forall x :: x in seen ==> x > Head(codec, log[..j])
    requires Head(codec, log[..j]) == 0 ==> Commits(log[..j]) == []
    ensures Walk(codec, File(codec, log)[..cut], Head(codec, log[..j]), seen) == Ok(Commits(log[..j]))
    decreases j
  {
    hide *;
    CleanParts(codec, log);
    var data, head := File(codec, log)[..cut], Head(codec, log[..j]);
    if head == 0 {
      WalkToZero(codec, data, seen);
    } else {
      var i := NewestAnchor(codec, log, j);
      StartOfPrefix(codec, log, i + 1, j);
      if log[i].IndexRecord? {
        IndexReadsBack(codec, log, i, cut);
        WalkToIndex(codec, data, head, seen);
        PlainStep(log, i);
      } else {
        CheckpointReadsBack(codec, log, i, cut);
        PreviousIsOffset(codec, log, i);
        StartOfPrefix(codec, log, i, j);
        HeadInside(codec, log[..i]);
        TrailerBehindStart(codec, log, i);
        ChainReachesCommits(codec, log, i, cut, seen + {head});
        CommitStep(log, i);
        WalkToCheckpoint(codec, data, head, seen);
      }
    }
  }

  lemma TrailerBehindStart(codec: Codec, log: Records, i: nat)
    requires codec.Sound() && i < |log|
    ensures |File(codec, log[..i])| == Start(codec, log, i) < TrailerStart(codec, log, i)
  {
    RecordIsLarge(codec, log, i);
  }

  lemma NewestAnchor(codec: Codec, log: Records, j: nat) returns (i: nat)
    requires codec.Sound() && WellFormed(codec, log) && j <= |log| && Head(codec, log[..j]) != 0
    ensures i < j && (log[i].CommitRecord? || log[i].IndexRecord?)
    ensures Head(codec, log[..j]) == TrailerStart(codec, log, i)
    ensures Commits(log[..j]) == Commits(log[..i + 1])
  {
    hide File, Frame, Codec.Sound;
    WellFormedPrefix(codec, log, j);
    i := HeadRecord(codec, log[..j]);
    assert log[..j][..i + 1] == log[..i + 1] && log[..j][..i] == log[..i];
  }

  lemma PlainStep(log: Records, i: nat)
    requires i < |log| && !log[i].CommitRecord? && !log[i].BareCommit?
    ensures Commits(log[..i + 1]) == Commits(log[..i])
  {
    assert log[..i + 1][..i] == log[..i];
  }

  lemma CommitStep(log: Records, i: nat)
    requires i < |log| && (log[i].CommitRecord? || log[i].BareCommit?)
    ensures Commits(log[..i + 1]) == Commits(log[..i]) + [log[i].manifest]
  {
    assert log[..i + 1][..i] == log[..i];
  }

  lemma WalkToZero(codec: Codec, data: Bytes, seen: set<nat>)
    ensures Walk(codec, data, 0, seen) == Ok([])
  {
  }

  lemma WalkToIndex(codec: Codec, data: Bytes, offset: nat, seen: set<nat>)
    requires offset != 0 && offset !in seen && HasFooterMark(data, offset) && ReadIndex(codec, data, offset).Some?
    ensures Walk(codec, data, offset, seen) == Ok(ReadIndex(codec, data, offset).value.1)
  {
  }

  lemma WalkToCheckpoint(codec: Codec, data: Bytes, offset: nat, seen: set<nat>)
    requires offset != 0 && offset !in seen && !HasFooterMark(data, offset) && ReadCheckpoint(codec, data, offset).Some?
    requires Walk(codec, data, ReadCheckpoint(codec, data, offset).value.previous, seen + {offset}).Ok?
    ensures Walk(codec, data, offset, seen) ==
      Ok(Walk(codec, data, ReadCheckpoint(codec, data, offset).value.previous, seen + {offset}).value
         + [ReadCheckpoint(codec, data, offset).value.manifest])
  {
    hide ReadCheckpoint, HasFooterMark, ReadIndex;
  }

  // ---- The newest trailers of a cut ----

  /** The newest checkpoint found is that of the last checkpointed commit that the cut keeps. */
  lemma NewestCheckpoint(codec: Codec, log: Records, cut: nat, k: nat, last: Option<nat>) returns (c: nat)
    requires Clean(codec, log) && Keeps(codec, log, cut, k)
    requires IsLast(codec, File(codec, log)[..cut], CheckpointTrailer, last)
    ensures last.None? ==> forall i :: 0 <= i < k ==> !log[i].CommitRecord?
    ensures last.Some? ==> c < k && log[c].CommitRecord? && last.value == TrailerStart(codec, log, c)
    ensures last.Some? ==> forall i :: c < i < k ==> !log[i].CommitRecord?
  {
    hide *;
    CleanParts(codec, log);
    KeptBounds(codec, log, cut, k);
    var data := File(codec, log)[..cut];
    c := 0;
    if last.Some? {
      LastIsCheckpoint(codec, data, last.value);
      c := CheckpointIsGenuine(codec, log, cut, last.value);
      KeptBelow(codec, log, cut, k, c);
    }
    forall i | 0 <= i < k && log[i].CommitRecord? && (last.Some? ==> c < i) ensures false {
      KeptBelow(codec, log, cut, k, i);
      CheckpointReadsBack(codec, log, i, cut);
      CheckpointBeyond(codec, data, last, TrailerStart(codec, log, i));
      TrailerBehindStart(codec, log, i);
      if last.Some? {
        StartsAscend(codec, log, c, i);
      }
    }
  }

  lemma KeptBounds(codec: Codec, log: Records, cut: nat, k: nat)
    requires Keeps(codec, log, cut, k)
    ensures k <= |log| && Start(codec, log, k) <= cut <= |File(codec, log)|
  {
  }

  lemma LastIsCheckpoint(codec: Codec, data: Bytes, last: nat)
    requires IsLast(codec, data, CheckpointTrailer, Some(last))
    ensures ReadCheckpoint(codec, data, last).Some?
  {
  }

  lemma CheckpointBeyond(codec: Codec, data: Bytes, last: Option<nat>, offset: nat)
    requires IsLast(codec, data, CheckpointTrailer, last) && ReadCheckpoint(codec, data, offset).Some?
    ensures offset >= MAGIC_SIZE ==> last.Some? && offset <= last.value
  {
    assert Validates(codec, data, CheckpointTrailer, offset);
  }

  /** Likewise for the newest embedded footer. */
  lemma NewestFooter(codec: Codec, log: Records, cut: nat, k: nat, last: Option<nat>) returns (f: nat)
    requires Clean(codec, log) && Keeps(codec, log, cut, k)
    requires IsLast(codec, File(codec, log)[..cut], FooterTrailer, last)
    ensures last.None? ==> forall i :: 0 <= i < k ==> !log[i].IndexRecord?
    ensures last.Some? ==> f < k && log[f].IndexRecord? && last.value == TrailerStart(codec, log, f)
  {
    hide *;
    CleanParts(codec, log);
    KeptBounds(codec, log, cut, k);
    var data := File(codec, log)[..cut];
    f := 0;
    if last.Some? {
      LastIsFooter(codec, data, last.value);
      f := FooterIsGenuine(codec, log, cut, last.value);
      KeptBelow(codec, log, cut, k, f);
    }
    forall i | 0 <= i < k && log[i].IndexRecord? && last.None? ensures false {
      KeptBelow(codec, log, cut, k, i);
      IndexReadsBack(codec, log, i, cut);
      TrailerBehindStart(codec, log, i);
      FooterBeyond(codec, data, last, TrailerStart(codec, log, i));
    }
  }

  lemma LastIsFooter(codec: Codec, data: Bytes, last: nat)
    requires IsLast(codec, data, FooterTrailer, Some(last))
    ensures Validates(codec, data, FooterTrailer, last)
  {
  }

  lemma FooterBeyond(codec: Codec, data: Bytes, last: Option<nat>, offset: nat)
    requires IsLast(codec, data, FooterTrailer, last)
    requires ReadIndex(codec, data, offset).Some? && ReadIndex(codec, data, offset).value.0.end == offset
    ensures offset >= MAGIC_SIZE ==> last.Some?
  {
    assert Validates(codec, data, FooterTrailer, offset);
  }

  // ---- What reopening leaves ----

  /** A reopened archive is the file of a well-formed log again, with that log's commits and newest
  trailer. */
  ghost predicate IsArchive(codec: Codec, log: Records, found: Opened) {
    && found.file == File(codec, log) && WellFormed(codec, log)
    && found.commits == Commits(log) && found.previous == Head(codec, log)
    && (found.previous == 0 ==> found.commits == [])
    && (found.appendStart == |found.file| || (log != [] && found.appendStart == Start(codec, log, |log| - 1)))
  }

  /** A prefix that ends at a trailer is such a log. */
  lemma PrefixIsArchive(codec: Codec, log: Records, cut: nat, i: nat, found: Opened)
    requires codec.Sound() && WellFormed(codec, log) && i < |log| && (log[i].CommitRecord? || log[i].IndexRecord?)
    requires Start(codec, log, i + 1) <= cut <= |File(codec, log)|
    requires found == Opened(File(codec, log)[..cut][..Start(codec, log, i + 1)],
      Commits(log[..i + 1]), TrailerStart(codec, log, i), Start(codec, log, i + 1))
    ensures IsArchive(codec, log[..i + 1], found)
  {
    hide File;
    WellFormedPrefix(codec, log, i + 1);
    FilePrefix(codec, log, i + 1);
    var part := File(codec, log[..i + 1]);
    assert part == File(codec, log)[..|part|];
    assert File(codec, log)[..cut][..|part|] == File(codec, log)[..|part|];
    assert log[..i + 1][..i] == log[..i];
  }

  /** A cut that ends with a footer. */
  lemma CutAtFooter(codec: Codec, log: Records, cut: nat, k: nat) returns (i: nat)
    requires Clean(codec, log) && Keeps(codec, log, cut, k) && EndsWithFooter(File(codec, log)[..cut])
    ensures i + 1 == k && log[i].IndexRecord? && cut == Start(codec, log, k)
    ensures TrailerStart(codec, log, i) == cut - FOOTER_SIZE
    ensures ReadIndex(codec, File(codec, log)[..cut], cut - FOOTER_SIZE).Some?
    ensures ReadIndex(codec, File(codec, log)[..cut], cut - FOOTER_SIZE).value.1 == Commits(log[..k])
    ensures File(codec, log)[..cut][..Start(codec, log, k)] == File(codec, log)[..cut]
  {
    hide *;
    CleanParts(codec, log);
    KeptBounds(codec, log, cut, k);
    i := FooterAt(codec, log, cut);
    IndexReadsBack(codec, log, i, cut);
    PlainStep(log, i);
    KeptBelow(codec, log, cut, k, i);
    if i + 1 < k {
      StartsAscend(codec, log, i + 1, k);
    }
    SizeOfCut(File(codec, log), cut);
  }

  lemma SizeOfCut(file: Bytes, cut: nat)
    requires cut <= |file|
    ensures |file[..cut]| == cut && file[..cut][..cut] == file[..cut]
  {
  }

  lemma FooterAt(codec: Codec, log: Records, cut: nat) returns (i: nat)
    requires NoStrayFooter(codec, log) && cut <= |File(codec, log)| && EndsWithFooter(File(codec, log)[..cut])
    ensures i < |log| && log[i].IndexRecord? && cut == Start(codec, log, i + 1)
  {
    hide EndsWithFooter, File;
    i :| 0 <= i < |log| && log[i].IndexRecord? && cut == Start(codec, log, i + 1);
  }

  // ---- Archives without trailers ----

  /** The cut keeps exactly the first n frames whole; the last of them may have lost its trailer. */
  ghost predicate KeepsFrames(codec: Codec, log: Records, cut: nat, n: nat) {
    && n <= |log| && cut <= |File(codec, log)|
    && (forall i :: 0 <= i < n ==> TrailerStart(codec, log, i) <= cut)
    && (n < |log| ==> cut < TrailerStart(codec, log, n))
  }

  lemma KeptFrames(codec: Codec, log: Records, cut: nat, k: nat) returns (n: nat)
    requires codec.Sound() && Keeps(codec, log, cut, k)
    ensures KeepsFrames(codec, log, cut, n) && k <= n <= k + 1
    ensures n == k + 1 ==> k < |log| && IsAnchor(log[k])
  {
    hide File, Frame, Codec.Sound;
    n := k;
    if k < |log| {
      RecordIsLarge(codec, log, k);
      if TrailerStart(codec, log, k) <= cut {
        n := k + 1;
      }
    }
    forall i | 0 <= i < n ensures TrailerStart(codec, log, i) <= cut {
      if i < k {
        StartsAscend(codec, log, i, k);
      }
    }
    if n < |log| {
      RecordIsLarge(codec, log, n);
    }
  }

  ghost function Infos(codec: Codec, log: Records, n: nat): (infos: seq<FrameInfo>)
    requires n <= |log|
    ensures |infos| == n && forall i :: 0 <= i < n ==> infos[i] == InfoAt(codec, log, i)
  {
    if n == 0 then [] else Infos(codec, log, n - 1) + [InfoAt(codec, log, n - 1)]
  }

  lemma {:induction false} FramesWithinAre(codec: Codec, log: Records, cut: nat, n: nat, i: nat)
    requires KeepsFrames(codec, log, cut, n) && i <= n
    ensures Infos(codec, log, i) + FramesWithin(codec, log, i, cut) == Infos(codec, log, n)
    decreases n - i
  {
    hide InfoAt, TrailerStart, File;
    if i < n {
      FramesWithinAre(codec, log, cut, n, i + 1);
      var head, tail := InfoAt(codec, log, i), FramesWithin(codec, log, i + 1, cut);
      assert Infos(codec, log, i) + ([head] + tail) == (Infos(codec, log, i) + [head]) + tail;
    } else {
      assert FramesWithin(codec, log, i, cut) == [];
      assert Infos(codec, log, i) + [] == Infos(codec, log, i);
    }
  }

  /** Where the last commit frame among the first n records ends. */
  ghost function LastCommitEnd(codec: Codec, log: Records, n: nat): nat
    requires n <= |log|
  {
    if n == 0 then MAGIC_SIZE
    else if IsCommit(log[n - 1]) then TrailerStart(codec, log, n - 1)
    else LastCommitEnd(codec, log, n - 1)
  }

  lemma {:induction false} FrameCommitsAre(codec: Codec, log: Records, cut: nat, n: nat)
    requires codec.Sound() && Admissible(codec, log) && n <= |log| && cut <= |File(codec, log)|
    requires forall i :: 0 <= i < n ==> TrailerStart(codec, log, i) <= cut
    ensures FrameCommits(codec, File(codec, log)[..cut], Infos(codec, log, n))
      == Ok((Commits(log[..n]), LastCommitEnd(codec, log, n)))
  {
    hide File, Start, TrailerStart, ReadFrame, Admissible, Codec.Sound, Raw, Kind, InfoOf, FrameCommits;
    if n == 0 {
      NoFrameCommits(codec, File(codec, log)[..cut]);
    } else {
      FrameCommitsAre(codec, log, cut, n - 1);
      FrameReadsBack(codec, log, n - 1, cut);
      ManifestReadsBack(codec, log[n - 1]);
      FrameCommitsMore(codec, File(codec, log)[..cut], Infos(codec, log, n - 1), InfoAt(codec, log, n - 1),
        Commits(log[..n - 1]), LastCommitEnd(codec, log, n - 1), Raw(codec, log[n - 1]));
      assert log[..n][..n - 1] == log[..n - 1];
    }
  }

  lemma NoFrameCommits(codec: Codec, file: Bytes)
    ensures FrameCommits(codec, file, []) == Ok(([], MAGIC_SIZE))
  {
  }

  lemma FrameCommitsMore(codec: Codec, file: Bytes, frames: seq<FrameInfo>, frame: FrameInfo, commits: seq<Manifest>,
                         end: nat, raw: Bytes)
    requires FrameCommits(codec, file, frames) == Ok((commits, end))
    requires ReadFrame(codec, file, frame.offset) == Some((frame, raw))
    requires frame.kind == COMMIT ==> codec.decodeManifest(raw).Some?
    ensures FrameCommits(codec, file, frames + [frame]) ==
      Ok(if frame.kind == COMMIT then (commits + [codec.decodeManifest(raw).value], frame.end) else (commits, end))
  {
    hide ReadFrame;
    assert (frames + [frame])[..|frames|] == frames;
  }

  /** The log whose file ends with the last commit frame: its trailer, if any, is lost. */
  ghost function Untrailed(log: Records, n: nat): Records
    requires n <= |log|
  {
    if n == 0 then []
    else if IsCommit(log[n - 1]) then log[..n - 1] + [BareCommit(log[n - 1].manifest)]
    else Untrailed(log, n - 1)
  }

  lemma {:induction false} UntrailedFile(codec: Codec, log: Records, n: nat)
    requires codec.Sound() && n <= |log|
    ensures LastCommitEnd(codec, log, n) <= |File(codec, log)|
    ensures File(codec, Untrailed(log, n)) == File(codec, log)[..LastCommitEnd(codec, log, n)]
  {
    hide File, RecordBytes, Frame, Codec.Sound, Start, TrailerStart;
    if n == 0 {
      UntrailedNothing(codec, log);
    } else if IsCommit(log[n - 1]) {
      UntrailedCommit(codec, log, n - 1);
    } else {
      UntrailedFile(codec, log, n - 1);
    }
  }

  lemma UntrailedNothing(codec: Codec, log: Records)
    ensures MAGIC_SIZE <= |File(codec, log)| && File(codec, []) == File(codec, log)[..MAGIC_SIZE]
  {
    FilePrefix(codec, log, 0);
    assert log[..0] == [];
    EmptyFile(codec);
  }

  lemma UntrailedCommit(codec: Codec, log: Records, i: nat)
    requires codec.Sound() && i < |log| && IsCommit(log[i])
    ensures TrailerStart(codec, log, i) <= |File(codec, log)|
    ensures File(codec, log[..i] + [BareCommit(log[i].manifest)]) == File(codec, log)[..TrailerStart(codec, log, i)]
  {
    hide File, FrameBytes, Codec.Sound;
    var file, start, at := File(codec, log), Start(codec, log, i), TrailerStart(codec, log, i);
    var bare := BareCommit(log[i].manifest);
    RecordAt(codec, log, i);
    RecordIsLarge(codec, log, i);
    FilePrefix(codec, log, i);
    FileAppend(codec, log[..i], bare);
    var frame := Frame(codec, log[i]);
    assert Frame(codec, bare) == frame;
    assert RecordBytes(codec, bare, start) == frame;
    var whole := RecordBytes(codec, log[i], start);
    assert whole[..|frame|] == frame;
    JoinAt(file, start, at, Start(codec, log, i + 1));
  }

  lemma JoinAt(file: Bytes, start: nat, at: nat, end: nat)
    requires start <= at <= end <= |file|
    ensures file[..start] + file[start..end][..at - start] == file[..at]
  {
  }

  lemma {:induction false} UntrailedLog(codec: Codec, log: Records, n: nat)
    requires codec.Sound() && WellFormed(codec, log) && n <= |log|
    requires forall i :: 0 <= i < n - 1 ==> !IsAnchor(log[i])
    ensures var left := Untrailed(log, n);
      && WellFormed(codec, left) && Head(codec, left) == 0 && Commits(left) == Commits(log[..n])
      && (Commits(left) == [] ==> left == [])
  {
    hide File, Frame, Codec.Sound, TrailerStart;
    if n > 0 {
      var init := log[..n - 1];
      assert log[..n][..n - 1] == init;
      WellFormedPrefix(codec, log, n - 1);
      if IsCommit(log[n - 1]) {
        var left := init + [BareCommit(log[n - 1].manifest)];
        assert left[..n - 1] == init;
        NoAnchorNoHead(codec, init);
      } else {
        UntrailedLog(codec, log, n - 1);
      }
    }
  }

  lemma {:induction false} NoAnchorNoHead(codec: Codec, log: Records)
    requires forall i :: 0 <= i < |log| ==> !IsAnchor(log[i])
    ensures Head(codec, log) == 0
  {
    if log != [] {
      NoAnchorNoHead(codec, log[..|log| - 1]);
    }
  }

  // ---- The recovery theorem ----

  /** What is left of a log: a prefix, or a prefix whose last commit gets an index for its lost trailer. */
  ghost predicate IsLeft(log: Records, left: Records) {
    exists j :: 0 <= j <= |log| && LeftAt(log, left, j)
  }

  predicate LeftAt(log: Records, left: Records, j: nat)
    requires j <= |log|
  {
    || left == log[..j]
    || (j < |log| && IsCommit(log[j]) &&
        var bare := log[..j] + [BareCommit(log[j].manifest)]; left == bare + [Anchor(Commits(bare))])
  }

  /** Every commit that the cut keeps whole is recovered, in order, and at most the one whose trailer
  was torn off besides. */
  ghost predicate Recovers(log: Records, k: nat, left: Records)
    requires k <= |log|
  {
    && Commits(log[..k]) <= Commits(left) <= Commits(log)
    && |Commits(left)| <= |Commits(log[..k])| + 1
    && IsLeft(log, left)
  }

  lemma RecoversPrefix(log: Records, k: nat, j: nat)
    requires j <= k <= |log| && Commits(log[..j]) == Commits(log[..k])
    ensures Recovers(log, k, log[..j])
  {
    CommitsPrefix(log, k);
    assert LeftAt(log, log[..j], j);
  }

  /** Main result: reopening a clean archive cut at any byte succeeds and recovers its commits. */
  lemma ReopenRecovers(codec: Codec, log: Records, cut: nat, extendComplete: bool, newest: Newest, r: Result<Opened>)
    returns (k: nat, left: Records)
    requires Clean(codec, log) && MAGIC_SIZE <= cut <= |File(codec, log)|
    requires EndsWithFooter(File(codec, log)[..cut]) ==> extendComplete
    requires OpensTo(codec, File(codec, log)[..cut], extendComplete, newest, r)
    ensures Keeps(codec, log, cut, k) && Recovers(log, k, left)
    ensures r.Ok? && IsArchive(codec, left, r.value)
  {
    hide *;
    CleanParts(codec, log);
    k := KeptCount(codec, log, cut);
    KeptBounds(codec, log, cut, k);
    var data := File(codec, log)[..cut];
    SizeOfCut(File(codec, log), cut);
    OpensParts(codec, data, extendComplete, newest, r);
    if EndsWithFooter(data) {
      var i := CutAtFooter(codec, log, cut, k);
      PrefixIsArchive(codec, log, cut, i, r.value);
      left := log[..k];
      RecoversPrefix(log, k, k);
    } else if newest.checkpoint.Some? {
      var c := NewestCheckpoint(codec, log, cut, k, newest.checkpoint);
      left := FollowRecovers(codec, log, cut, k, c, r);
    } else if newest.footer.Some? {
      left := ResumeRecovers(codec, log, cut, k, newest, r);
    } else {
      var c := NewestCheckpoint(codec, log, cut, k, newest.checkpoint);
      var f := NewestFooter(codec, log, cut, k, newest.footer);
      left := ScanRecovers(codec, log, cut, k, r);
    }
  }

  lemma OpensParts(codec: Codec, data: Bytes, extendComplete: bool, newest: Newest, r: Result<Opened>)
    requires OpensTo(codec, data, extendComplete, newest, r)
    ensures EndsWithFooter(data) && extendComplete && ReadIndex(codec, data, |data| - FOOTER_SIZE).Some? ==>
      r == Ok(Opened(data, ReadIndex(codec, data, |data| - FOOTER_SIZE).value.1, |data| - FOOTER_SIZE, |data|))
    ensures !EndsWithFooter(data) ==> IsLast(codec, data, CheckpointTrailer, newest.checkpoint)
    ensures !EndsWithFooter(data) && newest.checkpoint.Some? ==> FollowsTo(codec, data, newest.checkpoint.value, r)
    ensures !EndsWithFooter(data) && newest.checkpoint.None? ==> IsLast(codec, data, FooterTrailer, newest.footer)
    ensures !EndsWithFooter(data) && newest.checkpoint.None? && newest.footer.Some? ==>
      ResumesAt(codec, data, newest.footer.value, r)
    ensures !EndsWithFooter(data) && newest.checkpoint.None? && newest.footer.None? ==> ScansTo(codec, data, r)
  {
    hide IsLast, FollowsTo, ResumesAt, ScansTo, ReadIndex;
  }

  lemma FollowRecovers(codec: Codec, log: Records, cut: nat, k: nat, c: nat, r: Result<Opened>) returns (left: Records)
    requires Clean(codec, log) && Keeps(codec, log, cut, k) && c < k && log[c].CommitRecord?
    requires forall i :: c < i < k ==> !log[i].CommitRecord?
    requires FollowsTo(codec, File(codec, log)[..cut], TrailerStart(codec, log, c), r)
    ensures Recovers(log, k, left) && r.Ok? && IsArchive(codec, left, r.value)
  {
    hide *;
    CleanParts(codec, log);
    KeptBounds(codec, log, cut, k);
    left := log[..c + 1];
    KeptBelow(codec, log, cut, k, c);
    CheckpointReadsBack(codec, log, c, cut);
    CommitsAfterTrailer(codec, log, c, k);
    TrailerBehindStart(codec, log, c);
    HeadAt(codec, log, c);
    StartOfPrefix(codec, log, c + 1, c + 1);
    ChainReachesCommits(codec, log, c + 1, cut, {});
    FollowedTo(codec, File(codec, log)[..cut], TrailerStart(codec, log, c), r);
    PrefixIsArchive(codec, log, cut, c, r.value);
    RecoversPrefix(log, k, c + 1);
  }

  lemma FollowedTo(codec: Codec, data: Bytes, last: nat, r: Result<Opened>)
    requires FollowsTo(codec, data, last, r) && Walk(codec, data, last, {}).Ok? && !HasFooterMark(data, last)
    ensures last + CHECKPOINT_SIZE <= |data|
    ensures r == Ok(Opened(data[..last + CHECKPOINT_SIZE], Walk(codec, data, last, {}).value, last,
      last + CHECKPOINT_SIZE))
  {
  }

  lemma HeadAt(codec: Codec, log: Records, i: nat)
    requires i < |log| && (log[i].CommitRecord? || log[i].IndexRecord?)
    ensures Head(codec, log[..i + 1]) == TrailerStart(codec, log, i)
  {
    assert log[..i + 1][..i] == log[..i];
  }

  /** No commit lies between the last checkpointed commit (or footer) and the cut. */
  lemma CommitsAfterTrailer(codec: Codec, log: Records, c: nat, k: nat)
    requires codec.Sound() && WellFormed(codec, log) && c < k <= |log|
    requires log[c].CommitRecord? || log[c].IndexRecord?
    requires forall i :: c < i < k ==> !log[i].CommitRecord?
    ensures Commits(log[..c + 1]) == Commits(log[..k])
  {
    hide WellFormed, Codec.Sound, Commits;
    forall i | c < i < k ensures !IsCommit(log[i]) {
      NoBareAfterAnchor(codec, log, c, i);
    }
    SameCommits(log, c + 1, k);
  }

  lemma ResumeRecovers(codec: Codec, log: Records, cut: nat, k: nat, newest: Newest, r: Result<Opened>)
    returns (left: Records)
    requires Clean(codec, log) && Keeps(codec, log, cut, k)
    requires newest.checkpoint.None? && newest.footer.Some?
    requires IsLast(codec, File(codec, log)[..cut], CheckpointTrailer, newest.checkpoint)
    requires IsLast(codec, File(codec, log)[..cut], FooterTrailer, newest.footer)
    requires ResumesAt(codec, File(codec, log)[..cut], newest.footer.value, r)
    ensures Recovers(log, k, left) && r.Ok? && IsArchive(codec, left, r.value)
  {
    hide *;
    CleanParts(codec, log);
    KeptBounds(codec, log, cut, k);
    var c := NewestCheckpoint(codec, log, cut, k, newest.checkpoint);
    var f := NewestFooter(codec, log, cut, k, newest.footer);
    left := log[..f + 1];
    KeptBelow(codec, log, cut, k, f);
    IndexReadsBack(codec, log, f, cut);
    PlainStep(log, f);
    CommitsAfterTrailer(codec, log, f, k);
    ResumedAt(codec, File(codec, log)[..cut], TrailerStart(codec, log, f), r);
    PrefixIsArchive(codec, log, cut, f, r.value);
    RecoversPrefix(log, k, f + 1);
  }

  lemma ResumedAt(codec: Codec, data: Bytes, footer: nat, r: Result<Opened>)
    requires ResumesAt(codec, data, footer, r)
    ensures footer + FOOTER_SIZE <= |data| && ReadIndex(codec, data, footer).Some?
    ensures r == Ok(Opened(data[..footer + FOOTER_SIZE], ReadIndex(codec, data, footer).value.1, footer,
      footer + FOOTER_SIZE))
  {
  }

  lemma ScanRecovers(codec: Codec, log: Records, cut: nat, k: nat, r: Result<Opened>) returns (left: Records)
    requires Clean(codec, log) && Keeps(codec, log, cut, k) && MAGIC_SIZE <= cut
    requires forall i :: 0 <= i < k ==> !log[i].CommitRecord? && !log[i].IndexRecord?
    requires ScansTo(codec, File(codec, log)[..cut], r)
    ensures Recovers(log, k, left) && r.Ok? && IsArchive(codec, left, r.value)
  {
    hide *;
    CleanParts(codec, log);
    KeptBounds(codec, log, cut, k);
    var n := KeptFrames(codec, log, cut, k);
    var data := File(codec, log)[..cut];
    ScanFindsCommits(codec, log, cut, n, true);
    UntrailedFile(codec, log, n);
    NoAnchorsBefore(log, k, n);
    UntrailedLog(codec, log, n);
    CutOfCut(codec, log, cut, LastCommitEnd(codec, log, n));
    left := Untrailed(log, n);
    ScannedTo(codec, data, LastCommitEnd(codec, log, n), left, r);
    if Commits(left) == [] {
      RecoversUntrailed(log, k, n);
    } else {
      AnchoredIsArchive(codec, left, r.value);
      RecoversAnchored(log, k, n);
      left := left + [Anchor(Commits(left))];
    }
  }

  lemma NoAnchorsBefore(log: Records, k: nat, n: nat)
    requires k <= n <= k + 1 && n <= |log|
    requires forall i :: 0 <= i < k ==> !log[i].CommitRecord? && !log[i].IndexRecord?
    ensures forall i :: 0 <= i < n - 1 ==> !IsAnchor(log[i])
  {
  }

  lemma CutOfCut(codec: Codec, log: Records, cut: nat, durable: nat)
    requires durable <= |File(codec, log)| && cut <= |File(codec, log)|
    ensures durable <= cut ==> File(codec, log)[..cut][..durable] == File(codec, log)[..durable]
    ensures |File(codec, log)[..cut]| == cut
  {
  }

  /** The scan, verified or not, finds the commits of the first n records. */
  lemma ScanFindsCommits(codec: Codec, log: Records, cut: nat, n: nat, verify: bool)
    requires Clean(codec, log) && KeepsFrames(codec, log, cut, n) && MAGIC_SIZE <= cut
    ensures Read(File(codec, log)[..cut], 0, MAGIC_SIZE) == Magic()
    ensures FrameCommits(codec, File(codec, log)[..cut], ScanFrom(codec, File(codec, log)[..cut], MAGIC_SIZE, verify).0)
      == Ok((Commits(log[..n]), LastCommitEnd(codec, log, n)))
  {
    hide *;
    CleanParts(codec, log);
    KeptFrameBounds(codec, log, cut, n);
    StartsAtMagic(codec, log, cut);
    ScanUndoesAppend(codec, log, 0, cut, verify);
    FramesWithinAre(codec, log, cut, n, 0);
    NoInfos(codec, log);
    assert [] + FramesWithin(codec, log, 0, cut) == FramesWithin(codec, log, 0, cut);
    FrameCommitsAre(codec, log, cut, n);
  }

  lemma KeptFrameBounds(codec: Codec, log: Records, cut: nat, n: nat)
    requires KeepsFrames(codec, log, cut, n)
    ensures n <= |log| && cut <= |File(codec, log)|
    ensures forall i :: 0 <= i < n ==> TrailerStart(codec, log, i) <= cut
  {
  }

  lemma NoInfos(codec: Codec, log: Records)
    ensures Infos(codec, log, 0) == []
  {
  }

  lemma StartsAtMagic(codec: Codec, log: Records, cut: nat)
    requires MAGIC_SIZE <= cut <= |File(codec, log)|
    ensures Start(codec, log, 0) == MAGIC_SIZE
    ensures Read(File(codec, log)[..cut], 0, MAGIC_SIZE) == Magic()
  {
    hide Magic;
    FilePrefix(codec, log, 0);
    assert log[..0] == [];
    EmptyFile(codec);
  }

  lemma ScannedTo(codec: Codec, data: Bytes, durable: nat, left: Records, r: Result<Opened>)
    requires ScansTo(codec, data, r) && Read(data, 0, MAGIC_SIZE) == Magic()
    requires FrameCommits(codec, data, ScanFrom(codec, data, MAGIC_SIZE, true).0) == Ok((Commits(left), durable))
    requires durable <= |data| ==> File(codec, left) == data[..durable]
    requires WellFormed(codec, left) && Head(codec, left) == 0
    ensures Commits(left) == [] ==> r.Ok? && IsArchive(codec, left, r.value)
    ensures Commits(left) != [] ==> r == Ok(Anchored(codec, File(codec, left), Commits(left)))
  {
    hide ScanFrom, FrameCommits, Magic, File, RecordBytes, Frame, Head, WellFormed, Commits;
  }

  lemma AnchoredIsArchive(codec: Codec, left: Records, found: Opened)
    requires WellFormed(codec, left)
    requires found == Anchored(codec, File(codec, left), Commits(left))
    ensures IsArchive(codec, left + [Anchor(Commits(left))], found)
  {
    hide Frame, RecordBytes;
    var anchor := Anchor(Commits(left));
    FileAppend(codec, left, anchor);
    assert (left + [anchor])[..|left|] == left;
  }

  lemma {:induction false} UntrailedCommits(log: Records, n: nat)
    requires n <= |log|
    ensures Commits(Untrailed(log, n)) == Commits(log[..n])
    ensures Untrailed(log, n) == [] || exists j :: 0 <= j < n && UntrailedAt(log, n, j)
  {
    if n > 0 {
      assert log[..n][..n - 1] == log[..n - 1];
      if IsCommit(log[n - 1]) {
        var left := log[..n - 1] + [BareCommit(log[n - 1].manifest)];
        assert left[..n - 1] == log[..n - 1];
        assert UntrailedAt(log, n, n - 1);
      } else {
        UntrailedCommits(log, n - 1);
        if Untrailed(log, n) != [] {
          var j :| 0 <= j < n - 1 && UntrailedAt(log, n - 1, j);
          assert UntrailedAt(log, n, j);
        }
      }
    }
  }

  ghost predicate UntrailedAt(log: Records, n: nat, j: nat)
    requires j < n <= |log|
  {
    IsCommit(log[j]) && Untrailed(log, n) == log[..j] + [BareCommit(log[j].manifest)]
  }

  lemma CommitsGrow(log: Records, k: nat, n: nat)
    requires k <= n <= k + 1 && n <= |log|
    ensures Commits(log[..k]) <= Commits(log[..n]) <= Commits(log)
    ensures |Commits(log[..n])| <= |Commits(log[..k])| + 1
  {
    CommitsPrefix(log, n);
    CommitsPrefix(log[..n], k);
    assert log[..n][..k] == log[..k];
  }

  lemma RecoversUntrailed(log: Records, k: nat, n: nat)
    requires k <= n <= k + 1 && n <= |log| && Untrailed(log, n) == []
    ensures Recovers(log, k, Untrailed(log, n))
  {
    UntrailedCommits(log, n);
    CommitsGrow(log, k, n);
    assert LeftAt(log, [], 0);
  }

  lemma RecoversAnchored(log: Records, k: nat, n: nat)
    requires k <= n <= k + 1 && n <= |log| && Commits(Untrailed(log, n)) != []
    ensures Recovers(log, k, Untrailed(log, n) + [Anchor(Commits(Untrailed(log, n)))])
  {
    UntrailedCommits(log, n);
    CommitsGrow(log, k, n);
    var bare := Untrailed(log, n);
    var left := bare + [Anchor(Commits(bare))];
    assert left[..|bare|] == bare;
    var j :| 0 <= j < n && UntrailedAt(log, n, j);
    assert LeftAt(log, left, j);
  }

  // ---- Readers beside the writer ----

  /** A reader of the cut captures exactly the commits that a writer resumes from. */
  lemma ReaderAgreesWithWriter(codec: Codec, log: Records, cut: nat, allowIncomplete: bool,
                               seen: Newest, view: Result<seq<Manifest>>, newest: Newest, r: Result<Opened>)
    requires Clean(codec, log) && MAGIC_SIZE <= cut <= |File(codec, log)|
    requires ViewsTo(codec, File(codec, log)[..cut], allowIncomplete, seen, view)
    requires OpensTo(codec, File(codec, log)[..cut], true, newest, r)
    requires allowIncomplete || EndsWithFooter(File(codec, log)[..cut])
    ensures r.Ok? && view == Ok(r.value.commits)
  {
    hide *;
    var data := File(codec, log)[..cut];
    var k, left := ReopenRecovers(codec, log, cut, true, newest, r);
    OpensParts(codec, data, true, newest, r);
    ViewsParts(codec, data, allowIncomplete, seen, view);
    if EndsWithFooter(data) {
      var i := CutAtFooter(codec, log, cut, k);
      SizeOfCut(File(codec, log), cut);
    } else {
      LastIsUnique(codec, data, CheckpointTrailer, seen.checkpoint, newest.checkpoint);
      if newest.checkpoint.Some? {
        FollowedWalk(codec, data, newest.checkpoint.value, r);
      } else {
        LastIsUnique(codec, data, FooterTrailer, seen.footer, newest.footer);
        if newest.footer.Some? {
          ResumedAt(codec, data, newest.footer.value, r);
        } else {
          CleanParts(codec, log);
          KeptBounds(codec, log, cut, k);
          var n := KeptFrames(codec, log, cut, k);
          ScanFindsCommits(codec, log, cut, n, true);
          ScanFindsCommits(codec, log, cut, n, false);
          ScansAlike(codec, data, view, r);
        }
      }
    }
  }

  lemma LastIsUnique(codec: Codec, data: Bytes, kind: TrailerKind, a: Option<nat>, b: Option<nat>)
    requires IsLast(codec, data, kind, a) && IsLast(codec, data, kind, b)
    ensures a == b
  {
    hide Validates;
  }

  lemma FollowedWalk(codec: Codec, data: Bytes, last: nat, r: Result<Opened>)
    requires FollowsTo(codec, data, last, r) && r.Ok?
    ensures Walk(codec, data, last, {}) == Ok(r.value.commits)
  {
    hide Walk, HasFooterMark;
  }

  lemma ScansAlike(codec: Codec, data: Bytes, view: Result<seq<Manifest>>, r: Result<Opened>)
    requires ScansTo(codec, data, r) && ViewsScan(codec, data, view) && r.Ok?
    requires FrameCommits(codec, data, ScanFrom(codec, data, MAGIC_SIZE, true).0)
      == FrameCommits(codec, data, ScanFrom(codec, data, MAGIC_SIZE, false).0)
    ensures view == Ok(r.value.commits)
  {
    hide ScanFrom, FrameCommits, Magic, RecordBytes, Frame;
  }

  lemma ViewsParts(codec: Codec, data: Bytes, allowIncomplete: bool, newest: Newest, r: Result<seq<Manifest>>)
    requires ViewsTo(codec, data, allowIncomplete, newest, r) && (allowIncomplete || EndsWithFooter(data))
    ensures EndsWithFooter(data) && ReadIndex(codec, data, |data| - FOOTER_SIZE).Some? ==>
      r == Ok(ReadIndex(codec, data, |data| - FOOTER_SIZE).value.1)
    ensures !EndsWithFooter(data) ==> IsLast(codec, data, CheckpointTrailer, newest.checkpoint)
    ensures !EndsWithFooter(data) && newest.checkpoint.Some? && Walk(codec, data, newest.checkpoint.value, {}).Ok? ==>
      r == Walk(codec, data, newest.checkpoint.value, {})
    ensures !EndsWithFooter(data) && newest.checkpoint.None? ==> IsLast(codec, data, FooterTrailer, newest.footer)
    ensures !EndsWithFooter(data) && newest.checkpoint.None? && newest.footer.Some? ==>
      ReadIndex(codec, data, newest.footer.value).Some?
      && r == Ok(ReadIndex(codec, data, newest.footer.value).value.1)
    ensures !EndsWithFooter(data) && newest.checkpoint.None? && newest.footer.None? ==> ViewsScan(codec, data, r)
  {
    hide IsLast, Walk, ViewsScan, ReadIndex;
  }

  // ---- Complete archives ----

  /** Right behind an index, where a finished build leaves the file. */
  ghost predicate BehindIndex(codec: Codec, log: Records, cut: nat) {
    exists i :: 0 <= i < |log| && log[i].IndexRecord? && cut == Start(codec, log, i + 1)
  }

  /** A reader that insists on a complete archive accepts exactly the cuts behind an index, and captures every
  commit that the cut keeps. */
  lemma CompleteExactlyBehindIndex(codec: Codec, log: Records, cut: nat, k: nat,
                                   seen: Newest, view: Result<seq<Manifest>>)
    requires Clean(codec, log) && Keeps(codec, log, cut, k)
    requires ViewsTo(codec, File(codec, log)[..cut], false, seen, view)
    ensures view.Ok? <==> BehindIndex(codec, log, cut)
    ensures view.Ok? ==> view.value == Commits(log[..k])
  {
    hide *;
    KeptBounds(codec, log, cut, k);
    var data := File(codec, log)[..cut];
    if EndsWithFooter(data) {
      var i := CutAtFooter(codec, log, cut, k);
      IsBehindIndex(codec, log, cut, i);
      SizeOfCut(File(codec, log), cut);
      ViewsParts(codec, data, false, seen, view);
    } else {
      ViewsNothing(codec, data, seen, view);
      if BehindIndex(codec, log, cut) {
        var i := IndexBehind(codec, log, cut);
        EndsBehindIndex(codec, log, i);
        assert false;
      }
    }
  }

  lemma ViewsNothing(codec: Codec, data: Bytes, newest: Newest, r: Result<seq<Manifest>>)
    requires ViewsTo(codec, data, false, newest, r) && !EndsWithFooter(data)
    ensures r.Failure?
  {
  }

  lemma IsBehindIndex(codec: Codec, log: Records, cut: nat, i: nat)
    requires i < |log| && log[i].IndexRecord? && cut == Start(codec, log, i + 1)
    ensures BehindIndex(codec, log, cut)
  {
  }

  lemma IndexBehind(codec: Codec, log: Records, cut: nat) returns (i: nat)
    requires BehindIndex(codec, log, cut)
    ensures i < |log| && log[i].IndexRecord? && cut == Start(codec, log, i + 1)
  {
    i :| 0 <= i < |log| && log[i].IndexRecord? && cut == Start(codec, log, i + 1);
  }

  lemma EndsBehindIndex(codec: Codec, log: Records, i: nat)
    requires Clean(codec, log) && i < |log| && log[i].IndexRecord?
    ensures Start(codec, log, i + 1) <= |File(codec, log)|
    ensures EndsWithFooter(File(codec, log)[..Start(codec, log, i + 1)])
  {
    hide *;
    CleanParts(codec, log);
    RecordAt(codec, log, i);
    TrailerBehindStart(codec, log, i);
    IndexReadsBack(codec, log, i, Start(codec, log, i + 1));
    MarkAtEnd(File(codec, log)[..Start(codec, log, i + 1)], TrailerStart(codec, log, i));
  }

  lemma MarkAtEnd(data: Bytes, offset: nat)
    requires HasFooterMark(data, offset) && |data| == offset + FOOTER_SIZE && offset >= MAGIC_SIZE
    ensures EndsWithFooter(data)
  {
    hide FooterMagic;
  }

  // ---- Prefixes stay clean ----

  /** The log left behind by a cut behind a trailer is clean again, so the theorem applies to it anew. */
  lemma CleanPrefix(codec: Codec, log: Records, j: nat)
    requires Clean(codec, log) && j <= |log|
    ensures Clean(codec, log[..j])
  {
    hide *;
    CleanParts(codec, log);
    AdmissiblePrefix(codec, log, j);
    WellFormedPrefix(codec, log, j);
    GenuinePrefix(codec, log, j);
    NoStrayPrefix(codec, log, j);
    NoCollisionPrefix(codec, log, j);
    CleanFromParts(codec, log[..j]);
  }

  lemma CleanFromParts(codec: Codec, log: Records)
    requires codec.Sound() && Admissible(codec, log) && WellFormed(codec, log)
    requires Genuine(codec, log) && NoStrayFooter(codec, log) && NoCollision(codec, log)
    ensures Clean(codec, log)
  {
  }

  lemma NoCollisionPrefix(codec: Codec, log: Records, j: nat)
    requires NoCollision(codec, log) && j <= |log|
    ensures NoCollision(codec, log[..j])
  {
  }

  lemma GenuinePrefix(codec: Codec, log: Records, j: nat)
    requires codec.Sound() && Genuine(codec, log) && j <= |log|
    ensures Genuine(codec, log[..j])
  {
    hide ReadFrame, File, Codec.Sound;
    var part, file := File(codec, log[..j]), File(codec, log);
    FilePrefix(codec, log, j);
    forall offset: nat | ReadFrame(codec, part, offset).Some?
      ensures exists i :: 0 <= i < |log[..j]| && offset == Start(codec, log[..j], i)
    {
      ReadFrameInPrefix(codec, part, file, offset);
      var i := GenuineRecord(codec, log, offset);
      if i >= j {
        StartOfPrefix(codec, log, j, i);
        FrameEndsInside(codec, part, offset);
      }
      StartOfPrefix(codec, log, i, j);
      assert i < |log[..j]| && offset == Start(codec, log[..j], i);
    }
  }

  lemma FrameEndsInside(codec: Codec, data: Bytes, offset: nat)
    requires ReadFrame(codec, data, offset).Some?
    ensures offset < |data|
  {
  }

  lemma NoStrayPrefix(codec: Codec, log: Records, j: nat)
    requires codec.Sound() && NoStrayFooter(codec, log) && j <= |log|
    ensures NoStrayFooter(codec, log[..j])
  {
    hide EndsWithFooter, File, Codec.Sound;
    var part, file := File(codec, log[..j]), File(codec, log);
    FilePrefix(codec, log, j);
    forall cut: nat | cut <= |part| && EndsWithFooter(part[..cut])
      ensures exists i :: 0 <= i < |log[..j]| && log[..j][i].IndexRecord? && cut == Start(codec, log[..j], i + 1)
    {
      assert part[..cut] == file[..cut];
      var i :| 0 <= i < |log| && log[i].IndexRecord? && cut == Start(codec, log, i + 1);
      if i >= j {
        StartOfPrefix(codec, log, j, i);
        StartsAscend(codec, log, i, i + 1);
      }
      StartOfPrefix(codec, log, i + 1, j);
      assert log[..j][i] == log[i] && cut == Start(codec, log[..j], i + 1);
    }
  }
}
