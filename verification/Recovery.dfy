/** What reopening finds in a file that a crash cut at an arbitrary byte. */
module Recovery {
  import opened Wrappers
  import opened Text
  import opened Model
  import opened Wire
  import opened Log
  import opened Trailers
  import opened Chain
  import opened Scan

  // ---- Trailers of a cut ----

  lemma CheckpointReadsBack(codec: Codec, log: Records, i: nat, cut: nat)
    requires Clean(codec, log) && i < |log| && log[i].CommitRecord?
    requires Start(codec, log, i + 1) <= cut <= |File(codec, log)|
    ensures ReadCheckpoint(codec, File(codec, log)[..cut], TrailerStart(codec, log, i))
      == Some(Checkpoint(log[i].previous, TrailerStart(codec, log, i) + CHECKPOINT_SIZE, log[i].manifest))
    ensures !HasFooterMark(File(codec, log)[..cut], TrailerStart(codec, log, i))
    ensures Start(codec, log, i + 1) == TrailerStart(codec, log, i) + CHECKPOINT_SIZE
  {
    hide *;
    CleanParts(codec, log);
    PreviousIsOffset(codec, log, i);
    var start := Start(codec, log, i);
    StartIsOffset(codec, log, i);
    TrailerOfCommit(log[i], start);
    RecordIsLarge(codec, log, i);
    TrailerReadsBack(codec, log, i, cut);
    FrameReadsBack(codec, log, i, cut);
    ManifestReadsBack(codec, log[i]);
    CheckpointBytesRead(codec, File(codec, log)[..cut], TrailerStart(codec, log, i), start, log[i].previous, log[i].manifest);
  }

  lemma CheckpointBytesRead(codec: Codec, data: Bytes, at: nat, start: nat, previous: nat, manifest: Manifest)
    requires start < OFFSET_LIMIT && previous < OFFSET_LIMIT
    requires Read(data, at, CHECKPOINT_SIZE) == CheckpointBytes(start, previous)
    requires ReadFrame(codec, data, start).Some?
    requires var (info, raw) := ReadFrame(codec, data, start).value;
      info.kind == COMMIT && info.end == at && codec.decodeManifest(raw) == Some(manifest)
    ensures ReadCheckpoint(codec, data, at) == Some(Checkpoint(previous, at + CHECKPOINT_SIZE, manifest))
    ensures !HasFooterMark(data, at)
  {
    hide ReadFrame, CheckpointMagic, FooterMagic, Pack, Unpack, Read;
    OffsetIsNotMagic(previous);
    UnpackPack64(start);
    UnpackPack64(previous);
    CheckpointFields(start, previous);
    TrailerMiddle(data, at, CHECKPOINT_SIZE);
  }

  lemma ManifestReadsBack(codec: Codec, record: Record)
    requires codec.Sound()
    ensures record.CommitRecord? ==> codec.decodeManifest(Raw(codec, record)) == Some(record.manifest)
    ensures record.BareCommit? ==> codec.decodeManifest(Raw(codec, record)) == Some(record.manifest)
    ensures record.IndexRecord? ==> codec.decodeIndex(Raw(codec, record)) == Some(record.commits)
    ensures record.CommitRecord? || record.BareCommit? <==> Kind(record) == COMMIT
    ensures record.IndexRecord? <==> Kind(record) == FINAL_INDEX
  {
  }

  lemma StartIsOffset(codec: Codec, log: Records, i: nat)
    requires Admissible(codec, log) && i <= |log|
    ensures Start(codec, log, i) < OFFSET_LIMIT
  {
    FilePrefix(codec, log, i);
  }

  lemma TrailerMiddle(file: Bytes, offset: nat, size: nat)
    requires size >= 16 && |Read(file, offset, size)| == size
    ensures Read(file, offset + 8, 8) == Read(file, offset, size)[8..16]
  {
  }

  lemma IndexReadsBack(codec: Codec, log: Records, i: nat, cut: nat)
    requires Clean(codec, log) && i < |log| && log[i].IndexRecord?
    requires Start(codec, log, i + 1) <= cut <= |File(codec, log)|
    ensures var index := ReadIndex(codec, File(codec, log)[..cut], TrailerStart(codec, log, i));
      index.Some? && index.value.1 == log[i].commits == Commits(log[..i])
      && index.value.0.end == TrailerStart(codec, log, i)
    ensures HasFooterMark(File(codec, log)[..cut], TrailerStart(codec, log, i))
    ensures Start(codec, log, i + 1) == TrailerStart(codec, log, i) + FOOTER_SIZE
  {
    hide *;
    CleanParts(codec, log);
    IndexListsCommits(codec, log, i);
    var start := Start(codec, log, i);
    StartIsOffset(codec, log, i);
    TrailerOfIndex(log[i], start);
    RecordIsLarge(codec, log, i);
    TrailerReadsBack(codec, log, i, cut);
    FrameReadsBack(codec, log, i, cut);
    ManifestReadsBack(codec, log[i]);
    FooterBytesRead(codec, File(codec, log)[..cut], TrailerStart(codec, log, i), start, log[i].commits);
  }

  lemma FooterBytesRead(codec: Codec, data: Bytes, at: nat, start: nat, commits: seq<Manifest>)
    requires start < OFFSET_LIMIT
    requires Read(data, at, FOOTER_SIZE) == FooterBytes(start)
    requires ReadFrame(codec, data, start).Some?
    requires var (info, raw) := ReadFrame(codec, data, start).value;
      info.kind == FINAL_INDEX && info.end == at && codec.decodeIndex(raw) == Some(commits)
    ensures ReadIndex(codec, data, at).Some? && ReadIndex(codec, data, at).value.1 == commits
    ensures ReadIndex(codec, data, at).value.0.end == at
    ensures HasFooterMark(data, at)
  {
    hide ReadFrame, FooterMagic, Pack, Unpack, Read;
    UnpackPack64(start);
    TrailerMiddle(data, at, FOOTER_SIZE);
  }

  lemma IndexListsCommits(codec: Codec, log: Records, i: nat)
    requires WellFormed(codec, log) && i < |log| && log[i].IndexRecord?
    ensures log[i].commits == Commits(log[..i])
  {
    WellFormedPrefix(codec, log, i + 1);
    assert log[..i + 1][..i] == log[..i];
  }

  /** The record whose frame validates at an offset of a cut. */
  lemma FrameIsGenuine(codec: Codec, log: Records, cut: nat, offset: nat) returns (i: nat)
    requires Clean(codec, log) && cut <= |File(codec, log)|
    requires ReadFrame(codec, File(codec, log)[..cut], offset).Some?
    ensures i < |log| && offset == Start(codec, log, i) && TrailerStart(codec, log, i) <= cut
    ensures var (info, raw) := ReadFrame(codec, File(codec, log)[..cut], offset).value;
      info.end == TrailerStart(codec, log, i) && info.kind == Kind(log[i]) && raw == Raw(codec, log[i])
  {
    hide *;
    CleanParts(codec, log);
    var file := File(codec, log);
    CutIsPrefix(file, cut);
    ReadFrameInPrefix(codec, file[..cut], file, offset);
    i := GenuineRecord(codec, log, offset);
    RecordIsLarge(codec, log, i);
    RecordAt(codec, log, i);
    assert file[..|file|] == file;
    FrameReadsBack(codec, log, i, |file|);
  }

  lemma CutIsPrefix(file: Bytes, cut: nat)
    requires cut <= |file|
    ensures file[..cut] <= file && |file[..cut]| == cut
  {
  }

  lemma GenuineRecord(codec: Codec, log: Records, offset: nat) returns (i: nat)
    requires Genuine(codec, log) && ReadFrame(codec, File(codec, log), offset).Some?
    ensures i < |log| && offset == Start(codec, log, i)
  {
    i :| 0 <= i < |log| && offset == Start(codec, log, i);
  }

  /** Only a checkpoint that was written validates, and only if the cut keeps all of it. */
  lemma CheckpointIsGenuine(codec: Codec, log: Records, cut: nat, offset: nat) returns (i: nat)
    requires Clean(codec, log) && cut <= |File(codec, log)|
    requires ReadCheckpoint(codec, File(codec, log)[..cut], offset).Some?
    ensures i < |log| && log[i].CommitRecord? && offset == TrailerStart(codec, log, i)
    ensures Start(codec, log, i + 1) <= cut
  {
    var data := File(codec, log)[..cut];
    var payload := Read(data, offset, CHECKPOINT_SIZE);
    i := FrameIsGenuine(codec, log, cut, Unpack(payload[..8]));
    CleanParts(codec, log);
    RecordIsLarge(codec, log, i);
    hide Clean, File, Start, TrailerStart, ReadFrame, CheckpointMagic, FooterMagic, Unpack, WellFormed, Admissible, Raw;
    if log[i].BareCommit? {
      MagicAfterBareCommit(codec, log, i, cut);
    }
  }

  /** A commit without a trailer is followed by a frame, whose header cannot pass for a checkpoint. */
  lemma MagicAfterBareCommit(codec: Codec, log: Records, i: nat, cut: nat)
    requires Clean(codec, log) && i < |log| && log[i].BareCommit?
    requires Start(codec, log, i + 1) + CHECKPOINT_SIZE <= cut <= |File(codec, log)|
    ensures Read(File(codec, log)[..cut], Start(codec, log, i + 1), CHECKPOINT_SIZE)[16..] != CheckpointMagic()
  {
    hide *;
    CleanParts(codec, log);
    NotLast(codec, log, i, cut);
    FramePart(codec, log, i + 1, cut);
    HeaderIsNotTrailer(codec, log, i + 1);
    var kind, raw := Kind(log[i + 1]), Raw(codec, log[i + 1]);
    NotCheckpointAt(File(codec, log)[..cut], Start(codec, log, i + 1), FrameHeader(codec, kind, raw));
  }

  lemma NotLast(codec: Codec, log: Records, i: nat, cut: nat)
    requires i < |log| && Start(codec, log, i + 1) + CHECKPOINT_SIZE <= cut <= |File(codec, log)|
    ensures i + 1 < |log| && Start(codec, log, i + 1) <= cut
    ensures Start(codec, log, i + 1) + CHECKPOINT_SIZE <= |File(codec, log)[..cut]|
  {
    assert log[..|log|] == log;
  }

  lemma NotCheckpointAt(data: Bytes, at: nat, header: Bytes)
    requires at + CHECKPOINT_SIZE <= |data| && |header| == FRAME_SIZE && header[16..24] != CheckpointMagic()
    requires var prefix := Read(data, at, FRAME_SIZE); prefix == header[..|prefix|]
    ensures Read(data, at, CHECKPOINT_SIZE)[16..] != CheckpointMagic()
  {
    hide CheckpointMagic;
    var prefix := Read(data, at, FRAME_SIZE);
    assert Read(data, at, CHECKPOINT_SIZE) == prefix[..CHECKPOINT_SIZE] == header[..CHECKPOINT_SIZE];
    assert header[..CHECKPOINT_SIZE][16..] == header[16..24];
  }

  lemma FooterIsGenuine(codec: Codec, log: Records, cut: nat, offset: nat) returns (i: nat)
    requires Clean(codec, log) && cut <= |File(codec, log)|
    requires Validates(codec, File(codec, log)[..cut], FooterTrailer, offset)
    ensures i < |log| && log[i].IndexRecord? && offset == TrailerStart(codec, log, i)
    ensures Start(codec, log, i + 1) <= cut
  {
    hide Clean, File, Admissible, WellFormed, Genuine, NoStrayFooter, NoCollision, Codec.Sound, ReadFrame, Unpack;
    var data := File(codec, log)[..cut];
    var payload := Read(data, offset, FOOTER_SIZE);
    i := FrameIsGenuine(codec, log, cut, Unpack(payload[..8]));
    CleanParts(codec, log);
    RecordIsLarge(codec, log, i);
  }
}
