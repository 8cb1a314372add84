/** The archive file as the sequence of records that were appended to it. */
module Log {
  import opened Wrappers
  import opened Text
  import opened Model
  import opened Wire

  /** A page frame; a commit frame with its checkpoint trailer; a commit frame without one, as older
  archives have them; an index frame with its footer. */
  datatype Record =
    | PageRecord(page: Page)
    | CommitRecord(manifest: Manifest, previous: nat)
    | BareCommit(manifest: Manifest)
    | IndexRecord(commits: seq<Manifest>, metadata: string)

  type Records = seq<Record>

  function Kind(record: Record): nat {
    match record
    case PageRecord(_) => PAGE
    case CommitRecord(_, _) => COMMIT
    case BareCommit(_) => COMMIT
    case IndexRecord(_, _) => FINAL_INDEX
  }

  function Raw(codec: Codec, record: Record): Bytes {
    match record
    case PageRecord(page) => codec.encodePage(page)
    case CommitRecord(manifest, _) => codec.encodeManifest(manifest)
    case BareCommit(manifest) => codec.encodeManifest(manifest)
    case IndexRecord(commits, metadata) => codec.encodeIndex(commits, metadata)
  }

  function Frame(codec: Codec, record: Record): Bytes {
    FrameBytes(codec, Kind(record), Raw(codec, record))
  }

  function CheckpointBytes(commit: nat, previous: nat): (bytes: Bytes)
    ensures |bytes| == CHECKPOINT_SIZE
  {
    Pack(commit, 8) + Pack(previous, 8) + CheckpointMagic()
  }

  function FooterBytes(index: nat): (bytes: Bytes)
    ensures |bytes| == FOOTER_SIZE
  {
    Pack(index, 8) + FooterMagic()
  }

  function Trailer(record: Record, offset: nat): Bytes {
    match record
    case CommitRecord(_, previous) => CheckpointBytes(offset, previous)
    case IndexRecord(_, _) => FooterBytes(offset)
    case _ => []
  }

  function RecordBytes(codec: Codec, record: Record, offset: nat): Bytes {
    Frame(codec, record) + Trailer(record, offset)
  }

  /** The file after the records were appended, in order, to the magic. */
  function File(codec: Codec, log: Records): (file: Bytes)
    ensures |file| >= MAGIC_SIZE
  {
    if log == [] then Magic()
    else
      var file := File(codec, log[..|log| - 1]);
      file + RecordBytes(codec, log[|log| - 1], |file|)
  }

  /** Where record i starts (and record i - 1 ends). */
  function Start(codec: Codec, log: Records, i: nat): (offset: nat)
    requires i <= |log|
    ensures offset >= MAGIC_SIZE
  {
    |File(codec, log[..i])|
  }

  function TrailerStart(codec: Codec, log: Records, i: nat): (offset: nat)
    requires i < |log|
  {
    Start(codec, log, i) + |Frame(codec, log[i])|
  }

  // ---- Positions ----

  lemma FileAppend(codec: Codec, log: Records, record: Record)
    ensures File(codec, log + [record]) == File(codec, log) + RecordBytes(codec, record, |File(codec, log)|)
  {
  }

  lemma {:induction false} FilePrefix(codec: Codec, log: Records, i: nat)
    requires i <= |log|
    ensures File(codec, log[..i]) <= File(codec, log)
    decreases |log|
  {
    if i == |log| {
      assert log[..i] == log;
    } else {
      var init := log[..|log| - 1];
      assert init[..i] == log[..i];
      FilePrefix(codec, init, i);
    }
  }

  lemma StartOfPrefix(codec: Codec, log: Records, i: nat, j: nat)
    requires i <= j <= |log|
    ensures Start(codec, log[..j], i) == Start(codec, log, i) <= Start(codec, log, j)
  {
    assert log[..j][..i] == log[..i];
    FilePrefix(codec, log[..j], i);
  }

  /** Record i occupies the bytes from its start to the next record's. */
  lemma RecordAt(codec: Codec, log: Records, i: nat)
    requires i < |log|
    ensures Start(codec, log, i + 1) == Start(codec, log, i) + |RecordBytes(codec, log[i], Start(codec, log, i))|
    ensures Start(codec, log, i + 1) <= |File(codec, log)|
    ensures File(codec, log)[Start(codec, log, i)..Start(codec, log, i + 1)]
      == RecordBytes(codec, log[i], Start(codec, log, i))
  {
    hide RecordBytes, Frame, Trailer;
    assert log[..i + 1] == log[..i] + [log[i]];
    FileAppend(codec, log[..i], log[i]);
    FilePrefix(codec, log, i + 1);
    var file, part := File(codec, log), File(codec, log[..i + 1]);
    assert part == file[..|part|];
    assert file[Start(codec, log, i)..Start(codec, log, i + 1)] == part[Start(codec, log, i)..];
  }

  lemma RecordIsLarge(codec: Codec, log: Records, i: nat)
    requires codec.Sound() && i < |log|
    ensures Start(codec, log, i) + FRAME_SIZE < TrailerStart(codec, log, i) <= Start(codec, log, i + 1)
    ensures log[i].CommitRecord? ==> Start(codec, log, i + 1) == TrailerStart(codec, log, i) + CHECKPOINT_SIZE
    ensures log[i].IndexRecord? ==> Start(codec, log, i + 1) == TrailerStart(codec, log, i) + FOOTER_SIZE
    ensures !log[i].CommitRecord? && !log[i].IndexRecord? ==> Start(codec, log, i + 1) == TrailerStart(codec, log, i)
  {
    RecordAt(codec, log, i);
    FrameSize(codec, Kind(log[i]), Raw(codec, log[i]));
  }

  lemma {:induction false} StartsAscend(codec: Codec, log: Records, i: nat, j: nat)
    requires codec.Sound() && i < j <= |log|
    ensures Start(codec, log, i) < Start(codec, log, j)
    ensures TrailerStart(codec, log, i) <= Start(codec, log, j)
    decreases j - i
  {
    RecordIsLarge(codec, log, i);
    if i + 1 < j {
      StartsAscend(codec, log, i + 1, j);
    }
  }

  /** Sizes are representable and no offset looks like the footer magic. */
  predicate Admissible(codec: Codec, log: Records) {
    |File(codec, log)| < OFFSET_LIMIT && forall i | 0 <= i < |log| :: |Raw(codec, log[i])| < UINT64
  }

  lemma AdmissiblePrefix(codec: Codec, log: Records, i: nat)
    requires Admissible(codec, log) && i <= |log|
    ensures Admissible(codec, log[..i])
  {
    FilePrefix(codec, log, i);
  }

  /** The frame of record i reads back from any cut that keeps all of it. */
  lemma FrameReadsBack(codec: Codec, log: Records, i: nat, cut: nat)
    requires codec.Sound() && Admissible(codec, log) && i < |log|
    requires TrailerStart(codec, log, i) <= cut <= |File(codec, log)|
    ensures var file, offset := File(codec, log)[..cut], Start(codec, log, i);
      var info := InfoOf(codec, offset, Kind(log[i]), Raw(codec, log[i]));
      && ReadFrame(codec, file, offset) == Some((info, Raw(codec, log[i])))
      && info.end == TrailerStart(codec, log, i) && info.kind == Kind(log[i])
  {
    hide ReadFrame, File, FrameHeader, InfoOf, Trailer;
    var file, offset := File(codec, log), Start(codec, log, i);
    var kind, raw := Kind(log[i]), Raw(codec, log[i]);
    RecordAt(codec, log, i);
    FrameSize(codec, kind, raw);
    var bytes := RecordBytes(codec, log[i], offset);
    var n, end := |Frame(codec, log[i])|, Start(codec, log, i + 1);
    assert file[offset..end] == bytes;
    assert file[offset..end][..n] == file[offset..offset + n];
    assert bytes[..n] == Frame(codec, log[i]);
    assert file[..cut][offset..offset + n] == file[offset..offset + n];
    ReadStoredFrame(codec, file[..cut], offset, kind, raw);
    EndOfInfo(codec, offset, kind, raw);
  }

  lemma EndOfInfo(codec: Codec, offset: nat, kind: nat, raw: Bytes)
    requires codec.Sound()
    ensures InfoOf(codec, offset, kind, raw).end == offset + |FrameBytes(codec, kind, raw)|
    ensures InfoOf(codec, offset, kind, raw).kind == kind
  {
  }

  /** The trailer bytes of record i, read from a cut that keeps them. */
  lemma TrailerReadsBack(codec: Codec, log: Records, i: nat, cut: nat)
    requires codec.Sound() && i < |log|
    requires Start(codec, log, i + 1) <= cut <= |File(codec, log)|
    ensures Read(File(codec, log)[..cut], TrailerStart(codec, log, i), |Trailer(log[i], Start(codec, log, i))|)
      == Trailer(log[i], Start(codec, log, i))
  {
    hide File, Trailer, Frame;
    var file, start, end := File(codec, log), Start(codec, log, i), Start(codec, log, i + 1);
    RecordAt(codec, log, i);
    var n := |Frame(codec, log[i])|;
    assert file[start..end][n..] == file[start + n..end];
    assert file[..cut][start + n..end] == file[start + n..end];
  }

  // ---- Commits and the checkpoint chain ----

  /** The manifests committed by a log, oldest first. */
  function Commits(log: Records): seq<Manifest> {
    if log == [] then []
    else
      var commits := Commits(log[..|log| - 1]);
      match log[|log| - 1]
      case CommitRecord(manifest, _) => commits + [manifest]
      case BareCommit(manifest) => commits + [manifest]
      case _ => commits
  }

  predicate IsAnchor(record: Record) {
    record.CommitRecord? || record.IndexRecord?
  }

  /** The offset of the newest trailer, which the next checkpoint links to; 0 without one. */
  function Head(codec: Codec, log: Records): nat {
    if log == [] then 0
    else if IsAnchor(log[|log| - 1]) then TrailerStart(codec, log, |log| - 1)
    else Head(codec, log[..|log| - 1])
  }

  /** Checkpoints link to the trailer before them, an index lists every commit before it, and a chain
  never starts above commits that have no trailer. */
  predicate WellFormed(codec: Codec, log: Records) {
    log == [] ||
    var init := log[..|log| - 1];
    WellFormed(codec, init) &&
    match log[|log| - 1]
    case PageRecord(_) => true
    case CommitRecord(_, previous) =>
      previous == Head(codec, init) && (previous == 0 ==> Commits(init) == [])
    case BareCommit(_) => Head(codec, init) == 0
    case IndexRecord(commits, _) => commits == Commits(init)
  }

  lemma {:induction false} WellFormedPrefix(codec: Codec, log: Records, i: nat)
    requires WellFormed(codec, log) && i <= |log|
    ensures WellFormed(codec, log[..i])
    decreases |log|
  {
    if i == |log| {
      assert log[..i] == log;
    } else {
      assert log[..|log| - 1][..i] == log[..i];
      WellFormedPrefix(codec, log[..|log| - 1], i);
    }
  }

  lemma {:induction false} CommitsPrefix(log: Records, i: nat)
    requires i <= |log|
    ensures Commits(log[..i]) <= Commits(log)
    decreases |log|
  {
    if i == |log| {
      assert log[..i] == log;
    } else {
      assert log[..|log| - 1][..i] == log[..i];
      CommitsPrefix(log[..|log| - 1], i);
    }
  }

  /** The record whose trailer is the head, and what follows it. */
  lemma {:induction false} HeadRecord(codec: Codec, log: Records) returns (i: nat)
    requires codec.Sound() && WellFormed(codec, log) && Head(codec, log) != 0
    ensures i < |log| && IsAnchor(log[i]) && Head(codec, log) == TrailerStart(codec, log, i)
    ensures Commits(log) == Commits(log[..i + 1])
    ensures forall j :: i < j < |log| ==> log[j].PageRecord?
  {
    hide File, Frame, Codec.Sound;
    var n := |log| - 1;
    if IsAnchor(log[n]) {
      i := n;
      assert log[..n + 1] == log;
    } else {
      i := HeadRecord(codec, log[..n]);
      assert log[..n][..i + 1] == log[..i + 1] && log[..n][..i] == log[..i];
    }
  }

  lemma {:induction false} NoHead(codec: Codec, log: Records)
    requires codec.Sound() && Head(codec, log) == 0
    ensures forall i :: 0 <= i < |log| ==> !IsAnchor(log[i])
  {
    if log != [] {
      var n := |log| - 1;
      RecordIsLarge(codec, log, n);
      NoHead(codec, log[..n]);
      forall i | 0 <= i < |log| ensures !IsAnchor(log[i]) {
        assert i < n ==> log[..n][i] == log[i];
      }
    }
  }
}
