/** The forward frame scanner, and the clean logs on which it undoes the writer. */
module Scan {
  import opened Wrappers
  import opened Text
  import opened Model
  import opened Wire
  import opened Log

  /** One turn of the scanning loop: step over a trailer, report a frame, or stop. */
  datatype Step = Skip(size: nat) | Report(info: FrameInfo) | Stop

  function ScanStep(codec: Codec, data: Bytes, offset: nat, verify: bool): (step: Step)
    requires offset < |data|
    ensures step.Skip? ==> step.size > 0 && offset + step.size <= |data|
    ensures step.Report? ==> offset < step.info.end <= |data|
  {
    var prefix := Read(data, offset, FRAME_SIZE);
    if |prefix| >= CHECKPOINT_SIZE && prefix[16..24] == CheckpointMagic() then Skip(CHECKPOINT_SIZE)
    else if |prefix| >= FOOTER_SIZE && prefix[8..16] == FooterMagic() then Skip(FOOTER_SIZE)
    else if |prefix| < FRAME_SIZE then Stop
    else
      var info := Header(offset, prefix);
      if info.compressedSize == 0 || info.end > |data| then Stop
      else if verify && ReadFrame(codec, data, offset).None? then Stop
      else Report(info)
  }

  /** _scan_frames_reader over the bytes before `limit`: the frames found and where scanning stops. */
  function ScanFrom(codec: Codec, data: Bytes, offset: nat, verify: bool): (seq<FrameInfo>, nat)
    decreases |data| - offset
  {
    if offset >= |data| then ([], offset)
    else
      match ScanStep(codec, data, offset, verify)
      case Stop => ([], offset)
      case Skip(size) => ScanFrom(codec, data, offset + size, verify)
      case Report(info) =>
        var (frames, end) := ScanFrom(codec, data, info.end, verify);
        ([info] + frames, end)
  }

  /** The body of the loop. */
  method NextStep(codec: Codec, file: Bytes, offset: nat, limit: nat, verify: bool) returns (step: Step)
    requires offset < limit <= |file|
    ensures step == ScanStep(codec, file[..limit], offset, verify)
  {
    hide CheckpointMagic, FooterMagic, Unpack;
    ghost var data := file[..limit];
    var prefix := Read(file, offset, if limit - offset < FRAME_SIZE then limit - offset else FRAME_SIZE);
    assert prefix == Read(data, offset, FRAME_SIZE);
    if |prefix| >= CHECKPOINT_SIZE && prefix[16..24] == CheckpointMagic() {
      return Skip(CHECKPOINT_SIZE);
    }
    if |prefix| >= FOOTER_SIZE && prefix[8..16] == FooterMagic() {
      return Skip(FOOTER_SIZE);
    }
    if |prefix| < FRAME_SIZE {
      return Stop;
    }
    var info := Header(offset, prefix);
    if info.compressedSize == 0 || info.end > limit {
      return Stop;
    }
    if verify {
      var compressed := Read(file, offset + FRAME_SIZE, info.compressedSize);
      assert compressed == Read(data, offset + FRAME_SIZE, info.compressedSize);
      if Payload(codec, info, Unpack(prefix[17..21]), compressed).None? {
        return Stop;
      }
    }
    step := Report(info);
  }

  /** The scanning loop. */
  method ScanFrames(codec: Codec, file: Bytes, start: nat, limit: nat, verify: bool)
    returns (frames: seq<FrameInfo>, offset: nat)
    requires limit <= |file|
    ensures (frames, offset) == ScanFrom(codec, file[..limit], start, verify)
  {
    hide ScanStep;
    ghost var data := file[..limit];
    ghost var expected := ScanFrom(codec, data, start, verify);
    frames := [];
    offset := start;
    while offset < limit
      invariant frames + ScanFrom(codec, data, offset, verify).0 == expected.0
      invariant ScanFrom(codec, data, offset, verify).1 == expected.1
      decreases limit - offset
    {
      var step := NextStep(codec, file, offset, limit, verify);
      match step
      case Stop => break;
      case Skip(size) => offset := offset + size;
      case Report(info) =>
        frames := frames + [info];
        offset := info.end;
    }
    assert ScanFrom(codec, data, offset, verify) == ([], offset);
    assert frames + [] == frames;
  }

  // ---- Clean logs ----

  /** A frame that validates anywhere in the file was appended there. */
  ghost predicate Genuine(codec: Codec, log: Records) {
    forall offset: nat :: ReadFrame(codec, File(codec, log), offset).Some? ==>
      exists i :: 0 <= i < |log| && offset == Start(codec, log, i)
  }

  predicate EndsWithFooter(file: Bytes) {
    |file| >= MAGIC_SIZE + FOOTER_SIZE && file[|file| - 8..] == FooterMagic()
  }

  /** No cut ends on the footer magic except behind a footer. */
  ghost predicate NoStrayFooter(codec: Codec, log: Records) {
    forall cut: nat {:trigger File(codec, log)[..cut]} ::
      cut <= |File(codec, log)| && EndsWithFooter(File(codec, log)[..cut]) ==>
      exists i :: 0 <= i < |log| && log[i].IndexRecord? && cut == Start(codec, log, i + 1)
  }

  /** No frame header holds the checkpoint magic where a trailer would. */
  ghost predicate NoCollision(codec: Codec, log: Records) {
    forall i :: 0 <= i < |log| ==> Read(Frame(codec, log[i]), 16, 8) != CheckpointMagic()
  }

  ghost predicate Clean(codec: Codec, log: Records) {
    && codec.Sound() && Admissible(codec, log) && WellFormed(codec, log)
    && Genuine(codec, log) && NoStrayFooter(codec, log) && NoCollision(codec, log)
  }

  lemma CleanParts(codec: Codec, log: Records)
    requires Clean(codec, log)
    ensures codec.Sound() && Admissible(codec, log) && WellFormed(codec, log)
    ensures Genuine(codec, log) && NoStrayFooter(codec, log) && NoCollision(codec, log)
  {
  }

  // ---- The scanner undoes the writer ----

  function InfoAt(codec: Codec, log: Records, i: nat): FrameInfo
    requires i < |log|
  {
    InfoOf(codec, Start(codec, log, i), Kind(log[i]), Raw(codec, log[i]))
  }

  /** The frames of the records from i on that lie before the cut. */
  ghost function FramesWithin(codec: Codec, log: Records, i: nat, cut: nat): seq<FrameInfo>
    requires i <= |log|
    decreases |log| - i
  {
    if i == |log| || TrailerStart(codec, log, i) > cut then []
    else [InfoAt(codec, log, i)] + FramesWithin(codec, log, i + 1, cut)
  }

  ghost function ScanStop(codec: Codec, log: Records, i: nat, cut: nat): nat
    requires i <= |log|
    decreases |log| - i
  {
    if i == |log| || TrailerStart(codec, log, i) > cut then Start(codec, log, i)
    else if Start(codec, log, i + 1) > cut then TrailerStart(codec, log, i)
    else ScanStop(codec, log, i + 1, cut)
  }

  /** Bytes of record i's frame, read from a cut that may end inside it. */
  lemma FramePart(codec: Codec, log: Records, i: nat, cut: nat)
    requires codec.Sound() && i < |log| && Start(codec, log, i) <= cut <= |File(codec, log)|
    ensures var prefix := Read(File(codec, log)[..cut], Start(codec, log, i), FRAME_SIZE);
      prefix == FrameHeader(codec, Kind(log[i]), Raw(codec, log[i]))[..|prefix|]
    ensures TrailerStart(codec, log, i) <= cut ==>
      |Read(File(codec, log)[..cut], Start(codec, log, i), FRAME_SIZE)| == FRAME_SIZE
  {
    hide File, Trailer, FrameHeader;
    var file, start, end := File(codec, log), Start(codec, log, i), Start(codec, log, i + 1);
    var kind, raw := Kind(log[i]), Raw(codec, log[i]);
    RecordAt(codec, log, i);
    RecordIsLarge(codec, log, i);
    FrameSize(codec, kind, raw);
    var header := FrameHeader(codec, kind, raw);
    assert RecordBytes(codec, log[i], start)[..FRAME_SIZE] == header;
    assert file[start..end][..FRAME_SIZE] == file[start..start + FRAME_SIZE];
    var prefix := Read(file[..cut], start, FRAME_SIZE);
    assert prefix == file[start..start + |prefix|];
    assert file[start..start + FRAME_SIZE][..|prefix|] == file[start..start + |prefix|];
  }

  lemma HeaderIsNotTrailer(codec: Codec, log: Records, i: nat)
    requires Clean(codec, log) && i < |log|
    ensures var header := FrameHeader(codec, Kind(log[i]), Raw(codec, log[i]));
      && |header| == FRAME_SIZE
      && header[16..24] != CheckpointMagic() && header[8..16] != FooterMagic() && header[0] != 0x4b
  {
    hide Genuine, NoStrayFooter, WellFormed, File;
    var kind, raw := Kind(log[i]), Raw(codec, log[i]);
    var header, size := FrameHeader(codec, kind, raw), |codec.compress(raw)|;
    HeaderFields(codec, kind, raw);
    FrameSize(codec, kind, raw);
    assert Read(Frame(codec, log[i]), 16, 8) == header[16..24];
    RecordIsLarge(codec, log, i);
    RecordAt(codec, log, i);
    assert size < OFFSET_LIMIT;
    SizeIsNotMagic(size);
    assert header[8..16][1..] == header[9..17][..7];
  }

  lemma SizeIsNotMagic(size: nat)
    requires size < OFFSET_LIMIT
    ensures Pack(size, 8)[..7] != FooterMagic()[1..]
  {
    UnpackPack64(size);
    UnpackFooterMagic();
    assert Unpack(Pack(size, 8)) == 256 * Unpack(Pack(size, 8)[..7]) + Pack(size, 8)[7];
  }

  /** Scanning at a frame: it is reported when the cut keeps all of it, and scanning stops otherwise. */
  lemma ScanFrame(codec: Codec, log: Records, i: nat, cut: nat, verify: bool)
    requires Clean(codec, log) && i < |log| && Start(codec, log, i) <= cut <= |File(codec, log)|
    ensures var data, start := File(codec, log)[..cut], Start(codec, log, i);
      if TrailerStart(codec, log, i) > cut then ScanFrom(codec, data, start, verify) == ([], start)
      else
        var (frames, end) := ScanFrom(codec, data, TrailerStart(codec, log, i), verify);
        ScanFrom(codec, data, start, verify) == ([InfoAt(codec, log, i)] + frames, end)
  {
    var data, start := File(codec, log)[..cut], Start(codec, log, i);
    var kind, raw := Kind(log[i]), Raw(codec, log[i]);
    FramePart(codec, log, i, cut);
    HeaderIsNotTrailer(codec, log, i);
    RecordIsLarge(codec, log, i);
    RecordAt(codec, log, i);
    FrameSize(codec, kind, raw);
    if TrailerStart(codec, log, i) <= cut {
      FrameReadsBack(codec, log, i, cut);
    }
    HeaderOfFrame(codec, kind, raw, start);
    EndOfInfo(codec, start, kind, raw);
    hide *;
    ScanAtHeader(codec, data, start, FrameHeader(codec, kind, raw), verify);
  }

  lemma ScanAtHeader(codec: Codec, data: Bytes, offset: nat, header: Bytes, verify: bool)
    requires |header| == FRAME_SIZE && header[16..24] != CheckpointMagic() && header[8..16] != FooterMagic()
    requires var prefix := Read(data, offset, FRAME_SIZE); prefix == header[..|prefix|]
    ensures
      var prefix, info := Read(data, offset, FRAME_SIZE), Header(offset, header);
      if |prefix| < FRAME_SIZE || info.compressedSize == 0 || info.end > |data| ||
         (verify && ReadFrame(codec, data, offset).None?)
      then ScanFrom(codec, data, offset, verify) == ([], offset)
      else
        var (frames, end) := ScanFrom(codec, data, info.end, verify);
        ScanFrom(codec, data, offset, verify) == ([info] + frames, end)
  {
    hide ReadFrame, Header, CheckpointMagic, FooterMagic, Read;
    var prefix := Read(data, offset, FRAME_SIZE);
    if |prefix| >= CHECKPOINT_SIZE {
      MiddleOfPrefix(header, |prefix|, 16, 24);
    }
    if |prefix| >= FOOTER_SIZE {
      MiddleOfPrefix(header, |prefix|, 8, 16);
    }
    WholePrefix(header);
    ReadPastEnd(data, offset);
  }

  lemma MiddleOfPrefix(bytes: Bytes, n: nat, from: nat, to: nat)
    requires from <= to <= n <= |bytes|
    ensures bytes[..n][from..to] == bytes[from..to]
  {
  }

  lemma WholePrefix(bytes: Bytes)
    ensures bytes[..|bytes|] == bytes
  {
  }

  lemma ReadPastEnd(data: Bytes, offset: nat)
    ensures offset >= |data| ==> Read(data, offset, FRAME_SIZE) == []
  {
  }

  lemma {:induction false} HeadInside(codec: Codec, log: Records)
    ensures Head(codec, log) <= |File(codec, log)|
  {
    if log != [] && !IsAnchor(log[|log| - 1]) {
      HeadInside(codec, log[..|log| - 1]);
    }
  }

  lemma {:induction false} PreviousIsOffset(codec: Codec, log: Records, i: nat)
    requires Admissible(codec, log) && WellFormed(codec, log) && i < |log| && log[i].CommitRecord?
    ensures log[i].previous == Head(codec, log[..i]) < OFFSET_LIMIT
    ensures log[i].previous == 0 ==> Commits(log[..i]) == []
    ensures Pack(log[i].previous, 8) != FooterMagic()
  {
    WellFormedPrefix(codec, log, i + 1);
    assert log[..i + 1][..i] == log[..i];
    HeadInside(codec, log[..i]);
    FilePrefix(codec, log, i);
    OffsetIsNotMagic(log[i].previous);
  }

  /** Bytes from record i's trailer on, read from a cut that may end inside it. */
  lemma TrailerPart(codec: Codec, log: Records, i: nat, cut: nat, n: nat)
    requires codec.Sound() && i < |log| && TrailerStart(codec, log, i) + n <= cut <= |File(codec, log)|
    requires n <= |Trailer(log[i], Start(codec, log, i))|
    ensures Read(File(codec, log)[..cut], TrailerStart(codec, log, i), n) == Trailer(log[i], Start(codec, log, i))[..n]
  {
    hide *;
    var file, start, at := File(codec, log), Start(codec, log, i), TrailerStart(codec, log, i);
    RecordAt(codec, log, i);
    RecordSplit(codec, log, i);
    var trailer := Trailer(log[i], start);
    var whole := RecordBytes(codec, log[i], start);
    SubSlice(file, start, whole, at - start, n);
    assert whole[at - start..][..n] == whole[at - start..at - start + n];
    ReadCut(file, cut, at, n);
  }

  lemma RecordSplit(codec: Codec, log: Records, i: nat)
    requires i < |log|
    ensures var start, at := Start(codec, log, i), TrailerStart(codec, log, i);
      var whole := RecordBytes(codec, log[i], start);
      && start <= at <= start + |whole| && whole[at - start..] == Trailer(log[i], start)
  {
  }

  lemma SubSlice(file: Bytes, start: nat, whole: Bytes, from: nat, n: nat)
    requires start + |whole| <= |file| && file[start..start + |whole|] == whole && from + n <= |whole|
    ensures whole[from..from + n] == file[start + from..start + from + n]
  {
    var a, b := whole[from..from + n], file[start + from..start + from + n];
    forall i | 0 <= i < n ensures a[i] == b[i] {
      assert whole[from + i] == file[start..start + |whole|][from + i];
    }
    assert a == b;
  }

  lemma ReadInside(data: Bytes, at: nat, n: nat)
    ensures Read(data, at, n) != [] ==> at + |Read(data, at, n)| <= |data|
  {
  }

  lemma ReadCut(file: Bytes, cut: nat, at: nat, n: nat)
    requires at + n <= cut <= |file|
    ensures Read(file[..cut], at, n) == file[at..at + n]
  {
  }

  /** Scanning at a trailer: it is skipped when the cut keeps all of it, and scanning stops otherwise. */
  lemma ScanTrailer(codec: Codec, log: Records, i: nat, cut: nat, verify: bool)
    requires Clean(codec, log) && i < |log| && TrailerStart(codec, log, i) <= cut <= |File(codec, log)|
    ensures var data, at := File(codec, log)[..cut], TrailerStart(codec, log, i);
      ScanFrom(codec, data, at, verify) ==
        if Start(codec, log, i + 1) > cut then ([], at)
        else ScanFrom(codec, data, Start(codec, log, i + 1), verify)
  {
    match log[i]
    case CommitRecord(_, _) => ScanCommitTrailer(codec, log, i, cut, verify);
    case IndexRecord(_, _) => ScanIndexTrailer(codec, log, i, cut, verify);
    case _ =>
      RecordIsLarge(codec, log, i);
  }

  lemma ScanCommitTrailer(codec: Codec, log: Records, i: nat, cut: nat, verify: bool)
    requires Clean(codec, log) && i < |log| && log[i].CommitRecord?
    requires TrailerStart(codec, log, i) <= cut <= |File(codec, log)|
    ensures var data, at := File(codec, log)[..cut], TrailerStart(codec, log, i);
      ScanFrom(codec, data, at, verify) ==
        if Start(codec, log, i + 1) > cut then ([], at)
        else ScanFrom(codec, data, Start(codec, log, i + 1), verify)
  {
    hide *;
    CleanParts(codec, log);
    RecordIsLarge(codec, log, i);
    PreviousIsOffset(codec, log, i);
    var data, at := File(codec, log)[..cut], TrailerStart(codec, log, i);
    var trailer, kept := KeptTrailer(codec, log, i, cut);
    CheckpointFields(Start(codec, log, i), log[i].previous);
    TrailerOfCommit(log[i], Start(codec, log, i));
    ScanCheckpoint(codec, data, at, trailer, kept, log[i].previous, verify);
  }

  lemma ScanIndexTrailer(codec: Codec, log: Records, i: nat, cut: nat, verify: bool)
    requires Clean(codec, log) && i < |log| && log[i].IndexRecord?
    requires TrailerStart(codec, log, i) <= cut <= |File(codec, log)|
    ensures var data, at := File(codec, log)[..cut], TrailerStart(codec, log, i);
      ScanFrom(codec, data, at, verify) ==
        if Start(codec, log, i + 1) > cut then ([], at)
        else ScanFrom(codec, data, Start(codec, log, i + 1), verify)
  {
    hide Clean, File, Start, TrailerStart, Read, FooterMagic, CheckpointMagic, ScanFrom;
    CleanParts(codec, log);
    RecordIsLarge(codec, log, i);
    TrailerOfIndex(log[i], Start(codec, log, i));
    var data, at := File(codec, log)[..cut], TrailerStart(codec, log, i);
    var trailer, kept := KeptTrailer(codec, log, i, cut);
    if |Read(data, at, FRAME_SIZE)| >= CHECKPOINT_SIZE {
      ReadInside(data, at, FRAME_SIZE);
      NextIsFrame(codec, log, i, cut);
    }
    ScanFooter(codec, data, at, trailer, kept, verify);
  }

  lemma TrailerOfCommit(record: Record, offset: nat)
    requires record.CommitRecord?
    ensures Trailer(record, offset) == CheckpointBytes(offset, record.previous)
  {
  }

  lemma TrailerOfIndex(record: Record, offset: nat)
    requires record.IndexRecord?
    ensures Trailer(record, offset) == FooterBytes(offset)
    ensures FooterBytes(offset)[..8] == Pack(offset, 8) && FooterBytes(offset)[8..] == FooterMagic()
  {
  }

  lemma CheckpointFields(commit: nat, previous: nat)
    ensures var bytes := CheckpointBytes(commit, previous);
      bytes[..8] == Pack(commit, 8) && bytes[8..16] == Pack(previous, 8) && bytes[16..24] == CheckpointMagic()
  {
  }

  lemma KeptTrailer(codec: Codec, log: Records, i: nat, cut: nat) returns (trailer: Bytes, kept: nat)
    requires codec.Sound() && i < |log| && TrailerStart(codec, log, i) <= cut <= |File(codec, log)|
    ensures trailer == Trailer(log[i], Start(codec, log, i))
    ensures var prefix := Read(File(codec, log)[..cut], TrailerStart(codec, log, i), FRAME_SIZE);
      kept == (if |prefix| <= |trailer| then |prefix| else |trailer|) && prefix[..kept] == trailer[..kept]
  {
    hide File, Trailer;
    trailer := Trailer(log[i], Start(codec, log, i));
    var data, at := File(codec, log)[..cut], TrailerStart(codec, log, i);
    var prefix := Read(data, at, FRAME_SIZE);
    kept := if |prefix| <= |trailer| then |prefix| else |trailer|;
    TrailerPart(codec, log, i, cut, kept);
    assert Read(data, at, kept) == prefix[..kept];
  }

  lemma ScanCheckpoint(codec: Codec, data: Bytes, at: nat, trailer: Bytes, kept: nat, previous: nat, verify: bool)
    requires at <= |data| && |trailer| == CHECKPOINT_SIZE && kept <= CHECKPOINT_SIZE
    requires trailer[16..24] == CheckpointMagic() && trailer[8..16] == Pack(previous, 8) != FooterMagic()
    requires var prefix := Read(data, at, FRAME_SIZE);
      kept == (if |prefix| <= |trailer| then |prefix| else |trailer|) && prefix[..kept] == trailer[..kept]
    ensures ScanFrom(codec, data, at, verify) ==
      if at + CHECKPOINT_SIZE > |data| then ([], at) else ScanFrom(codec, data, at + CHECKPOINT_SIZE, verify)
  {
    hide Header, ReadFrame, FooterMagic, CheckpointMagic;
    var prefix := Read(data, at, FRAME_SIZE);
    if |prefix| >= CHECKPOINT_SIZE {
      assert prefix[..24][16..24] == prefix[16..24];
    } else if |prefix| >= FOOTER_SIZE {
      assert prefix[8..16] == trailer[..kept][8..16] == trailer[8..16];
    }
  }

  lemma ScanFooter(codec: Codec, data: Bytes, at: nat, trailer: Bytes, kept: nat, verify: bool)
    requires at <= |data| && |trailer| == FOOTER_SIZE && kept <= FOOTER_SIZE
    requires trailer[8..] == FooterMagic()
    requires var prefix := Read(data, at, FRAME_SIZE);
      && kept == (if |prefix| <= |trailer| then |prefix| else |trailer|) && prefix[..kept] == trailer[..kept]
      && (|prefix| >= CHECKPOINT_SIZE ==> prefix[16] != 0x4b)
    ensures ScanFrom(codec, data, at, verify) ==
      if at + FOOTER_SIZE > |data| then ([], at) else ScanFrom(codec, data, at + FOOTER_SIZE, verify)
  {
    hide Header, ReadFrame, FooterMagic;
    var prefix := Read(data, at, FRAME_SIZE);
    if |prefix| >= CHECKPOINT_SIZE {
      assert prefix[16..24][0] != CheckpointMagic()[0];
    }
    if |prefix| >= FOOTER_SIZE {
      assert prefix[..16][8..] == prefix[8..16];
    }
  }

  /** What follows a footer starts with a frame kind, not with the first letter of a magic. */
  lemma NextIsFrame(codec: Codec, log: Records, i: nat, cut: nat)
    requires Clean(codec, log) && i < |log| && log[i].IndexRecord?
    requires TrailerStart(codec, log, i) + FOOTER_SIZE + 8 <= cut <= |File(codec, log)|
    ensures Read(File(codec, log)[..cut], TrailerStart(codec, log, i), FRAME_SIZE)[16] != 0x4b
  {
    hide *;
    CleanParts(codec, log);
    NextStart(codec, log, i, cut);
    FramePart(codec, log, i + 1, cut);
    HeaderIsNotTrailer(codec, log, i + 1);
    SixteenLater(File(codec, log)[..cut], TrailerStart(codec, log, i));
  }

  lemma NextStart(codec: Codec, log: Records, i: nat, cut: nat)
    requires codec.Sound() && i < |log| && log[i].IndexRecord?
    requires TrailerStart(codec, log, i) + FOOTER_SIZE + 8 <= cut <= |File(codec, log)|
    ensures i + 1 < |log| && Start(codec, log, i + 1) == TrailerStart(codec, log, i) + 16
    ensures Start(codec, log, i + 1) + 8 <= cut
  {
    RecordIsLarge(codec, log, i);
    assert log[..|log|] == log;
  }

  lemma SixteenLater(data: Bytes, at: nat)
    requires at + 24 <= |data|
    ensures Read(data, at + 16, FRAME_SIZE) != [] && Read(data, at, FRAME_SIZE)[16] == Read(data, at + 16, FRAME_SIZE)[0]
  {
  }

  /** Scanning a cut of a clean log from record i on finds exactly the frames that the cut keeps whole,
  skipping checkpoints and embedded footers. */
  lemma {:induction false} ScanUndoesAppend(codec: Codec, log: Records, i: nat, cut: nat, verify: bool)
    requires Clean(codec, log) && i <= |log| && Start(codec, log, i) <= cut <= |File(codec, log)|
    ensures ScanFrom(codec, File(codec, log)[..cut], Start(codec, log, i), verify)
      == (FramesWithin(codec, log, i, cut), ScanStop(codec, log, i, cut))
    decreases |log| - i
  {
    hide Clean, InfoAt, File, Start, TrailerStart, ScanFrom;
    if i == |log| {
      ScanAtEnd(codec, log, cut, verify);
    } else {
      ScanFrame(codec, log, i, cut, verify);
      if TrailerStart(codec, log, i) <= cut {
        ScanTrailer(codec, log, i, cut, verify);
        if Start(codec, log, i + 1) <= cut {
          ScanUndoesAppend(codec, log, i + 1, cut, verify);
        } else {
          NothingBeyondCut(codec, log, i + 1, cut);
        }
      }
    }
  }

  lemma ScanAtEnd(codec: Codec, log: Records, cut: nat, verify: bool)
    requires Start(codec, log, |log|) <= cut <= |File(codec, log)|
    ensures ScanFrom(codec, File(codec, log)[..cut], Start(codec, log, |log|), verify)
      == ([], Start(codec, log, |log|))
  {
    assert log[..|log|] == log;
  }

  lemma NothingBeyondCut(codec: Codec, log: Records, i: nat, cut: nat)
    requires Clean(codec, log) && i <= |log| && Start(codec, log, i) > cut
    ensures FramesWithin(codec, log, i, cut) == []
  {
    if i < |log| {
      RecordIsLarge(codec, log, i);
    }
  }
}
