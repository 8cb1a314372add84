/** Opening an archive: where the durable part ends, which commits it holds, and the anchor that
archives without trailers get. */
module Reopen {
  import opened Wrappers
  import opened Text
  import opened Model
  import opened Wire
  import opened Log
  import opened Trailers
  import opened Chain
  import opened Scan

  /** What a writer finds and leaves: the file it will append to, and where its own bytes will start. */
  datatype Opened = Opened(file: Bytes, commits: seq<Manifest>, previous: nat, appendStart: nat)

  /** The newest trailers of a file, as the backward searches find them. */
  datatype Newest = Newest(checkpoint: Option<nat>, footer: Option<nat>)

  function Anchor(commits: seq<Manifest>): Record {
    IndexRecord(commits, "checkpoint_anchor")
  }

  /** The manifests of the commit frames among `frames`, and where the last of them ends. */
  function FrameCommits(codec: Codec, file: Bytes, frames: seq<FrameInfo>): Result<(seq<Manifest>, nat)> {
    if frames == [] then Ok(([], MAGIC_SIZE))
    else
      var frame := frames[|frames| - 1];
      match FrameCommits(codec, file, frames[..|frames| - 1])
      case Failure(reason) => Failure(reason)
      case Ok(older) =>
        if frame.kind != COMMIT then Ok(older)
        else
          match ReadKind(codec, file, frame.offset, COMMIT)
          case None => Failure("corrupt frame")
          case Some((info, raw)) =>
            match codec.decodeManifest(raw)
            case None => Failure("invalid commit manifest")
            case Some(manifest) => Ok((older.0 + [manifest], frame.end))
  }

  /** _load_commits */
  method LoadCommits(codec: Codec, file: Bytes, frames: seq<FrameInfo>) returns (r: Result<(seq<Manifest>, nat)>)
    ensures r.Failure? == FrameCommits(codec, file, frames).Failure?
    ensures r.Ok? ==> r == FrameCommits(codec, file, frames)
  {
    hide ReadKind;
    var commits: seq<Manifest>, durable: nat := [], MAGIC_SIZE;
    for i := 0 to |frames|
      invariant FrameCommits(codec, file, frames[..i]) == Ok((commits, durable))
    {
      assert frames[..i + 1][..i] == frames[..i];
      var frame := frames[i];
      if frame.kind == COMMIT {
        var found := ReadKind(codec, file, frame.offset, COMMIT);
        if found.None? || codec.decodeManifest(found.value.1).None? {
          FailuresStay(codec, file, frames, i + 1);
          return Failure("corrupt commit");
        }
        commits, durable := commits + [codec.decodeManifest(found.value.1).value], frame.end;
      }
    }
    assert frames[..|frames|] == frames;
    r := Ok((commits, durable));
  }

  lemma {:induction false} FailuresStay(codec: Codec, file: Bytes, frames: seq<FrameInfo>, i: nat)
    requires i <= |frames| && FrameCommits(codec, file, frames[..i]).Failure?
    ensures FrameCommits(codec, file, frames).Failure?
    decreases |frames|
  {
    if i == |frames| {
      assert frames[..i] == frames;
    } else {
      assert frames[..|frames| - 1][..i] == frames[..i];
      FailuresStay(codec, file, frames[..|frames| - 1], i);
    }
  }

  /** Every frame found lies in the file, and so does the end of the last commit. */
  predicate Inside(frames: seq<FrameInfo>, size: nat) {
    forall i | 0 <= i < |frames| :: frames[i].end <= size
  }

  lemma {:induction false} ScannedInside(codec: Codec, data: Bytes, offset: nat, verify: bool)
    ensures Inside(ScanFrom(codec, data, offset, verify).0, |data|)
    decreases |data| - offset
  {
    if offset < |data| {
      var step := ScanStep(codec, data, offset, verify);
      hide ScanStep;
      match step
      case Stop =>
      case Skip(size) => ScannedInside(codec, data, offset + size, verify);
      case Report(info) => ScannedInside(codec, data, info.end, verify);
    }
  }

  lemma {:induction false} CommitsEndInside(codec: Codec, file: Bytes, frames: seq<FrameInfo>)
    requires Inside(frames, |file|) && |file| >= MAGIC_SIZE
    ensures var r := FrameCommits(codec, file, frames); r.Ok? ==> r.value.1 <= |file|
  {
    if frames != [] {
      CommitsEndInside(codec, file, frames[..|frames| - 1]);
    }
  }

  function Anchored(codec: Codec, file: Bytes, commits: seq<Manifest>): Opened {
    Opened(file + RecordBytes(codec, Anchor(commits), |file|), commits, |file| + |Frame(codec, Anchor(commits))|, |file|)
  }

  /** Opening a file in which no trailer validates: the verified scan, then an anchor. */
  ghost predicate ScansTo(codec: Codec, file: Bytes, r: Result<Opened>) {
    if Read(file, 0, MAGIC_SIZE) != Magic() then r.Failure?
    else
      match FrameCommits(codec, file, ScanFrom(codec, file, MAGIC_SIZE, true).0)
      case Failure(_) => r.Failure?
      case Ok((commits, durable)) =>
        && durable <= |file|
        && r == Ok(if commits == [] then Opened(file[..durable], [], 0, durable) else Anchored(codec, file[..durable], commits))
  }

  /** Following the newest checkpoint. */
  ghost predicate FollowsTo(codec: Codec, file: Bytes, last: nat, r: Result<Opened>) {
    match Walk(codec, file, last, {})
    case Failure(_) => r.Failure?
    case Ok(commits) =>
      var durable := if HasFooterMark(file, last) then 0 else last + CHECKPOINT_SIZE;
      durable <= |file| && r == Ok(Opened(file[..durable], commits, last, durable))
  }

  /** Resuming behind an embedded footer. */
  ghost predicate ResumesAt(codec: Codec, file: Bytes, footer: nat, r: Result<Opened>) {
    var index := ReadIndex(codec, file, footer);
    && index.Some? && footer + FOOTER_SIZE <= |file|
    && r == Ok(Opened(file[..footer + FOOTER_SIZE], index.value.1, footer, footer + FOOTER_SIZE))
  }

  /** The outcome of ArchiveWriter.__init__ on an existing file. */
  ghost predicate OpensTo(codec: Codec, file: Bytes, extendComplete: bool, newest: Newest, r: Result<Opened>) {
    if EndsWithFooter(file) then
      var index := ReadIndex(codec, file, |file| - FOOTER_SIZE);
      if !extendComplete || index.None? then r.Failure?
      else r == Ok(Opened(file, index.value.1, |file| - FOOTER_SIZE, |file|))
    else
      && IsLast(codec, file, CheckpointTrailer, newest.checkpoint)
      && if newest.checkpoint.Some? then FollowsTo(codec, file, newest.checkpoint.value, r)
         else
           && IsLast(codec, file, FooterTrailer, newest.footer)
           && if newest.footer.Some? then ResumesAt(codec, file, newest.footer.value, r)
              else ScansTo(codec, file, r)
  }

  /** ArchiveWriter.__init__, resuming. */
  method Open(codec: Codec, file: Bytes, extendComplete: bool, chunk: nat) returns (r: Result<Opened>)
    requires chunk > 7
    ensures exists newest :: OpensTo(codec, file, extendComplete, newest, r)
  {
    hide IsLast, Walk, ScansTo, HasFooterMark, ReadIndex;
    ghost var newest := Newest(None, None);
    if EndsWithFooter(file) {
      var index := ReadIndex(codec, file, |file| - FOOTER_SIZE);
      if !extendComplete || index.None? {
        r := Failure("archive is already complete");
      } else {
        r := Ok(Opened(file, index.value.1, |file| - FOOTER_SIZE, |file|));
      }
    } else {
      var chain := LoadChain(codec, file, chunk);
      ghost var last :| ChainLoads(codec, file, last, chain);
      newest := Newest(last, None);
      if chain.Failure? {
        r := Failure(chain.reason);
      } else if chain.value.Some? {
        var loaded := chain.value.value;
        TrailerInside(codec, file, CheckpointTrailer, loaded.latest);
        r := Ok(Opened(file[..loaded.durable], loaded.commits, loaded.latest, loaded.durable));
      } else {
        var footer := FindLast(codec, file, FooterTrailer, chunk);
        newest := Newest(last, footer);
        if footer.Some? {
          TrailerInside(codec, file, FooterTrailer, footer.value);
          var index := ReadIndex(codec, file, footer.value);
          r := Ok(Opened(file[..footer.value + FOOTER_SIZE], index.value.1, footer.value, footer.value + FOOTER_SIZE));
        } else {
          r := OpenByScanning(codec, file);
        }
      }
    }
    assert OpensTo(codec, file, extendComplete, newest, r);
  }

  lemma TrailerInside(codec: Codec, file: Bytes, kind: TrailerKind, last: nat)
    requires IsLast(codec, file, kind, Some(last))
    ensures kind == CheckpointTrailer ==> last + CHECKPOINT_SIZE <= |file|
    ensures kind == FooterTrailer ==> last + FOOTER_SIZE <= |file| && ReadIndex(codec, file, last).Some?
  {
  }

  /** The compatibility path for archives without trailers. */
  method OpenByScanning(codec: Codec, file: Bytes) returns (r: Result<Opened>)
    ensures ScansTo(codec, file, r)
  {
    hide ScanFrom, FrameCommits, Magic, RecordBytes, Frame;
    if Read(file, 0, MAGIC_SIZE) != Magic() {
      return Failure("not a supported archive");
    }
    var frames, _ := ScanFrames(codec, file, MAGIC_SIZE, |file|, true);
    assert file[..|file|] == file;
    ScannedInside(codec, file, MAGIC_SIZE, true);
    CommitsEndInside(codec, file, frames);
    var loaded := LoadCommits(codec, file, frames);
    if loaded.Failure? {
      return Failure(loaded.reason);
    }
    var (commits, durable) := loaded.value;
    var kept := file[..durable];
    if commits == [] {
      r := Ok(Opened(kept, [], 0, durable));
    } else {
      var frame := Frame(codec, Anchor(commits));
      var bytes := RecordBytes(codec, Anchor(commits), |kept|);
      r := Ok(Opened(kept + bytes, commits, |kept| + |frame|, durable));
    }
  }

  // ---- The reader's view ----

  /** Archive._load_incomplete and _load_index: the commits that a reader captures. */
  ghost predicate ViewsTo(codec: Codec, file: Bytes, allowIncomplete: bool, newest: Newest, r: Result<seq<Manifest>>) {
    if EndsWithFooter(file) then
      var index := ReadIndex(codec, file, |file| - FOOTER_SIZE);
      if index.None? then r.Failure? else r == Ok(index.value.1)
    else if !allowIncomplete then r.Failure?
    else
      && IsLast(codec, file, CheckpointTrailer, newest.checkpoint)
      && if newest.checkpoint.Some? then
           var walk := Walk(codec, file, newest.checkpoint.value, {});
           if walk.Failure? then r.Failure? else r == walk
         else
           && IsLast(codec, file, FooterTrailer, newest.footer)
           && if newest.footer.Some? then
                var index := ReadIndex(codec, file, newest.footer.value);
                index.Some? && r == Ok(index.value.1)
              else ViewsScan(codec, file, r)
  }

  ghost predicate ViewsScan(codec: Codec, file: Bytes, r: Result<seq<Manifest>>) {
    if Read(file, 0, MAGIC_SIZE) != Magic() then r.Failure?
    else
      match FrameCommits(codec, file, ScanFrom(codec, file, MAGIC_SIZE, false).0)
      case Failure(_) => r.Failure?
      case Ok((commits, _)) => r == Ok(commits)
  }

  /** Archive.__init__ */
  method View(codec: Codec, file: Bytes, allowIncomplete: bool, chunk: nat) returns (r: Result<seq<Manifest>>)
    requires chunk > 7
    ensures exists newest :: ViewsTo(codec, file, allowIncomplete, newest, r)
  {
    hide IsLast, Walk, ViewsScan, HasFooterMark, ReadIndex;
    ghost var newest := Newest(None, None);
    if EndsWithFooter(file) {
      var index := ReadIndex(codec, file, |file| - FOOTER_SIZE);
      r := if index.None? then Failure("invalid archive index") else Ok(index.value.1);
    } else if !allowIncomplete {
      r := Failure("archive is incomplete");
    } else {
      var chain := LoadChain(codec, file, chunk);
      ghost var last :| ChainLoads(codec, file, last, chain);
      newest := Newest(last, None);
      if chain.Failure? {
        r := Failure(chain.reason);
      } else if chain.value.Some? {
        r := Ok(chain.value.value.commits);
      } else {
        var footer := FindLast(codec, file, FooterTrailer, chunk);
        newest := Newest(last, footer);
        if footer.Some? {
          TrailerInside(codec, file, FooterTrailer, footer.value);
          r := Ok(ReadIndex(codec, file, footer.value).value.1);
        } else {
          r := ViewByScanning(codec, file);
        }
      }
    }
    assert ViewsTo(codec, file, allowIncomplete, newest, r);
  }

  method ViewByScanning(codec: Codec, file: Bytes) returns (r: Result<seq<Manifest>>)
    ensures ViewsScan(codec, file, r)
  {
    hide ScanFrom, FrameCommits, Magic;
    if Read(file, 0, MAGIC_SIZE) != Magic() {
      return Failure("not a supported archive");
    }
    var frames, _ := ScanFrames(codec, file, MAGIC_SIZE, |file|, false);
    assert file[..|file|] == file;
    var loaded := LoadCommits(codec, file, frames);
    if loaded.Failure? {
      return Failure(loaded.reason);
    }
    r := Ok(loaded.value.0);
  }
}
