/** The single writer: pages, commits with their checkpoints, and the final index. */
module ArchiveWriter {
  import opened Wrappers
  import opened Text
  import opened Model
  import opened Wire
  import opened Log
  import opened Scan
  import opened Trailers
  import opened Recovery
  import opened Reopen
  import opened Durability
  import opened Trees
  import opened PageStore

  // ---- The pages of a log ----

  function PagesOf(codec: Codec, log: Records): Pages {
    if log == [] then map[]
    else
      var init := log[..|log| - 1];
      match log[|log| - 1]
      case PageRecord(page) => PagesOf(codec, init)[|File(codec, init)| := page]
      case _ => PagesOf(codec, init)
  }

  lemma PagesOfAppend(codec: Codec, log: Records, record: Record)
    ensures PagesOf(codec, log + [record]) ==
      if record.PageRecord? then PagesOf(codec, log)[|File(codec, log)| := record.page] else PagesOf(codec, log)
  {
    assert (log + [record])[..|log|] == log;
  }

  lemma {:induction false} PageIsRecord(codec: Codec, log: Records, offset: nat) returns (i: nat)
    requires offset in PagesOf(codec, log)
    ensures i < |log| && log[i].PageRecord? && offset == Start(codec, log, i)
    ensures PagesOf(codec, log)[offset] == log[i].page
  {
    hide File;
    var n := |log| - 1;
    var init := log[..n];
    if log[n].PageRecord? && offset == |File(codec, init)| {
      i := n;
    } else {
      i := PageIsRecord(codec, init, offset);
      assert init[..i] == log[..i];
    }
  }

  lemma {:induction false} PagesGrow(codec: Codec, log: Records, j: nat)
    requires codec.Sound() && j <= |log|
    ensures Extends(PagesOf(codec, log[..j]), PagesOf(codec, log))
    decreases |log|
  {
    hide File, Codec.Sound;
    if j == |log| {
      assert log[..j] == log;
    } else {
      var n := |log| - 1;
      var init := log[..n];
      assert init[..j] == log[..j];
      PagesGrow(codec, init, j);
      forall offset | offset in PagesOf(codec, log[..j]) ensures offset != |File(codec, init)| {
        var i := PageIsRecord(codec, init, offset);
        StartsAscend(codec, init, i, n);
        assert init[..n] == init;
      }
    }
  }

  /** A stored page reads back through every reference that matches it. */
  lemma StoredPageReads(codec: Codec, log: Records, ref: TreeRef)
    requires codec.Sound() && Admissible(codec, log)
    requires ref.offset in PagesOf(codec, log)
    requires var page := PagesOf(codec, log)[ref.offset]; page.logicalHash == ref.logicalHash && page.count == ref.count
    ensures var page := PagesOf(codec, log)[ref.offset];
      ReadPageAt(codec, File(codec, log), ref) == Some((page, |codec.encodePage(page)|))
  {
    hide ReadFrame, File, Admissible, InfoOf;
    var i := PageIsRecord(codec, log, ref.offset);
    RecordAt(codec, log, i);
    RecordIsLarge(codec, log, i);
    assert File(codec, log)[..|File(codec, log)|] == File(codec, log);
    FrameReadsBack(codec, log, i, |File(codec, log)|);
  }

  // ---- The writer ----

  /** What the fields of a writer mean: the file is the log's, and the rest is derived from it. */
  ghost predicate Describes(codec: Codec, log: Records, file: Bytes, commits: seq<Manifest>, previous: nat) {
    && codec.Sound() && Admissible(codec, log) && WellFormed(codec, log)
    && file == File(codec, log) && commits == Commits(log) && previous == Head(codec, log)
    && (previous == 0 ==> commits == [])
  }

  /** Files do not grow beyond the offset limit: the operating system refuses the write. */
  const FULL := "file too large"

  predicate Fits(codec: Codec, file: Bytes, record: Record) {
    |file| + |RecordBytes(codec, record, |file|)| < OFFSET_LIMIT && |Raw(codec, record)| < UINT64
  }

  /** The page needs no more than `bound` bytes in the file. */
  predicate PageWithin(codec: Codec, page: Page, bound: nat) {
    |Frame(codec, PageRecord(page))| <= bound && |codec.encodePage(page)| < UINT64
  }

  /** There is room for so many more records of at most `bound` bytes. */
  predicate HasRoom(size: nat, records: nat, bound: nat) {
    size + records * bound < OFFSET_LIMIT
  }

  predicate Grew(before: nat, after: nat, records: nat, bound: nat) {
    after <= before + records * bound
  }

  lemma RoomLeft(before: nat, after: nat, written: nat, left: nat, bound: nat)
    requires HasRoom(before, written + left, bound) && Grew(before, after, written, bound)
    ensures HasRoom(after, left, bound)
  {
    assert (written + left) * bound == written * bound + left * bound;
  }

  lemma GrewMore(first: nat, before: nat, after: nat, a: nat, b: nat, bound: nat)
    requires Grew(first, before, a, bound) && Grew(before, after, b, bound)
    ensures Grew(first, after, a + b, bound)
  {
    assert (a + b) * bound == a * bound + b * bound;
  }

  lemma GrewWithin(before: nat, after: nat, a: nat, b: nat, bound: nat)
    requires Grew(before, after, a, bound) && a <= b
    ensures Grew(before, after, b, bound)
  {
    assert b * bound == a * bound + (b - a) * bound;
  }

  lemma RoomWithin(size: nat, a: nat, b: nat, bound: nat)
    requires HasRoom(size, b, bound) && a <= b
    ensures HasRoom(size, a, bound)
  {
    assert b * bound == a * bound + (b - a) * bound;
  }

  lemma GrewNothing(size: nat, records: nat, bound: nat)
    ensures Grew(size, size, records, bound)
  {
  }

  lemma PageHasRoom(codec: Codec, file: Bytes, page: Page, bound: nat)
    requires PageWithin(codec, page, bound)
    ensures HasRoom(|file|, 1, bound) ==> Fits(codec, file, PageRecord(page))
    ensures Grew(|file|, |file| + |Frame(codec, PageRecord(page))|, 1, bound)
  {
  }

  lemma Described(codec: Codec, log: Records, file: Bytes, commits: seq<Manifest>, previous: nat)
    requires Describes(codec, log, file, commits, previous)
    ensures codec.Sound() && Admissible(codec, log) && WellFormed(codec, log)
    ensures file == File(codec, log) && commits == Commits(log) && previous == Head(codec, log)
  {
  }

  lemma DescribesPage(codec: Codec, log: Records, file: Bytes, commits: seq<Manifest>, previous: nat, page: Page)
    requires Describes(codec, log, file, commits, previous) && Fits(codec, file, PageRecord(page))
    ensures Describes(codec, log + [PageRecord(page)], file + Frame(codec, PageRecord(page)), commits, previous)
  {
    hide Frame, Codec.Sound;
    FileAppend(codec, log, PageRecord(page));
    assert (log + [PageRecord(page)])[..|log|] == log;
    assert Frame(codec, PageRecord(page)) + [] == Frame(codec, PageRecord(page));
  }

  lemma DescribesCommit(codec: Codec, log: Records, file: Bytes, commits: seq<Manifest>, previous: nat, manifest: Manifest)
    requires Describes(codec, log, file, commits, previous) && Fits(codec, file, CommitRecord(manifest, previous))
    ensures var record := CommitRecord(manifest, previous);
      Describes(codec, log + [record], file + Frame(codec, record) + CheckpointBytes(|file|, previous),
        commits + [manifest], |file| + |Frame(codec, record)|)
  {
    hide Frame, Codec.Sound, CheckpointBytes;
    var record := CommitRecord(manifest, previous);
    FileAppend(codec, log, record);
    assert (log + [record])[..|log|] == log;
    assert file + Frame(codec, record) + CheckpointBytes(|file|, previous) == file + RecordBytes(codec, record, |file|);
  }

  lemma DescribesIndex(codec: Codec, log: Records, file: Bytes, commits: seq<Manifest>, previous: nat, metadata: string)
    requires Describes(codec, log, file, commits, previous) && Fits(codec, file, IndexRecord(commits, metadata))
    ensures var record := IndexRecord(commits, metadata);
      Describes(codec, log + [record], file + Frame(codec, record) + FooterBytes(|file|),
        commits, |file| + |Frame(codec, record)|)
  {
    hide Frame, Codec.Sound, FooterBytes;
    var record := IndexRecord(commits, metadata);
    FileAppend(codec, log, record);
    assert (log + [record])[..|log|] == log;
    assert file + Frame(codec, record) + FooterBytes(|file|) == file + RecordBytes(codec, record, |file|);
  }

  lemma CommitSize(codec: Codec, record: Record, offset: nat)
    requires record.CommitRecord?
    ensures |RecordBytes(codec, record, offset)| == |Frame(codec, record)| + CHECKPOINT_SIZE
  {
  }

  class Writer {
    const codec: Codec
    const cache: PageCache
    /** Everything written, including what is still buffered. */
    var file: Bytes
    /** How much of it readers of the path see: the bytes before the last flush. */
    var flushed: nat
    var commits: seq<Manifest>
    var previous: nat
    const appendStart: nat
    var finalSize: Option<nat>
    var closed: bool
    ghost var log: Records
    ghost var flushedRecords: nat
    /** The records that were there when this writer started. */
    ghost const inherited: nat

    ghost predicate Valid()
      reads this, cache
    {
      && Describes(codec, log, file, commits, if finalSize.Some? then Head(codec, log) else previous)
      && (finalSize.Some? ==> closed && finalSize.value == flushed == |file|)
      && inherited <= |log| && appendStart == Start(codec, log, inherited)
      && flushedRecords <= |log| && flushed == Start(codec, log, flushedRecords)
      && cache.Valid() && AllMirror(codec, file, cache.entries)
    }

    /** A new archive. */
    constructor Create(codec: Codec, cacheBytes: nat)
      requires codec.Sound()
      ensures Valid() && fresh(this) && fresh(cache) && this.codec == codec && cache.cacheBytes == cacheBytes
      ensures log == [] && flushedRecords == 0 && !closed && appendStart == MAGIC_SIZE
    {
      this.codec := codec;
      cache := new PageCache(cacheBytes);
      file, flushed := Magic(), MAGIC_SIZE;
      commits, previous, appendStart := [], 0, MAGIC_SIZE;
      finalSize, closed := None, false;
      log, flushedRecords, inherited := [], 0, 0;
    }

    /** An existing archive, as Open left it. */
    constructor Resume(codec: Codec, cacheBytes: nat, found: Opened, ghost left: Records)
      requires codec.Sound() && Admissible(codec, left) && IsArchive(codec, left, found)
      ensures Valid() && fresh(this) && fresh(cache) && this.codec == codec && cache.cacheBytes == cacheBytes
      ensures log == left && flushedRecords == |left| && !closed && appendStart == found.appendStart
    {
      this.codec := codec;
      cache := new PageCache(cacheBytes);
      file, flushed := found.file, |found.file|;
      commits, previous, appendStart := found.commits, found.previous, found.appendStart;
      finalSize, closed := None, false;
      log, flushedRecords := left, |left|;
      inherited := if found.appendStart == |found.file| then |left| else |left| - 1;
      new;
      assert left[..|left|] == left;
    }

    /** append: one frame into the buffer. */
    method WriteFrame(kind: nat, raw: Bytes) returns (info: FrameInfo)
      modifies this`file
      ensures file == old(file) + FrameBytes(codec, kind, raw)
      ensures info == InfoOf(codec, |old(file)|, kind, raw)
    {
      var offset := |file|;
      var compressed := codec.compress(raw);
      var digest := codec.digest(raw);
      file := file + ([kind] + Pack(|raw|, 8) + Pack(|compressed|, 8) + Pack(codec.crc(compressed), 4) + digest);
      file := file + compressed;
      assert file == old(file) + FrameBytes(codec, kind, raw);
      info := FrameInfo(offset, kind, |raw|, |compressed|, digest, offset + FRAME_SIZE + |compressed|);
    }

    /** read_page: the writer reads its own file through the path, so it sees only flushed bytes. */
    method ReadPage(ref: TreeRef) returns (page: Option<Page>)
      requires Valid()
      modifies cache
      ensures Valid()
      ensures Stored(codec, log[..flushedRecords], ref) ==>
        page == Some(PagesOf(codec, log[..flushedRecords])[ref.offset])
    {
      hide *;
      UnpackValid();
      FilePrefix(codec, log, flushedRecords);
      TakePrefix(codec, log, flushedRecords, file);
      var visible := file[..flushed];
      assert visible <= file by { PrefixOf(file, flushed); }
      page := cache.ReadPage(codec, visible, ref, None, file);
      if Stored(codec, log[..flushedRecords], ref) {
        StoredIsFresh(codec, log, flushedRecords, ref);
      }
      PackValid();
    }

    lemma UnpackValid()
      requires Valid()
      ensures finalSize.None? || (closed && finalSize.value == flushed == |file|)
      ensures inherited <= |log| && appendStart == Start(codec, log, inherited)
      ensures finalSize.None? ==> Describes(codec, log, file, commits, previous)
      ensures finalSize.Some? ==> Describes(codec, log, file, commits, Head(codec, log))
      ensures codec.Sound() && Admissible(codec, log) && file == File(codec, log)
      ensures flushedRecords <= |log| && flushed == Start(codec, log, flushedRecords)
      ensures cache.Valid() && AllMirror(codec, file, cache.entries)
    {
    }

    lemma PackValid()
      requires finalSize.None? || (closed && finalSize.value == flushed == |file|)
      requires inherited <= |log| && appendStart == Start(codec, log, inherited)
      requires Describes(codec, log, file, commits, if finalSize.Some? then Head(codec, log) else previous)
      requires flushedRecords <= |log| && flushed == Start(codec, log, flushedRecords)
      requires cache.Valid() && AllMirror(codec, file, cache.entries)
      ensures Valid()
    {
    }

    /** store_page: hash the logical page, write it with its hash, remember it. */
    method StorePage(logical: Logical, payload: Page) returns (r: Result<TreeRef>)
      requires Valid() && !closed
      modifies this`file, this`log, cache
      ensures Valid()
      ensures r.Failure? ==> r.reason == FULL && log == old(log) && file == old(file)
      ensures var page := payload.(logicalHash := codec.hash(logical), count := logical.count);
        && (r.Ok? <==> Fits(codec, old(file), PageRecord(page)))
        && (r.Ok? ==> |file| == |old(file)| + |Frame(codec, PageRecord(page))|)
      ensures r.Ok? ==>
        && r.value == TreeRef(|old(file)|, codec.hash(logical), logical.count)
        && log == old(log) + [PageRecord(payload.(logicalHash := r.value.logicalHash, count := r.value.count))]
    {
      hide *;
      UnpackValid();
      var logicalHash := codec.hash(logical);
      var page := payload.(logicalHash := logicalHash, count := logical.count);
      var raw := codec.encodePage(page);
      if !Fits(codec, file, PageRecord(page)) {
        return Failure(FULL);
      }
      ghost var before := file;
      DescribesPage(codec, log, file, commits, previous, page);
      PageFrame(codec, page);
      var info := WriteFrame(PAGE, raw);
      assert |file| == |before| + |Frame(codec, PageRecord(page))|;
      InfoFields(codec, |before|, PAGE, raw);
      log := log + [PageRecord(page)];
      Described(codec, log, file, commits, previous);
      StartStays(codec, old(log), PageRecord(page), flushedRecords);
      StartStays(codec, old(log), PageRecord(page), inherited);
      r := Ok(TreeRef(info.offset, logicalHash, logical.count));
      var key := (info.offset, ParserName(None));
      CachedAreInside(codec, before, cache.entries, key);
      cache.Remember(key, page, |raw|);
      NewPageMirrors(codec, old(log), page);
      assert before <= file;
      RememberStored(codec, before, file, old(cache.entries), cache.entries, Entry(key, page, |raw|), cache.cacheBytes);
      PackValid();
    }

    /** commit: the frame, its checkpoint, then the flush that makes both durable. */
    method Commit(manifest: Manifest) returns (r: Result<()>)
      requires Valid() && !closed
      modifies this`file, this`flushed, this`commits, this`previous, this`log, this`flushedRecords
      ensures Valid()
      ensures r.Failure? ==>
        && r.reason == FULL && log == old(log) && flushedRecords == old(flushedRecords) && commits == old(commits)
      ensures r.Ok? <==> Fits(codec, old(file), CommitRecord(manifest, old(previous)))
      ensures r.Ok? ==> |file| == |old(file)| + |RecordBytes(codec, CommitRecord(manifest, old(previous)), |old(file)|)|
      ensures r.Ok? ==>
        && log == old(log) + [CommitRecord(manifest, old(previous))]
        && flushedRecords == |log| && flushed == |file| && commits == old(commits) + [manifest]
    {
      hide *;
      UnpackValid();
      var record := CommitRecord(manifest, previous);
      if !Fits(codec, file, record) {
        return Failure(FULL);
      }
      ghost var before := file;
      DescribesCommit(codec, log, file, commits, previous, manifest);
      FrameOf(codec, record);
      var info := WriteFrame(COMMIT, codec.encodeManifest(manifest));
      InfoFields(codec, |before|, COMMIT, codec.encodeManifest(manifest));
      var checkpoint := |file|;
      file := file + CheckpointBytes(info.offset, previous);
      CommitSize(codec, record, |before|);
      previous := checkpoint;
      commits := commits + [manifest];
      log := log + [record];
      StartStays(codec, old(log), record, inherited);
      Flush(before);
      r := Ok(());
    }

    /** flush and fsync: everything written is now in the file. */
    method Flush(ghost before: Bytes)
      requires before <= file && (finalSize.None? || (closed && finalSize.value == |file|))
      requires inherited <= |log| && appendStart == Start(codec, log, inherited)
      requires Describes(codec, log, file, commits, if finalSize.Some? then Head(codec, log) else previous)
      requires cache.Valid() && AllMirror(codec, before, cache.entries)
      modifies this`flushed, this`flushedRecords
      ensures Valid() && flushed == |file| && flushedRecords == |log|
    {
      hide *;
      flushed, flushedRecords := |file|, |log|;
      Described(codec, log, file, commits, if finalSize.Some? then Head(codec, log) else previous);
      MirrorsAreStable(codec, before, file, cache.entries);
      assert log[..|log|] == log;
      StartOf(codec, log, |log|);
      PackValid();
    }

    /** finalize: the index of all commits, its footer, and the flush. */
    method Finalize(metadata: string) returns (r: Result<()>)
      requires Valid() && !closed
      modifies this
      ensures Valid()
      ensures r.Failure? ==> r.reason == FULL && log == old(log) && flushedRecords == old(flushedRecords)
      ensures r.Ok? <==> Fits(codec, old(file), IndexRecord(old(commits), metadata))
      ensures r.Ok? ==>
        && log == old(log) + [IndexRecord(old(commits), metadata)] && commits == old(commits)
        && closed && finalSize.Some? && flushedRecords == |log|
    {
      hide *;
      UnpackValid();
      var record := IndexRecord(commits, metadata);
      if !Fits(codec, file, record) {
        return Failure(FULL);
      }
      ghost var before := file;
      DescribesIndex(codec, log, file, commits, previous, metadata);
      FrameOf(codec, record);
      var info := WriteFrame(FINAL_INDEX, codec.encodeIndex(commits, metadata));
      InfoFields(codec, |before|, FINAL_INDEX, codec.encodeIndex(commits, metadata));
      ghost var footer := |file|;
      file := file + FooterBytes(info.offset);
      log := log + [record];
      Described(codec, log, file, commits, footer);
      StartStays(codec, old(log), record, inherited);
      finalSize, closed := Some(|file|), true;
      Flush(before);
      r := Ok(());
    }

    /** close_incomplete: what was buffered is left to the file, without a commit. */
    method CloseIncomplete()
      requires Valid()
      modifies this`flushed, this`flushedRecords, this`closed
      ensures Valid() && closed && (!old(closed) ==> flushed == |file|)
    {
      hide *;
      if !closed {
        UnpackValid();
        Flush(file);
        UnpackValid();
        closed := true;
        PackValid();
      }
    }

    /** verify_appended: every byte since this writer started scans as frames that end with the index. */
    method VerifyAppended() returns (verified: bool)
      requires Valid()
      ensures verified <==> finalSize.Some? && AppendedVerifies(codec, file, appendStart)
    {
      hide *;
      if finalSize.None? {
        return false;
      }
      UnpackValid();
      if |file| < FOOTER_SIZE {
        NothingAppended(codec, file, appendStart);
        return false;
      }
      var limit := finalSize.value - FOOTER_SIZE;
      var frames, end := ScanFrames(codec, file, appendStart, limit, true);
      verified := frames != [] && frames[|frames| - 1].kind == FINAL_INDEX && end == limit
        && ReadIndex(codec, file, limit).Some?;
      AppendedParts(codec, file, appendStart);
    }
  }

  ghost predicate AppendedVerifies(codec: Codec, file: Bytes, start: nat) {
    |file| >= FOOTER_SIZE &&
    var limit := |file| - FOOTER_SIZE;
    var (frames, end) := ScanFrom(codec, file[..limit], start, true);
    frames != [] && frames[|frames| - 1].kind == FINAL_INDEX && end == limit && ReadIndex(codec, file, limit).Some?
  }

  lemma NothingAppended(codec: Codec, file: Bytes, start: nat)
    requires |file| < FOOTER_SIZE
    ensures !AppendedVerifies(codec, file, start)
  {
  }

  lemma AppendedParts(codec: Codec, file: Bytes, start: nat)
    requires |file| >= FOOTER_SIZE
    ensures var limit := |file| - FOOTER_SIZE;
      var (frames, end) := ScanFrom(codec, file[..limit], start, true);
      AppendedVerifies(codec, file, start) <==>
        frames != [] && frames[|frames| - 1].kind == FINAL_INDEX && end == limit && ReadIndex(codec, file, limit).Some?
  {
  }

  /** Every finalized archive passes its own verification, from wherever its writer started. */
  lemma FinalizedVerifies(codec: Codec, log: Records, a: nat)
    requires Clean(codec, log) && a < |log| && log[|log| - 1].IndexRecord?
    ensures AppendedVerifies(codec, File(codec, log), Start(codec, log, a))
  {
    hide *;
    CleanParts(codec, log);
    var n := |log| - 1;
    var file := File(codec, log);
    WholeLog(codec, log);
    IndexReadsBack(codec, log, n, |file|);
    var limit := TrailerStart(codec, log, n);
    StartOfPrefix(codec, log, a, n);
    TrailerBehindStart(codec, log, n);
    ScanUndoesAppend(codec, log, a, limit, true);
    LastFrameIsIndex(codec, log, a, limit);
    AppendedParts(codec, file, Start(codec, log, a));
    assert file[..|file|] == file;
  }

  lemma WholeLog(codec: Codec, log: Records)
    ensures Start(codec, log, |log|) == |File(codec, log)|
  {
    assert log[..|log|] == log;
  }

  lemma {:induction false} LastFrameIsIndex(codec: Codec, log: Records, a: nat, limit: nat)
    requires codec.Sound() && a < |log| && log[|log| - 1].IndexRecord? && limit == TrailerStart(codec, log, |log| - 1)
    ensures var frames := FramesWithin(codec, log, a, limit);
      frames != [] && frames[|frames| - 1].kind == FINAL_INDEX
    ensures ScanStop(codec, log, a, limit) == limit
    decreases |log| - a
  {
    hide File, Frame, Codec.Sound;
    RecordIsLarge(codec, log, a);
    StartsAscend(codec, log, a, |log|);
    if a + 1 < |log| {
      StartsAscend(codec, log, a + 1, |log|);
      StartsAscend(codec, log, a, |log| - 1);
      RecordIsLarge(codec, log, |log| - 1);
      LastFrameIsIndex(codec, log, a + 1, limit);
    }
  }

  lemma StartOf(codec: Codec, log: Records, n: nat)
    requires n <= |log|
    ensures Start(codec, log, n) == |File(codec, log[..n])|
  {
  }

  lemma FrameOf(codec: Codec, record: Record)
    ensures Frame(codec, record) == FrameBytes(codec, Kind(record), Raw(codec, record))
    ensures record.CommitRecord? ==> Kind(record) == COMMIT && Raw(codec, record) == codec.encodeManifest(record.manifest)
    ensures record.IndexRecord? ==>
      Kind(record) == FINAL_INDEX && Raw(codec, record) == codec.encodeIndex(record.commits, record.metadata)
  {
  }

  /** The reference matches a page stored in the log. */
  predicate Stored(codec: Codec, log: Records, ref: TreeRef) {
    && ref.offset in PagesOf(codec, log)
    && PagesOf(codec, log)[ref.offset].logicalHash == ref.logicalHash
    && PagesOf(codec, log)[ref.offset].count == ref.count
  }

  lemma PrefixOf(file: Bytes, n: nat)
    requires n <= |file|
    ensures file[..n] <= file
  {
  }

  lemma TakePrefix(codec: Codec, log: Records, n: nat, file: Bytes)
    requires n <= |log| && file == File(codec, log)
    ensures Start(codec, log, n) <= |file| && file[..Start(codec, log, n)] == File(codec, log[..n])
  {
    FilePrefix(codec, log, n);
  }

  lemma StoredIsFresh(codec: Codec, log: Records, n: nat, ref: TreeRef)
    requires codec.Sound() && Admissible(codec, log) && n <= |log| && Stored(codec, log[..n], ref)
    ensures ReadPageAt(codec, File(codec, log[..n]), ref).Some?
    ensures FreshPage(codec, File(codec, log[..n]), ref, None) == Some(PagesOf(codec, log[..n])[ref.offset])
  {
    hide ReadPageAt, Codec.Sound, File, Admissible;
    AdmissiblePrefix(codec, log, n);
    StoredPageReads(codec, log[..n], ref);
  }

  lemma PageFrame(codec: Codec, page: Page)
    ensures Frame(codec, PageRecord(page)) == FrameBytes(codec, PAGE, codec.encodePage(page))
  {
  }

  lemma InfoFields(codec: Codec, offset: nat, kind: nat, raw: Bytes)
    ensures InfoOf(codec, offset, kind, raw).offset == offset
  {
  }

  lemma StartStays(codec: Codec, log: Records, record: Record, n: nat)
    requires n <= |log|
    ensures Start(codec, log + [record], n) == Start(codec, log, n)
  {
    assert (log + [record])[..n] == log[..n];
  }

  /** A new page starts behind every cached one. */
  lemma CachedAreInside(codec: Codec, file: Bytes, entries: seq<Entry>, key: CacheKey)
    requires AllMirror(codec, file, entries) && key.0 == |file|
    ensures Find(entries, key).None?
  {
  }

  lemma NewPageMirrors(codec: Codec, log: Records, page: Page)
    requires codec.Sound() && Admissible(codec, log + [PageRecord(page)])
    ensures Mirrors(codec, File(codec, log + [PageRecord(page)]),
      Entry((|File(codec, log)|, ParserName(None)), page, |codec.encodePage(page)|))
  {
    hide File, Codec.Sound, ReadPageAt, Admissible;
    var more := log + [PageRecord(page)];
    PagesOfAppend(codec, log, PageRecord(page));
    StoredPageReads(codec, more, TreeRef(|File(codec, log)|, page.logicalHash, page.count));
  }

  lemma RememberStored(codec: Codec, before: Bytes, file: Bytes, entries: seq<Entry>, remembered: seq<Entry>,
                       entry: Entry, limit: nat)
    requires before <= file && AllMirror(codec, before, entries) && Mirrors(codec, file, entry)
    requires remembered == (if entry.size > limit then entries else Put(Evicted(entries, entry.size, limit), entry))
    ensures AllMirror(codec, file, remembered)
  {
    hide Mirrors;
    MirrorsAreStable(codec, before, file, entries);
    RememberedMirror(codec, file, entries, entry, entry.size, limit);
  }
}
