/** Finding and following trailers: the windowed backward search and the checkpoint chain. */
module Trailers {
  import opened Wrappers
  import opened Text
  import opened Model
  import opened Wire

  datatype TrailerKind = CheckpointTrailer | FooterTrailer

  function MagicOf(kind: TrailerKind): (magic: Bytes)
    ensures |magic| == 8
  {
    if kind == CheckpointTrailer then CheckpointMagic() else FooterMagic()
  }

  /** Bytes before the magic: the trailer's size without it. */
  function MagicSkip(kind: TrailerKind): nat {
    if kind == CheckpointTrailer then CHECKPOINT_SIZE - 8 else FOOTER_SIZE - 8
  }

  datatype Checkpoint = Checkpoint(previous: nat, end: nat, manifest: Manifest)

  /** _read_checkpoint_reader */
  function ReadCheckpoint(codec: Codec, file: Bytes, offset: nat): (r: Option<Checkpoint>)
    ensures r.Some? ==> offset + CHECKPOINT_SIZE <= |file| && r.value.end == offset + CHECKPOINT_SIZE
  {
    var payload := Read(file, offset, CHECKPOINT_SIZE);
    if |payload| != CHECKPOINT_SIZE || payload[16..] != CheckpointMagic() then None
    else
      match ReadKind(codec, file, Unpack(payload[..8]), COMMIT)
      case None => None
      case Some((info, raw)) =>
        if info.end != offset then None
        else match codec.decodeManifest(raw)
          case None => None
          case Some(manifest) => Some(Checkpoint(Unpack(payload[8..16]), offset + CHECKPOINT_SIZE, manifest))
  }

  /** _read_final_index_reader at a footer */
  function ReadIndex(codec: Codec, file: Bytes, offset: nat): Option<(FrameInfo, seq<Manifest>)> {
    var payload := Read(file, offset, FOOTER_SIZE);
    if |payload| != FOOTER_SIZE || payload[8..] != FooterMagic() then None
    else
      match ReadKind(codec, file, Unpack(payload[..8]), FINAL_INDEX)
      case None => None
      case Some((info, raw)) =>
        match codec.decodeIndex(raw)
        case None => None
        case Some(commits) => Some((info, commits))
  }

  /** What makes the backward searches accept an offset. */
  predicate Validates(codec: Codec, file: Bytes, kind: TrailerKind, offset: nat) {
    if kind == CheckpointTrailer then ReadCheckpoint(codec, file, offset).Some?
    else
      var index := ReadIndex(codec, file, offset);
      index.Some? && index.value.0.end == offset
  }

  /** r is the greatest valid trailer offset past the magic, if there is one. */
  ghost predicate IsLast(codec: Codec, file: Bytes, kind: TrailerKind, r: Option<nat>) {
    match r
    case None => forall offset: nat :: offset >= MAGIC_SIZE ==> !Validates(codec, file, kind, offset)
    case Some(last) =>
      && last >= MAGIC_SIZE && Validates(codec, file, kind, last)
      && forall offset: nat :: offset > last ==> !Validates(codec, file, kind, offset)
  }

  // ---- The search ----

  predicate MatchesAt(block: Bytes, magic: Bytes, position: nat) {
    position + |magic| <= |block| && block[position..position + |magic|] == magic
  }

  /** bytes.rfind(magic, 0, limit) */
  method RFind(block: Bytes, magic: Bytes, limit: nat) returns (found: Option<nat>)
    requires magic != [] && limit <= |block|
    ensures found.Some? ==> found.value + |magic| <= limit && MatchesAt(block, magic, found.value)
    ensures forall p: nat :: p + |magic| <= limit && (found.Some? ==> p > found.value) ==> !MatchesAt(block, magic, p)
  {
    var end := limit;
    while end >= |magic|
      invariant end <= limit
      invariant forall p: nat :: p + |magic| <= limit && p + |magic| > end ==> !MatchesAt(block, magic, p)
    {
      if MatchesAt(block, magic, end - |magic|) {
        return Some(end - |magic|);
      }
      end := end - 1;
    }
    found := None;
  }

  lemma ValidHasMagic(codec: Codec, file: Bytes, kind: TrailerKind, offset: nat)
    requires Validates(codec, file, kind, offset)
    ensures MatchesAt(file, MagicOf(kind), offset + MagicSkip(kind))
  {
  }

  /** The letter K occurs only at the start of a magic, so two occurrences never overlap. */
  lemma MagicsDoNotOverlap(file: Bytes, kind: TrailerKind, p: nat, q: nat)
    requires MatchesAt(file, MagicOf(kind), p) && MatchesAt(file, MagicOf(kind), q) && p < q
    ensures p + 8 <= q
  {
    var magic := MagicOf(kind);
    assert file[q] == file[q..q + 8][0] == magic[0] == 0x4b;
    forall d | 0 <= d < 8 ensures file[p + d] == magic[d] {
      assert file[p + d] == file[p..p + 8][d];
    }
    assert forall d :: 0 < d < 8 ==> magic[d] != 0x4b;
    var d := if q < p + 8 then q - p else 1;
    assert file[p + d] == magic[d];
  }

  /** No valid trailer has its magic at or after `bound`. */
  ghost predicate NoneFrom(codec: Codec, file: Bytes, kind: TrailerKind, bound: nat) {
    forall offset: nat {:trigger Validates(codec, file, kind, offset)} ::
      offset >= MAGIC_SIZE && offset + MagicSkip(kind) >= bound ==> !Validates(codec, file, kind, offset)
  }

  /** _find_last_checkpoint_reader and _find_last_footer_reader: windows of `chunk` bytes, read from
  the end, overlapping by one byte less than the magic. */
  method FindLast(codec: Codec, file: Bytes, kind: TrailerKind, chunk: nat) returns (r: Option<nat>)
    requires chunk > 7
    ensures IsLast(codec, file, kind, r)
  {
    hide Validates;
    var end := |file|;
    NothingBeyond(codec, file, kind);
    while end > MAGIC_SIZE
      invariant end <= |file| && (end < MAGIC_SIZE ==> end == |file|)
      invariant NoneFrom(codec, file, kind, if end < 7 then 0 else end - 7)
    {
      var start := if end >= MAGIC_SIZE + chunk then end - chunk else MAGIC_SIZE;
      r := SearchWindow(codec, file, kind, start, end);
      if r.Some? {
        return;
      }
      if start == MAGIC_SIZE {
        break;
      }
      end := start + 7;
    }
    forall offset: nat | offset >= MAGIC_SIZE ensures !Validates(codec, file, kind, offset) {
      if Validates(codec, file, kind, offset) {
        ValidHasMagic(codec, file, kind, offset);
      }
    }
    r := None;
  }

  lemma NothingBeyond(codec: Codec, file: Bytes, kind: TrailerKind)
    ensures NoneFrom(codec, file, kind, if |file| < 7 then 0 else |file| - 7)
  {
  }

  /** The inner loop over the matches of one window. */
  method SearchWindow(codec: Codec, file: Bytes, kind: TrailerKind, start: nat, end: nat) returns (r: Option<nat>)
    requires MAGIC_SIZE <= start < end <= |file|
    requires NoneFrom(codec, file, kind, end - 7)
    ensures r.None? ==> NoneFrom(codec, file, kind, start)
    ensures r.Some? ==> IsLast(codec, file, kind, r)
  {
    hide Validates;
    var block := Read(file, start, end - start);
    assert block == file[start..end];
    var position: nat := |block|;
    while true
      invariant position <= |block|
      invariant NoneFrom(codec, file, kind, if position < 7 then start else start + position - 7)
      decreases position
    {
      var found := RFind(block, MagicOf(kind), position);
      if found.None? {
        WindowExhausted(codec, file, kind, start, end, position, 0);
        return None;
      }
      var hit := start + found.value;
      assert MatchesAt(file, MagicOf(kind), hit) by {
        SubWindow(file, start, end, found.value, MagicOf(kind));
      }
      WindowExhausted(codec, file, kind, start, end, position, found.value + 1);
      if hit >= MAGIC_SIZE + MagicSkip(kind) && Validates(codec, file, kind, hit - MagicSkip(kind)) {
        return Some(hit - MagicSkip(kind));
      }
      NoOverlap(codec, file, kind, start, found.value);
      position := found.value;
    }
  }

  lemma SubWindow(file: Bytes, start: nat, end: nat, p: nat, magic: Bytes)
    requires start <= end <= |file| && p + |magic| <= end - start
    ensures MatchesAt(file[start..end], magic, p) <==> MatchesAt(file, magic, start + p)
  {
    var inside, whole := file[start..end][p..p + |magic|], file[start + p..start + p + |magic|];
    forall i | 0 <= i < |magic| ensures inside[i] == whole[i] {
    }
    assert inside == whole;
  }

  /** If no match in the window starts at or after `low`, no valid trailer has its magic there. */
  lemma WindowExhausted(codec: Codec, file: Bytes, kind: TrailerKind, start: nat, end: nat, position: nat, low: nat)
    requires start <= end <= |file| && position <= end - start
    requires NoneFrom(codec, file, kind, if position < 7 then start else start + position - 7)
    requires forall p: nat :: low <= p && p + 8 <= position ==> !MatchesAt(file[start..end], MagicOf(kind), p)
    ensures NoneFrom(codec, file, kind, start + low)
  {
    hide Validates;
    forall offset: nat | offset >= MAGIC_SIZE && offset + MagicSkip(kind) >= start + low
      ensures !Validates(codec, file, kind, offset)
    {
      var at := offset + MagicSkip(kind);
      if Validates(codec, file, kind, offset) {
        ValidHasMagic(codec, file, kind, offset);
        if at - start + 8 <= position {
          SubWindow(file, start, end, at - start, MagicOf(kind));
        }
      }
    }
  }

  lemma NoOverlap(codec: Codec, file: Bytes, kind: TrailerKind, start: nat, found: nat)
    requires MatchesAt(file, MagicOf(kind), start + found)
    requires NoneFrom(codec, file, kind, start + found + 1)
    requires start + found < MAGIC_SIZE + MagicSkip(kind) ||
      !Validates(codec, file, kind, start + found - MagicSkip(kind))
    ensures NoneFrom(codec, file, kind, if found < 7 then start else start + found - 7)
  {
    hide Validates, MatchesAt, MagicOf;
    forall offset: nat | offset >= MAGIC_SIZE && offset + MagicSkip(kind) >= if found < 7 then start else start + found - 7
      ensures !Validates(codec, file, kind, offset)
    {
      var at := offset + MagicSkip(kind);
      if Validates(codec, file, kind, offset) && at < start + found {
        ValidHasMagic(codec, file, kind, offset);
        MagicsDoNotOverlap(file, kind, at, start + found);
      }
    }
  }
}
