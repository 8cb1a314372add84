/** The bytes of an archive: big-endian fields, frames, and the two kinds of trailer. */
module Wire {
  import opened Collections
  import opened Wrappers
  import opened Text
  import opened Model

  const PAGE: nat := 1
  const COMMIT: nat := 2
  const FINAL_INDEX: nat := 3

  const MAGIC_SIZE: nat := 8
  const FRAME_SIZE: nat := 53
  const FOOTER_SIZE: nat := 16
  const CHECKPOINT_SIZE: nat := 24
  /** Files are shorter than this (5 exabytes), so that no offset and no frame size written as a
  64-bit number can spell the footer magic. */
  const OFFSET_LIMIT: nat := 0x4741_3549_4458_2100
  const UINT64: nat := 0x1_0000_0000_0000_0000

  /** KGA5\r\n\x1a\n */
  function Magic(): (magic: Bytes)
    ensures |magic| == MAGIC_SIZE
  {
    [0x4b, 0x47, 0x41, 0x35, 0x0d, 0x0a, 0x1a, 0x0a]
  }

  /** KGA5IDX! */
  function FooterMagic(): (magic: Bytes)
    ensures |magic| == 8
  {
    [0x4b, 0x47, 0x41, 0x35, 0x49, 0x44, 0x58, 0x21]
  }

  /** KGA5CP!! */
  function CheckpointMagic(): (magic: Bytes)
    ensures |magic| == 8
  {
    [0x4b, 0x47, 0x41, 0x35, 0x43, 0x50, 0x21, 0x21]
  }

  // ---- Big-endian numbers ----

  function Pack(n: nat, width: nat): (bytes: Bytes)
    ensures |bytes| == width
  {
    if width == 0 then [] else Pack(n / 256, width - 1) + [n % 256]
  }

  function Unpack(bytes: Bytes): nat {
    if bytes == [] then 0 else 256 * Unpack(bytes[..|bytes| - 1]) + bytes[|bytes| - 1]
  }

  lemma {:induction false} UnpackPack(n: nat, width: nat)
    requires n < Pow256(width)
    ensures Unpack(Pack(n, width)) == n
  {
    if width > 0 {
      UnpackPack(n / 256, width - 1);
      assert Pack(n, width)[..width - 1] == Pack(n / 256, width - 1);
    }
  }

  lemma UnpackPack64(n: nat)
    requires n < UINT64
    ensures Unpack(Pack(n, 8)) == n
  {
    Pow256Of8();
    UnpackPack(n, 8);
  }

  /** The footer magic starts with the byte K; read from its second byte it is the offset limit. */
  lemma UnpackFooterMagic()
    ensures Unpack(FooterMagic()) > OFFSET_LIMIT
    ensures 256 * Unpack(FooterMagic()[1..]) == OFFSET_LIMIT
  {
    var magic := FooterMagic();
    UnpackSeven(magic[1..]);
    UnpackSeven(magic[..7]);
    assert Unpack(magic) == 256 * Unpack(magic[..7]) + magic[7];
  }

  lemma UnpackSeven(s: Bytes)
    requires |s| == 7
    ensures Unpack(s) == 256 * (256 * (256 * (256 * (256 * (256 * s[0] + s[1]) + s[2]) + s[3]) + s[4]) + s[5]) + s[6]
  {
    assert s[..6][..5] == s[..5] && s[..5][..4] == s[..4] && s[..4][..3] == s[..3];
    assert s[..3][..2] == s[..2] && s[..2][..1] == s[..1] && s[..1][..0] == [];
    assert Unpack(s[..1]) == s[0];
    assert Unpack(s[..3]) == 256 * Unpack(s[..2]) + s[2];
    assert Unpack(s[..5]) == 256 * Unpack(s[..4]) + s[4];
  }

  /** No offset inside a file of the admitted size packs to the footer magic. */
  lemma OffsetIsNotMagic(n: nat)
    requires n < OFFSET_LIMIT
    ensures Pack(n, 8) != FooterMagic()
  {
    UnpackPack64(n);
    UnpackFooterMagic();
  }

  // ---- Reading ----

  /** os.pread: reads past the end come back short. */
  function Read(file: Bytes, offset: nat, size: nat): (bytes: Bytes)
    ensures |bytes| <= size
  {
    if offset >= |file| then []
    else if offset + size <= |file| then file[offset..offset + size]
    else file[offset..]
  }

  datatype FrameInfo = FrameInfo(offset: nat, kind: nat, rawSize: nat, compressedSize: nat, digest: Bytes, end: nat)

  /** FRAME.unpack */
  function Header(offset: nat, header: Bytes): FrameInfo
    requires |header| == FRAME_SIZE
  {
    var compressed := Unpack(header[9..17]);
    FrameInfo(offset, header[0], Unpack(header[1..9]), compressed, header[21..53], offset + FRAME_SIZE + compressed)
  }

  /** Whether the stored payload has the header's checksum, size and digest; its raw bytes if so. */
  function Payload(codec: Codec, info: FrameInfo, crc: nat, compressed: Bytes): Option<Bytes> {
    if |compressed| != info.compressedSize || codec.crc(compressed) != crc then None
    else match codec.decompress(compressed)
      case None => None
      case Some(raw) => if |raw| == info.rawSize && codec.digest(raw) == info.digest then Some(raw) else None
  }

  /** _read_frame; None stands for ArchiveError. */
  function ReadFrame(codec: Codec, file: Bytes, offset: nat): (r: Option<(FrameInfo, Bytes)>)
    ensures r.Some? ==> offset + FRAME_SIZE <= r.value.0.end <= |file| && r.value.0.offset == offset
  {
    var header := Read(file, offset, FRAME_SIZE);
    if |header| != FRAME_SIZE then None
    else
      var info := Header(offset, header);
      var compressed := Read(file, offset + FRAME_SIZE, info.compressedSize);
      match Payload(codec, info, Unpack(header[17..21]), compressed)
      case None => None
      case Some(raw) => Some((info, raw))
  }

  function ReadKind(codec: Codec, file: Bytes, offset: nat, kind: nat): (r: Option<(FrameInfo, Bytes)>)
    ensures r.Some? ==> r == ReadFrame(codec, file, offset) && r.value.0.kind == kind
    ensures r.None? ==> ReadFrame(codec, file, offset).None? || ReadFrame(codec, file, offset).value.0.kind != kind
  {
    match ReadFrame(codec, file, offset)
    case None => None
    case Some((info, raw)) => if info.kind == kind then Some((info, raw)) else None
  }

  // ---- Writing ----

  function FrameHeader(codec: Codec, kind: nat, raw: Bytes): (bytes: Bytes)
  {
    var compressed := codec.compress(raw);
    [kind] + Pack(|raw|, 8) + Pack(|compressed|, 8) + Pack(codec.crc(compressed), 4) + codec.digest(raw)
  }

  function FrameBytes(codec: Codec, kind: nat, raw: Bytes): Bytes {
    FrameHeader(codec, kind, raw) + codec.compress(raw)
  }

  function InfoOf(codec: Codec, offset: nat, kind: nat, raw: Bytes): FrameInfo {
    var size := |codec.compress(raw)|;
    FrameInfo(offset, kind, |raw|, size, codec.digest(raw), offset + FRAME_SIZE + size)
  }

  lemma FrameSize(codec: Codec, kind: nat, raw: Bytes)
    requires codec.Sound()
    ensures |FrameHeader(codec, kind, raw)| == FRAME_SIZE
    ensures |FrameBytes(codec, kind, raw)| == FRAME_SIZE + |codec.compress(raw)| > FRAME_SIZE
  {
  }

  lemma HeaderFields(codec: Codec, kind: nat, raw: Bytes)
    requires codec.Sound()
    ensures var header := FrameHeader(codec, kind, raw);
      && |header| == FRAME_SIZE && header[0] == kind
      && header[1..9] == Pack(|raw|, 8) && header[9..17] == Pack(|codec.compress(raw)|, 8)
      && header[17..21] == Pack(codec.crc(codec.compress(raw)), 4) && header[21..53] == codec.digest(raw)
  {
    FrameSize(codec, kind, raw);
  }

  lemma HeaderOfFrame(codec: Codec, kind: nat, raw: Bytes, offset: nat)
    requires codec.Sound() && |raw| < UINT64 && |codec.compress(raw)| < UINT64
    ensures |FrameHeader(codec, kind, raw)| == FRAME_SIZE
    ensures Header(offset, FrameHeader(codec, kind, raw)) == InfoOf(codec, offset, kind, raw)
    ensures Unpack(FrameHeader(codec, kind, raw)[17..21]) == codec.crc(codec.compress(raw))
  {
    HeaderFields(codec, kind, raw);
    UnpackPack64(|raw|);
    UnpackPack64(|codec.compress(raw)|);
    Pow256Of8();
    UnpackPack(codec.crc(codec.compress(raw)), 4);
  }

  /** A stored frame reads back, wherever it lies in a file. */
  lemma ReadStoredFrame(codec: Codec, file: Bytes, offset: nat, kind: nat, raw: Bytes)
    requires codec.Sound() && |raw| < UINT64 && |codec.compress(raw)| < UINT64
    requires Read(file, offset, |FrameBytes(codec, kind, raw)|) == FrameBytes(codec, kind, raw)
    ensures ReadFrame(codec, file, offset) == Some((InfoOf(codec, offset, kind, raw), raw))
  {
    FrameSize(codec, kind, raw);
    var bytes, header, compressed := FrameBytes(codec, kind, raw), FrameHeader(codec, kind, raw), codec.compress(raw);
    assert offset + |bytes| <= |file| && file[offset..offset + |bytes|] == bytes;
    assert Read(file, offset, FRAME_SIZE) == bytes[..FRAME_SIZE] == header;
    HeaderOfFrame(codec, kind, raw, offset);
    assert Read(file, offset + FRAME_SIZE, |compressed|) == bytes[FRAME_SIZE..] == compressed;
  }

  /** A frame that validates in a prefix of a file validates in the file. */
  lemma ReadFrameInPrefix(codec: Codec, prefix: Bytes, file: Bytes, offset: nat)
    requires prefix <= file && ReadFrame(codec, prefix, offset).Some?
    ensures ReadFrame(codec, file, offset) == ReadFrame(codec, prefix, offset)
  {
    ReadInPrefix(prefix, file, offset, FRAME_SIZE);
    var info := ReadFrame(codec, prefix, offset).value.0;
    ReadInPrefix(prefix, file, offset + FRAME_SIZE, info.compressedSize);
  }

  lemma ReadInPrefix(prefix: Bytes, file: Bytes, offset: nat, size: nat)
    requires prefix <= file && |Read(prefix, offset, size)| == size
    ensures Read(file, offset, size) == Read(prefix, offset, size)
  {
  }
}
