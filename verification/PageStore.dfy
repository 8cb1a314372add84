/** The page cache: parsed pages by offset and parser, least recently used first, bounded by the
bytes of their JSON. */
module PageStore {
  import opened Wrappers
  import opened Text
  import opened Model
  import opened Wire

  /** Where a page starts and how it was parsed: "json" or the name of a tree. */
  type CacheKey = (nat, string)

  datatype Entry = Entry(key: CacheKey, page: Page, size: nat)

  // ---- The cache as a sequence, oldest entry first ----

  function TotalSize(entries: seq<Entry>): nat {
    if entries == [] then 0 else entries[0].size + TotalSize(entries[1..])
  }

  function Find(entries: seq<Entry>, key: CacheKey): (i: Option<nat>)
    ensures i.Some? ==> i.value < |entries| && entries[i.value].key == key
    ensures i.None? ==> forall j :: 0 <= j < |entries| ==> entries[j].key != key
  {
    if entries == [] then None
    else if entries[0].key == key then Some(0)
    else match Find(entries[1..], key) case None => None case Some(i) => Some(i + 1)
  }

  ghost predicate DistinctKeys(entries: seq<Entry>) {
    forall i, j :: 0 <= i < j < |entries| ==> entries[i].key != entries[j].key
  }

  /** The oldest entries are dropped until `size` more bytes fit. */
  function Evicted(entries: seq<Entry>, size: nat, limit: nat): seq<Entry> {
    if entries == [] || TotalSize(entries) + size <= limit then entries else Evicted(entries[1..], size, limit)
  }

  /** Assigning a dictionary entry: an existing key keeps its place. */
  function Put(entries: seq<Entry>, entry: Entry): seq<Entry> {
    match Find(entries, entry.key)
    case None => entries + [entry]
    case Some(i) => entries[i := entry]
  }

  function MoveToEnd(entries: seq<Entry>, i: nat): seq<Entry>
    requires i < |entries|
  {
    entries[..i] + entries[i + 1..] + [entries[i]]
  }

  lemma {:induction false} TotalSizeConcat(a: seq<Entry>, b: seq<Entry>)
    ensures TotalSize(a + b) == TotalSize(a) + TotalSize(b)
  {
    if a == [] {
      assert a + b == b;
    } else {
      assert (a + b)[1..] == a[1..] + b;
      TotalSizeConcat(a[1..], b);
    }
  }

  lemma TotalSizeAround(left: seq<Entry>, entry: Entry, right: seq<Entry>)
    ensures TotalSize(left + [entry] + right) == TotalSize(left) + entry.size + TotalSize(right)
  {
    TotalSizeConcat(left + [entry], right);
    TotalSizeConcat(left, [entry]);
    assert [entry][1..] == [];
  }

  /** Eviction keeps the newest entries, as many as fit. */
  lemma {:induction false} EvictedIsLargestFit(entries: seq<Entry>, size: nat, limit: nat) returns (dropped: nat)
    ensures dropped <= |entries| && Evicted(entries, size, limit) == entries[dropped..]
    ensures size <= limit ==> TotalSize(entries[dropped..]) + size <= limit
    ensures dropped > 0 ==> TotalSize(entries[dropped - 1..]) + size > limit
  {
    if entries == [] || TotalSize(entries) + size <= limit {
      dropped := 0;
      assert entries[0..] == entries;
    } else {
      var rest := EvictedIsLargestFit(entries[1..], size, limit);
      dropped := rest + 1;
      assert entries[1..][rest..] == entries[dropped..];
      if rest > 0 {
        assert entries[1..][rest - 1..] == entries[rest..];
      } else {
        assert entries[0..] == entries;
      }
    }
  }

  /** Adding the new size to the total is right exactly when the key is new (or its old entry empty). */
  lemma PutSize(entries: seq<Entry>, entry: Entry)
    ensures TotalSize(Put(entries, entry)) == TotalSize(entries) + entry.size <==>
      (match Find(entries, entry.key) case None => true case Some(i) => entries[i].size == 0)
  {
    match Find(entries, entry.key)
    case None =>
      TotalSizeAround(entries, entry, []);
      assert entries + [entry] + [] == entries + [entry];
    case Some(i) =>
      TotalSizeAround(entries[..i], entries[i], entries[i + 1..]);
      assert entries[..i] + [entries[i]] + entries[i + 1..] == entries;
      TotalSizeAround(entries[..i], entry, entries[i + 1..]);
      assert entries[..i] + [entry] + entries[i + 1..] == entries[i := entry];
  }

  lemma MoveToEndKeeps(entries: seq<Entry>, i: nat)
    requires i < |entries| && DistinctKeys(entries)
    ensures DistinctKeys(MoveToEnd(entries, i)) && TotalSize(MoveToEnd(entries, i)) == TotalSize(entries)
    ensures forall entry :: entry in MoveToEnd(entries, i) ==> entry in entries
  {
    hide DistinctKeys, TotalSize;
    MoveToEndDistinct(entries, i);
    MoveToEndSize(entries[..i], entries[i], entries[i + 1..]);
    assert entries == entries[..i] + [entries[i]] + entries[i + 1..];
  }

  lemma MoveToEndSize(left: seq<Entry>, entry: Entry, right: seq<Entry>)
    ensures TotalSize(left + right + [entry]) == TotalSize(left + [entry] + right)
  {
    hide TotalSize;
    TotalSizeAround(left, entry, right);
    TotalSizeAround(left + right, entry, []);
    TotalSizeConcat(left, right);
    NoSize();
    assert left + right + [entry] + [] == left + right + [entry];
  }

  lemma NoSize()
    ensures TotalSize([]) == 0
  {
  }

  lemma MoveToEndDistinct(entries: seq<Entry>, i: nat)
    requires i < |entries| && DistinctKeys(entries)
    ensures DistinctKeys(MoveToEnd(entries, i))
  {
  }

  // ---- Uncached reads ----

  /** A page as a fresh read delivers it, with the size of its JSON; None stands for ArchiveError. */
  function ReadPageAt(codec: Codec, file: Bytes, ref: TreeRef): (read: Option<(Page, nat)>)
    ensures read.Some? ==> read.value.0.logicalHash == ref.logicalHash && read.value.0.count == ref.count
  {
    match ReadKind(codec, file, ref.offset, PAGE)
    case None => None
    case Some((_, raw)) =>
      match codec.decodePage(raw)
      case None => None
      case Some(page) =>
        if page.logicalHash != ref.logicalHash || page.count != ref.count then None else Some((page, |raw|))
  }

  /** The entry is what any matching reference to its offset reads. */
  ghost predicate Mirrors(codec: Codec, file: Bytes, entry: Entry) {
    ReadPageAt(codec, file, TreeRef(entry.key.0, entry.page.logicalHash, entry.page.count)) == Some((entry.page, entry.size))
  }

  ghost predicate AllMirror(codec: Codec, file: Bytes, entries: seq<Entry>) {
    forall i :: 0 <= i < |entries| ==> Mirrors(codec, file, entries[i])
  }

  /** Appending to the file leaves every mirrored page in place. */
  lemma MirrorsAreStable(codec: Codec, prefix: Bytes, file: Bytes, entries: seq<Entry>)
    requires prefix <= file && AllMirror(codec, prefix, entries)
    ensures AllMirror(codec, file, entries)
  {
    hide ReadFrame;
    forall i | 0 <= i < |entries| ensures Mirrors(codec, file, entries[i]) {
      assert Mirrors(codec, prefix, entries[i]);
      ReadFrameInPrefix(codec, prefix, file, entries[i].key.0);
    }
  }

  lemma ReadPageInPrefix(codec: Codec, prefix: Bytes, file: Bytes, ref: TreeRef)
    requires prefix <= file && ReadPageAt(codec, prefix, ref).Some?
    ensures ReadPageAt(codec, file, ref) == ReadPageAt(codec, prefix, ref)
  {
    hide ReadFrame;
    ReadFrameInPrefix(codec, prefix, file, ref.offset);
  }

  // ---- The class ----

  class PageCache {
    const cacheBytes: nat
    var entries: seq<Entry>
    var size: nat

    constructor (cacheBytes: nat)
      ensures this.cacheBytes == cacheBytes && entries == [] && size == 0 && Valid()
    {
      this.cacheBytes := cacheBytes;
      entries, size := [], 0;
    }

    /** The size field is the sum of the entry sizes and stays within the budget. */
    ghost predicate Valid()
      reads this
    {
      size == TotalSize(entries) <= cacheBytes && DistinctKeys(entries)
    }

    /** _remember. A key that survives the eviction would be counted twice from then on; both callers
    only remember pages that they did not find. */
    method Remember(key: CacheKey, page: Page, rawSize: nat)
      requires Valid()
      modifies this
      ensures size <= cacheBytes && DistinctKeys(entries)
      ensures
        if rawSize > cacheBytes then entries == old(entries) && size == old(size)
        else
          var kept := Evicted(old(entries), rawSize, cacheBytes);
          && entries == Put(kept, Entry(key, page, rawSize))
          && (Valid() <==> match Find(kept, key) case None => true case Some(i) => kept[i].size == 0)
      ensures Find(old(entries), key).None? ==> Valid()
    {
      if rawSize > cacheBytes {
        return;
      }
      ghost var before := entries;
      ghost var dropped := 0;
      while entries != [] && size + rawSize > cacheBytes
        invariant dropped <= |before| && entries == before[dropped..]
        invariant size == TotalSize(entries) <= cacheBytes
        invariant Evicted(entries, rawSize, cacheBytes) == Evicted(before, rawSize, cacheBytes)
        decreases |entries|
      {
        size := size - entries[0].size;
        entries := entries[1..];
        dropped := dropped + 1;
      }
      PutSize(entries, Entry(key, page, rawSize));
      entries := Put(entries, Entry(key, page, rawSize));
      size := size + rawSize;
    }

    /** The cached half of read_page and _typed_page: a hit becomes the newest entry. */
    method Lookup(key: CacheKey) returns (page: Option<Page>)
      requires Valid()
      modifies this
      ensures Valid() && size == old(size)
      ensures match Find(old(entries), key)
        case None => page.None? && entries == old(entries)
        case Some(i) => page == Some(old(entries)[i].page) && entries == MoveToEnd(old(entries), i)
    {
      var found := Find(entries, key);
      if found.None? {
        return None;
      }
      page := Some(entries[found.value].page);
      MoveToEndKeeps(entries, found.value);
      entries := MoveToEnd(entries, found.value);
    }

    /** read_page (no tree wanted) and _typed_page, on the bytes that have reached the file; `whole` also
    holds what is still buffered. A hit is not compared with the reference again, so it can only differ
    from a fresh read when the reference does not match the page stored there. */
    method ReadPage(codec: Codec, visible: Bytes, ref: TreeRef, wanted: Option<Tree>, ghost whole: Bytes)
      returns (page: Option<Page>)
      requires Valid() && visible <= whole && AllMirror(codec, whole, entries)
      modifies this
      ensures Valid() && AllMirror(codec, whole, entries)
      ensures Find(old(entries), (ref.offset, ParserName(wanted))).None? ==> page == FreshPage(codec, visible, ref, wanted)
      ensures FreshPage(codec, whole, ref, wanted).Some? && page.Some? ==> page == FreshPage(codec, whole, ref, wanted)
      ensures FreshPage(codec, visible, ref, wanted).Some? ==> page == FreshPage(codec, visible, ref, wanted)
    {
      hide ReadPageAt;
      var key := (ref.offset, ParserName(wanted));
      page := Lookup(key);
      if page.Some? {
        MoveToEndKeeps(old(entries), Find(old(entries), key).value);
        KeptMirror(codec, whole, old(entries), entries);
        HitIsFresh(codec, visible, whole, ref, old(entries), Find(old(entries), key).value);
        return;
      }
      var found := ReadPageAt(codec, visible, ref);
      if found.None? || (wanted.Some? && found.value.0.tree != wanted.value) {
        return None;
      }
      var (stored, rawSize) := found.value;
      ReadPageInPrefix(codec, visible, whole, ref);
      FreshMirrors(codec, whole, ref, ParserName(wanted));
      Remember(key, stored, rawSize);
      RememberedMirror(codec, whole, old(entries), Entry(key, stored, rawSize), rawSize, cacheBytes);
      page := Some(stored);
    }
  }

  function ParserName(wanted: Option<Tree>): string {
    match wanted
    case None => "json"
    case Some(Nodes) => "nodes"
    case Some(Edges) => "edges"
    case Some(Coverage) => "coverage"
  }

  /** What a reader without a cache sees at a reference. */
  function FreshPage(codec: Codec, file: Bytes, ref: TreeRef, wanted: Option<Tree>): Option<Page> {
    match ReadPageAt(codec, file, ref)
    case None => None
    case Some((page, _)) => if wanted.Some? && page.tree != wanted.value then None else Some(page)
  }

  lemma KeptMirror(codec: Codec, file: Bytes, entries: seq<Entry>, kept: seq<Entry>)
    requires AllMirror(codec, file, entries)
    requires forall entry :: entry in kept ==> entry in entries
    ensures AllMirror(codec, file, kept)
  {
    hide Mirrors;
    forall i | 0 <= i < |kept| ensures Mirrors(codec, file, kept[i]) {
      assert kept[i] in kept;
      assert kept[i] in entries;
    }
  }

  lemma HitIsFresh(codec: Codec, visible: Bytes, whole: Bytes, ref: TreeRef, entries: seq<Entry>, i: nat)
    requires visible <= whole && AllMirror(codec, whole, entries) && i < |entries| && entries[i].key.0 == ref.offset
    ensures ReadPageAt(codec, whole, ref).Some? ==> ReadPageAt(codec, whole, ref).value.0 == entries[i].page
    ensures ReadPageAt(codec, visible, ref).Some? ==> ReadPageAt(codec, visible, ref).value.0 == entries[i].page
  {
    hide ReadFrame;
    assert Mirrors(codec, whole, entries[i]);
    if ReadPageAt(codec, visible, ref).Some? {
      ReadPageInPrefix(codec, visible, whole, ref);
    }
  }

  lemma FreshMirrors(codec: Codec, file: Bytes, ref: TreeRef, view: string)
    requires ReadPageAt(codec, file, ref).Some?
    ensures var (page, rawSize) := ReadPageAt(codec, file, ref).value;
      Mirrors(codec, file, Entry((ref.offset, view), page, rawSize))
  {
  }

  lemma RememberedMirror(codec: Codec, file: Bytes, entries: seq<Entry>, entry: Entry, size: nat, limit: nat)
    requires AllMirror(codec, file, entries) && Mirrors(codec, file, entry)
    ensures AllMirror(codec, file, Put(Evicted(entries, size, limit), entry))
  {
    hide Mirrors;
    var dropped := EvictedIsLargestFit(entries, size, limit);
  }
}
