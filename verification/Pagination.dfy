/** Paginated collections with validators: what `paginate_cached` answers from its own previous answer. */
module Pagination {
  import opened Wrappers

  type Page = seq<int>

  const CACHED_PAGE: nat := 100

  /** What stays the same between calls: how pages are addressed, how many items fill one, and the body that
  each validator of an address stands for. */
  datatype Site = Site(url: nat -> string, number: string -> nat, names: (string, string) -> Page, size: nat)

  /** The collection during one call, and the validators that its responses carry. */
  datatype Host = Host(items: seq<int>, etag: string -> Option<string>)

  datatype Response =
    | NotModified(etag: Option<string>)
    | Full(url: string, body: Page, etag: Option<string>, next: Option<string>)

  /** The page size that the server grants: at most 100, and 100 when the caller names none. */
  function GrantedSize(perPage: Option<nat>): nat {
    match perPage
    case None => CACHED_PAGE
    case Some(size) => if size > CACHED_PAGE then CACHED_PAGE else size
  }

  function Least(a: nat, b: nat): nat {
    if a < b then a else b
  }

  function PageOf(items: seq<int>, size: nat, k: nat): (page: Page)
    ensures |page| <= size
  {
    items[Least(k * size, |items|)..Least(k * size + size, |items|)]
  }

  function HasNext(items: seq<int>, size: nat, k: nat): bool {
    k * size + size < |items|
  }

  /** One request: a 304 exactly when the validator sent stands for the current body. */
  function Get(site: Site, host: Host, url: string, condition: Option<string>): Response {
    var k := site.number(url);
    var body := PageOf(host.items, site.size, k);
    if condition.Some? && site.names(url, condition.value) == body then NotModified(host.etag(url))
    else Full(url, body, host.etag(url), if HasNext(host.items, site.size, k) then Some(site.url(k + 1)) else None)
  }

  ghost predicate SiteIsSane(site: Site) {
    site.size >= 1 && forall k: nat :: site.number(site.url(k)) == k
  }

  /** Every validator of a response stands for the body that the address has now. */
  ghost predicate Honest(site: Site, host: Host) {
    forall url :: host.etag(url).Some? ==>
      site.names(url, host.etag(url).value) == PageOf(host.items, site.size, site.number(url))
  }

  // ---- The cache ----

  datatype Entry = Entry(etag: Option<string>, size: int, url: string)

  /** `pages` is absent when it is not a list. */
  datatype Cache = Cache(key: string, pages: Option<seq<Entry>>, size: int)

  predicate EntryIsUsable(pages: seq<Entry>, i: nat)
    requires i < |pages|
  {
    && pages[i].url != "" && 0 <= pages[i].size <= CACHED_PAGE
    && (i < |pages| - 1 ==> pages[i].size == CACHED_PAGE)
    && pages[i].etag.Some?
  }

  function SizeOf(pages: seq<Entry>): int {
    if pages == [] then 0 else SizeOf(pages[..|pages| - 1]) + pages[|pages| - 1].size
  }

  ghost predicate IsUsable(key: string, previous: Option<seq<int>>, cache: Option<Cache>) {
    && previous.Some? && cache.Some? && cache.value.key == key
    && cache.value.pages.Some? && cache.value.pages.value != [] && cache.value.size == |previous.value|
    && var pages := cache.value.pages.value;
    && (forall i :: 0 <= i < |pages| ==> pages[i].url != "" && pages[i].etag.Some?)
    && (forall i :: 0 <= i < |pages| - 1 ==> pages[i].size == 100) && 0 <= pages[|pages| - 1].size < 100
    && (forall i, j :: 0 <= i < j < |pages| ==> pages[i].url != pages[j].url)
    && SizeOf(pages) == |previous.value|
  }

  lemma UsableExactly(key: string, previous: Option<seq<int>>, cache: Option<Cache>)
    requires previous.Some? && cache.Some? && cache.value.key == key
    requires cache.value.pages.Some? && cache.value.pages.value != [] && cache.value.size == |previous.value|
    ensures var pages := cache.value.pages.value;
      IsUsable(key, previous, cache) <==>
        && (forall i :: 0 <= i < |pages| ==> EntryIsUsable(pages, i))
        && (forall i, j :: 0 <= i < j < |pages| ==> pages[i].url != pages[j].url)
        && SizeOf(pages) == |previous.value| && pages[|pages| - 1].size != CACHED_PAGE
  {
    hide SizeOf;
    var pages := cache.value.pages.value;
    if forall i :: 0 <= i < |pages| ==> EntryIsUsable(pages, i) {
      forall i | 0 <= i < |pages|
        ensures pages[i].url != "" && pages[i].etag.Some? && 0 <= pages[i].size <= 100
        ensures i < |pages| - 1 ==> pages[i].size == 100
      {
        assert EntryIsUsable(pages, i);
      }
    }
  }

  /** _cached_pages */
  method CachedPages(cache: Option<Cache>, key: string, previous: Option<seq<int>>) returns (r: Option<seq<Entry>>)
    ensures r.Some? <==> IsUsable(key, previous, cache)
    ensures r.Some? ==> r == cache.value.pages
  {
    if previous.None? || cache.None? || cache.value.key != key {
      return None;
    }
    if cache.value.pages.None? || cache.value.pages.value == [] || cache.value.size != |previous.value| {
      return None;
    }
    hide EntryIsUsable, IsUsable, SizeOf;
    var pages := cache.value.pages.value;
    UsableExactly(key, previous, cache);
    var usable, total := CheckEntries(pages);
    if !usable || total != |previous.value| || pages[|pages| - 1].size == CACHED_PAGE {
      return None;
    }
    return Some(pages);
  }

  /** The loop over the entries: each fits, no address occurs twice, and the sizes are added up. */
  method CheckEntries(pages: seq<Entry>) returns (usable: bool, total: int)
    ensures usable <==>
      && (forall i :: 0 <= i < |pages| ==> EntryIsUsable(pages, i))
      && forall i, j :: 0 <= i < j < |pages| ==> pages[i].url != pages[j].url
    ensures usable ==> total == SizeOf(pages)
  {
    hide EntryIsUsable;
    total := 0;
    var urls: set<string> := {};
    for i := 0 to |pages|
      invariant forall k :: 0 <= k < i ==> EntryIsUsable(pages, k) && pages[k].url in urls
      invariant forall url :: url in urls ==> exists k :: 0 <= k < i && pages[k].url == url
      invariant forall k, j :: 0 <= k < j < i ==> pages[k].url != pages[j].url
      invariant total == SizeOf(pages[..i])
    {
      if !EntryIsUsable(pages, i) || pages[i].url in urls {
        return false, total;
      }
      assert pages[..i + 1][..i] == pages[..i];
      urls := urls + {pages[i].url};
      total := total + pages[i].size;
    }
    assert pages[..|pages|] == pages;
    usable := true;
  }

  // ---- Full pagination ----

  /** The number of pages that following the links visits: one more than the links. */
  ghost predicate IsPageCount(items: seq<int>, size: nat, count: nat) {
    && count >= 1 && !HasNext(items, size, count - 1)
    && forall k :: 0 <= k < count - 1 ==> HasNext(items, size, k)
  }

  /** Entry i was made from page i of the collection, with the validator of its response. */
  ghost predicate EntriesOf(site: Site, host: Host, pages: seq<Entry>) {
    forall i :: 0 <= i < |pages| ==>
      && host.etag(site.url(i)).Some?
      && pages[i] == Entry(host.etag(site.url(i)), |PageOf(host.items, site.size, i)|, site.url(i))
  }

  /** The cache of a full pagination: all pages have a validator, all but the last 100 items, the last fewer. */
  ghost predicate IsCacheOf(site: Site, host: Host, key: string, cache: Option<Cache>) {
    exists count: nat :: IsPageCount(host.items, site.size, count) && CacheOfPages(site, host, key, cache, count)
  }

  ghost predicate Cacheable(site: Site, host: Host, count: nat)
    requires count >= 1
  {
    && (forall i :: 0 <= i < count ==> host.etag(site.url(i)).Some?)
    && (forall i :: 0 <= i < count - 1 ==> |PageOf(host.items, site.size, i)| == CACHED_PAGE)
    && |PageOf(host.items, site.size, count - 1)| < CACHED_PAGE
  }

  ghost predicate CacheOfPages(site: Site, host: Host, key: string, cache: Option<Cache>, count: nat) {
    && count >= 1
    && (cache.Some? <==> Cacheable(site, host, count))
    && (cache.Some? ==>
         && cache.value.key == key && cache.value.size == |host.items| && cache.value.pages.Some?
         && |cache.value.pages.value| == count && EntriesOf(site, host, cache.value.pages.value))
  }

  /** The pages before `count` have been followed, and `items` collected from them. */
  ghost predicate Followed(site: Site, host: Host, items: seq<int>, pages: seq<Entry>, count: nat) {
    && count * site.size <= |host.items| && items == host.items[..count * site.size]
    && (forall k :: 0 <= k < count ==> HasNext(host.items, site.size, k))
    && EntriesSoFar(site, host, pages, count)
  }

  /** As long as no page lacked a validator there is an entry for each. */
  ghost predicate EntriesSoFar(site: Site, host: Host, pages: seq<Entry>, count: nat) {
    && |pages| <= count
    && (|pages| == count <==> forall i :: 0 <= i < count ==> host.etag(site.url(i)).Some?)
    && (|pages| == count ==> EntriesOf(site, host, pages))
  }

  lemma GetPage(site: Site, host: Host, k: nat)
    requires SiteIsSane(site)
    ensures Get(site, host, site.url(k), None) ==
      Full(site.url(k), PageOf(host.items, site.size, k), host.etag(site.url(k)),
        if HasNext(host.items, site.size, k) then Some(site.url(k + 1)) else None)
  {
  }

  function Kept(pages: seq<Entry>, url: string, page: Page, etag: Option<string>): seq<Entry> {
    if etag.Some? then pages + [Entry(etag, |page|, url)] else pages
  }

  lemma OneMoreEntry(site: Site, host: Host, pages: seq<Entry>, count: nat)
    requires EntriesSoFar(site, host, pages, count)
    ensures EntriesSoFar(site, host,
      Kept(pages, site.url(count), PageOf(host.items, site.size, count), host.etag(site.url(count))), count + 1)
  {
  }

  lemma OneMorePage(site: Site, host: Host, items: seq<int>, pages: seq<Entry>, count: nat)
    requires Followed(site, host, items, pages, count)
    ensures HasNext(host.items, site.size, count) ==>
      Followed(site, host, items + PageOf(host.items, site.size, count),
        Kept(pages, site.url(count), PageOf(host.items, site.size, count), host.etag(site.url(count))), count + 1)
    ensures !HasNext(host.items, site.size, count) ==>
      && items + PageOf(host.items, site.size, count) == host.items
      && IsPageCount(host.items, site.size, count + 1)
  {
    hide EntriesSoFar, Kept;
    OneMoreEntry(site, host, pages, count);
    assert (count + 1) * site.size == count * site.size + site.size;
  }

  lemma NextIsCloser(items: seq<int>, size: nat, k: nat)
    requires size >= 1 && HasNext(items, size, k)
    ensures |items| - (k + 1) * size < |items| - k * size
    ensures (k + 1) * size < |items|
  {
  }

  lemma NothingFollowed(site: Site, host: Host)
    ensures Followed(site, host, [], [], 0)
  {
  }

  /** What a full pagination keeps of the pages it followed. */
  function Remembered(key: string, pages: seq<Entry>, pageCount: nat, total: nat): Option<Cache>
    requires pageCount >= 1
  {
    if && |pages| == pageCount && (forall i :: 0 <= i < |pages| - 1 ==> pages[i].size == CACHED_PAGE)
       && pages[|pages| - 1].size < CACHED_PAGE
    then Some(Cache(key, Some(pages), total)) else None
  }

  lemma RememberedIsCache(site: Site, host: Host, key: string, pages: seq<Entry>, count: nat)
    requires count >= 1 && EntriesSoFar(site, host, pages, count) && IsPageCount(host.items, site.size, count)
    ensures IsCacheOf(site, host, key, Remembered(key, pages, count, |host.items|))
  {
    hide PageOf, HasNext, IsPageCount;
    var cache := Remembered(key, pages, count, |host.items|);
    if |pages| == count {
      assert forall i :: 0 <= i < count ==> pages[i].size == |PageOf(host.items, site.size, i)|;
    }
    assert CacheOfPages(site, host, key, cache, count);
  }

  /** _paginate_response, from the response for the first page. */
  method PaginateResponse(site: Site, host: Host, key: string, first: Response) returns (items: seq<int>, cache: Option<Cache>)
    requires SiteIsSane(site) && first == Get(site, host, site.url(0), None)
    ensures items == host.items && IsCacheOf(site, host, key, cache)
  {
    hide Get, HasNext, PageOf, Followed, IsPageCount, IsCacheOf, Remembered, EntriesSoFar;
    var response := first;
    items := [];
    var pages: seq<Entry> := [];
    var pageCount := 0;
    NothingFollowed(site, host);
    while true
      invariant 0 <= pageCount && response == Get(site, host, site.url(pageCount), None)
      invariant Followed(site, host, items, pages, pageCount)
      invariant pageCount > 0 ==> pageCount * site.size < |host.items|
      decreases |host.items| - pageCount * site.size
    {
      GetPage(site, host, pageCount);
      OneMorePage(site, host, items, pages, pageCount);
      OneMoreOfPages(site, host, items, pages, pageCount);
      pages := Kept(pages, response.url, response.body, response.etag);
      items := items + response.body;
      pageCount := pageCount + 1;
      if response.next.None? {
        break;
      }
      NextIsCloser(host.items, site.size, pageCount - 1);
      response := Get(site, host, response.next.value, None);
    }
    RememberedIsCache(site, host, key, pages, pageCount);
    cache := Remembered(key, pages, pageCount, |items|);
  }

  lemma OneMoreOfPages(site: Site, host: Host, items: seq<int>, pages: seq<Entry>, count: nat)
    requires Followed(site, host, items, pages, count)
    ensures EntriesSoFar(site, host,
      Kept(pages, site.url(count), PageOf(host.items, site.size, count), host.etag(site.url(count))), count + 1)
  {
  }

  // ---- Validating the cached pages ----

  /** Every cached validator still stands for the body of its address. */
  ghost predicate Unchanged(site: Site, host: Host, pages: seq<Entry>) {
    forall i :: 0 <= i < |pages| ==> IsCurrent(site, host, pages[i])
  }

  ghost predicate IsCurrent(site: Site, host: Host, page: Entry) {
    && page.etag.Some?
    && site.names(page.url, page.etag.value) == PageOf(host.items, site.size, site.number(page.url))
  }

  /** What `paginate_cached` answers: the previous items when all cached pages are unchanged, and otherwise
  the collection. */
  ghost function Answer(
    site: Site, host: Host, key: string, previous: Option<seq<int>>, cache: Option<Cache>): seq<int> {
    if IsUsable(key, previous, cache) && Unchanged(site, host, cache.value.pages.value) then previous.value
    else host.items
  }

  /** The entries after a 304 for each: new validators where the responses carry one. */
  ghost predicate Revalidated(host: Host, before: seq<Entry>, after: seq<Entry>) {
    && |after| == |before|
    && forall i :: 0 <= i < |after| ==>
         && after[i].url == before[i].url && after[i].size == before[i].size
         && after[i].etag == if host.etag(before[i].url).Some? then host.etag(before[i].url) else before[i].etag
  }

  datatype Check = AllCurrent(updated: seq<Entry>) | ChangedAt(index: nat, response: Response) | NoValidator

  /** The conditional requests, one page at a time up to the first that changed. */
  method ValidatePages(site: Site, host: Host, pages: seq<Entry>) returns (r: Check)
    requires forall i :: 0 <= i < |pages| ==> pages[i].etag.Some?
    ensures !r.NoValidator?
    ensures r.AllCurrent? <==> Unchanged(site, host, pages)
    ensures r.AllCurrent? ==> Revalidated(host, pages, r.updated)
    ensures r.ChangedAt? ==>
      && r.index < |pages| && !IsCurrent(site, host, pages[r.index]) && Unchanged(site, host, pages[..r.index])
      && r.response == Get(site, host, pages[r.index].url, None)
  {
    hide PageOf, HasNext;
    var updated: seq<Entry> := [];
    for index := 0 to |pages|
      invariant Unchanged(site, host, pages[..index]) && Revalidated(host, pages[..index], updated)
    {
      var page := pages[index];
      var response := Get(site, host, page.url, page.etag);
      if response.Full? {
        assert !IsCurrent(site, host, pages[index]);
        return ChangedAt(index, response);
      }
      var etag := if response.etag.Some? then response.etag else page.etag;
      if etag.None? {
        return NoValidator;
      }
      updated := updated + [Entry(etag, page.size, page.url)];
      assert pages[..index + 1] == pages[..index] + [page];
    }
    assert pages[..|pages|] == pages;
    r := AllCurrent(updated);
  }

  /** paginate_cached */
  method PaginateCached(site: Site, host: Host, key: string, previous: Option<seq<int>>, cache: Option<Cache>)
    returns (r: Result<(seq<int>, Option<Cache>)>)
    requires SiteIsSane(site) && Paired(site, key, previous, cache)
    ensures r.Ok? && r.value.0 == Answer(site, host, key, previous, cache)
    ensures CacheFollows(site, host, key, previous, cache, r.value.1)
  {
    hide Get, PageOf, HasNext, IsUsable, IsCacheOf;
    var pages := CachedPages(cache, key, previous);
    if pages.Some? {
      UsableParts(key, previous, cache);
      FirstIsPaired(site, key, previous, cache);
      var check := ValidatePages(site, host, pages.value);
      match check {
        case NoValidator =>
          return Failure("304 without a validator");
        case AllCurrent(updated) =>
          return Ok((previous.value, Some(Cache(key, Some(updated), |previous.value|))));
        case ChangedAt(index, response) =>
          if index == 0 {
            var items, made := PaginateResponse(site, host, key, response);
            return Ok((items, made));
          }
      }
    }
    var items, made := PaginateResponse(site, host, key, Get(site, host, site.url(0), None));
    return Ok((items, made));
  }

  lemma UsableParts(key: string, previous: Option<seq<int>>, cache: Option<Cache>)
    requires IsUsable(key, previous, cache)
    ensures previous.Some? && |cache.value.pages.value| >= 1
    ensures forall i :: 0 <= i < |cache.value.pages.value| ==> cache.value.pages.value[i].etag.Some?
  {
  }

  /** The cache to keep: revalidated entries after an unchanged collection, or those of the full pagination. */
  ghost predicate CacheFollows(
    site: Site, host: Host, key: string, previous: Option<seq<int>>, cache: Option<Cache>, made: Option<Cache>) {
    if IsUsable(key, previous, cache) && Unchanged(site, host, cache.value.pages.value) then
      && made.Some? && made.value.key == key && made.value.size == |previous.value| && made.value.pages.Some?
      && Revalidated(host, cache.value.pages.value, made.value.pages.value)
    else IsCacheOf(site, host, key, made)
  }

  // ---- Freshness ----

  /** The cached entries describe the pages of the previous answer. */
  ghost predicate PairedPages(site: Site, previous: seq<int>, pages: seq<Entry>) {
    && IsPageCount(previous, site.size, |pages|)
    && forall i :: 0 <= i < |pages| ==> IsPaired(site, previous, pages[i], i)
  }

  ghost predicate IsPaired(site: Site, previous: seq<int>, page: Entry, i: nat) {
    && page.url == site.url(i) && page.size == |PageOf(previous, site.size, i)|
    && page.etag.Some? && site.names(page.url, page.etag.value) == PageOf(previous, site.size, i)
  }

  /** What a caller that feeds back its own answer and cache has. */
  ghost predicate Paired(site: Site, key: string, previous: Option<seq<int>>, cache: Option<Cache>) {
    IsUsable(key, previous, cache) ==> PairedPages(site, previous.value, cache.value.pages.value)
  }

  lemma FirstIsPaired(site: Site, key: string, previous: Option<seq<int>>, cache: Option<Cache>)
    requires Paired(site, key, previous, cache)
    ensures IsUsable(key, previous, cache) ==>
      && |cache.value.pages.value| >= 1 && cache.value.pages.value[0].url == site.url(0)
  {
  }

  /** The first k pages hold the items before page k. */
  lemma {:induction false} PagesMakePrefix(a: seq<int>, b: seq<int>, size: nat, k: nat)
    requires forall i :: 0 <= i < k ==> PageOf(a, size, i) == PageOf(b, size, i)
    ensures Least(k * size, |a|) == Least(k * size, |b|)
    ensures a[..Least(k * size, |a|)] == b[..Least(k * size, |b|)]
  {
    if k > 0 {
      PagesMakePrefix(a, b, size, k - 1);
      var at := (k - 1) * size;
      assert k * size == at + size;
      assert PageOf(a, size, k - 1) == PageOf(b, size, k - 1);
      assert a[..Least(at + size, |a|)] == a[..Least(at, |a|)] + PageOf(a, size, k - 1);
      assert b[..Least(at + size, |b|)] == b[..Least(at, |b|)] + PageOf(b, size, k - 1);
    }
  }

  /** Unchanged pages: the collection begins with the previous answer, and if it has grown then the last
  cached page was full. */
  lemma UnchangedIsPrefix(site: Site, host: Host, previous: seq<int>, pages: seq<Entry>)
    requires SiteIsSane(site) && PairedPages(site, previous, pages) && Unchanged(site, host, pages)
    ensures |previous| <= |host.items| && previous == host.items[..|previous|]
    ensures |previous| < |host.items| ==> pages[|pages| - 1].size == site.size
  {
    var count := |pages|;
    var last := (count - 1) * site.size;
    assert count * site.size == last + site.size;
    forall i | 0 <= i < count ensures PageOf(host.items, site.size, i) == PageOf(previous, site.size, i) {
      assert IsPaired(site, previous, pages[i], i) && IsCurrent(site, host, pages[i]);
    }
    PagesMakePrefix(host.items, previous, site.size, count);
    assert IsPaired(site, previous, pages[count - 1], count - 1);
    assert !HasNext(previous, site.size, count - 1);
  }

  /** Exactly when an answer is stale: the cached pages stand, but items were added after them. */
  lemma StaleExactlyWhenGrown(site: Site, host: Host, key: string, previous: Option<seq<int>>, cache: Option<Cache>)
    requires SiteIsSane(site) && Paired(site, key, previous, cache)
    ensures Answer(site, host, key, previous, cache) != host.items <==>
      && IsUsable(key, previous, cache) && Unchanged(site, host, cache.value.pages.value)
      && |host.items| > |previous.value|
  {
    hide Unchanged, PairedPages;
    if IsUsable(key, previous, cache) && Unchanged(site, host, cache.value.pages.value) {
      UnchangedIsPrefix(site, host, previous.value, cache.value.pages.value);
    }
  }

  /** With pages of 100 an answer is the collection: a cached last page has room, so growth changes it. */
  lemma HundredIsFresh(site: Site, host: Host, key: string, previous: Option<seq<int>>, cache: Option<Cache>)
    requires SiteIsSane(site) && Paired(site, key, previous, cache) && site.size == CACHED_PAGE
    ensures Answer(site, host, key, previous, cache) == host.items
  {
    hide Unchanged, PairedPages;
    if IsUsable(key, previous, cache) && Unchanged(site, host, cache.value.pages.value) {
      UnchangedIsPrefix(site, host, previous.value, cache.value.pages.value);
      assert host.items[..|host.items|] == host.items;
    }
  }

  /** The caller's next pair is one it can feed back. */
  lemma StaysPaired(
    site: Site, host: Host, key: string, previous: Option<seq<int>>, cache: Option<Cache>, made: Option<Cache>)
    requires SiteIsSane(site) && Honest(site, host) && Paired(site, key, previous, cache)
    requires CacheFollows(site, host, key, previous, cache, made)
    ensures Paired(site, key, Some(Answer(site, host, key, previous, cache)), made)
  {
    UsableHasPages(key, previous, cache);
    hide IsUsable, PageOf, HasNext;
    if made.Some? && made.value.pages.Some? {
      var pages := made.value.pages.value;
      if IsUsable(key, previous, cache) && Unchanged(site, host, cache.value.pages.value) {
        RevalidatedStaysPaired(site, host, previous.value, cache.value.pages.value, pages);
      } else {
        MadeIsPaired(site, host, key, made);
      }
    } else {
      UsableHasPages(key, Some(Answer(site, host, key, previous, cache)), made);
    }
  }

  lemma UsableHasPages(key: string, previous: Option<seq<int>>, cache: Option<Cache>)
    ensures IsUsable(key, previous, cache) ==> previous.Some? && cache.Some? && cache.value.pages.Some?
  {
  }

  lemma RevalidatedStaysPaired(site: Site, host: Host, previous: seq<int>, before: seq<Entry>, after: seq<Entry>)
    requires SiteIsSane(site) && Honest(site, host)
    requires PairedPages(site, previous, before) && Unchanged(site, host, before) && Revalidated(host, before, after)
    ensures PairedPages(site, previous, after)
  {
  }

  lemma MadeIsPaired(site: Site, host: Host, key: string, made: Option<Cache>)
    requires SiteIsSane(site) && Honest(site, host) && IsCacheOf(site, host, key, made) && made.Some?
    ensures PairedPages(site, host.items, made.value.pages.value)
  {
  }

  // ---- Runs ----

  datatype State = State(previous: Option<seq<int>>, cache: Option<Cache>)

  /** One call per host, each fed the answer and the cache of the one before. */
  ghost predicate IsRun(site: Site, key: string, hosts: seq<Host>, states: seq<State>) {
    && |states| == |hosts| + 1 && states[0] == State(None, None)
    && forall i :: 0 <= i < |hosts| ==> IsCall(site, key, hosts[i], states[i], states[i + 1])
  }

  ghost predicate IsCall(site: Site, key: string, host: Host, before: State, after: State) {
    && after.previous == Some(Answer(site, host, key, before.previous, before.cache))
    && CacheFollows(site, host, key, before.previous, before.cache, after.cache)
  }

  lemma {:induction false} RunStaysPaired(site: Site, key: string, hosts: seq<Host>, states: seq<State>, i: nat)
    requires SiteIsSane(site) && IsRun(site, key, hosts, states) && i < |states|
    requires forall h :: h in hosts ==> Honest(site, h)
    ensures Paired(site, key, states[i].previous, states[i].cache)
  {
    if i > 0 {
      RunStaysPaired(site, key, hosts, states, i - 1);
      assert IsCall(site, key, hosts[i - 1], states[i - 1], states[i]);
      StaysPaired(site, hosts[i - 1], key, states[i - 1].previous, states[i - 1].cache, states[i].cache);
    }
  }

  /** Every call of a run with pages of 100 answers what a full pagination would. */
  lemma RunIsFresh(site: Site, key: string, hosts: seq<Host>, states: seq<State>, i: nat)
    requires SiteIsSane(site) && IsRun(site, key, hosts, states) && i < |hosts| && site.size == CACHED_PAGE
    requires forall h :: h in hosts ==> Honest(site, h)
    ensures states[i + 1].previous == Some(hosts[i].items)
  {
    hide *;
    RunCalls(site, key, hosts, states, i);
    RunStaysPaired(site, key, hosts, states, i);
    HundredIsFresh(site, hosts[i], key, states[i].previous, states[i].cache);
  }

  lemma RunCalls(site: Site, key: string, hosts: seq<Host>, states: seq<State>, i: nat)
    requires IsRun(site, key, hosts, states) && i < |hosts|
    ensures |states| == |hosts| + 1 && hosts[i] in hosts
    ensures states[i + 1].previous == Some(Answer(site, hosts[i], key, states[i].previous, states[i].cache))
  {
  }

  // ---- Other page sizes ----

  /** Feeding back is safe: no run of honest calls answers anything but the collection. */
  ghost predicate AlwaysFresh(size: nat) {
    forall site, key, hosts, states, i: nat ::
      SiteIsSane(site) && site.size == size && IsRun(site, key, hosts, states) && i < |hosts|
      && (forall h :: h in hosts ==> Honest(site, h))
      ==> FreshAt(hosts, states, i)
  }

  ghost predicate FreshAt(hosts: seq<Host>, states: seq<State>, i: nat) {
    i < |hosts| && i + 1 < |states| && states[i + 1].previous == Some(hosts[i].items)
  }

  function Zeros(n: nat): (zeros: seq<int>)
    ensures |zeros| == n
  {
    seq(n, _ => 0)
  }

  function Address(k: nat): (url: string)
    ensures |url| == k + 1
  {
    seq(k + 1, _ => 'p')
  }

  function AddressNumber(url: string): nat {
    if url == "" then 0 else |url| - 1
  }

  /** A site of `size` items a page; its one validator "v" stands for the pages of `size` zeros. */
  function FullPageSite(size: nat): Site {
    Site(Address, AddressNumber, (url, etag) => PageOf(Zeros(size), size, AddressNumber(url)), size)
  }

  /** A smaller page is cached when it is full and the only one; an item added later is on a page that is
  never asked for. */
  lemma SmallerGoesStale(size: nat)
    requires 1 <= size < CACHED_PAGE
    ensures !AlwaysFresh(size)
  {
    var site := FullPageSite(size);
    var host, grown := Host(Zeros(size), url => Some("v")), Host(Zeros(size + 1), url => None);
    var pages := [Entry(Some("v"), size, Address(0))];
    var cache := Some(Cache("key", Some(pages), size));
    var states := [State(None, None), State(Some(Zeros(size)), cache), State(Some(Zeros(size)), cache)];
    assert IsPageCount(host.items, size, 1) && CacheOfPages(site, host, "key", cache, 1);
    assert IsCall(site, "key", host, states[0], states[1]);
    assert SizeOf(pages) == SizeOf(pages[..0]) + size;
    assert EntryIsUsable(pages, 0);
    assert IsUsable("key", Some(Zeros(size)), cache);
    assert PageOf(grown.items, size, 0) == PageOf(host.items, size, 0);
    assert IsCurrent(site, grown, pages[0]);
    assert Unchanged(site, grown, pages);
    assert Revalidated(grown, pages, pages);
    assert IsCall(site, "key", grown, states[1], states[2]);
    var hosts := [host, grown];
    assert IsRun(site, "key", hosts, states);
    assert forall h :: h in hosts ==> h == host || h == grown;
    assert !FreshAt(hosts, states, 1);
  }

  /** Feeding back is safe exactly when the caller leaves `per_page` at 100 or asks for more. */
  lemma FreshExactlyAtHundred(perPage: Option<nat>)
    requires perPage.Some? ==> perPage.value >= 1
    ensures AlwaysFresh(GrantedSize(perPage)) <==> perPage.None? || perPage.value >= CACHED_PAGE
  {
    hide IsRun, Honest, SiteIsSane;
    var size := GrantedSize(perPage);
    if size == CACHED_PAGE {
      forall site, key, hosts, states, i: nat |
        SiteIsSane(site) && site.size == size && IsRun(site, key, hosts, states) && i < |hosts|
        && (forall h :: h in hosts ==> Honest(site, h))
        ensures FreshAt(hosts, states, i)
      {
        RunIsFresh(site, key, hosts, states, i);
        RunCalls(site, key, hosts, states, i);
      }
    } else {
      SmallerGoesStale(size);
    }
  }
}
