/** The expiring fetch cache of main.py, used for cover images (`cover_cache`, keyed by
    manga id) and chapter pages (`page_cache`, keyed by chapter id, then page index). */
module FetchCache {
  import opened Http

  /** CACHE_TTL: an entry is served for one day after the clock reading stored with it. */
  const CacheTtl: int := 60 * 60 * 24

  /** The tuple `(ts, ctype, content)` a cache keeps; `ts` is the clock reading taken
      before the fetch that produced the entry. */
  datatype Entry = Entry(ts: real, ctype: string, content: Bytes)

  function Stored(e: Entry): Payload
  {
    Payload(e.ctype, e.content)
  }

  predicate IsFresh(e: Entry, now: real)
  {
    now - e.ts < CacheTtl as real
  }

  /** A request for `key` at time `now` is answered from memory. */
  predicate Hits<K>(m: map<K, Entry>, key: K, now: real)
  {
    key in m && IsFresh(m[key], now)
  }

  /** The cache contents after a request and what the request returns. */
  datatype Step<K, V, E> = Step(cache: map<K, V>, reply: Result<Payload, E>)

  /** One get-or-fetch: a fresh entry is returned as it is; otherwise the outcome of the
      fetch is returned, and a successful one is stored with the time read before it.
      `fetch` is only looked at when the request misses. */
  function GetOrFetch<K, E>(m: map<K, Entry>, key: K, now: real, fetch: Result<Payload, E>)
    : (s: Step<K, Entry, E>)
    // a hit touches nothing and returns the stored pair
    ensures Hits(m, key, now) ==> s.cache == m && s.reply == Success(Stored(m[key]))
    // a miss returns exactly what the fetch gave
    ensures !Hits(m, key, now) ==> s.reply == fetch
    // a successful miss leaves an entry stamped with the time read before the fetch
    ensures !Hits(m, key, now) && fetch.Success? ==>
              key in s.cache && s.cache[key] == Entry(now, fetch.value.ctype, fetch.value.content)
    // a failure neither creates nor modifies anything
    ensures s.reply.Failure? ==> s.cache == m
    // whatever is returned successfully is what the cache now holds, and it is fresh
    ensures s.reply.Success? ==> Hits(s.cache, key, now) && Stored(s.cache[key]) == s.reply.value
    // nothing is ever evicted, and no other key is touched
    ensures s.cache.Keys == m.Keys + (if s.reply.Success? then {key} else {})
    ensures forall k :: k in m && k != key ==> s.cache[k] == m[k]
  {
    if Hits(m, key, now) then
      Step(m, Success(Stored(m[key])))
    else
      match fetch
      case Success(p) => Step(m[key := Entry(now, p.ctype, p.content)], fetch)
      case Failure(_) => Step(m, fetch)
  }

  /** A fresh hit does not depend on the fetch at all: no upstream request is made. */
  lemma HitSkipsFetch<K, E>(m: map<K, Entry>, key: K, now: real, f1: Result<Payload, E>, f2: Result<Payload, E>)
    requires Hits(m, key, now)
    ensures GetOrFetch(m, key, now, f1) == GetOrFetch(m, key, now, f2)
  {
  }

  /** A second request within the TTL of a successful fetch is served from memory with
      the same bytes and content type, whatever the upstream would now answer. */
  lemma SecondRequestWithinTtlServedFromCache<K, E>(m: map<K, Entry>, key: K, t1: real, t2: real,
                                                     p: Payload, later: Result<Payload, E>)
    requires !Hits(m, key, t1)
    requires t2 - t1 < CacheTtl as real
    ensures var first := GetOrFetch<K, E>(m, key, t1, Success(p));
            var second := GetOrFetch(first.cache, key, t2, later);
            first.reply == Success(p) && second == Step(first.cache, Success(p))
  {
  }

  /** Once the TTL has run out, the next request fetches again and overwrites the entry. */
  lemma ExpiredEntryIsRefetched<K, E>(m: map<K, Entry>, key: K, t1: real, t2: real,
                                      p: Payload, later: Result<Payload, E>)
    requires !Hits(m, key, t1)
    requires t2 - t1 >= CacheTtl as real
    ensures var first := GetOrFetch<K, E>(m, key, t1, Success(p));
            var second := GetOrFetch(first.cache, key, t2, later);
            second.reply == later &&
            (later.Success? ==> second.cache == m[key := Entry(t2, later.value.ctype, later.value.content)])
  {
  }

  /** `get_cover` either finds no cover record (it returns None) or its request raised. */
  datatype CoverFailure = NoCover | CoverUpstream

  /** The reply of `proxy_cover` for the outcome of the cache step. */
  function CoverReply(r: Result<Payload, CoverFailure>): (reply: Reply)
    ensures reply.Image? <==> r.Success?
    ensures r.Success? ==> reply == ImageOf(r.value)
    ensures reply.NotFound? <==> r == Failure(NoCover)
  {
    match r
    case Success(p) => ImageOf(p)
    case Failure(NoCover) => NotFound("No cover")
    case Failure(CoverUpstream) => ServerError
  }

  /** `cover_cache`: manga id to the cached cover image. */
  class CoverCache {
    var entries: map<string, Entry>

    constructor ()
      ensures entries == map[]
    {
      entries := map[];
    }

    /** The `/cover/<manga_id>` route. `fetch` is what `get_cover(manga_id)` would produce. */
    method ProxyCover(mangaId: string, now: real, fetch: Result<Payload, CoverFailure>) returns (reply: Reply)
      modifies this
      ensures var s := GetOrFetch(old(entries), mangaId, now, fetch);
              entries == s.cache && reply == CoverReply(s.reply)
      ensures Hits(old(entries), mangaId, now) ==>
                entries == old(entries) && reply == ImageOf(Stored(old(entries)[mangaId]))
      ensures fetch == Failure(NoCover) && !Hits(old(entries), mangaId, now) ==>
                entries == old(entries) && reply == NotFound("No cover")
    {
      if mangaId in entries {
        var e := entries[mangaId];
        if now - e.ts < CacheTtl as real {
          return Image(e.ctype, e.content);
        }
      }
      match fetch {
        case Failure(NoCover) =>
          return NotFound("No cover");
        case Failure(CoverUpstream) =>
          return ServerError;
        case Success(p) =>
          entries := entries[mangaId := Entry(now, p.ctype, p.content)];
          return Image(p.ctype, p.content);
      }
    }
  }

  /** The inner map of a chapter, or the empty map `fetch_page` creates for a new one. */
  function PagesOf(m: map<string, map<int, Entry>>, chapterId: string): map<int, Entry>
  {
    if chapterId in m then m[chapterId] else map[]
  }

  /** One `fetch_page` on the two-level page cache: the inner map of the chapter is created
      if needed, then a get-or-fetch runs on it. */
  function FetchPageStep(m: map<string, map<int, Entry>>, chapterId: string, pageIndex: int,
                         now: real, fetch: Result<Payload, Upstream>)
    : (s: Step<string, map<int, Entry>, Upstream>)
    // the chapter always has an inner map afterwards, even when the fetch failed
    ensures s.cache.Keys == m.Keys + {chapterId}
    // other chapters are untouched
    ensures forall c :: c in m && c != chapterId ==> s.cache[c] == m[c]
    // a fresh hit changes nothing and serves the stored pair
    ensures Hits(PagesOf(m, chapterId), pageIndex, now) ==>
              s.cache == m && s.reply == Success(Stored(m[chapterId][pageIndex]))
    // a miss returns the outcome of the fetch
    ensures !Hits(PagesOf(m, chapterId), pageIndex, now) ==> s.reply == fetch
    // a failure's only effect is the lazily created, possibly empty, inner map
    ensures s.reply.Failure? ==> s.cache == m[chapterId := PagesOf(m, chapterId)]
    // a success is stored: the page is now fresh and holds exactly the returned pair
    ensures s.reply.Success? ==>
              Hits(s.cache[chapterId], pageIndex, now) && Stored(s.cache[chapterId][pageIndex]) == s.reply.value
    // a successful miss is stamped with the time read before the fetch
    ensures !Hits(PagesOf(m, chapterId), pageIndex, now) && fetch.Success? ==>
              s.cache[chapterId][pageIndex].ts == now
    // no page is removed, and only `pageIndex` can be added, and only on success
    ensures s.cache[chapterId].Keys ==
              PagesOf(m, chapterId).Keys + (if s.reply.Success? then {pageIndex} else {})
    // other pages of the same chapter are untouched
    ensures forall i :: i in PagesOf(m, chapterId) && i != pageIndex ==>
              i in s.cache[chapterId] && s.cache[chapterId][i] == PagesOf(m, chapterId)[i]
  {
    var inner := GetOrFetch(PagesOf(m, chapterId), pageIndex, now, fetch);
    Step(m[chapterId := inner.cache], inner.reply)
  }

  /** `page_cache`: chapter id to page index to the cached page image. */
  class PageCache {
    var chapters: map<string, map<int, Entry>>

    constructor ()
      ensures chapters == map[]
    {
      chapters := map[];
    }

    /** `fetch_page(chapter_id, page_index, url)`; `host(url)` is what `requests.get(url)`
        followed by `raise_for_status` yields. */
    method FetchPage(chapterId: string, pageIndex: int, url: string, now: real,
                     host: string -> Result<Payload, Upstream>)
      returns (r: Result<Payload, Upstream>)
      modifies this
      ensures var s := FetchPageStep(old(chapters), chapterId, pageIndex, now, host(url));
              chapters == s.cache && r == s.reply
    {
      if chapterId !in chapters {
        chapters := chapters[chapterId := map[]];
      }
      var pages := chapters[chapterId];
      if pageIndex in pages {
        var e := pages[pageIndex];
        if now - e.ts < CacheTtl as real {
          return Success(Payload(e.ctype, e.content));
        }
      }
      var response := host(url);
      match response {
        case Failure(err) =>
          return Failure(err);
        case Success(p) =>
          chapters := chapters[chapterId := pages[pageIndex := Entry(now, p.ctype, p.content)]];
          return Success(p);
      }
    }
  }
}
