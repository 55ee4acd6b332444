/** The page list of a chapter (`get_chapter_pages`) and the page-image route
    (`serve_chapter_page`) that guards the page index before using the page cache. */
module ChapterPages {
  import opened Http
  import opened FetchCache

  /** The answer of the at-home server request for a chapter: a 404 status; another
      failure that is not a `ValueError` (raised by `raise_for_status`, or a missing field);
      a body that `response.json()` cannot decode, whose decode error is a `ValueError`
      carrying `message`; or the fields read from its JSON body. */
  datatype AtHome =
    | Status404
    | HttpFailure
    | Malformed(message: string)
    | Body(baseUrl: string, hash: string, files: seq<string>)

  /** `ValueError` carries the text the page route sends back with its 404. */
  datatype PagesError = ValueError(message: string) | PagesUpstream

  function NoReadablePages(chapterId: string): string
  {
    "Chapter " + chapterId + " has no readable pages."
  }

  function NoPages(chapterId: string): string
  {
    "Chapter " + chapterId + " contains no pages."
  }

  function UrlPrefix(baseUrl: string, hash: string): string
  {
    baseUrl + "/data/" + hash + "/"
  }

  function PageUrl(baseUrl: string, hash: string, file: string): (url: string)
    ensures UrlPrefix(baseUrl, hash) <= url
    ensures url[|UrlPrefix(baseUrl, hash)|..] == file
  {
    UrlPrefix(baseUrl, hash) + file
  }

  /** The file name of a page URL: what follows `base/data/hash/`. */
  function PageFile(baseUrl: string, hash: string, url: string): string
    requires UrlPrefix(baseUrl, hash) <= url
  {
    url[|UrlPrefix(baseUrl, hash)|..]
  }

  function GetChapterPages(chapterId: string, resp: AtHome): (r: Result<seq<string>, PagesError>)
    // a list is returned exactly when the server answered with at least one page file
    ensures r.Success? <==> resp.Body? && resp.files != []
    ensures resp.Status404? ==> r == Failure(ValueError(NoReadablePages(chapterId)))
    ensures resp.HttpFailure? ==> r == Failure(PagesUpstream)
    ensures resp.Malformed? ==> r == Failure(ValueError(resp.message))
    ensures resp.Body? && resp.files == [] ==> r == Failure(ValueError(NoPages(chapterId)))
    // one URL per page file, in order: the chapter's data directory followed by the file
    // name (a prefix and the rest of a string determine it)
    ensures r.Success? ==>
              |r.value| == |resp.files| &&
              forall i :: 0 <= i < |r.value| ==>
                UrlPrefix(resp.baseUrl, resp.hash) <= r.value[i] &&
                PageFile(resp.baseUrl, resp.hash, r.value[i]) == resp.files[i]
  {
    match resp
    case Status404 => Failure(ValueError(NoReadablePages(chapterId)))
    case HttpFailure => Failure(PagesUpstream)
    case Malformed(message) => Failure(ValueError(message))
    case Body(baseUrl, hash, files) =>
      if files == [] then Failure(ValueError(NoPages(chapterId)))
      else Success(seq(|files|, i requires 0 <= i < |files| => PageUrl(baseUrl, hash, files[i])))
  }

  function PageReply(r: Result<Payload, Upstream>): (reply: Reply)
    ensures reply.Image? <==> r.Success?
    ensures r.Success? ==> reply == ImageOf(r.value)
    ensures r.Failure? ==> reply == ServerError
  {
    match r
    case Success(p) => ImageOf(p)
    case Failure(_) => ServerError
  }

  /** The `/chapter/<chapter_id>/page/<page_index>` route. `resp` is the at-home server's
      answer for the chapter and `host` the image host. */
  method ServeChapterPage(cache: PageCache, chapterId: string, pageIndex: int, resp: AtHome, now: real,
                          host: string -> Result<Payload, Upstream>)
    returns (reply: Reply)
    modifies cache
    // no page list: the ValueError text is sent with a 404, an upstream failure escapes
    ensures GetChapterPages(chapterId, resp) == Failure(PagesUpstream) ==>
              reply == ServerError && cache.chapters == old(cache.chapters)
    ensures GetChapterPages(chapterId, resp).Failure? && GetChapterPages(chapterId, resp).error.ValueError? ==>
              reply == NotFound(GetChapterPages(chapterId, resp).error.message) && cache.chapters == old(cache.chapters)
    // an index outside the list is a 404 and the cache is not consulted
    ensures GetChapterPages(chapterId, resp).Success? &&
            !(0 <= pageIndex < |GetChapterPages(chapterId, resp).value|) ==>
              reply == NotFound("Page not found") && cache.chapters == old(cache.chapters)
    // an index inside the list fetches (or serves from cache) exactly that page's URL
    ensures GetChapterPages(chapterId, resp).Success? &&
            0 <= pageIndex < |GetChapterPages(chapterId, resp).value| ==>
              var url := GetChapterPages(chapterId, resp).value[pageIndex];
              var s := FetchPageStep(old(cache.chapters), chapterId, pageIndex, now, host(url));
              cache.chapters == s.cache && reply == PageReply(s.reply)
  {
    var pages := GetChapterPages(chapterId, resp);
    if pages.Failure? {
      match pages.error {
        case ValueError(message) =>
          return NotFound(message);
        case PagesUpstream =>
          return ServerError;
      }
    }
    var urls := pages.value;
    if pageIndex < 0 || pageIndex >= |urls| {
      return NotFound("Page not found");
    }
    var r := cache.FetchPage(chapterId, pageIndex, urls[pageIndex], now, host);
    reply := PageReply(r);
  }
}
