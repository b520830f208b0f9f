/** GetPageSize: measures a resource and, when it is an HTML page, the assets
    its markup links to, recursively. The network and the URL parser are
    foreign: a `Site` gives the parse of every string and the outcome of
    fetching every URL. */
module PageSizeMeasure {
  import opened Results
  import opened Strings
  import opened Report
  import opened HtmlExtract
  import opened Links

  /** A response read to its end: the body's length in bytes, the
      Content-Type header ("" when absent) and what the HTML tokenizer
      yields on the body. */
  datatype Response = Response(bodyLength: nat, contentType: string, tokens: TokenStream)

  /** The outcome of http.Get followed by io.ReadAll. */
  datatype Fetch = ConnectionFailed | BodyReadFailed | Fetched(response: Response)

  /** `parse` is url.Parse; `fetch` says what fetching each URL gives. A URL
      that is not in `fetch` cannot be reached. */
  datatype Site = Site(parse: string -> Option<URL>, fetch: map<string, Fetch>)

  /** The substring whose presence in the Content-Type marks an HTML page. */
  const HtmlMarker: string := "text/html;"

  /** The (tag, attribute) pairs whose values are the linked assets. */
  const CheckTagAttrs: seq<(string, string)> := [("link", "href"), ("img", "src"), ("video", "poster")]

  /** The HTML test: the marker occurs somewhere in the header value. */
  predicate IsHtml(contentType: string)
  {
    Contains(contentType, HtmlMarker)
  }

  /** The usual header of an HTML page is recognised, but a bare
      "text/html" without parameters is not: the marker includes the
      semicolon. */
  lemma HtmlMarkerNeedsParameters()
    ensures IsHtml("text/html; charset=utf-8")
    ensures !IsHtml("text/html")
  {
    assert OccursAt("text/html; charset=utf-8", HtmlMarker, 0);
  }

  function FetchOf(site: Site, url: string): Fetch
  {
    if url in site.fetch then site.fetch[url] else ConnectionFailed
  }

  /** The values extracted for each rule, concatenated in rule order. */
  function CollectRules(rules: seq<(string, string)>, tokens: seq<Token>): seq<string>
  {
    if rules == [] then []
    else
      var (tag, attribute) := rules[|rules| - 1];
      CollectRules(rules[..|rules| - 1], tokens) + Collect(tokens, tag, attribute)
  }

  /** The links a page's markup yields, or the tokenizer's failure. */
  function ImportedLinks(s: TokenStream): Result<seq<string>>
  {
    match s.end
    case EndOfFile => Ok(CollectRules(CheckTagAttrs, s.tokens))
    case ReadFailure => Err(ParseError)
  }

  /** The links are the `link`/`href` values, then the `img`/`src` values,
      then the `video`/`poster` values, each in document order. */
  lemma ImportedLinksOrder(s: TokenStream)
    ensures s.end == EndOfFile ==>
      ImportedLinks(s) == Ok(Collect(s.tokens, "link", "href") + Collect(s.tokens, "img", "src")
                             + Collect(s.tokens, "video", "poster"))
    ensures s.end == ReadFailure ==> ImportedLinks(s) == Err(ParseError)
  {
    var link, img, video := ("link", "href"), ("img", "src"), ("video", "poster");
    var ts := s.tokens;
    assert CheckTagAttrs[..2] == [link, img];
    assert [link, img][..1] == [link];
    assert [link][..0] == [];
    assert CollectRules(CheckTagAttrs, ts) == CollectRules([link, img], ts) + Collect(ts, "video", "poster");
    assert CollectRules([link, img], ts) == CollectRules([link], ts) + Collect(ts, "img", "src");
    assert CollectRules([link], ts) == CollectRules([], ts) + Collect(ts, "link", "href");
    assert [] + Collect(ts, "link", "href") == Collect(ts, "link", "href");
  }

  /** The key a link found on `page` is measured and reported under, or
      None when the link does not parse. */
  function Resolved(site: Site, page: URL, link: string): Option<string>
  {
    match site.parse(link)
    case None => None
    case Some(parsed) => Some(LinkKey(page, link, parsed))
  }

  /** The report of measuring `src`, with at most `fuel` nested calls. */
  ghost function Measure(site: Site, src: string, fuel: nat): Result<PageSize>
    decreases fuel, 1
  {
    if fuel == 0 then Err(DepthExceeded)
    else match site.parse(src)
      case None => Err(InvalidURL)
      case Some(page) =>
        match FetchOf(site, src)
        case ConnectionFailed => Err(NetworkError)
        case BodyReadFailed => Err(ReadError)
        case Fetched(resp) =>
          var own := map[src := resp.bodyLength];
          if !IsHtml(resp.contentType) then Ok(own)
          else match ImportedLinks(resp.tokens)
            case Err(e) => Err(e)
            case Ok(links) => MeasureLinks(site, page, links, fuel, own)
  }

  /** Measures `links` from left to right, storing each one's total into
      `acc`; the first failure ends the walk. */
  ghost function MeasureLinks(site: Site, page: URL, links: seq<string>, fuel: nat, acc: PageSize): Result<PageSize>
    requires fuel > 0
    decreases fuel, 0, |links|
  {
    if links == [] then Ok(acc)
    else match Resolved(site, page, links[0])
      case None => Err(InvalidURL)
      case Some(key) =>
        match Measure(site, key, fuel - 1)
        case Err(e) => Err(e)
        case Ok(child) => MeasureLinks(site, page, links[1..], fuel, acc[key := Sum(child)])
  }

  /** GetPageSize, with `fuel` bounding the depth of the recursion. */
  method GetPageSize(site: Site, srcURL: string, fuel: nat) returns (r: Result<PageSize>)
    ensures r == Measure(site, srcURL, fuel)
    decreases fuel
  {
    if fuel == 0 {
      return Err(DepthExceeded);
    }
    var out: PageSize := map[];

    var parsedPage := site.parse(srcURL);
    if parsedPage.None? {
      return Err(InvalidURL);
    }
    var pageURL := parsedPage.value;

    var fetched := FetchOf(site, srcURL);
    if fetched.ConnectionFailed? {
      return Err(NetworkError);
    }
    if fetched.BodyReadFailed? {
      return Err(ReadError);
    }
    var resp := fetched.response;
    out := out[srcURL := resp.bodyLength];

    if IsHtml(resp.contentType) {
      var importedFilesURLs: seq<string> := [];
      var i := 0;
      while i < |CheckTagAttrs|
        invariant 0 <= i <= |CheckTagAttrs|
        invariant i > 0 ==> resp.tokens.end == EndOfFile
        invariant importedFilesURLs == CollectRules(CheckTagAttrs[..i], resp.tokens.tokens)
      {
        var (tag, attribute) := CheckTagAttrs[i];
        var urls := ExtractHTMLTagAttribute(resp.tokens, tag, attribute);
        if urls.Err? {
          return Err(urls.error);
        }
        assert CheckTagAttrs[..i + 1][..i] == CheckTagAttrs[..i];
        importedFilesURLs := importedFilesURLs + urls.value;
        i := i + 1;
      }
      assert CheckTagAttrs[..i] == CheckTagAttrs;

      ghost var own := out;
      var j := 0;
      while j < |importedFilesURLs|
        invariant 0 <= j <= |importedFilesURLs|
        invariant MeasureLinks(site, pageURL, importedFilesURLs[j..], fuel, out)
                  == MeasureLinks(site, pageURL, importedFilesURLs, fuel, own)
      {
        var linkURL := importedFilesURLs[j];
        var parsedLink := site.parse(linkURL);
        if parsedLink.None? {
          return Err(InvalidURL);
        }
        var linkDomainName := parsedLink.value.scheme + "://" + parsedLink.value.host;
        var linkURI := parsedLink.value.path;
        if !IsAbs(parsedLink.value) {
          linkDomainName := pageURL.scheme + "://" + pageURL.host;
          linkURI := Path.Clean("/" + linkURL);
        }
        assert linkDomainName + linkURI == LinkKey(pageURL, linkURL, parsedLink.value);
        var size := GetPageSize(site, linkDomainName + linkURI, fuel - 1);
        if size.Err? {
          return Err(size.error);
        }
        var total := Total(size.value);
        out := out[linkDomainName + linkURI := total];
        assert importedFilesURLs[j..][1..] == importedFilesURLs[j + 1..];
        j := j + 1;
      }
    }
    return Ok(out);
  }
}
