/** The repository's end-to-end scenario: a file server whose root serves
    an HTML page of 118 bytes linking, by relative paths, a stylesheet (23
    bytes), a script (15 bytes) and a favicon (4 bytes). The server listens
    on a host and port chosen at run time, so the scenario is stated for
    every `host`. */
module Fixture {
  import opened Results
  import opened Path
  import opened Report
  import opened HtmlExtract
  import opened Links
  import opened PageSizeMeasure
  import opened PageSizeProperties

  /** The URL the measurement starts from: the server's URL followed by "/". */
  function Root(host: string): string
  {
    "http://" + host + "/"
  }

  /** The URL under which the server serves the file `name`. */
  function FileURL(host: string, name: string): string
  {
    "http://" + host + "/" + name
  }

  function RootPage(host: string): URL
  {
    URL("http", host, "/", "", "")
  }

  /** url.Parse on the strings the scenario reaches. */
  function Parse(host: string, s: string): Option<URL>
  {
    if s == "index.css" || s == "index.js" || s == "./favicon.ico" then Some(URL("", "", s, "", ""))
    else if s == Root(host) then Some(RootPage(host))
    else if s == FileURL(host, "index.css") then Some(URL("http", host, "/index.css", "", ""))
    else if s == FileURL(host, "index.js") then Some(URL("http", host, "/index.js", "", ""))
    else if s == FileURL(host, "favicon.ico") then Some(URL("http", host, "/favicon.ico", "", ""))
    else None
  }

  function Tag(name: string): Token
  {
    Token(name, [])
  }

  function LinkTag(href: string): Token
  {
    Token("link", [Attribute("href", href)])
  }

  /** The tokens of
      <html><head><link href="index.css" /><link href="index.js" />
      <link href="./favicon.ico" /></head><h1>Hello</h1></html>
      in three runs: before, at and after the links. */
  const Opening: seq<Token> := [Tag("html"), Tag("head")]
  const LinkTags: seq<Token> := [LinkTag("index.css"), LinkTag("index.js"), LinkTag("./favicon.ico")]
  const Closing: seq<Token> := [Tag("head"), Tag("h1"), Tag("Hello"), Tag("h1"), Tag("html")]
  const IndexTokens: seq<Token> := Opening + LinkTags + Closing

  /** A body that is not scanned: its tokens play no part. */
  const Unscanned: TokenStream := TokenStream([], Tag(""), EndOfFile)

  const IndexPage: Response := Response(118, "text/html; charset=utf-8", TokenStream(IndexTokens, Tag(""), EndOfFile))

  /** The Content-Type headers the file server sends for the stylesheet,
      the script and the favicon. They depend on the server's MIME table
      and content sniffing, so they are left open: the scenario only needs
      that none of them marks an HTML page. */
  datatype AssetTypes = AssetTypes(css: string, js: string, icon: string)

  predicate NoneHtml(types: AssetTypes)
  {
    !IsHtml(types.css) && !IsHtml(types.js) && !IsHtml(types.icon)
  }

  function Server(host: string, types: AssetTypes): Site
  {
    Site(s => Parse(host, s), map[
      Root(host) := Fetched(IndexPage),
      FileURL(host, "index.css") := Fetched(Response(23, types.css, Unscanned)),
      FileURL(host, "index.js") := Fetched(Response(15, types.js, Unscanned)),
      FileURL(host, "favicon.ico") := Fetched(Response(4, types.icon, Unscanned))
    ])
  }

  /** Headers a Go file server may send for these files, by extension or
      by sniffing, are not HTML: each lacks a letter of the marker. */
  lemma UsualTypeNotHtml(ct: string)
    requires || ct == "text/css; charset=utf-8"
             || ct == "text/javascript; charset=utf-8"
             || ct == "image/vnd.microsoft.icon"
             || ct == "text/plain; charset=utf-8"
    ensures !IsHtml(ct)
  {
    if ct == "text/plain; charset=utf-8" {
      Strings.MissingCharacter(ct, HtmlMarker, 'm');
    } else {
      Strings.MissingCharacter(ct, HtmlMarker, 'l');
    }
  }

  lemma OpeningSkipped(tag: string, attribute: string)
    requires tag != "html" && tag != "head"
    ensures Collect(Opening, tag, attribute) == []
  {
    CollectStep(Opening, 0, tag, attribute);
    CollectStep(Opening, 1, tag, attribute);
    assert Opening[0..] == Opening && Opening[2..] == [];
  }

  lemma ClosingSkipped(tag: string, attribute: string)
    requires tag != "html" && tag != "head" && tag != "h1" && tag != "Hello"
    ensures Collect(Closing, tag, attribute) == []
  {
    CollectStep(Closing, 0, tag, attribute);
    CollectStep(Closing, 1, tag, attribute);
    CollectStep(Closing, 2, tag, attribute);
    CollectStep(Closing, 3, tag, attribute);
    CollectStep(Closing, 4, tag, attribute);
    assert Closing[0..] == Closing && Closing[5..] == [];
  }

  lemma LinkTagsCollect(tag: string, attribute: string)
    ensures Collect(LinkTags, tag, attribute)
            == TokenValues(LinkTag("index.css"), tag, attribute)
               + TokenValues(LinkTag("index.js"), tag, attribute)
               + TokenValues(LinkTag("./favicon.ico"), tag, attribute)
  {
    CollectStep(LinkTags, 0, tag, attribute);
    CollectStep(LinkTags, 1, tag, attribute);
    CollectStep(LinkTags, 2, tag, attribute);
    assert LinkTags[0..] == LinkTags && LinkTags[3..] == [];
  }

  /** The filter over the page's tokens only finds values in the links. */
  lemma IndexCollect(tag: string, attribute: string)
    requires tag != "html" && tag != "head" && tag != "h1" && tag != "Hello"
    ensures Collect(IndexTokens, tag, attribute) == Collect(LinkTags, tag, attribute)
  {
    CollectAppend(Opening + LinkTags, Closing, tag, attribute);
    CollectAppend(Opening, LinkTags, tag, attribute);
    OpeningSkipped(tag, attribute);
    ClosingSkipped(tag, attribute);
  }

  lemma LinkValue(href: string)
    requires href != ""
    ensures TokenValues(LinkTag(href), "link", "href") == [href]
    ensures TokenValues(LinkTag(href), "img", "src") == []
    ensures TokenValues(LinkTag(href), "video", "poster") == []
  {
    var attrs := [Attribute("href", href)];
    assert attrs[1..] == [];
    assert ValuesOf(attrs, "href") == [href] + ValuesOf([], "href");
  }

  lemma IndexHrefs(ts: seq<Token>)
    requires ts == IndexTokens
    ensures Collect(ts, "link", "href") == ["index.css", "index.js", "./favicon.ico"]
  {
    LinkValue("index.css");
    LinkValue("index.js");
    LinkValue("./favicon.ico");
    IndexCollect("link", "href");
    LinkTagsCollect("link", "href");
    assert ["index.css"] + ["index.js"] + ["./favicon.ico"] == ["index.css", "index.js", "./favicon.ico"];
  }

  lemma IndexNoOtherRule(ts: seq<Token>, tag: string, attribute: string)
    requires ts == IndexTokens
    requires (tag, attribute) == ("img", "src") || (tag, attribute) == ("video", "poster")
    ensures Collect(ts, tag, attribute) == []
  {
    LinkValue("index.css");
    LinkValue("index.js");
    LinkValue("./favicon.ico");
    IndexCollect(tag, attribute);
    LinkTagsCollect(tag, attribute);
  }

  /** The page's markup yields its three hrefs, in document order. */
  lemma IndexLinks(s: TokenStream)
    requires s.tokens == IndexTokens && s.end == EndOfFile
    ensures ImportedLinks(s) == Ok(["index.css", "index.js", "./favicon.ico"])
  {
    ImportedLinksOrder(s);
    IndexHrefs(s.tokens);
    IndexNoOtherRule(s.tokens, "img", "src");
    IndexNoOtherRule(s.tokens, "video", "poster");
    var hrefs := Collect(s.tokens, "link", "href");
    assert hrefs + [] + [] == hrefs;
  }

  /** The four URLs of the scenario are distinct (their lengths differ). */
  lemma DistinctURLs(host: string)
    ensures |Root(host)| == |host| + 8
    ensures |FileURL(host, "index.js")| == |host| + 16
    ensures |FileURL(host, "index.css")| == |host| + 17
    ensures |FileURL(host, "favicon.ico")| == |host| + 19
  {
  }

  /** A response that is not HTML is measured by its own size alone. */
  lemma AssetMeasure(site: Site, url: string, resp: Response)
    requires site.parse(url).Some?
    requires FetchOf(site, url) == Fetched(resp)
    requires !IsHtml(resp.contentType)
    ensures Measure(site, url, 1) == Ok(map[url := resp.bodyLength])
    ensures Sum(map[url := resp.bodyLength]) == resp.bodyLength
  {
    ScanOnlyHtml(site, url, 1);
    SumUpdate(map[], url, resp.bodyLength);
  }

  /** Each file's URL parses. */
  lemma FileParses(host: string, types: AssetTypes, name: string)
    requires name == "index.css" || name == "index.js" || name == "favicon.ico"
    ensures Server(host, types).parse(FileURL(host, name)).Some?
  {
    DistinctURLs(host);
    assert FileURL(host, name)[0] == 'h';
  }

  lemma CssMeasure(host: string, types: AssetTypes)
    requires !IsHtml(types.css)
    ensures Measure(Server(host, types), FileURL(host, "index.css"), 1) == Ok(map[FileURL(host, "index.css") := 23])
    ensures Sum(map[FileURL(host, "index.css") := 23]) == 23
  {
    DistinctURLs(host);
    FileParses(host, types, "index.css");
    AssetMeasure(Server(host, types), FileURL(host, "index.css"), Response(23, types.css, Unscanned));
  }

  lemma JsMeasure(host: string, types: AssetTypes)
    requires !IsHtml(types.js)
    ensures Measure(Server(host, types), FileURL(host, "index.js"), 1) == Ok(map[FileURL(host, "index.js") := 15])
    ensures Sum(map[FileURL(host, "index.js") := 15]) == 15
  {
    DistinctURLs(host);
    FileParses(host, types, "index.js");
    AssetMeasure(Server(host, types), FileURL(host, "index.js"), Response(15, types.js, Unscanned));
  }

  lemma IconMeasure(host: string, types: AssetTypes)
    requires !IsHtml(types.icon)
    ensures Measure(Server(host, types), FileURL(host, "favicon.ico"), 1) == Ok(map[FileURL(host, "favicon.ico") := 4])
    ensures Sum(map[FileURL(host, "favicon.ico") := 4]) == 4
  {
    DistinctURLs(host);
    FileParses(host, types, "favicon.ico");
    AssetMeasure(Server(host, types), FileURL(host, "favicon.ico"), Response(4, types.icon, Unscanned));
  }

  lemma OriginOfRoot(host: string)
    ensures Origin(RootPage(host)) + "/" == Root(host)
  {
    assert "http" + "://" == "http://";
  }

  /** A link that is a bare file name resolves to that file on the root's host. */
  lemma {:induction false} RelativeKey(host: string, name: string)
    requires IsName(name)
    ensures LinkKey(RootPage(host), name, URL("", "", name, "", "")) == FileURL(host, name)
  {
    OriginOfRoot(host);
    CleanRootedNames([name]);
    assert Join([name]) == name;
  }

  /** The three links resolve against the root's scheme and host. */
  lemma CssKey(host: string, types: AssetTypes)
    ensures Resolved(Server(host, types), RootPage(host), "index.css") == Some(FileURL(host, "index.css"))
  {
    assert '/' !in "index.css";
    RelativeKey(host, "index.css");
  }

  lemma JsKey(host: string, types: AssetTypes)
    ensures Resolved(Server(host, types), RootPage(host), "index.js") == Some(FileURL(host, "index.js"))
  {
    assert '/' !in "index.js";
    RelativeKey(host, "index.js");
  }

  lemma IconKey(host: string, types: AssetTypes)
    ensures Resolved(Server(host, types), RootPage(host), "./favicon.ico") == Some(FileURL(host, "favicon.ico"))
  {
    OriginOfRoot(host);
    assert '/' !in "favicon.ico";
    assert "./" + "favicon.ico" == "./favicon.ico";
    DotSlashLink(RootPage(host), URL("", "", "./favicon.ico", "", ""), "favicon.ico");
  }

  /** An HTML page whose links are extracted is measured by walking them,
      starting from its own size. */
  lemma HtmlStep(site: Site, src: string, page: URL, resp: Response, links: seq<string>, fuel: nat)
    requires fuel > 0
    requires site.parse(src) == Some(page)
    requires FetchOf(site, src) == Fetched(resp)
    requires IsHtml(resp.contentType)
    requires ImportedLinks(resp.tokens) == Ok(links)
    ensures Measure(site, src, fuel) == MeasureLinks(site, page, links, fuel, map[src := resp.bodyLength])
  {
  }

  lemma RootFetch(host: string, types: AssetTypes)
    ensures Server(host, types).parse(Root(host)) == Some(RootPage(host))
    ensures FetchOf(Server(host, types), Root(host)) == Fetched(IndexPage)
  {
    DistinctURLs(host);
    assert Root(host)[0] == 'h';
  }

  /** The root page is HTML, so its report starts from its own size and
      continues with its three links. */
  lemma RootStep(host: string, types: AssetTypes)
    ensures Measure(Server(host, types), Root(host), 2)
            == MeasureLinks(Server(host, types), RootPage(host), ["index.css", "index.js", "./favicon.ico"], 2, map[Root(host) := 118])
  {
    RootFetch(host, types);
    IndexLinks(IndexPage.tokens);
    assert IsHtml(IndexPage.contentType) by {
      assert Strings.OccursAt(IndexPage.contentType, HtmlMarker, 0);
    }
    HtmlStep(Server(host, types), Root(host), RootPage(host), IndexPage, ["index.css", "index.js", "./favicon.ico"], 2);
  }

  /** Measuring the root yields four entries whose total is 118+23+15+4 = 160. */
  lemma FixtureTotal(host: string, types: AssetTypes)
    requires NoneHtml(types)
    ensures Measure(Server(host, types), Root(host), 2)
            == Ok(map[Root(host) := 118, FileURL(host, "index.css") := 23,
                      FileURL(host, "index.js") := 15, FileURL(host, "favicon.ico") := 4])
    ensures Sum(map[Root(host) := 118, FileURL(host, "index.css") := 23,
                    FileURL(host, "index.js") := 15, FileURL(host, "favicon.ico") := 4]) == 160
  {
    var site, page := Server(host, types), RootPage(host);
    var css, js, icon := FileURL(host, "index.css"), FileURL(host, "index.js"), FileURL(host, "favicon.ico");
    DistinctURLs(host);
    RootStep(host, types);
    CssKey(host, types);
    JsKey(host, types);
    IconKey(host, types);
    CssMeasure(host, types);
    JsMeasure(host, types);
    IconMeasure(host, types);
    var links := ["index.css", "index.js", "./favicon.ico"];
    assert links[1..] == ["index.js", "./favicon.ico"];
    assert links[1..][1..] == ["./favicon.ico"];
    var m0 := map[Root(host) := 118];
    var m1 := m0[css := 23];
    var m2 := m1[js := 15];
    var m3 := m2[icon := 4];
    assert MeasureLinks(site, page, ["./favicon.ico"], 2, m2) == Ok(m3);
    assert MeasureLinks(site, page, ["index.js", "./favicon.ico"], 2, m1) == Ok(m3);
    assert MeasureLinks(site, page, links, 2, m0) == Ok(m3);
    SumUpdate(map[], Root(host), 118);
    SumUpdate(m0, css, 23);
    SumUpdate(m1, js, 15);
    SumUpdate(m2, icon, 4);
  }
}
