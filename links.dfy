/** How a link discovered on a page becomes the URL that is measured and the
    key it is reported under. URL parsing is foreign: a parsed URL is given
    as its components. */
module Links {
  import opened Path

  /** The parts of a parsed URL the measurement reads, plus the query and
      fragment, which it drops. */
  datatype URL = URL(scheme: string, host: string, path: string, rawQuery: string, fragment: string)

  /** url.URL.IsAbs: a URL is absolute when it has a scheme. */
  predicate IsAbs(u: URL)
  {
    u.scheme != ""
  }

  /** Scheme and host, joined by "://". */
  function Origin(u: URL): string
  {
    u.scheme + "://" + u.host
  }

  /** The key of `link` (whose parse is `parsed`) found on the page `page`:
      an absolute link keeps its own scheme, host and path; a relative one
      takes the page's scheme and host and the cleaned, root-anchored link
      text. The page's own path plays no part. */
  function LinkKey(page: URL, link: string, parsed: URL): (key: string)
  {
    if IsAbs(parsed) then Origin(parsed) + parsed.path
    else Origin(page) + Clean("/" + link)
  }

  /** An absolute link resolves to its own scheme, host and path, whatever
      page it is found on and whatever query or fragment it carries. */
  lemma AbsoluteLinkKey(page: URL, link: string, parsed: URL, otherPage: URL, otherLink: string, query: string, fragment: string)
    requires IsAbs(parsed)
    ensures LinkKey(page, link, parsed) == parsed.scheme + "://" + parsed.host + parsed.path
    ensures LinkKey(page, link, parsed)
            == LinkKey(otherPage, otherLink, parsed.(rawQuery := query, fragment := fragment))
  {
  }

  /** A relative link resolves to the page's scheme and host followed by a
      rooted, already clean path: no `.` or `..` element, no doubled slash,
      no trailing slash unless it is "/". */
  lemma RelativeLinkKey(page: URL, link: string, parsed: URL)
    requires !IsAbs(parsed)
    ensures var key := LinkKey(page, link, parsed);
      var o := Origin(page);
      var c := key[|o|..];
      && |key| > |o| && key[..|o|] == o
      && c == Clean("/" + link) && c[0] == '/'
      && NoDoubleSlash(c)
      && (c != "/" ==> c[|c| - 1] != '/')
      && (forall i :: 0 <= i < |Elements(c)| ==> IsName(Elements(c)[i]))
      && Clean(c) == c
  {
    var o := Origin(page);
    var c := Clean("/" + link);
    CleanRooted("/" + link);
    CleanIdempotent("/" + link);
    var key := o + c;
    assert LinkKey(page, link, parsed) == key;
    assert key[..|o|] == o && key[|o|..] == c;
  }

  /** A leading "./" is dropped: "./name" found on any page resolves to
      that page's origin followed by "/name". */
  lemma DotSlashLink(page: URL, parsed: URL, name: string)
    requires !IsAbs(parsed)
    requires IsName(name)
    ensures LinkKey(page, "./" + name, parsed) == Origin(page) + "/" + name
  {
    assert "/" + ("./" + name) == "/./" + name;
    CleanDropsDot("", name);
    assert "" + "/./" + name == "/./" + name && "" + "/" + name == "/" + name;
    CleanRootedNames([name]);
  }

  /** Links are resolved against the site root, not against the page's
      directory, so a leading "../" never leaves the root: "../x" and "x"
      resolve to the same key. */
  lemma ParentLink(page: URL, parsed: URL, x: string)
    requires !IsAbs(parsed)
    ensures LinkKey(page, "../" + x, parsed) == LinkKey(page, x, parsed)
  {
    assert "/" + ("../" + x) == "/../" + x;
    CleanDropsRootParent(x);
  }
}
