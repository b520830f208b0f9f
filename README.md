# websizer page-size measurement, in Dafny

This project models the core of websizer's `httputils` package. That core
is `GetPageSize`, which measures the size of a web resource. It fetches a
URL and records the body's length under the URL the caller gave. When the
response's `Content-Type` contains `text/html;`, it also scans the page's
markup. The scan collects the values of `link`/`href`, `img`/`src` and
`video`/`poster`, in that rule order and in document order within each
rule. It resolves each value to a URL and measures that URL recursively.
The child's whole report is then stored in the parent's report as one
entry: the child's `Total`.

The modules follow the program's structure:

- `Results`: the error kinds and the `Result`/`Option` wrappers.
- `Strings`: `strings.Contains`, which decides whether a page is HTML.
- `Path`: `path.Clean`, defined by its element rules and proved to follow
  them anywhere in a path. Repeated slashes collapse, a trailing slash is
  dropped, `.` is dropped, `name/..` cancels, a `..` at the root is
  dropped, and an empty result becomes `.`.
- `Report`: the `PageSize` map and its `Total`. The method walks the keys
  in an arbitrary order, as Go's map iteration does. It is proved equal to
  a sum whose value does not depend on that order.
- `HtmlExtract`: the filtering loop of `extractHTMLTagAttribute`, over the
  tokens the HTML tokenizer yields followed by its final read, which
  reports either EOF or an error. The method is proved equal to a
  token-by-token filter. Lemmas state which values it extracts, that none
  is empty, and that the order is document order.
- `Links`: how a link becomes the key it is measured and reported under.
  An absolute link keeps its own scheme, host and path. A relative link
  takes the page's scheme and host plus `Clean("/" + link)`. A relative
  link is therefore resolved against the site root, not against the
  page's directory.
- `PageSizeMeasure`: `GetPageSize` as a recursive method with both of its
  loops. It is proved equal to a recursive specification, `Measure`.
- `PageSizeProperties`: what a measurement promises. It states when a
  measurement succeeds, what the report holds and what its total is, that
  a successful page never links to itself, and that the recursion bound
  never changes a finished result.
- `Fixture`: the repository's end-to-end test scenario. An HTML page of
  118 bytes links a stylesheet, a script and a favicon (23, 15 and 4
  bytes). It is proved to give a four-entry report whose total is 160,
  for every host the test server may listen on and for any
  `Content-Type` headers the server sends for the three assets, as long
  as none of them marks an HTML page.

The network and the URL parser are foreign code. A `Site` supplies both:
the parse of every string, and for each URL whether fetching it fails to
connect, fails while reading, or returns a response. A response is given
as its body length, its `Content-Type`, and what the tokenizer yields on
its body.

## Model

| member | source | states |
|---|---|---|
| Strings.Contains | pkg/httputils/page_size.go:61 | the result is true exactly when the marker occurs at some position of the header value |
| Strings.MissingCharacter | pkg/httputils/page_size.go:61 | a header value lacking one of the marker's characters does not contain the marker |
| Path.Elements | pkg/httputils/page_size.go:88 | every element between slashes is non-empty and slash-free; which elements a path has is stated by Path.ElementsSplit and Path.ElementsOfSlashFree |
| Path.ElementsSplit | pkg/httputils/page_size.go:88 | a slash always separates elements: the elements of `p/q` are those of `p` followed by those of `q`, so runs of slashes and leading or trailing slashes add no element |
| Path.ElementsOfSlashFree | pkg/httputils/page_size.go:88 | a string without a slash is a single element, or none when empty; with Path.ElementsSplit this fixes the elements of every path |
| Path.Clean | pkg/httputils/page_size.go:88 | defined as: the empty path cleans to `.`; otherwise the elements are reduced by Path.Step and joined, with a leading `/` when the path is rooted and `.` when nothing is left; its properties are the Path.Clean* lemmas below |
| Path.ReduceAppend | pkg/httputils/page_size.go:88 | reducing consecutive runs of elements is reducing the first run, then the second from where it left off, so each rule applies wherever it occurs |
| Path.ReduceKeepsCanonical | pkg/httputils/page_size.go:88 | applying elements keeps the stack canonical: no `.`, `..` only in a leading run, no `..` at all under a root |
| Path.ReduceCanonicalIsIdentity | pkg/httputils/page_size.go:88 | re-applying a canonical stack's own elements leaves it unchanged |
| Path.ElementsOfJoin | pkg/httputils/page_size.go:88 | splitting a slash-joined list of elements gives the list back, with or without a leading slash |
| Path.JoinShape | pkg/httputils/page_size.go:88 | a join has no doubled slash and neither starts nor ends with a slash |
| Path.CleanRooted | pkg/httputils/page_size.go:88 | cleaning a rooted path gives a path that starts with `/`, has no doubled slash, ends in `/` only when it is `/`, and holds no `.` or `..` element |
| Path.CleanIdempotent | pkg/httputils/page_size.go:88 | cleaning twice is the same as cleaning once |
| Path.CleanRootedNames | pkg/httputils/page_size.go:88 | a rooted path made only of names is already clean |
| Path.CleanCollapsesSlashes | pkg/httputils/page_size.go:88 | a doubled slash anywhere in a path cleans the same as a single slash |
| Path.CleanDropsTrailingSlash | pkg/httputils/page_size.go:88 | a trailing slash on any non-empty path is dropped |
| Path.CleanDropsDot | pkg/httputils/page_size.go:88 | a `.` element anywhere in a path is dropped |
| Path.CleanParentCancels | pkg/httputils/page_size.go:88 | a name followed by `..` cancels out, anywhere in a path |
| Path.CleanDropsRootParent | pkg/httputils/page_size.go:88 | a `..` right after the root is dropped |
| Report.SumRemove | pkg/httputils/page_size.go:18-24 | the sum of the entries is any one entry plus the sum of the rest, so the visiting order does not matter |
| Report.SumUpdate | pkg/httputils/page_size.go:94 | setting one key changes the sum by the new value minus the old one |
| Report.SumBoundsEntries | pkg/httputils/page_size.go:18-24 | with non-negative entries the sum is non-negative and bounds every entry |
| Report.Total | pkg/httputils/page_size.go:18-24 | the loop over the keys, in an arbitrary order, returns the sum of all entries; an empty report totals 0 |
| HtmlExtract.ValuesOfAppend | pkg/httputils/page_size.go:122-127 | the values of consecutive runs of attributes come out in the same order |
| HtmlExtract.CollectAppend | pkg/httputils/page_size.go:107-128 | the values of consecutive runs of tokens come out in the same order |
| HtmlExtract.ValuesOfNonEmpty | pkg/httputils/page_size.go:123-126 | no empty attribute value is kept |
| HtmlExtract.CollectNonEmpty | pkg/httputils/page_size.go:117-127 | no empty value is extracted from any token |
| HtmlExtract.ValuesOfMembers | pkg/httputils/page_size.go:122-127 | a value is kept from a token named `tag` exactly when one of its attributes named `attribute` carries it, non-empty |
| HtmlExtract.CollectMembers | pkg/httputils/page_size.go:107-128 | a value is extracted exactly when some token named `tag` carries it, non-empty, under the key `attribute` |
| HtmlExtract.CollectIsKeepOfCandidates | pkg/httputils/page_size.go:107-128 | the token-by-token filter equals filtering every (token, attribute) pair in document order |
| HtmlExtract.ExtractHTMLTagAttribute | pkg/httputils/page_size.go:101-131 | on EOF the loop returns exactly the filtered values in document order; on any other tokenizer error it returns the error and no values |
| Links.LinkKey | pkg/httputils/page_size.go:83-89 | defined as: an absolute link keeps its own scheme, host and path; a relative one takes the page's scheme and host and `Clean("/" + link)`; its properties are the Links lemmas below |
| Links.AbsoluteLinkKey | pkg/httputils/page_size.go:83-84 | an absolute link resolves to its own scheme, host and path, on any page and whatever query or fragment it carries |
| Links.RelativeLinkKey | pkg/httputils/page_size.go:86-89 | a relative link resolves to the page's scheme and host followed by a rooted, clean path with no `.` or `..` element |
| Links.DotSlashLink | pkg/httputils/page_size.go:86-89 | a link `./name` resolves to the page's origin followed by `/name` |
| Links.ParentLink | pkg/httputils/page_size.go:86-89 | `../x` and `x` resolve to the same key: links never leave the site root |
| PageSizeMeasure.IsHtml | pkg/httputils/page_size.go:61 | defined as: the header value contains the marker `text/html;`; Strings.Contains states what containing means |
| PageSizeMeasure.HtmlMarkerNeedsParameters | pkg/httputils/page_size.go:61 | the usual `text/html; charset=utf-8` header marks an HTML page, but a bare `text/html` does not, since the marker includes the semicolon |
| PageSizeMeasure.Resolved | pkg/httputils/page_size.go:79-89 | defined as: a link that does not parse has no key; one that parses has its Links.LinkKey; PageSizeProperties.LinkKeysMembers and PageSizeProperties.MeasureLinksOutcome state what the walk does with it |
| PageSizeMeasure.ImportedLinksOrder | pkg/httputils/page_size.go:62-77 | the links are the `link`/`href` values, then the `img`/`src` values, then the `video`/`poster` values; a tokenizer failure is an error |
| PageSizeMeasure.GetPageSize | pkg/httputils/page_size.go:37-99 | the method, with its rule loop, its link loop and its recursive calls, returns exactly the specified measurement |
| PageSizeProperties.LinkKeysMembers | pkg/httputils/page_size.go:78-94 | a key is among the links' keys exactly when some link resolves to it |
| PageSizeProperties.MeasureLinksOutcome | pkg/httputils/page_size.go:78-95 | walking the links succeeds exactly when every link parses and every child measurement succeeds; the result is then the starting report with every resolved key set to its child's total |
| PageSizeProperties.MeasureSucceeds | pkg/httputils/page_size.go:37-99 | a measurement succeeds exactly when the URL parses, the fetch and the read succeed and, for an HTML page, the tokenizer reaches EOF and every link is measurable |
| PageSizeProperties.NoSelfLink | pkg/httputils/page_size.go:78-94 | no link of a successfully measured HTML page resolves back to the page itself |
| PageSizeProperties.LinkedKeyMeasured | pkg/httputils/page_size.go:90-93 | every key that a measurable link resolves to measures successfully |
| PageSizeProperties.MeasureReport | pkg/httputils/page_size.go:58-98 | a successful report holds the page's body length under the source URL; a non-HTML page reports only that; an HTML page reports, in addition, each distinct link key with its child's total |
| PageSizeProperties.MeasureTotal | pkg/httputils/page_size.go:58-94 | a successful report totals the body length plus the totals of the distinct keys the links resolve to |
| PageSizeProperties.ScanOnlyHtml | pkg/httputils/page_size.go:61-75 | a non-HTML response reports only its own size; an HTML response whose tokenizer fails is an error |
| PageSizeProperties.MeasureFuel | pkg/httputils/page_size.go:90 | a result other than running out of depth stays the same with a larger bound |
| PageSizeProperties.MeasureLinksStep | pkg/httputils/page_size.go:79-94 | a first link whose key measures successfully is stored under that key with its child's total, and the walk goes on with the rest |
| PageSizeProperties.MeasureLinksFuel | pkg/httputils/page_size.go:78-95 | the same for the walk over the links |
| Fixture.IndexLinks | pkg/httputils/page_size_test.go:16-27 | the test page yields the links `index.css`, `index.js` and `./favicon.ico`, in that order |
| Fixture.CssKey | pkg/httputils/page_size_test.go:21 | `index.css` on the root page resolves to the server's `/index.css` |
| Fixture.JsKey | pkg/httputils/page_size_test.go:22 | `index.js` on the root page resolves to the server's `/index.js` |
| Fixture.IconKey | pkg/httputils/page_size_test.go:23 | `./favicon.ico` on the root page resolves to the server's `/favicon.ico` |
| Fixture.UsualTypeNotHtml | pkg/httputils/page_size_test.go:30-40 | the headers a Go file server usually sends for these files (`text/css`, `text/javascript`, `image/vnd.microsoft.icon`, sniffed `text/plain`, each as it is sent) do not mark an HTML page |
| Fixture.CssMeasure | pkg/httputils/page_size_test.go:30-32 | the stylesheet, under any non-HTML header, is not scanned and reports its 23 bytes |
| Fixture.JsMeasure | pkg/httputils/page_size_test.go:34-36 | the script, under any non-HTML header, is not scanned and reports its 15 bytes |
| Fixture.IconMeasure | pkg/httputils/page_size_test.go:38-40 | the favicon, under any non-HTML header, is not scanned and reports its 4 bytes |
| Fixture.FixtureTotal | pkg/httputils/page_size_test.go:45-54 | measuring the server's root gives four entries whose total is 118 + 23 + 15 + 4 = 160, for any host and any non-HTML asset headers |

## Left out

- HTTP, reading bodies and the HTML tokenizer are foreign code. A `Site` gives their outcomes: connection failure, read failure, or a response with its body length, `Content-Type` and token stream.
- `url.Parse` is foreign code. `Site.parse` gives the parse of every string, and only the scheme, host, path, query and fragment of a URL are modelled.
- The fetch is looked up by the source string itself, where the code fetches `pageURL.String()`. The two are taken to name the same resource.
- `PageSize.String` (pkg/httputils/page_size.go:26-32) formats the total as floating-point megabytes and lists the entries in random order. It is output formatting and is not modelled.
- The `fmt.Println` call at pkg/httputils/page_size.go:104 only writes to standard output and is not modelled.
- Error messages are reduced to their kind (invalid URL, network, read, parse). The wrapped text and the underlying errors are not modelled.
- The command-line entry point (cmd/cli/main.go) is not part of this model.
- PageSizeMeasure.GetPageSize: the code recurses without a bound and does not terminate on a cycle of HTML pages. The model bounds the depth by `fuel` and returns a depth error when it runs out. PageSizeProperties.MeasureFuel shows that the bound never changes a result it lets finish.
- Report.Total: does not model 64-bit wrap-around of Go's `int`; the sum is unbounded.
- `path.Clean` is modelled by its element rules rather than by Go's byte-by-byte loop. Only rooted inputs reach it from the measurement.
- The tag filter compares only a token's name, as the code does, so it applies to every kind of token with that name, not just start tags. The doc comment at pkg/httputils/page_size.go:35-36 speaks of the `<head>` section, but the code scans the whole document, and the model follows the code.
- The fixture's server is modelled only on the four files and the URLs the scenario reaches. Its host and port are left arbitrary, and so are the `Content-Type` headers it sends for the three assets, which depend on Go's MIME table and content sniffing; the scenario requires only that none of them contains `text/html;`.
- PageSizeProperties.NoSelfLink: a `Site` answers every fetch of a URL the same way. The code fetches over the network each time, so a server that answered a page's self-link with a different response would let the link loop overwrite `out[srcURL]` (page_size.go:94, first set at :58); the lemma does not cover such a server.
- PageSizeProperties.MeasureReport: relies on the same assumption: with a server that answers the same URL differently, the body length under the source URL could be replaced by a later child's total.
