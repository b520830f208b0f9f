/** What a measurement promises: when it succeeds, what its report holds;
    when it fails; and that the recursion bound only decides whether a
    measurement finishes, never what it reports. */
module PageSizeProperties {
  import opened Results
  import opened Report
  import opened HtmlExtract
  import opened Links
  import opened PageSizeMeasure

  /** Every link resolves to a key whose measurement succeeds. */
  ghost predicate LinksMeasurable(site: Site, page: URL, links: seq<string>, fuel: nat)
  {
    forall i :: 0 <= i < |links| ==>
      Resolved(site, page, links[i]).Some? && Measure(site, Resolved(site, page, links[i]).value, fuel).Ok?
  }

  /** The keys the links resolve to. */
  function LinkKeys(site: Site, page: URL, links: seq<string>): set<string>
  {
    if links == [] then {}
    else
      (match Resolved(site, page, links[0]) case None => {} case Some(k) => {k})
        + LinkKeys(site, page, links[1..])
  }

  /** Each key in `keys` that measures successfully, with its report's total. */
  ghost function ChildTotals(site: Site, keys: set<string>, fuel: nat): PageSize
  {
    map k | k in keys && Measure(site, k, fuel).Ok? :: Sum(Measure(site, k, fuel).value)
  }

  lemma {:induction false} LinkKeysMembers(site: Site, page: URL, links: seq<string>, k: string)
    ensures k in LinkKeys(site, page, links) <==>
            exists i :: 0 <= i < |links| && Resolved(site, page, links[i]) == Some(k)
    decreases |links|
  {
    if links != [] {
      LinkKeysMembers(site, page, links[1..], k);
      if k in LinkKeys(site, page, links[1..]) {
        var i :| 0 <= i < |links[1..]| && Resolved(site, page, links[1..][i]) == Some(k);
        assert Resolved(site, page, links[i + 1]) == Some(k);
      }
      if exists i :: 0 <= i < |links| && Resolved(site, page, links[i]) == Some(k) {
        var i :| 0 <= i < |links| && Resolved(site, page, links[i]) == Some(k);
        if i > 0 {
          assert links[1..][i - 1] == links[i];
        }
      }
    }
  }

  lemma {:induction false} LinksMeasurableCons(site: Site, page: URL, links: seq<string>, fuel: nat)
    requires links != []
    ensures LinksMeasurable(site, page, links, fuel) <==>
            && Resolved(site, page, links[0]).Some?
            && Measure(site, Resolved(site, page, links[0]).value, fuel).Ok?
            && LinksMeasurable(site, page, links[1..], fuel)
  {
    var rest := links[1..];
    if Resolved(site, page, links[0]).Some? && Measure(site, Resolved(site, page, links[0]).value, fuel).Ok?
       && LinksMeasurable(site, page, rest, fuel)
    {
      forall i | 0 <= i < |links|
        ensures Resolved(site, page, links[i]).Some? && Measure(site, Resolved(site, page, links[i]).value, fuel).Ok?
      {
        if i > 0 {
          assert links[i] == rest[i - 1];
        }
      }
    }
    if LinksMeasurable(site, page, links, fuel) {
      forall i | 0 <= i < |rest|
        ensures Resolved(site, page, rest[i]).Some? && Measure(site, Resolved(site, page, rest[i]).value, fuel).Ok?
      {
        assert rest[i] == links[i + 1];
      }
    }
  }

  /** Adding one measured key to the starting report and then the children
      of the other keys gives the same as adding the children of all keys. */
  lemma ChildTotalsInsert(site: Site, key: string, keys: set<string>, fuel: nat, acc: PageSize)
    requires Measure(site, key, fuel).Ok?
    ensures acc[key := Sum(Measure(site, key, fuel).value)] + ChildTotals(site, keys, fuel)
            == acc + ChildTotals(site, {key} + keys, fuel)
  {
  }

  /** Walking the links succeeds exactly when every link parses and every
      child measurement succeeds; the result is then the starting report
      with each resolved key set to its child's total. */
  lemma {:induction false} MeasureLinksOutcome(site: Site, page: URL, links: seq<string>, fuel: nat, acc: PageSize)
    requires fuel > 0
    ensures MeasureLinks(site, page, links, fuel, acc).Ok? <==> LinksMeasurable(site, page, links, fuel - 1)
    ensures MeasureLinks(site, page, links, fuel, acc).Ok? ==>
            MeasureLinks(site, page, links, fuel, acc).value
            == acc + ChildTotals(site, LinkKeys(site, page, links), fuel - 1)
    decreases |links|
  {
    if links == [] {
      assert ChildTotals(site, {}, fuel - 1) == map[];
    } else {
      var rest := links[1..];
      LinksMeasurableCons(site, page, links, fuel - 1);
      match Resolved(site, page, links[0])
      case None =>
      case Some(key) =>
        match Measure(site, key, fuel - 1)
        case Err(_) =>
        case Ok(child) =>
          var acc' := acc[key := Sum(child)];
          MeasureLinksOutcome(site, page, rest, fuel, acc');
          assert LinkKeys(site, page, links) == {key} + LinkKeys(site, page, rest);
          ChildTotalsInsert(site, key, LinkKeys(site, page, rest), fuel - 1, acc);
    }
  }

  /** A measurement succeeds exactly when the page URL parses, the fetch
      and the read succeed and, for an HTML page, the tokenizer reaches EOF,
      every discovered link parses and every child measurement succeeds.
      Any failure leaves no report at all. */
  lemma MeasureSucceeds(site: Site, src: string, fuel: nat)
    ensures Measure(site, src, fuel).Ok? <==>
      && fuel > 0
      && site.parse(src).Some?
      && FetchOf(site, src).Fetched?
      && var resp := FetchOf(site, src).response;
         (IsHtml(resp.contentType) ==>
            && resp.tokens.end == EndOfFile
            && LinksMeasurable(site, site.parse(src).value, CollectRules(CheckTagAttrs, resp.tokens.tokens), fuel - 1))
  {
    if fuel > 0 && site.parse(src).Some? && FetchOf(site, src).Fetched? {
      var resp := FetchOf(site, src).response;
      if IsHtml(resp.contentType) && resp.tokens.end == EndOfFile {
        MeasureLinksOutcome(site, site.parse(src).value, CollectRules(CheckTagAttrs, resp.tokens.tokens),
                            fuel, map[src := resp.bodyLength]);
      }
    }
  }

  /** A page never links to itself in a measurement that succeeds: such a
      link would measure the same page again, with the same links, until
      the recursion bound ran out. */
  lemma {:induction false} NoSelfLink(site: Site, src: string, fuel: nat)
    requires Measure(site, src, fuel).Ok?
    ensures var resp := FetchOf(site, src).response;
      IsHtml(resp.contentType) ==>
        src !in LinkKeys(site, site.parse(src).value, CollectRules(CheckTagAttrs, resp.tokens.tokens))
    decreases fuel
  {
    MeasureSucceeds(site, src, fuel);
    var page := site.parse(src).value;
    var resp := FetchOf(site, src).response;
    var links := CollectRules(CheckTagAttrs, resp.tokens.tokens);
    if IsHtml(resp.contentType) && src in LinkKeys(site, page, links) {
      LinkedKeyMeasured(site, page, links, src, fuel - 1);
      NoSelfLink(site, src, fuel - 1);
      assert false;
    }
  }

  /** A key that some measurable link resolves to measures successfully. */
  lemma LinkedKeyMeasured(site: Site, page: URL, links: seq<string>, key: string, fuel: nat)
    requires LinksMeasurable(site, page, links, fuel)
    requires key in LinkKeys(site, page, links)
    ensures Measure(site, key, fuel).Ok?
  {
    LinkKeysMembers(site, page, links, key);
    var i :| 0 <= i < |links| && Resolved(site, page, links[i]) == Some(key);
  }


  /** The report of a successful measurement: the page's own entry holds
      its body length; a page that is not HTML has no other entry; an HTML
      page has one more entry per distinct key its links resolve to, holding
      the total of that key's own report (not its breakdown). */
  lemma MeasureReport(site: Site, src: string, fuel: nat)
    requires Measure(site, src, fuel).Ok?
    ensures var rep := Measure(site, src, fuel).value;
      var resp := FetchOf(site, src).response;
      && fuel > 0
      && src in rep && rep[src] == resp.bodyLength
      && (!IsHtml(resp.contentType) ==> rep == map[src := resp.bodyLength])
      && (IsHtml(resp.contentType) ==>
            var keys := LinkKeys(site, site.parse(src).value, CollectRules(CheckTagAttrs, resp.tokens.tokens));
            && src !in keys
            && (forall k :: k in keys ==> Measure(site, k, fuel - 1).Ok?)
            && rep == ChildTotals(site, keys, fuel - 1)[src := resp.bodyLength])
  {
    MeasureSucceeds(site, src, fuel);
    var page := site.parse(src).value;
    var resp := FetchOf(site, src).response;
    if IsHtml(resp.contentType) {
      var links := CollectRules(CheckTagAttrs, resp.tokens.tokens);
      var keys := LinkKeys(site, page, links);
      var own := map[src := resp.bodyLength];
      MeasureLinksOutcome(site, page, links, fuel, own);
      NoSelfLink(site, src, fuel);
      forall k | k in keys ensures Measure(site, k, fuel - 1).Ok? {
        LinkKeysMembers(site, page, links, k);
      }
      assert own + ChildTotals(site, keys, fuel - 1) == ChildTotals(site, keys, fuel - 1)[src := resp.bodyLength];
    }
  }

  /** The total of a successful measurement is the page's body length plus
      the totals of the distinct keys its links resolve to. */
  lemma MeasureTotal(site: Site, src: string, fuel: nat)
    requires Measure(site, src, fuel).Ok?
    ensures var rep := Measure(site, src, fuel).value;
      var resp := FetchOf(site, src).response;
      Sum(rep) == resp.bodyLength +
        if IsHtml(resp.contentType)
        then Sum(ChildTotals(site, LinkKeys(site, site.parse(src).value, CollectRules(CheckTagAttrs, resp.tokens.tokens)), fuel - 1))
        else 0
  {
    MeasureReport(site, src, fuel);
    var resp := FetchOf(site, src).response;
    if IsHtml(resp.contentType) {
      var keys := LinkKeys(site, site.parse(src).value, CollectRules(CheckTagAttrs, resp.tokens.tokens));
      SumUpdate(ChildTotals(site, keys, fuel - 1), src, resp.bodyLength);
    } else {
      SumUpdate(map[], src, resp.bodyLength);
    }
  }

  /** Only a page whose Content-Type contains "text/html;" is scanned: any
      other page reports just its own size, whatever its body would
      tokenize to, while an HTML page whose tokenizer fails is an error. */
  lemma ScanOnlyHtml(site: Site, src: string, fuel: nat)
    requires fuel > 0 && site.parse(src).Some? && FetchOf(site, src).Fetched?
    ensures var resp := FetchOf(site, src).response;
      && (!IsHtml(resp.contentType) ==> Measure(site, src, fuel) == Ok(map[src := resp.bodyLength]))
      && (IsHtml(resp.contentType) && resp.tokens.end == ReadFailure ==> Measure(site, src, fuel) == Err(ParseError))
  {
  }

  /** The bound on nested calls only decides whether a measurement finishes:
      any outcome other than running out of depth stays the same with more
      depth. */
  lemma {:induction false} MeasureFuel(site: Site, src: string, fuel: nat)
    requires Measure(site, src, fuel) != Err(DepthExceeded)
    ensures Measure(site, src, fuel + 1) == Measure(site, src, fuel)
    decreases fuel, 1
  {
    match site.parse(src)
    case None =>
    case Some(page) =>
      match FetchOf(site, src)
      case ConnectionFailed =>
      case BodyReadFailed =>
      case Fetched(resp) =>
        if IsHtml(resp.contentType) && resp.tokens.end == EndOfFile {
          MeasureLinksFuel(site, page, CollectRules(CheckTagAttrs, resp.tokens.tokens), fuel, map[src := resp.bodyLength]);
        }
  }

  /** One step of the walk over the links: a first link that resolves to a
      key whose measurement succeeds is stored, and the walk goes on. */
  lemma MeasureLinksStep(site: Site, page: URL, links: seq<string>, fuel: nat, acc: PageSize, key: string, child: PageSize)
    requires fuel > 0 && links != []
    requires Resolved(site, page, links[0]) == Some(key)
    requires Measure(site, key, fuel - 1) == Ok(child)
    ensures MeasureLinks(site, page, links, fuel, acc) == MeasureLinks(site, page, links[1..], fuel, acc[key := Sum(child)])
  {
  }

  lemma {:induction false} MeasureLinksFuel(site: Site, page: URL, links: seq<string>, fuel: nat, acc: PageSize)
    requires fuel > 0
    requires MeasureLinks(site, page, links, fuel, acc) != Err(DepthExceeded)
    ensures MeasureLinks(site, page, links, fuel + 1, acc) == MeasureLinks(site, page, links, fuel, acc)
    decreases fuel, 0, |links|
  {
    if links != [] {
      var r := Resolved(site, page, links[0]);
      if r.Some? {
        var key := r.value;
        var m := Measure(site, key, fuel - 1);
        if m != Err(DepthExceeded) {
          MeasureFuel(site, key, fuel - 1);
          if m.Ok? {
            MeasureLinksStep(site, page, links, fuel, acc, key, m.value);
            MeasureLinksStep(site, page, links, fuel + 1, acc, key, m.value);
            MeasureLinksFuel(site, page, links[1..], fuel, acc[key := Sum(m.value)]);
          }
        }
      }
    }
  }
}
