/** The shape handling of `extract_urls_from_sitemap`: given a sitemap
    document already parsed into nested mappings, collect the `loc` of every
    entry under `urlset/url`, or else under `sitemapindex/sitemap`. Fetching
    and parsing the XML are not modelled: the parsed document is the input. */
module Sitemap {
  import opened Results

  type Url = string

  /** One `<url>` or `<sitemap>` element as parsed: a mapping that may or
      may not hold a `loc` key. */
  datatype Info = Info(loc: Option<Url>)

  /** The value under `url` or `sitemap`. The XML parser collapses a
      single child element into a bare mapping and gives a list for
      several, so both shapes appear. */
  datatype Entries = Single(info: Info) | Many(infos: seq<Info>)

  /** A parsed sitemap document, reduced to the two places the resolver
      looks at. `urlset` is `Some(e)` when the document has a `urlset` key
      whose value is a mapping with a `url` key holding `e`, and `None` when
      there is no `urlset` key or its mapping has no `url` key; likewise
      `sitemapindex` with its `sitemap` key. A `urlset` or `sitemapindex`
      value that is not a mapping, and a `loc` that is not text, have no
      encoding here. */
  datatype Document = Document(urlset: Option<Entries>, sitemapindex: Option<Entries>)

  /** The `KeyError` raised by `info['loc']` when an entry has no `loc`;
      nothing catches it, so it ends the run. */
  datatype SitemapError = MissingLoc

  /** A single entry made into a one-element list; a list kept as it is. */
  function AsList(e: Entries): (r: seq<Info>)
    ensures e.Single? ==> |r| == 1 && r[0] == e.info
    ensures e.Many? ==> r == e.infos
  {
    match e
    case Single(info) => [info]
    case Many(infos) => infos
  }

  /** `[info['loc'] for info in infos]`: the locations in order, or the
      error when one of the entries has none. */
  function Locs(infos: seq<Info>): (r: Result<seq<Url>, SitemapError>)
    ensures r.Success? <==> forall i :: 0 <= i < |infos| ==> infos[i].loc.Some?
    ensures r.Success? ==> |r.value| == |infos|
    ensures r.Success? ==> forall i :: 0 <= i < |infos| ==> r.value[i] == infos[i].loc.value
  {
    if infos == [] then Success([])
    else
      match infos[0].loc
      case None => Failure(MissingLoc)
      case Some(u) =>
        match Locs(infos[1..])
        case Failure(e) => Failure(e)
        case Success(us) => Success([u] + us)
  }

  /** `extract_urls_from_sitemap` once the document is parsed. The `urlset`
      shape is tested first, so it wins when both shapes are present. */
  function ExtractUrls(doc: Document): Result<seq<Url>, SitemapError>
  {
    if doc.urlset.Some? then Locs(AsList(doc.urlset.value))
    else if doc.sitemapindex.Some? then Locs(AsList(doc.sitemapindex.value))
    else Success([])
  }

  /** A `urlset` or `sitemapindex` with N entries that all have a `loc`
      yields exactly those N locations, in document order; if one of them
      has none, the resolver fails. */
  lemma EntriesInOrder(doc: Document, infos: seq<Info>)
    requires doc.urlset == Some(Many(infos)) || (doc.urlset.None? && doc.sitemapindex == Some(Many(infos)))
    ensures ExtractUrls(doc).Success? <==> forall i :: 0 <= i < |infos| ==> infos[i].loc.Some?
    ensures ExtractUrls(doc).Success? ==>
      |ExtractUrls(doc).value| == |infos| &&
      forall i :: 0 <= i < |infos| ==> ExtractUrls(doc).value[i] == infos[i].loc.value
  {
  }

  /** A collapsed single entry yields a one-element list. */
  lemma SingleEntry(doc: Document, u: Url)
    requires doc.urlset == Some(Single(Info(Some(u)))) ||
             (doc.urlset.None? && doc.sitemapindex == Some(Single(Info(Some(u)))))
    ensures ExtractUrls(doc) == Success([u])
  {
    var r := Locs([Info(Some(u))]);
    assert r.Success? && |r.value| == 1 && r.value[0] == u;
    assert r.value == [u];
  }

  /** A collapsed single entry without `loc` makes the resolver fail. */
  lemma SingleEntryWithoutLoc(doc: Document)
    requires doc.urlset == Some(Single(Info(None))) ||
             (doc.urlset.None? && doc.sitemapindex == Some(Single(Info(None))))
    ensures ExtractUrls(doc) == Failure(MissingLoc)
  {
  }

  /** A document with neither shape yields the empty list. */
  lemma NeitherShape(doc: Document)
    requires doc.urlset.None? && doc.sitemapindex.None?
    ensures ExtractUrls(doc) == Success([])
  {
  }

  /** When both shapes are present the `sitemapindex` entries are ignored. */
  lemma UrlSetTakesPrecedence(urls: Entries, sitemaps: Entries, other: Entries)
    ensures ExtractUrls(Document(Some(urls), Some(sitemaps))) == ExtractUrls(Document(Some(urls), Some(other)))
    ensures ExtractUrls(Document(Some(urls), Some(sitemaps))) == ExtractUrls(Document(Some(urls), None))
  {
  }
}
