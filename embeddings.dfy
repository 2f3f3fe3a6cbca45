/** The driver of create_embeddings.py: it resolves the sitemap, keeps the
    pages whose URL contains the filter (expanding nested sitemaps one level
    deep), extracts each page's text, and splits every text into chunks that
    carry their page's URL as metadata. Fetching, parsing, splitting and the
    vector index are outside the model: the fetched-and-parsed documents,
    the visible text of each page and the splitter are parameters. */
module Embeddings {
  import opened Results
  import opened Strings
  import opened TextExtraction
  import opened Sitemap

  /** The defaults of the `--sitemap` and `--filter` arguments. */
  const DefaultSitemap: Url := "https://www.fundraisingscript.com/sitemap.xml"
  const DefaultFilter: string := "https://www.neuharlingersiel.de/veranstaltung"

  /** A top-level entry whose URL ends with this is expanded as a sitemap. */
  const SitemapSuffix: string := "sitemap.xml"

  /** `{'text': ..., 'source': ...}`: a page's normalised text and its URL. */
  datatype Page = Page(text: string, source: Url)

  /** `{"source": ...}`: the metadata attached to every chunk. */
  datatype Metadata = Metadata(source: Url)

  // ---------------------------------------------------------------------
  // Page selection
  // ---------------------------------------------------------------------

  /** The URLs of `urls` that contain `filter`, in their order. */
  function Matching(urls: seq<Url>, filter: string): (r: seq<Url>)
    ensures |r| <= |urls|
    ensures forall i :: 0 <= i < |r| ==> Contains(r[i], filter)
    decreases |urls|
  {
    if urls == [] then []
    else
      var init, last := urls[..|urls| - 1], urls[|urls| - 1];
      Matching(init, filter) + (if Contains(last, filter) then [last] else [])
  }

  /** Matching keeps exactly the URLs that contain the filter. */
  lemma {:induction false} MatchingMembers(urls: seq<Url>, filter: string, u: Url)
    ensures u in Matching(urls, filter) <==> u in urls && Contains(u, filter)
    decreases |urls|
  {
    if urls != [] {
      var init, last := urls[..|urls| - 1], urls[|urls| - 1];
      assert urls == init + [last];
      MatchingMembers(init, filter, u);
    }
  }

  /** Filtering two runs of URLs one after the other gives the first run's
      matches followed by the second's: the order of `urls` is kept. */
  lemma {:induction false} MatchingAppend(a: seq<Url>, b: seq<Url>, filter: string)
    ensures Matching(a + b, filter) == Matching(a, filter) + Matching(b, filter)
    decreases |b|
  {
    if b == [] {
      assert a + b == a;
      assert Matching(a, filter) + [] == Matching(a, filter);
    } else {
      var init, last := b[..|b| - 1], b[|b| - 1];
      var tail := if Contains(last, filter) then [last] else [];
      assert (a + b)[..|a + b| - 1] == a + init;
      assert (a + b)[|a + b| - 1] == last;
      MatchingAppend(a, init, filter);
      assert (Matching(a, filter) + Matching(init, filter)) + tail
          == Matching(a, filter) + (Matching(init, filter) + tail);
    }
  }

  /** A top-level entry that names a sitemap whose document cannot be
      resolved (one of its entries has no `loc`). */
  predicate Unresolvable(entry: Url, fetch: Url -> Document)
  {
    EndsWith(entry, SitemapSuffix) && ExtractUrls(fetch(entry)).Failure?
  }

  /** The sources one top-level entry contributes: the matching children of
      an entry that names a sitemap, or the entry itself when it matches. */
  function EntrySources(entry: Url, filter: string, fetch: Url -> Document): (r: Result<seq<Url>, SitemapError>)
    ensures r.Failure? <==> Unresolvable(entry, fetch)
    ensures r.Success? ==> forall i :: 0 <= i < |r.value| ==> Contains(r.value[i], filter)
  {
    if EndsWith(entry, SitemapSuffix) then
      match ExtractUrls(fetch(entry))
      case Failure(e) => Failure(e)
      case Success(children) => Success(Matching(children, filter))
    else if Contains(entry, filter) then Success([entry])
    else Success([])
  }

  /** Sources collected one after the other: the first failure ends the run. */
  function AppendSources(r1: Result<seq<Url>, SitemapError>, r2: Result<seq<Url>, SitemapError>): Result<seq<Url>, SitemapError>
  {
    match r1
    case Failure(e) => Failure(e)
    case Success(s1) =>
      match r2
      case Failure(e) => Failure(e)
      case Success(s2) => Success(s1 + s2)
  }

  /** The sources the selection loop collects from the top-level entries
      `top`, in top-level order and, within an expanded sitemap, in child
      order; the first sitemap that cannot be resolved ends the run. */
  function SelectedSources(top: seq<Url>, filter: string, fetch: Url -> Document): Result<seq<Url>, SitemapError>
    decreases |top|
  {
    if top == [] then Success([])
    else AppendSources(SelectedSources(top[..|top| - 1], filter, fetch), EntrySources(top[|top| - 1], filter, fetch))
  }

  /** The sources of all pages a run starting from `sitemap` collects. */
  function Sources(sitemap: Url, filter: string, fetch: Url -> Document): Result<seq<Url>, SitemapError>
  {
    match ExtractUrls(fetch(sitemap))
    case Failure(e) => Failure(e)
    case Success(top) => SelectedSources(top, filter, fetch)
  }

  /** The page built for each source, with the text `extractText` gives it. */
  function PagesOf(sources: seq<Url>, extractText: Url -> string): seq<Page>
  {
    seq(|sources|, i requires 0 <= i < |sources| => Page(extractText(sources[i]), sources[i]))
  }

  /** Every selected page carries a source that contains the filter and
      the text extracted from that source. */
  lemma SelectedPages(sitemap: Url, filter: string, fetch: Url -> Document, extractText: Url -> string)
    requires Sources(sitemap, filter, fetch).Success?
    ensures var pages := PagesOf(Sources(sitemap, filter, fetch).value, extractText);
      forall i :: 0 <= i < |pages| ==>
        Contains(pages[i].source, filter) && pages[i].text == extractText(pages[i].source)
  {
    SelectedSourcesMatch(ExtractUrls(fetch(sitemap)).value, filter, fetch);
  }

  /** The selection loop of the driver (`pages = []` and the two nested
      `for` loops). `fetch` stands for fetching and parsing a sitemap,
      `extractText` for `extract_text_from`. */
  method SelectPages(sitemap: Url, filter: string, fetch: Url -> Document, extractText: Url -> string)
    returns (r: Result<seq<Page>, SitemapError>)
    ensures r.Success? <==> Sources(sitemap, filter, fetch).Success?
    ensures r.Success? ==> r.value == PagesOf(Sources(sitemap, filter, fetch).value, extractText)
  {
    var resolved := ExtractUrls(fetch(sitemap));
    if resolved.Failure? {
      return Failure(resolved.error);
    }
    var sitemapUrls := resolved.value;
    var pages: seq<Page> := [];
    ghost var sources: seq<Url> := [];
    var i := 0;
    while i < |sitemapUrls|
      invariant 0 <= i <= |sitemapUrls|
      invariant SelectedSources(sitemapUrls[..i], filter, fetch) == Success(sources)
      invariant pages == PagesOf(sources, extractText)
    {
      var sitemapUrl := sitemapUrls[i];
      if EndsWith(sitemapUrl, SitemapSuffix) {
        var children := ExtractUrls(fetch(sitemapUrl));
        if children.Failure? {
          FailedEntryStep(sitemapUrls, i, filter, fetch);
          return Failure(children.error);
        }
        SitemapEntryStep(sitemapUrls, i, sources, children.value, filter, fetch);
        pages := AppendMatchingPages(pages, children.value, filter, extractText);
        PagesOfAppend(sources, Matching(children.value, filter), extractText);
        sources := sources + Matching(children.value, filter);
      } else if Contains(sitemapUrl, filter) {
        PageEntryStep(sitemapUrls, i, sources, filter, fetch);
        PagesOfSnoc(sources, sitemapUrl, extractText);
        pages := pages + [Page(extractText(sitemapUrl), sitemapUrl)];
        sources := sources + [sitemapUrl];
      } else {
        PageEntryStep(sitemapUrls, i, sources, filter, fetch);
      }
      i := i + 1;
    }
    assert sitemapUrls[..i] == sitemapUrls;
    return Success(pages);
  }

  /** The inner loop of the selection (`for url in urls`): the pages of
      the children that contain the filter are appended, in child order. */
  method AppendMatchingPages(pages: seq<Page>, urls: seq<Url>, filter: string, extractText: Url -> string)
    returns (result: seq<Page>)
    ensures result == pages + PagesOf(Matching(urls, filter), extractText)
  {
    result := pages;
    var j := 0;
    while j < |urls|
      invariant 0 <= j <= |urls|
      invariant result == pages + PagesOf(Matching(urls[..j], filter), extractText)
    {
      var url := urls[j];
      MatchingStep(urls, j, filter);
      if Contains(url, filter) {
        PagesOfSnoc(Matching(urls[..j], filter), url, extractText);
        result := result + [Page(extractText(url), url)];
      } else {
        assert Matching(urls[..j + 1], filter) == Matching(urls[..j], filter);
      }
      j := j + 1;
    }
    assert urls[..j] == urls;
  }

  lemma SelectedSourcesStep(top: seq<Url>, i: nat, filter: string, fetch: Url -> Document)
    requires i < |top|
    ensures SelectedSources(top[..i + 1], filter, fetch) ==
      AppendSources(SelectedSources(top[..i], filter, fetch), EntrySources(top[i], filter, fetch))
  {
    assert top[..i + 1][..i] == top[..i];
    assert top[..i + 1][i] == top[i];
  }

  /** A top-level sitemap entry that resolves adds its matching children. */
  lemma SitemapEntryStep(top: seq<Url>, i: nat, sources: seq<Url>, children: seq<Url>, filter: string, fetch: Url -> Document)
    requires i < |top| && SelectedSources(top[..i], filter, fetch) == Success(sources)
    requires EndsWith(top[i], SitemapSuffix) && ExtractUrls(fetch(top[i])) == Success(children)
    ensures SelectedSources(top[..i + 1], filter, fetch) == Success(sources + Matching(children, filter))
  {
    SelectedSourcesStep(top, i, filter, fetch);
  }

  /** A top-level page entry adds itself when it matches, and nothing otherwise. */
  lemma PageEntryStep(top: seq<Url>, i: nat, sources: seq<Url>, filter: string, fetch: Url -> Document)
    requires i < |top| && SelectedSources(top[..i], filter, fetch) == Success(sources)
    requires !EndsWith(top[i], SitemapSuffix)
    ensures Contains(top[i], filter) ==> SelectedSources(top[..i + 1], filter, fetch) == Success(sources + [top[i]])
    ensures !Contains(top[i], filter) ==> SelectedSources(top[..i + 1], filter, fetch) == Success(sources)
  {
    SelectedSourcesStep(top, i, filter, fetch);
    assert sources + [] == sources;
  }

  /** A top-level sitemap entry that does not resolve ends the whole run. */
  lemma FailedEntryStep(top: seq<Url>, i: nat, filter: string, fetch: Url -> Document)
    requires i < |top| && SelectedSources(top[..i], filter, fetch).Success?
    requires EndsWith(top[i], SitemapSuffix) && ExtractUrls(fetch(top[i])).Failure?
    ensures SelectedSources(top, filter, fetch) == Failure(ExtractUrls(fetch(top[i])).error)
  {
    SelectedSourcesStep(top, i, filter, fetch);
    SelectedSourcesAppend(top[..i + 1], top[i + 1..], filter, fetch);
    assert top[..i + 1] + top[i + 1..] == top;
  }

  lemma MatchingStep(urls: seq<Url>, j: nat, filter: string)
    requires j < |urls|
    ensures Matching(urls[..j + 1], filter) ==
      Matching(urls[..j], filter) + (if Contains(urls[j], filter) then [urls[j]] else [])
  {
    assert urls[..j + 1][..j] == urls[..j];
    assert urls[..j + 1][j] == urls[j];
  }

  lemma PagesOfSnoc(sources: seq<Url>, u: Url, extractText: Url -> string)
    ensures PagesOf(sources + [u], extractText) == PagesOf(sources, extractText) + [Page(extractText(u), u)]
  {
  }

  lemma PagesOfAppend(a: seq<Url>, b: seq<Url>, extractText: Url -> string)
    ensures PagesOf(a + b, extractText) == PagesOf(a, extractText) + PagesOf(b, extractText)
  {
  }

  lemma AppendSourcesAssociative(r1: Result<seq<Url>, SitemapError>, r2: Result<seq<Url>, SitemapError>, r3: Result<seq<Url>, SitemapError>)
    ensures AppendSources(AppendSources(r1, r2), r3) == AppendSources(r1, AppendSources(r2, r3))
  {
    if r1.Success? && r2.Success? && r3.Success? {
      assert (r1.value + r2.value) + r3.value == r1.value + (r2.value + r3.value);
    }
  }

  /** Selecting from two runs of top-level entries one after the other
      gives the first run's sources followed by the second's, and succeeds
      exactly when both do. */
  lemma {:induction false} SelectedSourcesAppend(a: seq<Url>, b: seq<Url>, filter: string, fetch: Url -> Document)
    ensures SelectedSources(a + b, filter, fetch) ==
      AppendSources(SelectedSources(a, filter, fetch), SelectedSources(b, filter, fetch))
    decreases |b|
  {
    if b == [] {
      assert a + b == a;
      var r := SelectedSources(a, filter, fetch);
      assert r.Success? ==> r.value + [] == r.value;
    } else {
      var init, last := b[..|b| - 1], b[|b| - 1];
      assert (a + b)[..|a + b| - 1] == a + init;
      assert (a + b)[|a + b| - 1] == last;
      SelectedSourcesAppend(a, init, filter, fetch);
      AppendSourcesAssociative(SelectedSources(a, filter, fetch), SelectedSources(init, filter, fetch), EntrySources(last, filter, fetch));
    }
  }

  /** The selection fails exactly when one of the top-level entries is an
      unresolvable sitemap. */
  lemma {:induction false} SelectedSourcesFails(top: seq<Url>, filter: string, fetch: Url -> Document)
    ensures SelectedSources(top, filter, fetch).Failure? <==> exists t :: t in top && Unresolvable(t, fetch)
    decreases |top|
  {
    if top != [] {
      var init, last := top[..|top| - 1], top[|top| - 1];
      assert top == init + [last];
      SelectedSourcesFails(init, filter, fetch);
      if exists t :: t in top && Unresolvable(t, fetch) {
        var t :| t in top && Unresolvable(t, fetch);
        if t != last {
          assert t in init;
        }
      }
      if Unresolvable(last, fetch) {
        assert last in top;
      }
      if exists t :: t in init && Unresolvable(t, fetch) {
        var t :| t in init && Unresolvable(t, fetch);
        assert t in top;
      }
    }
  }

  /** A run fails exactly when the starting sitemap cannot be resolved or
      one of its entries is an unresolvable sitemap. */
  lemma SourcesFails(sitemap: Url, filter: string, fetch: Url -> Document)
    ensures Sources(sitemap, filter, fetch).Failure? <==>
      ExtractUrls(fetch(sitemap)).Failure? ||
      exists t :: t in ExtractUrls(fetch(sitemap)).value && Unresolvable(t, fetch)
  {
    if ExtractUrls(fetch(sitemap)).Success? {
      SelectedSourcesFails(ExtractUrls(fetch(sitemap)).value, filter, fetch);
    }
  }

  /** Every selected source contains the filter. */
  lemma {:induction false} SelectedSourcesMatch(top: seq<Url>, filter: string, fetch: Url -> Document)
    requires SelectedSources(top, filter, fetch).Success?
    ensures forall i :: 0 <= i < |SelectedSources(top, filter, fetch).value| ==>
      Contains(SelectedSources(top, filter, fetch).value[i], filter)
    decreases |top|
  {
    if top != [] {
      SelectedSourcesMatch(top[..|top| - 1], filter, fetch);
    }
  }

  /** Whether `u` comes out of top-level entry `entry` before filtering:
      a child of a sitemap entry, or the entry itself otherwise. */
  predicate Yields(entry: Url, u: Url, fetch: Url -> Document)
  {
    if EndsWith(entry, SitemapSuffix) then
      ExtractUrls(fetch(entry)).Success? && u in ExtractUrls(fetch(entry)).value
    else u == entry
  }

  lemma EntrySourcesMembers(entry: Url, filter: string, fetch: Url -> Document, u: Url)
    requires EntrySources(entry, filter, fetch).Success?
    ensures u in EntrySources(entry, filter, fetch).value <==> Contains(u, filter) && Yields(entry, u, fetch)
  {
    if EndsWith(entry, SitemapSuffix) {
      MatchingMembers(ExtractUrls(fetch(entry)).value, filter, u);
    }
  }

  /** A URL is selected exactly when it contains the filter and is either a
      top-level entry that does not name a sitemap or a child of one that
      does. Children of children never appear: expansion is one level. */
  lemma {:induction false} SelectedSourcesMembers(top: seq<Url>, filter: string, fetch: Url -> Document, u: Url)
    requires SelectedSources(top, filter, fetch).Success?
    ensures u in SelectedSources(top, filter, fetch).value <==>
      Contains(u, filter) && exists t :: t in top && Yields(t, u, fetch)
    decreases |top|
  {
    if top != [] {
      var init, last := top[..|top| - 1], top[|top| - 1];
      assert top == init + [last];
      SelectedSourcesMembers(init, filter, fetch, u);
      EntrySourcesMembers(last, filter, fetch, u);
      if Contains(u, filter) && exists t :: t in top && Yields(t, u, fetch) {
        var t :| t in top && Yields(t, u, fetch);
        if t != last {
          assert t in init;
        }
      }
    }
  }

  /** The selection reads the fetched documents of the top-level sitemap
      entries and of nothing else: nested sitemaps are never fetched. */
  lemma {:induction false} SelectedSourcesFetchesTopLevelOnly(top: seq<Url>, filter: string, fetch: Url -> Document, fetch': Url -> Document)
    requires forall t :: t in top && EndsWith(t, SitemapSuffix) ==> fetch(t) == fetch'(t)
    ensures SelectedSources(top, filter, fetch) == SelectedSources(top, filter, fetch')
    decreases |top|
  {
    if top != [] {
      var init := top[..|top| - 1];
      assert forall t :: t in init ==> t in top;
      SelectedSourcesFetchesTopLevelOnly(init, filter, fetch, fetch');
      assert EntrySources(top[|top| - 1], filter, fetch) == EntrySources(top[|top| - 1], filter, fetch');
    }
  }

  // ---------------------------------------------------------------------
  // Chunking
  // ---------------------------------------------------------------------

  /** `[x] * n`. */
  function Repeat<T>(x: T, n: nat): (r: seq<T>)
    ensures |r| == n
    ensures forall i :: 0 <= i < n ==> r[i] == x
  {
    seq(n, _ => x)
  }

  /** `docs` after the chunking loop: the splits of every page, in page order. */
  function AllChunks(pages: seq<Page>, split: string -> seq<string>): seq<string>
    decreases |pages|
  {
    if pages == [] then []
    else AllChunks(pages[..|pages| - 1], split) + split(pages[|pages| - 1].text)
  }

  /** `metadatas` after the chunking loop: for every page, one copy of its
      source per split; exactly as long as the chunk list. */
  function AllMetadatas(pages: seq<Page>, split: string -> seq<string>): (r: seq<Metadata>)
    ensures |r| == |AllChunks(pages, split)|
    decreases |pages|
  {
    if pages == [] then []
    else
      var last := pages[|pages| - 1];
      AllMetadatas(pages[..|pages| - 1], split) + Repeat(Metadata(last.source), |split(last.text)|)
  }

  /** The chunking loop of the driver (`docs, metadatas = [], []` and the
      `for page in pages` loop). `split` stands for the text splitter. */
  method BuildChunks(pages: seq<Page>, split: string -> seq<string>)
    returns (docs: seq<string>, metadatas: seq<Metadata>)
    ensures docs == AllChunks(pages, split)
    ensures metadatas == AllMetadatas(pages, split)
    ensures |docs| == |metadatas|
  {
    docs, metadatas := [], [];
    var i := 0;
    while i < |pages|
      invariant 0 <= i <= |pages|
      invariant docs == AllChunks(pages[..i], split)
      invariant metadatas == AllMetadatas(pages[..i], split)
    {
      var page := pages[i];
      assert pages[..i + 1][..i] == pages[..i];
      assert pages[..i + 1][i] == page;
      var splits := split(page.text);
      docs := docs + splits;
      metadatas := metadatas + Repeat(Metadata(page.source), |splits|);
      i := i + 1;
    }
    assert pages[..i] == pages;
  }

  /** Where chunk `i` comes from: the page and the position among that
      page's splits. The chunk is that split, and its metadata names that
      page's source. */
  function Origin(pages: seq<Page>, split: string -> seq<string>, i: nat): (o: (nat, nat))
    requires i < |AllChunks(pages, split)|
    ensures o.0 < |pages| && o.1 < |split(pages[o.0].text)|
    ensures AllChunks(pages, split)[i] == split(pages[o.0].text)[o.1]
    ensures AllMetadatas(pages, split)[i] == Metadata(pages[o.0].source)
    ensures i == |AllChunks(pages[..o.0], split)| + o.1
    decreases |pages|
  {
    var init := pages[..|pages| - 1];
    var before := AllChunks(init, split);
    if i < |before| then
      var o := Origin(init, split, i);
      assert init[o.0] == pages[o.0];
      assert init[..o.0] == pages[..o.0];
      o
    else
      (|pages| - 1, i - |before|)
  }

  /** Chunking two runs of pages one after the other gives the first run's
      chunks followed by the second's. */
  lemma {:induction false} ChunksAppend(p: seq<Page>, q: seq<Page>, split: string -> seq<string>)
    ensures AllChunks(p + q, split) == AllChunks(p, split) + AllChunks(q, split)
    decreases |q|
  {
    if q == [] {
      assert p + q == p;
    } else {
      var init, last := q[..|q| - 1], q[|q| - 1];
      assert (p + q)[..|p + q| - 1] == p + init;
      assert (p + q)[|p + q| - 1] == last;
      ChunksAppend(p, init, split);
      assert AllChunks(p + q, split) == AllChunks(p + init, split) + split(last.text);
      assert AllChunks(q, split) == AllChunks(init, split) + split(last.text);
      assert (AllChunks(p, split) + AllChunks(init, split)) + split(last.text)
          == AllChunks(p, split) + (AllChunks(init, split) + split(last.text));
    }
  }

  /** The same for the metadata list. */
  lemma {:induction false} MetadatasAppend(p: seq<Page>, q: seq<Page>, split: string -> seq<string>)
    ensures AllMetadatas(p + q, split) == AllMetadatas(p, split) + AllMetadatas(q, split)
    decreases |q|
  {
    if q == [] {
      assert p + q == p;
    } else {
      var init, last := q[..|q| - 1], q[|q| - 1];
      assert (p + q)[..|p + q| - 1] == p + init;
      assert (p + q)[|p + q| - 1] == last;
      MetadatasAppend(p, init, split);
      var copies := Repeat(Metadata(last.source), |split(last.text)|);
      assert AllMetadatas(p + q, split) == AllMetadatas(p + init, split) + copies;
      assert AllMetadatas(q, split) == AllMetadatas(init, split) + copies;
      assert (AllMetadatas(p, split) + AllMetadatas(init, split)) + copies
          == AllMetadatas(p, split) + (AllMetadatas(init, split) + copies);
    }
  }

  // ---------------------------------------------------------------------
  // The run
  // ---------------------------------------------------------------------

  /** `extract_text_from`: the text of a page is its visible text, normalised. */
  function PageText(visibleText: Url -> string): Url -> string
  {
    u => ExtractTextFrom(u, visibleText)
  }

  /** The `__main__` block up to building the vector index: select the
      pages, then chunk them. `visibleText` stands for fetching a page and
      taking its visible text, `split` for the text splitter. */
  method CreateEmbeddings(sitemap: Url, filter: string, fetch: Url -> Document,
                          visibleText: Url -> string, split: string -> seq<string>)
    returns (r: Result<(seq<string>, seq<Metadata>), SitemapError>)
    ensures r.Success? <==> Sources(sitemap, filter, fetch).Success?
    ensures r.Success? ==>
      var pages := PagesOf(Sources(sitemap, filter, fetch).value, PageText(visibleText));
      r.value.0 == AllChunks(pages, split) && r.value.1 == AllMetadatas(pages, split)
    ensures r.Success? ==> |r.value.0| == |r.value.1|
  {
    var pages := SelectPages(sitemap, filter, fetch, PageText(visibleText));
    if pages.Failure? {
      return Failure(pages.error);
    }
    var docs, metadatas := BuildChunks(pages.value, split);
    return Success((docs, metadatas));
  }

  /** A sitemap index with two child sitemaps, each listing one matching and
      one non-matching page, gives exactly the two matching pages; when each
      page's text makes one chunk, the run yields two chunks tagged with
      those pages' URLs. */
  lemma TwoChildSitemaps(root: Url, s1: Url, s2: Url, m1: Url, n1: Url, m2: Url, n2: Url, filter: string,
                         fetch: Url -> Document, extractText: Url -> string, split: string -> seq<string>)
    requires fetch(root) == Document(None, Some(Many([Info(Some(s1)), Info(Some(s2))])))
    requires EndsWith(s1, SitemapSuffix) && EndsWith(s2, SitemapSuffix)
    requires fetch(s1) == Document(Some(Many([Info(Some(m1)), Info(Some(n1))])), None)
    requires fetch(s2) == Document(Some(Many([Info(Some(n2)), Info(Some(m2))])), None)
    requires Contains(m1, filter) && Contains(m2, filter) && !Contains(n1, filter) && !Contains(n2, filter)
    requires |split(extractText(m1))| == 1 && |split(extractText(m2))| == 1
    ensures Sources(root, filter, fetch) == Success([m1, m2])
    ensures AllChunks(PagesOf([m1, m2], extractText), split) ==
      split(extractText(m1)) + split(extractText(m2))
    ensures AllMetadatas(PagesOf([m1, m2], extractText), split) == [Metadata(m1), Metadata(m2)]
  {
    LocsTwo(s1, s2);
    assert ExtractUrls(fetch(root)) == Success([s1, s2]);
    ChildSitemap(s1, m1, n1, m1, filter, fetch);
    ChildSitemap(s2, n2, m2, m2, filter, fetch);
    SelectedSourcesTwo(s1, s2, m1, m2, filter, fetch);
    PagesOfTwo(m1, m2, extractText);
    TwoPagesChunks(Page(extractText(m1), m1), Page(extractText(m2), m2), split);
  }

  lemma LocsTwo(a: Url, b: Url)
    ensures Locs([Info(Some(a)), Info(Some(b))]) == Success([a, b])
  {
    var r := Locs([Info(Some(a)), Info(Some(b))]);
    assert r.Success? && |r.value| == 2 && r.value[0] == a && r.value[1] == b;
    assert r.value == [a, b];
  }

  lemma MatchingTwo(x: Url, y: Url, filter: string)
    ensures Matching([x, y], filter) ==
      (if Contains(x, filter) then [x] else []) + (if Contains(y, filter) then [y] else [])
  {
    assert [x, y][..1] == [x];
    assert [x][..0] == [];
  }

  /** A child sitemap whose `urlset` lists two pages of which exactly one
      matches contributes that one. */
  lemma ChildSitemap(s: Url, x: Url, y: Url, kept: Url, filter: string, fetch: Url -> Document)
    requires EndsWith(s, SitemapSuffix)
    requires fetch(s) == Document(Some(Many([Info(Some(x)), Info(Some(y))])), None)
    requires (kept == x && Contains(x, filter) && !Contains(y, filter)) ||
             (kept == y && !Contains(x, filter) && Contains(y, filter))
    ensures EntrySources(s, filter, fetch) == Success([kept])
  {
    LocsTwo(x, y);
    assert ExtractUrls(fetch(s)) == Success([x, y]);
    MatchingTwo(x, y, filter);
    if kept == x && Contains(x, filter) && !Contains(y, filter) {
      assert [x] + [] == [x];
    } else {
      assert [] + [y] == [y];
    }
  }

  lemma SelectedSourcesTwo(a: Url, b: Url, x: Url, y: Url, filter: string, fetch: Url -> Document)
    requires EntrySources(a, filter, fetch) == Success([x])
    requires EntrySources(b, filter, fetch) == Success([y])
    ensures SelectedSources([a, b], filter, fetch) == Success([x, y])
  {
    assert [a, b][..1] == [a];
    assert [a][..0] == [];
    assert [] + [x] == [x];
    assert SelectedSources([a], filter, fetch) == Success([x]);
    assert SelectedSources([a, b], filter, fetch) == AppendSources(Success([x]), EntrySources(b, filter, fetch));
    assert [x] + [y] == [x, y];
  }

  lemma PagesOfTwo(x: Url, y: Url, extractText: Url -> string)
    ensures PagesOf([x, y], extractText) == [Page(extractText(x), x), Page(extractText(y), y)]
  {
  }

  lemma TwoPagesChunks(p1: Page, p2: Page, split: string -> seq<string>)
    requires |split(p1.text)| == 1 && |split(p2.text)| == 1
    ensures AllChunks([p1, p2], split) == split(p1.text) + split(p2.text)
    ensures AllMetadatas([p1, p2], split) == [Metadata(p1.source), Metadata(p2.source)]
  {
    assert [p1, p2][..1] == [p1];
    assert [p1][..0] == [];
    assert AllChunks([p1], split) == split(p1.text);
    assert Repeat(Metadata(p1.source), 1) == [Metadata(p1.source)];
    assert Repeat(Metadata(p2.source), 1) == [Metadata(p2.source)];
    assert AllMetadatas([p1], split) == [Metadata(p1.source)];
  }
}
