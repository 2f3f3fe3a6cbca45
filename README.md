# create_embeddings.py, modelled in Dafny

`create_embeddings.py` is a batch script. It reads a website's sitemap and keeps
the pages whose URL contains a filter string. Entries of the sitemap that are
themselves sitemaps are expanded one level deep. The script takes each kept
page's visible text and normalises it into clean lines. It splits every text
into chunks, tags each chunk with its page's URL, and hands the chunks to an
embedding index.

This project models the four pieces of sequential logic in that script and
proves what they guarantee:

- **Text normalisation** (`TextExtraction`). `Normalize` is `extract_text_from`
  once the visible text is known, and `ExtractTextFrom` applies it to the
  visible text of a URL. The text is split at line breaks and every line
  is stripped of whitespace at both ends. Empty lines are dropped, and the
  rest are joined with `"\n"` (`Join`).
- **Sitemap shapes** (`Sitemap`). `ExtractUrls` is `extract_urls_from_sitemap`
  once the XML is parsed. A document (`Document`) records whether it has a
  `urlset/url` and a `sitemapindex/sitemap`, and what is stored there. An entry
  set is a collapsed single entry (`Single`) or a list (`Many`). An entry
  without `loc` raises `KeyError` in the script; here that is the failure
  `MissingLoc`.
- **Page selection** (`Embeddings.SelectPages`, with its inner loop
  `Embeddings.AppendMatchingPages`). These are the nested loops of the
  driver. They are methods with loop invariants. Their results are tied to
  the specification functions `Sources` (the sources collected from the
  starting sitemap), `SelectedSources` (those collected from a list of
  top-level entries) and `PagesOf` (the page built for each source). The
  selection rules are proved as lemmas about these functions.
- **Chunk and metadata alignment** (`Embeddings.BuildChunks`). This is the
  chunking loop, proved against `AllChunks` and `AllMetadatas`.
  `Embeddings.CreateEmbeddings` runs selection and then chunking.

The outside world comes in as parameters:

- `fetch: Url -> Document` stands for downloading a sitemap and parsing it
  with the XML parser.
- `visibleText: Url -> string` stands for downloading a page and taking its
  HTML's visible text.
- `split: string -> seq<string>` stands for the text splitter.

`Strings` holds the two URL tests the script uses: `sub in s` (`Contains`)
and `s.endswith(suffix)` (`EndsWith`). The command-line defaults are the
constants `DefaultSitemap` and `DefaultFilter`. The suffix that marks a
nested sitemap is `SitemapSuffix`.

Character classes follow Python:

- `IsSpace` is the set of characters `str.isspace()` accepts, which
  `str.strip()` removes.
- `IsLineBreak` is the set of characters at which `str.splitlines()` breaks.

`SplitLines` starts a new piece at every such character. Python differs in
three ways: it treats `"\r\n"` as one break, it yields no piece after a
final break, and it gives no piece at all for the empty string, where
`SplitLines` gives one empty piece. All three differences only add or
remove empty pieces, and the normalisation drops every empty line. So
`Normalize` computes what the script computes.

## Model

| member | source | states |
|---|---|---|
| TextExtraction.SplitLines | create_embeddings.py:19 | `text.splitlines()`: there is at least one piece, and no piece holds a line break |
| TextExtraction.SplitLinesRebuild | create_embeddings.py:19 | there is one more piece than the text has line breaks, and the pieces with the text's break characters between them, in order, make up the text |
| TextExtraction.InterleaveNewlines | create_embeddings.py:19-20 | when every break is `"\n"`, putting the breaks back between the pieces is the same as `Join`, the model of `'\n'.join` |
| TextExtraction.SplitLinesJoin | create_embeddings.py:19-20 | for text whose only line break is `"\n"`, joining its pieces with `"\n"` gives the text back |
| TextExtraction.TrimLeftCuts | create_embeddings.py:19 | `lstrip` removes a whitespace-only prefix and keeps the rest unchanged |
| TextExtraction.TrimRightCuts | create_embeddings.py:19 | `rstrip` removes a whitespace-only suffix and keeps the rest unchanged |
| TextExtraction.Strip | create_embeddings.py:19 | `line.strip()` is no longer than the line and has no whitespace at either end |
| TextExtraction.StripWindow | create_embeddings.py:19 | the stripped line is a contiguous part of the line, with only whitespace cut off before and after it |
| TextExtraction.StripEmpty | create_embeddings.py:19-20 | a stripped line is empty exactly when the line is all whitespace, so `if line` drops exactly the blank lines |
| TextExtraction.StripStripped | create_embeddings.py:19 | stripping a string with no whitespace at either end returns it unchanged |
| TextExtraction.StripKeepsNoLineBreak | create_embeddings.py:19 | stripping a line adds no line break |
| TextExtraction.StripAll | create_embeddings.py:19 | the generator strips every line and keeps the number and order of lines |
| TextExtraction.DropEmpty | create_embeddings.py:20 | the `if line` filter keeps no empty line and never lengthens the list |
| TextExtraction.DropEmptyKeepsOrder | create_embeddings.py:20 | the kept lines are the lines at strictly increasing positions of the input, and every non-empty input line is among them: none is reordered, invented or lost |
| TextExtraction.CleanLinesFrom | create_embeddings.py:19-20 | every line that survives stripping and filtering is non-empty, has no whitespace at either end and holds no line break |
| TextExtraction.NormalizedLinesClean | create_embeddings.py:19-20 | every line of a page's normalised text is clean in that sense |
| TextExtraction.SplitJoin | create_embeddings.py:20 | `Join`ing non-empty lines without line breaks with `"\n"` and splitting the result gives the same lines back |
| TextExtraction.JoinEmpty | create_embeddings.py:20 | a join of non-empty lines is empty exactly when there are no lines |
| TextExtraction.NormalizeLines | create_embeddings.py:19-20 | the normalised text is empty exactly when no line survives; otherwise splitting it gives exactly the stripped non-empty lines, each one clean, so the text has no empty line |
| TextExtraction.NormalizeKeepsOrder | create_embeddings.py:19-20 | the lines of the normalised text are all the stripped non-empty input lines, in their original order |
| TextExtraction.NormalizeJoinClean | create_embeddings.py:19-20 | normalising the join of clean lines returns that join |
| TextExtraction.NormalizeIdempotent | create_embeddings.py:19-20 | normalising a text twice gives the same result as normalising it once, so the text `ExtractTextFrom` gives for a page is a fixed point of the normalisation |
| TextExtraction.TrimLeftSpaces | create_embeddings.py:19 | leading whitespace has no effect on `lstrip` |
| TextExtraction.TrimRightSpaces | create_embeddings.py:19 | trailing whitespace has no effect on `rstrip` |
| TextExtraction.StripPadded | create_embeddings.py:19 | a stripped word with whitespace around it strips back to the word |
| TextExtraction.NormalizeTwoLines | create_embeddings.py:19-20 | two padded lines separated by a blank line normalise to the two words joined by one `"\n"` |
| TextExtraction.HelloWorld | create_embeddings.py:19-20 | the text `"  Hello   \n\n  World  "` normalises to `"Hello\nWorld"` |
| Strings.ContainsIffOccurs | create_embeddings.py:55 | `filter in url` holds exactly when the filter occurs in the URL at some offset |
| Sitemap.Locs | create_embeddings.py:31 | `[info['loc'] for info in url_infos]` succeeds exactly when every entry has a `loc`; it then yields one location per entry, in entry order |
| Sitemap.EntriesInOrder | create_embeddings.py:28-35 | for `ExtractUrls`, a `urlset` with N listed entries, or a `sitemapindex` with N listed entries and no `urlset`, yields exactly the N locations in document order, or fails when one has no `loc` |
| Sitemap.SingleEntry | create_embeddings.py:28-35 | `ExtractUrls` on a collapsed single entry under `urlset`, or under `sitemapindex` with no `urlset`, yields the one-element list of its location |
| Sitemap.SingleEntryWithoutLoc | create_embeddings.py:28-35 | `ExtractUrls` on a collapsed single entry without `loc` fails |
| Sitemap.NeitherShape | create_embeddings.py:27-36 | `ExtractUrls` on a document with neither shape yields the empty list |
| Sitemap.UrlSetTakesPrecedence | create_embeddings.py:28-32 | when `urlset/url` is present, the `sitemapindex` part has no influence on `ExtractUrls` |
| Embeddings.Matching | create_embeddings.py:54-55 | the filtered children are no more than the children, and every one of them contains the filter |
| Embeddings.MatchingMembers | create_embeddings.py:54-55 | a child is kept exactly when it contains the filter |
| Embeddings.MatchingAppend | create_embeddings.py:54-55 | filtering keeps the children's order |
| Embeddings.EntrySources | create_embeddings.py:52-61 | a top-level entry fails exactly when it names a sitemap that cannot be resolved; on success everything it contributes contains the filter |
| Embeddings.SelectedSourcesFails | create_embeddings.py:51-61 | `SelectedSources` fails exactly when some top-level entry names a sitemap that cannot be resolved |
| Embeddings.SourcesFails | create_embeddings.py:49-61 | `Sources` fails exactly when the starting sitemap cannot be resolved or one of its entries names a sitemap that cannot be resolved |
| Embeddings.SelectPages | create_embeddings.py:49-61 | the selection loop fails exactly when `Sources` fails; otherwise its pages are `PagesOf` the sources of `Sources`, in that order |
| Embeddings.AppendMatchingPages | create_embeddings.py:54-57 | the inner loop appends one page for each child that contains the filter, in child order, and keeps the earlier pages |
| Embeddings.SelectedPages | create_embeddings.py:55-61 | every selected page's source contains the filter, and its text is the text extracted from that source |
| Embeddings.SelectedSourcesAppend | create_embeddings.py:51-61 | the `SelectedSources` of two runs of top-level entries are those of the first run followed by those of the second; the result succeeds exactly when both runs succeed |
| Embeddings.SelectedSourcesMatch | create_embeddings.py:55-61 | every selected source contains the filter |
| Embeddings.SelectedSourcesMembers | create_embeddings.py:51-61 | a URL is selected exactly when it contains the filter and either is a top-level entry that does not name a sitemap, or is a direct child of a top-level entry that does |
| Embeddings.SelectedSourcesFetchesTopLevelOnly | create_embeddings.py:51-53 | the selection depends only on the documents of the top-level sitemap entries, so expansion is exactly one level deep |
| Embeddings.AllMetadatas | create_embeddings.py:64-68 | there are as many metadata entries as chunks |
| Embeddings.BuildChunks | create_embeddings.py:64-68 | `docs` is the concatenation of the pages' splits in page order, `metadatas` has one copy of each page's source per split, and both lists have the same length |
| Embeddings.Origin | create_embeddings.py:64-68 | chunk `i` is split number `o.1` of page `o.0`, which comes right after the chunks of the earlier pages; its metadata names that page's source |
| Embeddings.ChunksAppend | create_embeddings.py:65-67 | chunking two runs of pages gives the first run's chunks followed by the second's |
| Embeddings.MetadatasAppend | create_embeddings.py:65-68 | the same holds for the metadata list |
| Embeddings.CreateEmbeddings | create_embeddings.py:49-68 | the run fails exactly when `Sources` fails, which `SourcesFails` states in terms of the fetched documents; otherwise it yields the chunks and metadata of the selected pages with their normalised texts, in equal numbers |
| Embeddings.TwoChildSitemaps | create_embeddings.py:49-68 | for a sitemap index of two child sitemaps, each with one matching and one non-matching page, exactly the two matching pages are selected, in order, and their chunks carry their URLs |

## Left out

- Network and file I/O are outside the model: `requests.get` and writing the pickled store. The pages' visible text and the parsed sitemaps are parameters instead.
- The HTML parser's `get_text()` and the XML parser `xmltodict.parse` are outside the model. Their outputs are the inputs `visibleText` and `fetch`.
- A parsed document is reduced to its `urlset/url` and `sitemapindex/sitemap` values. Several shapes the XML parser can produce have no encoding:
  - A `urlset` or `sitemapindex` value that is not a mapping. An empty element parses to `None`, and the `in` test then raises `TypeError`. A text value turns the `in` test into a substring test, and indexing it raises `TypeError`.
  - An `info` that is not a mapping, so that `info['loc']` raises `TypeError`.
  - A `loc` that is not text: an empty `<loc/>` gives `None`, and `.endswith` or the filter's `in` test then raises.
- `fetch` and `visibleText` are functions: fetching the same URL twice gives the same document or text, while the script downloads it again each time.
- `CharacterTextSplitter.split_text` is the uninterpreted parameter `split`. Its chunk size of 1500 and its `"\n"` separator depend on library code that is not part of this model.
- `OpenAIEmbeddings` and `FAISS.from_texts` are outside the model: an external service and an index over floating-point vectors.
- Argument parsing, `load_dotenv` and the `print` calls are outside the model. The argument defaults are the constants `DefaultSitemap` and `DefaultFilter`.
- TextExtraction.SplitLines: it differs from Python's `splitlines` in the empty pieces it produces (`"\r\n"`, a final break, the empty string). Only empty pieces are affected, and they are dropped before the text is joined.
- Embeddings.SelectPages: it takes the page-text extraction as a parameter `extractText`. `CreateEmbeddings` passes it the normalisation of the visible text.
- Embeddings.AppendMatchingPages: the inner `for url in urls` loop is a method of its own, called by the outer loop.
