# Lena docs search: a verified model

This project models, in Dafny, the logic of three scripts of the Lena
documentation search tool set:

- `scripts/vectorize_docs.py` cuts each PDF's text into overlapping
  character windows, broken early at a sentence end or newline. It embeds
  every chunk and writes either a FAISS IVF index with a metadata list or a
  raw vectors file.
- `scripts/mcp_vector_search.py` is an MCP server speaking JSON-RPC over
  `Content-Length` framing on standard input and output. It loads those
  artifacts, answers `initialize`, `tools/list`, `tools/call` (the
  `search_docs` tool) and `ping`, and renders search results as Markdown.
- `scripts/crawl_docs_to_pdf.py` saves documentation pages as PDFs under
  names derived from their URL paths, counting successes and failures.

The modules follow the scripts:

- `Wrappers`: `Option` and `Result`.
- `PyText`: the Python string built-ins the scripts rely on, with Python's
  semantics. These are `str.isspace`/`strip`, `rfind`, negative slicing,
  `split(":")[1]`, `int()`, `str()` of a natural number and the UTF-8 byte
  length.
- `Chunking`: `chunk_text`. The method `ChunkText` keeps the source's loop
  and is proved against the function `Chunks`. `Chunks` is defined as the
  list of windows (`PiecesFrom`) whose trimmed text is non-empty.
- `Vectorize`:
  - the `nlist` clamp;
  - the metadata and raw-vectors records;
  - `build_index`'s choice of layout;
  - the embed-or-skip accumulation loop of `main` (`Vectorize`).
- `Framing`:
  - the line machine of `run` as a pure step function, `Scan`/`Next`, and its fold `FeedAll`;
  - the reply frame written by `send_response`/`send_error`.
- `VectorSearch`:
  - the class `VectorSearchServer`, whose fields `index`, `metadata` and
    `rawVectors` are set by `_load_index`;
  - `search`, `handle_request` and `run` as methods;
  - each method proved equal to a function of the loaded state: `SearchOver`, `Respond`, `Outputs`.
- `Crawler`:
  - `url_to_filename` and the `.pdf` name;
  - the counters of `crawl_site` and `main`.

Calls into code outside the scripts are parameters:

- the embedding service: a function that returns a vector or an error message;
- the FAISS search: a function from index, query vector and `top_k` to score and id arrays, or an error;
- `json.loads`: a function returning `Malformed`, `NotAnObject` or a request;
- `json.dumps` of a reply: a function to a string;
- the `:.3f` formatting of a score;
- whether a page printed to PDF.

Files on disk are booleans and optional contents.

Several behaviours are modelled as written, not corrected:

- The chunker needs `overlap < chunk_size` and `overlap <= chunk_size / 2 + 1` to make progress. These are preconditions, and `OverlapBoundNeeded` shows a window that would stall without them.
- A short text can yield a second chunk that repeats the first chunk's tail.
- In raw-vectors mode the server never searches.
- A `{}` request gets no reply.
- The body check compares the UTF-8 byte count with `Content-Length` but slices characters.
- A stray line in header state wedges the framing loop.
- The file-name sanitiser is not injective.

## Model

| member | source | states |
|---|---|---|
| PyText.StripEmptyIff | scripts/vectorize_docs.py:62-63 | `strip` yields the empty string exactly when every character is dropped |
| PyText.Strip | scripts/vectorize_docs.py:62-63 | `str.strip()` drops the longest leading and trailing runs of whitespace; `StripEmptyIff` and `StripIdempotent` state its properties |
| PyText.StripIdempotent | scripts/vectorize_docs.py:62-63 | stripping an already stripped string changes nothing |
| PyText.RFind | scripts/vectorize_docs.py:56-57 | `rfind` returns -1 or a position at which the whole pattern fits inside the text |
| PyText.RFindSpec | scripts/vectorize_docs.py:56-57 | `rfind` returns a position where the pattern occurs and no later one, or -1 when there is none |
| PyText.PrefixTo | scripts/mcp_vector_search.py:133 | Python's `s[:k]` is a prefix of `s`, of length `k` when `0 <= k <= len(s)`, the whole of `s` when `k >= len(s)`, and `len(s) + k` characters (at least none) for negative `k` |
| PyText.FieldAfterFirst | scripts/mcp_vector_search.py:250 | `split(":")[1]` holds no separator, is a prefix of the text after the first separator, and runs up to the second separator or the end of the text |
| PyText.NatToString | scripts/mcp_vector_search.py:40 | `str(n)` of a natural number is a non-empty string of digits |
| PyText.ParseNatToString | scripts/mcp_vector_search.py:250 | `int()` of `str(n)` gives back `n` |
| PyText.ParseInt | scripts/mcp_vector_search.py:250 | `int()` succeeds exactly on a non-empty run of ASCII digits with at most one leading sign, and gives a non-negative number unless the sign is `-` |
| PyText.Utf8Len | scripts/mcp_vector_search.py:262 | the UTF-8 byte count is at least the character count, and equal to it exactly for ASCII text |
| Chunking.BreakPointIsLastBoundary | scripts/vectorize_docs.py:56-58 | the break point is -1 or the last ". " or newline in the window, with no boundary after it |
| Chunking.WindowEnd | scripts/vectorize_docs.py:52-61 | a window never exceeds `chunk_size` and, when cut early, keeps more than `chunk_size // 2 + 1` characters |
| Chunking.EarlyBreakRule | scripts/vectorize_docs.py:52-61 | a window that reaches the end of the text is never cut. Otherwise it is cut just after the last boundary when that lies past `chunk_size // 2`, and it is full-size only when no boundary lies past the middle or the last character is one |
| Chunking.NextStart | scripts/vectorize_docs.py:64 | under the overlap bounds, `end - overlap` is strictly past the window start, so the loop terminates |
| Chunking.Window | scripts/vectorize_docs.py:52-61 | the window-cutting statements compute `WindowEnd` and the window's text |
| Chunking.ChunkText | scripts/vectorize_docs.py:47-65 | the loop returns exactly `Chunks(text, chunk_size, overlap)` |
| Chunking.Chunks | scripts/vectorize_docs.py:47-65 | the chunk list is the stripped text of every window the loop visits whose strip is non-empty, in window order; the lemmas below state its properties |
| Chunking.PiecesShape | scripts/vectorize_docs.py:50-64 | every chunk is the non-empty strip of a slice `text[start:stop]` with `stop - start <= chunk_size`, and window starts strictly increase, so chunks come out in document order |
| Chunking.ChunksTrimmed | scripts/vectorize_docs.py:62-63 | every chunk is non-empty and already stripped |
| Chunking.NoChunksIffBlank | scripts/vectorize_docs.py:51-64 | for a non-negative overlap, there are no chunks exactly when the text is empty or whitespace |
| Chunking.ShortTextOneChunk | scripts/vectorize_docs.py:51-64 | a text no longer than `chunk_size - overlap` yields `[text.strip()]`, or nothing when blank |
| Chunking.TailChunkedTwice | scripts/vectorize_docs.py:51-64 | a text of length in `(chunk_size - overlap, chunk_size]` whose tail is not blank yields a second chunk that is a suffix of the first |
| Chunking.FirstTwoChunks | scripts/vectorize_docs.py:51-64 | under the same conditions the first chunk is the whole stripped text and the second the stripped text from `chunk_size - overlap` on |
| Chunking.TwoPieces | scripts/vectorize_docs.py:51-64 | the same two facts stated on the windows: the first window reaches the end of the text and the next restarts at `chunk_size - overlap` |
| Chunking.LastWindow | scripts/vectorize_docs.py:52-64 | a window that reaches the end of the text is not cut early, keeps the whole stripped rest, and the next start is `start + chunk_size - overlap` |
| Chunking.TailIsSuffix | scripts/vectorize_docs.py:62-63 | the strip of a non-blank tail `text[m:]` is a suffix of the strip of the whole text |
| Chunking.OverlapBoundNeeded | scripts/vectorize_docs.py:59-64 | with `chunk_size` 10 a window can end at 7, so an overlap of 7 would restart at the same offset forever |
| Vectorize.NList | scripts/vectorize_docs.py:98 | `nlist` lies in 1..100, never exceeds the vector count, is 1 exactly below 20 vectors and 100 exactly from 1000 |
| Vectorize.NListMonotone | scripts/vectorize_docs.py:98 | more vectors never give fewer lists |
| Vectorize.MetadataOf | scripts/vectorize_docs.py:114 | the metadata list runs parallel to the chunks and copies source, section and text unchanged |
| Vectorize.SaveRawEmbeddings | scripts/vectorize_docs.py:121-134 | the raw-vectors loop writes every chunk record unchanged, in order |
| Vectorize.BuildIndex | scripts/vectorize_docs.py:81-117 | without FAISS the raw layout is written; with it, an IVF index with `1 <= nlist <= n` and one metadata entry per vector |
| Vectorize.Vectorize | scripts/vectorize_docs.py:163-198 | `all_chunks` is the records of every non-blank document's chunks whose embedding succeeded; an index is built exactly when that list is non-empty |
| Vectorize.EmbedEach | scripts/vectorize_docs.py:178-189 | the inner loop appends, in order, one record per chunk whose embedding call succeeds, and nothing for a failed call |
| Vectorize.Collected | scripts/vectorize_docs.py:163-189 | `all_chunks` after the main loop is the concatenation, document by document, of the records of each non-blank document; the lemmas below state its properties |
| Vectorize.EmbedChunksKeepsSucceeded | scripts/vectorize_docs.py:178-189 | the inner loop appends exactly the chunks whose embedding call succeeded, in order, each with its source, section and returned vector |
| Vectorize.EmbedChunksInChunks | scripts/vectorize_docs.py:178-189 | every appended record's text is one of the document's chunks and its embedding is the service's answer for it |
| Vectorize.BlankGuardRedundant | scripts/vectorize_docs.py:171-175 | skipping blank documents changes nothing, since a blank text has no chunks |
| Vectorize.CollectedShape | scripts/vectorize_docs.py:165-189 | every collected record is a stripped, non-empty chunk of some document, named `section/stem`, with its own embedding |
| Framing.BeforeEof | scripts/mcp_vector_search.py:241-243 | the loop reads the lines before the first empty read, none of which is empty |
| Framing.Scan | scripts/mcp_vector_search.py:245-264 | a length is set only in header state on a buffer starting with `Content-Length: `, and a body is taken only in body state and is a prefix of the buffer |
| Framing.Next | scripts/mcp_vector_search.py:245-270 | a request is handed over only when the machine returns to idle, and every step either clears the buffer or keeps the whole of it plus the new line |
| Framing.FeedAll | scripts/mcp_vector_search.py:239-270 | the loop never hands over more requests than it reads lines |
| Framing.Frame | scripts/mcp_vector_search.py:36-49 | the written frame starts with `Content-Length: `, is longer than the message and ends with it |
| Framing.FrameLines | scripts/mcp_vector_search.py:36-49 | a framed reply reads back as header line, blank line and body |
| Framing.HeaderRoundTrip | scripts/mcp_vector_search.py:249-251 | parsing the header line `send_response` writes recovers `len(out)` |
| Framing.NextHeader | scripts/mcp_vector_search.py:249-254 | the header line `send_response` writes, read from idle, sets the length to `len(out)` and clears the buffer (HeaderSetsLength states the general case) |
| Framing.HeaderSetsLength | scripts/mcp_vector_search.py:248-251 | in header state a buffer starting with `Content-Length: ` sets the length `int()` reads after the first colon and clears the buffer; when `int()` fails the buffer is kept |
| Framing.LineEndDiscarded | scripts/mcp_vector_search.py:248-254 | in header state the buffer is dropped exactly when it is `"\r\n"` or `"\n"`, which leaves the machine idle |
| Framing.NextBlank | scripts/mcp_vector_search.py:256-259 | the `"\r\n"` separator read into an empty buffer in body state is discarded and the length kept (BlankDiscarded states it for every blank buffer) |
| Framing.NextBody | scripts/mcp_vector_search.py:261-270 | a complete body is dispatched, or dropped when it is not JSON, and both fields reset |
| Framing.BlankDiscarded | scripts/mcp_vector_search.py:256-259 | in body state a buffer is discarded exactly when it strips to nothing, and the announced length is kept |
| Framing.BodyDispatched | scripts/mcp_vector_search.py:261-270 | whatever body is cut out goes to `json.loads`: a request is handled and both fields reset, text that is not JSON also resets them, and a non-object raises before the reset so buffer and length stay |
| Framing.FrameRoundTrip | scripts/mcp_vector_search.py:236-270 | a framed ASCII message without newlines is read back as exactly its request, or as nothing when it is not JSON, and leaves the loop idle |
| Framing.FeedThree | scripts/mcp_vector_search.py:239-270 | over three lines of which the first two hand over nothing, the loop ends where the third step leaves it, with at most that step's request |
| Framing.StrayCases | scripts/mcp_vector_search.py:248-254 | a complete line that is neither a header nor a bare line end, or text starting with a character other than `C`, `\r` or `\n`, leaves a stray buffer |
| Framing.StrayKeeps | scripts/mcp_vector_search.py:248-254 | in header state a stray buffer keeps every further line and stays stray |
| Framing.StrayLineWedges | scripts/mcp_vector_search.py:248-254 | once the header-state buffer is stray (for instance after a complete line that is neither a header nor a bare line end), no later line is ever recognised and no request is read |
| Framing.BodyCoversLength | scripts/mcp_vector_search.py:262-264 | a body that is taken covers at least the announced number of bytes; it has exactly that many characters when the buffer is at least that long, and exactly that many bytes when the buffer is ASCII (BodyTaken states when it is taken) |
| Framing.BodyTaken | scripts/mcp_vector_search.py:256-264 | in body state a non-blank buffer is cut exactly when its UTF-8 byte count reaches the length, the body being its first `content_length` characters; otherwise the buffer is kept |
| Framing.ByteCountCharacterSlice | scripts/mcp_vector_search.py:262-264 | a body with a two-byte character is cut one character too far, into the next header |
| VectorSearch.LoadOutcomeConsistent | scripts/mcp_vector_search.py:69-107 | every state `_load_index` leaves has raw vectors only without FAISS and without an index, with their metadata projection loaded |
| VectorSearch.LoadModes | scripts/mcp_vector_search.py:71-102 | raw-vectors mode exactly with no index file, a vectors file and no FAISS; the stored index exactly when it exists and FAISS reads it; an in-memory index exactly with FAISS and only a vectors file |
| VectorSearch.LoadedMetadataAgrees | scripts/mcp_vector_search.py:69-107 | whichever layout was written, the server loads the same metadata list |
| VectorSearch.LoadOutcome | scripts/mcp_vector_search.py:69-107 | loading fails exactly with no index file, an empty vectors file and FAISS present; any other outcome is a consistent state |
| VectorSearch.VectorSearchServer.constructor | scripts/mcp_vector_search.py:64-67 | the server starts from the state `_load_index` selects, and that state is consistent |
| VectorSearch.VectorSearchServer.LoadIndex | scripts/mcp_vector_search.py:69-107 | the fields are set branch by branch as `LoadOutcome` describes |
| VectorSearch.VectorSearchServer.Search | scripts/mcp_vector_search.py:109-138 | the method's early errors and result loop compute `SearchOver` of the current state |
| VectorSearch.SearchOver | scripts/mcp_vector_search.py:109-138 | with neither an index nor raw vectors the answer is a single error entry |
| VectorSearch.LookupMeta | scripts/mcp_vector_search.py:127 | an index `0 <= idx < len` yields `metadata[idx]`, an index `-len <= idx < 0` yields `metadata[len + idx]` as Python indexing does, no metadata, an empty list or an index past the end yields the empty `{}` entry, and the lookup raises exactly for a negative index before the start of a non-empty list |
| VectorSearch.ShapeResults | scripts/mcp_vector_search.py:121-135 | results are hits with strictly increasing ranks in `1..n`, never for id -1, each with the score at its rank and text of at most 500 characters that is a prefix of its metadata text |
| VectorSearch.ShapeCount | scripts/mcp_vector_search.py:124-126 | there is one hit per id other than -1 |
| VectorSearch.ShapeFailureStays | scripts/mcp_vector_search.py:124-138 | once a metadata lookup has raised, the whole search reports that error |
| VectorSearch.OutsideMetadataUnknown | scripts/mcp_vector_search.py:127-133 | a hit without a metadata entry has source and section "unknown" and empty text |
| VectorSearch.FailureIsAlone | scripts/mcp_vector_search.py:111-138 | an error entry is always the only entry |
| VectorSearch.NoIndexSearch | scripts/mcp_vector_search.py:111-112 | with no index and no raw vectors, the answer is the single "No index loaded" error |
| VectorSearch.RawModeNeverSearches | scripts/mcp_vector_search.py:89-138 | in raw-vectors mode the answer is the single import error, whatever the search and embedding services do |
| VectorSearch.SearchBounded | scripts/mcp_vector_search.py:121-135 | when the index returns at most `top_k` pairs, there are at most `top_k` results, or a lone error |
| VectorSearch.InSection | scripts/mcp_vector_search.py:203 | the filter never lengthens the list and keeps only hits of the requested section |
| VectorSearch.InSectionSpec | scripts/mcp_vector_search.py:203 | the filter keeps exactly the hits of the requested section and drops error entries |
| VectorSearch.InSectionAppend | scripts/mcp_vector_search.py:203 | the filter keeps the original order |
| VectorSearch.FilteredSearchDocs | scripts/mcp_vector_search.py:195-203 | with a section, `search_docs` yields at most `top_k` hits, all of that section, and no error entry |
| VectorSearch.NoIndexDocs | scripts/mcp_vector_search.py:195-203 | with nothing loaded, `search_docs` gives the one error entry, or nothing when a section filter drops it |
| VectorSearch.NoIndexReply | scripts/mcp_vector_search.py:199-211 | with nothing loaded, the rendered text is the header plus one "❌ Error" line, or only the header when filtered |
| VectorSearch.VectorSearchServer.SearchDocsText | scripts/mcp_vector_search.py:194-211 | the tool branch searches with `2 * top_k` when filtering, filters and cuts to `top_k`, and renders the result |
| VectorSearch.VectorSearchServer.RenderText | scripts/mcp_vector_search.py:205-211 | the rendering loop produces the header followed by each entry's error line or hit block |
| VectorSearch.SearchDocsReply | scripts/mcp_vector_search.py:194-216 | a `search_docs` call is answered with its id, `isError` false, and the rendered text starting with the results header |
| VectorSearch.Dispatch | scripts/mcp_vector_search.py:142-228 | the initialized notification gets no reply and `ping` an empty result. An unknown method gets -32601 exactly when an id is present. No reply is sent exactly for the notification or an id-less unknown method |
| VectorSearch.UnknownTool | scripts/mcp_vector_search.py:190-218 | a `tools/call` for any other tool gets -32601 "Unknown tool", whatever the id |
| VectorSearch.EmptyObjectIgnored | scripts/mcp_vector_search.py:142-228 | the request `{}` gets no reply |
| VectorSearch.VectorSearchServer.HandleRequest | scripts/mcp_vector_search.py:140-228 | the dispatch computes `Respond` of the current state |
| VectorSearch.Respond | scripts/mcp_vector_search.py:140-228 | a reply always carries the request's id, and the only error reply is method-not-found |
| VectorSearch.VectorSearchServer.ReadStep | scripts/mcp_vector_search.py:245-270 | one turn of the loop moves the framing state as `Next` does and writes the framed reply of a completed request |
| VectorSearch.RunStep | scripts/mcp_vector_search.py:239-270 | reading one more line moves the framing state one step and appends to the output exactly the reply of the request that step hands over |
| VectorSearch.VectorSearchServer.Run | scripts/mcp_vector_search.py:236-275 | the loop writes, in order, the framed reply of every request read before the first empty read |
| Crawler.SubstitutionsExpand | scripts/crawl_docs_to_pdf.py:297-299 | the two substitutions map every character of the path on its own: a separator to `__`, a safe character to itself, any other to `_` |
| Crawler.SubSeparators | scripts/crawl_docs_to_pdf.py:297 | the first substitution lengthens the path by one per separator and leaves no separator |
| Crawler.SubUnsafe | scripts/crawl_docs_to_pdf.py:299 | the second substitution keeps the length and replaces exactly the unsafe characters by `_` |
| Crawler.UrlToFilename | scripts/crawl_docs_to_pdf.py:288-300 | the name is never empty and holds only safe characters |
| Crawler.ExpandShape | scripts/crawl_docs_to_pdf.py:297-299 | the result is as long as the path plus its separator count and holds only safe characters |
| Crawler.ExpandInPlace | scripts/crawl_docs_to_pdf.py:297-299 | without separators every character stays in place, unsafe ones replaced by `_` |
| Crawler.UrlToFilenameShape | scripts/crawl_docs_to_pdf.py:290-300 | the name is never empty and holds only ASCII letters, digits, `_`, `-` and `.`. It is "index" when the stripped path is empty, and otherwise its length is the stripped length plus the separator count |
| Crawler.IndexForSlashesOnly | scripts/crawl_docs_to_pdf.py:293-295 | a path of slashes only maps to "index" |
| Crawler.LeadingBackslash | scripts/crawl_docs_to_pdf.py:293-299 | only `/` is stripped, so a leading backslash still becomes `__` |
| Crawler.NotInjective | scripts/crawl_docs_to_pdf.py:290-300 | `a/b` and `a__b` get the same name |
| Crawler.JoinedName | scripts/crawl_docs_to_pdf.py:290-300 | safe text joined by `/` or by `__` is saved as the two parts joined by `__` |
| Crawler.PdfFileName | scripts/crawl_docs_to_pdf.py:305 | the PDF is saved as the sanitised name plus `.pdf` |
| Crawler.SavedExtremes | scripts/crawl_docs_to_pdf.py:372-379 | all pages count as saved exactly when every print succeeded, and none exactly when every print failed |
| Crawler.CrawlSite | scripts/crawl_docs_to_pdf.py:357-383 | `success` counts the pages printed and `success + failed == len(urls)` |
| Crawler.TotalSavedBounded | scripts/crawl_docs_to_pdf.py:395-406 | the saved total never exceeds the page total |
| Crawler.CrawlAll | scripts/crawl_docs_to_pdf.py:386-406 | the totals are the sums of the per-site counts and add up to the number of pages |

## Left out

- HTTP calls to Ollama (`get_embedding`, the `/api/tags` check) are out: the embedding is a parameter that returns a vector or an error message. It is a function of the chunk text, so the model does not capture one call on a text succeeding while another on the same text fails, or two calls returning different vectors, as independent HTTP requests can.
- FAISS is out: training, adding, `normalize_L2`, `read_index`/`write_index` and the float32 numerics. The search is a parameter returning score and id arrays. The in-memory index records only its vectors.
- PyPDF2 text extraction, `rglob` discovery and the section/stem taken from the PDF's path are out. Documents arrive as (section, stem, text) values.
- `json.loads` and `json.dumps` are out. A request is a typed value whose fields are present or absent. Requests whose fields have other JSON types (a string `top_k`, a non-object `params`) are not modelled.
- The `:.3f` formatting of scores is a parameter.
- `urlparse` is out: the sanitiser takes the URL's path.
- Playwright, the page script, PDF printing and the file-exists skip are out. Each page's outcome is a parameter.
- The URL lists are not modelled: `CrawlAll` takes the sites as input.
- Logging to stderr/stdout, `flush`, `sys.exit`, directory creation and `KeyboardInterrupt` are out.
- Chunking.ChunkText: requires `0 <= chunk_size`, `overlap < chunk_size` and `overlap <= chunk_size // 2 + 1`. With other arguments the source's loop can fail to terminate (`OverlapBoundNeeded` shows a window that restarts at its own start), or slices with a negative bound. `main` only calls it with 2000 and 256.
- PyText.ParseInt: accepts an optional sign and ASCII digits only. Python's `int()` also accepts `_` between digits and non-ASCII digits, so the model rejects a header such as `Content-Length: 1_0` that the server accepts as 10. Header lines are written by the client, so such input can reach the server; the model then keeps the buffer instead of setting a length.
- VectorSearch.LoadOutcome: an empty vectors file with FAISS present makes `_load_index` raise out of the constructor. This is a precondition of the constructor, not a modelled crash.
- VectorSearch.LoadOutcome: a vectors file with embeddings of unequal lengths (a failure inside `np.array`) is not modelled.
- VectorSearch.SearchOver: the error messages of the embedding service and of the index search are passed through as given.
- `SEARCH_TOP_K` from the environment is fixed at its default 5.
- The `"jsonrpc": "2.0"` envelope of replies is not modelled. Tool and input descriptions in `tools/list` are not modelled either: the reply carries the tool's name, properties, section choices, default and required fields.
- `extract_text_from_pdf`'s missing-PyPDF2 exit is out.
