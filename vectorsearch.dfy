/**
 * `VectorSearchServer` of scripts/mcp_vector_search.py: which index artifacts
 * it loads, how `search` shapes the index's `(scores, ids)` arrays into
 * results, how `handle_request` dispatches a JSON-RPC request and renders
 * `search_docs` results, and how `run` turns standard input into replies.
 */
module VectorSearch {
  import opened Wrappers
  import opened PyText
  import opened Vectorize
  import opened Framing

  /** `TOP_K` with the environment variable unset. */
  const DefaultTopK := 5
  /** Result texts are cut to this many characters. */
  const TextLimit := 500

  const NoIndexMessage := "No index loaded. Run vectorize_docs.py first."
  /** `str(e)` of the `ImportError` raised by `import faiss` inside `search`. */
  const NoFaissMessage := "No module named 'faiss'"
  /** `str(e)` of the `AttributeError` raised by `None.search(...)`. */
  const NoneSearchMessage := "'NoneType' object has no attribute 'search'"
  /** `str(e)` of the `IndexError` raised by `self.metadata[idx]` for `idx < -len(self.metadata)`. */
  const IndexErrorMessage := "list index out of range"
  const MethodNotFound := -32601

  /** The index object: read from `docs.faiss`, or a flat inner-product index built from the raw vectors. */
  datatype IndexHandle = StoredIndex | FlatIndex(vectors: seq<Vector>)

  /** One row of `index.search`: the scores and the ids, parallel arrays. */
  datatype Hits = Hits(scores: seq<real>, ids: seq<int>)

  /**
   * The calls `search` and `handle_request` make into code outside this
   * model: the embedding service, the index's nearest-neighbour search, and
   * the `:.3f` rendering of a score.
   */
  datatype Services = Services(
    embed: string -> Result<Vector>,
    search: (IndexHandle, Vector, int) -> Result<Hits>,
    formatScore: real -> string)

  /** What `_load_index` finds on disk. */
  datatype Disk = Disk(
    indexExists: bool,
    indexReadable: bool,
    vectorsFile: Option<seq<ChunkRecord>>,
    metadataFile: Option<seq<MetaRecord>>)

  /** The server's three fields after loading; `rawVectors` is `None` while `_raw_vectors` is unset. */
  datatype Loaded = Loaded(index: Option<IndexHandle>, metadata: Option<seq<MetaRecord>>, rawVectors: Option<seq<ChunkRecord>>)

  /** One result dict: a hit, or `{"error": str(e)}`. */
  datatype Entry =
    | Hit(rank: nat, score: real, source: string, section: string, text: string)
    | Failure(error: string)

  datatype Id = IntId(n: int) | StrId(s: string)

  /** `params["arguments"]` of a `tools/call`; an absent key is `None`. */
  datatype Arguments = Arguments(query: Option<string>, topK: Option<int>, section: Option<string>)

  datatype Params = Params(name: Option<string>, arguments: Option<Arguments>)

  /** A JSON-RPC request object; `id: null` and a missing `id` are both `None`, as `request.get("id")` sees them. */
  datatype RpcRequest = RpcRequest(methodName: Option<string>, id: Option<Id>, params: Option<Params>)

  datatype ToolSchema = ToolSchema(name: string, properties: seq<string>, sections: seq<string>, defaultTopK: int, required: seq<string>)

  datatype Payload =
    | Initialized(protocolVersion: string, serverName: string, serverVersion: string, listChanged: bool)
    | ToolList(tools: seq<ToolSchema>)
    | ToolText(text: string, isError: bool)
    | Empty

  /** `send_response(id, result)` or `send_error(id, code, message)`. */
  datatype Reply = Response(id: Option<Id>, result: Payload) | ErrorReply(id: Option<Id>, code: int, message: string)

  const InitializePayload := Initialized("2024-11-05", "lena-docs-search", "1.0.0", false)

  const ToolsPayload := ToolList([ToolSchema("search_docs", ["query", "top_k", "section"],
                                             ["opencode", "openclaw", "oh-my-opencode"], 5, ["query"])])

  /** `self.index`, `self.metadata` and `_raw_vectors` agree: raw vectors only without FAISS and without an index. */
  predicate Consistent(st: Loaded, faissAvailable: bool) {
    && (st.rawVectors.Some? ==> st.index.None? && !faissAvailable)
    && (st.index.Some? ==> faissAvailable)
  }

  function Embeddings(data: seq<ChunkRecord>): seq<Vector> {
    seq(|data|, i requires 0 <= i < |data| => data[i].embedding)
  }

  /**
   * `_load_index`, branch by branch. `None` is the one outcome that escapes
   * the constructor: an empty vectors file with FAISS present fails on
   * `embeddings.shape[1]`, outside the `ImportError` handler.
   */
  function LoadOutcome(disk: Disk, faissAvailable: bool): (r: Option<Loaded>)
    ensures r.None? <==> !disk.indexExists && disk.vectorsFile == Some([]) && faissAvailable
    ensures r.Some? ==> Consistent(r.value, faissAvailable)
  {
    if !disk.indexExists then
      match disk.vectorsFile
      case Some(data) =>
        var metadata := Some(MetadataOf(data));
        if faissAvailable then
          if data == [] then None
          else Some(Loaded(Some(FlatIndex(Embeddings(data))), metadata, None))
        else Some(Loaded(None, metadata, Some(data)))
      case None => Some(Loaded(None, None, None))
    else if faissAvailable && disk.indexReadable then Some(Loaded(Some(StoredIndex), disk.metadataFile, None))
    else Some(Loaded(None, None, None))
  }

  /** Every state `_load_index` can leave is consistent, and the raw vectors always come with their metadata. */
  lemma LoadOutcomeConsistent(disk: Disk, faissAvailable: bool)
    requires LoadOutcome(disk, faissAvailable).Some?
    ensures Consistent(LoadOutcome(disk, faissAvailable).value, faissAvailable)
    ensures var st := LoadOutcome(disk, faissAvailable).value;
      st.rawVectors.Some? ==> st.metadata == Some(MetadataOf(st.rawVectors.value))
  {
  }

  /**
   * The raw vectors mode is entered exactly when there is no index file, a
   * vectors file, and no FAISS; a stored index is used exactly when the file
   * exists and FAISS can read it.
   */
  lemma LoadModes(disk: Disk, faissAvailable: bool)
    requires LoadOutcome(disk, faissAvailable).Some?
    ensures var st := LoadOutcome(disk, faissAvailable).value;
      && (st.rawVectors.Some? <==> !disk.indexExists && disk.vectorsFile.Some? && !faissAvailable)
      && (st.index == Some(StoredIndex) <==> disk.indexExists && faissAvailable && disk.indexReadable)
      && (st.index.Some? && st.index.value.FlatIndex? <==> !disk.indexExists && disk.vectorsFile.Some? && faissAvailable)
  {
  }

  /**
   * Whichever layout `build_index` wrote, the server ends up with the same
   * metadata list: the raw records project to what the metadata file holds.
   */
  lemma LoadedMetadataAgrees(chunks: seq<ChunkRecord>, faissAvailable: bool)
    requires faissAvailable ==> chunks != []
    ensures var fromRaw := LoadOutcome(Disk(false, false, Some(Built(chunks, false).records), None), faissAvailable);
      fromRaw.Some? && fromRaw.value.metadata == Some(Built(chunks, true).metadata)
    ensures var fromIndex := LoadOutcome(Disk(true, true, None, Some(Built(chunks, true).metadata)), true);
      fromIndex.Some? && fromIndex.value.metadata == Some(Built(chunks, true).metadata)
  {
  }

  /** `{}` as a metadata entry: the defaults of the three `meta.get` calls. */
  const UnknownMeta := MetaRecord("unknown", "unknown", "")

  /**
   * `self.metadata[idx] if self.metadata and idx < len(self.metadata) else {}`,
   * with Python's negative indexing; `None` is the `IndexError` of an index below `-len`.
   */
  function LookupMeta(metadata: Option<seq<MetaRecord>>, idx: int): (r: Option<MetaRecord>)
    ensures r.None? <==> metadata.Some? && metadata.value != [] && idx < -|metadata.value|
    ensures r.Some? ==> r.value == UnknownMeta || (metadata.Some? && r.value in metadata.value)
    ensures metadata.Some? && -|metadata.value| <= idx < |metadata.value| ==> r.Some? && r.value in metadata.value
    ensures metadata.Some? && 0 <= idx < |metadata.value| ==> r == Some(metadata.value[idx])
    ensures metadata.Some? && -|metadata.value| <= idx < 0 ==> r == Some(metadata.value[|metadata.value| + idx])
    ensures (metadata.None? || metadata.value == [] || |metadata.value| <= idx) ==> r == Some(UnknownMeta)
  {
    if metadata.Some? && metadata.value != [] && idx < |metadata.value| then
      var m := metadata.value;
      if 0 <= idx then Some(m[idx])
      else if -|m| <= idx then Some(m[|m| + idx])
      else None
    else Some(UnknownMeta)
  }

  /**
   * The result list after the first `n` pairs of `zip(distances[0], indices[0])`:
   * ids of -1 are skipped, every other pair becomes a hit ranked by its
   * position; `None` once a lookup has raised.
   */
  function ShapePrefix(hits: Hits, metadata: Option<seq<MetaRecord>>, n: nat): Option<seq<Entry>>
    requires n <= |hits.scores| && n <= |hits.ids|
  {
    if n == 0 then Some([])
    else
      match ShapePrefix(hits, metadata, n - 1)
      case None => None
      case Some(rs) =>
        var idx := hits.ids[n - 1];
        if idx == -1 then Some(rs)
        else
          match LookupMeta(metadata, idx)
          case None => None
          case Some(m) => Some(rs + [Hit(n, hits.scores[n - 1], m.source, m.section, PrefixTo(m.text, TextLimit))])
  }

  /** `search(query, top_k)` as a function of the loaded state and the outside calls. */
  function SearchOver(st: Loaded, faissAvailable: bool, query: string, topK: int, svc: Services): (r: seq<Entry>)
    ensures st.index.None? ==> |r| == 1 && r[0].Failure?
  {
    if st.index.None? && st.rawVectors.None? then [Failure(NoIndexMessage)]
    else if !faissAvailable then [Failure(NoFaissMessage)]
    else
      match svc.embed(query)
      case Err(e) => [Failure(e)]
      case Ok(v) =>
        if st.index.None? then [Failure(NoneSearchMessage)]
        else
          match svc.search(st.index.value, v, topK)
          case Err(e) => [Failure(e)]
          case Ok(hits) =>
            match ShapePrefix(hits, st.metadata, Min(|hits.scores|, |hits.ids|))
            case Some(rs) => rs
            case None => [Failure(IndexErrorMessage)]
  }

  /** A lookup that raised stays raised: later pairs cannot undo it. */
  lemma {:induction false} ShapeFailureStays(hits: Hits, metadata: Option<seq<MetaRecord>>, i: nat, n: nat)
    requires i <= n <= |hits.scores| && n <= |hits.ids|
    requires ShapePrefix(hits, metadata, i).None?
    ensures ShapePrefix(hits, metadata, n).None?
    decreases n - i
  {
    if i < n {
      ShapeFailureStays(hits, metadata, i + 1, n);
    }
  }

  /**
   * The shape of a successful result list: only hits, strictly increasing
   * ranks within `1..n`, never an id of -1, each score the one at its rank,
   * each text at most 500 characters and a prefix of its metadata text (or
   * empty with source and section "unknown" when no metadata entry applies).
   */
  lemma {:induction false} ShapeResults(hits: Hits, metadata: Option<seq<MetaRecord>>, n: nat)
    requires n <= |hits.scores| && n <= |hits.ids|
    requires ShapePrefix(hits, metadata, n).Some?
    ensures var rs := ShapePrefix(hits, metadata, n).value;
      && |rs| <= n
      && (forall i :: 0 <= i < |rs| ==> rs[i].Hit? && 1 <= rs[i].rank <= n)
      && (forall i, j :: 0 <= i < j < |rs| ==> rs[i].rank < rs[j].rank)
      && (forall i :: 0 <= i < |rs| ==> ShapedHit(hits, metadata, rs[i]))
    decreases n
  {
    if n > 0 {
      ShapeResults(hits, metadata, n - 1);
    }
  }

  /** A hit made from the pair at position `rank - 1`. */
  predicate ShapedHit(hits: Hits, metadata: Option<seq<MetaRecord>>, e: Entry)
    requires e.Hit? && 1 <= e.rank <= |hits.scores| && e.rank <= |hits.ids|
  {
    var idx := hits.ids[e.rank - 1];
    && idx != -1
    && e.score == hits.scores[e.rank - 1]
    && LookupMeta(metadata, idx).Some?
    && var m := LookupMeta(metadata, idx).value;
    && e.source == m.source && e.section == m.section
    && |e.text| <= TextLimit && e.text <= m.text
  }

  /**
   * A hit whose id has no metadata entry (no metadata at all, an empty list,
   * or an id at or past its end) reads `"unknown"` for source and section and
   * has empty text.
   */
  lemma {:induction false} OutsideMetadataUnknown(hits: Hits, metadata: Option<seq<MetaRecord>>, n: nat)
    requires n <= |hits.scores| && n <= |hits.ids|
    requires ShapePrefix(hits, metadata, n).Some?
    ensures var rs := ShapePrefix(hits, metadata, n).value;
      forall i ::
        (0 <= i < |rs| && rs[i].Hit? && 1 <= rs[i].rank <= n
         && (metadata.None? || |metadata.value| <= hits.ids[rs[i].rank - 1]))
        ==> rs[i].source == "unknown" && rs[i].section == "unknown" && rs[i].text == ""
    decreases n
  {
    if n > 0 {
      OutsideMetadataUnknown(hits, metadata, n - 1);
      ShapeResults(hits, metadata, n - 1);
    }
  }

  /** Every pair whose id is not -1 yields exactly one hit: the count of results is the count of such ids. */
  lemma {:induction false} ShapeCount(hits: Hits, metadata: Option<seq<MetaRecord>>, n: nat)
    requires n <= |hits.scores| && n <= |hits.ids|
    requires ShapePrefix(hits, metadata, n).Some?
    ensures |ShapePrefix(hits, metadata, n).value| == |NonMissing(hits.ids[..n])|
    decreases n
  {
    if n > 0 {
      ShapeCount(hits, metadata, n - 1);
      assert hits.ids[..n][..n - 1] == hits.ids[..n - 1];
    }
  }

  /** The positions FAISS filled: ids other than -1. */
  function NonMissing(ids: seq<int>): seq<int> {
    if ids == [] then []
    else NonMissing(ids[..|ids| - 1]) + (if ids[|ids| - 1] == -1 then [] else [ids[|ids| - 1]])
  }

  /**
   * An error entry never comes with others: whenever `search` reports an
   * error, it is the only entry of its result.
   */
  lemma FailureIsAlone(st: Loaded, faissAvailable: bool, query: string, topK: int, svc: Services)
    ensures var rs := SearchOver(st, faissAvailable, query, topK, svc);
      forall i :: 0 <= i < |rs| && rs[i].Failure? ==> |rs| == 1
  {
    var rs := SearchOver(st, faissAvailable, query, topK, svc);
    if st.index.Some? && faissAvailable && svc.embed(query).Ok? {
      var r := svc.search(st.index.value, svc.embed(query).value, topK);
      if r.Ok? {
        var n := Min(|r.value.scores|, |r.value.ids|);
        if ShapePrefix(r.value, st.metadata, n).Some? {
          ShapeResults(r.value, st.metadata, n);
        }
      }
    }
  }

  /** Without any index and without raw vectors, `search` answers the one "No index loaded" entry. */
  lemma NoIndexSearch(st: Loaded, faissAvailable: bool, query: string, topK: int, svc: Services)
    requires st.index.None? && st.rawVectors.None?
    ensures SearchOver(st, faissAvailable, query, topK, svc) == [Failure(NoIndexMessage)]
  {
  }

  /**
   * The raw vectors mode never searches: in every consistent state with raw
   * vectors the answer is the one `ImportError` entry, whatever the index
   * search and the embedding service would do.
   */
  lemma RawModeNeverSearches(st: Loaded, faissAvailable: bool, query: string, topK: int, svc: Services, other: Services)
    requires Consistent(st, faissAvailable) && st.rawVectors.Some?
    ensures SearchOver(st, faissAvailable, query, topK, svc) == [Failure(NoFaissMessage)]
    ensures SearchOver(st, faissAvailable, query, topK, svc) == SearchOver(st, faissAvailable, query, topK, other)
  {
  }

  /**
   * When the index returns at most `top_k` pairs, `search` returns at most
   * `top_k` entries (or a lone error).
   */
  lemma SearchBounded(st: Loaded, faissAvailable: bool, query: string, topK: int, svc: Services)
    requires forall h, v :: svc.search(h, v, topK).Ok? ==> |svc.search(h, v, topK).value.ids| <= topK
    ensures var rs := SearchOver(st, faissAvailable, query, topK, svc);
      |rs| <= topK || (|rs| == 1 && rs[0].Failure?)
  {
    if st.index.Some? && faissAvailable && svc.embed(query).Ok? {
      var r := svc.search(st.index.value, svc.embed(query).value, topK);
      if r.Ok? {
        var n := Min(|r.value.scores|, |r.value.ids|);
        if ShapePrefix(r.value, st.metadata, n).Some? {
          ShapeResults(r.value, st.metadata, n);
        }
      }
    }
  }

  /** `if section_filter`: a present, non-empty section. */
  predicate Truthy(section: Option<string>) {
    section.Some? && section.value != ""
  }

  /** `[r for r in results if r.get("section") == section]`: error entries have no section. */
  function InSection(results: seq<Entry>, section: string): (r: seq<Entry>)
    ensures |r| <= |results|
    ensures forall i :: 0 <= i < |r| ==> r[i].Hit? && r[i].section == section
  {
    if results == [] then []
    else (if results[0].Hit? && results[0].section == section then [results[0]] else []) + InSection(results[1..], section)
  }

  /** The `search_docs` result list: twice the pool when filtering, then filter and cut to `top_k`. */
  function SearchDocs(st: Loaded, faissAvailable: bool, query: string, topK: int, section: Option<string>, svc: Services): seq<Entry> {
    if Truthy(section) then PrefixTo(InSection(SearchOver(st, faissAvailable, query, topK * 2, svc), section.value), topK)
    else SearchOver(st, faissAvailable, query, topK, svc)
  }

  /**
   * The section filter keeps, in their original order, exactly the hits of
   * the requested section: the kept list is a subsequence (given by
   * increasing positions) and every hit of that section is in it.
   */
  lemma {:induction false} InSectionSpec(results: seq<Entry>, section: string)
    ensures var kept := InSection(results, section);
      && (forall e :: e in kept ==> e.Hit? && e.section == section && e in results)
      && (forall e :: e in results && e.Hit? && e.section == section ==> e in kept)
      && |kept| <= |results|
    decreases |results|
  {
    if results != [] {
      InSectionSpec(results[1..], section);
    }
  }

  /** The filter works entry by entry, so it keeps the original order: filtering a concatenation concatenates the filtered parts. */
  lemma {:induction false} InSectionAppend(a: seq<Entry>, b: seq<Entry>, section: string)
    ensures InSection(a + b, section) == InSection(a, section) + InSection(b, section)
    decreases |a|
  {
    if a != [] {
      assert (a + b)[1..] == a[1..] + b;
      InSectionAppend(a[1..], b, section);
    } else {
      assert a + b == b;
    }
  }

  /** With a filter, `search_docs` returns at most `top_k` hits, all of that section, and never an error entry. */
  lemma FilteredSearchDocs(st: Loaded, faissAvailable: bool, query: string, topK: int, section: Option<string>, svc: Services)
    requires Truthy(section) && 0 <= topK
    ensures var rs := SearchDocs(st, faissAvailable, query, topK, section, svc);
      && |rs| <= topK
      && forall e :: e in rs ==> e.Hit? && e.section == section.value
  {
    var pool := SearchOver(st, faissAvailable, query, topK * 2, svc);
    InSectionSpec(pool, section.value);
  }

  /** `f"## 📚 Search Results for: \"{query}\"\n\n"` */
  function ResultsHeader(query: string): string {
    "## \U{1F4DA} Search Results for: \"" + query + "\"\n\n"
  }

  /** `f"❌ Error: {r['error']}\n"` */
  function ErrorLine(msg: string): string {
    "\U{274C} Error: " + msg + "\n"
  }

  /** `f"### [{rank}] {source} (score: {score:.3f})\n"` */
  function HitHeading(rank: nat, source: string, score: string): string {
    "### [" + NatToString(rank) + "] " + source + " (score: " + score + ")\n"
  }

  /** `f"{text}\n\n---\n\n"` */
  function HitBody(text: string): string {
    text + "\n\n---\n\n"
  }

  /** The text one result entry adds to `text_output`. */
  function RenderEntry(e: Entry, formatScore: real -> string): string {
    match e
    case Failure(msg) => ErrorLine(msg)
    case Hit(rank, score, source, _, text) => HitHeading(rank, source, formatScore(score)) + HitBody(text)
  }

  function RenderAll(results: seq<Entry>, formatScore: real -> string): string {
    if results == [] then []
    else RenderAll(results[..|results| - 1], formatScore) + RenderEntry(results[|results| - 1], formatScore)
  }

  lemma RenderAllStep(results: seq<Entry>, k: nat, formatScore: real -> string)
    requires k < |results|
    ensures RenderAll(results[..k + 1], formatScore) == RenderAll(results[..k], formatScore) + RenderEntry(results[k], formatScore)
  {
    assert results[..k + 1][..k] == results[..k];
  }

  /** `text_output` after the rendering loop. */
  function Render(query: string, results: seq<Entry>, formatScore: real -> string): string {
    ResultsHeader(query) + RenderAll(results, formatScore)
  }

  /** `handle_request`: the reply it sends, if any. */
  function Respond(st: Loaded, faissAvailable: bool, req: RpcRequest, svc: Services): (r: Option<Reply>)
    ensures r.Some? ==> r.value.id == req.id
    ensures r.Some? && r.value.ErrorReply? ==> r.value.code == MethodNotFound
  {
    var methodName := req.methodName.GetOr("");
    var params := req.params.GetOr(Params(None, None));
    if methodName == "initialize" then Some(Response(req.id, InitializePayload))
    else if methodName == "tools/list" then Some(Response(req.id, ToolsPayload))
    else if methodName == "tools/call" then
      var name := params.name.GetOr("");
      var args := params.arguments.GetOr(Arguments(None, None, None));
      if name == "search_docs" then
        var query := args.query.GetOr("");
        var results := SearchDocs(st, faissAvailable, query, args.topK.GetOr(DefaultTopK), args.section, svc);
        Some(Response(req.id, ToolText(Render(query, results, svc.formatScore), false)))
      else Some(ErrorReply(req.id, MethodNotFound, "Unknown tool: " + name))
    else if methodName == "notifications/initialized" then None
    else if methodName == "ping" then Some(Response(req.id, Empty))
    else if req.id.Some? then Some(ErrorReply(req.id, MethodNotFound, "Method not found: " + methodName))
    else None
  }

  predicate KnownMethod(methodName: string) {
    methodName in {"initialize", "tools/list", "tools/call", "notifications/initialized", "ping"}
  }

  /**
   * Dispatch: the initialized notification gets no reply, `ping` an empty
   * result, an unknown tool a -32601 error whatever the id, and an unknown
   * method a -32601 error exactly when an id is present.
   */
  lemma Dispatch(st: Loaded, faissAvailable: bool, req: RpcRequest, svc: Services)
    ensures var methodName, reply := req.methodName.GetOr(""), Respond(st, faissAvailable, req, svc);
      && (methodName == "notifications/initialized" ==> reply.None?)
      && (methodName == "ping" ==> reply == Some(Response(req.id, Empty)))
      && (methodName == "initialize" ==> reply == Some(Response(req.id, InitializePayload)))
      && (methodName == "tools/list" ==> reply == Some(Response(req.id, ToolsPayload)))
      && (!KnownMethod(methodName) ==>
            (reply.Some? <==> req.id.Some?)
            && (reply.Some? ==> reply.value == ErrorReply(req.id, MethodNotFound, "Method not found: " + methodName)))
      && (reply.None? <==> methodName == "notifications/initialized" || (!KnownMethod(methodName) && req.id.None?))
  {
  }

  /** `tools/call` answers every tool other than `search_docs` with a -32601 error carrying the same id. */
  lemma UnknownTool(st: Loaded, faissAvailable: bool, req: RpcRequest, svc: Services)
    requires req.methodName == Some("tools/call")
    requires req.params.GetOr(Params(None, None)).name.GetOr("") != "search_docs"
    ensures var name := req.params.GetOr(Params(None, None)).name.GetOr("");
      Respond(st, faissAvailable, req, svc) == Some(ErrorReply(req.id, MethodNotFound, "Unknown tool: " + name))
  {
  }

  /** `{}` has method `""` and no id, so it gets no reply at all. */
  lemma EmptyObjectIgnored(st: Loaded, faissAvailable: bool, svc: Services)
    ensures Respond(st, faissAvailable, RpcRequest(None, None, None), svc).None?
  {
    assert !KnownMethod("");
  }

  /**
   * A `search_docs` call is always answered with a non-error text result
   * carrying the call's id: the rendering of the filtered search results,
   * which starts with the results header for the query.
   */
  lemma SearchDocsReply(st: Loaded, faissAvailable: bool, req: RpcRequest, svc: Services)
    requires req.methodName == Some("tools/call")
    requires req.params.Some? && req.params.value.name == Some("search_docs")
    ensures var args := req.params.value.arguments.GetOr(Arguments(None, None, None));
      var query := args.query.GetOr("");
      var results := SearchDocs(st, faissAvailable, query, args.topK.GetOr(DefaultTopK), args.section, svc);
      Respond(st, faissAvailable, req, svc) == Some(Response(req.id, ToolText(Render(query, results, svc.formatScore), false)))
      && ResultsHeader(query) <= Render(query, results, svc.formatScore)
  {
  }

  /**
   * With no index loaded, `search_docs` without a section renders the header
   * and the one error line; with a section filter the error entry is
   * filtered out and only the header remains.
   */
  lemma NoIndexReply(st: Loaded, faissAvailable: bool, query: string, topK: int, section: Option<string>, svc: Services)
    requires st.index.None? && st.rawVectors.None?
    ensures Render(query, SearchDocs(st, faissAvailable, query, topK, section, svc), svc.formatScore)
         == if Truthy(section) then ResultsHeader(query) else ResultsHeader(query) + ErrorLine(NoIndexMessage)
  {
    NoIndexDocs(st, faissAvailable, query, topK, section, svc);
    if !Truthy(section) {
      var rs := [Failure(NoIndexMessage)];
      assert rs[..0] == [];
      assert RenderAll(rs, svc.formatScore) == [] + ErrorLine(NoIndexMessage);
    } else {
      var none: seq<Entry> := [];
      assert RenderAll(none, svc.formatScore) == [];
    }
  }

  lemma NoIndexDocs(st: Loaded, faissAvailable: bool, query: string, topK: int, section: Option<string>, svc: Services)
    requires st.index.None? && st.rawVectors.None?
    ensures SearchDocs(st, faissAvailable, query, topK, section, svc)
         == if Truthy(section) then [] else [Failure(NoIndexMessage)]
  {
    if Truthy(section) {
      var rs := [Failure(NoIndexMessage)];
      assert SearchOver(st, faissAvailable, query, topK * 2, svc) == rs;
      assert InSection(rs, section.value) == [] + InSection([], section.value);
    }
  }

  /** The replies written for a sequence of handled requests, each framed. */
  function Outputs(st: Loaded, faissAvailable: bool, requests: seq<RpcRequest>, encode: Reply -> string, svc: Services): seq<string> {
    if requests == [] then []
    else
      Outputs(st, faissAvailable, requests[..|requests| - 1], encode, svc)
        + Answer(st, faissAvailable, requests[|requests| - 1], encode, svc)
  }

  /** What `run` writes for one handled request: its framed reply, if it gets one. */
  function Answer(st: Loaded, faissAvailable: bool, request: RpcRequest, encode: Reply -> string, svc: Services): seq<string> {
    match Respond(st, faissAvailable, request, svc)
    case Some(reply) => [Frame(encode(reply))]
    case None => []
  }

  /** One more line through `run`'s loop moves the state by `Next` and writes that step's answer after the earlier ones. */
  lemma RunStep(st: Loaded, faissAvailable: bool, done: seq<string>, line: string, parse: string -> Parsed<RpcRequest>,
                encode: Reply -> string, svc: Services)
    ensures var before := FeedAll(Idle, done, parse);
      var fed := Next(before.state, line, parse);
      var after := FeedAll(Idle, done + [line], parse);
      && after.state == fed.state
      && Outputs(st, faissAvailable, after.requests, encode, svc)
         == Outputs(st, faissAvailable, before.requests, encode, svc)
            + match fed.request {
                case Some(request) => Answer(st, faissAvailable, request, encode, svc)
                case None => []
              }
  {
    var before := FeedAll(Idle, done, parse);
    var fed := Next(before.state, line, parse);
    FeedAllSnoc(Idle, done, line, parse);
    var requests := before.requests + OptionSeq(fed.request);
    if fed.request.None? {
      assert requests == before.requests;
    } else {
      assert requests[..|before.requests|] == before.requests;
    }
  }

  /** `BeforeEof` is the prefix the loop consumes: the lines up to the first empty read. */
  lemma {:induction false} BeforeEofIsPrefix(lines: seq<string>, i: nat)
    requires i <= |lines| && "" !in lines[..i]
    requires i == |lines| || lines[i] == ""
    ensures BeforeEof(lines) == lines[..i]
    decreases i
  {
    if i > 0 {
      assert lines[0] == lines[..i][0];
      assert "" !in lines[1..][..i - 1] by { assert lines[1..][..i - 1] == lines[..i][1..]; }
      BeforeEofIsPrefix(lines[1..], i - 1);
      assert lines[..i] == [lines[0]] + lines[1..][..i - 1];
    } else if lines != [] {
      assert lines[0] == "";
    }
  }

  class VectorSearchServer {
    const faissAvailable: bool
    var index: Option<IndexHandle>
    var metadata: Option<seq<MetaRecord>>
    var rawVectors: Option<seq<ChunkRecord>>

    function State(): Loaded
      reads this
    {
      Loaded(index, metadata, rawVectors)
    }

    /** `__init__`: start empty, then `_load_index`. */
    constructor(disk: Disk, faissAvailable: bool)
      requires LoadOutcome(disk, faissAvailable).Some?
      ensures this.faissAvailable == faissAvailable
      ensures Some(State()) == LoadOutcome(disk, faissAvailable)
      ensures Consistent(State(), faissAvailable)
    {
      this.faissAvailable := faissAvailable;
      index := None;
      metadata := None;
      rawVectors := None;
      new;
      LoadIndex(disk);
      LoadOutcomeConsistent(disk, faissAvailable);
    }

    /** `_load_index`, setting the fields branch by branch. */
    method LoadIndex(disk: Disk)
      requires index.None? && metadata.None? && rawVectors.None?
      requires LoadOutcome(disk, faissAvailable).Some?
      modifies this
      ensures Some(State()) == LoadOutcome(disk, faissAvailable)
    {
      if !disk.indexExists {
        if disk.vectorsFile.Some? {
          var data := disk.vectorsFile.value;
          metadata := Some(MetadataOf(data));
          if faissAvailable {
            index := Some(FlatIndex(Embeddings(data)));
          } else {
            rawVectors := Some(data);
          }
          return;
        }
        return;
      }
      if !(faissAvailable && disk.indexReadable) {
        return;
      }
      index := Some(StoredIndex);
      if disk.metadataFile.Some? {
        metadata := disk.metadataFile;
      }
    }

    /** `search`: the early error, the guarded search, and the result loop. */
    method Search(query: string, topK: int, svc: Services) returns (results: seq<Entry>)
      ensures results == SearchOver(State(), faissAvailable, query, topK, svc)
    {
      if index.None? && rawVectors.None? {
        return [Failure(NoIndexMessage)];
      }
      if !faissAvailable {
        return [Failure(NoFaissMessage)];
      }
      var queryVec: Vector;
      match svc.embed(query) {
        case Err(e) => return [Failure(e)];
        case Ok(v) => queryVec := v;
      }
      if index.None? {
        return [Failure(NoneSearchMessage)];
      }
      var hits: Hits;
      match svc.search(index.value, queryVec, topK) {
        case Err(e) => return [Failure(e)];
        case Ok(h) => hits := h;
      }
      var n := Min(|hits.scores|, |hits.ids|);
      results := [];
      for i := 0 to n
        invariant ShapePrefix(hits, metadata, i) == Some(results)
      {
        var idx := hits.ids[i];
        if idx == -1 {
          continue;
        }
        var meta := UnknownMeta;
        if metadata.Some? && metadata.value != [] && idx < |metadata.value| {
          if idx < -|metadata.value| {
            ShapeFailureStays(hits, metadata, i + 1, n);
            return [Failure(IndexErrorMessage)];
          }
          meta := metadata.value[if 0 <= idx then idx else |metadata.value| + idx];
        }
        results := results + [Hit(i + 1, hits.scores[i], meta.source, meta.section, PrefixTo(meta.text, TextLimit))];
      }
    }

    /** The `search_docs` branch of `handle_request`: search, filter, and render `text_output`. */
    method SearchDocsText(query: string, topK: int, sectionFilter: Option<string>, svc: Services) returns (textOutput: string)
      ensures textOutput == Render(query, SearchDocs(State(), faissAvailable, query, topK, sectionFilter, svc), svc.formatScore)
    {
      var results := Search(query, if Truthy(sectionFilter) then topK * 2 else topK, svc);
      if Truthy(sectionFilter) {
        results := PrefixTo(InSection(results, sectionFilter.value), topK);
      }
      textOutput := RenderText(query, results, svc.formatScore);
    }

    /** The rendering loop of `handle_request`, building `text_output` entry by entry. */
    static method RenderText(query: string, results: seq<Entry>, formatScore: real -> string) returns (textOutput: string)
      ensures textOutput == Render(query, results, formatScore)
    {
      textOutput := ResultsHeader(query);
      for k := 0 to |results|
        invariant textOutput == ResultsHeader(query) + RenderAll(results[..k], formatScore)
      {
        RenderAllStep(results, k, formatScore);
        ghost var done := textOutput;
        var r := results[k];
        if r.Failure? {
          textOutput := textOutput + ErrorLine(r.error);
        } else {
          textOutput := textOutput + HitHeading(r.rank, r.source, formatScore(r.score));
          textOutput := textOutput + HitBody(r.text);
        }
        assert textOutput == done + RenderEntry(r, formatScore);
        assert textOutput == ResultsHeader(query) + RenderAll(results[..k + 1], formatScore) by {
          AppendAssoc(ResultsHeader(query), RenderAll(results[..k], formatScore), RenderEntry(r, formatScore));
        }
      }
      assert results[..|results|] == results;
    }

    /** `handle_request`; the reply it would send is returned instead of written. */
    method HandleRequest(request: RpcRequest, svc: Services) returns (reply: Option<Reply>)
      ensures reply == Respond(State(), faissAvailable, request, svc)
    {
      var methodName := request.methodName.GetOr("");
      var reqId := request.id;
      var params := request.params.GetOr(Params(None, None));
      if methodName == "initialize" {
        reply := Some(Response(reqId, InitializePayload));
      } else if methodName == "tools/list" {
        reply := Some(Response(reqId, ToolsPayload));
      } else if methodName == "tools/call" {
        var toolName := params.name.GetOr("");
        var args := params.arguments.GetOr(Arguments(None, None, None));
        if toolName == "search_docs" {
          var query := args.query.GetOr("");
          var topK := args.topK.GetOr(DefaultTopK);
          var sectionFilter := args.section;
          var textOutput := SearchDocsText(query, topK, sectionFilter, svc);
          reply := Some(Response(reqId, ToolText(textOutput, false)));
        } else {
          reply := Some(ErrorReply(reqId, MethodNotFound, "Unknown tool: " + toolName));
        }
      } else if methodName == "notifications/initialized" {
        reply := None;
      } else if methodName == "ping" {
        reply := Some(Response(reqId, Empty));
      } else if reqId.Some? {
        reply := Some(ErrorReply(reqId, MethodNotFound, "Method not found: " + methodName));
      } else {
        reply := None;
      }
    }

    /**
     * `run`: read lines until an empty read, frame requests out of them, and
     * write a framed reply for every request that gets one.
     */
    method Run(lines: seq<string>, parse: string -> Parsed<RpcRequest>, encode: Reply -> string, svc: Services)
      returns (written: seq<string>)
      ensures var fed := FeedAll(Idle, BeforeEof(lines), parse);
        written == Outputs(State(), faissAvailable, fed.requests, encode, svc)
    {
      var buffer := "";
      var contentLength: Option<int> := None;
      written := [];
      var i := 0;
      while i < |lines|
        invariant 0 <= i <= |lines| && "" !in lines[..i]
        invariant FeedAll(Idle, lines[..i], parse).state == Framer(buffer, contentLength)
        invariant written == Outputs(State(), faissAvailable, FeedAll(Idle, lines[..i], parse).requests, encode, svc)
      {
        var line := lines[i];
        if line == "" {
          break;
        }
        TakeOneMore(lines, i);
        var out;
        buffer, contentLength, out := ReadStep(buffer, contentLength, line, parse, encode, svc);
        RunStep(State(), faissAvailable, lines[..i], line, parse, encode, svc);
        written := written + out;
        i := i + 1;
      }
      BeforeEofIsPrefix(lines, i);
    }

    /** One line of `run`'s loop: add it to the buffer, then act on the header, a blank line or a complete body. */
    method ReadStep(buffer: string, contentLength: Option<int>, line: string, parse: string -> Parsed<RpcRequest>,
                    encode: Reply -> string, svc: Services)
      returns (buffer': string, contentLength': Option<int>, out: seq<string>)
      ensures var fed := Next(Framer(buffer, contentLength), line, parse);
        && Framer(buffer', contentLength') == fed.state
        && out == match fed.request {
             case Some(request) => Answer(State(), faissAvailable, request, encode, svc)
             case None => []
           }
    {
      buffer' := buffer + line;
      contentLength' := contentLength;
      out := [];
      if contentLength'.None? {
        if StartsWith(buffer', HeaderPrefix) {
          assert buffer'[14] == ':';
          match ParseInt(Strip(FieldAfterFirst(buffer', ':'))) {
            case Some(n) =>
              contentLength' := Some(n);
              buffer' := "";
            case None =>
          }
        } else if buffer' == "\r\n" || buffer' == "\n" {
          buffer' := "";
        }
      } else if Strip(buffer') == "" {
        buffer' := "";
      } else if Utf8Len(buffer') >= contentLength'.value {
        match parse(PrefixTo(buffer', contentLength'.value)) {
          case Malformed =>
            buffer' := "";
            contentLength' := None;
          case NotAnObject =>
          case Request(request) =>
            var reply := HandleRequest(request, svc);
            if reply.Some? {
              out := [Frame(encode(reply.value))];
            }
            buffer' := "";
            contentLength' := None;
        }
      }
    }
  }
}
