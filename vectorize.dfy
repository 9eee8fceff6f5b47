/**
 * The bookkeeping of scripts/vectorize_docs.py around `chunk_text`: the
 * embed-or-skip accumulation of chunk records over all documents, the IVF
 * partition count, and the two artifact layouts `build_index` can write.
 */
module Vectorize {
  import opened Wrappers
  import opened PyText
  import opened Chunking

  /** An embedding as the embedding service returns it. */
  type Vector = seq<real>

  /** One entry of `all_chunks`: `{"source", "section", "text", "embedding"}`. */
  datatype ChunkRecord = ChunkRecord(source: string, section: string, text: string, embedding: Vector)

  /** One entry of `docs_metadata.json`: `{"source", "text", "section"}`. */
  datatype MetaRecord = MetaRecord(source: string, section: string, text: string)

  /**
   * A discovered PDF as the main loop sees it: `pdf.parent.parent.name`,
   * `pdf.stem`, and the text PDF extraction produced.
   */
  datatype Document = Document(section: string, stem: string, text: string)

  /**
   * What `build_index` leaves on disk: with FAISS, an IVF index over the
   * vectors (in order) plus the metadata file; without it, the raw records.
   */
  datatype Artifacts =
    | IvfIndex(nlist: int, vectors: seq<Vector>, metadata: seq<MetaRecord>)
    | RawVectors(records: seq<ChunkRecord>)

  /**
   * `min(max(1, n // 10), 100)`: between 1 and 100 inverted lists, never more
   * lists than vectors, and at least ten vectors per list once there are ten.
   */
  function NList(n: nat): (r: int)
    ensures 1 <= r <= 100
    ensures n >= 1 ==> r <= n
    ensures n >= 10 ==> 10 * r <= n
    ensures r == 1 <==> n < 20
    ensures r == 100 <==> n >= 1000
  {
    Min(Max(1, n / 10), 100)
  }

  /** More vectors never mean fewer lists. */
  lemma NListMonotone(m: nat, n: nat)
    requires m <= n
    ensures NList(m) <= NList(n)
  {
    assert m / 10 <= n / 10;
  }

  function Meta(c: ChunkRecord): MetaRecord {
    MetaRecord(c.source, c.section, c.text)
  }

  /** The metadata list `build_index` writes: one entry per chunk, in chunk order. */
  function MetadataOf(chunks: seq<ChunkRecord>): (meta: seq<MetaRecord>)
    ensures |meta| == |chunks|
    ensures forall i :: 0 <= i < |chunks| ==>
      meta[i].source == chunks[i].source && meta[i].section == chunks[i].section && meta[i].text == chunks[i].text
  {
    seq(|chunks|, i requires 0 <= i < |chunks| => Meta(chunks[i]))
  }

  /** `save_raw_embeddings`: the output list copies every record's four fields, in order. */
  method SaveRawEmbeddings(chunks: seq<ChunkRecord>) returns (output: seq<ChunkRecord>)
    ensures output == chunks
  {
    output := [];
    for i := 0 to |chunks|
      invariant output == chunks[..i]
    {
      var c := chunks[i];
      output := output + [ChunkRecord(c.source, c.section, c.text, c.embedding)];
    }
  }

  /** The artifacts `build_index(chunks)` writes. */
  function Built(chunks: seq<ChunkRecord>, faissAvailable: bool): Artifacts {
    if faissAvailable then
      IvfIndex(NList(|chunks|), seq(|chunks|, i requires 0 <= i < |chunks| => chunks[i].embedding), MetadataOf(chunks))
    else RawVectors(chunks)
  }

  /**
   * `build_index`. With FAISS the vectors are trained into `NList(n)` lists;
   * the training call needs at least one vector, which the caller guarantees.
   */
  method BuildIndex(chunks: seq<ChunkRecord>, faissAvailable: bool) returns (built: Artifacts)
    requires faissAvailable ==> chunks != []
    ensures built == Built(chunks, faissAvailable)
    ensures built.IvfIndex? ==> 1 <= built.nlist <= |built.vectors| && |built.metadata| == |built.vectors|
  {
    if !faissAvailable {
      var output := SaveRawEmbeddings(chunks);
      return RawVectors(output);
    }
    var embeddings := seq(|chunks|, i requires 0 <= i < |chunks| => chunks[i].embedding);
    var nlist := NList(|chunks|);
    var metadata := MetadataOf(chunks);
    built := IvfIndex(nlist, embeddings, metadata);
  }

  /** `f"{section}/{pdf.stem}"` */
  function SourceOf(d: Document): string {
    d.section + "/" + d.stem
  }

  /**
   * The records the inner loop appends for `chunks`: one per chunk whose
   * embedding call succeeded, in order; a failed call appends nothing.
   */
  function EmbedChunks(source: string, section: string, chunks: seq<string>, embed: string -> Result<Vector>): seq<ChunkRecord> {
    if chunks == [] then []
    else
      var last := chunks[|chunks| - 1];
      EmbedChunks(source, section, chunks[..|chunks| - 1], embed) + RecordFor(source, section, last, embed)
  }

  /** The record one chunk contributes: one when its embedding call succeeds, none when it fails. */
  function RecordFor(source: string, section: string, chunk: string, embed: string -> Result<Vector>): seq<ChunkRecord> {
    match embed(chunk)
    case Ok(v) => [ChunkRecord(source, section, chunk, v)]
    case Err(_) => []
  }

  /** The records one document contributes: nothing when its text strips to empty. */
  function DocRecords(d: Document, embed: string -> Result<Vector>): seq<ChunkRecord> {
    if Strip(d.text) == [] then []
    else EmbedChunks(SourceOf(d), d.section, Chunks(d.text, DefaultChunkSize, DefaultOverlap), embed)
  }

  /** `all_chunks` after the main loop has visited `docs`. */
  function Collected(docs: seq<Document>, embed: string -> Result<Vector>): seq<ChunkRecord> {
    if docs == [] then []
    else Collected(docs[..|docs| - 1], embed) + DocRecords(docs[|docs| - 1], embed)
  }

  /**
   * The main loop of scripts/vectorize_docs.py from `all_chunks = []` on:
   * chunk each non-blank document with the defaults, embed chunk by chunk,
   * skip failures, and build the index only when something was collected.
   */
  method Vectorize(docs: seq<Document>, embed: string -> Result<Vector>, faissAvailable: bool)
    returns (all: seq<ChunkRecord>, built: Option<Artifacts>)
    ensures all == Collected(docs, embed)
    ensures built.Some? <==> all != []
    ensures built.Some? ==> built.value == Built(all, faissAvailable)
  {
    all := [];
    for i := 0 to |docs|
      invariant all == Collected(docs[..i], embed)
    {
      var pdf := docs[i];
      CollectedStep(docs, i, embed);
      if Strip(pdf.text) == [] {
        continue;
      }
      var chunks := ChunkText(pdf.text, DefaultChunkSize, DefaultOverlap);
      var records := EmbedEach(pdf, chunks, embed);
      all := all + records;
    }
    WholeSlice(docs);
    if all != [] {
      var artifacts := BuildIndex(all, faissAvailable);
      built := Some(artifacts);
    } else {
      built := None;
    }
  }

  /** The inner loop over one document's chunks: a record for every chunk whose embedding call succeeds. */
  method EmbedEach(pdf: Document, chunks: seq<string>, embed: string -> Result<Vector>) returns (records: seq<ChunkRecord>)
    ensures records == EmbedChunks(SourceOf(pdf), pdf.section, chunks, embed)
  {
    records := [];
    for j := 0 to |chunks|
      invariant records == EmbedChunks(SourceOf(pdf), pdf.section, chunks[..j], embed)
    {
      EmbedChunksStep(SourceOf(pdf), pdf.section, chunks, j, embed);
      match embed(chunks[j]) {
        case Ok(embedding) =>
          records := records + [ChunkRecord(pdf.section + "/" + pdf.stem, pdf.section, chunks[j], embedding)];
        case Err(_) =>
      }
    }
    WholeSlice(chunks);
  }

  lemma CollectedStep(docs: seq<Document>, i: nat, embed: string -> Result<Vector>)
    requires i < |docs|
    ensures Collected(docs[..i + 1], embed) == Collected(docs[..i], embed) + DocRecords(docs[i], embed)
  {
    var p := docs[..i + 1];
    assert p[..|p| - 1] == docs[..i];
  }

  lemma EmbedChunksStep(source: string, section: string, chunks: seq<string>, j: nat, embed: string -> Result<Vector>)
    requires j < |chunks|
    ensures EmbedChunks(source, section, chunks[..j + 1], embed)
         == EmbedChunks(source, section, chunks[..j], embed) + RecordFor(source, section, chunks[j], embed)
  {
    var p := chunks[..j + 1];
    assert p[..|p| - 1] == chunks[..j];
  }

  /** The chunks whose embedding call succeeds, in their original order. */
  function Succeeded(chunks: seq<string>, embed: string -> Result<Vector>): seq<string> {
    if chunks == [] then []
    else (if embed(chunks[0]).Ok? then [chunks[0]] else []) + Succeeded(chunks[1..], embed)
  }

  lemma {:induction false} SucceededSnoc(chunks: seq<string>, c: string, embed: string -> Result<Vector>)
    ensures Succeeded(chunks + [c], embed) == Succeeded(chunks, embed) + (if embed(c).Ok? then [c] else [])
    decreases |chunks|
  {
    if chunks != [] {
      assert (chunks + [c])[1..] == chunks[1..] + [c];
      SucceededSnoc(chunks[1..], c, embed);
    } else {
      assert Succeeded([c], embed) == (if embed(c).Ok? then [c] else []) + Succeeded([], embed);
    }
  }

  /**
   * The inner loop appends exactly the chunks whose embedding succeeded, in
   * order, each with the embedding the call returned and the document's
   * source and section.
   */
  lemma {:induction false} EmbedChunksKeepsSucceeded(source: string, section: string, chunks: seq<string>, embed: string -> Result<Vector>)
    ensures var rs := EmbedChunks(source, section, chunks, embed);
      && |rs| == |Succeeded(chunks, embed)|
      && (forall i :: 0 <= i < |rs| ==>
            && rs[i].text == Succeeded(chunks, embed)[i]
            && rs[i].source == source && rs[i].section == section
            && embed(rs[i].text) == Ok(rs[i].embedding))
    decreases |chunks|
  {
    if chunks != [] {
      var init, last := chunks[..|chunks| - 1], chunks[|chunks| - 1];
      EmbedChunksKeepsSucceeded(source, section, init, embed);
      assert init + [last] == chunks;
      SucceededSnoc(init, last, embed);
    }
  }

  /**
   * A document that strips to nothing also chunks to nothing, so the
   * emptiness guard of the main loop does not change what is collected.
   */
  lemma BlankGuardRedundant(d: Document, embed: string -> Result<Vector>)
    ensures DocRecords(d, embed) == EmbedChunks(SourceOf(d), d.section, Chunks(d.text, DefaultChunkSize, DefaultOverlap), embed)
  {
    NoChunksIffBlank(d.text, DefaultChunkSize, DefaultOverlap);
  }

  /**
   * Every collected record comes from one of the documents: its source is
   * `section + "/" + stem`, its text is one of that document's chunks (so
   * non-empty and already stripped), and its embedding is what the embedding
   * call returned for that text.
   */
  lemma {:induction false} CollectedShape(docs: seq<Document>, embed: string -> Result<Vector>)
    ensures forall r :: r in Collected(docs, embed) ==>
      && embed(r.text) == Ok(r.embedding)
      && r.text != [] && Strip(r.text) == r.text
      && exists d :: d in docs && r.source == SourceOf(d) && r.section == d.section
                     && r.text in Chunks(d.text, DefaultChunkSize, DefaultOverlap)
    decreases |docs|
  {
    if docs != [] {
      var init, d := docs[..|docs| - 1], docs[|docs| - 1];
      CollectedShape(init, embed);
      forall r | r in DocRecords(d, embed)
        ensures && embed(r.text) == Ok(r.embedding)
                && r.text != [] && Strip(r.text) == r.text
                && r.source == SourceOf(d) && r.section == d.section
                && r.text in Chunks(d.text, DefaultChunkSize, DefaultOverlap)
      {
        var cs := Chunks(d.text, DefaultChunkSize, DefaultOverlap);
        EmbedChunksInChunks(SourceOf(d), d.section, cs, embed, r);
        ChunksTrimmed(d.text, DefaultChunkSize, DefaultOverlap);
      }
      forall r | r in Collected(docs, embed)
        ensures exists d' :: d' in docs && r.source == SourceOf(d') && r.section == d'.section
                             && r.text in Chunks(d'.text, DefaultChunkSize, DefaultOverlap)
      {
        if r in Collected(init, embed) {
          var d' :| d' in init && r.source == SourceOf(d') && r.section == d'.section
                    && r.text in Chunks(d'.text, DefaultChunkSize, DefaultOverlap);
          assert d' in docs;
        } else {
          assert d in docs;
        }
      }
    }
  }

  lemma {:induction false} EmbedChunksInChunks(source: string, section: string, chunks: seq<string>, embed: string -> Result<Vector>, r: ChunkRecord)
    requires r in EmbedChunks(source, section, chunks, embed)
    ensures r.text in chunks && r.source == source && r.section == section && embed(r.text) == Ok(r.embedding)
    decreases |chunks|
  {
    var init, last := chunks[..|chunks| - 1], chunks[|chunks| - 1];
    if r in EmbedChunks(source, section, init, embed) {
      EmbedChunksInChunks(source, section, init, embed, r);
    }
  }
}
