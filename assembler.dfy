/**
 * The ingestion pipeline of one file: pick a loader by extension, load the
 * text, chunk it, embed the chunks, assemble one record per chunk with its
 * metadata and deterministic id, and flatten the records into the parallel
 * lists of one batch insert. The embedder, the splitter and the file contents
 * are inputs; the vector store itself is not part of this model.
 */
module Assembler {
  import opened Wrappers
  import opened PathLib
  import opened Schema
  import Loader
  import Chunker

  const Backslash: char := '\\'

  // ---------------------------------------------------------------------
  // Relative paths
  // ---------------------------------------------------------------------

  /** The file lies under the data directory, lexically. */
  predicate UnderDataDir(filePath: string, dataDir: string) {
    RelativeTo(ParsePath(filePath), ParsePath(dataDir)).Some?
  }

  /**
   * `str(get_relative_path(file_path, data_dir))`: the path relative to the
   * data directory, or only the file name when the file is not under it. The
   * result never starts with a separator, and outside the data directory it
   * holds none.
   */
  function GetRelativePath(filePath: string, dataDir: string): (rel: string)
    ensures rel == "" || rel[0] != Sep
    ensures !UnderDataDir(filePath, dataDir) ==> rel == Name(ParsePath(filePath)) && Sep !in rel
  {
    var p := ParsePath(filePath);
    match RelativeTo(p, ParsePath(dataDir))
    case Some(r) =>
      if r.tail == [] then PathStr(r) else JoinStartsWithPart(r.tail); PathStr(r)
    case None =>
      var name := Name(p);
      assert name == "" || name[0] in name;
      name
  }

  /**
   * Under the data directory, the result is "." when the file is the directory
   * itself, and otherwise its "/"-separated pieces are exactly the components
   * that follow the directory's; it reads back as that relative path.
   */
  lemma RelativePathUnderDataDir(filePath: string, dataDir: string)
    requires UnderDataDir(filePath, dataDir)
    ensures var rest := ParsePath(filePath).tail[|ParsePath(dataDir).tail|..];
      && (rest == [] ==> GetRelativePath(filePath, dataDir) == ".")
      && (rest != [] ==> Split(GetRelativePath(filePath, dataDir)) == rest)
    ensures var rel := ParsePath(GetRelativePath(filePath, dataDir));
      rel.root == "" && ParsePath(dataDir).tail + rel.tail == ParsePath(filePath).tail
  {
    var p := ParsePath(filePath);
    var rest := p.tail[|ParsePath(dataDir).tail|..];
    var rel := RelativeTo(p, ParsePath(dataDir)).value;
    assert rel == PurePath("", rest);
    assert ValidPath(rel) by {
      forall i | 0 <= i < |rest|
        ensures IsPart(rest[i])
      {
        assert rest[i] == p.tail[|ParsePath(dataDir).tail| + i];
      }
    }
    assert rest != [] ==> rel.root + Join(rest) != "" by {
      if rest != [] {
        JoinStartsWithPart(rest);
      }
    }
    assert PathStr(rel)[|rel.root|..] == PathStr(rel);
    ParsePathStr(rel);
  }

  /** Outside the data directory, a file path whose text after the last "/" is a component keeps just that text. */
  lemma RelativePathOutsideDataDir(filePath: string, dataDir: string)
    requires !UnderDataDir(filePath, dataDir) && IsPart(Basename(filePath))
    ensures GetRelativePath(filePath, dataDir) == Basename(filePath)
  {
    NameIsBasename(filePath);
  }

  /** The `file_path` attribute: the relative path with every backslash turned into a slash. */
  function StoredFilePath(filePath: string, dataDir: string): (stored: string)
    ensures |stored| == |GetRelativePath(filePath, dataDir)|
    ensures Backslash !in stored
    ensures forall i :: 0 <= i < |stored| ==>
      stored[i] == if GetRelativePath(filePath, dataDir)[i] == Backslash then Sep else GetRelativePath(filePath, dataDir)[i]
  {
    ReplaceChar(GetRelativePath(filePath, dataDir), Backslash, Sep)
  }

  // ---------------------------------------------------------------------
  // Assembling records (`_get_records`)
  // ---------------------------------------------------------------------

  /** The metadata every chunk of the file shares; the chunk index is set per chunk. */
  function FileMetadata(filePath: string, dataDir: string): RAGMetadata {
    RAGMetadata(
      sourceName := Basename(filePath),
      sourceType := LStrip(SplitExt(filePath).1, ExtSep),
      attributes := ExtraAttributes(filePath := Some(StoredFilePath(filePath, dataDir))))
  }

  function WithChunkIndex(m: RAGMetadata, index: nat): RAGMetadata {
    m.(attributes := m.attributes.(chunkIndex := index))
  }

  /** The record of chunk `index`, built through the record constructor (so its id is derived). */
  function ChunkRecord(base: RAGMetadata, index: nat, chunk: string, vector: Vector): RAGRecord {
    NewRecord(None, chunk, Some(vector), None, WithChunkIndex(base, index))
  }

  /** The records of `chunks`, chunk `i` paired with `vectors[i]` and numbered `i`. */
  function BuildRecords(base: RAGMetadata, chunks: seq<string>, vectors: seq<Vector>): (rs: seq<RAGRecord>)
    requires |chunks| <= |vectors|
    ensures |rs| == |chunks|
    ensures forall i :: 0 <= i < |chunks| ==> rs[i] == ChunkRecord(base, i, chunks[i], vectors[i])
  {
    seq(|chunks|, i requires 0 <= i < |chunks| => ChunkRecord(base, i, chunks[i], vectors[i]))
  }

  lemma BuildRecordsSnoc(base: RAGMetadata, chunks: seq<string>, vectors: seq<Vector>, n: nat)
    requires n < |chunks| && n < |vectors|
    ensures BuildRecords(base, chunks[..n + 1], vectors)
         == BuildRecords(base, chunks[..n], vectors) + [ChunkRecord(base, n, chunks[n], vectors[n])]
  {
    var a := BuildRecords(base, chunks[..n + 1], vectors);
    var b := BuildRecords(base, chunks[..n], vectors) + [ChunkRecord(base, n, chunks[n], vectors[n])];
    assert |a| == |b|;
    forall i | 0 <= i < |a|
      ensures a[i] == b[i]
    {
      if i < n {
        assert chunks[..n + 1][i] == chunks[..n][i] == chunks[i];
      }
    }
  }

  /** The failures of the assembly loop: the embedder returned `None`, or fewer vectors than chunks. */
  datatype AssemblyError = EmbeddingsNone | EmbeddingIndexOutOfRange(index: nat)

  /**
   * What the assembly loop returns. With no chunks the embeddings are never
   * read; otherwise indexing `None` fails at the first chunk, and too short a
   * list of vectors fails at the first chunk without one.
   */
  function Assemble(filePath: string, dataDir: string, chunks: seq<string>, embeddings: Option<seq<Vector>>)
    : (r: Result<seq<RAGRecord>, AssemblyError>)
    ensures r.Ok? <==> chunks == [] || (embeddings.Some? && |chunks| <= |embeddings.value|)
    ensures r.Err? ==> r.error == if embeddings.None? then EmbeddingsNone else EmbeddingIndexOutOfRange(|embeddings.value|)
    ensures r.Ok? ==> |r.value| == |chunks|
  {
    if chunks == [] then Ok([])
    else if embeddings.None? then Err(EmbeddingsNone)
    else if |embeddings.value| < |chunks| then Err(EmbeddingIndexOutOfRange(|embeddings.value|))
    else Ok(BuildRecords(FileMetadata(filePath, dataDir), chunks, embeddings.value))
  }

  /**
   * Record `i` of a successful assembly holds chunk `i` and vector `i`, no
   * distance, the file's base name and extension, the stored relative path,
   * chunk index `i`, and the id derived from that metadata.
   */
  lemma AssembledRecord(filePath: string, dataDir: string, chunks: seq<string>, embeddings: Option<seq<Vector>>, i: nat)
    requires embeddings.Some? && i < |chunks| <= |embeddings.value|
    ensures var r := Assemble(filePath, dataDir, chunks, embeddings).value[i];
      && r.document == chunks[i]
      && r.vector == Some(embeddings.value[i])
      && r.distance == None
      && r.metadata.sourceName == Basename(filePath)
      && r.metadata.sourceType == LStrip(SplitExt(filePath).1, ExtSep)
      && r.metadata.attributes == ExtraAttributes(Some(StoredFilePath(filePath, dataDir)), None, i)
      && r.id == Some(Uuid5(IdKey(r.metadata)))
  {
  }

  /** What the loop of `AssembleRecords` has built once every chunk has its vector. */
  lemma AssembleAll(filePath: string, dataDir: string, chunks: seq<string>, embeddings: Option<seq<Vector>>,
                    records: seq<RAGRecord>)
    requires chunks != [] && embeddings.Some? && |chunks| <= |embeddings.value|
    requires records == BuildRecords(FileMetadata(filePath, dataDir), chunks[..|chunks|], embeddings.value)
    ensures Assemble(filePath, dataDir, chunks, embeddings) == Ok(records)
  {
    assert chunks[..|chunks|] == chunks;
  }

  /** The loop of `_get_records`: one record per chunk, in chunk order. */
  method AssembleRecords(filePath: string, dataDir: string, chunks: seq<string>, embeddings: Option<seq<Vector>>)
    returns (result: Result<seq<RAGRecord>, AssemblyError>)
    ensures result == Assemble(filePath, dataDir, chunks, embeddings)
  {
    var base := FileMetadata(filePath, dataDir);
    var vectors := embeddings.GetOr([]);
    var records: seq<RAGRecord> := [];
    for idx := 0 to |chunks|
      invariant embeddings.Some? ==> vectors == embeddings.value
      invariant idx > 0 ==> embeddings.Some? && idx <= |vectors|
      invariant idx <= |vectors| ==> records == BuildRecords(base, chunks[..idx], vectors)
    {
      var metadata := WithChunkIndex(base, idx);
      if embeddings.None? {
        assert Assemble(filePath, dataDir, chunks, embeddings) == Err(EmbeddingsNone);
        return Err(EmbeddingsNone);
      }
      if idx >= |embeddings.value| {
        assert idx == |embeddings.value| < |chunks|;
        return Err(EmbeddingIndexOutOfRange(idx));
      }
      var record := NewRecord(None, chunks[idx], Some(vectors[idx]), None, metadata);
      assert record == ChunkRecord(base, idx, chunks[idx], vectors[idx]);
      BuildRecordsSnoc(base, chunks, vectors, idx);
      records := records + [record];
    }
    if chunks == [] {
      assert Assemble(filePath, dataDir, chunks, embeddings) == Ok([]);
      return Ok([]);
    }
    AssembleAll(filePath, dataDir, chunks, embeddings, records);
    return Ok(records);
  }

  /** Re-assembling a file with the same number of chunks gives the same ids, whatever the chunks say. */
  lemma ReassemblySameIds(filePath: string, dataDir: string, c1: seq<string>, e1: Option<seq<Vector>>,
                          c2: seq<string>, e2: Option<seq<Vector>>, i: nat)
    requires e1.Some? && |c1| <= |e1.value| && e2.Some? && |c2| <= |e2.value|
    requires i < |c1| && i < |c2|
    ensures Assemble(filePath, dataDir, c1, e1).value[i].id == Assemble(filePath, dataDir, c2, e2).value[i].id
  {
    var m1 := Assemble(filePath, dataDir, c1, e1).value[i].metadata;
    var m2 := Assemble(filePath, dataDir, c2, e2).value[i].metadata;
    assert m1 == m2;
  }

  /** Within one file the id keys of different chunks differ. */
  lemma AssembledKeysDistinct(filePath: string, dataDir: string, chunks: seq<string>, embeddings: Option<seq<Vector>>,
                              i: nat, j: nat)
    requires embeddings.Some? && |chunks| <= |embeddings.value|
    requires i < j < |chunks|
    ensures var rs := Assemble(filePath, dataDir, chunks, embeddings).value;
      IdKey(rs[i].metadata) != IdKey(rs[j].metadata)
  {
    var rs := Assemble(filePath, dataDir, chunks, embeddings).value;
    IdKeySeparatesChunks(rs[i].metadata, rs[j].metadata);
  }

  // ---------------------------------------------------------------------
  // Batch insert (`_records_to_db`)
  // ---------------------------------------------------------------------

  /** The four parallel lists handed to the store's `add_documents`. */
  datatype Batch = Batch(ids: seq<Option<string>>, texts: seq<string>, embeddings: seq<Option<Vector>>, metadatas: seq<MetaMap>)

  /**
   * The batch for `records`: entry `i` of each list comes from the store format
   * of record `i`. No records means no insert (`None`).
   */
  function RecordsToDb(records: seq<RAGRecord>): (b: Option<Batch>)
    ensures b.None? <==> records == []
    ensures b.Some? ==>
      && |b.value.ids| == |records| && |b.value.texts| == |records|
      && |b.value.embeddings| == |records| && |b.value.metadatas| == |records|
      && forall i :: 0 <= i < |records| ==>
           ToDbFormat(records[i]) == DbEntry(b.value.ids[i], b.value.texts[i], b.value.embeddings[i], b.value.metadatas[i])
  {
    var formatted := seq(|records|, i requires 0 <= i < |records| => ToDbFormat(records[i]));
    if formatted == [] then None
    else
      Some(Batch(
        seq(|formatted|, i requires 0 <= i < |formatted| => formatted[i].id),
        seq(|formatted|, i requires 0 <= i < |formatted| => formatted[i].document),
        seq(|formatted|, i requires 0 <= i < |formatted| => formatted[i].vector),
        seq(|formatted|, i requires 0 <= i < |formatted| => formatted[i].metadata)))
  }

  /**
   * Reading a stored batch back (documents, metadatas and ids as `get` returns
   * them) rebuilds the records that went in, without their vectors.
   */
  lemma StoredBatchRebuilds(records: seq<RAGRecord>, storedIds: seq<string>)
    requires records != []
    requires |storedIds| == |records|
    requires forall i :: 0 <= i < |records| ==> records[i].id == Some(storedIds[i])
    ensures var b := RecordsToDb(records).value;
      var back := Reconstruct(Unwrap(Flat(b.texts, b.metadatas, [], storedIds)));
      && back.Ok? && |back.value| == |records|
      && forall i :: 0 <= i < |records| ==> back.value[i] == records[i].(vector := None, distance := None)
  {
    var b := RecordsToDb(records).value;
    var c := Unwrap(Flat(b.texts, b.metadatas, [], storedIds));
    forall i | 0 <= i < |records|
      ensures RecordAt(c, i) == Ok(records[i].(vector := None, distance := None))
    {
      RebuildFlattened(records[i].metadata);
      assert MetaAt(c, i) == FlattenMetadata(records[i].metadata);
    }
  }

  /** The ids an assembled record carries: each one derived from its own metadata. */
  function DerivedIds(rs: seq<RAGRecord>): (ids: seq<string>)
    ensures |ids| == |rs|
    ensures forall i :: 0 <= i < |rs| ==> ids[i] == Uuid5(IdKey(rs[i].metadata))
  {
    seq(|rs|, i requires 0 <= i < |rs| => Uuid5(IdKey(rs[i].metadata)))
  }

  lemma DerivedBatchRebuilds(rs: seq<RAGRecord>)
    requires rs != []
    requires forall i :: 0 <= i < |rs| ==> rs[i].id == Some(Uuid5(IdKey(rs[i].metadata))) && rs[i].distance == None
    ensures var b := RecordsToDb(rs).value;
      forall i :: 0 <= i < |rs| ==> b.ids[i] == Some(DerivedIds(rs)[i])
    ensures var b := RecordsToDb(rs).value;
      var back := Reconstruct(Unwrap(Flat(b.texts, b.metadatas, [], DerivedIds(rs))));
      && back.Ok? && |back.value| == |rs|
      && forall i :: 0 <= i < |rs| ==> back.value[i] == rs[i].(vector := None)
  {
    StoredBatchRebuilds(rs, DerivedIds(rs));
  }

  /** The records assembled from a file all carry ids, so their batch reads back as they went in, without vectors. */
  lemma AssembledBatchRebuilds(filePath: string, dataDir: string, chunks: seq<string>, embeddings: Option<seq<Vector>>)
    requires embeddings.Some? && 0 < |chunks| <= |embeddings.value|
    ensures var rs := Assemble(filePath, dataDir, chunks, embeddings).value;
      var b := RecordsToDb(rs).value;
      |b.ids| == |chunks| && forall i :: 0 <= i < |chunks| ==> b.ids[i] == Some(DerivedIds(rs)[i])
    ensures var rs := Assemble(filePath, dataDir, chunks, embeddings).value;
      var b := RecordsToDb(rs).value;
      var back := Reconstruct(Unwrap(Flat(b.texts, b.metadatas, [], DerivedIds(rs))));
      && back.Ok? && |back.value| == |chunks|
      && forall i :: 0 <= i < |chunks| ==> back.value[i] == rs[i].(vector := None)
  {
    var rs := Assemble(filePath, dataDir, chunks, embeddings).value;
    forall i | 0 <= i < |rs|
      ensures rs[i].id == Some(Uuid5(IdKey(rs[i].metadata))) && rs[i].distance == None
    {
      AssembledRecord(filePath, dataDir, chunks, embeddings, i);
    }
    DerivedBatchRebuilds(rs);
  }

  // ---------------------------------------------------------------------
  // The whole pipeline (`_get_records`, `store_file`)
  // ---------------------------------------------------------------------

  /** `HuggingFaceEmbedder.embed(chunks)`: one vector per chunk, or `None` when the call fails. */
  type Embedder = seq<string> -> Option<seq<Vector>>

  datatype IngestError = NoLoader(loaderError: Loader.LoaderError) | Assembly(assemblyError: AssemblyError)

  /** The chunks of a file once loaded with `loader`. */
  function FileChunks(filePath: string, loader: Loader.DataLoader, file: Loader.SourceFile, split: Chunker.Splitter): seq<string> {
    Chunker.ChunkFile(Loader.LoadedText(loader, file), SplitExt(filePath).1, split)
  }

  /**
   * What `_get_records(file_path)` returns or raises: the loader error exactly
   * when no loader takes the extension; otherwise one record per chunk of the
   * loaded text, or an assembly error when the embedder gave no vector for
   * some chunk.
   */
  function Ingest(filePath: string, dataDir: string, file: Loader.SourceFile, split: Chunker.Splitter, embed: Embedder)
    : (r: Result<seq<RAGRecord>, IngestError>)
    ensures r.Err? && r.error.NoLoader? <==> Loader.LoaderFor(SplitExt(filePath).1).Err?
    ensures r.Err? && r.error.NoLoader? ==> r.error.loaderError == Loader.LoaderFor(SplitExt(filePath).1).error
    ensures Loader.LoaderFor(SplitExt(filePath).1).Ok? ==>
      var chunks := FileChunks(filePath, Loader.LoaderFor(SplitExt(filePath).1).value, file, split);
      && (r.Ok? <==> chunks == [] || (embed(chunks).Some? && |chunks| <= |embed(chunks).value|))
      && (r.Ok? ==> |r.value| == |chunks|)
  {
    match Loader.LoaderFor(SplitExt(filePath).1)
    case Err(e) => Err(NoLoader(e))
    case Ok(loader) =>
      var chunks := FileChunks(filePath, loader, file, split);
      match Assemble(filePath, dataDir, chunks, embed(chunks))
      case Err(e) => Err(Assembly(e))
      case Ok(rs) => Ok(rs)
  }

  /** `_get_records`: load, chunk, embed and assemble, failing first on an unsupported extension. */
  method GetRecords(filePath: string, dataDir: string, file: Loader.SourceFile, split: Chunker.Splitter, embed: Embedder)
    returns (result: Result<seq<RAGRecord>, IngestError>)
    ensures result == Ingest(filePath, dataDir, file, split, embed)
  {
    var (_, ext) := SplitExt(filePath);
    var loader := Loader.GetLoader(ext);
    if loader.Err? {
      return Err(NoLoader(loader.error));
    }
    var data := Loader.LoadData(loader.value, file);
    var chunks := Chunker.ChunkFile(data, ext, split);
    var embeddings := embed(chunks);
    var assembled := AssembleRecords(filePath, dataDir, chunks, embeddings);
    if assembled.Err? {
      return Err(Assembly(assembled.error));
    }
    return Ok(assembled.value);
  }

  /** An unsupported extension fails before the file is read, chunked or embedded. */
  lemma IngestRejectsUnsupported(filePath: string, dataDir: string, file: Loader.SourceFile, split: Chunker.Splitter, embed: Embedder)
    ensures Ingest(filePath, dataDir, file, split, embed).Err? && Ingest(filePath, dataDir, file, split, embed).error.NoLoader?
      <==> SplitExt(filePath).1 !in [".txt", ".md", ".pdf"]
  {
    Loader.LoaderDispatch(SplitExt(filePath).1);
  }

  /** A markdown file is split with the markdown separators, a ".txt" or PDF file with the text ones. */
  lemma IngestSeparators(filePath: string, loader: Loader.DataLoader, file: Loader.SourceFile, split: Chunker.Splitter)
    ensures SplitExt(filePath).1 == ".md" ==>
      FileChunks(filePath, loader, file, split) == split(Loader.LoadedText(loader, file), 1000, 200, Chunker.MarkdownSeparators)
    ensures SplitExt(filePath).1 != ".md" ==>
      FileChunks(filePath, loader, file, split) == split(Loader.LoadedText(loader, file), 1000, 200, Chunker.TextSeparators)
  {
  }

  /** Ingesting the same file path twice gives the same ids chunk for chunk, even if the contents changed. */
  lemma ReingestSameIds(filePath: string, dataDir: string, f1: Loader.SourceFile, f2: Loader.SourceFile,
                        split: Chunker.Splitter, embed: Embedder, i: nat)
    ensures var r1 := Ingest(filePath, dataDir, f1, split, embed);
      var r2 := Ingest(filePath, dataDir, f2, split, embed);
      r1.Ok? && r2.Ok? && i < |r1.value| && i < |r2.value| ==> r1.value[i].id == r2.value[i].id
  {
    var r1 := Ingest(filePath, dataDir, f1, split, embed);
    var r2 := Ingest(filePath, dataDir, f2, split, embed);
    if r1.Ok? && r2.Ok? && i < |r1.value| && i < |r2.value| {
      var loader := Loader.LoaderFor(SplitExt(filePath).1).value;
      var c1 := FileChunks(filePath, loader, f1, split);
      var c2 := FileChunks(filePath, loader, f2, split);
      if c1 != [] && c2 != [] {
        ReassemblySameIds(filePath, dataDir, c1, embed(c1), c2, embed(c2), i);
      }
    }
  }

  /** The batch `store_file` inserts: none when the file gave no records. */
  function StoredBatch(filePath: string, dataDir: string, file: Loader.SourceFile, split: Chunker.Splitter, embed: Embedder)
    : Result<Option<Batch>, IngestError>
  {
    match Ingest(filePath, dataDir, file, split, embed)
    case Err(e) => Err(e)
    case Ok(rs) => Ok(RecordsToDb(rs))
  }

  /** `store_file`: assemble the file's records and build the one batch insert for them. */
  method StoreFile(filePath: string, dataDir: string, file: Loader.SourceFile, split: Chunker.Splitter, embed: Embedder)
    returns (result: Result<Option<Batch>, IngestError>)
    ensures result == StoredBatch(filePath, dataDir, file, split, embed)
    ensures result.Ok? && result.value.Some? ==> forall i :: 0 <= i < |result.value.value.ids| ==> result.value.value.ids[i].Some?
  {
    var records := GetRecords(filePath, dataDir, file, split, embed);
    if records.Err? {
      return Err(records.error);
    }
    return Ok(RecordsToDb(records.value));
  }
}
