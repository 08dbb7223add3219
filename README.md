# Eco_RAG ingestion core in Dafny

Eco_RAG is a retrieval-augmented-generation toolkit. It ingests a document file into a
vector store. A data loader is chosen by file extension and reads the text. A chunker,
also chosen by extension, splits the text. An embedder turns each chunk into a vector.
The assembler then builds one `RAGRecord` per chunk and inserts all of them in one
batch. Query results come back from the store as parallel lists and are rebuilt into
records, which may be sorted by distance.

This project models that core:

- **`Schema`** (`schema.dfy`) models the record model of `src/shcema.py`:
  - the `ExtraAttributes`, `RAGMetadata` and `RAGRecord` datatypes with their defaults;
  - the validator that derives a deterministic id from the key
    `source_name_source_type_file_path_chunk_index`;
  - the flattening of metadata into one scalar map for the store;
  - the rebuilding of records from query results. This is an imperative method over a
    `QueryResults` object, because the source pops keys out of the caller's mappings in
    place;
  - the sort by distance, where a missing distance counts as +infinity.
- **`Assembler`** (`assembler.dfy`) models `src/utils/assembler.py`:
  - the relative path stored with each chunk;
  - the record-building loop of `_get_records`, as a method proved against the function
    `Assemble`;
  - the whole `_get_records` pipeline and `store_file`;
  - the parallel lists of the batch insert.
- **`Loader`** (`loader.dfy`) models `src/utils/loader.py`:
  - the registry scan of `DataLoaderFactory.get_loader`, as a loop proved against a
    first-match function;
  - the page-concatenation loop of the PDF loader.
- **`Chunker`** (`chunker.dfy`) models `src/utils/chunker.py`: the chunker chosen for an
  extension, and the separator lists of the two chunkers. The splitter itself is a
  function parameter.
- **`Config`** (`config.dfy`) holds the chunk size and overlap defaults of
  `src/config.py`.
- **`PathLib`** (`pathlib.dfy`) holds the parts of Python's string, `os.path` and
  `pathlib` behaviour that the assembler relies on, for POSIX paths.
- **`Wrappers`** (`wrappers.dfy`) holds the `Option` and `Result` types.

A generated id is `uuid5` of its key string. The hash is the uninterpreted constant
`Schema.Uuid5`, so equal keys give equal ids. The model never assumes that different
keys give different ids.

## Model

| member | source | states |
|---|---|---|
| Schema.GenerateDeterministicId | src/shcema.py:32-40 | The result always has an id. A supplied id is kept. A missing id becomes `Uuid5` of the underscore-joined key of the metadata. No other field changes. |
| Schema.NewRecord | src/shcema.py:25-40 | Building a record keeps the given document, vector, distance and metadata. The id is the supplied one, or the one derived from the metadata key. |
| Schema.GeneratedIdDependsOnKeyFields | src/shcema.py:37-39 | Two records built without an id get the same id when their source name, source type, file path and chunk index agree. Document, vector, distance and url do not matter. |
| Schema.IdKeyShape | src/shcema.py:38 | The key starts with the source name and "_". It ends with "_" and the decimal chunk index, which holds no "_". |
| Schema.IdKeySeparatesChunks | src/shcema.py:38 | For the same source name, type and path, two keys are equal exactly when the chunk indices are equal. |
| Schema.IntTextInjective | src/shcema.py:38 | Different integers render as different decimal texts inside the key. |
| Schema.UnderscoreKeysCollide | src/shcema.py:38-39 | Joining with "_" is ambiguous: source ("a_b", "c") and source ("a", "b_c") share a key, and so share a generated id. |
| Schema.MissingPathCollidesWithNoneText | src/shcema.py:38 | A missing file path renders as "None", so it gives the same key as the file path "None". |
| Schema.FieldDefaults | src/shcema.py:8-30 | Default field values: no id, vector or distance; source type "unknown"; no file path or url; chunk index 0. Such a record built through the constructor gets the id of "<name>_unknown_None_0". |
| Schema.DumpAttributes | src/shcema.py:45 | The dumped attributes hold `chunk_index` always, and `file_path` and `url` exactly when they are set. |
| Schema.FlattenMetadata | src/shcema.py:44-47 | The flat map's keys are exactly `source_name`, `source_type`, `chunk_index`, plus `file_path` and `url` when set. It has no `attributes` key, and each value is the record's own. |
| Schema.ToDbFormat | src/shcema.py:42-54 | The store entry carries the record's own id, document and vector, with the flattened metadata. |
| Schema.Popped | src/shcema.py:96-100 | Popping removes exactly `file_path`, `url` and `chunk_index`. Every other key keeps its value. |
| Schema.RebuildMetadata | src/shcema.py:96-105 | Rebuilding succeeds exactly when the values read have the right types. Each field takes its value from the map, or its default ("unknown", None, 0) when the key is missing. |
| Schema.RebuildRecord | src/shcema.py:106-111 | A rebuilt record has no vector. It keeps the document and distance, and its metadata is the rebuilt one. Its id is the stored one, or is regenerated from the rebuilt metadata. It fails exactly when a value has the wrong type. |
| Schema.RebuildEmptyMetadata | src/shcema.py:91-105 | An empty mapping rebuilds to the defaults. |
| Schema.RebuildFlattened | src/shcema.py:42-54 | Rebuilding the flattening of any metadata gives that metadata back. |
| Schema.FlattenRebuilt | src/shcema.py:96-105 | Conversely, take a well-typed map that has the three keys flattening always writes and no other keys than the five it may write. Flattening what it rebuilds to gives that map back. |
| Schema.Unwrap | src/shcema.py:78-88 | Flat lists are left as they are. When the documents are nested, exactly one level is unwrapped: the first inner list of each of the four lists, or `[]` when that list is empty. |
| Schema.Reconstruct | src/shcema.py:90-113 | It is Ok exactly when every document's mapping is well typed. Then there is one record per document, in order, and record `i` is the one rebuilt from document `i`. A metadata, id or distance missing at `i` defaults to `{}`, None or None. |
| Schema.PoppedCount | src/shcema.py:90-100 | The number of mappings popped is at most the number of documents. It equals that number when rebuilding succeeds. |
| Schema.ReconstructFailsAt | src/shcema.py:96-106 | When document `k` is the first invalid one, the result is a ValidationError and `k + 1` mappings have been popped. |
| Schema.RebuildOne | src/shcema.py:90-111 | One turn of the loop: the record is the one rebuilt from document `idx` with its mapping, id and distance or their defaults. The caller's mapping at `idx` has its attribute keys popped. |
| Schema.GetRecordsFromResults | src/shcema.py:71-113 | Returns the records `Reconstruct` gives for the unwrapped lists, or its error. It leaves the caller's mappings popped up to and including the last one read, and changes nothing else. |
| Schema.QueryResults.constructor | src/shcema.py:72 | The caller's result lists, as a mutable object. |
| Schema.ReconstructFlattened | src/shcema.py:42-113 | A record with an id, flattened and handed back as a one-document result (flat, or nested as `query` returns it), rebuilds to itself without vector and distance. |
| Schema.ReconstructPastShortLists | src/shcema.py:90-93 | A document beyond the end of the metadata, id and distance lists rebuilds with the default metadata, a regenerated id and no distance. It is not an error. |
| Schema.InsertByDistance | src/shcema.py:122 | Inserting into a sorted list keeps it sorted by distance, and the result is the list plus the inserted record, as a multiset. |
| Schema.SortByDistance | src/shcema.py:115-122 | The result is a permutation of the input, ascending by distance. Records without a distance come last. |
| Schema.InsertKeepsTies | src/shcema.py:122 | Insertion places a record before the records that have its own distance. |
| Schema.SortIsStable | src/shcema.py:115-122 | For every distance, the records with that distance keep their input order. |
| PathLib.RFind | src/utils/assembler.py:41 | The result is the index of the last occurrence of the character, or -1 when there is none. |
| PathLib.LStrip | src/utils/assembler.py:52 | The result is the suffix left after removing the whole leading run of the character, so it does not start with it. |
| PathLib.ReplaceChar | src/utils/assembler.py:54 | Same length; every occurrence of the old character is replaced and every other character is kept. The old character no longer occurs. |
| PathLib.Split | src/utils/assembler.py:25 | `s.split("/")` gives at least one piece. No piece holds "/", and joining the pieces with "/" gives `s` back. |
| PathLib.SplitJoin | src/utils/assembler.py:25 | Splitting on "/" undoes joining with "/" when no part contains "/". |
| PathLib.Basename | src/utils/assembler.py:51 | `os.path.basename`: the longest suffix without a "/". |
| PathLib.SplitExt | src/utils/assembler.py:41 | `os.path.splitext`: root + ext is the path. The ext is empty, or a dot followed by neither "." nor "/". |
| PathLib.SplitExtFindsSuffix | src/utils/assembler.py:41 | The ext is non-empty exactly when some dot in the final component follows a character that is not a dot. |
| PathLib.ExtensionLosesOneDot | src/utils/assembler.py:41-52 | `lstrip('.')` of a found ext removes exactly its one leading dot. |
| PathLib.DropEmpty | src/utils/assembler.py:25 | Empty and "." pieces are dropped. Every remaining piece is a path component, and pieces that are all components stay unchanged. |
| PathLib.DropEmptySingle | src/utils/assembler.py:25 | One piece is kept exactly when it is a component, so neither "" nor ".". |
| PathLib.DropEmptyAppend | src/utils/assembler.py:25 | Dropping distributes over concatenation. With `DropEmptySingle`, this makes it the filter that keeps the components in order. |
| PathLib.RootOf | src/utils/assembler.py:25 | The root is "", "/" or "//" and is a prefix of the string. It is "" exactly when the string does not start with "/". It is "//" exactly when the string starts with exactly two "/". Three or more leading separators give "/". |
| PathLib.ParsePath | src/utils/assembler.py:25 | `PurePosixPath(s)` is a valid path: root "", "/" or "//", and components only. |
| PathLib.PathStr | src/utils/assembler.py:25 | `str(p)` is never empty. With no components it is "." (no root) or the root itself. Otherwise it starts with the root, and for a valid path the rest splits on "/" into exactly the components. For a valid path it starts with "/" exactly when the path has a root. |
| PathLib.ParsePathCollapsesSeparators | src/utils/assembler.py:25 | A doubled separator inside a path adds no component: "a//b" parses to the components "a", "b". |
| PathLib.ParsePathCollapsesDots | src/utils/assembler.py:25 | "." components and a trailing separator vanish: "/a/./b/" parses to root "/" and components "a", "b". |
| PathLib.Name | src/utils/assembler.py:28 | `.name` of a valid path has no "/", and it is "" exactly when the path has no components. |
| PathLib.SplitConcat | src/utils/assembler.py:25 | Splitting `a + "/" + b` gives the pieces of `a` followed by the pieces of `b`. |
| PathLib.SplitEndsWithBasename | src/utils/assembler.py:25-28 | The last piece of `s.split("/")` is `os.path.basename(s)`, and the pieces before it are those of the text before the last "/". |
| PathLib.NameIsBasename | src/utils/assembler.py:28 | When the text after the last "/" is a component, the parsed path's `.name` is exactly that text. |
| PathLib.RelativeTo | src/utils/assembler.py:25 | `relative_to` succeeds exactly when the roots are equal and the other path's components are a prefix. The result is then relative, and prefix + result is the path. |
| PathLib.ParsePathStr | src/utils/assembler.py:25 | Parsing `str(p)` gives `p` back for every valid path. |
| Assembler.GetRelativePath | src/utils/assembler.py:22-29 | The returned path never starts with "/". For a file not under the data directory, it is the `.name` of the parsed file path, which has no separator. The exact results in both cases are stated by `RelativePathUnderDataDir` and `RelativePathOutsideDataDir`. |
| Assembler.RelativePathUnderDataDir | src/utils/assembler.py:22-25 | For a file under the data directory, let `rest` be the file's components after the directory's. The returned path is "." when `rest` is empty, and otherwise it splits on "/" into exactly `rest`. It parses back as a relative path, and the directory's components followed by its components give the file's. |
| Assembler.RelativePathOutsideDataDir | src/utils/assembler.py:26-29 | For a file not under the data directory whose text after the last "/" is a component, the returned path is exactly that text. |
| Assembler.StoredFilePath | src/utils/assembler.py:54 | The stored path is the relative path with every backslash turned into "/" and every other character kept. It has the same length and no backslash. |
| Assembler.BuildRecords | src/utils/assembler.py:47-66 | One record per chunk, and record `i` is the record of chunk `i` with vector `i` and index `i`. |
| Assembler.Assemble | src/utils/assembler.py:45-66 | It is Ok exactly when there are no chunks or there are at least as many vectors as chunks. Otherwise it is the error of the first failing index: `None` embeddings, or the first index without a vector. Ok gives one record per chunk. |
| Assembler.AssembledRecord | src/utils/assembler.py:48-64 | Record `i` has chunk `i`, vector `i` and no distance. It has the file's basename, its extension without leading dots, the stored relative path, no url, chunk index `i`, and the id derived from that metadata. |
| Assembler.AssembleRecords | src/utils/assembler.py:47-66 | The loop returns exactly what `Assemble` states. |
| Assembler.ReassemblySameIds | src/utils/assembler.py:50-64 | Assembling the same path with the same data directory gives the same id at every chunk position, whatever the chunk texts and vectors. |
| Assembler.AssembledKeysDistinct | src/utils/assembler.py:48-55 | Within one file, different chunks get different id keys. |
| Assembler.RecordsToDb | src/utils/assembler.py:71-79 | No records means no insert. Otherwise the four lists have one entry per record, and entry `i` of each comes from the store format of record `i`. |
| Assembler.StoredBatchRebuilds | src/utils/assembler.py:73-79 | Records with ids, batched and read back as flat result lists, rebuild to themselves without vectors and distances. |
| Assembler.DerivedBatchRebuilds | src/utils/assembler.py:73-79 | The id stored for each record is the id derived from its metadata. Read back with those ids, the batch rebuilds to the records without their vectors. |
| Assembler.AssembledBatchRebuilds | src/utils/assembler.py:47-79 | The batch of an assembled file has one id per chunk, and each is the id derived from that record's metadata. Read back with those ids, it rebuilds to the assembled records without their vectors. |
| Assembler.Ingest | src/utils/assembler.py:40-66 | It fails with the loader's error exactly when no loader takes the extension. Otherwise it is Ok exactly when there are no chunks or the embedder gave at least one vector per chunk, and then there is one record per chunk. |
| Assembler.GetRecords | src/utils/assembler.py:40-66 | Choose the loader for the extension (or fail), load, chunk for the extension, embed, and assemble. The result is exactly `Ingest`. |
| Assembler.IngestRejectsUnsupported | src/utils/assembler.py:41-42 | Ingestion fails with the loader error exactly when the extension is not ".txt", ".md" or ".pdf". |
| Assembler.IngestSeparators | src/utils/assembler.py:43 | A ".md" file is split with size 1000, overlap 200 and the markdown separators. Every other file is split with the text separators. |
| Assembler.ReingestSameIds | src/utils/assembler.py:40-66 | Ingesting the same path twice gives the same id at every chunk position, even when the file's contents changed. |
| Assembler.StoreFile | src/utils/assembler.py:34-37 | Returns the one batch `store_file` would insert, or the ingestion error. Every id in the batch is present. |
| Loader.FirstSupporting | src/utils/loader.py:46-52 | Points at the first loader of the registry supporting the extension: none before it does. It is the registry's length when none does. |
| Loader.LoaderFor | src/utils/loader.py:49-53 | A returned loader is registered and supports the extension. It is the error exactly when no registered loader supports it, and the error message is "No loader found for extension: " followed by the extension. |
| Loader.GetLoader | src/utils/loader.py:48-53 | The scan returns the first registered loader supporting the extension, else the error "No loader found for extension: " followed by the extension. |
| Loader.LoaderDispatch | src/utils/loader.py:28-53 | ".txt" and ".md" resolve to the markdown loader exactly; ".pdf" resolves to the PDF loader exactly. Every other extension is the error naming it. |
| Loader.LoaderExtensionsExact | src/utils/loader.py:51 | Matching is exact: ".MD", "md", ".PDF" and "" are unsupported. |
| Loader.PdfText | src/utils/loader.py:35-38 | The text is as long as the pages together plus one "\n" per page, and ends with "\n" when there is a page. |
| Loader.LoadPdfText | src/utils/loader.py:32-38 | The loop's text is `PdfText` of the pages: every page's text followed by "\n", in page order. |
| Loader.PdfTextAppend | src/utils/loader.py:35-38 | Text of the pages of `a + b` is the text of `a` followed by the text of `b`. |
| Loader.PdfTextSmall | src/utils/loader.py:35-38 | Zero pages give "", and one page gives its text and "\n". |
| Loader.PdfTextCons | src/utils/loader.py:35-38 | The first page's text and "\n" come first. |
| Loader.LoadData | src/utils/loader.py:24-38 | Each loader returns its own result: the file's text for the markdown loader, the page concatenation for the PDF loader. |
| Chunker.GetChunker | src/utils/chunker.py:46-53 | The markdown chunker is chosen exactly for ".md". Anything else, ".pdf" included, gets the text chunker, never an error. |
| Chunker.Chunk | src/utils/chunker.py:15-35 | `TextChunker.chunk` and `MarkdownChunker.chunk` return the splitter's output for the given size and overlap, with the text or the markdown separator list. |
| Chunker.ChunkWithDefaults | src/utils/chunker.py:15-35 | With its defaults, a chunker splits with size 1000, overlap 200 and its own separator list, and returns the splitter's output unchanged. |
| Chunker.ChunkFile | src/utils/chunker.py:39-44 | The chunks for an extension are the splitter's output with the defaults and the markdown list for ".md", the text list otherwise. |
| Chunker.MarkdownSeparatorsAddHeadings | src/utils/chunker.py:21-32 | The markdown list is the text list with "#", "##", "###" inserted between "\n" and ".". |
| Config.ChunkDefaultsValid | src/config.py:19-20 | The defaults satisfy `0 <= overlap < size`. |

## Left out

- The vector store wrapper (`src/utils/vectorDatabase.py`) is a thin layer over chromadb, whose persistence, upsert, ranking and counting are not visible. `StoreFile` stops at the batch that would be inserted. The store's `uuid4` fallback ids are random and are not modelled.
- The embedder (`src/utils/embedder.py`) calls a network API. It is the parameter `embed`, which may return `None` as the code's exception handler does. The code has no retry, and the model has none.
- The text splitter (`RecursiveCharacterTextSplitter`) is a foreign library. It is the uninterpreted parameter `split`, so the model proves no bound on chunk length or overlap.
- File reading and `PdfReader`/`extract_text` are I/O and foreign code. A file is given as its text and its pages' extracted texts (`Loader.SourceFile`).
- `Config.DATA_DIR` is computed from the installation directory. The data directory is a parameter.
- `Schema.Uuid5`: the SHA-1 based hash is not modelled. The model states nothing about different keys giving different ids.
- `print`, `print_metadata`, `RAGRecord.print`, `get_id` and the `__main__` drivers are output or trivial accessors. `src/explore.py` refers to assembler operations that do not exist.
- Vectors are sequences of `real`, and distances are `real` with `None` as +infinity. Floating-point behaviour (NaN, rounding) is not modelled.
- `Schema.MetaValue`: metadata values are strings or integers. pydantic's lax coercion is not modelled, such as accepting the string "3" or a float with no fraction as an `int`. A value of any other type is a `ValidationError`.
- `Schema.ResultLists`: the result lists are all flat or all nested, and the datatype excludes every mix. In the code, mixes behave in three ways. Nested documents beside a flat metadatas list `[{...}]` make `metadatas` that one mapping (`src/shcema.py:86`), and `metadatas[0]` then raises `KeyError` (`src/shcema.py:91`). Beside a flat `[{}]` the empty mapping is taken and no error is raised. Nested documents beside flat ids `["abc"]` make `ids` the string "abc" (`src/shcema.py:88`), and the first three records silently get the ids "a", "b", "c" (`src/shcema.py:92`). A missing key reads as an empty list.
- `Schema.GetRecordsFromResults`: the method works on its own copy of the result lists. Aliasing between the caller's mappings and other objects is not modelled.
- `src/utils/assembler.py:43` calls `ChunkerFactory.get_chunker(ext)`, but the factory defines only `_get_chunker` and `chunk(data, ext)`. That line would raise `AttributeError`. `Assembler.GetRecords` models the evident intent, the chunks of `ChunkerFactory.chunk(data, ext)`.
- `src/utils/assembler.py:71` calls `_records_to_db(records)` with one argument, which would raise `TypeError`. `Assembler.RecordsToDb` models the evident intent, the list of `to_db_format()` of each record.
- `Schema.IdKey`: different key fields need not give different ids. The code joins the fields with "_" and renders a missing path as "None", so keys can collide (`UnderscoreKeysCollide`, `MissingPathCollidesWithNoneText`).
- `Schema.Reconstruct`: the chunk order is kept as given. Ranking by the store is not modelled.
- `PathLib`: only POSIX path behaviour is modelled. Windows (`ntpath`) behaviour is left out: `\` as a separator, drive letters, and case-insensitive `relative_to`. The backslash replacement at `src/utils/assembler.py:54` exists to normalise such Windows paths to forward slashes. Under POSIX rules a backslash is an ordinary character, which `StoredFilePath` then rewrites.
