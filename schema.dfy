/**
 * The record model of the knowledge base: a record is one chunk of a source
 * document with its embedding and metadata. The metadata is a closed structure
 * with named optional attributes; it is flattened into one map of scalars for
 * the vector store and rebuilt from such maps when query results come back.
 */
module Schema {
  import opened Wrappers

  /** An embedding: an opaque sequence of numbers (floating point is not modelled). */
  type Vector = seq<real>

  /** `ExtraAttributes`: the per-chunk attributes, with their defaults. */
  datatype ExtraAttributes = ExtraAttributes(
    filePath: Option<string> := None,
    url: Option<string> := None,
    chunkIndex: int := 0)

  /** `RAGMetadata`: where a chunk comes from. */
  datatype RAGMetadata = RAGMetadata(
    sourceName: string,
    sourceType: string := "unknown",
    attributes: ExtraAttributes := ExtraAttributes())

  /**
   * `RAGRecord` with the fields it was given. Building one through the source's
   * constructor also runs its validator; `NewRecord` below is that constructor.
   */
  datatype RAGRecord = RAGRecord(
    id: Option<string> := None,
    document: string,
    vector: Option<Vector> := None,
    distance: Option<real> := None,
    metadata: RAGMetadata)

  // ---------------------------------------------------------------------
  // Deterministic ids
  // ---------------------------------------------------------------------

  /**
   * `str(uuid.uuid5(uuid.NAMESPACE_DNS, key))`. The hash is not modelled: this
   * constant is an arbitrary function of the key, so the model relies only on
   * equal keys giving equal ids, never on different keys giving different ones.
   */
  const Uuid5: string -> string

  /** How an f-string renders an `Optional[str]`: `None` becomes the text "None". */
  function OptionalText(s: Option<string>): string {
    match s
    case None => "None"
    case Some(v) => v
  }

  function DigitChar(d: int): (c: char)
    requires 0 <= d < 10
    ensures '0' <= c <= '9'
  {
    "0123456789"[d]
  }

  /** `str(n)` for a natural number: its decimal digits, with no leading zeros. */
  function NatText(n: nat): (s: string)
    ensures |s| >= 1 && (n < 10 <==> |s| == 1)
    ensures forall i :: 0 <= i < |s| ==> '0' <= s[i] <= '9'
  {
    if n < 10 then [DigitChar(n)] else NatText(n / 10) + [DigitChar(n % 10)]
  }

  /** `str(i)` for an integer: a minus sign before the digits of a negative number. */
  function IntText(i: int): (s: string)
    ensures |s| >= 1
    ensures s[0] == '-' <==> i < 0
  {
    if i < 0 then "-" + NatText(-i) else NatText(i)
  }

  lemma DigitCharInjective(a: int, b: int)
    requires 0 <= a < 10 && 0 <= b < 10 && DigitChar(a) == DigitChar(b)
    ensures a == b
  {
  }

  lemma {:induction false} NatTextInjective(a: nat, b: nat)
    requires NatText(a) == NatText(b)
    ensures a == b
  {
    if a < 10 || b < 10 {
      if a < 10 && b < 10 {
        DigitCharInjective(a, b);
      }
    } else {
      var s := NatText(a);
      assert s[|s| - 1] == DigitChar(a % 10) && s[|s| - 1] == DigitChar(b % 10);
      DigitCharInjective(a % 10, b % 10);
      assert s[..|s| - 1] == NatText(a / 10) && s[..|s| - 1] == NatText(b / 10);
      NatTextInjective(a / 10, b / 10);
    }
  }

  /** Distinct integers have distinct decimal renderings. */
  lemma IntTextInjective(a: int, b: int)
    requires IntText(a) == IntText(b)
    ensures a == b
  {
    var s := IntText(a);
    if a < 0 {
      assert s[1..] == NatText(-a) && s[1..] == NatText(-b);
      NatTextInjective(-a, -b);
    } else {
      NatTextInjective(a, b);
    }
  }

  /** The text the id is derived from: the four key fields joined by "_". */
  function IdKey(m: RAGMetadata): string {
    m.sourceName + "_" + m.sourceType + "_" + OptionalText(m.attributes.filePath)
      + "_" + IntText(m.attributes.chunkIndex)
  }

  /**
   * The key starts with the source name and a "_", and ends with a "_"
   * followed by the decimal chunk index, which holds no "_".
   */
  lemma IdKeyShape(m: RAGMetadata)
    ensures var key, n := IdKey(m), |IntText(m.attributes.chunkIndex)|;
      && |m.sourceName| + 3 + n <= |key|
      && key[..|m.sourceName| + 1] == m.sourceName + "_"
      && key[|key| - n - 1] == '_'
      && key[|key| - n..] == IntText(m.attributes.chunkIndex)
      && '_' !in IntText(m.attributes.chunkIndex)
  {
  }

  /**
   * The validator `generate_deterministic_id`: a supplied id is kept; a missing
   * one becomes the uuid5 of the key. Nothing but the id changes.
   */
  function GenerateDeterministicId(r: RAGRecord): (v: RAGRecord)
    ensures v.id.Some?
    ensures v.(id := r.id) == r
    ensures r.id.Some? ==> v.id == r.id
    ensures r.id.None? ==> v.id == Some(Uuid5(IdKey(r.metadata)))
  {
    if r.id.None? then r.(id := Some(Uuid5(IdKey(r.metadata)))) else r
  }

  /** `RAGRecord(id=..., document=..., vector=..., distance=..., metadata=...)`: the fields, then the validator. */
  function NewRecord(id: Option<string>, document: string, vector: Option<Vector>,
                     distance: Option<real>, metadata: RAGMetadata): (r: RAGRecord)
    ensures r.document == document && r.vector == vector && r.distance == distance
    ensures r.metadata == metadata
    ensures id.Some? ==> r.id == id
    ensures id.None? ==> r.id == Some(Uuid5(IdKey(metadata)))
  {
    GenerateDeterministicId(RAGRecord(id, document, vector, distance, metadata))
  }

  /**
   * Determinism: a generated id depends on the source name, source type, file
   * path and chunk index only; the text, vector, distance and url play no part.
   */
  lemma GeneratedIdDependsOnKeyFields(d1: string, v1: Option<Vector>, x1: Option<real>, m1: RAGMetadata,
                                      d2: string, v2: Option<Vector>, x2: Option<real>, m2: RAGMetadata)
    requires m1.sourceName == m2.sourceName && m1.sourceType == m2.sourceType
    requires m1.attributes.filePath == m2.attributes.filePath
    requires m1.attributes.chunkIndex == m2.attributes.chunkIndex
    ensures NewRecord(None, d1, v1, x1, m1).id == NewRecord(None, d2, v2, x2, m2).id
  {
  }

  /** Within one source and file, the keys of two chunks are equal exactly when their indices are. */
  lemma IdKeySeparatesChunks(m1: RAGMetadata, m2: RAGMetadata)
    requires m1.sourceName == m2.sourceName && m1.sourceType == m2.sourceType
    requires m1.attributes.filePath == m2.attributes.filePath
    ensures IdKey(m1) == IdKey(m2) <==> m1.attributes.chunkIndex == m2.attributes.chunkIndex
  {
    var prefix := m1.sourceName + "_" + m1.sourceType + "_" + OptionalText(m1.attributes.filePath) + "_";
    assert IdKey(m1) == prefix + IntText(m1.attributes.chunkIndex);
    assert IdKey(m2) == prefix + IntText(m2.attributes.chunkIndex);
    if IdKey(m1) == IdKey(m2) {
      assert IntText(m1.attributes.chunkIndex) == IdKey(m1)[|prefix|..];
      assert IntText(m2.attributes.chunkIndex) == IdKey(m2)[|prefix|..];
      IntTextInjective(m1.attributes.chunkIndex, m2.attributes.chunkIndex);
    }
  }

  /** Joining with "_" is ambiguous: different source names and types can share a key, hence an id. */
  lemma UnderscoreKeysCollide()
    ensures IdKey(RAGMetadata("a_b", "c")) == IdKey(RAGMetadata("a", "b_c"))
    ensures NewRecord(None, "x", None, None, RAGMetadata("a_b", "c")).id
         == NewRecord(None, "y", None, None, RAGMetadata("a", "b_c")).id
  {
  }

  /** A missing file path and the file path "None" give the same key, hence the same id. */
  lemma MissingPathCollidesWithNoneText(m: RAGMetadata)
    requires m.attributes.filePath == None
    ensures IdKey(m) == IdKey(m.(attributes := m.attributes.(filePath := Some("None"))))
  {
  }

  /**
   * The field defaults: no id, vector or distance, source type "unknown", no
   * file path or url, chunk index 0; built through the constructor, such a
   * record gets the id of the key "<name>_unknown_None_0".
   */
  lemma FieldDefaults(document: string, sourceName: string)
    ensures var r := RAGRecord(document := document, metadata := RAGMetadata(sourceName := sourceName));
      && r.id == None && r.vector == None && r.distance == None
      && r.metadata.sourceType == "unknown"
      && r.metadata.attributes == ExtraAttributes(None, None, 0)
    ensures NewRecord(None, document, None, None, RAGMetadata(sourceName := sourceName)).id
         == Some(Uuid5(sourceName + "_unknown_None_0"))
  {
    var m := RAGMetadata(sourceName := sourceName);
    assert DigitChar(0) == '0';
    assert IntText(0) == "0";
    assert IdKey(m) == sourceName + "_unknown_None_0";
  }

  // ---------------------------------------------------------------------
  // Flattening for the store (to_db_format)
  // ---------------------------------------------------------------------

  /** A scalar metadata value as the store keeps it. */
  datatype MetaValue = Str(s: string) | Int(i: int)

  /** A flat metadata mapping (a Python `dict` of scalars). */
  type MetaMap = map<string, MetaValue>

  const SourceNameKey: string := "source_name"
  const SourceTypeKey: string := "source_type"
  const FilePathKey: string := "file_path"
  const UrlKey: string := "url"
  const ChunkIndexKey: string := "chunk_index"
  const AttributesKey: string := "attributes"

  /** The dictionary `to_db_format` returns. */
  datatype DbEntry = DbEntry(id: Option<string>, document: string, vector: Option<Vector>, metadata: MetaMap)

  /** `attributes.model_dump(exclude_none=True)`: the attributes that are not `None`. */
  function DumpAttributes(a: ExtraAttributes): (m: MetaMap)
    ensures m.Keys == {ChunkIndexKey} + (if a.filePath.Some? then {FilePathKey} else {})
                                      + (if a.url.Some? then {UrlKey} else {})
  {
    var withPath: MetaMap := if a.filePath.Some? then map[FilePathKey := Str(a.filePath.value)] else map[];
    var withUrl: MetaMap := if a.url.Some? then withPath[UrlKey := Str(a.url.value)] else withPath;
    withUrl[ChunkIndexKey := Int(a.chunkIndex)]
  }

  /**
   * The metadata with its attributes merged in: `model_dump(exclude={"attributes"})`
   * updated with the dumped attributes.
   */
  function FlattenMetadata(m: RAGMetadata): (flat: MetaMap)
    ensures flat.Keys == {SourceNameKey, SourceTypeKey, ChunkIndexKey}
                         + (if m.attributes.filePath.Some? then {FilePathKey} else {})
                         + (if m.attributes.url.Some? then {UrlKey} else {})
    ensures AttributesKey !in flat
    ensures flat[SourceNameKey] == Str(m.sourceName) && flat[SourceTypeKey] == Str(m.sourceType)
    ensures flat[ChunkIndexKey] == Int(m.attributes.chunkIndex)
    ensures m.attributes.filePath.Some? ==> flat[FilePathKey] == Str(m.attributes.filePath.value)
    ensures m.attributes.url.Some? ==> flat[UrlKey] == Str(m.attributes.url.value)
  {
    map[SourceNameKey := Str(m.sourceName), SourceTypeKey := Str(m.sourceType)] + DumpAttributes(m.attributes)
  }

  /** `to_db_format`: the record's own id, text and vector, and its flattened metadata. */
  function ToDbFormat(r: RAGRecord): (e: DbEntry)
    ensures e.id == r.id && e.document == r.document && e.vector == r.vector
    ensures e.metadata == FlattenMetadata(r.metadata)
  {
    DbEntry(r.id, r.document, r.vector, FlattenMetadata(r.metadata))
  }

  // ---------------------------------------------------------------------
  // Rebuilding records from query results (get_records_from_results)
  // ---------------------------------------------------------------------

  /** pydantic's `ValidationError`: a value of the wrong type for a field. */
  datatype SchemaError = ValidationError

  /** The attribute keys that rebuilding pops out of a metadata mapping. */
  const PoppedKeys: set<string> := {FilePathKey, UrlKey, ChunkIndexKey}

  /** A mapping after `pop('file_path')`, `pop('url')` and `pop('chunk_index')`. */
  function Popped(m: MetaMap): (rest: MetaMap)
    ensures rest.Keys == m.Keys - PoppedKeys
    ensures forall k :: k in rest ==> rest[k] == m[k]
  {
    m - PoppedKeys
  }

  /** Every value that rebuilding reads has the type its field wants. */
  predicate WellTyped(m: MetaMap) {
    && (FilePathKey in m ==> m[FilePathKey].Str?)
    && (UrlKey in m ==> m[UrlKey].Str?)
    && (ChunkIndexKey in m ==> m[ChunkIndexKey].Int?)
    && (SourceNameKey in m ==> m[SourceNameKey].Str?)
    && (SourceTypeKey in m ==> m[SourceTypeKey].Str?)
  }

  /** `m.pop(key, None)` validated as an `Optional[str]` field. */
  function OptionalTextField(m: MetaMap, key: string): Result<Option<string>, SchemaError> {
    if key !in m then Ok(None)
    else if m[key].Str? then Ok(Some(m[key].s))
    else Err(ValidationError)
  }

  /** `m.get(key, default)` (or `pop`) validated as a `str` field. */
  function TextField(m: MetaMap, key: string, default: string): Result<string, SchemaError> {
    if key !in m then Ok(default)
    else if m[key].Str? then Ok(m[key].s)
    else Err(ValidationError)
  }

  /** `m.pop(key, 0)` validated as an `int` field. */
  function IndexField(m: MetaMap, key: string): Result<int, SchemaError> {
    if key !in m then Ok(0)
    else if m[key].Int? then Ok(m[key].i)
    else Err(ValidationError)
  }

  /**
   * The nested metadata rebuilt from a flat mapping: the three attributes, then
   * the source name and type, each with its default when the key is missing.
   */
  function RebuildMetadata(m: MetaMap): (r: Result<RAGMetadata, SchemaError>)
    ensures r.Ok? <==> WellTyped(m)
    ensures r.Ok? ==> r.value.sourceName == (if SourceNameKey in m then m[SourceNameKey].s else "unknown")
    ensures r.Ok? ==> r.value.sourceType == (if SourceTypeKey in m then m[SourceTypeKey].s else "unknown")
    ensures r.Ok? ==> r.value.attributes.filePath == (if FilePathKey in m then Some(m[FilePathKey].s) else None)
    ensures r.Ok? ==> r.value.attributes.url == (if UrlKey in m then Some(m[UrlKey].s) else None)
    ensures r.Ok? ==> r.value.attributes.chunkIndex == (if ChunkIndexKey in m then m[ChunkIndexKey].i else 0)
  {
    var filePath := OptionalTextField(m, FilePathKey);
    var url := OptionalTextField(m, UrlKey);
    var chunkIndex := IndexField(m, ChunkIndexKey);
    var rest := Popped(m);
    var sourceName := TextField(rest, SourceNameKey, "unknown");
    var sourceType := TextField(rest, SourceTypeKey, "unknown");
    if filePath.Err? || url.Err? || chunkIndex.Err? || sourceName.Err? || sourceType.Err? then
      Err(ValidationError)
    else
      Ok(RAGMetadata(sourceName.value, sourceType.value,
                     ExtraAttributes(filePath.value, url.value, chunkIndex.value)))
  }

  /** A record rebuilt from one document, its mapping, id and distance; the vector is never returned. */
  function RebuildRecord(document: string, m: MetaMap, id: Option<string>, distance: Option<real>)
    : (r: Result<RAGRecord, SchemaError>)
    ensures r.Ok? <==> WellTyped(m)
    ensures r.Ok? ==> Ok(r.value.metadata) == RebuildMetadata(m)
    ensures r.Ok? ==> r.value.document == document && r.value.vector == None && r.value.distance == distance
    ensures r.Ok? ==> r.value.id == if id.Some? then id else Some(Uuid5(IdKey(r.value.metadata)))
  {
    match RebuildMetadata(m)
    case Err(e) => Err(e)
    case Ok(metadata) => Ok(NewRecord(id, document, None, distance, metadata))
  }

  /** An empty mapping rebuilds to the defaults. */
  lemma RebuildEmptyMetadata()
    ensures RebuildMetadata(map[]) == Ok(RAGMetadata("unknown", "unknown", ExtraAttributes(None, None, 0)))
  {
  }

  /** Flattening then rebuilding gives the metadata back. */
  lemma RebuildFlattened(m: RAGMetadata)
    ensures RebuildMetadata(FlattenMetadata(m)) == Ok(m)
  {
    var flat := FlattenMetadata(m);
    assert WellTyped(flat);
  }

  /**
   * The converse: a well-typed mapping holding the three keys that flattening
   * always writes, and no keys besides the five it may write, is the flattening
   * of what it rebuilds to.
   */
  lemma FlattenRebuilt(flat: MetaMap)
    requires WellTyped(flat)
    requires SourceNameKey in flat && SourceTypeKey in flat && ChunkIndexKey in flat
    requires flat.Keys <= {SourceNameKey, SourceTypeKey, ChunkIndexKey, FilePathKey, UrlKey}
    ensures RebuildMetadata(flat).Ok? && FlattenMetadata(RebuildMetadata(flat).value) == flat
  {
    var back := FlattenMetadata(RebuildMetadata(flat).value);
    assert back.Keys == flat.Keys;
    forall k | k in flat
      ensures back[k] == flat[k]
    {
    }
  }

  /** The columns the rebuilding loop walks: documents, metadatas, distances and ids. */
  datatype Columns = Columns(documents: seq<string>, metadatas: seq<MetaMap>, distances: seq<real>, ids: seq<string>)

  /**
   * The four lists of a query result. The store's `get` returns them flat; its
   * `query` wraps each in an outer list, one entry per query vector. A missing
   * key reads as an empty list.
   */
  datatype ResultLists =
    | Flat(documents: seq<string>, metadatas: seq<MetaMap>, distances: seq<real>, ids: seq<string>)
    | Nested(documentLists: seq<seq<string>>, metadataLists: seq<seq<MetaMap>>,
             distanceLists: seq<seq<real>>, idLists: seq<seq<string>>)

  /** The first-of-each-list unwrapping done when `documents[0]` is itself a list. */
  function Unwrap(l: ResultLists): (c: Columns)
    ensures l.Flat? ==> c == Columns(l.documents, l.metadatas, l.distances, l.ids)
    ensures l.Nested? && l.documentLists != [] ==>
      && c.documents == l.documentLists[0]
      && c.metadatas == (if l.metadataLists != [] then l.metadataLists[0] else [])
      && c.distances == (if l.distanceLists != [] then l.distanceLists[0] else [])
      && c.ids == (if l.idLists != [] then l.idLists[0] else [])
    ensures l.Nested? && l.documentLists == [] ==> c.documents == []
  {
    match l
    case Flat(d, m, x, i) => Columns(d, m, x, i)
    case Nested(d, m, x, i) =>
      if d == [] then Columns([], [], [], [])
      else Columns(d[0], if m != [] then m[0] else [], if x != [] then x[0] else [], if i != [] then i[0] else [])
  }

  /** The mapping at `i`, or `{}` past the end of the list. */
  function MetaAt(c: Columns, i: nat): MetaMap {
    if i < |c.metadatas| then c.metadatas[i] else map[]
  }

  /** The id at `i`, or `None` past the end of the list. */
  function IdAt(c: Columns, i: nat): Option<string> {
    if i < |c.ids| then Some(c.ids[i]) else None
  }

  /** The distance at `i`, or `None` past the end of the list. */
  function DistanceAt(c: Columns, i: nat): Option<real> {
    if i < |c.distances| then Some(c.distances[i]) else None
  }

  /** The record for document `i`. */
  function RecordAt(c: Columns, i: nat): Result<RAGRecord, SchemaError>
    requires i < |c.documents|
  {
    RebuildRecord(c.documents[i], MetaAt(c, i), IdAt(c, i), DistanceAt(c, i))
  }

  /** The first document at or after `from` whose record fails validation, or the number of documents. */
  function FirstInvalid(c: Columns, from: nat): (k: nat)
    requires from <= |c.documents|
    ensures from <= k <= |c.documents|
    ensures forall j :: from <= j < k ==> RecordAt(c, j).Ok?
    ensures k < |c.documents| ==> RecordAt(c, k).Err?
    decreases |c.documents| - from
  {
    if from == |c.documents| || RecordAt(c, from).Err? then from else FirstInvalid(c, from + 1)
  }

  /** The records of the first `n` documents, all of which validate. */
  function Rebuilt(c: Columns, n: nat): (rs: seq<RAGRecord>)
    requires n <= FirstInvalid(c, 0)
    ensures |rs| == n
    ensures forall j :: 0 <= j < n ==> RecordAt(c, j) == Ok(rs[j])
  {
    seq(n, j requires 0 <= j < n => RecordAt(c, j).value)
  }

  /**
   * What rebuilding returns: one record per document, in order, or the
   * validation error of the first document whose mapping is ill-typed.
   */
  function Reconstruct(c: Columns): (r: Result<seq<RAGRecord>, SchemaError>)
    ensures r.Ok? <==> forall i :: 0 <= i < |c.documents| ==> WellTyped(MetaAt(c, i))
    ensures r.Ok? ==> |r.value| == |c.documents|
    ensures r.Ok? ==> forall i :: 0 <= i < |c.documents| ==> RecordAt(c, i) == Ok(r.value[i])
  {
    var k := FirstInvalid(c, 0);
    assert forall i :: 0 <= i < |c.documents| ==> (RecordAt(c, i).Ok? <==> WellTyped(MetaAt(c, i)));
    if k < |c.documents| then Err(ValidationError) else Ok(Rebuilt(c, |c.documents|))
  }

  /** How many metadata mappings the loop pops from before it returns or raises. */
  function PoppedCount(c: Columns): (n: nat)
    ensures n <= |c.documents|
    ensures Reconstruct(c).Ok? ==> n == |c.documents|
  {
    var k := FirstInvalid(c, 0);
    if k < |c.documents| then k + 1 else |c.documents|
  }

  /** The first `n` mappings of a list with the attribute keys popped. */
  function PopFirst(metas: seq<MetaMap>, n: nat): (s: seq<MetaMap>)
    ensures |s| == |metas|
  {
    seq(|metas|, i requires 0 <= i < |metas| => if i < n then Popped(metas[i]) else metas[i])
  }

  /** The caller's query result once the first `n` mappings that rebuilding reads have been popped. */
  function PopsApplied(l: ResultLists, n: nat): ResultLists {
    match l
    case Flat(d, m, x, i) => Flat(d, PopFirst(m, n), x, i)
    case Nested(d, m, x, i) =>
      if d != [] && m != [] then Nested(d, m[0 := PopFirst(m[0], n)], x, i) else l
  }

  /** The one pop the loop does at step `i`, on the mapping the caller's lists hold there. */
  function PopAt(l: ResultLists, i: nat): ResultLists {
    match l
    case Flat(d, m, x, ids) =>
      if i < |m| then Flat(d, m[i := Popped(m[i])], x, ids) else l
    case Nested(d, m, x, ids) =>
      if d != [] && m != [] && i < |m[0]| then Nested(d, m[0 := m[0][i := Popped(m[0][i])]], x, ids) else l
  }

  lemma PopFirstNone(m: seq<MetaMap>)
    ensures PopFirst(m, 0) == m
  {
  }

  lemma PopFirstStep(m: seq<MetaMap>, n: nat)
    ensures n < |m| ==> PopFirst(m, n)[n := Popped(m[n])] == PopFirst(m, n + 1)
    ensures n >= |m| ==> PopFirst(m, n) == PopFirst(m, n + 1)
  {
  }

  lemma PopsAppliedNone(l: ResultLists)
    ensures PopsApplied(l, 0) == l
  {
    match l
    case Flat(d, m, x, ids) => PopFirstNone(m);
    case Nested(d, m, x, ids) =>
      if d != [] && m != [] {
        PopFirstNone(m[0]);
        assert m[0 := m[0]] == m;
      }
  }

  lemma PopAtStep(l: ResultLists, n: nat)
    ensures PopAt(PopsApplied(l, n), n) == PopsApplied(l, n + 1)
  {
    match l
    case Flat(d, m, x, ids) =>
      PopFirstStep(m, n);
    case Nested(d, m, x, ids) =>
      if d != [] && m != [] {
        PopFirstStep(m[0], n);
        var m' := m[0 := PopFirst(m[0], n)];
        if n < |m[0]| {
          assert m'[0 := m'[0][n := Popped(m'[0][n])]] == m[0 := PopFirst(m[0], n + 1)];
        }
      }
  }

  /** A document that validates lies before the first invalid one, and its record extends those before it. */
  lemma RecordsStep(c: Columns, n: nat, records: seq<RAGRecord>)
    requires n < |c.documents| && n <= FirstInvalid(c, 0) && RecordAt(c, n).Ok?
    requires |records| == n && forall j :: 0 <= j < n ==> RecordAt(c, j) == Ok(records[j])
    ensures n + 1 <= FirstInvalid(c, 0)
    ensures var longer := records + [RecordAt(c, n).value];
      forall j :: 0 <= j < n + 1 ==> RecordAt(c, j) == Ok(longer[j])
  {
    var longer := records + [RecordAt(c, n).value];
    forall j | 0 <= j < n + 1
      ensures RecordAt(c, j) == Ok(longer[j])
    {
      if j < n {
        assert longer[j] == records[j];
      }
    }
  }

  /** The loop stops at the first document that does not validate. */
  lemma ReconstructFailsAt(c: Columns, k: nat)
    requires k < |c.documents| && k <= FirstInvalid(c, 0) && RecordAt(c, k).Err?
    ensures Reconstruct(c) == Err(ValidationError) && PoppedCount(c) == k + 1
  {
    assert FirstInvalid(c, 0) == k;
  }

  /** The loop gets through every document. */
  lemma ReconstructSucceeds(c: Columns, records: seq<RAGRecord>)
    requires FirstInvalid(c, 0) >= |c.documents| && |records| == |c.documents|
    requires forall j :: 0 <= j < |records| ==> RecordAt(c, j) == Ok(records[j])
    ensures Reconstruct(c) == Ok(records) && PoppedCount(c) == |c.documents|
  {
    var rs := Rebuilt(c, |c.documents|);
    forall j | 0 <= j < |records|
      ensures records[j] == rs[j]
    {
      assert RecordAt(c, j) == Ok(rs[j]);
    }
    assert records == rs;
  }

  /** The query result `results` as an object: rebuilding pops keys out of its mappings in place. */
  class QueryResults {
    var lists: ResultLists

    constructor (lists: ResultLists)
      ensures this.lists == lists
    {
      this.lists := lists;
    }
  }

  /**
   * One turn of the rebuilding loop: read the mapping, id and distance at
   * `idx` (or their defaults), pop the attribute keys out of that mapping in
   * the caller's lists, and rebuild the record.
   */
  method RebuildOne(results: QueryResults, ghost original: ResultLists, c: Columns, idx: nat)
    returns (record: Result<RAGRecord, SchemaError>)
    requires c == Unwrap(original)
    requires idx < |c.documents| && results.lists == PopsApplied(original, idx)
    modifies results
    ensures record == RecordAt(c, idx)
    ensures results.lists == PopsApplied(original, idx + 1)
  {
    // The mapping at idx has not been popped yet, so the local list still holds it as the caller does.
    var metadataDict := if idx < |c.metadatas| then c.metadatas[idx] else map[];
    var recordId := if idx < |c.ids| then Some(c.ids[idx]) else None;
    var recordDistance := if idx < |c.distances| then Some(c.distances[idx]) else None;
    PopAtStep(original, idx);
    results.lists := PopAt(results.lists, idx);
    record := RebuildRecord(c.documents[idx], metadataDict, recordId, recordDistance);
  }

  /**
   * `get_records_from_results`: unwrap one level when the documents are nested,
   * then build one record per document from the parallel lists, popping the
   * attribute keys out of each mapping it reads. A ValidationError ends the call
   * after the failing mapping has been popped.
   */
  method GetRecordsFromResults(results: QueryResults) returns (outcome: Result<seq<RAGRecord>, SchemaError>)
    modifies results
    ensures outcome == Reconstruct(Unwrap(old(results.lists)))
    ensures results.lists == PopsApplied(old(results.lists), PoppedCount(Unwrap(old(results.lists))))
  {
    ghost var original := results.lists;
    PopsAppliedNone(original);
    var c := Unwrap(results.lists);
    var records: seq<RAGRecord> := [];
    var idx := 0;
    while idx < |c.documents|
      invariant idx <= |c.documents| && idx <= FirstInvalid(c, 0)
      invariant |records| == idx
      invariant forall j :: 0 <= j < idx ==> RecordAt(c, j) == Ok(records[j])
      invariant results.lists == PopsApplied(original, idx)
    {
      var record := RebuildOne(results, original, c, idx);
      if record.Err? {
        ReconstructFailsAt(c, idx);
        outcome := Err(record.error);
        return;
      }
      RecordsStep(c, idx, records);
      records := records + [record.value];
      idx := idx + 1;
    }
    ReconstructSucceeds(c, records);
    outcome := Ok(records);
  }

  /**
   * Round trip: a validated record, flattened and handed back as a one-document
   * result (flat, as `get` returns it, or nested, as `query` does), rebuilds to
   * itself with the vector and distance gone.
   */
  lemma ReconstructFlattened(r: RAGRecord)
    requires r.id.Some?
    ensures Reconstruct(Unwrap(Flat([r.document], [ToDbFormat(r).metadata], [], [r.id.value])))
         == Ok([r.(vector := None, distance := None)])
    ensures Reconstruct(Unwrap(Nested([[r.document]], [[ToDbFormat(r).metadata]], [], [[r.id.value]])))
         == Ok([r.(vector := None, distance := None)])
  {
    RebuildFlattened(r.metadata);
    var c := Columns([r.document], [ToDbFormat(r).metadata], [], [r.id.value]);
    assert RecordAt(c, 0) == Ok(r.(vector := None, distance := None));
    assert FirstInvalid(c, 0) == 1;
    assert Rebuilt(c, 1) == [r.(vector := None, distance := None)];
    assert Unwrap(Nested([[r.document]], [[ToDbFormat(r).metadata]], [], [[r.id.value]])) == c;
  }

  /**
   * Documents beyond the end of the metadata, id and distance lists get the
   * defaults: source name and type "unknown", default attributes, an id derived
   * from that metadata and no distance.
   */
  lemma ReconstructPastShortLists(c: Columns, i: nat)
    requires i < |c.documents| && i >= |c.metadatas| && i >= |c.ids| && i >= |c.distances|
    ensures RecordAt(c, i) == Ok(NewRecord(None, c.documents[i], None, None,
                                           RAGMetadata("unknown", "unknown", ExtraAttributes(None, None, 0))))
  {
    RebuildEmptyMetadata();
  }

  // ---------------------------------------------------------------------
  // Sorting by distance (sort_by_distance)
  // ---------------------------------------------------------------------

  /** The order on sort keys: a missing distance counts as +infinity. */
  predicate DistanceLe(a: Option<real>, b: Option<real>) {
    b.None? || (a.Some? && a.value <= b.value)
  }

  ghost predicate SortedByDistance(s: seq<RAGRecord>) {
    forall i, j :: 0 <= i < j < |s| ==> DistanceLe(s[i].distance, s[j].distance)
  }

  lemma SortedCons(x: RAGRecord, t: seq<RAGRecord>)
    requires SortedByDistance(t)
    requires forall i :: 0 <= i < |t| ==> DistanceLe(x.distance, t[i].distance)
    ensures SortedByDistance([x] + t)
  {
    forall i, j | 0 <= i < j < |[x] + t|
      ensures DistanceLe(([x] + t)[i].distance, ([x] + t)[j].distance)
    {
      assert ([x] + t)[j] == t[j - 1];
      if i > 0 {
        assert ([x] + t)[i] == t[i - 1];
      }
    }
  }

  /** After `x` went past `s[0]`, every element of the insertion into `s[1..]` is at or above `s[0]`. */
  lemma HeadBelowInsert(x: RAGRecord, s: seq<RAGRecord>, t: seq<RAGRecord>)
    requires s != [] && SortedByDistance(s) && !DistanceLe(x.distance, s[0].distance)
    requires multiset(t) == multiset(s[1..]) + multiset{x}
    ensures forall i :: 0 <= i < |t| ==> DistanceLe(s[0].distance, t[i].distance)
  {
    forall i | 0 <= i < |t|
      ensures DistanceLe(s[0].distance, t[i].distance)
    {
      assert t[i] in multiset(t);
      if t[i] != x {
        assert t[i] in multiset(s[1..]);
        var k :| 0 <= k < |s[1..]| && s[1..][k] == t[i];
        assert s[k + 1] == t[i];
      }
    }
  }

  /** `x` placed before the first element of the sorted `s` whose key is not below its own. */
  function InsertByDistance(x: RAGRecord, s: seq<RAGRecord>): (t: seq<RAGRecord>)
    requires SortedByDistance(s)
    ensures multiset(t) == multiset(s) + multiset{x}
    ensures SortedByDistance(t)
  {
    if s == [] || DistanceLe(x.distance, s[0].distance) then
      SortedCons(x, s);
      [x] + s
    else
      var t' := InsertByDistance(x, s[1..]);
      HeadBelowInsert(x, s, t');
      SortedCons(s[0], t');
      assert s == [s[0]] + s[1..];
      [s[0]] + t'
  }

  /**
   * `sort_by_distance`: Python's `sorted` with the distance as key. The result is
   * a permutation of the input, ascending by distance with the records without
   * a distance last.
   */
  function SortByDistance(s: seq<RAGRecord>): (t: seq<RAGRecord>)
    ensures multiset(t) == multiset(s)
    ensures SortedByDistance(t)
    ensures forall i, j :: 0 <= i < j < |t| && t[i].distance.None? ==> t[j].distance.None?
  {
    if s == [] then []
    else
      assert s == [s[0]] + s[1..];
      InsertByDistance(s[0], SortByDistance(s[1..]))
  }

  /** The records of `s` whose distance is `d`, in their order in `s`. */
  function WithDistance(s: seq<RAGRecord>, d: Option<real>): seq<RAGRecord> {
    if s == [] then []
    else (if s[0].distance == d then [s[0]] else []) + WithDistance(s[1..], d)
  }

  lemma WithDistanceCons(x: RAGRecord, s: seq<RAGRecord>, d: Option<real>)
    ensures WithDistance([x] + s, d) == (if x.distance == d then [x] else []) + WithDistance(s, d)
  {
    assert ([x] + s)[1..] == s;
  }

  lemma {:induction false} InsertKeepsTies(x: RAGRecord, s: seq<RAGRecord>, d: Option<real>)
    requires SortedByDistance(s)
    ensures WithDistance(InsertByDistance(x, s), d) == (if x.distance == d then [x] else []) + WithDistance(s, d)
  {
    if s == [] || DistanceLe(x.distance, s[0].distance) {
      WithDistanceCons(x, s, d);
    } else {
      var t' := InsertByDistance(x, s[1..]);
      InsertKeepsTies(x, s[1..], d);
      WithDistanceCons(s[0], t', d);
      WithDistanceCons(s[0], s[1..], d);
      assert s == [s[0]] + s[1..];
      assert s[0].distance != x.distance;
    }
  }

  /** Stability: records with equal distances keep their relative order. */
  lemma {:induction false} SortIsStable(s: seq<RAGRecord>, d: Option<real>)
    ensures WithDistance(SortByDistance(s), d) == WithDistance(s, d)
  {
    if s != [] {
      SortIsStable(s[1..], d);
      InsertKeepsTies(s[0], SortByDistance(s[1..]), d);
    }
  }
}
