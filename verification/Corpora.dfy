/** The corpus both pack formats store, and the sections they cut a record into. */
module Corpora {
  import opened ByteStrings
  import opened Gob
  import opened PackTypes
  import opened Sorting

  datatype Record = Record(path: Bytes, blobHash: Bytes, symbols: seq<Symbol>, imports: seq<Bytes>,
    markers: seq<Marker>)

  datatype Corpus = Corpus(files: map<Bytes, Record>, paths: seq<Bytes>, vocabulary: seq<Bytes>)

  const ZERO_RECORD := Record([], [], [], [], [])

  // "x"
  const PRIMER_TEXT: Bytes := [120]
  const PRIMER := Record([], PRIMER_TEXT, [Symbol(PRIMER_TEXT, 1)], [PRIMER_TEXT], [Marker(1, PRIMER_TEXT)])

  /** c.Files[p]: a path without an entry has the zero record. */
  function RecordAt(c: Corpus, p: Bytes): Record {
    if p in c.files then c.files[p] else ZERO_RECORD
  }

  /** What a reader can give back for a path: the stored facts under that path. */
  function StoredRecord(c: Corpus, p: Bytes): Record {
    RecordAt(c, p).(path := p)
  }

  /** What a one-path read gives back. */
  function LookedUp(c: Corpus, target: Bytes): Result<Record> {
    if target in c.paths then Ok(StoredRecord(c, target)) else Err(PathNotFound)
  }

  /** What a whole read gives back: the stored facts of every path, the paths in
      sorted order. */
  function StoredCorpus(c: Corpus): Corpus {
    Corpus(map p <- c.paths :: StoredRecord(c, p), SortPaths(c.paths), c.vocabulary)
  }

  function StoredImports(c: Corpus): map<Bytes, seq<Bytes>> {
    map p <- c.paths :: RecordAt(c, p).imports
  }

  /** A corpus whose file table is exactly its path list, each record filed under
      its own path. */
  ghost predicate WellFormed(c: Corpus) {
    && (forall p :: p in c.files <==> p in c.paths)
    && (forall p <- c.files :: c.files[p].path == p)
  }

  /** For a well-formed corpus nothing is lost: only the order of the path list
      changes. */
  lemma StoredIsOriginal(c: Corpus)
    requires WellFormed(c)
    ensures StoredCorpus(c).files == c.files
    ensures multiset(StoredCorpus(c).paths) == multiset(c.paths)
    ensures StoredCorpus(c).vocabulary == c.vocabulary
  {
  }

  const KINDS: seq<Kind> := [TextKind, SymbolsKind, TextsKind, MarkersKind]

  /** The value section k stores for a record. */
  function SectionValue(k: nat, rec: Record): (v: Value)
    requires k < 4
    ensures KindOf(v) == KINDS[k]
  {
    if k == 0 then Text(rec.blobHash)
    else if k == 1 then Symbols(rec.symbols)
    else if k == 2 then Texts(rec.imports)
    else Markers(rec.markers)
  }

  function SectionValues(k: nat, c: Corpus, paths: seq<Bytes>): (vs: seq<Value>)
    requires k < 4
    ensures |vs| == |paths|
  {
    if paths == [] then [] else [SectionValue(k, RecordAt(c, paths[0]))] + SectionValues(k, c, paths[1..])
  }

  lemma {:induction false} SectionValuesAt(k: nat, c: Corpus, paths: seq<Bytes>, i: nat)
    requires k < 4 && i < |paths|
    ensures SectionValues(k, c, paths)[i] == SectionValue(k, RecordAt(c, paths[i]))
  {
    if i > 0 { SectionValuesAt(k, c, paths[1..], i - 1); }
  }
}
