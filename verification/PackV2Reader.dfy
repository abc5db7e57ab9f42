/** Reading pack v2: every range is bounded, read and verified before it is
    decoded. These functions say what each read answers on any data-file bytes. */
module PackV2Reader {
  import opened ByteStrings
  import opened Gob
  import opened Corpora
  import opened PackTypes
  import opened PackV2Manifest

  /** Bytes a positioned read of `length` at `offset` returns. Offsets beyond the
      signed 64-bit range are refused, which also reads nothing. */
  function Available(data: Bytes, offset: nat, length: nat): (n: nat)
    ensures n <= length
    ensures n > 0 ==> offset + n <= |data|
    ensures offset < 0x8000_0000_0000_0000 && offset <= |data| ==> n == length || offset + n == |data|
  {
    if offset >= MAX_FILE_BYTES || offset > |data| then 0 else Min(length, |data| - offset)
  }

  /** readVerified. A range over the bound is malformed, one that leaves the file is
      a short read, one whose bytes have another digest is a checksum mismatch; any
      other is returned. */
  function ReadVerified(h: Hash, data: Bytes, loc: Locator, maxLen: nat): (r: Result<Bytes>)
    ensures loc.length > maxLen ==> r == Err(Malformed)
    ensures loc.length <= maxLen && !InFile(|data|, loc) ==> r == Err(ShortRead)
    ensures loc.length <= maxLen && InFile(|data|, loc) ==>
      r == if h(RangeOf(data, loc)) == loc.sha then Ok(RangeOf(data, loc)) else Err(ChecksumMismatch)
    ensures r.Ok? ==> |r.value| == loc.length <= maxLen && h(r.value) == loc.sha
    ensures r.Err? ==> r.error in {Malformed, ShortRead, ChecksumMismatch}
  {
    if loc.length > maxLen then Err(Malformed)
    else if Available(data, loc.offset, loc.length) < loc.length then Err(ShortRead)
    else
      var buf := if loc.length == 0 then [] else data[loc.offset..loc.offset + loc.length];
      if h(buf) != loc.sha then Err(ChecksumMismatch) else Ok(buf)
  }

  /** len(page) / rowWidth. */
  function RowCount(page: Bytes, rowWidth: nat): (n: nat)
    requires rowWidth > 0
    ensures n * rowWidth <= |page|
  {
    |page| / rowWidth
  }

  lemma WholeRows(page: Bytes, rowWidth: nat)
    requires rowWidth > 0 && |page| > 0 && |page| % rowWidth == 0
    ensures RowCount(page, rowWidth) > 0
  {
  }

  function ReadPage(h: Hash, data: Bytes, loc: Locator, rowWidth: nat, maxRows: nat): (r: Result<Bytes>)
    requires rowWidth > 0
    ensures r.Ok? ==> ReadVerified(h, data, loc, rowWidth * maxRows) == r && RowCount(r.value, rowWidth) > 0
    ensures var range := ReadVerified(h, data, loc, rowWidth * maxRows);
      && (r.Ok? <==> range.Ok? && loc.length > 0 && loc.length % rowWidth == 0)
      && (r.Err? ==> r.error == if range.Err? then range.error else Malformed)
  {
    var page :- ReadVerified(h, data, loc, rowWidth * maxRows);
    if |page| == 0 then Err(Malformed)
    else if |page| % rowWidth != 0 then Err(Malformed)
    else
      WholeRows(page, rowWidth);
      Ok(page)
  }

  lemma RowFits(i: nat, n: nat, width: nat, total: nat)
    requires i < n && n * width <= total
    ensures (i + 1) * width <= total
  {
    assert (i + 1) * width <= n * width;
  }

  /** Row i of a page. */
  function PageRow(page: Bytes, rowWidth: nat, i: nat): (row: Bytes)
    requires rowWidth > 0 && i < RowCount(page, rowWidth)
    ensures |row| == rowWidth
  {
    RowFits(i, RowCount(page, rowWidth), rowWidth, |page|);
    RowAt(page, rowWidth, i)
  }

  /** sort.Search over [lo, hi): the bisection for the first row above the key. */
  function Search(page: Bytes, rowWidth: nat, key: Bytes, lo: nat, hi: nat): (i: nat)
    requires rowWidth > 0 && |key| <= rowWidth && lo <= hi <= RowCount(page, rowWidth)
    ensures lo <= i <= hi
    decreases hi - lo
  {
    if lo == hi then lo
    else
      var mid := (lo + hi) / 2;
      if LexLe(PageRow(page, rowWidth, mid)[..|key|], key)
      then Search(page, rowWidth, key, mid + 1, hi)
      else Search(page, rowWidth, key, lo, mid)
  }

  /** floorRow: the row before the first one above the key, or -1. */
  function FloorRow(page: Bytes, rowWidth: nat, key: Bytes): (i: int)
    requires rowWidth > 0 && |key| <= rowWidth
    ensures -1 <= i < RowCount(page, rowWidth)
  {
    Search(page, rowWidth, key, 0, RowCount(page, rowWidth)) - 1
  }

  /** The descent of lookup from a page `level` levels above the leaves' floor
      (a leaf page is level 1). */
  function Descend(h: Hash, data: Bytes, keyWidth: nat, loc: Locator, level: nat,
          key: Bytes): (r: Result<Option<Bytes>>)
    requires level >= 1 && |key| == keyWidth
    ensures r.Ok? && r.value.Some? ==> |r.value.value| == LeafWidth(keyWidth)
    decreases level
  {
    if level > 1 then
      var page :- ReadPage(h, data, loc, InteriorWidth(keyWidth), FANOUT);
      var i := FloorRow(page, InteriorWidth(keyWidth), key);
      if i < 0 then Ok(None)
      else Descend(h, data, keyWidth, GetLocator(PageRow(page, InteriorWidth(keyWidth), i)[keyWidth..]), level - 1, key)
    else
      var page :- ReadPage(h, data, loc, LeafWidth(keyWidth), LEAF_ROWS);
      var i := FloorRow(page, LeafWidth(keyWidth), key);
      if i < 0 then Ok(None)
      else
        var row := PageRow(page, LeafWidth(keyWidth), i);
        Ok(if row[..keyWidth] == key then Some(row) else None)
  }

  function Lookup(h: Hash, data: Bytes, m: Manifest, target: Bytes): (r: Result<Option<Bytes>>)
    requires m.height >= 1
    ensures r.Ok? && r.value.Some? ==> |r.value.value| == LeafWidth(m.keyWidth)
  {
    if |target| > m.keyWidth then Ok(None)
    else if !NulFree(target) then Ok(None)
    else Descend(h, data, m.keyWidth, m.root, m.height, Pad(target, m.keyWidth))
  }

  /** The block locators of a leaf row. */
  datatype Blocks = Blocks(meta: Locator, symbols: Locator, imports: Locator, markers: Locator)

  function BlocksIn(row: Bytes, keyWidth: nat): Blocks
    requires |row| == LeafWidth(keyWidth)
  {
    var b := row[keyWidth..];
    Blocks(GetLocator(b), GetLocator(b[44..]), GetLocator(b[88..]), GetLocator(b[132..]))
  }

  /** What a walk calls for each leaf row. */
  type Visit<!A> = (A, Bytes, Blocks) -> Result<A>

  function VisitRow<A>(keyWidth: nat, row: Bytes, visit: Visit<A>, acc: A): Result<A>
    requires |row| == LeafWidth(keyWidth)
  {
    visit(acc, TrimNul(row[..keyWidth]), BlocksIn(row, keyWidth))
  }

  function WalkLeaf<A>(keyWidth: nat, page: Bytes, i: nat, visit: Visit<A>, acc: A): Result<A>
    requires i <= RowCount(page, LeafWidth(keyWidth))
    decreases RowCount(page, LeafWidth(keyWidth)) - i
  {
    if i == RowCount(page, LeafWidth(keyWidth)) then Ok(acc)
    else
      var acc' :- VisitRow(keyWidth, PageRow(page, LeafWidth(keyWidth), i), visit, acc);
      WalkLeaf(keyWidth, page, i + 1, visit, acc')
  }

  /** walk: every leaf row under loc in order, stopping at the first error. */
  function Walk<A>(h: Hash, data: Bytes, keyWidth: nat, loc: Locator, level: nat, visit: Visit<A>, acc: A): Result<A>
    requires level >= 1
    decreases level, 0, 0
  {
    if level == 1 then
      var page :- ReadPage(h, data, loc, LeafWidth(keyWidth), LEAF_ROWS);
      WalkLeaf(keyWidth, page, 0, visit, acc)
    else
      var page :- ReadPage(h, data, loc, InteriorWidth(keyWidth), FANOUT);
      WalkChildren(h, data, keyWidth, page, level - 1, 0, visit, acc)
  }

  function WalkChildren<A>(h: Hash, data: Bytes, keyWidth: nat, page: Bytes, level: nat, i: nat, visit: Visit<A>,
          acc: A): Result<A>
    requires level >= 1 && i <= RowCount(page, InteriorWidth(keyWidth))
    decreases level, 1, RowCount(page, InteriorWidth(keyWidth)) - i
  {
    if i == RowCount(page, InteriorWidth(keyWidth)) then Ok(acc)
    else
      var acc' :- Walk(h, data, keyWidth, GetLocator(PageRow(page, InteriorWidth(keyWidth), i)[keyWidth..]), level,
        visit, acc);
      WalkChildren(h, data, keyWidth, page, level, i + 1, visit, acc')
  }

  // ---------- The open reader ----------

  /** PackV2Reader: a verified manifest, the four section descriptors, and the
      data file behind the open handle. */
  datatype Reader = Reader(manifest: Manifest, descriptors: seq<Bytes>, data: Bytes)

  ghost predicate Opened(r: Reader) {
    |r.descriptors| == SECTION_COUNT && r.manifest.height >= 1
  }

  function ReadDescriptors(h: Hash, data: Bytes, locs: seq<Locator>): (r: Result<seq<Bytes>>)
    ensures r.Ok? ==> |r.value| == |locs|
    ensures r.Err? ==> r.error in {Malformed, ShortRead, ChecksumMismatch}
  {
    if locs == [] then Ok([])
    else
      var d :- ReadVerified(h, data, locs[0], MAX_BLOCK_BYTES);
      var rest :- ReadDescriptors(h, data, locs[1..]);
      Ok([d] + rest)
  }

  /** The manifest half of OpenPackV2, on the manifest file's bytes when there is
      one. One byte more than a manifest is asked for, so longer files show. */
  function OpenManifest(h: Hash, file: Option<Bytes>): (r: Result<Manifest>)
    ensures r.Ok? ==> |r.value.descriptors| == SECTION_COUNT && r.value.keyWidth >= 1
    ensures r.Ok? ==> 1 <= r.value.height <= MAX_HEIGHT
    ensures file == None ==> r == Err(NoSnapshot)
  {
    match file
    case None => Err(NoSnapshot)
    case Some(b) => DecodeManifest(h, if |b| > MANIFEST_SIZE + 1 then b[..MANIFEST_SIZE + 1] else b)
  }

  /** A manifest file is accepted exactly when its whole content is the encoding of
      a valid manifest, which is then the one read; a longer file never is. Otherwise
      the error says what is wrong: the size, the digest, or a field. */
  lemma ManifestAccepted(h: Hash, b: Bytes)
    ensures forall m: Manifest :: OpenManifest(h, Some(b)) == Ok(m) <==> Valid(m) && EncodeManifest(h, m) == b
    ensures var r := OpenManifest(h, Some(b));
      && (|b| != 372 ==> r == Err(Malformed))
      && (|b| == 372 && h(b[..340]) != b[340..] ==> r == Err(ChecksumMismatch))
      && (|b| == 372 && h(b[..340]) == b[340..] ==> r.Ok? || r == Err(Malformed))
  {
    hide EncodeManifest, ValidName, Fits;
    forall m: Manifest ensures OpenManifest(h, Some(b)) == Ok(m) <==> Valid(m) && EncodeManifest(h, m) == b {
      if OpenManifest(h, Some(b)) == Ok(m) { EncodeDecode(h, b); }
      if Valid(m) && EncodeManifest(h, m) == b { DecodeEncode(h, m); }
    }
  }

  /** The data half, on the bytes behind the named data file when it exists. */
  function OpenData(h: Hash, m: Manifest, data: Option<Bytes>): (r: Result<Reader>)
    requires |m.descriptors| == SECTION_COUNT && m.height >= 1
    ensures r.Ok? ==> Opened(r.value) && r.value.manifest == m && data == Some(r.value.data)
    ensures data == None ==> r == Err(OpenFailed)
    ensures data.Some? && r.Err? ==> r.error in {Malformed, ShortRead, ChecksumMismatch}
  {
    match data
    case None => Err(OpenFailed)
    case Some(b) =>
      var ds :- ReadDescriptors(h, b, m.descriptors);
      Ok(Reader(m, ds, b))
  }

  function ReadSection(h: Hash, codec: Codec, r: Reader, k: nat, loc: Locator): (v: Result<Value>)
    requires Opened(r) && k < SECTION_COUNT
    ensures v.Ok? ==> KindOf(v.value) == KINDS[k]
    ensures v.Err? ==>
      var block := ReadVerified(h, r.data, loc, MAX_BLOCK_BYTES);
      v.error == if block.Err? then block.error else DecodeFailed
  {
    var block :- ReadVerified(h, r.data, loc, MAX_BLOCK_BYTES);
    match DecodeBlock(codec, KINDS[k], r.descriptors[k], block)
    case None => Err(DecodeFailed)
    case Some(v) => if KindOf(v) == KINDS[k] then Ok(v) else Err(DecodeFailed)
  }

  function ReadRecord(h: Hash, codec: Codec, r: Reader, path: Bytes, b: Blocks): Result<Record>
    requires Opened(r)
  {
    hide ReadSection;
    var meta :- ReadSection(h, codec, r, 0, b.meta);
    var symbols :- ReadSection(h, codec, r, 1, b.symbols);
    var imports :- ReadSection(h, codec, r, 2, b.imports);
    var markers :- ReadSection(h, codec, r, 3, b.markers);
    Ok(Record(path, meta.text, symbols.symbols, imports.texts, markers.markers))
  }

  /** ReadWhole's visitor: file the record, append the path. */
  function VisitWhole(h: Hash, codec: Codec, r: Reader): Visit<(map<Bytes, Record>, seq<Bytes>)>
    requires Opened(r)
  {
    (acc: (map<Bytes, Record>, seq<Bytes>), path, b) =>
      match ReadRecord(h, codec, r, path, b)
      case Err(e) => Err(e)
      case Ok(rec) => Ok((acc.0[path := rec], acc.1 + [path]))
  }

  function ReadVocabulary(h: Hash, codec: Codec, r: Reader): (words: Result<seq<Bytes>>)
    ensures words.Err? ==>
      var block := ReadVerified(h, r.data, r.manifest.vocabulary, MAX_BLOCK_BYTES);
      words.error == if block.Err? then block.error else DecodeFailed
  {
    var b :- ReadVerified(h, r.data, r.manifest.vocabulary, MAX_BLOCK_BYTES);
    match DecodeAlone(codec, TextsKind, b)
    case Some(Texts(words)) => Ok(words)
    case _ => Err(DecodeFailed)
  }

  function ReadWhole(h: Hash, codec: Codec, r: Reader): Result<Corpus>
    requires Opened(r)
  {
    var (files, paths) :- Walk(h, r.data, r.manifest.keyWidth, r.manifest.root, r.manifest.height,
      VisitWhole(h, codec, r), (map[], []));
    var words :- ReadVocabulary(h, codec, r);
    Ok(Corpus(files, paths, words))
  }

  function VisitImports(h: Hash, codec: Codec, r: Reader): Visit<map<Bytes, seq<Bytes>>>
    requires Opened(r)
  {
    (acc: map<Bytes, seq<Bytes>>, path, b: Blocks) =>
      match ReadSection(h, codec, r, 2, b.imports)
      case Err(e) => Err(e)
      case Ok(v) => Ok(acc[path := v.texts])
  }

  function ReadOneTable(h: Hash, codec: Codec, r: Reader): Result<map<Bytes, seq<Bytes>>>
    requires Opened(r)
  {
    Walk(h, r.data, r.manifest.keyWidth, r.manifest.root, r.manifest.height, VisitImports(h, codec, r), map[])
  }

  function ReadOnePath(h: Hash, codec: Codec, r: Reader, target: Bytes): Result<Record>
    requires Opened(r)
  {
    var row :- Lookup(h, r.data, r.manifest, target);
    match row
    case None => Err(PathNotFound)
    case Some(b) => ReadRecord(h, codec, r, target, BlocksIn(b, r.manifest.keyWidth))
  }
}
