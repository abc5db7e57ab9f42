/** Pack v1: the simple form. One independently encoded block per path and kind,
    one manifest row per path. */
module PackV1 {
  import opened ByteStrings
  import opened Sorting
  import opened Gob
  import opened Corpora
  import opened PackTypes
  import PackV2Reader

  /** PackBlock: the same three facts as a v2 locator. */
  type Block = Locator

  const KIND_COUNT := 4

  /** PackManifest. kinds[k] lists the blocks of kind k, parallel to paths. */
  datatype Manifest = Manifest(paths: seq<Bytes>, kinds: seq<seq<Block>>, vocabulary: Block, dataFile: Bytes)

  ghost predicate Shaped(m: Manifest) {
    |m.kinds| == KIND_COUNT && forall k :: 0 <= k < KIND_COUNT ==> |m.kinds[k]| == |m.paths|
  }

  // ---------- BuildPack ----------

  /** writeBlock on a file holding `data`; only the operating system bounds it. */
  function Put(h: Hash, data: Bytes, p: Bytes): Result<(Bytes, Block)> {
    if |data| + |p| >= MAX_FILE_BYTES then Err(WriteFailed)
    else Ok((data + p, Locator(|data|, |p|, h(p))))
  }

  /** The blocks of kind k from path i on. */
  function PutKind(h: Hash, codec: Codec, c: Corpus, paths: seq<Bytes>, k: nat, i: nat,
          data: Bytes): (r: Result<(Bytes, seq<Block>)>)
    requires k < KIND_COUNT && i <= |paths|
    ensures r.Ok? ==> |r.value.1| == |paths| - i
    decreases |paths| - i
  {
    if i == |paths| then Ok((data, []))
    else
      var (data1, b) :- Put(h, data, EncodeAlone(codec, SectionValue(k, RecordAt(c, paths[i]))));
      var (data2, bs) :- PutKind(h, codec, c, paths, k, i + 1, data1);
      Ok((data2, [b] + bs))
  }

  function PutKinds(h: Hash, codec: Codec, c: Corpus, paths: seq<Bytes>, k: nat,
          data: Bytes): (r: Result<(Bytes, seq<seq<Block>>)>)
    requires k <= KIND_COUNT
    ensures r.Ok? ==> |r.value.1| == KIND_COUNT - k && forall j :: 0 <= j < KIND_COUNT - k ==> |r.value.1[j]| == |paths|
    decreases KIND_COUNT - k
  {
    if k == KIND_COUNT then Ok((data, []))
    else
      var (data1, bs) :- PutKind(h, codec, c, paths, k, 0, data);
      var (data2, rest) :- PutKinds(h, codec, c, paths, k + 1, data1);
      Ok((data2, [bs] + rest))
  }

  /** BuildPack: the manifest and data file it leaves. */
  function Build(h: Hash, codec: Codec, name: Bytes, c: Corpus): (r: Result<(Manifest, Bytes)>)
    ensures r.Ok? ==> Shaped(r.value.0)
  {
    var paths := SortPaths(c.paths);
    var (data1, kinds) :- PutKinds(h, codec, c, paths, 0, []);
    var (data2, vocabulary) :- Put(h, data1, EncodeAlone(codec, Texts(c.vocabulary)));
    Ok((Manifest(paths, kinds, vocabulary, name), data2))
  }

  // ---------- Reading ----------

  /** readBlock into a variable of the given kind: nothing is decoded that the file
      does not hold whole and unaltered. */
  function ReadBlock(h: Hash, codec: Codec, data: Bytes, b: Block, kind: Kind): (r: Result<Value>)
    ensures !InFile(|data|, b) ==> r == Err(ShortRead)
    ensures InFile(|data|, b) && h(RangeOf(data, b)) != b.sha ==> r == Err(ChecksumMismatch)
    ensures InFile(|data|, b) && h(RangeOf(data, b)) == b.sha ==> r.Ok? || r == Err(DecodeFailed)
    ensures r.Ok? ==> KindOf(r.value) == kind
  {
    if PackV2Reader.Available(data, b.offset, b.length) < b.length then Err(ShortRead)
    else
      var buf := if b.length == 0 then [] else data[b.offset..b.offset + b.length];
      if h(buf) != b.sha then Err(ChecksumMismatch)
      else
        match DecodeAlone(codec, kind, buf)
        case None => Err(DecodeFailed)
        case Some(v) => if KindOf(v) == kind then Ok(v) else Err(DecodeFailed)
  }

  /** The record of row i, filed under `path`. */
  function ReadRow(h: Hash, codec: Codec, m: Manifest, data: Bytes, i: nat): Result<Record>
    requires Shaped(m) && i < |m.paths|
  {
    var meta :- ReadBlock(h, codec, data, m.kinds[0][i], TextKind);
    var symbols :- ReadBlock(h, codec, data, m.kinds[1][i], SymbolsKind);
    var imports :- ReadBlock(h, codec, data, m.kinds[2][i], TextsKind);
    var markers :- ReadBlock(h, codec, data, m.kinds[3][i], MarkersKind);
    Ok(Record(m.paths[i], meta.text, symbols.symbols, imports.texts, markers.markers))
  }

  function ReadRows(h: Hash, codec: Codec, m: Manifest, data: Bytes, i: nat,
          files: map<Bytes, Record>): Result<map<Bytes, Record>>
    requires Shaped(m) && i <= |m.paths|
    decreases |m.paths| - i
  {
    if i == |m.paths| then Ok(files)
    else
      var rec :- ReadRow(h, codec, m, data, i);
      ReadRows(h, codec, m, data, i + 1, files[m.paths[i] := rec])
  }

  function ReadWhole(h: Hash, codec: Codec, m: Manifest, data: Bytes): Result<Corpus>
    requires Shaped(m)
  {
    var files :- ReadRows(h, codec, m, data, 0, map[]);
    var words :- ReadBlock(h, codec, data, m.vocabulary, TextsKind);
    Ok(Corpus(files, m.paths, words.texts))
  }

  function ReadTableRows(h: Hash, codec: Codec, m: Manifest, data: Bytes, i: nat,
          out: map<Bytes, seq<Bytes>>): Result<map<Bytes, seq<Bytes>>>
    requires Shaped(m) && i <= |m.paths|
    decreases |m.paths| - i
  {
    if i == |m.paths| then Ok(out)
    else
      var imports :- ReadBlock(h, codec, data, m.kinds[2][i], TextsKind);
      ReadTableRows(h, codec, m, data, i + 1, out[m.paths[i] := imports.texts])
  }

  function ReadOneTable(h: Hash, codec: Codec, m: Manifest, data: Bytes): Result<map<Bytes, seq<Bytes>>>
    requires Shaped(m)
  {
    ReadTableRows(h, codec, m, data, 0, map[])
  }

  /** pathIdx[target]: the last row filed under it. */
  function LastIndex(paths: seq<Bytes>, target: Bytes): (i: Option<nat>)
    ensures match i {
      case Some(n) => n < |paths| && paths[n] == target && forall j :: n < j < |paths| ==> paths[j] != target
      case None => forall j :: 0 <= j < |paths| ==> paths[j] != target }
  {
    if paths == [] then None
    else if paths[|paths| - 1] == target then Some(|paths| - 1)
    else LastIndex(paths[..|paths| - 1], target)
  }

  function ReadOnePath(h: Hash, codec: Codec, m: Manifest, data: Bytes, target: Bytes): Result<Record>
    requires Shaped(m)
  {
    match LastIndex(m.paths, target)
    case None => Err(PathNotFound)
    case Some(i) => ReadRow(h, codec, m, data, i)
  }

  // ---------- The imperative forms ----------

  /** The data file being written, with the offset BuildPack keeps beside it. */
  class PackFile {
    var file: Bytes
    var offset: nat

    ghost predicate Valid()
      reads this
    {
      offset == |file|
    }

    constructor ()
      ensures Valid() && file == []
    {
      file, offset := [], 0;
    }

    method WriteBlock(h: Hash, payload: Bytes) returns (r: Result<Block>)
      requires Valid()
      modifies this
      ensures Valid()
      ensures match Put(h, old(file), payload) {
        case Ok((data, b)) => r == Ok(b) && file == data
        case Err(e) => r == Err(e) && file == old(file) }
    {
      if offset + |payload| >= MAX_FILE_BYTES { return Err(WriteFailed); }
      file := file + payload;
      r := Ok(Locator(offset, |payload|, h(payload)));
      offset := offset + |payload|;
    }
  }

  /** All blocks of one kind. */
  method WriteKind(f: PackFile, h: Hash, codec: Codec, c: Corpus, paths: seq<Bytes>, k: nat)
    returns (r: Result<seq<Block>>)
    requires f.Valid() && k < KIND_COUNT
    modifies f
    ensures f.Valid()
    ensures match PutKind(h, codec, c, paths, k, 0, old(f.file)) {
      case Ok((data, bs)) => r == Ok(bs) && f.file == data
      case Err(e) => r == Err(e) }
  {
    hide EncodeAlone, SectionValue, RecordAt, Put;
    var blocks: seq<Block> := [];
    var i := 0;
    PrependNone(PutKind(h, codec, c, paths, k, 0, f.file));
    while i < |paths|
      invariant 0 <= i <= |paths| && f.Valid()
      invariant PutKind(h, codec, c, paths, k, 0, old(f.file))
        == Prepend(blocks, PutKind(h, codec, c, paths, k, i, f.file))
    {
      ghost var before := f.file;
      var b := f.WriteBlock(h, EncodeAlone(codec, SectionValue(k, RecordAt(c, paths[i]))));
      if b.Err? { return Err(b.error); }
      assert PutKind(h, codec, c, paths, k, i, before)
        == Prepend([b.value], PutKind(h, codec, c, paths, k, i + 1, f.file));
      PrependOne(blocks, b.value, PutKind(h, codec, c, paths, k, i + 1, f.file));
      blocks := blocks + [b.value];
      i := i + 1;
    }
    assert blocks + [] == blocks;
    r := Ok(blocks);
  }

  /** BuildPack up to the publication of its manifest. */
  method BuildPack(f: PackFile, h: Hash, codec: Codec, name: Bytes, c: Corpus) returns (r: Result<Manifest>)
    requires f.Valid() && f.file == []
    modifies f
    ensures f.Valid()
    ensures match Build(h, codec, name, c) {
      case Ok((m, data)) => r == Ok(m) && f.file == data
      case Err(e) => r == Err(e) }
  {
    hide EncodeAlone, PutKind;
    var paths := SortPaths(c.paths);
    var kinds: seq<seq<Block>> := [];
    var k := 0;
    PrependNone(PutKinds(h, codec, c, paths, 0, f.file));
    while k < KIND_COUNT
      invariant 0 <= k <= KIND_COUNT && f.Valid()
      invariant PutKinds(h, codec, c, paths, 0, []) == Prepend(kinds, PutKinds(h, codec, c, paths, k, f.file))
    {
      ghost var before := f.file;
      var blocks := WriteKind(f, h, codec, c, paths, k);
      if blocks.Err? { return Err(blocks.error); }
      assert PutKinds(h, codec, c, paths, k, before)
        == Prepend([blocks.value], PutKinds(h, codec, c, paths, k + 1, f.file));
      PrependOne(kinds, blocks.value, PutKinds(h, codec, c, paths, k + 1, f.file));
      kinds := kinds + [blocks.value];
      k := k + 1;
    }
    assert kinds + [] == kinds;
    var vocabulary := f.WriteBlock(h, EncodeAlone(codec, Texts(c.vocabulary)));
    if vocabulary.Err? { return Err(vocabulary.error); }
    r := Ok(Manifest(paths, kinds, vocabulary.value, name));
  }

  /** ReadWhole with its loop over the manifest's paths. */
  method ReadWholePack(h: Hash, codec: Codec, m: Manifest, data: Bytes) returns (r: Result<Corpus>)
    requires Shaped(m)
    ensures r == ReadWhole(h, codec, m, data)
  {
    hide ReadBlock;
    var files: map<Bytes, Record>, paths: seq<Bytes> := map[], [];
    var i := 0;
    while i < |m.paths|
      invariant 0 <= i <= |m.paths| && paths == m.paths[..i]
      invariant ReadRows(h, codec, m, data, 0, map[]) == ReadRows(h, codec, m, data, i, files)
    {
      var rec := ReadRow(h, codec, m, data, i);
      if rec.Err? { return Err(rec.error); }
      files, paths := files[m.paths[i] := rec.value], paths + [m.paths[i]];
      i := i + 1;
    }
    assert paths == m.paths;
    var words := ReadBlock(h, codec, data, m.vocabulary, TextsKind);
    if words.Err? { return Err(words.error); }
    r := Ok(Corpus(files, paths, words.value.texts));
  }

  method ReadImportsTable(h: Hash, codec: Codec, m: Manifest, data: Bytes) returns (r: Result<map<Bytes, seq<Bytes>>>)
    requires Shaped(m)
    ensures r == ReadOneTable(h, codec, m, data)
  {
    hide ReadBlock;
    var out: map<Bytes, seq<Bytes>> := map[];
    var i := 0;
    while i < |m.paths|
      invariant 0 <= i <= |m.paths|
      invariant ReadOneTable(h, codec, m, data) == ReadTableRows(h, codec, m, data, i, out)
    {
      var imports := ReadBlock(h, codec, data, m.kinds[2][i], TextsKind);
      if imports.Err? { return Err(imports.error); }
      out := out[m.paths[i] := imports.value.texts];
      i := i + 1;
    }
    r := Ok(out);
  }

  // ---------- Projections, on any data file ----------

  lemma {:induction false} RowsProject(h: Hash, codec: Codec, m: Manifest, data: Bytes, i: nat,
          files: map<Bytes, Record>, target: Bytes)
    requires Shaped(m) && i <= |m.paths| && ReadRows(h, codec, m, data, i, files).Ok?
    ensures var out := ReadRows(h, codec, m, data, i, files).value;
      match LastIndex(m.paths, target)
      case Some(n) =>
        (n >= i ==> target in out && ReadRow(h, codec, m, data, n) == Ok(out[target]))
        && (n < i ==> (target in out <==> target in files) && (target in files ==> out[target] == files[target]))
      case None => (target in out <==> target in files) && (target in files ==> out[target] == files[target])
    decreases |m.paths| - i
  {
    hide ReadRow, LastIndex;
    if i < |m.paths| {
      var rec := ReadRow(h, codec, m, data, i).value;
      RowsProject(h, codec, m, data, i + 1, files[m.paths[i] := rec], target);
    }
  }

  lemma {:induction false} TableRowsProject(h: Hash, codec: Codec, m: Manifest, data: Bytes, i: nat,
          files: map<Bytes, Record>, out: map<Bytes, seq<Bytes>>)
    requires Shaped(m) && i <= |m.paths| && ReadRows(h, codec, m, data, i, files).Ok?
    requires out.Keys == files.Keys && forall p <- out :: out[p] == files[p].imports
    ensures var whole := ReadRows(h, codec, m, data, i, files).value;
      var table := ReadTableRows(h, codec, m, data, i, out);
      table.Ok? && table.value.Keys == whole.Keys && forall p <- whole :: table.value[p] == whole[p].imports
    decreases |m.paths| - i
  {
    hide ReadBlock;
    if i < |m.paths| {
      var rec := ReadRow(h, codec, m, data, i).value;
      TableRowsProject(h, codec, m, data, i + 1, files[m.paths[i] := rec], out[m.paths[i] := rec.imports]);
    }
  }

  /** Whatever the data file holds: when a whole read succeeds, the one-path read
      of every target, present or absent, and the one-table read are its
      projections. */
  lemma ReadsProjectWhole(h: Hash, codec: Codec, m: Manifest, data: Bytes, target: Bytes)
    requires Shaped(m) && ReadWhole(h, codec, m, data).Ok?
    ensures var whole := ReadWhole(h, codec, m, data).value;
      && ReadOnePath(h, codec, m, data, target)
         == (if target in whole.files then Ok(whole.files[target]) else Err(PathNotFound))
      && ReadOneTable(h, codec, m, data) == Ok(map p <- whole.files :: whole.files[p].imports)
  {
    hide ReadRow, ReadBlock;
    RowsProject(h, codec, m, data, 0, map[], target);
    TableRowsProject(h, codec, m, data, 0, map[], map[]);
    var whole := ReadWhole(h, codec, m, data).value;
    var table := ReadOneTable(h, codec, m, data).value;
    assert table == map p <- whole.files :: whole.files[p].imports;
  }
}
