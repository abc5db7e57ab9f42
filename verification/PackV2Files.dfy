/** The stateful side of pack v2: the writer that advances a file offset as it
    appends, the build that drives it, and the reader that counts the bytes each
    positioned read returns. Every method is proved against the functions of
    PackV2Writer and PackV2Reader. */
module PackV2Files {
  import opened ByteStrings
  import opened Gob
  import opened Corpora
  import opened PackTypes
  import opened PackV2Manifest
  import opened PackV2Writer
  import opened PackV2Reader

  /** A level is its first page, then the level of the remaining rows. */
  lemma LevelStep(h: Hash, data: Bytes, rows: seq<Bytes>, perPage: nat, keyWidth: nat)
    requires perPage > 0 && rows != [] && KeyedRows(rows, keyWidth)
    ensures var m := Min(perPage, |rows|);
      WriteLevel(h, data, rows, perPage, keyWidth) ==
      match Put(h, data, Join(rows[..m]))
      case Err(e) => Err(e)
      case Ok((data1, loc)) =>
        Prepend([rows[0][..keyWidth] + PutLocator(loc)], WriteLevel(h, data1, rows[m..], perPage, keyWidth))
  {
    ChunksKeyed(rows, perPage, keyWidth);
    var m := Min(perPage, |rows|);
    ChunksKeyed(rows[m..], perPage, keyWidth);
    hide Join, KeyedRows, PutLocator;
  }

  /** v2Writer: the file behind the handle and the offset it keeps. */
  class V2Writer {
    var file: Bytes
    var offset: nat

    ghost predicate Valid()
      reads this
    {
      offset == |file|
    }

    constructor ()
      ensures Valid() && file == []
    {
      file, offset := [], 0;
    }

    /** v2Writer.write: on success the payload is appended and located, on
        failure nothing is written. */
    method Write(h: Hash, p: Bytes) returns (r: Result<Locator>)
      requires Valid()
      modifies this
      ensures Valid() && old(file) <= file
      ensures match Put(h, old(file), p) {
        case Ok((data, loc)) => r == Ok(loc) && file == data
        case Err(e) => r == Err(e) && file == old(file) }
    {
      if |p| > MAX_BLOCK_BYTES { return Err(Malformed); }
      if offset + |p| >= MAX_FILE_BYTES { return Err(WriteFailed); }
      file := file + p;
      r := Ok(Locator(offset, |p|, h(p)));
      offset := offset + |p|;
    }

    /** v2Writer.writeLevel. */
    method WriteLevel(h: Hash, rows: seq<Bytes>, perPage: nat, keyWidth: nat) returns (r: Result<seq<Bytes>>)
      requires Valid() && perPage > 0 && KeyedRows(rows, keyWidth)
      modifies this
      ensures Valid() && old(file) <= file
      ensures match PackV2Writer.WriteLevel(h, old(file), rows, perPage, keyWidth) {
        case Ok((data, parents)) => r == Ok(parents) && file == data
        case Err(e) => r == Err(e) }
    {
      var parents: seq<Bytes> := [];
      var start := 0;
      PrependNone(PackV2Writer.WriteLevel(h, file, rows, perPage, keyWidth));
      assert rows[0..] == rows;
      while start < |rows|
        invariant 0 <= start <= |rows| && Valid() && old(file) <= file
        invariant PackV2Writer.WriteLevel(h, old(file), rows, perPage, keyWidth)
               == Prepend(parents, PackV2Writer.WriteLevel(h, file, rows[start..], perPage, keyWidth))
      {
        ghost var rest := rows[start..];
        LevelStep(h, file, rest, perPage, keyWidth);
        var end := Min(start + perPage, |rows|);
        ghost var m := Min(perPage, |rest|);
        assert rows[start..end] == rest[..m] && rows[end..] == rest[m..] && rest[0] == rows[start];
        var loc := Write(h, Join(rows[start..end]));
        hide PackV2Writer.WriteLevel, Join, Put;
        if loc.Err? { return Err(loc.error); }
        var parent := rows[start][..keyWidth] + PutLocator(loc.value);
        PrependOne(parents, parent, PackV2Writer.WriteLevel(h, file, rows[end..], perPage, keyWidth));
        parents := parents + [parent];
        start := end;
      }
      assert rows[start..] == [];
      assert PackV2Writer.WriteLevel(h, file, [], perPage, keyWidth) == Ok((file, []));
      assert parents + [] == parents;
      r := Ok(parents);
    }

    /** v2Writer.writeTree: levels until one root page remains. */
    method WriteTree(h: Hash, leaves: seq<Bytes>, keyWidth: nat) returns (r: Result<(Locator, nat)>)
      requires Valid() && leaves != [] && KeyedRows(leaves, keyWidth)
      modifies this
      ensures Valid() && old(file) <= file
      ensures match PackV2Writer.WriteTree(h, old(file), leaves, LEAF_ROWS, keyWidth, 1) {
        case Ok((data, root, height)) => r == Ok((root, height)) && file == data
        case Err(e) => r == Err(e) }
    {
      hide PackV2Writer.WriteLevel;
      var rows, perPage, height := leaves, LEAF_ROWS, 1;
      while true
        invariant Valid() && old(file) <= file && rows != [] && KeyedRows(rows, keyWidth) && perPage >= 2
        invariant PackV2Writer.WriteTree(h, old(file), leaves, LEAF_ROWS, keyWidth, 1)
               == PackV2Writer.WriteTree(h, file, rows, perPage, keyWidth, height)
        decreases |rows|
      {
        FewerPages(|rows|, perPage);
        var parents := WriteLevel(h, rows, perPage, keyWidth);
        if parents.Err? { return Err(parents.error); }
        if |parents.value| == 1 {
          return Ok((GetLocator(parents.value[0][keyWidth..]), height));
        }
        rows, perPage, height := parents.value, FANOUT, height + 1;
      }
    }
  }

  // ---------- BuildPackV2 ----------

  /** What the section's encoder produces at each step. */
  lemma PayloadAt(codec: Codec, c: Corpus, paths: seq<Bytes>, k: nat, i: nat)
    requires k < 4 && i < |paths|
    ensures var ps := SectionPayloads(codec, c, paths, k);
      var layout := codec.layouts(KINDS[k]);
      && Encode(Encoder(layout, true), SectionValue(k, RecordAt(c, paths[i]))) == (ps[1 + i], Encoder(layout, true))
      && ps[1 + i..][0] == ps[1 + i] && ps[1 + i..][1..] == ps[2 + i..]
  {
    var layout := codec.layouts(KINDS[k]);
    var vs := [SectionValue(k, PRIMER)] + SectionValues(k, c, paths);
    assert vs[1..] == SectionValues(k, c, paths);
    SectionValuesAt(k, c, paths, i);
    EncodeRunSent(Encoder(layout, true), vs[1..], i);
    assert [] + ValueMessage(layout, vs[1 + i]) == ValueMessage(layout, vs[1 + i]);
  }

  lemma DescriptorFirst(codec: Codec, c: Corpus, paths: seq<Bytes>, k: nat)
    requires k < 4
    ensures var layout := codec.layouts(KINDS[k]);
      Encode(Encoder(layout, false), SectionValue(k, PRIMER))
        == (SectionPayloads(codec, c, paths, k)[0], Encoder(layout, true))
  {
  }

  /** One section: the descriptor, then a block per path, through one encoder. */
  method WriteSection(w: V2Writer, h: Hash, codec: Codec, c: Corpus, paths: seq<Bytes>, k: nat)
    returns (r: Result<seq<Locator>>)
    requires w.Valid() && k < 4
    modifies w
    ensures w.Valid() && old(w.file) <= w.file
    ensures match PutAll(h, old(w.file), SectionPayloads(codec, c, paths, k)) {
      case Ok((data, locs)) => r == Ok(locs) && w.file == data
      case Err(e) => r == Err(e) }
  {
    hide SectionPayloads, Put, Encode, SectionValue;
    ghost var ps := SectionPayloads(codec, c, paths, k);
    var layout := codec.layouts(KINDS[k]);
    DescriptorFirst(codec, c, paths, k);
    var (descriptor, enc) := Encode(Encoder(layout, false), SectionValue(k, PRIMER));
    var first := w.Write(h, descriptor);
    if first.Err? { return Err(first.error); }
    var locs := [first.value];
    var i := 0;
    while i < |paths|
      invariant 0 <= i <= |paths| && w.Valid() && old(w.file) <= w.file
      invariant enc == Encoder(layout, true)
      invariant PutAll(h, old(w.file), ps) == Prepend(locs, PutAll(h, w.file, ps[1 + i..]))
    {
      PayloadAt(codec, c, paths, k, i);
      var (block, enc') := Encode(enc, SectionValue(k, RecordAt(c, paths[i])));
      enc := enc';
      var loc := w.Write(h, block);
      if loc.Err? { return Err(loc.error); }
      PrependOne(locs, loc.value, PutAll(h, w.file, ps[2 + i..]));
      locs := locs + [loc.value];
      i := i + 1;
    }
    assert ps[1 + i..] == [];
    assert locs + [] == locs;
    r := Ok(locs);
  }

  /** A row after its first k locators were appended. */
  ghost function PartialRow(path: Bytes, keyWidth: nat, sections: seq<seq<Locator>>, i: nat, k: nat): Bytes
    requires |path| <= keyWidth && k <= |sections|
    requires forall s :: 0 <= s < |sections| ==> |sections[s]| > 1 + i
  {
    if k == 0 then Pad(path, keyWidth)
    else PartialRow(path, keyWidth, sections, i, k - 1) + PutLocator(sections[k - 1][1 + i])
  }

  lemma {:induction false} PartialRowKept(path: Bytes, keyWidth: nat, sections: seq<seq<Locator>>,
          more: seq<seq<Locator>>, i: nat, k: nat)
    requires |path| <= keyWidth && k <= |sections| && |more| == |sections| + 1 && more[..|sections|] == sections
    requires forall s :: 0 <= s < |more| ==> |more[s]| > 1 + i
    ensures forall s :: 0 <= s < |sections| ==> |sections[s]| > 1 + i
    ensures PartialRow(path, keyWidth, more, i, k) == PartialRow(path, keyWidth, sections, i, k)
  {
    assert forall s :: 0 <= s < |sections| ==> sections[s] == more[s];
    if k > 0 { PartialRowKept(path, keyWidth, sections, more, i, k - 1); }
  }

  /** Appends one locator to every row. */
  method AppendColumn(rows: seq<Bytes>, locs: seq<Locator>) returns (r: seq<Bytes>)
    requires |locs| == |rows| + 1
    ensures |r| == |rows| && forall i :: 0 <= i < |rows| ==> r[i] == rows[i] + PutLocator(locs[1 + i])
  {
    r := [];
    for i := 0 to |rows|
      invariant |r| == i && forall j :: 0 <= j < i ==> r[j] == rows[j] + PutLocator(locs[1 + j])
    {
      r := r + [rows[i] + PutLocator(locs[1 + i])];
    }
  }

  /** The rows of the path table, before any locator. */
  method KeyColumn(paths: seq<Bytes>, keyWidth: nat) returns (rows: seq<Bytes>)
    requires Within(paths, keyWidth)
    ensures |rows| == |paths| && forall i :: 0 <= i < |paths| ==> rows[i] == Pad(paths[i], keyWidth)
  {
    rows := [];
    for i := 0 to |paths|
      invariant |rows| == i && forall j :: 0 <= j < i ==> rows[j] == Pad(paths[j], keyWidth)
    {
      rows := rows + [Pad(paths[i], keyWidth)];
    }
  }

  /** Rows holding the locators of every section so far. */
  ghost predicate RowsSoFar(rows: seq<Bytes>, paths: seq<Bytes>, keyWidth: nat, sections: seq<seq<Locator>>)
    requires Within(paths, keyWidth)
  {
    && |rows| == |paths|
    && (forall s :: 0 <= s < |sections| ==> |sections[s]| == |paths| + 1)
    && forall i :: 0 <= i < |paths| ==> rows[i] == PartialRow(paths[i], keyWidth, sections, i, |sections|)
  }

  lemma ColumnAppended(rows: seq<Bytes>, rows': seq<Bytes>, paths: seq<Bytes>, keyWidth: nat,
          sections: seq<seq<Locator>>, locs: seq<Locator>)
    requires Within(paths, keyWidth) && RowsSoFar(rows, paths, keyWidth, sections) && |locs| == |paths| + 1
      && |rows'| == |rows|
    requires forall i :: 0 <= i < |rows| ==> rows'[i] == rows[i] + PutLocator(locs[1 + i])
    ensures RowsSoFar(rows', paths, keyWidth, sections + [locs])
  {
    hide PutLocator, Pad;
    var more := sections + [locs];
    forall i | 0 <= i < |paths| ensures rows'[i] == PartialRow(paths[i], keyWidth, more, i, |more|) {
      PartialRowKept(paths[i], keyWidth, sections, more, i, |sections|);
    }
  }

  /** The first k sections are written, their locators are in the rows, and what is
      left to write is the same. */
  ghost predicate ColumnsWritten(h: Hash, codec: Codec, file0: Bytes, file: Bytes, c: Corpus, paths: seq<Bytes>,
          keyWidth: nat, k: nat, sections: seq<seq<Locator>>, rows: seq<Bytes>, descriptors: seq<Locator>)
    requires Within(paths, keyWidth)
  {
    && k == |sections| == |descriptors| <= 4 && RowsSoFar(rows, paths, keyWidth, sections)
    && (forall s :: 0 <= s < k ==> |sections[s]| > 0 && descriptors[s] == sections[s][0])
    && WriteSections(h, codec, file0, c, paths, 0) == Prepend(sections, WriteSections(h, codec, file, c, paths, k))
  }

  lemma ColumnStep(h: Hash, codec: Codec, file0: Bytes, file: Bytes, file': Bytes, c: Corpus, paths: seq<Bytes>,
          keyWidth: nat, k: nat, sections: seq<seq<Locator>>, rows: seq<Bytes>, extended: seq<Bytes>,
          descriptors: seq<Locator>, locs: seq<Locator>)
    requires Within(paths, keyWidth) && k < 4
      && ColumnsWritten(h, codec, file0, file, c, paths, keyWidth, k, sections, rows, descriptors)
    requires PutAll(h, file, SectionPayloads(codec, c, paths, k)) == Ok((file', locs)) && |locs| == |paths| + 1
    requires |extended| == |rows| == |paths| && forall i ::
      0 <= i < |rows| ==> extended[i] == rows[i] + PutLocator(locs[1 + i])
    ensures ColumnsWritten(h, codec, file0, file', c, paths, keyWidth, k + 1, sections + [locs], extended,
      descriptors + [locs[0]])
  {
    hide PutAll, SectionPayloads, PutLocator, RowsSoFar;
    assert WriteSections(h, codec, file, c, paths, k)
      == Prepend([locs], WriteSections(h, codec, file', c, paths, k + 1));
    hide WriteSections;
    PrependOne(sections, locs, WriteSections(h, codec, file', c, paths, k + 1));
    ColumnAppended(rows, extended, paths, keyWidth, sections, locs);
  }

  lemma ColumnFails(h: Hash, codec: Codec, file0: Bytes, file: Bytes, c: Corpus, paths: seq<Bytes>, keyWidth: nat,
          k: nat, sections: seq<seq<Locator>>, rows: seq<Bytes>, descriptors: seq<Locator>)
    requires Within(paths, keyWidth) && k < 4
      && ColumnsWritten(h, codec, file0, file, c, paths, keyWidth, k, sections, rows, descriptors)
    requires PutAll(h, file, SectionPayloads(codec, c, paths, k)).Err?
    ensures WriteSections(h, codec, file0, c, paths, 0)
      == Err(PutAll(h, file, SectionPayloads(codec, c, paths, k)).error)
  {
    hide PutAll, SectionPayloads, RowsSoFar;
  }

  lemma CompleteRow(path: Bytes, keyWidth: nat, sections: seq<seq<Locator>>, count: nat, i: nat)
    requires |path| <= keyWidth && Sections(sections, count) && i < count
    ensures PartialRow(path, keyWidth, sections, i, 4) == LeafRow(path, keyWidth, BlocksOf(sections, count, i))
  {
    hide PutLocator, Pad;
    assert PartialRow(path, keyWidth, sections, i, 1) == Pad(path, keyWidth) + PutLocator(sections[0][1 + i]);
    assert PartialRow(path, keyWidth, sections, i, 2)
      == PartialRow(path, keyWidth, sections, i, 1) + PutLocator(sections[1][1 + i]);
    assert PartialRow(path, keyWidth, sections, i, 3)
      == PartialRow(path, keyWidth, sections, i, 2) + PutLocator(sections[2][1 + i]);
    assert PartialRow(path, keyWidth, sections, i, 4)
      == PartialRow(path, keyWidth, sections, i, 3) + PutLocator(sections[3][1 + i]);
  }

  lemma CompleteRows(paths: seq<Bytes>, keyWidth: nat, sections: seq<seq<Locator>>, rows: seq<Bytes>)
    requires Within(paths, keyWidth) && Sections(sections, |paths|) && |rows| == |paths|
    requires RowsSoFar(rows, paths, keyWidth, sections)
    ensures rows == LeafRows(paths, keyWidth, sections, 0)
  {
    hide LeafRows;
    forall i | 0 <= i < |paths| ensures rows[i] == LeafRows(paths, keyWidth, sections, 0)[i] {
      LeafRowsAt(paths, keyWidth, sections, 0, i);
      CompleteRow(paths[i], keyWidth, sections, |paths|, i);
    }
  }

  lemma ColumnsDone(h: Hash, codec: Codec, file0: Bytes, file: Bytes, c: Corpus, paths: seq<Bytes>, keyWidth: nat,
          sections: seq<seq<Locator>>, rows: seq<Bytes>, descriptors: seq<Locator>)
    requires Within(paths, keyWidth) && ColumnsWritten(h, codec, file0, file, c, paths, keyWidth, 4, sections, rows,
      descriptors)
    ensures WriteSections(h, codec, file0, c, paths, 0) == Ok((file, sections))
    ensures Sections(sections, |paths|) && rows == LeafRows(paths, keyWidth, sections, 0)
    ensures descriptors == [sections[0][0], sections[1][0], sections[2][0], sections[3][0]]
  {
    hide LeafRows, PutAll, SectionPayloads;
    assert |rows| == |paths| && Sections(sections, |paths|);
    hide RowsSoFar;
    assert sections + [] == sections;
    assert WriteSections(h, codec, file, c, paths, 4) == Ok((file, []));
    hide WriteSections;
    CompleteRows(paths, keyWidth, sections, rows);
  }

  /** Every section in turn, each adding a locator column to the rows. */
  method WriteColumns(w: V2Writer, h: Hash, codec: Codec, c: Corpus, paths: seq<Bytes>, keyWidth: nat)
    returns (r: Result<(seq<Bytes>, seq<Locator>)>)
    requires w.Valid() && Within(paths, keyWidth)
    modifies w
    ensures w.Valid() && old(w.file) <= w.file
    ensures match WriteSections(h, codec, old(w.file), c, paths, 0) {
      case Ok((data, sections)) =>
        && Sections(sections, |paths|)
        && r == Ok((LeafRows(paths, keyWidth, sections, 0),
          [sections[0][0], sections[1][0], sections[2][0], sections[3][0]]))
        && w.file == data
      case Err(e) => r == Err(e) }
  {
    var rows := KeyColumn(paths, keyWidth);
    var descriptors: seq<Locator> := [];
    ghost var sections: seq<seq<Locator>> := [];
    var k := 0;
    PrependNone(WriteSections(h, codec, w.file, c, paths, 0));
    while k < 4
      invariant 0 <= k <= 4 && w.Valid() && old(w.file) <= w.file
      invariant |rows| == |paths| && ColumnsWritten(h, codec, old(w.file), w.file, c, paths, keyWidth, k, sections,
        rows, descriptors)
    {
      hide PutAll, SectionPayloads, PutLocator, ColumnsWritten, WriteSections, LeafRows;
      ghost var file := w.file;
      var locs := WriteSection(w, h, codec, c, paths, k);
      if locs.Err? {
        ColumnFails(h, codec, old(w.file), file, c, paths, keyWidth, k, sections, rows, descriptors);
        return Err(locs.error);
      }
      var extended := AppendColumn(rows, locs.value);
      ColumnStep(h, codec, old(w.file), file, w.file, c, paths, keyWidth, k, sections, rows, extended, descriptors,
        locs.value);
      rows, descriptors, sections, k := extended, descriptors + [locs.value[0]], sections + [locs.value], k + 1;
    }
    hide RowsSoFar;
    ColumnsDone(h, codec, old(w.file), w.file, c, paths, keyWidth, sections, rows, descriptors);
    r := Ok((rows, descriptors));
  }

  /** BuildPackV2 up to the manifest: the data file and manifest it arrives at are
      those of Build, and so is any refusal. */
  method BuildPackV2(w: V2Writer, h: Hash, codec: Codec, name: Bytes, c: Corpus) returns (r: Result<Manifest>)
    requires w.Valid() && w.file == []
    modifies w
    ensures w.Valid()
    ensures match Build(h, codec, name, c) {
      case Ok((m, data)) => r == Ok(m) && w.file == data
      case Err(e) => r == Err(e) }
  {
    var keys := SortedKeys(c);
    if keys.Err? { return Err(keys.error); }
    var (paths, keyWidth) := keys.value;
    hide WriteSections, LeafRows, PackV2Writer.WriteTree, EncodeAlone;
    var columns := WriteColumns(w, h, codec, c, paths, keyWidth);
    if columns.Err? { return Err(columns.error); }
    var (rows, descriptors) := columns.value;
    var vocabulary := w.Write(h, EncodeAlone(codec, Texts(c.vocabulary)));
    if vocabulary.Err? { return Err(vocabulary.error); }
    var tree := w.WriteTree(h, rows, keyWidth);
    if tree.Err? { return Err(tree.error); }
    r := Ok(Manifest(name, keyWidth, tree.value.1, tree.value.0, vocabulary.value, descriptors));
  }

  // ---------- Counting reads ----------

  /** CountingReaderAt over the data file: the running total of bytes returned,
      and (for the claims below) the number of calls. */
  class CountingReaderAt {
    const data: Bytes
    var bytes: nat
    ghost var calls: nat

    constructor (data: Bytes)
      ensures this.data == data && bytes == 0 && calls == 0
    {
      this.data, bytes, calls := data, 0, 0;
    }

    method ReadAt(offset: nat, length: nat) returns (buf: Bytes)
      modifies this
      ensures |buf| == Available(data, offset, length)
      ensures |buf| > 0 ==> buf == data[offset..offset + |buf|]
      ensures bytes == old(bytes) + |buf| && calls == old(calls) + 1
    {
      var n := Available(data, offset, length);
      buf := if n == 0 then [] else data[offset..offset + n];
      bytes := bytes + n;
      calls := calls + 1;
    }
  }

  /** floorRow with its bisection loop. */
  method FindFloorRow(page: Bytes, rowWidth: nat, key: Bytes) returns (i: int)
    requires rowWidth > 0 && |key| <= rowWidth
    ensures i == FloorRow(page, rowWidth, key)
  {
    var lo, hi := 0, RowCount(page, rowWidth);
    while lo < hi
      invariant 0 <= lo <= hi <= RowCount(page, rowWidth)
      invariant Search(page, rowWidth, key, 0, RowCount(page, rowWidth)) == Search(page, rowWidth, key, lo, hi)
      decreases hi - lo
    {
      var mid := (lo + hi) / 2;
      if LexLe(PageRow(page, rowWidth, mid)[..|key|], key) { lo := mid + 1; } else { hi := mid; }
    }
    i := lo - 1;
  }

  /** The most bytes `levels` interior pages and one leaf page can hold. */
  function PageBytes(keyWidth: nat, levels: nat): nat {
    levels * (FANOUT * InteriorWidth(keyWidth)) + LEAF_ROWS * LeafWidth(keyWidth)
  }

  lemma OneMorePage(keyWidth: nat, levels: nat)
    requires levels > 0
    ensures PageBytes(keyWidth, levels) == FANOUT * InteriorWidth(keyWidth) + PageBytes(keyWidth, levels - 1)
  {
    var page := FANOUT * InteriorWidth(keyWidth);
    assert levels * page == page + (levels - 1) * page;
  }

  function BlockBytes(b: Blocks): nat {
    b.meta.length + b.symbols.length + b.imports.length + b.markers.length
  }

  /** PackV2Reader over a counting reader. */
  class PackV2File {
    const manifest: Manifest
    const descriptors: seq<Bytes>
    const ra: CountingReaderAt

    constructor (manifest: Manifest, descriptors: seq<Bytes>, ra: CountingReaderAt)
      ensures this.manifest == manifest && this.descriptors == descriptors && this.ra == ra
    {
      this.manifest, this.descriptors, this.ra := manifest, descriptors, ra;
    }

    function View(): Reader { Reader(manifest, descriptors, ra.data) }

    method ReadVerified(h: Hash, loc: Locator, maxLen: nat) returns (r: Result<Bytes>)
      modifies ra
      ensures r == PackV2Reader.ReadVerified(h, ra.data, loc, maxLen)
      ensures ra.bytes <= old(ra.bytes) + (if loc.length <= maxLen then loc.length else 0)
      ensures r.Ok? ==> ra.bytes == old(ra.bytes) + loc.length
      ensures ra.calls <= old(ra.calls) + 1
    {
      if loc.length > maxLen { return Err(Malformed); }
      var buf := ra.ReadAt(loc.offset, loc.length);
      if |buf| < loc.length { return Err(ShortRead); }
      if h(buf) != loc.sha { return Err(ChecksumMismatch); }
      r := Ok(buf);
    }

    method ReadPage(h: Hash, loc: Locator, rowWidth: nat, maxRows: nat) returns (r: Result<Bytes>)
      requires rowWidth > 0
      modifies ra
      ensures r == PackV2Reader.ReadPage(h, ra.data, loc, rowWidth, maxRows)
      ensures ra.bytes <= old(ra.bytes) + maxRows * rowWidth
      ensures ra.calls <= old(ra.calls) + 1
    {
      var page := ReadVerified(h, loc, rowWidth * maxRows);
      assert rowWidth * maxRows == maxRows * rowWidth;
      if page.Err? { return page; }
      if |page.value| == 0 { return Err(Malformed); }
      if |page.value| % rowWidth != 0 { return Err(Malformed); }
      r := page;
    }

    /** lookup: at most one page per level. */
    method Lookup(h: Hash, target: Bytes) returns (r: Result<Option<Bytes>>)
      requires manifest.height >= 1
      modifies ra
      ensures r == PackV2Reader.Lookup(h, ra.data, manifest, target)
      ensures ra.bytes <= old(ra.bytes) + PageBytes(manifest.keyWidth, manifest.height - 1)
      ensures ra.calls <= old(ra.calls) + manifest.height
    {
      var kw := manifest.keyWidth;
      if |target| > kw { return Ok(None); }
      if !NulFree(target) { return Ok(None); }
      var key := Pad(target, kw);
      var loc, level := manifest.root, manifest.height;
      while level > 1
        invariant 1 <= level <= manifest.height
        invariant PackV2Reader.Lookup(h, ra.data, manifest, target) == Descend(h, ra.data, kw, loc, level, key)
        invariant ra.bytes + PageBytes(kw, level - 1) <= old(ra.bytes) + PageBytes(kw, manifest.height - 1)
        invariant ra.calls + level <= old(ra.calls) + manifest.height
      {
        hide PackV2Reader.ReadPage, PackV2Reader.Lookup, RowCount, PageRow, PageBytes;
        OneMorePage(kw, level - 1);
        var page := ReadPage(h, loc, InteriorWidth(kw), FANOUT);
        if page.Err? { return Err(page.error); }
        var i := FindFloorRow(page.value, InteriorWidth(kw), key);
        if i < 0 { return Ok(None); }
        loc, level := GetLocator(PageRow(page.value, InteriorWidth(kw), i)[kw..]), level - 1;
      }
      var page := ReadPage(h, loc, LeafWidth(kw), LEAF_ROWS);
      if page.Err? { return Err(page.error); }
      var i := FindFloorRow(page.value, LeafWidth(kw), key);
      if i < 0 { return Ok(None); }
      var row := PageRow(page.value, LeafWidth(kw), i);
      r := Ok(if row[..kw] == key then Some(row) else None);
    }

    method ReadSection(h: Hash, codec: Codec, k: nat, loc: Locator) returns (v: Result<Value>)
      requires Opened(View()) && k < SECTION_COUNT
      modifies ra
      ensures v == PackV2Reader.ReadSection(h, codec, View(), k, loc)
      ensures ra.bytes <= old(ra.bytes) + loc.length && ra.calls <= old(ra.calls) + 1
    {
      var block := ReadVerified(h, loc, MAX_BLOCK_BYTES);
      if block.Err? { return Err(block.error); }
      match DecodeBlock(codec, KINDS[k], descriptors[k], block.value) {
        case None => v := Err(DecodeFailed);
        case Some(x) => v := if KindOf(x) == KINDS[k] then Ok(x) else Err(DecodeFailed);
      }
    }

    method ReadRecord(h: Hash, codec: Codec, path: Bytes, b: Blocks) returns (r: Result<Record>)
      requires Opened(View())
      modifies ra
      ensures r == PackV2Reader.ReadRecord(h, codec, View(), path, b)
      ensures ra.bytes <= old(ra.bytes) + BlockBytes(b) && ra.calls <= old(ra.calls) + 4
    {
      hide PackV2Reader.ReadSection;
      var meta := ReadSection(h, codec, 0, b.meta);
      if meta.Err? { return Err(meta.error); }
      var symbols := ReadSection(h, codec, 1, b.symbols);
      if symbols.Err? { return Err(symbols.error); }
      var imports := ReadSection(h, codec, 2, b.imports);
      if imports.Err? { return Err(imports.error); }
      var markers := ReadSection(h, codec, 3, b.markers);
      if markers.Err? { return Err(markers.error); }
      r := Ok(Record(path, meta.value.text, symbols.value.symbols, imports.value.texts, markers.value.markers));
    }

    /** A one-path read after open: at most `height` page reads and four block
        reads, and at most (height-1)*64*(k+44) + 32*(k+176) bytes of pages plus
        the four blocks its row names, whatever the data file holds. */
    method ReadOnePath(h: Hash, codec: Codec, target: Bytes) returns (r: Result<Record>)
      requires Opened(View())
      modifies ra
      ensures r == PackV2Reader.ReadOnePath(h, codec, View(), target)
      ensures ra.calls <= old(ra.calls) + manifest.height + 4
      ensures var k := manifest.keyWidth; var row := PackV2Reader.Lookup(h, ra.data, manifest, target);
        ra.bytes <= old(ra.bytes) + (manifest.height - 1) * (64 * (k + 44)) + 32 * (k + 176)
          + (if row.Ok? && row.value.Some? then BlockBytes(BlocksIn(row.value.value, k)) else 0)
    {
      var row := Lookup(h, target);
      hide PackV2Reader.Lookup, PackV2Reader.ReadRecord, BlocksIn;
      if row.Err? { return Err(row.error); }
      match row.value {
        case None => r := Err(PathNotFound);
        case Some(b) => r := ReadRecord(h, codec, target, BlocksIn(b, manifest.keyWidth));
      }
    }
  }
}
