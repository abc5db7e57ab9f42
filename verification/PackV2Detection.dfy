/** What a read of a possibly altered file has checked once it answers: every byte
    it rests on. So a whole read answers exactly over the unaltered file, and a
    one-path read never over an altered block of its path. */
module PackV2Detection {
  import opened ByteStrings
  import opened Sorting
  import opened Gob
  import opened Corpora
  import opened PackTypes
  import opened PackV2Manifest
  import opened PackV2Writer
  import opened PackV2Tree
  import opened PackV2Reader
  import opened PackV2Search
  import opened PackV2Integrity
  import opened PackV2Exact
  import opened PackV2Acceptance

  // ---------- One range ----------

  /** A range that verifies is the one that was written. */
  lemma VerifiedSame(h: Hash, honest: Bytes, data: Bytes, loc: Locator, p: Bytes, maxLen: nat)
    requires Holds(h, honest, loc, p) && NoForgedRange(h, honest, data) && ReadVerified(h, data, loc, maxLen).Ok?
    ensures ReadVerified(h, data, loc, maxLen) == Ok(p) && SameIn(honest, data, loc)
    ensures p != [] ==> Holds(h, data, loc, p)
  {
    if p != [] { RangeSame(h, honest, data, loc); }
  }

  lemma PageSame(h: Hash, honest: Bytes, data: Bytes, loc: Locator, p: Bytes, rowWidth: nat, maxRows: nat)
    requires rowWidth > 0 && Holds(h, honest, loc, p) && NoForgedRange(h, honest, data)
    requires ReadPage(h, data, loc, rowWidth, maxRows).Ok?
    ensures ReadPage(h, data, loc, rowWidth, maxRows) == Ok(p) && Holds(h, data, loc, p)
  {
    VerifiedSame(h, honest, data, loc, p, rowWidth * maxRows);
    hide ReadVerified, Holds, NoForgedRange, SameIn;
  }

  // ---------- The tree ----------

  /** What a node's page shows of its children, however the file was read. */
  ghost predicate ShowsChildren(page: Bytes, children: seq<Tree>, locs: seq<Locator>, keyWidth: nat) {
    && |locs| == |children| == RowCount(page, InteriorWidth(keyWidth))
    && forall i :: 0 <= i < |children| ==>
      GetLocator(PageRow(page, InteriorWidth(keyWidth), i)[keyWidth..]) == locs[i]
  }

  lemma ParentRowShows(h: Hash, data: Bytes, row: Bytes, loc: Locator, t: Tree, level: nat, keyWidth: nat)
    requires Stored(h, data, loc, t, level, keyWidth) && Fits(loc) && row == ParentRow(t, loc, keyWidth)
    ensures |row| == InteriorWidth(keyWidth) && GetLocator(row[keyWidth..]) == loc
  {
    StoredRows(h, data, loc, t, level, keyWidth);
    hide Stored, FirstKey, Fits;
    assert row[keyWidth..] == PutLocator(loc);
    LocatorAlone(loc);
  }

  lemma NodeShows(h: Hash, data: Bytes, loc: Locator, t: Tree, level: nat, keyWidth: nat)
    requires Stored(h, data, loc, t, level, keyWidth) && t.Node?
    ensures ShowsChildren(Join(ParentRows(t.children, t.locs, keyWidth)), t.children, t.locs, keyWidth)
  {
    var rows := ParentRows(t.children, t.locs, keyWidth);
    hide ParentRows, ParentRow, Join, PutLocator, GetLocator, PageRow, RowCount, Holds, LeafWidth;
    forall i | 0 <= i < |rows|
      ensures |rows[i]| == InteriorWidth(keyWidth) && GetLocator(rows[i][keyWidth..]) == t.locs[i]
    {
      ParentRowShows(h, data, rows[i], t.locs[i], t.children[i], level - 1, keyWidth);
    }
    PageOfRows(h, data, loc, rows, InteriorWidth(keyWidth), FANOUT);
    hide Stored;
  }

  /** A walk over altered bytes that ends well has found the honest tree. */
  lemma {:induction false} WalkStored<A>(h: Hash, honest: Bytes, data: Bytes, keyWidth: nat, loc: Locator, t: Tree,
          level: nat, visit: Visit<A>, acc: A)
    requires level >= 1 && Stored(h, honest, loc, t, level, keyWidth) && NoForgedRange(h, honest, data)
    requires Walk(h, data, keyWidth, loc, level, visit, acc).Ok?
    ensures Stored(h, data, loc, t, level, keyWidth)
    decreases level, 0, 0
  {
    hide ReadPage, NoForgedRange, Holds, Join, ParentRows, WalkLeaf, WalkChildren, AllWidth;
    match t
    case Leaf(rows) => PageSame(h, honest, data, loc, Join(rows), LeafWidth(keyWidth), LEAF_ROWS);
    case Node(children, locs) =>
      var page := Join(ParentRows(children, locs, keyWidth));
      PageSame(h, honest, data, loc, page, InteriorWidth(keyWidth), FANOUT);
      NodeShows(h, honest, loc, t, level, keyWidth);
      hide ShowsChildren;
      ChildrenStored(h, honest, data, keyWidth, page, children, locs, level - 1, 0, visit, acc);
  }

  lemma {:induction false} ChildrenStored<A>(h: Hash, honest: Bytes, data: Bytes, keyWidth: nat, page: Bytes,
          children: seq<Tree>, locs: seq<Locator>, level: nat, i: nat, visit: Visit<A>, acc: A)
    requires level >= 1 && ShowsChildren(page, children, locs, keyWidth) && i <= |children|
    requires forall j :: 0 <= j < |children| ==> Stored(h, honest, locs[j], children[j], level, keyWidth)
    requires NoForgedRange(h, honest, data) && WalkChildren(h, data, keyWidth, page, level, i, visit, acc).Ok?
    ensures forall j :: i <= j < |children| ==> Stored(h, data, locs[j], children[j], level, keyWidth)
    decreases level, 1, |children| - i
  {
    hide NoForgedRange, Stored, Walk, GetLocator, PageRow, RowCount;
    if i < |children| {
      WalkStored(h, honest, data, keyWidth, locs[i], children[i], level, visit, acc);
      ChildrenStored(h, honest, data, keyWidth, page, children, locs, level, i + 1, visit,
        Walk(h, data, keyWidth, locs[i], level, visit, acc).value);
    }
  }

  lemma HeldSame(h: Hash, honest: Bytes, data: Bytes, loc: Locator, p: Bytes, x: nat)
    requires Holds(h, honest, loc, p) && Holds(h, data, loc, p) && InRange(x, loc)
    ensures SameAt(honest, data, x)
  {
    assert data[x] == data[loc.offset..loc.offset + |p|][x - loc.offset];
    assert honest[x] == honest[loc.offset..loc.offset + |p|][x - loc.offset];
  }

  /** A tree stored in both files is the same bytes in both. */
  lemma {:induction false} TreeSame(h: Hash, honest: Bytes, data: Bytes, loc: Locator, t: Tree, level: nat,
          keyWidth: nat, x: nat)
    requires Stored(h, honest, loc, t, level, keyWidth) && Stored(h, data, loc, t, level, keyWidth)
    requires InTree(x, loc, t)
    ensures SameAt(honest, data, x)
    decreases level
  {
    hide Holds, Join, ParentRows, AllWidth, InRange, SameAt;
    if InRange(x, loc) {
      var p := match t case Leaf(rows) => Join(rows)
        case Node(children, locs) => Join(ParentRows(children, locs, keyWidth));
      HeldSame(h, honest, data, loc, p, x);
    } else {
      var i :| 0 <= i < |t.children| && InTree(x, t.locs[i], t.children[i]);
      TreeSame(h, honest, data, t.locs[i], t.children[i], level - 1, keyWidth, x);
    }
  }

  // ---------- The blocks ----------

  /** The four blocks of a record that was read are as they were. */
  lemma RecordSame(h: Hash, codec: Codec, honest: Bytes, r: Reader, path: Bytes, b: Blocks, ps: seq<Bytes>)
    requires Opened(r) && NoForgedRange(h, honest, r.data) && ReadRecord(h, codec, r, path, b).Ok? && |ps| == 4
    requires Holds(h, honest, b.meta, ps[0]) && Holds(h, honest, b.symbols, ps[1])
      && Holds(h, honest, b.imports, ps[2]) && Holds(h, honest, b.markers, ps[3])
    ensures SameIn(honest, r.data, b.meta) && SameIn(honest, r.data, b.symbols)
      && SameIn(honest, r.data, b.imports) && SameIn(honest, r.data, b.markers)
  {
    assert ReadVerified(h, r.data, b.meta, MAX_BLOCK_BYTES).Ok?
      && ReadVerified(h, r.data, b.symbols, MAX_BLOCK_BYTES).Ok?
      && ReadVerified(h, r.data, b.imports, MAX_BLOCK_BYTES).Ok?
      && ReadVerified(h, r.data, b.markers, MAX_BLOCK_BYTES).Ok?;
    hide ReadRecord, ReadVerified, Holds, SameIn, NoForgedRange;
    VerifiedSame(h, honest, r.data, b.meta, ps[0], MAX_BLOCK_BYTES);
    VerifiedSame(h, honest, r.data, b.symbols, ps[1], MAX_BLOCK_BYTES);
    VerifiedSame(h, honest, r.data, b.imports, ps[2], MAX_BLOCK_BYTES);
    VerifiedSame(h, honest, r.data, b.markers, ps[3], MAX_BLOCK_BYTES);
  }

  /** Each row a fold got past was visited without an error. */
  lemma {:induction false} RowVisited<A>(keyWidth: nat, rows: seq<Bytes>, visit: Visit<A>, acc: A, i: nat)
    returns (at: A)
    requires AllWidth(rows, LeafWidth(keyWidth)) && i < |rows| && FoldRows(keyWidth, rows, visit, acc).Ok?
    ensures VisitRow(keyWidth, rows[i], visit, at).Ok?
    decreases i
  {
    hide VisitRow;
    if i == 0 {
      at := acc;
    } else {
      at := RowVisited(keyWidth, rows[1..], visit, VisitRow(keyWidth, rows[0], visit, acc).value, i - 1);
    }
  }

  /** The four blocks of path i are as they were. */
  ghost predicate BlocksSame(honest: Bytes, data: Bytes, sections: seq<seq<Locator>>, i: nat) {
    forall k :: 0 <= k < |sections| && i + 1 < |sections[k]| ==> SameIn(honest, data, sections[k][1 + i])
  }

  lemma BlockHeld(h: Hash, codec: Codec, honest: Bytes, c: Corpus, paths: seq<Bytes>, sections: seq<seq<Locator>>,
          k: nat, i: nat) returns (p: Bytes)
    requires SectionsHold(h, codec, honest, c, paths, sections, 0) && k < 4 && i < |paths|
    ensures |sections| == 4 && |sections[k]| == |paths| + 1 && Holds(h, honest, sections[k][1 + i], p)
  {
    SectionAt(h, codec, honest, c, paths, sections, k, 1 + i);
    hide Holds, SectionPayloads;
    p := SectionPayloads(codec, c, paths, k)[1 + i];
  }

  lemma PathBlocksSame(h: Hash, codec: Codec, c: Corpus, honest: Bytes, r: Reader, paths: seq<Bytes>,
          sections: seq<seq<Locator>>, i: nat, path: Bytes)
    requires SectionsHold(h, codec, honest, c, paths, sections, 0) && Sections(sections, |paths|) && i < |paths|
    requires Opened(r) && NoForgedRange(h, honest, r.data)
    requires ReadRecord(h, codec, r, path,
      Blocks(sections[0][1 + i], sections[1][1 + i], sections[2][1 + i], sections[3][1 + i])).Ok?
    ensures BlocksSame(honest, r.data, sections, i)
  {
    hide SectionPayloads, ReadRecord, NoForgedRange, Holds, SectionsHold, SameIn;
    var p0 := BlockHeld(h, codec, honest, c, paths, sections, 0, i);
    var p1 := BlockHeld(h, codec, honest, c, paths, sections, 1, i);
    var p2 := BlockHeld(h, codec, honest, c, paths, sections, 2, i);
    var p3 := BlockHeld(h, codec, honest, c, paths, sections, 3, i);
    RecordSame(h, codec, honest, r, path,
      Blocks(sections[0][1 + i], sections[1][1 + i], sections[2][1 + i], sections[3][1 + i]), [p0, p1, p2, p3]);
  }

  lemma {:induction false} DescriptorsSame(h: Hash, honest: Bytes, data: Bytes, locs: seq<Locator>, ps: seq<Bytes>,
          k: nat)
    requires |locs| == |ps| && forall i :: 0 <= i < |ps| ==> Holds(h, honest, locs[i], ps[i])
    requires NoForgedRange(h, honest, data) && ReadDescriptors(h, data, locs).Ok? && k < |locs|
    ensures SameIn(honest, data, locs[k])
    decreases k
  {
    hide Holds, NoForgedRange, ReadVerified, SameIn;
    if k == 0 {
      VerifiedSame(h, honest, data, locs[0], ps[0], MAX_BLOCK_BYTES);
    } else {
      DescriptorsSame(h, honest, data, locs[1..], ps[1..], k - 1);
    }
  }

  /** The section descriptors of a pack that was opened are as they were. */
  lemma OpenedSame(h: Hash, codec: Codec, c: Corpus, m: Manifest, honest: Bytes, data: Bytes, paths: seq<Bytes>,
          sections: seq<seq<Locator>>, t: Tree, k: nat)
    requires Pack(h, codec, c, m, honest, paths, sections, t) && k < 4
    requires NoForgedRange(h, honest, data) && OpenData(h, m, Some(data)).Ok?
    ensures |sections[k]| > 0 && SameIn(honest, data, sections[k][0])
  {
    hide SectionPayloads, SectionsHold, Stored, Rows, LeafRows, EncodeAlone, SortPaths, Holds, ReadDescriptors,
      NoForgedRange, SameIn;
    SectionAt(h, codec, honest, c, paths, sections, 0, 0);
    SectionAt(h, codec, honest, c, paths, sections, 1, 0);
    SectionAt(h, codec, honest, c, paths, sections, 2, 0);
    SectionAt(h, codec, honest, c, paths, sections, 3, 0);
    DescriptorsSame(h, honest, data, m.descriptors, HonestReader(codec, c, m, honest, paths).descriptors, k);
  }

  // ---------- A whole read ----------

  lemma VisitRead(h: Hash, codec: Codec, r: Reader, keyWidth: nat, row: Bytes, acc: (map<Bytes, Record>, seq<Bytes>))
    requires Opened(r) && |row| == LeafWidth(keyWidth) && VisitRow(keyWidth, row, VisitWhole(h, codec, r), acc).Ok?
    ensures ReadRecord(h, codec, r, TrimNul(row[..keyWidth]), BlocksIn(row, keyWidth)).Ok?
  {
    hide ReadRecord, BlocksIn, TrimNul;
  }

  /** A whole read that answers has found the tree, and every path's blocks, as they
      were. */
  lemma WalkedSame(h: Hash, codec: Codec, c: Corpus, m: Manifest, honest: Bytes, r: Reader, paths: seq<Bytes>,
          sections: seq<seq<Locator>>, t: Tree)
    requires Pack(h, codec, c, m, honest, paths, sections, t)
    requires Opened(r) && NoForgedRange(h, honest, r.data)
    requires Walk(h, r.data, m.keyWidth, m.root, m.height, VisitWhole(h, codec, r), (map[], [])).Ok?
    ensures Stored(h, r.data, m.root, t, m.height, m.keyWidth)
    ensures forall i :: 0 <= i < |paths| ==> BlocksSame(honest, r.data, sections, i)
  {
    hide SectionsHold, LeafRows, EncodeAlone, SortPaths, Holds, Stored, Rows, Walk, VisitWhole, FoldRows, BlocksIn,
      TrimNul, Pad, NoForgedRange, ReadRecord, BlocksSame;
    WalkStored(h, honest, r.data, m.keyWidth, m.root, t, m.height, VisitWhole(h, codec, r), (map[], []));
    WalkFolds(h, r.data, m.keyWidth, m.root, t, m.height, VisitWhole(h, codec, r), (map[], []));
    forall i | 0 <= i < |paths| ensures BlocksSame(honest, r.data, sections, i) {
      TableRow(h, codec, c, m, honest, paths, sections, t, i);
      var at := RowVisited(m.keyWidth, Rows(t), VisitWhole(h, codec, r), (map[], []), i);
      VisitRead(h, codec, r, m.keyWidth, Rows(t)[i], at);
      PathBlocksSame(h, codec, c, honest, r, paths, sections, i, TrimNul(Rows(t)[i][..m.keyWidth]));
    }
  }

  lemma VocabularySame(h: Hash, codec: Codec, honest: Bytes, r: Reader, p: Bytes)
    requires Holds(h, honest, r.manifest.vocabulary, p) && NoForgedRange(h, honest, r.data)
    requires ReadVocabulary(h, codec, r).Ok?
    ensures SameIn(honest, r.data, r.manifest.vocabulary)
  {
    VerifiedSame(h, honest, r.data, r.manifest.vocabulary, p, MAX_BLOCK_BYTES);
  }

  /** Byte x of a covered file, once all its parts are known to be as they were. */
  lemma PartsSame(h: Hash, m: Manifest, honest: Bytes, data: Bytes, sections: seq<seq<Locator>>, t: Tree, count: nat,
          x: nat)
    requires FileCovered(m, honest, sections, t) && x < |honest| && Sections(sections, count)
    requires forall k :: 0 <= k < 4 ==> SameIn(honest, data, sections[k][0])
    requires forall i :: 0 <= i < count ==> BlocksSame(honest, data, sections, i)
    requires SameIn(honest, data, m.vocabulary)
    requires Stored(h, honest, m.root, t, m.height, m.keyWidth) && Stored(h, data, m.root, t, m.height, m.keyWidth)
    ensures SameAt(honest, data, x)
  {
    hide Stored, InTree, InRange, SameAt;
    if InTree(x, m.root, t) {
      TreeSame(h, honest, data, m.root, t, m.height, m.keyWidth, x);
    } else if !InRange(x, m.vocabulary) {
      var k :| 0 <= k < |sections| && InSome(x, sections[k]);
      var i :| 0 <= i < |sections[k]| && InRange(x, sections[k][i]);
      if i > 0 {
        assert BlocksSame(honest, data, sections, i - 1);
        assert sections[k][1 + (i - 1)] == sections[k][i];
      }
    }
  }

  lemma WholeSame(h: Hash, codec: Codec, c: Corpus, m: Manifest, honest: Bytes, data: Bytes, paths: seq<Bytes>,
          sections: seq<seq<Locator>>, t: Tree, x: nat)
    requires Pack(h, codec, c, m, honest, paths, sections, t) && FileCovered(m, honest, sections, t)
    requires NoForgedRange(h, honest, data) && WholeFrom(h, codec, m, data).Ok? && x < |honest|
    ensures SameAt(honest, data, x)
  {
    hide SectionsHold, LeafRows, EncodeAlone, SortPaths, Holds, Stored, Rows, Walk, VisitWhole, NoForgedRange,
      ReadDescriptors, ReadVocabulary, BlocksSame, SameIn, SameAt, FileCovered;
    var r := OpenData(h, m, Some(data)).value;
    WalkedSame(h, codec, c, m, honest, r, paths, sections, t);
    VocabularySame(h, codec, honest, r, EncodeAlone(codec, Texts(c.vocabulary)));
    forall k | 0 <= k < 4 ensures SameIn(honest, data, sections[k][0]) {
      OpenedSame(h, codec, c, m, honest, data, paths, sections, t, k);
    }
    PartsSame(h, m, honest, data, sections, t, |paths|, x);
  }

  /** A whole read under a finished build's manifest answers, and then with what was
      stored, exactly if the file begins with every byte that was written. Any byte
      altered is a checksum mismatch, and a file cut shorter that or a short read. */
  lemma WholeReadsExactly(h: Hash, codec: Codec, name: Bytes, c: Corpus, data: Bytes)
    requires Lawful(codec) && Build(h, codec, name, c).Ok?
    requires NoForgedRange(h, Build(h, codec, name, c).value.1, data)
    ensures var (m, honest) := Build(h, codec, name, c).value;
      && m.height >= 1
      && var r := WholeFrom(h, codec, m, data);
      && (honest <= data ==> r == Ok(StoredCorpus(c)))
      && (!(honest <= data) ==> r == Err(ChecksumMismatch) || (|data| < |honest| && r == Err(ShortRead)))
  {
    var paths, sections, t := BuildStores(h, codec, name, c);
    ReadsAreExactOrRefused(h, codec, name, c, data, []);
    hide Lawful, Build, Pack, FileCovered, NoForgedRange, WholeFrom, PathFrom, TableFrom, StoredCorpus, StoredImports,
      SameAt;
    var (m, honest) := Build(h, codec, name, c).value;
    assert m.height >= 1;
    if WholeFrom(h, codec, m, data).Ok? {
      forall x | 0 <= x < |honest| ensures SameAt(honest, data, x) {
        WholeSame(h, codec, c, m, honest, data, paths, sections, t, x);
      }
      AllSame(honest, data);
    }
  }

  // ---------- A one-path read ----------

  /** Over the honest file a descent for a stored path ends at one of its rows. */
  lemma RowFound(h: Hash, codec: Codec, c: Corpus, m: Manifest, honest: Bytes, paths: seq<Bytes>,
          sections: seq<seq<Locator>>, t: Tree, target: Bytes) returns (i: nat)
    requires Pack(h, codec, c, m, honest, paths, sections, t) && target in paths
    ensures |target| <= m.keyWidth && NulFree(target)
    ensures i < |paths| && paths[i] == target && |Rows(t)| == |paths| && |Rows(t)[i]| == LeafWidth(m.keyWidth)
    ensures Descend(h, honest, m.keyWidth, m.root, m.height, Pad(target, m.keyWidth)) == Ok(Some(Rows(t)[i]))
  {
    hide SectionsHold, LeafRows, EncodeAlone, SortPaths, Holds, Stored, Rows, Descend, KeysAscend, Pad, HasKey;
    var k :| 0 <= k < |paths| && paths[k] == target;
    TableAscends(h, codec, c, m, honest, paths, sections, t);
    DescentAnswers(h, honest, m.keyWidth, m.root, t, m.height, Pad(target, m.keyWidth));
    TableHasKey(h, codec, c, m, honest, paths, sections, t, target);
    var row := Descend(h, honest, m.keyWidth, m.root, m.height, Pad(target, m.keyWidth)).value.value;
    i := RowWithKey(h, codec, c, m, honest, paths, sections, t, target, row);
    TableRow(h, codec, c, m, honest, paths, sections, t, i);
  }

  /** A one-path read that answers has descended to that row and read its blocks. */
  lemma PathRead(h: Hash, codec: Codec, m: Manifest, honest: Bytes, data: Bytes, target: Bytes, row: Bytes)
    requires |m.descriptors| == SECTION_COUNT && m.height >= 1 && NoForgedRange(h, honest, data)
    requires |target| <= m.keyWidth && NulFree(target) && |row| == LeafWidth(m.keyWidth)
    requires Descend(h, honest, m.keyWidth, m.root, m.height, Pad(target, m.keyWidth)) == Ok(Some(row))
    requires PathFrom(h, codec, m, data, target).Ok?
    ensures OpenData(h, m, Some(data)).Ok?
    ensures ReadRecord(h, codec, OpenData(h, m, Some(data)).value, target, BlocksIn(row, m.keyWidth)).Ok?
  {
    DescendFaithful(h, honest, data, m.keyWidth, m.root, m.height, Pad(target, m.keyWidth));
    hide Descend, ReadRecord, BlocksIn, ReadDescriptors, NoForgedRange, Pad;
  }

  /** Where a finished pack holds the four blocks of a path's row. */
  ghost predicate BlockPlaces(h: Hash, codec: Codec, c: Corpus, honest: Bytes, target: Bytes, places: seq<Locator>) {
    |places| == 4 && forall k :: 0 <= k < 4 ==> Placed(h, honest, places[k], BlockOf(codec, c, k, target))
  }

  ghost predicate AllSameIn(honest: Bytes, data: Bytes, places: seq<Locator>) {
    forall k :: 0 <= k < |places| ==> SameIn(honest, data, places[k])
  }

  lemma RowPlaces(h: Hash, codec: Codec, c: Corpus, m: Manifest, honest: Bytes, paths: seq<Bytes>,
          sections: seq<seq<Locator>>, t: Tree, i: nat)
    requires Pack(h, codec, c, m, honest, paths, sections, t) && i < |paths|
    ensures BlockPlaces(h, codec, c, honest, paths[i],
      [sections[0][1 + i], sections[1][1 + i], sections[2][1 + i], sections[3][1 + i]])
  {
    hide LeafRows, EncodeAlone, SortPaths, Stored, Rows, Placed, BlockOf, SectionPayloads, SectionsHold;
    var places := [sections[0][1 + i], sections[1][1 + i], sections[2][1 + i], sections[3][1 + i]];
    forall k | 0 <= k < 4 ensures Placed(h, honest, places[k], BlockOf(codec, c, k, paths[i])) {
      SectionAt(h, codec, honest, c, paths, sections, k, 1 + i);
      PayloadsAre(codec, c, paths, k);
    }
  }

  lemma PathSame(h: Hash, codec: Codec, c: Corpus, m: Manifest, honest: Bytes, data: Bytes, paths: seq<Bytes>,
          sections: seq<seq<Locator>>, t: Tree, i: nat)
    requires Pack(h, codec, c, m, honest, paths, sections, t) && NoForgedRange(h, honest, data) && i < |paths|
    requires |paths[i]| <= m.keyWidth && NulFree(paths[i])
    requires |Rows(t)| == |paths| && |Rows(t)[i]| == LeafWidth(m.keyWidth)
    requires Descend(h, honest, m.keyWidth, m.root, m.height, Pad(paths[i], m.keyWidth)) == Ok(Some(Rows(t)[i]))
    requires PathFrom(h, codec, m, data, paths[i]).Ok?
    ensures AllSameIn(honest, data,
      [sections[0][1 + i], sections[1][1 + i], sections[2][1 + i], sections[3][1 + i]])
  {
    hide SectionsHold, LeafRows, EncodeAlone, SortPaths, Holds, Stored, Rows, Descend, NoForgedRange, SameIn, Pad,
      BlocksIn, ReadRecord, PathFrom, OpenData, TrimNul;
    PathRead(h, codec, m, honest, data, paths[i], Rows(t)[i]);
    TableRow(h, codec, c, m, honest, paths, sections, t, i);
    PathBlocksSame(h, codec, c, honest, OpenData(h, m, Some(data)).value, paths, sections, i, paths[i]);
  }

  /** A one-path read is refused, as altered or, in a shorter file, as cut. */
  ghost predicate Refuses(h: Hash, codec: Codec, m: Manifest, honest: Bytes, data: Bytes, target: Bytes)
    requires |m.descriptors| == SECTION_COUNT && m.height >= 1
  {
    var r := PathFrom(h, codec, m, data, target);
    r == Err(ChecksumMismatch) || (|data| < |honest| && r == Err(ShortRead))
  }

  lemma PathRefused(h: Hash, codec: Codec, m: Manifest, honest: Bytes, data: Bytes, target: Bytes, rec: Record)
    requires |m.descriptors| == SECTION_COUNT && m.height >= 1 && NoForgedRange(h, honest, data)
    requires PathFrom(h, codec, m, honest, target) == Ok(rec)
    ensures PathFrom(h, codec, m, data, target).Ok? || Refuses(h, codec, m, honest, data, target)
  {
    PathIntegrity(h, codec, m, honest, data, target);
    hide PathFrom, NoForgedRange;
  }

  /** A finished pack holds the four blocks of each path at places where any altered
      byte makes the one-path read of that path a checksum mismatch (or, in a file
      cut shorter, a short read), whatever else was altered. */
  lemma AlteredBlockRefused(h: Hash, codec: Codec, name: Bytes, c: Corpus, target: Bytes) returns (places: seq<Locator>)
    requires Lawful(codec) && Build(h, codec, name, c).Ok? && target in c.paths
    ensures var (m, honest) := Build(h, codec, name, c).value;
      && m.height >= 1 && BlockPlaces(h, codec, c, honest, target, places)
      && forall data :: NoForgedRange(h, honest, data) && !AllSameIn(honest, data, places) ==>
        Refuses(h, codec, m, honest, data, target)
  {
    OnePathExact(h, codec, name, c, target);
    var paths, sections, t := BuildStores(h, codec, name, c);
    SortMembers(c.paths);
    var (m, honest) := Build(h, codec, name, c).value;
    assert target in paths && Sections(sections, |paths|);
    hide Build, Lawful, FileCovered, SortPaths, MaxLength, Pack, Stored, Rows, Descend, NoForgedRange, AllSameIn,
      BlockPlaces, Pad, PathFrom, StoredRecord, Refuses, NulFree;
    var i := RowFound(h, codec, c, m, honest, paths, sections, t, target);
    places := [sections[0][1 + i], sections[1][1 + i], sections[2][1 + i], sections[3][1 + i]];
    RowPlaces(h, codec, c, m, honest, paths, sections, t, i);
    forall data | NoForgedRange(h, honest, data) && !AllSameIn(honest, data, places)
      ensures Refuses(h, codec, m, honest, data, target)
    {
      PathRefused(h, codec, m, honest, data, target, StoredRecord(c, target));
      if PathFrom(h, codec, m, data, target).Ok? {
        PathSame(h, codec, c, m, honest, data, paths, sections, t, i);
      }
    }
  }
}
