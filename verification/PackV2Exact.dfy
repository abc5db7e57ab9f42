/** What a finished build can be asked: every read of the untouched pack returns
    exactly what was stored, and over altered bytes exactly that or an integrity
    error. */
module PackV2Exact {
  import opened ByteStrings
  import opened Sorting
  import opened Gob
  import opened Corpora
  import opened PackTypes
  import opened PackV2Manifest
  import opened PackV2Writer
  import opened PackV2Tree
  import opened PackV2Height
  import opened PackV2Reader
  import opened PackV2Search
  import opened PackV2Integrity

  // ---------- What a build stores ----------

  /** Every payload of one section sits where its locator says. */
  ghost predicate SectionHolds(h: Hash, data: Bytes, locs: seq<Locator>, ps: seq<Bytes>) {
    |locs| == |ps| && forall i :: 0 <= i < |ps| ==> Holds(h, data, locs[i], ps[i])
  }

  ghost predicate SectionsHold(h: Hash, codec: Codec, data: Bytes, c: Corpus, paths: seq<Bytes>,
          sections: seq<seq<Locator>>, from: nat)
  {
    && from + |sections| == 4
    && forall s :: 0 <= s < |sections| ==>
      SectionHolds(h, data, sections[s], SectionPayloads(codec, c, paths, from + s))
  }

  lemma SectionLater(h: Hash, data: Bytes, more: Bytes, locs: seq<Locator>, ps: seq<Bytes>)
    requires SectionHolds(h, data, locs, ps) && data <= more
    ensures SectionHolds(h, more, locs, ps)
  {
    hide Holds;
    forall i | 0 <= i < |ps| ensures Holds(h, more, locs[i], ps[i]) { HoldsLater(h, data, more, locs[i], ps[i]); }
  }

  lemma SectionsStep(h: Hash, codec: Codec, data: Bytes, c: Corpus, paths: seq<Bytes>, k: nat)
    returns (data1: Bytes, locs: seq<Locator>, data': Bytes, rest: seq<seq<Locator>>)
    requires k < 4 && WriteSections(h, codec, data, c, paths, k).Ok?
    ensures PutAll(h, data, SectionPayloads(codec, c, paths, k)) == Ok((data1, locs))
    ensures WriteSections(h, codec, data1, c, paths, k + 1) == Ok((data', rest))
    ensures WriteSections(h, codec, data, c, paths, k) == Ok((data', [locs] + rest))
  {
    hide SectionPayloads, PutAll;
    var r := PutAll(h, data, SectionPayloads(codec, c, paths, k)).value;
    data1, locs := r.0, r.1;
    var w := WriteSections(h, codec, data1, c, paths, k + 1).value;
    data', rest := w.0, w.1;
  }

  lemma ConsSection(h: Hash, codec: Codec, data: Bytes, c: Corpus, paths: seq<Bytes>, locs: seq<Locator>,
          rest: seq<seq<Locator>>, k: nat)
    requires k < 4 && SectionHolds(h, data, locs, SectionPayloads(codec, c, paths, k))
    requires SectionsHold(h, codec, data, c, paths, rest, k + 1)
    ensures SectionsHold(h, codec, data, c, paths, [locs] + rest, k)
  {
    hide SectionPayloads, SectionHolds;
    var sections := [locs] + rest;
    forall s | 0 <= s < |sections| ensures SectionHolds(h, data, sections[s], SectionPayloads(codec, c, paths, k + s)) {
      if s > 0 { assert sections[s] == rest[s - 1] && k + s == (k + 1) + (s - 1); }
    }
  }

  lemma SectionWritten(h: Hash, data: Bytes, ps: seq<Bytes>)
    requires PutAll(h, data, ps).Ok?
    ensures data <= PutAll(h, data, ps).value.0
    ensures SectionHolds(h, PutAll(h, data, ps).value.0, PutAll(h, data, ps).value.1, ps)
  {
    PutAllHolds(h, data, ps);
  }

  lemma {:induction false} WriteSectionsHold(h: Hash, codec: Codec, data: Bytes, c: Corpus, paths: seq<Bytes>, k: nat)
    requires k <= 4 && WriteSections(h, codec, data, c, paths, k).Ok?
    ensures var (data', sections) := WriteSections(h, codec, data, c, paths, k).value;
      data <= data' && SectionsHold(h, codec, data', c, paths, sections, k)
    decreases 4 - k
  {
    if k < 4 {
      var data1, locs, data', rest := SectionsStep(h, codec, data, c, paths, k);
      hide SectionPayloads, SectionHolds, PutAll, WriteSections;
      SectionWritten(h, data, SectionPayloads(codec, c, paths, k));
      WriteSectionsHold(h, codec, data1, c, paths, k + 1);
      SectionLater(h, data1, data', locs, SectionPayloads(codec, c, paths, k));
      ConsSection(h, codec, data', c, paths, locs, rest, k);
    }
  }

  lemma SectionsHoldLater(h: Hash, codec: Codec, data: Bytes, more: Bytes, c: Corpus, paths: seq<Bytes>,
          sections: seq<seq<Locator>>)
    requires SectionsHold(h, codec, data, c, paths, sections, 0) && data <= more
    ensures SectionsHold(h, codec, more, c, paths, sections, 0)
  {
    hide SectionPayloads, SectionHolds;
    forall s | 0 <= s < |sections| ensures SectionHolds(h, more, sections[s], SectionPayloads(codec, c, paths, 0 + s)) {
      SectionLater(h, data, more, sections[s], SectionPayloads(codec, c, paths, 0 + s));
    }
  }

  lemma SectionAt(h: Hash, codec: Codec, data: Bytes, c: Corpus, paths: seq<Bytes>, sections: seq<seq<Locator>>, k: nat,
          i: nat)
    requires SectionsHold(h, codec, data, c, paths, sections, 0) && k < 4 && i <= |paths|
    ensures |sections[k]| == |paths| + 1 && Holds(h, data, sections[k][i], SectionPayloads(codec, c, paths, k)[i])
  {
    hide SectionPayloads, Holds;
    assert SectionHolds(h, data, sections[k], SectionPayloads(codec, c, paths, 0 + k));
  }

  // ---------- Which bytes it stores where ----------

  ghost predicate InSections(x: nat, sections: seq<seq<Locator>>) {
    exists k :: 0 <= k < |sections| && InSome(x, sections[k])
  }

  lemma {:induction false} SectionsCover(h: Hash, codec: Codec, data: Bytes, c: Corpus, paths: seq<Bytes>, k: nat,
          x: nat)
    requires k <= 4 && WriteSections(h, codec, data, c, paths, k).Ok?
    requires |data| <= x < |WriteSections(h, codec, data, c, paths, k).value.0|
    ensures InSections(x, WriteSections(h, codec, data, c, paths, k).value.1)
    decreases 4 - k
  {
    var data1, locs, data', rest := SectionsStep(h, codec, data, c, paths, k);
    hide WriteSections, SectionPayloads, PutAll, InSome;
    if x < |data1| {
      PutAllCovers(h, data, SectionPayloads(codec, c, paths, k), x);
      assert InSome(x, ([locs] + rest)[0]);
    } else {
      SectionsCover(h, codec, data1, c, paths, k + 1, x);
      var j :| 0 <= j < |rest| && InSome(x, rest[j]);
      assert InSome(x, ([locs] + rest)[j + 1]);
    }
  }

  /** Every byte of the file is part of a section, the vocabulary or the tree. */
  ghost predicate FileCovered(m: Manifest, data: Bytes, sections: seq<seq<Locator>>, t: Tree) {
    forall x :: 0 <= x < |data| ==> InSections(x, sections) || InRange(x, m.vocabulary) || InTree(x, m.root, t)
  }

  /** A finished pack: sorted NUL-free paths within the key width, every block of
      every section in place, and the path table stored as a tree. */
  ghost predicate Pack(h: Hash, codec: Codec, c: Corpus, m: Manifest, data: Bytes, paths: seq<Bytes>,
          sections: seq<seq<Locator>>, t: Tree)
  {
    && |m.descriptors| == SECTION_COUNT && m.height >= 1 && m.keyWidth <= MAX_KEY_WIDTH
    && paths == SortPaths(c.paths) && paths != [] && Within(paths, m.keyWidth)
    && (forall i :: 0 <= i < |paths| ==> NulFree(paths[i]))
    && Sections(sections, |paths|) && SectionsHold(h, codec, data, c, paths, sections, 0)
    && m.descriptors == [sections[0][0], sections[1][0], sections[2][0], sections[3][0]]
    && Holds(h, data, m.vocabulary, EncodeAlone(codec, Texts(c.vocabulary)))
    && Fits(m.root) && Stored(h, data, m.root, t, m.height, m.keyWidth)
    && Rows(t) == LeafRows(paths, m.keyWidth, sections, 0)
  }

  lemma BuildBlocks(h: Hash, codec: Codec, c: Corpus, paths: seq<Bytes>)
    requires WriteSections(h, codec, [], c, paths, 0).Ok?
    requires Put(h, WriteSections(h, codec, [], c, paths, 0).value.0, EncodeAlone(codec, Texts(c.vocabulary))).Ok?
    ensures var (data1, sections) := WriteSections(h, codec, [], c, paths, 0).value;
      var (data2, vocabulary) := Put(h, data1, EncodeAlone(codec, Texts(c.vocabulary))).value;
      forall data :: data2 <= data ==>
        SectionsHold(h, codec, data, c, paths, sections, 0)
          && Holds(h, data, vocabulary, EncodeAlone(codec, Texts(c.vocabulary)))
  {
    WriteSectionsHold(h, codec, [], c, paths, 0);
    var (data1, sections) := WriteSections(h, codec, [], c, paths, 0).value;
    var block := EncodeAlone(codec, Texts(c.vocabulary));
    var (data2, vocabulary) := Put(h, data1, block).value;
    assert data2[|data1|..] == block;
    assert Holds(h, data2, vocabulary, block);
    hide WriteSections, SectionsHold, EncodeAlone, Holds;
    forall data | data2 <= data
      ensures SectionsHold(h, codec, data, c, paths, sections, 0) && Holds(h, data, vocabulary, block)
    {
      SectionsHoldLater(h, codec, data1, data, c, paths, sections);
      HoldsLater(h, data2, data, vocabulary, block);
    }
  }

  lemma BuildStores(h: Hash, codec: Codec, name: Bytes, c: Corpus)
    returns (paths: seq<Bytes>, sections: seq<seq<Locator>>, t: Tree)
    requires Build(h, codec, name, c).Ok?
    ensures var (m, data) := Build(h, codec, name, c).value;
      && Pack(h, codec, c, m, data, paths, sections, t)
      && m.dataFile == name && m.keyWidth == MaxLength(paths)
      && (m.height <= MAX_HEIGHT <==> |paths| <= MAX_PATHS)
      && FileCovered(m, data, sections, t)
  {
    hide InSections, InTree, WriteSections, EncodeAlone, LeafRows, WriteTree, SectionsHold, Holds, Stored, Rows,
      MaxLength, SortPaths;
    paths := SortedKeys(c).value.0;
    var keyWidth := SortedKeys(c).value.1;
    BuildBlocks(h, codec, c, paths);
    var data1 := WriteSections(h, codec, [], c, paths, 0).value.0;
    sections := WriteSections(h, codec, [], c, paths, 0).value.1;
    var data2 := Put(h, data1, EncodeAlone(codec, Texts(c.vocabulary))).value.0;
    var rows := LeafRows(paths, keyWidth, sections, 0);
    t := BulkLoad(h, data2, rows, keyWidth);
    HeightIsLeast(h, data2, rows, keyWidth);
    HeightBoundExact(h, data2, rows, keyWidth);
    var (m, data) := Build(h, codec, name, c).value;
    forall x | 0 <= x < |data|
      ensures InSections(x, sections) || InRange(x, m.vocabulary) || InTree(x, m.root, t)
    {
      if x < |data1| { SectionsCover(h, codec, [], c, paths, 0, x); }
    }
  }

  // ---------- The path table ----------

  lemma HeldFits(h: Hash, data: Bytes, loc: Locator, p: Bytes)
    requires Holds(h, data, loc, p)
    ensures Fits(loc)
  {
  }

  lemma LeafRowParts(path: Bytes, keyWidth: nat, locs: seq<Locator>)
    requires |path| <= keyWidth && |locs| == 4 && NulFree(path)
    requires forall k :: 0 <= k < 4 ==> Fits(locs[k])
    ensures var row := LeafRow(path, keyWidth, locs);
      && row[..keyWidth] == Pad(path, keyWidth)
      && TrimNul(row[..keyWidth]) == path
      && BlocksIn(row, keyWidth) == Blocks(locs[0], locs[1], locs[2], locs[3])
  {
    var row := LeafRow(path, keyWidth, locs);
    var l0, l1, l2, l3 := PutLocator(locs[0]), PutLocator(locs[1]), PutLocator(locs[2]), PutLocator(locs[3]);
    LocatorRoundTrip(locs[0], l1 + l2 + l3);
    LocatorRoundTrip(locs[1], l2 + l3);
    LocatorRoundTrip(locs[2], l3);
    LocatorRoundTrip(locs[3], []);
    hide PutLocator, GetLocator, Pad;
    var b := row[keyWidth..];
    assert b == l0 + (l1 + l2 + l3);
    assert b[44..] == l1 + (l2 + l3);
    assert b[88..] == l2 + l3;
    assert b[132..] == l3 + [];
    assert row[..keyWidth] == Pad(path, keyWidth);
    TrimPad(path, keyWidth);
  }

  /** Row i of the table: its key, its path and its block locators. */
  lemma TableRow(h: Hash, codec: Codec, c: Corpus, m: Manifest, data: Bytes, paths: seq<Bytes>,
          sections: seq<seq<Locator>>, t: Tree, i: nat)
    requires Pack(h, codec, c, m, data, paths, sections, t) && i < |paths|
    ensures var row := Rows(t)[i];
      && |Rows(t)| == |paths| && |row| == LeafWidth(m.keyWidth)
      && row[..m.keyWidth] == Pad(paths[i], m.keyWidth)
      && TrimNul(row[..m.keyWidth]) == paths[i]
      && BlocksIn(row, m.keyWidth) == Blocks(sections[0][1 + i], sections[1][1 + i], sections[2][1 + i],
        sections[3][1 + i])
  {
    hide SectionPayloads, Stored, Rows, LeafRow, BlocksIn, TrimNul, Pad, Holds, EncodeAlone;
    LeafRowsAt(paths, m.keyWidth, sections, 0, i);
    var locs := BlocksOf(sections, |paths|, i);
    forall k | 0 <= k < 4 ensures Fits(locs[k]) {
      assert locs[k] == sections[k][1 + i];
      SectionAt(h, codec, data, c, paths, sections, k, 1 + i);
      HeldFits(h, data, sections[k][1 + i], SectionPayloads(codec, c, paths, k)[1 + i]);
    }
    LeafRowParts(paths[i], m.keyWidth, locs);
  }

  lemma TableAscends(h: Hash, codec: Codec, c: Corpus, m: Manifest, data: Bytes, paths: seq<Bytes>,
          sections: seq<seq<Locator>>, t: Tree)
    requires Pack(h, codec, c, m, data, paths, sections, t)
    ensures |Rows(t)| == |paths| && KeysAscend(Rows(t), m.keyWidth)
  {
    hide SectionsHold, Stored, Rows, LeafRow, BlocksIn, TrimNul, Pad, Holds, EncodeAlone, LexLe;
    SortAscending(c.paths);
    hide SortPaths;
    forall i | 0 <= i < |paths|
      ensures |Rows(t)[i]| == LeafWidth(m.keyWidth) && Rows(t)[i][..m.keyWidth] == Pad(paths[i], m.keyWidth)
    {
      TableRow(h, codec, c, m, data, paths, sections, t, i);
    }
    forall i, j | 0 <= i < j < |paths| ensures LexLe(Rows(t)[i][..m.keyWidth], Rows(t)[j][..m.keyWidth]) {
      PadOrder(paths[i], paths[j], m.keyWidth);
    }
  }

  // ---------- Blocks ----------

  /** The reader over the pack as it was written. */
  function HonestReader(codec: Codec, c: Corpus, m: Manifest, data: Bytes, paths: seq<Bytes>): (r: Reader)
    ensures |r.descriptors| == SECTION_COUNT && r.manifest == m && r.data == data
  {
    Reader(m, [SectionPayloads(codec, c, paths, 0)[0], SectionPayloads(codec, c, paths, 1)[0],
               SectionPayloads(codec, c, paths, 2)[0], SectionPayloads(codec, c, paths, 3)[0]], data)
  }

  lemma {:induction false} DescriptorsRead(h: Hash, data: Bytes, locs: seq<Locator>, ps: seq<Bytes>)
    requires |locs| == |ps| && forall i :: 0 <= i < |ps| ==> Holds(h, data, locs[i], ps[i])
    ensures ReadDescriptors(h, data, locs) == Ok(ps)
  {
    if ps != [] {
      HeldReads(h, data, locs[0], ps[0], MAX_BLOCK_BYTES);
      hide Holds, ReadVerified;
      DescriptorsRead(h, data, locs[1..], ps[1..]);
      assert ps == [ps[0]] + ps[1..];
    }
  }

  lemma HonestOpen(h: Hash, codec: Codec, c: Corpus, m: Manifest, data: Bytes, paths: seq<Bytes>,
          sections: seq<seq<Locator>>, t: Tree)
    requires Pack(h, codec, c, m, data, paths, sections, t)
    ensures OpenData(h, m, Some(data)) == Ok(HonestReader(codec, c, m, data, paths))
  {
    hide SectionPayloads, SectionsHold, Stored, Rows, LeafRows, EncodeAlone, SortPaths, Holds, ReadDescriptors;
    SectionAt(h, codec, data, c, paths, sections, 0, 0);
    SectionAt(h, codec, data, c, paths, sections, 1, 0);
    SectionAt(h, codec, data, c, paths, sections, 2, 0);
    SectionAt(h, codec, data, c, paths, sections, 3, 0);
    DescriptorsRead(h, data, m.descriptors, HonestReader(codec, c, m, data, paths).descriptors);
  }

  /** A block and its section's descriptor decode to what the path stores there. */
  lemma BlockDecodes(codec: Codec, c: Corpus, paths: seq<Bytes>, k: nat, i: nat)
    requires Lawful(codec) && k < 4 && i < |paths|
    requires var ps := SectionPayloads(codec, c, paths, k); |ps[0]| <= MAX_BLOCK_BYTES && |ps[1 + i]| <= MAX_BLOCK_BYTES
    ensures var ps := SectionPayloads(codec, c, paths, k);
      DecodeBlock(codec, KINDS[k], ps[0], ps[1 + i]) == Some(SectionValue(k, RecordAt(c, paths[i])))
  {
    hide Lawful, DecodeBlock, EncodeRun, RecordAt;
    var vs := [SectionValue(k, PRIMER)] + SectionValues(k, c, paths);
    SectionValuesAt(k, c, paths, i);
    assert vs[1 + i] == SectionValue(k, RecordAt(c, paths[i]));
    BlockIndependence(codec, vs, 1 + i);
  }

  lemma DescriptorAt(codec: Codec, c: Corpus, m: Manifest, data: Bytes, paths: seq<Bytes>, k: nat)
    requires k < 4
    ensures HonestReader(codec, c, m, data, paths).descriptors[k] == SectionPayloads(codec, c, paths, k)[0]
  {
    hide SectionPayloads;
  }

  lemma SectionRead(h: Hash, codec: Codec, r: Reader, k: nat, loc: Locator, block: Bytes, v: Value)
    requires Opened(r) && k < SECTION_COUNT && ReadVerified(h, r.data, loc, MAX_BLOCK_BYTES) == Ok(block)
    requires KindOf(v) == KINDS[k] && DecodeBlock(codec, KINDS[k], r.descriptors[k], block) == Some(v)
    ensures ReadSection(h, codec, r, k, loc) == Ok(v)
  {
    hide ReadVerified, DecodeBlock;
  }

  lemma BlockReads(h: Hash, codec: Codec, c: Corpus, m: Manifest, data: Bytes, paths: seq<Bytes>,
          sections: seq<seq<Locator>>, t: Tree, k: nat, i: nat)
    requires Lawful(codec) && Pack(h, codec, c, m, data, paths, sections, t) && k < 4 && i < |paths|
    ensures ReadSection(h, codec, HonestReader(codec, c, m, data, paths), k, sections[k][1 + i])
         == Ok(SectionValue(k, RecordAt(c, paths[i])))
  {
    assert SectionsHold(h, codec, data, c, paths, sections, 0);
    hide Lawful, Pack, SectionsHold, SectionPayloads, SectionValue, RecordAt, DecodeBlock, ReadVerified;
    var payloads := SectionPayloads(codec, c, paths, k);
    SectionAt(h, codec, data, c, paths, sections, k, 1 + i);
    SectionAt(h, codec, data, c, paths, sections, k, 0);
    HeldReads(h, data, sections[k][1 + i], payloads[1 + i], MAX_BLOCK_BYTES);
    BlockDecodes(codec, c, paths, k, i);
    DescriptorAt(codec, c, m, data, paths, k);
    hide HonestReader, Holds, ReadSection;
    SectionRead(h, codec, HonestReader(codec, c, m, data, paths), k, sections[k][1 + i], payloads[1 + i],
      SectionValue(k, RecordAt(c, paths[i])));
  }

  lemma RecordReads(h: Hash, codec: Codec, c: Corpus, m: Manifest, data: Bytes, paths: seq<Bytes>,
          sections: seq<seq<Locator>>, t: Tree, i: nat)
    requires Lawful(codec) && Pack(h, codec, c, m, data, paths, sections, t) && i < |paths|
    ensures ReadRecord(h, codec, HonestReader(codec, c, m, data, paths), paths[i], BlocksIn(Rows(t)[i], m.keyWidth))
         == Ok(StoredRecord(c, paths[i]))
  {
    TableRow(h, codec, c, m, data, paths, sections, t, i);
    BlockReads(h, codec, c, m, data, paths, sections, t, 0, i);
    BlockReads(h, codec, c, m, data, paths, sections, t, 1, i);
    BlockReads(h, codec, c, m, data, paths, sections, t, 2, i);
    BlockReads(h, codec, c, m, data, paths, sections, t, 3, i);
    hide ReadSection, HonestReader, Pack, Rows, BlocksIn;
  }

  // ---------- One path ----------

  lemma TableHasKey(h: Hash, codec: Codec, c: Corpus, m: Manifest, data: Bytes, paths: seq<Bytes>,
          sections: seq<seq<Locator>>, t: Tree, target: Bytes)
    requires Pack(h, codec, c, m, data, paths, sections, t)
    requires |target| <= m.keyWidth && NulFree(target) && target in paths
    ensures HasKey(Rows(t), Pad(target, m.keyWidth))
  {
    hide Stored, SectionsHold, LeafRows, Rows, EncodeAlone, Pad, BlocksIn, TrimNul, SortPaths;
    var i :| 0 <= i < |paths| && paths[i] == target;
    TableRow(h, codec, c, m, data, paths, sections, t, i);
    assert Rows(t)[i][..m.keyWidth] == Pad(target, m.keyWidth);
  }

  lemma RowWithKey(h: Hash, codec: Codec, c: Corpus, m: Manifest, data: Bytes, paths: seq<Bytes>,
          sections: seq<seq<Locator>>, t: Tree, target: Bytes, row: Bytes) returns (i: nat)
    requires Pack(h, codec, c, m, data, paths, sections, t)
    requires |target| <= m.keyWidth && NulFree(target)
    requires Answers(Rows(t), Pad(target, m.keyWidth), Some(row))
    ensures i < |paths| && i < |Rows(t)| && Rows(t)[i] == row && paths[i] == target
  {
    hide Stored, SectionsHold, LeafRows, Rows, EncodeAlone, Pad, BlocksIn, TrimNul, SortPaths;
    TableRow(h, codec, c, m, data, paths, sections, t, 0);
    i :| 0 <= i < |Rows(t)| && Rows(t)[i] == row;
    TableRow(h, codec, c, m, data, paths, sections, t, i);
    PadInjective(paths[i], target, m.keyWidth);
  }

  /** A one-path read is the descent's answer, read. */
  lemma AnswerRead(h: Hash, codec: Codec, r: Reader, target: Bytes, answer: Option<Bytes>)
    requires Opened(r) && |target| <= r.manifest.keyWidth && NulFree(target)
    requires var m := r.manifest;
      Descend(h, r.data, m.keyWidth, m.root, m.height, Pad(target, m.keyWidth)) == Ok(answer)
    ensures match answer {
        case None => ReadOnePath(h, codec, r, target) == Err(PathNotFound)
        case Some(row) =>
          && |row| == LeafWidth(r.manifest.keyWidth)
          && ReadOnePath(h, codec, r, target) == ReadRecord(h, codec, r, target, BlocksIn(row, r.manifest.keyWidth))
      }
  {
    hide Descend, ReadRecord, BlocksIn, Pad;
  }

  lemma LookupExact(h: Hash, codec: Codec, c: Corpus, m: Manifest, data: Bytes, paths: seq<Bytes>,
          sections: seq<seq<Locator>>, t: Tree, target: Bytes)
    requires Lawful(codec) && Pack(h, codec, c, m, data, paths, sections, t)
    ensures ReadOnePath(h, codec, HonestReader(codec, c, m, data, paths), target)
         == if target in paths then Ok(StoredRecord(c, target)) else Err(PathNotFound)
  {
    var r := HonestReader(codec, c, m, data, paths);
    if |target| <= m.keyWidth && NulFree(target) {
      var key := Pad(target, m.keyWidth);
      TableAscends(h, codec, c, m, data, paths, sections, t);
      assert m.height >= 1 && Stored(h, data, m.root, t, m.height, m.keyWidth);
      hide Lawful, Pack, Stored, Rows, Descend, ReadOnePath, ReadRecord, KeysAscend, Pad, BlocksIn, StoredRecord,
        HonestReader, HasKey, NulFree;
      DescentAnswers(h, data, m.keyWidth, m.root, t, m.height, key);
      var answer := Descend(h, data, m.keyWidth, m.root, m.height, key).value;
      AnswerRead(h, codec, r, target, answer);
      if answer.Some? {
        var i := RowWithKey(h, codec, c, m, data, paths, sections, t, target, answer.value);
        RecordReads(h, codec, c, m, data, paths, sections, t, i);
      } else if target in paths {
        TableHasKey(h, codec, c, m, data, paths, sections, t, target);
      }
    } else {
      assert forall i :: 0 <= i < |paths| ==> paths[i] != target;
    }
  }

  // ---------- All paths ----------

  /** Filing each path's record in turn. */
  ghost function FileRecords(c: Corpus, paths: seq<Bytes>, acc: map<Bytes, Record>): map<Bytes, Record> {
    if paths == [] then acc else FileRecords(c, paths[1..], acc[paths[0] := StoredRecord(c, paths[0])])
  }

  ghost function FileImports(c: Corpus, paths: seq<Bytes>, acc: map<Bytes, seq<Bytes>>): map<Bytes, seq<Bytes>> {
    if paths == [] then acc else FileImports(c, paths[1..], acc[paths[0] := RecordAt(c, paths[0]).imports])
  }

  lemma {:induction false} FileRecordsIs(c: Corpus, paths: seq<Bytes>, acc: map<Bytes, Record>)
    ensures forall p :: p in FileRecords(c, paths, acc) <==> p in acc || p in paths
    ensures forall p :: p in FileRecords(c, paths, acc) ==>
      FileRecords(c, paths, acc)[p] == if p in paths then StoredRecord(c, p) else acc[p]
  {
    hide StoredRecord;
    if paths != [] { FileRecordsIs(c, paths[1..], acc[paths[0] := StoredRecord(c, paths[0])]); }
  }

  lemma {:induction false} FileImportsIs(c: Corpus, paths: seq<Bytes>, acc: map<Bytes, seq<Bytes>>)
    ensures forall p :: p in FileImports(c, paths, acc) <==> p in acc || p in paths
    ensures forall p :: p in FileImports(c, paths, acc) ==>
      FileImports(c, paths, acc)[p] == if p in paths then RecordAt(c, p).imports else acc[p]
  {
    hide RecordAt;
    if paths != [] { FileImportsIs(c, paths[1..], acc[paths[0] := RecordAt(c, paths[0]).imports]); }
  }

  lemma FilesStored(c: Corpus, paths: seq<Bytes>)
    requires paths == SortPaths(c.paths)
    ensures FileRecords(c, paths, map[]) == StoredCorpus(c).files
    ensures FileImports(c, paths, map[]) == StoredImports(c)
  {
    SortMembers(c.paths);
    hide SortPaths, RecordAt, StoredRecord;
    FileRecordsIs(c, paths, map[]);
    FileImportsIs(c, paths, map[]);
  }

  /** One row of a fold. */
  lemma FoldStep<A>(keyWidth: nat, rows: seq<Bytes>, i: nat, visit: Visit<A>, acc: A, next: A)
    requires AllWidth(rows, LeafWidth(keyWidth)) && i < |rows|
    requires VisitRow(keyWidth, rows[i], visit, acc) == Ok(next)
    ensures FoldRows(keyWidth, rows[i..], visit, acc) == FoldRows(keyWidth, rows[i + 1..], visit, next)
  {
    hide VisitRow;
    assert rows[i..][0] == rows[i] && rows[i..][1..] == rows[i + 1..];
  }

  lemma WholeVisit(h: Hash, codec: Codec, c: Corpus, m: Manifest, data: Bytes, paths: seq<Bytes>,
          sections: seq<seq<Locator>>, t: Tree, i: nat, acc: (map<Bytes, Record>, seq<Bytes>))
    requires Lawful(codec) && Pack(h, codec, c, m, data, paths, sections, t) && i < |paths| == |Rows(t)|
    requires AllWidth(Rows(t), LeafWidth(m.keyWidth))
    ensures VisitRow(m.keyWidth, Rows(t)[i], VisitWhole(h, codec, HonestReader(codec, c, m, data, paths)), acc)
         == Ok((acc.0[paths[i] := StoredRecord(c, paths[i])], acc.1 + [paths[i]]))
  {
    hide Lawful, Pack, Rows, HonestReader, ReadRecord, BlocksIn, TrimNul, StoredRecord, Pad;
    TableRow(h, codec, c, m, data, paths, sections, t, i);
    RecordReads(h, codec, c, m, data, paths, sections, t, i);
  }

  lemma AppendShift(a: seq<Bytes>, s: seq<Bytes>, i: nat)
    requires i < |s|
    ensures s[i..][0] == s[i] && s[i..][1..] == s[i + 1..]
    ensures (a + [s[i]]) + s[i + 1..] == a + s[i..]
  {
  }

  /** Each row of the table files one record. */
  ghost predicate FilesEach(c: Corpus, keyWidth: nat, rows: seq<Bytes>, paths: seq<Bytes>,
          visit: Visit<(map<Bytes, Record>, seq<Bytes>)>)
    requires AllWidth(rows, LeafWidth(keyWidth))
  {
    && |rows| == |paths|
    && forall j: nat, acc: (map<Bytes, Record>, seq<Bytes>) :: j < |paths| ==>
         VisitRow(keyWidth, rows[j], visit, acc)
           == Ok((acc.0[paths[j] := StoredRecord(c, paths[j])], acc.1 + [paths[j]]))
  }

  lemma {:induction false} WholeFold(c: Corpus, keyWidth: nat, rows: seq<Bytes>, paths: seq<Bytes>,
          visit: Visit<(map<Bytes, Record>, seq<Bytes>)>, i: nat, acc: (map<Bytes, Record>, seq<Bytes>))
    requires AllWidth(rows, LeafWidth(keyWidth)) && FilesEach(c, keyWidth, rows, paths, visit) && i <= |paths|
    ensures FoldRows(keyWidth, rows[i..], visit, acc) == Ok((FileRecords(c, paths[i..], acc.0), acc.1 + paths[i..]))
    decreases |paths| - i
  {
    hide StoredRecord, VisitRow;
    if i < |paths| {
      var acc' := (acc.0[paths[i] := StoredRecord(c, paths[i])], acc.1 + [paths[i]]);
      FoldStep(keyWidth, rows, i, visit, acc, acc');
      WholeFold(c, keyWidth, rows, paths, visit, i + 1, acc');
      AppendShift(acc.1, paths, i);
    } else {
      assert rows[i..] == [] && paths[i..] == [] && acc.1 + [] == acc.1;
    }
  }

  lemma VocabularyReads(h: Hash, codec: Codec, c: Corpus, m: Manifest, data: Bytes, paths: seq<Bytes>,
          sections: seq<seq<Locator>>, t: Tree)
    requires Lawful(codec) && Pack(h, codec, c, m, data, paths, sections, t)
    ensures ReadVocabulary(h, codec, HonestReader(codec, c, m, data, paths)) == Ok(c.vocabulary)
  {
    hide Lawful, Stored, SectionsHold, LeafRows, Rows, EncodeAlone, SectionPayloads, SortPaths;
    AloneRoundTrip(codec, Texts(c.vocabulary));
    HeldReads(h, data, m.vocabulary, EncodeAlone(codec, Texts(c.vocabulary)), MAX_BLOCK_BYTES);
  }

  /** Walking the whole tree files every path's record. */
  lemma WalkFilesWhole(h: Hash, codec: Codec, c: Corpus, m: Manifest, data: Bytes, paths: seq<Bytes>,
          sections: seq<seq<Locator>>, t: Tree)
    requires Lawful(codec) && Pack(h, codec, c, m, data, paths, sections, t)
    ensures var reader := HonestReader(codec, c, m, data, paths);
      Walk(h, data, m.keyWidth, m.root, m.height, VisitWhole(h, codec, reader), (map[], []))
      == Ok((FileRecords(c, paths, map[]), paths))
  {
    var reader := HonestReader(codec, c, m, data, paths);
    hide Lawful, Stored, SectionsHold, LeafRows, Rows, EncodeAlone, Walk, FoldRows, HonestReader, VisitWhole,
      StoredRecord, Holds, SortPaths, KeysAscend, FileRecords;
    TableAscends(h, codec, c, m, data, paths, sections, t);
    WalkFolds(h, data, m.keyWidth, m.root, t, m.height, VisitWhole(h, codec, reader), (map[], []));
    forall i: nat, acc: (map<Bytes, Record>, seq<Bytes>) | i < |paths|
      ensures VisitRow(m.keyWidth, Rows(t)[i], VisitWhole(h, codec, reader), acc)
           == Ok((acc.0[paths[i] := StoredRecord(c, paths[i])], acc.1 + [paths[i]]))
    {
      WholeVisit(h, codec, c, m, data, paths, sections, t, i, acc);
    }
    WholeFold(c, m.keyWidth, Rows(t), paths, VisitWhole(h, codec, reader), 0, (map[], []));
    assert Rows(t)[0..] == Rows(t) && paths[0..] == paths && [] + paths == paths;
  }

  lemma WholeExactOnPack(h: Hash, codec: Codec, c: Corpus, m: Manifest, data: Bytes, paths: seq<Bytes>,
          sections: seq<seq<Locator>>, t: Tree)
    requires Lawful(codec) && Pack(h, codec, c, m, data, paths, sections, t)
    ensures ReadWhole(h, codec, HonestReader(codec, c, m, data, paths)) == Ok(StoredCorpus(c))
  {
    WalkFilesWhole(h, codec, c, m, data, paths, sections, t);
    VocabularyReads(h, codec, c, m, data, paths, sections, t);
    assert paths == SortPaths(c.paths);
    FilesStored(c, paths);
    hide Lawful, Pack, Walk, HonestReader, VisitWhole, ReadVocabulary, StoredRecord, SortPaths, FileRecords,
      FileImports, RecordAt;
  }

  lemma ImportsVisit(h: Hash, codec: Codec, c: Corpus, m: Manifest, data: Bytes, paths: seq<Bytes>,
          sections: seq<seq<Locator>>, t: Tree, i: nat, acc: map<Bytes, seq<Bytes>>)
    requires Lawful(codec) && Pack(h, codec, c, m, data, paths, sections, t) && i < |paths| == |Rows(t)|
    requires AllWidth(Rows(t), LeafWidth(m.keyWidth))
    ensures VisitRow(m.keyWidth, Rows(t)[i], VisitImports(h, codec, HonestReader(codec, c, m, data, paths)), acc)
         == Ok(acc[paths[i] := RecordAt(c, paths[i]).imports])
  {
    hide Lawful, Stored, SectionsHold, LeafRows, SortPaths, EncodeAlone, Holds, Rows, HonestReader, ReadSection,
      BlocksIn, TrimNul, RecordAt, Pad;
    TableRow(h, codec, c, m, data, paths, sections, t, i);
    BlockReads(h, codec, c, m, data, paths, sections, t, 2, i);
  }

  /** Each row of the table files one import list. */
  ghost predicate TablesEach(c: Corpus, keyWidth: nat, rows: seq<Bytes>, paths: seq<Bytes>,
          visit: Visit<map<Bytes, seq<Bytes>>>)
    requires AllWidth(rows, LeafWidth(keyWidth))
  {
    && |rows| == |paths|
    && forall j: nat, acc: map<Bytes, seq<Bytes>> :: j < |paths| ==>
         VisitRow(keyWidth, rows[j], visit, acc) == Ok(acc[paths[j] := RecordAt(c, paths[j]).imports])
  }

  lemma {:induction false} TableFold(c: Corpus, keyWidth: nat, rows: seq<Bytes>, paths: seq<Bytes>,
          visit: Visit<map<Bytes, seq<Bytes>>>, i: nat, acc: map<Bytes, seq<Bytes>>)
    requires AllWidth(rows, LeafWidth(keyWidth)) && TablesEach(c, keyWidth, rows, paths, visit) && i <= |paths|
    ensures FoldRows(keyWidth, rows[i..], visit, acc) == Ok(FileImports(c, paths[i..], acc))
    decreases |paths| - i
  {
    hide RecordAt, VisitRow;
    if i < |paths| {
      var acc' := acc[paths[i] := RecordAt(c, paths[i]).imports];
      FoldStep(keyWidth, rows, i, visit, acc, acc');
      TableFold(c, keyWidth, rows, paths, visit, i + 1, acc');
      assert paths[i..][0] == paths[i] && paths[i..][1..] == paths[i + 1..];
    } else {
      assert rows[i..] == [] && paths[i..] == [];
    }
  }

  lemma TableExactOnPack(h: Hash, codec: Codec, c: Corpus, m: Manifest, data: Bytes, paths: seq<Bytes>,
          sections: seq<seq<Locator>>, t: Tree)
    requires Lawful(codec) && Pack(h, codec, c, m, data, paths, sections, t)
    ensures ReadOneTable(h, codec, HonestReader(codec, c, m, data, paths)) == Ok(StoredImports(c))
  {
    var reader := HonestReader(codec, c, m, data, paths);
    hide Lawful, Stored, SectionsHold, LeafRows, Rows, EncodeAlone, Walk, FoldRows, HonestReader, VisitImports,
      RecordAt, Holds, SortPaths, KeysAscend, FileRecords, FileImports;
    TableAscends(h, codec, c, m, data, paths, sections, t);
    WalkFolds(h, data, m.keyWidth, m.root, t, m.height, VisitImports(h, codec, reader), map[]);
    forall i: nat, acc: map<Bytes, seq<Bytes>> | i < |paths|
      ensures VisitRow(m.keyWidth, Rows(t)[i], VisitImports(h, codec, reader), acc)
           == Ok(acc[paths[i] := RecordAt(c, paths[i]).imports])
    {
      ImportsVisit(h, codec, c, m, data, paths, sections, t, i, acc);
    }
    TableFold(c, m.keyWidth, Rows(t), paths, VisitImports(h, codec, reader), 0, map[]);
    assert Rows(t)[0..] == Rows(t) && paths[0..] == paths;
    FilesStored(c, paths);
  }

  // ---------- Main results ----------

  /** Every locator of a finished build's manifest fits its fields. */
  lemma BuiltFits(h: Hash, codec: Codec, name: Bytes, c: Corpus)
    requires Build(h, codec, name, c).Ok?
    ensures var m := Build(h, codec, name, c).value.0;
      && m.dataFile == name && Fits(m.root) && Fits(m.vocabulary)
      && forall k :: 0 <= k < SECTION_COUNT ==> Fits(m.descriptors[k])
  {
    hide Build, Stored, SectionsHold, SectionPayloads, LeafRows, Rows, EncodeAlone, SortPaths, Holds, MaxLength;
    var paths, sections, t := BuildStores(h, codec, name, c);
    var (m, data) := Build(h, codec, name, c).value;
    forall k | 0 <= k < SECTION_COUNT ensures Fits(m.descriptors[k]) {
      SectionAt(h, codec, data, c, paths, sections, k, 0);
      HeldFits(h, data, sections[k][0], SectionPayloads(codec, c, paths, k)[0]);
    }
    HeldFits(h, data, m.vocabulary, EncodeAlone(codec, Texts(c.vocabulary)));
  }

  lemma KeyWidthPositive(paths: seq<Bytes>)
    ensures MaxLength(paths) >= 1 <==> exists p :: p in paths && p != []
  {
    if MaxLength(paths) >= 1 {
      var p :| p in paths && |p| == MaxLength(paths);
      assert p != [];
    }
  }

  /** Which finished builds the reader will open at all: those of at most 2^47
      paths of which one is not empty. */
  lemma OpensExactly(h: Hash, codec: Codec, name: Bytes, c: Corpus)
    requires ValidName(name) && Build(h, codec, name, c).Ok?
    ensures var (m, data) := Build(h, codec, name, c).value;
      OpenManifest(h, Some(EncodeManifest(h, m))) == Ok(m) <==>
        |c.paths| <= MAX_PATHS && exists p :: p in c.paths && p != []
  {
    hide Build, Stored, SectionsHold, SectionPayloads, LeafRows, Rows, EncodeAlone, SortPaths, DecodeManifest,
      EncodeManifest, Holds, MaxLength, ValidName, Fits;
    var paths, sections, t := BuildStores(h, codec, name, c);
    BuiltFits(h, codec, name, c);
    var (m, data) := Build(h, codec, name, c).value;
    DecodeEncode(h, m);
    SortMembers(c.paths);
    KeyWidthPositive(paths);
    if p :| p in c.paths && p != [] { assert p in paths; }
  }

  /** One path, untouched pack: the stored record if the path is in the corpus,
      "not found" if it is not, and no other answer. */
  lemma OnePathExact(h: Hash, codec: Codec, name: Bytes, c: Corpus, target: Bytes)
    requires Lawful(codec) && Build(h, codec, name, c).Ok?
    ensures var (m, data) := Build(h, codec, name, c).value;
      m.height >= 1 && PathFrom(h, codec, m, data, target)
        == LookedUp(c, target)
  {
    var paths, sections, t := BuildStores(h, codec, name, c);
    var (m, data) := Build(h, codec, name, c).value;
    HonestOpen(h, codec, c, m, data, paths, sections, t);
    LookupExact(h, codec, c, m, data, paths, sections, t, target);
    SortMembers(c.paths);
    hide Build, OpenData, ReadOnePath, HonestReader, Lawful, StoredRecord, SortPaths;
  }

  /** Whole read, untouched pack: every stored fact, the paths sorted. */
  lemma WholeExact(h: Hash, codec: Codec, name: Bytes, c: Corpus)
    requires Lawful(codec) && Build(h, codec, name, c).Ok?
    ensures var (m, data) := Build(h, codec, name, c).value;
      m.height >= 1 && WholeFrom(h, codec, m, data) == Ok(StoredCorpus(c))
  {
    var paths, sections, t := BuildStores(h, codec, name, c);
    var (m, data) := Build(h, codec, name, c).value;
    HonestOpen(h, codec, c, m, data, paths, sections, t);
    WholeExactOnPack(h, codec, c, m, data, paths, sections, t);
    hide Build, OpenData, ReadWhole, HonestReader, Lawful, StoredCorpus;
  }

  lemma OneTableExact(h: Hash, codec: Codec, name: Bytes, c: Corpus)
    requires Lawful(codec) && Build(h, codec, name, c).Ok?
    ensures var (m, data) := Build(h, codec, name, c).value;
      m.height >= 1 && TableFrom(h, codec, m, data) == Ok(StoredImports(c))
  {
    var paths, sections, t := BuildStores(h, codec, name, c);
    var (m, data) := Build(h, codec, name, c).value;
    HonestOpen(h, codec, c, m, data, paths, sections, t);
    TableExactOnPack(h, codec, c, m, data, paths, sections, t);
    hide Build, OpenData, ReadOneTable, HonestReader, Lawful, StoredImports;
  }

  /** Given the manifest of a finished build and any data-file bytes at all, each of
      the three reads returns exactly what that build stored or reports a checksum
      mismatch, and that only if the file was altered; only one cut shorter is
      reported as a short read. */
  lemma ReadsAreExactOrRefused(h: Hash, codec: Codec, name: Bytes, c: Corpus, data: Bytes, target: Bytes)
    requires Lawful(codec) && Build(h, codec, name, c).Ok?
    requires NoForgedRange(h, Build(h, codec, name, c).value.1, data)
    ensures var (m, honest) := Build(h, codec, name, c).value;
      && m.height >= 1
      && Faithful(LookedUp(c, target), PathFrom(h, codec, m, data, target), DamageOf(honest, data))
      && Faithful(Ok(StoredImports(c)), TableFrom(h, codec, m, data), DamageOf(honest, data))
      && Faithful(Ok(StoredCorpus(c)), WholeFrom(h, codec, m, data), DamageOf(honest, data))
  {
    OnePathExact(h, codec, name, c, target);
    OneTableExact(h, codec, name, c);
    WholeExact(h, codec, name, c);
    var (m, honest) := Build(h, codec, name, c).value;
    hide Build, PathFrom, TableFrom, WholeFrom, Lawful, StoredRecord, StoredImports, StoredCorpus, NoForgedRange;
    PathIntegrity(h, codec, m, honest, data, target);
    TableIntegrity(h, codec, m, honest, data);
    WholeIntegrity(h, codec, m, honest, data);
  }
}
