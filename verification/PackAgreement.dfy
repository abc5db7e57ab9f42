/** Pack v2 answers every read as pack v1 does: the tree refines the flat manifest. */
module PackAgreement {
  import opened ByteStrings
  import opened Sorting
  import opened Gob
  import opened Corpora
  import opened PackTypes
  import PackV2Writer
  import PackV2Integrity
  import PackV2Exact
  import PackV1

  lemma BlockReads(h: Hash, codec: Codec, data: Bytes, b: Locator, v: Value)
    requires Lawful(codec) && Placed(h, data, b, EncodeAlone(codec, v))
    ensures PackV1.ReadBlock(h, codec, data, b, KindOf(v)) == Ok(v)
  {
    hide Lawful, EncodeAlone, DecodeAlone;
    AloneRoundTrip(codec, v);
  }

  ghost predicate KindHolds(h: Hash, codec: Codec, c: Corpus, paths: seq<Bytes>, k: nat, i: nat, data: Bytes,
          bs: seq<Locator>)
  {
    && k < 4 && i + |bs| == |paths|
    && forall j :: 0 <= j < |bs| ==> Placed(h, data, bs[j],
      EncodeAlone(codec, SectionValue(k, RecordAt(c, paths[i + j]))))
  }

  lemma PutHolds(h: Hash, data: Bytes, p: Bytes)
    requires PackV1.Put(h, data, p).Ok?
    ensures var (data', b) := PackV1.Put(h, data, p).value; data <= data' && Placed(h, data', b, p)
  {
    var (data', b) := PackV1.Put(h, data, p).value;
    assert data'[|data|..] == p;
  }

  lemma {:induction false} PutKindHolds(h: Hash, codec: Codec, c: Corpus, paths: seq<Bytes>, k: nat, i: nat,
          data: Bytes)
    requires k < 4 && i <= |paths| && PackV1.PutKind(h, codec, c, paths, k, i, data).Ok?
    ensures var (data', bs) := PackV1.PutKind(h, codec, c, paths, k, i, data).value;
      data <= data' && KindHolds(h, codec, c, paths, k, i, data', bs)
    decreases |paths| - i
  {
    hide EncodeAlone, SectionValue, RecordAt, PackV1.Put, Placed;
    if i < |paths| {
      var p := EncodeAlone(codec, SectionValue(k, RecordAt(c, paths[i])));
      PutHolds(h, data, p);
      var (data1, b) := PackV1.Put(h, data, p).value;
      PutKindHolds(h, codec, c, paths, k, i + 1, data1);
      var (data', bs) := PackV1.PutKind(h, codec, c, paths, k, i + 1, data1).value;
      PlacedLater(h, data1, data', b, p);
      forall j | 0 <= j < |[b] + bs|
        ensures Placed(h, data', ([b] + bs)[j], EncodeAlone(codec, SectionValue(k, RecordAt(c, paths[i + j]))))
      {
        if j > 0 { assert ([b] + bs)[j] == bs[j - 1] && paths[i + j] == paths[(i + 1) + (j - 1)]; }
      }
    }
  }

  ghost predicate KindsHold(h: Hash, codec: Codec, c: Corpus, paths: seq<Bytes>, k: nat, data: Bytes,
          kinds: seq<seq<Locator>>)
  {
    && k + |kinds| == 4
    && forall j :: 0 <= j < |kinds| ==> KindHolds(h, codec, c, paths, k + j, 0, data, kinds[j])
  }

  lemma KindLater(h: Hash, codec: Codec, c: Corpus, paths: seq<Bytes>, k: nat, data: Bytes, more: Bytes,
          bs: seq<Locator>)
    requires KindHolds(h, codec, c, paths, k, 0, data, bs) && data <= more
    ensures KindHolds(h, codec, c, paths, k, 0, more, bs)
  {
    hide EncodeAlone, SectionValue, RecordAt, Placed;
    forall j | 0 <= j < |bs| ensures Placed(h, more, bs[j],
      EncodeAlone(codec, SectionValue(k, RecordAt(c, paths[0 + j]))))
    {
      PlacedLater(h, data, more, bs[j], EncodeAlone(codec, SectionValue(k, RecordAt(c, paths[0 + j]))));
    }
  }

  lemma {:induction false} PutKindsHold(h: Hash, codec: Codec, c: Corpus, paths: seq<Bytes>, k: nat, data: Bytes)
    requires k <= 4 && PackV1.PutKinds(h, codec, c, paths, k, data).Ok?
    ensures var (data', kinds) := PackV1.PutKinds(h, codec, c, paths, k, data).value;
      data <= data' && KindsHold(h, codec, c, paths, k, data', kinds)
    decreases 4 - k
  {
    hide KindHolds, PackV1.PutKind;
    if k < 4 {
      PutKindHolds(h, codec, c, paths, k, 0, data);
      var (data1, bs) := PackV1.PutKind(h, codec, c, paths, k, 0, data).value;
      PutKindsHold(h, codec, c, paths, k + 1, data1);
      var (data', rest) := PackV1.PutKinds(h, codec, c, paths, k + 1, data1).value;
      KindLater(h, codec, c, paths, k, data1, data', bs);
      forall j | 0 <= j < |[bs] + rest| ensures KindHolds(h, codec, c, paths, k + j, 0, data', ([bs] + rest)[j]) {
        if j > 0 { assert ([bs] + rest)[j] == rest[j - 1] && k + j == (k + 1) + (j - 1); }
      }
    }
  }

  /** A finished v1 pack. */
  ghost predicate Packed(h: Hash, codec: Codec, c: Corpus, m: PackV1.Manifest, data: Bytes) {
    && PackV1.Shaped(m) && m.paths == SortPaths(c.paths)
    && KindsHold(h, codec, c, m.paths, 0, data, m.kinds)
    && Placed(h, data, m.vocabulary, EncodeAlone(codec, Texts(c.vocabulary)))
  }

  lemma BuildPacks(h: Hash, codec: Codec, name: Bytes, c: Corpus)
    requires PackV1.Build(h, codec, name, c).Ok?
    ensures var (m, data) := PackV1.Build(h, codec, name, c).value; Packed(h, codec, c, m, data)
  {
    hide EncodeAlone, PackV1.PutKinds, KindHolds, Placed, SortPaths, PackV1.Put;
    var paths := SortPaths(c.paths);
    PutKindsHold(h, codec, c, paths, 0, []);
    var (data1, kinds) := PackV1.PutKinds(h, codec, c, paths, 0, []).value;
    var block := EncodeAlone(codec, Texts(c.vocabulary));
    PutHolds(h, data1, block);
    var data := PackV1.Put(h, data1, block).value.0;
    forall k | 0 <= k < 4 ensures KindHolds(h, codec, c, paths, 0 + k, 0, data, kinds[k]) {
      KindLater(h, codec, c, paths, 0 + k, data1, data, kinds[k]);
    }
  }

  lemma RowReads(h: Hash, codec: Codec, c: Corpus, m: PackV1.Manifest, data: Bytes, i: nat)
    requires Lawful(codec) && Packed(h, codec, c, m, data) && i < |m.paths|
    ensures PackV1.ReadRow(h, codec, m, data, i) == Ok(StoredRecord(c, m.paths[i]))
  {
    hide Lawful, EncodeAlone, Placed, SortPaths, PackV1.ReadBlock;
    forall k | 0 <= k < 4
      ensures PackV1.ReadBlock(h, codec, data, m.kinds[k][i], KINDS[k]) == Ok(SectionValue(k, RecordAt(c, m.paths[i])))
    {
      assert KindHolds(h, codec, c, m.paths, 0 + k, 0, data, m.kinds[k]);
      assert m.paths[0 + i] == m.paths[i];
      BlockReads(h, codec, data, m.kinds[k][i], SectionValue(k, RecordAt(c, m.paths[i])));
    }
    hide Packed;
    assert PackV1.ReadBlock(h, codec, data, m.kinds[0][i], KINDS[0]).Ok?;
    assert PackV1.ReadBlock(h, codec, data, m.kinds[1][i], KINDS[1]).Ok?;
    assert PackV1.ReadBlock(h, codec, data, m.kinds[2][i], KINDS[2]).Ok?;
    assert PackV1.ReadBlock(h, codec, data, m.kinds[3][i], KINDS[3]).Ok?;
  }

  lemma {:induction false} RowsRead(h: Hash, codec: Codec, c: Corpus, m: PackV1.Manifest, data: Bytes, i: nat,
          files: map<Bytes, Record>)
    requires Lawful(codec) && Packed(h, codec, c, m, data) && i <= |m.paths|
    ensures PackV1.ReadRows(h, codec, m, data, i, files) == Ok(PackV2Exact.FileRecords(c, m.paths[i..], files))
    decreases |m.paths| - i
  {
    hide Lawful, StoredRecord, PackV1.ReadRow, SortPaths, KindsHold, Placed;
    if i < |m.paths| {
      RowReads(h, codec, c, m, data, i);
      RowsRead(h, codec, c, m, data, i + 1, files[m.paths[i] := StoredRecord(c, m.paths[i])]);
      assert m.paths[i..][0] == m.paths[i] && m.paths[i..][1..] == m.paths[i + 1..];
    }
  }

  /** Whole read of an untouched v1 pack. */
  lemma V1WholeExact(h: Hash, codec: Codec, name: Bytes, c: Corpus)
    requires Lawful(codec) && PackV1.Build(h, codec, name, c).Ok?
    ensures var (m, data) := PackV1.Build(h, codec, name, c).value;
      PackV1.ReadWhole(h, codec, m, data) == Ok(StoredCorpus(c))
  {
    hide Lawful, EncodeAlone, PackV1.PutKinds, KindsHold, Placed, SortPaths, PackV1.Put, StoredRecord,
      PackV2Exact.FileRecords;
    BuildPacks(h, codec, name, c);
    var (m, data) := PackV1.Build(h, codec, name, c).value;
    RowsRead(h, codec, c, m, data, 0, map[]);
    assert m.paths[0..] == m.paths;
    PackV2Exact.FilesStored(c, m.paths);
    BlockReads(h, codec, data, m.vocabulary, Texts(c.vocabulary));
  }

  lemma ProjectionsOfStored(c: Corpus)
    ensures StoredImports(c) == map p <- StoredCorpus(c).files :: StoredCorpus(c).files[p].imports
    ensures forall p :: p in StoredCorpus(c).files <==> p in c.paths
    ensures forall p <- c.paths :: StoredCorpus(c).files[p] == StoredRecord(c, p)
  {
    hide SortPaths, RecordAt;
    var table := map p <- StoredCorpus(c).files :: StoredCorpus(c).files[p].imports;
    assert forall p :: p in table <==> p in StoredImports(c);
  }

  /** For any corpus both builders accept, the two packs agree on every read: the
      whole corpus with its paths in sorted order, the imports table, and every
      target's record, absent targets included. */
  lemma V2RefinesV1(h: Hash, codec: Codec, name1: Bytes, name2: Bytes, c: Corpus, target: Bytes)
    requires Lawful(codec)
    requires PackV1.Build(h, codec, name1, c).Ok? && PackV2Writer.Build(h, codec, name2, c).Ok?
    ensures var (m1, data1) := PackV1.Build(h, codec, name1, c).value;
      var (m2, data2) := PackV2Writer.Build(h, codec, name2, c).value;
      && m2.height >= 1
      && PackV2Integrity.WholeFrom(h, codec, m2, data2) == PackV1.ReadWhole(h, codec, m1, data1)
      && PackV2Integrity.TableFrom(h, codec, m2, data2) == PackV1.ReadOneTable(h, codec, m1, data1)
      && PackV2Integrity.PathFrom(h, codec, m2, data2, target) == PackV1.ReadOnePath(h, codec, m1, data1, target)
      && PackV1.ReadWhole(h, codec, m1, data1).Ok?
      && Ascending(PackV1.ReadWhole(h, codec, m1, data1).value.paths)
  {
    V1WholeExact(h, codec, name1, c);
    PackV2Exact.WholeExact(h, codec, name2, c);
    PackV2Exact.OneTableExact(h, codec, name2, c);
    PackV2Exact.OnePathExact(h, codec, name2, c, target);
    SortAscending(c.paths);
    hide Lawful, PackV2Writer.Build, PackV1.Build, RecordAt, SortPaths, PackV2Integrity.PathFrom,
      PackV2Integrity.TableFrom, PackV2Integrity.WholeFrom, PackV1.ReadWhole, PackV1.ReadOneTable, PackV1.ReadOnePath;
    var (m1, data1) := PackV1.Build(h, codec, name1, c).value;
    PackV1.ReadsProjectWhole(h, codec, m1, data1, target);
    ProjectionsOfStored(c);
  }

  /** In an untouched v2 pack the one-path and one-table reads are projections of
      the whole read. */
  lemma V2ReadsProjectWhole(h: Hash, codec: Codec, name: Bytes, c: Corpus, target: Bytes)
    requires Lawful(codec) && PackV2Writer.Build(h, codec, name, c).Ok?
    ensures var (m, data) := PackV2Writer.Build(h, codec, name, c).value;
      m.height >= 1 && PackV2Integrity.WholeFrom(h, codec, m, data).Ok? &&
      var whole := PackV2Integrity.WholeFrom(h, codec, m, data).value;
      && PackV2Integrity.PathFrom(h, codec, m, data, target)
         == (if target in whole.files then Ok(whole.files[target]) else Err(PathNotFound))
      && PackV2Integrity.TableFrom(h, codec, m, data) == Ok(map p <- whole.files :: whole.files[p].imports)
  {
    PackV2Exact.WholeExact(h, codec, name, c);
    PackV2Exact.OneTableExact(h, codec, name, c);
    PackV2Exact.OnePathExact(h, codec, name, c, target);
    hide Lawful, PackV2Writer.Build, RecordAt, SortPaths, PackV2Integrity.PathFrom, PackV2Integrity.TableFrom,
      PackV2Integrity.WholeFrom;
    ProjectionsOfStored(c);
  }
}
