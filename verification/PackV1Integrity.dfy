/** Reading a v1 pack over arbitrary data-file bytes. */
module PackV1Integrity {
  import opened ByteStrings
  import opened Sorting
  import opened Gob
  import opened Corpora
  import opened PackTypes
  import opened PackV1
  import PackAgreement

  lemma BlockFaithful(h: Hash, codec: Codec, honest: Bytes, data: Bytes, b: Block, kind: Kind)
    requires NoForgedRange(h, honest, data) && ReadBlock(h, codec, honest, b, kind).Ok?
    ensures Faithful(ReadBlock(h, codec, honest, b, kind), ReadBlock(h, codec, data, b, kind), DamageOf(honest, data))
  {
    if honest <= data { RangeKept(honest, data, b); }
  }

  lemma RowFaithful(h: Hash, codec: Codec, m: Manifest, honest: Bytes, data: Bytes, i: nat)
    requires Shaped(m) && i < |m.paths| && NoForgedRange(h, honest, data)
    requires ReadRow(h, codec, m, honest, i).Ok?
    ensures Faithful(ReadRow(h, codec, m, honest, i), ReadRow(h, codec, m, data, i), DamageOf(honest, data))
  {
    BlockFaithful(h, codec, honest, data, m.kinds[0][i], TextKind);
    BlockFaithful(h, codec, honest, data, m.kinds[1][i], SymbolsKind);
    BlockFaithful(h, codec, honest, data, m.kinds[2][i], TextsKind);
    BlockFaithful(h, codec, honest, data, m.kinds[3][i], MarkersKind);
    hide ReadBlock, NoForgedRange;
  }

  lemma {:induction false} RowsFaithful(h: Hash, codec: Codec, m: Manifest, honest: Bytes, data: Bytes, i: nat,
          files: map<Bytes, Record>)
    requires Shaped(m) && i <= |m.paths| && NoForgedRange(h, honest, data)
    requires ReadRows(h, codec, m, honest, i, files).Ok?
    ensures Faithful(ReadRows(h, codec, m, honest, i, files), ReadRows(h, codec, m, data, i, files),
      DamageOf(honest, data))
    decreases |m.paths| - i
  {
    hide ReadRow, NoForgedRange;
    if i < |m.paths| {
      RowFaithful(h, codec, m, honest, data, i);
      RowsFaithful(h, codec, m, honest, data, i + 1, files[m.paths[i] := ReadRow(h, codec, m, honest, i).value]);
    }
  }

  lemma {:induction false} TableRowsFaithful(h: Hash, codec: Codec, m: Manifest, honest: Bytes, data: Bytes, i: nat,
          out: map<Bytes, seq<Bytes>>)
    requires Shaped(m) && i <= |m.paths| && NoForgedRange(h, honest, data)
    requires ReadTableRows(h, codec, m, honest, i, out).Ok?
    ensures Faithful(ReadTableRows(h, codec, m, honest, i, out), ReadTableRows(h, codec, m, data, i, out),
      DamageOf(honest, data))
    decreases |m.paths| - i
  {
    hide ReadBlock, NoForgedRange;
    if i < |m.paths| {
      BlockFaithful(h, codec, honest, data, m.kinds[2][i], TextsKind);
      TableRowsFaithful(h, codec, m, honest, data, i + 1,
        out[m.paths[i] := ReadBlock(h, codec, honest, m.kinds[2][i], TextsKind).value.texts]);
    }
  }

  lemma WholeFaithful(h: Hash, codec: Codec, m: Manifest, honest: Bytes, data: Bytes)
    requires Shaped(m) && NoForgedRange(h, honest, data) && ReadWhole(h, codec, m, honest).Ok?
    ensures Faithful(ReadWhole(h, codec, m, honest), ReadWhole(h, codec, m, data), DamageOf(honest, data))
  {
    RowsFaithful(h, codec, m, honest, data, 0, map[]);
    BlockFaithful(h, codec, honest, data, m.vocabulary, TextsKind);
    hide ReadBlock, ReadRows, NoForgedRange;
  }

  lemma PathFaithful(h: Hash, codec: Codec, m: Manifest, honest: Bytes, data: Bytes, target: Bytes)
    requires Shaped(m) && NoForgedRange(h, honest, data)
    requires var r := ReadOnePath(h, codec, m, honest, target); r.Ok? || r == Err(PathNotFound)
    ensures Faithful(ReadOnePath(h, codec, m, honest, target), ReadOnePath(h, codec, m, data, target),
      DamageOf(honest, data))
  {
    hide NoForgedRange;
    var i := LastIndex(m.paths, target);
    if i.Some? && ReadRow(h, codec, m, honest, i.value).Ok? { RowFaithful(h, codec, m, honest, data, i.value); }
  }

  /** What the three reads of an untouched v1 pack answer. */
  lemma V1ReadsExact(h: Hash, codec: Codec, name: Bytes, c: Corpus, target: Bytes)
    requires Lawful(codec) && Build(h, codec, name, c).Ok?
    ensures var (m, data) := Build(h, codec, name, c).value;
      && ReadWhole(h, codec, m, data) == Ok(StoredCorpus(c))
      && ReadOneTable(h, codec, m, data) == Ok(StoredImports(c))
      && ReadOnePath(h, codec, m, data, target) == LookedUp(c, target)
  {
    PackAgreement.V1WholeExact(h, codec, name, c);
    PackAgreement.ProjectionsOfStored(c);
    hide Lawful, Build, ReadWhole, ReadOneTable, ReadOnePath, StoredCorpus, StoredImports, StoredRecord;
    var (m, data) := Build(h, codec, name, c).value;
    ReadsProjectWhole(h, codec, m, data, target);
  }

  /** Given the manifest of a finished v1 build and any data-file bytes at all, each
      read returns exactly what was stored or reports a checksum mismatch, and that
      only if the file was altered; only one cut shorter is reported as a short read. */
  lemma V1ReadsAreExactOrRefused(h: Hash, codec: Codec, name: Bytes, c: Corpus, data: Bytes, target: Bytes)
    requires Lawful(codec) && Build(h, codec, name, c).Ok?
    requires NoForgedRange(h, Build(h, codec, name, c).value.1, data)
    ensures var (m, honest) := Build(h, codec, name, c).value; var damage := DamageOf(honest, data);
      && Faithful(LookedUp(c, target), ReadOnePath(h, codec, m, data, target), damage)
      && Faithful(Ok(StoredImports(c)), ReadOneTable(h, codec, m, data), damage)
      && Faithful(Ok(StoredCorpus(c)), ReadWhole(h, codec, m, data), damage)
  {
    V1ReadsExact(h, codec, name, c, target);
    hide Lawful, Build, ReadWhole, ReadTableRows, ReadOnePath, StoredCorpus, StoredImports, StoredRecord,
      NoForgedRange;
    var (m, honest) := Build(h, codec, name, c).value;
    WholeFaithful(h, codec, m, honest, data);
    PathFaithful(h, codec, m, honest, data, target);
    TableRowsFaithful(h, codec, m, honest, data, 0, map[]);
  }

  // ---------- A whole read checks every byte ----------

  lemma BlockSame(h: Hash, codec: Codec, honest: Bytes, data: Bytes, b: Block, kind: Kind)
    requires NoForgedRange(h, honest, data)
    requires ReadBlock(h, codec, honest, b, kind).Ok? && ReadBlock(h, codec, data, b, kind).Ok?
    ensures SameIn(honest, data, b)
  {
    RangeSame(h, honest, data, b);
  }

  /** The four blocks of row i are as they were. */
  ghost predicate RowSame(m: Manifest, honest: Bytes, data: Bytes, i: nat)
    requires Shaped(m) && i < |m.paths|
  {
    forall k :: 0 <= k < KIND_COUNT ==> SameIn(honest, data, m.kinds[k][i])
  }

  lemma ReadRowSame(h: Hash, codec: Codec, m: Manifest, honest: Bytes, data: Bytes, i: nat)
    requires Shaped(m) && i < |m.paths| && NoForgedRange(h, honest, data)
    requires ReadRow(h, codec, m, honest, i).Ok? && ReadRow(h, codec, m, data, i).Ok?
    ensures RowSame(m, honest, data, i)
  {
    hide ReadBlock, NoForgedRange, SameIn;
    BlockSame(h, codec, honest, data, m.kinds[0][i], TextKind);
    BlockSame(h, codec, honest, data, m.kinds[1][i], SymbolsKind);
    BlockSame(h, codec, honest, data, m.kinds[2][i], TextsKind);
    BlockSame(h, codec, honest, data, m.kinds[3][i], MarkersKind);
  }

  lemma {:induction false} RowRead(h: Hash, codec: Codec, m: Manifest, data: Bytes, i: nat,
          files: map<Bytes, Record>, j: nat)
    requires Shaped(m) && i <= j < |m.paths| && ReadRows(h, codec, m, data, i, files).Ok?
    ensures ReadRow(h, codec, m, data, j).Ok?
    decreases j - i
  {
    hide ReadRow;
    if i < j { RowRead(h, codec, m, data, i + 1, files[m.paths[i] := ReadRow(h, codec, m, data, i).value], j); }
  }

  lemma {:induction false} KindCovers(h: Hash, codec: Codec, c: Corpus, paths: seq<Bytes>, k: nat, i: nat, data: Bytes,
          x: nat)
    requires k < KIND_COUNT && i <= |paths| && PutKind(h, codec, c, paths, k, i, data).Ok?
    requires |data| <= x < |PutKind(h, codec, c, paths, k, i, data).value.0|
    ensures InSome(x, PutKind(h, codec, c, paths, k, i, data).value.1)
    decreases |paths| - i
  {
    hide EncodeAlone, SectionValue, RecordAt;
    var p := EncodeAlone(codec, SectionValue(k, RecordAt(c, paths[i])));
    var (data1, b) := Put(h, data, p).value;
    var bs := PutKind(h, codec, c, paths, k, i, data).value.1;
    if x < |data1| {
      assert InRange(x, bs[0]);
    } else {
      var rest := PutKind(h, codec, c, paths, k, i + 1, data1).value.1;
      KindCovers(h, codec, c, paths, k, i + 1, data1, x);
      var j :| 0 <= j < |rest| && InRange(x, rest[j]);
      assert bs[j + 1] == rest[j];
    }
  }

  ghost predicate InKinds(x: nat, kinds: seq<seq<Block>>) {
    exists k :: 0 <= k < |kinds| && InSome(x, kinds[k])
  }

  lemma {:induction false} KindsCover(h: Hash, codec: Codec, c: Corpus, paths: seq<Bytes>, k: nat, data: Bytes, x: nat)
    requires k <= KIND_COUNT && PutKinds(h, codec, c, paths, k, data).Ok?
    requires |data| <= x < |PutKinds(h, codec, c, paths, k, data).value.0|
    ensures InKinds(x, PutKinds(h, codec, c, paths, k, data).value.1)
    decreases KIND_COUNT - k
  {
    hide PutKind, InSome;
    var (data1, bs) := PutKind(h, codec, c, paths, k, 0, data).value;
    var kinds := PutKinds(h, codec, c, paths, k, data).value.1;
    if x < |data1| {
      KindCovers(h, codec, c, paths, k, 0, data, x);
      assert InSome(x, kinds[0]);
    } else {
      var rest := PutKinds(h, codec, c, paths, k + 1, data1).value.1;
      KindsCover(h, codec, c, paths, k + 1, data1, x);
      var j :| 0 <= j < |rest| && InSome(x, rest[j]);
      assert kinds[j + 1] == rest[j];
    }
  }

  /** Every byte of a finished v1 file is part of a block of the manifest. */
  lemma BlocksCover(h: Hash, codec: Codec, name: Bytes, c: Corpus, x: nat)
    requires Build(h, codec, name, c).Ok? && x < |Build(h, codec, name, c).value.1|
    ensures var m := Build(h, codec, name, c).value.0; InKinds(x, m.kinds) || InRange(x, m.vocabulary)
  {
    hide PutKinds, EncodeAlone, SortPaths, InKinds;
    var paths := SortPaths(c.paths);
    var data1 := PutKinds(h, codec, c, paths, 0, []).value.0;
    if x < |data1| { KindsCover(h, codec, c, paths, 0, [], x); }
  }

  lemma WholeSame(h: Hash, codec: Codec, m: Manifest, honest: Bytes, data: Bytes, x: nat)
    requires Shaped(m) && NoForgedRange(h, honest, data) && (InKinds(x, m.kinds) || InRange(x, m.vocabulary))
    requires ReadWhole(h, codec, m, honest).Ok? && ReadWhole(h, codec, m, data).Ok?
    ensures SameAt(honest, data, x)
  {
    hide ReadBlock, ReadRow, ReadRows, NoForgedRange, InRange, SameAt;
    if InRange(x, m.vocabulary) {
      BlockSame(h, codec, honest, data, m.vocabulary, TextsKind);
    } else {
      var k :| 0 <= k < |m.kinds| && InSome(x, m.kinds[k]);
      var i :| 0 <= i < |m.kinds[k]| && InRange(x, m.kinds[k][i]);
      RowRead(h, codec, m, honest, 0, map[], i);
      RowRead(h, codec, m, data, 0, map[], i);
      ReadRowSame(h, codec, m, honest, data, i);
    }
  }

  /** A whole read of a v1 pack answers, and then with what was stored, exactly if the
      file begins with every byte that was written. */
  lemma V1WholeReadsExactly(h: Hash, codec: Codec, name: Bytes, c: Corpus, data: Bytes)
    requires Lawful(codec) && Build(h, codec, name, c).Ok?
    requires NoForgedRange(h, Build(h, codec, name, c).value.1, data)
    ensures var (m, honest) := Build(h, codec, name, c).value; var r := ReadWhole(h, codec, m, data);
      && (honest <= data ==> r == Ok(StoredCorpus(c)))
      && (!(honest <= data) ==> r == Err(ChecksumMismatch) || (|data| < |honest| && r == Err(ShortRead)))
  {
    V1ReadsExact(h, codec, name, c, []);
    V1ReadsAreExactOrRefused(h, codec, name, c, data, []);
    var (m, honest) := Build(h, codec, name, c).value;
    if ReadWhole(h, codec, m, data).Ok? {
      forall x | 0 <= x < |honest| ensures SameAt(honest, data, x) {
        BlocksCover(h, codec, name, c, x);
        hide Lawful, Build, ReadWhole, StoredCorpus, NoForgedRange, SameAt, InKinds, InRange;
        WholeSame(h, codec, m, honest, data, x);
      }
      AllSame(honest, data);
    }
    hide Lawful, Build, ReadWhole, StoredCorpus, NoForgedRange, SameAt;
  }
}
